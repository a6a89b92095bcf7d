/** The variable-length codes of BitBuffer, on bit strings: unsigned and signed
    Exp-Golomb (sections 9.1 and 9.1.1 of ITU-T H.264) and the non-symmetric code ns(n)
    (section 4.10.7 of the AV1 bitstream specification). */
module BitCodes {
  import opened BitMath
  import opened Numbers

  const UINT64_MAX: int := 0xFFFF_FFFF_FFFF_FFFF
  const INT32_MAX: int := 0x7FFF_FFFF

  /** A decoded value and the number of bits it took. */
  datatype Read<+T> = Got(value: T, used: nat) | NoCode

  function BitLength(v: nat): (n: nat) {
    if v == 0 then 0 else 1 + BitLength(v / 2)
  }

  lemma {:induction false} BitLengthBounds(v: nat)
    requires v > 0
    ensures BitLength(v) > 0 && Pow2(BitLength(v) - 1) <= v < Pow2(BitLength(v))
  {
    if v > 1 {
      BitLengthBounds(v / 2);
    }
  }

  lemma {:induction false} BitLengthUnique(v: nat, n: nat)
    requires n > 0 && Pow2(n - 1) <= v < Pow2(n)
    ensures BitLength(v) == n
  {
    if n > 1 {
      BitLengthUnique(v / 2, n - 1);
    }
  }

  lemma Pow2Monotone(m: nat, n: nat)
    requires m <= n
    ensures Pow2(m) <= Pow2(n)
  {
    if m < n {
      Pow2Monotone(m, n - 1);
    }
  }

  lemma BitLengthAtMost(v: nat, n: nat)
    requires v < Pow2(n)
    ensures BitLength(v) <= n
  {
    if v > 0 && BitLength(v) > n {
      BitLengthBounds(v);
      Pow2Monotone(n, BitLength(v) - 1);
      assert false;
    }
  }

  /** The bits of a number that is too short for them start with zeros. */
  lemma {:induction false} BitsOfShort(v: nat, n: nat, m: nat)
    requires v < Pow2(n) && n <= m
    ensures Bits(v, m) == Zeros(m - n) + Bits(v, n)
  {
    if n == 0 {
      BitsOfZero(m);
    } else {
      BitsOfShort(v / 2, n - 1, m - 1);
      assert Zeros(m - n) + Bits(v / 2, n - 1) + [v % 2 == 1] == Zeros(m - n) + (Bits(v / 2, n - 1) + [v % 2 == 1]);
    }
  }

  lemma {:induction false} TopBit(v: nat, n: nat)
    requires n > 0 && v < Pow2(n)
    ensures Bits(v, n)[0] <==> v >= Pow2(n - 1)
  {
    if n > 1 {
      TopBit(v / 2, n - 1);
    }
  }

  lemma TopBitOfVal(s: seq<bit>)
    requires s != []
    ensures s[0] <==> Val(s) >= Pow2(|s| - 1)
  {
    ValBound(s);
    BitsOfVal(s);
    TopBit(Val(s), |s|);
  }

  // Unsigned Exp-Golomb.

  function EncodeUe(v: nat): (s: seq<bit>) {
    Golomb(v + 1)
  }

  /** A positive number below as many zeros as bits follow its first one. */
  function Golomb(x: nat): (s: seq<bit>)
    requires x > 0
  {
    Bits(x, BitLength(x) * 2 - 1)
  }

  function LeadingZeros(s: seq<bit>): (n: nat)
    ensures n <= |s|
    ensures forall i :: 0 <= i < n ==> !s[i]
    ensures n < |s| ==> s[n]
  {
    if s == [] || s[0] then 0 else 1 + LeadingZeros(s[1..])
  }

  lemma LeadingZerosUnique(s: seq<bit>, n: nat)
    requires n < |s| && s[n] && forall i :: 0 <= i < n ==> !s[i]
    ensures LeadingZeros(s) == n
  {
  }

  function DecodeUe(s: seq<bit>): (r: Read<nat>) {
    var z := LeadingZeros(s);
    var n := z + 1;
    if n > 32 || n > |s[z..]| then NoCode
    else
      TopBitOfVal(s[z..][..n]);
      Got(Val(s[z..][..n]) - 1, z + n)
  }

  lemma GolombShape(x: nat)
    requires x > 0
    ensures var n := BitLength(x);
            n > 0 && Golomb(x) == Zeros(n - 1) + Bits(x, n) && Bits(x, n)[0]
  {
    BitLengthBounds(x);
    BitsOfShort(x, BitLength(x), 2 * BitLength(x) - 1);
    TopBit(x, BitLength(x));
  }

  lemma ZerosThenOne(z: nat, b: seq<bit>, rest: seq<bit>)
    requires b != [] && b[0]
    ensures LeadingZeros(Zeros(z) + b + rest) == z
    ensures (Zeros(z) + b + rest)[z..][..|b|] == b
  {
    var s := Zeros(z) + b + rest;
    assert s[z] == b[0];
    LeadingZerosUnique(s, z);
  }

  /** The codeword of `v` is `v + 1` in binary, below one zero less than it has bits. */
  lemma UeCodeword(v: nat, n: nat)
    requires 0 < n && Pow2(n - 1) <= v + 1 < Pow2(n)
    ensures EncodeUe(v) == Zeros(n - 1) + Bits(v + 1, n) && Val(EncodeUe(v)) == v + 1
  {
    hide Bits, Val, Zeros, BitLength;
    BitLengthUnique(v + 1, n);
    GolombShape(v + 1);
    Pow2Monotone(n, 2 * n - 1);
    ValOfBits(v + 1, 2 * n - 1);
  }

  lemma UeValue(v: nat)
    ensures Val(EncodeUe(v)) == v + 1
  {
    hide EncodeUe, Val, Pow2, BitLength;
    BitLengthBounds(v + 1);
    UeCodeword(v, BitLength(v + 1));
  }

  /** Decoding inverts encoding, whatever bits follow. */
  lemma DecodeEncodeUe(v: nat, rest: seq<bit>)
    requires v < UINT32_MAX
    ensures DecodeUe(EncodeUe(v) + rest) == Got(v, |EncodeUe(v)|)
  {
    var x := v + 1;
    var n := BitLength(x);
    GolombShape(x);
    ZerosThenOne(n - 1, Bits(x, n), rest);
    assert n <= 32 by {
      Pow2At32();
      BitLengthAtMost(x, 32);
    }
    assert Val(Bits(x, n)) == x by {
      BitLengthBounds(x);
      ValOfBits(x, n);
    }
  }

  lemma GolombOfParts(t: seq<bit>)
    requires t != [] && t[0]
    ensures Val(t) > 0 && Golomb(Val(t)) == Zeros(|t| - 1) + t
  {
    TopBitOfVal(t);
    ValBound(t);
    BitLengthUnique(Val(t), |t|);
    GolombShape(Val(t));
    BitsOfVal(t);
  }

  /** Encoding inverts decoding: the bits consumed are the codeword of the value. */
  lemma EncodeDecodeUe(s: seq<bit>)
    requires DecodeUe(s).Got?
    ensures var r := DecodeUe(s);
            r.used <= |s| && r.value < UINT32_MAX && EncodeUe(r.value) == s[..r.used]
  {
    var z := LeadingZeros(s);
    var t := s[z..][..z + 1];
    assert Val(t) < Pow2(32) by {
      ValBound(t);
      Pow2Monotone(z + 1, 32);
    }
    Pow2At32();
    GolombOfParts(t);
    assert s[..2 * z + 1] == Zeros(z) + t;
  }

  lemma Pow2At32()
    ensures Pow2(31) == 0x8000_0000 && Pow2(32) == 0x1_0000_0000
  {
    assert Pow2(7) == 128 && Pow2(8) == 256;
    Pow2Add(8, 8);
    Pow2Add(16, 8);
    Pow2Add(24, 7);
    Pow2Add(24, 8);
  }

  lemma Pow2Add(m: nat, n: nat)
    ensures Pow2(m + n) == Pow2(m) * Pow2(n)
  {
    if m > 0 {
      Pow2Add(m - 1, n);
    }
  }

  /** Decoding succeeds on exactly the strings that start with a codeword. */
  lemma DecodesIffCodewordUe(s: seq<bit>)
    ensures DecodeUe(s).Got? <==> exists v :: 0 <= v < UINT32_MAX && EncodeUe(v) <= s
  {
    if DecodeUe(s).Got? {
      EncodeDecodeUe(s);
    }
    if v: nat :| v < UINT32_MAX && EncodeUe(v) <= s {
      DecodeEncodeUe(v, s[|EncodeUe(v)|..]);
      assert s == EncodeUe(v) + s[|EncodeUe(v)|..];
    }
  }

  // Signed Exp-Golomb: 0, 1, -1, 2, -2, ... in order.

  function SignedToUnsigned(v: int): (u: nat) {
    if v > 0 then 2 * v - 1 else -2 * v
  }

  function UnsignedToSigned(u: nat): (v: int) {
    if u % 2 == 0 then -(u / 2) else (u + 1) / 2
  }

  lemma SignedUnsigned(u: nat)
    ensures SignedToUnsigned(UnsignedToSigned(u)) == u
  {
  }

  function EncodeSe(v: int): (s: seq<bit>) {
    EncodeUe(SignedToUnsigned(v))
  }

  function DecodeSe(s: seq<bit>): (r: Read<int>) {
    match DecodeUe(s)
    case NoCode => NoCode
    case Got(u, used) => Got(UnsignedToSigned(u), used)
  }

  /** The signed values are numbered 0, 1, -1, 2, -2 and so on: by their size, and of two of
      one size the positive one first. */
  lemma SeOrder(v: int, w: int)
    ensures Val(EncodeSe(0)) == 1
    ensures v > 0 ==> Val(EncodeSe(v)) == 2 * v && Val(EncodeSe(-v)) == 2 * v + 1
    ensures Size(v) < Size(w) ==> Val(EncodeSe(v)) < Val(EncodeSe(w))
  {
    hide EncodeUe, Val;
    UeValue(SignedToUnsigned(0));
    UeValue(SignedToUnsigned(v));
    UeValue(SignedToUnsigned(-v));
    UeValue(SignedToUnsigned(w));
  }

  function Size(v: int): nat {
    if v < 0 then -v else v
  }

  lemma DecodeEncodeSe(v: int, rest: seq<bit>)
    requires -INT32_MAX <= v <= INT32_MAX
    ensures DecodeSe(EncodeSe(v) + rest) == Got(v, |EncodeSe(v)|)
  {
    DecodeEncodeUe(SignedToUnsigned(v), rest);
  }

  /** No codeword decodes to INT32_MIN, or past either end of the 32-bit range. */
  lemma EncodeDecodeSe(s: seq<bit>)
    requires DecodeSe(s).Got?
    ensures var r := DecodeSe(s);
            r.used <= |s| && -INT32_MAX <= r.value <= INT32_MAX && EncodeSe(r.value) == s[..r.used]
  {
    EncodeDecodeUe(s);
    SignedUnsigned(DecodeUe(s).value);
  }

  // Non-symmetric values: 0 <= v < n, the first few in one bit less.

  predicate NsRange(n: nat) {
    0 < n < 0x8000_0000
  }

  function ShortNsCodes(n: nat): (k: nat)
    requires NsRange(n)
  {
    BitLengthBounds(n);
    Pow2(BitLength(n)) - n
  }

  function NsSize(v: nat, n: nat): (size: nat)
    requires v < n && NsRange(n)
  {
    BitLengthBounds(n);
    if v < ShortNsCodes(n) then BitLength(n) - 1 else BitLength(n)
  }

  function EncodeNs(v: nat, n: nat): (s: seq<bit>)
    requires v < n && NsRange(n)
  {
    if n == 1 then []
    else Bits(if v < ShortNsCodes(n) then v else v + ShortNsCodes(n), NsSize(v, n))
  }

  function DecodeNs(s: seq<bit>, n: nat): (r: Read<nat>)
    requires NsRange(n)
  {
    if n == 1 then Got(0, 0)
    else
      BitLengthBounds(n);
      var c, k := BitLength(n), ShortNsCodes(n);
      if |s| < c - 1 then NoCode
      else if Val(s[..c - 1]) < k then Got(Val(s[..c - 1]), c - 1)
      else if |s| < c then NoCode
      else Got(Val(s[..c - 1]) * 2 + (if s[c - 1] then 1 else 0) - k, c)
  }

  lemma ValSnoc(s: seq<bit>, c: nat)
    requires 0 < c <= |s|
    ensures Val(s[..c]) == 2 * Val(s[..c - 1]) + if s[c - 1] then 1 else 0
  {
    assert s[..c][..c - 1] == s[..c - 1];
  }

  lemma DecodeEncodeNs(v: nat, n: nat, rest: seq<bit>)
    requires v < n && NsRange(n)
    ensures DecodeNs(EncodeNs(v, n) + rest, n) == Got(v, |EncodeNs(v, n)|)
  {
    if n > 1 {
      BitLengthBounds(n);
      var c, k := BitLength(n), ShortNsCodes(n);
      var s := EncodeNs(v, n) + rest;
      if v < k {
        assert s[..c - 1] == Bits(v, c - 1);
        ValOfBits(v, c - 1);
      } else {
        assert s[..c] == Bits(v + k, c);
        ValOfBits(v + k, c);
        ValSnoc(s, c);
      }
    }
  }

  /** Whatever bits decode give a value in range, from exactly its codeword's bits. */
  lemma EncodeDecodeNs(s: seq<bit>, n: nat)
    requires NsRange(n) && DecodeNs(s, n).Got?
    ensures var r := DecodeNs(s, n);
            && r.used <= |s| && r.value < n
            && r.used == NsSize(r.value, n)
            && EncodeNs(r.value, n) == s[..r.used]
  {
    BitLengthBounds(n);
    var c, k := BitLength(n), ShortNsCodes(n);
    if n == 1 {
      assert BitLength(1) == 1 && k == 1;
    } else if Val(s[..c - 1]) < k {
      BitsOfVal(s[..c - 1]);
    } else {
      ValSnoc(s, c);
      ValBound(s[..c]);
      BitsOfVal(s[..c]);
    }
  }

  /** With `w` the number of bits of `n`, the first values have `w - 1` bits and spell
      themselves; the others have `w` bits and follow on. */
  lemma NsCodeword(v: nat, n: nat, w: nat)
    requires v < n && NsRange(n) && 0 < w && Pow2(w - 1) <= n < Pow2(w)
    ensures v < Pow2(w) - n ==> |EncodeNs(v, n)| == w - 1 && Val(EncodeNs(v, n)) == v
    ensures v >= Pow2(w) - n ==> |EncodeNs(v, n)| == w && Val(EncodeNs(v, n)) == v + (Pow2(w) - n)
  {
    BitLengthUnique(n, w);
    if n > 1 {
      if v < Pow2(w) - n {
        ValOfBits(v, w - 1);
      } else {
        ValOfBits(v + (Pow2(w) - n), w);
      }
    }
  }

  /** Smaller values have the earlier codewords. */
  lemma NsOrder(u: nat, v: nat, n: nat)
    requires u < v < n && NsRange(n)
    ensures var a, b := EncodeNs(u, n), EncodeNs(v, n);
            |a| <= |b| && Val(a) * Pow2(|b| - |a|) < Val(b)
  {
    hide EncodeNs, Val, Bits, BitLength;
    BitLengthBounds(n);
    NsCodeword(u, n, BitLength(n));
    NsCodeword(v, n, BitLength(n));
  }

  /** No codeword is the start of another. */
  lemma NsPrefixFree(v: nat, w: nat, n: nat)
    requires v < n && w < n && NsRange(n)
    requires EncodeNs(v, n) <= EncodeNs(w, n)
    ensures v == w
  {
    var a, b := EncodeNs(v, n), EncodeNs(w, n);
    DecodeEncodeNs(v, n, b[|a|..]);
    DecodeEncodeNs(w, n, []);
    assert b == a + b[|a|..] && b + [] == b;
  }
}
