/** Machine words as strings of bits, most significant first, with C's bit operators, and
    the numbers that such strings spell. */
module BitMath {
  type bit = bool
  type octet = s: seq<bit> | |s| == 8 witness Zeros(8)

  // Operators on words.

  function Zeros(n: nat): (s: seq<bit>)
    ensures |s| == n
  {
    seq(n, _ => false)
  }

  function Ones(n: nat): (s: seq<bit>)
    ensures |s| == n
  {
    seq(n, _ => true)
  }

  function And(a: seq<bit>, b: seq<bit>): (s: seq<bit>)
    requires |a| == |b|
    ensures |s| == |a|
  {
    seq(|a|, i requires 0 <= i < |a| => a[i] && b[i])
  }

  function Or(a: seq<bit>, b: seq<bit>): (s: seq<bit>)
    requires |a| == |b|
    ensures |s| == |a|
  {
    seq(|a|, i requires 0 <= i < |a| => a[i] || b[i])
  }

  function Not(a: seq<bit>): (s: seq<bit>)
    ensures |s| == |a|
  {
    seq(|a|, i requires 0 <= i < |a| => !a[i])
  }

  function Shl(a: seq<bit>, k: nat): (s: seq<bit>)
    requires k <= |a|
    ensures |s| == |a|
  {
    a[k..] + Zeros(k)
  }

  function Shr(a: seq<bit>, k: nat): (s: seq<bit>)
    requires k <= |a|
    ensures |s| == |a|
  {
    Zeros(k) + a[..|a| - k]
  }

  /** An unsigned conversion to a wider type. */
  function Widen(a: seq<bit>, n: nat): (s: seq<bit>)
    requires |a| <= n
    ensures |s| == n
  {
    Zeros(n - |a|) + a
  }

  /** An unsigned conversion to a narrower type. */
  function Narrow(a: seq<bit>, n: nat): (s: seq<bit>)
    requires n <= |a|
    ensures |s| == n
  {
    a[|a| - n..]
  }

  // Numbers.

  function Pow2(n: nat): (p: nat)
    ensures p > 0
  {
    if n == 0 then 1 else 2 * Pow2(n - 1)
  }

  /** The low `n` bits of `v`. */
  function Bits(v: nat, n: nat): (s: seq<bit>)
    ensures |s| == n
  {
    if n == 0 then [] else Bits(v / 2, n - 1) + [v % 2 == 1]
  }

  /** The number that the bits spell. */
  function Val(s: seq<bit>): (v: nat) {
    if s == [] then 0 else 2 * Val(s[..|s| - 1]) + if s[|s| - 1] then 1 else 0
  }

  lemma ValBound(s: seq<bit>)
    ensures Val(s) < Pow2(|s|)
  {
    if s != [] {
      ValBound(s[..|s| - 1]);
    }
  }

  lemma {:induction false} ValOfBits(v: nat, n: nat)
    requires v < Pow2(n)
    ensures Val(Bits(v, n)) == v
  {
    if n > 0 {
      ValOfBits(v / 2, n - 1);
      assert Bits(v, n)[..n - 1] == Bits(v / 2, n - 1);
    }
  }

  lemma {:induction false} BitsOfVal(s: seq<bit>)
    ensures Bits(Val(s), |s|) == s
  {
    if s != [] {
      BitsOfVal(s[..|s| - 1]);
      assert Val(s) / 2 == Val(s[..|s| - 1]);
    }
  }

  /** The low bits are the end of the string. */
  lemma {:induction false} BitsSuffix(v: nat, n: nat, k: nat)
    requires k <= n
    ensures Bits(v, n)[n - k..] == Bits(v, k)
  {
    if k > 0 {
      BitsSuffix(v / 2, n - 1, k - 1);
      assert Bits(v, n)[n - k..] == Bits(v / 2, n - 1)[n - k..] + [v % 2 == 1];
    }
  }

  lemma {:induction false} BitsOfZero(n: nat)
    ensures Bits(0, n) == Zeros(n)
  {
    if n > 0 {
      BitsOfZero(n - 1);
    }
  }

  lemma {:induction false} ValOfOnes(n: nat)
    ensures Val(Ones(n)) == Pow2(n) - 1
  {
    if n > 0 {
      ValOfOnes(n - 1);
      assert Ones(n)[..n - 1] == Ones(n - 1);
    }
  }

  lemma {:induction false} ValConcat(s: seq<bit>, t: seq<bit>)
    ensures Val(s + t) == Val(s) * Pow2(|t|) + Val(t)
  {
    if t == [] {
      assert s + t == s;
    } else {
      var t' := t[..|t| - 1];
      ValConcat(s, t');
      assert (s + t)[..|s + t| - 1] == s + t';
      TwicePow2(Val(s), |t|);
    }
  }

  lemma TwicePow2(a: nat, n: nat)
    requires n > 0
    ensures a * Pow2(n) == 2 * (a * Pow2(n - 1))
  {
  }

  lemma {:induction false} ValOfZeros(n: nat)
    ensures Val(Zeros(n)) == 0
  {
    if n > 0 {
      ValOfZeros(n - 1);
      assert Zeros(n)[..n - 1] == Zeros(n - 1);
    }
  }

  lemma {:induction false} ValOfWiden(s: seq<bit>, n: nat)
    requires |s| <= n
    ensures Val(Widen(s, n)) == Val(s)
  {
    if s == [] {
      ValOfZeros(n);
      assert Widen(s, n) == Zeros(n);
    } else {
      ValOfWiden(s[..|s| - 1], n - 1);
      assert Widen(s, n)[..n - 1] == Widen(s[..|s| - 1], n - 1);
    }
  }

  // Byte strings as bit strings.

  function Stream(s: seq<octet>): (bits: seq<bit>)
    ensures |bits| == 8 * |s|
  {
    seq(8 * |s|, k requires 0 <= k < 8 * |s| => s[k / 8][k % 8])
  }

  lemma StreamAt(s: seq<octet>, i: nat)
    requires i < |s|
    ensures Stream(s)[8 * i..8 * i + 8] == s[i]
  {
    forall j | 0 <= j < 8
      ensures Stream(s)[8 * i + j] == s[i][j]
    {
      assert (8 * i + j) / 8 == i && (8 * i + j) % 8 == j;
    }
  }

  lemma StreamUpdate(s: seq<octet>, i: nat, b: octet)
    requires i < |s|
    ensures Stream(s[i := b]) == Stream(s)[..8 * i] + b + Stream(s)[8 * i + 8..]
  {
    StreamAt(s[i := b], i);
    var t := Stream(s[i := b]);
    forall k | 0 <= k < 8 * |s| && k / 8 != i
      ensures t[k] == Stream(s)[k]
    {
    }
    assert t == t[..8 * i] + t[8 * i..8 * i + 8] + t[8 * i + 8..];
  }
}
