/** BitBuffer and BitBufferWriter: reads and writes of any number of bits at any bit
    offset of a byte array. What every operation does is said on the array seen as one
    string of bits, `Stream`, most significant bit of each byte first. */
module BitBuffers {
  import opened BitMath
  import opened BitCodes
  import opened Numbers

  // The bit helpers. Bytes, 32-bit and 64-bit variables are strings of bits.

  /** (1 << count) - 1. */
  function LowMask(count: nat): octet
    requires count <= 8
  {
    Widen(Ones(count), 8)
  }

  lemma LowMaskIsPow2Minus1(count: nat)
    requires count <= 8
    ensures Val(LowMask(count)) == Pow2(count) - 1
  {
    ValOfWiden(Ones(count), 8);
    ValOfOnes(count);
  }

  function LowestBits(b: octet, count: nat): octet
    requires count <= 8
  {
    And(b, LowMask(count))
  }

  function HighestBits(b: octet, count: nat): octet
    requires count <= 8
  {
    var shift := 8 - count;
    var mask := Shl(Ones(8), shift);
    Shr(And(b, mask), shift)
  }

  function HighestByte(val: seq<bit>): octet
    requires |val| == 64
  {
    Narrow(Shr(val, 56), 8)
  }

  /** `target` with the `count` highest bits of `source` written at `offset`. */
  function WritePartialByte(source: octet, count: nat, target: octet, offset: nat): octet
    requires offset < 8 && count <= 8 - offset
  {
    var mask := Shr(Shl(Ones(8), 8 - count), offset);
    Or(And(target, Not(mask)), Shr(source, offset))
  }

  lemma LowestBitsKept(b: octet, count: nat)
    requires count <= 8
    ensures LowestBits(b, count) == Widen(b[8 - count..], 8)
  {
  }

  lemma HighestBitsKept(b: octet, count: nat)
    requires count <= 8
    ensures HighestBits(b, count) == Widen(b[..count], 8)
  {
    var mask := Shl(Ones(8), 8 - count);
    assert And(b, mask)[..count] == b[..count] by {
      assert forall i :: 0 <= i < count ==> mask[i];
    }
  }

  lemma HighestByteKept(val: seq<bit>)
    requires |val| == 64
    ensures HighestByte(val) == val[..8]
  {
  }

  /** Only the bits written change, and they are the highest bits of `source`, provided it
      has zeros between them and the end of the target byte. */
  lemma WritePartialByteWrites(source: octet, count: nat, target: octet, offset: nat)
    requires offset < 8 && count <= 8 - offset
    requires forall i :: count <= i < 8 - offset ==> !source[i]
    ensures WritePartialByte(source, count, target, offset)
         == target[..offset] + source[..count] + target[offset + count..]
  {
  }

  // Slices and conversions.

  /** `n` bits of the buffer, from bit `p` on. */
  function Window(s: seq<octet>, p: nat, n: nat): (w: seq<bit>)
    requires p + n <= 8 * |s|
    ensures |w| == n
  {
    Stream(s)[p..p + n]
  }

  lemma WindowSplit(s: seq<octet>, p: nat, n: nat, m: nat)
    requires m <= n && p + n <= 8 * |s|
    ensures Window(s, p, n) == Window(s, p, m) + Window(s, p + m, n - m)
  {
  }

  lemma WindowInByte(s: seq<octet>, i: nat, offset: nat, n: nat)
    requires i < |s| && offset + n <= 8
    ensures Window(s, 8 * i + offset, n) == s[i][offset..offset + n]
  {
    StreamAt(s, i);
    assert Window(s, 8 * i + offset, n) == Stream(s)[8 * i..8 * i + 8][offset..offset + n];
  }

  lemma WidenFront(s: seq<bit>, count: nat, end: nat, n: nat)
    requires count <= |s| <= n && end == n - |s| + count
    ensures Widen(s, n)[..end] == Widen(s[..count], end)
  {
  }

  lemma WidenTwice(s: seq<bit>, m: nat, n: nat)
    requires |s| <= m <= n
    ensures Widen(Widen(s, m), n) == Widen(s, n)
    ensures Narrow(Widen(s, n), m) == Widen(s, m)
  {
  }

  // Reading.

  /** Shifting `k` more bits in below the bits read so far. */
  lemma ShiftIn(bits: seq<bit>, more: seq<bit>, n: nat)
    requires |bits| + |more| <= n
    ensures Or(Shl(Widen(bits, n), |more|), Widen(more, n)) == Widen(bits + more, n)
  {
  }

  /** What a peek makes of the bytes from `next` on, `rest` bits of them, below the `bits`
      it already has: whole bytes, then the front of one more. */
  function ReadFrom(s: seq<octet>, bits: seq<bit>, next: nat, rest: nat): (r: seq<bit>)
    requires |bits| == 32 && 8 * next + rest <= 8 * |s|
    ensures |r| == 32
    decreases rest
  {
    if rest >= 8 then
      ReadFrom(s, Or(Shl(bits, 8), Widen(s[next], 32)), next + 1, rest - 8)
    else if 0 < rest then
      Or(Shl(bits, rest), Widen(HighestBits(s[next], rest), 32))
    else bits
  }

  lemma {:induction false} ReadFromReads(s: seq<octet>, got: seq<bit>, next: nat, rest: nat, q: nat)
    requires q == 8 * next && q + rest <= 8 * |s| && |got| + rest <= 32
    ensures ReadFrom(s, Widen(got, 32), next, rest) == Widen(got + Window(s, q, rest), 32)
    decreases rest
  {
    hide Or, Shl, Widen, Window, HighestBits;
    if rest >= 8 {
      WindowInByte(s, next, 0, 8);
      assert s[next][0..8] == s[next];
      ShiftIn(got, s[next], 32);
      ReadFromReads(s, got + s[next], next + 1, rest - 8, q + 8);
      WindowSplit(s, q, rest, 8);
      Regroup(got, s[next], Window(s, q + 8, rest - 8));
    } else if rest > 0 {
      FrontOfByteRead(s, got, next, rest, q);
    } else {
      assert Window(s, q, rest) == [] && got + [] == got;
    }
  }

  lemma FrontOfByteRead(s: seq<octet>, got: seq<bit>, i: nat, n: nat, q: nat)
    requires i < |s| && n <= 8 && q == 8 * i && |got| + n <= 32
    ensures Or(Shl(Widen(got, 32), n), Widen(HighestBits(s[i], n), 32)) == Widen(got + Window(s, q, n), 32)
  {
    WindowInByte(s, i, 0, n);
    HighestBitsKept(s[i], n);
    WidenTwice(s[i][..n], 8, 32);
    ShiftIn(got, s[i][..n], 32);
  }

  lemma Regroup(a: seq<bit>, b: seq<bit>, c: seq<bit>)
    ensures (a + b) + c == a + (b + c)
  {
  }

  /** The whole peek, at bit `offset` of byte `i`. */
  function Peek(s: seq<octet>, i: nat, offset: nat, count: nat): (r: seq<bit>)
    requires offset < 8 && 0 < count <= 32 && 8 * i + offset + count <= 8 * |s|
    ensures |r| == 32
  {
    var left := 8 - offset;
    var bits := Widen(LowestBits(s[i], left), 32);
    if count < left then Widen(HighestBits(Narrow(bits, 8), offset + count), 32)
    else ReadFrom(s, bits, i + 1, count - left)
  }

  /** A peek gives the number that the bits at the current position spell. */
  lemma PeekReads(s: seq<octet>, i: nat, offset: nat, count: nat)
    requires offset < 8 && 0 < count <= 32 && 8 * i + offset + count <= 8 * |s|
    ensures Peek(s, i, offset, count) == Widen(Window(s, 8 * i + offset, count), 32)
  {
    if count < 8 - offset {
      MiddleOfByteRead(s, i, offset, count, offset + count);
    } else {
      AcrossBytesRead(s, i, offset, count, 8 - offset);
    }
  }

  lemma AcrossBytesRead(s: seq<octet>, i: nat, offset: nat, count: nat, left: nat)
    requires offset + left == 8 && 0 < left <= count <= 32 && 8 * i + offset + count <= 8 * |s|
    ensures ReadFrom(s, Widen(LowestBits(s[i], left), 32), i + 1, count - left)
         == Widen(Window(s, 8 * i + offset, count), 32)
  {
    hide *;
    TailOfByteRead(s, i, offset);
    WindowSplit(s, 8 * i + offset, count, left);
    ReadFromReads(s, Window(s, 8 * i + offset, left), i + 1, count - left, 8 * i + offset + left);
  }

  lemma TailOfByteRead(s: seq<octet>, i: nat, offset: nat)
    requires i < |s| && offset < 8
    ensures Widen(LowestBits(s[i], 8 - offset), 32) == Widen(Window(s, 8 * i + offset, 8 - offset), 32)
  {
    WindowInByte(s, i, offset, 8 - offset);
    LowestBitsKept(s[i], 8 - offset);
    WidenTwice(s[i][offset..], 8, 32);
  }

  lemma MiddleOfByteRead(s: seq<octet>, i: nat, offset: nat, count: nat, end: nat)
    requires i < |s| && offset + count == end <= 8
    ensures Widen(HighestBits(Narrow(Widen(LowestBits(s[i], 8 - offset), 32), 8), end), 32)
         == Widen(Window(s, 8 * i + offset, count), 32)
  {
    hide Widen, Narrow, Window, LowestBits, HighestBits;
    var tail, middle := s[i][offset..], s[i][offset..end];
    WindowInByte(s, i, offset, count);
    LowestBitsKept(s[i], 8 - offset);
    WidenTwice(tail, 8, 32);
    HighestBitsKept(Widen(tail, 8), end);
    assert tail[..count] == middle;
    WidenFront(tail, count, end, 8);
    WidenTwice(middle, end, 8);
    WidenTwice(middle, 8, 32);
  }

  // Writing.

  /** `s` with `b` written over it at `p`. */
  function Splice(s: seq<bit>, p: nat, b: seq<bit>): (t: seq<bit>)
    requires p + |b| <= |s|
    ensures |t| == |s|
  {
    s[..p] + b + s[p + |b|..]
  }

  lemma SpliceNothing(s: seq<bit>, p: nat)
    requires p <= |s|
    ensures Splice(s, p, []) == s
  {
  }

  /** A write in two pieces. */
  lemma SpliceTwice(s: seq<bit>, p: nat, b: seq<bit>, k: nat)
    requires p + |b| <= |s| && k <= |b|
    ensures Splice(Splice(s, p, b[..k]), p + k, b[k..]) == Splice(s, p, b)
  {
  }

  /** A 64-bit variable with `b` in its highest bits, and zeros below. */
  function Held(b: seq<bit>): (v: seq<bit>)
    requires |b| <= 64
    ensures |v| == 64
  {
    b + Zeros(64 - |b|)
  }

  lemma ShiftedIsHeld(val: seq<bit>, count: nat)
    requires |val| == 64 && count <= 64
    ensures Shl(val, 64 - count) == Held(Narrow(val, count))
  {
  }

  lemma HeldRest(b: seq<bit>, k: nat)
    requires k <= |b| <= 64
    ensures Shl(Held(b), k) == Held(b[k..])
  {
  }

  /** Writing the first `k` bits held into byte `i` from bit `p` on. */
  lemma PieceWritten(s: seq<octet>, p: nat, i: nat, b: seq<bit>, k: nat)
    requires i < |s| && 8 * i <= p < 8 * i + 8 && k <= |b| <= 64 && p + k <= 8 * i + 8
    requires k == |b| || p + k == 8 * i + 8
    ensures Stream(s[i := WritePartialByte(HighestByte(Held(b)), k, s[i], p - 8 * i)])
         == Splice(Stream(s), p, b[..k])
  {
    var source, offset := HighestByte(Held(b)), p - 8 * i;
    HighestByteKept(Held(b));
    WritePartialByteWrites(source, k, s[i], offset);
    assert source[..k] == b[..k];
    ByteWritten(s, p, i, b[..k]);
  }

  lemma ByteWritten(s: seq<octet>, p: nat, i: nat, b: seq<bit>)
    requires i < |s| && 8 * i <= p < 8 * i + 8 && p + |b| <= 8 * i + 8
    ensures Stream(s[i := s[i][..p - 8 * i] + b + s[i][p - 8 * i + |b|..]]) == Splice(Stream(s), p, b)
  {
    var changed: octet := s[i][..p - 8 * i] + b + s[i][p - 8 * i + |b|..];
    StreamUpdate(s, i, changed);
    StreamAt(s, i);
    SpliceInside(Stream(s), 8 * i, 8 * i + 8, p, b);
  }

  lemma SpliceInside(t: seq<bit>, from: nat, to: nat, p: nat, b: seq<bit>)
    requires from <= p && p + |b| <= to <= |t|
    ensures t[..from] + (t[from..to][..p - from] + b + t[from..to][p - from + |b|..]) + t[to..] == Splice(t, p, b)
  {
  }

  lemma WholeByteWritten(s: seq<octet>, i: nat, b: seq<bit>)
    requires i < |s| && 8 <= |b| <= 64
    ensures Stream(s[i := HighestByte(Held(b))]) == Splice(Stream(s), 8 * i, b[..8])
  {
    HighestByteKept(Held(b));
    assert Held(b)[..8] == b[..8];
    StreamUpdate(s, i, b[..8]);
  }

  /** What a write leaves in the buffer once it has reached byte `next`, with `rest` bits to
      go in the top of `v`: whole bytes, then the front of one more. */
  function WriteFrom(s: seq<octet>, v: seq<bit>, next: nat, rest: nat): (t: seq<octet>)
    requires |v| == 64 && 8 * next + rest <= 8 * |s|
    ensures |t| == |s|
    decreases rest
  {
    if rest >= 8 then
      WriteFrom(s[next := HighestByte(v)], Shl(v, 8), next + 1, rest - 8)
    else if rest > 0 then
      s[next := WritePartialByte(HighestByte(v), rest, s[next], 0)]
    else s
  }

  lemma {:induction false} WriteFromSplices(s: seq<octet>, next: nat, b: seq<bit>)
    requires |b| <= 64 && 8 * next + |b| <= 8 * |s|
    ensures Stream(WriteFrom(s, Held(b), next, |b|)) == Splice(Stream(s), 8 * next, b)
    decreases |b|
  {
    if |b| >= 8 {
      WholeByteWritten(s, next, b);
      HeldRest(b, 8);
      WriteFromSplices(s[next := HighestByte(Held(b))], next + 1, b[8..]);
      SpliceTwice(Stream(s), 8 * next, b, 8);
    } else if |b| > 0 {
      PieceWritten(s, 8 * next, next, b, |b|);
      assert b[..|b|] == b;
    } else {
      assert Splice(Stream(s), 8 * next, b) == Stream(s);
    }
  }

  /** The whole write, at bit `offset` of byte `i`. */
  function Write(s: seq<octet>, i: nat, offset: nat, val: seq<bit>, count: nat): (t: seq<octet>)
    requires |val| == 64 && offset < 8 && 0 < count <= 64 && 8 * i + offset + count <= 8 * |s|
    ensures |t| == |s|
  {
    var v := Shl(val, 64 - count);
    var first := if count < 8 - offset then count else 8 - offset;
    var s' := s[i := WritePartialByte(HighestByte(v), first, s[i], offset)];
    if count <= 8 - offset then s' else WriteFrom(s', Shl(v, first), i + 1, count - first)
  }

  /** A write sets exactly its own bits, and leaves every other bit of the buffer alone. */
  lemma WriteSplices(s: seq<octet>, i: nat, offset: nat, val: seq<bit>, count: nat)
    requires |val| == 64 && offset < 8 && 0 < count <= 64 && 8 * i + offset + count <= 8 * |s|
    ensures Stream(Write(s, i, offset, val, count)) == Splice(Stream(s), 8 * i + offset, Narrow(val, count))
  {
    hide Stream, Splice, Shl, Narrow, Held, WriteFrom, WritePartialByte, HighestByte;
    ShiftedIsHeld(val, count);
    HeldWritten(s, 8 * i + offset, i, Narrow(val, count), if count < 8 - offset then count else 8 - offset);
  }

  lemma BitsWritten(s: seq<octet>, i: nat, offset: nat, val: nat, count: nat)
    requires offset < 8 && 0 < count <= 64 && 8 * i + offset + count <= 8 * |s|
    ensures Stream(Write(s, i, offset, Bits(val, 64), count)) == Splice(Stream(s), 8 * i + offset, Bits(val, count))
  {
    BitsSuffix(val, 64, count);
    WriteSplices(s, i, offset, Bits(val, 64), count);
  }

  /** The first `k` bits held go into byte `i`, from bit `p` on, and the rest after it. */
  lemma HeldWritten(s: seq<octet>, p: nat, i: nat, b: seq<bit>, k: nat)
    requires i < |s| && 8 * i <= p < 8 * i + 8 && |b| <= 64 && p + |b| <= 8 * |s|
    requires k <= |b| && p + k <= 8 * i + 8 && (k == |b| || p + k == 8 * i + 8)
    ensures var s' := s[i := WritePartialByte(HighestByte(Held(b)), k, s[i], p - 8 * i)];
            var t := if k == |b| then s' else WriteFrom(s', Shl(Held(b), k), i + 1, |b| - k);
            Stream(t) == Splice(Stream(s), p, b)
  {
    PieceWritten(s, p, i, b, k);
    if k == |b| {
      assert b[..k] == b;
    } else {
      HeldRest(b, k);
      WriteFromSplices(s[i := WritePartialByte(HighestByte(Held(b)), k, s[i], p - 8 * i)], i + 1, b[k..]);
      SpliceTwice(Stream(s), p, b, k);
    }
  }

  class BitBuffer {
    const bytes: array<octet>
    var byteOffset: nat
    var bitOffset: nat

    ghost predicate Valid()
      reads this
    {
      bitOffset < 8 && 8 * byteOffset + bitOffset <= 8 * bytes.Length
    }

    ghost function Pos(): nat
      reads this
    {
      8 * byteOffset + bitOffset
    }

    /** The bits still to be read. */
    ghost function Rest(): seq<bit>
      requires Valid()
      reads this, bytes
    {
      Stream(bytes[..])[Pos()..]
    }

    function Remaining(): nat
      requires Valid()
      reads this
    {
      (bytes.Length - byteOffset) * 8 - bitOffset
    }

    constructor (bytes: array<octet>)
      ensures Valid() && this.bytes == bytes && Pos() == 0
    {
      this.bytes := bytes;
      byteOffset, bitOffset := 0, 0;
    }

    method PeekBits(count: nat) returns (ok: bool, val: nat)
      requires Valid() && count > 0
      ensures ok <==> count <= |Rest()| && count <= 32
      ensures ok ==> val == Val(Rest()[..count])
    {
      if count > Remaining() || count > 32 {
        return false, 0;
      }
      var word := PeekWord(count);
      PeekReads(bytes[..], byteOffset, bitOffset, count);
      ghost var window := Window(bytes[..], Pos(), count);
      assert window == Rest()[..count];
      ValOfWiden(window, 32);
      return true, Val(word);
    }

    method PeekWord(count: nat) returns (bits: seq<bit>)
      requires Valid() && 0 < count <= 32 && count <= Remaining()
      ensures bits == Peek(bytes[..], byteOffset, bitOffset, count)
    {
      hide Or, Shl, Widen, Narrow, LowestBits, HighestBits;
      var next := byteOffset;
      var left := 8 - bitOffset;
      bits := Widen(LowestBits(bytes[next], left), 32);
      next := next + 1;
      if count < left {
        return Widen(HighestBits(Narrow(bits, 8), bitOffset + count), 32);
      }
      ghost var s := bytes[..];
      var rest := count - left;
      while rest >= 8
        invariant 0 <= rest && 8 * next + rest == 8 * byteOffset + bitOffset + count && |bits| == 32
        invariant ReadFrom(s, bits, next, rest) == Peek(s, byteOffset, bitOffset, count)
      {
        bits := Or(Shl(bits, 8), Widen(bytes[next], 32));
        next := next + 1;
        rest := rest - 8;
      }
      if rest > 0 {
        bits := Or(Shl(bits, rest), Widen(HighestBits(bytes[next], rest), 32));
      }
    }

    method ConsumeBits(count: nat) returns (ok: bool)
      requires Valid()
      modifies this
      ensures Valid()
      ensures ok <==> count <= |old(Rest())|
      ensures Pos() == old(Pos()) + if ok then count else 0
      ensures Rest() == if ok then old(Rest())[count..] else old(Rest())
    {
      if count > Remaining() {
        return false;
      }
      byteOffset, bitOffset := byteOffset + (bitOffset + count) / 8, (bitOffset + count) % 8;
      return true;
    }

    method ReadBits(count: nat) returns (ok: bool, val: nat)
      requires Valid() && count > 0
      modifies this
      ensures Valid()
      ensures ok <==> count <= |old(Rest())| && count <= 32
      ensures ok ==> val == Val(old(Rest())[..count])
      ensures Pos() == old(Pos()) + if ok then count else 0
      ensures Rest() == if ok then old(Rest())[count..] else old(Rest())
    {
      ok, val := PeekBits(count);
      if ok {
        ok := ConsumeBits(count);
      }
    }

    method Seek(toByte: nat, toBit: nat) returns (ok: bool)
      requires Valid()
      modifies this
      ensures Valid()
      ensures ok <==> toBit < 8 && 8 * toByte + toBit <= 8 * bytes.Length
      ensures if ok then byteOffset == toByte && bitOffset == toBit else unchanged(this)
    {
      if toByte > bytes.Length || toBit > 7 || (toByte == bytes.Length && toBit > 0) {
        return false;
      }
      byteOffset, bitOffset := toByte, toBit;
      return true;
    }

    /** Sets exactly the `count` bits at the current position to the low bits of `val`. */
    method WriteBits(val: nat, count: nat) returns (ok: bool)
      requires Valid() && val <= UINT64_MAX
      requires 0 < count && (count <= 64 || count > Remaining())
      modifies this, bytes
      ensures Valid()
      ensures ok <==> count <= |old(Rest())|
      ensures ok ==> Stream(bytes[..]) == Splice(old(Stream(bytes[..])), old(Pos()), Bits(val, count))
      ensures !ok ==> bytes[..] == old(bytes[..])
      ensures Pos() == old(Pos()) + if ok then count else 0
    {
      if count > Remaining() {
        return false;
      }
      BitsWritten(bytes[..], byteOffset, bitOffset, val, count);
      WriteWord(Bits(val, 64), count);
      ok := ConsumeBits(count);
    }

    method WriteWord(val: seq<bit>, count: nat)
      requires Valid() && |val| == 64 && 0 < count <= 64 && count <= Remaining()
      modifies bytes
      ensures bytes[..] == Write(old(bytes[..]), byteOffset, bitOffset, val, count)
    {
      ghost var s := bytes[..];
      var v := Shl(val, 64 - count);
      var left := 8 - bitOffset;
      var first := if count < left then count else left;
      bytes[byteOffset] := WritePartialByte(HighestByte(v), first, bytes[byteOffset], bitOffset);
      assert bytes[..] == s[byteOffset := WritePartialByte(HighestByte(v), first, s[byteOffset], bitOffset)];
      if count > left {
        WriteRest(Shl(v, first), byteOffset + 1, count - first);
      }
    }

    /** The rest of a write that has reached a byte boundary. */
    method WriteRest(val: seq<bit>, start: nat, count: nat)
      requires |val| == 64 && 8 * start + count <= 8 * bytes.Length
      modifies bytes
      ensures bytes[..] == WriteFrom(old(bytes[..]), val, start, count)
    {
      var v, next, rest := val, start, count;
      while rest >= 8
        invariant |v| == 64 && 0 <= rest && 0 <= next && 8 * next + rest == 8 * start + count
        invariant WriteFrom(bytes[..], v, next, rest) == WriteFrom(old(bytes[..]), val, start, count)
      {
        ghost var s := bytes[..];
        bytes[next] := HighestByte(v);
        assert bytes[..] == s[next := HighestByte(v)];
        v := Shl(v, 8);
        next := next + 1;
        rest := rest - 8;
      }
      if rest > 0 {
        ghost var s := bytes[..];
        bytes[next] := WritePartialByte(HighestByte(v), rest, bytes[next], 0);
        assert bytes[..] == s[next := WritePartialByte(HighestByte(v), rest, s[next], 0)];
      }
    }

    // The codes.

    method ReadNonSymmetric(n: nat) returns (ok: bool, val: nat)
      requires Valid() && NsRange(n)
      modifies this
      ensures Valid()
      ensures ok <==> DecodeNs(old(Rest()), n).Got?
      ensures ok ==> var r := DecodeNs(old(Rest()), n); val == r.value && Pos() == old(Pos()) + r.used
      ensures !ok ==> Pos() == old(Pos()) + if |old(Rest())| < BitLength(n) - 1 then 0 else BitLength(n) - 1
    {
      if n == 1 {
        return true, 0;
      }
      var count := CountBits(n);
      NsSizes(n);
      var few := Pow2(count) - n;
      ghost var rest := Rest();
      ok, val := ReadBits(count - 1);
      if !ok || val < few {
        return;
      }
      var extra;
      OneBit(rest, count - 1);
      ok, extra := ReadBits(1);
      if ok {
        val := val * 2 + extra - few;
      }
    }

    /** Peeks and consumes the zeros up to the next one, or to the end. */
    method SkipZeros() returns (zeros: nat)
      requires Valid()
      modifies this
      ensures Valid()
      ensures zeros == LeadingZeros(old(Rest()))
      ensures Pos() == old(Pos()) + zeros && Rest() == old(Rest())[zeros..]
    {
      ghost var rest := Rest();
      zeros := 0;
      var more, peeked := PeekBits(1);
      OneBit(rest, 0);
      while more && peeked == 0
        invariant Valid() && Pos() == old(Pos()) + zeros && zeros <= |rest|
        invariant Rest() == rest[zeros..]
        invariant forall i :: 0 <= i < zeros ==> !rest[i]
        invariant more <==> zeros < |rest|
        invariant more ==> (peeked == 0 <==> !rest[zeros])
        decreases |rest| - zeros
      {
        zeros := zeros + 1;
        var _ := ConsumeBits(1);
        more, peeked := PeekBits(1);
        OneBit(rest, zeros);
      }
    }

    method ReadExponentialGolomb() returns (ok: bool, val: nat)
      requires Valid()
      modifies this
      ensures Valid()
      ensures ok <==> DecodeUe(old(Rest())).Got?
      ensures ok ==> var r := DecodeUe(old(Rest())); val == r.value && Pos() == old(Pos()) + r.used
      ensures !ok ==> byteOffset == old(byteOffset) && bitOffset == old(bitOffset)
    {
      hide Stream, LeadingZeros, Val, Pow2;
      var fromByte, fromBit := byteOffset, bitOffset;
      ghost var rest := Rest();
      var zeros := SkipZeros();
      ok, val := zeros + 1 <= 32, 0;
      if ok {
        ok, val := ReadBits(zeros + 1);
      }
      if !ok {
        ok := Seek(fromByte, fromBit);
        return false, 0;
      }
      TopBitOfVal(rest[zeros..][..zeros + 1]);
      val := val - 1;
    }

    method ReadSignedExponentialGolomb() returns (ok: bool, val: int)
      requires Valid()
      modifies this
      ensures Valid()
      ensures ok <==> DecodeSe(old(Rest())).Got?
      ensures ok ==> var r := DecodeSe(old(Rest())); val == r.value && Pos() == old(Pos()) + r.used
      ensures !ok ==> byteOffset == old(byteOffset) && bitOffset == old(bitOffset)
    {
      var u;
      ok, u := ReadExponentialGolomb();
      if !ok {
        return false, 0;
      }
      val := u;
      val := if val % 2 == 0 then -(val / 2) else (val + 1) / 2;
    }

    method WriteNonSymmetric(val: nat, n: nat) returns (ok: bool)
      requires Valid() && val < n && NsRange(n)
      modifies this, bytes
      ensures Valid()
      ensures ok <==> |EncodeNs(val, n)| <= |old(Rest())|
      ensures ok ==> Stream(bytes[..]) == Splice(old(Stream(bytes[..])), old(Pos()), EncodeNs(val, n))
      ensures !ok ==> bytes[..] == old(bytes[..])
      ensures Pos() == old(Pos()) + if ok then |EncodeNs(val, n)| else 0
    {
      hide Stream, Splice, Bits, BitLength, Pow2;
      if n == 1 {
        SpliceNothing(Stream(bytes[..]), Pos());
        return true;
      }
      var count := CountBits(n);
      NsSizes(n);
      var few := Pow2(count) - n;
      if val < few {
        ok := WriteBits(val, count - 1);
      } else {
        ok := WriteBits(val + few, count);
      }
    }

    method WriteExponentialGolomb(val: nat) returns (ok: bool)
      requires Valid() && val <= UINT32_MAX
      modifies this, bytes
      ensures Valid()
      ensures ok <==> val != UINT32_MAX && |EncodeUe(val)| <= |old(Rest())|
      ensures ok ==> Stream(bytes[..]) == Splice(old(Stream(bytes[..])), old(Pos()), EncodeUe(val))
      ensures !ok ==> bytes[..] == old(bytes[..])
      ensures Pos() == old(Pos()) + if ok then |EncodeUe(val)| else 0
    {
      if val == UINT32_MAX {
        return false;
      }
      var x := val + 1;
      var count := CountBits(x);
      UeSizes(x);
      ok := WriteBits(x, count * 2 - 1);
    }

    method WriteSignedExponentialGolomb(val: int) returns (ok: bool)
      requires Valid() && -INT32_MAX - 1 <= val <= INT32_MAX
      modifies this, bytes
      ensures Valid()
      ensures ok <==> val != -INT32_MAX - 1 && |EncodeSe(val)| <= |old(Rest())|
      ensures ok ==> Stream(bytes[..]) == Splice(old(Stream(bytes[..])), old(Pos()), EncodeSe(val))
      ensures !ok ==> bytes[..] == old(bytes[..])
      ensures Pos() == old(Pos()) + if ok then |EncodeSe(val)| else 0
    {
      if val == 0 {
        ok := WriteExponentialGolomb(0);
      } else if val > 0 {
        ok := WriteExponentialGolomb(val * 2 - 1);
      } else if val == -INT32_MAX - 1 {
        ok := false;
      } else {
        ok := WriteExponentialGolomb(-val * 2);
      }
    }
  }

  method CountBits(val: nat) returns (count: nat)
    ensures count == BitLength(val)
  {
    count := 0;
    var v := val;
    while v != 0
      invariant 0 <= v && count + BitLength(v) == BitLength(val)
    {
      count := count + 1;
      v := v / 2;
    }
  }

  method SizeNonSymmetricBits(val: nat, n: nat) returns (size: nat)
    requires val < n && NsRange(n)
    ensures size == |EncodeNs(val, n)|
  {
    var count := CountBits(n);
    NsSizes(n);
    var few := Pow2(count) - n;
    size := if val < few then count - 1 else count;
  }

  lemma NsSizes(n: nat)
    requires NsRange(n)
    ensures 0 < BitLength(n) <= 31 && Pow2(BitLength(n)) == n + ShortNsCodes(n) <= 2 * n
    ensures n == 1 ==> BitLength(n) == 1
    ensures n > 1 ==> BitLength(n) > 1
  {
    Pow2At32();
    BitLengthBounds(n);
    BitLengthAtMost(n, 31);
  }

  lemma UeSizes(x: nat)
    requires 0 < x <= UINT32_MAX
    ensures 0 < BitLength(x) <= 32
  {
    Pow2At32();
    BitLengthBounds(x);
    BitLengthAtMost(x, 32);
  }

  lemma OneBit(rest: seq<bit>, k: nat)
    ensures k < |rest| ==> Val(rest[k..][..1]) == if rest[k] then 1 else 0
  {
    if k < |rest| {
      assert rest[k..][..1] == [rest[k]];
      assert [rest[k]][..0] == [];
    }
  }
}
