/** Mixed lists of fields, written one after the other from any bit offset of a buffer
    with any old contents, and read back. Each write and each read of a field is what the
    method of BitBuffers.BitBuffer for its kind is proved to do. */
module BitFields {
  import opened BitMath
  import opened BitCodes
  import opened BitBuffers
  import opened Numbers

  datatype Kind = Plain(width: nat) | Ns(n: nat) | Ue | Se

  datatype Field = Field(kind: Kind, value: int)

  /** The fields that the writer supports. */
  predicate Supported(f: Field) {
    match f.kind
    case Plain(width) => 0 < width <= 32 && 0 <= f.value < Pow2(width)
    case Ns(n) => NsRange(n) && 0 <= f.value < n
    case Ue => 0 <= f.value < UINT32_MAX
    case Se => -INT32_MAX <= f.value <= INT32_MAX
  }

  function Encode(f: Field): seq<bit>
    requires Supported(f)
  {
    match f.kind
    case Plain(width) => Bits(f.value, width)
    case Ns(n) => EncodeNs(f.value, n)
    case Ue => EncodeUe(f.value)
    case Se => EncodeSe(f.value)
  }

  function Decode(k: Kind, s: seq<bit>): Read<int>
    requires k.Plain? ==> 0 < k.width <= 32
    requires k.Ns? ==> NsRange(k.n)
  {
    match k
    case Plain(width) => if width > |s| then NoCode else Got(Val(s[..width]), width)
    case Ns(n) => DecodeNs(s, n)
    case Ue => DecodeUe(s)
    case Se => DecodeSe(s)
  }

  lemma DecodeEncode(f: Field, rest: seq<bit>)
    requires Supported(f)
    ensures Decode(f.kind, Encode(f) + rest) == Got(f.value, |Encode(f)|)
  {
    match f.kind
    case Plain(width) =>
      ValOfBits(f.value, width);
      assert (Encode(f) + rest)[..width] == Encode(f);
    case Ns(n) => DecodeEncodeNs(f.value, n, rest);
    case Ue => DecodeEncodeUe(f.value, rest);
    case Se => DecodeEncodeSe(f.value, rest);
  }

  predicate AllSupported(fs: seq<Field>) {
    forall i :: 0 <= i < |fs| ==> Supported(fs[i])
  }

  function EncodeAll(fs: seq<Field>): seq<bit>
    requires AllSupported(fs)
  {
    if fs == [] then [] else Encode(fs[0]) + EncodeAll(fs[1..])
  }

  /** The buffer's bits after writing the fields one by one from bit `p` on. */
  function WriteAll(t: seq<bit>, p: nat, fs: seq<Field>): (r: seq<bit>)
    requires AllSupported(fs) && p + |EncodeAll(fs)| <= |t|
    ensures |r| == |t|
    decreases fs
  {
    if fs == [] then t
    else WriteAll(Splice(t, p, Encode(fs[0])), p + |Encode(fs[0])|, fs[1..])
  }

  /** Fields of given kinds read one by one: the values, and the number of bits they took. */
  datatype AllRead = AllRead(values: seq<int>, used: nat) | Stuck {
    function After(v: int, n: nat): AllRead {
      if Stuck? then Stuck else AllRead([v] + values, n + used)
    }
  }

  function ReadAll(s: seq<bit>, fs: seq<Field>): AllRead
    requires AllSupported(fs)
    decreases fs
  {
    if fs == [] then AllRead([], 0)
    else
      match Decode(fs[0].kind, s)
      case NoCode => Stuck
      case Got(v, used) =>
        if used > |s| then Stuck else ReadAll(s[used..], fs[1..]).After(v, used)
  }

  function Values(fs: seq<Field>): seq<int> {
    if fs == [] then [] else [fs[0].value] + Values(fs[1..])
  }

  lemma SpliceJoined(t: seq<bit>, p: nat, b: seq<bit>, more: seq<bit>)
    requires p + |b| + |more| <= |t|
    ensures Splice(Splice(t, p, b), p + |b|, more) == Splice(t, p, b + more)
  {
    SpliceTwice(t, p, b + more, |b|);
    assert (b + more)[..|b|] == b && (b + more)[|b|..] == more;
  }

  lemma SpliceParts(t: seq<bit>, p: nat, b: seq<bit>)
    requires p + |b| <= |t|
    ensures var r := Splice(t, p, b);
            r[p..] == b + t[p + |b|..] && r[..p] == t[..p] && r[p + |b|..] == t[p + |b|..]
  {
  }

  lemma {:induction false} WriteAllSplices(t: seq<bit>, p: nat, fs: seq<Field>)
    requires AllSupported(fs) && p + |EncodeAll(fs)| <= |t|
    ensures WriteAll(t, p, fs) == Splice(t, p, EncodeAll(fs))
    decreases fs
  {
    if fs == [] {
      SpliceNothing(t, p);
    } else {
      var b, more := Encode(fs[0]), EncodeAll(fs[1..]);
      WriteAllSplices(Splice(t, p, b), p + |b|, fs[1..]);
      SpliceJoined(t, p, b, more);
    }
  }

  lemma Regrouped(b: seq<bit>, more: seq<bit>, rest: seq<bit>)
    ensures (b + more) + rest == b + (more + rest)
    ensures (b + more + rest)[|b|..] == more + rest
  {
  }

  lemma {:induction false} ReadAllInverts(fs: seq<Field>, rest: seq<bit>)
    requires AllSupported(fs)
    ensures ReadAll(EncodeAll(fs) + rest, fs) == AllRead(Values(fs), |EncodeAll(fs)|)
  {
    if fs != [] {
      var b, more := Encode(fs[0]), EncodeAll(fs[1..]);
      var s := EncodeAll(fs) + rest;
      Regrouped(b, more, rest);
      DecodeEncode(fs[0], more + rest);
      ReadAllInverts(fs[1..], rest);
    }
  }

  /** Whatever the buffer held, fields written from bit `p` on read back as the same values,
      the reader ends where the writer ended, and no other bit of the buffer has changed. */
  lemma FieldsReadBack(t: seq<bit>, p: nat, fs: seq<Field>)
    requires AllSupported(fs) && p + |EncodeAll(fs)| <= |t|
    ensures var r, n := WriteAll(t, p, fs), |EncodeAll(fs)|;
            && ReadAll(r[p..], fs) == AllRead(Values(fs), n)
            && r[..p] == t[..p] && r[p + n..] == t[p + n..]
  {
    var r, code := WriteAll(t, p, fs), EncodeAll(fs);
    assert r == Splice(t, p, code) by {
      WriteAllSplices(t, p, fs);
    }
    SpliceParts(t, p, code);
    ReadAllInverts(fs, t[p + |code|..]);
  }

  /** The writer's method for the field's kind. */
  method WriteField(w: BitBuffer, f: Field) returns (ok: bool)
    requires w.Valid() && Supported(f)
    modifies w, w.bytes
    ensures w.Valid()
    ensures ok <==> |Encode(f)| <= |old(w.Rest())|
    ensures ok ==> Stream(w.bytes[..]) == Splice(old(Stream(w.bytes[..])), old(w.Pos()), Encode(f))
    ensures !ok ==> w.bytes[..] == old(w.bytes[..])
    ensures w.Pos() == old(w.Pos()) + if ok then |Encode(f)| else 0
  {
    match f.kind
    case Plain(width) =>
      Pow2At32();
      Pow2Monotone(width, 32);
      ok := w.WriteBits(f.value, width);
    case Ns(n) => ok := w.WriteNonSymmetric(f.value, n);
    case Ue => ok := w.WriteExponentialGolomb(f.value);
    case Se => ok := w.WriteSignedExponentialGolomb(f.value);
  }

  /** The reader's method for the kind. */
  method ReadField(r: BitBuffer, k: Kind) returns (ok: bool, val: int)
    requires r.Valid()
    requires k.Plain? ==> 0 < k.width <= 32
    requires k.Ns? ==> NsRange(k.n)
    modifies r
    ensures r.Valid()
    ensures ok <==> Decode(k, old(r.Rest())).Got?
    ensures ok ==> var d := Decode(k, old(r.Rest())); val == d.value && r.Pos() == old(r.Pos()) + d.used
  {
    match k
    case Plain(width) => ok, val := r.ReadBits(width);
    case Ns(n) => ok, val := r.ReadNonSymmetric(n);
    case Ue => ok, val := r.ReadExponentialGolomb();
    case Se => ok, val := r.ReadSignedExponentialGolomb();
  }

  /** One more field. */
  lemma WriteAllStep(t: seq<bit>, p: nat, fs: seq<Field>)
    requires AllSupported(fs) && p + |EncodeAll(fs)| <= |t|
    ensures fs == [] ==> EncodeAll(fs) == [] && WriteAll(t, p, fs) == t
    ensures fs != [] ==>
      && |EncodeAll(fs)| == |Encode(fs[0])| + |EncodeAll(fs[1..])|
      && WriteAll(t, p, fs) == WriteAll(Splice(t, p, Encode(fs[0])), p + |Encode(fs[0])|, fs[1..])
  {
  }

  method WriteFields(w: BitBuffer, fs: seq<Field>)
    requires w.Valid() && AllSupported(fs) && |EncodeAll(fs)| <= |w.Rest()|
    modifies w, w.bytes
    ensures w.Valid() && w.Pos() == old(w.Pos()) + |EncodeAll(fs)|
    ensures Stream(w.bytes[..]) == WriteAll(old(Stream(w.bytes[..])), old(w.Pos()), fs)
    decreases fs
  {
    hide WriteAll, EncodeAll, Encode, Splice, Stream;
    WriteAllStep(Stream(w.bytes[..]), w.Pos(), fs);
    if fs != [] {
      var _ := WriteField(w, fs[0]);
      WriteFields(w, fs[1..]);
    }
  }

  method ReadFields(r: BitBuffer, fs: seq<Field>) returns (values: seq<int>)
    requires r.Valid() && AllSupported(fs) && ReadAll(r.Rest(), fs).AllRead?
    modifies r
    ensures r.Valid() && r.Pos() >= old(r.Pos())
    ensures ReadAll(old(r.Rest()), fs) == AllRead(values, r.Pos() - old(r.Pos()))
    decreases fs
  {
    values := [];
    if fs != [] {
      ghost var rest := r.Rest();
      var _, value := ReadField(r, fs[0].kind);
      assert r.Rest() == rest[Decode(fs[0].kind, rest).used..];
      var others := ReadFields(r, fs[1..]);
      values := [value] + others;
    }
  }

  method WriteAt(bytes: array<octet>, toByte: nat, toBit: nat, fs: seq<Field>)
    requires AllSupported(fs) && toBit < 8 && 8 * toByte + toBit + |EncodeAll(fs)| <= 8 * bytes.Length
    modifies bytes
    ensures Stream(bytes[..]) == WriteAll(old(Stream(bytes[..])), 8 * toByte + toBit, fs)
  {
    var w := new BitBuffer(bytes);
    var _ := w.Seek(toByte, toBit);
    WriteFields(w, fs);
  }

  method ReadAt(bytes: array<octet>, fromByte: nat, fromBit: nat, fs: seq<Field>) returns (values: seq<int>)
    requires AllSupported(fs) && fromBit < 8 && 8 * fromByte + fromBit <= 8 * bytes.Length
    requires ReadAll(Stream(bytes[..])[8 * fromByte + fromBit..], fs).AllRead?
    ensures values == ReadAll(Stream(bytes[..])[8 * fromByte + fromBit..], fs).values
  {
    var r := new BitBuffer(bytes);
    var _ := r.Seek(fromByte, fromBit);
    assert r.Rest() == Stream(bytes[..])[8 * fromByte + fromBit..];
    values := ReadFields(r, fs);
  }

  /** The round trip on the buffers themselves. */
  method WriteThenRead(bytes: array<octet>, toByte: nat, toBit: nat, fs: seq<Field>) returns (values: seq<int>)
    requires AllSupported(fs) && toBit < 8 && 8 * toByte + toBit + |EncodeAll(fs)| <= 8 * bytes.Length
    modifies bytes
    ensures values == Values(fs)
    ensures Stream(bytes[..]) == Splice(old(Stream(bytes[..])), 8 * toByte + toBit, EncodeAll(fs))
  {
    hide Stream, Splice, EncodeAll, WriteAll, ReadAll, Values, AllSupported;
    ghost var t, p := Stream(bytes[..]), 8 * toByte + toBit;
    FieldsReadBack(t, p, fs);
    WriteAllSplices(t, p, fs);
    WriteAt(bytes, toByte, toBit, fs);
    values := ReadAt(bytes, toByte, toBit, fs);
  }
}
