/** The framing of packets on a TCP byte stream: a 16-bit big-endian length, then the
    payload (section 2 of RFC 4571). `Frames` is the writer's side and `Parse` the
    reader's; neither knows about buffers, partial writes or segments. */
module Framing {
  import opened Bytes

  type packet = seq<byte>

  const LENGTH_SIZE := 2
  const MAX_PACKET_SIZE := 64 * 1024
  const BUF_SIZE := MAX_PACKET_SIZE + LENGTH_SIZE

  /** The length field: the cast to 16 bits drops the high bits of a longer length. */
  function Header(n: nat): (h: seq<byte>) {
    [n % 65536 / 256, n % 65536 % 256]
  }

  function GetBE16(s: seq<byte>): (n: nat)
    requires |s| >= LENGTH_SIZE
    ensures n < 65536
  {
    s[0] as int * 256 + s[1]
  }

  function Frame(p: packet): (f: seq<byte>) {
    Header(|p|) + p
  }

  function Frames(ps: seq<packet>): (f: seq<byte>) {
    if ps == [] then [] else Frame(ps[0]) + Frames(ps[1..])
  }

  predicate Framable(ps: seq<packet>) {
    forall i :: 0 <= i < |ps| ==> |ps[i]| < 65536
  }

  /** `s` starts with one whole frame. */
  predicate Complete(s: seq<byte>) {
    |s| >= LENGTH_SIZE && |s| >= LENGTH_SIZE + GetBE16(s)
  }

  datatype Parsed = Parsed(packets: seq<packet>, rest: seq<byte>) {
    function Cons(p: packet): Parsed {
      Parsed([p] + packets, rest)
    }

    /** The packets of this parse followed by those of a later one. */
    function Then(later: Parsed): Parsed {
      Parsed(packets + later.packets, later.rest)
    }
  }

  function FirstFrameSize(s: seq<byte>): (n: nat)
    requires Complete(s)
    ensures LENGTH_SIZE <= n <= |s|
  {
    LENGTH_SIZE + GetBE16(s)
  }

  /** All the whole frames at the front of `s`, and what is left over. */
  function Parse(s: seq<byte>): (r: Parsed) {
    if !Complete(s) then Parsed([], s)
    else
      var n := FirstFrameSize(s);
      Parse(s[n..]).Cons(s[LENGTH_SIZE..n])
  }

  lemma HeaderReadsBack(n: nat, s: seq<byte>)
    ensures GetBE16(Header(n) + s) == n % 65536
  {
  }

  /** The length field is big-endian. */
  lemma FrameBytes(p: packet)
    requires |p| < 65536
    ensures |Frame(p)| == 2 + |p| && 256 * Frame(p)[0] as int + Frame(p)[1] as int == |p| && Frame(p)[2..] == p
  {
  }

  lemma FrameFirst(p: packet, s: seq<byte>)
    requires |p| < 65536
    ensures Complete(Frame(p) + s)
    ensures Parse(Frame(p) + s) == Parsed([p] + Parse(s).packets, Parse(s).rest)
  {
    var t := Frame(p) + s;
    assert t == Header(|p|) + (p + s);
    HeaderReadsBack(|p|, p + s);
    assert t[LENGTH_SIZE..FirstFrameSize(t)] == p;
    assert t[FirstFrameSize(t)..] == s;
  }

  lemma FramesAppend(ps: seq<packet>, p: packet)
    ensures Frames(ps + [p]) == Frames(ps) + Frame(p)
  {
    if ps == [] {
      assert [] + [p] == [p];
      assert Frames([p]) == Frame(p) + Frames([p][1..]);
    } else {
      FramesAppend(ps[1..], p);
      assert (ps + [p])[1..] == ps[1..] + [p];
    }
  }

  lemma FramesCons(p: packet, ps: seq<packet>, tail: seq<byte>)
    ensures Frames([p] + ps) + tail == Frame(p) + (Frames(ps) + tail)
  {
    assert ([p] + ps)[1..] == ps;
  }

  lemma FirstFrameIsFrame(s: seq<byte>)
    requires Complete(s)
    ensures Frame(s[LENGTH_SIZE..FirstFrameSize(s)]) + s[FirstFrameSize(s)..] == s
  {
    var n := FirstFrameSize(s);
    HeaderOfLength(s);
    assert |s[LENGTH_SIZE..n]| == GetBE16(s);
    assert s[..LENGTH_SIZE] + s[LENGTH_SIZE..n] + s[n..] == s;
  }

  lemma HeaderOfLength(s: seq<byte>)
    requires |s| >= LENGTH_SIZE
    ensures Header(GetBE16(s)) == s[..LENGTH_SIZE]
  {
    var n := GetBE16(s);
    assert n / 256 == s[0] && n % 256 == s[1];
  }

  /** What parsing took off the stream is what framing puts on it, byte for byte, and
      the residue never holds a whole frame. */
  lemma {:induction false} ParseRebuilds(s: seq<byte>)
    ensures Frames(Parse(s).packets) + Parse(s).rest == s
    ensures !Complete(Parse(s).rest)
    ensures Framable(Parse(s).packets)
  {
    if Complete(s) {
      var n := FirstFrameSize(s);
      var r := Parse(s[n..]);
      ParseRebuilds(s[n..]);
      FirstFrameIsFrame(s);
      FramesCons(s[LENGTH_SIZE..n], r.packets, r.rest);
    }
  }

  /** Parsing inverts framing, whatever incomplete bytes follow. */
  lemma {:induction false} ParseFrames(ps: seq<packet>, tail: seq<byte>)
    requires Framable(ps) && !Complete(tail)
    ensures Parse(Frames(ps) + tail) == Parsed(ps, tail)
  {
    if ps == [] {
      assert Frames(ps) + tail == tail;
    } else {
      ParseFrames(ps[1..], tail);
      FrameFirst(ps[0], Frames(ps[1..]) + tail);
      assert [ps[0]] + ps[1..] == ps;
      FramesCons(ps[0], ps[1..], tail);
    }
  }

  lemma FirstFrameOfLonger(s: seq<byte>, t: seq<byte>)
    requires Complete(s)
    ensures Complete(s + t) && FirstFrameSize(s + t) == FirstFrameSize(s)
    ensures (s + t)[FirstFrameSize(s)..] == s[FirstFrameSize(s)..] + t
    ensures (s + t)[LENGTH_SIZE..FirstFrameSize(s)] == s[LENGTH_SIZE..FirstFrameSize(s)]
  {
  }

  lemma ConsThen(p: packet, r: Parsed, later: Parsed)
    ensures r.Cons(p).Then(later) == r.Then(later).Cons(p)
  {
    assert [p] + r.packets + later.packets == [p] + (r.packets + later.packets);
  }

  /** Parsing does not see segment boundaries: a stream parsed in two pieces, the residue
      of the first carried over to the second, gives the packets of the whole. */
  lemma {:induction false} ParseInPieces(s: seq<byte>, t: seq<byte>)
    ensures Parse(s + t) == Parse(s).Then(Parse(Parse(s).rest + t))
  {
    if Complete(s) {
      var n := FirstFrameSize(s);
      ParseInPieces(s[n..], t);
      FirstFrameOfLonger(s, t);
      ConsThen(s[LENGTH_SIZE..n], Parse(s[n..]), Parse(Parse(s).rest + t));
    }
  }

  /** A stream cut short anywhere yields a prefix of the packets. */
  lemma ParseOfPrefix(s: seq<byte>, t: seq<byte>)
    requires s <= t
    ensures Parse(s).packets <= Parse(t).packets
  {
    ParseInPieces(s, t[|s|..]);
    assert t == s + t[|s|..];
  }

  /** A frame cut short is not a whole frame. */
  lemma CutFrameIncomplete(p: packet, n: nat)
    requires |p| < 65536 && n < |Frame(p)|
    ensures !Complete(Frame(p)[..n])
  {
    HeaderReadsBack(|p|, p);
    if n >= LENGTH_SIZE {
      assert GetBE16(Frame(p)[..n]) == GetBE16(Frame(p));
    }
  }

  /** Exactly the packets whose length fits the 16-bit field come out as they went in.
      Send also admits lengths from 65536 to BUF_SIZE. */
  lemma FrameFaithfulIffLengthFits(p: packet)
    requires |p| <= BUF_SIZE
    ensures |p| < 65536 <==> Parse(Frame(p)) == Parsed([p], [])
  {
    if |p| < 65536 {
      FrameFirst(p, []);
      assert Frame(p) + [] == Frame(p);
    } else {
      HeaderReadsBack(|p|, p);
      var f := Frame(p);
      assert Complete(f) && Parse(f).packets[0] == f[LENGTH_SIZE..FirstFrameSize(f)];
      assert |Parse(f).packets[0]| < |p|;
    }
  }
}
