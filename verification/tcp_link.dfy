/** A sending AsyncTCPSocket, the byte stream it writes to and a receiving AsyncTCPSocket,
    over whole runs of sends, write events and read events. The steps are the functions
    that the methods of TcpSocket.AsyncTcpSocket are proved to compute. */
module TcpLink {
  import opened Bytes
  import opened Framing
  import opened TcpSocket

  /** `torn` collects what reached the stream of packets that Send then gave up on,
      because the socket failed half-way with an error other than EWOULDBLOCK. `taken` is
      how much of the stream the receiver has read. */
  datatype Link = Link(
    out: Out, torn: seq<byte>, taken: nat, inbuf: seq<byte>, delivered: seq<packet>)

  datatype Event =
    | Send(p: packet, replies: seq<Reply>)
    | Writable(replies: seq<Reply>)
    | Readable(amount: nat)

  const START := Link(Out([], [], []), [], 0, [], [])

  /** The part of a packet's frame that reached the stream before Send gave it up. */
  function Lost(o: Out, p: packet, replies: seq<Reply>): seq<byte> {
    var f := o.(buf := Frame(p));
    if |p| <= BUF_SIZE && o.buf == [] && Flush(f, replies).1 <= 0
    then f.buf[..Drain(f.buf, replies).written]
    else []
  }

  function Step(s: Link, e: Event): Link {
    match e
    case Send(p, replies) =>
      s.(out := SendPacket(s.out, p, replies).0, torn := s.torn + Lost(s.out, p, replies))
    case Writable(replies) =>
      s.(out := WriteEvent(s.out, replies))
    case Readable(amount) =>
      if s.taken + amount > |s.out.wire| then s
      else
        var r := Parse(s.inbuf + s.out.wire[s.taken..s.taken + amount]);
        s.(taken := s.taken + amount, inbuf := r.rest, delivered := s.delivered + r.packets)
  }

  function Run(s: Link, es: seq<Event>): Link
    decreases es
  {
    if es == [] then s else Run(Step(s, es[0]), es[1..])
  }

  /** What a run may do: packets fit the length field (longer than the buffer is refused
      anyway), and a stream with a torn frame on it takes no more bytes. */
  predicate Allowed(s: Link, e: Event) {
    e.Send? ==>
      && (|e.p| < 65536 || |e.p| > BUF_SIZE)
      && (s.torn != [] ==> Drain(Frame(e.p), e.replies).written == 0)
  }

  predicate AllAllowed(s: Link, es: seq<Event>)
    decreases es
  {
    es != [] ==> Allowed(s, es[0]) && AllAllowed(Step(s, es[0]), es[1..])
  }

  /** The stream and the bytes still to be written are the frames of the packets sent,
      and after them at most a frame cut short. */
  ghost predicate WriterInv(o: Out, torn: seq<byte>) {
    && Framable(o.sent)
    && o.wire + o.buf == Frames(o.sent) + torn
    && !Complete(torn)
    && (torn != [] ==> o.buf == [])
  }

  /** The receiver has parsed what it took off the stream. */
  ghost predicate ReaderInv(wire: seq<byte>, taken: nat, r: Parsed) {
    taken <= |wire| && Parse(wire[..taken]) == r
  }

  ghost predicate Inv(s: Link) {
    && WriterInv(s.out, s.torn)
    && ReaderInv(s.out.wire, s.taken, Parsed(s.delivered, s.inbuf))
  }

  lemma LongerStreamKeepsReaderInv(wire: seq<byte>, more: seq<byte>, taken: nat, r: Parsed)
    requires ReaderInv(wire, taken, r)
    ensures ReaderInv(wire + more, taken, r)
  {
    assert (wire + more)[..taken] == wire[..taken];
  }

  lemma ReadKeepsReaderInv(wire: seq<byte>, taken: nat, amount: nat, r: Parsed)
    requires ReaderInv(wire, taken, r) && taken + amount <= |wire|
    ensures ReaderInv(wire, taken + amount, r.Then(Parse(r.rest + wire[taken..taken + amount])))
  {
    hide Parse;
    ParseInPieces(wire[..taken], wire[taken..taken + amount]);
    assert wire[..taken + amount] == wire[..taken] + wire[taken..taken + amount];
  }

  lemma FlushMovesBytes(o: Out, replies: seq<Reply>)
    ensures var n := Drain(o.buf, replies).written;
            && Flush(o, replies).0 == Out(o.buf[n..], o.wire + o.buf[..n], o.sent)
            && Flush(o, replies).0.wire + Flush(o, replies).0.buf == o.wire + o.buf
  {
    var n := Drain(o.buf, replies).written;
    assert o.buf == o.buf[..n] + o.buf[n..];
  }

  lemma GivingUpKeepsWriterInv(o: Out, torn: seq<byte>, p: packet, n: nat)
    requires WriterInv(o, torn) && o.buf == []
    requires |p| < 65536 && n < |Frame(p)| && (torn != [] ==> n == 0)
    ensures WriterInv(Out([], o.wire + Frame(p)[..n], o.sent), torn + Frame(p)[..n])
  {
    CutFrameIncomplete(p, n);
    assert o.wire + [] == o.wire;
    assert (o.wire + Frame(p)[..n]) + [] == Frames(o.sent) + (torn + Frame(p)[..n]);
    if torn == [] {
      assert torn + Frame(p)[..n] == Frame(p)[..n];
    } else {
      assert torn + Frame(p)[..n] == torn;
    }
  }

  lemma SendKeepsWriterInv(o: Out, torn: seq<byte>, p: packet, replies: seq<Reply>)
    requires WriterInv(o, torn)
    requires |p| < 65536 || |p| > BUF_SIZE
    requires torn != [] ==> Drain(Frame(p), replies).written == 0
    ensures WriterInv(SendPacket(o, p, replies).0, torn + Lost(o, p, replies))
    ensures o.wire <= SendPacket(o, p, replies).0.wire
  {
    if |p| > BUF_SIZE || o.buf != [] {
      assert torn + [] == torn;
    } else {
      var f := o.(buf := Frame(p));
      FlushMovesBytes(f, replies);
      if Flush(f, replies).1 <= 0 {
        GivingUpKeepsWriterInv(o, torn, p, Drain(f.buf, replies).written);
      } else {
        FramesAppend(o.sent, p);
        var o' := SendPacket(o, p, replies).0;
        calc {
          o'.wire + o'.buf;
          o.wire + Frame(p);
          { assert o.wire + o.buf == o.wire && Frames(o.sent) + torn == Frames(o.sent); }
          Frames(o'.sent);
          { assert torn + [] == []; }
          Frames(o'.sent) + (torn + []);
        }
      }
    }
  }

  lemma SendKeepsInv(s: Link, p: packet, replies: seq<Reply>)
    requires Inv(s) && Allowed(s, Send(p, replies))
    ensures Inv(Step(s, Send(p, replies)))
  {
    SendKeepsWriterInv(s.out, s.torn, p, replies);
    var more := SendPacket(s.out, p, replies).0.wire[|s.out.wire|..];
    LongerStreamKeepsReaderInv(s.out.wire, more, s.taken, Parsed(s.delivered, s.inbuf));
  }

  lemma WritableKeepsInv(s: Link, replies: seq<Reply>)
    requires Inv(s)
    ensures Inv(Step(s, Writable(replies)))
  {
    FlushMovesBytes(s.out, replies);
    var more := s.out.buf[..Drain(s.out.buf, replies).written];
    LongerStreamKeepsReaderInv(s.out.wire, more, s.taken, Parsed(s.delivered, s.inbuf));
  }

  lemma ReadableKeepsInv(s: Link, amount: nat)
    requires Inv(s)
    ensures Inv(Step(s, Readable(amount)))
  {
    if s.taken + amount <= |s.out.wire| {
      ReadKeepsReaderInv(s.out.wire, s.taken, amount, Parsed(s.delivered, s.inbuf));
    }
  }

  lemma StepKeepsInv(s: Link, e: Event)
    requires Inv(s) && Allowed(s, e)
    ensures Inv(Step(s, e))
  {
    match e
    case Send(p, replies) => SendKeepsInv(s, p, replies);
    case Writable(replies) => WritableKeepsInv(s, replies);
    case Readable(amount) => ReadableKeepsInv(s, amount);
  }

  lemma {:induction false} RunKeepsInv(s: Link, es: seq<Event>)
    requires Inv(s) && AllAllowed(s, es)
    ensures Inv(Run(s, es))
    decreases es
  {
    if es != [] {
      StepKeepsInv(s, es[0]);
      RunKeepsInv(Step(s, es[0]), es[1..]);
    }
  }

  lemma InvMeansPrefix(s: Link)
    requires Inv(s)
    ensures s.delivered <= s.out.sent
    ensures s.torn == [] && s.out.buf == [] && s.taken == |s.out.wire| ==> s.delivered == s.out.sent
  {
    var all := Frames(s.out.sent) + s.torn;
    ParseFrames(s.out.sent, s.torn);
    assert s.out.wire[..s.taken] <= all;
    ParseOfPrefix(s.out.wire[..s.taken], all);
    if s.torn == [] && s.out.buf == [] && s.taken == |s.out.wire| {
      assert s.out.wire[..s.taken] == all;
    }
  }

  /** End to end, over every run: the packets delivered are, byte for byte and in order,
      a prefix of the packets announced as sent, and all of them once everything written
      has been read. */
  lemma DeliveredIsPrefixOfSent(es: seq<Event>)
    requires AllAllowed(START, es)
    ensures var s := Run(START, es);
            && s.delivered <= s.out.sent
            && (s.torn == [] && s.out.buf == [] && s.taken == |s.out.wire| ==> s.delivered == s.out.sent)
  {
    assert Inv(START) by {
      assert START.out.wire[..0] == [];
    }
    RunKeepsInv(START, es);
    InvMeansPrefix(Run(START, es));
  }

  // Torn frames.

  /** Of the `n` bytes of a frame, the socket takes some and then fails for good. */
  predicate FailsMidway(n: nat, replies: seq<Reply>, k: nat) {
    0 < k && StopsAfter(n, replies, k) && Total(replies[..k]) < n && !NextReply(replies[k..]).wouldBlock
  }

  /** A packet tears the stream exactly if the socket takes part of its frame and then fails
      with an error other than EWOULDBLOCK. */
  lemma TornIff(o: Out, p: packet, replies: seq<Reply>)
    ensures Lost(o, p, replies) != [] <==>
      |p| <= BUF_SIZE && o.buf == [] && exists k :: FailsMidway(|Frame(p)|, replies, k)
  {
    if |p| <= BUF_SIZE && o.buf == [] {
      var n := |Frame(p)|;
      if k: nat :| FailsMidway(n, replies, k) {
        DrainAt(Frame(p), replies, k);
        TotalPositive(replies[..k]);
      }
      var k := SomeStop(n, replies);
      DrainAt(Frame(p), replies, k);
      assert Lost(o, p, replies) != [] ==> FailsMidway(n, replies, k);
    }
  }

  /** A socket that fails with EWOULDBLOCK only, and never claims to have taken more than it
      was offered. */
  predicate OnlyBlocks(n: nat, replies: seq<Reply>) {
    && (forall i :: 0 <= i < |replies| && replies[i].res <= 0 ==> replies[i].wouldBlock)
    && (forall k :: 0 <= k < |replies| && Total(replies[..k]) < n ==> replies[k].res <= n - Total(replies[..k]))
  }

  predicate AllOnlyBlock(es: seq<Event>) {
    forall i :: 0 <= i < |es| && es[i].Send? ==> OnlyBlocks(|Frame(es[i].p)|, es[i].replies)
  }

  lemma {:induction false} OnlyBlockingTearsNothing(s: Link, es: seq<Event>)
    requires s.torn == [] && AllOnlyBlock(es)
    ensures Run(s, es).torn == []
    decreases es
  {
    if es != [] {
      if es[0].Send? {
        TornIff(s.out, es[0].p, es[0].replies);
      }
      OnlyBlockingTearsNothing(Step(s, es[0]), es[1..]);
    }
  }

  predicate AllFramable(es: seq<Event>) {
    forall i :: 0 <= i < |es| && es[i].Send? ==> |es[i].p| < 65536 || |es[i].p| > BUF_SIZE
  }

  lemma {:induction false} OnlyBlockingIsAllowed(s: Link, es: seq<Event>)
    requires s.torn == [] && AllOnlyBlock(es) && AllFramable(es)
    ensures AllAllowed(s, es)
    decreases es
  {
    if es != [] {
      OnlyBlockingTearsNothing(s, [es[0]]);
      assert Run(s, [es[0]]) == Run(Step(s, es[0]), [es[0]][1..]);
      OnlyBlockingIsAllowed(Step(s, es[0]), es[1..]);
    }
  }

  /** Over every run in which the socket only ever blocks, the packets delivered are a prefix of
      those announced as sent, and all of them once everything is flushed and read. */
  lemma BlockingSocketDelivers(es: seq<Event>)
    requires AllOnlyBlock(es) && AllFramable(es)
    ensures var s := Run(START, es);
            && s.torn == [] && s.delivered <= s.out.sent
            && (s.out.buf == [] && s.taken == |s.out.wire| ==> s.delivered == s.out.sent)
  {
    OnlyBlockingTearsNothing(START, es);
    OnlyBlockingIsAllowed(START, es);
    DeliveredIsPrefixOfSent(es);
  }

  lemma RunTwo(s: Link, e1: Event, e2: Event)
    ensures Run(s, [e1, e2]) == Step(Step(s, e1), e2)
  {
    var s1 := Step(s, e1);
    assert [e1, e2][1..] == [e2];
    assert Run(s, [e1, e2]) == Run(s1, [e2]);
    assert [e2][1..] == [];
    assert Run(s1, [e2]) == Run(Step(s1, e2), []);
  }

  /** A packet of 65535 zeros: its header is 255, 255, which no zero packet contains. */
  const ZEROS: packet := seq(65535, _ => 0)

  lemma TornBytesSwallowNextFrame(torn: seq<byte>)
    requires torn != [] && !Complete(torn)
    ensures Complete(torn + Frame(ZEROS))
    ensures Parse(torn + Frame(ZEROS)).packets[0] != ZEROS
  {
    var s := torn + Frame(ZEROS);
    assert Frame(ZEROS)[0] == 255 && Frame(ZEROS)[1] == 255;
    var n := FirstFrameSize(s);
    var p := s[LENGTH_SIZE..n];
    assert Parse(s).packets[0] == p;
    if |torn| == 1 {
      assert s[2] == Frame(ZEROS)[1];
      assert p[0] == 255;
    } else {
      assert GetBE16(s) == GetBE16(torn);
      assert p[|torn| - LENGTH_SIZE] == s[|torn|] == 255;
    }
  }

  /** Once a frame is torn, one more packet that the socket takes whole can spoil what is
      delivered: read to its end, the stream of this run no longer delivers a prefix of the
      packets announced as sent. */
  lemma WritingAfterTornFrameMisdelivers(s: Link)
    requires Inv(s) && s.torn != []
    ensures var s' := Run(s, [Send(ZEROS, [Reply(65537, false)]),
                              Readable(|s.out.wire| - s.taken + 65537)]);
            !(s'.delivered <= s'.out.sent)
  {
    var e1, e2 := Send(ZEROS, [Reply(65537, false)]), Readable(|s.out.wire| - s.taken + 65537);
    var f := Frame(ZEROS);
    var s1 := Step(s, e1);
    assert f[65537..] == [];
    assert Drain(f, e1.replies) == Drained(65537, Reply(1, false));
    assert s1.out == Out([], s.out.wire + f, s.out.sent + [ZEROS]);
    var s2 := Step(s1, e2);
    RunTwo(s, e1, e2);
    StreamWithTornFrame(s, s1, e2.amount);
    TornBytesSwallowNextFrame(s.torn);
    var k := |s.out.sent|;
    assert s2.delivered[k] == Parse(s.torn + f).packets[0];
    assert s2.out.sent[k] == ZEROS;
  }

  /** The packets delivered stay a prefix of those sent, whatever is sent next and however
      much of the stream is read after it, exactly if no frame is torn. */
  lemma NextPacketSafeIffNotTorn(s: Link)
    requires Inv(s)
    ensures (forall p: packet, replies, amount | |p| < 65536 :: StaysPrefix(s, Send(p, replies), Readable(amount)))
       <==> s.torn == []
  {
    if s.torn == [] {
      forall p: packet, replies, amount | |p| < 65536
        ensures StaysPrefix(s, Send(p, replies), Readable(amount))
      {
        StepKeepsInv(s, Send(p, replies));
        StepKeepsInv(Step(s, Send(p, replies)), Readable(amount));
        RunTwo(s, Send(p, replies), Readable(amount));
        InvMeansPrefix(Run(s, [Send(p, replies), Readable(amount)]));
      }
    } else {
      WritingAfterTornFrameMisdelivers(s);
      assert !StaysPrefix(s, Send(ZEROS, [Reply(65537, false)]), Readable(|s.out.wire| - s.taken + 65537));
    }
  }

  predicate StaysPrefix(s: Link, e1: Event, e2: Event) {
    Run(s, [e1, e2]).delivered <= Run(s, [e1, e2]).out.sent
  }

  /** A torn frame: the socket takes one byte of a packet and then fails. */
  lemma TornFrameIsReachable()
    ensures var e := Send([7], [Reply(1, false), Reply(-1, false)]);
            AllAllowed(START, [e]) && Run(START, [e]).torn == [0]
  {
    var e := Send([7], [Reply(1, false), Reply(-1, false)]);
    var f := Frame(e.p);
    assert f == [0, 1, 7];
    assert e.replies[1..] == [Reply(-1, false)];
    assert Drain(f[1..], e.replies[1..]) == Drained(0, Reply(-1, false));
    assert Drain(f, e.replies) == Drained(1, Reply(-1, false));
    assert Lost(START.out, e.p, e.replies) == [0];
    assert [e][1..] == [];
    assert Run(START, [e]) == Run(Step(START, e), []);
  }

  /** The stream `s1.out.wire`, once read to its end, parses as the packets sent before the
      torn frame, then whatever the torn bytes and what follows them spell. */
  lemma StreamWithTornFrame(s: Link, s1: Link, amount: nat)
    requires Inv(s) && s.torn != []
    requires s1.out.wire == s.out.wire + Frame(ZEROS)
    requires s1.taken == s.taken && s1.delivered == s.delivered && s1.inbuf == s.inbuf
    requires s1.taken + amount == |s1.out.wire|
    ensures Step(s1, Readable(amount)).delivered
         == s.out.sent + Parse(s.torn + Frame(ZEROS)).packets
  {
    hide Frame, Frames, Parse, Complete, Framable;
    LongerStreamKeepsReaderInv(s.out.wire, Frame(ZEROS), s.taken, Parsed(s.delivered, s.inbuf));
    ReadKeepsReaderInv(s1.out.wire, s1.taken, amount, Parsed(s1.delivered, s1.inbuf));
    assert s1.out.wire[..s1.taken + amount] == s1.out.wire;
    assert s.out.wire + s.out.buf == s.out.wire;
    ParseAfterTorn(s.out.sent, s.torn, Frame(ZEROS));
  }

  lemma ParseAfterTorn(sent: seq<packet>, torn: seq<byte>, more: seq<byte>)
    requires Framable(sent) && !Complete(torn)
    ensures Parse(Frames(sent) + torn + more).packets == sent + Parse(torn + more).packets
  {
    ParseFrames(sent, torn);
    ParseInPieces(Frames(sent) + torn, more);
  }
}
