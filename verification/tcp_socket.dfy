/** AsyncTCPSocket: packets over a TCP byte stream, dropped rather than queued while an
    earlier packet is still being written. The operating system's socket appears as
    scripts: what each Send call answers and how much each Recv call may hand over. */
module TcpSocket {
  import opened Bytes
  import opened Framing
  import opened Numbers

  const MINIMUM_RECV_SIZE := 128

  /** One answer of the socket's Send: a byte count, or a failure with its error. A count
      above what was offered (which the source marks as unreachable) writes nothing. */
  datatype Reply = Reply(res: int, wouldBlock: bool)

  /** A script that has run out blocks. */
  function NextReply(replies: seq<Reply>): Reply {
    if replies == [] then Reply(-1, true) else replies[0]
  }

  function LaterReplies(replies: seq<Reply>): seq<Reply> {
    if replies == [] then [] else replies[1..]
  }

  /** How far one flush got through its buffer, and the answer that ended it. */
  datatype Drained = Drained(written: nat, last: Reply) {
    predicate Failed() {
      last.res <= 0
    }
  }

  function Drain(view: seq<byte>, replies: seq<Reply>): (d: Drained)
    ensures d.written <= |view|
    ensures d.Failed() <==> d.written < |view|
  {
    if view == [] then Drained(0, Reply(1, false))
    else
      var r := NextReply(replies);
      if r.res <= 0 then Drained(0, r)
      else if r.res > |view| then Drained(0, Reply(-1, r.wouldBlock))
      else
        var d := Drain(view[r.res..], LaterReplies(replies));
        Drained(r.res + d.written, d.last)
  }

  // What the answers of the socket mean.

  function Total(replies: seq<Reply>): int {
    if replies == [] then 0 else replies[0].res + Total(replies[1..])
  }

  /** A failure, or the impossible claim to have taken more than the `n` bytes offered. */
  predicate Fails(n: int, r: Reply) {
    r.res <= 0 || r.res > n
  }

  /** Of `n` bytes offered, the socket takes `Total(replies[..k])` in `k` answers, and then all
      are taken or the next answer is a failure. */
  predicate StopsAfter(n: nat, replies: seq<Reply>, k: nat) {
    && k <= |replies| && (forall i :: 0 <= i < k ==> replies[i].res > 0)
    && Total(replies[..k]) <= n
    && (Total(replies[..k]) == n || Fails(n - Total(replies[..k]), NextReply(replies[k..])))
  }

  /** Every script has such a number of answers. */
  lemma {:induction false} SomeStop(n: nat, replies: seq<Reply>) returns (k: nat)
    ensures StopsAfter(n, replies, k)
    decreases replies
  {
    if n == 0 || replies == [] || Fails(n, replies[0]) {
      k := 0;
      assert replies[0..] == replies;
    } else {
      k := SomeStop(n - replies[0].res, replies[1..]);
      k := k + 1;
      TotalStep(replies, k - 1);
      assert forall i :: 0 < i < k ==> replies[i] == replies[1..][i - 1];
    }
  }

  lemma TotalStep(replies: seq<Reply>, k: nat)
    requires k < |replies|
    ensures Total(replies[..k + 1]) == replies[0].res + Total(replies[1..][..k])
    ensures replies[k + 1..] == replies[1..][k..]
  {
    assert replies[..k + 1][1..] == replies[1..][..k];
  }

  /** What the loop writes is the sum of the answers up to the first failure, and its outcome
      is whether that failure, if there is one, is EWOULDBLOCK. */
  lemma {:induction false} DrainAt(view: seq<byte>, replies: seq<Reply>, k: nat)
    requires StopsAfter(|view|, replies, k)
    ensures var d := Drain(view, replies);
            && d.written == Total(replies[..k])
            && (d.written < |view| ==> d.last.wouldBlock == NextReply(replies[k..]).wouldBlock)
    decreases replies
  {
    if k > 0 {
      TotalStep(replies, k - 1);
      TotalPositive(replies[1..][..k - 1]);
      DrainAt(view[replies[0].res..], replies[1..], k - 1);
    } else {
      assert replies[0..] == replies;
    }
  }

  lemma TotalPositive(replies: seq<Reply>)
    requires forall i :: 0 <= i < |replies| ==> replies[i].res > 0
    ensures Total(replies) >= |replies|
  {
  }

  /** The sending half: the bytes still to write, all the bytes handed to the socket so
      far, and the packets announced as sent. */
  datatype Out = Out(buf: seq<byte>, wire: seq<byte>, sent: seq<packet>)

  function Flush(o: Out, replies: seq<Reply>): (Out, int) {
    var d := Drain(o.buf, replies);
    var wire := o.wire + o.buf[..d.written];
    if !d.Failed() then (o.(buf := [], wire := wire), |o.buf|)
    else (o.(buf := o.buf[d.written..], wire := wire),
          if d.last.wouldBlock then d.written else d.last.res)
  }

  function SendPacket(o: Out, p: packet, replies: seq<Reply>): (Out, int) {
    if |p| > BUF_SIZE then (o, -1)
    else if o.buf != [] then (o, |p|)
    else
      var (o', res) := Flush(o.(buf := Frame(p)), replies);
      if res <= 0 then (o'.(buf := []), res)
      else (o'.(sent := o.sent + [p]), |p|)
  }

  /** A packet that is too long, or that comes while an earlier one is being written, leaves
      everything as it is; only the first is reported. */
  lemma PacketNotTaken(o: Out, p: packet, replies: seq<Reply>)
    ensures |p| > 65538 ==> SendPacket(o, p, replies) == (o, -1)
    ensures |p| <= 65538 && o.buf != [] ==> SendPacket(o, p, replies) == (o, |p|)
  {
  }

  /** A packet on an idle socket, of whose frame the socket takes `n` bytes in `k` answers, is
      announced, and its unwritten bytes stay buffered, exactly if some were taken and the
      failure, if there is one, is EWOULDBLOCK. Else it is given up and the rest thrown away. */
  lemma PacketTaken(o: Out, p: packet, replies: seq<Reply>, k: nat)
    requires |p| <= BUF_SIZE && o.buf == [] && StopsAfter(|Frame(p)|, replies, k)
    ensures var f, n := Frame(p), Total(replies[..k]);
            0 <= n <= |f| &&
            if k > 0 && (n == |f| || NextReply(replies[k..]).wouldBlock)
            then SendPacket(o, p, replies) == (Out(f[n..], o.wire + f[..n], o.sent + [p]), |p|)
            else SendPacket(o, p, replies).0 == Out([], o.wire + f[..n], o.sent) && SendPacket(o, p, replies).1 <= 0
  {
    DrainAt(Frame(p), replies, k);
    TotalPositive(replies[..k]);
    assert Frame(p)[|Frame(p)|..] == [];
  }

  /** A write event writes on where the last flush stopped. */
  lemma BufferWrittenOn(o: Out, replies: seq<Reply>, k: nat)
    requires StopsAfter(|o.buf|, replies, k)
    ensures var n := Total(replies[..k]);
            0 <= n <= |o.buf| && WriteEvent(o, replies) == Out(o.buf[n..], o.wire + o.buf[..n], o.sent)
  {
    DrainAt(o.buf, replies, k);
    if o.buf == [] {
      assert o.wire + [] == o.wire;
    }
  }

  function WriteEvent(o: Out, replies: seq<Reply>): Out {
    if o.buf == [] then o else Flush(o, replies).0
  }

  /** A socket whose Recv calls hand over all they have room for. */
  predicate Generous(limits: seq<int>) {
    |limits| > BUF_SIZE && forall i :: 0 <= i < |limits| ==> limits[i] >= BUF_SIZE
  }

  class AsyncTcpSocket {
    var inbuf: seq<byte>
    var capacity: nat            // of the input buffer
    var outbuf: seq<byte>
    var wire: seq<byte>          // everything the socket took
    var sent: seq<packet>        // SignalSentPacket
    var delivered: seq<packet>   // SignalReadPacket
    var readyToSend: nat         // SignalReadyToSend

    ghost predicate Valid()
      reads this
    {
      && MINIMUM_RECV_SIZE <= capacity <= BUF_SIZE
      && |inbuf| <= capacity
      && !Complete(inbuf)
    }

    ghost function Outgoing(): Out
      reads this
    {
      Out(outbuf, wire, sent)
    }

    constructor ()
      ensures Valid() && Outgoing() == Out([], [], []) && inbuf == [] && delivered == []
      ensures capacity == 128 && readyToSend == 0
    {
      inbuf, outbuf, wire, sent, delivered := [], [], [], [], [];
      capacity := MINIMUM_RECV_SIZE;
      readyToSend := 0;
    }

    method FlushOutBuffer(replies: seq<Reply>) returns (res: int)
      requires outbuf != []
      modifies this`outbuf, this`wire
      ensures (Outgoing(), res) == Flush(old(Outgoing()), replies)
    {
      var view, script := outbuf, replies;
      var last := Reply(1, false);
      ghost var written: nat := 0;
      while |view| > 0
        invariant written <= |outbuf| && view == outbuf[written..]
        invariant outbuf == old(outbuf) && wire == old(wire) + outbuf[..written]
        invariant last.res > 0
        invariant var d := Drain(view, script);
                  Drain(outbuf, replies) == Drained(written + d.written, d.last)
        decreases |view|
      {
        last := NextReply(script);
        if last.res <= 0 {
          break;
        }
        if last.res > |view| {
          last := Reply(-1, last.wouldBlock);
          break;
        }
        assert outbuf[..written] + view[..last.res] == outbuf[..written + last.res];
        wire := wire + view[..last.res];
        view := view[last.res..];
        script := LaterReplies(script);
        written := written + last.res;
      }
      if last.res > 0 {
        res := |outbuf|;
        outbuf := [];
      } else {
        res := last.res;
        if last.wouldBlock {
          res := |outbuf| - |view|;
        }
        if |view| < |outbuf| {
          outbuf := view;
        }
      }
    }

    method AppendToOutBuffer(bytes: seq<byte>)
      modifies this`outbuf
      ensures outbuf == old(outbuf) + bytes
    {
      outbuf := outbuf + bytes;
    }

    method Send(p: packet, replies: seq<Reply>) returns (res: int)
      modifies this`outbuf, this`wire, this`sent
      ensures (Outgoing(), res) == SendPacket(old(Outgoing()), p, replies)
    {
      if |p| > BUF_SIZE {
        return -1;
      }
      if outbuf != [] {
        return |p|;
      }
      AppendToOutBuffer(Header(|p|));
      AppendToOutBuffer(p);
      assert outbuf == Frame(p);
      res := FlushOutBuffer(replies);
      if res <= 0 {
        outbuf := [];
        return;
      }
      sent := sent + [p];
      res := |p|;
    }

    method OnWriteEvent(replies: seq<Reply>)
      modifies this`outbuf, this`wire, this`readyToSend
      ensures Outgoing() == WriteEvent(old(Outgoing()), replies)
      ensures readyToSend == old(readyToSend) + if outbuf == [] then 1 else 0
    {
      if |outbuf| > 0 {
        var _ := FlushOutBuffer(replies);
      }
      if |outbuf| == 0 {
        readyToSend := readyToSend + 1;
      }
    }

    /** Delivers every whole frame at the front of the input buffer. */
    method ProcessInput()
      modifies this`inbuf, this`delivered
      ensures Parsed(delivered, inbuf) == Parsed(old(delivered), []).Then(Parse(old(inbuf)))
    {
      assert old(delivered) + Parse(inbuf).packets == delivered + Parse(inbuf).packets;
      while true
        invariant Parsed(delivered, []).Then(Parse(inbuf)) == Parsed(old(delivered), []).Then(Parse(old(inbuf)))
        decreases |inbuf|
      {
        if |inbuf| < LENGTH_SIZE {
          assert delivered + [] == delivered;
          return;
        }
        var length := GetBE16(inbuf);
        if |inbuf| < LENGTH_SIZE + length {
          assert delivered + [] == delivered;
          return;
        }
        ghost var rest := Parse(inbuf[LENGTH_SIZE + length..]);
        var p := inbuf[LENGTH_SIZE..LENGTH_SIZE + length];
        assert delivered + rest.Cons(p).packets == delivered + [p] + rest.packets;
        delivered := delivered + [p];
        inbuf := inbuf[LENGTH_SIZE + length..];
      }
    }

    /** Doubles a buffer with little room left, up to its largest size. */
    method MakeRoom() returns (free: nat)
      requires MINIMUM_RECV_SIZE <= capacity <= BUF_SIZE && |inbuf| <= capacity
      modifies this`capacity
      ensures MINIMUM_RECV_SIZE <= capacity <= BUF_SIZE && free == capacity - |inbuf|
      ensures free >= MINIMUM_RECV_SIZE || capacity == BUF_SIZE
      ensures capacity == old(capacity) || capacity < 2 * (|inbuf| + MINIMUM_RECV_SIZE)
    {
      free := capacity - |inbuf|;
      if free < MINIMUM_RECV_SIZE && capacity < BUF_SIZE {
        capacity := Min(BUF_SIZE, capacity * 2);
        free := capacity - |inbuf|;
      }
    }

    /** The receive loop of a read event, on a stream that holds `avail`; `limits` says how
        much each Recv call may hand over, a negative limit being an error. The first call
        always finds room, a socket that hands over all it has is read until the stream is
        empty or the buffer full, and the buffer grows no further than to twice what it holds
        and the room for one more call. */
    method Receive(avail: seq<byte>, limits: seq<int>) returns (taken: nat)
      requires Valid()
      modifies this`inbuf, this`capacity
      ensures MINIMUM_RECV_SIZE <= capacity <= BUF_SIZE && |inbuf| <= capacity
      ensures taken <= |avail| && inbuf == old(inbuf) + avail[..taken]
      ensures avail != [] && limits != [] && limits[0] > 0 ==> taken > 0
      ensures Generous(limits) ==> taken == Min(|avail|, BUF_SIZE - |old(inbuf)|)
      ensures capacity == old(capacity) || capacity < 2 * (|inbuf| + MINIMUM_RECV_SIZE)
    {
      ResidueLeavesRoom(inbuf);
      taken := 0;
      var calls := 0;
      while true
        invariant MINIMUM_RECV_SIZE <= capacity <= BUF_SIZE && |inbuf| <= capacity
        invariant taken <= |avail| && inbuf == old(inbuf) + avail[..taken]
        invariant calls > 0 && avail != [] && limits != [] && limits[0] > 0 ==> taken > 0
        invariant calls == 0 ==> |inbuf| < BUF_SIZE
        invariant calls <= taken
        invariant capacity == old(capacity) || capacity < 2 * (|inbuf| + MINIMUM_RECV_SIZE)
        decreases BUF_SIZE - |inbuf|
      {
        var free := MakeRoom();
        var limit := if calls < |limits| then limits[calls] else -1;
        calls := calls + 1;
        if limit < 0 {
          break;
        }
        var len := Min(limit, Min(free, |avail| - taken));
        inbuf := inbuf + avail[taken..taken + len];
        assert avail[..taken] + avail[taken..taken + len] == avail[..taken + len];
        taken := taken + len;
        if len == 0 || len < free {
          break;
        }
      }
    }

    /** A read event on a connected socket. However the bytes arrive and the buffer grows,
        the packets delivered are those that parsing the residue and the bytes taken
        yields, and a willing stream is always read. */
    method OnReadEvent(avail: seq<byte>, limits: seq<int>) returns (taken: nat)
      requires Valid()
      modifies this`inbuf, this`capacity, this`delivered
      ensures Valid()
      ensures taken <= |avail|
      ensures Parsed(delivered, inbuf)
           == Parsed(old(delivered), []).Then(Parse(old(inbuf) + avail[..taken]))
      ensures avail != [] && limits != [] && limits[0] > 0 ==> taken > 0
      ensures Generous(limits) ==> taken == Min(|avail|, BUF_SIZE - |old(inbuf)|)
    {
      taken := Receive(avail, limits);
      ghost var input := inbuf;
      if taken == 0 {
        assert input == old(inbuf);
        assert old(delivered) + [] == old(delivered);
        return;
      }
      ProcessInput();
      ParseRebuilds(input);
      assert |input| == |Frames(Parse(input).packets)| + |inbuf|;
    }
  }

  /** Less than a whole frame always leaves room in a buffer of full size. */
  lemma ResidueLeavesRoom(s: seq<byte>)
    requires !Complete(s)
    ensures |s| + LENGTH_SIZE <= BUF_SIZE
  {
  }
}
