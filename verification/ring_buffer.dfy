/** The ring buffer: a bounded queue whose read position can also move back over elements
    already read. Its meaning is a tape of all the slots, in the order in which they were
    written, and how many at its end are still to be read. */
module RingBuffers {
  import opened Numbers

  const INT_MAX: int := 0x7FFF_FFFF

  function Clamp(k: int, low: int, high: int): int {
    if k > high then high else if k < low then low else k
  }

  // The queue.

  datatype Fifo<T> = Fifo(tape: seq<T>, count: nat) {
    predicate Valid() {
      count <= |tape|
    }

    function Free(): (n: int)
      requires Valid()
      ensures n >= 0
    {
      |tape| - count
    }

    function Contents(): seq<T>
      requires Valid()
    {
      tape[|tape| - count..]
    }

    /** Takes as many of `xs` as there is room for, in the oldest slots. */
    function Write(xs: seq<T>): (r: Fifo<T>)
      requires Valid()
      ensures r.Valid() && |r.tape| == |tape|
    {
      var n := Min(|xs|, Free());
      Fifo(tape[n..] + xs[..n], count + n)
    }

    /** Drops `k` elements, or takes back -k, as far as possible. */
    function Move(k: int): (r: Fifo<T>)
      requires Valid()
      ensures r.Valid() && |r.tape| == |tape|
    {
      Fifo(tape, count - Clamp(k, -Free(), count))
    }
  }

  lemma WriteAppends<T>(f: Fifo<T>, xs: seq<T>)
    requires f.Valid()
    ensures f.Write(xs).Contents() == f.Contents() + xs[..Min(|xs|, f.Free())]
  {
  }

  lemma MoveDrops<T>(f: Fifo<T>, k: nat)
    requires f.Valid()
    ensures f.Move(k).Contents() == f.Contents()[Min(k, f.count)..]
  {
  }

  /** Moving back takes back as many elements as there are free slots for at most. */
  lemma MoveTakesBack<T>(f: Fifo<T>, k: nat)
    requires f.Valid()
    ensures f.Move(-(k as int)).Contents() == f.tape[f.Free() - Min(k, f.Free())..]
  {
  }

  /** Reading and moving back, or moving back and forth, restores everything. */
  lemma MoveBackRestores<T>(f: Fifo<T>, k: int)
    requires f.Valid() && -f.Free() <= k <= f.count
    ensures f.Move(k).Move(-k) == f
  {
  }

  datatype Transfer<T> = Put(xs: seq<T>) | Get(k: nat) | Shift(distance: int)

  /** A run of writes, reads and moves of the read position: the queue, all elements accepted
      and all elements read. */
  datatype Traffic<T> = Traffic(queue: Fifo<T>, accepted: seq<T>, taken: seq<T>)

  function RunTransfers<T>(f: Fifo<T>, ops: seq<Transfer<T>>): (r: Traffic<T>)
    requires f.Valid()
    ensures r.queue.Valid()
  {
    if ops == [] then Traffic(f, [], [])
    else
      var r := RunTransfers(f, ops[..|ops| - 1]);
      match ops[|ops| - 1]
      case Put(xs) => Traffic(r.queue.Write(xs), r.accepted + xs[..Min(|xs|, r.queue.Free())], r.taken)
      case Get(k) => Traffic(r.queue.Move(k), r.accepted, r.taken + r.queue.Contents()[..Min(k, r.queue.count)])
      case Shift(k) => r.(queue := r.queue.Move(k))
  }

  /** Over every run, moves back and forth included, the tape is the last slots of the initial
      tape followed by everything accepted. */
  lemma {:induction false} TapeIsHistory<T>(f: Fifo<T>, ops: seq<Transfer<T>>)
    requires f.Valid()
    ensures var r := RunTransfers(f, ops);
            r.queue.tape == (f.tape + r.accepted)[|r.accepted|..]
  {
    if ops == [] {
      assert f.tape + [] == f.tape;
    } else {
      var r := RunTransfers(f, ops[..|ops| - 1]);
      TapeIsHistory(f, ops[..|ops| - 1]);
      if ops[|ops| - 1].Put? {
        var xs := ops[|ops| - 1].xs;
        TapeAfterPut(f.tape, r.accepted, xs[..Min(|xs|, r.queue.Free())]);
      }
    }
  }

  /** So whatever is read, once or again, is a stretch of the elements in the order in which
      they were written. */
  lemma ContentsAreEndOfHistory<T>(f: Fifo<T>, ops: seq<Transfer<T>>)
    requires f.Valid()
    ensures var r := RunTransfers(f, ops);
            var written := f.tape + r.accepted;
            r.queue.count <= |written| && r.queue.Contents() == written[|written| - r.queue.count..]
  {
    var r := RunTransfers(f, ops);
    TapeIsHistory(f, ops);
    EndOfTape(f.tape + r.accepted, |r.accepted|, r.queue.count);
  }

  lemma TapeAfterPut<T>(start: seq<T>, accepted: seq<T>, more: seq<T>)
    requires |more| <= |start|
    ensures (start + (accepted + more))[|accepted + more|..] == (start + accepted)[|accepted|..][|more|..] + more
  {
  }

  lemma EndOfTape<T>(written: seq<T>, n: nat, count: nat)
    requires n + count <= |written|
    ensures written[n..][|written| - n - count..] == written[|written| - count..]
  {
  }

  /** First in, first out: over every run of writes and reads, what was in the queue and what
      it accepted is, in order, what was read followed by what is left. */
  lemma {:induction false} NothingLostOrReordered<T>(f: Fifo<T>, ops: seq<Transfer<T>>)
    requires f.Valid() && forall i :: 0 <= i < |ops| ==> !ops[i].Shift?
    ensures var r := RunTransfers(f, ops);
            f.Contents() + r.accepted == r.taken + r.queue.Contents()
  {
    if ops == [] {
      assert f.Contents() + [] == [] + f.Contents();
    } else {
      var r, r' := RunTransfers(f, ops[..|ops| - 1]), RunTransfers(f, ops);
      NothingLostOrReordered(f, ops[..|ops| - 1]);
      match ops[|ops| - 1] {
        case Put(xs) =>
          WriteAppends(r.queue, xs);
          PutBalances(f.Contents(), r.accepted, r.taken, r.queue.Contents(), xs[..Min(|xs|, r.queue.Free())]);
        case Get(k) =>
          MoveDrops(r.queue, k);
          GetBalances(f.Contents(), r.accepted, r.taken, r.queue.Contents(), Min(k, r.queue.count));
      }
    }
  }

  lemma PutBalances<T>(start: seq<T>, accepted: seq<T>, taken: seq<T>, contents: seq<T>, more: seq<T>)
    requires start + accepted == taken + contents
    ensures start + (accepted + more) == taken + (contents + more)
  {
    assert start + (accepted + more) == (start + accepted) + more;
    assert taken + (contents + more) == (taken + contents) + more;
  }

  lemma GetBalances<T>(start: seq<T>, accepted: seq<T>, taken: seq<T>, contents: seq<T>, n: nat)
    requires start + accepted == taken + contents && n <= |contents|
    ensures start + accepted == (taken + contents[..n]) + contents[n..]
  {
    assert (taken + contents[..n]) + contents[n..] == taken + (contents[..n] + contents[n..]);
    assert contents[..n] + contents[n..] == contents;
  }

  // The positions.

  datatype Wrap = SameWrap | DiffWrap

  datatype Positions = Positions(size: nat, read: nat, write: nat, wrap: Wrap) {
    predicate Valid() {
      && size > 0 && read <= size && write <= size
      && (if wrap.SameWrap? then read <= write else write <= read)
    }

    function Readable(): (n: nat)
      requires Valid()
      ensures n <= size
    {
      if wrap.SameWrap? then write - read else size - read + write
    }

    function Writable(): (n: int)
      requires Valid()
      ensures n >= 0
    {
      size - Readable()
    }

    function AfterWrite(k: nat): (p: Positions)
      requires Valid()
      ensures p.Valid() && p.size == size && p.Readable() == Readable() + Min(k, Writable())
    {
      var n := Min(k, Writable());
      if n > size - write then this.(write := n - (size - write), wrap := DiffWrap)
      else this.(write := write + n)
    }

    /** The read position before it is brought back into range. */
    function Target(k: int): int
      requires Valid()
    {
      read + Clamp(k, -Writable(), Readable())
    }

    function AfterMove(k: int): (p: Positions)
      requires Valid()
      ensures p.Valid() && p.size == size
      ensures p.Readable() == Readable() - Clamp(k, -Writable(), Readable())
    {
      var to := Target(k);
      if to > size then this.(read := to - size, wrap := SameWrap)
      else if to < 0 then this.(read := to + size, wrap := DiffWrap)
      else this.(read := to)
    }
  }

  datatype Op = Write(count: nat) | Move(distance: int)

  function Run(p: Positions, ops: seq<Op>): (r: Positions)
    requires p.Valid()
    ensures r.Valid() && r.size == p.size
  {
    if ops == [] then p
    else
      var q := Run(p, ops[..|ops| - 1]);
      match ops[|ops| - 1]
      case Write(k) => q.AfterWrite(k)
      case Move(k) => q.AfterMove(k)
  }

  function Initial(size: nat): Positions {
    Positions(size, 0, 0, SameWrap)
  }

  /** MoveReadPtr adds in `int`. The sum stays within an `int` in every run exactly if
      twice the number of elements does. */
  lemma MoveNeverOverflowsIff(size: nat)
    requires 0 < size
    ensures (forall ops, k :: Run(Initial(size), ops).Target(k) <= INT_MAX) <==> 2 * size <= INT_MAX
  {
    if 2 * size > INT_MAX {
      var ops := FullAtTheEnd(size);
      assert Run(Initial(size), ops).Target(size) == 2 * size;
    }
  }

  /** A run that leaves the buffer full with both positions at its end. */
  lemma FullAtTheEnd(size: nat) returns (ops: seq<Op>)
    requires 0 < size
    ensures Run(Initial(size), ops) == Positions(size, size, size, DiffWrap)
  {
    var p := Initial(size);
    var o1, o2, o3 := [Write(size)], [Write(size), Move(size)], [Write(size), Move(size), Write(size)];
    assert o1[..0] == [] && o2[..1] == o1 && o3[..2] == o2;
    assert Run(p, o1) == Positions(size, 0, size, SameWrap);
    assert Run(p, o2) == Positions(size, size, size, SameWrap);
    ops := o3;
  }

  /** A view of elements read: none, a stretch of the buffer itself, or the caller's copy. */
  datatype View = Nowhere | InBuffer(start: nat) | InCopy

  class RingBuffer<T> {
    const data: array<T>
    var readPos: nat
    var writePos: nat
    var wrap: Wrap

    ghost function Pos(): Positions
      reads this
    {
      Positions(data.Length, readPos, writePos, wrap)
    }

    ghost predicate Valid()
      reads this
    {
      Pos().Valid()
    }

    ghost function Queue(): (f: Fifo<T>)
      requires Valid()
      reads this, data
      ensures f.Valid()
    {
      var s := data[..];
      Fifo(s[writePos..] + s[..writePos], Pos().Readable())
    }

    constructor (size: nat, zero: T)
      requires size > 0
      ensures Valid() && fresh(data) && data.Length == size && Pos() == Initial(size)
      ensures Queue() == Fifo(seq(size, _ => zero), 0)
    {
      data := new T[size](_ => zero);
      readPos, writePos, wrap := 0, 0, SameWrap;
      new;
      assert data[0..] + data[..0] == seq(size, _ => zero);
    }

    method AvailableRead() returns (n: nat)
      requires Valid()
      ensures n == Queue().count
    {
      n := if wrap.SameWrap? then writePos - readPos else data.Length - readPos + writePos;
    }

    method AvailableWrite() returns (n: nat)
      requires Valid()
      ensures n == Queue().Free()
    {
      var readable := AvailableRead();
      n := data.Length - readable;
    }

    method MoveReadPtr(k: int) returns (moved: int)
      requires Valid() && data.Length <= INT_MAX && Pos().Target(k) <= INT_MAX
      modifies this
      ensures Valid() && Pos() == old(Pos()).AfterMove(k)
      ensures moved == Clamp(k, -old(Queue()).Free(), old(Queue()).count)
      ensures Queue() == old(Queue()).Move(k)
    {
      var free := AvailableWrite();
      var readable := AvailableRead();
      moved := k;
      if moved > readable {
        moved := readable;
      }
      if moved < -(free as int) {
        moved := -(free as int);
      }
      var pos: int := readPos;
      pos := pos + moved;
      assert pos <= INT_MAX;
      if pos > data.Length {
        pos := pos - data.Length;
        wrap := SameWrap;
      }
      if pos < 0 {
        pos := pos + data.Length;
        wrap := DiffWrap;
      }
      readPos := pos;
    }

    /** The one or two stretches of the buffer that hold the next elements: `first` of them
        from the read position on, and `second` more from the start. */
    method GetBufferReadRegions(count: nat) returns (n: nat, first: nat, second: nat)
      requires Valid()
      ensures n == Min(count, Queue().count) == first + second
      ensures readPos + first <= data.Length && second <= data.Length
      ensures second > 0 <==> readPos + n > data.Length
      ensures data[readPos..readPos + first] + data[..second] == Queue().Contents()[..n]
    {
      var readable := AvailableRead();
      n := if readable < count then readable else count;
      var margin := data.Length - readPos;
      if n > margin {
        first, second := margin, n - margin;
      } else {
        first, second := n, 0;
      }
      RegionsHoldContents(n, first, second);
    }

    lemma RegionsHoldContents(n: nat, first: nat, second: nat)
      requires Valid() && n <= Queue().count && first + second == n
      requires if n > data.Length - readPos then first == data.Length - readPos else second == 0
      ensures readPos + first <= data.Length && second <= data.Length
      ensures data[readPos..readPos + first] + data[..second] == Queue().Contents()[..n]
    {
      var s := data[..];
      RegionsAreContents(s, Pos(), n, first, second);
      assert data[readPos..readPos + first] == s[readPos..readPos + first] && data[..second] == s[..second];
    }

    method Write(xs: seq<T>) returns (n: nat)
      requires Valid()
      modifies this, data
      ensures Valid() && Pos() == old(Pos()).AfterWrite(|xs|)
      ensures n == Min(|xs|, old(Queue()).Free())
      ensures Queue() == old(Queue()).Write(xs)
    {
      var free := AvailableWrite();
      n := if free < |xs| then free else |xs|;
      ghost var before, from := data[..], writePos;
      Put(xs, n);
      TapeAfterWrite(before, data[..], from, writePos, xs[..n]);
    }

    /** Copies `n` elements in, around the end of the buffer if need be. */
    method Put(xs: seq<T>, n: nat)
      requires Valid() && n <= |xs| && n <= Pos().Writable()
      modifies this, data
      ensures Pos() == old(Pos()).AfterWrite(n)
      ensures forall i :: 0 <= i < data.Length ==>
        data[i] == if old(writePos) <= i < old(writePos) + n then xs[i - old(writePos)]
                   else if i < old(writePos) + n - data.Length then xs[i + data.Length - old(writePos)]
                   else old(data[i])
    {
      var rest := n;
      var margin := data.Length - writePos;
      if n > margin {
        forall i | 0 <= i < margin {
          data[writePos + i] := xs[i];
        }
        writePos := 0;
        rest := rest - margin;
        wrap := DiffWrap;
      }
      var to := writePos;
      forall i | 0 <= i < rest {
        data[to + i] := xs[n - rest + i];
      }
      writePos := writePos + rest;
    }

    /** Reads up to `count` elements: into `copy` if the caller does not ask for a view, or
        if they wrap around the end of the buffer, and else only as a view. */
    method Read(wantView: bool, copy: array?<T>, count: nat) returns (n: nat, view: View)
      requires Valid()
      requires copy != null ==> data.Length <= INT_MAX && Pos().Target(Min(count, Queue().count)) <= INT_MAX
      requires copy != null ==> copy != data && Min(count, Queue().count) <= copy.Length
      modifies this, if copy == null then {} else {copy}
      ensures Valid() && data[..] == old(data[..])
      ensures n == if copy == null then 0 else Min(count, old(Queue()).count)
      ensures Queue() == old(Queue()).Move(n)
      ensures !wantView || n == 0 ==> view == Nowhere
      ensures wantView && n > 0 ==> !view.Nowhere?
      ensures view.InBuffer? <==> wantView && n > 0 && old(readPos) + n <= data.Length
      ensures view.InBuffer? ==> view.start == old(readPos)
      ensures view.InBuffer? ==> view.start + n <= data.Length && data[view.start..view.start + n] == old(Queue()).Contents()[..n]
      ensures copy != null ==>
        copy[..] == (if view.InBuffer? then old(copy[..n]) else old(Queue()).Contents()[..n]) + old(copy[n..])
    {
      if copy == null {
        return 0, Nowhere;
      }
      n, view := Fetch(wantView, copy, count);
      var _ := MoveReadPtr(n);
    }

    method Fetch(wantView: bool, copy: array<T>, count: nat) returns (n: nat, view: View)
      requires Valid() && copy != data && Min(count, Queue().count) <= copy.Length
      modifies copy
      ensures n == Min(count, Queue().count)
      ensures view.Nowhere? <==> !wantView || n == 0
      ensures view.InBuffer? <==> wantView && n > 0 && readPos + n <= data.Length
      ensures view.InBuffer? ==> view.start == readPos
      ensures view.InBuffer? ==> view.start + n <= data.Length && data[view.start..view.start + n] == Queue().Contents()[..n]
      ensures copy[..] == (if view.InBuffer? then old(copy[..n]) else Queue().Contents()[..n]) + old(copy[n..])
    {
      var first, second;
      n, first, second := GetBufferReadRegions(count);
      view := Deliver(wantView, copy, first, second, Queue().Contents()[..n]);
    }

    /** Hands out the elements of one or two regions. */
    method Deliver(wantView: bool, copy: array<T>, first: nat, second: nat, ghost next: seq<T>) returns (view: View)
      requires copy != data && |next| == first + second <= copy.Length
      requires readPos + first <= data.Length && second <= data.Length
      requires data[readPos..readPos + first] + data[..second] == next
      modifies copy
      ensures view.Nowhere? <==> !wantView || next == []
      ensures view.InBuffer? <==> wantView && next != [] && second == 0
      ensures view.InBuffer? ==> view.start == readPos && data[readPos..readPos + |next|] == next
      ensures copy[..] == (if view.InBuffer? then old(copy[..|next|]) else next) + old(copy[|next|..])
    {
      if second > 0 || !wantView {
        CopyRegions(copy, first, second, first + second);
        view := if wantView then InCopy else Nowhere;
      } else {
        OneRegion(data[..], readPos, first);
        Halves(copy[..], first);
        view := if first == 0 then Nowhere else InBuffer(readPos);
      }
    }

    method CopyRegions(copy: array<T>, first: nat, second: nat, n: nat)
      requires copy != data && first + second == n <= copy.Length
      requires readPos + first <= data.Length && second <= data.Length
      modifies copy
      ensures copy[..] == data[readPos..readPos + first] + data[..second] + old(copy[n..])
    {
      forall i | 0 <= i < first {
        copy[i] := data[readPos + i];
      }
      forall i | 0 <= i < second {
        copy[first + i] := data[i];
      }
      ghost var target := data[readPos..readPos + first] + data[..second] + old(copy[n..]);
      assert forall k :: 0 <= k < copy.Length ==> copy[k] == target[k];
    }
  }

  lemma Halves<T>(s: seq<T>, n: nat)
    requires n <= |s|
    ensures s == s[..n] + s[n..]
  {
  }

  lemma OneRegion<T>(s: seq<T>, start: nat, n: nat)
    requires start + n <= |s|
    ensures s[start..start + n] + s[..0] == s[start..start + n]
  {
  }

  /** The elements to read, as they lie in the buffer. */
  lemma ContentsAt<T>(s: seq<T>, p: Positions)
    requires p.Valid() && p.size == |s|
    ensures (s[p.write..] + s[..p.write])[|s| - p.Readable()..]
         == if p.wrap.SameWrap? then s[p.read..p.write] else s[p.read..] + s[..p.write]
  {
  }

  lemma RegionsAreContents<T>(s: seq<T>, p: Positions, n: nat, first: nat, second: nat)
    requires p.Valid() && p.size == |s| && n <= p.Readable()
    requires if n > |s| - p.read then first == |s| - p.read && second == n - first else first == n && second == 0
    ensures second <= |s| && p.read + first <= |s|
    ensures s[p.read..p.read + first] + s[..second] == (s[p.write..] + s[..p.write])[|s| - p.Readable()..][..n]
  {
    ContentsAt(s, p);
  }

  /** Writing `xs` from `from` on, around the end if need be, puts them at the end of the
      tape and pushes as many off its front. */
  lemma TapeAfterWrite<T>(s: seq<T>, t: seq<T>, from: nat, to: nat, xs: seq<T>)
    requires |s| == |t| && from <= |s| && |xs| <= |s| && to <= |s|
    requires to == if |xs| > |s| - from then |xs| - (|s| - from) else from + |xs|
    requires forall i :: 0 <= i < |s| ==>
      t[i] == if from <= i < from + |xs| then xs[i - from]
              else if i < from + |xs| - |s| then xs[i + |s| - from]
              else s[i]
    ensures t[to..] + t[..to] == (s[from..] + s[..from])[|xs|..] + xs
  {
  }

  /** A run on the ring itself. */
  method Transact<T>(ring: RingBuffer<T>, ops: seq<Transfer<T>>, zero: T) returns (accepted: seq<T>, taken: seq<T>)
    requires ring.Valid() && 2 * ring.data.Length <= INT_MAX
    modifies ring, ring.data
    ensures ring.Valid()
    ensures Traffic(ring.Queue(), accepted, taken) == RunTransfers(old(ring.Queue()), ops)
  {
    accepted, taken := [], [];
    for i := 0 to |ops|
      invariant ring.Valid()
      invariant Traffic(ring.Queue(), accepted, taken) == RunTransfers(old(ring.Queue()), ops[..i])
    {
      assert ops[..i + 1][..i] == ops[..i];
      match ops[i] {
        case Put(xs) =>
          var n := ring.Write(xs);
          accepted := accepted + xs[..n];
        case Get(k) =>
          var read := ReadOut(ring, k, zero);
          taken := taken + read;
        case Shift(k) =>
          var _ := ring.MoveReadPtr(k);
      }
    }
    assert ops[..|ops|] == ops;
  }

  method ReadOut<T>(ring: RingBuffer<T>, k: nat, zero: T) returns (read: seq<T>)
    requires ring.Valid() && 2 * ring.data.Length <= INT_MAX
    modifies ring
    ensures ring.Valid() && ring.Queue() == old(ring.Queue()).Move(k)
    ensures read == old(ring.Queue()).Contents()[..Min(k, old(ring.Queue()).count)]
  {
    var readable := ring.AvailableRead();
    var n := if k < readable then k else readable;
    var copy := new T[n](_ => zero);
    var _, _ := ring.Read(false, copy, k);
    read := copy[..];
  }
}
