/** The end of a destruction. Every step of a destruction under way, other than a functor's
    new invocations, brings its end closer, and some step is possible until the destructor
    has returned, unless functors wait for the destructing thread or for one another. In that
    case the destructor never returns. */
module AsyncInvokerProgress {
  import opened AsyncInvoker
  import opened AsyncInvokerMeasure
  import opened AsyncInvokerStacks

  // Deadlock.

  /** `c` waits for the destructing thread, or for a thread that one of `cs` keeps waiting. */
  ghost predicate HeldUp(s: State, cs: set<Closure>, c: Closure) {
    && At(s, c) && Waits(s.closures[c])
    && (s.closures[c].mode.target == OWNER || exists c' :: c' in cs && OnStack(s, c', s.closures[c].mode.target))
  }

  /** Functors that wait only for the destructing thread and for one another. */
  ghost predicate Deadlock(s: State, cs: set<Closure>) {
    cs != {} && forall c | c in cs :: HeldUp(s, cs, c)
  }

  ghost predicate Deadlocked(s: State) {
    exists cs :: Deadlock(s, cs)
  }

  /** No step ends a wait for the destructing thread, or for a thread that runs something. */
  lemma HeldUpStays(s: State, a: Action, cs: set<Closure>, c: Closure)
    requires Enabled(s, a) && Inv(s) && !s.phase.Alive? && HeldUp(s, cs, c)
    ensures At(Next(s, a), c) && Waits(Next(s, a).closures[c])
    ensures Next(s, a).closures[c].t == s.closures[c].t
    ensures Next(s, a).closures[c].mode.target == s.closures[c].mode.target
  {
    hide Next, Enabled;
    if s.closures[c].mode.target == OWNER {
      assert !Serves(s, OWNER, c);
    } else {
      assert !NoFrames(s, s.closures[c].mode.target);
    }
    WaitGoesOn(s, a, c);
  }

  lemma WaitGoesOn(s: State, a: Action, c: Closure)
    requires Enabled(s, a) && !s.phase.Alive? && At(s, c) && Waits(s.closures[c])
    requires if s.closures[c].mode.target == OWNER then !Serves(s, OWNER, c) else !NoFrames(s, s.closures[c].mode.target)
    ensures At(Next(s, a), c) && Waits(Next(s, a).closures[c])
    ensures Next(s, a).closures[c].t == s.closures[c].t
    ensures Next(s, a).closures[c].mode.target == s.closures[c].mode.target
  {
  }

  lemma DeadlockStays(s: State, a: Action, cs: set<Closure>)
    requires Enabled(s, a) && Inv(s) && !s.phase.Alive? && Deadlock(s, cs)
    ensures Deadlock(Next(s, a), cs)
  {
    var s' := Next(s, a);
    forall c | c in cs
      ensures HeldUp(s', cs, c)
    {
      HeldUpStays(s, a, cs, c);
      var target := s.closures[c].mode.target;
      if target != OWNER {
        var c' :| c' in cs && OnStack(s, c', target);
        HeldUpStays(s, a, cs, c');
        assert OnStack(s', c', target);
      }
    }
  }

  /** No functor comes to wait during destruction. */
  lemma WaitedBefore(s: State, a: Action, c: Closure)
    requires Enabled(s, a) && s.destroying && At(Next(s, a), c) && Waits(Next(s, a).closures[c])
    ensures At(s, c) && Waits(s.closures[c])
    ensures Next(s, a).closures[c].t == s.closures[c].t
    ensures Next(s, a).closures[c].mode.target == s.closures[c].mode.target
  {
  }

  lemma DeadlockWasThere(s: State, a: Action, cs: set<Closure>)
    requires Enabled(s, a) && s.destroying && Deadlock(Next(s, a), cs)
    ensures Deadlock(s, cs)
  {
    var s' := Next(s, a);
    forall c | c in cs
      ensures HeldUp(s, cs, c)
    {
      assert HeldUp(s', cs, c);
      WaitedBefore(s, a, c);
      var target := s'.closures[c].mode.target;
      if target != OWNER {
        var c' :| c' in cs && OnStack(s', c', target);
        assert HeldUp(s', cs, c');
        WaitedBefore(s, a, c');
        assert OnStack(s, c', target);
      }
    }
  }

  lemma DeadlockedIsLive(s: State, cs: set<Closure>)
    requires Inv(s) && Deadlock(s, cs)
    ensures !s.phase.Returned?
  {
    var c :| c in cs;
    assert HeldUp(s, cs, c);
    assert c in Live(s);
  }

  /** Under a deadlock the destructor does not return, whatever happens. */
  lemma {:induction false} DeadlockIsForever(s: State, cs: set<Closure>, es: seq<Action>)
    requires Inv(s) && s.destroying && !s.phase.Alive? && Deadlock(s, cs) && CanRun(s, es)
    ensures !Run(s, es).phase.Returned?
    decreases es
  {
    hide Inv, Next, Enabled, Deadlock;
    if es == [] {
      DeadlockedIsLive(s, cs);
    } else {
      StepKeepsInv(s, es[0]);
      StaysDestroying(s, es[0]);
      DeadlockStays(s, es[0], cs);
      DeadlockIsForever(Next(s, es[0]), cs, es[1..]);
    }
  }

  // Progress without a deadlock.

  function Height(w: Where): nat
    requires !w.Queued?
  {
    2 * w.depth + if w.Taken? then 0 else 1
  }

  function Above(s: State, t: Thread, h: nat): set<Closure> {
    set c | c in s.closures && OnStack(s, c, t) && Height(s.closures[c]) > h
  }

  /** The top of a stack that is not empty. */
  lemma TopOfStack(s: State, c: Closure) returns (r: Closure)
    requires At(s, c) && !s.closures[c].Queued?
    ensures OnStack(s, r, s.closures[c].t) && OnTop(s, r)
    ensures s.closures[r].Taken? ==> Enabled(s, RunTaken(r))
    decreases |Above(s, s.closures[c].t, Height(s.closures[c]))|
  {
    var t := s.closures[c].t;
    var higher := Above(s, t, Height(s.closures[c]));
    if higher == {} {
      r := c;
      forall c' | c' in s.closures && OnStack(s, c', t)
        ensures Height(s.closures[c']) <= Height(s.closures[c])
      {
        assert c' !in higher;
      }
    } else {
      var c' :| c' in higher;
      assert Above(s, t, Height(s.closures[c'])) < higher by {
        assert c' !in Above(s, t, Height(s.closures[c']));
      }
      ProperSubsetSmaller(Above(s, t, Height(s.closures[c'])), higher);
      r := TopOfStack(s, c');
    }
  }

  function StackStep(s: State, r: Closure): Action
    requires At(s, r) && !s.closures[r].Queued? && !Waits(s.closures[r])
  {
    match s.closures[r]
    case Invoking(_, _, _, checked) => if checked then Post(r) else Check(r)
    case Taken(_, _) => RunTaken(r)
    case Running(_, _, mode) => if mode.Flushing? then FlushTake(r, {}) else Finish(r)
    case Dropping(_, _) => Drop(r)
    case Dying(_, _) => SetEvent(r)
  }

  /** No functor on the thread's stack waits. */
  predicate Free(s: State, t: Thread) {
    forall c | c in s.closures :: OnStack(s, c, t) ==> !Waits(s.closures[c])
  }

  lemma FreeThreadMoves(s: State, c: Closure) returns (a: Action)
    requires At(s, c) && !s.closures[c].Queued? && Free(s, s.closures[c].t)
    ensures Enabled(s, a) && Quiet(a)
  {
    var r := TopOfStack(s, c);
    a := StackStep(s, r);
  }

  function Waiters(s: State): set<Closure> {
    set c | c in s.closures && Waits(s.closures[c])
  }

  /** Every thread that runs anything has a functor that waits. */
  ghost predicate AllHeld(s: State) {
    forall c | c in s.closures && !s.closures[c].Queued? :: !Free(s, s.closures[c].t)
  }

  lemma HolderOf(s: State, c: Closure) returns (c': Closure)
    requires AllHeld(s) && At(s, c) && !s.closures[c].Queued?
    ensures c' in Waiters(s) && OnStack(s, c', s.closures[c].t)
  {
    c' :| c' in s.closures && OnStack(s, c', s.closures[c].t) && Waits(s.closures[c']);
  }

  /** Then, if they are not deadlocked, one of them waits for a thread that runs nothing. */
  lemma SomeWaiterIsNext(s: State) returns (c: Closure)
    requires !Deadlocked(s) && Waiters(s) != {} && AllHeld(s)
    ensures c in Waiters(s) && s.closures[c].mode.target != OWNER && NoFrames(s, s.closures[c].mode.target)
  {
    hide AllHeld;
    assert !Deadlock(s, Waiters(s));
    c :| c in Waiters(s) && !HeldUp(s, Waiters(s), c);
    var target := s.closures[c].mode.target;
    forall c' | c' in s.closures
      ensures !OnStack(s, c', target)
    {
      if OnStack(s, c', target) {
        var c'' := HolderOf(s, c');
        assert false;
      }
    }
  }

  /** A thread that runs nothing carries out the flushes that others wait for. */
  lemma WaitedForMoves(s: State, c: Closure) returns (a: Action)
    requires WaitersOnTop(s) && c in Waiters(s)
    requires s.closures[c].mode.target != OWNER && NoFrames(s, s.closures[c].mode.target)
    ensures Enabled(s, a) && Quiet(a)
  {
    var target := s.closures[c].mode.target;
    if s.closures[c].mode.Flushing? {
      a := FlushSend(c);
    } else if d :| Serves(s, target, d) {
      a := if s.closures[d].mode.stage.Entered? then ServeTake(d, {}) else ServeDone(d);
    } else {
      assert !Serves(s, target, c);
      a := ServeStart(c);
    }
  }

  lemma ClearingStep(s: State) returns (a: Action)
    requires s.phase.ClearingAll? || s.phase.ClearingOwn?
    requires forall c | c in s.closures :: s.closures[c] == Queued(OWNER)
    ensures Enabled(s, a) && Quiet(a)
  {
    if s.closures != map[] && (s.phase.ClearingOwn? || OWNER in s.phase.left) {
      var c := SomeClosure(s);
      a := ClearQueued(c);
    } else if s.phase.ClearingOwn? {
      a := OwnCleared;
    } else if s.phase.left == {} {
      a := AllCleared;
    } else {
      var t :| t in s.phase.left;
      a := QueueCleared(t);
    }
  }

  /** With every closure left on the owner's own queue, or none at all, the destructor
      itself moves on. */
  lemma OwnerStep(s: State) returns (a: Action)
    requires Inv(s) && !s.phase.Alive? && !s.phase.Returned?
    requires forall c | c in s.closures :: s.closures[c] == Queued(OWNER)
    ensures Enabled(s, a) && Quiet(a)
  {
    match s.phase {
      case ClearingAll(_) => a := ClearingStep(s);
      case ClearingOwn => a := ClearingStep(s);
      case Checking => a := CheckPending;
      case Waiting => a := Wake;
    }
  }

  /** Until the destructor has returned, there is a next step unless there is a deadlock. */
  lemma SomeStep(s: State) returns (a: Action)
    requires Inv(s) && Stacks(s) && !s.phase.Alive? && !s.phase.Returned? && !Deadlocked(s)
    ensures Enabled(s, a) && Quiet(a)
  {
    hide Next, Deadlocked, Enabled, Quiet;
    if c :| At(s, c) && !s.closures[c].Queued? && Free(s, s.closures[c].t) {
      a := FreeThreadMoves(s, c);
    } else if Waiters(s) != {} {
      var c := SomeWaiterIsNext(s);
      a := WaitedForMoves(s, c);
    } else {
      AllQueued(s);
      a := QueueStep(s);
    }
  }

  lemma AllQueued(s: State)
    requires Waiters(s) == {} && AllHeld(s)
    ensures forall c | c in s.closures :: s.closures[c].Queued?
  {
    hide AllHeld, Waiters;
    forall c | c in s.closures
      ensures s.closures[c].Queued?
    {
      if !s.closures[c].Queued? {
        var c' := HolderOf(s, c);
        assert false;
      }
    }
  }

  lemma QueueStep(s: State) returns (a: Action)
    requires Inv(s) && !s.phase.Alive? && !s.phase.Returned?
    requires forall c | c in s.closures :: s.closures[c].Queued?
    ensures Enabled(s, a) && Quiet(a)
  {
    if c :| At(s, c) && s.closures[c].t != OWNER {
      a := Dispatch(c);
    } else {
      a := OwnerStep(s);
    }
  }

  lemma {:induction false} ScheduleToReturn(s: State) returns (es: seq<Action>)
    requires Inv(s) && Stacks(s) && !s.phase.Alive? && !Deadlocked(s)
    ensures CanRun(s, es) && Run(s, es).phase.Returned?
    decreases Rank(s).closures, Rank(s).live, Rank(s).invoking, Rank(s).queued, Rank(s).taken,
              Rank(s).flushes, Rank(s).unsent, Rank(s).entered, Rank(s).phase
  {
    if s.phase.Returned? {
      es := [];
    } else {
      var a := SomeStep(s);
      StepLowers(s, a);
      StepKeepsAll(s, a);
      var later := ScheduleToReturn(Next(s, a));
      es := [a] + later;
      assert es[1..] == later;
    }
  }

  lemma StepKeepsAll(s: State, a: Action)
    requires Enabled(s, a) && Inv(s) && Stacks(s) && !s.phase.Alive? && !Deadlocked(s)
    ensures Inv(Next(s, a)) && Stacks(Next(s, a)) && !Next(s, a).phase.Alive? && !Deadlocked(Next(s, a))
  {
    StepKeepsInv(s, a);
    StepKeepsStacks(s, a);
    if cs :| Deadlock(Next(s, a), cs) {
      DeadlockWasThere(s, a, cs);
      assert Deadlocked(s);
    }
  }

  lemma ReachableStacks(s: State, es: seq<Action>)
    requires Init(s) && CanRun(s, es)
    ensures Stacks(Run(s, es))
  {
    RunKeepsStacks(s, es);
  }

  /** In every reachable state in which destruction has begun, the destructor can still
      return if and only if there is no deadlock. */
  lemma DestructorCanReturnIff(s: State, es: seq<Action>)
    requires Init(s) && CanRun(s, es) && !Run(s, es).phase.Alive?
    ensures (exists es' :: CanRun(Run(s, es), es') && Run(Run(s, es), es').phase.Returned?) <==> !Deadlocked(Run(s, es))
  {
    var r := Run(s, es);
    ReachableInv(s, es);
    ReachableStacks(s, es);
    if cs :| Deadlock(r, cs) {
      forall es' | CanRun(r, es')
        ensures !Run(r, es').phase.Returned?
      {
        DeadlockIsForever(r, cs, es');
      }
    } else {
      var es' := ScheduleToReturn(r);
    }
  }

  // Every run.

  predicate AllQuiet(es: seq<Action>) {
    forall i :: 0 <= i < |es| ==> Quiet(es[i])
  }

  /** The first `n` steps of an endless schedule. */
  function First(f: nat -> Action, n: nat): (es: seq<Action>)
    ensures |es| == n
  {
    seq(n, i requires 0 <= i < n => f(i))
  }

  /** No endless schedule of a destruction can be followed: after finitely many steps it
      calls for a step that is not possible, or for a functor's new call. */
  lemma {:induction false} NoEndlessRun(s: State, f: nat -> Action) returns (n: nat)
    requires s.destroying && !s.phase.Alive?
    ensures !CanRun(s, First(f, n)) || !AllQuiet(First(f, n))
    decreases Rank(s).closures, Rank(s).live, Rank(s).invoking, Rank(s).queued, Rank(s).taken,
              Rank(s).flushes, Rank(s).unsent, Rank(s).entered, Rank(s).phase
  {
    hide Enabled, Next, Quiet, Rank;
    if !Enabled(s, f(0)) || !Quiet(f(0)) {
      n := 1;
      assert First(f, 1)[0] == f(0);
    } else {
      StepLowers(s, f(0));
      StaysDestroying(s, f(0));
      var later := (i: nat) => f(i + 1);
      var m := NoEndlessRun(Next(s, f(0)), later);
      n := m + 1;
      FirstSplits(f, later, m);
      QuietTail(First(f, n));
    }
  }

  lemma StaysDestroying(s: State, a: Action)
    requires Enabled(s, a) && s.destroying && !s.phase.Alive?
    ensures Next(s, a).destroying && !Next(s, a).phase.Alive?
  {
  }

  lemma FirstSplits(f: nat -> Action, later: nat -> Action, m: nat)
    requires forall i: nat :: later(i) == f(i + 1)
    ensures First(f, m + 1)[0] == f(0) && First(f, m + 1)[1..] == First(later, m)
  {
  }

  lemma QuietTail(es: seq<Action>)
    requires es != []
    ensures AllQuiet(es) ==> AllQuiet(es[1..])
  {
  }

  lemma {:induction false} RunKeepsAll(s: State, es: seq<Action>)
    requires Inv(s) && Stacks(s) && !s.phase.Alive? && !Deadlocked(s) && CanRun(s, es)
    ensures Inv(Run(s, es)) && Stacks(Run(s, es)) && !Run(s, es).phase.Alive? && !Deadlocked(Run(s, es))
    decreases es
  {
    hide Inv, Stacks, Deadlocked, Next, Enabled;
    if es != [] {
      StepKeepsAll(s, es[0]);
      RunKeepsAll(Next(s, es[0]), es[1..]);
    }
  }

  /** However a destruction without a deadlock goes on, it only comes to rest with the
      destructor returned. */
  lemma RestMeansReturned(s: State, es: seq<Action>, es': seq<Action>)
    requires Init(s) && CanRun(s, es) && !Run(s, es).phase.Alive? && !Deadlocked(Run(s, es))
    requires CanRun(Run(s, es), es')
    requires forall a :: Enabled(Run(Run(s, es), es'), a) ==> !Quiet(a)
    ensures Run(Run(s, es), es').phase.Returned?
  {
    var r := Run(s, es);
    ReachableInv(s, es);
    ReachableStacks(s, es);
    RunKeepsAll(r, es');
    if !Run(r, es').phase.Returned? {
      var a := SomeStep(Run(r, es'));
    }
  }

  // Deadlocks.

  /** Threads can be ranked so that every functor waits for a thread of lower rank: no cycle
      of waiting threads, which Thread::Send asserts. */
  ghost predicate Ranked(s: State, rank: Thread -> nat) {
    forall c | c in s.closures && Waits(s.closures[c]) && s.closures[c].mode.target != OWNER ::
      rank(s.closures[c].mode.target) < rank(s.closures[c].t)
  }

  lemma {:induction false} ChainEndsAtOwner(s: State, cs: set<Closure>, rank: Thread -> nat, c: Closure) returns (last: Closure)
    requires Deadlock(s, cs) && Ranked(s, rank) && c in cs
    ensures last in cs && Waits(s.closures[last]) && s.closures[last].mode.target == OWNER
    decreases rank(s.closures[c].t)
  {
    assert HeldUp(s, cs, c);
    if s.closures[c].mode.target == OWNER {
      last := c;
    } else {
      var c' :| c' in cs && OnStack(s, c', s.closures[c].mode.target);
      last := ChainEndsAtOwner(s, cs, rank, c');
    }
  }

  /** Without a cycle of waiting threads, there is a deadlock exactly if some functor waits
      for the destructing thread. */
  lemma DeadlockedIffOwnerAwaited(s: State, rank: Thread -> nat)
    requires Ranked(s, rank)
    ensures Deadlocked(s) <==> exists c :: At(s, c) && Waits(s.closures[c]) && s.closures[c].mode.target == OWNER
  {
    if cs :| Deadlock(s, cs) {
      var c :| c in cs;
      var last := ChainEndsAtOwner(s, cs, rank, c);
      assert HeldUp(s, cs, last);
    }
    if c :| At(s, c) && Waits(s.closures[c]) && s.closures[c].mode.target == OWNER {
      assert HeldUp(s, {c}, c);
      assert Deadlock(s, {c});
    }
  }

  const TWO_THREADS := State(map[], 0, false, false, Alive, {OWNER, 1})

  /** A functor on thread 1 sees the flag unset in Flush of the owner's thread, destruction
      begins, and the functor sends its request. */
  const FLUSH_OF_OWNER: seq<Action> := [
    CreateOutside(0, 1, 1), Check(0), Post(0), Dispatch(0), FlushCheck(0, OWNER), Destroy, FlushSend(0)]

  /** The state of that run, with the one closure where it is. */
  function Shown(w: Where, destroying: bool): State {
    State(map[0 := w], 1, false, destroying, if destroying then ClearingAll({OWNER, 1}) else Alive, {OWNER, 1})
  }

  lemma OneStep(s: State, a: Action, s': State, es: seq<Action>)
    requires Enabled(s, a) && Next(s, a) == s' && CanRun(s', es)
    ensures CanRun(s, [a] + es) && Run(s, [a] + es) == Run(s', es)
  {
    assert ([a] + es)[1..] == es;
  }

  /** The step `a` takes the closure from one place to another. */
  ghost predicate Leads(w: Where, a: Action, w': Where) {
    Enabled(Shown(w, false), a) && Next(Shown(w, false), a) == Shown(w', false)
  }

  lemma IsPosted()
    ensures Leads(Invoking(1, 1, 1, false), Check(0), Invoking(1, 1, 1, true))
    ensures Leads(Invoking(1, 1, 1, true), Post(0), Queued(1))
  {
  }

  lemma IsRun()
    ensures Leads(Queued(1), Dispatch(0), Running(1, 1, Plain))
    ensures Leads(Running(1, 1, Plain), FlushCheck(0, OWNER), Running(1, 1, Flushing(OWNER)))
  {
  }

  lemma IsCreated()
    ensures Enabled(TWO_THREADS, CreateOutside(0, 1, 1))
    ensures Next(TWO_THREADS, CreateOutside(0, 1, 1)) == Shown(Invoking(1, 1, 1, false), false)
  {
  }

  lemma SendsAfterDestroy()
    ensures var w, w' := Running(1, 1, Flushing(OWNER)), Running(1, 1, Blocked(OWNER, Requested));
            && Enabled(Shown(w, false), Destroy) && Next(Shown(w, false), Destroy) == Shown(w, true)
            && Enabled(Shown(w, true), FlushSend(0)) && Next(Shown(w, true), FlushSend(0)) == Shown(w', true)
  {
  }

  lemma InvokesAndFlushes(es: seq<Action>)
    requires CanRun(Shown(Running(1, 1, Flushing(OWNER)), false), es)
    ensures CanRun(TWO_THREADS, FLUSH_OF_OWNER[..5] + es)
    ensures Run(TWO_THREADS, FLUSH_OF_OWNER[..5] + es) == Run(Shown(Running(1, 1, Flushing(OWNER)), false), es)
  {
    hide Enabled, Next, Shown, CanRun, Run;
    IsPosted();
    IsRun();
    IsCreated();
    var es4 := [FlushCheck(0, OWNER)] + es;
    var es3 := [Dispatch(0)] + es4;
    var es2 := [Post(0)] + es3;
    var es1 := [Check(0)] + es2;
    OneStep(Shown(Running(1, 1, Plain), false), FlushCheck(0, OWNER), Shown(Running(1, 1, Flushing(OWNER)), false), es);
    OneStep(Shown(Queued(1), false), Dispatch(0), Shown(Running(1, 1, Plain), false), es4);
    OneStep(Shown(Invoking(1, 1, 1, true), false), Post(0), Shown(Queued(1), false), es3);
    OneStep(Shown(Invoking(1, 1, 1, false), false), Check(0), Shown(Invoking(1, 1, 1, true), false), es2);
    OneStep(TWO_THREADS, CreateOutside(0, 1, 1), Shown(Invoking(1, 1, 1, false), false), es1);
    assert FLUSH_OF_OWNER[..5] + es == [CreateOutside(0, 1, 1)] + es1;
  }

  /** The destructor can be stuck for good. */
  lemma DeadlockIsReachable()
    ensures Init(TWO_THREADS) && CanRun(TWO_THREADS, FLUSH_OF_OWNER)
    ensures !Run(TWO_THREADS, FLUSH_OF_OWNER).phase.Alive? && Deadlocked(Run(TWO_THREADS, FLUSH_OF_OWNER))
  {
    hide Enabled, Next;
    SendsAfterDestroy();
    var s := Shown(Running(1, 1, Blocked(OWNER, Requested)), true);
    OneStep(Shown(Running(1, 1, Flushing(OWNER)), true), FlushSend(0), s, []);
    OneStep(Shown(Running(1, 1, Flushing(OWNER)), false), Destroy, Shown(Running(1, 1, Flushing(OWNER)), true), [FlushSend(0)]);
    InvokesAndFlushes([Destroy] + [FlushSend(0)]);
    assert FLUSH_OF_OWNER[..5] + ([Destroy] + [FlushSend(0)]) == FLUSH_OF_OWNER;
    assert HeldUp(s, {0}, 0);
    assert Deadlock(s, {0});
  }
}
