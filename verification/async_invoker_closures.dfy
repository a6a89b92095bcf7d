/** What becomes of a closure over whole runs: it goes to the thread it was invoked for and to
    no other, runs there once unless somebody clears it, and is off its queue before a
    destructor waits for it. */
module AsyncInvokerClosures {
  import opened AsyncInvoker

  predicate Creates(a: Action, c: Closure) {
    (a.CreateOutside? || a.CreateInside?) && a.c == c
  }

  predicate NeverCreated(es: seq<Action>, c: Closure) {
    forall i :: 0 <= i < |es| ==> !Creates(es[i], c)
  }

  // The target thread.

  /** The closure is waiting to run, or runs. */
  predicate InService(s: State, c: Closure) {
    At(s, c) && (s.closures[c].Queued? || s.closures[c].Taken? || s.closures[c].Running?)
  }

  /** On its way to `target`, or there. */
  predicate BoundFor(s: State, c: Closure, target: Thread) {
    && (At(s, c) && s.closures[c].Invoking? ==> s.closures[c].target == target)
    && (InService(s, c) ==> s.closures[c].t == target)
  }

  lemma StepKeepsBound(s: State, a: Action, c: Closure, target: Thread)
    requires Enabled(s, a) && BoundFor(s, c, target) && !Creates(a, c)
    ensures BoundFor(Next(s, a), c, target)
  {
  }

  lemma {:induction false} RunKeepsBound(s: State, es: seq<Action>, c: Closure, target: Thread)
    requires CanRun(s, es) && BoundFor(s, c, target) && NeverCreated(es, c)
    ensures BoundFor(Run(s, es), c, target)
    decreases es
  {
    hide Enabled, Next, BoundFor;
    if es != [] {
      StepKeepsBound(s, es[0], c, target);
      RunKeepsBound(Next(s, es[0]), es[1..], c, target);
    }
  }

  /** A closure invoked for a thread is queued, taken and run on that thread and no other, by
      whichever thread it was invoked and whoever flushes. */
  lemma RunsOnTargetOnly(s: State, create: Action, es: seq<Action>, c: Closure)
    requires Enabled(s, create) && Creates(create, c) && CanRun(Next(s, create), es) && NeverCreated(es, c)
    ensures var r := Run(Next(s, create), es); InService(r, c) ==> r.closures[c].t == create.target
  {
    assert BoundFor(Next(s, create), c, create.target);
    RunKeepsBound(Next(s, create), es, c, create.target);
  }

  // The queues at the start of destruction.

  /** Closures are bound for threads that have queues. */
  predicate TargetsKnown(s: State) {
    forall c | c in s.closures ::
      && (s.closures[c].Queued? ==> s.closures[c].t in s.queues)
      && (s.closures[c].Invoking? ==> s.closures[c].target in s.queues)
  }

  lemma StepKeepsTargetsKnown(s: State, a: Action)
    requires Enabled(s, a) && TargetsKnown(s)
    ensures TargetsKnown(Next(s, a)) && Next(s, a).queues == s.queues
  {
  }

  lemma {:induction false} RunKeepsTargetsKnown(s: State, es: seq<Action>)
    requires CanRun(s, es) && TargetsKnown(s)
    ensures TargetsKnown(Run(s, es))
    decreases es
  {
    hide Enabled, Next, TargetsKnown;
    if es != [] {
      StepKeepsTargetsKnown(s, es[0]);
      RunKeepsTargetsKnown(Next(s, es[0]), es[1..]);
    }
  }

  /** If the closure is still queued, the destructor has yet to clear its queue. */
  predicate ToBeCleared(s: State, c: Closure) {
    && !s.phase.Alive?
    && (At(s, c) ==> !s.closures[c].Invoking?)
    && (At(s, c) && s.closures[c].Queued? ==> s.phase.ClearingAll? && s.closures[c].t in s.phase.left)
  }

  lemma StepKeepsToBeCleared(s: State, a: Action, c: Closure)
    requires Enabled(s, a) && ToBeCleared(s, c) && !Creates(a, c)
    ensures ToBeCleared(Next(s, a), c)
  {
    if a.QueueCleared? && At(s, c) && s.closures[c].Queued? {
      assert !IsQueued(s, c, a.t);
    }
  }

  lemma {:induction false} RunKeepsToBeCleared(s: State, es: seq<Action>, c: Closure)
    requires CanRun(s, es) && ToBeCleared(s, c) && NeverCreated(es, c)
    ensures ToBeCleared(Run(s, es), c)
    decreases es
  {
    hide Enabled, Next, ToBeCleared;
    if es != [] {
      StepKeepsToBeCleared(s, es[0], c);
      RunKeepsToBeCleared(Next(s, es[0]), es[1..], c);
    }
  }

  /** A message that is queued when destruction begins is off its queue, run or destroyed,
      before the destructor first looks at the counter. */
  lemma QueuesClearedFirst(s: State, before: seq<Action>, after: seq<Action>, c: Closure)
    requires Init(s) && CanRun(s, before) && Enabled(Run(s, before), Destroy)
    requires At(Run(s, before), c) && Run(s, before).closures[c].Queued?
    requires CanRun(Next(Run(s, before), Destroy), after) && NeverCreated(after, c)
    ensures var r := Run(Next(Run(s, before), Destroy), after);
            r.phase.ClearingAll? || !(At(r, c) && r.closures[c].Queued?)
  {
    RunKeepsTargetsKnown(s, before);
    var d := Next(Run(s, before), Destroy);
    assert ToBeCleared(d, c);
    RunKeepsToBeCleared(d, after, c);
  }

  // Running.

  /** No message is cleared or refused, and nobody destroys the invoker. */
  predicate Undisturbed(es: seq<Action>) {
    forall i :: 0 <= i < |es| ==>
      !es[i].ClearOutside? && !es[i].ClearInside? && !es[i].PostRefused? && !es[i].Destroy?
  }

  predicate NothingDropped(s: State) {
    s.phase.Alive? && !s.destroying && forall c | c in s.closures :: !s.closures[c].Dropping?
  }

  lemma StepDropsNothing(s: State, a: Action)
    requires Enabled(s, a) && NothingDropped(s) && Undisturbed([a])
    ensures NothingDropped(Next(s, a))
  {
    assert [a][0] == a;
  }

  predicate Pending(s: State, c: Closure) {
    At(s, c) && !s.closures[c].Dying?
  }

  lemma PendingUntilRun(s: State, a: Action, c: Closure)
    requires Enabled(s, a) && NothingDropped(s) && Pending(s, c) && a != Finish(c)
    ensures Pending(Next(s, a), c)
  {
  }

  /** Undisturbed, a closure that is gone has run to its end. */
  lemma {:induction false} GoneMeansRun(s: State, es: seq<Action>, c: Closure)
    requires NothingDropped(s) && CanRun(s, es) && Undisturbed(es) && Pending(s, c) && !Pending(Run(s, es), c)
    ensures Finish(c) in es
    decreases es
  {
    hide Enabled, Next, NothingDropped, Pending;
    if es[0] != Finish(c) {
      assert Undisturbed([es[0]]) && Undisturbed(es[1..]);
      StepDropsNothing(s, es[0]);
      PendingUntilRun(s, es[0], c);
      GoneMeansRun(Next(s, es[0]), es[1..], c);
    }
  }

  /** Started, or gone. */
  predicate HasStarted(s: State, c: Closure) {
    At(s, c) ==> s.closures[c].Running? || s.closures[c].Dying?
  }

  lemma StepKeepsStarted(s: State, a: Action, c: Closure)
    requires Enabled(s, a) && HasStarted(s, c) && !Creates(a, c)
    ensures HasStarted(Next(s, a), c) && a != Dispatch(c) && a != RunTaken(c)
  {
  }

  /** No closure is started twice. */
  lemma {:induction false} StartsOnce(s: State, es: seq<Action>, c: Closure)
    requires HasStarted(s, c) && CanRun(s, es) && NeverCreated(es, c)
    ensures Dispatch(c) !in es && RunTaken(c) !in es
    decreases es
  {
    hide Enabled, Next, HasStarted;
    if es != [] {
      StepKeepsStarted(s, es[0], c);
      StartsOnce(Next(s, es[0]), es[1..], c);
      assert es == [es[0]] + es[1..];
    }
  }

  lemma StartedByDispatch(s: State, c: Closure)
    ensures Enabled(s, Dispatch(c)) ==> HasStarted(Next(s, Dispatch(c)), c) && At(Next(s, Dispatch(c)), c)
    ensures Enabled(s, RunTaken(c)) ==> HasStarted(Next(s, RunTaken(c)), c) && At(Next(s, RunTaken(c)), c)
  {
  }

  /** A flush, of the own thread or of another, takes its messages off the queue to the stack of
      their thread. */
  lemma FlushedIsTaken(s: State, a: Action, c: Closure)
    requires Enabled(s, a) && Takes(a) && c in a.which
    ensures IsQueued(s, c, s.closures[c].t)
    ensures At(Next(s, a), c) && Next(s, a).closures[c].Taken? && Next(s, a).closures[c].t == s.closures[c].t
  {
  }

  // Not running.

  /** To be destroyed without running, or gone. */
  predicate GivenUp(s: State, c: Closure) {
    At(s, c) ==> s.closures[c].Dropping? || s.closures[c].Dying?
  }

  lemma ClearedIsGivenUp(s: State, a: Action)
    requires Enabled(s, a) && (a.ClearOutside? || a.ClearInside? || a.ClearQueued? || a.PostRefused?)
    ensures At(Next(s, a), a.c) && Next(s, a).closures[a.c].Dropping?
  {
  }

  lemma StepKeepsGivenUp(s: State, a: Action, c: Closure)
    requires Enabled(s, a) && GivenUp(s, c) && !Creates(a, c)
    ensures GivenUp(Next(s, a), c) && a != Dispatch(c) && a != RunTaken(c) && a != Finish(c)
  {
  }

  lemma {:induction false} GivenUpNeverRuns(s: State, es: seq<Action>, c: Closure)
    requires GivenUp(s, c) && CanRun(s, es) && NeverCreated(es, c)
    ensures Dispatch(c) !in es && RunTaken(c) !in es && Finish(c) !in es
    decreases es
  {
    hide Enabled, Next, GivenUp;
    if es != [] {
      StepKeepsGivenUp(s, es[0], c);
      GivenUpNeverRuns(Next(s, es[0]), es[1..], c);
      assert es == [es[0]] + es[1..];
    }
  }

  /** What has been cleared, by Clear or by the destructor, or refused, never runs. */
  lemma ClearedNeverRuns(s: State, a: Action, es: seq<Action>)
    requires Enabled(s, a) && (a.ClearOutside? || a.ClearInside? || a.ClearQueued? || a.PostRefused?)
    requires CanRun(Next(s, a), es) && NeverCreated(es, a.c)
    ensures Dispatch(a.c) !in es && RunTaken(a.c) !in es && Finish(a.c) !in es
  {
    ClearedIsGivenUp(s, a);
    GivenUpNeverRuns(Next(s, a), es, a.c);
  }
}
