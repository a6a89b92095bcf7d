/** AsyncInvoker's life cycle as a transition system: closures are counted from their
    construction to their destruction, wander through calls, message queues and thread
    stacks, and the destructor waits for the last of them. Every atomic access is one
    sequentially consistent step. */
module AsyncInvoker {
  type Thread = nat
  type Closure = nat

  /** The thread that runs the destructor. */
  const OWNER: Thread := 0

  /** Where a closure is. On a thread's stack, `depth` counts calls: a functor that the
      thread's message loop runs is at depth 1, what it calls at depth 2, and so on. */
  datatype Where =
    | Invoking(t: Thread, depth: nat, target: Thread, checked: bool)  // in DoInvoke; checked: saw destroying_ false
    | Queued(t: Thread)
    | Taken(t: Thread, depth: nat)                                    // off the queue, in the list of a Flush
    | Running(t: Thread, depth: nat, mode: Mode)
    | Dropping(t: Thread, depth: nat)                                 // about to be destroyed without running
    | Dying(t: Thread, depth: nat)                                    // counter decremented, event not yet set

  /** What a running functor is doing. A flush of its own thread takes messages and runs
      them; a flush of another thread sends that thread a request and blocks. */
  datatype Mode =
    | Plain
    | Flushing(target: Thread)               // in Flush, saw destroying_ false
    | Blocked(target: Thread, stage: Stage)  // in Thread::Send

  /** A flush request: in the target's queue, in Flush on the target (saw destroying_ false),
      running the messages taken there. */
  datatype Stage = Requested | Entered | Draining

  /** The destructor: clearing all queues, looking at the counter, clearing its own thread's
      queue, waiting for the event. */
  datatype Phase = Alive | ClearingAll(left: set<Thread>) | Checking | ClearingOwn | Waiting | Returned

  datatype State = State(
    closures: map<Closure, Where>,
    pending: int,
    event: bool,
    destroying: bool,
    phase: Phase,
    queues: set<Thread>)

  datatype Action =
    | CreateOutside(c: Closure, t: Thread, target: Thread)
    | CreateInside(c: Closure, parent: Closure, target: Thread)
    | Check(c: Closure)
    | Post(c: Closure)
    | PostRefused(c: Closure)
    | Dispatch(c: Closure)
    | Finish(c: Closure)
    | Drop(c: Closure)
    | SetEvent(c: Closure)
    | FlushOutside(t: Thread, which: set<Closure>)
    | FlushCheck(c: Closure, target: Thread)
    | FlushTake(c: Closure, which: set<Closure>)
    | FlushSend(c: Closure)
    | ServeStart(c: Closure)
    | ServeTake(c: Closure, which: set<Closure>)
    | ServeDone(c: Closure)
    | RunTaken(c: Closure)
    | ClearOutside(c: Closure, t: Thread)
    | ClearInside(c: Closure, caller: Closure)
    | Destroy
    | ClearQueued(c: Closure)
    | QueueCleared(t: Thread)
    | AllCleared
    | CheckPending
    | OwnCleared
    | Wake

  predicate At(s: State, c: Closure) {
    c in s.closures
  }

  predicate OnStack(s: State, c: Closure, t: Thread) {
    At(s, c) && !s.closures[c].Queued? && s.closures[c].t == t
  }

  /** The functor `c` is blocked in a flush that thread `t` is carrying out. */
  predicate Serves(s: State, t: Thread, c: Closure) {
    && At(s, c) && s.closures[c].Running? && s.closures[c].mode.Blocked?
    && s.closures[c].mode.target == t && !s.closures[c].mode.stage.Requested?
  }

  predicate NoFrames(s: State, t: Thread) {
    forall c | c in s.closures :: !OnStack(s, c, t)
  }

  predicate Idle(s: State, t: Thread) {
    NoFrames(s, t) && forall c | c in s.closures :: !Serves(s, t, c)
  }

  /** `c` runs its functor's own code, which may call on the invoker. */
  predicate Acts(s: State, c: Closure) {
    OnTop(s, c) && s.closures[c].Running? && s.closures[c].mode.Plain?
  }

  /** The thread's message loop can take the next message: the destructor does not. */
  predicate Loops(s: State, t: Thread) {
    Idle(s, t) && (s.phase.Alive? || t != OWNER)
  }

  /** Nothing runs on top of depth `d` of thread `t`. */
  predicate Top(s: State, t: Thread, d: nat) {
    forall c | c in s.closures :: OnStack(s, c, t) ==> s.closures[c].depth <= d
  }

  predicate OnTop(s: State, c: Closure) {
    At(s, c) && !s.closures[c].Queued? && Top(s, s.closures[c].t, s.closures[c].depth)
  }

  predicate IsQueued(s: State, c: Closure, t: Thread) {
    At(s, c) && s.closures[c] == Queued(t)
  }

  predicate Enabled(s: State, a: Action) {
    match a
    case CreateOutside(c, t, target) => !At(s, c) && target in s.queues && s.phase.Alive? && Idle(s, t)
    case CreateInside(c, parent, target) =>
      !At(s, c) && target in s.queues && Acts(s, parent)
    case Check(c) => OnTop(s, c) && s.closures[c].Invoking? && !s.closures[c].checked
    case Post(c) => OnTop(s, c) && s.closures[c].Invoking? && s.closures[c].checked
    case PostRefused(c) => OnTop(s, c) && s.closures[c].Invoking? && s.closures[c].checked
    case Dispatch(c) => At(s, c) && s.closures[c].Queued? && Loops(s, s.closures[c].t)
    case Finish(c) => Acts(s, c)
    case Drop(c) => OnTop(s, c) && s.closures[c].Dropping?
    case SetEvent(c) => OnTop(s, c) && s.closures[c].Dying?
    case FlushOutside(t, which) => s.phase.Alive? && Idle(s, t) && forall c | c in which :: IsQueued(s, c, t)
    case FlushCheck(c, target) => Acts(s, c)
    case FlushTake(c, which) =>
      && OnTop(s, c) && s.closures[c].Running? && s.closures[c].mode == Flushing(s.closures[c].t)
      && forall c' | c' in which :: IsQueued(s, c', s.closures[c].t)
    case FlushSend(c) =>
      OnTop(s, c) && s.closures[c].Running? && s.closures[c].mode.Flushing? && s.closures[c].mode.target != s.closures[c].t
    case ServeStart(c) =>
      && At(s, c) && s.closures[c].Running? && s.closures[c].mode.Blocked? && s.closures[c].mode.stage.Requested?
      && Loops(s, s.closures[c].mode.target)
    case ServeTake(c, which) =>
      && At(s, c) && s.closures[c].Running? && s.closures[c].mode.Blocked? && s.closures[c].mode.stage.Entered?
      && NoFrames(s, s.closures[c].mode.target)
      && forall c' | c' in which :: IsQueued(s, c', s.closures[c].mode.target)
    case ServeDone(c) =>
      && At(s, c) && s.closures[c].Running? && s.closures[c].mode.Blocked? && s.closures[c].mode.stage.Draining?
      && NoFrames(s, s.closures[c].mode.target)
    case RunTaken(c) =>
      && OnTop(s, c) && s.closures[c].Taken?
      && forall c' | c' in s.closures :: OnStack(s, c', s.closures[c].t) && s.closures[c'].depth == s.closures[c].depth
           ==> s.closures[c'].Taken?
    case ClearOutside(c, t) => At(s, c) && s.closures[c].Queued? && s.phase.Alive? && Idle(s, t)
    case ClearInside(c, caller) =>
      At(s, c) && s.closures[c].Queued? && Acts(s, caller)
    case Destroy =>
      // Not from a functor, and with no call from outside a functor still under way.
      && s.phase.Alive? && Idle(s, OWNER)
      && forall c | c in s.closures :: s.closures[c].Invoking? ==> s.closures[c].depth > 1
    case ClearQueued(c) =>
      && At(s, c) && s.closures[c].Queued? && Idle(s, OWNER)
      && ((s.phase.ClearingAll? && s.closures[c].t in s.phase.left) || (s.phase.ClearingOwn? && s.closures[c].t == OWNER))
    case QueueCleared(t) =>
      s.phase.ClearingAll? && t in s.phase.left && Idle(s, OWNER) && forall c | c in s.closures :: !IsQueued(s, c, t)
    case AllCleared => s.phase == ClearingAll({}) && Idle(s, OWNER)
    case CheckPending => s.phase.Checking?
    case OwnCleared => s.phase.ClearingOwn? && Idle(s, OWNER) && forall c | c in s.closures :: !IsQueued(s, c, OWNER)
    case Wake => s.phase.Waiting? && s.event
  }

  function Move(s: State, c: Closure, w: Where): State {
    s.(closures := s.closures[c := w])
  }

  function Take(s: State, which: set<Closure>, t: Thread, depth: nat): map<Closure, Where> {
    map c | c in s.closures :: if c in which then Taken(t, depth) else s.closures[c]
  }

  function Next(s: State, a: Action): State
    requires Enabled(s, a)
  {
    match a
    case CreateOutside(c, t, target) => Move(s, c, Invoking(t, 1, target, false)).(pending := s.pending + 1)
    case CreateInside(c, parent, target) =>
      var p := s.closures[parent];
      Move(s, c, Invoking(p.t, p.depth + 1, target, false)).(pending := s.pending + 1)
    case Check(c) =>
      var w := s.closures[c];
      Move(s, c, if s.destroying then Dropping(w.t, w.depth) else w.(checked := true))
    case Post(c) => Move(s, c, Queued(s.closures[c].target))
    case PostRefused(c) => Move(s, c, Dropping(s.closures[c].t, s.closures[c].depth))
    case Dispatch(c) => Move(s, c, Running(s.closures[c].t, 1, Plain))
    case Finish(c) => Move(s, c, Dying(s.closures[c].t, s.closures[c].depth)).(pending := s.pending - 1)
    case Drop(c) => Move(s, c, Dying(s.closures[c].t, s.closures[c].depth)).(pending := s.pending - 1)
    case SetEvent(c) => s.(closures := s.closures - {c}, event := true)
    case FlushOutside(t, which) => s.(closures := Take(s, which, t, 1))
    case FlushCheck(c, target) => if s.destroying then s else Move(s, c, s.closures[c].(mode := Flushing(target)))
    case FlushTake(c, which) =>
      var w := s.closures[c];
      Move(s.(closures := Take(s, which, w.t, w.depth + 1)), c, w.(mode := Plain))
    case FlushSend(c) => Move(s, c, s.closures[c].(mode := Blocked(s.closures[c].mode.target, Requested)))
    case ServeStart(c) =>
      var w := s.closures[c];
      Move(s, c, w.(mode := if s.destroying then Plain else Blocked(w.mode.target, Entered)))
    case ServeTake(c, which) =>
      var w := s.closures[c];
      Move(s.(closures := Take(s, which, w.mode.target, 1)), c, w.(mode := Blocked(w.mode.target, Draining)))
    case ServeDone(c) => Move(s, c, s.closures[c].(mode := Plain))
    case RunTaken(c) => Move(s, c, Running(s.closures[c].t, s.closures[c].depth, Plain))
    case ClearOutside(c, t) => Move(s, c, Dropping(t, 1))
    case ClearInside(c, caller) => Move(s, c, Dropping(s.closures[caller].t, s.closures[caller].depth + 1))
    case Destroy => s.(destroying := true, phase := ClearingAll(s.queues))
    case ClearQueued(c) => Move(s, c, Dropping(OWNER, 1))
    case QueueCleared(t) => s.(phase := ClearingAll(s.phase.left - {t}))
    case AllCleared => s.(phase := Checking)
    case CheckPending => s.(phase := if s.pending > 0 then ClearingOwn else Returned)
    case OwnCleared => s.(phase := Waiting)
    case Wake => s.(event := false, phase := Checking)
  }

  predicate Init(s: State) {
    s.closures == map[] && s.pending == 0 && !s.event && !s.destroying && s.phase.Alive?
  }

  // Invariants.

  /** Closures whose destructor has not yet decremented the counter. */
  function Live(s: State): set<Closure> {
    set c | c in s.closures && !s.closures[c].Dying?
  }

  ghost predicate RunsAt(s: State, t: Thread, d: nat) {
    exists p :: OnStack(s, p, t) && s.closures[p].Running? && s.closures[p].depth == d
  }

  /** Whatever is above depth 1 on a stack was called by a functor running below it. */
  ghost predicate HasCaller(s: State, w: Where) {
    w.Queued? || w.depth == 1 || (w.depth > 1 && RunsAt(s, w.t, w.depth - 1))
  }

  ghost predicate AllCalled(s: State) {
    forall c | c in s.closures :: HasCaller(s, s.closures[c])
  }

  predicate OwnerOnlyClears(s: State) {
    !s.phase.Alive? ==>
      forall c | c in s.closures :: OnStack(s, c, OWNER) ==>
        (s.phase.ClearingAll? || s.phase.ClearingOwn?) && (s.closures[c].Dropping? || s.closures[c].Dying?)
  }

  /** The destructing thread carries out no flush. */
  predicate OwnerServesNothing(s: State) {
    !s.phase.Alive? ==> forall c | c in s.closures :: !Serves(s, OWNER, c)
  }

  predicate CallsHaveDepth(s: State) {
    !s.phase.Alive? ==> forall c | c in s.closures :: s.closures[c].Invoking? ==> s.closures[c].depth > 1
  }

  /** A closure is left whose death would set the event. */
  ghost predicate WakerLeft(s: State) {
    && (s.phase.ClearingOwn? && !s.event ==> s.closures != map[])
    && (s.phase.Waiting? && !s.event ==> exists c :: At(s, c) && s.closures[c].t != OWNER)
  }

  ghost predicate Inv(s: State) {
    && s.pending == |Live(s)|
    && (s.destroying <==> !s.phase.Alive?)
    && AllCalled(s)
    && OwnerOnlyClears(s)
    && OwnerServesNothing(s)
    && CallsHaveDepth(s)
    && WakerLeft(s)
    && (s.phase.Returned? ==> Live(s) == {})
  }

  lemma LiveAfterMove(s: State, s': State, c: Closure, w: Where)
    requires s'.closures == s.closures[c := w]
    ensures Live(s') == if w.Dying? then Live(s) - {c} else Live(s) + {c}
  {
  }

  lemma LiveAfterTake(s: State, s': State, which: set<Closure>, t: Thread, d: nat)
    requires forall c | c in which :: At(s, c) && s.closures[c].Queued?
    requires s'.closures == Take(s, which, t, d)
    ensures Live(s') == Live(s)
  {
  }

  /** The steps that take messages off a queue to run them. */
  predicate Takes(a: Action) {
    a.FlushOutside? || a.FlushTake? || a.ServeTake?
  }

  /** The stack and the depth at which a functor's flush runs them. */
  function TakesTo(s: State, a: Action): (Thread, nat)
    requires Enabled(s, a) && (a.FlushTake? || a.ServeTake?)
  {
    var w := s.closures[a.c];
    if a.FlushTake? then (w.t, w.depth + 1) else (w.mode.target, 1)
  }

  lemma FlushKeepsLive(s: State, a: Action)
    requires Enabled(s, a) && Takes(a)
    ensures Live(Next(s, a)) == Live(s)
  {
    var s' := Next(s, a);
    if a.FlushOutside? {
      LiveAfterTake(s, s', a.which, a.t, 1);
    } else {
      var (t, d) := TakesTo(s, a);
      var s1 := s.(closures := Take(s, a.which, t, d));
      LiveAfterTake(s, s1, a.which, t, d);
      LiveAfterMove(s1, s', a.c, s'.closures[a.c]);
      assert a.c in Live(s);
    }
  }

  /** The steps that take one closure, alive, from one place to another. */
  predicate MovesOne(a: Action) {
    || a.Check? || a.Post? || a.PostRefused? || a.Dispatch? || a.FlushCheck? || a.RunTaken?
    || a.FlushSend? || a.ServeStart? || a.ServeDone?
    || a.ClearOutside? || a.ClearInside? || a.ClearQueued?
  }

  lemma MovingKeepsLive(s: State, a: Action)
    requires Enabled(s, a) && MovesOne(a)
    ensures Live(Next(s, a)) == Live(s) && Next(s, a).pending == s.pending
  {
    var s' := Next(s, a);
    if s' != s {
      LiveAfterMove(s, s', a.c, s'.closures[a.c]);
      assert a.c in Live(s);
    }
  }

  lemma CreationCounts(s: State, a: Action)
    requires Enabled(s, a) && (a.CreateOutside? || a.CreateInside?)
    ensures |Live(Next(s, a))| == |Live(s)| + 1 && Next(s, a).pending == s.pending + 1
  {
    LiveAfterMove(s, Next(s, a), a.c, Next(s, a).closures[a.c]);
    assert a.c !in Live(s);
  }

  lemma DestructionCounts(s: State, a: Action)
    requires Enabled(s, a) && (a.Finish? || a.Drop?)
    ensures |Live(Next(s, a))| == |Live(s)| - 1 && Next(s, a).pending == s.pending - 1
  {
    LiveAfterMove(s, Next(s, a), a.c, Next(s, a).closures[a.c]);
    assert a.c in Live(s);
  }

  lemma CounterKept(s: State, a: Action)
    requires Enabled(s, a) && s.pending == |Live(s)|
    ensures Next(s, a).pending == |Live(Next(s, a))|
  {
    if Takes(a) {
      FlushKeepsLive(s, a);
    } else if MovesOne(a) {
      MovingKeepsLive(s, a);
    } else if a.CreateOutside? || a.CreateInside? {
      CreationCounts(s, a);
    } else if a.Finish? || a.Drop? {
      DestructionCounts(s, a);
    } else {
      assert Live(Next(s, a)) == Live(s);
    }
  }

  lemma MoveKeepsCalled(s: State, s': State, c: Closure, w: Where)
    requires AllCalled(s) && s'.closures == s.closures[c := w]
    requires At(s, c) && s.closures[c].Running? ==>
      OnTop(s, c) || (w.Running? && w.t == s.closures[c].t && w.depth == s.closures[c].depth)
    requires HasCaller(s', w)
    ensures AllCalled(s')
  {
    forall c' | c' in s'.closures && c' != c
      ensures HasCaller(s', s.closures[c'])
    {
      var w' := s.closures[c'];
      assert HasCaller(s, w');
      if !w'.Queued? && w'.depth > 1 {
        assert OnStack(s, c', w'.t);
        var p :| OnStack(s, p, w'.t) && s.closures[p].Running? && s.closures[p].depth == w'.depth - 1;
        assert OnStack(s', p, w'.t) && s'.closures[p].Running? && s'.closures[p].depth == w'.depth - 1;
      }
    }
  }

  lemma TakeKeepsCalled(s: State, s': State, which: set<Closure>, t: Thread, d: nat)
    requires AllCalled(s) && s'.closures == Take(s, which, t, d)
    requires forall c | c in which :: At(s, c) && s.closures[c].Queued?
    requires d == 1 || (d > 1 && RunsAt(s, t, d - 1))
    ensures AllCalled(s')
  {
    forall c | c in s'.closures
      ensures HasCaller(s', s'.closures[c])
    {
      var w := s'.closures[c];
      if !w.Queued? && w.depth > 1 {
        assert c !in which ==> HasCaller(s, s.closures[c]);
        assert RunsAt(s, w.t, w.depth - 1);
        var p :| OnStack(s, p, w.t) && s.closures[p].Running? && s.closures[p].depth == w.depth - 1;
        assert OnStack(s', p, w.t) && s'.closures[p].Running? && s'.closures[p].depth == w.depth - 1;
      }
    }
  }

  /** A running functor is what runs at its place. */
  lemma StillRuns(s: State, c: Closure)
    requires At(s, c) && s.closures[c].Running?
    ensures RunsAt(s, s.closures[c].t, s.closures[c].depth)
  {
    assert OnStack(s, c, s.closures[c].t);
  }

  lemma FlushKeepsCalled(s: State, a: Action)
    requires Enabled(s, a) && AllCalled(s) && Takes(a)
    ensures AllCalled(Next(s, a))
  {
    var s' := Next(s, a);
    if a.FlushOutside? {
      TakeKeepsCalled(s, s', a.which, a.t, 1);
    } else {
      var (t, d) := TakesTo(s, a);
      var s1 := s.(closures := Take(s, a.which, t, d));
      StillRuns(s, a.c);
      TakeKeepsCalled(s, s1, a.which, t, d);
      MoveStays(s1, s', a.c, s'.closures[a.c]);
    }
  }

  /** The steps that change one closure's state at its place on a stack. */
  predicate StaysInPlace(a: Action) {
    || a.Check? || a.PostRefused? || a.Finish? || a.Drop? || a.FlushCheck? || a.RunTaken?
    || a.FlushSend? || a.ServeStart? || a.ServeDone?
  }

  lemma InPlaceKeepsCalled(s: State, a: Action)
    requires Enabled(s, a) && AllCalled(s) && StaysInPlace(a)
    ensures AllCalled(Next(s, a))
  {
    var s' := Next(s, a);
    if s' != s {
      MoveStays(s, s', a.c, s'.closures[a.c]);
    }
  }

  /** The steps that put one closure on a queue or on a stack. */
  predicate Places(a: Action) {
    || a.CreateOutside? || a.CreateInside? || a.Post? || a.Dispatch?
    || a.ClearOutside? || a.ClearInside? || a.ClearQueued?
  }

  lemma PlacingKeepsCalled(s: State, a: Action)
    requires Enabled(s, a) && AllCalled(s) && Places(a)
    ensures AllCalled(Next(s, a))
  {
    var s' := Next(s, a);
    if a.CreateInside? {
      StillRuns(s', a.parent);
    } else if a.ClearInside? {
      StillRuns(s', a.caller);
    }
    MoveKeepsCalled(s, s', a.c, s'.closures[a.c]);
  }

  lemma CalledKept(s: State, a: Action)
    requires Enabled(s, a) && AllCalled(s)
    ensures AllCalled(Next(s, a))
  {
    if Takes(a) {
      FlushKeepsCalled(s, a);
    } else if StaysInPlace(a) {
      InPlaceKeepsCalled(s, a);
    } else if Places(a) {
      PlacingKeepsCalled(s, a);
    } else if a.SetEvent? {
      RemoveKeepsCalled(s, Next(s, a), a.c);
    } else {
      SameKeepsCalled(s, Next(s, a));
    }
  }

  lemma SameKeepsCalled(s: State, s': State)
    requires AllCalled(s) && s'.closures == s.closures
    ensures AllCalled(s')
  {
    forall c | c in s'.closures
      ensures HasCaller(s', s'.closures[c])
    {
      var w := s.closures[c];
      if !w.Queued? && w.depth > 1 {
        var p :| OnStack(s, p, w.t) && s.closures[p].Running? && s.closures[p].depth == w.depth - 1;
        assert OnStack(s', p, w.t);
      }
    }
  }

  /** A closure that changes state at its own place on the stack. */
  lemma MoveStays(s: State, s': State, c: Closure, w: Where)
    requires AllCalled(s) && At(s, c) && s'.closures == s.closures[c := w]
    requires !s.closures[c].Queued? && !w.Queued?
    requires w.t == s.closures[c].t && w.depth == s.closures[c].depth
    requires s.closures[c].Running? ==> OnTop(s, c) || w.Running?
    ensures AllCalled(s')
  {
    if w.depth > 1 {
      assert HasCaller(s, s.closures[c]);
      var p :| OnStack(s, p, w.t) && s.closures[p].Running? && s.closures[p].depth == w.depth - 1;
      assert OnStack(s', p, w.t);
    }
    MoveKeepsCalled(s, s', c, w);
  }

  lemma RemoveKeepsCalled(s: State, s': State, c: Closure)
    requires AllCalled(s) && At(s, c) && s.closures[c].Dying? && s'.closures == s.closures - {c}
    ensures AllCalled(s')
  {
    forall c' | c' in s'.closures
      ensures HasCaller(s', s'.closures[c'])
    {
      var w := s.closures[c'];
      assert HasCaller(s, w);
      if !w.Queued? && w.depth > 1 {
        var p :| OnStack(s, p, w.t) && s.closures[p].Running? && s.closures[p].depth == w.depth - 1;
        assert OnStack(s', p, w.t);
      }
    }
  }

  /** Once destruction has begun, functors run on other threads only. */
  lemma ActorElsewhere(s: State, c: Closure)
    requires Inv(s) && !s.phase.Alive? && At(s, c)
    requires s.closures[c].Running? || s.closures[c].Invoking? || s.closures[c].Taken?
    ensures s.closures[c].t != OWNER
  {
    assert s.closures[c].t == OWNER ==> OnStack(s, c, OWNER);
  }

  /** The closure whose thread takes the step, if it is a functor's or a caller's step. */
  function Actor(a: Action): Closure
    requires !a.FlushOutside? && !a.Destroy? && !a.QueueCleared? && !a.AllCleared? && !a.CheckPending? && !a.OwnCleared? && !a.Wake?
  {
    if a.CreateInside? then a.parent else if a.ClearInside? then a.caller else a.c
  }

  lemma OwnerTakesNothing(s: State, a: Action)
    requires Enabled(s, a) && Inv(s) && !s.phase.Alive? && Takes(a)
    ensures !a.FlushOutside? && s.closures[a.c].t != OWNER && TakesTo(s, a).0 != OWNER
  {
    ActorElsewhere(s, a.c);
    if a.ServeTake? {
      assert !Serves(s, OWNER, a.c);
    }
  }

  /** Nothing new reaches the owner's stack during destruction but what it clears itself. */
  lemma OwnerStackOnlyClears(s: State, a: Action, c: Closure)
    requires Enabled(s, a) && Inv(s) && !s.phase.Alive? && OnStack(Next(s, a), c, OWNER)
    ensures || (OnStack(s, c, OWNER) && Next(s, a).closures[c] in {s.closures[c], Dying(OWNER, s.closures[c].depth)})
            || (a.ClearQueued? && a.c == c)
  {
    if Takes(a) {
      OwnerTakesNothing(s, a);
    } else if a.CreateInside? || a.ClearInside? || (StaysInPlace(a) && !a.Drop?) {
      ActorElsewhere(s, Actor(a));
    }
  }

  lemma OwnerKept(s: State, a: Action)
    requires Enabled(s, a) && Inv(s)
    ensures OwnerOnlyClears(Next(s, a))
  {
    var s' := Next(s, a);
    forall c | c in s'.closures && OnStack(s', c, OWNER) && !s'.phase.Alive?
      ensures (s'.phase.ClearingAll? || s'.phase.ClearingOwn?) && (s'.closures[c].Dropping? || s'.closures[c].Dying?)
    {
      if s.phase.Alive? {
        assert a.Destroy? && OnStack(s, c, OWNER);
      } else {
        OwnerStackOnlyClears(s, a, c);
      }
    }
  }

  lemma OwnerServesKept(s: State, a: Action)
    requires Enabled(s, a) && Inv(s)
    ensures OwnerServesNothing(Next(s, a))
  {
    var s' := Next(s, a);
    forall c | c in s'.closures && !s'.phase.Alive?
      ensures !Serves(s', OWNER, c)
    {
      if At(s, c) {
        assert !Serves(s, OWNER, c);
      }
    }
  }

  lemma CallDepthKept(s: State, a: Action)
    requires Enabled(s, a) && Inv(s)
    ensures CallsHaveDepth(Next(s, a))
  {
    if a.CreateInside? {
      assert HasCaller(s, s.closures[a.parent]);
    }
  }

  lemma StillThere(s: State, a: Action, c: Closure)
    requires Enabled(s, a) && At(s, c) && !a.SetEvent?
    ensures At(Next(s, a), c)
  {
  }

  lemma WakerKept(s: State, a: Action)
    requires Enabled(s, a) && Inv(s)
    ensures WakerLeft(Next(s, a))
  {
    var s' := Next(s, a);
    if s'.phase.ClearingOwn? && !s'.event {
      assert s.closures != map[] by {
        assert a.CheckPending? ==> Live(s) != {};
      }
      var c := SomeClosure(s);
      StillThere(s, a, c);
    }
    if s'.phase.Waiting? && !s'.event {
      if a.OwnCleared? {
        var c := SomeClosure(s);
        assert !OnStack(s, c, OWNER) && !IsQueued(s, c, OWNER);
        assert At(s', c) && s'.closures[c].t != OWNER;
      } else {
        var c := WakerSurvives(s, a);
      }
    }
  }

  lemma SomeClosure(s: State) returns (c: Closure)
    requires s.closures != map[]
    ensures At(s, c)
  {
    assert s.closures.Keys != {};
    c :| c in s.closures.Keys;
  }

  /** While the destructor waits and the event stays unset, a closure on another thread is
      still there after every step: one that is posted to the destructor's own queue leaves
      its caller behind. */
  lemma WakerSurvives(s: State, a: Action) returns (c: Closure)
    requires Enabled(s, a) && Inv(s) && s.phase.Waiting? && !s.event && !Next(s, a).event
    ensures At(Next(s, a), c) && Next(s, a).closures[c].t != OWNER
  {
    c :| At(s, c) && s.closures[c].t != OWNER;
    match a {
      case Post(c') =>
        if c' == c {
          assert HasCaller(s, s.closures[c]);
          var p :| OnStack(s, p, s.closures[c].t) && s.closures[p].Running?;
          c := p;
        }
      case ClearInside(_, caller) => ActorElsewhere(s, caller);
      case _ =>
    }
  }

  lemma StepKeepsInv(s: State, a: Action)
    requires Enabled(s, a) && Inv(s)
    ensures Inv(Next(s, a))
  {
    CounterKept(s, a);
    CalledKept(s, a);
    OwnerKept(s, a);
    OwnerServesKept(s, a);
    CallDepthKept(s, a);
    WakerKept(s, a);
    if s.phase.Returned? {
      OnlySetAfterReturn(s, a);
    }
  }

  /** Once the destructor has returned, all that is left is for closures to set the shared
      event: no functor runs and nothing reads or writes the invoker. */
  lemma OnlySetAfterReturn(s: State, a: Action)
    requires Enabled(s, a) && Inv(s) && s.phase.Returned?
    ensures a.SetEvent? && Live(Next(s, a)) == {}
  {
    forall c | c in s.closures
      ensures s.closures[c].Dying?
    {
      assert c !in Live(s);
    }
  }

  // Whole runs.

  predicate CanRun(s: State, es: seq<Action>)
    decreases es
  {
    es != [] ==> Enabled(s, es[0]) && CanRun(Next(s, es[0]), es[1..])
  }

  function Run(s: State, es: seq<Action>): State
    requires CanRun(s, es)
    decreases es
  {
    if es == [] then s else Run(Next(s, es[0]), es[1..])
  }

  lemma {:induction false} RunKeepsInv(s: State, es: seq<Action>)
    requires Inv(s) && CanRun(s, es)
    ensures Inv(Run(s, es))
    decreases es
  {
    if es != [] {
      StepKeepsInv(s, es[0]);
      RunKeepsInv(Next(s, es[0]), es[1..]);
    }
  }

  lemma ReachableInv(s: State, es: seq<Action>)
    requires Init(s) && CanRun(s, es)
    ensures Inv(Run(s, es))
  {
    assert Live(s) == {};
    RunKeepsInv(s, es);
  }

  /** In every reachable state the counter is the number of closures alive. */
  lemma CounterIsLiveClosures(s: State, es: seq<Action>)
    requires Init(s) && CanRun(s, es)
    ensures Run(s, es).pending == |Live(Run(s, es))|
  {
    ReachableInv(s, es);
  }

  /** The destructor never waits for an event that all closures have already set: some
      closure is still there on another thread. Whether it can get on is another question,
      see AsyncInvokerProgress.DestructorCanReturnIff. */
  lemma WaitingHasWaker(s: State, es: seq<Action>)
    requires Init(s) && CanRun(s, es)
    ensures var r := Run(s, es);
            r.phase.Waiting? && !r.event ==> exists c :: At(r, c) && r.closures[c].t != OWNER
  {
    ReachableInv(s, es);
  }

  /** Once the destructor has returned every closure is dead, and whatever step follows
      only sets the shared event. */
  lemma NothingTouchesReturnedInvoker(s: State, es: seq<Action>)
    requires Init(s) && CanRun(s, es) && Run(s, es).phase.Returned?
    ensures Live(Run(s, es)) == {} && Run(s, es).pending == 0
    ensures forall a :: Enabled(Run(s, es), a) ==> a.SetEvent?
  {
    ReachableInv(s, es);
    var r := Run(s, es);
    forall a | Enabled(r, a)
      ensures a.SetEvent?
    {
      OnlySetAfterReturn(r, a);
    }
  }

  /** Closures that may still come to run. */
  function Armed(s: State): set<Closure> {
    set c | c in s.closures &&
      (s.closures[c].Queued? || s.closures[c].Taken? || s.closures[c].Running?
       || (s.closures[c].Invoking? && s.closures[c].checked))
  }

  lemma StepArmsNothing(s: State, a: Action)
    requires Enabled(s, a) && s.destroying && !s.phase.Alive?
    ensures Armed(Next(s, a)) <= Armed(s)
    ensures Next(s, a).destroying && !Next(s, a).phase.Alive?
  {
  }

  /** The flag stops chains of invocations: from the start of destruction on, no closure
      becomes runnable that was not already. */
  lemma {:induction false} DestroyingArmsNothing(s: State, es: seq<Action>)
    requires s.destroying && !s.phase.Alive? && CanRun(s, es)
    ensures Armed(Run(s, es)) <= Armed(s)
    decreases es
  {
    if es != [] {
      StepArmsNothing(s, es[0]);
      DestroyingArmsNothing(Next(s, es[0]), es[1..]);
    }
  }
}
