/** What is left of a destruction, as a measure that every step lowers other than a functor's
    new calls on the invoker. */
module AsyncInvokerMeasure {
  import opened AsyncInvoker

  function Invokings(s: State): set<Closure> {
    set c | c in s.closures && s.closures[c].Invoking?
  }

  function Queueds(s: State): set<Closure> {
    set c | c in s.closures && s.closures[c].Queued?
  }

  function Takens(s: State): set<Closure> {
    set c | c in s.closures && s.closures[c].Taken?
  }

  /** Functors inside a flush. */
  function Flushes(s: State): set<Closure> {
    set c | c in s.closures && s.closures[c].Running? && !s.closures[c].mode.Plain?
  }

  /** Those that have only seen the flag yet. */
  function Unsents(s: State): set<Closure> {
    set c | c in s.closures && s.closures[c].Running? && s.closures[c].mode.Flushing?
  }

  /** Those whose flush has begun on the other thread and has not yet taken its messages. */
  function Entereds(s: State): set<Closure> {
    set c | c in s.closures && s.closures[c].Running? && s.closures[c].mode.Blocked? && s.closures[c].mode.stage.Entered?
  }

  /** The destructor's loop consumes an event in each turn. */
  function PhaseRank(s: State): nat {
    (if s.event then 3 else 0) +
    match s.phase
    case Alive => 0
    case ClearingAll(left) => 4 + |left|
    case Checking => 3
    case ClearingOwn => 2
    case Waiting => 1
    case Returned => 0
  }

  /** What every step lowers, compared from left to right. */
  datatype Measure = Measure(
    closures: nat, live: nat, invoking: nat, queued: nat, taken: nat, flushes: nat, unsent: nat, entered: nat, phase: nat)
  {
    predicate Below(m: Measure) {
      || closures < m.closures
      || (closures == m.closures && (
          || live < m.live
          || (live == m.live && (
              || invoking < m.invoking
              || (invoking == m.invoking && (
                  || queued < m.queued
                  || (queued == m.queued && (
                      || taken < m.taken
                      || (taken == m.taken && (
                          || flushes < m.flushes
                          || (flushes == m.flushes && (
                              || unsent < m.unsent
                              || (unsent == m.unsent && (
                                  || entered < m.entered
                                  || (entered == m.entered && phase < m.phase)))))))))))))))
    }
  }

  function Rank(s: State): Measure {
    Measure(|s.closures|, |Live(s)|, |Invokings(s)|, |Queueds(s)|, |Takens(s)|,
            |Flushes(s)|, |Unsents(s)|, |Entereds(s)|, PhaseRank(s))
  }

  /** The steps of a destruction that are not a functor calling on the invoker anew. A Flush
      called during destruction does nothing. */
  predicate Quiet(a: Action) {
    !a.CreateInside? && !a.FlushCheck?
  }

  lemma Smaller(a: set<Closure>, b: set<Closure>, c: Closure)
    requires c in b && a == b - {c}
    ensures |a| < |b|
  {
  }

  lemma ProperSubsetSmaller(a: set<Closure>, b: set<Closure>)
    requires a < b
    ensures |a| < |b|
  {
    var x :| x in b && x !in a;
    assert a <= b - {x};
    SubsetNotLarger(a, b - {x});
  }

  lemma SubsetNotLarger(a: set<Closure>, b: set<Closure>)
    requires a <= b
    ensures |a| <= |b|
    decreases a
  {
    if a != {} {
      var x :| x in a;
      SubsetNotLarger(a - {x}, b - {x});
    }
  }

  /** What a step that moves only `c` does to the sets. */
  lemma MoveKeepsKeys(s: State, s': State, c: Closure, w: Where)
    requires At(s, c) && s'.closures == s.closures[c := w]
    ensures |s'.closures| == |s.closures|
    ensures Invokings(s') == if w.Invoking? then Invokings(s) + {c} else Invokings(s) - {c}
    ensures Queueds(s') == if w.Queued? then Queueds(s) + {c} else Queueds(s) - {c}
    ensures Takens(s') == if w.Taken? then Takens(s) + {c} else Takens(s) - {c}
  {
    assert s'.closures.Keys == s.closures.Keys;
  }

  lemma FlushesAfterMove(s: State, s': State, c: Closure, w: Where)
    requires At(s, c) && s.closures[c].Running? && w.Running? && s'.closures == s.closures[c := w]
    ensures c in Flushes(s) <==> !s.closures[c].mode.Plain?
    ensures c in Unsents(s) <==> s.closures[c].mode.Flushing?
    ensures c in Entereds(s) <==> s.closures[c].mode.Blocked? && s.closures[c].mode.stage.Entered?
    ensures Flushes(s') == if w.mode.Plain? then Flushes(s) - {c} else Flushes(s) + {c}
    ensures Unsents(s') == if w.mode.Flushing? then Unsents(s) + {c} else Unsents(s) - {c}
    ensures Entereds(s') == if w.mode.Blocked? && w.mode.stage.Entered? then Entereds(s) + {c} else Entereds(s) - {c}
  {
  }

  lemma InvokingLowers(s: State, a: Action)
    requires Enabled(s, a) && s.destroying && (a.Check? || a.Post? || a.PostRefused?)
    ensures Rank(Next(s, a)).Below(Rank(s))
  {
    var s' := Next(s, a);
    MoveKeepsKeys(s, s', a.c, s'.closures[a.c]);
    MovingKeepsLive(s, a);
    Smaller(Invokings(s'), Invokings(s), a.c);
  }

  lemma UnqueueLowers(s: State, a: Action)
    requires Enabled(s, a) && (a.Dispatch? || a.ClearQueued? || a.ClearInside?)
    ensures Rank(Next(s, a)).Below(Rank(s))
  {
    var s' := Next(s, a);
    MoveKeepsKeys(s, s', a.c, s'.closures[a.c]);
    MovingKeepsLive(s, a);
    assert Invokings(s') == Invokings(s);
    Smaller(Queueds(s'), Queueds(s), a.c);
  }

  lemma TakenLowers(s: State, r: Closure)
    requires Enabled(s, RunTaken(r))
    ensures Rank(Next(s, RunTaken(r))).Below(Rank(s))
  {
    var s' := Next(s, RunTaken(r));
    MoveKeepsKeys(s, s', r, s'.closures[r]);
    MovingKeepsLive(s, RunTaken(r));
    assert Invokings(s') == Invokings(s) && Queueds(s') == Queueds(s);
    Smaller(Takens(s'), Takens(s), r);
  }

  /** A functor gets on with its flush: it returns, sends its request, or has its messages
      taken. */
  predicate GetsOn(m: Mode, m': Mode) {
    || (!m.Plain? && m'.Plain?)
    || (m.Flushing? && m'.Blocked? && m'.stage.Requested?)
    || (m.Blocked? && m.stage.Entered? && m'.Blocked? && m'.stage.Draining?)
  }

  lemma FlushStepLowers(s: State, s': State, c: Closure, w: Where)
    requires At(s, c) && s.closures[c].Running? && w.Running? && s'.closures == s.closures[c := w]
    requires GetsOn(s.closures[c].mode, w.mode)
    ensures Rank(s').Below(Rank(s))
  {
    hide Live, Invokings, Queueds, Takens, Flushes, Unsents, Entereds;
    RunningOn(s, s', c, w);
    FlushesAfterMove(s, s', c, w);
    if w.mode.Plain? {
      Smaller(Flushes(s'), Flushes(s), c);
    } else {
      assert Flushes(s') == Flushes(s);
      if s.closures[c].mode.Flushing? {
        Smaller(Unsents(s'), Unsents(s), c);
      } else {
        assert Unsents(s') == Unsents(s);
        Smaller(Entereds(s'), Entereds(s), c);
      }
    }
  }

  /** A functor that runs on at its place changes no other set. */
  lemma RunningOn(s: State, s': State, c: Closure, w: Where)
    requires At(s, c) && s.closures[c].Running? && w.Running? && s'.closures == s.closures[c := w]
    ensures |s'.closures| == |s.closures| && Live(s') == Live(s) && Invokings(s') == Invokings(s)
    ensures Queueds(s') == Queueds(s) && Takens(s') == Takens(s)
  {
    MoveKeepsKeys(s, s', c, w);
    LiveAfterMove(s, s', c, w);
    assert c in Live(s);
  }

  lemma CallLowers(s: State, a: Action)
    requires Enabled(s, a) && s.destroying && (a.FlushSend? || a.ServeStart? || a.ServeDone?)
    ensures Rank(Next(s, a)).Below(Rank(s))
  {
    hide Rank;
    FlushStepLowers(s, Next(s, a), a.c, Next(s, a).closures[a.c]);
  }

  lemma EmptyFlushLowers(s: State, a: Action)
    requires Enabled(s, a) && (a.FlushTake? || a.ServeTake?) && a.which == {}
    ensures Rank(Next(s, a)).Below(Rank(s))
  {
    hide Rank;
    var (t, d) := TakesTo(s, a);
    assert Take(s, {}, t, d) == s.closures;
    FlushStepLowers(s, Next(s, a), a.c, Next(s, a).closures[a.c]);
  }

  lemma FlushLowers(s: State, a: Action)
    requires Enabled(s, a) && (a.FlushTake? || a.ServeTake?) && a.which != {}
    ensures Rank(Next(s, a)).Below(Rank(s))
  {
    var s' := Next(s, a);
    FlushKeepsLive(s, a);
    assert s'.closures.Keys == s.closures.Keys;
    assert Invokings(s') == Invokings(s);
    assert Queueds(s') < Queueds(s) by {
      var c :| c in a.which;
      assert c in Queueds(s) && c !in Queueds(s');
    }
    ProperSubsetSmaller(Queueds(s'), Queueds(s));
  }

  lemma DestructionLowers(s: State, a: Action)
    requires Enabled(s, a) && (a.Finish? || a.Drop?)
    ensures Rank(Next(s, a)).Below(Rank(s))
  {
    MoveKeepsKeys(s, Next(s, a), a.c, Next(s, a).closures[a.c]);
    DestructionCounts(s, a);
  }

  lemma SetEventLowers(s: State, r: Closure)
    requires Enabled(s, SetEvent(r))
    ensures Rank(Next(s, SetEvent(r))).Below(Rank(s))
  {
    var s' := Next(s, SetEvent(r));
    assert s'.closures.Keys == s.closures.Keys - {r};
    Smaller(s'.closures.Keys, s.closures.Keys, r);
  }

  predicate IsDestructors(a: Action) {
    a.QueueCleared? || a.AllCleared? || a.CheckPending? || a.OwnCleared? || a.Wake?
  }

  lemma SameSets(s: State, s': State)
    requires s'.closures == s.closures
    ensures Live(s') == Live(s) && Invokings(s') == Invokings(s) && Queueds(s') == Queueds(s) && Takens(s') == Takens(s)
    ensures Flushes(s') == Flushes(s) && Unsents(s') == Unsents(s) && Entereds(s') == Entereds(s)
  {
  }

  lemma PhaseRankLowers(s: State, a: Action)
    requires Enabled(s, a) && IsDestructors(a)
    ensures PhaseRank(Next(s, a)) < PhaseRank(s)
  {
    if a.QueueCleared? {
      Smaller(Next(s, a).phase.left, s.phase.left, a.t);
    }
  }

  lemma PhaseStepLowers(s: State, a: Action)
    requires Enabled(s, a) && IsDestructors(a)
    ensures Rank(Next(s, a)).Below(Rank(s))
  {
    hide Live, Invokings, Queueds, Takens, Flushes, Unsents, Entereds, PhaseRank;
    SameSets(s, Next(s, a));
    PhaseRankLowers(s, a);
  }

  /** Every quiet step of a destruction brings its end closer. */
  lemma StepLowers(s: State, a: Action)
    requires Enabled(s, a) && s.destroying && !s.phase.Alive? && Quiet(a)
    ensures Rank(Next(s, a)).Below(Rank(s))
  {
    hide Next, Rank;
    if a.Check? || a.Post? || a.PostRefused? {
      InvokingLowers(s, a);
    } else if a.Dispatch? || a.ClearQueued? || a.ClearInside? {
      UnqueueLowers(s, a);
    } else if a.RunTaken? {
      TakenLowers(s, a.c);
    } else if a.FlushSend? || a.ServeStart? || a.ServeDone? {
      CallLowers(s, a);
    } else if a.FlushTake? || a.ServeTake? {
      if a.which == {} {
        EmptyFlushLowers(s, a);
      } else {
        FlushLowers(s, a);
      }
    } else if a.Finish? || a.Drop? {
      DestructionLowers(s, a);
    } else if a.SetEvent? {
      SetEventLowers(s, a.c);
    } else {
      PhaseStepLowers(s, a);
    }
  }
}
