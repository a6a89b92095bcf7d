/** The threads' stacks: at each depth one frame is active, and a functor that waits for
    another thread is on top of its stack. */
module AsyncInvokerStacks {
  import opened AsyncInvoker

  /** A functor that is to wait, or waits, for another thread to carry out a flush. */
  predicate Waits(w: Where) {
    w.Running? && (w.mode.Blocked? || (w.mode.Flushing? && w.mode.target != w.t))
  }

  predicate SameFrame(v: Where, w: Where) {
    !v.Queued? && !w.Queued? && v.t == w.t && v.depth == w.depth
  }

  /** Of the closures at one depth of a stack, all but one are still to be run. */
  predicate OneActive(s: State) {
    forall c, c' | c in s.closures && c' in s.closures && c != c' ::
      SameFrame(s.closures[c], s.closures[c']) ==> s.closures[c].Taken? || s.closures[c'].Taken?
  }

  predicate WaitersOnTop(s: State) {
    forall c | c in s.closures :: Waits(s.closures[c]) ==> OnTop(s, c)
  }

  predicate Stacks(s: State) {
    OneActive(s) && WaitersOnTop(s)
  }

  /** A functor on top of its stack that does not wait has no waiting one beside it. */
  lemma NoWaiterBeside(s: State, c: Closure, c': Closure)
    requires Stacks(s) && OnTop(s, c) && s.closures[c].Running? && !Waits(s.closures[c])
    requires OnStack(s, c', s.closures[c].t)
    ensures !Waits(s.closures[c'])
  {
    if Waits(s.closures[c']) {
      assert OnTop(s, c') && OnStack(s, c, s.closures[c].t);
      assert SameFrame(s.closures[c], s.closures[c']);
      assert false;
    }
  }

  lemma MoveKeepsStacks(s: State, s': State, c: Closure, w: Where)
    requires Stacks(s) && s'.closures == s.closures[c := w]
    requires !w.Queued? && !w.Taken? ==>
      forall c' | c' in s.closures && c' != c :: SameFrame(w, s.closures[c']) ==> s.closures[c'].Taken?
    requires !w.Queued? ==>
      forall c' | c' in s.closures && c' != c && Waits(s.closures[c']) && OnStack(s, c', w.t) :: w.depth <= s.closures[c'].depth
    requires Waits(w) ==>
      forall c' | c' in s.closures && c' != c && OnStack(s, c', w.t) :: s.closures[c'].depth <= w.depth
    ensures Stacks(s')
  {
    forall c1 | c1 in s'.closures && Waits(s'.closures[c1])
      ensures OnTop(s', c1)
    {
      var t := s'.closures[c1].t;
      forall c2 | c2 in s'.closures && OnStack(s', c2, t)
        ensures s'.closures[c2].depth <= s'.closures[c1].depth
      {
        if c1 != c {
          assert OnTop(s, c1) && OnStack(s, c1, t);
          if c2 != c {
            assert OnStack(s, c2, t);
          }
        } else if c2 != c {
          assert OnStack(s, c2, t);
        }
      }
    }
  }

  lemma TakeKeepsStacks(s: State, s': State, which: set<Closure>, t: Thread, d: nat)
    requires Stacks(s) && s'.closures == Take(s, which, t, d)
    requires forall c | c in which :: At(s, c) && s.closures[c].Queued?
    requires forall c | c in s.closures && OnStack(s, c, t) :: !Waits(s.closures[c])
    ensures Stacks(s')
  {
    forall c1 | c1 in s'.closures && Waits(s'.closures[c1])
      ensures OnTop(s', c1)
    {
      var u := s'.closures[c1].t;
      assert OnTop(s, c1) && OnStack(s, c1, u);
      forall c2 | c2 in s'.closures && OnStack(s', c2, u)
        ensures s'.closures[c2].depth <= s'.closures[c1].depth
      {
        if c2 !in which {
          assert OnStack(s, c2, u);
        }
      }
    }
  }

  lemma SameKeepsStacks(s: State, s': State)
    requires Stacks(s) && s'.closures == s.closures
    ensures Stacks(s')
  {
    forall c | c in s'.closures && Waits(s'.closures[c])
      ensures OnTop(s', c)
    {
      assert OnTop(s, c);
      forall c' | c' in s'.closures && OnStack(s', c', s'.closures[c].t)
        ensures s'.closures[c'].depth <= s'.closures[c].depth
      {
        assert OnStack(s, c', s.closures[c].t);
      }
    }
  }

  lemma RemoveKeepsStacks(s: State, s': State, c: Closure)
    requires Stacks(s) && s'.closures == s.closures - {c}
    ensures Stacks(s')
  {
    forall c1 | c1 in s'.closures && Waits(s'.closures[c1])
      ensures OnTop(s', c1)
    {
      assert OnTop(s, c1);
      forall c' | c' in s'.closures && OnStack(s', c', s'.closures[c1].t)
        ensures s'.closures[c'].depth <= s'.closures[c1].depth
      {
        assert OnStack(s, c', s.closures[c1].t);
      }
    }
  }

  lemma FlushKeepsStacks(s: State, a: Action)
    requires Enabled(s, a) && Stacks(s) && Takes(a)
    ensures Stacks(Next(s, a))
  {
    var s' := Next(s, a);
    if a.FlushOutside? {
      TakeKeepsStacks(s, s', a.which, a.t, 1);
    } else {
      var (t, d) := TakesTo(s, a);
      var s1 := s.(closures := Take(s, a.which, t, d));
      forall c | c in s.closures && OnStack(s, c, t)
        ensures !Waits(s.closures[c])
      {
        if a.FlushTake? {
          NoWaiterBeside(s, a.c, c);
        }
      }
      TakeKeepsStacks(s, s1, a.which, t, d);
      ChangesMode(s1, s', a.c);
    }
  }

  /** A functor that stops waiting, or goes on waiting, at its place. */
  lemma ChangesMode(s: State, s': State, c: Closure)
    requires Stacks(s) && At(s, c) && s.closures[c].Running?
    requires s'.closures.Keys == s.closures.Keys && At(s', c) && s'.closures[c].Running?
    requires s'.closures == s.closures[c := s'.closures[c]]
    requires SameFrame(s.closures[c], s'.closures[c])
    requires Waits(s'.closures[c]) ==> OnTop(s, c)
    ensures Stacks(s')
  {
    var w := s.closures[c];
    assert OnStack(s, c, w.t);
    forall c' | c' in s.closures && c' != c && Waits(s.closures[c']) && OnStack(s, c', w.t)
      ensures w.depth <= s.closures[c'].depth
    {
      assert OnTop(s, c');
    }
    MoveKeepsStacks(s, s', c, s'.closures[c]);
  }

  lemma InPlaceKeepsStacks(s: State, a: Action)
    requires Enabled(s, a) && Stacks(s) && StaysInPlace(a)
    ensures Stacks(Next(s, a))
  {
    var s' := Next(s, a);
    if s' != s {
      var w := s.closures[a.c];
      assert OnStack(s, a.c, w.t);
      forall c' | c' in s.closures && c' != a.c && Waits(s.closures[c']) && OnStack(s, c', w.t)
        ensures w.depth <= s.closures[c'].depth
      {
        assert OnTop(s, c');
      }
      MoveKeepsStacks(s, s', a.c, s'.closures[a.c]);
    }
  }

  lemma PlacingKeepsStacks(s: State, a: Action)
    requires Enabled(s, a) && Stacks(s) && Places(a)
    ensures Stacks(Next(s, a))
  {
    var s' := Next(s, a);
    var w := s'.closures[a.c];
    if a.CreateInside? || a.ClearInside? {
      var p := Actor(a);
      forall c' | c' in s.closures && OnStack(s, c', w.t)
        ensures !Waits(s.closures[c']) && s.closures[c'].depth < w.depth
      {
        NoWaiterBeside(s, p, c');
      }
    }
    MoveKeepsStacks(s, s', a.c, w);
  }

  lemma StepKeepsStacks(s: State, a: Action)
    requires Enabled(s, a) && Stacks(s)
    ensures Stacks(Next(s, a))
  {
    if Takes(a) {
      FlushKeepsStacks(s, a);
    } else if StaysInPlace(a) {
      InPlaceKeepsStacks(s, a);
    } else if Places(a) {
      PlacingKeepsStacks(s, a);
    } else if a.SetEvent? {
      RemoveKeepsStacks(s, Next(s, a), a.c);
    } else {
      SameKeepsStacks(s, Next(s, a));
    }
  }

  lemma {:induction false} RunKeepsStacks(s: State, es: seq<Action>)
    requires Stacks(s) && CanRun(s, es)
    ensures Stacks(Run(s, es))
    decreases es
  {
    if es != [] {
      StepKeepsStacks(s, es[0]);
      RunKeepsStacks(Next(s, es[0]), es[1..]);
    }
  }
}
