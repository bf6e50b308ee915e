/**
 What a drain guarantees from the moment the shutdown flag is set until a
 cancel: how many admissions can still happen, and what it means that a waiter
 has left its wait loop, or has skipped it on the unlocked fast path.
 */
module DrainSegments {
  import opened Sums
  import opened Drain

  /** Is some thread past its flag check and about to increment? */
  predicate Straggling(s: State) {
    exists t :: 0 <= t < |s.pc| && s.pc[t].IncAdd?
  }

  function StragglersLeft(s: State): nat {
    if Straggling(s) then 1 else 0
  }

  /** The mutex lets one thread at a time stand before its increment. */
  lemma OneStraggler(s: State, t: nat, u: nat)
    requires Inv(s) && t < |s.pc| && u < |s.pc| && s.pc[t].IncAdd? && s.pc[u].IncAdd?
    ensures t == u
  {
    assert Holds(s.pc[t]) && Holds(s.pc[u]);
  }

  /** With the flag set, an action other than a cancel keeps it set and makes no new straggler. */
  lemma FlagStep(s: State, a: Action)
    requires Inv(s) && s.flag && Enabled(s, a) && !IsCancel(s, a)
    ensures Apply(s, a).flag
    ensures StragglersLeft(Apply(s, a)) + (if IsAdmission(s, a) then 1 else 0) <= StragglersLeft(s)
    ensures Apply(s, a).inflight <= s.inflight + (if IsAdmission(s, a) then 1 else 0)
  {
    hide Inv, WakeAll;
    var s' := Apply(s, a);
    if a.Step? {
      StepPcs(s, a.t);
    }
    if Straggling(s') {
      var t :| 0 <= t < |s'.pc| && s'.pc[t].IncAdd?;
      assert t < |s.pc| && s.pc[t].IncAdd?;
      if IsAdmission(s, a) {
        OneStraggler(s, t, a.t);
      }
    }
  }

  /**
   From a state with the flag set, a run without cancel admits at most one
   request, and none when no thread was between its check and its increment.
   */
  lemma {:induction false} AdmissionsAfterFlag(s: State, run: seq<Action>)
    requires Inv(s) && s.flag && Legal(s, run) && NoCancel(s, run)
    ensures Exec(s, run).flag
    ensures Admissions(s, run) + StragglersLeft(Exec(s, run)) <= StragglersLeft(s) <= 1
    ensures Exec(s, run).inflight <= s.inflight + Admissions(s, run)
    decreases |run|
  {
    if run != [] {
      var s' := Apply(s, run[0]);
      FlagStep(s, run[0]);
      InvStep(s, run[0]);
      AdmissionsAfterFlag(s', run[1..]);
    }
  }

  /** Whoever holds the mutex elsewhere shuts every straggler out. */
  lemma NoStragglerWhileHeld(s: State, w: nat)
    requires Inv(s) && w < |s.pc| && Holds(s.pc[w]) && !s.pc[w].IncAdd?
    ensures !Straggling(s)
  {
    forall t | 0 <= t < |s.pc| ensures !s.pc[t].IncAdd? {
      assert Holds(s.pc[t]) ==> t == w;
    }
  }

  /** Once a waiter holds the mutex with the flag set, nothing is ever admitted again without a cancel. */
  lemma NoneAfterWaiterLocks(s: State, w: nat, run: seq<Action>)
    requires Inv(s) && s.flag && Legal(s, run) && NoCancel(s, run)
    requires w < |s.pc| && (s.pc[w].WaitTest? || s.pc[w].WaitBlock? || s.pc[w].WaitUnlock?)
    ensures Admissions(s, run) == 0 && Exec(s, run).inflight <= s.inflight
  {
    NoStragglerWhileHeld(s, w);
    AdmissionsAfterFlag(s, run);
  }

  // ----- what an exit of a waiter means, over a whole drain

  predicate LeftBy(p: Pc, e: Exit) {
    (p.WaitUnlock? || p.WaitQuit? || p.WaitDone?) && p.exit == e
  }

  /** For the waiters spawned since thread count `base`. */
  ghost predicate ExitsMean(s: State, base: nat) {
    forall w :: base <= w < |s.pc| ==>
      && (LeftBy(s.pc[w], Drained) ==> s.inflight == 0 && !Straggling(s))
      && (LeftBy(s.pc[w], Fast) ==> s.inflight + StragglersLeft(s) <= 1)
  }

  lemma ExitsStep(s: State, a: Action, base: nat)
    requires Inv(s) && s.flag && Enabled(s, a) && !IsCancel(s, a) && ExitsMean(s, base)
    ensures ExitsMean(Apply(s, a), base)
  {
    var s' := Apply(s, a);
    FlagStep(s, a);
    InvStep(s, a);
    NonNegative(s');
    hide Inv, Apply, Enabled, LeftBy, Straggling;
    forall w | base <= w < |s'.pc|
      ensures LeftBy(s'.pc[w], Drained) ==> s'.inflight == 0 && !Straggling(s')
      ensures LeftBy(s'.pc[w], Fast) ==> s'.inflight + StragglersLeft(s') <= 1
    {
      if LeftBy(s'.pc[w], Drained) {
        ExitOrigin(s, a, w, Drained);
      }
      if LeftBy(s'.pc[w], Fast) {
        ExitOrigin(s, a, w, Fast);
      }
    }
  }

  /** A waiter that has left had left before, or leaves by this step, having read zero. */
  lemma ExitOrigin(s: State, a: Action, w: nat, e: Exit)
    requires Inv(s) && Enabled(s, a) && w < |Apply(s, a).pc| && LeftBy(Apply(s, a).pc[w], e) && !e.Expired?
    ensures w < |s.pc|
    ensures LeftBy(s.pc[w], e) || (s.inflight <= 0 && (e.Drained? ==> !Straggling(s)))
  {
    hide Inv, WakeAll;
    if a.Step? {
      StepPcs(s, a.t);
      if a.t == w && s.pc[w].WaitTest? {
        NoStragglerWhileHeld(s, w);
      }
    }
  }

  lemma {:induction false} ExitsRun(s: State, run: seq<Action>, base: nat)
    requires Inv(s) && s.flag && Legal(s, run) && NoCancel(s, run) && ExitsMean(s, base)
    ensures ExitsMean(Exec(s, run), base)
    decreases |run|
  {
    if run != [] {
      FlagStep(s, run[0]);
      InvStep(s, run[0]);
      ExitsStep(s, run[0], base);
      ExitsRun(Apply(s, run[0]), run[1..], base);
    }
  }

  /**
   A whole drain: from any reachable state in which the flag is set, over any
   run without cancel, a waiter spawned during the run that left because its
   loop ended finds nothing in flight, from then to the end of the run; one
   that left on the fast path shares the daemon with at most one straggler.
   */
  lemma DrainGuarantee(n: nat, before: seq<Action>, run: seq<Action>, w: nat)
    requires Legal(Init(n), before) && Exec(Init(n), before).flag
    requires Legal(Exec(Init(n), before), run) && NoCancel(Exec(Init(n), before), run)
    requires |Exec(Init(n), before).pc| <= w < |Exec(Exec(Init(n), before), run).pc|
    ensures var s := Exec(Exec(Init(n), before), run);
      && (LeftBy(s.pc[w], Drained) ==> s.inflight == 0 && !Straggling(s))
      && (LeftBy(s.pc[w], Fast) ==> 0 <= s.inflight <= 1)
  {
    InitInv(n);
    InvRun(Init(n), before);
    var s0 := Exec(Init(n), before);
    ExitsRun(s0, run, |s0.pc|);
    InvRun(s0, run);
    NonNegative(Exec(s0, run));
  }

  /**
   When an unlocked read of zero can be trusted: with the flag set and nothing
   in flight, the counter stays zero through every run without cancel exactly
   when no thread stands between its flag check and its increment.
   */
  lemma ZeroIsFinal(s: State)
    requires Inv(s) && s.flag && s.inflight == 0
    ensures (forall run | Legal(s, run) && NoCancel(s, run) :: Exec(s, run).inflight == 0)
       <==> !Straggling(s)
  {
    if Straggling(s) {
      var t :| 0 <= t < |s.pc| && s.pc[t].IncAdd?;
      Prepend(s, Step(t), []);
      var run := [Step(t)] + [];
      assert run[1..] == [] && NoCancel(s, run);
      assert Exec(s, run).inflight != 0;
    } else {
      forall run | Legal(s, run) && NoCancel(s, run) ensures Exec(s, run).inflight == 0 {
        AdmissionsAfterFlag(s, run);
        InvRun(s, run);
        NonNegative(Exec(s, run));
      }
    }
  }

  /** One thread has checked the flag and waits to increment. */
  lemma StragglerBefore() returns (run: seq<Action>)
    ensures Legal(Init(2), run) && Exec(Init(2), run) == State(0, false, Some(0), [IncAdd, Idle], 0)
  {
    var s0 := Init(2);
    assert s0.pc == [Idle, Idle];
    var s1 := State(0, false, None, [IncLock, Idle], 0);
    assert Apply(s0, CallInc(0)) == s1;
    var s2 := State(0, false, Some(0), [IncCheck, Idle], 0);
    assert Apply(s1, Step(0)) == s2;
    assert Apply(s2, Step(0)) == State(0, false, Some(0), [IncAdd, Idle], 0);
    Prepend(s2, Step(0), []);
    Prepend(s1, Step(0), [Step(0)] + []);
    Prepend(s0, CallInc(0), [Step(0)] + ([Step(0)] + []));
    run := [CallInc(0)] + ([Step(0)] + ([Step(0)] + []));
  }

  /** Another sets the flag and spawns the waiter. */
  lemma StragglerFlag() returns (run: seq<Action>)
    ensures var s := State(0, false, Some(0), [IncAdd, Idle], 0);
      Legal(s, run) && Exec(s, run) == State(0, true, Some(0), [IncAdd, Idle, WaitRead], 0)
  {
    var s3 := State(0, false, Some(0), [IncAdd, Idle], 0);
    var s4 := State(0, false, Some(0), [IncAdd, BeginCas], 0);
    assert Apply(s3, CallBegin(1)) == s4;
    var s5 := State(0, true, Some(0), [IncAdd, BeginSpawn], 0);
    assert Apply(s4, Step(1)) == s5;
    assert Apply(s5, Step(1)) == State(0, true, Some(0), [IncAdd, Idle, WaitRead], 0);
    Prepend(s5, Step(1), []);
    Prepend(s4, Step(1), [Step(1)] + []);
    Prepend(s3, CallBegin(1), [Step(1)] + ([Step(1)] + []));
    run := [CallBegin(1)] + ([Step(1)] + ([Step(1)] + []));
  }

  /** The waiter reads zero, quits and is done before the increment happens. */
  lemma StragglerAfter() returns (run: seq<Action>)
    ensures var s := State(0, true, Some(0), [IncAdd, Idle, WaitRead], 0);
      Legal(s, run) && Exec(s, run) == State(1, true, Some(0), [IncUnlockYes, Idle, WaitDone(Fast)], 0)
  {
    var s6 := State(0, true, Some(0), [IncAdd, Idle, WaitRead], 0);
    var s7 := State(0, true, Some(0), [IncAdd, Idle, WaitQuit(Fast)], 0);
    assert Apply(s6, Step(2)) == s7;
    var s8 := State(0, true, Some(0), [IncAdd, Idle, WaitDone(Fast)], 0);
    assert Apply(s7, Step(2)) == s8;
    assert Apply(s8, Step(0)) == State(1, true, Some(0), [IncUnlockYes, Idle, WaitDone(Fast)], 0);
    Prepend(s8, Step(0), []);
    Prepend(s7, Step(2), [Step(0)] + []);
    Prepend(s6, Step(2), [Step(2)] + ([Step(0)] + []));
    run := [Step(2)] + ([Step(2)] + ([Step(0)] + []));
  }

  /** The straggler is real: a run from start-up after which the waiter is done while one request is in flight. */
  lemma FastPathStraggler() returns (run: seq<Action>)
    ensures Legal(Init(2), run)
    ensures Exec(Init(2), run) == State(1, true, Some(0), [IncUnlockYes, Idle, WaitDone(Fast)], 0)
  {
    var first := StragglerBefore();
    var second := StragglerFlag();
    var third := StragglerAfter();
    ExecConcat(Init(2), first, second);
    ExecConcat(Init(2), first + second, third);
    run := first + second + third;
  }

  // ----- the waiter waits: it gives up only when its deadline passes

  predicate GaveUp(s: State, w: nat) {
    w < |s.pc| && (s.pc[w].Overdue? || LeftBy(s.pc[w], Expired))
  }

  lemma GaveUpStep(s: State, a: Action, w: nat)
    requires Enabled(s, a)
    ensures GaveUp(Apply(s, a), w) <==> GaveUp(s, w) || a == Timeout(w)
  {
    hide WakeAll;
    if a.Step? {
      StepPcs(s, a.t);
    }
  }

  lemma {:induction false} GaveUpRun(s: State, run: seq<Action>, w: nat)
    requires Legal(s, run)
    ensures GaveUp(Exec(s, run), w) <==> GaveUp(s, w) || Timeout(w) in run
    decreases |run|
  {
    if run != [] {
      GaveUpStep(s, run[0], w);
      GaveUpRun(Apply(s, run[0]), run[1..], w);
      assert run == [run[0]] + run[1..];
    }
  }

  /** Over every run from start-up a waiter gives up exactly when its own deadline passed while it slept. */
  lemma GivesUpExactlyAtDeadline(n: nat, run: seq<Action>, w: nat)
    requires Legal(Init(n), run)
    ensures GaveUp(Exec(Init(n), run), w) <==> Timeout(w) in run
  {
    GaveUpRun(Init(n), run, w);
  }

  /**
   A whole drain in which a waiter's deadline does not pass: once the waiter is
   done it left by its loop, with nothing in flight from then on, or by the
   unlocked read, with at most one request in flight.
   */
  lemma DoneMeansDrained(n: nat, before: seq<Action>, run: seq<Action>, w: nat)
    requires Legal(Init(n), before) && Exec(Init(n), before).flag
    requires Legal(Exec(Init(n), before), run) && NoCancel(Exec(Init(n), before), run) && Timeout(w) !in run
    requires |Exec(Init(n), before).pc| <= w < |Exec(Exec(Init(n), before), run).pc|
    requires Exec(Exec(Init(n), before), run).pc[w].WaitDone?
    ensures var s := Exec(Exec(Init(n), before), run);
      && (s.pc[w] == WaitDone(Drained) || s.pc[w] == WaitDone(Fast))
      && 0 <= s.inflight <= 1
      && (s.pc[w] == WaitDone(Drained) ==> s.inflight == 0 && !Straggling(s))
  {
    GaveUpRun(Exec(Init(n), before), run, w);
    DrainGuarantee(n, before, run, w);
  }
}
