/**
 The drain and admission protocol as a transition system. Every thread has a
 program counter, and each atomic access, lock, unlock, wait and broadcast is a
 step of its own, so a run is an arbitrary interleaving of any number of
 callers of inc, dec, begin and cancel with any number of waiter threads.
 */
module Drain {
  import opened Sums

  /** How a waiter left: unlocked read of zero, wait loop ended, deadline passed. */
  datatype Exit = Fast | Drained | Expired

  datatype Pc =
    | Idle
    // pcv_drain_inc
    | IncLock | IncCheck | IncAdd | IncUnlockYes | IncUnlockNo
    // pcv_drain_dec
    | DecTest | DecLock | DecBroadcast | DecUnlock
    // pcv_drain_begin and pcv_drain_cancel
    | BeginCas | BeginSpawn | CancelSet
    // _drain_thread_func
    | WaitRead | WaitLock | WaitTest | WaitBlock | Blocked | Woken | Overdue
    | WaitUnlock(exit: Exit) | WaitQuit(exit: Exit) | WaitDone(exit: Exit)

  /**
   `tokens` counts the admissions granted by a completed inc whose holder has
   not called dec yet; callers return exactly the tokens they were given.
   */
  datatype State = State(inflight: int, flag: bool, owner: Option<nat>, pc: seq<Pc>, tokens: nat)

  datatype Action =
    | NewThread
    | CallInc(t: nat) | CallDec(t: nat) | CallBegin(t: nat) | CallCancel(t: nat)
    | Step(t: nat)
    | SpuriousWake(t: nat)
    | Timeout(t: nat)

  function Init(n: nat): State {
    State(0, false, None, seq(n, _ => Idle), 0)
  }

  /** The program points at which the thread owns the mutex. */
  predicate Holds(p: Pc) {
    p.IncCheck? || p.IncAdd? || p.IncUnlockYes? || p.IncUnlockNo? || p.DecBroadcast? || p.DecUnlock?
    || p.WaitTest? || p.WaitBlock? || p.WaitUnlock?
  }

  /** The program points whose next step acquires the mutex. */
  predicate Acquires(p: Pc) {
    p.IncLock? || p.DecLock? || p.WaitLock? || p.Woken? || p.Overdue?
  }

  /** The program points whose next step releases the mutex; waiting releases it as it goes to sleep. */
  predicate Releases(p: Pc) {
    p.IncUnlockYes? || p.IncUnlockNo? || p.DecUnlock? || p.WaitBlock? || p.WaitUnlock?
  }

  /** A thread outside the protocol, asleep or finished takes no step of its own. */
  predicate Runs(p: Pc) {
    !p.Idle? && !p.Blocked? && !p.WaitDone?
  }

  predicate CanStep(s: State, t: nat) {
    t < |s.pc| && Runs(s.pc[t]) && (Acquires(s.pc[t]) ==> s.owner.None?)
  }

  predicate Enabled(s: State, a: Action) {
    match a
    case NewThread => true
    case CallInc(t) => t < |s.pc| && s.pc[t].Idle?
    case CallDec(t) => t < |s.pc| && s.pc[t].Idle? && s.tokens > 0
    case CallBegin(t) => t < |s.pc| && s.pc[t].Idle?
    case CallCancel(t) => t < |s.pc| && s.pc[t].Idle?
    case Step(t) => CanStep(s, t)
    case SpuriousWake(t) => t < |s.pc| && s.pc[t].Blocked?
    case Timeout(t) => t < |s.pc| && s.pc[t].Blocked?
  }

  /** Where a thread goes next, given the counter and the flag it may read there. */
  function NextPc(p: Pc, inflight: int, flag: bool): Pc
    requires Runs(p)
  {
    match p
    case IncLock => IncCheck
    case IncCheck => if flag then IncUnlockNo else IncAdd
    case IncAdd => IncUnlockYes
    case IncUnlockYes => Idle
    case IncUnlockNo => Idle
    case DecTest => if inflight - 1 == 0 then DecLock else Idle
    case DecLock => DecBroadcast
    case DecBroadcast => DecUnlock
    case DecUnlock => Idle
    case BeginCas => if flag then Idle else BeginSpawn
    case BeginSpawn => Idle
    case CancelSet => Idle
    case WaitRead => if inflight > 0 then WaitLock else WaitQuit(Fast)
    case WaitLock => WaitTest
    case WaitTest => if inflight > 0 then WaitBlock else WaitUnlock(Drained)
    case WaitBlock => Blocked
    case Woken => WaitTest
    case Overdue => WaitUnlock(Expired)
    case WaitUnlock(e) => WaitQuit(e)
    case WaitQuit(e) => WaitDone(e)
  }

  function Wake(p: Pc): Pc {
    if p.Blocked? then Woken else p
  }

  function WakeAll(pc: seq<Pc>): seq<Pc> {
    seq(|pc|, i requires 0 <= i < |pc| => Wake(pc[i]))
  }

  function StepThread(s: State, t: nat): State
    requires CanStep(s, t)
  {
    var p := s.pc[t];
    State(
      if p.IncAdd? then s.inflight + 1 else if p.DecTest? then s.inflight - 1 else s.inflight,
      if p.BeginCas? then true else if p.CancelSet? then false else s.flag,
      if Acquires(p) then Some(t) else if Releases(p) then None else s.owner,
      (if p.DecBroadcast? then WakeAll(s.pc) else s.pc)[t := NextPc(p, s.inflight, s.flag)]
        + (if p.BeginSpawn? then [WaitRead] else []),
      if p.IncUnlockYes? then s.tokens + 1 else s.tokens)
  }

  function Apply(s: State, a: Action): State
    requires Enabled(s, a)
  {
    match a
    case NewThread => s.(pc := s.pc + [Idle])
    case CallInc(t) => s.(pc := s.pc[t := IncLock])
    case CallDec(t) => s.(tokens := s.tokens - 1, pc := s.pc[t := DecTest])
    case CallBegin(t) => s.(pc := s.pc[t := BeginCas])
    case CallCancel(t) => s.(pc := s.pc[t := CancelSet])
    case Step(t) => StepThread(s, t)
    case SpuriousWake(t) => s.(pc := s.pc[t := Woken])
    case Timeout(t) => s.(pc := s.pc[t := Overdue])
  }

  /** A run is a list of actions, each enabled where it is taken. */
  predicate Legal(s: State, run: seq<Action>)
    decreases |run|
  {
    run == [] || (Enabled(s, run[0]) && Legal(Apply(s, run[0]), run[1..]))
  }

  function Exec(s: State, run: seq<Action>): State
    requires Legal(s, run)
    decreases |run|
  {
    if run == [] then s else Exec(Apply(s, run[0]), run[1..])
  }

  /** The step that puts a request in flight. */
  predicate IsAdmission(s: State, a: Action) {
    a.Step? && a.t < |s.pc| && s.pc[a.t].IncAdd?
  }

  function Admissions(s: State, run: seq<Action>): nat
    requires Legal(s, run)
    decreases |run|
  {
    if run == [] then 0
    else (if IsAdmission(s, run[0]) then 1 else 0) + Admissions(Apply(s, run[0]), run[1..])
  }

  /** The step that clears the shutdown flag. */
  predicate IsCancel(s: State, a: Action) {
    a.Step? && a.t < |s.pc| && s.pc[a.t].CancelSet?
  }

  predicate NoCancel(s: State, run: seq<Action>)
    requires Legal(s, run)
    decreases |run|
  {
    run == [] || (!IsCancel(s, run[0]) && NoCancel(Apply(s, run[0]), run[1..]))
  }

  // ----- the invariant

  /** Threads between an increment and its return, or between a dec call and its decrement. */
  function MidFlight(p: Pc): nat {
    if p.IncUnlockYes? || p.DecTest? then 1 else 0
  }

  /** The mutex is owned by exactly the thread whose program point says so. */
  ghost predicate MutexOk(s: State) {
    && (s.owner.Some? ==> s.owner.value < |s.pc|)
    && forall t :: 0 <= t < |s.pc| ==> (Holds(s.pc[t]) <==> s.owner == Some(t))
  }

  ghost predicate Conserved(s: State) {
    s.inflight == s.tokens + Sum(MidFlight, s.pc)
  }

  /** A waiter that has decided to sleep, or sleeps, without having been woken. */
  predicate Asleep(p: Pc) {
    p.WaitBlock? || p.Blocked?
  }

  /** A thread that took the counter to zero and still owes the broadcast. */
  predicate OwesBroadcast(p: Pc) {
    p.DecLock? || p.DecBroadcast?
  }

  ghost predicate NoLostWakeUp(s: State) {
    forall w :: 0 <= w < |s.pc| && Asleep(s.pc[w]) && s.inflight == 0 ==>
      exists t :: 0 <= t < |s.pc| && OwesBroadcast(s.pc[t])
  }

  ghost predicate Inv(s: State) {
    MutexOk(s) && Conserved(s) && NoLostWakeUp(s)
  }

  lemma {:induction false} InitInv(n: nat)
    ensures Inv(Init(n))
  {
    if n > 0 {
      var pc := Init(n).pc;
      if Sum(MidFlight, pc) > 0 {
        var i := SumPositive(MidFlight, pc);
        assert false;
      }
    }
  }

  /** A step keeps the mutex, acquires it or releases it, as its program points say. */
  lemma HoldsNext(p: Pc, inflight: int, flag: bool)
    requires Runs(p)
    ensures Holds(NextPc(p, inflight, flag)) <==> Acquires(p) || (Holds(p) && !Releases(p))
  {
  }

  /** Weight moved by one step: an increment or a dec call adds, a return or a decrement takes away. */
  lemma MidFlightNext(p: Pc, inflight: int, flag: bool)
    requires Runs(p)
    ensures MidFlight(NextPc(p, inflight, flag)) + (if p.IncUnlockYes? || p.DecTest? then 1 else 0)
         == MidFlight(p) + (if p.IncAdd? then 1 else 0)
  {
  }

  lemma MidFlightStep(s: State, t: nat)
    requires CanStep(s, t)
    ensures Sum(MidFlight, StepThread(s, t).pc) + MidFlight(s.pc[t])
         == Sum(MidFlight, s.pc) + MidFlight(NextPc(s.pc[t], s.inflight, s.flag))
  {
    var p := s.pc[t];
    var base := if p.DecBroadcast? then WakeAll(s.pc) else s.pc;
    SumPointwise(MidFlight, s.pc, base);
    SumUpdate(MidFlight, base, t, NextPc(p, s.inflight, s.flag));
    var moved := base[t := NextPc(p, s.inflight, s.flag)];
    SumAppend(MidFlight, moved, WaitRead);
    assert moved + [] == moved;
  }

  lemma ConservedStep(s: State, a: Action)
    requires Conserved(s) && Enabled(s, a)
    ensures Conserved(Apply(s, a))
  {
    match a
    case NewThread => SumAppend(MidFlight, s.pc, Idle);
    case CallInc(t) => SumUpdate(MidFlight, s.pc, t, IncLock);
    case CallDec(t) => SumUpdate(MidFlight, s.pc, t, DecTest);
    case CallBegin(t) => SumUpdate(MidFlight, s.pc, t, BeginCas);
    case CallCancel(t) => SumUpdate(MidFlight, s.pc, t, CancelSet);
    case SpuriousWake(t) => SumUpdate(MidFlight, s.pc, t, Woken);
    case Timeout(t) => SumUpdate(MidFlight, s.pc, t, Overdue);
    case Step(t) =>
      MidFlightStep(s, t);
      MidFlightNext(s.pc[t], s.inflight, s.flag);
  }

  /** What a step leaves at every program counter. */
  lemma StepPcs(s: State, t: nat)
    requires CanStep(s, t)
    ensures var s' := StepThread(s, t);
      && |s.pc| <= |s'.pc| <= |s.pc| + 1
      && s'.pc[t] == NextPc(s.pc[t], s.inflight, s.flag)
      && (|s'.pc| > |s.pc| ==> s'.pc[|s.pc|] == WaitRead && s.pc[t].BeginSpawn?)
      && forall u :: 0 <= u < |s.pc| && u != t ==>
           s'.pc[u] == if s.pc[t].DecBroadcast? then Wake(s.pc[u]) else s.pc[u]
  {
  }

  lemma MutexStep(s: State, a: Action)
    requires MutexOk(s) && Enabled(s, a)
    ensures MutexOk(Apply(s, a))
  {
    if a.Step? {
      StepPcs(s, a.t);
      HoldsNext(s.pc[a.t], s.inflight, s.flag);
      var s' := Apply(s, a);
      forall u | 0 <= u < |s'.pc| ensures Holds(s'.pc[u]) <==> s'.owner == Some(u) {
        if u < |s.pc| {
          assert Holds(s.pc[u]) <==> s.owner == Some(u);
        }
      }
    }
  }

  /** The thread that owes a broadcast keeps owing it until it broadcasts, which wakes every sleeper. */
  lemma WakeUpStep(s: State, a: Action)
    requires Inv(s) && Enabled(s, a)
    ensures NoLostWakeUp(Apply(s, a))
  {
    var s' := Apply(s, a);
    if a.Step? {
      StepPcs(s, a.t);
    }
    forall w | 0 <= w < |s'.pc| && Asleep(s'.pc[w]) && s'.inflight == 0
      ensures exists t :: 0 <= t < |s'.pc| && OwesBroadcast(s'.pc[t])
    {
      if a.Step? && s.pc[a.t].DecTest? {
        assert OwesBroadcast(s'.pc[a.t]);
      } else if a.Step? && s.pc[a.t].DecBroadcast? {
        // The broadcaster holds the mutex, so nobody is about to sleep, and everybody asleep is woken.
        assert false;
      } else if a.Step? && s.pc[a.t].IncAdd? {
        NonNegative(s);
        assert false;
      } else {
        var t :| 0 <= t < |s.pc| && OwesBroadcast(s.pc[t]);
        assert OwesBroadcast(s'.pc[t]);
      }
    }
  }

  lemma NonNegative(s: State)
    requires Conserved(s)
    ensures 0 <= s.tokens <= s.inflight
  {
  }

  lemma InvStep(s: State, a: Action)
    requires Inv(s) && Enabled(s, a)
    ensures Inv(Apply(s, a))
  {
    MutexStep(s, a);
    ConservedStep(s, a);
    WakeUpStep(s, a);
  }

  lemma {:induction false} InvRun(s: State, run: seq<Action>)
    requires Inv(s) && Legal(s, run)
    ensures Inv(Exec(s, run))
    decreases |run|
  {
    if run != [] {
      InvStep(s, run[0]);
      InvRun(Apply(s, run[0]), run[1..]);
    }
  }

  // ----- main results over every run

  /**
   In every state of every run: the counter is the number of tokens handed out
   plus the callers mid-way, it is never negative, at most one thread owns the
   mutex, and a waiter asleep over a zero counter has a broadcast still coming.
   */
  lemma DrainSafety(n: nat, run: seq<Action>, w: nat, u: nat)
    requires Legal(Init(n), run)
    ensures var s := Exec(Init(n), run);
      && s.inflight == s.tokens + Sum(MidFlight, s.pc) >= 0
      && (w < |s.pc| && u < |s.pc| && Holds(s.pc[w]) && Holds(s.pc[u]) ==> w == u)
      && (w < |s.pc| && s.pc[w].Blocked? && s.inflight == 0 ==>
            exists t :: 0 <= t < |s.pc| && OwesBroadcast(s.pc[t]))
  {
    InitInv(n);
    InvRun(Init(n), run);
    var s := Exec(Init(n), run);
    NonNegative(s);
    if w < |s.pc| && s.pc[w].Blocked? && s.inflight == 0 {
      assert Asleep(s.pc[w]);
    }
  }

  lemma ExecConcat(s: State, first: seq<Action>, second: seq<Action>)
    requires Legal(s, first) && Legal(Exec(s, first), second)
    ensures Legal(s, first + second)
    ensures Exec(s, first + second) == Exec(Exec(s, first), second)
    decreases |first|
  {
    if first == [] {
      assert first + second == second;
    } else {
      assert (first + second)[1..] == first[1..] + second;
      ExecConcat(Apply(s, first[0]), first[1..], second);
    }
  }

  lemma Prepend(s: State, a: Action, rest: seq<Action>)
    requires Enabled(s, a) && Legal(Apply(s, a), rest)
    ensures Legal(s, [a] + rest)
    ensures Exec(s, [a] + rest) == Exec(Apply(s, a), rest)
  {
    assert ([a] + rest)[1..] == rest;
  }

  /** A step that neither broadcasts nor spawns changes one program counter. */
  lemma PlainStep(s: State, t: nat)
    requires CanStep(s, t) && !s.pc[t].DecBroadcast? && !s.pc[t].BeginSpawn?
    ensures StepThread(s, t).pc == s.pc[t := NextPc(s.pc[t], s.inflight, s.flag)]
  {
  }

  /** An inc that has locked and found the flag clear: it counts the request, unlocks and returns a token. */
  lemma AdmitAlone(s: State, t: nat) returns (run: seq<Action>)
    requires t < |s.pc| && s.pc[t].Idle? && s.owner.None?
    ensures run == [Step(t), Step(t)]
    ensures Legal(s.(owner := Some(t), pc := s.pc[t := IncAdd]), run)
    ensures Exec(s.(owner := Some(t), pc := s.pc[t := IncAdd]), run)
         == s.(inflight := s.inflight + 1, tokens := s.tokens + 1)
  {
    var s3 := s.(owner := Some(t), pc := s.pc[t := IncAdd]);
    PlainStep(s3, t);
    var s4 := s.(owner := Some(t), pc := s.pc[t := IncUnlockYes], inflight := s.inflight + 1);
    assert StepThread(s3, t) == s4;
    PlainStep(s4, t);
    assert s.pc[t := Idle] == s.pc;
    assert StepThread(s4, t) == s.(inflight := s.inflight + 1, tokens := s.tokens + 1);
    Prepend(s4, Step(t), []);
    Prepend(s3, Step(t), [Step(t)] + []);
    run := [Step(t)] + ([Step(t)] + []);
  }

  /** An inc that has locked and found the flag set: it unlocks and changes nothing. */
  lemma RefuseAlone(s: State, t: nat) returns (run: seq<Action>)
    requires t < |s.pc| && s.pc[t].Idle? && s.owner.None?
    ensures run == [Step(t)]
    ensures Legal(s.(owner := Some(t), pc := s.pc[t := IncUnlockNo]), run)
    ensures Exec(s.(owner := Some(t), pc := s.pc[t := IncUnlockNo]), run) == s
  {
    var s3 := s.(owner := Some(t), pc := s.pc[t := IncUnlockNo]);
    PlainStep(s3, t);
    assert s.pc[t := Idle] == s.pc;
    assert StepThread(s3, t) == s;
    Prepend(s3, Step(t), []);
    run := [Step(t)] + [];
  }

  /** Run by one thread alone, inc is atomic: it admits exactly when the flag is clear. */
  lemma IncAlone(s: State, t: nat) returns (run: seq<Action>)
    requires t < |s.pc| && s.pc[t].Idle? && s.owner.None?
    ensures Legal(s, run) && forall i :: 0 <= i < |run| ==> run[i] in {CallInc(t), Step(t)}
    ensures Exec(s, run) == if s.flag then s else s.(inflight := s.inflight + 1, tokens := s.tokens + 1)
  {
    var s1 := s.(pc := s.pc[t := IncLock]);
    PlainStep(s1, t);
    var s2 := s.(owner := Some(t), pc := s.pc[t := IncCheck]);
    assert StepThread(s1, t) == s2;
    PlainStep(s2, t);
    if s.flag {
      assert StepThread(s2, t) == s.(owner := Some(t), pc := s.pc[t := IncUnlockNo]);
      run := RefuseAlone(s, t);
    } else {
      assert StepThread(s2, t) == s.(owner := Some(t), pc := s.pc[t := IncAdd]);
      run := AdmitAlone(s, t);
    }
    Prepend(s2, Step(t), run);
    Prepend(s1, Step(t), [Step(t)] + run);
    Prepend(s, CallInc(t), [Step(t)] + ([Step(t)] + run));
    run := [CallInc(t)] + ([Step(t)] + ([Step(t)] + run));
  }

  /** The last dec, from the lock on: every sleeper is woken and nothing else changes. */
  lemma BroadcastAlone(s: State, t: nat) returns (run: seq<Action>)
    requires t < |s.pc| && s.pc[t].Idle? && s.owner.None?
    ensures Legal(s.(pc := s.pc[t := DecLock]), run) && forall i :: 0 <= i < |run| ==> run[i] == Step(t)
    ensures Exec(s.(pc := s.pc[t := DecLock]), run) == s.(pc := WakeAll(s.pc))
  {
    var s2 := s.(pc := s.pc[t := DecLock]);
    PlainStep(s2, t);
    var s3 := s.(owner := Some(t), pc := s.pc[t := DecBroadcast]);
    assert StepThread(s2, t) == s3;
    var s4 := s.(owner := Some(t), pc := WakeAll(s.pc)[t := DecUnlock]);
    assert StepThread(s3, t).pc == s4.pc;
    assert StepThread(s3, t) == s4;
    PlainStep(s4, t);
    assert WakeAll(s.pc)[t := Idle] == WakeAll(s.pc);
    assert StepThread(s4, t) == s.(pc := WakeAll(s.pc));
    Prepend(s4, Step(t), []);
    Prepend(s3, Step(t), [Step(t)] + []);
    Prepend(s2, Step(t), [Step(t)] + ([Step(t)] + []));
    run := [Step(t)] + ([Step(t)] + ([Step(t)] + []));
  }

  /** Run by one thread alone, dec is atomic: it returns one token, and at zero wakes every sleeper. */
  lemma DecAlone(s: State, t: nat) returns (run: seq<Action>)
    requires t < |s.pc| && s.pc[t].Idle? && s.owner.None? && s.tokens > 0
    ensures Legal(s, run) && forall i :: 0 <= i < |run| ==> run[i] in {CallDec(t), Step(t)}
    ensures Exec(s, run) ==
      s.(inflight := s.inflight - 1, tokens := s.tokens - 1, pc := if s.inflight == 1 then WakeAll(s.pc) else s.pc)
  {
    var s1 := s.(tokens := s.tokens - 1, pc := s.pc[t := DecTest]);
    var less := s.(inflight := s.inflight - 1, tokens := s.tokens - 1);
    PlainStep(s1, t);
    if s.inflight == 1 {
      assert StepThread(s1, t) == less.(pc := less.pc[t := DecLock]);
      run := BroadcastAlone(less, t);
    } else {
      assert s.pc[t := Idle] == s.pc;
      assert StepThread(s1, t) == less;
      run := [];
    }
    Prepend(s1, Step(t), run);
    run := [Step(t)] + run;
    Prepend(s, CallDec(t), run);
    run := [CallDec(t)] + run;
  }

  /** Run by one thread alone, begin sets the flag, and spawns one waiter exactly when it was clear. */
  lemma BeginAlone(s: State, t: nat) returns (run: seq<Action>)
    requires t < |s.pc| && s.pc[t].Idle?
    ensures Legal(s, run) && forall i :: 0 <= i < |run| ==> run[i] in {CallBegin(t), Step(t)}
    ensures Exec(s, run) == if s.flag then s else s.(flag := true, pc := s.pc + [WaitRead])
  {
    var s1 := s.(pc := s.pc[t := BeginCas]);
    PlainStep(s1, t);
    run := [];
    if s.flag {
      assert s.pc[t := Idle] == s.pc;
      assert StepThread(s1, t) == s;
    } else {
      var s2 := s.(flag := true, pc := s.pc[t := BeginSpawn]);
      assert StepThread(s1, t) == s2;
      assert s.pc[t := Idle] == s.pc;
      assert StepThread(s2, t).pc == s.pc + [WaitRead];
      Prepend(s2, Step(t), run);
      run := [Step(t)] + run;
    }
    Prepend(s1, Step(t), run);
    Prepend(s, CallBegin(t), [Step(t)] + run);
    run := [CallBegin(t)] + ([Step(t)] + run);
  }

  /** Run by one thread alone, cancel clears the flag and changes nothing else. */
  lemma CancelAlone(s: State, t: nat) returns (run: seq<Action>)
    requires t < |s.pc| && s.pc[t].Idle?
    ensures Legal(s, run) && forall i :: 0 <= i < |run| ==> run[i] in {CallCancel(t), Step(t)}
    ensures Exec(s, run) == s.(flag := false)
  {
    var s1 := s.(pc := s.pc[t := CancelSet]);
    PlainStep(s1, t);
    assert s.pc[t := Idle] == s.pc;
    assert StepThread(s1, t) == s.(flag := false);
    Prepend(s1, Step(t), []);
    Prepend(s, CallCancel(t), [Step(t)] + []);
    run := [CallCancel(t)] + ([Step(t)] + []);
  }
}
