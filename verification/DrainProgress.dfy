/**
 Progress of the drain without its deadline: left alone, the threads inside
 the protocol run out of steps, and a waiter that is then still asleep waits
 only for tokens whose holders have not called dec.
 */
module DrainProgress {
  import opened Sums
  import opened Drain
  import DrainSegments

  /** Threads that have yet to wake the sleepers once. */
  function MayBroadcast(p: Pc): nat {
    if p.DecTest? || OwesBroadcast(p) then 1 else 0
  }

  /** Steps a thread can take before it is out, asleep or done, ignoring broadcasts. */
  function Rank(p: Pc): nat {
    match p
    case Idle => 0
    case IncLock => 4
    case IncCheck => 3
    case IncAdd => 2
    case IncUnlockYes => 1
    case IncUnlockNo => 1
    case DecTest => 4
    case DecLock => 3
    case DecBroadcast => 2
    case DecUnlock => 1
    case BeginCas => 10
    case BeginSpawn => 9
    case CancelSet => 1
    case WaitRead => 8
    case WaitLock => 7
    case WaitTest => 6
    case WaitBlock => 5
    case Blocked => 4
    case Woken => 7
    case Overdue => 7
    case WaitUnlock(_) => 2
    case WaitQuit(_) => 1
    case WaitDone(_) => 0
  }

  /** Threads that may still add a waiter. */
  function MaySpawn(p: Pc): nat {
    if p.BeginCas? || p.BeginSpawn? then 1 else 0
  }

  /** Waiters there are or may come to be, and everybody else: all a broadcast could wake. */
  function Crowd(s: State): nat {
    |s.pc| + Sum(MaySpawn, s.pc)
  }

  /** A bound on the steps left: each thread's own, plus three for everybody a broadcast may wake. */
  function Potential(s: State): nat {
    Sum(Rank, s.pc) + 3 * (Sum(MayBroadcast, s.pc) * Crowd(s))
  }

  lemma RankNext(p: Pc, inflight: int, flag: bool)
    requires Runs(p)
    ensures MayBroadcast(NextPc(p, inflight, flag)) <= MayBroadcast(p)
    ensures p.DecBroadcast? ==> MayBroadcast(NextPc(p, inflight, flag)) < MayBroadcast(p)
    ensures MaySpawn(NextPc(p, inflight, flag)) + (if p.BeginSpawn? then 1 else 0) <= MaySpawn(p)
    ensures Rank(NextPc(p, inflight, flag)) + (if p.BeginSpawn? then Rank(WaitRead) else 0) < Rank(p)
  {
  }

  lemma {:induction false} WakeAllRank(pc: seq<Pc>)
    ensures Sum(Rank, WakeAll(pc)) <= Sum(Rank, pc) + 3 * |pc|
  {
    if pc != [] {
      assert WakeAll(pc)[1..] == WakeAll(pc[1..]);
      WakeAllRank(pc[1..]);
    }
  }

  /** How one step moves a weight that broadcasts do not change. */
  lemma WeightStep(w: Pc -> nat, s: State, t: nat)
    requires CanStep(s, t)
    requires w(Woken) == w(Blocked)
    ensures Sum(w, StepThread(s, t).pc) + w(s.pc[t])
         == Sum(w, s.pc) + w(NextPc(s.pc[t], s.inflight, s.flag)) + (if s.pc[t].BeginSpawn? then w(WaitRead) else 0)
  {
    var p := s.pc[t];
    var q := NextPc(p, s.inflight, s.flag);
    var base := if p.DecBroadcast? then WakeAll(s.pc) else s.pc;
    SumPointwise(w, s.pc, base);
    SumUpdate(w, base, t, q);
    SumAppend(w, base[t := q], WaitRead);
    assert base[t := q] + [] == base[t := q];
  }

  lemma RankStep(s: State, t: nat)
    requires CanStep(s, t)
    ensures Sum(Rank, StepThread(s, t).pc) < Sum(Rank, s.pc) + (if s.pc[t].DecBroadcast? then 3 * |s.pc| else 0)
  {
    var p := s.pc[t];
    var q := NextPc(p, s.inflight, s.flag);
    var base := if p.DecBroadcast? then WakeAll(s.pc) else s.pc;
    RankNext(p, s.inflight, s.flag);
    WakeAllRank(s.pc);
    SumUpdate(Rank, base, t, q);
    SumAppend(Rank, base[t := q], WaitRead);
    assert base[t := q] + [] == base[t := q];
  }

  lemma ProductBound(b: nat, b': nat, c: nat, c': nat)
    requires b' <= b && c' <= c
    ensures b' * c' <= b * c
    ensures b' < b ==> b' * c' + c <= b * c
  {
    MulGrows(c', c, b');
    MulGrows(b', b, c);
    if b' < b {
      MulGrows(b' + 1, b, c);
      assert (b' + 1) * c == b' * c + c;
    }
  }

  lemma {:induction false} MulGrows(x: nat, y: nat, z: nat)
    requires x <= y
    ensures x * z <= y * z && z * x <= z * y
  {
    if z > 0 {
      MulGrows(x, y, z - 1);
    }
  }

  lemma BroadcastsStep(s: State, t: nat)
    requires CanStep(s, t)
    ensures Sum(MayBroadcast, StepThread(s, t).pc) <= Sum(MayBroadcast, s.pc)
    ensures s.pc[t].DecBroadcast? ==> Sum(MayBroadcast, StepThread(s, t).pc) < Sum(MayBroadcast, s.pc)
  {
    RankNext(s.pc[t], s.inflight, s.flag);
    WeightStep(MayBroadcast, s, t);
  }

  lemma CrowdStep(s: State, t: nat)
    requires CanStep(s, t)
    ensures Crowd(StepThread(s, t)) <= Crowd(s)
  {
    StepPcs(s, t);
    RankNext(s.pc[t], s.inflight, s.flag);
    WeightStep(MaySpawn, s, t);
  }

  /** Ranks may rise at a broadcast, by no more than what the broadcast was worth. */
  lemma Outweighs(r: nat, r': nat, x: nat, x': nat, threads: nat, c: nat, broadcast: bool)
    requires r' < r + (if broadcast then 3 * threads else 0) && threads <= c
    requires x' <= x && (broadcast ==> x' + c <= x)
    ensures r' + 3 * x' < r + 3 * x
  {
  }

  /** Every step of a thread uses up some of the potential. */
  lemma StepDecreases(s: State, t: nat)
    requires CanStep(s, t)
    ensures Potential(StepThread(s, t)) < Potential(s)
  {
    hide StepThread;
    var s' := StepThread(s, t);
    BroadcastsStep(s, t);
    CrowdStep(s, t);
    RankStep(s, t);
    var b, b', c, c' := Sum(MayBroadcast, s.pc), Sum(MayBroadcast, s'.pc), Crowd(s), Crowd(s');
    ProductBound(b, b', c, c');
    Outweighs(Sum(Rank, s.pc), Sum(Rank, s'.pc), b * c, b' * c', |s.pc|, c, s.pc[t].DecBroadcast?);
  }

  /** No thread can take a step of its own. */
  ghost predicate Quiet(s: State) {
    forall t: nat :: !CanStep(s, t)
  }

  /**
   Nothing can be stuck: when no thread can step, the mutex is free, and every
   waiter is finished or sleeps while all requests in flight are tokens held by
   callers that have not called dec. No wake-up is owed and none was lost.
   */
  lemma QuietMeans(s: State, w: nat)
    requires Inv(s) && Quiet(s) && w < |s.pc|
    ensures s.owner.None?
    ensures s.pc[w].Idle? || s.pc[w].WaitDone? || (s.pc[w].Blocked? && s.inflight == s.tokens > 0)
  {
    if s.owner.Some? {
      var t := s.owner.value;
      assert Holds(s.pc[t]);
      assert CanStep(s, t);
      assert false;
    }
    assert !CanStep(s, w);
    if s.pc[w].Blocked? {
      if Sum(MidFlight, s.pc) > 0 {
        var t := SumPositive(MidFlight, s.pc);
        assert CanStep(s, t);
        assert false;
      }
      if s.inflight == 0 {
        assert Asleep(s.pc[w]);
        var t :| 0 <= t < |s.pc| && OwesBroadcast(s.pc[t]);
        assert CanStep(s, t);
        assert false;
      }
    }
  }

  /** A run in which threads only finish what they have begun: no calls, no deadline, no spurious wake-up. */
  predicate OnlySteps(run: seq<Action>) {
    forall i :: 0 <= i < |run| ==> run[i].Step?
  }

  /** However the scheduler picks, the threads run out of steps: every schedule is bounded. */
  lemma {:induction false} EveryScheduleEnds(s: State, run: seq<Action>)
    requires Legal(s, run) && OnlySteps(run)
    ensures |run| + Potential(Exec(s, run)) <= Potential(s)
    decreases |run|
  {
    if run != [] {
      StepDecreases(s, run[0].t);
      EveryScheduleEnds(Apply(s, run[0]), run[1..]);
    }
  }

  /** From every reachable state the threads reach a quiet state. */
  lemma RunsOut(s: State) returns (run: seq<Action>)
    requires Inv(s)
    ensures Legal(s, run) && OnlySteps(run) && Inv(Exec(s, run)) && Quiet(Exec(s, run))
    decreases Potential(s)
  {
    if t: nat :| CanStep(s, t) {
      StepDecreases(s, t);
      InvStep(s, Step(t));
      var rest := RunsOut(StepThread(s, t));
      Prepend(s, Step(t), rest);
      run := [Step(t)] + rest;
    } else {
      run := [];
    }
  }

  /** A waiter, or a begin that has won and is about to spawn one. */
  function Waiters(p: Pc): nat {
    if p.BeginSpawn? || p.WaitRead? || p.WaitLock? || p.WaitTest? || p.WaitBlock? || p.Blocked? || p.Woken?
       || p.Overdue? || p.WaitUnlock? || p.WaitQuit? || p.WaitDone? then 1 else 0
  }

  function Raised(s: State): nat {
    if s.flag then 1 else 0
  }

  lemma WaitersNext(p: Pc, inflight: int, flag: bool)
    requires Runs(p)
    ensures Waiters(NextPc(p, inflight, flag)) + (if p.BeginSpawn? then 1 else 0)
         == Waiters(p) + (if p.BeginCas? && !flag then 1 else 0)
  {
  }

  lemma WaitersStep(s: State, a: Action)
    requires Enabled(s, a) && !IsCancel(s, a)
    ensures Sum(Waiters, Apply(s, a).pc) + Raised(s) == Sum(Waiters, s.pc) + Raised(Apply(s, a))
  {
    match a
    case NewThread => SumAppend(Waiters, s.pc, Idle);
    case CallInc(t) => SumUpdate(Waiters, s.pc, t, IncLock);
    case CallDec(t) => SumUpdate(Waiters, s.pc, t, DecTest);
    case CallBegin(t) => SumUpdate(Waiters, s.pc, t, BeginCas);
    case CallCancel(t) => SumUpdate(Waiters, s.pc, t, CancelSet);
    case SpuriousWake(t) => SumUpdate(Waiters, s.pc, t, Woken);
    case Timeout(t) => SumUpdate(Waiters, s.pc, t, Overdue);
    case Step(t) =>
      WeightStep(Waiters, s, t);
      WaitersNext(s.pc[t], s.inflight, s.flag);
  }

  lemma {:induction false} WaitersRun(s: State, run: seq<Action>)
    requires Legal(s, run) && NoCancel(s, run)
    ensures Sum(Waiters, Exec(s, run).pc) + Raised(s) == Sum(Waiters, s.pc) + Raised(Exec(s, run))
    decreases |run|
  {
    if run != [] {
      WaitersStep(s, run[0]);
      WaitersRun(Apply(s, run[0]), run[1..]);
    }
  }

  /**
   However many callers begin a drain at once, exactly one waiter comes of it:
   over every run without cancel there is one, spawned or about to be, exactly
   once the flag is set.
   */
  lemma OneWaiterPerDrain(n: nat, run: seq<Action>)
    requires Legal(Init(n), run) && NoCancel(Init(n), run)
    ensures Sum(Waiters, Exec(Init(n), run).pc) == if Exec(Init(n), run).flag then 1 else 0
  {
    if Sum(Waiters, Init(n).pc) > 0 {
      var i := SumPositive(Waiters, Init(n).pc);
      assert false;
    }
    WaitersRun(Init(n), run);
  }

  /**
   Completion without the deadline, whatever the schedule: from any reachable
   state the threads can only take so many steps of their own, and where they
   stop, every waiter has finished or sleeps over tokens their holders keep;
   with no token out, every waiter has finished and nothing is in flight; and
   none has given up whose deadline had not passed.
   */
  lemma DrainCompletes(n: nat, before: seq<Action>, run: seq<Action>)
    requires Legal(Init(n), before) && Legal(Exec(Init(n), before), run)
    requires OnlySteps(run) && Quiet(Exec(Exec(Init(n), before), run))
    ensures var s := Exec(Init(n), before);
      var s' := Exec(s, run);
      && |run| <= Potential(s)
      && s'.inflight == s'.tokens
      && forall w :: 0 <= w < |s'.pc| ==>
           && (s'.pc[w].Idle? || s'.pc[w].WaitDone? || (s'.pc[w].Blocked? && s'.tokens > 0))
           && (s'.pc[w] == WaitDone(Expired) ==> Timeout(w) in before)
  {
    var s := Exec(Init(n), before);
    var s' := Exec(s, run);
    InitInv(n);
    InvRun(Init(n), before);
    InvRun(s, run);
    EveryScheduleEnds(s, run);
    forall w | 0 <= w < |s'.pc|
      ensures s'.pc[w].Idle? || s'.pc[w].WaitDone? || (s'.pc[w].Blocked? && s'.tokens > 0)
      ensures s'.pc[w] == WaitDone(Expired) ==> Timeout(w) in before
    {
      QuietMeans(s', w);
      DrainSegments.GaveUpRun(s, run, w);
      DrainSegments.GivesUpExactlyAtDeadline(n, before, w);
    }
    if Sum(MidFlight, s'.pc) > 0 {
      var t := SumPositive(MidFlight, s'.pc);
      assert false;
    }
  }
}
