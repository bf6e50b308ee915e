/**
 The per-VM operation locks and the jobs that take them. A lock is a row with an
 owner process and a time; a row of a dead process, or one older than its
 operation allows, may be overwritten. vm.create holds one name, vm.clone two,
 and a clone's renewal thread keeps its rows young while the worker runs.
 */
module VmLocks {
  import opened Sums

  datatype Op = Starting | Stopping | Deleting | Creating | Tuning | Snapshot | Migrating

  /** Seconds after which a lock may be overwritten. */
  function Expiry(op: Op): nat {
    match op
    case Starting => 60
    case Stopping => 60
    case Creating => 600
    case Deleting => 600
    case Migrating => 1800
    case Tuning => 300
    case Snapshot => 300
  }

  datatype Row = Row(op: Op, pid: int, lockedAt: int)

  type Table = map<string, Row>

  predicate Expired(r: Row, now: int) {
    r.lockedAt > 0 && now - r.lockedAt >= Expiry(r.op)
  }

  /** The row keeps others out: its process lives and it is not too old. */
  predicate Blocks(r: Row, alive: set<int>, now: int) {
    r.pid > 0 && r.pid in alive && !Expired(r, now)
  }

  predicate Free(t: Table, vm: string, alive: set<int>, now: int) {
    vm in t ==> !Blocks(t[vm], alive, now)
  }

  function Renewed(t: Table, vm: string, pid: int, now: int): Table {
    if vm in t && t[vm].pid == pid then t[vm := t[vm].(lockedAt := now)] else t
  }

  /** Exactly how long a lock keeps others out: while its process lives, and for the time its operation has. */
  lemma LockLifetimes(r: Row, alive: set<int>, now: int)
    ensures Blocks(r, alive, now) <==>
      && r.pid > 0 && r.pid in alive
      && (r.lockedAt <= 0 ||
          now - r.lockedAt < match r.op
                             case Starting => 60
                             case Stopping => 60
                             case Tuning => 300
                             case Snapshot => 300
                             case Creating => 600
                             case Deleting => 600
                             case Migrating => 1800)
  {
  }

  /** The lock store of one process. `open` is false when the database could not be opened. */
  class LockStore {
    const pid: int
    var open: bool
    var rows: Table

    constructor (pid: int, open: bool, rows: Table)
      ensures this.pid == pid && this.open == open && this.rows == rows
    {
      this.pid, this.open, this.rows := pid, open, rows;
    }

    /** Try to take the lock; `sqlWorks` says whether the transaction could be carried out. */
    method Lock(vm: string, op: Op, now: int, alive: set<int>, sqlWorks: bool) returns (granted: bool)
      modifies this`rows
      ensures granted <==> !open || (sqlWorks && Free(old(rows), vm, alive, now))
      ensures rows == if granted && open then old(rows)[vm := Row(op, pid, now)] else old(rows)
    {
      if !open {
        return true;
      }
      if !sqlWorks {
        return false;
      }
      if vm in rows {
        var existing := rows[vm];
        var ttl := Expiry(existing.op);
        var expired := existing.lockedAt > 0 && now - existing.lockedAt >= ttl;
        if existing.pid > 0 && existing.pid in alive && !expired {
          return false;
        }
        rows := rows - {vm};
      }
      rows := rows[vm := Row(op, pid, now)];
      assert rows == old(rows)[vm := Row(op, pid, now)];
      return true;
    }

    /** Releases whoever holds the name: the owner of the row is not compared. */
    method Unlock(vm: string)
      modifies this`rows
      ensures rows == if open then old(rows) - {vm} else old(rows)
    {
      if !open {
        return;
      }
      rows := rows - {vm};
    }

    method Renew(vm: string, now: int) returns (renewed: bool)
      modifies this`rows
      ensures renewed <==> open && vm in old(rows) && old(rows)[vm].pid == pid
      ensures rows == if renewed then old(rows)[vm := old(rows)[vm].(lockedAt := now)] else old(rows)
    {
      if !open {
        return false;
      }
      if vm in rows && rows[vm].pid == pid {
        rows := rows[vm := rows[vm].(lockedAt := now)];
        return true;
      }
      return false;
    }

    /** At start-up: drop the rows whose process is gone. */
    method Reconcile(alive: set<int>)
      requires open
      modifies this`rows
      ensures rows == map vm | vm in old(rows) && old(rows)[vm].pid > 0 && old(rows)[vm].pid in alive :: old(rows)[vm]
    {
      var stale := set vm | vm in rows && !(rows[vm].pid > 0 && rows[vm].pid in alive);
      var todo := stale;
      while todo != {}
        invariant todo <= stale
        invariant rows == old(rows) - (stale - todo)
        decreases |todo|
      {
        var vm :| vm in todo;
        todo := todo - {vm};
        rows := rows - {vm};
      }
      assert rows == old(rows) - stale;
      assert forall vm :: vm in old(rows) ==> (vm in rows <==> old(rows)[vm].pid > 0 && old(rows)[vm].pid in alive);
    }
  }

  // ----- jobs

  datatype ClonePc = WantTarget | Preflight | Working | FreeStop | FreeJoin | FreeSource | FreeTarget

  datatype RenewPc = NotStarted | AtCheck | AtSource | AtTarget | Exited

  /** The times are those of the last lock or renewal of each name. */
  datatype Job =
    | Create(name: string, at: int)
    | Clone(source: string, target: string, pc: ClonePc, holdsTarget: bool,
            sourceAt: int, targetAt: int, stop: bool, renew: RenewPc)

  datatype Ev = Took(job: nat, vm: string) | Released(job: nat, vm: string) | Touched(job: nat, vm: string)

  datatype World = World(now: int, me: int, alive: set<int>, table: Table,
                         jobs: map<nat, Job>, nextJob: nat, log: seq<Ev>)

  /**
   Time passes and other processes come and go; `works` says whether the
   database carried out the attempt to lock.
   */
  datatype Action =
    | Tick(seconds: nat, alive: set<int>)
    | StartCreate(name: string, works: bool)
    | FinishCreate(job: nat)
    | StartClone(source: string, target: string, works: bool)
    | LockTarget(job: nat, works: bool)
    | PreflightEnds(job: nat, passed: bool)
    | StartRenewal(job: nat)
    | WorkerReturns(job: nat)
    | RenewStep(job: nat)
    | FreeStep(job: nat)

  function Held(j: Job): set<string> {
    match j
    case Create(name, _) => {name}
    case Clone(source, target, pc, holdsTarget, _, _, _, _) =>
      (if pc.FreeTarget? then {} else {source}) + (if holdsTarget then {target} else {})
  }

  /** The name a step tries to lock, if it tries and the database carries it out. */
  function Wanted(w: World, a: Action): Option<string> {
    match a
    case StartCreate(name, works) => if works then Some(name) else None
    case StartClone(source, _, works) => if works then Some(source) else None
    case LockTarget(j, works) => if works && j in w.jobs && w.jobs[j].Clone? then Some(w.jobs[j].target) else None
    case _ => None
  }

  predicate Enabled(w: World, a: Action) {
    match a
    case Tick(_, alive) => w.me in alive
    case StartCreate(_, _) => true
    case FinishCreate(j) => j in w.jobs && w.jobs[j].Create?
    case StartClone(source, target, _) => source != target
    case LockTarget(j, _) => j in w.jobs && w.jobs[j].Clone? && w.jobs[j].pc.WantTarget?
    case PreflightEnds(j, _) => j in w.jobs && w.jobs[j].Clone? && w.jobs[j].pc.Preflight?
    case StartRenewal(j) => j in w.jobs && w.jobs[j].Clone? && w.jobs[j].pc.Working? && w.jobs[j].renew.NotStarted?
    case WorkerReturns(j) => j in w.jobs && w.jobs[j].Clone? && w.jobs[j].pc.Working?
    case RenewStep(j) => j in w.jobs && w.jobs[j].Clone? && !w.jobs[j].renew.NotStarted? && !w.jobs[j].renew.Exited?
    case FreeStep(j) =>
      && j in w.jobs && w.jobs[j].Clone?
      && match w.jobs[j].pc
         case FreeStop => true
         case FreeJoin => w.jobs[j].renew.Exited?
         case FreeSource => true
         case FreeTarget => true
         case _ => false
  }

  /** The job a step belongs to; a step that starts one gets the next number. */
  function Subject(w: World, a: Action): nat {
    match a
    case Tick(_, _) => w.nextJob
    case StartCreate(_, _) => w.nextJob
    case StartClone(_, _, _) => w.nextJob
    case _ => a.job
  }

  predicate Granted(w: World, a: Action) {
    Wanted(w, a).Some? && Free(w.table, Wanted(w, a).value, w.alive, w.now)
  }

  /** What a step does to the lock table, if anything. */
  function Effect(w: World, a: Action): Option<Ev>
    requires Enabled(w, a)
  {
    match a
    case StartCreate(name, _) => if Granted(w, a) then Some(Took(w.nextJob, name)) else None
    case FinishCreate(j) => Some(Released(j, w.jobs[j].name))
    case StartClone(source, _, _) => if Granted(w, a) then Some(Took(w.nextJob, source)) else None
    case LockTarget(j, _) => if Granted(w, a) then Some(Took(j, w.jobs[j].target)) else None
    case RenewStep(j) =>
      if w.jobs[j].renew.AtSource? then Some(Touched(j, w.jobs[j].source))
      else if w.jobs[j].renew.AtTarget? then Some(Touched(j, w.jobs[j].target))
      else None
    case FreeStep(j) =>
      if w.jobs[j].pc.FreeSource? then Some(Released(j, w.jobs[j].source))
      else if w.jobs[j].pc.FreeTarget? && w.jobs[j].holdsTarget then Some(Released(j, w.jobs[j].target))
      else None
    case _ => None
  }

  function TableAfter(w: World, a: Action): Table
    requires Enabled(w, a)
  {
    match Effect(w, a)
    case None => w.table
    case Some(Took(_, vm)) => w.table[vm := Row(if a.StartClone? then Snapshot else Creating, w.me, w.now)]
    case Some(Released(_, vm)) => w.table - {vm}
    case Some(Touched(_, vm)) => Renewed(w.table, vm, w.me, w.now)
  }

  /** The subject after the step; none when it has ended or was refused. */
  function JobAfter(w: World, a: Action): Option<Job>
    requires Enabled(w, a)
  {
    match a
    case Tick(_, _) => None
    case StartCreate(name, _) => if Granted(w, a) then Some(Create(name, w.now)) else None
    case FinishCreate(_) => None
    case StartClone(source, target, _) =>
      if Granted(w, a) then Some(Clone(source, target, WantTarget, false, w.now, 0, false, NotStarted)) else None
    case LockTarget(j, _) =>
      if Granted(w, a) then Some(w.jobs[j].(pc := Preflight, holdsTarget := true, targetAt := w.now))
      else Some(w.jobs[j].(pc := FreeSource))
    case PreflightEnds(j, passed) => Some(w.jobs[j].(pc := if passed then Working else FreeSource))
    case StartRenewal(j) => Some(w.jobs[j].(renew := AtCheck))
    case WorkerReturns(j) => Some(w.jobs[j].(pc := if w.jobs[j].renew.NotStarted? then FreeSource else FreeStop))
    case RenewStep(j) =>
      var c := w.jobs[j];
      if c.renew.AtCheck? then Some(c.(renew := if c.stop then Exited else AtSource))
      else if c.renew.AtSource? then Some(c.(renew := AtTarget, sourceAt := w.now))
      else Some(c.(renew := AtCheck, targetAt := w.now))
    case FreeStep(j) =>
      var c := w.jobs[j];
      if c.pc.FreeStop? then Some(c.(pc := FreeJoin, stop := true))
      else if c.pc.FreeJoin? then Some(c.(pc := FreeSource))
      else if c.pc.FreeSource? then Some(c.(pc := FreeTarget))
      else None
  }

  function Apply(w: World, a: Action): World
    requires Enabled(w, a)
  {
    World(
      if a.Tick? then w.now + a.seconds else w.now,
      w.me,
      if a.Tick? then a.alive else w.alive,
      TableAfter(w, a),
      match JobAfter(w, a) case Some(job) => w.jobs[Subject(w, a) := job] case None => w.jobs - {Subject(w, a)},
      if JobAfter(w, a).Some? && Subject(w, a) == w.nextJob then w.nextJob + 1 else w.nextJob,
      match Effect(w, a) case Some(e) => w.log + [e] case None => w.log)
  }

  predicate Legal(w: World, run: seq<Action>)
    decreases |run|
  {
    run == [] || (Enabled(w, run[0]) && Legal(Apply(w, run[0]), run[1..]))
  }

  function Exec(w: World, run: seq<Action>): World
    requires Legal(w, run)
    decreases |run|
  {
    if run == [] then w else Exec(Apply(w, run[0]), run[1..])
  }

  /** The process starts with no jobs; rows of other processes may be there. */
  predicate Initial(w: World) {
    && w.now > 0 && w.me > 0 && w.me in w.alive
    && w.jobs == map[] && w.nextJob == 0 && w.log == []
    && forall vm :: vm in w.table ==> w.table[vm].pid != w.me
  }

  // ----- what holds in every state, however the locks age

  /** A clone's program points agree: renewal runs only while the names are held, and has ended before they go. */
  predicate CloneOk(c: Job)
    requires c.Clone?
  {
    && c.source != c.target
    && (c.pc.WantTarget? ==> !c.holdsTarget)
    && (c.pc.Preflight? || c.pc.Working? || c.pc.FreeStop? || c.pc.FreeJoin? ==> c.holdsTarget)
    && (c.renew.AtCheck? || c.renew.AtSource? || c.renew.AtTarget? ==>
          c.pc.Working? || c.pc.FreeStop? || c.pc.FreeJoin?)
    && (c.renew.Exited? ==> c.stop)
    && (c.stop ==> c.pc.FreeJoin? || c.pc.FreeSource? || c.pc.FreeTarget?)
    && (c.pc.FreeJoin? ==> c.stop)
    && (c.pc.FreeStop? || c.pc.FreeJoin? ==> !c.renew.NotStarted?)
  }

  predicate Shaped(w: World) {
    && w.now > 0 && w.me > 0 && w.me in w.alive
    && forall j :: j in w.jobs ==> j < w.nextJob && (w.jobs[j].Clone? ==> CloneOk(w.jobs[j]))
  }

  function TookTimes(j: nat, vm: string): Ev -> nat {
    (e: Ev) => if e == Took(j, vm) then 1 else 0
  }

  function ReleasedTimes(j: nat, vm: string): Ev -> nat {
    (e: Ev) => if e == Released(j, vm) then 1 else 0
  }

  /** Per job and name: released at most as often as taken, taken at most once, and held in between. */
  ghost predicate AccountOk(w: World, j: nat, vm: string) {
    var taken, back := Sum(TookTimes(j, vm), w.log), Sum(ReleasedTimes(j, vm), w.log);
    && back <= taken <= 1
    && (taken - back == 1 <==> j in w.jobs && vm in Held(w.jobs[j]))
    && (j >= w.nextJob ==> taken == 0)
    && (j in w.jobs && w.jobs[j].Clone? && w.jobs[j].pc.WantTarget? && vm == w.jobs[j].target ==> taken == 0)
  }

  ghost predicate Accounts(w: World) {
    forall j: nat, vm: string :: AccountOk(w, j, vm)
  }

  /** What the subject of a step holds, before and after: the effect says exactly what changes. */
  lemma HeldMoves(w: World, a: Action)
    requires Shaped(w) && Enabled(w, a)
    ensures var j := Subject(w, a);
      var before := if j in w.jobs then Held(w.jobs[j]) else {};
      var after := if JobAfter(w, a).Some? then Held(JobAfter(w, a).value) else {};
      match Effect(w, a)
      case None => after == before
      case Some(Took(k, vm)) => k == j && vm !in before && after == before + {vm}
      case Some(Released(k, vm)) => k == j && vm in before && after == before - {vm}
      case Some(Touched(k, vm)) => k == j && vm in before && after == before
  {
  }

  lemma CloneOkStep(w: World, a: Action)
    requires Shaped(w) && Enabled(w, a) && JobAfter(w, a).Some? && JobAfter(w, a).value.Clone?
    ensures CloneOk(JobAfter(w, a).value)
  {
  }

  lemma ShapedStep(w: World, a: Action)
    requires Shaped(w) && Enabled(w, a)
    ensures Shaped(Apply(w, a))
  {
    if JobAfter(w, a).Some? && JobAfter(w, a).value.Clone? {
      CloneOkStep(w, a);
    }
  }

  /** Every other job is as it was. */
  lemma OthersKept(w: World, a: Action, k: nat)
    requires Shaped(w) && Enabled(w, a) && k != Subject(w, a)
    ensures k in Apply(w, a).jobs <==> k in w.jobs
    ensures k in w.jobs ==> Apply(w, a).jobs[k] == w.jobs[k]
  {
  }

  lemma CountMoves(w: World, a: Action, j: nat, vm: string)
    requires Enabled(w, a)
    ensures var log' := Apply(w, a).log;
      && Sum(TookTimes(j, vm), log') == Sum(TookTimes(j, vm), w.log) + (if Effect(w, a) == Some(Took(j, vm)) then 1 else 0)
      && Sum(ReleasedTimes(j, vm), log')
         == Sum(ReleasedTimes(j, vm), w.log) + (if Effect(w, a) == Some(Released(j, vm)) then 1 else 0)
  {
    if Effect(w, a).Some? {
      SumAppend(TookTimes(j, vm), w.log, Effect(w, a).value);
      SumAppend(ReleasedTimes(j, vm), w.log, Effect(w, a).value);
    }
  }

  /** Only a fresh job, or a clone about to lock its target, takes a name; each has not taken it before. */
  lemma TakesOnce(w: World, a: Action, j: nat, vm: string)
    requires Shaped(w) && Enabled(w, a) && AccountOk(w, j, vm) && Effect(w, a) == Some(Took(j, vm))
    ensures Sum(TookTimes(j, vm), w.log) == 0
  {
  }

  lemma AccountStep(w: World, a: Action, j: nat, vm: string)
    requires Shaped(w) && AccountOk(w, j, vm) && Enabled(w, a)
    ensures AccountOk(Apply(w, a), j, vm)
  {
    HeldMoves(w, a);
    CountMoves(w, a, j, vm);
    if Effect(w, a) == Some(Took(j, vm)) {
      TakesOnce(w, a, j, vm);
    }
    if j != Subject(w, a) {
      OthersKept(w, a, j);
    }
  }

  lemma AccountsStep(w: World, a: Action)
    requires Shaped(w) && Accounts(w) && Enabled(w, a)
    ensures Accounts(Apply(w, a))
  {
    forall j: nat, vm: string ensures AccountOk(Apply(w, a), j, vm) {
      assert AccountOk(w, j, vm);
      AccountStep(w, a, j, vm);
    }
  }

  /** If the step renews a name, its job holds that name. */
  predicate TouchesHeld(w: World, a: Action)
    requires Enabled(w, a)
  {
    Effect(w, a).Some? && Effect(w, a).value.Touched? ==>
      var e := Effect(w, a).value;
      e.job in w.jobs && e.vm in Held(w.jobs[e.job])
  }

  lemma {:induction false} RunKeeps(w: World, run: seq<Action>)
    requires Shaped(w) && Accounts(w) && Legal(w, run)
    ensures Shaped(Exec(w, run)) && Accounts(Exec(w, run))
    decreases |run|
  {
    if run != [] {
      ShapedStep(w, run[0]);
      AccountsStep(w, run[0]);
      RunKeeps(Apply(w, run[0]), run[1..]);
    }
  }

  lemma InitialKeeps(w: World)
    requires Initial(w)
    ensures Shaped(w) && Accounts(w) && Exclusive(w)
  {
    forall j: nat, vm: string ensures AccountOk(w, j, vm) {
    }
  }

  /**
   Over every interleaving of create and clone jobs, whatever the clock does:
   each job releases each name exactly as often as it took it, at most once,
   and whatever step comes next renews only a name its job then holds.
   */
  lemma ReleasedExactlyOnce(w: World, run: seq<Action>, j: nat, vm: string, next: Action)
    requires Initial(w) && Legal(w, run) && Enabled(Exec(w, run), next)
    ensures var w' := Exec(w, run);
      var taken, back := Sum(TookTimes(j, vm), w'.log), Sum(ReleasedTimes(j, vm), w'.log);
      && back <= taken <= 1
      && (taken - back == 1 <==> j in w'.jobs && vm in Held(w'.jobs[j]))
      && TouchesHeld(w', next)
  {
    InitialKeeps(w);
    RunKeeps(w, run);
    assert AccountOk(Exec(w, run), j, vm);
    HeldMoves(Exec(w, run), next);
  }

  // ----- exclusion, and when age defeats it

  /** Two live jobs hold no name in common. */
  predicate Disjoint(w: World) {
    forall j, k :: j in w.jobs && k in w.jobs && j != k ==> Held(w.jobs[j]) !! Held(w.jobs[k])
  }

  /** The row a job's hold is recorded in: ours, of the job's operation, dated by its last lock or renewal. */
  predicate RowsMatch(w: World, j: Job) {
    match j
    case Create(name, at) => name in w.table && w.table[name] == Row(Creating, w.me, at) && 0 < at <= w.now
    case Clone(source, target, pc, holdsTarget, sourceAt, targetAt, _, _) =>
      && (!pc.FreeTarget? ==> source in w.table && w.table[source] == Row(Snapshot, w.me, sourceAt) && 0 < sourceAt <= w.now)
      && (holdsTarget ==> target in w.table && w.table[target] == Row(Creating, w.me, targetAt) && 0 < targetAt <= w.now)
  }

  /** This process's rows are exactly the names its live jobs hold. */
  ghost predicate RowsExact(w: World) {
    && (forall j :: j in w.jobs ==> RowsMatch(w, w.jobs[j]))
    && forall vm :: vm in w.table && w.table[vm].pid == w.me ==> exists j :: j in w.jobs && vm in Held(w.jobs[j])
  }

  ghost predicate Exclusive(w: World) {
    Disjoint(w) && RowsExact(w)
  }

  /** The step finds a lock of this very process too old, and overwrites it. */
  predicate Overtakes(w: World, a: Action) {
    var wanted := Wanted(w, a);
    wanted.Some? && wanted.value in w.table && w.table[wanted.value].pid == w.me && Expired(w.table[wanted.value], w.now)
  }

  /** A row of this process stands for exactly one live job. */
  lemma HolderOf(w: World, vm: string) returns (j: nat)
    requires Exclusive(w) && vm in w.table && w.table[vm].pid == w.me
    ensures j in w.jobs && vm in Held(w.jobs[j])
    ensures forall k :: k in w.jobs && vm in Held(w.jobs[k]) ==> k == j
  {
    j :| j in w.jobs && vm in Held(w.jobs[j]);
  }

  /** A held name is in the table, as a row of this process. */
  lemma HeldInTable(w: World, j: nat, vm: string)
    requires RowsExact(w) && j in w.jobs && vm in Held(w.jobs[j])
    ensures vm in w.table && w.table[vm].pid == w.me
  {
    assert RowsMatch(w, w.jobs[j]);
  }

  /** The name a step takes, unless it overtakes, is held by no live job. */
  lemma TakesFree(w: World, a: Action, vm: string, k: nat)
    requires Shaped(w) && Exclusive(w) && Enabled(w, a) && !Overtakes(w, a)
    requires Effect(w, a) == Some(Took(Subject(w, a), vm)) && k in w.jobs
    ensures vm !in Held(w.jobs[k])
  {
    if vm in Held(w.jobs[k]) {
      HeldInTable(w, k, vm);
      assert false;
    }
  }

  lemma DisjointStep(w: World, a: Action)
    requires Shaped(w) && Exclusive(w) && Enabled(w, a) && !Overtakes(w, a)
    ensures Disjoint(Apply(w, a))
  {
    var w' := Apply(w, a);
    var s := Subject(w, a);
    HeldMoves(w, a);
    forall j, k | j in w'.jobs && k in w'.jobs && j != k ensures Held(w'.jobs[j]) !! Held(w'.jobs[k]) {
      var other := if j == s then k else j;
      OthersKept(w, a, other);
      if j != s && k != s {
        OthersKept(w, a, k);
      } else if Effect(w, a).Some? && Effect(w, a).value.Took? {
        TakesFree(w, a, Effect(w, a).value.vm, other);
      }
    }
  }

  /** The subject's rows after its step. */
  lemma SubjectRows(w: World, a: Action)
    requires Shaped(w) && Enabled(w, a) && JobAfter(w, a).Some?
    requires Subject(w, a) in w.jobs ==> RowsMatch(w, w.jobs[Subject(w, a)])
    ensures RowsMatch(Apply(w, a), JobAfter(w, a).value)
  {
  }

  /** A row that the step does not name is as it was. */
  lemma RowsKept(w: World, a: Action, j: Job)
    requires Enabled(w, a) && RowsMatch(w, j)
    requires Effect(w, a).Some? ==> Effect(w, a).value.vm !in Held(j)
    ensures RowsMatch(Apply(w, a), j)
  {
  }

  lemma RowsStep(w: World, a: Action, k: nat)
    requires Shaped(w) && Exclusive(w) && Enabled(w, a) && !Overtakes(w, a) && k in Apply(w, a).jobs
    ensures RowsMatch(Apply(w, a), Apply(w, a).jobs[k])
  {
    var s := Subject(w, a);
    if k == s {
      SubjectRows(w, a);
    } else {
      OthersKept(w, a, k);
      HeldMoves(w, a);
      if Effect(w, a).Some? {
        if Effect(w, a).value.Took? {
          TakesFree(w, a, Effect(w, a).value.vm, k);
        }
        RowsKept(w, a, w.jobs[k]);
      } else {
        RowsKept(w, a, w.jobs[k]);
      }
    }
  }

  /** A row of ours after the step still has its holder. */
  lemma HolderStep(w: World, a: Action, vm: string)
    requires Shaped(w) && Exclusive(w) && Enabled(w, a) && !Overtakes(w, a)
    requires vm in Apply(w, a).table && Apply(w, a).table[vm].pid == w.me
    ensures exists j :: j in Apply(w, a).jobs && vm in Held(Apply(w, a).jobs[j])
  {
    var w' := Apply(w, a);
    var s := Subject(w, a);
    HeldMoves(w, a);
    if Effect(w, a) == Some(Took(s, vm)) {
      assert s in w'.jobs && vm in Held(w'.jobs[s]);
    } else {
      var j := HolderOf(w, vm);
      if j != s {
        OthersKept(w, a, j);
      }
      assert j in w'.jobs && vm in Held(w'.jobs[j]);
    }
  }

  lemma KeptStep(w: World, a: Action)
    requires Shaped(w) && Exclusive(w) && Enabled(w, a) && !Overtakes(w, a)
    ensures Exclusive(Apply(w, a))
  {
    var w' := Apply(w, a);
    DisjointStep(w, a);
    forall k | k in w'.jobs ensures RowsMatch(w', w'.jobs[k]) {
      RowsStep(w, a, k);
    }
    forall vm | vm in w'.table && w'.table[vm].pid == w'.me ensures exists j :: j in w'.jobs && vm in Held(w'.jobs[j]) {
      HolderStep(w, a, vm);
    }
  }

  /** An overtaking step leaves two jobs holding one name. */
  lemma OvertakenStep(w: World, a: Action)
    requires Shaped(w) && Exclusive(w) && Enabled(w, a) && Overtakes(w, a)
    ensures !Disjoint(Apply(w, a))
  {
    var vm := Wanted(w, a).value;
    var holder := HolderOf(w, vm);
    HeldMoves(w, a);
    OthersKept(w, a, holder);
    var w' := Apply(w, a);
    assert vm in Held(w'.jobs[holder]) && vm in Held(w'.jobs[Subject(w, a)]);
  }

  /** Exactly when a step keeps exclusion. */
  lemma ExclusionStep(w: World, a: Action)
    requires Shaped(w) && Exclusive(w) && Enabled(w, a)
    ensures Exclusive(Apply(w, a)) <==> !Overtakes(w, a)
  {
    if Overtakes(w, a) {
      OvertakenStep(w, a);
    } else {
      KeptStep(w, a);
    }
  }

  predicate NeverOvertakes(w: World, run: seq<Action>)
    requires Legal(w, run)
    decreases |run|
  {
    run == [] || (!Overtakes(w, run[0]) && NeverOvertakes(Apply(w, run[0]), run[1..]))
  }

  ghost predicate ExclusiveThroughout(w: World, run: seq<Action>)
    requires Legal(w, run)
    decreases |run|
  {
    Exclusive(w) && (run == [] || ExclusiveThroughout(Apply(w, run[0]), run[1..]))
  }

  lemma {:induction false} ExclusionRun(w: World, run: seq<Action>)
    requires Shaped(w) && Exclusive(w) && Legal(w, run)
    ensures ExclusiveThroughout(w, run) <==> NeverOvertakes(w, run)
    decreases |run|
  {
    if run != [] {
      var w' := Apply(w, run[0]);
      ExclusionStep(w, run[0]);
      ShapedStep(w, run[0]);
      if !Overtakes(w, run[0]) {
        ExclusionRun(w', run[1..]);
      } else {
        assert !Exclusive(w');
      }
    }
  }

  /**
   Over every interleaving from start-up: this process's rows are exactly the
   disjoint union of the names its live jobs hold, throughout the run, if and
   only if no step of the run overwrites one of its own locks for age.
   */
  lemma LocksExcludeUnlessOvertaken(w: World, run: seq<Action>)
    requires Initial(w) && Legal(w, run)
    ensures ExclusiveThroughout(w, run) <==> NeverOvertakes(w, run)
  {
    InitialKeeps(w);
    ExclusionRun(w, run);
  }

  /** How old a lock must be before a step can overtake it: what the renewal thread must, and create cannot, prevent. */
  predicate Late(j: Job, vm: string, now: int) {
    match j
    case Create(name, at) => vm == name && now - at >= 600
    case Clone(source, target, pc, holdsTarget, sourceAt, targetAt, _, _) =>
      || (vm == source && !pc.FreeTarget? && now - sourceAt >= 300)
      || (vm == target && holdsTarget && now - targetAt >= 600)
  }

  lemma LateIsHeld(j: Job, vm: string, now: int)
    requires Late(j, vm, now)
    ensures vm in Held(j)
  {
  }

  /** The age of a held row is the time since its holder locked or renewed it. */
  lemma ExpiredIsLate(w: World, j: nat, vm: string)
    requires Shaped(w) && RowsExact(w) && j in w.jobs && vm in Held(w.jobs[j]) && vm in w.table
    ensures Expired(w.table[vm], w.now) <==> Late(w.jobs[j], vm, w.now)
  {
    assert RowsMatch(w, w.jobs[j]) && (w.jobs[j].Clone? ==> CloneOk(w.jobs[j]));
  }

  lemma OvertakenExactlyWhenLate(w: World, a: Action)
    requires Shaped(w) && Exclusive(w) && Enabled(w, a)
    ensures Overtakes(w, a) <==>
      Wanted(w, a).Some? && exists j :: j in w.jobs && Late(w.jobs[j], Wanted(w, a).value, w.now)
  {
    hide Late, RowsExact, Shaped, Expired, Held;
    var wanted := Wanted(w, a);
    if wanted.Some? {
      var vm := wanted.value;
      if vm in w.table && w.table[vm].pid == w.me {
        var j := HolderOf(w, vm);
        ExpiredIsLate(w, j, vm);
      }
      forall j | j in w.jobs && Late(w.jobs[j], vm, w.now) ensures Overtakes(w, a) {
        LateIsHeld(w.jobs[j], vm, w.now);
        HeldInTable(w, j, vm);
        ExpiredIsLate(w, j, vm);
      }
    }
  }

  /** At every attempt to lock a name, whoever holds it has locked or renewed it recently enough. */
  predicate Prompt(w: World, run: seq<Action>)
    requires Legal(w, run)
    decreases |run|
  {
    run == [] ||
    (&& (Wanted(w, run[0]).Some? ==> forall j :: j in w.jobs ==> !Late(w.jobs[j], Wanted(w, run[0]).value, w.now))
     && Prompt(Apply(w, run[0]), run[1..]))
  }

  lemma {:induction false} PromptRun(w: World, run: seq<Action>)
    requires Shaped(w) && Exclusive(w) && Legal(w, run)
    ensures NeverOvertakes(w, run) <==> Prompt(w, run)
    decreases |run|
  {
    if run != [] {
      OvertakenExactlyWhenLate(w, run[0]);
      if !Overtakes(w, run[0]) {
        ShapedStep(w, run[0]);
        ExclusionStep(w, run[0]);
        PromptRun(Apply(w, run[0]), run[1..]);
      }
    }
  }

  /**
   In terms of time: the locks exclude throughout a run exactly when no name is
   asked for while its holder is late, that is, a create ten minutes old or a
   clone that has not renewed its source for five or its target for ten.
   */
  lemma LocksExcludeWhilePrompt(w: World, run: seq<Action>)
    requires Initial(w) && Legal(w, run)
    ensures ExclusiveThroughout(w, run) <==> Prompt(w, run)
  {
    InitialKeeps(w);
    ExclusionRun(w, run);
    PromptRun(w, run);
  }

  /** Two creates of one name: the second, ten minutes on, is granted while the first still runs. */
  lemma CreateOvertaken() returns (w: World, run: seq<Action>)
    ensures Initial(w) && Legal(w, run) && !Disjoint(Exec(w, run))
  {
    w := World(1, 7, {7}, map[], map[], 0, []);
    var w1 := Apply(w, StartCreate("vm", true));
    var w2 := Apply(w1, Tick(600, {7}));
    var w3 := Apply(w2, StartCreate("vm", true));
    run := [StartCreate("vm", true), Tick(600, {7}), StartCreate("vm", true)];
    assert run[1..][1..][1..] == [];
    assert Legal(w2, run[1..][1..]) && Legal(w1, run[1..]);
    assert Exec(w, run) == Exec(w1, run[1..]) == Exec(w2, run[1..][1..]) == w3;
    assert w3.jobs[0] == Create("vm", 1) && w3.jobs[1] == Create("vm", 601);
    assert "vm" in Held(w3.jobs[0]) && "vm" in Held(w3.jobs[1]);
  }

  lemma FourSteps(w: World, a: Action, b: Action, c: Action, d: Action)
    requires Enabled(w, a) && Enabled(Apply(w, a), b) && Enabled(Apply(Apply(w, a), b), c)
    requires Enabled(Apply(Apply(Apply(w, a), b), c), d)
    ensures Legal(w, [a, b, c, d]) && Exec(w, [a, b, c, d]) == Apply(Apply(Apply(Apply(w, a), b), c), d)
  {
    hide Enabled, Apply;
    var w1 := Apply(w, a);
    var w2 := Apply(w1, b);
    var w3 := Apply(w2, c);
    assert [a, b, c, d][1..] == [b, c, d] && [b, c, d][1..] == [c, d] && [c, d][1..] == [d] && [d][1..] == [];
    assert Legal(w3, [d]) && Legal(w2, [c, d]) && Legal(w1, [b, c, d]);
    assert Exec(w3, [d]) == Apply(w3, d) && Exec(w2, [c, d]) == Exec(w3, [d]);
    assert Exec(w1, [b, c, d]) == Exec(w2, [c, d]) && Exec(w, [a, b, c, d]) == Exec(w1, [b, c, d]);
  }

  // ----- what a job that has ended leaves in the table

  /** In the run, nobody but job `j` takes, renews or releases `vm`. */
  predicate OnlyBy(w: World, run: seq<Action>, j: nat, vm: string)
    requires Legal(w, run)
    decreases |run|
  {
    run == [] ||
    (&& (Effect(w, run[0]).Some? && Effect(w, run[0]).value.vm == vm ==> Effect(w, run[0]).value.job == j)
     && OnlyBy(Apply(w, run[0]), run[1..], j, vm))
  }

  predicate SameRow(t: Table, t': Table, vm: string) {
    (vm in t <==> vm in t') && (vm in t ==> t[vm] == t'[vm])
  }

  /** Before the job takes the name its row is as in `found`; after the release there is none. */
  ghost predicate TraceOk(found: Table, w: World, j: nat, vm: string) {
    var taken, back := Sum(TookTimes(j, vm), w.log), Sum(ReleasedTimes(j, vm), w.log);
    && (taken == 0 ==> SameRow(found, w.table, vm))
    && (taken == 1 && back == 1 ==> vm !in w.table)
  }

  lemma TraceStep(found: Table, w: World, a: Action, j: nat, vm: string)
    requires Shaped(w) && AccountOk(w, j, vm) && Enabled(w, a) && TraceOk(found, w, j, vm)
    requires Effect(w, a).Some? && Effect(w, a).value.vm == vm ==> Effect(w, a).value.job == j
    ensures TraceOk(found, Apply(w, a), j, vm)
  {
    HeldMoves(w, a);
    CountMoves(w, a, j, vm);
    if Effect(w, a) == Some(Took(j, vm)) {
      TakesOnce(w, a, j, vm);
    }
  }

  lemma {:induction false} TraceRun(found: Table, w: World, run: seq<Action>, j: nat, vm: string)
    requires Shaped(w) && Accounts(w) && Legal(w, run) && OnlyBy(w, run, j, vm) && TraceOk(found, w, j, vm)
    ensures TraceOk(found, Exec(w, run), j, vm)
    decreases |run|
  {
    if run != [] {
      assert AccountOk(w, j, vm);
      TraceStep(found, w, run[0], j, vm);
      ShapedStep(w, run[0]);
      AccountsStep(w, run[0]);
      TraceRun(found, Apply(w, run[0]), run[1..], j, vm);
    }
  }

  /**
   Over every interleaving, for any job that started in the run and has ended,
   however it ended (a clone refused at its target, one whose preflight failed, a
   finished one), and any name that no other job touched meanwhile: the row of
   the name is as it was found if and only if the job never took the name or
   there was no row to begin with.
   */
  lemma EndedJobRestores(w: World, run: seq<Action>, j: nat, vm: string)
    requires Shaped(w) && Accounts(w) && Legal(w, run) && OnlyBy(w, run, j, vm)
    requires j >= w.nextJob && j !in Exec(w, run).jobs
    ensures SameRow(w.table, Exec(w, run).table, vm) <==>
      (Sum(TookTimes(j, vm), Exec(w, run).log) == 0 || vm !in w.table)
  {
    assert AccountOk(w, j, vm);
    TraceRun(w.table, w, run, j, vm);
    RunKeeps(w, run);
    assert AccountOk(Exec(w, run), j, vm);
  }

  /**
   Such an ending, uninterrupted: a clone refused at its target gives back the
   source, and never took the target.
   */
  lemma RefusedClone(w: World, source: string, target: string)
    requires source != target && Free(w.table, source, w.alive, w.now) && w.me in w.alive && w.me > 0
    requires !Free(w.table, target, w.alive, w.now)
    ensures var j := w.nextJob;
      var run := [StartClone(source, target, true), LockTarget(j, true), FreeStep(j), FreeStep(j)];
      && Legal(w, run)
      && (Exec(w, run).table == w.table <==> source !in w.table)
      && Exec(w, run).jobs == w.jobs - {w.nextJob}
  {
    var j := w.nextJob;
    var run := [StartClone(source, target, true), LockTarget(j, true), FreeStep(j), FreeStep(j)];
    var w1 := Apply(w, run[0]);
    var w2 := Apply(w1, run[1]);
    var w3 := Apply(w2, run[2]);
    var w4 := Apply(w3, run[3]);
    FourSteps(w, run[0], run[1], run[2], run[3]);
    assert w4.table == w.table - {source};
  }

  // ----- what a job does when nothing is in its way

  /** A clone whose two names are free takes both, passes its preflight, and starts to renew. */
  lemma CloneStarts(w: World, source: string, target: string)
    requires source != target && Free(w.table, source, w.alive, w.now) && Free(w.table, target, w.alive, w.now)
    ensures var j := w.nextJob;
      var run := [StartClone(source, target, true), LockTarget(j, true), PreflightEnds(j, true), StartRenewal(j)];
      && Legal(w, run)
      && var w' := Exec(w, run);
         && w'.jobs == w.jobs[j := Clone(source, target, Working, true, w.now, w.now, false, AtCheck)]
         && w'.table == w.table[source := Row(Snapshot, w.me, w.now)][target := Row(Creating, w.me, w.now)]
  {
    var j := w.nextJob;
    var run := [StartClone(source, target, true), LockTarget(j, true), PreflightEnds(j, true), StartRenewal(j)];
    var w1 := Apply(w, run[0]);
    assert w1.jobs[j] == Clone(source, target, WantTarget, false, w.now, 0, false, NotStarted);
    assert w1.table == w.table[source := Row(Snapshot, w.me, w.now)];
    var w2 := Apply(w1, run[1]);
    assert w2.jobs[j] == Clone(source, target, Preflight, true, w.now, w.now, false, NotStarted);
    var w3 := Apply(w2, run[2]);
    assert w3.jobs[j] == Clone(source, target, Working, true, w.now, w.now, false, NotStarted);
    FourSteps(w, run[0], run[1], run[2], run[3]);
    assert Exec(w, run) == Apply(w3, run[3]);
  }

  /** One round of the renewal thread dates both rows of its clone anew. */
  lemma RenewalRefreshes(w: World, j: nat)
    requires Shaped(w) && j in w.jobs && w.jobs[j].Clone? && RowsMatch(w, w.jobs[j])
    requires w.jobs[j].renew.AtCheck? && !w.jobs[j].stop
    ensures Legal(w, [RenewStep(j), RenewStep(j), RenewStep(j)])
    ensures var c := w.jobs[j];
      var w' := Exec(w, [RenewStep(j), RenewStep(j), RenewStep(j)]);
      && w'.jobs == w.jobs[j := c.(sourceAt := w.now, targetAt := w.now)]
      && w'.table == w.table[c.source := Row(Snapshot, w.me, w.now)][c.target := Row(Creating, w.me, w.now)]
  {
    var c := w.jobs[j];
    assert CloneOk(c);
    var w1 := Apply(w, RenewStep(j));
    assert w1 == w.(jobs := w.jobs[j := c.(renew := AtSource)]);
    var w2 := Apply(w1, RenewStep(j));
    assert w2.jobs == w.jobs[j := c.(renew := AtTarget, sourceAt := w.now)];
    assert w2.table == w.table[c.source := Row(Snapshot, w.me, w.now)];
    var w3 := Apply(w2, RenewStep(j));
    assert w3.jobs == w.jobs[j := c.(sourceAt := w.now, targetAt := w.now)];
    ThreeSteps(w, RenewStep(j), RenewStep(j), RenewStep(j));
  }

  lemma ThreeSteps(w: World, a: Action, b: Action, c: Action)
    requires Enabled(w, a) && Enabled(Apply(w, a), b) && Enabled(Apply(Apply(w, a), b), c)
    ensures Legal(w, [a, b, c]) && Exec(w, [a, b, c]) == Apply(Apply(Apply(w, a), b), c)
  {
    hide Enabled, Apply;
    var w1 := Apply(w, a);
    var w2 := Apply(w1, b);
    assert [a, b, c][1..] == [b, c] && [b, c][1..] == [c] && [c][1..] == [];
    assert Legal(w2, [c]) && Legal(w1, [b, c]);
    assert Exec(w2, [c]) == Apply(w2, c) && Exec(w1, [b, c]) == Exec(w2, [c]);
    assert Exec(w, [a, b, c]) == Exec(w1, [b, c]);
  }

  /** How far a job is from its end. */
  function Remaining(j: Job): nat {
    match j
    case Create(_, _) => 1
    case Clone(_, _, pc, _, _, _, _, renew) =>
      match pc
      case FreeTarget => 1
      case FreeSource => 2
      case FreeJoin => 3 + (if renew.AtSource? then 3 else if renew.AtTarget? then 2 else if renew.AtCheck? then 1 else 0)
      case FreeStop => 7
      case _ => 8
  }

  /** A step the job can take by itself on its way out. */
  function WayOut(w: World, j: nat): Action
    requires j in w.jobs
  {
    match w.jobs[j]
    case Create(_, _) => FinishCreate(j)
    case Clone(_, _, pc, _, _, _, _, renew) =>
      match pc
      case WantTarget => LockTarget(j, false)
      case Preflight => PreflightEnds(j, false)
      case Working => WorkerReturns(j)
      case FreeJoin => if renew.Exited? then FreeStep(j) else RenewStep(j)
      case _ => FreeStep(j)
  }

  /** Nothing blocks it, it brings the end nearer, and outside the job's names the table stays as it is. */
  lemma WayOutWorks(w: World, j: nat)
    requires Shaped(w) && j in w.jobs
    ensures Enabled(w, WayOut(w, j)) && Subject(w, WayOut(w, j)) == j
    ensures !(Effect(w, WayOut(w, j)).Some? && Effect(w, WayOut(w, j)).value.Took?)
    ensures JobAfter(w, WayOut(w, j)).Some? ==> Remaining(JobAfter(w, WayOut(w, j)).value) < Remaining(w.jobs[j])
  {
    assert w.jobs[j].Clone? ==> CloneOk(w.jobs[j]);
  }

  lemma OutsideKept(w: World, a: Action)
    requires Shaped(w) && Enabled(w, a) && Subject(w, a) in w.jobs
    requires !(Effect(w, a).Some? && Effect(w, a).value.Took?)
    ensures Apply(w, a).table - (if JobAfter(w, a).Some? then Held(JobAfter(w, a).value) else {})
         == w.table - Held(w.jobs[Subject(w, a)])
  {
    HeldMoves(w, a);
  }

  /**
   From every reachable world every job can end by steps of its own, the join of
   its renewal thread included, and has then given back exactly its names.
   */
  lemma {:induction false} EveryJobCanEnd(w: World, j: nat) returns (run: seq<Action>)
    requires Shaped(w) && j in w.jobs
    ensures Legal(w, run) && forall i :: 0 <= i < |run| ==> !run[i].Tick? && Subject(w, run[i]) == j
    ensures Exec(w, run).jobs == w.jobs - {j} && Exec(w, run).table == w.table - Held(w.jobs[j])
    decreases Remaining(w.jobs[j])
  {
    hide Enabled, Shaped, Effect, JobAfter, TableAfter, Held, WayOut;
    var a := WayOut(w, j);
    WayOutWorks(w, j);
    OutsideKept(w, a);
    ShapedStep(w, a);
    var w' := Apply(w, a);
    AfterStep(w, a);
    if j in w'.jobs {
      var rest := EveryJobCanEnd(w', j);
      assert ([a] + rest)[1..] == rest;
      run := [a] + rest;
      assert w'.jobs - {j} == w.jobs - {j};
      SubjectsKept(w, w', rest, j);
    } else {
      run := [a];
      assert [a][1..] == [];
      assert w'.table - {} == w'.table;
    }
  }

  lemma AfterStep(w: World, a: Action)
    requires Shaped(w) && Enabled(w, a) && Subject(w, a) in w.jobs
    ensures var j := Subject(w, a);
      && Apply(w, a).jobs == (if JobAfter(w, a).Some? then w.jobs[j := JobAfter(w, a).value] else w.jobs - {j})
      && j < w.nextJob && Apply(w, a).nextJob == w.nextJob
      && !a.Tick? && !a.StartCreate? && !a.StartClone?
  {
  }

  /** A step of a job that exists is its own whatever the world. */
  lemma SubjectsKept(w: World, w': World, run: seq<Action>, j: nat)
    requires forall i :: 0 <= i < |run| ==> !run[i].Tick? && Subject(w', run[i]) == j
    requires w'.nextJob == w.nextJob
    ensures forall i :: 0 <= i < |run| ==> !run[i].Tick? && Subject(w, run[i]) == j
  {
  }
}
