/**
 The vm.clone worker: a sequence of external commands any of which may fail,
 with the cleanup that undoes what was made, and the report of the outcome.
 */
module CloneSaga {
  import opened Sums
  import opened Storage

  datatype Kind = Zvol | Qcow2 | Raw | Unsupported

  /** The clone context: what the handler planned under both name locks. */
  datatype Plan = Plan(
    source: string, target: string, fullCopy: bool, guestReset: bool, kind: Kind,
    sourceDisk: Option<string>, targetDisk: Option<string>,
    sourceDataset: Option<string>, targetDataset: Option<string>,
    pool: Option<string>, zvolName: Option<string>)

  /** One outcome per external call of a run; `nodeAfter` polls pass before the device node is there. */
  datatype Faults = Faults(
    snapshot: Fault, copy: Fault, nodeAfter: nat, dropEarly: Fault, reset: bool,
    connection: bool, lookup: bool, xml: bool, pathFound: bool, reconnection: bool, define: Fault,
    dropLate: Fault, removeAtOnce: Fault, cleanTarget: Fault, cleanSnapshot: Fault)

  datatype Report = Report(job: string, ok: bool)

  predicate FileDisk(p: Plan) {
    p.kind.Qcow2? || p.kind.Raw?
  }

  /** The worker's own check of its plan. */
  predicate Complete(p: Plan) {
    || (p.kind.Zvol? && p.sourceDataset.Some? && p.targetDataset.Some? && p.pool.Some? && p.zvolName.Some?)
    || (FileDisk(p) && p.sourceDisk.Some? && p.targetDisk.Some?)
  }

  /** What the planner builds: datasets are paths under one pool, and a zvol's disk paths are set. */
  predicate Planned(p: Plan) {
    p.kind.Zvol? && Complete(p) ==>
      && p.sourceDataset.value == p.pool.value + "/" + p.zvolName.value
      && p.targetDataset.value == p.pool.value + "/" + p.target
      && p.sourceDisk.Some? && p.targetDisk.Some?
  }

  function JobId(p: Plan): string {
    "vm.clone:" + p.source + ":" + p.target
  }

  function TheSnapshot(p: Plan): Snap
    requires p.kind.Zvol? && Complete(p)
  {
    Snap(p.sourceDataset.value, "clone-" + p.target)
  }

  /** A file disk can be copied: the paths are absolute, and of the two files only the source is there. */
  predicate Copyable(st: Store, p: Plan)
    requires FileDisk(p) && Complete(p)
  {
    && Absolute(p.sourceDisk.value) && Absolute(p.targetDisk.value)
    && p.sourceDisk.value in st.files && p.targetDisk.value !in st.files
  }

  /** Exactly when a run gets as far as defining the domain: every command before is permitted and works. */
  predicate ReachesDefine(st: Store, p: Plan, f: Faults) {
    && Complete(p) && f.copy.Works?
    && (if p.kind.Zvol?
        then TargetAbsent(st, p) && ZfsSnapshot(st, TheSnapshot(p), f.snapshot).ok && f.nodeAfter <= 100
        else Copyable(st, p))
    && (p.guestReset ==> f.reset)
    && f.connection && f.lookup && f.xml && f.pathFound && f.reconnection
  }

  /** Cleanup commands are carried out whenever the storage permits them. */
  predicate CleanupHonoured(f: Faults) {
    !f.cleanTarget.Refused? && !f.cleanSnapshot.Refused?
  }

  /** The target's disk is not there when the worker starts. */
  predicate TargetAbsent(st: Store, p: Plan)
    requires Complete(p)
  {
    if p.kind.Zvol? then p.targetDataset.value !in st.datasets else p.targetDisk.value !in st.files
  }

  /** The snapshot command is permitted, took effect, and was reported as failed. */
  predicate SnapshotLost(st: Store, p: Plan, f: Faults)
    requires p.kind.Zvol? && Complete(p)
  {
    var r := ZfsSnapshot(st, TheSnapshot(p), f.snapshot);
    !r.ok && r.st != st
  }

  /** The temporary snapshot is still there when the run gives up. */
  predicate SnapshotStays(p: Plan, f: Faults) {
    !(p.fullCopy && f.copy.Works? && f.nodeAfter <= 100 && !f.dropEarly.Refused?)
  }

  /** The domain was defined although the definition reported failure. */
  predicate DomainLost(st: Store, p: Plan, f: Faults) {
    ReachesDefine(st, p, f) && f.define.Dies? && p.target !in st.domains
  }

  /** Exactly when a failed run leaves the storage as it found it, whatever its commands and its cleanup did. */
  predicate Undone(st: Store, p: Plan, f: Faults) {
    && !DomainLost(st, p, f)
    && (Complete(p) ==>
          if p.kind.Zvol? then
            if !ZfsSnapshot(st, TheSnapshot(p), f.snapshot).ok then !SnapshotLost(st, p, f)
            else if !TargetAbsent(st, p) then f.cleanTarget.Refused? && !f.cleanSnapshot.Refused?
            else && (!f.copy.Refused? ==> !f.cleanTarget.Refused?)
                 && (SnapshotStays(p, f) ==> !f.cleanSnapshot.Refused?)
          else if !TargetAbsent(st, p) then f.cleanTarget.Refused?
          else Copyable(st, p) && !f.copy.Refused? ==>
            !f.cleanTarget.Refused? || (f.copy.Dies? && !f.removeAtOnce.Refused?))
  }

  /**
   With a cleanup that is carried out: nothing was made by a command that
   reported failure and is not cleaned up, and whatever stands at the target
   was put there by this run.
   */
  predicate Undoable(st: Store, p: Plan, f: Faults) {
    && !DomainLost(st, p, f)
    && (Complete(p) ==>
          if p.kind.Zvol? then
            !SnapshotLost(st, p, f) && (ZfsSnapshot(st, TheSnapshot(p), f.snapshot).ok ==> TargetAbsent(st, p))
          else TargetAbsent(st, p))
  }

  lemma UndoneWhenHonoured(st: Store, p: Plan, f: Faults)
    requires CleanupHonoured(f)
    ensures Undone(st, p, f) <==> Undoable(st, p, f)
  {
  }

  /** The storage a successful run leaves. */
  function Cloned(st: Store, p: Plan, f: Faults): Store
    requires Complete(p)
  {
    var named := st.(domains := st.domains + {p.target});
    if !p.kind.Zvol? then named.(files := st.files + {p.targetDisk.value})
    else
      var snap := TheSnapshot(p);
      var target := p.targetDataset.value;
      if !p.fullCopy then
        named.(datasets := st.datasets[target := Some(snap)], snapshots := st.snapshots + {snap})
      else
        named.(datasets := st.datasets[target := None],
               snapshots := st.snapshots + {Snap(target, snap.tag)}
                            + if f.dropEarly.Refused? && f.dropLate.Refused? then {snap} else {})
  }

  // ----- the cleanup, as a function of the storage it finds

  function CleanedUp(st: Store, p: Plan, snapshotExists: bool, f: Faults): Store
    requires Complete(p)
  {
    var st1 := if p.kind.Zvol? then ZfsDestroyRecursive(st, p.targetDataset.value, f.cleanTarget).st
               else RemoveFile(st, p.targetDisk.value, f.cleanTarget).st;
    if p.kind.Zvol? && snapshotExists then ZfsDestroySnapshot(st1, TheSnapshot(p), f.cleanSnapshot).st else st1
  }

  /** The storage between snapshot and definition: the snapshot if it survives, the target if it was made. */
  function Midway(st: Store, p: Plan, snapshot: bool, made: bool): Store
    requires p.kind.Zvol? && Complete(p)
  {
    var snap := TheSnapshot(p);
    var target := p.targetDataset.value;
    st.(datasets := if made then st.datasets[target := if p.fullCopy then None else Some(snap)] else st.datasets,
        snapshots := st.snapshots + (if snapshot then {snap} else {})
                     + (if made && p.fullCopy then {Snap(target, snap.tag)} else {}))
  }

  /** Destroying the target before the snapshot it depends on takes the storage back to where it was. */
  lemma CleanupRestores(st: Store, p: Plan, snapshot: bool, made: bool, believed: bool, f: Faults)
    requires p.kind.Zvol? && Complete(p) && WellFormed(st) && CleanupHonoured(f)
    requires p.targetDataset.value !in st.datasets && p.sourceDataset.value in st.datasets
    requires TheSnapshot(p) !in st.snapshots
    requires snapshot ==> believed
    requires made && !p.fullCopy ==> snapshot
    ensures CleanedUp(Midway(st, p, snapshot, made), p, believed, f) == st
  {
    var snap := TheSnapshot(p);
    var target := p.targetDataset.value;
    var st1 := Midway(st, p, snapshot, made);
    var st2 := st.(snapshots := st.snapshots + if snapshot then {snap} else {});
    if made {
      DestroyUndoes(st, st1, target, if p.fullCopy then None else Some(snap));
      assert (set s | s in st1.snapshots && s.dataset != target) == st2.snapshots;
    }
    assert ZfsDestroyRecursive(st1, target, f.cleanTarget).st == st2;
    assert !HasClones(st2, snap);
    assert st2.snapshots - {snap} == st.snapshots;
  }

  /** The other order leaks: with a copy-on-write target in place the snapshot cannot go first. */
  lemma WrongOrderLeaks(st: Store, p: Plan, f: Faults)
    requires p.kind.Zvol? && Complete(p) && !p.fullCopy
    ensures var st1 := Midway(st, p, true, true);
      ZfsDestroySnapshot(st1, TheSnapshot(p), f.cleanSnapshot) == Ran(st1, false)
  {
    var st1 := Midway(st, p, true, true);
    assert st1.datasets[p.targetDataset.value] == Some(TheSnapshot(p));
  }

  /** A dataset that was there before the run does not survive the cleanup of its failure. */
  lemma CleanupDestroysForeignTarget(st: Store, p: Plan, believed: bool, f: Faults)
    requires p.kind.Zvol? && Complete(p) && !f.cleanTarget.Refused? && p.targetDataset.value in st.datasets
    ensures p.targetDataset.value !in CleanedUp(st, p, believed, f).datasets
  {
    DoomedGrows(st.datasets, {p.targetDataset.value});
  }

  lemma DoomedGrows(datasets: map<string, Option<Snap>>, doomed: set<string>)
    ensures doomed <= Doomed(datasets, doomed)
    decreases |datasets.Keys - doomed|
  {
    var more := ClonesOf(datasets, doomed) - doomed;
    if more != {} {
      assert more <= datasets.Keys - doomed;
      assert datasets.Keys - (doomed + more) == (datasets.Keys - doomed) - more;
      DoomedGrows(datasets, doomed + more);
    }
  }

  predicate Absolute(path: string) {
    path != "" && path[0] == '/'
  }

  /** The storage and the worker's belief about the snapshot, once a zvol is ready to be defined. */
  predicate ZvolReady(before: Store, st: Store, p: Plan, snapshotExists: bool, f: Faults)
    requires p.kind.Zvol? && Complete(p)
  {
    && ZfsSnapshot(before, TheSnapshot(p), f.snapshot).ok && TargetAbsent(before, p)
    && f.copy.Works? && f.nodeAfter <= 100
    && snapshotExists == (!p.fullCopy || !f.dropEarly.Works?)
    && st == Midway(before, p, SnapshotStays(p, f), true)
  }

  predicate FileReady(before: Store, st: Store, p: Plan)
    requires FileDisk(p) && Complete(p)
  {
    Copyable(before, p) && st == before.(files := before.files + {p.targetDisk.value})
  }

  /** The disk is ready and nothing else has changed. */
  predicate Ready(before: Store, st: Store, p: Plan, snapshotExists: bool, f: Faults)
    requires Complete(p)
  {
    if p.kind.Zvol? then ZvolReady(before, st, p, snapshotExists, f) else !snapshotExists && FileReady(before, st, p)
  }

  /** The cleanup neither looks at the domains nor changes them. */
  lemma CleanupKeepsDomains(st: Store, p: Plan, snapshotExists: bool, f: Faults, domains: set<string>)
    requires Complete(p)
    ensures CleanedUp(st, p, snapshotExists, f).domains == st.domains
    ensures CleanedUp(st.(domains := domains), p, snapshotExists, f)
         == CleanedUp(st, p, snapshotExists, f).(domains := domains)
  {
  }

  /** A new snapshot has no clones. */
  lemma NoClonesYet(st: Store, s: Snap)
    requires WellFormed(st) && s !in st.snapshots
    ensures !HasClones(st, s)
  {
  }

  /** A refused destruction of a target this run made leaves the target there. */
  lemma RefusedTargetStays(before: Store, p: Plan, present: bool, believed: bool, f: Faults)
    requires p.kind.Zvol? && Complete(p) && TargetAbsent(before, p) && f.cleanTarget.Refused?
    ensures CleanedUp(Midway(before, p, present, true), p, believed, f) != before
  {
    var st := Midway(before, p, present, true);
    assert p.targetDataset.value in CleanedUp(st, p, believed, f).datasets;
  }

  /** A refused destruction of the snapshot leaves the snapshot there, unless the target took it along. */
  lemma RefusedSnapshotStays(before: Store, p: Plan, made: bool, f: Faults)
    requires p.kind.Zvol? && Complete(p) && WellFormed(before) && p.sourceDataset.value in before.datasets
    requires TargetAbsent(before, p) && TheSnapshot(p) !in before.snapshots
    requires f.cleanSnapshot.Refused? && !f.cleanTarget.Refused?
    ensures CleanedUp(Midway(before, p, true, made), p, true, f) != before
  {
    var snap, target := TheSnapshot(p), p.targetDataset.value;
    var st := Midway(before, p, true, made);
    if made {
      DestroyUndoes(before, st, target, if p.fullCopy then None else Some(snap));
    }
    assert snap in CleanedUp(st, p, true, f).snapshots;
  }

  /** A target that was there before survives only if its destruction is refused. */
  lemma ForeignTarget(before: Store, p: Plan, f: Faults)
    requires p.kind.Zvol? && Complete(p) && WellFormed(before) && !TargetAbsent(before, p)
    requires TheSnapshot(p) !in before.snapshots
    ensures CleanedUp(Midway(before, p, true, false), p, true, f) == before
       <==> f.cleanTarget.Refused? && !f.cleanSnapshot.Refused?
  {
    var snap, st := TheSnapshot(p), Midway(before, p, true, false);
    if f.cleanTarget.Refused? {
      NoClonesYet(before, snap);
      assert st.datasets == before.datasets && !HasClones(st, snap);
      assert st.snapshots - {snap} == before.snapshots;
    } else {
      CleanupDestroysForeignTarget(st, p, true, f);
    }
  }

  /** Giving up after the snapshot, by what is there and which destructions are refused. */
  lemma AbandonedZvol(before: Store, p: Plan, present: bool, made: bool, believed: bool, f: Faults)
    requires p.kind.Zvol? && Complete(p) && WellFormed(before) && p.sourceDataset.value in before.datasets
    requires TheSnapshot(p) !in before.snapshots && (present ==> believed)
    requires (made ==> TargetAbsent(before, p)) && (made && !p.fullCopy ==> present)
    requires !TargetAbsent(before, p) ==> present
    ensures CleanedUp(Midway(before, p, present, made), p, believed, f) == before <==>
      if TargetAbsent(before, p)
      then (made ==> !f.cleanTarget.Refused?) && (present ==> !f.cleanSnapshot.Refused?)
      else f.cleanTarget.Refused? && !f.cleanSnapshot.Refused?
  {
    if !TargetAbsent(before, p) {
      ForeignTarget(before, p, f);
    } else if made && f.cleanTarget.Refused? {
      RefusedTargetStays(before, p, present, believed, f);
    } else {
      var g := f.(cleanTarget := Works);
      assert CleanedUp(Midway(before, p, present, made), p, believed, f)
          == CleanedUp(Midway(before, p, present, made), p, believed, g);
      if present && f.cleanSnapshot.Refused? {
        RefusedSnapshotStays(before, p, made, g);
      } else {
        assert !present ==> TheSnapshot(p) !in Midway(before, p, present, made).snapshots;
        CleanupRestores(before, p, present, made, believed, g.(cleanSnapshot := Works));
        DropMatters(Midway(before, p, present, made), p, believed, g);
      }
    }
  }

  /** Refusing to drop a snapshot that is not there changes nothing. */
  lemma DropMatters(st: Store, p: Plan, believed: bool, f: Faults)
    requires p.kind.Zvol? && Complete(p) && (TheSnapshot(p) in st.snapshots ==> !f.cleanSnapshot.Refused?)
    ensures CleanedUp(st, p, believed, f) == CleanedUp(st, p, believed, f.(cleanSnapshot := Works))
  {
    assert ZfsDestroyRecursive(st, p.targetDataset.value, f.cleanTarget).st.snapshots <= st.snapshots;
  }

  lemma AbandonedFile(before: Store, st: Store, p: Plan, f: Faults)
    requires FileDisk(p) && Complete(p) && st == before.(files := st.files)
    requires st.files == before.files + (if LeftByCopy(before, p, f) then {p.targetDisk.value} else {})
    ensures CleanedUp(st, p, false, f) == before <==>
      if TargetAbsent(before, p) then LeftByCopy(before, p, f) ==> !f.cleanTarget.Refused? else f.cleanTarget.Refused?
  {
    var target := p.targetDisk.value;
    if TargetAbsent(before, p) {
      assert before.files + {target} - {target} == before.files;
    } else {
      assert before.files + {target} == before.files;
    }
  }

  /** The copy left its target behind: it worked, or failed late and could not be removed at once. */
  predicate LeftByCopy(st: Store, p: Plan, f: Faults)
    requires FileDisk(p) && Complete(p)
  {
    Copyable(st, p) && (f.copy.Works? || (f.copy.Dies? && f.removeAtOnce.Refused?))
  }

  /** A failure after the disk is ready, with the domain defined or not. */
  lemma AbandonedLate(before: Store, st: Store, p: Plan, snapshotExists: bool, f: Faults)
    requires Complete(p) && WellFormed(before) && f.copy.Works?
    requires Ready(before, st, p, snapshotExists, f)
    ensures (CleanedUp(st, p, snapshotExists, f) == before && !DomainLost(before, p, f)) <==> Undone(before, p, f)
  {
    if p.kind.Zvol? {
      AbandonedZvol(before, p, SnapshotStays(p, f), true, snapshotExists, f);
    } else {
      AbandonedFile(before, st, p, f);
    }
  }

  /** The same with the domain that a failed definition may have left. */
  lemma AbandonedDefinition(before: Store, st: Store, p: Plan, snapshotExists: bool, f: Faults)
    requires Complete(p) && WellFormed(before) && Ready(before, st, p, snapshotExists, f)
    requires ReachesDefine(before, p, f) && !f.define.Works?
    ensures CleanedUp(DefineDomain(st, p.target, f.define).st, p, snapshotExists, f) == before <==> Undone(before, p, f)
  {
    var st1 := DefineDomain(st, p.target, f.define).st;
    AbandonedLate(before, st, p, snapshotExists, f);
    CleanupKeepsDomains(st, p, snapshotExists, f, st1.domains);
    assert st1 == st.(domains := st1.domains);
    assert DomainLost(before, p, f) <==> st1.domains != before.domains;
  }

  /** A full copy depends on no snapshot, so the temporary one may go while the copy stays. */
  lemma FullCopyDrop(before: Store, p: Plan, drop: Fault)
    requires p.kind.Zvol? && Complete(p) && p.fullCopy && TargetAbsent(before, p) && TheSnapshot(p) !in before.snapshots
    requires WellFormed(before) && p.sourceDataset.value in before.datasets
    ensures ZfsDestroySnapshot(Midway(before, p, true, true), TheSnapshot(p), drop)
         == Ran(Midway(before, p, drop.Refused?, true), drop.Works?)
  {
    var st, snap := Midway(before, p, true, true), TheSnapshot(p);
    forall d | d in st.datasets ensures st.datasets[d] != Some(snap) {
      assert d == p.targetDataset.value || st.datasets[d] == before.datasets[d];
    }
    assert st.snapshots - {snap} == Midway(before, p, false, true).snapshots;
  }

  /** Definition and the last attempt to drop the snapshot. */
  lemma FinishedClone(before: Store, st: Store, p: Plan, snapshotExists: bool, f: Faults)
    requires Complete(p) && WellFormed(before) && Ready(before, st, p, snapshotExists, f)
    ensures var st1 := st.(domains := st.domains + {p.target});
      Cloned(before, p, f) ==
        if p.kind.Zvol? && p.fullCopy && snapshotExists then ZfsDestroySnapshot(st1, TheSnapshot(p), f.dropLate).st
        else st1
  {
    if p.kind.Zvol? && p.fullCopy && snapshotExists {
      var st1, snap := st.(domains := st.domains + {p.target}), TheSnapshot(p);
      if f.dropEarly.Refused? {
        FullCopyDrop(before, p, f.dropLate);
        forall d | d in st1.datasets ensures st1.datasets[d] != Some(snap) {
          assert d == p.targetDataset.value || st1.datasets[d] == before.datasets[d];
        }
      } else {
        assert snap !in st1.snapshots;
      }
    }
  }

  class Host {
    var store: Store
    var audits: seq<Report>
    var broadcasts: seq<Report>

    constructor (store: Store)
      ensures this.store == store && audits == broadcasts == []
    {
      this.store, audits, broadcasts := store, [], [];
    }

    method ReportOutcome(p: Plan, ok: bool)
      modifies this`audits, this`broadcasts
      ensures audits == old(audits) + [Report(JobId(p), ok)]
      ensures broadcasts == old(broadcasts) + [Report(JobId(p), ok)]
    {
      audits := audits + [Report(JobId(p), ok)];
      broadcasts := broadcasts + [Report(JobId(p), ok)];
    }

    method CleanupFailedArtifacts(p: Plan, snapshotExists: bool, f: Faults)
      requires Complete(p)
      modifies this`store
      ensures store == CleanedUp(old(store), p, snapshotExists, f)
    {
      if p.kind.Zvol? {
        store := ZfsDestroyRecursive(store, p.targetDataset.value, f.cleanTarget).st;
      } else {
        store := RemoveFile(store, p.targetDisk.value, f.cleanTarget).st;
      }
      if p.kind.Zvol? && snapshotExists {
        store := ZfsDestroySnapshot(store, TheSnapshot(p), f.cleanSnapshot).st;
      }
    }

    /** Poll for the device node every 100 ms, for at most ten seconds. */
    method WaitForNode(nodeAfter: nat) returns (appeared: bool)
      ensures appeared <==> nodeAfter <= 100
    {
      var waited, polls := 0, 0;
      while polls < nodeAfter
        invariant 0 <= polls <= nodeAfter && waited == 100 * polls && waited <= 10000
      {
        if waited >= 10000 {
          return false;
        }
        waited := waited + 100;
        polls := polls + 1;
      }
      return true;
    }

    /** Report, clean up and give up, from a point where the disk is as the run left it. */
    method Abandon(p: Plan, snapshotExists: bool, f: Faults)
      requires Complete(p)
      modifies this
      ensures audits == old(audits) + [Report(JobId(p), false)]
      ensures broadcasts == old(broadcasts) + [Report(JobId(p), false)]
      ensures store == CleanedUp(old(store), p, snapshotExists, f)
    {
      ReportOutcome(p, false);
      CleanupFailedArtifacts(p, snapshotExists, f);
    }

    /** Snapshot, clone or copy, wait for the node, and drop the snapshot of a full copy. */
    method PrepareZvol(p: Plan, f: Faults) returns (ok: bool, snapshotExists: bool)
      requires p.kind.Zvol? && Complete(p) && Planned(p) && WellFormed(store)
      modifies this
      ensures ok <==> TargetAbsent(old(store), p) && f.copy.Works? && f.nodeAfter <= 100
                      && ZfsSnapshot(old(store), TheSnapshot(p), f.snapshot).ok
      ensures ok ==> audits == old(audits) && broadcasts == old(broadcasts)
      ensures ok ==> ZvolReady(old(store), store, p, snapshotExists, f)
      ensures !ok ==> audits == old(audits) + [Report(JobId(p), false)]
      ensures !ok ==> broadcasts == old(broadcasts) + [Report(JobId(p), false)]
      ensures store.domains == old(store).domains
      ensures !ok ==> (store == old(store) <==> Undone(old(store), p, f))
    {
      var before := store;
      var r := ZfsSnapshot(store, TheSnapshot(p), f.snapshot);
      store := r.st;
      if !r.ok {
        ReportOutcome(p, false);
        return false, false;
      }
      snapshotExists := true;
      var origin := Snap(p.pool.value + "/" + p.zvolName.value, "clone-" + p.target);
      var made := p.pool.value + "/" + p.target;
      r := if p.fullCopy then ZfsFullCopy(store, origin, made, f.copy) else ZfsClone(store, origin, made, f.copy);
      store := r.st;
      ghost var touched := made !in before.datasets && !f.copy.Refused?;
      assert store == Midway(before, p, true, touched);
      if !r.ok {
        AbandonedZvol(before, p, true, touched, true, f);
        CleanupKeepsDomains(store, p, true, f, {});
        Abandon(p, snapshotExists, f);
        return false, snapshotExists;
      }
      var appeared := WaitForNode(f.nodeAfter);
      if !appeared {
        AbandonedZvol(before, p, true, touched, true, f);
        CleanupKeepsDomains(store, p, true, f, {});
        Abandon(p, snapshotExists, f);
        return false, snapshotExists;
      }
      if p.fullCopy {
        r := ZfsDestroySnapshot(store, TheSnapshot(p), f.dropEarly);
        FullCopyDrop(before, p, f.dropEarly);
        store := r.st;
        if r.ok {
          snapshotExists := false;
        }
      }
      ok := true;
    }

    /** Copy a disk image file, removing what a failed copy left. */
    method CopyFileDisk(p: Plan, f: Faults) returns (ok: bool)
      requires FileDisk(p) && Complete(p)
      modifies this`store
      ensures ok <==> Copyable(old(store), p) && f.copy.Works?
      ensures store.files == old(store).files + if LeftByCopy(old(store), p, f) then {p.targetDisk.value} else {}
      ensures store == old(store).(files := store.files)
    {
      var source, target := p.sourceDisk.value, p.targetDisk.value;
      if !Absolute(source) || !Absolute(target) {
        return false;
      }
      if source == target {
        return false;
      }
      if source !in store.files {
        return false;
      }
      if target in store.files {
        return false;
      }
      var r := CopyFile(store, source, target, f.copy);
      store := r.st;
      if !r.ok {
        store := RemoveFile(store, target, f.removeAtOnce).st;
      }
      return r.ok;
    }

    /** The whole worker. */
    method CloneWorker(p: Plan, f: Faults) returns (ok: bool)
      requires Planned(p) && WellFormed(store)
      modifies this
      ensures audits == old(audits) + [Report("vm.clone:" + p.source + ":" + p.target, ok)]
      ensures broadcasts == old(broadcasts) + [Report("vm.clone:" + p.source + ":" + p.target, ok)]
      ensures ok <==> ReachesDefine(old(store), p, f) && f.define.Works?
      ensures ok ==> store == Cloned(old(store), p, f)
      ensures !ok ==> (store == old(store) <==> Undone(old(store), p, f))
      ensures store.domains == old(store).domains
                + if ReachesDefine(old(store), p, f) && !f.define.Refused? then {p.target} else {}
      // each step counts: when it fails the clone fails, and no domain is defined
      ensures !Complete(p) || !f.copy.Works? ==> !ok && store.domains == old(store).domains
      ensures p.kind.Zvol? && !f.snapshot.Works? ==> !ok && store.domains == old(store).domains
      ensures p.kind.Zvol? && f.nodeAfter > 100 ==> !ok && store.domains == old(store).domains
      ensures p.guestReset && !f.reset ==> !ok && store.domains == old(store).domains
      ensures !f.connection ==> !ok && store.domains == old(store).domains
      ensures !f.lookup ==> !ok && store.domains == old(store).domains
      ensures !f.xml ==> !ok && store.domains == old(store).domains
      ensures !f.pathFound ==> !ok && store.domains == old(store).domains
      ensures !f.reconnection ==> !ok && store.domains == old(store).domains
      ensures !f.define.Works? ==> !ok
      // and when none fails the clone is there, on a disk of its own
      ensures StepsWork(p, f) && ZvolPossible(old(store), p) ==>
                && ok && p.target in store.domains && store.files == old(store).files
                && store.datasets == old(store).datasets[p.targetDataset.value :=
                     if p.fullCopy then None else Some(Snap(p.sourceDataset.value, "clone-" + p.target))]
      ensures StepsWork(p, f) && ZvolPossible(old(store), p) && !p.fullCopy ==>
                store.snapshots == old(store).snapshots + {Snap(p.sourceDataset.value, "clone-" + p.target)}
      ensures StepsWork(p, f) && ZvolPossible(old(store), p) && p.fullCopy ==>
                store.snapshots == old(store).snapshots + {Snap(p.targetDataset.value, "clone-" + p.target)}
                  + if f.dropEarly.Refused? && f.dropLate.Refused?
                    then {Snap(p.sourceDataset.value, "clone-" + p.target)} else {}
      ensures StepsWork(p, f) && FilePossible(old(store), p) ==>
                && ok && p.target in store.domains && store.files == old(store).files + {p.targetDisk.value}
                && store.datasets == old(store).datasets && store.snapshots == old(store).snapshots
      // a failure with honest commands and a cleanup that is carried out leaves no trace
      ensures (&& !ok && !f.snapshot.Dies? && !f.define.Dies? && !f.cleanTarget.Refused? && !f.cleanSnapshot.Refused?
               && !TargetDataset(old(store), p) && !TargetFile(old(store), p)) ==> store == old(store)
    {
      ghost var before := store;
      StepsCount(store, p, f);
      if !Complete(p) {
        ReportOutcome(p, false);
        return false;
      }
      var snapshotExists := false;
      if p.kind.Zvol? {
        var prepared;
        prepared, snapshotExists := PrepareZvol(p, f);
        if !prepared {
          return false;
        }
      } else {
        var copied := CopyFileDisk(p, f);
        if !copied {
          AbandonedFile(before, store, p, f);
          CleanupKeepsDomains(store, p, false, f, {});
          Abandon(p, false, f);
          return false;
        }
      }
      assert Ready(before, store, p, snapshotExists, f);
      ok := DefineClone(p, snapshotExists, f, before);
    }

    /** From a ready disk on: reset, libvirt and the definition, each failure abandoned. */
    method DefineClone(p: Plan, snapshotExists: bool, f: Faults, ghost before: Store) returns (ok: bool)
      requires Complete(p) && Planned(p) && WellFormed(before) && f.copy.Works?
      requires Ready(before, store, p, snapshotExists, f)
      modifies this
      ensures audits == old(audits) + [Report(JobId(p), ok)]
      ensures broadcasts == old(broadcasts) + [Report(JobId(p), ok)]
      ensures ok <==> ReachesDefine(before, p, f) && f.define.Works?
      ensures ok ==> store == Cloned(before, p, f)
      ensures !ok ==> (store == before <==> Undone(before, p, f))
      ensures store.domains == before.domains
                + if ReachesDefine(before, p, f) && !f.define.Refused? then {p.target} else {}
    {
      AbandonedLate(before, store, p, snapshotExists, f);
      CleanupKeepsDomains(store, p, snapshotExists, f, {});
      if p.guestReset && !f.reset {
        Abandon(p, snapshotExists, f);
        return false;
      }
      if !f.connection {
        Abandon(p, snapshotExists, f);
        return false;
      }
      if !f.lookup {
        Abandon(p, snapshotExists, f);
        return false;
      }
      if !f.xml {
        Abandon(p, snapshotExists, f);
        return false;
      }
      if p.sourceDisk.None? || p.targetDisk.None? || !f.pathFound {
        Abandon(p, snapshotExists, f);
        return false;
      }
      if !f.reconnection {
        Abandon(p, snapshotExists, f);
        return false;
      }
      assert ReachesDefine(before, p, f);
      var defined := DefineDomain(store, p.target, f.define);
      if !defined.ok {
        AbandonedDefinition(before, store, p, snapshotExists, f);
        CleanupKeepsDomains(defined.st, p, snapshotExists, f, {});
        store := defined.st;
        Abandon(p, snapshotExists, f);
        return false;
      }
      FinishedClone(before, store, p, snapshotExists, f);
      store := defined.st;
      if p.fullCopy && snapshotExists {
        store := ZfsDestroySnapshot(store, TheSnapshot(p), f.dropLate).st;
      }
      ReportOutcome(p, true);
      return true;
    }

    /**
     The handler's last checks and the worker, nobody else touching the target
     in between. `preflight` says whether the checks of the source, its power
     state and the plan pass, `listed` whether the listing of datasets works.
     */
    method HandleClone(p: Plan, f: Faults, preflight: bool, listed: bool) returns (accepted: bool, ok: bool)
      requires Planned(p) && WellFormed(store)
      modifies this
      ensures accepted <==> preflight && p.target !in old(store).domains && !TargetFile(old(store), p)
                            && !(listed && TargetDataset(old(store), p))
      ensures !accepted ==> store == old(store) && audits == old(audits) && broadcasts == old(broadcasts)
      ensures accepted ==> audits == old(audits) + [Report(JobId(p), ok)]
      ensures accepted ==> broadcasts == old(broadcasts) + [Report(JobId(p), ok)]
      ensures accepted && listed && CleanupHonoured(f) && !ok ==>
                (store == old(store) <==> !LateFailure(old(store), p, f))
      ensures accepted && StepsWork(p, f) && (ZvolPossible(old(store), p) || FilePossible(old(store), p)) ==> ok
    {
      if p.target in store.domains {
        return false, false;
      }
      if !preflight {
        return false, false;
      }
      if p.targetDataset.Some? {
        if listed && p.targetDataset.value in store.datasets {
          return false, false;
        }
      }
      if p.kind.Qcow2? || p.kind.Raw? {
        if p.targetDisk.Some? && p.targetDisk.value in store.files {
          return false, false;
        }
      }
      if listed && CleanupHonoured(f) {
        OnlyLateFailures(store, p, f);
      }
      ok := CloneWorker(p, f);
      return true, ok;
    }
  }

  predicate TargetDataset(st: Store, p: Plan) {
    p.targetDataset.Some? && p.targetDataset.value in st.datasets
  }

  predicate TargetFile(st: Store, p: Plan) {
    FileDisk(p) && p.targetDisk.Some? && p.targetDisk.value in st.files
  }

  /** The snapshot or the definition took effect and was reported as failed. */
  predicate LateFailure(st: Store, p: Plan, f: Faults) {
    (p.kind.Zvol? && Complete(p) && SnapshotLost(st, p, f)) || (ReachesDefine(st, p, f) && f.define.Dies?)
  }

  /** Every call of a run works. */
  predicate StepsWork(p: Plan, f: Faults) {
    && f.snapshot.Works? && f.copy.Works? && f.nodeAfter <= 100 && (p.guestReset ==> f.reset)
    && f.connection && f.lookup && f.xml && f.pathFound && f.reconnection && f.define.Works?
  }

  predicate ZvolPossible(st: Store, p: Plan) {
    && p.kind.Zvol? && p.sourceDataset.Some? && p.targetDataset.Some? && p.pool.Some? && p.zvolName.Some?
    && p.sourceDataset.value in st.datasets && p.targetDataset.value !in st.datasets
    && Snap(p.sourceDataset.value, "clone-" + p.target) !in st.snapshots
  }

  predicate FilePossible(st: Store, p: Plan) {
    && (p.kind.Qcow2? || p.kind.Raw?) && p.sourceDisk.Some? && p.targetDisk.Some?
    && |p.sourceDisk.value| > 0 && p.sourceDisk.value[0] == '/' && p.sourceDisk.value in st.files
    && |p.targetDisk.value| > 0 && p.targetDisk.value[0] == '/' && p.targetDisk.value !in st.files
  }

  /** Getting as far as the definition takes every step before it, and no more than that. */
  lemma StepsCount(st: Store, p: Plan, f: Faults)
    ensures ReachesDefine(st, p, f) ==>
      && f.copy.Works? && (p.kind.Zvol? ==> f.snapshot.Works? && f.nodeAfter <= 100) && (p.guestReset ==> f.reset)
      && f.connection && f.lookup && f.xml && f.pathFound && f.reconnection
    ensures StepsWork(p, f) && (ZvolPossible(st, p) || FilePossible(st, p)) ==> ReachesDefine(st, p, f)
    ensures !f.snapshot.Dies? && !f.define.Dies? && CleanupHonoured(f) && !TargetDataset(st, p) && !TargetFile(st, p) ==>
      Undone(st, p, f)
  {
  }

  /** Once the handler has found the target free, only a command that lies about its failure leaves a trace. */
  lemma OnlyLateFailures(st: Store, p: Plan, f: Faults)
    requires CleanupHonoured(f) && p.target !in st.domains && !TargetDataset(st, p) && !TargetFile(st, p)
    ensures Undone(st, p, f) <==> !LateFailure(st, p, f)
  {
  }
}
