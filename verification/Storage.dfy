/**
 Names kept by ZFS, the file system and libvirt, and the external commands the
 workers run on them. A command the storage does not permit fails without
 effect; a permitted one may still be refused, and may also report failure
 after its effect took place.
 */
module Storage {
  import opened Sums

  datatype Snap = Snap(dataset: string, tag: string)

  /** A dataset maps to the snapshot it was cloned from, if any. */
  datatype Store = Store(
    datasets: map<string, Option<Snap>>, snapshots: set<Snap>, files: set<string>, domains: set<string>)

  datatype Fault = Works | Refused | Dies

  datatype Ran = Ran(st: Store, ok: bool)

  /** What ZFS itself keeps: snapshots belong to datasets, clones to snapshots. */
  predicate WellFormed(st: Store) {
    && (forall s :: s in st.snapshots ==> s.dataset in st.datasets)
    && (forall d :: d in st.datasets && st.datasets[d].Some? ==> st.datasets[d].value in st.snapshots)
  }

  function Carry(st: Store, permitted: bool, after: Store, f: Fault): Ran {
    if !permitted || f.Refused? then Ran(st, false) else Ran(after, f.Works?)
  }

  function ZfsSnapshot(st: Store, s: Snap, f: Fault): Ran {
    Carry(st, s.dataset in st.datasets && s !in st.snapshots, st.(snapshots := st.snapshots + {s}), f)
  }

  /** Copy on write: the new dataset depends on the snapshot. */
  function ZfsClone(st: Store, s: Snap, target: string, f: Fault): Ran {
    Carry(st, s in st.snapshots && target !in st.datasets, st.(datasets := st.datasets[target := Some(s)]), f)
  }

  /** Send and receive: an independent dataset, which also carries the received snapshot. */
  function ZfsFullCopy(st: Store, s: Snap, target: string, f: Fault): Ran {
    Carry(st, s in st.snapshots && target !in st.datasets,
          st.(datasets := st.datasets[target := None], snapshots := st.snapshots + {Snap(target, s.tag)}), f)
  }

  function ZfsCreate(st: Store, target: string, f: Fault): Ran {
    Carry(st, target !in st.datasets, st.(datasets := st.datasets[target := None]), f)
  }

  predicate HasClones(st: Store, s: Snap) {
    exists d :: d in st.datasets && st.datasets[d] == Some(s)
  }

  /** Refused while a clone depends on the snapshot. */
  function ZfsDestroySnapshot(st: Store, s: Snap, f: Fault): Ran {
    Carry(st, s in st.snapshots && !HasClones(st, s), st.(snapshots := st.snapshots - {s}), f)
  }

  /** The datasets cloned from a snapshot of one in `doomed`. */
  function ClonesOf(datasets: map<string, Option<Snap>>, doomed: set<string>): set<string> {
    set d | d in datasets && datasets[d].Some? && datasets[d].value.dataset in doomed
  }

  /** What a recursive destroy takes with it. */
  function Doomed(datasets: map<string, Option<Snap>>, doomed: set<string>): set<string>
    decreases |datasets.Keys - doomed|
  {
    var more := ClonesOf(datasets, doomed) - doomed;
    if more == {} then doomed
    else
      assert more <= datasets.Keys - doomed;
      assert datasets.Keys - (doomed + more) == (datasets.Keys - doomed) - more;
      Doomed(datasets, doomed + more)
  }

  function Without(st: Store, doomed: set<string>): Store {
    st.(datasets := st.datasets - doomed, snapshots := set s | s in st.snapshots && s.dataset !in doomed)
  }

  function ZfsDestroyRecursive(st: Store, target: string, f: Fault): Ran {
    Carry(st, target in st.datasets, Without(st, Doomed(st.datasets, {target})), f)
  }

  function CopyFile(st: Store, source: string, target: string, f: Fault): Ran {
    Carry(st, source in st.files, st.(files := st.files + {target}), f)
  }

  function RemoveFile(st: Store, path: string, f: Fault): Ran {
    Carry(st, path in st.files, st.(files := st.files - {path}), f)
  }

  /** Definition of a domain; nothing is assumed about a name that is taken. */
  function DefineDomain(st: Store, name: string, f: Fault): Ran {
    Carry(st, true, st.(domains := st.domains + {name}), f)
  }

  lemma NothingElseDoomed(datasets: map<string, Option<Snap>>, target: string)
    requires ClonesOf(datasets, {target}) == {}
    ensures Doomed(datasets, {target}) == {target}
  {
  }

  /** A dataset made on top of a well-formed store that lacked it can be destroyed without touching anything else. */
  lemma DestroyUndoes(st: Store, st1: Store, target: string, made: Option<Snap>)
    requires WellFormed(st) && target !in st.datasets
    requires st1.datasets == st.datasets[target := made] && (made.Some? ==> made.value.dataset != target)
    requires st.snapshots <= st1.snapshots && st1.files == st.files && st1.domains == st.domains
    ensures ZfsDestroyRecursive(st1, target, Works)
         == Ran(st.(snapshots := set s | s in st1.snapshots && s.dataset != target), true)
  {
    forall d | d in st1.datasets && st1.datasets[d].Some? ensures st1.datasets[d].value.dataset != target {
      if d != target {
        assert st.datasets[d].value in st.snapshots;
      }
    }
    assert ClonesOf(st1.datasets, {target}) == {};
    NothingElseDoomed(st1.datasets, target);
    assert st1.datasets - {target} == st.datasets;
  }
}
