/**
 The OVA import and export workers and the end of vm.create: every way out
 leaves one job result, one audit record and one broadcast that agree, and what
 is left in the storage is known, whatever the commands and the cleanup did.
 */
module OvaJobs {
  import opened Sums
  import opened Storage

  datatype Report = Report(job: string, ok: bool)

  // ----- import

  datatype ImportFaults = ImportFaults(
    tempDir: bool, untar: bool, ovfFound: bool, ovfRead: bool, diskNamed: bool, diskThere: bool,
    poolListed: bool, create: Fault, convert: Fault, install: Fault, destroy: Fault, remove: Fault)

  predicate Extracted(f: ImportFaults) {
    f.tempDir && f.untar && f.ovfFound && f.ovfRead && f.diskNamed && f.diskThere
  }

  /** The disk of an import, with the cleanup of a failed conversion into a zvol. */
  function DiskAfter(st: Store, dataset: string, image: string, f: ImportFaults): Ran {
    if !Extracted(f) then Ran(st, false)
    else if f.poolListed then
      var made := ZfsCreate(st, dataset, f.create);
      if !made.ok || f.convert.Works? then made else Ran(ZfsDestroyRecursive(made.st, dataset, f.destroy).st, false)
    else Carry(st, true, st.(files := st.files + {image}), f.convert)
  }

  /** The storage and the outcome of a whole import. */
  function ImportAfter(st: Store, vm: string, dataset: string, image: string, f: ImportFaults): Ran {
    var disk := DiskAfter(st, dataset, image, f);
    if !disk.ok then disk
    else
      var installed := DefineDomain(disk.st, vm, f.install);
      if installed.ok then installed
      else if f.poolListed then Ran(ZfsDestroyRecursive(installed.st, dataset, f.destroy).st, false)
      else Ran(RemoveFile(installed.st, image, f.remove).st, false)
  }

  /** Exactly when the disk is imported. */
  predicate ReachesInstall(st: Store, dataset: string, f: ImportFaults) {
    Extracted(f) && (f.poolListed ==> dataset !in st.datasets && f.create.Works?) && f.convert.Works?
  }

  /** Exactly when a failed import leaves the storage as it found it. */
  predicate ImportUndone(st: Store, vm: string, dataset: string, image: string, f: ImportFaults) {
    && (ReachesInstall(st, dataset, f) && f.install.Dies? ==> vm in st.domains)
    && (Extracted(f) ==>
          if f.poolListed
          then dataset in st.datasets || f.create.Refused? || (f.create.Works? && !f.destroy.Refused?)
          else if image in st.files then f.convert.Works? ==> f.remove.Refused?
          else f.convert.Refused? || (f.convert.Works? && !f.remove.Refused?))
  }

  /** A dataset just made on a well-formed store goes without a trace, and leaves the domains alone. */
  lemma CreatedUndone(st: Store, dataset: string, domains: set<string>, f: Fault)
    requires WellFormed(st) && dataset !in st.datasets
    ensures var made := st.(datasets := st.datasets[dataset := None], domains := domains);
      ZfsDestroyRecursive(made, dataset, f).st == if f.Refused? then made else st.(domains := domains)
  {
    var base := st.(domains := domains);
    DestroyUndoes(base, base.(datasets := st.datasets[dataset := None]), dataset, None);
    assert (set s | s in st.snapshots && s.dataset != dataset) == st.snapshots;
  }

  /** The disk on its own: when it is there, and when a failure is undone. */
  lemma DiskOutcome(st: Store, vm: string, dataset: string, image: string, f: ImportFaults)
    requires WellFormed(st)
    ensures var r := DiskAfter(st, dataset, image, f);
      && (r.ok <==> ReachesInstall(st, dataset, f))
      && r.st.domains == st.domains
      && (!r.ok ==> (r.st == st <==> ImportUndone(st, vm, dataset, image, f)))
  {
    if Extracted(f) {
      if f.poolListed {
        if dataset !in st.datasets {
          CreatedUndone(st, dataset, st.domains, f.destroy);
          assert dataset in st.datasets[dataset := None];
        }
      } else if image in st.files {
        assert st.files + {image} == st.files;
      }
    }
  }

  /**
   A whole import, whatever fails: exactly when it succeeds and what it then
   leaves, which domains there are, and exactly when a failure leaves no trace.
   */
  lemma ImportOutcome(st: Store, vm: string, dataset: string, image: string, f: ImportFaults)
    requires WellFormed(st)
    ensures var r := ImportAfter(st, vm, dataset, image, f);
      && (r.ok <==> ReachesInstall(st, dataset, f) && f.install.Works?)
      && (r.ok && f.poolListed ==> r.st == st.(datasets := st.datasets[dataset := None], domains := st.domains + {vm}))
      && (r.ok && !f.poolListed ==> r.st == st.(files := st.files + {image}, domains := st.domains + {vm}))
      && (!r.ok ==> (r.st == st <==> ImportUndone(st, vm, dataset, image, f)))
      && r.st.domains
         == st.domains + if ReachesInstall(st, dataset, f) && !f.install.Refused? then {vm} else {}
  {
    DiskOutcome(st, vm, dataset, image, f);
    if ReachesInstall(st, dataset, f) && !f.install.Works? {
      var domains := st.domains + if f.install.Dies? then {vm} else {};
      assert domains == st.domains <==> (f.install.Dies? ==> vm in st.domains);
      if f.poolListed {
        CreatedUndone(st, dataset, domains, f.destroy);
        assert dataset in st.datasets[dataset := None];
      } else {
        assert image !in st.files ==> st.files + {image} - {image} == st.files;
      }
    }
  }

  /** A conversion that dies half-way leaves its output image behind: nothing removes it. */
  lemma FailedConversionLeaks(st: Store, vm: string, dataset: string, image: string, f: ImportFaults)
    requires Extracted(f) && !f.poolListed && f.convert.Dies? && image !in st.files
    ensures ImportAfter(st, vm, dataset, image, f) == Ran(st.(files := st.files + {image}), false)
    ensures image in ImportAfter(st, vm, dataset, image, f).st.files
  {
  }

  /** An installation that defines the domain and then reports failure leaves a domain without its disk. */
  lemma FailedInstallOrphans(st: Store, vm: string, dataset: string, image: string, f: ImportFaults)
    requires WellFormed(st) && ReachesInstall(st, dataset, f) && f.poolListed
    requires f.install.Dies? && !f.destroy.Refused?
    ensures ImportAfter(st, vm, dataset, image, f) == Ran(st.(domains := st.domains + {vm}), false)
  {
    CreatedUndone(st, dataset, st.domains + {vm}, f.destroy);
  }

  // ----- export

  datatype Names = Names(vmdk: string, ovf: string, manifest: string, archive: string)

  /** The temporary names differ by suffix, and the archive lies in another directory. */
  predicate Distinct(n: Names) {
    n.vmdk != n.ovf && n.ovf != n.manifest && n.vmdk != n.manifest && n.archive !in {n.vmdk, n.ovf, n.manifest}
  }

  /** `vanishes`: somebody takes the archive away before it is looked for. */
  datatype ExportFaults = ExportFaults(
    connection: bool, lookup: bool, xml: bool, diskFound: bool, tempDir: bool, convert: Fault,
    writeOvf: Fault, checksums: bool, writeManifest: Fault, archive: Fault, vanishes: bool,
    dropOvf: Fault, dropManifest: Fault, dropVmdk: Fault)

  predicate Began(f: ExportFaults) {
    f.connection && f.lookup && f.xml && f.diskFound && f.tempDir
  }

  predicate Converted(f: ExportFaults) {
    Began(f) && f.convert.Works?
  }

  predicate Described(f: ExportFaults) {
    Converted(f) && f.writeOvf.Works?
  }

  predicate Listed(f: ExportFaults) {
    Described(f) && f.checksums && f.writeManifest.Works?
  }

  /** The temporary files an export writes. */
  function Written(n: Names, f: ExportFaults): set<string> {
    (if Began(f) && !f.convert.Refused? then {n.vmdk} else {})
    + (if Converted(f) && !f.writeOvf.Refused? then {n.ovf} else {})
    + (if Described(f) && f.checksums && !f.writeManifest.Refused? then {n.manifest} else {})
  }

  /** Those whose removal is tried and not refused. */
  function Dropped(n: Names, f: ExportFaults): set<string> {
    (if Began(f) && !f.dropVmdk.Refused? then {n.vmdk} else {})
    + (if Converted(f) && !f.dropOvf.Refused? then {n.ovf} else {})
    + (if Described(f) && !f.dropManifest.Refused? then {n.manifest} else {})
  }

  /** The files once tar has run, if it does. */
  function Archived(files: set<string>, n: Names, f: ExportFaults): set<string> {
    if !Listed(f) || f.archive.Refused? then files
    else if f.archive.Works? && f.vanishes then files - {n.archive}
    else files + {n.archive}
  }

  predicate Exported(f: ExportFaults) {
    Listed(f) && f.archive.Works? && !f.vanishes
  }

  /**
   What an export leaves, its temporary names being new: no temporary file
   exactly when every one it wrote could be removed; and nothing at all exactly
   when moreover the archive is as before.
   */
  lemma ExportTraces(files: set<string>, n: Names, f: ExportFaults)
    requires Distinct(n) && files !! {n.vmdk, n.ovf, n.manifest}
    ensures var left := Archived(files + Written(n, f), n, f) - Dropped(n, f);
      && (left !! {n.vmdk, n.ovf, n.manifest} <==> Written(n, f) <= Dropped(n, f))
      && (Exported(f) ==> n.archive in left)
      && (left == files <==>
            && Written(n, f) <= Dropped(n, f)
            && (Listed(f) && !f.archive.Refused? ==> (n.archive in files <==> !(f.archive.Works? && f.vanishes))))
  {
    var left := Archived(files + Written(n, f), n, f) - Dropped(n, f);
    var temporary := {n.vmdk, n.ovf, n.manifest};
    assert left * temporary == Written(n, f) - Dropped(n, f);
    if Written(n, f) <= Dropped(n, f) {
      assert left == Archived(files, n, f);
    } else {
      var x :| x in Written(n, f) && x !in Dropped(n, f);
      assert x in left && x !in files;
    }
  }

  class Jobs {
    var store: Store
    var results: seq<Report>
    var audits: seq<Report>
    var broadcasts: seq<Report>

    constructor (store: Store)
      ensures this.store == store && results == audits == broadcasts == []
    {
      this.store := store;
      results, audits, broadcasts := [], [], [];
    }

    method SetResult(job: string, ok: bool)
      modifies this`results
      ensures results == old(results) + [Report(job, ok)]
    {
      results := results + [Report(job, ok)];
    }

    /** The callback at the end of vm.create. */
    method CreateFinished(job: string, ok: bool)
      modifies this`results, this`audits, this`broadcasts
      ensures results == old(results) + [Report(job, ok)]
      ensures audits == old(audits) + [Report(job, ok)]
      ensures broadcasts == old(broadcasts) + [Report(job, ok)]
    {
      if ok {
        SetResult(job, true);
        broadcasts := broadcasts + [Report(job, true)];
        audits := audits + [Report(job, true)];
      } else {
        SetResult(job, false);
        broadcasts := broadcasts + [Report(job, false)];
        audits := audits + [Report(job, false)];
      }
    }

    /** Unpacking: six ways to fail, each with its own job result. */
    method Extract(job: string, f: ImportFaults) returns (ok: bool)
      modifies this`results
      ensures ok <==> Extracted(f)
      ensures results == if ok then old(results) else old(results) + [Report(job, false)]
    {
      if !f.tempDir {
        SetResult(job, false);
        return false;
      }
      if !f.untar {
        SetResult(job, false);
        return false;
      }
      if !f.ovfFound {
        SetResult(job, false);
        return false;
      }
      if !f.ovfRead {
        SetResult(job, false);
        return false;
      }
      if !f.diskNamed {
        SetResult(job, false);
        return false;
      }
      if !f.diskThere {
        SetResult(job, false);
        return false;
      }
      return true;
    }

    /** Up to and including the disk: the job result is set at each failure, the audit comes later. */
    method ImportDisk(job: string, dataset: string, image: string, f: ImportFaults) returns (ok: bool)
      modifies this`store, this`results
      ensures results == if ok then old(results) else old(results) + [Report(job, false)]
      ensures Ran(store, ok) == DiskAfter(old(store), dataset, image, f)
    {
      var extracted := Extract(job, f);
      if !extracted {
        return false;
      }
      if f.poolListed {
        var r := ZfsCreate(store, dataset, f.create);
        store := r.st;
        if !r.ok {
          SetResult(job, false);
          return false;
        }
        if !f.convert.Works? {
          SetResult(job, false);
          store := ZfsDestroyRecursive(store, dataset, f.destroy).st;
          return false;
        }
      } else {
        if !f.convert.Refused? {
          store := store.(files := store.files + {image});
        }
        if !f.convert.Works? {
          SetResult(job, false);
          return false;
        }
      }
      return true;
    }

    method ImportWorker(job: string, vm: string, dataset: string, image: string, f: ImportFaults) returns (ok: bool)
      requires WellFormed(store)
      modifies this
      ensures results == old(results) + [Report(job, ok)]
      ensures audits == old(audits) + [Report(job, ok)]
      ensures broadcasts == old(broadcasts) + [Report(job, ok)]
      ensures Ran(store, ok) == ImportAfter(old(store), vm, dataset, image, f)
      ensures ok <==> ReachesInstall(old(store), dataset, f) && f.install.Works?
      ensures !ok ==> (store == old(store) <==> ImportUndone(old(store), vm, dataset, image, f))
      ensures store.domains == old(store).domains
                + if ReachesInstall(old(store), dataset, f) && !f.install.Refused? then {vm} else {}
      // each step counts
      ensures !f.tempDir || !f.untar || !f.ovfFound || !f.ovfRead || !f.diskNamed || !f.diskThere ==>
                !ok && store == old(store)
      ensures f.poolListed && (!f.create.Works? || dataset in old(store).datasets) ==>
                !ok && store.domains == old(store).domains
      ensures !f.convert.Works? ==> !ok && store.domains == old(store).domains
      ensures !f.install.Works? ==> !ok
      // and when none fails the machine is there, on its disk
      ensures (&& f.tempDir && f.untar && f.ovfFound && f.ovfRead && f.diskNamed && f.diskThere
               && f.convert.Works? && f.install.Works?
               && (f.poolListed ==> f.create.Works? && dataset !in old(store).datasets)) ==>
                && ok && vm in store.domains
                && (if f.poolListed then dataset in store.datasets else image in store.files)
      // a failure with honest commands and a cleanup that is carried out leaves no trace
      ensures (&& !ok && !f.create.Dies? && !f.install.Dies? && !f.destroy.Refused? && !f.remove.Refused?
               && (!f.poolListed ==> !f.convert.Dies? && image !in old(store).files)) ==> store == old(store)
    {
      ImportOutcome(store, vm, dataset, image, f);
      ok := ImportDisk(job, dataset, image, f);
      if ok {
        var installed := DefineDomain(store, vm, f.install);
        store := installed.st;
        if installed.ok {
          SetResult(job, true);
        } else {
          SetResult(job, false);
          if f.poolListed {
            store := ZfsDestroyRecursive(store, dataset, f.destroy).st;
          } else {
            store := RemoveFile(store, image, f.remove).st;
          }
          ok := false;
        }
      }
      audits := audits + [Report(job, ok)];
      broadcasts := broadcasts + [Report(job, ok)];
    }

    /** Write a file, perhaps reporting a failure after it is there. */
    method WriteFile(path: string, f: Fault) returns (ok: bool)
      modifies this`store
      ensures ok <==> f.Works?
      ensures store == old(store).(files := old(store).files + if f.Refused? then {} else {path})
    {
      if !f.Refused? {
        store := store.(files := store.files + {path});
      }
      return f.Works?;
    }

    /** The export up to its cleanup; the paths set so far are what the cleanup goes by. */
    method WriteArchive(n: Names, f: ExportFaults) returns (ok: bool, vmdkSet: bool, ovfSet: bool, manifestSet: bool)
      requires Distinct(n)
      modifies this`store
      ensures store == old(store).(files := Archived(old(store).files + Written(n, f), n, f))
      ensures ok <==> Exported(f)
      ensures vmdkSet == Began(f) && ovfSet == Converted(f) && manifestSet == Described(f)
    {
      ghost var before := store.files;
      ok, vmdkSet, ovfSet, manifestSet := false, false, false, false;
      if !f.connection {
        return;
      }
      if !f.lookup {
        return;
      }
      if !f.xml {
        return;
      }
      if !f.diskFound {
        return;
      }
      if !f.tempDir {
        return;
      }
      vmdkSet := true;
      var converted := WriteFile(n.vmdk, f.convert);
      if !converted {
        return;
      }
      ovfSet := true;
      var described := WriteFile(n.ovf, f.writeOvf);
      if !described {
        return;
      }
      manifestSet := true;
      if !f.checksums {
        return;
      }
      var listed := WriteFile(n.manifest, f.writeManifest);
      assert store.files == before + Written(n, f);
      if !listed {
        return;
      }
      var packed := WriteFile(n.archive, f.archive);
      if !packed {
        return;
      }
      if f.vanishes {
        store := store.(files := store.files - {n.archive});
        assert store.files == before + Written(n, f) - {n.archive};
      }
      ok := n.archive in store.files;
    }

    /** The worker with its cleanup, in the order in which it removes. */
    method ExportWorker(job: string, n: Names, f: ExportFaults) returns (ok: bool)
      requires Distinct(n)
      modifies this
      ensures results == old(results) + [Report(job, ok)]
      ensures audits == old(audits) + [Report(job, ok)]
      ensures broadcasts == old(broadcasts) + [Report(job, ok)]
      ensures ok <==> Exported(f)
      ensures store == old(store).(files := Archived(old(store).files + Written(n, f), n, f) - Dropped(n, f))
      // each step counts
      ensures !f.connection || !f.lookup || !f.xml || !f.diskFound || !f.tempDir ==> !ok && store == old(store)
      ensures !f.convert.Works? || !f.writeOvf.Works? || !f.checksums || !f.writeManifest.Works? ==> !ok
      ensures !f.archive.Works? || f.vanishes ==> !ok
      ensures (&& f.connection && f.lookup && f.xml && f.diskFound && f.tempDir && f.convert.Works? && f.writeOvf.Works?
               && f.checksums && f.writeManifest.Works? && f.archive.Works? && !f.vanishes) ==>
                ok && n.archive in store.files
      // and with removals that are carried out no temporary file that was not there before stays
      ensures (&& !f.dropVmdk.Refused? && !f.dropOvf.Refused? && !f.dropManifest.Refused?
               && old(store).files !! {n.vmdk, n.ovf, n.manifest}) ==> store.files !! {n.vmdk, n.ovf, n.manifest}
    {
      var vmdkSet, ovfSet, manifestSet;
      ok, vmdkSet, ovfSet, manifestSet := WriteArchive(n, f);
      ghost var files := store.files;
      if ovfSet {
        store := RemoveFile(store, n.ovf, f.dropOvf).st;
      }
      if manifestSet {
        store := RemoveFile(store, n.manifest, f.dropManifest).st;
      }
      if vmdkSet {
        store := RemoveFile(store, n.vmdk, f.dropVmdk).st;
      }
      assert store.files == files - Dropped(n, f);
      SetResult(job, ok);
      audits := audits + [Report(job, ok)];
      broadcasts := broadcasts + [Report(job, ok)];
    }
  }
}
