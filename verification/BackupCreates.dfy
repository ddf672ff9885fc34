/**
 What one create leaves, told by its configuration, the vault before it and the faults alone: when it completes,
 what every image holds, what the manifest records, and what is left of a create that failed.
 */
module BackupCreates {
  import opened Wrappers
  import opened JsText
  import opened ImageStore
  import opened BackupPaths
  import opened Restore
  import opened BackupChains
  import opened BackupInvariant
  import opened BackupRestore

  /** The file of disk `i` in a backup's directory. */
  lemma PathText(dir: string, id: string, i: nat, gz: bool)
    ensures PathOf(dir, id, i, gz) == dir + "/" + id + "/disk-" + Digits(i) + (if gz then ".qcow2.gz" else ".qcow2")
  {
    var name := "disk-" + Digits(i) + (if gz then ".qcow2.gz" else ".qcow2");
    assert dir + "/" + id + "/" + name == dir + "/" + id + "/disk-" + Digits(i) + (if gz then ".qcow2.gz" else ".qcow2");
  }

  /** No I/O error hits the directory, one of the first `n` disks, or the manifest. */
  predicate Undisturbed(fault: Fault, n: nat) {
    !fault.mkdirFails && !fault.manifestFails && forall i :: 0 <= i < n ==> fault.failAt != Some(i)
  }

  // ----- FULL -----

  lemma FullDiskOkIff(v: Vault, id: string, cfg: Config, failAt: Option<nat>, prev: Progress, n: nat)
    requires Fresh(v, id) && n < |cfg.diskPaths| && OutsideBackups(v, cfg.diskPaths[n]) && prev.ok
    requires AgreeOutside(v.files, prev.files, NewPaths(v.dir, id, cfg.compression.Gzip?, n))
    ensures FullDisk(v.dir, id, cfg, failAt, prev, n).ok
      <==> failAt != Some(n) && (cfg.diskPaths[n] in cfg.copies || Content(v.files, cfg.diskPaths[n]).Some?)
  {
    SourceUntouched(v, prev.files, id, cfg, cfg.compression.Gzip?, n, cfg.diskPaths[n]);
    hide PathOf, Content, Fresh, OutsideBackups, AgreeOutside, NewPaths;
  }

  lemma {:induction false} FullsCompleteIff(v: Vault, id: string, cfg: Config, failAt: Option<nat>, n: nat)
    requires CreateLegal(v, id, cfg) && n <= |cfg.diskPaths|
    ensures FullDisks(v.dir, v.files, id, cfg, failAt, n).ok
      <==> forall i :: 0 <= i < n ==>
             failAt != Some(i) && (cfg.diskPaths[i] in cfg.copies || Content(v.files, cfg.diskPaths[i]).Some?)
  {
    if n > 0 {
      var prev := FullDisks(v.dir, v.files, id, cfg, failAt, n - 1);
      FullsCompleteIff(v, id, cfg, failAt, n - 1);
      FullDisksOk(v, id, cfg, failAt, n - 1);
      assert OutsideBackups(v, cfg.diskPaths[n - 1]);
      hide PathOf, Content, Fresh, OutsideBackups, AgreeOutside, NewPaths, FullSoFar;
      if prev.ok { FullDiskOkIff(v, id, cfg, failAt, prev, n - 1); }
    }
  }

  /** A FULL backup completes exactly when no I/O error hits it and every disk, or the copy of its snapshot, can be read. */
  lemma FullCompletesIff(v: Vault, id: string, cfg: Config, fault: Fault)
    requires CreateLegal(v, id, cfg) && cfg.kind.Full?
    ensures IsCompleted(Create(v, id, cfg, fault), id)
      <==> && Undisturbed(fault, |cfg.diskPaths|)
           && forall i :: 0 <= i < |cfg.diskPaths| ==>
                cfg.diskPaths[i] in cfg.copies || Content(v.files, cfg.diskPaths[i]).Some?
  {
    FullsCompleteIff(v, id, cfg, fault.failAt, |cfg.diskPaths|);
    assert id !in v.manifests;
    hide FullDisks, CreateLegal, Content, RemoveUnder, SourceContents;
  }

  /**
   Every disk of a completed FULL backup restores to what its source held before the create, or to what the
   copy of its snapshot held if there was one; the file is a standalone image of that, gzipped on request.
   */
  lemma FullStoresDisks(v: Vault, id: string, cfg: Config, fault: Fault, i: nat)
    requires Inv(v) && CreateLegal(v, id, cfg) && cfg.kind.Full? && IsCompleted(Create(v, id, cfg, fault), id)
    requires i < |cfg.diskPaths|
    ensures var w, src, gz := Create(v, id, cfg, fault), cfg.diskPaths[i], cfg.compression.Gzip?;
      var path := v.dir + "/" + id + "/disk-" + Digits(i) + (if gz then ".qcow2.gz" else ".qcow2");
      var restored := Restored(w.files, path, []);
      && |w.manifests[id].disks| == |cfg.diskPaths| && w.manifests[id].disks[i] == Disk(path, None)
      && restored.Some? && (if src in cfg.copies then restored.value == cfg.copies[src] else restored == Content(v.files, src))
      && path in w.files
      && w.files[path] == if gz then Gz(Qcow(restored.value, None)) else Qcow(restored.value, None)
  {
    var w, n := Create(v, id, cfg, fault), |cfg.diskPaths|;
    PathText(v.dir, id, i, cfg.compression.Gzip?);
    FullCompletesIff(v, id, cfg, fault);
    FullsCompleteIff(v, id, cfg, fault.failAt, n);
    CreateKeepsInv(v, id, cfg, fault);
    FullDisksOk(v, id, cfg, fault.failAt, n);
    assert NewFullOk(v, FullDisks(v.dir, v.files, id, cfg, fault.failAt, n), id, cfg, i);
    FullRestoresSource(w, id, i);
    SourceRead(v, cfg, i);
    assert w.manifests[id].disks == FullDisks(v.dir, v.files, id, cfg, fault.failAt, n).disks;
    assert w.files == FullDisks(v.dir, v.files, id, cfg, fault.failAt, n).files;
    assert w.history[id] == SourceContents(v.files, cfg);
    hide FullDisks, PathOf, Content, Fresh, OutsideBackups, AgreeOutside, NewPaths, Inv, Create, Restored, SourceContents;
  }

  lemma SourceRead(v: Vault, cfg: Config, i: nat)
    requires i < |cfg.diskPaths| && (cfg.diskPaths[i] in cfg.copies || Content(v.files, cfg.diskPaths[i]).Some?)
    ensures |SourceContents(v.files, cfg)| == |cfg.diskPaths|
    ensures Some(SourceContents(v.files, cfg)[i])
         == if cfg.diskPaths[i] in cfg.copies then Some(cfg.copies[cfg.diskPaths[i]]) else Content(v.files, cfg.diskPaths[i])
  {
    hide Content;
  }

  // ----- INCREMENTAL -----

  /** The parent is a completed backup of as many disks, no snapshot and not gzipped. */
  predicate CanBeParent(v: Vault, parent: string, disks: nat) {
    && parent in v.manifests && v.manifests[parent].status.Completed? && !v.manifests[parent].kind.Snapshot?
    && !v.manifests[parent].compression.Gzip? && |v.manifests[parent].disks| == disks
  }

  lemma ParentUsableIff(v: Vault, cfg: Config)
    requires Inv(v)
    ensures ParentUsable(v, cfg) && !v.manifests[cfg.parent.value].kind.Snapshot?
      <==> cfg.parent.Some? && CanBeParent(v, cfg.parent.value, |cfg.diskPaths|)
  {
    if cfg.parent.Some? && CanBeParent(v, cfg.parent.value, |cfg.diskPaths|) {
      var p := cfg.parent.value;
      forall i | 0 <= i < |v.manifests[p].disks| ensures !EndsWithGz(v.manifests[p].disks[i].backupPath) {
        ParentDisks(v, p, i);
        NotGz(v.dir, p, i);
      }
    }
  }

  lemma ParentFileKept(v: Vault, files: Files, id: string, parent: string, n: nat)
    requires Inv(v) && parent in v.manifests && parent != id && IsSegment(id) && PathOf(v.dir, parent, n, false) in v.files
    requires AgreeOutside(v.files, files, NewPaths(v.dir, id, false, n))
    ensures PathOf(v.dir, parent, n, false) in files
  {
    assert Healthy(v, parent);
    forall p | p in NewPaths(v.dir, id, false, n) ensures Under(v.dir, id, p) {}
    var parentPath := PathOf(v.dir, parent, n, false);
    if Under(v.dir, id, parentPath) { UnderOneBackup(v.dir, id, parent, parentPath); }
  }

  /** What the create wrote so far is no source disk. */
  lemma SourceStillThere(v: Vault, files: Files, id: string, n: nat, path: string)
    requires OutsideBackups(v, path) && IsSegment(id) && AgreeOutside(v.files, files, NewPaths(v.dir, id, false, n))
    ensures path in files <==> path in v.files
  {
    forall p | p in NewPaths(v.dir, id, false, n) ensures Under(v.dir, id, p) {}
  }

  /** The image of one overlay: empty, or for QCOW2 compression the converted content of the parent. */
  function OverlayImage(v: Vault, cfg: Config, parent: string, i: nat): Image {
    if cfg.compression.Qcow2? then Qcow(BaseContent(v, parent, i), None)
    else Qcow(map[], Some(PathOf(v.dir, parent, i, false)))
  }

  lemma OneOverlay(v: Vault, id: string, cfg: Config, failAt: Option<nat>, prev: Progress, n: nat)
    requires Inv(v) && CreateLegal(v, id, cfg) && cfg.parent.Some? && CanBeParent(v, cfg.parent.value, |cfg.diskPaths|)
    requires n < |cfg.diskPaths| && prev.ok && AgreeOutside(v.files, prev.files, NewPaths(v.dir, id, false, n))
    ensures var done := OverlayDisk(v.dir, id, cfg, v.manifests[cfg.parent.value], failAt, prev, n);
      var path := PathOf(v.dir, id, n, false);
      && (done.ok <==> failAt != Some(n) && (cfg.diskPaths[n] in cfg.copies || cfg.diskPaths[n] in v.files))
      && (done.ok ==> done.files == prev.files[path := OverlayImage(v, cfg, cfg.parent.value, n)])
  {
    var parent := cfg.parent.value;
    ParentDisks(v, parent, n);
    ConvertedOverlay(v, id, parent, prev.files, n);
    ParentFileKept(v, prev.files, id, parent, n);
    assert OutsideBackups(v, cfg.diskPaths[n]);
    SourceStillThere(v, prev.files, id, n, cfg.diskPaths[n]);
    hide PathOf, Content, Inv, Fresh, OutsideBackups, AgreeOutside, BaseContent, CreateLegal;
    OverlayDiskIs(v.dir, id, cfg, v.manifests[parent], failAt, prev, n, BaseContent(v, parent, n));
  }

  /** One overlay when the parent's file is there and reads as `content`. */
  lemma OverlayDiskIs(
    dir: string, id: string, cfg: Config, parent: Manifest, failAt: Option<nat>, prev: Progress, i: nat, content: Clusters)
    requires i < |cfg.diskPaths| == |parent.disks| && prev.ok && parent.disks[i].backupPath in prev.files
    requires var path := PathOf(dir, id, i, false);
      Content(prev.files[path := Qcow(map[], Some(parent.disks[i].backupPath))], path) == Some(content)
    ensures var done := OverlayDisk(dir, id, cfg, parent, failAt, prev, i);
      && (done.ok <==> failAt != Some(i) && (cfg.diskPaths[i] in cfg.copies || cfg.diskPaths[i] in prev.files))
      && (done.ok ==>
            done.files == prev.files[PathOf(dir, id, i, false) :=
              if cfg.compression.Qcow2? then Qcow(content, None) else Qcow(map[], Some(parent.disks[i].backupPath))])
  {
    hide PathOf, Content;
    var path, image := PathOf(dir, id, i, false), Qcow(content, None);
    assert prev.files[path := Qcow(map[], Some(parent.disks[i].backupPath))][path := image] == prev.files[path := image];
  }

  /** The first `n` overlays, each with its image, when none failed. */
  lemma {:induction false} OverlaysCompleteIff(v: Vault, id: string, cfg: Config, failAt: Option<nat>, n: nat)
    requires Inv(v) && CreateLegal(v, id, cfg) && cfg.parent.Some? && CanBeParent(v, cfg.parent.value, |cfg.diskPaths|)
    requires n <= |cfg.diskPaths| && ParentUsable(v, cfg)
    ensures var done := OverlayDisks(v.dir, v.files, id, cfg, v.manifests[cfg.parent.value], failAt, n);
      && (done.ok <==> forall i :: 0 <= i < n ==>
            failAt != Some(i) && (cfg.diskPaths[i] in cfg.copies || cfg.diskPaths[i] in v.files))
      && (done.ok ==> forall i :: 0 <= i < n ==>
            var path := PathOf(v.dir, id, i, false);
            path in done.files && done.files[path] == OverlayImage(v, cfg, cfg.parent.value, i))
  {
    hide Inv, PathOf, AgreeOutside, Fresh, EndsWithGz, NewPaths, OverlaysSoFar, OutsideBackups, OverlayDisk, OverlayImage;
    if n > 0 {
      var prev := OverlayDisks(v.dir, v.files, id, cfg, v.manifests[cfg.parent.value], failAt, n - 1);
      OverlaysCompleteIff(v, id, cfg, failAt, n - 1);
      OverlayDisksOk(v, id, cfg, failAt, n - 1);
      NotOkStays(v.dir, id, cfg, v.manifests[cfg.parent.value], failAt, prev, n - 1);
      if prev.ok {
        OneOverlay(v, id, cfg, failAt, prev, n - 1);
        forall i | 0 <= i < n - 1 ensures PathOf(v.dir, id, i, false) != PathOf(v.dir, id, n - 1, false) {
          PathsDiffer(v.dir, id, i, n - 1, false);
        }
      }
    }
  }

  lemma NotOkStays(dir: string, id: string, cfg: Config, parent: Manifest, failAt: Option<nat>, prev: Progress, i: nat)
    requires i < |cfg.diskPaths| == |parent.disks|
    ensures !prev.ok ==> !OverlayDisk(dir, id, cfg, parent, failAt, prev, i).ok
  {
  }

  /** A snapshot is no file an overlay can stand on. */
  lemma SnapshotParentFails(v: Vault, id: string, cfg: Config, failAt: Option<nat>)
    requires Inv(v) && CreateLegal(v, id, cfg) && ParentUsable(v, cfg) && v.manifests[cfg.parent.value].kind.Snapshot?
    ensures !OverlayDisks(v.dir, v.files, id, cfg, v.manifests[cfg.parent.value], failAt, |cfg.diskPaths|).ok
  {
    OverlayDisksOk(v, id, cfg, failAt, |cfg.diskPaths|);
    hide OverlayDisks, Inv, NewOverlayOk;
  }

  lemma OverlaysResult(v: Vault, id: string, cfg: Config, failAt: Option<nat>)
    requires Inv(v) && CreateLegal(v, id, cfg) && cfg.kind.Incremental?
    ensures Execute(v, id, cfg, failAt).ok
      <==> && cfg.parent.Some? && CanBeParent(v, cfg.parent.value, |cfg.diskPaths|)
           && forall i :: 0 <= i < |cfg.diskPaths| ==>
                failAt != Some(i) && (cfg.diskPaths[i] in cfg.copies || cfg.diskPaths[i] in v.files)
  {
    ParentUsableIff(v, cfg);
    if ParentUsable(v, cfg) {
      if v.manifests[cfg.parent.value].kind.Snapshot? { SnapshotParentFails(v, id, cfg, failAt); }
      else { OverlaysCompleteIff(v, id, cfg, failAt, |cfg.diskPaths|); }
    }
    hide OverlayDisks, Inv, CreateLegal, ParentUsable;
  }

  /**
   An INCREMENTAL completes exactly when no I/O error hits it, its parent is a completed backup of as many
   disks, no snapshot and not gzipped, and every disk or copy is there: how deep the parent's chain already
   is does not matter.
   */
  lemma IncrementalCompletesIff(v: Vault, id: string, cfg: Config, fault: Fault)
    requires Inv(v) && CreateLegal(v, id, cfg) && cfg.kind.Incremental?
    ensures IsCompleted(Create(v, id, cfg, fault), id)
      <==> && Undisturbed(fault, |cfg.diskPaths|)
           && cfg.parent.Some? && CanBeParent(v, cfg.parent.value, |cfg.diskPaths|)
           && forall i :: 0 <= i < |cfg.diskPaths| ==> cfg.diskPaths[i] in cfg.copies || cfg.diskPaths[i] in v.files
  {
    OverlaysResult(v, id, cfg, fault.failAt);
    assert id !in v.manifests;
    hide Execute, Inv, CreateLegal, CanBeParent, RemoveUnder, SourceContents;
  }

  /**
   Every disk of a completed INCREMENTAL stands on the parent's disk and reads as that did before the create: an
   empty overlay, or for QCOW2 compression a standalone image of what the parent shows. Of its own source it
   holds nothing.
   */
  lemma IncrementalStoresOverlays(v: Vault, id: string, cfg: Config, fault: Fault, i: nat)
    requires Inv(v) && CreateLegal(v, id, cfg) && cfg.kind.Incremental? && IsCompleted(Create(v, id, cfg, fault), id)
    requires i < |cfg.diskPaths|
    ensures cfg.parent.Some? && CanBeParent(v, cfg.parent.value, |cfg.diskPaths|)
    ensures var w := Create(v, id, cfg, fault);
      var path := v.dir + "/" + id + "/disk-" + Digits(i) + ".qcow2";
      var parentPath := v.manifests[cfg.parent.value].disks[i].backupPath;
      var shown := Content(v.files, parentPath);
      && |w.manifests[id].disks| == |cfg.diskPaths| && w.manifests[id].disks[i] == Disk(path, Some(parentPath))
      && shown.Some? && path in w.files
      && w.files[path] == if cfg.compression.Qcow2? then Qcow(shown.value, None) else Qcow(map[], Some(parentPath))
  {
    var w, p, n := Create(v, id, cfg, fault), cfg.parent.value, |cfg.diskPaths|;
    IncrementalCompletesIff(v, id, cfg, fault);
    ParentUsableIff(v, cfg);
    OverlaysResult(v, id, cfg, fault.failAt);
    OverlaysCompleteIff(v, id, cfg, fault.failAt, n);
    OverlayDisksOk(v, id, cfg, fault.failAt, n);
    PathText(v.dir, id, i, false);
    ParentDisks(v, p, i);
    ParentShows(v, p, i);
    var done := OverlayDisks(v.dir, v.files, id, cfg, v.manifests[p], fault.failAt, n);
    assert NewOverlayOk(v, done, id, p, i);
    assert w.files == done.files && w.manifests[id].disks == done.disks;
    hide OverlayDisks, PathOf, Content, BaseContent, Fresh, OutsideBackups, AgreeOutside, NewPaths, Inv, Create, ParentUsable;
  }

  lemma ParentShows(v: Vault, id: string, i: nat)
    requires Inv(v) && IsCompleted(v, id) && !v.manifests[id].compression.Gzip? && i < |v.manifests[id].disks|
    ensures Content(v.files, PathOf(v.dir, id, i, false)) == Some(BaseContent(v, id, i))
  {
    BackupReadsAsBase(v, v.files, id, i, {});
  }

  // ----- SNAPSHOT -----

  /** A SNAPSHOT records a name and writes no file; it completes exactly when no error hits it and the first disk is there. */
  lemma SnapshotRecordsName(v: Vault, id: string, cfg: Config, fault: Fault)
    requires CreateLegal(v, id, cfg) && cfg.kind.Snapshot?
    ensures var w := Create(v, id, cfg, fault);
      && w.files == v.files
      && (id in w.manifests && w.manifests[id].status.Completed? <==> Undisturbed(fault, 1) && cfg.diskPaths[0] in v.files)
      && (id in w.manifests && w.manifests[id].status.Completed? ==> w.manifests[id].disks == [Disk("backup-" + id, None)])
  {
    assert id !in v.manifests;
    hide CreateLegal, SourceContents;
  }

  // ----- what every create records and leaves -----

  /** The manifest carries what was asked for, the date of the start, and a final status; others stay as they are. */
  lemma CreateRecords(v: Vault, id: string, cfg: Config, fault: Fault)
    requires CreateLegal(v, id, cfg)
    ensures var w := Create(v, id, cfg, fault);
      && w.manifests.Keys == v.manifests.Keys + (if fault.mkdirFails || fault.manifestFails then {} else {id})
      && (forall x :: x in v.manifests ==> w.manifests[x] == v.manifests[x])
      && (id in w.manifests ==>
            var m := w.manifests[id];
            && m.id == id && m.kind == cfg.kind && m.createdAt == v.clock && m.compression == cfg.compression
            && m.parent == cfg.parent && m.tags == cfg.tags)
  {
    assert id !in v.manifests;
    hide CreateLegal, Execute, RemoveUnder, SourceContents;
  }

  /**
   A create that failed leaves the files as they were, unless removing its directory failed too; one that
   completed has added exactly the files of its disks.
   */
  lemma CreateLeavesFiles(v: Vault, id: string, cfg: Config, fault: Fault)
    requires Inv(v) && CreateLegal(v, id, cfg)
    ensures var w := Create(v, id, cfg, fault);
      && (forall p :: p in w.files && !Under(v.dir, id, p) ==> p in v.files && w.files[p] == v.files[p])
      && (forall p :: p in v.files ==> p in w.files && w.files[p] == v.files[p])
      && (id in w.manifests && w.manifests[id].status.Failed? && !fault.cleanupFails ==> w.files == v.files)
      && (IsCompleted(w, id) ==> w.files.Keys == v.files.Keys + DiskFiles(w.manifests[id]))
  {
    ExecuteWrites(v, id, cfg, fault.failAt);
    assert id !in v.manifests;
    var w := Create(v, id, cfg, fault);
    var done := Execute(v, id, cfg, fault.failAt);
    assert forall p :: p in v.files ==> !Under(v.dir, id, p);
    if id in w.manifests && cfg.kind.Snapshot? { assert done.files == v.files; }
    if IsCompleted(w, id) { CompletedFiles(v, id, cfg, fault); }
    hide CreateLegal, Execute, Inv, Under, SourceContents;
    if id in w.manifests && w.manifests[id].status.Failed? && !fault.cleanupFails && !cfg.kind.Snapshot? {
      assert w.files == RemoveUnder(done.files, v.dir, id);
      assert w.files == v.files;
    }
  }

  function DiskFiles(m: Manifest): set<string> {
    set i | 0 <= i < |m.disks| :: m.disks[i].backupPath
  }

  lemma CompletedFiles(v: Vault, id: string, cfg: Config, fault: Fault)
    requires Inv(v) && CreateLegal(v, id, cfg) && IsCompleted(Create(v, id, cfg, fault), id)
    ensures var w := Create(v, id, cfg, fault); w.files.Keys == v.files.Keys + DiskFiles(w.manifests[id])
  {
    var w, n := Create(v, id, cfg, fault), |cfg.diskPaths|;
    var done := Execute(v, id, cfg, fault.failAt);
    assert id !in v.manifests;
    assert w.files == done.files && w.manifests[id].disks == done.disks && done.ok by {
      hide Execute, CreateLegal, Inv, RemoveUnder, SourceContents;
    }
    if cfg.kind.Full? {
      FullDisksOk(v, id, cfg, fault.failAt, n);
      hide Inv, FullDisks, OutsideBackups, PathOf, StandAlone, SourceContents, Fresh, Create, AgreeOutside;
      forall i | 0 <= i < n
        ensures w.manifests[id].disks[i].backupPath == PathOf(v.dir, id, i, cfg.compression.Gzip?) && PathOf(v.dir, id, i, cfg.compression.Gzip?) in w.files
      {
        assert NewFullOk(v, done, id, cfg, i);
      }
      FilesAreDisks(v, w, id, cfg.compression.Gzip?, n);
    } else {
      ParentUsableIff(v, cfg);
      OverlayDisksOk(v, id, cfg, fault.failAt, n);
      hide Inv, OverlayDisks, OutsideBackups, PathOf, Fresh, Create, AgreeOutside, BaseContent;
      forall i | 0 <= i < n
        ensures w.manifests[id].disks[i].backupPath == PathOf(v.dir, id, i, false) && PathOf(v.dir, id, i, false) in w.files
      {
        assert NewOverlayOk(v, done, id, cfg.parent.value, i);
      }
      FilesAreDisks(v, w, id, false, n);
    }
  }

  lemma FilesAreDisks(v: Vault, w: Vault, id: string, gz: bool, n: nat)
    requires AgreeOutside(v.files, w.files, NewPaths(v.dir, id, gz, n)) && Fresh(v, id)
    requires id in w.manifests && |w.manifests[id].disks| == n
    requires forall i :: 0 <= i < n ==> w.manifests[id].disks[i].backupPath == PathOf(v.dir, id, i, gz) && PathOf(v.dir, id, i, gz) in w.files
    ensures w.files.Keys == v.files.Keys + DiskFiles(w.manifests[id])
  {
    var m := w.manifests[id];
    forall p | p in NewPaths(v.dir, id, gz, n) ensures p in DiskFiles(m) {
      var i :| 0 <= i < n && p == PathOf(v.dir, id, i, gz);
      assert m.disks[i].backupPath == p;
    }
    forall p | p in v.files ensures p !in NewPaths(v.dir, id, gz, n) {
      if p in NewPaths(v.dir, id, gz, n) { assert Under(v.dir, id, p); }
    }
  }

  // ----- over runs -----

  /** No manifest of the id, or one younger than `date`. */
  predicate GoneSince(v: Vault, id: string, date: nat) {
    date < v.clock && (id in v.manifests ==> date < v.manifests[id].createdAt)
  }

  lemma {:induction false} GoneForGood(v: Vault, ops: seq<Op>, w: Vault, id: string, date: nat)
    requires Reaches(v, ops, w) && GoneSince(v, id, date)
    ensures GoneSince(w, id, date)
    decreases |ops|
  {
    hide Create, Delete, CreateLegal, OutsideBackups;
    if ops != [] {
      StepShape(v, ops[0]);
      GoneForGood(Step(v, ops[0]), ops[1..], w, id, date);
    }
  }

  /** A step leaves every manifest and its record alone, or deletes it, or makes one with the date of the step. */
  lemma StepShape(v: Vault, op: Op)
    requires Legal(v, op)
    ensures var w := Step(v, op);
      && v.clock <= w.clock
      && forall x :: x in w.manifests ==>
           if x in v.manifests then
             w.manifests[x] == v.manifests[x] && (x in v.history ==> x in w.history && w.history[x] == v.history[x])
           else w.manifests[x].createdAt == v.clock
  {
    hide Execute, RemoveUnder, SourceContents, OutsideBackups, HasDependent;
    if op.OpCreate? { assert op.id !in v.manifests; }
  }

  /** Whatever happens, a manifest that is still the same one still has its record. */
  lemma {:induction false} RecordKept(v: Vault, ops: seq<Op>, w: Vault, id: string)
    requires Inv(v) && Reaches(v, ops, w)
    requires id in v.manifests && id in w.manifests && w.manifests[id] == v.manifests[id] && id in v.history
    ensures id in w.history && w.history[id] == v.history[id]
    decreases |ops|
  {
    if ops != [] {
      var u := Step(v, ops[0]);
      StepShape(v, ops[0]);
      StepKeepsInv(v, ops[0]);
      assert Healthy(v, id);
      hide Inv, Create, Delete, CreateLegal, OutsideBackups, Healthy;
      if id in u.manifests {
        RecordKept(u, ops[1..], w, id);
      } else {
        StepTicks(v, ops[0]);
        GoneForGood(u, ops[1..], w, id, v.manifests[id].createdAt);
      }
    }
  }

  lemma StepKeepsInv(v: Vault, op: Op)
    requires Inv(v) && Legal(v, op)
    ensures Inv(Step(v, op))
  {
    match op
    case OpCreate(id, cfg, fault) => CreateKeepsInv(v, id, cfg, fault);
    case OpDelete(id, ioFails) => DeleteKeepsInv(v, id, ioFails);
    case OpWrite(path, image) => WriteKeepsInv(v, path, image);
  }

  lemma StepTicks(v: Vault, op: Op)
    requires Legal(v, op)
    ensures v.clock <= Step(v, op).clock
  {
    StepShape(v, op);
  }

  /** What disk `i` of the configuration shows before the create. */
  ghost predicate Shows(v: Vault, cfg: Config, i: nat, content: Option<Clusters>)
    requires i < |cfg.diskPaths|
  {
    var src := cfg.diskPaths[i];
    content.Some? && if src in cfg.copies then content.value == cfg.copies[src] else content == Content(v.files, src)
  }

  /**
   As long as a FULL backup is not deleted, whatever is created, deleted and written meanwhile, each of its disks
   restores to what it showed before the create; and so does every disk of an INCREMENTAL whose chain ends in it.
   */
  lemma FullRestoresForEver(v: Vault, id: string, cfg: Config, fault: Fault, ops: seq<Op>, w: Vault, i: nat)
    requires Inv(v) && CreateLegal(v, id, cfg) && cfg.kind.Full? && IsCompleted(Create(v, id, cfg, fault), id)
    requires Reaches(Create(v, id, cfg, fault), ops, w) && i < |cfg.diskPaths|
    requires id in w.manifests && w.manifests[id] == Create(v, id, cfg, fault).manifests[id]
    ensures |w.manifests[id].disks| == |cfg.diskPaths|
    ensures Shows(v, cfg, i, Restored(w.files, w.manifests[id].disks[i].backupPath, []))
    ensures id in w.history && i < |w.history[id]| && Shows(v, cfg, i, Some(w.history[id][i]))
  {
    var u := Create(v, id, cfg, fault);
    CreateKeepsInv(v, id, cfg, fault);
    FullStoresDisks(v, id, cfg, fault, i);
    hide Create, Inv, CreateLegal, Restored, Content, Execute;
    FullRestoresSource(u, id, i);
    RecordKept(u, ops, w, id);
    RunKeepsInv(u, ops, w);
    FullRestoresSource(w, id, i);
  }

  lemma ChainRestoresFull(
    v: Vault, id: string, cfg: Config, fault: Fault, ops: seq<Op>, w: Vault, x: string, bad: set<string>, i: nat)
    requires Inv(v) && CreateLegal(v, id, cfg) && cfg.kind.Full? && IsCompleted(Create(v, id, cfg, fault), id)
    requires Reaches(Create(v, id, cfg, fault), ops, w) && i < |cfg.diskPaths|
    requires id in w.manifests && w.manifests[id] == Create(v, id, cfg, fault).manifests[id]
    requires IsCompleted(w, x) && w.manifests[x].kind.Incremental? && BaseOf(w, x) == id && i < |w.manifests[x].disks|
    requires Preflight(w, bad, i, w.manifests[x].disks[i]).Ok?
    ensures Shows(v, cfg, i, Restored(w.files, w.manifests[x].disks[i].backupPath, Preflight(w, bad, i, w.manifests[x].disks[i]).value))
  {
    CreateKeepsInv(v, id, cfg, fault);
    FullRestoresForEver(v, id, cfg, fault, ops, w, i);
    hide Create, Inv, CreateLegal, Restored, Walk, Content, Chain, BaseOf;
    RunKeepsInv(Create(v, id, cfg, fault), ops, w);
    IncrementalRestoresBase(w, bad, x, i);
  }
}
