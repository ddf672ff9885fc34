/** Every create, delete and foreign write keeps the backup chains sound. */
module BackupInvariant {
  import opened Wrappers
  import opened ImageStore
  import opened BackupPaths
  import opened BackupChains

  predicate IsCompleted(v: Vault, id: string) {
    id in v.manifests && v.manifests[id].status.Completed? && !v.manifests[id].kind.Snapshot?
  }

  // ----- chains of completed backups -----

  lemma {:induction false} ChainMembers(v: Vault, id: string)
    requires Inv(v) && IsCompleted(v, id)
    ensures forall x :: x in Chain(v, id) ==>
              && IsCompleted(v, x) && (x != id ==> v.manifests[x].createdAt < v.manifests[id].createdAt)
              && |v.manifests[x].disks| == |v.manifests[id].disks|
    ensures forall k :: 0 <= k < |Chain(v, id)| - 1 ==>
              Chain(v, id)[k] in v.manifests && v.manifests[Chain(v, id)[k]].parent == Some(Chain(v, id)[k + 1])
    ensures BaseOf(v, id) in v.manifests && v.manifests[BaseOf(v, id)].kind.Full?
    decreases v.manifests[id].createdAt
  {
    assert Healthy(v, id);
    if HasParent(v, id) {
      var parent := v.manifests[id].parent.value;
      ChainMembers(v, parent);
      assert Chain(v, id)[1..] == Chain(v, parent);
    }
  }

  lemma {:induction false} ChainIdsKept(v: Vault, w: Vault, id: string)
    requires Inv(v) && IsCompleted(v, id)
    requires forall x :: x in Chain(v, id) ==> x in v.manifests && x in w.manifests && w.manifests[x] == v.manifests[x]
    ensures Chain(w, id) == Chain(v, id)
    decreases v.manifests[id].createdAt
  {
    assert Healthy(v, id);
    assert id in Chain(v, id);
    if v.manifests[id].kind.Incremental? {
      var parent := v.manifests[id].parent.value;
      assert Chain(v, id) == [id] + Chain(v, parent);
      assert forall x :: x in Chain(v, parent) ==> x in Chain(v, id);
      assert parent in Chain(v, parent);
      hide Healthy, Inv;
      ChainIdsKept(v, w, parent);
      assert HasParent(w, id);
    }
  }

  /** Two vaults that agree on the chain have the same chain and the same base content. */
  lemma ChainKept(v: Vault, w: Vault, id: string)
    requires Inv(v) && IsCompleted(v, id)
    requires forall x :: x in Chain(v, id) ==> x in v.manifests && x in w.manifests && w.manifests[x] == v.manifests[x]
    requires forall x :: x in Chain(v, id) && x in v.history ==> x in w.history && w.history[x] == v.history[x]
    ensures Chain(w, id) == Chain(v, id)
    ensures forall i: nat :: i < |v.manifests[id].disks| ==> BaseContent(w, id, i) == BaseContent(v, id, i)
  {
    ChainIdsKept(v, w, id);
    BaseHistory(v, id);
    hide Chain, Inv, IsCompleted;
    assert BaseOf(v, id) in Chain(v, id) && BaseOf(w, id) == BaseOf(v, id);
    hide BaseOf;
  }

  lemma BaseHistory(v: Vault, id: string)
    requires Inv(v) && IsCompleted(v, id)
    ensures BaseOf(v, id) in v.history && |v.history[BaseOf(v, id)]| == |v.manifests[id].disks|
  {
    ChainMembers(v, id);
    hide Chain;
    var base := BaseOf(v, id);
    assert base in Chain(v, id);
    assert Healthy(v, base);
  }

  /** A backup stays healthy when its own disks and its chain are left alone. */
  lemma HealthyKept(v: Vault, w: Vault, id: string)
    requires Inv(v) && id in v.manifests && id in w.manifests && w.manifests[id] == v.manifests[id]
    requires w.dir == v.dir && w.clock >= v.clock
    requires IsCompleted(v, id) ==> forall d :: 0 <= d < |v.manifests[id].disks| ==>
               var path := v.manifests[id].disks[d].backupPath;
               path in v.files ==> path in w.files && w.files[path] == v.files[path]
    requires IsCompleted(v, id) ==> forall x :: x in Chain(v, id) ==>
               && x in v.manifests && x in w.manifests && w.manifests[x] == v.manifests[x]
               && (x in v.history ==> x in w.history && w.history[x] == v.history[x])
    ensures Healthy(w, id)
  {
    var m := v.manifests[id];
    assert Healthy(v, id);
    hide PathOf;
    if m.status.Completed? && m.kind.Full? {
      assert id in Chain(v, id);
      forall i | 0 <= i < |m.disks| ensures FullDiskOk(w, m, i) {
        assert FullDiskOk(v, m, i);
      }
    } else if m.status.Completed? && m.kind.Incremental? {
      var parent := m.parent.value;
      assert Chain(v, id) == [id] + Chain(v, parent);
      assert parent in Chain(v, id);
      assert forall x :: x in Chain(v, parent) ==> x in Chain(v, id);
      assert Healthy(v, parent);
      ChainKept(v, w, parent);
      forall i | 0 <= i < |m.disks| ensures OverlayOk(w, m, parent, i) {
        assert OverlayOk(v, m, parent, i);
      }
    }
  }

  /** The disks of a completed backup are files of its own directory. */
  lemma DisksAreItsOwn(v: Vault, id: string, d: nat)
    requires Inv(v) && IsCompleted(v, id) && d < |v.manifests[id].disks|
    ensures v.manifests[id].disks[d].backupPath in v.files && Under(v.dir, id, v.manifests[id].disks[d].backupPath)
  {
    var m := v.manifests[id];
    assert Healthy(v, id);
    if m.kind.Incremental? { assert OverlayOk(v, m, m.parent.value, d); } else { assert FullDiskOk(v, m, d); }
  }

  /** What happens in the directory of another backup does not matter. */
  lemma HealthyKeptApart(v: Vault, w: Vault, id: string, other: string)
    requires Inv(v) && id in v.manifests && id in w.manifests && w.manifests[id] == v.manifests[id]
    requires w.dir == v.dir && w.clock >= v.clock && IsSegment(other) && id != other
    requires forall p :: p in v.files && !Under(v.dir, other, p) ==> p in w.files && w.files[p] == v.files[p]
    requires IsCompleted(v, id) ==> forall x :: x in Chain(v, id) ==>
               && x in v.manifests && x in w.manifests && w.manifests[x] == v.manifests[x]
               && (x in v.history ==> x in w.history && w.history[x] == v.history[x])
    ensures Healthy(w, id)
  {
    if IsCompleted(v, id) {
      forall d | 0 <= d < |v.manifests[id].disks|
        ensures var path := v.manifests[id].disks[d].backupPath;
          path in v.files ==> path in w.files && w.files[path] == v.files[path]
      {
        DisksAreItsOwn(v, id, d);
        assert Healthy(v, id);
        var path := v.manifests[id].disks[d].backupPath;
        if Under(v.dir, other, path) { UnderOneBackup(v.dir, id, other, path); }
      }
    }
    HealthyKept(v, w, id);
  }

  // ----- what a completed backup shows -----

  /** `files` still holds every backup's disk `i`. */
  ghost predicate KeepsDisk(v: Vault, files: Files, i: nat) {
    forall id :: id in v.manifests && PathOf(v.dir, id, i, false) in v.files ==>
      var path := PathOf(v.dir, id, i, false);
      path in files && files[path] == v.files[path]
  }

  /** Disk `i` of a completed, not gzipped backup reads as the FULL base's source did. */
  lemma {:induction false} BackupReadsAsBase(v: Vault, files: Files, id: string, i: nat, visited: set<string>)
    requires Inv(v) && IsCompleted(v, id) && !v.manifests[id].compression.Gzip?
    requires i < |v.manifests[id].disks| && KeepsDisk(v, files, i)
    requires forall x :: x in Chain(v, id) ==> PathOf(v.dir, x, i, false) !in visited
    ensures ContentVia(files, PathOf(v.dir, id, i, false), visited) == Some(BaseContent(v, id, i))
    decreases v.manifests[id].createdAt
  {
    var m := v.manifests[id];
    var path := PathOf(v.dir, id, i, false);
    assert Healthy(v, id);
    if m.kind.Full? {
      assert Chain(v, id) == [id];
      assert FullDiskOk(v, m, i);
      assert files[path] == v.files[path];
    } else {
      var parent := m.parent.value;
      assert Chain(v, id) == [id] + Chain(v, parent);
      assert OverlayOk(v, m, parent, i);
      assert BaseContent(v, id, i) == BaseContent(v, parent, i);
      assert files[path] == v.files[path];
      if files[path].backing.Some? {
        ChainMembers(v, parent);
        assert Healthy(v, parent);
        forall x | x in Chain(v, parent) ensures PathOf(v.dir, x, i, false) !in visited + {path} {
          assert x in Chain(v, id);
          assert Healthy(v, x);
          if PathOf(v.dir, x, i, false) == path { UnderOneBackup(v.dir, x, id, path); }
        }
        BackupReadsAsBase(v, files, parent, i, visited + {path});
        assert BaseContent(v, id, i) + map[] == BaseContent(v, id, i);
      }
    }
  }

  // ----- creating -----

  /** The paths a create writes. */
  function NewPaths(dir: string, id: string, gz: bool, n: nat): set<string> {
    set i | 0 <= i < n :: PathOf(dir, id, i, gz)
  }

  lemma SourceUntouched(v: Vault, files: Files, id: string, cfg: Config, gz: bool, n: nat, src: string)
    requires Fresh(v, id) && OutsideBackups(v, src) && AgreeOutside(v.files, files, NewPaths(v.dir, id, gz, n))
    ensures ReadOf(files, cfg, src) == ReadOf(v.files, cfg, src)
  {
    var private := NewPaths(v.dir, id, gz, n);
    forall p | p in private ensures Under(v.dir, id, p) {}
    FrameOutside(v.files, files, private, src, {}, {});
  }

  predicate NewFullOk(v: Vault, done: Progress, id: string, cfg: Config, i: nat) {
    var path := PathOf(v.dir, id, i, cfg.compression.Gzip?);
    && i < |done.disks| && i < |cfg.diskPaths| && done.disks[i] == Disk(path, None) && path in done.files
    && done.files[path] == StandAlone(SourceContents(v.files, cfg)[i], cfg.compression.Gzip?)
  }

  lemma NewPathsGrow(dir: string, id: string, gz: bool, n: nat)
    ensures NewPaths(dir, id, gz, n + 1) == NewPaths(dir, id, gz, n) + {PathOf(dir, id, n, gz)}
    ensures forall i :: 0 <= i < n ==> PathOf(dir, id, i, gz) != PathOf(dir, id, n, gz)
  {
    forall i | 0 <= i < n ensures PathOf(dir, id, i, gz) != PathOf(dir, id, n, gz) {
      PathsDiffer(dir, id, i, n, gz);
    }
  }

  /** The first `n` disks of a FULL backup hold what their sources held, and nothing else was written. */
  predicate FullSoFar(v: Vault, done: Progress, id: string, cfg: Config, n: nat) {
    done.ok ==> |done.disks| == n && forall i :: 0 <= i < n ==> NewFullOk(v, done, id, cfg, i)
  }

  lemma FullDiskShape(dir: string, id: string, cfg: Config, failAt: Option<nat>, prev: Progress, i: nat)
    returns (image: Image)
    requires i < |cfg.diskPaths|
    ensures var done := FullDisk(dir, id, cfg, failAt, prev, i);
            var path, gz := PathOf(dir, id, i, cfg.compression.Gzip?), cfg.compression.Gzip?;
            var content := ReadOf(prev.files, cfg, cfg.diskPaths[i]);
            && (done.files == prev.files || done.files == prev.files[path := image])
            && (done.ok ==>
                  && prev.ok && content.Some? && image == StandAlone(content.value, gz)
                  && done.files == prev.files[path := image] && done.disks == prev.disks + [Disk(path, None)])
  {
    hide PathOf, ReadOf, StandAlone;
    var done := FullDisk(dir, id, cfg, failAt, prev, i);
    var path := PathOf(dir, id, i, cfg.compression.Gzip?);
    image := if path in done.files then done.files[path] else Qcow(map[], None);
  }

  lemma NewFullKept(v: Vault, prev: Progress, done: Progress, id: string, cfg: Config, n: nat, image: Image, i: nat)
    requires NewFullOk(v, prev, id, cfg, i) && prev.disks <= done.disks
    requires done.files == prev.files[PathOf(v.dir, id, n, cfg.compression.Gzip?) := image]
    requires PathOf(v.dir, id, i, cfg.compression.Gzip?) != PathOf(v.dir, id, n, cfg.compression.Gzip?)
    ensures NewFullOk(v, done, id, cfg, i)
  {
    hide PathOf, StandAlone, SourceContents;
  }

  lemma NextFullDisk(v: Vault, id: string, cfg: Config, failAt: Option<nat>, prev: Progress, n: nat)
    requires Fresh(v, id) && n < |cfg.diskPaths| && OutsideBackups(v, cfg.diskPaths[n])
    requires AgreeOutside(v.files, prev.files, NewPaths(v.dir, id, cfg.compression.Gzip?, n))
    requires FullSoFar(v, prev, id, cfg, n)
    ensures var done := FullDisk(v.dir, id, cfg, failAt, prev, n);
            && AgreeOutside(v.files, done.files, NewPaths(v.dir, id, cfg.compression.Gzip?, n + 1))
            && FullSoFar(v, done, id, cfg, n + 1)
  {
    SourceUntouched(v, prev.files, id, cfg, cfg.compression.Gzip?, n, cfg.diskPaths[n]);
    NewPathsGrow(v.dir, id, cfg.compression.Gzip?, n);
    hide PathOf, Fresh, OutsideBackups, ReadOf, StandAlone, NewPaths, FullDisk, AgreeOutside, NewFullOk;
    var image := FullDiskShape(v.dir, id, cfg, failAt, prev, n);
    var done := FullDisk(v.dir, id, cfg, failAt, prev, n);
    OneMoreWritten(v.files, prev.files, NewPaths(v.dir, id, cfg.compression.Gzip?, n),
      PathOf(v.dir, id, n, cfg.compression.Gzip?), image);
    if done.ok {
      NewFullDisk(v, prev, done, id, cfg, n, image);
      forall i | 0 <= i < n ensures NewFullOk(v, done, id, cfg, i) {
        NewFullKept(v, prev, done, id, cfg, n, image, i);
      }
    }
  }

  lemma NewFullDisk(v: Vault, prev: Progress, done: Progress, id: string, cfg: Config, n: nat, image: Image)
    requires n < |cfg.diskPaths| && |prev.disks| == n && ReadOf(v.files, cfg, cfg.diskPaths[n]).Some?
    requires image == StandAlone(ReadOf(v.files, cfg, cfg.diskPaths[n]).value, cfg.compression.Gzip?)
    requires done.files == prev.files[PathOf(v.dir, id, n, cfg.compression.Gzip?) := image]
    requires done.disks == prev.disks + [Disk(PathOf(v.dir, id, n, cfg.compression.Gzip?), None)]
    ensures NewFullOk(v, done, id, cfg, n)
  {
    hide PathOf, ReadOf, StandAlone;
  }

  lemma OneMoreWritten(a: Files, b: Files, private: set<string>, path: string, image: Image)
    requires AgreeOutside(a, b, private)
    ensures AgreeOutside(a, b, private + {path}) && AgreeOutside(a, b[path := image], private + {path})
  {
  }

  lemma {:induction false} FullDisksOk(v: Vault, id: string, cfg: Config, failAt: Option<nat>, n: nat)
    requires Fresh(v, id) && n <= |cfg.diskPaths|
    requires forall i :: 0 <= i < |cfg.diskPaths| ==> OutsideBackups(v, cfg.diskPaths[i])
    ensures var done := FullDisks(v.dir, v.files, id, cfg, failAt, n);
            && AgreeOutside(v.files, done.files, NewPaths(v.dir, id, cfg.compression.Gzip?, n))
            && FullSoFar(v, done, id, cfg, n)
  {
    hide FullDisk, Fresh, OutsideBackups, PathOf, NewFullOk;
    if n > 0 {
      FullDisksOk(v, id, cfg, failAt, n - 1);
      NextFullDisk(v, id, cfg, failAt, FullDisks(v.dir, v.files, id, cfg, failAt, n - 1), n - 1);
    }
  }

  /** The parent's disks are the standard files of its directory. */
  lemma ParentDisks(v: Vault, id: string, i: nat)
    requires Inv(v) && IsCompleted(v, id) && !v.manifests[id].compression.Gzip? && i < |v.manifests[id].disks|
    ensures v.manifests[id].disks[i].backupPath == PathOf(v.dir, id, i, false)
    ensures PathOf(v.dir, id, i, false) in v.files
  {
    var m := v.manifests[id];
    assert Healthy(v, id);
    if m.kind.Incremental? { assert OverlayOk(v, m, m.parent.value, i); } else { assert FullDiskOk(v, m, i); }
  }

  /** A snapshot is named, not stored: it cannot back an overlay. */
  lemma SnapshotHasNoFile(v: Vault, files: Files, id: string)
    requires Inv(v) && id in v.manifests && v.manifests[id].status.Completed? && v.manifests[id].kind.Snapshot?
    requires forall p :: p in files ==> p != "" && p[0] == '/'
    ensures |v.manifests[id].disks| == 1 && v.manifests[id].disks[0].backupPath !in files
  {
    assert Healthy(v, id);
    assert ("backup-" + id)[0] == 'b';
  }

  lemma ConvertedOverlay(v: Vault, id: string, parent: string, files: Files, i: nat)
    requires Inv(v) && Fresh(v, id) && IsCompleted(v, parent) && !v.manifests[parent].compression.Gzip?
    requires i < |v.manifests[parent].disks| && AgreeOutside(v.files, files, NewPaths(v.dir, id, false, i))
    ensures var path, parentPath := PathOf(v.dir, id, i, false), PathOf(v.dir, parent, i, false);
            Content(files[path := Qcow(map[], Some(parentPath))], path) == Some(BaseContent(v, parent, i))
  {
    var path, parentPath := PathOf(v.dir, id, i, false), PathOf(v.dir, parent, i, false);
    var overlaid := files[path := Qcow(map[], Some(parentPath))];
    ChainMembers(v, parent);
    forall x | x in v.manifests ensures PathOf(v.dir, x, i, false) !in {path} + NewPaths(v.dir, id, false, i) {
      assert Healthy(v, x);
      if PathOf(v.dir, x, i, false) in {path} + NewPaths(v.dir, id, false, i) {
        UnderOneBackup(v.dir, x, id, PathOf(v.dir, x, i, false));
      }
    }
    assert KeepsDisk(v, overlaid, i);
    BackupReadsAsBase(v, overlaid, parent, i, {path});
    assert {} + {path} == {path};
    assert BaseContent(v, parent, i) + map[] == BaseContent(v, parent, i);
  }

  /** The first `n` overlays are empty or copies of what the parent shows, over a parent that is not a snapshot. */
  predicate OverlaysSoFar(v: Vault, done: Progress, id: string, parent: string, n: nat)
    requires parent in v.manifests
  {
    done.ok ==>
      && (n > 0 ==> !v.manifests[parent].kind.Snapshot?)
      && |done.disks| == n && forall i :: 0 <= i < n ==> NewOverlayOk(v, done, id, parent, i)
  }

  lemma NextOverlayDisk(v: Vault, id: string, cfg: Config, failAt: Option<nat>, prev: Progress, n: nat)
    requires Inv(v) && Fresh(v, id) && ParentUsable(v, cfg) && n < |cfg.diskPaths|
    requires AgreeOutside(v.files, prev.files, NewPaths(v.dir, id, false, n))
    requires OverlaysSoFar(v, prev, id, cfg.parent.value, n)
    ensures var done := OverlayDisk(v.dir, id, cfg, v.manifests[cfg.parent.value], failAt, prev, n);
            && AgreeOutside(v.files, done.files, NewPaths(v.dir, id, false, n + 1))
            && OverlaysSoFar(v, done, id, cfg.parent.value, n + 1)
  {
    var parent := cfg.parent.value;
    NewPathsGrow(v.dir, id, false, n);
    var image := OverlayDiskShape(v.dir, id, cfg, v.manifests[parent], failAt, prev, n);
    var done := OverlayDisk(v.dir, id, cfg, v.manifests[parent], failAt, prev, n);
    hide PathOf, Fresh, Content, NewPaths, Inv, BaseContent, OverlayDisk, NewOverlayOk;
    if done.ok { NewOverlayDisk(v, id, cfg, failAt, prev, n); }
    OneMoreWritten(v.files, prev.files, NewPaths(v.dir, id, false, n), PathOf(v.dir, id, n, false), image);
    hide AgreeOutside, ParentUsable;
    if done.ok { EarlierOverlaysKept(v, prev, done, id, parent, n, image); }
  }

  lemma EarlierOverlaysKept(v: Vault, prev: Progress, done: Progress, id: string, parent: string, n: nat, image: Image)
    requires forall i :: 0 <= i < n ==> NewOverlayOk(v, prev, id, parent, i)
    requires prev.disks <= done.disks && done.files == prev.files[PathOf(v.dir, id, n, false) := image]
    ensures forall i :: 0 <= i < n ==> NewOverlayOk(v, done, id, parent, i)
  {
    hide NewOverlayOk, PathOf;
    forall i | 0 <= i < n ensures NewOverlayOk(v, done, id, parent, i) {
      PathsDiffer(v.dir, id, i, n, false);
      NewOverlayKept(v, prev, done, id, parent, n, image, i);
    }
  }

  lemma NewOverlayDisk(v: Vault, id: string, cfg: Config, failAt: Option<nat>, prev: Progress, n: nat)
    requires Inv(v) && Fresh(v, id) && ParentUsable(v, cfg) && n < |cfg.diskPaths|
    requires AgreeOutside(v.files, prev.files, NewPaths(v.dir, id, false, n)) && |prev.disks| == n
    requires OverlayDisk(v.dir, id, cfg, v.manifests[cfg.parent.value], failAt, prev, n).ok
    ensures !v.manifests[cfg.parent.value].kind.Snapshot?
    ensures NewOverlayOk(v, OverlayDisk(v.dir, id, cfg, v.manifests[cfg.parent.value], failAt, prev, n), id, cfg.parent.value, n)
  {
    var parent := cfg.parent.value;
    var image := OverlayDiskShape(v.dir, id, cfg, v.manifests[parent], failAt, prev, n);
    NewPathsAbsolute(v, prev.files, id, n);
    hide OverlayDisk, NewPaths;
    if v.manifests[parent].kind.Snapshot? { SnapshotHasNoFile(v, prev.files, parent); }
    ParentDisks(v, parent, n);
    ConvertedOverlay(v, id, parent, prev.files, n);
    hide PathOf, Fresh, Content, Inv, BaseContent;
  }

  lemma NewOverlayKept(v: Vault, prev: Progress, done: Progress, id: string, parent: string, n: nat, image: Image, i: nat)
    requires NewOverlayOk(v, prev, id, parent, i) && prev.disks <= done.disks
    requires done.files == prev.files[PathOf(v.dir, id, n, false) := image]
    requires PathOf(v.dir, id, i, false) != PathOf(v.dir, id, n, false)
    ensures NewOverlayOk(v, done, id, parent, i)
  {
    hide PathOf, BaseContent;
  }

  lemma OverlayDiskShape(
    dir: string, id: string, cfg: Config, parent: Manifest, failAt: Option<nat>, prev: Progress, i: nat)
    returns (image: Image)
    requires i < |cfg.diskPaths| == |parent.disks|
    ensures var done := OverlayDisk(dir, id, cfg, parent, failAt, prev, i);
            var path, parentPath := PathOf(dir, id, i, false), parent.disks[i].backupPath;
            var content := Content(prev.files[path := Qcow(map[], Some(parentPath))], path);
            && (done.files == prev.files || done.files == prev.files[path := image])
            && (done.ok ==>
                  && prev.ok && parentPath in prev.files && done.files == prev.files[path := image]
                  && done.disks == prev.disks + [Disk(path, Some(parentPath))]
                  && (image == Qcow(map[], Some(parentPath)) || (content.Some? && image == Qcow(content.value, None))))
  {
    hide PathOf, Content;
    var done := OverlayDisk(dir, id, cfg, parent, failAt, prev, i);
    var path := PathOf(dir, id, i, false);
    image := if path in done.files then done.files[path] else Qcow(map[], None);
  }

  lemma {:induction false} OverlayDisksOk(v: Vault, id: string, cfg: Config, failAt: Option<nat>, n: nat)
    requires Inv(v) && Fresh(v, id) && ParentUsable(v, cfg) && n <= |cfg.diskPaths|
    ensures var parent := cfg.parent.value;
            var done := OverlayDisks(v.dir, v.files, id, cfg, v.manifests[parent], failAt, n);
            && AgreeOutside(v.files, done.files, NewPaths(v.dir, id, false, n))
            && OverlaysSoFar(v, done, id, parent, n)
  {
    hide OverlayDisk, Fresh, Inv, PathOf, NewOverlayOk;
    if n > 0 {
      OverlayDisksOk(v, id, cfg, failAt, n - 1);
      var prev := OverlayDisks(v.dir, v.files, id, cfg, v.manifests[cfg.parent.value], failAt, n - 1);
      NextOverlayDisk(v, id, cfg, failAt, prev, n - 1);
    }
  }

  predicate NewOverlayOk(v: Vault, done: Progress, id: string, parent: string, i: nat) {
    var path, parentPath := PathOf(v.dir, id, i, false), PathOf(v.dir, parent, i, false);
    && i < |done.disks| && done.disks[i] == Disk(path, Some(parentPath)) && path in done.files
    && (done.files[path] == Qcow(map[], Some(parentPath))
        || done.files[path] == Qcow(BaseContent(v, parent, i), None))
  }

  lemma NewPathsAbsolute(v: Vault, files: Files, id: string, n: nat)
    requires Inv(v) && AgreeOutside(v.files, files, NewPaths(v.dir, id, false, n))
    ensures forall p :: p in files ==> p != "" && p[0] == '/'
  {
    forall p | p in NewPaths(v.dir, id, false, n) ensures p != "" && p[0] == '/' {
      assert p[0] == v.dir[0];
    }
  }

  // ----- every step keeps the invariant -----

  ghost predicate CreateLegal(v: Vault, id: string, cfg: Config) {
    && Fresh(v, id) && cfg.diskPaths != [] && cfg.parent != Some(id)
    && forall i :: 0 <= i < |cfg.diskPaths| ==> OutsideBackups(v, cfg.diskPaths[i])
  }

  /** The files differ in the directory of one backup only, and all names are absolute. */
  ghost predicate WritesOwn(v: Vault, files: Files, id: string) {
    && (forall p :: !Under(v.dir, id, p) ==> (p in files <==> p in v.files) && (p in files ==> files[p] == v.files[p]))
    && (forall p :: p in files ==> p != "" && p[0] == '/')
  }

  lemma NewPathsAreOwn(v: Vault, files: Files, id: string, gz: bool, n: nat)
    requires Inv(v) && AgreeOutside(v.files, files, NewPaths(v.dir, id, gz, n))
    ensures WritesOwn(v, files, id)
  {
    forall p | p in NewPaths(v.dir, id, gz, n) ensures Under(v.dir, id, p) && p != "" && p[0] == '/' {
      assert p[0] == v.dir[0];
    }
    hide PathOf, Under, Healthy, NewPaths;
  }

  /** A create writes in the directory of its own backup only, and only absolute names. */
  lemma ExecuteWrites(v: Vault, id: string, cfg: Config, failAt: Option<nat>)
    requires Inv(v) && CreateLegal(v, id, cfg)
    ensures WritesOwn(v, Execute(v, id, cfg, failAt).files, id)
  {
    var n := |cfg.diskPaths|;
    hide FullDisks, OverlayDisks, WritesOwn, PathOf, Fresh, OutsideBackups, ParentUsable, NewPaths, FullSoFar, OverlaysSoFar;
    if cfg.kind.Full? {
      FullDisksOk(v, id, cfg, failAt, n);
      NewPathsAreOwn(v, FullDisks(v.dir, v.files, id, cfg, failAt, n).files, id, cfg.compression.Gzip?, n);
    } else if cfg.kind.Incremental? && ParentUsable(v, cfg) {
      OverlayDisksOk(v, id, cfg, failAt, n);
      NewPathsAreOwn(v, Execute(v, id, cfg, failAt).files, id, false, n);
    } else {
      NothingWritten(v, id);
    }
  }

  lemma NothingWritten(v: Vault, id: string)
    requires Inv(v)
    ensures WritesOwn(v, v.files, id)
  {
  }

  lemma NewFullHealthy(v: Vault, id: string, cfg: Config, fault: Fault)
    requires CreateLegal(v, id, cfg) && cfg.kind.Full? && !fault.mkdirFails && !fault.manifestFails && Execute(v, id, cfg, fault.failAt).ok
    ensures FullOk(Create(v, id, cfg, fault), Create(v, id, cfg, fault).manifests[id])
  {
    var n := |cfg.diskPaths|;
    FullDisksOk(v, id, cfg, fault.failAt, n);
    hide FullDisks, Fresh, OutsideBackups, PathOf, StandAlone, SourceContents;
    var done := Execute(v, id, cfg, fault.failAt);
    var w := Create(v, id, cfg, fault);
    assert w.files == done.files && w.manifests[id].disks == done.disks;
    assert w.history[id] == SourceContents(v.files, cfg);
    SourceContentsLength(v.files, cfg);
    forall i | 0 <= i < n ensures FullDiskOk(w, w.manifests[id], i) {
      assert NewFullOk(v, done, id, cfg, i);
    }
  }

  lemma SourceContentsLength(files: Files, cfg: Config)
    ensures |SourceContents(files, cfg)| == |cfg.diskPaths|
  {
  }

  lemma NewOverlaysHealthy(v: Vault, id: string, cfg: Config, fault: Fault)
    requires Inv(v) && CreateLegal(v, id, cfg) && cfg.kind.Incremental? && !fault.mkdirFails && !fault.manifestFails
    requires Execute(v, id, cfg, fault.failAt).ok
    ensures OverlaysOk(Create(v, id, cfg, fault), Create(v, id, cfg, fault).manifests[id])
  {
    var n := |cfg.diskPaths|;
    var parent := cfg.parent.value;
    OverlayDisksOk(v, id, cfg, fault.failAt, n);
    assert Healthy(v, parent);
    ChainMembers(v, parent);
    hide OverlayDisks, OutsideBackups, PathOf, Content, Chain, RemoveUnder, SourceContents, NewOverlayOk, OverlayOk, Inv;
    var done := Execute(v, id, cfg, fault.failAt);
    var w := Create(v, id, cfg, fault);
    assert w.files == done.files && w.manifests[id].disks == done.disks;
    assert forall x :: x in Chain(v, parent) ==> x != id;
    ChainKept(v, w, parent);
    hide Execute, Create, Fresh, ParentUsable, BaseContent;
    forall i | 0 <= i < n ensures OverlayOk(w, w.manifests[id], parent, i) {
      NewIsOverlay(v, w, done, id, parent, i);
    }
  }

  lemma NewIsOverlay(v: Vault, w: Vault, done: Progress, id: string, parent: string, i: nat)
    requires NewOverlayOk(v, done, id, parent, i) && id in w.manifests && w.manifests[id].id == id
    requires w.dir == v.dir && w.files == done.files && w.manifests[id].disks == done.disks
    requires BaseContent(w, parent, i) == BaseContent(v, parent, i)
    ensures OverlayOk(w, w.manifests[id], parent, i)
  {
    hide PathOf, BaseContent;
  }

  lemma NewBackupHealthy(v: Vault, id: string, cfg: Config, fault: Fault)
    requires Inv(v) && CreateLegal(v, id, cfg) && !fault.mkdirFails && !fault.manifestFails
    ensures Healthy(Create(v, id, cfg, fault), id)
  {
    hide FullDisks, OverlayDisks, OutsideBackups, FullOk, OverlaysOk;
    if Execute(v, id, cfg, fault.failAt).ok {
      if cfg.kind.Full? { NewFullHealthy(v, id, cfg, fault); }
      if cfg.kind.Incremental? { NewOverlaysHealthy(v, id, cfg, fault); }
    }
  }

  /** A new backup is younger than whatever it names, and nothing names it. */
  lemma CreateKeepsOrder(v: Vault, id: string, cfg: Config, fault: Fault)
    requires Inv(v) && CreateLegal(v, id, cfg)
    ensures LinksOlder(Create(v, id, cfg, fault))
  {
    hide Execute, RemoveUnder, SourceContents, OutsideBackups;
    var w := Create(v, id, cfg, fault);
    forall x | x in w.manifests && w.manifests[x].parent.Some? && w.manifests[x].parent.value in w.manifests
      ensures w.manifests[w.manifests[x].parent.value].createdAt < w.manifests[x].createdAt
    {
      var p := w.manifests[x].parent.value;
      assert p != id;
      assert Healthy(v, p);
    }
  }

  lemma CreateKeepsInv(v: Vault, id: string, cfg: Config, fault: Fault)
    requires Inv(v) && CreateLegal(v, id, cfg)
    ensures Inv(Create(v, id, cfg, fault))
  {
    var w := Create(v, id, cfg, fault);
    ExecuteWrites(v, id, cfg, fault.failAt);
    if !fault.mkdirFails && !fault.manifestFails { NewBackupHealthy(v, id, cfg, fault); }
    CreateKeepsOrder(v, id, cfg, fault);
    forall x | x in w.manifests ensures Healthy(w, x) {
      if x != id {
        if IsCompleted(v, x) { ChainMembers(v, x); }
        HealthyKeptApart(v, w, x, id);
      }
    }
  }

  /** A chain never runs through a backup that nothing depends on. */
  lemma {:induction false} NoDependentNotInChain(v: Vault, id: string, gone: string)
    requires Inv(v) && IsCompleted(v, id) && !HasDependent(v, gone) && id != gone
    ensures gone !in Chain(v, id)
    decreases v.manifests[id].createdAt
  {
    assert Healthy(v, id);
    if v.manifests[id].kind.Incremental? {
      var parent := v.manifests[id].parent.value;
      assert Chain(v, id) == [id] + Chain(v, parent);
      assert v.manifests[id].id == id && parent != gone;
      NoDependentNotInChain(v, parent, gone);
    }
  }

  // ----- losing manifests and files -----

  function Without(v: Vault, ids: set<string>, paths: set<string>): Vault {
    v.(manifests := v.manifests - ids, files := v.files - paths)
  }

  /** A completed backup needs the files of its disks and, as an INCREMENTAL, the manifest of its parent. */
  predicate Spared(v: Vault, ids: set<string>, paths: set<string>, id: string)
    requires id in v.manifests
  {
    var m := v.manifests[id];
    IsCompleted(v, id) ==>
      && (forall d :: 0 <= d < |m.disks| ==> m.disks[d].backupPath !in paths)
      && (m.kind.Incremental? ==> m.parent.Some? && m.parent.value !in ids)
  }

  ghost predicate AllSpared(v: Vault, ids: set<string>, paths: set<string>) {
    forall x :: x in v.manifests && x !in ids ==> Spared(v, ids, paths, x)
  }

  lemma {:induction false} SparedChain(v: Vault, ids: set<string>, paths: set<string>, id: string)
    requires Inv(v) && IsCompleted(v, id) && id !in ids && AllSpared(v, ids, paths)
    ensures forall x :: x in Chain(v, id) ==> x in v.manifests && x !in ids
    decreases v.manifests[id].createdAt
  {
    assert Healthy(v, id) && Spared(v, ids, paths, id);
    if v.manifests[id].kind.Incremental? {
      var parent := v.manifests[id].parent.value;
      assert Chain(v, id) == [id] + Chain(v, parent);
      SparedChain(v, ids, paths, parent);
    }
  }

  /**
   Whatever manifests and files go, the vault stays sound exactly when no remaining completed backup
   loses a disk's file or its parent's manifest.
   */
  lemma LossKeepsInvIff(v: Vault, ids: set<string>, paths: set<string>)
    requires Inv(v)
    ensures Inv(Without(v, ids, paths)) <==> AllSpared(v, ids, paths)
  {
    hide Inv, Spared;
    if AllSpared(v, ids, paths) { SparedIsSound(v, ids, paths); }
    if Inv(Without(v, ids, paths)) {
      forall x | x in v.manifests && x !in ids ensures Spared(v, ids, paths, x) { SoundIsSpared(v, ids, paths, x); }
    }
  }

  lemma SparedIsSound(v: Vault, ids: set<string>, paths: set<string>)
    requires Inv(v) && AllSpared(v, ids, paths)
    ensures Inv(Without(v, ids, paths))
  {
    var w := Without(v, ids, paths);
    forall x | x in w.manifests ensures Healthy(w, x) {
      assert Spared(v, ids, paths, x);
      if IsCompleted(v, x) { SparedChain(v, ids, paths, x); }
      hide Chain, Healthy;
      HealthyKept(v, w, x);
    }
  }

  lemma SoundIsSpared(v: Vault, ids: set<string>, paths: set<string>, id: string)
    requires Inv(Without(v, ids, paths)) && id in v.manifests && id !in ids
    ensures Spared(v, ids, paths, id)
  {
    var w := Without(v, ids, paths);
    if IsCompleted(w, id) {
      forall d | 0 <= d < |w.manifests[id].disks| ensures w.manifests[id].disks[d].backupPath !in paths {
        DisksAreItsOwn(w, id, d);
      }
      assert Healthy(w, id);
    }
  }

  /** Nothing else loses anything when files of one backup go and its manifest goes only if nothing depends on it. */
  lemma OthersSpared(v: Vault, id: string, ids: set<string>, paths: set<string>)
    requires Inv(v) && IsSegment(id) && ids <= {id} && (id in ids ==> !HasDependent(v, id))
    requires forall p :: p in paths ==> Under(v.dir, id, p)
    ensures forall x :: x in v.manifests && x != id ==> Spared(v, ids, paths, x)
  {
    forall x | x in v.manifests && x != id ensures Spared(v, ids, paths, x) {
      assert Healthy(v, x);
      if IsCompleted(v, x) {
        forall d | 0 <= d < |v.manifests[x].disks| ensures v.manifests[x].disks[d].backupPath !in paths {
          DisksAreItsOwn(v, x, d);
          if v.manifests[x].disks[d].backupPath in paths { UnderOneBackup(v.dir, x, id, v.manifests[x].disks[d].backupPath); }
        }
      }
    }
  }

  function FilesUnder(v: Vault, id: string): set<string> {
    set p | p in v.files && Under(v.dir, id, p)
  }

  lemma DeleteKeepsInv(v: Vault, id: string, ioFails: bool)
    requires Inv(v)
    ensures Inv(Delete(v, id, ioFails).0)
  {
    if Delete(v, id, ioFails).1.Deleted? {
      assert IsSegment(id) by { if id in v.manifests { assert Healthy(v, id); } }
      DeleteIsLoss(v, id);
      OthersSpared(v, id, {id}, FilesUnder(v, id));
      LossKeepsInvIff(v, {id}, FilesUnder(v, id));
    }
  }

  lemma DeleteIsLoss(v: Vault, id: string)
    ensures v.(manifests := v.manifests - {id}, files := RemoveUnder(v.files, v.dir, id)) == Without(v, {id}, FilesUnder(v, id))
  {
    assert RemoveUnder(v.files, v.dir, id) == v.files - FilesUnder(v, id);
  }

  /** A removal that fails half way: some files of the directory are gone, the manifest perhaps. */
  function PartialDelete(v: Vault, id: string, gone: set<string>, manifestGone: bool): Vault {
    Without(v, if manifestGone then {id} else {}, set p | p in gone && Under(v.dir, id, p))
  }

  /**
   After a removal that failed half way every other backup is as sound as before; the vault as a whole is
   sound exactly when the manifest went too, or no file of a disk of a completed backup did; and deleting
   again gives what the first delete would have given.
   */
  lemma PartialDeleteRecovers(v: Vault, id: string, gone: set<string>, manifestGone: bool)
    requires Inv(v) && IsSegment(id) && DirectoryExists(v, id) && !HasDependent(v, id)
    ensures var w := PartialDelete(v, id, gone, manifestGone);
      && (forall x :: x in w.manifests && x != id ==> Healthy(w, x))
      && (Inv(w) <==> manifestGone || !IsCompleted(v, id)
                      || forall d :: 0 <= d < |v.manifests[id].disks| ==> v.manifests[id].disks[d].backupPath !in gone)
      && Delete(w, id, false).0 == Delete(v, id, false).0
  {
    var ids: set<string> := if manifestGone then {id} else {};
    var paths := set p | p in gone && Under(v.dir, id, p);
    OthersSpared(v, id, ids, paths);
    LossKeepsInvIff(v, ids, paths);
    DeleteAgain(v, id, gone, manifestGone);
    OthersHealthy(v, id, ids, paths);
    if IsCompleted(v, id) {
      assert Healthy(v, id);
      forall d | 0 <= d < |v.manifests[id].disks|
        ensures v.manifests[id].disks[d].backupPath in gone <==> v.manifests[id].disks[d].backupPath in paths
      {
        DisksAreItsOwn(v, id, d);
      }
    }
    assert id in v.manifests && !manifestGone ==> (AllSpared(v, ids, paths) <==> Spared(v, ids, paths, id));
  }

  lemma OthersHealthy(v: Vault, id: string, ids: set<string>, paths: set<string>)
    requires Inv(v) && IsSegment(id) && ids <= {id} && !HasDependent(v, id)
    requires forall p :: p in paths ==> Under(v.dir, id, p)
    ensures forall x :: x in v.manifests && x != id ==> Healthy(Without(v, ids, paths), x)
  {
    var w := Without(v, ids, paths);
    forall x | x in v.manifests && x != id ensures Healthy(w, x) {
      assert Healthy(v, x);
      if IsCompleted(v, x) {
        NoDependentNotInChain(v, x, id);
        ChainMembers(v, x);
      }
      HealthyKeptApart(v, w, x, id);
    }
  }

  lemma DeleteAgain(v: Vault, id: string, gone: set<string>, manifestGone: bool)
    requires IsSegment(id) && DirectoryExists(v, id) && !HasDependent(v, id)
    ensures Delete(PartialDelete(v, id, gone, manifestGone), id, false).0 == Delete(v, id, false).0
  {
    var w := PartialDelete(v, id, gone, manifestGone);
    assert !HasDependent(w, id);
    assert RemoveUnder(w.files, v.dir, id) == RemoveUnder(v.files, v.dir, id);
    assert w.manifests - {id} == v.manifests - {id};
    if !DirectoryExists(w, id) {
      assert RemoveUnder(w.files, v.dir, id) == w.files;
      assert w.manifests == v.manifests - {id};
    }
  }

  lemma WriteKeepsInv(v: Vault, path: string, image: Image)
    requires Inv(v) && OutsideBackups(v, path)
    ensures Inv(WriteFile(v, path, image))
  {
    var w := WriteFile(v, path, image);
    forall x | x in w.manifests ensures Healthy(w, x) {
      if IsCompleted(v, x) {
        ChainMembers(v, x);
        forall d | 0 <= d < |v.manifests[x].disks| ensures v.manifests[x].disks[d].backupPath != path {
          DisksAreItsOwn(v, x, d);
          assert Healthy(v, x);
        }
      }
      HealthyKept(v, w, x);
    }
  }

  datatype Op =
    | OpCreate(id: string, cfg: Config, fault: Fault)
    | OpDelete(id: string, ioFails: bool)
    | OpWrite(path: string, image: Image)

  ghost predicate Legal(v: Vault, op: Op) {
    match op
    case OpCreate(id, cfg, _) => CreateLegal(v, id, cfg)
    case OpDelete(_, _) => true
    case OpWrite(path, _) => OutsideBackups(v, path)
  }

  ghost function Step(v: Vault, op: Op): Vault
    requires Legal(v, op)
  {
    match op
    case OpCreate(id, cfg, fault) => Create(v, id, cfg, fault)
    case OpDelete(id, ioFails) => Delete(v, id, ioFails).0
    case OpWrite(path, image) => WriteFile(v, path, image)
  }

  /** A run whose steps are legal where they happen leads from `v` to `w`. */
  ghost predicate Reaches(v: Vault, ops: seq<Op>, w: Vault)
    decreases |ops|
  {
    if ops == [] then v == w else Legal(v, ops[0]) && Reaches(Step(v, ops[0]), ops[1..], w)
  }

  /** In every reachable state every completed INCREMENTAL has its whole chain down to a FULL base. */
  lemma {:induction false} RunKeepsInv(v: Vault, ops: seq<Op>, w: Vault)
    requires Inv(v) && Reaches(v, ops, w)
    ensures Inv(w)
    decreases |ops|
  {
    hide Inv;
    if ops != [] {
      match ops[0]
      case OpCreate(id, cfg, fault) => CreateKeepsInv(v, id, cfg, fault); RunKeepsInv(Step(v, ops[0]), ops[1..], w);
      case OpDelete(id, ioFails) => DeleteKeepsInv(v, id, ioFails); RunKeepsInv(Step(v, ops[0]), ops[1..], w);
      case OpWrite(path, image) => WriteKeepsInv(v, path, image); RunKeepsInv(Step(v, ops[0]), ops[1..], w);
    }
  }

  /** Every state reached from a host without backups is sound. */
  lemma ReachableInv(dir: string, files: Files, ops: seq<Op>, w: Vault)
    requires dir != "" && dir[0] == '/' && forall p :: p in files ==> p != "" && p[0] == '/'
    requires Reaches(Vault(dir, map[], files, 0, map[]), ops, w)
    ensures Inv(w)
  {
    EmptyVaultInv(dir, files);
    RunKeepsInv(Vault(dir, map[], files, 0, map[]), ops, w);
  }

  lemma EmptyVaultInv(dir: string, files: Files)
    requires dir != "" && dir[0] == '/' && forall p :: p in files ==> p != "" && p[0] == '/'
    ensures Inv(Vault(dir, map[], files, 0, map[]))
  {
  }
}
