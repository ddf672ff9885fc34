/** The backup service as an object: its methods loop over disks and manifests, step by step. */
module BackupServices {
  import opened Wrappers
  import opened StableSort
  import opened ImageStore
  import opened BackupPaths
  import opened BackupChains
  import opened BackupNames

  const NewestFirst: Manifest -> int := (m: Manifest) => 0 - (m.createdAt as int)

  class BackupService {
    const dir: string
    var manifests: map<string, Manifest>
    var files: Files
    var clock: nat
    ghost var history: map<string, seq<Clusters>>

    constructor (dir: string, files: Files)
      ensures this.dir == dir && Snapshot() == Vault(dir, map[], files, 0, map[])
    {
      this.dir, this.files := dir, files;
      manifests, clock, history := map[], 0, map[];
    }

    ghost function Snapshot(): Vault
      reads this
    {
      Vault(dir, manifests, files, clock, history)
    }

    /** Copies every disk; stops at the first failure. */
    method ExecuteFull(id: string, cfg: Config, failAt: Option<nat>) returns (disks: seq<Disk>, ok: bool)
      modifies this`files
      ensures Progress(files, disks, ok) == FullDisks(dir, old(files), id, cfg, failAt, |cfg.diskPaths|)
    {
      disks, ok := [], true;
      for i := 0 to |cfg.diskPaths|
        invariant Progress(files, disks, ok) == FullDisks(dir, old(files), id, cfg, failAt, i)
      {
        if ok {
          var content := ReadOf(files, cfg, cfg.diskPaths[i]);
          if failAt == Some(i) || content.None? {
            ok := false;
          } else {
            var backupPath := PathOf(dir, id, i, cfg.compression.Gzip?);
            files := files[backupPath := StandAlone(content.value, cfg.compression.Gzip?)];
            disks := disks + [Disk(backupPath, None)];
          }
        }
      }
    }

    /** Creates an overlay on every disk of the parent; stops at the first failure. */
    method ExecuteIncremental(id: string, cfg: Config, parent: Manifest, failAt: Option<nat>)
      returns (disks: seq<Disk>, ok: bool)
      requires |cfg.diskPaths| == |parent.disks|
      modifies this`files
      ensures Progress(files, disks, ok) == OverlayDisks(dir, old(files), id, cfg, parent, failAt, |cfg.diskPaths|)
    {
      disks, ok := [], true;
      for i := 0 to |cfg.diskPaths|
        invariant Progress(files, disks, ok) == OverlayDisks(dir, old(files), id, cfg, parent, failAt, i)
      {
        if ok {
          ghost var prev := Progress(files, disks, ok);
          var parentPath := parent.disks[i].backupPath;
          if failAt == Some(i) || !Readable(files, cfg, cfg.diskPaths[i]) || parentPath !in files {
            ok := false;
          } else {
            var backupPath := PathOf(dir, id, i, false);
            files := files[backupPath := Qcow(map[], Some(parentPath))];
            if cfg.compression.Qcow2? {
              var content := Content(files, backupPath);
              if content.None? {
                ok := false;
              } else {
                files := files[backupPath := Qcow(content.value, None)];
                disks := disks + [Disk(backupPath, Some(parentPath))];
              }
            } else {
              disks := disks + [Disk(backupPath, Some(parentPath))];
            }
          }
          assert Progress(files, disks, ok) == OverlayDisk(dir, id, cfg, parent, failAt, prev, i);
        }
      }
    }

    /** One backup under a new id; `fault` is what the environment does to it. */
    method CreateBackup(id: string, cfg: Config, fault: Fault)
      requires cfg.diskPaths != []
      modifies this
      ensures Snapshot() == Create(old(Snapshot()), id, cfg, fault)
    {
      if fault.mkdirFails {
        return;
      }
      var disks: seq<Disk>, ok: bool := [], false;
      match cfg.kind {
        case Full =>
          disks, ok := ExecuteFull(id, cfg, fault.failAt);
        case Incremental =>
          if cfg.parent.Some? && cfg.parent.value in manifests {
            var parentMeta := manifests[cfg.parent.value];
            if parentMeta.status.Completed? && |parentMeta.disks| == |cfg.diskPaths| && !parentMeta.compression.Gzip?
               && (forall i :: 0 <= i < |parentMeta.disks| ==> !EndsWithGz(parentMeta.disks[i].backupPath)) {
              disks, ok := ExecuteIncremental(id, cfg, parentMeta, fault.failAt);
            }
          }
        case Snapshot =>
          if fault.failAt != Some(0) && cfg.diskPaths[0] in files {
            disks, ok := [Disk("backup-" + id, None)], true;
          }
      }
      assert Progress(files, disks, ok) == Execute(old(Snapshot()), id, cfg, fault.failAt);
      if !ok && !cfg.kind.Snapshot? && !fault.cleanupFails {
        files := RemoveUnder(files, dir, id);
      }
      if !fault.manifestFails {
        manifests := manifests[id := Manifest(id, cfg.kind, if ok then Completed else Failed, clock, disks,
                                              cfg.compression, cfg.parent, cfg.tags)];
      }
      clock := clock + 1;
      history := history[id := SourceContents(old(files), cfg)];
    }

    /** Removes what the id leads to, unless another manifest names that very id as its parent; may fail half way. */
    method DeleteBackup(backupId: string, failure: Option<Loss>) returns (outcome: Deletion)
      modifies this`manifests, this`files
      ensures outcome == DeleteNamed(old(Snapshot()), backupId, failure).1
      ensures Snapshot() == DeleteNamed(old(Snapshot()), backupId, failure).0
    {
      var backupDir := Located(dir, backupId);
      var ids := set id | id in manifests && Within(backupDir, ManifestFile(dir, id));
      var paths := set p | p in files && Within(backupDir, p);
      assert ids == LostIds(Snapshot(), backupDir) && paths == LostPaths(Snapshot(), backupDir);
      if ids == {} && paths == {} {
        return NotFound;
      }
      if exists b :: b in manifests && manifests[b].parent == Some(backupId) && manifests[b].id != backupId {
        return Dependency;
      }
      if failure.Some? {
        manifests := manifests - ids * failure.value.ids;
        files := files - paths * failure.value.paths;
        return IoError;
      }
      manifests := manifests - ids;
      files := files - paths;
      return Deleted;
    }

    /** Every manifest once, newest first. */
    method ListBackups() returns (backups: seq<Manifest>)
      requires forall id :: id in manifests ==> manifests[id].id == id
      ensures forall m :: m in backups <==> m.id in manifests && manifests[m.id] == m
      ensures forall i, j :: 0 <= i < j < |backups| ==> backups[i].id != backups[j].id
      ensures forall i, j :: 0 <= i < j < |backups| ==> backups[i].createdAt >= backups[j].createdAt
    {
      var entries := manifests.Keys;
      var found: seq<Manifest> := [];
      while entries != {}
        invariant entries <= manifests.Keys
        invariant forall m :: m in found <==> m.id in manifests && m.id !in entries && manifests[m.id] == m
        invariant forall i, j :: 0 <= i < j < |found| ==> found[i].id != found[j].id
        decreases entries
      {
        var entry :| entry in entries;
        forall i | 0 <= i < |found| ensures found[i].id != entry { assert found[i] in found; }
        found := found + [manifests[entry]];
        entries := entries - {entry};
      }
      backups := SortBy(found, NewestFirst);
      SortPermutes(found, NewestFirst);
      SortKeepsDistinctIds(found);
      forall m ensures m in backups <==> m in found { SortMember(found, NewestFirst, m); }
    }
  }

  predicate DistinctIds(ms: seq<Manifest>) {
    forall i, j :: 0 <= i < j < |ms| ==> ms[i].id != ms[j].id
  }

  lemma {:induction false} InsertKeepsDistinctIds(m: Manifest, ms: seq<Manifest>, key: Manifest -> int)
    requires DistinctIds(ms) && forall i :: 0 <= i < |ms| ==> ms[i].id != m.id
    ensures DistinctIds(Insert(m, ms, key))
    ensures forall x :: x in Insert(m, ms, key) <==> x == m || x in ms
  {
    if ms != [] && key(m) > key(ms[0]) {
      InsertKeepsDistinctIds(m, ms[1..], key);
      var rest := Insert(m, ms[1..], key);
      forall j | 0 <= j < |rest| ensures rest[j].id != ms[0].id {
        assert rest[j] in rest;
        if rest[j] != m { assert rest[j] in ms[1..]; }
      }
    }
  }

  lemma {:induction false} SortDistinctIds(ms: seq<Manifest>, key: Manifest -> int)
    requires DistinctIds(ms)
    ensures DistinctIds(SortBy(ms, key))
  {
    if ms != [] {
      var rest := ms[1..];
      SortDistinctIds(rest, key);
      var sorted := SortBy(rest, key);
      forall i | 0 <= i < |sorted| ensures sorted[i].id != ms[0].id {
        assert sorted[i] in sorted;
        SortMember(rest, key, sorted[i]);
        var j :| 0 <= j < |rest| && rest[j] == sorted[i];
        assert ms[j + 1] == rest[j];
      }
      InsertKeepsDistinctIds(ms[0], sorted, key);
    }
  }

  lemma SortKeepsDistinctIds(ms: seq<Manifest>)
    requires DistinctIds(ms)
    ensures DistinctIds(SortBy(ms, NewestFirst))
  {
    SortDistinctIds(ms, NewestFirst);
  }
}
