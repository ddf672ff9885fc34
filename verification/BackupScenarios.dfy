/**
 Runs that show where the code and its intent part: an INCREMENTAL that ignores changes, a chain deeper than
 a restore accepts, a backup directory that moved, a removal that stopped half way.
 */
module BackupScenarios {
  import opened Wrappers
  import opened ImageStore
  import opened BackupPaths
  import opened Restore
  import opened BackupChains
  import opened BackupInvariant
  import opened BackupRestore

  // ----- backups of one disk, when nothing fails -----

  function PlainFull(src: string): Config {
    Config(Full, [src], NoCompression, None, {}, map[])
  }

  function PlainIncremental(src: string, parent: string): Config {
    Config(Incremental, [src], NoCompression, Some(parent), {}, map[])
  }

  function WithFull(v: Vault, content: Clusters, id: string): Vault {
    var path := PathOf(v.dir, id, 0, false);
    Vault(v.dir,
          v.manifests[id := Manifest(id, Full, Completed, v.clock, [Disk(path, None)], NoCompression, None, {})],
          v.files[path := Qcow(content, None)], v.clock + 1, v.history[id := [content]])
  }

  function WithOverlay(v: Vault, content: Clusters, parentPath: string, parent: string, id: string): Vault {
    var path := PathOf(v.dir, id, 0, false);
    var disk := Disk(path, Some(parentPath));
    Vault(v.dir,
          v.manifests[id := Manifest(id, Incremental, Completed, v.clock, [disk], NoCompression, Some(parent), {})],
          v.files[path := Qcow(map[], Some(parentPath))], v.clock + 1, v.history[id := [content]])
  }

  lemma FullResult(v: Vault, src: string, content: Clusters, id: string)
    requires Content(v.files, src) == Some(content)
    ensures Create(v, id, PlainFull(src), NoFault) == WithFull(v, content, id)
  {
    var cfg, start := PlainFull(src), Progress(v.files, [], true);
    hide PathOf, Content;
    assert FullDisks(v.dir, v.files, id, cfg, None, 0) == start;
    assert FullDisks(v.dir, v.files, id, cfg, None, 1) == FullDisk(v.dir, id, cfg, None, start, 0);
    var path := PathOf(v.dir, id, 0, false);
    assert Execute(v, id, cfg, None) == Progress(v.files[path := Qcow(content, None)], [Disk(path, None)], true);
    hide Execute;
    assert SourceContents(v.files, cfg) == [content];
  }

  /** A parent an overlay can stand on: completed, one disk, its file `path` there and not gzipped. */
  predicate OneDiskParent(v: Vault, parent: string, path: string) {
    && parent in v.manifests && v.manifests[parent].status.Completed? && !v.manifests[parent].compression.Gzip?
    && |v.manifests[parent].disks| == 1 && v.manifests[parent].disks[0].backupPath == path
    && path in v.files && !EndsWithGz(path)
  }

  lemma OverlayResult(v: Vault, src: string, content: Clusters, parentPath: string, parent: string, id: string)
    requires OneDiskParent(v, parent, parentPath) && src in v.files && Content(v.files, src) == Some(content)
    ensures Create(v, id, PlainIncremental(src, parent), NoFault) == WithOverlay(v, content, parentPath, parent, id)
  {
    var cfg, m, start := PlainIncremental(src, parent), v.manifests[parent], Progress(v.files, [], true);
    hide PathOf, Content;
    assert ParentUsable(v, cfg);
    assert OverlayDisks(v.dir, v.files, id, cfg, m, None, 0) == start;
    assert OverlayDisks(v.dir, v.files, id, cfg, m, None, 1) == OverlayDisk(v.dir, id, cfg, m, None, start, 0);
    var path := PathOf(v.dir, id, 0, false);
    assert Execute(v, id, cfg, None)
        == Progress(v.files[path := Qcow(map[], Some(parentPath))], [Disk(path, Some(parentPath))], true);
    hide Execute;
    assert SourceContents(v.files, cfg) == [content];
  }

  lemma StandsAlone(files: Files, src: string, content: Clusters)
    requires src in files && files[src] == Qcow(content, None)
    ensures Content(files, src) == Some(content)
  {
  }

  // ----- an INCREMENTAL ignores what changed -----

  lemma SameDirOutside(v: Vault, w: Vault, path: string)
    requires OutsideBackups(v, path) && w.dir == v.dir
    ensures OutsideBackups(w, path)
  {
  }

  lemma SourceIsNoBackup(v: Vault, src: string, id: string)
    requires OutsideBackups(v, src) && IsSegment(id)
    ensures src != PathOf(v.dir, id, 0, false)
  {
    assert Under(v.dir, id, PathOf(v.dir, id, 0, false));
  }

  /** A full or an overlay on an unrelated parent leaves another unused id unused. */
  lemma FreshAfterNew(v: Vault, content: Clusters, parentPath: string, parent: string, id: string, other: string)
    requires Fresh(v, other) && IsSegment(id) && id != other
    ensures Fresh(WithFull(v, content, id), other)
    ensures parent != other && !Under(v.dir, other, parentPath) ==> Fresh(WithOverlay(v, content, parentPath, parent, id), other)
  {
    var path := PathOf(v.dir, id, 0, false);
    if Under(v.dir, other, path) { UnderOneBackup(v.dir, other, id, path); }
    hide PathOf, Under;
  }

  /** After a FULL backup of one disk. */
  lemma AfterFull(v: Vault, src: string, content: Clusters, id: string)
    requires Inv(v) && OutsideBackups(v, src) && Fresh(v, id)
    requires src in v.files && v.files[src] == Qcow(content, None)
    ensures var w := Create(v, id, PlainFull(src), NoFault);
      && w == WithFull(v, content, id) && Inv(w) && IsCompleted(w, id)
      && OneDiskParent(w, id, PathOf(w.dir, id, 0, false)) && Chain(w, id) == [id]
      && OutsideBackups(w, src) && src in w.files && w.files[src] == Qcow(content, None)
  {
    StandsAlone(v.files, src, content);
    FullResult(v, src, content, id);
    CreateKeepsInv(v, id, PlainFull(src), NoFault);
    SameDirOutside(v, WithFull(v, content, id), src);
    SourceIsNoBackup(v, src, id);
    NotGz(v.dir, id, 0);
    hide Inv, Fresh, OutsideBackups, PathOf, Create;
  }

  lemma PlainIsLegal(v: Vault, src: string, parent: string, id: string)
    requires OutsideBackups(v, src) && Fresh(v, id) && parent != id
    ensures CreateLegal(v, id, PlainIncremental(src, parent)) && IsSegment(id)
  {
    hide OutsideBackups;
  }

  /** After an INCREMENTAL of one disk on a completed parent, whatever lies below that. */
  lemma AfterOverlay(v: Vault, src: string, content: Clusters, parent: string, id: string)
    requires Inv(v) && OutsideBackups(v, src) && Fresh(v, id) && parent != id
    requires src in v.files && v.files[src] == Qcow(content, None)
    requires IsCompleted(v, parent) && OneDiskParent(v, parent, PathOf(v.dir, parent, 0, false))
    ensures var w := Create(v, id, PlainIncremental(src, parent), NoFault);
      && w == WithOverlay(v, content, PathOf(v.dir, parent, 0, false), parent, id) && Inv(w) && IsCompleted(w, id)
      && OneDiskParent(w, id, PathOf(w.dir, id, 0, false)) && Chain(w, id) == [id] + Chain(v, parent)
      && OutsideBackups(w, src) && src in w.files && w.files[src] == Qcow(content, None)
  {
    var parentPath := PathOf(v.dir, parent, 0, false);
    PlainIsLegal(v, src, parent, id);
    hide Inv, Fresh, OutsideBackups, PathOf, Create, Chain, CreateLegal, Content, IsSegment;
    StandsAlone(v.files, src, content);
    OverlayResult(v, src, content, parentPath, parent, id);
    SameDirOutside(v, WithOverlay(v, content, parentPath, parent, id), src);
    SourceIsNoBackup(v, src, id);
    NotGz(v.dir, id, 0);
    assert IsCompleted(WithOverlay(v, content, parentPath, parent, id), id);
    ChainOfNew(v, id, PlainIncremental(src, parent), NoFault);
  }

  /** A FULL backup and an INCREMENTAL on it. */
  function TakePair(v: Vault, src: string, full: string, inc: string): Vault {
    Create(Create(v, full, PlainFull(src), NoFault), inc, PlainIncremental(src, full), NoFault)
  }

  function WithPair(v: Vault, content: Clusters, full: string, inc: string): Vault {
    WithOverlay(WithFull(v, content, full), content, PathOf(v.dir, full, 0, false), full, inc)
  }

  lemma AfterPair(v: Vault, src: string, content: Clusters, full: string, inc: string)
    requires Inv(v) && Fresh(v, full) && Fresh(v, inc) && full != inc
    requires OutsideBackups(v, src) && src in v.files && v.files[src] == Qcow(content, None)
    ensures var w := TakePair(v, src, full, inc); w == WithPair(v, content, full, inc) && Inv(w)
  {
    AfterFull(v, src, content, full);
    FreshAfterNew(v, content, "", "", full, inc);
    hide Inv, PathOf, Create, OutsideBackups, Chain, Fresh;
    AfterOverlay(Create(v, full, PlainFull(src), NoFault), src, content, full, inc);
  }

  /**
   A FULL backup of a disk, a change of the disk, an INCREMENTAL backup on top: both backups complete,
   and restoring the INCREMENTAL one gives the disk as it was before the change.
   */
  lemma IncrementalIgnoresChanges(v: Vault, src: string, before: Clusters, after: Clusters, full: string, inc: string)
    requires Inv(v) && OutsideBackups(v, src) && src in v.files && v.files[src] == Qcow(before, None)
    requires Fresh(v, full) && Fresh(v, inc) && full != inc
    ensures var w := Create(WriteFile(Create(v, full, PlainFull(src), NoFault), src, Qcow(after, None)),
                            inc, PlainIncremental(src, full), NoFault);
      var topDisk := DiskOf(w, inc, 0);
      && Inv(w) && IsCompleted(w, full) && IsCompleted(w, inc) && w.history[inc] == [after]
      && Preflight(w, {}, 0, topDisk).Ok?
      && Restored(w.files, topDisk.backupPath, Preflight(w, {}, 0, topDisk).value) == Some(before)
  {
    AfterChange(v, src, before, after, full, inc);
    var w := Changed(v, src, before, after, full, inc);
    hide Inv, PathOf, Create, Chain, Walk, Restored, OutsideBackups, Fresh;
    assert w.history[inc] == [after] && w.history[full] == [before];
    assert IsCompleted(w, full) && IsCompleted(w, inc);
    assert BaseOf(w, inc) == full;
    VerifySucceedsIff(w, {}, inc, 0);
    IncrementalRestoresBase(w, {}, inc, 0);
  }

  /** The vault after a FULL backup, a change of the disk, and an INCREMENTAL. */
  function Changed(v: Vault, src: string, before: Clusters, after: Clusters, full: string, inc: string): Vault {
    WithOverlay(WriteFile(WithFull(v, before, full), src, Qcow(after, None)), after, PathOf(v.dir, full, 0, false), full, inc)
  }

  lemma AfterChange(v: Vault, src: string, before: Clusters, after: Clusters, full: string, inc: string)
    requires Inv(v) && OutsideBackups(v, src) && src in v.files && v.files[src] == Qcow(before, None)
    requires Fresh(v, full) && Fresh(v, inc) && full != inc
    ensures Create(WriteFile(Create(v, full, PlainFull(src), NoFault), src, Qcow(after, None)), inc, PlainIncremental(src, full), NoFault)
         == Changed(v, src, before, after, full, inc)
    ensures var w := Changed(v, src, before, after, full, inc); Inv(w) && Chain(w, inc) == [inc, full]
  {
    hide Inv, OutsideBackups, Fresh, PathOf, Create, Chain, OneDiskParent, WithFull, IsCompleted;
    FullThenWrite(v, src, before, after, full, inc);
    AfterOverlay(WriteFile(WithFull(v, before, full), src, Qcow(after, None)), src, after, full, inc);
  }

  lemma FullThenWrite(v: Vault, src: string, before: Clusters, after: Clusters, full: string, inc: string)
    requires Inv(v) && OutsideBackups(v, src) && src in v.files && v.files[src] == Qcow(before, None)
    requires Fresh(v, full) && Fresh(v, inc) && full != inc
    ensures Create(v, full, PlainFull(src), NoFault) == WithFull(v, before, full)
    ensures var w := WriteFile(WithFull(v, before, full), src, Qcow(after, None));
      && w.dir == v.dir && Inv(w) && OutsideBackups(w, src) && Fresh(w, inc) && Chain(w, full) == [full] && IsCompleted(w, full)
      && OneDiskParent(w, full, PathOf(w.dir, full, 0, false))
  {
    var v1 := WithFull(v, before, full);
    assert IsSegment(full);
    AfterFull(v, src, before, full);
    hide Inv, OutsideBackups, Fresh, PathOf, Create, Chain, OneDiskParent, IsSegment;
    FreshAfterNew(v, before, "", "", full, inc);
    SourceIsNoBackup(v1, src, full);
    AfterWrite(v1, src, after, full, inc);
  }

  lemma AfterWrite(v: Vault, src: string, content: Clusters, id: string, other: string)
    requires Inv(v) && OutsideBackups(v, src) && Fresh(v, other) && Chain(v, id) == [id]
    requires src != PathOf(v.dir, id, 0, false) && OneDiskParent(v, id, PathOf(v.dir, id, 0, false))
    ensures var w := WriteFile(v, src, Qcow(content, None));
      && Inv(w) && OutsideBackups(w, src) && Fresh(w, other) && Chain(w, id) == [id]
      && OneDiskParent(w, id, PathOf(w.dir, id, 0, false))
  {
    var w := WriteFile(v, src, Qcow(content, None));
    WriteKeepsInv(v, src, Qcow(content, None));
    SameDirOutside(v, w, src);
    assert Fresh(w, other);
    hide Inv, OutsideBackups, PathOf, Fresh;
    assert Chain(w, id) == [id];
  }

  // ----- a chain deeper than a restore accepts -----

  function Xs(n: nat): string {
    seq(n, _ => 'x')
  }

  /** A FULL backup "x" of one disk, then `n` INCREMENTALs "xx", "xxx", and so on, each on the one before. */
  function Stack(v: Vault, src: string, n: nat): Vault {
    if n == 0 then Create(v, Xs(1), PlainFull(src), NoFault)
    else Create(Stack(v, src, n - 1), Xs(n + 1), PlainIncremental(src, Xs(n)), NoFault)
  }

  lemma FreshAbove(v: Vault, content: Clusters, parent: nat, id: nat)
    requires 1 <= parent < id && forall k :: k > id ==> Fresh(v, Xs(k))
    ensures forall k :: k > id ==> Fresh(WithOverlay(v, content, PathOf(v.dir, Xs(parent), 0, false), Xs(parent), Xs(id)), Xs(k))
  {
    var path := PathOf(v.dir, Xs(parent), 0, false);
    forall k | k > id ensures Fresh(WithOverlay(v, content, path, Xs(parent), Xs(id)), Xs(k)) {
      assert |Xs(k)| == k && |Xs(id)| == id && |Xs(parent)| == parent;
      if Under(v.dir, Xs(k), path) { UnderOneBackup(v.dir, Xs(k), Xs(parent), path); }
      FreshAfterNew(v, content, path, Xs(parent), Xs(id), Xs(k));
    }
  }

  /** The top of a stack: a completed backup of one disk with the whole stack as its chain. */
  ghost predicate StackedUp(v: Vault, w: Vault, src: string, content: Clusters, n: nat) {
    var top := Xs(n + 1);
    && Inv(w) && IsCompleted(w, top) && OneDiskParent(w, top, PathOf(w.dir, top, 0, false))
    && |Chain(w, top)| == n + 1 && BaseOf(w, top) == Xs(1) && w.dir == v.dir
    && (n > 0 ==> w.manifests[top].kind.Incremental?)
    && OutsideBackups(w, src) && src in w.files && w.files[src] == Qcow(content, None)
    && forall k :: k > n + 1 ==> Fresh(w, Xs(k))
  }

  lemma StackStart(v: Vault, src: string, content: Clusters)
    requires Inv(v) && OutsideBackups(v, src) && src in v.files && v.files[src] == Qcow(content, None)
    requires forall k :: k > 0 ==> Fresh(v, Xs(k))
    ensures StackedUp(v, Create(v, Xs(1), PlainFull(src), NoFault), src, content, 0)
  {
    assert |Xs(1)| == 1;
    AfterFull(v, src, content, Xs(1));
    assert IsSegment(Xs(1));
    hide Inv, OutsideBackups, Fresh, PathOf, Create, Chain, IsSegment;
    forall k | k > 1 ensures Fresh(WithFull(v, content, Xs(1)), Xs(k)) {
      assert |Xs(k)| == k;
      FreshAfterNew(v, content, "", "", Xs(1), Xs(k));
    }
  }

  lemma StackStep(v: Vault, u: Vault, src: string, content: Clusters, n: nat)
    requires n > 0 && StackedUp(v, u, src, content, n - 1)
    ensures StackedUp(v, Create(u, Xs(n + 1), PlainIncremental(src, Xs(n)), NoFault), src, content, n)
  {
    assert |Xs(n)| == n && |Xs(n + 1)| == n + 1;
    hide Inv, OutsideBackups, Fresh, PathOf, Create, Chain;
    AfterOverlay(u, src, content, Xs(n), Xs(n + 1));
    FreshAbove(u, content, n, n + 1);
    var below := Chain(u, Xs(n));
    assert ([Xs(n + 1)] + below)[n] == below[n - 1];
  }

  /** All of them complete, and the chain of the last one has all of them. */
  lemma {:induction false} StackCompletes(v: Vault, src: string, content: Clusters, n: nat)
    requires Inv(v) && OutsideBackups(v, src) && src in v.files && v.files[src] == Qcow(content, None)
    requires forall k :: k > 0 ==> Fresh(v, Xs(k))
    ensures StackedUp(v, Stack(v, src, n), src, content, n)
  {
    hide StackedUp, Inv, OutsideBackups, Fresh, Create;
    if n == 0 {
      StackStart(v, src, content);
    } else {
      StackCompletes(v, src, content, n - 1);
      StackStep(v, Stack(v, src, n - 1), src, content, n);
    }
  }

  /** Of such a stack exactly the first 256 INCREMENTALs can be restored, however intact the images are. */
  lemma StackRestorableIff(v: Vault, src: string, content: Clusters, n: nat, bad: set<string>)
    requires Inv(v) && OutsideBackups(v, src) && src in v.files && v.files[src] == Qcow(content, None)
    requires n > 0 && forall k :: k > 0 ==> Fresh(v, Xs(k))
    ensures var w, top := Stack(v, src, n), Xs(n + 1);
      && Inv(w) && IsCompleted(w, top)
      && (Preflight(w, bad, 0, DiskOf(w, top, 0)).Ok? <==> n <= 256 && PathOf(v.dir, Xs(1), 0, false) !in bad)
  {
    StackCompletes(v, src, content, n);
    hide Inv, OutsideBackups, Fresh, PathOf, Stack, Walk, Chain;
    VerifySucceedsIff(Stack(v, src, n), bad, Xs(n + 1), 0);
  }

  /** From a host with one disk and no backup: more than 256 INCREMENTALs complete, and the last is refused. */
  lemma TooDeep(dir: string, src: string, content: Clusters, n: nat)
    requires n > 256
    requires dir != "" && dir[0] == '/' && OutsideBackups(Vault(dir, map[], map[], 0, map[]), src)
    ensures var w, top := Stack(Vault(dir, map[], map[src := Qcow(content, None)], 0, map[]), src, n), Xs(n + 1);
      Inv(w) && IsCompleted(w, top) && Preflight(w, {}, 0, DiskOf(w, top, 0)).Err?
  {
    var v := Vault(dir, map[], map[src := Qcow(content, None)], 0, map[]);
    EmptyVaultInv(dir, v.files);
    SameDirOutside(Vault(dir, map[], map[], 0, map[]), v, src);
    forall k: nat | k > 0 ensures Fresh(v, Xs(k)) {
      assert |Xs(k)| == k;
    }
    hide Inv, OutsideBackups, Fresh, PathOf, Stack, Walk;
    StackRestorableIff(v, src, content, n, {});
  }

  // ----- a removal that stopped half way -----

  /** A FULL backup whose file went while its manifest stayed: the vault is no longer sound. */
  lemma HalfRemovedIsUnsound(v: Vault, src: string, content: Clusters, id: string)
    requires Inv(v) && OutsideBackups(v, src) && Fresh(v, id) && src in v.files && v.files[src] == Qcow(content, None)
    ensures var w := Create(v, id, PlainFull(src), NoFault);
      && Inv(w) && DirectoryExists(w, id) && !HasDependent(w, id)
      && !Inv(PartialDelete(w, id, {PathOf(v.dir, id, 0, false)}, false))
  {
    AfterFull(v, src, content, id);
    var w := Create(v, id, PlainFull(src), NoFault);
    assert v.dir == w.dir && w.manifests[id].disks[0].backupPath == PathOf(v.dir, id, 0, false);
    assert !HasDependent(w, id);
    hide Inv, OutsideBackups, PathOf, Create;
    PartialDeleteRecovers(w, id, {PathOf(v.dir, id, 0, false)}, false);
  }

  // ----- a backup directory that moved -----

  predicate Inside(root: string, path: string) {
    root + "/" <= path
  }

  /** `cp -r from to`: every file of the one tree appears in the other, with its embedded pointer as it was. */
  function CopyTree(files: Files, from: string, to: string): Files {
    files + map q | q in CopyNames(files, from, to) && from + q[|to|..] in files :: files[from + q[|to|..]]
  }

  function CopyNames(files: Files, from: string, to: string): (names: set<string>)
    ensures forall q :: q in names ==> Inside(to, q)
  {
    set p | p in files && Inside(from, p) :: to + p[|from|..]
  }

  function RemoveTree(files: Files, root: string): Files {
    map p | p in files && !Inside(root, p) :: files[p]
  }

  /** Two backups under `gone`, a copy of that tree to `dir`, and a third backup there. */
  datatype Move = Move(dir: string, gone: string, src: string, content: Clusters, full: string, first: string, second: string)

  /** The ids differ, neither tree lies in the other, and the disk lies in none. */
  predicate Sensible(m: Move) {
    && IsSegment(m.full) && IsSegment(m.first) && IsSegment(m.second)
    && m.full != m.first && m.full != m.second && m.first != m.second
    && TreesApart(m.dir, m.gone, m.src)
  }

  predicate TreesApart(dir: string, gone: string, src: string) {
    !Inside(gone, dir + "/") && !Inside(dir, gone + "/") && !Inside(gone, src) && !Inside(dir, src)
  }

  /** A FULL backup and an INCREMENTAL on it are taken under `gone`. */
  function TwoTaken(m: Move): Vault {
    var v := Vault(m.gone, map[], map[m.src := Qcow(m.content, None)], 0, map[]);
    TakePair(v, m.src, m.full, m.first)
  }

  /** The tree is copied to `dir`. */
  function Copied(m: Move): Vault {
    var v := TwoTaken(m);
    v.(dir := m.dir, files := CopyTree(v.files, m.gone, m.dir))
  }

  /** An INCREMENTAL is taken in the copy on the other, and the first tree is removed. */
  function MovedVault(m: Move): Vault {
    var w := Create(Copied(m), m.second, PlainIncremental(m.src, m.first), NoFault);
    w.(files := RemoveTree(w.files, m.gone))
  }

  lemma PathInside(root: string, id: string)
    ensures Inside(root, PathOf(root, id, 0, false))
    ensures PathOf(root, id, 0, false)[|root|..] == "/" + id + "/" + FileName(0, false)
  {
    hide FileName;
    assert PathOf(root, id, 0, false) == root + ("/" + id + "/" + FileName(0, false));
  }

  lemma PathApart(dir: string, gone: string, src: string, id: string)
    requires TreesApart(dir, gone, src)
    ensures !Inside(gone, PathOf(dir, id, 0, false)) && !Inside(dir, PathOf(gone, id, 0, false))
    ensures src != PathOf(dir, id, 0, false) && src != PathOf(gone, id, 0, false)
  {
    PathInside(dir, id);
    PathInside(gone, id);
    hide PathOf;
    NotBoth(dir, gone, PathOf(dir, id, 0, false));
    NotBoth(dir, gone, PathOf(gone, id, 0, false));
  }

  lemma NotBoth(dir: string, gone: string, path: string)
    requires !Inside(gone, dir + "/") && !Inside(dir, gone + "/")
    ensures !(Inside(dir, path) && Inside(gone, path))
  {
  }

  /** The copy of a backup's file. */
  lemma CopiedPath(files: Files, from: string, to: string, id: string)
    requires PathOf(from, id, 0, false) in files
    ensures PathOf(to, id, 0, false) in CopyTree(files, from, to)
    ensures CopyTree(files, from, to)[PathOf(to, id, 0, false)] == files[PathOf(from, id, 0, false)]
  {
    PathInside(from, id);
    PathInside(to, id);
    var p, q := PathOf(from, id, 0, false), PathOf(to, id, 0, false);
    hide PathOf;
    assert to + p[|from|..] == q && from + q[|to|..] == p;
    assert q in CopyNames(files, from, to);
  }

  /** A file outside the target tree is not touched by the copy. */
  lemma CopyElsewhere(files: Files, from: string, to: string, path: string)
    requires !Inside(to, path)
    ensures path in CopyTree(files, from, to) <==> path in files
    ensures path in files ==> CopyTree(files, from, to)[path] == files[path]
  {
  }

  lemma TwoTakenIs(m: Move)
    requires Sensible(m)
    ensures TwoTaken(m) == WithPair(Vault(m.gone, map[], map[m.src := Qcow(m.content, None)], 0, map[]), m.content, m.full, m.first)
  {
    var v := Vault(m.gone, map[], map[m.src := Qcow(m.content, None)], 0, map[]);
    PathApart(m.dir, m.gone, m.src, m.full);
    NotGz(m.gone, m.full, 0);
    hide PathOf, TreesApart, Create;
    StandsAlone(v.files, m.src, m.content);
    FullResult(v, m.src, m.content, m.full);
    var v1 := WithFull(v, m.content, m.full);
    StandsAlone(v1.files, m.src, m.content);
    OverlayResult(v1, m.src, m.content, PathOf(m.gone, m.full, 0, false), m.full, m.first);
  }

  lemma TwoTakenFiles(m: Move)
    requires Sensible(m)
    ensures var v := TwoTaken(m);
      var a, b := PathOf(m.gone, m.full, 0, false), PathOf(m.gone, m.first, 0, false);
      && v.dir == m.gone && v.clock == 2 && v.manifests.Keys == {m.full, m.first}
      && v.manifests[m.full] == Manifest(m.full, Full, Completed, 0, [Disk(a, None)], NoCompression, None, {})
      && v.manifests[m.first] == Manifest(m.first, Incremental, Completed, 1, [Disk(b, Some(a))], NoCompression, Some(m.full), {})
      && v.files == map[m.src := Qcow(m.content, None), a := Qcow(m.content, None), b := Qcow(map[], Some(a))]
  {
    TwoTakenIs(m);
    hide PathOf, TreesApart, TwoTaken;
  }

  /** Taking the third backup in the copy completes; its disk stands on the path the second one recorded. */
  lemma ThirdTaken(m: Move)
    requires Sensible(m)
    ensures var copied := Copied(m);
      && Create(copied, m.second, PlainIncremental(m.src, m.first), NoFault)
         == WithOverlay(copied, m.content, PathOf(m.gone, m.first, 0, false), m.first, m.second)
      && PathOf(m.dir, m.full, 0, false) in copied.files && PathOf(m.dir, m.first, 0, false) in copied.files
  {
    var v := TwoTaken(m);
    var copied := Copied(m);
    TwoTakenFiles(m);
    CopiedPath(v.files, m.gone, m.dir, m.full);
    CopiedPath(v.files, m.gone, m.dir, m.first);
    PathApart(m.dir, m.gone, m.src, m.full);
    PathApart(m.dir, m.gone, m.src, m.first);
    CopyElsewhere(v.files, m.gone, m.dir, m.src);
    CopyElsewhere(v.files, m.gone, m.dir, PathOf(m.gone, m.first, 0, false));
    NotGz(m.gone, m.first, 0);
    hide PathOf, CopyTree, Inside, TwoTaken;
    StandsAlone(copied.files, m.src, m.content);
    OverlayResult(copied, m.src, m.content, PathOf(m.gone, m.first, 0, false), m.first, m.second);
  }

  /** The moved vault without the create in it. */
  lemma MovedIs(m: Move)
    requires Sensible(m)
    ensures var w := WithOverlay(Copied(m), m.content, PathOf(m.gone, m.first, 0, false), m.first, m.second);
      MovedVault(m) == w.(files := RemoveTree(w.files, m.gone))
  {
    hide PathOf, CopyTree, Inside, TwoTaken, Create;
    ThirdTaken(m);
  }

  /** What the manifests of the moved vault say. */
  lemma MovedManifests(m: Move)
    requires Sensible(m)
    ensures ThreeRecorded(MovedVault(m), m)
  {
    MovedIs(m);
    TwoTakenFiles(m);
    hide PathOf, CopyTree, RemoveTree, Inside, TwoTaken, MovedVault, TreesApart, IsSegment;
  }

  /** The first two backups recorded paths under `gone`, the third its own under `dir`. */
  predicate ThreeRecorded(v: Vault, m: Move) {
    var a, b, c := PathOf(m.gone, m.full, 0, false), PathOf(m.gone, m.first, 0, false), PathOf(m.dir, m.second, 0, false);
    && v.dir == m.dir && m.full in v.manifests && m.first in v.manifests && m.second in v.manifests
    && v.manifests[m.full] == Manifest(m.full, Full, Completed, 0, [Disk(a, None)], NoCompression, None, {})
    && v.manifests[m.first] == Manifest(m.first, Incremental, Completed, 1, [Disk(b, Some(a))], NoCompression, Some(m.full), {})
    && v.manifests[m.second] == Manifest(m.second, Incremental, Completed, 2, [Disk(c, Some(b))], NoCompression, Some(m.first), {})
  }

  /** All three files are there, and nothing under the root that is gone. */
  lemma MovedFiles(m: Move)
    requires Sensible(m)
    ensures var v := MovedVault(m);
      && PathOf(m.gone, m.full, 0, false) !in v.files && PathOf(m.gone, m.first, 0, false) !in v.files
      && PathOf(m.dir, m.full, 0, false) in v.files && PathOf(m.dir, m.first, 0, false) in v.files
      && PathOf(m.dir, m.second, 0, false) in v.files
  {
    MovedIs(m);
    ThirdTaken(m);
    PathInside(m.gone, m.full);
    PathInside(m.gone, m.first);
    assert TreesApart(m.dir, m.gone, m.src);
    PathApart(m.dir, m.gone, m.src, m.full);
    PathApart(m.dir, m.gone, m.src, m.first);
    PathApart(m.dir, m.gone, m.src, m.second);
    hide PathOf, Copied, Inside, TwoTaken, MovedVault, Sensible, TreesApart;
  }

  /** The walk finds both parents under the current root. */
  lemma MovedParents(m: Move)
    requires Sensible(m)
    ensures ParentPath(MovedVault(m), m.second, 0).Some? && ParentPath(MovedVault(m), m.first, 0).Some?
  {
    var v := MovedVault(m);
    MovedFiles(m);
    MovedManifests(m);
    ResolvesToCurrentRoot(v, m.gone, m.first, 0);
    ResolvesToCurrentRoot(v, m.gone, m.full, 0);
    hide MovedVault, PathOf, FirstExisting, Candidates, TreesApart;
  }

  lemma RecordedLinks(v: Vault, m: Move)
    requires ThreeRecorded(v, m) && IsSegment(m.full) && IsSegment(m.first)
    ensures Link(v, m.second, 0) && Link(v, m.first, 0) && !HasParent(v, m.full) && NoBacking(DiskOf(v, m.full, 0))
    ensures v.manifests[m.second].parent == Some(m.first) && v.manifests[m.first].parent == Some(m.full)
  {
    hide PathOf, IsSegment;
    assert DiskOf(v, m.second, 0).backingFile == Some(PathOf(m.gone, m.first, 0, false));
    assert DiskOf(v, m.first, 0).backingFile == Some(PathOf(m.gone, m.full, 0, false));
  }

  lemma MovedLinks(m: Move)
    requires Sensible(m)
    ensures var v := MovedVault(m);
      && Chain(v, m.second) == [m.second, m.first, m.full] && Linked(v, m.second, 0)
      && ParentsFound(v, [m.second, m.first, m.full], 0)
  {
    var v := MovedVault(m);
    MovedManifests(m);
    MovedParents(m);
    RecordedLinks(v, m);
    hide MovedVault, ThreeRecorded, ParentPath, HasParent, DiskOf, TreesApart, Chain, Link, Linked, ParentsFound;
    ThreeLinked(v, m.full, m.first, m.second, 0);
    ThreeFound(v, m.full, m.first, m.second, 0);
  }

  lemma ThreeLinked(v: Vault, a: string, b: string, c: string, d: nat)
    requires Link(v, c, d) && v.manifests[c].parent == Some(b) && Link(v, b, d) && v.manifests[b].parent == Some(a)
    requires !HasParent(v, a) && NoBacking(DiskOf(v, a, d))
    ensures Linked(v, c, d) && Chain(v, c) == [c, b, a]
  {
    assert HasParent(v, c) && HasParent(v, b);
    hide HasParent, DiskOf, Chain, Link, Linked;
    LinkedOver(v, b, d);
    LinkedOver(v, c, d);
    ChainStep(v, c);
    ChainStep(v, b);
  }

  lemma ThreeFound(v: Vault, a: string, b: string, c: string, d: nat)
    requires ParentPath(v, c, d).Some? && ParentPath(v, b, d).Some?
    ensures ParentsFound(v, [c, b, a], d)
  {
    hide ParentPath;
    var ids := [c, b, a];
    assert ParentPath(v, ids[0], d).Some? && ParentPath(v, ids[1], d).Some?;
  }

  lemma LinkedOver(v: Vault, id: string, d: nat)
    requires Link(v, id, d)
    requires var p := v.manifests[id].parent.value; if HasParent(v, p) then Linked(v, p, d) else NoBacking(DiskOf(v, p, d))
    ensures Linked(v, id, d)
  {
  }

  /**
   The pre-flight of the third backup passes, though it cannot be rebuilt and all three files are there: only
   parents are looked for under the current root, while the overlay of the second backup is copied from the
   path its manifest recorded.
   */
  lemma MovedAncestorPassesPreflight(m: Move)
    requires Sensible(m)
    ensures var v := MovedVault(m);
      var r := Preflight(v, {}, 0, DiskOf(v, m.second, 0));
      && IsCompleted(v, m.second)
      && PathOf(m.dir, m.full, 0, false) in v.files && PathOf(m.dir, m.first, 0, false) in v.files
      && PathOf(m.dir, m.second, 0, false) in v.files
      && r.Ok? && Restored(v.files, DiskOf(v, m.second, 0).backupPath, r.value) == None
  {
    var v := MovedVault(m);
    MovedFiles(m);
    MovedManifests(m);
    MovedLinks(m);
    NotGz(m.dir, m.second, 0);
    hide MovedVault, PathOf, Linked, Chain, Walk, RecordedPlan, ParentPath, ParentsFound, TreesApart, IsSegment, Restored, BaseImage;
    PreflightOkIff(v, {}, m.second, 0);
    RebuildableIff(v, {}, m.second, 0);
    assert !OverlayStored(v, Chain(v, m.second)[1], 0);
  }
}
