/**
 The backups of one VM: manifests and image files, created and deleted one at a time.
 `history` remembers what a backup read of each source disk when it was taken.
 */
module BackupChains {
  import opened Wrappers
  import opened ImageStore
  import opened BackupPaths

  datatype Kind = Full | Incremental | Snapshot

  datatype Status = Completed | Failed

  datatype Compression = NoCompression | Qcow2 | Gzip

  datatype Disk = Disk(backupPath: string, backingFile: Option<string>)

  datatype Manifest = Manifest(
    id: string, kind: Kind, status: Status, createdAt: nat, disks: seq<Disk>,
    compression: Compression, parent: Option<string>, tags: set<string>)

  /** The directory of one VM's backups, and every file of the host. */
  datatype Vault = Vault(
    dir: string, manifests: map<string, Manifest>, files: Files, clock: nat, history: map<string, seq<Clusters>>)

  /** `copies` are the disks read from the copy of a transient snapshot, with what each copy holds. */
  datatype Config = Config(
    kind: Kind, diskPaths: seq<string>, compression: Compression, parent: Option<string>, tags: set<string>,
    copies: map<string, Clusters>)

  /**
   What the environment does to one create: no directory at all, an I/O error at a disk, a failed cleanup,
   a failed manifest write.
   */
  datatype Fault = Fault(mkdirFails: bool, failAt: Option<nat>, cleanupFails: bool, manifestFails: bool)

  const NoFault: Fault := Fault(false, None, false, false)

  // ----- creating a backup -----

  /** The files and disk records after some disks, and whether every one of them succeeded. */
  datatype Progress = Progress(files: Files, disks: seq<Disk>, ok: bool)

  function StandAlone(content: Clusters, gz: bool): Image {
    if gz then Gz(Qcow(content, None)) else Qcow(content, None)
  }

  /** What the live-read plan shows of a source disk: the copy of its snapshot if there is one, else the disk itself. */
  function ReadOf(files: Files, cfg: Config, path: string): Option<Clusters> {
    if path in cfg.copies then Some(cfg.copies[path]) else Content(files, path)
  }

  /** FULL, one disk: convert it to a standalone image, and gzip that on request. */
  function FullDisk(dir: string, id: string, cfg: Config, failAt: Option<nat>, prev: Progress, i: nat): Progress
    requires i < |cfg.diskPaths|
  {
    var content := ReadOf(prev.files, cfg, cfg.diskPaths[i]);
    if !prev.ok || failAt == Some(i) || content.None? then prev.(ok := false)
    else
      var gz := cfg.compression.Gzip?;
      var path := PathOf(dir, id, i, gz);
      Progress(prev.files[path := StandAlone(content.value, gz)], prev.disks + [Disk(path, None)], true)
  }

  /** The first `n` disks; a failure ends the loop. */
  function FullDisks(dir: string, files: Files, id: string, cfg: Config, failAt: Option<nat>, n: nat): Progress
    requires n <= |cfg.diskPaths|
  {
    if n == 0 then Progress(files, [], true)
    else FullDisk(dir, id, cfg, failAt, FullDisks(dir, files, id, cfg, failAt, n - 1), n - 1)
  }

  /** There is an image to ask for its size. */
  predicate Readable(files: Files, cfg: Config, path: string) {
    path in cfg.copies || path in files
  }

  /** INCREMENTAL, one disk: a new empty overlay; QCOW2 compression replaces it by a converted copy. */
  function OverlayDisk(
    dir: string, id: string, cfg: Config, parent: Manifest, failAt: Option<nat>, prev: Progress, i: nat): Progress
    requires i < |cfg.diskPaths| == |parent.disks|
  {
    var parentPath := parent.disks[i].backupPath;
    if !prev.ok || failAt == Some(i) || !Readable(prev.files, cfg, cfg.diskPaths[i]) || parentPath !in prev.files then
      prev.(ok := false)
    else
      var path := PathOf(dir, id, i, false);
      var overlaid := prev.files[path := Qcow(map[], Some(parentPath))];
      var disk := Disk(path, Some(parentPath));
      if !cfg.compression.Qcow2? then Progress(overlaid, prev.disks + [disk], true)
      else
        var content := Content(overlaid, path);
        if content.None? then Progress(overlaid, prev.disks, false)
        else Progress(overlaid[path := Qcow(content.value, None)], prev.disks + [disk], true)
  }

  function OverlayDisks(
    dir: string, files: Files, id: string, cfg: Config, parent: Manifest, failAt: Option<nat>, n: nat): Progress
    requires n <= |cfg.diskPaths| == |parent.disks|
  {
    if n == 0 then Progress(files, [], true)
    else OverlayDisk(dir, id, cfg, parent, failAt, OverlayDisks(dir, files, id, cfg, parent, failAt, n - 1), n - 1)
  }

  predicate EndsWithGz(path: string) {
    |path| >= 3 && path[|path| - 3..] == ".gz"
  }

  /** The parent checks of an INCREMENTAL backup. */
  predicate ParentUsable(v: Vault, cfg: Config) {
    && cfg.parent.Some? && cfg.parent.value in v.manifests
    && var parent := v.manifests[cfg.parent.value];
       && parent.status.Completed? && |parent.disks| == |cfg.diskPaths| && !parent.compression.Gzip?
       && forall i :: 0 <= i < |parent.disks| ==> !EndsWithGz(parent.disks[i].backupPath)
  }

  /** SNAPSHOT: an internal snapshot of the first disk; no file is written. */
  function SnapshotDisks(files: Files, id: string, cfg: Config, failAt: Option<nat>): Progress
    requires cfg.diskPaths != []
  {
    if failAt == Some(0) || cfg.diskPaths[0] !in files then Progress(files, [], false)
    else Progress(files, [Disk("backup-" + id, None)], true)
  }

  function Execute(v: Vault, id: string, cfg: Config, failAt: Option<nat>): Progress
    requires cfg.diskPaths != []
  {
    match cfg.kind
    case Full => FullDisks(v.dir, v.files, id, cfg, failAt, |cfg.diskPaths|)
    case Incremental =>
      if !ParentUsable(v, cfg) then Progress(v.files, [], false)
      else OverlayDisks(v.dir, v.files, id, cfg, v.manifests[cfg.parent.value], failAt, |cfg.diskPaths|)
    case Snapshot => SnapshotDisks(v.files, id, cfg, failAt)
  }

  function RemoveUnder(files: Files, dir: string, id: string): Files {
    map p | p in files && !Under(dir, id, p) :: files[p]
  }

  function SourceContents(files: Files, cfg: Config): seq<Clusters> {
    seq(|cfg.diskPaths|, i requires 0 <= i < |cfg.diskPaths| =>
      var content := ReadOf(files, cfg, cfg.diskPaths[i]); if content.Some? then content.value else map[])
  }

  /**
   `createBackup`: without its directory nothing happens; a later failure removes the directory but still
   leaves a FAILED manifest.
   */
  function Create(v: Vault, id: string, cfg: Config, fault: Fault): Vault
    requires cfg.diskPaths != []
  {
    if fault.mkdirFails then v else Taken(v, id, cfg, fault)
  }

  /** The manifest of the attempt; its date is that of the start. */
  function Outcome(v: Vault, id: string, cfg: Config, failAt: Option<nat>): Manifest
    requires cfg.diskPaths != []
  {
    var done := Execute(v, id, cfg, failAt);
    Manifest(id, cfg.kind, if done.ok then Completed else Failed, v.clock, done.disks, cfg.compression, cfg.parent, cfg.tags)
  }

  function Taken(v: Vault, id: string, cfg: Config, fault: Fault): Vault
    requires cfg.diskPaths != []
  {
    var done := Execute(v, id, cfg, fault.failAt);
    Vault(
      v.dir,
      if fault.manifestFails then v.manifests else v.manifests[id := Outcome(v, id, cfg, fault.failAt)],
      if done.ok || fault.cleanupFails || cfg.kind.Snapshot? then done.files else RemoveUnder(done.files, v.dir, id),
      v.clock + 1,
      v.history[id := SourceContents(v.files, cfg)])
  }

  // ----- deleting a backup -----

  datatype Deletion = Deleted | NotFound | Dependency | IoError

  /** Some other manifest names the backup as its parent. */
  predicate HasDependent(v: Vault, id: string) {
    exists b :: b in v.manifests && v.manifests[b].parent == Some(id) && v.manifests[b].id != id
  }

  /** A manifest or a file of the backup is there; a failed manifest write leaves files without one. */
  predicate DirectoryExists(v: Vault, id: string) {
    id in v.manifests || (IsSegment(id) && exists p :: p in v.files && Under(v.dir, id, p))
  }

  function Delete(v: Vault, id: string, ioFails: bool): (Vault, Deletion) {
    if !DirectoryExists(v, id) then (v, NotFound)
    else if HasDependent(v, id) then (v, Dependency)
    else if ioFails then (v, IoError)
    else (v.(manifests := v.manifests - {id}, files := RemoveUnder(v.files, v.dir, id)), Deleted)
  }

  // ----- the rest of the host -----

  /** A VM, a restore or an operator writes a file outside the backup directories. */
  function WriteFile(v: Vault, path: string, image: Image): Vault {
    v.(files := v.files[path := image])
  }

  // ----- chains -----

  /** The manifest records a parent that is there and older. */
  predicate HasParent(v: Vault, id: string) {
    && id in v.manifests && v.manifests[id].kind.Incremental? && v.manifests[id].parent.Some?
    && v.manifests[id].parent.value in v.manifests
    && v.manifests[v.manifests[id].parent.value].createdAt < v.manifests[id].createdAt
  }

  /** The backup, its parent, and so on. */
  function Chain(v: Vault, id: string): (ids: seq<string>)
    ensures ids != [] && ids[0] == id
    decreases if id in v.manifests then v.manifests[id].createdAt else 0
  {
    if HasParent(v, id) then [id] + Chain(v, v.manifests[id].parent.value) else [id]
  }

  function BaseOf(v: Vault, id: string): string {
    var ids := Chain(v, id);
    ids[|ids| - 1]
  }

  /** What disk `i` held when the FULL base of the chain was taken. */
  function BaseContent(v: Vault, id: string, i: nat): Clusters {
    var base := BaseOf(v, id);
    if base in v.history && i < |v.history[base]| then v.history[base][i] else map[]
  }

  /** The disk file is a standalone image of what the source held. */
  predicate FullDiskOk(v: Vault, m: Manifest, i: nat) {
    var path := PathOf(v.dir, m.id, i, m.compression.Gzip?);
    && m.id in v.history && i < |v.history[m.id]| && i < |m.disks|
    && m.disks[i] == Disk(path, None)
    && path in v.files && v.files[path] == StandAlone(v.history[m.id][i], m.compression.Gzip?)
  }

  predicate FullOk(v: Vault, m: Manifest) {
    && m.id in v.history && |v.history[m.id]| == |m.disks|
    && forall i :: 0 <= i < |m.disks| ==> FullDiskOk(v, m, i)
  }

  /** The overlay holds nothing of its own, or a converted copy of what its parent shows. */
  predicate OverlayOk(v: Vault, m: Manifest, parent: string, i: nat) {
    var path, parentPath := PathOf(v.dir, m.id, i, false), PathOf(v.dir, parent, i, false);
    && m.id in v.manifests && i < |m.disks|
    && m.disks[i] == Disk(path, Some(parentPath))
    && path in v.files
    && (v.files[path] == Qcow(map[], Some(parentPath)) || v.files[path] == Qcow(BaseContent(v, parent, i), None))
  }

  predicate OverlaysOk(v: Vault, m: Manifest) {
    && m.parent.Some? && m.parent.value in v.manifests
    && var parent := v.manifests[m.parent.value];
       && parent.status.Completed? && !parent.kind.Snapshot? && !parent.compression.Gzip?
       && parent.createdAt < m.createdAt && |parent.disks| == |m.disks|
       && forall i :: 0 <= i < |m.disks| ==> OverlayOk(v, m, m.parent.value, i)
  }

  predicate Healthy(v: Vault, id: string)
    requires id in v.manifests
  {
    var m := v.manifests[id];
    && m.id == id && IsSegment(id) && m.createdAt < v.clock
    && (m.status.Completed? ==>
          match m.kind
          case Full => FullOk(v, m)
          case Incremental => OverlaysOk(v, m)
          case Snapshot => |m.disks| == 1 && m.disks[0] == Disk("backup-" + id, None))
  }

  /** A parent that is there is older, whatever became of either backup. */
  ghost predicate LinksOlder(v: Vault) {
    forall id :: id in v.manifests && v.manifests[id].parent.Some? && v.manifests[id].parent.value in v.manifests ==>
      v.manifests[v.manifests[id].parent.value].createdAt < v.manifests[id].createdAt
  }

  /** Every completed backup has what it needs, links lead to older backups, and file names are absolute. */
  ghost predicate Inv(v: Vault) {
    && (forall p :: p in v.files ==> p != "" && p[0] == '/')
    && v.dir != "" && v.dir[0] == '/'
    && LinksOlder(v)
    && forall id :: id in v.manifests ==> Healthy(v, id)
  }

  /** The id is new: no manifest has or names it, nothing lies in its directory and nothing points there. */
  ghost predicate Fresh(v: Vault, id: string) {
    && IsSegment(id) && id !in v.manifests
    && (forall b :: b in v.manifests ==> v.manifests[b].parent != Some(id))
    && forall p :: p in v.files ==>
         && !Under(v.dir, id, p)
         && (BackingOf(v.files[p]).Some? ==> !Under(v.dir, id, BackingOf(v.files[p]).value))
  }

  /** The file lies in no backup's directory. */
  ghost predicate OutsideBackups(v: Vault, path: string) {
    path != "" && path[0] == '/' && forall id :: IsSegment(id) ==> !Under(v.dir, id, path)
  }
}
