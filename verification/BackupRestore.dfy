/**
 Restoring backups: the pre-flight walk down the backing chain, the plan it returns,
 and what a restore of each kind of backup gives back.
 */
module BackupRestore {
  import opened Wrappers
  import opened ImageStore
  import opened BackupPaths
  import opened Restore
  import opened BackupChains
  import opened BackupInvariant

  datatype ChainError = CorruptBackup | ParentNotFound

  const MaxDepth: nat := 256

  /** The recorded path, then the same tail under the current backup directory. */
  function Candidates(dir: string, recorded: string): seq<string> {
    var rederived := dir + "/" + ParentName(recorded) + "/" + Basename(recorded);
    if ParentName(recorded) != "" && Basename(recorded) != "" && rederived != recorded then [recorded, rederived]
    else [recorded]
  }

  function FirstExisting(files: Files, paths: seq<string>): Option<string> {
    if paths == [] then None
    else if paths[0] in files then Some(paths[0])
    else FirstExisting(files, paths[1..])
  }

  predicate NoBacking(disk: Disk) {
    disk.backingFile.None? || disk.backingFile == Some("")
  }

  /** `qemu-img check` finds errors; gzip blobs are not checked. `bad` are the damaged images. */
  predicate Broken(bad: set<string>, path: string) {
    !EndsWithGz(path) && path in bad
  }

  /** The walk of `verifyIncrementalChain` for disk `d`, from one level down. */
  function Walk(v: Vault, bad: set<string>, d: nat, disk: Disk, depth: nat): Result<seq<Level>, ChainError>
    requires depth <= MaxDepth
    decreases MaxDepth - depth
  {
    if NoBacking(disk) then Ok([])
    else if depth == MaxDepth then Err(CorruptBackup)
    else
      var backing := disk.backingFile.value;
      var resolved := FirstExisting(v.files, Candidates(v.dir, backing));
      if resolved.None? then Err(ParentNotFound)
      else
        var parentId := ParentName(backing);
        if parentId !in v.manifests || d >= |v.manifests[parentId].disks| || NoBacking(v.manifests[parentId].disks[d]) then
          if Broken(bad, resolved.value) then Err(CorruptBackup)
          else Ok([Level(disk.backupPath, resolved.value, true)])
        else
          match Walk(v, bad, d, v.manifests[parentId].disks[d], depth + 1)
          case Err(e) => Err(e)
          case Ok(rest) => Ok([Level(disk.backupPath, resolved.value, false)] + rest)
  }

  function Prepend(levels: seq<Level>, r: Result<seq<Level>, ChainError>): Result<seq<Level>, ChainError> {
    if r.Ok? then Ok(levels + r.value) else r
  }

  /** The overlay must be there; then the chain below it is walked. */
  function Preflight(v: Vault, bad: set<string>, d: nat, topDisk: Disk): Result<seq<Level>, ChainError> {
    if topDisk.backupPath !in v.files then Err(CorruptBackup) else Walk(v, bad, d, topDisk, 0)
  }

  /** One disk: stat the overlay, then follow the chain level by level. */
  method VerifyDisk(v: Vault, bad: set<string>, d: nat, topDisk: Disk) returns (r: Result<seq<Level>, ChainError>)
    ensures r == Preflight(v, bad, d, topDisk)
  {
    hide Candidates, FirstExisting, Broken, ParentName, Walk;
    if topDisk.backupPath !in v.files {
      return Err(CorruptBackup);
    }
    var levels: seq<Level> := [];
    var currentDisk := topDisk;
    var depth := 0;
    ghost var whole := Walk(v, bad, d, topDisk, 0);
    assert whole == Prepend([], whole) by { if whole.Ok? { assert [] + whole.value == whole.value; } }
    while !NoBacking(currentDisk)
      invariant depth <= MaxDepth
      invariant whole == Prepend(levels, Walk(v, bad, d, currentDisk, depth))
      decreases MaxDepth - depth
    {
      WalkOnce(v, bad, d, currentDisk, depth);
      if depth == MaxDepth {
        return Err(CorruptBackup);
      }
      var backing := currentDisk.backingFile.value;
      var resolved := FirstExisting(v.files, Candidates(v.dir, backing));
      if resolved.None? {
        return Err(ParentNotFound);
      }
      var parentId := ParentName(backing);
      if parentId !in v.manifests {
        if Broken(bad, resolved.value) {
          return Err(CorruptBackup);
        }
        return Ok(levels + [Level(currentDisk.backupPath, resolved.value, true)]);
      }
      var parentDisks := v.manifests[parentId].disks;
      var parentIsBase := d >= |parentDisks| || NoBacking(parentDisks[d]);
      if parentIsBase && Broken(bad, resolved.value) {
        return Err(CorruptBackup);
      }
      levels := levels + [Level(currentDisk.backupPath, resolved.value, parentIsBase)];
      if parentIsBase {
        return Ok(levels);
      }
      ghost var entry := levels[|levels| - 1];
      ghost var below := Walk(v, bad, d, parentDisks[d], depth + 1);
      if below.Ok? { assert levels[..|levels| - 1] + ([entry] + below.value) == levels + below.value; }
      currentDisk, depth := parentDisks[d], depth + 1;
    }
    WalkOnce(v, bad, d, currentDisk, depth);
    assert levels + [] == levels;
    return Ok(levels);
  }

  /** One level of the walk. */
  lemma WalkOnce(v: Vault, bad: set<string>, d: nat, disk: Disk, depth: nat)
    requires depth <= MaxDepth
    ensures disk.backingFile in {None, Some("")} ==> Walk(v, bad, d, disk, depth) == Ok([])
    ensures !NoBacking(disk) && depth == MaxDepth ==> Walk(v, bad, d, disk, depth) == Err(CorruptBackup)
    ensures !NoBacking(disk) && depth < MaxDepth ==>
      var backing := disk.backingFile.value;
      var resolved, parentId := FirstExisting(v.files, Candidates(v.dir, backing)), ParentName(backing);
      Walk(v, bad, d, disk, depth)
      == if resolved.None? then Err(ParentNotFound)
         else if parentId !in v.manifests || d >= |v.manifests[parentId].disks| || NoBacking(v.manifests[parentId].disks[d]) then
           if Broken(bad, resolved.value) then Err(CorruptBackup) else Ok([Level(disk.backupPath, resolved.value, true)])
         else Prepend([Level(disk.backupPath, resolved.value, false)], Walk(v, bad, d, v.manifests[parentId].disks[d], depth + 1))
  {
    hide Candidates, FirstExisting, Broken, ParentName;
  }

  // ----- the plan of a sound chain -----

  /** The levels of a chain of backup ids: every overlay over the next, the last over the base. */
  function PlanOf(dir: string, ids: seq<string>, d: nat): seq<Level> {
    if |ids| < 2 then []
    else [Level(PathOf(dir, ids[0], d, false), PathOf(dir, ids[1], d, false), |ids| == 2)] + PlanOf(dir, ids[1..], d)
  }

  /** In the plan of a chain the last level, and only the last, stands on the base. */
  lemma {:induction false} PlanEndsOnBase(dir: string, ids: seq<string>, d: nat)
    requires |ids| >= 2
    ensures |PlanOf(dir, ids, d)| == |ids| - 1
    ensures forall k :: 0 <= k < |ids| - 1 ==>
              PlanOf(dir, ids, d)[k]
              == Level(PathOf(dir, ids[k], d, false), PathOf(dir, ids[k + 1], d, false), k == |ids| - 2)
    ensures forall k :: 0 <= k < |ids| - 1 ==> (PlanOf(dir, ids, d)[k].parentIsBase <==> k == |ids| - 2)
  {
    if |ids| > 2 { PlanEndsOnBase(dir, ids[1..], d); }
  }

  // ----- chains of manifests, whatever roots they were recorded under -----

  function DiskOf(v: Vault, id: string, d: nat): Disk {
    if id in v.manifests && d < |v.manifests[id].disks| then v.manifests[id].disks[d] else Disk("", None)
  }

  /** The parent's file as the walk finds it: at the recorded path, or else under the current root. */
  function ParentPath(v: Vault, id: string, d: nat): Option<string> {
    var disk := DiskOf(v, id, d);
    if disk.backingFile.None? then None else FirstExisting(v.files, Candidates(v.dir, disk.backingFile.value))
  }

  /** The manifest names its parent's file under some root; its own path may be recorded under any other. */
  ghost predicate Link(v: Vault, id: string, d: nat) {
    && HasParent(v, id)
    && var p := v.manifests[id].parent.value;
       && d < |v.manifests[id].disks| && d < |v.manifests[p].disks| && IsSegment(p)
       && exists root: string :: DiskOf(v, id, d).backingFile == Some(PathOf(root, p, d, false))
  }

  ghost predicate Linked(v: Vault, id: string, d: nat)
    decreases if id in v.manifests then v.manifests[id].createdAt else 0
  {
    && Link(v, id, d)
    && var p := v.manifests[id].parent.value;
       if HasParent(v, p) then Linked(v, p, d) else NoBacking(DiskOf(v, p, d))
  }

  /** The walk finds every parent of the chain. */
  predicate ParentsFound(v: Vault, ids: seq<string>, d: nat) {
    forall k :: 0 <= k < |ids| - 1 ==> ParentPath(v, ids[k], d).Some?
  }

  /** The levels of a chain as recorded: own paths as they stand, parents where they were found. */
  function RecordedPlan(v: Vault, ids: seq<string>, d: nat): seq<Level> {
    if |ids| < 2 || ParentPath(v, ids[0], d).None? then []
    else [Level(DiskOf(v, ids[0], d).backupPath, ParentPath(v, ids[0], d).value, |ids| == 2)] + RecordedPlan(v, ids[1..], d)
  }

  /** Where the walk finds the base of a chain. */
  function BaseImage(v: Vault, ids: seq<string>, d: nat): string
    requires |ids| >= 2
  {
    var found := ParentPath(v, ids[|ids| - 2], d);
    if found.Some? then found.value else ""
  }

  /** The recorded file when it is still there, else the same file under the current root. */
  lemma ResolvesToCurrentRoot(v: Vault, root: string, p: string, d: nat)
    requires IsSegment(p)
    ensures var recorded, current := PathOf(root, p, d, false), PathOf(v.dir, p, d, false);
      FirstExisting(v.files, Candidates(v.dir, recorded))
      == if recorded in v.files then Some(recorded) else if current in v.files then Some(current) else None
  {
    var recorded := PathOf(root, p, d, false);
    PathSegments(root, p, d, false);
    FileNameIsSegment(d, false);
    assert v.dir + "/" + p + "/" + FileName(d, false) == PathOf(v.dir, p, d, false);
    hide PathOf, FileName, Basename, ParentName;
    var all, current := Candidates(v.dir, recorded), PathOf(v.dir, p, d, false);
    FirstOfFew(v.files, recorded, current);
    assert all == [recorded, current] || (all == [recorded] && current == recorded);
  }

  lemma FirstOfFew(files: Files, a: string, b: string)
    ensures FirstExisting(files, [a]) == if a in files then Some(a) else None
    ensures FirstExisting(files, [a, b]) == if a in files then Some(a) else if b in files then Some(b) else None
  {
    assert [a, b][1..] == [b] && [a][1..] == [] && [b][1..] == [];
    assert FirstExisting(files, [b]) == if b in files then Some(b) else None;
  }

  lemma RecordedParentName(root: string, p: string, d: nat)
    requires IsSegment(p)
    ensures ParentName(PathOf(root, p, d, false)) == p && PathOf(root, p, d, false) != ""
  {
    PathSegments(root, p, d, false);
  }

  /** One step of the walk along a link. */
  lemma WalkStep(v: Vault, bad: set<string>, id: string, d: nat, depth: nat)
    requires Link(v, id, d) && depth <= MaxDepth
    ensures var p, found := v.manifests[id].parent.value, ParentPath(v, id, d);
            var path := DiskOf(v, id, d).backupPath;
            && !NoBacking(DiskOf(v, id, d))
            && Walk(v, bad, d, DiskOf(v, id, d), depth)
               == if depth == MaxDepth then Err(CorruptBackup)
                  else if found.None? then Err(ParentNotFound)
                  else if NoBacking(DiskOf(v, p, d)) then
                    if Broken(bad, found.value) then Err(CorruptBackup) else Ok([Level(path, found.value, true)])
                  else Prepend([Level(path, found.value, false)], Walk(v, bad, d, DiskOf(v, p, d), depth + 1))
  {
    var p := v.manifests[id].parent.value;
    var root: string :| DiskOf(v, id, d).backingFile == Some(PathOf(root, p, d, false));
    RecordedParentName(root, p, d);
    hide PathOf, FirstExisting, Candidates, ParentName, Broken;
  }

  lemma ChainStep(v: Vault, id: string)
    requires HasParent(v, id)
    ensures var p := v.manifests[id].parent.value;
            && Chain(v, id) == [id] + Chain(v, p) && BaseOf(v, id) == BaseOf(v, p)
            && (if HasParent(v, p) then |Chain(v, p)| >= 2 else Chain(v, p) == [p])
  {
  }

  lemma PlanStep(v: Vault, id: string, ids: seq<string>, d: nat)
    requires |ids| >= 1
    ensures var all := [id] + ids;
      && (ParentPath(v, id, d).Some? ==>
            RecordedPlan(v, all, d)
            == [Level(DiskOf(v, id, d).backupPath, ParentPath(v, id, d).value, |ids| == 1)] + RecordedPlan(v, ids, d))
      && (|ids| >= 2 ==> BaseImage(v, all, d) == BaseImage(v, ids, d))
      && (|ids| == 1 ==> BaseImage(v, all, d) == (if ParentPath(v, id, d).Some? then ParentPath(v, id, d).value else ""))
      && (|ids| == 1 ==> RecordedPlan(v, ids, d) == [])
  {
    hide ParentPath, DiskOf;
    assert ([id] + ids)[1..] == ids;
  }

  lemma FoundStep(v: Vault, id: string, ids: seq<string>, d: nat)
    requires |ids| >= 1
    ensures ParentsFound(v, [id] + ids, d) <==> ParentPath(v, id, d).Some? && ParentsFound(v, ids, d)
    ensures |ids| == 1 ==> ParentsFound(v, ids, d)
  {
    hide ParentPath;
    var all := [id] + ids;
    if ParentsFound(v, all, d) {
      assert ParentPath(v, all[0], d).Some?;
      forall k | 0 <= k < |ids| - 1 ensures ParentPath(v, ids[k], d).Some? { assert all[k + 1] == ids[k]; }
    }
  }

  /**
   On a chain of manifests of any length, each recorded under any root, the walk succeeds exactly when
   every parent is found, at most 256 overlay levels remain and the base is intact, and then returns
   the plan as recorded.
   */
  lemma {:induction false} WalkFollowsChain(v: Vault, bad: set<string>, id: string, d: nat, depth: nat)
    requires Linked(v, id, d) && depth <= MaxDepth
    ensures var ids := Chain(v, id);
            var r := Walk(v, bad, d, DiskOf(v, id, d), depth);
            && |ids| >= 2
            && (r.Ok? <==> depth + |ids| - 1 <= 256 && ParentsFound(v, ids, d) && !Broken(bad, BaseImage(v, ids, d)))
            && (r.Ok? ==> r.value == RecordedPlan(v, ids, d))
    decreases MaxDepth - depth
  {
    hide Walk, Chain, RecordedPlan, PathOf, HasParent, NoBacking, ParentsFound, BaseImage, Broken, ParentPath, DiskOf;
    LinkedStep(v, id, d);
    hide Link, Linked;
    WalkStep(v, bad, id, d, depth);
    ChainStep(v, id);
    var p := v.manifests[id].parent.value;
    PlanStep(v, id, Chain(v, p), d);
    FoundStep(v, id, Chain(v, p), d);
    if HasParent(v, p) && depth < MaxDepth {
      WalkFollowsChain(v, bad, p, d, depth + 1);
    }
  }

  lemma LinkedStep(v: Vault, id: string, d: nat)
    requires Linked(v, id, d)
    ensures Link(v, id, d) && HasParent(v, id)
    ensures var p := v.manifests[id].parent.value;
      if HasParent(v, p) then Linked(v, p, d) && !NoBacking(DiskOf(v, p, d)) else NoBacking(DiskOf(v, p, d))
  {
    var p := v.manifests[id].parent.value;
    if HasParent(v, p) { LinkedHasBacking(v, p, d); }
  }

  lemma LinkedHasBacking(v: Vault, id: string, d: nat)
    requires Linked(v, id, d)
    ensures !NoBacking(DiskOf(v, id, d))
  {
    var p := v.manifests[id].parent.value;
    var root: string :| DiskOf(v, id, d).backingFile == Some(PathOf(root, p, d, false));
    RecordedParentName(root, p, d);
  }

  /** The pre-flight of one disk of a chain recorded under any roots. */
  lemma PreflightOkIff(v: Vault, bad: set<string>, id: string, d: nat)
    requires Linked(v, id, d)
    ensures var ids, topDisk := Chain(v, id), DiskOf(v, id, d);
            && |ids| >= 2
            && (Preflight(v, bad, d, topDisk).Ok? <==>
                  && topDisk.backupPath in v.files && |ids| - 1 <= 256
                  && ParentsFound(v, ids, d) && !Broken(bad, BaseImage(v, ids, d)))
            && (Preflight(v, bad, d, topDisk).Ok? ==> Preflight(v, bad, d, topDisk).value == RecordedPlan(v, ids, d))
  {
    WalkFollowsChain(v, bad, id, d, 0);
  }

  /** Only images that are checked can be found broken: no gzip blob is. */
  lemma BrokenIff(bad: set<string>, path: string)
    ensures Broken(bad, path) <==> path in bad && !EndsWith(path, ".gz")
  {
  }

  lemma {:induction false} RecordedPlanShape(v: Vault, ids: seq<string>, d: nat)
    requires |ids| >= 2 && ParentsFound(v, ids, d)
    ensures var plan := RecordedPlan(v, ids, d);
      && |plan| == |ids| - 1
      && (forall k :: 0 <= k < |plan| ==> plan[k].overlayPath == DiskOf(v, ids[k], d).backupPath)
      && plan[|plan| - 1].resolvedParent == BaseImage(v, ids, d)
  {
    hide ParentPath, DiskOf;
    assert ParentPath(v, ids[0], d).Some?;
    if |ids| > 2 {
      forall k | 0 <= k < |ids[1..]| - 1 ensures ParentPath(v, ids[1..][k], d).Some? { assert ids[1..][k] == ids[k + 1]; }
      RecordedPlanShape(v, ids[1..], d);
      var plan, rest := RecordedPlan(v, ids, d), RecordedPlan(v, ids[1..], d);
      assert plan[1..] == rest;
      forall k | 0 <= k < |plan| ensures plan[k].overlayPath == DiskOf(v, ids[k], d).backupPath {
        if k > 0 { assert plan[k] == rest[k - 1] && ids[1..][k - 1] == ids[k]; }
      }
    }
  }

  /** The overlay's file is there, at the path its manifest records. */
  predicate OverlayStored(v: Vault, id: string, d: nat) {
    var path := DiskOf(v, id, d).backupPath;
    path in v.files && v.files[path].Qcow?
  }

  /**
   A passed pre-flight can be rebuilt exactly when every overlay of the chain, and not only the top one,
   lies at the path its own manifest records, and the base can be read.
   */
  lemma RebuildableIff(v: Vault, bad: set<string>, id: string, d: nat)
    requires Linked(v, id, d) && Preflight(v, bad, d, DiskOf(v, id, d)).Ok?
    requires !EndsWith(DiskOf(v, id, d).backupPath, ".gz")
    ensures var ids, topDisk := Chain(v, id), DiskOf(v, id, d);
            && |ids| >= 2
            && (Restored(v.files, topDisk.backupPath, Preflight(v, bad, d, topDisk).value).Some? <==>
                  && (forall k :: 0 <= k < |ids| - 1 ==> OverlayStored(v, ids[k], d))
                  && Content(v.files, BaseImage(v, ids, d)).Some?)
  {
    var ids := Chain(v, id);
    PreflightOkIff(v, bad, id, d);
    RecordedPlanShape(v, ids, d);
    var plan := RecordedPlan(v, ids, d);
    ReadableIff(v.files, plan);
    hide Linked, Chain, RecordedPlan, ParentsFound, BaseImage, Walk, ChainContent, Content, DiskOf, OverlaysPresent, OverlayStored;
    PlanStored(v, ids, d, plan);
  }

  lemma PlanStored(v: Vault, ids: seq<string>, d: nat, plan: seq<Level>)
    requires |plan| == |ids| - 1 && forall k :: 0 <= k < |plan| ==> plan[k].overlayPath == DiskOf(v, ids[k], d).backupPath
    ensures OverlaysPresent(v.files, plan) <==> forall k :: 0 <= k < |ids| - 1 ==> OverlayStored(v, ids[k], d)
  {
    hide DiskOf;
    if forall k :: 0 <= k < |ids| - 1 ==> OverlayStored(v, ids[k], d) {
      forall k | 0 <= k < |plan| ensures plan[k].overlayPath in v.files && v.files[plan[k].overlayPath].Qcow? {
        assert OverlayStored(v, ids[k], d);
      }
    }
  }

  lemma NotGz(dir: string, id: string, d: nat)
    ensures !EndsWithGz(PathOf(dir, id, d, false)) && !EndsWith(PathOf(dir, id, d, false), ".gz")
  {
    var path := PathOf(dir, id, d, false);
    assert path[|path| - 1] == '2';
    assert ".gz"[2] == 'z';
  }

  /** In every reachable state the manifests of a completed backup link down its chain, under the current root. */
  lemma {:induction false} CompletedIsLinked(v: Vault, id: string, d: nat)
    requires Inv(v) && IsCompleted(v, id) && v.manifests[id].kind.Incremental? && d < |v.manifests[id].disks|
    ensures Linked(v, id, d) && ParentsFound(v, Chain(v, id), d)
    ensures RecordedPlan(v, Chain(v, id), d) == PlanOf(v.dir, Chain(v, id), d)
    ensures BaseImage(v, Chain(v, id), d) == PathOf(v.dir, BaseOf(v, id), d, false)
    decreases v.manifests[id].createdAt
  {
    var m, p := v.manifests[id], v.manifests[id].parent.value;
    OverlayExists(v, id, d);
    ParentFoundAt(v, id, d);
    ChainStep(v, id);
    PlanStep(v, id, Chain(v, p), d);
    FoundStep(v, id, Chain(v, p), d);
    assert Chain(v, id)[1..] == Chain(v, p);
    assert Link(v, id, d);
    if v.manifests[p].kind.Incremental? {
      CompletedIsLinked(v, p, d);
      assert HasParent(v, p) by { assert Healthy(v, p); }
    } else {
      assert NoBacking(DiskOf(v, p, d)) by { assert Healthy(v, p); assert FullDiskOk(v, v.manifests[p], d); }
    }
    hide Inv, PathOf, Link, Chain, ParentPath, RecordedPlan, ParentsFound, BaseImage;
  }

  lemma ParentFoundAt(v: Vault, id: string, d: nat)
    requires Inv(v) && IsCompleted(v, id) && v.manifests[id].kind.Incremental? && d < |v.manifests[id].disks|
    ensures HasParent(v, id)
    ensures var p := v.manifests[id].parent.value;
      && IsCompleted(v, p) && IsSegment(p) && d < |v.manifests[p].disks|
      && DiskOf(v, id, d).backingFile == Some(PathOf(v.dir, p, d, false))
      && ParentPath(v, id, d) == Some(PathOf(v.dir, p, d, false))
  {
    var m, p := v.manifests[id], v.manifests[id].parent.value;
    assert Healthy(v, id) && Healthy(v, p);
    assert OverlayOk(v, m, p, d);
    ParentDisks(v, p, d);
    if v.manifests[p].kind.Incremental? {
      OverlayExists(v, p, d);
    } else {
      assert FullDiskOk(v, v.manifests[p], d);
    }
  }

  lemma OverlayExists(v: Vault, id: string, d: nat)
    requires Inv(v) && IsCompleted(v, id) && v.manifests[id].kind.Incremental? && d < |v.manifests[id].disks|
    ensures v.manifests[id].disks[d].backupPath == PathOf(v.dir, id, d, false)
    ensures PathOf(v.dir, id, d, false) in v.files
  {
    assert Healthy(v, id);
    assert OverlayOk(v, v.manifests[id], v.manifests[id].parent.value, d);
  }

  /**
   In every reachable state the pre-flight of a completed INCREMENTAL backup succeeds exactly when
   the chain has at most 256 overlays and the base image is intact; the plan then ends on the base.
   */
  lemma VerifySucceedsIff(v: Vault, bad: set<string>, id: string, d: nat)
    requires Inv(v) && IsCompleted(v, id) && v.manifests[id].kind.Incremental? && d < |v.manifests[id].disks|
    ensures var ids, topDisk := Chain(v, id), v.manifests[id].disks[d];
            var r := Walk(v, bad, d, topDisk, 0);
            && topDisk.backupPath in v.files
            && (r.Ok? <==> |ids| - 1 <= 256 && PathOf(v.dir, BaseOf(v, id), d, false) !in bad)
            && (r.Ok? ==> r.value == PlanOf(v.dir, ids, d)
                          && forall k :: 0 <= k < |r.value| ==> (r.value[k].parentIsBase <==> k == |r.value| - 1))
  {
    NotGz(v.dir, BaseOf(v, id), d);
    hide Inv, Walk, PathOf, Linked, Chain, Healthy, PlanOf, HasParent, ParentsFound, RecordedPlan, BaseImage, BaseOf;
    OverlayExists(v, id, d);
    CompletedIsLinked(v, id, d);
    WalkFollowsChain(v, bad, id, d, 0);
    PlanEndsOnBase(v.dir, Chain(v, id), d);
  }

  // ----- what a restore gives back -----

  /** The clusters of one overlay laid over what its parent shows are what the parent shows. */
  lemma OverlayAddsNothing(v: Vault, id: string, d: nat)
    requires Inv(v) && IsCompleted(v, id) && v.manifests[id].kind.Incremental? && d < |v.manifests[id].disks|
    ensures var p, path := v.manifests[id].parent.value, PathOf(v.dir, id, d, false);
            && path in v.files && v.files[path].Qcow? && IsCompleted(v, p) && d < |v.manifests[p].disks|
            && BaseContent(v, id, d) == BaseContent(v, p, d)
            && Over(Some(BaseContent(v, p, d)), v.files[path].clusters) == Some(BaseContent(v, p, d))
  {
    var m, p := v.manifests[id], v.manifests[id].parent.value;
    assert Healthy(v, id) && Healthy(v, p);
    assert OverlayOk(v, m, p, d);
    assert Chain(v, id) == [id] + Chain(v, p);
    var content := BaseContent(v, p, d);
    assert content + map[] == content && content + content == content;
  }

  lemma FullReadsAsSource(v: Vault, id: string, d: nat)
    requires Inv(v) && IsCompleted(v, id) && v.manifests[id].kind.Full? && d < |v.manifests[id].disks|
    requires !v.manifests[id].compression.Gzip?
    ensures Content(v.files, PathOf(v.dir, id, d, false)) == Some(BaseContent(v, id, d))
  {
    assert Healthy(v, id);
    assert FullDiskOk(v, v.manifests[id], d);
    assert Chain(v, id) == [id];
  }

  lemma ParentNotGzip(v: Vault, id: string)
    requires Inv(v) && IsCompleted(v, id) && v.manifests[id].kind.Incremental?
    ensures !v.manifests[v.manifests[id].parent.value].compression.Gzip?
  {
    assert Healthy(v, id);
  }

  lemma {:induction false} PlanContent(v: Vault, id: string, d: nat)
    requires Inv(v) && IsCompleted(v, id) && v.manifests[id].kind.Incremental? && d < |v.manifests[id].disks|
    ensures PlanOf(v.dir, Chain(v, id), d) != []
    ensures ChainContent(v.files, PlanOf(v.dir, Chain(v, id), d)) == Some(BaseContent(v, id, d))
    decreases v.manifests[id].createdAt
  {
    var p := v.manifests[id].parent.value;
    assert Healthy(v, id);
    ParentFoundAt(v, id, d);
    ChainStep(v, id);
    assert Chain(v, id)[1..] == Chain(v, p);
    OverlayAddsNothing(v, id, d);
    ParentNotGzip(v, id);
    if v.manifests[p].kind.Incremental? {
      PlanContent(v, p, d);
    } else {
      FullReadsAsSource(v, p, d);
      assert PlanOf(v.dir, [p], d) == [];
    }
    hide Inv, PathOf, Chain, Healthy, Content, BaseContent, Over;
    var plan, rest := PlanOf(v.dir, Chain(v, id), d), PlanOf(v.dir, Chain(v, p), d);
    assert plan[1..] == rest && plan[0].overlayPath == PathOf(v.dir, id, d, false);
  }

  /** A FULL backup, compressed or not, restores to what the source disk held when it was taken. */
  lemma FullRestoresSource(v: Vault, id: string, i: nat)
    requires Inv(v) && IsCompleted(v, id) && v.manifests[id].kind.Full? && i < |v.manifests[id].disks|
    ensures id in v.history && i < |v.history[id]|
    ensures Restored(v.files, v.manifests[id].disks[i].backupPath, []) == Some(v.history[id][i])
  {
    var m := v.manifests[id];
    assert Healthy(v, id);
    assert FullDiskOk(v, m, i);
    if m.compression.Gzip? {
      var path := PathOf(v.dir, id, i, true);
      assert path[|path| - 3..] == ".gz";
    } else {
      NotGz(v.dir, id, i);
    }
  }

  /**
   An INCREMENTAL backup restores to what the source held when the FULL base of its chain was taken:
   it gives back its own source exactly when the source had not changed since then.
   */
  lemma IncrementalRestoresBase(v: Vault, bad: set<string>, id: string, d: nat)
    requires Inv(v) && IsCompleted(v, id) && v.manifests[id].kind.Incremental? && d < |v.manifests[id].disks|
    requires Walk(v, bad, d, v.manifests[id].disks[d], 0).Ok?
    ensures var levels := Walk(v, bad, d, v.manifests[id].disks[d], 0).value;
            var base := BaseOf(v, id);
            var restored := Restored(v.files, v.manifests[id].disks[d].backupPath, levels);
            && base in v.history && d < |v.history[base]| && restored == Some(v.history[base][d])
            && (id in v.history && d < |v.history[id]| ==>
                  (restored == Some(v.history[id][d]) <==> v.history[id][d] == v.history[base][d]))
  {
    VerifySucceedsIff(v, bad, id, d);
    PlanContent(v, id, d);
    BaseHistory(v, id);
    assert Healthy(v, id);
    assert OverlayOk(v, v.manifests[id], v.manifests[id].parent.value, d);
    NotGz(v.dir, id, d);
  }

  // ----- the depth limit -----

  /** A completed overlay has one more level than its parent had. */
  lemma ChainOfNew(v: Vault, id: string, cfg: Config, fault: Fault)
    requires Inv(v) && CreateLegal(v, id, cfg) && cfg.kind.Incremental? && IsCompleted(Create(v, id, cfg, fault), id)
    ensures cfg.parent.Some? && IsCompleted(v, cfg.parent.value)
    ensures Inv(Create(v, id, cfg, fault))
    ensures Chain(Create(v, id, cfg, fault), id) == [id] + Chain(v, cfg.parent.value)
    ensures |Create(v, id, cfg, fault).manifests[id].disks| == |v.manifests[cfg.parent.value].disks|
  {
    CreateKeepsInv(v, id, cfg, fault);
    hide OverlayDisks, OutsideBackups, RemoveUnder, SourceContents;
    var w := Create(v, id, cfg, fault);
    assert !fault.mkdirFails && Execute(v, id, cfg, fault.failAt).ok && !fault.manifestFails;
    var p := cfg.parent.value;
    assert Healthy(w, id) && Healthy(v, p);
    ParentIsCompleted(w, id);
    assert p != id && w.manifests[p] == v.manifests[p];
    ChainMembers(v, p);
    ChainIdsKept(v, w, p);
    ChainStep(w, id);
  }

  lemma ParentIsCompleted(v: Vault, id: string)
    requires Inv(v) && IsCompleted(v, id) && v.manifests[id].kind.Incremental?
    ensures HasParent(v, id) && IsCompleted(v, v.manifests[id].parent.value)
    ensures |v.manifests[v.manifests[id].parent.value].disks| == |v.manifests[id].disks|
  {
    assert Healthy(v, id);
  }

  /**
   Creating never looks at the depth: an overlay on a chain that already has 256 completes, and its
   pre-flight then fails for every disk, however intact the images are.
   */
  lemma CreateCrossesLimit(v: Vault, id: string, cfg: Config, fault: Fault, bad: set<string>, d: nat)
    requires Inv(v) && CreateLegal(v, id, cfg) && cfg.kind.Incremental? && IsCompleted(Create(v, id, cfg, fault), id)
    requires d < |Create(v, id, cfg, fault).manifests[id].disks|
    ensures cfg.parent.Some? && cfg.parent.value in v.manifests
    ensures var w := Create(v, id, cfg, fault);
      Preflight(w, bad, d, w.manifests[id].disks[d]).Ok?
      <==> |Chain(v, cfg.parent.value)| <= 256 && PathOf(w.dir, BaseOf(w, id), d, false) !in bad
  {
    ChainOfNew(v, id, cfg, fault);
    var w := Create(v, id, cfg, fault);
    hide Create, CreateLegal, Inv, Walk, PathOf, Chain, BaseOf;
    VerifySucceedsIff(w, bad, id, d);
  }
}
