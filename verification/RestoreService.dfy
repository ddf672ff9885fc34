/**
 Restoring all disks of a FULL or INCREMENTAL backup: the chains of every disk are verified before the
 first target is written, then the disks are restored one after the other.
 */
module RestoreService {
  import opened Wrappers
  import opened ImageStore
  import opened BackupPaths
  import opened Restore
  import opened BackupChains
  import opened BackupInvariant
  import opened BackupRestore

  datatype RestoreError =
    | BackupNotFound | NotCompleted | DiskCountMismatch | ChainBroken(error: ChainError) | TargetExists | OperationFailed

  /** The target and every temporary name beside it. */
  function Reserved(target: string): set<string> {
    Temps(target, MaxDepth) + {target}
  }

  function Touched(targets: seq<string>, n: nat): set<string>
    requires n <= |targets|
  {
    if n == 0 then {} else Touched(targets, n - 1) + Reserved(targets[n - 1])
  }

  lemma TempsGrow(target: string, m: nat, n: nat)
    requires m <= n
    ensures Temps(target, m) <= Temps(target, n)
  {
  }

  // ----- plans -----

  /** The chain a restore of disk `d` rebuilds: none for a FULL backup. */
  function PlanFor(v: Vault, id: string, d: nat): seq<Level>
    requires id in v.manifests
  {
    if v.manifests[id].kind.Incremental? then PlanOf(v.dir, Chain(v, id), d) else []
  }

  predicate IsDisk(v: Vault, id: string, d: nat) {
    id in v.manifests && d < |v.manifests[id].disks|
  }

  function Parents(levels: seq<Level>): set<string> {
    set i | 0 <= i < |levels| :: levels[i].resolvedParent
  }

  function Overlays(levels: seq<Level>): set<string> {
    set i | 0 <= i < |levels| :: levels[i].overlayPath
  }

  /** The backup files that a restore of disk `d` reads. */
  function PlanFiles(v: Vault, id: string, d: nat): set<string>
    requires IsDisk(v, id, d)
  {
    {v.manifests[id].disks[d].backupPath} + Overlays(PlanFor(v, id, d)) + Parents(PlanFor(v, id, d))
  }

  /** How many levels a restore of the backup rebuilds, for every disk. */
  function LevelsOf(v: Vault, id: string): nat {
    if id in v.manifests && v.manifests[id].kind.Incremental? then |Chain(v, id)| - 1 else 0
  }

  /** The temporary names that a restore of the backup to `target` uses. */
  function OwnTemps(v: Vault, id: string, target: string): set<string> {
    Temps(target, LevelsOf(v, id))
  }

  /**
   Targets may repeat, but different ones do not share names; no temporary name is a file of the restored
   chains or something another image points to; and no target is a file that a later disk is restored from.
   */
  ghost predicate Apart(v: Vault, id: string, targets: seq<string>) {
    && (forall i, j :: 0 <= i < j < |targets| && targets[i] != targets[j] ==> Reserved(targets[i]) !! Reserved(targets[j]))
    && (forall i :: 0 <= i < |targets| ==> Private(v.files, OwnTemps(v, id, targets[i])))
    && (forall i, k :: 0 <= i < |targets| && 0 <= k < |targets| && IsDisk(v, id, k) ==>
          Temps(targets[i], MaxDepth) !! PlanFiles(v, id, k))
    && (forall i, k :: 0 <= i < k < |targets| && IsDisk(v, id, k) ==> targets[i] !in PlanFiles(v, id, k))
  }

  lemma {:induction false} TouchedApart(v: Vault, id: string, targets: seq<string>, n: nat, k: nat)
    requires Apart(v, id, targets) && n <= k < |targets| && forall i :: 0 <= i < n ==> targets[i] != targets[k]
    ensures Touched(targets, n) !! Reserved(targets[k])
  {
    hide Reserved, PlanFiles, IsDisk, Temps, Private;
    if n > 0 { TouchedApart(v, id, targets, n - 1, k); }
  }

  lemma {:induction false} TouchedClear(v: Vault, id: string, targets: seq<string>, n: nat, k: nat)
    requires Apart(v, id, targets) && n <= k < |targets| && IsDisk(v, id, k)
    ensures Touched(targets, n) !! PlanFiles(v, id, k)
  {
    hide PlanFiles, Temps, Private, Chain;
    if n > 0 { TouchedClear(v, id, targets, n - 1, k); }
  }

  // ----- what a restore reads -----

  /** The base of a chain is a standalone image. */
  lemma {:induction false} BaseStandsAlone(v: Vault, id: string, d: nat)
    requires Inv(v) && IsCompleted(v, id) && v.manifests[id].kind.Incremental? && d < |v.manifests[id].disks|
    ensures var base := PathOf(v.dir, BaseOf(v, id), d, false);
      base in v.files && v.files[base].Qcow? && v.files[base].backing.None?
    decreases v.manifests[id].createdAt
  {
    var p := v.manifests[id].parent.value;
    ParentFoundAt(v, id, d);
    ParentNotGzip(v, id);
    ChainStep(v, id);
    if v.manifests[p].kind.Incremental? {
      assert HasParent(v, p) by { assert Healthy(v, p); }
      BaseStandsAlone(v, p, d);
    } else {
      assert Healthy(v, p);
      assert FullDiskOk(v, v.manifests[p], d);
      assert !HasParent(v, p);
    }
  }

  /** A chain on a standalone base reads the same wherever its own files are the same. */
  lemma {:induction false} ChainFrame(a: Files, b: Files, levels: seq<Level>)
    requires levels != []
    requires forall p :: p in Overlays(levels) + Parents(levels) ==> (p in a <==> p in b) && (p in a ==> a[p] == b[p])
    requires var base := levels[|levels| - 1].resolvedParent; base in a && a[base].Qcow? && a[base].backing.None?
    ensures ChainContent(a, levels) == ChainContent(b, levels)
  {
    assert levels[0].overlayPath in Overlays(levels) && levels[|levels| - 1].resolvedParent in Parents(levels);
    if |levels| > 1 {
      var rest := levels[1..];
      assert forall i :: 0 <= i < |rest| ==> rest[i] == levels[i + 1];
      forall p | p in Overlays(rest) + Parents(rest) ensures p in Overlays(levels) + Parents(levels) {
        if p in Overlays(rest) {
          var i :| 0 <= i < |rest| && rest[i].overlayPath == p;
          assert levels[i + 1].overlayPath == p;
        } else {
          var i :| 0 <= i < |rest| && rest[i].resolvedParent == p;
          assert levels[i + 1].resolvedParent == p;
        }
      }
      hide Overlays, Parents;
      ChainFrame(a, b, rest);
    }
  }

  lemma ChainIsLong(v: Vault, id: string)
    requires HasParent(v, id)
    ensures |Chain(v, id)| >= 2
  {
    ChainStep(v, id);
  }

  lemma PlanBase(v: Vault, id: string, d: nat)
    requires Inv(v) && IsCompleted(v, id) && v.manifests[id].kind.Incremental? && d < |v.manifests[id].disks|
    ensures var plan := PlanFor(v, id, d);
      && plan != [] && |plan| == |Chain(v, id)| - 1
      && plan[|plan| - 1].resolvedParent == PathOf(v.dir, BaseOf(v, id), d, false)
  {
    hide Inv, IsCompleted, PathOf, Chain, PlanOf, HasParent;
    ParentFoundAt(v, id, d);
    ChainIsLong(v, id);
    var ids := Chain(v, id);
    PlanEndsOnBase(v.dir, ids, d);
    assert PlanOf(v.dir, ids, d)[|ids| - 2].resolvedParent == PathOf(v.dir, ids[|ids| - 1], d, false);
  }

  /** Disk `d` as a restore must give it back, whatever was written elsewhere. */
  lemma RestoresBase(v: Vault, files: Files, touched: set<string>, id: string, d: nat)
    requires Inv(v) && IsCompleted(v, id) && d < |v.manifests[id].disks|
    requires AgreeOutside(v.files, files, touched) && touched !! PlanFiles(v, id, d)
    ensures Restored(files, v.manifests[id].disks[d].backupPath, PlanFor(v, id, d)) == Some(BaseContent(v, id, d))
  {
    var path := v.manifests[id].disks[d].backupPath;
    assert path in PlanFiles(v, id, d);
    if v.manifests[id].kind.Full? {
      FullRestoresSource(v, id, d);
      assert Healthy(v, id);
      assert FullDiskOk(v, v.manifests[id], d);
      assert Chain(v, id) == [id];
    } else {
      RestoresOverlay(v, files, touched, id, d);
    }
  }

  lemma RestoresOverlay(v: Vault, files: Files, touched: set<string>, id: string, d: nat)
    requires Inv(v) && IsCompleted(v, id) && v.manifests[id].kind.Incremental? && d < |v.manifests[id].disks|
    requires AgreeOutside(v.files, files, touched) && touched !! PlanFiles(v, id, d)
    ensures Restored(files, v.manifests[id].disks[d].backupPath, PlanFor(v, id, d)) == Some(BaseContent(v, id, d))
  {
    OverlayExists(v, id, d);
    NotGz(v.dir, id, d);
    hide Inv, PathOf, BaseOf, Chain, PlanOf, ChainContent, BaseContent;
    PlanContent(v, id, d);
    PlanBase(v, id, d);
    BaseStandsAlone(v, id, d);
    hide PlanFor, IsCompleted;
    ChainFrame(v.files, files, PlanFor(v, id, d));
  }

  lemma PlanLength(v: Vault, id: string, d: nat)
    requires Inv(v) && IsCompleted(v, id) && d < |v.manifests[id].disks|
    ensures |PlanFor(v, id, d)| == LevelsOf(v, id)
  {
    if v.manifests[id].kind.Incremental? { PlanBase(v, id, d); }
  }

  /** The temporary names of target `k` are unused when its turn comes. */
  lemma TempsFree(v: Vault, files: Files, id: string, targets: seq<string>, k: nat)
    requires IsDisk(v, id, k) && Apart(v, id, targets) && k < |targets|
    requires |PlanFor(v, id, k)| == LevelsOf(v, id) <= MaxDepth && Private(files, OwnTemps(v, id, targets[k]))
    ensures TempsUnused(files, v.manifests[id].disks[k].backupPath, targets[k], PlanFor(v, id, k))
  {
    var levels, temps := PlanFor(v, id, k), Temps(targets[k], |PlanFor(v, id, k)|);
    TempsGrow(targets[k], |levels|, MaxDepth);
    assert temps !! PlanFiles(v, id, k);
    hide PlanFor, Temps, Private, Chain;
    forall i | 0 <= i < |levels| ensures levels[i].overlayPath !in temps && levels[i].resolvedParent !in temps {
      assert levels[i].overlayPath in Overlays(levels) && levels[i].resolvedParent in Parents(levels);
    }
  }

  /** What restoring disk `n` copies or points to has nothing to do with the temporary names of another target. */
  lemma OtherTempsFree(v: Vault, id: string, targets: seq<string>, n: nat, k: nat)
    requires IsDisk(v, id, n) && Apart(v, id, targets) && n < |targets| && k < |targets| && targets[n] != targets[k]
    requires |PlanFor(v, id, n)| == LevelsOf(v, id) <= MaxDepth
    ensures var levels, temps := PlanFor(v, id, n), OwnTemps(v, id, targets[k]);
      && temps !! CopiedFrom(v.manifests[id].disks[n].backupPath, targets[n], levels)
      && temps !! NewPointers(targets[n], levels)
  {
    var levels := PlanFor(v, id, n);
    TempsGrow(targets[n], |levels|, MaxDepth);
    TempsGrow(targets[k], |levels|, MaxDepth);
    assert Reserved(targets[n]) !! Reserved(targets[k]) by { if n < k {} else { assert k < n; } }
    assert OwnTemps(v, id, targets[k]) !! PlanFiles(v, id, n);
    hide PlanFor, Temps, Private, Chain;
  }

  // ----- targets outside the backups -----

  ghost predicate AllOutside(v: Vault, paths: set<string>) {
    forall p :: p in paths ==> OutsideBackups(v, p)
  }

  lemma {:induction false} PlanPaths(v: Vault, ids: seq<string>, d: nat, p: string)
    requires (forall x :: x in ids ==> IsSegment(x)) && OutsideBackups(v, p)
    ensures var levels := PlanOf(v.dir, ids, d); p !in Overlays(levels) && p !in Parents(levels)
  {
    if |ids| >= 2 {
      var levels, rest := PlanOf(v.dir, ids, d), PlanOf(v.dir, ids[1..], d);
      assert Under(v.dir, ids[0], levels[0].overlayPath) && Under(v.dir, ids[1], levels[0].resolvedParent);
      PlanPaths(v, ids[1..], d, p);
      assert levels[1..] == rest;
      forall i | 0 <= i < |levels| ensures levels[i].overlayPath != p && levels[i].resolvedParent != p {
        if i > 0 {
          assert levels[i] == rest[i - 1];
          assert rest[i - 1].overlayPath in Overlays(rest) && rest[i - 1].resolvedParent in Parents(rest);
        }
      }
    }
  }

  /** Names outside the backups are no backup files. */
  lemma PlanOutside(v: Vault, id: string, d: nat, paths: set<string>)
    requires Inv(v) && IsCompleted(v, id) && d < |v.manifests[id].disks| && AllOutside(v, paths)
    ensures paths !! PlanFiles(v, id, d)
  {
    var m := v.manifests[id];
    assert Healthy(v, id);
    if m.kind.Full? {
      assert FullDiskOk(v, m, d);
    } else {
      OverlayExists(v, id, d);
      ChainMembers(v, id);
      forall x | x in Chain(v, id) ensures IsSegment(x) { assert Healthy(v, x); }
    }
    assert Under(v.dir, id, m.disks[d].backupPath);
    forall p | p in paths ensures p !in PlanFiles(v, id, d) {
      assert !Under(v.dir, id, p);
      if m.kind.Incremental? { PlanPaths(v, Chain(v, id), d, p); }
    }
  }

  /** Targets outside the backups, with temporary names nobody uses, are apart. */
  lemma OutsideIsApart(v: Vault, id: string, targets: seq<string>)
    requires Inv(v) && (id in v.manifests ==> IsCompleted(v, id))
    requires forall i :: 0 <= i < |targets| ==> AllOutside(v, Reserved(targets[i]))
    requires forall i, j :: 0 <= i < j < |targets| && targets[i] != targets[j] ==> Reserved(targets[i]) !! Reserved(targets[j])
    requires forall i :: 0 <= i < |targets| ==> Private(v.files, OwnTemps(v, id, targets[i]))
    ensures Apart(v, id, targets)
  {
    hide Inv, PlanFiles, Temps, AllOutside, Private, Chain;
    forall i, k | 0 <= i < |targets| && 0 <= k < |targets| && IsDisk(v, id, k)
      ensures Reserved(targets[i]) !! PlanFiles(v, id, k)
    {
      PlanOutside(v, id, k, Reserved(targets[i]));
    }
  }

  // ----- verifying -----

  /** Every disk's chain is short enough and ends on an intact base. */
  predicate ChainsIntact(v: Vault, bad: set<string>, id: string)
    requires id in v.manifests
  {
    forall d :: 0 <= d < |v.manifests[id].disks| ==> ChainIntact(v, bad, id, d)
  }

  ghost predicate IntactUpTo(v: Vault, bad: set<string>, id: string, n: nat) {
    forall d :: 0 <= d < n ==> ChainIntact(v, bad, id, d)
  }

  lemma IntactSteps(v: Vault, bad: set<string>, id: string)
    requires id in v.manifests
    ensures IntactUpTo(v, bad, id, 0)
    ensures forall n: nat :: IntactUpTo(v, bad, id, n) && ChainIntact(v, bad, id, n) ==> IntactUpTo(v, bad, id, n + 1)
    ensures forall n: nat :: n < |v.manifests[id].disks| && !ChainIntact(v, bad, id, n) ==> !ChainsIntact(v, bad, id)
    ensures IntactUpTo(v, bad, id, |v.manifests[id].disks|) ==> ChainsIntact(v, bad, id)
  {
    hide ChainIntact;
  }

  predicate ChainIntact(v: Vault, bad: set<string>, id: string, d: nat) {
    |Chain(v, id)| - 1 <= 256 && PathOf(v.dir, BaseOf(v, id), d, false) !in bad
  }

  lemma VerifiedPlan(v: Vault, bad: set<string>, id: string, d: nat)
    requires Inv(v) && IsCompleted(v, id) && v.manifests[id].kind.Incremental? && d < |v.manifests[id].disks|
    ensures var r := Preflight(v, bad, d, v.manifests[id].disks[d]);
      && (r.Ok? <==> ChainIntact(v, bad, id, d)) && (r.Ok? ==> r.value == PlanFor(v, id, d))
  {
    hide Inv, Walk, PathOf, Chain, PlanOf, BaseOf;
    VerifySucceedsIff(v, bad, id, d);
  }

  /** The chains of the first disks are recorded under their overlay's path. */
  ghost predicate ResolvedUpTo(v: Vault, id: string, chains: map<string, seq<Level>>, n: nat)
    requires id in v.manifests && n <= |v.manifests[id].disks|
  {
    forall d :: 0 <= d < n ==>
      var path := v.manifests[id].disks[d].backupPath; path in chains && chains[path] == PlanFor(v, id, d)
  }

  lemma NothingResolved(v: Vault, id: string)
    requires id in v.manifests
    ensures ResolvedUpTo(v, id, map[], 0)
  {
  }

  lemma ResolvedNext(v: Vault, id: string, chains: map<string, seq<Level>>, d: nat)
    requires Inv(v) && IsCompleted(v, id) && v.manifests[id].kind.Incremental? && d < |v.manifests[id].disks|
    requires ResolvedUpTo(v, id, chains, d)
    ensures ResolvedUpTo(v, id, chains[v.manifests[id].disks[d].backupPath := PlanFor(v, id, d)], d + 1)
    ensures PlanFor(v, id, d) != []
  {
    hide Inv, PlanFor, PathOf, Chain;
    PlanBase(v, id, d);
    EarlierPathsDiffer(v, id, d);
    hide IsCompleted, BaseOf;
  }

  /** Walks the chain of every disk of an INCREMENTAL backup; the first failure ends it. */
  method VerifyIncrementalChain(v: Vault, bad: set<string>, id: string)
    returns (r: Result<map<string, seq<Level>>, ChainError>)
    requires Inv(v) && IsCompleted(v, id) && v.manifests[id].kind.Incremental?
    ensures r.Ok? <==> ChainsIntact(v, bad, id)
    ensures r.Ok? ==> ResolvedUpTo(v, id, r.value, |v.manifests[id].disks|)
  {
    var disks := v.manifests[id].disks;
    var chains: map<string, seq<Level>> := map[];
    hide Inv, Preflight, ChainIntact, ChainsIntact, IntactUpTo, ResolvedUpTo, PlanFor;
    IntactSteps(v, bad, id);
    assert ResolvedUpTo(v, id, chains, 0) by { NothingResolved(v, id); }
    for d := 0 to |disks|
      invariant IntactUpTo(v, bad, id, d)
      invariant ResolvedUpTo(v, id, chains, d)
    {
      var levels := VerifyDisk(v, bad, d, disks[d]);
      VerifiedPlan(v, bad, id, d);
      if levels.Err? {
        return Err(levels.error);
      }
      ResolvedNext(v, id, chains, d);
      if levels.value != [] {
        chains := chains[disks[d].backupPath := levels.value];
      }
    }
    return Ok(chains);
  }

  lemma EarlierPathsDiffer(v: Vault, id: string, d: nat)
    requires Inv(v) && IsCompleted(v, id) && v.manifests[id].kind.Incremental? && d < |v.manifests[id].disks|
    ensures forall e :: 0 <= e < d ==> v.manifests[id].disks[e].backupPath != v.manifests[id].disks[d].backupPath
  {
    hide PathOf, Inv;
    OverlayExists(v, id, d);
    forall e | 0 <= e < d ensures v.manifests[id].disks[e].backupPath != v.manifests[id].disks[d].backupPath {
      OverlayExists(v, id, e);
      PathsDiffer(v.dir, id, e, d, false);
    }
  }

  // ----- the whole restore -----

  /** The target is a standalone image of what the backup stands for. */
  predicate HoldsBase(v: Vault, files: Files, id: string, target: string, d: nat) {
    target in files && files[target] == Qcow(BaseContent(v, id, d), None)
  }

  ghost predicate Untouched(before: Files, now: Files, target: string) {
    (target in now <==> target in before) && (target in now ==> now[target] == before[target])
  }

  /** Of the first `n` disks, disk `k` is the last one with its target. */
  predicate IsLast(targets: seq<string>, n: nat, k: int) {
    0 <= k < n <= |targets| && forall j :: k < j < n ==> targets[j] != targets[k]
  }

  lemma {:induction false} LastWithTarget(targets: seq<string>, n: nat, i: nat) returns (k: nat)
    requires i < n <= |targets|
    ensures IsLast(targets, n, k) && targets[k] == targets[i]
  {
    if targets[n - 1] == targets[i] { k := n - 1; } else { k := LastWithTarget(targets, n - 1, i); }
  }

  /** The last disk of every target is what that target holds. */
  ghost predicate LastsRestored(v: Vault, files: Files, id: string, targets: seq<string>, n: nat)
    requires n <= |targets|
  {
    forall k :: IsLast(targets, n, k) ==> HoldsBase(v, files, id, targets[k], k)
  }

  /** Each of the first `n` targets holds the last disk restored to it; only their names were touched. */
  ghost predicate RestoredUpTo(v: Vault, files: Files, id: string, targets: seq<string>, n: nat)
    requires n <= |targets|
  {
    && AgreeOutside(v.files, files, Touched(targets, n))
    && LastsRestored(v, files, id, targets, n)
    && (forall k :: 0 <= k < |targets| ==> Private(files, OwnTemps(v, id, targets[k])))
  }

  /** The temporary names of every target stay private over the restore of one. */
  lemma StillPrivate(v: Vault, before: Files, now: Files, id: string, targets: seq<string>, n: nat)
    requires IsDisk(v, id, n) && n < |targets| && Apart(v, id, targets)
    requires |PlanFor(v, id, n)| == LevelsOf(v, id) <= MaxDepth
    requires forall k :: 0 <= k < |targets| ==> Private(before, OwnTemps(v, id, targets[k]))
    requires var levels := PlanFor(v, id, n);
      KeepsPrivate(before, now, CopiedFrom(v.manifests[id].disks[n].backupPath, targets[n], levels), NewPointers(targets[n], levels))
    requires Private(now, OwnTemps(v, id, targets[n]))
    ensures forall k :: 0 <= k < |targets| ==> Private(now, OwnTemps(v, id, targets[k]))
  {
    hide Apart, PlanFor, Private, CopiedFrom, NewPointers, OwnTemps;
    forall k | 0 <= k < |targets| ensures Private(now, OwnTemps(v, id, targets[k])) {
      if targets[k] != targets[n] { OtherTempsFree(v, id, targets, n, k); }
    }
  }

  /** What was restored before to another target is not touched by the next disk. */
  lemma KeepsRestored(v: Vault, before: Files, now: Files, id: string, targets: seq<string>, n: nat)
    requires n < |targets| && Apart(v, id, targets) && RestoredUpTo(v, before, id, targets, n)
    requires AgreeOutside(before, now, Reserved(targets[n]))
    ensures forall k :: IsLast(targets, n, k) && targets[k] != targets[n] ==> HoldsBase(v, now, id, targets[k], k)
    ensures AgreeOutside(v.files, now, Touched(targets, n + 1))
  {
    hide Temps, BaseContent, PlanFiles, Private, Chain;
    forall k | IsLast(targets, n, k) && targets[k] != targets[n] ensures HoldsBase(v, now, id, targets[k], k) {
      assert Reserved(targets[k]) !! Reserved(targets[n]);
      assert targets[k] in Reserved(targets[k]);
    }
  }

  /** One more restored disk. */
  lemma OneMoreRestored(v: Vault, before: Files, now: Files, id: string, targets: seq<string>, n: nat)
    requires n < |targets| && Apart(v, id, targets) && RestoredUpTo(v, before, id, targets, n)
    requires AgreeOutside(before, now, Reserved(targets[n])) && HoldsBase(v, now, id, targets[n], n)
    requires forall k :: 0 <= k < |targets| ==> Private(now, OwnTemps(v, id, targets[k]))
    ensures RestoredUpTo(v, now, id, targets, n + 1)
  {
    hide HoldsBase, AgreeOutside, Touched, Private, OwnTemps;
    KeepsRestored(v, before, now, id, targets, n);
    hide Apart;
    forall k | IsLast(targets, n + 1, k) ensures HoldsBase(v, now, id, targets[k], k) {
      if k < n { assert IsLast(targets, n, k) && targets[k] != targets[n]; }
    }
  }

  lemma LaterUntouched(v: Vault, now: Files, id: string, targets: seq<string>, n: nat, k: nat)
    requires n <= k < |targets| && Apart(v, id, targets) && AgreeOutside(v.files, now, Touched(targets, n))
    requires forall i :: 0 <= i < n ==> targets[i] != targets[k]
    ensures Untouched(v.files, now, targets[k])
  {
    TouchedApart(v, id, targets, n, k);
    assert targets[k] in Reserved(targets[k]);
  }

  /** One disk: refused when the target exists and may not be overwritten, else restored or left alone. */
  method RestoreOneDisk(
    fs: FileSystem, ghost v: Vault, ghost id: string, targets: seq<string>, n: nat, source: string, levels: seq<Level>,
    overwrite: bool)
    returns (error: Option<RestoreError>)
    requires Inv(v) && IsCompleted(v, id) && n < |targets| == |v.manifests[id].disks| && Apart(v, id, targets)
    requires RestoredUpTo(v, fs.files, id, targets, n)
    requires source == v.manifests[id].disks[n].backupPath && levels == PlanFor(v, id, n) && |levels| <= MaxDepth
    modifies fs
    ensures error.None? ==> RestoredUpTo(v, fs.files, id, targets, n + 1)
    ensures error.Some? ==> Untouched(old(fs.files), fs.files, targets[n])
    ensures error == Some(TargetExists) <==> !overwrite && targets[n] in old(fs.files)
    ensures error in {None, Some(TargetExists), Some(OperationFailed)}
    ensures fs.Reliable() ==> (error.None? <==> overwrite || targets[n] !in old(fs.files))
    ensures AgreeOutside(old(fs.files), fs.files, Reserved(targets[n]))
  {
    ghost var before := fs.files;
    TouchedClear(v, id, targets, n, n);
    RestoresBase(v, before, Touched(targets, n), id, n);
    PlanLength(v, id, n);
    TempsFree(v, before, id, targets, n);
    TempsGrow(targets[n], |levels|, MaxDepth);
    hide Inv, Apart, TempsUnused, PlanFor, Restored, BaseContent, Private, Temps, PlanFiles, Touched, KeepsPrivate, LevelsOf;
    hide NewPointers, CopiedFrom, Chain;
    if !overwrite && targets[n] in fs.files {
      return Some(TargetExists);
    }
    var ok := RestoreDiskFile(fs, source, targets[n], levels);
    if !ok {
      return Some(OperationFailed);
    }
    assert HoldsBase(v, fs.files, id, targets[n], n);
    StillPrivate(v, before, fs.files, id, targets, n);
    OneMoreRestored(v, before, fs.files, id, targets, n);
    return None;
  }

  function ChainOf(chains: map<string, seq<Level>>, path: string): seq<Level> {
    if path in chains then chains[path] else []
  }

  /** The chains at hand are the plans of the backup's disks. */
  ghost predicate ChainsResolved(v: Vault, id: string, chains: map<string, seq<Level>>)
    requires id in v.manifests
  {
    forall d :: 0 <= d < |v.manifests[id].disks| ==>
      ChainOf(chains, v.manifests[id].disks[d].backupPath) == PlanFor(v, id, d) && |PlanFor(v, id, d)| <= MaxDepth
  }

  /** The target was named before. */
  predicate Repeats(targets: seq<string>, n: nat)
    requires n < |targets|
  {
    exists i :: 0 <= i < n && targets[i] == targets[n]
  }

  lemma ChainAt(v: Vault, id: string, chains: map<string, seq<Level>>, d: nat)
    requires IsDisk(v, id, d) && ChainsResolved(v, id, chains)
    ensures ChainOf(chains, v.manifests[id].disks[d].backupPath) == PlanFor(v, id, d) && |PlanFor(v, id, d)| <= MaxDepth
  {
  }

  /** When its turn comes a target is there iff it was from the start or an earlier disk was restored to it. */
  lemma StillThere(v: Vault, files: Files, id: string, targets: seq<string>, n: nat)
    requires n < |targets| && Apart(v, id, targets) && RestoredUpTo(v, files, id, targets, n)
    ensures targets[n] in files <==> targets[n] in v.files || Repeats(targets, n)
  {
    hide Touched, AgreeOutside, Apart, Private, BaseContent;
    if Repeats(targets, n) {
      var i :| 0 <= i < n && targets[i] == targets[n];
      var k := LastWithTarget(targets, n, i);
      assert HoldsBase(v, files, id, targets[k], k);
    } else {
      LaterUntouched(v, files, id, targets, n, n);
    }
  }

  lemma NothingRestored(v: Vault, id: string, targets: seq<string>)
    requires Apart(v, id, targets)
    ensures RestoredUpTo(v, v.files, id, targets, 0)
  {
    hide Private, OwnTemps;
  }

  /** The target holds a disk that was to be restored to it, or what it held before. */
  ghost predicate RestoredOrLeft(v: Vault, now: Files, id: string, targets: seq<string>, k: nat)
    requires k < |targets|
  {
    || Untouched(v.files, now, targets[k])
    || exists j :: 0 <= j < |targets| && targets[j] == targets[k] && HoldsBase(v, now, id, targets[j], j)
  }

  ghost predicate AllRestoredOrLeft(v: Vault, now: Files, id: string, targets: seq<string>) {
    forall k :: 0 <= k < |targets| ==> RestoredOrLeft(v, now, id, targets, k)
  }

  lemma AgreeWider(a: Files, b: Files, private: set<string>, wider: set<string>)
    requires AgreeOutside(a, b, private) && private <= wider
    ensures AgreeOutside(a, b, wider)
  {
  }

  lemma AfterError(v: Vault, before: Files, now: Files, id: string, targets: seq<string>, n: nat)
    requires n < |targets| && Apart(v, id, targets) && RestoredUpTo(v, before, id, targets, n)
    requires AgreeOutside(before, now, Reserved(targets[n])) && Untouched(before, now, targets[n])
    ensures AgreeOutside(v.files, now, Touched(targets, |targets|))
    ensures AllRestoredOrLeft(v, now, id, targets)
  {
    hide Touched, Reserved, Private, Temps, Apart, PlanFiles, AgreeOutside, BaseContent;
    KeepsRestored(v, before, now, id, targets, n);
    TouchedGrow(targets, n + 1, |targets|);
    AgreeWider(v.files, now, Touched(targets, n + 1), Touched(targets, |targets|));
    forall k | 0 <= k < |targets| ensures RestoredOrLeft(v, now, id, targets, k) {
      AfterErrorAt(v, before, now, id, targets, n, k);
    }
  }

  lemma AfterErrorAt(v: Vault, before: Files, now: Files, id: string, targets: seq<string>, n: nat, k: nat)
    requires n < |targets| && k < |targets| && Apart(v, id, targets) && RestoredUpTo(v, before, id, targets, n)
    requires AgreeOutside(before, now, Reserved(targets[n])) && Untouched(before, now, targets[n])
    ensures RestoredOrLeft(v, now, id, targets, k)
  {
    hide Touched, Reserved, Private, Temps, Apart, PlanFiles, AgreeOutside, BaseContent, LevelsOf, OwnTemps;
    KeepsRestored(v, before, now, id, targets, n);
    if exists i :: 0 <= i < n && targets[i] == targets[k] {
      var i :| 0 <= i < n && targets[i] == targets[k];
      var j := LastWithTarget(targets, n, i);
      assert HoldsBase(v, before, id, targets[j], j);
      assert HoldsBase(v, now, id, targets[j], j);
    } else if targets[k] == targets[n] {
      LaterUntouched(v, before, id, targets, n, n);
    } else {
      assert k > n;
      LaterUntouched(v, now, id, targets, n + 1, k);
    }
  }

  lemma {:induction false} TouchedGrow(targets: seq<string>, m: nat, n: nat)
    requires m <= n <= |targets|
    ensures Touched(targets, m) <= Touched(targets, n)
  {
    hide Reserved;
    if m < n { TouchedGrow(targets, m, n - 1); }
  }

  /** Without the overwrite option none of the first `n` targets may exist, or repeat. */
  ghost predicate MayWrite(files: Files, targets: seq<string>, n: nat, overwrite: bool)
    requires n <= |targets|
  {
    overwrite || forall k :: 0 <= k < n ==> targets[k] !in files && !Repeats(targets, k)
  }

  lemma MayWriteOneMore(files: Files, targets: seq<string>, n: nat, overwrite: bool)
    requires n < |targets|
    ensures MayWrite(files, targets, 0, overwrite)
    ensures MayWrite(files, targets, n + 1, overwrite) <==>
      MayWrite(files, targets, n, overwrite)
      && (overwrite || !(targets[n] in files || Repeats(targets, n)))
    ensures MayWrite(files, targets, |targets|, overwrite) ==> MayWrite(files, targets, n + 1, overwrite)
  {
  }

  /** The disks one after the other; the first error ends it. */
  method RestoreAll(
    fs: FileSystem, v: Vault, id: string, targets: seq<string>, chains: map<string, seq<Level>>, overwrite: bool)
    returns (error: Option<RestoreError>)
    requires Inv(v) && fs.files == v.files && Apart(v, id, targets)
    requires IsCompleted(v, id) && |targets| == |v.manifests[id].disks| && ChainsResolved(v, id, chains)
    modifies fs
    ensures fs.Reliable() ==> error == if MayWrite(v.files, targets, |targets|, overwrite) then None else Some(TargetExists)
    ensures error in {None, Some(TargetExists), Some(OperationFailed)} && (overwrite ==> error != Some(TargetExists))
    ensures error.None? ==> LastsRestored(v, fs.files, id, targets, |targets|)
    ensures error.Some? ==> AllRestoredOrLeft(v, fs.files, id, targets)
    ensures AgreeOutside(v.files, fs.files, Touched(targets, |targets|))
  {
    hide Inv, Apart, PlanFor, HoldsBase, Untouched, AgreeOutside, Private, Temps, ChainOf, Touched, OwnTemps;
    NothingRestored(v, id, targets);
    assert MayWrite(v.files, targets, 0, overwrite);
    hide RestoredUpTo, MayWrite, AllRestoredOrLeft, LastsRestored, Repeats, ChainsResolved, Chain, LevelsOf;
    for n := 0 to |targets|
      invariant RestoredUpTo(v, fs.files, id, targets, n)
      invariant fs.Reliable() ==> MayWrite(v.files, targets, n, overwrite)
    {
      ghost var before := fs.files;
      StillThere(v, before, id, targets, n);
      MayWriteOneMore(v.files, targets, n, overwrite);
      ChainAt(v, id, chains, n);
      var source := v.manifests[id].disks[n].backupPath;
      error := RestoreOneDisk(fs, v, id, targets, n, source, ChainOf(chains, source), overwrite);
      if error.Some? {
        AfterError(v, before, fs.files, id, targets, n);
        return;
      }
    }
    AllRestored(v, fs.files, id, targets);
    error := None;
  }

  lemma AllRestored(v: Vault, files: Files, id: string, targets: seq<string>)
    requires RestoredUpTo(v, files, id, targets, |targets|)
    ensures LastsRestored(v, files, id, targets, |targets|)
    ensures AgreeOutside(v.files, files, Touched(targets, |targets|))
  {
  }

  lemma PlansResolved(v: Vault, bad: set<string>, id: string, chains: map<string, seq<Level>>)
    requires Inv(v) && IsCompleted(v, id) && v.manifests[id].kind.Incremental? && ChainsIntact(v, bad, id)
    requires ResolvedUpTo(v, id, chains, |v.manifests[id].disks|)
    ensures ChainsResolved(v, id, chains)
  {
    hide Inv, PlanFor, Chain;
    forall d | 0 <= d < |v.manifests[id].disks|
      ensures ChainOf(chains, v.manifests[id].disks[d].backupPath) == PlanFor(v, id, d) && |PlanFor(v, id, d)| <= MaxDepth
    {
      PlanBase(v, id, d);
      assert ChainIntact(v, bad, id, d);
    }
  }

  /** All a restore asks for, I/O aside. */
  ghost predicate CanRestore(v: Vault, bad: set<string>, id: string, targets: seq<string>, overwrite: bool) {
    && IsCompleted(v, id) && |targets| == |v.manifests[id].disks| && MayWrite(v.files, targets, |targets|, overwrite)
    && (v.manifests[id].kind.Incremental? ==> ChainsIntact(v, bad, id))
  }

  /** The disks match, and the chain of one of them is broken. */
  predicate MustRefuse(v: Vault, bad: set<string>, id: string, targets: seq<string>) {
    && IsCompleted(v, id) && |targets| == |v.manifests[id].disks|
    && v.manifests[id].kind.Incremental? && !ChainsIntact(v, bad, id)
  }

  /** Restores a backup: a target named several times ends up with the last of its disks. */
  method RestoreBackup(
    fs: FileSystem, v: Vault, bad: set<string>, id: string, targets: seq<string>, overwrite: bool)
    returns (error: Option<RestoreError>)
    requires Inv(v) && fs.files == v.files && Apart(v, id, targets)
    requires id in v.manifests ==> !v.manifests[id].kind.Snapshot?
    modifies fs
    ensures error.None? ==> IsCompleted(v, id) && |targets| == |v.manifests[id].disks|
                            && LastsRestored(v, fs.files, id, targets, |targets|)
    ensures error.Some? ==> AllRestoredOrLeft(v, fs.files, id, targets)
    ensures AgreeOutside(v.files, fs.files, Touched(targets, |targets|))
    ensures id !in v.manifests <==> error == Some(BackupNotFound)
    ensures id in v.manifests && v.manifests[id].status.Failed? <==> error == Some(NotCompleted)
    ensures IsCompleted(v, id) && |targets| != |v.manifests[id].disks| <==> error == Some(DiskCountMismatch)
    ensures error.Some? && error.value.ChainBroken? <==> MustRefuse(v, bad, id, targets)
    ensures error.Some? && !error.value.TargetExists? && !error.value.OperationFailed? ==> fs.files == v.files
    ensures (overwrite ==> error != Some(TargetExists)) && (fs.Reliable() ==> error != Some(OperationFailed))
    ensures fs.Reliable() ==> (error.None? <==> CanRestore(v, bad, id, targets, overwrite))
  {
    hide Inv, Apart, Chain, PlanOf, BaseContent, ChainsIntact, Touched;
    if id !in v.manifests {
      return Some(BackupNotFound);
    }
    var metadata := v.manifests[id];
    if !metadata.status.Completed? {
      return Some(NotCompleted);
    }
    if |metadata.disks| != |targets| {
      return Some(DiskCountMismatch);
    }
    var resolvedChains: map<string, seq<Level>> := map[];
    if metadata.kind.Incremental? {
      var verified := VerifyIncrementalChain(v, bad, id);
      if verified.Err? {
        return Some(ChainBroken(verified.error));
      }
      resolvedChains := verified.value;
      PlansResolved(v, bad, id, resolvedChains);
    }
    error := RestoreAll(fs, v, id, targets, resolvedChains, overwrite);
  }
}
