/**
 Restoring one disk: rebuild the (possibly relocated) backing chain from temporary copies,
 convert it into a new image and swap that in by rename, with every file operation free to fail.
 */
module Restore {
  import opened Wrappers
  import opened JsText
  import opened ImageStore

  /** One overlay of the chain: its own backup file and the verified path of its parent. */
  datatype Level = Level(overlayPath: string, resolvedParent: string, parentIsBase: bool)

  // ----- temporary names -----

  function RestoreTmp(target: string): string {
    target + ".restore.tmp"
  }

  function GunzipTmp(target: string): string {
    target + ".gunzip.tmp"
  }

  function ChainTmp(target: string, level: nat): string {
    target + (".chain" + Digits(level) + ".tmp")
  }

  /** Every name this restore may create beside the target. */
  function Temps(target: string, levels: nat): set<string> {
    {RestoreTmp(target), GunzipTmp(target), GunzipTmp(target) + ".gz"}
      + set level | 0 <= level < levels :: ChainTmp(target, level)
  }

  lemma ChainTmpsDiffer(target: string, i: nat, j: nat)
    requires i != j
    ensures ChainTmp(target, i) != ChainTmp(target, j)
  {
    if ChainTmp(target, i) == ChainTmp(target, j) {
      var a, b := ".chain" + Digits(i) + ".tmp", ".chain" + Digits(j) + ".tmp";
      assert (target + a)[|target|..] == a && (target + b)[|target|..] == b;
      assert a[6..|a| - 4] == Digits(i) && b[6..|b| - 4] == Digits(j);
      DigitsInjective(i, j);
    }
  }

  lemma TempsAreNew(target: string, levels: nat)
    ensures target !in Temps(target, levels)
    ensures RestoreTmp(target) != GunzipTmp(target) && RestoreTmp(target) != GunzipTmp(target) + ".gz"
    ensures GunzipTmp(target) != GunzipTmp(target) + ".gz"
  {
    assert |RestoreTmp(target)| > |target| && |GunzipTmp(target)| > |target|;
    assert forall i: nat :: |ChainTmp(target, i)| > |target|;
    assert RestoreTmp(target)[|target| + 1] == 'r' && GunzipTmp(target)[|target| + 1] == 'g';
    assert (GunzipTmp(target) + ".gz")[|target| + 1] == 'g';
  }

  // ----- what a restore must produce -----

  /** The clusters of the overlays from the top down, over the content of the base. */
  function ChainContent(files: Files, levels: seq<Level>): Option<Clusters>
    requires levels != []
  {
    var top := levels[0];
    if top.overlayPath !in files || files[top.overlayPath].Gz? then None
    else
      Over(if |levels| == 1 then Content(files, top.resolvedParent) else ChainContent(files, levels[1..]),
           files[top.overlayPath].clusters)
  }

  /** The overlay at level `i` allocates the cluster. */
  predicate Allocates(files: Files, levels: seq<Level>, i: nat, c: nat)
    requires i < |levels|
  {
    var path := levels[i].overlayPath;
    path in files && files[path].Qcow? && c in files[path].clusters
  }

  /** Level `i` is the first, from the top, that allocates the cluster. */
  predicate FirstToAllocate(files: Files, levels: seq<Level>, i: nat, c: nat) {
    i < |levels| && Allocates(files, levels, i, c) && forall j :: 0 <= j < i ==> !Allocates(files, levels, j, c)
  }

  predicate NoneAllocates(files: Files, levels: seq<Level>, c: nat) {
    forall i :: 0 <= i < |levels| ==> !Allocates(files, levels, i, c)
  }

  /** Every cluster comes from the first level that allocates it, and from the base when no overlay does. */
  lemma {:induction false} FirstAllocatingLevel(files: Files, levels: seq<Level>, c: nat)
    requires levels != [] && ChainContent(files, levels).Some?
    ensures var content := ChainContent(files, levels).value;
            var base := Content(files, levels[|levels| - 1].resolvedParent);
            && (forall i: nat :: FirstToAllocate(files, levels, i, c) ==>
                  c in content && content[c] == files[levels[i].overlayPath].clusters[c])
            && base.Some?
            && (NoneAllocates(files, levels, c) ==> ReadCluster(content, c) == ReadCluster(base.value, c))
  {
    var content := ChainContent(files, levels).value;
    assert Allocates(files, levels, 0, c) <==> c in files[levels[0].overlayPath].clusters;
    if |levels| > 1 {
      var rest := levels[1..];
      FirstAllocatingLevel(files, rest, c);
      assert forall i :: 0 <= i < |rest| ==> Allocates(files, rest, i, c) == Allocates(files, levels, i + 1, c);
      forall i: nat | FirstToAllocate(files, levels, i, c)
        ensures c in content && content[c] == files[levels[i].overlayPath].clusters[c]
      {
        if i > 0 {
          assert FirstToAllocate(files, rest, i - 1, c);
          assert rest[i - 1] == levels[i];
        }
      }
      if NoneAllocates(files, levels, c) {
        assert NoneAllocates(files, rest, c);
      }
    } else {
      assert forall i: nat :: FirstToAllocate(files, levels, i, c) ==> i == 0;
    }
  }

  predicate EndsWith(s: string, suffix: string) {
    |suffix| <= |s| && s[|s| - |suffix|..] == suffix
  }

  /** The content of an image that stands outside the chain it may read through. */
  function ImageContent(files: Files, image: Image): Option<Clusters> {
    match image
    case Gz(_) => None
    case Qcow(clusters, backing) =>
      if backing.None? then Some(clusters) else Over(Content(files, backing.value), clusters)
  }

  /** What the target holds after a successful restore of `source` with the resolved `levels`. */
  function Restored(files: Files, source: string, levels: seq<Level>): Option<Clusters> {
    if EndsWith(source, ".gz") then
      if source in files && files[source].Gz? then ImageContent(files, files[source].inner) else None
    else if levels != [] then ChainContent(files, levels)
    else Content(files, source)
  }

  /** The temporary names are nobody else's: neither the source, nor the chain, nor any backing pointer uses one. */
  predicate TempsUnused(files: Files, source: string, target: string, levels: seq<Level>) {
    var temps := Temps(target, |levels|);
    && Private(files, temps) && source !in temps
    && forall i :: 0 <= i < |levels| ==> levels[i].overlayPath !in temps && levels[i].resolvedParent !in temps
  }

  /** Where a rebuilt chain may point: to its own copies and to the resolved parents. */
  function NewPointers(target: string, levels: seq<Level>): set<string> {
    Temps(target, |levels|) + set i | 0 <= i < |levels| :: levels[i].resolvedParent
  }

  /** The files whose pointers may be copied: the source, the overlays and the copies themselves. */
  function CopiedFrom(source: string, target: string, levels: seq<Level>): set<string> {
    Temps(target, |levels|) + {source} + set i | 0 <= i < |levels| :: levels[i].overlayPath
  }

  /**
   No file came to point into a set of names that nobody outside pointed into, unless one of the `sources` was
   in it, whose pointer may have been copied, or one of the new pointers.
   */
  ghost predicate KeepsPrivate(before: Files, now: Files, sources: set<string>, pointers: set<string>) {
    forall names: set<string> :: Private(before, names) && names !! sources && names !! pointers ==> Private(now, names)
  }

  lemma KeepsMore(
    a: Files, b: Files, c: Files, sources: set<string>, pointers: set<string>, moreSources: set<string>, morePointers: set<string>)
    requires KeepsPrivate(a, b, sources, pointers) && KeepsPrivate(b, c, moreSources, morePointers)
    requires moreSources <= sources && morePointers <= pointers
    ensures KeepsPrivate(a, c, sources, pointers)
  {
  }

  lemma KeepsNothing(a: Files, sources: set<string>, pointers: set<string>)
    ensures KeepsPrivate(a, a, sources, pointers)
  {
  }

  // ----- the rebuilt chain -----

  /** The rebased copy of one level: onto the copy below it, the last one onto the base. */
  function CopyOf(original: Files, target: string, levels: seq<Level>, i: nat): Image
    requires i < |levels| && levels[i].overlayPath in original && original[levels[i].overlayPath].Qcow?
  {
    Qcow(original[levels[i].overlayPath].clusters,
         Some(if i == |levels| - 1 then levels[i].resolvedParent else ChainTmp(target, i + 1)))
  }

  predicate LevelRebuilt(original: Files, files: Files, target: string, levels: seq<Level>, i: nat)
    requires i < |levels|
  {
    && levels[i].overlayPath in original && original[levels[i].overlayPath].Qcow?
    && ChainTmp(target, i) in files
    && files[ChainTmp(target, i)] == CopyOf(original, target, levels, i)
  }

  /** Levels `from` and below have been copied and rebased. */
  predicate Rebuilt(original: Files, files: Files, target: string, levels: seq<Level>, from: nat)
    requires from <= |levels|
  {
    forall i :: from <= i < |levels| ==> LevelRebuilt(original, files, target, levels, i)
  }

  lemma {:induction false} RebuiltContent(
    original: Files, files: Files, source: string, target: string, levels: seq<Level>, i: nat, visited: set<string>)
    requires i < |levels| && TempsUnused(original, source, target, levels)
    requires AgreeOutside(original, files, Temps(target, |levels|)) && Rebuilt(original, files, target, levels, 0)
    requires visited == set j | 0 <= j < i :: ChainTmp(target, j)
    ensures ContentVia(files, ChainTmp(target, i), visited) == ChainContent(original, levels[i..])
    decreases |levels| - i
  {
    var tmp := ChainTmp(target, i);
    forall j | 0 <= j < i ensures ChainTmp(target, j) != tmp { ChainTmpsDiffer(target, i, j); }
    assert tmp !in visited;
    var next := visited + {tmp};
    assert next == set j | 0 <= j < i + 1 :: ChainTmp(target, j);
    assert LevelRebuilt(original, files, target, levels, i);
    assert levels[i..][0] == levels[i];
    assert forall j :: 0 <= j < i + 1 ==> ChainTmp(target, j) in Temps(target, |levels|);
    if i == |levels| - 1 {
      var base := levels[i].resolvedParent;
      FrameOutside(original, files, Temps(target, |levels|), base, {}, next);
    } else {
      RebuiltContent(original, files, source, target, levels, i + 1, next);
      assert levels[i..][1..] == levels[i + 1..];
    }
  }

  // ----- file operations that may fail -----

  /**
   The files, and the paths where a failed unlink or a failed copy left something behind.
   `faults` says which operations fail, counted in the order they are made.
   */
  class FileSystem {
    const faults: nat -> bool
    var operations: nat
    var files: Files
    var leaked: set<string>

    constructor (files: Files, faults: nat -> bool)
      ensures this.files == files && this.faults == faults && leaked == {}
    {
      this.files, this.faults, operations := files, faults, 0;
      leaked := {};
    }

    /** The environment lets every operation succeed that can. */
    ghost predicate Reliable() {
      forall n :: !faults(n)
    }

    /** Whether the next operation is to fail. */
    method NextFails() returns (fails: bool)
      modifies this`operations
      ensures Reliable() ==> !fails
    {
      fails := faults(operations);
      operations := operations + 1;
    }

    /** A failed copy may leave part of a file. */
    method CopyFile(src: string, dst: string) returns (ok: bool)
      modifies this
      ensures AgreeOutside(old(files), files, {dst})
      ensures ok ==> src in old(files) && dst in files && files[dst] == old(files)[src] && leaked == old(leaked)
      ensures Reliable() && src in old(files) ==> ok
      ensures dst in files ==> ok || dst in old(files) || dst in leaked
      ensures old(leaked) <= leaked <= old(leaked) + {dst}
      ensures KeepsPrivate(old(files), files, {src}, {})
    {
      var fails := NextFails();
      ok := !fails && src in files;
      if ok {
        files := files[dst := files[src]];
      } else {
        var partial: bool := *;
        if partial {
          files := files[dst := Qcow(map[], None)];
          leaked := leaked + {dst};
        }
      }
    }

    /** Best-effort unlink. */
    method SafeUnlink(path: string)
      modifies this
      ensures AgreeOutside(old(files), files, {path})
      ensures path in files ==> path in leaked
      ensures Reliable() ==> path !in files && leaked == old(leaked)
      ensures old(leaked) <= leaked <= old(leaked) + {path}
      ensures KeepsPrivate(old(files), files, {}, {})
    {
      var fails := NextFails();
      if !fails {
        files := files - {path};
      } else if path in files {
        leaked := leaked + {path};
      }
    }

    /** `qemu-img rebase -u`: changes the backing pointer only. */
    method RebaseUnsafe(path: string, backing: string) returns (ok: bool)
      modifies this`files, this`operations
      ensures ok ==> path in old(files) && old(files)[path].Qcow?
                     && files == old(files)[path := Qcow(old(files)[path].clusters, Some(backing))]
      ensures !ok ==> files == old(files)
      ensures Reliable() && path in old(files) && old(files)[path].Qcow? ==> ok
      ensures KeepsPrivate(old(files), files, {}, {backing})
    {
      var fails := NextFails();
      ok := !fails && path in files && files[path].Qcow?;
      if ok {
        files := files[path := Qcow(files[path].clusters, Some(backing))];
      }
    }

    /** `qemu-img convert`: reads the whole chain and writes a standalone image; a failure may leave a partial one. */
    method Convert(src: string, dst: string) returns (ok: bool)
      modifies this`files, this`operations
      ensures AgreeOutside(old(files), files, {dst})
      ensures ok ==> Content(old(files), src).Some? && dst in files
                     && files[dst] == Qcow(Content(old(files), src).value, None)
      ensures Reliable() && Content(old(files), src).Some? ==> ok
      ensures KeepsPrivate(old(files), files, {}, {})
    {
      var fails := NextFails();
      var content := Content(files, src);
      ok := !fails && content.Some?;
      if ok {
        files := files[dst := Qcow(content.value, None)];
      } else {
        var partial: bool := *;
        if partial {
          files := files[dst := Qcow(map[], None)];
        }
      }
    }

    /** Sync, rename, then a best-effort sync of the directory: a failure leaves both names as they were. */
    method DurableRename(src: string, dst: string) returns (ok: bool)
      modifies this`files, this`operations
      ensures ok ==> src in old(files) && files == (old(files) - {src})[dst := old(files)[src]]
      ensures !ok ==> files == old(files)
      ensures Reliable() && src in old(files) ==> ok
      ensures KeepsPrivate(old(files), files, {src}, {})
    {
      var fails := NextFails();
      ok := !fails && src in files;
      if ok {
        files := (files - {src})[dst := files[src]];
      }
    }

    /** Copies the blob beside the destination and runs `gunzip -f` on the copy. */
    method GunzipTo(gz: string, dst: string) returns (ok: bool)
      requires gz != dst + ".gz"
      modifies this
      ensures AgreeOutside(old(files), files, {dst, dst + ".gz"})
      ensures ok ==> gz in old(files) && old(files)[gz].Gz? && dst in files && files[dst] == old(files)[gz].inner
      ensures Reliable() && gz in old(files) && old(files)[gz].Gz? ==> ok
      ensures dst + ".gz" in files ==> dst + ".gz" in old(files) || dst + ".gz" in leaked
      ensures old(leaked) <= leaked <= old(leaked) + {dst + ".gz"}
      ensures KeepsPrivate(old(files), files, {gz, dst + ".gz"}, {})
    {
      var tmpGz := dst + ".gz";
      ok := CopyFile(gz, tmpGz);
      if !ok {
        return;
      }
      var fails := NextFails();
      ok := !fails && files[tmpGz].Gz?;
      if ok {
        files := (files - {tmpGz})[dst := files[tmpGz].inner];
      } else {
        var partial: bool := *;
        if partial {
          files := files[dst := Qcow(map[], None)];
        }
        SafeUnlink(tmpGz);
      }
    }
  }

  // ----- the restore -----

  /** Nothing private is in the store except what is accounted for. */
  ghost predicate Accounted(before: Files, now: Files, private: set<string>, leaked: set<string>, pending: set<string>) {
    forall t :: t in private && t in now ==> t in before || t in leaked || t in pending
  }

  lemma AgreeMore(a: Files, b: Files, c: Files, private: set<string>, touched: set<string>)
    requires AgreeOutside(a, b, private) && AgreeOutside(b, c, touched) && touched <= private
    ensures AgreeOutside(a, c, private)
  {
  }

  /** Every level's own backup file is there and is no gzip blob. */
  predicate OverlaysPresent(files: Files, levels: seq<Level>) {
    forall i :: 0 <= i < |levels| ==> levels[i].overlayPath in files && files[levels[i].overlayPath].Qcow?
  }

  /** A chain is readable exactly when its overlays are there and its base is readable. */
  lemma {:induction false} ReadableIff(files: Files, levels: seq<Level>)
    requires levels != []
    ensures ChainContent(files, levels).Some?
            <==> OverlaysPresent(files, levels) && Content(files, levels[|levels| - 1].resolvedParent).Some?
  {
    if |levels| > 1 {
      var rest := levels[1..];
      ReadableIff(files, rest);
      assert forall i :: 0 < i < |levels| ==> levels[i] == rest[i - 1];
      assert OverlaysPresent(files, levels)
             <==> levels[0].overlayPath in files && files[levels[0].overlayPath].Qcow? && OverlaysPresent(files, rest) by {
        if OverlaysPresent(files, levels) {
          forall i | 0 <= i < |rest| ensures rest[i].overlayPath in files && files[rest[i].overlayPath].Qcow? {
            assert rest[i] == levels[i + 1];
          }
        }
      }
    }
  }

  /** One level: a fresh copy of the overlay, rebased; `copied` says whether the copy is there to be unlinked. */
  method CopyLevel(fs: FileSystem, overlayPath: string, tmp: string, backing: string) returns (ok: bool, copied: bool)
    requires overlayPath != tmp
    modifies fs
    ensures AgreeOutside(old(fs.files), fs.files, {tmp})
    ensures ok ==> copied && overlayPath in old(fs.files) && old(fs.files)[overlayPath].Qcow?
                   && tmp in fs.files && fs.files[tmp] == Qcow(old(fs.files)[overlayPath].clusters, Some(backing))
    ensures fs.Reliable() && overlayPath in old(fs.files) && old(fs.files)[overlayPath].Qcow? ==> ok
    ensures tmp in fs.files ==> copied || tmp in fs.leaked
    ensures old(fs.leaked) <= fs.leaked <= old(fs.leaked) + {tmp}
    ensures KeepsPrivate(old(fs.files), fs.files, {overlayPath}, {backing})
  {
    hide KeepsPrivate;
    KeepsNothing(fs.files, {overlayPath}, {backing});
    fs.SafeUnlink(tmp);
    ghost var f1 := fs.files;
    KeepsMore(old(fs.files), old(fs.files), f1, {overlayPath}, {backing}, {}, {});
    copied := fs.CopyFile(overlayPath, tmp);
    ghost var f2 := fs.files;
    KeepsMore(old(fs.files), f1, f2, {overlayPath}, {backing}, {overlayPath}, {});
    ok := copied;
    if copied {
      ok := fs.RebaseUnsafe(tmp, backing);
      KeepsMore(old(fs.files), f2, fs.files, {overlayPath}, {backing}, {}, {backing});
    }
  }

  /** Copies and rebases every level, from the bottom up. */
  method BuildChain(fs: FileSystem, source: string, target: string, levels: seq<Level>)
    returns (ok: bool, chainTmps: seq<string>)
    requires TempsUnused(fs.files, source, target, levels)
    modifies fs
    ensures AgreeOutside(old(fs.files), fs.files, Temps(target, |levels|))
    ensures ok ==> Rebuilt(old(fs.files), fs.files, target, levels, 0)
    ensures fs.Reliable() && OverlaysPresent(old(fs.files), levels) ==> ok
    ensures forall t :: t in chainTmps ==> t in Temps(target, |levels|)
    ensures Accounted(old(fs.files), fs.files, Temps(target, |levels|), fs.leaked, set t | t in chainTmps)
    ensures old(fs.leaked) <= fs.leaked <= old(fs.leaked) + Temps(target, |levels|)
    ensures KeepsPrivate(old(fs.files), fs.files, CopiedFrom(source, target, levels), NewPointers(target, levels))
  {
    hide KeepsPrivate;
    ghost var sources, pointers := CopiedFrom(source, target, levels), NewPointers(target, levels);
    KeepsNothing(fs.files, sources, pointers);
    chainTmps := [];
    var childBacking: Option<string> := None;
    var level := |levels|;
    ok := true;
    ghost var temps := Temps(target, |levels|);
    while level > 0
      invariant 0 <= level <= |levels|
      invariant AgreeOutside(old(fs.files), fs.files, temps)
      invariant Rebuilt(old(fs.files), fs.files, target, levels, level)
      invariant childBacking == if level == |levels| then None else Some(ChainTmp(target, level))
      invariant forall t :: t in chainTmps ==> t in temps
      invariant Accounted(old(fs.files), fs.files, temps, fs.leaked, set t | t in chainTmps)
      invariant old(fs.leaked) <= fs.leaked <= old(fs.leaked) + temps
      invariant KeepsPrivate(old(fs.files), fs.files, sources, pointers)
    {
      level := level - 1;
      var entry := levels[level];
      var tmp := ChainTmp(target, level);
      forall j | level < j < |levels| ensures ChainTmp(target, j) != tmp { ChainTmpsDiffer(target, j, level); }
      ghost var f0 := fs.files;
      var backing := if childBacking.Some? then childBacking.value else entry.resolvedParent;
      assert tmp in temps && backing in pointers && entry.overlayPath in sources;
      var copied;
      ok, copied := CopyLevel(fs, entry.overlayPath, tmp, backing);
      AgreeMore(old(fs.files), f0, fs.files, temps, {tmp});
      KeepsMore(old(fs.files), f0, fs.files, sources, pointers, {entry.overlayPath}, {backing});
      if copied {
        chainTmps := chainTmps + [tmp];
      }
      if !ok {
        return;
      }
      childBacking := Some(tmp);
      RebuiltNext(old(fs.files), f0, fs.files, target, levels, level);
    }
  }

  lemma RebuiltNext(original: Files, before: Files, now: Files, target: string, levels: seq<Level>, level: nat)
    requires level < |levels| && Rebuilt(original, before, target, levels, level + 1)
    requires AgreeOutside(before, now, {ChainTmp(target, level)}) && LevelRebuilt(original, now, target, levels, level)
    ensures Rebuilt(original, now, target, levels, level)
  {
    forall i | level < i < |levels| ensures LevelRebuilt(original, now, target, levels, i) {
      ChainTmpsDiffer(target, i, level);
      assert LevelRebuilt(original, before, target, levels, i);
    }
  }

  /** Copies made so far are unlinked, whatever happened before. */
  method UnlinkAll(fs: FileSystem, tmps: seq<string>, ghost private: set<string>, ghost before: Files)
    requires forall t :: t in tmps ==> t in private
    requires Accounted(before, fs.files, private, fs.leaked, set t | t in tmps)
    modifies fs
    ensures AgreeOutside(old(fs.files), fs.files, private)
    ensures Accounted(before, fs.files, private, fs.leaked, {})
    ensures old(fs.leaked) <= fs.leaked <= old(fs.leaked) + private
    ensures KeepsPrivate(old(fs.files), fs.files, {}, {})
  {
    hide KeepsPrivate;
    KeepsNothing(fs.files, {}, {});
    for i := 0 to |tmps|
      invariant AgreeOutside(old(fs.files), fs.files, private)
      invariant Accounted(before, fs.files, private, fs.leaked, set t | t in tmps[i..])
      invariant old(fs.leaked) <= fs.leaked <= old(fs.leaked) + private
      invariant KeepsPrivate(old(fs.files), fs.files, {}, {})
    {
      ghost var f0 := fs.files;
      fs.SafeUnlink(tmps[i]);
      KeepsMore(old(fs.files), f0, fs.files, {}, {}, {}, {});
      assert forall t :: t in tmps[i..] ==> t == tmps[i] || t in tmps[i + 1..];
    }
  }

  /** The source that `qemu-img convert` reads: unpacked, rebuilt, or the backup file itself. */
  method PrepareSource(fs: FileSystem, source: string, target: string, levels: seq<Level>)
    returns (ok: bool, convertSource: string, pending: seq<string>)
    requires TempsUnused(fs.files, source, target, levels)
    modifies fs
    ensures AgreeOutside(old(fs.files), fs.files, Temps(target, |levels|))
    ensures forall t :: t in pending ==> t in Temps(target, |levels|)
    ensures Accounted(old(fs.files), fs.files, Temps(target, |levels|), fs.leaked, set t | t in pending)
    ensures old(fs.leaked) <= fs.leaked <= old(fs.leaked) + Temps(target, |levels|)
    ensures ok ==> Content(fs.files, convertSource) == Restored(old(fs.files), source, levels)
    ensures fs.Reliable() && Restored(old(fs.files), source, levels).Some? ==> ok
    ensures KeepsPrivate(old(fs.files), fs.files, CopiedFrom(source, target, levels), NewPointers(target, levels))
  {
    hide KeepsPrivate;
    ghost var temps := Temps(target, |levels|);
    ghost var sources, pointers := CopiedFrom(source, target, levels), NewPointers(target, levels);
    TempsAreNew(target, |levels|);
    KeepsNothing(fs.files, sources, pointers);
    pending := [];
    if EndsWith(source, ".gz") {
      pending := [GunzipTmp(target)];
      ok := fs.GunzipTo(source, GunzipTmp(target));
      KeepsMore(old(fs.files), old(fs.files), fs.files, sources, pointers, {source, GunzipTmp(target) + ".gz"}, {});
      AgreeMore(old(fs.files), old(fs.files), fs.files, temps, {GunzipTmp(target), GunzipTmp(target) + ".gz"});
      convertSource := GunzipTmp(target);
      if ok {
        UnpackedContent(old(fs.files), fs.files, source, temps, convertSource);
      }
    } else if levels != [] {
      if Restored(fs.files, source, levels).Some? { ReadableIff(fs.files, levels); }
      ok, pending := BuildChain(fs, source, target, levels);
      convertSource := ChainTmp(target, 0);
      if ok {
        RebuiltContent(old(fs.files), fs.files, source, target, levels, 0, {});
        assert levels[0..] == levels;
      }
    } else {
      ok, convertSource := true, source;
    }
  }

  lemma UnpackedContent(before: Files, now: Files, source: string, private: set<string>, tmp: string)
    requires AgreeOutside(before, now, private) && Private(before, private) && tmp in private && source !in private
    requires source in before && before[source].Gz? && tmp in now && now[tmp] == before[source].inner
    ensures Content(now, tmp) == ImageContent(before, before[source].inner)
  {
    var inner := before[source].inner;
    if inner.Qcow? && inner.backing.Some? {
      assert BackingOf(inner) == inner.backing && BackingOf(before[source]) == BackingOf(inner);
      assert {} + {tmp} == {tmp};
      FrameOutside(before, now, private, inner.backing.value, {}, {tmp});
    }
  }

  /** The image is written beside the target and moved over it. */
  method ConvertInto(fs: FileSystem, convertSource: string, tmpPath: string, target: string) returns (ok: bool)
    requires tmpPath != target
    modifies fs`files, fs`operations
    ensures ok ==> Content(old(fs.files), convertSource).Some? && tmpPath !in fs.files && target in fs.files
                   && fs.files[target] == Qcow(Content(old(fs.files), convertSource).value, None)
    ensures AgreeOutside(old(fs.files), fs.files, {tmpPath} + if ok then {target} else {})
    ensures fs.Reliable() && Content(old(fs.files), convertSource).Some? ==> ok
    ensures KeepsPrivate(old(fs.files), fs.files, {tmpPath}, {})
  {
    hide KeepsPrivate, Content;
    KeepsNothing(fs.files, {tmpPath}, {});
    ok := fs.Convert(convertSource, tmpPath);
    ghost var f1 := fs.files;
    KeepsMore(old(fs.files), old(fs.files), f1, {tmpPath}, {}, {}, {});
    if ok {
      ok := fs.DurableRename(tmpPath, target);
      KeepsMore(old(fs.files), f1, fs.files, {tmpPath}, {}, {tmpPath}, {});
    }
  }

  /** Nothing but the copies points to a copy: the target is standalone or as it was. */
  lemma OwnTempsPrivate(before: Files, now: Files, temps: set<string>, target: string)
    requires Private(before, temps) && AgreeOutside(before, now, temps + {target})
    requires target in now ==> BackingOf(now[target]).None? || (target in before && now[target] == before[target])
    ensures Private(now, temps)
  {
  }

  lemma AgreeThen(before: Files, mid: Files, now: Files, temps: set<string>, more: set<string>, tmpPath: string)
    requires AgreeOutside(before, mid, temps) && AgreeOutside(mid, now, {tmpPath} + more) && tmpPath in temps
    ensures AgreeOutside(before, now, temps + more)
  {
  }

  /** Apart from the temporary image, nothing private came to be. */
  lemma StillAccounted(
    before: Files, mid: Files, now: Files, temps: set<string>, leaked: set<string>, pending: set<string>, tmpPath: string,
    more: set<string>)
    requires Accounted(before, mid, temps, leaked, pending) && AgreeOutside(mid, now, {tmpPath} + more) && more !! temps
    ensures Accounted(before, now, temps, leaked, pending + {tmpPath})
    ensures tmpPath !in now ==> Accounted(before, now, temps, leaked, pending)
  {
  }

  lemma UnlinkedAccounted(
    before: Files, mid: Files, now: Files, temps: set<string>, was: set<string>, leaked: set<string>, pending: set<string>,
    tmpPath: string)
    requires Accounted(before, mid, temps, was, pending + {tmpPath}) && AgreeOutside(mid, now, {tmpPath}) && was <= leaked
    requires tmpPath in now ==> tmpPath in leaked
    ensures Accounted(before, now, temps, leaked, pending)
  {
  }

  lemma MoreAccounted(before: Files, now: Files, temps: set<string>, leaked: set<string>, pending: set<string>, tmpPath: string)
    requires Accounted(before, now, temps, leaked, pending)
    ensures Accounted(before, now, temps, leaked, pending + {tmpPath})
  {
  }

  /** Up to the `finally`: prepare, convert, swap in; on failure the half-made image is unlinked. */
  method TryRestore(fs: FileSystem, source: string, target: string, levels: seq<Level>)
    returns (ok: bool, pending: seq<string>)
    requires TempsUnused(fs.files, source, target, levels)
    modifies fs
    ensures ok ==> Restored(old(fs.files), source, levels).Some? && target in fs.files
                   && fs.files[target] == Qcow(Restored(old(fs.files), source, levels).value, None)
    ensures fs.Reliable() ==> (ok <==> Restored(old(fs.files), source, levels).Some?)
    ensures AgreeOutside(old(fs.files), fs.files, Temps(target, |levels|) + if ok then {target} else {})
    ensures forall t :: t in pending ==> t in Temps(target, |levels|)
    ensures Accounted(old(fs.files), fs.files, Temps(target, |levels|), fs.leaked, set t | t in pending)
    ensures old(fs.leaked) <= fs.leaked <= old(fs.leaked) + Temps(target, |levels|)
    ensures KeepsPrivate(old(fs.files), fs.files, CopiedFrom(source, target, levels), NewPointers(target, levels))
  {
    ghost var before, temps := fs.files, Temps(target, |levels|);
    ghost var sources, pointers := CopiedFrom(source, target, levels), NewPointers(target, levels);
    TempsAreNew(target, |levels|);
    var tmpPath := RestoreTmp(target);
    assert tmpPath in temps && tmpPath in sources && target !in temps;
    hide KeepsPrivate, Restored, Content, AgreeOutside, Accounted, TempsUnused, Temps, CopiedFrom, NewPointers;
    var convertSource;
    ok, convertSource, pending := PrepareSource(fs, source, target, levels);
    ghost var f1 := fs.files;
    MoreAccounted(before, f1, temps, fs.leaked, (set t | t in pending), tmpPath);
    assert temps + {} == temps;
    if ok {
      ok := ConvertInto(fs, convertSource, tmpPath, target);
      KeepsMore(before, f1, fs.files, sources, pointers, {tmpPath}, {});
      AgreeThen(before, f1, fs.files, temps, if ok then {target} else {}, tmpPath);
      StillAccounted(before, f1, fs.files, temps, fs.leaked, (set t | t in pending), tmpPath, if ok then {target} else {});
    }
    if !ok {
      ghost var f2 := fs.files;
      ghost var leaked := fs.leaked;
      fs.SafeUnlink(tmpPath);
      KeepsMore(before, f2, fs.files, sources, pointers, {}, {});
      AgreeThen(before, f2, fs.files, temps, {}, tmpPath);
      UnlinkedAccounted(before, f2, fs.files, temps, leaked, fs.leaked, (set t | t in pending), tmpPath);
    }
  }

  /**
   On success the target holds exactly the restored content as a standalone image; on failure it is
   as it was. No other file changes, and no temporary file remains except where an unlink or a copy
   itself failed.
   */
  method RestoreDiskFile(fs: FileSystem, source: string, target: string, levels: seq<Level>) returns (ok: bool)
    requires TempsUnused(fs.files, source, target, levels)
    modifies fs
    ensures ok ==> Restored(old(fs.files), source, levels).Some? && target in fs.files
                   && fs.files[target] == Qcow(Restored(old(fs.files), source, levels).value, None)
    ensures fs.Reliable() ==> (ok <==> Restored(old(fs.files), source, levels).Some?)
    ensures !ok ==> (target in fs.files <==> target in old(fs.files))
                    && (target in fs.files ==> fs.files[target] == old(fs.files)[target])
    ensures AgreeOutside(old(fs.files), fs.files, Temps(target, |levels|) + {target})
    ensures Accounted(old(fs.files), fs.files, Temps(target, |levels|), fs.leaked, {})
    ensures old(fs.leaked) <= fs.leaked <= old(fs.leaked) + Temps(target, |levels|)
    ensures Private(fs.files, Temps(target, |levels|))
    ensures KeepsPrivate(old(fs.files), fs.files, CopiedFrom(source, target, levels), NewPointers(target, levels))
  {
    hide KeepsPrivate, Restored;
    ghost var before, temps := fs.files, Temps(target, |levels|);
    ghost var sources, pointers := CopiedFrom(source, target, levels), NewPointers(target, levels);
    TempsAreNew(target, |levels|);
    var pending;
    ok, pending := TryRestore(fs, source, target, levels);
    ghost var f1 := fs.files;
    UnlinkAll(fs, pending, temps, before);
    KeepsMore(before, f1, fs.files, sources, pointers, {}, {});
    OwnTempsPrivate(before, fs.files, temps, target);
  }
}
