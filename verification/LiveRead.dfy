/**
 Reading the disks of a VM that may be running: quiesce the guest or copy each disk through a
 transient snapshot, and undo either on every path. Each external call may throw.
 */
module LiveRead {
  import opened JsText

  /** What the power probe says; without a probe the VM is taken for stopped. */
  datatype Power = NoProbe | Stopped | Running | Unknown

  /** `Freeze(false)` threw, though the guest may have frozen; a delete or unlink is logged as an attempt. */
  datatype Event =
    | Freeze(ok: bool)
    | Thaw
    | SnapCreated(disk: string, name: string)
    | SnapDeleted(disk: string, name: string)
    | Copied(disk: string, copy: string)
    | Unlinked(copy: string)
    | DiskRead(disk: string, from: string)

  datatype Guest = Thawed | MaybeFrozen | Frozen

  /** The guest, the transient snapshots nobody tried to delete yet, and the copies with their disks. */
  datatype World = World(guest: Guest, snaps: set<(string, string)>, copies: map<string, string>)

  // ----- the protocol -----

  const Start: World := World(Thawed, {}, map[])

  function Step(w: World, e: Event): World {
    match e
    case Freeze(ok) => w.(guest := if ok then Frozen else MaybeFrozen)
    case Thaw => w.(guest := Thawed)
    case SnapCreated(disk, name) => w.(snaps := w.snaps + {(disk, name)})
    case SnapDeleted(disk, name) => w.(snaps := w.snaps - {(disk, name)})
    case Copied(disk, copy) => w.(copies := w.copies[copy := disk])
    case Unlinked(copy) => w.(copies := w.copies - {copy})
    case DiskRead(_, _) => w
  }

  function After(log: seq<Event>): World {
    if log == [] then Start else Step(After(log[..|log| - 1]), log[|log| - 1])
  }

  /** The bare disk is safe to read: the VM is off, taken for off, or quiesced. */
  predicate BareIsSafe(power: Power, w: World) {
    power.NoProbe? || power.Stopped? || w.guest.Frozen?
  }

  /** No double freeze, no idle thaw, no read of a disk that may change under the reader. */
  predicate Allowed(power: Power, w: World, e: Event) {
    match e
    case Freeze(_) => w.guest.Thawed?
    case Thaw => !w.guest.Thawed?
    case DiskRead(disk, from) => (from in w.copies && w.copies[from] == disk) || (from == disk && BareIsSafe(power, w))
    case _ => true
  }

  predicate Accepts(power: Power, log: seq<Event>) {
    forall i :: 0 <= i < |log| ==> Allowed(power, After(log[..i]), log[i])
  }

  lemma Extend(power: Power, log: seq<Event>, e: Event)
    requires Accepts(power, log) && Allowed(power, After(log), e)
    ensures Accepts(power, log + [e]) && After(log + [e]) == Step(After(log), e)
  {
    var longer := log + [e];
    assert longer[..|log|] == log;
    forall i | 0 <= i < |longer| ensures Allowed(power, After(longer[..i]), longer[i]) {
      if i < |log| { assert longer[..i] == log[..i]; }
    }
  }

  // ----- snapshots of the disks -----

  /** The name remembered for each disk after its snapshots were taken in order. */
  function Recorded(disks: seq<string>, names: seq<string>): map<string, string>
    requires |names| <= |disks|
  {
    if names == [] then map[]
    else
      var k := |names| - 1;
      Recorded(disks, names[..k])[disks[k] := names[k]]
  }

  function Taken(disks: seq<string>, names: seq<string>): set<(string, string)>
    requires |names| <= |disks|
  {
    set i | 0 <= i < |names| :: (disks[i], names[i])
  }

  function Entries(m: map<string, string>): set<(string, string)> {
    set d | d in m :: (d, m[d])
  }

  /** Snapshots whose name was overwritten by a later one of the same disk path. */
  function Forgotten(disks: seq<string>, names: seq<string>): set<(string, string)>
    requires |names| <= |disks|
  {
    Taken(disks, names) - Entries(Recorded(disks, names))
  }

  predicate Distinct(xs: seq<string>) {
    forall i, j :: 0 <= i < j < |xs| ==> xs[i] != xs[j]
  }

  lemma {:induction false} RecordedIsLast(disks: seq<string>, names: seq<string>, i: nat)
    requires |names| <= |disks| && i < |names|
    ensures disks[i] in Recorded(disks, names)
    ensures (forall j :: i < j < |names| ==> disks[j] != disks[i]) ==> Recorded(disks, names)[disks[i]] == names[i]
    ensures exists j :: i <= j < |names| && disks[j] == disks[i] && Recorded(disks, names)[disks[i]] == names[j]
  {
    var k := |names| - 1;
    if i < k {
      RecordedIsLast(disks, names[..k], i);
      var j :| i <= j < k && disks[j] == disks[i] && Recorded(disks, names[..k])[disks[i]] == names[..k][j];
      assert names[j] == names[..k][j];
      if disks[k] == disks[i] { assert Recorded(disks, names)[disks[i]] == names[k]; }
    }
  }

  /** With fresh names every snapshot is remembered exactly when no disk path repeats. */
  lemma NoneForgottenIff(disks: seq<string>, names: seq<string>)
    requires |names| <= |disks| && Distinct(names)
    ensures Forgotten(disks, names) == {} <==> Distinct(disks[..|names|])
  {
    var recorded := Recorded(disks, names);
    if Distinct(disks[..|names|]) {
      forall i | 0 <= i < |names| ensures (disks[i], names[i]) in Entries(recorded) {
        forall j | i < j < |names| ensures disks[j] != disks[i] {
          assert disks[..|names|][i] == disks[i] && disks[..|names|][j] == disks[j];
        }
        RecordedIsLast(disks, names, i);
      }
    } else {
      var i, j :| 0 <= i < j < |names| && disks[..|names|][i] == disks[..|names|][j];
      FirstOfTwoIsForgotten(disks, names, i, j);
    }
  }

  lemma {:induction false} FirstOfTwoIsForgotten(disks: seq<string>, names: seq<string>, i: nat, j: nat)
    requires |names| <= |disks| && Distinct(names) && i < j < |names| && disks[i] == disks[j]
    ensures (disks[i], names[i]) in Forgotten(disks, names)
  {
    RecordedIsLast(disks, names, j);
    var k :| j <= k < |names| && disks[k] == disks[j] && Recorded(disks, names)[disks[j]] == names[k];
    assert names[i] != names[k];
    assert (disks[i], names[i]) in Taken(disks, names);
  }

  function TransientPath(destDir: string, i: nat): string {
    destDir + "/.src-" + Digits(i) + ".transient.qcow2"
  }

  function TransientPaths(destDir: string, n: nat): (paths: seq<string>)
    ensures |paths| == n
  {
    if n == 0 then [] else TransientPaths(destDir, n - 1) + [TransientPath(destDir, n - 1)]
  }

  lemma {:induction false} TransientPathsUpTo(destDir: string, n: nat)
    ensures forall t :: t in TransientPaths(destDir, n) ==> exists j: nat :: j < n && t == TransientPath(destDir, j)
  {
    if n > 0 { TransientPathsUpTo(destDir, n - 1); }
  }

  lemma TransientPathIsNew(destDir: string, n: nat)
    ensures TransientPath(destDir, n) !in TransientPaths(destDir, n)
  {
    TransientPathsUpTo(destDir, n);
    forall j: nat | j < n ensures TransientPath(destDir, j) != TransientPath(destDir, n) { TransientPathsDiffer(destDir, j, n); }
  }

  // ----- one backup -----

  /** What the outside world answers: which calls throw, and which names snapshots get. */
  datatype Env = Env(
    hasAgent: bool, connects: bool, freezes: bool,
    snapshots: nat -> bool, copies: nat -> bool, snapName: nat -> string,
    parentUsable: bool, inspects: nat -> bool, converts: nat -> bool)

  predicate Quiesces(env: Env) {
    env.hasAgent && env.connects && env.freezes
  }

  predicate SnapshotsWork(env: Env, n: nat) {
    forall i: nat :: i < n ==> env.snapshots(i) && env.copies(i)
  }

  /** A way to read all disks safely can be set up. */
  predicate CanPrepare(power: Power, env: Env, n: nat) {
    power.NoProbe? || power.Stopped? || Quiesces(env) || SnapshotsWork(env, n)
  }

  predicate ReadsWork(env: Env, full: bool, n: nat) {
    forall i: nat :: i < n ==> env.inspects(i) && (full ==> env.converts(i))
  }

  ghost predicate WasRead(log: seq<Event>, disk: string) {
    exists k :: 0 <= k < |log| && log[k].DiskRead? && log[k].disk == disk
  }

  /** The first `n` disks have been read, bare or through a copy. */
  ghost predicate ReadUpTo(log: seq<Event>, disks: seq<string>, n: nat)
    requires n <= |disks|
  {
    forall i :: 0 <= i < n ==> WasRead(log, disks[i])
  }

  lemma ReadsStay(log: seq<Event>, more: seq<Event>, disks: seq<string>, n: nat)
    requires n <= |disks| && ReadUpTo(log, disks, n) && log <= more
    ensures ReadUpTo(more, disks, n)
  {
    forall i | 0 <= i < n ensures WasRead(more, disks[i]) {
      assert WasRead(log, disks[i]);
      var k :| 0 <= k < |log| && log[k].DiskRead? && log[k].disk == disks[i];
      assert more[k] == log[k];
    }
  }

  lemma OneMoreRead(log: seq<Event>, disks: seq<string>, i: nat, from: string)
    requires i < |disks| && ReadUpTo(log, disks, i)
    ensures ReadUpTo(log + [DiskRead(disks[i], from)], disks, i + 1)
  {
    var more := log + [DiskRead(disks[i], from)];
    ReadsStay(log, more, disks, i);
    assert more[|log|] == DiskRead(disks[i], from);
  }

  /** Nothing but bare reads: neither guest nor disks were disturbed. */
  ghost predicate OnlyBareReads(log: seq<Event>) {
    forall k :: 0 <= k < |log| ==> log[k].DiskRead? && log[k].from == log[k].disk
  }

  class LiveBackup {
    const power: Power
    const env: Env
    const destDir: string
    const diskPaths: seq<string>
    var running: bool
    var crashConsistent: bool
    var quiesced: bool
    var readFrom: map<string, string>
    var transientSnapshots: map<string, string>
    var tempFiles: seq<string>
    ghost var log: seq<Event>
    ghost var world: World
    ghost var names: seq<string>

    constructor (power: Power, env: Env, destDir: string, diskPaths: seq<string>)
      ensures this.power == power && this.env == env && this.destDir == destDir && this.diskPaths == diskPaths
      ensures Unused()
    {
      this.power, this.env, this.destDir, this.diskPaths := power, env, destDir, diskPaths;
      running, crashConsistent, quiesced := false, false, false;
      readFrom, transientSnapshots, tempFiles := map[], map[], [];
      log, world, names := [], Start, [];
    }

    /** The calls made so far follow the protocol, and `world` is where they lead. */
    ghost predicate Logged()
      reads this
    {
      Accepts(power, log) && world == After(log) && |names| <= |diskPaths|
    }

    /** The strategy remembers exactly what has to be undone. */
    ghost predicate Valid()
      reads this
    {
      && Logged()
      && (quiesced <==> !world.guest.Thawed?)
      && transientSnapshots == Recorded(diskPaths, names) && world.snaps == Taken(diskPaths, names)
      && world.copies.Keys == (set t | t in tempFiles)
      && forall d :: d in readFrom ==> readFrom[d] in world.copies && world.copies[readFrom[d]] == d
    }

    /** Nothing has been done yet. */
    ghost predicate Unused()
      reads this
    {
      Valid() && log == [] && names == [] && tempFiles == [] && readFrom == map[] && !quiesced && !running && !crashConsistent
    }

    /** Every disk can be read safely, bare or through its copy. */
    ghost predicate Readable()
      reads this
    {
      forall d :: d in diskPaths && d !in readFrom ==> BareIsSafe(power, world)
    }

    /** Nothing is left to undo, except snapshots whose name was overwritten. */
    ghost predicate Undone()
      reads this
    {
      Logged() && world == World(Thawed, Forgotten(diskPaths, names), map[])
    }

    ghost method Log(e: Event)
      requires Logged() && Allowed(power, world, e)
      modifies this`log, this`world
      ensures log == old(log) + [e]
      ensures Logged() && world == Step(old(world), e)
    {
      Extend(power, log, e);
      log, world := log + [e], Step(world, e);
    }

    /** Freezes the guest through its agent; a freeze that throws is thawed at once. */
    method TryQuiesce() returns (frozen: bool)
      requires Valid() && !quiesced && names == [] && tempFiles == []
      modifies this
      ensures Valid() && names == [] && tempFiles == [] && readFrom == old(readFrom) && running == old(running)
      ensures frozen == Quiesces(env) == quiesced
      ensures frozen ==> world.guest.Frozen? && !crashConsistent
    {
      hide After, Accepts, Recorded, Taken;
      frozen := false;
      if env.hasAgent && env.connects {
        quiesced := true;
        frozen := env.freezes;
        Log(Freeze(frozen));
        if frozen {
          crashConsistent := false;
        } else {
          quiesced := false;
          Log(Thaw);
        }
      }
    }

    /** Remembers a snapshot that was taken. */
    method RecordSnapshot(i: nat, snapName: string)
      requires Valid() && i < |diskPaths| && |names| == i
      modifies this`transientSnapshots, this`names, this`log, this`world
      ensures Valid() && names == old(names) + [snapName] && world.copies == old(world.copies)
    {
      hide After, Accepts, Recorded, Taken;
      transientSnapshots := transientSnapshots[diskPaths[i] := snapName];
      TakeOne(diskPaths, names, snapName);
      names := names + [snapName];
      Log(SnapCreated(diskPaths[i], snapName));
    }

    /** Snapshots one disk and copies it; stops at whichever call throws. */
    method SnapshotDisk(i: nat) returns (ok: bool)
      requires Valid() && i < |diskPaths| && |names| == i && tempFiles == TransientPaths(destDir, i)
      modifies this
      ensures Valid() && quiesced == old(quiesced) && running == old(running)
      ensures ok == (env.snapshots(i) && env.copies(i))
      ensures names == if env.snapshots(i) then old(names) + [env.snapName(i)] else old(names)
      ensures ok ==> readFrom.Keys == old(readFrom).Keys + {diskPaths[i]}
      ensures ok ==> tempFiles == TransientPaths(destDir, i + 1)
    {
      hide After, Accepts, Recorded, Taken, TransientPath;
      var sourcePath := diskPaths[i];
      var tmpImage := TransientPath(destDir, i);
      TransientPathIsNew(destDir, i);
      ok := env.snapshots(i);
      if !ok {
        return;
      }
      RecordSnapshot(i, env.snapName(i));
      ok := env.copies(i);
      if !ok {
        return;
      }
      Log(Copied(sourcePath, tmpImage));
      tempFiles := tempFiles + [tmpImage];
      readFrom := readFrom[sourcePath := tmpImage];
    }

    /** The fallback: snapshots and copies of every disk, or everything undone again. */
    method SnapshotAll() returns (ok: bool)
      requires Valid() && !quiesced && names == [] && tempFiles == []
      modifies this
      ensures ok == SnapshotsWork(env, |diskPaths|)
      ensures ok ==> Valid() && crashConsistent && !quiesced && forall d :: d in diskPaths ==> d in readFrom
      ensures !ok ==> Undone()
      ensures running == old(running)
    {
      hide After, Accepts, Recorded, Taken, TransientPath, TransientPaths, Forgotten;
      ok := true;
      for i := 0 to |diskPaths|
        invariant Valid() && !quiesced && |names| == i && running == old(running)
        invariant tempFiles == TransientPaths(destDir, i)
        invariant forall k :: 0 <= k < i ==> diskPaths[k] in readFrom
        invariant SnapshotsWork(env, i)
      {
        ok := SnapshotDisk(i);
        if !ok {
          CleanupLiveRead();
          return;
        }
      }
      crashConsistent := true;
    }

    /** Decides how to read the disks; a refusal has undone everything it began. */
    method PrepareLiveRead() returns (ok: bool)
      requires Unused()
      modifies this
      ensures ok == CanPrepare(power, env, |diskPaths|)
      ensures ok ==> Valid() && Readable() && (crashConsistent <==> running && !Quiesces(env))
      ensures !ok ==> Undone()
      ensures running <==> !power.NoProbe? && !power.Stopped?
      ensures !running ==> Unused()
    {
      hide After, Accepts, Recorded, Taken, Forgotten;
      ok := true;
      if power.NoProbe? || power.Stopped? {
        return;
      }
      running := true;
      var frozen := TryQuiesce();
      if !frozen {
        ok := SnapshotAll();
      }
    }

    /** Thaws the guest, unlinks the copies and tries to delete every snapshot it remembers. */
    method CleanupLiveRead()
      requires Valid()
      modifies this`log, this`world
      ensures Undone() && old(log) <= log
      ensures !quiesced && tempFiles == [] && names == [] ==> log == old(log)
    {
      assert names == [] ==> transientSnapshots == map[];
      hide After, Accepts, Recorded, Taken;
      if quiesced {
        Log(Thaw);
      }
      RemoveCopies();
      DeleteSnapshots();
    }

    /** One delete attempt for every remembered snapshot. */
    method DeleteSnapshots()
      requires Logged()
      modifies this`log, this`world
      ensures Logged() && world == old(world).(snaps := old(world).snaps - Entries(transientSnapshots)) && old(log) <= log
      ensures transientSnapshots == map[] ==> log == old(log)
    {
      hide After, Accepts;
      var todo := transientSnapshots.Keys;
      ghost var done: map<string, string> := map[];
      while todo != {}
        invariant todo <= transientSnapshots.Keys && old(log) <= log && Logged()
        invariant done == map d | d in transientSnapshots && d !in todo :: transientSnapshots[d]
        invariant world == old(world).(snaps := old(world).snaps - Entries(done))
        invariant transientSnapshots == map[] ==> log == old(log)
        decreases todo
      {
        var sourcePath :| sourcePath in todo;
        var snapName := transientSnapshots[sourcePath];
        Log(SnapDeleted(sourcePath, snapName));
        EntriesAdd(done, sourcePath, snapName);
        done := done[sourcePath := snapName];
        todo := todo - {sourcePath};
      }
      assert done == transientSnapshots;
    }

    method RemoveCopies()
      requires Logged() && world.guest.Thawed? && world.copies.Keys == (set t | t in tempFiles)
      modifies this`log, this`world
      ensures Logged() && world == old(world).(copies := map[]) && old(log) <= log
      ensures tempFiles == [] ==> log == old(log)
    {
      hide After, Accepts;
      for i := 0 to |tempFiles|
        invariant Logged() && world.guest == old(world.guest) && world.snaps == old(world.snaps) && old(log) <= log
        invariant forall t :: t in world.copies ==> t in tempFiles[i..]
        invariant i == 0 ==> log == old(log)
      {
        assert forall t :: t in tempFiles[i..] ==> t == tempFiles[i] || t in tempFiles[i + 1..];
        Log(Unlinked(tempFiles[i]));
      }
      assert world.copies == map[];
    }

    /** Copies the disks, one after the other; every call may throw. */
    method ReadDisks(full: bool) returns (ok: bool)
      requires Valid() && Readable()
      modifies this`log, this`world
      ensures Valid() && ok == ReadsWork(env, full, |diskPaths|)
      ensures ok ==> ReadUpTo(log, diskPaths, |diskPaths|)
      ensures readFrom == map[] && old(log) == [] ==> OnlyBareReads(log)
    {
      hide After, Accepts, Recorded, Taken, ReadUpTo;
      assert ReadUpTo(log, diskPaths, 0) by { NoneRead(log, diskPaths); }
      for i := 0 to |diskPaths|
        invariant Valid() && Readable() && ReadsWork(env, full, i)
        invariant ReadUpTo(log, diskPaths, i)
        invariant readFrom == map[] && old(log) == [] ==> OnlyBareReads(log)
      {
        var sourcePath := diskPaths[i];
        var readPath := if sourcePath in readFrom then readFrom[sourcePath] else sourcePath;
        OneMoreRead(log, diskPaths, i, readPath);
        Log(DiskRead(sourcePath, readPath));
        if !env.inspects(i) {
          return false;
        }
        if full {
          ReadsStay(log, log + [DiskRead(sourcePath, readPath)], diskPaths, i + 1);
          Log(DiskRead(sourcePath, readPath));
          if !env.converts(i) {
            return false;
          }
        }
      }
      ok := true;
    }

    /**
     A FULL or INCREMENTAL backup: whatever throws, the live read is undone. It succeeds exactly when
     a safe way to read can be set up and no read throws, and then every disk has been read.
     */
    method CreateBackup(full: bool) returns (ok: bool)
      requires Unused()
      modifies this
      ensures Undone()
      ensures ok <==> CanPrepare(power, env, |diskPaths|) && (full || env.parentUsable) && ReadsWork(env, full, |diskPaths|)
      ensures ok ==> ReadUpTo(log, diskPaths, |diskPaths|) && (crashConsistent <==> running && !Quiesces(env))
      ensures running <==> !power.NoProbe? && !power.Stopped?
      ensures !running ==> OnlyBareReads(log)
    {
      hide After, Accepts, Recorded, Taken, Forgotten, ReadUpTo, Readable;
      ok := PrepareLiveRead();
      if ok {
        ok := false;
        if full || env.parentUsable {
          ok := ReadDisks(full);
        }
        ghost var earlier := log;
        CleanupLiveRead();
        if ok { ReadsStay(earlier, log, diskPaths, |diskPaths|); }
      }
    }
  }

  lemma EntriesAdd(m: map<string, string>, d: string, name: string)
    requires d !in m
    ensures Entries(m[d := name]) == Entries(m) + {(d, name)}
  {
    var more := m[d := name];
    assert more[d] == name;
    forall e | e in Entries(m) ensures e in Entries(more) {
      assert e.0 in m && more[e.0] == m[e.0];
    }
  }

  lemma NoneRead(log: seq<Event>, disks: seq<string>)
    ensures ReadUpTo(log, disks, 0)
  {
  }

  lemma TakeOne(disks: seq<string>, names: seq<string>, name: string)
    requires |names| < |disks|
    ensures Recorded(disks, names + [name]) == Recorded(disks, names)[disks[|names|] := name]
    ensures Taken(disks, names + [name]) == Taken(disks, names) + {(disks[|names|], name)}
  {
    var longer := names + [name];
    assert longer[..|names|] == names;
    assert forall i :: 0 <= i < |names| ==> longer[i] == names[i];
    assert longer[|names|] == name;
    forall p | p in Taken(disks, names) ensures p in Taken(disks, longer) {
      var i :| 0 <= i < |names| && p == (disks[i], names[i]);
      assert p == (disks[i], longer[i]);
    }
    assert (disks[|names|], longer[|names|]) in Taken(disks, longer);
  }

  lemma TransientPathsDiffer(destDir: string, i: nat, j: nat)
    requires i != j
    ensures TransientPath(destDir, i) != TransientPath(destDir, j)
  {
    if TransientPath(destDir, i) == TransientPath(destDir, j) {
      var a, b := destDir + "/.src-" + Digits(i), destDir + "/.src-" + Digits(j);
      assert TransientPath(destDir, i)[..|a|] == a && TransientPath(destDir, j)[..|b|] == b;
      assert |TransientPath(destDir, i)| == |a| + 16 && |TransientPath(destDir, j)| == |b| + 16;
      assert a == b;
      var k := |destDir + "/.src-"|;
      assert a[k..] == Digits(i) && b[k..] == Digits(j);
      DigitsInjective(i, j);
    }
  }

  // ----- what an accepted log means -----

  function Count(log: seq<Event>, p: Event -> bool): nat {
    if log == [] then 0 else Count(log[..|log| - 1], p) + if p(log[|log| - 1]) then 1 else 0
  }

  const IsFreeze: Event -> bool := (e: Event) => e.Freeze?
  const IsThaw: Event -> bool := (e: Event) => e.Thaw?

  lemma AcceptsPrefix(power: Power, log: seq<Event>, n: nat)
    requires Accepts(power, log) && n <= |log|
    ensures Accepts(power, log[..n])
  {
    forall i | 0 <= i < n ensures Allowed(power, After(log[..n][..i]), log[..n][i]) {
      assert log[..n][..i] == log[..i];
    }
  }

  /** There are as many thaws as freezes, but for one while the guest is frozen. */
  lemma {:induction false} FreezesAndThaws(power: Power, log: seq<Event>)
    requires Accepts(power, log)
    ensures Count(log, IsFreeze) == Count(log, IsThaw) + if After(log).guest.Thawed? then 0 else 1
  {
    if log != [] {
      var n := |log| - 1;
      AcceptsPrefix(power, log, n);
      FreezesAndThaws(power, log[..n]);
      assert Allowed(power, After(log[..n]), log[n]);
    }
  }

  ghost predicate ThawedAt(log: seq<Event>, i: nat, j: nat) {
    && i < j < |log| && log[j].Thaw?
    && forall k :: i < k < j ==> !log[k].Freeze? && !log[k].Thaw?
  }

  ghost predicate OpenSince(log: seq<Event>, i: nat) {
    forall k :: i < k < |log| ==> !log[k].Freeze? && !log[k].Thaw?
  }

  /** Once the guest is thawed at the end, every freeze meets its own thaw before any other freeze or thaw. */
  lemma {:induction false} FreezeMeetsThaw(power: Power, log: seq<Event>, i: nat) returns (j: nat)
    requires Accepts(power, log) && i < |log| && log[i].Freeze?
    ensures ThawedAt(log, i, j) || (!After(log).guest.Thawed? && OpenSince(log, i))
  {
    var n := |log| - 1;
    j := n;
    if i < n {
      var shorter := log[..n];
      AcceptsPrefix(power, log, n);
      assert Allowed(power, After(shorter), log[n]);
      assert After(log) == Step(After(shorter), log[n]);
      LastEvent(log, i);
      hide Accepts, After, ThawedAt, OpenSince;
      j := FreezeMeetsThaw(power, shorter, i);
      if !ThawedAt(shorter, i, j) { j := n; }
    }
  }

  lemma LastEvent(log: seq<Event>, i: nat)
    requires i + 1 < |log|
    ensures var n := |log| - 1;
      && (forall j: nat :: ThawedAt(log[..n], i, j) ==> ThawedAt(log, i, j))
      && (OpenSince(log[..n], i) && log[n].Thaw? ==> ThawedAt(log, i, n))
      && (OpenSince(log[..n], i) && !log[n].Thaw? && !log[n].Freeze? ==> OpenSince(log, i))
  {
    var n := |log| - 1;
    assert forall k :: 0 <= k < n ==> log[..n][k] == log[k];
  }

  /** A snapshot that is not pending at the end had a delete attempt after it was taken. */
  lemma {:induction false} SnapshotMeetsDelete(log: seq<Event>, i: nat, disk: string, name: string)
    requires i < |log| && log[i] == SnapCreated(disk, name) && (disk, name) !in After(log).snaps
    ensures exists j :: i < j < |log| && log[j] == SnapDeleted(disk, name)
  {
    var n := |log| - 1;
    if i < n && log[n] != SnapDeleted(disk, name) {
      SnapshotMeetsDelete(log[..n], i, disk, name);
      var j :| i < j < n && log[..n][j] == SnapDeleted(disk, name);
      assert log[j] == SnapDeleted(disk, name);
    }
  }

  /** A successful freeze at `k` with no thaw from there to `end`. */
  ghost predicate QuiescedFrom(log: seq<Event>, k: nat, end: nat) {
    k < end <= |log| && log[k] == Freeze(true) && forall m :: k < m < end ==> !log[m].Thaw?
  }

  /** A copy of the disk was made at `k` and not removed before `end`. */
  ghost predicate CopiedFrom(log: seq<Event>, k: nat, end: nat, disk: string, copy: string) {
    k < end <= |log| && log[k] == Copied(disk, copy) && forall m :: k < m < end ==> log[m] != Unlinked(copy)
  }

  lemma {:induction false} FrozenSince(log: seq<Event>) returns (k: nat)
    requires After(log).guest.Frozen?
    ensures QuiescedFrom(log, k, |log|)
  {
    k := |log| - 1;
    if log[k] != Freeze(true) {
      k := FrozenSince(log[..|log| - 1]);
    }
  }

  lemma {:induction false} CopiedBefore(log: seq<Event>, copy: string) returns (k: nat)
    requires copy in After(log).copies
    ensures CopiedFrom(log, k, |log|, After(log).copies[copy], copy)
  {
    k := |log| - 1;
    var disk := After(log).copies[copy];
    if log[k] != Copied(disk, copy) {
      k := CopiedBefore(log[..|log| - 1], copy);
    }
  }

  /** A disk of a running VM, or one in an unknown state, is read only while quiesced or from a copy of it. */
  lemma ReadsAreSafe(power: Power, log: seq<Event>, i: nat, disk: string, from: string)
    requires Accepts(power, log) && i < |log| && log[i] == DiskRead(disk, from)
    requires power.Running? || power.Unknown?
    ensures (exists k: nat :: QuiescedFrom(log, k, i)) || (exists k: nat :: CopiedFrom(log, k, i, disk, from))
  {
    var before := log[..i];
    assert Allowed(power, After(before), log[i]);
    hide After, Accepts;
    if from in After(before).copies && After(before).copies[from] == disk {
      var k := CopiedBefore(before, from);
      assert CopiedFrom(log, k, i, disk, from);
    } else {
      var k := FrozenSince(before);
      assert QuiescedFrom(log, k, i);
    }
  }

  /** After a backup of distinct disks: as many thaws as freezes, and a delete attempt for every snapshot. */
  lemma UndoneMeans(b: LiveBackup)
    requires b.Undone() && Distinct(b.diskPaths)
    ensures Count(b.log, IsFreeze) == Count(b.log, IsThaw)
    ensures forall i: nat :: i < |b.log| && b.log[i].SnapCreated? ==>
              exists j :: i < j < |b.log| && b.log[j] == SnapDeleted(b.log[i].disk, b.log[i].name)
  {
    FreezesAndThaws(b.power, b.log);
    DistinctDisksForgetNone(b.diskPaths, b.names);
    forall i: nat | i < |b.log| && b.log[i].SnapCreated?
      ensures exists j :: i < j < |b.log| && b.log[j] == SnapDeleted(b.log[i].disk, b.log[i].name)
    {
      SnapshotMeetsDelete(b.log, i, b.log[i].disk, b.log[i].name);
    }
  }

  lemma DistinctDisksForgetNone(disks: seq<string>, names: seq<string>)
    requires |names| <= |disks| && Distinct(disks)
    ensures Forgotten(disks, names) == {}
  {
    forall i | 0 <= i < |names| ensures (disks[i], names[i]) in Entries(Recorded(disks, names)) {
      RecordedIsLast(disks, names, i);
    }
  }
}
