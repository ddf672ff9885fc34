/**
 Creates that take time. A create writes its files first and its manifest last, and the dependency guard of
 a delete sees manifests only; so a delete may run in between.
 */
module BackupFlights {
  import opened Wrappers
  import opened ImageStore
  import opened BackupPaths
  import opened BackupChains
  import opened BackupInvariant
  import opened BackupScenarios

  /** The backups of a VM, and the manifests that creates in flight are about to write. */
  datatype Host = Host(v: Vault, flights: map<string, Manifest>)

  /** Everything up to the manifest. */
  function Begin(s: Host, id: string, cfg: Config, fault: Fault): Host
    requires cfg.diskPaths != []
  {
    if fault.mkdirFails then s
    else Host(Create(s.v, id, cfg, fault.(manifestFails := true)), s.flights[id := Outcome(s.v, id, cfg, fault.failAt)])
  }

  function Landed(v: Vault, m: Manifest): Vault {
    v.(manifests := v.manifests[m.id := m])
  }

  /** The manifest is written, or its write fails. */
  function Finish(s: Host, id: string, writeFails: bool): Host {
    if id !in s.flights then s
    else Host(if writeFails then s.v else Landed(s.v, s.flights[id]), s.flights - {id})
  }

  function Remove(s: Host, id: string, ioFails: bool): Host {
    s.(v := Delete(s.v, id, ioFails).0)
  }

  function Foreign(s: Host, path: string, image: Image): Host {
    s.(v := WriteFile(s.v, path, image))
  }

  /** Nothing in between: the two halves are one create. */
  lemma BeginThenFinish(s: Host, id: string, cfg: Config, fault: Fault)
    requires cfg.diskPaths != [] && id !in s.flights
    ensures Finish(Begin(s, id, cfg, fault), id, fault.manifestFails) == Host(Create(s.v, id, cfg, fault), s.flights)
  {
    hide Execute, RemoveUnder, SourceContents;
    if !fault.mkdirFails {
      assert s.flights[id := Outcome(s.v, id, cfg, fault.failAt)] - {id} == s.flights;
      assert Outcome(s.v, id, cfg, fault.failAt).id == id;
    }
  }

  /** The vault is sound, and so it would be after any one create in flight had finished; links lead to older backups. */
  ghost predicate FlightsInv(s: Host) {
    && Inv(s.v) && LinksOlder(s.v.(manifests := s.v.manifests + s.flights))
    && forall f :: f in s.flights ==> Flies(s.v, s.flights[f], f)
  }

  ghost predicate Flies(v: Vault, m: Manifest, f: string) {
    m.id == f && f !in v.manifests && Inv(Landed(v, m))
  }

  // ----- beginning -----

  /** New files in the directory of a backup without manifest. */
  lemma NewFilesKeepInv(v: Vault, w: Vault, id: string)
    requires Inv(v) && IsSegment(id) && id !in v.manifests
    requires w.manifests == v.manifests && w.dir == v.dir && w.clock >= v.clock
    requires forall p :: p in v.files && !Under(v.dir, id, p) ==> p in w.files && w.files[p] == v.files[p]
    requires forall p :: p in w.files ==> p != "" && p[0] == '/'
    requires forall x :: x != id && x in v.history ==> x in w.history && w.history[x] == v.history[x]
    ensures Inv(w)
  {
    forall x | x in w.manifests ensures Healthy(w, x) {
      if IsCompleted(v, x) { ChainMembers(v, x); }
      HealthyKeptApart(v, w, x, id);
    }
  }

  lemma CreateWrites(v: Vault, id: string, cfg: Config, fault: Fault)
    requires Inv(v) && CreateLegal(v, id, cfg)
    ensures var w := Create(v, id, cfg, fault);
      && (fault.manifestFails || fault.mkdirFails ==> w.manifests == v.manifests)
      && w.dir == v.dir && w.clock >= v.clock
      && (forall p :: p in v.files && !Under(v.dir, id, p) ==> p in w.files && w.files[p] == v.files[p])
      && (forall p :: p in w.files ==> p != "" && p[0] == '/')
      && forall x :: x != id && x in v.history ==> x in w.history && w.history[x] == v.history[x]
  {
    ExecuteWrites(v, id, cfg, fault.failAt);
    hide Execute, SourceContents, CreateLegal, Under;
  }

  ghost predicate BeginLegal(s: Host, id: string, cfg: Config) {
    && CreateLegal(s.v, id, cfg) && id !in s.flights
    && forall f :: f in s.flights ==> s.flights[f].parent != Some(id)
  }

  lemma BeginKeepsInv(s: Host, id: string, cfg: Config, fault: Fault)
    requires FlightsInv(s) && BeginLegal(s, id, cfg)
    ensures FlightsInv(Begin(s, id, cfg, fault))
  {
    if !fault.mkdirFails {
      var t := Begin(s, id, cfg, fault);
      var late := fault.(manifestFails := true);
      CreateWrites(s.v, id, cfg, late);
      CreateKeepsInv(s.v, id, cfg, late);
      CreateKeepsInv(s.v, id, cfg, fault.(manifestFails := false));
      NewFlight(s.v, id, cfg, fault);
      BeginKeepsOrder(s, id, cfg, fault);
      assert IsSegment(id) && id !in s.v.manifests;
      hide Inv, Create, CreateLegal, Outcome, LinksOlder, Under;
      forall f | f in t.flights ensures Flies(t.v, t.flights[f], f) {
        if f != id {
          assert Flies(s.v, s.flights[f], f);
          NewFilesKeepInv(Landed(s.v, s.flights[f]), Landed(t.v, s.flights[f]), id);
        }
      }
    }
  }

  lemma NewFlight(v: Vault, id: string, cfg: Config, fault: Fault)
    requires cfg.diskPaths != [] && !fault.mkdirFails
    ensures Outcome(v, id, cfg, fault.failAt).id == id
    ensures Landed(Create(v, id, cfg, fault.(manifestFails := true)), Outcome(v, id, cfg, fault.failAt))
         == Create(v, id, cfg, fault.(manifestFails := false))
  {
    hide Execute, RemoveUnder, SourceContents;
  }

  lemma FlightsAreEarlier(s: Host, id: string)
    requires FlightsInv(s) && id in s.v.manifests + s.flights
    ensures (s.v.manifests + s.flights)[id].createdAt < s.v.clock
  {
    if id in s.flights {
      assert Flies(s.v, s.flights[id], id);
      assert Healthy(Landed(s.v, s.flights[id]), id);
    } else {
      assert Healthy(s.v, id);
    }
  }

  lemma BeginKeepsOrder(s: Host, id: string, cfg: Config, fault: Fault)
    requires FlightsInv(s) && BeginLegal(s, id, cfg) && !fault.mkdirFails
    ensures var t := Begin(s, id, cfg, fault); LinksOlder(t.v.(manifests := t.v.manifests + t.flights))
  {
    var all := s.v.manifests + s.flights;
    var m := Outcome(s.v, id, cfg, fault.failAt);
    AllEarlier(s, id, cfg);
    OutcomeNames(s.v, id, cfg, fault.failAt);
    CreateIsLate(s.v, id, cfg, fault);
    hide Create, Outcome, BeginLegal, FlightsInv, LinksOlder;
    OrderOfOneMore(s.v, all, id, m);
    assert s.v.manifests + s.flights[id := m] == all[id := m];
  }

  lemma AllEarlier(s: Host, id: string, cfg: Config)
    requires FlightsInv(s) && BeginLegal(s, id, cfg)
    ensures var all := s.v.manifests + s.flights;
      && (forall x :: x in all ==> all[x].createdAt < s.v.clock && all[x].parent != Some(id))
      && LinksOlder(s.v.(manifests := all)) && cfg.parent != Some(id)
  {
    var all := s.v.manifests + s.flights;
    hide Under, OutsideBackups, LinksOlder, Healthy, Flies;
    forall x | x in all ensures all[x].createdAt < s.v.clock && all[x].parent != Some(id) {
      FlightsAreEarlier(s, x);
    }
  }

  lemma OutcomeNames(v: Vault, id: string, cfg: Config, failAt: Option<nat>)
    requires cfg.diskPaths != []
    ensures var m := Outcome(v, id, cfg, failAt); m.parent == cfg.parent && m.createdAt == v.clock && m.id == id
  {
  }

  lemma CreateIsLate(v: Vault, id: string, cfg: Config, fault: Fault)
    requires cfg.diskPaths != []
    ensures Create(v, id, cfg, fault.(manifestFails := true)).manifests == v.manifests
  {
    hide Execute, RemoveUnder, SourceContents;
  }

  /** A younger manifest that nothing names keeps the order. */
  lemma OrderOfOneMore(v: Vault, all: map<string, Manifest>, id: string, m: Manifest)
    requires LinksOlder(v.(manifests := all)) && m.parent != Some(id)
    requires forall x :: x in all ==> all[x].createdAt < m.createdAt && all[x].parent != Some(id)
    ensures forall w: Vault :: w.manifests == all[id := m] ==> LinksOlder(w)
  {
  }

  // ----- finishing -----

  lemma LandedKeeps(v: Vault, m: Manifest, x: string)
    requires Inv(v) && x in v.manifests && m.id !in v.manifests
    ensures Healthy(Landed(v, m), x)
  {
    if IsCompleted(v, x) { ChainMembers(v, x); }
    HealthyKept(v, Landed(v, m), x);
  }

  /** Two creates in flight may finish one after the other. */
  lemma BothLand(v: Vault, m: Manifest, n: Manifest)
    requires Inv(v) && Inv(Landed(v, m)) && Inv(Landed(v, n)) && m.id !in v.manifests && n.id !in v.manifests && m.id != n.id
    requires LinksOlder(Landed(Landed(v, m), n))
    ensures Inv(Landed(Landed(v, m), n))
  {
    var u, w := Landed(v, m), Landed(Landed(v, m), n);
    forall x | x in w.manifests ensures Healthy(w, x) {
      if x == n.id {
        assert w.manifests == Landed(Landed(v, n), m).manifests;
        LandedKeeps(Landed(v, n), m, x);
      } else {
        LandedKeeps(u, n, x);
      }
    }
  }

  lemma FinishKeepsInv(s: Host, id: string, writeFails: bool)
    requires FlightsInv(s)
    ensures FlightsInv(Finish(s, id, writeFails))
  {
    if id in s.flights {
      var m, t := s.flights[id], Finish(s, id, writeFails);
      var all := s.v.manifests + s.flights;
      assert Flies(s.v, m, id);
      forall x | x in t.v.manifests + t.flights ensures x in all && (t.v.manifests + t.flights)[x] == all[x] {
        if x in s.flights { assert Flies(s.v, s.flights[x], x); }
      }
      OrderOfFewer(s.v, all, t.v.manifests + t.flights);
      forall f | f in t.flights ensures Flies(t.v, t.flights[f], f) {
        var n := s.flights[f];
        assert Flies(s.v, n, f);
        if !writeFails {
          forall x | x in Landed(Landed(s.v, m), n).manifests
            ensures x in all && Landed(Landed(s.v, m), n).manifests[x] == all[x]
          {
            if x in s.flights { assert Flies(s.v, s.flights[x], x); }
          }
          OrderOfFewer(s.v, all, Landed(Landed(s.v, m), n).manifests);
          BothLand(s.v, m, n);
        }
      }
    }
  }

  /** Fewer manifests keep their order. */
  lemma OrderOfFewer(v: Vault, all: map<string, Manifest>, some: map<string, Manifest>)
    requires LinksOlder(v.(manifests := all)) && forall x :: x in some ==> x in all && some[x] == all[x]
    ensures forall w: Vault :: w.manifests == some ==> LinksOlder(w)
  {
  }

  // ----- foreign writes -----

  lemma ForeignKeepsInv(s: Host, path: string, image: Image)
    requires FlightsInv(s) && OutsideBackups(s.v, path)
    ensures FlightsInv(Foreign(s, path, image))
  {
    var t := Foreign(s, path, image);
    WriteKeepsInv(s.v, path, image);
    OrderOfFewer(s.v, s.v.manifests + s.flights, s.v.manifests + s.flights);
    forall f | f in t.flights ensures Flies(t.v, t.flights[f], f) {
      var m := s.flights[f];
      assert Flies(s.v, m, f);
      SameDirOutside(s.v, Landed(s.v, m), path);
      WriteKeepsInv(Landed(s.v, m), path, image);
      assert Landed(t.v, m) == WriteFile(Landed(s.v, m), path, image);
    }
  }

  // ----- deleting -----

  /** The create in flight completes, and has its files in the backup's directory or stands on it. */
  predicate Claims(m: Manifest, id: string) {
    && m.status.Completed? && !m.kind.Snapshot?
    && ((m.id == id && m.disks != []) || (m.kind.Incremental? && m.parent == Some(id)))
  }

  /** One create in flight still may finish exactly when it has no claim on what was deleted. */
  lemma FlightAfterDelete(v: Vault, m: Manifest, id: string)
    requires Inv(v) && Flies(v, m, m.id) && Delete(v, id, false).1.Deleted?
    ensures Flies(Delete(v, id, false).0, m, m.id) <==> !Claims(m, id)
  {
    var u, w := Landed(v, m), Delete(v, id, false).0;
    var paths := FilesUnder(v, id);
    var ids: set<string> := if id == m.id then {} else {id};
    assert IsSegment(id) by { if id in v.manifests { assert Healthy(v, id); } }
    LandedAfterDelete(v, m, id);
    LossKeepsInvIff(u, ids, paths);
    FlightSpared(v, m, id, ids, paths);
    BesidesFlight(v, m, id, ids, paths);
    hide Inv, Delete, Spared, Claims, FilesUnder;
    assert AllSpared(u, ids, paths) <==> Spared(u, ids, paths, m.id);
  }

  lemma LandedAfterDelete(v: Vault, m: Manifest, id: string)
    requires m.id !in v.manifests && Delete(v, id, false).1.Deleted?
    ensures Landed(Delete(v, id, false).0, m) == Without(Landed(v, m), if id == m.id then {} else {id}, FilesUnder(v, id))
    ensures m.id !in Delete(v, id, false).0.manifests
  {
    DeleteIsLoss(v, id);
    hide RemoveUnder, FilesUnder, HasDependent, DirectoryExists;
    var ids: set<string> := if id == m.id then {} else {id};
    assert (v.manifests - {id})[m.id := m] == v.manifests[m.id := m] - ids;
  }

  lemma BesidesFlight(v: Vault, m: Manifest, id: string, ids: set<string>, paths: set<string>)
    requires Inv(v) && m.id !in v.manifests && IsSegment(id) && !HasDependent(v, id)
    requires paths == FilesUnder(v, id) && ids <= {id}
    ensures forall x :: x in v.manifests && x != id ==> Spared(Landed(v, m), ids, paths, x)
  {
    OthersSpared(v, id, ids, paths);
    hide Inv, HasDependent, FilesUnder;
    forall x | x in v.manifests && x != id ensures Spared(Landed(v, m), ids, paths, x) {
      assert Spared(v, ids, paths, x);
    }
  }

  lemma FlightSpared(v: Vault, m: Manifest, id: string, ids: set<string>, paths: set<string>)
    requires Inv(Landed(v, m)) && m.id !in v.manifests && IsSegment(id)
    requires paths == FilesUnder(v, id) && ids == if id == m.id then {} else {id}
    ensures Spared(Landed(v, m), ids, paths, m.id) <==> !Claims(m, id)
  {
    var u := Landed(v, m);
    assert Healthy(u, m.id);
    if IsCompleted(u, m.id) {
      forall d | 0 <= d < |m.disks| ensures m.disks[d].backupPath in paths <==> id == m.id {
        DisksAreItsOwn(u, m.id, d);
        if m.disks[d].backupPath in paths { UnderOneBackup(v.dir, id, m.id, m.disks[d].backupPath); }
      }
      if m.disks != [] { assert m.disks[0].backupPath in paths <==> id == m.id; }
    }
  }

  /**
   A delete beside creates in flight keeps every one of them safe to finish exactly when none of them
   has a claim on the backup; the guard, which looks at manifests only, does not see to that.
   */
  lemma RemoveKeepsInvIff(s: Host, id: string, ioFails: bool)
    requires FlightsInv(s)
    ensures FlightsInv(Remove(s, id, ioFails))
      <==> (Delete(s.v, id, ioFails).1.Deleted? ==> forall f :: f in s.flights ==> !Claims(s.flights[f], id))
  {
    var t := Remove(s, id, ioFails);
    DeleteKeepsInv(s.v, id, ioFails);
    if Delete(s.v, id, ioFails).1.Deleted? {
      var all := s.v.manifests + s.flights;
      OrderOfFewer(s.v, all, t.v.manifests + t.flights);
      forall f | f in s.flights ensures Flies(t.v, t.flights[f], f) <==> !Claims(s.flights[f], id) {
        assert Flies(s.v, s.flights[f], f);
        FlightAfterDelete(s.v, s.flights[f], id);
      }
    }
  }

  // ----- runs -----

  datatype FlightOp =
    | Starts(id: string, cfg: Config, fault: Fault)
    | Ends(id: string, writeFails: bool)
    | Removes(id: string, ioFails: bool)
    | Writes(path: string, image: Image)

  /** A delete that goes through must have no create in flight with a claim on the backup. */
  ghost predicate FlightLegal(s: Host, op: FlightOp) {
    match op
    case Starts(id, cfg, _) => BeginLegal(s, id, cfg)
    case Ends(_, _) => true
    case Removes(id, ioFails) =>
      Delete(s.v, id, ioFails).1.Deleted? ==> forall f :: f in s.flights ==> !Claims(s.flights[f], id)
    case Writes(path, _) => OutsideBackups(s.v, path)
  }

  ghost function FlightStep(s: Host, op: FlightOp): Host
    requires FlightLegal(s, op)
  {
    match op
    case Starts(id, cfg, fault) => Begin(s, id, cfg, fault)
    case Ends(id, writeFails) => Finish(s, id, writeFails)
    case Removes(id, ioFails) => Remove(s, id, ioFails)
    case Writes(path, image) => Foreign(s, path, image)
  }

  ghost predicate FlightReaches(s: Host, ops: seq<FlightOp>, t: Host)
    decreases |ops|
  {
    if ops == [] then s == t else FlightLegal(s, ops[0]) && FlightReaches(FlightStep(s, ops[0]), ops[1..], t)
  }

  lemma FlightStepKeepsInv(s: Host, op: FlightOp)
    requires FlightsInv(s) && FlightLegal(s, op)
    ensures FlightsInv(FlightStep(s, op))
  {
    match op
    case Starts(id, cfg, fault) => BeginKeepsInv(s, id, cfg, fault);
    case Ends(id, writeFails) => FinishKeepsInv(s, id, writeFails);
    case Removes(id, ioFails) => RemoveKeepsInvIff(s, id, ioFails);
    case Writes(path, image) => ForeignKeepsInv(s, path, image);
  }

  /** Any number of creates in flight at once, finishing in any order among deletes without a claim against them. */
  lemma {:induction false} FlightRunKeepsInv(s: Host, ops: seq<FlightOp>, t: Host)
    requires FlightsInv(s) && FlightReaches(s, ops, t)
    ensures FlightsInv(t)
    decreases |ops|
  {
    hide FlightsInv;
    if ops != [] {
      FlightStepKeepsInv(s, ops[0]);
      FlightRunKeepsInv(FlightStep(s, ops[0]), ops[1..], t);
    }
  }

  /** A claimed parent that goes: the create still finishes, as a completed overlay without a parent. */
  lemma ClaimIsLost(s: Host, f: string, id: string)
    requires f in s.flights && s.flights[f].id == f != id && Claims(s.flights[f], id)
    requires Delete(s.v, id, false).1.Deleted?
    ensures var t := Finish(Remove(s, id, false), f, false);
      IsCompleted(t.v, f) && t.v.manifests[f].parent == Some(id) && id !in t.v.manifests && !Inv(t.v)
  {
    var t := Finish(Remove(s, id, false), f, false);
    hide RemoveUnder;
    assert t.v.manifests[f] == s.flights[f] && id !in t.v.manifests;
    hide Inv, Delete;
    if Inv(t.v) { CompletedHasParent(t.v, f); }
  }

  lemma CompletedHasParent(v: Vault, id: string)
    requires Inv(v) && IsCompleted(v, id) && v.manifests[id].kind.Incremental?
    ensures v.manifests[id].parent.Some? && v.manifests[id].parent.value in v.manifests
  {
    assert Healthy(v, id);
  }

  /** The manifest an undisturbed create leaves is the one it carries in flight. */
  lemma CreatedIsOutcome(v: Vault, id: string, cfg: Config)
    requires cfg.diskPaths != []
    ensures id in Create(v, id, cfg, NoFault).manifests
    ensures Create(v, id, cfg, NoFault).manifests[id] == Outcome(v, id, cfg, None)
  {
    hide Execute, RemoveUnder, SourceContents;
  }

  lemma NothingDepends(v: Vault, content: Clusters, full: string)
    requires Fresh(v, full)
    ensures !HasDependent(WithFull(v, content, full), full)
  {
    hide PathOf, Under;
  }

  /** The FULL backup is there, and the INCREMENTAL in flight stands on it. */
  lemma FlightOnFull(v: Vault, src: string, content: Clusters, full: string, inc: string)
    requires Inv(v) && Fresh(v, full) && Fresh(v, inc) && full != inc
    requires OutsideBackups(v, src) && src in v.files && v.files[src] == Qcow(content, None)
    ensures Create(v, full, PlainFull(src), NoFault) == WithFull(v, content, full)
    ensures Inv(Create(WithFull(v, content, full), inc, PlainIncremental(src, full), NoFault.(manifestFails := true)))
    ensures var m := Outcome(WithFull(v, content, full), inc, PlainIncremental(src, full), None); m.id == inc && Claims(m, full)
  {
    var v1 := WithFull(v, content, full);
    var cfg := PlainIncremental(src, full);
    AfterFull(v, src, content, full);
    AfterPair(v, src, content, full, inc);
    FreshAfterNew(v, content, "", "", full, inc);
    hide Inv, Create, Outcome, PathOf, Fresh, OutsideBackups, OneDiskParent, Chain, Content, WithFull;
    CreatedIsOutcome(v1, inc, cfg);
    CreateKeepsInv(v1, inc, cfg, NoFault.(manifestFails := true));
  }

  /** An INCREMENTAL begins, its parent is deleted, it finishes: the guard saw no dependent. */
  lemma ParentGoesMidway(v: Vault, src: string, content: Clusters, full: string, inc: string)
    requires Inv(v) && Fresh(v, full) && Fresh(v, inc) && full != inc
    requires OutsideBackups(v, src) && src in v.files && v.files[src] == Qcow(content, None)
    ensures var s := Begin(Host(Create(v, full, PlainFull(src), NoFault), map[]), inc, PlainIncremental(src, full), NoFault);
      var t := Finish(Remove(s, full, false), inc, false);
      && Inv(s.v) && Delete(s.v, full, false).1.Deleted?
      && IsCompleted(t.v, inc) && t.v.manifests[inc].parent == Some(full) && full !in t.v.manifests && !Inv(t.v)
  {
    var v1 := WithFull(v, content, full);
    var cfg := PlainIncremental(src, full);
    FlightOnFull(v, src, content, full, inc);
    NothingDepends(v, content, full);
    CreateIsLate(v1, inc, cfg, NoFault);
    hide Inv, Create, Outcome, PathOf, Fresh, OutsideBackups;
    var s := Begin(Host(v1, map[]), inc, cfg, NoFault);
    assert s.v.manifests == v1.manifests && full in v1.manifests;
    ClaimIsLost(s, inc, full);
  }
}
