/**
 Retention: age out the oldest backups of a schedule, rescue the ancestors of the kept ones,
 and sweep the rest leaf-first while single deletes may fail.
 */
module Retention {
  import opened Wrappers
  import opened StableSort
  import opened BackupChains
  import opened BackupNames
  import opened BackupServices
  import opened BackupInvariant

  const OldestFirst: Manifest -> int := (m: Manifest) => m.createdAt

  type ById = map<string, Manifest>

  // ----- parent links within a set -----

  /** The parent a backup of the set names, if that is a backup of the set too. */
  function ParentIn(byId: ById, id: string): Option<string> {
    if id in byId && byId[id].parent.Some? && byId[id].parent.value in byId then byId[id].parent else None
  }

  function NthAncestor(byId: ById, id: string, n: nat): Option<string> {
    if n == 0 then Some(id)
    else
      var below := NthAncestor(byId, id, n - 1);
      if below.None? then None else ParentIn(byId, below.value)
  }

  /** `a` is `id` or one of its ancestors. */
  ghost predicate IsAncestorOrSelf(byId: ById, a: string, id: string) {
    exists n: nat :: NthAncestor(byId, id, n) == Some(a)
  }

  lemma AncestorStep(byId: ById, a: string, id: string)
    requires IsAncestorOrSelf(byId, a, id) && ParentIn(byId, a).Some?
    ensures IsAncestorOrSelf(byId, ParentIn(byId, a).value, id)
  {
    var n: nat :| NthAncestor(byId, id, n) == Some(a);
    assert NthAncestor(byId, id, n + 1) == ParentIn(byId, a);
  }

  lemma SelfIsAncestor(byId: ById, id: string)
    ensures IsAncestorOrSelf(byId, id, id)
  {
    assert NthAncestor(byId, id, 0) == Some(id);
  }

  /** With every backup its parent within the set belongs to `safe`. */
  ghost predicate Closed(byId: ById, safe: set<string>) {
    forall id :: id in safe && ParentIn(byId, id).Some? ==> ParentIn(byId, id).value in safe
  }

  lemma {:induction false} ClosedHoldsAncestors(byId: ById, safe: set<string>, id: string, n: nat)
    requires Closed(byId, safe) && id in safe && NthAncestor(byId, id, n).Some?
    ensures NthAncestor(byId, id, n).value in safe
  {
    if n > 0 { ClosedHoldsAncestors(byId, safe, id, n - 1); }
  }

  // ----- rescue -----

  /** A parent-closed set around the kept backup holds exactly its ancestors. */
  lemma SeenIsAncestors(byId: ById, seen: set<string>, keptId: string)
    requires keptId in seen && Closed(byId, seen)
    requires forall x :: x in seen && x in byId ==> IsAncestorOrSelf(byId, x, keptId)
    ensures forall x :: x in byId ==> (x in seen <==> IsAncestorOrSelf(byId, x, keptId))
  {
    forall x | x in byId && IsAncestorOrSelf(byId, x, keptId) ensures x in seen {
      var n: nat :| NthAncestor(byId, keptId, n) == Some(x);
      ClosedHoldsAncestors(byId, seen, keptId, n);
    }
  }

  /** Follows parent links upwards from one kept backup; a parent seen before ends the walk. */
  method Rescue(byId: ById, keptId: string, ageOutIds: set<string>) returns (left: set<string>)
    requires keptId in byId && keptId !in ageOutIds && ageOutIds <= byId.Keys
    ensures forall x :: x in left <==> x in ageOutIds && !IsAncestorOrSelf(byId, x, keptId)
  {
    left := ageOutIds;
    var id := keptId;
    var seen := {keptId};
    SelfIsAncestor(byId, keptId);
    while id in byId && byId[id].parent.Some?
      invariant id in seen && keptId in seen
      invariant left == ageOutIds - seen
      invariant forall s :: s in seen && s != id && ParentIn(byId, s).Some? ==> ParentIn(byId, s).value in seen
      invariant forall s :: s in seen && s in byId ==> IsAncestorOrSelf(byId, s, keptId)
      invariant forall s :: s in seen && s != id ==> s in byId
      decreases byId.Keys - seen, id in byId
    {
      var parent := byId[id].parent.value;
      if parent in seen {
        break;
      }
      if parent in byId { AncestorStep(byId, id, keptId); }
      seen := seen + {parent};
      left := left - {parent};
      id := parent;
    }
    SeenIsAncestors(byId, seen, keptId);
  }

  // ----- sweep -----

  ghost predicate HasChild(byId: ById, id: string, ids: set<string>) {
    exists c :: c in ids && c in byId && byId[c].parent == Some(id)
  }

  /** Everyone in the set has a child in the set, as on a cycle of links. */
  ghost predicate Knot(byId: ById, ids: set<string>) {
    forall id :: id in ids ==> HasChild(byId, id, ids)
  }

  function IdsOf(ms: seq<Manifest>): set<string> {
    set m | m in ms :: m.id
  }

  predicate HasChildIn(toDelete: seq<Manifest>, id: string, ids: set<string>) {
    exists i :: 0 <= i < |toDelete| && toDelete[i].id in ids && toDelete[i].parent == Some(id)
  }

  ghost predicate KnotIn(toDelete: seq<Manifest>, ids: set<string>) {
    forall id :: id in ids ==> HasChildIn(toDelete, id, ids)
  }

  lemma NoLeafInKnot(toDelete: seq<Manifest>, ids: set<string>, id: string, pending: set<string>)
    requires KnotIn(toDelete, ids) && ids <= pending && !HasChildIn(toDelete, id, pending)
    ensures ids <= pending - {id}
  {
  }

  ghost predicate WellKeyed(manifests: ById) {
    forall id :: id in manifests ==> manifests[id].id == id
  }

  /** Only backups of the list depend on backups of the list. */
  ghost predicate NoOutsideDependents(manifests: ById, toDelete: seq<Manifest>) {
    forall b :: b in manifests && manifests[b].parent.Some? && manifests[b].parent.value in IdsOf(toDelete)
      ==> b in IdsOf(toDelete)
  }

  /** What a sweep did: whose delete threw, and who was never tried. */
  datatype Sweep = Sweep(thrown: set<string>, untried: set<string>)

  /** Another backup in the store, and not in `pending`, names the backup as its parent. */
  ghost predicate DependedOn(now: ById, pending: set<string>, id: string) {
    exists b :: b in now && b !in pending && now[b].parent == Some(id) && b != id
  }

  /**
   The store holds what it held before, without the deleted backups. A delete threw only on a fault or
   for a dependent that stays; whoever was deleted had neither.
   */
  ghost predicate Swept(before: ById, now: ById, ids: set<string>, faults: set<string>, s: Sweep) {
    && s.thrown <= ids && s.untried <= ids && s.thrown !! s.untried
    && now == before - (ids - s.thrown - s.untried)
    && (forall id :: id in s.thrown ==> id in faults || DependedOn(now, s.untried, id))
    && (forall id :: id in ids - s.thrown - s.untried ==> id !in faults && !DependedOn(now, {}, id))
  }

  predicate IsListed(toDelete: seq<Manifest>, before: ById) {
    forall m :: m in toDelete ==> m.id in before && before[m.id] == m
  }

  /** No pending backup of the list depends on the leaf, so whoever does is not pending. */
  lemma LeafDependents(now: ById, before: ById, toDelete: seq<Manifest>, id: string, faults: set<string>, s: Sweep)
    requires IsListed(toDelete, before) && Swept(before, now, IdsOf(toDelete), faults, s)
    requires id in IdsOf(toDelete) && !HasChildIn(toDelete, id, s.untried)
    ensures forall b :: b in now && now[b].parent == Some(id) ==> b !in s.untried
  {
    forall b | b in now && b in s.untried ensures now[b].parent != Some(id) {
      assert b in before && before[b] == now[b];
      var m :| m in toDelete && m.id == b;
      var i :| 0 <= i < |toDelete| && toDelete[i] == m;
      assert toDelete[i].id in s.untried && toDelete[i].parent == now[b].parent;
    }
  }

  /** While nothing has thrown, whoever depends on a listed backup is still pending itself. */
  lemma NoDependentLeft(now: ById, before: ById, toDelete: seq<Manifest>, id: string, faults: set<string>, s: Sweep)
    requires IsListed(toDelete, before) && Swept(before, now, IdsOf(toDelete), faults, s)
    requires NoOutsideDependents(before, toDelete) && s.thrown == {}
    requires id in IdsOf(toDelete) && !HasChildIn(toDelete, id, s.untried)
    ensures forall b :: b in now ==> now[b].parent != Some(id)
  {
    LeafDependents(now, before, toDelete, id, faults, s);
    forall b | b in now && b !in s.untried ensures now[b].parent != Some(id) {
      assert b in before && before[b] == now[b] && b !in IdsOf(toDelete);
    }
  }

  /** The attempt threw. */
  lemma SweptThrown(before: ById, now: ById, ids: set<string>, faults: set<string>, s: Sweep, id: string)
    requires Swept(before, now, ids, faults, s) && id in s.untried
    requires id in faults || DependedOn(now, s.untried, id)
    ensures Swept(before, now, ids, faults, Sweep(s.thrown + {id}, s.untried - {id}))
  {
    var t := Sweep(s.thrown + {id}, s.untried - {id});
    assert ids - t.thrown - t.untried == ids - s.thrown - s.untried;
    forall x | x in t.thrown ensures x in faults || DependedOn(now, t.untried, x) {
      if x !in faults {
        var b :| b in now && b !in s.untried && now[b].parent == Some(x) && b != x;
        assert b !in t.untried;
      }
    }
  }

  /** The attempt deleted the backup. */
  lemma SweptDeleted(before: ById, now: ById, ids: set<string>, faults: set<string>, s: Sweep, id: string)
    requires Swept(before, now, ids, faults, s) && id in s.untried
    requires id !in faults && !DependedOn(now, {}, id)
    ensures Swept(before, now - {id}, ids, faults, Sweep(s.thrown, s.untried - {id}))
  {
    var t := Sweep(s.thrown, s.untried - {id});
    assert ids - t.thrown - t.untried == (ids - s.thrown - s.untried) + {id};
    forall x | x in t.thrown ensures x in faults || DependedOn(now - {id}, t.untried, x) {
      if x !in faults {
        var b :| b in now && b !in s.untried && now[b].parent == Some(x) && b != x;
        assert b in now - {id} && b !in t.untried;
      }
    }
    forall x | x in ids - t.thrown - t.untried ensures x !in faults && !DependedOn(now - {id}, {}, x) {
      if DependedOn(now - {id}, {}, x) {
        var b :| b in now - {id} && (now - {id})[b].parent == Some(x) && b != x;
        assert b in now && now[b].parent == Some(x);
        assert DependedOn(now, {}, x);
      }
    }
  }

  /** One attempt on a backup without pending dependents; `faults` are the ids whose removal fails on I/O. */
  method TryDelete(
    service: BackupService, toDelete: seq<Manifest>, backup: Manifest, faults: set<string>,
    ghost before: ById, ghost s: Sweep)
    returns (deleted: bool, ghost s': Sweep)
    requires WellKeyed(before) && IsListed(toDelete, before)
    requires Swept(before, service.manifests, IdsOf(toDelete), faults, s)
    requires backup in toDelete && backup.id in s.untried && !HasChildIn(toDelete, backup.id, s.untried)
    requires PlainlyNamed(service.Snapshot())
    modifies service`manifests, service`files
    ensures PlainlyNamed(service.Snapshot())
    ensures s' == Sweep(if deleted then s.thrown else s.thrown + {backup.id}, s.untried - {backup.id})
    ensures Swept(before, service.manifests, IdsOf(toDelete), faults, s')
    ensures NoOutsideDependents(before, toDelete) && s.thrown == {} && backup.id !in faults ==> deleted
    ensures Inv(old(service.Snapshot())) ==> Inv(service.Snapshot())
  {
    ghost var v := service.Snapshot();
    ghost var ids, id := IdsOf(toDelete), backup.id;
    LeafDependents(v.manifests, before, toDelete, id, faults, s);
    GuardIsDependedOn(v, before, ids, faults, s, id);
    if Inv(v) { DeleteKeepsInv(v, id, id in faults); }
    if NoOutsideDependents(before, toDelete) && s.thrown == {} {
      NoDependentLeft(v.manifests, before, toDelete, id, faults, s);
    }
    PlainDelete(v, id, id in faults);
    var outcome := service.DeleteBackup(backup.id, AllOrNothing(backup.id in faults));
    deleted := outcome.Deleted?;
    s' := Sweep(if deleted then s.thrown else s.thrown + {id}, s.untried - {id});
    hide Swept, DependedOn, IdsOf, NoOutsideDependents, Inv, PlainlyNamed;
    if deleted {
      SweptDeleted(before, v.manifests, ids, faults, s, id);
    } else {
      SweptThrown(before, v.manifests, ids, faults, s, id);
    }
  }

  lemma PlainDelete(v: Vault, id: string, ioFails: bool)
    requires PlainlyNamed(v) && id in v.manifests
    ensures DeleteNamed(v, id, AllOrNothing(ioFails)) == Delete(v, id, ioFails) && PlainlyNamed(Delete(v, id, ioFails).0)
  {
    NamedDeleteIsDelete(v, id, ioFails);
  }

  /** The guard of a delete looks for exactly the dependents meant here. */
  lemma GuardIsDependedOn(v: Vault, before: ById, ids: set<string>, faults: set<string>, s: Sweep, id: string)
    requires WellKeyed(before) && Swept(before, v.manifests, ids, faults, s) && id in s.untried && id in before
    requires forall b :: b in v.manifests && v.manifests[b].parent == Some(id) ==> b !in s.untried
    ensures id in v.manifests
    ensures HasDependent(v, id) <==> DependedOn(v.manifests, {}, id)
    ensures HasDependent(v, id) <==> DependedOn(v.manifests, s.untried, id)
  {
    assert forall b :: b in v.manifests ==> b in before && v.manifests[b] == before[b] && v.manifests[b].id == b;
    if HasDependent(v, id) {
      var b :| b in v.manifests && v.manifests[b].parent == Some(id) && v.manifests[b].id != id;
      assert b !in s.untried && b != id;
    }
  }

  lemma BeginSweep(before: ById, ids: set<string>, faults: set<string>)
    ensures Swept(before, before, ids, faults, Sweep({}, ids))
  {
    assert ids - {} - ids == {};
    assert before - {} == before;
  }

  /** Whoever is pending has a child that is pending or threw. */
  ghost predicate Stuck(toDelete: seq<Manifest>, pending: set<string>, thrown: set<string>) {
    forall id :: id in pending ==> HasChildIn(toDelete, id, pending + thrown)
  }

  ghost predicate KnotsPending(toDelete: seq<Manifest>, pending: set<string>) {
    forall ids :: ids <= IdsOf(toDelete) && KnotIn(toDelete, ids) ==> ids <= pending
  }

  lemma KnotsStay(toDelete: seq<Manifest>, pending: set<string>, id: string)
    requires KnotsPending(toDelete, pending) && !HasChildIn(toDelete, id, pending)
    ensures KnotsPending(toDelete, pending - {id})
  {
    forall ids | ids <= IdsOf(toDelete) && KnotIn(toDelete, ids) ensures ids <= pending - {id} {
      NoLeafInKnot(toDelete, ids, id, pending);
    }
  }

  lemma AllStuck(toDelete: seq<Manifest>, pending: set<string>, thrown: set<string>)
    requires pending <= IdsOf(toDelete)
    requires forall j :: 0 <= j < |toDelete| && toDelete[j].id in pending ==> HasChildIn(toDelete, toDelete[j].id, pending + thrown)
    ensures Stuck(toDelete, pending, thrown)
  {
    forall id | id in pending ensures HasChildIn(toDelete, id, pending + thrown) {
      var m :| m in toDelete && m.id == id;
      var j :| 0 <= j < |toDelete| && toDelete[j] == m;
    }
  }

  /** One pass over the list: tries every pending backup without pending dependents. */
  method SweepPass(
    service: BackupService, toDelete: seq<Manifest>, ghost before: ById, remaining0: set<string>, faults: set<string>,
    ghost s0: Sweep)
    returns (remaining: set<string>, progressed: bool, ghost s: Sweep)
    requires WellKeyed(before) && IsListed(toDelete, before)
    requires Swept(before, service.manifests, IdsOf(toDelete), faults, s0) && s0.untried == remaining0
    requires KnotsPending(toDelete, remaining0)
    requires NoOutsideDependents(before, toDelete) && IdsOf(toDelete) !! faults ==> s0.thrown == {}
    requires PlainlyNamed(service.Snapshot())
    modifies service`manifests, service`files
    ensures PlainlyNamed(service.Snapshot())
    ensures Swept(before, service.manifests, IdsOf(toDelete), faults, s) && s.untried == remaining <= remaining0
    ensures KnotsPending(toDelete, remaining)
    ensures if progressed then remaining != remaining0 else Stuck(toDelete, remaining, s.thrown)
    ensures NoOutsideDependents(before, toDelete) && IdsOf(toDelete) !! faults ==> s.thrown == {}
    ensures Inv(old(service.Snapshot())) ==> Inv(service.Snapshot())
  {
    hide Inv, Swept, KnotsPending, NoOutsideDependents, IdsOf, WellKeyed, PlainlyNamed;
    remaining, progressed, s := remaining0, false, s0;
    for n := 0 to |toDelete|
      invariant remaining <= remaining0 && (progressed ==> remaining != remaining0)
      invariant s.untried == remaining && Swept(before, service.manifests, IdsOf(toDelete), faults, s)
      invariant KnotsPending(toDelete, remaining)
      invariant !progressed ==> forall j :: 0 <= j < n && toDelete[j].id in remaining ==>
                  HasChildIn(toDelete, toDelete[j].id, remaining + s.thrown)
      invariant NoOutsideDependents(before, toDelete) && IdsOf(toDelete) !! faults ==> s.thrown == {}
      invariant PlainlyNamed(service.Snapshot())
      invariant Inv(old(service.Snapshot())) ==> Inv(service.Snapshot())
    {
      var backup := toDelete[n];
      if backup.id in remaining {
        if HasChildIn(toDelete, backup.id, remaining) {
          assert HasChildIn(toDelete, backup.id, remaining + s.thrown);
        } else {
          KnotsStay(toDelete, remaining, backup.id);
          SweptUntried(before, service.manifests, IdsOf(toDelete), faults, s);
          ghost var reach := remaining + s.thrown;
          var deleted;
          deleted, s := TryDelete(service, toDelete, backup, faults, before, s);
          remaining := remaining - {backup.id};
          if deleted { progressed := true; } else { assert remaining + s.thrown == reach; }
        }
      }
    }
    if !progressed {
      assert remaining <= IdsOf(toDelete) by { SweptUntried(before, service.manifests, IdsOf(toDelete), faults, s); }
      AllStuck(toDelete, remaining, s.thrown);
    }
  }

  lemma SweptUntried(before: ById, now: ById, ids: set<string>, faults: set<string>, s: Sweep)
    requires Swept(before, now, ids, faults, s)
    ensures s.untried <= ids
  {
  }

  /** Passes over the list, deleting backups no pending backup depends on, until a pass deletes nothing. */
  method SweepLeaves(service: BackupService, toDelete: seq<Manifest>, faults: set<string>) returns (ghost s: Sweep)
    requires WellKeyed(service.manifests)
    requires IsListed(toDelete, service.manifests)
    requires PlainlyNamed(service.Snapshot())
    modifies service`manifests, service`files
    ensures PlainlyNamed(service.Snapshot())
    ensures Swept(old(service.manifests), service.manifests, IdsOf(toDelete), faults, s)
    ensures Stuck(toDelete, s.untried, s.thrown) && KnotsPending(toDelete, s.untried)
    ensures NoOutsideDependents(old(service.manifests), toDelete) && IdsOf(toDelete) !! faults ==> s.thrown == {}
    ensures Inv(old(service.Snapshot())) ==> Inv(service.Snapshot())
  {
    ghost var before := service.manifests;
    var remaining := IdsOf(toDelete);
    BeginSweep(before, remaining, faults);
    s := Sweep({}, remaining);
    var progressed := true;
    while remaining != {} && progressed
      invariant s.untried == remaining && Swept(before, service.manifests, IdsOf(toDelete), faults, s)
      invariant KnotsPending(toDelete, remaining)
      invariant !progressed ==> Stuck(toDelete, remaining, s.thrown)
      invariant NoOutsideDependents(before, toDelete) && IdsOf(toDelete) !! faults ==> s.thrown == {}
      invariant PlainlyNamed(service.Snapshot())
      invariant Inv(old(service.Snapshot())) ==> Inv(service.Snapshot())
      decreases remaining, progressed
    {
      remaining, progressed, s := SweepPass(service, toDelete, before, remaining, faults, s);
    }
  }

  // ----- one schedule -----

  /** `retentionCount` newest backups of the schedule are to stay. */
  datatype Schedule = Schedule(id: string, retentionCount: nat)

  predicate OfSchedule(schedule: Schedule, m: Manifest) {
    "scheduled" in m.tags && schedule.id in m.tags
  }

  /** The backups of one schedule. */
  function ScheduledIn(manifests: ById, schedule: Schedule): ById {
    map id | id in manifests && OfSchedule(schedule, manifests[id]) :: manifests[id]
  }

  /** `kept` are the newest backups: all of them, or `count`. */
  ghost predicate Newest(byId: ById, kept: set<string>, count: nat) {
    && kept <= byId.Keys && |kept| == (if |byId| <= count then |byId| else count)
    && forall k, id :: k in kept && id in byId && id !in kept ==> byId[id].createdAt <= byId[k].createdAt
  }

  /** What no kept backup is built on, directly or not. */
  ghost function Expendable(byId: ById, kept: set<string>): set<string> {
    set id | id in byId && forall k :: k in kept ==> !IsAncestorOrSelf(byId, id, k)
  }

  /** What enforcing retention leaves behind. */
  ghost predicate Enforced(before: ById, now: ById, byId: ById, kept: set<string>, faults: set<string>, s: Sweep) {
    && Swept(before, now, Expendable(byId, kept), faults, s)
    && (forall id :: id in s.untried ==> HasChild(byId, id, s.untried + s.thrown))
    && forall ids :: ids <= Expendable(byId, kept) && Knot(byId, ids) ==> ids <= s.untried
  }

  ghost predicate OnlyListedDepend(manifests: ById, ids: set<string>) {
    forall b :: b in manifests && manifests[b].parent.Some? && manifests[b].parent.value in ids ==> b in ids
  }

  predicate Lists(ms: seq<Manifest>, byId: ById) {
    && DistinctIds(ms)
    && (forall m :: m in ms ==> m.id in byId && byId[m.id] == m)
    && (forall id :: id in byId ==> byId[id] in ms)
  }

  lemma {:induction false} DistinctFiltered(ms: seq<Manifest>, p: Manifest -> bool)
    requires DistinctIds(ms)
    ensures DistinctIds(Filter(ms, p))
  {
    if ms != [] {
      var rest := ms[1..];
      DistinctFiltered(rest, p);
      var kept := Filter(rest, p);
      forall i | 0 <= i < |kept| ensures kept[i].id != ms[0].id {
        assert kept[i] in kept;
        FilterMember(rest, p, kept[i]);
        var j :| 0 <= j < |rest| && rest[j] == kept[i];
        assert ms[j + 1] == rest[j];
      }
    }
  }

  lemma IdsOfCons(ms: seq<Manifest>)
    requires ms != [] && DistinctIds(ms)
    ensures IdsOf(ms) == {ms[0].id} + IdsOf(ms[1..]) && ms[0].id !in IdsOf(ms[1..]) && DistinctIds(ms[1..])
  {
    var rest := ms[1..];
    assert ms == [ms[0]] + rest;
    forall m | m in rest ensures m.id != ms[0].id {
      var j :| 0 <= j < |rest| && rest[j] == m;
      assert ms[j + 1] == m;
    }
  }

  lemma {:induction false} DistinctCount(ms: seq<Manifest>)
    requires DistinctIds(ms)
    ensures |IdsOf(ms)| == |ms|
  {
    if ms != [] {
      IdsOfCons(ms);
      DistinctCount(ms[1..]);
      hide IdsOf, DistinctIds;
    } else {
      assert IdsOf(ms) == {};
    }
  }

  /** Cutting a list sorted by age in two: no id on both sides, and the tail is not older. */
  lemma CutByAge(sorted: seq<Manifest>, n: nat, a: Manifest, b: Manifest)
    requires DistinctIds(sorted) && Sorted(sorted, OldestFirst) && n <= |sorted|
    requires a in sorted[..n] && b in sorted[n..]
    ensures a.id != b.id && a.createdAt <= b.createdAt
  {
    var i :| 0 <= i < n && sorted[..n][i] == a;
    var j :| 0 <= j < |sorted| - n && sorted[n..][j] == b;
    assert OldestFirst(sorted[i]) <= OldestFirst(sorted[n + j]);
  }

  /** The tail of the list sorted by age is the newest part. */
  lemma TailIsNewest(sorted: seq<Manifest>, byId: ById, n: nat)
    requires Lists(sorted, byId) && Sorted(sorted, OldestFirst) && (forall id :: id in byId ==> byId[id].id == id)
    requires 0 < n <= |sorted|
    ensures Newest(byId, IdsOf(sorted[n..]), |sorted| - n)
    ensures IdsOf(sorted[..n]) == byId.Keys - IdsOf(sorted[n..])
  {
    var older, newer := sorted[..n], sorted[n..];
    assert sorted == older + newer;
    ListCount(sorted, byId);
    assert DistinctIds(newer);
    DistinctCount(newer);
    forall m | m in newer ensures m.id in byId { assert m in sorted; }
    forall id | id in byId ensures id in IdsOf(older) <==> id !in IdsOf(newer) {
      Sides(sorted, byId, n, id);
    }
    forall k, id | k in IdsOf(newer) && id in byId && id !in IdsOf(newer) ensures byId[id].createdAt <= byId[k].createdAt {
      Sides(sorted, byId, n, id);
      Sides(sorted, byId, n, k);
      CutByAge(sorted, n, byId[id], byId[k]);
    }
  }

  /** A backup lies on exactly one side of the cut. */
  lemma Sides(sorted: seq<Manifest>, byId: ById, n: nat, id: string)
    requires Lists(sorted, byId) && Sorted(sorted, OldestFirst) && id in byId && byId[id].id == id && n <= |sorted|
    ensures byId[id] in sorted[..n] <==> id in IdsOf(sorted[..n])
    ensures byId[id] in sorted[n..] <==> id in IdsOf(sorted[n..])
    ensures id in IdsOf(sorted[..n]) <==> id !in IdsOf(sorted[n..])
  {
    assert sorted == sorted[..n] + sorted[n..];
    assert byId[id] in sorted;
    forall m | m in sorted && m.id == id ensures m == byId[id] {}
    forall a, b | a in sorted[..n] && b in sorted[n..] ensures a.id != b.id { CutByAge(sorted, n, a, b); }
  }

  /** Takes every ancestor of a kept backup out of the aged-out set. */
  method RescueAll(byId: ById, kept: set<string>, ageOut: set<string>) returns (left: set<string>)
    requires kept <= byId.Keys && ageOut == byId.Keys - kept
    ensures left == Expendable(byId, kept)
  {
    left := ageOut;
    var todo := kept;
    while todo != {}
      invariant todo <= kept
      invariant forall x :: x in left <==> x in ageOut && forall k :: k in kept - todo ==> !IsAncestorOrSelf(byId, x, k)
      decreases todo
    {
      var keptId :| keptId in todo;
      left := Rescue(byId, keptId, left);
      todo := todo - {keptId};
    }
    forall k | k in kept ensures IsAncestorOrSelf(byId, k, k) { SelfIsAncestor(byId, k); }
  }

  /** The sweep of the listed backups is the sweep of the set. */
  lemma ListedSweep(before: ById, byId: ById, toDelete: seq<Manifest>, ids: set<string>, s: Sweep)
    requires IdsOf(toDelete) == ids && forall m :: m in toDelete ==> m.id in byId && byId[m.id] == m
    requires Stuck(toDelete, s.untried, s.thrown) && KnotsPending(toDelete, s.untried)
    ensures forall id :: id in s.untried ==> HasChild(byId, id, s.untried + s.thrown)
    ensures forall knot :: knot <= ids && Knot(byId, knot) ==> knot <= s.untried
    ensures NoOutsideDependents(before, toDelete) <==> OnlyListedDepend(before, ids)
  {
    forall id | id in s.untried ensures HasChild(byId, id, s.untried + s.thrown) {
      var i :| 0 <= i < |toDelete| && toDelete[i].id in s.untried + s.thrown && toDelete[i].parent == Some(id);
      assert toDelete[i] in toDelete;
    }
    hide Stuck, HasChild, NoOutsideDependents, OnlyListedDepend;
    forall knot | knot <= ids && Knot(byId, knot) ensures knot <= s.untried {
      KnotIsListed(byId, toDelete, ids, knot);
    }
    hide Knot, KnotsPending;
    SameDependents(before, toDelete, ids);
  }

  lemma KnotIsListed(byId: ById, toDelete: seq<Manifest>, ids: set<string>, knot: set<string>)
    requires IdsOf(toDelete) == ids && forall m :: m in toDelete ==> m.id in byId && byId[m.id] == m
    requires knot <= ids && Knot(byId, knot)
    ensures KnotIn(toDelete, knot)
  {
    hide HasChild, HasChildIn, IdsOf;
    forall id | id in knot ensures HasChildIn(toDelete, id, knot) { ChildIsListed(byId, toDelete, knot, id); }
  }

  lemma ChildIsListed(byId: ById, toDelete: seq<Manifest>, knot: set<string>, id: string)
    requires (forall m :: m in toDelete ==> m.id in byId && byId[m.id] == m) && knot <= IdsOf(toDelete)
    requires HasChild(byId, id, knot)
    ensures HasChildIn(toDelete, id, knot)
  {
    var c :| c in knot && c in byId && byId[c].parent == Some(id);
    assert c in IdsOf(toDelete);
    var m :| m in toDelete && m.id == c;
    var i :| 0 <= i < |toDelete| && toDelete[i] == m;
  }

  lemma SameDependents(before: ById, toDelete: seq<Manifest>, ids: set<string>)
    requires IdsOf(toDelete) == ids
    ensures NoOutsideDependents(before, toDelete) <==> OnlyListedDepend(before, ids)
  {
    hide IdsOf;
  }

  /** The schedule's backups, oldest first. */
  method ScheduledOldestFirst(service: BackupService, schedule: Schedule) returns (sorted: seq<Manifest>)
    requires WellKeyed(service.manifests)
    ensures Lists(sorted, ScheduledIn(service.manifests, schedule)) && Sorted(sorted, OldestFirst)
  {
    var backups := service.ListBackups();
    var mine := m => OfSchedule(schedule, m);
    var scheduled := Filter(backups, mine);
    sorted := SortBy(scheduled, OldestFirst);
    DistinctFiltered(backups, mine);
    SortDistinctIds(scheduled, OldestFirst);
    SortPermutes(scheduled, OldestFirst);
    forall m ensures m in sorted <==> m in backups && mine(m) {
      SortMember(scheduled, OldestFirst, m);
      FilterMember(backups, mine, m);
    }
  }

  /** The backups to delete: all but the newest ones and their ancestors. */
  method SelectExpired(service: BackupService, schedule: Schedule) returns (toDelete: seq<Manifest>, ghost kept: set<string>)
    requires WellKeyed(service.manifests)
    ensures Newest(ScheduledIn(service.manifests, schedule), kept, schedule.retentionCount)
    ensures IsListed(toDelete, ScheduledIn(service.manifests, schedule))
    ensures IdsOf(toDelete) == Expendable(ScheduledIn(service.manifests, schedule), kept)
  {
    var byId := ScheduledIn(service.manifests, schedule);
    var sorted := ScheduledOldestFirst(service, schedule);
    ListCount(sorted, byId);
    if |sorted| <= schedule.retentionCount {
      toDelete, kept := [], byId.Keys;
      NothingExpendable(byId);
      hide Expendable, NthAncestor, IsAncestorOrSelf, Sorted;
      return;
    }
    var n := |sorted| - schedule.retentionCount;
    TailIsNewest(sorted, byId, n);
    hide Newest, NthAncestor, IsAncestorOrSelf, Sorted, Expendable;
    var keptIds := IdsOf(sorted[n..]);
    kept := keptIds;
    var ageOut := RescueAll(byId, keptIds, IdsOf(sorted[..n]));
    var aged := (m: Manifest) => m.id in ageOut;
    toDelete := Filter(sorted, aged);
    forall m ensures m in toDelete <==> m in sorted && m.id in ageOut { FilterMember(sorted, aged, m); }
    PickedIds(sorted, byId, toDelete, ageOut);
  }

  lemma NothingExpendable(byId: ById)
    ensures Expendable(byId, byId.Keys) == {}
  {
    forall id | id in byId ensures IsAncestorOrSelf(byId, id, id) { SelfIsAncestor(byId, id); }
  }

  lemma PickedIds(sorted: seq<Manifest>, byId: ById, picked: seq<Manifest>, ids: set<string>)
    requires Lists(sorted, byId) && ids <= byId.Keys && forall id :: id in byId ==> byId[id].id == id
    requires forall m :: m in picked <==> m in sorted && m.id in ids
    ensures IdsOf(picked) == ids
  {
    forall id | id in ids ensures id in IdsOf(picked) { assert byId[id] in picked && byId[id].id == id; }
  }

  /** A backup that lacks one of the schedule's two tags is still there, as it was. */
  ghost predicate UntaggedStay(before: ById, now: ById, scheduleId: string) {
    forall id :: id in before && !("scheduled" in before[id].tags && scheduleId in before[id].tags) ==>
      id in now && now[id] == before[id]
  }

  /** Of the backups that carry both tags the newest `count`, or all of them, are still there as they were. */
  ghost predicate NewestTaggedStay(before: ById, now: ById, scheduleId: string, count: nat, kept: set<string>) {
    var tagged := set id | id in before && "scheduled" in before[id].tags && scheduleId in before[id].tags;
    && kept <= tagged && |kept| == (if |tagged| <= count then |tagged| else count)
    && (forall k, id :: k in kept && id in tagged && id !in kept ==> before[id].createdAt <= before[k].createdAt)
    && forall k :: k in kept ==> k in now && now[k] == before[k]
  }

  lemma TagsDecide(before: ById, now: ById, schedule: Schedule, kept: set<string>, faults: set<string>, s: Sweep)
    requires Newest(ScheduledIn(before, schedule), kept, schedule.retentionCount)
    requires Enforced(before, now, ScheduledIn(before, schedule), kept, faults, s)
    ensures UntaggedStay(before, now, schedule.id)
    ensures NewestTaggedStay(before, now, schedule.id, schedule.retentionCount, kept)
  {
    var byId := ScheduledIn(before, schedule);
    var gone := Expendable(byId, kept) - s.thrown - s.untried;
    assert now == before - gone;
    KeptNotExpendable(byId, kept);
    assert gone <= byId.Keys;
    TaggedIds(before, schedule);
    hide Expendable, Enforced, DependedOn, ScheduledIn, OfSchedule, Newest, UntaggedStay, NewestTaggedStay;
    UntaggedDecide(before, now, schedule.id, byId, gone);
    NewestDecide(before, now, schedule, byId, kept, gone);
  }

  lemma UntaggedDecide(before: ById, now: ById, scheduleId: string, byId: ById, gone: set<string>)
    requires now == before - gone && gone <= byId.Keys
    requires forall id :: id in byId ==> id in before && "scheduled" in before[id].tags && scheduleId in before[id].tags
    ensures UntaggedStay(before, now, scheduleId)
  {
  }

  lemma NewestDecide(before: ById, now: ById, schedule: Schedule, byId: ById, kept: set<string>, gone: set<string>)
    requires now == before - gone && gone !! kept && Newest(byId, kept, schedule.retentionCount)
    requires forall id :: id in byId <==> id in before && "scheduled" in before[id].tags && schedule.id in before[id].tags
    requires forall id :: id in byId ==> byId[id] == before[id]
    requires |byId| == |set id | id in before && "scheduled" in before[id].tags && schedule.id in before[id].tags|
    ensures NewestTaggedStay(before, now, schedule.id, schedule.retentionCount, kept)
  {
  }

  lemma TaggedIds(before: ById, schedule: Schedule)
    ensures forall id :: id in ScheduledIn(before, schedule) <==>
              id in before && "scheduled" in before[id].tags && schedule.id in before[id].tags
    ensures forall id :: id in ScheduledIn(before, schedule) ==> ScheduledIn(before, schedule)[id] == before[id]
    ensures |ScheduledIn(before, schedule)|
         == |set id | id in before && "scheduled" in before[id].tags && schedule.id in before[id].tags|
  {
    var byId := ScheduledIn(before, schedule);
    var tagged := set id | id in before && "scheduled" in before[id].tags && schedule.id in before[id].tags;
    assert byId.Keys == tagged && |byId| == |byId.Keys|;
  }

  lemma KeptNotExpendable(byId: ById, kept: set<string>)
    ensures forall k :: k in kept ==> k !in Expendable(byId, kept)
  {
    forall k | k in kept ensures k !in Expendable(byId, kept) { SelfIsAncestor(byId, k); }
  }

  /** Enforcing one schedule leaves the backups that carry another schedule's id and not this one's. */
  lemma OtherSchedulesStay(before: ById, now: ById, scheduleId: string, id: string)
    requires UntaggedStay(before, now, scheduleId) && id in before && scheduleId !in before[id].tags
    ensures id in now && now[id] == before[id]
  {
  }

  /** Deletes the schedule's oldest backups beyond the retention count, except ancestors of kept ones. */
  method EnforceRetention(service: BackupService, schedule: Schedule, faults: set<string>)
    returns (ghost kept: set<string>, ghost s: Sweep)
    requires WellKeyed(service.manifests) && PlainlyNamed(service.Snapshot())
    modifies service`manifests, service`files
    ensures UntaggedStay(old(service.manifests), service.manifests, schedule.id)
    ensures NewestTaggedStay(old(service.manifests), service.manifests, schedule.id, schedule.retentionCount, kept)
    ensures Newest(ScheduledIn(old(service.manifests), schedule), kept, schedule.retentionCount)
    ensures Enforced(old(service.manifests), service.manifests, ScheduledIn(old(service.manifests), schedule), kept, faults, s)
    ensures s.thrown == {} || !OnlyListedDepend(old(service.manifests), Expendable(ScheduledIn(old(service.manifests), schedule), kept))
            || !(Expendable(ScheduledIn(old(service.manifests), schedule), kept) !! faults)
    ensures Inv(old(service.Snapshot())) ==> Inv(service.Snapshot())
    ensures Inv(old(service.Snapshot())) && s.thrown == {} ==>
              service.manifests == old(service.manifests) - Expendable(ScheduledIn(old(service.manifests), schedule), kept)
  {
    ghost var v := service.Snapshot();
    ghost var byId := ScheduledIn(service.manifests, schedule);
    hide Inv, PlainlyNamed, Newest, Expendable, Swept, KnotsPending, Stuck, OnlyListedDepend, NoOutsideDependents, IdsOf;
    var toDelete;
    toDelete, kept := SelectExpired(service, schedule);
    s := SweepLeaves(service, toDelete, faults);
    ListedSweep(v.manifests, byId, toDelete, Expendable(byId, kept), s);
    TagsDecide(v.manifests, service.manifests, schedule, kept, faults, s);
    hide UntaggedStay, NewestTaggedStay;
    if Inv(v) && s.thrown == {} {
      LinksAcyclic(v, schedule);
      ExactSurvivors(v.manifests, service.manifests, byId, kept, faults, s);
    }
  }

  lemma ListCount(ms: seq<Manifest>, byId: ById)
    requires Lists(ms, byId) && forall id :: id in byId ==> byId[id].id == id
    ensures |byId| == |ms|
  {
    DistinctCount(ms);
    assert IdsOf(ms) == byId.Keys by {
      forall id | id in byId ensures id in IdsOf(ms) { assert byId[id] in ms && byId[id].id == id; }
    }
    assert |byId| == |byId.Keys|;
  }

  // ----- what follows for the survivors -----

  /** No backup is its own ancestor. */
  ghost predicate Acyclic(byId: ById) {
    forall id, n: nat :: id in byId && n > 0 ==> NthAncestor(byId, id, n) != Some(id)
  }

  lemma {:induction false} AncestorOfParent(byId: ById, id: string, n: nat)
    requires ParentIn(byId, id).Some?
    ensures NthAncestor(byId, id, n + 1) == NthAncestor(byId, ParentIn(byId, id).value, n)
  {
    if n == 0 {
      assert NthAncestor(byId, id, 0) == Some(id);
    } else {
      AncestorOfParent(byId, id, n - 1);
    }
  }

  /** Nothing aged out of a kept backup's line is deleted, whatever the links and failures. */
  lemma KeptLinesSurvive(before: ById, now: ById, byId: ById, kept: set<string>, faults: set<string>, s: Sweep, k: string, a: string)
    requires Enforced(before, now, byId, kept, faults, s) && k in kept && IsAncestorOrSelf(byId, a, k) && a in before
    ensures a in now && now[a] == before[a]
  {
  }

  /** Each backup of the line names the next as its parent, all of them backups of the schedule. */
  predicate IsLine(byId: ById, line: seq<string>) {
    && line != [] && (forall k :: 0 <= k < |line| ==> line[k] in byId)
    && forall k :: 0 <= k < |line| - 1 ==> byId[line[k]].parent == Some(line[k + 1])
  }

  lemma {:induction false} LineLeads(byId: ById, line: seq<string>, k: nat)
    requires IsLine(byId, line) && k < |line|
    ensures NthAncestor(byId, line[0], k) == Some(line[k])
  {
    if k > 0 { LineLeads(byId, line, k - 1); }
  }

  lemma {:induction false} LineOf(byId: ById, id: string, n: nat) returns (line: seq<string>)
    requires id in byId && NthAncestor(byId, id, n).Some?
    ensures IsLine(byId, line) && |line| == n + 1 && line[0] == id && line[n] == NthAncestor(byId, id, n).value
  {
    if n == 0 {
      line := [id];
    } else {
      var above := LineOf(byId, id, n - 1);
      line := above + [NthAncestor(byId, id, n).value];
    }
  }

  /** What may go is exactly what lies on no line of parents that starts at a kept backup. */
  lemma ExpendableIff(byId: ById, kept: set<string>, id: string)
    requires kept <= byId.Keys
    ensures id in Expendable(byId, kept)
      <==> id in byId && forall line :: IsLine(byId, line) && line[0] in kept ==> id !in line
  {
    if id in byId && id !in Expendable(byId, kept) {
      var k :| k in kept && IsAncestorOrSelf(byId, id, k);
      var n: nat :| NthAncestor(byId, k, n) == Some(id);
      var line := LineOf(byId, k, n);
      assert IsLine(byId, line) && line[0] in kept && id in line;
    }
    forall line | IsLine(byId, line) ensures forall x :: x in line ==> IsAncestorOrSelf(byId, x, line[0]) {
      LineOfAncestors(byId, line);
    }
    hide IsAncestorOrSelf, NthAncestor;
  }

  lemma LineOfAncestors(byId: ById, line: seq<string>)
    requires IsLine(byId, line)
    ensures forall x :: x in line ==> IsAncestorOrSelf(byId, x, line[0])
  {
    forall x | x in line ensures IsAncestorOrSelf(byId, x, line[0]) {
      var k: nat :| k < |line| && line[k] == x;
      LineLeads(byId, line, k);
    }
  }

  ghost predicate ProperAncestor(byId: ById, a: string, id: string) {
    exists n: nat :: n > 0 && NthAncestor(byId, id, n) == Some(a)
  }

  lemma ProperAncestorOfChild(byId: ById, a: string, id: string, child: string)
    requires ParentIn(byId, child) == Some(id) && (a == id || ProperAncestor(byId, a, id))
    ensures ProperAncestor(byId, a, child)
  {
    var n: nat :| NthAncestor(byId, id, n) == Some(a) && (a == id ==> n == 0);
    AncestorOfParent(byId, child, n);
    assert NthAncestor(byId, child, n + 1) == Some(a);
  }

  /** Going down from an untried backup one reaches a descendant whose own delete threw. */
  lemma {:induction false} UntriedLeadsToThrown(byId: ById, s: Sweep, id: string, above: set<string>) returns (t: string)
    requires Acyclic(byId) && id in s.untried && s.untried <= byId.Keys && above <= s.untried && id !in above
    requires forall x :: x in s.untried ==> HasChild(byId, x, s.untried + s.thrown)
    requires forall x :: x in above ==> ProperAncestor(byId, x, id)
    ensures t in s.thrown && IsAncestorOrSelf(byId, id, t)
    decreases s.untried - above
  {
    var c :| c in s.untried + s.thrown && c in byId && byId[c].parent == Some(id);
    assert ParentIn(byId, c) == Some(id);
    var below := above + {id};
    forall x | x in below ensures ProperAncestor(byId, x, c) { ProperAncestorOfChild(byId, x, id, c); }
    assert c !in below;
    if c in s.thrown {
      t := c;
      ProperAncestorOfChild(byId, id, id, c);
    } else {
      t := UntriedLeadsToThrown(byId, s, c, below);
      var n: nat :| NthAncestor(byId, t, n) == Some(c);
      assert NthAncestor(byId, t, n + 1) == Some(id);
    }
  }

  /** On acyclic links an extra survivor threw, or is an ancestor of one that did. */
  lemma ExtraSurvivors(before: ById, now: ById, byId: ById, kept: set<string>, faults: set<string>, s: Sweep, id: string)
    requires Enforced(before, now, byId, kept, faults, s) && Acyclic(byId)
    requires id in now && id in Expendable(byId, kept)
    ensures exists t :: t in s.thrown && IsAncestorOrSelf(byId, id, t)
  {
    if id in s.thrown {
      SelfIsAncestor(byId, id);
    } else {
      var t := UntriedLeadsToThrown(byId, s, id, {});
    }
  }

  /** Without faults the survivors are exactly the newest backups and their ancestors. */
  lemma ExactSurvivors(before: ById, now: ById, byId: ById, kept: set<string>, faults: set<string>, s: Sweep)
    requires Enforced(before, now, byId, kept, faults, s) && Acyclic(byId) && s.thrown == {}
    ensures now == before - Expendable(byId, kept)
  {
    forall id | id in s.untried ensures false {
      var t := UntriedLeadsToThrown(byId, s, id, {});
      assert false;
    }
    assert s.untried == {};
  }

  /** Links never form a cycle, over any run of creates and deletes, failed backups included. */
  lemma LinksAcyclic(v: Vault, schedule: Schedule)
    requires Inv(v)
    ensures Acyclic(ScheduledIn(v.manifests, schedule))
  {
    var byId := ScheduledIn(v.manifests, schedule);
    forall id, n: nat | id in byId && n > 0 ensures NthAncestor(byId, id, n) != Some(id) {
      AncestorsAreOlder(v, schedule, id, n);
    }
  }

  lemma {:induction false} AncestorsAreOlder(v: Vault, schedule: Schedule, id: string, n: nat)
    requires Inv(v) && id in ScheduledIn(v.manifests, schedule)
    ensures var byId := ScheduledIn(v.manifests, schedule); var a := NthAncestor(byId, id, n);
      a.Some? && n > 0 ==> a.value in byId && byId[a.value].createdAt < byId[id].createdAt
  {
    if n > 0 {
      AncestorsAreOlder(v, schedule, id, n - 1);
      assert LinksOlder(v);
    }
  }

  /** In general what remains beside them is the largest knot of links: its members wait for each other. */
  lemma SurvivorsWithCycles(before: ById, now: ById, byId: ById, kept: set<string>, faults: set<string>, s: Sweep)
    requires Enforced(before, now, byId, kept, faults, s) && s.thrown == {}
    ensures now == before - (Expendable(byId, kept) - s.untried)
    ensures Knot(byId, s.untried) && s.untried <= Expendable(byId, kept)
    ensures forall ids :: ids <= Expendable(byId, kept) && Knot(byId, ids) ==> ids <= s.untried
  {
    assert s.untried + s.thrown == s.untried;
  }
}
