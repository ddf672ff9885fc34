/**
 Several firewall services on one host. The kernel's chains are shared, each service remembers hashes of its
 own, and `applyRules` and `flushVMRules` change a chain without touching any hash.
 */
module RuleInstances {
  import opened Wrappers
  import opened FirewallRules
  import opened Nft
  import opened RuleCompiler
  import opened FirewallMeaning
  import opened FirewallPolicy
  import opened RuleCache

  datatype Shared = Shared(chains: Chains, caches: seq<map<string, RuleKey>>)

  datatype SharedOp =
    | Cached(i: nat, op: Op)
    | Direct(request: Request, fate: Fate)
    | Flush(vm: string, fails: bool)

  /** What service `i` sees. */
  function View(s: Shared, i: nat): State
    requires i < |s.caches|
  {
    State(s.chains, s.caches[i])
  }

  predicate Exists(s: Shared, op: SharedOp) {
    op.Cached? ==> op.i < |s.caches|
  }

  function SharedStep(h: Host, s: Shared, op: SharedOp): (t: Shared)
    requires Exists(s, op)
    ensures |t.caches| == |s.caches|
  {
    match op
    case Cached(i, o) =>
      var t := Step(h, View(s, i), o);
      Shared(t.chains, s.caches[i := t.cache])
    case Direct(r, fate) => s.(chains := Apply(h, State(s.chains, map[]), r, fate).chains)
    case Flush(vm, fails) =>
      if fails || h.chainName(vm) !in s.chains then s else s.(chains := s.chains[h.chainName(vm) := []])
  }

  /** The VM whose chain the step may replace. */
  function VmOf(op: SharedOp): string {
    match op
    case Cached(_, OpApply(r, _)) => r.vm
    case Cached(_, OpEnsure(vm, _)) => vm
    case Cached(_, OpRemove(vm, _)) => vm
    case Cached(_, OpLose(_)) => ""
    case Direct(r, _) => r.vm
    case Flush(vm, _) => vm
  }

  /** What `applyRules` leaves in the chain, if it changes it. */
  function Applied(h: Host, chains: Chains, r: Request, fate: Fate): Option<seq<seq<string>>> {
    match fate
    case Fine => Some(ChainOf(KeyOf(h, r), r.tap))
    case CreateFailed => None
    case TransactionFailed => if h.chainName(r.vm) in chains then None else Some([])
  }

  /** What the step puts into the VM's chain, if it puts something there. */
  function Replacement(h: Host, s: Shared, op: SharedOp): Option<seq<seq<string>>>
    requires Exists(s, op)
  {
    match op
    case Cached(i, OpApply(r, fate)) => if CacheHit(h, View(s, i), r) then None else Applied(h, s.chains, r, fate)
    case Cached(_, OpEnsure(vm, fate)) => if h.chainName(vm) in s.chains || !fate.Fine? then None else Some([])
    case Cached(_, OpRemove(vm, left)) => if h.chainName(vm) in s.chains && left.OnlyFlushed? then Some([]) else None
    case Cached(_, OpLose(_)) => None
    case Direct(r, fate) => Applied(h, s.chains, r, fate)
    case Flush(vm, fails) => if fails || h.chainName(vm) !in s.chains then None else Some([])
  }

  /** Every service's hashes are in step with the chains. */
  ghost predicate AllCoherent(h: Host, taps: string -> string, s: Shared) {
    forall i :: 0 <= i < |s.caches| ==> Coherent(h, taps, View(s, i))
  }

  /** If the step replaces the VM's chain, no other service remembers rules that render another chain. */
  ghost predicate Harmless(h: Host, taps: string -> string, s: Shared, op: SharedOp)
    requires Exists(s, op)
  {
    Replacement(h, s, op).Some? ==>
      forall j :: 0 <= j < |s.caches| && !(op.Cached? && op.i == j) && VmOf(op) in s.caches[j] ==>
        ChainOf(s.caches[j][VmOf(op)], taps(VmOf(op))) == Replacement(h, s, op).value
  }

  /** The step is good for its own service and harmless to the others. */
  ghost predicate GoodShared(h: Host, taps: string -> string, s: Shared, op: SharedOp) {
    && Exists(s, op) && Harmless(h, taps, s, op)
    && (op.Cached? ==> GoodStep(h, taps, View(s, op.i), op.op))
  }

  // ----- one step -----

  /** Some chains are gone; one may have been replaced. */
  ghost predicate Replaced(h: Host, before: Chains, now: Chains, vm: string, content: Option<seq<seq<string>>>) {
    if content.Some? then now == before[h.chainName(vm) := content.value]
    else forall c :: c in now ==> c in before && now[c] == before[c]
  }

  lemma AppliedReplaces(h: Host, s: State, r: Request, fate: Fate)
    ensures Replaced(h, s.chains, Apply(h, s, r, fate).chains, r.vm, Applied(h, s.chains, r, fate))
  {
    hide ChainOf, KeyOf;
  }

  lemma StepReplaces(h: Host, s: Shared, op: SharedOp)
    requires Exists(s, op)
    ensures Replaced(h, s.chains, SharedStep(h, s, op).chains, VmOf(op), Replacement(h, s, op))
  {
    hide ChainOf, KeyOf, AllWellFormed, Applied, Apply;
    match op {
      case Cached(i, o) => if o.OpApply? { AppliedReplaces(h, View(s, i), o.request, o.fate); }
      case Direct(r, fate) => AppliedReplaces(h, State(s.chains, map[]), r, fate);
      case Flush(_, _) =>
    }
  }

  /** A service that did not act stays in step exactly when it does not remember other rules for the replaced chain. */
  lemma BystanderIff(
    h: Host, taps: string -> string, before: Chains, now: Chains, cache: map<string, RuleKey>, vm: string,
    content: Option<seq<seq<string>>>)
    requires ValidHost(h) && Coherent(h, taps, State(before, cache)) && Replaced(h, before, now, vm, content)
    ensures Coherent(h, taps, State(now, cache))
      <==> (content.Some? && vm in cache ==> ChainOf(cache[vm], taps(vm)) == content.value)
  {
    hide ChainOf, IsWord;
    if content.Some? && vm in cache { assert now[h.chainName(vm)] == content.value; }
  }

  /** A service that acted stays in step exactly when its own step was good. */
  lemma ActorIff(h: Host, taps: string -> string, s: State, op: Op)
    requires ValidHost(h) && Coherent(h, taps, s)
    ensures Coherent(h, taps, Step(h, s, op)) <==> GoodStep(h, taps, s, op)
  {
    hide ValidHost, Coherent, CacheHit, Guarded, ApplyIfChanged;
    if op.OpApply? { ApplyKeepsCoherentIff(h, taps, s, op.request, op.fate); } else { StepKeepsCoherent(h, taps, s, op); }
  }

  /** One step of one service keeps all of them in step with the kernel exactly when it is good. */
  lemma SharedKeepsCoherentIff(h: Host, taps: string -> string, s: Shared, op: SharedOp)
    requires ValidHost(h) && AllCoherent(h, taps, s) && Exists(s, op)
    ensures AllCoherent(h, taps, SharedStep(h, s, op)) <==> GoodShared(h, taps, s, op)
  {
    var t := SharedStep(h, s, op);
    StepReplaces(h, s, op);
    hide ValidHost, Coherent, GoodStep, Replaced, Replacement, Step, ChainOf;
    forall j | 0 <= j < |s.caches|
      ensures Coherent(h, taps, View(t, j))
        <==> if op.Cached? && op.i == j then GoodStep(h, taps, View(s, j), op.op)
             else Replacement(h, s, op).Some? && VmOf(op) in s.caches[j] ==>
                    ChainOf(s.caches[j][VmOf(op)], taps(VmOf(op))) == Replacement(h, s, op).value
    {
      assert Coherent(h, taps, View(s, j));
      if op.Cached? && op.i == j {
        ActorIff(h, taps, View(s, j), op.op);
      } else {
        BystanderIff(h, taps, s.chains, t.chains, s.caches[j], VmOf(op), Replacement(h, s, op));
      }
    }
  }

  // ----- runs -----

  ghost predicate SharedReaches(h: Host, taps: string -> string, s: Shared, ops: seq<SharedOp>, t: Shared)
    decreases |ops|
  {
    if ops == [] then s == t
    else GoodShared(h, taps, s, ops[0]) && SharedReaches(h, taps, SharedStep(h, s, ops[0]), ops[1..], t)
  }

  /** Over every run of good steps, of any services, all hashes stay in step with the kernel. */
  lemma {:induction false} SharedRunKeepsCoherent(h: Host, taps: string -> string, s: Shared, ops: seq<SharedOp>, t: Shared)
    requires ValidHost(h) && AllCoherent(h, taps, s) && SharedReaches(h, taps, s, ops, t)
    ensures AllCoherent(h, taps, t)
    decreases |ops|
  {
    if ops != [] {
      assert Exists(s, ops[0]);
      hide ValidHost, AllCoherent, GoodShared, SharedStep;
      SharedKeepsCoherentIff(h, taps, s, ops[0]);
      SharedRunKeepsCoherent(h, taps, SharedStep(h, s, ops[0]), ops[1..], t);
    }
  }

  /** After such a run every service's cached apply does what an unconditional one would, up to the TAP. */
  lemma AnyServiceRefinesApply(
    h: Host, taps: string -> string, chains: Chains, n: nat, ops: seq<SharedOp>, t: Shared, i: nat, r: Request)
    requires ValidHost(h) && SharedReaches(h, taps, Shared(chains, seq(n, _ => map[])), ops, t) && i < |t.caches|
    ensures var s := View(t, i);
      ApplyIfChanged(h, s, r, Fine).chains == Apply(h, s, r, Fine).chains <==> !CacheHit(h, s, r) || TapFits(h, taps, r)
  {
    var start := Shared(chains, seq(n, _ => map[]));
    assert AllCoherent(h, taps, start);
    SharedRunKeepsCoherent(h, taps, start, ops, t);
    assert Coherent(h, taps, View(t, i));
    hide Coherent, AllCoherent, SharedReaches, ValidHost, Apply, ApplyIfChanged, CacheHit, TapFits;
    CachedApplyAt(h, taps, View(t, i), r);
  }

  // ----- one service for each VM -----

  /** Only the service that looks after a VM remembers its rules. */
  ghost predicate Divided(s: Shared, owner: string -> nat) {
    forall j, vm :: 0 <= j < |s.caches| && vm in s.caches[j] ==> owner(vm) == j
  }

  /** When every VM is left to one service, that service's steps harm no other. */
  lemma DividedIsHarmless(h: Host, taps: string -> string, s: Shared, owner: string -> nat, op: SharedOp)
    requires Exists(s, op) && Divided(s, owner) && op.Cached? && (op.op.OpLose? || owner(VmOf(op)) == op.i)
    ensures Harmless(h, taps, s, op) && Divided(SharedStep(h, s, op), owner)
  {
    hide ChainOf, KeyOf, AllWellFormed;
    var t := SharedStep(h, s, op);
    forall j, vm | 0 <= j < |t.caches| && vm in t.caches[j] ensures owner(vm) == j {
      if j != op.i { assert t.caches[j] == s.caches[j]; }
    }
  }

  // ----- two services for one VM -----

  lemma NoRulesAccept(conntrack: bool, tap: string, p: Packet)
    requires ValidPacket(p) && p.oif == tap && p.ctState == "new"
    ensures EvalChain(CompiledChain([], [], conntrack, false, tap), p) == Decided(Accept)
  {
    EstablishedRuleApplies(tap, p);
    var rules := AllRules([], [], conntrack);
    assert rules == AutoRules(conntrack);
    hide WellFormed, Matches;
    assert forall j :: 0 <= j < |rules| ==> !Applies(tap, p)(rules[j]);
    CompilePreservesMeaning([], [], conntrack, false, tap, p);
  }

  /** Service `i` applies, service `j` applies other rules, and the next apply of `i` is skipped over them. */
  lemma OtherServiceIsOverlooked(h: Host, s: Shared, i: nat, j: nat, mine: Request, other: Request)
    requires i < |s.caches| && j < |s.caches| && i != j && mine.vm == other.vm
    requires mine.vm !in s.caches[i] && mine.vm !in s.caches[j] && AllWellFormed(KeyOf(h, mine).rules)
    ensures var s1 := SharedStep(h, s, Cached(i, OpApply(mine, Fine)));
      var s2 := SharedStep(h, s1, Cached(j, OpApply(other, Fine)));
      var s3 := SharedStep(h, s2, Cached(i, OpApply(mine, Fine)));
      && CacheHit(h, View(s2, i), mine)
      && h.chainName(mine.vm) in s3.chains && s3.chains[h.chainName(mine.vm)] == ChainOf(KeyOf(h, other), other.tap)
  {
    hide ChainOf, AllWellFormed, KeyOf, Step;
    AppliedFine(h, View(s, i), mine);
    var s1 := SharedStep(h, s, Cached(i, OpApply(mine, Fine)));
    AppliedFine(h, View(s1, j), other);
    var s2 := SharedStep(h, s1, Cached(j, OpApply(other, Fine)));
    AppliedHit(h, View(s2, i), mine);
  }

  /** One service drops everything, another clears the rules, the first is asked again: new traffic is accepted. */
  lemma OverlookedChainAccepts(h: Host, s: Shared, i: nat, j: nat, vm: string, tap: string, p: Packet)
    requires i < |s.caches| && j < |s.caches| && i != j && vm !in s.caches[i] && vm !in s.caches[j]
    requires ValidPacket(p) && p.oif == tap && p.ctState == "new"
    ensures var good, none := Permissive(vm, tap, [DropAll]), Permissive(vm, tap, []);
      var s1 := SharedStep(h, s, Cached(i, OpApply(good, Fine)));
      var s2 := SharedStep(h, s1, Cached(j, OpApply(none, Fine)));
      var s3 := SharedStep(h, s2, Cached(i, OpApply(good, Fine)));
      && EvalChain(CompiledChain(good.deptRules, good.vmRules, h.conntrack, good.dropByDefault, good.tap), p) == Decided(Drop)
      && h.chainName(vm) in s3.chains && EvalChain(s3.chains[h.chainName(vm)], p) == Decided(Accept)
  {
    var good, none := Permissive(vm, tap, [DropAll]), Permissive(vm, tap, []);
    DropAllDecides(h.conntrack, tap, p);
    NoRulesAccept(h.conntrack, tap, p);
    DropAllWellFormed(h, vm, tap);
    ChainOfKey(h, none);
    hide ChainOf, CompiledChain, AllWellFormed, KeyOf, SharedStep, EvalChain, WellFormed;
    OtherServiceIsOverlooked(h, s, i, j, good, none);
  }
}
