/**
 The rule-hash cache of the firewall service: `applyRulesIfChanged` against always
 applying, over runs that also create, remove and lose chains.
 The hash is the hashed value itself, so that equal hashes mean equal rules.
 */
module RuleCache {
  import opened StableSort
  import opened FirewallRules
  import opened Nft
  import opened RuleCompiler
  import opened RuleTranslator
  import opened FirewallMeaning
  import opened FirewallPolicy

  /** What `hashRules` digests: the default posture and the sorted rules, but not the TAP name. */
  datatype RuleKey = RuleKey(dropByDefault: bool, rules: seq<Rule>)

  /** A host: whether conntrack is available, and the chain name of each VM. */
  datatype Host = Host(conntrack: bool, chainName: string -> string)

  /** Chain names are plain words and tell VMs apart. */
  ghost predicate ValidHost(h: Host) {
    && (forall vm: string :: IsWord(h.chainName(vm)))
    && (forall vm: string, vm': string :: h.chainName(vm) == h.chainName(vm') ==> vm == vm')
  }

  datatype State = State(chains: Chains, cache: map<string, RuleKey>)

  /** How far the commands let an apply get: to the end, not past creating the chain, or to a rolled-back transaction. */
  datatype Fate = Fine | CreateFailed | TransactionFailed

  /** What the commands of a removal leave: nothing, an emptied chain, or the chain as it was. */
  datatype Removal = Removed | OnlyFlushed | Untouched

  datatype Request = Request(vm: string, tap: string, deptRules: seq<Rule>, vmRules: seq<Rule>, dropByDefault: bool)

  function KeyOf(h: Host, r: Request): RuleKey {
    RuleKey(r.dropByDefault, EffectiveRules(r.deptRules, r.vmRules, h.conntrack))
  }

  function ChainOf(key: RuleKey, tap: string): seq<seq<string>> {
    Bodies(key.rules, tap) + [TerminalWords(key.dropByDefault)]
  }

  predicate AllWellFormed(rules: seq<Rule>) {
    forall i :: 0 <= i < |rules| ==> WellFormed(rules[i])
  }

  // ----- steps -----

  /** `applyRules`: create the chain when it is missing, then replace its rules in one transaction. */
  function Apply(h: Host, s: State, r: Request, fate: Fate): State {
    var chain := h.chainName(r.vm);
    if fate.CreateFailed? then s
    else if fate.TransactionFailed? then
      if chain in s.chains then s else s.(chains := s.chains[chain := []])
    else s.(chains := s.chains[chain := ChainOf(KeyOf(h, r), r.tap)])
  }

  predicate CacheHit(h: Host, s: State, r: Request) {
    r.vm in s.cache && s.cache[r.vm] == KeyOf(h, r) && h.chainName(r.vm) in s.chains
  }

  /** `applyRulesIfChanged`; the hash is remembered when every rule was translated. */
  function ApplyIfChanged(h: Host, s: State, r: Request, fate: Fate): State {
    if CacheHit(h, s, r) then s
    else
      var s' := Apply(h, s, r, fate);
      if fate.Fine? && AllWellFormed(KeyOf(h, r).rules) then s'.(cache := s'.cache[r.vm := KeyOf(h, r)]) else s'
  }

  /** `ensureVMChain`: a chain that had to be created invalidates the remembered hash. */
  function EnsureChain(h: Host, s: State, vm: string, fate: Fate): State {
    if h.chainName(vm) in s.chains || !fate.Fine? then s
    else State(s.chains[h.chainName(vm) := []], s.cache - {vm})
  }

  /** `removeVMChain`: best effort on the chain, and always forgets the hash. */
  function RemoveChain(h: Host, s: State, vm: string, left: Removal): State {
    var chain := h.chainName(vm);
    State(
      if chain !in s.chains || left.Untouched? then s.chains
      else if left.OnlyFlushed? then s.chains[chain := []]
      else s.chains - {chain},
      s.cache - {vm})
  }

  /** Somebody else deletes a chain. */
  function LoseChain(s: State, chain: string): State {
    s.(chains := s.chains - {chain})
  }

  datatype Op =
    | OpApply(request: Request, fate: Fate)
    | OpEnsure(vm: string, ensureFate: Fate)
    | OpRemove(vm: string, left: Removal)
    | OpLose(chain: string)

  function Step(h: Host, s: State, op: Op): State {
    match op
    case OpApply(r, fate) => ApplyIfChanged(h, s, r, fate)
    case OpEnsure(vm, fate) => EnsureChain(h, s, vm, fate)
    case OpRemove(vm, left) => RemoveChain(h, s, vm, left)
    case OpLose(chain) => LoseChain(s, chain)
  }

  function Run(h: Host, s: State, ops: seq<Op>): State
    decreases |ops|
  {
    if ops == [] then s else Run(h, Step(h, s, ops[0]), ops[1..])
  }

  // ----- coherence -----

  /** Wherever a hash is remembered and the chain exists, the chain is the one the hash stands for. */
  ghost predicate Coherent(h: Host, taps: string -> string, s: State) {
    forall vm :: vm in s.cache && h.chainName(vm) in s.chains ==>
      s.chains[h.chainName(vm)] == ChainOf(s.cache[vm], taps(vm))
  }

  // ----- chains for different TAPs -----

  predicate NoneInstallable(rules: seq<Rule>) {
    forall i :: 0 <= i < |rules| ==> !WellFormed(rules[i])
  }

  lemma TapIsSecondWord(r: Rule, tap: string)
    requires Translate(r, tap).Ok?
    ensures |Translate(r, tap).value| >= 2 && Translate(r, tap).value[1] == tap
  {
    hide Validate, ProtocolWords, AddressWords, PortWords, StateWords, Comment;
  }

  /** The lines of a rule name the TAP, if there are any. */
  lemma BodiesOfTap(r: Rule, t: string, u: string)
    ensures |BodiesOf(r, t)| == |BodiesOf(r, u)|
    ensures BodiesOf(r, t) == BodiesOf(r, u) <==> t == u || !WellFormed(r)
  {
    AllLinesOrNone(r, t);
    AllLinesOrNone(r, u);
    if WellFormed(r) {
      var one := if r.direction == "INOUT" then r.(direction := "IN") else r;
      assert BodiesOf(r, t)[0] == Translate(one, t).value && BodiesOf(r, u)[0] == Translate(one, u).value;
      TapIsSecondWord(one, t);
      TapIsSecondWord(one, u);
    }
  }

  lemma {:induction false} BodiesTap(rules: seq<Rule>, t: string, u: string)
    ensures |Bodies(rules, t)| == |Bodies(rules, u)|
    ensures Bodies(rules, t) == Bodies(rules, u) <==> t == u || NoneInstallable(rules)
  {
    if rules != [] {
      BodiesOfTap(rules[0], t, u);
      BodiesTap(rules[1..], t, u);
      hide BodiesOf, WellFormed;
      var a, b := BodiesOf(rules[0], t), BodiesOf(rules[0], u);
      assert (a + Bodies(rules[1..], t))[..|a|] == a && (a + Bodies(rules[1..], t))[|a|..] == Bodies(rules[1..], t);
      assert (b + Bodies(rules[1..], u))[..|b|] == b && (b + Bodies(rules[1..], u))[|b|..] == Bodies(rules[1..], u);
      assert NoneInstallable(rules) <==> !WellFormed(rules[0]) && NoneInstallable(rules[1..]);
    }
  }

  /** The chains of one rule list for two TAPs are the same only if no rule can be installed. */
  lemma ChainsEqualIff(key: RuleKey, t: string, u: string)
    ensures ChainOf(key, t) == ChainOf(key, u) <==> t == u || NoneInstallable(key.rules)
  {
    BodiesTap(key.rules, t, u);
    hide Bodies, TerminalWords, NoneInstallable;
    var a, b, last := Bodies(key.rules, t), Bodies(key.rules, u), TerminalWords(key.dropByDefault);
    assert (a + [last])[..|a|] == a && (b + [last])[..|b|] == b;
  }

  // ----- keeping the cache coherent -----

  /** The request names the VM's TAP, or has no rule to install on it. */
  predicate TapFits(h: Host, taps: string -> string, r: Request) {
    r.tap == taps(r.vm) || NoneInstallable(KeyOf(h, r).rules)
  }

  /**
   The guard of an apply that is not skipped: a full apply must be for the VM's TAP; a partial one must
   leave the chain of the hash that stays, if one stays; and with a hash remembered and the chain gone
   the transaction must not fail.
   */
  predicate Guarded(h: Host, taps: string -> string, s: State, r: Request, fate: Fate) {
    && (fate.Fine? ==>
          if AllWellFormed(KeyOf(h, r).rules) then TapFits(h, taps, r)
          else r.vm in s.cache ==> ChainOf(s.cache[r.vm], taps(r.vm)) == ChainOf(KeyOf(h, r), r.tap))
    && (fate.TransactionFailed? && r.vm in s.cache ==> h.chainName(r.vm) in s.chains)
  }

  /** One call of `applyRulesIfChanged` keeps the cache coherent exactly when it is a hit or guarded. */
  lemma ApplyKeepsCoherentIff(h: Host, taps: string -> string, s: State, r: Request, fate: Fate)
    requires ValidHost(h) && Coherent(h, taps, s)
    ensures Coherent(h, taps, ApplyIfChanged(h, s, r, fate)) <==> CacheHit(h, s, r) || Guarded(h, taps, s, r, fate)
  {
    ChainsEqualIff(KeyOf(h, r), r.tap, taps(r.vm));
    hide KeyOf, ChainOf, AllWellFormed, NoneInstallable, IsWord;
    var s' := ApplyIfChanged(h, s, r, fate);
    var chain := h.chainName(r.vm);
    forall vm | vm != r.vm && vm in s'.cache && h.chainName(vm) in s'.chains
      ensures s'.chains[h.chainName(vm)] == ChainOf(s'.cache[vm], taps(vm))
    {
      assert h.chainName(vm) != chain;
    }
    if r.vm in s'.cache && chain in s'.chains && fate.TransactionFailed? && chain !in s.chains {
      ChainNotEmpty(s.cache[r.vm], taps(r.vm));
    }
  }

  /** A skipped apply leaves the chain it was asked for exactly when the request names the VM's TAP or no rule. */
  lemma HitIsRightIff(h: Host, taps: string -> string, s: State, r: Request)
    requires Coherent(h, taps, s) && CacheHit(h, s, r)
    ensures s.chains[h.chainName(r.vm)] == CompiledChain(r.deptRules, r.vmRules, h.conntrack, r.dropByDefault, r.tap)
            <==> TapFits(h, taps, r)
  {
    ChainOfKey(h, r);
    ChainsEqualIff(KeyOf(h, r), r.tap, taps(r.vm));
    hide KeyOf, ChainOf, CompiledChain, NoneInstallable;
  }

  lemma ChainNotEmpty(key: RuleKey, tap: string)
    ensures ChainOf(key, tap) != []
  {
  }

  ghost predicate GoodStep(h: Host, taps: string -> string, s: State, op: Op) {
    op.OpApply? ==> CacheHit(h, s, op.request) || Guarded(h, taps, s, op.request, op.fate)
  }

  /** Every apply of the run is a hit or guarded where it happens. */
  ghost predicate GoodRun(h: Host, taps: string -> string, s: State, ops: seq<Op>)
    decreases |ops|
  {
    ops != [] ==>
      && GoodStep(h, taps, s, ops[0])
      && GoodRun(h, taps, Step(h, s, ops[0]), ops[1..])
  }

  lemma StepKeepsCoherent(h: Host, taps: string -> string, s: State, op: Op)
    requires ValidHost(h) && Coherent(h, taps, s)
    requires GoodStep(h, taps, s, op)
    ensures Coherent(h, taps, Step(h, s, op))
  {
    hide KeyOf, ChainOf, AllWellFormed, IsWord;
    if op.OpApply? { ApplyKeepsCoherentIff(h, taps, s, op.request, op.fate); }
  }

  lemma {:induction false} RunKeepsCoherent(h: Host, taps: string -> string, s: State, ops: seq<Op>)
    requires ValidHost(h) && Coherent(h, taps, s) && GoodRun(h, taps, s, ops)
    ensures Coherent(h, taps, Run(h, s, ops))
    decreases |ops|
  {
    hide ValidHost, Coherent, GoodStep, Step;
    if ops != [] {
      StepKeepsCoherent(h, taps, s, ops[0]);
      RunKeepsCoherent(h, taps, Step(h, s, ops[0]), ops[1..]);
    }
  }

  /**
   Over any good run from a fresh service, a cached apply leaves the kernel as an unconditional one would,
   unless it is skipped for a TAP that is not the VM's.
   */
  lemma CachedApplyRefinesApply(h: Host, taps: string -> string, chains: Chains, ops: seq<Op>, r: Request)
    requires ValidHost(h) && GoodRun(h, taps, State(chains, map[]), ops)
    ensures var s := Run(h, State(chains, map[]), ops);
            var compiled := CompiledChain(r.deptRules, r.vmRules, h.conntrack, r.dropByDefault, r.tap);
            && Apply(h, s, r, Fine).chains == s.chains[h.chainName(r.vm) := compiled]
            && (ApplyIfChanged(h, s, r, Fine).chains == Apply(h, s, r, Fine).chains
                <==> !CacheHit(h, s, r) || TapFits(h, taps, r))
  {
    hide GoodRun, ValidHost, Run, CompiledChain, Apply, ApplyIfChanged, CacheHit, TapFits;
    assert Coherent(h, taps, State(chains, map[]));
    RunKeepsCoherent(h, taps, State(chains, map[]), ops);
    hide Coherent;
    CachedApplyAt(h, taps, Run(h, State(chains, map[]), ops), r);
  }

  lemma CachedApplyAt(h: Host, taps: string -> string, s: State, r: Request)
    requires Coherent(h, taps, s)
    ensures var compiled := CompiledChain(r.deptRules, r.vmRules, h.conntrack, r.dropByDefault, r.tap);
            && Apply(h, s, r, Fine).chains == s.chains[h.chainName(r.vm) := compiled]
            && (ApplyIfChanged(h, s, r, Fine).chains == Apply(h, s, r, Fine).chains
                <==> !CacheHit(h, s, r) || TapFits(h, taps, r))
  {
    ChainOfKey(h, r);
    if CacheHit(h, s, r) { HitIsRightIff(h, taps, s, r); }
    hide KeyOf, ChainOf, CompiledChain, AllWellFormed, TapFits, Coherent;
    SameUpdate(s.chains, h.chainName(r.vm), CompiledChain(r.deptRules, r.vmRules, h.conntrack, r.dropByDefault, r.tap));
  }

  lemma SameUpdate(m: Chains, k: string, value: seq<seq<string>>)
    ensures m[k := value] == m <==> k in m && m[k] == value
  {
    if m[k := value] == m { assert m[k := value][k] == value; }
  }

  /** No fault, every rule translatable, one TAP per VM. */
  ghost predicate CleanRun(h: Host, taps: string -> string, ops: seq<Op>) {
    forall i :: 0 <= i < |ops| && ops[i].OpApply? ==>
      && ops[i].fate.Fine? && ops[i].request.tap == taps(ops[i].request.vm)
      && AllWellFormed(KeyOf(h, ops[i].request).rules)
  }

  lemma {:induction false} CleanRunIsGood(h: Host, taps: string -> string, s: State, ops: seq<Op>)
    requires CleanRun(h, taps, ops)
    ensures GoodRun(h, taps, s, ops)
    decreases |ops|
  {
    hide KeyOf, AllWellFormed, Step;
    if ops != [] {
      assert forall i :: 0 <= i < |ops[1..]| ==> ops[1..][i] == ops[i + 1];
      CleanRunIsGood(h, taps, Step(h, s, ops[0]), ops[1..]);
    }
  }

  // ----- what the guard excludes -----

  lemma RunFew(h: Host, s: State, a: Op, b: Op, c: Op, d: Op)
    ensures Run(h, s, [a, b]) == Step(h, Step(h, s, a), b)
    ensures Run(h, s, [a, b, c]) == Step(h, Step(h, Step(h, s, a), b), c)
    ensures Run(h, s, [a, b, c, d]) == Step(h, Step(h, Step(h, Step(h, s, a), b), c), d)
  {
    hide Step;
    RunOne(h, Step(h, s, a), b);
    assert [a, b][1..] == [b];
    var t := Step(h, Step(h, s, a), b);
    RunOne(h, t, c);
    assert [a, b, c][1..] == [b, c] && [b, c][1..] == [c];
    RunOne(h, Step(h, t, c), d);
    assert [a, b, c, d][1..] == [b, c, d] && [b, c, d][1..] == [c, d] && [c, d][1..] == [d];
    assert Run(h, t, [c, d]) == Run(h, Step(h, t, c), [d]);
    assert Run(h, Step(h, s, a), [b, c, d]) == Run(h, t, [c, d]);
  }

  lemma RunOne(h: Host, s: State, a: Op)
    ensures Run(h, s, [a]) == Step(h, s, a)
  {
    hide Step;
    assert [a][1..] == [];
    assert Run(h, Step(h, s, a), []) == Step(h, s, a);
  }

  lemma AppliedFine(h: Host, s: State, r: Request)
    requires r.vm in s.cache ==> s.cache[r.vm] != KeyOf(h, r)
    ensures var chains := s.chains[h.chainName(r.vm) := ChainOf(KeyOf(h, r), r.tap)];
            var cache := if AllWellFormed(KeyOf(h, r).rules) then s.cache[r.vm := KeyOf(h, r)] else s.cache;
            Step(h, s, OpApply(r, Fine)) == State(chains, cache)
  {
  }

  lemma AppliedFailed(h: Host, s: State, r: Request)
    requires h.chainName(r.vm) !in s.chains
    ensures Step(h, s, OpApply(r, TransactionFailed)) == s.(chains := s.chains[h.chainName(r.vm) := []])
  {
  }

  lemma AppliedHit(h: Host, s: State, r: Request)
    requires CacheHit(h, s, r)
    ensures Step(h, s, OpApply(r, Fine)) == s
  {
  }

  /**
   Good rules, then rules of which one does not translate, then the good rules again: the last
   call is skipped and the chain keeps the second rule set.
   */
  lemma StaleAfterPartialTranslation(h: Host, s: State, good: Request, bad: Request)
    requires good.vm == bad.vm && good.vm !in s.cache
    requires AllWellFormed(KeyOf(h, good).rules) && !AllWellFormed(KeyOf(h, bad).rules)
    ensures var s' := Run(h, s, [OpApply(good, Fine), OpApply(bad, Fine), OpApply(good, Fine)]);
            var chain := h.chainName(good.vm);
            chain in s'.chains && s'.chains[chain] == ChainOf(KeyOf(h, bad), bad.tap)
  {
    hide ChainOf, AllWellFormed, KeyOf, Step;
    AppliedFine(h, s, good);
    var s1 := Step(h, s, OpApply(good, Fine));
    AppliedFine(h, s1, bad);
    AppliedHit(h, Step(h, s1, OpApply(bad, Fine)), good);
    RunFew(h, s, OpApply(good, Fine), OpApply(bad, Fine), OpApply(good, Fine), OpApply(good, Fine));
  }

  /**
   The chain is lost, and the transaction that should restore it fails after the empty chain was
   created: the next call is skipped and the chain decides no packet.
   */
  lemma EmptyAfterFailedTransaction(h: Host, s: State, r: Request, p: Packet)
    requires r.vm !in s.cache && AllWellFormed(KeyOf(h, r).rules)
    ensures var chain := h.chainName(r.vm);
            var s' := Run(h, s, [OpApply(r, Fine), OpLose(chain), OpApply(r, TransactionFailed), OpApply(r, Fine)]);
            chain in s'.chains && s'.chains[chain] == [] && EvalChain(s'.chains[chain], p) == Continue
  {
    hide ChainOf, AllWellFormed, KeyOf, Step;
    var chain := h.chainName(r.vm);
    AppliedFine(h, s, r);
    var s1 := Step(h, s, OpApply(r, Fine));
    assert Step(h, s1, OpLose(chain)) == LoseChain(s1, chain) by { StepLose(h, s1, chain); }
    var s2 := LoseChain(s1, chain);
    AppliedFailed(h, s2, r);
    AppliedHit(h, Step(h, s2, OpApply(r, TransactionFailed)), r);
    RunFew(h, s, OpApply(r, Fine), OpLose(chain), OpApply(r, TransactionFailed), OpApply(r, Fine));
  }

  lemma StepLose(h: Host, s: State, chain: string)
    ensures Step(h, s, OpLose(chain)) == LoseChain(s, chain)
  {
  }

  /**
   The hash does not cover the TAP name: the same rules for another TAP are skipped, and the chain,
   which names the old TAP, is wrong unless there are no rules at all.
   */
  lemma TapChangeIsSkipped(h: Host, s: State, r: Request, tap: string)
    requires r.vm !in s.cache && AllWellFormed(KeyOf(h, r).rules) && tap != r.tap
    ensures var s' := Run(h, s, [OpApply(r, Fine), OpApply(r.(tap := tap), Fine)]);
            var chain := h.chainName(r.vm);
            && chain in s'.chains && s'.chains[chain] == ChainOf(KeyOf(h, r), r.tap)
            && (s'.chains[chain] == ChainOf(KeyOf(h, r), tap) <==> KeyOf(h, r).rules == [])
  {
    assert KeyOf(h, r.(tap := tap)) == KeyOf(h, r);
    ChainsEqualIff(KeyOf(h, r), r.tap, tap);
    assert NoneInstallable(KeyOf(h, r).rules) <==> KeyOf(h, r).rules == [] by { NoneOfAll(KeyOf(h, r).rules); }
    hide ChainOf, AllWellFormed, NoneInstallable, KeyOf, Step;
    AppliedFine(h, s, r);
    AppliedHit(h, Step(h, s, OpApply(r, Fine)), r.(tap := tap));
    RunFew(h, s, OpApply(r, Fine), OpApply(r.(tap := tap), Fine), OpApply(r, Fine), OpApply(r, Fine));
  }

  lemma NoneOfAll(rules: seq<Rule>)
    requires AllWellFormed(rules)
    ensures NoneInstallable(rules) <==> rules == []
  {
    hide WellFormed;
    if rules != [] { assert WellFormed(rules[0]); }
  }

  /** A VM rule list under default accept. */
  function Permissive(vm: string, tap: string, vmRules: seq<Rule>): Request {
    Request(vm, tap, [], vmRules, false)
  }

  /**
   A rule that drops everything, an edit that does not translate, the first rule again: the third call is
   skipped and the VM accepts new traffic that its rules drop.
   */
  lemma StaleChainAccepts(h: Host, s: State, vm: string, tap: string, p: Packet)
    requires ValidPacket(p) && p.oif == tap && p.ctState == "new" && vm !in s.cache
    ensures var good, bad := Permissive(vm, tap, [DropAll]), Permissive(vm, tap, [BlockSctp]);
            var s' := Run(h, s, [OpApply(good, Fine), OpApply(bad, Fine), OpApply(good, Fine)]);
            var wanted := CompiledChain(good.deptRules, good.vmRules, h.conntrack, good.dropByDefault, good.tap);
            && EvalChain(wanted, p) == Decided(Drop)
            && h.chainName(vm) in s'.chains && EvalChain(s'.chains[h.chainName(vm)], p) == Decided(Accept)
  {
    var good, bad := Permissive(vm, tap, [DropAll]), Permissive(vm, tap, [BlockSctp]);
    DropAllDecides(h.conntrack, tap, p);
    BlockSctpSkipped(h.conntrack, tap, p);
    DropAllWellFormed(h, vm, tap);
    BlockSctpNotAll(h, vm, tap);
    ChainOfKey(h, bad);
    hide ChainOf, CompiledChain, AllWellFormed, KeyOf, Run, EvalChain, WellFormed;
    StaleAfterPartialTranslation(h, s, good, bad);
  }

  lemma DropAllWellFormed(h: Host, vm: string, tap: string)
    ensures AllWellFormed(KeyOf(h, Permissive(vm, tap, [DropAll])).rules)
  {
    DropAllIsWellFormed();
    EstablishedWellFormed();
    hide WellFormed, EffectiveRules;
    EffectiveOfOne(DropAll, h.conntrack);
    var rules := KeyOf(h, Permissive(vm, tap, [DropAll])).rules;
    forall i | 0 <= i < |rules| ensures WellFormed(rules[i]) { assert rules[i] in rules; }
  }

  lemma BlockSctpNotAll(h: Host, vm: string, tap: string)
    ensures !AllWellFormed(KeyOf(h, Permissive(vm, tap, [BlockSctp])).rules)
  {
    BlockSctpIllFormed();
    hide WellFormed, EffectiveRules;
    EffectiveOfOne(BlockSctp, h.conntrack);
    assert BlockSctp in KeyOf(h, Permissive(vm, tap, [BlockSctp])).rules;
  }

  lemma EffectiveOfOne(r: Rule, conntrack: bool)
    ensures forall x :: x in EffectiveRules([], [r], conntrack) <==> x == r || x in AutoRules(conntrack)
  {
    EffectiveIsOneSort([], [r], conntrack);
    var all := AllRules([], [r], conntrack);
    assert all == [r] + AutoRules(conntrack);
    forall x ensures x in EffectiveRules([], [r], conntrack) <==> x in all { SortMember(all, ByPriority, x); }
  }

  lemma ChainOfKey(h: Host, r: Request)
    ensures CompiledChain(r.deptRules, r.vmRules, h.conntrack, r.dropByDefault, r.tap) == ChainOf(KeyOf(h, r), r.tap)
  {
  }

  // ----- the service itself -----

  class FirewallService {
    const host: Host
    var chains: Chains
    var cache: map<string, RuleKey>

    constructor (host: Host, chains: Chains)
      ensures this.host == host && Snapshot() == State(chains, map[])
    {
      this.host := host;
      this.chains := chains;
      cache := map[];
    }

    function Snapshot(): State
      reads this
    {
      State(chains, cache)
    }

    /** Creating the chain or running the transaction may fail; a failed transaction changes nothing. */
    method ApplyRules(r: Request, fate: Fate) returns (failedRules: nat)
      requires ValidHost(host) && IsWord(r.tap)
      modifies this`chains
      ensures Snapshot() == Apply(host, old(Snapshot()), r, fate)
      ensures fate.Fine? ==> (failedRules == 0 <==> AllWellFormed(KeyOf(host, r).rules))
    {
      ChainOfKey(host, r);
      hide IsWord, Bodies, EffectiveRules, TerminalWords, AtomicRuleset, RunScript;
      hide CompiledChain, ChainOf, WellFormed, AllWellFormed, JoinAll, Filter, Names;
      var chain := host.chainName(r.vm);
      assert IsWord(chain);
      failedRules := 0;
      if fate.CreateFailed? {
        return;
      }
      if chain !in chains {
        chains := chains[chain := []];
      }
      var rules := EffectiveRules(r.deptRules, r.vmRules, host.conntrack);
      var lines, applied, failures := BuildRuleLines(rules, r.tap);
      IllFormedCount(rules);
      var script := AtomicRuleset(chain, lines, r.dropByDefault);
      ApplyInstallsCompiledChain(r.deptRules, r.vmRules, host.conntrack, r.dropByDefault, r.tap, chain, chains);
      if fate.TransactionFailed? {
        return;
      }
      chains := RunScript(script, chains).value;
      failedRules := |failures|;
    }

    method ApplyRulesIfChanged(r: Request, fate: Fate) returns (changed: bool)
      requires ValidHost(host) && IsWord(r.tap)
      modifies this
      ensures Snapshot() == ApplyIfChanged(host, old(Snapshot()), r, fate)
      ensures changed <==> !CacheHit(host, old(Snapshot()), r)
    {
      hide IsWord, EffectiveRules, AllWellFormed;
      var newHash := KeyOf(host, r);
      if r.vm in cache && cache[r.vm] == newHash {
        if host.chainName(r.vm) in chains {
          return false;
        }
      }
      var failedRules := ApplyRules(r, fate);
      if fate.Fine? && failedRules == 0 {
        cache := cache[r.vm := newHash];
      }
      changed := true;
    }

    /** Afterwards the chain is there, unless creating it failed; if it is new, the next apply is not skipped. */
    method EnsureVMChain(vm: string, fate: Fate) returns (ready: bool)
      requires ValidHost(host)
      modifies this
      ensures Snapshot() == EnsureChain(host, old(Snapshot()), vm, fate)
      ensures ready <==> host.chainName(vm) in chains
      ensures ready <==> fate.Fine? || host.chainName(vm) in old(chains)
      ensures ready && host.chainName(vm) !in old(chains) ==> chains[host.chainName(vm)] == [] && NeverSkipped(vm)
      ensures forall taps :: Coherent(host, taps, old(Snapshot())) ==> Coherent(host, taps, Snapshot())
      ensures OthersUntouched(host, old(Snapshot()), Snapshot(), vm)
    {
      ghost var before := Snapshot();
      forall taps | Coherent(host, taps, before) ensures Coherent(host, taps, EnsureChain(host, before, vm, fate)) {
        StepKeepsCoherent(host, taps, before, OpEnsure(vm, fate));
      }
      var chain := host.chainName(vm);
      ready := true;
      if chain in chains {
        return;
      }
      if !fate.Fine? {
        return false;
      }
      chains := chains[chain := []];
      cache := cache - {vm};
    }

    /** No request of the VM is a cache hit. */
    ghost predicate NeverSkipped(vm: string)
      reads this
    {
      forall r: Request :: r.vm == vm ==> !CacheHit(host, Snapshot(), r)
    }

    /** Whatever the removal achieves, the VM's next apply is not skipped, and no other VM notices. */
    method RemoveVMChain(vm: string, left: Removal)
      requires ValidHost(host)
      modifies this
      ensures Snapshot() == RemoveChain(host, old(Snapshot()), vm, left)
      ensures NeverSkipped(vm)
      ensures host.chainName(vm) in chains ==> !left.Removed? && host.chainName(vm) in old(chains)
      ensures forall taps :: Coherent(host, taps, old(Snapshot())) ==> Coherent(host, taps, Snapshot())
      ensures OthersUntouched(host, old(Snapshot()), Snapshot(), vm)
    {
      ghost var before := Snapshot();
      forall taps | Coherent(host, taps, before) ensures Coherent(host, taps, RemoveChain(host, before, vm, left)) {
        StepKeepsCoherent(host, taps, before, OpRemove(vm, left));
      }
      var chain := host.chainName(vm);
      if chain in chains {
        match left {
          case Untouched =>
          case OnlyFlushed => chains := chains[chain := []];
          case Removed => chains := chains - {chain};
        }
      }
      cache := cache - {vm};
    }
  }

  /** Chain and hash of every other VM are as they were. */
  ghost predicate OthersUntouched(h: Host, before: State, now: State, vm: string) {
    forall other :: other != vm ==>
      && (other in now.cache <==> other in before.cache) && (other in now.cache ==> now.cache[other] == before.cache[other])
      && (h.chainName(other) in now.chains <==> h.chainName(other) in before.chains)
      && (h.chainName(other) in now.chains ==> now.chains[h.chainName(other)] == before.chains[h.chainName(other)])
  }

  /** An apply after a chain had to be created installs the rules, whatever was applied before. */
  lemma EnsuredChainIsFilled(h: Host, s: State, vm: string, r: Request)
    requires r.vm == vm && h.chainName(vm) !in s.chains
    ensures var t := Step(h, Step(h, s, OpEnsure(vm, Fine)), OpApply(r, Fine));
            h.chainName(vm) in t.chains
            && t.chains[h.chainName(vm)] == CompiledChain(r.deptRules, r.vmRules, h.conntrack, r.dropByDefault, r.tap)
  {
    ChainOfKey(h, r);
    hide ChainOf, CompiledChain, KeyOf, AllWellFormed;
  }

  lemma IllFormedCount(rules: seq<Rule>)
    ensures |Names(Filter(rules, IllFormed))| == 0 <==> AllWellFormed(rules)
  {
    FilterNone(rules, IllFormed);
    NamesLength(Filter(rules, IllFormed));
    hide WellFormed;
  }

  lemma {:induction false} NamesLength(rules: seq<Rule>)
    ensures |Names(rules)| == |rules|
  {
    if rules != [] { NamesLength(rules[1..]); }
  }
}
