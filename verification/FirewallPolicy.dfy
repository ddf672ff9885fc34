/**
 Overrides and skipped rules: what merging keeps and drops, how far an override
 reaches, and when leaving out rules that cannot be translated is safe.
 */
module FirewallPolicy {
  import opened Wrappers
  import opened JsText
  import opened StableSort
  import opened FirewallRules
  import opened Nft
  import opened RuleCompiler
  import opened FirewallMeaning

  // ----- merging -----

  /**
   The merged list holds the VM rules and exactly the department rules that no overriding
   VM rule targets, in priority order, and rules of equal standing keep their order.
   */
  lemma MergeIsExact(deptRules: seq<Rule>, vmRules: seq<Rule>, r: Rule, keep: Rule -> bool)
    ensures var merged := MergeRules(deptRules, vmRules);
            && (r in merged <==> r in vmRules || (r in deptRules && !Overridden(r, vmRules)))
            && multiset(merged) == multiset(Surviving(deptRules, vmRules)) + multiset(vmRules)
            && Sorted(merged, ByPriority)
            && Filter(merged, keep) == SortBy(Filter(Surviving(deptRules, vmRules) + vmRules, keep), ByPriority)
  {
    var all := Surviving(deptRules, vmRules) + vmRules;
    SortPermutes(all, ByPriority);
    SortMember(all, ByPriority, r);
    FilterMember(deptRules, d => !Overridden(d, vmRules), r);
    SortFilter(all, ByPriority, keep);
  }

  // ----- overrides are local -----

  lemma {:induction false} SurvivingApplicable(deptRules: seq<Rule>, vmRules: seq<Rule>, p: Rule -> bool)
    requires forall i :: 0 <= i < |deptRules| && Overridden(deptRules[i], vmRules) ==> !p(deptRules[i])
    ensures Filter(Surviving(deptRules, vmRules), p) == Filter(deptRules, p)
  {
    if deptRules != [] {
      var rest := deptRules[1..];
      assert forall i :: 0 <= i < |rest| ==> rest[i] == deptRules[i + 1];
      SurvivingApplicable(rest, vmRules, p);
      if !Overridden(deptRules[0], vmRules) {
        assert ([deptRules[0]] + Surviving(rest, vmRules))[1..] == Surviving(rest, vmRules);
      }
    }
  }

  /** The chain compiled as if no VM rule overrode anything. */
  function UnoverriddenChain(deptRules: seq<Rule>, vmRules: seq<Rule>, conntrack: bool, dropByDefault: bool, tap: string)
    : seq<seq<string>>
  {
    Bodies(SortBy(deptRules + vmRules + AutoRules(conntrack), ByPriority), tap) + [TerminalWords(dropByDefault)]
  }

  /** Overriding changes the verdict only for packets that a removed department rule applies to. */
  lemma OverridesAreLocal(
    deptRules: seq<Rule>, vmRules: seq<Rule>, conntrack: bool, dropByDefault: bool, tap: string, p: Packet)
    requires ValidPacket(p)
    requires forall i :: 0 <= i < |deptRules| && Overridden(deptRules[i], vmRules) ==> !Applies(tap, p)(deptRules[i])
    ensures EvalChain(CompiledChain(deptRules, vmRules, conntrack, dropByDefault, tap), p)
         == EvalChain(UnoverriddenChain(deptRules, vmRules, conntrack, dropByDefault, tap), p)
  {
    hide Overridden, WellFormed, Matches, Bodies, TerminalWords, AutoRules;
    var applies := Applies(tap, p);
    var others := vmRules + AutoRules(conntrack);
    var kept, all := Surviving(deptRules, vmRules) + others, deptRules + others;
    assert AllRules(deptRules, vmRules, conntrack) == kept;
    assert deptRules + vmRules + AutoRules(conntrack) == all;
    EffectiveIsOneSort(deptRules, vmRules, conntrack);
    SurvivingApplicable(deptRules, vmRules, applies);
    FilterConcat(Surviving(deptRules, vmRules), others, applies);
    FilterConcat(deptRules, others, applies);
    SortFilter(kept, ByPriority, applies);
    SortFilter(all, ByPriority, applies);
    BodiesDecide(SortBy(kept, ByPriority), tap, p);
    BodiesDecide(SortBy(all, ByPriority), tap, p);
    EvalChainConcat(Bodies(SortBy(kept, ByPriority), tap), [TerminalWords(dropByDefault)], p);
    EvalChainConcat(Bodies(SortBy(all, ByPriority), tap), [TerminalWords(dropByDefault)], p);
  }

  // ----- skipping rules that cannot be translated -----

  /** First match over the rules selected by `active`, dropping by default. */
  function FirstActive(rules: seq<Rule>, active: seq<bool>): Verdict
    requires |rules| == |active|
  {
    if rules == [] then Drop
    else if active[0] then VerdictOf(rules[0].action)
    else FirstActive(rules[1..], active[1..])
  }

  function Installed(rules: seq<Rule>, hits: seq<bool>): (r: seq<bool>)
    requires |rules| == |hits|
    ensures |r| == |rules|
  {
    if rules == [] then [] else [hits[0] && WellFormed(rules[0])] + Installed(rules[1..], hits[1..])
  }

  predicate Accepts(r: Rule) {
    VerdictOf(r.action) == Accept
  }

  /** No installable ACCEPT rule comes after a skipped rule that would have blocked. */
  predicate SafeToSkip(rules: seq<Rule>) {
    forall i, j :: 0 <= i < j < |rules| && !WellFormed(rules[i]) && !Accepts(rules[i]) && WellFormed(rules[j])
      ==> !Accepts(rules[j])
  }

  /** Whatever each rule matches, a packet accepted without the skipped rules is accepted with them. */
  ghost predicate FailClosed(rules: seq<Rule>) {
    forall hits: seq<bool> :: |hits| == |rules| ==>
      (FirstActive(rules, Installed(rules, hits)) == Accept ==> FirstActive(rules, hits) == Accept)
  }

  lemma {:induction false} SafeSkip(rules: seq<Rule>, hits: seq<bool>)
    requires SafeToSkip(rules) && |hits| == |rules|
    requires FirstActive(rules, Installed(rules, hits)) == Accept
    ensures FirstActive(rules, hits) == Accept
  {
    hide WellFormed;
    assert Installed(rules, hits)[1..] == Installed(rules[1..], hits[1..]);
    if hits[0] && !WellFormed(rules[0]) && !Accepts(rules[0]) {
      SomeAccepts(rules[1..], hits[1..]);
    } else if !hits[0] {
      SafeSkip(rules[1..], hits[1..]);
    }
  }

  lemma {:induction false} SomeAccepts(rules: seq<Rule>, hits: seq<bool>)
    requires |hits| == |rules| && FirstActive(rules, Installed(rules, hits)) == Accept
    ensures exists j :: 0 <= j < |rules| && WellFormed(rules[j]) && Accepts(rules[j])
  {
    hide WellFormed;
    assert Installed(rules, hits)[1..] == Installed(rules[1..], hits[1..]);
    if hits[0] && WellFormed(rules[0]) {
      assert Accepts(rules[0]);
    } else {
      SomeAccepts(rules[1..], hits[1..]);
      var j :| 0 <= j < |rules[1..]| && WellFormed(rules[1..][j]) && Accepts(rules[1..][j]);
      assert WellFormed(rules[j + 1]) && Accepts(rules[j + 1]);
    }
  }

  /** The packet that only the skipped rule `i` and the later rule `j` match. */
  lemma {:induction false} UnsafeSkip(rules: seq<Rule>, i: nat, j: nat) returns (hits: seq<bool>)
    requires i < j < |rules|
    requires !WellFormed(rules[i]) && !Accepts(rules[i]) && WellFormed(rules[j]) && Accepts(rules[j])
    ensures |hits| == |rules|
    ensures FirstActive(rules, Installed(rules, hits)) == Accept && FirstActive(rules, hits) != Accept
  {
    hide WellFormed;
    var rest := rules[1..];
    if i == 0 {
      var tail := OnlyHit(rest, j - 1);
      hits := [true] + tail;
      assert Installed(rules, hits)[1..] == Installed(rest, tail);
    } else {
      var tail := UnsafeSkip(rest, i - 1, j - 1);
      hits := [false] + tail;
      assert Installed(rules, hits)[1..] == Installed(rest, tail);
    }
  }

  lemma {:induction false} OnlyHit(rules: seq<Rule>, j: nat) returns (hits: seq<bool>)
    requires j < |rules| && WellFormed(rules[j]) && Accepts(rules[j])
    ensures |hits| == |rules| && FirstActive(rules, Installed(rules, hits)) == Accept
  {
    hide WellFormed;
    var rest := rules[1..];
    if j == 0 {
      hits := [true] + seq(|rest|, _ => false);
    } else {
      var tail := OnlyHit(rest, j - 1);
      hits := [false] + tail;
      assert hits[1..] == tail;
      assert Installed(rules, hits)[1..] == Installed(rest, tail);
    }
  }

  /** Skipping is fail-closed for every possible traffic exactly when it is safe in this sense. */
  lemma SkippingFailClosedIff(rules: seq<Rule>)
    ensures FailClosed(rules) <==> SafeToSkip(rules)
  {
    hide WellFormed;
    if SafeToSkip(rules) {
      forall hits: seq<bool> | |hits| == |rules| && FirstActive(rules, Installed(rules, hits)) == Accept
        ensures FirstActive(rules, hits) == Accept
      {
        SafeSkip(rules, hits);
      }
    } else {
      var i, j :| 0 <= i < j < |rules| && !WellFormed(rules[i]) && !Accepts(rules[i])
                  && WellFormed(rules[j]) && Accepts(rules[j]);
      var hits := UnsafeSkip(rules, i, j);
    }
  }

  /** `hits` says which rules speak about the packet; nothing is assumed of rules that are not well formed. */
  predicate Agrees(rules: seq<Rule>, hits: seq<bool>, tap: string, p: Packet) {
    |hits| == |rules| && forall i :: 0 <= i < |rules| && WellFormed(rules[i]) ==> hits[i] == Matches(rules[i], tap, p)
  }

  lemma {:induction false} FirstInstalled(rules: seq<Rule>, hits: seq<bool>, tap: string, p: Packet)
    requires Agrees(rules, hits, tap, p)
    ensures FirstActive(rules, Installed(rules, hits))
         == var selected := Filter(rules, Applies(tap, p));
            if selected == [] then Drop else VerdictOf(selected[0].action)
  {
    hide WellFormed, Matches;
    if rules != [] {
      assert Installed(rules, hits)[1..] == Installed(rules[1..], hits[1..]);
      assert Agrees(rules[1..], hits[1..], tap, p);
      FirstInstalled(rules[1..], hits[1..], tap, p);
    }
  }

  /**
   Under default drop, whatever the skipped rules were meant to match: when skipping is safe,
   a packet the installed chain accepts is accepted by the full policy.
   */
  lemma InstalledChainFailClosed(
    deptRules: seq<Rule>, vmRules: seq<Rule>, conntrack: bool, tap: string, p: Packet, hits: seq<bool>)
    requires ValidPacket(p)
    requires Agrees(EffectiveRules(deptRules, vmRules, conntrack), hits, tap, p)
    ensures var rules := EffectiveRules(deptRules, vmRules, conntrack);
            var outcome := EvalChain(CompiledChain(deptRules, vmRules, conntrack, true, tap), p);
            && outcome == Decided(FirstActive(rules, Installed(rules, hits)))
            && (SafeToSkip(rules) && outcome == Decided(Accept) ==> FirstActive(rules, hits) == Accept)
  {
    hide WellFormed, Matches, Bodies, TerminalWords, EffectiveRules;
    var rules := EffectiveRules(deptRules, vmRules, conntrack);
    FirstInstalled(rules, hits, tap, p);
    BodiesDecide(rules, tap, p);
    TerminalDecides(true, p);
    EvalChainConcat(Bodies(rules, tap), [TerminalWords(true)], p);
    if SafeToSkip(rules) && FirstActive(rules, Installed(rules, hits)) == Accept {
      SafeSkip(rules, hits);
    }
  }

  const BlockSctp: Rule := Rule(
    "r1", "block sctp", "DROP", "INOUT", 10, "sctp",
    None, None, None, None, None, None, None, None, None, false)

  lemma BlockSctpIllFormed()
    ensures !WellFormed(BlockSctp) && !Accepts(BlockSctp)
  {
    assert ToLower("sctp") == "sctp";
  }

  lemma EstablishedRuleApplies(tap: string, p: Packet)
    requires p.oif == tap || p.iif == tap
    ensures Applies(tap, p)(EstablishedRule) <==> p.ctState == "established" || p.ctState == "related"
  {
    assert ToLower("all") == "all";
    var states := EstablishedRule.connectionState;
    assert Enabled(states, ConnectionStates[0]) && Enabled(states, ConnectionStates[2]);
    assert !Enabled(states, ConnectionStates[1]) && !Enabled(states, ConnectionStates[3]);
  }

  lemma {:induction false} NothingOverridden(deptRules: seq<Rule>)
    ensures Surviving(deptRules, []) == deptRules
  {
    if deptRules != [] { NothingOverridden(deptRules[1..]); }
  }

  /**
   A skipped DROP rule does expose traffic: with one department rule that blocks a protocol the
   translator does not know, the default-drop chain accepts established traffic of that protocol.
   */
  lemma SkippedBlockExposes(p: Packet)
    requires ValidPacket(p) && p.oif == "vnet0" && p.ctState == "established"
    ensures !WellFormed(BlockSctp) && VerdictOf(BlockSctp.action) == Drop
    ensures EvalChain(CompiledChain([BlockSctp], [], true, true, "vnet0"), p) == Decided(Accept)
  {
    BlockSctpIllFormed();
    EstablishedRuleApplies("vnet0", p);
    NothingOverridden([BlockSctp]);
    var rules := AllRules([BlockSctp], [], true);
    assert rules == [BlockSctp, EstablishedRule];
    hide WellFormed, Matches;
    assert Earliest(rules, 1, ByPriority, Applies("vnet0", p));
    CompilePreservesMeaning([BlockSctp], [], true, true, "vnet0", p);
  }

  // ----- one rule under default accept -----

  const DropAll: Rule := Rule(
    "r2", "drop all", "DROP", "INOUT", 10, "all",
    None, None, None, None, None, None, None, None, None, false)

  lemma DropAllDecides(conntrack: bool, tap: string, p: Packet)
    requires ValidPacket(p) && p.oif == tap
    ensures WellFormed(DropAll)
    ensures EvalChain(CompiledChain([], [DropAll], conntrack, false, tap), p) == Decided(Drop)
  {
    DropAllIsWellFormed();
    DropAllMatches(tap, p);
    var rules := AllRules([], [DropAll], conntrack);
    assert rules == [DropAll] + AutoRules(conntrack);
    hide WellFormed, Matches;
    assert Earliest(rules, 0, ByPriority, Applies(tap, p));
    CompilePreservesMeaning([], [DropAll], conntrack, false, tap, p);
  }

  lemma BlockSctpSkipped(conntrack: bool, tap: string, p: Packet)
    requires ValidPacket(p) && p.oif == tap && p.ctState == "new"
    ensures !WellFormed(BlockSctp)
    ensures EvalChain(CompiledChain([], [BlockSctp], conntrack, false, tap), p) == Decided(Accept)
  {
    BlockSctpIllFormed();
    EstablishedRuleApplies(tap, p);
    var rules := AllRules([], [BlockSctp], conntrack);
    assert rules == [BlockSctp] + AutoRules(conntrack);
    hide WellFormed, Matches;
    assert forall j :: 0 <= j < |rules| ==> !Applies(tap, p)(rules[j]);
    CompilePreservesMeaning([], [BlockSctp], conntrack, false, tap, p);
  }

  lemma DropAllMatches(tap: string, p: Packet)
    requires p.oif == tap
    ensures Matches(DropAll, tap, p)
  {
    assert ToLower("all") == "all";
  }

  lemma DropAllIsWellFormed()
    ensures WellFormed(DropAll)
  {
    assert ToLower("all") == "all";
  }

  lemma EstablishedWellFormed()
    ensures WellFormed(EstablishedRule)
  {
    assert ToLower("all") == "all";
  }
}
