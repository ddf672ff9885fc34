/** How much of the traffic of a removed department rule the overriding VM rule speaks about. */
module FirewallOverrides {
  import opened Wrappers
  import opened JsText
  import opened StableSort
  import opened SubnetMask
  import opened FirewallRules
  import opened Nft
  import opened RuleTranslator
  import opened RuleCompiler
  import opened FirewallMeaning
  import opened FirewallPolicy

  // ----- a packet of a rule -----

  /** A packet that satisfies every field of a well-formed rule. */
  function Witness(r: Rule, iif: string, oif: string): Packet
    requires WellFormed(r)
  {
    var enabled := Filter(ConnectionStates, name => Enabled(r.connectionState, name));
    Packet(iif, oif,
      Some(IpHeader(
        if ToLower(r.protocol) == "all" then "tcp" else ToLower(r.protocol),
        if Given(r.srcIpAddr) then IpNumber(r.srcIpAddr.value).value else 0,
        if Given(r.dstIpAddr) then IpNumber(r.dstIpAddr.value).value else 0,
        if r.srcPortStart.Some? then r.srcPortStart.value else 0,
        if r.dstPortStart.Some? then r.dstPortStart.value else 0)),
      if enabled == [] then "new" else enabled[0])
  }

  lemma WitnessState(r: Rule, iif: string, oif: string)
    requires WellFormed(r)
    ensures StateMatches(r.connectionState, Witness(r, iif, oif))
  {
    var on := name => Enabled(r.connectionState, name);
    var enabled := Filter(ConnectionStates, on);
    if enabled == [] {
      FilterNone(ConnectionStates, on);
    } else {
      assert enabled[0] in enabled;
      FilterMember(ConnectionStates, on, enabled[0]);
      var i :| 0 <= i < 4 && ConnectionStates[i] == enabled[0];
    }
  }

  lemma WitnessMatches(r: Rule, iif: string, oif: string)
    requires WellFormed(r)
    ensures ValidPacket(Witness(r, iif, oif)) && FieldsMatch(r, Witness(r, iif, oif))
  {
    hide Pow2, StateMatches, IpNumber, AddressMatches, ToLower, EnabledStates, Enabled, ValidMask;
    RuleFields(r);
    OwnAddressMatches(r.srcIpAddr, r.srcIpMask);
    OwnAddressMatches(r.dstIpAddr, r.dstIpMask);
    WitnessState(r, iif, oif);
    PositivePow2();
    assert ProtocolMatches(r.protocol, Witness(r, iif, oif));
  }

  lemma OwnAddressMatches(addr: Option<string>, mask: Option<string>)
    requires Given(addr) ==> IpNumber(addr.value).Some?
    ensures Given(addr) ==> AddressMatches(addr, mask, IpNumber(addr.value).value) && IpNumber(addr.value).value < Pow2(32)
  {
    hide IpNumber, Pow2;
    if Given(addr) { IpNumberBound(addr.value); }
  }

  /** Every packet the removed rule speaks about is one the overriding rule speaks about. */
  ghost predicate Covers(v: Rule, d: Rule) {
    forall tap, p :: ValidPacket(p) && Matches(d, tap, p) ==> Matches(v, tap, p)
  }

  // ----- masks -----

  /** The prefix length of an address with an optional mask; without a mask all 32 bits count. */
  function MaskLength(mask: Option<string>): nat {
    if !Given(mask) then 32
    else if PrefixLength(mask.value).Some? then PrefixLength(mask.value).value
    else if DottedOctets(mask.value).Some? then BitTotal(DottedOctets(mask.value).value)
    else 32
  }

  lemma MaskLengthIs(mask: string, p: nat)
    requires mask != "" && IsPrefixMask(mask, p)
    ensures MaskLength(Some(mask)) == p
  {
    CidrIsPrefixLength(mask, p);
    if PrefixLength(mask).Some? {
      DigitsInjective(PrefixLength(mask).value, p);
    } else {
      DigitsInjective(BitTotal(DottedOctets(mask).value), p);
    }
  }

  lemma GivenMaskMatches(addr: string, mask: string, a: nat)
    requires addr != "" && IpNumber(addr).Some? && mask != "" && ValidMask(mask) && a < Pow2(32)
    ensures MaskLength(Some(mask)) <= 32
    ensures AddressMatches(Some(addr), Some(mask), a)
            <==> DropBits(a, 32 - MaskLength(Some(mask))) == DropBits(IpNumber(addr).value, 32 - MaskLength(Some(mask)))
  {
    hide Pow2, DropBits, IpNumber, AddressMatches, MaskLength, IsPrefixMask;
    var p :| 0 <= p <= 32 && IsPrefixMask(mask, p);
    MaskLengthIs(mask, p);
    MaskedMatches(addr, mask, p, a);
  }

  /** An address matches when its first bits, as many as the mask has, are those of the rule. */
  lemma AddressMatchesPrefix(addr: Option<string>, mask: Option<string>, a: nat)
    requires Given(addr) && IpNumber(addr.value).Some? && (Given(mask) ==> ValidMask(mask.value)) && a < Pow2(32)
    ensures MaskLength(mask) <= 32
    ensures AddressMatches(addr, mask, a)
            <==> DropBits(a, 32 - MaskLength(mask)) == DropBits(IpNumber(addr.value).value, 32 - MaskLength(mask))
  {
    hide Pow2, DropBits, IpNumber, BitAnd, MaskNumber, Ones;
    if Given(mask) {
      GivenMaskMatches(addr.value, mask.value, a);
      assert Some(mask.value) == mask && Some(addr.value) == addr;
      hide AddressMatches, MaskLength;
    } else {
      NothingDropped(a);
      NothingDropped(IpNumber(addr.value).value);
    }
  }

  lemma MaskedMatches(addr: string, mask: string, p: nat, a: nat)
    requires addr != "" && IpNumber(addr).Some? && mask != "" && IsPrefixMask(mask, p) && a < Pow2(32)
    ensures AddressMatches(Some(addr), Some(mask), a)
            <==> DropBits(a, 32 - p) == DropBits(IpNumber(addr).value, 32 - p)
  {
    hide Pow2, DropBits, IpNumber, BitAnd, MaskNumber, Ones;
    IpNumberBound(addr);
    MaskMeansPrefix(mask, p, a, IpNumber(addr).value);
  }

  lemma NothingDropped(a: nat)
    ensures DropBits(a, 0) == a
  {
  }

  predicate AddressCovered(addr: Option<string>, wide: Option<string>, narrow: Option<string>) {
    Given(addr) ==> MaskLength(wide) <= MaskLength(narrow)
  }

  predicate MaskUsable(mask: Option<string>) {
    Given(mask) ==> ValidMask(mask.value)
  }

  /** A mask that is not longer admits every address the other one admits. */
  lemma WiderAdmits(addr: Option<string>, wide: Option<string>, narrow: Option<string>, a: nat)
    requires Given(addr) && IpNumber(addr.value).Some? && MaskUsable(wide) && MaskUsable(narrow) && a < Pow2(32)
    requires AddressCovered(addr, wide, narrow) && AddressMatches(addr, narrow, a)
    ensures AddressMatches(addr, wide, a)
  {
    hide Pow2, DropBits, IpNumber, AddressMatches, MaskLength, ValidMask;
    AddressMatchesPrefix(addr, wide, a);
    AddressMatchesPrefix(addr, narrow, a);
    DropMore(a, IpNumber(addr.value).value, 32 - MaskLength(narrow), 32 - MaskLength(wide));
  }

  /** A longer mask refuses the address that differs in the first bit the other one leaves open. */
  lemma NarrowerRefuses(addr: Option<string>, wide: Option<string>, narrow: Option<string>) returns (a: nat)
    requires Given(addr) && IpNumber(addr.value).Some? && MaskUsable(wide) && MaskUsable(narrow)
    requires !AddressCovered(addr, wide, narrow)
    ensures a < Pow2(32) && AddressMatches(addr, narrow, a) && !AddressMatches(addr, wide, a)
  {
    hide Pow2, DropBits, IpNumber, AddressMatches, MaskLength, ValidMask;
    var own := IpNumber(addr.value).value;
    IpNumberBound(addr.value);
    AddressMatchesPrefix(addr, wide, own);
    AddressMatchesPrefix(addr, narrow, own);
    var k := 32 - MaskLength(narrow) - 1;
    a := FlipBit(own, k);
    FlipInRange(own, k, 32);
    FlipShows(own, k, 32 - MaskLength(narrow));
    FlipShows(own, k, 32 - MaskLength(wide));
    AddressMatchesPrefix(addr, wide, a);
    AddressMatchesPrefix(addr, narrow, a);
  }

  // ----- connection states -----

  predicate StatesCovered(wide: Option<map<string, bool>>, narrow: Option<map<string, bool>>) {
    EnabledStates(wide) == []
    || (EnabledStates(narrow) != [] && forall i :: 0 <= i < |EnabledStates(narrow)| ==> EnabledStates(narrow)[i] in EnabledStates(wide))
  }

  /** The state of some traffic that `narrow` admits and `wide` does not. */
  lemma StateLeftOut(wide: Option<map<string, bool>>, narrow: Option<map<string, bool>>) returns (state: string)
    requires !StatesCovered(wide, narrow)
    ensures EnabledStates(wide) != [] && state !in EnabledStates(wide)
    ensures EnabledStates(narrow) == [] || state in EnabledStates(narrow)
  {
    if EnabledStates(narrow) == [] {
      state := "untracked";
      EnabledMeaning(wide);
    } else {
      var i :| 0 <= i < |EnabledStates(narrow)| && EnabledStates(narrow)[i] !in EnabledStates(wide);
      state := EnabledStates(narrow)[i];
    }
  }

  // ----- how far an override reaches -----

  predicate DirectionCovered(v: Rule, d: Rule) {
    v.direction == "INOUT" || d.direction != "INOUT"
  }

  predicate FieldsCovered(v: Rule, d: Rule) {
    && AddressCovered(v.srcIpAddr, v.srcIpMask, d.srcIpMask)
    && AddressCovered(v.dstIpAddr, v.dstIpMask, d.dstIpMask)
    && StatesCovered(v.connectionState, d.connectionState)
  }

  lemma CoveredFields(v: Rule, d: Rule, p: Packet)
    requires WellFormed(v) && WellFormed(d) && SameTraffic(v, d) && FieldsCovered(v, d)
    requires ValidPacket(p) && FieldsMatch(d, p)
    ensures FieldsMatch(v, p)
  {
    SameProtocol(v, d);
    if Given(v.srcIpAddr) { WiderAdmits(v.srcIpAddr, v.srcIpMask, d.srcIpMask, p.ip.value.saddr); }
    if Given(v.dstIpAddr) { WiderAdmits(v.dstIpAddr, v.dstIpMask, d.dstIpMask, p.ip.value.daddr); }
    StateMatchesIff(v.connectionState, p);
    StateMatchesIff(d.connectionState, p);
    hide WellFormed, AddressMatches, StateMatches, Pow2, IpNumber;
    if EnabledStates(v.connectionState) != [] {
      var i :| 0 <= i < |EnabledStates(d.connectionState)| && EnabledStates(d.connectionState)[i] == p.ctState;
    }
  }

  lemma SameProtocol(v: Rule, d: Rule)
    requires WellFormed(v) && WellFormed(d) && SameTraffic(v, d)
    ensures ToLower(v.protocol) == ToLower(d.protocol)
  {
    assert ToLower("") == "";
  }

  /** A packet of `d` that one field of `v` refuses. */
  lemma UncoveredFields(v: Rule, d: Rule) returns (p: Packet)
    requires WellFormed(v) && WellFormed(d) && SameTraffic(v, d) && !FieldsCovered(v, d)
    ensures ValidPacket(p) && p.iif == "vnet0" && p.oif == "vnet0" && FieldsMatch(d, p) && !FieldsMatch(v, p)
  {
    if AddressCovered(v.srcIpAddr, v.srcIpMask, d.srcIpMask) && AddressCovered(v.dstIpAddr, v.dstIpMask, d.dstIpMask) {
      p := UncoveredState(v, d);
    } else {
      p := UncoveredAddress(v, d);
    }
  }

  lemma UncoveredAddress(v: Rule, d: Rule) returns (p: Packet)
    requires WellFormed(v) && WellFormed(d) && SameTraffic(v, d)
    requires !AddressCovered(v.srcIpAddr, v.srcIpMask, d.srcIpMask) || !AddressCovered(v.dstIpAddr, v.dstIpMask, d.dstIpMask)
    ensures ValidPacket(p) && p.iif == "vnet0" && p.oif == "vnet0" && FieldsMatch(d, p) && !FieldsMatch(v, p)
  {
    p := Witness(d, "vnet0", "vnet0");
    WitnessMatches(d, "vnet0", "vnet0");
    MasksUsable(v, d);
    hide WellFormed, Pow2, IpNumber, ToLower, MaskLength, ValidMask, AddressMatches, StateMatches, ConnectionStates;
    if !AddressCovered(v.srcIpAddr, v.srcIpMask, d.srcIpMask) {
      var a := NarrowerRefuses(v.srcIpAddr, v.srcIpMask, d.srcIpMask);
      p := p.(ip := Some(p.ip.value.(saddr := a)));
    } else {
      var a := NarrowerRefuses(v.dstIpAddr, v.dstIpMask, d.dstIpMask);
      p := p.(ip := Some(p.ip.value.(daddr := a)));
    }
  }

  lemma UncoveredState(v: Rule, d: Rule) returns (p: Packet)
    requires WellFormed(v) && WellFormed(d) && SameTraffic(v, d) && !StatesCovered(v.connectionState, d.connectionState)
    ensures ValidPacket(p) && p.iif == "vnet0" && p.oif == "vnet0" && FieldsMatch(d, p) && !FieldsMatch(v, p)
  {
    p := Witness(d, "vnet0", "vnet0");
    WitnessMatches(d, "vnet0", "vnet0");
    hide WellFormed, Pow2, IpNumber, ToLower, MaskLength, ValidMask;
    var state := StateLeftOut(v.connectionState, d.connectionState);
    p := p.(ctState := state);
    StateMatchesIff(v.connectionState, p);
    StateMatchesIff(d.connectionState, p);
    hide AddressMatches, StateMatches;
  }

  lemma MasksUsable(v: Rule, d: Rule)
    requires WellFormed(v) && WellFormed(d) && SameTraffic(v, d)
    ensures MaskUsable(v.srcIpMask) && MaskUsable(d.srcIpMask) && MaskUsable(v.dstIpMask) && MaskUsable(d.dstIpMask)
    ensures Given(v.srcIpAddr) ==> IpNumber(v.srcIpAddr.value).Some?
    ensures Given(v.dstIpAddr) ==> IpNumber(v.dstIpAddr.value).Some?
  {
  }

  /**
   An override speaks for all the traffic of the rule it removes exactly when three things hold: it is
   INOUT or the rule was not; its masks are not longer; and it enables no connection state, or all those
   of a rule that enables some.
   */
  lemma OverrideCoversIff(v: Rule, d: Rule)
    requires WellFormed(v) && WellFormed(d) && SameTraffic(v, d)
    ensures Covers(v, d) <==> DirectionCovered(v, d) && FieldsCovered(v, d)
  {
    hide FieldsMatch, FieldsCovered;
    if !FieldsCovered(v, d) {
      var p := UncoveredFields(v, d);
      assert Matches(d, "vnet0", p) && !Matches(v, "vnet0", p);
    } else if !DirectionCovered(v, d) {
      var p := if v.direction == "IN" then Witness(d, "vnet0", "") else Witness(d, "", "vnet0");
      WitnessMatches(d, p.iif, p.oif);
      assert Matches(d, "vnet0", p) && !Matches(v, "vnet0", p);
    } else {
      forall tap, p | ValidPacket(p) && Matches(d, tap, p) ensures Matches(v, tap, p) {
        CoveredFields(v, d, p);
      }
    }
  }

  const AcceptEstablished: Rule := Rule(
    "r3", "accept established", "ACCEPT", "INOUT", 10, "all",
    None, None, None, None, None, None, None, None, Some(map["established" := true]), true)

  lemma AcceptEstablishedMeaning(tap: string, p: Packet)
    ensures WellFormed(AcceptEstablished)
    ensures p.ctState == "new" ==> !Matches(AcceptEstablished, tap, p)
  {
    assert ToLower("all") == "all";
    var states := AcceptEstablished.connectionState;
    assert Enabled(states, ConnectionStates[0]) && !Enabled(states, ConnectionStates[1]);
    assert !Enabled(states, ConnectionStates[2]) && !Enabled(states, ConnectionStates[3]);
  }

  lemma AcceptEstablishedOverrides()
    ensures SameTraffic(AcceptEstablished, DropAll) && Overridden(DropAll, [AcceptEstablished])
    ensures Surviving([DropAll], [AcceptEstablished]) == []
  {
    assert SameTraffic(AcceptEstablished, DropAll);
    assert [AcceptEstablished][0].overridesDept;
    FilterNone([DropAll], d => !Overridden(d, [AcceptEstablished]));
  }

  /**
   The VM may override the department's "drop everything" by "accept established": new traffic, which
   the override does not speak about, then meets no rule and is accepted by default.
   */
  lemma OverrideLeavesStatesOpen(conntrack: bool, tap: string, p: Packet)
    requires ValidPacket(p) && p.oif == tap && p.ctState == "new"
    ensures !Covers(AcceptEstablished, DropAll)
    ensures EvalChain(UnoverriddenChain([DropAll], [AcceptEstablished], conntrack, false, tap), p) == Decided(Drop)
    ensures EvalChain(CompiledChain([DropAll], [AcceptEstablished], conntrack, false, tap), p) == Decided(Accept)
  {
    AcceptEstablishedMeaning(tap, p);
    DropAllApplies(tap, p);
    assert !Covers(AcceptEstablished, DropAll);
    UnoverriddenDrops(conntrack, tap, p);
    OverriddenAccepts(conntrack, tap, p);
  }

  lemma OverriddenAccepts(conntrack: bool, tap: string, p: Packet)
    requires ValidPacket(p) && p.oif == tap && p.ctState == "new"
    ensures EvalChain(CompiledChain([DropAll], [AcceptEstablished], conntrack, false, tap), p) == Decided(Accept)
  {
    AcceptEstablishedMeaning(tap, p);
    AcceptEstablishedOverrides();
    EstablishedRuleApplies(tap, p);
    hide WellFormed, Matches, Overridden, Surviving;
    var rules := AllRules([DropAll], [AcceptEstablished], conntrack);
    assert rules == [AcceptEstablished] + AutoRules(conntrack);
    assert forall j :: 0 <= j < |rules| ==> !Applies(tap, p)(rules[j]);
    CompilePreservesMeaning([DropAll], [AcceptEstablished], conntrack, false, tap, p);
  }

  lemma DropAllApplies(tap: string, p: Packet)
    requires p.oif == tap
    ensures Applies(tap, p)(DropAll) && Matches(DropAll, tap, p)
  {
    assert ToLower("all") == "all";
    DropAllIsWellFormed();
  }

  lemma UnoverriddenDrops(conntrack: bool, tap: string, p: Packet)
    requires ValidPacket(p) && p.oif == tap
    ensures EvalChain(UnoverriddenChain([DropAll], [AcceptEstablished], conntrack, false, tap), p) == Decided(Drop)
  {
    var rules := [DropAll] + [AcceptEstablished] + AutoRules(conntrack);
    DropAllApplies(tap, p);
    hide WellFormed, Matches, Bodies, TerminalWords;
    assert Earliest(rules, 0, ByPriority, Applies(tap, p));
    FirstOfSorted(rules, 0, ByPriority, Applies(tap, p));
    var sorted := SortBy(rules, ByPriority);
    BodiesDecide(sorted, tap, p);
    EvalChainConcat(Bodies(sorted, tap), [TerminalWords(false)], p);
  }
}
