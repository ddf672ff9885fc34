/**
 The firewall's vocabulary told apart from its code: which rules can be installed, what addresses, masks and states
 mean, what an override removes, and what a chain decides, in terms of the rules' own fields.
 */
module FirewallLaws {
  import opened Wrappers
  import opened JsText
  import opened StableSort
  import opened SubnetMask
  import opened FirewallRules
  import opened Nft
  import opened RuleTranslator
  import opened RuleCompiler
  import opened FirewallMeaning
  import opened FirewallPolicy

  // ----- which rule decides -----

  /** Of the rules that speak about the packet and can be installed, this one has the smallest priority, then position. */
  ghost predicate ComesFirst(rules: seq<Rule>, i: nat, tap: string, p: Packet) {
    && i < |rules| && Applies(tap, p)(rules[i])
    && forall j :: 0 <= j < |rules| && Applies(tap, p)(rules[j]) ==>
         rules[i].priority < rules[j].priority || (rules[i].priority == rules[j].priority && i <= j)
  }

  lemma FirstIsEarliest(rules: seq<Rule>, i: nat, tap: string, p: Packet)
    ensures ComesFirst(rules, i, tap, p) <==> Earliest(rules, i, ByPriority, Applies(tap, p))
  {
    hide WellFormed, Matches;
  }

  /** Traffic of the VM that belongs to a connection already let through. */
  predicate OfOpenConnection(tap: string, p: Packet) {
    (p.oif == tap || p.iif == tap) && p.ctState in {"established", "related"}
  }

  /** The surviving department rules and the VM rules, before any sorting. */
  function UserRules(deptRules: seq<Rule>, vmRules: seq<Rule>): seq<Rule> {
    Surviving(deptRules, vmRules) + vmRules
  }

  /** With conntrack there is one rule more at the end, which applies to open connections, at priority 9999. */
  lemma AutomaticRule(deptRules: seq<Rule>, vmRules: seq<Rule>, conntrack: bool, tap: string, p: Packet)
    ensures !conntrack ==> AllRules(deptRules, vmRules, conntrack) == UserRules(deptRules, vmRules)
    ensures conntrack ==> AllRules(deptRules, vmRules, conntrack) == UserRules(deptRules, vmRules) + [EstablishedRule]
    ensures EstablishedRule.priority == 9999 && EstablishedRule.action == "ACCEPT"
    ensures Applies(tap, p)(EstablishedRule) <==> OfOpenConnection(tap, p)
  {
    if p.oif == tap || p.iif == tap { EstablishedRuleApplies(tap, p); }
    hide WellFormed, FieldsMatch, Surviving;
    assert UserRules(deptRules, vmRules) + [] == UserRules(deptRules, vmRules);
  }

  /**
   What an installed chain does to any packet, in terms of the department and VM rules alone. The rule that comes
   first decides, except that open connections are accepted, where conntrack is available, ahead of rules of a
   priority above 9999; without any rule open connections are accepted then, and all else gets the default.
   */
  lemma PolicyDecides(
    deptRules: seq<Rule>, vmRules: seq<Rule>, conntrack: bool, dropByDefault: bool, tap: string, p: Packet)
    requires ValidPacket(p)
    ensures var rules := UserRules(deptRules, vmRules);
      var open := conntrack && OfOpenConnection(tap, p);
      var outcome := EvalChain(CompiledChain(deptRules, vmRules, conntrack, dropByDefault, tap), p);
      && (forall i: nat :: ComesFirst(rules, i, tap, p) && (open ==> rules[i].priority <= 9999) ==>
            outcome == Decided(VerdictOf(rules[i].action)))
      && (open && (forall j :: 0 <= j < |rules| && Applies(tap, p)(rules[j]) ==> rules[j].priority > 9999) ==>
            outcome == Decided(Accept))
      && (!open && (forall j :: 0 <= j < |rules| ==> !Applies(tap, p)(rules[j])) ==>
            outcome == Decided(if dropByDefault then Drop else Accept))
  {
    var rules, all := UserRules(deptRules, vmRules), AllRules(deptRules, vmRules, conntrack);
    AutomaticRule(deptRules, vmRules, conntrack, tap, p);
    CompilePreservesMeaning(deptRules, vmRules, conntrack, dropByDefault, tap, p);
    hide CompiledChain, AllRules, UserRules, Applies, EvalChain, Earliest;
    forall i: nat ensures ComesFirst(all, i, tap, p) <==> Earliest(all, i, ByPriority, Applies(tap, p)) {
      FirstIsEarliest(all, i, tap, p);
    }
    if conntrack { FirstWithOneMore(rules, EstablishedRule, tap, p); }
    assert VerdictOf("ACCEPT") == Accept;
  }

  /** Which rule comes first when one more is added at the end. */
  lemma FirstWithOneMore(rules: seq<Rule>, last: Rule, tap: string, p: Packet)
    ensures forall i: nat :: ComesFirst(rules, i, tap, p) && (Applies(tap, p)(last) ==> rules[i].priority <= last.priority) ==>
              ComesFirst(rules + [last], i, tap, p) && (rules + [last])[i] == rules[i]
    ensures Applies(tap, p)(last)
            && (forall j :: 0 <= j < |rules| && Applies(tap, p)(rules[j]) ==> rules[j].priority > last.priority) ==>
              ComesFirst(rules + [last], |rules|, tap, p)
    ensures !Applies(tap, p)(last) && (forall j :: 0 <= j < |rules| ==> !Applies(tap, p)(rules[j])) ==>
              forall j :: 0 <= j < |rules + [last]| ==> !Applies(tap, p)((rules + [last])[j])
  {
    hide Applies;
  }

  /** Some applicable rule comes first, so the cases of `PolicyDecides` leave no packet out. */
  lemma SomeRuleComesFirst(rules: seq<Rule>, tap: string, p: Packet)
    requires exists j :: 0 <= j < |rules| && Applies(tap, p)(rules[j])
    ensures exists i: nat :: ComesFirst(rules, i, tap, p)
  {
    hide WellFormed, Matches;
    var i := EarliestExists(rules, ByPriority, Applies(tap, p));
    FirstIsEarliest(rules, i, tap, p);
  }

  /**
   Conntrack changes nothing for a packet that some rule of priority 9999 or less applies to, or that belongs to no
   open connection: what users wrote at those priorities is evaluated first.
   */
  lemma ConntrackYieldsToRules(deptRules: seq<Rule>, vmRules: seq<Rule>, dropByDefault: bool, tap: string, p: Packet)
    requires ValidPacket(p)
    requires var rules := UserRules(deptRules, vmRules);
      !OfOpenConnection(tap, p) || exists j :: 0 <= j < |rules| && Applies(tap, p)(rules[j]) && rules[j].priority <= 9999
    ensures EvalChain(CompiledChain(deptRules, vmRules, true, dropByDefault, tap), p)
         == EvalChain(CompiledChain(deptRules, vmRules, false, dropByDefault, tap), p)
  {
    var rules := UserRules(deptRules, vmRules);
    PolicyDecides(deptRules, vmRules, true, dropByDefault, tap, p);
    PolicyDecides(deptRules, vmRules, false, dropByDefault, tap, p);
    hide CompiledChain, UserRules, Applies, EvalChain;
    if exists j :: 0 <= j < |rules| && Applies(tap, p)(rules[j]) {
      SomeRuleComesFirst(rules, tap, p);
      var i: nat :| ComesFirst(rules, i, tap, p);
      if OfOpenConnection(tap, p) {
        var j :| 0 <= j < |rules| && Applies(tap, p)(rules[j]) && rules[j].priority <= 9999;
        assert rules[i].priority <= rules[j].priority;
      }
    }
  }

  // ----- what an override removes -----

  /** The rule `d` with the parts an override may differ in taken from `v`. */
  function Dressed(v: Rule, d: Rule): Rule {
    d.(id := v.id, name := v.name, action := v.action, priority := v.priority, protocol := v.protocol,
       direction := v.direction, srcIpMask := v.srcIpMask, dstIpMask := v.dstIpMask,
       connectionState := v.connectionState, overridesDept := v.overridesDept)
  }

  /** An absent protocol is "all", and case does not matter. */
  predicate SameProtocol(a: string, b: string) {
    if a == "" then b == "" || ToLower(b) == "all"
    else if b == "" then ToLower(a) == "all"
    else ToLower(a) == ToLower(b)
  }

  /** Two rules aim at the same traffic exactly when ports and addresses are written alike and directions meet. */
  lemma SameTrafficIff(v: Rule, d: Rule)
    ensures SameTraffic(v, d) <==>
      Dressed(v, d) == v && SameProtocol(v.protocol, d.protocol)
      && (v.direction == d.direction || "INOUT" in {v.direction, d.direction})
  {
    assert ToLower("all") == "all" && ToLower("") == "";
    hide ToLower;
  }

  /** A department rule is left out of the merge exactly when a VM rule marked as an override aims at its traffic. */
  lemma OverrideRemovesIff(deptRules: seq<Rule>, vmRules: seq<Rule>, d: Rule)
    ensures d in Surviving(deptRules, vmRules) <==>
      d in deptRules
      && !exists i :: 0 <= i < |vmRules| && vmRules[i].overridesDept
           && Dressed(vmRules[i], d) == vmRules[i] && SameProtocol(vmRules[i].protocol, d.protocol)
           && (vmRules[i].direction == d.direction || "INOUT" in {vmRules[i].direction, d.direction})
  {
    FilterMember(deptRules, x => !Overridden(x, vmRules), d);
    forall i | 0 <= i < |vmRules|
      ensures SameTraffic(vmRules[i], d) <==>
        Dressed(vmRules[i], d) == vmRules[i] && SameProtocol(vmRules[i].protocol, d.protocol)
        && (vmRules[i].direction == d.direction || "INOUT" in {vmRules[i].direction, d.direction})
    {
      SameTrafficIff(vmRules[i], d);
    }
    hide SameTraffic, Dressed, SameProtocol, Filter;
  }

  // ----- dotted text -----

  lemma FourFields(a: string, b: string, c: string, d: string)
    requires '.' !in a && '.' !in b && '.' !in c && '.' !in d
    ensures Split(a + "." + b + "." + c + "." + d, '.') == [a, b, c, d]
    ensures '.' in a + "." + b + "." + c + "." + d
  {
    var cd, bcd := c + ['.'] + d, b + ['.'] + (c + ['.'] + d);
    SplitNoSep(d, '.');
    SplitAtSep(c, d, '.');
    SplitAtSep(b, cd, '.');
    SplitAtSep(a, bcd, '.');
    hide Split;
    assert a + "." + b + "." + c + "." + d == a + ['.'] + bcd;
    assert (a + ['.'] + bcd)[|a|] == '.';
  }

  /** One octet of an address: one to three digits that stand for at most 255, leading zeros allowed. */
  lemma OctetTextIff(s: string)
    ensures IsOctetText(s) <==> 1 <= |s| <= 3 && AllDigits(s) && DigitsValue(s) <= 255
  {
    if 1 <= |s| <= 2 && AllDigits(s) {
      FewDigits(s);
    } else if |s| == 3 && AllDigits(s) {
      ThreeDigits(s);
      ThreeSmallDigits(s);
    }
  }

  lemma FewDigits(s: string)
    requires 1 <= |s| <= 2 && AllDigits(s)
    ensures DigitsValue(s) <= 99
  {
    assert DigitsValue(s[..1]) == DigitValue(s[0]) by { assert s[..1][..0] == ""; }
    if |s| == 1 {
      assert s[..1] == s;
    } else {
      assert DigitsValue(s) == 10 * DigitsValue(s[..1]) + DigitValue(s[1]);
    }
  }

  lemma ThreeSmallDigits(s: string)
    requires |s| == 3 && AllDigits(s)
    ensures IsOctetText(s) <==> 100 * DigitValue(s[0]) + 10 * DigitValue(s[1]) + DigitValue(s[2]) <= 255
  {
    SmallDigits(s[0]);
    SmallDigits(s[1]);
    SmallDigits(s[2]);
    var a, b, c := DigitValue(s[0]), DigitValue(s[1]), DigitValue(s[2]);
    assert IsOctetText(s) <==> a <= 1 || (a == 2 && (b < 5 || (b == 5 && c <= 5)));
    hide DigitValue, IsOctetText;
  }

  lemma SmallDigits(c: char)
    requires IsDigit(c)
    ensures DigitValue(c) <= 9 && (DigitValue(c) == 0 <==> c == '0') && (DigitValue(c) == 1 <==> c == '1')
    ensures (DigitValue(c) == 2 <==> c == '2') && (DigitValue(c) < 5 <==> c < '5') && (DigitValue(c) <= 5 <==> c <= '5')
    ensures DigitValue(c) == 5 <==> c == '5'
  {
  }

  lemma OctetPlain(s: string)
    requires IsOctetText(s)
    ensures AllDigits(s) && '.' !in s
  {
  }

  lemma ThreeDigits(s: string)
    requires |s| == 3 && AllDigits(s)
    ensures DigitsValue(s) == 100 * DigitValue(s[0]) + 10 * DigitValue(s[1]) + DigitValue(s[2])
  {
    assert s[..2][..1] == s[..1] && s[..1][..0] == "";
    assert DigitsValue(s[..1]) == DigitValue(s[0]);
    assert DigitsValue(s[..2]) == 10 * DigitValue(s[0]) + DigitValue(s[1]);
  }

  lemma BigEndianOfFour(a: nat, b: nat, c: nat, d: nat)
    ensures BigEndian([a, b, c, d]) == 16777216 * a + 65536 * b + 256 * c + d
  {
    var os := [a, b, c, d];
    assert os[..3][..2] == os[..2] && os[..2][..1] == os[..1] && os[..1][..0] == [];
    assert BigEndian(os[..1]) == a;
    assert BigEndian(os[..2]) == 256 * a + b;
    assert BigEndian(os[..3]) == 65536 * a + 256 * b + c;
  }

  predicate FourOctets(parts: seq<string>) {
    |parts| == 4 && forall i :: 0 <= i < |parts| ==> IsOctetText(parts[i])
  }

  lemma OctetsDigits(parts: seq<string>)
    requires FourOctets(parts)
    ensures AllDigits(parts[0]) && AllDigits(parts[1]) && AllDigits(parts[2]) && AllDigits(parts[3])
    ensures Octets(parts) == [DigitsValue(parts[0]), DigitsValue(parts[1]), DigitsValue(parts[2]), DigitsValue(parts[3])]
  {
    hide DigitsValue;
  }

  /** A dotted address stands for the number with the first field in the highest octet. */
  lemma AddressText(addr: string)
    requires FourOctets(Split(addr, '.'))
    ensures var parts := Split(addr, '.');
      && AllDigits(parts[0]) && AllDigits(parts[1]) && AllDigits(parts[2]) && AllDigits(parts[3])
      && IpNumber(addr) == Some(16777216 * DigitsValue(parts[0]) + 65536 * DigitsValue(parts[1])
                                + 256 * DigitsValue(parts[2]) + DigitsValue(parts[3]))
  {
    var parts := Split(addr, '.');
    OctetsDigits(parts);
    BigEndianOfFour(DigitsValue(parts[0]), DigitsValue(parts[1]), DigitsValue(parts[2]), DigitsValue(parts[3]));
    hide Split, DigitsValue, BigEndian, Octets, IsOctetText, AllDigits;
  }

  /** Text is an address exactly when it has four such fields, and fields joined by dots are read back as fields. */
  lemma AddressIsDotted(addr: string, a: string, b: string, c: string, d: string)
    requires IsOctetText(a) && IsOctetText(b) && IsOctetText(c) && IsOctetText(d)
    ensures IpNumber(addr).Some? <==> FourOctets(Split(addr, '.'))
    ensures Split(a + "." + b + "." + c + "." + d, '.') == [a, b, c, d]
  {
    OctetPlain(a);
    OctetPlain(b);
    OctetPlain(c);
    OctetPlain(d);
    FourFields(a, b, c, d);
    hide Split, IsOctetText;
  }

  /** A dotted mask has its first field in the highest octet too, and a mask written as a number is a prefix length. */
  lemma MaskText(a: nat, b: nat, c: nat, d: nat, n: nat)
    requires a <= 255 && b <= 255 && c <= 255 && d <= 255
    ensures var dotted := Digits(a) + "." + Digits(b) + "." + Digits(c) + "." + Digits(d);
      DottedOctets(dotted) == Some([a, b, c, d]) && MaskNumber(dotted) == Some(16777216 * a + 65536 * b + 256 * c + d)
    ensures PrefixLength(Digits(n)) == if n <= 32 then Some(n) else None
    ensures MaskNumber(Digits(n)) == if n <= 32 then Some(Ones(32, n)) else None
  {
    DottedMaskText(a, b, c, d);
    ParsePrinted(n);
    DigitsPlain(n, '.');
    hide Digits, ParseInt, BigEndian, Split, Ones;
  }

  lemma DottedMaskText(a: nat, b: nat, c: nat, d: nat)
    requires a <= 255 && b <= 255 && c <= 255 && d <= 255
    ensures var dotted := Digits(a) + "." + Digits(b) + "." + Digits(c) + "." + Digits(d);
      DottedOctets(dotted) == Some([a, b, c, d]) && MaskNumber(dotted) == Some(16777216 * a + 65536 * b + 256 * c + d)
  {
    hide Digits, ParseInt, BigEndian, Split, DottedOctets, MaskNumber;
    DigitsPlain(a, '.');
    DigitsPlain(b, '.');
    DigitsPlain(c, '.');
    DigitsPlain(d, '.');
    FourFields(Digits(a), Digits(b), Digits(c), Digits(d));
    MaskOfFields(Digits(a) + "." + Digits(b) + "." + Digits(c) + "." + Digits(d), a, b, c, d);
  }

  lemma MaskOfFields(mask: string, a: nat, b: nat, c: nat, d: nat)
    requires Split(mask, '.') == [Digits(a), Digits(b), Digits(c), Digits(d)] && '.' in mask
    requires a <= 255 && b <= 255 && c <= 255 && d <= 255
    ensures DottedOctets(mask) == Some([a, b, c, d]) && MaskNumber(mask) == Some(16777216 * a + 65536 * b + 256 * c + d)
  {
    ParsePrinted(a);
    ParsePrinted(b);
    ParsePrinted(c);
    ParsePrinted(d);
    BigEndianOfFour(a, b, c, d);
    NoDotInPrefix(mask);
    hide Digits, ParseInt, BigEndian, Split, PrefixLength;
    var parts := Split(mask, '.');
    assert parts[0] == Digits(a) && parts[1] == Digits(b) && parts[2] == Digits(c) && parts[3] == Digits(d);
    assert DottedOctets(mask).value == [a, b, c, d];
  }

  lemma NoDotInPrefix(mask: string)
    ensures '.' in mask ==> PrefixLength(mask).None?
  {
    if PrefixLength(mask).Some? { DigitsPlain(PrefixLength(mask).value, '.'); }
  }

  // ----- which rules can be installed -----

  predicate PortOrNone(port: Option<int>) {
    port.None? || 0 <= port.value <= 65535
  }

  predicate AddressOrNone(addr: Option<string>) {
    addr in {None, Some("")} || IpNumber(addr.value).Some?
  }

  predicate MaskOrNone(mask: Option<string>) {
    mask in {None, Some("")} || exists p :: 0 <= p <= 32 && MaskNumber(mask.value) == Some(Ones(32, p))
  }

  /** The conditions on a rule, each written out. */
  lemma InstallableIff(r: Rule)
    ensures WellFormed(r) <==>
      && r.name != "" && r.action in {"ACCEPT", "DROP", "REJECT"} && r.direction in {"IN", "OUT", "INOUT"}
      && ToLower(r.protocol) in {"tcp", "udp", "icmp", "all"}
      && PortOrNone(r.srcPortStart) && PortOrNone(r.srcPortEnd) && PortOrNone(r.dstPortStart) && PortOrNone(r.dstPortEnd)
      && (r.srcPortEnd.Some? ==> r.srcPortStart.Some? && r.srcPortStart.value <= r.srcPortEnd.value)
      && (r.dstPortEnd.Some? ==> r.dstPortStart.Some? && r.dstPortStart.value <= r.dstPortEnd.value)
      && (r.srcPortStart.Some? || r.dstPortStart.Some? ==> ToLower(r.protocol) in {"tcp", "udp"})
      && AddressOrNone(r.srcIpAddr) && AddressOrNone(r.dstIpAddr) && MaskOrNone(r.srcIpMask) && MaskOrNone(r.dstIpMask)
      && (r.connectionState.Some? ==>
            forall k :: k in r.connectionState.value ==> k in {"established", "new", "related", "invalid"})
  {
    MaskOrNoneIff(r.srcIpMask);
    MaskOrNoneIff(r.dstIpMask);
    hide ToLower, IpNumber, ValidMask, MaskOrNone;
  }

  lemma MaskOrNoneIff(mask: Option<string>)
    ensures MaskOrNone(mask) <==> (Given(mask) ==> ValidMask(mask.value))
  {
    hide MaskNumber, Ones;
    if Given(mask) && ValidMask(mask.value) {
      var p :| 0 <= p <= 32 && IsPrefixMask(mask.value, p);
      assert MaskNumber(mask.value) == Some(Ones(32, p));
    }
    if Given(mask) && MaskOrNone(mask) {
      var p :| 0 <= p <= 32 && MaskNumber(mask.value) == Some(Ones(32, p));
      assert IsPrefixMask(mask.value, p);
    }
  }

  /** A rule that enables one state speaks about the packets in that state; disabled states do not matter. */
  lemma OneStateEnabled(name: string, other: string, p: Packet)
    requires name in {"established", "new", "related", "invalid"} && other in {"established", "new", "related", "invalid"}
    ensures StateMatches(Some(map[name := true]), p) <==> p.ctState == name
    ensures name != other ==> (StateMatches(Some(map[name := true, other := true]), p) <==> p.ctState in {name, other})
    ensures StateMatches(Some(map[name := false]), p) && StateMatches(None, p)
  {
    assert ConnectionStates[0] == "established" && ConnectionStates[1] == "new"
        && ConnectionStates[2] == "related" && ConnectionStates[3] == "invalid";
    assert Enabled(Some(map[name := true]), name);
    hide ConnectionStates;
  }

  /** The error names a defect that is there. */
  predicate Tells(r: Rule, e: NftError) {
    match e
    case RuleInvalid =>
      || r.name == "" || r.action !in {"ACCEPT", "DROP", "REJECT"} || r.direction !in {"IN", "OUT", "INOUT"}
      || ((r.srcPortStart.Some? || r.srcPortEnd.Some? || r.dstPortStart.Some? || r.dstPortEnd.Some?)
          && ToLower(r.protocol) !in {"tcp", "udp"})
      || (r.connectionState.Some? && exists k :: k in r.connectionState.value && k !in {"established", "new", "related", "invalid"})
    case UnsupportedProtocol => ToLower(r.protocol) !in {"tcp", "udp", "icmp", "all"}
    case InvalidPortRange =>
      || !PortOrNone(r.srcPortStart) || !PortOrNone(r.srcPortEnd) || !PortOrNone(r.dstPortStart) || !PortOrNone(r.dstPortEnd)
      || (r.srcPortEnd.Some? && (r.srcPortStart.None? || r.srcPortStart.value > r.srcPortEnd.value))
      || (r.dstPortEnd.Some? && (r.dstPortStart.None? || r.dstPortStart.value > r.dstPortEnd.value))
    case InvalidIpAddress => !AddressOrNone(r.srcIpAddr) || !AddressOrNone(r.dstIpAddr)
    case InvalidSubnetMask => !MaskOrNone(r.srcIpMask) || !MaskOrNone(r.dstIpMask)
  }

  /** A rule that cannot be translated is refused for a defect it has. */
  lemma ErrorTellsDefect(r: Rule, tap: string)
    ensures Translate(r, tap).Err? && r.direction != "INOUT" ==> Tells(r, Translate(r, tap).error)
  {
    ValidateTells(r);
    hide Tells, Validate, ToLower, AddressWords, PortWords, StateWords, ActionWord, Comment, AddressOrNone, MaskOrNone;
    if Validate(r).None? && Translate(r, tap).Err? && r.direction != "INOUT" { WordsTell(r, tap); }
  }

  /** And so is every rule that a chain leaves out, INOUT rules included. */
  lemma SkippedForDefect(r: Rule, tap: string)
    ensures FirstError(r, tap).Some? ==> Tells(r, FirstError(r, tap).value)
  {
    if r.direction == "INOUT" {
      ErrorTellsDefect(r.(direction := "IN"), tap);
      ErrorTellsDefect(r.(direction := "OUT"), tap);
    } else {
      ErrorTellsDefect(r, tap);
    }
    hide Translate, AddressOrNone, MaskOrNone, ToLower;
  }

  lemma ValidateTells(r: Rule)
    ensures Validate(r).Some? ==> Tells(r, Validate(r).value)
  {
    InvalidTells(r);
    AddressesTell(r);
    PortsTell(r);
    hide Validate, ToLower, AddressOrNone, MaskOrNone, PortOrNone;
  }

  lemma InvalidTells(r: Rule)
    ensures Validate(r) == Some(RuleInvalid) ==> Tells(r, RuleInvalid)
    ensures Validate(r) == Some(UnsupportedProtocol) ==> Tells(r, UnsupportedProtocol)
  {
    assert ToLower("") == "" && ToLower("all") == "all";
    hide ToLower, IpNumber, ValidMask, Given, IsPort, AddressOrNone, MaskOrNone, PortOrNone;
  }

  lemma PortsTell(r: Rule)
    ensures Validate(r) == Some(InvalidPortRange) ==> Tells(r, InvalidPortRange)
  {
    hide ToLower, IpNumber, ValidMask, Given, AddressOrNone, MaskOrNone;
  }

  lemma AddressesTell(r: Rule)
    ensures Validate(r) == Some(InvalidIpAddress) ==> Tells(r, InvalidIpAddress)
    ensures Validate(r) == Some(InvalidSubnetMask) ==> Tells(r, InvalidSubnetMask)
  {
    MaskOrNoneIff(r.srcIpMask);
    MaskOrNoneIff(r.dstIpMask);
    hide ToLower, IpNumber, ValidMask, MaskOrNone, IsPort, PortOrNone;
  }

  /** Past the checks only the direction or an empty protocol can still stop the translation. */
  lemma WordsTell(r: Rule, tap: string)
    requires Validate(r).None? && Translate(r, tap).Err? && r.direction != "INOUT"
    ensures Tells(r, Translate(r, tap).error)
  {
    MaskGivenConverts(r.srcIpMask);
    MaskGivenConverts(r.dstIpMask);
    hide IpNumber, ValidMask, MaskOrNone, CidrOf, PortWords, StateWords, Comment, ActionWord, ToLower, AddressOrNone;
  }

  lemma MaskGivenConverts(mask: Option<string>)
    ensures Given(mask) && ValidMask(mask.value) ==> CidrOf(mask.value).Ok?
  {
    if Given(mask) && ValidMask(mask.value) { MaskConverts(mask); }
  }

  /** The comment of a short plain name is the name; a longer one is cut at 64 characters. */
  lemma CommentShowsName(name: string)
    requires name != "" && !IsSpace(name[0]) && !IsSpace(name[|name| - 1])
    requires forall c :: c in name ==> c !in ['"', '\\', '\n', '\r', '\t']
    ensures |name| <= 64 ==> Comment(name) == name
    ensures |Comment(name)| <= 64
  {
    CleanLength(if |name| > 64 then name[..64] else name);
    TrimVisible(name);
    hide Trim, CleanText;
    if |name| <= 64 { PlainIsClean(name); }
  }

  /** What a comment may not hold is replaced, character by character. */
  lemma {:induction false} CleanTextAt(s: string, i: nat)
    requires i < |s|
    ensures |CleanText(s)| == |s|
    ensures s[i] == '"' ==> CleanText(s)[i] == '\''
    ensures s[i] == '\\' ==> CleanText(s)[i] == '/'
    ensures s[i] in ['\n', '\r', '\t'] ==> CleanText(s)[i] == ' '
    ensures s[i] !in ['"', '\\', '\n', '\r', '\t'] ==> CleanText(s)[i] == s[i]
  {
    CleanLength(s);
    if i > 0 { CleanTextAt(s[1..], i - 1); }
  }

  lemma {:induction false} CleanLength(s: string)
    ensures |CleanText(s)| == |s|
  {
    if s != "" { CleanLength(s[1..]); }
  }

  lemma {:induction false} PlainIsClean(s: string)
    requires forall c :: c in s ==> c !in ['"', '\\', '\n', '\r', '\t']
    ensures CleanText(s) == s
  {
    if s != "" {
      assert s == [s[0]] + s[1..] && s[0] in s;
      PlainIsClean(s[1..]);
    }
  }
}
