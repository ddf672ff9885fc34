/** One firewall rule to the words of one nft rule, and the proof that both mean the same. */
module RuleTranslator {
  import opened Wrappers
  import opened JsText
  import opened StableSort
  import opened SubnetMask
  import opened FirewallRules
  import opened Nft

  datatype NftError = RuleInvalid | UnsupportedProtocol | InvalidPortRange | InvalidIpAddress | InvalidSubnetMask

  // ----- validation -----

  /** The first check that fails, in the order the translator makes them. */
  function Validate(r: Rule): Option<NftError> {
    var protocol := ToLower(if r.protocol == "" then "all" else r.protocol);
    if r.name == "" then Some(RuleInvalid)
    else if r.action !in ["ACCEPT", "DROP", "REJECT"] then Some(RuleInvalid)
    else if r.direction == "" then Some(RuleInvalid)
    else if protocol !in SupportedProtocols then Some(UnsupportedProtocol)
    else if r.srcPortEnd.Some? && r.srcPortStart.None? then Some(InvalidPortRange)
    else if r.dstPortEnd.Some? && r.dstPortStart.None? then Some(InvalidPortRange)
    else if r.srcPortStart.Some? && r.srcPortEnd.Some? && r.srcPortStart.value > r.srcPortEnd.value then
      Some(InvalidPortRange)
    else if r.dstPortStart.Some? && r.dstPortEnd.Some? && r.dstPortStart.value > r.dstPortEnd.value then
      Some(InvalidPortRange)
    else if !IsPort(r.srcPortStart) || !IsPort(r.srcPortEnd) || !IsPort(r.dstPortStart) || !IsPort(r.dstPortEnd) then
      Some(InvalidPortRange)
    else if (r.srcPortStart.Some? || r.srcPortEnd.Some? || r.dstPortStart.Some? || r.dstPortEnd.Some?)
            && protocol != "tcp" && protocol != "udp" then Some(RuleInvalid)
    else if Given(r.srcIpAddr) && IpNumber(r.srcIpAddr.value).None? then Some(InvalidIpAddress)
    else if Given(r.dstIpAddr) && IpNumber(r.dstIpAddr.value).None? then Some(InvalidIpAddress)
    else if Given(r.srcIpMask) && !ValidMask(r.srcIpMask.value) then Some(InvalidSubnetMask)
    else if Given(r.dstIpMask) && !ValidMask(r.dstIpMask.value) then Some(InvalidSubnetMask)
    else if r.connectionState.Some? && exists k :: k in r.connectionState.value && k !in ConnectionStates then
      Some(RuleInvalid)
    else None
  }

  // ----- words -----

  function DirectionWords(direction: string, tap: string): Result<seq<string>, NftError> {
    if direction == "IN" then Ok(["oifname", tap])
    else if direction == "OUT" then Ok(["iifname", tap])
    else Err(RuleInvalid)
  }

  function ProtocolWords(protocol: string): Result<seq<string>, NftError> {
    if protocol == "all" then Ok([])
    else if protocol == "tcp" || protocol == "udp" || protocol == "icmp" then Ok(["ip", "protocol", protocol])
    else Err(UnsupportedProtocol)
  }

  function AddressWords(field: string, addr: Option<string>, mask: Option<string>): Result<seq<string>, NftError> {
    if !Given(addr) then Ok([])
    else if !Given(mask) then Ok(["ip", field, addr.value])
    else
      match CidrOf(mask.value)
      case Ok(cidr) => Ok(["ip", field, addr.value + "/" + cidr])
      case Err(_) => Err(InvalidSubnetMask)
  }

  function PortText(start: nat, end: Option<int>): string
    requires IsPort(end)
  {
    if end.Some? && end.value != start then Digits(start) + "-" + Digits(end.value)
    else Digits(start)
  }

  function PortWords(protocol: string, field: string, start: Option<int>, end: Option<int>): seq<string>
    requires IsPort(start) && IsPort(end)
  {
    if (protocol == "tcp" || protocol == "udp") && start.Some? then
      [protocol, field, PortText(start.value, end)]
    else []
  }

  function EnabledStates(states: Option<map<string, bool>>): seq<string> {
    Filter(ConnectionStates, name => Enabled(states, name))
  }

  function StateText(names: seq<string>): string
    requires names != []
  {
    if |names| == 1 then names[0] else "{ " + Join(names, ", ") + " }"
  }

  function StateWords(states: Option<map<string, bool>>): seq<string> {
    var enabled := EnabledStates(states);
    if enabled == [] then [] else ["ct", "state", StateText(enabled)]
  }

  function ActionWord(action: string): string {
    ToLower(action)
  }

  function CleanChar(c: char): char {
    if c == '"' then '\'' else if c == '\\' then '/' else if c == '\n' || c == '\r' || c == '\t' then ' ' else c
  }

  function CleanText(s: string): (r: string)
    ensures '"' !in r && '\n' !in r
  {
    if s == "" then "" else [CleanChar(s[0])] + CleanText(s[1..])
  }

  function Comment(name: string): string {
    Trim(CleanText(if |name| > 64 then name[..64] else name))
  }

  /** All the words of a rule, or the reason it cannot be installed. */
  function Translate(r: Rule, tap: string): Result<seq<string>, NftError> {
    if Validate(r).Some? then Err(Validate(r).value)
    else
      var protocol := ToLower(r.protocol);
      match (DirectionWords(r.direction, tap), ProtocolWords(protocol),
             AddressWords("saddr", r.srcIpAddr, r.srcIpMask), AddressWords("daddr", r.dstIpAddr, r.dstIpMask))
      case (Err(e), _, _, _) => Err(e)
      case (Ok(_), Err(e), _, _) => Err(e)
      case (Ok(_), Ok(_), Err(e), _) => Err(e)
      case (Ok(_), Ok(_), Ok(_), Err(e)) => Err(e)
      case (Ok(direction), Ok(proto), Ok(saddr), Ok(daddr)) =>
        Ok(direction + (proto + (saddr + (daddr
           + (PortWords(protocol, "sport", r.srcPortStart, r.srcPortEnd)
           + (PortWords(protocol, "dport", r.dstPortStart, r.dstPortEnd)
           + (StateWords(r.connectionState)
           + [ActionWord(r.action), "comment", "\"" + Comment(r.name) + "\""])))))))
  }

  /** A concrete rule translates exactly when it is well formed. */
  lemma TranslateIffWellFormed(r: Rule, tap: string)
    requires r.direction != "INOUT"
    ensures Translate(r, tap).Ok? <==> WellFormed(r)
  {
    ValidateNoneIff(r);
    hide Validate, ToLower, AddressWords, PortWords, StateWords, ActionWord, Comment;
    if WellFormed(r) {
      WordsOk(r);
    }
  }

  /** The checks pass for well-formed rules, and otherwise only for a bad direction or an empty protocol. */
  lemma ValidateNoneIff(r: Rule)
    ensures WellFormed(r) <==>
              Validate(r).None? && r.direction in ["IN", "OUT", "INOUT"] && ToLower(r.protocol) in SupportedProtocols
  {
    assert ToLower("") == "" && ToLower("all") == "all";
    hide IpNumber, ValidMask, IsPortRange;
    PortsChecked(r.srcPortStart, r.srcPortEnd);
    PortsChecked(r.dstPortStart, r.dstPortEnd);
  }

  lemma PortsChecked(start: Option<int>, end: Option<int>)
    ensures IsPortRange(start, end) <==>
              && IsPort(start) && IsPort(end) && !(end.Some? && start.None?)
              && !(start.Some? && end.Some? && start.value > end.value)
  {
  }

  lemma WordsOk(r: Rule)
    requires WellFormed(r)
    ensures ProtocolWords(ToLower(r.protocol)).Ok?
    ensures AddressWords("saddr", r.srcIpAddr, r.srcIpMask).Ok? && AddressWords("daddr", r.dstIpAddr, r.dstIpMask).Ok?
  {
    MaskConverts(r.srcIpMask);
    MaskConverts(r.dstIpMask);
    hide ToLower, ValidMask, CidrOf, IpNumber;
  }

  lemma MaskConverts(mask: Option<string>)
    requires Given(mask) ==> ValidMask(mask.value)
    ensures Given(mask) ==> CidrOf(mask.value).Ok?
  {
    if Given(mask) {
      var p :| 0 <= p <= 32 && IsPrefixMask(mask.value, p);
      CidrIsPrefixLength(mask.value, p);
    }
  }

  // ----- each group of words means its part of the rule -----

  lemma ProtocolGroup(protocol: string, rest: seq<string>, p: Packet)
    requires ToLower(protocol) in SupportedProtocols && rest != []
    ensures ProtocolWords(ToLower(protocol)).Ok?
    ensures Eval(ProtocolWords(ToLower(protocol)).value + rest, p)
         == if ProtocolMatches(protocol, p) then Eval(rest, p) else Continue
  {
    var words := ProtocolWords(ToLower(protocol)).value;
    if words == [] {
      assert words + rest == rest;
    } else {
      Group3(words[0], words[1], words[2], rest, p);
    }
  }

  /** A match expression in front of other words. */
  lemma Group3(subject: string, field: string, arg: string, rest: seq<string>, p: Packet)
    requires subject in ["ip", "tcp", "udp", "ct"]
    ensures var holds := Holds(subject, field, arg, p);
            holds.Some? ==> Eval([subject, field, arg] + rest, p) == (if holds.value then Eval(rest, p) else Continue)
  {
    var words := [subject, field, arg] + rest;
    assert words[3..] == rest;
  }

  // ----- addresses -----

  predicate AddressChar(c: char) {
    IsDigit(c) || c == '.'
  }

  lemma {:induction false} JoinChars(parts: seq<string>, i: nat)
    requires forall k :: 0 <= k < |parts| ==> AllDigits(parts[k])
    requires i < |Join(parts, ".")|
    ensures AddressChar(Join(parts, ".")[i])
  {
    if |parts| > 1 && i > |parts[0]| {
      JoinChars(parts[1..], i - |parts[0]| - 1);
    }
  }

  lemma AddressChars(addr: string)
    requires IpNumber(addr).Some?
    ensures addr != "" && forall i :: 0 <= i < |addr| ==> AddressChar(addr[i])
  {
    SplitParts(addr, '.');
    forall i | 0 <= i < |addr| ensures AddressChar(addr[i]) {
      JoinChars(Split(addr, '.'), i);
    }
  }

  lemma PrefixLengthOfDigits(p: nat)
    requires p <= 32
    ensures PrefixLength(Digits(p)) == Some(p)
  {
    ParsePrinted(p);
  }

  lemma NetworkOfText(addr: string, p: nat)
    requires IpNumber(addr).Some? && p <= 32
    ensures Network(addr) == Some((IpNumber(addr).value, 32))
    ensures Network(addr + "/" + Digits(p)) == Some((IpNumber(addr).value, p))
  {
    AddressChars(addr);
    SplitNoSep(addr, '/');
    DigitsPlain(p, '/');
    SplitNoSep(Digits(p), '/');
    SplitAtSep(addr, Digits(p), '/');
    PrefixLengthOfDigits(p);
  }

  lemma MaskMeansPrefix(mask: string, p: nat, a: nat, b: nat)
    requires IsPrefixMask(mask, p) && a < Pow2(32) && b < Pow2(32)
    ensures BitAnd(a, MaskNumber(mask).value) == BitAnd(b, MaskNumber(mask).value) <==> InNetwork(a, (b, p))
  {
    MaskedEqualIffPrefixEqual(a, b, 32, p);
  }

  /** Comparing the prefix is comparing under the mask. */
  lemma AddressText(addr: Option<string>, mask: Option<string>, a: nat) returns (text: string, net: (nat, nat))
    requires Given(addr) && IpNumber(addr.value).Some?
    requires Given(mask) ==> ValidMask(mask.value)
    requires a < Pow2(32)
    ensures AddressWords("saddr", addr, mask) == Ok(["ip", "saddr", text])
    ensures AddressWords("daddr", addr, mask) == Ok(["ip", "daddr", text])
    ensures net.1 <= 32 && Network(text) == Some(net)
    ensures InNetwork(a, net) <==> AddressMatches(addr, mask, a)
  {
    text, net := addr.value, (IpNumber(addr.value).value, 32);
    if Given(mask) {
      var p :| 0 <= p <= 32 && IsPrefixMask(mask.value, p);
      CidrIsPrefixLength(mask.value, p);
      text, net := addr.value + "/" + Digits(p), (IpNumber(addr.value).value, p);
      NetworkOfText(addr.value, p);
      IpNumberBound(addr.value);
      MaskMeansPrefix(mask.value, p, a, IpNumber(addr.value).value);
    } else {
      NetworkOfText(addr.value, 32);
    }
  }

  predicate SourceMatches(addr: Option<string>, mask: Option<string>, p: Packet) {
    Given(addr) ==> p.ip.Some? && AddressMatches(addr, mask, p.ip.value.saddr)
  }

  predicate DestinationMatches(addr: Option<string>, mask: Option<string>, p: Packet) {
    Given(addr) ==> p.ip.Some? && AddressMatches(addr, mask, p.ip.value.daddr)
  }

  lemma AddressGroups(addr: Option<string>, mask: Option<string>, rest: seq<string>, p: Packet)
    requires Given(addr) ==> IpNumber(addr.value).Some?
    requires Given(mask) ==> ValidMask(mask.value)
    requires ValidPacket(p)
    ensures AddressWords("saddr", addr, mask).Ok? && AddressWords("daddr", addr, mask).Ok?
    ensures Eval(AddressWords("saddr", addr, mask).value + rest, p)
         == if SourceMatches(addr, mask, p) then Eval(rest, p) else Continue
    ensures Eval(AddressWords("daddr", addr, mask).value + rest, p)
         == if DestinationMatches(addr, mask, p) then Eval(rest, p) else Continue
  {
    if !Given(addr) {
      assert [] + rest == rest;
    } else {
      hide AddressMatches, IpNumber, ValidMask, CidrOf, Network, InNetwork;
      var source := if p.ip.Some? then p.ip.value.saddr else 0;
      var destination := if p.ip.Some? then p.ip.value.daddr else 0;
      PositivePow2();
      var text, net := AddressText(addr, mask, source);
      var text', net' := AddressText(addr, mask, destination);
      assert text == text';
      Group3("ip", "saddr", text, rest, p);
      Group3("ip", "daddr", text, rest, p);
    }
  }

  lemma PositivePow2()
    ensures 0 < Pow2(32)
  {
    Pow2Of32();
  }

  // ----- ports -----

  lemma PortSetOfText(start: nat, end: Option<int>)
    requires IsPort(end)
    ensures PortSet(PortText(start, end)) == Some((start, if end.Some? then end.value else start))
  {
    if end.Some? && end.value != start { RangeOfText(start, end.value); } else { RangeOfOnePort(start); }
    hide PortSet, Digits;
  }

  lemma RangeOfOnePort(port: nat)
    ensures PortSet(Digits(port)) == Some((port, port))
  {
    DigitsPlain(port, '-');
    DigitsValueOf(port);
    SplitNoSep(Digits(port), '-');
    hide Digits, DigitsValue, Split;
  }

  lemma RangeOfText(start: nat, end: nat)
    ensures PortSet(Digits(start) + "-" + Digits(end)) == Some((start, end))
  {
    DigitsPlain(start, '-');
    DigitsPlain(end, '-');
    DigitsValueOf(start);
    DigitsValueOf(end);
    SplitNoSep(Digits(end), '-');
    SplitAtSep(Digits(start), Digits(end), '-');
    hide Digits, DigitsValue, Split;
    assert Digits(start) + "-" + Digits(end) == Digits(start) + ['-'] + Digits(end);
  }

  lemma PortGroups(r: Rule, rest: seq<string>, p: Packet)
    requires WellFormed(r) && ProtocolMatches(r.protocol, p)
    ensures Eval(PortWords(ToLower(r.protocol), "sport", r.srcPortStart, r.srcPortEnd) + rest, p)
         == if r.srcPortStart.Some? ==> p.ip.Some? && PortMatches(r.srcPortStart, r.srcPortEnd, p.ip.value.sport)
            then Eval(rest, p) else Continue
    ensures Eval(PortWords(ToLower(r.protocol), "dport", r.dstPortStart, r.dstPortEnd) + rest, p)
         == if r.dstPortStart.Some? ==> p.ip.Some? && PortMatches(r.dstPortStart, r.dstPortEnd, p.ip.value.dport)
            then Eval(rest, p) else Continue
  {
    var protocol := ToLower(r.protocol);
    assert [] + rest == rest;
    if r.srcPortStart.Some? {
      PortSetOfText(r.srcPortStart.value, r.srcPortEnd);
      Group3(protocol, "sport", PortText(r.srcPortStart.value, r.srcPortEnd), rest, p);
    }
    if r.dstPortStart.Some? {
      PortSetOfText(r.dstPortStart.value, r.dstPortEnd);
      Group3(protocol, "dport", PortText(r.dstPortStart.value, r.dstPortEnd), rest, p);
    }
  }

  // ----- connection states -----

  predicate IsName(s: string) {
    && s != "" && !IsSpace(s[0]) && !IsSpace(s[|s| - 1]) && s[0] != '{' && s[0] != '"'
    && ',' !in s && ' ' !in s && '\n' !in s && '}' !in s
  }

  lemma TrimLeadingBlank(s: string)
    ensures Trim(" " + s) == Trim(s)
  {
    assert (" " + s)[1..] == s;
  }

  lemma SplitLeadingBlank(s: string)
    ensures TrimAll(Split(" " + s, ',')) == TrimAll(Split(s, ','))
  {
    var parts := Split(s, ',');
    assert (" " + s)[1..] == s;
    assert Split(" " + s, ',') == [" " + parts[0]] + parts[1..];
    TrimLeadingBlank(parts[0]);
    assert ([" " + parts[0]] + parts[1..])[1..] == parts[1..];
  }

  lemma {:induction false} NameListRead(names: seq<string>)
    requires names != [] && forall i :: 0 <= i < |names| ==> IsName(names[i])
    ensures TrimAll(Split(Join(names, ", "), ',')) == names
  {
    TrimVisible(names[0]);
    if |names| == 1 {
      SplitNoSep(names[0], ',');
      assert [names[0]][1..] == [];
    } else {
      var rest := Join(names[1..], ", ");
      assert Join(names, ", ") == names[0] + [','] + (" " + rest);
      SplitAtSep(names[0], " " + rest, ',');
      SplitLeadingBlank(rest);
      NameListRead(names[1..]);
      assert ([names[0]] + Split(" " + rest, ','))[1..] == Split(" " + rest, ',');
    }
  }

  lemma PlainNameSet(text: string)
    requires text != "" && text[0] != '{'
    ensures NameSet(text) == [text]
  {
    if |text| >= 4 { assert text[..2][0] == text[0]; }
  }

  lemma Between(open: string, inner: string, close: string)
    ensures var text := open + inner + close;
      && |text| == |open| + |inner| + |close|
      && text[..|open|] == open && text[|text| - |close|..] == close && text[|open|..|text| - |close|] == inner
  {
  }

  lemma BracedNameSet(inner: string)
    ensures NameSet("{ " + inner + " }") == TrimAll(Split(inner, ','))
  {
    hide TrimAll, Split;
    var open, close := "{ ", " }";
    Between(open, inner, close);
  }

  lemma NameSetOfText(names: seq<string>)
    requires names != [] && forall i :: 0 <= i < |names| ==> IsName(names[i])
    ensures NameSet(StateText(names)) == names
  {
    if |names| == 1 {
      PlainNameSet(names[0]);
    } else {
      NameListRead(names);
      BracedNameSet(Join(names, ", "));
    }
  }

  lemma StatesAreNames(s: string)
    requires s in ConnectionStates
    ensures IsName(s)
  {
    assert IsName("established");
    assert IsName("new");
    assert IsName("related");
    assert IsName("invalid");
  }

  lemma EnabledMeaning(states: Option<map<string, bool>>)
    ensures forall i :: 0 <= i < |EnabledStates(states)| ==> IsName(EnabledStates(states)[i])
    ensures EnabledStates(states) == [] <==> forall i :: 0 <= i < 4 ==> !Enabled(states, ConnectionStates[i])
    ensures forall s :: s in EnabledStates(states)
                  <==> exists i :: 0 <= i < 4 && ConnectionStates[i] == s && Enabled(states, s)
  {
    var enabled := EnabledStates(states);
    forall s ensures s in enabled <==> s in ConnectionStates && Enabled(states, s) {
      FilterMember(ConnectionStates, name => Enabled(states, name), s);
    }
    forall i | 0 <= i < |enabled| ensures IsName(enabled[i]) {
      assert enabled[i] in enabled;
      StatesAreNames(enabled[i]);
    }
    if enabled != [] {
      assert enabled[0] in enabled;
    }
    forall i | 0 <= i < 4 && Enabled(states, ConnectionStates[i]) ensures enabled != [] {
      assert ConnectionStates[i] in enabled;
    }
  }

  lemma StateMatchesIff(states: Option<map<string, bool>>, p: Packet)
    ensures StateMatches(states, p) <==> EnabledStates(states) == [] || p.ctState in EnabledStates(states)
  {
    EnabledMeaning(states);
  }

  lemma StateGroup(states: Option<map<string, bool>>, rest: seq<string>, p: Packet)
    ensures Eval(StateWords(states) + rest, p) == if StateMatches(states, p) then Eval(rest, p) else Continue
  {
    var enabled := EnabledStates(states);
    StateMatchesIff(states, p);
    hide StateMatches, Enabled;
    if enabled == [] {
      assert [] + rest == rest;
    } else {
      EnabledMeaning(states);
      NameSetOfText(enabled);
      var text := StateText(enabled);
      assert Holds("ct", "state", text, p) == Some(p.ctState in enabled);
      Group3("ct", "state", text, rest, p);
    }
  }

  // ----- the whole rule -----

  lemma DirectionGroup(direction: string, tap: string, rest: seq<string>, p: Packet)
    requires direction == "IN" || direction == "OUT"
    ensures DirectionWords(direction, tap).Ok?
    ensures Eval(DirectionWords(direction, tap).value + rest, p)
         == if DirectionMatches(direction, tap, p) then Eval(rest, p) else Continue
  {
    var words := DirectionWords(direction, tap).value + rest;
    assert words[2..] == rest;
  }

  lemma VerdictGroup(r: Rule, p: Packet)
    requires WellFormed(r)
    ensures Eval([ActionWord(r.action), "comment", "\"" + Comment(r.name) + "\""], p) == Decided(VerdictOf(r.action))
  {
    ActionIsWord(r.action);
    hide WellFormed, ActionWord, Comment, VerdictWord;
    VerdictEnds(ActionWord(r.action), "\"" + Comment(r.name) + "\"", p);
  }

  lemma VerdictEnds(word: string, comment: string, p: Packet)
    requires VerdictWord(word).Some?
    ensures Eval([word, "comment", comment], p) == Decided(VerdictWord(word).value)
  {
    hide VerdictWord, Holds;
  }

  /** The words of a well-formed IN or OUT rule decide exactly the packets the rule speaks about. */
  lemma TranslationMeansRule(r: Rule, tap: string, p: Packet)
    requires WellFormed(r) && r.direction != "INOUT" && ValidPacket(p)
    ensures Translate(r, tap).Ok?
    ensures Eval(Translate(r, tap).value, p)
         == if Matches(r, tap, p) then Decided(VerdictOf(r.action)) else Continue
  {
    TranslateIffWellFormed(r, tap);
    var protocol := ToLower(r.protocol);
    var tail := [ActionWord(r.action), "comment", "\"" + Comment(r.name) + "\""];
    var states := StateWords(r.connectionState) + tail;
    var dports := PortWords(protocol, "dport", r.dstPortStart, r.dstPortEnd) + states;
    var sports := PortWords(protocol, "sport", r.srcPortStart, r.srcPortEnd) + dports;
    var daddr := AddressWords("daddr", r.dstIpAddr, r.dstIpMask).value + sports;
    var saddr := AddressWords("saddr", r.srcIpAddr, r.srcIpMask).value + daddr;
    var proto := ProtocolWords(protocol).value + saddr;
    assert Translate(r, tap).value == DirectionWords(r.direction, tap).value + proto;
    DirectionGroup(r.direction, tap, proto, p);
    ProtocolGroup(r.protocol, saddr, p);
    AddressGroups(r.srcIpAddr, r.srcIpMask, daddr, p);
    AddressGroups(r.dstIpAddr, r.dstIpMask, sports, p);
    if ProtocolMatches(r.protocol, p) {
      PortGroups(r, dports, p);
      PortGroups(r, states, p);
    }
    StateGroup(r.connectionState, tail, p);
    VerdictGroup(r, p);
  }

  // ----- every piece is one word of the script -----

  lemma {:induction false} JoinAvoids(parts: seq<string>, sep: string, c: char)
    requires c !in sep && forall i :: 0 <= i < |parts| ==> c !in parts[i]
    ensures c !in Join(parts, sep)
  {
    if |parts| > 1 {
      JoinAvoids(parts[1..], sep, c);
    }
  }

  lemma StateTextIsWord(names: seq<string>)
    requires names != [] && forall i :: 0 <= i < |names| ==> IsName(names[i])
    ensures IsWord(StateText(names))
  {
    if |names| > 1 {
      var inner := Join(names, ", ");
      JoinAvoids(names, ", ", '}');
      JoinAvoids(names, ", ", '\n');
      var text := "{ " + inner + " }";
      assert text[1..|text| - 1] == " " + inner + " ";
    }
  }

  lemma TrimAvoids(s: string, c: char)
    requires c !in s
    ensures c !in Trim(s)
  {
    var t := TrimStart(s);
    assert c !in t;
  }

  lemma QuotedIsWord(s: string)
    requires '"' !in s && '\n' !in s
    ensures IsWord("\"" + s + "\"")
  {
    var text := "\"" + s + "\"";
    assert text[1..|text| - 1] == s;
  }

  lemma CommentIsWord(name: string)
    ensures IsWord("\"" + Comment(name) + "\"")
  {
    var clean := CleanText(if |name| > 64 then name[..64] else name);
    TrimAvoids(clean, '"');
    TrimAvoids(clean, '\n');
    QuotedIsWord(Comment(name));
  }

  predicate AllWords(words: seq<string>) {
    forall i :: 0 <= i < |words| ==> IsWord(words[i])
  }

  lemma DigitsAreWord(n: nat)
    ensures IsWord(Digits(n))
  {
    DigitsPlain(n, '\n');
    DigitsPlain(n, ' ');
  }

  lemma PortTextIsWord(start: nat, end: Option<int>)
    requires IsPort(end)
    ensures IsWord(PortText(start, end))
  {
    DigitsAreWord(start);
    assert IsDigit(Digits(start)[0]);
    DigitsPlain(start, ' ');
    if end.Some? {
      DigitsPlain(end.value, ' ');
      DigitsPlain(end.value, '\n');
    }
  }

  lemma AddressTextIsWord(addr: string, p: nat)
    requires IpNumber(addr).Some?
    ensures IsWord(addr) && IsWord(addr + "/" + Digits(p))
  {
    AddressChars(addr);
    DigitsPlain(p, ' ');
    DigitsPlain(p, '\n');
  }

  lemma AddressWordsAreWords(field: string, addr: Option<string>, mask: Option<string>, rest: seq<string>)
    requires Given(addr) ==> IpNumber(addr.value).Some?
    requires Given(mask) ==> ValidMask(mask.value)
    requires IsWord(field) && AllWords(rest)
    ensures AddressWords(field, addr, mask).Ok? && AllWords(AddressWords(field, addr, mask).value + rest)
  {
    if Given(addr) {
      AddressTextIsWord(addr.value, 0);
      if Given(mask) {
        var p :| 0 <= p <= 32 && IsPrefixMask(mask.value, p);
        CidrIsPrefixLength(mask.value, p);
        AddressTextIsWord(addr.value, p);
        ThreeWords("ip", field, addr.value + "/" + Digits(p), rest);
      } else {
        ThreeWords("ip", field, addr.value, rest);
      }
    }
  }

  lemma ThreeWords(a: string, b: string, c: string, rest: seq<string>)
    requires IsWord(a) && IsWord(b) && IsWord(c) && AllWords(rest)
    ensures AllWords([a, b, c] + rest)
  {
  }

  lemma PortWordsAreWords(protocol: string, field: string, start: Option<int>, end: Option<int>, rest: seq<string>)
    requires IsPort(start) && IsPort(end) && IsWord(field) && AllWords(rest)
    ensures AllWords(PortWords(protocol, field, start, end) + rest)
  {
    if (protocol == "tcp" || protocol == "udp") && start.Some? {
      PortTextIsWord(start.value, end);
      ThreeWords(protocol, field, PortText(start.value, end), rest);
    }
  }

  lemma StateWordsAreWords(states: Option<map<string, bool>>, rest: seq<string>)
    requires AllWords(rest)
    ensures AllWords(StateWords(states) + rest)
  {
    EnabledMeaning(states);
    if EnabledStates(states) != [] {
      StateTextIsWord(EnabledStates(states));
      ThreeWords("ct", "state", StateText(EnabledStates(states)), rest);
    }
  }

  lemma FrontWordsAreWords(r: Rule, tap: string, rest: seq<string>)
    requires WellFormed(r) && r.direction != "INOUT" && IsWord(tap) && AllWords(rest)
    ensures AllWords(DirectionWords(r.direction, tap).value + (ProtocolWords(ToLower(r.protocol)).value + rest))
  {
    var protocol := ProtocolWords(ToLower(r.protocol)).value;
    if protocol != [] { ThreeWords(protocol[0], protocol[1], protocol[2], rest); }
    assert AllWords(protocol + rest);
  }

  /** No field of a rule, its free-text name included, can break out of its word. */
  lemma TranslationIsWords(r: Rule, tap: string)
    requires WellFormed(r) && r.direction != "INOUT" && IsWord(tap)
    ensures Translate(r, tap).Ok? && AllWords(Translate(r, tap).value)
  {
    TranslateIffWellFormed(r, tap);
    hide Validate, ToLower, WellFormed, ValidMask, IpNumber, IsWord, Comment, ActionWord, AddressWords, PortWords, StateWords;
    hide ProtocolWords, DirectionWords, AllWords, IsPort;
    var protocol := ToLower(r.protocol);
    var tail := [ActionWord(r.action), "comment", "\"" + Comment(r.name) + "\""];
    RuleFields(r);
    TailIsWords(r);
    StateWordsAreWords(r.connectionState, tail);
    var states := StateWords(r.connectionState) + tail;
    PortWordsAreWords(protocol, "dport", r.dstPortStart, r.dstPortEnd, states);
    var dports := PortWords(protocol, "dport", r.dstPortStart, r.dstPortEnd) + states;
    PortWordsAreWords(protocol, "sport", r.srcPortStart, r.srcPortEnd, dports);
    var sports := PortWords(protocol, "sport", r.srcPortStart, r.srcPortEnd) + dports;
    AddressWordsAreWords("daddr", r.dstIpAddr, r.dstIpMask, sports);
    var daddr := AddressWords("daddr", r.dstIpAddr, r.dstIpMask).value + sports;
    AddressWordsAreWords("saddr", r.srcIpAddr, r.srcIpMask, daddr);
    FrontWordsAreWords(r, tap, AddressWords("saddr", r.srcIpAddr, r.srcIpMask).value + daddr);
  }

  lemma RuleFields(r: Rule)
    requires WellFormed(r)
    ensures IsPort(r.srcPortStart) && IsPort(r.srcPortEnd) && IsPort(r.dstPortStart) && IsPort(r.dstPortEnd)
    ensures Given(r.srcIpAddr) ==> IpNumber(r.srcIpAddr.value).Some?
    ensures Given(r.dstIpAddr) ==> IpNumber(r.dstIpAddr.value).Some?
    ensures Given(r.srcIpMask) ==> ValidMask(r.srcIpMask.value)
    ensures Given(r.dstIpMask) ==> ValidMask(r.dstIpMask.value)
    ensures IsWord("sport") && IsWord("dport") && IsWord("saddr") && IsWord("daddr")
  {
  }

  lemma TailIsWords(r: Rule)
    requires WellFormed(r)
    ensures AllWords([ActionWord(r.action), "comment", "\"" + Comment(r.name) + "\""])
  {
    CommentIsWord(r.name);
    ActionIsWord(r.action);
    TwoWordsAndComment(ActionWord(r.action), "\"" + Comment(r.name) + "\"");
  }

  lemma TwoWordsAndComment(a: string, c: string)
    requires IsWord(a) && IsWord(c)
    ensures AllWords([a, "comment", c])
  {
  }

  lemma ActionIsWord(action: string)
    requires action in ["ACCEPT", "DROP", "REJECT"]
    ensures IsWord(ActionWord(action))
    ensures VerdictWord(ActionWord(action)) == Some(VerdictOf(action))
  {
    LowerAccept();
    LowerDrop();
    LowerReject();
    hide ToLower;
    assert "accept"[0] == 'a' && "drop"[0] == 'd' && "reject"[0] == 'r';
  }

  lemma LowerAccept()
    ensures ToLower("ACCEPT") == "accept"
  {
  }

  lemma LowerDrop()
    ensures ToLower("DROP") == "drop"
  {
  }

  lemma LowerReject()
    ensures ToLower("REJECT") == "reject"
  {
  }
}
