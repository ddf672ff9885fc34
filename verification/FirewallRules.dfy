/** Firewall rules as the database hands them over, and what each one means for a packet. */
module FirewallRules {
  import opened Wrappers
  import opened JsText
  import opened SubnetMask

  datatype Rule = Rule(
    id: string,
    name: string,
    action: string,
    direction: string,
    priority: int,
    protocol: string,
    srcPortStart: Option<int>,
    srcPortEnd: Option<int>,
    dstPortStart: Option<int>,
    dstPortEnd: Option<int>,
    srcIpAddr: Option<string>,
    srcIpMask: Option<string>,
    dstIpAddr: Option<string>,
    dstIpMask: Option<string>,
    connectionState: Option<map<string, bool>>,
    overridesDept: bool)

  datatype Verdict = Accept | Drop | Reject

  datatype IpHeader = IpHeader(protocol: string, saddr: nat, daddr: nat, sport: nat, dport: nat)

  /** A bridged frame: `ip` is absent for anything that is not IPv4. */
  datatype Packet = Packet(iif: string, oif: string, ip: Option<IpHeader>, ctState: string)

  /** Addresses are 32-bit numbers. */
  predicate ValidPacket(p: Packet) {
    p.ip.Some? ==> p.ip.value.saddr < Pow2(32) && p.ip.value.daddr < Pow2(32)
  }

  const SupportedProtocols: seq<string> := ["tcp", "udp", "icmp", "all"]

  const ConnectionStates: seq<string> := ["established", "new", "related", "invalid"]

  /** An optional string that is present and not empty. */
  predicate Given(s: Option<string>) {
    s.Some? && s.value != ""
  }

  // ----- addresses -----

  /** One octet as the IPv4 pattern admits it: 250-255, 200-249, or up to three digits below 200. */
  predicate IsOctetText(s: string) {
    && 1 <= |s| <= 3 && AllDigits(s)
    && (|s| == 3 ==>
          s[0] == '0' || s[0] == '1' || (s[0] == '2' && (s[1] < '5' || (s[1] == '5' && s[2] <= '5'))))
  }

  function Octets(parts: seq<string>): (os: seq<nat>)
    requires forall i :: 0 <= i < |parts| ==> IsOctetText(parts[i])
    ensures |os| == |parts|
  {
    seq(|parts|, i requires 0 <= i < |parts| && IsOctetText(parts[i]) => DigitsValue(parts[i]))
  }

  /** The number a dotted IPv4 address stands for; `None` when the pattern does not match. */
  function IpNumber(addr: string): Option<nat> {
    var parts := Split(addr, '.');
    if |parts| == 4 && forall i :: 0 <= i < 4 ==> IsOctetText(parts[i]) then
      Some(BigEndian(Octets(parts)))
    else None
  }

  lemma OctetTextValue(s: string)
    requires IsOctetText(s)
    ensures DigitsValue(s) <= 255
  {
    assert DigitsValue(s[..0]) == 0;
    if |s| == 1 {
      assert s[..0] == "";
    } else if |s| == 2 {
      assert s[..1][..0] == "";
      assert DigitsValue(s[..1]) == DigitValue(s[0]);
    } else {
      assert s[..2][..1] == s[..1] && s[..1][..0] == "";
      assert DigitsValue(s[..1]) == DigitValue(s[0]);
      assert DigitsValue(s[..2]) == 10 * DigitValue(s[0]) + DigitValue(s[1]);
    }
  }

  /** Addresses the pattern admits are 32-bit numbers. */
  lemma IpNumberBound(addr: string)
    requires IpNumber(addr).Some?
    ensures IpNumber(addr).value < Pow2(32)
  {
    var os := Octets(Split(addr, '.'));
    forall i | 0 <= i < 4 ensures os[i] <= 255 {
      OctetTextValue(Split(addr, '.')[i]);
    }
    assert os[..3][..2] == os[..2] && os[..2][..1] == os[..1] && os[..1][..0] == [];
    assert BigEndian(os[..1]) == os[0];
    assert BigEndian(os[..2]) == 256 * os[0] + os[1];
    assert BigEndian(os[..3]) == 65536 * os[0] + 256 * os[1] + os[2];
    Pow2Of32();
  }

  lemma Pow2Of32()
    ensures Pow2(32) == 0x1_0000_0000
  {
    assert Pow2(8) == 256;
    assert Pow2(16) == 65536;
    assert Pow2(24) == 16777216;
  }

  // ----- meaning -----

  predicate DirectionMatches(direction: string, tap: string, p: Packet) {
    || (direction == "IN" && p.oif == tap)
    || (direction == "OUT" && p.iif == tap)
    || (direction == "INOUT" && (p.oif == tap || p.iif == tap))
  }

  predicate ProtocolMatches(protocol: string, p: Packet) {
    ToLower(protocol) == "all" || (p.ip.Some? && p.ip.value.protocol == ToLower(protocol))
  }

  predicate PortMatches(start: Option<int>, end: Option<int>, port: int) {
    start.Some? ==> start.value <= port <= (if end.Some? then end.value else start.value)
  }

  /** `a` lies in the network `addr`, compared under the mask when one is given. */
  predicate AddressMatches(addr: Option<string>, mask: Option<string>, a: nat) {
    Given(addr) && IpNumber(addr.value).Some? ==>
      if Given(mask) && MaskNumber(mask.value).Some? then
        BitAnd(a, MaskNumber(mask.value).value) == BitAnd(IpNumber(addr.value).value, MaskNumber(mask.value).value)
      else a == IpNumber(addr.value).value
  }

  predicate Enabled(states: Option<map<string, bool>>, name: string) {
    states.Some? && name in states.value && states.value[name]
  }

  /** A rule that enables no connection state matches every state. */
  predicate StateMatches(states: Option<map<string, bool>>, p: Packet) {
    (exists i :: 0 <= i < 4 && Enabled(states, ConnectionStates[i])) ==>
      exists i :: 0 <= i < 4 && Enabled(states, ConnectionStates[i]) && ConnectionStates[i] == p.ctState
  }

  predicate FieldsMatch(r: Rule, p: Packet) {
    && ProtocolMatches(r.protocol, p)
    && (Given(r.srcIpAddr) ==> p.ip.Some? && AddressMatches(r.srcIpAddr, r.srcIpMask, p.ip.value.saddr))
    && (Given(r.dstIpAddr) ==> p.ip.Some? && AddressMatches(r.dstIpAddr, r.dstIpMask, p.ip.value.daddr))
    && (r.srcPortStart.Some? ==> p.ip.Some? && PortMatches(r.srcPortStart, r.srcPortEnd, p.ip.value.sport))
    && (r.dstPortStart.Some? ==> p.ip.Some? && PortMatches(r.dstPortStart, r.dstPortEnd, p.ip.value.dport))
    && StateMatches(r.connectionState, p)
  }

  /** The traffic of the VM behind `tap` that the rule speaks about. */
  predicate Matches(r: Rule, tap: string, p: Packet) {
    DirectionMatches(r.direction, tap, p) && FieldsMatch(r, p)
  }

  function VerdictOf(action: string): Verdict {
    if action == "ACCEPT" then Accept else if action == "DROP" then Drop else Reject
  }

  // ----- well-formedness -----

  predicate IsPort(port: Option<int>) {
    port.Some? ==> 0 <= port.value <= 65535
  }

  predicate IsPortRange(start: Option<int>, end: Option<int>) {
    && IsPort(start) && IsPort(end)
    && (end.Some? ==> start.Some? && start.value <= end.value)
  }

  predicate ValidMask(mask: string) {
    exists p :: 0 <= p <= 32 && IsPrefixMask(mask, p)
  }

  /** The rules that can be installed. */
  predicate WellFormed(r: Rule) {
    && r.name != ""
    && r.action in ["ACCEPT", "DROP", "REJECT"]
    && r.direction in ["IN", "OUT", "INOUT"]
    && ToLower(r.protocol) in SupportedProtocols
    && IsPortRange(r.srcPortStart, r.srcPortEnd)
    && IsPortRange(r.dstPortStart, r.dstPortEnd)
    && (r.srcPortStart.Some? || r.dstPortStart.Some? ==> ToLower(r.protocol) in ["tcp", "udp"])
    && (Given(r.srcIpAddr) ==> IpNumber(r.srcIpAddr.value).Some?)
    && (Given(r.dstIpAddr) ==> IpNumber(r.dstIpAddr.value).Some?)
    && (Given(r.srcIpMask) ==> ValidMask(r.srcIpMask.value))
    && (Given(r.dstIpMask) ==> ValidMask(r.dstIpMask.value))
    && (r.connectionState.Some? ==> forall k :: k in r.connectionState.value ==> k in ConnectionStates)
  }
}
