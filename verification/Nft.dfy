/**
 The part of nftables that the firewall code talks to: scripts read by `nft -f -`,
 the chains they edit, and the verdict a chain gives to a packet.
 */
module Nft {
  import opened Wrappers
  import opened JsText
  import opened SubnetMask
  import opened FirewallRules

  // ----- evaluating a rule -----

  datatype Outcome = Decided(verdict: Verdict) | Continue | Malformed

  /** An inclusive port range "a-b", or a single port. */
  function PortSet(text: string): Option<(nat, nat)> {
    var parts := Split(text, '-');
    if |parts| <= 2 && forall i :: 0 <= i < |parts| ==> parts[i] != "" && AllDigits(parts[i]) then
      Some((DigitsValue(parts[0]), DigitsValue(parts[|parts| - 1])))
    else None
  }

  /** An address, or an address and a prefix length "a.b.c.d/p". */
  function Network(text: string): (r: Option<(nat, nat)>)
    ensures r.Some? ==> r.value.1 <= 32
  {
    var parts := Split(text, '/');
    if IpNumber(parts[0]).None? then None
    else if |parts| == 1 then Some((IpNumber(parts[0]).value, 32))
    else if |parts| == 2 && PrefixLength(parts[1]).Some? then
      Some((IpNumber(parts[0]).value, PrefixLength(parts[1]).value))
    else None
  }

  predicate InNetwork(a: nat, net: (nat, nat))
    requires net.1 <= 32
  {
    DropBits(a, 32 - net.1) == DropBits(net.0, 32 - net.1)
  }

  function TrimAll(parts: seq<string>): seq<string> {
    if parts == [] then [] else [Trim(parts[0])] + TrimAll(parts[1..])
  }

  /** A set "{ a, b }", or a single name. */
  function NameSet(text: string): seq<string> {
    if |text| >= 4 && text[..2] == "{ " && text[|text| - 2..] == " }" then
      TrimAll(Split(text[2..|text| - 2], ','))
    else [text]
  }

  /** Whether one match expression holds; `None` when it cannot be read. */
  function Holds(subject: string, field: string, arg: string, p: Packet): Option<bool> {
    if subject == "ip" && field == "protocol" then
      Some(p.ip.Some? && p.ip.value.protocol == arg)
    else if subject == "ip" && (field == "saddr" || field == "daddr") then
      if Network(arg).None? then None
      else
        Some(p.ip.Some? &&
             InNetwork(if field == "saddr" then p.ip.value.saddr else p.ip.value.daddr, Network(arg).value))
    else if (subject == "tcp" || subject == "udp") && (field == "sport" || field == "dport") then
      if PortSet(arg).None? then None
      else
        Some(p.ip.Some? && p.ip.value.protocol == subject &&
             PortSet(arg).value.0 <= (if field == "sport" then p.ip.value.sport else p.ip.value.dport)
                                  <= PortSet(arg).value.1)
    else if subject == "ct" && field == "state" then
      Some(p.ctState in NameSet(arg))
    else None
  }

  function VerdictWord(word: string): Option<Verdict> {
    if word == "accept" then Some(Accept)
    else if word == "drop" then Some(Drop)
    else if word == "reject" then Some(Reject)
    else None
  }

  /** Match expressions from left to right, then the verdict, then an optional comment. */
  function Eval(words: seq<string>, p: Packet): Outcome
    decreases |words|
  {
    if words == [] then Malformed
    else if VerdictWord(words[0]).Some? then
      if |words| == 1 || (|words| == 3 && words[1] == "comment") then Decided(VerdictWord(words[0]).value)
      else Malformed
    else if |words| >= 2 && words[0] == "oifname" then
      if p.oif == words[1] then Eval(words[2..], p) else Continue
    else if |words| >= 2 && words[0] == "iifname" then
      if p.iif == words[1] then Eval(words[2..], p) else Continue
    else if |words| >= 3 && Holds(words[0], words[1], words[2], p).Some? then
      if Holds(words[0], words[1], words[2], p).value then Eval(words[3..], p) else Continue
    else Malformed
  }

  /** First match; a chain without one continues with its caller. */
  function EvalChain(rules: seq<seq<string>>, p: Packet): Outcome {
    if rules == [] then Continue
    else if Eval(rules[0], p).Continue? then EvalChain(rules[1..], p)
    else Eval(rules[0], p)
  }

  lemma {:induction false} EvalChainConcat(a: seq<seq<string>>, b: seq<seq<string>>, p: Packet)
    ensures EvalChain(a + b, p)
         == if EvalChain(a, p).Continue? then EvalChain(b, p) else EvalChain(a, p)
  {
    if a == [] {
      assert a + b == b;
    } else {
      assert (a + b)[1..] == a[1..] + b;
      EvalChainConcat(a[1..], b, p);
    }
  }

  // ----- reading a script -----

  /** The position of `c` in `s` at or after `from`, or the end. */
  function Find(s: string, c: char, from: nat): (i: nat)
    requires from <= |s|
    ensures from <= i <= |s|
    ensures i < |s| ==> s[i] == c
    ensures forall k :: from <= k < i ==> s[k] != c
    decreases |s| - from
  {
    if from == |s| || s[from] == c then from else Find(s, c, from + 1)
  }

  /** The end of the first word: quoted text and sets in braces are one word. */
  function WordEnd(s: string): (i: nat)
    requires s != ""
    ensures 0 < i <= |s|
  {
    var i :=
      if s[0] == '"' then Find(s, '"', 1) + 1
      else if s[0] == '{' then Find(s, '}', 1) + 1
      else Find(s, ' ', 1);
    if i <= |s| then i else |s|
  }

  function Lex(line: string): seq<string>
    decreases |line|
  {
    if line == "" then []
    else if line[0] == ' ' then Lex(line[1..])
    else [line[..WordEnd(line)]] + Lex(line[WordEnd(line)..])
  }

  /** One word to the lexer: plain text, quoted text, or a set in braces. */
  predicate IsWord(t: string) {
    && t != "" && '\n' !in t
    && if t[0] == '"' then |t| >= 2 && t[|t| - 1] == '"' && '"' !in t[1..|t| - 1]
       else if t[0] == '{' then |t| >= 2 && t[|t| - 1] == '}' && '}' !in t[1..|t| - 1]
       else ' ' !in t
  }

  lemma {:induction false} FindExact(s: string, c: char, from: nat, at: nat)
    requires from <= at <= |s| && (at < |s| ==> s[at] == c)
    requires forall k :: from <= k < at ==> s[k] != c
    ensures Find(s, c, from) == at
    decreases at - from
  {
    if from < at { FindExact(s, c, from + 1, at); }
  }

  lemma WordEndOfWord(t: string, rest: string)
    requires IsWord(t) && (rest != "" ==> rest[0] == ' ')
    ensures WordEnd(t + rest) == |t|
  {
    var s := t + rest;
    if t[0] == '"' || t[0] == '{' {
      forall k | 1 <= k < |t| - 1 ensures s[k] != t[|t| - 1] {
        assert t[1..|t| - 1][k - 1] == s[k];
      }
      FindExact(s, t[|t| - 1], 1, |t| - 1);
    } else {
      FindExact(s, ' ', 1, |t|);
    }
  }

  /** Words joined by blanks are read back as the same words. */
  lemma {:induction false} LexJoin(ws: seq<string>)
    requires forall i :: 0 <= i < |ws| ==> IsWord(ws[i])
    ensures Lex(Join(ws, " ")) == ws
  {
    if ws != [] {
      var t := ws[0];
      LexJoin(ws[1..]);
      assert t[0] != ' ';
      var rest := if |ws| == 1 then "" else " " + Join(ws[1..], " ");
      assert Join(ws, " ") == t + rest;
      WordEndOfWord(t, rest);
      assert (t + rest)[..|t|] == t && (t + rest)[|t|..] == rest;
      if |ws| > 1 {
        assert rest[1..] == Join(ws[1..], " ");
      }
    }
  }

  lemma {:induction false} JoinedWordsOneLine(ws: seq<string>)
    requires forall i :: 0 <= i < |ws| ==> IsWord(ws[i])
    ensures '\n' !in Join(ws, " ")
  {
    if |ws| > 1 {
      JoinedWordsOneLine(ws[1..]);
    }
  }

  // ----- running a script -----

  type Chains = map<string, seq<seq<string>>>

  /** One command, for the table the code manages. */
  function RunCommand(words: seq<string>, chains: Chains): Option<Chains> {
    if words == [] then Some(chains)
    else if |words| < 5 || words[2..4] != ["bridge", "infinization"] then None
    else if words[..2] == ["add", "chain"] && |words| == 5 then
      Some(if words[4] in chains then chains else chains[words[4] := []])
    else if words[..2] == ["flush", "chain"] && |words| == 5 && words[4] in chains then
      Some(chains[words[4] := []])
    else if words[..2] == ["add", "rule"] && words[4] in chains then
      Some(chains[words[4] := chains[words[4]] + [words[5..]]])
    else None
  }

  /** The transaction of a script: every command applies, or none does. */
  function RunLines(lines: seq<string>, chains: Chains): Option<Chains> {
    if lines == [] then Some(chains)
    else
      var next := RunCommand(Lex(lines[0]), chains);
      if next.None? then None else RunLines(lines[1..], next.value)
  }

  function RunScript(script: string, chains: Chains): Option<Chains> {
    RunLines(Split(script, '\n'), chains)
  }
}
