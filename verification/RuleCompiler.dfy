/**
 From department and VM rules to the chain the kernel evaluates: merge, sort,
 expand, translate, print one script, and install it as one transaction.
 */
module RuleCompiler {
  import opened Wrappers
  import opened JsText
  import opened StableSort
  import opened FirewallRules
  import opened RuleTranslator

  // ----- merging -----

  /** The override test: protocol, direction, ports and addresses, but neither masks nor states. */
  predicate SameTraffic(a: Rule, b: Rule) {
    && ToLower(if a.protocol == "" then "all" else a.protocol) == ToLower(if b.protocol == "" then "all" else b.protocol)
    && (a.direction == b.direction || a.direction == "INOUT" || b.direction == "INOUT")
    && a.srcPortStart == b.srcPortStart && a.srcPortEnd == b.srcPortEnd
    && a.dstPortStart == b.dstPortStart && a.dstPortEnd == b.dstPortEnd
    && a.srcIpAddr == b.srcIpAddr && a.dstIpAddr == b.dstIpAddr
  }

  predicate Overridden(d: Rule, vmRules: seq<Rule>) {
    exists i :: 0 <= i < |vmRules| && vmRules[i].overridesDept && SameTraffic(vmRules[i], d)
  }

  function Surviving(deptRules: seq<Rule>, vmRules: seq<Rule>): seq<Rule> {
    Filter(deptRules, d => !Overridden(d, vmRules))
  }

  const ByPriority: Rule -> int := (r: Rule) => r.priority

  function MergeRules(deptRules: seq<Rule>, vmRules: seq<Rule>): seq<Rule> {
    SortBy(Surviving(deptRules, vmRules) + vmRules, ByPriority)
  }

  const EstablishedRule: Rule := Rule(
    "__default_established", "Allow Established/Related (Auto)", "ACCEPT", "INOUT", 9999, "all",
    None, None, None, None, None, None, None, None,
    Some(map["established" := true, "related" := true]), false)

  function AutoRules(conntrack: bool): seq<Rule> {
    if conntrack then [EstablishedRule] else []
  }

  /** The rules that are translated, in the order they are translated. */
  function EffectiveRules(deptRules: seq<Rule>, vmRules: seq<Rule>, conntrack: bool): seq<Rule> {
    SortBy(MergeRules(deptRules, vmRules) + AutoRules(conntrack), ByPriority)
  }

  // ----- translating -----

  /** The lines of one rule: two for INOUT, none when it cannot be translated. */
  function BodiesOf(r: Rule, tap: string): seq<seq<string>> {
    if r.direction == "INOUT" then
      match (Translate(r.(direction := "IN"), tap), Translate(r.(direction := "OUT"), tap))
      case (Ok(inWords), Ok(outWords)) => [inWords, outWords]
      case _ => []
    else
      match Translate(r, tap)
      case Ok(words) => [words]
      case Err(_) => []
  }

  function Bodies(rules: seq<Rule>, tap: string): seq<seq<string>> {
    if rules == [] then [] else BodiesOf(rules[0], tap) + Bodies(rules[1..], tap)
  }

  function JoinAll(bodies: seq<seq<string>>): (r: seq<string>)
    ensures |r| == |bodies|
  {
    if bodies == [] then [] else [Join(bodies[0], " ")] + JoinAll(bodies[1..])
  }

  predicate IllFormed(r: Rule) {
    !WellFormed(r)
  }

  function Names(rules: seq<Rule>): seq<string> {
    if rules == [] then [] else [rules[0].name] + Names(rules[1..])
  }

  lemma {:induction false} JoinAllConcat(a: seq<seq<string>>, b: seq<seq<string>>)
    ensures JoinAll(a + b) == JoinAll(a) + JoinAll(b)
  {
    if a == [] {
      assert a + b == b;
    } else {
      assert (a + b)[1..] == a[1..] + b;
      JoinAllConcat(a[1..], b);
    }
  }

  lemma {:induction false} NamesConcat(a: seq<Rule>, b: seq<Rule>)
    ensures Names(a + b) == Names(a) + Names(b)
  {
    if a == [] {
      assert a + b == b;
    } else {
      assert (a + b)[1..] == a[1..] + b;
      NamesConcat(a[1..], b);
    }
  }

  lemma {:induction false} BodiesConcat(a: seq<Rule>, b: seq<Rule>, tap: string)
    ensures Bodies(a + b, tap) == Bodies(a, tap) + Bodies(b, tap)
  {
    if a == [] {
      assert a + b == b;
    } else {
      assert (a + b)[1..] == a[1..] + b;
      BodiesConcat(a[1..], b, tap);
    }
  }

  /** A rule contributes all its lines when it is well formed, and none otherwise. */
  lemma AllLinesOrNone(r: Rule, tap: string)
    ensures WellFormed(r) ==> |BodiesOf(r, tap)| == (if r.direction == "INOUT" then 2 else 1)
    ensures !WellFormed(r) ==> BodiesOf(r, tap) == []
    ensures r.direction == "INOUT" ==>
              (Translate(r.(direction := "IN"), tap).Ok? <==> WellFormed(r)) &&
              (Translate(r.(direction := "OUT"), tap).Ok? <==> WellFormed(r))
  {
    if r.direction == "INOUT" {
      var inRule, outRule := r.(direction := "IN"), r.(direction := "OUT");
      TranslateIffWellFormed(inRule, tap);
      TranslateIffWellFormed(outRule, tap);
      assert WellFormed(inRule) <==> WellFormed(r);
      assert WellFormed(outRule) <==> WellFormed(r);
    } else {
      TranslateIffWellFormed(r, tap);
    }
  }

  function ErrorOf<T>(r: Result<T, NftError>): Option<NftError> {
    if r.Err? then Some(r.error) else None
  }

  /** Why the rule contributes no line: what stops its translation, for INOUT in the first direction it stops. */
  function FirstError(rule: Rule, tap: string): Option<NftError> {
    if rule.direction != "INOUT" then ErrorOf(Translate(rule, tap))
    else
      var inward := ErrorOf(Translate(rule.(direction := "IN"), tap));
      if inward.Some? then inward else ErrorOf(Translate(rule.(direction := "OUT"), tap))
  }

  /** The lines pushed for one rule before its translation ends or fails. */
  method PushRule(rule: Rule, tap: string) returns (lines: seq<string>, error: Option<NftError>)
    ensures lines == JoinAll(BodiesOf(rule, tap))
    ensures error.None? <==> WellFormed(rule)
    ensures error == FirstError(rule, tap)
  {
    AllLinesOrNone(rule, tap);
    hide Translate, WellFormed;
    lines, error := [], None;
    if rule.direction == "INOUT" {
      var inWords := Translate(rule.(direction := "IN"), tap);
      error := ErrorOf(inWords);
      if inWords.Ok? {
        lines := lines + [Join(inWords.value, " ")];
        var outWords := Translate(rule.(direction := "OUT"), tap);
        error := ErrorOf(outWords);
        if outWords.Ok? {
          lines := lines + [Join(outWords.value, " ")];
          assert [inWords.value, outWords.value][1..] == [outWords.value];
        }
      }
    } else {
      var words := Translate(rule, tap);
      error := ErrorOf(words);
      if words.Ok? {
        lines := lines + [Join(words.value, " ")];
      }
    }
  }

  /** One pass over the rules; a rule that cannot be translated is recorded and skipped. */
  method BuildRuleLines(rules: seq<Rule>, tap: string)
    returns (lines: seq<string>, applied: nat, failures: seq<(string, NftError)>)
    ensures lines == JoinAll(Bodies(rules, tap))
    ensures applied == |Filter(rules, WellFormed)|
    ensures |failures| == |Names(Filter(rules, IllFormed))|
    ensures forall i :: 0 <= i < |failures| ==> failures[i].0 == Names(Filter(rules, IllFormed))[i]
  {
    lines, applied, failures := [], 0, [];
    for n := 0 to |rules|
      invariant lines == JoinAll(Bodies(rules[..n], tap))
      invariant applied == |Filter(rules[..n], WellFormed)|
      invariant |failures| == |Names(Filter(rules[..n], IllFormed))|
      invariant forall i :: 0 <= i < |failures| ==>
                  failures[i].0 == Names(Filter(rules[..n], IllFormed))[i]
    {
      var rule := rules[n];
      BodiesOneMore(rules, n, tap);
      FilterOneMore(rules, n, WellFormed);
      FilterOneMore(rules, n, IllFormed);
      hide WellFormed, BodiesOf;
      var pushed, error := PushRule(rule, tap);
      lines := lines + pushed;
      if error.Some? {
        failures := failures + [(rule.name, error.value)];
      } else {
        applied := applied + 1;
      }
    }
    assert rules[..|rules|] == rules;
  }

  lemma BodiesOneMore(rules: seq<Rule>, n: nat, tap: string)
    requires n < |rules|
    ensures JoinAll(Bodies(rules[..n + 1], tap)) == JoinAll(Bodies(rules[..n], tap)) + JoinAll(BodiesOf(rules[n], tap))
  {
    hide BodiesOf;
    var last := [rules[n]];
    assert rules[..n + 1] == rules[..n] + last;
    BodiesConcat(rules[..n], last, tap);
    assert last[1..] == [];
    assert Bodies(last, tap) == BodiesOf(rules[n], tap);
    JoinAllConcat(Bodies(rules[..n], tap), BodiesOf(rules[n], tap));
  }

  lemma FilterOneMore(rules: seq<Rule>, n: nat, p: Rule -> bool)
    requires n < |rules|
    ensures Filter(rules[..n + 1], p) == Filter(rules[..n], p) + (if p(rules[n]) then [rules[n]] else [])
    ensures Names(Filter(rules[..n + 1], p))
         == Names(Filter(rules[..n], p)) + (if p(rules[n]) then [rules[n].name] else [])
  {
    var last := [rules[n]];
    assert rules[..n + 1] == rules[..n] + last;
    FilterConcat(rules[..n], last, p);
    assert last[1..] == [];
    NamesConcat(Filter(rules[..n], p), Filter(last, p));
  }
}
