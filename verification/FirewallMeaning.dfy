/**
 What an installed VM chain does to packets: the compiler keeps the meaning of the
 rules, overrides stay local, and skipping a rule is safe exactly under a condition.
 */
module FirewallMeaning {
  import opened Wrappers
  import opened JsText
  import opened StableSort
  import opened FirewallRules
  import opened Nft
  import opened RuleTranslator
  import opened RuleCompiler

  function DefaultVerdict(dropByDefault: bool): Verdict {
    if dropByDefault then Drop else Accept
  }

  function DefaultWord(dropByDefault: bool): string {
    if dropByDefault then "drop" else "accept"
  }

  function DefaultComment(dropByDefault: bool): string {
    "\"" + ("infinization-default-" + DefaultWord(dropByDefault)) + "\""
  }

  function TerminalWords(dropByDefault: bool): seq<string> {
    [DefaultWord(dropByDefault), "comment", DefaultComment(dropByDefault)]
  }

  /** The whole chain: every line of every rule, then the terminal rule. */
  function CompiledChain(deptRules: seq<Rule>, vmRules: seq<Rule>, conntrack: bool, dropByDefault: bool, tap: string)
    : seq<seq<string>>
  {
    Bodies(EffectiveRules(deptRules, vmRules, conntrack), tap) + [TerminalWords(dropByDefault)]
  }

  // ----- the compiler keeps the meaning -----

  /** A rule that can be installed and speaks about the packet. */
  function Applies(tap: string, p: Packet): Rule -> bool {
    (r: Rule) => WellFormed(r) && Matches(r, tap, p)
  }

  /** The rules before sorting: surviving department rules, VM rules, the automatic one. */
  function AllRules(deptRules: seq<Rule>, vmRules: seq<Rule>, conntrack: bool): seq<Rule> {
    Surviving(deptRules, vmRules) + vmRules + AutoRules(conntrack)
  }

  lemma EffectiveIsOneSort(deptRules: seq<Rule>, vmRules: seq<Rule>, conntrack: bool)
    ensures EffectiveRules(deptRules, vmRules, conntrack) == SortBy(AllRules(deptRules, vmRules, conntrack), ByPriority)
  {
    SortTwice(Surviving(deptRules, vmRules) + vmRules, AutoRules(conntrack), ByPriority);
  }

  /** The lines of one rule decide exactly the packets the rule speaks about. */
  lemma BodiesOfDecide(r: Rule, tap: string, p: Packet)
    requires ValidPacket(p)
    ensures EvalChain(BodiesOf(r, tap), p)
         == if Applies(tap, p)(r) then Decided(VerdictOf(r.action)) else Continue
  {
    AllLinesOrNone(r, tap);
    if WellFormed(r) {
      if r.direction == "INOUT" {
        var inRule, outRule := r.(direction := "IN"), r.(direction := "OUT");
        assert WellFormed(inRule) && WellFormed(outRule);
        TranslationMeansRule(inRule, tap, p);
        TranslationMeansRule(outRule, tap, p);
        assert FieldsMatch(inRule, p) == FieldsMatch(r, p) == FieldsMatch(outRule, p);
        hide Translate, WellFormed, FieldsMatch;
        TwoLines(Translate(inRule, tap).value, Translate(outRule, tap).value, p);
      } else {
        TranslationMeansRule(r, tap, p);
        assert [Translate(r, tap).value][1..] == [];
      }
    }
  }

  lemma TwoLines(a: seq<string>, b: seq<string>, p: Packet)
    ensures EvalChain([a, b], p) == if Eval(a, p).Continue? then Eval(b, p) else Eval(a, p)
  {
    assert [b][1..] == [];
    assert EvalChain([b], p) == Eval(b, p);
    assert [a, b][1..] == [b];
  }

  lemma {:induction false} BodiesDecide(rules: seq<Rule>, tap: string, p: Packet)
    requires ValidPacket(p)
    ensures var hits := Filter(rules, Applies(tap, p));
            EvalChain(Bodies(rules, tap), p) == if hits == [] then Continue else Decided(VerdictOf(hits[0].action))
  {
    hide BodiesOf, WellFormed;
    if rules != [] {
      BodiesOfDecide(rules[0], tap, p);
      EvalChainConcat(BodiesOf(rules[0], tap), Bodies(rules[1..], tap), p);
      BodiesDecide(rules[1..], tap, p);
    }
  }

  lemma TerminalDecides(dropByDefault: bool, p: Packet)
    ensures EvalChain([TerminalWords(dropByDefault)], p) == Decided(DefaultVerdict(dropByDefault))
  {
    assert VerdictWord("drop") == Some(Drop) && VerdictWord("accept") == Some(Accept);
  }

  /**
   The installed chain gives every packet the verdict of the applicable rule that comes
   first by priority and then by position, and the default verdict when no rule applies.
   */
  lemma CompilePreservesMeaning(
    deptRules: seq<Rule>, vmRules: seq<Rule>, conntrack: bool, dropByDefault: bool, tap: string, p: Packet)
    requires ValidPacket(p)
    ensures var rules := AllRules(deptRules, vmRules, conntrack);
            var outcome := EvalChain(CompiledChain(deptRules, vmRules, conntrack, dropByDefault, tap), p);
            && (forall i: nat :: Earliest(rules, i, ByPriority, Applies(tap, p)) ==>
                  outcome == Decided(VerdictOf(rules[i].action)))
            && ((exists j :: 0 <= j < |rules| && Applies(tap, p)(rules[j])) ==>
                  exists i: nat :: Earliest(rules, i, ByPriority, Applies(tap, p)))
            && ((forall j :: 0 <= j < |rules| ==> !Applies(tap, p)(rules[j])) ==>
                  outcome == Decided(DefaultVerdict(dropByDefault)))
  {
    hide WellFormed, Matches, Bodies, TerminalWords, AllRules;
    var rules := AllRules(deptRules, vmRules, conntrack);
    var sorted := EffectiveRules(deptRules, vmRules, conntrack);
    EffectiveIsOneSort(deptRules, vmRules, conntrack);
    BodiesDecide(sorted, tap, p);
    TerminalDecides(dropByDefault, p);
    EvalChainConcat(Bodies(sorted, tap), [TerminalWords(dropByDefault)], p);
    forall i: nat | Earliest(rules, i, ByPriority, Applies(tap, p))
      ensures Filter(sorted, Applies(tap, p)) != [] && Filter(sorted, Applies(tap, p))[0] == rules[i]
    {
      FirstOfSorted(rules, i, ByPriority, Applies(tap, p));
    }
    if exists j :: 0 <= j < |rules| && Applies(tap, p)(rules[j]) {
      var i := EarliestExists(rules, ByPriority, Applies(tap, p));
    } else {
      FilterNone(rules, Applies(tap, p));
      SortFilter(rules, ByPriority, Applies(tap, p));
    }
  }

  // ----- the script installs that chain -----

  const Family: string := "bridge"
  const Table: string := "infinization"

  function CommandText(verb: string, noun: string, chain: string): string {
    verb + " " + noun + " " + Family + " " + Table + " " + chain
  }

  /** The commands are about the table the service owns. */
  lemma CommandTextIs(verb: string, noun: string, chain: string)
    ensures CommandText(verb, noun, chain) == verb + " " + noun + " bridge infinization " + chain
  {
    assert " bridge infinization " == " " + "bridge" + " " + "infinization" + " ";
    assert verb + " " + noun + " " + "bridge" + " " + "infinization" + " " + chain
        == verb + " " + noun + (" " + "bridge" + " " + "infinization" + " ") + chain;
  }

  function AddRuleLine(chain: string, body: string): string {
    CommandText("add", "rule", chain) + " " + body
  }

  function AddRuleLines(chain: string, bodies: seq<string>): seq<string> {
    if bodies == [] then [] else [AddRuleLine(chain, bodies[0])] + AddRuleLines(chain, bodies[1..])
  }

  function TerminalBody(dropByDefault: bool): string {
    DefaultWord(dropByDefault) + " " + "comment" + " " + DefaultComment(dropByDefault)
  }

  /** The text handed to `nft -f -`: assert the chain, flush it, add every rule, add the terminal rule. */
  function AtomicRuleset(chain: string, bodies: seq<string>, dropByDefault: bool): string {
    Join([CommandText("add", "chain", chain), CommandText("flush", "chain", chain)]
         + AddRuleLines(chain, bodies) + [AddRuleLine(chain, TerminalBody(dropByDefault))], "\n") + "\n"
  }

  lemma JoinCons(w: string, ws: seq<string>)
    requires ws != []
    ensures Join([w] + ws, " ") == w + " " + Join(ws, " ")
  {
    assert ([w] + ws)[1..] == ws;
  }

  function Command(verb: string, noun: string, chain: string): seq<string> {
    [verb, noun, Family, Table, chain]
  }

  lemma JoinThree(a: string, b: string, c: string)
    ensures Join([a, b, c], " ") == a + " " + b + " " + c
  {
    JoinCons(b, [c]);
    JoinCons(a, [b] + [c]);
    assert [a, b, c] == [a] + ([b] + [c]);
  }

  lemma JoinFive(a: string, b: string, c: string, d: string, e: string)
    ensures Join([a, b, c, d, e], " ") == a + " " + b + " " + c + " " + d + " " + e
  {
    JoinThree(a, b, c);
    JoinCons(d, [e]);
    JoinConcat([a, b, c], [d] + [e], " ");
    assert [a, b, c, d, e] == [a, b, c] + ([d] + [e]);
    assert Join([a, b, c, d, e], " ") == Join([a, b, c], " ") + " " + (d + " " + e);
  }

  lemma CommandIsWords(verb: string, noun: string, chain: string)
    requires verb in ["add", "flush"] && noun in ["chain", "rule"] && IsWord(chain)
    ensures AllWords(Command(verb, noun, chain))
  {
    assert IsWord("add") && IsWord("flush") && IsWord("chain") && IsWord("rule");
    assert IsWord("bridge") && IsWord("infinization");
  }

  lemma AppendText(a: string, b: string)
    ensures a + "" == a && a + " " + b == a + (" " + b)
  {
  }

  /** A command on a chain is read back as its words. */
  lemma CommandLine(verb: string, noun: string, chain: string, words: seq<string>)
    requires verb in ["add", "flush"] && noun in ["chain", "rule"] && IsWord(chain) && AllWords(words)
    ensures var line := CommandText(verb, noun, chain) + (if words == [] then "" else " " + Join(words, " "));
            Lex(line) == Command(verb, noun, chain) + words && '\n' !in line
  {
    CommandIsWords(verb, noun, chain);
    hide IsWord, Lex, Join;
    JoinFive(verb, noun, Family, Table, chain);
    var all := Command(verb, noun, chain) + words;
    if words == [] {
      assert all == Command(verb, noun, chain);
    } else {
      JoinConcat(Command(verb, noun, chain), words, " ");
    }
    var line := CommandText(verb, noun, chain) + (if words == [] then "" else " " + Join(words, " "));
    AppendText(CommandText(verb, noun, chain), Join(words, " "));
    assert line == Join(all, " ");
    assert AllWords(all);
    LexJoin(all);
    JoinedWordsOneLine(all);
  }

  lemma {:induction false} RunLinesConcat(a: seq<string>, b: seq<string>, chains: Chains)
    ensures RunLines(a + b, chains)
         == if RunLines(a, chains).None? then None else RunLines(b, RunLines(a, chains).value)
  {
    if a == [] {
      assert a + b == b;
    } else {
      assert (a + b)[1..] == a[1..] + b;
      var next := RunCommand(Lex(a[0]), chains);
      if next.Some? { RunLinesConcat(a[1..], b, next.value); }
    }
  }

  lemma AddRuleRuns(chain: string, words: seq<string>, chains: Chains)
    requires IsWord(chain) && AllWords(words) && words != [] && chain in chains
    ensures RunCommand(Lex(AddRuleLine(chain, Join(words, " "))), chains)
         == Some(chains[chain := chains[chain] + [words]])
    ensures '\n' !in AddRuleLine(chain, Join(words, " "))
  {
    hide IsWord, Lex, RunCommand, Join, CommandText;
    CommandLine("add", "rule", chain, words);
    AppendText(CommandText("add", "rule", chain), Join(words, " "));
    AddRuleCommand(chain, words, chains);
  }

  lemma AddRuleCommand(chain: string, words: seq<string>, chains: Chains)
    requires chain in chains
    ensures RunCommand(Command("add", "rule", chain) + words, chains)
         == Some(chains[chain := chains[chain] + [words]])
  {
    var all := Command("add", "rule", chain) + words;
    assert all[..2] == ["add", "rule"] && all[2..4] == ["bridge", "infinization"] && all[5..] == words;
    assert ["add", "rule"][1] != ["add", "chain"][1] && ["add", "rule"][0] != ["flush", "chain"][0];
  }

  lemma ChainCommands(chain: string, chains: Chains)
    ensures RunCommand(Command("add", "chain", chain), chains)
         == Some(if chain in chains then chains else chains[chain := []])
    ensures chain in chains ==> RunCommand(Command("flush", "chain", chain), chains) == Some(chains[chain := []])
  {
    var add, flush := Command("add", "chain", chain), Command("flush", "chain", chain);
    assert add[..2] == ["add", "chain"] && add[2..4] == ["bridge", "infinization"];
    assert flush[..2] == ["flush", "chain"] && flush[2..4] == ["bridge", "infinization"];
    assert ["add", "chain"][0] != ["flush", "chain"][0];
  }

  predicate RuleBodies(bodies: seq<seq<string>>) {
    forall i :: 0 <= i < |bodies| ==> bodies[i] != [] && AllWords(bodies[i])
  }

  lemma {:induction false} AddRulesOnLines(chain: string, bodies: seq<seq<string>>)
    requires IsWord(chain) && RuleBodies(bodies)
    ensures forall i :: 0 <= i < |AddRuleLines(chain, JoinAll(bodies))| ==> '\n' !in AddRuleLines(chain, JoinAll(bodies))[i]
  {
    if bodies != [] {
      hide IsWord, Lex, RunCommand, Join, AddRuleLine;
      AddRuleRuns(chain, bodies[0], map[chain := []]);
      assert RuleBodies(bodies[1..]);
      hide RuleBodies;
      AddRulesOnLines(chain, bodies[1..]);
      AddRuleLinesCons(chain, bodies);
      hide AddRuleLines, JoinAll;
    }
  }

  lemma {:induction false} AddRulesRun(chain: string, bodies: seq<seq<string>>, chains: Chains)
    requires IsWord(chain) && RuleBodies(bodies) && chain in chains
    ensures RunLines(AddRuleLines(chain, JoinAll(bodies)), chains) == Some(chains[chain := chains[chain] + bodies])
  {
    if bodies == [] {
      assert chains[chain] + bodies == chains[chain];
      assert chains[chain := chains[chain]] == chains;
    } else {
      hide IsWord, Lex, RunCommand, Join, AddRuleLine;
      AddRuleRuns(chain, bodies[0], chains);
      var next := chains[chain := chains[chain] + [bodies[0]]];
      assert RuleBodies(bodies[1..]);
      hide RuleBodies, RunLines, AddRuleLines, JoinAll;
      AddRulesRun(chain, bodies[1..], next);
      AddRuleLinesCons(chain, bodies);
      AddedTwice(chains, chain, bodies);
      ConsRuns(AddRuleLine(chain, Join(bodies[0], " ")), AddRuleLines(chain, JoinAll(bodies[1..])), chains);
    }
  }

  lemma AddRuleLinesCons(chain: string, bodies: seq<seq<string>>)
    requires bodies != []
    ensures AddRuleLines(chain, JoinAll(bodies))
            == [AddRuleLine(chain, Join(bodies[0], " "))] + AddRuleLines(chain, JoinAll(bodies[1..]))
  {
    hide Join, AddRuleLine;
    assert JoinAll(bodies)[1..] == JoinAll(bodies[1..]);
  }

  lemma AddedTwice(chains: Chains, chain: string, bodies: seq<seq<string>>)
    requires chain in chains && bodies != []
    ensures var next := chains[chain := chains[chain] + [bodies[0]]];
      next[chain := next[chain] + bodies[1..]] == chains[chain := chains[chain] + bodies]
  {
    assert chains[chain] + [bodies[0]] + bodies[1..] == chains[chain] + bodies;
  }

  lemma ConsRuns(line: string, rest: seq<string>, chains: Chains)
    ensures RunLines([line] + rest, chains)
            == var next := RunCommand(Lex(line), chains); if next.None? then None else RunLines(rest, next.value)
  {
    hide RunCommand, Lex;
    assert ([line] + rest)[1..] == rest;
  }

  lemma HeaderRuns(chain: string, chains: Chains)
    requires IsWord(chain)
    ensures RunLines([CommandText("add", "chain", chain), CommandText("flush", "chain", chain)], chains)
         == Some(chains[chain := []])
    ensures '\n' !in CommandText("add", "chain", chain) && '\n' !in CommandText("flush", "chain", chain)
  {
    hide IsWord, Lex, RunCommand, CommandText;
    CommandLine("add", "chain", chain, []);
    CommandLine("flush", "chain", chain, []);
    var add, flush := CommandText("add", "chain", chain), CommandText("flush", "chain", chain);
    assert add + "" == add && flush + "" == flush;
    assert Command("add", "chain", chain) + [] == Command("add", "chain", chain);
    assert Command("flush", "chain", chain) + [] == Command("flush", "chain", chain);
    var created := if chain in chains then chains else chains[chain := []];
    ChainCommands(chain, chains);
    ChainCommands(chain, created);
    assert [flush][1..] == [];
    assert RunLines([flush], created) == Some(created[chain := []]);
    assert [add, flush][1..] == [flush];
    assert created[chain := []] == chains[chain := []];
  }

  lemma SplitLines(lines: seq<string>)
    requires lines != [] && forall i :: 0 <= i < |lines| ==> '\n' !in lines[i]
    ensures Split(Join(lines, "\n") + "\n", '\n') == lines + [""]
  {
    var all := lines + [""];
    JoinLast(lines);
    SplitJoin(all, '\n');
  }

  lemma {:induction false} JoinLast(lines: seq<string>)
    requires lines != []
    ensures Join(lines + [""], "\n") == Join(lines, "\n") + "\n"
  {
    assert (lines + [""])[1..] == lines[1..] + [""];
    if |lines| > 1 { JoinLast(lines[1..]); }
  }

  /** Installing the script replaces the chain by its rules and the terminal rule, whatever it held before. */
  lemma ScriptInstallsChain(chain: string, bodies: seq<seq<string>>, dropByDefault: bool, chains: Chains)
    requires IsWord(chain) && RuleBodies(bodies)
    ensures RunScript(AtomicRuleset(chain, JoinAll(bodies), dropByDefault), chains)
         == Some(chains[chain := bodies + [TerminalWords(dropByDefault)]])
  {
    var header := [CommandText("add", "chain", chain), CommandText("flush", "chain", chain)];
    var rules := AddRuleLines(chain, JoinAll(bodies));
    var terminal := AddRuleLine(chain, TerminalBody(dropByDefault));
    TerminalIsWords(dropByDefault);
    hide IsWord, Lex, RunCommand, CommandText, AddRuleLines, AddRuleLine, TerminalBody, TerminalWords;
    var empty := chains[chain := []];
    HeaderRuns(chain, chains);
    AddRulesRun(chain, bodies, empty);
    AddRulesOnLines(chain, bodies);
    assert [] + bodies == bodies;
    var filled := empty[chain := bodies];
    AddRuleRuns(chain, TerminalWords(dropByDefault), filled);
    var lines := header + rules + [terminal];
    var last := filled[chain := bodies + [TerminalWords(dropByDefault)]];
    LastLineRuns(terminal, filled);
    LastLineRuns("", last);
    EmptyLine(last);
    assert last == chains[chain := bodies + [TerminalWords(dropByDefault)]];
    assert AtomicRuleset(chain, JoinAll(bodies), dropByDefault) == Join(lines, "\n") + "\n";
    SplitLines(lines);
    hide RunLines, Join, JoinAll, AtomicRuleset, Split;
    FourParts(header, rules, terminal, chains);
  }

  lemma FourParts(header: seq<string>, rules: seq<string>, terminal: string, chains: Chains)
    ensures var lines := header + rules + [terminal];
      RunLines(lines + [""], chains)
      == var a := RunLines(header, chains);
         if a.None? then None
         else
           var b := RunLines(rules, a.value);
           if b.None? then None
           else
             var c := RunLines([terminal], b.value);
             if c.None? then None else RunLines([""], c.value)
  {
    hide RunLines;
    RunLinesConcat(header, rules, chains);
    RunLinesConcat(header + rules, [terminal], chains);
    RunLinesConcat(header + rules + [terminal], [""], chains);
  }

  lemma LastLineRuns(line: string, chains: Chains)
    ensures RunLines([line], chains) == RunCommand(Lex(line), chains)
  {
    assert [line][1..] == [];
  }

  lemma EmptyLine(chains: Chains)
    ensures RunCommand(Lex(""), chains) == Some(chains)
  {
  }

  lemma TerminalIsWords(dropByDefault: bool)
    ensures TerminalWords(dropByDefault) != [] && AllWords(TerminalWords(dropByDefault))
    ensures TerminalBody(dropByDefault) == Join(TerminalWords(dropByDefault), " ")
  {
    DefaultIsWord(dropByDefault);
    hide IsWord, Join, DefaultWord, DefaultComment;
    TwoWordsAndComment(DefaultWord(dropByDefault), DefaultComment(dropByDefault));
    JoinThree(DefaultWord(dropByDefault), "comment", DefaultComment(dropByDefault));
  }

  lemma DefaultIsWord(dropByDefault: bool)
    ensures IsWord(DefaultWord(dropByDefault)) && IsWord(DefaultComment(dropByDefault))
  {
    assert IsWord("drop") && IsWord("accept");
    var word := DefaultWord(dropByDefault);
    assert '"' !in "infinization-default-" && '\n' !in "infinization-default-";
    assert '"' !in word && '\n' !in word;
    QuotedIsWord("infinization-default-" + word);
  }

  lemma TranslationNotEmpty(r: Rule, tap: string)
    ensures Translate(r, tap).Ok? ==> Translate(r, tap).value != []
  {
  }

  lemma GoodWords(r: Rule, tap: string)
    requires IsWord(tap) && r.direction != "INOUT"
    ensures Translate(r, tap).Ok? ==> Translate(r, tap).value != [] && AllWords(Translate(r, tap).value)
  {
    TranslateIffWellFormed(r, tap);
    TranslationNotEmpty(r, tap);
    hide Translate, IsWord;
    if WellFormed(r) { TranslationIsWords(r, tap); }
  }

  lemma BodiesOfAreRules(r: Rule, tap: string)
    requires IsWord(tap)
    ensures RuleBodies(BodiesOf(r, tap))
  {
    hide Translate, IsWord;
    if r.direction == "INOUT" {
      GoodWords(r.(direction := "IN"), tap);
      GoodWords(r.(direction := "OUT"), tap);
    } else {
      GoodWords(r, tap);
    }
  }

  lemma {:induction false} BodiesAreRules(rules: seq<Rule>, tap: string)
    requires IsWord(tap)
    ensures RuleBodies(Bodies(rules, tap))
  {
    hide BodiesOf, IsWord;
    if rules != [] {
      BodiesOfAreRules(rules[0], tap);
      BodiesAreRules(rules[1..], tap);
    }
  }

  /** The script of `applyRules` leaves exactly the compiled chain in the kernel and touches no other chain. */
  lemma ApplyInstallsCompiledChain(
    deptRules: seq<Rule>, vmRules: seq<Rule>, conntrack: bool, dropByDefault: bool,
    tap: string, chain: string, chains: Chains)
    requires IsWord(tap) && IsWord(chain)
    ensures var lines := JoinAll(Bodies(EffectiveRules(deptRules, vmRules, conntrack), tap));
            var compiled := CompiledChain(deptRules, vmRules, conntrack, dropByDefault, tap);
            RunScript(AtomicRuleset(chain, lines, dropByDefault), chains) == Some(chains[chain := compiled])
  {
    BodiesAreRules(EffectiveRules(deptRules, vmRules, conntrack), tap);
    hide IsWord, EffectiveRules, RunScript, TerminalWords;
    ScriptInstallsChain(chain, Bodies(EffectiveRules(deptRules, vmRules, conntrack), tap), dropByDefault, chains);
  }
}
