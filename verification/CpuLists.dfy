/** CPU lists such as `0-3,5,7-9`: one printer and two parsers. */
module CpuLists {
  import opened Wrappers
  import opened JsText
  import opened StableSort

  datatype Range = Range(lo: int, hi: int)

  // ----- ranges -----

  /** The ids of a range in order; a range that ends before it starts has none. */
  function Ids(r: Range): (ids: seq<int>) {
    if r.lo > r.hi then [] else seq(r.hi - r.lo + 1, i requires 0 <= i => r.lo + i)
  }

  function IdsOfAll(rs: seq<Range>): seq<int> {
    if rs == [] then [] else IdsOfAll(rs[..|rs| - 1]) + Ids(rs[|rs| - 1])
  }

  /** The id extends the last range when it follows it, and opens a new range otherwise. */
  function AddId(rs: seq<Range>, x: int): seq<Range> {
    if rs != [] && x == rs[|rs| - 1].hi + 1 then rs[..|rs| - 1] + [Range(rs[|rs| - 1].lo, x)]
    else rs + [Range(x, x)]
  }

  /** Cuts a list into runs of consecutive ids. */
  function Runs(xs: seq<int>): seq<Range> {
    if xs == [] then [] else AddId(Runs(xs[..|xs| - 1]), xs[|xs| - 1])
  }

  predicate Proper(rs: seq<Range>) {
    forall i :: 0 <= i < |rs| ==> rs[i].lo <= rs[i].hi
  }

  /** Ranges in order with a gap between neighbours: none can be extended or joined. */
  predicate Maximal(rs: seq<Range>) {
    Proper(rs) && forall i :: 0 <= i < |rs| - 1 ==> rs[i].hi + 1 < rs[i + 1].lo
  }

  lemma IdsUpTo(lo: int, i: int)
    requires lo <= i
    ensures Ids(Range(lo, i)) == Ids(Range(lo, i - 1)) + [i]
  {
  }

  lemma NoIds(lo: int, hi: int)
    requires lo > hi
    ensures Ids(Range(lo, hi)) == []
  {
  }

  lemma Snoc(rs: seq<Range>, r: Range)
    ensures IdsOfAll(rs + [r]) == IdsOfAll(rs) + Ids(r)
  {
    assert (rs + [r])[..|rs|] == rs;
  }

  lemma Extended(init: seq<Range>, last: Range, x: int)
    requires last.lo <= last.hi && x == last.hi + 1
    ensures IdsOfAll(init + [Range(last.lo, x)]) == IdsOfAll(init + [last]) + [x]
  {
    hide Ids, IdsOfAll;
    Snoc(init, last);
    Snoc(init, Range(last.lo, x));
    IdsUpTo(last.lo, x);
  }

  lemma Opened(rs: seq<Range>, x: int)
    ensures IdsOfAll(rs + [Range(x, x)]) == IdsOfAll(rs) + [x]
  {
    hide Ids, IdsOfAll;
    Snoc(rs, Range(x, x));
    IdsUpTo(x, x);
    NoIds(x, x - 1);
  }

  /** One more id extends the ids covered by one. */
  lemma AddCovers(rs: seq<Range>, x: int)
    requires Proper(rs)
    ensures Proper(AddId(rs, x)) && IdsOfAll(AddId(rs, x)) == IdsOfAll(rs) + [x]
    ensures AddId(rs, x) != []
  {
    hide IdsOfAll;
    if rs != [] && x == rs[|rs| - 1].hi + 1 {
      Extended(rs[..|rs| - 1], rs[|rs| - 1], x);
      assert rs == rs[..|rs| - 1] + [rs[|rs| - 1]];
    } else {
      Opened(rs, x);
    }
  }

  lemma {:induction false} RunsCover(xs: seq<int>)
    ensures IdsOfAll(Runs(xs)) == xs && Proper(Runs(xs)) && (xs != [] ==> Runs(xs) != [])
  {
    if xs != [] {
      var n := |xs| - 1;
      RunsCover(xs[..n]);
      AddCovers(Runs(xs[..n]), xs[n]);
      assert xs == xs[..n] + [xs[n]];
    }
  }

  /** Ranges of strictly increasing ids are maximal. */
  lemma {:induction false} RunsMaximal(xs: seq<int>)
    requires StrictlyIncreasing(xs)
    ensures Maximal(Runs(xs)) && (xs != [] ==> Runs(xs) != [] && Runs(xs)[|Runs(xs)| - 1].hi == xs[|xs| - 1])
  {
    if xs != [] {
      var n := |xs| - 1;
      RunsMaximal(xs[..n]);
      AddMaximal(Runs(xs[..n]), xs[n]);
    }
  }

  lemma AddMaximal(rs: seq<Range>, x: int)
    requires Maximal(rs) && (rs != [] ==> rs[|rs| - 1].hi < x)
    ensures Maximal(AddId(rs, x)) && AddId(rs, x) != [] && AddId(rs, x)[|AddId(rs, x)| - 1].hi == x
  {
  }

  // ----- printing -----

  function PrintInt(n: int): string {
    if n < 0 then "-" + Digits(-n) else Digits(n)
  }

  function PrintRange(r: Range): string {
    if r.lo == r.hi then PrintInt(r.lo) else PrintInt(r.lo) + "-" + PrintInt(r.hi)
  }

  /** One id is printed as a number, more as the first and the last with a hyphen between them. */
  lemma RangeText(lo: nat, hi: nat)
    ensures PrintRange(Range(lo, lo)) == Digits(lo)
    ensures lo < hi ==> PrintRange(Range(lo, hi)) == Digits(lo) + "-" + Digits(hi)
  {
    hide Digits;
  }

  function PrintAll(rs: seq<Range>): seq<string> {
    seq(|rs|, i requires 0 <= i < |rs| => PrintRange(rs[i]))
  }

  function Format(xs: seq<int>): string {
    Join(PrintAll(Runs(SortBy(xs, Ascending))), ",")
  }

  /** One pass over the sorted ids, closing a range at every gap. */
  method FormatCpuRanges(cpus: seq<int>) returns (text: string)
    ensures text == Format(cpus)
  {
    if |cpus| == 0 {
      return "";
    }
    if |cpus| == 1 {
      OneId(cpus);
      return PrintInt(cpus[0]);
    }
    hide PrintRange, Join, SortBy, AddId;
    var sorted := SortBy(cpus, Ascending);
    SortPermutes(cpus, Ascending);
    var ranges: seq<string> := [];
    var rangeStart := sorted[0];
    var rangeEnd := rangeStart;
    ghost var closed: seq<Range> := [];
    FirstRun(sorted);
    for i := 1 to |sorted|
      invariant Runs(sorted[..i]) == closed + [Range(rangeStart, rangeEnd)]
      invariant ranges == PrintAll(closed)
    {
      NextRun(sorted, i, closed, rangeStart, rangeEnd);
      if sorted[i] == rangeEnd + 1 {
        rangeEnd := sorted[i];
      } else {
        PrintOneMore(closed, Range(rangeStart, rangeEnd));
        ranges := ranges + [PrintRange(Range(rangeStart, rangeEnd))];
        closed := closed + [Range(rangeStart, rangeEnd)];
        rangeStart, rangeEnd := sorted[i], sorted[i];
      }
    }
    assert sorted[..|sorted|] == sorted;
    PrintOneMore(closed, Range(rangeStart, rangeEnd));
    ranges := ranges + [PrintRange(Range(rangeStart, rangeEnd))];
    return Join(ranges, ",");
  }

  lemma OneId(cpus: seq<int>)
    requires |cpus| == 1
    ensures Format(cpus) == PrintInt(cpus[0])
  {
    assert cpus == [cpus[0]] && SortBy(cpus, Ascending) == cpus by { assert cpus[1..] == []; }
    FirstRun(cpus);
    assert cpus[..1] == cpus;
    assert PrintAll(Runs(cpus)) == [PrintRange(Range(cpus[0], cpus[0]))];
  }

  lemma FirstRun(xs: seq<int>)
    requires xs != []
    ensures Runs(xs[..1]) == [Range(xs[0], xs[0])]
  {
    assert xs[..1] == [xs[0]] && xs[..1][..0] == [];
    assert Runs([]) == [];
  }

  lemma NextRun(xs: seq<int>, i: nat, closed: seq<Range>, lo: int, hi: int)
    requires i < |xs| && Runs(xs[..i]) == closed + [Range(lo, hi)]
    ensures Runs(xs[..i + 1])
            == if xs[i] == hi + 1 then closed + [Range(lo, xs[i])] else closed + [Range(lo, hi)] + [Range(xs[i], xs[i])]
  {
    assert xs[..i + 1][..i] == xs[..i];
    assert (closed + [Range(lo, hi)])[..|closed|] == closed;
  }

  lemma PrintOneMore(rs: seq<Range>, r: Range)
    ensures PrintAll(rs + [r]) == PrintAll(rs) + [PrintRange(r)]
  {
  }

  // ----- parsing -----

  /** What one field between commas stands for; anything after a second dash is ignored. */
  function Field(part: string): Option<Range> {
    var trimmed := Trim(part);
    if '-' in trimmed then
      var ends := Split(trimmed, '-');
      SplitParts(trimmed, '-');
      var lo, hi := ParseInt(ends[0]), ParseInt(ends[1]);
      if lo.None? || hi.None? then None else Some(Range(lo.value, hi.value))
    else
      var n := ParseInt(trimmed);
      if n.None? then None else Some(Range(n.value, n.value))
  }

  function FieldIds(part: string): seq<int> {
    var r := Field(part);
    if r.None? then [] else Ids(r.value)
  }

  function Expand(parts: seq<string>): seq<int> {
    if parts == [] then [] else Expand(parts[..|parts| - 1]) + FieldIds(parts[|parts| - 1])
  }

  /** The ids of a list, in the order written. */
  function Listed(list: string): seq<int> {
    Expand(Split(list, ','))
  }

  function Members(ids: seq<int>): set<int> {
    set n | n in ids
  }

  lemma MembersConcat(a: seq<int>, b: seq<int>)
    ensures Members(a + b) == Members(a) + Members(b)
  {
  }

  lemma ExpandSnoc(parts: seq<string>, k: nat)
    requires k < |parts|
    ensures Expand(parts[..k + 1]) == Expand(parts[..k]) + FieldIds(parts[k])
  {
    hide FieldIds;
    assert parts[..k + 1][..k] == parts[..k];
  }

  lemma RangeGrows(before: set<int>, lo: int, i: int)
    requires lo <= i
    ensures before + Members(Ids(Range(lo, i))) == before + Members(Ids(Range(lo, i - 1))) + {i}
  {
    IdsUpTo(lo, i);
  }

  /** The set parser: skips empty fields and ranges that are malformed or end before they start. */
  method ParseCpuList(list: string) returns (result: set<int>)
    ensures result == Members(Listed(list))
  {
    hide IsSpace, Trim, Split, ParseInt, Ids, Expand, Members;
    EmptyList();
    result := {};
    var parts := Split(list, ',');
    for k := 0 to |parts|
      invariant result == Members(Expand(parts[..k]))
    {
      var trimmed := Trim(parts[k]);
      ghost var before := result;
      if trimmed == "" {
        BlankField(parts[k]);
      } else if '-' in trimmed {
        SplitParts(trimmed, '-');
        var ends := Split(trimmed, '-');
        var start, end := ParseInt(ends[0]), ParseInt(ends[1]);
        if start.Some? && end.Some? {
          if start.value <= end.value {
            NoIds(start.value, start.value - 1);
            for i := start.value to end.value + 1
              invariant result == before + Members(Ids(Range(start.value, i - 1)))
            {
              RangeGrows(before, start.value, i);
              result := result + {i};
            }
          } else {
            NoIds(start.value, end.value);
          }
        }
      } else {
        var n := ParseInt(trimmed);
        if n.Some? {
          NoIds(n.value, n.value - 1);
          RangeGrows(before, n.value, n.value);
          result := result + {n.value};
        }
      }
      assert result == before + Members(FieldIds(parts[k]));
      ExpandSnoc(parts, k);
      MembersConcat(Expand(parts[..k]), FieldIds(parts[k]));
    }
    assert parts[..|parts|] == parts;
  }

  lemma EmptyList()
    ensures Members([]) == {} && forall parts: seq<string> :: Expand(parts[..0]) == []
  {
  }

  lemma BlankField(part: string)
    requires Trim(part) == ""
    ensures FieldIds(part) == []
  {
  }

  lemma BlankIsSpaces(s: string, c: char)
    requires Trim(s) == "" && !IsSpace(c)
    ensures c !in s
  {
    hide IsSpace;
    TrimEndBlank(TrimStart(s));
    AllSpaces(s);
  }

  lemma {:induction false} TrimEndBlank(s: string)
    requires TrimEnd(s) == "" && (s != "" ==> !IsSpace(s[0]))
    ensures s == ""
  {
    hide IsSpace;
    if s != "" { TrimEndBlank(s[..|s| - 1]); }
  }

  lemma {:induction false} AllSpaces(s: string)
    requires TrimStart(s) == ""
    ensures forall i :: 0 <= i < |s| ==> IsSpace(s[i])
  {
    hide IsSpace;
    if s != "" {
      assert IsSpace(s[0]) && TrimStart(s) == TrimStart(s[1..]);
      AllSpaces(s[1..]);
      assert forall i :: 1 <= i < |s| ==> s[i] == s[1..][i - 1];
    }
  }

  /** A blank list has no ids. */
  lemma BlankListed(list: string)
    requires Trim(list) == ""
    ensures Listed(list) == []
  {
    BlankIsSpaces(list, ',');
    SplitNoSep(list, ',');
    BlankField(list);
    hide IsSpace, Trim, FieldIds;
    assert [list][..0] == [];
    assert Expand([list]) == Expand([list][..0]) + FieldIds(list);
  }

  /** The array parser: ids in the order written, repeated ids included. */
  method ExpandCpuList(cpuList: string) returns (cpus: seq<int>)
    ensures cpus == Listed(cpuList)
  {
    hide IsSpace, Trim, Split, ParseInt, Ids, Expand;
    EmptyList();
    if cpuList == "" || Trim(cpuList) == "" {
      assert Trim("") == "";
      BlankListed(cpuList);
      return [];
    }
    cpus := [];
    var ranges := Split(cpuList, ',');
    for k := 0 to |ranges|
      invariant cpus == Expand(ranges[..k])
    {
      var trimmed := Trim(ranges[k]);
      ghost var before := cpus;
      if '-' in trimmed {
        SplitParts(trimmed, '-');
        var ends := Split(trimmed, '-');
        var start, end := ParseInt(ends[0]), ParseInt(ends[1]);
        if start.Some? && end.Some? {
          var i := start.value;
          NoIds(start.value, start.value - 1);
          while i <= end.value
            invariant start.value <= i && (i <= end.value + 1 || i == start.value)
            invariant cpus == before + Ids(Range(start.value, i - 1))
          {
            IdsUpTo(start.value, i);
            cpus := cpus + [i];
            i := i + 1;
          }
          if end.value < start.value { NoIds(start.value, end.value); }
        }
      } else {
        var cpu := ParseInt(trimmed);
        if cpu.Some? {
          NoIds(cpu.value, cpu.value - 1);
          IdsUpTo(cpu.value, cpu.value);
          cpus := cpus + [cpu.value];
        }
      }
      assert cpus == before + FieldIds(ranges[k]);
      ExpandSnoc(ranges, k);
    }
    assert ranges[..|ranges|] == ranges;
  }

  // ----- round trip -----

  lemma PrintedInt(n: int)
    ensures PrintInt(n) != "" && IsDigit(PrintInt(n)[|PrintInt(n)| - 1])
    ensures ',' !in PrintInt(n) && !IsSpace(PrintInt(n)[0])
    ensures n >= 0 ==> '-' !in PrintInt(n) && ParseInt(PrintInt(n)) == Some(n)
    ensures n < 0 ==> PrintInt(n)[0] == '-'
  {
    var m := if n < 0 then -n else n;
    DigitsPlain(m, ',');
    DigitsPlain(m, '-');
    DigitIsVisible(Digits(m)[0]);
    ParsePrinted(m);
  }

  /** Text before the first dash that is not a number spoils the field. */
  lemma FieldWithDash(text: string, a: string, b: string)
    requires text == a + ['-'] + b && '-' !in a && Trim(text) == text
    ensures ParseInt(a).None? ==> Field(text) == None
    ensures '-' !in b && ParseInt(a).Some? && ParseInt(b).Some? ==>
              Field(text) == Some(Range(ParseInt(a).value, ParseInt(b).value))
  {
    hide IsSpace, Trim, Split, ParseInt;
    assert text[|a|] == '-';
    SplitAtSep(a, b, '-');
    if '-' !in b { SplitNoSep(b, '-'); }
  }

  lemma PrintedVisible(r: Range)
    ensures Trim(PrintRange(r)) == PrintRange(r) && ',' !in PrintRange(r)
  {
    hide IsSpace, Trim, PrintInt;
    PrintedInt(r.lo);
    PrintedInt(r.hi);
    DigitIsVisible(PrintInt(r.lo)[|PrintInt(r.lo)| - 1]);
    DigitIsVisible(PrintInt(r.hi)[|PrintInt(r.hi)| - 1]);
    TrimVisible(PrintRange(r));
  }

  lemma NoNumber()
    ensures ParseInt("") == None
  {
  }

  lemma PrintedBelowZero(r: Range)
    requires r.lo < 0
    ensures Field(PrintRange(r)) == None
  {
    var text := PrintRange(r);
    PrintedVisible(r);
    assert |PrintRange(r)| > 0 && PrintRange(r)[0] == PrintInt(r.lo)[0];
    PrintedInt(r.lo);
    NoNumber();
    hide Field, Trim, ParseInt, PrintRange, PrintInt;
    assert text[0] == '-';
    var none := "";
    assert text == none + ['-'] + text[1..];
    FieldWithDash(text, none, text[1..]);
  }

  lemma PrintedSpan(r: Range)
    requires 0 <= r.lo < r.hi
    ensures Field(PrintRange(r)) == Some(r)
  {
    PrintedVisible(r);
    PrintedInt(r.lo);
    PrintedInt(r.hi);
    hide Field, Trim, ParseInt, PrintInt;
    assert PrintRange(r) == PrintInt(r.lo) + ['-'] + PrintInt(r.hi);
    FieldWithDash(PrintRange(r), PrintInt(r.lo), PrintInt(r.hi));
  }

  /** A printed range is read back exactly when it does not start below zero. */
  lemma PrintedField(r: Range)
    requires r.lo <= r.hi
    ensures ',' !in PrintRange(r)
    ensures Field(PrintRange(r)) == if r.lo < 0 then None else Some(r)
  {
    PrintedVisible(r);
    if r.lo < 0 {
      PrintedBelowZero(r);
    } else if r.lo < r.hi {
      PrintedSpan(r);
    } else {
      PrintedInt(r.lo);
      hide Trim, ParseInt, PrintInt, Split;
    }
  }

  predicate NonNegative(xs: seq<int>) {
    forall i :: 0 <= i < |xs| ==> 0 <= xs[i]
  }

  lemma ExpandPrintedStep(rs: seq<Range>)
    requires rs != []
    ensures var n := |rs| - 1;
      && Expand(PrintAll(rs)) == Expand(PrintAll(rs[..n])) + FieldIds(PrintRange(rs[n]))
      && IdsOfAll(rs) == IdsOfAll(rs[..n]) + Ids(rs[n])
  {
    hide PrintRange, FieldIds, Ids;
    assert PrintAll(rs)[..|rs| - 1] == PrintAll(rs[..|rs| - 1]);
  }

  lemma {:induction false} ExpandPrinted(rs: seq<Range>)
    requires Proper(rs)
    ensures NonNegative(Expand(PrintAll(rs)))
    ensures NonNegative(IdsOfAll(rs)) ==> Expand(PrintAll(rs)) == IdsOfAll(rs)
  {
    if rs != [] {
      var n := |rs| - 1;
      ExpandPrinted(rs[..n]);
      ExpandPrintedStep(rs);
      PrintedField(rs[n]);
      IdsNonNegative(rs[n]);
      hide Field, PrintRange, Ids, PrintAll, IdsOfAll, Expand, NonNegative;
      EmptyIsNonNegative();
      NonNegativeConcat(IdsOfAll(rs[..n]), Ids(rs[n]));
      NonNegativeConcat(Expand(PrintAll(rs[..n])), FieldIds(PrintRange(rs[n])));
    }
  }

  lemma IdsNonNegative(r: Range)
    requires r.lo <= r.hi
    ensures NonNegative(Ids(r)) <==> 0 <= r.lo
  {
    assert Ids(r)[0] == r.lo;
  }

  lemma EmptyIsNonNegative()
    ensures NonNegative([])
  {
  }

  lemma NonNegativeConcat(a: seq<int>, b: seq<int>)
    ensures NonNegative(a + b) <==> NonNegative(a) && NonNegative(b)
  {
    if NonNegative(a + b) {
      forall i | 0 <= i < |a| ensures 0 <= a[i] { assert (a + b)[i] == a[i]; }
      forall i | 0 <= i < |b| ensures 0 <= b[i] { assert (a + b)[|a| + i] == b[i]; }
    }
  }

  /** Printed text splits back into the printed ranges. */
  lemma PrintedFields(rs: seq<Range>)
    requires rs != [] && Proper(rs)
    ensures Split(Join(PrintAll(rs), ","), ',') == PrintAll(rs)
  {
    forall i | 0 <= i < |rs| ensures ',' !in PrintAll(rs)[i] { PrintedField(rs[i]); }
    SplitJoin(PrintAll(rs), ',');
  }

  lemma ListedOfFormat(xs: seq<int>)
    ensures Listed(Format(xs)) == Expand(PrintAll(Runs(SortBy(xs, Ascending))))
  {
    var sorted := SortBy(xs, Ascending);
    RunsCover(sorted);
    if sorted == [] {
      assert Trim("") == "";
      BlankListed("");
    } else {
      PrintedFields(Runs(sorted));
    }
  }

  /**
   Parsing what was printed gives the list back, sorted, repeated ids included,
   exactly when no id is negative.
   */
  lemma RoundTripIff(xs: seq<int>)
    ensures Listed(Format(xs)) == SortBy(xs, Ascending) <==> NonNegative(xs)
  {
    var sorted := SortBy(xs, Ascending);
    RunsCover(sorted);
    ListedOfFormat(xs);
    ExpandPrinted(Runs(sorted));
    SameSigns(xs);
  }

  lemma SameSigns(xs: seq<int>)
    ensures NonNegative(SortBy(xs, Ascending)) <==> NonNegative(xs)
  {
    var sorted := SortBy(xs, Ascending);
    forall i | 0 <= i < |xs| ensures xs[i] in sorted { SortMember(xs, Ascending, xs[i]); }
    forall i | 0 <= i < |sorted| ensures sorted[i] in xs { SortMember(xs, Ascending, sorted[i]); }
  }

  /** As sets the printed list and the original agree. */
  lemma RoundTripSet(xs: seq<int>)
    requires NonNegative(xs)
    ensures Members(Listed(Format(xs))) == Members(xs)
  {
    RoundTripIff(xs);
    hide Listed, Format, SortBy;
    forall n ensures n in SortBy(xs, Ascending) <==> n in xs { SortMember(xs, Ascending, n); }
  }

  /** Without repeated ids the printed ranges are maximal and cover the sorted ids. */
  lemma PrintedRangesMaximal(xs: seq<int>)
    requires NoRepeats(xs)
    ensures Maximal(Runs(SortBy(xs, Ascending))) && IdsOfAll(Runs(SortBy(xs, Ascending))) == SortBy(xs, Ascending)
  {
    var sorted := SortBy(xs, Ascending);
    RunsCover(sorted);
    SortIncreases(xs);
    hide SortBy, Runs;
    RunsMaximal(sorted);
  }

  /** There is one way to write ids as maximal ranges. */
  lemma {:induction false} MaximalUnique(rs: seq<Range>)
    requires Maximal(rs)
    ensures Runs(IdsOfAll(rs)) == rs
  {
    if rs != [] {
      var n := |rs| - 1;
      assert Maximal(rs[..n]) && (n > 0 ==> rs[n - 1].hi + 1 != rs[n].lo);
      MaximalUnique(rs[..n]);
      assert IdsOfAll(rs) == IdsOfAll(rs[..n]) + Ids(rs[n]);
      hide Runs, IdsOfAll, Ids, Maximal;
      RunsOfRange(IdsOfAll(rs[..n]), rs[..n], rs[n].lo, rs[n].hi);
      assert rs == rs[..n] + [rs[n]];
    }
  }

  lemma AddToLast(rs: seq<Range>, lo: int, hi: int)
    ensures AddId(rs + [Range(lo, hi - 1)], hi) == rs + [Range(lo, hi)]
  {
    assert (rs + [Range(lo, hi - 1)])[..|rs|] == rs;
  }

  lemma RunsSnoc(xs: seq<int>, x: int)
    ensures Runs(xs + [x]) == AddId(Runs(xs), x)
  {
    assert (xs + [x])[..|xs|] == xs;
  }

  lemma {:induction false} RunsOfRange(xs: seq<int>, rs: seq<Range>, lo: int, hi: int)
    requires Runs(xs) == rs && lo <= hi && (rs != [] ==> rs[|rs| - 1].hi + 1 != lo)
    ensures Runs(xs + Ids(Range(lo, hi))) == rs + [Range(lo, hi)]
    decreases hi - lo
  {
    hide Runs, Ids;
    var shorter := xs + Ids(Range(lo, hi - 1));
    IdsUpTo(lo, hi);
    RunsSnoc(shorter, hi);
    assert xs + Ids(Range(lo, hi)) == shorter + [hi];
    if lo < hi {
      RunsOfRange(xs, rs, lo, hi - 1);
      AddToLast(rs, lo, hi);
    } else {
      NoIds(lo, hi - 1);
      assert shorter == xs;
    }
  }
}
