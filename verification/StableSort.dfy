/**
 The stable sort that `Array.prototype.sort` performs for a numeric comparator,
 and the facts about it that the firewall, backup and CPU modules rely on.
 */
module StableSort {

  predicate Sorted<T>(xs: seq<T>, key: T -> int) {
    forall i, j :: 0 <= i < j < |xs| ==> key(xs[i]) <= key(xs[j])
  }

  /** Puts `x` in front of every element whose key is not smaller. */
  function Insert<T>(x: T, xs: seq<T>, key: T -> int): seq<T> {
    if xs == [] then [x]
    else if key(x) <= key(xs[0]) then [x] + xs
    else [xs[0]] + Insert(x, xs[1..], key)
  }

  function SortBy<T>(xs: seq<T>, key: T -> int): seq<T> {
    if xs == [] then [] else Insert(xs[0], SortBy(xs[1..], key), key)
  }

  function Filter<T>(xs: seq<T>, p: T -> bool): seq<T> {
    if xs == [] then []
    else if p(xs[0]) then [xs[0]] + Filter(xs[1..], p)
    else Filter(xs[1..], p)
  }

  lemma {:induction false} InsertElements<T>(x: T, xs: seq<T>, key: T -> int)
    ensures multiset(Insert(x, xs, key)) == multiset(xs) + multiset{x}
    ensures |Insert(x, xs, key)| == |xs| + 1
  {
    if xs != [] {
      assert xs == [xs[0]] + xs[1..];
      InsertElements(x, xs[1..], key);
    }
  }

  lemma {:induction false} InsertSorted<T>(x: T, xs: seq<T>, key: T -> int)
    requires Sorted(xs, key)
    ensures Sorted(Insert(x, xs, key), key)
  {
    if xs != [] && key(x) > key(xs[0]) {
      InsertSorted(x, xs[1..], key);
      InsertElements(x, xs[1..], key);
      var rest := Insert(x, xs[1..], key);
      forall j | 0 <= j < |rest| ensures key(xs[0]) <= key(rest[j]) {
        assert rest[j] in multiset(rest);
        if rest[j] != x { assert rest[j] in xs[1..]; }
      }
    }
  }

  /** Sorting permutes its input and puts the keys in order. */
  lemma {:induction false} SortPermutes<T>(xs: seq<T>, key: T -> int)
    ensures multiset(SortBy(xs, key)) == multiset(xs)
    ensures |SortBy(xs, key)| == |xs|
    ensures Sorted(SortBy(xs, key), key)
  {
    if xs != [] {
      assert xs == [xs[0]] + xs[1..];
      SortPermutes(xs[1..], key);
      InsertElements(xs[0], SortBy(xs[1..], key), key);
      InsertSorted(xs[0], SortBy(xs[1..], key), key);
    }
  }

  lemma SortMember<T>(xs: seq<T>, key: T -> int, x: T)
    ensures x in SortBy(xs, key) <==> x in xs
  {
    SortPermutes(xs, key);
    assert x in SortBy(xs, key) <==> x in multiset(SortBy(xs, key));
    assert x in xs <==> x in multiset(xs);
  }

  lemma {:induction false} FilterMember<T>(xs: seq<T>, p: T -> bool, x: T)
    ensures x in Filter(xs, p) <==> x in xs && p(x)
  {
    if xs != [] {
      FilterMember(xs[1..], p, x);
      assert x in xs <==> x == xs[0] || x in xs[1..];
    }
  }

  lemma {:induction false} FilterConcat<T>(xs: seq<T>, ys: seq<T>, p: T -> bool)
    ensures Filter(xs + ys, p) == Filter(xs, p) + Filter(ys, p)
  {
    if xs == [] {
      assert xs + ys == ys;
    } else {
      assert (xs + ys)[1..] == xs[1..] + ys;
      FilterConcat(xs[1..], ys, p);
    }
  }

  lemma {:induction false} InsertFilter<T>(x: T, xs: seq<T>, key: T -> int, p: T -> bool)
    requires Sorted(xs, key)
    ensures Filter(Insert(x, xs, key), p)
         == if p(x) then Insert(x, Filter(xs, p), key) else Filter(xs, p)
  {
    if xs == [] {
    } else if key(x) <= key(xs[0]) {
      assert ([x] + xs)[1..] == xs;
      if Filter(xs, p) != [] {
        var y := Filter(xs, p)[0];
        FilterMember(xs, p, y);
        var i :| 0 <= i < |xs| && xs[i] == y;
        assert key(xs[0]) <= key(y);
      }
    } else {
      InsertFilter(x, xs[1..], key, p);
      assert ([xs[0]] + Insert(x, xs[1..], key))[1..] == Insert(x, xs[1..], key);
      if p(xs[0]) {
        assert ([xs[0]] + Filter(xs[1..], p))[1..] == Filter(xs[1..], p);
      }
    }
  }

  /** Dropping elements before or after a stable sort is the same. */
  lemma {:induction false} SortFilter<T>(xs: seq<T>, key: T -> int, p: T -> bool)
    ensures Filter(SortBy(xs, key), p) == SortBy(Filter(xs, p), key)
  {
    if xs != [] {
      SortPermutes(xs[1..], key);
      InsertFilter(xs[0], SortBy(xs[1..], key), key, p);
      SortFilter(xs[1..], key, p);
      if p(xs[0]) {
        assert ([xs[0]] + Filter(xs[1..], p))[1..] == Filter(xs[1..], p);
      }
    }
  }

  lemma {:induction false} InsertCommutes<T>(x: T, y: T, xs: seq<T>, key: T -> int)
    requires key(y) < key(x)
    ensures Insert(x, Insert(y, xs, key), key) == Insert(y, Insert(x, xs, key), key)
  {
    if xs == [] {
      assert [y, x][1..] == [x];
    } else if key(y) <= key(xs[0]) {
      assert ([y] + xs)[1..] == xs;
    } else if key(x) <= key(xs[0]) {
    } else {
      InsertCommutes(x, y, xs[1..], key);
      assert ([xs[0]] + Insert(y, xs[1..], key))[1..] == Insert(y, xs[1..], key);
      assert ([xs[0]] + Insert(x, xs[1..], key))[1..] == Insert(x, xs[1..], key);
    }
  }

  lemma {:induction false} SortInsertAppend<T>(x: T, s: seq<T>, b: seq<T>, key: T -> int)
    ensures SortBy(Insert(x, s, key) + b, key) == Insert(x, SortBy(s + b, key), key)
  {
    if s == [] || key(x) <= key(s[0]) {
      assert (Insert(x, s, key) + b)[1..] == s + b;
    } else {
      assert (Insert(x, s, key) + b)[1..] == Insert(x, s[1..], key) + b;
      assert (s + b)[1..] == s[1..] + b;
      SortInsertAppend(x, s[1..], b, key);
      InsertCommutes(x, s[0], SortBy(s[1..] + b, key), key);
    }
  }

  /** Sorting a prefix first does not change the sort of the whole. */
  lemma {:induction false} SortTwice<T>(a: seq<T>, b: seq<T>, key: T -> int)
    ensures SortBy(SortBy(a, key) + b, key) == SortBy(a + b, key)
  {
    if a != [] {
      assert (a + b)[1..] == a[1..] + b;
      SortTwice(a[1..], b, key);
      SortInsertAppend(a[0], SortBy(a[1..], key), b, key);
    }
  }

  // ----- the first selected element of a sorted list -----

  /** `xs[i]` is selected and comes before every other selected element, by key and then by position. */
  ghost predicate Earliest<T>(xs: seq<T>, i: nat, key: T -> int, p: T -> bool) {
    && i < |xs| && p(xs[i])
    && forall j :: 0 <= j < |xs| && p(xs[j]) ==>
         key(xs[i]) < key(xs[j]) || (key(xs[i]) == key(xs[j]) && i <= j)
  }

  lemma {:induction false} EarliestExists<T>(xs: seq<T>, key: T -> int, p: T -> bool) returns (i: nat)
    requires exists j :: 0 <= j < |xs| && p(xs[j])
    ensures Earliest(xs, i, key, p)
  {
    if exists j :: 0 <= j < |xs[1..]| && p(xs[1..][j]) {
      var k := EarliestExists(xs[1..], key, p);
      i := if p(xs[0]) && key(xs[0]) <= key(xs[k + 1]) then 0 else k + 1;
      forall j | 0 <= j < |xs| && p(xs[j])
        ensures key(xs[i]) < key(xs[j]) || (key(xs[i]) == key(xs[j]) && i <= j)
      {
        if j > 0 { assert p(xs[1..][j - 1]); }
      }
    } else {
      i := 0;
      forall j | 0 < j < |xs| ensures !p(xs[j]) { assert xs[1..][j - 1] == xs[j]; }
    }
  }

  lemma {:induction false} FilterNone<T>(xs: seq<T>, p: T -> bool)
    ensures Filter(xs, p) == [] <==> forall j :: 0 <= j < |xs| ==> !p(xs[j])
  {
    if xs != [] {
      FilterNone(xs[1..], p);
      assert forall j :: 0 < j < |xs| ==> xs[j] == xs[1..][j - 1];
      assert forall j :: 0 <= j < |xs[1..]| ==> xs[1..][j] == xs[j + 1];
    }
  }

  lemma {:induction false} SortedHead<T>(xs: seq<T>, i: nat, key: T -> int, p: T -> bool)
    requires Earliest(xs, i, key, p)
    ensures SortBy(Filter(xs, p), key) != [] && SortBy(Filter(xs, p), key)[0] == xs[i]
  {
    var rest := xs[1..];
    var tail := SortBy(Filter(rest, p), key);
    if i > 0 {
      forall j | 0 <= j < |rest| && p(rest[j])
        ensures key(rest[i - 1]) < key(rest[j]) || (key(rest[i - 1]) == key(rest[j]) && i - 1 <= j)
      {
        assert rest[j] == xs[j + 1];
      }
      SortedHead(rest, i - 1, key, p);
    } else if tail != [] {
      assert tail[0] in tail;
      SortMember(Filter(rest, p), key, tail[0]);
      FilterMember(rest, p, tail[0]);
      var j :| 0 <= j < |rest| && rest[j] == tail[0];
      assert xs[j + 1] == tail[0];
    }
    if p(xs[0]) {
      assert ([xs[0]] + Filter(rest, p))[1..] == Filter(rest, p);
    }
  }

  /** Among the selected elements, the sorted list starts with the earliest one. */
  lemma FirstOfSorted<T>(xs: seq<T>, i: nat, key: T -> int, p: T -> bool)
    requires Earliest(xs, i, key, p)
    ensures Filter(SortBy(xs, key), p) != [] && Filter(SortBy(xs, key), p)[0] == xs[i]
  {
    SortFilter(xs, key, p);
    SortedHead(xs, i, key, p);
  }

  // ----- repeats -----

  predicate NoRepeats<T(==)>(xs: seq<T>) {
    forall i, j :: 0 <= i < j < |xs| ==> xs[i] != xs[j]
  }

  lemma {:induction false} Once<T>(xs: seq<T>, x: T)
    requires NoRepeats(xs)
    ensures multiset(xs)[x] <= 1
  {
    if xs != [] {
      assert xs == [xs[0]] + xs[1..];
      Once(xs[1..], x);
      if xs[0] == x { assert x !in xs[1..]; }
    }
  }

  lemma Twice<T>(xs: seq<T>, i: int, j: int)
    requires 0 <= i < j < |xs| && xs[i] == xs[j]
    ensures multiset(xs)[xs[i]] >= 2
  {
    assert xs == xs[..j] + xs[j..];
    assert xs[..j][i] in multiset(xs[..j]) && xs[j..][0] in multiset(xs[j..]);
  }

  /** A rearrangement of a list without repeats has none. */
  lemma PermutedNoRepeats<T>(xs: seq<T>, ys: seq<T>)
    requires NoRepeats(xs) && multiset(ys) == multiset(xs)
    ensures NoRepeats(ys)
  {
    forall i, j | 0 <= i < j < |ys| ensures ys[i] != ys[j] {
      Once(xs, ys[i]);
      if ys[i] == ys[j] { Twice(ys, i, j); }
    }
  }

  lemma SortDistinct<T>(xs: seq<T>, key: T -> int)
    requires NoRepeats(xs)
    ensures NoRepeats(SortBy(xs, key))
  {
    SortPermutes(xs, key);
    PermutedNoRepeats(xs, SortBy(xs, key));
  }

  const Ascending: int -> int := (n: int) => n

  predicate StrictlyIncreasing(xs: seq<int>) {
    forall i, j :: 0 <= i < j < |xs| ==> xs[i] < xs[j]
  }

  /** Sorting numbers without repeats puts them in strictly increasing order. */
  lemma SortIncreases(xs: seq<int>)
    requires NoRepeats(xs)
    ensures StrictlyIncreasing(SortBy(xs, Ascending))
  {
    SortDistinct(xs, Ascending);
    SortPermutes(xs, Ascending);
    var sorted := SortBy(xs, Ascending);
    hide SortBy;
    forall i, j | 0 <= i < j < |sorted| ensures sorted[i] < sorted[j] {
      assert Ascending(sorted[i]) <= Ascending(sorted[j]);
    }
  }
}
