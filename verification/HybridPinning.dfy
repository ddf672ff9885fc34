/** Placing vCPUs on shuffled cores: an in-place Fisher-Yates shuffle, then one core after the other. */
module HybridPinning {
  import opened StableSort
  import opened CpuPinning

  // ----- random numbers -----

  /** A draw from 0 below `max`: a fraction scaled and rounded down. */
  function Scaled(fraction: real, max: nat): (n: nat)
    requires 0.0 <= fraction < 1.0 && max > 0
    ensures n < max
  {
    ScaledBounds(fraction, max);
    (fraction * max as real).Floor
  }

  lemma ScaledBounds(fraction: real, max: nat)
    requires 0.0 <= fraction < 1.0 && max > 0
    ensures 0.0 <= fraction * max as real < max as real
  {
    var m := max as real;
    assert (1.0 - fraction) * m > 0.0;
    assert (1.0 - fraction) * m == m - fraction * m;
  }

  /** Every number below `max` can be drawn. */
  lemma ScaledReaches(j: nat, max: nat)
    requires j < max
    ensures var fraction := j as real / max as real; 0.0 <= fraction < 1.0 && Scaled(fraction, max) == j
  {
    var m, fraction := max as real, j as real / max as real;
    assert fraction * m == j as real;
    AtLeastOne(fraction, m);
  }

  lemma AtLeastOne(f: real, m: real)
    requires m > 0.0
    ensures f >= 1.0 ==> f * m >= m
  {
    if f >= 1.0 {
      assert (f - 1.0) * m >= 0.0 && (f - 1.0) * m == f * m - m;
    }
  }

  predicate IsFraction(r: real) {
    0.0 <= r < 1.0
  }

  type Fraction = r: real | IsFraction(r) witness 0.0

  /** The fractions are given; the generator only walks along them. */
  class SeededRandom {
    const fractions: nat -> Fraction
    var drawn: nat

    constructor (fractions: nat -> Fraction)
      ensures this.fractions == fractions && drawn == 0
    {
      this.fractions, drawn := fractions, 0;
    }

    method NextInt(max: nat) returns (n: nat)
      requires max > 0
      modifies this
      ensures drawn == old(drawn) + 1 && n == Scaled(fractions(old(drawn)), max)
      ensures n < max && n as real <= fractions(old(drawn)) * max as real < n as real + 1.0
    {
      n := Scaled(fractions(drawn), max);
      drawn := drawn + 1;
    }
  }

  // ----- the shuffle -----

  function Swapped<T>(xs: seq<T>, i: nat, j: nat): (ys: seq<T>)
    requires i < |xs| && j < |xs|
    ensures |ys| == |xs|
  {
    xs[i := xs[j]][j := xs[i]]
  }

  /** What is left to shuffle after position `j` was swapped to the end. */
  function Without<T>(xs: seq<T>, j: nat): (rest: seq<T>)
    requires j < |xs|
    ensures |rest| == |xs| - 1
  {
    Swapped(xs, |xs| - 1, j)[..|xs| - 1]
  }

  /** Draw `i` picks a position not above `i`. */
  predicate ValidDraws(draws: seq<nat>) {
    forall i :: 0 <= i < |draws| ==> draws[i] <= i
  }

  /** The last position gets the element drawn for it, then the rest is shuffled. */
  function FisherYates<T>(xs: seq<T>, draws: seq<nat>): seq<T>
    requires |draws| == |xs| && ValidDraws(draws)
    decreases |xs|
  {
    if xs == [] then []
    else
      var n := |xs| - 1;
      FisherYates(Without(xs, draws[n]), draws[..n]) + [xs[draws[n]]]
  }

  /** The draws of a generator for `n` elements, the last position first; position 0 takes none. */
  function Draws(fractions: nat -> Fraction, from: nat, n: nat): (draws: seq<nat>)
    ensures |draws| == n && ValidDraws(draws)
    decreases n
  {
    if n == 0 then []
    else if n == 1 then [0]
    else Draws(fractions, from + 1, n - 1) + [Scaled(fractions(from), n)]
  }

  lemma WithoutPermutes<T>(xs: seq<T>, j: nat)
    requires j < |xs|
    ensures multiset(Without(xs, j)) + multiset{xs[j]} == multiset(xs)
  {
    var n := |xs| - 1;
    var ys := Swapped(xs, n, j);
    SwappedPermutes(xs, n, j);
    assert ys[n] == xs[j] && Without(xs, j) == ys[..n];
    hide Swapped, Without;
    assert ys == ys[..n] + [ys[n]];
  }

  lemma SwappedPermutes<T>(xs: seq<T>, i: nat, j: nat)
    requires i < |xs| && j < |xs|
    ensures multiset(Swapped(xs, i, j)) == multiset(xs)
  {
  }

  /** Whatever is drawn, the result is a rearrangement. */
  lemma {:induction false} FisherYatesPermutes<T>(xs: seq<T>, draws: seq<nat>)
    requires |draws| == |xs| && ValidDraws(draws)
    ensures multiset(FisherYates(xs, draws)) == multiset(xs) && |FisherYates(xs, draws)| == |xs|
    decreases |xs|
  {
    hide Without;
    if xs != [] {
      var n := |xs| - 1;
      WithoutPermutes(xs, draws[n]);
      FisherYatesPermutes(Without(xs, draws[n]), draws[..n]);
    }
  }

  /** Every rearrangement can come out. */
  lemma {:induction false} EveryOrderReachable<T>(xs: seq<T>, order: seq<T>) returns (draws: seq<nat>)
    requires multiset(order) == multiset(xs)
    ensures |draws| == |xs| && ValidDraws(draws) && FisherYates(xs, draws) == order
    decreases |xs|
  {
    hide Without;
    assert |multiset(order)| == |multiset(xs)|;
    if xs == [] {
      draws := [];
    } else {
      var n := |xs| - 1;
      assert order[n] in multiset(xs);
      var j :| 0 <= j < |xs| && xs[j] == order[n];
      WithoutPermutes(xs, j);
      assert order == order[..n] + [order[n]];
      assert multiset(order) == multiset(order[..n]) + multiset{order[n]};
      Cancel(multiset(order[..n]), multiset(Without(xs, j)), xs[j]);
      var rest := EveryOrderReachable(Without(xs, j), order[..n]);
      draws := rest + [j];
      assert draws[..n] == rest;
    }
  }

  lemma Cancel<T>(a: multiset<T>, b: multiset<T>, x: T)
    requires a + multiset{x} == b + multiset{x}
    ensures a == b
  {
    assert a == (a + multiset{x}) - multiset{x};
    assert b == (b + multiset{x}) - multiset{x};
  }

  lemma SnocEqual<T>(a: seq<T>, x: T, b: seq<T>, y: T)
    requires a + [x] == b + [y]
    ensures a == b && x == y
  {
    assert (a + [x])[..|a|] == a && (b + [y])[..|b|] == b && |a| == |b|;
    assert (a + [x])[|a|] == x && (b + [y])[|b|] == y;
  }

  lemma WithoutNoRepeats<T>(xs: seq<T>, j: nat)
    requires NoRepeats(xs) && j < |xs|
    ensures NoRepeats(Without(xs, j))
  {
    var ys := Swapped(xs, |xs| - 1, j);
    SwappedPermutes(xs, |xs| - 1, j);
    PermutedNoRepeats(xs, ys);
    hide Swapped;
    assert forall i :: 0 <= i < |xs| - 1 ==> ys[..|xs| - 1][i] == ys[i];
  }

  /** Different draws give different orders: no order is favoured. */
  lemma {:induction false} DrawsDetermined<T>(xs: seq<T>, a: seq<nat>, b: seq<nat>)
    requires NoRepeats(xs) && |a| == |b| == |xs| && ValidDraws(a) && ValidDraws(b)
    requires FisherYates(xs, a) == FisherYates(xs, b)
    ensures a == b
    decreases |xs|
  {
    hide Without;
    if xs != [] {
      var n := |xs| - 1;
      var fa, fb := FisherYates(Without(xs, a[n]), a[..n]), FisherYates(Without(xs, b[n]), b[..n]);
      assert fa + [xs[a[n]]] == fb + [xs[b[n]]];
      SnocEqual(fa, xs[a[n]], fb, xs[b[n]]);
      DifferentElements(xs, a[n], b[n]);
      WithoutNoRepeats(xs, a[n]);
      hide FisherYates, NoRepeats;
      DrawsDetermined(Without(xs, a[n]), a[..n], b[..n]);
      assert a == a[..n] + [a[n]] && b == b[..n] + [b[n]];
    }
  }

  lemma DifferentElements<T>(xs: seq<T>, i: nat, j: nat)
    requires NoRepeats(xs) && i < |xs| && j < |xs| && xs[i] == xs[j]
    ensures i == j
  {
  }

  /** What the shuffle makes of the list when the positions above `i` are done. */
  function FromPosition(xs: seq<Slot>, i: int, fractions: nat -> Fraction, from: nat): seq<Slot>
    requires -1 <= i < |xs|
  {
    FisherYates(xs[..i + 1], Draws(fractions, from, i + 1)) + xs[i + 1..]
  }

  /** Swaps every position with a random one not above it, in place. */
  method Shuffle(a: array<Slot>, rng: SeededRandom)
    modifies a, rng
    ensures a[..] == FisherYates(old(a[..]), Draws(rng.fractions, old(rng.drawn), a.Length))
  {
    hide FromPosition, Draws, FisherYates;
    var i := a.Length - 1;
    FirstPosition(a[..], rng.fractions, rng.drawn);
    ghost var whole := FromPosition(a[..], i, rng.fractions, rng.drawn);
    while i > 0
      invariant -1 <= i < a.Length && (a.Length > 0 ==> i >= 0)
      invariant FromPosition(a[..], i, rng.fractions, rng.drawn) == whole
    {
      ghost var was, from := a[..], rng.drawn;
      var j := rng.NextInt(i + 1);
      a[i], a[j] := a[j], a[i];
      assert a[..] == Swapped(was, i, j);
      ShuffleStep(was, a[..], i, j, rng.fractions, from);
      i := i - 1;
    }
    LastPosition(a[..], i, rng.fractions, rng.drawn);
  }

  lemma FirstPosition(xs: seq<Slot>, fractions: nat -> Fraction, from: nat)
    ensures FromPosition(xs, |xs| - 1, fractions, from) == FisherYates(xs, Draws(fractions, from, |xs|))
  {
    hide FisherYates, Draws;
    assert xs[..|xs|] == xs && xs[|xs|..] == [];
  }

  lemma ShuffleStep(was: seq<Slot>, now: seq<Slot>, i: nat, j: nat, fractions: nat -> Fraction, from: nat)
    requires 0 < i < |was| && j == Scaled(fractions(from), i + 1) && now == Swapped(was, i, j)
    ensures FromPosition(was, i, fractions, from) == FromPosition(now, i - 1, fractions, from + 1)
  {
    hide Scaled, Swapped, Without;
    FirstDraw(was[..i + 1], fractions, from);
    SwapInFront(was, now, i, j);
    hide FisherYates, Draws;
    assert now[i - 1 + 1..] == [was[..i + 1][j]] + was[i + 1..];
  }

  lemma FirstDraw(xs: seq<Slot>, fractions: nat -> Fraction, from: nat)
    requires |xs| > 1
    ensures var n := |xs| - 1; var j := Scaled(fractions(from), n + 1);
      FisherYates(xs, Draws(fractions, from, n + 1)) == FisherYates(Without(xs, j), Draws(fractions, from + 1, n)) + [xs[j]]
  {
    hide Scaled, Without;
    var n := |xs| - 1;
    assert Draws(fractions, from, n + 1)[..n] == Draws(fractions, from + 1, n);
  }

  lemma SwapInFront(was: seq<Slot>, now: seq<Slot>, i: nat, j: nat)
    requires j <= i < |was| && now == Swapped(was, i, j)
    ensures Without(was[..i + 1], j) == now[..i] && now[i..] == [was[..i + 1][j]] + was[i + 1..]
  {
  }

  lemma LastPosition(xs: seq<Slot>, i: int, fractions: nat -> Fraction, from: nat)
    requires -1 <= i < |xs| && i <= 0 && (xs != [] ==> i == 0)
    ensures FromPosition(xs, i, fractions, from) == xs
  {
    if i == 0 {
      assert xs[..1] == [xs[0]] && Without(xs[..1], 0) == [];
      assert FisherYates(xs[..1], [0]) == [xs[0]];
    }
  }

  // ----- what the slots are -----

  lemma {:induction false} SlotsCount(nodes: Topology, i: nat)
    requires i <= |nodes|
    ensures |Slots(nodes[..i])| == CpusUpTo(nodes, i)
  {
    if i > 0 {
      SlotsCount(nodes, i - 1);
      assert nodes[..i][..i - 1] == nodes[..i - 1];
    }
  }

  lemma SlotsTotal(nodes: Topology)
    ensures |Slots(nodes)| == TotalCpus(nodes)
  {
    SlotsCount(nodes, |nodes|);
    TotalFrom(nodes, |nodes|);
    assert nodes[..|nodes|] == nodes;
  }

  predicate OwnsCore(n: Node, slot: Slot) {
    n.id == slot.node && slot.core in n.cpus
  }

  /** A slot is a core of its node. */
  lemma {:induction false} SlotOwned(nodes: Topology, slot: Slot)
    requires slot in Slots(nodes)
    ensures exists i :: 0 <= i < |nodes| && OwnsCore(nodes[i], slot)
  {
    var n := |nodes| - 1;
    if slot in Slots(nodes[..n]) {
      SlotOwned(nodes[..n], slot);
      var i :| 0 <= i < n && OwnsCore(nodes[..n][i], slot);
      assert OwnsCore(nodes[i], slot);
    } else {
      assert OwnsCore(nodes[n], slot);
    }
  }

  /** Every core of every node is a slot, under its node's id. */
  lemma {:induction false} CoreIsSlot(nodes: Topology, i: nat, core: int)
    requires i < |nodes| && core in nodes[i].cpus
    ensures Slot(core, nodes[i].id) in Slots(nodes)
  {
    var n := |nodes| - 1;
    if i < n {
      CoreIsSlot(nodes[..n], i, core);
    } else {
      var k :| 0 <= k < |nodes[n].cpus| && nodes[n].cpus[k] == core;
      assert SlotsOf(nodes[n])[k] == Slot(core, nodes[n].id);
    }
  }

  lemma FewerNodesApart(nodes: Topology, n: nat)
    requires CoresApart(nodes) && n <= |nodes|
    ensures CoresApart(nodes[..n])
  {
  }

  /** Where no core belongs to two nodes, or twice to one, no two slots share a core. */
  lemma {:induction false} SlotsApart(nodes: Topology)
    requires CoresApart(nodes)
    ensures DistinctCores(Slots(nodes))
  {
    if nodes != [] {
      var n := |nodes| - 1;
      var front, last := Slots(nodes[..n]), SlotsOf(nodes[n]);
      FewerNodesApart(nodes, n);
      SlotsApart(nodes[..n]);
      forall s, t | s in front && t in last ensures s.core != t.core {
        SlotOwned(nodes[..n], s);
        var i :| 0 <= i < n && OwnsCore(nodes[..n][i], s);
        assert nodes[..n][i] == nodes[i] && t.core in nodes[n].cpus;
      }
      hide Slots, SlotsOf, CoresApart;
      assert DistinctCores(last) by { OwnSlotsApart(nodes, n); }
      BothApart(front, last);
      assert Slots(nodes) == front + last by { SlotsStep(nodes); }
    }
  }

  lemma SlotsStep(nodes: Topology)
    requires nodes != []
    ensures Slots(nodes) == Slots(nodes[..|nodes| - 1]) + SlotsOf(nodes[|nodes| - 1])
  {
  }

  lemma OwnSlotsApart(nodes: Topology, i: nat)
    requires i < |nodes| && CoresApart(nodes)
    ensures DistinctCores(SlotsOf(nodes[i]))
  {
    assert NoRepeats(nodes[i].cpus);
  }

  lemma BothApart(a: seq<Slot>, b: seq<Slot>)
    requires DistinctCores(a) && DistinctCores(b) && forall s, t :: s in a && t in b ==> s.core != t.core
    ensures DistinctCores(a + b)
  {
  }

  function CoresOf(slots: seq<Slot>): seq<int> {
    seq(|slots|, i requires 0 <= i < |slots| => slots[i].core)
  }

  /** Shuffled slots carry different cores when the host's slots do. */
  lemma ShuffledCoresDistinct(nodes: Topology, shuffled: seq<Slot>)
    requires DistinctCores(Slots(nodes)) && multiset(shuffled) == multiset(Slots(nodes))
    ensures NoRepeats(CoresOf(shuffled))
  {
    var all := Slots(nodes);
    PermutedNoRepeats(all, shuffled);
    forall i, j | 0 <= i < j < |shuffled| ensures shuffled[i].core != shuffled[j].core {
      assert shuffled[i] in multiset(all) && shuffled[j] in multiset(all);
      var k :| 0 <= k < |all| && all[k] == shuffled[i];
      var l :| 0 <= l < |all| && all[l] == shuffled[j];
      assert k != l;
    }
  }

  // ----- the allocation -----

  /** vCPUs below `v` whose slot lies on the node, in order. */
  function VcpusOf(shuffled: seq<Slot>, node: int, v: nat): seq<nat>
    requires shuffled != []
  {
    if v == 0 then []
    else VcpusOf(shuffled, node, v - 1) + if shuffled[(v - 1) % |shuffled|].node == node then [v - 1] else []
  }

  function UsedBelow(shuffled: seq<Slot>, v: nat): set<int>
    requires shuffled != []
  {
    if v == 0 then {} else UsedBelow(shuffled, v - 1) + {shuffled[(v - 1) % |shuffled|].node}
  }

  /** The first `v` vCPUs are placed, each on the slot of its turn. */
  ghost predicate HybridUpTo(
    mapping: map<nat, int>, assignments: map<int, seq<nat>>, selected: seq<int>, used: seq<int>,
    shuffled: seq<Slot>, ids: set<int>, v: nat)
  {
    && shuffled != []
    && mapping == PlaceNode(map[], CoresOf(shuffled), 0, v) && PlacedUpTo(mapping, v)
    && assignments.Keys == ids && (forall id :: id in ids ==> assignments[id] == VcpusOf(shuffled, id, v))
    && NoRepeats(selected) && Elements(selected) == mapping.Values
    && NoRepeats(used) && Elements(used) == UsedBelow(shuffled, v)
  }

  ghost predicate HybridAllocation(r: Allocation, nodes: Topology, shuffled: seq<Slot>, v: nat) {
    && shuffled != []
    && multiset(shuffled) == multiset(Slots(nodes))
    && r.mapping == PlaceNode(map[], CoresOf(shuffled), 0, v)
    && r.assignments.Keys == NodeIds(nodes)
    && (forall id :: id in r.assignments ==> r.assignments[id] == VcpusOf(shuffled, id, v))
    && StrictlyIncreasing(r.selectedCores) && Elements(r.selectedCores) == r.mapping.Values
    && StrictlyIncreasing(r.usedNodes) && Elements(r.usedNodes) == UsedBelow(shuffled, v)
  }

  /** The vCPU at the end of its node's list. */
  function Listed(assignments: map<int, seq<nat>>, node: int, u: nat): map<int, seq<nat>>
    requires node in assignments
  {
    assignments[node := assignments[node] + [u]]
  }

  lemma HybridNext(
    mapping: map<nat, int>, assignments: map<int, seq<nat>>, selected: seq<int>, used: seq<int>,
    shuffled: seq<Slot>, ids: set<int>, v: nat, selected': seq<int>, used': seq<int>)
    requires HybridUpTo(mapping, assignments, selected, used, shuffled, ids, v)
    requires var slot := shuffled[v % |shuffled|];
      && slot.node in ids
      && NoRepeats(selected') && Elements(selected') == Elements(selected) + {slot.core}
      && NoRepeats(used') && Elements(used') == Elements(used) + {slot.node}
    ensures var slot := shuffled[v % |shuffled|];
      HybridUpTo(mapping[v := slot.core], Listed(assignments, slot.node, v), selected', used',
                 shuffled, ids, v + 1)
  {
    var slot := shuffled[v % |shuffled|];
    ValuesAdd(mapping, v, slot.core);
    hide NoRepeats, Elements, CoresOf;
    assert CoresOf(shuffled)[v % |shuffled|] == slot.core by { CoreAt(shuffled, v % |shuffled|); }
  }

  lemma CoreAt(shuffled: seq<Slot>, i: nat)
    requires i < |shuffled|
    ensures |CoresOf(shuffled)| == |shuffled| && CoresOf(shuffled)[i] == shuffled[i].core
  {
  }

  lemma NothingYet(shuffled: seq<Slot>, m: map<nat, int>)
    requires shuffled != [] && m == map[]
    ensures PlaceNode(m, CoresOf(shuffled), 0, 0) == m && PlacedUpTo(m, 0)
    ensures NoRepeats<int>([]) && Elements([]) == m.Values && Elements([]) == UsedBelow(shuffled, 0)
  {
  }

  lemma SmallMod(u: nat, n: nat)
    requires u < n
    ensures u % n == u
  {
  }

  /** The slot of a placed vCPU counts as used, with its core. */
  lemma {:induction false} SlotUsed(shuffled: seq<Slot>, v: nat, u: nat)
    requires shuffled != [] && u < v
    ensures shuffled[u % |shuffled|].node in UsedBelow(shuffled, v)
    ensures var m := PlaceNode(map[], CoresOf(shuffled), 0, v); u in m && m[u] == shuffled[u % |shuffled|].core
  {
    CoreAt(shuffled, u % |shuffled|);
    PlaceNodeLooksUp(map[], CoresOf(shuffled), 0, v, u);
    NodeUsed(shuffled, v, u);
  }

  lemma {:induction false} NodeUsed(shuffled: seq<Slot>, v: nat, u: nat)
    requires shuffled != [] && u < v
    ensures shuffled[u % |shuffled|].node in UsedBelow(shuffled, v)
  {
    if u < v - 1 { NodeUsed(shuffled, v - 1, u); }
  }

  /** The slots' nodes are nodes of the host. */
  lemma SlotNodes(nodes: Topology, shuffled: seq<Slot>)
    requires multiset(shuffled) == multiset(Slots(nodes))
    ensures forall i :: 0 <= i < |shuffled| ==> shuffled[i].node in NodeIds(nodes)
  {
    forall i | 0 <= i < |shuffled| ensures shuffled[i].node in NodeIds(nodes) {
      assert shuffled[i] in multiset(Slots(nodes));
      SlotOwned(nodes, shuffled[i]);
    }
  }

  /** Every node starts without vCPUs. */
  method NoVcpus(nodes: Topology, ghost shuffled: seq<Slot>) returns (a: map<int, seq<nat>>)
    requires shuffled != []
    ensures a.Keys == NodeIds(nodes) && forall id :: id in a ==> a[id] == VcpusOf(shuffled, id, 0)
  {
    a := map[];
    for i := 0 to |nodes|
      invariant a.Keys == NodeIds(nodes[..i])
      invariant forall id :: id in a ==> a[id] == []
    {
      a := a[nodes[i].id := []];
      NodeIdsNext(nodes, i);
    }
    assert nodes[..|nodes|] == nodes;
  }

  lemma NodeIdsNext(nodes: Topology, i: nat)
    requires i < |nodes|
    ensures NodeIds(nodes[..i + 1]) == NodeIds(nodes[..i]) + {nodes[i].id}
  {
    var less, more := nodes[..i], nodes[..i + 1];
    assert more[i] == nodes[i];
    forall id | id in NodeIds(less) ensures id in NodeIds(more) {
      var j :| 0 <= j < |less| && less[j].id == id;
      assert more[j].id == id;
    }
    forall id | id in NodeIds(more) ensures id in NodeIds(less) + {nodes[i].id} {
      var j :| 0 <= j < |more| && more[j].id == id;
      if j < i { assert less[j].id == id; }
    }
  }

  /** The order in which the host's slots are used. */
  function Order(nodes: Topology, fractions: nat -> Fraction, from: nat): seq<Slot> {
    FisherYates(Slots(nodes), Draws(fractions, from, |Slots(nodes)|))
  }

  /** Shuffled pinning; nothing is placed without CPUs or without vCPUs. */
  method CalculateHybridPinning(vcpuCount: int, nodes: Topology, rng: SeededRandom)
    returns (r: Allocation)
    modifies rng
    ensures TotalCpus(nodes) == 0 || vcpuCount <= 0 ==> r == Allocation([], [], map[], map[])
    ensures TotalCpus(nodes) > 0 && vcpuCount > 0 ==>
              HybridAllocation(r, nodes, Order(nodes, rng.fractions, old(rng.drawn)), vcpuCount)
    ensures TotalCpus(nodes) > 0 && vcpuCount > 0 && CoresApart(nodes) ==> SpreadEvenly(r, nodes, vcpuCount)
  {
    if TotalCpus(nodes) == 0 || vcpuCount <= 0 {
      return Nothing;
    }
    SlotsTotal(nodes);
    var allCpus := Slots(nodes);
    var a := new Slot[|allCpus|](i requires 0 <= i < |allCpus| => allCpus[i]);
    assert a[..] == allCpus;
    ghost var draws := Draws(rng.fractions, rng.drawn, |allCpus|);
    Shuffle(a, rng);
    FisherYatesPermutes(allCpus, draws);
    ShuffledLength(allCpus, a[..]);
    r := PlaceShuffled(vcpuCount, nodes, a[..]);
    hide HybridAllocation, SpreadEvenly, CoresApart;
    if CoresApart(nodes) { HybridSpreadsEvenly(r, nodes, a[..], vcpuCount); }
  }

  lemma ShuffledLength(xs: seq<Slot>, ys: seq<Slot>)
    requires multiset(xs) == multiset(ys)
    ensures |xs| == |ys|
  {
    assert |multiset(xs)| == |multiset(ys)|;
  }

  /** Once more over all slots: every core and node is listed already. */
  method ListAgain(
    mapping: map<nat, int>, assignments: map<int, seq<nat>>, cores: seq<int>, nodes: seq<int>, shuffled: seq<Slot>,
    ghost ids: set<int>, v: nat)
    returns (selectedCores: seq<int>, usedNodes: seq<int>)
    requires shuffled != [] && v > |shuffled| && HybridUpTo(mapping, assignments, cores, nodes, shuffled, ids, v)
    ensures HybridUpTo(mapping, assignments, selectedCores, usedNodes, shuffled, ids, v)
  {
    hide HybridUpTo, NoRepeats, Elements;
    selectedCores, usedNodes := cores, nodes;
    for i := 0 to |shuffled|
      invariant HybridUpTo(mapping, assignments, selectedCores, usedNodes, shuffled, ids, v)
    {
      AlreadyListed(mapping, assignments, selectedCores, usedNodes, shuffled, ids, v, i);
      UpToFacts(mapping, assignments, selectedCores, usedNodes, shuffled, ids, v);
      var selected' := AddOnce(selectedCores, shuffled[i].core);
      var used' := AddOnce(usedNodes, shuffled[i].node);
      SameLists(mapping, assignments, selectedCores, usedNodes, shuffled, ids, v, selected', used');
      selectedCores, usedNodes := selected', used';
    }
  }

  method PlaceShuffled(v: nat, nodes: Topology, shuffled: seq<Slot>) returns (r: Allocation)
    requires v > 0 && shuffled != [] && multiset(shuffled) == multiset(Slots(nodes))
    ensures HybridAllocation(r, nodes, shuffled, v)
  {
    ghost var ids := NodeIds(nodes);
    SlotNodes(nodes, shuffled);
    var mapping: map<nat, int> := map[];
    var assignments := NoVcpus(nodes, shuffled);
    NothingYet(shuffled, mapping);
    assert HybridUpTo(mapping, assignments, [], [], shuffled, ids, 0);
    hide HybridUpTo, HybridAllocation, Slots, NodeIds, NoRepeats, Elements;
    var n := |shuffled|;
    var toSelect := if v < n then v else n;
    var selectedCores: seq<int>, usedNodes: seq<int>;
    mapping, assignments, selectedCores, usedNodes := PlaceFirst(toSelect, mapping, assignments, shuffled, ids);
    if v > n {
      mapping, assignments, usedNodes := WrapAround(v, mapping, assignments, selectedCores, usedNodes, shuffled, ids);
      selectedCores, usedNodes := ListAgain(mapping, assignments, selectedCores, usedNodes, shuffled, ids, v);
    }
    r := Finish(mapping, assignments, selectedCores, usedNodes, nodes, shuffled, v);
  }

  /** One vCPU on each of the first slots. */
  method PlaceFirst(
    toSelect: nat, mapping0: map<nat, int>, assignments0: map<int, seq<nat>>, shuffled: seq<Slot>, ghost ids: set<int>)
    returns (mapping: map<nat, int>, assignments: map<int, seq<nat>>, selected: seq<int>, used: seq<int>)
    requires HybridUpTo(mapping0, assignments0, [], [], shuffled, ids, 0) && toSelect <= |shuffled|
    requires forall i :: 0 <= i < |shuffled| ==> shuffled[i].node in ids
    ensures HybridUpTo(mapping, assignments, selected, used, shuffled, ids, toSelect)
  {
    hide HybridUpTo, Listed, NoRepeats, Elements;
    mapping, assignments, selected, used := mapping0, assignments0, [], [];
    for u := 0 to toSelect
      invariant HybridUpTo(mapping, assignments, selected, used, shuffled, ids, u)
    {
      SmallMod(u, |shuffled|);
      var slot := shuffled[u];
      UpToFacts(mapping, assignments, selected, used, shuffled, ids, u);
      var used' := AddOnce(used, slot.node);
      var selected' := AddOnce(selected, slot.core);
      HybridNext(mapping, assignments, selected, used, shuffled, ids, u, selected', used');
      mapping := mapping[u := slot.core];
      assignments := Listed(assignments, slot.node, u);
      selected, used := selected', used';
    }
  }

  /** The remaining vCPUs go round the slots again. */
  method WrapAround(
    v: nat, mapping0: map<nat, int>, assignments0: map<int, seq<nat>>, ghost selected: seq<int>, used0: seq<int>,
    shuffled: seq<Slot>, ghost ids: set<int>)
    returns (mapping: map<nat, int>, assignments: map<int, seq<nat>>, used: seq<int>)
    requires |shuffled| <= v && HybridUpTo(mapping0, assignments0, selected, used0, shuffled, ids, |shuffled|)
    requires forall i :: 0 <= i < |shuffled| ==> shuffled[i].node in ids
    requires shuffled != []
    ensures HybridUpTo(mapping, assignments, selected, used, shuffled, ids, v)
  {
    hide HybridUpTo, Listed, NoRepeats, Elements;
    mapping, assignments, used := mapping0, assignments0, used0;
    for u := |shuffled| to v
      invariant HybridUpTo(mapping, assignments, selected, used, shuffled, ids, u)
    {
      var wrapIndex := u % |shuffled|;
      var slot := shuffled[wrapIndex];
      UpToFacts(mapping, assignments, selected, used, shuffled, ids, u);
      AlreadyListed(mapping, assignments, selected, used, shuffled, ids, u, wrapIndex);
      var used' := AddOnce(used, slot.node);
      HybridNext(mapping, assignments, selected, used, shuffled, ids, u, selected, used');
      mapping := mapping[u := slot.core];
      assignments := Listed(assignments, slot.node, u);
      used := used';
    }
  }

  lemma UpToFacts(
    mapping: map<nat, int>, assignments: map<int, seq<nat>>, selected: seq<int>, used: seq<int>,
    shuffled: seq<Slot>, ids: set<int>, v: nat)
    requires HybridUpTo(mapping, assignments, selected, used, shuffled, ids, v)
    ensures NoRepeats(selected) && NoRepeats(used) && assignments.Keys == ids
  {
  }

  lemma SameLists(
    mapping: map<nat, int>, assignments: map<int, seq<nat>>, selected: seq<int>, used: seq<int>,
    shuffled: seq<Slot>, ids: set<int>, v: nat, selected': seq<int>, used': seq<int>)
    requires HybridUpTo(mapping, assignments, selected, used, shuffled, ids, v)
    requires NoRepeats(selected') && Elements(selected') == Elements(selected)
    requires NoRepeats(used') && Elements(used') == Elements(used)
    ensures HybridUpTo(mapping, assignments, selected', used', shuffled, ids, v)
  {
  }

  /** Once a full turn is placed every slot's core and node are listed. */
  lemma AlreadyListed(
    mapping: map<nat, int>, assignments: map<int, seq<nat>>, selected: seq<int>, used: seq<int>,
    shuffled: seq<Slot>, ids: set<int>, v: nat, i: nat)
    requires HybridUpTo(mapping, assignments, selected, used, shuffled, ids, v)
    requires i < |shuffled| <= v
    ensures shuffled[i].core in selected && shuffled[i].node in used
    ensures Elements(selected) + {shuffled[i].core} == Elements(selected)
    ensures Elements(used) + {shuffled[i].node} == Elements(used)
  {
    SmallMod(i, |shuffled|);
    SlotUsed(shuffled, v, i);
    assert mapping[i] in mapping.Values;
    assert shuffled[i].core in Elements(selected) && shuffled[i].node in Elements(used);
  }

  method Finish(
    mapping: map<nat, int>, assignments: map<int, seq<nat>>, selected: seq<int>, used: seq<int>,
    nodes: Topology, ghost shuffled: seq<Slot>, ghost v: nat) returns (r: Allocation)
    requires HybridUpTo(mapping, assignments, selected, used, shuffled, NodeIds(nodes), v)
    requires multiset(shuffled) == multiset(Slots(nodes))
    ensures HybridAllocation(r, nodes, shuffled, v)
  {
    hide Slots, NodeIds, NoRepeats, Elements, PlaceNode, PlacedUpTo, UsedBelow, VcpusOf, CoresOf, StrictlyIncreasing, SortBy;
    SortedElements(selected);
    SortedElements(used);
    r := Allocation(SortBy(selected, Ascending), SortBy(used, Ascending), mapping, assignments);
  }

  // ----- what it means -----

  lemma {:induction false} VcpusOfNode(shuffled: seq<Slot>, node: int, v: nat, u: nat)
    requires shuffled != []
    ensures u in VcpusOf(shuffled, node, v) <==> u < v && shuffled[u % |shuffled|].node == node
  {
    if v > 0 { VcpusOfNode(shuffled, node, v - 1, u); }
  }

  lemma {:induction false} VcpusOfOnce(shuffled: seq<Slot>, node: int, v: nat)
    requires shuffled != []
    ensures NoRepeats(VcpusOf(shuffled, node, v))
    ensures forall i :: 0 <= i < |VcpusOf(shuffled, node, v)| ==> VcpusOf(shuffled, node, v)[i] < v
  {
    if v > 0 { VcpusOfOnce(shuffled, node, v - 1); }
  }

  /** Exactly the vCPUs below `v` are placed; each is listed once, under one node, and runs on a core of that node. */
  lemma PartitionedByNode(r: Allocation, nodes: Topology, shuffled: seq<Slot>, v: nat, u: nat)
    requires HybridAllocation(r, nodes, shuffled, v)
    ensures u in r.mapping <==> u < v
    ensures u < v ==> exists i :: 0 <= i < |nodes| && OwnsCore(nodes[i], Slot(r.mapping[u], shuffled[u % |shuffled|].node))
    ensures forall id :: id in r.assignments ==>
              NoRepeats(r.assignments[id]) && (u in r.assignments[id] <==> u < v && id == shuffled[u % |shuffled|].node)
  {
    PlaceNodeLooksUp(map[], CoresOf(shuffled), 0, v, u);
    forall id | id in r.assignments
      ensures NoRepeats(r.assignments[id]) && (u in r.assignments[id] <==> u < v && id == shuffled[u % |shuffled|].node)
    {
      VcpusOfNode(shuffled, id, v, u);
      VcpusOfOnce(shuffled, id, v);
    }
    if u < v {
      SlotUsed(shuffled, v, u);
      assert shuffled[u % |shuffled|] in multiset(shuffled);
      SlotOwned(nodes, shuffled[u % |shuffled|]);
    }
  }

  /** Up to one vCPU a core, no two share one. */
  lemma InjectiveWithoutOvercommit(r: Allocation, nodes: Topology, shuffled: seq<Slot>, v: nat, u: nat, w: nat)
    requires HybridAllocation(r, nodes, shuffled, v) && CoresApart(nodes) && v <= TotalCpus(nodes)
    requires u < w < v
    ensures u in r.mapping && w in r.mapping && r.mapping[u] != r.mapping[w]
  {
    SlotsApart(nodes);
    SlotsTotal(nodes);
    ShuffledLength(Slots(nodes), shuffled);
    ShuffledCoresDistinct(nodes, shuffled);
    SmallMod(u, |shuffled|);
    SmallMod(w, |shuffled|);
    SlotUsed(shuffled, v, u);
    SlotUsed(shuffled, v, w);
    CoreAt(shuffled, u);
    CoreAt(shuffled, w);
  }

  /** Every core of every node carries the average load, rounded down or up. */
  lemma LoadsAreEven(r: Allocation, nodes: Topology, shuffled: seq<Slot>, v: nat, i: nat, core: int)
    requires HybridAllocation(r, nodes, shuffled, v) && CoresApart(nodes) && i < |nodes| && core in nodes[i].cpus
    ensures TotalCpus(nodes) > 0
    ensures var n := TotalCpus(nodes); v / n <= Load(r.mapping, core) <= v / n + if v % n == 0 then 0 else 1
  {
    SlotsApart(nodes);
    SlotsTotal(nodes);
    ShuffledLength(Slots(nodes), shuffled);
    ShuffledCoresDistinct(nodes, shuffled);
    var c := CoreTurn(nodes, shuffled, i, core);
    CoreAt(shuffled, c);
    var none: map<nat, int> := map[];
    PlaceNodeLoad(none, CoresOf(shuffled), 0, v, core);
    assert Load(none, core) == 0 by { assert LoadSet(none, core) == {}; }
    CountModClosed(v, |shuffled|, c);
  }

  /** When the core's turn comes. */
  lemma CoreTurn(nodes: Topology, shuffled: seq<Slot>, i: nat, core: int) returns (c: nat)
    requires multiset(shuffled) == multiset(Slots(nodes)) && i < |nodes| && core in nodes[i].cpus
    ensures c < |shuffled| && shuffled[c] == Slot(core, nodes[i].id)
  {
    CoreIsSlot(nodes, i, core);
    assert Slot(core, nodes[i].id) in multiset(shuffled);
    c :| 0 <= c < |shuffled| && shuffled[c] == Slot(core, nodes[i].id);
  }

  /** With a vCPU for every core the selected cores are exactly the cores of all nodes. */
  lemma AllCoresSelected(r: Allocation, nodes: Topology, shuffled: seq<Slot>, v: nat, core: int)
    requires HybridAllocation(r, nodes, shuffled, v)
    ensures core in r.selectedCores ==> exists i :: 0 <= i < |nodes| && core in nodes[i].cpus
    ensures v >= TotalCpus(nodes) && (exists i :: 0 <= i < |nodes| && core in nodes[i].cpus) ==> core in r.selectedCores
  {
    hide Slots, NodeIds, NoRepeats, UsedBelow, VcpusOf, CoresOf, StrictlyIncreasing, Load;
    assert core in r.selectedCores <==> core in Elements(r.selectedCores);
    if core in r.selectedCores {
      var u :| u in r.mapping && r.mapping[u] == core;
      PartitionedByNode(r, nodes, shuffled, v, u);
      var i :| 0 <= i < |nodes| && OwnsCore(nodes[i], Slot(core, shuffled[u % |shuffled|].node));
    }
    if v >= TotalCpus(nodes) && exists i :: 0 <= i < |nodes| && core in nodes[i].cpus {
      var i :| 0 <= i < |nodes| && core in nodes[i].cpus;
      var c := CoreTurn(nodes, shuffled, i, core);
      SlotsTotal(nodes);
      ShuffledLength(Slots(nodes), shuffled);
      SmallMod(c, |shuffled|);
      SlotUsed(shuffled, v, c);
    }
  }

  /**
   What shuffled pinning means for a host whose cores belong to one node each: exactly the vCPUs below the count
   are placed, each listed under a node that has its core; every core of every node carries the average load,
   rounded down or up; and with a vCPU for every core exactly the cores of all nodes are selected.
   */
  ghost predicate SpreadEvenly(r: Allocation, nodes: Topology, v: nat)
    requires TotalCpus(nodes) > 0
  {
    var n := TotalCpus(nodes);
    && (forall u: nat :: u in r.mapping <==> u < v)
    && (forall u: nat :: u < v ==> RunsOnOwnNode(r, nodes, u))
    && (forall i, core :: 0 <= i < |nodes| && core in nodes[i].cpus ==>
          v / n <= Load(r.mapping, core) <= v / n + if v % n == 0 then 0 else 1)
    && (forall core :: core in r.selectedCores ==> HasCore(nodes, core))
    && (v >= n ==> forall core :: HasCore(nodes, core) ==> core in r.selectedCores)
  }

  predicate HasCore(nodes: Topology, core: int) {
    exists i :: 0 <= i < |nodes| && core in nodes[i].cpus
  }

  predicate RunsOnOwnNode(r: Allocation, nodes: Topology, u: nat) {
    exists i :: 0 <= i < |nodes| && nodes[i].id in r.assignments && u in r.assignments[nodes[i].id]
      && u in r.mapping && r.mapping[u] in nodes[i].cpus
  }

  lemma HybridSpreadsEvenly(r: Allocation, nodes: Topology, shuffled: seq<Slot>, v: nat)
    requires HybridAllocation(r, nodes, shuffled, v) && CoresApart(nodes) && TotalCpus(nodes) > 0
    ensures SpreadEvenly(r, nodes, v)
  {
    hide HybridAllocation, CoresApart, TotalCpus, Load;
    forall u: nat ensures (u in r.mapping <==> u < v) && (u < v ==> RunsOnOwnNode(r, nodes, u)) {
      VcpuRuns(r, nodes, shuffled, v, u);
    }
    forall i, core | 0 <= i < |nodes| && core in nodes[i].cpus
      ensures var n := TotalCpus(nodes); v / n <= Load(r.mapping, core) <= v / n + if v % n == 0 then 0 else 1
    {
      LoadsAreEven(r, nodes, shuffled, v, i, core);
    }
    forall core
      ensures core in r.selectedCores ==> HasCore(nodes, core)
      ensures v >= TotalCpus(nodes) && HasCore(nodes, core) ==> core in r.selectedCores
    {
      AllCoresSelected(r, nodes, shuffled, v, core);
    }
  }

  lemma VcpuRuns(r: Allocation, nodes: Topology, shuffled: seq<Slot>, v: nat, u: nat)
    requires HybridAllocation(r, nodes, shuffled, v)
    ensures (u in r.mapping <==> u < v) && (u < v ==> RunsOnOwnNode(r, nodes, u))
  {
    PartitionedByNode(r, nodes, shuffled, v, u);
    if u < v {
      var slot := Slot(r.mapping[u], shuffled[u % |shuffled|].node);
      var i :| 0 <= i < |nodes| && OwnsCore(nodes[i], slot);
      assert nodes[i].id in NodeIds(nodes);
    }
  }
}
