/** Placing vCPUs on the cores of NUMA nodes: in proportion to node size, or shuffled. */
module CpuPinning {
  import opened StableSort

  datatype Node = Node(id: int, cpus: seq<int>)

  /** The nodes of a host in the order of their map, each id once. */
  type Topology = seq<Node>

  datatype Allocation = Allocation(
    selectedCores: seq<int>, usedNodes: seq<int>, mapping: map<nat, int>, assignments: map<int, seq<nat>>)

  const Nothing: Allocation := Allocation([], [], map[], map[])

  const ById: Node -> int := (n: Node) => n.id

  predicate DistinctNodes(nodes: Topology) {
    forall i, j :: 0 <= i < j < |nodes| ==> nodes[i].id != nodes[j].id
  }

  /** CPUs of the first `i` nodes. */
  function CpusUpTo(nodes: Topology, i: nat): nat
    requires i <= |nodes|
  {
    if i == 0 then 0 else CpusUpTo(nodes, i - 1) + |nodes[i - 1].cpus|
  }

  function TotalCpus(nodes: Topology): nat {
    if nodes == [] then 0 else |nodes[0].cpus| + TotalCpus(nodes[1..])
  }

  lemma {:induction false} TotalFrom(nodes: Topology, i: nat)
    requires i <= |nodes|
    ensures CpusUpTo(nodes, i) + TotalCpus(nodes[i..]) == TotalCpus(nodes)
  {
    if i == 0 {
      assert nodes[0..] == nodes;
    } else {
      TotalFrom(nodes, i - 1);
      assert nodes[i - 1..][1..] == nodes[i..];
    }
  }

  lemma {:induction false} InsertKeepsTotal(n: Node, ns: Topology)
    ensures TotalCpus(Insert(n, ns, ById)) == |n.cpus| + TotalCpus(ns)
  {
    assert ([n] + ns)[1..] == ns;
    if ns != [] && ById(n) > ById(ns[0]) {
      InsertKeepsTotal(n, ns[1..]);
      assert ([ns[0]] + Insert(n, ns[1..], ById))[1..] == Insert(n, ns[1..], ById);
    }
  }

  lemma {:induction false} SortKeepsTotal(nodes: Topology)
    ensures TotalCpus(SortBy(nodes, ById)) == TotalCpus(nodes)
  {
    if nodes != [] {
      SortKeepsTotal(nodes[1..]);
      InsertKeepsTotal(nodes[0], SortBy(nodes[1..], ById));
    }
  }

  /** Sorted by id, no node comes twice. */
  lemma SortedNodes(nodes: Topology)
    requires DistinctNodes(nodes)
    ensures forall i, j :: 0 <= i < j < |SortBy(nodes, ById)| ==> SortBy(nodes, ById)[i].id < SortBy(nodes, ById)[j].id
  {
    var ns := SortBy(nodes, ById);
    SortPermutes(nodes, ById);
    SortDistinct(nodes, ById);
    forall i, j | 0 <= i < j < |ns| ensures ns[i].id < ns[j].id {
      assert ById(ns[i]) <= ById(ns[j]);
      SortMember(nodes, ById, ns[i]);
      SortMember(nodes, ById, ns[j]);
    }
  }

  /** All cores, each with its node, in map order. */
  datatype Slot = Slot(core: int, node: int)

  function SlotsOf(n: Node): seq<Slot> {
    seq(|n.cpus|, k requires 0 <= k < |n.cpus| => Slot(n.cpus[k], n.id))
  }

  function Slots(nodes: Topology): seq<Slot> {
    if nodes == [] then [] else Slots(nodes[..|nodes| - 1]) + SlotsOf(nodes[|nodes| - 1])
  }

  predicate DistinctCores(slots: seq<Slot>) {
    forall i, j :: 0 <= i < j < |slots| ==> slots[i].core != slots[j].core
  }

  // ----- counting -----

  /** vCPUs placed on the core. */
  function LoadSet(m: map<nat, int>, core: int): set<nat> {
    set u | u in m && m[u] == core
  }

  function Load(m: map<nat, int>, core: int): nat {
    |LoadSet(m, core)|
  }

  lemma LoadAdds(m: map<nat, int>, u: nat, x: int, core: int)
    requires u !in m
    ensures Load(m[u := x], core) == Load(m, core) + if x == core then 1 else 0
  {
    if x == core {
      assert LoadSet(m[u := x], core) == LoadSet(m, core) + {u};
    } else {
      assert LoadSet(m[u := x], core) == LoadSet(m, core);
    }
  }

  /** How many numbers below `v` leave the remainder `p`. */
  function CountMod(v: nat, n: nat, p: nat): nat
    requires n > 0
  {
    if v == 0 then 0 else CountMod(v - 1, n, p) + if (v - 1) % n == p then 1 else 0
  }

  lemma Multiples(x: int, n: nat)
    ensures x >= 1 ==> x * n >= n
    ensures x <= -1 ==> x * n <= -(n as int)
  {
    if x >= 1 {
      assert (x - 1) * n >= 0;
    } else if x <= -1 {
      assert (-x - 1) * n >= 0;
    }
  }

  lemma DivUnique(a: int, n: nat, q: int, r: int)
    requires n > 0 && a == q * n + r && 0 <= r < n
    ensures a / n == q && a % n == r
  {
    var q', r' := a / n, a % n;
    assert a == q' * n + r';
    assert (q - q') * n == r' - r;
    Multiples(q - q', n);
  }

  lemma DivStep(v: nat, n: nat)
    requires v > 0 && n > 0
    ensures v % n == if (v - 1) % n == n - 1 then 0 else (v - 1) % n + 1
    ensures v / n == (v - 1) / n + if (v - 1) % n == n - 1 then 1 else 0
  {
    var q, r := (v - 1) / n, (v - 1) % n;
    assert v - 1 == q * n + r;
    if r == n - 1 {
      assert (q + 1) * n == q * n + n;
      DivUnique(v, n, q + 1, 0);
    } else {
      DivUnique(v, n, q, r + 1);
    }
  }

  /** Remainders come up equally often, the small ones once more. */
  lemma {:induction false} CountModClosed(v: nat, n: nat, p: nat)
    requires p < n
    ensures CountMod(v, n, p) == v / n + if p < v % n then 1 else 0
  {
    if v > 0 {
      CountModClosed(v - 1, n, p);
      DivStep(v, n);
    }
  }

  // ----- proportional shares -----

  /** The node's share of `v`, rounded down. */
  function Floor(cpus: nat, v: nat, total: nat): nat
    requires total > 0
  {
    cpus * v / total
  }

  lemma FloorBounds(cpus: nat, v: nat, total: nat)
    requires total > 0
    ensures Floor(cpus, v, total) * total <= cpus * v <= Floor(cpus, v, total) * total + (total - 1)
  {
    assert cpus * v == (cpus * v / total) * total + (cpus * v) % total;
  }

  /** vCPUs given to the first `i` nodes, none of them the last. */
  function Given(nodes: Topology, v: nat, total: nat, i: nat): nat
    requires i <= |nodes| && total > 0
  {
    if i == 0 then 0 else Given(nodes, v, total, i - 1) + Floor(|nodes[i - 1].cpus|, v, total)
  }

  /** vCPUs of node `i`: its rounded share, and for the last node whatever is left. */
  function Share(nodes: Topology, v: nat, total: nat, i: nat): nat
    requires i < |nodes| && total > 0
  {
    if nodes[i].cpus == [] then 0
    else if i < |nodes| - 1 then Floor(|nodes[i].cpus|, v, total)
    else
      var given := Given(nodes, v, total, i);
      if given <= v then v - given else 0
  }

  /** The first vCPU of node `i`. */
  function First(nodes: Topology, v: nat, total: nat, i: nat): nat
    requires i <= |nodes| && total > 0
  {
    if i == 0 then 0 else First(nodes, v, total, i - 1) + Share(nodes, v, total, i - 1)
  }

  /** Rounding down loses less than one vCPU a node. */
  lemma {:induction false} GivenBounds(nodes: Topology, v: nat, total: nat, i: nat)
    requires i <= |nodes| && total > 0
    ensures Given(nodes, v, total, i) * total <= CpusUpTo(nodes, i) * v
    ensures CpusUpTo(nodes, i) * v <= Given(nodes, v, total, i) * total + i * (total - 1)
  {
    if i > 0 {
      GivenBounds(nodes, v, total, i - 1);
      var cpus := |nodes[i - 1].cpus|;
      var f, g, c := Floor(cpus, v, total), Given(nodes, v, total, i - 1), CpusUpTo(nodes, i - 1);
      FloorBounds(cpus, v, total);
      hide Floor, Given, CpusUpTo;
      BoundsAdd(g, f, total, c, cpus, v, i);
    }
  }

  lemma BoundsAdd(g: int, f: int, total: int, c: int, cpus: int, v: int, i: int)
    requires g * total <= c * v <= g * total + (i - 1) * (total - 1)
    requires f * total <= cpus * v <= f * total + (total - 1)
    ensures (g + f) * total <= (c + cpus) * v <= (g + f) * total + i * (total - 1)
  {
    assert (g + f) * total == g * total + f * total;
    assert (c + cpus) * v == c * v + cpus * v;
    assert i * (total - 1) == (i - 1) * (total - 1) + (total - 1);
  }

  lemma MulOrder(a: nat, b: nat, t: nat)
    ensures a <= b ==> a * t <= b * t
    ensures a > b && t > 0 ==> a * t > b * t
  {
    if a <= b {
      assert (b - a) * t >= 0 && b * t == (b - a) * t + a * t;
    } else if t > 0 {
      Multiples(a - b, t);
      assert a * t == (a - b) * t + b * t;
    }
  }

  /** The remainder is never exhausted: the `min` with it never bites. */
  lemma GivenWithin(nodes: Topology, v: nat, i: nat)
    requires i <= |nodes| && TotalCpus(nodes) > 0
    ensures Given(nodes, v, TotalCpus(nodes), i) <= v
  {
    var total := TotalCpus(nodes);
    var g, c := Given(nodes, v, total, i), CpusUpTo(nodes, i);
    GivenBounds(nodes, v, total, i);
    TotalFrom(nodes, i);
    assert c <= total;
    hide Given, CpusUpTo, TotalCpus;
    MulOrder(c, total, v);
    MulOrder(g, v, total);
    assert total * v == v * total;
  }

  lemma FloorOfNone(v: nat, total: nat)
    requires total > 0
    ensures Floor(0, v, total) == 0
  {
  }

  /** Before the last node a node starts where the rounded shares end. */
  lemma {:induction false} FirstIsGiven(nodes: Topology, v: nat, total: nat, i: nat)
    requires i < |nodes| && total > 0
    ensures First(nodes, v, total, i) == Given(nodes, v, total, i)
  {
    FloorOfNone(v, total);
    if i > 0 { FirstIsGiven(nodes, v, total, i - 1); }
  }

  /** The shares of the first `i` nodes are whole numbers. */
  predicate SharesExact(nodes: Topology, v: nat, total: nat, i: nat)
    requires i <= |nodes| && total > 0
  {
    forall k :: 0 <= k < i ==> |nodes[k].cpus| * v % total == 0
  }

  lemma FloorExactIff(cpus: nat, v: nat, total: nat)
    requires total > 0
    ensures Floor(cpus, v, total) * total == cpus * v <==> cpus * v % total == 0
  {
    assert cpus * v == (cpus * v / total) * total + (cpus * v) % total;
  }

  lemma ExactAdds(g: int, f: int, total: int, c: int, cpus: int, v: int)
    requires g * total <= c * v && f * total <= cpus * v
    ensures (g + f) * total == (c + cpus) * v <==> g * total == c * v && f * total == cpus * v
  {
    assert (g + f) * total == g * total + f * total;
    assert (c + cpus) * v == c * v + cpus * v;
  }

  /** Nothing is lost to rounding exactly when every share is whole. */
  lemma {:induction false} GivenExactIff(nodes: Topology, v: nat, total: nat, i: nat)
    requires i <= |nodes| && total > 0
    ensures Given(nodes, v, total, i) * total == CpusUpTo(nodes, i) * v <==> SharesExact(nodes, v, total, i)
  {
    if i > 0 {
      GivenExactIff(nodes, v, total, i - 1);
      GivenBounds(nodes, v, total, i - 1);
      var cpus := |nodes[i - 1].cpus|;
      FloorBounds(cpus, v, total);
      FloorExactIff(cpus, v, total);
      SharesExactStep(nodes, v, total, i);
      var g, c, f := Given(nodes, v, total, i - 1), CpusUpTo(nodes, i - 1), Floor(cpus, v, total);
      assert Given(nodes, v, total, i) == g + f && CpusUpTo(nodes, i) == c + cpus;
      hide Given, CpusUpTo, Floor, SharesExact;
      ExactAdds(g, f, total, c, cpus, v);
    }
  }

  lemma SharesExactStep(nodes: Topology, v: nat, total: nat, i: nat)
    requires 0 < i <= |nodes| && total > 0
    ensures SharesExact(nodes, v, total, i) <==> SharesExact(nodes, v, total, i - 1) && |nodes[i - 1].cpus| * v % total == 0
  {
  }

  /** Every vCPU is placed exactly when the last node has a CPU or no share before it was rounded. */
  lemma ConservedIff(nodes: Topology, v: nat)
    requires TotalCpus(nodes) > 0
    ensures nodes != []
    ensures var total, last := TotalCpus(nodes), |nodes| - 1;
      && First(nodes, v, total, |nodes|) <= v
      && (First(nodes, v, total, |nodes|) == v <==> nodes[last].cpus != [] || SharesExact(nodes, v, total, last))
  {
    var total, last := TotalCpus(nodes), |nodes| - 1;
    FirstIsGiven(nodes, v, total, last);
    GivenWithin(nodes, v, last);
    GivenExactIff(nodes, v, total, last);
    TotalFrom(nodes, |nodes|);
    var g := Given(nodes, v, total, last);
    assert nodes[last].cpus == [] ==> CpusUpTo(nodes, last) == total && First(nodes, v, total, |nodes|) == g;
    assert nodes[last].cpus != [] ==> First(nodes, v, total, |nodes|) == v;
    hide Given, CpusUpTo, TotalCpus, First, SharesExact;
    assert total * v == v * total;
    SameMultiple(g, v, total);
  }

  lemma SameMultiple(a: nat, b: nat, t: nat)
    requires t > 0
    ensures a * t == b * t <==> a == b
  {
    MulOrder(a, b, t);
    MulOrder(b, a, t);
  }

  /** With an empty last node vCPUs can be lost: 3 vCPUs on nodes of 1, 1 and no CPUs place only 2. */
  lemma EmptyLastNodeLosesVcpus()
    ensures var nodes := [Node(0, [0]), Node(1, [1]), Node(2, [])];
      DistinctNodes(nodes) && TotalCpus(nodes) == 2 && First(nodes, 3, 2, 3) == 2
  {
    var nodes := [Node(0, [0]), Node(1, [1]), Node(2, [])];
    TotalFrom(nodes, 3);
    assert CpusUpTo(nodes, 0) == 0 && CpusUpTo(nodes, 1) == 1 && CpusUpTo(nodes, 2) == 2 && CpusUpTo(nodes, 3) == 2;
    assert First(nodes, 3, 2, 0) == 0 && First(nodes, 3, 2, 1) == 1 && First(nodes, 3, 2, 2) == 2;
  }

  /**
   Nodes before the last get their exact share rounded down; a last node with CPUs gets at least its
   exact share, and exceeds it by less than one vCPU for every other node.
   */
  lemma NearProportional(nodes: Topology, v: nat, i: nat)
    requires TotalCpus(nodes) > 0 && i < |nodes|
    ensures var total, cpus, share := TotalCpus(nodes), |nodes[i].cpus|, Share(nodes, v, TotalCpus(nodes), i);
      && (i < |nodes| - 1 ==> share == cpus * v / total)
      && (i == |nodes| - 1 && cpus > 0 ==> cpus * v <= share * total <= cpus * v + i * (total - 1))
  {
    var total, cpus := TotalCpus(nodes), |nodes[i].cpus|;
    if i < |nodes| - 1 {
      FloorOfNone(v, total);
    } else {
      var g, c := Given(nodes, v, total, i), CpusUpTo(nodes, i);
      GivenBounds(nodes, v, total, i);
      GivenWithin(nodes, v, i);
      TotalFrom(nodes, |nodes|);
      assert total == c + cpus;
      hide Given, CpusUpTo, TotalCpus;
      LastBounds(g, c, cpus, v, total, i);
    }
  }

  lemma LastBounds(g: int, c: int, cpus: int, v: int, total: int, i: int)
    requires total == c + cpus && g * total <= c * v <= g * total + i * (total - 1)
    ensures cpus * v <= (v - g) * total <= cpus * v + i * (total - 1)
  {
    assert total * v == c * v + cpus * v;
    assert (v - g) * total == v * total - g * total;
  }

  // ----- proportional placement -----

  /** vCPUs `start`, `start + 1`, ... on the cores of one node in turn. */
  function PlaceNode(m: map<nat, int>, cpus: seq<int>, start: nat, k: nat): map<nat, int>
    requires k > 0 ==> cpus != []
  {
    if k == 0 then m else PlaceNode(m, cpus, start, k - 1)[start + (k - 1) := cpus[(k - 1) % |cpus|]]
  }

  function PlaceNodes(nodes: Topology, v: nat, total: nat, i: nat): map<nat, int>
    requires i <= |nodes| && total > 0
  {
    if i == 0 then map[]
    else
      PlaceNode(PlaceNodes(nodes, v, total, i - 1), nodes[i - 1].cpus,
                First(nodes, v, total, i - 1), Share(nodes, v, total, i - 1))
  }

  function Interval(start: nat, k: nat): seq<nat> {
    seq(k, i requires 0 <= i => start + i)
  }

  ghost predicate PlacedUpTo(m: map<nat, int>, n: nat) {
    forall u: nat :: u in m <==> u < n
  }

  lemma {:induction false} PlaceNodeLooksUp(m: map<nat, int>, cpus: seq<int>, start: nat, k: nat, u: nat)
    requires (k > 0 ==> cpus != []) && PlacedUpTo(m, start)
    ensures PlacedUpTo(PlaceNode(m, cpus, start, k), start + k)
    ensures u < start ==> PlaceNode(m, cpus, start, k)[u] == m[u]
    ensures start <= u < start + k ==> PlaceNode(m, cpus, start, k)[u] == cpus[(u - start) % |cpus|]
  {
    if k > 0 { PlaceNodeLooksUp(m, cpus, start, k - 1, u); }
  }

  /** The node a vCPU falls on, and which core of it. */
  lemma {:induction false} PlaceNodesLooksUp(nodes: Topology, v: nat, total: nat, i: nat, j: nat, k: nat)
    requires j < i <= |nodes| && total > 0 && k < Share(nodes, v, total, j)
    ensures PlacedUpTo(PlaceNodes(nodes, v, total, i), First(nodes, v, total, i))
    ensures First(nodes, v, total, j) + k < First(nodes, v, total, i) && nodes[j].cpus != []
    ensures PlaceNodes(nodes, v, total, i)[First(nodes, v, total, j) + k] == nodes[j].cpus[k % |nodes[j].cpus|]
  {
    PlacedSoFar(nodes, v, total, i - 1);
    var u := First(nodes, v, total, j) + k;
    PlaceNodeLooksUp(PlaceNodes(nodes, v, total, i - 1), nodes[i - 1].cpus,
                     First(nodes, v, total, i - 1), Share(nodes, v, total, i - 1), u);
    if j < i - 1 { PlaceNodesLooksUp(nodes, v, total, i - 1, j, k); }
  }

  lemma {:induction false} PlacedSoFar(nodes: Topology, v: nat, total: nat, i: nat)
    requires i <= |nodes| && total > 0
    ensures PlacedUpTo(PlaceNodes(nodes, v, total, i), First(nodes, v, total, i))
  {
    if i > 0 {
      PlacedSoFar(nodes, v, total, i - 1);
      PlaceNodeLooksUp(PlaceNodes(nodes, v, total, i - 1), nodes[i - 1].cpus,
                       First(nodes, v, total, i - 1), Share(nodes, v, total, i - 1), 0);
    }
  }

  /** The vCPU lies in the interval of node `j`. */
  predicate InNode(nodes: Topology, v: nat, total: nat, j: nat, u: nat)
    requires total > 0
  {
    j < |nodes| && First(nodes, v, total, j) <= u < First(nodes, v, total, j) + Share(nodes, v, total, j)
  }

  /** Every placed vCPU belongs to exactly one node's interval. */
  lemma {:induction false} IntervalsPartition(nodes: Topology, v: nat, total: nat, i: nat, u: nat) returns (j: nat)
    requires i <= |nodes| && total > 0 && u < First(nodes, v, total, i)
    ensures j < i && InNode(nodes, v, total, j, u)
    ensures forall k: nat :: k < i && InNode(nodes, v, total, k, u) ==> k == j
  {
    hide Share;
    assert First(nodes, v, total, i) == First(nodes, v, total, i - 1) + Share(nodes, v, total, i - 1);
    hide First;
    if u >= First(nodes, v, total, i - 1) {
      j := i - 1;
      forall k: nat | k < i && InNode(nodes, v, total, k, u) ensures k == j {
        if k < i - 1 { EndsBefore(nodes, v, total, k, i - 1); }
      }
    } else {
      j := IntervalsPartition(nodes, v, total, i - 1, u);
    }
  }

  lemma {:induction false} EndsBefore(nodes: Topology, v: nat, total: nat, k: nat, i: nat)
    requires k < i <= |nodes| && total > 0
    ensures First(nodes, v, total, k) + Share(nodes, v, total, k) <= First(nodes, v, total, i)
  {
    hide Share;
    FirstMono(nodes, v, total, k + 1, i);
  }

  lemma {:induction false} FirstMono(nodes: Topology, v: nat, total: nat, i: nat, j: nat)
    requires i <= j <= |nodes| && total > 0
    ensures First(nodes, v, total, i) <= First(nodes, v, total, j)
  {
    hide Share;
    if i < j { FirstMono(nodes, v, total, i, j - 1); }
  }

  // ----- load of a core -----

  lemma {:induction false} PlaceNodeLoad(m: map<nat, int>, cpus: seq<int>, start: nat, k: nat, core: int)
    requires (k > 0 ==> cpus != []) && PlacedUpTo(m, start)
    ensures core !in cpus ==> Load(PlaceNode(m, cpus, start, k), core) == Load(m, core)
    ensures forall c: nat :: NoRepeats(cpus) && c < |cpus| && cpus[c] == core ==>
              Load(PlaceNode(m, cpus, start, k), core) == Load(m, core) + CountMod(k, |cpus|, c)
  {
    if k > 0 {
      PlaceNodeLoad(m, cpus, start, k - 1, core);
      PlaceNodeLooksUp(m, cpus, start, k - 1, 0);
      LoadAdds(PlaceNode(m, cpus, start, k - 1), start + (k - 1), cpus[(k - 1) % |cpus|], core);
    }
  }

  /** No core belongs to two nodes or twice to one. */
  predicate CoresApart(nodes: Topology) {
    && (forall i :: 0 <= i < |nodes| ==> NoRepeats(nodes[i].cpus))
    && forall i, j, core :: 0 <= i < j < |nodes| && core in nodes[i].cpus ==> core !in nodes[j].cpus
  }

  lemma {:induction false} LoadElsewhere(nodes: Topology, v: nat, total: nat, i: nat, core: int)
    requires i <= |nodes| && total > 0
    requires forall j :: 0 <= j < i ==> core !in nodes[j].cpus
    ensures Load(PlaceNodes(nodes, v, total, i), core) == 0
  {
    if i > 0 {
      LoadElsewhere(nodes, v, total, i - 1, core);
      PlacedSoFar(nodes, v, total, i - 1);
      PlaceNodeLoad(PlaceNodes(nodes, v, total, i - 1), nodes[i - 1].cpus,
                    First(nodes, v, total, i - 1), Share(nodes, v, total, i - 1), core);
    }
  }

  lemma {:induction false} CoreLoad(nodes: Topology, v: nat, total: nat, i: nat, j: nat, c: nat)
    requires j < i <= |nodes| && total > 0 && CoresApart(nodes) && c < |nodes[j].cpus|
    ensures Load(PlaceNodes(nodes, v, total, i), nodes[j].cpus[c])
            == CountMod(Share(nodes, v, total, j), |nodes[j].cpus|, c)
  {
    var core := nodes[j].cpus[c];
    PlacedSoFar(nodes, v, total, i - 1);
    PlaceNodeLoad(PlaceNodes(nodes, v, total, i - 1), nodes[i - 1].cpus,
                  First(nodes, v, total, i - 1), Share(nodes, v, total, i - 1), core);
    if j < i - 1 {
      CoreLoad(nodes, v, total, i - 1, j, c);
    } else {
      LoadElsewhere(nodes, v, total, j, core);
    }
  }

  /** Within a node the loads of two cores differ by at most one. */
  lemma BalancedWithinNode(nodes: Topology, v: nat, j: nat, c: nat, d: nat)
    requires TotalCpus(nodes) > 0 && CoresApart(nodes)
    requires j < |nodes| && c < |nodes[j].cpus| && d < |nodes[j].cpus|
    ensures var m := PlaceNodes(nodes, v, TotalCpus(nodes), |nodes|);
      Load(m, nodes[j].cpus[c]) <= Load(m, nodes[j].cpus[d]) + 1
  {
    var total := TotalCpus(nodes);
    CoreLoad(nodes, v, total, |nodes|, j, c);
    CoreLoad(nodes, v, total, |nodes|, j, d);
    hide Load, Share, PlaceNodes, TotalCpus, CoresApart;
    CountModClosed(Share(nodes, v, total, j), |nodes[j].cpus|, c);
    CountModClosed(Share(nodes, v, total, j), |nodes[j].cpus|, d);
  }

  // ----- the allocation -----

  function Elements(xs: seq<int>): set<int> {
    set x | x in xs
  }

  lemma ValuesAdd(m: map<nat, int>, u: nat, x: int)
    requires u !in m
    ensures m[u := x].Values == m.Values + {x}
  {
    var more := m[u := x];
    forall y | y in m.Values ensures y in more.Values {
      var k :| k in m && m[k] == y;
      assert more[k] == y;
    }
    assert more[u] == x;
  }

  /** Adds an element unless it is listed already. */
  method AddOnce(xs: seq<int>, x: int) returns (more: seq<int>)
    requires NoRepeats(xs)
    ensures NoRepeats(more) && Elements(more) == Elements(xs) + {x}
  {
    more := if x in xs then xs else xs + [x];
  }

  /** vCPUs of every node, the last one taking the rest. */
  method SharePerNode(v: nat, ns: Topology) returns (shares: map<int, nat>)
    requires TotalCpus(ns) > 0
    requires forall i, j :: 0 <= i < j < |ns| ==> ns[i].id < ns[j].id
    ensures forall i :: 0 <= i < |ns| ==> ns[i].id in shares && shares[ns[i].id] == Share(ns, v, TotalCpus(ns), i)
  {
    hide Given, Floor, TotalCpus;
    shares := map[];
    var remaining := v;
    var total := TotalCpus(ns);
    NothingGiven(ns, v, total);
    for i := 0 to |ns|
      invariant forall j :: 0 <= j < i ==> ns[j].id in shares && shares[ns[j].id] == Share(ns, v, total, j)
      invariant i < |ns| ==> remaining == v - Given(ns, v, total, i)
    {
      GivenWithin(ns, v, i + 1);
      GivenNext(ns, v, total, i);
      if ns[i].cpus == [] {
        shares := shares[ns[i].id := 0];
      } else if i == |ns| - 1 {
        shares := shares[ns[i].id := remaining];
      } else {
        var nodeShare := Floor(|ns[i].cpus|, v, total);
        var allocation := if nodeShare < remaining then nodeShare else remaining;
        shares := shares[ns[i].id := allocation];
        remaining := remaining - allocation;
      }
    }
  }

  lemma NothingGiven(ns: Topology, v: nat, total: nat)
    requires total > 0
    ensures Given(ns, v, total, 0) == 0
  {
  }

  lemma GivenNext(ns: Topology, v: nat, total: nat, i: nat)
    requires i < |ns| && total > 0
    ensures Given(ns, v, total, i + 1) == Given(ns, v, total, i) + Floor(|ns[i].cpus|, v, total)
    ensures ns[i].cpus == [] ==> Floor(|ns[i].cpus|, v, total) == 0
  {
    FloorOfNone(v, total);
  }

  /** The vCPUs of one node, each on the next core in turn. */
  method AssignNode(cpus: seq<int>, start: nat, k: nat, mapping: map<nat, int>, selected: seq<int>)
    returns (mapping': map<nat, int>, selected': seq<int>, placed: seq<nat>)
    requires cpus != [] && PlacedUpTo(mapping, start) && NoRepeats(selected) && Elements(selected) == mapping.Values
    ensures mapping' == PlaceNode(mapping, cpus, start, k) && PlacedUpTo(mapping', start + k)
    ensures placed == Interval(start, k)
    ensures NoRepeats(selected') && Elements(selected') == mapping'.Values
  {
    hide NoRepeats, Elements;
    mapping', selected', placed := mapping, selected, [];
    for i := 0 to k
      invariant mapping' == PlaceNode(mapping, cpus, start, i) && PlacedUpTo(mapping', start + i)
      invariant placed == Interval(start, i)
      invariant NoRepeats(selected') && Elements(selected') == mapping'.Values
    {
      var coreIndex := i % |cpus|;
      var physicalCore := cpus[coreIndex];
      ValuesAdd(mapping', start + i, physicalCore);
      mapping' := mapping'[start + i := physicalCore];
      placed := placed + [start + i];
      selected' := AddOnce(selected', physicalCore);
    }
  }

  function NodeIds(ns: Topology): set<int> {
    set j | 0 <= j < |ns| :: ns[j].id
  }

  /** The first `i` nodes hold their intervals, the others nothing. */
  ghost predicate AssignedUpTo(a: map<int, seq<nat>>, ns: Topology, v: nat, total: nat, i: nat)
    requires i <= |ns| && total > 0
  {
    && a.Keys == NodeIds(ns)
    && forall j :: 0 <= j < |ns| ==>
         a[ns[j].id] == if j < i then Interval(First(ns, v, total, j), Share(ns, v, total, j)) else []
  }

  function UsedUpTo(ns: Topology, v: nat, total: nat, i: nat): set<int>
    requires i <= |ns| && total > 0
  {
    set j | 0 <= j < i && Share(ns, v, total, j) > 0 :: ns[j].id
  }

  /** What basic pinning returns, on nodes in the order of their ids. */
  ghost predicate BasicAllocation(r: Allocation, ns: Topology, v: nat)
    requires TotalCpus(ns) > 0
  {
    var total := TotalCpus(ns);
    && r.mapping == PlaceNodes(ns, v, total, |ns|)
    && AssignedUpTo(r.assignments, ns, v, total, |ns|)
    && StrictlyIncreasing(r.selectedCores) && Elements(r.selectedCores) == r.mapping.Values
    && StrictlyIncreasing(r.usedNodes) && Elements(r.usedNodes) == UsedUpTo(ns, v, total, |ns|)
  }

  lemma SortedElements(xs: seq<int>)
    requires NoRepeats(xs)
    ensures StrictlyIncreasing(SortBy(xs, Ascending)) && Elements(SortBy(xs, Ascending)) == Elements(xs)
  {
    SortIncreases(xs);
    forall x ensures x in SortBy(xs, Ascending) <==> x in xs { SortMember(xs, Ascending, x); }
  }

  /** Proportional pinning; nothing is placed without CPUs or without vCPUs. */
  method CalculateBasicPinning(vcpuCount: int, nodes: Topology) returns (r: Allocation)
    requires DistinctNodes(nodes)
    ensures TotalCpus(SortBy(nodes, ById)) == TotalCpus(nodes)
    ensures TotalCpus(nodes) == 0 || vcpuCount <= 0 ==> r == Allocation([], [], map[], map[])
    ensures TotalCpus(nodes) > 0 && vcpuCount > 0 ==> BasicAllocation(r, SortBy(nodes, ById), vcpuCount)
  {
    SortKeepsTotal(nodes);
    if TotalCpus(nodes) == 0 || vcpuCount <= 0 {
      return Nothing;
    }
    SortedNodes(nodes);
    var ns := SortBy(nodes, ById);
    ghost var total := TotalCpus(ns);
    hide SortBy, TotalCpus, Share, NoRepeats, Elements, StrictlyIncreasing, PlacedUpTo, NodeIds, UsedUpTo, Interval, PlaceNode;
    var shares := SharePerNode(vcpuCount, ns);
    r := PlaceAll(vcpuCount, ns, shares);
  }

  lemma Beginning(ns: Topology, v: nat, total: nat, m: map<nat, int>)
    requires total > 0 && m == map[]
    ensures PlacedUpTo(m, 0) && NoRepeats<int>([]) && Elements([]) == m.Values
    ensures UsedUpTo(ns, v, total, 0) == Elements([])
  {
  }

  lemma UsedNext(ns: Topology, v: nat, total: nat, i: nat)
    requires i < |ns| && total > 0
    ensures UsedUpTo(ns, v, total, i + 1)
            == UsedUpTo(ns, v, total, i) + if Share(ns, v, total, i) > 0 then {ns[i].id} else {}
    ensures Share(ns, v, total, i) > 0 ==> ns[i].cpus != []
  {
    var used, more := UsedUpTo(ns, v, total, i), UsedUpTo(ns, v, total, i + 1);
    hide Share;
    forall x | x in more ensures x in used || (x == ns[i].id && Share(ns, v, total, i) > 0) {
      var j :| 0 <= j < i + 1 && Share(ns, v, total, j) > 0 && x == ns[j].id;
      if j < i { assert x in used; }
    }
  }

  /** Every node starts without vCPUs. */
  method NoneAssigned(ns: Topology, ghost v: nat, ghost total: nat) returns (a: map<int, seq<nat>>)
    requires total > 0
    ensures AssignedUpTo(a, ns, v, total, 0)
  {
    a := map[];
    for i := 0 to |ns|
      invariant a.Keys == set j | 0 <= j < i :: ns[j].id
      invariant forall k :: k in a ==> a[k] == []
    {
      a := a[ns[i].id := []];
    }
  }

  lemma AssignedNext(a: map<int, seq<nat>>, ns: Topology, v: nat, total: nat, i: nat)
    requires i < |ns| && total > 0 && AssignedUpTo(a, ns, v, total, i)
    requires forall j, k :: 0 <= j < k < |ns| ==> ns[j].id < ns[k].id
    ensures AssignedUpTo(a[ns[i].id := Interval(First(ns, v, total, i), Share(ns, v, total, i))], ns, v, total, i + 1)
    ensures Share(ns, v, total, i) == 0 ==> AssignedUpTo(a, ns, v, total, i + 1)
  {
    hide Share, First;
  }

  /** The vCPUs of the first `i` nodes are placed. */
  ghost predicate PlacedNodes(
    r: Allocation, vcpuIndex: nat, ns: Topology, v: nat, total: nat, i: nat)
    requires i <= |ns| && total > 0
  {
    && vcpuIndex == First(ns, v, total, i) && r.mapping == PlaceNodes(ns, v, total, i) && PlacedUpTo(r.mapping, vcpuIndex)
    && NoRepeats(r.selectedCores) && Elements(r.selectedCores) == r.mapping.Values
    && AssignedUpTo(r.assignments, ns, v, total, i)
    && NoRepeats(r.usedNodes) && Elements(r.usedNodes) == UsedUpTo(ns, v, total, i)
  }

  lemma NonePlaced(r: Allocation, ns: Topology, v: nat, total: nat)
    requires total > 0 && AssignedUpTo(r.assignments, ns, v, total, 0)
    requires r.mapping == map[] && r.selectedCores == [] && r.usedNodes == []
    ensures PlacedNodes(r, 0, ns, v, total, 0)
  {
    Beginning(ns, v, total, r.mapping);
  }

  lemma PlacedNext(
    r: Allocation, vcpuIndex: nat, ns: Topology, v: nat, total: nat, i: nat, r': Allocation)
    requires i < |ns| && total > 0 && PlacedNodes(r, vcpuIndex, ns, v, total, i)
    requires r'.mapping == PlaceNode(r.mapping, ns[i].cpus, vcpuIndex, Share(ns, v, total, i))
    requires PlacedUpTo(r'.mapping, vcpuIndex + Share(ns, v, total, i))
    requires NoRepeats(r'.selectedCores) && Elements(r'.selectedCores) == r'.mapping.Values
    requires AssignedUpTo(r'.assignments, ns, v, total, i + 1)
    requires NoRepeats(r'.usedNodes)
    requires Elements(r'.usedNodes) == Elements(r.usedNodes) + if Share(ns, v, total, i) > 0 then {ns[i].id} else {}
    ensures PlacedNodes(r', vcpuIndex + Share(ns, v, total, i), ns, v, total, i + 1)
  {
    UsedNext(ns, v, total, i);
    hide Share, NoRepeats, Elements, PlacedUpTo, AssignedUpTo, UsedUpTo, Interval, PlaceNode;
  }

  /** One node more: skipped when it gets no vCPU, else its vCPUs go on its cores in turn. */
  method PlaceNextNode(r: Allocation, vcpuIndex: nat, k: nat, ns: Topology, ghost v: nat, ghost total: nat, i: nat)
    returns (r': Allocation, vcpuIndex': nat)
    requires i < |ns| && total > 0 && PlacedNodes(r, vcpuIndex, ns, v, total, i) && k == Share(ns, v, total, i)
    requires forall i, j :: 0 <= i < j < |ns| ==> ns[i].id < ns[j].id
    ensures PlacedNodes(r', vcpuIndex', ns, v, total, i + 1)
  {
    UsedNext(ns, v, total, i);
    AssignedNext(r.assignments, ns, v, total, i);
    NothingPlaced(r.mapping, ns[i].cpus, vcpuIndex);
    assert vcpuIndex == First(ns, v, total, i);
    if k == 0 || ns[i].cpus == [] {
      r', vcpuIndex' := r, vcpuIndex;
      PlacedNext(r, vcpuIndex, ns, v, total, i, r');
    } else {
      var usedNodes := AddOnce(r.usedNodes, ns[i].id);
      var mapping, selectedCores, placed := AssignNode(ns[i].cpus, vcpuIndex, k, r.mapping, r.selectedCores);
      hide Share, First, NoRepeats, Elements, PlacedUpTo, AssignedUpTo, UsedUpTo, Interval, PlaceNode, PlacedNodes;
      var assignments: map<int, seq<nat>> := r.assignments[ns[i].id := placed];
      r' := Allocation(selectedCores, usedNodes, mapping, assignments);
      PlacedNext(r, vcpuIndex, ns, v, total, i, r');
      vcpuIndex' := vcpuIndex + k;
    }
  }

  method PlaceAll(v: nat, ns: Topology, shares: map<int, nat>) returns (r: Allocation)
    requires TotalCpus(ns) > 0
    requires forall i, j :: 0 <= i < j < |ns| ==> ns[i].id < ns[j].id
    requires forall i :: 0 <= i < |ns| ==> ns[i].id in shares && shares[ns[i].id] == Share(ns, v, TotalCpus(ns), i)
    ensures BasicAllocation(r, ns, v)
  {
    hide PlacedNodes, AssignedUpTo, TotalCpus, Share, BasicAllocation;
    ghost var total := TotalCpus(ns);
    var assignments := NoneAssigned(ns, v, total);
    r := Allocation([], [], map[], assignments);
    NonePlaced(r, ns, v, total);
    var vcpuIndex := 0;
    for i := 0 to |ns|
      invariant PlacedNodes(r, vcpuIndex, ns, v, total, i)
    {
      r, vcpuIndex := PlaceNextNode(r, vcpuIndex, shares[ns[i].id], ns, v, total, i);
    }
    r := SortedResult(r, vcpuIndex, ns, v);
  }

  /** The allocation with cores and nodes in order. */
  method SortedResult(r: Allocation, ghost vcpuIndex: nat, ns: Topology, ghost v: nat) returns (sorted: Allocation)
    requires TotalCpus(ns) > 0 && PlacedNodes(r, vcpuIndex, ns, v, TotalCpus(ns), |ns|)
    ensures BasicAllocation(sorted, ns, v)
  {
    hide TotalCpus, NoRepeats, Elements, StrictlyIncreasing, PlacedUpTo, AssignedUpTo, UsedUpTo, PlaceNodes, SortBy, First;
    SortedElements(r.selectedCores);
    SortedElements(r.usedNodes);
    sorted := Allocation(SortBy(r.selectedCores, Ascending), SortBy(r.usedNodes, Ascending), r.mapping, r.assignments);
  }

  lemma NothingPlaced(m: map<nat, int>, cpus: seq<int>, start: nat)
    ensures PlaceNode(m, cpus, start, 0) == m && Interval(start, 0) == []
  {
  }

  /** Each placed vCPU is listed under exactly one node and runs on a core of that node. */
  lemma PlacedOnOwnNode(r: Allocation, ns: Topology, v: nat, u: nat) returns (j: nat)
    requires TotalCpus(ns) > 0 && BasicAllocation(r, ns, v) && u < First(ns, v, TotalCpus(ns), |ns|)
    ensures j < |ns| && ns[j].id in r.assignments && u in r.assignments[ns[j].id]
    ensures forall k: nat :: k < |ns| && u in r.assignments[ns[k].id] ==> k == j
    ensures u in r.mapping && r.mapping[u] in ns[j].cpus
  {
    var total := TotalCpus(ns);
    hide TotalCpus, Share, PlaceNodes, First;
    j := IntervalsPartition(ns, v, total, |ns|, u);
    var k := u - First(ns, v, total, j);
    PlaceNodesLooksUp(ns, v, total, |ns|, j, k);
    forall i: nat | i < |ns| ensures u in r.assignments[ns[i].id] <==> InNode(ns, v, total, i, u) {
      assert r.assignments[ns[i].id] == Interval(First(ns, v, total, i), Share(ns, v, total, i));
      InInterval(First(ns, v, total, i), Share(ns, v, total, i), u);
    }
    assert PlacedUpTo(r.mapping, First(ns, v, total, |ns|));
  }

  lemma InInterval(start: nat, k: nat, u: nat)
    ensures u in Interval(start, k) <==> start <= u < start + k
  {
    if start <= u < start + k { assert Interval(start, k)[u - start] == u; }
  }
}
