/** Which slots to take from which source: computeReshardTable in pkg/controller/clustering/rebalance.go. */
module Reshard {
  import opened Slots
  import opened Sums
  import opened Nodes
  import opened Balance

  datatype MovedNode = MovedNode(Source: Node, Slot: Slot)

  /** The share of `numSlots` that falls to x of `total` slots. */
  function Scaled(numSlots: nat, total: nat, x: nat): real
    requires total > 0
  {
    Part(numSlots as real / total as real, x as real)
  }

  function Part(f: real, h: real): real {
    f * h
  }

  lemma ScaledBounds(numSlots: nat, total: nat, x: nat)
    requires numSlots <= total && 0 < total
    ensures 0.0 <= Scaled(numSlots, total, x) <= x as real
    ensures x <= total ==> Scaled(numSlots, total, x) <= numSlots as real
    ensures x == total ==> Scaled(numSlots, total, x) == numSlots as real
  {
    hide Part;
    var f := numSlots as real / total as real;
    FractionOf(numSlots as real, total as real);
    ScaleBounds(f, x as real);
    if x <= total {
      ScaleMonotone(f, x as real, total as real);
    }
  }

  lemma FractionOf(p: real, q: real)
    requires q > 0.0 && 0.0 <= p <= q
    ensures Part(p / q, q) == p && 0.0 <= p / q <= 1.0
  {
  }

  lemma ScaleBounds(f: real, h: real)
    requires 0.0 <= f <= 1.0 && h >= 0.0
    ensures 0.0 <= Part(f, h) <= h
  {
    NonNegative(f, h);
    NonNegative(1.0 - f, h);
    assert (1.0 - f) * h == h - f * h;
  }

  lemma NonNegative(f: real, h: real)
    requires 0.0 <= f && 0.0 <= h
    ensures 0.0 <= Part(f, h)
  {
    if f > 0.0 && h > 0.0 {
      assert f * h > 0.0;
    }
  }

  lemma ScaleMonotone(f: real, a: real, b: real)
    requires 0.0 <= f && a <= b
    ensures Part(f, a) <= Part(f, b)
  {
    hide Part;
    NonNegative(f, b - a);
    Distribute(f, a, b - a);
    assert a + (b - a) == b;
  }

  lemma ScaledSum(numSlots: nat, total: nat, x: nat, y: nat)
    requires total > 0
    ensures Scaled(numSlots, total, x + y) == Scaled(numSlots, total, x) + Scaled(numSlots, total, y)
  {
    hide Part;
    Distribute(numSlots as real / total as real, x as real, y as real);
    assert (x + y) as real == x as real + y as real;
  }

  lemma Distribute(f: real, a: real, b: real)
    ensures Part(f, a + b) == Part(f, a) + Part(f, b)
  {
  }

  /** How many of `numSlots` a source with `held` of `total` slots contributes; the first source rounds up. */
  function Contribution(numSlots: nat, total: nat, held: nat, first: bool): int
    requires total > 0
  {
    var n := Scaled(numSlots, total, held);
    if first then Ceil(n) else n.Floor
  }

  ghost function Held(nodes: seq<Node>): (r: seq<int>)
    reads nodes`Slots
    ensures |r| == |nodes|
    ensures forall i :: 0 <= i < |nodes| ==> r[i] == |nodes[i].Slots|
  {
    Lens(nodes)
  }

  /** A contribution never exceeds what the source holds. */
  lemma ContributionBounds(numSlots: nat, total: nat, held: nat, first: bool)
    requires numSlots <= total && 0 < total
    ensures 0 <= Contribution(numSlots, total, held, first) <= held
  {
    hide Scaled;
    ScaledBounds(numSlots, total, held);
  }

  /** The entries for some slots of one node, in order. */
  function Entries(node: Node, slots: seq<Slot>): (r: seq<MovedNode>)
    ensures |r| == |slots|
    ensures forall i :: 0 <= i < |slots| ==> r[i] == MovedNode(node, slots[i])
  {
    if slots == [] then []
    else Entries(node, slots[..|slots| - 1]) + [MovedNode(node, slots[|slots| - 1])]
  }

  lemma {:induction false} HeldIsSumOf(nodes: seq<Node>, m: map<Node, int>)
    requires forall n :: n in nodes ==> n in m && m[n] == |n.Slots|
    ensures Sum(Held(nodes)) == SumOf(m, nodes)
  {
    if nodes != [] {
      HeldIsSumOf(nodes[..|nodes| - 1], m);
      assert Held(nodes)[..|nodes| - 1] == Held(nodes[..|nodes| - 1]);
    }
  }

  lemma SumHeldPermutation(nodes: seq<Node>, sn: seq<Node>)
    requires multiset(nodes) == multiset(sn)
    ensures Sum(Held(nodes)) == Sum(Held(sn))
  {
    forall n | n in sn ensures n in nodes {
      assert n in multiset(sn);
    }
    var m := map n | n in nodes :: |n.Slots|;
    SumPermutation(m, nodes, sn);
    HeldIsSumOf(nodes, m);
    HeldIsSumOf(sn, m);
  }

  lemma EmptyLists()
    ensures Sum(Held([])) == 0 && NoDup<MovedNode>([])
  {
  }

  lemma EntriesNoDup(moved: seq<MovedNode>, node: Node, n: nat)
    requires n <= |node.Slots|
    requires NoDup(moved) && NoDup(node.Slots) && forall e :: e in moved ==> e.Source != node
    ensures NoDup(moved + Entries(node, node.Slots[..n]))
  {
    var r := moved + Entries(node, node.Slots[..n]);
    forall i, j | 0 <= i < j < |r| ensures r[i] != r[j] {
      if i < |moved| <= j {
        assert moved[i] in moved;
      }
    }
  }

  /** Rounding after idx sources that hold `seen` slots in all: the first entry of the table rounded up, the others
      down. */
  ghost predicate Rounded(numSlots: nat, total: nat, seen: nat, idx: nat, entries: int)
    requires total > 0
  {
    var x := Scaled(numSlots, total, seen);
    && (idx == 0 ==> seen == 0 && entries == 0)
    && (idx > 0 ==> x - (idx - 1) as real <= entries as real < x + 1.0)
    && (idx > 1 ==> x - (idx - 1) as real < entries as real)
  }

  lemma RoundedStep(numSlots: nat, total: nat, seen: nat, held: nat, idx: nat, entries: int)
    requires numSlots <= total && 0 < total
    requires Rounded(numSlots, total, seen, idx, entries)
    ensures Rounded(numSlots, total, seen + held, idx + 1,
                    entries + Contribution(numSlots, total, held, idx == 0))
  {
    hide Scaled;
    ScaledSum(numSlots, total, seen, held);
    ScaledBounds(numSlots, total, 0);
  }

  lemma RoundedStart(numSlots: nat, total: nat)
    requires 0 < total
    ensures Rounded(numSlots, total, 0, 0, 0)
  {
  }

  /** No more entries than slots were asked for as long as the sources seen so far hold no more than all do. */
  lemma RoundedAtMost(numSlots: nat, total: nat, seen: nat, idx: nat, entries: int)
    requires numSlots <= total && 0 < total && seen <= total
    requires Rounded(numSlots, total, seen, idx, entries)
    ensures entries <= numSlots
    ensures seen == total && idx > 0 ==> entries >= numSlots - Max(0, idx - 2)
  {
    hide Scaled;
    ScaledBounds(numSlots, total, seen);
  }

  /** The inner loop: the first n slots of a source, unless the table is complete. */
  method AppendEntries(moved: seq<MovedNode>, node: Node, n: nat, numSlots: nat) returns (r: seq<MovedNode>)
    requires n <= |node.Slots| && |moved| <= numSlots
    ensures r == moved + Entries(node, node.Slots[..Min(n, numSlots - |moved|)])
  {
    r := moved;
    var keys := node.Slots;
    for i := 0 to n
      invariant r == moved + Entries(node, keys[..Min(i, numSlots - |moved|)])
    {
      if |r| < numSlots {
        assert keys[..i + 1][..i] == keys[..i];
        r := r + [MovedNode(node, keys[i])];
      }
    }
  }

  lemma HeldPrefix(sources: seq<Node>, j: nat)
    requires j < |sources|
    ensures Sum(Held(sources[..j + 1])) == Sum(Held(sources[..j])) + |sources[j].Slots|
    ensures 0 <= Sum(Held(sources[..j])) && Sum(Held(sources[..j + 1])) <= Sum(Held(sources))
  {
    assert sources[..j + 1][..j] == sources[..j];
    HeldNonneg(sources[..j]);
    HeldNonneg(sources[j + 1..]);
    assert Held(sources) == Held(sources[..j + 1]) + Held(sources[j + 1..]);
    SumConcat(Held(sources[..j + 1]), Held(sources[j + 1..]));
  }

  lemma NobodyHoldsNothing(nodes: seq<Node>)
    requires Sum(Held(nodes)) > 0
    ensures nodes != []
  {
  }

  lemma HeldNonneg(nodes: seq<Node>)
    ensures Sum(Held(nodes)) >= 0
  {
    if nodes != [] {
      SumAtLeast(Held(nodes), 0);
    }
  }

  /** The entries of the first idx sources: of each source its first slots, as many as its contribution. */
  ghost function Table(sources: seq<Node>, idx: nat, numSlots: nat, total: nat): seq<MovedNode>
    requires idx <= |sources| && total > 0
    reads sources
  {
    if idx == 0 then []
    else
      var node := sources[idx - 1];
      var n := Contribution(numSlots, total, |node.Slots|, idx == 1);
      Table(sources, idx - 1, numSlots, total) + Entries(node, if 0 <= n <= |node.Slots| then node.Slots[..n] else [])
  }

  lemma TableNext(sources: seq<Node>, idx: nat, numSlots: nat, total: nat)
    requires idx < |sources| && 0 < total && numSlots <= total
    ensures var node := sources[idx];
      var n := Contribution(numSlots, total, |node.Slots|, idx == 0);
      0 <= n <= |node.Slots| &&
      Table(sources, idx + 1, numSlots, total) == Table(sources, idx, numSlots, total) + Entries(node, node.Slots[..n])
  {
    hide Contribution, Entries;
    ContributionBounds(numSlots, total, |sources[idx].Slots|, idx == 0);
  }

  /** The reshard table after the first idx sources. */
  ghost predicate TableSoFar(sources: seq<Node>, idx: nat, moved: seq<MovedNode>, numSlots: nat, total: nat)
    requires idx <= |sources| && total > 0
    reads sources
  {
    && Sum(Held(sources[..idx])) >= 0
    && Rounded(numSlots, total, Sum(Held(sources[..idx])), idx, |moved|)
    && |moved| <= numSlots
    && (forall e :: e in moved ==> e.Source in sources[..idx] && e.Slot in e.Source.Slots)
    && NoDup(moved) && moved == Table(sources, idx, numSlots, total)
    && (idx == 1 ==> |moved| <= |sources[0].Slots| && moved == Entries(sources[0], sources[0].Slots[..|moved|]))
  }

  /** The body of the outer loop. */
  method TakeFromSource(sources: seq<Node>, idx: nat, table: seq<MovedNode>, numSlots: nat, total: nat)
    returns (moved: seq<MovedNode>)
    requires idx < |sources| && NoDup(sources) && NoDup(sources[idx].Slots)
    requires total == Sum(Held(sources)) && 0 < total && numSlots <= total
    requires TableSoFar(sources, idx, table, numSlots, total)
    ensures TableSoFar(sources, idx + 1, moved, numSlots, total)
  {
    hide Rounded, Contribution, Sum, NoDup, Held, Entries, Table;
    var node := sources[idx];
    ghost var seen := Sum(Held(sources[..idx]));
    HeldPrefix(sources, idx);
    ContributionBounds(numSlots, total, node.TotalSlots(), idx == 0);
    RoundedStep(numSlots, total, seen, node.TotalSlots(), idx, |table|);
    var n := Contribution(numSlots, total, node.TotalSlots(), idx == 0);
    RoundedAtMost(numSlots, total, seen + |node.Slots|, idx + 1, |table| + n);
    NoDupNext(sources, idx);
    TableNext(sources, idx, numSlots, total);
    forall e | e in table ensures e.Source != node {
      assert e.Source in sources[..idx];
    }
    EntriesNoDup(table, node, n);
    moved := AppendEntries(table, node, n, numSlots);
    assert moved == table + Entries(node, node.Slots[..n]);
    forall e | e in moved ensures e.Source in sources[..idx + 1] && e.Slot in e.Source.Slots {
      if e in table {
        assert e.Source in sources[..idx];
      }
      assert sources[..idx + 1] == sources[..idx] + [node];
    }
    if idx == 0 {
      RoundedEmpty(numSlots, total, seen, |table|);
      assert moved == Entries(node, node.Slots[..n]);
    }
  }

  lemma RoundedEmpty(numSlots: nat, total: nat, seen: nat, entries: int)
    requires total > 0 && Rounded(numSlots, total, seen, 0, entries)
    ensures entries == 0
  {
  }

  lemma TableStart(sources: seq<Node>, numSlots: nat, total: nat)
    requires 0 < total
    ensures TableSoFar(sources, 0, [], numSlots, total)
  {
    EmptyLists();
    RoundedStart(numSlots, total);
    assert sources[..0] == [];
  }

  lemma TableComplete(sources: seq<Node>, moved: seq<MovedNode>, numSlots: nat, total: nat)
    requires total == Sum(Held(sources)) && 0 < total && numSlots <= total
    requires TableSoFar(sources, |sources|, moved, numSlots, total)
    ensures numSlots - Max(0, |sources| - 2) <= |moved| <= numSlots
    ensures forall e :: e in moved ==> e.Source in sources && e.Slot in e.Source.Slots
    ensures NoDup(moved) && moved == Table(sources, |sources|, numSlots, total)
    ensures |sources| == 1 ==>
      |moved| == numSlots <= |sources[0].Slots| && moved == Entries(sources[0], sources[0].Slots[..numSlots])
  {
    hide Rounded, Held, Sum, NoDup, Entries, Table;
    NobodyHoldsNothing(sources);
    var all := sources[..|sources|];
    assert all == sources;
    RoundedAtMost(numSlots, total, Sum(Held(all)), |sources|, |moved|);
  }

  /** The first loop of computeReshardTable. */
  method TotalHeld(sources: seq<Node>) returns (sourceTotSlots: nat)
    ensures sourceTotSlots == Sum(Held(sources))
  {
    hide Sum, Held;
    EmptyLists();
    sourceTotSlots := 0;
    assert sources[..0] == [];
    for j := 0 to |sources|
      invariant sourceTotSlots == Sum(Held(sources[..j]))
    {
      HeldPrefix(sources, j);
      sourceTotSlots := sourceTotSlots + sources[j].TotalSlots();
    }
    assert sources[..|sources|] == sources;
  }

  ghost predicate SmallestFirst(nodes: seq<Node>)
    reads nodes`Slots
  {
    forall i, j :: 0 <= i < j < |nodes| ==> |nodes[i].Slots| <= |nodes[j].Slots|
  }

  /** The sources, the smallest first. */
  method BySize(src: seq<Node>) returns (sources: seq<Node>)
    requires NoDup(src)
    ensures multiset(sources) == multiset(src) && |sources| == |src| && forall n :: n in sources <==> n in src
    ensures NoDup(sources) && Sum(Held(sources)) == Sum(Held(src))
    ensures SmallestFirst(sources)
  {
    hide NoDup, Sum, Held;
    var totalSlots := (n: Node) reads n => |n.Slots|;
    sources := SortByFunc(src, totalSlots);
    forall i, j | 0 <= i < j < |sources| ensures |sources[i].Slots| <= |sources[j].Slots| {
      assert totalSlots(sources[i]) <= totalSlots(sources[j]);
    }
    NoDupPermutation(src, sources);
    SumHeldPermutation(src, sources);
  }

  /** computeReshardTable: which slots to take from which source.  No source is asked for more than it holds, no
      slot is listed twice, and rounding loses fewer slots than there are sources: from m sources come at most
      numSlots entries and at least numSlots - (m - 2), and a single source gives exactly its first numSlots.  The
      smallest source is the first. */
  method ComputeReshardTable(src: seq<Node>, numSlots: nat) returns (moved: seq<MovedNode>, ghost order: seq<Node>)
    requires NoDup(src) && forall n :: n in src ==> NoDup(n.Slots)
    requires 0 < Sum(Held(src)) && numSlots <= Sum(Held(src))
    ensures numSlots - Max(0, |src| - 2) <= |moved| <= numSlots
    ensures forall e :: e in moved ==> e.Source in src && e.Slot in e.Source.Slots
    ensures NoDup(moved)
    ensures multiset(order) == multiset(src) && moved == Table(order, |order|, numSlots, Sum(Held(src)))
    ensures SmallestFirst(order)
    ensures |src| == 1 ==> numSlots <= |src[0].Slots| && moved == Entries(src[0], src[0].Slots[..numSlots])
  {
    hide Rounded, Contribution, Sum, NoDup, Held, Entries, Table, TableSoFar, SmallestFirst;
    moved := [];
    var sources := BySize(src);
    order := sources;
    var sourceTotSlots := TotalHeld(sources);
    TableStart(sources, numSlots, sourceTotSlots);
    for idx := 0 to |sources|
      invariant sourceTotSlots == Sum(Held(sources)) && TableSoFar(sources, idx, moved, numSlots, sourceTotSlots)
      invariant SmallestFirst(sources)
    {
      assert sources[idx] in sources;
      moved := TakeFromSource(sources, idx, moved, numSlots, sourceTotSlots);
    }
    TableComplete(sources, moved, numSlots, sourceTotSlots);
    if |src| == 1 {
      assert sources[0] in src;
    }
  }
}
