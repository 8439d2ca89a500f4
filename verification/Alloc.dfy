/** Creation: AllocSlots in pkg/controller/clustering/rebalance.go, with Round from pkg/utils/math.go. */
module Alloc {
  import opened Slots
  import opened Nodes
  import opened Redis
  import opened Balance

  function Truncate(x: real): int {
    if x >= 0.0 then x.Floor else -((-x).Floor)
  }

  /** Half away from zero. */
  function Round(num: real): int {
    Truncate(num + (if num < 0.0 then -0.5 else 0.5))
  }

  /** Where the i-th master's slots begin: i * S/n, rounded half up. */
  function Boundary(slotCount: nat, n: nat, i: nat): nat
    requires n > 0
  {
    (2 * i * slotCount + n) / (2 * n)
  }

  /** The boundaries divide [0, S) into n non-empty consecutive ranges, each of floor(S/n) or ceil(S/n) slots. */
  lemma BoundaryPartition(slotCount: nat, n: nat, i: nat)
    requires 0 < n <= slotCount && i < n
    ensures Boundary(slotCount, n, 0) == 0 && Boundary(slotCount, n, n) == slotCount
    ensures var size := Boundary(slotCount, n, i + 1) - Boundary(slotCount, n, i);
      size >= 1 && slotCount / n <= size <= slotCount / n + (if slotCount % n == 0 then 0 else 1)
  {
    hide Boundary;
    BoundaryEnds(slotCount, n);
    BoundaryStep(slotCount, n, i, slotCount / n, slotCount % n);
  }

  lemma BoundaryEnds(slotCount: nat, n: nat)
    requires n > 0
    ensures Boundary(slotCount, n, 0) == 0 && Boundary(slotCount, n, n) == slotCount
  {
    DivMod(n, 2 * n, 0, n);
    var a := 2 * n * slotCount + n;
    assert a == slotCount * (2 * n) + n;
    DivMod(a, 2 * n, slotCount, n);
  }

  lemma BoundaryStep(slotCount: nat, n: nat, i: nat, q: nat, r: nat)
    requires n > 0 && r < n && slotCount == q * n + r
    ensures q <= Boundary(slotCount, n, i + 1) - Boundary(slotCount, n, i) <= q + (if r == 0 then 0 else 1)
  {
    var a := 2 * i * slotCount + n;
    assert 2 * (i + 1) * slotCount + n == a + 2 * slotCount;
    assert 2 * slotCount == q * (2 * n) + 2 * r;
    QuotientStep(a, 2 * n, 2 * slotCount, q, 2 * r);
  }

  /** Adding q * d + r to the dividend raises the quotient by q or, unless r is zero, q + 1. */
  lemma QuotientStep(a: nat, d: nat, more: nat, q: nat, r: nat)
    requires r < d && more == q * d + r
    ensures q <= (a + more) / d - a / d <= q + (if r == 0 then 0 else 1)
  {
    var b, m := a / d, a % d;
    assert a + more == (b + q) * d + (m + r);
    if m + r < d {
      DivMod(a + more, d, b + q, m + r);
    } else {
      assert (b + q + 1) * d == (b + q) * d + d;
      DivMod(a + more, d, b + q + 1, m + r - d);
    }
  }

  /** The rounded cursor arithmetic of the loop hits the boundaries. */
  lemma RoundBoundary(slotCount: nat, n: nat, i: nat)
    requires 0 < n <= slotCount
    ensures Round(i as real * (slotCount as real / n as real) + slotCount as real / n as real - 1.0)
            == Boundary(slotCount, n, i + 1) - 1
  {
    hide Round, Boundary;
    var x := (i + 1) * slotCount;
    MulMonotone(1, i + 1, slotCount);
    CursorAt(slotCount, n, i, x);
    RoundAt(x, n);
    BoundaryAt(slotCount, n, i + 1, x);
  }

  lemma CursorAt(slotCount: nat, n: nat, i: nat, x: nat)
    requires n > 0 && x == (i + 1) * slotCount
    ensures i as real * (slotCount as real / n as real) + slotCount as real / n as real == x as real / n as real
  {
    var f := slotCount as real / n as real;
    assert i as real * f + f == (i as real + 1.0) * f;
    assert x as real == (i as real + 1.0) * slotCount as real;
    Divided(x as real, n as real, (i as real + 1.0) * f);
  }

  lemma Divided(p: real, q: real, x: real)
    requires q > 0.0 && p == x * q
    ensures p / q == x
  {
  }

  lemma BoundaryAt(slotCount: nat, n: nat, i: nat, x: nat)
    requires n > 0 && x == i * slotCount
    ensures Boundary(slotCount, n, i) == (2 * x + n) / (2 * n)
  {
    assert 2 * i * slotCount == 2 * x;
  }

  lemma RoundAt(x: nat, n: nat)
    requires 0 < n <= x
    ensures Round(x as real / n as real - 1.0) == (2 * x + n) / (2 * n) - 1
  {
    hide Round;
    var y := x as real / n as real;
    OneOrMore(x, n);
    RoundLess(y);
    HalfLess(x, n);
    FloorDiv(2 * x - n, 2 * n);
    OneMore(x, n);
  }

  lemma OneOrMore(x: nat, n: nat)
    requires 0 < n <= x
    ensures x as real / n as real >= 1.0
  {
  }

  lemma RoundLess(y: real)
    requires y >= 1.0
    ensures Round(y - 1.0) == (y - 0.5).Floor
  {
  }

  lemma HalfLess(x: nat, n: nat)
    requires 0 < n <= x
    ensures (2 * x - n) as real / (2 * n) as real == x as real / n as real - 0.5
  {
    Divided((2 * x - n) as real, (2 * n) as real, x as real / n as real - 0.5);
  }

  lemma OneMore(x: nat, n: nat)
    requires 0 < n <= x
    ensures (2 * x + n) / (2 * n) == (2 * x - n) / (2 * n) + 1
  {
    var q, r := (2 * x - n) / (2 * n), (2 * x - n) % (2 * n);
    assert (q + 1) * (2 * n) == q * (2 * n) + 2 * n;
    DivMod(2 * x + n, 2 * n, q + 1, r);
  }

  /** The i-th master's slots. */
  function Allotment(slotCount: nat, n: nat, i: nat): seq<Slot>
    requires n > 0
  {
    Range(Boundary(slotCount, n, i), Boundary(slotCount, n, i + 1))
  }

  /** The node has become the only owner of a slot; where the keys are has not changed. */
  ghost predicate TakenBy(ids: map<Addr, NodeID>, was: SlotState, now: SlotState, a: Addr) {
    Holders(ids, now) == {a} && now.keys == was.keys
  }

  /** So the slot is settled exactly when its keys, if any, were with that node already. */
  lemma TakenSettled(ids: map<Addr, NodeID>, was: SlotState, now: SlotState, a: Addr)
    requires TakenBy(ids, was, now, a)
    ensures Settled(ids, now, a) <==> KeysAt(was, a) == AllKeys(was)
  {
    SameKeys(was, now);
  }

  /** The first k masters own their allotments alone; the other slots are as they were. */
  ghost predicate AllottedUpTo(ids: map<Addr, NodeID>, before: seq<seq<SlotState>>, log: seq<seq<SlotState>>,
                               nodes: seq<Node>, k: nat)
    requires 0 < |nodes| && k <= |nodes|
  {
    && |log| == |before|
    && (forall s :: 0 <= s < |log| ==> log[s] != [])
    && (forall i, s :: 0 <= i < k && s in Allotment(|before|, |nodes|, i) && s < |before| ==>
          before[s] != [] && TakenBy(ids, before[s][|before[s]| - 1], log[s][|log[s]| - 1], nodes[i].IPPort()))
    && (forall s :: Boundary(|before|, |nodes|, k) <= s < |before| ==> log[s] == before[s])
  }

  /** Nobody owns a slot yet. */
  ghost predicate Blank(ids: map<Addr, NodeID>, log: seq<seq<SlotState>>) {
    forall s :: 0 <= s < |log| ==> log[s] != [] && Holders(ids, log[s][|log[s]| - 1]) == {}
  }

  lemma UnownedAdded(ids: map<Addr, NodeID>, st: SlotState, a: Addr)
    requires a in ids && Holders(ids, st) == {}
    ensures TakenBy(ids, st, AddSlotEffect(ids, st, a), a)
  {
    AddSlotHolders(ids, st, a);
  }

  lemma {:induction false} BoundaryMonotone(slotCount: nat, n: nat, i: nat, j: nat)
    requires 0 < n <= slotCount && i <= j <= n
    ensures Boundary(slotCount, n, i) <= Boundary(slotCount, n, j) <= slotCount
    decreases n - i
  {
    hide Boundary;
    if i < j {
      BoundaryPartition(slotCount, n, i);
      BoundaryMonotone(slotCount, n, i + 1, j);
    } else if j < n {
      BoundaryPartition(slotCount, n, j);
      BoundaryMonotone(slotCount, n, j + 1, n);
    } else {
      BoundaryEnds(slotCount, n);
    }
  }

  lemma AllotStep(ids: map<Addr, NodeID>, before: seq<seq<SlotState>>, log: seq<seq<SlotState>>,
                  log': seq<seq<SlotState>>, nodes: seq<Node>, k: nat)
    requires 0 < |nodes| <= |before| && k < |nodes| && nodes[k].IPPort() in ids
    requires Blank(ids, before) && AllottedUpTo(ids, before, log, nodes, k)
    requires |log'| == |log|
    requires forall s :: 0 <= s < |log| && s !in Allotment(|before|, |nodes|, k) ==> log'[s] == log[s]
    requires forall s :: 0 <= s < |log| && s in Allotment(|before|, |nodes|, k) ==>
      log'[s] == log[s] + [AddSlotEffect(ids, log[s][|log[s]| - 1], nodes[k].IPPort())]
    ensures AllottedUpTo(ids, before, log', nodes, k + 1)
  {
    hide TakenBy, Holders, Boundary;
    BoundaryPartition(|before|, |nodes|, k);
    forall i, s | 0 <= i < k + 1 && s in Allotment(|before|, |nodes|, i) && s < |before|
      ensures before[s] != [] && TakenBy(ids, before[s][|before[s]| - 1], log'[s][|log'[s]| - 1], nodes[i].IPPort())
    {
      if i < k {
        BoundaryMonotone(|before|, |nodes|, i + 1, k);
        assert s !in Allotment(|before|, |nodes|, k);
      } else {
        UnownedAdded(ids, before[s][|before[s]| - 1], nodes[k].IPPort());
      }
    }
  }

  lemma NextBoundary(slotCount: nat, n: nat, i: nat)
    requires 0 < n <= slotCount && i < n
    ensures Boundary(slotCount, n, i) < Boundary(slotCount, n, i + 1) <= slotCount
    ensures i == n - 1 ==> Boundary(slotCount, n, i + 1) == slotCount
  {
    hide Boundary;
    BoundaryPartition(slotCount, n, i);
    BoundaryMonotone(slotCount, n, i + 1, n);
  }

  /** The last slot of the next master. */
  method LastSlot(clusterHashSlots: nat, mastersNum: nat, index: nat, first: nat, cursor: real, slotsPerNode: real)
    returns (last: nat)
    requires 0 < mastersNum <= clusterHashSlots && index < mastersNum
    requires slotsPerNode == clusterHashSlots as real / mastersNum as real && cursor == index as real * slotsPerNode
    requires first == Boundary(clusterHashSlots, mastersNum, index)
    ensures last + 1 == Boundary(clusterHashSlots, mastersNum, index + 1) && first <= last < clusterHashSlots
  {
    hide Boundary, Round;
    RoundBoundary(clusterHashSlots, mastersNum, index);
    NextBoundary(clusterHashSlots, mastersNum, index);
    var l := Round(cursor + slotsPerNode - 1.0);
    assert l + 1 == Boundary(clusterHashSlots, mastersNum, index + 1);
    if l > clusterHashSlots || index == mastersNum - 1 {
      l := clusterHashSlots - 1;
    }
    if l < first {
      l := first;
    }
    last := l;
  }

  /** AllocSlots on a cluster without owners.  On success every master has its allotment, in its
      list and in the cluster; after a failed ADDSLOTS the masters served so far do, and their slots are exactly
      the first so many. */
  method AllocSlots(admin: Admin, newMasterNodes: seq<Node>) returns (ok: bool, ghost served: nat)
    requires 0 < |newMasterNodes| <= |admin.log| < MAX_UINT64
    requires admin.Valid() && Distinct(newMasterNodes) && admin.Knows(newMasterNodes)
    requires Blank(admin.ids, admin.log)
    modifies admin`log, admin`failures, newMasterNodes`Slots
    ensures admin.Valid() && served <= |newMasterNodes| && (ok <==> served == |newMasterNodes|)
    ensures AllottedUpTo(admin.ids, old(admin.log), admin.log, newMasterNodes, served)
    ensures forall i :: 0 <= i < served ==>
      newMasterNodes[i].Slots == Allotment(|admin.log|, |newMasterNodes|, i)
    ensures forall i :: served < i < |newMasterNodes| ==> newMasterNodes[i].Slots == old(newMasterNodes[i].Slots)
    ensures admin.failures == old(admin.failures) + (if ok then 0 else 1)
    ensures old(admin.Safe()) ==> admin.Safe()
  {
    hide TakenBy, Holders, Boundary, Round, AllSafe, Allotment, Range, Blank, AllottedUpTo, Distinct, Node.IPPort;
    NothingAllotted(admin, newMasterNodes);
    DistinctNoDup(newMasterNodes);
    var mastersNum := |newMasterNodes|;
    var clusterHashSlots := admin.SlotCount();
    var slotsPerNode := clusterHashSlots as real / mastersNum as real;
    var first, cursor := 0, 0.0;
    served, ok := 0, true;
    BoundaryEnds(clusterHashSlots, mastersNum);
    for index := 0 to mastersNum
      invariant served == index && ok && admin.Valid() && |admin.log| == clusterHashSlots
      invariant first == Boundary(clusterHashSlots, mastersNum, index)
      invariant cursor == index as real * slotsPerNode
      invariant AllottedUpTo(admin.ids, old(admin.log), admin.log, newMasterNodes, index)
      invariant forall i :: 0 <= i < index ==>
        newMasterNodes[i].Slots == Allotment(clusterHashSlots, mastersNum, i)
      invariant forall i :: index <= i < mastersNum ==> newMasterNodes[i].Slots == old(newMasterNodes[i].Slots)
      invariant admin.failures == old(admin.failures)
      invariant old(admin.Safe()) ==> admin.Safe()
    {
      var node := newMasterNodes[index];
      var last := LastSlot(clusterHashSlots, mastersNum, index, first, cursor, slotsPerNode);
      node.Slots := BuildSlotSlice(first, last);
      AllotmentIs(clusterHashSlots, mastersNum, index, node.Slots, last);
      first := last + 1;
      cursor := cursor + slotsPerNode;
      ghost var log := admin.log;
      BlankLater(admin, old(admin.log), newMasterNodes, index);
      ok := admin.AddSlots(node.IPPort(), node.Slots);
      if !ok {
        assert admin.log == log;
        return;
      }
      AllotStep(admin.ids, old(admin.log), log, admin.log, newMasterNodes, index);
      served := index + 1;
    }
  }

  lemma AllottedLength(ids: map<Addr, NodeID>, before: seq<seq<SlotState>>, log: seq<seq<SlotState>>,
                       nodes: seq<Node>, k: nat)
    requires 0 < |nodes| && k <= |nodes| && AllottedUpTo(ids, before, log, nodes, k)
    ensures |log| == |before|
  {
  }

  lemma NothingAllotted(admin: Admin, nodes: seq<Node>)
    requires 0 < |nodes| <= |admin.log| && admin.Valid()
    ensures AllottedUpTo(admin.ids, admin.log, admin.log, nodes, 0)
  {
    hide TakenBy, Allotment;
    BoundaryEnds(|admin.log|, |nodes|);
  }

  lemma AllotmentIs(slotCount: nat, n: nat, i: nat, slots: seq<Slot>, last: nat)
    requires 0 < n <= slotCount && i < n && Boundary(slotCount, n, i + 1) == last + 1
    requires slots == Range(Boundary(slotCount, n, i), last + 1)
    ensures slots == Allotment(slotCount, n, i)
    ensures slots != [] && forall s :: s in slots ==> s < slotCount
  {
    hide Boundary;
    BoundaryPartition(slotCount, n, i);
    BoundaryMonotone(slotCount, n, i + 1, n);
  }

  /** The next master's slots are still unowned. */
  lemma BlankLater(admin: Admin, before: seq<seq<SlotState>>, nodes: seq<Node>, k: nat)
    requires 0 < |nodes| && k < |nodes| && Blank(admin.ids, before) && admin.Valid()
    requires AllottedUpTo(admin.ids, before, admin.log, nodes, k)
    ensures forall s :: s in Allotment(|before|, |nodes|, k) && s < |before| ==>
      Holders(admin.ids, admin.Now(s)) == {}
  {
    hide Boundary;
  }
}
