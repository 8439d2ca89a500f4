/** The first three loops of RebalancedCluster in pkg/controller/clustering/rebalance.go, on the nodes. */
module Shares {
  import opened Slots
  import opened Sums
  import opened Nodes
  import opened Balance

  ghost function Balances(nodes: seq<Node>): (r: seq<int>)
    reads nodes`balance
    ensures |r| == |nodes|
    ensures forall i :: 0 <= i < |nodes| ==> r[i] == nodes[i].balance
  {
    if nodes == [] then [] else Balances(nodes[..|nodes| - 1]) + [nodes[|nodes| - 1].balance]
  }

  /** The first loop: every node's distance from the share floor(S/n). */
  method SetInitialBalances(nodes: seq<Node>, slotCount: nat)
    requires NoDup(nodes)
    modifies nodes`balance
    ensures |nodes| > 0 ==> forall j :: 0 <= j < |nodes| ==> nodes[j].balance == |nodes[j].Slots| - slotCount / |nodes|
  {
    for i := 0 to |nodes|
      invariant forall j :: 0 <= j < i ==> nodes[j].balance == |nodes[j].Slots| - slotCount / |nodes|
    {
      var expected := (slotCount as real / |nodes| as real).Floor;
      FloorDiv(slotCount, |nodes|);
      nodes[i].SetBalance(|nodes[i].Slots| - expected);
    }
  }

  /** One run of the inner loop of the remainder loop. */
  method RemainderPass(nodes: seq<Node>, totalBalance: int) returns (total: int)
    requires NoDup(nodes)
    modifies nodes`balance
    ensures (Balances(nodes), total) == Pass(old(Balances(nodes)), totalBalance)
  {
    hide Pass, Balances;
    total := totalBalance;
    ghost var b := Balances(nodes);
    PassNothing(totalBalance);
    assert Balances(nodes[..0]) == b[..0];
    for i := 0 to |nodes|
      invariant forall j :: i <= j < |nodes| ==> nodes[j].balance == b[j]
      invariant (Balances(nodes[..i]), total) == Pass(b[..i], totalBalance)
    {
      PassNext(b, i, totalBalance);
      ghost var done := Balances(nodes[..i]);
      var node := nodes[i];
      assert node !in nodes[..i];
      if node.balance < 0 && total > 0 {
        var v := node.balance - 1;
        node.SetBalance(v);
        total := total - 1;
      }
      assert Balances(nodes[..i]) == done;
      assert Balances(nodes[..i + 1]) == done + [node.balance];
    }
    assert nodes[..|nodes|] == nodes && b[..|nodes|] == b;
  }

  /** The remainder loop.  It needs a node below its share whenever there is something to hand out: see
      Balance.RemainderLoopEnds for what happens otherwise. */
  method SpendRemainder(nodes: seq<Node>, totalBalance: nat)
    requires NoDup(nodes)
    requires totalBalance > 0 ==> Negatives(Balances(nodes)) > 0
    modifies nodes`balance
    ensures forall j :: 0 <= j < |nodes| ==>
      nodes[j].balance == old(Balances(nodes)[j]) - Extra(old(Balances(nodes)), totalBalance, j)
    ensures Sum(Balances(nodes)) == Sum(old(Balances(nodes))) - totalBalance
  {
    hide Balances, Negatives, Pass, Sum, Spent, Extra, NoDup;
    var total: int := totalBalance;
    ghost var b, k := Balances(nodes), Negatives(Balances(nodes));
    ghost var p: nat, rest: nat := 0, 0;  // full passes, and how far the last pass got when it was not a full one
    SpentNothing(b);
    while total > 0
      invariant 0 <= total && (total > 0 ==> rest == 0) && (rest > 0 ==> rest < k)
      invariant total + p * k + rest == totalBalance
      invariant totalBalance > 0 ==> k > 0
      invariant Spent(b, Balances(nodes), p, rest)
      invariant Sum(Balances(nodes)) == Sum(b) - totalBalance + total
    {
      ghost var start := total;
      SpentPass(b, Balances(nodes), p, total);
      total := RemainderPass(nodes, total);
      if start >= k {
        assert (p + 1) * k == p * k + k;
        p := p + 1;
      } else {
        rest := start;
      }
    }
    SpentExtra(b, Balances(nodes), p, rest, totalBalance);
    forall j | 0 <= j < |nodes| ensures nodes[j].balance == b[j] - Extra(b, totalBalance, j) {
      assert nodes[j].balance == Balances(nodes)[j];
    }
  }
}
