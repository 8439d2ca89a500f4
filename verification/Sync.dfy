/** One reconcile round: syncCluster and scalingDown in pkg/controller/distributedrediscluster/sync_handler.go. */
module Sync {
  import opened Slots
  import opened Sums
  import opened Nodes
  import opened Redis
  import opened Roles
  import opened Placement
  import opened Status
  import opened Convergence
  import opened Scene
  import opened Round
  import opened Results
  import Alloc
  import Balance
  import Rebalance
  import Migration
  import Dispatch

  // ----- creating

  /** Every chosen master owns a slot. */
  ghost predicate AllServe(admin: Admin, chosen: set<Node>)
    requires admin.Valid()
    reads admin`log
  {
    forall m :: m in chosen ==> exists s :: 0 <= s < |admin.log| && m.IPPort() in Holders(admin.ids, admin.Now(s))
  }

  lemma AllottedServe(admin: Admin, before: seq<seq<SlotState>>, newMasters: seq<Node>)
    requires admin.Valid() && 0 < |newMasters| <= |before|
    requires Alloc.AllottedUpTo(admin.ids, before, admin.log, newMasters, |newMasters|)
    ensures AllServe(admin, ToSet(newMasters))
  {
    hide Alloc.Boundary;
    var n := |newMasters|;
    forall m | m in newMasters
      ensures exists s :: 0 <= s < |admin.log| && m.IPPort() in Holders(admin.ids, admin.Now(s))
    {
      var i :| 0 <= i < n && newMasters[i] == m;
      var s := Alloc.Boundary(|before|, n, i);
      Alloc.BoundaryPartition(|before|, n, i);
      Alloc.BoundaryMonotone(|before|, n, i + 1, n);
      assert s in Alloc.Allotment(|before|, n, i);
      assert m.IPPort() in Holders(admin.ids, admin.Now(s));
    }
  }

  lemma Placed(replicaOf: map<Addr, NodeID>, ctx: Ctx)
    requires ctx.nodes.Keys <= ctx.newMastersBySts.Keys && InPlace(replicaOf, ctx.nodes, ctx.newMastersBySts)
    ensures ReplicasPlaced(replicaOf, ctx.nodes, ctx.newMastersBySts)
  {
  }

  /** The first branch of syncCluster.  The masters are served in order, up to the first failure. */
  method CreateCluster(ctx: Ctx, admin: Admin, newMasters: seq<Node>)
    returns (outcome: Outcome, ghost asked: seq<Node>, ghost served: nat)
    requires WellGrouped(ctx.nodes, ctx.newMastersBySts, ctx.cluster) && ctx.slavesByMaster == map[]
    requires RecordsAgree(admin.replicaOf, NodesIn(ctx.nodes))
    requires ToSet(newMasters) == ctx.newMastersBySts.Values && Distinct(newMasters) && admin.Knows(newMasters)
    requires 0 < |newMasters| <= |admin.log| < MAX_UINT64 && admin.Valid() && Alloc.Blank(admin.ids, admin.log)
    modifies ctx`slavesByMaster, ctx`bestEffort, admin`log, admin`replicaOf, admin`attached, admin`failures
    modifies NodesIn(ctx.nodes)`Role, NodesIn(ctx.nodes)`MasterReferent, newMasters`Slots
    ensures admin.Valid() && admin.failures >= old(admin.failures)
    ensures outcome.Panic? <==> !(ctx.nodes.Keys <= ctx.newMastersBySts.Keys)
    ensures outcome.Panic? ==> admin.log == old(admin.log) && admin.replicaOf == old(admin.replicaOf) &&
                               admin.attached == old(admin.attached) && admin.failures == old(admin.failures)
    ensures !outcome.Panic? ==> (outcome.Done? <==> admin.failures == old(admin.failures))
    ensures !outcome.Panic? ==> NoDup(asked) && Asks(old(admin.replicaOf), ctx.nodes, ctx.newMastersBySts, asked)
    ensures !outcome.Panic? ==>
      TriedAll(old(admin.attached), admin.attached, admin.failures - old(admin.failures), asked)
    ensures !outcome.Panic? ==> OthersKept(old(admin.replicaOf), admin.replicaOf, asked)
    ensures outcome.Done? ==>
      ReplicasPlaced(admin.replicaOf, ctx.nodes, ctx.newMastersBySts) && AllServe(admin, ToSet(newMasters))
    ensures outcome.Done? ==> SameFollowers(old(admin.replicaOf), admin.replicaOf, ctx.newMastersBySts.Values)
    ensures outcome.Done? ==> LedBefore(admin.ids, old(admin.replicaOf), ctx.nodes, ctx.newMastersBySts)
    ensures served <= |newMasters| && (outcome.Done? <==> served == |newMasters|)
    ensures Alloc.AllottedUpTo(admin.ids, old(admin.log), admin.log, newMasters, served)
    ensures forall i :: 0 <= i < served ==> newMasters[i].Slots == Alloc.Allotment(|admin.log|, |newMasters|, i)
    ensures |admin.log| == |old(admin.log)| && (old(admin.Safe()) ==> admin.Safe())
  {
    hide WellGrouped, RecordsAgree, Distinct, Alloc.Blank, AllSafe, Alloc.AllottedUpTo, Alloc.Allotment, AllServe,
      InPlace, ReplicasPlaced, SameFollowers, LedBefore, NodesIn, NoDup, Asks, Tried, TriedAll, OthersKept, Node.IPPort;
    Alloc.NothingAllotted(admin, newMasters);
    var panicked, ok;
    served := 0;
    panicked, ok, asked := ctx.AttachSlaves(admin);
    if panicked {
      outcome := Panic;
      return;
    }
    ghost var failed := admin.failures - old(admin.failures);
    TriedThen(old(admin.attached), admin.attached, failed, failed, asked);
    if !ok {
      outcome := Error;
      return;
    }
    Placed(admin.replicaOf, ctx);
    ghost var before := admin.log;
    ok, served := Alloc.AllocSlots(admin, newMasters);
    TriedThen(old(admin.attached), admin.attached, failed, admin.failures - old(admin.failures), asked);
    Alloc.AllottedLength(admin.ids, before, admin.log, newMasters, served);
    if !ok {
      outcome := Error;
      return;
    }
    AllottedServe(admin, before, newMasters);
    outcome := Done;
  }

  // ----- scaling up

  /** Every slot is settled with its owner. */
  ghost predicate Owned(ids: map<Addr, NodeID>, log: seq<seq<SlotState>>, owner: seq<Addr>) {
    && |owner| == |log|
    && (forall s :: 0 <= s < |log| ==> log[s] != [] && Settled(ids, log[s][|log[s]| - 1], owner[s]))
  }

  lemma OwnedDivided(admin: Admin, nodes: seq<Node>, owner: seq<Addr>)
    requires Owned(admin.ids, admin.log, owner) && (forall a :: a in owner ==> a in Addrs(nodes))
    requires forall n :: n in nodes ==> Rebalance.Lists(n, owner)
    ensures Rebalance.Divided(admin, nodes, owner)
  {
    hide Settled, Rebalance.Lists;
    forall a | a in owner ensures a != "" {
      var i :| 0 <= i < |nodes| && Addrs(nodes)[i] == a;
      Rebalance.AddrNotEmpty(nodes[i]);
    }
  }

  lemma ShareServes(admin: Admin, newMasters: seq<Node>, lens: seq<nat>, slotCount: nat, owner: seq<Addr>)
    requires Rebalance.AllSettled(admin, owner) && 0 < |newMasters| <= slotCount && |lens| == |newMasters|
    requires forall j :: 0 <= j < |newMasters| ==>
      multiset(owner)[newMasters[j].IPPort()] == Balance.Quota(lens, slotCount, j)
    ensures AllServe(admin, ToSet(newMasters))
  {
    hide Balance.Quota, Holders, KeysAt, AllKeys;
    forall m | m in newMasters
      ensures exists s :: 0 <= s < |admin.log| && m.IPPort() in Holders(admin.ids, admin.Now(s))
    {
      var j :| 0 <= j < |newMasters| && newMasters[j] == m;
      QuotaPositive(lens, slotCount, j);
      assert m.IPPort() in multiset(owner);
      var s :| 0 <= s < |owner| && owner[s] == m.IPPort();
      assert Settled(admin.ids, admin.Now(s), owner[s]);
    }
  }

  lemma QuotaPositive(lens: seq<nat>, slotCount: nat, j: nat)
    requires j < |lens| <= slotCount
    ensures Balance.Quota(lens, slotCount, j) >= 1
  {
    Balance.QuotaValues(lens, slotCount, j);
  }

  /** Floor(S/n) is at least one, so a master without slots is below it. */
  lemma NoSlotsNoShare(nodes: seq<Node>, slotCount: nat)
    requires 0 < |nodes| <= slotCount
    ensures forall n :: n in nodes && n.Slots == [] ==> |n.Slots| < slotCount / |nodes|
  {
    Balance.DivMod(slotCount, |nodes|, slotCount / |nodes|, slotCount % |nodes|);
  }

  /** What a scale-up needs of the owners: all of them are chosen masters, and another chosen master has no slots. */
  ghost predicate OwnersChosen(newMasters: seq<Node>, owner0: seq<Addr>)
    reads newMasters`Slots
  {
    && (forall a :: a in owner0 ==> a in Addrs(newMasters))
    && (forall n :: n in newMasters ==> Rebalance.Lists(n, owner0))
    && (exists n :: n in newMasters && n.Slots == [])
  }

  lemma OwnersDivided(admin: Admin, newMasters: seq<Node>, owner0: seq<Addr>)
    requires Owned(admin.ids, admin.log, owner0) && OwnersChosen(newMasters, owner0) && 0 < |newMasters| <= |admin.log|
    ensures Rebalance.Listed0(admin, newMasters, owner0) && "" !in owner0
    ensures exists n :: n in newMasters && |n.Slots| < |admin.log| / |newMasters|
  {
    hide Owned, Rebalance.Lists, Rebalance.Listed0, Addrs;
    OwnedDivided(admin, newMasters, owner0);
    NoSlotsNoShare(newMasters, |admin.log|);
  }

  /** The chosen masters that owned nothing are no replicas. */
  ghost predicate NewcomersLead(replicaOf: map<Addr, NodeID>, newMasters: seq<Node>, owner0: seq<Addr>) {
    forall m :: m in newMasters && m.IPPort() !in owner0 ==> m.IPPort() !in replicaOf
  }

  /** For each of them has been given a slot. */
  lemma NewcomersGiven(replicaOf: map<Addr, NodeID>, newMasters: seq<Node>, lens: seq<nat>, slotCount: nat,
                       owner0: seq<Addr>, owner: seq<Addr>)
    requires |owner| == |owner0| && Rebalance.GivenToMasters(replicaOf, owner0, owner)
    requires 0 < |newMasters| <= slotCount && |lens| == |newMasters|
    requires forall j :: 0 <= j < |newMasters| ==>
      multiset(owner)[newMasters[j].IPPort()] == Balance.Quota(lens, slotCount, j)
    ensures NewcomersLead(replicaOf, newMasters, owner0)
  {
    hide Balance.Quota, Node.IPPort;
    forall m | m in newMasters && m.IPPort() !in owner0 ensures m.IPPort() !in replicaOf {
      var j :| 0 <= j < |newMasters| && newMasters[j] == m;
      QuotaPositive(lens, slotCount, j);
      assert m.IPPort() in multiset(owner);
      var s :| 0 <= s < |owner| && owner[s] == m.IPPort();
      assert owner0[s] in owner0;
    }
  }

  /** The second branch: the masters end with their quotas, by as few moves as that takes. */
  method ScaleUp(ctx: Ctx, admin: Admin, newMasters: seq<Node>, ghost owner0: seq<Addr>, ghost sizes: map<Node, nat>)
    returns (outcome: Outcome, ghost asked: seq<Node>, ghost owner: seq<Addr>)
    requires forall m :: m in newMasters ==> m in sizes && sizes[m] == |m.Slots|
    requires WellGrouped(ctx.nodes, ctx.newMastersBySts, ctx.cluster) && ctx.slavesByMaster == map[]
    requires RecordsAgree(admin.replicaOf, NodesIn(ctx.nodes))
    requires ToSet(newMasters) == ctx.newMastersBySts.Values && Distinct(newMasters) && admin.Knows(newMasters)
    requires 0 < |newMasters| <= |admin.log| && admin.Valid() && Owned(admin.ids, admin.log, owner0)
    requires ctx.nodes.Keys <= ctx.newMastersBySts.Keys ==> OwnersChosen(newMasters, owner0)
    modifies ctx`slavesByMaster, ctx`bestEffort, admin`log, admin`replicaOf, admin`attached, admin`failures
    modifies admin`takeoverFailed, admin`migrationFailed
    modifies NodesIn(ctx.nodes)`Role, NodesIn(ctx.nodes)`MasterReferent, newMasters`Slots, newMasters`balance
    ensures admin.failures >= old(admin.failures)
    ensures outcome.Panic? <==> !(ctx.nodes.Keys <= ctx.newMastersBySts.Keys)
    ensures outcome.Panic? ==> admin.log == old(admin.log) && admin.replicaOf == old(admin.replicaOf) &&
                               admin.attached == old(admin.attached) && admin.failures == old(admin.failures)
    ensures !outcome.Panic? && admin.failures == old(admin.failures) ==> outcome.Done?
    ensures !outcome.Panic? ==> NoDup(asked) && Asks(old(admin.replicaOf), ctx.nodes, ctx.newMastersBySts, asked)
    ensures !outcome.Panic? ==>
      TriedAll(old(admin.attached), admin.attached, admin.failures - old(admin.failures), asked)
    ensures !outcome.Panic? ==> OthersKept(old(admin.replicaOf), admin.replicaOf, asked)
    ensures outcome.Done? ==> ReplicasPlaced(admin.replicaOf, ctx.nodes, ctx.newMastersBySts)
    ensures outcome.Done? ==> SameFollowers(old(admin.replicaOf), admin.replicaOf, ctx.newMastersBySts.Values)
    ensures outcome.Done? ==> LedBefore(admin.ids, old(admin.replicaOf), ctx.nodes, ctx.newMastersBySts)
    ensures outcome.Done? && admin.failures == old(admin.failures) ==>
      admin.Valid() && AllServe(admin, ToSet(newMasters))
    ensures outcome.Done? ==>
      Rebalanced(admin, newMasters, sizes, owner0, owner, admin.failures == old(admin.failures))
    ensures outcome.Error? && admin.log != old(admin.log) ==>
      BrokenOff(admin, newMasters, sizes, owner0, owner, admin.failures == old(admin.failures) + 1)
    ensures outcome.Done? ==> NewcomersLead(admin.replicaOf, newMasters, owner0)
    ensures old(admin.Safe()) ==> admin.Safe()
  {
    hide WellGrouped, RecordsAgree, Distinct, AllSafe, Rebalance.Listed0, Rebalance.Lists, Owned, OwnersChosen,
      AllServe, InPlace, Addrs, ReplicasPlaced, SameFollowers, LedBefore, NewcomersLead, NodesIn, NoDup, Asks, Tried,
      TriedAll, OthersKept, Node.IPPort, Rebalanced, BrokenOff;
    var panicked, ok;
    owner := owner0;
    panicked, ok, asked := ctx.AttachSlaves(admin);
    if panicked {
      outcome := Panic;
      return;
    }
    ghost var failed := admin.failures - old(admin.failures);
    TriedThen(old(admin.attached), admin.attached, failed, failed, asked);
    if !ok {
      outcome := Error;
      return;
    }
    Placed(admin.replicaOf, ctx);
    ok, owner := ShareOut(admin, newMasters, owner0, sizes);
    TriedThen(old(admin.attached), admin.attached, failed, admin.failures - old(admin.failures), asked);
    outcome := if ok then Done else Error;
  }

  /** The second call of that branch, as it is used there. */
  method ShareOut(admin: Admin, newMasters: seq<Node>, ghost owner0: seq<Addr>, ghost sizes: map<Node, nat>)
    returns (ok: bool, ghost owner: seq<Addr>)
    requires forall m :: m in newMasters ==> m in sizes && sizes[m] == |m.Slots|
    requires Distinct(newMasters) && admin.Knows(newMasters) && OwnersChosen(newMasters, owner0)
    requires 0 < |newMasters| <= |admin.log| && admin.Valid() && Owned(admin.ids, admin.log, owner0)
    modifies admin`log, admin`failures, admin`takeoverFailed, admin`migrationFailed
    modifies newMasters`Slots, newMasters`balance
    ensures admin.failures >= old(admin.failures) && (admin.failures == old(admin.failures) ==> ok)
    ensures ok && admin.failures == old(admin.failures) ==> admin.Valid() && AllServe(admin, ToSet(newMasters))
    ensures ok ==> Rebalanced(admin, newMasters, sizes, owner0, owner, admin.failures == old(admin.failures))
    ensures !ok ==> BrokenOff(admin, newMasters, sizes, owner0, owner, admin.failures == old(admin.failures) + 1)
    ensures ok ==> NewcomersLead(admin.replicaOf, newMasters, owner0)
    ensures old(admin.Safe()) ==> admin.Safe()
  {
    hide Distinct, AllSafe, Rebalance.Listed0, Rebalance.Lists, Owned, OwnersChosen, AllServe, Node.IPPort, ToSet,
      Rebalance.AllSettled, Rebalance.FewestMoves, Rebalance.GivenToMasters, Rebalance.Unmoved, Changed, Sum, Absolute,
      Rebalance.Halted, Rebalance.PartWay, NewcomersLead, Balance.Quota, Balance.Gaps, Rebalanced, BrokenOff;
    OwnersDivided(admin, newMasters, owner0);
    ghost var lens := Lens(newMasters);
    assert |owner0| == |admin.log| by { OwnedSize(admin, owner0); }
    var panicked;
    ok, panicked, owner := Rebalance.RebalancedCluster(admin, newMasters, owner0);
    if ok {
      NewcomersGiven(admin.replicaOf, newMasters, lens, old(|admin.log|), owner0, owner);
      RebalancedNow(admin, newMasters, sizes, lens, owner0, owner, admin.failures == old(admin.failures));
    } else {
      BrokenOffNow(admin, newMasters, sizes, lens, owner0, owner, admin.failures == old(admin.failures) + 1);
    }
    if ok && admin.failures == old(admin.failures) {
      SettledValid(admin, newMasters, sizes, owner0, owner);
      ShareServes(admin, newMasters, lens, old(|admin.log|), owner);
    }
  }

  // ----- scaling down

  /** How scalingDown ends: everything removed, a node found not empty, or a call that failed. */
  datatype Removal = Removed | NotEmpty(node: Node) | Failed

  /** The inner loop of scalingDown: the nodes of one statefulset. */
  method ForgetNodes(calls: Calls, nodes: seq<Node>) returns (r: Removal, ghost forgotten: seq<Node>)
    modifies calls
    ensures calls.forgotten == old(calls.forgotten) + forgotten
    ensures calls.failures == old(calls.failures) + if r.Failed? then 1 else 0
    ensures forgotten <= nodes && forall n :: n in forgotten ==> n.Slots == []
    ensures r.Removed? ==> forgotten == nodes
    ensures r.NotEmpty? ==> forgotten + [r.node] <= nodes && r.node.Slots != []
  {
    forgotten := [];
    for k := 0 to |nodes|
      invariant calls.failures == old(calls.failures) && calls.forgotten == old(calls.forgotten) + forgotten
      invariant forgotten == nodes[..k] && forall n :: n in forgotten ==> n.Slots == []
    {
      var node := nodes[k];
      assert nodes[..k + 1] == nodes[..k] + [node];
      if |node.Slots| > 0 {
        return NotEmpty(node), forgotten;
      }
      var ok := calls.ForgetNode(node);
      if !ok {
        return Failed, forgotten;
      }
      forgotten := forgotten + [node];
    }
    return Removed, forgotten;
  }

  /** scalingDown. It has the others forget the nodes of the surplus statefulsets one after the other, each of them
      empty, until a call fails or a node has slots: so when no call fails it ends with everything removed exactly when
      all these nodes are empty. */
  method ScalingDown(calls: Calls, clusterName: string, expectMasterNum: nat, currentMasterNum: nat,
                     statefulSetNodes: map<string, seq<Node>>)
    returns (r: Removal, ghost forgotten: seq<Node>)
    requires expectMasterNum <= currentMasterNum
    modifies calls
    ensures calls.forgotten == old(calls.forgotten) + forgotten
    ensures calls.failures == old(calls.failures) + if r.Failed? then 1 else 0
    ensures forgotten <= Departing(statefulSetNodes, clusterName, expectMasterNum, currentMasterNum)
    ensures forall n :: n in forgotten ==> n.Slots == []
    ensures r.Removed? ==> forgotten == Departing(statefulSetNodes, clusterName, expectMasterNum, currentMasterNum)
    ensures r.NotEmpty? ==>
      forgotten + [r.node] <= Departing(statefulSetNodes, clusterName, expectMasterNum, currentMasterNum)
    ensures r.NotEmpty? ==> r.node.Slots != []
    ensures !r.Failed? ==> (r.Removed? <==>
      forall n :: n in NodesOfRange(statefulSetNodes, clusterName, expectMasterNum, currentMasterNum) ==> n.Slots == [])
  {
    hide Departing, ClusterStatefulSetName, NodesOfRange, Listed;
    forgotten := [];
    ghost var all := Departing(statefulSetNodes, clusterName, expectMasterNum, currentMasterNum);
    DepartingNodes(statefulSetNodes, clusterName, expectMasterNum, currentMasterNum);
    var i := currentMasterNum;
    while i > expectMasterNum
      invariant expectMasterNum <= i <= currentMasterNum && calls.failures == old(calls.failures)
      invariant calls.forgotten == old(calls.forgotten) + forgotten
      invariant forgotten + Departing(statefulSetNodes, clusterName, expectMasterNum, i) == all
      invariant forall n :: n in forgotten ==> n.Slots == []
    {
      DepartingNext(statefulSetNodes, clusterName, expectMasterNum, i);
      i := i - 1;
      var stsName := ClusterStatefulSetName(clusterName, i);
      var found := calls.GetStatefulSet(stsName);
      if !found {
        return Failed, forgotten;
      }
      var nodes := Listed(statefulSetNodes, stsName);
      ghost var before, gone := forgotten, [];
      r, gone := ForgetNodes(calls, nodes);
      forgotten := before + gone;
      OneStatefulSet(before, gone, nodes, Departing(statefulSetNodes, clusterName, expectMasterNum, i));
      if !r.Removed? {
        return;
      }
    }
    DepartingNone(statefulSetNodes, clusterName, expectMasterNum);
    r := Removed;
  }

  lemma OneStatefulSet(before: seq<Node>, gone: seq<Node>, nodes: seq<Node>, rest: seq<Node>)
    requires gone <= nodes
    ensures before + gone <= before + (nodes + rest)
    ensures gone == nodes ==> before + gone + rest == before + (nodes + rest)
    ensures forall n :: gone + [n] <= nodes ==>
      before + gone + [n] <= before + (nodes + rest) && n in before + (nodes + rest)
  {
    forall n | gone + [n] <= nodes
      ensures before + gone + [n] <= before + (nodes + rest) && n in before + (nodes + rest)
    {
      assert (gone + [n])[|gone|] == n && nodes[|gone|] == n;
      assert (before + (nodes + rest))[|before| + |gone|] == n;
    }
  }

  /** No list has become longer than ceil(S/n) + 1, or than ceil(S/n) if it was shorter before. */
  ghost predicate WithinShare(masters: seq<Node>, sizes: map<Node, nat>, nbSlots: nat)
    requires masters != []
    reads masters`Slots
  {
    forall m :: m in masters ==> m in sizes && |m.Slots| <= MostSlots(sizes[m], nbSlots, |masters|)
  }

  function MostSlots(size: nat, nbSlots: nat, n: nat): nat
    requires n > 0
  {
    var N := Migration.ShareUp(nbSlots, n);
    if size < N then N else N + 1
  }

  ghost function SizesOf(nodes: seq<Node>): map<Node, nat>
    reads nodes`Slots
  {
    map n | n in nodes :: |n.Slots|
  }

  /** The last branch: the nodes that are about to be forgotten have no slots left, so that only failures keep it from
      forgetting all of them. */
  method ScaleDown(ctx: Ctx, admin: Admin, calls: Calls, clusterName: string, masterSize: nat, newMasters: seq<Node>,
                   curMasters: seq<Node>, ghost loc0: map<Slot, Node>)
    returns (moved: bool, removal: Removal, ghost forgotten: seq<Node>, ghost loc: map<Slot, Node>)
    requires masterSize <= |curMasters|
    requires Dispatch.ReadyToShrink(admin, newMasters, curMasters, newMasters + curMasters, loc0)
    requires forall n :: n in NodesOfRange(ctx.nodes, clusterName, masterSize, |curMasters|) ==>
      n !in newMasters && (n in curMasters || n.Slots == [])
    modifies admin`log, admin`failures, admin`takeoverFailed, admin`migrationFailed, newMasters`Slots, curMasters`Slots
    modifies calls
    ensures calls.forgotten == old(calls.forgotten) + forgotten
    ensures calls.failures == old(calls.failures) + if moved && removal.Failed? then 1 else 0
    ensures forgotten <= Departing(ctx.nodes, clusterName, masterSize, |curMasters|)
    ensures removal.Removed? ==> forgotten == Departing(ctx.nodes, clusterName, masterSize, |curMasters|)
    ensures !removal.NotEmpty? && (!moved ==> removal.Failed? && forgotten == [])
    ensures forall n :: n in forgotten ==> n.Slots == [] && n !in newMasters
    ensures Migration.InMemory(newMasters + curMasters, loc)
    ensures loc0.Keys <= loc.Keys <= Migration.AllSlots(|old(admin.log)|)
    ensures forall s :: s in loc ==> loc[s] in newMasters + curMasters
    ensures newMasters != [] && Dispatch.Keeping(old(Dispatch.Keepers(newMasters, |admin.log|)), loc)
    ensures Dispatch.Keeping(old(Dispatch.Keepers(newMasters, |admin.log|)), loc0)
    ensures Dispatch.Waiting(admin.ids, admin.log, loc0, Dispatch.Moved(loc0, loc))
    ensures moved ==> Dispatch.Shrunk(newMasters, loc, |old(admin.log)|)
    ensures moved ==> forall m :: m in newMasters ==>
      |m.Slots| <= MostSlots(old(|m.Slots|), |old(admin.log)|, |newMasters|)
    ensures admin.failures >= old(admin.failures) && (admin.failures == old(admin.failures) ==> moved)
    ensures admin.failures == old(admin.failures) ==>
      Dispatch.Handed(admin.ids, admin.log, loc0, loc, old(Dispatch.Holding(newMasters)))
    ensures old(admin.Safe()) ==> admin.Safe()
  {
    hide Dispatch.ReadyToShrink, Dispatch.Shrunk, Dispatch.Handed, Dispatch.Keepers, Dispatch.Keeping,
      Dispatch.Waiting, Dispatch.Moved, Migration.InMemory, AllSafe, ClusterStatefulSetName, Departing;
    var allMaster := newMasters + curMasters;
    SomeMaster(admin, newMasters, curMasters, allMaster, loc0);
    ghost var surplus := NodesOfRange(ctx.nodes, clusterName, masterSize, |curMasters|);
    DepartingNodes(ctx.nodes, clusterName, masterSize, |curMasters|);
    var nbSlots;
    forgotten := [];
    moved, nbSlots, loc := Dispatch.DispatchSlotToNewMasters(admin, newMasters, curMasters, allMaster, loc0);
    if !moved {
      removal := Failed;
      return;
    }
    forall m | m in newMasters ensures |m.Slots| <= MostSlots(old(|m.Slots|), |old(admin.log)|, |newMasters|) {
      var i :| 0 <= i < |newMasters| && newMasters[i] == m;
    }
    forall n | n in surplus ensures n.Slots == [] {
      if n !in curMasters {
        assert n !in allMaster && n.Slots == old(n.Slots);
      }
    }
    removal, forgotten := ScalingDown(calls, clusterName, masterSize, |curMasters|, ctx.nodes);
    forall n | n in forgotten ensures n !in newMasters {
      assert n in ToSet(Departing(ctx.nodes, clusterName, masterSize, |curMasters|));
    }
  }

  lemma SomeMaster(admin: Admin, newMasters: seq<Node>, curMasters: seq<Node>, all: seq<Node>, loc: map<Slot, Node>)
    requires Dispatch.ReadyToShrink(admin, newMasters, curMasters, all, loc)
    ensures newMasters != []
  {
  }

  // ----- what a look at the cluster tells

  /** The nodes' records agree with the cluster, and `seen` holds the same as plain values. */
  ghost predicate Look(admin: Admin, nodes: seq<Node>, seen: Scene)
    reads admin, nodes
  {
    && admin.Valid() && admin.Knows(nodes) && seen.nodes == nodes
    && (forall n :: n in nodes ==> NoDup(n.Slots) && Reports(admin, n)) && Untagged(nodes)
    && (forall n :: n in nodes ==> (n in seen.holders <==> n.Slots != []))
    && (forall n :: n in nodes ==> (n in seen.replicas <==> n.IPPort() in admin.replicaOf))
  }

  /** Either the cluster is blank, or every slot is settled with one of the nodes. */
  ghost predicate Settled0(admin: Admin, seen: Scene, owner0: seq<Addr>)
    reads admin
  {
    if seen.holders == {} then Alloc.Blank(admin.ids, admin.log)
    else Owned(admin.ids, admin.log, owner0) && forall a :: a in owner0 ==> a in Addrs(seen.nodes)
  }

  lemma LookRoles(admin: Admin, nodes: seq<Node>, seen: Scene)
    requires Look(admin, nodes, seen) && seen.Members()
    ensures Slotted(nodes, seen.holders) && RecordsAgree(admin.replicaOf, ToSet(nodes))
  {
    hide NoDup, Holders, Apart;
  }

  /** The lists are those of the owners. */
  lemma LookLists(admin: Admin, nodes: seq<Node>, seen: Scene, owner0: seq<Addr>)
    requires Look(admin, nodes, seen) && Owned(admin.ids, admin.log, owner0)
    ensures forall n :: n in nodes ==> Rebalance.Lists(n, owner0)
  {
    hide NoDup, KeysAt, AllKeys;
    forall n | n in nodes ensures Rebalance.Lists(n, owner0) {
      forall s: Slot ensures s in n.Slots <==> s < |owner0| && owner0[s] == n.IPPort() {
        if s < |owner0| {
          assert Settled(admin.ids, admin.Now(s), owner0[s]);
        }
      }
    }
  }

  /** Only the slot owners own slots. */
  lemma OwnersHold(nodes: seq<Node>, holders: set<Node>, owner0: seq<Addr>, masters: seq<Node>)
    requires forall n :: n in nodes ==> Rebalance.Lists(n, owner0) && (n.Slots != [] ==> n in holders)
    requires (forall a :: a in owner0 ==> a in Addrs(nodes)) && forall n :: n in holders ==> n in masters
    ensures forall a :: a in owner0 ==> a in Addrs(masters)
  {
    hide NoDup, Reports;
    forall a | a in owner0 ensures a in Addrs(masters) {
      var i :| 0 <= i < |nodes| && Addrs(nodes)[i] == a;
      var s :| 0 <= s < |owner0| && owner0[s] == a;
      assert nodes[i] in nodes && s in nodes[i].Slots;
      var j :| 0 <= j < |masters| && masters[j] == nodes[i];
      assert Addrs(masters)[j] == a;
    }
  }

  /** Once every chosen node owns slots and the others follow, everything is arranged. */
  lemma ArrangedNow(admin: Admin, sc: Scene, spec: Spec)
    requires admin.Valid() && sc.Good(spec.Name, spec.MasterSize) && sc.NoSurplus()
    requires sc.Complete(spec.ClusterReplicas + 1)
    requires ReplicasPlaced(admin.replicaOf, sc.groups, sc.chosen) && AllServe(admin, ToSet(sc.masters))
    ensures Arranged(admin, sc.nodes, sc.groups, sc.chosen, spec)
  {
    hide NoDup, Apart, Holders, NodesIn, Replicates, Node.IPPort, sc.Members, sc.ByHome, sc.Dispatched, sc.NoSurplus,
      sc.Complete;
    sc.NodesApart();
    sc.GroupsCovered();
    sc.GroupSizes(spec.Name, spec.MasterSize, spec.ClusterReplicas + 1);
    sc.ChosenNodes(spec.Name, spec.MasterSize);
    sc.GroupsChosen(spec.Name, spec.MasterSize);
    sc.GroupsApart();
    forall ss | ss in sc.groups ensures Serves(admin, sc.chosen[ss]) {
      assert sc.chosen[ss] in sc.chosen.Values && sc.chosen[ss] in ToSet(sc.masters);
    }
  }

  lemma LeadingNow(replicaOf: map<Addr, NodeID>, sc: Scene)
    requires forall m :: m in sc.chosen.Values ==> (m.IPPort() in replicaOf <==> m in sc.replicas)
    ensures Leading(replicaOf, sc.chosen) <==> sc.chosen.Values !! sc.replicas
  {
    hide Node.IPPort;
    if Leading(replicaOf, sc.chosen) {
      forall m | m in sc.chosen.Values ensures m !in sc.replicas {
        var ss :| ss in sc.chosen && sc.chosen[ss] == m;
      }
    }
  }

  /** Where the slots are, as nodes. */
  ghost predicate Located(nodes: seq<Node>, owner0: seq<Addr>, loc: map<Slot, Node>) {
    && (forall s: Slot :: s in loc <==> s < |owner0|)
    && (forall s: Slot :: s in loc ==> loc[s] in nodes && loc[s].IPPort() == owner0[s])
  }

  lemma Locate(nodes: seq<Node>, owner0: seq<Addr>) returns (loc: map<Slot, Node>)
    requires forall a :: a in owner0 ==> a in Addrs(nodes)
    ensures Located(nodes, owner0, loc)
  {
    forall s: Slot | s < |owner0| ensures exists n :: n in nodes && n.IPPort() == owner0[s] {
      assert owner0[s] in owner0;
      var i :| 0 <= i < |nodes| && Addrs(nodes)[i] == owner0[s];
      assert nodes[i] in nodes;
    }
    loc := map s: Slot | 0 <= s < |owner0| :: NodeAt(nodes, owner0[s]);
  }

  ghost function NodeAt(nodes: seq<Node>, a: Addr): (n: Node)
    requires exists n :: n in nodes && n.IPPort() == a
    ensures n in nodes && n.IPPort() == a
  {
    var n :| n in nodes && n.IPPort() == a;
    n
  }

  lemma ListedLocated(sc: Scene, n: Node, owner0: seq<Addr>, loc: map<Slot, Node>)
    requires sc.Members() && n in sc.nodes && Rebalance.Lists(n, owner0) && Located(sc.nodes, owner0, loc)
    ensures Migration.ListedAt(n, loc)
  {
    hide NoDup;
    forall s: Slot ensures s in n.Slots <==> s in loc && loc[s] == n {
      if s in loc && loc[s] != n {
        assert Apart(loc[s], n);
      }
    }
  }

  lemma AgreesNow(admin: Admin, nodes: seq<Node>, owner0: seq<Addr>, loc: map<Slot, Node>)
    requires admin.Valid() && Owned(admin.ids, admin.log, owner0) && Located(nodes, owner0, loc)
    ensures Dispatch.Agrees(admin.ids, admin.log, loc)
  {
    hide Settled, Holders;
  }

  lemma OneClusterNow(sc: Scene, spec: Spec)
    requires sc.Good(spec.Name, spec.MasterSize)
    ensures Migration.OneCluster(sc.masters, sc.current)
    ensures forall n :: n in sc.masters || n in sc.current ==> n in sc.nodes
    ensures forall n :: n in sc.holders ==> n in sc.current
    ensures forall n :: n in sc.current ==> n in sc.holders
    ensures |sc.masters| == spec.MasterSize && |sc.current| == |sc.holders|
  {
    hide NoDup, Distinct, Apart, sc.Members, sc.ByHome, sc.Dispatched;
    sc.NodesApart();
    sc.MastersDistinct(spec.Name, spec.MasterSize);
    sc.CurrentDistinct(spec.Name, spec.MasterSize);
    sc.ChosenNodes(spec.Name, spec.MasterSize);
    HoldersKnown(sc);
    forall a, b | a in sc.masters && b in sc.current && a != b ensures a.ID != b.ID && a.IPPort() != b.IPPort() {
      assert a in sc.nodes && b in sc.nodes && Apart(a, b);
      ApartNodes(a, b);
    }
  }

  lemma ApartNodes(a: Node, b: Node)
    requires Apart(a, b)
    ensures a.ID != b.ID && a.IPPort() != b.IPPort()
  {
  }

  lemma HoldersKnown(sc: Scene)
    requires sc.Members()
    ensures forall n :: n in sc.holders ==> n in sc.nodes
  {
    hide NoDup, Apart;
    forall n | n in sc.holders ensures n in sc.nodes {
      assert n in ToSet(sc.nodes);
    }
  }

  lemma InMemoryNow(sc: Scene, nodes: seq<Node>, owner0: seq<Addr>, loc: map<Slot, Node>)
    requires sc.Members() && Located(sc.nodes, owner0, loc)
    requires forall n :: n in nodes ==> n in sc.nodes
    requires forall n :: n in sc.nodes ==> Rebalance.Lists(n, owner0)
    requires forall n :: n in sc.nodes && n.Slots != [] ==> n in nodes
    ensures Migration.InMemory(nodes, loc) && forall s :: s in loc ==> s < |owner0| && loc[s] in nodes
  {
    hide NoDup, Rebalance.Lists, Apart, sc.Members;
    forall n | n in nodes ensures Migration.ListedAt(n, loc) {
      ListedLocated(sc, n, owner0, loc);
    }
    forall s | s in loc ensures loc[s] in nodes {
      ListedLocated(sc, loc[s], owner0, loc);
    }
  }

  lemma ReadyForScaleDown(admin: Admin, sc: Scene, spec: Spec, owner0: seq<Addr>, loc: map<Slot, Node>)
    requires sc.Good(spec.Name, spec.MasterSize) && spec.MasterSize > 0 && |admin.log| > 0
    requires admin.Valid() && admin.Knows(sc.nodes) && Owned(admin.ids, admin.log, owner0)
    requires Located(sc.nodes, owner0, loc) && forall n :: n in sc.nodes ==> Rebalance.Lists(n, owner0)
    requires forall n :: n in sc.nodes ==> (n in sc.holders <==> n.Slots != [])
    ensures Dispatch.ReadyToShrink(admin, sc.masters, sc.current, sc.masters + sc.current, loc)
  {
    hide NoDup, Settled, Holders, Rebalance.Lists, Distinct, Migration.OneCluster, Migration.InMemory, Dispatch.Agrees,
      Located, sc.Members, sc.ByHome, sc.Dispatched;
    OneClusterNow(sc, spec);
    AgreesNow(admin, sc.nodes, owner0, loc);
    InMemoryNow(sc, sc.current, owner0, loc);
    OwnedSize(admin, owner0);
  }

  lemma OwnedSize(admin: Admin, owner: seq<Addr>)
    requires Owned(admin.ids, admin.log, owner)
    ensures |owner| == |admin.log|
  {
  }

  /** The nodes of the surplus statefulsets are no chosen masters. */
  lemma SurplusNodes(sc: Scene, spec: Spec, hi: nat)
    requires sc.Good(spec.Name, spec.MasterSize)
    ensures forall n :: n in NodesOfRange(sc.groups, spec.Name, spec.MasterSize, hi) ==>
      n !in sc.masters && n in sc.nodes
  {
    hide NoDup, ClusterStatefulSetName, sc.Members, sc.OwnMasters;
    sc.ChosenNodes(spec.Name, spec.MasterSize);
    forall n | n in NodesOfRange(sc.groups, spec.Name, spec.MasterSize, hi) ensures n !in sc.masters && n in sc.nodes {
      var i :| spec.MasterSize <= i < hi && n in Listed(sc.groups, ClusterStatefulSetName(spec.Name, i));
      assert sc.home[n] == ClusterStatefulSetName(spec.Name, i);
      LaterName(spec.Name, spec.MasterSize, i);
    }
  }

  lemma LaterName(clusterName: string, n: nat, i: nat)
    requires n <= i
    ensures ClusterStatefulSetName(clusterName, i) !in StatefulSetNames(clusterName, n)
  {
    hide ClusterStatefulSetName;
    forall j | 0 <= j < n ensures ClusterStatefulSetName(clusterName, j) != ClusterStatefulSetName(clusterName, i) {
      if ClusterStatefulSetName(clusterName, j) == ClusterStatefulSetName(clusterName, i) {
        StatefulSetNamesDiffer(clusterName, j, i);
      }
    }
  }

  /** What of a look the tagging of the nodes leaves alone. */
  ghost predicate Known(admin: Admin, nodes: seq<Node>, sc: Scene, owner0: seq<Addr>)
    reads admin, nodes`Role, nodes`MasterReferent, nodes`Slots
  {
    && admin.Valid() && admin.Knows(nodes) && sc.nodes == nodes && Settled0(admin, sc, owner0)
    && RecordsAgree(admin.replicaOf, ToSet(nodes))
    && (forall n :: n in nodes ==> (n in sc.holders <==> n.Slots != []))
    && (forall n :: n in nodes ==> (n in sc.replicas <==> n.IPPort() in admin.replicaOf))
    && (sc.holders != {} ==> forall n :: n in nodes ==> Rebalance.Lists(n, owner0))
  }

  lemma LookKnown(admin: Admin, nodes: seq<Node>, seen: Scene, owner0: seq<Addr>)
    requires Look(admin, nodes, seen) && seen.Members() && Settled0(admin, seen, owner0)
    ensures Known(admin, nodes, seen, owner0) && Slotted(nodes, seen.holders) && seen.nodes == nodes
    ensures Untagged(nodes)
  {
    hide NoDup, Reports, Owned, Alloc.Blank, Slotted, RecordsAgree, Rebalance.Lists;
    LookRoles(admin, nodes, seen);
    if seen.holders != {} {
      LookLists(admin, nodes, seen, owner0);
    }
  }

  lemma KnownStill(admin: Admin, nodes: seq<Node>, seen: Scene, sc: Scene, owner0: seq<Addr>)
    requires Known(admin, nodes, seen, owner0)
    requires sc.nodes == seen.nodes && sc.holders == seen.holders && sc.replicas == seen.replicas
    ensures Known(admin, nodes, sc, owner0)
  {
    hide RecordsAgree, Rebalance.Lists, Owned, Alloc.Blank;
  }

  /** The context of the round and its values. */
  ghost predicate InContext(ctx: Ctx, sc: Scene, spec: Spec)
    reads ctx
  {
    && sc.groups == ctx.nodes && sc.chosen == ctx.newMastersBySts && ctx.slavesByMaster == map[]
    && (forall n :: n in sc.nodes ==> n.ID in ctx.cluster && ctx.cluster[n.ID] == n)
    && (forall id :: id in ctx.cluster ==> ctx.cluster[id] in sc.nodes && ctx.cluster[id].ID == id)
    && sc.Good(spec.Name, spec.MasterSize)
  }

  /** What attaching the slaves needs. */
  lemma ReadyToAttach(ctx: Ctx, admin: Admin, nodes: seq<Node>, sc: Scene, spec: Spec, owner0: seq<Addr>)
    requires Known(admin, nodes, sc, owner0) && InContext(ctx, sc, spec)
    ensures WellGrouped(ctx.nodes, ctx.newMastersBySts, ctx.cluster) && ctx.slavesByMaster == map[]
    ensures RecordsAgree(admin.replicaOf, NodesIn(ctx.nodes)) && NodesIn(ctx.nodes) == ToSet(nodes)
    ensures ToSet(sc.masters) == ctx.newMastersBySts.Values && Distinct(sc.masters) && admin.Knows(sc.masters)
    ensures |sc.masters| == spec.MasterSize && admin.Valid() && sc.nodes == nodes && sc.Good(spec.Name, spec.MasterSize)
    ensures forall n :: n in NodesIn(ctx.nodes) || n in sc.masters ==> n in nodes
    ensures sc.groups == ctx.nodes && sc.chosen == ctx.newMastersBySts
    ensures ctx.nodes.Keys <= ctx.newMastersBySts.Keys <==> sc.NoSurplus()
  {
    hide WellGrouped, RecordsAgree, Distinct, NoDup, Apart, Settled0, Rebalance.Lists, NodesIn, sc.Members, sc.ByHome,
      sc.OwnMasters;
    sc.Grouped(spec.Name, spec.MasterSize, ctx.cluster);
    sc.GroupsCovered();
    sc.MastersDistinct(spec.Name, spec.MasterSize);
    sc.ChosenNodes(spec.Name, spec.MasterSize);
    SurplusGroups(sc);
  }

  /** A group without a chosen master is a surplus statefulset. */
  lemma SurplusGroups(sc: Scene)
    requires sc.ByHome()
    ensures sc.groups.Keys <= sc.chosen.Keys <==> sc.NoSurplus()
  {
    hide NoDup;
    if sc.NoSurplus() {
      forall ss | ss in sc.groups ensures ss in sc.chosen {
        sc.HomeChosen(ss);
      }
    }
  }

  /** A node that the status does not list is grouped as "unknown", which is a surplus statefulset. */
  lemma UnlistedIsSurplus(sc: Scene, spec: Spec, entries: seq<RedisClusterNode>, n: Node)
    requires sc.Good(spec.Name, spec.MasterSize) && sc.home == Homes(sc.nodes, entries) && n in sc.nodes
    requires LastEntry(entries, n.ID).None?
    ensures !sc.NoSurplus()
  {
    hide NoDup, Apart, sc.Members, sc.ByHome, sc.OwnMasters;
    assert n in sc.home && sc.home[n] == UNKNOWN_VM_NAME;
    assert UNKNOWN_VM_NAME[0] == 'u';
    forall i | 0 <= i < spec.MasterSize ensures ClusterStatefulSetName(spec.Name, i) != UNKNOWN_VM_NAME {
      assert ClusterStatefulSetName(spec.Name, i)[0] == 'd';
    }
  }

  lemma BlankNow(admin: Admin, nodes: seq<Node>, sc: Scene, owner0: seq<Addr>)
    requires Known(admin, nodes, sc, owner0) && sc.holders == {}
    ensures Alloc.Blank(admin.ids, admin.log)
  {
  }

  /** Attaching has not changed which of the chosen masters are replicas. */
  lemma ReplicasStill(before: map<Addr, NodeID>, after: map<Addr, NodeID>, nodes: seq<Node>, sc: Scene, spec: Spec)
    requires SameFollowers(before, after, sc.chosen.Values) && sc.nodes == nodes && sc.Good(spec.Name, spec.MasterSize)
    requires forall n :: n in nodes ==> (n in sc.replicas <==> n.IPPort() in before)
    ensures forall m :: m in sc.chosen.Values ==> (m.IPPort() in after <==> m in sc.replicas)
  {
    hide NoDup, Apart, Node.IPPort, sc.Members, sc.ByHome, sc.Dispatched;
    sc.ChosenNodes(spec.Name, spec.MasterSize);
    forall m | m in sc.chosen.Values ensures m in nodes {
      var ss :| ss in sc.chosen && sc.chosen[ss] == m;
    }
  }

  lemma ReplicasKnown(admin: Admin, nodes: seq<Node>, sc: Scene, owner0: seq<Addr>)
    requires Known(admin, nodes, sc, owner0)
    ensures forall n :: n in nodes ==> (n in sc.replicas <==> n.IPPort() in admin.replicaOf)
    ensures admin.Knows(nodes)
  {
  }

  /** When the chosen master of a statefulset is a replica, the other nodes had all been following it before. */
  ghost predicate FollowedBefore(replicaOf: map<Addr, NodeID>, sc: Scene) {
    forall ss, n ::
      ss in sc.chosen && ss in sc.groups && n in sc.groups[ss] && n != sc.chosen[ss] && sc.chosen[ss] in sc.replicas ==>
        Replicates(replicaOf, n, sc.chosen[ss].ID)
  }

  lemma RestFollowed(admin: Admin, before: map<Addr, NodeID>, nodes: seq<Node>, sc: Scene, spec: Spec)
    requires LedBefore(admin.ids, before, sc.groups, sc.chosen) && admin.Knows(nodes)
    requires sc.nodes == nodes && sc.Good(spec.Name, spec.MasterSize)
    requires forall n :: n in nodes ==> (n in sc.replicas <==> n.IPPort() in before)
    ensures FollowedBefore(before, sc)
  {
    hide NoDup, Apart, Node.IPPort, Replicates, sc.Members, sc.ByHome, sc.Dispatched;
    sc.ChosenNodes(spec.Name, spec.MasterSize);
    forall m | m in sc.chosen.Values ensures m in nodes {
      var ss :| ss in sc.chosen && sc.chosen[ss] == m;
    }
  }

  // ----- the round

  /** What a branch that attaches slaves comes to.  It ends in a nil pointer exactly when there are surplus
      statefulsets, and then it has changed nothing in the cluster.  A clean round with a full number of nodes has
      arranged everything; in any clean round the chosen nodes that are masters then are those that were, every other
      node replicates the one of its statefulset, and where that was a replica it had been doing so already. */
  ghost predicate Attached(was: Snapshot, admin: Admin, sc: Scene, spec: Spec, outcome: Outcome)
    reads admin
  {
    && was.failures <= admin.failures && (outcome.Panic? <==> !sc.NoSurplus())
    && (outcome.Panic? ==> Untouched(was, admin))
    && (Clean(was, admin, outcome) ==> outcome.Done? && admin.Valid() && FollowedBefore(was.replicaOf, sc))
    && (Clean(was, admin, outcome) ==> ReplicasPlaced(admin.replicaOf, sc.groups, sc.chosen))
    && (Clean(was, admin, outcome) && admin.Valid() && sc.Complete(spec.ClusterReplicas + 1) ==>
          && Arranged(admin, sc.nodes, sc.groups, sc.chosen, spec)
          && (Leading(admin.replicaOf, sc.chosen) <==> sc.chosen.Values !! sc.replicas))
    && (was.safe ==> admin.Safe())
  }

  /** A clean run that has placed the replicas and given every master slots. */
  lemma AttachedClean(was: Snapshot, admin: Admin, nodes: seq<Node>, sc: Scene, spec: Spec)
    requires admin.Valid() && sc.nodes == nodes && sc.Good(spec.Name, spec.MasterSize) && sc.NoSurplus()
    requires ReplicasPlaced(admin.replicaOf, sc.groups, sc.chosen) && AllServe(admin, ToSet(sc.masters))
    requires SameFollowers(was.replicaOf, admin.replicaOf, sc.chosen.Values)
    requires LedBefore(admin.ids, was.replicaOf, sc.groups, sc.chosen) && admin.Knows(nodes)
    requires forall n :: n in nodes ==> (n in sc.replicas <==> n.IPPort() in was.replicaOf)
    requires was.failures == admin.failures && (was.safe ==> admin.Safe())
    ensures Attached(was, admin, sc, spec, Done)
  {
    hide Arranged, Leading, SameFollowers, LedBefore, FollowedBefore, ReplicasPlaced, AllServe, Node.IPPort, AllSafe,
      sc.Good, sc.NoSurplus, sc.Complete;
    RestFollowed(admin, was.replicaOf, nodes, sc, spec);
    ReplicasStill(was.replicaOf, admin.replicaOf, nodes, sc, spec);
    LeadingNow(admin.replicaOf, sc);
    if sc.Complete(spec.ClusterReplicas + 1) {
      ArrangedNow(admin, sc, spec);
    }
  }

  lemma AttachedPanic(was: Snapshot, admin: Admin, sc: Scene, spec: Spec)
    requires Untouched(was, admin) && !sc.NoSurplus() && (was.safe ==> admin.Safe())
    ensures Attached(was, admin, sc, spec, Panic)
  {
    hide Arranged, Leading, AllSafe, FollowedBefore, ReplicasPlaced, sc.NoSurplus, sc.Complete;
  }

  lemma AttachedFailed(was: Snapshot, admin: Admin, sc: Scene, spec: Spec, outcome: Outcome)
    requires was.failures < admin.failures && sc.NoSurplus() && !outcome.Panic? && (was.safe ==> admin.Safe())
    ensures Attached(was, admin, sc, spec, outcome)
  {
    hide Arranged, Leading, AllSafe, FollowedBefore, ReplicasPlaced, sc.NoSurplus, sc.Complete;
  }

  /** Creating. */
  method CreateRound(ctx: Ctx, admin: Admin, nodes: seq<Node>, ghost sc: Scene, newMasters: seq<Node>, spec: Spec,
                     ghost owner0: seq<Addr>)
    returns (outcome: Outcome, ghost asked: seq<Node>, ghost served: nat, ghost owner: seq<Addr>)
    requires Known(admin, nodes, sc, owner0) && InContext(ctx, sc, spec) && sc.holders == {} && newMasters == sc.masters
    requires 0 < spec.MasterSize <= |admin.log| < MAX_UINT64
    modifies ctx`slavesByMaster, ctx`bestEffort, nodes, admin
    ensures Attached(old(Snap(admin)), admin, sc, spec, outcome)
    ensures !outcome.Panic? ==> AskedStrays(old(Snap(admin)), admin, sc, asked)
    ensures outcome.Done? ==> Clean(old(Snap(admin)), admin, outcome)
    ensures Created(admin.ids, old(admin.log), admin.log, sc.masters, served)
    ensures outcome.Done? <==> served == |sc.masters|
    ensures outcome.Done? ==> Shared(admin.ids, old(admin.log), admin.log, sc.masters, owner)
  {
    hide *;
    ghost var was := Snapshot(admin.log, admin.replicaOf, admin.attached, admin.failures, admin.Safe());
    Taken(was, admin);
    ReadyToAttach(ctx, admin, nodes, sc, spec, owner0);
    ReplicasKnown(admin, nodes, sc, owner0);
    BlankNow(admin, nodes, sc, owner0);
    assert forall i :: 0 <= i < |newMasters| ==> newMasters[i] in nodes;
    owner := owner0;
    outcome, asked, served := CreateCluster(ctx, admin, newMasters);
    CreatedNow(admin.ids, was.log, admin.log, newMasters, served);
    if outcome.Panic? {
      NowUntouched(was, admin);
      AttachedPanic(was, admin, sc, spec);
      return;
    }
    StraysTold(was, admin, sc, spec.Name, spec.MasterSize, asked);
    if admin.failures > was.failures {
      AttachedFailed(was, admin, sc, spec, outcome);
    } else {
      AttachedClean(was, admin, nodes, sc, spec);
      CleanNow(was, admin);
      owner := AllServed(admin.ids, was.log, admin.log, newMasters);
    }
  }

  lemma CleanNow(was: Snapshot, admin: Admin)
    requires was.failures == admin.failures
    ensures Clean(was, admin, Done)
  {
  }

  lemma Taken(was: Snapshot, admin: Admin)
    requires was == Snapshot(admin.log, admin.replicaOf, admin.attached, admin.failures, admin.Safe())
    ensures was == Snap(admin)
  {
  }

  lemma NowUntouched(was: Snapshot, admin: Admin)
    requires admin.log == was.log && admin.replicaOf == was.replicaOf && admin.attached == was.attached
    requires admin.failures == was.failures
    ensures Untouched(was, admin)
  {
  }

  /** Scaling up needs an owner for every slot and a newcomer without slots. */
  lemma ReadyToScaleUp(admin: Admin, nodes: seq<Node>, sc: Scene, spec: Spec, owner0: seq<Addr>)
    requires Known(admin, nodes, sc, owner0) && sc.Good(spec.Name, spec.MasterSize)
    requires 0 < |sc.current| < spec.MasterSize
    ensures Owned(admin.ids, admin.log, owner0) && (sc.NoSurplus() ==> OwnersChosen(sc.masters, owner0))
  {
    hide NoDup, Apart, RecordsAgree, Owned, Rebalance.Lists, Alloc.Blank, Addrs, sc.Members, sc.ByHome, sc.Dispatched,
      sc.NoSurplus;
    SomeHolder(sc, spec);
    sc.ChosenNodes(spec.Name, spec.MasterSize);
    if sc.NoSurplus() {
      sc.HoldersChosen(spec.Name, spec.MasterSize);
      sc.Pigeonhole(spec.Name, spec.MasterSize);
      OwnersHold(nodes, sc.holders, owner0, sc.masters);
      var n :| n in sc.masters && n !in sc.holders;
      assert n in nodes;
    }
  }

  lemma SomeHolder(sc: Scene, spec: Spec)
    requires sc.Good(spec.Name, spec.MasterSize) && |sc.current| > 0
    ensures sc.holders != {} && forall n :: n in sc.holders ==> n in sc.nodes
  {
    hide NoDup, Apart, sc.ByHome, sc.OwnMasters;
    sc.CurrentDistinct(spec.Name, spec.MasterSize);
    HoldersKnown(sc);
  }

  /** Scaling up. */
  method ScaleUpRound(ctx: Ctx, admin: Admin, nodes: seq<Node>, ghost sc: Scene, newMasters: seq<Node>, spec: Spec,
                      ghost owner0: seq<Addr>)
    returns (outcome: Outcome, ghost asked: seq<Node>, ghost owner: seq<Addr>)
    requires Known(admin, nodes, sc, owner0) && InContext(ctx, sc, spec) && newMasters == sc.masters
    requires 0 < |sc.current| < spec.MasterSize <= |admin.log|
    modifies ctx`slavesByMaster, ctx`bestEffort, nodes, admin
    ensures Attached(old(Snap(admin)), admin, sc, spec, outcome)
    ensures !outcome.Panic? ==> AskedStrays(old(Snap(admin)), admin, sc, asked)
    ensures outcome.Done? ==>
      Rebalanced(admin, sc.masters, old(SizesOf(nodes)), owner0, owner, admin.failures == old(admin.failures))
    ensures outcome.Error? && admin.log != old(admin.log) ==>
      BrokenOff(admin, sc.masters, old(SizesOf(nodes)), owner0, owner, admin.failures == old(admin.failures) + 1)
    ensures Clean(old(Snap(admin)), admin, outcome) ==> sc.chosen.Values !! sc.replicas
  {
    hide *;
    ghost var was := Snapshot(admin.log, admin.replicaOf, admin.attached, admin.failures, admin.Safe());
    Taken(was, admin);
    ReadyToAttach(ctx, admin, nodes, sc, spec, owner0);
    ReplicasKnown(admin, nodes, sc, owner0);
    ReadyToScaleUp(admin, nodes, sc, spec, owner0);
    NewcomersOwnNothing(admin, nodes, sc, spec, owner0);
    assert forall i :: 0 <= i < |newMasters| ==> newMasters[i] in nodes;
    ghost var sizes := SizesOf(nodes);
    Measured(nodes);
    outcome, asked, owner := ScaleUp(ctx, admin, newMasters, owner0, sizes);
    if outcome.Panic? {
      NowUntouched(was, admin);
      AttachedPanic(was, admin, sc, spec);
      NotClean(was, admin, outcome);
      return;
    }
    StraysTold(was, admin, sc, spec.Name, spec.MasterSize, asked);
    if admin.failures > was.failures {
      AttachedFailed(was, admin, sc, spec, outcome);
      NotClean(was, admin, outcome);
    } else {
      SettledValid(admin, newMasters, sizes, owner0, owner);
      AttachedClean(was, admin, nodes, sc, spec);
      ScaleUpLeads(was.replicaOf, admin.replicaOf, nodes, sc, spec, owner0);
    }
  }

  lemma NotClean(was: Snapshot, admin: Admin, outcome: Outcome)
    requires outcome.Panic? || admin.failures > was.failures
    ensures !Clean(was, admin, outcome)
  {
  }

  lemma NewcomersOwnNothing(admin: Admin, nodes: seq<Node>, sc: Scene, spec: Spec, owner0: seq<Addr>)
    requires Known(admin, nodes, sc, owner0) && sc.Good(spec.Name, spec.MasterSize) && |sc.current| > 0
    ensures NewcomersEmpty(sc, owner0)
  {
    hide NoDup, Apart, RecordsAgree, Owned, Alloc.Blank, Addrs, Node.IPPort, sc.Members, sc.ByHome, sc.Dispatched;
    SomeHolder(sc, spec);
    sc.ChosenNodes(spec.Name, spec.MasterSize);
    forall m | m in sc.masters && m !in sc.holders ensures m.IPPort() !in owner0 {
      assert m in nodes && Rebalance.Lists(m, owner0) && m.Slots == [];
    }
  }

  ghost predicate NewcomersEmpty(sc: Scene, owner0: seq<Addr>) {
    forall m :: m in sc.masters && m !in sc.holders ==> m.IPPort() !in owner0
  }

  /** A scale-up that has gone through has given every newcomer slots, which Redis allows for masters only; and the
      owners are masters. */
  lemma ScaleUpLeads(before: map<Addr, NodeID>, after: map<Addr, NodeID>, nodes: seq<Node>, sc: Scene, spec: Spec,
                     owner0: seq<Addr>)
    requires SameFollowers(before, after, sc.chosen.Values) && sc.nodes == nodes && sc.Good(spec.Name, spec.MasterSize)
    requires forall n :: n in nodes ==> (n in sc.replicas <==> n.IPPort() in before)
    requires NewcomersLead(after, sc.masters, owner0) && NewcomersEmpty(sc, owner0)
    ensures sc.chosen.Values !! sc.replicas
  {
    hide NoDup, Apart, Node.IPPort, SameFollowers, sc.ByHome;
    ReplicasStill(before, after, nodes, sc, spec);
    assert ToSet(sc.masters) == sc.chosen.Values;
    forall m | m in sc.chosen.Values ensures m !in sc.replicas {
      assert m in ToSet(sc.masters);
    }
  }

  lemma SettledValid(admin: Admin, masters: seq<Node>, sizes: map<Node, nat>, owner0: seq<Addr>, owner: seq<Addr>)
    requires Rebalanced(admin, masters, sizes, owner0, owner, true)
    ensures admin.Valid()
  {
    hide Balance.Quota, Balance.Gaps, Changed, Sum, Absolute, Rebalance.FewestMoves, Rebalance.Unmoved, SizesBefore,
      Settled;
  }

  /** With as many owners as masters, every chosen master owns a slot. */
  lemma AllOwn(admin: Admin, nodes: seq<Node>, sc: Scene, spec: Spec, owner0: seq<Addr>)
    requires Known(admin, nodes, sc, owner0) && sc.Good(spec.Name, spec.MasterSize) && sc.NoSurplus()
    requires |sc.current| >= spec.MasterSize > 0
    ensures AllServe(admin, ToSet(sc.masters)) && sc.chosen.Values !! sc.replicas
  {
    hide NoDup, Apart, RecordsAgree, Alloc.Blank, sc.Members, sc.ByHome, sc.Dispatched, Holders, KeysAt, AllKeys;
    OwnersLead(sc, spec);
    SomeHolder(sc, spec);
    sc.ChosenNodes(spec.Name, spec.MasterSize);
    sc.Pigeonhole(spec.Name, spec.MasterSize);
    forall m | m in ToSet(sc.masters)
      ensures exists s :: 0 <= s < |admin.log| && m.IPPort() in Holders(admin.ids, admin.Now(s))
    {
      assert m in sc.holders && m in nodes && Rebalance.Lists(m, owner0);
      var s := m.Slots[0];
      assert s in m.Slots;
      assert Settled(admin.ids, admin.Now(s), owner0[s]);
    }
  }

  /** No owner is a replica. */
  lemma OwnersLead(sc: Scene, spec: Spec)
    requires sc.Good(spec.Name, spec.MasterSize) && sc.NoSurplus() && |sc.current| >= spec.MasterSize
    ensures sc.chosen.Values !! sc.replicas
  {
    hide NoDup, Apart, sc.ByHome, sc.OwnMasters, sc.NoSurplus;
    sc.Pigeonhole(spec.Name, spec.MasterSize);
    sc.ChosenNodes(spec.Name, spec.MasterSize);
    forall m | m in sc.chosen.Values ensures m !in sc.replicas {
      assert m in ToSet(sc.masters);
    }
  }

  /** Scaling slaves only attaches. */
  method ScaleSlaveRound(ctx: Ctx, admin: Admin, nodes: seq<Node>, ghost sc: Scene, spec: Spec, ghost owner0: seq<Addr>)
    returns (outcome: Outcome, ghost asked: seq<Node>)
    requires Known(admin, nodes, sc, owner0) && InContext(ctx, sc, spec) && |sc.current| >= spec.MasterSize > 0
    modifies ctx`slavesByMaster, ctx`bestEffort, nodes`Role, nodes`MasterReferent
    modifies admin`replicaOf, admin`attached, admin`failures
    ensures Attached(old(Snap(admin)), admin, sc, spec, outcome)
    ensures !outcome.Panic? ==> AskedStrays(old(Snap(admin)), admin, sc, asked)
    ensures !outcome.Panic? ==>
      |admin.attached| + admin.failures == |old(admin.attached)| + old(admin.failures) + |asked|
    ensures !outcome.Panic? ==> (outcome.Done? <==> Clean(old(Snap(admin)), admin, outcome))
    ensures !outcome.Panic? ==> sc.chosen.Values !! sc.replicas
  {
    hide *;
    ghost var was := Snapshot(admin.log, admin.replicaOf, admin.attached, admin.failures, admin.Safe());
    Taken(was, admin);
    ReadyToAttach(ctx, admin, nodes, sc, spec, owner0);
    ReplicasKnown(admin, nodes, sc, owner0);
    if sc.NoSurplus() {
      AllOwn(admin, nodes, sc, spec, owner0);
    }
    var panicked, ok;
    panicked, ok, asked := ctx.AttachSlaves(admin);
    if panicked {
      NowUntouched(was, admin);
      AttachedPanic(was, admin, sc, spec);
      outcome := Panic;
      return;
    }
    ghost var failed := admin.failures - was.failures;
    TriedSize(was.attached, admin.attached, failed, asked);
    TriedThen(was.attached, admin.attached, failed, failed, asked);
    StraysTold(was, admin, sc, spec.Name, spec.MasterSize, asked);
    if !ok {
      AttachedFailed(was, admin, sc, spec, Error);
      NotClean(was, admin, Error);
      outcome := Error;
      return;
    }
    Placed(admin.replicaOf, ctx);
    AttachedClean(was, admin, nodes, sc, spec);
    CleanNow(was, admin);
    outcome := Done;
  }

  lemma ReadyToScaleDown(admin: Admin, nodes: seq<Node>, sc: Scene, spec: Spec, owner0: seq<Addr>)
    returns (loc: map<Slot, Node>)
    requires Known(admin, nodes, sc, owner0) && sc.Good(spec.Name, spec.MasterSize)
    requires 0 < spec.MasterSize < |sc.current| && 0 < |admin.log|
    ensures Dispatch.ReadyToShrink(admin, sc.masters, sc.current, sc.masters + sc.current, loc)
    ensures loc.Keys == Migration.AllSlots(|admin.log|) && Located(nodes, owner0, loc)
    ensures forall n :: n in NodesOfRange(sc.groups, spec.Name, spec.MasterSize, |sc.current|) ==>
      n !in sc.masters && (n in sc.current || n.Slots == [])
    ensures forall n :: n in sc.masters || n in sc.current ==> n in nodes
  {
    hide NoDup, Apart, RecordsAgree, Owned, Rebalance.Lists, Alloc.Blank, Addrs, NodesOfRange, sc.Members, sc.ByHome,
      sc.Dispatched, Located, Dispatch.ReadyToShrink, Migration.AllSlots;
    SomeHolder(sc, spec);
    OneClusterNow(sc, spec);
    loc := Locate(nodes, owner0);
    ReadyForScaleDown(admin, sc, spec, owner0, loc);
    SurplusNodes(sc, spec, |sc.current|);
    LocatedAll(admin, nodes, owner0, loc);
  }

  lemma LocatedAll(admin: Admin, nodes: seq<Node>, owner0: seq<Addr>, loc: map<Slot, Node>)
    requires Located(nodes, owner0, loc) && Owned(admin.ids, admin.log, owner0)
    ensures loc.Keys == Migration.AllSlots(|admin.log|)
  {
    hide Settled;
  }

  /** What a scale-down comes to. Whatever fails, every slot is in the list of exactly one master, and one that has not
      moved has its owner still; once the slots have been moved that is a chosen one, and none of them has more than its
      share, of which it keeps what it had; and no node to be forgotten is found with slots, so that nothing but a
      failed call keeps one from being forgotten.  In a run without a failed command the cluster agrees with the lists,
      all keys have arrived, and the chosen masters that had slots before know the new owners. */
  ghost predicate Shrinking(was: Snapshot, admin: Admin, sc: Scene, spec: Spec, moved: bool, removal: Removal,
                            trace: Trace)
    reads admin, sc.masters`Slots, sc.current`Slots
  {
    var loc, forgotten := trace.after, trace.forgotten;
    var departing := Departing(sc.groups, spec.Name, spec.MasterSize, |sc.current|);
    && Migration.InMemory(sc.masters + sc.current, loc) && loc.Keys == Migration.AllSlots(|was.log|)
    && (forall s :: s in loc ==> loc[s] in sc.masters + sc.current)
    && (moved ==> Dispatch.Shrunk(sc.masters, loc, |was.log|))
    && sc.masters != [] && (moved ==> WithinShare(sc.masters, trace.sizes, |was.log|))
    && StayedPut(sc.masters, trace.sizes, trace.before, loc, |was.log|)
    && Dispatch.Waiting(admin.ids, admin.log, trace.before, Dispatch.Moved(trace.before, loc))
    && (admin.failures == was.failures ==>
          Dispatch.Handed(admin.ids, admin.log, trace.before, loc, set m | m in sc.masters && m in sc.holders))
    && !removal.NotEmpty? && trace.callsFailed == (if moved && removal.Failed? then 1 else 0)
    && (!moved ==> removal.Failed?)
    && forgotten <= departing && (!moved ==> forgotten == []) && (removal.Removed? ==> forgotten == departing)
    && was.failures <= admin.failures && (admin.failures == was.failures ==> moved)
    && admin.replicaOf == was.replicaOf && admin.attached == was.attached && (was.safe ==> admin.Safe())
  }

  /** Scaling down. */
  method ScaleDownRound(ctx: Ctx, admin: Admin, calls: Calls, nodes: seq<Node>, ghost sc: Scene, newMasters: seq<Node>,
                        curMasters: seq<Node>, spec: Spec, ghost owner0: seq<Addr>)
    returns (moved: bool, removal: Removal, ghost trace: Trace)
    requires Known(admin, nodes, sc, owner0) && InContext(ctx, sc, spec) && newMasters == sc.masters
    requires curMasters == sc.current
    requires 0 < spec.MasterSize < |sc.current| && 0 < |admin.log|
    modifies nodes, admin, calls
    ensures calls.forgotten == old(calls.forgotten) + trace.forgotten
    ensures calls.failures == old(calls.failures) + trace.callsFailed
    ensures Shrinking(old(Snap(admin)), admin, sc, spec, moved, removal, trace)
    ensures Located(nodes, owner0, trace.before) && trace.sizes == old(SizesOf(nodes))
    ensures forall n :: n in trace.forgotten ==> n.Slots == [] && n !in sc.masters
  {
    hide *;
    ghost var was := Snapshot(admin.log, admin.replicaOf, admin.attached, admin.failures, admin.Safe());
    Taken(was, admin);
    ContextValues(ctx, sc, spec);
    ghost var loc0 := ReadyToScaleDown(admin, nodes, sc, spec, owner0);
    assert forall i :: 0 <= i < |newMasters| ==> newMasters[i] in nodes;
    assert forall i :: 0 <= i < |curMasters| ==> curMasters[i] in nodes;
    ghost var loc, sizes, holding, forgotten := loc0, SizesOf(nodes), Dispatch.Holding(newMasters), [];
    Measured(nodes);
    HoldingNow(admin, nodes, sc, owner0, spec);
    ListsNoDup(admin, nodes, sc, owner0, spec);
    ghost var keepers := Dispatch.Keepers(newMasters, |was.log|);
    Dispatch.KeepersSized(newMasters, |was.log|);
    moved, removal, forgotten, loc :=
      ScaleDown(ctx, admin, calls, spec.Name, spec.MasterSize, newMasters, curMasters, loc0);
    trace := Trace(sizes, [], 0, owner0, loc0, loc, forgotten, if moved && removal.Failed? then 1 else 0);
    if moved {
      WithinNow(newMasters, sizes, |was.log|);
    }
    StayedNow(newMasters, keepers, sizes, loc0, loc, |was.log|);
    ShrinkingNow(was, admin, sc, spec, moved, removal, trace, holding);
  }

  lemma Measured(nodes: seq<Node>)
    ensures forall n :: n in nodes ==> n in SizesOf(nodes) && SizesOf(nodes)[n] == |n.Slots|
  {
  }

  lemma WithinNow(masters: seq<Node>, sizes: map<Node, nat>, nbSlots: nat)
    requires masters != []
    requires forall m :: m in masters ==> m in sizes && |m.Slots| <= MostSlots(sizes[m], nbSlots, |masters|)
    ensures WithinShare(masters, sizes, nbSlots)
  {
  }

  lemma ListsNoDup(admin: Admin, nodes: seq<Node>, sc: Scene, owner0: seq<Addr>, spec: Spec)
    requires Known(admin, nodes, sc, owner0) && sc.Good(spec.Name, spec.MasterSize) && 0 < |sc.current|
    requires 0 < spec.MasterSize
    ensures sc.masters != [] && forall m :: m in sc.masters ==> NoDup(m.Slots)
  {
    hide NoDup, Apart, RecordsAgree, Owned, Alloc.Blank, Addrs, sc.Members, sc.ByHome, sc.Dispatched;
    SomeHolder(sc, spec);
    sc.ChosenNodes(spec.Name, spec.MasterSize);
    forall m | m in sc.masters ensures NoDup(m.Slots) {
      assert m in nodes && Rebalance.Lists(m, owner0);
    }
  }

  /** The chosen masters that hold slots. */
  lemma HoldingNow(admin: Admin, nodes: seq<Node>, sc: Scene, owner0: seq<Addr>, spec: Spec)
    requires Known(admin, nodes, sc, owner0) && sc.Good(spec.Name, spec.MasterSize)
    ensures Dispatch.Holding(sc.masters) == set m | m in sc.masters && m in sc.holders
  {
    hide NoDup, Apart, RecordsAgree, Owned, Rebalance.Lists, Alloc.Blank, sc.Members, sc.ByHome, sc.Dispatched;
    sc.ChosenNodes(spec.Name, spec.MasterSize);
  }

  lemma ShrinkingNow(was: Snapshot, admin: Admin, sc: Scene, spec: Spec, moved: bool, removal: Removal,
                     trace: Trace, holding: set<Node>)
    requires Migration.InMemory(sc.masters + sc.current, trace.after)
    requires trace.before.Keys == Migration.AllSlots(|was.log|) && holding == set m | m in sc.masters && m in sc.holders
    requires trace.before.Keys <= trace.after.Keys <= trace.before.Keys
    requires forall s :: s in trace.after ==> trace.after[s] in sc.masters + sc.current
    requires moved ==> Dispatch.Shrunk(sc.masters, trace.after, |was.log|)
    requires sc.masters != [] && (moved ==> WithinShare(sc.masters, trace.sizes, |was.log|))
    requires StayedPut(sc.masters, trace.sizes, trace.before, trace.after, |was.log|)
    requires Dispatch.Waiting(admin.ids, admin.log, trace.before, Dispatch.Moved(trace.before, trace.after))
    requires admin.failures == was.failures ==>
      Dispatch.Handed(admin.ids, admin.log, trace.before, trace.after, holding)
    requires !removal.NotEmpty? && trace.callsFailed == if moved && removal.Failed? then 1 else 0
    requires !moved ==> removal.Failed? && trace.forgotten == []
    requires trace.forgotten <= Departing(sc.groups, spec.Name, spec.MasterSize, |sc.current|)
    requires removal.Removed? ==> trace.forgotten == Departing(sc.groups, spec.Name, spec.MasterSize, |sc.current|)
    requires was.failures <= admin.failures && (admin.failures == was.failures ==> moved) && (was.safe ==> admin.Safe())
    requires admin.replicaOf == was.replicaOf && admin.attached == was.attached
    ensures Shrinking(was, admin, sc, spec, moved, removal, trace)
  {
    hide Migration.InMemory, Migration.AllSlots, Dispatch.Shrunk, Dispatch.Handed, WithinShare, StayedPut,
      Dispatch.Waiting, Dispatch.Moved, AllSafe, Departing;
  }

  lemma ContextValues(ctx: Ctx, sc: Scene, spec: Spec)
    requires InContext(ctx, sc, spec)
    ensures sc.groups == ctx.nodes && sc.chosen == ctx.newMastersBySts && sc.Good(spec.Name, spec.MasterSize)
  {
  }

  lemma IntoContext(ctx: Ctx, sc: Scene, spec: Spec)
    requires sc.groups == ctx.nodes && sc.chosen == ctx.newMastersBySts && ctx.slavesByMaster == map[]
    requires forall n :: n in sc.nodes ==> n.ID in ctx.cluster && ctx.cluster[n.ID] == n
    requires forall id :: id in ctx.cluster ==> ctx.cluster[id] in sc.nodes && ctx.cluster[id].ID == id
    requires sc.Good(spec.Name, spec.MasterSize)
    ensures InContext(ctx, sc, spec)
  {
  }

  // ----- what each branch comes to

  /** Creating: the masters served are a prefix, and when it is done that is all of them, who then share the slots. */
  ghost predicate Creates(was: Snapshot, admin: Admin, sc: Scene, spec: Spec, outcome: Outcome, trace: Trace)
    reads admin, sc.masters`Slots
  {
    && Attached(was, admin, sc, spec, outcome) && (!outcome.Panic? ==> AskedStrays(was, admin, sc, trace.asked))
    && Created(admin.ids, was.log, admin.log, sc.masters, trace.served)
    && (outcome.Done? <==> trace.served == |sc.masters|) && (outcome.Done? ==> Clean(was, admin, outcome))
    && (outcome.Done? ==> Shared(admin.ids, was.log, admin.log, sc.masters, trace.owner))
  }

  lemma CreatesNow(was: Snapshot, admin: Admin, sc: Scene, spec: Spec, outcome: Outcome, trace: Trace)
    requires Attached(was, admin, sc, spec, outcome) && (!outcome.Panic? ==> AskedStrays(was, admin, sc, trace.asked))
    requires Created(admin.ids, was.log, admin.log, sc.masters, trace.served)
    requires (outcome.Done? <==> trace.served == |sc.masters|) && (outcome.Done? ==> Clean(was, admin, outcome))
    requires outcome.Done? ==> Shared(admin.ids, was.log, admin.log, sc.masters, trace.owner)
    ensures Creates(was, admin, sc, spec, outcome, trace)
  {
    hide Attached, AskedStrays, Created, Clean, Shared;
  }

  /** Scaling up: when it is done the masters have their quotas, and when it breaks off they are on the way there; and
      it is clean only when they all are masters. */
  ghost predicate ScalesUp(was: Snapshot, admin: Admin, sc: Scene, spec: Spec, outcome: Outcome, trace: Trace,
                           owner0: seq<Addr>)
    reads admin, sc.masters`Slots
  {
    && Attached(was, admin, sc, spec, outcome) && (!outcome.Panic? ==> AskedStrays(was, admin, sc, trace.asked))
    && (outcome.Done? ==>
          Rebalanced(admin, sc.masters, trace.sizes, owner0, trace.owner, admin.failures == was.failures))
    && (outcome.Error? && admin.log != was.log ==>
          BrokenOff(admin, sc.masters, trace.sizes, owner0, trace.owner, admin.failures == was.failures + 1))
    && (Clean(was, admin, outcome) ==> sc.chosen.Values !! sc.replicas)
  }

  lemma ScalesUpNow(was: Snapshot, admin: Admin, sc: Scene, spec: Spec, outcome: Outcome, trace: Trace,
                    owner0: seq<Addr>)
    requires Attached(was, admin, sc, spec, outcome) && (!outcome.Panic? ==> AskedStrays(was, admin, sc, trace.asked))
    requires outcome.Done? ==>
      Rebalanced(admin, sc.masters, trace.sizes, owner0, trace.owner, admin.failures == was.failures)
    requires outcome.Error? && admin.log != was.log ==>
      BrokenOff(admin, sc.masters, trace.sizes, owner0, trace.owner, admin.failures == was.failures + 1)
    requires Clean(was, admin, outcome) ==> sc.chosen.Values !! sc.replicas
    ensures ScalesUp(was, admin, sc, spec, outcome, trace, owner0)
  {
    hide Attached, AskedStrays, Rebalanced, BrokenOff, Clean;
  }

  /** Scaling slaves: there are only the commands that attach them, and no slot is touched. */
  ghost predicate ScalesSlaves(was: Snapshot, admin: Admin, sc: Scene, spec: Spec, outcome: Outcome, trace: Trace)
    reads admin
  {
    && Attached(was, admin, sc, spec, outcome) && admin.log == was.log
    && (!outcome.Panic? ==>
          && AskedStrays(was, admin, sc, trace.asked) && sc.chosen.Values !! sc.replicas
          && |admin.attached| + admin.failures == |was.attached| + was.failures + |trace.asked|
          && (outcome.Done? <==> Clean(was, admin, outcome)))
  }

  lemma ScalesSlavesNow(was: Snapshot, admin: Admin, sc: Scene, spec: Spec, outcome: Outcome, trace: Trace)
    requires Attached(was, admin, sc, spec, outcome) && admin.log == was.log
    requires !outcome.Panic? ==> AskedStrays(was, admin, sc, trace.asked) && sc.chosen.Values !! sc.replicas
    requires !outcome.Panic? ==> |admin.attached| + admin.failures == |was.attached| + was.failures + |trace.asked|
    requires !outcome.Panic? ==> (outcome.Done? <==> Clean(was, admin, outcome))
    ensures ScalesSlaves(was, admin, sc, spec, outcome, trace)
  {
    hide Attached, AskedStrays, Clean;
  }

  /** Scaling down: without a failed command or call all nodes of the surplus statefulsets are forgotten. */
  ghost predicate ScalesDown(was: Snapshot, admin: Admin, sc: Scene, spec: Spec, moved: bool, removal: Removal,
                             outcome: Outcome, trace: Trace)
    reads admin, sc.masters`Slots, sc.current`Slots, trace.forgotten`Slots
  {
    && Shrinking(was, admin, sc, spec, moved, removal, trace)
    && (forall n :: n in trace.forgotten ==> n.Slots == [] && n !in sc.masters)
    && outcome == (if removal.Removed? then Done else Error)
    && (Clean(was, admin, outcome) && trace.callsFailed == 0 ==>
          outcome.Done? && ToSet(trace.forgotten) == NodesOfRange(sc.groups, spec.Name, spec.MasterSize, |sc.current|))
  }

  lemma ScalesDownNow(was: Snapshot, admin: Admin, sc: Scene, spec: Spec, moved: bool, removal: Removal,
                      outcome: Outcome, trace: Trace)
    requires Shrinking(was, admin, sc, spec, moved, removal, trace)
    requires forall n :: n in trace.forgotten ==> n.Slots == [] && n !in sc.masters
    requires outcome == if removal.Removed? then Done else Error
    ensures ScalesDown(was, admin, sc, spec, moved, removal, outcome, trace)
  {
    hide Migration.InMemory, Migration.AllSlots, Dispatch.Shrunk, Dispatch.Handed, WithinShare, StayedPut,
      Dispatch.Waiting, Dispatch.Moved, AllSafe, Departing, NodesOfRange, ToSet;
    DepartingNodes(sc.groups, spec.Name, spec.MasterSize, |sc.current|);
  }

  /** The two lists whose lengths decide are as long as there are slot owners and as there should be masters. */
  lemma Counted(sc: Scene, spec: Spec)
    requires sc.Good(spec.Name, spec.MasterSize)
    ensures |sc.current| == |sc.holders| && |sc.masters| == spec.MasterSize && (|sc.current| == 0 ==> sc.holders == {})
  {
    hide NoDup, Apart, sc.Members, sc.ByHome, sc.OwnMasters;
    OneClusterNow(sc, spec);
  }

  datatype Branch =
    | Undispatched
    | Creating
    | ScalingUp
    | ScalingSlave
    | ScalingDown(moved: bool, removal: Removal)
    | Steady

  /** syncCluster. Which branch it takes is decided by the number of slot owners. Creating, scaling up and scaling
      slaves panic exactly on surplus statefulsets; otherwise they attach exactly the nodes that do not follow the
      master of their statefulset, and if no command fails, arrange everything.  The nodes chosen are a function of the
      look and the status; after scaling up or scaling slaves they are all masters, and after creating those of them
      are that were.  Creating divides the slots evenly, scaling up gives every master its quota by the fewest moves,
      and scaling slaves leaves them alone.  Scaling down loses no slot, and never stops because a node to be forgotten
      still has slots: without a failed command or call all nodes of the surplus statefulsets are forgotten. */
  method SyncCluster(spec: Spec, status: ClusterStatus, nodes: seq<Node>, admin: Admin, calls: Calls,
                     ghost seen: Scene, ghost owner0: seq<Addr>)
    returns (branch: Branch, outcome: Outcome, ghost sc: Scene, ghost trace: Trace)
    requires 0 < spec.MasterSize <= |admin.log| < MAX_UINT64
    requires seen.home == Homes(nodes, status.Nodes) && seen.machine == Machines(nodes, status.Nodes) && seen.Members()
    requires Look(admin, nodes, seen) && Settled0(admin, seen, owner0)
    modifies nodes, admin, calls
    ensures trace.sizes == old(SizesOf(nodes))
    ensures calls.forgotten == old(calls.forgotten) + trace.forgotten
    ensures calls.failures == old(calls.failures) + trace.callsFailed
    ensures !branch.ScalingDown? ==> trace.forgotten == [] && trace.callsFailed == 0
    ensures branch.Undispatched? || branch.ScalingSlave? || branch.Steady? ==> unchanged(nodes`Slots)
    ensures branch.Undispatched? || branch.Steady? ==>
      Untouched(old(Snap(admin)), admin) && outcome == if branch.Steady? then Done else Error
    ensures branch.Undispatched? <==>
      !forall i :: 0 <= i < spec.MasterSize ==> Ready(seen, ClusterStatefulSetName(spec.Name, i))
    ensures match branch
      case Undispatched => true
      case Creating => seen.holders == {}
      case ScalingUp => 0 < |seen.holders| < spec.MasterSize
      case ScalingSlave => |seen.holders| >= spec.MasterSize && status.MinReplicationFactor < spec.ClusterReplicas
      case ScalingDown(_, _) => |seen.holders| > spec.MasterSize && status.MinReplicationFactor >= spec.ClusterReplicas
      case Steady => |seen.holders| == spec.MasterSize && status.MinReplicationFactor >= spec.ClusterReplicas
    ensures !branch.Undispatched? ==> sc.Good(spec.Name, spec.MasterSize)
    ensures !branch.Undispatched? ==>
      sc == seen.(groups := sc.groups, chosen := sc.chosen, current := sc.current, masters := sc.masters)
    ensures !branch.Undispatched? ==>
      sc.groups == seen.Groups() && sc.chosen == seen.Picks(spec.Name, spec.MasterSize)
    ensures branch.Creating? ==> Creates(old(Snap(admin)), admin, sc, spec, outcome, trace)
    ensures branch.ScalingUp? ==> ScalesUp(old(Snap(admin)), admin, sc, spec, outcome, trace, owner0)
    ensures branch.ScalingSlave? ==> ScalesSlaves(old(Snap(admin)), admin, sc, spec, outcome, trace)
    ensures branch.ScalingDown? ==>
      ScalesDown(old(Snap(admin)), admin, sc, spec, branch.moved, branch.removal, outcome, trace)
    ensures branch.ScalingDown? ==> Located(nodes, owner0, trace.before)
  {
    hide *;
    ghost var was := Snapshot(admin.log, admin.replicaOf, admin.attached, admin.failures, admin.Safe());
    Taken(was, admin);
    LookKnown(admin, nodes, seen, owner0);
    var dispatched, ctx, curMasters, newMasters;
    trace := Trace(SizesOf(nodes), [], 0, owner0, map[], map[], [], 0);
    dispatched, ctx, curMasters, newMasters, sc := StartRound(spec, nodes, status.Nodes, seen);
    if !dispatched {
      NowUntouched(was, admin);
      branch, outcome := Undispatched, Error;
      return;
    }
    Taken(was, admin);
    assert trace.sizes == SizesOf(nodes);
    KnownStill(admin, nodes, seen, sc, owner0);
    IntoContext(ctx, sc, spec);
    Counted(sc, spec);
    if |curMasters| == 0 {
      branch := Creating;
      ghost var asked, served, owner;
      outcome, asked, served, owner := CreateRound(ctx, admin, nodes, sc, newMasters, spec, owner0);
      trace := trace.(asked := asked, served := served, owner := owner);
      CreatesNow(was, admin, sc, spec, outcome, trace);
    } else if |newMasters| > |curMasters| {
      branch := ScalingUp;
      ghost var asked, owner;
      outcome, asked, owner := ScaleUpRound(ctx, admin, nodes, sc, newMasters, spec, owner0);
      trace := trace.(asked := asked, owner := owner);
      ScalesUpNow(was, admin, sc, spec, outcome, trace, owner0);
    } else if status.MinReplicationFactor < spec.ClusterReplicas {
      branch := ScalingSlave;
      ghost var asked;
      outcome, asked := ScaleSlaveRound(ctx, admin, nodes, sc, spec, owner0);
      trace := trace.(asked := asked);
      ScalesSlavesNow(was, admin, sc, spec, outcome, trace);
    } else if |curMasters| > spec.MasterSize {
      var moved, removal;
      moved, removal, trace := ScaleDownRound(ctx, admin, calls, nodes, sc, newMasters, curMasters, spec, owner0);
      branch := Branch.ScalingDown(moved, removal);
      outcome := if removal.Removed? then Done else Error;
      ScalesDownNow(was, admin, sc, spec, moved, removal, outcome, trace);
    } else {
      NowUntouched(was, admin);
      branch, outcome := Steady, Done;
    }
  }
}
