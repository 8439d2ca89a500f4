/** What a reconcile round comes to: who has been attached, who owns the slots, and which nodes have been forgotten. */
module Results {
  import opened Slots
  import opened Sums
  import opened Nodes
  import opened Redis
  import opened Roles
  import opened Placement
  import opened Scene
  import Alloc
  import Balance
  import Rebalance
  import Migration
  import Dispatch

  /** How a branch ends: with success, with an error, or in a nil pointer. */
  datatype Outcome = Done | Error | Panic

  /** What a round may have to leave as it was. */
  datatype Snapshot = Snapshot(log: seq<seq<SlotState>>, replicaOf: map<Addr, NodeID>, attached: seq<Addr>,
                               failures: nat, safe: bool)

  ghost function Snap(admin: Admin): Snapshot
    reads admin
  {
    Snapshot(admin.log, admin.replicaOf, admin.attached, admin.failures, admin.Safe())
  }

  /** No command has had any effect, or failed. */
  ghost predicate Untouched(was: Snapshot, admin: Admin)
    reads admin
  {
    && admin.log == was.log && admin.replicaOf == was.replicaOf && admin.attached == was.attached
    && admin.failures == was.failures
  }

  /** A round without a panic and without a failed command. */
  ghost predicate Clean(was: Snapshot, admin: Admin, outcome: Outcome)
    reads admin`failures
  {
    !outcome.Panic? && admin.failures == was.failures
  }

  /** What a round has done: how long the lists were before it; the nodes told to follow their masters; how many masters
      have been allotted slots, and who owns the slots after creating or scaling up; where the slots were before and are
      after scaling down, the nodes forgotten then, and how many of its calls failed. */
  datatype Trace = Trace(sizes: map<Node, nat>, asked: seq<Node>, served: nat, owner: seq<Addr>,
                         before: map<Slot, Node>, after: map<Slot, Node>, forgotten: seq<Node>, callsFailed: nat)

  /** The calls by which a scale-down gets rid of nodes; each of them may fail. */
  class Calls {
    ghost var failures: nat
    ghost var forgotten: seq<Node>

    constructor ()
      ensures failures == 0 && forgotten == []
    {
      failures, forgotten := 0, [];
    }

    method GetStatefulSet(name: string) returns (ok: bool)
      modifies this`failures
      ensures failures == old(failures) + if ok then 0 else 1
    {
      ok := *;
      if !ok {
        failures := failures + 1;
      }
    }

    method ForgetNode(node: Node) returns (ok: bool)
      modifies this
      ensures failures == old(failures) + if ok then 0 else 1
      ensures forgotten == old(forgotten) + if ok then [node] else []
    {
      ok := *;
      if ok {
        forgotten := forgotten + [node];
      } else {
        failures := failures + 1;
      }
    }
  }

  // ----- attaching

  /** The nodes that are not the chosen master of their statefulset and do not replicate it either. */
  ghost function Strays(replicaOf: map<Addr, NodeID>, sc: Scene): set<Node> {
    set n | n in sc.nodes && n in sc.home && sc.home[n] in sc.chosen && n != sc.chosen[sc.home[n]] &&
            !Replicates(replicaOf, n, sc.chosen[sc.home[n]].ID)
  }

  /** Exactly these nodes have been sent REPLICATE, each once, whatever became of the commands; and nothing has changed
      for any other node. */
  ghost predicate AskedStrays(was: Snapshot, admin: Admin, sc: Scene, asked: seq<Node>)
    reads admin`attached, admin`replicaOf, admin`failures
  {
    && NoDup(asked) && ToSet(asked) == Strays(was.replicaOf, sc)
    && TriedAll(was.attached, admin.attached, admin.failures - was.failures, asked)
    && OthersKept(was.replicaOf, admin.replicaOf, asked)
  }

  lemma StraysTold(was: Snapshot, admin: Admin, sc: Scene, clusterName: string, masterSize: nat, asked: seq<Node>)
    requires sc.Good(clusterName, masterSize) && sc.NoSurplus()
    requires NoDup(asked) && Asks(was.replicaOf, sc.groups, sc.chosen, asked)
    requires TriedAll(was.attached, admin.attached, admin.failures - was.failures, asked)
    requires OthersKept(was.replicaOf, admin.replicaOf, asked)
    ensures AskedStrays(was, admin, sc, asked)
  {
    hide NoDup, Apart, TriedAll, OthersKept, Asks, sc.Members, sc.ByHome, sc.Dispatched, sc.NoSurplus;
    forall ss | ss in sc.groups ensures ss in sc.chosen {
      sc.HomeChosen(ss);
    }
    StraysAsked(was.replicaOf, sc, asked);
  }

  lemma StraysAsked(replicaOf: map<Addr, NodeID>, sc: Scene, asked: seq<Node>)
    requires sc.ByHome() && Asks(replicaOf, sc.groups, sc.chosen, asked) && sc.groups.Keys <= sc.chosen.Keys
    ensures ToSet(asked) == Strays(replicaOf, sc)
  {
    hide NoDup, Replicates;
    forall n | n in asked ensures n in Strays(replicaOf, sc) {
      var ss :| ss in sc.groups && n in sc.groups[ss];
      assert sc.home[n] == ss;
    }
    forall n | n in Strays(replicaOf, sc) ensures n in asked {
      assert n in sc.groups[sc.home[n]];
    }
  }

  // ----- creating

  /** The first masters in the list have been given their allotments, each alone, and no other slot has changed. */
  ghost predicate Created(ids: map<Addr, NodeID>, before: seq<seq<SlotState>>, log: seq<seq<SlotState>>,
                          masters: seq<Node>, served: nat)
    reads masters`Slots
  {
    && masters != [] && served <= |masters| && Alloc.AllottedUpTo(ids, before, log, masters, served)
    && (forall i :: 0 <= i < served ==> masters[i].Slots == Alloc.Allotment(|log|, |masters|, i))
  }

  lemma CreatedNow(ids: map<Addr, NodeID>, before: seq<seq<SlotState>>, log: seq<seq<SlotState>>, masters: seq<Node>,
                   served: nat)
    requires masters != [] && served <= |masters| && Alloc.AllottedUpTo(ids, before, log, masters, served)
    requires forall i :: 0 <= i < served ==> masters[i].Slots == Alloc.Allotment(|log|, |masters|, i)
    ensures Created(ids, before, log, masters, served)
  {
    hide Alloc.AllottedUpTo, Alloc.Allotment;
  }

  /** Every slot has one owner, a chosen master that lists it, and its keys are where they were; and every chosen
      master owns floor(S/n) or ceil(S/n) slots. */
  ghost predicate Shared(ids: map<Addr, NodeID>, before: seq<seq<SlotState>>, log: seq<seq<SlotState>>,
                         masters: seq<Node>, owner: seq<Addr>)
    reads masters`Slots
  {
    && |owner| == |log| == |before| && masters != []
    && (forall s :: 0 <= s < |owner| ==> owner[s] in Addrs(masters) && OwnedAlone(ids, before[s], log[s], owner[s]))
    && (forall m :: m in masters ==> Rebalance.Lists(m, owner))
    && (forall m :: m in masters ==> EvenShare(|m.Slots|, |owner|, |masters|))
  }

  ghost predicate OwnedAlone(ids: map<Addr, NodeID>, was: seq<SlotState>, now: seq<SlotState>, a: Addr) {
    && was != [] && now != []
    && Holders(ids, now[|now| - 1]) == {a} && now[|now| - 1].keys == was[|was| - 1].keys
  }

  predicate EvenShare(size: nat, slotCount: nat, n: nat)
    requires n > 0
  {
    slotCount / n <= size <= slotCount / n + (if slotCount % n == 0 then 0 else 1)
  }

  /** Every slot is in the allotment of some master, and of one only. */
  lemma {:induction false} SomeAllotment(slotCount: nat, n: nat, s: nat, k: nat)
    requires 0 < n <= slotCount && k <= n && s < Alloc.Boundary(slotCount, n, k)
    ensures exists i :: 0 <= i < k && s in Alloc.Allotment(slotCount, n, i)
  {
    hide Alloc.Boundary;
    Alloc.BoundaryEnds(slotCount, n);
    if s >= Alloc.Boundary(slotCount, n, k - 1) {
      assert s in Alloc.Allotment(slotCount, n, k - 1);
    } else {
      SomeAllotment(slotCount, n, s, k - 1);
    }
  }

  lemma AllotmentsApart(slotCount: nat, n: nat, i: nat, j: nat, s: nat)
    requires 0 < n <= slotCount && i < n && j < n
    requires s in Alloc.Allotment(slotCount, n, i) && s in Alloc.Allotment(slotCount, n, j)
    ensures i == j
  {
    hide Alloc.Boundary;
    if i < j {
      Alloc.BoundaryMonotone(slotCount, n, i + 1, j);
    } else if j < i {
      Alloc.BoundaryMonotone(slotCount, n, j + 1, i);
    }
  }

  /** The owner of a slot once all masters have been served. */
  ghost function Server(slotCount: nat, masters: seq<Node>, s: nat): (i: nat)
    requires 0 < |masters| <= slotCount && s < slotCount
    ensures i < |masters| && s in Alloc.Allotment(slotCount, |masters|, i)
  {
    Alloc.BoundaryEnds(slotCount, |masters|);
    SomeAllotment(slotCount, |masters|, s, |masters|);
    var i: nat :| i < |masters| && s in Alloc.Allotment(slotCount, |masters|, i);
    i
  }

  lemma AllotmentSize(slotCount: nat, n: nat, i: nat)
    requires 0 < n <= slotCount && i < n
    ensures EvenShare(|Alloc.Allotment(slotCount, n, i)|, slotCount, n) && NoDup(Alloc.Allotment(slotCount, n, i))
    ensures forall s :: s in Alloc.Allotment(slotCount, n, i) ==> s < slotCount
  {
    hide Alloc.Boundary;
    Alloc.BoundaryPartition(slotCount, n, i);
    Alloc.BoundaryMonotone(slotCount, n, i + 1, n);
  }

  /** What AllocSlots does comes to just that. */
  lemma AllServed(ids: map<Addr, NodeID>, before: seq<seq<SlotState>>, log: seq<seq<SlotState>>, masters: seq<Node>)
    returns (owner: seq<Addr>)
    requires 0 < |masters| <= |before| && Distinct(masters)
    requires Alloc.AllottedUpTo(ids, before, log, masters, |masters|)
    requires forall i :: 0 <= i < |masters| ==> masters[i].Slots == Alloc.Allotment(|before|, |masters|, i)
    ensures Shared(ids, before, log, masters, owner)
  {
    hide Alloc.Boundary, Alloc.Allotment, Server, Holders, Node.IPPort, EvenShare, NoDup;
    var S, n := |before|, |masters|;
    owner := seq(S, s requires 0 <= s < S => masters[Server(S, masters, s)].IPPort());
    forall s | 0 <= s < S ensures owner[s] in Addrs(masters) && OwnedAlone(ids, before[s], log[s], owner[s]) {
      var i := Server(S, masters, s);
      assert Addrs(masters)[i] == owner[s];
    }
    forall m | m in masters ensures Rebalance.Lists(m, owner) && EvenShare(|m.Slots|, S, n) {
      var i :| 0 <= i < n && masters[i] == m;
      AllotmentSize(S, n, i);
      forall s: Slot ensures s in m.Slots <==> s < S && owner[s] == m.IPPort() {
        if s in m.Slots {
          AllotmentsApart(S, n, i, Server(S, masters, s), s);
        }
      }
    }
  }

  // ----- scaling up

  /** The sizes of the masters' lists before the round. */
  ghost function SizesBefore(masters: seq<Node>, sizes: map<Node, nat>): (lens: seq<nat>)
    requires forall m :: m in masters ==> m in sizes
    ensures |lens| == |masters| && forall j :: 0 <= j < |masters| ==> lens[j] == sizes[masters[j]]
  {
    seq(|masters|, j requires 0 <= j < |masters| => sizes[masters[j]])
  }

  /** Every master has its quota, by as few moves as that takes, and its list holds what it has kept; without a failed
      command every slot is settled. */
  ghost predicate Rebalanced(admin: Admin, masters: seq<Node>, sizes: map<Node, nat>, owner0: seq<Addr>,
                             owner: seq<Addr>, clean: bool)
    reads admin, masters`Slots
  {
    && |owner| == |owner0| && (forall m :: m in masters ==> m in sizes)
    && (forall j :: 0 <= j < |masters| ==>
          multiset(owner)[masters[j].IPPort()] == Balance.Quota(SizesBefore(masters, sizes), |owner0|, j))
    && Rebalance.FewestMoves(masters, owner0, owner)
    && 2 * Changed(owner0, owner) == Sum(Absolute(Balance.Gaps(SizesBefore(masters, sizes), |owner0|)))
    && (forall m :: m in masters ==> Rebalance.Unmoved(m, owner0, owner))
    && (clean ==> Rebalance.AllSettled(admin, owner))
  }

  lemma RebalancedNow(admin: Admin, masters: seq<Node>, sizes: map<Node, nat>, lens: seq<nat>, owner0: seq<Addr>,
                      owner: seq<Addr>, clean: bool)
    requires |owner| == |owner0| && (forall m :: m in masters ==> m in sizes) && |lens| == |masters|
    requires forall j :: 0 <= j < |masters| ==> lens[j] == sizes[masters[j]]
    requires forall j :: 0 <= j < |masters| ==>
      multiset(owner)[masters[j].IPPort()] == Balance.Quota(lens, |owner0|, j)
    requires Rebalance.FewestMoves(masters, owner0, owner)
    requires 2 * Changed(owner0, owner) == Sum(Absolute(Balance.Gaps(lens, |owner0|)))
    requires forall m :: m in masters ==> Rebalance.Unmoved(m, owner0, owner)
    requires clean ==> Rebalance.AllSettled(admin, owner)
    ensures Rebalanced(admin, masters, sizes, owner0, owner, clean)
  {
    hide Balance.Quota, Balance.Gaps, Sum, Absolute, Changed, Rebalance.FewestMoves, Rebalance.Unmoved,
      Rebalance.AllSettled, Node.IPPort;
    assert lens == SizesBefore(masters, sizes);
  }

  /** A hand-over has been broken off on the way there. */
  ghost predicate BrokenOff(admin: Admin, masters: seq<Node>, sizes: map<Node, nat>, owner0: seq<Addr>,
                            owner: seq<Addr>, first: bool)
    reads admin, masters`Slots
  {
    && (forall m :: m in masters ==> m in sizes) && Rebalance.Halted(admin, masters, owner0, owner, first)
    && Rebalance.PartWay(masters, SizesBefore(masters, sizes), |owner0|, owner)
  }

  lemma BrokenOffNow(admin: Admin, masters: seq<Node>, sizes: map<Node, nat>, lens: seq<nat>, owner0: seq<Addr>,
                     owner: seq<Addr>, first: bool)
    requires (forall m :: m in masters ==> m in sizes) && |lens| == |masters|
    requires forall j :: 0 <= j < |masters| ==> lens[j] == sizes[masters[j]]
    requires Rebalance.Halted(admin, masters, owner0, owner, first)
    requires Rebalance.PartWay(masters, lens, |owner0|, owner)
    ensures BrokenOff(admin, masters, sizes, owner0, owner, first)
  {
    hide Rebalance.Halted, Rebalance.PartWay;
    assert lens == SizesBefore(masters, sizes);
  }

  // ----- scaling down

  /** The slots that were with a node and still are. */
  ghost function Stayed(before: map<Slot, Node>, after: map<Slot, Node>, m: Node): set<Slot> {
    set s | s in before && before[s] == m && s in after && after[s] == m
  }

  /** Every chosen master has kept up to its share of the slots it had. */
  ghost predicate StayedPut(masters: seq<Node>, sizes: map<Node, nat>, before: map<Slot, Node>, after: map<Slot, Node>,
                            nbSlots: nat)
    requires masters != []
  {
    forall m :: m in masters ==>
      m in sizes && Min(Migration.ShareUp(nbSlots, |masters|), sizes[m]) <= |Stayed(before, after, m)|
  }

  lemma StayedNow(masters: seq<Node>, keepers: map<Node, seq<Slot>>, sizes: map<Node, nat>, before: map<Slot, Node>,
                  after: map<Slot, Node>, nbSlots: nat)
    requires masters != [] && Dispatch.Keeping(keepers, before) && Dispatch.Keeping(keepers, after)
    requires forall m :: m in masters ==> m in keepers && m in sizes && NoDup(keepers[m])
    requires forall m :: m in masters ==> |keepers[m]| == Min(Migration.ShareUp(nbSlots, |masters|), sizes[m])
    ensures StayedPut(masters, sizes, before, after, nbSlots)
  {
    hide NoDup, Migration.ShareUp;
    forall m | m in masters
      ensures m in sizes && Min(Migration.ShareUp(nbSlots, |masters|), sizes[m]) <= |Stayed(before, after, m)|
    {
      NoDupCard(keepers[m]);
      assert ToSet(keepers[m]) <= Stayed(before, after, m);
      SubsetSize(ToSet(keepers[m]), Stayed(before, after, m));
    }
  }

  lemma SubsetSize<T>(a: set<T>, b: set<T>)
    requires a <= b
    ensures |a| <= |b|
  {
    assert b == a + (b - a);
  }

  /** The nodes of the statefulsets from index hi - 1 down to lo, in the order they are forgotten in. */
  ghost function Departing(groups: map<string, seq<Node>>, clusterName: string, lo: nat, hi: nat): seq<Node> {
    if hi <= lo then []
    else Listed(groups, ClusterStatefulSetName(clusterName, hi - 1)) + Departing(groups, clusterName, lo, hi - 1)
  }

  /** The nodes of the statefulsets from index lo up to, not including, hi. */
  ghost function NodesOfRange(groups: map<string, seq<Node>>, clusterName: string, lo: nat, hi: nat): (r: set<Node>)
    ensures forall i, n :: lo <= i < hi && n in Listed(groups, ClusterStatefulSetName(clusterName, i)) ==> n in r
  {
    set i, n | lo <= i < hi && n in Listed(groups, ClusterStatefulSetName(clusterName, i)) :: n
  }

  lemma {:induction false} DepartingNodes(groups: map<string, seq<Node>>, clusterName: string, lo: nat, hi: nat)
    ensures ToSet(Departing(groups, clusterName, lo, hi)) == NodesOfRange(groups, clusterName, lo, hi)
  {
    hide ClusterStatefulSetName;
    if lo < hi {
      DepartingNodes(groups, clusterName, lo, hi - 1);
      var last := Listed(groups, ClusterStatefulSetName(clusterName, hi - 1));
      assert NodesOfRange(groups, clusterName, lo, hi) == NodesOfRange(groups, clusterName, lo, hi - 1) + ToSet(last);
    }
  }

  lemma DepartingNone(groups: map<string, seq<Node>>, clusterName: string, lo: nat)
    ensures Departing(groups, clusterName, lo, lo) == []
  {
  }

  lemma DepartingNext(groups: map<string, seq<Node>>, clusterName: string, lo: nat, i: nat)
    requires lo < i
    ensures Departing(groups, clusterName, lo, i) ==
      Listed(groups, ClusterStatefulSetName(clusterName, i - 1)) + Departing(groups, clusterName, lo, i - 1)
  {
    hide ClusterStatefulSetName;
  }
}
