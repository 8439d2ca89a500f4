/** Choosing masters and placing slaves: pkg/controller/clustering/placement_v2.go. */
module Placement {
  import opened Slots
  import opened Nodes
  import opened Redis
  import opened Roles
  import opened Choice
  import Decimal

  const UNKNOWN_VM_NAME := "unknown"

  /** The name of the i-th statefulset of a cluster (pkg/resources/statefulsets/statefulset.go). */
  function ClusterStatefulSetName(clusterName: string, i: nat): string {
    "drc-" + clusterName + "-" + Decimal.Format(i)
  }

  /** Different statefulsets of a cluster have different names. */
  lemma StatefulSetNamesDiffer(clusterName: string, i: nat, j: nat)
    requires ClusterStatefulSetName(clusterName, i) == ClusterStatefulSetName(clusterName, j)
    ensures i == j
  {
    var prefix := "drc-" + clusterName + "-";
    assert (prefix + Decimal.Format(i))[|prefix|..] == Decimal.Format(i);
    assert (prefix + Decimal.Format(j))[|prefix|..] == Decimal.Format(j);
    Decimal.FormatInjective(i, j);
  }

  lemma StatefulSetNameForm()
    ensures ClusterStatefulSetName("test", 0) == "drc-test-0" && ClusterStatefulSetName("test", 12) == "drc-test-12"
  {
    assert Decimal.Format(1) == "1";
  }

  /** The names of the first n statefulsets of a cluster. */
  ghost function StatefulSetNames(clusterName: string, n: nat): set<string> {
    set i | 0 <= i < n :: ClusterStatefulSetName(clusterName, i)
  }

  lemma NoNames(clusterName: string)
    ensures StatefulSetNames(clusterName, 0) == {}
  {
  }

  lemma NextName(clusterName: string, i: nat)
    ensures ClusterStatefulSetName(clusterName, i) !in StatefulSetNames(clusterName, i)
    ensures StatefulSetNames(clusterName, i + 1) ==
      StatefulSetNames(clusterName, i) + {ClusterStatefulSetName(clusterName, i)}
  {
    hide ClusterStatefulSetName;
    forall j | 0 <= j < i ensures ClusterStatefulSetName(clusterName, j) != ClusterStatefulSetName(clusterName, i) {
      if ClusterStatefulSetName(clusterName, j) == ClusterStatefulSetName(clusterName, i) {
        StatefulSetNamesDiffer(clusterName, j, i);
      }
    }
  }

  /** The masters of the first i statefulsets: each is picked with the slot owners and the masters picked before it in
      mind. */
  ghost function Choices(groups: map<string, seq<Node>>, holders: set<Node>, machine: map<Node, string>,
                         clusterName: string, i: nat): map<string, Node>
  {
    if i == 0 then map[]
    else
      var prev, ss := Choices(groups, holders, machine, clusterName, i - 1), ClusterStatefulSetName(clusterName, i - 1);
      if Listed(groups, ss) == [] then prev
      else prev[ss := Pick(groups[ss], holders, machine, holders + prev.Values)]
  }

  /** For some of these statefulsets a machine had to be shared. */
  ghost predicate Compromised(groups: map<string, seq<Node>>, holders: set<Node>, machine: map<Node, string>,
                              clusterName: string, i: nat)
  {
    i > 0 &&
    var prev, ss := Choices(groups, holders, machine, clusterName, i - 1), ClusterStatefulSetName(clusterName, i - 1);
    || Compromised(groups, holders, machine, clusterName, i - 1)
    || (Listed(groups, ss) != [] && Compromise(groups[ss], holders, machine, holders + prev.Values))
  }

  lemma NoChoice(groups: map<string, seq<Node>>, holders: set<Node>, machine: map<Node, string>, clusterName: string)
    ensures Choices(groups, holders, machine, clusterName, 0) == map[]
    ensures !Compromised(groups, holders, machine, clusterName, 0)
  {
  }

  lemma NextChoice(groups: map<string, seq<Node>>, holders: set<Node>, machine: map<Node, string>, clusterName: string,
                   i: nat)
    requires Listed(groups, ClusterStatefulSetName(clusterName, i)) != []
    ensures var prev, ss := Choices(groups, holders, machine, clusterName, i), ClusterStatefulSetName(clusterName, i);
      Choices(groups, holders, machine, clusterName, i + 1) ==
      prev[ss := Pick(groups[ss], holders, machine, holders + prev.Values)]
    ensures var prev, ss := Choices(groups, holders, machine, clusterName, i), ClusterStatefulSetName(clusterName, i);
      Compromised(groups, holders, machine, clusterName, i + 1) <==>
        Compromised(groups, holders, machine, clusterName, i) ||
        Compromise(groups[ss], holders, machine, holders + prev.Values)
  {
    hide Pick, Compromise, ClusterStatefulSetName;
  }

  lemma {:induction false} NamesCard(clusterName: string, n: nat)
    ensures |StatefulSetNames(clusterName, n)| == n
  {
    if n > 0 {
      NextName(clusterName, n - 1);
      NamesCard(clusterName, n - 1);
    }
  }

  lemma {:induction false} ValuesCard(chosen: map<string, Node>, keys: set<string>)
    requires keys <= chosen.Keys
    requires forall ss, tt :: ss in chosen && tt in chosen && ss != tt ==> chosen[ss] != chosen[tt]
    ensures |set ss | ss in keys :: chosen[ss]| == |keys|
  {
    if keys != {} {
      var k :| k in keys;
      ValuesCard(chosen, keys - {k});
      assert (set ss | ss in keys :: chosen[ss]) == (set ss | ss in keys - {k} :: chosen[ss]) + {chosen[k]};
    }
  }

  /** The statefulset a node is grouped under. */
  function StatefulSetOf(n: Node): string
    reads n`StatefulSet
  {
    if n.StatefulSet != "" then n.StatefulSet else UNKNOWN_VM_NAME
  }

  /** newRedisCluster's map answers with the nodes themselves. */
  ghost predicate Indexes(cluster: map<NodeID, Node>, nodes: seq<Node>) {
    forall n :: n in nodes && n.ID in cluster ==> cluster[n.ID] == n
  }

  /** The node is to be made a slave of `m`. */
  predicate Needs(n: Node, m: Node)
    reads n
  {
    n.IP != m.IP && !(n.GetRole() == RoleSlave && n.MasterReferent == m.ID)
  }

  /** The nodes of a group that still have to be attached to its master, in order. */
  function ToAttach(group: seq<Node>, m: Node): (r: seq<Node>)
    reads group
    ensures forall n :: n in r ==> n in group && n.IP != m.IP
    ensures forall n :: n in r && n.GetRole() == RoleSlave ==> n.MasterReferent != m.ID
    ensures forall n :: n in group && n.IP != m.IP && n !in r ==> n.GetRole() == RoleSlave && n.MasterReferent == m.ID
    ensures NoDup(group) ==> NoDup(r)
  {
    if group == [] then []
    else
      var init, last := group[..|group| - 1], group[|group| - 1];
      assert group == init + [last];
      ToAttach(init, m) + (if Needs(last, m) then [last] else [])
  }

  /** All nodes of the group but the master are on the master's k8s node. */
  ghost predicate SameMachine(group: seq<Node>, m: Node)
    reads group, m
  {
    forall n :: n in group && n.IP != m.IP ==> n.NodeName == m.NodeName
  }

  /** `more` appended to the list of one key; an empty list leaves no trace. */
  function Appended(m: map<NodeID, seq<Node>>, id: NodeID, more: seq<Node>): map<NodeID, seq<Node>> {
    if more == [] then m else m[id := Listed(m, id) + more]
  }

  lemma AppendedStep(m: map<NodeID, seq<Node>>, id: NodeID, more: seq<Node>, n: Node)
    ensures Appended(m, id, more + [n]) == Appended(m, id, more)[id := Listed(Appended(m, id, more), id) + [n]]
  {
    assert Listed(m, id) + (more + [n]) == Listed(m, id) + more + [n];
    assert more == [] ==> more + [n] == [n];
    if more != [] {
      var grown := Listed(m, id) + more;
      assert m[id := grown][id := grown + [n]] == m[id := grown + [n]];
    }
  }

  lemma AttachStep(group: seq<Node>, i: nat, m: Node)
    requires i < |group|
    ensures ToAttach(group[..i + 1], m) ==
      if Needs(group[i], m) then ToAttach(group[..i], m) + [group[i]] else ToAttach(group[..i], m)
    ensures SameMachine(group[..i + 1], m) <==>
      SameMachine(group[..i], m) && (group[i].IP != m.IP ==> group[i].NodeName == m.NodeName)
  {
    assert group[..i + 1] == group[..i] + [group[i]] && group[..i + 1][..i] == group[..i];
  }

  class Ctx {
    const expectedMasterNum: nat
    const clusterName: string
    const cluster: map<NodeID, Node>  // cluster.Nodes
    var nodes: map<string, seq<Node>>
    var currentMasters: seq<Node>
    var newMastersBySts: map<string, Node>
    var slavesByMaster: map<NodeID, seq<Node>>
    var bestEffort: bool

    ghost function AllNodes(): set<Node>
      reads this`nodes
    {
      set ss, n | ss in nodes && n in nodes[ss] :: n
    }

    /** Every group is a non-empty list of different nodes of one statefulset. */
    ghost predicate Grouped()
      reads this`nodes, AllNodes()`StatefulSet
    {
      && (forall ss :: ss in nodes ==> nodes[ss] != [] && NoDup(nodes[ss]))
      && (forall ss, n :: ss in nodes && n in nodes[ss] ==> StatefulSetOf(n) == ss)
    }

    /** The known nodes of a statefulset, in order. */
    ghost function OfStatefulSet(all: seq<Node>, ss: string): seq<Node>
      reads all`StatefulSet
    {
      if all == [] then []
      else
        var n := all[|all| - 1];
        OfStatefulSet(all[..|all| - 1], ss) + (if n.ID in cluster && StatefulSetOf(n) == ss then [n] else [])
    }

    /** The groups hold exactly the known nodes, each in the group of its statefulset, in order. */
    ghost predicate GroupsOf(all: seq<Node>, groups: map<string, seq<Node>>)
      reads all
    {
      && (forall ss :: Listed(groups, ss) == OfStatefulSet(all, ss))
      && (forall ss :: ss in groups ==> groups[ss] != [] && NoDup(groups[ss]))
      && (forall ss, n :: ss in groups && n in groups[ss] ==> n in all && n.ID in cluster && StatefulSetOf(n) == ss)
      && (forall n :: n in all && n.ID in cluster ==> n in Listed(groups, StatefulSetOf(n)))
    }

    /** The list holds exactly the known masters with slots. */
    ghost predicate MastersOf(all: seq<Node>, masters: seq<Node>)
      reads all
    {
      && (forall n :: n in masters ==> n in all && n.ID in cluster && n.IsMasterWithSlot())
      && (forall n :: n in all && n.ID in cluster && n.IsMasterWithSlot() ==> n in masters)
    }

    /** NewCtx */
    constructor (cluster: map<NodeID, Node>, nodes: seq<Node>, masterNum: nat, clusterName: string)
      requires NoDup(nodes) && Indexes(cluster, nodes)
      ensures this.cluster == cluster && expectedMasterNum == masterNum && this.clusterName == clusterName
      ensures GroupsOf(nodes, this.nodes) && MastersOf(nodes, currentMasters) && NoDup(currentMasters) && Grouped()
      ensures newMastersBySts == map[] && slavesByMaster == map[] && !bestEffort
    {
      this.cluster, this.clusterName, expectedMasterNum := cluster, clusterName, masterNum;
      this.nodes, currentMasters := map[], [];
      newMastersBySts, slavesByMaster, bestEffort := map[], map[], false;
      new;
      var groups := SortRedisNodeByStatefulSet(nodes);
      this.nodes := groups;
    }

    method SortRedisNodeByStatefulSet(all: seq<Node>) returns (nodesByStatefulSet: map<string, seq<Node>>)
      requires NoDup(all) && Indexes(cluster, all) && currentMasters == []
      modifies this`currentMasters
      ensures GroupsOf(all, nodesByStatefulSet) && MastersOf(all, currentMasters) && NoDup(currentMasters)
    {
      hide GroupsOf, MastersOf, NoDup;
      nodesByStatefulSet := map[];
      NothingSorted();
      assert all[..0] == [];
      for i := 0 to |all|
        invariant GroupsOf(all[..i], nodesByStatefulSet)
        invariant MastersOf(all[..i], currentMasters) && NoDup(currentMasters)
      {
        var rNode := all[i];
        assert all[..i + 1] == all[..i] + [rNode];
        NoDupNext(all, i);
        MasterAdded(all[..i], currentMasters, rNode);
        GroupAdded(all[..i], nodesByStatefulSet, rNode);
        if rNode.ID !in cluster {
          continue;
        }
        var cNode := cluster[rNode.ID];
        ghost var before := nodesByStatefulSet;
        var ssName := UNKNOWN_VM_NAME;
        if cNode.StatefulSet != "" {
          ssName := cNode.StatefulSet;
        }
        if ssName !in nodesByStatefulSet {
          nodesByStatefulSet := nodesByStatefulSet[ssName := []];
        }
        nodesByStatefulSet := nodesByStatefulSet[ssName := nodesByStatefulSet[ssName] + [rNode]];
        assert nodesByStatefulSet == before[ssName := Listed(before, ssName) + [rNode]];
        if rNode.GetRole() == RoleMaster && rNode.TotalSlots() > 0 {
          currentMasters := currentMasters + [rNode];
        }
      }
      assert all[..|all|] == all;
    }

    lemma NothingSorted()
      ensures GroupsOf([], map[]) && MastersOf([], []) && NoDup<Node>([])
    {
    }

    lemma GroupAdded(all: seq<Node>, groups: map<string, seq<Node>>, n: Node)
      requires GroupsOf(all, groups) && n !in all
      ensures n.ID !in cluster ==> GroupsOf(all + [n], groups)
      ensures n.ID in cluster ==>
        GroupsOf(all + [n], groups[StatefulSetOf(n) := Listed(groups, StatefulSetOf(n)) + [n]])
    {
      hide OfStatefulSet;
      var ss := StatefulSetOf(n);
      assert n !in Listed(groups, ss);
      var groups' := groups[ss := Listed(groups, ss) + [n]];
      forall tt
        ensures n.ID !in cluster ==> Listed(groups, tt) == OfStatefulSet(all + [n], tt)
        ensures n.ID in cluster ==> Listed(groups', tt) == OfStatefulSet(all + [n], tt)
      {
        OneMore(all, n, tt);
        assert Listed(groups, tt) == OfStatefulSet(all, tt);
      }
    }

    lemma OneMore(all: seq<Node>, n: Node, ss: string)
      ensures OfStatefulSet(all + [n], ss) ==
        OfStatefulSet(all, ss) + (if n.ID in cluster && StatefulSetOf(n) == ss then [n] else [])
    {
      assert (all + [n])[..|all|] == all;
    }

    lemma MasterAdded(all: seq<Node>, masters: seq<Node>, n: Node)
      requires MastersOf(all, masters)
      ensures MastersOf(all + [n], if n.ID in cluster && n.IsMasterWithSlot() then masters + [n] else masters)
      ensures n !in all && NoDup(masters) ==> NoDup(masters + [n])
    {
    }

    /** The masters that are taken into account when a new one is chosen. */
    ghost function Chosen(): set<Node>
      reads this`currentMasters, this`newMastersBySts
    {
      (set n | n in currentMasters) + newMastersBySts.Values
    }

    ghost predicate Taken(name: string)
      reads this`currentMasters, this`newMastersBySts, Chosen()`NodeName
    {
      exists m :: m in Chosen() && m.NodeName == name
    }

    /** Every node of the group is on a k8s node that has a master already. */
    ghost predicate Crowded(group: seq<Node>)
      reads this`currentMasters, this`newMastersBySts, Chosen()`NodeName, group`NodeName
    {
      forall c :: c in group ==> Taken(c.NodeName)
    }

    /** The i-th node of the group is the first on a k8s node without a master. */
    ghost predicate FirstFree(group: seq<Node>, i: nat)
      reads this`currentMasters, this`newMastersBySts, Chosen()`NodeName, group`NodeName
    {
      i < |group| && !Taken(group[i].NodeName) && forall k :: 0 <= k < i ==> Taken(group[k].NodeName)
    }

    /** PlaceMasters: the first node of the group whose k8s node has no master yet; failing that, the first node. */
    method PlaceMasters(ssName: string) returns (node: Node)
      requires ssName in nodes && nodes[ssName] != []
      modifies this`bestEffort
      ensures node in nodes[ssName]
      ensures if Crowded(nodes[ssName]) then node == nodes[ssName][0]
              else exists i :: 0 <= i < |nodes[ssName]| && node == nodes[ssName][i] && FirstFree(nodes[ssName], i)
      ensures bestEffort <==> old(bestEffort) || Crowded(nodes[ssName])
      ensures !bestEffort ==> !Taken(node.NodeName)
    {
      var allMasters := currentMasters;
      var rest := newMastersBySts.Keys;
      while rest != {}
        invariant rest <= newMastersBySts.Keys && bestEffort == old(bestEffort)
        invariant forall m :: m in allMasters <==>
          m in currentMasters || exists k :: k in newMastersBySts && k !in rest && newMastersBySts[k] == m
        decreases rest
      {
        var k :| k in rest;
        allMasters := allMasters + [newMastersBySts[k]];
        rest := rest - {k};
      }
      assert forall m :: m in allMasters <==> m in Chosen();
      var group := nodes[ssName];
      for i := 0 to |group|
        invariant bestEffort == old(bestEffort)
        invariant forall c :: c in group[..i] ==> Taken(c.NodeName)
      {
        var cNode := group[i];
        var found := HasNodeName(allMasters, cNode.NodeName);
        if !found {
          assert cNode in group && !Taken(cNode.NodeName);
          assert !Crowded(group);
          assert FirstFree(group, i);
          return cNode;
        }
      }
      assert group[..|group|] == group;
      bestEffort := true;
      return group[0];
    }

    /** The nodes the choice depends on, as plain values: which of them own slots, and on which machine each is. */
    ghost predicate Described(holders: set<Node>, machine: map<Node, string>)
      reads this`nodes, this`currentMasters, AllNodes(), currentMasters
    {
      && holders == (set n | n in currentMasters)
      && (forall ss, n :: ss in nodes && n in nodes[ss] ==> n in machine && machine[n] == n.NodeName)
      && (forall ss, n :: ss in nodes && n in nodes[ss] ==> (n in holders <==> n.IsMasterWithSlot()))
      && (forall n :: n in currentMasters ==> n in machine && machine[n] == n.NodeName)
    }

    /** The node PlaceMasters takes is the one to be picked. */
    lemma Picked(group: seq<Node>, holders: set<Node>, machine: map<Node, string>, node: Node)
      requires group != [] && forall n :: n in group ==> n !in holders && n in machine && machine[n] == n.NodeName
      requires forall m :: m in Chosen() ==> m in machine && machine[m] == m.NodeName
      requires if Crowded(group) then node == group[0]
               else exists i :: 0 <= i < |group| && node == group[i] && FirstFree(group, i)
      ensures node == Pick(group, holders, machine, Chosen())
      ensures Crowded(group) <==> Compromise(group, holders, machine, Chosen())
    {
      var free := Free(group, machine, Chosen());
      NoFirst(group, holders);
      forall n | n in group ensures n in free <==> !Taken(n.NodeName) {
      }
      assert free == {} <==> forall n :: n in group ==> n !in free;
      if Crowded(group) {
        NoFirst(group, free);
      } else {
        var i :| 0 <= i < |group| && node == group[i] && FirstFree(group, i);
        FirstIs(group, free, i);
      }
    }

    /** Every master with slots in a group is in the list of current masters, and that list has no other nodes. */
    ghost predicate MastersListed()
      reads this`nodes, this`currentMasters, AllNodes(), currentMasters
    {
      && (forall ss, n :: ss in nodes && n in nodes[ss] && n.IsMasterWithSlot() ==> n in currentMasters)
      && (forall n :: n in currentMasters ==> n.IsMasterWithSlot())
    }

    /** The chosen master of a statefulset is one of its nodes, and the slot holder if there is one. */
    ghost predicate RightMaster(ss: string, m: Node)
      reads this`nodes, AllNodes()
    {
      ss in nodes && m in nodes[ss] && forall x :: x in nodes[ss] && x.IsMasterWithSlot() ==> x == m
    }

    /** A statefulset can be given a master if it is known and has no two slot holders. */
    ghost predicate Dispatchable(ss: string)
      reads this`nodes, AllNodes()
    {
      ss in nodes &&
      forall x, y :: x in nodes[ss] && y in nodes[ss] && x.IsMasterWithSlot() && y.IsMasterWithSlot() ==> x == y
    }

    /** Every newly chosen master is on a k8s node without any other master, old or new. */
    ghost predicate Spread()
      reads this`newMastersBySts, this`currentMasters, newMastersBySts.Values, currentMasters
    {
      SpreadOut(newMastersBySts.Values + (set n | n in currentMasters), newMastersBySts, currentMasters)
    }

    lemma NotTaken(m: Node)
      requires !Taken(m.NodeName)
      ensures forall c :: c in currentMasters ==> c.NodeName != m.NodeName
      ensures forall tt :: tt in newMastersBySts ==> newMastersBySts[tt].NodeName != m.NodeName
    {
      forall tt | tt in newMastersBySts ensures newMastersBySts[tt] in Chosen() {
      }
    }

    lemma ChosenDescribed(holders: set<Node>, machine: map<Node, string>)
      requires Described(holders, machine) && newMastersBySts.Values <= AllNodes()
      ensures Chosen() == holders + newMastersBySts.Values
      ensures forall m :: m in Chosen() ==> m in machine && machine[m] == m.NodeName
    {
    }

    lemma OwnerPicked(ss: string, holders: set<Node>, machine: map<Node, string>, owners: seq<Node>)
      requires ss in nodes && nodes[ss] != [] && Described(holders, machine) && |owners| == 1
      requires forall n :: n in owners <==> n in nodes[ss] && n.IsMasterWithSlot()
      ensures forall masters :: Pick(nodes[ss], holders, machine, masters) == owners[0]
      ensures forall masters :: !Compromise(nodes[ss], holders, machine, masters)
      ensures owners[0] in currentMasters
    {
      hide Node.IsMasterWithSlot;
      assert owners[0] in owners && forall x :: x in owners ==> x == owners[0];
    }

    lemma NewcomerPicked(ss: string, holders: set<Node>, machine: map<Node, string>, owners: seq<Node>, node: Node)
      requires ss in nodes && nodes[ss] != [] && Described(holders, machine) && owners == []
      requires newMastersBySts.Values <= AllNodes()
      requires forall n :: n in owners <==> n in nodes[ss] && n.IsMasterWithSlot()
      requires if Crowded(nodes[ss]) then node == nodes[ss][0]
               else exists i :: 0 <= i < |nodes[ss]| && node == nodes[ss][i] && FirstFree(nodes[ss], i)
      ensures node == Pick(nodes[ss], holders, machine, holders + newMastersBySts.Values)
      ensures Crowded(nodes[ss]) <==> Compromise(nodes[ss], holders, machine, holders + newMastersBySts.Values)
    {
      hide Node.IsMasterWithSlot, Pick, Compromise, Crowded, FirstFree;
      ChosenDescribed(holders, machine);
      Picked(nodes[ss], holders, machine, node);
    }

    /** What the list of slot owners of a group tells. */
    lemma OwnersListed(ss: string, owners: seq<Node>)
      requires ss in nodes && NoDup(owners) && forall n :: n in owners <==> n in nodes[ss] && n.IsMasterWithSlot()
      ensures Dispatchable(ss) <==> |owners| <= 1
      ensures |owners| == 1 ==> RightMaster(ss, owners[0])
      ensures |owners| == 0 ==> forall m :: m in nodes[ss] ==> RightMaster(ss, m)
    {
      hide Node.IsMasterWithSlot;
      if |owners| > 1 {
        assert owners[0] != owners[1] && owners[0] in owners && owners[1] in owners;
      } else if |owners| == 1 {
        assert owners[0] in owners && forall x :: x in owners ==> x == owners[0];
      }
    }

    lemma NewcomerSpread(ss: string, m: Node)
      requires !Taken(m.NodeName) && !m.IsMasterWithSlot() && ss !in newMastersBySts && Spread()
      ensures SpreadOut(newMastersBySts[ss := m].Values + (set n | n in currentMasters), newMastersBySts[ss := m],
                        currentMasters)
    {
      hide Taken, SpreadOut;
      NotTaken(m);
      SpreadStep(newMastersBySts, currentMasters, ss, m);
    }

    lemma OwnerSpread(ss: string, m: Node)
      requires m in currentMasters && m.IsMasterWithSlot() && ss !in newMastersBySts && Spread()
      ensures SpreadOut(newMastersBySts[ss := m].Values + (set n | n in currentMasters), newMastersBySts[ss := m],
                        currentMasters)
    {
      hide SpreadOut;
      SpreadStep(newMastersBySts, currentMasters, ss, m);
    }

    /** The body of the loop. */
    method DispatchOne(stsName: string, ghost holders: set<Node>, ghost machine: map<Node, string>) returns (ok: bool)
      requires Grouped() && stsName !in newMastersBySts && Described(holders, machine)
      requires newMastersBySts.Values <= AllNodes()
      modifies this`newMastersBySts, this`bestEffort
      ensures ok <==> Dispatchable(stsName)
      ensures ok ==> var prev := old(newMastersBySts);
        newMastersBySts == prev[stsName := Pick(nodes[stsName], holders, machine, holders + prev.Values)]
      ensures ok ==> stsName in nodes && newMastersBySts[stsName] in nodes[stsName]
      ensures ok ==> RightMaster(stsName, newMastersBySts[stsName])
      ensures ok && !bestEffort && old(Spread()) ==> Spread()
      ensures ok ==> var masters := holders + old(newMastersBySts).Values;
        bestEffort <==> old(bestEffort) || Compromise(nodes[stsName], holders, machine, masters)
    {
      hide StatefulSetOf, Node.IsMasterWithSlot, Taken, SpreadOut, Described, Dispatchable, RightMaster, Pick,
        Compromise, Crowded, NoDup;
      if stsName !in nodes {
        NotDispatchable(stsName);
        return false;
      }
      var currentMasterNodes := FilterMastersWithSlot(nodes[stsName]);
      OwnersListed(stsName, currentMasterNodes);
      if |currentMasterNodes| == 0 {
        var master := PlaceMasters(stsName);
        NewcomerPicked(stsName, holders, machine, currentMasterNodes, master);
        assert master !in currentMasterNodes;
        if !bestEffort && old(Spread()) {
          NewcomerSpread(stsName, master);
        }
        newMastersBySts := newMastersBySts[stsName := master];
      } else if |currentMasterNodes| == 1 {
        OwnerPicked(stsName, holders, machine, currentMasterNodes);
        assert currentMasterNodes[0] in currentMasterNodes && currentMasterNodes[0] in nodes[stsName];
        if old(Spread()) {
          OwnerSpread(stsName, currentMasterNodes[0]);
        }
        newMastersBySts := newMastersBySts[stsName := currentMasterNodes[0]];
      } else if |currentMasterNodes| > 1 {
        return false;
      }
      return true;
    }

    lemma NotDispatchable(ss: string)
      requires ss !in nodes
      ensures !Dispatchable(ss)
    {
    }

    /** DispatchMasters succeeds exactly when every expected statefulset is known and has at most one slot holder.  Then
        every statefulset has one master of its own, a slot holder is never displaced, and unless a machine had to be
        shared, which bestEffort tells, every new master is alone on its k8s node.  The choice is a function of the
        groups, in their order, the slot holders and the machines. */
    method DispatchMasters(ghost holders: set<Node>, ghost machine: map<Node, string>) returns (ok: bool)
      requires Grouped() && MastersListed() && newMastersBySts == map[] && !bestEffort && Described(holders, machine)
      modifies this`newMastersBySts, this`bestEffort
      ensures ok <==> forall i :: 0 <= i < expectedMasterNum ==> Dispatchable(ClusterStatefulSetName(clusterName, i))
      ensures ok ==> newMastersBySts.Keys == StatefulSetNames(clusterName, expectedMasterNum)
      ensures ok ==> forall ss :: ss in newMastersBySts ==> RightMaster(ss, newMastersBySts[ss])
      ensures ok ==> newMastersBySts == Choices(nodes, holders, machine, clusterName, expectedMasterNum)
      ensures ok ==> (bestEffort <==> Compromised(nodes, holders, machine, clusterName, expectedMasterNum))
      ensures ok && !bestEffort ==> Spread()
    {
      hide Grouped, MastersListed, Spread, Described, Dispatchable, RightMaster, Pick, Choices, Compromise, Compromised,
        ClusterStatefulSetName, StatefulSetNames;
      NoNames(clusterName);
      NothingSpread();
      NoChoice(nodes, holders, machine, clusterName);
      for i := 0 to expectedMasterNum
        invariant forall j :: 0 <= j < i ==> Dispatchable(ClusterStatefulSetName(clusterName, j))
        invariant Grouped() && MastersListed()
        invariant newMastersBySts.Keys == StatefulSetNames(clusterName, i)
        invariant forall ss :: ss in newMastersBySts ==> RightMaster(ss, newMastersBySts[ss])
        invariant newMastersBySts == Choices(nodes, holders, machine, clusterName, i)
        invariant newMastersBySts.Values <= AllNodes() && Described(holders, machine)
        invariant bestEffort <==> Compromised(nodes, holders, machine, clusterName, i)
        invariant !bestEffort ==> Spread()
      {
        var stsName := ClusterStatefulSetName(clusterName, i);
        NextName(clusterName, i);
        ok := DispatchOne(stsName, holders, machine);
        if !ok {
          return false;
        }
        NextChoice(nodes, holders, machine, clusterName, i);
        InAll(stsName, newMastersBySts[stsName]);
      }
      return true;
    }

    lemma InAll(ss: string, n: Node)
      requires ss in nodes && n in nodes[ss]
      ensures n in AllNodes()
    {
    }

    lemma NothingSpread()
      ensures newMastersBySts == map[] ==> Spread()
    {
    }

    /** GetNewMasters, in any order. */
    method GetNewMasters() returns (newMasters: seq<Node>)
      ensures |newMasters| == |newMastersBySts| && ToSet(newMasters) == newMastersBySts.Values
    {
      newMasters := [];
      var rest := newMastersBySts.Keys;
      while rest != {}
        invariant rest <= newMastersBySts.Keys && |newMasters| + |rest| == |newMastersBySts.Keys|
        invariant forall m :: m in newMasters ==> m in newMastersBySts.Values
        invariant forall ss :: ss in newMastersBySts && ss !in rest ==> newMastersBySts[ss] in newMasters
        decreases rest
      {
        var ss :| ss in rest;
        newMasters := newMasters + [newMastersBySts[ss]];
        rest := rest - {ss};
      }
    }

    /** PlaceSlaves, for any order of the groups: under every master's id exactly those nodes of its own statefulset
        that are neither the master nor its slave already.  A statefulset without a chosen master is a nil pointer in
        the source, so it panics exactly when there is one. */
    method PlaceSlaves() returns (panicked: bool)
      requires DifferentMasters(newMastersBySts) && slavesByMaster == map[]
      requires forall ss :: ss in nodes ==> nodes[ss] != []
      modifies this`slavesByMaster, this`bestEffort
      ensures panicked <==> !(nodes.Keys <= newMastersBySts.Keys)
      ensures !panicked ==> SlavesPlaced(nodes, newMastersBySts, slavesByMaster)
      ensures !panicked ==> (bestEffort <==> forall ss :: ss in nodes ==> SameMachine(nodes[ss], newMastersBySts[ss]))
    {
      hide ToAttach, DifferentMasters, NodesIn, SameMachine;
      slavesByMaster, bestEffort, panicked := PlaceGroups(nodes, newMastersBySts, slavesByMaster);
    }

    /** AttachingSlavesToMaster, for any order of the masters: unless a command fails, every slave listed under a
        known master follows that master; and each was sent one command, whatever became of the others. */
    method AttachingSlavesToMaster(admin: Admin) returns (ok: bool, ghost asked: seq<Node>)
      requires Attachable(slavesByMaster, cluster)
      modifies admin`replicaOf, admin`attached, admin`failures
      modifies NodesIn(slavesByMaster)`Role, NodesIn(slavesByMaster)`MasterReferent
      ensures admin.failures >= old(admin.failures) && (ok <==> admin.failures == old(admin.failures))
      ensures ok ==> AllFollow(admin.replicaOf, slavesByMaster, cluster)
      ensures Tried(old(admin.attached), admin.attached, admin.failures - old(admin.failures), asked)
      ensures OthersKept(old(admin.replicaOf), admin.replicaOf, asked)
      ensures ok ==> LeadersLed(admin.ids, old(admin.replicaOf), slavesByMaster, cluster, {}, asked)
      ensures NoDup(asked) && AskedOf(asked, slavesByMaster, cluster, {})
    {
      ok, asked := AttachAll(admin, slavesByMaster, cluster);
    }

    /** PlaceSlaves and AttachingSlavesToMaster, as the branches of syncCluster call them. Unless a command fails, every
        node that is not the master of its statefulset follows that master; and whatever fails, exactly the nodes that
        did not follow it before are sent a command, each once.  No chosen master is attached. A chosen
        master that is a replica stays one, and then the others had been following it before, for Redis would have
        refused to attach them to it. */
    method AttachSlaves(admin: Admin) returns (panicked: bool, ok: bool, ghost asked: seq<Node>)
      requires WellGrouped(nodes, newMastersBySts, cluster) && slavesByMaster == map[]
      requires RecordsAgree(admin.replicaOf, NodesIn(nodes))
      modifies this`slavesByMaster, this`bestEffort, admin`replicaOf, admin`attached, admin`failures
      modifies NodesIn(nodes)`Role, NodesIn(nodes)`MasterReferent
      ensures panicked <==> !(nodes.Keys <= newMastersBySts.Keys)
      ensures panicked ==> !ok && admin.replicaOf == old(admin.replicaOf) && admin.failures == old(admin.failures)
      ensures panicked ==> admin.attached == old(admin.attached)
      ensures admin.failures >= old(admin.failures) && (!panicked ==> (ok <==> admin.failures == old(admin.failures)))
      ensures ok ==> InPlace(admin.replicaOf, nodes, newMastersBySts)
      ensures ok ==> SameFollowers(old(admin.replicaOf), admin.replicaOf, newMastersBySts.Values)
      ensures ok ==> LedBefore(admin.ids, old(admin.replicaOf), nodes, newMastersBySts)
      ensures !panicked ==> Asks(old(admin.replicaOf), nodes, newMastersBySts, asked)
      ensures !panicked ==> Tried(old(admin.attached), admin.attached, admin.failures - old(admin.failures), asked)
      ensures !panicked ==> OthersKept(old(admin.replicaOf), admin.replicaOf, asked)
      ensures NoDup(asked) && forall ss :: ss in newMastersBySts ==> newMastersBySts[ss] !in asked
    {
      hide WellGrouped, SlavesPlaced, InPlace, NoDup, Addrs, SameFollowers, LedBefore, Recorded, Asks, Tried,
        OthersKept, Node.IPPort;
      MastersDiffer(nodes, newMastersBySts, cluster);
      ghost var scope := NodesIn(nodes);
      assert RecordsAgree(admin.replicaOf, scope);
      panicked := PlaceSlaves();
      if panicked {
        ok, asked := false, [];
        NobodyTwice();
        return;
      }
      assert RecordsAgree(admin.replicaOf, scope);
      PlacedAttachable(nodes, newMastersBySts, cluster, slavesByMaster);
      ok, asked := AttachPlaced(admin);
    }

    /** The second step, once the slaves have been placed. */
    method AttachPlaced(admin: Admin) returns (ok: bool, ghost asked: seq<Node>)
      requires nodes.Keys <= newMastersBySts.Keys && WellGrouped(nodes, newMastersBySts, cluster)
      requires SlavesPlaced(nodes, newMastersBySts, slavesByMaster) && RecordsAgree(admin.replicaOf, NodesIn(nodes))
      modifies admin`replicaOf, admin`attached, admin`failures
      modifies NodesIn(slavesByMaster)`Role, NodesIn(slavesByMaster)`MasterReferent
      ensures admin.failures >= old(admin.failures) && (ok <==> admin.failures == old(admin.failures))
      ensures ok ==> InPlace(admin.replicaOf, nodes, newMastersBySts)
      ensures ok ==> SameFollowers(old(admin.replicaOf), admin.replicaOf, newMastersBySts.Values)
      ensures ok ==> LedBefore(admin.ids, old(admin.replicaOf), nodes, newMastersBySts)
      ensures Asks(old(admin.replicaOf), nodes, newMastersBySts, asked)
      ensures Tried(old(admin.attached), admin.attached, admin.failures - old(admin.failures), asked)
      ensures OthersKept(old(admin.replicaOf), admin.replicaOf, asked)
      ensures NoDup(asked) && forall ss :: ss in newMastersBySts ==> newMastersBySts[ss] !in asked
    {
      hide WellGrouped, SlavesPlaced, Attachable, AllFollow, AskedOf, InPlace, NoDup, Addrs, NodesIn, OthersKept,
        LeadersLed, SameFollowers, NewlyLed, LedBefore, KeptReplicate, Follows, Asks, Tried, Wanted, RecordsAgree,
        Node.IPPort;
      MastersDiffer(nodes, newMastersBySts, cluster);
      PlacedAttachable(nodes, newMastersBySts, cluster, slavesByMaster);
      ghost var kept := NodesIn(nodes) - NodesIn(slavesByMaster);
      FollowAlready(admin.replicaOf, nodes, newMastersBySts, cluster, slavesByMaster);
      ListsWanted(admin.replicaOf, nodes, newMastersBySts, cluster, slavesByMaster);
      ghost var before := admin.replicaOf;
      ok, asked := AttachingSlavesToMaster(admin);
      AskedNodes(asked, slavesByMaster, cluster);
      AsksWanted(before, nodes, newMastersBySts, cluster, slavesByMaster, asked);
      if ok {
        StillFollow(before, admin.replicaOf, asked, kept, nodes, newMastersBySts, cluster, slavesByMaster);
        AllInPlace(admin.replicaOf, nodes, newMastersBySts, cluster, slavesByMaster);
        MastersKept(before, admin.replicaOf, asked, nodes, newMastersBySts, cluster, slavesByMaster);
        OnlyMastersLed(admin.ids, before, asked, nodes, newMastersBySts, cluster, slavesByMaster);
        RestLedBefore(admin.ids, before, asked, nodes, newMastersBySts, cluster, slavesByMaster);
      }
    }
  }

  lemma NobodyTwice()
    ensures NoDup<Node>([])
  {
  }

  /** Every newly chosen master is on a k8s node without any other master, old or new. */
  ghost predicate SpreadOut(scope: set<Node>, chosen: map<string, Node>, current: seq<Node>)
    requires chosen.Values <= scope && (set n | n in current) <= scope
    reads scope
  {
    && (forall ss, c :: ss in chosen && !chosen[ss].IsMasterWithSlot() && c in current ==>
          c.NodeName != chosen[ss].NodeName)
    && (forall ss, tt :: ss in chosen && tt in chosen && ss != tt && !chosen[ss].IsMasterWithSlot() ==>
          chosen[tt].NodeName != chosen[ss].NodeName)
  }

  lemma SpreadStep(chosen: map<string, Node>, current: seq<Node>, ss: string, m: Node)
    requires ss !in chosen
    requires if m.IsMasterWithSlot() then m in current
             else
               && (forall c :: c in current ==> c.NodeName != m.NodeName)
               && (forall tt :: tt in chosen ==> chosen[tt].NodeName != m.NodeName)
    requires SpreadOut(chosen.Values + (set n | n in current), chosen, current)
    ensures SpreadOut(chosen[ss := m].Values + (set n | n in current), chosen[ss := m], current)
  {
    hide Node.IsMasterWithSlot;
  }

  /** The masters chosen for different statefulsets have different ids. */
  ghost predicate DifferentMasters(chosen: map<string, Node>) {
    forall ss, tt :: ss in chosen && tt in chosen && ss != tt ==> chosen[ss].ID != chosen[tt].ID
  }

  /** Under every chosen master's id there are exactly the nodes of its group that have to be attached. */
  ghost predicate SlavesPlaced(groups: map<string, seq<Node>>, chosen: map<string, Node>,
                               slaves: map<NodeID, seq<Node>>)
    requires groups.Keys <= chosen.Keys
    reads NodesIn(groups)
  {
    && (forall ss :: ss in groups ==> Listed(slaves, chosen[ss].ID) == ToAttach(groups[ss], chosen[ss]))
    && (forall id :: id in slaves ==> exists ss :: ss in groups && chosen[ss].ID == id)
  }

  /** What PlaceSlaves is going to find for each statefulset, as plain values. */
  ghost predicate Forecast(scope: set<Node>, groups: map<string, seq<Node>>, chosen: map<string, Node>,
    want: map<string, seq<Node>>, ids: map<string, NodeID>, same: map<string, bool>)
    reads scope
  {
    && groups.Keys <= chosen.Keys
    && (forall ss :: ss in groups ==> ToSet(groups[ss]) <= scope && chosen[ss] in scope)
    && want.Keys == ids.Keys == same.Keys == groups.Keys
    && (forall ss :: ss in groups ==> want[ss] == ToAttach(groups[ss], chosen[ss]))
    && (forall ss :: ss in groups ==> ids[ss] == chosen[ss].ID)
    && (forall ss :: ss in groups ==> (same[ss] <==> SameMachine(groups[ss], chosen[ss])))
  }

  lemma MakeForecast(groups: map<string, seq<Node>>, chosen: map<string, Node>)
    returns (scope: set<Node>, want: map<string, seq<Node>>, ids: map<string, NodeID>, same: map<string, bool>)
    requires groups.Keys <= chosen.Keys && DifferentMasters(chosen)
    ensures Forecast(scope, groups, chosen, want, ids, same) && Placed(map[], want, ids, groups.Keys)
    ensures same.Keys == groups.Keys
  {
    hide ToAttach, SameMachine, Placed, Forecast;
    scope := NodesIn(groups) + chosen.Values;
    want := map ss | ss in groups :: ToAttach(groups[ss], chosen[ss]);
    ids := map ss | ss in groups :: chosen[ss].ID;
    same := map ss | ss in groups :: SameMachine(groups[ss], chosen[ss]);
    InScope(groups, chosen);
    AsForecast(scope, groups, chosen, want, ids, same);
    assert want.Keys == ids.Keys == groups.Keys;
    NothingPlaced(want, ids);
  }

  lemma InScope(groups: map<string, seq<Node>>, chosen: map<string, Node>)
    requires groups.Keys <= chosen.Keys
    ensures forall ss :: ss in groups ==>
      ToSet(groups[ss]) <= NodesIn(groups) + chosen.Values && chosen[ss] in NodesIn(groups) + chosen.Values
  {
  }

  lemma AsForecast(scope: set<Node>, groups: map<string, seq<Node>>, chosen: map<string, Node>,
    want: map<string, seq<Node>>, ids: map<string, NodeID>, same: map<string, bool>)
    requires groups.Keys <= chosen.Keys
    requires forall ss :: ss in groups ==> ToSet(groups[ss]) <= scope && chosen[ss] in scope
    requires want == map ss | ss in groups :: ToAttach(groups[ss], chosen[ss])
    requires ids == map ss | ss in groups :: chosen[ss].ID
    requires same == map ss | ss in groups :: SameMachine(groups[ss], chosen[ss])
    ensures Forecast(scope, groups, chosen, want, ids, same)
  {
    hide ToAttach, SameMachine;
  }

  lemma NothingPlaced(want: map<string, seq<Node>>, ids: map<string, NodeID>)
    requires want.Keys == ids.Keys
    requires forall ss, tt :: ss in ids && tt in ids && ss != tt ==> ids[ss] != ids[tt]
    ensures Placed(map[], want, ids, want.Keys)
  {
  }

  lemma ForecastComesTrue(scope: set<Node>, groups: map<string, seq<Node>>, chosen: map<string, Node>,
    want: map<string, seq<Node>>, ids: map<string, NodeID>, same: map<string, bool>, slaves: map<NodeID, seq<Node>>)
    requires Forecast(scope, groups, chosen, want, ids, same)
    ensures groups.Keys <= chosen.Keys
    ensures Placed(slaves, want, ids, {}) ==> SlavesPlaced(groups, chosen, slaves)
    ensures (forall ss :: ss in same ==> same[ss]) <==> forall ss :: ss in groups ==>
      SameMachine(groups[ss], chosen[ss])
  {
    hide ToAttach, SameMachine;
  }

  lemma ForecastOf(scope: set<Node>, groups: map<string, seq<Node>>, chosen: map<string, Node>,
    want: map<string, seq<Node>>, ids: map<string, NodeID>, same: map<string, bool>, ss: string)
    requires Forecast(scope, groups, chosen, want, ids, same) && ss in groups
    ensures want.Keys == ids.Keys == same.Keys == groups.Keys
    ensures want[ss] == ToAttach(groups[ss], chosen[ss]) && ids[ss] == chosen[ss].ID
    ensures same[ss] <==> SameMachine(groups[ss], chosen[ss])
  {
    hide ToAttach, SameMachine;
  }

  /** The outer loop of PlaceSlaves. */
  method PlaceGroups(groups: map<string, seq<Node>>, chosen: map<string, Node>, slavesIn: map<NodeID, seq<Node>>)
    returns (slavesByMaster: map<NodeID, seq<Node>>, bestEffort: bool, panicked: bool)
    requires DifferentMasters(chosen) && slavesIn == map[] && forall ss :: ss in groups ==> groups[ss] != []
    ensures panicked <==> !(groups.Keys <= chosen.Keys)
    ensures !panicked ==> SlavesPlaced(groups, chosen, slavesByMaster)
    ensures !panicked ==> (bestEffort <==> forall ss :: ss in groups ==> SameMachine(groups[ss], chosen[ss]))
  {
    hide ToAttach, SameMachine, Appended, Placed, Forecast, SlavesPlaced, DifferentMasters, NodesIn;
    ghost var complete := groups.Keys <= chosen.Keys;
    ghost var scope: set<Node>, want: map<string, seq<Node>>, ids: map<string, NodeID>, same: map<string, bool> :=
      {}, map[], map[], map[];
    if complete {
      scope, want, ids, same := MakeForecast(groups, chosen);
    }
    slavesByMaster, bestEffort, panicked := slavesIn, true, false;
    var rest := groups.Keys;
    while rest != {}
      invariant rest <= groups.Keys && groups.Keys - rest <= chosen.Keys
      invariant complete ==> Forecast(scope, groups, chosen, want, ids, same) && Placed(slavesByMaster, want, ids, rest)
      invariant complete ==> (bestEffort <==> forall ss :: ss in same && ss !in rest ==> same[ss])
      decreases rest
    {
      var ssName :| ssName in rest;
      if ssName !in chosen {
        return slavesByMaster, bestEffort, true;
      }
      if complete {
        ForecastOf(scope, groups, chosen, want, ids, same, ssName);
        PlacedStep(slavesByMaster, want, ids, rest, ssName);
      }
      slavesByMaster, bestEffort := PlaceGroup(groups[ssName], chosen[ssName], slavesByMaster, bestEffort);
      rest := rest - {ssName};
    }
    assert groups.Keys - {} == groups.Keys;
    ForecastComesTrue(scope, groups, chosen, want, ids, same, slavesByMaster);
  }

  /** The inner loop of PlaceSlaves. */
  method PlaceGroup(group: seq<Node>, master: Node, slavesIn: map<NodeID, seq<Node>>, bestEffortIn: bool)
    returns (slavesByMaster: map<NodeID, seq<Node>>, bestEffort: bool)
    ensures slavesByMaster == Appended(slavesIn, master.ID, ToAttach(group, master))
    ensures bestEffort <==> bestEffortIn && SameMachine(group, master)
  {
    hide Appended, ToAttach, SameMachine;
    slavesByMaster, bestEffort := slavesIn, bestEffortIn;
    AppendedNothing(slavesIn, master.ID);
    assert group[..0] == [];
    AttachNothing(master);
    for i := 0 to |group|
      invariant slavesByMaster == Appended(slavesIn, master.ID, ToAttach(group[..i], master))
      invariant bestEffort <==> bestEffortIn && SameMachine(group[..i], master)
    {
      var node := group[i];
      AttachStep(group, i, master);
      AppendedStep(slavesIn, master.ID, ToAttach(group[..i], master), node);
      if node.IP == master.IP {
        continue;
      }
      if node.NodeName != master.NodeName {
        bestEffort := false;
      }
      if node.GetRole() == RoleSlave {
        if node.MasterReferent != master.ID {
          slavesByMaster := slavesByMaster[master.ID := Listed(slavesByMaster, master.ID) + [node]];
        }
        continue;
      }
      slavesByMaster := slavesByMaster[master.ID := Listed(slavesByMaster, master.ID) + [node]];
    }
    assert group[..|group|] == group;
  }

  // ----- placement and attachment together

  predicate Apart(n: Node, m: Node) {
    n.ID != m.ID && n.IP != m.IP && n.IPPort() != m.IPPort()
  }

  /** Every chosen master is of its own statefulset, and ids and addresses tell all nodes apart. */
  ghost predicate WellGrouped(groups: map<string, seq<Node>>, chosen: map<string, Node>, cluster: map<NodeID, Node>) {
    && chosen.Keys <= groups.Keys
    && (forall ss :: ss in groups ==> groups[ss] != [] && NoDup(groups[ss]))
    && (forall ss :: ss in chosen ==> chosen[ss] in groups[ss])
    && (forall ss, tt, n :: ss in groups && tt in groups && n in groups[ss] && n in groups[tt] ==> ss == tt)
    && (forall n, m :: n in NodesIn(groups) && m in NodesIn(groups) && n != m ==> Apart(n, m))
    && (forall n :: n in NodesIn(groups) ==> n.ID in cluster)
    && (forall id :: id in cluster ==> cluster[id].ID == id && id != "-" && id != "")
  }

  /** The operator's records agree with the cluster about who replicates whom. */
  ghost predicate RecordsAgree(replicaOf: map<Addr, NodeID>, nodes: set<Node>)
    reads nodes`Role, nodes`MasterReferent
  {
    forall n :: n in nodes ==> if n.IPPort() in replicaOf then Recorded(n, replicaOf[n.IPPort()])
                               else n.Role == MASTER_ROLE && n.MasterReferent == ""
  }

  /** Every node but the chosen master of its statefulset follows that master. */
  ghost predicate InPlace(replicaOf: map<Addr, NodeID>, groups: map<string, seq<Node>>, chosen: map<string, Node>)
    requires groups.Keys <= chosen.Keys
    reads NodesIn(groups)
  {
    forall ss, n :: ss in groups && n in groups[ss] && n != chosen[ss] ==> Follows(replicaOf, n, chosen[ss].ID)
  }

  /** The same, as the cluster sees it. */
  ghost predicate ReplicasPlaced(replicaOf: map<Addr, NodeID>, groups: map<string, seq<Node>>,
                                 chosen: map<string, Node>)
  {
    && groups.Keys <= chosen.Keys
    && (forall ss, n :: ss in groups && n in groups[ss] && n != chosen[ss] ==> Replicates(replicaOf, n, chosen[ss].ID))
  }

  lemma MastersDiffer(groups: map<string, seq<Node>>, chosen: map<string, Node>, cluster: map<NodeID, Node>)
    requires WellGrouped(groups, chosen, cluster)
    ensures DifferentMasters(chosen) && chosen.Keys <= groups.Keys && forall ss :: ss in groups ==> groups[ss] != []
  {
    hide NoDup;
    forall ss, tt | ss in chosen && tt in chosen && ss != tt ensures chosen[ss].ID != chosen[tt].ID {
      assert chosen[ss] in groups[ss] && chosen[tt] in groups[tt];
      assert chosen[ss] != chosen[tt] && Apart(chosen[ss], chosen[tt]);
    }
  }

  /** A node listed under some master is one of that master's statefulset that needs attaching. */
  lemma ListedNode(groups: map<string, seq<Node>>, chosen: map<string, Node>, cluster: map<NodeID, Node>,
                   slaves: map<NodeID, seq<Node>>, id: NodeID) returns (ss: string)
    requires groups.Keys <= chosen.Keys && WellGrouped(groups, chosen, cluster) && SlavesPlaced(groups, chosen, slaves)
    requires id in slaves
    ensures ss in groups && chosen[ss].ID == id && slaves[id] == ToAttach(groups[ss], chosen[ss]) && NoDup(slaves[id])
    ensures forall n :: n in slaves[id] ==> n in groups[ss] && n in NodesIn(groups) && n != chosen[ss]
  {
    ss :| ss in groups && chosen[ss].ID == id;
    assert Listed(slaves, chosen[ss].ID) == ToAttach(groups[ss], chosen[ss]);
  }

  lemma PlacedAttachable(groups: map<string, seq<Node>>, chosen: map<string, Node>, cluster: map<NodeID, Node>,
                         slaves: map<NodeID, seq<Node>>)
    requires groups.Keys <= chosen.Keys && WellGrouped(groups, chosen, cluster) && SlavesPlaced(groups, chosen, slaves)
    ensures Attachable(slaves, cluster) && NodesIn(slaves) <= NodesIn(groups)
    ensures forall ss :: ss in groups ==> chosen[ss] !in NodesIn(slaves)
    ensures forall id :: id in slaves ==>
      exists ss :: ss in groups && chosen[ss].ID == id && forall n :: n in slaves[id] ==> n in groups[ss]
  {
    hide ToAttach, Needs, SlavesPlaced, NoDup, Node.IPPort;
    forall id | id in slaves
      ensures NoDup(slaves[id])
      ensures (forall n :: n in slaves[id] ==> n in NodesIn(groups) && forall ss :: ss in groups ==> n != chosen[ss])
      ensures exists ss :: ss in groups && chosen[ss].ID == id && forall n :: n in slaves[id] ==> n in groups[ss]
    {
      var ss := ListedNode(groups, chosen, cluster, slaves, id);
    }
    forall id, di, n | id in slaves && di in slaves && n in slaves[id] && n in slaves[di] ensures id == di {
      var ss := ListedNode(groups, chosen, cluster, slaves, id);
      var tt := ListedNode(groups, chosen, cluster, slaves, di);
    }
    forall id, di, n, m | id in slaves && di in slaves && n in slaves[id] && m in slaves[di] && n != m
      ensures n.IPPort() != m.IPPort()
    {
      assert Apart(n, m);
    }
  }

  /** The nodes outside the lists follow their masters already. */
  ghost predicate KeptFollow(kept: set<Node>, replicaOf: map<Addr, NodeID>, groups: map<string, seq<Node>>,
                             chosen: map<string, Node>)
    requires groups.Keys <= chosen.Keys
    reads kept
  {
    forall ss, n :: ss in groups && n in groups[ss] && n != chosen[ss] && n in kept ==>
      Follows(replicaOf, n, chosen[ss].ID)
  }

  ghost predicate KeptReplicate(kept: set<Node>, replicaOf: map<Addr, NodeID>, groups: map<string, seq<Node>>,
                                chosen: map<string, Node>)
    requires groups.Keys <= chosen.Keys
  {
    forall ss, n :: ss in groups && n in groups[ss] && n != chosen[ss] && n in kept ==>
      Replicates(replicaOf, n, chosen[ss].ID)
  }

  lemma FollowAlready(replicaOf: map<Addr, NodeID>, groups: map<string, seq<Node>>, chosen: map<string, Node>,
                      cluster: map<NodeID, Node>, slaves: map<NodeID, seq<Node>>)
    requires groups.Keys <= chosen.Keys && WellGrouped(groups, chosen, cluster) && SlavesPlaced(groups, chosen, slaves)
    requires RecordsAgree(replicaOf, NodesIn(groups))
    ensures KeptFollow(NodesIn(groups) - NodesIn(slaves), replicaOf, groups, chosen)
    ensures KeptReplicate(NodesIn(groups) - NodesIn(slaves), replicaOf, groups, chosen)
  {
    hide ToAttach, NoDup, Node.IPPort;
    forall ss, n | ss in groups && n in groups[ss] && n != chosen[ss] && n in NodesIn(groups) - NodesIn(slaves)
      ensures Follows(replicaOf, n, chosen[ss].ID)
    {
      assert Apart(n, chosen[ss]);
      assert n !in Listed(slaves, chosen[ss].ID);
      assert !Needs(n, chosen[ss]);
    }
  }

  /** Listed are those nodes that neither are the chosen master of their statefulset nor replicate it. */
  ghost predicate Wanted(replicaOf: map<Addr, NodeID>, groups: map<string, seq<Node>>, chosen: map<string, Node>,
                         slaves: map<NodeID, seq<Node>>) {
    && (forall id :: id in slaves ==> exists ss :: ss in groups && ss in chosen && chosen[ss].ID == id)
    && (forall ss, n :: ss in groups && ss in chosen && n in Listed(slaves, chosen[ss].ID) ==> n in groups[ss])
    && (forall ss, n :: ss in groups && ss in chosen && n in groups[ss] ==>
          (n in Listed(slaves, chosen[ss].ID) <==> n != chosen[ss] && !Replicates(replicaOf, n, chosen[ss].ID)))
  }

  lemma ListsWanted(replicaOf: map<Addr, NodeID>, groups: map<string, seq<Node>>, chosen: map<string, Node>,
                    cluster: map<NodeID, Node>, slaves: map<NodeID, seq<Node>>)
    requires groups.Keys <= chosen.Keys && WellGrouped(groups, chosen, cluster) && SlavesPlaced(groups, chosen, slaves)
    requires RecordsAgree(replicaOf, NodesIn(groups))
    ensures Wanted(replicaOf, groups, chosen, slaves)
  {
    hide ToAttach, NoDup, Apart, WellGrouped, RecordsAgree, Node.IPPort, Replicates;
    forall ss, n | ss in groups && ss in chosen && n in groups[ss]
      ensures n in Listed(slaves, chosen[ss].ID) <==> n != chosen[ss] && !Replicates(replicaOf, n, chosen[ss].ID)
    {
      InListWanted(replicaOf, groups, chosen, cluster, ss, n);
    }
  }

  lemma InListWanted(replicaOf: map<Addr, NodeID>, groups: map<string, seq<Node>>, chosen: map<string, Node>,
                     cluster: map<NodeID, Node>, ss: string, n: Node)
    requires WellGrouped(groups, chosen, cluster) && RecordsAgree(replicaOf, NodesIn(groups))
    requires ss in groups && ss in chosen && n in groups[ss]
    ensures n in ToAttach(groups[ss], chosen[ss]) <==>
      n != chosen[ss] && !Replicates(replicaOf, n, chosen[ss].ID)
  {
    hide ToAttach, NoDup, Node.IPPort;
    var m := chosen[ss];
    assert n in NodesIn(groups) && m in NodesIn(groups);
    assert m.ID in cluster && cluster[m.ID].ID == m.ID && m.ID != "";
    assert n != m ==> Apart(n, m);
  }

  /** Exactly those nodes have been told. */
  ghost predicate Asks(replicaOf: map<Addr, NodeID>, groups: map<string, seq<Node>>, chosen: map<string, Node>,
                       asked: seq<Node>) {
    && (forall n :: n in asked ==> n in NodesIn(groups))
    && (forall ss, n :: ss in groups && ss in chosen && n in groups[ss] ==>
          (n in asked <==> n != chosen[ss] && !Replicates(replicaOf, n, chosen[ss].ID)))
  }

  lemma AsksWanted(replicaOf: map<Addr, NodeID>, groups: map<string, seq<Node>>, chosen: map<string, Node>,
                   cluster: map<NodeID, Node>, slaves: map<NodeID, seq<Node>>, asked: seq<Node>)
    requires groups.Keys <= chosen.Keys && WellGrouped(groups, chosen, cluster)
    requires Wanted(replicaOf, groups, chosen, slaves) && AskedOf(asked, slaves, cluster, {})
    ensures Asks(replicaOf, groups, chosen, asked)
  {
    hide NoDup, Node.IPPort, Replicates, Apart;
    forall n | n in asked ensures n in NodesIn(groups) {
      var id :| id in slaves && id in cluster && n in slaves[id];
      var ss :| ss in groups && ss in chosen && chosen[ss].ID == id;
      assert n in Listed(slaves, chosen[ss].ID);
    }
    forall ss, n | ss in groups && ss in chosen && n in groups[ss]
      ensures n in asked <==> n in Listed(slaves, chosen[ss].ID)
    {
      assert chosen[ss] in NodesIn(groups);
      if n in asked {
        var id :| id in slaves && id in cluster && n in slaves[id];
        var tt :| tt in groups && tt in chosen && chosen[tt].ID == id;
        assert n in Listed(slaves, chosen[tt].ID);
      }
    }
  }

  lemma AskedNodes(asked: seq<Node>, slaves: map<NodeID, seq<Node>>, cluster: map<NodeID, Node>)
    requires AskedOf(asked, slaves, cluster, {})
    ensures forall n :: n in asked ==> n in NodesIn(slaves)
  {
  }

  lemma StillFollow(before: map<Addr, NodeID>, after: map<Addr, NodeID>, asked: seq<Node>, kept: set<Node>,
                    groups: map<string, seq<Node>>,
                    chosen: map<string, Node>, cluster: map<NodeID, Node>, slaves: map<NodeID, seq<Node>>)
    requires groups.Keys <= chosen.Keys && WellGrouped(groups, chosen, cluster) && OthersKept(before, after, asked)
    requires KeptFollow(kept, before, groups, chosen)
    requires kept == NodesIn(groups) - NodesIn(slaves) && NodesIn(slaves) <= NodesIn(groups)
    requires forall n :: n in asked ==> n in NodesIn(slaves)
    ensures KeptFollow(kept, after, groups, chosen)
  {
    hide NoDup, Node.IPPort;
    forall ss, n | ss in groups && n in groups[ss] && n != chosen[ss] && n in kept
      ensures Follows(after, n, chosen[ss].ID)
    {
      forall m | m in asked ensures m.IPPort() != n.IPPort() {
        assert Apart(n, m);
      }
      assert n.IPPort() !in Addrs(asked);
    }
  }

  lemma MastersKept(before: map<Addr, NodeID>, after: map<Addr, NodeID>, asked: seq<Node>,
                    groups: map<string, seq<Node>>,
                    chosen: map<string, Node>, cluster: map<NodeID, Node>, slaves: map<NodeID, seq<Node>>)
    requires groups.Keys <= chosen.Keys && WellGrouped(groups, chosen, cluster) && OthersKept(before, after, asked)
    requires NodesIn(slaves) <= NodesIn(groups) && forall n :: n in asked ==> n in NodesIn(slaves)
    requires forall ss :: ss in groups ==> chosen[ss] !in NodesIn(slaves)
    ensures SameFollowers(before, after, chosen.Values)
  {
    hide NoDup, Node.IPPort;
    forall ss | ss in chosen ensures chosen[ss].IPPort() !in Addrs(asked) {
      MasterNotAsked(asked, groups, chosen, cluster, slaves, ss);
    }
  }

  lemma MasterNotAsked(asked: seq<Node>, groups: map<string, seq<Node>>, chosen: map<string, Node>,
                       cluster: map<NodeID, Node>, slaves: map<NodeID, seq<Node>>, ss: string)
    requires groups.Keys <= chosen.Keys && WellGrouped(groups, chosen, cluster) && ss in chosen
    requires NodesIn(slaves) <= NodesIn(groups) && forall n :: n in asked ==> n in NodesIn(slaves)
    requires forall tt :: tt in groups ==> chosen[tt] !in NodesIn(slaves)
    ensures chosen[ss].IPPort() !in Addrs(asked)
  {
    hide NoDup, Node.IPPort;
    assert chosen[ss] in groups[ss];
    forall m | m in asked ensures m.IPPort() != chosen[ss].IPPort() {
      assert Apart(chosen[ss], m);
    }
  }

  /** These nodes are replicas now exactly when they were before. */
  ghost predicate SameFollowers(before: map<Addr, NodeID>, after: map<Addr, NodeID>, nodes: set<Node>) {
    forall n :: n in nodes ==> (n.IPPort() in after <==> n.IPPort() in before)
  }

  /** No node of a statefulset was attached whose chosen master is a replica. */
  ghost predicate NewlyLed(ids: map<Addr, NodeID>, replicaOf: map<Addr, NodeID>, groups: map<string, seq<Node>>,
                           chosen: map<string, Node>, asked: seq<Node>) {
    forall ss, n :: ss in chosen && ss in groups && n in groups[ss] && n in asked ==>
      chosen[ss].IPPort() in ids && ids[chosen[ss].IPPort()] == chosen[ss].ID ==> chosen[ss].IPPort() !in replicaOf
  }

  lemma OnlyMastersLed(ids: map<Addr, NodeID>, before: map<Addr, NodeID>, asked: seq<Node>,
                       groups: map<string, seq<Node>>,
                       chosen: map<string, Node>, cluster: map<NodeID, Node>, slaves: map<NodeID, seq<Node>>)
    requires groups.Keys <= chosen.Keys && WellGrouped(groups, chosen, cluster)
    requires LeadersLed(ids, before, slaves, cluster, {}, asked) && AskedOf(asked, slaves, cluster, {})
    requires NodesIn(slaves) <= NodesIn(groups) && forall n :: n in asked ==> n in NodesIn(slaves)
    requires forall ss :: ss in groups ==> chosen[ss] !in NodesIn(slaves)
    requires forall id :: id in slaves ==>
      exists ss :: ss in groups && chosen[ss].ID == id && forall n :: n in slaves[id] ==> n in groups[ss]
    ensures NewlyLed(ids, before, groups, chosen, asked)
  {
    hide NoDup, Node.IPPort, Addrs;
    forall ss, n | ss in chosen && ss in groups && n in groups[ss] && n in asked
      ensures chosen[ss].IPPort() in ids && ids[chosen[ss].IPPort()] == chosen[ss].ID ==> chosen[ss].IPPort() !in before
    {
      var id :| id in slaves && id in cluster && n in slaves[id];
      var tt :| tt in groups && chosen[tt].ID == id && forall m :: m in slaves[id] ==> m in groups[tt];
      assert tt == ss;
      MasterNotAsked(asked, groups, chosen, cluster, slaves, ss);
    }
  }

  /** When the chosen master of a statefulset is a replica, the other nodes had all been following it before. */
  ghost predicate LedBefore(ids: map<Addr, NodeID>, replicaOf: map<Addr, NodeID>, groups: map<string, seq<Node>>,
                            chosen: map<string, Node>)
  {
    forall ss, n ::
      ss in chosen && ss in groups && n in groups[ss] && n != chosen[ss] && KnownReplica(ids, replicaOf, chosen[ss]) ==>
        Replicates(replicaOf, n, chosen[ss].ID)
  }

  predicate KnownReplica(ids: map<Addr, NodeID>, replicaOf: map<Addr, NodeID>, n: Node) {
    n.IPPort() in ids && ids[n.IPPort()] == n.ID && n.IPPort() in replicaOf
  }

  lemma RestLedBefore(ids: map<Addr, NodeID>, before: map<Addr, NodeID>, asked: seq<Node>,
                      groups: map<string, seq<Node>>, chosen: map<string, Node>, cluster: map<NodeID, Node>,
                      slaves: map<NodeID, seq<Node>>)
    requires groups.Keys <= chosen.Keys && WellGrouped(groups, chosen, cluster)
    requires NewlyLed(ids, before, groups, chosen, asked) && AskedOf(asked, slaves, cluster, {})
    requires KeptReplicate(NodesIn(groups) - NodesIn(slaves), before, groups, chosen)
    requires forall id :: id in slaves ==>
      exists ss :: ss in groups && chosen[ss].ID == id && forall n :: n in slaves[id] ==> n in groups[ss]
    ensures LedBefore(ids, before, groups, chosen)
  {
    hide NoDup, Node.IPPort, Replicates;
    forall ss, n |
      ss in chosen && ss in groups && n in groups[ss] && n != chosen[ss] && KnownReplica(ids, before, chosen[ss])
      ensures Replicates(before, n, chosen[ss].ID)
    {
      assert n !in asked;
      assert n in NodesIn(groups) - NodesIn(slaves);
    }
  }

  lemma AllInPlace(replicaOf: map<Addr, NodeID>, groups: map<string, seq<Node>>, chosen: map<string, Node>,
                   cluster: map<NodeID, Node>, slaves: map<NodeID, seq<Node>>)
    requires groups.Keys <= chosen.Keys && WellGrouped(groups, chosen, cluster) && AllFollow(replicaOf, slaves, cluster)
    requires KeptFollow(NodesIn(groups) - NodesIn(slaves), replicaOf, groups, chosen)
    requires forall id :: id in slaves ==>
      exists ss :: ss in groups && chosen[ss].ID == id && forall n :: n in slaves[id] ==> n in groups[ss]
    ensures InPlace(replicaOf, groups, chosen)
  {
    hide NoDup, Node.IPPort;
    forall ss, n | ss in groups && n in groups[ss] && n != chosen[ss] ensures Follows(replicaOf, n, chosen[ss].ID) {
      if n in NodesIn(slaves) {
        var id :| id in slaves && n in slaves[id];
        var tt :| tt in groups && chosen[tt].ID == id && forall n :: n in slaves[id] ==> n in groups[tt];
        assert chosen[ss] in NodesIn(groups) && chosen[ss].ID in cluster;
        assert tt == ss;
        assert id in cluster;
        assert Follows(replicaOf, n, id);
        assert Follows(replicaOf, n, chosen[ss].ID);
      } else {
        assert n in NodesIn(groups);
        assert n in NodesIn(groups) - NodesIn(slaves);
        assert Follows(replicaOf, n, chosen[ss].ID);
      }
    }
  }

  /** The groups outside `rest` have been placed. */
  ghost predicate Placed(slaves: map<NodeID, seq<Node>>, want: map<string, seq<Node>>, ids: map<string, NodeID>,
                         rest: set<string>)
  {
    && want.Keys == ids.Keys
    && (forall ss, tt :: ss in ids && tt in ids && ss != tt ==> ids[ss] != ids[tt])
    && (forall ss :: ss in want ==> Listed(slaves, ids[ss]) == if ss in rest then [] else want[ss])
    && (forall id :: id in slaves ==> exists ss :: ss in ids && ids[ss] == id)
  }

  lemma PlacedStep(slaves: map<NodeID, seq<Node>>, want: map<string, seq<Node>>, ids: map<string, NodeID>,
                   rest: set<string>, ss: string)
    requires Placed(slaves, want, ids, rest) && ss in rest && ss in want
    ensures Placed(Appended(slaves, ids[ss], want[ss]), want, ids, rest - {ss})
  {
    var after := Appended(slaves, ids[ss], want[ss]);
    assert Listed(slaves, ids[ss]) == [];
    forall tt | tt in want ensures Listed(after, ids[tt]) == if tt in rest - {ss} then [] else want[tt] {
      assert tt != ss ==> Listed(after, ids[tt]) == Listed(slaves, ids[tt]);
    }
    forall id | id in after ensures exists tt :: tt in ids && ids[tt] == id {
      assert id in slaves || id == ids[ss];
    }
  }

  lemma AttachNothing(m: Node)
    ensures ToAttach([], m) == [] && SameMachine([], m)
  {
  }

  lemma AppendedNothing(m: map<NodeID, seq<Node>>, id: NodeID)
    ensures Appended(m, id, []) == m
  {
  }

  /** FilterByFunc(IsMasterWithSlot) */
  method FilterMastersWithSlot(nodes: seq<Node>) returns (r: seq<Node>)
    ensures forall n :: n in r <==> n in nodes && n.IsMasterWithSlot()
    ensures NoDup(nodes) ==> NoDup(r)
  {
    r := [];
    for i := 0 to |nodes|
      invariant forall n :: n in r <==> n in nodes[..i] && n.IsMasterWithSlot()
      invariant NoDup(nodes) ==> NoDup(r)
    {
      assert nodes[..i + 1] == nodes[..i] + [nodes[i]];
      if nodes[i].IsMasterWithSlot() {
        r := r + [nodes[i]];
      }
    }
    assert nodes[..|nodes|] == nodes;
  }

  /** GetNodesByFunc with the test PlaceMasters uses. */
  method HasNodeName(masters: seq<Node>, name: string) returns (found: bool)
    ensures found <==> exists m :: m in masters && m.NodeName == name
  {
    for i := 0 to |masters|
      invariant forall m :: m in masters[..i] ==> m.NodeName != name
    {
      if masters[i].NodeName == name {
        return true;
      }
    }
    return false;
  }
}
