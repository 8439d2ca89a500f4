/** The planner for clusters whose nodes are not grouped by statefulset: PlaceMasters and sortRedisNodeByVM in
    pkg/controller/clustering/placement.go. */
module VMPlacement {
  import opened Slots
  import opened Sums
  import opened Nodes
  import opened Placement

  function VMName(cNode: Node): string
    reads cNode`NodeName
  {
    if cNode.NodeName != "" then cNode.NodeName else UNKNOWN_VM_NAME
  }

  /** The nodes by the machine the cluster says they run on; unknown nodes are dropped. */
  ghost predicate ByVM(cluster: map<NodeID, Node>, all: seq<Node>, lists: map<string, seq<Node>>)
    reads cluster.Values
  {
    && (forall vm :: vm in lists ==> NoDup(lists[vm]) && lists[vm] != [])
    && (forall vm, n :: vm in lists && n in lists[vm] ==> n in all && n.ID in cluster && VMName(cluster[n.ID]) == vm)
    && (forall n :: n in all && n.ID in cluster ==> n in Listed(lists, VMName(cluster[n.ID])))
  }

  lemma NoneByVM(cluster: map<NodeID, Node>)
    ensures ByVM(cluster, [], map[])
  {
  }

  lemma ByVMStep(cluster: map<NodeID, Node>, all: seq<Node>, lists: map<string, seq<Node>>, n: Node)
    requires ByVM(cluster, all, lists) && n !in all
    ensures n.ID !in cluster ==> ByVM(cluster, all + [n], lists)
    ensures n.ID in cluster ==>
      var vm := VMName(cluster[n.ID]);
      ByVM(cluster, all + [n], lists[vm := Listed(lists, vm) + [n]])
  {
    hide VMName;
    if n.ID in cluster {
      assert n !in Listed(lists, VMName(cluster[n.ID]));
    }
  }

  method SortRedisNodeByVM(cluster: map<NodeID, Node>, nodes: seq<Node>) returns (nodesByVM: map<string, seq<Node>>)
    requires NoDup(nodes)
    ensures ByVM(cluster, nodes, nodesByVM)
    ensures forall vm, n :: vm in nodesByVM && n in nodesByVM[vm] ==>
      n.ID in cluster && vm == if cluster[n.ID].NodeName == "" then "unknown" else cluster[n.ID].NodeName
  {
    hide ByVM, NoDup;
    nodesByVM := map[];
    NoneByVM(cluster);
    assert nodes[..0] == [];
    for i := 0 to |nodes|
      invariant ByVM(cluster, nodes[..i], nodesByVM)
    {
      var rnode := nodes[i];
      assert nodes[..i + 1] == nodes[..i] + [rnode];
      NoDupNext(nodes, i);
      ByVMStep(cluster, nodes[..i], nodesByVM, rnode);
      if rnode.ID !in cluster {
        continue;
      }
      var cnode := cluster[rnode.ID];
      ghost var before := nodesByVM;
      var vmName := UNKNOWN_VM_NAME;
      if cnode.NodeName != "" {
        vmName := cnode.NodeName;
      }
      if vmName !in nodesByVM {
        nodesByVM := nodesByVM[vmName := []];
      }
      nodesByVM := nodesByVM[vmName := nodesByVM[vmName] + [rnode]];
      assert nodesByVM == before[vmName := Listed(before, vmName) + [rnode]];
    }
    assert nodes[..|nodes|] == nodes;
    MachinesNamed(cluster, nodes, nodesByVM);
  }

  lemma MachinesNamed(cluster: map<NodeID, Node>, nodes: seq<Node>, lists: map<string, seq<Node>>)
    requires ByVM(cluster, nodes, lists)
    ensures forall vm, n :: vm in lists && n in lists[vm] ==>
      n.ID in cluster && vm == if cluster[n.ID].NodeName == "" then "unknown" else cluster[n.ID].NodeName
  {
    hide NoDup;
  }

  /** The machine of every node that can be selected. */
  ghost function Machines(cluster: map<NodeID, Node>, possible: seq<Node>): map<Node, string>
    reads cluster.Values
  {
    map n | n in possible && n.ID in cluster :: VMName(cluster[n.ID])
  }

  // ----- the selection, as values

  /** Every selectable node has either been picked or is still listed under its machine, and not both. */
  ghost predicate Accounted(vm: map<Node, string>, lists: map<string, seq<Node>>, picked: seq<Node>) {
    && NoDup(picked) && (forall n :: n in picked ==> n in vm)
    && (forall name :: name in lists ==> NoDup(lists[name]))
    && (forall name, n :: name in lists && n in lists[name] ==> n in vm && vm[n] == name && n !in picked)
    && (forall n :: n in vm && n !in picked ==> n in Listed(lists, vm[n]))
  }

  /** Picking the first node of a machine. */
  lemma PickOne(vm: map<Node, string>, lists: map<string, seq<Node>>, picked: seq<Node>, name: string)
    requires Accounted(vm, lists, picked) && name in lists && lists[name] != []
    ensures Accounted(vm, lists[name := lists[name][1..]], picked + [lists[name][0]]) && lists[name][0] in vm
    ensures vm[lists[name][0]] == name
  {
    hide NoDup;
    var first, rest := lists[name][0], lists[name][1..];
    assert lists[name] == [first] + rest;
    assert first in lists[name] && first !in picked;
    NoDupTail(lists[name]);
    NoDupAppend(picked, first);
    assert forall n :: n in lists[name] <==> n == first || n in rest;
  }

  lemma NoDupTail(s: seq<Node>)
    requires NoDup(s) && s != []
    ensures NoDup(s[1..]) && s[0] !in s[1..]
  {
  }

  lemma NoDupAppend(s: seq<Node>, x: Node)
    requires NoDup(s) && x !in s
    ensures NoDup(s + [x])
  {
  }

  /** The picked nodes are on different machines, none of them taken. */
  ghost predicate OnOwnMachines(vm: map<Node, string>, picked: seq<Node>, taken: set<string>) {
    && (forall n :: n in picked ==> n in vm && vm[n] !in taken)
    && (forall i, j :: 0 <= i < j < |picked| && picked[i] in vm && picked[j] in vm ==> vm[picked[i]] != vm[picked[j]])
  }

  /** No machine has a selectable node left. */
  ghost predicate Exhausted(lists: map<string, seq<Node>>, names: set<string>) {
    forall name :: name in names && name in lists ==> lists[name] == []
  }

  /** The inner loop of PlaceMasters, one pass over the machines in any order. */
  method PlacePass(masterByVM: map<string, seq<Node>>, vmWithAlreadyMaster: set<string>, bestEffort: bool, wanted: nat,
                   picked: seq<Node>, ghost vm: map<Node, string>)
    returns (masterByVM': map<string, seq<Node>>, picked': seq<Node>, isProgress: bool)
    requires Accounted(vm, masterByVM, picked) && |picked| < wanted
    requires !bestEffort ==> picked == [] && forall name :: name in masterByVM ==> masterByVM[name] != []
    ensures !bestEffort ==> |picked'| == Min(wanted, |masterByVM.Keys - vmWithAlreadyMaster|)
    ensures Accounted(vm, masterByVM', picked') && |picked| <= |picked'| <= wanted
    ensures isProgress <==> |picked'| > |picked|
    ensures bestEffort && !isProgress ==> Exhausted(masterByVM', masterByVM'.Keys)
    ensures !bestEffort ==> OnOwnMachines(vm, picked', vmWithAlreadyMaster)
  {
    hide Accounted, NoDup, OnOwnMachines, FirstPass, Exhausted, Drained;
    masterByVM', picked', isProgress := masterByVM, picked, false;
    var rest := masterByVM.Keys;
    ghost var all := rest;
    NothingDrained(masterByVM);
    if !bestEffort {
      FirstPassStart(vm, masterByVM, vmWithAlreadyMaster);
    }
    while rest != {}
      invariant rest <= all == masterByVM'.Keys
      invariant Accounted(vm, masterByVM', picked') && |picked| <= |picked'| < wanted
      invariant isProgress <==> |picked'| > |picked|
      invariant bestEffort && !isProgress ==> Drained(masterByVM', rest)
      invariant !bestEffort ==> FirstPass(vm, masterByVM', all, rest, vmWithAlreadyMaster, picked')
      decreases rest
    {
      var vmName :| vmName in rest;
      ghost var before := rest;
      rest := rest - {vmName};
      if !bestEffort {
        FirstPassStep(vm, masterByVM', all, before, vmWithAlreadyMaster, picked', vmName);
        if vmName in vmWithAlreadyMaster {
          continue;
        }
      }
      var nodes := masterByVM'[vmName];
      if |nodes| == 0 {
        DrainedNext(masterByVM', before, vmName);
        continue;
      }
      PickOne(vm, masterByVM', picked', vmName);
      picked' := picked' + [nodes[0]];
      masterByVM' := masterByVM'[vmName := nodes[1..]];
      isProgress := true;
      if |picked'| >= wanted {
        if !bestEffort {
          FirstPassEnd(vm, masterByVM', all, rest, vmWithAlreadyMaster, picked');
        }
        return;
      }
    }
    DrainedAll(masterByVM');
    if !bestEffort {
      FirstPassEnd(vm, masterByVM', all, rest, vmWithAlreadyMaster, picked');
    }
  }

  /** The pass over the machines without a current master, `rest` of which are still to come: each one seen has given a
      node. */
  ghost predicate FirstPass(vm: map<Node, string>, lists: map<string, seq<Node>>, all: set<string>, rest: set<string>,
                            taken: set<string>, picked: seq<Node>)
  {
    && rest <= all && OnOwnMachines(vm, picked, taken + rest) && FreeSeen(all, rest, taken, |picked|)
    && (forall name :: name in rest ==> name in lists && lists[name] != [])
  }

  lemma FirstPassStart(vm: map<Node, string>, lists: map<string, seq<Node>>, taken: set<string>)
    requires forall name :: name in lists ==> lists[name] != []
    ensures FirstPass(vm, lists, lists.Keys, lists.Keys, taken, [])
  {
    NothingPicked(vm, taken + lists.Keys);
    NoneSeen(lists.Keys, taken);
  }

  lemma FirstPassStep(vm: map<Node, string>, lists: map<string, seq<Node>>, all: set<string>, rest: set<string>,
                      taken: set<string>, picked: seq<Node>, name: string)
    requires FirstPass(vm, lists, all, rest, taken, picked) && name in rest
    ensures name in lists && lists[name] != []
    ensures name in taken ==> FirstPass(vm, lists, all, rest - {name}, taken, picked)
    ensures name !in taken && lists[name][0] in vm && vm[lists[name][0]] == name ==>
      FirstPass(vm, lists[name := lists[name][1..]], all, rest - {name}, taken, picked + [lists[name][0]])
  {
    hide OnOwnMachines, FreeSeen;
    OneMoreSeen(all, rest, taken, name, |picked|);
    FewerTaken(vm, picked, taken + rest, taken + (rest - {name}));
    if name !in taken && lists[name][0] in vm && vm[lists[name][0]] == name {
      OneMoreApart(vm, picked, taken + rest, taken + (rest - {name}), lists[name][0]);
    }
  }

  lemma FirstPassEnd(vm: map<Node, string>, lists: map<string, seq<Node>>, all: set<string>, rest: set<string>,
                     taken: set<string>, picked: seq<Node>)
    requires FirstPass(vm, lists, all, rest, taken, picked)
    ensures OnOwnMachines(vm, picked, taken) && |picked| <= |all - taken| && (rest == {} ==> |picked| == |all - taken|)
  {
    hide OnOwnMachines;
    FewerTaken(vm, picked, taken + rest, taken);
    Subset(all - rest - taken, all - taken);
    if rest == {} {
      AllSeen(all, taken, |picked|);
    }
  }

  /** So many machines outside `rest` are without a current master. */
  ghost predicate FreeSeen(all: set<string>, rest: set<string>, taken: set<string>, count: nat) {
    count == |all - rest - taken|
  }

  /** No machine outside `rest` has a selectable node left. */
  ghost predicate Drained(lists: map<string, seq<Node>>, rest: set<string>) {
    forall name :: name in lists && name !in rest ==> lists[name] == []
  }

  lemma NothingDrained(lists: map<string, seq<Node>>)
    ensures Drained(lists, lists.Keys)
  {
  }

  lemma DrainedNext(lists: map<string, seq<Node>>, rest: set<string>, name: string)
    requires name in lists && lists[name] == []
    ensures Drained(lists, rest) ==> Drained(lists, rest - {name})
  {
  }

  lemma DrainedAll(lists: map<string, seq<Node>>)
    ensures Drained(lists, {}) ==> Exhausted(lists, lists.Keys)
  {
  }

  lemma NoneSeen(all: set<string>, taken: set<string>)
    ensures FreeSeen(all, all, taken, 0)
  {
    assert all - all - taken == {};
  }

  lemma OneMoreSeen(all: set<string>, rest: set<string>, taken: set<string>, name: string, count: nat)
    requires name in rest && rest <= all
    ensures FreeSeen(all, rest, taken, count) && name in taken ==> FreeSeen(all, rest - {name}, taken, count)
    ensures FreeSeen(all, rest, taken, count) && name !in taken ==>
      FreeSeen(all, rest - {name}, taken, count + 1) && count + 1 <= |all - taken|
  {
    assert all - (rest - {name}) - taken == (all - rest - taken) + (if name in taken then {} else {name});
    Subset(all - (rest - {name}) - taken, all - taken);
  }

  lemma AllSeen(all: set<string>, taken: set<string>, count: nat)
    requires FreeSeen(all, {}, taken, count)
    ensures count == |all - taken|
  {
    assert all - {} == all;
  }

  lemma NothingPicked(vm: map<Node, string>, taken: set<string>)
    ensures OnOwnMachines(vm, [], taken)
  {
  }

  lemma FewerTaken(vm: map<Node, string>, picked: seq<Node>, taken: set<string>, fewer: set<string>)
    requires OnOwnMachines(vm, picked, taken) && fewer <= taken
    ensures OnOwnMachines(vm, picked, fewer)
  {
  }

  lemma OneMoreApart(vm: map<Node, string>, picked: seq<Node>, taken: set<string>, fewer: set<string>, n: Node)
    requires OnOwnMachines(vm, picked, taken) && fewer <= taken && n in vm && vm[n] in taken && vm[n] !in fewer
    ensures OnOwnMachines(vm, picked + [n], fewer)
  {
    forall i, j | 0 <= i < j < |picked + [n]| ensures vm[(picked + [n])[i]] != vm[(picked + [n])[j]] {
      assert picked[i] in picked;
    }
  }

  /** Never more is picked than there is, and when nothing is left everything has been picked. */
  lemma PickedCount(vm: map<Node, string>, lists: map<string, seq<Node>>, picked: seq<Node>)
    requires Accounted(vm, lists, picked)
    ensures |picked| <= |vm|
    ensures Exhausted(lists, lists.Keys) ==> |picked| == |vm|
  {
    NoDupCard(picked);
    Subset(ToSet(picked), vm.Keys);
    if Exhausted(lists, lists.Keys) {
      forall n | n in vm ensures n in picked {
        assert n !in picked ==> n in Listed(lists, vm[n]);
      }
      assert ToSet(picked) == vm.Keys;
    }
  }

  lemma Subset<T>(a: set<T>, b: set<T>)
    requires a <= b
    ensures |a| <= |b|
  {
    assert b == a + (b - a);
  }

  lemma StartSorted(cluster: map<NodeID, Node>, possible: seq<Node>, lists: map<string, seq<Node>>)
    requires ByVM(cluster, possible, lists)
    ensures Accounted(Machines(cluster, possible), lists, [])
  {
    hide VMName, NoDup;
    NoDupNone();
  }

  lemma NoDupNone()
    ensures NoDup<Node>([])
  {
  }

  /** The machines of the current masters. */
  ghost function Occupied(cluster: map<NodeID, Node>, currentMaster: seq<Node>): set<string>
    reads cluster.Values
  {
    set n | n in currentMaster && n.ID in cluster :: VMName(cluster[n.ID])
  }

  lemma OccupiedKeys(cluster: map<NodeID, Node>, currentMaster: seq<Node>, lists: map<string, seq<Node>>)
    requires ByVM(cluster, currentMaster, lists)
    ensures lists.Keys == Occupied(cluster, currentMaster) && forall vm :: vm in lists ==> lists[vm] != []
  {
    hide VMName, NoDup;
    forall vm | vm in lists ensures vm in Occupied(cluster, currentMaster) {
      var n := lists[vm][0];
      assert n in lists[vm];
      assert n in currentMaster && n.ID in cluster && VMName(cluster[n.ID]) == vm;
    }
    forall n | n in currentMaster && n.ID in cluster ensures VMName(cluster[n.ID]) in lists {
      assert n in Listed(lists, VMName(cluster[n.ID]));
    }
  }

  /** How many of the current masters stay. */
  function Kept(currentMaster: seq<Node>, nbMaster: nat): (r: nat)
    ensures r <= |currentMaster|
  {
    if |currentMaster| > nbMaster then nbMaster else |currentMaster|
  }

  /** The outer loop of PlaceMasters: a first pass over the machines without a current master, then others over all. */
  method PlacePasses(masterByVM: map<string, seq<Node>>, vmWithAlreadyMaster: set<string>, wanted: nat,
                     ghost vm: map<Node, string>)
    returns (masterByVM': map<string, seq<Node>>, chosen: seq<Node>, bestEffort: bool)
    requires Accounted(vm, masterByVM, []) && forall name :: name in masterByVM ==> masterByVM[name] != []
    ensures Accounted(vm, masterByVM', chosen) && |chosen| <= wanted && (|chosen| < wanted ==> |chosen| == |vm|)
    ensures bestEffort <==> |masterByVM.Keys - vmWithAlreadyMaster| < wanted
    ensures !bestEffort ==> OnOwnMachines(vm, chosen, vmWithAlreadyMaster)
    ensures |chosen| <= |vm|
  {
    hide Accounted, NoDup, OnOwnMachines, Exhausted;
    ghost var free := |masterByVM.Keys - vmWithAlreadyMaster|;
    NothingPicked(vm, vmWithAlreadyMaster);
    PickedCount(vm, masterByVM, []);
    masterByVM', chosen, bestEffort := masterByVM, [], false;
    while |chosen| < wanted
      invariant |chosen| <= wanted && Accounted(vm, masterByVM', chosen) && |chosen| <= |vm|
      invariant !bestEffort ==> chosen == [] && masterByVM' == masterByVM && OnOwnMachines(vm, [], vmWithAlreadyMaster)
      invariant bestEffort ==> free < wanted
      decreases !bestEffort, |vm| - |chosen|
    {
      var isProgress;
      masterByVM', chosen, isProgress := PlacePass(masterByVM', vmWithAlreadyMaster, bestEffort, wanted, chosen, vm);
      PickedCount(vm, masterByVM', chosen);
      if |chosen| >= wanted {
        break;
      }
      if bestEffort && !isProgress {
        break;
      }
      bestEffort := true;
    }
  }

  /** PlaceMasters. The current masters come first, as many as are wanted; then nodes are picked, no node twice and each
      known to the cluster. It succeeds exactly when there are enough nodes. When there are enough machines without a
      current master every picked node is on one of its own among them; and bestEffort is reported when there are
      not. */
  method PlaceMasters(cluster: map<NodeID, Node>, currentMaster: seq<Node>, allPossibleMasters: seq<Node>,
                      nbMaster: nat)
    returns (selection: seq<Node>, bestEffort: bool, ok: bool)
    requires NoDup(currentMaster) && NoDup(allPossibleMasters)
    ensures Kept(currentMaster, nbMaster) <= |selection|
    ensures selection[..Kept(currentMaster, nbMaster)] == currentMaster[..Kept(currentMaster, nbMaster)]
    ensures ok <==> Kept(currentMaster, nbMaster) + |Machines(cluster, allPossibleMasters)| >= nbMaster
    ensures ok ==> |selection| == nbMaster
    ensures bestEffort <==> |Occupied(cluster, allPossibleMasters) - Occupied(cluster, currentMaster)| <
                            nbMaster - Kept(currentMaster, nbMaster)
    ensures var picked := selection[Kept(currentMaster, nbMaster)..];
      && NoDup(picked) && (forall n :: n in picked ==> n in allPossibleMasters && n.ID in cluster)
      && (!ok ==> |picked| == |Machines(cluster, allPossibleMasters)|)
      && (!bestEffort ==>
            OnOwnMachines(Machines(cluster, allPossibleMasters), picked, Occupied(cluster, currentMaster)))
  {
    hide Accounted, NoDup, OnOwnMachines, ByVM, VMName, Occupied, Exhausted;
    var kept := |currentMaster|;
    if |currentMaster| > nbMaster {
      kept := nbMaster;
    }
    var wanted := nbMaster - kept;
    var masterByVM := SortRedisNodeByVM(cluster, allPossibleMasters);
    var vmWithAlreadyMaster := SortRedisNodeByVM(cluster, currentMaster);
    ghost var vm := Machines(cluster, allPossibleMasters);
    StartSorted(cluster, allPossibleMasters, masterByVM);
    OccupiedKeys(cluster, currentMaster, vmWithAlreadyMaster);
    OccupiedKeys(cluster, allPossibleMasters, masterByVM);
    var chosen;
    masterByVM, chosen, bestEffort := PlacePasses(masterByVM, vmWithAlreadyMaster.Keys, wanted, vm);
    selection := currentMaster[..kept] + chosen;
    assert selection[..kept] == currentMaster[..kept] && selection[kept..] == chosen;
    ok := |selection| >= nbMaster;
    PickedKnown(cluster, allPossibleMasters, masterByVM, chosen);
  }

  lemma PickedKnown(cluster: map<NodeID, Node>, possible: seq<Node>, lists: map<string, seq<Node>>, picked: seq<Node>)
    requires Accounted(Machines(cluster, possible), lists, picked)
    ensures NoDup(picked) && forall n :: n in picked ==> n in possible && n.ID in cluster
  {
  }
}
