/** The start of a reconcile round: newRedisCluster, NewCtx and DispatchMasters, as syncCluster calls them
    (pkg/controller/distributedrediscluster/sync_handler.go). */
module Round {
  import opened Slots
  import opened Nodes
  import opened Choice
  import opened Placement
  import opened Status
  import opened Scene

  /** The statefulset a node is going to be grouped under, once tagged from the status. */
  function Home(entries: seq<RedisClusterNode>, n: Node): string {
    if TagOf(entries, n.ID) != "" then TagOf(entries, n.ID) else UNKNOWN_VM_NAME
  }

  function Homes(nodes: seq<Node>, entries: seq<RedisClusterNode>): map<Node, string> {
    map n | n in nodes :: Home(entries, n)
  }

  /** The k8s node the status puts a node on. */
  function MachineOf(entries: seq<RedisClusterNode>, n: Node): string {
    var e := LastEntry(entries, n.ID);
    if e.Some? then e.value.NodeName else ""
  }

  function Machines(nodes: seq<Node>, entries: seq<RedisClusterNode>): map<Node, string> {
    map n | n in nodes :: MachineOf(entries, n)
  }

  /** What buildClusterStatus has written about a pod puts its node where the pod is. */
  lemma HomeOfPod(nodes: seq<Node>, pods: seq<Pod>, entries: seq<RedisClusterNode>, n: Node, pod: Pod)
    requires OnePodEach(nodes, pods) && Entered(nodes, pods, entries)
    requires forall a, b :: a in nodes && b in nodes && a != b ==> a.ID != b.ID
    requires n in nodes && n.ID != "" && pod in pods && pod.PodIP == n.IP
    ensures Homes(nodes, entries)[n] == if pod.Owner != "" then pod.Owner else "unknown"
    ensures Machines(nodes, entries)[n] == pod.NodeName
  {
    hide OnePodEach, Entered, LastEntry, ReadsBack, Node.GetRole;
    StatusTags(nodes, pods, entries, n, pod);
  }

  /** The records are fresh: nothing has been written into them from a status. */
  ghost predicate Untagged(nodes: seq<Node>)
    reads nodes`StatefulSet, nodes`NodeName
  {
    forall n :: n in nodes ==> n.StatefulSet == "" && n.NodeName == ""
  }

  /** The nodes that own slots, as the operator sees it. */
  ghost predicate Slotted(nodes: seq<Node>, holders: set<Node>)
    reads nodes`Role, nodes`MasterReferent, nodes`Slots
  {
    forall n :: n in nodes ==> (n in holders <==> n.IsMasterWithSlot())
  }

  ghost predicate AtHome(nodes: seq<Node>, home: map<Node, string>)
    reads nodes
  {
    forall n :: n in nodes ==> n in home && StatefulSetOf(n) == home[n]
  }

  ghost predicate OnMachines(nodes: seq<Node>, machine: map<Node, string>)
    reads nodes`NodeName
  {
    forall n :: n in nodes ==> n in machine && n.NodeName == machine[n]
  }

  function TagOf(entries: seq<RedisClusterNode>, id: NodeID): string {
    var e := LastEntry(entries, id);
    if e.Some? then e.value.StatefulSet else ""
  }

  lemma Tags(nodes: seq<Node>, entries: seq<RedisClusterNode>)
    requires forall n :: n in nodes ==> n.StatefulSet == TagOf(entries, n.ID)
    requires forall n :: n in nodes ==> n.NodeName == MachineOf(entries, n)
    ensures AtHome(nodes, Homes(nodes, entries)) && OnMachines(nodes, Machines(nodes, entries))
  {
  }

  lemma GroupsByHome(ctx: Ctx, sc: Scene)
    requires AtHome(sc.nodes, sc.home) && ctx.GroupsOf(sc.nodes, sc.groups) && sc.home.Keys == ToSet(sc.nodes)
    requires forall n :: n in sc.nodes ==> n.ID in ctx.cluster
    ensures sc.ByHome()
  {
    hide NoDup, StatefulSetOf;
    forall n | n in sc.nodes ensures sc.home[n] in sc.groups && n in sc.groups[sc.home[n]] {
      assert n in Listed(sc.groups, StatefulSetOf(n));
    }
  }

  /** The groups are a function of the look. */
  lemma {:induction false} InOrder(ctx: Ctx, nodes: seq<Node>, home: map<Node, string>, ss: string)
    requires AtHome(nodes, home) && forall n :: n in nodes ==> n.ID in ctx.cluster
    ensures ctx.OfStatefulSet(nodes, ss) == OfHome(nodes, home, ss)
  {
    if nodes != [] {
      InOrder(ctx, nodes[..|nodes| - 1], home, ss);
    }
  }

  lemma GroupsNow(ctx: Ctx, sc: Scene)
    requires AtHome(sc.nodes, sc.home) && ctx.GroupsOf(sc.nodes, sc.groups) && sc.home.Keys == ToSet(sc.nodes)
    requires (forall n :: n in sc.nodes ==> n.ID in ctx.cluster) && sc.ByHome()
    ensures sc.groups == sc.Groups()
  {
    hide NoDup, StatefulSetOf, AtHome, Ctx.OfStatefulSet, OfHome;
    forall ss ensures ss in sc.groups <==> ss in sc.home.Values
              ensures ss in sc.groups ==> sc.groups[ss] == OfHome(sc.nodes, sc.home, ss)
    {
      if ss in sc.groups {
        assert Listed(sc.groups, ss) == ctx.OfStatefulSet(sc.nodes, ss);
        InOrder(ctx, sc.nodes, sc.home, ss);
        assert sc.groups[ss][0] in sc.groups[ss];
        assert sc.home[sc.groups[ss][0]] == ss;
      }
    }
  }

  /** The context just built lists the right masters. */
  lemma MastersAreListed(ctx: Ctx, nodes: seq<Node>, holders: set<Node>)
    requires ctx.GroupsOf(nodes, ctx.nodes) && ctx.MastersOf(nodes, ctx.currentMasters) && Slotted(nodes, holders)
    requires (forall n :: n in nodes ==> n.ID in ctx.cluster) && holders <= ToSet(nodes)
    ensures ctx.MastersListed() && ToSet(ctx.currentMasters) == holders
  {
    hide NoDup, StatefulSetOf, Node.IsMasterWithSlot;
    forall n | n in holders ensures n in ctx.currentMasters {
      assert n in nodes;
    }
  }

  /** What the choice is going to depend on. */
  lemma DescribedNow(ctx: Ctx, sc: Scene)
    requires Slotted(sc.nodes, sc.holders) && OnMachines(sc.nodes, sc.machine) && sc.ByHome() && sc.groups == ctx.nodes
    requires ToSet(ctx.currentMasters) == sc.holders && sc.holders <= ToSet(sc.nodes)
    ensures ctx.Described(sc.holders, sc.machine)
  {
    hide NoDup, Node.IsMasterWithSlot;
    assert forall n :: n in ctx.currentMasters ==> n in ToSet(ctx.currentMasters);
    assert (set n | n in ctx.currentMasters) == sc.holders;
  }

  /** The masters just dispatched, as values. */
  lemma RightMasters(ctx: Ctx, sc: Scene)
    requires Slotted(sc.nodes, sc.holders) && sc.groups == ctx.nodes && sc.chosen == ctx.newMastersBySts && sc.ByHome()
    requires forall ss :: ss in sc.chosen ==> ctx.RightMaster(ss, sc.chosen[ss])
    ensures sc.OwnMasters()
  {
    hide NoDup, Node.IsMasterWithSlot, StatefulSetNames;
    forall ss | ss in sc.chosen
      ensures ss in sc.groups && sc.chosen[ss] in sc.groups[ss]
      ensures forall x :: x in sc.groups[ss] && x in sc.holders ==> x == sc.chosen[ss]
    {
      assert ctx.RightMaster(ss, sc.chosen[ss]);
    }
  }

  /** What a look tells does not depend on what is done with it. */
  lemma Carried(sc: Scene, sc': Scene)
    requires sc'.nodes == sc.nodes && sc'.home == sc.home && sc'.holders == sc.holders && sc'.replicas == sc.replicas
    requires sc'.machine == sc.machine
    ensures sc'.Members() == sc.Members() && forall ss :: sc'.OneOwner(ss) == sc.OneOwner(ss)
    ensures sc'.groups == sc.groups ==> sc'.ByHome() == sc.ByHome()
    ensures sc'.Groups() == sc.Groups()
    ensures forall name, n :: sc'.Picks(name, n) == sc.Picks(name, n)
  {
  }

  lemma DispatchedNow(sc: Scene, sc': Scene, clusterName: string, masterSize: nat)
    requires sc.OwnMasters() && sc' == sc.(current := sc'.current, masters := sc'.masters)
    requires sc.chosen.Keys == StatefulSetNames(clusterName, masterSize)
    requires ToSet(sc'.current) == sc.holders && NoDup(sc'.current)
    requires ToSet(sc'.masters) == sc.chosen.Values && |sc'.masters| == |sc.chosen|
    ensures sc'.Dispatched(clusterName, masterSize)
  {
  }

  /** The statefulset has nodes, and at most one slot owner. */
  ghost predicate Ready(seen: Scene, ss: string) {
    HasNodes(seen.home, ss) && seen.OneOwner(ss)
  }

  ghost predicate HasNodes(home: map<Node, string>, ss: string) {
    exists n :: n in home && home[n] == ss
  }

  /** A statefulset can be dispatched exactly when it has nodes and not two slot owners. */
  lemma DispatchableHome(ctx: Ctx, sc: Scene, ss: string)
    requires sc.ByHome() && sc.Members() && Slotted(sc.nodes, sc.holders) && sc.groups == ctx.nodes
    ensures ctx.Dispatchable(ss) <==> HasNodes(sc.home, ss) && sc.OneOwner(ss)
  {
    hide NoDup, Apart, Node.IsMasterWithSlot;
    assert forall n :: n in sc.holders ==> n in ToSet(sc.nodes);
    if ss in sc.groups {
      assert sc.groups[ss][0] in sc.groups[ss];
      assert sc.home[sc.groups[ss][0]] == ss;
      OwnersOf(sc, ss);
    } else {
      assert forall n :: n in sc.home ==> sc.home[n] in sc.groups;
    }
  }

  /** The slot owners of a statefulset are those in its group. */
  lemma OwnersOf(sc: Scene, ss: string)
    requires sc.ByHome() && sc.Members() && Slotted(sc.nodes, sc.holders) && ss in sc.groups
    ensures forall n :: n in sc.groups[ss] ==> (n.IsMasterWithSlot() <==> n in sc.holders)
    ensures forall n :: n in sc.holders && sc.home[n] == ss ==> n in sc.groups[ss]
  {
    hide NoDup, Apart, Node.IsMasterWithSlot;
    forall n | n in sc.holders && sc.home[n] == ss ensures n in sc.groups[ss] {
      assert n in sc.nodes;
    }
  }

  lemma DifferentIDs(seen: Scene)
    requires seen.Members()
    ensures forall i, j :: 0 <= i < j < |seen.nodes| ==> seen.nodes[i].ID != seen.nodes[j].ID
  {
    forall i, j | 0 <= i < j < |seen.nodes| ensures seen.nodes[i].ID != seen.nodes[j].ID {
      assert Apart(seen.nodes[i], seen.nodes[j]);
    }
  }

  method TagNodes(nodes: seq<Node>, entries: seq<RedisClusterNode>, ghost seen: Scene)
    returns (cluster: map<NodeID, Node>)
    requires seen.nodes == nodes && seen.Members()
    requires Untagged(nodes)
    modifies nodes`PodName, nodes`NodeName, nodes`StatefulSet
    ensures AtHome(nodes, Homes(nodes, entries)) && OnMachines(nodes, Machines(nodes, entries))
    ensures Index(nodes, cluster)
  {
    hide NoDup, Apart, LastEntry, Home, StatefulSetOf;
    DifferentIDs(seen);
    cluster := NewRedisCluster(nodes, entries);
    Tags(nodes, entries);
  }

  /** newRedisCluster and NewCtx. */
  method Gather(spec: Spec, nodes: seq<Node>, entries: seq<RedisClusterNode>, ghost seen: Scene)
    returns (ctx: Ctx, ghost sc: Scene)
    requires seen.nodes == nodes && seen.home == Homes(nodes, entries) && seen.machine == Machines(nodes, entries)
    requires seen.Members() && Slotted(nodes, seen.holders) && Untagged(nodes)
    modifies nodes`PodName, nodes`NodeName, nodes`StatefulSet
    ensures fresh(ctx) && ctx.slavesByMaster == map[] && ctx.newMastersBySts == map[] && !ctx.bestEffort
    ensures ctx.expectedMasterNum == spec.MasterSize && ctx.clusterName == spec.Name
    ensures ctx.Grouped() && ctx.MastersListed() && ctx.Described(seen.holders, seen.machine)
    ensures ToSet(ctx.currentMasters) == seen.holders && NoDup(ctx.currentMasters) && Slotted(nodes, seen.holders)
    ensures sc == seen.(groups := ctx.nodes) && sc.Members() && sc.ByHome() && sc.groups == seen.Groups()
    ensures Index(nodes, ctx.cluster)
  {
    hide NoDup, Apart, Node.IsMasterWithSlot, LastEntry, Home, StatefulSetOf, Scene.ByHome, Ctx.GroupsOf, Ctx.MastersOf,
      Ctx.Grouped, Ctx.MastersListed, Ctx.Described, AtHome, OnMachines, Slotted, Scene.Groups, OfHome, Choices,
      MachineOf;
    var cluster := TagNodes(nodes, entries, seen);
    ctx := new Ctx(cluster, nodes, spec.MasterSize, spec.Name);
    sc := seen.(groups := ctx.nodes);
    GroupsByHome(ctx, sc);
    Carried(seen, sc);
    GroupsNow(ctx, sc);
    MastersAreListed(ctx, nodes, seen.holders);
    DescribedNow(ctx, sc);
  }

  /** From a look at the cluster to the chosen masters. It succeeds exactly when every expected statefulset has nodes
      and not two slot owners.  The groups and the choice are functions of the look and the status, and unless
      bestEffort is set every new master is alone on its k8s node. */
  method StartRound(spec: Spec, nodes: seq<Node>, entries: seq<RedisClusterNode>, ghost seen: Scene)
    returns (ok: bool, ctx: Ctx, curMasters: seq<Node>, newMasters: seq<Node>, ghost sc: Scene)
    requires seen.nodes == nodes && seen.home == Homes(nodes, entries) && seen.machine == Machines(nodes, entries)
    requires seen.Members() && Slotted(nodes, seen.holders) && Untagged(nodes)
    modifies nodes`PodName, nodes`NodeName, nodes`StatefulSet
    ensures fresh(ctx) && ctx.slavesByMaster == map[]
    ensures ok <==> forall i :: 0 <= i < spec.MasterSize ==> Ready(seen, ClusterStatefulSetName(spec.Name, i))
    ensures sc ==
      seen.(groups := ctx.nodes, chosen := ctx.newMastersBySts, current := curMasters, masters := newMasters)
    ensures ok ==> sc.Good(spec.Name, spec.MasterSize)
    ensures sc.groups == seen.Groups() && (ok ==> sc.chosen == seen.Picks(spec.Name, spec.MasterSize))
    ensures ok && !ctx.bestEffort ==> ctx.Spread()
    ensures ok ==> (ctx.bestEffort <==>
                    Compromised(seen.Groups(), seen.holders, seen.machine, spec.Name, spec.MasterSize))
    ensures forall n :: n in nodes ==> n.ID in ctx.cluster && ctx.cluster[n.ID] == n
    ensures forall id :: id in ctx.cluster ==> ctx.cluster[id] in nodes && ctx.cluster[id].ID == id
  {
    hide NoDup, Apart, Node.IsMasterWithSlot, StatefulSetNames, ClusterStatefulSetName, Homes, Machines, Scene.Members,
      Scene.OneOwner, Scene.ByHome, Scene.OwnMasters, Scene.Dispatched, Ctx.Grouped, Ctx.MastersListed,
      Ctx.Dispatchable, Ctx.RightMaster, Ctx.Spread, Ctx.Described, Slotted, Scene.Groups, Choices, Compromised;
    ctx, sc := Gather(spec, nodes, entries, seen);
    ok := ctx.DispatchMasters(seen.holders, seen.machine);
    forall ss ensures ctx.Dispatchable(ss) <==> Ready(seen, ss) {
      DispatchableHome(ctx, sc, ss);
      Carried(seen, sc);
    }
    ghost var named := sc.(chosen := ctx.newMastersBySts);
    Carried(sc, named);
    if ok {
      RightMasters(ctx, named);
    }
    curMasters := ctx.currentMasters;
    newMasters := ctx.GetNewMasters();
    sc := named.(current := curMasters, masters := newMasters);
    Carried(named, sc);
    if ok {
      DispatchedNow(named, sc, spec.Name, spec.MasterSize);
    }
  }
}
