/** What the operator concludes from a look at the cluster: buildClusterStatus in
    pkg/controller/distributedrediscluster/status.go, newRedisCluster and needClusterOperation in helper.go. */
module Status {
  import opened Slots
  import opened Nodes
  import opened Options
  import SlotRanges

  const MAX_INT32: nat := 0x7FFF_FFFF

  /** The fields of a pod that are read; `Owner` is the name of the statefulset that owns it, or empty. */
  datatype Pod = Pod(Name: string, NodeName: string, PodIP: string, Owner: string)

  datatype RedisClusterNode = RedisClusterNode(
    ID: NodeID, Role: RedisRole, IP: string, Port: string, MasterRef: NodeID, Slots: seq<string>,
    PodName: string, NodeName: string, StatefulSet: string)

  /** `Restore` stands for the whole of the restore status, which is only copied. */
  datatype ClusterStatus = ClusterStatus(
    Status: string, Reason: string, Restore: string,
    Nodes: seq<RedisClusterNode>, NumberOfMaster: nat, MinReplicationFactor: nat, MaxReplicationFactor: nat)

  datatype Spec = Spec(Name: string, MasterSize: nat, ClusterReplicas: nat)

  function At(nodes: seq<Node>, ip: string): (r: seq<Node>)
    ensures forall n :: n in r ==> n in nodes && n.IP == ip
    ensures forall n :: n in nodes && n.IP == ip ==> n in r
  {
    if nodes == [] then []
    else
      var init, last := nodes[..|nodes| - 1], nodes[|nodes| - 1];
      assert nodes == init + [last];
      At(init, ip) + (if last.IP == ip then [last] else [])
  }

  /** GetNodesByFunc, for a pod's IP; the source's error is the empty list. */
  method GetNodesByIP(nodes: seq<Node>, ip: string) returns (r: seq<Node>)
    ensures r == At(nodes, ip)
  {
    r := [];
    for i := 0 to |nodes|
      invariant r == At(nodes[..i], ip)
    {
      assert nodes[..i + 1][..i] == nodes[..i];
      if nodes[i].IP == ip {
        r := r + [nodes[i]];
      }
    }
    assert nodes[..|nodes|] == nodes;
  }

  /** How many pods have exactly one node at their IP, and that one is in the set. */
  function PodsOf(nodes: seq<Node>, pods: seq<Pod>, who: set<Node>): nat {
    if pods == [] then 0
    else PodsOf(nodes, pods[..|pods| - 1], who) + (if Alone(nodes, pods[|pods| - 1], who) then 1 else 0)
  }

  predicate Alone(nodes: seq<Node>, pod: Pod, who: set<Node>) {
    var found := At(nodes, pod.PodIP);
    |found| == 1 && found[0] in who
  }

  /** The i-th node is the only one at an IP. */
  predicate SoleAt(nodes: seq<Node>, ip: string, i: nat)
    requires i < |nodes|
  {
    nodes[i].IP == ip && forall k :: 0 <= k < |nodes| && k != i ==> nodes[k].IP != ip
  }

  lemma {:induction false} AtSole(nodes: seq<Node>, ip: string, i: nat)
    requires i < |nodes| && SoleAt(nodes, ip, i)
    ensures At(nodes, ip) == [nodes[i]]
  {
    var init, last := nodes[..|nodes| - 1], nodes[|nodes| - 1];
    if i < |init| {
      assert init[i] == nodes[i] && SoleAt(init, ip, i);
      AtSole(init, ip, i);
    } else {
      forall m | m in init ensures m.IP != ip {
        var k :| 0 <= k < |init| && init[k] == m;
        assert nodes[k] == m;
      }
      AtNoIP(init, ip);
    }
  }

  lemma {:induction false} SoleOf(nodes: seq<Node>, ip: string) returns (i: nat)
    requires |At(nodes, ip)| == 1
    ensures i < |nodes| && SoleAt(nodes, ip, i) && nodes[i] == At(nodes, ip)[0]
  {
    var init, last := nodes[..|nodes| - 1], nodes[|nodes| - 1];
    if last.IP == ip {
      i := |init|;
      forall k | 0 <= k < |init| ensures nodes[k].IP != ip {
        assert init[k] in init && init[k] == nodes[k];
      }
    } else {
      i := SoleOf(init, ip);
    }
  }

  /** A pod counts when there is one node at its IP, and no second one. */
  lemma AloneIs(nodes: seq<Node>, pod: Pod, who: set<Node>)
    ensures Alone(nodes, pod, who) <==>
      exists i :: 0 <= i < |nodes| && nodes[i] in who && SoleAt(nodes, pod.PodIP, i)
  {
    hide At, SoleAt;
    if |At(nodes, pod.PodIP)| == 1 {
      var i := SoleOf(nodes, pod.PodIP);
    }
    if i :| 0 <= i < |nodes| && nodes[i] in who && SoleAt(nodes, pod.PodIP, i) {
      AtSole(nodes, pod.PodIP, i);
    }
  }

  ghost function MastersAmong(nodes: seq<Node>): set<Node>
    reads nodes
  {
    set n | n in nodes && n.IsMasterWithSlot()
  }

  ghost function SlavesAmong(nodes: seq<Node>, id: NodeID): set<Node>
    reads nodes
  {
    set n | n in nodes && n.IsSlave() && n.MasterReferent == id
  }

  /** The ids a counter is kept for: of the masters seen, and of the masters that the slaves seen name. */
  ghost predicate Tracked(nodes: seq<Node>, pods: seq<Pod>, id: NodeID)
    reads nodes
  {
    || (exists pod :: pod in pods && Alone(nodes, pod, MastersAmong(nodes)) && At(nodes, pod.PodIP)[0].ID == id)
    || (id != "" && exists pod :: pod in pods && Alone(nodes, pod, SlavesAmong(nodes, id)))
  }

  /** The counters the source keeps in nbSlaveByMaster. */
  ghost predicate Counters(nodes: seq<Node>, pods: seq<Pod>, counters: map<NodeID, nat>)
    reads nodes
  {
    && (forall id :: id in counters <==> Tracked(nodes, pods, id))
    && (forall id :: id in counters && id != "" ==> counters[id] == PodsOf(nodes, pods, SlavesAmong(nodes, id)))
    && ("" in counters ==> counters[""] == 0)
  }

  /** What one pod does to the counters. */
  ghost function Counted(nodes: seq<Node>, pod: Pod, counters: map<NodeID, nat>): map<NodeID, nat>
    reads nodes
  {
    var found := At(nodes, pod.PodIP);
    if |found| != 1 then counters
    else
      assert found[0] in found;
      if found[0].IsMasterWithSlot() then Touched(counters, found[0].ID)
      else if found[0].IsSlave() && found[0].MasterReferent != "" then Bumped(counters, found[0].MasterReferent)
      else counters
  }

  function Touched(counters: map<NodeID, nat>, id: NodeID): map<NodeID, nat> {
    if id in counters then counters else counters[id := 0]
  }

  function Bumped(counters: map<NodeID, nat>, id: NodeID): map<NodeID, nat> {
    counters[id := (if id in counters then counters[id] else 0) + 1]
  }

  lemma {:induction false} NoPods(nodes: seq<Node>, pods: seq<Pod>, who: set<Node>)
    requires forall pod :: pod in pods ==> !Alone(nodes, pod, who)
    ensures PodsOf(nodes, pods, who) == 0
  {
    if pods != [] {
      NoPods(nodes, pods[..|pods| - 1], who);
    }
  }

  lemma TrackedStep(nodes: seq<Node>, pods: seq<Pod>, pod: Pod, id: NodeID)
    ensures Tracked(nodes, pods + [pod], id) <==>
      || Tracked(nodes, pods, id)
      || (Alone(nodes, pod, MastersAmong(nodes)) && At(nodes, pod.PodIP)[0].ID == id)
      || (id != "" && Alone(nodes, pod, SlavesAmong(nodes, id)))
  {
    hide Alone, At;
    assert forall p :: p in pods + [pod] <==> p in pods || p == pod;
  }

  lemma CountersStep(nodes: seq<Node>, pods: seq<Pod>, counters: map<NodeID, nat>, pod: Pod)
    requires Counters(nodes, pods, counters)
    ensures Counters(nodes, pods + [pod], Counted(nodes, pod, counters))
  {
    hide Tracked;
    var after := Counted(nodes, pod, counters);
    assert (pods + [pod])[..|pods|] == pods;
    forall id
      ensures id in after <==> Tracked(nodes, pods + [pod], id)
      ensures id in after && id != "" ==> after[id] == PodsOf(nodes, pods + [pod], SlavesAmong(nodes, id))
    {
      TrackedStep(nodes, pods, pod, id);
      if id !in counters && id != "" {
        Untracked(nodes, pods, id);
      }
    }
  }

  lemma Untracked(nodes: seq<Node>, pods: seq<Pod>, id: NodeID)
    requires !Tracked(nodes, pods, id) && id != ""
    ensures PodsOf(nodes, pods, SlavesAmong(nodes, id)) == 0
  {
    NoPods(nodes, pods, SlavesAmong(nodes, id));
  }

  /** The status entry of a pod, but for the slots; only a single node at its IP gives it an id. */
  ghost function Entry(nodes: seq<Node>, pod: Pod): RedisClusterNode
    reads nodes
  {
    var found := At(nodes, pod.PodIP);
    if |found| == 1 then
      assert found[0] in found;
      RedisClusterNode(found[0].ID, found[0].GetRole(), pod.PodIP, found[0].Port,
                       if found[0].IsSlave() then found[0].MasterReferent else "", [],
                       pod.Name, pod.NodeName, pod.Owner)
    else
      RedisClusterNode("", RoleNone, pod.PodIP, "", "", [], pod.Name, pod.NodeName, pod.Owner)
  }

  /** A list of slots, printed as ranges.  Nothing is said about a list with the top slot in it twice. */
  ghost predicate Printed(slots: seq<Slot>, strings: seq<string>) {
    multiset(slots)[MAX_UINT64] <= 1 ==>
      exists ranges :: SlotRanges.Shown(ranges, slots) && strings == SlotRanges.Print(ranges)
  }

  ghost predicate Shows(nodes: seq<Node>, pod: Pod, e: RedisClusterNode)
    reads nodes
  {
    var found := At(nodes, pod.PodIP);
    && e.(Slots := []) == Entry(nodes, pod)
    && (if |found| == 1 then assert found[0] in found; Printed(found[0].Slots, e.Slots) else e.Slots == [])
  }

  /** The pods at whose IP there is any node, in order. */
  ghost function WithNodes(nodes: seq<Node>, pods: seq<Pod>): (r: seq<Pod>)
    ensures forall pod :: pod in r <==> pod in pods && At(nodes, pod.PodIP) != []
  {
    if pods == [] then []
    else
      var init, last := pods[..|pods| - 1], pods[|pods| - 1];
      assert pods == init + [last];
      WithNodes(nodes, init) + (if At(nodes, last.PodIP) != [] then [last] else [])
  }

  /** Each of these pods has its entry, in the same order, and there are no other entries. */
  ghost predicate Entered(nodes: seq<Node>, pods: seq<Pod>, entries: seq<RedisClusterNode>)
    reads nodes
  {
    && |entries| == |WithNodes(nodes, pods)|
    && (forall i :: 0 <= i < |entries| ==> Shows(nodes, WithNodes(nodes, pods)[i], entries[i]))
  }

  lemma OnePodMore(nodes: seq<Node>, pods: seq<Pod>, pod: Pod)
    ensures WithNodes(nodes, pods + [pod]) ==
      WithNodes(nodes, pods) + (if At(nodes, pod.PodIP) != [] then [pod] else [])
  {
    assert (pods + [pod])[..|pods|] == pods;
  }

  lemma EnteredStep(nodes: seq<Node>, pods: seq<Pod>, entries: seq<RedisClusterNode>, pod: Pod, e: RedisClusterNode)
    requires Entered(nodes, pods, entries) && At(nodes, pod.PodIP) != [] && Shows(nodes, pod, e)
    ensures Entered(nodes, pods + [pod], entries + [e])
  {
    hide At, Shows, WithNodes;
    OnePodMore(nodes, pods, pod);
  }

  /** A pod without a node leaves no trace. */
  lemma UnseenStep(nodes: seq<Node>, pods: seq<Pod>, entries: seq<RedisClusterNode>, pod: Pod,
                   counters: map<NodeID, nat>)
    requires Entered(nodes, pods, entries) && At(nodes, pod.PodIP) == []
    ensures Entered(nodes, pods + [pod], entries) && Counted(nodes, pod, counters) == counters
    ensures !Alone(nodes, pod, MastersAmong(nodes))
  {
    hide At, Shows, WithNodes;
    OnePodMore(nodes, pods, pod);
  }

  /** The inner loop of buildClusterStatus: the slots of a node, as strings. */
  method PrintSlots(slots: seq<Slot>) returns (strings: seq<string>)
    requires forall s :: s in slots ==> s <= MAX_UINT64
    ensures Printed(slots, strings)
  {
    var ranges := SlotRanges.SlotRangesFromSlots(slots);
    strings := [];
    assert ranges[..0] == [];
    for i := 0 to |ranges|
      invariant strings == SlotRanges.Print(ranges[..i])
    {
      assert ranges[..i + 1][..i] == ranges[..i];
      strings := strings + [SlotRanges.RangeString(ranges[i])];
    }
    assert ranges[..|ranges|] == ranges;
  }

  lemma NothingPrinted()
    ensures Printed([], [])
  {
    SlotRanges.NoRanges();
    assert SlotRanges.Shown([], []) && SlotRanges.Print([]) == [];
  }

  lemma PodsOfNext(nodes: seq<Node>, pods: seq<Pod>, i: nat, who: set<Node>)
    requires i < |pods|
    ensures PodsOf(nodes, pods[..i + 1], who) ==
      PodsOf(nodes, pods[..i], who) + (if Alone(nodes, pods[i], who) then 1 else 0)
  {
    assert pods[..i + 1][..i] == pods[..i];
  }

  /** The body of the first loop, for a pod at whose IP there is a node: its entry, and what it does to the counters. */
  method EnterPod(nodes: seq<Node>, pod: Pod, redisNodes: seq<Node>, nbMasterIn: nat, counters: map<NodeID, nat>)
    returns (newNode: RedisClusterNode, nbMaster: nat, nbSlaveByMaster: map<NodeID, nat>)
    requires redisNodes == At(nodes, pod.PodIP) != []
    requires forall n, s :: n in nodes && s in n.Slots ==> s <= MAX_UINT64
    ensures Shows(nodes, pod, newNode)
    ensures nbMaster == nbMasterIn + (if Alone(nodes, pod, MastersAmong(nodes)) then 1 else 0)
    ensures nbSlaveByMaster == Counted(nodes, pod, counters)
  {
    hide At, Printed;
    newNode := RedisClusterNode("", RoleNone, pod.PodIP, "", "", [], pod.Name, pod.NodeName, pod.Owner);
    nbMaster, nbSlaveByMaster := nbMasterIn, counters;
    if |redisNodes| == 1 {
      var redisNode := redisNodes[0];
      assert redisNode in nodes by { Found(nodes, pod.PodIP); }
      if redisNode.IsMasterWithSlot() {
        if redisNode.ID !in nbSlaveByMaster {
          nbSlaveByMaster := nbSlaveByMaster[redisNode.ID := 0];
        }
        nbMaster := nbMaster + 1;
      }
      newNode := newNode.(ID := redisNode.ID, Role := redisNode.GetRole(), Port := redisNode.Port, Slots := []);
      if redisNode.IsSlave() && redisNode.MasterReferent != "" {
        var referent := redisNode.MasterReferent;
        var count := if referent in nbSlaveByMaster then nbSlaveByMaster[referent] else 0;
        nbSlaveByMaster := nbSlaveByMaster[referent := count + 1];
        newNode := newNode.(MasterRef := referent);
      }
      NothingPrinted();
      if |redisNode.Slots| > 0 {
        var slots := PrintSlots(redisNode.Slots);
        newNode := newNode.(Slots := slots);
      }
    }
  }

  /** buildClusterStatus.  There is one counter per tracked id; the factors are the extremes. */
  method BuildClusterStatus(nodes: seq<Node>, pods: seq<Pod>, oldStatus: ClusterStatus)
    returns (status: ClusterStatus, ghost counters: map<NodeID, nat>)
    requires |pods| < MAX_INT32 && forall n, s :: n in nodes && s in n.Slots ==> s <= MAX_UINT64
    ensures status.Status == oldStatus.Status && status.Reason == oldStatus.Reason
    ensures status.Restore == oldStatus.Restore
    ensures status.NumberOfMaster == PodsOf(nodes, pods, MastersAmong(nodes))
    ensures Counters(nodes, pods, counters)
    ensures Extremes(counters, status.MinReplicationFactor, status.MaxReplicationFactor)
    ensures Entered(nodes, pods, status.Nodes)
  {
    hide Counters, Entered, At, Shows, Counted, Alone, PodsOf, MastersAmong, Extremes;
    var statusNodes, nbMaster := [], 0;
    var nbSlaveByMaster: map<NodeID, nat> := map[];
    NothingSeen(nodes);
    assert pods[..0] == [];
    for i := 0 to |pods|
      invariant nbMaster == PodsOf(nodes, pods[..i], MastersAmong(nodes))
      invariant Counters(nodes, pods[..i], nbSlaveByMaster)
      invariant Entered(nodes, pods[..i], statusNodes)
    {
      var pod := pods[i];
      assert pods[..i + 1] == pods[..i] + [pod];
      CountersStep(nodes, pods[..i], nbSlaveByMaster, pod);
      PodsOfNext(nodes, pods, i, MastersAmong(nodes));
      var redisNodes := GetNodesByIP(nodes, pod.PodIP);
      if |redisNodes| == 0 {
        UnseenStep(nodes, pods[..i], statusNodes, pod, nbSlaveByMaster);
        continue;
      }
      var newNode;
      newNode, nbMaster, nbSlaveByMaster := EnterPod(nodes, pod, redisNodes, nbMaster, nbSlaveByMaster);
      EnteredStep(nodes, pods[..i], statusNodes, pod, newNode);
      statusNodes := statusNodes + [newNode];
    }
    assert pods[..|pods|] == pods;
    counters := nbSlaveByMaster;
    CountersBounded(nodes, pods, counters);
    var min, max := ReplicationFactors(nbSlaveByMaster);
    status := ClusterStatus(oldStatus.Status, oldStatus.Reason, oldStatus.Restore, statusNodes, nbMaster, min, max);
  }

  /** Smallest and largest counter, zero when there are none. */
  ghost predicate Extremes(counters: map<NodeID, nat>, min: nat, max: nat) {
    if counters == map[] then min == max == 0
    else
      && (forall id :: id in counters ==> min <= counters[id] <= max)
      && (exists id :: id in counters && counters[id] == min)
      && (exists id :: id in counters && counters[id] == max)
  }

  /** The last loop of buildClusterStatus, for any order of the counters. */
  method ReplicationFactors(counters: map<NodeID, nat>) returns (minReplicationFactor: nat, maxReplicationFactor: nat)
    requires forall id :: id in counters ==> counters[id] < MAX_INT32
    ensures Extremes(counters, minReplicationFactor, maxReplicationFactor)
  {
    minReplicationFactor, maxReplicationFactor := MAX_INT32, 0;
    var rest := counters.Keys;
    while rest != {}
      invariant rest <= counters.Keys
      invariant forall id :: id in counters && id !in rest ==>
        minReplicationFactor <= counters[id] <= maxReplicationFactor
      invariant rest == counters.Keys ==> minReplicationFactor == MAX_INT32 && maxReplicationFactor == 0
      invariant rest != counters.Keys ==> exists id :: id in counters && counters[id] == minReplicationFactor
      invariant rest != counters.Keys ==> exists id :: id in counters && counters[id] == maxReplicationFactor
      decreases rest
    {
      var id :| id in rest;
      var counter := counters[id];
      if counter > maxReplicationFactor {
        maxReplicationFactor := counter;
      }
      if counter < minReplicationFactor {
        minReplicationFactor := counter;
      }
      rest := rest - {id};
    }
    if |counters| == 0 {
      minReplicationFactor := 0;
    }
  }

  lemma NothingSeen(nodes: seq<Node>)
    ensures Counters(nodes, [], map[]) && Entered(nodes, [], []) && PodsOf(nodes, [], MastersAmong(nodes)) == 0
  {
  }

  lemma Found(nodes: seq<Node>, ip: string)
    ensures forall n :: n in At(nodes, ip) ==> n in nodes && n.IP == ip
  {
  }

  lemma {:induction false} PodsOfBounded(nodes: seq<Node>, pods: seq<Pod>, who: set<Node>)
    ensures PodsOf(nodes, pods, who) <= |pods|
  {
    if pods != [] {
      PodsOfBounded(nodes, pods[..|pods| - 1], who);
    }
  }

  lemma CountersBounded(nodes: seq<Node>, pods: seq<Pod>, counters: map<NodeID, nat>)
    requires Counters(nodes, pods, counters)
    ensures forall id :: id in counters ==> counters[id] <= |pods|
  {
    forall id | id in counters ensures counters[id] <= |pods| {
      PodsOfBounded(nodes, pods, SlavesAmong(nodes, id));
    }
  }

  // ----- when pods and nodes are in one-to-one correspondence

  /** Every node has its pod, and IPs tell nodes and pods apart. */
  ghost predicate OnePodEach(nodes: seq<Node>, pods: seq<Pod>) {
    && NoDup(nodes) && DifferentIPs(nodes, pods)
    && (forall n :: n in nodes ==> exists pod :: pod in pods && pod.PodIP == n.IP)
  }

  ghost predicate DifferentIPs(nodes: seq<Node>, pods: seq<Pod>) {
    && (forall n, m :: n in nodes && m in nodes && n != m ==> n.IP != m.IP)
    && (forall i, j :: 0 <= i < j < |pods| ==> pods[i].PodIP != pods[j].PodIP)
  }

  lemma {:induction false} AtOwnIP(nodes: seq<Node>, n: Node)
    requires NoDup(nodes) && n in nodes
    requires forall m :: m in nodes && m != n ==> m.IP != n.IP
    ensures At(nodes, n.IP) == [n]
  {
    var init, last := nodes[..|nodes| - 1], nodes[|nodes| - 1];
    assert nodes == init + [last];
    if last == n {
      assert n !in init;
      AtNoIP(init, n.IP);
    } else {
      AtOwnIP(init, n);
    }
  }

  lemma AtNoIP(nodes: seq<Node>, ip: string)
    requires forall m :: m in nodes ==> m.IP != ip
    ensures At(nodes, ip) == []
  {
    if At(nodes, ip) != [] {
      assert At(nodes, ip)[0] in At(nodes, ip);
    }
  }

  ghost function Seen(nodes: seq<Node>, pods: seq<Pod>, who: set<Node>): set<Node> {
    set n | n in nodes && n in who && exists pod :: pod in pods && pod.PodIP == n.IP
  }

  /** One more pod lets one more node be seen, if it has a node and that is one to look for. */
  lemma SeenStep(nodes: seq<Node>, pods: seq<Pod>, pod: Pod, who: set<Node>)
    requires NoDup(nodes) && DifferentIPs(nodes, pods + [pod])
    ensures |Seen(nodes, pods + [pod], who)| == |Seen(nodes, pods, who)| + (if Alone(nodes, pod, who) then 1 else 0)
  {
    hide NoDup, At;
    if exists n :: n in nodes && n.IP == pod.PodIP {
      var n :| n in nodes && n.IP == pod.PodIP;
      AtOwnIP(nodes, n);
      forall p | p in pods ensures p.PodIP != pod.PodIP {
        var i :| 0 <= i < |pods| && pods[i] == p;
        assert (pods + [pod])[i] == p && (pods + [pod])[|pods|] == pod;
      }
      SeenGrows(nodes, pods, pod, who, n);
    } else {
      AtNoIP(nodes, pod.PodIP);
      assert Seen(nodes, pods + [pod], who) == Seen(nodes, pods, who);
    }
  }

  lemma SeenGrows(nodes: seq<Node>, pods: seq<Pod>, pod: Pod, who: set<Node>, n: Node)
    requires n in nodes && n.IP == pod.PodIP && forall m :: m in nodes && m != n ==> m.IP != n.IP
    requires forall p :: p in pods ==> p.PodIP != pod.PodIP
    ensures n !in Seen(nodes, pods, who)
    ensures Seen(nodes, pods + [pod], who) == Seen(nodes, pods, who) + (if n in who then {n} else {})
  {
    assert pod in pods + [pod];
    assert forall p :: p in pods + [pod] <==> p in pods || p == pod;
  }

  /** Counting pods is counting nodes. */
  lemma {:induction false} PodsOfCard(nodes: seq<Node>, pods: seq<Pod>, who: set<Node>)
    requires NoDup(nodes) && DifferentIPs(nodes, pods)
    ensures PodsOf(nodes, pods, who) == |Seen(nodes, pods, who)|
  {
    hide NoDup, Alone;
    if pods == [] {
      assert Seen(nodes, pods, who) == {};
    } else {
      var init, pod := pods[..|pods| - 1], pods[|pods| - 1];
      assert pods == init + [pod];
      PodsOfCard(nodes, init, who);
      SeenStep(nodes, init, pod, who);
    }
  }

  lemma PodsOfAll(nodes: seq<Node>, pods: seq<Pod>, who: set<Node>)
    requires OnePodEach(nodes, pods) && who <= ToSet(nodes)
    ensures PodsOf(nodes, pods, who) == |who|
  {
    PodsOfCard(nodes, pods, who);
    assert Seen(nodes, pods, who) == who;
  }

  /** The two halves of a round: what buildClusterStatus writes about a pod, newRedisCluster finds for its node; and the
      slots written decode to the node's slots, each once and in order. */
  lemma StatusTags(nodes: seq<Node>, pods: seq<Pod>, entries: seq<RedisClusterNode>, n: Node, pod: Pod)
    requires OnePodEach(nodes, pods) && Entered(nodes, pods, entries)
    requires forall a, b :: a in nodes && b in nodes && a != b ==> a.ID != b.ID
    requires n in nodes && n.ID != "" && pod in pods && pod.PodIP == n.IP
    ensures var e := LastEntry(entries, n.ID);
      && e.Some? && e.value.IP == n.IP && e.value.Port == n.Port && e.value.Role == n.GetRole()
      && e.value.MasterRef == (if n.GetRole() == RoleSlave then n.MasterReferent else "")
      && e.value.StatefulSet == pod.Owner && e.value.NodeName == pod.NodeName && e.value.PodName == pod.Name
      && ((forall s :: s in n.Slots ==> s <= MAX_UINT64) && multiset(n.Slots)[MAX_UINT64] <= 1 ==>
            ReadsBack(n.Slots, e.value.Slots))
  {
    hide NoDup, Printed, Shows, At, OnePodEach, ReadsBack, Entered, LastEntry, Node.GetRole;
    OwnPod(nodes, pods, n);
    var d := EntryFor(nodes, pods, entries, pod);
    ShowsNode(nodes, pod, n, d);
    var e := LastEntry(entries, n.ID).value;
    var p := PodFor(nodes, pods, entries, e);
    EntryOfNode(nodes, pods, p, n, pod, e);
    ShowsNode(nodes, pod, n, e);
    if (forall s :: s in n.Slots ==> s <= MAX_UINT64) && multiset(n.Slots)[MAX_UINT64] <= 1 {
      PrintedReadsBack(n.Slots, e.Slots);
    }
  }

  lemma EntryFor(nodes: seq<Node>, pods: seq<Pod>, entries: seq<RedisClusterNode>, pod: Pod)
    returns (e: RedisClusterNode)
    requires Entered(nodes, pods, entries) && pod in pods && At(nodes, pod.PodIP) != []
    ensures e in entries && Shows(nodes, pod, e)
  {
    hide Shows, At, WithNodes;
    var i :| 0 <= i < |WithNodes(nodes, pods)| && WithNodes(nodes, pods)[i] == pod;
    e := entries[i];
  }

  /** A pod at whose IP there are several nodes has an entry that names the pod and none of them. */
  lemma EntryOfNobody(nodes: seq<Node>, pods: seq<Pod>, entries: seq<RedisClusterNode>, pod: Pod)
    requires Entered(nodes, pods, entries) && pod in pods && |At(nodes, pod.PodIP)| > 1
    ensures exists e :: e in entries && NamesPod(e, pod) && e.ID == "" && e.Role == RoleNone && e.Slots == []
  {
    hide At, Entered, Printed;
    var e := EntryFor(nodes, pods, entries, pod);
    assert e.(Slots := []).ID == "" && NamesPod(e.(Slots := []), pod);
    assert NamesPod(e, pod);
  }

  predicate NamesPod(e: RedisClusterNode, pod: Pod) {
    e.PodName == pod.Name && e.NodeName == pod.NodeName && e.StatefulSet == pod.Owner && e.IP == pod.PodIP
  }

  lemma PodFor(nodes: seq<Node>, pods: seq<Pod>, entries: seq<RedisClusterNode>, e: RedisClusterNode) returns (p: Pod)
    requires Entered(nodes, pods, entries) && e in entries
    ensures p in pods && At(nodes, p.PodIP) != [] && Shows(nodes, p, e)
  {
    hide Shows, At, WithNodes;
    var i :| 0 <= i < |entries| && entries[i] == e;
    p := WithNodes(nodes, pods)[i];
    assert p in WithNodes(nodes, pods);
  }

  lemma OwnPod(nodes: seq<Node>, pods: seq<Pod>, n: Node)
    requires OnePodEach(nodes, pods) && n in nodes
    ensures At(nodes, n.IP) == [n]
  {
    hide NoDup;
    AtOwnIP(nodes, n);
  }

  lemma ShowsNode(nodes: seq<Node>, pod: Pod, n: Node, e: RedisClusterNode)
    requires At(nodes, pod.PodIP) == [n] && Shows(nodes, pod, e)
    ensures e.ID == n.ID && e.IP == pod.PodIP && e.Role == n.GetRole() && Printed(n.Slots, e.Slots)
    ensures e.Port == n.Port && e.MasterRef == if n.GetRole() == RoleSlave then n.MasterReferent else ""
    ensures e.StatefulSet == pod.Owner && e.NodeName == pod.NodeName && e.PodName == pod.Name
  {
    hide At, Printed, Node.GetRole;
    assert e == e.(Slots := []).(Slots := e.Slots);
  }

  /** An entry with a node's id is that of its pod. */
  lemma EntryOfNode(nodes: seq<Node>, pods: seq<Pod>, p: Pod, n: Node, pod: Pod, e: RedisClusterNode)
    requires OnePodEach(nodes, pods) && p in pods && pod in pods && n in nodes && n.ID != "" && pod.PodIP == n.IP
    requires forall a, b :: a in nodes && b in nodes && a != b ==> a.ID != b.ID
    requires At(nodes, p.PodIP) != [] && Shows(nodes, p, e) && e.ID == n.ID
    ensures p == pod && At(nodes, pod.PodIP) == [n]
  {
    hide NoDup, Printed;
    AtOwnIP(nodes, n);
    assert e.(Slots := []).ID == n.ID;
    var found := At(nodes, p.PodIP);
    assert |found| == 1;
    assert found[0] in found;
    assert found[0] == n;
  }

  /** The slots, each once and in order. */
  ghost predicate ReadsBack(slots: seq<Slot>, strings: seq<string>) {
    var back := SlotRanges.DecodeAll(strings);
    back.Some? && Ascending(back.value) && forall s :: s in back.value <==> s in slots
  }

  lemma PrintedReadsBack(slots: seq<Slot>, strings: seq<string>)
    requires Printed(slots, strings) && (forall s :: s in slots ==> s <= MAX_UINT64) && multiset(slots)[MAX_UINT64] <= 1
    ensures ReadsBack(slots, strings)
  {
    var ranges :| SlotRanges.Shown(ranges, slots) && strings == SlotRanges.Print(ranges);
    SlotRanges.SlotsRoundTrip(slots, ranges);
  }

  /** needClusterOperation */
  predicate NeedClusterOperation(spec: Spec, status: ClusterStatus) {
    || status.NumberOfMaster != spec.MasterSize
    || status.MinReplicationFactor != spec.ClusterReplicas
    || status.MaxReplicationFactor != spec.ClusterReplicas
  }

  /** The id stands for a master: a master with slots has it, or a slave names it. */
  ghost predicate Named(infos: seq<Node>, id: NodeID)
    reads infos
  {
    || (exists m :: m in infos && m.GetRole() == RoleMaster && m.Slots != [] && m.ID == id)
    || (id != "" && exists m :: m in infos && m.GetRole() == RoleSlave && m.MasterReferent == id)
  }

  ghost function SlavesOf(infos: seq<Node>, id: NodeID): set<Node>
    reads infos
  {
    set m | m in infos && id != "" && m.GetRole() == RoleSlave && m.MasterReferent == id
  }

  /** Every such id is named by so many slaves; where there is none at all, no slaves are wanted. */
  ghost predicate Replicated(infos: seq<Node>, replicas: nat)
    reads infos
  {
    if exists id :: Named(infos, id) then forall id :: Named(infos, id) ==> |SlavesOf(infos, id)| == replicas
    else replicas == 0
  }

  lemma TrackedNamed(infos: seq<Node>, pods: seq<Pod>, id: NodeID)
    requires OnePodEach(infos, pods)
    ensures Tracked(infos, pods, id) <==> Named(infos, id)
  {
    hide NoDup, At, Node.GetRole;
    if pod :| pod in pods && Alone(infos, pod, MastersAmong(infos)) && At(infos, pod.PodIP)[0].ID == id {
      var m := At(infos, pod.PodIP)[0];
      assert m in infos && m.GetRole() == RoleMaster && m.Slots != [] && m.ID == id;
    }
    if pod :| pod in pods && id != "" && Alone(infos, pod, SlavesAmong(infos, id)) {
      var m := At(infos, pod.PodIP)[0];
      assert m in infos && m.GetRole() == RoleSlave && m.MasterReferent == id;
    }
    if m :| m in infos && m.GetRole() == RoleMaster && m.Slots != [] && m.ID == id {
      var pod :| pod in pods && pod.PodIP == m.IP;
      OwnPod(infos, pods, m);
      assert Alone(infos, pod, MastersAmong(infos));
    }
    if m :| m in infos && id != "" && m.GetRole() == RoleSlave && m.MasterReferent == id {
      var pod :| pod in pods && pod.PodIP == m.IP;
      OwnPod(infos, pods, m);
      assert Alone(infos, pod, SlavesAmong(infos, id));
    }
  }

  lemma CounterIs(infos: seq<Node>, pods: seq<Pod>, counters: map<NodeID, nat>, id: NodeID)
    requires OnePodEach(infos, pods) && Counters(infos, pods, counters)
    ensures id in counters <==> Named(infos, id)
    ensures id in counters ==> counters[id] == |SlavesOf(infos, id)|
  {
    hide NoDup, Tracked, Named, PodsOf, Node.GetRole;
    TrackedNamed(infos, pods, id);
    if id != "" {
      PodsOfAll(infos, pods, SlavesAmong(infos, id));
      assert SlavesOf(infos, id) == SlavesAmong(infos, id);
    } else {
      assert SlavesOf(infos, id) == {};
    }
  }

  /** What a look has to show for no operation to be asked for: the expected number of masters with slots, and for
      every master seen or named the expected number of slaves. */
  lemma OperationAsked(spec: Spec, infos: seq<Node>, pods: seq<Pod>, status: ClusterStatus,
                       counters: map<NodeID, nat>)
    requires OnePodEach(infos, pods) && status.NumberOfMaster == PodsOf(infos, pods, MastersAmong(infos))
    requires Counters(infos, pods, counters)
    requires Extremes(counters, status.MinReplicationFactor, status.MaxReplicationFactor)
    ensures !NeedClusterOperation(spec, status) <==>
      && |set m | m in infos && m.GetRole() == RoleMaster && m.Slots != []| == spec.MasterSize
      && Replicated(infos, spec.ClusterReplicas)
  {
    hide NoDup, Counters, PodsOf, Named, SlavesOf, Node.GetRole;
    PodsOfAll(infos, pods, MastersAmong(infos));
    assert MastersAmong(infos) == set m | m in infos && m.GetRole() == RoleMaster && m.Slots != [];
    forall id
      ensures id in counters <==> Named(infos, id)
      ensures id in counters ==> counters[id] == |SlavesOf(infos, id)|
    {
      CounterIs(infos, pods, counters, id);
    }
    if counters != map[] {
      var id :| id in counters;
      assert Named(infos, id);
    }
  }

  // ----- newRedisCluster

  /** The last entry with this id, if any. */
  function LastEntry(entries: seq<RedisClusterNode>, id: NodeID): (r: Option<RedisClusterNode>)
    ensures r.None? <==> forall e :: e in entries ==> e.ID != id
    ensures r.Some? ==> r.value in entries && r.value.ID == id
  {
    if entries == [] then None
    else
      var init, last := entries[..|entries| - 1], entries[|entries| - 1];
      assert entries == init + [last];
      if last.ID == id then Some(last) else LastEntry(init, id)
  }

  /** No later entry has the id. */
  lemma {:induction false} LastIs(entries: seq<RedisClusterNode>, id: NodeID)
    requires LastEntry(entries, id).Some?
    ensures exists i :: 0 <= i < |entries| && entries[i] == LastEntry(entries, id).value && NoLater(entries, id, i)
  {
    var init, last := entries[..|entries| - 1], entries[|entries| - 1];
    if last.ID == id {
      assert NoLater(entries, id, |entries| - 1);
    } else {
      LastIs(init, id);
      var i :| 0 <= i < |init| && init[i] == LastEntry(init, id).value && NoLater(init, id, i);
      assert NoLater(entries, id, i);
    }
  }

  predicate NoLater(entries: seq<RedisClusterNode>, id: NodeID, i: int) {
    forall j :: 0 <= j < |entries| && i < j ==> entries[j].ID != id
  }

  /** The node shows what the status last recorded about it. */
  predicate Tagged(n: Node, e: Option<RedisClusterNode>, podName: string, nodeName: string, statefulSet: string)
    reads n
  {
    match e
    case Some(v) => n.PodName == v.PodName && n.NodeName == v.NodeName && n.StatefulSet == v.StatefulSet
    case None => n.PodName == podName && n.NodeName == nodeName && n.StatefulSet == statefulSet
  }

  /** The first loop of newRedisCluster. */
  method IndexByID(nodes: seq<Node>) returns (cluster: map<NodeID, Node>)
    requires forall i, j :: 0 <= i < j < |nodes| ==> nodes[i].ID != nodes[j].ID
    ensures Index(nodes, cluster)
  {
    cluster := map[];
    for i := 0 to |nodes|
      invariant forall id :: id in cluster ==> cluster[id] in nodes[..i] && cluster[id].ID == id
      invariant forall k :: 0 <= k < i ==> nodes[k].ID in cluster && cluster[nodes[k].ID] == nodes[k]
    {
      assert nodes[..i + 1] == nodes[..i] + [nodes[i]];
      cluster := cluster[nodes[i].ID := nodes[i]];
    }
  }

  /** The map finds exactly these nodes, by their ids. */
  ghost predicate Index(nodes: seq<Node>, cluster: map<NodeID, Node>) {
    && (forall id :: id in cluster ==> cluster[id] in nodes && cluster[id].ID == id)
    && (forall n :: n in nodes ==> n.ID in cluster && cluster[n.ID] == n)
  }

  /** newRedisCluster: an index by id of the nodes just read from Redis, each tagged with what the status knows of
      it. */
  method NewRedisCluster(nodes: seq<Node>, entries: seq<RedisClusterNode>) returns (cluster: map<NodeID, Node>)
    requires forall i, j :: 0 <= i < j < |nodes| ==> nodes[i].ID != nodes[j].ID
    modifies nodes`PodName, nodes`NodeName, nodes`StatefulSet
    ensures Index(nodes, cluster)
    ensures forall n :: n in nodes ==>
      Tagged(n, LastEntry(entries, n.ID), old(n.PodName), old(n.NodeName), old(n.StatefulSet))
  {
    hide LastEntry;
    cluster := IndexByID(nodes);
    NoEntries(nodes);
    assert entries[..0] == [];
    for i := 0 to |entries|
      invariant forall n :: n in nodes ==>
        Tagged(n, LastEntry(entries[..i], n.ID), old(n.PodName), old(n.NodeName), old(n.StatefulSet))
    {
      var node := entries[i];
      LastEntryNext(entries, i);
      if node.ID in cluster {
        var rNode := cluster[node.ID];
        rNode.PodName := node.PodName;
        rNode.NodeName := node.NodeName;
        rNode.StatefulSet := node.StatefulSet;
      }
    }
    assert entries[..|entries|] == entries;
  }

  lemma NoEntries(nodes: seq<Node>)
    ensures forall n :: n in nodes ==> LastEntry([], n.ID) == None
  {
  }

  lemma LastEntryNext(entries: seq<RedisClusterNode>, i: nat)
    requires i < |entries|
    ensures forall id ::
      LastEntry(entries[..i + 1], id) == if entries[i].ID == id then Some(entries[i]) else LastEntry(entries[..i], id)
  {
    var longer := entries[..i + 1];
    assert longer[..i] == entries[..i] && longer[|longer| - 1] == entries[i];
    forall id
      ensures LastEntry(longer, id) == if entries[i].ID == id then Some(entries[i]) else LastEntry(entries[..i], id)
    {
      assert longer[..|longer| - 1] == entries[..i];
    }
  }
}
