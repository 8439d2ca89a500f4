/** When a reconcile round has nothing left to do: what syncCluster must reach, and what buildClusterStatus
    and needClusterOperation then make of a fresh look at the cluster. */
module Convergence {
  import opened Slots
  import opened Nodes
  import opened Redis
  import opened Roles
  import opened Placement
  import opened Status

  /** The record of a node agrees with the node: the slots it claims, its role and its master. */
  ghost predicate Reports(admin: Admin, n: Node)
    requires admin.Valid()
    reads admin, n
  {
    && (forall s: Slot :: s in n.Slots <==> s < |admin.log| && n.IPPort() in Holders(admin.ids, admin.Now(s)))
    && (if n.IPPort() in admin.replicaOf then Recorded(n, admin.replicaOf[n.IPPort()])
        else n.Role == MASTER_ROLE && n.MasterReferent == "")
  }

  predicate Same(n: Node, m: Node) {
    n.ID == m.ID && n.IP == m.IP && n.Port == m.Port
  }

  /** `infos` is a new look at the same nodes. */
  ghost predicate Refreshed(admin: Admin, nodes: seq<Node>, infos: seq<Node>)
    requires admin.Valid()
    reads admin, infos
  {
    && NoDup(infos) && (forall m, k :: m in infos && k in infos && m != k ==> m.ID != k.ID)
    && (forall n :: n in nodes ==> exists m :: m in infos && Same(n, m))
    && (forall m :: m in infos ==> exists n :: n in nodes && Same(n, m))
    && (forall m :: m in infos ==> Reports(admin, m))
  }

  /** The expected number of statefulsets, each of one chosen node that owns a slot and of the expected number of nodes
      that follow it. */
  ghost predicate Arranged(admin: Admin, nodes: seq<Node>, groups: map<string, seq<Node>>, chosen: map<string, Node>,
                           spec: Spec)
    requires admin.Valid()
    reads admin
  {
    && groups.Keys == chosen.Keys && |chosen| == spec.MasterSize && NodesIn(groups) == ToSet(nodes)
    && (forall n, m :: n in nodes && m in nodes && n != m ==> Apart(n, m))
    && (forall ss :: ss in groups ==>
          NoDup(groups[ss]) && |groups[ss]| == spec.ClusterReplicas + 1 && chosen[ss] in groups[ss])
    && (forall ss, tt, n :: ss in groups && tt in groups && n in groups[ss] && n in groups[tt] ==> ss == tt)
    && (forall ss :: ss in groups ==> Serves(admin, chosen[ss]))
    && (forall ss, n :: ss in groups && n in groups[ss] && n != chosen[ss] ==>
          Replicates(admin.replicaOf, n, chosen[ss].ID))
  }

  /** A node that owns a slot. */
  ghost predicate Serves(admin: Admin, m: Node)
    requires admin.Valid()
    reads admin
  {
    m.ID != "" && exists s :: 0 <= s < |admin.log| && m.IPPort() in Holders(admin.ids, admin.Now(s))
  }

  /** The chosen nodes that are masters, as the cluster sees it. */
  ghost function Leaders(replicaOf: map<Addr, NodeID>, chosen: map<string, Node>): set<Node> {
    set ss | ss in chosen && chosen[ss].IPPort() !in replicaOf :: chosen[ss]
  }

  /** All of them are. */
  ghost predicate Leading(replicaOf: map<Addr, NodeID>, chosen: map<string, Node>) {
    forall ss :: ss in chosen ==> chosen[ss].IPPort() !in replicaOf
  }

  /** What a round is to reach. */
  ghost predicate Converged(admin: Admin, nodes: seq<Node>, groups: map<string, seq<Node>>, chosen: map<string, Node>,
                            spec: Spec)
    requires admin.Valid()
    reads admin
  {
    Arranged(admin, nodes, groups, chosen, spec) && Leading(admin.replicaOf, chosen)
  }

  lemma LeadersCount(replicaOf: map<Addr, NodeID>, chosen: map<string, Node>)
    requires forall ss, tt :: ss in chosen && tt in chosen && ss != tt ==> chosen[ss] != chosen[tt]
    ensures |Leaders(replicaOf, chosen)| <= |chosen|
    ensures |Leaders(replicaOf, chosen)| == |chosen| <==> Leading(replicaOf, chosen)
  {
    hide Node.IPPort;
    var all := set ss | ss in chosen.Keys :: chosen[ss];
    ValuesCard(chosen, chosen.Keys);
    assert Leaders(replicaOf, chosen) <= all;
    SubsetCount(Leaders(replicaOf, chosen), all);
    if Leading(replicaOf, chosen) {
      assert Leaders(replicaOf, chosen) == all;
    }
    if Leaders(replicaOf, chosen) == all {
      forall ss | ss in chosen ensures chosen[ss].IPPort() !in replicaOf {
        assert chosen[ss] in all;
      }
    }
  }

  lemma SubsetCount<T>(a: set<T>, b: set<T>)
    requires a <= b
    ensures |a| <= |b| && (|a| == |b| ==> a == b)
  {
    assert b == a + (b - a);
  }

  ghost function Twin(infos: seq<Node>, n: Node): (m: Node)
    requires exists m :: m in infos && Same(n, m)
    ensures m in infos && Same(n, m)
  {
    var m :| m in infos && Same(n, m);
    m
  }

  ghost function Twins(infos: seq<Node>, ns: set<Node>): set<Node>
    requires forall n :: n in ns ==> exists m :: m in infos && Same(n, m)
  {
    set n | n in ns :: Twin(infos, n)
  }

  lemma OneMoreTwin(infos: seq<Node>, ns: set<Node>, n: Node)
    requires forall n :: n in ns ==> exists m :: m in infos && Same(n, m)
    requires forall n, k :: n in ns && k in ns && n != k ==> n.ID != k.ID
    requires n in ns
    ensures |Twins(infos, ns)| == |Twins(infos, ns - {n})| + 1
  {
    hide Twin;
    var rest := Twins(infos, ns - {n});
    assert Twin(infos, n) !in rest;
    assert Twins(infos, ns) == rest + {Twin(infos, n)};
  }

  lemma {:induction false} TwinsCard(infos: seq<Node>, ns: set<Node>)
    requires forall n :: n in ns ==> exists m :: m in infos && Same(n, m)
    requires forall n, k :: n in ns && k in ns && n != k ==> n.ID != k.ID
    ensures |Twins(infos, ns)| == |ns|
  {
    hide Twin;
    if ns != {} {
      var n :| n in ns;
      TwinsCard(infos, ns - {n});
      OneMoreTwin(infos, ns, n);
    } else {
      assert Twins(infos, ns) == {};
    }
  }

  /** A fresh record of a node shows the part it plays in its statefulset. */
  lemma FreshNode(admin: Admin, nodes: seq<Node>, infos: seq<Node>, groups: map<string, seq<Node>>,
                  chosen: map<string, Node>, spec: Spec, ss: string, n: Node, m: Node)
    requires admin.Valid() && Arranged(admin, nodes, groups, chosen, spec) && Refreshed(admin, nodes, infos)
    requires ss in groups && n in groups[ss] && m in infos && Same(n, m)
    ensures n in nodes && (m.IsMasterWithSlot() <==> n == chosen[ss] && n.IPPort() !in admin.replicaOf)
    ensures n.IPPort() !in admin.replicaOf ==> !m.IsSlave()
    ensures n != chosen[ss] ==> m.IsSlave() && m.MasterReferent == chosen[ss].ID
  {
    hide NoDup, Holders, Arranged, Refreshed;
    Members(admin, nodes, groups, chosen, spec);
    Record(admin, nodes, infos, m);
    Part(admin, nodes, groups, chosen, spec, ss, n);
    assert n.IPPort() == m.IPPort();
    if n == chosen[ss] {
      var s :| 0 <= s < |admin.log| && n.IPPort() in Holders(admin.ids, admin.Now(s));
      assert s in m.Slots;
    }
  }

  lemma Record(admin: Admin, nodes: seq<Node>, infos: seq<Node>, m: Node)
    requires admin.Valid() && Refreshed(admin, nodes, infos) && m in infos
    ensures Reports(admin, m)
  {
    hide NoDup, Reports;
  }

  lemma TwinsExist(admin: Admin, nodes: seq<Node>, infos: seq<Node>)
    requires admin.Valid() && Refreshed(admin, nodes, infos)
    ensures forall n :: n in nodes ==> exists k :: k in infos && Same(n, k)
    ensures forall a, b :: a in infos && b in infos && a != b ==> a.ID != b.ID
  {
    hide NoDup, Reports;
  }

  lemma Part(admin: Admin, nodes: seq<Node>, groups: map<string, seq<Node>>, chosen: map<string, Node>, spec: Spec,
             ss: string, n: Node)
    requires admin.Valid() && Arranged(admin, nodes, groups, chosen, spec) && ss in groups && n in groups[ss]
    ensures ss in chosen && if n == chosen[ss] then Serves(admin, n) else Replicates(admin.replicaOf, n, chosen[ss].ID)
  {
    hide NoDup, Serves;
  }

  /** Every fresh record is the twin of a node with a place. */
  lemma PlaceOf(admin: Admin, nodes: seq<Node>, infos: seq<Node>, groups: map<string, seq<Node>>,
                chosen: map<string, Node>, spec: Spec, m: Node) returns (ss: string, n: Node)
    requires admin.Valid() && Arranged(admin, nodes, groups, chosen, spec) && Refreshed(admin, nodes, infos)
    requires m in infos
    ensures ss in groups && n in groups[ss] && n in nodes && Same(n, m) && Twin(infos, n) == m
  {
    hide NoDup, Reports, Serves, Replicates;
    n :| n in nodes && Same(n, m);
    assert n in ToSet(nodes);
    ss :| ss in groups && n in groups[ss];
  }

  lemma Members(admin: Admin, nodes: seq<Node>, groups: map<string, seq<Node>>, chosen: map<string, Node>, spec: Spec)
    requires admin.Valid() && Arranged(admin, nodes, groups, chosen, spec)
    ensures groups.Keys == chosen.Keys && |chosen| == spec.MasterSize
    ensures forall ss, n :: ss in groups && n in groups[ss] ==> n in nodes
    ensures forall n, k :: n in nodes && k in nodes && n != k ==> n.ID != k.ID
    ensures forall ss :: ss in chosen ==> chosen[ss] in groups[ss] && chosen[ss] in nodes && chosen[ss].ID != ""
    ensures forall ss, tt :: ss in chosen && tt in chosen && ss != tt ==>
      chosen[ss] != chosen[tt] && chosen[ss].ID != chosen[tt].ID
    ensures forall ss :: ss in groups ==> NoDup(groups[ss]) && |groups[ss]| == spec.ClusterReplicas + 1
  {
    hide NoDup, Holders;
    forall ss, n | ss in groups && n in groups[ss] ensures n in nodes {
      assert n in NodesIn(groups);
    }
    forall n, k | n in nodes && k in nodes && n != k ensures n.ID != k.ID {
      assert Apart(n, k);
    }
    forall ss | ss in chosen ensures chosen[ss].ID != "" {
      assert Serves(admin, chosen[ss]);
    }
  }

  /** The masters with slots in a fresh look are those chosen. */
  lemma MastersSeen(admin: Admin, nodes: seq<Node>, infos: seq<Node>, groups: map<string, seq<Node>>,
                    chosen: map<string, Node>, spec: Spec)
    requires admin.Valid() && Arranged(admin, nodes, groups, chosen, spec) && Refreshed(admin, nodes, infos)
    ensures forall m :: m in MastersAmong(infos) ==> exists ss :: ss in chosen && chosen[ss].ID == m.ID
    ensures forall n :: n in Leaders(admin.replicaOf, chosen) ==> exists m :: m in MastersAmong(infos) && Same(n, m)
  {
    hide NoDup, Holders, Arranged, Refreshed, Node.IsMasterWithSlot, Node.IsSlave;
    Members(admin, nodes, groups, chosen, spec);
    TwinsExist(admin, nodes, infos);
    forall m | m in MastersAmong(infos) ensures exists ss :: ss in chosen && chosen[ss].ID == m.ID {
      var ss, n := PlaceOf(admin, nodes, infos, groups, chosen, spec, m);
      FreshNode(admin, nodes, infos, groups, chosen, spec, ss, n, m);
    }
    forall n | n in Leaders(admin.replicaOf, chosen) ensures exists m :: m in MastersAmong(infos) && Same(n, m) {
      var ss :| ss in chosen && chosen[ss] == n;
      FreshNode(admin, nodes, infos, groups, chosen, spec, ss, n, Twin(infos, n));
    }
  }

  /** A fresh look shows exactly the chosen nodes that are no replicas as masters with slots. */
  lemma MastersCounted(admin: Admin, nodes: seq<Node>, infos: seq<Node>, groups: map<string, seq<Node>>,
                       chosen: map<string, Node>, spec: Spec)
    requires admin.Valid() && Arranged(admin, nodes, groups, chosen, spec) && Refreshed(admin, nodes, infos)
    ensures |MastersAmong(infos)| == |Leaders(admin.replicaOf, chosen)|
    ensures |MastersAmong(infos)| == spec.MasterSize <==> Leading(admin.replicaOf, chosen)
  {
    hide NoDup, Holders, Arranged, Refreshed, Leading, Node.IsMasterWithSlot, Node.IsSlave, Same;
    Members(admin, nodes, groups, chosen, spec);
    TwinsExist(admin, nodes, infos);
    var masters := Leaders(admin.replicaOf, chosen);
    LeadersCount(admin.replicaOf, chosen);
    assert forall n :: n in masters ==> n in nodes;
    TwinsCard(infos, masters);
    forall m | m in MastersAmong(infos) ensures m in Twins(infos, masters) {
      var ss, n := PlaceOf(admin, nodes, infos, groups, chosen, spec, m);
      FreshNode(admin, nodes, infos, groups, chosen, spec, ss, n, m);
      assert n in masters && m == Twin(infos, n);
    }
    forall n | n in masters ensures Twin(infos, n) in MastersAmong(infos) {
      var ss :| ss in chosen && chosen[ss] == n;
      FreshNode(admin, nodes, infos, groups, chosen, spec, ss, n, Twin(infos, n));
    }
    assert MastersAmong(infos) == Twins(infos, masters);
  }

  lemma LeaderChosen(replicaOf: map<Addr, NodeID>, chosen: map<string, Node>, ss: string)
    requires Leading(replicaOf, chosen) && ss in chosen
    ensures chosen[ss].IPPort() !in replicaOf
  {
  }

  /** Every chosen master has its full number of slaves in a fresh look. */
  lemma SlavesSeen(admin: Admin, nodes: seq<Node>, infos: seq<Node>, groups: map<string, seq<Node>>,
                   chosen: map<string, Node>, spec: Spec, ss: string)
    requires admin.Valid() && Converged(admin, nodes, groups, chosen, spec) && Refreshed(admin, nodes, infos)
    requires ss in groups
    ensures ss in chosen && |SlavesAmong(infos, chosen[ss].ID)| == spec.ClusterReplicas
  {
    hide NoDup, Holders, Arranged, Leading, Refreshed, Node.IsMasterWithSlot, Node.IsSlave, Same;
    Members(admin, nodes, groups, chosen, spec);
    TwinsExist(admin, nodes, infos);
    var slaves := ToSet(groups[ss]) - {chosen[ss]};
    NoDupCard(groups[ss]);
    assert forall n :: n in slaves ==> n in groups[ss] && n in nodes;
    TwinsCard(infos, slaves);
    forall m | m in SlavesAmong(infos, chosen[ss].ID) ensures m in Twins(infos, slaves) {
      var tt, n := PlaceOf(admin, nodes, infos, groups, chosen, spec, m);
      FreshNode(admin, nodes, infos, groups, chosen, spec, tt, n, m);
      LeaderChosen(admin.replicaOf, chosen, tt);
      assert tt == ss;
      assert n in slaves && m == Twin(infos, n);
    }
    forall n | n in slaves ensures Twin(infos, n) in SlavesAmong(infos, chosen[ss].ID) {
      FreshNode(admin, nodes, infos, groups, chosen, spec, ss, n, Twin(infos, n));
    }
    assert SlavesAmong(infos, chosen[ss].ID) == Twins(infos, slaves);
  }

  /** A fresh slave names a chosen master. */
  lemma ReferentsChosen(admin: Admin, nodes: seq<Node>, infos: seq<Node>, groups: map<string, seq<Node>>,
                        chosen: map<string, Node>, spec: Spec, m: Node)
    requires admin.Valid() && Converged(admin, nodes, groups, chosen, spec) && Refreshed(admin, nodes, infos)
    requires m in infos && m.IsSlave()
    ensures exists ss :: ss in chosen && chosen[ss].ID == m.MasterReferent
  {
    hide NoDup, Holders, Arranged, Refreshed, Node.IsSlave, Reports;
    Members(admin, nodes, groups, chosen, spec);
    var ss, n := PlaceOf(admin, nodes, infos, groups, chosen, spec, m);
    FreshNode(admin, nodes, infos, groups, chosen, spec, ss, n, m);
    LeaderChosen(admin.replicaOf, chosen, ss);
  }

  /** Only the chosen masters have counters, and each of them counts its slaves. */
  lemma CountersSeen(admin: Admin, nodes: seq<Node>, infos: seq<Node>, groups: map<string, seq<Node>>,
                     chosen: map<string, Node>, spec: Spec, pods: seq<Pod>, counters: map<NodeID, nat>)
    requires admin.Valid() && Converged(admin, nodes, groups, chosen, spec)
    requires Refreshed(admin, nodes, infos) && OnePodEach(infos, pods) && Counters(infos, pods, counters)
    ensures forall id :: id in counters ==> counters[id] == spec.ClusterReplicas
    ensures spec.MasterSize > 0 ==> counters != map[]
  {
    hide NoDup, Holders, Arranged, Leading, Refreshed, At, PodsOf;
    Members(admin, nodes, groups, chosen, spec);
    MastersCounted(admin, nodes, infos, groups, chosen, spec);
    forall id | id in counters ensures counters[id] == spec.ClusterReplicas {
      var ss := CounterOwner(admin, nodes, infos, groups, chosen, spec, pods, id);
      SlavesSeen(admin, nodes, infos, groups, chosen, spec, ss);
      PodsOfAll(infos, pods, SlavesAmong(infos, id));
    }
    if spec.MasterSize > 0 {
      var m :| m in MastersAmong(infos);
      MasterTracked(infos, pods, m);
    }
  }

  lemma CounterOwner(admin: Admin, nodes: seq<Node>, infos: seq<Node>, groups: map<string, seq<Node>>,
                     chosen: map<string, Node>, spec: Spec, pods: seq<Pod>, id: NodeID) returns (ss: string)
    requires admin.Valid() && Converged(admin, nodes, groups, chosen, spec)
    requires Refreshed(admin, nodes, infos) && Tracked(infos, pods, id)
    ensures ss in chosen && chosen[ss].ID == id
  {
    hide NoDup, Holders, Arranged, Leading, Refreshed, Tracked, Node.IsMasterWithSlot, Node.IsSlave;
    var m := TrackedNode(infos, pods, id);
    if m in MastersAmong(infos) {
      MastersSeen(admin, nodes, infos, groups, chosen, spec);
      ss :| ss in chosen && chosen[ss].ID == m.ID;
    } else {
      ReferentsChosen(admin, nodes, infos, groups, chosen, spec, m);
      ss :| ss in chosen && chosen[ss].ID == m.MasterReferent;
    }
  }

  lemma TrackedNode(infos: seq<Node>, pods: seq<Pod>, id: NodeID) returns (m: Node)
    requires Tracked(infos, pods, id)
    ensures m in infos && if m in MastersAmong(infos) then m.ID == id else m.IsSlave() && m.MasterReferent == id
  {
    hide Node.IsMasterWithSlot, Node.IsSlave;
    if exists pod :: pod in pods && Alone(infos, pod, MastersAmong(infos)) && At(infos, pod.PodIP)[0].ID == id {
      var pod :| pod in pods && Alone(infos, pod, MastersAmong(infos)) && At(infos, pod.PodIP)[0].ID == id;
      m := At(infos, pod.PodIP)[0];
    } else {
      var pod :| pod in pods && Alone(infos, pod, SlavesAmong(infos, id));
      m := At(infos, pod.PodIP)[0];
      SlaveNoMaster(infos, m);
    }
  }

  lemma SlaveNoMaster(infos: seq<Node>, m: Node)
    requires m.IsSlave()
    ensures m !in MastersAmong(infos)
  {
  }

  lemma MasterTracked(infos: seq<Node>, pods: seq<Pod>, m: Node)
    requires OnePodEach(infos, pods) && m in MastersAmong(infos)
    ensures Tracked(infos, pods, m.ID)
  {
    var pod :| pod in pods && pod.PodIP == m.IP;
    AtOwnIP(infos, m);
    assert Alone(infos, pod, MastersAmong(infos));
  }

  /** The fixpoint of a reconcile round: from a converged cluster, whatever order its nodes and pods are listed in,
      buildClusterStatus makes a status that asks for no operation. */
  lemma NothingToDo(admin: Admin, nodes: seq<Node>, infos: seq<Node>, groups: map<string, seq<Node>>,
                    chosen: map<string, Node>, spec: Spec,
                    pods: seq<Pod>, status: ClusterStatus, counters: map<NodeID, nat>)
    requires admin.Valid() && Converged(admin, nodes, groups, chosen, spec) && spec.MasterSize > 0
    requires Refreshed(admin, nodes, infos) && OnePodEach(infos, pods)
    requires status.NumberOfMaster == PodsOf(infos, pods, MastersAmong(infos))
    requires Counters(infos, pods, counters)
    requires Extremes(counters, status.MinReplicationFactor, status.MaxReplicationFactor)
    ensures !NeedClusterOperation(spec, status)
  {
    hide NoDup, Holders, Arranged, Leading, Refreshed, Counters, PodsOf;
    MastersCounted(admin, nodes, infos, groups, chosen, spec);
    PodsOfAll(infos, pods, MastersAmong(infos));
    CountersSeen(admin, nodes, infos, groups, chosen, spec, pods, counters);
  }
  /** And otherwise it asks for one: whatever the slaves are counted as, a chosen node that is a replica is missing
      among the masters with slots.  So once everything is arranged, another operation is asked for exactly when such
      a node has been chosen. */
  lemma OperationNeeded(admin: Admin, nodes: seq<Node>, infos: seq<Node>, groups: map<string, seq<Node>>,
                        chosen: map<string, Node>, spec: Spec, pods: seq<Pod>, status: ClusterStatus,
                        counters: map<NodeID, nat>)
    requires admin.Valid() && Arranged(admin, nodes, groups, chosen, spec) && spec.MasterSize > 0
    requires Refreshed(admin, nodes, infos) && OnePodEach(infos, pods)
    requires status.NumberOfMaster == PodsOf(infos, pods, MastersAmong(infos))
    requires Counters(infos, pods, counters)
    requires Extremes(counters, status.MinReplicationFactor, status.MaxReplicationFactor)
    ensures NeedClusterOperation(spec, status) <==> !Leading(admin.replicaOf, chosen)
  {
    hide NoDup, Holders, Arranged, Leading, Refreshed, Counters, Extremes, PodsOf;
    if Leading(admin.replicaOf, chosen) {
      NothingToDo(admin, nodes, infos, groups, chosen, spec, pods, status, counters);
    } else {
      MastersCounted(admin, nodes, infos, groups, chosen, spec);
      PodsOfAll(infos, pods, MastersAmong(infos));
    }
  }
}
