/** The fixpoint of the reconcile loop: what buildClusterStatus and needClusterOperation make of the next look at the
    cluster, once a round has gone through without a failed command. */
module Fixpoint {
  import opened Slots
  import opened Nodes
  import opened Redis
  import opened Roles
  import opened Placement
  import opened Status
  import opened Convergence
  import opened Scene
  import opened Results
  import opened Sync

  /** A replica whom all other nodes of its statefulset follow: Redis would have nothing to refuse if it were chosen. */
  ghost predicate Captive(replicaOf: map<Addr, NodeID>, sc: Scene, m: Node) {
    && m in sc.replicas && m in sc.home
    && (forall n :: n in sc.home && sc.home[n] == sc.home[m] && n != m ==> Replicates(replicaOf, n, m.ID))
  }

  /** What a look shows of roles. */
  ghost predicate RolesSeen(replicaOf: map<Addr, NodeID>, sc: Scene) {
    forall n :: n in sc.nodes ==> (n in sc.replicas <==> n.IPPort() in replicaOf)
  }

  /** A replica that was chosen in a round without a failed command is such a one. */
  lemma CaptiveChosen(replicaOf: map<Addr, NodeID>, sc: Scene, spec: Spec, ss: string)
    requires sc.Good(spec.Name, spec.MasterSize) && FollowedBefore(replicaOf, sc) && ss in sc.chosen
    ensures Captive(replicaOf, sc, sc.chosen[ss]) <==> sc.chosen[ss] in sc.replicas
  {
    hide NoDup, Apart, Replicates, sc.Members, sc.Dispatched;
    sc.ChosenNodes(spec.Name, spec.MasterSize);
    var m := sc.chosen[ss];
    assert ToSet(sc.nodes) == sc.home.Keys;
    forall n | n in sc.home && sc.home[n] == sc.home[m] && n != m && m in sc.replicas
      ensures Replicates(replicaOf, n, m.ID)
    {
      assert n in ToSet(sc.nodes);
      assert n in sc.groups[ss];
    }
  }

  /** Nobody follows a node that is a replica itself. */
  ghost predicate NoChains(replicaOf: map<Addr, NodeID>, nodes: seq<Node>) {
    forall n, m :: n in nodes && m in nodes && Replicates(replicaOf, n, m.ID) ==> m.IPPort() !in replicaOf
  }

  /** With slaves to come there is no such replica, unless somebody follows one. */
  lemma ChainsOnly(replicaOf: map<Addr, NodeID>, sc: Scene, size: nat, m: Node)
    requires sc.Members() && RolesSeen(replicaOf, sc) && NoChains(replicaOf, sc.nodes)
    requires size > 1 && m in sc.nodes && m in sc.home && |sc.NodesOf(sc.home[m])| == size
    ensures !Captive(replicaOf, sc, m)
  {
    hide NoDup, Apart, Node.IPPort, Replicates;
    var group := sc.NodesOf(sc.home[m]);
    assert m in group;
    assert group != {m};
    var n :| n in group && n != m;
    assert n in ToSet(sc.nodes);
  }

  /** The next look.  After a round without a failed command and with a full number of nodes the next status asks for
      another operation exactly when a replica was chosen whom its whole statefulset followed already.  The choice is
      that of Picks, so this can be read off the look and the status the round started from. */
  lemma NextRound(was: Snapshot, admin: Admin, sc: Scene, spec: Spec, outcome: Outcome, infos: seq<Node>,
                  pods: seq<Pod>, status: ClusterStatus, counters: map<NodeID, nat>)
    requires Attached(was, admin, sc, spec, outcome) && Clean(was, admin, outcome) && admin.Valid()
    requires sc.Good(spec.Name, spec.MasterSize) && sc.Complete(spec.ClusterReplicas + 1) && spec.MasterSize > 0
    requires Refreshed(admin, sc.nodes, infos) && OnePodEach(infos, pods)
    requires status.NumberOfMaster == PodsOf(infos, pods, MastersAmong(infos))
    requires Counters(infos, pods, counters)
    requires Extremes(counters, status.MinReplicationFactor, status.MaxReplicationFactor)
    ensures NeedClusterOperation(spec, status) <==> !(sc.chosen.Values !! sc.replicas)
    ensures NeedClusterOperation(spec, status) <==>
      exists ss :: ss in sc.chosen && Captive(was.replicaOf, sc, sc.chosen[ss])
  {
    hide NoDup, Arranged, Leading, Refreshed, Counters, Extremes, PodsOf, FollowedBefore, Captive, AllSafe, sc.Good,
      sc.Complete, sc.NoSurplus;
    OperationNeeded(admin, sc.nodes, infos, sc.groups, sc.chosen, spec, pods, status, counters);
    forall ss | ss in sc.chosen
      ensures Captive(was.replicaOf, sc, sc.chosen[ss]) <==> sc.chosen[ss] in sc.replicas
    {
      CaptiveChosen(was.replicaOf, sc, spec, ss);
    }
    if !(sc.chosen.Values !! sc.replicas) {
      var m :| m in sc.chosen.Values && m in sc.replicas;
      var ss :| ss in sc.chosen && sc.chosen[ss] == m;
    }
  }

  /** So with slaves to come the loop has come to its end, unless somebody follows a replica; and without, exactly when
      no node was a replica. */
  lemma Settles(was: Snapshot, admin: Admin, sc: Scene, spec: Spec, outcome: Outcome, infos: seq<Node>,
                pods: seq<Pod>, status: ClusterStatus, counters: map<NodeID, nat>)
    requires Attached(was, admin, sc, spec, outcome) && Clean(was, admin, outcome) && admin.Valid()
    requires sc.Good(spec.Name, spec.MasterSize) && sc.Complete(spec.ClusterReplicas + 1) && spec.MasterSize > 0
    requires Refreshed(admin, sc.nodes, infos) && OnePodEach(infos, pods)
    requires status.NumberOfMaster == PodsOf(infos, pods, MastersAmong(infos))
    requires Counters(infos, pods, counters)
    requires Extremes(counters, status.MinReplicationFactor, status.MaxReplicationFactor)
    requires RolesSeen(was.replicaOf, sc)
    ensures spec.ClusterReplicas > 0 && NoChains(was.replicaOf, sc.nodes) ==> !NeedClusterOperation(spec, status)
    ensures spec.ClusterReplicas == 0 ==> (NeedClusterOperation(spec, status) <==> sc.replicas != {})
  {
    hide Attached, Clean, Refreshed, Counters, Extremes, OnePodEach, PodsOf, Captive, NeedClusterOperation, NoChains,
      RolesSeen, NoDup, Apart, sc.ByHome, sc.OwnMasters;
    NextRound(was, admin, sc, spec, outcome, infos, pods, status, counters);
    sc.ChosenNodes(spec.Name, spec.MasterSize);
    if spec.ClusterReplicas > 0 && NoChains(was.replicaOf, sc.nodes) {
      forall ss | ss in sc.chosen ensures !Captive(was.replicaOf, sc, sc.chosen[ss]) {
        assert sc.home[sc.chosen[ss]] == ss;
        ChainsOnly(was.replicaOf, sc, spec.ClusterReplicas + 1, sc.chosen[ss]);
      }
    }
    if spec.ClusterReplicas == 0 {
      AllChosen(was, admin, sc, spec, outcome);
    }
  }

  /** Without slaves every node is chosen. */
  lemma AllChosen(was: Snapshot, admin: Admin, sc: Scene, spec: Spec, outcome: Outcome)
    requires Attached(was, admin, sc, spec, outcome) && Clean(was, admin, outcome)
    requires sc.Good(spec.Name, spec.MasterSize) && sc.Complete(1)
    ensures sc.chosen.Values !! sc.replicas <==> sc.replicas == {}
  {
    hide NoDup, Apart, Arranged, Leading, FollowedBefore, AllSafe, sc.ByHome, sc.OwnMasters;
    sc.ChosenNodes(spec.Name, spec.MasterSize);
    forall n | n in sc.replicas ensures n in sc.chosen.Values {
      assert n in ToSet(sc.nodes) && n in sc.home;
      var m := sc.chosen[sc.home[n]];
      var group := sc.NodesOf(sc.home[n]);
      assert n in group && m in group;
      OnlyOne(group, n, m);
    }
  }

  lemma OnlyOne<T>(s: set<T>, a: T, b: T)
    requires |s| == 1 && a in s && b in s
    ensures a == b
  {
    assert |s - {a}| == 0;
  }

  /** A clean round with full statefulsets, and a new look after it. */
  ghost predicate Afterwards(was: Snapshot, admin: Admin, sc: Scene, spec: Spec, outcome: Outcome, infos: seq<Node>)
    reads admin, infos
  {
    && Attached(was, admin, sc, spec, outcome) && Clean(was, admin, outcome) && admin.Valid()
    && sc.Good(spec.Name, spec.MasterSize) && sc.Complete(spec.ClusterReplicas + 1) && spec.MasterSize > 0
    && Refreshed(admin, sc.nodes, infos) && RolesSeen(was.replicaOf, sc)
  }

  lemma AfterwardsGives(was: Snapshot, admin: Admin, sc: Scene, spec: Spec, outcome: Outcome, infos: seq<Node>)
    requires Afterwards(was, admin, sc, spec, outcome, infos)
    ensures Attached(was, admin, sc, spec, outcome) && Clean(was, admin, outcome) && admin.Valid()
    ensures sc.Good(spec.Name, spec.MasterSize) && sc.Complete(spec.ClusterReplicas + 1) && spec.MasterSize > 0
    ensures Refreshed(admin, sc.nodes, infos) && RolesSeen(was.replicaOf, sc)
  {
    hide Attached, Clean, RolesSeen, Refreshed, sc.Good, sc.Complete;
  }

  /** A look at the cluster: the new status, and whether it asks for another operation.  It does not exactly when the
      look shows the expected number of masters with slots, and the expected number of slaves for every master seen or
      named.  After a clean round with full statefulsets that is a matter of the masters chosen. */
  method LookAgain(ghost was: Snapshot, admin: Admin, ghost sc: Scene, spec: Spec, ghost outcome: Outcome,
                   infos: seq<Node>, pods: seq<Pod>, oldStatus: ClusterStatus)
    returns (status: ClusterStatus, again: bool)
    requires OnePodEach(infos, pods) && |pods| < MAX_INT32
    requires forall n, s :: n in infos && s in n.Slots ==> s <= MAX_UINT64
    ensures !again <==>
      && |set m | m in infos && m.GetRole() == RoleMaster && m.Slots != []| == spec.MasterSize
      && Replicated(infos, spec.ClusterReplicas)
    ensures Afterwards(was, admin, sc, spec, outcome, infos) ==>
      && (again <==> exists ss :: ss in sc.chosen && Captive(was.replicaOf, sc, sc.chosen[ss]))
      && (spec.ClusterReplicas > 0 && NoChains(was.replicaOf, sc.nodes) ==> !again)
      && (spec.ClusterReplicas == 0 ==> (again <==> sc.replicas != {}))
    ensures Entered(infos, pods, status.Nodes)
  {
    hide Afterwards, Attached, Clean, OnePodEach, Counters, Extremes, PodsOf, MastersAmong, Captive, NoChains,
      RolesSeen, Entered, Replicated, NoDup, Holders, Same, sc.Good, sc.Complete, NeedClusterOperation;
    ghost var counters;
    status, counters := BuildClusterStatus(infos, pods, oldStatus);
    OperationAsked(spec, infos, pods, status, counters);
    if Afterwards(was, admin, sc, spec, outcome, infos) {
      AfterwardsGives(was, admin, sc, spec, outcome, infos);
      NextRound(was, admin, sc, spec, outcome, infos, pods, status, counters);
      Settles(was, admin, sc, spec, outcome, infos, pods, status, counters);
    }
    again := NeedClusterOperation(spec, status);
  }

  /** And a round that is to create slaves cannot go through at all once it has chosen a replica that not all of its
      statefulset follows: Redis refuses to attach the rest. */
  lemma CannotGoThrough(was: Snapshot, admin: Admin, sc: Scene, spec: Spec, outcome: Outcome, ss: string)
    requires Attached(was, admin, sc, spec, outcome) && !outcome.Panic? && sc.Good(spec.Name, spec.MasterSize)
    requires ss in sc.chosen && sc.chosen[ss] in sc.replicas && !Captive(was.replicaOf, sc, sc.chosen[ss])
    ensures admin.failures > was.failures
  {
    hide NoDup, Arranged, Leading, FollowedBefore, Captive, AllSafe, sc.Good, sc.Complete, sc.NoSurplus;
    if Clean(was, admin, outcome) {
      CaptiveChosen(was.replicaOf, sc, spec, ss);
    }
  }
}
