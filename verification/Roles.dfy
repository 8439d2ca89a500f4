/** Attaching slaves to their masters: pkg/controller/clustering/roles.go. */
module Roles {
  import opened Slots
  import opened Nodes
  import opened Redis

  ghost function NodesIn(groups: map<string, seq<Node>>): (r: set<Node>)
    ensures forall ss, n :: ss in groups && n in groups[ss] ==> n in r
  {
    set ss, n | ss in groups && n in groups[ss] :: n
  }

  /** The operator's record of the node. */
  ghost predicate Recorded(n: Node, masterID: NodeID)
    reads n`Role, n`MasterReferent
  {
    n.Role == SLAVE_ROLE && n.MasterReferent == masterID
  }

  /** The cluster's side: the node has obeyed a REPLICATE for this master last. */
  ghost predicate Replicates(replicaOf: map<Addr, NodeID>, n: Node, masterID: NodeID) {
    n.IPPort() in replicaOf && replicaOf[n.IPPort()] == masterID
  }

  ghost predicate Follows(replicaOf: map<Addr, NodeID>, n: Node, masterID: NodeID)
    reads n`Role, n`MasterReferent
  {
    Recorded(n, masterID) && Replicates(replicaOf, n, masterID)
  }

  /** No node is listed twice, different nodes have different addresses, and the index answers by id. */
  ghost predicate Attachable(slaves: map<NodeID, seq<Node>>, cluster: map<NodeID, Node>) {
    && (forall id :: id in slaves ==> NoDup(slaves[id]))
    && (forall id, di, n :: id in slaves && di in slaves && n in slaves[id] && n in slaves[di] ==> id == di)
    && (forall id, di, n, m :: id in slaves && di in slaves && n in slaves[id] && m in slaves[di] && n != m ==>
          n.IPPort() != m.IPPort())
    && (forall id :: id in cluster ==> cluster[id].ID == id && id != "-")
  }

  ghost predicate AllFollow(replicaOf: map<Addr, NodeID>, slaves: map<NodeID, seq<Node>>, cluster: map<NodeID, Node>)
    reads NodesIn(slaves)
  {
    forall id, n :: id in slaves && id in cluster && n in slaves[id] ==> Follows(replicaOf, n, id)
  }

  /** Exactly the slaves of the known masters outside `rest` have been told. */
  ghost predicate AskedOf(asked: seq<Node>, slaves: map<NodeID, seq<Node>>, cluster: map<NodeID, Node>,
                          rest: set<NodeID>)
  {
    && (forall n :: n in asked ==> exists id :: id in slaves && id in cluster && id !in rest && n in slaves[id])
    && (forall id, n :: id in slaves && id in cluster && id !in rest && n in slaves[id] ==> n in asked)
  }

  /** The first i slaves replicate the master, and no other address has changed. */
  ghost predicate FirstReplicate(before: map<Addr, NodeID>, replicaOf: map<Addr, NodeID>, slaves: seq<Node>, i: nat,
                                 masterID: NodeID)
  {
    && (forall k :: 0 <= k < |slaves| && k < i ==> Replicates(replicaOf, slaves[k], masterID))
    && OthersKept(before, replicaOf, slaves)
  }

  ghost predicate OthersKept(before: map<Addr, NodeID>, replicaOf: map<Addr, NodeID>, slaves: seq<Node>) {
    && (forall a :: a in before && a !in Addrs(slaves) ==> a in replicaOf && replicaOf[a] == before[a])
    && (forall a :: a in replicaOf && a !in Addrs(slaves) ==> a in before)
  }

  lemma NextReplicates(before: map<Addr, NodeID>, replicaOf: map<Addr, NodeID>, slaves: seq<Node>, i: nat,
                       masterID: NodeID)
    requires i < |slaves| && FirstReplicate(before, replicaOf, slaves, i, masterID)
    ensures FirstReplicate(before, replicaOf[slaves[i].IPPort() := masterID], slaves, i + 1, masterID)
    ensures Addrs(slaves[..i + 1]) == Addrs(slaves[..i]) + [slaves[i].IPPort()]
  {
    hide Addrs, Node.IPPort;
    AddrsNext(slaves, i);
    var addr := slaves[i].IPPort();
    forall k | 0 <= k < i + 1 ensures Replicates(replicaOf[addr := masterID], slaves[k], masterID) {
      assert k < i ==> Replicates(replicaOf, slaves[k], masterID);
    }
  }

  lemma AddrsNext(slaves: seq<Node>, i: nat)
    requires i < |slaves|
    ensures slaves[i].IPPort() in Addrs(slaves)
    ensures Addrs(slaves[..i + 1]) == Addrs(slaves[..i]) + [slaves[i].IPPort()]
  {
    hide Node.IPPort;
    assert Addrs(slaves)[i] == slaves[i].IPPort();
    assert slaves[..i + 1][..i] == slaves[..i];
  }

  lemma KeptNext(before: map<Addr, NodeID>, replicaOf: map<Addr, NodeID>, slaves: seq<Node>, i: nat, masterID: NodeID)
    requires i < |slaves| && OthersKept(before, replicaOf, slaves)
    ensures OthersKept(before, replicaOf[slaves[i].IPPort() := masterID], slaves)
  {
    hide Addrs, Node.IPPort;
    AddrsNext(slaves, i);
  }

  lemma FirstOfNone(replicaOf: map<Addr, NodeID>, slaves: seq<Node>, masterID: NodeID)
    ensures FirstReplicate(replicaOf, replicaOf, slaves, 0, masterID) && OthersKept(replicaOf, replicaOf, slaves)
    ensures slaves[..0] == []
  {
  }

  lemma AllReplicate(before: map<Addr, NodeID>, replicaOf: map<Addr, NodeID>, slaves: seq<Node>, masterID: NodeID)
    ensures slaves[..|slaves|] == slaves
    ensures FirstReplicate(before, replicaOf, slaves, |slaves|, masterID) ==>
      forall n :: n in slaves ==> Replicates(replicaOf, n, masterID)
  {
  }

  lemma NoDupDiffers(slaves: seq<Node>)
    requires NoDup(slaves)
    ensures forall k, i :: 0 <= k < i < |slaves| ==> slaves[k] != slaves[i]
  {
  }

  /** The node of this id was a master. */
  ghost predicate Leads(ids: map<Addr, NodeID>, replicaOf: map<Addr, NodeID>, masterID: NodeID) {
    forall a :: a in ids && ids[a] == masterID ==> a !in replicaOf
  }

  lemma ObeyedLeads(admin: Admin, a: Addr, masterID: NodeID)
    ensures !admin.ReplicateRefused(a, masterID) ==> Leads(admin.ids, admin.replicaOf, masterID)
  {
  }

  /** Every one of these nodes has been sent its command: either it is among those that have obeyed since, or the
      command failed. */
  ghost predicate Tried(was: seq<Addr>, now: seq<Addr>, failed: nat, asked: seq<Node>) {
    && was <= now && |now| - |was| + failed == |asked|
    && (forall a :: a in now[|was|..] ==> a in Addrs(asked))
    && (failed == 0 ==> now == was + Addrs(asked))
  }

  /** The same, when so many commands have failed that some of these may be among them. */
  ghost predicate TriedAll(was: seq<Addr>, now: seq<Addr>, failures: int, asked: seq<Node>) {
    var failed := |asked| - (|now| - |was|);
    0 <= failed <= failures && Tried(was, now, failed, asked)
  }

  lemma TriedThen(was: seq<Addr>, now: seq<Addr>, failed: nat, failures: int, asked: seq<Node>)
    requires Tried(was, now, failed, asked) && failed <= failures
    ensures TriedAll(was, now, failures, asked)
  {
  }

  lemma TriedSize(was: seq<Addr>, now: seq<Addr>, failed: nat, asked: seq<Node>)
    requires Tried(was, now, failed, asked)
    ensures |now| + failed == |was| + |asked|
  {
  }

  lemma TriedNobody(was: seq<Addr>)
    ensures Tried(was, was, 0, [])
  {
  }

  lemma TriedNext(was: seq<Addr>, now: seq<Addr>, failed: nat, slaves: seq<Node>, i: nat)
    requires i < |slaves| && Tried(was, now, failed, slaves[..i])
    ensures Tried(was, now, failed + 1, slaves[..i + 1])
    ensures Tried(was, now + [slaves[i].IPPort()], failed, slaves[..i + 1])
  {
    hide Addrs, Node.IPPort;
    AddrsNext(slaves, i);
    var now' := now + [slaves[i].IPPort()];
    assert now'[|was|..] == now[|was|..] + [slaves[i].IPPort()];
  }

  lemma TriedMore(was: seq<Addr>, mid: seq<Addr>, now: seq<Addr>, f: nat, g: nat, a: seq<Node>, b: seq<Node>)
    requires Tried(was, mid, f, a) && Tried(mid, now, g, b)
    ensures Tried(was, now, f + g, a + b)
  {
    hide Addrs;
    AddrsConcat(a, b);
    assert now[|was|..] == mid[|was|..] + now[|mid|..];
  }

  /** The inner loop of AttachingSlavesToMaster, which goes on after a failure. */
  method AttachGroup(admin: Admin, masterID: NodeID, slaves: seq<Node>) returns (ok: bool)
    requires NoDup(slaves) && masterID != "-"
    modifies admin`replicaOf, admin`attached, admin`failures, slaves`Role, slaves`MasterReferent
    ensures admin.failures >= old(admin.failures) && (ok <==> admin.failures == old(admin.failures))
    ensures ok ==> forall n :: n in slaves ==> Recorded(n, masterID)
    ensures ok ==> forall n :: n in slaves ==> Replicates(admin.replicaOf, n, masterID)
    ensures Tried(old(admin.attached), admin.attached, admin.failures - old(admin.failures), slaves)
    ensures OthersKept(old(admin.replicaOf), admin.replicaOf, slaves)
    ensures ok && slaves != [] ==> Leads(admin.ids, old(admin.replicaOf), masterID)
  {
    hide NoDup, Addrs, Replicates, FirstReplicate, OthersKept, Leads, Tried, Node.IPPort, Admin.ReplicateRefused;
    ok := true;
    TriedNobody(admin.attached);
    NoDupDiffers(slaves);
    FirstOfNone(admin.replicaOf, slaves, masterID);
    for i := 0 to |slaves|
      invariant admin.failures >= old(admin.failures) && (ok <==> admin.failures == old(admin.failures))
      invariant ok ==> forall k :: 0 <= k < i ==> Recorded(slaves[k], masterID)
      invariant ok ==> FirstReplicate(old(admin.replicaOf), admin.replicaOf, slaves, i, masterID)
      invariant OthersKept(old(admin.replicaOf), admin.replicaOf, slaves)
      invariant Tried(old(admin.attached), admin.attached, admin.failures - old(admin.failures), slaves[..i])
      invariant i == 0 ==> admin.replicaOf == old(admin.replicaOf)
      invariant ok && i > 0 ==> Leads(admin.ids, old(admin.replicaOf), masterID)
    {
      ObeyedLeads(admin, slaves[i].IPPort(), masterID);
      if ok {
        NextReplicates(old(admin.replicaOf), admin.replicaOf, slaves, i, masterID);
      }
      KeptNext(old(admin.replicaOf), admin.replicaOf, slaves, i, masterID);
      TriedNext(old(admin.attached), admin.attached, admin.failures - old(admin.failures), slaves, i);
      ghost var attached := admin.attached;
      var done := admin.AttachSlaveToMaster(slaves[i], masterID);
      assert admin.attached == if done then attached + [slaves[i].IPPort()] else attached;
      if !done {
        ok := false;
      }
    }
    AllReplicate(old(admin.replicaOf), admin.replicaOf, slaves, masterID);
  }

  /** The slaves of the known masters outside `rest` replicate them. */
  ghost predicate ReplicateSoFar(replicaOf: map<Addr, NodeID>, slaves: map<NodeID, seq<Node>>,
                                 cluster: map<NodeID, Node>, rest: set<NodeID>)
  {
    forall id, n :: id in slaves && id in cluster && id !in rest && n in slaves[id] ==> Replicates(replicaOf, n, id)
  }

  lemma ReplicateStep(before: map<Addr, NodeID>, after: map<Addr, NodeID>, slaves: map<NodeID, seq<Node>>,
                      cluster: map<NodeID, Node>, rest: set<NodeID>, id: NodeID)
    requires Attachable(slaves, cluster) && id in slaves
    requires ReplicateSoFar(before, slaves, cluster, rest + {id}) && OthersKept(before, after, slaves[id])
    requires forall n :: n in slaves[id] ==> Replicates(after, n, id)
    ensures ReplicateSoFar(after, slaves, cluster, rest)
  {
    hide NoDup, Node.IPPort;
    forall di, n | di in slaves && di in cluster && di !in rest && n in slaves[di] ensures Replicates(after, n, di) {
      if di != id {
        forall m | m in slaves[id] ensures m.IPPort() != n.IPPort() {
        }
        assert n.IPPort() !in Addrs(slaves[id]);
      }
    }
  }

  lemma NoDupConcat(a: seq<Node>, b: seq<Node>)
    requires NoDup(a) && NoDup(b) && forall n :: n in a ==> n !in b
    ensures NoDup(a + b)
  {
    forall i, j | 0 <= i < j < |a + b| ensures (a + b)[i] != (a + b)[j] {
      if i < |a| <= j {
        assert a[i] in a && b[j - |a|] in b;
      }
    }
  }

  lemma {:induction false} AddrsConcat(a: seq<Node>, b: seq<Node>)
    ensures Addrs(a + b) == Addrs(a) + Addrs(b)
  {
  }

  lemma AskedStep(asked: seq<Node>, slaves: map<NodeID, seq<Node>>, cluster: map<NodeID, Node>, rest: set<NodeID>,
                  id: NodeID)
    requires Attachable(slaves, cluster) && id in slaves && id !in rest
    requires AskedOf(asked, slaves, cluster, rest + {id}) && NoDup(asked)
    ensures id in cluster ==> AskedOf(asked + slaves[id], slaves, cluster, rest) && NoDup(asked + slaves[id])
    ensures id in cluster ==> Addrs(asked + slaves[id]) == Addrs(asked) + Addrs(slaves[id])
    ensures id !in cluster ==> AskedOf(asked, slaves, cluster, rest)
  {
    hide NoDup, Addrs;
    if id in cluster {
      AddrsConcat(asked, slaves[id]);
      forall n | n in asked ensures n !in slaves[id] {
        var di :| di in slaves && di in cluster && di !in rest + {id} && n in slaves[di];
      }
      NoDupConcat(asked, slaves[id]);
    }
  }

  lemma ListAttachable(slaves: map<NodeID, seq<Node>>, cluster: map<NodeID, Node>, id: NodeID)
    requires Attachable(slaves, cluster) && id in slaves
    ensures NoDup(slaves[id]) && (id in cluster ==> cluster[id].ID == id && id != "-")
    ensures forall di, n :: di in slaves && di != id && n in slaves[di] ==> n !in slaves[id]
    ensures ToSet(slaves[id]) <= NodesIn(slaves)
  {
  }

  /** Whoever was followed anew outside `rest` was a master, unless it was told to follow as well. */
  ghost predicate LeadersLed(ids: map<Addr, NodeID>, replicaOf: map<Addr, NodeID>, slaves: map<NodeID, seq<Node>>,
                             cluster: map<NodeID, Node>, rest: set<NodeID>, asked: seq<Node>) {
    forall id, a :: id in slaves && id in cluster && id !in rest && a in ids && ids[a] == id ==>
      slaves[id] != [] && a !in Addrs(asked) ==> a !in replicaOf
  }

  lemma LeadersStep(ids: map<Addr, NodeID>, m0: map<Addr, NodeID>, m1: map<Addr, NodeID>,
                    slaves: map<NodeID, seq<Node>>,
                    cluster: map<NodeID, Node>, rest: set<NodeID>, asked: seq<Node>, id: NodeID)
    requires id in slaves && LeadersLed(ids, m0, slaves, cluster, rest + {id}, asked) && OthersKept(m0, m1, asked)
    ensures id !in cluster ==> LeadersLed(ids, m0, slaves, cluster, rest, asked)
    ensures (slaves[id] != [] ==> Leads(ids, m1, id)) ==> LeadersLed(ids, m0, slaves, cluster, rest, asked + slaves[id])
  {
    hide Addrs;
    AddrsConcat(asked, slaves[id]);
  }

  /** The outer loop of AttachingSlavesToMaster. */
  method AttachAll(admin: Admin, slaves: map<NodeID, seq<Node>>, cluster: map<NodeID, Node>)
    returns (ok: bool, ghost asked: seq<Node>)
    requires Attachable(slaves, cluster)
    modifies admin`replicaOf, admin`attached, admin`failures
    modifies NodesIn(slaves)`Role, NodesIn(slaves)`MasterReferent
    ensures admin.failures >= old(admin.failures) && (ok <==> admin.failures == old(admin.failures))
    ensures ok ==> AllFollow(admin.replicaOf, slaves, cluster)
    ensures Tried(old(admin.attached), admin.attached, admin.failures - old(admin.failures), asked)
    ensures NoDup(asked) && AskedOf(asked, slaves, cluster, {})
    ensures OthersKept(old(admin.replicaOf), admin.replicaOf, asked)
    ensures ok ==> LeadersLed(admin.ids, old(admin.replicaOf), slaves, cluster, {}, asked)
  {
    hide LeadersLed, Leads, Attachable, AskedOf, NoDup, ReplicateSoFar, Replicates, OthersKept, Addrs, NodesIn,
      AllFollow, Tried, Node.IPPort;
    ok, asked := true, [];
    TriedNobody(admin.attached);
    var rest := slaves.Keys;
    NothingAsked(admin.replicaOf, slaves, cluster);
    while rest != {}
      invariant rest <= slaves.Keys
      invariant admin.failures >= old(admin.failures) && (ok <==> admin.failures == old(admin.failures))
      invariant ok ==> forall id, n :: id in slaves && id in cluster && id !in rest && n in slaves[id] ==>
        Recorded(n, id)
      invariant ok ==> ReplicateSoFar(admin.replicaOf, slaves, cluster, rest)
      invariant Tried(old(admin.attached), admin.attached, admin.failures - old(admin.failures), asked)
      invariant NoDup(asked) && AskedOf(asked, slaves, cluster, rest)
      invariant OthersKept(old(admin.replicaOf), admin.replicaOf, asked)
      invariant ok ==> LeadersLed(admin.ids, old(admin.replicaOf), slaves, cluster, rest, asked)
      decreases rest
    {
      var masterID :| masterID in rest;
      assert (rest - {masterID}) + {masterID} == rest;
      rest := rest - {masterID};
      AskedStep(asked, slaves, cluster, rest, masterID);
      ListAttachable(slaves, cluster, masterID);
      if ok {
        LeadersStep(admin.ids, old(admin.replicaOf), admin.replicaOf, slaves, cluster, rest, asked, masterID);
      }
      if masterID !in cluster {
        Unknown(admin.replicaOf, slaves, cluster, rest, masterID);
        continue;
      }
      var masterNode := cluster[masterID];
      ghost var before, attached, failed := admin.replicaOf, admin.attached, admin.failures;
      label Sent:
      var done := AttachGroup(admin, masterNode.ID, slaves[masterID]);
      forall id, n | id in slaves && id != masterID && n in slaves[id] && old@Sent(Recorded(n, id))
        ensures Recorded(n, id)
      {
        assert n !in slaves[masterID];
        assert n.Role == old@Sent(n.Role) && n.MasterReferent == old@Sent(n.MasterReferent);
      }
      KeptConcat(old(admin.replicaOf), before, admin.replicaOf, asked, slaves[masterID]);
      TriedMore(old(admin.attached), attached, admin.attached, failed - old(admin.failures), admin.failures - failed,
                asked, slaves[masterID]);
      if !done {
        ok := false;
      } else if ok {
        ReplicateStep(before, admin.replicaOf, slaves, cluster, rest, masterID);
      }
      asked := asked + slaves[masterID];
    }
    AllFollowed(admin.replicaOf, slaves, cluster);
  }

  lemma NothingAsked(replicaOf: map<Addr, NodeID>, slaves: map<NodeID, seq<Node>>, cluster: map<NodeID, Node>)
    ensures NoDup<Node>([]) && AskedOf([], slaves, cluster, slaves.Keys) && Addrs([]) == []
    ensures ReplicateSoFar(replicaOf, slaves, cluster, slaves.Keys) && OthersKept(replicaOf, replicaOf, [])
    ensures forall ids :: LeadersLed(ids, replicaOf, slaves, cluster, slaves.Keys, [])
  {
  }

  lemma KeptConcat(m0: map<Addr, NodeID>, m1: map<Addr, NodeID>, m2: map<Addr, NodeID>, a: seq<Node>, b: seq<Node>)
    requires OthersKept(m0, m1, a) && OthersKept(m1, m2, b)
    ensures OthersKept(m0, m2, a + b)
  {
    hide Addrs;
    AddrsConcat(a, b);
  }

  lemma Unknown(replicaOf: map<Addr, NodeID>, slaves: map<NodeID, seq<Node>>, cluster: map<NodeID, Node>,
                rest: set<NodeID>, id: NodeID)
    requires id !in cluster
    ensures ReplicateSoFar(replicaOf, slaves, cluster, rest + {id}) ==> ReplicateSoFar(replicaOf, slaves, cluster, rest)
  {
  }

  lemma AllFollowed(replicaOf: map<Addr, NodeID>, slaves: map<NodeID, seq<Node>>, cluster: map<NodeID, Node>)
    ensures ReplicateSoFar(replicaOf, slaves, cluster, {}) &&
            (forall id, n :: id in slaves && id in cluster && n in slaves[id] ==> Recorded(n, id)) ==>
            AllFollow(replicaOf, slaves, cluster)
  {
  }
}
