/** Concrete clusters on which a reconcile round must fail, whatever Redis answers: numbered pods, two to each
    statefulset. */
module Witness {
  import opened Slots
  import opened Nodes
  import opened Options
  import opened Redis
  import opened Roles
  import opened Choice
  import opened Placement
  import opened Status
  import opened Convergence
  import opened Scene
  import opened Round
  import opened Results
  import opened Sync
  import Fixpoint
  import Decimal

  const CLUSTER := "c"
  const PORT := "6379"

  function IDOf(i: nat): NodeID {
    Decimal.Format(i)
  }

  function IPOf(i: nat): string {
    "10.0.0." + Decimal.Format(i)
  }

  function AddrOf(i: nat): Addr {
    JoinHostPort(IPOf(i), PORT)
  }

  function HomeOf(i: nat): string {
    ClusterStatefulSetName(CLUSTER, i / 2)
  }

  lemma Different(i: nat, j: nat)
    requires i != j
    ensures IDOf(i) != IDOf(j) && IPOf(i) != IPOf(j) && AddrOf(i) != AddrOf(j)
  {
    if Decimal.Format(i) == Decimal.Format(j) {
      Decimal.FormatInjective(i, j);
    }
    assert IPOf(i)[7..] == IDOf(i) && IPOf(j)[7..] == IDOf(j);
    assert AddrOf(i)[..|AddrOf(i)| - 5] == IPOf(i) by { Host(i); }
    assert AddrOf(j)[..|AddrOf(j)| - 5] == IPOf(j) by { Host(j); }
  }

  lemma Host(i: nat)
    ensures ':' !in IPOf(i) && AddrOf(i) == IPOf(i) + ":6379"
    ensures |AddrOf(i)| >= 5 && AddrOf(i)[..|AddrOf(i)| - 5] == IPOf(i)
  {
  }

  /** The slots an owner holds. */
  function Held(owner: seq<Option<nat>>, i: nat): (r: seq<Slot>)
    ensures Ascending(r) && forall s :: s in r <==> 0 <= s < |owner| && owner[s] == Some(i)
  {
    if owner == [] then []
    else
      var init, last := owner[..|owner| - 1], owner[|owner| - 1];
      assert owner == init + [last];
      var r := Held(init, i);
      assert forall s :: s in r + [|owner| - 1] <==> s in r || s == |owner| - 1;
      assert forall k :: 0 <= k < |r| ==> r[k] in r;
      if last == Some(i) then r + [|owner| - 1] else r
  }

  /** Which node owns each slot, and which node each node follows. */
  datatype Plan = Plan(owner: seq<Option<nat>>, leader: seq<Option<nat>>) {
    /** An owner is a node, and follows nobody; and either all slots have owners or none has. */
    predicate Sound() {
      && (forall s :: 0 <= s < |owner| && owner[s].Some? ==>
            owner[s].value < |leader| && leader[owner[s].value].None?)
      && ((forall s :: 0 <= s < |owner| ==> owner[s].Some?) || (forall s :: 0 <= s < |owner| ==> owner[s].None?))
    }

    function IDs(): map<Addr, NodeID> {
      AddrsDiffer(|leader|);
      map i | 0 <= i < |leader| :: AddrOf(i) := IDOf(i)
    }

    function ReplicaOf(): map<Addr, NodeID> {
      AddrsDiffer(|leader|);
      map i | 0 <= i < |leader| && leader[i].Some? :: AddrOf(i) := IDOf(leader[i].value)
    }

    function State(s: Slot): SlotState
      requires s < |owner|
    {
      var view := if owner[s].Some? then map[AddrOf(owner[s].value) := IDOf(owner[s].value)] else map[];
      SlotState(view, map[], map[], map[])
    }

    function Entries(): (r: seq<RedisClusterNode>)
      ensures |r| == |leader|
      ensures forall i :: 0 <= i < |r| ==> r[i].ID == IDOf(i) && r[i].StatefulSet == HomeOf(i)
    {
      seq(|leader|, i requires 0 <= i < |leader| =>
        RedisClusterNode(IDOf(i), RoleNone, IPOf(i), PORT, "", [], "pod", "machine", HomeOf(i)))
    }

    ghost predicate Fits(n: Node, i: nat)
      requires i < |leader|
      reads n
    {
      && n.ID == IDOf(i) && n.IP == IPOf(i) && n.Port == PORT && n.Slots == Held(owner, i)
      && n.StatefulSet == "" && n.NodeName == ""
      && (if leader[i].Some? then Recorded(n, IDOf(leader[i].value))
          else n.Role == MASTER_ROLE && n.MasterReferent == "")
    }

    /** The nodes, and the client connected to them. */
    ghost predicate Built(nodes: seq<Node>, admin: Admin)
      reads nodes, admin
    {
      && |nodes| == |leader| && (forall i :: 0 <= i < |nodes| ==> Fits(nodes[i], i))
      && admin.ids == IDs() && admin.replicaOf == ReplicaOf() && admin.failures == 0
      && |admin.log| == |owner| && (forall s :: 0 <= s < |owner| ==> admin.log[s] == [State(s)])
    }

    ghost function Seen(nodes: seq<Node>): Scene
      requires |nodes| == |leader|
    {
      Scene(nodes, Homes(nodes, Entries()), Machines(nodes, Entries()),
            set s | 0 <= s < |owner| && owner[s].Some? && owner[s].value < |nodes| :: nodes[owner[s].value],
            set i | 0 <= i < |nodes| && leader[i].Some? :: nodes[i], map[], map[], [], [])
    }
  }

  lemma AddrsDiffer(n: nat)
    ensures forall i, j :: 0 <= i < n && 0 <= j < n && AddrOf(i) == AddrOf(j) ==> i == j
  {
    forall i, j | 0 <= i < n && 0 <= j < n && AddrOf(i) == AddrOf(j) ensures i == j {
      if i != j {
        Different(i, j);
      }
    }
  }

  method Build(p: Plan) returns (nodes: seq<Node>, admin: Admin)
    requires p.Sound()
    ensures fresh(admin) && (forall n :: n in nodes ==> fresh(n)) && p.Built(nodes, admin)
  {
    hide Held, IDOf, IPOf, AddrOf, HomeOf, Plan.State, Plan.IDs, Plan.ReplicaOf, Plan.Sound;
    nodes := [];
    for i := 0 to |p.leader|
      invariant |nodes| == i && forall n :: n in nodes ==> fresh(n)
      invariant forall k :: 0 <= k < i ==> p.Fits(nodes[k], k)
    {
      var slots := Held(p.owner, i);
      var n;
      match p.leader[i] {
        case Some(l) => n := new Node(IDOf(i), IPOf(i), PORT, SLAVE_ROLE, IDOf(l), slots);
        case None => n := new Node(IDOf(i), IPOf(i), PORT, MASTER_ROLE, "", slots);
      }
      nodes := nodes + [n];
    }
    var states := seq(|p.owner|, s requires 0 <= s < |p.owner| => p.State(s));
    admin := new Admin(p.IDs(), states, p.ReplicaOf());
  }

  lemma NodesApart(p: Plan, nodes: seq<Node>, admin: Admin)
    requires p.Built(nodes, admin)
    ensures NoDup(nodes) && forall i :: 0 <= i < |nodes| ==> nodes[i].IPPort() == AddrOf(i)
    ensures forall n, m :: n in nodes && m in nodes && n != m ==> Apart(n, m)
  {
    forall i, j | 0 <= i < |nodes| && 0 <= j < |nodes| && i != j ensures Apart(nodes[i], nodes[j]) {
      assert p.Fits(nodes[i], i) && p.Fits(nodes[j], j);
      Different(i, j);
    }
  }

  lemma TagsFound(p: Plan, nodes: seq<Node>, admin: Admin, i: nat)
    requires p.Built(nodes, admin) && i < |nodes|
    ensures TagOf(p.Entries(), nodes[i].ID) == HomeOf(i) != ""
    ensures nodes[i] in p.Seen(nodes).home && p.Seen(nodes).home[nodes[i]] == ClusterStatefulSetName(CLUSTER, i / 2)
    ensures nodes[i] in p.Seen(nodes).machine
  {
    var e := LastEntry(p.Entries(), nodes[i].ID);
    assert p.Fits(nodes[i], i);
    assert p.Entries()[i] in p.Entries();
    var k :| 0 <= k < |p.Entries()| && p.Entries()[k] == e.value;
    if k != i {
      Different(k, i);
    }
    assert HomeOf(i)[0] == 'd';
  }

  /** What the look says of roles. */
  lemma SeenRoles(p: Plan, nodes: seq<Node>, i: nat)
    requires p.Sound() && NoDup(nodes) && |nodes| == |p.leader| && i < |nodes|
    ensures nodes[i] in p.Seen(nodes).holders <==> Held(p.owner, i) != []
    ensures nodes[i] in p.Seen(nodes).replicas <==> p.leader[i].Some?
    ensures nodes[i] in p.Seen(nodes).replicas ==> nodes[i] !in p.Seen(nodes).holders
  {
    hide Homes, Machines, Plan.Entries, Held;
    var slots := Held(p.owner, i);
    if slots != [] {
      assert slots[0] in slots;
      assert p.owner[slots[0]] == Some(i);
    }
    if nodes[i] in p.Seen(nodes).holders {
      var s :| 0 <= s < |p.owner| && p.owner[s].Some? && p.owner[s].value < |nodes| &&
        nodes[p.owner[s].value] == nodes[i];
      assert s in slots;
    }
  }

  lemma SeenMembers(p: Plan, nodes: seq<Node>, admin: Admin)
    requires p.Sound() && p.Built(nodes, admin)
    ensures p.Seen(nodes).Members()
  {
    hide Apart, Plan.Built, Plan.Seen, NoDup, Plan.Sound;
    Counted(p, nodes, admin);
    NodesApart(p, nodes, admin);
    var seen := p.Seen(nodes);
    forall n | n in nodes ensures n.ID != "" && n.ID != "-" && (n in seen.replicas ==> n !in seen.holders) {
      var i :| 0 <= i < |nodes| && nodes[i] == n;
      NodeNamed(p, nodes, admin, i);
      SeenRoles(p, nodes, i);
    }
    forall n | n in seen.holders + seen.replicas ensures n in ToSet(nodes) {
      RoleListed(p, nodes, n);
    }
    HomesKeys(nodes, p.Entries());
    assert seen.holders + seen.replicas <= ToSet(nodes);
    assert seen.holders !! seen.replicas;
  }

  lemma HomesKeys(nodes: seq<Node>, entries: seq<RedisClusterNode>)
    ensures Homes(nodes, entries).Keys == ToSet(nodes)
  {
    hide Home;
  }

  lemma NodeNamed(p: Plan, nodes: seq<Node>, admin: Admin, i: nat)
    requires p.Built(nodes, admin) && i < |nodes|
    ensures nodes[i].ID != "" && nodes[i].ID != "-"
  {
    assert p.Fits(nodes[i], i);
    assert Decimal.IsDigit(nodes[i].ID[0]);
  }

  lemma RoleListed(p: Plan, nodes: seq<Node>, n: Node)
    requires |nodes| == |p.leader| && (n in p.Seen(nodes).holders || n in p.Seen(nodes).replicas)
    ensures n in nodes
  {
    hide Homes, Machines, Plan.Entries;
  }

  lemma Counted(p: Plan, nodes: seq<Node>, admin: Admin)
    requires p.Built(nodes, admin)
    ensures |admin.log| == |p.owner| && |nodes| == |p.leader|
    ensures p.Seen(nodes).home == Homes(nodes, p.Entries()) && p.Seen(nodes).machine == Machines(nodes, p.Entries())
    ensures p.Seen(nodes).nodes == nodes
  {
  }

  lemma StateOwner(p: Plan, s: Slot, i: nat)
    requires p.Sound() && s < |p.owner| && i < |p.leader|
    ensures AddrOf(i) in Holders(p.IDs(), p.State(s)) <==> p.owner[s] == Some(i)
  {
    hide AddrOf, IDOf;
    AddrsDiffer(|p.leader|);
  }

  lemma StateSettled(p: Plan, s: Slot)
    requires p.Sound() && s < |p.owner|
    ensures p.owner[s].None? ==> Holders(p.IDs(), p.State(s)) == {}
    ensures p.owner[s].Some? ==> Settled(p.IDs(), p.State(s), AddrOf(p.owner[s].value))
  {
    hide AddrOf, IDOf;
    AddrsDiffer(|p.leader|);
  }

  lemma NodeLook(p: Plan, nodes: seq<Node>, admin: Admin, i: nat)
    requires p.Sound() && p.Built(nodes, admin) && i < |nodes|
    ensures admin.Valid() && admin.KnowsNode(nodes[i]) && NoDup(nodes[i].Slots) && Reports(admin, nodes[i])
    ensures nodes[i].IPPort() in admin.replicaOf <==> p.leader[i].Some?
  {
    hide Holders, AddrOf, IDOf, IPOf, Held, Node.IPPort, Plan.Sound, Plan.State;
    var n := nodes[i];
    assert p.Fits(n, i);
    NodesApart(p, nodes, admin);
    AddrsDiffer(|p.leader|);
    forall s: Slot ensures s in n.Slots <==> s < |admin.log| && n.IPPort() in Holders(admin.ids, admin.Now(s)) {
      if s < |p.owner| {
        StateOwner(p, s, i);
        assert admin.log[s] == [p.State(s)];
      }
    }
  }

  lemma SeenLook(p: Plan, nodes: seq<Node>, admin: Admin)
    requires p.Sound() && p.Built(nodes, admin)
    ensures Look(admin, nodes, p.Seen(nodes))
  {
    hide Homes, Machines, Holders, AddrOf, IDOf, IPOf, Held, NoDup, Reports, Node.IPPort, Plan.Sound, Plan.State,
      Plan.IDs, Plan.ReplicaOf, Plan.Entries;
    assert admin.Valid();
    NodesApart(p, nodes, admin);
    var seen := p.Seen(nodes);
    forall n | n in nodes
      ensures admin.KnowsNode(n) && NoDup(n.Slots) && Reports(admin, n) && n.StatefulSet == "" && n.NodeName == ""
      ensures n in seen.holders <==> n.Slots != []
      ensures n in seen.replicas <==> n.IPPort() in admin.replicaOf
    {
      var i :| 0 <= i < |nodes| && nodes[i] == n;
      assert p.Fits(n, i);
      NodeLook(p, nodes, admin, i);
      SeenRoles(p, nodes, i);
    }
  }

  lemma SlotSettled(p: Plan, nodes: seq<Node>, admin: Admin, s: Slot)
    requires p.Sound() && p.Built(nodes, admin) && s < |p.owner|
    ensures admin.log[s] != []
    ensures p.owner[s].None? ==> Holders(admin.ids, admin.log[s][|admin.log[s]| - 1]) == {}
    ensures p.owner[s].Some? ==>
      Settled(admin.ids, admin.log[s][|admin.log[s]| - 1], AddrOf(p.owner[s].value)) &&
      AddrOf(p.owner[s].value) in Addrs(nodes) && nodes[p.owner[s].value] in p.Seen(nodes).holders
  {
    hide Homes, Machines, Holders, Settled, AddrOf, IDOf, IPOf, Held, NoDup, Node.IPPort, Plan.State, Plan.IDs,
      Plan.ReplicaOf, Plan.Entries;
    NodesApart(p, nodes, admin);
    StateSettled(p, s);
    assert admin.log[s] == [p.State(s)];
    if p.owner[s].Some? {
      assert Addrs(nodes)[p.owner[s].value] == AddrOf(p.owner[s].value);
    }
  }

  /** The owners' addresses, slot by slot. */
  function Owners(owner: seq<Option<nat>>): seq<Addr> {
    seq(|owner|, s requires 0 <= s < |owner| => if owner[s].Some? then AddrOf(owner[s].value) else "")
  }

  lemma SeenSettled(p: Plan, nodes: seq<Node>, admin: Admin)
    requires p.Sound() && p.Built(nodes, admin)
    ensures Settled0(admin, p.Seen(nodes), Owners(p.owner))
  {
    hide Homes, Machines, Holders, Settled, AddrOf, Held, NoDup, Node.IPPort, Plan.State, Plan.IDs, Plan.ReplicaOf,
      Plan.Entries, Plan.Fits, Addrs;
    forall s | 0 <= s < |p.owner|
      ensures admin.log[s] != []
      ensures p.owner[s].None? ==> Holders(admin.ids, admin.log[s][|admin.log[s]| - 1]) == {}
      ensures p.owner[s].Some? ==>
        Settled(admin.ids, admin.log[s][|admin.log[s]| - 1], Owners(p.owner)[s]) &&
        Owners(p.owner)[s] in Addrs(nodes) && nodes[p.owner[s].value] in p.Seen(nodes).holders
    {
      SlotSettled(p, nodes, admin, s);
    }
  }

  // ----- a retry that cannot go through

  /** In a cluster without slot owners the first statefulset gets its first node. */
  lemma {:induction false} FirstListed(nodes: seq<Node>, home: map<Node, string>)
    requires nodes != [] && nodes[0] in home
    ensures OfHome(nodes, home, home[nodes[0]]) != [] && OfHome(nodes, home, home[nodes[0]])[0] == nodes[0]
  {
    if |nodes| > 1 {
      FirstListed(nodes[..|nodes| - 1], home);
    }
  }

  lemma {:induction false} FirstKept(groups: map<string, seq<Node>>, machine: map<Node, string>, n: nat)
    requires n > 0 && Listed(groups, ClusterStatefulSetName(CLUSTER, 0)) != []
    requires Listed(groups, ClusterStatefulSetName(CLUSTER, 0))[0] in machine
    ensures var ss := ClusterStatefulSetName(CLUSTER, 0);
      ss in Choices(groups, {}, machine, CLUSTER, n) && Choices(groups, {}, machine, CLUSTER, n)[ss] == groups[ss][0]
  {
    hide ClusterStatefulSetName;
    var ss := ClusterStatefulSetName(CLUSTER, 0);
    if n == 1 {
      NoFirst(groups[ss], {});
      FirstIs(groups[ss], Free(groups[ss], machine, {}), 0);
      NoChoice(groups, {}, machine, CLUSTER);
      NextChoice(groups, {}, machine, CLUSTER, 0);
      var none: map<string, Node> := map[];
      assert none.Values == {} && {} + none.Values == {};
    } else {
      FirstKept(groups, machine, n - 1);
      if ClusterStatefulSetName(CLUSTER, n - 1) == ss {
        StatefulSetNamesDiffer(CLUSTER, n - 1, 0);
      }
    }
  }

  /** Six pods after an attempt to create a cluster of three masters with one slave each: the attempt has attached
      node 0 to node 1 and then been aborted. */
  function Aborted(slotCount: nat): (p: Plan)
    ensures p.Sound() && |p.owner| == slotCount && |p.leader| == 6
  {
    Plan(seq(slotCount, _ => None), [Some(1), None, None, None, None, None])
  }

  lemma HomesFilled(p: Plan, nodes: seq<Node>, admin: Admin, i: nat)
    requires p.Built(nodes, admin) && 2 * i < |nodes|
    ensures HasNodes(p.Seen(nodes).home, ClusterStatefulSetName(CLUSTER, i))
  {
    hide Plan.Seen, Plan.Built, ClusterStatefulSetName;
    TagsFound(p, nodes, admin, 2 * i);
    assert (2 * i) / 2 == i;
  }

  lemma AbortedRoles(p: Plan, nodes: seq<Node>, admin: Admin, slotCount: nat)
    requires p == Aborted(slotCount) && p.Built(nodes, admin)
    ensures p.Seen(nodes).holders == {} && nodes[0] in p.Seen(nodes).replicas
    ensures nodes[0] != nodes[1] && nodes[1].IPPort() !in admin.replicaOf
  {
    hide Plan.Built, Plan.Seen, Plan.Sound, Node.IPPort, AddrOf, IDOf;
    Counted(p, nodes, admin);
    NodesApart(p, nodes, admin);
    SeenRoles(p, nodes, 0);
    NodeLook(p, nodes, admin, 1);
    forall n | n in p.Seen(nodes).holders ensures false {
      RoleListed(p, nodes, n);
      var i :| 0 <= i < |nodes| && nodes[i] == n;
      SeenRoles(p, nodes, i);
      assert Held(p.owner, i)[0] in Held(p.owner, i);
    }
  }

  lemma GroupOf(seen: Scene, ss: string)
    requires ss in seen.home.Values
    ensures ss in seen.Groups() && seen.Groups()[ss] == OfHome(seen.nodes, seen.home, ss)
  {
    hide OfHome;
  }

  /** The retry chooses node 0, which is a replica now, and node 1 does not follow it. */
  lemma AbortedChoice(p: Plan, nodes: seq<Node>, admin: Admin, slotCount: nat)
    requires p == Aborted(slotCount) && p.Built(nodes, admin)
    ensures var seen, ss := p.Seen(nodes), ClusterStatefulSetName(CLUSTER, 0);
      && seen.holders == {} && ss in seen.Picks(CLUSTER, 3) && seen.Picks(CLUSTER, 3)[ss] == nodes[0]
      && nodes[0] in seen.replicas && !Fixpoint.Captive(admin.replicaOf, seen, nodes[0])
  {
    hide ClusterStatefulSetName, Plan.Seen, Plan.Built, Aborted, Scene.Groups, Choices, OfHome, Node.IPPort;
    Counted(p, nodes, admin);
    var seen, ss := p.Seen(nodes), ClusterStatefulSetName(CLUSTER, 0);
    AbortedRoles(p, nodes, admin, slotCount);
    TagsFound(p, nodes, admin, 0);
    TagsFound(p, nodes, admin, 1);
    assert seen.home[nodes[0]] == ss == seen.home[nodes[1]];
    FirstListed(nodes, seen.home);
    assert ss in seen.home.Values;
    GroupOf(seen, ss);
    FirstKept(seen.Groups(), seen.machine, 3);
  }

  lemma AbortedHomes(p: Plan, nodes: seq<Node>, admin: Admin, slotCount: nat)
    requires p == Aborted(slotCount) && p.Built(nodes, admin)
    ensures forall i :: 0 <= i < 3 ==> Ready(p.Seen(nodes), ClusterStatefulSetName(CLUSTER, i))
    ensures forall n :: n in p.Seen(nodes).home ==> p.Seen(nodes).home[n] in StatefulSetNames(CLUSTER, 3)
  {
    hide ClusterStatefulSetName, Homes, Machines, HasNodes;
    forall i | 0 <= i < 3 ensures Ready(p.Seen(nodes), ClusterStatefulSetName(CLUSTER, i)) {
      HomesFilled(p, nodes, admin, i);
    }
    forall n | n in p.Seen(nodes).home ensures p.Seen(nodes).home[n] in StatefulSetNames(CLUSTER, 3) {
      KeyOfHome(p, nodes, n);
      var i :| 0 <= i < |nodes| && nodes[i] == n;
      TagsFound(p, nodes, admin, i);
    }
  }

  lemma KeyOfHome(p: Plan, nodes: seq<Node>, n: Node)
    requires |nodes| == |p.leader| && n in p.Seen(nodes).home
    ensures n in nodes
  {
  }

  lemma Surplus(sc: Scene, size: nat)
    requires sc.Good(CLUSTER, size)
    ensures sc.NoSurplus() <==> forall n :: n in sc.home ==> sc.home[n] in StatefulSetNames(CLUSTER, size)
  {
    hide ClusterStatefulSetName;
  }

  lemma FailedIsNotDone(was: Snapshot, admin: Admin, outcome: Outcome)
    requires admin.failures > was.failures
    ensures !Clean(was, admin, outcome)
  {
  }

  lemma NotCaptive(replicaOf: map<Addr, NodeID>, seen: Scene, sc: Scene, m: Node)
    requires sc.home == seen.home && sc.replicas == seen.replicas
    ensures Fixpoint.Captive(replicaOf, sc, m) == Fixpoint.Captive(replicaOf, seen, m)
  {
  }

  /** Whatever happens to its commands, the retry ends with an error: Redis refuses to attach node 1 to node 0. */
  method RetryFails(slotCount: nat) returns (branch: Branch, outcome: Outcome)
    requires 3 <= slotCount < MAX_UINT64
    ensures branch.Creating? && outcome.Error?
  {
    hide ClusterStatefulSetName, StatefulSetNames, Aborted, Plan.Built, Plan.Seen, Plan.Sound, Look, Settled0, Ready,
      Attached, Clean, Shrinking, Untouched, Fixpoint.Captive, Scene.Good, Scene.Members, Scene.Picks, Scene.NoSurplus,
      AllSafe;
    var p := Aborted(slotCount);
    var nodes, admin := Build(p);
    assert forall i :: 0 <= i < |nodes| ==> nodes[i] in nodes;
    Counted(p, nodes, admin);
    SeenMembers(p, nodes, admin);
    SeenLook(p, nodes, admin);
    SeenSettled(p, nodes, admin);
    AbortedHomes(p, nodes, admin, slotCount);
    AbortedChoice(p, nodes, admin, slotCount);
    ghost var seen, was, ss := p.Seen(nodes), Snap(admin), ClusterStatefulSetName(CLUSTER, 0);
    var spec, status := Spec(CLUSTER, 3, 1), ClusterStatus("", "", "", p.Entries(), 0, 0, 0);
    ghost var sc, trace;
    var calls := new Calls();
    branch, outcome, sc, trace := SyncCluster(spec, status, nodes, admin, calls, seen, Owners(p.owner));
    Surplus(sc, 3);
    NoPanic(was, admin, sc, spec, outcome);
    NotCaptive(was.replicaOf, seen, sc, nodes[0]);
    Fixpoint.CannotGoThrough(was, admin, sc, spec, outcome, ss);
    FailedIsNotDone(was, admin, outcome);
  }

  lemma NoPanic(was: Snapshot, admin: Admin, sc: Scene, spec: Spec, outcome: Outcome)
    requires Attached(was, admin, sc, spec, outcome)
    ensures outcome.Panic? <==> !sc.NoSurplus()
  {
    hide Arranged, Leading, FollowedBefore, AllSafe, sc.NoSurplus, sc.Complete;
  }

  // ----- a scale-down that panics

  /** Eight pods of a cluster of four masters, none of which has its slave yet. */
  function FourMasters(slotCount: nat): (p: Plan)
    requires slotCount >= 4
    ensures p.Sound() && |p.owner| == slotCount && |p.leader| == 8
  {
    Plan(seq(slotCount, s requires 0 <= s < slotCount => Some(if s < 3 then 2 * s else 6)),
         [None, None, None, None, None, None, None, None])
  }

  lemma HolderAt(p: Plan, nodes: seq<Node>, slotCount: nat, i: nat)
    requires slotCount >= 4 && p == FourMasters(slotCount) && |nodes| == 8 && NoDup(nodes) && i < 8
    ensures nodes[i] in p.Seen(nodes).holders <==> i % 2 == 0
  {
    hide Plan.Seen, Held, NoDup, Plan.Sound;
    SeenRoles(p, nodes, i);
    var slots := Held(p.owner, i);
    if i % 2 == 0 {
      assert p.owner[i / 2] == Some(i);
      assert i / 2 in slots;
    }
    assert |slots| > 0 ==> slots[0] in slots;
  }

  lemma FourHolders(p: Plan, nodes: seq<Node>, admin: Admin, slotCount: nat)
    requires slotCount >= 4 && p == FourMasters(slotCount) && p.Built(nodes, admin)
    ensures p.Seen(nodes).holders == {nodes[0], nodes[2], nodes[4], nodes[6]} && |p.Seen(nodes).holders| == 4
  {
    hide Plan.Built, Plan.Seen, FourMasters, Node.IPPort;
    Counted(p, nodes, admin);
    NodesApart(p, nodes, admin);
    var holders, four := p.Seen(nodes).holders, [nodes[0], nodes[2], nodes[4], nodes[6]];
    forall n | n in holders ensures n in ToSet(four) {
      RoleListed(p, nodes, n);
      var i :| 0 <= i < 8 && nodes[i] == n;
      HolderAt(p, nodes, slotCount, i);
      assert n == four[i / 2];
    }
    HolderAt(p, nodes, slotCount, 0);
    HolderAt(p, nodes, slotCount, 2);
    HolderAt(p, nodes, slotCount, 4);
    HolderAt(p, nodes, slotCount, 6);
    assert nodes[0] != nodes[2] && nodes[0] != nodes[4] && nodes[0] != nodes[6];
    assert nodes[2] != nodes[4] && nodes[2] != nodes[6] && nodes[4] != nodes[6];
    assert NoDup(four);
    NoDupCard(four);
    assert holders == ToSet(four);
  }

  lemma FourReady(p: Plan, nodes: seq<Node>, admin: Admin, slotCount: nat, i: nat)
    requires slotCount >= 4 && p == FourMasters(slotCount) && p.Built(nodes, admin) && i < 3
    ensures Ready(p.Seen(nodes), ClusterStatefulSetName(CLUSTER, i))
  {
    hide ClusterStatefulSetName, FourMasters, Plan.Seen, Plan.Built, HasNodes, Scene.OneOwner;
    Counted(p, nodes, admin);
    FourHolders(p, nodes, admin, slotCount);
    forall k | 0 <= k < 8
      ensures nodes[k] in p.Seen(nodes).home && p.Seen(nodes).home[nodes[k]] == ClusterStatefulSetName(CLUSTER, k / 2)
    {
      TagsFound(p, nodes, admin, k);
    }
    HomesFilled(p, nodes, admin, i);
    OneOwnerEach(p.Seen(nodes), nodes, i);
  }

  lemma FourthHome(p: Plan, nodes: seq<Node>, admin: Admin, slotCount: nat)
    requires slotCount >= 4 && p == FourMasters(slotCount) && p.Built(nodes, admin)
    ensures |nodes| == 8 && nodes[6] in p.Seen(nodes).home
    ensures p.Seen(nodes).home[nodes[6]] !in StatefulSetNames(CLUSTER, 3)
  {
    hide *;
    Counted(p, nodes, admin);
    TagsFound(p, nodes, admin, 6);
    LaterName(CLUSTER, 3, 3);
  }

  lemma OneOwnerEach(seen: Scene, nodes: seq<Node>, i: nat)
    requires |nodes| == 8 && seen.holders == {nodes[0], nodes[2], nodes[4], nodes[6]}
    requires forall k :: 0 <= k < 8 ==> nodes[k] in seen.home
    requires forall k :: 0 <= k < 8 ==> seen.home[nodes[k]] == ClusterStatefulSetName(CLUSTER, k / 2)
    ensures seen.OneOwner(ClusterStatefulSetName(CLUSTER, i))
  {
    hide ClusterStatefulSetName;
    forall a, b | 0 <= a < 4 && 0 <= b < 4 && ClusterStatefulSetName(CLUSTER, a) == ClusterStatefulSetName(CLUSTER, b)
      ensures a == b
    {
      StatefulSetNamesDiffer(CLUSTER, a, b);
    }
    forall n | n in seen.holders ensures exists a :: 0 <= a < 4 && n == nodes[2 * a] {
      assert n == nodes[2 * 0] || n == nodes[2 * 1] || n == nodes[2 * 2] || n == nodes[2 * 3];
    }
  }

  /** Asked to go on with three masters while slaves are missing, the round takes the slave branch, and dereferences the
      nil master of the fourth statefulset. */
  method SurplusPanics(slotCount: nat) returns (branch: Branch, outcome: Outcome)
    requires 4 <= slotCount < MAX_UINT64
    ensures branch.ScalingSlave? && outcome.Panic?
  {
    hide ClusterStatefulSetName, StatefulSetNames, FourMasters, Plan.Built, Plan.Seen, Plan.Sound, Look, Settled0,
      Ready, Attached, Clean, Shrinking, Untouched, Scene.Good, Scene.Members, Scene.Picks, Scene.NoSurplus, AllSafe;
    var p := FourMasters(slotCount);
    var nodes, admin := Build(p);
    assert forall i :: 0 <= i < |nodes| ==> nodes[i] in nodes;
    Counted(p, nodes, admin);
    SeenMembers(p, nodes, admin);
    SeenLook(p, nodes, admin);
    SeenSettled(p, nodes, admin);
    forall i | 0 <= i < 3 ensures Ready(p.Seen(nodes), ClusterStatefulSetName(CLUSTER, i)) {
      FourReady(p, nodes, admin, slotCount, i);
    }
    FourthHome(p, nodes, admin, slotCount);
    FourHolders(p, nodes, admin, slotCount);
    ghost var seen, was := p.Seen(nodes), Snap(admin);
    var spec, status := Spec(CLUSTER, 3, 1), ClusterStatus("", "", "", p.Entries(), 4, 0, 0);
    ghost var sc, trace;
    var calls := new Calls();
    branch, outcome, sc, trace := SyncCluster(spec, status, nodes, admin, calls, seen, Owners(p.owner));
    Surplus(sc, 3);
    NoPanic(was, admin, sc, spec, outcome);
  }
}
