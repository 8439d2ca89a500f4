/** Scale-down planning: which slots have to move, and where to (pkg/controller/clustering/migration.go).

    Every loop over a Go map takes the entries in an order of its own; here it picks any remaining key. */
module Migration {
  import opened Slots
  import opened Sums
  import opened Nodes
  import opened Balance

  type Plan = map<NodeID, seq<Slot>>

  /** What a node holds beyond its first N slots. */
  function Excess(n: Node, N: nat): seq<Slot>
    reads n`Slots
  {
    n.Slots[Min(N, |n.Slots|)..]
  }

  /** retrieveSlotToMigrateFrom: what each old master holds beyond its first nbSlotByNode slots. */
  method RetrieveSlotToMigrateFrom(oldMasterNodes: seq<Node>, nbSlotByNode: nat) returns (m: Plan)
    requires Distinct(oldMasterNodes)
    ensures forall n :: n in oldMasterNodes ==>
      Listed(m, n.ID) == Excess(n, nbSlotByNode) == if |n.Slots| > nbSlotByNode then n.Slots[nbSlotByNode..] else []
    ensures forall id :: id in m ==> exists n :: n in oldMasterNodes && n.ID == id
  {
    m := map[];
    for i := 0 to |oldMasterNodes|
      invariant forall j :: 0 <= j < |oldMasterNodes| ==>
        Listed(m, oldMasterNodes[j].ID) == if j < i then Excess(oldMasterNodes[j], nbSlotByNode) else []
      invariant forall id :: id in m ==> exists n :: n in oldMasterNodes && n.ID == id
    {
      var node := oldMasterNodes[i];
      var nbSlot := node.TotalSlots();
      if nbSlot >= nbSlotByNode {
        if |node.Slots[nbSlotByNode..]| > 0 {
          m := m[node.ID := Listed(m, node.ID) + node.Slots[nbSlotByNode..]];
        }
      }
    }
  }

  predicate HasID(nodes: seq<Node>, id: NodeID) {
    exists n :: n in nodes && n.ID == id
  }

  lemma HasIDNext(nodes: seq<Node>, i: nat, id: NodeID)
    requires i < |nodes|
    ensures HasID(nodes[..i + 1], id) <==> HasID(nodes[..i], id) || nodes[i].ID == id
  {
    assert nodes[..i + 1] == nodes[..i] + [nodes[i]];
  }

  lemma RemovedIDs(removed: seq<Node>, newMasters: seq<Node>, oldMasters: seq<Node>, id: NodeID)
    requires forall n :: n in removed <==> n in oldMasters && !HasID(newMasters, n.ID)
    ensures HasID(removed, id) <==> HasID(oldMasters, id) && !HasID(newMasters, id)
  {
  }

  lemma SameNode(nodes: seq<Node>, n: Node, m: Node)
    requires Distinct(nodes) && n in nodes && m in nodes && n.ID == m.ID
    ensures n == m
  {
  }

  /** retrieveSlotToMigrateFromRemovedNodes: everything the masters hold that are to go. */
  method RetrieveSlotToMigrateFromRemovedNodes(newMasterNodes: seq<Node>, oldMasterNodes: seq<Node>) returns (m: Plan)
    requires Distinct(oldMasterNodes)
    ensures forall id :: id in m <==> HasID(oldMasterNodes, id) && !HasID(newMasterNodes, id)
    ensures forall n :: n in oldMasterNodes && n.ID in m ==> m[n.ID] == n.Slots
  {
    hide Distinct, NoDup, HasID;
    var removedNodes: seq<Node> := [];
    for i := 0 to |oldMasterNodes|
      invariant forall n :: n in removedNodes <==> n in oldMasterNodes[..i] && !HasID(newMasterNodes, n.ID)
    {
      var old_ := oldMasterNodes[i];
      var isPresent := IsPresent(newMasterNodes, old_);
      assert oldMasterNodes[..i + 1] == oldMasterNodes[..i] + [old_];
      if !isPresent {
        removedNodes := removedNodes + [old_];
      }
    }
    assert oldMasterNodes[..|oldMasterNodes|] == oldMasterNodes;
    forall id ensures HasID(removedNodes, id) <==> HasID(oldMasterNodes, id) && !HasID(newMasterNodes, id) {
      RemovedIDs(removedNodes, newMasterNodes, oldMasterNodes, id);
    }
    m := SlotsOf(removedNodes, oldMasterNodes);
  }

  /** The inner loop. */
  method IsPresent(newMasterNodes: seq<Node>, n: Node) returns (isPresent: bool)
    ensures isPresent <==> HasID(newMasterNodes, n.ID)
  {
    isPresent := false;
    for j := 0 to |newMasterNodes|
      invariant !isPresent && !HasID(newMasterNodes[..j], n.ID)
    {
      HasIDNext(newMasterNodes, j, n.ID);
      if n.ID == newMasterNodes[j].ID {
        isPresent := true;
        break;
      }
    }
    assert newMasterNodes[..|newMasterNodes|] == newMasterNodes;
  }

  /** The last loop: the lists of the nodes found. */
  method SlotsOf(removedNodes: seq<Node>, ghost oldMasterNodes: seq<Node>) returns (m: Plan)
    requires Distinct(oldMasterNodes) && forall n :: n in removedNodes ==> n in oldMasterNodes
    ensures forall id :: id in m <==> HasID(removedNodes, id)
    ensures forall n :: n in oldMasterNodes && n.ID in m ==> m[n.ID] == n.Slots
  {
    hide Distinct, NoDup, HasID;
    m := map[];
    NoID(removedNodes);
    for i := 0 to |removedNodes|
      invariant forall id :: id in m <==> HasID(removedNodes[..i], id)
      invariant forall n :: n in oldMasterNodes && n.ID in m ==> m[n.ID] == n.Slots
    {
      var node := removedNodes[i];
      forall id ensures HasID(removedNodes[..i + 1], id) <==> HasID(removedNodes[..i], id) || node.ID == id {
        HasIDNext(removedNodes, i, id);
      }
      forall n | n in oldMasterNodes && n.ID == node.ID ensures n == node {
        SameNode(oldMasterNodes, n, node);
      }
      m := m[node.ID := node.Slots];
    }
    assert removedNodes[..|removedNodes|] == removedNodes;
  }

  lemma NoID(nodes: seq<Node>)
    ensures forall id :: !HasID(nodes[..0], id)
  {
  }

  /** retrieveLostSlots: the slots nobody holds, in ascending order. */
  method RetrieveLostSlots(oldMasterNodes: seq<Node>, nbSlots: nat) returns (lostSlots: seq<Slot>)
    requires nbSlots > 0
    requires forall n, s :: n in oldMasterNodes && s in n.Slots ==> s < nbSlots
    ensures Ascending(lostSlots)
    ensures forall s :: s in lostSlots <==> 0 <= s < nbSlots && !(exists n :: n in oldMasterNodes && s in n.Slots)
  {
    var currentFullRange: seq<Slot> := [];
    for i := 0 to |oldMasterNodes|
      invariant forall s :: s in currentFullRange <==> exists n :: n in oldMasterNodes[..i] && s in n.Slots
    {
      var node := oldMasterNodes[i];
      assert oldMasterNodes[..i + 1] == oldMasterNodes[..i] + [node];
      forall s
        ensures s in currentFullRange + node.Slots <==> exists n :: n in oldMasterNodes[..i + 1] && s in n.Slots
      {
        if s in node.Slots {
          assert node in oldMasterNodes[..i + 1];
        }
      }
      currentFullRange := currentFullRange + node.Slots;
    }
    assert oldMasterNodes[..|oldMasterNodes|] == oldMasterNodes;
    ghost var held := currentFullRange;
    currentFullRange := SortSlots(currentFullRange);
    forall s ensures s in currentFullRange <==> s in held {
      assert s in currentFullRange <==> s in multiset(currentFullRange);
      assert s in held <==> s in multiset(held);
    }
    lostSlots := Gaps(currentFullRange, nbSlots);
  }

  /** The gap-filling part of retrieveLostSlots. */
  method Gaps(full: seq<Slot>, nbSlots: nat) returns (lostSlots: seq<Slot>)
    requires nbSlots > 0 && Ordered(full) && forall s :: s in full ==> s < nbSlots
    ensures Ascending(lostSlots)
    ensures forall s :: s in lostSlots <==> 0 <= s < nbSlots && s !in full
  {
    lostSlots := [];
    var last: Slot := 0;
    if |full| == 0 || full[0] != 0 {
      lostSlots := lostSlots + [0];
    }
    for k := 0 to |full|
      invariant k > 0 ==> last == full[k - 1]
      invariant k == 0 ==> last == 0
      invariant Ascending(lostSlots) && forall j :: 0 <= j < |lostSlots| ==> lostSlots[j] <= last
      invariant forall s :: s in lostSlots <==> 0 <= s <= last && s !in full
    {
      var slot := full[k];
      assert forall s :: last < s < slot ==> s !in full;
      if slot > last + 1 {
        for i := last + 1 to slot
          invariant Ascending(lostSlots) && forall j :: 0 <= j < |lostSlots| ==> lostSlots[j] < i
          invariant forall s :: s in lostSlots <==> 0 <= s < i && s !in full
        {
          lostSlots := lostSlots + [i];
        }
      }
      last := slot;
    }
    assert |full| > 0 ==> last in full;
    for i := last + 1 to nbSlots
      invariant Ascending(lostSlots) && forall j :: 0 <= j < |lostSlots| ==> lostSlots[j] < i
      invariant forall s :: s in lostSlots <==> 0 <= s < i && s !in full
    {
      lostSlots := lostSlots + [i];
    }
  }

  // ----- handing the available slots out

  /** What each of the nodes has been given. */
  function Given(add: Plan, ids: seq<NodeID>): (r: seq<seq<Slot>>)
    ensures |r| == |ids|
    ensures forall i :: 0 <= i < |ids| ==> r[i] == Listed(add, ids[i])
  {
    if ids == [] then [] else Given(add, ids[..|ids| - 1]) + [Listed(add, ids[|ids| - 1])]
  }

  function Sizes(lists: seq<seq<Slot>>): (r: seq<nat>)
    ensures |r| == |lists|
    ensures forall i :: 0 <= i < |lists| ==> r[i] == |lists[i]|
  {
    if lists == [] then [] else Sizes(lists[..|lists| - 1]) + [|lists[|lists| - 1]|]
  }

  /** How many slots fit before every node has N. */
  function Capacity(lens: seq<nat>, N: nat): int {
    Sum(Positive(Room(lens, N)))
  }

  function Room(lens: seq<nat>, N: nat): (r: seq<int>)
    ensures |r| == |lens|
    ensures forall i :: 0 <= i < |lens| ==> r[i] == N - lens[i]
  {
    seq(|lens|, i requires 0 <= i < |lens| => N - lens[i])
  }

  /** A node that starts with fewer than N slots is filled up to N at most, and a full one gets one slot at most. */
  predicate WithinBound(len: nat, given: nat, N: nat) {
    if len < N then len + given <= N else given <= 1
  }

  /** The lists are exactly the slots that `dest` sends to each position, each slot once. */
  ghost predicate Deals(given: seq<seq<Slot>>, dest: map<Slot, nat>) {
    && (forall s :: s in dest ==> dest[s] < |given|)
    && (forall i :: 0 <= i < |given| ==> NoDup(given[i]))
    && (forall i, s :: 0 <= i < |given| ==> (s in given[i] <==> s in dest && dest[s] == i))
  }

  /** The sizes in the greedy loop: nodes before the cursor are full, nodes after it have been given nothing. */
  ghost predicate Filling(lens: seq<nat>, N: nat, given: seq<nat>, idNode: int, overfilled: bool) {
    && |lens| == |given| && 0 <= idNode < |given|
    && (forall i :: 0 <= i < idNode ==> lens[i] + given[i] >= N)
    && (forall i :: idNode < i < |given| ==> given[i] == 0)
    && (forall i :: 0 <= i < |given| ==>
          WithinBound(lens[i], given[i], N) || (overfilled && i == |given| - 1))
    && (overfilled ==> Sum(given) > Capacity(lens, N))
  }

  lemma DealOne(given: seq<seq<Slot>>, dest: map<Slot, nat>, j: nat, s: Slot)
    requires Deals(given, dest) && j < |given| && s !in dest
    ensures Deals(given[j := given[j] + [s]], dest[s := j])
    ensures Sizes(given[j := given[j] + [s]]) == Sizes(given)[j := |given[j]| + 1]
  {
    assert s !in given[j];
  }

  lemma GivenUpdate(add: Plan, ids: seq<NodeID>, j: nat, slots: seq<Slot>)
    requires NoDup(ids) && j < |ids|
    ensures Given(add[ids[j] := slots], ids) == Given(add, ids)[j := slots]
  {
  }

  /** The next node that gets a slot: the one at the cursor while it has room, else the one after it. */
  lemma FillNext(lens: seq<nat>, N: nat, given: seq<nat>, idNode: int, overfilled: bool, j: int)
    requires Filling(lens, N, given, idNode, overfilled)
    requires j == (if lens[idNode] + given[idNode] < N || idNode + 1 > |given| - 1 then idNode else idNode + 1)
    ensures Filling(lens, N, given[j := given[j] + 1], j,
                    overfilled || (lens[idNode] + given[idNode] >= N && idNode + 1 > |given| - 1))
  {
    hide Sum, Capacity;
    SumUpdate(given, j, given[j] + 1);
    if lens[idNode] + given[idNode] >= N && idNode + 1 > |given| - 1 {
      AllFull(lens, N, given);
    }
  }

  /** When every node is full, no capacity is left. */
  lemma AllFull(lens: seq<nat>, N: nat, given: seq<nat>)
    requires |lens| == |given| && forall i :: 0 <= i < |lens| ==> lens[i] + given[i] >= N
    ensures Sum(given) >= Capacity(lens, N)
  {
    SumNotAbove(given, Positive(Room(lens, N)));
  }

  /** Everything the greedy loop knows between two slots. */
  ghost predicate Filled(ids: seq<NodeID>, lens: seq<nat>, N: nat, slotOfNode: seq<seq<Slot>>, add: Plan, idNode: int,
                         dest: map<Slot, nat>, overfilled: bool) {
    && |ids| == |lens| == |slotOfNode|
    && (forall id :: id in add ==> id in ids)
    && Deals(Given(add, ids), dest)
    && Sum(Sizes(Given(add, ids))) == |dest|
    && Lengths(slotOfNode, lens, Sizes(Given(add, ids)))
    && Filling(lens, N, Sizes(Given(add, ids)), idNode, overfilled)
  }

  lemma FilledStep(ids: seq<NodeID>, lens: seq<nat>, N: nat, slotOfNode: seq<seq<Slot>>, add: Plan, idNode: int,
                   dest: map<Slot, nat>, overfilled: bool, slot: Slot, j: int, overfilled': bool)
    requires NoDup(ids) && slot !in dest
    requires Filled(ids, lens, N, slotOfNode, add, idNode, dest, overfilled)
    requires 0 <= j < |ids|
    requires Filling(lens, N, Sizes(Given(add, ids))[j := Sizes(Given(add, ids))[j] + 1], j, overfilled')
    ensures Filled(ids, lens, N, slotOfNode[j := slotOfNode[j] + [slot]], add[ids[j] := Listed(add, ids[j]) + [slot]],
                   j, dest[slot := j], overfilled')
  {
    hide Deals, Sum, Sizes, Given, NoDup, Filling, Lengths, Listed;
    var given := Given(add, ids);
    OneMoreKey(dest, slot, j);
    DealOne(given, dest, j, slot);
    GivenUpdate(add, ids, j, Listed(add, ids[j]) + [slot]);
    SumUpdate(Sizes(given), j, Sizes(given)[j] + 1);
    LengthsStep(slotOfNode, lens, Sizes(given), j, slot);
  }

  lemma OneMoreKey(dest: map<Slot, nat>, s: Slot, j: nat)
    requires s !in dest
    ensures |dest[s := j]| == |dest| + 1
  {
    assert dest[s := j].Keys == dest.Keys + {s};
  }

  /** Kept slots and slots given make up a node's list. */
  ghost predicate Lengths(slotOfNode: seq<seq<Slot>>, lens: seq<nat>, given: seq<nat>) {
    && |slotOfNode| == |lens| == |given|
    && (forall i :: 0 <= i < |lens| ==> |slotOfNode[i]| == lens[i] + given[i])
  }

  lemma LengthsStep(slotOfNode: seq<seq<Slot>>, lens: seq<nat>, given: seq<nat>, j: nat, slot: Slot)
    requires Lengths(slotOfNode, lens, given) && j < |lens|
    ensures Lengths(slotOfNode[j := slotOfNode[j] + [slot]], lens, given[j := given[j] + 1])
  {
  }

  /** The body of the greedy loop, for one available slot. */
  method PlaceSlot(ids: seq<NodeID>, N: nat, slot: Slot, slotOfNode: seq<seq<Slot>>, add: Plan, idNode: int,
                   ghost lens: seq<nat>, ghost dest: map<Slot, nat>, ghost overfilled: bool)
    returns (slotOfNode': seq<seq<Slot>>, add': Plan, idNode': int, ghost dest': map<Slot, nat>,
             ghost overfilled': bool)
    requires NoDup(ids) && slot !in dest
    requires Filled(ids, lens, N, slotOfNode, add, idNode, dest, overfilled)
    ensures Filled(ids, lens, N, slotOfNode', add', idNode', dest', overfilled')
    ensures dest'.Keys == dest.Keys + {slot}
  {
    hide Filled, Sizes, Given, NoDup, Filling, Sum;
    FilledCursor(ids, lens, N, slotOfNode, add, idNode, dest, overfilled);
    idNode', overfilled' := idNode, overfilled;
    var missingSlots := N - |slotOfNode[idNode]|;
    if missingSlots <= 0 {
      idNode' := idNode + 1;
      if idNode' > |ids| - 1 {
        idNode' := idNode' - 1;
        overfilled' := true;
      }
    }
    FillNext(lens, N, Sizes(Given(add, ids)), idNode, overfilled, idNode');
    FilledStep(ids, lens, N, slotOfNode, add, idNode, dest, overfilled, slot, idNode', overfilled');
    slotOfNode' := slotOfNode[idNode' := slotOfNode[idNode'] + [slot]];
    add' := add[ids[idNode'] := Listed(add, ids[idNode']) + [slot]];
    dest' := dest[slot := idNode'];
  }

  /** The inner loop: the slots of one map entry. */
  method PlaceList(ids: seq<NodeID>, N: nat, slotsFrom: seq<Slot>, slotOfNode: seq<seq<Slot>>, add: Plan, idNode: int,
                   ghost lens: seq<nat>, ghost dest: map<Slot, nat>, ghost overfilled: bool)
    returns (slotOfNode': seq<seq<Slot>>, add': Plan, idNode': int, ghost dest': map<Slot, nat>,
             ghost overfilled': bool)
    requires NoDup(ids) && NoDup(slotsFrom) && ToSet(slotsFrom) !! dest.Keys
    requires Filled(ids, lens, N, slotOfNode, add, idNode, dest, overfilled)
    ensures Filled(ids, lens, N, slotOfNode', add', idNode', dest', overfilled')
    ensures dest'.Keys == dest.Keys + ToSet(slotsFrom)
  {
    hide Filled;
    slotOfNode', add', idNode', dest', overfilled' := slotOfNode, add, idNode, dest, overfilled;
    for k := 0 to |slotsFrom|
      invariant dest'.Keys == dest.Keys + ToSet(slotsFrom[..k])
      invariant Filled(ids, lens, N, slotOfNode', add', idNode', dest', overfilled')
    {
      assert slotsFrom[k] in ToSet(slotsFrom);
      assert slotsFrom[..k + 1] == slotsFrom[..k] + [slotsFrom[k]];
      slotOfNode', add', idNode', dest', overfilled' :=
        PlaceSlot(ids, N, slotsFrom[k], slotOfNode', add', idNode', lens, dest', overfilled');
    }
    assert slotsFrom[..|slotsFrom|] == slotsFrom;
  }

  lemma FilledCursor(ids: seq<NodeID>, lens: seq<nat>, N: nat, slotOfNode: seq<seq<Slot>>, add: Plan, idNode: int,
                     dest: map<Slot, nat>, overfilled: bool)
    requires Filled(ids, lens, N, slotOfNode, add, idNode, dest, overfilled)
    ensures 0 <= idNode < |ids| == |lens| == |slotOfNode|
    ensures |slotOfNode[idNode]| == lens[idNode] + Sizes(Given(add, ids))[idNode]
    ensures Filling(lens, N, Sizes(Given(add, ids)), idNode, overfilled)
  {
  }

  /** No slot is in two lists or twice in one. */
  ghost predicate DisjointLists(m: Plan) {
    && (forall id :: id in m ==> NoDup(m[id]))
    && (forall id1, id2, s :: id1 in m && id2 in m && id1 != id2 && s in m[id1] ==> s !in m[id2])
  }

  /** The slots listed under some of the keys. */
  ghost function Pool(m: Plan, ids: set<NodeID>): set<Slot> {
    set id, s | id in ids && id in m && s in m[id] :: s
  }

  /** buildSlotByNodeFromAvailableSlots, for any order of the map.  Exactly the available slots are handed out, each
      to one node and once.  Nodes that start below N end at N at most and the others get one slot at most; only
      the last node may get more, and only if the slots do not fit into the room that the nodes have. */
  method BuildSlotByNodeFromAvailableSlots(newMasterNodes: seq<Node>, nbSlotByNode: nat, slotToMigrateByNode: Plan)
    returns (slotToAddByNode: Plan, ghost dest: map<Slot, nat>, ghost overfilled: bool)
    requires Distinct(newMasterNodes) && DisjointLists(slotToMigrateByNode)
    ensures newMasterNodes == [] ==> slotToAddByNode == map[]
    ensures newMasterNodes != [] ==> dest.Keys == Pool(slotToMigrateByNode, slotToMigrateByNode.Keys)
    ensures newMasterNodes != [] ==>
      (forall id :: id in slotToAddByNode ==> id in IDs(newMasterNodes)) &&
      Deals(Given(slotToAddByNode, IDs(newMasterNodes)), dest)
    ensures forall i :: 0 <= i < |newMasterNodes| ==>
      WithinBound(|newMasterNodes[i].Slots|, |Listed(slotToAddByNode, newMasterNodes[i].ID)|, nbSlotByNode) ||
      (overfilled && i == |newMasterNodes| - 1)
    ensures overfilled ==> |dest| > Capacity(Lens(newMasterNodes), nbSlotByNode)
  {
    hide Deals, Given, NoDup, Capacity, Lens, IDs, Filled, Pool, DisjointLists, Distinct;
    slotToAddByNode, dest, overfilled := map[], map[], false;
    var nbNode := |newMasterNodes|;
    if nbNode == 0 {
      return;
    }
    ghost var ids, lens := IDs(newMasterNodes), Lens(newMasterNodes);
    var slotOfNode := seq(nbNode, i requires 0 <= i < nbNode reads newMasterNodes => newMasterNodes[i].Slots);
    var idNode := 0;
    FilledStart(newMasterNodes, nbSlotByNode, slotOfNode);
    PoolNothing(slotToMigrateByNode);
    var rest := slotToMigrateByNode.Keys;
    while rest != {}
      invariant rest <= slotToMigrateByNode.Keys
      invariant dest.Keys == Pool(slotToMigrateByNode, slotToMigrateByNode.Keys - rest)
      invariant Filled(ids, lens, nbSlotByNode, slotOfNode, slotToAddByNode, idNode, dest, overfilled)
      decreases rest
    {
      var id :| id in rest;
      var slotsFrom := slotToMigrateByNode[id];
      FreshSlots(slotToMigrateByNode, slotToMigrateByNode.Keys - rest, id);
      slotOfNode, slotToAddByNode, idNode, dest, overfilled :=
        PlaceList(IDs(newMasterNodes), nbSlotByNode, slotsFrom, slotOfNode, slotToAddByNode, idNode, lens, dest,
                  overfilled);
      PoolAdd(slotToMigrateByNode, slotToMigrateByNode.Keys - rest, id);
      assert slotToMigrateByNode.Keys - (rest - {id}) == (slotToMigrateByNode.Keys - rest) + {id};
      rest := rest - {id};
    }
    assert slotToMigrateByNode.Keys - rest == slotToMigrateByNode.Keys;
    FilledBounds(newMasterNodes, nbSlotByNode, slotOfNode, slotToAddByNode, idNode, dest, overfilled);
  }

  lemma PoolNothing(m: Plan)
    ensures Pool(m, m.Keys - m.Keys) == {}
  {
  }

  lemma PoolAdd(m: Plan, done: set<NodeID>, id: NodeID)
    requires id in m
    ensures Pool(m, done + {id}) == Pool(m, done) + ToSet(m[id])
  {
  }

  lemma FilledStart(nodes: seq<Node>, N: nat, slotOfNode: seq<seq<Slot>>)
    requires Distinct(nodes) && nodes != [] && |slotOfNode| == |nodes|
    requires forall i :: 0 <= i < |nodes| ==> slotOfNode[i] == nodes[i].Slots
    ensures NoDup(IDs(nodes))
    ensures Filled(IDs(nodes), Lens(nodes), N, slotOfNode, map[], 0, map[], false)
  {
    NobodyGiven(IDs(nodes), Lens(nodes), N);
  }

  lemma NobodyGiven(ids: seq<NodeID>, lens: seq<nat>, N: nat)
    requires |ids| == |lens| > 0
    ensures Deals(Given(map[], ids), map[])
    ensures Sum(Sizes(Given(map[], ids))) == 0
    ensures Filling(lens, N, Sizes(Given(map[], ids)), 0, false)
  {
    hide Sum, Capacity, Given, Sizes;
    AllEmpty(ids);
    var given := Given(map[], ids);
    SumZero(Sizes(given));
  }

  lemma AllEmpty(ids: seq<NodeID>)
    ensures var given := Given(map[], ids);
      && |given| == |ids| && |Sizes(given)| == |ids|
      && (forall i :: 0 <= i < |given| ==> given[i] == [])
      && (forall i :: 0 <= i < |ids| ==> Sizes(given)[i] == 0)
  {
  }

  lemma FilledBounds(nodes: seq<Node>, N: nat, slotOfNode: seq<seq<Slot>>, add: Plan, idNode: int, dest: map<Slot, nat>,
                     overfilled: bool)
    requires Filled(IDs(nodes), Lens(nodes), N, slotOfNode, add, idNode, dest, overfilled)
    ensures forall i :: 0 <= i < |nodes| ==>
      WithinBound(|nodes[i].Slots|, |Listed(add, nodes[i].ID)|, N) || (overfilled && i == |nodes| - 1)
    ensures overfilled ==> |dest| > Capacity(Lens(nodes), N)
    ensures (forall id :: id in add ==> id in IDs(nodes)) && Deals(Given(add, IDs(nodes)), dest)
  {
    hide Deals, Capacity, Sum;
    forall i | 0 <= i < |nodes|
      ensures WithinBound(|nodes[i].Slots|, |Listed(add, nodes[i].ID)|, N) || (overfilled && i == |nodes| - 1)
    {
      assert Sizes(Given(add, IDs(nodes)))[i] == |Listed(add, nodes[i].ID)|;
    }
  }

  lemma FreshSlots(m: Plan, done: set<NodeID>, id: NodeID)
    requires DisjointLists(m) && id in m && id !in done
    ensures NoDup(m[id]) && ToSet(m[id]) !! Pool(m, done)
  {
  }

  // ----- the plan of a scale-down

  /** The lists of the nodes, as one map from slots to nodes: so no slot is in two lists, and none is in one twice. */
  ghost predicate InMemory(nodes: seq<Node>, loc: map<Slot, Node>)
    reads nodes`Slots
  {
    forall n :: n in nodes ==> ListedAt(n, loc)
  }

  ghost predicate ListedAt(n: Node, loc: map<Slot, Node>)
    reads n`Slots
  {
    NoDup(n.Slots) && forall s :: s in n.Slots <==> s in loc && loc[s] == n
  }

  /** New and old masters belong to one cluster: ids and addresses tell them apart, and ids are not empty. */
  ghost predicate OneCluster(newMasters: seq<Node>, oldMasters: seq<Node>) {
    && Distinct(newMasters) && Distinct(oldMasters)
    && (forall a, b :: a in newMasters && b in oldMasters && a != b ==> a.ID != b.ID && a.IPPort() != b.IPPort())
    && (forall n :: n in newMasters + oldMasters ==> n.ID != "")
  }

  /** The state a scale-down starts from: the old masters' lists are disjoint and inside [0, S), and a new master
      that is not an old one holds nothing. */
  ghost predicate ReadyToPlan(newMasters: seq<Node>, oldMasters: seq<Node>, loc: map<Slot, Node>, nbSlots: nat)
    reads newMasters`Slots, oldMasters`Slots
  {
    && OneCluster(newMasters, oldMasters)
    && InMemory(oldMasters, loc)
    && (forall s :: s in loc ==> s < nbSlots && loc[s] in oldMasters)
    && (forall n :: n in newMasters && n !in oldMasters ==> n.Slots == [])
  }

  /** The first N slots of every new master: they stay where they are. */
  ghost function Kept(newMasters: seq<Node>, N: nat): set<Slot>
    reads newMasters`Slots
  {
    set n, s | n in newMasters && s in n.Slots[..Min(N, |n.Slots|)] :: s
  }

  function AllSlots(nbSlots: nat): set<Slot> {
    ToSet(Range(0, nbSlots))
  }

  lemma AllSlotsCount(nbSlots: nat)
    ensures |AllSlots(nbSlots)| == nbSlots
  {
    NoDupCard(Range(0, nbSlots));
  }

  /** A new master's list in `loc`. */
  lemma NewListed(newMasters: seq<Node>, oldMasters: seq<Node>, loc: map<Slot, Node>, nbSlots: nat, n: Node)
    requires ReadyToPlan(newMasters, oldMasters, loc, nbSlots) && n in newMasters
    ensures ListedAt(n, loc)
  {
  }

  function KeptSizes(lens: seq<nat>, N: nat): (r: seq<int>)
    ensures |r| == |lens|
    ensures forall i :: 0 <= i < |lens| ==> r[i] == Min(N, lens[i])
  {
    if lens == [] then [] else KeptSizes(lens[..|lens| - 1], N) + [Min(N, lens[|lens| - 1])]
  }

  lemma {:induction false} KeptCount(newMasters: seq<Node>, N: nat, loc: map<Slot, Node>)
    requires NoDup(newMasters) && InMemory(newMasters, loc)
    ensures |Kept(newMasters, N)| == Sum(KeptSizes(Lens(newMasters), N))
  {
    if newMasters == [] {
      assert Kept(newMasters, N) == {};
    } else {
      var k := |newMasters| - 1;
      var init, n := newMasters[..k], newMasters[k];
      assert newMasters == init + [n];
      KeptCount(init, N, loc);
      var own := n.Slots[..Min(N, |n.Slots|)];
      assert ListedAt(n, loc);
      NoDupCard(own);
      assert Kept(newMasters, N) == Kept(init, N) + ToSet(own);
      forall s | s in ToSet(own) ensures s !in Kept(init, N) {
        assert loc[s] == n && n !in init;
      }
      assert Lens(newMasters)[..k] == Lens(init);
    }
  }

  /** Room and kept slots together make N for every node. */
  lemma RoomAndKept(lens: seq<nat>, N: nat)
    ensures Capacity(lens, N) + Sum(KeptSizes(lens, N)) >= |lens| * N
  {
    SumPair(Positive(Room(lens, N)), KeptSizes(lens, N), N);
  }

  lemma {:induction false} SumPair(a: seq<int>, b: seq<int>, N: int)
    requires |a| == |b| && forall i :: 0 <= i < |a| ==> a[i] + b[i] == N
    ensures Sum(a) + Sum(b) == |a| * N
  {
    if a != [] {
      var k := |a| - 1;
      SumPair(a[..k], b[..k], N);
      assert (k + 1) * N == k * N + N;
    }
  }

  /** What an old master has to give up. */
  ghost function Leaving(n: Node, newMasters: seq<Node>, N: nat): seq<Slot>
    reads n`Slots
  {
    if n in newMasters then Excess(n, N) else n.Slots
  }

  /** The map holds what the old masters give up under their ids, and the lost slots under the empty id. */
  ghost predicate Collected(m: Plan, newMasters: seq<Node>, oldMasters: seq<Node>, N: nat, lost: seq<Slot>)
    reads oldMasters`Slots
  {
    && (forall n :: n in oldMasters ==> Listed(m, n.ID) == Leaving(n, newMasters, N))
    && (forall id :: id in m && id != "" ==> exists n :: n in oldMasters && n.ID == id)
    && "" in m && m[""] == lost
  }

  lemma CollectedPool(m: Plan, newMasters: seq<Node>, oldMasters: seq<Node>, loc: map<Slot, Node>, nbSlots: nat, N: nat,
                      lost: seq<Slot>)
    requires ReadyToPlan(newMasters, oldMasters, loc, nbSlots) && Collected(m, newMasters, oldMasters, N, lost)
    requires NoDup(lost) && forall s :: s in lost <==> 0 <= s < nbSlots && s !in loc
    ensures DisjointLists(m)
    ensures Pool(m, m.Keys) == AllSlots(nbSlots) - Kept(newMasters, N)
  {
    forall id | id in m ensures NoDup(m[id]) && forall s :: s in m[id] ==> PoolOwner(m, oldMasters, loc, id, s) {
      if id != "" {
        var n :| n in oldMasters && n.ID == id;
        assert ListedAt(n, loc);
      }
    }
    forall s ensures s in Pool(m, m.Keys) <==> s in AllSlots(nbSlots) - Kept(newMasters, N) {
      PoolMember(m, newMasters, oldMasters, loc, nbSlots, N, lost, s);
    }
  }

  /** The slot under this id is held by the node of that id, or by nobody. */
  ghost predicate PoolOwner(m: Plan, oldMasters: seq<Node>, loc: map<Slot, Node>, id: NodeID, s: Slot) {
    if id == "" then s !in loc else s in loc && loc[s].ID == id
  }

  lemma PoolMember(m: Plan, newMasters: seq<Node>, oldMasters: seq<Node>, loc: map<Slot, Node>, nbSlots: nat, N: nat,
                   lost: seq<Slot>, s: Slot)
    requires ReadyToPlan(newMasters, oldMasters, loc, nbSlots) && Collected(m, newMasters, oldMasters, N, lost)
    requires forall s :: s in lost <==> 0 <= s < nbSlots && s !in loc
    ensures s in Pool(m, m.Keys) <==> s in AllSlots(nbSlots) - Kept(newMasters, N)
  {
    hide NoDup, Distinct, Kept, Leaving, OneCluster, Range;
    if s in loc {
      var n := loc[s];
      assert n in oldMasters && ListedAt(n, loc);
      KeptOrLeaving(newMasters, oldMasters, loc, nbSlots, N, n, s);
      if s in Leaving(n, newMasters, N) {
        assert s in m[n.ID];
      }
      if s in Pool(m, m.Keys) {
        var id :| id in m && s in m[id];
        var o :| o in oldMasters && o.ID == id;
        assert ListedAt(o, loc);
        LeavingHeld(o, newMasters, N, s);
      }
    } else {
      if s in lost {
        assert s in m[""];
      }
      if s in Pool(m, m.Keys) {
        var id :| id in m && s in m[id];
        if id != "" {
          var o :| o in oldMasters && o.ID == id;
          assert ListedAt(o, loc);
          LeavingHeld(o, newMasters, N, s);
        }
      }
      KeptHeld(newMasters, oldMasters, loc, nbSlots, N, s);
    }
  }

  lemma LeavingHeld(n: Node, newMasters: seq<Node>, N: nat, s: Slot)
    requires s in Leaving(n, newMasters, N)
    ensures s in n.Slots
  {
  }

  lemma KeptHeld(newMasters: seq<Node>, oldMasters: seq<Node>, loc: map<Slot, Node>, nbSlots: nat, N: nat, s: Slot)
    requires ReadyToPlan(newMasters, oldMasters, loc, nbSlots)
    ensures s in Kept(newMasters, N) ==> s in loc
  {
    if s in Kept(newMasters, N) {
      var n :| n in newMasters && s in n.Slots[..Min(N, |n.Slots|)];
      NewListed(newMasters, oldMasters, loc, nbSlots, n);
    }
  }

  lemma KeptWithin(newMasters: seq<Node>, oldMasters: seq<Node>, loc: map<Slot, Node>, nbSlots: nat, N: nat)
    requires ReadyToPlan(newMasters, oldMasters, loc, nbSlots)
    ensures Kept(newMasters, N) <= AllSlots(nbSlots)
  {
    hide Kept;
    forall s | s in Kept(newMasters, N) ensures s in AllSlots(nbSlots) {
      KeptHeld(newMasters, oldMasters, loc, nbSlots, N, s);
    }
  }

  /** Of what an old master holds, exactly what is not kept has to leave. */
  lemma KeptOrLeaving(newMasters: seq<Node>, oldMasters: seq<Node>, loc: map<Slot, Node>, nbSlots: nat, N: nat, n: Node,
                      s: Slot)
    requires ReadyToPlan(newMasters, oldMasters, loc, nbSlots) && n in oldMasters && s in loc && loc[s] == n
    ensures s in Leaving(n, newMasters, N) <==> s !in Kept(newMasters, N)
  {
    hide OneCluster, Distinct;
    assert ListedAt(n, loc);
    var k := Min(N, |n.Slots|);
    assert n.Slots == n.Slots[..k] + n.Slots[k..];
    if s in Kept(newMasters, N) {
      var o :| o in newMasters && s in o.Slots[..Min(N, |o.Slots|)];
      NewListed(newMasters, oldMasters, loc, nbSlots, o);
    }
  }

  /** The map the greedy loop is given: the surplus of the masters that stay, everything of those that go, and the
      lost slots. */
  method AvailableSlots(newMasterNodes: seq<Node>, oldMasterNodes: seq<Node>, nbSlots: nat, nbSlotByNode: nat,
                        ghost loc: map<Slot, Node>)
    returns (m: Plan)
    requires nbSlots > 0 && ReadyToPlan(newMasterNodes, oldMasterNodes, loc, nbSlots)
    ensures DisjointLists(m)
    ensures Pool(m, m.Keys) == AllSlots(nbSlots) - Kept(newMasterNodes, nbSlotByNode)
  {
    hide NoDup, Distinct, Kept;
    m := RetrieveSlotToMigrateFrom(oldMasterNodes, nbSlotByNode);
    var fromDeleted := RetrieveSlotToMigrateFromRemovedNodes(newMasterNodes, oldMasterNodes);
    ghost var surplus := m;
    m := Overlay(m, fromDeleted);
    var lost := RetrieveLostSlots(oldMasterNodes, nbSlots);
    m := m["" := lost];
    forall s ensures s in lost <==> 0 <= s < nbSlots && s !in loc {
      if s in loc {
        assert ListedAt(loc[s], loc);
      }
    }
    AscendingNoDup(lost);
    CollectedAll(surplus, fromDeleted, newMasterNodes, oldMasterNodes, nbSlotByNode, lost);
    CollectedPool(m, newMasterNodes, oldMasterNodes, loc, nbSlots, nbSlotByNode, lost);
  }

  /** The loop that lets the entries of one map replace those of another. */
  method Overlay(base: Plan, top: Plan) returns (m: Plan)
    ensures m == base + top
  {
    m := base;
    var rest := top.Keys;
    while rest != {}
      invariant rest <= top.Keys
      invariant m == base + (top - rest)
      decreases rest
    {
      var id :| id in rest;
      m := m[id := top[id]];
      rest := rest - {id};
    }
  }

  lemma CollectedAll(surplus: Plan, deleted: Plan, newMasters: seq<Node>, oldMasters: seq<Node>, N: nat,
                     lost: seq<Slot>)
    requires OneCluster(newMasters, oldMasters)
    requires forall n :: n in oldMasters ==> Listed(surplus, n.ID) == Excess(n, N)
    requires forall id :: id in surplus ==> exists n :: n in oldMasters && n.ID == id
    requires forall id :: id in deleted <==> HasID(oldMasters, id) && !HasID(newMasters, id)
    requires forall n :: n in oldMasters && n.ID in deleted ==> deleted[n.ID] == n.Slots
    ensures Collected((surplus + deleted)["" := lost], newMasters, oldMasters, N, lost)
  {
    var m := (surplus + deleted)["" := lost];
    forall n | n in oldMasters ensures Listed(m, n.ID) == Leaving(n, newMasters, N) {
      assert n in newMasters + oldMasters;
    }
  }

  /** The plan of a scale-down: every slot that is not kept is handed to exactly one new master. */
  ghost predicate Planned(add: Plan, newMasters: seq<Node>, dest: map<Slot, nat>, nbSlots: nat, N: nat)
    reads newMasters`Slots
  {
    && dest.Keys == AllSlots(nbSlots) - Kept(newMasters, N)
    && (forall id :: id in add ==> id in IDs(newMasters))
    && Deals(Given(add, IDs(newMasters)), dest)
    && (forall i :: 0 <= i < |newMasters| ==> WithinBound(|newMasters[i].Slots|, |Listed(add, newMasters[i].ID)|, N))
  }

  /** The share of a scale-down, ceil(S/n). */
  function ShareUp(nbSlots: nat, n: nat): nat
    requires n > 0
  {
    nbSlots / n + (if nbSlots % n == 0 then 0 else 1)
  }

  /** It is the smallest share with which n masters have room for all slots. */
  lemma ShareCovers(nbSlots: nat, n: nat)
    requires n > 0
    ensures nbSlots <= n * ShareUp(nbSlots, n) < nbSlots + n
  {
    CeilDiv(nbSlots, n);
    assert n * ShareUp(nbSlots, n) == ShareUp(nbSlots, n) * n;
  }

  /** There is always enough room: the slots to hand out are no more than the new masters can take before all of
      them have ceil(S/n). */
  lemma EnoughRoom(newMasters: seq<Node>, oldMasters: seq<Node>, loc: map<Slot, Node>, nbSlots: nat)
    requires newMasters != [] && ReadyToPlan(newMasters, oldMasters, loc, nbSlots)
    ensures var N := ShareUp(nbSlots, |newMasters|);
      |AllSlots(nbSlots) - Kept(newMasters, N)| <= Capacity(Lens(newMasters), N)
  {
    hide Sum, Capacity, KeptSizes, Lens, Kept, ShareUp, AllSlots;
    var N := ShareUp(nbSlots, |newMasters|);
    forall n | n in newMasters ensures ListedAt(n, loc) {
      NewListed(newMasters, oldMasters, loc, nbSlots, n);
    }
    assert NoDup(newMasters);
    KeptCount(newMasters, N, loc);
    RoomAndKept(Lens(newMasters), N);
    ShareCovers(nbSlots, |newMasters|);
    AllSlotsCount(nbSlots);
    KeptWithin(newMasters, oldMasters, loc, nbSlots, N);
  }

  /** buildSlotsByNode: for every order of the maps, each slot that has to move gets exactly one new owner, the
      over-filling branch is not taken, and no new master goes beyond ceil(S/n) + 1, or beyond ceil(S/n) if it
      starts below that. */
  method BuildSlotsByNode(newMasterNodes: seq<Node>, oldMasterNodes: seq<Node>, nbSlots: nat,
                          ghost loc: map<Slot, Node>)
    returns (slotToAddByNode: Plan, ghost dest: map<Slot, nat>)
    requires nbSlots > 0 && ReadyToPlan(newMasterNodes, oldMasterNodes, loc, nbSlots)
    ensures newMasterNodes == [] ==> slotToAddByNode == map[]
    ensures newMasterNodes != [] ==>
      Planned(slotToAddByNode, newMasterNodes, dest, nbSlots, ShareUp(nbSlots, |newMasterNodes|))
  {
    hide Deals, Given, Capacity, Lens, IDs, Pool, DisjointLists, Kept, AllSlots, Distinct, NoDup;
    dest := map[];
    var nbNode := |newMasterNodes|;
    if nbNode == 0 {
      return map[], dest;
    }
    var nbSlotByNode := Ceil(nbSlots as real / nbNode as real);
    CeilDiv(nbSlots, nbNode);
    var slotToMigrateByNode := AvailableSlots(newMasterNodes, oldMasterNodes, nbSlots, nbSlotByNode, loc);
    EnoughRoom(newMasterNodes, oldMasterNodes, loc, nbSlots);
    ghost var overfilled;
    slotToAddByNode, dest, overfilled :=
      BuildSlotByNodeFromAvailableSlots(newMasterNodes, nbSlotByNode, slotToMigrateByNode);
    assert |dest| == |dest.Keys|;
  }
}
