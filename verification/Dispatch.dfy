/** Scale-down execution: feedMigInfo and DispatchSlotToNewMasters in pkg/controller/clustering/migration.go. */
module Dispatch {
  import opened Slots
  import opened Sums
  import opened Nodes
  import opened Redis
  import opened Migration
  import opened BatchHandOver

  datatype MigrationInfo = MigrationInfo(From: Node?, To: Node)

  type SlotsByMigInfo = map<MigrationInfo, seq<Slot>>

  function Holder(loc: map<Slot, Node>, s: Slot): Node? {
    if s in loc then loc[s] else null
  }

  /** feedMigInfo, for one slot that node `to` is to have: nothing if it already has it, else one more slot for the
      pair of its holder (or nobody) and `to`. */
  method FeedSlot(newMasterNodes: seq<Node>, oldMasterNodes: seq<Node>, id: NodeID, s: Slot,
                  mapIn: SlotsByMigInfo, nbIn: nat, ghost loc: map<Slot, Node>, ghost to: Node)
    returns (mapOut: SlotsByMigInfo, nbslotsToMigrate: nat)
    requires OneCluster(newMasterNodes, oldMasterNodes) && InMemory(oldMasterNodes, loc)
    requires s in loc ==> loc[s] in oldMasterNodes
    requires to in newMasterNodes && to.ID == id
    ensures Holder(loc, s) == to ==> mapOut == mapIn && nbslotsToMigrate == nbIn
    ensures Holder(loc, s) != to ==>
      var e := MigrationInfo(Holder(loc, s), to);
      mapOut == mapIn[e := Listed(mapIn, e) + [s]] && nbslotsToMigrate == nbIn + 1
  {
    hide NoDup;
    mapOut, nbslotsToMigrate := mapIn, nbIn;
    var found := false;
    for i := 0 to |oldMasterNodes|
      invariant !found && mapOut == mapIn && nbslotsToMigrate == nbIn
      invariant forall n :: n in oldMasterNodes[..i] ==> s !in n.Slots
    {
      var oldNode := oldMasterNodes[i];
      assert ListedAt(oldNode, loc);
      var has := Contains(oldNode.Slots, s);
      if oldNode.ID == id {
        if has {
          found := true;
          break;
        }
        continue;
      }
      if has {
        var newNode := GetNodeByID(newMasterNodes, id);
        if newNode == null {
          continue;
        }
        var e := MigrationInfo(oldNode, newNode);
        mapOut := mapOut[e := Listed(mapOut, e) + [s]];
        found := true;
        nbslotsToMigrate := nbslotsToMigrate + 1;
        break;
      }
    }
    if !found {
      var newNode := GetNodeByID(newMasterNodes, id);
      if newNode == null {
        return;
      }
      var e := MigrationInfo(null, newNode);
      mapOut := mapOut[e := Listed(mapOut, e) + [s]];
      nbslotsToMigrate := nbslotsToMigrate + 1;
    }
  }

  /** The entry a slot belongs to. */
  ghost function EntryOf(newMasters: seq<Node>, loc: map<Slot, Node>, dest: map<Slot, nat>, s: Slot): MigrationInfo
    requires s in dest && dest[s] < |newMasters|
  {
    MigrationInfo(Holder(loc, s), newMasters[dest[s]])
  }

  /** The batches hold exactly those of the slots in `done` that change hands, each in the batch of its holder and
      its new owner, once. */
  ghost predicate Batches(m: SlotsByMigInfo, newMasters: seq<Node>, loc: map<Slot, Node>, dest: map<Slot, nat>,
                          done: set<Slot>)
  {
    && done <= dest.Keys
    && (forall s :: s in dest ==> dest[s] < |newMasters|)
    && (forall e :: e in m ==> NoDup(m[e]) && m[e] != [])
    && (forall e, s :: e in m && s in m[e] ==> s in done && e == EntryOf(newMasters, loc, dest, s) && e.From != e.To)
    && (forall s :: s in done && Holder(loc, s) != newMasters[dest[s]] ==>
          s in Listed(m, EntryOf(newMasters, loc, dest, s)))
  }

  lemma BatchesStep(m: SlotsByMigInfo, m': SlotsByMigInfo, newMasters: seq<Node>, loc: map<Slot, Node>,
                    dest: map<Slot, nat>, done: set<Slot>, s: Slot)
    requires Batches(m, newMasters, loc, dest, done) && s in dest && s !in done
    requires m' == if Holder(loc, s) == newMasters[dest[s]] then m
                   else m[EntryOf(newMasters, loc, dest, s) := Listed(m, EntryOf(newMasters, loc, dest, s)) + [s]]
    ensures Batches(m', newMasters, loc, dest, done + {s})
  {
    if Holder(loc, s) != newMasters[dest[s]] {
      var e := EntryOf(newMasters, loc, dest, s);
      assert s !in Listed(m, e);
      forall t | t in done + {s} && Holder(loc, t) != newMasters[dest[t]]
        ensures t in Listed(m', EntryOf(newMasters, loc, dest, t))
      {
        if t != s {
          assert t in Listed(m, EntryOf(newMasters, loc, dest, t));
        }
      }
    }
  }

  /** Those of the slots in `done` that change hands. */
  ghost function Changing(newMasters: seq<Node>, loc: map<Slot, Node>, dest: map<Slot, nat>, done: set<Slot>): set<Slot>
  {
    set s | s in done && s in dest && dest[s] < |newMasters| && Holder(loc, s) != newMasters[dest[s]]
  }

  lemma ChangingStep(newMasters: seq<Node>, loc: map<Slot, Node>, dest: map<Slot, nat>, done: set<Slot>, s: Slot)
    requires s in dest && dest[s] < |newMasters| && s !in done
    ensures |Changing(newMasters, loc, dest, done + {s})| ==
            |Changing(newMasters, loc, dest, done)| + (if Holder(loc, s) == newMasters[dest[s]] then 0 else 1)
  {
    var more := if Holder(loc, s) == newMasters[dest[s]] then {} else {s};
    assert Changing(newMasters, loc, dest, done + {s}) == Changing(newMasters, loc, dest, done) + more;
  }

  /** feedMigInfo, for any order of the map of planned slots; it counts the slots that change hands. */
  method FeedMigInfo(newMasterNodes: seq<Node>, oldMasterNodes: seq<Node>, nbSlots: nat, ghost loc: map<Slot, Node>)
    returns (mapOut: SlotsByMigInfo, nbslotsToMigrate: nat, ghost dest: map<Slot, nat>)
    requires nbSlots > 0 && newMasterNodes != [] && ReadyToPlan(newMasterNodes, oldMasterNodes, loc, nbSlots)
    ensures dest.Keys == AllSlots(nbSlots) - Kept(newMasterNodes, ShareUp(nbSlots, |newMasterNodes|))
    ensures Batches(mapOut, newMasterNodes, loc, dest, dest.Keys)
    ensures nbslotsToMigrate == |Changing(newMasterNodes, loc, dest, dest.Keys)|
    ensures FinalSizes(Lens(newMasterNodes), dest, ShareUp(nbSlots, |newMasterNodes|))
  {
    hide Changing, Kept, AllSlots, Distinct, NoDup, Batches, FinalSizes, Planned, Lens, InMemory;
    ghost var N := ShareUp(nbSlots, |newMasterNodes|);
    var mapSlotToUpdate;
    mapSlotToUpdate, dest := BuildSlotsByNode(newMasterNodes, oldMasterNodes, nbSlots, loc);
    PlannedKeys(mapSlotToUpdate, newMasterNodes, dest, nbSlots, N);
    PlannedSizes(mapSlotToUpdate, newMasterNodes, dest, nbSlots, N);
    mapOut, nbslotsToMigrate := map[], 0;
    NoBatches(newMasterNodes, loc, dest, mapSlotToUpdate, nbSlots, N);
    var rest := mapSlotToUpdate.Keys;
    while rest != {}
      invariant rest <= mapSlotToUpdate.Keys
      invariant Batches(mapOut, newMasterNodes, loc, dest, Pool(mapSlotToUpdate, mapSlotToUpdate.Keys - rest))
      invariant nbslotsToMigrate ==
        |Changing(newMasterNodes, loc, dest, Pool(mapSlotToUpdate, mapSlotToUpdate.Keys - rest))|
      decreases rest
    {
      var id :| id in rest;
      ghost var i := PlannedAt(mapSlotToUpdate, newMasterNodes, dest, nbSlots, N, id);
      PlannedFresh(mapSlotToUpdate, newMasterNodes, dest, nbSlots, N, mapSlotToUpdate.Keys - rest, id);
      mapOut, nbslotsToMigrate := FeedList(newMasterNodes, oldMasterNodes, id, mapSlotToUpdate[id], mapOut,
        nbslotsToMigrate, loc, dest, Pool(mapSlotToUpdate, mapSlotToUpdate.Keys - rest), i, nbSlots);
      PoolAdd(mapSlotToUpdate, mapSlotToUpdate.Keys - rest, id);
      assert mapSlotToUpdate.Keys - (rest - {id}) == (mapSlotToUpdate.Keys - rest) + {id};
      rest := rest - {id};
    }
    assert mapSlotToUpdate.Keys - rest == mapSlotToUpdate.Keys;
    PlannedPool(mapSlotToUpdate, newMasterNodes, dest, nbSlots, N);
  }

  /** The middle loop of feedMigInfo: the slots planned for one id. */
  method FeedList(newMasterNodes: seq<Node>, oldMasterNodes: seq<Node>, id: NodeID, slots: seq<Slot>,
                  mapIn: SlotsByMigInfo, nbIn: nat,
                  ghost loc: map<Slot, Node>, ghost dest: map<Slot, nat>, ghost done: set<Slot>,
                  ghost i: nat, ghost nbSlots: nat)
    returns (mapOut: SlotsByMigInfo, nbslotsToMigrate: nat)
    requires ReadyToPlan(newMasterNodes, oldMasterNodes, loc, nbSlots)
    requires i < |newMasterNodes| && newMasterNodes[i].ID == id
    requires NoDup(slots) && ToSet(slots) !! done && forall s :: s in slots ==> s in dest && dest[s] == i
    requires Batches(mapIn, newMasterNodes, loc, dest, done) && nbIn == |Changing(newMasterNodes, loc, dest, done)|
    ensures Batches(mapOut, newMasterNodes, loc, dest, done + ToSet(slots))
    ensures nbslotsToMigrate == |Changing(newMasterNodes, loc, dest, done + ToSet(slots))|
  {
    hide Batches, Changing, Distinct;
    mapOut, nbslotsToMigrate := mapIn, nbIn;
    assert done + ToSet(slots[..0]) == done;
    for k := 0 to |slots|
      invariant Batches(mapOut, newMasterNodes, loc, dest, done + ToSet(slots[..k]))
      invariant nbslotsToMigrate == |Changing(newMasterNodes, loc, dest, done + ToSet(slots[..k]))|
    {
      var s := slots[k];
      assert s in slots && s in ToSet(slots) && s !in slots[..k];
      ghost var before := mapOut;
      mapOut, nbslotsToMigrate :=
        FeedSlot(newMasterNodes, oldMasterNodes, id, s, mapOut, nbslotsToMigrate, loc, newMasterNodes[i]);
      BatchesStep(before, mapOut, newMasterNodes, loc, dest, done + ToSet(slots[..k]), s);
      ChangingStep(newMasterNodes, loc, dest, done + ToSet(slots[..k]), s);
      assert slots[..k + 1] == slots[..k] + [s];
      assert done + ToSet(slots[..k + 1]) == done + ToSet(slots[..k]) + {s};
    }
    assert slots[..|slots|] == slots;
  }

  /** How many slots the plan hands to the i-th new master. */
  ghost function Incoming(dest: map<Slot, nat>, i: nat): set<Slot> {
    set s | s in dest && dest[s] == i
  }

  ghost predicate FinalSizes(lens: seq<nat>, dest: map<Slot, nat>, N: nat) {
    forall i :: 0 <= i < |lens| ==> WithinBound(lens[i], |Incoming(dest, i)|, N)
  }

  lemma DealsAt(given: seq<seq<Slot>>, dest: map<Slot, nat>, i: nat)
    requires Deals(given, dest) && i < |given|
    ensures NoDup(given[i]) && forall s :: s in given[i] <==> s in dest && dest[s] == i
  {
  }

  lemma PlannedKeys(add: Plan, newMasters: seq<Node>, dest: map<Slot, nat>, nbSlots: nat, N: nat)
    requires Planned(add, newMasters, dest, nbSlots, N)
    ensures dest.Keys == AllSlots(nbSlots) - Kept(newMasters, N)
  {
  }

  lemma PlannedSizes(add: Plan, newMasters: seq<Node>, dest: map<Slot, nat>, nbSlots: nat, N: nat)
    requires Planned(add, newMasters, dest, nbSlots, N)
    ensures FinalSizes(Lens(newMasters), dest, N)
  {
    hide Kept, AllSlots, NoDup, Deals, IDs, Given;
    forall i | 0 <= i < |newMasters| ensures |Incoming(dest, i)| == |Listed(add, newMasters[i].ID)| {
      var given := Given(add, IDs(newMasters))[i];
      DealsAt(Given(add, IDs(newMasters)), dest, i);
      NoDupCard(given);
      assert ToSet(given) == Incoming(dest, i);
    }
  }

  /** Where the slots under an id are to go. */
  lemma PlannedAt(add: Plan, newMasters: seq<Node>, dest: map<Slot, nat>, nbSlots: nat, N: nat, id: NodeID)
    returns (i: nat)
    requires Planned(add, newMasters, dest, nbSlots, N) && id in add
    ensures i < |newMasters| && newMasters[i].ID == id && NoDup(add[id])
    ensures forall s :: s in add[id] <==> s in dest && dest[s] == i
  {
    hide Kept, AllSlots, NoDup, Deals, IDs, Given;
    i :| 0 <= i < |newMasters| && IDs(newMasters)[i] == id;
    DealsAt(Given(add, IDs(newMasters)), dest, i);
  }

  /** The lists under different ids have no slot in common. */
  lemma PlannedFresh(add: Plan, newMasters: seq<Node>, dest: map<Slot, nat>, nbSlots: nat, N: nat, ids: set<NodeID>,
                     id: NodeID)
    requires Planned(add, newMasters, dest, nbSlots, N) && id in add && id !in ids
    ensures ToSet(add[id]) !! Pool(add, ids)
  {
    hide Planned, NoDup;
    var i := PlannedAt(add, newMasters, dest, nbSlots, N, id);
    forall id', s | id' in ids && id' in add && s in add[id'] ensures s !in add[id] {
      var j := PlannedAt(add, newMasters, dest, nbSlots, N, id');
    }
  }

  /** All lists together hold every planned slot. */
  lemma PlannedPool(add: Plan, newMasters: seq<Node>, dest: map<Slot, nat>, nbSlots: nat, N: nat)
    requires Planned(add, newMasters, dest, nbSlots, N)
    ensures Pool(add, add.Keys) == dest.Keys
  {
    hide Kept, AllSlots, NoDup, IDs, Given;
    forall s | s in dest ensures s in Pool(add, add.Keys) {
      var id := newMasters[dest[s]].ID;
      assert Given(add, IDs(newMasters))[dest[s]] == Listed(add, id);
      assert s in Given(add, IDs(newMasters))[dest[s]];
      assert s in add[id];
    }
    forall s | s in Pool(add, add.Keys) ensures s in dest {
      var id :| id in add && s in add[id];
      var i := PlannedAt(add, newMasters, dest, nbSlots, N, id);
    }
  }

  lemma NoBatches(newMasters: seq<Node>, loc: map<Slot, Node>, dest: map<Slot, nat>, add: Plan, nbSlots: nat, N: nat)
    requires Planned(add, newMasters, dest, nbSlots, N)
    ensures Batches(map[], newMasters, loc, dest, Pool(add, add.Keys - add.Keys))
    ensures Changing(newMasters, loc, dest, Pool(add, add.Keys - add.Keys)) == {}
  {
    hide Kept, AllSlots, NoDup;
    PoolNothing(add);
  }

  // ----- executing the plan

  /** Ids and addresses tell the nodes of a list apart; a node may be listed twice. */
  ghost predicate Members(all: seq<Node>) {
    forall a, b :: a in all && b in all && a != b ==> a.ID != b.ID && a.IPPort() != b.IPPort()
  }

  /** The lists after some slots have been given to a node. */
  ghost function Relocate(loc: map<Slot, Node>, slots: seq<Slot>, to: Node): map<Slot, Node> {
    loc + map s | s in slots :: to
  }

  /** What the cluster and the lists say about a slot that is about to move. */
  ghost predicate AtSource(admin: Admin, loc: map<Slot, Node>, from: Node?, s: Slot)
    reads admin
  {
    && s < |admin.log| && admin.log[s] != []
    && (if from == null then s !in loc && Holders(admin.ids, admin.Now(s)) == {}
        else s in loc && loc[s] == from && Settled(admin.ids, admin.Now(s), from.IPPort()))
  }

  lemma Relocated(all: seq<Node>, loc: map<Slot, Node>, from: Node?, to: Node, slots: seq<Slot>, n: Node,
                  was: seq<Slot>)
    requires NoDup(was) && forall s :: s in was <==> s in loc && loc[s] == n
    requires forall s :: s in slots ==> Holder(loc, s) == from
    requires from != to
    requires n.Slots == if n == to then Union(was, slots) else if n == from then Without(was, slots) else was
    ensures ListedAt(n, Relocate(loc, slots, to))
  {
    hide NoDup;
  }

  /** The body of the loop over the migration map. */
  method DispatchEntry(admin: Admin, allMasterNodes: seq<Node>, e: MigrationInfo, slots: seq<Slot>,
                       ghost loc: map<Slot, Node>)
    returns (ok: bool)
    requires admin.Valid() && admin.Knows(allMasterNodes) && Members(allMasterNodes) && InMemory(allMasterNodes, loc)
    requires e.To in allMasterNodes && (e.From == null || e.From in allMasterNodes) && e.From != e.To
    requires NoDup(slots) && forall s :: s in slots ==> AtSource(admin, loc, e.From, s)
    modifies admin`log, admin`failures, admin`takeoverFailed, admin`migrationFailed, allMasterNodes`Slots
    ensures admin.Valid() && |admin.log| == |old(admin.log)|
    ensures forall s :: 0 <= s < |admin.log| && s !in slots ==> admin.log[s] == old(admin.log[s])
    ensures InMemory(allMasterNodes, if ok then Relocate(loc, slots, e.To) else loc)
    ensures admin.failures >= old(admin.failures) && (admin.failures == old(admin.failures) ==> ok)
    ensures admin.failures == old(admin.failures) ==> forall s :: s in slots && s < |admin.log| ==>
      Holders(admin.ids, admin.Now(s)) == {e.To.IPPort()} &&
      (e.From != null ==> Settled(admin.ids, admin.Now(s), e.To.IPPort()))
    ensures !ok && e.From != null ==> forall s :: s in slots && s < |admin.log| ==>
      Holders(admin.ids, admin.Now(s)) == {e.From.IPPort()}
    ensures admin.failures == old(admin.failures) && e.From != null ==> forall m, s ::
      m in allMasterNodes && old(|m.Slots|) > 0 && s in slots && s < |admin.log| ==>
        Told(admin.Now(s), m.IPPort(), e.To.ID)
    ensures old(admin.Safe()) ==> admin.Safe()
  {
    hide AllSafe, Holders, KeysAt, AllKeys, NoDup, Told, Without, Union, Relocate, InMemory;
    forall n | n in allMasterNodes ensures ListedAt(n, loc) {
      ListOf(allMasterNodes, loc, n);
    }
    if e.From == null {
      ok := admin.AddSlots(e.To.IPPort(), slots);
      if !ok {
        return;
      }
      forall s | s in slots && s < |admin.log| ensures Holders(admin.ids, admin.Now(s)) == {e.To.IPPort()} {
        AddSlotHolders(admin.ids, old(admin.Now(s)), e.To.IPPort());
      }
      e.To.Slots := Slots.AddSlots(e.To.Slots, slots);
    } else {
      ok := MoveBatch(admin, allMasterNodes, e.From, e.To, slots);
    }
    if ok {
      forall n | n in allMasterNodes ensures ListedAt(n, Relocate(loc, slots, e.To)) {
        Relocated(allMasterNodes, loc, e.From, e.To, slots, n, old(n.Slots));
      }
      AllListed(allMasterNodes, Relocate(loc, slots, e.To));
    } else {
      forall n | n in allMasterNodes ensures ListedAt(n, loc) {
        assert n.Slots == old(n.Slots);
      }
      AllListed(allMasterNodes, loc);
    }
  }

  lemma ListOf(all: seq<Node>, loc: map<Slot, Node>, n: Node)
    requires InMemory(all, loc) && n in all
    ensures ListedAt(n, loc)
  {
  }

  lemma AllListed(all: seq<Node>, loc: map<Slot, Node>)
    requires forall n :: n in all ==> ListedAt(n, loc)
    ensures InMemory(all, loc)
  {
  }

  /** Where the slots are when those in `moved` have reached their new owners. */
  ghost function LocAfter(newMasters: seq<Node>, loc0: map<Slot, Node>, dest: map<Slot, nat>,
                          moved: set<Slot>): map<Slot, Node>
    requires forall s :: s in moved ==> s in dest && dest[s] < |newMasters|
  {
    loc0 + map s | s in moved :: newMasters[dest[s]]
  }

  /** `moved` is what the entries outside `rest` have moved, and nothing in `rest` has been touched. */
  ghost predicate Progress(m: SlotsByMigInfo, rest: set<MigrationInfo>, newMasters: seq<Node>, loc0: map<Slot, Node>,
                           dest: map<Slot, nat>, moved: set<Slot>) {
    && rest <= m.Keys
    && (forall s :: s in moved ==> s in dest && dest[s] < |newMasters| && Holder(loc0, s) != newMasters[dest[s]])
    && (forall e, s :: e in rest && s in m[e] ==> s !in moved)
    && (forall e, s :: e in m && e !in rest && s in m[e] ==> s in moved)
  }

  lemma EntryFacts(m: SlotsByMigInfo, newMasters: seq<Node>, loc0: map<Slot, Node>, dest: map<Slot, nat>,
                   e: MigrationInfo)
    requires Batches(m, newMasters, loc0, dest, dest.Keys) && e in m
    ensures NoDup(m[e]) && e.To in newMasters && e.From != e.To
    ensures e.From != null ==> exists s :: s in loc0 && loc0[s] == e.From
    ensures forall s :: s in m[e] ==>
      s in dest && dest[s] < |newMasters| && Holder(loc0, s) == e.From && newMasters[dest[s]] == e.To
  {
    hide NoDup;
    forall s | s in m[e]
      ensures s in dest && dest[s] < |newMasters| && Holder(loc0, s) == e.From && newMasters[dest[s]] == e.To
    {
      assert e == EntryOf(newMasters, loc0, dest, s);
    }
    assert m[e][0] in m[e];
  }

  lemma ProgressStep(m: SlotsByMigInfo, rest: set<MigrationInfo>, newMasters: seq<Node>, loc0: map<Slot, Node>,
                     dest: map<Slot, nat>, moved: set<Slot>, e: MigrationInfo)
    requires Batches(m, newMasters, loc0, dest, dest.Keys) && Progress(m, rest, newMasters, loc0, dest, moved)
    requires e in rest
    ensures Progress(m, rest - {e}, newMasters, loc0, dest, moved + ToSet(m[e]))
    ensures forall s :: s in m[e] ==> s !in moved
  {
    hide NoDup;
    EntryFacts(m, newMasters, loc0, dest, e);
    forall e', s | e' in rest - {e} && s in m[e'] ensures s !in moved + ToSet(m[e]) {
      assert e' == EntryOf(newMasters, loc0, dest, s);
    }
  }

  lemma LocAfterStep(newMasters: seq<Node>, loc0: map<Slot, Node>, dest: map<Slot, nat>, moved: set<Slot>,
                     slots: seq<Slot>, to: Node)
    requires forall s :: s in moved + ToSet(slots) ==> s in dest && dest[s] < |newMasters|
    requires forall s :: s in slots ==> newMasters[dest[s]] == to
    ensures LocAfter(newMasters, loc0, dest, moved + ToSet(slots)) ==
      Relocate(LocAfter(newMasters, loc0, dest, moved), slots, to)
  {
  }

  /** Before a scale-down the cluster agrees with the lists: a listed slot is settled at the master that lists it, and
      a slot in no list has no owner. */
  ghost predicate Agrees(ids: map<Addr, NodeID>, log: seq<seq<SlotState>>, loc: map<Slot, Node>) {
    && (forall s :: 0 <= s < |log| ==> log[s] != [])
    && (forall s :: 0 <= s < |log| && s in loc ==> Settled(ids, log[s][|log[s]| - 1], loc[s].IPPort()))
    && (forall s :: 0 <= s < |log| && s !in loc ==> Holders(ids, log[s][|log[s]| - 1]) == {})
  }

  /** One slot that has moved: its new owner is its only owner, and when it came from another master it came with all
      of its keys and every master that keeps slots has been told. */
  ghost predicate Arrival(ids: map<Addr, NodeID>, st: SlotState, from: Node?, to: Node, anchored: set<Node>) {
    && Holders(ids, st) == {to.IPPort()}
    && (from != null ==> Settled(ids, st, to.IPPort()))
    && (from != null ==> forall x :: x in anchored ==> Told(st, x.IPPort(), to.ID))
  }

  ghost predicate Arrivals(ids: map<Addr, NodeID>, log: seq<seq<SlotState>>, newMasters: seq<Node>,
                           loc0: map<Slot, Node>, dest: map<Slot, nat>, moved: set<Slot>, anchored: set<Node>)
    requires forall s :: s in moved ==> s in dest && dest[s] < |newMasters|
  {
    forall s :: s in moved && s < |log| && log[s] != [] ==>
      Arrival(ids, log[s][|log[s]| - 1], Holder(loc0, s), newMasters[dest[s]], anchored)
  }

  lemma ArrivalsStep(ids: map<Addr, NodeID>, log: seq<seq<SlotState>>, log': seq<seq<SlotState>>, newMasters: seq<Node>,
                     loc0: map<Slot, Node>, dest: map<Slot, nat>, moved: set<Slot>, anchored: set<Node>,
                     slots: seq<Slot>, e: MigrationInfo)
    requires forall s :: s in moved ==> s in dest && dest[s] < |newMasters|
    requires Arrivals(ids, log, newMasters, loc0, dest, moved, anchored) && |log'| == |log|
    requires forall s :: 0 <= s < |log| && s !in slots ==> log'[s] == log[s]
    requires forall s :: s in slots ==>
      s in dest && dest[s] < |newMasters| && Holder(loc0, s) == e.From && newMasters[dest[s]] == e.To
    requires forall s :: s in slots && s < |log| ==>
      log'[s] != [] && Arrival(ids, log'[s][|log'[s]| - 1], e.From, e.To, anchored)
    ensures Arrivals(ids, log', newMasters, loc0, dest, moved + ToSet(slots), anchored)
  {
    hide Arrival;
  }

  /** Every slot that has not moved still has the owner it had, and no other. */
  ghost predicate Waiting(ids: map<Addr, NodeID>, log: seq<seq<SlotState>>, loc0: map<Slot, Node>, moved: set<Slot>) {
    forall s :: s in loc0 && s !in moved && s < |log| && log[s] != [] ==>
      Holders(ids, log[s][|log[s]| - 1]) == {loc0[s].IPPort()}
  }

  lemma WaitingYet(admin: Admin, loc0: map<Slot, Node>, moved: set<Slot>)
    requires admin.Valid()
    requires forall s :: 0 <= s < |admin.log| && s !in moved ==> AtSource(admin, loc0, Holder(loc0, s), s)
    ensures Waiting(admin.ids, admin.log, loc0, moved)
  {
    hide Holders, KeysAt, AllKeys;
    forall s | s in loc0 && s !in moved && s < |admin.log|
      ensures Holders(admin.ids, admin.Now(s)) == {loc0[s].IPPort()}
    {
      assert AtSource(admin, loc0, Holder(loc0, s), s);
    }
  }

  lemma NoneMoved(ids: map<Addr, NodeID>, log: seq<seq<SlotState>>, loc0: map<Slot, Node>)
    requires Agrees(ids, log, loc0)
    ensures Waiting(ids, log, loc0, {})
  {
    hide Holders, KeysAt, AllKeys;
  }

  lemma WaitingStep(ids: map<Addr, NodeID>, log: seq<seq<SlotState>>, log': seq<seq<SlotState>>,
                    loc0: map<Slot, Node>, moved: set<Slot>, slots: seq<Slot>, ok: bool)
    requires Waiting(ids, log, loc0, moved) && |log'| == |log|
    requires forall s :: 0 <= s < |log| && s !in slots ==> log'[s] == log[s]
    requires !ok ==> forall s :: s in slots && s in loc0 && s < |log| && log'[s] != [] ==>
      Holders(ids, log'[s][|log'[s]| - 1]) == {loc0[s].IPPort()}
    ensures Waiting(ids, log', loc0, if ok then moved + ToSet(slots) else moved)
  {
    hide Holders;
  }

  /** What stays fixed during the loop: the plan, and the nodes it is about. */
  ghost predicate Executable(admin: Admin, all: seq<Node>, m: SlotsByMigInfo, newMasters: seq<Node>,
                             loc0: map<Slot, Node>, dest: map<Slot, nat>, anchored: set<Node>, slotCount: nat) {
    && admin.Knows(all) && Members(all)
    && Batches(m, newMasters, loc0, dest, dest.Keys)
    && (forall n :: n in newMasters ==> n in all) && (forall s :: s in loc0 ==> loc0[s] in all)
    && (forall s :: s in dest || s in loc0 ==> s < slotCount)
    && (forall x :: x in anchored ==> x in all && exists s :: s in loc0 && s !in dest && loc0[s] == x)
  }

  /** One turn of the loop. */
  method DispatchStep(admin: Admin, all: seq<Node>, m: SlotsByMigInfo, e: MigrationInfo, ghost rest: set<MigrationInfo>,
                      ghost newMasters: seq<Node>, ghost loc0: map<Slot, Node>, ghost dest: map<Slot, nat>,
                      ghost moved: set<Slot>, ghost anchored: set<Node>)
    returns (ok: bool)
    requires admin.Valid() && Executable(admin, all, m, newMasters, loc0, dest, anchored, |admin.log|)
    requires Progress(m, rest, newMasters, loc0, dest, moved) && e in rest
    requires InMemory(all, LocAfter(newMasters, loc0, dest, moved))
    requires forall s :: 0 <= s < |admin.log| && s !in moved ==> AtSource(admin, loc0, Holder(loc0, s), s)
    modifies admin`log, admin`failures, admin`takeoverFailed, admin`migrationFailed, all`Slots
    ensures admin.Valid() && |admin.log| == |old(admin.log)|
    ensures forall s :: 0 <= s < |admin.log| && s !in m[e] ==> admin.log[s] == old(admin.log[s])
    ensures ok ==> Progress(m, rest - {e}, newMasters, loc0, dest, moved + ToSet(m[e]))
    ensures ok ==> InMemory(all, LocAfter(newMasters, loc0, dest, moved + ToSet(m[e])))
    ensures !ok ==> InMemory(all, LocAfter(newMasters, loc0, dest, moved))
    ensures admin.failures >= old(admin.failures) && (admin.failures == old(admin.failures) ==> ok)
    ensures Waiting(admin.ids, admin.log, loc0, if ok then moved + ToSet(m[e]) else moved)
    ensures admin.failures == old(admin.failures) ==>
      old(Arrivals(admin.ids, admin.log, newMasters, loc0, dest, moved, anchored)) ==>
      Arrivals(admin.ids, admin.log, newMasters, loc0, dest, moved + ToSet(m[e]), anchored)
    ensures old(admin.Safe()) ==> admin.Safe()
  {
    hide AllSafe, Holders, KeysAt, AllKeys, NoDup, Told, Batches, InMemory, LocAfter, Members, Arrivals,
      Waiting;
    ghost var loc := LocAfter(newMasters, loc0, dest, moved);
    EntryFacts(m, newMasters, loc0, dest, e);
    ProgressStep(m, rest, newMasters, loc0, dest, moved, e);
    LocAfterStep(newMasters, loc0, dest, moved, m[e], e.To);
    LocBefore(newMasters, loc0, dest, moved);
    forall x | x in anchored ensures |x.Slots| > 0 {
      AnchorHeld(all, newMasters, loc0, dest, moved, x);
    }
    WaitingYet(admin, loc0, moved);
    ok := DispatchEntry(admin, all, e, m[e], loc);
    WaitingStep(admin.ids, old(admin.log), admin.log, loc0, moved, m[e], ok);
    if ok && admin.failures == old(admin.failures)
      && old(Arrivals(admin.ids, admin.log, newMasters, loc0, dest, moved, anchored))
    {
      ArrivalsStep(admin.ids, old(admin.log), admin.log, newMasters, loc0, dest, moved, anchored, m[e], e);
    }
  }

  /** The loop over the migration map, in any order of its entries. */
  method DispatchAll(admin: Admin, allMasterNodes: seq<Node>, m: SlotsByMigInfo, ghost newMasters: seq<Node>,
                     ghost loc0: map<Slot, Node>, ghost dest: map<Slot, nat>, ghost anchored: set<Node>)
    returns (ok: bool, ghost moved: set<Slot>)
    requires admin.Valid() && Agrees(admin.ids, admin.log, loc0)
    requires Executable(admin, allMasterNodes, m, newMasters, loc0, dest, anchored, |admin.log|)
    requires InMemory(allMasterNodes, loc0)
    modifies admin`log, admin`failures, admin`takeoverFailed, admin`migrationFailed, allMasterNodes`Slots
    ensures admin.Valid() && |admin.log| == |old(admin.log)|
    ensures forall s :: s in moved ==> s in dest && dest[s] < |newMasters| && Holder(loc0, s) != newMasters[dest[s]]
    ensures ok ==> forall s :: s in dest && Holder(loc0, s) != newMasters[dest[s]] ==> s in moved
    ensures InMemory(allMasterNodes, LocAfter(newMasters, loc0, dest, moved))
    ensures admin.failures >= old(admin.failures) && (admin.failures == old(admin.failures) ==> ok)
    ensures admin.failures == old(admin.failures) ==>
      Arrivals(admin.ids, admin.log, newMasters, loc0, dest, moved, anchored)
    ensures Waiting(admin.ids, admin.log, loc0, moved)
    ensures ok ==> forall s :: 0 <= s < |admin.log| && s !in moved ==> admin.log[s] == old(admin.log[s])
    ensures old(admin.Safe()) ==> admin.Safe()
  {
    hide AllSafe, Holders, Settled, Batches, InMemory, LocAfter, Members, Arrivals, Executable, Waiting;
    moved, ok := {}, true;
    NoneMoved(admin.ids, admin.log, loc0);
    var rest := m.Keys;
    ProgressStart(m, newMasters, loc0, dest);
    DestsInRange(admin, allMasterNodes, m, newMasters, loc0, dest, anchored);
    while rest != {}
      invariant ok && admin.Valid() && |admin.log| == |old(admin.log)|
      invariant Progress(m, rest, newMasters, loc0, dest, moved)
      invariant InMemory(allMasterNodes, LocAfter(newMasters, loc0, dest, moved))
      invariant Waiting(admin.ids, admin.log, loc0, moved)
      invariant admin.failures >= old(admin.failures)
      invariant admin.failures == old(admin.failures) ==>
        Arrivals(admin.ids, admin.log, newMasters, loc0, dest, moved, anchored)
      invariant forall s :: 0 <= s < |admin.log| && s !in moved ==> admin.log[s] == old(admin.log[s])
      invariant old(admin.Safe()) ==> admin.Safe()
      decreases rest
    {
      var e :| e in rest;
      ok := DispatchStep(admin, allMasterNodes, m, e, rest, newMasters, loc0, dest, moved, anchored);
      if !ok {
        return;
      }
      moved := moved + ToSet(m[e]);
      rest := rest - {e};
    }
    MovedAll(m, newMasters, loc0, dest, moved);
  }

  lemma DestsInRange(admin: Admin, all: seq<Node>, m: SlotsByMigInfo, newMasters: seq<Node>,
                     loc0: map<Slot, Node>, dest: map<Slot, nat>, anchored: set<Node>)
    requires Executable(admin, all, m, newMasters, loc0, dest, anchored, |admin.log|)
    ensures forall s :: s in dest ==> dest[s] < |newMasters|
    ensures Batches(m, newMasters, loc0, dest, dest.Keys)
  {
  }

  lemma ProgressStart(m: SlotsByMigInfo, newMasters: seq<Node>, loc0: map<Slot, Node>, dest: map<Slot, nat>)
    ensures Progress(m, m.Keys, newMasters, loc0, dest, {})
    ensures LocAfter(newMasters, loc0, dest, {}) == loc0
    ensures forall ids, log, anchored :: Arrivals(ids, log, newMasters, loc0, dest, {}, anchored)
  {
  }

  /** Until it moves, a slot is where it was. */
  lemma LocBefore(newMasters: seq<Node>, loc0: map<Slot, Node>, dest: map<Slot, nat>, moved: set<Slot>)
    requires forall s :: s in moved ==> s in dest && dest[s] < |newMasters|
    ensures forall s :: s !in moved ==> Holder(LocAfter(newMasters, loc0, dest, moved), s) == Holder(loc0, s)
  {
  }

  /** A master that keeps a slot never has an empty list. */
  lemma AnchorHeld(all: seq<Node>, newMasters: seq<Node>, loc0: map<Slot, Node>, dest: map<Slot, nat>, moved: set<Slot>,
                   x: Node)
    requires forall s :: s in moved ==> s in dest && dest[s] < |newMasters|
    requires x in all && exists s :: s in loc0 && s !in dest && loc0[s] == x
    requires InMemory(all, LocAfter(newMasters, loc0, dest, moved))
    ensures |x.Slots| > 0
  {
    var s :| s in loc0 && s !in dest && loc0[s] == x;
    ListOf(all, LocAfter(newMasters, loc0, dest, moved), x);
    assert s in x.Slots;
  }

  lemma MovedAll(m: SlotsByMigInfo, newMasters: seq<Node>, loc0: map<Slot, Node>, dest: map<Slot, nat>,
                 moved: set<Slot>)
    requires Batches(m, newMasters, loc0, dest, dest.Keys) && Progress(m, {}, newMasters, loc0, dest, moved)
    ensures forall s :: s in dest && Holder(loc0, s) != newMasters[dest[s]] ==> s in moved
  {
    hide NoDup;
    forall s | s in dest && Holder(loc0, s) != newMasters[dest[s]] ensures s in moved {
      var e := EntryOf(newMasters, loc0, dest, s);
      assert s in Listed(m, e);
      assert e in m && s in m[e];
    }
  }

  // ----- the whole scale-down

  /** The state a scale-down starts from: see ReadyToPlan for the lists; the cluster agrees with them; and the list of
      all masters has the new and the old ones and nobody else. */
  ghost predicate ReadyToShrink(admin: Admin, newMasters: seq<Node>, currentMasters: seq<Node>, allMasters: seq<Node>,
                                loc: map<Slot, Node>)
    reads admin, newMasters`Slots, currentMasters`Slots
  {
    && newMasters != [] && |admin.log| > 0
    && ReadyToPlan(newMasters, currentMasters, loc, |admin.log|)
    && admin.Valid() && Agrees(admin.ids, admin.log, loc) && admin.Knows(allMasters)
    && (forall n :: n in allMasters ==> n in newMasters || n in currentMasters)
    && (forall n :: n in newMasters ==> n in allMasters) && (forall n :: n in currentMasters ==> n in allMasters)
  }

  /** Every slot is in the list of exactly one new master. */
  ghost predicate Shrunk(newMasters: seq<Node>, loc: map<Slot, Node>, nbSlots: nat) {
    loc.Keys == AllSlots(nbSlots) && forall s :: s in loc ==> loc[s] in newMasters
  }

  /** The cluster after a run without a failed command: every slot has the listed master for its only owner, with all
      its keys if it had an owner before, and every new master that held a slot before has been told the owner of
      every slot that went from one master to another. */
  ghost predicate Handed(ids: map<Addr, NodeID>, log: seq<seq<SlotState>>, loc0: map<Slot, Node>, loc: map<Slot, Node>,
                         anchored: set<Node>)
  {
    && (forall s :: s in loc && s < |log| ==> log[s] != [] && Received(ids, log[s][|log[s]| - 1], loc[s], s in loc0))
    && (forall s, x :: s in loc && s < |log| && log[s] != [] && s in loc0 && loc[s] != loc0[s] && x in anchored ==>
          Told(log[s][|log[s]| - 1], x.IPPort(), loc[s].ID))
  }

  ghost predicate Received(ids: map<Addr, NodeID>, st: SlotState, to: Node, owned: bool) {
    Holders(ids, st) == {to.IPPort()} && (owned ==> Settled(ids, st, to.IPPort()))
  }

  lemma HandedFinally(ids: map<Addr, NodeID>, log0: seq<seq<SlotState>>, log: seq<seq<SlotState>>,
                      newMasters: seq<Node>,
                      loc0: map<Slot, Node>, dest: map<Slot, nat>, moved: set<Slot>, anchored: set<Node>)
    requires |log| == |log0| && Agrees(ids, log0, loc0) && forall s :: 0 <= s < |log| ==> log[s] != []
    requires forall s :: s in moved ==> s in dest && dest[s] < |newMasters|
    requires Arrivals(ids, log, newMasters, loc0, dest, moved, anchored)
    requires forall s :: 0 <= s < |log| && s !in moved ==> log[s] == log0[s]
    ensures Handed(ids, log, loc0, LocAfter(newMasters, loc0, dest, moved), anchored)
  {
    hide Holders, KeysAt, AllKeys, Told;
  }

  /** The new masters that hold slots. */
  ghost function Holding(newMasters: seq<Node>): set<Node>
    reads newMasters`Slots
  {
    set n | n in newMasters && |n.Slots| > 0
  }

  lemma ReadyExecutable(admin: Admin, newMasters: seq<Node>, currentMasters: seq<Node>, allMasters: seq<Node>,
                        loc: map<Slot, Node>, m: SlotsByMigInfo, dest: map<Slot, nat>)
    requires ReadyToShrink(admin, newMasters, currentMasters, allMasters, loc)
    requires Batches(m, newMasters, loc, dest, dest.Keys)
    requires dest.Keys == AllSlots(|admin.log|) - Kept(newMasters, ShareUp(|admin.log|, |newMasters|))
    ensures Executable(admin, allMasters, m, newMasters, loc, dest, Holding(newMasters), |admin.log|)
    ensures InMemory(allMasters, loc)
  {
    hide Batches, AllSlots, NoDup, Agrees;
    var N := ShareUp(|admin.log|, |newMasters|);
    ShareUpPositive(|admin.log|, |newMasters|);
    forall n | n in allMasters ensures ListedAt(n, loc) {
      if n in newMasters {
        NewListed(newMasters, currentMasters, loc, |admin.log|, n);
      } else {
        ListOf(currentMasters, loc, n);
      }
    }
    forall x | x in Holding(newMasters) ensures exists s :: s in loc && s !in dest && loc[s] == x {
      var s := x.Slots[0];
      assert ListedAt(x, loc);
      assert s in x.Slots[..Min(N, |x.Slots|)];
      assert s in Kept(newMasters, N);
    }
    forall s | s in dest ensures s < |admin.log| {
      AllSlotsBound(|admin.log|, s);
    }
    ReadyMembers(admin, newMasters, currentMasters, allMasters, loc);
  }

  lemma ReadyMembers(admin: Admin, newMasters: seq<Node>, currentMasters: seq<Node>, allMasters: seq<Node>,
                     loc: map<Slot, Node>)
    requires ReadyToShrink(admin, newMasters, currentMasters, allMasters, loc)
    ensures Members(allMasters)
  {
    hide Agrees, InMemory;
  }

  lemma AllSlotsBound(nbSlots: nat, s: Slot)
    ensures s in AllSlots(nbSlots) <==> s < nbSlots
  {
  }

  lemma ShareUpPositive(nbSlots: nat, n: nat)
    requires nbSlots > 0 && n > 0
    ensures ShareUp(nbSlots, n) > 0
  {
  }

  /** What is kept, in terms of where slots are: see Kept. */
  lemma KeptFacts(newMasters: seq<Node>, currentMasters: seq<Node>, loc0: map<Slot, Node>, nbSlots: nat, N: nat)
    requires ReadyToPlan(newMasters, currentMasters, loc0, nbSlots)
    ensures loc0.Keys <= AllSlots(nbSlots)
    ensures forall s :: s in Kept(newMasters, N) ==> s in loc0 && loc0[s] in newMasters
    ensures forall i :: 0 <= i < |newMasters| ==>
      |KeptAt(newMasters[i], loc0, Kept(newMasters, N))| == Min(N, |newMasters[i].Slots|)
  {
    hide NoDup, InMemory, OneCluster, AllSlots;
    forall s | s in loc0 ensures s in AllSlots(nbSlots) {
      AllSlotsBound(nbSlots, s);
    }
    forall s | s in Kept(newMasters, N) ensures s in loc0 && loc0[s] in newMasters {
      KeptNew(newMasters, currentMasters, loc0, nbSlots, N, s);
    }
    forall i | 0 <= i < |newMasters|
      ensures |KeptAt(newMasters[i], loc0, Kept(newMasters, N))| == Min(N, |newMasters[i].Slots|)
    {
      KeptAtNode(newMasters, currentMasters, loc0, nbSlots, N, newMasters[i]);
      NewListed(newMasters, currentMasters, loc0, nbSlots, newMasters[i]);
      PrefixNoDup(newMasters[i].Slots, Min(N, |newMasters[i].Slots|));
      NoDupCard(newMasters[i].Slots[..Min(N, |newMasters[i].Slots|)]);
    }
  }

  lemma PrefixNoDup(s: seq<Slot>, k: nat)
    requires NoDup(s) && k <= |s|
    ensures NoDup(s[..k])
  {
  }

  ghost function KeptAt(n: Node, loc0: map<Slot, Node>, kept: set<Slot>): set<Slot> {
    set s | s in kept && s in loc0 && loc0[s] == n
  }

  lemma KeptNew(newMasters: seq<Node>, oldMasters: seq<Node>, loc: map<Slot, Node>, nbSlots: nat, N: nat, s: Slot)
    requires ReadyToPlan(newMasters, oldMasters, loc, nbSlots) && s in Kept(newMasters, N)
    ensures s in loc && loc[s] in newMasters
  {
    var n :| n in newMasters && s in n.Slots[..Min(N, |n.Slots|)];
    NewListed(newMasters, oldMasters, loc, nbSlots, n);
  }

  lemma KeptAtNode(newMasters: seq<Node>, oldMasters: seq<Node>, loc: map<Slot, Node>, nbSlots: nat, N: nat, n: Node)
    requires ReadyToPlan(newMasters, oldMasters, loc, nbSlots) && n in newMasters
    ensures KeptAt(n, loc, Kept(newMasters, N)) == ToSet(n.Slots[..Min(N, |n.Slots|)])
  {
    hide NoDup, InMemory, OneCluster;
    NewListed(newMasters, oldMasters, loc, nbSlots, n);
    forall s | s in KeptAt(n, loc, Kept(newMasters, N)) ensures s in n.Slots[..Min(N, |n.Slots|)] {
      var o :| o in newMasters && s in o.Slots[..Min(N, |o.Slots|)];
      NewListed(newMasters, oldMasters, loc, nbSlots, o);
    }
    forall s | s in n.Slots[..Min(N, |n.Slots|)] ensures s in KeptAt(n, loc, Kept(newMasters, N)) {
      assert s in n.Slots;
    }
  }

  /** Where the slots are at the end of a complete run. */
  lemma FinalLocs(newMasters: seq<Node>, loc0: map<Slot, Node>, dest: map<Slot, nat>, moved: set<Slot>, nbSlots: nat,
                  kept: set<Slot>)
    requires dest.Keys == AllSlots(nbSlots) - kept && loc0.Keys <= AllSlots(nbSlots)
    requires forall s :: s in kept ==> s in loc0 && loc0[s] in newMasters
    requires forall s :: s in dest ==> dest[s] < |newMasters|
    requires forall s :: s in moved <==> s in dest && Holder(loc0, s) != newMasters[dest[s]]
    ensures var loc := LocAfter(newMasters, loc0, dest, moved);
      && Shrunk(newMasters, loc, nbSlots)
      && (forall s :: s in dest ==> loc[s] == newMasters[dest[s]])
      && (forall s :: s in kept ==> s in loc && loc[s] == loc0[s])
  {
    hide AllSlots;
  }

  /** A new master ends with its kept slots and those the plan gives it. */
  lemma FinalSize(newMasters: seq<Node>, i: nat, n: Node, loc0: map<Slot, Node>, loc: map<Slot, Node>,
                  dest: map<Slot, nat>, kept: set<Slot>)
    requires NoDup(newMasters) && i < |newMasters| && n == newMasters[i] && ListedAt(n, loc)
    requires loc.Keys == dest.Keys + kept && dest.Keys !! kept
    requires forall s :: s in dest ==> dest[s] < |newMasters| && loc[s] == newMasters[dest[s]]
    requires forall s :: s in kept ==> s in loc0 && loc[s] == loc0[s]
    ensures |n.Slots| == |KeptAt(n, loc0, kept)| + |Incoming(dest, i)|
  {
    NoDupCard(n.Slots);
    assert KeptAt(n, loc0, kept) !! Incoming(dest, i);
    assert ToSet(n.Slots) == KeptAt(n, loc0, kept) + Incoming(dest, i);
  }

  /** The slots every new master is to keep: its first ceil(S/n). */
  ghost function Keepers(newMasters: seq<Node>, nbSlots: nat): map<Node, seq<Slot>>
    requires newMasters != []
    reads newMasters`Slots
  {
    map m | m in newMasters :: m.Slots[..Min(ShareUp(nbSlots, |newMasters|), |m.Slots|)]
  }

  ghost predicate Keeping(keepers: map<Node, seq<Slot>>, loc: map<Slot, Node>) {
    forall m, s :: m in keepers && s in keepers[m] ==> s in loc && loc[s] == m
  }

  lemma KeepersHold(newMasters: seq<Node>, currentMasters: seq<Node>, loc0: map<Slot, Node>, nbSlots: nat)
    requires newMasters != [] && ReadyToPlan(newMasters, currentMasters, loc0, nbSlots)
    ensures Keeping(Keepers(newMasters, nbSlots), loc0)
    ensures forall m, s :: m in Keepers(newMasters, nbSlots) && s in Keepers(newMasters, nbSlots)[m] ==>
      s in Kept(newMasters, ShareUp(nbSlots, |newMasters|))
  {
    hide NoDup, InMemory, OneCluster, AllSlots, ShareUp;
    forall m, s | m in newMasters && s in Keepers(newMasters, nbSlots)[m] ensures s in loc0 && loc0[s] == m {
      NewListed(newMasters, currentMasters, loc0, nbSlots, m);
      assert s in m.Slots;
    }
  }

  lemma KeepersSized(newMasters: seq<Node>, nbSlots: nat)
    requires newMasters != [] && forall m :: m in newMasters ==> NoDup(m.Slots)
    ensures forall m :: m in newMasters ==> m in Keepers(newMasters, nbSlots)
    ensures forall m :: m in newMasters ==>
      var kept := Keepers(newMasters, nbSlots)[m];
      NoDup(kept) && |kept| == Min(ShareUp(nbSlots, |newMasters|), |m.Slots|)
  {
    hide ShareUp;
    forall m | m in newMasters ensures NoDup(Keepers(newMasters, nbSlots)[m]) {
      PrefixNoDup(m.Slots, Min(ShareUp(nbSlots, |newMasters|), |m.Slots|));
    }
  }

  /** In any run. */
  lemma KeepersStay(newMasters: seq<Node>, loc0: map<Slot, Node>, dest: map<Slot, nat>, moved: set<Slot>,
                    kept: set<Slot>, keepers: map<Node, seq<Slot>>)
    requires forall s :: s in moved ==> s in dest && dest[s] < |newMasters|
    requires Keeping(keepers, loc0) && dest.Keys !! kept
    requires forall m, s :: m in keepers && s in keepers[m] ==> s in kept
    ensures Keeping(keepers, LocAfter(newMasters, loc0, dest, moved))
  {
  }

  lemma WaitingMoved(ids: map<Addr, NodeID>, log: seq<seq<SlotState>>, newMasters: seq<Node>, loc0: map<Slot, Node>,
                     dest: map<Slot, nat>, moved: set<Slot>)
    requires forall s :: s in moved ==> s in dest && dest[s] < |newMasters| && Holder(loc0, s) != newMasters[dest[s]]
    requires Waiting(ids, log, loc0, moved)
    ensures Waiting(ids, log, loc0, Moved(loc0, LocAfter(newMasters, loc0, dest, moved)))
  {
    hide Holders;
  }

  /** DispatchSlotToNewMasters.  For every order of the maps it goes through, and whatever commands fail, the lists
      of all masters stay disjoint and lose no slot.  A run that returns no error leaves every slot of [0, S) in the
      list of exactly one new master and every other list empty; no new master has more than ceil(S/n) + 1 slots,
      or more than ceil(S/n) if it started below that; and if no command failed the cluster agrees. */
  method DispatchSlotToNewMasters(admin: Admin, newMasterNodes: seq<Node>, currentMasterNodes: seq<Node>,
                                  allMasterNodes: seq<Node>, ghost loc0: map<Slot, Node>)
    returns (ok: bool, nbslotsToMigrate: nat, ghost loc: map<Slot, Node>)
    requires ReadyToShrink(admin, newMasterNodes, currentMasterNodes, allMasterNodes, loc0)
    modifies admin`log, admin`failures, admin`takeoverFailed, admin`migrationFailed, allMasterNodes`Slots
    ensures admin.Valid() && |admin.log| == |old(admin.log)|
    ensures InMemory(allMasterNodes, loc) && loc0.Keys <= loc.Keys <= AllSlots(|admin.log|)
    ensures forall s :: s in loc ==> loc[s] in allMasterNodes
    ensures newMasterNodes != [] && Keeping(old(Keepers(newMasterNodes, |admin.log|)), loc)
    ensures Keeping(old(Keepers(newMasterNodes, |admin.log|)), loc0)
    ensures Waiting(admin.ids, admin.log, loc0, Moved(loc0, loc))
    ensures ok ==> nbslotsToMigrate == |Moved(loc0, loc)|
    ensures ok ==> Shrunk(newMasterNodes, loc, |admin.log|)
    ensures ok ==> forall n :: n in currentMasterNodes && n !in newMasterNodes ==> n.Slots == []
    ensures ok ==> forall i :: 0 <= i < |newMasterNodes| ==>
      var N := ShareUp(|admin.log|, |newMasterNodes|);
      |newMasterNodes[i].Slots| <= if old(|newMasterNodes[i].Slots|) < N then N else N + 1
    ensures admin.failures >= old(admin.failures) && (admin.failures == old(admin.failures) ==> ok)
    ensures admin.failures == old(admin.failures) ==>
      Handed(admin.ids, admin.log, loc0, loc, old(Holding(newMasterNodes)))
    ensures old(admin.Safe()) ==> admin.Safe()
  {
    hide AllSafe, Holders, Settled, Batches, InMemory, LocAfter, Members, Arrivals, Executable, Kept, KeptAt, AllSlots,
      NoDup, Distinct, Handed, FinalSizes, Agrees, Holding, Waiting, Keeping, Keepers;
    var m;
    ghost var dest, moved;
    m, nbslotsToMigrate, dest := FeedMigInfo(newMasterNodes, currentMasterNodes, admin.SlotCount(), loc0);
    ghost var N := ShareUp(|admin.log|, |newMasterNodes|);
    ghost var kept, anchored := Kept(newMasterNodes, N), Holding(newMasterNodes);
    ghost var sizes, keepers := Lens(newMasterNodes), Keepers(newMasterNodes, |admin.log|);
    KeepersHold(newMasterNodes, currentMasterNodes, loc0, |admin.log|);
    ReadyExecutable(admin, newMasterNodes, currentMasterNodes, allMasterNodes, loc0, m, dest);
    KeptFacts(newMasterNodes, currentMasterNodes, loc0, |admin.log|, N);
    DestsInRange(admin, allMasterNodes, m, newMasterNodes, loc0, dest, anchored);
    ok, moved := DispatchAll(admin, allMasterNodes, m, newMasterNodes, loc0, dest, anchored);
    loc := LocAfter(newMasterNodes, loc0, dest, moved);
    LocKeys(newMasterNodes, loc0, dest, moved);
    KeepersStay(newMasterNodes, loc0, dest, moved, kept, keepers);
    WaitingMoved(admin.ids, admin.log, newMasterNodes, loc0, dest, moved);
    LocsListed(currentMasterNodes, newMasterNodes, allMasterNodes, loc0, dest, moved, |admin.log|);
    if ok {
      FinalLocs(newMasterNodes, loc0, dest, moved, |admin.log|, kept);
      AllChanged(newMasterNodes, loc0, loc, dest, kept);
      FinalAll(allMasterNodes, newMasterNodes, loc0, loc, dest, kept, |admin.log|, sizes, N);
      if admin.failures == old(admin.failures) {
        HandedFinally(admin.ids, old(admin.log), admin.log, newMasterNodes, loc0, dest, moved, anchored);
      }
    }
  }

  lemma LocKeys(newMasters: seq<Node>, loc0: map<Slot, Node>, dest: map<Slot, nat>, moved: set<Slot>)
    requires forall s :: s in moved ==> s in dest && dest[s] < |newMasters|
    ensures loc0.Keys <= LocAfter(newMasters, loc0, dest, moved).Keys
  {
  }

  /** The slots that are with another node than at the start. */
  ghost function Moved(loc0: map<Slot, Node>, loc: map<Slot, Node>): set<Slot> {
    set s | s in loc && (s !in loc0 || loc0[s] != loc[s])
  }

  lemma AllChanged(newMasters: seq<Node>, loc0: map<Slot, Node>, loc: map<Slot, Node>, dest: map<Slot, nat>,
                   kept: set<Slot>)
    requires loc.Keys == dest.Keys + kept
    requires forall s :: s in dest ==> dest[s] < |newMasters| && loc[s] == newMasters[dest[s]]
    requires forall s :: s in kept ==> s in loc0 && loc[s] == loc0[s]
    ensures Changing(newMasters, loc0, dest, dest.Keys) == Moved(loc0, loc)
  {
  }

  /** Wherever a slot is listed to be, that is one of the masters. */
  lemma LocsListed(oldMasters: seq<Node>, newMasters: seq<Node>, all: seq<Node>, loc0: map<Slot, Node>,
                   dest: map<Slot, nat>, moved: set<Slot>, nbSlots: nat)
    requires forall s :: s in moved ==> s in dest && dest[s] < |newMasters|
    requires forall s :: s in loc0 ==> s < nbSlots && loc0[s] in oldMasters
    requires dest.Keys <= AllSlots(nbSlots)
    requires (forall n :: n in newMasters ==> n in all) && forall n :: n in oldMasters ==> n in all
    ensures var loc := LocAfter(newMasters, loc0, dest, moved);
      loc.Keys <= AllSlots(nbSlots) && forall s :: s in loc ==> loc[s] in all
  {
  }

  /** The lists at the end of a complete run: none outside the new masters, and theirs within the bounds. */
  lemma FinalAll(all: seq<Node>, newMasters: seq<Node>, loc0: map<Slot, Node>, loc: map<Slot, Node>,
                 dest: map<Slot, nat>, kept: set<Slot>, nbSlots: nat, sizes: seq<nat>, N: nat)
    requires InMemory(all, loc) && Shrunk(newMasters, loc, nbSlots) && Distinct(newMasters)
    requires forall n :: n in newMasters ==> n in all
    requires dest.Keys == AllSlots(nbSlots) - kept && kept <= AllSlots(nbSlots)
    requires forall s :: s in dest ==> dest[s] < |newMasters| && loc[s] == newMasters[dest[s]]
    requires forall s :: s in kept ==> s in loc0 && loc[s] == loc0[s]
    requires |sizes| == |newMasters| && FinalSizes(sizes, dest, N)
    requires forall i :: 0 <= i < |newMasters| ==> |KeptAt(newMasters[i], loc0, kept)| == Min(N, sizes[i])
    ensures forall n :: n in all && n !in newMasters ==> n.Slots == []
    ensures forall i :: 0 <= i < |newMasters| ==> |newMasters[i].Slots| <= if sizes[i] < N then N else N + 1
  {
    hide NoDup, AllSlots, InMemory, KeptAt, Distinct;
    forall n | n in all && n !in newMasters ensures n.Slots == [] {
      ListOf(all, loc, n);
      NoMembers(n.Slots);
    }
    DistinctNoDup(newMasters);
    forall i | 0 <= i < |newMasters| ensures |newMasters[i].Slots| <= if sizes[i] < N then N else N + 1 {
      ListOf(all, loc, newMasters[i]);
      FinalSize(newMasters, i, newMasters[i], loc0, loc, dest, kept);
    }
  }

  lemma NoMembers(s: seq<Slot>)
    ensures (forall x :: x !in s) ==> s == []
  {
    if s != [] {
      assert s[0] in s;
    }
  }

}
