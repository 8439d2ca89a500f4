/** A batch of slots changes hands during a scale-down: the body of the loop in DispatchSlotToNewMasters
    (pkg/controller/clustering/migration.go). */
module BatchHandOver {
  import opened Slots
  import opened Nodes
  import opened Redis

  /** The source is still the owner, and the destination has the keys unless their migration failed. */
  ghost predicate Arrived(ids: map<Addr, NodeID>, st: SlotState, src: Addr, dst: Addr, migrationOk: bool) {
    && Holders(ids, st) == {src}
    && (migrationOk ==> KeysAt(st, dst) == AllKeys(st))
  }

  /** One of the two is the owner: the destination, unless it failed to take the slot. */
  ghost predicate Committed(ids: map<Addr, NodeID>, st: SlotState, src: Addr, dst: Addr, takeoverOk: bool) {
    && Holders(ids, st) <= {src, dst}
    && (takeoverOk ==> dst in Holders(ids, st))
  }

  /** The node believes that `id` owns the slot. */
  ghost predicate Told(st: SlotState, a: Addr, id: NodeID) {
    a in st.view && st.view[a] == id
  }

  /** Whoever believed that `id` owns the slot still does. */
  ghost predicate Remembers(st: SlotState, st': SlotState, id: NodeID) {
    forall a :: Told(st, a, id) ==> Told(st', a, id)
  }

  /** Marks on both ends, each naming the other, then the keys. */
  method PrepareBatch(admin: Admin, from: Node, to: Node, slots: seq<Slot>) returns (ok: bool)
    requires admin.Valid() && admin.KnowsNode(from) && admin.KnowsNode(to) && from.IPPort() != to.IPPort()
    requires NoDup(slots) && forall s :: s in slots ==> s < |admin.log|
    requires forall s :: s in slots ==> Settled(admin.ids, admin.Now(s), from.IPPort())
    modifies admin`log, admin`failures, admin`takeoverFailed, admin`migrationFailed
    ensures admin.Valid() && |admin.log| == |old(admin.log)|
    ensures forall s :: 0 <= s < |admin.log| && s !in slots ==> admin.log[s] == old(admin.log[s])
    ensures admin.failures >= old(admin.failures) && (admin.failures == old(admin.failures) ==> ok)
    ensures forall s :: s in slots && s < |admin.log| ==> Holders(admin.ids, admin.Now(s)) == {from.IPPort()}
    ensures !ok ==> forall s :: s in slots && s < |admin.log| ==> admin.Now(s).keys == old(admin.Now(s).keys)
    ensures ok ==> forall s :: s in slots && s < |admin.log| ==>
      Arrived(admin.ids, admin.Now(s), from.IPPort(), to.IPPort(),
              admin.failures == old(admin.failures) || s !in admin.migrationFailed)
    ensures ok ==> forall s :: s in slots && s < |admin.log| ==>
      Naming(admin.Now(s), to.IPPort(), from.ID, from.IPPort(), to.ID)
    ensures admin.takeoverFailed == old(admin.takeoverFailed)
    ensures old(admin.migrationFailed) <= admin.migrationFailed <= old(admin.migrationFailed) + ToSet(slots)
    ensures old(admin.Safe()) ==> admin.Safe()
  {
    hide AllSafe, SafeStep, SetSlotEffect, SetSlotRefused, Noted, Moving, Marked, Naming, Importing, Holders, KeysAt,
      AllKeys, NoDup, Obeyed, Node.IPPort;
    var src, dst := from.IPPort(), to.IPPort();
    forall s | s in slots ensures admin.SafeToSend(dst, IMPORTING, s, from.ID) {
      MarkStep(admin.ids, admin.Now(s), dst, IMPORTING, from.ID, s !in admin.takeoverFailed,
               s !in admin.migrationFailed);
    }
    ok := admin.SetSlots(dst, IMPORTING, slots, from.ID);
    forall s | s in slots && s < |admin.log|
      ensures Settled(admin.ids, admin.Now(s), src) && admin.Now(s).keys == old(admin.Now(s).keys)
      ensures admin.log[s] == old(admin.log[s]) || Importing(admin.Now(s), dst, from.ID)
    {
      ImportSent(admin.ids, old(admin.log[s]), admin.log[s], src, dst, from.ID);
    }
    if !ok {
      return;
    }
    label imported:
    forall s | s in slots ensures admin.SafeToSend(src, MIGRATING, s, to.ID) {
      MigratingSafely(admin.ids, admin.Now(s), dst, from.ID, src, to.ID, s !in admin.takeoverFailed,
                      s !in admin.migrationFailed);
    }
    ok := admin.SetSlots(src, MIGRATING, slots, to.ID);
    forall s | s in slots && s < |admin.log|
      ensures Settled(admin.ids, admin.Now(s), src) && admin.Now(s).keys == old@imported(admin.Now(s).keys)
      ensures admin.log[s] == old@imported(admin.log[s]) || Naming(admin.Now(s), dst, from.ID, src, to.ID)
    {
      MigrateSent(admin.ids, old@imported(admin.log[s]), admin.log[s], dst, from.ID, src, to.ID);
    }
    if !ok {
      return;
    }
    label marked:
    forall s | s in slots ensures Marked(admin.Now(s), src, dst) {
      BothMarked(admin.Now(s), dst, from.ID, src, to.ID);
    }
    var nbMigrated, migrated := admin.MigrateKeys(src, to, slots, 10);
    forall s | s in slots && s < |admin.log|
      ensures Holders(admin.ids, admin.Now(s)) == {src}
      ensures Arrived(admin.ids, admin.Now(s), src, dst,
                      admin.failures == old(admin.failures) || s !in admin.migrationFailed)
      ensures Naming(admin.Now(s), dst, from.ID, src, to.ID)
    {
      Migrated(admin.ids, old@marked(admin.Now(s)), admin.Now(s), src, dst);
      NamingStays(old@marked(admin.Now(s)), admin.Now(s), dst, from.ID, src, to.ID);
    }
  }

  /** The destination has been told to take a slot that the source owns; the command may have failed. */
  ghost predicate Took(ids: map<Addr, NodeID>, was: seq<SlotState>, now: seq<SlotState>, src: Addr, dst: Addr) {
    && was != [] && now != [] && dst in ids
    && now[|now| - 1].keys == was[|was| - 1].keys
    && Holders(ids, now[|now| - 1]) == (if now == was then {src} else {src, dst})
    && (now != was ==> Told(now[|now| - 1], dst, ids[dst]))
  }

  lemma Taken(ids: map<Addr, NodeID>, was: seq<SlotState>, now: seq<SlotState>, src: Addr, dst: Addr)
    requires was != [] && now != [] && dst in ids && Holders(ids, was[|was| - 1]) == {src}
    requires now == was || Obeyed(ids, was, now, dst, NODE, ids[dst])
    ensures Took(ids, was, now, src, dst)
  {
    if now != was {
      SetSlotHolders(ids, was[|was| - 1], dst, NODE, ids[dst]);
    }
  }

  /** Unless its takeover failed, the slot can now be taken from the source. */
  lemma TookSafely(ids: map<Addr, NodeID>, was: seq<SlotState>, now: seq<SlotState>, src: Addr, dst: Addr,
                   takeoverOk: bool, migrationOk: bool)
    requires Took(ids, was, now, src, dst) && src in ids && ids[src] != ids[dst] && (takeoverOk ==> now != was)
    ensures var st := now[|now| - 1];
      SafeStep(ids, st, SetSlotEffect(ids, st, src, NODE, ids[dst]), takeoverOk, migrationOk)
  {
    hide Holders, SafeStep, SetSlotEffect, Told;
    assert src != dst;
    ReleaseStep(ids, now[|now| - 1], src, ids[dst], takeoverOk, migrationOk);
  }

  /** Some other node has been told that a slot belongs to `id`; the command may have failed. */
  ghost predicate LetGo(ids: map<Addr, NodeID>, was: seq<SlotState>, now: seq<SlotState>, a: Addr, id: NodeID) {
    && was != [] && now != []
    && now[|now| - 1].keys == was[|was| - 1].keys
    && Holders(ids, now[|now| - 1]) == Holders(ids, was[|was| - 1]) - (if now == was then {} else {a})
    && (now != was ==> Told(now[|now| - 1], a, id))
    && Remembers(was[|was| - 1], now[|now| - 1], id)
  }

  lemma Released(ids: map<Addr, NodeID>, was: seq<SlotState>, now: seq<SlotState>, a: Addr, id: NodeID)
    requires was != [] && now != [] && a in ids && id != ids[a]
    requires now == was || Obeyed(ids, was, now, a, NODE, id)
    ensures LetGo(ids, was, now, a, id)
  {
    if now != was {
      SetSlotHolders(ids, was[|was| - 1], a, NODE, id);
    }
  }

  /** What the two commands come to. */
  lemma HandedOver(ids: map<Addr, NodeID>, was: seq<SlotState>, mid: seq<SlotState>, now: seq<SlotState>, src: Addr,
                   dst: Addr, takeoverOk: bool)
    requires src != dst && dst in ids && Took(ids, was, mid, src, dst) && LetGo(ids, mid, now, src, ids[dst])
    requires takeoverOk ==> mid != was
    ensures now != [] && was != [] && now[|now| - 1].keys == was[|was| - 1].keys
    ensures Committed(ids, now[|now| - 1], src, dst, takeoverOk)
    ensures mid != was && now != mid ==> var st := now[|now| - 1];
      Holders(ids, st) == {dst} && Told(st, src, ids[dst]) && Told(st, dst, ids[dst])
  {
    hide Holders, Told;
  }

  /** The destination takes the slots, then the source lets them go: in this order, so that a slot always has an
      owner. */
  method CommitBatch(admin: Admin, from: Node, to: Node, slots: seq<Slot>)
    requires admin.Valid() && admin.KnowsNode(from) && admin.KnowsNode(to)
    requires from.IPPort() != to.IPPort() && from.ID != to.ID
    requires NoDup(slots) && forall s :: s in slots ==> s < |admin.log|
    requires forall s :: s in slots ==>
      Arrived(admin.ids, admin.Now(s), from.IPPort(), to.IPPort(), s !in admin.migrationFailed)
    modifies admin`log, admin`failures, admin`takeoverFailed
    ensures admin.Valid() && |admin.log| == |old(admin.log)|
    ensures forall s :: 0 <= s < |admin.log| && s !in slots ==> admin.log[s] == old(admin.log[s])
    ensures admin.failures >= old(admin.failures)
    ensures forall s :: s in slots && s < |admin.log| ==>
      Committed(admin.ids, admin.Now(s), from.IPPort(), to.IPPort(), s !in admin.takeoverFailed) &&
      admin.Now(s).keys == old(admin.Now(s).keys)
    ensures admin.failures == old(admin.failures) ==> forall s :: s in slots && s < |admin.log| ==>
      Holders(admin.ids, admin.Now(s)) == {to.IPPort()} &&
      Told(admin.Now(s), from.IPPort(), to.ID) && Told(admin.Now(s), to.IPPort(), to.ID)
    ensures old(admin.takeoverFailed).Keys <= admin.takeoverFailed.Keys
    ensures admin.takeoverFailed.Keys <= old(admin.takeoverFailed).Keys + ToSet(slots)
    ensures old(admin.Safe()) ==> admin.Safe()
  {
    hide AllSafe, SafeStep, SetSlotEffect, SetSlotRefused, Noted, Holders, KeysAt, AllKeys, NoDup, Obeyed, Told, Took,
      LetGo, Committed, Node.IPPort;
    var src, dst := from.IPPort(), to.IPPort();
    ghost var was := admin.log;
    forall s | s in slots ensures admin.SafeToSend(dst, NODE, s, to.ID) {
      TakeStep(admin.ids, admin.Now(s), src, dst, s !in admin.takeoverFailed, s !in admin.migrationFailed);
    }
    var taken := admin.SetSlots(dst, NODE, slots, to.ID);
    ghost var mid := admin.log;
    NotedKeys(old(admin.takeoverFailed), slots, was, mid);
    forall s | s in slots && s < |mid|
      ensures Took(admin.ids, was[s], mid[s], src, dst)
      ensures mid[s] == was[s] ==> s in admin.takeoverFailed
      ensures admin.SafeToSend(src, NODE, s, to.ID)
    {
      NotedAt(old(admin.takeoverFailed), slots, was, mid, s);
      Taken(admin.ids, was[s], mid[s], src, dst);
      TookSafely(admin.ids, was[s], mid[s], src, dst, s !in admin.takeoverFailed, s !in admin.migrationFailed);
    }
    var released := admin.SetSlots(src, NODE, slots, to.ID);
    forall s | s in slots && s < |admin.log|
      ensures Committed(admin.ids, admin.Now(s), src, dst, s !in admin.takeoverFailed)
      ensures admin.Now(s).keys == old(admin.Now(s).keys)
      ensures mid[s] == was[s] ==> !taken
      ensures admin.log[s] == mid[s] ==> !released
      ensures mid[s] != was[s] && admin.log[s] != mid[s] ==>
        Holders(admin.ids, admin.Now(s)) == {dst} && Told(admin.Now(s), src, to.ID) && Told(admin.Now(s), dst, to.ID)
    {
      Released(admin.ids, mid[s], admin.log[s], src, to.ID);
      HandedOver(admin.ids, was[s], mid[s], admin.log[s], src, dst, s !in admin.takeoverFailed);
    }
  }

  /** Owners and keys are as they were, and nobody has forgotten that the slot belongs to `id`. */
  ghost predicate Undisturbed(ids: map<Addr, NodeID>, was: seq<SlotState>, now: seq<SlotState>, id: NodeID) {
    && was != [] && now != []
    && Holders(ids, now[|now| - 1]) == Holders(ids, was[|was| - 1])
    && now[|now| - 1].keys == was[|was| - 1].keys
    && Remembers(was[|was| - 1], now[|now| - 1], id)
  }

  lemma UndisturbedYet(ids: map<Addr, NodeID>, was: seq<SlotState>, id: NodeID)
    requires was != []
    ensures Undisturbed(ids, was, was, id)
  {
    hide Holders, Told;
  }

  lemma UndisturbedGives(ids: map<Addr, NodeID>, was: seq<SlotState>, now: seq<SlotState>, id: NodeID)
    requires Undisturbed(ids, was, now, id)
    ensures was != [] && now != [] && now[|now| - 1].keys == was[|was| - 1].keys
    ensures Holders(ids, now[|now| - 1]) == Holders(ids, was[|was| - 1])
    ensures Remembers(was[|was| - 1], now[|now| - 1], id)
  {
    hide Holders, Told;
  }

  /** Telling a node that is no owner. */
  lemma UndisturbedSafely(ids: map<Addr, NodeID>, was: seq<SlotState>, now: seq<SlotState>, src: Addr, dst: Addr,
                          a: Addr, id: NodeID, takeoverOk: bool, migrationOk: bool)
    requires Undisturbed(ids, was, now, id) && Committed(ids, was[|was| - 1], src, dst, takeoverOk)
    requires a in ids && ids[a] != id && a != src && a != dst
    ensures var st := now[|now| - 1];
      SafeStep(ids, st, SetSlotEffect(ids, st, a, NODE, id), takeoverOk, migrationOk)
  {
    hide Holders, SafeStep, SetSlotEffect, Told;
    ReleaseStep(ids, now[|now| - 1], a, id, takeoverOk, migrationOk);
  }

  lemma UndisturbedStill(ids: map<Addr, NodeID>, was: seq<SlotState>, mid: seq<SlotState>, now: seq<SlotState>,
                         src: Addr, dst: Addr, a: Addr, id: NodeID, takeoverOk: bool)
    requires Undisturbed(ids, was, mid, id) && Committed(ids, was[|was| - 1], src, dst, takeoverOk)
    requires LetGo(ids, mid, now, a, id) && a != src && a != dst
    ensures Undisturbed(ids, was, now, id)
    ensures Remembers(mid[|mid| - 1], now[|now| - 1], id)
    ensures now != mid ==> Told(now[|now| - 1], a, id)
  {
    hide Holders, Told;
  }

  /** A master that takes no part in the hand-over and holds slots. */
  predicate Outsider(m: Node, from: Node, to: Node)
    reads m`Slots
  {
    m.IPPort() != from.IPPort() && m.IPPort() != to.IPPort() && |m.Slots| > 0
  }

  lemma Recall(st: SlotState, st': SlotState, id: NodeID)
    requires Remembers(st, st', id)
    ensures forall a :: Told(st, a, id) ==> Told(st', a, id)
  {
    hide Told;
  }

  /** All these nodes believe that `id` owns the slots. */
  ghost predicate AllTold(addrs: set<Addr>, log: seq<seq<SlotState>>, slots: seq<Slot>, id: NodeID) {
    forall a, s :: a in addrs && s in slots && s < |log| && log[s] != [] ==> Told(log[s][|log[s]| - 1], a, id)
  }

  lemma AllToldNone(log: seq<seq<SlotState>>, slots: seq<Slot>, id: NodeID)
    ensures AllTold({}, log, slots, id)
  {
  }

  lemma AllToldStep(addrs: set<Addr>, log: seq<seq<SlotState>>, log': seq<seq<SlotState>>, slots: seq<Slot>, a: Addr,
                    id: NodeID)
    requires AllTold(addrs, log, slots, id) && |log'| == |log|
    requires forall s :: s in slots ==> s < |log| && log[s] != [] && log'[s] != []
    requires forall s :: s in slots && s < |log| ==> Remembers(log[s][|log[s]| - 1], log'[s][|log'[s]| - 1], id)
    requires forall s :: s in slots && s < |log| ==> Told(log'[s][|log'[s]| - 1], a, id)
    ensures AllTold(addrs + {a}, log', slots, id)
  {
    hide Told;
    forall b, s | b in addrs + {a} && s in slots && s < |log'| ensures Told(log'[s][|log'[s]| - 1], b, id) {
      assert b == a || Told(log[s][|log[s]| - 1], b, id);
    }
  }

  lemma AllToldAt(addrs: set<Addr>, log: seq<seq<SlotState>>, slots: seq<Slot>, id: NodeID)
    requires AllTold(addrs, log, slots, id)
    ensures forall a, s :: a in addrs && s in slots && s < |log| && log[s] != [] ==>
      Told(log[s][|log[s]| - 1], a, id)
  {
  }

  /** One of the other masters is told.  `was` is what the slots had been through before any of them was. */
  method TellOne(admin: Admin, master: Node, from: Node, to: Node, slots: seq<Slot>, ghost was: seq<seq<SlotState>>)
    requires admin.Valid() && admin.KnowsNode(master) && master.ID != to.ID && |was| == |admin.log|
    requires NoDup(slots) && forall s :: s in slots ==> s < |was|
    requires master.IPPort() != from.IPPort() && master.IPPort() != to.IPPort()
    requires forall s :: s in slots ==>
      Undisturbed(admin.ids, was[s], admin.log[s], to.ID) &&
      Committed(admin.ids, was[s][|was[s]| - 1], from.IPPort(), to.IPPort(), s !in admin.takeoverFailed)
    modifies admin`log, admin`failures, admin`takeoverFailed
    ensures admin.Valid() && |admin.log| == |was|
    ensures forall s :: 0 <= s < |was| && s !in slots ==> admin.log[s] == old(admin.log[s])
    ensures admin.failures >= old(admin.failures)
    ensures forall s :: s in slots && s < |was| ==>
      Undisturbed(admin.ids, was[s], admin.log[s], to.ID) &&
      Remembers(old(admin.Now(s)), admin.Now(s), to.ID)
    ensures admin.failures == old(admin.failures) ==> forall s :: s in slots && s < |was| ==>
      Told(admin.Now(s), master.IPPort(), to.ID)
    ensures admin.takeoverFailed == old(admin.takeoverFailed)
    ensures old(admin.Safe()) ==> admin.Safe()
  {
    hide AllSafe, SafeStep, SetSlotEffect, SetSlotRefused, Noted, Holders, NoDup, Obeyed, Told, Undisturbed, LetGo,
      Committed;
    ghost var before := admin.log;
    forall s | s in slots ensures admin.SafeToSend(master.IPPort(), NODE, s, to.ID) {
      UndisturbedSafely(admin.ids, was[s], before[s], from.IPPort(), to.IPPort(), master.IPPort(), to.ID,
                        s !in admin.takeoverFailed, s !in admin.migrationFailed);
    }
    var told := admin.SetSlots(master.IPPort(), NODE, slots, to.ID);
    forall s | s in slots && s < |was|
      ensures Undisturbed(admin.ids, was[s], admin.log[s], to.ID)
      ensures Remembers(before[s][|before[s]| - 1], admin.Now(s), to.ID)
      ensures admin.log[s] == before[s] || Told(admin.Now(s), master.IPPort(), to.ID)
    {
      Released(admin.ids, before[s], admin.log[s], master.IPPort(), to.ID);
      UndisturbedStill(admin.ids, was[s], before[s], admin.log[s], from.IPPort(), to.IPPort(), master.IPPort(),
                       to.ID, s !in admin.takeoverFailed);
    }
  }

  /** The other masters are told, except those that hold nothing any more. */
  method TellOthers(admin: Admin, allMasters: seq<Node>, from: Node, to: Node, slots: seq<Slot>)
    requires admin.Valid() && admin.Knows(allMasters) && admin.KnowsNode(to)
    requires NoDup(slots) && forall s :: s in slots ==> s < |admin.log|
    requires forall m :: m in allMasters && m.IPPort() != to.IPPort() ==> m.ID != to.ID
    requires forall s :: s in slots ==>
      Committed(admin.ids, admin.Now(s), from.IPPort(), to.IPPort(), s !in admin.takeoverFailed)
    modifies admin`log, admin`failures, admin`takeoverFailed
    ensures admin.Valid() && |admin.log| == |old(admin.log)|
    ensures forall s :: 0 <= s < |admin.log| && s !in slots ==> admin.log[s] == old(admin.log[s])
    ensures admin.failures >= old(admin.failures)
    ensures forall s :: s in slots && s < |admin.log| ==>
      Holders(admin.ids, admin.Now(s)) == Holders(admin.ids, old(admin.Now(s))) &&
      admin.Now(s).keys == old(admin.Now(s).keys)
    ensures forall s :: s in slots && s < |admin.log| ==>
      forall a :: old(Told(admin.Now(s), a, to.ID)) ==> Told(admin.Now(s), a, to.ID)
    ensures admin.failures == old(admin.failures) ==> forall m, s ::
      m in allMasters && Outsider(m, from, to) && s in slots && s < |admin.log| ==>
        Told(admin.Now(s), m.IPPort(), to.ID)
    ensures admin.takeoverFailed == old(admin.takeoverFailed)
    ensures old(admin.Safe()) ==> admin.Safe()
  {
    hide AllSafe, SafeStep, SetSlotEffect, SetSlotRefused, Noted, Holders, NoDup, Obeyed, Told, Undisturbed, LetGo,
      AllTold, Remembers, Committed, Node.IPPort;
    ghost var was, informed: set<Addr> := admin.log, {};
    AllToldNone(admin.log, slots, to.ID);
    forall s | s in slots ensures Undisturbed(admin.ids, was[s], was[s], to.ID) {
      UndisturbedYet(admin.ids, was[s], to.ID);
    }
    for i := 0 to |allMasters|
      invariant admin.Valid() && |admin.log| == |was|
      invariant forall s :: 0 <= s < |was| && s !in slots ==> admin.log[s] == was[s]
      invariant admin.failures >= old(admin.failures)
      invariant forall s :: s in slots && s < |was| ==> Undisturbed(admin.ids, was[s], admin.log[s], to.ID)
      invariant forall m :: m in allMasters[..i] && Outsider(m, from, to) ==> m.IPPort() in informed
      invariant admin.failures == old(admin.failures) ==> AllTold(informed, admin.log, slots, to.ID)
      invariant admin.takeoverFailed == old(admin.takeoverFailed)
      invariant old(admin.Safe()) ==> admin.Safe()
    {
      var master := allMasters[i];
      assert allMasters[..i + 1] == allMasters[..i] + [master];
      if master.IPPort() == to.IPPort() || master.IPPort() == from.IPPort() {
        continue;
      }
      if master.TotalSlots() == 0 {
        continue;
      }
      ghost var before := admin.log;
      TellOne(admin, master, from, to, slots, was);
      if admin.failures == old(admin.failures) {
        AllToldStep(informed, before, admin.log, slots, master.IPPort(), to.ID);
      }
      informed := informed + {master.IPPort()};
    }
    assert allMasters[..|allMasters|] == allMasters;
    forall s | s in slots && s < |was|
      ensures Holders(admin.ids, admin.Now(s)) == Holders(admin.ids, old(admin.Now(s)))
      ensures admin.Now(s).keys == old(admin.Now(s).keys)
      ensures forall a :: old(Told(admin.Now(s), a, to.ID)) ==> Told(admin.Now(s), a, to.ID)
    {
      UndisturbedGives(admin.ids, was[s], admin.log[s], to.ID);
      Recall(was[s][|was[s]| - 1], admin.Now(s), to.ID);
    }
    if admin.failures == old(admin.failures) {
      AllToldAt(informed, admin.log, slots, to.ID);
    }
  }

  /** One entry of the migration map whose source is a master.  After an error nothing has changed in the lists and
      the source is the owner of every slot; otherwise the lists say that the destination has the slots, and when
      no command failed it is their settled owner, as both ends and every other master with slots have been told. */
  method MoveBatch(admin: Admin, allMasters: seq<Node>, from: Node, to: Node, slots: seq<Slot>) returns (ok: bool)
    requires admin.Valid() && admin.Knows(allMasters) && admin.KnowsNode(from) && admin.KnowsNode(to)
    requires from.IPPort() != to.IPPort() && from.ID != to.ID
    requires NoDup(slots) && forall s :: s in slots ==> s < |admin.log|
    requires forall m :: m in allMasters && m.IPPort() != to.IPPort() ==> m.ID != to.ID
    requires forall s :: s in slots ==> Settled(admin.ids, admin.Now(s), from.IPPort())
    modifies admin`log, admin`failures, admin`takeoverFailed, admin`migrationFailed, from`Slots, to`Slots
    ensures admin.Valid() && |admin.log| == |old(admin.log)|
    ensures forall s :: 0 <= s < |admin.log| && s !in slots ==> admin.log[s] == old(admin.log[s])
    ensures from.Slots == if ok then Without(old(from.Slots), slots) else old(from.Slots)
    ensures to.Slots == if ok then Union(old(to.Slots), slots) else old(to.Slots)
    ensures admin.failures >= old(admin.failures) && (admin.failures == old(admin.failures) ==> ok)
    ensures !ok ==> admin.takeoverFailed == old(admin.takeoverFailed)
    ensures !ok ==> forall s :: s in slots && s < |admin.log| ==>
      Holders(admin.ids, admin.Now(s)) == {from.IPPort()} && admin.Now(s).keys == old(admin.Now(s).keys)
    ensures admin.failures == old(admin.failures) ==> forall s :: s in slots && s < |admin.log| ==>
      Settled(admin.ids, admin.Now(s), to.IPPort()) &&
      Told(admin.Now(s), from.IPPort(), to.ID) && Told(admin.Now(s), to.IPPort(), to.ID)
    ensures admin.failures == old(admin.failures) ==> forall m, s ::
      m in allMasters && old(Outsider(m, from, to)) && s in slots && s < |admin.log| ==>
        Told(admin.Now(s), m.IPPort(), to.ID)
    ensures old(admin.Safe()) ==> admin.Safe()
  {
    hide AllSafe, SafeStep, Holders, KeysAt, AllKeys, NoDup, Told, Without, Union;
    ok := PrepareBatch(admin, from, to, slots);
    if !ok {
      return;
    }
    label prepared:
    CommitBatch(admin, from, to, slots);
    label committed:
    from.Slots := RemoveSlots(from.Slots, slots);
    TellOthers(admin, allMasters, from, to, slots);
    to.Slots := AddSlots(to.Slots, slots);
    if admin.failures == old(admin.failures) {
      forall s | s in slots && s < |admin.log| ensures Settled(admin.ids, admin.Now(s), to.IPPort()) {
        SameKeys(old@prepared(admin.Now(s)), old@committed(admin.Now(s)));
        SameKeys(old@committed(admin.Now(s)), admin.Now(s));
      }
    }
  }
}
