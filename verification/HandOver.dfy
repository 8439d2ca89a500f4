/** One slot changes hands during a scale-up: moveSlot in pkg/controller/clustering/rebalance.go. */
module HandOver {
  import opened Slots
  import opened Nodes
  import opened Redis

  /** The last two commands of moveSlot, whose failures are only logged. */
  method Commit(admin: Admin, slot: Slot, source: Node, target: Node)
    requires admin.Valid() && slot < |admin.log| && admin.KnowsNode(source) && admin.KnowsNode(target)
    requires source.IPPort() != target.IPPort() && source.ID != target.ID
    requires Holders(admin.ids, admin.Now(slot)) == {source.IPPort()}
    requires KeysAt(admin.Now(slot), target.IPPort()) == AllKeys(admin.Now(slot))
    modifies admin`log, admin`failures, admin`takeoverFailed
    ensures admin.Valid() && |admin.log| == |old(admin.log)|
    ensures forall s :: 0 <= s < |admin.log| && s != slot ==> admin.log[s] == old(admin.log[s])
    ensures old(admin.failures) <= admin.failures
    ensures admin.failures == old(admin.failures) ==> Settled(admin.ids, admin.Now(slot), target.IPPort())
    ensures old(slot !in admin.takeoverFailed) ==>
      (Holders(admin.ids, admin.Now(slot)) == {} <==>
         slot in admin.takeoverFailed && admin.failures == old(admin.failures) + 1)
    ensures old(admin.takeoverFailed).Keys <= admin.takeoverFailed.Keys <= old(admin.takeoverFailed).Keys + {slot}
    ensures old(admin.Safe()) ==> admin.Safe()
  {
    hide AllSafe, SafeStep, SetSlotEffect, SetSlotRefused, Holders, KeysAt, AllKeys;
    var src, dst := source.IPPort(), target.IPPort();
    ghost var ids := admin.ids;
    ghost var takeoverOk, migrationOk := slot !in admin.takeoverFailed, slot !in admin.migrationFailed;
    ghost var st3 := admin.Now(slot);
    TakeStep(ids, st3, src, dst, takeoverOk, migrationOk);
    var taken := admin.SetSlot(dst, NODE, slot, target.ID);
    ghost var st4 := admin.Now(slot);
    SameKeys(st3, st4);
    assert Holders(ids, st4) == if taken then {src, dst} else {src};
    ReleaseStep(ids, st4, src, target.ID, taken && takeoverOk, migrationOk);
    var released := admin.SetSlot(src, NODE, slot, target.ID);
    SameKeys(st4, admin.Now(slot));
    assert Holders(ids, admin.Now(slot)) == (if taken then {dst} else {}) + (if released then {} else {src});
  }

  /** The first three commands of moveSlot, which give up at the first failure: the two marks and the keys.
      Unlike those of a scale-down, both marks name the node they are set on. */
  method Prepare(admin: Admin, slot: Slot, source: Node, target: Node) returns (ok: bool)
    requires admin.Valid() && slot < |admin.log| && admin.KnowsNode(source) && admin.KnowsNode(target)
    requires source.IPPort() != target.IPPort()
    requires Settled(admin.ids, admin.Now(slot), source.IPPort())
    modifies admin`log, admin`failures, admin`takeoverFailed, admin`migrationFailed
    ensures admin.Valid() && |admin.log| == |old(admin.log)|
    ensures forall s :: 0 <= s < |admin.log| && s != slot ==> admin.log[s] == old(admin.log[s])
    ensures admin.failures == old(admin.failures) + (if ok then 0 else 1)
    ensures Holders(admin.ids, admin.Now(slot)) == {source.IPPort()}
    ensures ok ==> KeysAt(admin.Now(slot), target.IPPort()) == AllKeys(admin.Now(slot))
    ensures ok ==> Naming(admin.Now(slot), target.IPPort(), target.ID, source.IPPort(), source.ID)
    ensures ok ==> target.IPPort() !in admin.replicaOf && source.IPPort() !in admin.replicaOf
    ensures admin.takeoverFailed == old(admin.takeoverFailed)
    ensures old(admin.migrationFailed) <= admin.migrationFailed <= old(admin.migrationFailed) + {slot}
    ensures old(admin.Safe()) ==> admin.Safe()
  {
    hide AllSafe, SafeStep, SetSlotEffect, SetSlotRefused, Moving, Marked, Naming, Importing, Holders, KeysAt, AllKeys,
      Node.IPPort;
    var src, dst := source.IPPort(), target.IPPort();
    ghost var ids := admin.ids;
    ghost var takeoverOk, migrationOk := slot !in admin.takeoverFailed, slot !in admin.migrationFailed;
    ghost var run0 := admin.log[slot];
    MarkStep(ids, admin.Now(slot), dst, IMPORTING, target.ID, takeoverOk, migrationOk);
    ok := admin.SetSlot(dst, IMPORTING, slot, target.ID);
    ghost var run1 := admin.log[slot];
    ImportSent(ids, run0, run1, src, dst, target.ID);
    if !ok {
      return;
    }
    MigratingSafely(ids, admin.Now(slot), dst, target.ID, src, source.ID, takeoverOk, migrationOk);
    ok := admin.SetSlot(src, MIGRATING, slot, source.ID);
    MigrateSent(ids, run1, admin.log[slot], dst, target.ID, src, source.ID);
    if !ok {
      return;
    }
    ghost var st2 := admin.Now(slot);
    BothMarked(st2, dst, target.ID, src, source.ID);
    var keyCount;
    keyCount, ok := admin.MigrateKeysInSlot(src, target, slot, 10);
    Migrated(ids, st2, admin.Now(slot), src, dst);
    NamingStays(st2, admin.Now(slot), dst, target.ID, src, source.ID);
  }

  /** moveSlot hands one slot over, between masters only.  An aborted hand-over leaves the source the only owner; a
      finished one makes the destination the only owner, with every key, unless one of the two last commands failed;
      and the slot is left without an owner exactly when the first of those two failed and the second did not. */
  method MoveSlot(admin: Admin, source: Node, slot: Slot, target: Node) returns (ok: bool)
    requires admin.Valid() && slot < |admin.log| && admin.KnowsNode(source) && admin.KnowsNode(target)
    requires source.IPPort() != target.IPPort() && source.ID != target.ID
    requires Settled(admin.ids, admin.Now(slot), source.IPPort())
    requires NoDup(source.Slots)
    modifies admin`log, admin`failures, admin`takeoverFailed, admin`migrationFailed, source`Slots
    ensures admin.Valid() && |admin.log| == |old(admin.log)|
    ensures forall s :: 0 <= s < |admin.log| && s != slot ==> admin.log[s] == old(admin.log[s])
    ensures source.Slots == if ok then Without(old(source.Slots), [slot]) else old(source.Slots)
    ensures old(admin.failures) <= admin.failures && (admin.failures == old(admin.failures) ==> ok)
    ensures !ok ==> Holders(admin.ids, admin.Now(slot)) == {source.IPPort()}
    ensures !ok ==> admin.takeoverFailed == old(admin.takeoverFailed) && admin.failures == old(admin.failures) + 1
    ensures ok ==> target.IPPort() !in admin.replicaOf && source.IPPort() !in admin.replicaOf
    ensures admin.failures == old(admin.failures) ==> Settled(admin.ids, admin.Now(slot), target.IPPort())
    ensures ok && old(slot !in admin.takeoverFailed) ==>
      (Holders(admin.ids, admin.Now(slot)) == {} <==>
         slot in admin.takeoverFailed && admin.failures == old(admin.failures) + 1)
    ensures old(admin.takeoverFailed).Keys <= admin.takeoverFailed.Keys <= old(admin.takeoverFailed).Keys + {slot}
    ensures old(admin.migrationFailed) <= admin.migrationFailed <= old(admin.migrationFailed) + {slot}
    ensures old(admin.Safe()) ==> admin.Safe()
  {
    hide AllSafe, SafeStep, SetSlotEffect, SetSlotRefused, Holders, KeysAt, AllKeys;
    ok := Prepare(admin, slot, source, target);
    if !ok {
      return;
    }
    Commit(admin, slot, source, target);
    source.Slots := RemoveSlot(source.Slots, slot);
    RemoveFirstIsWithout(old(source.Slots), slot);
  }
}
