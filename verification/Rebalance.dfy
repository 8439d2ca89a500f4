/** Scale-up: RebalancedCluster in pkg/controller/clustering/rebalance.go. */
module Rebalance {
  import opened Slots
  import opened Sums
  import opened Nodes
  import opened Redis
  import opened Balance
  import opened HandOver
  import opened Reshard
  import opened Shares

  // ----- moving the slots

  /** What is known about the slots during a scale-up.  `owner0` is the owner of each slot at the start, empty for a
      slot in no list, and `owner` its owner by now; a slot that has not been moved is settled at its owner and in its
      owner's list, and a slot in any list has not been moved.  In a clean run, one without a failed command so far,
      every listed slot is settled at its owner. */
  ghost predicate Ledger(admin: Admin, nodes: seq<Node>, owner0: seq<Addr>, owner: seq<Addr>, clean: bool)
    reads admin, nodes`Slots
  {
    && admin.Valid() && |owner0| == |owner|
    && Accounts(admin.ids, admin.log, owner0, owner, clean)
    && (forall n :: n in nodes ==> Unmoved(n, owner0, owner))
    && GivenToMasters(admin.replicaOf, owner0, owner)
  }

  /** The cluster's side of it. */
  ghost predicate Accounts(ids: map<Addr, NodeID>, log: seq<seq<SlotState>>, owner0: seq<Addr>, owner: seq<Addr>,
                           clean: bool)
  {
    && |owner0| == |owner| == |log|
    && (forall s :: 0 <= s < |owner| ==> (owner[s] == "" <==> owner0[s] == ""))
    && (forall s :: 0 <= s < |owner| && owner[s] == owner0[s] != "" ==> SettledAt(ids, log[s], owner0[s]))
    && (clean ==> forall s :: 0 <= s < |owner| && owner[s] != "" ==> SettledAt(ids, log[s], owner[s]))
  }

  /** The same after the hand-over of slot `s` has been broken off: all that is known of that slot is that its first
      owner still is the only one. */
  ghost predicate AccountsBut(ids: map<Addr, NodeID>, log: seq<seq<SlotState>>, owner0: seq<Addr>, owner: seq<Addr>,
                              clean: bool, s: nat)
  {
    && |owner0| == |owner| == |log| && s < |log|
    && owner[s] == owner0[s] != "" && log[s] != [] && Holders(ids, log[s][|log[s]| - 1]) == {owner0[s]}
    && (forall r :: 0 <= r < |owner| ==> (owner[r] == "" <==> owner0[r] == ""))
    && (forall r :: 0 <= r < |owner| && r != s && owner[r] == owner0[r] != "" ==> SettledAt(ids, log[r], owner0[r]))
    && (clean ==> forall r :: 0 <= r < |owner| && r != s && owner[r] != "" ==> SettledAt(ids, log[r], owner[r]))
  }

  lemma AccountsHalt(ids: map<Addr, NodeID>, log: seq<seq<SlotState>>, log': seq<seq<SlotState>>, owner0: seq<Addr>,
                     owner: seq<Addr>, s: nat, clean: bool)
    requires Accounts(ids, log, owner0, owner, clean) && s < |log| == |log'|
    requires owner[s] == owner0[s] != "" && log'[s] != [] && Holders(ids, log'[s][|log'[s]| - 1]) == {owner0[s]}
    requires forall r :: 0 <= r < |log| && r != s ==> log'[r] == log[r]
    ensures AccountsBut(ids, log', owner0, owner, clean, s)
  {
    hide SettledAt, Holders;
  }

  /** A scale-up that has been broken off at some slot.  If that was the first failure, all the others are settled with
      the owners they have by now. */
  ghost predicate Halted(admin: Admin, nodes: seq<Node>, owner0: seq<Addr>, owner: seq<Addr>, clean: bool)
    reads admin, nodes`Slots
  {
    && admin.Valid() && |owner0| == |owner|
    && (exists s :: 0 <= s < |owner| && AccountsBut(admin.ids, admin.log, owner0, owner, clean, s))
    && (forall n :: n in nodes ==> Unmoved(n, owner0, owner))
    && GivenToMasters(admin.replicaOf, owner0, owner)
  }

  ghost predicate SettledAt(ids: map<Addr, NodeID>, run: seq<SlotState>, a: Addr) {
    run != [] && Settled(ids, run[|run| - 1], a)
  }

  lemma AccountsMove(ids: map<Addr, NodeID>, log: seq<seq<SlotState>>, log': seq<seq<SlotState>>, owner0: seq<Addr>,
                     owner: seq<Addr>, s: nat, dst: Addr, clean: bool, clean': bool)
    requires Accounts(ids, log, owner0, owner, clean) && s < |log| == |log'| && (clean' ==> clean)
    requires owner[s] == owner0[s] != "" && dst != "" && dst != owner0[s]
    requires forall r :: 0 <= r < |log| && r != s ==> log'[r] == log[r]
    requires clean' ==> SettledAt(ids, log'[s], dst)
    ensures Accounts(ids, log', owner0, owner[s := dst], clean')
  {
    hide SettledAt;
  }

  /** Nothing has happened to the slots that are in no list. */
  ghost predicate LostKept(owner0: seq<Addr>, was: seq<seq<SlotState>>, log: seq<seq<SlotState>>) {
    |log| == |was| && forall s :: 0 <= s < |log| && s < |owner0| && owner0[s] == "" ==> log[s] == was[s]
  }

  lemma AddrNotEmpty(n: Node)
    ensures n.IPPort() != ""
  {
  }

  /** No replica has been given a slot: Redis would have refused. */
  ghost predicate GivenToMasters(replicaOf: map<Addr, NodeID>, owner0: seq<Addr>, owner: seq<Addr>)
    requires |owner0| == |owner|
  {
    forall s :: 0 <= s < |owner| && owner[s] != owner0[s] ==> owner[s] !in replicaOf
  }

  /** The node's list holds exactly the slots it has had from the start. */
  ghost predicate Unmoved(n: Node, owner0: seq<Addr>, owner: seq<Addr>)
    requires |owner0| == |owner|
    reads n`Slots
  {
    KeptList(n.Slots, n.IPPort(), owner0, owner)
  }

  ghost predicate KeptList(slots: seq<Slot>, a: Addr, owner0: seq<Addr>, owner: seq<Addr>)
    requires |owner0| == |owner|
  {
    NoDup(slots) && forall s: Slot :: s in slots <==> s < |owner| && owner[s] == owner0[s] == a
  }

  /** Moving a slot of one node leaves the lists of the others right. */
  lemma KeptListMove(slots: seq<Slot>, a: Addr, owner0: seq<Addr>, owner: seq<Addr>, s: Slot, dst: Addr)
    requires |owner0| == |owner| && KeptList(slots, a, owner0, owner) && s < |owner|
    requires dst != owner0[s]
    ensures owner0[s] != a ==> KeptList(slots, a, owner0, owner[s := dst])
    ensures owner[s] == owner0[s] == a && slots != [] && slots[0] == s ==>
      KeptList(slots[1..], a, owner0, owner[s := dst])
  {
    if slots != [] && slots[0] == s {
      if NoDup(slots) {
        FirstRemoved(slots);
      }
      assert forall r :: r in slots <==> r == slots[0] || r in slots[1..];
    }
  }

  lemma DistinctNodes(nodes: seq<Node>, a: Node, b: Node)
    requires Distinct(nodes) && a in nodes && b in nodes && a != b
    ensures a.ID != b.ID && a.IPPort() != b.IPPort()
  {
  }

  lemma FirstRemoved(slots: seq<Slot>)
    requires NoDup(slots) && slots != []
    ensures Without(slots, [slots[0]]) == slots[1..]
    ensures NoDup(slots[1..]) && slots[0] !in slots[1..]
  {
    RemoveFirstIsWithout(slots, slots[0]);
  }

  /** Moving one slot in the ledger. */
  method MoveTracked(admin: Admin, e: MovedNode, dst: Node, ghost nodes: seq<Node>,
                     ghost owner0: seq<Addr>, ghost owner1: seq<Addr>, ghost clean: bool)
    returns (ok: bool, ghost owner: seq<Addr>)
    requires Ledger(admin, nodes, owner0, owner1, clean) && Distinct(nodes) && admin.Knows(nodes)
    requires e.Source in nodes && dst in nodes && e.Source != dst
    requires e.Source.Slots != [] && e.Slot == e.Source.Slots[0]
    modifies admin`log, admin`failures, admin`takeoverFailed, admin`migrationFailed, e.Source`Slots
    ensures ok ==> Ledger(admin, nodes, owner0, owner, clean && admin.failures == old(admin.failures))
    ensures ok ==> e.Source.Slots == old(e.Source.Slots)[1..]
    ensures ok ==> e.Slot < |owner1| && owner1[e.Slot] == owner0[e.Slot] == e.Source.IPPort()
    ensures ok ==> owner == owner1[e.Slot := dst.IPPort()]
    ensures !ok ==> owner == owner1
    ensures !ok ==> Halted(admin, nodes, owner0, owner1, clean && admin.failures == old(admin.failures) + 1)
    ensures LostKept(owner0, old(admin.log), admin.log)
    ensures old(admin.failures) <= admin.failures && (admin.failures == old(admin.failures) ==> ok)
    ensures old(admin.Safe()) ==> admin.Safe()
  {
    hide Settled, AllSafe, Holders, Without, NoDup, Accounts, AccountsBut, KeptList, LostKept, Node.IPPort;
    forall n | n in nodes && n != e.Source ensures n.ID != e.Source.ID && n.IPPort() != e.Source.IPPort() {
      DistinctNodes(nodes, n, e.Source);
    }
    AddrNotEmpty(e.Source);
    AddrNotEmpty(dst);
    assert Unmoved(e.Source, owner0, owner1);
    FirstKept(e.Source.Slots, e.Source.IPPort(), owner0, owner1);
    FirstRemoved(e.Source.Slots);
    ghost var was := admin.log;
    SettledNow(admin, owner0, owner1, clean, e.Slot);
    forall n | n in nodes
      ensures n != e.Source ==> KeptList(n.Slots, n.IPPort(), owner0, owner1[e.Slot := dst.IPPort()])
      ensures n == e.Source ==> KeptList(n.Slots[1..], n.IPPort(), owner0, owner1[e.Slot := dst.IPPort()])
    {
      assert Unmoved(n, owner0, owner1);
      KeptListMove(n.Slots, n.IPPort(), owner0, owner1, e.Slot, dst.IPPort());
    }
    ok := MoveSlot(admin, e.Source, e.Slot, dst);
    LostBut(owner0, was, admin.log, e.Slot);
    if !ok {
      AccountsHalt(admin.ids, was, admin.log, owner0, owner1, e.Slot, clean);
      owner := owner1;
      return;
    }
    owner := owner1[e.Slot := dst.IPPort()];
    AccountsMove(admin.ids, was, admin.log, owner0, owner1, e.Slot, dst.IPPort(), clean,
                 clean && admin.failures == old(admin.failures));
  }

  lemma FirstKept(slots: seq<Slot>, a: Addr, owner0: seq<Addr>, owner: seq<Addr>)
    requires |owner0| == |owner| && KeptList(slots, a, owner0, owner) && slots != []
    ensures NoDup(slots) && slots[0] < |owner| && owner[slots[0]] == owner0[slots[0]] == a
  {
    assert slots[0] in slots;
  }

  lemma LostBut(owner0: seq<Addr>, was: seq<seq<SlotState>>, log: seq<seq<SlotState>>, s: Slot)
    requires |log| == |was| == |owner0| && s < |log| && owner0[s] != ""
    requires forall r :: 0 <= r < |log| && r != s ==> log[r] == was[r]
    ensures LostKept(owner0, was, log)
  {
  }

  lemma SettledNow(admin: Admin, owner0: seq<Addr>, owner: seq<Addr>, clean: bool, s: Slot)
    requires admin.Valid() && Accounts(admin.ids, admin.log, owner0, owner, clean) && s < |owner|
    requires owner[s] == owner0[s] != ""
    ensures |admin.log| == |owner| == |owner0| && Settled(admin.ids, admin.Now(s), owner0[s])
  {
    hide Settled;
  }

  /** In `after`, k more slots belong to `dst` and k fewer to `src`. */
  ghost predicate Transferred(before: seq<Addr>, after: seq<Addr>, src: Addr, dst: Addr, k: nat) {
    forall a :: multiset(after)[a] as int ==
      multiset(before)[a] + (if a == dst then k else 0) - (if a == src then k else 0)
  }

  lemma LedgerGives(admin: Admin, nodes: seq<Node>, owner0: seq<Addr>, owner: seq<Addr>, clean: bool, n: Node)
    requires Ledger(admin, nodes, owner0, owner, clean) && n in nodes
    ensures |owner| == |owner0| && NoDup(n.Slots) && GivenToMasters(admin.replicaOf, owner0, owner)
    ensures Unmoved(n, owner0, owner)
  {
    assert Unmoved(n, owner0, owner);
  }

  lemma TransferredNothing(owner: seq<Addr>, src: Addr, dst: Addr)
    ensures Transferred(owner, owner, src, dst, 0)
  {
  }

  lemma TransferredStep(before: seq<Addr>, mid: seq<Addr>, s: nat, src: Addr, dst: Addr, k: nat)
    requires Transferred(before, mid, src, dst, k) && s < |mid| && mid[s] == src && src != dst
    ensures Transferred(before, mid[s := dst], src, dst, k + 1)
  {
    assert multiset(mid[s := dst]) == multiset(mid) - multiset{src} + multiset{dst};
  }

  /** All the moves of one pair of nodes. */
  method MoveBatch(admin: Admin, src: Node, dst: Node, numSlots: nat, ghost nodes: seq<Node>,
                   ghost owner0: seq<Addr>, ghost owner1: seq<Addr>, ghost clean: bool)
    returns (ok: bool, ghost done: nat, ghost owner: seq<Addr>)
    requires Ledger(admin, nodes, owner0, owner1, clean) && Distinct(nodes) && admin.Knows(nodes)
    requires src in nodes && dst in nodes && src != dst
    requires 0 < numSlots <= |src.Slots|
    modifies admin`log, admin`failures, admin`takeoverFailed, admin`migrationFailed, src`Slots
    ensures ok ==> Ledger(admin, nodes, owner0, owner, clean && admin.failures == old(admin.failures))
    ensures ok ==> |src.Slots| == |old(src.Slots)| - numSlots
    ensures done <= numSlots && (ok <==> done == numSlots)
    ensures |owner| == |owner1| == |owner0| && Changed(owner0, owner) == Changed(owner0, owner1) + done
    ensures Transferred(owner1, owner, src.IPPort(), dst.IPPort(), done)
    ensures !ok ==> Halted(admin, nodes, owner0, owner, clean && admin.failures == old(admin.failures) + 1)
    ensures LostKept(owner0, old(admin.log), admin.log)
    ensures old(admin.failures) <= admin.failures && (admin.failures == old(admin.failures) ==> ok)
    ensures old(admin.Safe()) ==> admin.Safe()
  {
    hide Settled, AllSafe, Holders, Without, NoDup, Changed, Sum, Held, Table, Transferred, Ledger, Halted,
      Distinct;
    LedgerGives(admin, nodes, owner0, owner1, clean, src);
    TransferredNothing(owner1, src.IPPort(), dst.IPPort());
    DistinctNodes(nodes, src, dst);
    SingleSource(src);
    var reshardTable;
    ghost var order;
    reshardTable, order := ComputeReshardTable([src], numSlots);
    ghost var slots := src.Slots;
    owner := owner1;
    ok, done := true, 0;
    for i := 0 to |reshardTable|
      invariant ok && Ledger(admin, nodes, owner0, owner, clean && admin.failures == old(admin.failures))
      invariant src.Slots == slots[i..]
      invariant done == i && |owner| == |owner1| && Changed(owner0, owner) == Changed(owner0, owner1) + i
      invariant Transferred(owner1, owner, src.IPPort(), dst.IPPort(), i)
      invariant LostKept(owner0, old(admin.log), admin.log)
      invariant old(admin.failures) <= admin.failures
      invariant old(admin.Safe()) ==> admin.Safe()
    {
      ghost var owner' := owner;
      ok, owner := MoveTracked(admin, reshardTable[i], dst, nodes, owner0, owner,
                               clean && admin.failures == old(admin.failures));
      if !ok {
        return;
      }
      ChangedUpdate(owner0, owner', reshardTable[i].Slot, dst.IPPort());
      TransferredStep(owner1, owner', reshardTable[i].Slot, src.IPPort(), dst.IPPort(), i);
      done := i + 1;
    }
  }

  lemma SingleSource(src: Node)
    requires NoDup(src.Slots)
    ensures Sum(Held([src])) == |src.Slots| && NoDup([src])
  {
    assert Held([src]) == [|src.Slots|];
  }

  /** What slots and balances have to do with each other at each turn of the two-pointer loop: a node owns as many
      slots as it did at the start, less what its balance has come down by since. */
  ghost predicate InStep(addrs: seq<Addr>, orig: seq<int>, held: seq<int>, cur: seq<int>, owner0: seq<Addr>,
                         owner: seq<Addr>)
  {
    && |addrs| == |orig| == |held| == |cur| && |owner| == |owner0|
    && (forall j :: 0 <= j < |addrs| ==> cur[j] <= held[j])
    && (forall j :: 0 <= j < |addrs| ==>
          multiset(owner)[addrs[j]] as int == multiset(owner0)[addrs[j]] - orig[j] + cur[j])
  }

  lemma InStepMove(addrs: seq<Addr>, orig: seq<int>, held: seq<int>, cur: seq<int>, owner0: seq<Addr>,
                   owner1: seq<Addr>, owner: seq<Addr>, lo: nat, hi: nat, k: nat)
    requires InStep(addrs, orig, held, cur, owner0, owner1) && lo < hi < |addrs| && |owner| == |owner0|
    requires NoDup(addrs) && cur[lo] + k <= 0 <= held[lo] && Transferred(owner1, owner, addrs[hi], addrs[lo], k)
    ensures InStep(addrs, orig, held[hi := held[hi] - k], cur[lo := cur[lo] + k][hi := cur[hi] - k], owner0, owner)
  {
  }

  /** The balances of the two ends, once the slots have moved. */
  method ShiftBalance(sn: seq<Node>, dstIdx: nat, srcIdx: nat, numSlots: nat)
    requires NoDup(sn) && dstIdx < srcIdx < |sn|
    modifies {sn[dstIdx], sn[srcIdx]}`balance
    ensures Balances(sn) ==
      old(Balances(sn))[dstIdx := old(Balances(sn))[dstIdx] + numSlots][srcIdx := old(Balances(sn))[srcIdx] - numSlots]
    ensures Held(sn) == old(Held(sn))
  {
    var dst, src := sn[dstIdx], sn[srcIdx];
    dst.SetBalance(dst.balance + numSlots);
    src.SetBalance(src.balance - numSlots);
  }

  /** One pair of nodes: the slots are moved, then the two balances follow. */
  method SettlePair(admin: Admin, sn: seq<Node>, dstIdx: nat, srcIdx: nat, numSlots: nat,
                    ghost orig: seq<int>, ghost owner0: seq<Addr>, ghost owner1: seq<Addr>, ghost clean: bool)
    returns (ok: bool, ghost done: nat, ghost owner: seq<Addr>)
    requires Distinct(sn) && admin.Knows(sn) && Ledger(admin, sn, owner0, owner1, clean)
    requires |owner1| == |owner0| && dstIdx < srcIdx < |sn|
    requires sn[dstIdx].balance + numSlots <= 0 && numSlots <= |sn[srcIdx].Slots|
    modifies admin`log, admin`failures, admin`takeoverFailed, admin`migrationFailed, sn`Slots, sn`balance
    ensures ok ==> Ledger(admin, sn, owner0, owner, clean && admin.failures == old(admin.failures))
    ensures ok && old(InStep(Addrs(sn), orig, Held(sn), Balances(sn), owner0, owner1)) ==>
      InStep(Addrs(sn), orig, Held(sn), Balances(sn), owner0, owner)
    ensures LostKept(owner0, old(admin.log), admin.log)
    ensures |owner| == |owner0| && Changed(owner0, owner) == Changed(owner0, owner1) + done
    ensures done <= numSlots && (ok ==> done == numSlots)
    ensures !ok ==> Transferred(owner1, owner, Addrs(sn)[srcIdx], Addrs(sn)[dstIdx], done)
    ensures !ok ==> Halted(admin, sn, owner0, owner, clean && admin.failures == old(admin.failures) + 1)
    ensures ok ==> var cur := old(Balances(sn));
      Balances(sn) == cur[dstIdx := cur[dstIdx] + numSlots][srcIdx := cur[srcIdx] - numSlots]
    ensures old(admin.failures) <= admin.failures && (admin.failures == old(admin.failures) ==> ok)
    ensures old(admin.Safe()) ==> admin.Safe()
  {
    hide Settled, AllSafe, Changed, Ledger, Halted, Balances, Held, Addrs, InStep, Transferred, Distinct, NoDup;
    var dst, src := sn[dstIdx], sn[srcIdx];
    DistinctPair(sn, dstIdx, srcIdx);
    ghost var held, cur := Held(sn), Balances(sn);
    DistinctAddrs(sn);
    ok, done, owner := true, 0, owner1;
    assert Addrs(sn)[srcIdx] == src.IPPort() && Addrs(sn)[dstIdx] == dst.IPPort();
    if numSlots > 0 {
      ok, done, owner := MoveBatch(admin, src, dst, numSlots, sn, owner0, owner1, clean);
      if !ok {
        return;
      }
    } else {
      TransferredNothing(owner, src.IPPort(), dst.IPPort());
    }
    assert Balances(sn) == cur;
    assert Held(sn) == held[srcIdx := held[srcIdx] - numSlots];
    ShiftBalance(sn, dstIdx, srcIdx, numSlots);
    if InStep(Addrs(sn), orig, held, cur, owner0, owner1) {
      InStepMove(Addrs(sn), orig, held, cur, owner0, owner1, owner, dstIdx, srcIdx, numSlots);
    }
  }

  /** The state of the two-pointer loop. */
  ghost predicate Draining(sn: seq<Node>, orig: seq<int>, owner0: seq<Addr>, owner: seq<Addr>, lo: int, hi: int)
    reads sn
  {
    && |owner| == |owner0|
    && Window(orig, Balances(sn), lo, hi)
    && InStep(Addrs(sn), orig, Held(sn), Balances(sn), owner0, owner)
    && Changed(owner0, owner) == Sum(Positive(orig)) - Sum(Positive(Balances(sn)))
  }

  lemma DrainingParts(sn: seq<Node>, orig: seq<int>, owner0: seq<Addr>, owner: seq<Addr>, lo: int, hi: int)
    requires Draining(sn, orig, owner0, owner, lo, hi) && 0 <= hi < |sn|
    ensures |owner| == |owner0| && Window(orig, Balances(sn), lo, hi)
    ensures InStep(Addrs(sn), orig, Held(sn), Balances(sn), owner0, owner) && sn[hi].balance <= |sn[hi].Slots|
    ensures Changed(owner0, owner) == Sum(Positive(orig)) - Sum(Positive(Balances(sn)))
  {
    hide Window, Changed, Sum, Positive;
  }

  lemma DrainingNow(sn: seq<Node>, orig: seq<int>, owner0: seq<Addr>, owner: seq<Addr>, lo: int, hi: int)
    requires |owner| == |owner0| && Window(orig, Balances(sn), lo, hi)
    requires InStep(Addrs(sn), orig, Held(sn), Balances(sn), owner0, owner)
    requires Changed(owner0, owner) == Sum(Positive(orig)) - Sum(Positive(Balances(sn)))
    ensures Draining(sn, orig, owner0, owner, lo, hi)
  {
    hide Window, InStep, Changed, Sum, Positive;
  }

  /** One pair of nodes, however many slots the upper one is to give: when these are more than it has, the source runs
      beyond the end of its list and panics; or, when it has none at all, computes 0 * (numSlots / 0), and what that is
      as an integer depends on the machine. */
  method MovePair(admin: Admin, sn: seq<Node>, dstIdx: nat, srcIdx: nat, numSlots: nat,
                  ghost orig: seq<int>, ghost owner0: seq<Addr>, ghost owner1: seq<Addr>, ghost clean: bool)
    returns (ok: bool, panicked: bool, ghost done: nat, ghost owner: seq<Addr>)
    requires Distinct(sn) && admin.Knows(sn) && Ledger(admin, sn, owner0, owner1, clean)
    requires |owner1| == |owner0| && dstIdx < srcIdx < |sn| && sn[dstIdx].balance + numSlots <= 0
    modifies admin`log, admin`failures, admin`takeoverFailed, admin`migrationFailed, sn`Slots, sn`balance
    ensures panicked ==> !ok && numSlots > old(|sn[srcIdx].Slots|) && admin.log == old(admin.log)
    ensures 0 < old(|sn[srcIdx].Slots|) < numSlots ==> panicked
    ensures LostKept(owner0, old(admin.log), admin.log)
    ensures ok ==> Ledger(admin, sn, owner0, owner, clean && admin.failures == old(admin.failures))
    ensures |owner| == |owner0|
    ensures panicked ==>
      owner == owner1 && Ledger(admin, sn, owner0, owner1, clean) && admin.failures == old(admin.failures)
    ensures numSlots <= old(|sn[srcIdx].Slots|) ==> Changed(owner0, owner) == Changed(owner0, owner1) + done
    ensures done <= numSlots && (ok && numSlots <= old(|sn[srcIdx].Slots|) ==> done == numSlots)
    ensures !ok && !panicked ==>
      Transferred(owner1, owner, Addrs(sn)[srcIdx], Addrs(sn)[dstIdx], done) &&
      Halted(admin, sn, owner0, owner, clean && admin.failures == old(admin.failures) + 1)
    ensures ok && numSlots <= old(|sn[srcIdx].Slots|) ==>
      old(InStep(Addrs(sn), orig, Held(sn), Balances(sn), owner0, owner1)) ==>
      InStep(Addrs(sn), orig, Held(sn), Balances(sn), owner0, owner)
    ensures ok ==> var cur := old(Balances(sn));
      Balances(sn) == cur[dstIdx := cur[dstIdx] + numSlots][srcIdx := cur[srcIdx] - numSlots]
    ensures old(admin.failures) <= admin.failures && (admin.failures == old(admin.failures) ==> ok || panicked)
    ensures old(admin.Safe()) ==> admin.Safe()
  {
    hide Settled, AllSafe, Changed, Balances, Held, Addrs, Ledger, Halted, Transferred, Distinct, InStep, LostKept;
    ok, panicked, done, owner := true, false, 0, owner1;
    var src := sn[srcIdx];
    LostNothing(owner0, admin.log);
    if numSlots > |src.Slots| {
      panicked := *;
      if |src.Slots| > 0 {
        panicked := true;
      }
      if panicked {
        ok := false;
        return;
      }
      DistinctNoDup(sn);
      ShiftBalance(sn, dstIdx, srcIdx, numSlots);
    } else {
      ok, done, owner := SettlePair(admin, sn, dstIdx, srcIdx, numSlots, orig, owner0, owner1, clean);
    }
  }

  /** The body of the two-pointer loop. */
  method DrainStep(admin: Admin, sn: seq<Node>, dstIdx: nat, srcIdx: nat,
                   ghost orig: seq<int>, ghost owner0: seq<Addr>, ghost owner1: seq<Addr>, ghost clean: bool)
    returns (ok: bool, panicked: bool, dstIdx': int, srcIdx': int, ghost owner: seq<Addr>)
    requires Distinct(sn) && admin.Knows(sn) && Ledger(admin, sn, owner0, owner1, clean) && |owner1| == |owner0|
    requires dstIdx < srcIdx < |sn| && Loose(orig, Balances(sn), dstIdx, srcIdx)
    requires Sum(orig) == 0 ==> Draining(sn, orig, owner0, owner1, dstIdx, srcIdx)
    modifies admin`log, admin`failures, admin`takeoverFailed, admin`migrationFailed, sn`Slots, sn`balance
    ensures panicked ==> !ok && Sum(orig) != 0 && admin.log == old(admin.log)
    ensures LostKept(owner0, old(admin.log), admin.log)
    ensures ok ==> Ledger(admin, sn, owner0, owner, clean && admin.failures == old(admin.failures))
    ensures |owner| == |owner0|
    ensures panicked ==>
      owner == owner1 && Ledger(admin, sn, owner0, owner1, clean) && admin.failures == old(admin.failures)
    ensures !ok && !panicked ==>
      Halted(admin, sn, owner0, owner, clean && admin.failures == old(admin.failures) + 1) &&
      (Sum(orig) == 0 ==> HalfWay(Addrs(sn), orig, owner0, owner))
    ensures ok ==> Loose(orig, Balances(sn), dstIdx', srcIdx')
    ensures ok && Sum(orig) == 0 ==> Draining(sn, orig, owner0, owner, dstIdx', srcIdx')
    ensures ok ==> dstIdx <= dstIdx' && srcIdx' <= srcIdx
    ensures ok && srcIdx' - dstIdx' >= srcIdx - dstIdx ==>
      dstIdx' == dstIdx && srcIdx' == srcIdx && Abs(Balances(sn)[dstIdx]) < old(Abs(Balances(sn)[dstIdx]))
    ensures old(admin.failures) <= admin.failures && (admin.failures == old(admin.failures) ==> ok || panicked)
    ensures old(admin.Safe()) ==> admin.Safe()
  {
    hide Settled, AllSafe, Sum, Positive, Changed, Window, Loose, Draining, Balances, Held, Addrs, Ledger, Halted,
      HalfWay, Gone, Transferred, Distinct, NoDup, InStep, LostKept, Node.IPPort;
    dstIdx', srcIdx' := dstIdx, srcIdx;
    var dst, src := sn[dstIdx], sn[srcIdx];
    var numSlots := if Abs(dst.balance) < Abs(src.balance) then Abs(dst.balance) else Abs(src.balance);
    ghost var cur := Balances(sn);
    LooseStep(orig, cur, dstIdx, srcIdx, numSlots);
    if Sum(orig) == 0 {
      DrainingParts(sn, orig, owner0, owner1, dstIdx, srcIdx);
      PairStep(orig, cur, dstIdx, srcIdx, numSlots);
    }
    ghost var held, done := Held(sn), 0;
    ok, panicked, done, owner := MovePair(admin, sn, dstIdx, srcIdx, numSlots, orig, owner0, owner1, clean);
    if !ok {
      if !panicked && Sum(orig) == 0 {
        DistinctAddrs(sn);
        HaltedHalfWay(Addrs(sn), orig, held, cur, owner0, owner1, owner, dstIdx, srcIdx, done, numSlots);
      }
      return;
    }
    assert Balances(sn)[dstIdx] == dst.balance && Balances(sn)[srcIdx] == src.balance;
    if dst.balance == 0 {
      dstIdx' := dstIdx + 1;
    }
    if src.balance == 0 {
      srcIdx' := srcIdx - 1;
    }
    if Sum(orig) == 0 {
      DrainingNow(sn, orig, owner0, owner, dstIdx', srcIdx');
    }
  }

  /** Nobody has lost more slots than it had too many, or gained more than it was short of; and no slot has moved but
      for that. */
  ghost predicate HalfWay(addrs: seq<Addr>, orig: seq<int>, owner0: seq<Addr>, owner: seq<Addr>) {
    && |addrs| == |orig| && |owner| == |owner0|
    && (forall j :: 0 <= j < |addrs| ==> Gone(addrs[j], orig[j], owner0, owner))
  }

  /** So many slots, and no more than `all`, have left the node. */
  ghost predicate Gone(a: Addr, all: int, owner0: seq<Addr>, owner: seq<Addr>) {
    Between(all, multiset(owner0)[a] as int - multiset(owner)[a])
  }

  predicate Between(all: int, gone: int) {
    if all >= 0 then 0 <= gone <= all else all <= gone <= 0
  }

  lemma HaltedHalfWay(addrs: seq<Addr>, orig: seq<int>, held: seq<int>, cur: seq<int>, owner0: seq<Addr>,
                      owner1: seq<Addr>, owner: seq<Addr>, lo: nat, hi: nat, done: nat, k: nat)
    requires InStep(addrs, orig, held, cur, owner0, owner1) && Window(orig, cur, lo, hi) && lo < hi < |addrs|
    requires NoDup(addrs) && |owner| == |owner0| && Transferred(owner1, owner, addrs[hi], addrs[lo], done)
    requires done <= k && cur[lo] + k <= 0 && k <= cur[hi]
    ensures HalfWay(addrs, orig, owner0, owner)
  {
    forall j | 0 <= j < |addrs| ensures Gone(addrs[j], orig[j], owner0, owner) {
      assert addrs[lo] != addrs[hi] && (j != lo ==> addrs[j] != addrs[lo]) && (j != hi ==> addrs[j] != addrs[hi]);
    }
  }

  lemma LostNothing(owner0: seq<Addr>, log: seq<seq<SlotState>>)
    ensures LostKept(owner0, log, log)
  {
  }

  lemma LostStill(owner0: seq<Addr>, a: seq<seq<SlotState>>, b: seq<seq<SlotState>>, c: seq<seq<SlotState>>)
    requires LostKept(owner0, a, b) && LostKept(owner0, b, c)
    ensures LostKept(owner0, a, c)
  {
  }

  /** The two-pointer loop.  From balances that add up to nothing it gives every node as many slots as it was
      short of, takes from every node as many as it had too many, and moves no slot twice.  From balances that add up
      to less it may panic; but it never touches a slot that is in no list. */
  method Drain(admin: Admin, sn: seq<Node>, ghost owner0: seq<Addr>)
    returns (ok: bool, panicked: bool, ghost owner: seq<Addr>)
    requires Distinct(sn) && admin.Knows(sn) && Ledger(admin, sn, owner0, owner0, true)
    requires Ordered(Balances(sn)) && Sum(Balances(sn)) <= 0
    requires forall j :: 0 <= j < |sn| ==> sn[j].balance <= |sn[j].Slots|
    modifies admin`log, admin`failures, admin`takeoverFailed, admin`migrationFailed, sn`Slots, sn`balance
    ensures panicked ==> !ok && old(Sum(Balances(sn))) != 0
    ensures LostKept(owner0, old(admin.log), admin.log)
    ensures ok ==> Ledger(admin, sn, owner0, owner, admin.failures == old(admin.failures))
    ensures ok && old(Sum(Balances(sn))) == 0 ==> forall j :: 0 <= j < |sn| ==>
      multiset(owner)[sn[j].IPPort()] as int == multiset(owner0)[sn[j].IPPort()] - old(sn[j].balance)
    ensures |owner| == |owner0|
    ensures panicked ==> Ledger(admin, sn, owner0, owner, admin.failures == old(admin.failures))
    ensures !ok && !panicked ==> Halted(admin, sn, owner0, owner, admin.failures == old(admin.failures) + 1)
    ensures !ok && !panicked && old(Sum(Balances(sn))) == 0 ==> forall j :: 0 <= j < |sn| ==>
      Gone(sn[j].IPPort(), old(sn[j].balance), owner0, owner)
    ensures ok && old(Sum(Balances(sn))) == 0 ==> Changed(owner0, owner) == Sum(Positive(old(Balances(sn))))
    ensures old(admin.failures) <= admin.failures && (admin.failures == old(admin.failures) ==> ok || panicked)
    ensures old(admin.Safe()) ==> admin.Safe()
  {
    hide Settled, AllSafe, Sum, Positive, Changed, Window, Loose, Draining, Balances, Held, Addrs, Ledger, Halted,
      HalfWay, Gone, Distinct, InStep, LostKept;
    ghost var orig := Balances(sn);
    LooseStart(orig);
    LostNothing(owner0, admin.log);
    owner := owner0;
    if Sum(orig) == 0 {
      WindowStart(orig);
      ChangedNothing(owner0);
      InStepStart(Addrs(sn), Held(sn), orig, owner0);
      DrainingNow(sn, orig, owner0, owner0, 0, |sn| - 1);
    }
    ok, panicked := true, false;
    var dstIdx, srcIdx := 0, |sn| - 1;
    while dstIdx < srcIdx
      invariant Loose(orig, Balances(sn), dstIdx, srcIdx)
      invariant Sum(orig) == 0 ==> Draining(sn, orig, owner0, owner, dstIdx, srcIdx)
      invariant Ledger(admin, sn, owner0, owner, admin.failures == old(admin.failures))
      invariant LostKept(owner0, old(admin.log), admin.log)
      invariant 0 <= dstIdx && srcIdx < |sn|
      invariant old(admin.failures) <= admin.failures && ok && !panicked && |owner| == |owner0|
      invariant old(admin.Safe()) ==> admin.Safe()
      decreases srcIdx - dstIdx, if dstIdx < |sn| then Abs(Balances(sn)[dstIdx]) else 0
    {
      ghost var was, failed := admin.log, admin.failures;
      ok, panicked, dstIdx, srcIdx, owner := DrainStep(admin, sn, dstIdx, srcIdx, orig, owner0, owner,
                                                       admin.failures == old(admin.failures));
      LostStill(owner0, old(admin.log), was, admin.log);
      if !ok {
        if !panicked {
          HaltedFirst(admin, sn, owner0, owner, failed == old(admin.failures) && admin.failures == failed + 1,
                      admin.failures == old(admin.failures) + 1);
          if Sum(orig) == 0 {
            HalfWayAt(sn, orig, owner0, owner);
          }
        }
        return;
      }
    }
    if Sum(orig) == 0 {
      Drained(sn, orig, owner0, owner, dstIdx, srcIdx);
    }
  }

  lemma HalfWayAt(sn: seq<Node>, b: seq<int>, owner0: seq<Addr>, owner: seq<Addr>)
    requires HalfWay(Addrs(sn), b, owner0, owner)
    ensures |b| == |sn| && forall j :: 0 <= j < |sn| ==> Gone(sn[j].IPPort(), b[j], owner0, owner)
  {
    hide Gone, Node.IPPort, Addrs;
    var addrs := Addrs(sn);
    forall j | 0 <= j < |sn| ensures Gone(sn[j].IPPort(), b[j], owner0, owner) {
      assert Gone(addrs[j], b[j], owner0, owner);
    }
  }

  lemma HaltedFirst(admin: Admin, nodes: seq<Node>, owner0: seq<Addr>, owner: seq<Addr>, clean: bool, clean': bool)
    requires Halted(admin, nodes, owner0, owner, clean) && (clean' ==> clean)
    ensures Halted(admin, nodes, owner0, owner, clean')
  {
    hide SettledAt, Holders, Unmoved;
    var s :| 0 <= s < |owner| && AccountsBut(admin.ids, admin.log, owner0, owner, clean, s);
    assert AccountsBut(admin.ids, admin.log, owner0, owner, clean', s);
  }

  lemma Drained(sn: seq<Node>, orig: seq<int>, owner0: seq<Addr>, owner: seq<Addr>, lo: int, hi: int)
    requires Draining(sn, orig, owner0, owner, lo, hi) && lo >= hi && |orig| == |sn|
    ensures forall j :: 0 <= j < |sn| ==>
      multiset(owner)[sn[j].IPPort()] as int == multiset(owner0)[sn[j].IPPort()] - orig[j]
    ensures Changed(owner0, owner) == Sum(Positive(orig))
  {
    hide Window, Changed, Sum, Positive, InStep;
    WindowClosed(orig, Balances(sn), lo, hi);
    SumZero(Positive(Balances(sn)));
    InStepEnd(Addrs(sn), orig, Held(sn), Balances(sn), owner0, owner);
  }

  lemma InStepStart(addrs: seq<Addr>, held: seq<int>, orig: seq<int>, owner0: seq<Addr>)
    requires |addrs| == |held| == |orig| && forall j :: 0 <= j < |held| ==> orig[j] <= held[j]
    ensures InStep(addrs, orig, held, orig, owner0, owner0)
  {
  }

  lemma InStepEnd(addrs: seq<Addr>, orig: seq<int>, held: seq<int>, cur: seq<int>, owner0: seq<Addr>, owner: seq<Addr>)
    requires InStep(addrs, orig, held, cur, owner0, owner)
    requires forall j :: 0 <= j < |cur| ==> cur[j] == 0
    ensures |owner| == |owner0| && |orig| == |addrs|
    ensures forall j :: 0 <= j < |addrs| ==> multiset(owner)[addrs[j]] as int == multiset(owner0)[addrs[j]] - orig[j]
  {
  }

  /** One turn of the loop, on the balances alone. */
  lemma PairStep(orig: seq<int>, cur: seq<int>, lo: int, hi: int, k: nat)
    requires Window(orig, cur, lo, hi) && lo < hi
    requires 0 <= lo && hi < |cur| && k == if Abs(cur[lo]) < Abs(cur[hi]) then Abs(cur[lo]) else Abs(cur[hi])
    ensures cur[lo] + k <= 0 && k <= cur[hi]
    ensures
      var next := cur[lo := cur[lo] + k][hi := cur[hi] - k];
      var lo', hi' := if next[lo] == 0 then lo + 1 else lo, if next[hi] == 0 then hi - 1 else hi;
      && Window(orig, next, lo', hi') && hi' - lo' < hi - lo
      && Sum(Positive(next)) == Sum(Positive(cur)) - k
  {
    WindowEnds(orig, cur, lo, hi);
    WindowStep(orig, cur, lo, hi, k);
    PositiveStep(cur, lo, hi, k);
  }

  lemma DistinctAddrs(sn: seq<Node>)
    requires Distinct(sn)
    ensures NoDup(Addrs(sn))
  {
  }

  lemma DistinctPair(sn: seq<Node>, i: nat, j: nat)
    requires Distinct(sn) && i < j < |sn|
    ensures forall m :: 0 <= m < |sn| && m != i ==> sn[m] != sn[i] && sn[m].IPPort() != sn[i].IPPort()
    ensures forall m :: 0 <= m < |sn| && m != j ==> sn[m] != sn[j] && sn[m].IPPort() != sn[j].IPPort()
  {
  }

  // ----- the whole scale-up

  /** Before a scale-up the cluster agrees with the masters' lists: every slot in a list is settled at the master that
      lists it. */
  ghost predicate Listed0(admin: Admin, nodes: seq<Node>, owner0: seq<Addr>)
    reads admin, nodes`Slots
  {
    && admin.Valid() && |owner0| == |admin.log|
    && (forall s :: 0 <= s < |owner0| && owner0[s] != "" ==> Settled(admin.ids, admin.Now(s), owner0[s]))
    && (forall a :: a in owner0 ==> a == "" || a in Addrs(nodes))
    && (forall n :: n in nodes ==> Lists(n, owner0))
  }

  /** And usually the lists divide the slots between them. */
  ghost predicate Divided(admin: Admin, nodes: seq<Node>, owner0: seq<Addr>)
    reads admin, nodes`Slots
  {
    Listed0(admin, nodes, owner0) && "" !in owner0
  }

  /** The node's list holds exactly the slots it owns, each once. */
  ghost predicate Lists(n: Node, owner: seq<Addr>)
    reads n`Slots
  {
    NoDup(n.Slots) && forall s :: s in n.Slots <==> 0 <= s < |owner| && owner[s] == n.IPPort()
  }

  lemma ListedLedger(admin: Admin, nodes: seq<Node>, sn: seq<Node>, owner0: seq<Addr>)
    requires Listed0(admin, nodes, owner0) && multiset(sn) == multiset(nodes)
    ensures Ledger(admin, sn, owner0, owner0, true)
  {
    forall n | n in sn ensures Unmoved(n, owner0, owner0) {
      assert n in multiset(nodes);
      assert Lists(n, owner0);
      AddrNotEmpty(n);
    }
  }

  lemma DividedCounts(admin: Admin, nodes: seq<Node>, owner0: seq<Addr>)
    requires Divided(admin, nodes, owner0) && Distinct(nodes)
    ensures forall j :: 0 <= j < |nodes| ==> multiset(owner0)[nodes[j].IPPort()] == |nodes[j].Slots|
    ensures Sum(Held(nodes)) == |owner0| == |admin.log|
  {
    forall j | 0 <= j < |nodes| ensures multiset(owner0)[nodes[j].IPPort()] == |nodes[j].Slots| {
      assert Lists(nodes[j], owner0);
      CountPositions(owner0, nodes[j].IPPort(), nodes[j].Slots);
    }
    DistinctAddrs(nodes);
    CountsSum(owner0, Addrs(nodes));
    assert Counts(owner0, Addrs(nodes)) == Held(nodes);
  }

  /** The sum loop. */
  method TotalBalance(nodes: seq<Node>) returns (total: int)
    ensures total == Sum(Balances(nodes))
  {
    total := 0;
    for i := 0 to |nodes|
      invariant total == Sum(Balances(nodes[..i]))
    {
      assert nodes[..i + 1][..i] == nodes[..i];
      total := total + nodes[i].balance;
    }
    assert nodes[..|nodes|] == nodes;
  }

  /** The balances after the remainder loop: they add up to nothing, or to less if there are slots in no list; and in
      the usual case every node's final size is its Quota. */
  method PrepareBalances(admin: Admin, nodes: seq<Node>, ghost owner0: seq<Addr>)
    requires |nodes| > 0 && Distinct(nodes)
    requires Sum(InitialBalances(Lens(nodes), |admin.log|)) > 0 ==>
      exists n :: n in nodes && |n.Slots| < |admin.log| / |nodes|
    modifies nodes`balance
    ensures Sum(Balances(nodes)) <= 0 && forall j :: 0 <= j < |nodes| ==> nodes[j].balance <= |nodes[j].Slots|
    ensures Divided(admin, nodes, owner0) ==> Sum(Balances(nodes)) == 0 && forall j :: 0 <= j < |nodes| ==>
      nodes[j].balance == |nodes[j].Slots| - Quota(Lens(nodes), |admin.log|, j)
  {
    hide Settled, Divided, Sum, Balances, Held, Lens, Negatives, Extra, Quota, Distinct, NoDup, InitialBalances;
    var slotCount := admin.SlotCount();
    ghost var lens := Lens(nodes);
    ghost var b := InitialBalances(lens, slotCount);
    DistinctNoDup(nodes);
    SetInitialBalances(nodes, slotCount);
    assert Balances(nodes) == b;
    var totalBalance := TotalBalance(nodes);
    if totalBalance > 0 {
      var n :| n in nodes && |n.Slots| < slotCount / |nodes|;
      var j :| 0 <= j < |nodes| && nodes[j] == n;
      assert b[j] < 0;
      NegativesMonotone(b, j);
    }
    ghost var divided := Divided(admin, nodes, owner0);
    if divided {
      DividedTotal(admin, nodes, owner0, b);
    }
    SpendRemainder(nodes, Max(0, totalBalance));
    assert Lens(nodes) == lens;
    QuotaLeft(lens, slotCount, Max(0, totalBalance));
  }

  /** The balances left are what a node has beyond its quota, and never more than it has. */
  lemma QuotaLeft(lens: seq<nat>, slotCount: nat, total: nat)
    requires |lens| > 0
    ensures var b := InitialBalances(lens, slotCount);
      && (forall j :: 0 <= j < |lens| ==> b[j] - Extra(b, total, j) <= lens[j])
      && (total == slotCount % |lens| ==> forall j :: 0 <= j < |lens| ==>
            b[j] - Extra(b, total, j) == lens[j] - Quota(lens, slotCount, j))
  {
    hide Extra;
  }

  lemma DividedTotal(admin: Admin, nodes: seq<Node>, owner0: seq<Addr>, b: seq<int>)
    requires |nodes| > 0 && Distinct(nodes) && Divided(admin, nodes, owner0)
    requires b == InitialBalances(Lens(nodes), |admin.log|)
    ensures Sum(b) == |admin.log| % |nodes|
  {
    hide Divided, Sum, Distinct, Held, Lens;
    var q := |admin.log| / |nodes|;
    DividedCounts(admin, nodes, owner0);
    SumShift(Held(nodes), b, -q);
    Remainder(|admin.log|, |nodes|);
  }

  lemma Remainder(a: nat, n: nat)
    requires n > 0
    ensures a % n == a + n * -(a / n)
  {
  }

  lemma {:induction false} BalancesIsSumOf(nodes: seq<Node>, m: map<Node, int>)
    requires forall n :: n in nodes ==> n in m && m[n] == n.balance
    ensures Sum(Balances(nodes)) == SumOf(m, nodes)
  {
    if nodes != [] {
      BalancesIsSumOf(nodes[..|nodes| - 1], m);
      assert Balances(nodes)[..|nodes| - 1] == Balances(nodes[..|nodes| - 1]);
    }
  }

  lemma SumBalancesPermutation(nodes: seq<Node>, sn: seq<Node>)
    requires multiset(nodes) == multiset(sn)
    ensures Sum(Balances(nodes)) == Sum(Balances(sn))
  {
    forall n | n in sn ensures n in nodes {
      assert n in multiset(sn);
    }
    var m := map n | n in nodes :: n.balance;
    SumPermutation(m, nodes, sn);
    BalancesIsSumOf(nodes, m);
    BalancesIsSumOf(sn, m);
  }

  /** Every slot is settled at its owner in the list. */
  ghost predicate AllSettled(admin: Admin, owner: seq<Addr>)
    reads admin
  {
    && admin.Valid() && |owner| == |admin.log|
    && (forall s :: 0 <= s < |owner| ==> Settled(admin.ids, admin.Now(s), owner[s]))
  }

  lemma LedgerSettled(admin: Admin, nodes: seq<Node>, owner0: seq<Addr>, owner: seq<Addr>)
    requires Ledger(admin, nodes, owner0, owner, true) && "" !in owner0
    ensures AllSettled(admin, owner)
  {
  }

  /** No other way to the same sizes needs fewer moves. */
  ghost predicate FewestMoves(nodes: seq<Node>, owner0: seq<Addr>, owner: seq<Addr>) {
    && |owner| == |owner0|
    && (forall other: seq<Addr> ::
          |other| == |owner0| && Counts(other, Addrs(nodes)) == Counts(owner, Addrs(nodes)) ==>
          Changed(owner0, owner) <= Changed(owner0, other))
  }

  lemma SurplusIsFewest(nodes: seq<Node>, owner0: seq<Addr>, owner: seq<Addr>, b: seq<int>)
    requires Distinct(nodes) && |owner| == |owner0| && |b| == |nodes|
    requires forall j :: 0 <= j < |nodes| ==>
      multiset(owner)[nodes[j].IPPort()] as int == multiset(owner0)[nodes[j].IPPort()] - b[j]
    requires Changed(owner0, owner) == Sum(Positive(b))
    ensures FewestMoves(nodes, owner0, owner)
  {
    hide Changed, Sum, Positive, Minus, Counts, Addrs, Distinct, NoDup;
    var xs := Addrs(nodes);
    DistinctAddrs(nodes);
    var surplus := Minus(Counts(owner0, xs), Counts(owner, xs));
    forall j | 0 <= j < |nodes| ensures surplus[j] == b[j] {
      assert xs[j] == nodes[j].IPPort();
    }
    assert surplus == b;
    forall other: seq<Addr> | |other| == |owner0| && Counts(other, xs) == Counts(owner, xs)
      ensures Changed(owner0, owner) <= Changed(owner0, other)
    {
      MovesLowerBound(owner0, other, xs);
    }
  }

  /** RebalancedCluster.  When the masters' lists divide the slots between them and some master is below its
      share (or there is no remainder), a run without a failed command ends with every slot settled at one
      owner, every master at its Quota, and no more slots moved than any way to these sizes has to move.
      When a hand-over is broken off the run ends there: all other slots are where the ledger says, and every master is
      somewhere between the size it had and its quota.
      Whatever commands fail, every step the slots go through is a safe one.  A slot in no list is not touched, in any
      run: so what an aborted creation has left without an owner stays so; and only then may the run panic. */
  method RebalancedCluster(admin: Admin, newMasterNodes: seq<Node>, ghost owner0: seq<Addr>)
    returns (ok: bool, panicked: bool, ghost owner: seq<Addr>)
    requires |newMasterNodes| > 0 && Distinct(newMasterNodes) && admin.Knows(newMasterNodes)
    requires Listed0(admin, newMasterNodes, owner0)
    requires Sum(InitialBalances(Lens(newMasterNodes), |admin.log|)) > 0 ==>
      exists n :: n in newMasterNodes && |n.Slots| < |admin.log| / |newMasterNodes|
    modifies admin`log, admin`failures, admin`takeoverFailed, admin`migrationFailed,
             newMasterNodes`Slots, newMasterNodes`balance
    ensures panicked ==> !ok && "" in owner0
    ensures LostKept(owner0, old(admin.log), admin.log)
    ensures admin.failures == old(admin.failures) ==> ok || panicked
    ensures |owner| == |owner0| && GivenToMasters(admin.replicaOf, owner0, owner)
    ensures !ok && !panicked ==> Halted(admin, newMasterNodes, owner0, owner, admin.failures == old(admin.failures) + 1)
    ensures !ok && "" !in owner0 ==> PartWay(newMasterNodes, old(Lens(newMasterNodes)), old(|admin.log|), owner)
    ensures forall n :: n in newMasterNodes ==> Unmoved(n, owner0, owner)
    ensures "" !in owner0 && admin.failures == old(admin.failures) ==> AllSettled(admin, owner)
    ensures ok && "" !in owner0 ==> forall j :: 0 <= j < |newMasterNodes| ==>
      multiset(owner)[newMasterNodes[j].IPPort()] == Quota(old(Lens(newMasterNodes)), old(|admin.log|), j)
    ensures ok && "" !in owner0 ==> FewestMoves(newMasterNodes, owner0, owner)
    ensures ok && "" !in owner0 ==>
      2 * Changed(owner0, owner) == Sum(Absolute(Gaps(old(Lens(newMasterNodes)), old(|admin.log|))))
    ensures admin.failures >= old(admin.failures)
    ensures old(admin.Safe()) ==> admin.Safe()
  {
    hide Settled, AllSettled, AllSafe, Sum, Positive, Changed, Balances, Lens, Ordered, NoDup, Listed0, Divided, Ledger,
      GivenToMasters, Halted, Gone, PartWay, Unmoved, Quota, Gaps, Absolute, FewestMoves, LostKept, Distinct,
      Node.IPPort;
    ghost var lens := Lens(newMasterNodes);
    PrepareBalances(admin, newMasterNodes, owner0);
    ghost var b := Balances(newMasterNodes);
    var sn := SortByFunc(newMasterNodes, (n: Node) reads n => n.balance);
    Sorted(newMasterNodes, sn);
    ListedLedger(admin, newMasterNodes, sn, owner0);
    if "" !in owner0 {
      DividedNow(admin, newMasterNodes, owner0);
      DividedCounts(admin, newMasterNodes, owner0);
    }
    assert forall j :: 0 <= j < |sn| ==> sn[j] in newMasterNodes;
    LensSizes(newMasterNodes);
    ok, panicked, owner := Drain(admin, sn, owner0);
    if ok || panicked {
      LedgerGives(admin, sn, owner0, owner, admin.failures == old(admin.failures), sn[0]);
      forall n | n in newMasterNodes ensures Unmoved(n, owner0, owner) {
        LedgerGives(admin, sn, owner0, owner, admin.failures == old(admin.failures), n);
      }
    } else {
      HaltedPermutation(admin, newMasterNodes, sn, owner0, owner, admin.failures == old(admin.failures) + 1);
      if "" !in owner0 {
        forall j | 0 <= j < |newMasterNodes| ensures Gone(newMasterNodes[j].IPPort(), b[j], owner0, owner) {
          assert newMasterNodes[j] in sn;
        }
        PartWayNow(newMasterNodes, lens, old(|admin.log|), owner0, owner, b);
      }
    }
    if ok && "" !in owner0 {
      forall j | 0 <= j < |newMasterNodes|
        ensures multiset(owner)[newMasterNodes[j].IPPort()] as int ==
          multiset(owner0)[newMasterNodes[j].IPPort()] - b[j]
      {
        assert newMasterNodes[j] in sn;
      }
      SharedOut(newMasterNodes, lens, old(|admin.log|), owner0, owner, b);
      if admin.failures == old(admin.failures) {
        LedgerSettled(admin, sn, owner0, owner);
      }
    }
  }

  /** Every master owns between as many slots as it had and as many as it is to have. */
  ghost predicate PartWay(nodes: seq<Node>, lens: seq<nat>, slotCount: nat, owner: seq<Addr>) {
    && |lens| == |nodes|
    && (forall j :: 0 <= j < |nodes| ==>
          Between(lens[j] - Quota(lens, slotCount, j), lens[j] as int - multiset(owner)[nodes[j].IPPort()]))
  }

  lemma PartWayNow(nodes: seq<Node>, lens: seq<nat>, slotCount: nat, owner0: seq<Addr>, owner: seq<Addr>, b: seq<int>)
    requires |b| == |nodes| == |lens|
    requires forall j :: 0 <= j < |nodes| ==> Gone(nodes[j].IPPort(), b[j], owner0, owner)
    requires forall j :: 0 <= j < |nodes| ==> multiset(owner0)[nodes[j].IPPort()] == lens[j]
    requires forall j :: 0 <= j < |nodes| ==> b[j] == lens[j] - Quota(lens, slotCount, j)
    ensures PartWay(nodes, lens, slotCount, owner)
  {
    hide Between, Quota, Node.IPPort;
  }

  lemma HaltedPermutation(admin: Admin, nodes: seq<Node>, sn: seq<Node>, owner0: seq<Addr>, owner: seq<Addr>,
                          clean: bool)
    requires Halted(admin, sn, owner0, owner, clean) && forall n :: n in nodes ==> n in sn
    ensures Halted(admin, nodes, owner0, owner, clean)
    ensures |owner| == |owner0| && GivenToMasters(admin.replicaOf, owner0, owner)
    ensures forall n :: n in nodes ==> Unmoved(n, owner0, owner)
  {
    hide AccountsBut, Unmoved;
  }

  lemma DividedNow(admin: Admin, nodes: seq<Node>, owner0: seq<Addr>)
    requires Listed0(admin, nodes, owner0) && "" !in owner0
    ensures Divided(admin, nodes, owner0)
  {
    hide Listed0;
  }

  lemma LensSizes(nodes: seq<Node>)
    ensures |Lens(nodes)| == |Balances(nodes)| == |nodes|
    ensures forall j :: 0 <= j < |nodes| ==> Lens(nodes)[j] == |nodes[j].Slots|
    ensures forall j :: 0 <= j < |nodes| ==> Balances(nodes)[j] == nodes[j].balance
  {
  }

  /** Sorting changes nothing but the order. */
  lemma Sorted(nodes: seq<Node>, sn: seq<Node>)
    requires Distinct(nodes) && multiset(sn) == multiset(nodes)
    requires forall i, j :: 0 <= i < j < |sn| ==> sn[i].balance <= sn[j].balance
    ensures Distinct(sn) && NoDup(sn) && |sn| == |nodes| && forall n :: n in sn <==> n in nodes
    ensures Ordered(Balances(sn)) && Sum(Balances(sn)) == Sum(Balances(nodes))
    ensures Sum(Positive(Balances(sn))) == Sum(Positive(Balances(nodes)))
    ensures (forall j :: 0 <= j < |nodes| ==> nodes[j].balance <= |nodes[j].Slots|) ==>
      forall j :: 0 <= j < |sn| ==> sn[j].balance <= |sn[j].Slots|
  {
    hide Distinct, NoDup, Sum, Positive, Balances;
    DistinctPermutation(nodes, sn);
    SumBalancesPermutation(nodes, sn);
    SurplusPermutation(nodes, sn);
    assert |multiset(sn)| == |multiset(nodes)|;
    forall n ensures n in sn <==> n in nodes {
      assert n in multiset(sn) <==> n in multiset(nodes);
    }
    if forall j :: 0 <= j < |nodes| ==> nodes[j].balance <= |nodes[j].Slots| {
      forall j | 0 <= j < |sn| ensures sn[j].balance <= |sn[j].Slots| {
        assert sn[j] in nodes;
      }
    }
  }

  /** What the final counts come to. */
  lemma SharedOut(nodes: seq<Node>, lens: seq<nat>, slotCount: nat, owner0: seq<Addr>, owner: seq<Addr>, b: seq<int>)
    requires Distinct(nodes) && |owner| == |owner0| && |b| == |nodes| == |lens|
    requires forall j :: 0 <= j < |nodes| ==>
      multiset(owner)[nodes[j].IPPort()] as int == multiset(owner0)[nodes[j].IPPort()] - b[j]
    requires forall j :: 0 <= j < |nodes| ==> multiset(owner0)[nodes[j].IPPort()] == lens[j]
    requires forall j :: 0 <= j < |nodes| ==> b[j] == lens[j] - Quota(lens, slotCount, j)
    requires Sum(b) == 0 && Changed(owner0, owner) == Sum(Positive(b))
    ensures forall j :: 0 <= j < |nodes| ==> multiset(owner)[nodes[j].IPPort()] == Quota(lens, slotCount, j)
    ensures FewestMoves(nodes, owner0, owner)
    ensures 2 * Changed(owner0, owner) == Sum(Absolute(Gaps(lens, slotCount)))
  {
    hide Distinct, Changed, Sum, Positive, Absolute, FewestMoves, Quota, Gaps, Node.IPPort;
    SurplusIsFewest(nodes, owner0, owner, b);
    assert b == Gaps(lens, slotCount);
    HalfOfDifferences(b);
  }

  lemma {:induction false} SurplusIsSumOf(nodes: seq<Node>, m: map<Node, int>)
    requires forall n :: n in nodes ==> n in m && m[n] == Max(0, n.balance)
    ensures Sum(Positive(Balances(nodes))) == SumOf(m, nodes)
  {
    if nodes != [] {
      SurplusIsSumOf(nodes[..|nodes| - 1], m);
      assert Balances(nodes)[..|nodes| - 1] == Balances(nodes[..|nodes| - 1]);
      assert Positive(Balances(nodes))[..|nodes| - 1] == Positive(Balances(nodes[..|nodes| - 1]));
    }
  }

  lemma SurplusPermutation(nodes: seq<Node>, sn: seq<Node>)
    requires multiset(nodes) == multiset(sn)
    ensures Sum(Positive(Balances(nodes))) == Sum(Positive(Balances(sn)))
  {
    forall n | n in sn ensures n in nodes {
      assert n in multiset(sn);
    }
    var m := map n | n in nodes :: Max(0, n.balance);
    SumPermutation(m, nodes, sn);
    SurplusIsSumOf(nodes, m);
    SurplusIsSumOf(sn, m);
  }
}
