/** The Redis side: what the administration commands of pkg/redisutil/admin.go do to a live cluster.

    Commands follow "Live reconfiguration" in the Redis Cluster Specification.  Every command of the
    hand-over protocol concerns one hash slot, so the cluster is kept slot by slot: for each slot, who
    each node believes the owner to be, which keys each node stores, and the two transition marks.  A
    node owns a slot when its own view says so.  Any command may fail, and then it has no effect. */
module Redis {
  import opened Slots
  import opened Nodes

  type Key = string

  datatype SlotState = SlotState(
    view: map<Addr, NodeID>,
    keys: map<Addr, set<Key>>,
    importing: map<Addr, NodeID>,
    migrating: map<Addr, NodeID>)

  datatype Action = IMPORTING | MIGRATING | NODE

  /** The nodes that believe they own the slot. */
  function Holders(ids: map<Addr, NodeID>, st: SlotState): set<Addr> {
    set a | a in ids && a in st.view && st.view[a] == ids[a]
  }

  function KeysAt(st: SlotState, a: Addr): set<Key> {
    if a in st.keys then st.keys[a] else {}
  }

  function AllKeys(st: SlotState): set<Key> {
    set a, k | a in st.keys && k in st.keys[a] :: k
  }

  /** Node `a` is the only owner and has every key of the slot. */
  predicate Settled(ids: map<Addr, NodeID>, st: SlotState, a: Addr) {
    Holders(ids, st) == {a} && KeysAt(st, a) == AllKeys(st)
  }

  // ----- the effect of one command on one slot

  /** CLUSTER SETSLOT.  Assigning a slot clears the migrating mark of a node that has none of its keys,
      and the importing mark of a node that takes the slot itself. */
  function SetSlotEffect(ids: map<Addr, NodeID>, st: SlotState, a: Addr, action: Action, id: NodeID): SlotState
    requires a in ids
  {
    match action
    case IMPORTING => st.(importing := st.importing[a := id])
    case MIGRATING => st.(migrating := st.migrating[a := id])
    case NODE => st.(view := st.view[a := id],
                     importing := if id == ids[a] then st.importing - {a} else st.importing,
                     migrating := if KeysAt(st, a) == {} then st.migrating - {a} else st.migrating)
  }

  /** An owner does not import, only an owner migrates, and an owner keeps a slot whose keys it still has. */
  predicate SetSlotRefused(ids: map<Addr, NodeID>, st: SlotState, a: Addr, action: Action, id: NodeID)
    requires a in ids
  {
    match action
    case IMPORTING => a in Holders(ids, st)
    case MIGRATING => a !in Holders(ids, st)
    case NODE => a in Holders(ids, st) && id != ids[a] && KeysAt(st, a) != {}
  }

  /** CLUSTER ADDSLOTS, for one of its slots; it is refused when the node already knows an owner. */
  function AddSlotEffect(ids: map<Addr, NodeID>, st: SlotState, a: Addr): SlotState
    requires a in ids
  {
    st.(view := st.view[a := ids[a]])
  }

  /** MIGRATE ... REPLACE KEYS: the keys leave the source once the destination has them. */
  function TransferEffect(st: SlotState, src: Addr, dst: Addr, ks: set<Key>): SlotState {
    var taken := st.keys[src := KeysAt(st, src) - ks];
    st.(keys := taken[dst := (if dst in taken then taken[dst] else {}) + ks])
  }

  lemma SetSlotHolders(ids: map<Addr, NodeID>, st: SlotState, a: Addr, action: Action, id: NodeID)
    requires a in ids
    ensures var st' := SetSlotEffect(ids, st, a, action, id);
      && st'.keys == st.keys
      && Holders(ids, st') == (if action != NODE then Holders(ids, st)
                               else if id == ids[a] then Holders(ids, st) + {a}
                               else Holders(ids, st) - {a})
  {
  }

  lemma AddSlotHolders(ids: map<Addr, NodeID>, st: SlotState, a: Addr)
    requires a in ids
    ensures Holders(ids, AddSlotEffect(ids, st, a)) == Holders(ids, st) + {a}
    ensures AllKeys(AddSlotEffect(ids, st, a)) == AllKeys(st)
  {
  }

  lemma TransferKeys(st: SlotState, src: Addr, dst: Addr, ks: set<Key>)
    requires ks <= KeysAt(st, src) && src != dst
    ensures var st' := TransferEffect(st, src, dst, ks);
      && AllKeys(st') == AllKeys(st)
      && KeysAt(st', src) == KeysAt(st, src) - ks
      && KeysAt(st', dst) == KeysAt(st, dst) + ks
  {
    var st' := TransferEffect(st, src, dst, ks);
    forall k | k in AllKeys(st) ensures k in AllKeys(st') {
      var a :| a in st.keys && k in st.keys[a];
      var b := if a == src && k in ks then dst else a;
      assert b in st'.keys && k in st'.keys[b];
    }
    forall k | k in AllKeys(st') ensures k in AllKeys(st) {
      var a :| a in st'.keys && k in st'.keys[a];
      var b := if a == dst && k in ks then src else a;
      assert b in st.keys && k in st.keys[b];
    }
  }

  // ----- what a run must keep

  /** Keys come only to a node that is importing the slot and go only from one that is migrating it; and no node
      begins to migrate a slot before some node imports it. */
  ghost predicate ByMarks(pre: SlotState, post: SlotState) {
    && (forall a :: KeysAt(post, a) <= KeysAt(pre, a) || a in pre.importing)
    && (forall a :: KeysAt(pre, a) <= KeysAt(post, a) || a in pre.migrating)
    && (forall a :: a in post.migrating ==> a in pre.migrating || pre.importing != map[])
  }

  /** One step of a run is safe for a slot when no key is lost, and keys move by the marks only; when, unless a takeover
      command for the slot has failed, an owned slot stays owned; and when, unless a key migration of the slot has
      failed, a node takes over an owned slot only with all of its keys already there. */
  ghost predicate SafeStep(ids: map<Addr, NodeID>, pre: SlotState, post: SlotState, takeoverOk: bool, migrationOk: bool)
  {
    && AllKeys(post) == AllKeys(pre) && ByMarks(pre, post)
    && (takeoverOk && Holders(ids, pre) != {} ==> Holders(ids, post) != {})
    && (migrationOk && Holders(ids, pre) != {} ==>
          forall a :: a in Holders(ids, post) && a !in Holders(ids, pre) ==> KeysAt(pre, a) == AllKeys(pre))
  }

  /** `run` is everything a slot has been through, oldest state first.  `until` is how much of it there was when a
      takeover command for the slot first failed, or all of it if none has. */
  ghost predicate SafeRun(ids: map<Addr, NodeID>, run: seq<SlotState>, until: nat, migrationOk: bool) {
    forall i :: 0 < i < |run| ==> SafeStep(ids, run[i - 1], run[i], i < until, migrationOk)
  }

  /** Crash safety: wherever a safe run is cut off, no key of the slot is gone; and wherever it is cut off before a
      takeover command has failed, a slot that was owned at the start is still owned by somebody. */
  lemma {:induction false} CutOffAnywhere(ids: map<Addr, NodeID>, run: seq<SlotState>, until: nat, migrationOk: bool,
                                          k: nat)
    requires k < |run| && SafeRun(ids, run, until, migrationOk)
    ensures AllKeys(run[k]) == AllKeys(run[0])
    ensures k < until && Holders(ids, run[0]) != {} ==> Holders(ids, run[k]) != {}
  {
    if k > 0 {
      CutOffAnywhere(ids, run, until, migrationOk, k - 1);
      assert SafeStep(ids, run[k - 1], run[k], k < until, migrationOk);
    }
  }

  /** And wherever it is cut off, a node has keys it did not start with only if it has been told to import the slot. */
  lemma {:induction false} KeysByMarks(ids: map<Addr, NodeID>, run: seq<SlotState>, until: nat, migrationOk: bool,
                                       k: nat, a: Addr)
    requires k < |run| && SafeRun(ids, run, until, migrationOk)
    ensures KeysAt(run[k], a) <= KeysAt(run[0], a) || exists i :: 0 <= i < k && a in run[i].importing
  {
    hide Holders, KeysAt, AllKeys;
    if k > 0 {
      KeysByMarks(ids, run, until, migrationOk, k - 1, a);
      assert SafeStep(ids, run[k - 1], run[k], k < until, migrationOk);
    }
  }

  /** The two final commands of a hand-over each may fail on their own.  The slot is left without an owner
      in exactly one case: the destination did not take it and the source let it go. */
  lemma HandOverOutcome(ids: map<Addr, NodeID>, st: SlotState, src: Addr, dst: Addr, dstTold: bool, srcTold: bool)
    requires src in ids && dst in ids && ids[src] != ids[dst]
    requires Holders(ids, st) == {src}
    ensures
      var st1 := if dstTold then SetSlotEffect(ids, st, dst, NODE, ids[dst]) else st;
      var st2 := if srcTold then SetSlotEffect(ids, st1, src, NODE, ids[dst]) else st1;
      && Holders(ids, st2) == (if srcTold then {} else {src}) + (if dstTold then {dst} else {})
      && (Holders(ids, st2) != {} <==> dstTold || !srcTold)
  {
    SetSlotHolders(ids, st, dst, NODE, ids[dst]);
    var st1 := if dstTold then SetSlotEffect(ids, st, dst, NODE, ids[dst]) else st;
    SetSlotHolders(ids, st1, src, NODE, ids[dst]);
  }

  /** A safe run stays safe when one more safe step is added. */
  lemma SafeRunExtend(ids: map<Addr, NodeID>, run: seq<SlotState>, st: SlotState, until: nat, until': nat,
                      migrationOk: bool)
    requires run != [] && SafeRun(ids, run, until, migrationOk) && (until' <= until || until >= |run|)
    requires SafeStep(ids, run[|run| - 1], st, |run| < until', migrationOk)
    ensures SafeRun(ids, run + [st], until', migrationOk)
  {
    var r := run + [st];
    forall i | 0 < i < |r| ensures SafeStep(ids, r[i - 1], r[i], i < until', migrationOk) {
      if i < |run| {
        assert SafeStep(ids, run[i - 1], run[i], i < until, migrationOk);
      }
    }
  }

  /** How much of the slot's run goes by the promise that an owned slot stays owned. */
  function Until(takeoverFailed: map<Slot, nat>, s: Slot, run: seq<SlotState>): nat {
    if s in takeoverFailed then takeoverFailed[s] else |run|
  }

  /** Every slot's run is safe, as far as the commands that did not fail go. */
  ghost predicate AllSafe(ids: map<Addr, NodeID>, log: seq<seq<SlotState>>, takeoverFailed: map<Slot, nat>,
                          migrationFailed: set<Slot>)
  {
    && (forall s :: 0 <= s < |log| && s in takeoverFailed ==> takeoverFailed[s] <= |log[s]|)
    && (forall s :: 0 <= s < |log| ==>
          SafeRun(ids, log[s], Until(takeoverFailed, s, log[s]), s !in migrationFailed))
  }

  lemma AllSafeWeaken(ids: map<Addr, NodeID>, log: seq<seq<SlotState>>, t: map<Slot, nat>, m: set<Slot>, m': set<Slot>)
    requires AllSafe(ids, log, t, m) && m <= m'
    ensures AllSafe(ids, log, t, m')
  {
    forall s | 0 <= s < |log| ensures SafeRun(ids, log[s], Until(t, s, log[s]), s !in m') {
      var run, until := log[s], Until(t, s, log[s]);
      forall i | 0 < i < |run| ensures SafeStep(ids, run[i - 1], run[i], i < until, s !in m') {
        assert SafeStep(ids, run[i - 1], run[i], i < until, s !in m);
      }
    }
  }

  /** A takeover of the slot has failed just now: the first failure counts. */
  function FailedNow(t: map<Slot, nat>, s: Slot, run: seq<SlotState>): map<Slot, nat> {
    if s in t then t else t[s := |run|]
  }

  /** The takeover has failed of those slots that nothing has happened to. */
  function Noted(t: map<Slot, nat>, slots: seq<Slot>, was: seq<seq<SlotState>>,
                 log: seq<seq<SlotState>>): map<Slot, nat>
  {
    (map s | s in slots && s < |log| && s < |was| && log[s] == was[s] :: |log[s]|) + t
  }

  lemma NotedNothing(t: map<Slot, nat>, log: seq<seq<SlotState>>)
    ensures Noted(t, [], log, log) == t
  {
  }

  lemma NotedAt(t: map<Slot, nat>, slots: seq<Slot>, was: seq<seq<SlotState>>, log: seq<seq<SlotState>>, s: Slot)
    ensures s in Noted(t, slots, was, log) <==>
      s in t || (s in slots && s < |log| && s < |was| && log[s] == was[s])
    ensures s in Noted(t, slots, was, log) ==> Noted(t, slots, was, log)[s] == if s in t then t[s] else |log[s]|
  {
  }

  lemma NotedKeys(t: map<Slot, nat>, slots: seq<Slot>, was: seq<seq<SlotState>>, log: seq<seq<SlotState>>)
    ensures t.Keys <= Noted(t, slots, was, log).Keys <= t.Keys + ToSet(slots)
  {
  }

  lemma NotedNext(t: map<Slot, nat>, slots: seq<Slot>, i: nat, was: seq<seq<SlotState>>, log: seq<seq<SlotState>>,
                  log': seq<seq<SlotState>>)
    requires NoDup(slots) && i < |slots| && |log'| == |log| == |was| && slots[i] < |log|
    requires forall s :: 0 <= s < |log| && s != slots[i] ==> log'[s] == log[s]
    ensures Noted(t, slots[..i + 1], was, log') ==
      if log'[slots[i]] == was[slots[i]] then FailedNow(Noted(t, slots[..i], was, log), slots[i], log'[slots[i]])
      else Noted(t, slots[..i], was, log)
  {
    hide Noted;
    var next := slots[..i + 1];
    assert next == slots[..i] + [slots[i]] && slots[i] !in slots[..i];
    var r := if log'[slots[i]] == was[slots[i]] then FailedNow(Noted(t, slots[..i], was, log), slots[i], log'[slots[i]])
             else Noted(t, slots[..i], was, log);
    forall s ensures s in Noted(t, next, was, log') <==> s in r
             ensures s in r ==> Noted(t, next, was, log')[s] == r[s]
    {
      NotedAt(t, next, was, log', s);
      NotedAt(t, slots[..i], was, log, s);
    }
  }

  lemma AllSafeFailed(ids: map<Addr, NodeID>, log: seq<seq<SlotState>>, t: map<Slot, nat>, m: set<Slot>, s: Slot)
    requires AllSafe(ids, log, t, m) && s < |log|
    ensures AllSafe(ids, log, FailedNow(t, s, log[s]), m)
  {
    hide SafeRun;
  }

  lemma AllSafeExtend(ids: map<Addr, NodeID>, log: seq<seq<SlotState>>, t: map<Slot, nat>, m: set<Slot>, s: Slot,
                      st: SlotState)
    requires AllSafe(ids, log, t, m) && s < |log| && log[s] != []
    requires SafeStep(ids, log[s][|log[s]| - 1], st, s !in t, s !in m)
    ensures AllSafe(ids, log[s := log[s] + [st]], t, m)
  {
    hide SafeRun, SafeStep;
    SafeRunExtend(ids, log[s], st, Until(t, s, log[s]), Until(t, s, log[s] + [st]), s !in m);
  }

  /** The command was accepted and changed the slot's state from `was` to `now`. */
  ghost predicate Obeyed(ids: map<Addr, NodeID>, was: seq<SlotState>, now: seq<SlotState>,
                         a: Addr, action: Action, id: NodeID)
    requires was != []
  {
    && a in ids
    && !SetSlotRefused(ids, was[|was| - 1], a, action, id)
    && now == was + [SetSlotEffect(ids, was[|was| - 1], a, action, id)]
  }

  /** Between `orig` and `st` some keys have gone from `src` to `dst`, and nothing else has happened. */
  ghost predicate Moving(orig: SlotState, st: SlotState, src: Addr, dst: Addr) {
    && st.view == orig.view && st.importing == orig.importing && st.migrating == orig.migrating
    && AllKeys(st) == AllKeys(orig)
    && KeysAt(st, src) <= KeysAt(orig, src)
    && KeysAt(st, dst) == KeysAt(orig, dst) + (KeysAt(orig, src) - KeysAt(st, src))
  }

  /** What a slot has been through has grown, and only keys have moved. */
  ghost predicate KeysSent(was: seq<SlotState>, now: seq<SlotState>, src: Addr, dst: Addr) {
    was != [] && was <= now && Moving(was[|was| - 1], now[|now| - 1], src, dst)
  }

  /** The node has no key of the slot now. */
  ghost predicate Emptied(now: seq<SlotState>, a: Addr) {
    now != [] && KeysAt(now[|now| - 1], a) == {}
  }

  lemma NothingSent(was: seq<SlotState>, src: Addr, dst: Addr)
    requires was != []
    ensures KeysSent(was, was, src, dst)
  {
  }

  lemma MovingNothing(st: SlotState, src: Addr, dst: Addr)
    ensures Moving(st, st, src, dst)
  {
  }

  lemma MovingStep(orig: SlotState, st: SlotState, src: Addr, dst: Addr, ks: set<Key>)
    requires src != dst && Moving(orig, st, src, dst) && ks <= KeysAt(st, src)
    ensures Moving(orig, TransferEffect(st, src, dst, ks), src, dst)
    ensures KeysAt(TransferEffect(st, src, dst, ks), src) == KeysAt(st, src) - ks
    ensures |KeysAt(st, src) - ks| == |KeysAt(st, src)| - |ks|
  {
    TransferKeys(st, src, dst, ks);
    assert KeysAt(st, src) == (KeysAt(st, src) - ks) + ks;
  }

  // ----- the steps of a hand-over

  /** The two marks change neither owners nor keys; and only in this order are they safe to send. */
  lemma MarkStep(ids: map<Addr, NodeID>, st: SlotState, a: Addr, action: Action, id: NodeID, takeoverOk: bool,
                 migrationOk: bool)
    requires a in ids && action != NODE
    ensures var st' := SetSlotEffect(ids, st, a, action, id);
      && Holders(ids, st') == Holders(ids, st) && st'.keys == st.keys
      && st'.importing == (if action == IMPORTING then st.importing[a := id] else st.importing)
      && st'.migrating == (if action == MIGRATING then st.migrating[a := id] else st.migrating)
      && (action == IMPORTING || st.importing != map[] ==> SafeStep(ids, st, st', takeoverOk, migrationOk))
  {
    SetSlotHolders(ids, st, a, action, id);
  }

  /** Once the source has been emptied the destination has everything, and the source is still the owner. */
  lemma Migrated(ids: map<Addr, NodeID>, orig: SlotState, st: SlotState, src: Addr, dst: Addr)
    requires Holders(ids, orig) == {src} && Moving(orig, st, src, dst)
    ensures Holders(ids, st) == {src}
    ensures KeysAt(orig, src) == AllKeys(orig) && KeysAt(st, src) == {} ==> KeysAt(st, dst) == AllKeys(st)
  {
    assert KeysAt(orig, dst) <= AllKeys(orig);
  }

  /** The destination takes the slot. */
  lemma TakeStep(ids: map<Addr, NodeID>, st: SlotState, src: Addr, dst: Addr, takeoverOk: bool, migrationOk: bool)
    requires dst in ids && Holders(ids, st) == {src}
    requires migrationOk ==> KeysAt(st, dst) == AllKeys(st)
    ensures var st' := SetSlotEffect(ids, st, dst, NODE, ids[dst]);
      && Holders(ids, st') == {src, dst} && st'.keys == st.keys
      && SafeStep(ids, st, st', takeoverOk, migrationOk)
  {
    SetSlotHolders(ids, st, dst, NODE, ids[dst]);
  }

  /** Another node learns that the slot is not its own: safe as long as somebody else has it. */
  lemma ReleaseStep(ids: map<Addr, NodeID>, st: SlotState, a: Addr, id: NodeID, takeoverOk: bool, migrationOk: bool)
    requires a in ids && id != ids[a]
    requires takeoverOk && Holders(ids, st) != {} ==> Holders(ids, st) != {a}
    ensures var st' := SetSlotEffect(ids, st, a, NODE, id);
      && Holders(ids, st') == Holders(ids, st) - {a} && st'.keys == st.keys
      && SafeStep(ids, st, st', takeoverOk, migrationOk)
  {
    SetSlotHolders(ids, st, a, NODE, id);
    if takeoverOk && Holders(ids, st) != {} {
      var b :| b in Holders(ids, st) && b != a;
      assert b in Holders(ids, st) - {a};
    }
  }

  /** A slot without an owner gets its first one. */
  lemma AddStep(ids: map<Addr, NodeID>, st: SlotState, a: Addr, takeoverOk: bool, migrationOk: bool)
    requires a in ids && Holders(ids, st) == {}
    ensures SafeStep(ids, st, AddSlotEffect(ids, st, a), takeoverOk, migrationOk)
  {
    AddSlotHolders(ids, st, a);
  }

  /** The slot is on its way from one node to the other, as both of them know. */
  predicate Marked(st: SlotState, src: Addr, dst: Addr) {
    src in st.migrating && dst in st.importing
  }

  ghost predicate AllMarked(log: seq<seq<SlotState>>, slots: seq<Slot>, src: Addr, dst: Addr) {
    forall s :: s in slots && s < |log| && log[s] != [] ==> Marked(log[s][|log[s]| - 1], src, dst)
  }

  lemma MarkedAt(log: seq<seq<SlotState>>, slots: seq<Slot>, src: Addr, dst: Addr, s: Slot)
    requires AllMarked(log, slots, src, dst) && s in slots && s < |log| && log[s] != []
    ensures Marked(log[s][|log[s]| - 1], src, dst)
  {
  }

  /** What the two marks say: `dst` imports from one node, `src` migrates to another. */
  ghost predicate Naming(st: SlotState, dst: Addr, source: NodeID, src: Addr, destination: NodeID) {
    Importing(st, dst, source) && src in st.migrating && st.migrating[src] == destination
  }

  ghost predicate Importing(st: SlotState, dst: Addr, source: NodeID) {
    dst in st.importing && st.importing[dst] == source
  }

  /** A mark, set or refused, leaves the owner settled. */
  lemma ImportSent(ids: map<Addr, NodeID>, was: seq<SlotState>, now: seq<SlotState>, src: Addr, dst: Addr,
                   source: NodeID)
    requires was != [] && now != [] && Settled(ids, was[|was| - 1], src)
    requires now == was || Obeyed(ids, was, now, dst, IMPORTING, source)
    ensures Settled(ids, now[|now| - 1], src) && now[|now| - 1].keys == was[|was| - 1].keys
    ensures now == was || Importing(now[|now| - 1], dst, source)
  {
    hide Holders, SafeStep, KeysAt, AllKeys, SetSlotEffect, SetSlotRefused;
    if now != was {
      MarkStep(ids, was[|was| - 1], dst, IMPORTING, source, true, true);
      SameKeys(was[|was| - 1], now[|now| - 1]);
    }
  }

  lemma MigratingSafely(ids: map<Addr, NodeID>, st: SlotState, dst: Addr, source: NodeID, src: Addr,
                        destination: NodeID, takeoverOk: bool, migrationOk: bool)
    requires src in ids && Importing(st, dst, source)
    ensures SafeStep(ids, st, SetSlotEffect(ids, st, src, MIGRATING, destination), takeoverOk, migrationOk)
  {
    hide Holders, SafeStep, SetSlotEffect;
    MarkStep(ids, st, src, MIGRATING, destination, takeoverOk, migrationOk);
  }

  lemma MigrateSent(ids: map<Addr, NodeID>, was: seq<SlotState>, now: seq<SlotState>, dst: Addr, source: NodeID,
                    src: Addr, destination: NodeID)
    requires was != [] && now != [] && Settled(ids, was[|was| - 1], src) && Importing(was[|was| - 1], dst, source)
    requires now == was || Obeyed(ids, was, now, src, MIGRATING, destination)
    ensures Settled(ids, now[|now| - 1], src) && now[|now| - 1].keys == was[|was| - 1].keys
    ensures now == was || Naming(now[|now| - 1], dst, source, src, destination)
  {
    hide Holders, SafeStep, KeysAt, AllKeys, SetSlotEffect, SetSlotRefused;
    if now != was {
      MarkStep(ids, was[|was| - 1], src, MIGRATING, destination, true, true);
      SameKeys(was[|was| - 1], now[|now| - 1]);
    }
  }

  lemma BothMarked(st: SlotState, dst: Addr, source: NodeID, src: Addr, destination: NodeID)
    requires Naming(st, dst, source, src, destination)
    ensures Marked(st, src, dst)
  {
  }

  lemma NamingStays(orig: SlotState, st: SlotState, dst: Addr, source: NodeID, src: Addr, destination: NodeID)
    requires Moving(orig, st, src, dst) && Naming(orig, dst, source, src, destination)
    ensures Naming(st, dst, source, src, destination)
  {
  }

  /** Then its keys may go. */
  lemma TransferStep(ids: map<Addr, NodeID>, st: SlotState, src: Addr, dst: Addr, ks: set<Key>, takeoverOk: bool,
                     migrationOk: bool)
    requires ks <= KeysAt(st, src) && src != dst && Marked(st, src, dst)
    ensures SafeStep(ids, st, TransferEffect(st, src, dst, ks), takeoverOk, migrationOk)
  {
    TransferKeys(st, src, dst, ks);
    var st' := TransferEffect(st, src, dst, ks);
    assert forall a :: a != src && a != dst ==> KeysAt(st', a) == KeysAt(st, a);
  }

  lemma MarksStay(orig: SlotState, st: SlotState, src: Addr, dst: Addr)
    requires Moving(orig, st, src, dst)
    ensures Marked(st, src, dst) <==> Marked(orig, src, dst)
  {
  }

  lemma SameKeys(st: SlotState, st': SlotState)
    requires st'.keys == st.keys
    ensures AllKeys(st') == AllKeys(st) && forall a :: KeysAt(st', a) == KeysAt(st, a)
  {
  }

  lemma SuffixMembers(slots: seq<Slot>, i: nat)
    requires i < |slots|
    ensures ToSet(slots[i..]) <= ToSet(slots) && slots[i] in ToSet(slots[i..])
    ensures forall s :: s in slots && s !in ToSet(slots[i..]) ==> s in slots[..i]
  {
  }

  // ----- counting keys

  /** How many keys of these slots a node has. */
  ghost function KeyTotal(log: seq<seq<SlotState>>, a: Addr, slots: seq<Slot>): nat {
    if slots == [] then 0
    else
      var s := slots[|slots| - 1];
      KeyTotal(log, a, slots[..|slots| - 1]) +
      (if s < |log| && log[s] != [] then |KeysAt(log[s][|log[s]| - 1], a)| else 0)
  }

  lemma KeyTotalNone(log: seq<seq<SlotState>>, a: Addr)
    ensures KeyTotal(log, a, []) == 0
  {
  }

  lemma KeyTotalNext(log: seq<seq<SlotState>>, a: Addr, slots: seq<Slot>, i: nat)
    requires i < |slots| && slots[i] < |log| && log[slots[i]] != []
    ensures KeyTotal(log, a, slots[..i + 1]) ==
            KeyTotal(log, a, slots[..i]) + |KeysAt(log[slots[i]][|log[slots[i]]| - 1], a)|
  {
    assert slots[..i + 1][..i] == slots[..i];
  }

  lemma {:induction false} KeyTotalPrefix(log: seq<seq<SlotState>>, a: Addr, slots: seq<Slot>, i: nat)
    requires i <= |slots|
    ensures KeyTotal(log, a, slots[..i]) <= KeyTotal(log, a, slots)
    decreases |slots| - i
  {
    if i == |slots| {
      assert slots[..i] == slots;
    } else {
      assert slots[..i + 1][..i] == slots[..i];
      KeyTotalPrefix(log, a, slots, i + 1);
    }
  }

  // ----- the administration client

  /** The client of one reconcile run.  `log[s]` is what slot s has been through, its present state last. */
  class Admin {
    const ids: map<Addr, NodeID>
    var log: seq<seq<SlotState>>
    var replicaOf: map<Addr, NodeID>
    ghost var attached: seq<Addr>          // nodes that obeyed a REPLICATE command, in order
    ghost var failures: nat                // commands that failed
    ghost var takeoverFailed: map<Slot, nat>  // slots some node was told to take, without effect, and how much
                                              // they had been through when that happened first
    ghost var migrationFailed: set<Slot>   // slots whose key migration broke off or was never reached

    /** NewAdmin, for a cluster in a given state. */
    constructor (ids: map<Addr, NodeID>, states: seq<SlotState>, replicaOf: map<Addr, NodeID>)
      ensures this.ids == ids && this.replicaOf == replicaOf && |log| == |states|
      ensures forall s :: 0 <= s < |states| ==> log[s] == [states[s]]
      ensures attached == [] && failures == 0 && takeoverFailed == map[] && migrationFailed == {}
    {
      this.ids, this.replicaOf := ids, replicaOf;
      log := seq(|states|, s requires 0 <= s < |states| => [states[s]]);
      attached, failures, takeoverFailed, migrationFailed := [], 0, map[], {};
    }

    ghost predicate Valid()
      reads this`log
    {
      forall s :: 0 <= s < |log| ==> log[s] != []
    }

    /** GetHashMaxSlot() + 1 */
    function SlotCount(): nat
      reads this`log
    {
      |log|
    }

    function Now(s: Slot): SlotState
      requires s < |log| && log[s] != []
      reads this`log
    {
      log[s][|log[s]| - 1]
    }

    ghost predicate Safe()
      reads this`log, this`takeoverFailed, this`migrationFailed
    {
      AllSafe(ids, log, takeoverFailed, migrationFailed)
    }

    /** Sending this command now, should it succeed, is a safe step for the slot. */
    ghost predicate SafeToSend(addr: Addr, action: Action, s: Slot, id: NodeID)
      requires s < |log| && log[s] != []
      reads this
    {
      addr in ids ==> SafeStep(ids, Now(s), SetSlotEffect(ids, Now(s), addr, action, id),
                               s !in takeoverFailed, s !in migrationFailed)
    }

    /** Told to take a slot: the one command whose failure may leave the slot without an owner. */
    predicate IsTakeover(addr: Addr, action: Action, id: NodeID) {
      action == NODE && addr in ids && ids[addr] == id
    }

    /** The client has a connection to the node, and the node answers by its id. */
    ghost predicate KnowsNode(n: Node) {
      n.IPPort() in ids && ids[n.IPPort()] == n.ID
    }

    ghost predicate Knows(nodes: seq<Node>) {
      forall n :: n in nodes ==> KnowsNode(n)
    }

    /** SetSlot for the actions that carry a node id. */
    method SetSlot(addr: Addr, action: Action, slot: Slot, nodeID: NodeID) returns (ok: bool)
      requires Valid() && slot < |log|
      modifies this`log, this`failures, this`takeoverFailed
      ensures Valid() && |log| == |old(log)|
      ensures forall s :: 0 <= s < |log| && s != slot ==> log[s] == old(log[s])
      ensures ok ==> Obeyed(ids, old(log[slot]), log[slot], addr, action, nodeID)
      ensures !ok ==> log == old(log)
      ensures failures == old(failures) + (if ok then 0 else 1)
      ensures ok ==> addr !in replicaOf
      ensures takeoverFailed == if !ok && IsTakeover(addr, action, nodeID)
        then FailedNow(old(takeoverFailed), slot, log[slot]) else old(takeoverFailed)
      ensures old(Safe() && SafeToSend(addr, action, slot, nodeID)) ==> Safe()
    {
      ok := *;
      if addr !in ids || addr in replicaOf || SetSlotRefused(ids, Now(slot), addr, action, nodeID) {
        ok := false;
      }
      if ok {
        var st := SetSlotEffect(ids, Now(slot), addr, action, nodeID);
        if Safe() && SafeToSend(addr, action, slot, nodeID) {
          AllSafeExtend(ids, log, takeoverFailed, migrationFailed, slot, st);
        }
        log := log[slot := log[slot] + [st]];
      } else {
        failures := failures + 1;
        if IsTakeover(addr, action, nodeID) {
          if Safe() {
            AllSafeFailed(ids, log, takeoverFailed, migrationFailed, slot);
          }
          takeoverFailed := FailedNow(takeoverFailed, slot, log[slot]);
        }
      }
    }

    /** SetSlots: one pipeline, each of whose commands succeeds or fails on its own. */
    method SetSlots(addr: Addr, action: Action, slots: seq<Slot>, nodeID: NodeID) returns (ok: bool)
      requires Valid() && NoDup(slots) && forall s :: s in slots ==> s < |log|
      modifies this`log, this`failures, this`takeoverFailed
      ensures Valid() && |log| == |old(log)|
      ensures forall s :: 0 <= s < |log| && s !in slots ==> log[s] == old(log[s])
      ensures forall s :: s in slots && s < |log| && log[s] != old(log[s]) ==>
        Obeyed(ids, old(log[s]), log[s], addr, action, nodeID)
      ensures ok ==> forall s :: s in slots && s < |log| ==> log[s] != old(log[s])
      ensures failures >= old(failures) && (ok <==> failures == old(failures))
      ensures ok && slots != [] ==> addr !in replicaOf
      ensures addr in replicaOf ==> log == old(log)
      ensures takeoverFailed == if IsTakeover(addr, action, nodeID)
        then Noted(old(takeoverFailed), slots, old(log), log) else old(takeoverFailed)
      ensures old(Safe()) && old(forall s :: s in slots ==> SafeToSend(addr, action, s, nodeID)) ==> Safe()
    {
      hide AllSafe, SafeStep, SetSlotEffect, SetSlotRefused, Noted, FailedNow;
      ok := true;
      NotedNothing(takeoverFailed, log);
      assert slots[..0] == [];
      for i := 0 to |slots|
        invariant Valid() && |log| == |old(log)|
        invariant forall s :: 0 <= s < |log| && s !in slots[..i] ==> log[s] == old(log[s])
        invariant forall s :: s in slots[..i] && s < |log| && log[s] != old(log[s]) ==>
          Obeyed(ids, old(log[s]), log[s], addr, action, nodeID)
        invariant ok ==> forall s :: s in slots[..i] && s < |log| ==> log[s] != old(log[s])
        invariant failures >= old(failures) && (ok <==> failures == old(failures))
        invariant ok && i > 0 ==> addr !in replicaOf
        invariant addr in replicaOf ==> log == old(log)
        invariant takeoverFailed == if IsTakeover(addr, action, nodeID)
          then Noted(old(takeoverFailed), slots[..i], old(log), log) else old(takeoverFailed)
        invariant old(Safe()) && old(forall s :: s in slots ==> SafeToSend(addr, action, s, nodeID)) ==> Safe()
      {
        var s := slots[i];
        assert s in slots && s < |log|;
        assert slots[..i + 1] == slots[..i] + [s] && s !in slots[..i];
        assert log[s] == old(log[s]);
        ghost var before := log;
        NotedAt(old(takeoverFailed), slots[..i], old(log), log, s);
        var one := SetSlot(addr, action, s, nodeID);
        NotedNext(old(takeoverFailed), slots, i, old(log), before, log);
        if !one {
          ok := false;
        }
      }
      assert slots[..|slots|] == slots;
    }

    /** AddSlots: one ADDSLOTS command for the whole list, all or nothing. */
    method AddSlots(addr: Addr, slots: seq<Slot>) returns (ok: bool)
      requires Valid() && forall s :: s in slots ==> s < |log|
      modifies this`log, this`failures
      ensures Valid() && |log| == |old(log)|
      ensures ok && slots != [] ==> addr in ids
      ensures ok ==> forall s :: s in slots ==> addr !in old(Now(s)).view
      ensures forall s :: 0 <= s < |log| && !(ok && s in slots) ==> log[s] == old(log[s])
      ensures ok ==> forall s :: s in slots && s < |log| ==>
        log[s] == old(log[s]) + [AddSlotEffect(ids, old(Now(s)), addr)]
      ensures failures == old(failures) + (if ok then 0 else 1)
      ensures old(Safe()) && old(forall s :: s in slots ==> Holders(ids, Now(s)) == {}) ==> Safe()
    {
      hide AllSafe, SafeStep, AddSlotEffect, Holders;
      ghost var safe := Safe() && forall s :: s in slots ==> Holders(ids, Now(s)) == {};
      if |slots| == 0 {
        return true;
      }
      ok := *;
      if addr !in ids || !NoDup(slots) || exists s :: s in slots && addr in Now(s).view {
        ok := false;
      }
      if !ok {
        failures := failures + 1;
        return;
      }
      for i := 0 to |slots|
        invariant Valid() && |log| == |old(log)|
        invariant failures == old(failures)
        invariant forall s :: 0 <= s < |log| && s !in slots[..i] ==> log[s] == old(log[s])
        invariant forall s :: s in slots[..i] && s < |log| ==>
          log[s] == old(log[s]) + [AddSlotEffect(ids, old(Now(s)), addr)]
        invariant safe ==> Safe()
      {
        var s := slots[i];
        assert s in slots && s < |log|;
        assert slots[..i + 1] == slots[..i] + [s] && s !in slots[..i];
        if safe {
          AddStep(ids, Now(s), addr, s !in takeoverFailed, s !in migrationFailed);
          AllSafeExtend(ids, log, takeoverFailed, migrationFailed, s, AddSlotEffect(ids, Now(s), addr));
        }
        log := log[s := log[s] + [AddSlotEffect(ids, Now(s), addr)]];
      }
      assert slots[..|slots|] == slots;
    }

    /** CLUSTER GETKEYSINSLOT: any `count` of the keys, or all of them when there are fewer. */
    method GetKeysInSlot(addr: Addr, slot: Slot, count: nat) returns (keys: seq<Key>, ok: bool)
      requires Valid() && slot < |log|
      modifies this`failures
      ensures failures == old(failures) + (if ok then 0 else 1)
      ensures ok ==> NoDup(keys) && ToSet(keys) <= KeysAt(Now(slot), addr)
      ensures ok ==> |keys| == if count < |KeysAt(Now(slot), addr)| then count else |KeysAt(Now(slot), addr)|
    {
      ok := *;
      keys := [];
      if !ok {
        failures := failures + 1;
        return;
      }
      var rest := KeysAt(Now(slot), addr);
      while |keys| < count && rest != {}
        invariant NoDup(keys) && |keys| <= count
        invariant ToSet(keys) + rest == KeysAt(Now(slot), addr) && ToSet(keys) !! rest
        invariant |keys| + |rest| == |KeysAt(Now(slot), addr)|
        decreases rest
      {
        var k :| k in rest;
        assert k !in keys by { assert k !in ToSet(keys); }
        keys := keys + [k];
        rest := rest - {k};
      }
    }

    /** MIGRATE for a batch of keys that the source holds. */
    method Migrate(src: Addr, dst: Addr, slot: Slot, keys: seq<Key>) returns (ok: bool)
      requires Valid() && slot < |log|
      requires src != dst && ToSet(keys) <= KeysAt(Now(slot), src)
      modifies this`log, this`failures
      ensures Valid()
      ensures log ==
        if ok then old(log)[slot := old(log[slot]) + [TransferEffect(old(Now(slot)), src, dst, ToSet(keys))]]
                     else old(log)
      ensures failures == old(failures) + (if ok then 0 else 1)
      ensures old(Safe() && Marked(Now(slot), src, dst)) ==> Safe()
    {
      ok := *;
      if ok {
        var st := TransferEffect(Now(slot), src, dst, ToSet(keys));
        if Safe() && Marked(Now(slot), src, dst) {
          TransferStep(ids, Now(slot), src, dst, ToSet(keys), slot !in takeoverFailed, slot !in migrationFailed);
          AllSafeExtend(ids, log, takeoverFailed, migrationFailed, slot, st);
        }
        log := log[slot := log[slot] + [st]];
      } else {
        failures := failures + 1;
      }
    }

    /** The keys of these slots have not all been sent. */
    ghost method GiveUp(slots: set<Slot>)
      modifies this`migrationFailed
      ensures migrationFailed == old(migrationFailed) + slots
      ensures old(Safe()) ==> Safe()
    {
      hide AllSafe;
      if Safe() {
        AllSafeWeaken(ids, log, takeoverFailed, migrationFailed, migrationFailed + slots);
      }
      migrationFailed := migrationFailed + slots;
    }

    /** MigrateKeysInSlot: batches until the source answers that it has no key left.  Nothing but the place of
        the keys changes, none is lost on the way, and success means that all of them have arrived. */
    method MigrateKeysInSlot(addr: Addr, dest: Node, slot: Slot, batch: nat) returns (keyCount: nat, ok: bool)
      requires Valid() && slot < |log| && addr != dest.IPPort()
      modifies this`log, this`failures, this`migrationFailed
      ensures Valid() && |log| == |old(log)|
      ensures forall s :: 0 <= s < |log| && s != slot ==> log[s] == old(log[s])
      ensures KeysSent(old(log[slot]), log[slot], addr, dest.IPPort())
      ensures ok && batch > 0 ==> Emptied(log[slot], addr) && keyCount == |KeysAt(old(Now(slot)), addr)|
      ensures keyCount <= |KeysAt(old(Now(slot)), addr)|
      ensures failures == old(failures) + (if ok then 0 else 1)
      ensures migrationFailed == old(migrationFailed) + (if ok then {} else {slot})
      ensures old(Safe() && Marked(Now(slot), addr, dest.IPPort())) ==> Safe()
    {
      hide AllSafe, Moving, Marked, TransferEffect, KeysAt, NoDup, ToSet, Node.IPPort;
      keyCount := 0;
      ok := false;
      ghost var orig := Now(slot);
      ghost var safe := Safe() && Marked(orig, addr, dest.IPPort());
      MovingNothing(orig, addr, dest.IPPort());
      while true
        invariant !ok && Valid() && |log| == |old(log)|
        invariant forall s :: 0 <= s < |log| && s != slot ==> log[s] == old(log[s])
        invariant old(log[slot]) <= log[slot]
        invariant Moving(orig, Now(slot), addr, dest.IPPort())
        invariant keyCount + |KeysAt(Now(slot), addr)| == |KeysAt(orig, addr)|
        invariant failures == old(failures) && migrationFailed == old(migrationFailed)
        invariant safe ==> Safe()
        decreases |KeysAt(Now(slot), addr)|
      {
        var keys, got := GetKeysInSlot(addr, slot, batch);
        if !got {
          GiveUp({slot});
          return;
        }
        keyCount := keyCount + |keys|;
        if |keys| == 0 {
          break;
        }
        NoDupCard(keys);
        MarksStay(orig, Now(slot), addr, dest.IPPort());
        MovingStep(orig, Now(slot), addr, dest.IPPort(), ToSet(keys));
        var moved := Migrate(addr, dest.IPPort(), slot, keys);
        if !moved {
          GiveUp({slot});
          return;
        }
      }
      ok := true;
    }

    /** MigrateKeys: the slots one after the other, giving up at the first failure. */
    method MigrateKeys(addr: Addr, dest: Node, slots: seq<Slot>, batch: nat) returns (keyCount: nat, ok: bool)
      requires Valid() && NoDup(slots) && (forall s :: s in slots ==> s < |log|) && addr != dest.IPPort()
      modifies this`log, this`failures, this`migrationFailed
      ensures Valid() && |log| == |old(log)|
      ensures forall s :: 0 <= s < |log| && s !in slots ==> log[s] == old(log[s])
      ensures forall s :: s in slots && s < |log| ==> KeysSent(old(log[s]), log[s], addr, dest.IPPort())
      ensures batch > 0 ==> forall s :: s in slots && s < |log| && (ok || s !in migrationFailed) ==>
        Emptied(log[s], addr)
      ensures keyCount <= KeyTotal(old(log), addr, slots)
      ensures ok && batch > 0 ==> keyCount == KeyTotal(old(log), addr, slots)
      ensures failures == old(failures) + (if ok then 0 else 1)
      ensures old(migrationFailed) <= migrationFailed <= old(migrationFailed) + ToSet(slots)
      ensures ok ==> migrationFailed == old(migrationFailed)
      ensures old(Safe() && AllMarked(log, slots, addr, dest.IPPort())) ==> Safe()
    {
      hide AllSafe, Marked, AllMarked, KeysSent, Emptied, KeyTotal, KeysAt, NoDup, ToSet, Node.IPPort;
      keyCount := 0;
      ok := true;
      KeyTotalNone(log, addr);
      assert slots[..0] == [];
      ghost var safe := Safe() && AllMarked(log, slots, addr, dest.IPPort());
      forall s | s in slots && s < |log| ensures KeysSent(log[s], log[s], addr, dest.IPPort()) {
        NothingSent(log[s], addr, dest.IPPort());
      }
      for i := 0 to |slots|
        invariant ok && Valid() && |log| == |old(log)|
        invariant forall s :: 0 <= s < |log| && s !in slots[..i] ==> log[s] == old(log[s])
        invariant forall s :: s in slots && s < |log| ==> KeysSent(old(log[s]), log[s], addr, dest.IPPort())
        invariant batch > 0 ==> forall s :: s in slots[..i] && s < |log| ==> Emptied(log[s], addr)
        invariant keyCount <= KeyTotal(old(log), addr, slots[..i])
        invariant batch > 0 ==> keyCount == KeyTotal(old(log), addr, slots[..i])
        invariant failures == old(failures) && migrationFailed == old(migrationFailed)
        invariant safe ==> Safe()
      {
        var s := slots[i];
        assert s in slots && s < |log|;
        assert slots[..i + 1] == slots[..i] + [s];
        NoDupNext(slots, i);
        KeyTotalNext(old(log), addr, slots, i);
        if safe {
          MarkedAt(old(log), slots, addr, dest.IPPort(), s);
        }
        var n;
        n, ok := MigrateKeysInSlot(addr, dest, s, batch);
        keyCount := keyCount + n;
        if !ok {
          KeyTotalPrefix(old(log), addr, slots, i + 1);
          SuffixMembers(slots, i);
          GiveUp(ToSet(slots[i..]));
          return;
        }
      }
      assert slots[..|slots|] == slots;
    }

    /** Redis replicates only another, known node that is a master itself, and a master with slots or keys does not
        become a replica. */
    predicate ReplicateRefused(a: Addr, masterID: NodeID)
      reads this`log, this`replicaOf
    {
      || a !in ids || ids[a] == masterID || masterID !in ids.Values
      || (exists m :: m in ids && ids[m] == masterID && m in replicaOf)
      || (a !in replicaOf && exists s :: 0 <= s < |log| && log[s] != [] && Stores(a, log[s][|log[s]| - 1]))
    }

    predicate Stores(a: Addr, st: SlotState) {
      a in Holders(ids, st) || KeysAt(st, a) != {}
    }

    /** AttachSlaveToMaster: CLUSTER REPLICATE, then the operator's own record of the node. */
    method AttachSlaveToMaster(slave: Node, masterID: NodeID) returns (ok: bool)
      modifies this`replicaOf, this`attached, this`failures, slave`MasterReferent, slave`Role
      ensures ok ==> !old(ReplicateRefused(slave.IPPort(), masterID))
      ensures ok ==> replicaOf == old(replicaOf)[slave.IPPort() := masterID]
      ensures attached == old(attached) + (if ok then [slave.IPPort()] else [])
      ensures ok ==> slave.Role == SLAVE_ROLE && slave.MasterReferent == if masterID == "-" then "" else masterID
      ensures !ok ==> replicaOf == old(replicaOf) &&
                      slave.Role == old(slave.Role) && slave.MasterReferent == old(slave.MasterReferent)
      ensures failures == old(failures) + (if ok then 0 else 1)
    {
      ok := *;
      if ReplicateRefused(slave.IPPort(), masterID) {
        ok := false;
      }
      if !ok {
        failures := failures + 1;
        return;
      }
      replicaOf := replicaOf[slave.IPPort() := masterID];
      attached := attached + [slave.IPPort()];
      slave.SetReferentMaster(masterID);
      slave.Role := SLAVE_ROLE;
    }
  }

}
