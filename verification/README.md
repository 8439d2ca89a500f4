# Slot allocation, resharding and placement of a Redis cluster, verified

This project models the part of redis-cluster-operator that decides which Redis master owns which of the cluster's
S hash slots, and that carries the decision out on live nodes: creating a cluster, scaling it up and down, choosing
masters and placing slaves, and recognising that a reconcile round has nothing left to do. Three smaller parsers and
detectors of the operator are modelled as well: slot ranges, changes of redis.conf, and cluster splits.

`dafny verify dfyconfig.toml` checks everything.

## How the system is modelled

* **Nodes.** `Nodes.Node` is the operator's record of a Redis node, a class whose fields the planners and executors
  update in place. Ids, IPs and ports never change; role, master, slot list, balance and tags do.
* **Redis.** `Redis.Admin` stands for the connections to the cluster. It keeps, slot by slot, everything the slot has
  been through (`log`): who each node believes the owner to be, which keys each node stores, and the IMPORTING and
  MIGRATING marks. Commands follow "Live reconfiguration" in the Redis Cluster Specification. A node owns a slot when
  its own view says so. Every command may fail at any time, and then has no effect; a command Redis refuses always
  fails: SETSLOT at a replica, SETSLOT and ADDSLOTS against what the node knows of the slot, and REPLICATE towards an
  unknown node, towards a node that is a replica itself, or by a master with slots or keys. `failures` counts the
  failed commands; `takeoverFailed` remembers for each slot how far its history had got when a takeover first failed,
  and `migrationFailed` the slots whose key migration broke off, because the operator only logs some of these failures
  and goes on.
* **Other calls.** `Results.Calls` stands for the calls by which a scale-down gets rid of nodes; it counts those that
  failed and lists the nodes forgotten.
* **S and n are symbolic.** S is the length of the log, n the number of expected masters.
* **Map iteration.** Every loop over a Go map picks any remaining key, so the results hold for every order.
* **Floats.** S/n, the shares of the reshard table and the rounded cursor of AllocSlots are computed with exact
  rationals.
* **Sorting.** Go's sort is not stable; nothing is assumed about the order of nodes with equal keys.
* **Errors.** An `error` result is a boolean `ok`, an `Option` or a datatype of outcomes.

| file | subject |
|---|---|
| Slots, Sums, Nodes, Options, Decimal, Strings | lists of slots, sums, node records, decimal numbers, string splitting |
| Redis | what the administration commands do to the cluster; safety of every run |
| Balance, Shares, Reshard, HandOver, Rebalance | scale-up |
| Migration, BatchHandOver, Dispatch | scale-down |
| Alloc | creation |
| Choice, Placement, Roles, VMPlacement | choosing masters, placing and attaching slaves |
| Status, Convergence, Scene, Round, Results, Sync | a reconcile round and what it comes to |
| Fixpoint | what the next round finds |
| Witness | two concrete rounds, one that cannot succeed and one that panics |
| SlotRanges, RedisConf, ClusterSplit | parsers and detectors |

## What the proofs found

* The loop of RebalancedCluster that hands out the remainder S mod n ends if and only if there is no remainder or some
  master is below floor(S/n) (`Balance.RemainderLoopEnds`). In syncCluster the guard `len(newMasters) >
  len(curMasters)` supplies such a master when n <= S; called otherwise, the loop never ends, as with two masters of 6
  and 5 slots (`Balance.StuckAtSixAndFive`).
* A hand-over leaves a slot without any owner in exactly one case: the destination's SETSLOT NODE failed, which is only
  logged, and the source's succeeded (`HandOver.MoveSlot`, `Redis.HandOverOutcome`).
* In a scale-up each of the two transition marks names the node it is set on, and in a scale-down the node at the other
  end (`HandOver.Prepare`, `BatchHandOver.PrepareBatch`). So while the keys of a slot move in a scale-up, its owner's
  mark sends clients back to the owner.
* Settings without a value are not written to redis.conf, but they are counted when it is compared. So a configuration
  with such a setting is reported as changed against itself in every round, unless it is the only setting; and a
  configuration with nothing to write is "unchanged" against any single setting (`RedisConf.SelfDetection`,
  `RedisConf.ChangeDetection`).
* A transition mark printed for a node id survives decoding if and only if the id has no `-` and does not end in `]`
  (`SlotRanges.ImportingRoundTrip`).
* SlotRangesFromSlots lists each slot once, in as few ranges as possible, if and only if the slot 2^64 - 1 occurs at
  most once: for its second occurrence max + 1 wraps (`SlotRanges.SlotRangesFromSlots`).
* PlaceSlaves runs into a nil master if and only if some node belongs to a statefulset without a chosen master
  (`Placement.Ctx.PlaceSlaves`). So creating, scaling up and scaling slaves panic exactly when there are more
  statefulsets than expected, before any command has been sent (`Sync.SyncCluster`, `Sync.Attached`). One way there is
  a scale-down requested while `MinReplicationFactor < ClusterReplicas`, as the slave branch is taken first
  (`Witness.SurplusPanics`). Another is a node that the status does not list: it is grouped under the statefulset name
  "unknown" (`Sync.UnlistedIsSurplus`).
* Creating, scaling up or scaling slaves without a failed command, with the full number of nodes in every expected
  statefulset, ends the loop if and only if no chosen master was a replica whom its whole statefulset followed already;
  otherwise needClusterOperation asks for another round (`Fixpoint.NextRound`). Who is chosen is a function of the look
  and the status the round starts from (`Scene.Scene.Picks`). So with `ClusterReplicas > 0`, when no node replicates a
  replica, the loop always ends; and with `ClusterReplicas = 0` it ends if and only if no node was a replica
  (`Fixpoint.Settles`). After scaling slaves, or scaling up without a failed command, no chosen master is a replica
  (`Sync.SyncCluster`): Redis gives no slots to replicas.
* A round that chooses a replica whom not all of its statefulset follows cannot go through without a failed command
  (`Fixpoint.CannotGoThrough`), as Redis does not attach a node to a replica. A retry after an aborted creation is such
  a round when the nodes are listed in another order than at first: it fails in any case (`Witness.RetryFails`).
* RebalancedCluster never touches a slot that is in no master's list, so what an aborted creation has left without an
  owner stays without one in every scale-up run (`Rebalance.RebalancedCluster`). When there are such slots the balances
  add up to less than nothing, and two masters that are both short can be taken for a giver and a receiver. That is a
  panic if the giver has some slots but too few (`Rebalance.MovePair`).
* Two nodes that both see failing nodes only are counted as a cluster split, although their views are equal
  (`ClusterSplit.SplitDetected`).

## Model

| member | source | states |
|---|---|---|
| `Slots.RemoveSlots` | pkg/redisutil/slot.go:151-164 | the in-place deletion loop keeps exactly the slots that are not to be removed, in their order |
| `Slots.RemoveSlot` | pkg/redisutil/slot.go:167-177 | the first occurrence is deleted and nothing else |
| `Slots.RemoveFirstIsWithout` | pkg/redisutil/slot.go:167-177 | in a duplicate-free list, deleting the first occurrence is deleting the slot |
| `Slots.AddSlots` | pkg/redisutil/slot.go:180-187 | the original list followed by the new slots that were not there, so a duplicate-free union |
| `Slots.UnionLength` | pkg/redisutil/slot.go:180-187 | with disjoint duplicate-free lists the union is the concatenation |
| `Slots.WithoutLength` | pkg/redisutil/slot.go:151-164 | removing a duplicate-free sublist shortens the list by its length |
| `Slots.BuildSlotSlice` | pkg/redisutil/slot.go:200-206 | the consecutive slots from min to max, below the top of the 64-bit range |
| `Slots.Contains` | pkg/redisutil/slot.go:190-197 | membership, both directions |
| `Nodes.SortByFunc` | pkg/redisutil/node.go:316-321 | a permutation of the nodes, ascending in the key |
| `Nodes.GetNodeByID` | pkg/redisutil/node.go:284-292 | a node with the id, or none when there is none |
| `Nodes.AddressesDiffer` | pkg/redisutil/node.go:150-152 | different hosts or ports make different addresses |
| `Redis.Admin.SetSlot` | pkg/redisutil/admin.go:262-277 | changes one slot by the command's effect or nothing, never at a replica, and keeps the safety of all runs when the step is safe |
| `Redis.Admin.SetSlots` | pkg/redisutil/admin.go:238-259 | each command of the pipeline takes effect or not on its own, none at a replica; for each slot whose takeover failed the moment of the first failure is remembered |
| `Redis.Admin.AddSlots` | pkg/redisutil/admin.go:223-235 | all slots of the list or none, and never a slot whose owner the node already knows |
| `Redis.Admin.MigrateKeysInSlot` | pkg/redisutil/admin.go:435-469 | only the place of keys changes, none is lost, and success means the source has none left and the count is exact; safe when both ends are marked |
| `Redis.Admin.MigrateKeys` | pkg/redisutil/admin.go:392-431 | the same for a list of slots, giving up at the first failure; the count is that of all keys the source had, and never more |
| `Redis.Admin.AttachSlaveToMaster` | pkg/redisutil/admin.go:205-220 | the cluster and the operator's record change together or not at all, and never when Redis refuses: towards an unknown node, a replica or the node itself, or by a master with slots or keys |
| `Redis.TransferKeys` | pkg/redisutil/admin.go:453-466 | moving a batch of keys keeps the key set of the slot and moves exactly the batch |
| `Redis.CutOffAnywhere` | pkg/controller/clustering/migration.go:71-101 | wherever a safe run is cut off no key is gone, and wherever it is cut off before a takeover command has failed, a slot that was owned is still owned |
| `Redis.KeysByMarks` | pkg/controller/clustering/migration.go:71-86 | wherever a safe run is cut off, a node has keys it did not start with only if it was told to import the slot |
| `Redis.HandOverOutcome` | pkg/controller/clustering/rebalance.go:136-141 | which nodes claim a slot after the last two commands; none does if and only if the first failed and the second succeeded |
| `HandOver.Prepare` | pkg/controller/clustering/rebalance.go:126-135 | the destination imports before the source migrates, and keys move only after both; afterwards both marks name the node they are set on; given up at the first failure |
| `HandOver.MoveSlot` | pkg/controller/clustering/rebalance.go:126-144 | aborted, by exactly one failure and before any takeover, the source stays the only owner; finished without a failed command, the destination is the only owner and has all keys; and only between masters does it finish |
| `Balance.RemainderLoopEnds` | pkg/controller/clustering/rebalance.go:24-32 | the loop ends if and only if nothing is to hand out or some balance is negative |
| `Balance.StuckAtSixAndFive` | pkg/controller/clustering/rebalance.go:14-32 | two masters with 6 and 5 of 11 slots leave one slot to hand out, and no number of passes hands it out |
| `Balance.PassSum` | pkg/controller/clustering/rebalance.go:25-31 | a pass lowers the sum of the balances by exactly what it takes from the total |
| `Balance.PassKeeps` | pkg/controller/clustering/rebalance.go:25-31 | a pass keeps the set of negative balances |
| `Balance.SpentExtra` | pkg/controller/clustering/rebalance.go:24-32 | after the last pass every negative node has its closed-form extra, and no other node any |
| `Balance.QuotaValues` | pkg/controller/clustering/rebalance.go:12-32 | the target is floor(S/n), or floor(S/n) + floor(r/k) for the k nodes below it, with r = S mod n, and one more for the first r mod k of these |
| `Balance.WindowStep` | pkg/controller/clustering/rebalance.go:44-82 | moving the smaller amount zeroes an end, keeps givers and receivers apart and brings the pointers closer |
| `Balance.WindowClosed` | pkg/controller/clustering/rebalance.go:44-82 | when the pointers meet, every balance is zero |
| `Shares.SpendRemainder` | pkg/controller/clustering/rebalance.go:24-32 | the loop ends and leaves every balance at its initial value less the extra |
| `Reshard.ContributionBounds` | pkg/controller/clustering/rebalance.go:102-110 | no source is asked for more slots than it has |
| `Reshard.ComputeReshardTable` | pkg/controller/clustering/rebalance.go:94-124 | the first slots of each source, the smallest source first, as many as its contribution; at most numSlots and at least numSlots - max(0, m - 2) distinct entries owned by their sources; exactly the first numSlots slots for one source |
| `Rebalance.MoveBatch` | pkg/controller/clustering/rebalance.go:55-66 | numSlots slots not moved before leave the source's list and change owner to the destination |
| `Rebalance.SettlePair` | pkg/controller/clustering/rebalance.go:46-75 | one pair of nodes: balances and owners move by the same amount |
| `Balance.LooseStep` | pkg/controller/clustering/rebalance.go:44-82 | with balances that add up to less than nothing the loop still ends: a pair that zeroes neither end brings the receiver nearer to zero |
| `Rebalance.MovePair` | pkg/controller/clustering/rebalance.go:55-75 | a pair that asks for more slots than the giver has panics when the giver has any; otherwise the pair is settled |
| `Rebalance.Drain` | pkg/controller/clustering/rebalance.go:37-82 | from a sum-zero sorted list every node ends with its owned slots less its balance, by as many changes of owner as there was surplus; broken off, nobody has gained or lost more than that; only from a smaller sum may it panic; slots in no list are not touched |
| `Rebalance.SurplusIsFewest` | pkg/controller/clustering/rebalance.go:37-82 | when as many slots change their owner as the givers had too many, no other division of the same sizes needs fewer changes |
| `Sums.HalfOfDifferences` | pkg/controller/clustering/rebalance.go:37-82 | what the givers have too many is half of the sum of all differences when these add up to nothing |
| `Rebalance.RebalancedCluster` | pkg/controller/clustering/rebalance.go:12-85 | when the lists cover every slot: without a failed command every slot is settled with all keys at one master, every master owns its quota, and the moves are half of the sum of differences and the fewest possible; after an abort all slots but one are as the owners say and every master is between its old size and its quota; for any lists: each list holds exactly what its master has kept, a slot in no list is left alone, only then can there be a panic, and every run is safe |
| `Alloc.BoundaryPartition` | pkg/controller/clustering/rebalance.go:146-170 | the rounded boundaries cut [0, S) into n non-empty consecutive ranges of floor(S/n) or ceil(S/n) slots |
| `Alloc.RoundBoundary` | pkg/utils/math.go:5-7 | the rounded cursor of the loop hits these boundaries |
| `Alloc.LastSlot` | pkg/controller/clustering/rebalance.go:150-162 | the last slot of the next master, corrections included, is the one before the next boundary |
| `Alloc.AllocSlots` | pkg/controller/clustering/rebalance.go:146-170 | every master served is the only owner of exactly its range, in its list and in the cluster, and no key has moved; after an ADDSLOTS error those served are a prefix, no other slot has changed, and neither have the lists after the one that failed |
| `Results.AllServed` | pkg/controller/clustering/rebalance.go:146-170 | once all masters are served, every slot of [0, S) has exactly one owner, which lists it, its keys have not moved, and every master owns floor(S/n) or ceil(S/n) slots |
| `Alloc.TakenSettled` | pkg/controller/clustering/rebalance.go:164-167 | a slot taken that way is settled if and only if its keys, if any, were at that node before |
| `Migration.RetrieveLostSlots` | pkg/controller/clustering/migration.go:266-292 | the ascending list of the slots in [0, S) that no old master has |
| `Migration.RetrieveSlotToMigrateFrom` | pkg/controller/clustering/migration.go:224-239 | what each old master has beyond its first ceil(S/n) slots |
| `Migration.RetrieveSlotToMigrateFromRemovedNodes` | pkg/controller/clustering/migration.go:241-264 | all slots of the old masters that are no new masters |
| `Migration.ShareCovers` | pkg/controller/clustering/migration.go:182-183 | the share is the smallest with which n masters have room for S slots |
| `Migration.EnoughRoom` | pkg/controller/clustering/migration.go:178-221 | the slots to hand out never exceed what the new masters can take up to ceil(S/n), so the over-filling branch is dead |
| `Migration.BuildSlotByNodeFromAvailableSlots` | pkg/controller/clustering/migration.go:294-325 | for any map order, each available slot goes to exactly one new master within the bounds |
| `Migration.BuildSlotsByNode` | pkg/controller/clustering/migration.go:178-222 | every slot that has to move gets exactly one new owner, none over ceil(S/n) + 1, or over ceil(S/n) if it started below |
| `Dispatch.FeedMigInfo` | pkg/controller/clustering/migration.go:131-174 | the planned slots sorted by the pair of present holder and new owner, each slot once; the count is the number of slots that change hands |
| `BatchHandOver.PrepareBatch` | pkg/controller/clustering/migration.go:71-86 | the destination imports before the source migrates, each mark naming the other end, and keys move only after both; the source stays the only owner, and every key is at the destination unless a migration failed |
| `BatchHandOver.CommitBatch` | pkg/controller/clustering/migration.go:87-101 | the destination takes the slots before the source lets them go; then it is the only owner |
| `BatchHandOver.TellOthers` | pkg/controller/clustering/migration.go:103-113 | telling the other masters changes no owner and no key, and all those with slots are told |
| `BatchHandOver.MoveBatch` | pkg/controller/clustering/migration.go:67-116 | a batch between two masters, owners and in-memory lists together; after an error no key has moved, no takeover was tried and the lists are as they were |
| `Dispatch.DispatchEntry` | pkg/controller/clustering/migration.go:66-126 | one entry of the migration map, a lost slot's ADDSLOTS included |
| `Dispatch.DispatchAll` | pkg/controller/clustering/migration.go:66-127 | for any order of the entries no slot moves twice, and after an abort the lists still hold every slot exactly once |
| `Dispatch.AnchorHeld` | pkg/controller/clustering/migration.go:103-113 | a new master that keeps a slot never has an empty list, so it is never skipped when the others are told |
| `Dispatch.DispatchSlotToNewMasters` | pkg/controller/clustering/migration.go:56-129 | in every case, aborts included, each slot listed before is still in exactly one master's list, a new master keeps its first ceil(S/n) slots, and a slot that has not moved has its one owner; on success the new masters hold [0, S) between them within the size bounds, removed masters are empty; without a failed command all keys have arrived and every told master knows the final owner |
| `Placement.StatefulSetNamesDiffer` | pkg/resources/statefulsets/statefulset.go:169-171 | different statefulsets of a cluster have different names |
| `Placement.StatefulSetNameForm` | pkg/resources/statefulsets/statefulset.go:169-171 | two examples of the names |
| `Placement.Ctx.constructor` | pkg/controller/clustering/placement_v2.go:25-36 | the groups hold the known nodes by statefulset, the current masters are those with slots |
| `Placement.Ctx.SortRedisNodeByStatefulSet` | pkg/controller/clustering/placement_v2.go:38-61 | the same, for the loop |
| `Placement.Ctx.PlaceMasters` | pkg/controller/clustering/placement_v2.go:85-106 | the first node of the group on a machine without a master; if there is none, the first node and bestEffort |
| `Placement.Ctx.DispatchMasters` | pkg/controller/clustering/placement_v2.go:63-83 | succeeds if and only if every expected statefulset is known and has at most one slot owner; which masters it picks is a function of groups, slot owners and machines; the owner is never displaced; bestEffort if and only if some statefulset had no node on a free machine, and otherwise new masters are alone on their machines |
| `Placement.Ctx.PlaceSlaves` | pkg/controller/clustering/placement_v2.go:108-131 | ends in a nil master if and only if some statefulset has no chosen one; otherwise, for any order, under each master exactly the nodes of its statefulset that do not follow it yet, and bestEffort if and only if each statefulset is on one machine |
| `Placement.Ctx.AttachingSlavesToMaster` | pkg/controller/clustering/roles.go:10-29 | each listed slave of a known master is sent one command, whatever becomes of the others; an error if and only if one failed; without one every listed slave follows its master |
| `Roles.AttachAll` | pkg/controller/clustering/roles.go:12-27 | the loops over masters and slaves, which go on after a failure, with the frame of what is not touched |
| `Placement.Ctx.AttachSlaves` | pkg/controller/distributedrediscluster/sync_handler.go:206-216 | exactly the nodes that are not the chosen master of their statefulset and did not replicate it before are sent a command, each once; without a failure every node but the chosen master follows the master of its own statefulset, and where that is a replica the others had followed it before; a nil master changes nothing |
| `Placement.Ctx.GetNewMasters` | pkg/controller/clustering/placement_v2.go:137-143 | the chosen masters, each once, in any order |
| `VMPlacement.SortRedisNodeByVM` | pkg/controller/clustering/placement.go:65-85 | the known nodes by the machine the cluster says they run on |
| `VMPlacement.PlaceMasters` | pkg/controller/clustering/placement.go:14-63 | succeeds if and only if there are enough nodes, for any map order; no node twice; bestEffort if and only if there are too few machines without a current master, and otherwise every picked node is on one of these of its own |
| `Status.BuildClusterStatus` | pkg/controller/distributedrediscluster/status.go:46-122 | one entry for each pod that has a node, in the order of the pods, with the printed slots of such a node; the master count; over one counter per tracked master, the smallest and largest number of slaves; the other fields are those of the old status |
| `Status.ReplicationFactors` | pkg/controller/distributedrediscluster/status.go:104-120 | smallest and largest counter in any order, zero without counters |
| `Status.PodsOfCard` | pkg/controller/distributedrediscluster/status.go:58-101 | counting pods is counting nodes when IPs are unique |
| `Status.AloneIs` | pkg/controller/distributedrediscluster/status.go:62-70 | a pod counts only when there is one node at its IP and no second one |
| `Status.EntryOfNobody` | pkg/controller/distributedrediscluster/status.go:62-101 | a pod with several nodes at its IP has an entry that names the pod and no node |
| `Status.NewRedisCluster` | pkg/controller/distributedrediscluster/helper.go:57-81 | the index by id, and every node tagged with the last status entry of its id |
| `Status.LastIs` | pkg/controller/distributedrediscluster/helper.go:71-77 | the entry found for an id is the last one with it |
| `Status.StatusTags` | pkg/controller/distributedrediscluster/status.go:58-101 | what a round writes about a node, statefulset, machine, pod, port, role and master included, is what the next round finds for it, and the slots written decode to the node's slots |
| `Round.HomeOfPod` | pkg/controller/distributedrediscluster/helper.go:57-81 | so the next round groups every node under its pod's statefulset and puts it on its pod's machine |
| `Round.StartRound` | pkg/controller/distributedrediscluster/sync_handler.go:195-204 | succeeds if and only if every expected statefulset has nodes and not two slot owners; groups, chosen masters and bestEffort are functions of the look and the status; without bestEffort new masters are alone on their machines |
| `Scene.Scene.Pigeonhole` | pkg/controller/distributedrediscluster/sync_handler.go:219-229 | with fewer owners than masters some master has no slots, which RebalancedCluster needs; otherwise all have some |
| `Sync.CreateCluster` | pkg/controller/distributedrediscluster/sync_handler.go:206-218 | panics exactly on a surplus statefulset, before any command; exactly the nodes that need it are told to follow; the masters served are a prefix, all of them unless a command failed, and each owns its range |
| `Sync.ScaleUp` | pkg/controller/distributedrediscluster/sync_handler.go:219-231 | the same with quotas and fewest moves for the owners, or, broken off, somewhere on the way to the quotas |
| `Sync.ScalingDown` | pkg/controller/distributedrediscluster/sync_handler.go:256-314 | the nodes of the surplus statefulsets are forgotten in order, each one empty, up to the first failed call or node with slots; when no call fails all of them are if and only if all are empty |
| `Sync.ScaleDown` | pkg/controller/distributedrediscluster/sync_handler.go:241-252 | whatever fails every slot is in one master's list; after a successful dispatch it is a new master's, none of which is over its share; without a failed command the owner is settled, with all keys, and every master that had slots knows it; the emptiness guard never fires, so that only a failed call keeps a surplus node from being forgotten |
| `Sync.ArrangedNow` | pkg/controller/distributedrediscluster/sync_handler.go:206-240 | with the replicas placed and every chosen node owning slots, a cluster of full statefulsets is arranged as expected |
| `Sync.UnlistedIsSurplus` | pkg/controller/clustering/placement_v2.go:47-50 | a node without a status entry belongs to a surplus statefulset, whatever the expected ones are called |
| `Sync.SyncCluster` | pkg/controller/distributedrediscluster/sync_handler.go:190-254 | which branch is taken, by the number of slot owners; creating, scaling up and scaling slaves panic if and only if there are surplus statefulsets, and otherwise attach exactly the nodes that do not replicate the master of their statefulset, each once, and without a failed command arrange everything around masters that are a function of the look and the status; creating then divides [0, S) evenly, scaling up gives every master its quota by the fewest moves, scaling slaves touches no slot; scaling down loses no slot, keeps the size bounds and what a master may keep, hands every slot over with its keys when no command fails, and without a failed command or call ends in success with exactly the nodes of the surplus statefulsets forgotten; a steady round sends no command |
| `Witness.RetryFails` | pkg/controller/distributedrediscluster/sync_handler.go:206-218 | a retry of an aborted creation with three masters and one slave each that fails whatever Redis does |
| `Witness.SurplusPanics` | pkg/controller/distributedrediscluster/sync_handler.go:232-240 | four masters with slots, three expected and slaves missing: the slave branch panics |
| `Fixpoint.NextRound` | pkg/controller/distributedrediscluster/helper.go:95-112 | after a round without a failed command another operation is asked for if and only if a chosen master was a replica whom its whole statefulset followed |
| `Fixpoint.Settles` | pkg/controller/distributedrediscluster/helper.go:95-112 | with slaves to come and nobody following a replica the loop has ended; without slaves it has if and only if no node was a replica |
| `Fixpoint.LookAgain` | pkg/controller/distributedrediscluster/distributedrediscluster_controller.go:316-324 | what the status built from a look makes needClusterOperation answer, for any look; and after a clean round, when that is another operation |
| `Fixpoint.CannotGoThrough` | pkg/controller/distributedrediscluster/sync_handler.go:206-240 | a round that chose any other replica has a failed command |
| `Convergence.MastersCounted` | pkg/controller/distributedrediscluster/status.go:69-74 | a fresh look at an arranged cluster counts as masters with slots exactly the chosen nodes that are no replicas |
| `Convergence.SlavesSeen` | pkg/controller/distributedrediscluster/status.go:80-83 | and the expected number of slaves for each of them |
| `Status.OperationAsked` | pkg/controller/distributedrediscluster/helper.go:95-112 | for any look: no operation is asked for if and only if it shows the expected number of masters with slots, and for every master seen or named exactly the expected number of slaves |
| `Convergence.OperationNeeded` | pkg/controller/distributedrediscluster/helper.go:95-112 | with everything arranged, the next status asks for an operation if and only if some chosen node does not lead, be it because it is a replica |
| `Convergence.NothingToDo` | pkg/controller/distributedrediscluster/helper.go:95-112 | the fixpoint: from a converged cluster the next status asks for no operation |
| `SlotRanges.SlotRangesFromSlots` | pkg/redisutil/slot.go:124-148 | ranges with gaps between them whose expansion is ascending and has exactly the given slots, if and only if the slot 2^64 - 1 is not given twice |
| `SlotRanges.Maximal` | pkg/redisutil/slot.go:124-148 | no range can be extended |
| `SlotRanges.RangesUnique` | pkg/redisutil/slot.go:124-148 | there is only one such list of ranges |
| `SlotRanges.RangeRoundTrip` | pkg/redisutil/slot.go:45-47 | a printed range decodes to its slots |
| `SlotRanges.SlotsRoundTrip` | pkg/redisutil/slot.go:82-121 | decoding what was printed for any slot list gives each slot once, in order |
| `SlotRanges.SingleRoundTrip` | pkg/redisutil/slot.go:82-121 | a single printed slot decodes to itself |
| `SlotRanges.ImportingRoundTrip` | pkg/redisutil/slot.go:61-63 | an importing mark decodes to itself if and only if its id is plain |
| `SlotRanges.MigratingRoundTrip` | pkg/redisutil/slot.go:72-74 | the same for a migrating mark |
| `SlotRanges.BracketedImporting` | pkg/redisutil/slot.go:82-106 | in Redis's brackets the id may end in a bracket itself |
| `SlotRanges.BracketedMigrating` | pkg/redisutil/slot.go:82-106 | the same for a migrating mark |
| `SlotRanges.WrittenForms` | pkg/redisutil/slot.go:75-81 | the printed forms are those documented |
| `SlotRanges.UnknownMark` | pkg/redisutil/slot.go:94-100 | any other mark is an error |
| `SlotRanges.DecodedSlot` | pkg/redisutil/slot.go:33-36 | a slot is a non-empty string of digits below 2^64 |
| `Decimal.ParseFormat` | pkg/redisutil/slot.go:18-36 | parsing undoes formatting |
| `RedisConf.GenerateRedisConfContent` | pkg/resources/configmaps/configmap.go:77-100 | the lines of the settings with a value, keys in ascending byte order, for any order of the map |
| `RedisConf.ByteOrder` | pkg/resources/configmaps/configmap.go:84-88 | one key comes before another if and only if it is a prefix of it or smaller where they first differ |
| `RedisConf.KeyListUnique` | pkg/resources/configmaps/configmap.go:84-88 | so the content depends on the map alone |
| `RedisConf.IsRedisConfChanged` | pkg/controller/manager/ensurer.go:249-270 | unchanged if and only if there are as many lines as settings and every line is in order |
| `RedisConf.ChangeDetection` | pkg/controller/manager/ensurer.go:249-270 | generated content is unchanged against a map if and only if that has the written settings; with nothing written, if and only if it has one setting |
| `RedisConf.ExactDetection` | pkg/controller/manager/ensurer.go:249-270 | for settings that all have values detection is exact |
| `RedisConf.SelfDetection` | pkg/controller/manager/ensurer.go:249-270 | exactly which configurations are found unchanged against themselves |
| `ClusterSplit.FindInCluster` | pkg/controller/heal/clustersplit.go:120-129 | membership in some list, both directions |
| `ClusterSplit.BuildClustersLists` | pkg/controller/heal/clustersplit.go:90-118 | for any order, lists apart from each other that are views, and every view is one of them or touches one |
| `ClusterSplit.ViewMembers` | pkg/controller/heal/clustersplit.go:96-103 | a view has exactly the addresses of the node asked and its friends, but for those with a failure flag |
| `ClusterSplit.OneCluster` | pkg/controller/heal/clustersplit.go:90-118 | when all nodes see the same members, and any at all, there is one list and it has these members |
| `ClusterSplit.ListsAreViews` | pkg/controller/heal/clustersplit.go:88-118 | with equal or disjoint views the lists are the distinct views, each once |
| `ClusterSplit.OrderIrrelevant` | pkg/controller/heal/clustersplit.go:90-118 | neither the parts nor the number of empty lists depend on the order |
| `ClusterSplit.SplitDetected` | pkg/controller/heal/clustersplit.go:15-26 | more than one list if and only if two nodes see different clusters, or two see no healthy node |
| `ClusterSplit.SplitMainCluster` | pkg/controller/heal/clustersplit.go:68-86 | the first of the largest lists and the others in their order; nothing when all are empty |
| `ClusterSplit.ElectedKeepsAll` | pkg/controller/heal/clustersplit.go:81-84 | main and rest are a permutation of the input |

## Left out

- Clients, gossip, config epochs and failover: no writes happen while slots move, and a node's view changes only when the operator tells it.
- Connections, timeouts, reconnects and response parsing: a command succeeds with its effect or fails with none.
- IEEE rounding: exact rationals instead.
- S = 0, n = 0 and n > S in AllocSlots, RebalancedCluster and syncCluster: excluded by preconditions.
- The sharing of backing arrays between Go slices: SortByFunc, SlotRangesFromSlots, RemoveSlot(s), AddSlots and splitMainCluster may change a slice their caller still holds; the model works on values, and a node's list changes only where it is assigned.
- Rebalance.RebalancedCluster: after a failed SETSLOT NODE, which is only logged, only the safety of the run and the owners the operator believes in are stated; and when some slot is in no list, no final sizes.
- Dispatch.DispatchSlotToNewMasters: key arrival and the told views are stated for runs in which no command failed; conservation of the listed slots and safety for all runs.
- Sync.SyncCluster: the ensure steps, waiting, restoring, password reset and status updates around it are not modelled. It starts from a cluster in which either nobody owns a slot or every slot is settled at one of the nodes, and no replica owns any; a round that finds a hand-over or a creation half done is covered only by `Rebalance.RebalancedCluster`, and only for slots in no list.
- Sync.ScalingDown: deleting statefulsets, services, disruption budgets and volumes, closing connections, and what ForgetNode does to the other nodes, are left out; looking up the statefulset and ForgetNode are calls that may fail.
- Status.BuildClusterStatus: fewer than 2^31 - 1 pods; nothing is said about the printed slots of a node that lists the slot 2^64 - 1 twice.
- Slots.BuildSlotSlice: with max = 2^64 - 1 the source's loop never ends; excluded by a precondition. SlotRanges.DecodeSlotRange builds the list as a value.
- ClusterSplit.SplitMainCluster: when all lists are empty the source keeps the first and drops the others; reassigning the nodes of the lost parts is not modelled.
- The older PlaceSlaves in pkg/controller/clustering/placement.go: only its test calls it, and it dereferences a nil node in one branch.
- The older DispatchMasters in pkg/controller/clustering/migration.go: nothing calls it.
- Node flags, failure states, link states and config epochs of a CLUSTER NODES line: nothing here depends on them.
- Kubernetes clients, resource construction, webhooks, backup and restore: plumbing and field copying.
