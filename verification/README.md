# Verified model of the cluster agent's state machines and resource algebra

This project models five parts of the system and proves what the rest of it relies on.

1. **CSI volumes** (`CsiVolume`, `CsiOrder`, `CsiManager`, `CsiCalls`). `CsiVolume` is a machine over one
   volume: the record in memory, the synced checkpoint, the mount directories, the boot ID, the call
   in flight and what the plugin may have done. Calls may fail, the file system may refuse, and the
   process may restart or the node reboot between any two actions. `CsiOrder` proves the order of
   calls, `CsiCalls` that what is done is undone before it is done again and that no call is wasted.
   `CsiManager` is the volume manager as a class that updates its maps in place; its mutually
   recursive methods return the run of machine actions they took, so the theorems about all runs
   hold of the code.
2. **Resources** (`ResourceModel`, `Disks`, `ResourceLaws`, `CopyOnWrite`, `Conversions`,
   `Operations`, `Effects`, `Checkpoints`, `Reservations`, `Finding`, `SearchOrders`, `Preferring`,
   `Targets`, `Shrinking`). A collection of resources is a vector of entries. What
   it holds is one number per atom: the amount of a scalar class, whether a class has a member, the
   number of equal indivisible disks, the number of copies of a shared volume. Every law is proved
   through these numbers. `CopyOnWrite` has the same operations on shared heap cells with use counts.
3. **Values and quantities** (`Ranges`, `RangeDifference`, `Quantities`). Coalescing and subtracting
   ranges in place against sets of integers; merging sorted vectors in place against finite maps.
4. **RecordIO** (`RecordIO`): the reader's two queues over every interleaving of reads and chunks.
5. **Roles, formats, health** (`Roles`, `Formats`, `TypeMarking`, `TypeOrders`, `Messages`, `Health`).

`dafny verify dfyconfig.toml` checks all of it.

## What turned out not to hold

Each of these has a statement of the failing input and one of the exact condition.

- A restart in NODE_UNSTAGE without a boot ID takes an unfinished unstage for a finished one; the
  volume can then be detached or deleted while it may still be staged (`CsiOrder.LossyRun`,
  `CsiOrder.LostUnstageBreaksOrder`; `CsiOrder.FaithfulStep`, `CsiOrder.AlwaysInOrderIff`). It can
  also be staged again before it is unstaged (`CsiCalls.StagedAgain`;
  `CsiCalls.AlwaysFinishedFirstIff`).
- Coalescing is not canonical when the increment of an end wraps around at 2^64-1, and equality of
  ranges can then miss equal sets (`Ranges.EqualCanMissWrapped`; `Ranges.CoalesceCorrect`,
  `Ranges.DecidesEqualityIff`, `Ranges.AlwaysDecidesEqualityIff`). Inclusion is decided
  correctly all the same (`Ranges.LessEqual`).
- Subtracting ranges from overlapping ranges can leave too much (`RangeDifference.OverlapIsKept`;
  `RangeDifference.CutsExactlyIff`).
- Containment does not count equal exclusive disks (`ResourceLaws.RepeatedDiskIsFound`;
  `ResourceLaws.ContainsIff`).
- Shrinking to limits keeps one copy of a shared volume that has no limit, where the documentation
  says such resources are kept as they are (`Shrinking.CopyIsLost`; `Shrinking.UnlimitedIffSingle`).
- Downgrading loses the principal and labels of a static reservation (`Formats.PrincipalIsLost`;
  `Formats.UpgradeUndoesDowngrade`).
- Replaying a checkpoint loses an amount where a copy of a shared volume is held already
  (`Checkpoints.ReplayLoses`; `Checkpoints.ApplyCheckpointed`).
- Quantities subtracted from themselves keep every other entry
  (`Quantities.ResourceQuantities.SubtractAll`; `Quantities.SelfDifferenceIff`).
- The header says of limits that `cpu:1` contains `mem:1` and the other way round
  (include/mesos/resource_quantities.hpp:248); by the code neither does, and the model follows the
  code (`Quantities.LimitsApart`; `Quantities.ResourceLimits.ContainsLimits`).
- Several targets are each looked for in the whole collection, so two can be found in the same
  resources (`Targets.FoundTwice`; `Targets.AlwaysHeldIff`).
- A target that is held, spread over several entries, can be missed, depending on their order
  (`Finding.SpreadIsMissed`; for scalars `SearchOrders.FoundInEveryOrderIff`).
- A type marked while its cycle is being visited can keep a false mark, and resources below it are
  skipped, depending on the order of fields (`TypeOrders.CycleIsMissed`, `Messages.CycleIsSkipped`;
  `TypeOrders.AllRightIff`, `Messages.ConvertsAllIff`).

## Assumptions

- CSI: operations on one volume are serialised (src/csi/v0_volume_manager_process.hpp:209); the
  plugin's capabilities do not change; every reboot has a boot ID not seen before; mount directories
  survive a reboot and nothing else touches the mount root; a call outstanding at a crash has no
  later effect; retries of one call count as one call; removing leftover directories may fail
  silently. Failing assertions at lines 727 and 913 end
  the method as `Aborted`.
- Recovery publishes volumes one after the other, after collecting directories of untracked volumes.
  These concern different volumes, so the order makes no difference to any of them.
- Scalars are integer thousandths. RANGES and SET values are the sets of their members, which the
  range modules justify for ranges. Disks have scalar values and only persistent volumes are shared,
  as validation demands. Metadata is compared structurally.
- The answers of the plugin and the file system are an input, one sequence for each volume; so are
  the writer's answers, the clock and the shuffled order.

## Model

| member | source | states |
|---|---|---|
| CsiVolume.InvStep | src/csi/v0_volume_manager.cpp:785-1233 | every action, with a restart or a reboot possible between any two others, keeps the invariant of the lifecycle: boot IDs, mount directories, memory against checkpoint |
| CsiVolume.InvRun | src/csi/v0_volume_manager.cpp:785-1233 | the invariant holds in every state of every run |
| CsiVolume.WriteAhead | src/csi/v0_volume_manager.cpp:817-893 | in every state of every run a record in memory other than CREATED, NODE_READY, VOL_READY and PUBLISHED is also the synced one, so a call is in flight only while the state that announces it is durable |
| CsiVolume.CrashRefinement | src/csi/v0_volume_manager.cpp:173-192 | in every state of every run, recovering the checkpoint on the current boot gives the state in memory up to moves that make no call, if and only if the volume is not in NODE_UNSTAGE without a boot ID; that one recovers as NODE_READY |
| CsiVolume.ChecksHold | src/csi/v0_volume_manager.cpp:965-1214 | the assertions about boot IDs and about staging and target directories hold in every state of every run |
| CsiOrder.LenientStep | src/csi/v0_volume_manager.cpp:785-1233 | every step, whatever it is, keeps the record truthful about attaching and publishing and about what it says is staged |
| CsiOrder.FaithfulStep | src/csi/v0_volume_manager.cpp:173-192 | a step keeps the record truthful about the plugin if and only if it is not a restart in NODE_UNSTAGE without a boot ID while the volume may still be staged |
| CsiOrder.FaithfulRun | src/csi/v0_volume_manager.cpp:785-1233 | a run without such a restart keeps the record truthful |
| CsiOrder.CallsInOrder | src/csi/v0_volume_manager.cpp:785-1233 | in every run without such a restart, every call finds the plugin in the state the CSI specification v0.2.0 requires for it |
| CsiOrder.LostUnstageBreaksOrder | src/csi/v0_volume_manager.cpp:173-192 | after such a restart, three actions lead to a ControllerUnpublishVolume or DeleteVolume call for a volume that may still be staged |
| CsiOrder.LossyRun | src/csi/v0_volume_manager.cpp:1014-1103 | such a restart is possible for every plugin that stages: a concrete run from the initial state that leads up to it |
| CsiOrder.AlwaysInOrderIff | src/csi/v0_volume_manager.cpp:785-1233 | every call of every run is in the prescribed order if and only if the plugin does not stage, or neither attaches nor deletes |
| CsiCalls.UndoneFirst | src/csi/v0_volume_manager.cpp:785-1233 | in every run, between a NodeUnpublishVolume or ControllerUnpublishVolume call and a later NodePublishVolume or ControllerPublishVolume call the first is answered with success, or for the mount the node reboots; the same for NodeUnstageVolume in runs that lose no unstage |
| CsiCalls.EndedBetween | src/csi/v0_volume_manager.cpp:785-1233 | in every run, such an undo ends by its success, for a mount by a reboot, for an unstage by the restart that takes it for finished, and by nothing else |
| CsiCalls.AlwaysFinishedFirstIff | src/csi/v0_volume_manager.cpp:173-192 | every undo of every run is finished before the same is done again if and only if the plugin does not stage |
| CsiCalls.NothingTwice | src/csi/v0_volume_manager.cpp:785-1233 | in every run, what was attached, staged or published with success is undone with success, or by a reboot, before the call for it is sent again |
| CsiCalls.PluginIsKnown | src/csi/v0_volume_manager.cpp:520-547 | in every run, what is known of the plugin is what the last call, answer or reboot about each thing tells |
| CsiCalls.FewestCalls | src/csi/v0_volume_manager.cpp:785-1233 | no run without a crash publishes or detaches a volume with fewer calls than the volume manager sends |
| CsiManager.RunIsLegal | src/csi/v0_volume_manager.cpp:785-1233 | the runs that the methods return are runs of the machine, so what holds of all runs holds of the methods |
| CsiManager.CostBounds | src/csi/v0_volume_manager.cpp:785-1233 | publishing needs at most four calls from any state, detaching at most three, and both bounds are reached |
| CsiManager.VolumeManager.Announce | src/csi/v0_volume_manager.cpp:817-822 | the transient state is recorded and synced before the call, and a retry does not write it again |
| CsiManager.Environment.Ask | src/csi/v0_volume_manager.cpp:520-547 | the next answer that is fixed for the volume, and for no other volume |
| CsiManager.VolumeManager.Call | src/csi/v0_volume_manager.cpp:520-547 | one call, answered as the environment has it; success is recorded and synced, failure leaves the record |
| CsiManager.VolumeManager.Perform | src/csi/v0_volume_manager.cpp:817-847 | announce and call: exactly one call is sent, and the volume ends in the target state if and only if the answer is positive |
| CsiManager.VolumeManager.Skip | src/csi/v0_volume_manager.cpp:802-806 | a move that the plugin's capabilities make trivial changes memory only |
| CsiManager.VolumeManager.MakeDirectory | src/csi/v0_volume_manager.cpp:934-941 | the mount directory exists if and only if the file system did not refuse |
| CsiManager.VolumeManager.UnpublishNode | src/csi/v0_volume_manager.cpp:1186-1233 | from the states it accepts, ends in VOL_READY if and only if every answer for the volume is positive, with exactly the stated number of calls; from the others it fails with nothing changed; other volumes untouched |
| CsiManager.VolumeManager.UnpublishVolume | src/csi/v0_volume_manager.cpp:1106-1183 | from the states it accepts, ends in NODE_READY without a boot ID if and only if every answer is positive, with exactly the stated number of calls; from the others it fails with nothing changed |
| CsiManager.VolumeManager.DetachVolume | src/csi/v0_volume_manager.cpp:850-904 | from any state, ends in CREATED if and only if every answer is positive, with exactly the stated number of calls; the recursion terminates |
| CsiManager.VolumeManager.AttachVolume | src/csi/v0_volume_manager.cpp:785-847 | from the states it accepts, ends in NODE_READY if and only if every answer is positive, with exactly the stated number of calls; from the others it fails with nothing changed |
| CsiManager.VolumeManager.StageNode | src/csi/v0_volume_manager.cpp:1047-1103 | the staging directory and then one call: ends in VOL_READY with the current boot ID if and only if both answers are positive |
| CsiManager.VolumeManager.StageVolume | src/csi/v0_volume_manager.cpp:1014-1103 | from the states it accepts, ends in VOL_READY carrying the current boot ID if and only if every answer is positive, with exactly the stated number of calls; from the others it fails with nothing changed |
| CsiManager.VolumeManager.PublishNode | src/csi/v0_volume_manager.cpp:934-1011 | the target directory and then one call: ends in PUBLISHED if and only if both answers are positive |
| CsiManager.VolumeManager.PublishVolume | src/csi/v0_volume_manager.cpp:907-1011 | from any state, ends in PUBLISHED with exactly the stated number of calls whenever every answer is positive, unless the assertion of line 913 fails; a failure means a negative answer |
| CsiManager.VolumeManager.TrackVolume | src/csi/v0_volume_manager.cpp:311-331 | a volume not yet tracked is recorded as CREATED and synced; a tracked one is refused unchanged |
| CsiManager.VolumeManager.CheckpointVolumeState | src/csi/v0_volume_manager.cpp:1236-1249 | the synced record becomes the one in memory, for this volume alone |
| CsiManager.VolumeManager.GarbageCollectMountPath | src/csi/v0_volume_manager.cpp:1252-1264 | removes both directories of an untracked volume or changes nothing |
| CsiManager.VolumeManager.RemoveVolume | src/csi/v0_volume_manager.cpp:1267-1279 | forgets the volume in memory and on disk, then its directories |
| CsiManager.VolumeManager.ForgetPublish | src/csi/v0_volume_manager.cpp:726-744 | clears and syncs the publish requirement of a published volume |
| CsiManager.VolumeManager.DeleteCreated | src/csi/v0_volume_manager.cpp:765-782 | a CREATED volume is deleted by one call if the plugin can, and forgotten if and only if the answer is positive |
| CsiManager.VolumeManager.DeleteVolume | src/csi/v0_volume_manager.cpp:721-762 | detaches and deletes with exactly the stated number of calls whenever every answer is positive, unless the assertion of line 727 fails; a failure means a negative answer |
| CsiManager.VolumeManager.LoadVolumes | src/csi/v0_volume_manager.cpp:121-192 | every record in memory is the recovered checkpoint |
| CsiManager.VolumeManager.Reload | src/csi/v0_volume_manager.cpp:107-192 | restarting puts every volume where the machine's restart or reboot puts it |
| CsiManager.VolumeManager.CollectMountPaths | src/csi/v0_volume_manager.cpp:216-236 | only untracked volumes lose mount directories |
| CsiManager.VolumeManager.PublishAgain | src/csi/v0_volume_manager.cpp:207-213 | a volume that a container has used is PUBLISHED whenever every answer for it is positive |
| CsiManager.VolumeManager.PublishRequired | src/csi/v0_volume_manager.cpp:207-213 | every volume that a container had used is PUBLISHED whenever every answer for it is positive; every other volume stays as it was |
| CsiManager.VolumeManager.Recover | src/csi/v0_volume_manager.cpp:107-240 | after a crash at any point, with or without a reboot: every volume continues by machine actions from its recovered checkpoint and keeps the invariant; if its checkpoint says that a container has used it and every answer for it is positive, it is PUBLISHED on the new boot; if it says otherwise, it stays where recovery put it |
| ResourceModel.Find | src/common/resources.cpp:2403-2410 | the first entry that can be subtracted from, and no earlier one |
| Disks.UsedWholeIff | src/common/resources.cpp:404-440 | a resource is indivisible if and only if it is a volume or a MOUNT, BLOCK or identified RAW disk |
| Disks.UsedWholeStays | src/common/resources.cpp:358-460 | what is used whole becomes an entry of its own, is subtracted from an equal one only, which then goes, and is contained in an equal one only |
| Disks.DividedMerges | src/common/resources.cpp:358-460 | no disk, a disk without source, PATH and RAW without an ID, none with a volume: merged with the first of its class and subtracted from it whatever the amounts |
| ResourceLaws.AddRefines | src/common/resources.cpp:2236-2324 | adding a resource adds its numbers (amount, members, disks, copies) and keeps the collection without empty or addable entries |
| ResourceLaws.SubtractRefines | src/common/resources.cpp:2403-2448 | subtracting a resource subtracts its numbers, truncated at zero, and keeps the collection combined |
| ResourceLaws.AddAllRefines | src/common/resources.cpp:2363-2372 | adding a collection adds all its numbers |
| ResourceLaws.SubtractAllRefines | src/common/resources.cpp:2469-2478 | subtracting a collection subtracts all its numbers, truncated at zero |
| ResourceLaws.ContainsEntryIff | src/common/resources.cpp:2080-2091 | one resource is contained if and only if none of its numbers exceeds the collection's |
| ResourceLaws.ContainsIff | src/common/resources.cpp:1513-1533 | containment holds if and only if no number exceeds the collection's, equal exclusive disks that are not persistent being asked for once |
| ResourceLaws.EqualIff | src/common/resources.cpp:2160-2163 | equality is equality of all numbers, when no such disk repeats |
| ResourceLaws.AddThenSubtract | src/common/resources.cpp:2363-2478 | (A + B) - B is A if and only if no members of the same class overlap |
| ResourceLaws.SubtractThenAdd | src/common/resources.cpp:2363-2478 | (A - B) + B is A if and only if A has all of B, which is what containment decides when no such disk repeats |
| ResourceLaws.AddCommutes | src/common/resources.cpp:2236-2324 | A + B and B + A hold the same |
| ResourceLaws.AddAssociates | src/common/resources.cpp:2236-2324 | (A + B) + C and A + (B + C) hold the same |
| ResourceLaws.SameIffPermuted | src/common/resources.cpp:2160-2163 | two combined collections hold the same if and only if they have the same entries in some order |
| ResourceLaws.RepeatedDiskIsFound | src/common/resources.cpp:1513-1533 | one exclusive disk is found to contain two equal ones |
| CopyOnWrite.CountUpdate | include/mesos/resources.hpp:747-776 | how the number of holders of a cell changes when one collection changes its cells |
| CopyOnWrite.Resources.SoleHolder | include/mesos/resources.hpp:747-776 | a use count of one means that no other collection holds the cell |
| CopyOnWrite.Resources.MakeExclusive | include/mesos/resources.hpp:747-776 | a shared cell is replaced by a copy, an unshared one is left; contents and all other collections stay |
| CopyOnWrite.Resources.Write | include/mesos/resources.hpp:747-776 | writing to an exclusive cell changes one collection only |
| CopyOnWrite.Resources.Update | src/common/resources.cpp:2244-2252 | copy-on-write: one entry of one collection changes, and no other collection does |
| CopyOnWrite.Resources.AddEntry | src/common/resources.cpp:2236-2263 | adding a value gives what addition on values gives, and leaves every other collection unchanged |
| CopyOnWrite.Resources.AddShared | src/common/resources.cpp:2298-2324 | the same when the added entry may become shared between the two |
| CopyOnWrite.Resources.SubtractEntry | src/common/resources.cpp:2403-2448 | subtracting gives what subtraction on values gives, and leaves every other collection unchanged |
| CopyOnWrite.Resources.Remove | src/common/resources.cpp:2429-2441 | the last entry takes the place of the removed one, use counts stay exact |
| CopyOnWrite.Resources.Allocate | src/common/resources.cpp:1601-1612 | every entry is allocated to the role, in this collection only |
| CopyOnWrite.Resources.Unallocate | src/common/resources.cpp:1615-1628 | every allocation is cleared, in this collection only |
| CopyOnWrite.Resources.AddFrom | src/common/resources.cpp:2363-2372 | adding a whole collection agrees with addition on values and leaves the others, including its operand, unchanged |
| CopyOnWrite.Resources.SubtractFrom | src/common/resources.cpp:2469-2478 | subtracting a whole collection, likewise |
| CopyOnWrite.CopyOf | include/mesos/resources.hpp:747-776 | a copy shares all cells, has the same contents and keeps use counts exact |
| Conversions.TotalAddTo | src/common/resources.cpp:1884-1905 | how the total of a name changes when a resource is added |
| Conversions.TotalSubtract | src/common/resources.cpp:1884-1905 | how the total of a name changes when a contained resource is subtracted |
| Conversions.ConversionConserves | src/common/resources.cpp:2708-2729 | replacing held resources by as many others changes no total of any name |
| Conversions.RestackCombined | src/common/resources.cpp:1749-1804 | pushing, popping and clearing reservations give a combined collection again |
| Conversions.RestackTotals | src/common/resources.cpp:1749-1804 | they change no total of any name |
| Operations.ConservesIff | src/common/resources.cpp:2708-2729 | an applied conversion of equal totals conserves them if and only if everything consumed was held, counting equal disks |
| Operations.ShareConservesIff | src/common/resources.cpp:2708-2729 | creating a shared volume conserves totals if and only if no copy of it is held yet, and otherwise loses its amount |
| Operations.UnshareConserves | src/common/resources.cpp:2708-2729 | destroying a shared volume conserves totals, because it fails while other copies are held |
| Operations.ReserveBalanced | src/common/resources_utils.cpp:121-138 | RESERVE consumes and yields equal totals |
| Operations.ReserveFromBalanced | src/common/resources_utils.cpp:121-138 | so does RESERVE with explicit sources that match once unreserved |
| Operations.UnreserveBalanced | src/common/resources_utils.cpp:139-147 | so does each step of UNRESERVE |
| Operations.VolumeBalanced | src/common/resources_utils.cpp:148-205 | so do CREATE and DESTROY of a volume that is not shared |
| Operations.GrowBalanced | src/common/resources_utils.cpp:206-222 | so does GROW_VOLUME |
| Operations.ShrinkConservesIff | src/common/resources_utils.cpp:223-255 | SHRINK_VOLUME conserves totals if and only if it frees no more than the volume has |
| Effects.ApplyOperation | src/common/resources.cpp:1855-1880 | succeeds exactly when stated for each operation, and the result then holds exactly what is stated for it; aborted if and only if a resource to lose a reservation has none; refused for resizing a volume of a resource provider; the equalities of totals checked at the end hold for every validated operation, which is never aborted |
| Effects.OperationEffect | src/common/resources_utils.cpp:106-259 | RESERVE gives the reserved resources for their sources or for themselves without the last reservation; CREATE volumes for their space and DESTROY space for volumes; GROW_VOLUME the larger volume for the volume and the addition; SHRINK_VOLUME the smaller volume and the freed space: each succeeds if and only if all that it takes is held (DESTROY: in one copy), and changes nothing else |
| Effects.UnreserveSteps | src/common/resources_utils.cpp:139-147 | UNRESERVE succeeds if and only if each resource is held at its turn, and moves each to the stack without its last reservation |
| Effects.OneVolume | src/common/resources_utils.cpp:148-205 | CREATE: one volume more, and one disk or as much space less; DESTROY the other way round; every other number stays |
| Effects.ConversionTrades | src/common/resources.cpp:2708-2729 | a conversion of listed resources applies if and only if they are held, and the numbers held change by exactly what is taken and given |
| Operations.OperationConserves | src/common/resources.cpp:1855-1880 | no validated operation changes the total of any resource name, after any number of its steps |
| Checkpoints.ApplyCheckpointed | src/common/resources_utils.cpp:48-96 | for valid stacks, replay succeeds if and only if every resource is dynamically reserved or a volume, not of a resource provider, and the agent holds all that they are made of together; the result then has each in the place of what it is made of; no total changes if and only if no copy of a checkpointed shared volume is held already |
| Checkpoints.MadeOfIff | src/common/resources_utils.cpp:57-80 | a checkpointed resource is made of the same resource, not shared, with the reservations below the first dynamic one, and with the source of the disk in place of a volume, or no disk where it had no source |
| Checkpoints.ReplayStep | src/common/resources_utils.cpp:82-92 | one replayed resource changes no total if and only if it is not a shared volume held already, and otherwise loses some |
| Checkpoints.ReplayLoses | src/common/resources_utils.cpp:82-92 | an agent that holds a copy of the volume and the disk to make another loses half of the disk |
| Ranges.CoalesceInPlace | src/common/values.cpp:197-231 | the pass in place computes the pass on values: no range is overwritten before it is read |
| Ranges.Coalesce | src/common/values.cpp:181-255 | copy, sort, pass and copy out |
| Ranges.ScanFacts | src/common/values.cpp:197-231 | the pass keeps the set of integers covered, valid ranges and increasing starts, for every input |
| Ranges.CoalesceCorrect | src/common/values.cpp:181-255 | the result covers the same integers for every input, and is sorted, disjoint and not adjacent if and only if no increment of an end wraps around |
| Ranges.CanonicalUnique | src/common/values.cpp:181-255 | a set of integers has one such form |
| Ranges.LessEqual | src/common/values.cpp:452-476 | decides inclusion of the sets of integers, for all valid inputs, wrapping or not |
| Ranges.Equal | src/common/values.cpp:420-449 | holds if and only if the coalesced lists are the same; where neither operand wraps this decides whether the same integers are covered; where exactly one does it never holds |
| Ranges.DecidesEqualityIff | src/common/values.cpp:420-449 | comparing a list with every list that does not wrap is right if and only if the list itself does not wrap |
| Ranges.AlwaysDecidesEqualityIff | src/common/values.cpp:420-449 | comparing a list with every valid list is right if and only if it does not cover both of the two largest integers |
| Ranges.EqualCanMissWrapped | src/common/values.cpp:420-449 | two lists that cover the same integers, one of which wraps, and whose coalesced lists differ |
| RangeDifference.Subtract | src/common/values.cpp:259-353 | exactly the set difference for any left ranges that share no more than an end and any right ones, with disjoint valid ranges in order for a disjoint left operand; for every left operand nothing is added and nothing lost but what the right one covers |
| RangeDifference.CutBounds | src/common/values.cpp:286-350 | the two bounds for any operands, sorted or not |
| RangeDifference.CutsExactlyIff | src/common/values.cpp:286-350 | the walk over a sorted left operand is the exact difference for every right one if and only if each of its ranges ends where the next begins or before |
| RangeDifference.CutApart | src/common/values.cpp:286-350 | disjoint left ranges give disjoint ranges, in order |
| RangeDifference.OverlapIsKept | src/common/values.cpp:286-350 | with overlapping left ranges an integer of the right operand can stay |
| RangeDifference.Walk | src/common/values.cpp:286-350 | the two cursors in place compute the walk on values |
| Quantities.ResourceQuantities.Get | src/common/resource_quantities.cpp:162-176 | the amount of a name, zero when absent |
| Quantities.ResourceQuantities.Contains | src/common/resource_quantities.cpp:179-212 | holds if and only if no amount of the other is larger, absent being zero |
| Quantities.ResourceQuantities.AddAll | src/common/resource_quantities.cpp:227-263 | pointwise sum, also of an object with itself; the vector stays strictly sorted and positive |
| Quantities.ResourceQuantities.SubtractAll | src/common/resource_quantities.cpp:266-300 | pointwise difference truncated at zero, the vector staying strictly sorted and positive; an object subtracted from itself keeps every other entry |
| Quantities.SelfDifferenceIff | src/common/resource_quantities.cpp:266-300 | an object subtracted from itself becomes empty if and only if it has at most one entry |
| Quantities.ResourceQuantities.Add | src/common/resource_quantities.cpp:321-346 | adds to one name and to no other; zero changes nothing |
| Quantities.SortedUnique | src/common/resource_quantities.cpp:215-218 | sorted vectors are equal if and only if they are the same map, so vector equality compares maps |
| Quantities.SumAndDifference | src/common/resource_quantities.cpp:227-300 | (a + b) - b is a, and (a - b) + b is a if and only if a contains b |
| Quantities.ResourceLimits.Get | src/common/resource_quantities.cpp:431-445 | the limit of a name, none when absent |
| Quantities.ResourceLimits.ContainsLimits | src/common/resource_quantities.cpp:448-481 | holds if and only if every limit is at least the other's, absent being infinite |
| Quantities.LimitsApart | src/common/resource_quantities.cpp:459-461 | a limit on `cpu` and a limit on `mem`: neither contains the other |
| Quantities.ResourceLimits.ContainsQuantities | src/common/resource_quantities.cpp:497-508 | holds if and only if every quantity is within its limit |
| Quantities.ResourceLimits.SubtractAll | src/common/resource_quantities.cpp:511-542 | infinite limits stay infinite, finite ones stop at zero and are kept |
| Quantities.ResourceLimits.Set | src/common/resource_quantities.cpp:554-574 | one limit is overwritten, no other changes |
| Shrinking.Shrink | src/common/resources.cpp:1288-1318 | succeeds if and only if the resource fits or is not a volume or a MOUNT, BLOCK or identified RAW disk, and then leaves the smaller of amount and target |
| Shrinking.FromScalarResource | src/common/resource_quantities.cpp:91-101 | the quantities of one resource: its amount under its name |
| Shrinking.ShrinkToQuantities | src/common/resources_utils.cpp:923-953 | for every order: the result is contained in the input; no total exceeds its target; totals are exactly the smaller of total and target where everything can be divided; whole disks are dropped only when larger than what is left; names without a target are dropped |
| Shrinking.ShrinkToLimits | src/common/resources_utils.cpp:956-987 | the same, but names without a limit are kept, each shared volume with one copy |
| Shrinking.UnlimitedIffSingle | src/common/resources_utils.cpp:956-987 | resources without a limit come through as they are if and only if no shared volume among them has more than one copy |
| Shrinking.CopyIsLost | src/common/resources_utils.cpp:956-987 | two copies of a volume without a limit become one |
| Finding.RestackAdds | src/common/resources.cpp:1787-1804 | unreserving a sum is the sum of what is unreserved |
| Preferring.FindOne | src/common/resources.cpp:2094-2140 | what is found is held and makes up the target once unreserved; it comes from the target's role where that offers all of it and no part, then from unreserved resources; a divisible scalar comes from an entry of the role, then the unreserved one, then another, each giving all it has before the next; a target that one entry could meet is missed only when a smaller entry got in the way |
| Preferring.SearchPrefers | src/common/resources.cpp:2094-2140 | if an entry of the target's role has all of the target and none there falls short, the result has the reservations of such an entry; if none of that role is of use and an unreserved entry has all and falls not short, the result is unreserved |
| Preferring.ScalarShares | src/common/resources.cpp:2094-2140 | how much of a divisible scalar target is taken under which reservations |
| Preferring.OthersLast | src/common/resources.cpp:2094-2140 | other roles give only what the target's role and the unreserved entry together lack |
| Finding.SpreadIsMissed | src/common/resources.cpp:2094-2140 | two CPUs in two roles are not found for a target of two |
| SearchOrders.FoundIffSum | src/common/resources.cpp:2094-2140 | a divisible scalar target is found if and only if the entries taken, the first of its class for each preference, have as much together |
| SearchOrders.FoundInEveryOrderIff | src/common/resources.cpp:2094-2140 | such a target is found in every order of the entries if and only if every choice of one entry for each preference, of those not chosen before, has enough |
| SearchOrders.FoundWholeIff | src/common/resources.cpp:2094-2140 | an exclusive disk or a shared volume is found if and only if it is there under some reservations, whatever the order |
| Targets.FindAll | src/common/resources.cpp:1829-1846 | computes the sum of the searches for each target; the result makes up all targets once unreserved, and is held when no two are rivals; a failure is the failure of one target |
| Targets.RivalsIff | src/common/resources.cpp:1829-1846 | two targets are rivals if and only if, once unreserved, they share something other than a member: an amount, an exclusive disk or a shared volume |
| Targets.FoundBare | src/common/resources.cpp:2094-2140 | what is found for a target is only what the target asks for |
| Targets.AlwaysHeldIff | src/common/resources.cpp:1829-1846 | in every collection what is found for all targets is held, if and only if no two targets are rivals |
| Targets.RivalsFoundTwice | src/common/resources.cpp:1829-1846 | the collection that has just enough for each target by itself: all are found in it, and together they are more than it holds |
| Targets.FoundTwice | src/common/resources.cpp:1829-1846 | five CPUs are found for a target of three and a reserved one of four, which together are more than is held |
| Roles.SubroleIrreflexive | src/common/roles.cpp:35-55 | no role is strictly below itself |
| Roles.SubroleTransitive | src/common/roles.cpp:35-55 | strictly below is transitive |
| Roles.SuperrolesAreOrdered | src/common/roles.cpp:35-55 | the roles above a role form a chain |
| Roles.Ancestors | src/common/roles.cpp:58-69 | exactly the roles strictly above, longest first |
| Roles.ValidIff | src/common/roles.cpp:85-141 | a role is valid if and only if it is `*` or every part between slashes is not empty, not `.`, `..` or `*`, starts with no dash and has neither whitespace nor delete |
| Roles.AncestorsAreValid | src/common/roles.cpp:85-141 | every role above a valid role is valid |
| Reservations.AllocatableIff | src/common/resources.cpp:1190-1200 | a reserved resource is allocatable exactly to the role of its last reservation and the roles whose path continues it |
| Reservations.StackIsChain | src/common/resources.cpp:1009-1029 | every role on a valid stack is strictly above every later one |
| Reservations.PopKeepsAllocatable | src/common/resources.cpp:1190-1200 | popping any number of reservations takes no role away that the resource was allocatable to, and leaves a valid stack |
| Reservations.PushNarrows | src/common/resources.cpp:1190-1200 | pushing one only takes roles away, among them the role of the reservation refined |
| Reservations.RestackIsPointwise | src/common/resources.cpp:1749-1784 | where no two entries become of one class, each entry is changed by itself |
| Reservations.PushThenPop | src/common/resources.cpp:1749-1784 | pushing a reservation and popping it again gives the same entries |
| Reservations.GetReservationAncestor | src/common/resources.cpp:1340-1352 | the longest stack that both can be popped to, valid if they are |
| RecordIO.RunFacts | src/common/recordio.hpp:161-257 | over every interleaving of reads and chunks the state agrees with what has arrived and how the stream closed |
| RecordIO.DeliveredInOrder | src/common/recordio.hpp:161-257 | the k-th read gets the k-th record; pending reads and buffered records are never both there; buffered records come before end-of-file or failure; no read stays pending after either |
| RecordIO.PendingRead | src/common/recordio.hpp:196-214 | a read that no record reaches before the stream closes is told how it closed, message included |
| RecordIO.LateRead | src/common/recordio.hpp:161-181 | a read made after the stream closed and its records are gone gets the latest failure, message included, or else end-of-file |
| RecordIO.AnswersStay | src/common/recordio.hpp:161-257 | an answer once given stays |
| RecordIO.ReaderProcess.Read | src/common/recordio.hpp:161-181 | one read is one step of the machine |
| RecordIO.ReaderProcess.FailAll | src/common/recordio.hpp:196-204 | every pending read fails |
| RecordIO.ReaderProcess.Complete | src/common/recordio.hpp:206-214 | every pending read sees end-of-file |
| RecordIO.ReaderProcess.Consume | src/common/recordio.hpp:224-257 | one chunk is one step of the machine |
| RecordIO.ReaderProcess.Finalize | src/common/recordio.hpp:189-193 | termination is one step of the machine |
| RecordIO.Transform | src/common/recordio.hpp:111-142 | writes the mapped records up to the first that cannot be read or written, and succeeds if and only if that is end-of-file |
| RecordIO.StopOfRun | src/common/recordio.hpp:111-142 | over a closed stream of good records, reading stops right after the last record that arrived |
| Formats.ResourceMessage.Convert | src/common/resources_utils.cpp:371-453 | the conversion in place computes the conversion on values, assertions included |
| Formats.UpgradeIsPost | src/common/resources_utils.cpp:414-450 | upgrading gives the newer format and changes nothing in it |
| Formats.EndpointShows | src/common/resources_utils.cpp:371-412 | an endpoint resource keeps its stack and carries the role `*` when unreserved, the role and for a dynamic reservation its principal and labels when reserved once, and neither when refined |
| Formats.UpgradeUndoesEndpoint | src/common/resources_utils.cpp:371-453 | upgrading undoes the endpoint conversion, for every resource |
| Formats.UpgradeUndoesDowngrade | src/common/resources_utils.cpp:861-872 | downgrading fails if and only if reservations are refined, and upgrading undoes it if and only if the resource is unreserved, dynamically reserved, or statically reserved without principal and labels, to a role other than the default |
| Formats.PrincipalIsLost | src/common/resources_utils.cpp:371-453 | a static reservation comes back without its principal |
| Formats.DowngradeUndoesUpgrade | src/common/resources_utils.cpp:371-453 | downgrading undoes upgrading if and only if the role is given and a reservation carries neither type nor role |
| TypeMarking.Marker.Visit | src/common/resources_utils.cpp:482-507 | one visit of the search in place computes the search on values |
| TypeMarking.MarkedDone | src/common/resources_utils.cpp:482-507 | on every type graph, a visit keeps earlier marks, marks exactly what it reaches with all fields visited, and every true mark is right |
| TypeOrders.PrecomputeContainment | src/common/resources_utils.cpp:482-507 | on every type graph exactly the reachable types are marked, true marks are right and so is the mark of the type itself; all marks are right when every type has a way to the resource around the types passed on the way to it |
| TypeOrders.RightForAllOrdersIff | src/common/resources_utils.cpp:482-507 | for a set of types, the marks are right for every order in which fields are declared if and only if each of them that can hold a resource, on whatever simple path it is come to, has a way to the resource around the types on that path |
| TypeOrders.AllRightIff | src/common/resources_utils.cpp:482-507 | the same for all types of the graph |
| TypeOrders.NoEscapeMissed | src/common/resources_utils.cpp:482-507 | a type without such a way is marked false in some order of the fields |
| TypeOrders.SelfLoopsEscape | src/common/resources_utils.cpp:482-507 | a type that holds itself does no harm: where the only cycles are self-loops there are always ways around |
| TypeOrders.CycleIsMissed | src/common/resources_utils.cpp:482-507 | with a longer cycle a type that reaches the resource keeps a false mark |
| Messages.FullConverts | src/common/resources_utils.cpp:510-562 | the full traversal converts exactly the outermost resources in order, stops at the first failure and touches nothing else |
| Messages.PrunedIsFull | src/common/resources_utils.cpp:510-562 | skipping unmarked fields changes nothing when the marks miss no type that occurs outside resources |
| Messages.ConvertMarked | src/common/resources_utils.cpp:510-562 | the traversal that skips unmarked fields, and its agreement with the full one |
| Messages.ConvertMessage | src/common/resources_utils.cpp:585-605 | marking and converting agree with the full traversal when the types that occur outside resources have ways around |
| Messages.ConvertsAllIff | src/common/resources_utils.cpp:585-605 | every message of a type is converted completely, whatever the order of fields, if and only if the types that occur outside resources have ways around |
| Messages.CycleIsSkipped | src/common/resources_utils.cpp:585-605 | with a longer cycle a resource is left unconverted |
| Messages.MessageRoundTrip | src/common/resources_utils.cpp:510-562 | converting a whole message and back restores it if and only if that restores each of its resources |
| Messages.MessageFormats | src/common/resources_utils.cpp:905-920 | a message survives downgrading and upgrading if and only if each of its resources can be expressed in the older format, and always survives the endpoint format |
| Messages.DowngradeResources | src/common/resources_utils.cpp:875-887 | succeeds if and only if no resource is refined; the ones before the first refined one are converted, the others untouched |
| Health.HealthChecker.ProcessCheckResult | src/checks/health_checker.cpp:139-291 | a check error, a non-zero exit code, a status outside 200 to 399 or a refused connection counts and is reported as unhealthy unless ignored in the grace period; anything else resets the counter and is reported when due; after every result the fields and the updates sent are those that the history calls for |
| Health.HealthChecker.Failure | src/checks/health_checker.cpp:294-320 | a failure outside the grace period counts and is reported, with a kill at the threshold |
| Health.HealthChecker.Success | src/checks/health_checker.cpp:323-338 | a success resets the counter and is reported when it is the first or ends failures |
| Health.IgnoredFirst | src/checks/health_checker.cpp:294-302 | no failure is ignored after the first success nor, on a monotone clock, after a failure that counted |
| Health.FailuresAreRecent | src/checks/health_checker.cpp:294-338 | the counter is a number of most recent failures; after a success, all of them since the last one |
| Health.FailuresBeforeSuccess | src/checks/health_checker.cpp:294-304 | before the first success the counter is the number of failures outside the grace period |
| Health.HealthyApart | src/checks/health_checker.cpp:323-338 | between two healthy updates there is an unhealthy one, over every history |
| Health.CountsFollow | src/checks/health_checker.cpp:304-320 | the reported counts go up by one from one or from the previous update, and ask for a kill exactly from the threshold on |

## Left out

- CSI: volumes that exist before the manager (pre-provisioned), publish and volume contexts, secrets, capacity, listing and validation, deleting a volume that is not tracked, and the v1 manager.
- CSI: gRPC connections, retry back-off and plugin containers; a call is its final answer.
- Ranges.Equal: for two given operands that both wrap it says that the coalesced lists are compared, not when those of equal sets agree; for one operand against all others the condition is exact.
- RangeDifference.Subtract: for a left operand whose ranges overlap in more than an end only the two bounds are stated, because the exact difference fails there.
- CopyOnWrite.Resources.AddFrom: the operands are distinct, because the loop of the source runs over the vector that it changes.
- CopyOnWrite.Resources.SubtractFrom: the operands are distinct, for the same reason.
- Preferring.FindOne: for targets of RANGES and SET type no exact condition is stated for being found; for the other types `SearchOrders` has it.
- Preferring.SearchPrefers: where entries of the target's role have only a part of the target, what is taken from which role is stated for divisible scalars alone (`Preferring.ScalarShares`).
- Operations: validation of operations by the master; its guarantees are preconditions. LAUNCH, LAUNCH_GROUP, CREATE_DISK and DESTROY_DISK, which have no conversion of this kind.
- Checkpoints.ApplyCheckpointed: the exact condition is stated for valid stacks of reservations; for others only where the replay ends.
- Conversions: the sanity assertions after an operation are the equalities of totals, without their messages.
- CopyOnWrite: allocation rewrites roles without merging entries, so the combined form is not claimed after it.
- Messages: messages are rewritten as trees instead of in place; fields that are not messages are one opaque body.
- Formats: resource fields other than role and reservations, which no conversion touches.
- Health.HealthChecker.Failure: the counter does not wrap at 2^32.
- RecordIO: decoding of records from bytes; a decoder is any source of batches or of an error.
- Values: set operators and their positional equality, parsing and printing, IEEE doubles.
- Quantities: parsing from text and protobuf maps.
- Roles: error messages of validation; whitelists.
- Resources: parsing, JSON, metrics, logging, authorisation and HTTP.
