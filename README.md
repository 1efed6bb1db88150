# GEEquip equipment container — a Dafny model

This project models the core of the GEEquip Unreal plugin: the replicated equipment container `FActiveEquipmentContainer`.

- **Container.** It holds an ordered list of entries. Each entry has a handle, a slot tag, an item, an instance and an equipped flag. The container also keeps a one-shot ready flag and two pending-handle sets.
- **Handle allocator.** A process-wide counter that issues the handles.
- **Fragment filter.** The policy filter by which an equipment instance fans its four lifecycle hooks out to its fragments.
- **Manager component.** It puts an authority check in front of every mutation.
- **Equipment set.** It bulk-adds slot/item pairs and then equips a default slot.

Engine collaborators are reduced as follows:

- The owner's roles become three booleans (`Equipment.Role`).
- An item definition becomes a record of its addable slots and its optional instance configuration.
- An instance is named by the handle of the entry that created it.
- Every hook call and every slot-change broadcast is appended to an event trace, so ordering can be stated.

Module layout:

- `ActiveEquipmentSpec` has one pure function per container operation, from the old state to the new one.
- `ActiveEquipment.ActiveEquipmentContainer` is the class that runs the same steps in place with loops. Each of its methods is proved to leave exactly the state the matching function computes. The server-side operations require the container invariant `ValidState` and keep it. The three replication callbacks can run while a replaced entry and its successor still share a slot, because the engine erases removed entries only after the callbacks. So they require only an owner, in-range indices and, for the add and change callbacks, entries with instances, and they keep the invariant whenever it held before.
- `ActiveEquipmentInvariants` proves that every operation keeps the invariant: entries fully set, unique slots, distinct handles, and nothing pending once ready.
- `RemovalProperties`, `EquipProperties`, `AddProperties` and `LifecycleProperties` prove what the operations promise: survivor order, event order, single-active, round trips, and drain replay.
- `EquipmentManager` and `EquipmentSetAsset` model the manager component and the equipment set.

Three behaviours of the code are worth stating on their own:

- **PostReplicatedChange before ready.** Each changed index first adds its handle to the pending-equipped set ("equipped") and then removes it ("unequipped"). The net effect cancels a pending equip rather than recording one (`LifecycleProperties.PostReplicatedChangeBeforeReady`).
- **Immediate equip.** "At most one entry equipped" is not an invariant of the container. `AddEquipmentItem` with immediate equip equips the new entry without unequipping an entry in another slot, so two entries can end up equipped (`AddProperties.AddImmediateMayLeaveTwoEquipped`). Single-active is kept by `EquipEquipment`, by `UnequipEquipment` and by adds without immediate equip (`EquipProperties.EquipKeepsAtMostOneEquipped`, `AddProperties.AddWithoutImmediateKeepsSingleActive`).
- **Add checks before removal.** Every check of `AddEquipmentItem` runs before the same-slot removal, so a rejected add changes nothing (`ActiveEquipmentSpec.AddEquipmentItem`).

## Model

| member | source | states |
|---|---|---|
| ActiveEquipmentSpec.TryEquip | Source/GEEquip/GEEquip/Equipment/ActiveEquipment.cpp:26-49 | equips exactly when the instance may become active and the entry is not yet equipped; otherwise the entry is returned unchanged |
| ActiveEquipmentSpec.TryUnequip | Source/GEEquip/GEEquip/Equipment/ActiveEquipment.cpp:51-65 | succeeds exactly when the entry was equipped; the result is always unequipped |
| ActiveEquipmentSpec.DefaultEntry | Source/GEEquip/GEEquip/Equipment/ActiveEquipment.h:31-62 | a default entry has an invalid handle and slot, no item, no instance, is unequipped and is not valid |
| ActiveEquipmentSpec.EntryIsValid | Source/GEEquip/GEEquip/Equipment/ActiveEquipment.cpp:77-80 | an entry is valid exactly when its handle and slot are valid and it has an item and an instance |
| ActiveEquipmentSpec.Initial | Source/GEEquip/GEEquip/Equipment/ActiveEquipment.h:115-146 | a new container has no entries, is not ready, and both pending sets and the trace are empty |
| ActiveEquipmentSpec.Contents | Source/GEEquip/GEEquip/Equipment/ActiveEquipment.cpp:655-673 | a slot-change message carries the entry's slot and item, and an instance exactly when the entry has one |
| ActiveEquipmentSpec.Broadcast | Source/GEEquip/GEEquip/Equipment/ActiveEquipment.cpp:655-673 | at most one broadcast, made exactly when the owner has a local net owner |
| ActiveEquipmentSpec.HandleEquipmentGiven | Source/GEEquip/GEEquip/Equipment/ActiveEquipment.cpp:550-564 | before ready the trace and the pending-equipped set are unchanged and the handle joins the pending-given set; once ready the pending sets are unchanged and the "given" hook is appended, then the slot-change broadcast of the entry; entries never change |
| ActiveEquipmentSpec.HandleEquipmentRemove | Source/GEEquip/GEEquip/Equipment/ActiveEquipment.cpp:566-580 | before ready the trace and the pending-equipped set are unchanged and the handle leaves the pending-given set; once ready the pending sets are unchanged and the "removed" hook (if the entry has an instance) is appended, then a clearing broadcast for its slot; entries never change |
| ActiveEquipmentSpec.HandleEquipmentEquiped | Source/GEEquip/GEEquip/Equipment/ActiveEquipment.cpp:582-599 | before ready the trace and the pending-given set are unchanged and the handle joins the pending-equipped set; once ready an equipped entry appends the "equipped" hook and its broadcast, and an unequipped entry changes nothing |
| ActiveEquipmentSpec.HandleEquipmentUnequiped | Source/GEEquip/GEEquip/Equipment/ActiveEquipment.cpp:601-615 | before ready the trace and the pending-given set are unchanged and the handle leaves the pending-equipped set; once ready an unequipped entry with an instance appends the "unequipped" hook, and an equipped entry changes nothing |
| ActiveEquipmentSpec.FirstIndex | Source/GEEquip/GEEquip/Equipment/ActiveEquipment.cpp:226-242 | the index of the first selected entry (none before it is selected), or INDEX_NONE exactly when none is selected |
| ActiveEquipmentSpec.LastIndex | Source/GEEquip/GEEquip/Equipment/ActiveEquipment.cpp:346-357 | the index of the last selected entry (none after it is selected), or INDEX_NONE exactly when none is selected |
| ActiveEquipmentSpec.Delete | Source/GEEquip/GEEquip/Equipment/ActiveEquipment.cpp:239-240 | one entry shorter; every other entry keeps its relative order |
| ActiveEquipmentSpec.UnequipAt | Source/GEEquip/GEEquip/Equipment/ActiveEquipment.cpp:493-501 | only the target's flag is cleared; silent before ready; pending sets untouched once ready |
| ActiveEquipmentSpec.EquipAt | Source/GEEquip/GEEquip/Equipment/ActiveEquipment.cpp:436-448 | succeeds exactly when TryEquip would; only the target's flag can change; a failure changes nothing |
| ActiveEquipmentSpec.RemoveAt | Source/GEEquip/GEEquip/Equipment/ActiveEquipment.cpp:230-241 | the entry is deleted and the others keep their order; silent before ready |
| ActiveEquipmentSpec.RetireAt | Source/GEEquip/GEEquip/Equipment/ActiveEquipment.cpp:104-111 | only the target's flag is cleared and nothing is erased; keeps the ready flag; silent before ready; pending sets untouched once ready |
| ActiveEquipmentSpec.SweepFrom | Source/GEEquip/GEEquip/Equipment/ActiveEquipment.cpp:290-305 | keeps the ready flag; silent before ready; pending sets untouched once ready (survivors and events in RemovalProperties.SweepEntries and SweepEvents) |
| ActiveEquipmentSpec.RemoveEquipmentItem | Source/GEEquip/GEEquip/Equipment/ActiveEquipment.cpp:215-277 | keeps the ready flag; silent before ready; pending sets untouched once ready (which entry goes in RemovalProperties.RemoveFirstMatch) |
| ActiveEquipmentSpec.RemoveMultipleEquipmentItems | Source/GEEquip/GEEquip/Equipment/ActiveEquipment.cpp:279-308 | keeps the ready flag; silent before ready; pending sets untouched once ready (survivors in RemovalProperties.RemoveMultipleSurvivors) |
| ActiveEquipmentSpec.RemoveAllEquipmentItem | Source/GEEquip/GEEquip/Equipment/ActiveEquipment.cpp:310-327 | keeps the ready flag; silent before ready; pending sets untouched once ready (empties the list by RemovalProperties.RemoveAllEmpties) |
| ActiveEquipmentSpec.AddEquipmentItem | Source/GEEquip/GEEquip/Equipment/ActiveEquipment.cpp:138-212 | succeeds exactly when the item, slot, equipment info, addable-slot and class checks all pass; a rejection changes nothing; the ready flag is kept |
| ActiveEquipmentSpec.AppendEntry | Source/GEEquip/GEEquip/Equipment/ActiveEquipment.cpp:182-207 | the tail of a successful add keeps the ready flag, is silent before ready and leaves the pending sets alone once ready |
| ActiveEquipmentSpec.EquipEquipment | Source/GEEquip/GEEquip/Equipment/ActiveEquipment.cpp:330-434 | keeps the ready flag; silent before ready; pending sets untouched once ready (result and flags in EquipProperties.EquipResult) |
| ActiveEquipmentSpec.UnequipEquipment | Source/GEEquip/GEEquip/Equipment/ActiveEquipment.cpp:451-491 | keeps the ready flag; silent before ready; pending sets untouched once ready (result in EquipProperties.UnequipResult) |
| ActiveEquipmentSpec.HandleInitialized | Source/GEEquip/GEEquip/Equipment/ActiveEquipment.cpp:504-526 | the result is ready with the same entries; both pending sets end empty unless the container was already ready, in which case nothing changes (the replayed events are given by LifecycleProperties.HandleInitializedReplays) |
| ActiveEquipmentSpec.DrainFrom | Source/GEEquip/GEEquip/Equipment/ActiveEquipment.cpp:510-521 | the replay keeps the entries and both pending sets |
| ActiveEquipmentSpec.PreReplicatedRemove | Source/GEEquip/GEEquip/Equipment/ActiveEquipment.cpp:100-113 | erases no entry and keeps the ready flag; silent before ready |
| ActiveEquipmentSpec.AddedStep | Source/GEEquip/GEEquip/Equipment/ActiveEquipment.cpp:119-122 | needs an instance on the entry only once ready; entries and ready flag unchanged; silent before ready; pending sets untouched once ready |
| ActiveEquipmentSpec.PostReplicatedAdd | Source/GEEquip/GEEquip/Equipment/ActiveEquipment.cpp:115-124 | needs instances only on the listed entries and only once ready; entries and ready flag unchanged; silent before ready; pending sets untouched once ready |
| ActiveEquipmentSpec.ChangedStep | Source/GEEquip/GEEquip/Equipment/ActiveEquipment.cpp:130-133 | needs an instance on the entry only once ready; entries and ready flag unchanged; silent before ready; pending sets untouched once ready |
| ActiveEquipmentSpec.PostReplicatedChange | Source/GEEquip/GEEquip/Equipment/ActiveEquipment.cpp:126-135 | needs instances only on the listed entries and only once ready; entries and ready flag unchanged; silent before ready; pending sets untouched once ready |
| ActiveEquipmentSpec.ActiveSlotInfo | Source/GEEquip/GEEquip/Equipment/ActiveEquipment.cpp:618-634 | the first equipped entry's message, or none exactly when no entry is equipped |
| ActiveEquipmentSpec.SlotInfo | Source/GEEquip/GEEquip/Equipment/ActiveEquipment.cpp:636-652 | the first entry in the slot, or none exactly when no entry is in the slot |
| ActiveEquipmentInvariants.AddEquipmentItemValid | Source/GEEquip/GEEquip/Equipment/ActiveEquipment.cpp:178-197 | an add with a never-issued handle keeps the invariant and keeps the counter ahead of every handle |
| ActiveEquipmentInvariants.AddEquipmentItemShape | Source/GEEquip/GEEquip/Equipment/ActiveEquipment.cpp:178-188 | a successful add keeps what the same-slot removal left, in order, and appends exactly one entry |
| ActiveEquipmentInvariants.RemoveEquipmentItemValid | Source/GEEquip/GEEquip/Equipment/ActiveEquipment.cpp:215-277 | removal keeps the invariant, and every remaining entry was there before |
| ActiveEquipmentInvariants.RemoveBySlotClearsSlot | Source/GEEquip/GEEquip/Equipment/ActiveEquipment.cpp:247-277 | with unique slots, removal by a valid slot leaves no entry in that slot |
| ActiveEquipmentInvariants.RemoveMultipleEquipmentItemsValid | Source/GEEquip/GEEquip/Equipment/ActiveEquipment.cpp:279-308 | removal by handle set keeps the invariant |
| ActiveEquipmentInvariants.RemoveAllEquipmentItemValid | Source/GEEquip/GEEquip/Equipment/ActiveEquipment.cpp:310-327 | removing everything keeps the invariant |
| ActiveEquipmentInvariants.EquipEquipmentValid | Source/GEEquip/GEEquip/Equipment/ActiveEquipment.cpp:330-434 | equip by handle or slot keeps the invariant |
| ActiveEquipmentInvariants.UnequipEquipmentValid | Source/GEEquip/GEEquip/Equipment/ActiveEquipment.cpp:451-491 | unequip by handle or slot keeps the invariant |
| ActiveEquipmentInvariants.HandleInitializedValid | Source/GEEquip/GEEquip/Equipment/ActiveEquipment.cpp:504-526 | the ready transition keeps the invariant |
| ActiveEquipmentInvariants.PreReplicatedRemoveValid | Source/GEEquip/GEEquip/Equipment/ActiveEquipment.cpp:100-113 | the removal callback keeps the invariant |
| ActiveEquipmentInvariants.PostReplicatedAddValid | Source/GEEquip/GEEquip/Equipment/ActiveEquipment.cpp:115-124 | the add callback keeps the invariant |
| ActiveEquipmentInvariants.PostReplicatedChangeValid | Source/GEEquip/GEEquip/Equipment/ActiveEquipment.cpp:126-135 | the change callback keeps the invariant |
| ActiveEquipment.ActiveEquipmentContainer.constructor | Source/GEEquip/GEEquip/Equipment/ActiveEquipment.h:115-146 | starts as the initial state, with no owner, and valid |
| ActiveEquipment.ActiveEquipmentContainer.RegisterOwner | Source/GEEquip/GEEquip/Equipment/ActiveEquipment.cpp:90-97 | binds the owner and changes nothing else |
| ActiveEquipment.ActiveEquipmentContainer.AddPendingGivenEquipment | Source/GEEquip/GEEquip/Equipment/ActiveEquipment.cpp:529-532 | adds the handle to the pending-given set; nothing else changes |
| ActiveEquipment.ActiveEquipmentContainer.RemovePendingGivenEquipment | Source/GEEquip/GEEquip/Equipment/ActiveEquipment.cpp:534-537 | removes the handle from the pending-given set; nothing else changes |
| ActiveEquipment.ActiveEquipmentContainer.AddPendingEquipedEquipment | Source/GEEquip/GEEquip/Equipment/ActiveEquipment.cpp:539-542 | adds the handle to the pending-equipped set; nothing else changes |
| ActiveEquipment.ActiveEquipmentContainer.RemovePendingEquipedEquipment | Source/GEEquip/GEEquip/Equipment/ActiveEquipment.cpp:544-547 | removes the handle from the pending-equipped set; nothing else changes |
| ActiveEquipment.ActiveEquipmentContainer.BroadcastSlotChangeMessage | Source/GEEquip/GEEquip/Equipment/ActiveEquipment.cpp:655-673 | appends the message to the trace exactly when the owner has a local net owner |
| ActiveEquipment.ActiveEquipmentContainer.HandleEquipmentGiven | Source/GEEquip/GEEquip/Equipment/ActiveEquipment.cpp:550-564 | leaves the state HandleEquipmentGiven specifies, calling the instance hook through the fragment filter |
| ActiveEquipment.ActiveEquipmentContainer.HandleEquipmentRemove | Source/GEEquip/GEEquip/Equipment/ActiveEquipment.cpp:566-580 | leaves the state HandleEquipmentRemove specifies |
| ActiveEquipment.ActiveEquipmentContainer.HandleEquipmentEquiped | Source/GEEquip/GEEquip/Equipment/ActiveEquipment.cpp:582-599 | leaves the state HandleEquipmentEquiped specifies |
| ActiveEquipment.ActiveEquipmentContainer.HandleEquipmentUnequiped | Source/GEEquip/GEEquip/Equipment/ActiveEquipment.cpp:601-615 | leaves the state HandleEquipmentUnequiped specifies |
| ActiveEquipment.ActiveEquipmentContainer.UnequipEquipmentAt | Source/GEEquip/GEEquip/Equipment/ActiveEquipment.cpp:493-501 | leaves the state UnequipAt specifies |
| ActiveEquipment.ActiveEquipmentContainer.EquipEquipmentAt | Source/GEEquip/GEEquip/Equipment/ActiveEquipment.cpp:436-448 | returns and leaves what EquipAt specifies |
| ActiveEquipment.ActiveEquipmentContainer.RemoveEntryAt | Source/GEEquip/GEEquip/Equipment/ActiveEquipment.cpp:230-241 | unequip if equipped, fire removed, then erase in place; leaves exactly the state RemoveAt specifies |
| ActiveEquipment.ActiveEquipmentContainer.AddEquipmentItem | Source/GEEquip/GEEquip/Equipment/ActiveEquipment.cpp:138-212 | matches the AddEquipmentItem function with the counter's next handle; the counter advances only on success; the out-handle is the new handle on success and unchanged otherwise; the invariant and counter freshness are kept |
| ActiveEquipment.ActiveEquipmentContainer.AppendEntry | Source/GEEquip/GEEquip/Equipment/ActiveEquipment.cpp:182-207 | appends the entry, fires "given", then equips it at once if asked, leaving the state AppendEntry specifies |
| ActiveEquipment.ActiveEquipmentContainer.RemoveEquipmentItem | Source/GEEquip/GEEquip/Equipment/ActiveEquipment.cpp:215-277 | the loop with break leaves the state the RemoveEquipmentItem function specifies, and keeps the invariant |
| ActiveEquipment.ActiveEquipmentContainer.RemoveMultipleEquipmentItems | Source/GEEquip/GEEquip/Equipment/ActiveEquipment.cpp:279-308 | the in-place sweep leaves the state RemoveMultipleEquipmentItems specifies, and keeps the invariant |
| ActiveEquipment.ActiveEquipmentContainer.RemoveAllEquipmentItem | Source/GEEquip/GEEquip/Equipment/ActiveEquipment.cpp:310-327 | the in-place sweep leaves the state RemoveAllEquipmentItem specifies, and keeps the invariant |
| ActiveEquipment.ActiveEquipmentContainer.EquipEquipment | Source/GEEquip/GEEquip/Equipment/ActiveEquipment.cpp:330-434 | the single scan finds the last matching and the last equipped index, and the method returns and leaves what EquipEquipment specifies |
| ActiveEquipment.ActiveEquipmentContainer.ScanForEquip | Source/GEEquip/GEEquip/Equipment/ActiveEquipment.cpp:343-354 | the scan's two indices are the last entry the target selects and the last equipped entry, INDEX_NONE when there is none |
| ActiveEquipment.ActiveEquipmentContainer.UnequipEquipment | Source/GEEquip/GEEquip/Equipment/ActiveEquipment.cpp:451-491 | leaves the state UnequipEquipment specifies, and keeps the invariant |
| ActiveEquipment.ActiveEquipmentContainer.HandleInitialized | Source/GEEquip/GEEquip/Equipment/ActiveEquipment.cpp:504-526 | the drain loop leaves the state HandleInitialized specifies, and keeps the invariant |
| ActiveEquipment.ActiveEquipmentContainer.GetActiveSlotInfo | Source/GEEquip/GEEquip/Equipment/ActiveEquipment.cpp:618-634 | found exactly when some entry is equipped; the info is the first equipped entry's message, else the caller's value unchanged |
| ActiveEquipment.ActiveEquipmentContainer.GetSlotInfo | Source/GEEquip/GEEquip/Equipment/ActiveEquipment.cpp:636-652 | found exactly when some entry is in the slot; the info is the first such entry's message, else the caller's value unchanged |
| ActiveEquipment.ActiveEquipmentContainer.PreReplicatedRemove | Source/GEEquip/GEEquip/Equipment/ActiveEquipment.cpp:100-113 | for any in-range indices, including on an array that momentarily holds two entries of one slot, leaves the state PreReplicatedRemove specifies; keeps the invariant when it held before |
| ActiveEquipment.ActiveEquipmentContainer.RetireEntryAt | Source/GEEquip/GEEquip/Equipment/ActiveEquipment.cpp:104-111 | one listed entry: unequipped if it was equipped, then removed, as RetireAt specifies |
| ActiveEquipment.ActiveEquipmentContainer.PostReplicatedAdd | Source/GEEquip/GEEquip/Equipment/ActiveEquipment.cpp:115-124 | for in-range indices, with instances needed only on the listed entries once ready, and also when two entries share a slot, leaves the state PostReplicatedAdd specifies; keeps the invariant when it held before |
| ActiveEquipment.ActiveEquipmentContainer.ReplicatedAddAt | Source/GEEquip/GEEquip/Equipment/ActiveEquipment.cpp:119-122 | one listed entry, which needs an instance only once ready: "given" then "equipped", as AddedStep specifies |
| ActiveEquipment.ActiveEquipmentContainer.PostReplicatedChange | Source/GEEquip/GEEquip/Equipment/ActiveEquipment.cpp:126-135 | for in-range indices, with instances needed only on the listed entries once ready, and also when two entries share a slot, leaves the state PostReplicatedChange specifies; keeps the invariant when it held before |
| ActiveEquipment.ActiveEquipmentContainer.ReplicatedChangeAt | Source/GEEquip/GEEquip/Equipment/ActiveEquipment.cpp:130-133 | one listed entry, which needs an instance only once ready: the equipped check, then the unequipped check, as ChangedStep specifies |
| RemovalProperties.KeepMembers | Source/GEEquip/GEEquip/Equipment/ActiveEquipment.cpp:279-308 | the reference filter holds exactly the unselected entries |
| RemovalProperties.SweepEntries | Source/GEEquip/GEEquip/Equipment/ActiveEquipment.cpp:279-327 | a sweep keeps the entries before its start and, after them, exactly the unselected entries in their old order |
| RemovalProperties.SweepEntriesSelected | Source/GEEquip/GEEquip/Equipment/ActiveEquipment.cpp:290-305 | at a selected entry, the sweep deletes it and goes on at the same index, so the entry is dropped and the rest keep their order |
| RemovalProperties.SweepEntriesSkipped | Source/GEEquip/GEEquip/Equipment/ActiveEquipment.cpp:290-305 | at an unselected entry, the sweep keeps it in place and goes on at the next index |
| RemovalProperties.RemoveMultipleSurvivors | Source/GEEquip/GEEquip/Equipment/ActiveEquipment.cpp:279-308 | removal by handle set leaves exactly the entries outside the set, in order; an empty set changes nothing |
| RemovalProperties.RemoveAllEmpties | Source/GEEquip/GEEquip/Equipment/ActiveEquipment.cpp:310-327 | RemoveAll leaves no entry |
| RemovalProperties.RemoveFirstMatch | Source/GEEquip/GEEquip/Equipment/ActiveEquipment.cpp:215-277 | by handle or slot, the first match is deleted; an invalid or unmatched target changes nothing |
| RemovalProperties.RemoveBySlotKeepsOthers | Source/GEEquip/GEEquip/Equipment/ActiveEquipment.cpp:247-277 | with unique slots, removal by slot keeps exactly the entries of other slots, in order |
| RemovalProperties.RemovalEvents | Source/GEEquip/GEEquip/Equipment/ActiveEquipment.cpp:230-241 | once ready, a removal appends the victim's "unequipped" hook (if it was equipped) strictly before its "removed" hook, then a clearing broadcast; an entry without an instance fires only the broadcast |
| RemovalProperties.RetireEvents | Source/GEEquip/GEEquip/Equipment/ActiveEquipment.cpp:104-111 | once ready, retiring an entry appends its "unequipped" hook (if equipped), its "removed" hook and the clearing broadcast; without an instance only the broadcast |
| RemovalProperties.RetireTraceFrame | Source/GEEquip/GEEquip/Equipment/ActiveEquipment.cpp:102-112 | the events of the listed entries depend only on those entries |
| RemovalProperties.RetireFirst | Source/GEEquip/GEEquip/Equipment/ActiveEquipment.cpp:102-112 | the first listed entry's events are appended, and the remaining indices still see the entries as they were |
| RemovalProperties.PreReplicatedRemoveEvents | Source/GEEquip/GEEquip/Equipment/ActiveEquipment.cpp:100-113 | once ready and for distinct indices, the callback appends, per listed entry in list order, "unequipped" if it was equipped, then "removed" (both only if it has an instance), then the clearing broadcast, and nothing else |
| RemovalProperties.SweepEvents | Source/GEEquip/GEEquip/Equipment/ActiveEquipment.cpp:279-327 | once ready, a sweep appends each victim's removal events in entry order and nothing else |
| RemovalProperties.SweepEventsSelected | Source/GEEquip/GEEquip/Equipment/ActiveEquipment.cpp:290-305 | at a selected entry, its removal events come before those of the rest of the sweep |
| RemovalProperties.SweepEventsSkipped | Source/GEEquip/GEEquip/Equipment/ActiveEquipment.cpp:290-305 | an unselected entry adds no event to the sweep |
| RemovalProperties.RemoveAllEvents | Source/GEEquip/GEEquip/Equipment/ActiveEquipment.cpp:310-327 | once ready, RemoveAll fires every entry's removal events in entry order |
| EquipProperties.EquippedIsLast | Source/GEEquip/GEEquip/Equipment/ActiveEquipment.cpp:346-357 | with at most one equipped entry, it is the one the last-match scan finds |
| EquipProperties.EquipOutcome | Source/GEEquip/GEEquip/Equipment/ActiveEquipment.cpp:330-448 | in any state, also one with two entries equipped: equip succeeds exactly when the target exists, is unequipped and may become active; on success the target is equipped; only flags change |
| EquipProperties.EquipAfterUnequip | Source/GEEquip/GEEquip/Equipment/ActiveEquipment.cpp:366-380 | unequipping another entry first leaves the target unchanged, so its outcome is TryEquip's: success exactly when unequipped and allowed to become active, then equipped; only flags change |
| EquipProperties.EquipResult | Source/GEEquip/GEEquip/Equipment/ActiveEquipment.cpp:330-448 | with at most one entry equipped beforehand, the outcome of EquipOutcome holds and a successful equip leaves the target as the only equipped entry |
| EquipProperties.EquipKeepsAtMostOneEquipped | Source/GEEquip/GEEquip/Equipment/ActiveEquipment.cpp:330-434 | equip keeps "at most one entry equipped" |
| EquipProperties.EquipSameIsNoop | Source/GEEquip/GEEquip/Equipment/ActiveEquipment.cpp:361-364 | asking for the already equipped entry returns false and changes nothing |
| EquipProperties.EquipUnknownTargetUnequips | Source/GEEquip/GEEquip/Equipment/ActiveEquipment.cpp:361-380 | a valid target that matches nothing still unequips the equipped entry and returns false |
| EquipProperties.EquipSwapOrder | Source/GEEquip/GEEquip/Equipment/ActiveEquipment.cpp:366-378 | once ready, a swap fires the old entry's "unequipped" hook strictly before the new entry's "equipped" hook and broadcast |
| EquipProperties.UnequipResult | Source/GEEquip/GEEquip/Equipment/ActiveEquipment.cpp:451-501 | unequip clears the first match's flag and fires its hook only if it was equipped; otherwise nothing changes |
| EquipProperties.UnequipKeepsAtMostOneEquipped | Source/GEEquip/GEEquip/Equipment/ActiveEquipment.cpp:451-501 | unequip keeps "at most one entry equipped" |
| AddProperties.AddSuccessEntries | Source/GEEquip/GEEquip/Equipment/ActiveEquipment.cpp:178-188 | a successful add leaves the other slots' entries in order plus the new entry last; the count is unchanged if the slot was occupied and one more otherwise |
| AddProperties.AddRoundTrip | Source/GEEquip/GEEquip/Equipment/ActiveEquipment.cpp:178-188 | after a successful add, the slot query returns the new item and its instance |
| AddProperties.RemoveRoundTrip | Source/GEEquip/GEEquip/Equipment/ActiveEquipment.cpp:247-277 | after removal by slot, the slot query returns nothing |
| AddProperties.AddEvents | Source/GEEquip/GEEquip/Equipment/ActiveEquipment.cpp:178-207 | once ready: the replaced entry's removal events, then "given" and its broadcast, then "equipped" and its broadcast if equipped immediately |
| AddProperties.AddTraceAfterRemoval | Source/GEEquip/GEEquip/Equipment/ActiveEquipment.cpp:182-207 | once ready, after the same-slot removal an add appends "given" and its broadcast, then "equipped" and its broadcast if equipped at once |
| AddProperties.RemoveBySlotEvents | Source/GEEquip/GEEquip/Equipment/ActiveEquipment.cpp:215-245 | once ready, removing by a valid slot appends the removal events of the first entry in that slot, and nothing if there is none |
| AddProperties.AddBeforeReady | Source/GEEquip/GEEquip/Equipment/ActiveEquipment.cpp:178-207 | before ready, a successful add fires nothing and records the new handle as pending given, and as pending equipped if it was equipped |
| AddProperties.AddWithoutImmediateKeepsSingleActive | Source/GEEquip/GEEquip/Equipment/ActiveEquipment.cpp:178-197 | without immediate equip, an add keeps "at most one entry equipped" |
| AddProperties.AddImmediateMayLeaveTwoEquipped | Source/GEEquip/GEEquip/Equipment/ActiveEquipment.cpp:199-207 | immediate equip with an entry equipped in another slot leaves two entries equipped |
| LifecycleProperties.GivenThenRemoveCancels | Source/GEEquip/GEEquip/Equipment/ActiveEquipment.cpp:550-580 | before ready, "removed" cancels a buffered "given" |
| LifecycleProperties.EquipedThenUnequipedCancels | Source/GEEquip/GEEquip/Equipment/ActiveEquipment.cpp:582-615 | before ready, "unequipped" cancels a buffered "equipped" |
| LifecycleProperties.DrainReplays | Source/GEEquip/GEEquip/Equipment/ActiveEquipment.cpp:510-524 | the drain appends, per entry in order, "given" if pending given, then "equipped" if pending equipped and still equipped |
| LifecycleProperties.HandleInitializedReplays | Source/GEEquip/GEEquip/Equipment/ActiveEquipment.cpp:504-526 | from not ready: becomes ready, appends exactly the replay of what was pending, and empties both pending sets |
| LifecycleProperties.HandleInitializedIdempotent | Source/GEEquip/GEEquip/Equipment/ActiveEquipment.cpp:506-509 | a second HandleInitialized changes nothing |
| LifecycleProperties.DrainScenario | Source/GEEquip/GEEquip/Equipment/ActiveEquipment.cpp:138-212 | before ready, add A equipped, remove A, add B equipped, become ready: only B's "given" then "equipped" fire and nothing stays pending |
| LifecycleProperties.AddToEmptyBeforeReady | Source/GEEquip/GEEquip/Equipment/ActiveEquipment.cpp:138-212 | before ready, adding an equippable item to the empty container with immediate equip stores it equipped and leaves both hooks pending |
| LifecycleProperties.RemovePendingOne | Source/GEEquip/GEEquip/Equipment/ActiveEquipment.cpp:215-245 | before ready, removing that equipped entry by handle cancels both pending hooks and returns to the empty container |
| LifecycleProperties.DrainPendingOne | Source/GEEquip/GEEquip/Equipment/ActiveEquipment.cpp:504-526 | becoming ready with one equipped entry pending fires its "given" then its "equipped" and empties both pending sets |
| LifecycleProperties.PostReplicatedAddBeforeReady | Source/GEEquip/GEEquip/Equipment/ActiveEquipment.cpp:115-124 | before ready, for any in-range indices (instances or not), every added handle becomes pending given and pending equipped, and nothing fires |
| LifecycleProperties.PostReplicatedChangeBeforeReady | Source/GEEquip/GEEquip/Equipment/ActiveEquipment.cpp:126-135 | before ready, for any in-range indices (instances or not), every changed handle leaves the pending-equipped set, and nothing fires |
| LifecycleProperties.ChangeFiresExactlyOne | Source/GEEquip/GEEquip/Equipment/ActiveEquipment.cpp:126-135 | once ready, a changed entry fires exactly one hook: "equipped" (with its broadcast) if set, "unequipped" if clear |
| LifecycleProperties.AddedFiresGivenThenEquipped | Source/GEEquip/GEEquip/Equipment/ActiveEquipment.cpp:115-124 | once ready, an added entry fires "given" and its broadcast, then "equipped" and its broadcast if it is equipped |
| LifecycleProperties.PreReplicatedRemoveUnequips | Source/GEEquip/GEEquip/Equipment/ActiveEquipment.cpp:100-113 | the removal callback erases nothing, clears the listed entries' flags and leaves every other entry as it was |
| ActiveEquipmentHandle.DefaultHandle | Source/GEEquip/GEEquip/Equipment/ActiveEquipmentHandle.h:19 | a default handle is invalid |
| ActiveEquipmentHandle.GetTypeHash | Source/GEEquip/GEEquip/Equipment/ActiveEquipmentHandle.h:46 | the hash lies in the 32-bit unsigned range and is the handle's int32 reinterpreted as unsigned: a non-negative id hashes to itself, a negative one (such as INDEX_NONE) to itself plus 2^32 |
| ActiveEquipmentHandle.IssuedHandlesFreshAndValid | Source/GEEquip/GEEquip/Equipment/ActiveEquipmentHandle.cpp:12-13 | from the initial counter value, issued handles are valid, at least 1, strictly increasing and pairwise distinct |
| ActiveEquipmentHandle.Handle.IsValid | Source/GEEquip/GEEquip/Equipment/ActiveEquipmentHandle.h:41 | a handle is valid exactly when it does not hold INDEX_NONE |
| ActiveEquipmentHandle.HandleAllocator.constructor | Source/GEEquip/GEEquip/Equipment/ActiveEquipmentHandle.cpp:12 | the counter starts at 1 |
| ActiveEquipmentHandle.HandleAllocator.GenerateNewHandle | Source/GEEquip/GEEquip/Equipment/ActiveEquipmentHandle.cpp:13 | hands out the current counter value, which is valid, and increments the counter |
| Equipment.DefaultInstance | Source/GEEquip/GEEquip/Equipment/Equipment.h:62-66 | a default instance can never be equipped |
| Equipment.ShouldExecute | Source/GEEquip/GEEquip/Equipment/Equipment.cpp:104-107 | the fragment filter: Both, or ServerOnly with authority, or LocalOnly with a local net owner, or ClientOnly off a dedicated server |
| Equipment.HookCalls | Source/GEEquip/GEEquip/Equipment/Equipment.cpp:100-111 | one call per admitted fragment, in fragment order |
| Equipment.Selected | Source/GEEquip/GEEquip/Equipment/Equipment.cpp:100-111 | the selected fragments are exactly those whose policy the role admits |
| Equipment.SelectedAppend | Source/GEEquip/GEEquip/Equipment/Equipment.cpp:100-111 | selection distributes over concatenation, so list order is kept |
| Equipment.HookCallsAppend | Source/GEEquip/GEEquip/Equipment/Equipment.cpp:100-111 | appending a fragment appends its call exactly when its policy admits the role |
| Equipment.SelectedCount | Source/GEEquip/GEEquip/Equipment/Equipment.cpp:100-111 | each admitted fragment occurrence is called exactly once; the others never |
| Equipment.Dispatch | Source/GEEquip/GEEquip/Equipment/Equipment.cpp:88-112 | the loop over fragments makes exactly the filtered, in-order calls |
| EquipmentManager.EquipmentManagerComponent.OnRegister | Source/GEEquip/GEEquip/EquipmentManagerComponent.cpp:33-38 | binds the owner to the container and leaves the container state unchanged |
| EquipmentManager.EquipmentManagerComponent.HandleChangeInitStateToDataInitialized | Source/GEEquip/GEEquip/EquipmentManagerComponent.cpp:40-43 | makes the container ready through HandleInitialized |
| EquipmentManager.EquipmentManagerComponent.AddEquipmentItem | Source/GEEquip/GEEquip/EquipmentManagerComponent.cpp:105-115 | without authority returns false and changes nothing; with authority forwards the add and returns its result |
| EquipmentManager.EquipmentManagerComponent.RemoveEquipmentItemByTag | Source/GEEquip/GEEquip/EquipmentManagerComponent.cpp:118-128 | without authority nothing changes; with authority removal by slot |
| EquipmentManager.EquipmentManagerComponent.RemoveEquipmentItemByHandle | Source/GEEquip/GEEquip/EquipmentManagerComponent.cpp:130-140 | without authority nothing changes; with authority removal by handle |
| EquipmentManager.EquipmentManagerComponent.RemoveMultipleEquipmentItemByHandles | Source/GEEquip/GEEquip/EquipmentManagerComponent.cpp:142-152 | without authority nothing changes; with authority removal by handle set |
| EquipmentManager.EquipmentManagerComponent.RemoveAllEquipmentItem | Source/GEEquip/GEEquip/EquipmentManagerComponent.cpp:154-164 | without authority nothing changes; with authority everything is removed |
| EquipmentManager.EquipmentManagerComponent.EquipEquipmentBySlot | Source/GEEquip/GEEquip/EquipmentManagerComponent.cpp:167-177 | without authority returns false and changes nothing; with authority equip by slot |
| EquipmentManager.EquipmentManagerComponent.EquipEquipmentByHandle | Source/GEEquip/GEEquip/EquipmentManagerComponent.cpp:179-189 | without authority returns false and changes nothing; with authority equip by handle |
| EquipmentManager.EquipmentManagerComponent.UnequipEquipmentBySlot | Source/GEEquip/GEEquip/EquipmentManagerComponent.cpp:192-202 | without authority nothing changes; with authority unequip by slot |
| EquipmentManager.EquipmentManagerComponent.UnequipEquipmentByHandle | Source/GEEquip/GEEquip/EquipmentManagerComponent.cpp:204-214 | without authority nothing changes; with authority unequip by handle |
| EquipmentManager.EquipmentManagerComponent.GetActiveSlotInfo | Source/GEEquip/GEEquip/EquipmentManagerComponent.cpp:217-220 | not gated: the container's active-slot query |
| EquipmentManager.EquipmentManagerComponent.GetSlotInfo | Source/GEEquip/GEEquip/EquipmentManagerComponent.cpp:222-225 | not gated: the container's slot query |
| EquipmentSetAsset.GatedAdd | Source/GEEquip/GEEquip/EquipmentManagerComponent.cpp:105-115 | without authority an add is refused and changes nothing; with it, the container's add without immediate equip; either way the invariant and counter freshness hold |
| EquipmentSetAsset.AddAll | Source/GEEquip/GEEquip/EquipmentSet.cpp:74-89 | each pair is offered once, in order, without immediate equip; the result keeps the invariant and the counter ahead of every handle |
| EquipmentSetAsset.AddAllHandles | Source/GEEquip/GEEquip/EquipmentSet.cpp:83-88 | the handles collected are consecutive counter values from the start value, one per successful add, at most one per pair |
| EquipmentSetAsset.AddAllIssued | Source/GEEquip/GEEquip/EquipmentSet.cpp:83-88 | the collected handles are exactly the handles the counter issues for that many successful adds, and the counter ends that far ahead |
| EquipmentSetAsset.AddAllWithoutAuthority | Source/GEEquip/GEEquip/EquipmentSet.cpp:74-89 | without authority every add is refused: nothing changes and no handle is issued |
| EquipmentSetAsset.AddPair | Source/GEEquip/GEEquip/EquipmentSet.cpp:76-88 | one pair offered to the manager: the add GatedAdd describes, and AddAll's remaining fold from that pair is this add followed by the fold of the rest |
| EquipmentSetAsset.AddPairs | Source/GEEquip/GEEquip/EquipmentSet.cpp:74-89 | the loop over the pairs leaves the container, counter and collected handles that AddAll specifies |
| EquipmentSetAsset.SetHandlesFresh | Source/GEEquip/GEEquip/EquipmentSet.cpp:85-90 | the collected handles are valid, fresh and strictly increasing, at most one per pair |
| EquipmentSetAsset.SetWithoutAuthority | Source/GEEquip/GEEquip/EquipmentSet.cpp:72-98 | without authority the whole call changes nothing and collects nothing |
| EquipmentSetAsset.SetKeepsSingleActive | Source/GEEquip/GEEquip/EquipmentSet.cpp:72-98 | applying a set keeps "at most one entry equipped" |
| EquipmentSetAsset.AddAllKeepsSingleActive | Source/GEEquip/GEEquip/EquipmentSet.cpp:76-89 | adding the pairs without immediate equip keeps at most one entry equipped |
| EquipmentSetAsset.ApplySet | Source/GEEquip/GEEquip/EquipmentSet.cpp:72-98 | the adds followed by the authority-gated equip of a valid default slot keep the container invariant and the counter ahead of every handle |
| EquipmentSetAsset.AddEquipmentItems | Source/GEEquip/GEEquip/EquipmentSet.cpp:72-98 | a null manager changes nothing and keeps the caller's handles; otherwise the successful adds' handles are appended and a valid default slot is then equipped |

## Left out

- Replication plumbing is not modelled: delta serialization, dirty marking, lifetime properties and sub-object replication or registration. The three replication callbacks are modelled as methods over a given in-range index list. The order in which the engine calls them is the engine's, and no cross-callback ordering is claimed.
- Instance sub-object registration (`RegisterReplicatedSubobject`) on add and remove is an engine side effect and is not modelled.
- The message subsystem and the dynamic delegates are reduced to a trace append gated by the owner's local-net-owner flag. `BroadcastActiveSlotChangeMessage` (Source/GEEquip/GEEquip/Equipment/ActiveEquipment.cpp:675-693) is never called and is not modelled.
- The owner component reference carried by slot-change messages is left out; a message holds slot, item and instance handle.
- Concrete fragments (meshes, animation layers, tag stats) and their Blueprint events are engine side effects; a hook call is recorded as the list of fragment ids it reaches.
- Asset loading and object creation are abstract: the item definition is a record, and the equipment class is the instance configuration the new instance starts from.
- Editor-only validators, logging, debug strings and `check()` assertions are left out. The assertions are preconditions: the owner is registered, and an entry whose hook runs once the container is ready has an instance. The equip operation and the ready transition require instances on every entry, which holds for every entry an add creates.
- The default value of the `bEquipImmediately` parameter (Source/GEEquip/GEEquip/Equipment/ActiveEquipment.h:171) has no Dafny counterpart; callers pass false explicitly, as the equipment set does.
- The equipment set's map is modelled as a sequence of slot/item pairs in the map's iteration order.
- ActiveEquipmentHandle.HandleAllocator.GenerateNewHandle: the counter is an unbounded integer, so int32 wrap-around after 2^31 - 1 handles is not modelled, and freshness is proved only within that range.
