/**
 * The equipment container as the program has it: a list of entries updated in
 * place, a one-shot ready flag and two pending-handle sets. Every method is
 * proved to leave exactly the state the matching function of
 * ActiveEquipmentSpec computes. Each public operation also keeps the
 * container invariant: the server-side operations require it and restore it;
 * the three replication callbacks, which the engine runs while a replaced
 * entry and its successor can share a slot, require only what their steps
 * need and keep the invariant when it held before.
 */
module ActiveEquipment {
  import opened Wrappers
  import opened ActiveEquipmentHandle
  import opened ItemInfo
  import opened Equipment
  import opened ActiveEquipmentSpec
  import opened ActiveEquipmentInvariants
  import S = ActiveEquipmentSpec

  class ActiveEquipmentContainer {
    var entries: seq<Entry>
    var owner: Option<Role>          // the owning actor's role, once registered
    var initialized: bool
    var pendingGiven: set<Handle>
    var pendingEquipped: set<Handle>
    var trace: seq<Event>            // the hook calls and broadcasts made so far

    /** The container's state as a value. */
    function Model(): State
      reads this
    {
      State(entries, initialized, pendingGiven, pendingEquipped, trace)
    }

    ghost predicate Valid()
      reads this
    {
      ValidState(Model())
    }

    /** A new container: no owner yet, no entries, not initialized, nothing pending. */
    constructor ()
      ensures Model() == Initial() && owner == None && Valid()
    {
      entries, owner, initialized := [], None, false;
      pendingGiven, pendingEquipped, trace := {}, {}, [];
    }

    /** Binds the owner; the container's other state is untouched. */
    method RegisterOwner(role: Role)
      modifies this
      ensures owner == Some(role) && Model() == old(Model())
    {
      owner := Some(role);
    }

    // -------------------------------------------------------------------------
    // Pending-set helpers

    method AddPendingGivenEquipment(e: Entry)
      modifies this
      ensures owner == old(owner)
      ensures Model() == old(Model()).(pendingGiven := old(pendingGiven) + {e.handle})
    {
      pendingGiven := pendingGiven + {e.handle};
    }

    method RemovePendingGivenEquipment(e: Entry)
      modifies this
      ensures owner == old(owner)
      ensures Model() == old(Model()).(pendingGiven := old(pendingGiven) - {e.handle})
    {
      pendingGiven := pendingGiven - {e.handle};
    }

    method AddPendingEquipedEquipment(e: Entry)
      modifies this
      ensures owner == old(owner)
      ensures Model() == old(Model()).(pendingEquipped := old(pendingEquipped) + {e.handle})
    {
      pendingEquipped := pendingEquipped + {e.handle};
    }

    method RemovePendingEquipedEquipment(e: Entry)
      modifies this
      ensures owner == old(owner)
      ensures Model() == old(Model()).(pendingEquipped := old(pendingEquipped) - {e.handle})
    {
      pendingEquipped := pendingEquipped - {e.handle};
    }

    // -------------------------------------------------------------------------
    // Broadcast and lifecycle dispatch

    /** Publishes a slot-change message if the owner has a local net owner. */
    method BroadcastSlotChangeMessage(msg: SlotMessage)
      requires owner.Some?
      modifies this
      ensures owner == old(owner)
      ensures Model() == old(Model()).(trace := old(trace) + Broadcast(msg, owner.value))
    {
      if owner.value.hasLocalNetOwner {
        trace := trace + [SlotChange(msg)];
      }
    }

    method HandleEquipmentGiven(e: Entry)
      requires owner.Some? && (initialized ==> e.instance.Some?)
      modifies this
      ensures owner == old(owner)
      ensures Model() == S.HandleEquipmentGiven(old(Model()), e, owner.value)
    {
      if !initialized {
        AddPendingGivenEquipment(e);
        return;
      }
      var calls := Dispatch(EquipmentGiven, e.instance.value, owner.value);
      trace := trace + [Hook(e.handle, EquipmentGiven, calls)];
      BroadcastSlotChangeMessage(Contents(e));
    }

    method HandleEquipmentRemove(e: Entry)
      requires owner.Some?
      modifies this
      ensures owner == old(owner)
      ensures Model() == S.HandleEquipmentRemove(old(Model()), e, owner.value)
    {
      if !initialized {
        RemovePendingGivenEquipment(e);
        return;
      }
      if e.instance.Some? {
        var calls := Dispatch(EquipmentRemove, e.instance.value, owner.value);
        trace := trace + [Hook(e.handle, EquipmentRemove, calls)];
      }
      BroadcastSlotChangeMessage(SlotMessage(e.slot, None, None));
    }

    method HandleEquipmentEquiped(e: Entry)
      requires owner.Some? && (initialized ==> e.instance.Some?)
      modifies this
      ensures owner == old(owner)
      ensures Model() == S.HandleEquipmentEquiped(old(Model()), e, owner.value)
    {
      if !initialized {
        AddPendingEquipedEquipment(e);
        return;
      }
      if e.equipped {
        var calls := Dispatch(Equiped, e.instance.value, owner.value);
        trace := trace + [Hook(e.handle, Equiped, calls)];
        BroadcastSlotChangeMessage(Contents(e));
      }
    }

    method HandleEquipmentUnequiped(e: Entry)
      requires owner.Some?
      modifies this
      ensures owner == old(owner)
      ensures Model() == S.HandleEquipmentUnequiped(old(Model()), e, owner.value)
    {
      if !initialized {
        RemovePendingEquipedEquipment(e);
        return;
      }
      if e.instance.Some? && !e.equipped {
        var calls := Dispatch(Unequiped, e.instance.value, owner.value);
        trace := trace + [Hook(e.handle, Unequiped, calls)];
      }
    }

    // -------------------------------------------------------------------------
    // Per-entry transitions

    /** The entry-reference overload of UnequipEquipment. */
    method UnequipEquipmentAt(i: nat)
      requires owner.Some? && i < |entries|
      modifies this
      ensures owner == old(owner)
      ensures Model() == UnequipAt(old(Model()), i, owner.value)
    {
      var r := TryUnequip(entries[i]);
      if r.0 {
        entries := entries[i := r.1];
        HandleEquipmentUnequiped(r.1);
      }
    }

    /** The entry-reference overload of EquipEquipment. */
    method EquipEquipmentAt(i: nat) returns (ok: bool)
      requires owner.Some? && i < |entries| && entries[i].instance.Some?
      modifies this
      ensures owner == old(owner)
      ensures (ok, Model()) == EquipAt(old(Model()), i, owner.value)
    {
      var r := TryEquip(entries[i]);
      ok := r.0;
      if ok {
        entries := entries[i := r.1];
        HandleEquipmentEquiped(r.1);
      }
    }

    /** The body of every removal loop: unequip if equipped, fire removed, erase. */
    method RemoveEntryAt(i: nat)
      requires owner.Some? && i < |entries|
      modifies this
      ensures owner == old(owner)
      ensures Model() == RemoveAt(old(Model()), i, owner.value)
    {
      var r := TryUnequip(entries[i]);
      entries := entries[i := r.1];
      if r.0 {
        HandleEquipmentUnequiped(r.1);
      }
      HandleEquipmentRemove(r.1);
      entries := entries[..i] + entries[i + 1..];
    }

    // -------------------------------------------------------------------------
    // Add and remove

    /**
     * Adds an item to a slot. `outHandle` is the caller's handle variable: it
     * receives the new handle on success and is returned unchanged otherwise.
     */
    method AddEquipmentItem(alloc: HandleAllocator, slot: SlotTag, item: Option<ItemData>, outHandle: Handle, equipImmediately: bool)
      returns (ok: bool, handle: Handle)
      requires Valid() && owner.Some? && alloc.Valid() && HandlesBelow(entries, alloc.next)
      modifies this, alloc
      ensures owner == old(owner)
      ensures (ok, Model()) ==
        S.AddEquipmentItem(old(Model()), slot, item, Handle(old(alloc.next)), equipImmediately, owner.value)
      ensures alloc.next == if ok then old(alloc.next) + 1 else old(alloc.next)
      ensures handle == if ok then Handle(old(alloc.next)) else outHandle
      ensures Valid() && alloc.Valid() && HandlesBelow(entries, alloc.next)
    {
      ghost var s0 := Model();
      ghost var next0 := alloc.next;
      AddEquipmentItemValid(s0, slot, item, Handle(next0), equipImmediately, owner.value);
      ok, handle := false, outHandle;
      if item.None? || !slot.IsValid() {
        return;
      }
      if item.value.equipmentInfo.None? {
        return;
      }
      var info := item.value.equipmentInfo.value;
      if info.addableSlots != {} && !HasTag(info.addableSlots, slot) {
        return;
      }
      if info.equipmentClass.None? {
        return;
      }
      RemoveEquipmentItem(BySlot(slot));
      var h := alloc.GenerateNewHandle();
      handle := h;
      AppendEntry(Entry(h, slot, item, info.equipmentClass, false), equipImmediately);
      ok := true;
    }

    /** The tail of a successful add: append the entry, fire "given", then equip it at once if asked. */
    method AppendEntry(e: Entry, equipImmediately: bool)
      requires owner.Some? && e.instance.Some?
      modifies this
      ensures owner == old(owner)
      ensures Model() == S.AppendEntry(old(Model()), e, equipImmediately, owner.value)
    {
      entries := entries + [e];
      HandleEquipmentGiven(e);
      if equipImmediately {
        var r := TryEquip(e);
        if r.0 {
          entries := entries[|entries| - 1 := r.1];
          HandleEquipmentEquiped(r.1);
        }
      }
    }

    /** RemoveEquipmentItem by handle or by slot: the first match. */
    method RemoveEquipmentItem(t: Target)
      requires Valid() && owner.Some?
      modifies this
      ensures owner == old(owner) && Valid()
      ensures Model() == S.RemoveEquipmentItem(old(Model()), t, owner.value)
    {
      RemoveEquipmentItemValid(Model(), t, owner.value);
      if !TargetIsValid(t) {
        return;
      }
      var i := 0;
      while i < |entries|
        invariant 0 <= i <= |entries|
        invariant Model() == old(Model()) && owner == old(owner)
        invariant forall j :: 0 <= j < i ==> !Selects(Sel(t), entries[j])
      {
        if Selects(Sel(t), entries[i]) {
          RemoveEntryAt(i);
          return;
        }
        i := i + 1;
      }
    }

    /** Removes every entry whose handle is in the set; an empty set is a no-op. */
    method RemoveMultipleEquipmentItems(hs: set<Handle>)
      requires Valid() && owner.Some?
      modifies this
      ensures owner == old(owner) && Valid()
      ensures Model() == S.RemoveMultipleEquipmentItems(old(Model()), hs, owner.value)
    {
      RemoveMultipleEquipmentItemsValid(Model(), hs, owner.value);
      if hs == {} {
        return;
      }
      var i := 0;
      while i < |entries|
        invariant 0 <= i <= |entries| && owner == old(owner)
        invariant SweepFrom(Model(), i, HandleIn(hs), owner.value) == SweepFrom(old(Model()), 0, HandleIn(hs), owner.value)
        decreases |entries| - i
      {
        if entries[i].handle in hs {
          RemoveEntryAt(i);
        } else {
          i := i + 1;
        }
      }
    }

    /** Removes every entry, each with the full removal sequence. */
    method RemoveAllEquipmentItem()
      requires Valid() && owner.Some?
      modifies this
      ensures owner == old(owner) && Valid()
      ensures Model() == S.RemoveAllEquipmentItem(old(Model()), owner.value)
    {
      RemoveAllEquipmentItemValid(Model(), owner.value);
      var i := 0;
      while i < |entries|
        invariant 0 <= i <= |entries| && owner == old(owner)
        invariant SweepFrom(Model(), i, Every, owner.value) == SweepFrom(old(Model()), 0, Every, owner.value)
        decreases |entries| - i
      {
        RemoveEntryAt(i);
      }
    }

    // -------------------------------------------------------------------------
    // Equip and unequip

    /**
     * EquipEquipment by handle or by slot. One scan records the last matching
     * index and the last equipped index.
     */
    method EquipEquipment(t: Target) returns (ok: bool)
      requires Valid() && owner.Some?
      modifies this
      ensures owner == old(owner)
      ensures (ok, Model()) == S.EquipEquipment(old(Model()), t, owner.value)
      ensures Valid()
    {
      EquipEquipmentValid(Model(), t, owner.value);
      ok := false;
      if !TargetIsValid(t) {
        return;
      }
      var oldIndex, newIndex := ScanForEquip(t);
      if oldIndex == newIndex {
        return;
      }
      if oldIndex != INDEX_NONE {
        UnequipEquipmentAt(oldIndex);
      }
      if newIndex != INDEX_NONE {
        ok := EquipEquipmentAt(newIndex);
      }
    }

    /** The scan of EquipEquipment: the last entry the target selects and the last equipped entry. */
    method ScanForEquip(t: Target) returns (oldIndex: int, newIndex: int)
      ensures newIndex == LastIndex(entries, Sel(t))
      ensures oldIndex == LastIndex(entries, IsEquipped)
    {
      oldIndex, newIndex := INDEX_NONE, INDEX_NONE;
      var i := 0;
      while i < |entries|
        invariant 0 <= i <= |entries|
        invariant newIndex == LastIndex(entries[..i], Sel(t))
        invariant oldIndex == LastIndex(entries[..i], IsEquipped)
      {
        assert entries[..i + 1][..i] == entries[..i];
        if Selects(Sel(t), entries[i]) {
          newIndex := i;
        }
        if entries[i].equipped {
          oldIndex := i;
        }
        i := i + 1;
      }
      assert entries[..i] == entries;
    }

    /** UnequipEquipment by handle or by slot: the first match. */
    method UnequipEquipment(t: Target)
      requires Valid() && owner.Some?
      modifies this
      ensures owner == old(owner) && Valid()
      ensures Model() == S.UnequipEquipment(old(Model()), t, owner.value)
    {
      UnequipEquipmentValid(Model(), t, owner.value);
      if !TargetIsValid(t) {
        return;
      }
      var i := 0;
      while i < |entries|
        invariant 0 <= i <= |entries|
        invariant Model() == old(Model()) && owner == old(owner)
        invariant forall j :: 0 <= j < i ==> !Selects(Sel(t), entries[j])
      {
        if Selects(Sel(t), entries[i]) {
          UnequipEquipmentAt(i);
          return;
        }
        i := i + 1;
      }
    }

    // -------------------------------------------------------------------------
    // Ready transition

    /** Becomes ready once; replays pending events in entry order; empties the pending sets. */
    method HandleInitialized()
      requires Valid() && owner.Some?
      modifies this
      ensures owner == old(owner) && Valid()
      ensures Model() == S.HandleInitialized(old(Model()), owner.value)
    {
      HandleInitializedValid(Model(), owner.value);
      if initialized {
        return;
      }
      initialized := true;
      var i := 0;
      while i < |entries|
        invariant 0 <= i <= |entries| && owner == old(owner)
        invariant initialized && entries == old(entries)
        invariant DrainFrom(Model(), i, owner.value) == DrainFrom(old(Model()).(initialized := true), 0, owner.value)
      {
        var e := entries[i];
        if e.handle in pendingGiven {
          HandleEquipmentGiven(e);
        }
        if e.handle in pendingEquipped {
          HandleEquipmentEquiped(e);
        }
        i := i + 1;
      }
      pendingGiven := {};
      pendingEquipped := {};
    }

    // -------------------------------------------------------------------------
    // Queries

    /** GetActiveSlotInfo: the first equipped entry's message; `slotInfo` comes back unchanged if none is equipped. */
    method GetActiveSlotInfo(slotInfo: SlotMessage) returns (found: bool, info: SlotMessage)
      ensures found <==> ActiveSlotInfo(entries).Some?
      ensures info == if found then ActiveSlotInfo(entries).value else slotInfo
    {
      found, info := false, slotInfo;
      var i := 0;
      while i < |entries|
        invariant 0 <= i <= |entries|
        invariant forall j :: 0 <= j < i ==> !entries[j].equipped
      {
        if entries[i].equipped {
          return true, Contents(entries[i]);
        }
        i := i + 1;
      }
    }

    /** GetSlotInfo: the first entry in the slot; `slotInfo` comes back unchanged if the slot is empty. */
    method GetSlotInfo(slot: SlotTag, slotInfo: SlotMessage) returns (found: bool, info: SlotMessage)
      ensures found <==> SlotInfo(entries, slot).Some?
      ensures info == if found then SlotInfo(entries, slot).value else slotInfo
    {
      found, info := false, slotInfo;
      var i := 0;
      while i < |entries|
        invariant 0 <= i <= |entries|
        invariant forall j :: 0 <= j < i ==> entries[j].slot != slot
      {
        if entries[i].slot == slot {
          return true, Contents(entries[i]);
        }
        i := i + 1;
      }
    }

    // -------------------------------------------------------------------------
    // Replication callbacks

    /** One entry of PreReplicatedRemove: unequipped if it was equipped, then removed. */
    method RetireEntryAt(i: nat)
      requires owner.Some? && i < |entries|
      modifies this
      ensures owner == old(owner)
      ensures Model() == S.RetireAt(old(Model()), i, owner.value)
    {
      var r := TryUnequip(entries[i]);
      entries := entries[i := r.1];
      if r.0 {
        HandleEquipmentUnequiped(r.1);
      }
      HandleEquipmentRemove(r.1);
    }

    method PreReplicatedRemove(indices: seq<int>)
      requires owner.Some? && IndicesInRange(indices, |entries|)
      modifies this
      ensures owner == old(owner)
      ensures Model() == S.PreReplicatedRemove(old(Model()), indices, owner.value)
      ensures old(Valid()) ==> Valid()
    {
      if Valid() {
        PreReplicatedRemoveValid(Model(), indices, owner.value);
      }
      var k := 0;
      while k < |indices|
        invariant 0 <= k <= |indices| && owner == old(owner) && |entries| == |old(entries)|
        invariant S.PreReplicatedRemove(Model(), indices[k..], owner.value) == S.PreReplicatedRemove(old(Model()), indices, owner.value)
      {
        assert indices[k..][1..] == indices[k + 1..];
        RetireEntryAt(indices[k]);
        k := k + 1;
      }
    }

    /** One entry of PostReplicatedAdd: given, then equipped. */
    method ReplicatedAddAt(i: nat)
      requires owner.Some? && i < |entries| && (initialized ==> entries[i].instance.Some?)
      modifies this
      ensures owner == old(owner)
      ensures Model() == AddedStep(old(Model()), i, owner.value)
    {
      var e := entries[i];
      HandleEquipmentGiven(e);
      HandleEquipmentEquiped(e);
    }

    method PostReplicatedAdd(indices: seq<int>)
      requires owner.Some? && IndicesInRange(indices, |entries|) && ListedInstancesWhenReady(Model(), indices)
      modifies this
      ensures owner == old(owner)
      ensures Model() == S.PostReplicatedAdd(old(Model()), indices, owner.value)
      ensures old(Valid()) ==> Valid()
    {
      if Valid() {
        PostReplicatedAddValid(Model(), indices, owner.value);
      }
      var k := 0;
      while k < |indices|
        invariant 0 <= k <= |indices| && owner == old(owner) && entries == old(entries)
        invariant initialized == old(initialized) && ListedInstancesWhenReady(Model(), indices[k..])
        invariant S.PostReplicatedAdd(Model(), indices[k..], owner.value) == S.PostReplicatedAdd(old(Model()), indices, owner.value)
      {
        assert indices[k..][1..] == indices[k + 1..];
        ReplicatedAddAt(indices[k]);
        k := k + 1;
      }
    }

    /** One entry of PostReplicatedChange: the equipped check, then the unequipped check. */
    method ReplicatedChangeAt(i: nat)
      requires owner.Some? && i < |entries| && (initialized ==> entries[i].instance.Some?)
      modifies this
      ensures owner == old(owner)
      ensures Model() == ChangedStep(old(Model()), i, owner.value)
    {
      var e := entries[i];
      HandleEquipmentEquiped(e);
      HandleEquipmentUnequiped(e);
    }

    method PostReplicatedChange(indices: seq<int>)
      requires owner.Some? && IndicesInRange(indices, |entries|) && ListedInstancesWhenReady(Model(), indices)
      modifies this
      ensures owner == old(owner)
      ensures Model() == S.PostReplicatedChange(old(Model()), indices, owner.value)
      ensures old(Valid()) ==> Valid()
    {
      if Valid() {
        PostReplicatedChangeValid(Model(), indices, owner.value);
      }
      var k := 0;
      while k < |indices|
        invariant 0 <= k <= |indices| && owner == old(owner) && entries == old(entries)
        invariant initialized == old(initialized) && ListedInstancesWhenReady(Model(), indices[k..])
        invariant S.PostReplicatedChange(Model(), indices[k..], owner.value) == S.PostReplicatedChange(old(Model()), indices, owner.value)
      {
        assert indices[k..][1..] == indices[k + 1..];
        ReplicatedChangeAt(indices[k]);
        k := k + 1;
      }
    }
  }
}
