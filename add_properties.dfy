/**
 * AddEquipmentItem: the same-slot entry is replaced, the new entry comes last
 * and is what a slot query then reports, the events come in removal-given-
 * equipped order, and "at most one equipped" survives an add only when the
 * new entry is not equipped immediately.
 */
module AddProperties {
  import opened Wrappers
  import opened EquipmentPolicyTypes
  import opened ActiveEquipmentHandle
  import opened ItemInfo
  import opened Equipment
  import opened ActiveEquipmentSpec
  import opened ActiveEquipmentInvariants
  import opened RemovalProperties

  /** The slot is occupied by some entry. */
  predicate Occupied(es: seq<Entry>, slot: SlotTag)
  {
    exists j :: 0 <= j < |es| && es[j].slot == slot
  }

  /**
   * On success the entries are those of the other slots, in order, then the
   * new entry; the count is unchanged if the slot was occupied and one more
   * otherwise.
   */
  lemma AddSuccessEntries(s: State, slot: SlotTag, item: Option<ItemData>, h: Handle, equipImmediately: bool, role: Role)
    requires ValidState(s) && AddEquipmentItem(s, slot, item, h, equipImmediately, role).0
    ensures var r := AddEquipmentItem(s, slot, item, h, equipImmediately, role).1;
      && r.entries == Keep(s.entries, SlotIs(slot)) + [NewEntry(slot, item, h, equipImmediately)]
      && |r.entries| == if Occupied(s.entries, slot) then |s.entries| else |s.entries| + 1
  {
    AddEquipmentItemShape(s, slot, item, h, equipImmediately, role);
    RemoveBySlotKeepsOthers(s, slot, role);
    var i := FirstIndex(s.entries, SlotIs(slot));
    if i != INDEX_NONE {
      assert Occupied(s.entries, slot);
    }
  }

  /** After a successful add, the slot query reports the new item and its instance. */
  lemma AddRoundTrip(s: State, slot: SlotTag, item: Option<ItemData>, h: Handle, equipImmediately: bool, role: Role)
    requires ValidState(s) && AddEquipmentItem(s, slot, item, h, equipImmediately, role).0
    ensures SlotInfo(AddEquipmentItem(s, slot, item, h, equipImmediately, role).1.entries, slot) ==
      Some(SlotMessage(slot, item, Some(h)))
  {
    var es := AddEquipmentItem(s, slot, item, h, equipImmediately, role).1.entries;
    var kept := RemoveEquipmentItem(s, BySlot(slot), role).entries;
    AddEquipmentItemShape(s, slot, item, h, equipImmediately, role);
    RemoveBySlotClearsSlot(s, slot, role);
    assert es == kept + [NewEntry(slot, item, h, equipImmediately)];
    assert forall k :: 0 <= k < |kept| ==> es[k].slot != slot;
    assert es[|kept|].slot == slot;
  }

  /** After removal by slot, the slot query reports nothing. */
  lemma RemoveRoundTrip(s: State, slot: SlotTag, role: Role)
    requires UniqueSlots(s.entries) && slot.IsValid()
    ensures SlotInfo(RemoveEquipmentItem(s, BySlot(slot), role).entries, slot).None?
  {
    RemoveBySlotClearsSlot(s, slot, role);
  }

  /**
   * Once ready: the replaced entry's removal events (unequipped before
   * removed), then the new entry's "given" hook and broadcast, then, if it
   * was equipped immediately, its "equipped" hook and broadcast.
   */
  lemma AddEvents(s: State, slot: SlotTag, item: Option<ItemData>, h: Handle, equipImmediately: bool, role: Role)
    requires s.initialized && ValidState(s) && AddEquipmentItem(s, slot, item, h, equipImmediately, role).0
    ensures var i := FirstIndex(s.entries, SlotIs(slot));
      var e := NewEntry(slot, item, h, equipImmediately);
      AddEquipmentItem(s, slot, item, h, equipImmediately, role).1.trace ==
        s.trace
        + (if i != INDEX_NONE then RemovalTrace(s.entries[i], role) else [])
        + ([HookEvent(EquipmentGiven, e, role)] + Broadcast(Contents(e), role))
        + (if e.equipped then [HookEvent(Equiped, e, role)] + Broadcast(Contents(e), role) else [])
  {
    AddTraceAfterRemoval(s, slot, item, h, equipImmediately, role);
    RemoveBySlotEvents(s, slot, role);
  }

  /** Once ready, what an add appends after its same-slot removal: "given", then "equipped" if it was equipped. */
  lemma AddTraceAfterRemoval(s: State, slot: SlotTag, item: Option<ItemData>, h: Handle, equipImmediately: bool, role: Role)
    requires s.initialized && AddEquipmentItem(s, slot, item, h, equipImmediately, role).0
    ensures var e := NewEntry(slot, item, h, equipImmediately);
      AddEquipmentItem(s, slot, item, h, equipImmediately, role).1.trace ==
        RemoveEquipmentItem(s, BySlot(slot), role).trace
        + ([HookEvent(EquipmentGiven, e, role)] + Broadcast(Contents(e), role))
        + (if e.equipped then [HookEvent(Equiped, e, role)] + Broadcast(Contents(e), role) else [])
  {
  }

  /** Once ready, removing by a valid slot appends the removal events of the first entry in that slot, if any. */
  lemma RemoveBySlotEvents(s: State, slot: SlotTag, role: Role)
    requires s.initialized && ValidState(s) && slot.IsValid()
    ensures var i := FirstIndex(s.entries, SlotIs(slot));
      RemoveEquipmentItem(s, BySlot(slot), role).trace ==
        s.trace + (if i != INDEX_NONE then RemovalTrace(s.entries[i], role) else [])
  {
    var i := FirstIndex(s.entries, SlotIs(slot));
    if i != INDEX_NONE {
      assert s.entries[i].instance.Some?;
      RemovalEvents(s, i, role);
    } else {
      assert s.trace + [] == s.trace;
    }
  }

  /** Before ready, a successful add records the new handle as pending given, and as pending equipped if it was equipped. */
  lemma AddBeforeReady(s: State, slot: SlotTag, item: Option<ItemData>, h: Handle, equipImmediately: bool, role: Role)
    requires !s.initialized && AddEquipmentItem(s, slot, item, h, equipImmediately, role).0
    ensures var r := AddEquipmentItem(s, slot, item, h, equipImmediately, role).1;
      var s1 := RemoveEquipmentItem(s, BySlot(slot), role);
      && r.trace == s.trace
      && r.pendingGiven == s1.pendingGiven + {h}
      && r.pendingEquipped == s1.pendingEquipped + (if NewEntry(slot, item, h, equipImmediately).equipped then {h} else {})
  {
  }

  lemma DeleteKeepsAtMostOneEquipped(es: seq<Entry>, i: nat)
    requires i < |es| && AtMostOneEquipped(es)
    ensures AtMostOneEquipped(Delete(es, i))
  {
    var r := Delete(es, i);
    forall j, k | 0 <= j < k < |r|
      ensures !(r[j].equipped && r[k].equipped)
    {
      var j', k' := if j < i then j else j + 1, if k < i then k else k + 1;
      assert r[j] == es[j'] && r[k] == es[k'];
    }
  }

  /** Without immediate equip, an add keeps "at most one equipped". */
  lemma AddWithoutImmediateKeepsSingleActive(s: State, slot: SlotTag, item: Option<ItemData>, h: Handle, role: Role)
    requires AtMostOneEquipped(s.entries)
    ensures AtMostOneEquipped(AddEquipmentItem(s, slot, item, h, false, role).1.entries)
  {
    if AddEquipmentItem(s, slot, item, h, false, role).0 {
      AddEquipmentItemShape(s, slot, item, h, false, role);
      var i := FirstIndex(s.entries, SlotIs(slot));
      if slot.IsValid() && i != INDEX_NONE {
        DeleteKeepsAtMostOneEquipped(s.entries, i);
      }
    }
  }

  /**
   * Immediate equip does not unequip an entry in another slot: if one was
   * equipped and the new instance may become active, two entries end up
   * equipped.
   */
  lemma AddImmediateMayLeaveTwoEquipped(s: State, slot: SlotTag, item: Option<ItemData>, h: Handle, role: Role, j: nat)
    requires ValidState(s) && AddEquipmentItem(s, slot, item, h, true, role).0
    requires item.value.equipmentInfo.value.equipmentClass.value.equipPolicy == CanBeEquipped
    requires j < |s.entries| && s.entries[j].equipped && s.entries[j].slot != slot
    ensures !AtMostOneEquipped(AddEquipmentItem(s, slot, item, h, true, role).1.entries)
  {
    var es := AddEquipmentItem(s, slot, item, h, true, role).1.entries;
    AddSuccessEntries(s, slot, item, h, true, role);
    var kept := Keep(s.entries, SlotIs(slot));
    KeepMembers(s.entries, SlotIs(slot));
    assert s.entries[j] in kept;
    var k :| 0 <= k < |kept| && kept[k] == s.entries[j];
    assert es[k].equipped && es[|es| - 1].equipped;
  }
}
