/**
 * The container invariant (ValidState) is kept by every operation, and the
 * handle counter stays ahead of every handle in the container.
 */
module ActiveEquipmentInvariants {
  import opened Wrappers
  import opened EquipmentPolicyTypes
  import opened ActiveEquipmentHandle
  import opened ItemInfo
  import opened Equipment
  import opened ActiveEquipmentSpec

  predicate EntriesOk(es: seq<Entry>)
  {
    AllValid(es) && UniqueSlots(es) && DistinctHandles(es)
  }

  lemma DeleteKeepsEntriesOk(es: seq<Entry>, i: nat)
    requires i < |es| && EntriesOk(es)
    ensures EntriesOk(Delete(es, i))
    ensures forall j :: 0 <= j < |Delete(es, i)| ==> Delete(es, i)[j] in es
  {
    var r := Delete(es, i);
    forall j, k | 0 <= j < k < |r|
      ensures r[j].slot != r[k].slot && r[j].handle != r[k].handle
    {
      var j', k' := if j < i then j else j + 1, if k < i then k else k + 1;
      assert j' < k' && r[j] == es[j'] && r[k] == es[k'];
    }
  }

  lemma SetFlagKeepsEntriesOk(es: seq<Entry>, i: nat, b: bool)
    requires i < |es| && EntriesOk(es)
    ensures EntriesOk(es[i := es[i].(equipped := b)])
    ensures FlagsOnly(es, es[i := es[i].(equipped := b)])
  {
  }

  lemma UnequipAtValid(s: State, i: nat, role: Role)
    requires i < |s.entries| && ValidState(s)
    ensures ValidState(UnequipAt(s, i, role))
  {
    SetFlagKeepsEntriesOk(s.entries, i, false);
  }

  lemma EquipAtValid(s: State, i: nat, role: Role)
    requires i < |s.entries| && ValidState(s)
    ensures ValidState(EquipAt(s, i, role).1)
  {
    SetFlagKeepsEntriesOk(s.entries, i, s.entries[i].equipped || EquipAt(s, i, role).0);
  }

  lemma RetireAtValid(s: State, i: nat, role: Role)
    requires i < |s.entries| && ValidState(s)
    ensures ValidState(RetireAt(s, i, role))
  {
    SetFlagKeepsEntriesOk(s.entries, i, false);
  }

  lemma RemoveAtValid(s: State, i: nat, role: Role)
    requires i < |s.entries| && ValidState(s)
    ensures ValidState(RemoveAt(s, i, role))
    ensures forall j :: 0 <= j < |RemoveAt(s, i, role).entries| ==> RemoveAt(s, i, role).entries[j] in s.entries
  {
    DeleteKeepsEntriesOk(s.entries, i);
  }

  lemma {:induction false} SweepFromValid(s: State, i: nat, sel: Selector, role: Role)
    requires i <= |s.entries| && ValidState(s)
    ensures ValidState(SweepFrom(s, i, sel, role))
    decreases |s.entries| - i
  {
    if i < |s.entries| {
      if Selects(sel, s.entries[i]) {
        RemoveAtValid(s, i, role);
        SweepFromValid(RemoveAt(s, i, role), i, sel, role);
      } else {
        SweepFromValid(s, i + 1, sel, role);
      }
    }
  }

  lemma RemoveEquipmentItemValid(s: State, t: Target, role: Role)
    requires ValidState(s)
    ensures ValidState(RemoveEquipmentItem(s, t, role))
    ensures forall j :: 0 <= j < |RemoveEquipmentItem(s, t, role).entries| ==>
      RemoveEquipmentItem(s, t, role).entries[j] in s.entries
  {
    if TargetIsValid(t) {
      var i := FirstIndex(s.entries, Sel(t));
      if i != INDEX_NONE {
        RemoveAtValid(s, i, role);
      }
    }
  }

  /** With slots unique, removing by a valid slot leaves no entry in that slot. */
  lemma RemoveBySlotClearsSlot(s: State, slot: SlotTag, role: Role)
    requires UniqueSlots(s.entries) && slot.IsValid()
    ensures forall j :: 0 <= j < |RemoveEquipmentItem(s, BySlot(slot), role).entries| ==>
      RemoveEquipmentItem(s, BySlot(slot), role).entries[j].slot != slot
  {
    var i := FirstIndex(s.entries, SlotIs(slot));
    if i != INDEX_NONE {
      var r := Delete(s.entries, i);
      forall j | 0 <= j < |r|
        ensures r[j].slot != slot
      {
        if j >= i {
          assert r[j] == s.entries[j + 1];
        }
      }
    }
  }

  lemma RemoveMultipleEquipmentItemsValid(s: State, hs: set<Handle>, role: Role)
    requires ValidState(s)
    ensures ValidState(RemoveMultipleEquipmentItems(s, hs, role))
  {
    if hs != {} {
      SweepFromValid(s, 0, HandleIn(hs), role);
    }
  }

  lemma RemoveAllEquipmentItemValid(s: State, role: Role)
    requires ValidState(s)
    ensures ValidState(RemoveAllEquipmentItem(s, role))
  {
    SweepFromValid(s, 0, Every, role);
  }

  lemma EquipEquipmentValid(s: State, t: Target, role: Role)
    requires ValidState(s)
    ensures ValidState(EquipEquipment(s, t, role).1)
  {
    if TargetIsValid(t) {
      var newIndex := LastIndex(s.entries, Sel(t));
      var oldIndex := LastIndex(s.entries, IsEquipped);
      if oldIndex != newIndex {
        var s1 := if oldIndex != INDEX_NONE then UnequipAt(s, oldIndex, role) else s;
        if oldIndex != INDEX_NONE {
          UnequipAtValid(s, oldIndex, role);
        }
        if newIndex != INDEX_NONE {
          EquipAtValid(s1, newIndex, role);
        }
      }
    }
  }

  lemma UnequipEquipmentValid(s: State, t: Target, role: Role)
    requires ValidState(s)
    ensures ValidState(UnequipEquipment(s, t, role))
  {
    if TargetIsValid(t) {
      var i := FirstIndex(s.entries, Sel(t));
      if i != INDEX_NONE {
        UnequipAtValid(s, i, role);
      }
    }
  }

  /** The entry that a successful add appends. */
  function NewEntry(slot: SlotTag, item: Option<ItemData>, h: Handle, equipImmediately: bool): (e: Entry)
    requires item.Some? && item.value.equipmentInfo.Some? && item.value.equipmentInfo.value.equipmentClass.Some?
    ensures e.handle == h && e.slot == slot && e.item == item
    ensures e.instance == item.value.equipmentInfo.value.equipmentClass
    ensures e.equipped <==> equipImmediately && MayBecomeActive(e.instance.value.equipPolicy)
  {
    var inst := item.value.equipmentInfo.value.equipmentClass.value;
    Entry(h, slot, item, Some(inst), equipImmediately && inst.equipPolicy == CanBeEquipped)
  }

  /** A successful add keeps what the same-slot removal left, in order, and appends exactly one entry. */
  lemma AddEquipmentItemShape(s: State, slot: SlotTag, item: Option<ItemData>, h: Handle, equipImmediately: bool, role: Role)
    requires AddEquipmentItem(s, slot, item, h, equipImmediately, role).0
    ensures AddEquipmentItem(s, slot, item, h, equipImmediately, role).1.entries ==
      RemoveEquipmentItem(s, BySlot(slot), role).entries + [NewEntry(slot, item, h, equipImmediately)]
  {
  }

  /** Adding with a handle the counter has not issued before keeps the invariant and the counter ahead. */
  lemma AddEquipmentItemValid(s: State, slot: SlotTag, item: Option<ItemData>, h: Handle, equipImmediately: bool, role: Role)
    requires ValidState(s) && h.IsValid() && HandlesBelow(s.entries, h.id)
    ensures ValidState(AddEquipmentItem(s, slot, item, h, equipImmediately, role).1)
    ensures HandlesBelow(AddEquipmentItem(s, slot, item, h, equipImmediately, role).1.entries, h.id + 1)
  {
    var r := AddEquipmentItem(s, slot, item, h, equipImmediately, role);
    if r.0 {
      AddEquipmentItemShape(s, slot, item, h, equipImmediately, role);
      var s1 := RemoveEquipmentItem(s, BySlot(slot), role);
      RemoveEquipmentItemValid(s, BySlot(slot), role);
      RemoveBySlotClearsSlot(s, slot, role);
      var e := NewEntry(slot, item, h, equipImmediately);
      AppendKeepsEntriesOk(s.entries, s1.entries, e);
    }
  }

  lemma AppendKeepsEntriesOk(es: seq<Entry>, kept: seq<Entry>, e: Entry)
    requires EntriesOk(kept) && EntryIsValid(e)
    requires forall j :: 0 <= j < |kept| ==> kept[j] in es && kept[j].slot != e.slot
    requires HandlesBelow(es, e.handle.id)
    ensures EntriesOk(kept + [e]) && HandlesBelow(kept + [e], e.handle.id + 1)
  {
    var r := kept + [e];
    forall j | 0 <= j < |kept|
      ensures r[j].handle.id < e.handle.id
    {
      assert kept[j] in es;
    }
  }

  lemma HandleInitializedValid(s: State, role: Role)
    requires ValidState(s)
    ensures ValidState(HandleInitialized(s, role))
  {
  }

  lemma {:induction false} PreReplicatedRemoveValid(s: State, indices: seq<int>, role: Role)
    requires IndicesInRange(indices, |s.entries|) && ValidState(s)
    ensures ValidState(PreReplicatedRemove(s, indices, role))
    decreases |indices|
  {
    if indices != [] {
      RetireAtValid(s, indices[0], role);
      PreReplicatedRemoveValid(RetireAt(s, indices[0], role), indices[1..], role);
    }
  }

  lemma PostReplicatedAddValid(s: State, indices: seq<int>, role: Role)
    requires IndicesInRange(indices, |s.entries|) && ValidState(s)
    ensures ValidState(PostReplicatedAdd(s, indices, role))
  {
  }

  lemma PostReplicatedChangeValid(s: State, indices: seq<int>, role: Role)
    requires IndicesInRange(indices, |s.entries|) && ValidState(s)
    ensures ValidState(PostReplicatedChange(s, indices, role))
  {
  }
}
