/**
 * The equipment container as values: its entries, its ready flag, its two
 * pending-handle sets and the trace of hook calls and slot-change broadcasts
 * it has produced. Each container operation is one function from the old
 * state to the new one; the class in module ActiveEquipment runs the same
 * steps in place and is proved equal to these functions.
 */
module ActiveEquipmentSpec {
  import opened Wrappers
  import opened EquipmentPolicyTypes
  import opened ActiveEquipmentHandle
  import opened ItemInfo
  import opened Equipment

  // ---------------------------------------------------------------------------
  // Entries

  /** One slot assignment. The instance, once created, is named by the entry's handle. */
  datatype Entry = Entry(
    handle: Handle,
    slot: SlotTag,
    item: Option<ItemData>,
    instance: Option<Instance>,
    equipped: bool)

  /** An entry as the default constructor leaves it. */
  function DefaultEntry(): (e: Entry)
    ensures !e.handle.IsValid() && !e.slot.IsValid()
    ensures e.item.None? && e.instance.None? && !e.equipped
    ensures !EntryIsValid(e)
  {
    Entry(DefaultHandle(), EmptyTag, None, None, false)
  }

  /** Every field of the entry is set. */
  predicate EntryIsValid(e: Entry)
  {
    e.handle.IsValid() && e.slot.IsValid() && e.item.Some? && e.instance.Some?
  }

  /** Equips the entry unless its instance cannot be equipped or it already is. */
  function TryEquip(e: Entry): (r: (bool, Entry))
    requires e.instance.Some?
    ensures r.0 <==> MayBecomeActive(e.instance.value.equipPolicy) && !e.equipped
    ensures r.0 ==> r.1 == e.(equipped := true)
    ensures !r.0 ==> r.1 == e
  {
    if e.instance.value.equipPolicy == CannotBeEquipped then (false, e)
    else if e.equipped then (false, e)
    else (true, e.(equipped := true))
  }

  /** Unequips the entry if it is equipped. */
  function TryUnequip(e: Entry): (r: (bool, Entry))
    ensures r.0 <==> e.equipped
    ensures r.1 == e.(equipped := false)
  {
    if !e.equipped then (false, e)
    else (true, e.(equipped := false))
  }

  // ---------------------------------------------------------------------------
  // Observable effects

  /** A slot-change message: slot, item and instance, or None where the message carries none. */
  datatype SlotMessage = SlotMessage(slot: SlotTag, item: Option<ItemData>, instance: Option<Handle>)

  /** What the container makes happen outside itself. */
  datatype Event =
    | Hook(handle: Handle, kind: HookKind, calls: seq<FragmentCall>)  // a lifecycle hook of the entry's instance
    | SlotChange(msg: SlotMessage)                                    // a slot-change broadcast

  /** The message that describes an entry's slot and contents. */
  function Contents(e: Entry): (m: SlotMessage)
    ensures m.slot == e.slot && m.item == e.item
    ensures m.instance.Some? <==> e.instance.Some?
  {
    SlotMessage(e.slot, e.item, if e.instance.Some? then Some(e.handle) else None)
  }

  /** A hook of the entry's instance, with the fragment calls it makes for `role`. */
  function HookEvent(kind: HookKind, e: Entry, role: Role): Event
    requires e.instance.Some?
  {
    Hook(e.handle, kind, HookCalls(kind, e.instance.value.fragments, role))
  }

  /** A slot-change broadcast happens only where the owner has a local net owner. */
  function Broadcast(msg: SlotMessage, role: Role): (evs: seq<Event>)
    ensures |evs| <= 1
    ensures evs != [] <==> role.hasLocalNetOwner
  {
    if role.hasLocalNetOwner then [SlotChange(msg)] else []
  }

  // ---------------------------------------------------------------------------
  // Container state

  datatype State = State(
    entries: seq<Entry>,
    initialized: bool,
    pendingGiven: set<Handle>,
    pendingEquipped: set<Handle>,
    trace: seq<Event>)

  /** A new container: no entries, not initialized, nothing pending, nothing happened. */
  function Initial(): (s: State)
    ensures s.entries == [] && !s.initialized && s.trace == []
    ensures s.pendingGiven == {} && s.pendingEquipped == {}
  {
    State([], false, {}, {}, [])
  }

  predicate AllValid(es: seq<Entry>)
  {
    forall j :: 0 <= j < |es| ==> EntryIsValid(es[j])
  }

  predicate AllHaveInstances(es: seq<Entry>)
  {
    forall j :: 0 <= j < |es| ==> es[j].instance.Some?
  }

  predicate UniqueSlots(es: seq<Entry>)
  {
    forall j, k :: 0 <= j < k < |es| ==> es[j].slot != es[k].slot
  }

  predicate DistinctHandles(es: seq<Entry>)
  {
    forall j, k :: 0 <= j < k < |es| ==> es[j].handle != es[k].handle
  }

  predicate AtMostOneEquipped(es: seq<Entry>)
  {
    forall j, k :: 0 <= j < k < |es| ==> !(es[j].equipped && es[k].equipped)
  }

  /** Only the equipped flags may differ between the two entry lists. */
  predicate FlagsOnly(a: seq<Entry>, b: seq<Entry>)
  {
    |a| == |b| && forall j :: 0 <= j < |a| ==> b[j] == a[j].(equipped := b[j].equipped)
  }

  /**
   * The container invariant: entries are fully populated, no two share a slot
   * or a handle, and the pending sets are empty once the container is ready.
   */
  predicate ValidState(s: State)
  {
    && AllValid(s.entries)
    && UniqueSlots(s.entries)
    && DistinctHandles(s.entries)
    && (s.initialized ==> s.pendingGiven == {} && s.pendingEquipped == {})
  }

  /** Every entry handle is below the counter value `next` (so `next` is fresh). */
  predicate HandlesBelow(es: seq<Entry>, next: int)
  {
    forall j :: 0 <= j < |es| ==> es[j].handle.id < next
  }

  /** Before ready nothing reaches the hooks or the broadcast channel. */
  predicate SilentBeforeReady(s: State, r: State)
  {
    !s.initialized ==> r.trace == s.trace
  }

  /** Once ready, the pending sets are left alone. */
  predicate ReadyKeepsPending(s: State, r: State)
  {
    s.initialized ==> r.pendingGiven == s.pendingGiven && r.pendingEquipped == s.pendingEquipped
  }

  // ---------------------------------------------------------------------------
  // Ready-gated lifecycle dispatch

  /** "Given": buffered before ready, otherwise the hook and a slot-change broadcast. */
  function HandleEquipmentGiven(s: State, e: Entry, role: Role): (r: State)
    requires s.initialized ==> e.instance.Some?
    ensures r.entries == s.entries && r.initialized == s.initialized
    ensures !s.initialized ==> r.trace == s.trace && r.pendingEquipped == s.pendingEquipped
    ensures s.initialized ==> r.pendingGiven == s.pendingGiven && r.pendingEquipped == s.pendingEquipped
    ensures !s.initialized ==> r.pendingGiven == s.pendingGiven + {e.handle}
    ensures s.initialized ==> r.trace == s.trace + [HookEvent(EquipmentGiven, e, role)] + Broadcast(Contents(e), role)
  {
    if !s.initialized then s.(pendingGiven := s.pendingGiven + {e.handle})
    else s.(trace := s.trace + [HookEvent(EquipmentGiven, e, role)] + Broadcast(Contents(e), role))
  }

  /** "Removed": cancels a pending given before ready, otherwise the hook (if any instance) and a clearing broadcast. */
  function HandleEquipmentRemove(s: State, e: Entry, role: Role): (r: State)
    ensures r.entries == s.entries && r.initialized == s.initialized
    ensures !s.initialized ==> r.trace == s.trace && r.pendingEquipped == s.pendingEquipped
    ensures s.initialized ==> r.pendingGiven == s.pendingGiven && r.pendingEquipped == s.pendingEquipped
    ensures !s.initialized ==> r.pendingGiven == s.pendingGiven - {e.handle}
    ensures s.initialized ==>
      r.trace == s.trace + (if e.instance.Some? then [HookEvent(EquipmentRemove, e, role)] else [])
                 + Broadcast(SlotMessage(e.slot, None, None), role)
  {
    if !s.initialized then s.(pendingGiven := s.pendingGiven - {e.handle})
    else
      var hook := if e.instance.Some? then [HookEvent(EquipmentRemove, e, role)] else [];
      s.(trace := s.trace + hook + Broadcast(SlotMessage(e.slot, None, None), role))
  }

  /** "Equipped": buffered before ready, otherwise the hook and a broadcast only if the entry is equipped. */
  function HandleEquipmentEquiped(s: State, e: Entry, role: Role): (r: State)
    requires s.initialized ==> e.instance.Some?
    ensures r.entries == s.entries && r.initialized == s.initialized
    ensures !s.initialized ==> r.trace == s.trace && r.pendingGiven == s.pendingGiven
    ensures s.initialized ==> r.pendingGiven == s.pendingGiven && r.pendingEquipped == s.pendingEquipped
    ensures s.initialized && !e.equipped ==> r == s
    ensures !s.initialized ==> r.pendingEquipped == s.pendingEquipped + {e.handle}
    ensures s.initialized && e.equipped ==> r.trace == s.trace + [HookEvent(Equiped, e, role)] + Broadcast(Contents(e), role)
  {
    if !s.initialized then s.(pendingEquipped := s.pendingEquipped + {e.handle})
    else if e.equipped then
      s.(trace := s.trace + [HookEvent(Equiped, e, role)] + Broadcast(Contents(e), role))
    else s
  }

  /** "Unequipped": cancels a pending equip before ready, otherwise the hook only if the entry is unequipped. */
  function HandleEquipmentUnequiped(s: State, e: Entry, role: Role): (r: State)
    ensures r.entries == s.entries && r.initialized == s.initialized
    ensures !s.initialized ==> r.trace == s.trace && r.pendingGiven == s.pendingGiven
    ensures s.initialized ==> r.pendingGiven == s.pendingGiven && r.pendingEquipped == s.pendingEquipped
    ensures s.initialized && e.equipped ==> r == s
    ensures !s.initialized ==> r.pendingEquipped == s.pendingEquipped - {e.handle}
    ensures s.initialized && !e.equipped ==> r.trace == s.trace + (if e.instance.Some? then [HookEvent(Unequiped, e, role)] else [])
  {
    if !s.initialized then s.(pendingEquipped := s.pendingEquipped - {e.handle})
    else if e.instance.Some? && !e.equipped then
      s.(trace := s.trace + [HookEvent(Unequiped, e, role)])
    else s
  }

  // ---------------------------------------------------------------------------
  // Lookup

  /** What an operation looks for in the entry list. */
  datatype Selector = HandleIs(h: Handle) | SlotIs(tag: SlotTag) | IsEquipped | HandleIn(hs: set<Handle>) | Every

  predicate Selects(sel: Selector, e: Entry)
  {
    match sel
    case HandleIs(h) => e.handle == h
    case SlotIs(tag) => e.slot == tag
    case IsEquipped => e.equipped
    case HandleIn(hs) => e.handle in hs
    case Every => true
  }

  /** The two ways callers name an entry: by handle or by slot. */
  datatype Target = ByHandle(handle: Handle) | BySlot(slot: SlotTag)

  predicate TargetIsValid(t: Target)
  {
    match t
    case ByHandle(h) => h.IsValid()
    case BySlot(tag) => tag.IsValid()
  }

  function Sel(t: Target): Selector
  {
    match t
    case ByHandle(h) => HandleIs(h)
    case BySlot(tag) => SlotIs(tag)
  }

  /** The index of the first selected entry, or INDEX_NONE. */
  function FirstIndex(es: seq<Entry>, sel: Selector): (r: int)
    ensures INDEX_NONE <= r < |es|
    ensures r != INDEX_NONE ==> Selects(sel, es[r]) && forall j :: 0 <= j < r ==> !Selects(sel, es[j])
    ensures r == INDEX_NONE <==> forall j :: 0 <= j < |es| ==> !Selects(sel, es[j])
    decreases |es|
  {
    if es == [] then INDEX_NONE
    else if Selects(sel, es[0]) then 0
    else
      var k := FirstIndex(es[1..], sel);
      if k == INDEX_NONE then INDEX_NONE else k + 1
  }

  /** The index of the last selected entry, or INDEX_NONE. */
  function LastIndex(es: seq<Entry>, sel: Selector): (r: int)
    ensures INDEX_NONE <= r < |es|
    ensures r != INDEX_NONE ==> Selects(sel, es[r]) && forall j :: r < j < |es| ==> !Selects(sel, es[j])
    ensures r == INDEX_NONE <==> forall j :: 0 <= j < |es| ==> !Selects(sel, es[j])
    decreases |es|
  {
    if es == [] then INDEX_NONE
    else if Selects(sel, es[|es| - 1]) then |es| - 1
    else LastIndex(es[..|es| - 1], sel)
  }

  /** The entry list without its i-th element, the others in their order. */
  function Delete(es: seq<Entry>, i: nat): (r: seq<Entry>)
    requires i < |es|
    ensures |r| == |es| - 1
    ensures forall j :: 0 <= j < |r| ==> r[j] == es[if j < i then j else j + 1]
  {
    es[..i] + es[i + 1..]
  }

  // ---------------------------------------------------------------------------
  // Per-entry transitions

  /** The entry-reference overload of UnequipEquipment. */
  function UnequipAt(s: State, i: nat, role: Role): (r: State)
    requires i < |s.entries|
    ensures r.entries == s.entries[i := s.entries[i].(equipped := false)]
    ensures r.initialized == s.initialized
    ensures SilentBeforeReady(s, r) && ReadyKeepsPending(s, r)
  {
    var (ok, e) := TryUnequip(s.entries[i]);
    if ok then HandleEquipmentUnequiped(s.(entries := s.entries[i := e]), e, role) else s
  }

  /** The entry-reference overload of EquipEquipment. */
  function EquipAt(s: State, i: nat, role: Role): (r: (bool, State))
    requires i < |s.entries| && s.entries[i].instance.Some?
    ensures r.0 <==> MayBecomeActive(s.entries[i].instance.value.equipPolicy) && !s.entries[i].equipped
    ensures r.1.entries == s.entries[i := s.entries[i].(equipped := s.entries[i].equipped || r.0)]
    ensures !r.0 ==> r.1 == s
    ensures r.1.initialized == s.initialized
    ensures SilentBeforeReady(s, r.1) && ReadyKeepsPending(s, r.1)
  {
    var (ok, e) := TryEquip(s.entries[i]);
    if ok then (true, HandleEquipmentEquiped(s.(entries := s.entries[i := e]), e, role)) else (false, s)
  }

  /** Unequip if equipped (with its event), then the removed event; the entry stays, unequipped. */
  function RetireAt(s: State, i: nat, role: Role): (r: State)
    requires i < |s.entries|
    ensures r.entries == s.entries[i := s.entries[i].(equipped := false)]
    ensures r.initialized == s.initialized
    ensures SilentBeforeReady(s, r) && ReadyKeepsPending(s, r)
  {
    var (ok, e) := TryUnequip(s.entries[i]);
    var s1 := s.(entries := s.entries[i := e]);
    var s2 := if ok then HandleEquipmentUnequiped(s1, e, role) else s1;
    HandleEquipmentRemove(s2, e, role)
  }

  /** The full removal sequence for one entry, then its erasure. */
  function RemoveAt(s: State, i: nat, role: Role): (r: State)
    requires i < |s.entries|
    ensures r.entries == Delete(s.entries, i)
    ensures r.initialized == s.initialized
    ensures SilentBeforeReady(s, r) && ReadyKeepsPending(s, r)
  {
    var s1 := RetireAt(s, i, role);
    assert Delete(s1.entries, i) == Delete(s.entries, i);
    s1.(entries := Delete(s1.entries, i))
  }

  /** Removes, from index i on and in order, every entry the selector picks. */
  function SweepFrom(s: State, i: nat, sel: Selector, role: Role): (r: State)
    requires i <= |s.entries|
    ensures r.initialized == s.initialized
    decreases |s.entries| - i
    ensures SilentBeforeReady(s, r) && ReadyKeepsPending(s, r)
  {
    if i == |s.entries| then s
    else if Selects(sel, s.entries[i]) then SweepFrom(RemoveAt(s, i, role), i, sel, role)
    else SweepFrom(s, i + 1, sel, role)
  }

  // ---------------------------------------------------------------------------
  // Container operations

  /** RemoveEquipmentItem by handle or by slot: the first match, if the target is valid. */
  function RemoveEquipmentItem(s: State, t: Target, role: Role): (r: State)
    ensures r.initialized == s.initialized
    ensures SilentBeforeReady(s, r) && ReadyKeepsPending(s, r)
  {
    if !TargetIsValid(t) then s
    else
      var i := FirstIndex(s.entries, Sel(t));
      if i == INDEX_NONE then s else RemoveAt(s, i, role)
  }

  /** RemoveMultipleEquipmentItems: every entry whose handle is in the set; an empty set is a no-op. */
  function RemoveMultipleEquipmentItems(s: State, hs: set<Handle>, role: Role): (r: State)
    ensures r.initialized == s.initialized
    ensures SilentBeforeReady(s, r) && ReadyKeepsPending(s, r)
  {
    if hs == {} then s else SweepFrom(s, 0, HandleIn(hs), role)
  }

  /** RemoveAllEquipmentItem. */
  function RemoveAllEquipmentItem(s: State, role: Role): (r: State)
    ensures r.initialized == s.initialized
    ensures SilentBeforeReady(s, r) && ReadyKeepsPending(s, r)
  {
    SweepFrom(s, 0, Every, role)
  }

  /**
   * AddEquipmentItem with `h` the handle the counter issues if every check
   * passes. All checks precede the same-slot removal.
   */
  function AddEquipmentItem(s: State, slot: SlotTag, item: Option<ItemData>, h: Handle, equipImmediately: bool, role: Role): (r: (bool, State))
    ensures r.0 <==>
      && item.Some? && slot.IsValid()
      && item.value.equipmentInfo.Some?
      && (item.value.equipmentInfo.value.addableSlots == {} || HasTag(item.value.equipmentInfo.value.addableSlots, slot))
      && item.value.equipmentInfo.value.equipmentClass.Some?
    ensures !r.0 ==> r.1 == s
    ensures r.1.initialized == s.initialized
    ensures SilentBeforeReady(s, r.1) && ReadyKeepsPending(s, r.1)
  {
    if item.None? || !slot.IsValid() then (false, s)
    else if item.value.equipmentInfo.None? then (false, s)
    else
      var info := item.value.equipmentInfo.value;
      if info.addableSlots != {} && !HasTag(info.addableSlots, slot) then (false, s)
      else if info.equipmentClass.None? then (false, s)
      else
        var s1 := RemoveEquipmentItem(s, BySlot(slot), role);
        (true, AppendEntry(s1, Entry(h, slot, item, Some(info.equipmentClass.value), false), equipImmediately, role))
  }

  /** The part of a successful add after the same-slot removal: append, "given", then the immediate equip if asked. */
  function AppendEntry(s: State, e: Entry, equipImmediately: bool, role: Role): (r: State)
    requires e.instance.Some?
    ensures r.initialized == s.initialized
    ensures SilentBeforeReady(s, r) && ReadyKeepsPending(s, r)
  {
    var s2 := HandleEquipmentGiven(s.(entries := s.entries + [e]), e, role);
    if !equipImmediately then s2
    else
      var (ok, e') := TryEquip(e);
      if ok then HandleEquipmentEquiped(s2.(entries := s2.entries[|s2.entries| - 1 := e']), e', role)
      else s2
  }

  /**
   * EquipEquipment by handle or by slot. Both indices are the LAST match, as
   * the scan does not stop at the first one.
   */
  function EquipEquipment(s: State, t: Target, role: Role): (r: (bool, State))
    requires AllHaveInstances(s.entries)
    ensures r.1.initialized == s.initialized
    ensures SilentBeforeReady(s, r.1) && ReadyKeepsPending(s, r.1)
  {
    if !TargetIsValid(t) then (false, s)
    else
      var newIndex := LastIndex(s.entries, Sel(t));
      var oldIndex := LastIndex(s.entries, IsEquipped);
      if oldIndex == newIndex then (false, s)
      else
        var s1 := if oldIndex != INDEX_NONE then UnequipAt(s, oldIndex, role) else s;
        if newIndex != INDEX_NONE then EquipAt(s1, newIndex, role) else (false, s1)
  }

  /** UnequipEquipment by handle or by slot: the first match, if the target is valid. */
  function UnequipEquipment(s: State, t: Target, role: Role): (r: State)
    ensures r.initialized == s.initialized
    ensures SilentBeforeReady(s, r) && ReadyKeepsPending(s, r)
  {
    if !TargetIsValid(t) then s
    else
      var i := FirstIndex(s.entries, Sel(t));
      if i == INDEX_NONE then s else UnequipAt(s, i, role)
  }

  /** From index i on, replays the pending given and equipped events in entry order. */
  function DrainFrom(s: State, i: nat, role: Role): (r: State)
    requires s.initialized && i <= |s.entries| && AllHaveInstances(s.entries)
    ensures r.entries == s.entries && r.initialized
    ensures r.pendingGiven == s.pendingGiven && r.pendingEquipped == s.pendingEquipped
    decreases |s.entries| - i
  {
    if i == |s.entries| then s
    else
      var e := s.entries[i];
      var s1 := if e.handle in s.pendingGiven then HandleEquipmentGiven(s, e, role) else s;
      var s2 := if e.handle in s1.pendingEquipped then HandleEquipmentEquiped(s1, e, role) else s1;
      DrainFrom(s2, i + 1, role)
  }

  /** HandleInitialized: one-shot; becomes ready, replays, and empties both pending sets. */
  function HandleInitialized(s: State, role: Role): (r: State)
    requires AllHaveInstances(s.entries)
    ensures r.initialized && r.entries == s.entries
    ensures r.pendingGiven == {} || r == s
    ensures r.pendingEquipped == {} || r == s
  {
    if s.initialized then s
    else
      var d := DrainFrom(s.(initialized := true), 0, role);
      d.(pendingGiven := {}, pendingEquipped := {})
  }

  // ---------------------------------------------------------------------------
  // Replication callbacks

  predicate IndicesInRange(indices: seq<int>, n: int)
  {
    forall k :: 0 <= k < |indices| ==> 0 <= indices[k] < n
  }

  /** PreReplicatedRemove: for each index, unequip-if-equipped then removed; nothing is erased here. */
  function PreReplicatedRemove(s: State, indices: seq<int>, role: Role): (r: State)
    requires IndicesInRange(indices, |s.entries|)
    ensures |r.entries| == |s.entries| && r.initialized == s.initialized
    decreases |indices|
    ensures SilentBeforeReady(s, r) && ReadyKeepsPending(s, r)
  {
    if indices == [] then s
    else PreReplicatedRemove(RetireAt(s, indices[0], role), indices[1..], role)
  }

  /** Once ready, every listed entry has an instance for its hooks to run on; before ready nothing is needed. */
  predicate ListedInstancesWhenReady(s: State, indices: seq<int>)
  {
    s.initialized ==>
      forall k :: 0 <= k < |indices| && 0 <= indices[k] < |s.entries| ==> s.entries[indices[k]].instance.Some?
  }

  /** One PostReplicatedAdd step: given, then equipped. */
  function AddedStep(s: State, i: nat, role: Role): (r: State)
    requires i < |s.entries| && (s.initialized ==> s.entries[i].instance.Some?)
    ensures r.entries == s.entries && r.initialized == s.initialized
    ensures SilentBeforeReady(s, r) && ReadyKeepsPending(s, r)
  {
    var e := s.entries[i];
    HandleEquipmentEquiped(HandleEquipmentGiven(s, e, role), e, role)
  }

  /** PostReplicatedAdd: for each index, given then equipped. */
  function PostReplicatedAdd(s: State, indices: seq<int>, role: Role): (r: State)
    requires IndicesInRange(indices, |s.entries|) && ListedInstancesWhenReady(s, indices)
    ensures r.entries == s.entries && r.initialized == s.initialized
    decreases |indices|
    ensures SilentBeforeReady(s, r) && ReadyKeepsPending(s, r)
  {
    if indices == [] then s
    else PostReplicatedAdd(AddedStep(s, indices[0], role), indices[1..], role)
  }

  /** One PostReplicatedChange step: equipped check, then unequipped check. */
  function ChangedStep(s: State, i: nat, role: Role): (r: State)
    requires i < |s.entries| && (s.initialized ==> s.entries[i].instance.Some?)
    ensures r.entries == s.entries && r.initialized == s.initialized
    ensures SilentBeforeReady(s, r) && ReadyKeepsPending(s, r)
  {
    var e := s.entries[i];
    HandleEquipmentUnequiped(HandleEquipmentEquiped(s, e, role), e, role)
  }

  /** PostReplicatedChange: for each index, equipped check then unequipped check. */
  function PostReplicatedChange(s: State, indices: seq<int>, role: Role): (r: State)
    requires IndicesInRange(indices, |s.entries|) && ListedInstancesWhenReady(s, indices)
    ensures r.entries == s.entries && r.initialized == s.initialized
    decreases |indices|
    ensures SilentBeforeReady(s, r) && ReadyKeepsPending(s, r)
  {
    if indices == [] then s
    else PostReplicatedChange(ChangedStep(s, indices[0], role), indices[1..], role)
  }

  // ---------------------------------------------------------------------------
  // Queries

  /** GetActiveSlotInfo: the first equipped entry's slot and contents. */
  function ActiveSlotInfo(es: seq<Entry>): (r: Option<SlotMessage>)
    ensures r.None? <==> forall j :: 0 <= j < |es| ==> !es[j].equipped
    ensures r.Some? ==>
      exists j :: 0 <= j < |es| && es[j].equipped && r.value == Contents(es[j]) && forall k :: 0 <= k < j ==> !es[k].equipped
  {
    var i := FirstIndex(es, IsEquipped);
    if i == INDEX_NONE then None else Some(Contents(es[i]))
  }

  /** GetSlotInfo: the first entry in the slot, its slot and contents. */
  function SlotInfo(es: seq<Entry>, slot: SlotTag): (r: Option<SlotMessage>)
    ensures r.None? <==> forall j :: 0 <= j < |es| ==> es[j].slot != slot
    ensures r.Some? ==>
      exists j :: 0 <= j < |es| && es[j].slot == slot && r.value == Contents(es[j]) && forall k :: 0 <= k < j ==> es[k].slot != slot
  {
    var i := FirstIndex(es, SlotIs(slot));
    if i == INDEX_NONE then None else Some(Contents(es[i]))
  }
}
