/**
 * The ready gate: before ready, lifecycle events only move handles in and
 * out of the pending sets; the one-shot HandleInitialized replays what is
 * still pending in entry order; and the three replication callbacks turn
 * their index lists into lifecycle events.
 */
module LifecycleProperties {
  import opened Wrappers
  import opened EquipmentPolicyTypes
  import opened ActiveEquipmentHandle
  import opened ItemInfo
  import opened Equipment
  import opened ActiveEquipmentSpec
  import opened ActiveEquipmentInvariants

  // ---------------------------------------------------------------------------
  // Buffering before ready

  /** Before ready, "removed" cancels a "given" that was buffered for a handle not already pending. */
  lemma GivenThenRemoveCancels(s: State, e: Entry, role: Role)
    requires !s.initialized && e.handle !in s.pendingGiven
    ensures HandleEquipmentRemove(HandleEquipmentGiven(s, e, role), e, role) == s
  {
    assert s.pendingGiven + {e.handle} - {e.handle} == s.pendingGiven;
  }

  /** Before ready, "unequipped" cancels an "equipped" that was buffered for a handle not already pending. */
  lemma EquipedThenUnequipedCancels(s: State, e: Entry, role: Role)
    requires !s.initialized && e.handle !in s.pendingEquipped
    ensures HandleEquipmentUnequiped(HandleEquipmentEquiped(s, e, role), e, role) == s
  {
    assert s.pendingEquipped + {e.handle} - {e.handle} == s.pendingEquipped;
  }

  // ---------------------------------------------------------------------------
  // Drain

  /**
   * The reference for one entry of the drain: its "given" hook and broadcast
   * if its handle is pending given, then its "equipped" hook and broadcast if
   * its handle is pending equipped and it is still equipped.
   */
  function ReplayEntry(e: Entry, pg: set<Handle>, pe: set<Handle>, role: Role): seq<Event>
    requires e.instance.Some?
  {
    (if e.handle in pg then [HookEvent(EquipmentGiven, e, role)] + Broadcast(Contents(e), role) else [])
    + (if e.handle in pe && e.equipped then [HookEvent(Equiped, e, role)] + Broadcast(Contents(e), role) else [])
  }

  /** The reference for the whole drain: each entry's replay, in entry order. */
  function Replay(es: seq<Entry>, pg: set<Handle>, pe: set<Handle>, role: Role): seq<Event>
    requires AllHaveInstances(es)
  {
    if es == [] then [] else ReplayEntry(es[0], pg, pe, role) + Replay(es[1..], pg, pe, role)
  }

  lemma ReplayFront(es: seq<Entry>, i: nat, pg: set<Handle>, pe: set<Handle>, role: Role)
    requires i < |es| && AllHaveInstances(es)
    ensures Replay(es[i..], pg, pe, role) == ReplayEntry(es[i], pg, pe, role) + Replay(es[i + 1..], pg, pe, role)
  {
    assert es[i..][1..] == es[i + 1..];
  }

  /** One drain step appends that entry's replay and nothing else. */
  lemma DrainStep(s: State, i: nat, role: Role)
    requires s.initialized && i < |s.entries| && AllHaveInstances(s.entries)
    ensures DrainFrom(s, i, role) ==
      DrainFrom(s.(trace := s.trace + ReplayEntry(s.entries[i], s.pendingGiven, s.pendingEquipped, role)), i + 1, role)
  {
    var e := s.entries[i];
    var s1 := if e.handle in s.pendingGiven then HandleEquipmentGiven(s, e, role) else s;
    var s2 := if e.handle in s1.pendingEquipped then HandleEquipmentEquiped(s1, e, role) else s1;
    var given := if e.handle in s.pendingGiven then [HookEvent(EquipmentGiven, e, role)] + Broadcast(Contents(e), role) else [];
    var equipped := if e.handle in s.pendingEquipped && e.equipped then [HookEvent(Equiped, e, role)] + Broadcast(Contents(e), role) else [];
    assert s1 == s.(trace := s.trace + given);
    assert s2 == s.(trace := s.trace + given + equipped);
    assert s.trace + given + equipped == s.trace + ReplayEntry(e, s.pendingGiven, s.pendingEquipped, role);
  }

  lemma {:induction false} DrainReplays(s: State, i: nat, role: Role)
    requires s.initialized && i <= |s.entries| && AllHaveInstances(s.entries)
    ensures DrainFrom(s, i, role).trace == s.trace + Replay(s.entries[i..], s.pendingGiven, s.pendingEquipped, role)
    decreases |s.entries| - i
  {
    if i < |s.entries| {
      var front := ReplayEntry(s.entries[i], s.pendingGiven, s.pendingEquipped, role);
      DrainStep(s, i, role);
      ReplayFront(s.entries, i, s.pendingGiven, s.pendingEquipped, role);
      DrainReplays(s.(trace := s.trace + front), i + 1, role);
    } else {
      assert s.entries[i..] == [];
    }
  }

  /**
   * HandleInitialized from not-ready: the container becomes ready, exactly the
   * replay of the pending events is appended, and both pending sets end empty.
   */
  lemma HandleInitializedReplays(s: State, role: Role)
    requires !s.initialized && AllHaveInstances(s.entries)
    ensures var r := HandleInitialized(s, role);
      && r.initialized && r.entries == s.entries
      && r.trace == s.trace + Replay(s.entries, s.pendingGiven, s.pendingEquipped, role)
      && r.pendingGiven == {} && r.pendingEquipped == {}
  {
    DrainReplays(s.(initialized := true), 0, role);
    assert s.entries[0..] == s.entries;
  }

  /** A second HandleInitialized changes nothing. */
  lemma HandleInitializedIdempotent(s: State, role: Role)
    requires AllHaveInstances(s.entries)
    ensures HandleInitialized(HandleInitialized(s, role), role) == HandleInitialized(s, role)
  {
  }

  /** An item whose equipment may go in any slot and may become active. */
  predicate Equippable(item: Option<ItemData>)
  {
    && item.Some? && item.value.equipmentInfo.Some?
    && item.value.equipmentInfo.value.addableSlots == {}
    && item.value.equipmentInfo.value.equipmentClass.Some?
    && item.value.equipmentInfo.value.equipmentClass.value.equipPolicy == CanBeEquipped
  }

  /**
   * Before ready: add A equipped, remove A, add B equipped, then become
   * ready. Only B's "given" and "equipped" fire, and nothing stays pending.
   */
  lemma DrainScenario(slotA: SlotTag, itemA: Option<ItemData>, hA: Handle,
                      slotB: SlotTag, itemB: Option<ItemData>, hB: Handle, role: Role)
    requires slotA.IsValid() && slotB.IsValid() && hA.IsValid()
    requires Equippable(itemA) && Equippable(itemB)
    ensures var (okA, s1) := AddEquipmentItem(Initial(), slotA, itemA, hA, true, role);
      var s2 := RemoveEquipmentItem(s1, ByHandle(hA), role);
      var (okB, s3) := AddEquipmentItem(s2, slotB, itemB, hB, true, role);
      var s4 := HandleInitialized(s3, role);
      var b := NewEntry(slotB, itemB, hB, true);
      && okA && okB
      && s4.entries == [b]
      && s4.trace == [HookEvent(EquipmentGiven, b, role)] + Broadcast(Contents(b), role)
                     + [HookEvent(Equiped, b, role)] + Broadcast(Contents(b), role)
      && s4.pendingGiven == {} && s4.pendingEquipped == {}
  {
    AddToEmptyBeforeReady(slotA, itemA, hA, role);
    RemovePendingOne(NewEntry(slotA, itemA, hA, true), role);
    AddToEmptyBeforeReady(slotB, itemB, hB, role);
    DrainPendingOne(NewEntry(slotB, itemB, hB, true), role);
  }

  /** The state before ready with one entry whose "given" and "equipped" are both pending. */
  function PendingOne(e: Entry): (s: State)
    ensures s.entries == [e] && !s.initialized && s.trace == []
  {
    State([e], false, {e.handle}, {e.handle}, [])
  }

  /** Before ready, adding an equippable item to the empty container with immediate equip leaves both hooks pending. */
  lemma AddToEmptyBeforeReady(slot: SlotTag, item: Option<ItemData>, h: Handle, role: Role)
    requires slot.IsValid() && Equippable(item)
    ensures AddEquipmentItem(Initial(), slot, item, h, true, role) == (true, PendingOne(NewEntry(slot, item, h, true)))
  {
    var e := Entry(h, slot, item, item.value.equipmentInfo.value.equipmentClass, false);
    var e' := NewEntry(slot, item, h, true);
    assert RemoveEquipmentItem(Initial(), BySlot(slot), role) == Initial();
    assert [] + [e] == [e];
    var s2 := State([e], false, {h}, {}, []);
    assert HandleEquipmentGiven(Initial().(entries := [e]), e, role) == s2;
    assert TryEquip(e) == (true, e');
    assert s2.entries[0 := e'] == [e'];
    assert AppendEntry(Initial(), e, true, role) == PendingOne(e');
  }

  /** Removing that entry by its handle, before ready, cancels both pending hooks and returns to the empty container. */
  lemma RemovePendingOne(e: Entry, role: Role)
    requires e.handle.IsValid() && e.equipped
    ensures RemoveEquipmentItem(PendingOne(e), ByHandle(e.handle), role) == Initial()
  {
    assert FirstIndex([e], HandleIs(e.handle)) == 0;
    assert RetireAt(PendingOne(e), 0, role) == State([e.(equipped := false)], false, {}, {}, []);
  }

  /** Becoming ready with one equipped entry pending fires its "given" then its "equipped", and empties both sets. */
  lemma DrainPendingOne(e: Entry, role: Role)
    requires e.instance.Some? && e.equipped
    ensures var r := HandleInitialized(PendingOne(e), role);
      && r.entries == [e]
      && r.trace == [HookEvent(EquipmentGiven, e, role)] + Broadcast(Contents(e), role)
                    + [HookEvent(Equiped, e, role)] + Broadcast(Contents(e), role)
      && r.pendingGiven == {} && r.pendingEquipped == {}
  {
    HandleInitializedReplays(PendingOne(e), role);
    assert [e][1..] == [];
  }

  // ---------------------------------------------------------------------------
  // Replication callbacks

  /** The handles of the entries at the given indices. */
  function HandlesAt(es: seq<Entry>, indices: seq<int>): (hs: set<Handle>)
    requires IndicesInRange(indices, |es|)
    ensures forall k :: 0 <= k < |indices| ==> es[indices[k]].handle in hs
  {
    if indices == [] then {} else {es[indices[0]].handle} + HandlesAt(es, indices[1..])
  }

  /** Before ready, PostReplicatedAdd records every added handle as pending given and pending equipped, and fires nothing. */
  lemma {:induction false} PostReplicatedAddBeforeReady(s: State, indices: seq<int>, role: Role)
    requires !s.initialized && IndicesInRange(indices, |s.entries|)
    ensures var r := PostReplicatedAdd(s, indices, role);
      && r.trace == s.trace
      && r.pendingGiven == s.pendingGiven + HandlesAt(s.entries, indices)
      && r.pendingEquipped == s.pendingEquipped + HandlesAt(s.entries, indices)
    decreases |indices|
  {
    if indices != [] {
      var s1 := AddedStep(s, indices[0], role);
      PostReplicatedAddBeforeReady(s1, indices[1..], role);
    }
  }

  /**
   * Before ready, each PostReplicatedChange index first records and then
   * cancels a pending equip, so the net effect removes the handle from the
   * pending-equipped set.
   */
  lemma {:induction false} PostReplicatedChangeBeforeReady(s: State, indices: seq<int>, role: Role)
    requires !s.initialized && IndicesInRange(indices, |s.entries|)
    ensures var r := PostReplicatedChange(s, indices, role);
      && r.trace == s.trace && r.pendingGiven == s.pendingGiven
      && r.pendingEquipped == s.pendingEquipped - HandlesAt(s.entries, indices)
    decreases |indices|
  {
    if indices != [] {
      var s1 := ChangedStep(s, indices[0], role);
      assert s1.pendingEquipped == s.pendingEquipped - {s.entries[indices[0]].handle};
      PostReplicatedChangeBeforeReady(s1, indices[1..], role);
    }
  }

  /** Once ready, a changed entry fires exactly one hook: "equipped" (and its broadcast) if set, "unequipped" if clear. */
  lemma ChangeFiresExactlyOne(s: State, i: nat, role: Role)
    requires s.initialized && i < |s.entries| && s.entries[i].instance.Some?
    ensures var e := s.entries[i];
      ChangedStep(s, i, role).trace ==
        s.trace + if e.equipped then [HookEvent(Equiped, e, role)] + Broadcast(Contents(e), role)
                  else [HookEvent(Unequiped, e, role)]
  {
  }

  /** Once ready, an added entry fires "given" and its broadcast, then "equipped" and its broadcast if it is equipped. */
  lemma AddedFiresGivenThenEquipped(s: State, i: nat, role: Role)
    requires s.initialized && i < |s.entries| && s.entries[i].instance.Some?
    ensures var e := s.entries[i];
      AddedStep(s, i, role).trace ==
        s.trace + ([HookEvent(EquipmentGiven, e, role)] + Broadcast(Contents(e), role))
        + (if e.equipped then [HookEvent(Equiped, e, role)] + Broadcast(Contents(e), role) else [])
  {
  }

  /**
   * PreReplicatedRemove erases nothing: it clears the flags of the listed
   * entries and leaves every other entry as it was.
   */
  lemma {:induction false} PreReplicatedRemoveUnequips(s: State, indices: seq<int>, role: Role)
    requires IndicesInRange(indices, |s.entries|)
    ensures var r := PreReplicatedRemove(s, indices, role);
      && FlagsOnly(s.entries, r.entries)
      && (forall k :: 0 <= k < |indices| ==> !r.entries[indices[k]].equipped)
      && (forall j :: 0 <= j < |s.entries| && j !in indices ==> r.entries[j] == s.entries[j])
    decreases |indices|
  {
    if indices != [] {
      var s1 := RetireAt(s, indices[0], role);
      PreReplicatedRemoveUnequips(s1, indices[1..], role);
      var r := PreReplicatedRemove(s, indices, role);
      assert r == PreReplicatedRemove(s1, indices[1..], role);
      forall k | 0 <= k < |indices|
        ensures !r.entries[indices[k]].equipped
      {
        if k > 0 {
          assert indices[k] == indices[1..][k - 1];
        } else if indices[0] !in indices[1..] {
          assert r.entries[indices[0]] == s1.entries[indices[0]];
        } else {
          var m :| 0 <= m < |indices[1..]| && indices[1..][m] == indices[0];
        }
      }
      forall j | 0 <= j < |s.entries| && j !in indices
        ensures r.entries[j] == s.entries[j]
      {
        assert j != indices[0];
        assert j !in indices[1..];
      }
    }
  }
}
