/**
 * EquipEquipment keeps "at most one entry equipped", unequips the old entry
 * before it equips the new one, does nothing when the target already is the
 * equipped entry, and still unequips when the target is valid but unknown.
 */
module EquipProperties {
  import opened Wrappers
  import opened EquipmentPolicyTypes
  import opened ActiveEquipmentHandle
  import opened Equipment
  import opened ActiveEquipmentSpec

  /** No entry other than index i is equipped. */
  predicate OnlyEquippedAt(es: seq<Entry>, i: int)
  {
    forall j :: 0 <= j < |es| && j != i ==> !es[j].equipped
  }

  /** With at most one equipped entry, it is the one the last-match scan finds. */
  lemma EquippedIsLast(es: seq<Entry>)
    requires AtMostOneEquipped(es)
    ensures OnlyEquippedAt(es, LastIndex(es, IsEquipped))
  {
  }

  lemma OnlyEquippedAtOne(es: seq<Entry>, i: int)
    requires OnlyEquippedAt(es, i)
    ensures AtMostOneEquipped(es)
  {
  }

  /** The state after the old entry (if any) is unequipped: nothing is equipped any more. */
  lemma UnequipOldClears(s: State, role: Role)
    requires AtMostOneEquipped(s.entries)
    ensures var o := LastIndex(s.entries, IsEquipped);
      OnlyEquippedAt((if o != INDEX_NONE then UnequipAt(s, o, role) else s).entries, INDEX_NONE)
  {
    EquippedIsLast(s.entries);
  }

  /**
   * In any state, including one where an immediate-equip add left two
   * entries equipped, EquipEquipment succeeds exactly when the target exists,
   * is unequipped and its instance may become active; on success the target
   * is equipped, and only flags ever change.
   */
  lemma EquipOutcome(s: State, t: Target, role: Role)
    requires AllHaveInstances(s.entries)
    ensures var r := EquipEquipment(s, t, role);
      var n := LastIndex(s.entries, Sel(t));
      && (r.0 <==> TargetIsValid(t) && n != INDEX_NONE && !s.entries[n].equipped
                   && MayBecomeActive(s.entries[n].instance.value.equipPolicy))
      && (r.0 ==> r.1.entries[n].equipped)
      && FlagsOnly(s.entries, r.1.entries)
  {
    if TargetIsValid(t) {
      var n := LastIndex(s.entries, Sel(t));
      var o := LastIndex(s.entries, IsEquipped);
      if o != n && n != INDEX_NONE {
        EquipAfterUnequip(s, o, n, role);
      }
    }
  }

  /** The swap branch of EquipEquipment: unequipping another entry leaves the target's own outcome to TryEquip. */
  lemma EquipAfterUnequip(s: State, o: int, n: int, role: Role)
    requires AllHaveInstances(s.entries) && 0 <= n < |s.entries| && o != n
    requires o == INDEX_NONE || 0 <= o < |s.entries|
    ensures var s1 := if o != INDEX_NONE then UnequipAt(s, o, role) else s;
      var r := EquipAt(s1, n, role);
      && (r.0 <==> !s.entries[n].equipped && MayBecomeActive(s.entries[n].instance.value.equipPolicy))
      && (r.0 ==> r.1.entries[n].equipped)
      && FlagsOnly(s.entries, r.1.entries)
  {
    var s1 := if o != INDEX_NONE then UnequipAt(s, o, role) else s;
    assert s1.entries[n] == s.entries[n];
    assert FlagsOnly(s.entries, s1.entries);
  }

  /**
   * With at most one entry equipped beforehand, the outcome of EquipOutcome
   * holds and a successful equip leaves the target as the one equipped entry.
   */
  lemma EquipResult(s: State, t: Target, role: Role)
    requires AllHaveInstances(s.entries) && AtMostOneEquipped(s.entries)
    ensures var r := EquipEquipment(s, t, role);
      var n := LastIndex(s.entries, Sel(t));
      && (r.0 <==> TargetIsValid(t) && n != INDEX_NONE && !s.entries[n].equipped
                   && MayBecomeActive(s.entries[n].instance.value.equipPolicy))
      && (r.0 ==> r.1.entries[n].equipped && OnlyEquippedAt(r.1.entries, n))
      && FlagsOnly(s.entries, r.1.entries)
  {
    EquipOutcome(s, t, role);
    EquippedIsLast(s.entries);
    UnequipOldClears(s, role);
  }

  /** Single-active is kept by EquipEquipment. */
  lemma EquipKeepsAtMostOneEquipped(s: State, t: Target, role: Role)
    requires AllHaveInstances(s.entries) && AtMostOneEquipped(s.entries)
    ensures AtMostOneEquipped(EquipEquipment(s, t, role).1.entries)
  {
    var r := EquipEquipment(s, t, role);
    EquippedIsLast(s.entries);
    UnequipOldClears(s, role);
    if TargetIsValid(t) {
      var n := LastIndex(s.entries, Sel(t));
      var o := LastIndex(s.entries, IsEquipped);
      if o != n && n != INDEX_NONE {
        OnlyEquippedAtOne(r.1.entries, n);
      }
    }
  }

  /** Asking for the entry that is already equipped changes nothing and reports false. */
  lemma EquipSameIsNoop(s: State, t: Target, role: Role)
    requires AllHaveInstances(s.entries) && AtMostOneEquipped(s.entries)
    requires LastIndex(s.entries, Sel(t)) != INDEX_NONE && s.entries[LastIndex(s.entries, Sel(t))].equipped
    ensures EquipEquipment(s, t, role) == (false, s)
  {
    EquippedIsLast(s.entries);
  }

  /** A valid target that matches nothing still unequips the equipped entry, and reports false. */
  lemma EquipUnknownTargetUnequips(s: State, t: Target, role: Role)
    requires AllHaveInstances(s.entries) && AtMostOneEquipped(s.entries)
    requires TargetIsValid(t) && LastIndex(s.entries, Sel(t)) == INDEX_NONE
    ensures var r := EquipEquipment(s, t, role);
      && !r.0
      && OnlyEquippedAt(r.1.entries, INDEX_NONE)
      && (LastIndex(s.entries, IsEquipped) != INDEX_NONE ==>
            r.1 == UnequipAt(s, LastIndex(s.entries, IsEquipped), role))
  {
    UnequipOldClears(s, role);
  }

  /**
   * Once ready, a successful swap fires the old entry's "unequipped" hook
   * strictly before the new entry's "equipped" hook and its broadcast.
   */
  lemma EquipSwapOrder(s: State, t: Target, role: Role)
    requires s.initialized && AllHaveInstances(s.entries)
    requires TargetIsValid(t)
    requires LastIndex(s.entries, IsEquipped) != INDEX_NONE
    requires EquipEquipment(s, t, role).0
    ensures var o := LastIndex(s.entries, IsEquipped);
      var n := LastIndex(s.entries, Sel(t));
      var a := s.entries[o].(equipped := false);
      var b := s.entries[n].(equipped := true);
      EquipEquipment(s, t, role).1.trace ==
        s.trace + [HookEvent(Unequiped, a, role), HookEvent(Equiped, b, role)] + Broadcast(Contents(b), role)
  {
  }

  /** Unequipping by handle or by slot clears the first match's flag; it fires its hook only if it was equipped. */
  lemma UnequipResult(s: State, t: Target, role: Role)
    requires s.initialized && AllHaveInstances(s.entries)
    ensures var r := UnequipEquipment(s, t, role);
      var i := FirstIndex(s.entries, Sel(t));
      if TargetIsValid(t) && i != INDEX_NONE then
        && r.entries == s.entries[i := s.entries[i].(equipped := false)]
        && r.trace == s.trace + (if s.entries[i].equipped then [HookEvent(Unequiped, r.entries[i], role)] else [])
      else r == s
  {
  }

  /** Unequipping never leaves more equipped entries than before. */
  lemma UnequipKeepsAtMostOneEquipped(s: State, t: Target, role: Role)
    requires AtMostOneEquipped(s.entries)
    ensures AtMostOneEquipped(UnequipEquipment(s, t, role).entries)
  {
  }
}
