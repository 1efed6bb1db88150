/**
 * An equipment set: slot/item pairs in the map's iteration order and a
 * default active slot. AddEquipmentItems offers each pair to the manager
 * (without immediate equip), collects the handle of every successful add,
 * then equips the default slot if that tag is valid.
 */
module EquipmentSetAsset {
  import opened Wrappers
  import opened ActiveEquipmentHandle
  import opened ItemInfo
  import opened Equipment
  import opened ActiveEquipmentSpec
  import opened ActiveEquipmentInvariants
  import opened AddProperties
  import opened EquipProperties
  import opened ActiveEquipment
  import opened EquipmentManager

  datatype EquipmentSet = EquipmentSet(entries: seq<(SlotTag, Option<ItemData>)>, defaultActiveSlot: SlotTag)

  /** One add as the manager forwards it: nothing without authority. */
  function GatedAdd(s: State, slot: SlotTag, item: Option<ItemData>, h: Handle, role: Role): (r: (bool, State))
    requires ValidState(s) && h.IsValid() && HandlesBelow(s.entries, h.id)
    ensures !role.hasAuthority ==> r == (false, s)
    ensures role.hasAuthority ==> r == AddEquipmentItem(s, slot, item, h, false, role)
    ensures ValidState(r.1) && HandlesBelow(r.1.entries, if r.0 then h.id + 1 else h.id)
  {
    AddEquipmentItemValid(s, slot, item, h, false, role);
    if role.hasAuthority then AddEquipmentItem(s, slot, item, h, false, role) else (false, s)
  }

  /**
   * The adds of the set, in order, as the manager performs them for `role`
   * with the handle counter at `next`: the final state, the final counter and
   * the handles of the successful adds.
   */
  function AddAll(s: State, next: int, pairs: seq<(SlotTag, Option<ItemData>)>, role: Role): (r: (State, int, seq<Handle>))
    requires next >= 1 && ValidState(s) && HandlesBelow(s.entries, next)
    ensures ValidState(r.0) && HandlesBelow(r.0.entries, r.1)
    decreases |pairs|
  {
    if pairs == [] then (s, next, [])
    else
      var (slot, item) := pairs[0];
      var (ok, s1) := GatedAdd(s, slot, item, Handle(next), role);
      var rest := AddAll(s1, if ok then next + 1 else next, pairs[1..], role);
      (rest.0, rest.1, (if ok then [Handle(next)] else []) + rest.2)
  }

  /** The whole of AddEquipmentItems on a registered manager: the adds, then the gated equip of a valid default slot. */
  function ApplySet(es: EquipmentSet, s: State, next: int, role: Role): (r: (State, int, seq<Handle>))
    requires next >= 1 && ValidState(s) && HandlesBelow(s.entries, next)
    ensures ValidState(r.0) && HandlesBelow(r.0.entries, r.1)
  {
    var (s1, n1, hs) := AddAll(s, next, es.entries, role);
    if es.defaultActiveSlot.IsValid() && role.hasAuthority then
      EquipEquipmentValid(s1, BySlot(es.defaultActiveSlot), role);
      (EquipEquipment(s1, BySlot(es.defaultActiveSlot), role).1, n1, hs)
    else (s1, n1, hs)
  }

  /** The adds hand out consecutive handles from the counter, one per successful add. */
  lemma {:induction false} AddAllHandles(s: State, next: int, pairs: seq<(SlotTag, Option<ItemData>)>, role: Role)
    requires next >= 1 && ValidState(s) && HandlesBelow(s.entries, next)
    ensures var r := AddAll(s, next, pairs, role);
      && |r.2| <= |pairs| && r.1 == next + |r.2|
      && forall k :: 0 <= k < |r.2| ==> r.2[k] == Handle(next + k)
    decreases |pairs|
  {
    if pairs != [] {
      var (ok, s1) := GatedAdd(s, pairs[0].0, pairs[0].1, Handle(next), role);
      AddAllHandles(s1, if ok then next + 1 else next, pairs[1..], role);
    }
  }

  /** The collected handles are exactly what the counter issues for that many successful adds. */
  lemma AddAllIssued(s: State, next: int, pairs: seq<(SlotTag, Option<ItemData>)>, role: Role)
    requires next >= 1 && ValidState(s) && HandlesBelow(s.entries, next)
    ensures var r := AddAll(s, next, pairs, role);
      r.2 == Issued(next, |r.2|) && r.1 == next + |r.2|
  {
    var r := AddAll(s, next, pairs, role);
    AddAllHandles(s, next, pairs, role);
    forall k | 0 <= k < |r.2|
      ensures r.2[k] == Issued(next, |r.2|)[k]
    {
      IssuedAt(next, |r.2|, k);
    }
  }

  /** Without authority every add is refused: nothing changes and no handle is issued. */
  lemma {:induction false} AddAllWithoutAuthority(s: State, next: int, pairs: seq<(SlotTag, Option<ItemData>)>, role: Role)
    requires next >= 1 && ValidState(s) && HandlesBelow(s.entries, next) && !role.hasAuthority
    ensures AddAll(s, next, pairs, role) == (s, next, [])
    decreases |pairs|
  {
    if pairs != [] {
      assert GatedAdd(s, pairs[0].0, pairs[0].1, Handle(next), role) == (false, s);
      AddAllWithoutAuthority(s, next, pairs[1..], role);
      var rest := AddAll(s, next, pairs[1..], role);
      assert [] + rest.2 == rest.2;
    }
  }

  /** The collected handles are fresh, valid and strictly increasing, at most one per pair. */
  lemma SetHandlesFresh(es: EquipmentSet, s: State, next: int, role: Role)
    requires next >= 1 && ValidState(s) && HandlesBelow(s.entries, next)
    ensures var r := ApplySet(es, s, next, role);
      && |r.2| <= |es.entries| && r.1 == next + |r.2|
      && (forall k :: 0 <= k < |r.2| ==> r.2[k].IsValid() && r.2[k].id >= next)
      && (forall j, k :: 0 <= j < k < |r.2| ==> r.2[j].id < r.2[k].id)
  {
    var r := AddAll(s, next, es.entries, role);
    AddAllHandles(s, next, es.entries, role);
    AddAllIssued(s, next, es.entries, role);
    IssuedHandlesFreshAndValid(next, |r.2|);
  }

  /** Without authority the whole call changes nothing and collects nothing. */
  lemma SetWithoutAuthority(es: EquipmentSet, s: State, next: int, role: Role)
    requires next >= 1 && ValidState(s) && HandlesBelow(s.entries, next) && !role.hasAuthority
    ensures ApplySet(es, s, next, role) == (s, next, [])
  {
    AddAllWithoutAuthority(s, next, es.entries, role);
  }

  lemma {:induction false} AddAllKeepsSingleActive(s: State, next: int, pairs: seq<(SlotTag, Option<ItemData>)>, role: Role)
    requires next >= 1 && ValidState(s) && HandlesBelow(s.entries, next) && AtMostOneEquipped(s.entries)
    ensures AtMostOneEquipped(AddAll(s, next, pairs, role).0.entries)
    decreases |pairs|
  {
    if pairs != [] && role.hasAuthority {
      var (slot, item) := pairs[0];
      var (ok, s1) := AddEquipmentItem(s, slot, item, Handle(next), false, role);
      AddWithoutImmediateKeepsSingleActive(s, slot, item, Handle(next), role);
      AddEquipmentItemValid(s, slot, item, Handle(next), false, role);
      AddAllKeepsSingleActive(s1, if ok then next + 1 else next, pairs[1..], role);
    } else if pairs != [] {
      AddAllKeepsSingleActive(s, next, pairs[1..], role);
    }
  }

  /** Because the set never equips immediately, applying it keeps "at most one equipped". */
  lemma SetKeepsSingleActive(es: EquipmentSet, s: State, next: int, role: Role)
    requires next >= 1 && ValidState(s) && HandlesBelow(s.entries, next) && AtMostOneEquipped(s.entries)
    ensures AtMostOneEquipped(ApplySet(es, s, next, role).0.entries)
  {
    var (s1, n1, hs) := AddAll(s, next, es.entries, role);
    AddAllKeepsSingleActive(s, next, es.entries, role);
    if es.defaultActiveSlot.IsValid() && role.hasAuthority {
      EquipKeepsAtMostOneEquipped(s1, BySlot(es.defaultActiveSlot), role);
    }
  }

  /** AddAll from position i: the i-th pair's gated add, then the rest. */
  lemma AddAllStep(s: State, next: int, pairs: seq<(SlotTag, Option<ItemData>)>, i: nat, role: Role)
    requires next >= 1 && ValidState(s) && HandlesBelow(s.entries, next) && i < |pairs|
    ensures var g := GatedAdd(s, pairs[i].0, pairs[i].1, Handle(next), role);
      var rest := AddAll(g.1, if g.0 then next + 1 else next, pairs[i + 1..], role);
      AddAll(s, next, pairs[i..], role) == (rest.0, rest.1, (if g.0 then [Handle(next)] else []) + rest.2)
  {
    assert pairs[i..][1..] == pairs[i + 1..];
  }

  /**
   * The i-th pair offered to a registered manager: the add GatedAdd describes,
   * after which what AddAll still has to do from the i-th pair on is the
   * fold of the remaining pairs, preceded by this add's handle when it succeeds.
   */
  method AddPair(manager: EquipmentManagerComponent, alloc: HandleAllocator, pairs: seq<(SlotTag, Option<ItemData>)>, i: nat)
    returns (ok: bool, h: Handle)
    requires manager.Valid() && alloc.Valid() && HandlesBelow(manager.activeEquipments.entries, alloc.next)
    requires i < |pairs|
    modifies manager.activeEquipments, alloc
    ensures manager.Valid() && alloc.Valid() && HandlesBelow(manager.activeEquipments.entries, alloc.next)
    ensures (ok, manager.activeEquipments.Model()) ==
      GatedAdd(old(manager.activeEquipments.Model()), pairs[i].0, pairs[i].1, Handle(old(alloc.next)), manager.ownerRole)
    ensures alloc.next == if ok then old(alloc.next) + 1 else old(alloc.next)
    ensures var rest := AddAll(manager.activeEquipments.Model(), alloc.next, pairs[i + 1..], manager.ownerRole);
      AddAll(old(manager.activeEquipments.Model()), old(alloc.next), pairs[i..], manager.ownerRole) ==
      (rest.0, rest.1, (if ok then [h] else []) + rest.2)
  {
    AddAllStep(manager.activeEquipments.Model(), alloc.next, pairs, i, manager.ownerRole);
    ok, h := manager.AddEquipmentItem(alloc, pairs[i].0, pairs[i].1, DefaultHandle(), false);
  }

  /** The loop over the pairs, on a registered manager. */
  method AddPairs(es: EquipmentSet, manager: EquipmentManagerComponent, alloc: HandleAllocator, outHandles: seq<Handle>)
    returns (handles: seq<Handle>)
    requires manager.Valid() && alloc.Valid() && HandlesBelow(manager.activeEquipments.entries, alloc.next)
    modifies manager.activeEquipments, alloc
    ensures var r := AddAll(old(manager.activeEquipments.Model()), old(alloc.next), es.entries, manager.ownerRole);
      manager.activeEquipments.Model() == r.0 && alloc.next == r.1 && handles == outHandles + r.2
    ensures manager.Valid() && alloc.Valid() && HandlesBelow(manager.activeEquipments.entries, alloc.next)
  {
    handles := outHandles;
    var c := manager.activeEquipments;
    var role := manager.ownerRole;
    ghost var total := AddAll(c.Model(), alloc.next, es.entries, role);
    ghost var rest := total;
    assert es.entries[0..] == es.entries;
    var i := 0;
    while i < |es.entries|
      invariant 0 <= i <= |es.entries|
      invariant manager.Valid() && alloc.Valid() && HandlesBelow(c.entries, alloc.next)
      invariant rest == AddAll(c.Model(), alloc.next, es.entries[i..], role)
      invariant total.0 == rest.0 && total.1 == rest.1 && outHandles + total.2 == handles + rest.2
      decreases |es.entries| - i
    {
      ghost var before, rest0 := handles, rest;
      var ok, h := AddPair(manager, alloc, es.entries, i);
      rest := AddAll(c.Model(), alloc.next, es.entries[i + 1..], role);
      if ok {
        handles := handles + [h];
        assert rest0.2 == [h] + rest.2;
        assert (before + [h]) + rest.2 == before + ([h] + rest.2);
      } else {
        assert rest0.2 == [] + rest.2 == rest.2;
      }
      i := i + 1;
    }
    assert es.entries[i..] == [];
  }

  /**
   * UEquipmentSet::AddEquipmentItems. A null manager leaves everything as it
   * was; otherwise the handles of the successful adds are appended to
   * `outHandles` and the container ends as ApplySet says.
   */
  method AddEquipmentItems(es: EquipmentSet, manager: EquipmentManagerComponent?, alloc: HandleAllocator, outHandles: seq<Handle>)
    returns (handles: seq<Handle>)
    requires manager != null ==> manager.Valid() && alloc.Valid() && HandlesBelow(manager.activeEquipments.entries, alloc.next)
    modifies if manager != null then {manager.activeEquipments, alloc} else {}
    ensures manager == null ==> handles == outHandles
    ensures manager != null ==>
      && manager.Valid() && alloc.Valid()
      && var r := ApplySet(es, old(manager.activeEquipments.Model()), old(alloc.next), manager.ownerRole);
         manager.activeEquipments.Model() == r.0 && alloc.next == r.1 && handles == outHandles + r.2
  {
    handles := outHandles;
    if manager == null {
      return;
    }
    handles := AddPairs(es, manager, alloc, outHandles);
    if es.defaultActiveSlot.IsValid() {
      var _ := manager.EquipEquipmentBySlot(es.defaultActiveSlot);
    }
  }
}
