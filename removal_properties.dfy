/**
 * What the removal operations do to the entry list and to the trace: the
 * survivors are the unselected entries in their old order, and each victim
 * gets its "unequipped" hook (if it was equipped) before its "removed" hook.
 */
module RemovalProperties {
  import opened Wrappers
  import opened ActiveEquipmentHandle
  import opened ItemInfo
  import opened Equipment
  import opened ActiveEquipmentSpec

  /** The entries the selector does not pick, in their order: the reference for every sweep. */
  function Keep(es: seq<Entry>, sel: Selector): (r: seq<Entry>)
    ensures |r| <= |es|
  {
    if es == [] then []
    else (if Selects(sel, es[0]) then [] else [es[0]]) + Keep(es[1..], sel)
  }

  /** Keep holds exactly the unselected entries. */
  lemma {:induction false} KeepMembers(es: seq<Entry>, sel: Selector)
    ensures forall x :: x in Keep(es, sel) <==> x in es && !Selects(sel, x)
  {
    if es != [] {
      KeepMembers(es[1..], sel);
      assert forall x :: x in es <==> x == es[0] || x in es[1..];
    }
  }

  lemma {:induction false} KeepNone(es: seq<Entry>, sel: Selector)
    requires forall j :: 0 <= j < |es| ==> Selects(sel, es[j])
    ensures Keep(es, sel) == []
  {
    if es != [] {
      KeepNone(es[1..], sel);
    }
  }

  lemma {:induction false} KeepAll(es: seq<Entry>, sel: Selector)
    requires forall j :: 0 <= j < |es| ==> !Selects(sel, es[j])
    ensures Keep(es, sel) == es
  {
    if es != [] {
      KeepAll(es[1..], sel);
      assert [es[0]] + es[1..] == es;
    }
  }

  /** If only index i is selected, keeping the rest is deleting i. */
  lemma {:induction false} KeepOne(es: seq<Entry>, sel: Selector, i: nat)
    requires i < |es| && Selects(sel, es[i])
    requires forall j :: 0 <= j < |es| && j != i ==> !Selects(sel, es[j])
    ensures Keep(es, sel) == Delete(es, i)
  {
    if i == 0 {
      KeepAll(es[1..], sel);
      assert Delete(es, 0) == es[1..];
    } else {
      KeepOne(es[1..], sel, i - 1);
      assert Delete(es, i) == [es[0]] + Delete(es[1..], i - 1);
    }
  }

  lemma KeepFront(es: seq<Entry>, i: nat, sel: Selector)
    requires i < |es|
    ensures Keep(es[i..], sel) == (if Selects(sel, es[i]) then [] else [es[i]]) + Keep(es[i + 1..], sel)
  {
    assert es[i..][1..] == es[i + 1..];
  }

  /** Sweeping from i keeps the first i entries and, after them, the unselected ones in order. */
  lemma {:induction false} SweepEntries(s: State, i: nat, sel: Selector, role: Role)
    requires i <= |s.entries|
    ensures SweepFrom(s, i, sel, role).entries == s.entries[..i] + Keep(s.entries[i..], sel)
    decreases |s.entries| - i
  {
    var es := s.entries;
    if i == |es| {
      assert es[..i] == es && es[i..] == [];
    } else if Selects(sel, es[i]) {
      SweepEntries(RemoveAt(s, i, role), i, sel, role);
      SweepEntriesSelected(s, i, sel, role);
    } else {
      SweepEntries(s, i + 1, sel, role);
      SweepEntriesSkipped(s, i, sel, role);
    }
  }

  /** The inductive step of SweepEntries at a selected entry. */
  lemma SweepEntriesSelected(s: State, i: nat, sel: Selector, role: Role)
    requires i < |s.entries| && Selects(sel, s.entries[i])
    requires var r := RemoveAt(s, i, role);
      SweepFrom(r, i, sel, role).entries == r.entries[..i] + Keep(r.entries[i..], sel)
    ensures SweepFrom(s, i, sel, role).entries == s.entries[..i] + Keep(s.entries[i..], sel)
  {
    var es := s.entries;
    assert SweepFrom(s, i, sel, role) == SweepFrom(RemoveAt(s, i, role), i, sel, role);
    DeleteSlices(es, i);
    KeepFront(es, i, sel);
    assert Keep(es[i..], sel) == Keep(es[i + 1..], sel);
  }

  /** The inductive step of SweepEntries at an entry the selector does not pick. */
  lemma SweepEntriesSkipped(s: State, i: nat, sel: Selector, role: Role)
    requires i < |s.entries| && !Selects(sel, s.entries[i])
    requires SweepFrom(s, i + 1, sel, role).entries == s.entries[..i + 1] + Keep(s.entries[i + 1..], sel)
    ensures SweepFrom(s, i, sel, role).entries == s.entries[..i] + Keep(s.entries[i..], sel)
  {
    var es := s.entries;
    assert SweepFrom(s, i, sel, role) == SweepFrom(s, i + 1, sel, role);
    KeepFront(es, i, sel);
    assert es[..i + 1] == es[..i] + [es[i]];
  }

  /** Deleting index i leaves the part before i and shifts the part after it down by one. */
  lemma DeleteSlices(es: seq<Entry>, i: nat)
    requires i < |es|
    ensures Delete(es, i)[..i] == es[..i] && Delete(es, i)[i..] == es[i + 1..]
  {
  }

  /** RemoveMultipleEquipmentItems leaves exactly the entries outside the set, in order; an empty set changes nothing. */
  lemma RemoveMultipleSurvivors(s: State, hs: set<Handle>, role: Role)
    ensures RemoveMultipleEquipmentItems(s, hs, role).entries == Keep(s.entries, HandleIn(hs))
    ensures hs == {} ==> RemoveMultipleEquipmentItems(s, hs, role) == s
  {
    if hs == {} {
      KeepAll(s.entries, HandleIn(hs));
    } else {
      SweepEntries(s, 0, HandleIn(hs), role);
      assert s.entries[..0] == [] && s.entries[0..] == s.entries;
    }
  }

  /** RemoveAllEquipmentItem leaves no entry. */
  lemma RemoveAllEmpties(s: State, role: Role)
    ensures RemoveAllEquipmentItem(s, role).entries == []
  {
    SweepEntries(s, 0, Every, role);
    assert s.entries[..0] == [] && s.entries[0..] == s.entries;
    KeepNone(s.entries, Every);
  }

  /** By handle or by slot, the first match is deleted and the rest keep their order; otherwise nothing changes. */
  lemma RemoveFirstMatch(s: State, t: Target, role: Role)
    ensures var r := RemoveEquipmentItem(s, t, role);
      var i := FirstIndex(s.entries, Sel(t));
      if TargetIsValid(t) && i != INDEX_NONE then r.entries == Delete(s.entries, i)
      else r == s
  {
  }

  /** With slots unique, removing by slot is removing every entry in the slot. */
  lemma RemoveBySlotKeepsOthers(s: State, slot: SlotTag, role: Role)
    requires UniqueSlots(s.entries) && slot.IsValid()
    ensures RemoveEquipmentItem(s, BySlot(slot), role).entries == Keep(s.entries, SlotIs(slot))
  {
    var i := FirstIndex(s.entries, SlotIs(slot));
    if i == INDEX_NONE {
      KeepAll(s.entries, SlotIs(slot));
    } else {
      KeepOne(s.entries, SlotIs(slot), i);
    }
  }

  /**
   * The events of one removal, once ready: the "unequipped" hook if it was
   * equipped, then the "removed" hook, then the clearing broadcast. An entry
   * without an instance fires no hook, only the broadcast.
   */
  function RemovalTrace(e: Entry, role: Role): seq<Event>
  {
    var e' := e.(equipped := false);
    (if e.instance.Some? && e.equipped then [HookEvent(Unequiped, e', role)] else [])
    + (if e.instance.Some? then [HookEvent(EquipmentRemove, e', role)] else [])
    + Broadcast(SlotMessage(e.slot, None, None), role)
  }

  /** Once ready, RemoveAt appends exactly the victim's removal events. */
  lemma RemovalEvents(s: State, i: nat, role: Role)
    requires s.initialized && i < |s.entries|
    ensures RemoveAt(s, i, role).trace == s.trace + RemovalTrace(s.entries[i], role)
  {
  }

  /** Once ready, RetireAt appends the same events as RemoveAt but erases nothing. */
  lemma RetireEvents(s: State, i: nat, role: Role)
    requires s.initialized && i < |s.entries|
    ensures RetireAt(s, i, role).trace == s.trace + RemovalTrace(s.entries[i], role)
  {
  }

  /** No index occurs twice. */
  predicate DistinctIndices(indices: seq<int>)
  {
    forall j, k :: 0 <= j < k < |indices| ==> indices[j] != indices[k]
  }

  /** The removal events of the listed entries, in list order. */
  function RetireTrace(es: seq<Entry>, indices: seq<int>, role: Role): seq<Event>
    requires IndicesInRange(indices, |es|)
    decreases |indices|
  {
    if indices == [] then []
    else RemovalTrace(es[indices[0]], role) + RetireTrace(es, indices[1..], role)
  }

  /** RetireTrace reads only the listed entries. */
  lemma {:induction false} RetireTraceFrame(es: seq<Entry>, es': seq<Entry>, indices: seq<int>, role: Role)
    requires IndicesInRange(indices, |es|)
    requires IndicesInRange(indices, |es'|)
    requires forall k :: 0 <= k < |indices| ==> es'[indices[k]] == es[indices[k]]
    ensures RetireTrace(es', indices, role) == RetireTrace(es, indices, role)
    decreases |indices|
  {
    if indices != [] {
      assert es'[indices[0]] == es[indices[0]];
      RetireTraceFrame(es, es', indices[1..], role);
    }
  }

  /**
   * The first step of PreReplicatedRemove: the retired entry's events are
   * appended, and the rest of the list still meets the lemma's requirements
   * and sees the same entries.
   */
  lemma RetireFirst(s: State, indices: seq<int>, role: Role)
    requires s.initialized && IndicesInRange(indices, |s.entries|)
    requires DistinctIndices(indices) && indices != []
    ensures var s1, tail := RetireAt(s, indices[0], role), indices[1..];
      && s1.initialized && IndicesInRange(tail, |s1.entries|)
      && DistinctIndices(tail)
      && s1.trace == s.trace + RemovalTrace(s.entries[indices[0]], role)
      && RetireTrace(s1.entries, tail, role) == RetireTrace(s.entries, tail, role)
  {
    var s1, tail := RetireAt(s, indices[0], role), indices[1..];
    RetireEvents(s, indices[0], role);
    forall j, k | 0 <= j < k < |tail|
      ensures tail[j] != tail[k]
    {
      assert tail[j] == indices[j + 1] && tail[k] == indices[k + 1];
    }
    forall k | 0 <= k < |tail|
      ensures s1.entries[tail[k]] == s.entries[tail[k]]
    {
      assert tail[k] == indices[k + 1] && indices[0] != indices[k + 1];
    }
    RetireTraceFrame(s.entries, s1.entries, tail, role);
  }

  /**
   * Once ready, PreReplicatedRemove fires, for each listed entry in list
   * order, "unequipped" if it was equipped, then "removed", then the clearing
   * broadcast.
   */
  lemma {:induction false} PreReplicatedRemoveEvents(s: State, indices: seq<int>, role: Role)
    requires s.initialized && IndicesInRange(indices, |s.entries|)
    requires DistinctIndices(indices)
    ensures PreReplicatedRemove(s, indices, role).trace == s.trace + RetireTrace(s.entries, indices, role)
    decreases |indices|
  {
    if indices != [] {
      var s1, tail := RetireAt(s, indices[0], role), indices[1..];
      RetireFirst(s, indices, role);
      PreReplicatedRemoveEvents(s1, tail, role);
      var r := PreReplicatedRemove(s, indices, role);
      assert r == PreReplicatedRemove(s1, tail, role);
      var victim, rest := RemovalTrace(s.entries[indices[0]], role), RetireTrace(s.entries, tail, role);
      assert RetireTrace(s.entries, indices, role) == victim + rest;
      AppendAfter(s.trace, victim, rest, s1.trace, r.trace);
    }
  }

  /** Appending `victim` and then `rest` is appending their concatenation. */
  lemma AppendAfter(t: seq<Event>, victim: seq<Event>, rest: seq<Event>, t1: seq<Event>, t2: seq<Event>)
    requires t1 == t + victim && t2 == t1 + rest
    ensures t2 == t + (victim + rest)
  {
  }

  /** The removal events of every selected entry, in entry order. */
  function SweepTrace(es: seq<Entry>, sel: Selector, role: Role): seq<Event>
    requires AllHaveInstances(es)
  {
    if es == [] then []
    else (if Selects(sel, es[0]) then RemovalTrace(es[0], role) else []) + SweepTrace(es[1..], sel, role)
  }

  /** Once ready, a sweep appends each victim's removal events in entry order, and nothing else. */
  lemma SweepTraceFront(es: seq<Entry>, i: nat, sel: Selector, role: Role)
    requires i < |es| && AllHaveInstances(es)
    ensures SweepTrace(es[i..], sel, role) ==
      (if Selects(sel, es[i]) then RemovalTrace(es[i], role) else []) + SweepTrace(es[i + 1..], sel, role)
  {
    assert es[i..][1..] == es[i + 1..];
  }

  lemma RemoveAtKeepsInstances(s: State, i: nat, role: Role)
    requires i < |s.entries| && AllHaveInstances(s.entries)
    ensures AllHaveInstances(RemoveAt(s, i, role).entries)
    ensures RemoveAt(s, i, role).entries[i..] == s.entries[i + 1..]
  {
  }

  lemma {:induction false} SweepEvents(s: State, i: nat, sel: Selector, role: Role)
    requires s.initialized && i <= |s.entries| && AllHaveInstances(s.entries)
    ensures SweepFrom(s, i, sel, role).trace == s.trace + SweepTrace(s.entries[i..], sel, role)
    decreases |s.entries| - i
  {
    if i < |s.entries| {
      if Selects(sel, s.entries[i]) {
        var r := RemoveAt(s, i, role);
        RemoveAtKeepsInstances(s, i, role);
        RemovalEvents(s, i, role);
        SweepEvents(r, i, sel, role);
        assert SweepFrom(s, i, sel, role) == SweepFrom(r, i, sel, role);
        SweepEventsSelected(s.trace, s.entries, r.trace, r.entries, i, sel, role);
      } else {
        SweepEvents(s, i + 1, sel, role);
        SweepEventsSkipped(s, i, sel, role);
      }
    }
  }

  /**
   * The inductive step of SweepEvents at a selected entry, on the traces and
   * entry lists before (t, es) and after (t', es') its removal: the victim's
   * events come first, then those of the sweep over what followed it.
   */
  lemma SweepEventsSelected(t: seq<Event>, es: seq<Entry>, t': seq<Event>, es': seq<Entry>, i: nat, sel: Selector, role: Role)
    requires i < |es| && AllHaveInstances(es) && Selects(sel, es[i])
    requires i <= |es'| && AllHaveInstances(es') && es'[i..] == es[i + 1..]
    requires t' == t + RemovalTrace(es[i], role)
    ensures t' + SweepTrace(es'[i..], sel, role) == t + SweepTrace(es[i..], sel, role)
  {
    SweepTraceFront(es, i, sel, role);
    var victim, rest := RemovalTrace(es[i], role), SweepTrace(es[i + 1..], sel, role);
    AppendAfter(t, victim, rest, t', t' + SweepTrace(es'[i..], sel, role));
  }

  /** The inductive step of SweepEvents at an entry the selector does not pick: it adds no event. */
  lemma SweepEventsSkipped(s: State, i: nat, sel: Selector, role: Role)
    requires s.initialized && i < |s.entries| && AllHaveInstances(s.entries) && !Selects(sel, s.entries[i])
    requires SweepFrom(s, i + 1, sel, role).trace == s.trace + SweepTrace(s.entries[i + 1..], sel, role)
    ensures SweepFrom(s, i, sel, role).trace == s.trace + SweepTrace(s.entries[i..], sel, role)
  {
    assert SweepFrom(s, i, sel, role) == SweepFrom(s, i + 1, sel, role);
    SweepTraceFront(s.entries, i, sel, role);
  }

  /** Once ready, RemoveAllEquipmentItem fires every entry's removal events, in entry order. */
  lemma RemoveAllEvents(s: State, role: Role)
    requires s.initialized && AllHaveInstances(s.entries)
    ensures RemoveAllEquipmentItem(s, role).trace == s.trace + SweepTrace(s.entries, Every, role)
  {
    SweepEvents(s, 0, Every, role);
    assert s.entries[0..] == s.entries;
  }
}
