/**
 * The manager component: it owns one container, binds its owner on
 * registration, makes it ready on the data-initialized state change, and
 * puts an authority check in front of every mutation. Queries are not
 * gated.
 */
module EquipmentManager {
  import opened Wrappers
  import opened ActiveEquipmentHandle
  import opened ItemInfo
  import opened Equipment
  import opened ActiveEquipmentSpec
  import opened ActiveEquipment
  import S = ActiveEquipmentSpec

  class EquipmentManagerComponent {
    const ownerRole: Role                                // the owning actor's roles
    const activeEquipments: ActiveEquipmentContainer     // the component's container member

    /** Registered, and the container invariant holds. */
    ghost predicate Valid()
      reads this, activeEquipments
    {
      activeEquipments.owner == Some(ownerRole) && activeEquipments.Valid()
    }

    constructor (role: Role)
      ensures ownerRole == role && fresh(activeEquipments)
      ensures activeEquipments.Model() == Initial() && activeEquipments.owner == None
      ensures activeEquipments.Valid()
    {
      ownerRole := role;
      activeEquipments := new ActiveEquipmentContainer();
    }

    /** OnRegister binds the owner to the container. */
    method OnRegister()
      requires activeEquipments.Valid()
      modifies activeEquipments
      ensures Valid() && activeEquipments.Model() == old(activeEquipments.Model())
    {
      activeEquipments.RegisterOwner(ownerRole);
    }

    /** The data-initialized state change makes the container ready. */
    method HandleChangeInitStateToDataInitialized()
      requires Valid()
      modifies activeEquipments
      ensures Valid()
      ensures activeEquipments.Model() == S.HandleInitialized(old(activeEquipments.Model()), ownerRole)
    {
      activeEquipments.HandleInitialized();
    }

    method AddEquipmentItem(alloc: HandleAllocator, slot: SlotTag, item: Option<ItemData>, outHandle: Handle, equipImmediately: bool)
      returns (ok: bool, handle: Handle)
      requires Valid() && alloc.Valid() && HandlesBelow(activeEquipments.entries, alloc.next)
      modifies activeEquipments, alloc
      ensures Valid() && alloc.Valid() && HandlesBelow(activeEquipments.entries, alloc.next)
      ensures !ownerRole.hasAuthority ==>
        !ok && handle == outHandle && alloc.next == old(alloc.next)
        && activeEquipments.Model() == old(activeEquipments.Model())
      ensures ownerRole.hasAuthority ==>
        && (ok, activeEquipments.Model()) ==
             S.AddEquipmentItem(old(activeEquipments.Model()), slot, item, Handle(old(alloc.next)), equipImmediately, ownerRole)
        && alloc.next == (if ok then old(alloc.next) + 1 else old(alloc.next))
        && handle == (if ok then Handle(old(alloc.next)) else outHandle)
    {
      if !ownerRole.hasAuthority {
        return false, outHandle;
      }
      ok, handle := activeEquipments.AddEquipmentItem(alloc, slot, item, outHandle, equipImmediately);
    }

    method RemoveEquipmentItemByTag(slot: SlotTag)
      requires Valid()
      modifies activeEquipments
      ensures Valid()
      ensures activeEquipments.Model() ==
        if ownerRole.hasAuthority then S.RemoveEquipmentItem(old(activeEquipments.Model()), BySlot(slot), ownerRole)
        else old(activeEquipments.Model())
    {
      if !ownerRole.hasAuthority {
        return;
      }
      activeEquipments.RemoveEquipmentItem(BySlot(slot));
    }

    method RemoveEquipmentItemByHandle(h: Handle)
      requires Valid()
      modifies activeEquipments
      ensures Valid()
      ensures activeEquipments.Model() ==
        if ownerRole.hasAuthority then S.RemoveEquipmentItem(old(activeEquipments.Model()), ByHandle(h), ownerRole)
        else old(activeEquipments.Model())
    {
      if !ownerRole.hasAuthority {
        return;
      }
      activeEquipments.RemoveEquipmentItem(ByHandle(h));
    }

    method RemoveMultipleEquipmentItemByHandles(hs: set<Handle>)
      requires Valid()
      modifies activeEquipments
      ensures Valid()
      ensures activeEquipments.Model() ==
        if ownerRole.hasAuthority then S.RemoveMultipleEquipmentItems(old(activeEquipments.Model()), hs, ownerRole)
        else old(activeEquipments.Model())
    {
      if !ownerRole.hasAuthority {
        return;
      }
      activeEquipments.RemoveMultipleEquipmentItems(hs);
    }

    method RemoveAllEquipmentItem()
      requires Valid()
      modifies activeEquipments
      ensures Valid()
      ensures activeEquipments.Model() ==
        if ownerRole.hasAuthority then S.RemoveAllEquipmentItem(old(activeEquipments.Model()), ownerRole)
        else old(activeEquipments.Model())
    {
      if !ownerRole.hasAuthority {
        return;
      }
      activeEquipments.RemoveAllEquipmentItem();
    }

    method EquipEquipmentBySlot(slot: SlotTag) returns (ok: bool)
      requires Valid()
      modifies activeEquipments
      ensures Valid()
      ensures (ok, activeEquipments.Model()) ==
        if ownerRole.hasAuthority then S.EquipEquipment(old(activeEquipments.Model()), BySlot(slot), ownerRole)
        else (false, old(activeEquipments.Model()))
    {
      if !ownerRole.hasAuthority {
        return false;
      }
      ok := activeEquipments.EquipEquipment(BySlot(slot));
    }

    method EquipEquipmentByHandle(h: Handle) returns (ok: bool)
      requires Valid()
      modifies activeEquipments
      ensures Valid()
      ensures (ok, activeEquipments.Model()) ==
        if ownerRole.hasAuthority then S.EquipEquipment(old(activeEquipments.Model()), ByHandle(h), ownerRole)
        else (false, old(activeEquipments.Model()))
    {
      if !ownerRole.hasAuthority {
        return false;
      }
      ok := activeEquipments.EquipEquipment(ByHandle(h));
    }

    method UnequipEquipmentBySlot(slot: SlotTag)
      requires Valid()
      modifies activeEquipments
      ensures Valid()
      ensures activeEquipments.Model() ==
        if ownerRole.hasAuthority then S.UnequipEquipment(old(activeEquipments.Model()), BySlot(slot), ownerRole)
        else old(activeEquipments.Model())
    {
      if !ownerRole.hasAuthority {
        return;
      }
      activeEquipments.UnequipEquipment(BySlot(slot));
    }

    method UnequipEquipmentByHandle(h: Handle)
      requires Valid()
      modifies activeEquipments
      ensures Valid()
      ensures activeEquipments.Model() ==
        if ownerRole.hasAuthority then S.UnequipEquipment(old(activeEquipments.Model()), ByHandle(h), ownerRole)
        else old(activeEquipments.Model())
    {
      if !ownerRole.hasAuthority {
        return;
      }
      activeEquipments.UnequipEquipment(ByHandle(h));
    }

    /** Not gated: the first equipped entry's message, or `slotInfo` unchanged and false. */
    method GetActiveSlotInfo(slotInfo: SlotMessage) returns (found: bool, info: SlotMessage)
      ensures found <==> ActiveSlotInfo(activeEquipments.entries).Some?
      ensures info == if found then ActiveSlotInfo(activeEquipments.entries).value else slotInfo
    {
      found, info := activeEquipments.GetActiveSlotInfo(slotInfo);
    }

    /** Not gated: the first entry in the slot, or `slotInfo` unchanged and false. */
    method GetSlotInfo(slot: SlotTag, slotInfo: SlotMessage) returns (found: bool, info: SlotMessage)
      ensures found <==> SlotInfo(activeEquipments.entries, slot).Some?
      ensures info == if found then SlotInfo(activeEquipments.entries, slot).value else slotInfo
    {
      found, info := activeEquipments.GetSlotInfo(slot, slotInfo);
    }
  }
}
