/**
 * Slot tags and the item definitions the container reads. Gameplay tags are
 * dotted names (`Equipment.Slot.Weapon`), written here as their name segments.
 */
module ItemInfo {
  import opened Wrappers
  import opened Equipment

  /** A gameplay tag; the empty tag is the invalid one. */
  datatype SlotTag = SlotTag(path: seq<string>)
  {
    predicate IsValid()
    {
      |path| > 0
    }
  }

  /** The empty tag. */
  const EmptyTag: SlotTag := SlotTag([])

  /** `parent` equals `tag` or is one of its ancestors in the tag hierarchy. */
  predicate MatchesTag(tag: SlotTag, parent: SlotTag)
  {
    |parent.path| <= |tag.path| && tag.path[..|parent.path|] == parent.path
  }

  /**
   * A tag container's `HasTag`: the tag is in the container or is a parent of
   * a tag in it.
   */
  predicate HasTag(container: set<SlotTag>, tag: SlotTag)
  {
    exists t :: t in container && MatchesTag(t, tag)
  }

  /** The equipment part of an item definition. */
  datatype EquipmentInfo = EquipmentInfo(
    addableSlots: set<SlotTag>,          // empty: every slot accepts the item
    equipmentClass: Option<Instance>)    // the class defaults new instances start from; None if unset

  /** An item definition: identity and its optional equipment info. */
  datatype ItemData = ItemData(id: nat, equipmentInfo: Option<EquipmentInfo>)
}
