/**
 * The two policy enumerations of the equipment system.
 */
module EquipmentPolicyTypes {

  /** Where the lifecycle events of an equipment fragment run on the network. */
  datatype NetExecutionPolicy =
    | Both        // on every peer
    | ServerOnly  // only where the owner has authority
    | ClientOnly  // only on peers that are not a dedicated server
    | LocalOnly   // only where the owner has a local net owner

  /** Whether an equipment instance may become the active (equipped) item. */
  datatype EquipPolicy =
    | CannotBeEquipped  // takes effect by possession alone (armour, skills)
    | CanBeEquipped     // may be held at the ready (weapons, tools)

  /** The equip policy that decides whether an instance may ever become active. */
  predicate MayBecomeActive(p: EquipPolicy)
  {
    p == CanBeEquipped
  }
}
