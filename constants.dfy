/** Compile-time constants shared by the animation engine and the scenes. */
module Constants {

  /** Capacity of an animation pool. */
  const MAX_ANIMATIONS: nat := 6
}
