/** The working replica bounds of one reconcile. */
module Bounds {
  /** The upper bound is applied first, so the lower one wins when they cross. */
  function Clamp(desired: int, min: int, max: int): int {
    var capped := if desired > max then max else desired;
    if capped < min then min else capped
  }

  /** The replicas are the answer where it lies between the bounds, and the bound it passes where not. */
  predicate IsClamped(answer: int, min: int, max: int, replicas: int) {
    if answer < min || max < min then replicas == min
    else if answer > max then replicas == max
    else replicas == answer
  }

  lemma ClampMonotone(d1: int, d2: int, min: int, max: int)
    requires d1 <= d2
    ensures Clamp(d1, min, max) <= Clamp(d2, min, max)
  {
  }
}
