/** The scalar clamp helper. */
module MathSimple {

  /** Raises val to min if it is below, then lowers it to max if it is above.
   * The upper check runs last, so an empty range (min > max) always yields max.
   */
  function Clamp(val: real, min: real, max: real): (r: real)
    ensures min <= val <= max ==> r == val
    ensures val < min && min <= max ==> r == min
    ensures val > max ==> r == max
    ensures min <= max ==> min <= r <= max
    ensures min > max ==> r == max
  {
    var t := if val < min then min else val;
    if t > max then max else t
  }

  /** Clamping twice into the same non-empty range is clamping once. */
  lemma ClampIdempotent(val: real, min: real, max: real)
    requires min <= max
    ensures Clamp(Clamp(val, min, max), min, max) == Clamp(val, min, max)
  {
  }
}
