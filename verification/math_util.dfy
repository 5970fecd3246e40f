/** The two helpers of the project's `math.js`: `clamp` with optional bounds and the `vec` record builder. */
module MathUtil {
  import opened Wrappers
  import opened Vectors

  /**
   * `clamp(x, {min, max})`. An absent bound is the JavaScript default
   * (minus or plus infinity), which no real reaches, so that comparison is false.
   * The lower bound is compared first, so it wins when the bounds cross.
   */
  function Clamp(x: real, min: Option<real>, max: Option<real>): (r: real)
    ensures min.Some? && x <= min.value ==> r == min.value
    ensures (min.None? || min.value < x) && max.Some? && x >= max.value ==> r == max.value
    ensures (min.None? || min.value < x) && (max.None? || x < max.value) ==> r == x
  {
    if min.Some? && x <= min.value then min.value
    else if max.Some? && x >= max.value then max.value
    else x
  }

  function Max(a: real, b: real): real { if a >= b then a else b }

  function Min(a: real, b: real): real { if a <= b then a else b }

  /** With consistent bounds, `clamp` agrees with the usual `max(lo, min(x, hi))` and lands inside them. */
  lemma ClampIsMaxMin(x: real, lo: real, hi: real)
    requires lo <= hi
    ensures Clamp(x, Some(lo), Some(hi)) == Max(lo, Min(x, hi))
    ensures lo <= Clamp(x, Some(lo), Some(hi)) <= hi
  {
  }

  /** With consistent bounds, clamping twice is clamping once. */
  lemma ClampIdempotent(x: real, min: Option<real>, max: Option<real>)
    requires min.Some? && max.Some? ==> min.value <= max.value
    ensures Clamp(Clamp(x, min, max), min, max) == Clamp(x, min, max)
  {
  }

  /** With crossed bounds the lower one still wins for every `x` at or below it. */
  lemma ClampCrossedBounds(x: real, lo: real, hi: real)
    requires hi < lo
    ensures Clamp(x, Some(lo), Some(hi)) == (if x <= lo then lo else hi)
  {
  }

  /** With both bounds left at their defaults, `clamp` is the identity. */
  lemma ClampUnbounded(x: real)
    ensures Clamp(x, None, None) == x
  {
  }

  /** `vec(x, y, z)`: a record holding exactly the three given components. */
  function Vec(x: real, y: real, z: real): (r: Vec3)
    ensures r.x == x && r.y == y && r.z == z
  {
    Vec3(x, y, z)
  }

  /** Reading a record's components back into `vec` rebuilds the same record. */
  lemma VecRoundTrip(p: Vec3)
    ensures Vec(p.x, p.y, p.z) == p
  {
  }
}
