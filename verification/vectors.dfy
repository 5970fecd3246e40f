/**
 * Real-valued 3-vectors: the part of a three.js `Vector3` that the cloth
 * solver uses (add, subtract, scale, dot product).
 *
 * Square roots are not computed. Wherever the JavaScript code asks a vector for its
 * `length()`, the model receives a length function `norm` and states what it
 * needs of it with `IsNorm`: a non-negative root of the dot product.
 */
module Vectors {

  datatype Vec3 = Vec3(x: real, y: real, z: real)

  const Zero: Vec3 := Vec3(0.0, 0.0, 0.0)

  function Add(a: Vec3, b: Vec3): Vec3 {
    Vec3(a.x + b.x, a.y + b.y, a.z + b.z)
  }

  function Sub(a: Vec3, b: Vec3): Vec3 {
    Vec3(a.x - b.x, a.y - b.y, a.z - b.z)
  }

  function Scale(a: Vec3, s: real): Vec3 {
    Vec3(a.x * s, a.y * s, a.z * s)
  }

  function Dot(a: Vec3, b: Vec3): real {
    a.x * b.x + a.y * b.y + a.z * b.z
  }

  /** `norm` is a Euclidean length: a non-negative square root of `Dot(v, v)`. */
  ghost predicate IsNorm(norm: Vec3 -> real) {
    forall v :: norm(v) >= 0.0 && norm(v) * norm(v) == Dot(v, v)
  }

  /** Non-negative square roots are unique. */
  lemma RootUnique(a: real, b: real)
    requires a >= 0.0 && b >= 0.0
    requires a * a == b * b
    ensures a == b
  {
    assert (a - b) * (a + b) == a * a - b * b;
    if a + b == 0.0 {
    } else {
      assert a - b == 0.0;
    }
  }

  lemma DotScale(v: Vec3, s: real)
    ensures Dot(Scale(v, s), Scale(v, s)) == s * s * Dot(v, v)
  {
  }

  /** Scaling by `s >= 0` scales the length by `s`. */
  lemma NormScale(norm: Vec3 -> real, v: Vec3, s: real)
    requires IsNorm(norm)
    requires s >= 0.0
    ensures norm(Scale(v, s)) == s * norm(v)
  {
    var n := norm(v);
    var m := norm(Scale(v, s));
    DotScale(v, s);
    assert m * m == s * s * (n * n);
    assert (s * n) * (s * n) == s * s * (n * n);
    RootUnique(m, s * n);
  }
}
