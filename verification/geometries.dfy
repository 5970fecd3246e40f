/**
 * The flat parametric surface `clothGeometry(width, height)`: it maps a
 * parameter pair `(u, v)` to a point of the plane `z = 0`, centred on `x = 0`
 * and lifted by half a height. `geometries.js` writes the point into a caller's
 * target vector; here the point is the result, so every component is set and
 * nothing but `(width, height, u, v)` can influence it.
 */
module Geometries {
  import opened Vectors
  import opened RealArith

  function ClothGeometry(width: real, height: real, u: real, v: real): (p: Vec3)
    ensures p.z == 0.0
    ensures u == 0.5 ==> p.x == 0.0
  {
    Vec3((u - 0.5) * width, (v + 0.5) * height, 0.0)
  }

  /** For parameters in `[0, 1]` the point stays in the rectangle `[-width/2, width/2] x [height/2, 3*height/2]`. */
  lemma ClothGeometryBounds(width: real, height: real, u: real, v: real)
    requires 0.0 <= u <= 1.0 && 0.0 <= v <= 1.0
    requires width >= 0.0 && height >= 0.0
    ensures -width / 2.0 <= ClothGeometry(width, height, u, v).x <= width / 2.0
    ensures height / 2.0 <= ClothGeometry(width, height, u, v).y <= 3.0 * height / 2.0
  {
    ScaledBounds(u, width, -0.5);
    ScaledBounds(v, height, 0.5);
  }

  /** For `t` in `[0, 1]` and `s >= 0`, `(t + shift) * s` stays within `[shift * s, (1 + shift) * s]`. */
  lemma ScaledBounds(t: real, s: real, shift: real)
    requires 0.0 <= t <= 1.0 && s >= 0.0
    ensures shift * s <= (t + shift) * s <= (1.0 + shift) * s
  {
    MulMono(shift, t + shift, s);
    MulMono(t + shift, 1.0 + shift, s);
  }

  /** A larger `u` gives a point further along `x`, on a plane of positive width. */
  lemma ClothGeometryMonotoneX(width: real, height: real, u1: real, u2: real, v: real)
    requires width > 0.0 && u1 < u2
    ensures ClothGeometry(width, height, u1, v).x < ClothGeometry(width, height, u2, v).x
  {
    MulStrictMono(u1 - 0.5, u2 - 0.5, width);
  }

  /** A larger `v` gives a point further along `y`, on a plane of positive height. */
  lemma ClothGeometryMonotoneY(width: real, height: real, u: real, v1: real, v2: real)
    requires height > 0.0 && v1 < v2
    ensures ClothGeometry(width, height, u, v1).y < ClothGeometry(width, height, u, v2).y
  {
    MulStrictMono(v1 + 0.5, v2 + 0.5, height);
  }

  /** On a plane of non-zero width and height, distinct parameters give distinct points. */
  lemma ClothGeometryInjective(width: real, height: real, u1: real, v1: real, u2: real, v2: real)
    requires width != 0.0 && height != 0.0
    requires ClothGeometry(width, height, u1, v1) == ClothGeometry(width, height, u2, v2)
    ensures u1 == u2 && v1 == v2
  {
    if u1 != u2 {
      var lo, hi := if u1 < u2 then u1 else u2, if u1 < u2 then u2 else u1;
      if width > 0.0 {
        MulStrictMono(lo - 0.5, hi - 0.5, width);
      } else {
        MulStrictMono(lo - 0.5, hi - 0.5, -width);
      }
    }
    if v1 != v2 {
      var lo, hi := if v1 < v2 then v1 else v2, if v1 < v2 then v2 else v1;
      if height > 0.0 {
        MulStrictMono(lo + 0.5, hi + 0.5, height);
      } else {
        MulStrictMono(lo + 0.5, hi + 0.5, -height);
      }
    }
  }
}
