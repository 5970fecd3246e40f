/**
 * The position corrections the cloth applies after integrating: the distance
 * relaxation between two particles (in both of the project's variants), the
 * floor clamp, the pin reset and the push-out from spheres. Each takes the
 * whole particle sequence and returns the corrected one.
 */
module Constraints {
  import opened Wrappers
  import opened Vectors
  import opened Particles
  import opened RealArith
  import MathUtil

  /** `qs` differs from `ps` in positions at most: same length, same previous and rest positions, acceleration and inverse mass. */
  predicate PositionsOnly(ps: seq<Particle>, qs: seq<Particle>) {
    |qs| == |ps| &&
    forall k :: 0 <= k < |ps| ==>
      qs[k].previous == ps[k].previous && qs[k].original == ps[k].original &&
      qs[k].a == ps[k].a && qs[k].invMass == ps[k].invMass
  }

  /**
   * One relaxation of a distance constraint between positions `a` and `b`:
   * with `diff = b - a`, each end moves by half of `diff * (1 - distance / |diff|)`,
   * `a` forwards and `b` backwards. At zero length there is no direction to
   * correct along, and nothing moves.
   */
  function Relax(a: Vec3, b: Vec3, distance: real, norm: Vec3 -> real): (r: (Vec3, Vec3))
    ensures norm(Sub(b, a)) == 0.0 ==> r == (a, b)
    ensures Add(r.0, r.1) == Add(a, b)
  {
    var diff := Sub(b, a);
    var len := norm(diff);
    if len == 0.0 then (a, b)
    else
      var half := Scale(Scale(diff, 1.0 - distance / len), 0.5);
      (Add(a, half), Sub(b, half))
  }

  /** Two coincident positions stay where they are, whatever `norm` says of the zero vector. */
  lemma RelaxCoincident(a: Vec3, b: Vec3, distance: real, norm: Vec3 -> real)
    ensures a == b ==> Relax(a, b, distance, norm) == (a, b)
  {
    if a == b && norm(Sub(b, a)) != 0.0 {
      var k := 1.0 - distance / norm(Sub(b, a));
      assert Sub(b, a) == Zero;
      assert Scale(Scale(Zero, k), 0.5) == Zero;
    }
  }

  /** After a relaxation the separation is the old one rescaled by `distance / |diff|`. */
  lemma RelaxRescales(a: Vec3, b: Vec3, distance: real, norm: Vec3 -> real)
    requires norm(Sub(b, a)) != 0.0
    ensures var r := Relax(a, b, distance, norm);
            Sub(r.1, r.0) == Scale(Sub(b, a), distance / norm(Sub(b, a)))
  {
    var diff := Sub(b, a);
    var q := distance / norm(diff);
    HalfCorrection(diff.x, q);
    HalfCorrection(diff.y, q);
    HalfCorrection(diff.z, q);
  }

  lemma HalfCorrection(d: real, q: real)
    ensures d - 2.0 * ((d * (1.0 - q)) * 0.5) == d * q
  {
  }

  /**
   * `satisfyConstraint` of `constraints.js`: relax the pair `(i, j)` towards
   * `distance`. It moves at most the two particles and only their positions,
   * keeps the sum (so the midpoint) of the pair, and does nothing when the two
   * coincide or at zero current length.
   */
  function SatisfyConstraint(ps: seq<Particle>, i: nat, j: nat, distance: real, norm: Vec3 -> real): (r: seq<Particle>)
    requires i < |ps| && j < |ps|
    ensures PositionsOnly(ps, r)
    ensures forall k :: 0 <= k < |ps| && k != i && k != j ==> r[k] == ps[k]
    ensures i == j || norm(Sub(ps[j].position, ps[i].position)) == 0.0 ==> r == ps
    ensures i != j ==> Add(r[i].position, r[j].position) == Add(ps[i].position, ps[j].position)
  {
    RelaxCoincident(ps[i].position, ps[j].position, distance, norm);
    var moved := Relax(ps[i].position, ps[j].position, distance, norm);
    ps[i := ps[i].(position := moved.0)][j := ps[j].(position := moved.1)]
  }

  /**
   * With two distinct particles at non-zero length, the new separation is the
   * old one rescaled to `distance`; for a non-negative target and a true
   * length, the pair ends exactly `distance` apart.
   */
  lemma SatisfyConstraintReachesTarget(ps: seq<Particle>, i: nat, j: nat, distance: real, norm: Vec3 -> real)
    requires i < |ps| && j < |ps| && i != j
    requires norm(Sub(ps[j].position, ps[i].position)) != 0.0
    ensures var r := SatisfyConstraint(ps, i, j, distance, norm);
            var len := norm(Sub(ps[j].position, ps[i].position));
            Sub(r[j].position, r[i].position) == Scale(Sub(ps[j].position, ps[i].position), distance / len)
    ensures IsNorm(norm) && distance >= 0.0 ==>
            var r := SatisfyConstraint(ps, i, j, distance, norm);
            norm(Sub(r[j].position, r[i].position)) == distance
  {
    var a, b := ps[i].position, ps[j].position;
    var diff := Sub(b, a);
    var len := norm(diff);
    RelaxRescales(a, b, distance, norm);
    if IsNorm(norm) && distance >= 0.0 {
      assert len > 0.0;
      ScaledLength(norm, diff, distance);
    }
  }

  /** A zero target distance pulls two distinct particles onto their common midpoint. */
  lemma SatisfyConstraintZeroDistance(ps: seq<Particle>, i: nat, j: nat, norm: Vec3 -> real)
    requires i < |ps| && j < |ps| && i != j
    requires norm(Sub(ps[j].position, ps[i].position)) != 0.0
    ensures var r := SatisfyConstraint(ps, i, j, 0.0, norm);
            var mid := Scale(Add(ps[i].position, ps[j].position), 0.5);
            r[i].position == mid && r[j].position == mid
  {
    SatisfyConstraintReachesTarget(ps, i, j, 0.0, norm);
  }

  /**
   * `satisfyConstraint` of `cloth.js`: the same relaxation, except that a
   * target distance of exactly 0 snaps the second particle onto the first and
   * leaves the first where it is.
   */
  function ClothSatisfyConstraint(ps: seq<Particle>, i: nat, j: nat, distance: real, norm: Vec3 -> real): (r: seq<Particle>)
    requires i < |ps| && j < |ps|
    ensures PositionsOnly(ps, r)
    ensures forall k :: 0 <= k < |ps| && k != i && k != j ==> r[k] == ps[k]
    ensures distance == 0.0 ==> r[j].position == ps[i].position && r[i].position == ps[i].position
    ensures distance != 0.0 ==> r == SatisfyConstraint(ps, i, j, distance, norm)
  {
    if distance == 0.0 then ps[j := ps[j].(position := ps[i].position)]
    else SatisfyConstraint(ps, i, j, distance, norm)
  }

  /**
   * The two variants part ways only at a zero target: for two distinct
   * particles at different places, `cloth.js` keeps the first particle still
   * while `constraints.js` moves it to the midpoint.
   */
  lemma SatisfyVariantsDiffer(ps: seq<Particle>, i: nat, j: nat, norm: Vec3 -> real)
    requires i < |ps| && j < |ps| && i != j
    requires ps[i].position != ps[j].position
    requires norm(Sub(ps[j].position, ps[i].position)) != 0.0
    ensures ClothSatisfyConstraint(ps, i, j, 0.0, norm)[i] == ps[i]
    ensures SatisfyConstraint(ps, i, j, 0.0, norm)[i].position != ps[i].position
  {
    SatisfyConstraintZeroDistance(ps, i, j, norm);
    MidpointMoves(ps[i].position, ps[j].position);
  }

  lemma MidpointMoves(a: Vec3, b: Vec3)
    requires a != b
    ensures Scale(Add(a, b), 0.5) != a
  {
    if a.x != b.x {
      assert (a.x + b.x) * 0.5 != a.x;
    } else if a.y != b.y {
      assert (a.y + b.y) * 0.5 != a.y;
    } else {
      assert a.z != b.z;
      assert (a.z + b.z) * 0.5 != a.z;
    }
  }

  /** One particle held above the floor plane `y = level`. */
  function FloorParticle(p: Particle, level: real): (r: Particle)
    ensures r.position.y >= level
    ensures r.position.x == p.position.x && r.position.z == p.position.z
    ensures r.previous == p.previous && r.original == p.original && r.a == p.a && r.invMass == p.invMass
    ensures p.position.y >= level ==> r == p
    ensures p.position.y < level ==> r.position.y == level
  {
    if p.position.y < level then p.(position := p.position.(y := level)) else p
  }

  /**
   * `floorConstraint(y)`, and the floor of the cloth constructor: every
   * particle below the plane is lifted onto it; only `y` changes, and only
   * for particles below.
   */
  function FloorClamp(ps: seq<Particle>, level: real): (r: seq<Particle>)
    ensures PositionsOnly(ps, r)
    ensures forall k :: 0 <= k < |r| ==> r[k].position.y >= level
    ensures forall k :: 0 <= k < |r| ==> r[k].position.x == ps[k].position.x && r[k].position.z == ps[k].position.z
    ensures forall k :: 0 <= k < |r| && ps[k].position.y >= level ==> r[k] == ps[k]
  {
    seq(|ps|, k requires 0 <= k < |ps| => FloorParticle(ps[k], level))
  }

  /** The floor's new height is the old one clamped from below by the floor level. */
  lemma FloorClampIsClamp(ps: seq<Particle>, level: real, k: nat)
    requires k < |ps|
    ensures FloorClamp(ps, level)[k].position.y == MathUtil.Clamp(ps[k].position.y, Some(level), None)
  {
  }

  /** Lifting onto the floor twice is lifting once. */
  lemma FloorClampIdempotent(ps: seq<Particle>, level: real)
    ensures FloorClamp(FloorClamp(ps, level), level) == FloorClamp(ps, level)
  {
    var once := FloorClamp(ps, level);
    var twice := FloorClamp(once, level);
    assert |twice| == |once|;
    forall k | 0 <= k < |once|
      ensures twice[k] == once[k]
    {
    }
  }

  /** A pinned particle goes back to its rest position, with no implicit velocity left. */
  function PinParticle(p: Particle): (r: Particle)
    ensures r.position == p.original && r.previous == p.original
    ensures r.original == p.original && r.a == p.a && r.invMass == p.invMass
    ensures Sub(r.position, r.previous) == Zero
  {
    p.(position := p.original, previous := p.original)
  }

  /**
   * The pin constraint of the cloth constructor: every particle whose index is
   * listed in `pins` is reset to its rest position, both `position` and
   * `previous`; every other particle is left alone.
   */
  function PinReset(ps: seq<Particle>, pins: seq<nat>): (r: seq<Particle>)
    requires forall n :: n in pins ==> n < |ps|
    ensures |r| == |ps|
    ensures forall k :: 0 <= k < |ps| ==>
              r[k].original == ps[k].original && r[k].a == ps[k].a && r[k].invMass == ps[k].invMass
    ensures forall k: nat :: k < |ps| && k in pins ==> r[k].position == ps[k].original && r[k].previous == ps[k].original
    ensures forall k: nat :: k < |ps| && k !in pins ==> r[k] == ps[k]
    decreases |pins|
  {
    if pins == [] then ps
    else
      var n := pins[|pins| - 1];
      var earlier := pins[..|pins| - 1];
      assert forall m :: m in earlier ==> m in pins;
      assert forall m :: m in pins ==> m in earlier || m == n;
      assert n in pins;
      var rest := PinReset(ps, earlier);
      rest[n := PinParticle(rest[n])]
  }

  /** Pinning twice is pinning once. */
  lemma PinResetIdempotent(ps: seq<Particle>, pins: seq<nat>)
    requires forall n :: n in pins ==> n < |ps|
    ensures PinReset(PinReset(ps, pins), pins) == PinReset(ps, pins)
  {
    var once := PinReset(ps, pins);
    var twice := PinReset(once, pins);
    forall k | 0 <= k < |once|
      ensures twice[k] == once[k]
    {
    }
  }

  /** A sphere the cloth collides with. */
  datatype Sphere = Sphere(center: Vec3, radius: real)

  /**
   * One particle against one sphere: a position strictly inside is moved to the
   * surface, along its offset from the centre (normalised, then scaled by the
   * radius). A position at the very centre has no offset to follow and stays.
   */
  function PushOut(pos: Vec3, s: Sphere, norm: Vec3 -> real): (r: Vec3)
    ensures norm(Sub(pos, s.center)) >= s.radius ==> r == pos
    ensures norm(Sub(pos, s.center)) == 0.0 ==> r == pos
  {
    var offset := Sub(pos, s.center);
    var len := norm(offset);
    if len < s.radius && len != 0.0 then Add(s.center, Scale(Scale(offset, 1.0 / len), s.radius))
    else pos
  }

  /**
   * A penetrating position with a non-zero offset lands exactly on the sphere,
   * in the direction of its original offset.
   */
  lemma PushOutOntoSurface(pos: Vec3, s: Sphere, norm: Vec3 -> real)
    requires IsNorm(norm)
    requires 0.0 < norm(Sub(pos, s.center)) < s.radius
    ensures var len := norm(Sub(pos, s.center));
            Sub(PushOut(pos, s, norm), s.center) == Scale(Sub(pos, s.center), s.radius / len)
    ensures norm(Sub(PushOut(pos, s, norm), s.center)) == s.radius
  {
    var offset := Sub(pos, s.center);
    var len := norm(offset);
    PushOutDirection(pos, s, norm);
    ScaledLength(norm, offset, s.radius);
  }

  lemma PushOutDirection(pos: Vec3, s: Sphere, norm: Vec3 -> real)
    requires 0.0 < norm(Sub(pos, s.center)) < s.radius
    ensures var len := norm(Sub(pos, s.center));
            Sub(PushOut(pos, s, norm), s.center) == Scale(Sub(pos, s.center), s.radius / len)
  {
    var offset := Sub(pos, s.center);
    var len := norm(offset);
    NormalizeThenScale(offset.x, len, s.radius);
    NormalizeThenScale(offset.y, len, s.radius);
    NormalizeThenScale(offset.z, len, s.radius);
  }

  /** Rescaling a vector by `target / |v|` gives it length `target`. */
  lemma ScaledLength(norm: Vec3 -> real, v: Vec3, target: real)
    requires IsNorm(norm)
    requires norm(v) > 0.0 && target >= 0.0
    ensures norm(Scale(v, target / norm(v))) == target
  {
    var len := norm(v);
    DivPositiveOrZero(target, len);
    NormScale(norm, v, target / len);
    DivMulCancel(target, len);
  }

  lemma NormalizeThenScale(d: real, len: real, radius: real)
    requires len != 0.0
    ensures (d * (1.0 / len)) * radius == d * (radius / len)
  {
  }

  /** After one sphere, no particle is left strictly inside it, unless it sits at the very centre. */
  lemma PushOutContainment(pos: Vec3, s: Sphere, norm: Vec3 -> real)
    requires IsNorm(norm)
    ensures norm(Sub(PushOut(pos, s, norm), s.center)) >= s.radius || norm(Sub(pos, s.center)) == 0.0
  {
    var len := norm(Sub(pos, s.center));
    if 0.0 < len < s.radius {
      PushOutOntoSurface(pos, s, norm);
    }
  }

  /** Every particle against one sphere; only positions change. */
  function PushAll(ps: seq<Particle>, s: Sphere, norm: Vec3 -> real): (r: seq<Particle>)
    ensures PositionsOnly(ps, r)
    ensures forall k :: 0 <= k < |ps| && norm(Sub(ps[k].position, s.center)) >= s.radius ==> r[k] == ps[k]
  {
    seq(|ps|, k requires 0 <= k < |ps| => ps[k].(position := PushOut(ps[k].position, s, norm)))
  }

  /** After one sphere, every particle not at its centre is on or outside it. */
  lemma PushAllContainment(ps: seq<Particle>, s: Sphere, norm: Vec3 -> real)
    requires IsNorm(norm)
    ensures forall k :: 0 <= k < |ps| && norm(Sub(ps[k].position, s.center)) != 0.0 ==>
              norm(Sub(PushAll(ps, s, norm)[k].position, s.center)) >= s.radius
  {
    forall k | 0 <= k < |ps| && norm(Sub(ps[k].position, s.center)) != 0.0
      ensures norm(Sub(PushAll(ps, s, norm)[k].position, s.center)) >= s.radius
    {
      PushOutContainment(ps[k].position, s, norm);
    }
  }

  /**
   * `sphereConstraint(spheres)`, in both files: the spheres in list order, each
   * against every particle. Only positions change.
   */
  function SphereSweep(ps: seq<Particle>, spheres: seq<Sphere>, norm: Vec3 -> real): (r: seq<Particle>)
    ensures PositionsOnly(ps, r)
    decreases |spheres|
  {
    if spheres == [] then ps
    else PushAll(SphereSweep(ps, spheres[..|spheres| - 1], norm), spheres[|spheres| - 1], norm)
  }

  /**
   * The spheres run in list order, so the last one has the final word: after
   * the sweep no particle is strictly inside it, unless it sits at its centre.
   */
  lemma SphereSweepLastContainment(ps: seq<Particle>, spheres: seq<Sphere>, norm: Vec3 -> real, k: nat)
    requires IsNorm(norm) && |spheres| > 0 && k < |ps|
    ensures var last := spheres[|spheres| - 1];
            var p := SphereSweep(ps, spheres, norm)[k].position;
            norm(Sub(p, last.center)) >= last.radius || norm(Sub(p, last.center)) == 0.0
  {
    var last := spheres[|spheres| - 1];
    var before := SphereSweep(ps, spheres[..|spheres| - 1], norm);
    PushOutContainment(before[k].position, last, norm);
  }
}
