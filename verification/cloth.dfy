/**
 * The cloth itself (`Cloth` of `cloth.js`): its particles, its constraints in
 * registration order, and its pinned indices; the constructor that lays them
 * out; and `update`, which moves every particle under gravity and then runs
 * every constraint in order. The constraints are the constructor's closures
 * recast as a tagged variant, interpreted by `Apply`.
 */
module ClothSim {
  import opened Vectors
  import opened Particles
  import opened Grid
  import opened Constraints

  /** The height of the constructor's floor. */
  const FLOOR_LEVEL: real := -250.0

  /** The particle indices the constructor pins: the first eleven. */
  const DEFAULT_PINS: seq<nat> := [0, 1, 2, 3, 4, 5, 6, 7, 8, 9, 10]

  datatype Constraint =
    | Structural(link: Link)
    | Floor(level: real)
    | Pin
    | Spheres(spheres: seq<Sphere>)

  datatype Cloth = Cloth(
    w: nat,
    h: nat,
    mass: real,
    particles: seq<Particle>,
    constraints: seq<Constraint>,
    pins: seq<nat>)

  /** The constraint only refers to particles among the first `count`. */
  predicate Fits(c: Constraint, count: nat, pins: seq<nat>) {
    match c
    case Structural(l) => l.i < count && l.j < count
    case Pin => forall n :: n in pins ==> n < count
    case _ => true
  }

  predicate AllFit(cs: seq<Constraint>, count: nat, pins: seq<nat>) {
    forall k :: 0 <= k < |cs| ==> Fits(cs[k], count, pins)
  }

  /** What every frame relies on: a non-zero mass and constraints that only refer to existing particles. */
  predicate Valid(c: Cloth) {
    c.mass != 0.0 && AllFit(c.constraints, |c.particles|, c.pins)
  }

  /** Same length, and the rest positions, accelerations and inverse masses are untouched. */
  predicate KeepsFrame(ps: seq<Particle>, qs: seq<Particle>) {
    |qs| == |ps| &&
    forall k :: 0 <= k < |ps| ==>
      qs[k].original == ps[k].original && qs[k].a == ps[k].a && qs[k].invMass == ps[k].invMass
  }

  /** Run one constraint. Only the pin touches anything but positions, and no constraint touches a rest position. */
  function Apply(c: Constraint, ps: seq<Particle>, pins: seq<nat>, norm: Vec3 -> real): (r: seq<Particle>)
    requires Fits(c, |ps|, pins)
    ensures KeepsFrame(ps, r)
    ensures !c.Pin? ==> PositionsOnly(ps, r)
    ensures forall k :: 0 <= k < |ps| && k !in pins ==> r[k].previous == ps[k].previous
  {
    match c
    case Structural(l) => ClothSatisfyConstraint(ps, l.i, l.j, l.distance, norm)
    case Floor(level) => FloorClamp(ps, level)
    case Pin => PinReset(ps, pins)
    case Spheres(spheres) => SphereSweep(ps, spheres, norm)
  }

  /** Run the constraints one after the other, the first registered first. */
  function ApplyAll(cs: seq<Constraint>, ps: seq<Particle>, pins: seq<nat>, norm: Vec3 -> real): (r: seq<Particle>)
    requires AllFit(cs, |ps|, pins)
    ensures KeepsFrame(ps, r)
    ensures forall k :: 0 <= k < |ps| && k !in pins ==> r[k].previous == ps[k].previous
    decreases |cs|
  {
    if cs == [] then ps
    else
      var before := ApplyAll(cs[..|cs| - 1], ps, pins, norm);
      Apply(cs[|cs| - 1], before, pins, norm)
  }

  /** The sweep starts with the first registered constraint and continues with the rest. */
  lemma {:induction false} ApplyAllFirst(cs: seq<Constraint>, ps: seq<Particle>, pins: seq<nat>, norm: Vec3 -> real)
    requires |cs| > 0 && AllFit(cs, |ps|, pins)
    ensures AllFit(cs[1..], |ps|, pins)
    ensures ApplyAll(cs, ps, pins, norm) == ApplyAll(cs[1..], Apply(cs[0], ps, pins, norm), pins, norm)
    decreases |cs|
  {
    var first := Apply(cs[0], ps, pins, norm);
    assert AllFit(cs[1..], |ps|, pins) by {
      forall k | 0 <= k < |cs[1..]|
        ensures Fits(cs[1..][k], |ps|, pins)
      {
        assert cs[1..][k] == cs[k + 1];
      }
    }
    if |cs| == 1 {
      assert cs[..0] == [];
      assert cs[1..] == [];
    } else {
      var init := cs[..|cs| - 1];
      assert AllFit(init, |ps|, pins) by {
        forall k | 0 <= k < |init|
          ensures Fits(init[k], |ps|, pins)
        {
          assert init[k] == cs[k];
        }
      }
      ApplyAllFirst(init, ps, pins, norm);
      assert init[1..] == cs[1..][..|cs[1..]| - 1];
      assert init[0] == cs[0];
      assert cs[1..][|cs[1..]| - 1] == cs[|cs| - 1];
    }
  }

  /** The structural constraints for a list of links, in the same order. */
  function LinkConstraints(links: seq<Link>): (cs: seq<Constraint>)
    ensures |cs| == |links|
    ensures forall k :: 0 <= k < |links| ==> cs[k] == Structural(links[k])
  {
    seq(|links|, k requires 0 <= k < |links| => Structural(links[k]))
  }

  /** The constructor's constraint list: one structural constraint per link, then the floor, then the pin. */
  function ClothConstraints(w: nat, h: nat): (cs: seq<Constraint>)
    ensures |cs| == 2 * w * h + w + 2 && |StructuralLinks(w, h)| == 2 * w * h + w
    ensures forall k :: 0 <= k < |cs| - 2 ==> cs[k] == Structural(StructuralLinks(w, h)[k])
    ensures cs[|cs| - 2] == Floor(FLOOR_LEVEL) && cs[|cs| - 1] == Pin
  {
    StructuralLinksLength(w, h);
    LinkConstraints(StructuralLinks(w, h)) + [Floor(FLOOR_LEVEL), Pin]
  }

  /** With more than ten particles every pin is in range, and every link always is. */
  lemma ClothConstraintsFit(w: nat, h: nat)
    requires (h + 1) * w > 10
    ensures AllFit(ClothConstraints(w, h), (h + 1) * w, DEFAULT_PINS)
  {
    var cs := ClothConstraints(w, h);
    StructuralLinksFit(w, h);
    forall k | 0 <= k < |cs|
      ensures Fits(cs[k], (h + 1) * w, DEFAULT_PINS)
    {
      if k < |cs| - 2 {
        assert StructuralLinks(w, h)[k] in StructuralLinks(w, h);
      }
    }
  }

  /**
   * The constructor: `(h + 1) * w` particles created at rest where `seed`
   * places each cell, the structural links, then the floor, then the pin,
   * with the first eleven particles pinned.
   */
  function NewCloth(w: nat, h: nat, mass: real, seed: (nat, nat) -> Vec3): (c: Cloth)
    requires mass != 0.0
    ensures |c.particles| == (h + 1) * w
    ensures forall u: nat, v: nat :: u < w && v <= h ==>
              Index(u, v, w) < |c.particles| && c.particles[Index(u, v, w)] == NewParticle(seed(u, v), mass)
    ensures c.constraints == ClothConstraints(w, h) && c.pins == DEFAULT_PINS
  {
    GridParticlesLayout(w, h + 1, seed, mass);
    Cloth(w, h, mass, GridParticles(w, h + 1, seed, mass), ClothConstraints(w, h), DEFAULT_PINS)
  }

  /**
   * The constructor always pins the first eleven indices, so a grid of at
   * most ten particles gets a pin past its end: such a cloth is never valid,
   * and `update` cannot run on it.
   */
  lemma NewClothTooSmall(w: nat, h: nat, mass: real, seed: (nat, nat) -> Vec3)
    requires mass != 0.0 && (h + 1) * w <= 10
    ensures !Valid(NewCloth(w, h, mass, seed))
  {
    var c := NewCloth(w, h, mass, seed);
    var last := |c.constraints| - 1;
    assert c.constraints[last] == Pin;
    assert 10 in c.pins;
    assert !Fits(c.constraints[last], |c.particles|, c.pins);
  }

  /** A grid of more than ten particles is a valid cloth: every pin and every link is in range. */
  lemma NewClothValid(w: nat, h: nat, mass: real, seed: (nat, nat) -> Vec3)
    requires mass != 0.0 && (h + 1) * w > 10
    ensures Valid(NewCloth(w, h, mass, seed))
  {
    ClothConstraintsFit(w, h);
  }

  /** Gravity, then one Verlet step of the fixed size: what `update` does to each particle before the constraints. */
  function Advance(p: Particle, mass: real): (r: Particle)
    ensures r.previous == p.position && r.a == Zero
    ensures r.original == p.original && r.invMass == p.invMass
    ensures Velocity(r) == Add(Scale(Velocity(p), DRAG), Scale(Add(p.a, Scale(Gravity(mass), p.invMass)), TIMESTEP_SQ))
  {
    Integrate(AddForce(p, Gravity(mass)), TIMESTEP_SQ)
  }

  /**
   * `update`: every particle is advanced, then the constraints run in
   * registration order. The result is again a valid cloth with the same
   * constraints and pins; rest positions and inverse masses never change, and
   * every acceleration is back to zero. Every particle the pin does not list
   * ends the frame with `previous` at its position before the frame, the
   * Verlet invariant. When the pin is the last constraint
   * (as the constructor leaves it), every pinned particle ends the frame at
   * its rest position with no implicit velocity.
   */
  function Update(c: Cloth, norm: Vec3 -> real): (r: Cloth)
    requires Valid(c)
    ensures Valid(r)
    ensures r.w == c.w && r.h == c.h && r.mass == c.mass
    ensures r.constraints == c.constraints && r.pins == c.pins
    ensures |r.particles| == |c.particles|
    ensures forall k :: 0 <= k < |c.particles| ==>
              r.particles[k].original == c.particles[k].original &&
              r.particles[k].invMass == c.particles[k].invMass &&
              r.particles[k].a == Zero
    ensures forall k :: 0 <= k < |c.particles| && k !in c.pins ==>
              r.particles[k].previous == c.particles[k].position
    ensures |c.constraints| > 0 && c.constraints[|c.constraints| - 1] == Pin ==>
              forall n :: n in c.pins ==>
                r.particles[n].position == c.particles[n].original &&
                r.particles[n].previous == c.particles[n].original
  {
    var advanced := seq(|c.particles|, k requires 0 <= k < |c.particles| => Advance(c.particles[k], c.mass));
    c.(particles := ApplyAll(c.constraints, advanced, c.pins, norm))
  }

  /** `addConstraint`: the new constraint runs after all the others. */
  function AddConstraint(c: Cloth, k: Constraint): (r: Cloth)
    ensures |r.constraints| == |c.constraints| + 1
    ensures r.constraints[..|c.constraints|] == c.constraints && r.constraints[|c.constraints|] == k
    ensures Valid(c) && Fits(k, |c.particles|, c.pins) ==> Valid(r)
  {
    c.(constraints := c.constraints + [k])
  }

  /** With no constraints, a particle at rest falls by exactly `GRAVITY * TIMESTEP_SQ` in one frame and does not move sideways. */
  lemma UpdateFallsFromRest(c: Cloth, norm: Vec3 -> real, k: nat)
    requires Valid(c) && c.constraints == []
    requires k < |c.particles|
    requires c.particles[k].previous == c.particles[k].position && c.particles[k].a == Zero
    requires c.particles[k].invMass * c.mass == 1.0
    ensures Update(c, norm).particles[k].position ==
            Add(c.particles[k].position, Vec3(0.0, -GRAVITY * TIMESTEP_SQ, 0.0))
  {
    FallFromRest(c.particles[k], c.mass);
  }

  /** Whenever the pin runs last, each pinned particle ends the frame at its rest position. */
  lemma PinnedAfterUpdate(c: Cloth, norm: Vec3 -> real, n: nat)
    requires Valid(c) && |c.constraints| > 0 && c.constraints[|c.constraints| - 1] == Pin
    requires n in c.pins
    ensures n < |c.particles|
    ensures Update(c, norm).particles[n].position == c.particles[n].original
    ensures Update(c, norm).particles[n].previous == c.particles[n].original
  {
    assert Fits(c.constraints[|c.constraints| - 1], |c.particles|, c.pins);
  }

  /** A freshly built cloth of more than ten particles ends its first frame with each of the first eleven particles at rest where it started. */
  lemma NewClothPinsHold(w: nat, h: nat, mass: real, seed: (nat, nat) -> Vec3, norm: Vec3 -> real, n: nat)
    requires mass != 0.0 && (h + 1) * w > 10 && n <= 10
    ensures Valid(NewCloth(w, h, mass, seed)) && n < |NewCloth(w, h, mass, seed).particles|
    ensures Update(NewCloth(w, h, mass, seed), norm).particles[n].position == NewCloth(w, h, mass, seed).particles[n].original
    ensures Update(NewCloth(w, h, mass, seed), norm).particles[n].previous == NewCloth(w, h, mass, seed).particles[n].original
  {
    var c := NewCloth(w, h, mass, seed);
    NewClothValid(w, h, mass, seed);
    assert c.pins[n] == n;
    PinnedAfterUpdate(c, norm, n);
  }

  /** The demo page's configuration, ten by ten segments of mass 0.1: 110 particles, 210 links plus the floor and the pin, and a valid cloth. */
  lemma DemoClothValid(segments: nat, mass: real, seed: (nat, nat) -> Vec3)
    requires segments == 10 && mass == 0.1
    ensures Valid(NewCloth(segments, segments, mass, seed))
    ensures |NewCloth(segments, segments, mass, seed).particles| == 110
    ensures |NewCloth(segments, segments, mass, seed).constraints| == 212
  {
    assert (segments + 1) * segments == 110;
    assert 2 * segments * segments + segments + 2 == 212;
    NewClothValid(segments, segments, mass, seed);
  }
}
