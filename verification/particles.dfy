/**
 * One mass point of the cloth (`ClothParticle`): a position, the position one
 * step ago, the rest position it was created at, the acceleration gathered
 * since the last step, and the inverse of its mass.
 */
module Particles {
  import opened Vectors

  const DAMPING: real := 0.03
  const DRAG: real := 1.0 - DAMPING
  const GRAVITY: real := 9.82
  const TIMESTEP: real := 18.0 / 1000.0
  const TIMESTEP_SQ: real := TIMESTEP * TIMESTEP

  datatype Particle = Particle(position: Vec3, previous: Vec3, original: Vec3, a: Vec3, invMass: real)

  /** A particle at rest at `pos`: all three positions agree and nothing is accelerating it. */
  function NewParticle(pos: Vec3, mass: real): (p: Particle)
    requires mass != 0.0
    ensures p.position == pos && p.previous == pos && p.original == pos
    ensures p.a == Zero
    ensures p.invMass * mass == 1.0
  {
    Particle(pos, pos, pos, Zero, 1.0 / mass)
  }

  /** The implicit velocity of Verlet integration: the displacement over the last step. */
  function Velocity(p: Particle): Vec3 {
    Sub(p.position, p.previous)
  }

  /** `addForce`: the force, divided by the mass, joins the accumulated acceleration; nothing else moves. */
  function AddForce(p: Particle, force: Vec3): (r: Particle)
    ensures Sub(r.a, p.a) == Scale(force, p.invMass)
    ensures r.position == p.position && r.previous == p.previous
    ensures r.original == p.original && r.invMass == p.invMass
  {
    p.(a := Add(p.a, Scale(force, p.invMass)))
  }

  /** Forces gathered one by one accelerate a particle exactly as their sum does. */
  lemma AddForceAccumulates(p: Particle, f: Vec3, g: Vec3)
    ensures AddForce(AddForce(p, f), g) == AddForce(p, Add(f, g))
  {
  }

  /**
   * `integrate`: one Verlet step. The new position continues the last
   * displacement, damped by `DRAG`, plus the acceleration times `timesq`;
   * the old position becomes `previous` and the acceleration is cleared.
   */
  function Integrate(p: Particle, timesq: real): (r: Particle)
    ensures r.previous == p.position
    ensures Velocity(r) == Add(Scale(Velocity(p), DRAG), Scale(p.a, timesq))
    ensures r.a == Zero
    ensures r.original == p.original && r.invMass == p.invMass
  {
    var newPos := Add(Add(Scale(Sub(p.position, p.previous), DRAG), p.position), Scale(p.a, timesq));
    Particle(newPos, p.position, p.original, Zero, p.invMass)
  }

  /** The gravity force on a particle of mass `mass`, as the cloth computes it once at construction. */
  function Gravity(mass: real): (f: Vec3)
    ensures f.x == 0.0 && f.z == 0.0
    ensures f.y == -GRAVITY * mass
    ensures mass > 0.0 ==> f.y < 0.0
  {
    Scale(Vec3(0.0, -GRAVITY, 0.0), mass)
  }

  /**
   * A particle at rest, pushed by gravity alone for one step of the solver's
   * fixed size, falls by exactly `GRAVITY * TIMESTEP_SQ` and does not move sideways.
   */
  lemma FallFromRest(p: Particle, mass: real)
    requires p.previous == p.position && p.a == Zero
    requires p.invMass * mass == 1.0
    ensures Integrate(AddForce(p, Gravity(mass)), TIMESTEP_SQ).position
         == Add(p.position, Vec3(0.0, -GRAVITY * TIMESTEP_SQ, 0.0))
    ensures Integrate(AddForce(p, Gravity(mass)), TIMESTEP_SQ).previous == p.position
  {
    var q := AddForce(p, Gravity(mass));
    assert -GRAVITY * mass * p.invMass == -GRAVITY * (p.invMass * mass);
    assert q.a == Vec3(0.0, -GRAVITY, 0.0);
  }
}
