# basketbowl cloth solver, modelled in Dafny

This project models the position-based cloth solver of the basketbowl demo,
which is a basketball net simulated as a cloth. It also models the small pure
helpers around the solver and the page's ball-spawning rule. Everything is
exact arithmetic over `real`s. Vector length is never computed. Each member
that needs it takes a `norm: Vec3 -> real`, and the lemmas that talk about
distances assume `IsNorm(norm)`: `norm(v) >= 0` and `norm(v) * norm(v) == Dot(v, v)`.

Modules, in dependency order:

- `Wrappers` (`wrappers.dfy`): `Option`. It stands for `clamp`'s optional
  bounds, for the first animation frame, which has no time, and for the
  page's clock `timeLastAdded` before its `let` initialisation has run.
- `Vectors` (`vectors.dfy`): the real 3-vector with addition, subtraction,
  scaling and dot product, plus the abstract length.
- `RealArith` (`real_arith.dfy`): monotonicity and cancellation facts about
  real products and quotients, used by the other proofs.
- `MathUtil` (`math_util.dfy`): `clamp` with optional bounds, and `vec`.
- `Geometries` (`geometries.dfy`): the flat plane parameterisation `clothGeometry`.
- `Particles` (`particles.dfy`): `ClothParticle` with `addForce` and Verlet
  `integrate`, and the solver constants (damping, drag, gravity, time step).
- `Grid` (`grid.dfy`): the grid of the `Cloth` constructor. This covers the
  row-major `index`, the `taper` of rest distances, the particles in creation
  order, and the structural links in registration order. The links include
  the wrap-around seam of each row and the extra bottom row.
- `Constraints` (`constraints.dfy`): the position corrections as pure maps
  over the particle sequence. These are both variants of `satisfyConstraint`,
  the floor clamp, the pin reset, and the sphere push-out.
- `ClothSim` (`cloth.dfy`): the cloth record. It covers the constructor, the
  constraint list, `addConstraint`, and `update`. `update` applies gravity and
  integrates every particle, then runs the constraints in registration order.
- `Spawner` (`spawner.dfy`): `spawnIfNeeded` as a state machine over the
  ball count and the time of the last addition, and the per-frame loop over
  the balls. It also models the page's start as `index.js` orders it, where
  the clock is read before it is initialised (see "## Findings").

The constructor's constraints are closures in `cloth.js`. Here they are a
tagged variant (`Structural(link)`, `Floor(level)`, `Pin`, `Spheres(spheres)`),
and `ClothSim.Apply` interprets it. `ApplyAll` runs a list so that the last
registered constraint runs last. This makes "the pin runs last" a direct
statement about the constructor's list.

A particle's starting position comes from the surface function `hoop`, which
uses trigonometry. Here it is a parameter `seed: (nat, nat) -> Vec3`, giving
the point of grid cell `(u, v)`. The particle starts with
`position == previous == original == seed(u, v)`.

Two observations about the JavaScript code:

- `taper(0.5, 392)` is exactly `0.01`, the seam distance. So a link of length
  `0.01` is not always a seam link. `Grid.SeamLinks` states the implication
  in the seam-to-distance direction only.
- For a cloth built with numeric segments and more than ten particles, a
  ball constraint added after the constructor's pin (as `index.js` does)
  runs after the pin, so balls can still push pinned particles during a
  frame. The "pins end the frame at rest" property (`ClothSim.Update`,
  `ClothSim.PinnedAfterUpdate`) holds only while the pin is the last
  constraint, as the constructor leaves it. On the page as written the
  point is moot: `index.js` passes `hoopGeometry` where the constructor
  expects `segments`, so the grid has no particles, and the first frame
  already stops at the spawner (see "## Findings").

## Model

| member | source | states |
|---|---|---|
| MathUtil.Clamp | src/math.js:1-9 | The lower bound is checked first and wins whenever `x <= min`, even when the bounds cross. Otherwise the upper bound wins when `x >= max`, and otherwise `x` is returned. An absent bound never triggers. |
| MathUtil.ClampIsMaxMin | src/math.js:1-9 | With `lo <= hi`, `clamp` agrees with the independent definition `max(lo, min(x, hi))`, and its result lies in `[lo, hi]`. |
| MathUtil.ClampIdempotent | src/math.js:1-9 | With consistent (or missing) bounds, clamping a clamped value changes nothing. |
| MathUtil.ClampCrossedBounds | src/math.js:2-5 | With `max < min`, the result is `min` for `x <= min` and `max` above it. |
| MathUtil.ClampUnbounded | src/math.js:1 | With both bounds left at their infinite defaults, `clamp` is the identity. |
| MathUtil.Vec | src/math.js:11-13 | `vec` builds a record with exactly the given components. |
| MathUtil.VecRoundTrip | src/math.js:11-13 | Reading a record's components back through `vec` gives the same record. |
| Geometries.ClothGeometry | src/geometries.js:11-18 | All three components are set from `(width, height, u, v)` alone. `z` is always 0 and `x` is 0 at `u = 0.5`. |
| Geometries.ClothGeometryBounds | src/geometries.js:13-14 | For `u, v` in `[0, 1]` and non-negative sizes, `x` lies in `[-width/2, width/2]` and `y` lies in `[height/2, 3*height/2]`. |
| Geometries.ClothGeometryMonotoneX | src/geometries.js:13 | With positive width, a larger `u` gives a strictly larger `x`. |
| Geometries.ClothGeometryMonotoneY | src/geometries.js:14 | With positive height, a larger `v` gives a strictly larger `y`. |
| Geometries.ClothGeometryInjective | src/geometries.js:11-18 | On a plane of non-zero width and height, equal points come from equal parameters. |
| Particles.NewParticle | src/cloth.js:217-233 | A new particle rests where the surface put it: position, previous and rest position agree. Its acceleration is zero and its inverse mass times the mass is 1. |
| Particles.AddForce | src/cloth.js:234-237 | The acceleration grows by exactly `force * invMass`. No position and no mass changes. |
| Particles.AddForceAccumulates | src/cloth.js:234-237 | Two forces added one after the other act as their sum. |
| Particles.Integrate | src/cloth.js:238-247 | The old position becomes `previous`. The new implicit velocity is the old one damped by `DRAG`, plus `a * timesq`. The acceleration is cleared and the rest position and mass are kept. |
| Particles.Gravity | src/cloth.js:29 | The cloth's gravity force pulls straight down, with no `x` or `z` part. Its size is `9.82` times the mass, so it points downwards for a positive mass. |
| Particles.FallFromRest | src/cloth.js:177-180 | A resting particle under gravity alone (force `mass * (0, -9.82, 0)`, inverse mass `1/mass`), after one step of `TIMESTEP_SQ`, falls by exactly `9.82 * TIMESTEP_SQ` in `y` and not at all in `x` or `z`. |
| Grid.IndexInRange | src/cloth.js:268-271 | For `u < w` and `v < rows`, `index(u, v, w)` is below `rows * w`. |
| Grid.IndexInjective | src/cloth.js:268-271 | Distinct cells of a grid `w` wide have distinct indices. |
| Grid.Taper | src/cloth.js:273-275 | A positive rest distance stays positive after tapering, and row 0 is not tapered. |
| Grid.TaperDecreasing | src/cloth.js:273-275 | For a positive rest distance, later rows get strictly shorter rest distances. |
| Grid.RowParticles | src/cloth.js:34-38 | The inner creation loop makes exactly `n` particles. Each one starts at rest: position, previous and rest position agree, no acceleration, and inverse mass times mass is 1. |
| Grid.GridParticles | src/cloth.js:33-39 | Every particle the creation loops make starts at rest in the same sense. |
| Grid.RowParticlesLayout | src/cloth.js:34-38 | One row created by the inner loop holds `n` particles, and column `u` is at rest at `seed(u, v)`. |
| Grid.GridParticlesLength | src/cloth.js:33-39 | The creation loops make `rows * w` particles. |
| Grid.GridParticlesCell | src/cloth.js:33-39 | The particle created for cell `(u, v)` is at position `index(u, v, w)` of the list. |
| Grid.GridParticlesLayout | src/cloth.js:33-39 | For every cell together: the push order of creation is exactly the order `index` assumes. |
| Grid.Down | src/cloth.js:45-51 | A down link starts at `index(u, v, w)` and ends one full row later, at that index plus `w`. Its rest distance is positive. |
| Grid.Across | src/cloth.js:52-59 | An across link starts at `index(u, v, w)`. It ends at the next index at distance `taper(0.5, v)`. The last column instead wraps back `u` places to the row's first particle, at the seam distance 0.01. Every rest distance is positive. |
| Grid.RowLinks | src/cloth.js:44-60 | One row of the main loops registers exactly `2 * n` links, all with positive rest distances. |
| Grid.BodyLinks | src/cloth.js:43-61 | Every link of the main loops has a positive rest distance. |
| Grid.BottomLinks | src/cloth.js:83-92 | The extra row registers exactly `n` links, all with positive rest distances. |
| Grid.StructuralLinks | src/cloth.js:43-92 | Every structural link of the constructor has a positive rest distance. |
| Grid.RowLinksLayout | src/cloth.js:44-60 | A row's links come in pairs: link `2u` goes down from `(u, v)` and link `2u + 1` goes across from it. |
| Grid.BodyLinksLength | src/cloth.js:43-61 | The main loops register `2 * w * rows` links. |
| Grid.BodyLinksCell | src/cloth.js:43-61 | For cell `(u, v)`, the down link sits at `2 * index(u, v, w)` and the across link just after it. |
| Grid.BottomLinksLayout | src/cloth.js:83-92 | The extra row contributes `w` across links of row `h`, in column order. |
| Grid.StructuralLinksLength | src/cloth.js:43-92 | The constructor registers exactly `2 * w * h + w` structural links. |
| Grid.StructuralLinksCell | src/cloth.js:43-61 | Link `2 * index(u, v, w)` is the down link of `(u, v)` and the next one is its across link. |
| Grid.StructuralLinksBottom | src/cloth.js:83-92 | Link `2 * w * h + u` is the across link of `(u, h)`. |
| Grid.DownFits | src/cloth.js:45-51 | Both ends of a down link are particles of the `(h + 1) * w` grid, and its rest distance is positive. |
| Grid.AcrossFits | src/cloth.js:52-59 | Both ends of an across link, including the `(u + 1) % w` wrap, are particles of the grid, and its rest distance is positive. |
| Grid.RowLinksFit | src/cloth.js:44-60 | Every link of a row is in range with a positive rest distance. |
| Grid.BodyLinksFit | src/cloth.js:43-61 | Every link of the main loops is in range with a positive rest distance. |
| Grid.BottomLinksFit | src/cloth.js:83-92 | Every link of the extra row `v = h` is in range with a positive rest distance. |
| Grid.StructuralLinksFit | src/cloth.js:43-92 | Every structural link of the constructor is in range with a positive rest distance. |
| Grid.SeamLinks | src/cloth.js:52-59 | The last column's across link joins the row's first particle at distance 0.01. Every other across link joins the right neighbour at `taper(0.5, v)`. This holds in the main rows and the extra row alike. |
| Constraints.Relax | src/constraints.js:11-17 | Relaxing a pair keeps the sum of the two positions. At zero length nothing moves. |
| Constraints.RelaxCoincident | src/constraints.js:11-13 | Two coincident positions stay put, whatever the length oracle says of the zero vector. |
| Constraints.RelaxRescales | src/constraints.js:14-17 | At non-zero length, the new separation is the old one scaled by `distance / currentDist`. |
| Constraints.SatisfyConstraint | src/constraints.js:4-18 | Only the two particles' positions change. Their sum, and so their midpoint, is kept. Zero current separation or one particle used twice changes nothing. |
| Constraints.SatisfyConstraintReachesTarget | src/constraints.js:11-17 | The pair's new separation is the old one rescaled to the target. With a true length and a non-negative target, the pair ends exactly `distance` apart. |
| Constraints.SatisfyConstraintZeroDistance | src/constraints.js:14-17 | A zero target pulls both particles onto their common midpoint. |
| Constraints.ClothSatisfyConstraint | src/cloth.js:277-295 | A zero target snaps the second particle onto the first and leaves the first where it is. Any other target behaves exactly like the `constraints.js` variant. Only positions change. |
| Constraints.SatisfyVariantsDiffer | src/cloth.js:284-287 | At a zero target, for two particles at different places, the `cloth.js` variant keeps the first particle still while the `constraints.js` variant moves it. |
| Constraints.FloorParticle | src/cloth.js:96-101 | One particle against the floor. Afterwards its `y` is at least the floor and exactly the floor if it was below. `x`, `z` and every other field are kept, and a particle at or above the floor is untouched. |
| Constraints.FloorClamp | src/constraints.js:36-45 | Afterwards every `y` is at least the floor. `x`, `z` and everything but the position are unchanged, and particles already at or above the floor are untouched. |
| Constraints.FloorClampIsClamp | src/constraints.js:40-42 | The new height is the old one passed through `clamp` with only a lower bound, the floor. |
| Constraints.FloorClampIdempotent | src/constraints.js:38-44 | Applying the floor twice is applying it once. |
| Constraints.PinParticle | src/cloth.js:106-110 | A pinned particle goes back to its rest position with `previous` equal to it, so no implicit velocity is left. Its rest position, acceleration and mass are kept. |
| Constraints.PinReset | src/cloth.js:104-111 | Every pinned particle ends with `position == previous == original`. Every unpinned particle is untouched, and no rest position, acceleration or mass changes. |
| Constraints.PinResetIdempotent | src/cloth.js:104-111 | Pinning twice is pinning once. |
| Constraints.PushOut | src/constraints.js:25-30 | A position at or beyond the radius from the centre is unchanged. So is a position at the very centre. |
| Constraints.PushOutOntoSurface | src/constraints.js:26-30 | A penetrating position with a non-zero offset moves along its original offset to exactly `radius` from the centre. |
| Constraints.PushOutDirection | src/constraints.js:28-29 | Normalising the offset and scaling by the radius is scaling the offset by `radius / currentDist`. |
| Constraints.PushOutContainment | src/constraints.js:25-30 | After the push, no position is strictly inside the sphere unless it sits at the centre. |
| Constraints.PushAll | src/constraints.js:24-31 | One sphere against every particle changes only positions, and leaves particles outside the sphere untouched. |
| Constraints.PushAllContainment | src/constraints.js:24-31 | After one sphere, every particle not at its centre is on or outside it. |
| Constraints.SphereSweep | src/constraints.js:20-34 | The ball constraint changes positions only: never `previous`, the rest position, acceleration or mass. |
| Constraints.SphereSweepLastContainment | src/constraints.js:22-32 | The spheres run in list order. After the sweep, no particle is strictly inside the last sphere unless it sits exactly at its centre. |
| ClothSim.Apply | src/cloth.js:183-185 | One registered closure, recast as the `Constraint` variant: a structural link, the floor, the pin or the ball constraint. Running it keeps length, rest positions, accelerations and masses. Every constraint but the pin changes positions only, and no constraint changes the `previous` of a particle the pin does not list. |
| ClothSim.ApplyAll | src/cloth.js:183-185 | Running the whole list keeps length, rest positions, accelerations and masses, and the `previous` of every particle the pin does not list. |
| ClothSim.ApplyAllFirst | src/cloth.js:183-185 | The sweep runs the first registered constraint first and then the rest, in registration order. |
| ClothSim.ClothConstraints | src/cloth.js:43-111 | The constructor registers the `2 * w * h + w` structural links in order, then the floor at -250, then the pin last. |
| ClothSim.ClothConstraintsFit | src/cloth.js:30-111 | With more than ten particles, every pin index and every link end of the constructor's list names an existing particle. |
| ClothSim.NewCloth | src/cloth.js:21-115 | The cloth has `(h + 1) * w` particles, with cell `(u, v)` at rest at `seed(u, v)` in slot `index(u, v, w)`. Its constraints are the constructor's list and its pins are the first eleven indices. |
| ClothSim.NewClothValid | src/cloth.js:21-115 | A grid of more than ten particles with non-zero mass gives a cloth whose constraints all refer to existing particles. |
| ClothSim.NewClothTooSmall | src/cloth.js:104-111 | The constructor always pins indices 0 to 10. So a grid of at most ten particles has a pin past its end and is never a valid cloth, which means `update` cannot run on it. In `cloth.js` that pin closure reads an undefined particle and throws. |
| ClothSim.Advance | src/cloth.js:177-180 | What `update` does to one particle before the constraints. The old position becomes `previous` and the acceleration is cleared. The new velocity is the old one damped by `DRAG`, plus the old acceleration and gravity divided by the mass, times `TIMESTEP_SQ`. |
| ClothSim.Update | src/cloth.js:147-194 | A frame keeps the cloth valid, its constraints, pins and mass, and every rest position and inverse mass. It clears every acceleration. Every particle the pin does not list ends the frame with `previous` equal to its position before the frame, the Verlet invariant. When the pin runs last, every pinned particle ends at its rest position with `previous` equal to it. |
| ClothSim.AddConstraint | src/cloth.js:195-197 | The new constraint runs after all existing ones, which are kept in order. A constraint that fits keeps the cloth valid. |
| ClothSim.UpdateFallsFromRest | src/cloth.js:177-180 | Without constraints, a resting particle moves by exactly `(0, -9.82 * TIMESTEP_SQ, 0)` in one frame. |
| ClothSim.PinnedAfterUpdate | src/cloth.js:104-111 | Whenever the pin is the last constraint, each pinned particle ends the frame with `position == previous == original`. |
| ClothSim.NewClothPinsHold | src/cloth.js:94-111 | A freshly built cloth of more than ten particles ends its first frame with each of the first eleven particles at rest where it started. |
| ClothSim.DemoClothValid | src/webgl/index.js:5-12 | The demo configuration (10 by 10 segments, mass 0.1) gives 110 particles and 212 constraints, and is a valid cloth. |
| Spawner.SpawnIfNeeded | src/index.js:109-133 | A call either changes nothing or adds exactly one ball and restarts the clock at `now`. Above 30 balls it never spawns. |
| Spawner.Threshold | src/index.js:113-126 | The wait before the next ball is between 300 ms and 1000 ms. |
| Spawner.SpawnsIffPastThreshold | src/index.js:109-133 | A ball is spawned if and only if there are at most 30 and the elapsed time exceeds 300 ms (more than 10 balls), 600 ms (more than 3) or 1000 ms (otherwise). |
| Spawner.OverdueSpawns | src/index.js:124-126 | With at most 30 balls, more than 1000 ms since the last one always spawns. |
| Spawner.TooSoonNeverSpawns | src/index.js:113-126 | Within 300 ms of the last ball nothing is spawned. |
| Spawner.SameInstantIdempotent | src/index.js:127-132 | A second call at the same instant never spawns again. |
| Spawner.Run | src/index.js:109-133 | A sequence of calls never removes a ball and adds at most one per call. |
| Spawner.RunBounded | src/index.js:110-132 | From at most 31 balls, no sequence of calls ever goes above 31. |
| Spawner.InitialRunBounded | src/index.js:27-29 | Starting from the page's single ball, there are never more than 31 balls. |
| Spawner.Frame | src/index.js:37-47 | One frame calls the rule once per ball over the growing list, yet spawns at most one ball and acts exactly like a single call. The timeless first frame spawns nothing. |
| Spawner.InitialSpawnsAfterOneSecond | src/index.js:108-126 | With the clock started at 0 as intended, the first call after one second adds the second ball. |
| Spawner.SpawnAsWritten | src/index.js:108-126 | With the clock not yet initialised, a call with at most 30 balls throws, because every path past the count guard reads the clock. Above 30 balls it returns without reading it. A returning call adds at most one ball. |
| Spawner.SpawnAsWrittenOnceInitialised | src/index.js:109-133 | Once the clock holds a value, the page's call is exactly the rule `SpawnIfNeeded`. |
| Spawner.FrameAsWritten | src/index.js:37-47 | A frame whose first call throws ends there with the state unchanged. With no clock and at most 30 balls, every frame leaves the state as it was. A frame adds at most one ball. |
| Spawner.FrameAsWrittenOnceInitialised | src/index.js:37-47 | With the clock initialised, a timed frame is one call of `SpawnIfNeeded`. |
| Spawner.RunAsWritten | src/index.js:37-47 | A sequence of frames never removes a ball. |
| Spawner.PageAsWrittenNeverSpawns | src/index.js:37-108 | From the page's real start (one ball, clock not initialised), the first call throws, and after any number of frames the page still has one ball and no clock. |

## Findings

| source | as written | input that shows it | evidently intended | confidence | as-written member | corrected member |
|---|---|---|---|---|---|---|
| src/index.js:37-133 | The `animate` frame function is invoked at line 47 during module evaluation. That is before `let timeLastAdded = 0` at line 108 runs, so the first `spawnIfNeeded` reads the clock before its initialisation and throws a ReferenceError at line 124. Module evaluation stops there, so every later frame throws at the same line. | The page start: one ball, the first frame with any time. | The clock starts at 0 before the first frame, and a ball is added once the threshold has elapsed. | not executed; high, given ES module `let` semantics | Spawner.PageAsWrittenNeverSpawns | Spawner.InitialSpawnsAfterOneSecond |

## Left out

- `hoop` and `hoopGeometry` (trigonometric surfaces): the surface point of each cell is the parameter `seed`.
- Wind and the aerodynamic force loop in `update`: they need trigonometry, normalisation and three.js index and normal buffers, and the `enableWind` flag is off.
- Mesh and render synchronisation, texture loading and `setPosition`: three.js rendering glue.
- Floating point: all arithmetic is exact over reals, and the square root is the abstract `norm` oracle.
- Particles.NewParticle: requires a non-zero mass. JavaScript would give an infinite inverse mass for mass 0, which has no real counterpart.
- Constraints.PushOut: a particle exactly at a sphere's centre stays where it is. three.js's normalisation of the zero vector is not part of this model.
- Constraints.SatisfyConstraint: the `debugger` statements for undefined particles are not modelled. Indices are required to be in range instead.
- ClothSim.Update: requires a valid cloth. In `cloth.js`, a pin index at or past the particle count makes the pin closure read an undefined particle and throw a TypeError, so any constructor cloth with `(h + 1) * w <= 10` crashes on its first update. `ClothSim.NewClothTooSmall` states exactly when this happens.
- Constraints.PinReset: requires every pin index to be below the particle count. `cloth.js` throws a TypeError on a pin past the end instead.
- ClothSim.Apply: a `Spheres` constraint holds one frame's sphere centres and radii. The page's ball constraint instead keeps a live reference to the growing `balls` list and reads each ball's position afresh every frame.
- Spawner.Frame: assumes the clock `timeLastAdded` already holds 0 when the first frame runs. In `index.js` it does not (see "## Findings"); `Spawner.FrameAsWritten` and `Spawner.PageAsWrittenNeverSpawns` model the order as written.
- `shouldReset` and `reset` of balls, and ball physics: they live in the ball and world wrappers around the physics engine, which are not part of this model.
- The page's world, renderer, camera, window resizing and rim bodies: DOM and engine set-up.
- The page's `Cloth(hoopGeometry, 10, 4, 10)` call: it does not match the constructor's `(segments, mass, pos, size)` signature. The model's constructor takes `w`, `h`, the mass and the seed directly.
- `src/world.js`, `src/3d.js` and `src/sphere.js`: thin wrappers over the physics engine, and random ball velocities.
