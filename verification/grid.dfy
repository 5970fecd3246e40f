/**
 * The discrete layout of the cloth built by the `Cloth` constructor: a grid
 * `w` particles wide and `h + 1` rows tall, numbered row by row, and the
 * structural links between neighbours in the order they are registered.
 * Each row closes on itself: the last column links back to column 0 at the
 * short seam distance.
 */
module Grid {
  import opened Vectors
  import opened Particles
  import opened RealArith

  const REST_DISTANCE: real := 0.5
  const SEAM_DISTANCE: real := 0.01

  /** `index(u, v, w)`: the particle in column `u` of row `v`. */
  function Index(u: nat, v: nat, w: nat): nat {
    u + v * w
  }

  lemma MulStepNat(a: nat, b: nat, c: nat)
    requires a < b
    ensures a * c + c <= b * c
  {
    assert b * c == a * c + c + (b - a - 1) * c;
  }

  lemma ModBelow(a: nat, m: nat)
    requires a < m
    ensures a % m == a
  {
  }

  lemma ModSelf(m: nat)
    requires m > 0
    ensures m % m == 0
  {
  }

  /** Every cell of the first `rows` rows has an index below `rows * w`. */
  lemma IndexInRange(u: nat, v: nat, w: nat, rows: nat)
    requires u < w && v < rows
    ensures Index(u, v, w) < rows * w
  {
    MulStepNat(v, rows, w);
  }

  /** Different cells have different indices. */
  lemma IndexInjective(u1: nat, v1: nat, u2: nat, v2: nat, w: nat)
    requires u1 < w && u2 < w
    requires Index(u1, v1, w) == Index(u2, v2, w)
    ensures u1 == u2 && v1 == v2
  {
    if v1 < v2 {
      MulStepNat(v1, v2, w);
      assert false;
    } else if v2 < v1 {
      MulStepNat(v2, v1, w);
      assert false;
    }
  }

  /** `taper(val, quantity)`: the rest distance `val` shortened row by row. */
  function Taper(val: real, quantity: nat): (r: real)
    ensures val > 0.0 ==> r > 0.0
    ensures quantity == 0 ==> r == val
  {
    val / (quantity as real / 8.0 + 1.0)
  }

  /** Lower rows get strictly shorter rest distances. */
  lemma TaperDecreasing(val: real, q1: nat, q2: nat)
    requires val > 0.0 && q1 < q2
    ensures Taper(val, q2) < Taper(val, q1)
  {
    DivAntitone(val, q1 as real / 8.0 + 1.0, q2 as real / 8.0 + 1.0);
  }

  /** A particle as the constructor leaves it: at its rest position, not moving, not accelerating, with inverse mass `1 / mass`. */
  predicate AtRest(p: Particle, mass: real) {
    p.position == p.original && p.previous == p.original && p.a == Zero && p.invMass * mass == 1.0
  }

  /** Row `v`'s first `n` particles, in the order the constructor creates them. */
  function RowParticles(v: nat, n: nat, seed: (nat, nat) -> Vec3, mass: real): (ps: seq<Particle>)
    requires mass != 0.0
    ensures |ps| == n
    ensures forall k :: 0 <= k < |ps| ==> AtRest(ps[k], mass)
  {
    if n == 0 then [] else RowParticles(v, n - 1, seed, mass) + [NewParticle(seed(n - 1, v), mass)]
  }

  /**
   * The particles of rows `0 .. rows - 1` of a grid `w` wide, in creation order.
   * `seed(u, v)` is where the surface function places cell `(u, v)`.
   */
  function GridParticles(w: nat, rows: nat, seed: (nat, nat) -> Vec3, mass: real): (ps: seq<Particle>)
    requires mass != 0.0
    ensures forall k :: 0 <= k < |ps| ==> AtRest(ps[k], mass)
  {
    if rows == 0 then [] else GridParticles(w, rows - 1, seed, mass) + RowParticles(rows - 1, w, seed, mass)
  }

  lemma {:induction false} RowParticlesLayout(v: nat, n: nat, seed: (nat, nat) -> Vec3, mass: real)
    requires mass != 0.0
    ensures |RowParticles(v, n, seed, mass)| == n
    ensures forall u: nat :: u < n ==> RowParticles(v, n, seed, mass)[u] == NewParticle(seed(u, v), mass)
  {
    if n > 0 {
      RowParticlesLayout(v, n - 1, seed, mass);
    }
  }

  lemma {:induction false} GridParticlesLength(w: nat, rows: nat, seed: (nat, nat) -> Vec3, mass: real)
    requires mass != 0.0
    ensures |GridParticles(w, rows, seed, mass)| == rows * w
  {
    if rows > 0 {
      GridParticlesLength(w, rows - 1, seed, mass);
      RowParticlesLayout(rows - 1, w, seed, mass);
      var n := (rows - 1) * w;
      assert rows * w == n + w;
    }
  }

  lemma {:induction false} GridParticlesCell(w: nat, rows: nat, seed: (nat, nat) -> Vec3, mass: real, u: nat, v: nat)
    requires mass != 0.0
    requires u < w && v < rows
    ensures Index(u, v, w) < |GridParticles(w, rows, seed, mass)|
    ensures GridParticles(w, rows, seed, mass)[Index(u, v, w)] == NewParticle(seed(u, v), mass)
  {
    var before := GridParticles(w, rows - 1, seed, mass);
    var row := RowParticles(rows - 1, w, seed, mass);
    GridParticlesLength(w, rows - 1, seed, mass);
    RowParticlesLayout(rows - 1, w, seed, mass);
    var n := (rows - 1) * w;
    var k := Index(u, v, w);
    if v < rows - 1 {
      GridParticlesCell(w, rows - 1, seed, mass, u, v);
      assert (before + row)[k] == before[k];
    } else {
      assert v * w == n;
      assert (before + row)[k] == row[u];
    }
  }

  /** Creating rows then columns puts cell `(u, v)` at position `index(u, v, w)`. */
  lemma GridParticlesLayout(w: nat, rows: nat, seed: (nat, nat) -> Vec3, mass: real)
    requires mass != 0.0
    ensures |GridParticles(w, rows, seed, mass)| == rows * w
    ensures forall u: nat, v: nat :: u < w && v < rows ==>
              Index(u, v, w) < |GridParticles(w, rows, seed, mass)| &&
              GridParticles(w, rows, seed, mass)[Index(u, v, w)] == NewParticle(seed(u, v), mass)
  {
    GridParticlesLength(w, rows, seed, mass);
    forall u: nat, v: nat | u < w && v < rows
      ensures Index(u, v, w) < |GridParticles(w, rows, seed, mass)|
      ensures GridParticles(w, rows, seed, mass)[Index(u, v, w)] == NewParticle(seed(u, v), mass)
    {
      GridParticlesCell(w, rows, seed, mass, u, v);
    }
  }

  /** A structural link: the particles at indices `i` and `j` are kept `distance` apart. */
  datatype Link = Link(i: nat, j: nat, distance: real)

  /** The link from `(u, v)` straight down to `(u, v + 1)`. */
  function Down(w: nat, u: nat, v: nat): (l: Link)
    ensures l.i == Index(u, v, w) && l.j == l.i + w
    ensures l.distance > 0.0
  {
    Link(Index(u, v, w), Index(u, v + 1, w), Taper(REST_DISTANCE, v))
  }

  /** The link from `(u, v)` to the next column; the last column wraps to column 0 at the seam distance. */
  function Across(w: nat, u: nat, v: nat): (l: Link)
    requires u < w
    ensures l.i == Index(u, v, w)
    ensures u + 1 < w ==> l.j == l.i + 1 && l.distance == Taper(REST_DISTANCE, v)
    ensures u + 1 == w ==> l.j + u == l.i && l.distance == SEAM_DISTANCE
    ensures l.distance > 0.0
  {
    if u + 1 < w then
      ModBelow(u + 1, w);
      Link(Index(u, v, w), Index((u + 1) % w, v, w), Taper(REST_DISTANCE, v))
    else
      ModSelf(w);
      Link(Index(u, v, w), Index((u + 1) % w, v, w), SEAM_DISTANCE)
  }

  /** Row `v`'s first `n` columns of links, each column registering its down link, then its across link. */
  function RowLinks(w: nat, v: nat, n: nat): (links: seq<Link>)
    requires n <= w
    ensures |links| == 2 * n
    ensures forall k :: 0 <= k < |links| ==> links[k].distance > 0.0
  {
    if n == 0 then [] else RowLinks(w, v, n - 1) + [Down(w, n - 1, v), Across(w, n - 1, v)]
  }

  /** The links of rows `0 .. rows - 1`. */
  function BodyLinks(w: nat, rows: nat): (links: seq<Link>)
    ensures forall k :: 0 <= k < |links| ==> links[k].distance > 0.0
  {
    if rows == 0 then [] else BodyLinks(w, rows - 1) + RowLinks(w, rows - 1, w)
  }

  /** The extra bottom row `h`, linked across only. */
  function BottomLinks(w: nat, h: nat, n: nat): (links: seq<Link>)
    requires n <= w
    ensures |links| == n
    ensures forall k :: 0 <= k < |links| ==> links[k].distance > 0.0
  {
    if n == 0 then [] else BottomLinks(w, h, n - 1) + [Across(w, n - 1, h)]
  }

  /** Every structural link of a `w` by `h + 1` cloth, in registration order. */
  function StructuralLinks(w: nat, h: nat): (links: seq<Link>)
    ensures forall k :: 0 <= k < |links| ==> links[k].distance > 0.0
  {
    BodyLinks(w, h) + BottomLinks(w, h, w)
  }

  lemma {:induction false} RowLinksLayout(w: nat, v: nat, n: nat)
    requires n <= w
    ensures |RowLinks(w, v, n)| == 2 * n
    ensures forall u: nat :: u < n ==> RowLinks(w, v, n)[2 * u] == Down(w, u, v)
    ensures forall u: nat :: u < n ==> RowLinks(w, v, n)[2 * u + 1] == Across(w, u, v)
  {
    if n > 0 {
      RowLinksLayout(w, v, n - 1);
    }
  }

  lemma {:induction false} BodyLinksLength(w: nat, rows: nat)
    ensures |BodyLinks(w, rows)| == 2 * (rows * w)
  {
    if rows > 0 {
      BodyLinksLength(w, rows - 1);
      RowLinksLayout(w, rows - 1, w);
      var n := (rows - 1) * w;
      assert rows * w == n + w;
    }
  }

  lemma {:induction false} BodyLinksCell(w: nat, rows: nat, u: nat, v: nat)
    requires u < w && v < rows
    ensures 2 * Index(u, v, w) + 1 < |BodyLinks(w, rows)|
    ensures BodyLinks(w, rows)[2 * Index(u, v, w)] == Down(w, u, v)
    ensures BodyLinks(w, rows)[2 * Index(u, v, w) + 1] == Across(w, u, v)
  {
    var before := BodyLinks(w, rows - 1);
    var row := RowLinks(w, rows - 1, w);
    BodyLinksLength(w, rows - 1);
    RowLinksLayout(w, rows - 1, w);
    var n := (rows - 1) * w;
    var k := Index(u, v, w);
    if v < rows - 1 {
      BodyLinksCell(w, rows - 1, u, v);
      assert (before + row)[2 * k] == before[2 * k];
      assert (before + row)[2 * k + 1] == before[2 * k + 1];
    } else {
      assert v * w == n;
      assert (before + row)[2 * k] == row[2 * u];
      assert (before + row)[2 * k + 1] == row[2 * u + 1];
    }
  }

  lemma {:induction false} BottomLinksLayout(w: nat, h: nat, n: nat)
    requires n <= w
    ensures |BottomLinks(w, h, n)| == n
    ensures forall u: nat :: u < n ==> BottomLinks(w, h, n)[u] == Across(w, u, h)
  {
    if n > 0 {
      BottomLinksLayout(w, h, n - 1);
    }
  }

  /** The constructor registers exactly `2*w*h + w` links. */
  lemma StructuralLinksLength(w: nat, h: nat)
    ensures |StructuralLinks(w, h)| == 2 * w * h + w
  {
    var body := BodyLinks(w, h);
    var bottom := BottomLinks(w, h, w);
    assert StructuralLinks(w, h) == body + bottom;
    BodyLinksLength(w, h);
    assert |bottom| == w;
    assert 2 * (h * w) == 2 * w * h;
  }

  /**
   * For cell `(u, v)` of the first `h` rows, its down link and then its across
   * link are registered at positions `2*index(u, v, w)` and one after.
   */
  lemma StructuralLinksCell(w: nat, h: nat, u: nat, v: nat)
    requires u < w && v < h
    ensures 2 * Index(u, v, w) + 1 < |StructuralLinks(w, h)|
    ensures StructuralLinks(w, h)[2 * Index(u, v, w)] == Down(w, u, v)
    ensures StructuralLinks(w, h)[2 * Index(u, v, w) + 1] == Across(w, u, v)
  {
    var body := BodyLinks(w, h);
    var bottom := BottomLinks(w, h, w);
    BodyLinksLength(w, h);
    assert |body| == 2 * w * h;
    BodyLinksCell(w, h, u, v);
    var k := 2 * Index(u, v, w);
    assert (body + bottom)[k] == body[k];
    assert (body + bottom)[k + 1] == body[k + 1];
  }

  /** After the first `h` rows come the across links of the bottom row, column by column. */
  lemma StructuralLinksBottom(w: nat, h: nat, u: nat)
    requires u < w
    ensures 2 * w * h + u < |StructuralLinks(w, h)|
    ensures StructuralLinks(w, h)[2 * w * h + u] == Across(w, u, h)
  {
    var body := BodyLinks(w, h);
    var bottom := BottomLinks(w, h, w);
    BodyLinksLength(w, h);
    BottomLinksLayout(w, h, w);
    assert |body| == 2 * w * h;
    assert (body + bottom)[2 * w * h + u] == bottom[u];
  }

  /** Both ends of every link are among the first `count` particles, and its target distance is positive. */
  predicate LinksFit(links: seq<Link>, count: nat) {
    forall k :: 0 <= k < |links| ==> links[k].i < count && links[k].j < count && links[k].distance > 0.0
  }

  lemma DownFits(w: nat, h: nat, u: nat, v: nat)
    requires u < w && v < h
    ensures Down(w, u, v).i < (h + 1) * w && Down(w, u, v).j < (h + 1) * w
    ensures Down(w, u, v).distance > 0.0
  {
    IndexInRange(u, v, w, h + 1);
    IndexInRange(u, v + 1, w, h + 1);
  }

  lemma AcrossFits(w: nat, h: nat, u: nat, v: nat)
    requires u < w && v <= h
    ensures Across(w, u, v).i < (h + 1) * w && Across(w, u, v).j < (h + 1) * w
    ensures Across(w, u, v).distance > 0.0
  {
    IndexInRange(u, v, w, h + 1);
    IndexInRange((u + 1) % w, v, w, h + 1);
  }

  lemma {:induction false} RowLinksFit(w: nat, h: nat, v: nat, n: nat)
    requires n <= w && v < h
    ensures LinksFit(RowLinks(w, v, n), (h + 1) * w)
  {
    if n > 0 {
      RowLinksFit(w, h, v, n - 1);
      DownFits(w, h, n - 1, v);
      AcrossFits(w, h, n - 1, v);
    }
  }

  lemma {:induction false} BodyLinksFit(w: nat, h: nat, rows: nat)
    requires rows <= h
    ensures LinksFit(BodyLinks(w, rows), (h + 1) * w)
  {
    if rows > 0 {
      BodyLinksFit(w, h, rows - 1);
      RowLinksFit(w, h, rows - 1, w);
    }
  }

  lemma {:induction false} BottomLinksFit(w: nat, h: nat, n: nat)
    requires n <= w
    ensures LinksFit(BottomLinks(w, h, n), (h + 1) * w)
  {
    if n > 0 {
      BottomLinksFit(w, h, n - 1);
      AcrossFits(w, h, n - 1, h);
    }
  }

  /**
   * Every registered link, the wrapping ones and the bottom row included, joins
   * two existing particles, and none has a zero target distance.
   */
  lemma StructuralLinksFit(w: nat, h: nat)
    ensures LinksFit(StructuralLinks(w, h), (h + 1) * w)
  {
    BodyLinksFit(w, h, h);
    BottomLinksFit(w, h, w);
  }

  /**
   * In every row the last column's across link closes the row onto column 0 at
   * the seam distance `0.01`; every other across link joins the next column at
   * the row's tapered rest distance.
   */
  lemma SeamLinks(w: nat, h: nat, u: nat, v: nat)
    requires u < w && v <= h
    ensures var k := if v < h then 2 * Index(u, v, w) + 1 else 2 * w * h + u;
            k < |StructuralLinks(w, h)| &&
            StructuralLinks(w, h)[k] ==
              if u + 1 == w then Link(Index(u, v, w), Index(0, v, w), SEAM_DISTANCE)
              else Link(Index(u, v, w), Index(u + 1, v, w), Taper(REST_DISTANCE, v))
  {
    var k := if v < h then 2 * Index(u, v, w) + 1 else 2 * w * h + u;
    if v < h {
      StructuralLinksCell(w, h, u, v);
    } else {
      StructuralLinksBottom(w, h, u);
    }
    assert StructuralLinks(w, h)[k] == Across(w, u, v);
    if u + 1 == w {
      ModSelf(w);
    } else {
      ModBelow(u + 1, w);
    }
  }
}
