/** Rigid motions, as the mapper uses them: an arbitrary group of poses, with the
    exponential of a constant angular rate and the lengths the odometry check
    compares. Nothing else about poses is ever used, so every theorem of this
    project holds for the poses of the program and for any other instance. */
module Motion {
  import opened Basics

  datatype Vec = Vec(x: real, y: real, z: real)

  function Sub(a: Vec, b: Vec): Vec {
    Vec(a.x - b.x, a.y - b.y, a.z - b.z)
  }

  /** `exp(w, dt)` is the rotation at rate `w` during `dt` ticks and `arc(w, dt)` the
      angle it turns; `rot` keeps the rotation of a pose; `dist` is the distance
      between two positions, `tnorm` and `ang` the size of the translation and of
      the rotation of a pose. */
  datatype Motions<!G(!new)> = Motions(
    one: G,
    mul: (G, G) -> G,
    inv: G -> G,
    exp: (Vec, int) -> G,
    arc: (Vec, int) -> real,
    rot: G -> G,
    dist: (G, G) -> real,
    tnorm: G -> real,
    ang: G -> real)

  // ----- The contract of an instance -----

  ghost predicate Associative<G(!new)>(m: Motions<G>, a: G, b: G, c: G) {
    m.mul(m.mul(a, b), c) == m.mul(a, m.mul(b, c))
  }

  ghost predicate Neutral<G(!new)>(m: Motions<G>, a: G) {
    m.mul(m.one, a) == a && m.mul(a, m.one) == a
  }

  ghost predicate Inverses<G(!new)>(m: Motions<G>, a: G) {
    m.mul(m.inv(a), a) == m.one && m.mul(a, m.inv(a)) == m.one
  }

  ghost predicate IsGroup<G(!new)>(m: Motions<G>) {
    && (forall a, b, c :: Associative(m, a, b, c))
    && (forall a :: Neutral(m, a))
    && (forall a :: Inverses(m, a))
  }

  ghost predicate Additive<G(!new)>(m: Motions<G>, w: Vec, s: int, t: int) {
    m.exp(w, s + t) == m.mul(m.exp(w, s), m.exp(w, t))
  }

  ghost predicate ArcsAdd<G(!new)>(m: Motions<G>, w: Vec, s: int, t: int) {
    m.arc(w, s + t) == m.arc(w, s) + m.arc(w, t)
  }

  ghost predicate IsFlow<G(!new)>(m: Motions<G>) {
    && (forall w, s, t :: Additive(m, w, s, t))
    && (forall w, s, t :: 0 <= s && 0 <= t ==> ArcsAdd(m, w, s, t))
  }

  ghost predicate LeftInvariant<G(!new)>(m: Motions<G>, g: G, a: G, b: G) {
    m.dist(m.mul(g, a), m.mul(g, b)) == m.dist(a, b)
  }

  ghost predicate IsMetric<G(!new)>(m: Motions<G>) {
    && (forall a, b :: m.dist(a, b) >= 0.0)
    && (forall g, a, b :: LeftInvariant(m, g, a, b))
    && m.tnorm(m.one) == 0.0
    && m.ang(m.one) == 0.0
  }

  // ----- The operators of the pose class -----

  /** Pose `b`, given relative to `a`, in the frame of `a` (operator +). */
  function Plus<G(!new)>(m: Motions<G>, a: G, b: G): G {
    m.mul(a, b)
  }

  /** Pose `a` as seen from `b` (operator -). */
  function Minus<G(!new)>(m: Motions<G>, a: G, b: G): G {
    m.mul(m.inv(b), a)
  }

  lemma PlusMinus<G(!new)>(m: Motions<G>, a: G, b: G)
    requires IsGroup(m)
    ensures Plus(m, b, Minus(m, a, b)) == a
  {
    assert Associative(m, b, m.inv(b), a) && Inverses(m, b) && Neutral(m, a);
  }

  lemma MinusPlus<G(!new)>(m: Motions<G>, b: G, c: G)
    requires IsGroup(m)
    ensures Minus(m, Plus(m, b, c), b) == c
  {
    assert Associative(m, m.inv(b), b, c) && Inverses(m, b) && Neutral(m, c);
  }

  lemma MinusSelf<G(!new)>(m: Motions<G>, a: G)
    requires IsGroup(m)
    ensures Minus(m, a, a) == m.one
  {
    assert Inverses(m, a);
  }

  /** Increments compose: a to b, then b to c, is a to c. */
  lemma MinusTelescopes<G(!new)>(m: Motions<G>, a: G, b: G, c: G)
    requires IsGroup(m)
    ensures Plus(m, Minus(m, b, a), Minus(m, c, b)) == Minus(m, c, a)
  {
    PlusMinus(m, c, b);
    assert Associative(m, m.inv(a), b, Minus(m, c, b));
  }

  /** One element solves `Plus(b, x) == a`. */
  lemma MinusUnique<G(!new)>(m: Motions<G>, a: G, b: G, x: G)
    requires IsGroup(m) && Plus(m, b, x) == a
    ensures x == Minus(m, a, b)
  {
    MinusPlus(m, b, x);
  }

  lemma InvInv<G(!new)>(m: Motions<G>, a: G)
    requires IsGroup(m)
    ensures m.inv(m.inv(a)) == a
  {
    assert Inverses(m, a) && Inverses(m, m.inv(a));
    assert Associative(m, m.inv(m.inv(a)), m.inv(a), a);
    assert Neutral(m, a) && Neutral(m, m.inv(m.inv(a)));
  }

  lemma InvMul<G(!new)>(m: Motions<G>, a: G, b: G)
    requires IsGroup(m)
    ensures m.inv(m.mul(a, b)) == m.mul(m.inv(b), m.inv(a))
  {
    var ab, x := m.mul(a, b), m.mul(m.inv(b), m.inv(a));
    MinusPlus(m, a, b);                                   // inv(a) * ab == b
    assert Associative(m, m.inv(b), m.inv(a), ab) && Inverses(m, b);
    assert m.mul(x, ab) == m.one;
    assert Associative(m, x, ab, m.inv(ab)) && Inverses(m, ab) && Neutral(m, x) && Neutral(m, m.inv(ab));
  }

  /** Increments do not see a rigid motion of both poses. */
  lemma MinusLeftInvariant<G(!new)>(m: Motions<G>, g: G, a: G, b: G)
    requires IsGroup(m)
    ensures Minus(m, m.mul(g, a), m.mul(g, b)) == Minus(m, a, b)
  {
    InvMul(m, g, b);
    assert Associative(m, m.inv(b), m.inv(g), m.mul(g, a));
    MinusPlus(m, g, a);
  }

  // ----- An instance: integer translations with quarter turns -----

  type Quarter = q: int | 0 <= q < 4

  datatype Grid = Grid(x: int, y: int, turn: Quarter)

  function TurnX(q: Quarter, x: int, y: int): int {
    if q == 0 then x else if q == 1 then -y else if q == 2 then -x else y
  }

  function TurnY(q: Quarter, x: int, y: int): int {
    if q == 0 then y else if q == 1 then x else if q == 2 then -y else -x
  }

  function GridMul(a: Grid, b: Grid): Grid {
    Grid(a.x + TurnX(a.turn, b.x, b.y), a.y + TurnY(a.turn, b.x, b.y), (a.turn + b.turn) % 4)
  }

  function GridInv(a: Grid): Grid {
    var q: Quarter := (4 - a.turn) % 4;
    Grid(-TurnX(q, a.x, a.y), -TurnY(q, a.x, a.y), q)
  }

  function GridExp(w: Vec, dt: int): Grid {
    Grid(0, 0, Turns(w.z.Floor, dt))
  }

  function Turns(quarters: int, dt: int): Quarter {
    (quarters * dt) % 4
  }

  function GridArc(w: Vec, dt: int): real {
    (Abs(w.z.Floor) * Abs(dt)) as real
  }

  function Length(x: int, y: int): real {
    (Abs(x) + Abs(y)) as real
  }

  function GridMotions(): Motions<Grid> {
    Motions(
      Grid(0, 0, 0),
      GridMul,
      GridInv,
      GridExp,
      GridArc,
      (a: Grid) => Grid(0, 0, a.turn),
      (a: Grid, b: Grid) => Length(a.x - b.x, a.y - b.y),
      (a: Grid) => Length(a.x, a.y),
      (a: Grid) => 90.0 * (a.turn as real))
  }

  lemma TurnIsLinear(q: Quarter, x: int, y: int, u: int, v: int)
    ensures TurnX(q, x + u, y + v) == TurnX(q, x, y) + TurnX(q, u, v)
    ensures TurnY(q, x + u, y + v) == TurnY(q, x, y) + TurnY(q, u, v)
  {
  }

  lemma TurnTwice(p: Quarter, q: Quarter, x: int, y: int)
    ensures TurnX((p + q) % 4, x, y) == TurnX(p, TurnX(q, x, y), TurnY(q, x, y))
    ensures TurnY((p + q) % 4, x, y) == TurnY(p, TurnX(q, x, y), TurnY(q, x, y))
  {
  }

  lemma TurnBy0(x: int, y: int)
    ensures TurnX(0, x, y) == x && TurnY(0, x, y) == y
  {
  }

  lemma TurnOf0(q: Quarter)
    ensures TurnX(q, 0, 0) == 0 && TurnY(q, 0, 0) == 0
  {
  }

  lemma GridAssociative(a: Grid, b: Grid, c: Grid)
    ensures GridMul(GridMul(a, b), c) == GridMul(a, GridMul(b, c))
  {
    hide TurnX, TurnY;
    TurnTwice(a.turn, b.turn, c.x, c.y);
    TurnIsLinear(a.turn, b.x, b.y, TurnX(b.turn, c.x, c.y), TurnY(b.turn, c.x, c.y));
  }

  lemma GridInverses(a: Grid)
    ensures GridMul(GridInv(a), a) == Grid(0, 0, 0) && GridMul(a, GridInv(a)) == Grid(0, 0, 0)
  {
    hide TurnX, TurnY;
    var q: Quarter := (4 - a.turn) % 4;
    var x, y := TurnX(q, a.x, a.y), TurnY(q, a.x, a.y);
    TurnTwice(a.turn, q, a.x, a.y);
    TurnBy0(a.x, a.y);
    TurnIsLinear(a.turn, x, y, -x, -y);
    TurnBy0(0, 0);
    TurnOf0(a.turn);
  }

  lemma GridGroup()
    ensures IsGroup(GridMotions())
  {
    var m := GridMotions();
    forall a: Grid, b: Grid, c: Grid ensures Associative(m, a, b, c) {
      GridAssociative(a, b, c);
    }
    forall a: Grid ensures Inverses(m, a) && Neutral(m, a) {
      GridInverses(a);
    }
  }

  lemma ModAdd(a: int, b: int)
    ensures (a + b) % 4 == (a % 4 + b % 4) % 4
  {
  }

  lemma TurnsAdd(k: int, s: int, t: int)
    ensures Turns(k, s + t) == (Turns(k, s) + Turns(k, t)) % 4
  {
    ModAdd(k * s, k * t);
    assert k * (s + t) == k * s + k * t;
  }

  lemma GridArcsAdd(w: Vec, s: int, t: int)
    requires 0 <= s && 0 <= t
    ensures GridArc(w, s + t) == GridArc(w, s) + GridArc(w, t)
  {
    var k := Abs(w.z.Floor);
    assert k * (s + t) == k * s + k * t;
  }

  lemma GridFlow()
    ensures IsFlow(GridMotions())
  {
    forall w: Vec, s: int, t: int ensures Additive(GridMotions(), w, s, t) {
      TurnsAdd(w.z.Floor, s, t);
      assert GridMul(GridExp(w, s), GridExp(w, t)) == GridExp(w, s + t);
    }
    forall w: Vec, s: int, t: int | 0 <= s && 0 <= t ensures ArcsAdd(GridMotions(), w, s, t) {
      GridArcsAdd(w, s, t);
    }
  }

  lemma LengthOfTurned(q: Quarter, x: int, y: int)
    ensures Length(TurnX(q, x, y), TurnY(q, x, y)) == Length(x, y)
  {
  }

  lemma GridMetric()
    ensures IsMetric(GridMotions())
  {
    hide TurnX, TurnY;
    var m := GridMotions();
    forall g: Grid, a: Grid, b: Grid ensures LeftInvariant(m, g, a, b) {
      TurnIsLinear(g.turn, a.x - b.x, a.y - b.y, b.x, b.y);
      LengthOfTurned(g.turn, a.x - b.x, a.y - b.y);
      assert Length(GridMul(g, a).x - GridMul(g, b).x, GridMul(g, a).y - GridMul(g, b).y)
          == Length(a.x - b.x, a.y - b.y);
    }
  }

  /** The contract is consistent, and neither group nor rotations are trivial. */
  lemma GridIsAnInstance()
    ensures IsGroup(GridMotions()) && IsFlow(GridMotions()) && IsMetric(GridMotions())
    ensures GridMul(Grid(1, 0, 0), Grid(0, 0, 1)) != GridMul(Grid(0, 0, 1), Grid(1, 0, 0))
    ensures exists w :: GridExp(w, 1) != GridExp(w, 2)
  {
    GridGroup();
    GridFlow();
    GridMetric();
    assert GridExp(Vec(0.0, 0.0, 1.0), 1) != GridExp(Vec(0.0, 0.0, 1.0), 2);
  }
}
