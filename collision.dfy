/**
 * The two-ball collision resolver (SimulationForm.CheckBallCollision in
 * CollisionRender/Program.cs) as pure functions on ball states, with the
 * physics it promises proved about them: the one-dimensional elastic formula
 * conserves momentum and kinetic energy along the normal and, for positive
 * masses, is the only non-trivial way to do so, the tangential components are
 * untouched, and the positional correction leaves the two centres exactly
 * one radius sum apart around the same midpoint.
 */
module Collision {
  import opened Geometry
  import opened Bodies

  /** The tangent of a unit normal `n`: `n` turned a quarter turn. */
  function Tangent(n: Point): Point {
    Point(-n.Y, n.X)
  }

  /** The tangent is perpendicular to the normal and just as long. */
  lemma TangentOrthogonal(n: Point)
    ensures Dot(Tangent(n), n) == 0.0
    ensures NormSq(Tangent(n)) == NormSq(n)
  {
  }

  /** The velocity whose tangential scalar is `tan` and whose normal scalar is `nor`. */
  function Compose(t: Point, tan: real, n: Point, nor: real): Point {
    Point(t.X * tan + n.X * nor, t.Y * tan + n.Y * nor)
  }

  /**
   * The one-dimensional elastic collision of two masses moving along the
   * normal with speeds `u1` and `u2`: the two new normal speeds.
   */
  function ElasticNormal(u1: real, u2: real, m1: real, m2: real): (real, real)
    requires m1 + m2 != 0.0
  {
    ((u1 * (m1 - m2) + 2.0 * m2 * u2) / (m1 + m2),
     (u2 * (m2 - m1) + 2.0 * m1 * u1) / (m1 + m2))
  }

  /** The velocity of the centre of mass along the normal. */
  function CentreVelocity(u1: real, u2: real, m1: real, m2: real): real
    requires m1 + m2 != 0.0
  {
    (m1 * u1 + m2 * u2) / (m1 + m2)
  }

  /** Each ball's normal speed is reflected about the centre-of-mass speed. */
  lemma ElasticReflectsAboutCentre(u1: real, u2: real, m1: real, m2: real)
    requires m1 + m2 != 0.0
    ensures var c := CentreVelocity(u1, u2, m1, m2);
      ElasticNormal(u1, u2, m1, m2) == (2.0 * c - u1, 2.0 * c - u2)
  {
    var c := CentreVelocity(u1, u2, m1, m2);
    var w := ElasticNormal(u1, u2, m1, m2);
    assert c * (m1 + m2) == m1 * u1 + m2 * u2;
    assert w.0 * (m1 + m2) == u1 * (m1 - m2) + 2.0 * m2 * u2;
    assert w.1 * (m1 + m2) == u2 * (m2 - m1) + 2.0 * m1 * u1;
    assert (2.0 * c - u1) * (m1 + m2) == u1 * (m1 - m2) + 2.0 * m2 * u2;
    assert (2.0 * c - u2) * (m1 + m2) == u2 * (m2 - m1) + 2.0 * m1 * u1;
    CancelNonZero(w.0, 2.0 * c - u1, m1 + m2);
    CancelNonZero(w.1, 2.0 * c - u2, m1 + m2);
  }

  lemma CancelNonZero(a: real, b: real, k: real)
    requires k != 0.0 && a * k == b * k
    ensures a == b
  {
    assert (a - b) * k == 0.0;
  }

  /** Dividing by a non-zero number and multiplying back gives the number again. */
  lemma DivTimes(a: real, k: real)
    requires k != 0.0
    ensures (a / k) * k == a
  {
  }

  /** Momentum along the normal is conserved: m1*u1 + m2*u2. */
  lemma ElasticMomentum(u1: real, u2: real, m1: real, m2: real)
    requires m1 + m2 != 0.0
    ensures var w := ElasticNormal(u1, u2, m1, m2);
      m1 * w.0 + m2 * w.1 == m1 * u1 + m2 * u2
  {
    ElasticReflectsAboutCentre(u1, u2, m1, m2);
    var c := CentreVelocity(u1, u2, m1, m2);
    assert c * (m1 + m2) == m1 * u1 + m2 * u2;
    assert m1 * (2.0 * c - u1) + m2 * (2.0 * c - u2) == 2.0 * (c * (m1 + m2)) - (m1 * u1 + m2 * u2);
  }

  /** Kinetic energy along the normal is conserved: m1*u1^2 + m2*u2^2. */
  lemma ElasticEnergy(u1: real, u2: real, m1: real, m2: real)
    requires m1 + m2 != 0.0
    ensures var w := ElasticNormal(u1, u2, m1, m2);
      m1 * Sq(w.0) + m2 * Sq(w.1) == m1 * Sq(u1) + m2 * Sq(u2)
  {
    ElasticReflectsAboutCentre(u1, u2, m1, m2);
    var c := CentreVelocity(u1, u2, m1, m2);
    assert c * (m1 + m2) == m1 * u1 + m2 * u2;
    assert Sq(2.0 * c - u1) == 4.0 * Sq(c) - 4.0 * c * u1 + Sq(u1);
    assert Sq(2.0 * c - u2) == 4.0 * Sq(c) - 4.0 * c * u2 + Sq(u2);
    assert m1 * Sq(2.0 * c - u1) + m2 * Sq(2.0 * c - u2)
        == 4.0 * c * (c * (m1 + m2) - (m1 * u1 + m2 * u2)) + m1 * Sq(u1) + m2 * Sq(u2);
  }

  /** The relative velocity along the normal is reversed. */
  lemma ElasticReversesApproach(u1: real, u2: real, m1: real, m2: real)
    requires m1 + m2 != 0.0
    ensures var w := ElasticNormal(u1, u2, m1, m2);
      w.0 - w.1 == u2 - u1
  {
    ElasticReflectsAboutCentre(u1, u2, m1, m2);
  }

  /** Equal masses exchange their normal speeds. */
  lemma ElasticEqualMassesSwap(u1: real, u2: real, m: real)
    requires m != 0.0
    ensures ElasticNormal(u1, u2, m, m) == (u2, u1)
  {
    ElasticReflectsAboutCentre(u1, u2, m, m);
    assert m + m != 0.0;
    DivTimes(m * u1 + m * u2, m + m);
    assert CentreVelocity(u1, u2, m, m) * (m + m) == m * u1 + m * u2;
    assert CentreVelocity(u1, u2, m, m) * (m + m) == ((u1 + u2) / 2.0) * (m + m);
    CancelNonZero(CentreVelocity(u1, u2, m, m), (u1 + u2) / 2.0, m + m);
  }

  /**
   * For positive masses the elastic formula is the only outcome other than
   * "nothing happens" that conserves both momentum and kinetic energy.
   */
  lemma ElasticUnique(u1: real, u2: real, m1: real, m2: real, x1: real, x2: real)
    requires 0.0 < m1 && 0.0 < m2
    requires m1 * x1 + m2 * x2 == m1 * u1 + m2 * u2
    requires m1 * Sq(x1) + m2 * Sq(x2) == m1 * Sq(u1) + m2 * Sq(u2)
    ensures (x1, x2) == (u1, u2) || (x1, x2) == ElasticNormal(u1, u2, m1, m2)
  {
    ExchangeFactors(u1, u2, m1, m2, x1, x2);
    if x1 == u1 {
      assert m2 * (x2 - u2) == 0.0 * m2;
      CancelNonZero(x2 - u2, 0.0, m2);
    } else {
      NonZeroProduct(m1, x1 - u1);
      assert ((x1 + u1) - (x2 + u2)) * (m1 * (x1 - u1)) == 0.0 * (m1 * (x1 - u1));
      CancelNonZero((x1 + u1) - (x2 + u2), 0.0, m1 * (x1 - u1));
      ReflectedSolution(u1, u2, m1, m2, x1, x2);
    }
  }

  /**
   * With momentum and energy conserved, the momentum passed from ball 2 to
   * ball 1 times the change of relative speed is zero.
   */
  lemma ExchangeFactors(u1: real, u2: real, m1: real, m2: real, x1: real, x2: real)
    requires m1 * x1 + m2 * x2 == m1 * u1 + m2 * u2
    requires m1 * Sq(x1) + m2 * Sq(x2) == m1 * Sq(u1) + m2 * Sq(u2)
    ensures m2 * (x2 - u2) == -(m1 * (x1 - u1))
    ensures (m1 * (x1 - u1)) * ((x1 + u1) - (x2 + u2)) == 0.0
  {
    Distrib(m1, x1, u1);
    Distrib(m2, x2, u2);
    DiffSquares(x1, u1);
    DiffSquares(x2, u2);
    Distrib(m1, Sq(x1), Sq(u1));
    Distrib(m2, Sq(x2), Sq(u2));
    Assoc(m1, x1 - u1, x1 + u1);
    Assoc(m2, x2 - u2, x2 + u2);
    FactorStep(m1 * (x1 - u1), m2 * (x2 - u2), x1 + u1, x2 + u2);
  }

  lemma Distrib(m: real, a: real, b: real)
    ensures m * (a - b) == m * a - m * b
  {
  }

  lemma Assoc(m: real, a: real, b: real)
    ensures m * (a * b) == (m * a) * b
  {
  }

  lemma FactorStep(p: real, q: real, y1: real, y2: real)
    requires q == -p && p * y1 + q * y2 == 0.0
    ensures p * (y1 - y2) == 0.0
  {
    assert q * y2 == -(p * y2);
  }

  /** Momentum conserved and relative velocity reversed: that is the elastic formula. */
  lemma ReflectedSolution(u1: real, u2: real, m1: real, m2: real, x1: real, x2: real)
    requires 0.0 < m1 && 0.0 < m2
    requires m1 * x1 + m2 * x2 == m1 * u1 + m2 * u2
    requires x1 - x2 == u2 - u1
    ensures (x1, x2) == ElasticNormal(u1, u2, m1, m2)
  {
    var w := ElasticNormal(u1, u2, m1, m2);
    assert x1 * (m1 + m2) == m1 * x1 + m2 * x2 + m2 * (x1 - x2);
    assert x1 * (m1 + m2) == u1 * (m1 - m2) + 2.0 * m2 * u2;
    assert w.0 * (m1 + m2) == u1 * (m1 - m2) + 2.0 * m2 * u2;
    CancelNonZero(x1, w.0, m1 + m2);
    ElasticReversesApproach(u1, u2, m1, m2);
  }

  lemma DiffSquares(x: real, y: real)
    ensures Sq(x) - Sq(y) == (x - y) * (x + y)
  {
  }

  lemma NonZeroProduct(a: real, b: real)
    requires a != 0.0 && b != 0.0
    ensures a * b != 0.0
  {
  }

  /**
   * A ball seen in the basis (tangent, normal): composing the two scalars of
   * any vector gives the vector back.
   */
  lemma Decompose(v: Point, n: Point)
    requires NormSq(n) == 1.0
    ensures Compose(Tangent(n), Dot(v, Tangent(n)), n, Dot(v, n)) == v
  {
    var c := Compose(Tangent(n), Dot(v, Tangent(n)), n, Dot(v, n));
    assert c.X == v.X * (Sq(n.X) + Sq(n.Y));
    assert c.Y == v.Y * (Sq(n.X) + Sq(n.Y));
  }

  /** The scalars of a composed velocity are the ones it was composed from, and its length is Pythagoras'. */
  lemma ComposeComponents(n: Point, tan: real, nor: real)
    requires NormSq(n) == 1.0
    ensures var c := Compose(Tangent(n), tan, n, nor);
      && Dot(c, Tangent(n)) == tan
      && Dot(c, n) == nor
      && NormSq(c) == Sq(tan) + Sq(nor)
  {
    var t := Tangent(n);
    var c := Compose(t, tan, n, nor);
    assert Dot(c, t) == tan * (Sq(n.X) + Sq(n.Y));
    assert Dot(c, n) == nor * (Sq(n.X) + Sq(n.Y));
    assert NormSq(c) == (Sq(tan) + Sq(nor)) * (Sq(n.X) + Sq(n.Y));
  }

  /**
   * The two balls can be resolved by the division-based formulas: when they
   * overlap, their centres differ and their masses do not cancel.
   */
  predicate Resolvable(a: BallState, b: BallState) {
    Overlaps(a.Position, b.Position, a.Radius + b.Radius) ==> a.Position != b.Position && a.Mass + b.Mass != 0.0
  }

  /** The unit normal from the second ball to the first, given their distance. */
  function Normal(a: BallState, b: BallState, distance: real): (n: Point)
    requires 0.0 < distance && IsDistance(distance, a.Position, b.Position)
    ensures NormSq(n) == 1.0
    ensures Scale(distance, n) == Sub(a.Position, b.Position)
  {
    UnitOf(Sub(a.Position, b.Position), distance)
  }

  /**
   * What CheckBallCollision does to the two balls, given the distance of their
   * centres: nothing when they are at least one radius sum apart; otherwise
   * the elastic exchange along the normal and a push apart by half the
   * overlap each.
   */
  function Resolve(a: BallState, b: BallState, distance: real): (r: (BallState, BallState))
    requires IsDistance(distance, a.Position, b.Position) && Resolvable(a, b)
    ensures r.0.Mass == a.Mass && r.0.Radius == a.Radius && r.1.Mass == b.Mass && r.1.Radius == b.Radius
    ensures a.Radius + b.Radius <= distance ==> r == (a, b)
  {
    var minDistance := a.Radius + b.Radius;
    if minDistance <= distance then (a, b)
    else
      DistanceFacts(distance, a.Position, b.Position, minDistance);
      var normal := Normal(a, b, distance);
      var tangent := Tangent(normal);
      var w := ElasticNormal(Dot(a.Velocity, normal), Dot(b.Velocity, normal), a.Mass, b.Mass);
      var overlap := minDistance - distance;
      (a.(Velocity := Compose(tangent, Dot(a.Velocity, tangent), normal, w.0),
          Position := Point(a.Position.X + normal.X * overlap / 2.0, a.Position.Y + normal.Y * overlap / 2.0)),
       b.(Velocity := Compose(tangent, Dot(b.Velocity, tangent), normal, w.1),
          Position := Point(b.Position.X - normal.X * overlap / 2.0, b.Position.Y - normal.Y * overlap / 2.0)))
  }

  /** The balls collide: closer than one radius sum, and resolvable. */
  predicate Colliding(a: BallState, b: BallState, distance: real) {
    IsDistance(distance, a.Position, b.Position) && Resolvable(a, b) && distance < a.Radius + b.Radius
  }

  lemma CollidingFacts(a: BallState, b: BallState, distance: real)
    requires Colliding(a, b, distance)
    ensures 0.0 < distance && a.Mass + b.Mass != 0.0
  {
    DistanceFacts(distance, a.Position, b.Position, a.Radius + b.Radius);
  }

  /**
   * A collision keeps each ball's tangential scalar and gives each ball the
   * normal scalar of the elastic formula applied to the old normal scalars.
   */
  lemma ResolveComponents(a: BallState, b: BallState, distance: real)
    requires Colliding(a, b, distance)
    ensures (CollidingFacts(a, b, distance);
      var n := Normal(a, b, distance);
      var t := Tangent(n);
      var r := Resolve(a, b, distance);
      var w := ElasticNormal(Dot(a.Velocity, n), Dot(b.Velocity, n), a.Mass, b.Mass);
      && Dot(r.0.Velocity, t) == Dot(a.Velocity, t) && Dot(r.1.Velocity, t) == Dot(b.Velocity, t)
      && Dot(r.0.Velocity, n) == w.0 && Dot(r.1.Velocity, n) == w.1)
  {
    CollidingFacts(a, b, distance);
    var n := Normal(a, b, distance);
    var t := Tangent(n);
    var w := ElasticNormal(Dot(a.Velocity, n), Dot(b.Velocity, n), a.Mass, b.Mass);
    ComposeComponents(n, Dot(a.Velocity, t), w.0);
    ComposeComponents(n, Dot(b.Velocity, t), w.1);
  }

  /** Momentum along the normal is conserved by a collision. */
  lemma ResolveNormalMomentum(a: BallState, b: BallState, distance: real)
    requires Colliding(a, b, distance)
    ensures (CollidingFacts(a, b, distance);
      var n := Normal(a, b, distance);
      var r := Resolve(a, b, distance);
      a.Mass * Dot(r.0.Velocity, n) + b.Mass * Dot(r.1.Velocity, n)
        == a.Mass * Dot(a.Velocity, n) + b.Mass * Dot(b.Velocity, n))
  {
    CollidingFacts(a, b, distance);
    var n := Normal(a, b, distance);
    ResolveComponents(a, b, distance);
    ElasticMomentum(Dot(a.Velocity, n), Dot(b.Velocity, n), a.Mass, b.Mass);
  }

  /** Kinetic energy along the normal is conserved by a collision. */
  lemma ResolveNormalEnergy(a: BallState, b: BallState, distance: real)
    requires Colliding(a, b, distance)
    ensures (CollidingFacts(a, b, distance);
      var n := Normal(a, b, distance);
      var r := Resolve(a, b, distance);
      a.Mass * Sq(Dot(r.0.Velocity, n)) + b.Mass * Sq(Dot(r.1.Velocity, n))
        == a.Mass * Sq(Dot(a.Velocity, n)) + b.Mass * Sq(Dot(b.Velocity, n)))
  {
    CollidingFacts(a, b, distance);
    var n := Normal(a, b, distance);
    ResolveComponents(a, b, distance);
    ElasticEnergy(Dot(a.Velocity, n), Dot(b.Velocity, n), a.Mass, b.Mass);
  }

  /** Equal masses exchange their normal scalars and keep their tangential ones. */
  lemma ResolveEqualMassesSwap(a: BallState, b: BallState, distance: real)
    requires Colliding(a, b, distance) && a.Mass == b.Mass
    ensures (CollidingFacts(a, b, distance);
      var n := Normal(a, b, distance);
      var r := Resolve(a, b, distance);
      Dot(r.0.Velocity, n) == Dot(b.Velocity, n) && Dot(r.1.Velocity, n) == Dot(a.Velocity, n))
  {
    CollidingFacts(a, b, distance);
    var n := Normal(a, b, distance);
    ResolveComponents(a, b, distance);
    ElasticEqualMassesSwap(Dot(a.Velocity, n), Dot(b.Velocity, n), a.Mass);
  }

  /** Weighted sums of composed velocities are composed from the weighted sums of their scalars. */
  lemma MomentumCompose(t: Point, n: Point, s1: real, w1: real, s2: real, w2: real, m1: real, m2: real)
    ensures Add(Scale(m1, Compose(t, s1, n, w1)), Scale(m2, Compose(t, s2, n, w2)))
         == Compose(t, m1 * s1 + m2 * s2, n, m1 * w1 + m2 * w2)
  {
    assert m1 * (t.X * s1 + n.X * w1) + m2 * (t.X * s2 + n.X * w2)
        == t.X * (m1 * s1 + m2 * s2) + n.X * (m1 * w1 + m2 * w2);
    assert m1 * (t.Y * s1 + n.Y * w1) + m2 * (t.Y * s2 + n.Y * w2)
        == t.Y * (m1 * s1 + m2 * s2) + n.Y * (m1 * w1 + m2 * w2);
  }

  /** The total momentum vector m1*v1 + m2*v2 is conserved by a collision. */
  lemma ResolveMomentum(a: BallState, b: BallState, distance: real)
    requires Colliding(a, b, distance)
    ensures (CollidingFacts(a, b, distance);
      var r := Resolve(a, b, distance);
      Add(Scale(a.Mass, r.0.Velocity), Scale(b.Mass, r.1.Velocity))
        == Add(Scale(a.Mass, a.Velocity), Scale(b.Mass, b.Velocity)))
  {
    CollidingFacts(a, b, distance);
    var n := Normal(a, b, distance);
    var t := Tangent(n);
    var u1, u2 := Dot(a.Velocity, n), Dot(b.Velocity, n);
    var s1, s2 := Dot(a.Velocity, t), Dot(b.Velocity, t);
    var w := ElasticNormal(u1, u2, a.Mass, b.Mass);
    ElasticMomentum(u1, u2, a.Mass, b.Mass);
    Decompose(a.Velocity, n);
    Decompose(b.Velocity, n);
    var r := Resolve(a, b, distance);
    MomentumFromScalars(t, n, s1, s2, u1, u2, w.0, w.1, a.Mass, b.Mass,
      a.Velocity, b.Velocity, r.0.Velocity, r.1.Velocity);
  }

  /**
   * Two pairs of velocities with the same tangential scalars, and normal
   * scalars of equal momentum, have equal momentum vectors.
   */
  lemma MomentumFromScalars(t: Point, n: Point, s1: real, s2: real, u1: real, u2: real, w1: real, w2: real,
                            m1: real, m2: real, v1: Point, v2: Point, x1: Point, x2: Point)
    requires v1 == Compose(t, s1, n, u1) && v2 == Compose(t, s2, n, u2)
    requires x1 == Compose(t, s1, n, w1) && x2 == Compose(t, s2, n, w2)
    requires m1 * w1 + m2 * w2 == m1 * u1 + m2 * u2
    ensures Add(Scale(m1, x1), Scale(m2, x2)) == Add(Scale(m1, v1), Scale(m2, v2))
  {
    MomentumCompose(t, n, s1, w1, s2, w2, m1, m2);
    MomentumCompose(t, n, s1, u1, s2, u2, m1, m2);
  }

  /** The total kinetic energy m1*|v1|^2 + m2*|v2|^2 is conserved by a collision. */
  lemma ResolveEnergy(a: BallState, b: BallState, distance: real)
    requires Colliding(a, b, distance)
    ensures (CollidingFacts(a, b, distance);
      var r := Resolve(a, b, distance);
      a.Mass * NormSq(r.0.Velocity) + b.Mass * NormSq(r.1.Velocity)
        == a.Mass * NormSq(a.Velocity) + b.Mass * NormSq(b.Velocity))
  {
    CollidingFacts(a, b, distance);
    var n := Normal(a, b, distance);
    var t := Tangent(n);
    var u1, u2 := Dot(a.Velocity, n), Dot(b.Velocity, n);
    var s1, s2 := Dot(a.Velocity, t), Dot(b.Velocity, t);
    var w := ElasticNormal(u1, u2, a.Mass, b.Mass);
    ElasticEnergy(u1, u2, a.Mass, b.Mass);
    Decompose(a.Velocity, n);
    Decompose(b.Velocity, n);
    ComposeComponents(n, s1, u1);
    ComposeComponents(n, s2, u2);
    ComposeComponents(n, s1, w.0);
    ComposeComponents(n, s2, w.1);
    ResolveVelocities(a, b, distance);
    var r := Resolve(a, b, distance);
    EnergyFromScalars(s1, s2, u1, u2, w.0, w.1, a.Mass, b.Mass,
      NormSq(a.Velocity), NormSq(b.Velocity), NormSq(r.0.Velocity), NormSq(r.1.Velocity));
  }

  /**
   * Two pairs of velocities with the same tangential scalars, and normal
   * scalars of equal energy, have equal total energy (given their squared
   * lengths by Pythagoras).
   */
  lemma EnergyFromScalars(s1: real, s2: real, u1: real, u2: real, w1: real, w2: real,
                          m1: real, m2: real, v1: real, v2: real, x1: real, x2: real)
    requires v1 == Sq(s1) + Sq(u1) && v2 == Sq(s2) + Sq(u2)
    requires x1 == Sq(s1) + Sq(w1) && x2 == Sq(s2) + Sq(w2)
    requires m1 * Sq(w1) + m2 * Sq(w2) == m1 * Sq(u1) + m2 * Sq(u2)
    ensures m1 * x1 + m2 * x2 == m1 * v1 + m2 * v2
  {
    assert m1 * x1 == m1 * Sq(s1) + m1 * Sq(w1);
    assert m2 * x2 == m2 * Sq(s2) + m2 * Sq(w2);
    assert m1 * v1 == m1 * Sq(s1) + m1 * Sq(u1);
    assert m2 * v2 == m2 * Sq(s2) + m2 * Sq(u2);
  }

  /** After the correction the centres are exactly one radius sum apart. */
  lemma ResolveSeparation(a: BallState, b: BallState, distance: real)
    requires Colliding(a, b, distance)
    ensures var r := Resolve(a, b, distance);
      IsDistance(a.Radius + b.Radius, r.0.Position, r.1.Position)
  {
    CollidingFacts(a, b, distance);
    var n := Normal(a, b, distance);
    var minDistance := a.Radius + b.Radius;
    var overlap := minDistance - distance;
    var r := Resolve(a, b, distance);
    var d := Sub(r.0.Position, r.1.Position);
    // (p1 + n ov/2) - (p2 - n ov/2) = d n + ov n = minDistance n
    assert d == Scale(minDistance, n);
    NormSqScale(minDistance, n);
  }

  /** The correction moves both centres symmetrically: their midpoint stays put. */
  lemma ResolveMidpoint(a: BallState, b: BallState, distance: real)
    requires IsDistance(distance, a.Position, b.Position) && Resolvable(a, b)
    ensures var r := Resolve(a, b, distance);
      Add(r.0.Position, r.1.Position) == Add(a.Position, b.Position)
  {
  }

  /**
   * A head-on collision of equal masses (both velocities along the line of
   * centres) makes the two balls exchange their velocities.
   */
  lemma ResolveHeadOnSwap(a: BallState, b: BallState, distance: real)
    requires Colliding(a, b, distance) && a.Mass == b.Mass
    requires var t := Tangent(Sub(a.Position, b.Position));
      Dot(a.Velocity, t) == 0.0 && Dot(b.Velocity, t) == 0.0
    ensures var r := Resolve(a, b, distance);
      r.0.Velocity == b.Velocity && r.1.Velocity == a.Velocity
  {
    CollidingFacts(a, b, distance);
    var n := Normal(a, b, distance);
    var t := Tangent(n);
    TangentScale(a.Velocity, n, distance);
    TangentScale(b.Velocity, n, distance);
    CancelNonZero(Dot(a.Velocity, t), 0.0, distance);
    CancelNonZero(Dot(b.Velocity, t), 0.0, distance);
    ResolveVelocities(a, b, distance);
    ElasticEqualMassesSwap(Dot(a.Velocity, n), Dot(b.Velocity, n), a.Mass);
    Decompose(a.Velocity, n);
    Decompose(b.Velocity, n);
  }

  lemma TangentScale(v: Point, n: Point, k: real)
    ensures Dot(v, Tangent(Scale(k, n))) == Dot(v, Tangent(n)) * k
  {
    assert v.X * -(k * n.Y) + v.Y * (k * n.X) == (v.X * -n.Y + v.Y * n.X) * k;
  }

  /** The new velocities, composed from the kept tangential scalars and the elastic normal scalars. */
  lemma ResolveVelocities(a: BallState, b: BallState, distance: real)
    requires Colliding(a, b, distance)
    ensures (CollidingFacts(a, b, distance);
      var n := Normal(a, b, distance);
      var t := Tangent(n);
      var w := ElasticNormal(Dot(a.Velocity, n), Dot(b.Velocity, n), a.Mass, b.Mass);
      var r := Resolve(a, b, distance);
      r.0.Velocity == Compose(t, Dot(a.Velocity, t), n, w.0) && r.1.Velocity == Compose(t, Dot(b.Velocity, t), n, w.1))
  {
    CollidingFacts(a, b, distance);
  }
}
