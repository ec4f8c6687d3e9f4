/**
 * The simulation driver of CollisionRender/Program.cs (class SimulationForm,
 * without its windowing): the initial arena and balls, the start-time fix-up
 * that moves the second ball out of the first, and the order of the updates
 * performed on every frame. Math.Sqrt is received as a parameter `sqrt`
 * satisfying IsSqrt; the frame time, read from a stopwatch in the program,
 * is the parameter `dt`.
 */
module Driver {
  import opened Geometry
  import opened Bodies
  import opened Collision

  /** Math.Sqrt(dx*dx + dy*dy) for dx, dy = p - q: the distance from `q` to `p`. */
  function Distance(sqrt: real -> real, p: Point, q: Point): (d: real)
    requires IsSqrt(sqrt)
    ensures IsDistance(d, p, q)
  {
    SqrtGivesDistance(sqrt, p, q);
    sqrt(DistSq(p, q))
  }

  /**
   * (cos θ, sin θ) for θ = atan2(delta.Y, delta.X), where `d` is the length of
   * `delta`: delta divided by its length, and (1, 0) for the zero vector, for
   * which atan2 gives 0.
   */
  function Direction(delta: Point, d: real): (u: Point)
    requires 0.0 <= d && Sq(d) == NormSq(delta)
    ensures NormSq(u) == 1.0
    ensures Scale(d, u) == delta
    ensures d == 0.0 ==> u == Point(1.0, 0.0)
  {
    if d == 0.0 then
      ZeroLength(delta, d);
      DirectionOfZero(delta, d);
      Point(1.0, 0.0)
    else
      UnitOf(delta, d)
  }

  /** The direction chosen for the zero vector, which has length zero, leads back to it. */
  lemma DirectionOfZero(delta: Point, d: real)
    requires d == 0.0 && delta == Point(0.0, 0.0)
    ensures Scale(d, Point(1.0, 0.0)) == delta && NormSq(Point(1.0, 0.0)) == 1.0
  {
  }

  /** An offset whose length is zero is the zero vector. */
  lemma ZeroLength(delta: Point, d: real)
    requires d == 0.0 && Sq(d) == NormSq(delta)
    ensures delta == Point(0.0, 0.0)
  {
    SquareZero(d);
    ZeroNorm(delta);
  }

  /** Only the zero vector has length zero. */
  lemma ZeroNorm(v: Point)
    requires NormSq(v) == 0.0
    ensures v == Point(0.0, 0.0)
  {
    SumOfSquaresZero(v.X, v.Y);
  }

  /**
   * Where the start-up fix-up puts the second centre, given the first centre
   * `p1`, the entered second centre `p2`, the radius sum `minDistance` and
   * the distance `d` from `p1` to `p2`: unchanged when the balls are apart;
   * otherwise exactly `minDistance` away from `p1`, on the ray from `p1`
   * through `p2` (the offset is the old one stretched by minDistance / d,
   * written here without the division), which leaves balls that exactly
   * touch where they are.
   */
  function PlaceSecond(p1: Point, p2: Point, minDistance: real, d: real): (q: Point)
    requires IsDistance(d, p2, p1)
    ensures minDistance < d ==> q == p2
    ensures d <= minDistance ==> IsDistance(minDistance, q, p1)
    ensures d <= minDistance ==> Scale(d, Sub(q, p1)) == Scale(minDistance, Sub(p2, p1))
    ensures d == minDistance ==> q == p2
    ensures d == 0.0 && 0.0 <= minDistance ==> q == Point(p1.X + minDistance, p1.Y)
  {
    if d <= minDistance then
      var u := Direction(Sub(p2, p1), d);
      var q := Offset(p1, minDistance, u);
      OffsetDistance(p1, q, u, minDistance);
      OffsetAlong(p1, p2, q, u, minDistance, d);
      OffsetRight(p1, minDistance, u);
      q
    else
      p2
  }

  /** The point `p + k*u`, written out by coordinates as the start button does. */
  function Offset(p: Point, k: real, u: Point): Point {
    Point(p.X + k * u.X, p.Y + k * u.Y)
  }

  /** A point `k` unit vectors away from `p` is at distance `k` from it. */
  lemma OffsetDistance(p: Point, q: Point, u: Point, k: real)
    requires NormSq(u) == 1.0 && 0.0 <= k
    requires q == Offset(p, k, u)
    ensures IsDistance(k, q, p)
  {
    assert Sub(q, p) == Scale(k, u);
    NormSqScale(k, u);
  }

  /**
   * A point `k` times `u` away from `p1`, where `d` times `u` leads from
   * `p1` to `p2`, lies on the line through both, and is `p2` when k is d.
   */
  lemma OffsetAlong(p1: Point, p2: Point, q: Point, u: Point, k: real, d: real)
    requires 0.0 <= d && Scale(d, u) == Sub(p2, p1)
    requires q == Offset(p1, k, u)
    ensures Scale(d, Sub(q, p1)) == Scale(k, Sub(p2, p1))
    ensures d == k ==> q == p2
  {
    assert Sub(q, p1) == Scale(k, u);
    assert d * (k * u.X) == k * (d * u.X);
    assert d * (k * u.Y) == k * (d * u.Y);
    if d == k && d == 0.0 {
      assert p2 == p1;
    }
  }

  /** Going along (1, 0) changes only the x coordinate. */
  lemma OffsetRight(p: Point, k: real, u: Point)
    ensures u == Point(1.0, 0.0) ==> Offset(p, k, u) == Point(p.X + k, p.Y)
  {
  }

  /**
   * One frame of the running simulation on ball values: both balls move by
   * `dt`, the ball-ball collision is resolved on the moved balls, and then
   * each ball is checked against the walls.
   */
  function Step(a: BallState, b: BallState, bounds: Rect, dt: real, sqrt: real -> real): (r: (BallState, BallState))
    requires IsSqrt(sqrt) && Resolvable(Integrate(a, dt), Integrate(b, dt))
    ensures r.0.Mass == a.Mass && r.0.Radius == a.Radius && r.1.Mass == b.Mass && r.1.Radius == b.Radius
    ensures Fits(a.Radius, bounds) ==> Inside(r.0, bounds)
    ensures Fits(b.Radius, bounds) ==> Inside(r.1, bounds)
  {
    var a1, b1 := Integrate(a, dt), Integrate(b, dt);
    var c := Resolve(a1, b1, Distance(sqrt, a1.Position, b1.Position));
    (Bounce(c.0, bounds), Bounce(c.1, bounds))
  }

  /**
   * Two balls inside the arena, apart from each other, are left as they are
   * by a frame of zero seconds.
   */
  lemma StepAtRest(a: BallState, b: BallState, bounds: Rect, sqrt: real -> real)
    requires IsSqrt(sqrt)
    requires !Overlaps(a.Position, b.Position, a.Radius + b.Radius)
    requires Inside(a, bounds) && Inside(b, bounds)
    ensures Resolvable(Integrate(a, 0.0), Integrate(b, 0.0))
    ensures Step(a, b, bounds, 0.0, sqrt) == (a, b)
  {
    IntegrateZero(a);
    IntegrateZero(b);
    var d := Distance(sqrt, a.Position, b.Position);
    DistanceFacts(d, a.Position, b.Position, a.Radius + b.Radius);
    assert Resolve(a, b, d) == (a, b);
    assert Bounce(a, bounds) == a && Bounce(b, bounds) == b;
  }

  /**
   * A frame in which the moved balls do not overlap is the Euler step
   * followed by the wall check, ball by ball.
   */
  lemma StepApart(a: BallState, b: BallState, bounds: Rect, dt: real, sqrt: real -> real)
    requires IsSqrt(sqrt)
    requires !Overlaps(Integrate(a, dt).Position, Integrate(b, dt).Position, a.Radius + b.Radius)
    ensures Resolvable(Integrate(a, dt), Integrate(b, dt))
    ensures Step(a, b, bounds, dt, sqrt) == (Bounce(Integrate(a, dt), bounds), Bounce(Integrate(b, dt), bounds))
  {
    var a1, b1 := Integrate(a, dt), Integrate(b, dt);
    var d := Distance(sqrt, a1.Position, b1.Position);
    DistanceFacts(d, a1.Position, b1.Position, a1.Radius + b1.Radius);
  }

  /** The simulation: the two balls, the arena and whether the start button was pressed. */
  class Simulation {
    var ball1: Ball
    var ball2: Ball
    var bounds: Rect
    var running: bool

    /** The form works on two distinct balls. */
    ghost predicate Valid()
      reads this
    {
      ball1 != ball2
    }

    /**
     * The form's initial balls and arena; `clientWidth` and `clientHeight`
     * are the size of the window's client area.
     */
    constructor (clientWidth: real, clientHeight: real)
      ensures Valid() && fresh(ball1) && fresh(ball2)
      ensures ball1.State() == BallState(1.0, Point(100.0, 100.0), Point(200.0, 150.0), 20.0)
      ensures ball2.State() == BallState(2.0, Point(300.0, 200.0), Point(-150.0, 100.0), 30.0)
      ensures bounds == Rect(5.0, 5.0, clientWidth - 300.0, clientHeight - 10.0)
      ensures !running
    {
      ball1 := new Ball(1.0, Point(100.0, 100.0), Point(200.0, 150.0), 20.0);
      ball2 := new Ball(2.0, Point(300.0, 200.0), Point(-150.0, 100.0), 30.0);
      bounds := Rect(5.0, 5.0, clientWidth - 300.0, clientHeight - 10.0);
      running := false;
    }

    /**
     * The start button, on already parsed input: two new balls, the second
     * moved out of the first when they touch or overlap, and the simulation
     * running.
     */
    method Start(mass1: real, position1: Point, velocity1: Point, radius1: real,
                 mass2: real, position2: Point, velocity2: Point, radius2: real,
                 sqrt: real -> real)
      requires IsSqrt(sqrt)
      modifies this
      ensures Valid() && fresh(ball1) && fresh(ball2)
      ensures ball1.State() == BallState(mass1, position1, velocity1, radius1)
      ensures ball2.State() == BallState(mass2,
        PlaceSecond(position1, position2, radius1 + radius2, Distance(sqrt, position2, position1)),
        velocity2, radius2)
      ensures running && bounds == old(bounds)
    {
      var initialDistance := Distance(sqrt, position2, position1);
      var minDistance := radius1 + radius2;
      var position := PlaceSecond(position1, position2, minDistance, initialDistance);
      ball1 := new Ball(mass1, position1, velocity1, radius1);
      ball2 := new Ball(mass2, position, velocity2, radius2);
      running := true;
    }

    /** The ball-ball collision check, on the two balls in place. */
    method CheckBallCollision(sqrt: real -> real)
      requires Valid() && IsSqrt(sqrt) && Resolvable(ball1.State(), ball2.State())
      modifies ball1, ball2
      ensures (ball1.State(), ball2.State())
        == Resolve(old(ball1.State()), old(ball2.State()), Distance(sqrt, old(ball1.Position), old(ball2.Position)))
    {
      var distance := Distance(sqrt, ball1.Position, ball2.Position);
      var minDistance := ball1.Radius + ball2.Radius;
      ghost var expected := Resolve(ball1.State(), ball2.State(), distance);
      if distance < minDistance {
        DistanceFacts(distance, ball1.Position, ball2.Position, minDistance);
        var normal := Normal(ball1.State(), ball2.State(), distance);
        var tangent := Tangent(normal);
        var dpTan1 := Dot(ball1.Velocity, tangent);
        var dpTan2 := Dot(ball2.Velocity, tangent);
        var dpNorm1 := Dot(ball1.Velocity, normal);
        var dpNorm2 := Dot(ball2.Velocity, normal);
        var (m1, m2) := ElasticNormal(dpNorm1, dpNorm2, ball1.Mass, ball2.Mass);
        ball1.Velocity := Compose(tangent, dpTan1, normal, m1);
        ball2.Velocity := Compose(tangent, dpTan2, normal, m2);
        var overlap := minDistance - distance;
        ball1.Position := Point(ball1.Position.X + normal.X * overlap / 2.0, ball1.Position.Y + normal.Y * overlap / 2.0);
        ball2.Position := Point(ball2.Position.X - normal.X * overlap / 2.0, ball2.Position.Y - normal.Y * overlap / 2.0);
        assert ball1.State() == expected.0;
        assert ball2.State() == expected.1;
      }
    }

    /**
     * One frame of `dt` seconds: nothing while the simulation is not running;
     * otherwise both balls move, then collide, then meet the walls.
     */
    method Tick(dt: real, sqrt: real -> real)
      requires Valid() && IsSqrt(sqrt)
      requires running ==> Resolvable(Integrate(ball1.State(), dt), Integrate(ball2.State(), dt))
      modifies ball1, ball2
      ensures !running ==> ball1.State() == old(ball1.State()) && ball2.State() == old(ball2.State())
      ensures running ==> (ball1.State(), ball2.State()) == Step(old(ball1.State()), old(ball2.State()), bounds, dt, sqrt)
    {
      if running {
        ball1.UpdatePosition(dt);
        ball2.UpdatePosition(dt);
        CheckBallCollision(sqrt);
        ball1.CheckWallCollision(bounds);
        ball2.CheckWallCollision(bounds);
      }
    }
  }
}
