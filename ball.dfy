/**
 * A ball of the simulation (class Ball of CollisionRender/Program.cs): its
 * mass, centre, velocity and radius, the explicit Euler step that moves it,
 * and the bounce off the walls of the arena. The pure functions Integrate and
 * Bounce say what the two methods of the class do to a ball's state.
 */
module Bodies {
  import opened Geometry

  /** The value of a ball at one instant. */
  datatype BallState = BallState(Mass: real, Position: Point, Velocity: Point, Radius: real)

  /** One explicit Euler step of `timeStep` seconds: the centre moves by velocity times time. */
  function Integrate(s: BallState, timeStep: real): (r: BallState)
    ensures r.Mass == s.Mass && r.Velocity == s.Velocity && r.Radius == s.Radius
    ensures Sub(r.Position, s.Position) == Scale(timeStep, s.Velocity)
  {
    s.(Position := Point(s.Position.X + s.Velocity.X * timeStep, s.Position.Y + s.Velocity.Y * timeStep))
  }

  /** A step of zero seconds moves nothing. */
  lemma IntegrateZero(s: BallState)
    ensures Integrate(s, 0.0) == s
  {
  }

  /** Two consecutive steps land where one step of the combined length does (motion is inertial). */
  lemma IntegrateAdditive(s: BallState, t1: real, t2: real)
    ensures Integrate(Integrate(s, t1), t2) == Integrate(s, t1 + t2)
  {
    assert s.Velocity.X * (t1 + t2) == s.Velocity.X * t1 + s.Velocity.X * t2;
    assert s.Velocity.Y * (t1 + t2) == s.Velocity.Y * t1 + s.Velocity.Y * t2;
  }

  /** The circle of radius `r` centred at `c` sticks out of the interval [lo, hi] on one axis. */
  predicate AxisHit(c: real, r: real, lo: real, hi: real) {
    c - r < lo || c + r > hi
  }

  /**
   * The wall check on one axis: when the circle sticks out of [lo, hi] the
   * velocity component is negated and the coordinate is clamped to
   * Max(lo + r, Min(hi - r, c)); otherwise both stay as they are.
   */
  function BounceAxis(c: real, v: real, r: real, lo: real, hi: real): (res: (real, real))
    ensures !AxisHit(c, r, lo, hi) ==> res == (c, v)
    ensures AxisHit(c, r, lo, hi) ==> res.1 == -v
    ensures 2.0 * r <= hi - lo ==> lo + r <= res.0 <= hi - r
    ensures c - r < lo && 2.0 * r <= hi - lo ==> res == (lo + r, -v)
    ensures c + r > hi && 2.0 * r <= hi - lo ==> res == (hi - r, -v)
    ensures hi - lo < 2.0 * r ==> res == (lo + r, -v)
  {
    if AxisHit(c, r, lo, hi) then (Max(lo + r, Min(hi - r, c)), -v) else (c, v)
  }

  /** What CheckWallCollision does to a ball: the X walls, then the Y walls. */
  function Bounce(s: BallState, bounds: Rect): (r: BallState)
    ensures r.Mass == s.Mass && r.Radius == s.Radius
    ensures Inside(s, bounds) ==> r == s
    ensures Fits(s.Radius, bounds) ==> Inside(r, bounds)
  {
    var (x, vx) := BounceAxis(s.Position.X, s.Velocity.X, s.Radius, bounds.Left(), bounds.Right());
    var (y, vy) := BounceAxis(s.Position.Y, s.Velocity.Y, s.Radius, bounds.Top(), bounds.Bottom());
    s.(Position := Point(x, y), Velocity := Point(vx, vy))
  }

  /** The ball lies inside the arena: it touches no wall from outside. */
  predicate Inside(s: BallState, bounds: Rect) {
    && bounds.Left() <= s.Position.X - s.Radius && s.Position.X + s.Radius <= bounds.Right()
    && bounds.Top() <= s.Position.Y - s.Radius && s.Position.Y + s.Radius <= bounds.Bottom()
  }

  /** The arena is at least one diameter wide and one diameter tall. */
  predicate Fits(radius: real, bounds: Rect) {
    2.0 * radius <= bounds.Width && 2.0 * radius <= bounds.Height
  }

  /**
   * In an arena narrower (or lower) than the ball, the coordinate on that axis
   * is set to left + radius (or top + radius).
   */
  lemma BounceNarrow(s: BallState, bounds: Rect)
    ensures bounds.Width < 2.0 * s.Radius ==> Bounce(s, bounds).Position.X == bounds.Left() + s.Radius
    ensures bounds.Height < 2.0 * s.Radius ==> Bounce(s, bounds).Position.Y == bounds.Top() + s.Radius
  {
  }

  /**
   * Each velocity component keeps its magnitude: it is negated exactly on an
   * axis whose walls were touched, and otherwise kept.
   */
  lemma BounceReflects(s: BallState, bounds: Rect)
    ensures var r := Bounce(s, bounds);
      && r.Velocity.X == (if AxisHit(s.Position.X, s.Radius, bounds.Left(), bounds.Right()) then -s.Velocity.X else s.Velocity.X)
      && r.Velocity.Y == (if AxisHit(s.Position.Y, s.Radius, bounds.Top(), bounds.Bottom()) then -s.Velocity.Y else s.Velocity.Y)
      && Sq(r.Velocity.X) == Sq(s.Velocity.X) && Sq(r.Velocity.Y) == Sq(s.Velocity.Y)
  {
  }

  /**
   * The two axes are independent: two balls of the same radius that agree on
   * X and VX, in arenas with the same left and right walls, end with the same
   * X and VX, whatever their Y parts, their masses and the other walls; and
   * likewise for Y with the top and bottom walls.
   */
  lemma BounceAxesIndependent(s: BallState, s2: BallState, bounds: Rect, bounds2: Rect)
    requires s.Radius == s2.Radius
    ensures (&& s.Position.X == s2.Position.X && s.Velocity.X == s2.Velocity.X
             && bounds.Left() == bounds2.Left() && bounds.Right() == bounds2.Right())
        ==> (&& Bounce(s, bounds).Position.X == Bounce(s2, bounds2).Position.X
             && Bounce(s, bounds).Velocity.X == Bounce(s2, bounds2).Velocity.X)
    ensures (&& s.Position.Y == s2.Position.Y && s.Velocity.Y == s2.Velocity.Y
             && bounds.Top() == bounds2.Top() && bounds.Bottom() == bounds2.Bottom())
        ==> (&& Bounce(s, bounds).Position.Y == Bounce(s2, bounds2).Position.Y
             && Bounce(s, bounds).Velocity.Y == Bounce(s2, bounds2).Velocity.Y)
  {
  }

  /** A second wall check right after the first changes nothing when the ball fits. */
  lemma BounceIdempotent(s: BallState, bounds: Rect)
    requires Fits(s.Radius, bounds)
    ensures Bounce(Bounce(s, bounds), bounds) == Bounce(s, bounds)
  {
  }

  /** A ball whose properties are updated in place. */
  class Ball {
    var Mass: real
    var Position: Point
    var Velocity: Point
    var Radius: real

    /** The ball's current value. */
    function State(): BallState
      reads this
    {
      BallState(Mass, Position, Velocity, Radius)
    }

    constructor (mass: real, position: Point, velocity: Point, radius: real)
      ensures State() == BallState(mass, position, velocity, radius)
    {
      Mass := mass;
      Position := position;
      Velocity := velocity;
      Radius := radius;
    }

    /** Moves the centre by velocity times `timeStep`. */
    method UpdatePosition(timeStep: real)
      modifies this
      ensures State() == Integrate(old(State()), timeStep)
    {
      Position := Point(Position.X + Velocity.X * timeStep, Position.Y + Velocity.Y * timeStep);
    }

    /** Reflects the ball off the walls of `bounds`, the X axis first and then the Y axis. */
    method CheckWallCollision(bounds: Rect)
      modifies this
      ensures State() == Bounce(old(State()), bounds)
    {
      if Position.X - Radius < bounds.Left() || Position.X + Radius > bounds.Right() {
        Velocity := Point(-Velocity.X, Velocity.Y);
        Position := Point(Max(bounds.Left() + Radius, Min(bounds.Right() - Radius, Position.X)), Position.Y);
      }
      if Position.Y - Radius < bounds.Top() || Position.Y + Radius > bounds.Bottom() {
        Velocity := Point(Velocity.X, -Velocity.Y);
        Position := Point(Position.X, Max(bounds.Top() + Radius, Min(bounds.Bottom() - Radius, Position.Y)));
      }
    }
  }
}
