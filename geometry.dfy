/**
 * Plane geometry over exact reals: the value types the simulation is built
 * on (System.Drawing's PointF and RectangleF), the vector arithmetic the
 * collision code spells out component by component, and Math.Max/Math.Min.
 * Math.Sqrt is not defined here: callers receive it as a function parameter
 * that satisfies IsSqrt.
 */
module Geometry {

  /** A point or a vector of the plane (PointF). */
  datatype Point = Point(X: real, Y: real)

  /** An axis-aligned rectangle given by its corner and size (RectangleF). */
  datatype Rect = Rect(X: real, Y: real, Width: real, Height: real) {
    function Left(): real { X }
    function Top(): real { Y }
    function Right(): real { X + Width }
    function Bottom(): real { Y + Height }
  }

  function Add(p: Point, q: Point): Point { Point(p.X + q.X, p.Y + q.Y) }

  function Sub(p: Point, q: Point): Point { Point(p.X - q.X, p.Y - q.Y) }

  function Scale(k: real, p: Point): Point { Point(k * p.X, k * p.Y) }

  function Dot(p: Point, q: Point): real { p.X * q.X + p.Y * q.Y }

  /** The square of a real; kept as a function so that facts about squares stay intact. */
  function Sq(x: real): real { x * x }

  /** Squared length (dx*dx + dy*dy). */
  function NormSq(p: Point): real { Sq(p.X) + Sq(p.Y) }

  /** Squared distance between two centres. */
  function DistSq(p: Point, q: Point): real { NormSq(Sub(p, q)) }

  function Max(a: real, b: real): real { if a >= b then a else b }

  function Min(a: real, b: real): real { if a <= b then a else b }

  /** `d` is the Euclidean distance between `p` and `q`. */
  predicate IsDistance(d: real, p: Point, q: Point) {
    0.0 <= d && Sq(d) == DistSq(p, q)
  }

  /** `sqrt` is an exact square root on the non-negative reals (Math.Sqrt). */
  ghost predicate IsSqrt(sqrt: real -> real) {
    forall x :: 0.0 <= x ==> 0.0 <= sqrt(x) && Sq(sqrt(x)) == x
  }

  /** Two circles whose radii sum to `minDistance` overlap: their centres are closer than `minDistance`. */
  predicate Overlaps(p: Point, q: Point, minDistance: real) {
    0.0 < minDistance && DistSq(p, q) < Sq(minDistance)
  }

  /** A product kept as a function, so that proofs about squares can go through it. */
  function Product(a: real, b: real): real { a * b }

  lemma ProductPositive(a: real, b: real)
    requires 0.0 < a && 0.0 < b
    ensures 0.0 < Product(a, b)
  {
  }

  lemma SquareNonNegative(x: real)
    ensures 0.0 <= Sq(x)
    ensures x != 0.0 ==> 0.0 < Sq(x)
  {
    if x < 0.0 {
      ProductPositive(-x, -x);
      assert Product(-x, -x) == Sq(x);
    } else if 0.0 < x {
      ProductPositive(x, x);
      assert Product(x, x) == Sq(x);
    }
  }

  lemma NormSqNonNegative(v: Point)
    ensures 0.0 <= NormSq(v)
    ensures v != Point(0.0, 0.0) ==> 0.0 < NormSq(v)
  {
    SquareNonNegative(v.X);
    SquareNonNegative(v.Y);
  }

  /** Math.Sqrt of a squared distance is that distance. */
  lemma SqrtGivesDistance(sqrt: real -> real, p: Point, q: Point)
    requires IsSqrt(sqrt)
    ensures IsDistance(sqrt(DistSq(p, q)), p, q)
  {
    NormSqNonNegative(Sub(p, q));
  }

  /**
   * What a distance tells about the two centres: it is below `minDistance`
   * exactly when the circles overlap, and it is positive exactly when the
   * centres differ.
   */
  lemma DistanceFacts(d: real, p: Point, q: Point, minDistance: real)
    requires IsDistance(d, p, q)
    ensures d < minDistance <==> Overlaps(p, q, minDistance)
    ensures 0.0 < d <==> p != q
  {
    DistanceBelow(d, DistSq(p, q), minDistance);
    DistancePositive(d, p, q);
  }

  lemma DistancePositive(d: real, p: Point, q: Point)
    requires IsDistance(d, p, q)
    ensures 0.0 < d <==> p != q
  {
    DistancePositiveByCoordinates(d, p.X - q.X, p.Y - q.Y);
  }

  /** DistancePositive on the coordinate offsets `dx` and `dy`. */
  lemma DistancePositiveByCoordinates(d: real, dx: real, dy: real)
    requires 0.0 <= d && Sq(d) == Sq(dx) + Sq(dy)
    ensures 0.0 < d <==> dx != 0.0 || dy != 0.0
  {
    SumOfSquaresZero(dx, dy);
    SquareZero(d);
    PositiveExactlyWhenNonZero(d, Sq(d), Sq(dx) + Sq(dy), dx, dy);
  }

  /**
   * The propositional core of DistancePositive, over plain numbers: a
   * non-negative `d` whose square `s` is the sum of squares `t` of `a` and
   * `b` is positive exactly when `a` or `b` is non-zero.
   */
  lemma PositiveExactlyWhenNonZero(d: real, s: real, t: real, a: real, b: real)
    requires 0.0 <= d && s == t
    requires s == 0.0 <==> d == 0.0
    requires t == 0.0 <==> a == 0.0 && b == 0.0
    ensures 0.0 < d <==> a != 0.0 || b != 0.0
  {
  }

  /** A square is zero exactly when its root is. */
  lemma SquareZero(x: real)
    ensures Sq(x) == 0.0 <==> x == 0.0
  {
    SquareNonNegative(x);
  }

  /** A sum of two squares is zero exactly when both roots are. */
  lemma SumOfSquaresZero(a: real, b: real)
    ensures Sq(a) + Sq(b) == 0.0 <==> a == 0.0 && b == 0.0
  {
    SquareNonNegative(a);
    SquareNonNegative(b);
  }

  lemma DistanceBelow(d: real, dsq: real, minDistance: real)
    requires 0.0 <= d && Sq(d) == dsq
    ensures d < minDistance <==> 0.0 < minDistance && dsq < Sq(minDistance)
  {
    if d < minDistance {
      MulLeftMono(d, d, minDistance);
      if d == 0.0 {
        SquareNonNegative(minDistance);
      } else {
        MulRightStrict(d, minDistance, minDistance);
      }
    } else if 0.0 < minDistance {
      MulLeftMono(minDistance, minDistance, d);
      MulLeftMono(d, minDistance, d);
    }
  }

  lemma MulLeftMono(k: real, a: real, b: real)
    requires 0.0 <= k && a <= b
    ensures k * a <= k * b
  {
    assert k * b - k * a == k * (b - a);
  }

  lemma MulRightStrict(a: real, b: real, k: real)
    requires a < b && 0.0 < k
    ensures a * k < b * k
  {
    assert b * k - a * k == (b - a) * k;
  }

  lemma DivSquare(a: real, d: real)
    requires d != 0.0
    ensures Sq(a / d) * Sq(d) == Sq(a)
  {
    assert (a / d) * d == a;
    assert Sq(a / d) * Sq(d) == ((a / d) * d) * ((a / d) * d);
  }

  /** Scaling a vector by `k` scales its squared length by `k` squared. */
  lemma NormSqScale(k: real, v: Point)
    ensures NormSq(Scale(k, v)) == Sq(k) * NormSq(v)
  {
  }

  /**
   * The unit vector in the direction of `v`, whose length is `d`: each
   * component divided by `d`.
   */
  function UnitOf(v: Point, d: real): (u: Point)
    requires 0.0 < d && Sq(d) == NormSq(v)
    ensures Scale(d, u) == v
    ensures NormSq(u) == 1.0
  {
    UnitLength(v.X, v.Y, d);
    Point(v.X / d, v.Y / d)
  }

  /** Dividing both coordinates by the length gives squares that sum to one. */
  lemma UnitLength(x: real, y: real, d: real)
    requires 0.0 < d && Sq(d) == Sq(x) + Sq(y)
    ensures Sq(x / d) + Sq(y / d) == 1.0
  {
    DivSquare(x, d);
    DivSquare(y, d);
    SquareNonNegative(d);
    SharesOfWhole(Sq(x / d), Sq(y / d), Sq(d), Sq(x), Sq(y));
  }

  /** Two shares `a` and `b` of a positive whole `k`, scaled by it, that add up to it, add up to one. */
  lemma SharesOfWhole(a: real, b: real, k: real, x: real, y: real)
    requires 0.0 < k && a * k == x && b * k == y && k == x + y
    ensures a + b == 1.0
  {
    var s := x + y;
    assert (a + b) * k == s;
    assert (a + b - 1.0) * k == 0.0;
  }
}
