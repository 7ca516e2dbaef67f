/**
  The orientation predicates of the partition engine: sign tests on the cross
  product of three points, the point-in-triangle and visibility-cone tests built
  from them, the proper-crossing test for two segments, and the ear-quality score.
  Coordinates are exact integers, so every sign is decided exactly.
 */
module Geometry {

  /** A vertex position. */
  datatype Point = Point(x: int, y: int)

  /** Twice the signed area of the triangle p1, p2, p3: positive when p1 -> p2 -> p3
      turns counter-clockwise, negative when it turns clockwise, zero when collinear. */
  function Orientation(p1: Point, p2: Point, p3: Point): int
  {
    (p3.y - p1.y) * (p2.x - p1.x) - (p3.x - p1.x) * (p2.y - p1.y)
  }

  /** The turn at p2 is strictly counter-clockwise. */
  predicate IsConvex(p1: Point, p2: Point, p3: Point)
  {
    Orientation(p1, p2, p3) > 0
  }

  /** The turn at p2 is strictly clockwise. */
  predicate IsReflex(p1: Point, p2: Point, p3: Point)
  {
    Orientation(p1, p2, p3) < 0
  }

  /** p is not strictly to the right of any edge of the triangle p1, p2, p3. */
  predicate IsInside(p1: Point, p2: Point, p3: Point, p: Point)
  {
    if IsConvex(p1, p, p2) then false
    else if IsConvex(p2, p, p3) then false
    else if IsConvex(p3, p, p1) then false
    else true
  }

  /** p lies in the cone at p2 bounded by the edges (p1, p2) and (p2, p3). */
  predicate InCone(p1: Point, p2: Point, p3: Point, p: Point)
  {
    if IsConvex(p1, p2, p3) then
      IsConvex(p1, p2, p) && IsConvex(p2, p3, p)
    else
      IsConvex(p1, p2, p) || IsConvex(p2, p3, p)
  }

  /** 1 when the segments p11-p12 and p21-p22 cross, 0 otherwise; segments that
      share an endpoint never count as crossing. */
  function Intersects(p11: Point, p12: Point, p21: Point, p22: Point): int
  {
    if p11 == p21 || p11 == p22 || p12 == p21 || p12 == p22 then 0
    else
      var v1ort := Point(p12.y - p11.y, p11.x - p12.x);
      var v2ort := Point(p22.y - p21.y, p21.x - p22.x);
      var dot21 := Dot(Sub(p21, p11), v1ort);
      var dot22 := Dot(Sub(p22, p11), v1ort);
      var dot11 := Dot(Sub(p11, p21), v2ort);
      var dot12 := Dot(Sub(p12, p21), v2ort);
      if dot11 * dot12 > 0 then 0
      else if dot21 * dot22 > 0 then 0
      else 1
  }

  function Sub(a: Point, b: Point): Point
  {
    Point(a.x - b.x, a.y - b.y)
  }

  function Dot(a: Point, b: Point): int
  {
    a.x * b.x + a.y * b.y
  }

  /** The ear-quality score of the corner prev -> v -> next. The exact score is the
      cosine of the angle at v (the dot product of the two unit vectors from v to
      its neighbours, or 0 when a neighbour coincides with v); this is
      sign(d) * d^2 / (|a|^2 * |b|^2) for d = a . b, a strictly increasing function
      of that cosine, so comparing two scores gives the same answer as comparing
      the cosines, without square roots. */
  function AngleKey(prev: Point, v: Point, next: Point): (r: real)
    ensures -1.0 <= r <= 1.0
  {
    VectorScore(Sub(prev, v), Sub(next, v))
  }

  /** The score is positive for an acute corner, negative for an obtuse one, and
      zero for a right angle or when a neighbour coincides with the vertex. */
  lemma AngleKeySign(prev: Point, v: Point, next: Point)
    ensures AngleKey(prev, v, next) > 0.0 <==>
      prev != v && next != v && Dot(Sub(prev, v), Sub(next, v)) > 0
    ensures AngleKey(prev, v, next) < 0.0 <==>
      prev != v && next != v && Dot(Sub(prev, v), Sub(next, v)) < 0
  {
    var a, b := Sub(prev, v), Sub(next, v);
    assert a == Point(0, 0) <==> prev == v;
    assert b == Point(0, 0) <==> next == v;
  }

  /** The score of the angle between the vectors a and b. */
  function VectorScore(a: Point, b: Point): (r: real)
    ensures -1.0 <= r <= 1.0
    ensures r > 0.0 <==> a != Point(0, 0) && b != Point(0, 0) && Dot(a, b) > 0
    ensures r < 0.0 <==> a != Point(0, 0) && b != Point(0, 0) && Dot(a, b) < 0
  {
    if a == Point(0, 0) || b == Point(0, 0) then
      0.0
    else
      SquareZero(a);
      SquareZero(b);
      CauchySchwarz(a, b);
      SignedRatio(Dot(a, b), Dot(a, a), Dot(b, b))
  }

  /** sign(d) * d^2 / (na * nb), for d^2 <= na * nb. */
  function SignedRatio(d: int, na: int, nb: int): (r: real)
    requires na > 0 && nb > 0
    requires d * d <= na * nb
    ensures -1.0 <= r <= 1.0
    ensures r > 0.0 <==> d > 0
    ensures r < 0.0 <==> d < 0
  {
    var den := na * nb;
    assert den > 0 by { PositiveProduct(na, nb); }
    var num := if d >= 0 then d * d else -(d * d);
    assert d > 0 ==> num > 0 by { if d > 0 { PositiveProduct(d, d); } }
    assert d < 0 ==> num < 0 by { if d < 0 { PositiveProduct(-d, -d); } }
    assert -den <= num <= den;
    RatioBounds(num, den);
    num as real / den as real
  }

  lemma PositiveProduct(a: int, b: int)
    requires a > 0 && b > 0
    ensures a * b > 0
  {
  }

  lemma RatioBounds(num: int, den: int)
    requires den > 0 && -den <= num <= den
    ensures -1.0 <= num as real / den as real <= 1.0
    ensures num as real / den as real > 0.0 <==> num > 0
    ensures num as real / den as real < 0.0 <==> num < 0
  {
    var q, d, n := num as real / den as real, den as real, num as real;
    assert d > 0.0 && -d <= n <= d;
    assert n > 0.0 <==> num > 0;
    assert n < 0.0 <==> num < 0;
    assert q * d == n;
    ScaleSign(q, d);
    assert (q - 1.0) * d == n - d;
    ScaleSign(q - 1.0, d);
    assert (q + 1.0) * d == n + d;
    ScaleSign(q + 1.0, d);
  }

  /** Scaling by a positive factor keeps the sign. */
  lemma ScaleSign(x: real, d: real)
    requires d > 0.0
    ensures x * d > 0.0 <==> x > 0.0
    ensures x * d < 0.0 <==> x < 0.0
  {
    if x > 0.0 {
      assert x * d > 0.0;
    } else if x < 0.0 {
      assert (-x) * d > 0.0;
    }
  }

  lemma SquareZero(a: Point)
    ensures Dot(a, a) >= 0
    ensures Dot(a, a) == 0 <==> a == Point(0, 0)
  {
    assert a.x * a.x >= 0 && a.y * a.y >= 0;
    if a.x != 0 { assert a.x * a.x > 0; }
    if a.y != 0 { assert a.y * a.y > 0; }
  }

  /** (a . b)^2 <= |a|^2 |b|^2, from Lagrange's identity. */
  lemma CauchySchwarz(a: Point, b: Point)
    ensures Dot(a, b) * Dot(a, b) <= Dot(a, a) * Dot(b, b)
  {
    var c := a.x * b.y - a.y * b.x;
    assert Dot(a, a) * Dot(b, b) == Dot(a, b) * Dot(a, b) + c * c;
    assert c * c >= 0;
  }

  // ---------------------------------------------------------------------------
  // Properties of the predicates

  /** Orientation is unchanged by rotating the three points. */
  lemma OrientationRotate(p1: Point, p2: Point, p3: Point)
    ensures Orientation(p2, p3, p1) == Orientation(p1, p2, p3)
  {
  }

  /** Swapping the first two points reverses the orientation. */
  lemma OrientationSwap(p1: Point, p2: Point, p3: Point)
    ensures Orientation(p2, p1, p3) == -Orientation(p1, p2, p3)
  {
  }

  /** A corner is never both convex and reflex, and a collinear corner is neither. */
  lemma ConvexReflexExclusive(p1: Point, p2: Point, p3: Point)
    ensures !(IsConvex(p1, p2, p3) && IsReflex(p1, p2, p3))
    ensures Orientation(p1, p2, p3) == 0 <==> !IsConvex(p1, p2, p3) && !IsReflex(p1, p2, p3)
  {
  }

  /** Traversing a corner in the opposite direction turns a convex corner into a
      reflex one and back. */
  lemma ReverseSwapsConvexReflex(p1: Point, p2: Point, p3: Point)
    ensures IsConvex(p1, p2, p3) <==> IsReflex(p3, p2, p1)
    ensures IsReflex(p1, p2, p3) <==> IsConvex(p3, p2, p1)
  {
    assert Orientation(p3, p2, p1) == -Orientation(p1, p2, p3);
  }

  /** Convexity of a triangle does not depend on which corner the test starts at. */
  lemma ConvexRotate(p1: Point, p2: Point, p3: Point)
    ensures IsConvex(p1, p2, p3) <==> IsConvex(p2, p3, p1)
    ensures IsConvex(p1, p2, p3) <==> IsConvex(p3, p1, p2)
  {
    OrientationRotate(p1, p2, p3);
    OrientationRotate(p2, p3, p1);
  }

  /** The containment test is closed: the corners of a counter-clockwise triangle
      pass it, which is why the ear test must skip them. */
  lemma InsideHoldsAtCorners(p1: Point, p2: Point, p3: Point)
    requires IsConvex(p1, p2, p3)
    ensures IsInside(p1, p2, p3, p1) && IsInside(p1, p2, p3, p2) && IsInside(p1, p2, p3, p3)
  {
    assert Orientation(p2, p1, p3) == -Orientation(p1, p2, p3);
    assert Orientation(p3, p2, p1) == -Orientation(p1, p2, p3);
    assert Orientation(p1, p3, p2) == -Orientation(p1, p2, p3);
  }

  /** No point passes the containment test of a clockwise triangle: the three
      edge orientations of any point add up to the triangle's own orientation. */
  lemma InsideNeedsNonReflex(p1: Point, p2: Point, p3: Point, p: Point)
    requires IsInside(p1, p2, p3, p)
    ensures !IsReflex(p1, p2, p3)
  {
    assert Orientation(p1, p, p2) + Orientation(p2, p, p3) + Orientation(p3, p, p1)
        == -Orientation(p1, p2, p3);
  }

  /** The apex of a cone is never inside it. */
  lemma InConeExcludesApex(p1: Point, p2: Point, p3: Point)
    ensures !InCone(p1, p2, p3, p2)
  {
  }

  /** At a reflex corner, a point off both boundary lines lies in the cone exactly
      when it does not lie in the convex cone of the reversed corner p3, p2, p1:
      the two cones split the plane. */
  lemma ReflexConeComplementsReversed(p1: Point, p2: Point, p3: Point, p: Point)
    requires IsReflex(p1, p2, p3)
    requires Orientation(p1, p2, p) != 0 && Orientation(p2, p3, p) != 0
    ensures IsConvex(p3, p2, p1)
    ensures InCone(p1, p2, p3, p) <==> !InCone(p3, p2, p1, p)
  {
    ReverseSwapsConvexReflex(p1, p2, p3);
    OrientationSwap(p2, p3, p);
    OrientationSwap(p1, p2, p);
  }

  /** The crossing test is the straddle test: no shared endpoint, and neither
      segment has both endpoints strictly on one side of the other's line. */
  lemma IntersectsIsStraddle(p11: Point, p12: Point, p21: Point, p22: Point)
    ensures Intersects(p11, p12, p21, p22) == 1 <==>
      p11 != p21 && p11 != p22 && p12 != p21 && p12 != p22 &&
      Orientation(p21, p22, p11) * Orientation(p21, p22, p12) <= 0 &&
      Orientation(p11, p12, p21) * Orientation(p11, p12, p22) <= 0
    ensures Intersects(p11, p12, p21, p22) == 0 || Intersects(p11, p12, p21, p22) == 1
  {
    var v1ort := Point(p12.y - p11.y, p11.x - p12.x);
    var v2ort := Point(p22.y - p21.y, p21.x - p22.x);
    DotIsOrientation(p11, p12, p21);
    DotIsOrientation(p11, p12, p22);
    DotIsOrientation(p21, p22, p11);
    DotIsOrientation(p21, p22, p12);
    NegProduct(Dot(Sub(p11, p21), v2ort), Dot(Sub(p12, p21), v2ort),
      Orientation(p21, p22, p11), Orientation(p21, p22, p12));
    NegProduct(Dot(Sub(p21, p11), v1ort), Dot(Sub(p22, p11), v1ort),
      Orientation(p11, p12, p21), Orientation(p11, p12, p22));
  }

  /** The dot product with the edge normal used by Intersects is the negated orientation. */
  lemma DotIsOrientation(a: Point, b: Point, p: Point)
    ensures Dot(Sub(p, a), Point(b.y - a.y, a.x - b.x)) == -Orientation(a, b, p)
  {
  }

  lemma NegProduct(a: int, b: int, u: int, v: int)
    requires a == -u && b == -v
    ensures a * b == u * v
  {
  }

  /** Whether two segments cross does not depend on which one is named first. */
  lemma IntersectsSymmetric(p11: Point, p12: Point, p21: Point, p22: Point)
    ensures Intersects(p11, p12, p21, p22) == Intersects(p21, p22, p11, p12)
  {
    IntersectsIsStraddle(p11, p12, p21, p22);
    IntersectsIsStraddle(p21, p22, p11, p12);
  }
}
