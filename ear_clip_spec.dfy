/**
  What ear-clipping triangulation computes, stated on values. The ring of
  still-active vertices is the sequence of their indices in ring order; clipping
  an ear removes one index. A vertex's convexity, ear status and score depend only
  on the points of its two ring neighbours and on the whole (fixed) point list,
  so they are functions of a ring position here.
 */
module EarClipSpec {
  import opened Geometry

  datatype Option<T> = None | Some(value: T)

  /** A polygon, triangle or merged piece: its vertices in order, the last one
      adjacent to the first. */
  type Polygon = seq<Point>

  /** The cyclic predecessor and successor of position k among n positions. */
  function Pred(n: nat, k: nat): nat
    requires k < n
  {
    if k == 0 then n - 1 else k - 1
  }

  function Succ(n: nat, k: nat): nat
    requires k < n
  {
    if k == n - 1 then 0 else k + 1
  }

  /** c lists vertex indices below n. */
  predicate InRange(c: seq<int>, n: nat)
  {
    forall k :: 0 <= k < |c| ==> 0 <= c[k] < n
  }

  /** Positions k and l of c hold different vertices. */
  predicate Differ(c: seq<int>, k: nat, l: nat)
    requires k < |c| && l < |c|
  {
    c[k] != c[l]
  }

  /** c lists distinct vertex indices below n. */
  predicate IsRing(c: seq<int>, n: nat)
  {
    InRange(c, n) && forall k: nat, l: nat :: k < l < |c| ==> Differ(c, k, l)
  }

  /** The ring in which every vertex of an n-gon is active, in input order. */
  function Iota(n: nat): (c: seq<int>)
    ensures |c| == n && IsRing(c, n)
    ensures forall k :: 0 <= k < n ==> c[k] == k
  {
    seq(n, i => i)
  }

  /** The ring without the vertex at position k. */
  function Remove(c: seq<int>, k: nat): (r: seq<int>)
    requires k < |c|
    ensures |r| == |c| - 1
  {
    c[..k] + c[k + 1..]
  }

  /** Removal shifts the positions after k down by one. */
  lemma RemoveAt(c: seq<int>, k: nat)
    requires k < |c|
    ensures forall j :: 0 <= j < |c| - 1 ==> Remove(c, k)[j] == c[if j < k then j else j + 1]
  {
  }

  lemma RemoveInRange(c: seq<int>, k: nat, n: nat)
    requires InRange(c, n) && k < |c|
    ensures InRange(Remove(c, k), n)
  {
    RemoveAt(c, k);
  }

  /** Different positions of a ring hold different vertices. */
  lemma DistinctAt(c: seq<int>, n: nat, k: nat, l: nat)
    requires IsRing(c, n) && k < |c| && l < |c| && k != l
    ensures c[k] != c[l]
  {
    if k < l { assert Differ(c, k, l); } else { assert Differ(c, l, k); }
  }

  lemma RemoveKeepsRing(c: seq<int>, k: nat, n: nat)
    requires IsRing(c, n) && k < |c|
    ensures IsRing(Remove(c, k), n)
  {
    var r := Remove(c, k);
    RemoveInRange(c, k, n);
    RemoveAt(c, k);
    forall i: nat, j: nat | i < j < |r|
      ensures Differ(r, i, j)
    {
      DistinctAt(c, n, if i < k then i else i + 1, if j < k then j else j + 1);
    }
  }

  /** After removing position k, the vertex before it is followed by the vertex
      after it, and every other vertex keeps its neighbours. Position j of the new
      ring holds the vertex at position o of the old one. */
  lemma RemoveLinks(c: seq<int>, k: nat, j: nat)
    requires 3 < |c| && k < |c| && j < |c| - 1
    ensures var o := if j < k then j else j + 1;
      var r, m := Remove(c, k), |c|;
      r[j] == c[o] && o != k &&
      r[Succ(m - 1, j)] == (if o == Pred(m, k) then c[Succ(m, k)] else c[Succ(m, o)]) &&
      r[Pred(m - 1, j)] == (if o == Succ(m, k) then c[Pred(m, k)] else c[Pred(m, o)])
  {
    RemoveAt(c, k);
  }

  /** Removal drops exactly the vertex at position k. */
  lemma RemoveMembers(c: seq<int>, k: nat, n: nat)
    requires IsRing(c, n) && k < |c|
    ensures forall j :: 0 <= j < |c| && j != k ==> c[j] in Remove(c, k)
    ensures c[k] !in Remove(c, k)
  {
    var r := Remove(c, k);
    RemoveAt(c, k);
    forall j | 0 <= j < |c| && j != k
      ensures c[j] in r
    {
      if j < k { assert r[j] == c[j]; } else { assert r[j - 1] == c[j]; }
    }
    forall j | 0 <= j < |r|
      ensures r[j] != c[k]
    {
      DistinctAt(c, n, if j < k then j else j + 1, k);
    }
  }

  /** The corner (previous, vertex, next) at ring position k, as a triangle. */
  function Corners(pts: seq<Point>, c: seq<int>, k: nat): (t: Polygon)
    requires InRange(c, |pts|) && k < |c|
  {
    [pts[c[Pred(|c|, k)]], pts[c[k]], pts[c[Succ(|c|, k)]]]
  }

  /** The point at index i of the full list is not one the ear test rejects the
      triangle a, b, c for: it equals a corner or fails the containment test. */
  predicate Clear(pts: seq<Point>, a: Point, b: Point, c: Point, i: nat)
    requires i < |pts|
  {
    pts[i] == b || pts[i] == a || pts[i] == c || !IsInside(a, b, c, pts[i])
  }

  /** No point of the full list, other than one equal to a corner, passes the
      containment test of the triangle a, b, c. Inactive vertices are tested too. */
  predicate EmptyTriangle(pts: seq<Point>, a: Point, b: Point, c: Point)
  {
    forall i: nat :: i < |pts| ==> Clear(pts, a, b, c, i)
  }

  /** b, between a and c, is an ear: a convex corner whose triangle holds no other point. */
  predicate IsEar(pts: seq<Point>, a: Point, b: Point, c: Point)
  {
    IsConvex(a, b, c) && EmptyTriangle(pts, a, b, c)
  }

  predicate EarAt(pts: seq<Point>, c: seq<int>, k: nat)
    requires InRange(c, |pts|) && k < |c|
  {
    IsEar(pts, pts[c[Pred(|c|, k)]], pts[c[k]], pts[c[Succ(|c|, k)]])
  }

  function AngleAt(pts: seq<Point>, c: seq<int>, k: nat): real
    requires InRange(c, |pts|) && k < |c|
  {
    AngleKey(pts[c[Pred(|c|, k)]], pts[c[k]], pts[c[Succ(|c|, k)]])
  }

  /** Position m is preferred to position k: a higher score, or the same score and
      a lower vertex index (a scan by increasing index that replaces its choice
      only on a strictly higher score keeps the lowest index among the best). */
  predicate Beats(pts: seq<Point>, c: seq<int>, m: nat, k: nat)
    requires InRange(c, |pts|) && m < |c| && k < |c|
  {
    AngleAt(pts, c, m) > AngleAt(pts, c, k) ||
    (AngleAt(pts, c, m) == AngleAt(pts, c, k) && c[m] < c[k])
  }

  /** Position k holds the ear that ear clipping selects. */
  predicate IsBestEar(pts: seq<Point>, c: seq<int>, k: nat)
    requires InRange(c, |pts|)
  {
    k < |c| && EarAt(pts, c, k) &&
    forall m :: 0 <= m < |c| && EarAt(pts, c, m) ==> !Beats(pts, c, m, k)
  }

  /** At most one position is the selected ear. */
  lemma BestEarUnique(pts: seq<Point>, c: seq<int>, k1: nat, k2: nat)
    requires IsRing(c, |pts|)
    requires IsBestEar(pts, c, k1) && IsBestEar(pts, c, k2)
    ensures k1 == k2
  {
    assert !Beats(pts, c, k1, k2) && !Beats(pts, c, k2, k1);
    if k1 != k2 {
      DistinctAt(c, |pts|, k1, k2);
    }
  }

  /** The preferred ear among ring positions below upto, found by a scan over the
      positions with Beats; None when none of them is an ear. */
  function BestEar(pts: seq<Point>, c: seq<int>, upto: nat): (r: Option<nat>)
    requires InRange(c, |pts|) && upto <= |c|
    ensures r.Some? ==> r.value < upto
    decreases upto
  {
    if upto == 0 then None
    else
      var k := upto - 1;
      var b := BestEar(pts, c, k);
      if !EarAt(pts, c, k) then b
      else if b.None? || Beats(pts, c, k, b.value) then Some(k)
      else b
  }

  /** Beats is a strict order: irreflexive and transitive. */
  lemma BeatsOrder(pts: seq<Point>, c: seq<int>, a: nat, b: nat, d: nat)
    requires InRange(c, |pts|) && a < |c| && b < |c| && d < |c|
    ensures !Beats(pts, c, a, a)
    ensures Beats(pts, c, a, b) && Beats(pts, c, b, d) ==> Beats(pts, c, a, d)
  {
  }

  /** The scan returns an ear that no ear below upto beats, and None only when
      there is no ear below upto. */
  lemma {:induction false} BestEarScan(pts: seq<Point>, c: seq<int>, upto: nat)
    requires InRange(c, |pts|) && upto <= |c|
    ensures var r := BestEar(pts, c, upto);
      r.Some? ==> (EarAt(pts, c, r.value) &&
        forall m :: 0 <= m < upto && EarAt(pts, c, m) ==> !Beats(pts, c, m, r.value))
    ensures BestEar(pts, c, upto).None? ==> forall m :: 0 <= m < upto ==> !EarAt(pts, c, m)
    decreases upto
  {
    if upto > 0 {
      var k := upto - 1;
      BestEarScan(pts, c, k);
      var b := BestEar(pts, c, k);
      if !EarAt(pts, c, k) {
        assert BestEar(pts, c, upto) == b;
      } else if b.None? {
        assert BestEar(pts, c, upto) == Some(k);
        BeatsOrder(pts, c, k, k, k);
      } else if Beats(pts, c, k, b.value) {
        assert BestEar(pts, c, upto) == Some(k);
        forall m | 0 <= m < upto && EarAt(pts, c, m)
          ensures !Beats(pts, c, m, k)
        {
          BeatsOrder(pts, c, m, k, b.value);
        }
      } else {
        assert BestEar(pts, c, upto) == b;
      }
    }
  }

  /** Over the whole ring, BestEar yields exactly the selected ear. */
  lemma BestEarIsSelected(pts: seq<Point>, c: seq<int>)
    requires IsRing(c, |pts|)
    ensures BestEar(pts, c, |c|).Some? <==> exists k :: 0 <= k < |c| && EarAt(pts, c, k)
    ensures forall k: nat :: IsBestEar(pts, c, k) <==> BestEar(pts, c, |c|) == Some(k)
  {
    BestEarScan(pts, c, |c|);
    var b := BestEar(pts, c, |c|);
    if b.Some? {
      assert IsBestEar(pts, c, b.value);
      forall k: nat | IsBestEar(pts, c, k)
        ensures b == Some(k)
      {
        BestEarUnique(pts, c, k, b.value);
      }
    }
  }

  /** The position of the lowest vertex index in the ring: the first active vertex
      a scan by index finds. */
  function ArgMin(c: seq<int>): (k: nat)
    requires |c| > 0
    ensures k < |c|
    ensures forall m :: 0 <= m < |c| ==> c[k] <= c[m]
    decreases |c|
  {
    if |c| == 1 then 0
    else
      var k := ArgMin(c[..|c| - 1]);
      if c[|c| - 1] < c[k] then |c| - 1 else k
  }

  /** Clipping `rounds` ears from the ring c, then emitting the triangle left over.
      Returns the triangles emitted and whether every round found an ear; when a
      round finds none, the triangles emitted before it are returned with false. */
  function EarClip(pts: seq<Point>, c: seq<int>, rounds: nat): (seq<Polygon>, bool)
    requires InRange(c, |pts|) && |c| == rounds + 3
    decreases rounds
  {
    if rounds == 0 then ([Corners(pts, c, ArgMin(c))], true)
    else
      match BestEar(pts, c, |c|)
      case None => ([], false)
      case Some(k) =>
        RemoveInRange(c, k, |pts|);
        var rest := EarClip(pts, Remove(c, k), rounds - 1);
        ([Corners(pts, c, k)] + rest.0, rest.1)
  }

  /** The triangles Triangulate_EC appends for the polygon poly, and whether it
      reports success. */
  function Triangulation(poly: Polygon): (seq<Polygon>, bool)
  {
    if |poly| < 3 then ([], false)
    else if |poly| == 3 then ([poly], true)
    else EarClip(poly, Iota(|poly|), |poly| - 3)
  }

  // ---------------------------------------------------------------------------
  // Properties of the triangulation

  /** One round of EarClip: the selected ear's triangle, then the rounds after it. */
  lemma EarClipStep(pts: seq<Point>, c: seq<int>, rounds: nat, k: nat)
    requires InRange(c, |pts|) && |c| == rounds + 3 && rounds > 0
    requires BestEar(pts, c, |c|) == Some(k)
    ensures k < |c| && InRange(Remove(c, k), |pts|)
    ensures EarClip(pts, c, rounds) ==
      ([Corners(pts, c, k)] + EarClip(pts, Remove(c, k), rounds - 1).0, EarClip(pts, Remove(c, k), rounds - 1).1)
  {
    RemoveInRange(c, k, |pts|);
  }

  /** The first round of EarClip on a ring of more than three vertices whose
      selected ear is at position k: that ear's triangle, then EarClip on the
      ring c1 without it. */
  lemma EarClipRound(pts: seq<Point>, c: seq<int>, k: nat, c1: seq<int>, triangle: Polygon)
    requires InRange(c, |pts|) && |c| > 3 && BestEar(pts, c, |c|) == Some(k)
    requires k < |c| && c1 == Remove(c, k) && triangle == Corners(pts, c, k)
    ensures InRange(c1, |pts|) && |c1| == |c| - 1
    ensures EarClip(pts, c, |c| - 3) ==
      ([triangle] + EarClip(pts, c1, |c1| - 3).0, EarClip(pts, c1, |c1| - 3).1)
  {
    EarClipStep(pts, c, |c| - 3, k);
  }

  lemma {:induction false} EarClipCount(pts: seq<Point>, c: seq<int>, rounds: nat)
    requires InRange(c, |pts|) && |c| == rounds + 3
    ensures EarClip(pts, c, rounds).1 ==> |EarClip(pts, c, rounds).0| == rounds + 1
    ensures !EarClip(pts, c, rounds).1 ==> |EarClip(pts, c, rounds).0| < rounds
    decreases rounds
  {
    var b := BestEar(pts, c, |c|);
    if rounds > 0 && b.Some? {
      EarClipStep(pts, c, rounds, b.value);
      EarClipCount(pts, Remove(c, b.value), rounds - 1);
    } else if rounds > 0 {
      assert EarClip(pts, c, rounds) == ([], false);
    }
  }

  /** A successful triangulation of an n-gon (n >= 3) has n - 2 triangles; a failed
      one has none when n < 3 and fewer than n - 3 otherwise; three vertices give
      back the polygon itself. */
  lemma TriangulationCount(poly: Polygon)
    ensures |poly| < 3 ==> Triangulation(poly) == ([], false)
    ensures |poly| == 3 ==> Triangulation(poly) == ([poly], true)
    ensures Triangulation(poly).1 ==> |poly| >= 3 && |Triangulation(poly).0| == |poly| - 2
    ensures !Triangulation(poly).1 && |poly| > 3 ==> |Triangulation(poly).0| < |poly| - 3
  {
    if |poly| > 3 {
      EarClipCount(poly, Iota(|poly|), |poly| - 3);
    }
  }

  /** t is a triangle whose corners are the input points at three distinct positions. */
  predicate VertexTriangle(pts: seq<Point>, t: Polygon)
  {
    |t| == 3 &&
    exists i, j, l :: 0 <= i < |pts| && 0 <= j < |pts| && 0 <= l < |pts| &&
      i != j && j != l && i != l && t[0] == pts[i] && t[1] == pts[j] && t[2] == pts[l]
  }

  lemma CornersAreVertexTriangle(pts: seq<Point>, c: seq<int>, k: nat)
    requires IsRing(c, |pts|) && |c| >= 3 && k < |c|
    ensures VertexTriangle(pts, Corners(pts, c, k))
  {
    DistinctAt(c, |pts|, Pred(|c|, k), k);
    DistinctAt(c, |pts|, k, Succ(|c|, k));
    DistinctAt(c, |pts|, Pred(|c|, k), Succ(|c|, k));
  }

  /** Every triangle of ts is a VertexTriangle of pts. */
  predicate AllVertexTriangles(pts: seq<Point>, ts: seq<Polygon>)
  {
    forall i :: 0 <= i < |ts| ==> VertexTriangle(pts, ts[i])
  }

  lemma ConsShape(pts: seq<Point>, t: Polygon, ts: seq<Polygon>)
    requires VertexTriangle(pts, t) && AllVertexTriangles(pts, ts)
    ensures AllVertexTriangles(pts, [t] + ts)
  {
    assert forall i :: 0 < i < |ts| + 1 ==> ([t] + ts)[i] == ts[i - 1];
  }

  lemma {:induction false} EarClipShape(pts: seq<Point>, c: seq<int>, rounds: nat)
    requires IsRing(c, |pts|) && |c| == rounds + 3
    ensures AllVertexTriangles(pts, EarClip(pts, c, rounds).0)
    decreases rounds
  {
    var b := BestEar(pts, c, |c|);
    if rounds == 0 {
      CornersAreVertexTriangle(pts, c, ArgMin(c));
    } else if b.Some? {
      var k := b.value;
      RemoveKeepsRing(c, k, |pts|);
      EarClipShape(pts, Remove(c, k), rounds - 1);
      ShapeStep(pts, c, rounds, k);
    } else {
      assert EarClip(pts, c, rounds) == ([], false);
    }
  }

  /** One round keeps every emitted triangle a VertexTriangle. */
  lemma ShapeStep(pts: seq<Point>, c: seq<int>, rounds: nat, k: nat)
    requires IsRing(c, |pts|) && |c| == rounds + 3 && rounds > 0
    requires BestEar(pts, c, |c|) == Some(k)
    requires k < |c| && IsRing(Remove(c, k), |pts|)
    requires AllVertexTriangles(pts, EarClip(pts, Remove(c, k), rounds - 1).0)
    ensures AllVertexTriangles(pts, EarClip(pts, c, rounds).0)
  {
    EarClipStep(pts, c, rounds, k);
    CornersAreVertexTriangle(pts, c, k);
    ConsShape(pts, Corners(pts, c, k), EarClip(pts, Remove(c, k), rounds - 1).0);
  }

  /** Every emitted triangle has three corners taken from three distinct vertices
      of the input polygon. */
  lemma TriangulationShape(poly: Polygon)
    ensures AllVertexTriangles(poly, Triangulation(poly).0)
  {
    if |poly| == 3 {
      assert VertexTriangle(poly, poly) by {
        assert poly[0] == poly[0] && poly[1] == poly[1] && poly[2] == poly[2];
        assert 0 != 1 && 1 != 2 && 0 != 2;
      }
    } else if |poly| > 3 {
      EarClipShape(poly, Iota(|poly|), |poly| - 3);
    }
  }

  /** t is a triangle turning counter-clockwise (strictly). */
  predicate IsCCWTriangle(t: Polygon)
  {
    |t| == 3 && IsConvex(t[0], t[1], t[2])
  }

  /** Every triangle cut off as an ear turns counter-clockwise; only the triangle
      left over at the end of a successful run can fail to. */
  predicate EarsTurnLeft(ts: seq<Polygon>, ok: bool)
  {
    forall i :: 0 <= i < |ts| && (!ok || i < |ts| - 1) ==> IsCCWTriangle(ts[i])
  }

  lemma {:induction false} EarClipEarsConvex(pts: seq<Point>, c: seq<int>, rounds: nat)
    requires InRange(c, |pts|) && |c| == rounds + 3
    ensures EarsTurnLeft(EarClip(pts, c, rounds).0, EarClip(pts, c, rounds).1)
    decreases rounds
  {
    var b := BestEar(pts, c, |c|);
    if rounds > 0 && b.Some? {
      var k := b.value;
      EarClipStep(pts, c, rounds, k);
      BestEarScan(pts, c, |c|);
      assert IsCCWTriangle(Corners(pts, c, k));
      EarClipEarsConvex(pts, Remove(c, k), rounds - 1);
    } else if rounds > 0 {
      assert EarClip(pts, c, rounds) == ([], false);
    }
  }

  lemma TriangulationEarsConvex(poly: Polygon)
    ensures EarsTurnLeft(Triangulation(poly).0, Triangulation(poly).1)
  {
    if |poly| > 3 {
      EarClipEarsConvex(poly, Iota(|poly|), |poly| - 3);
    }
  }
}
