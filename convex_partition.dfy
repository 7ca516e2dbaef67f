/**
  The Hertel-Mehlhorn convex partition: a polygon without a reflex corner is
  returned whole; otherwise it is triangulated by ear clipping and neighbouring
  pieces are glued along shared edges whenever both corners the glue creates
  stay convex.
 */
module ConvexPartition {
  import opened Geometry
  import opened EarClipSpec
  import opened EarClipping
  import opened PartitionSpec

  /** The scan that decides whether the polygon needs partitioning: it stops at the first reflex corner. */
  method AnyReflex(poly: Polygon) returns (found: bool)
    ensures found <==> HasReflex(poly)
  {
    found := false;
    var i11 := 0;
    while i11 < |poly|
      invariant 0 <= i11 <= |poly|
      invariant forall j :: 0 <= j < i11 ==> !ReflexCorner(poly, j)
    {
      var i12 := if i11 == 0 then |poly| - 1 else i11 - 1;
      var i13 := if i11 == |poly| - 1 then 0 else i11 + 1;
      if IsReflex(poly[i12], poly[i11], poly[i13]) {
        assert ReflexCorner(poly, i11);
        found := true;
        break;
      }
      i11 := i11 + 1;
    }
  }

  /**
    The search for a later piece holding the edge d1 -> d2 backwards: pieces are
    tried in order after iter1, and positions within a piece in order, and the
    first match is returned.
   */
  method FindSharedEdge(ps: seq<Polygon>, iter1: nat, d1: Point, d2: Point)
    returns (found: bool, iter2: nat, i21: nat)
    requires iter1 < |ps|
    ensures found ==> FirstSharedEdge(ps, iter1, d1, d2, iter2, i21)
    ensures !found ==> NoSharedEdgeIn(ps, iter1 + 1, |ps|, d1, d2)
  {
    found := false;
    iter2 := iter1 + 1;
    i21 := 0;
    while iter2 < |ps|
      invariant iter1 < iter2 <= |ps|
      invariant NoSharedEdgeIn(ps, iter1 + 1, iter2, d1, d2)
    {
      var poly2 := ps[iter2];
      i21 := 0;
      while i21 < |poly2|
        invariant 0 <= i21 <= |poly2|
        invariant NoSharedEdgeBelow(poly2, i21, d1, d2)
      {
        if d2 == poly2[i21] && d1 == poly2[(i21 + 1) % |poly2|] {
          found := true;
          break;
        }
        i21 := i21 + 1;
      }
      if found {
        break;
      }
      iter2 := iter2 + 1;
    }
  }

  /**
    One of the two copy loops that fill the glued piece: walks p cyclically from
    the successor of i up to, but not including, i, writing the |p| - 1 vertices
    met into buffer from position k0 on; positions before k0 are left alone.
   */
  method CopyRun(buffer: array<Point>, k0: nat, p: Polygon, i: nat) returns (k: nat)
    requires i < |p| && k0 + |p| - 1 <= buffer.Length
    modifies buffer
    ensures k == k0 + |p| - 1
    ensures forall t :: 0 <= t < k0 ==> buffer[t] == old(buffer[t])
    ensures forall t :: k0 <= t < k ==> buffer[t] == p[((i + 1) % |p| + (t - k0)) % |p|]
  {
    var n := |p|;
    var start := (i + 1) % n;
    ModOnce(n, i + 1);
    k := k0;
    var j := start;
    while j != i
      invariant k0 <= k <= k0 + n - 1
      invariant j == if start + (k - k0) < n then start + (k - k0) else start + (k - k0) - n
      invariant forall t :: 0 <= t < k0 ==> buffer[t] == old(buffer[t])
      invariant forall t :: k0 <= t < k ==> buffer[t] == p[(start + (t - k0)) % n]
      decreases k0 + n - 1 - k
    {
      buffer[k] := p[j];
      ModOnce(n, start + (k - k0));
      ModOnce(n, j + 1);
      k := k + 1;
      j := (j + 1) % n;
    }
  }

  /**
    Builds the glued piece in a fresh buffer of |poly1| + |poly2| - 2 points: first
    poly1 from the end of the shared edge round to its start, then poly2 likewise.
   */
  method MergePieces(poly1: Polygon, i11: nat, poly2: Polygon, i21: nat) returns (newpoly: Polygon)
    requires i11 < |poly1| && i21 < |poly2|
    ensures newpoly == MergedPolygon(poly1, i11, poly2, i21)
  {
    var buffer := new Point[|poly1| + |poly2| - 2];
    var k := CopyRun(buffer, 0, poly1, i11);
    k := CopyRun(buffer, k, poly2, i21);
    newpoly := buffer[..];
    FilledIsMerged(newpoly, poly1, i11, poly2, i21);
  }

  /** A buffer holding the two cyclic runs position by position is the glued polygon. */
  lemma FilledIsMerged(b: Polygon, p1: Polygon, i11: nat, p2: Polygon, i21: nat)
    requires i11 < |p1| && i21 < |p2| && |b| == |p1| + |p2| - 2
    requires forall t :: 0 <= t < |p1| - 1 ==> b[t] == p1[((i11 + 1) % |p1| + t) % |p1|]
    requires forall t :: |p1| - 1 <= t < |b| ==>
      b[t] == p2[((i21 + 1) % |p2| + (t - (|p1| - 1))) % |p2|]
    ensures b == MergedPolygon(p1, i11, p2, i21)
  {
    forall t | 0 <= t < |b|
      ensures b[t] == MergedPolygon(p1, i11, p2, i21)[t]
    {
      if t < |p1| - 1 {
        MergedFromFirst(p1, i11, p2, i21, t);
      } else {
        MergedFromSecond(p1, i11, p2, i21, t - (|p1| - 1));
      }
    }
  }

  /**
    The two convexity tests made before gluing: first the corner at the start of
    the shared edge, then, only when that one passes, the corner at its end.
   */
  method GlueCornersConvex(poly1: Polygon, i11: nat, poly2: Polygon, i21: nat) returns (convex: bool)
    requires i11 < |poly1| && i21 < |poly2| && |poly1| >= 3 && |poly2| >= 3
    requires SharesEdge(poly2, i21, poly1[i11], poly1[(i11 + 1) % |poly1|])
    ensures convex <==> MergeCornersConvex(poly1, i11, poly2, i21)
    ensures convex <==> (ConvexCorner(MergedPolygon(poly1, i11, poly2, i21), 0) &&
                         ConvexCorner(MergedPolygon(poly1, i11, poly2, i21), |poly1| - 1))
  {
    GlueCorners(poly1, i11, poly2, i21);
    var i12 := (i11 + 1) % |poly1|;
    var i22 := (i21 + 1) % |poly2|;
    var i13 := if i11 == 0 then |poly1| - 1 else i11 - 1;
    var i23 := if i22 == |poly2| - 1 then 0 else i22 + 1;
    if !IsConvex(poly1[i13], poly1[i11], poly2[i23]) {
      return false;
    }
    i13 := if i12 == |poly1| - 1 then 0 else i12 + 1;
    i23 := if i21 == 0 then |poly2| - 1 else i21 - 1;
    convex := IsConvex(poly2[i23], poly1[i12], poly1[i13]);
  }

  /**
    One step of the merging loop, at edge i11 of piece iter1: when a later piece
    shares that edge and both corners the glue would create are convex, that piece
    is removed and its union with piece iter1 takes the place of piece iter1.
   */
  method MergeAcross(poly: Polygon, ghost bound: int, ps: seq<Polygon>, iter1: nat, i11: nat)
    returns (merged: bool, ps': seq<Polygon>)
    requires PartitionState(poly, ps, bound) && iter1 < |ps| && i11 < |ps[iter1]|
    ensures PartitionState(poly, ps', bound)
    ensures iter1 < |ps'| && ps'[..iter1] == ps[..iter1]
    ensures merged <==> Mergeable(ps, iter1, i11)
    ensures merged ==> |ps'| == |ps| - 1
    ensures !merged ==> ps' == ps
    ensures merged ==> exists iter2: nat, i21: nat ::
      FirstSharedEdge(ps, iter1, ps[iter1][i11], ps[iter1][(i11 + 1) % |ps[iter1]|], iter2, i21) &&
      ps' == MergeAt(ps, iter1, i11, iter2, i21)
  {
    merged, ps' := false, ps;
    var poly1 := ps[iter1];
    var d1 := poly1[i11];
    var i12 := (i11 + 1) % |poly1|;
    var d2 := poly1[i12];
    var isDiagonal, iter2, i21 := FindSharedEdge(ps, iter1, d1, d2);
    if !isDiagonal {
      NoPlaceNotMergeable(ps, iter1, i11);
      return;
    }
    var poly2 := ps[iter2];
    var convex := GlueCornersConvex(poly1, i11, poly2, i21);
    FirstPlaceDecides(ps, iter1, i11, iter2, i21);
    if !convex {
      return;
    }
    var newpoly := MergePieces(poly1, i11, poly2, i21);
    MergeStep(poly, ps, iter1, i11, iter2, i21);
    merged, ps' := true, Without(ps, iter2)[iter1 := newpoly];
    assert ps' == MergeAt(ps, iter1, i11, iter2, i21);
    assert ps'[..iter1] == ps[..iter1];
  }

  /**
    The inner loop of the partition: walks the edges of piece iter1, restarting
    from its first edge after every merge, until no edge of it can be removed.
   */
  method GrowPiece(poly: Polygon, ghost bound: int, ps: seq<Polygon>, iter1: nat) returns (ps': seq<Polygon>)
    requires PartitionState(poly, ps, bound) && iter1 < |ps|
    ensures PartitionState(poly, ps', bound) && iter1 < |ps'| <= |ps|
    ensures ps'[..iter1] == ps[..iter1]
    ensures Saturated(ps', iter1, |ps'[iter1]|)
    ensures ps' == Grow(ps, iter1, 0)
  {
    ps' := ps;
    var poly1 := ps'[iter1];
    var i11 := 0;
    while i11 < |poly1|
      invariant PartitionState(poly, ps', bound) && iter1 < |ps'| <= |ps|
      invariant ps'[..iter1] == ps[..iter1]
      invariant poly1 == ps'[iter1] && i11 <= |poly1|
      invariant Saturated(ps', iter1, i11)
      invariant Grow(ps', iter1, i11) == Grow(ps, iter1, 0)
      decreases |ps'|, |poly1| - i11
    {
      ghost var before := ps';
      var merged;
      merged, ps' := MergeAcross(poly, bound, ps', iter1, i11);
      if merged {
        ghost var iter2: nat, i21: nat :|
          FirstSharedEdge(before, iter1, before[iter1][i11], before[iter1][(i11 + 1) % |before[iter1]|], iter2, i21) &&
          ps' == MergeAt(before, iter1, i11, iter2, i21);
        GrowMerge(before, iter1, i11, iter2, i21);
        poly1 := ps'[iter1];
        i11 := 0;
      } else {
        SaturatedExtend(ps', iter1, i11);
        i11 := i11 + 1;
      }
    }
  }

  /**
    ConvexPartition_HM. Returns 1 with the pieces, or 0 with none when ear clipping
    fails. A polygon without a reflex corner is its own single piece. Otherwise the
    pieces start as the ear-clipping triangles and are glued pairwise; every piece
    keeps at least three vertices taken from the polygon, the vertex excess stays
    |poly| - 2, and gluing never adds a non-convex piece, so at most one piece can
    fail to be convex. The pieces are exactly those of HM, the two merging loops.
   */
  method ConvexPartitionHM(poly: Polygon) returns (r: int, parts: seq<Polygon>)
    ensures r == 0 || r == 1
    ensures !HasReflex(poly) ==> r == 1 && parts == [poly]
    ensures HasReflex(poly) ==> (r == 1 <==> Triangulation(poly).1)
    ensures r == 0 ==> parts == []
    ensures HasReflex(poly) && r == 1 ==>
      1 <= |parts| <= |poly| - 2 && PiecesOf(poly, parts) && Excess(parts) == |poly| - 2 &&
      NonConvexCount(parts) <= NonConvexCount(Triangulation(poly).0) <= 1
    ensures HasReflex(poly) && r == 1 ==> parts == HM(Triangulation(poly).0, 0)
  {
    var reflex := AnyReflex(poly);
    if !reflex {
      return 1, [poly];
    }
    var status, triangles := TriangulateEC(poly);
    if status != 1 {
      return 0, [];
    }
    TrianglesStartPartition(poly);
    ghost var bound := NonConvexCount(triangles);
    ghost var start := triangles;
    var iter1 := 0;
    while iter1 < |triangles|
      invariant PartitionState(poly, triangles, bound) && iter1 <= |triangles| <= |poly| - 2
      invariant HM(triangles, iter1) == HM(start, 0)
      decreases |triangles| - iter1
    {
      triangles := GrowPiece(poly, bound, triangles, iter1);
      iter1 := iter1 + 1;
    }
    parts := triangles;
    r := 1;
  }
}
