/**
  Ear-clipping triangulation as the partition engine runs it: a list of vertex
  records linked into a ring by previous/next indices, each caching whether it is
  convex, whether it is an ear and its ear-quality score. Each round scans the
  list for the best active ear, cuts it off, relinks its neighbours and
  reclassifies them. The whole run is proved to produce what EarClip specifies.
 */
module EarClipping {
  import opened Geometry
  import opened EarClipSpec

  /** One entry of the vertex list: the activity flag, the cached classification,
      the position, and the indices of the ring neighbours in the list. */
  datatype Vertex = Vertex(
    isActive: bool, isConvex: bool, isEar: bool,
    p: Point, angle: real,
    previous: int, next: int)

  /** The cached fields of x, the record of vertex v, agree with its current
      neighbours: the values UpdateVertex computes for them. */
  predicate Classified(pts: seq<Point>, x: Vertex, v: int)
  {
    0 <= v < |pts| && 0 <= x.previous < |pts| && 0 <= x.next < |pts| &&
    x.isConvex == IsConvex(pts[x.previous], pts[v], pts[x.next]) &&
    x.isEar == IsEar(pts, pts[x.previous], pts[v], pts[x.next]) &&
    x.angle == AngleKey(pts[x.previous], pts[v], pts[x.next])
  }

  /** The vertex u with record y is preferred to the vertex v with record x by the
      scan for the best ear: a strictly higher score, or the same score and a
      lower index (the scan goes by increasing index and only replaces its choice
      on a strictly higher score). */
  predicate Prefers(y: Vertex, u: int, x: Vertex, v: int)
  {
    y.angle > x.angle || (y.angle == x.angle && u < v)
  }

  /** The records vs describe the ring c over the points pts: record i holds
      pts[i], exactly the vertices of c are active, and each active record links
      to its neighbours in c. */
  predicate RingRecords(pts: seq<Point>, vs: seq<Vertex>, c: seq<int>)
  {
    |vs| == |pts| && IsRing(c, |pts|) && |c| >= 3 &&
    (forall i :: 0 <= i < |vs| ==> vs[i].p == pts[i]) &&
    ActiveExactly(vs, c) && Linked(vs, c)
  }

  /** Exactly the vertices of c are active. */
  predicate ActiveExactly(vs: seq<Vertex>, c: seq<int>)
  {
    forall i {:trigger vs[i].isActive} :: 0 <= i < |vs| ==> (vs[i].isActive <==> i in c)
  }

  /** Each vertex of c links to its neighbours in c. */
  predicate Linked(vs: seq<Vertex>, c: seq<int>)
    requires InRange(c, |vs|)
  {
    forall k {:trigger vs[c[k]]} :: 0 <= k < |c| ==>
      vs[c[k]].previous == c[Pred(|c|, k)] && vs[c[k]].next == c[Succ(|c|, k)]
  }

  /** The records after the ear at position k of c is cut off. */
  function Clipped(vs: seq<Vertex>, e: int, p: int, q: int): seq<Vertex>
    requires 0 <= e < |vs| && 0 <= p < |vs| && 0 <= q < |vs|
  {
    var vs1 := vs[e := vs[e].(isActive := false)];
    var vs2 := vs1[p := vs1[p].(next := q)];
    vs2[q := vs2[q].(previous := p)]
  }

  /** Clipping marks e inactive, links p forward to q and q back to p, and
      leaves every other record as it was. */
  lemma ClippedFrame(vs: seq<Vertex>, e: int, p: int, q: int)
    requires 0 <= e < |vs| && 0 <= p < |vs| && 0 <= q < |vs|
    requires e != p && e != q && p != q
    ensures var vs' := Clipped(vs, e, p, q);
      |vs'| == |vs| &&
      vs'[e] == vs[e].(isActive := false) &&
      vs'[p] == vs[p].(next := q) &&
      vs'[q] == vs[q].(previous := p) &&
      forall u :: 0 <= u < |vs| && u != e && u != p && u != q ==> vs'[u] == vs[u]
  {
  }

  /** Cutting off an ear leaves records describing the ring without it. */
  lemma ClippedRing(pts: seq<Point>, vs: seq<Vertex>, c: seq<int>, k: nat)
    requires RingRecords(pts, vs, c) && |c| > 3 && k < |c|
    ensures var m := |c|;
      RingRecords(pts, Clipped(vs, c[k], c[Pred(m, k)], c[Succ(m, k)]), Remove(c, k))
  {
    var m := |c|;
    var vs' := Clipped(vs, c[k], c[Pred(m, k)], c[Succ(m, k)]);
    var r := Remove(c, k);
    RemoveKeepsRing(c, k, |pts|);
    ClippedLinks(pts, vs, c, k);
    ClippedActive(pts, vs, c, k);
    ClippedPoints(vs, c[k], c[Pred(m, k)], c[Succ(m, k)]);
    assert |vs'| == |pts| && IsRing(r, |pts|) && |r| >= 3;
  }

  /** Clipping changes no record's point. */
  lemma ClippedPoints(vs: seq<Vertex>, e: int, p: int, q: int)
    requires 0 <= e < |vs| && 0 <= p < |vs| && 0 <= q < |vs|
    ensures var vs' := Clipped(vs, e, p, q);
      |vs'| == |vs| && forall i :: 0 <= i < |vs| ==> vs'[i].p == vs[i].p
  {
  }

  lemma ClippedLinks(pts: seq<Point>, vs: seq<Vertex>, c: seq<int>, k: nat)
    requires |vs| == |pts| && IsRing(c, |pts|) && Linked(vs, c) && |c| > 3 && k < |c|
    ensures InRange(Remove(c, k), |pts|)
    ensures Linked(Clipped(vs, c[k], c[Pred(|c|, k)], c[Succ(|c|, k)]), Remove(c, k))
  {
    var m, e, p, q := |c|, c[k], c[Pred(|c|, k)], c[Succ(|c|, k)];
    var n := |pts|;
    DistinctAt(c, n, Pred(m, k), k);
    DistinctAt(c, n, k, Succ(m, k));
    DistinctAt(c, n, Pred(m, k), Succ(m, k));
    var vs' := Clipped(vs, e, p, q);
    var r := Remove(c, k);
    RemoveInRange(c, k, n);
    forall j | 0 <= j < |r|
      ensures vs'[r[j]].previous == r[Pred(|r|, j)] && vs'[r[j]].next == r[Succ(|r|, j)]
    {
      ClippedLinkAt(pts, vs, c, k, j);
    }
  }

  /** The links of the vertex at position j of the clipped ring. */
  lemma ClippedLinkAt(pts: seq<Point>, vs: seq<Vertex>, c: seq<int>, k: nat, j: nat)
    requires |vs| == |pts| && IsRing(c, |pts|) && Linked(vs, c)
    requires |c| > 3 && k < |c| && j < |c| - 1
    ensures var r := Remove(c, k);
      var vs' := Clipped(vs, c[k], c[Pred(|c|, k)], c[Succ(|c|, k)]);
      0 <= r[j] < |vs| &&
      vs'[r[j]].previous == r[Pred(|r|, j)] && vs'[r[j]].next == r[Succ(|r|, j)]
  {
    var m, e, p, q := |c|, c[k], c[Pred(|c|, k)], c[Succ(|c|, k)];
    var n := |pts|;
    var vs' := Clipped(vs, e, p, q);
    RemoveLinks(c, k, j);
    var o := if j < k then j else j + 1;
    var u := c[o];
    assert vs[c[o]].previous == c[Pred(m, o)] && vs[c[o]].next == c[Succ(m, o)];
    DistinctAt(c, n, o, k);
    DistinctAt(c, n, Pred(m, k), Succ(m, k));
    if o == Pred(m, k) {
      assert vs'[u] == vs[u].(next := q);
    } else if o == Succ(m, k) {
      assert vs'[u] == vs[u].(previous := p);
    } else {
      DistinctAt(c, n, o, Pred(m, k));
      DistinctAt(c, n, o, Succ(m, k));
      assert vs'[u] == vs[u];
    }
  }

  lemma ClippedActive(pts: seq<Point>, vs: seq<Vertex>, c: seq<int>, k: nat)
    requires RingRecords(pts, vs, c) && |c| > 3 && k < |c|
    ensures ActiveExactly(Clipped(vs, c[k], c[Pred(|c|, k)], c[Succ(|c|, k)]), Remove(c, k))
  {
    var m, e := |c|, c[k];
    var vs' := Clipped(vs, e, c[Pred(m, k)], c[Succ(m, k)]);
    var r := Remove(c, k);
    RemoveMembers(c, k, |pts|);
    forall i | 0 <= i < |vs'|
      ensures vs'[i].isActive <==> i in r
    {
      assert vs'[i].isActive == (i != e && vs[i].isActive);
      if i != e && i in c {
        var o :| 0 <= o < m && c[o] == i;
      }
    }
  }

  /** No active record among vs is an ear. */
  predicate NoActiveEar(vs: seq<Vertex>)
  {
    forall j :: 0 <= j < |vs| ==> !(vs[j].isActive && vs[j].isEar)
  }

  /** ear is an active ear among vs that no other active ear is preferred to. */
  predicate BestActiveEar(vs: seq<Vertex>, ear: int)
  {
    0 <= ear < |vs| && vs[ear].isActive && vs[ear].isEar &&
    forall j :: (0 <= j < |vs| && vs[j].isActive && vs[j].isEar) ==>
      !Prefers(vs[j], j, vs[ear], ear)
  }

  /** Every active record among vs has a current classification. */
  predicate AllClassifiedRecords(pts: seq<Point>, vs: seq<Vertex>)
  {
    forall v :: 0 <= v < |vs| && vs[v].isActive ==> Classified(pts, vs[v], v)
  }

  /** Every active record below index i has a current classification. */
  predicate ClassifiedBelow(pts: seq<Point>, vs: seq<Vertex>, i: int)
  {
    forall v :: 0 <= v < i && v < |vs| && vs[v].isActive ==> Classified(pts, vs[v], v)
  }

  /** Classifying record i extends the classified prefix by one; once the
      prefix covers every record, all of them are classified. */
  lemma ClassifiedExtend(pts: seq<Point>, vs: seq<Vertex>, vs': seq<Vertex>, i: nat)
    requires ClassifiedBelow(pts, vs, i) && i < |vs| == |vs'|
    requires vs' == vs[i := vs'[i]] && Classified(pts, vs'[i], i)
    ensures ClassifiedBelow(pts, vs', i + 1)
    ensures i + 1 == |vs'| ==> AllClassifiedRecords(pts, vs')
  {
    assert forall v :: 0 <= v < i ==> vs'[v] == vs[v];
  }

  /** The record of the vertex at position m of the ring links to the ring
      neighbours, and, when classified, caches the ear status and score the
      specification gives that position. */
  lemma RecordAt(pts: seq<Point>, vs: seq<Vertex>, c: seq<int>, m: nat)
    requires RingRecords(pts, vs, c) && m < |c|
    ensures 0 <= c[m] < |vs| && vs[c[m]].isActive
    ensures vs[c[m]].previous == c[Pred(|c|, m)] && vs[c[m]].next == c[Succ(|c|, m)]
    ensures Corners(pts, c, m) == [vs[vs[c[m]].previous].p, vs[c[m]].p, vs[vs[c[m]].next].p]
    ensures AllClassifiedRecords(pts, vs) ==>
      vs[c[m]].isEar == EarAt(pts, c, m) && vs[c[m]].angle == AngleAt(pts, c, m)
  {
    assert c[m] in c;
    assert vs[c[m]].previous == c[Pred(|c|, m)];
  }

  /** An active record links to records of the list. */
  lemma ActiveLinks(pts: seq<Point>, vs: seq<Vertex>, c: seq<int>, v: int)
    requires RingRecords(pts, vs, c) && 0 <= v < |vs| && vs[v].isActive
    ensures 0 <= vs[v].previous < |vs| && 0 <= vs[v].next < |vs|
  {
    var m :| 0 <= m < |c| && c[m] == v;
    RecordAt(pts, vs, c, m);
  }

  /** When the scan finds no active ear, the ring has no ear. */
  lemma NoEarRecords(pts: seq<Point>, vs: seq<Vertex>, c: seq<int>)
    requires RingRecords(pts, vs, c) && AllClassifiedRecords(pts, vs)
    requires NoActiveEar(vs)
    ensures BestEar(pts, c, |c|) == None
  {
    BestEarIsSelected(pts, c);
    forall m | 0 <= m < |c|
      ensures !EarAt(pts, c, m)
    {
      RecordAt(pts, vs, c, m);
    }
  }

  /** The active ear that the scan finds is the ear that the specification
      selects; k is its position in the ring. */
  lemma ChosenEarIsBest(pts: seq<Point>, vs: seq<Vertex>, c: seq<int>, ear: int) returns (k: nat)
    requires RingRecords(pts, vs, c) && AllClassifiedRecords(pts, vs)
    requires BestActiveEar(vs, ear)
    ensures k < |c| && c[k] == ear && BestEar(pts, c, |c|) == Some(k)
  {
    assert ear in c;
    k :| 0 <= k < |c| && c[k] == ear;
    RecordAt(pts, vs, c, k);
    forall m | 0 <= m < |c| && EarAt(pts, c, m)
      ensures !Beats(pts, c, m, k)
    {
      RecordAt(pts, vs, c, m);
      assert !Prefers(vs[c[m]], c[m], vs[ear], ear);
      assert Beats(pts, c, m, k) ==> Prefers(vs[c[m]], c[m], vs[ear], ear);
    }
    assert IsBestEar(pts, c, k);
    BestEarIsSelected(pts, c);
  }

  /** Changing only the cached fields of the records keeps the ring they describe. */
  lemma UpdatedRing(pts: seq<Point>, vs: seq<Vertex>, vs': seq<Vertex>, c: seq<int>)
    requires RingRecords(pts, vs, c) && |vs'| == |vs|
    requires forall i :: 0 <= i < |vs| ==> (vs'[i].p == vs[i].p &&
      vs'[i].isActive == vs[i].isActive && vs'[i].previous == vs[i].previous &&
      vs'[i].next == vs[i].next)
    ensures RingRecords(pts, vs', c)
  {
    forall k | 0 <= k < |c|
      ensures vs'[c[k]].previous == c[Pred(|c|, k)] && vs'[c[k]].next == c[Succ(|c|, k)]
    {
      assert vs[c[k]].previous == c[Pred(|c|, k)];
    }
  }

  /** After an ear e is cut off (vs1) and its neighbours p and q are
      reclassified one after the other (vs2, vs3), every active record is
      classified again. */
  lemma ReclassifiedAfterClip(pts: seq<Point>, vs0: seq<Vertex>, vs1: seq<Vertex>,
      vs2: seq<Vertex>, vs3: seq<Vertex>, e: int, p: int, q: int)
    requires AllClassifiedRecords(pts, vs0)
    requires 0 <= e < |vs0| && 0 <= p < |vs0| && 0 <= q < |vs0| && e != p && e != q && p != q
    requires vs1 == Clipped(vs0, e, p, q) && |vs2| == |vs3| == |vs0|
    requires vs2 == vs1[p := vs2[p]] && vs3 == vs2[q := vs3[q]]
    requires Classified(pts, vs2[p], p) && Classified(pts, vs3[q], q)
    ensures AllClassifiedRecords(pts, vs3)
  {
    ClippedFrame(vs0, e, p, q);
    assert !vs3[e].isActive;
    forall u | 0 <= u < |vs3| && vs3[u].isActive
      ensures Classified(pts, vs3[u], u)
    {
      if u != p && u != q {
        assert vs3[u] == vs2[u] == vs1[u] == vs0[u];
      }
    }
  }

  class VertexRing {
    /** The polygon's vertices, fixed for the whole run. */
    const pts: seq<Point>
    /** The vertex list; entry i describes pts[i]. */
    const vertices: array<Vertex>
    /** The active vertices in ring order. */
    ghost var cycle: seq<int>

    /** The links of the active records form the ring `cycle`, and exactly the
        vertices of `cycle` are active. */
    ghost predicate Valid()
      reads this, vertices
    {
      RingRecords(pts, vertices[..], cycle)
    }

    /** Every active record's cached classification is current. */
    ghost predicate AllClassified()
      reads this, vertices
    {
      AllClassifiedRecords(pts, vertices[..])
    }

    /** The list for an n-gon with n > 3: every vertex active, vertex i linked to
        i - 1 and i + 1 cyclically, nothing classified yet. */
    constructor (poly: seq<Point>)
      requires |poly| > 3
      ensures pts == poly && Valid() && cycle == Iota(|poly|)
      ensures fresh(vertices)
    {
      var n := |poly|;
      var a := new Vertex[n];
      for i := 0 to n
        invariant forall j :: 0 <= j < i ==>
          a[j] == Vertex(true, false, false, poly[j], 0.0, Pred(n, j), Succ(n, j))
      {
        a[i] := Vertex(true, false, false, poly[i], 0.0, Pred(n, i), Succ(n, i));
      }
      pts := poly;
      vertices := a;
      cycle := Iota(n);
      new;
      assert forall i :: 0 <= i < n ==> i in cycle by {
        forall i | 0 <= i < n
          ensures i in cycle
        {
          assert cycle[i] == i;
        }
      }
    }

    /** Recomputes the convexity, score and ear status of vertex v from its
        current neighbours; only those three fields of record v change. */
    method UpdateVertex(v: int)
      requires vertices.Length == |pts| && 0 <= v < |pts|
      requires 0 <= vertices[v].previous < |pts| && 0 <= vertices[v].next < |pts|
      modifies vertices
      ensures Classified(pts, vertices[v], v)
      ensures vertices[v] == old(vertices[v]).(isConvex := vertices[v].isConvex,
        isEar := vertices[v].isEar, angle := vertices[v].angle)
      ensures vertices[..] == old(vertices[..])[v := vertices[v]] && cycle == old(cycle)
      ensures old(Valid()) ==> Valid()
    {
      var x := vertices[v];
      var p1, p, p3 := pts[x.previous], pts[v], pts[x.next];
      var isConvex := IsConvex(p1, p, p3);
      var angle := AngleKey(p1, p, p3);
      var isEar := false;
      if isConvex {
        isEar := true;
        var i := 0;
        while i < |pts|
          invariant 0 <= i <= |pts|
          invariant isEar <==> forall j: nat :: j < i ==> Clear(pts, p1, p, p3, j)
        {
          if pts[i] == p || pts[i] == p1 || pts[i] == p3 {
            i := i + 1;
            continue;
          }
          if IsInside(p1, p, p3, pts[i]) {
            assert !Clear(pts, p1, p, p3, i);
            isEar := false;
            break;
          }
          i := i + 1;
        }
      }
      ghost var before := vertices[..];
      vertices[v] := x.(isConvex := isConvex, isEar := isEar, angle := angle);
      if old(Valid()) {
        UpdatedRing(pts, before, vertices[..], cycle);
      }
    }

    /** The scan for the most extruded ear: the active ear that no other active
        ear is preferred to, or none when no active vertex is an ear. */
    method FindEar() returns (found: bool, ear: int)
      ensures found ==> BestActiveEar(vertices[..], ear)
      ensures !found <==> NoActiveEar(vertices[..])
    {
      found, ear := false, 0;
      for j := 0 to vertices.Length
        invariant found ==> 0 <= ear < j && vertices[ear].isActive && vertices[ear].isEar
        invariant found ==> forall i :: (0 <= i < j && vertices[i].isActive &&
          vertices[i].isEar) ==> !Prefers(vertices[i], i, vertices[ear], ear)
        invariant !found ==> forall i :: 0 <= i < j ==> !(vertices[i].isActive && vertices[i].isEar)
      {
        if !vertices[j].isActive || !vertices[j].isEar {
          continue;
        }
        if !found {
          found, ear := true, j;
        } else if vertices[j].angle > vertices[ear].angle {
          ear := j;
        }
      }
    }

    /** Cuts the ear e, at position k of the ring, off: e becomes inactive and its
        two neighbours are linked to each other; no other record changes. */
    method ClipEar(e: int, ghost k: nat)
      requires Valid() && |cycle| > 3 && k < |cycle| && cycle[k] == e
      modifies this, vertices
      ensures Valid() && cycle == Remove(old(cycle), k)
      ensures old(vertices[e].previous) == old(cycle)[Pred(|old(cycle)|, k)]
      ensures old(vertices[e].next) == old(cycle)[Succ(|old(cycle)|, k)]
      ensures vertices[..] ==
        Clipped(old(vertices[..]), e, old(vertices[e].previous), old(vertices[e].next))
    {
      ghost var c, m := cycle, |cycle|;
      var p, q := vertices[e].previous, vertices[e].next;
      ClippedRing(pts, vertices[..], c, k);
      DistinctAt(c, |pts|, Pred(m, k), k);
      DistinctAt(c, |pts|, k, Succ(m, k));
      DistinctAt(c, |pts|, Pred(m, k), Succ(m, k));
      vertices[e] := vertices[e].(isActive := false);
      vertices[p] := vertices[p].(next := q);
      vertices[q] := vertices[q].(previous := p);
      cycle := Remove(c, k);
      assert vertices[..] == Clipped(old(vertices[..]), e, p, q);
    }

    /** One round of ear clipping: finds the most extruded ear, returns its
        triangle (previous, ear, next) and cuts it off; unless this is the last
        round, reclassifies the two vertices that became neighbours. The result
        is the first round of EarClip on the ring. */
    method ClipBestEar(last: bool) returns (found: bool, triangle: Polygon)
      requires Valid() && AllClassified() && |cycle| > 3
      requires last <==> |cycle| == 4
      modifies this, vertices
      ensures found <==> BestEar(pts, old(cycle), |old(cycle)|).Some?
      ensures found ==> Valid() && |cycle| == |old(cycle)| - 1
      ensures found && !last ==> AllClassified()
      ensures found ==> var k := BestEar(pts, old(cycle), |old(cycle)|).value;
        cycle == Remove(old(cycle), k) && triangle == Corners(pts, old(cycle), k)
    {
      ghost var c := cycle;
      var ear;
      found, ear := FindEar();
      ghost var vs := vertices[..];
      if found {
        ghost var k := ChosenEarIsBest(pts, vs, c, ear);
        triangle := CutEar(ear, k, last);
      } else {
        triangle := [];
        NoEarRecords(pts, vs, c);
      }
    }

    /** Cuts off the selected ear, at position k of the ring, and returns its
        triangle; unless this is the last round, reclassifies the two vertices
        that became neighbours. */
    method CutEar(ear: int, ghost k: nat, last: bool) returns (triangle: Polygon)
      requires Valid() && AllClassified() && |cycle| > 3
      requires last <==> |cycle| == 4
      requires k < |cycle| && cycle[k] == ear && BestEar(pts, cycle, |cycle|) == Some(k)
      modifies this, vertices
      ensures Valid() && cycle == Remove(old(cycle), k)
      ensures triangle == Corners(pts, old(cycle), k)
      ensures !last ==> AllClassified()
    {
      ghost var c := cycle;
      RecordAt(pts, vertices[..], c, k);
      RecordAt(pts, vertices[..], c, Pred(|c|, k));
      RecordAt(pts, vertices[..], c, Succ(|c|, k));
      var x := vertices[ear];
      triangle := [vertices[x.previous].p, x.p, vertices[x.next].p];
      assert triangle == Corners(pts, c, k);
      ghost var vs0 := vertices[..];
      DistinctAt(c, |pts|, Pred(|c|, k), k);
      DistinctAt(c, |pts|, k, Succ(|c|, k));
      DistinctAt(c, |pts|, Pred(|c|, k), Succ(|c|, k));
      ClipEar(ear, k);
      if !last {
        Reclassify(vs0, ear, x.previous, x.next);
      }
    }

    /** Reclassifies p and q, the new neighbours after the ear e was cut off from
        records that were all classified (vs0). */
    method Reclassify(ghost vs0: seq<Vertex>, ghost e: int, p: int, q: int)
      requires AllClassifiedRecords(pts, vs0) && |vs0| == vertices.Length
      requires 0 <= e < |vs0| && 0 <= p < |vs0| && 0 <= q < |vs0|
      requires e != p && e != q && p != q && vs0[p].isActive && vs0[q].isActive
      requires Valid() && vertices[..] == Clipped(vs0, e, p, q)
      modifies vertices
      ensures cycle == old(cycle) && Valid() && AllClassified()
    {
      ClippedFrame(vs0, e, p, q);
      ghost var vs1, c := vertices[..], cycle;
      ActiveLinks(pts, vs1, c, p);
      UpdateVertex(p);
      assert cycle == c;
      ghost var vs2 := vertices[..];
      ActiveLinks(pts, vs2, c, q);
      UpdateVertex(q);
      assert cycle == c;
      ReclassifiedAfterClip(pts, vs0, vs1, vs2, vertices[..], e, p, q);
    }

    /** The first pass of Triangulate_EC: classifies every vertex of the fresh
        list, leaving the ring unchanged. */
    method ClassifyAll()
      requires Valid() && cycle == Iota(|pts|)
      modifies vertices
      ensures Valid() && AllClassified() && cycle == old(cycle)
    {
      for i := 0 to vertices.Length
        invariant Valid() && cycle == old(cycle)
        invariant ClassifiedBelow(pts, vertices[..], i)
      {
        assert cycle[i] == i;
        ghost var before := vertices[..];
        ActiveLinks(pts, before, cycle, i);
        UpdateVertex(i);
        ClassifiedExtend(pts, before, vertices[..], i);
      }
    }

    /** The triangle the last three vertices form: the one at the active vertex
        with the lowest index, with its two neighbours. */
    method LastTriangle() returns (triangle: Polygon)
      requires Valid()
      ensures triangle == Corners(pts, cycle, ArgMin(cycle))
    {
      var v := FirstActive();
      RecordAt(pts, vertices[..], cycle, ArgMin(cycle));
      var x := vertices[v];
      triangle := [vertices[x.previous].p, x.p, vertices[x.next].p];
    }

    /** The main loop of Triangulate_EC: clips ears until three vertices are
        left and then adds their triangle, or stops at the first round that
        finds no ear. The triangles and the status are EarClip's. */
    method ClipAll() returns (ok: bool, triangles: seq<Polygon>)
      requires Valid() && AllClassified() && |cycle| == |pts| > 3
      modifies this, vertices
      ensures triangles == EarClip(pts, old(cycle), |old(cycle)| - 3).0
      ensures ok == EarClip(pts, old(cycle), |old(cycle)| - 3).1
    {
      ghost var whole := EarClip(pts, cycle, |cycle| - 3);
      var n := |pts|;
      triangles := [];
      assert triangles + whole.0 == whole.0;
      var i := 0;
      while i < n - 3
        invariant 0 <= i <= n - 3
        invariant Valid() && |cycle| == n - i
        invariant i < n - 3 ==> AllClassified()
        invariant Leaves(pts, cycle, whole, triangles)
      {
        // the source breaks out of the loop after the round with i == n - 4,
        // before the reclassification that ClipBestEar skips when told so
        ghost var c := cycle;
        var found, triangle := ClipBestEar(i == n - 4);
        if !found {
          LeavesNoEar(pts, c, whole, triangles);
          return false, triangles;
        }
        LeavesRound(pts, c, whole, triangles);
        triangles := triangles + [triangle];
        i := i + 1;
      }
      ghost var c := cycle;
      var triangle := LastTriangle();
      LeavesLast(pts, c, whole, triangles);
      triangles := triangles + [triangle];
      ok := true;
    }

    /** The active vertex with the lowest index. */
    method FirstActive() returns (v: int)
      requires Valid()
      ensures v == cycle[ArgMin(cycle)]
    {
      ghost var low := cycle[ArgMin(cycle)];
      var i := 0;
      while i < vertices.Length
        invariant 0 <= i <= low
        invariant forall j :: 0 <= j < i ==> !vertices[j].isActive
      {
        if vertices[i].isActive {
          v := i;
          return;
        }
        i := i + 1;
      }
    }
  }

  /** The clipping `whole` has emitted `done` so far and still has to clip the ring c. */
  ghost predicate Leaves(pts: seq<Point>, c: seq<int>, whole: (seq<Polygon>, bool), done: seq<Polygon>)
  {
    InRange(c, |pts|) && |c| >= 3 &&
    whole == (done + EarClip(pts, c, |c| - 3).0, EarClip(pts, c, |c| - 3).1)
  }

  /** A round on more than three vertices that finds no ear ends the clipping with what was emitted before it. */
  lemma LeavesNoEar(pts: seq<Point>, c: seq<int>, whole: (seq<Polygon>, bool), done: seq<Polygon>)
    requires Leaves(pts, c, whole, done) && |c| > 3 && BestEar(pts, c, |c|) == None
    ensures whole == (done, false)
  {
    assert done + [] == done;
  }

  /** A round on more than three vertices that clips the best ear moves its triangle to what was
      emitted and leaves the ring without it. */
  lemma LeavesRound(pts: seq<Point>, c: seq<int>, whole: (seq<Polygon>, bool), done: seq<Polygon>)
    requires Leaves(pts, c, whole, done) && |c| > 3 && BestEar(pts, c, |c|).Some?
    ensures var k := BestEar(pts, c, |c|).value;
      Leaves(pts, Remove(c, k), whole, done + [Corners(pts, c, k)])
  {
    var k := BestEar(pts, c, |c|).value;
    var c1, t := Remove(c, k), Corners(pts, c, k);
    EarClipRound(pts, c, k, c1, t);
    assert done + ([t] + EarClip(pts, c1, |c1| - 3).0) == (done + [t]) + EarClip(pts, c1, |c1| - 3).0;
  }

  /** With three vertices left the clipping ends with their triangle, successfully. */
  lemma LeavesLast(pts: seq<Point>, c: seq<int>, whole: (seq<Polygon>, bool), done: seq<Polygon>)
    requires Leaves(pts, c, whole, done) && |c| == 3
    ensures whole == (done + [Corners(pts, c, ArgMin(c))], true)
  {
  }

  /** Triangulate_EC: the triangles appended for poly and the status returned
      (1 for success, 0 for failure), exactly as Triangulation specifies. */
  method TriangulateEC(poly: Polygon) returns (r: int, triangles: seq<Polygon>)
    ensures r == 0 || r == 1
    ensures triangles == Triangulation(poly).0
    ensures r == 1 <==> Triangulation(poly).1
  {
    if |poly| < 3 {
      return 0, [];
    }
    if |poly| == 3 {
      return 1, [poly];
    }
    var n := |poly|;
    ghost var spec := EarClip(poly, Iota(n), n - 3);
    assert Triangulation(poly) == spec;
    var ring := new VertexRing(poly);
    ring.ClassifyAll();
    var ok;
    ok, triangles := ring.ClipAll();
    assert triangles == spec.0 && ok == spec.1;
    r := if ok then 1 else 0;
  }
}
