# Polygon partition engine, modelled in Dafny

This project models the partition engine of PolyPartSharp (`Library/TPPLPartition.cs`), a C# port of the
PolyPartition library, and proves properties of the model. The engine has three layers:

- **Orientation predicates** (module `Geometry`, `geometry.dfy`): `IsConvex`, `IsReflex`, `IsInside`,
  `InCone` and `Intersects`. These are sign tests on the cross product of integer points. The ear-quality
  score is `AngleKey`.
- **Ear-clipping triangulation `Triangulate_EC`**. It has two halves:
  - The specification (module `EarClipSpec`, `ear_clip_spec.dfy`). A ring is the sequence of active vertex
    indices in ring order. `BestEar` is the ear the scan selects: the highest score, with the lowest vertex
    index winning ties. `EarClip` performs the rounds of clipping, and `Triangulation` is the whole
    operation.
  - The imperative ring (module `EarClipping`, `ear_clipping.dfy`). Class `VertexRing` holds an array of
    `PartitionVertex`-like records linked by `previous`/`next` indices, plus a ghost `cycle`. `UpdateVertex`,
    the best-ear scan, the splice of the ear out of the ring and the final-triangle scan are methods on it.
    `TriangulateEC` is proved to return exactly `Triangulation(poly)`.
- **Hertel–Mehlhorn convex partition `ConvexPartition_HM`**. It also has two halves:
  - The specification (module `PartitionSpec`, `partition_spec.dfy`): reflex and convex corners, the first
    later piece that shares an edge, the glued polygon `MergedPolygon`, and the two measures the merge loop
    keeps. The first measure is the vertex excess, `Σ(|piece| − 2)`. The second is the number of non-convex
    pieces.
  - The imperative loops (module `ConvexPartition`, `convex_partition.dfy`). The working list is a
    `seq<seq<Point>>` that is reassigned by "remove piece `iter2`, then overwrite piece `iter1`". The glued
    polygon is filled into a fresh array by the two cyclic `j != end` loops of the source. After every merge
    the edge scan restarts from the first edge.

A point is `Point(x: int, y: int)`, so every cross-product sign is exact. A polygon is `seq<Point>`. The
caller's output list (`triangles`, `parts`) is returned as a sequence of what the operation appends to it.

Main results:

- `Triangulate_EC`:
  - With fewer than 3 vertices it appends nothing and returns 0.
  - With exactly 3 vertices it appends the polygon itself and returns 1.
  - Otherwise a success appends exactly N − 2 triangles.
  - A failure returns 0 after fewer than N − 3 triangles, which the caller's list keeps.
  - Every triangle is three distinct vertices of the polygon.
  - Every clipped ear turns counter-clockwise; only the final triangle is emitted without a check.
  - Each round clips the best active ear and relinks its two neighbours into a ring that is one shorter.
- `ConvexPartition_HM`:
  - A polygon without a reflex corner is returned whole with status 1.
  - If ear clipping fails, the result is status 0 with no parts.
  - Otherwise, at most N − 2 parts are returned. Each part has at least three vertices, all taken from the
    polygon, and the parts' vertex excess is N − 2.
  - Gluing never increases the number of non-convex pieces, so at most one part can be non-convex. Gluing
    two convex pieces that pass both corner checks gives a convex piece (`MergeKeepsConvex`).
  - The two merging loops are specified by the functions `Grow` (the inner loop over the edges of one
    piece) and `HM` (the outer loop over the pieces). The methods return exactly their results.
  - When the inner loop leaves a piece, no edge of that piece can still be merged with a later piece.

Four behaviours of the code that the model keeps:

- `IsInside` (`Library/TPPLPartition.cs:167-173`) rejects a point only when it is strictly right of an
  edge. Points on the triangle's boundary count as inside.
- A failed `Triangulate_EC` has already appended the triangles it clipped to the caller's list
  (`:381-385`). Those triangles stay in the list.
- `ConvexPartition_HM` on a polygon with fewer than three vertices finds no reflex corner. It returns the
  polygon as the only part, with status 1 (`:437-441`).
- The merge test uses the strict `IsConvex` (`:495`, `:506`). A gluing that would leave a straight
  corner is not made.

## Model

| member | source | states |
|---|---|---|
| Geometry.IsConvex | Library/TPPLPartition.cs:137-150 | the turn p1 -> p2 -> p3 is strictly counter-clockwise: the cross product (p3.y − p1.y)(p2.x − p1.x) − (p3.x − p1.x)(p2.y − p1.y) is positive |
| Geometry.IsReflex | Library/TPPLPartition.cs:152-165 | the same cross product is negative |
| Geometry.IsInside | Library/TPPLPartition.cs:167-173 | p fails the test as soon as one of the turns (p1, p, p2), (p2, p, p3), (p3, p, p1) is convex, checked in that order; otherwise it passes |
| Geometry.InCone | Library/TPPLPartition.cs:175-193 | at a convex corner, p must be left of both edges; at any other corner, left of either edge |
| Geometry.Intersects | Library/TPPLPartition.cs:206-239 | 0 when the segments share an endpoint; otherwise 0 when both endpoints of one segment lie strictly on one side of the other's line, for either segment, and 1 else |
| Geometry.ConvexReflexExclusive | Library/TPPLPartition.cs:137-165 | IsConvex and IsReflex never hold together; both fail exactly when the cross product is zero |
| Geometry.OrientationRotate | Library/TPPLPartition.cs:137-150 | the cross product of three points is unchanged by rotating them cyclically |
| Geometry.OrientationSwap | Library/TPPLPartition.cs:137-150 | swapping the first two points negates the cross product |
| Geometry.ReverseSwapsConvexReflex | Library/TPPLPartition.cs:137-165 | a corner is convex exactly when the same corner walked backwards is reflex, and vice versa |
| Geometry.ConvexRotate | Library/TPPLPartition.cs:137-150 | convexity of a triple is unchanged by rotating it, so a counter-clockwise triangle is convex at all three corners |
| Geometry.InsideHoldsAtCorners | Library/TPPLPartition.cs:167-173 | each corner of a counter-clockwise triangle passes IsInside, so the boundary counts as inside |
| Geometry.InsideNeedsNonReflex | Library/TPPLPartition.cs:167-173 | no point passes IsInside for a clockwise triangle |
| Geometry.InConeExcludesApex | Library/TPPLPartition.cs:175-193 | the apex of a cone is never inside it |
| Geometry.ReflexConeComplementsReversed | Library/TPPLPartition.cs:175-193 | at a reflex corner, a point on neither edge line is in the cone exactly when it is not in the cone of the reversed corner, which is convex |
| Geometry.IntersectsIsStraddle | Library/TPPLPartition.cs:206-239 | Intersects is 0 or 1. It is 1 exactly when the segments share no endpoint and neither has both endpoints strictly on one side of the other's line |
| Geometry.IntersectsSymmetric | Library/TPPLPartition.cs:206-239 | the crossing test does not depend on which segment comes first |
| Geometry.AngleKey | Library/TPPLPartition.cs:290-293 | the ear score lies in [-1, 1], as a cosine does |
| Geometry.VectorScore | Library/TPPLPartition.cs:241-257 | the score of two vectors is positive (negative) exactly when both are non-zero and their dot product is positive (negative); a zero vector, which Normalize maps to (0, 0), scores 0 |
| Geometry.AngleKeySign | Library/TPPLPartition.cs:290-293 | the ear score is positive for an acute corner and negative for an obtuse one, and 0 when a neighbour coincides with the vertex |
| EarClipSpec.Iota | Library/TPPLPartition.cs:345-353 | the initial ring holds every vertex once, in index order |
| EarClipSpec.RemoveKeepsRing | Library/TPPLPartition.cs:390-392 | cutting a vertex out of a ring leaves a ring of distinct in-range vertices |
| EarClipSpec.RemoveLinks | Library/TPPLPartition.cs:390-392 | after the cut, the former predecessor of the cut vertex is followed by its former successor and vice versa; every other neighbour relation is unchanged |
| EarClipSpec.RemoveMembers | Library/TPPLPartition.cs:390-392 | the cut vertex leaves the ring and every other vertex stays |
| EarClipSpec.IsEar | Library/TPPLPartition.cs:295-311 | a corner is an ear when it turns counter-clockwise and no vertex of the whole list, other than ones equal to its three points, passes IsInside |
| EarClipSpec.BestEar | Library/TPPLPartition.cs:364-380 | the reference scan over the first upto ring positions; any position it returns is below upto |
| EarClipSpec.BeatsOrder | Library/TPPLPartition.cs:364-380 | the scan's preference (higher score, then lower index) is irreflexive and transitive |
| EarClipSpec.BestEarUnique | Library/TPPLPartition.cs:364-380 | at most one ring position is the best ear |
| EarClipSpec.BestEarScan | Library/TPPLPartition.cs:364-380 | the reference scan returns an ear that no ear is preferred to, and returns none only when no position is an ear |
| EarClipSpec.BestEarIsSelected | Library/TPPLPartition.cs:364-380 | the scan finds an ear exactly when one exists, and what it finds is exactly the best ear |
| EarClipSpec.ArgMin | Library/TPPLPartition.cs:400-408 | the ring position holding the lowest vertex index, where the final scan by index stops |
| EarClipSpec.EarClip | Library/TPPLPartition.cs:360-408 | each round clips the best ear and continues on the ring without it, and stops with failure when there is none; after the rounds, the lowest-indexed remaining vertex gives the final triangle and success |
| EarClipSpec.Triangulation | Library/TPPLPartition.cs:318-413 | fewer than 3 vertices: nothing and failure; exactly 3: the polygon and success; otherwise EarClip on the full ring for N − 3 rounds |
| EarClipSpec.EarClipCount | Library/TPPLPartition.cs:360-408 | a successful run of r rounds emits r + 1 triangles; a failed one emits fewer than r |
| EarClipSpec.TriangulationCount | Library/TPPLPartition.cs:329-408 | fewer than 3 vertices: nothing, failure; exactly 3: the polygon itself, success; success: N − 2 triangles; failure with N > 3: fewer than N − 3 triangles |
| EarClipSpec.CornersAreVertexTriangle | Library/TPPLPartition.cs:387-387 | a clipped triangle is three distinct vertices of the polygon |
| EarClipSpec.EarClipShape | Library/TPPLPartition.cs:360-408 | every triangle emitted by clipping is three distinct vertices of the polygon |
| EarClipSpec.TriangulationShape | Library/TPPLPartition.cs:318-413 | every triangle the triangulation emits, including the polygon itself when N = 3, is three distinct vertices of the polygon |
| EarClipSpec.EarClipEarsConvex | Library/TPPLPartition.cs:364-405 | every clipped ear turns counter-clockwise; on success, only the final triangle may not |
| EarClipSpec.TriangulationEarsConvex | Library/TPPLPartition.cs:318-413 | every triangle emitted by the triangulation except the final one of a successful run turns counter-clockwise |
| EarClipping.Clipped | Library/TPPLPartition.cs:390-392 | the splice: the ear becomes inactive, the previous vertex points forward to the next and the next back to the previous |
| EarClipping.ClippedRing | Library/TPPLPartition.cs:390-392 | after the splice, the records describe the ring with the ear removed |
| EarClipping.ClippedActive | Library/TPPLPartition.cs:390-390 | after the splice, exactly the vertices of the shorter ring are active |
| EarClipping.ClippedLinks | Library/TPPLPartition.cs:391-392 | after the splice, every active record links to its neighbours in the shorter ring |
| EarClipping.UpdatedRing | Library/TPPLPartition.cs:288-315 | changing only the cached classification of records keeps the ring they describe |
| EarClipping.NoEarRecords | Library/TPPLPartition.cs:381-385 | with current records and no active ear record, the reference scan finds no ear |
| EarClipping.ChosenEarIsBest | Library/TPPLPartition.cs:364-380 | the ear chosen from the records sits at the ring position the reference scan selects |
| EarClipping.ReclassifiedAfterClip | Library/TPPLPartition.cs:396-397 | after a splice, refreshing only the two neighbours makes every active record current again |
| EarClipping.VertexRing.constructor | Library/TPPLPartition.cs:338-353 | every vertex is active, holds its point, and is linked to i − 1 and i + 1 cyclically |
| EarClipping.VertexRing.UpdateVertex | Library/TPPLPartition.cs:279-316 | only the convexity flag, ear flag and score of record v change. The convexity flag is IsConvex of its corner. The ear flag holds exactly when the corner is convex and no entry of the whole list, inactive ones included, passes IsInside, skipping entries equal to a corner. The score is the ear score of the corner |
| EarClipping.VertexRing.FindEar | Library/TPPLPartition.cs:362-380 | an ear is found exactly when some active record is an ear. The one found is an active ear that no other active ear beats on a strictly higher score, or on an equal score and a lower index |
| EarClipping.VertexRing.ClipEar | Library/TPPLPartition.cs:390-392 | the ring loses the ear and the records become exactly the spliced records |
| EarClipping.VertexRing.CutEar | Library/TPPLPartition.cs:387-397 | the emitted triangle is the ear's (previous, ear, next) corner and the ring loses the ear. Unless it was the last round, the two neighbours are refreshed |
| EarClipping.VertexRing.Reclassify | Library/TPPLPartition.cs:396-397 | after the two UpdateVertex calls every active record is current and the ring is unchanged |
| EarClipping.VertexRing.ClipBestEar | Library/TPPLPartition.cs:362-397 | one loop round performs one clipping round. It finds an ear exactly when the reference scan selects one; then the ring loses that ear and the emitted triangle is its corner, and unless it was the last round every active record is current again |
| EarClipping.VertexRing.ClassifyAll | Library/TPPLPartition.cs:355-358 | after the first UpdateVertex pass every record is current |
| EarClipping.VertexRing.FirstActive | Library/TPPLPartition.cs:400-403 | the scan by index stops at the lowest active vertex |
| EarClipping.VertexRing.LastTriangle | Library/TPPLPartition.cs:400-408 | the final triangle is the corner of the lowest-indexed active vertex |
| EarClipping.VertexRing.ClipAll | Library/TPPLPartition.cs:360-408 | the triangles and the status of the clipping loop plus the final triangle are exactly those of EarClip on the initial ring |
| EarClipping.TriangulateEC | Library/TPPLPartition.cs:318-413 | the status is 0 or 1, the appended triangles (partial ones on failure included) are exactly Triangulation(poly), and the status is 1 exactly when it succeeds |
| PartitionSpec.ShortPolygonsNotReflex | Library/TPPLPartition.cs:424-441 | a polygon with fewer than three vertices has no reflex corner, so it takes the fast path |
| PartitionSpec.FirstSharedEdgeUnique | Library/TPPLPartition.cs:458-481 | there is only one first later place that holds an edge backwards |
| PartitionSpec.MergeCornersConvex | Library/TPPLPartition.cs:489-509 | the two checks: (poly1[i11 − 1], poly1[i11], poly2[i22 + 1]) and (poly2[i21 − 1], poly1[i12], poly1[i12 + 1]) both turn counter-clockwise, indices cyclic |
| PartitionSpec.Mergeable | Library/TPPLPartition.cs:453-509 | the edge at i11 of piece iter1 is held backwards by some later piece, and both checks pass at the first such place |
| PartitionSpec.FirstPlaceDecides | Library/TPPLPartition.cs:484-509 | an edge is merged exactly when both corner checks pass at the first later place holding it backwards |
| PartitionSpec.NoPlaceNotMergeable | Library/TPPLPartition.cs:484-486 | an edge no later piece holds backwards is never merged |
| PartitionSpec.MergedPolygon | Library/TPPLPartition.cs:511-511 | the glued polygon has \|poly1\| + \|poly2\| − 2 vertices |
| PartitionSpec.GlueCorners | Library/TPPLPartition.cs:489-524 | when the second piece holds the edge backwards, both checks pass exactly when the glued polygon is convex at vertex 0 and at vertex \|poly1\| − 1, the two corners the glue creates |
| PartitionSpec.MergeKeepsConvex | Library/TPPLPartition.cs:489-524 | gluing two convex pieces along a shared edge when both corner checks pass gives a convex piece: every corner of the glued polygon is a corner of one of the pieces or one of the two checked corners |
| PartitionSpec.MergeAt | Library/TPPLPartition.cs:511-526 | a merge gives one piece fewer and leaves the pieces before iter1 unchanged: piece iter2 is removed and piece iter1 becomes the glued polygon |
| PartitionSpec.MergeKeepsPieces | Library/TPPLPartition.cs:511-526 | after a merge every piece still has at least three vertices, all from the polygon |
| PartitionSpec.MergeKeepsExcess | Library/TPPLPartition.cs:511-526 | a merge keeps the vertex excess of the list |
| PartitionSpec.MergeKeepsNonConvexBound | Library/TPPLPartition.cs:489-526 | a merge never increases the number of non-convex pieces |
| PartitionSpec.MergeStep | Library/TPPLPartition.cs:489-526 | a merge keeps the pieces drawn from the polygon and the excess, and does not add a non-convex piece |
| PartitionSpec.TrianglesArePieces | Library/TPPLPartition.cs:443-446 | triangles of polygon vertices that all turn left but the last are pieces of the polygon, with excess equal to their number and at most one non-convex |
| PartitionSpec.TrianglesStartPartition | Library/TPPLPartition.cs:443-446 | the N − 2 triangles of a successful ear clipping are pieces of the polygon, with excess N − 2 and at most one non-convex |
| PartitionSpec.Grow | Library/TPPLPartition.cs:450-528 | the inner loop: at most as many pieces as before, the pieces before iter1 unchanged; a mergeable edge is merged at the first later place and the walk restarts at edge 0, otherwise it moves on |
| PartitionSpec.HM | Library/TPPLPartition.cs:448-531 | the outer loop: each piece from iter1 on takes its turn of Grow; the pieces before iter1 are unchanged |
| PartitionSpec.GrowMerge | Library/TPPLPartition.cs:484-527 | a mergeable edge is merged at the first later place holding it, whichever place satisfies that description |
| PartitionSpec.MergeKeepsState | Library/TPPLPartition.cs:489-526 | one merge keeps the pieces drawn from the polygon, the excess and the bound on non-convex pieces |
| PartitionSpec.GrowKeepsState | Library/TPPLPartition.cs:450-528 | the inner loop keeps the pieces drawn from the polygon, the excess and the bound on non-convex pieces |
| PartitionSpec.GrowSaturates | Library/TPPLPartition.cs:450-528 | when the inner loop leaves piece iter1, no edge of that piece is mergeable |
| PartitionSpec.HMKeepsState | Library/TPPLPartition.cs:448-531 | the outer loop keeps the pieces drawn from the polygon, the excess and the bound on non-convex pieces |
| ConvexPartition.AnyReflex | Library/TPPLPartition.cs:424-435 | the scan finds a reflex corner exactly when the polygon has one |
| ConvexPartition.FindSharedEdge | Library/TPPLPartition.cs:457-481 | when found, the place is the first later piece, and the first position in it, that holds the edge backwards; when not found, no later piece holds it |
| ConvexPartition.GlueCornersConvex | Library/TPPLPartition.cs:489-509 | the two checks pass exactly when the glued polygon is convex at vertex 0 and at vertex \|poly1\| − 1 |
| ConvexPartition.CopyRun | Library/TPPLPartition.cs:513-523 | one copy loop writes the \|p\| − 1 vertices of p met walking from i + 1 round to i (exclusive) at positions k0 on, leaves earlier positions alone, and ends at k0 + \|p\| − 1 |
| ConvexPartition.FilledIsMerged | Library/TPPLPartition.cs:511-523 | a buffer holding the two runs position by position is MergedPolygon |
| ConvexPartition.MergePieces | Library/TPPLPartition.cs:511-524 | the buffer holds poly1 walked from i12 round to i11 (exclusive), then poly2 walked from i22 round to i21 (exclusive), i.e. MergedPolygon |
| ConvexPartition.MergeAcross | Library/TPPLPartition.cs:453-527 | a merge happens exactly when the edge is mergeable. It then removes the piece at the first later place and puts the glued polygon in place of piece iter1; otherwise the list is unchanged. The pieces, excess and non-convex bound are kept |
| ConvexPartition.GrowPiece | Library/TPPLPartition.cs:450-528 | the result is exactly Grow(ps, iter1, 0). The pieces before iter1 are unchanged, the pieces, excess and non-convex bound are kept, and no edge of piece iter1 can be merged with a later piece when the loop ends |
| ConvexPartition.ConvexPartitionHM | Library/TPPLPartition.cs:415-537 | without a reflex corner: status 1 and exactly [poly]. With one: status 1 exactly when ear clipping succeeds, status 0 with no parts otherwise. On success there are 1 to N − 2 parts of at least three polygon vertices each, with excess N − 2, and no more non-convex parts than non-convex triangles (at most one). The parts are exactly HM(Triangulation(poly).0, 0) |

## Left out

- Floating point: coordinates are exact integers. The single-precision rounding of `System.Single`
  coordinates is not modelled, and so the behaviour on nearly collinear points is not modelled either.
- FloatsAreEqual (`:539-542`), which the shared-edge search uses (`:463`, `:469`), is modelled as exact
  coordinate equality. Its 1e-4 tolerance, which can match two different points, is not modelled.
- Geometry.AngleKey: the score of `UpdateVertex` (`:290-293`) is the dot product of two vectors normalised
  with a square root (`Normalize`, `Distance`, `:241-267`). The model uses `sign(d)·d²/(|a|²·|b|²)`, which
  orders corners exactly as the real cosine does. Only comparisons of scores matter to the scan.
- `UpdateVertexReflexity` (`:269-277`) is never called. The unfinished stubs (`VertexSorter`,
  `ScanLineEdge`, `MonotoneVertex`, `Diagonal`, `DPState`, `:50-135`) are not modelled.
- `TPPLPoly`, `TPPLPoint` and orientation detection and assignment are not part of this model. A polygon
  is a plain sequence of points, and its winding is whatever the caller gives.
- The caller's list: `Triangulate_EC` and `ConvexPartition_HM` append to a list they are given. The model
  returns what they append, so aliasing between that list and the input is not modelled.
- The linked `PartitionVertex` objects are modelled as records in one array, linked by index. Object
  identity of the records is not modelled.
- ConvexPartition.ConvexPartitionHM: coverage is not stated. That the parts tile the polygon without
  overlap needs area reasoning the code never performs. The model states the vertex-excess identity
  instead.
- ConvexPartition.ConvexPartitionHM: Hertel–Mehlhorn's bound of at most four times the optimal number of
  pieces is not stated.
- ConvexPartition.ConvexPartitionHM: maximality of the final list is not stated. The result is HM, and a
  piece is saturated when the inner loop leaves it (GrowSaturates), but later merges can change the
  neighbours of earlier pieces.
- The front-end (`frmPolygon.cs`, `Application.cs`) is not part of this model. It is UI and window
  lifecycle code.
