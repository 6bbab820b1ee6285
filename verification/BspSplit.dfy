/** Splitting a primitive by a plane (gl2psAddIndex, gl2psSplitPrimitive, gl2psTestSplitPrimitive and
    gl2psDivideQuad in lib/bayesopt/matplotpp/gl2ps.c): the sides, the fragments, and what they show. */
module BspSplit {
  import opened RealVectors
  import opened BspPrimitives

  datatype Side = Coincident | InFrontOf | InBackOf | Spanning

  /** A list of vertices: (i, -1) is vertex i, and (i, j) the cut of the edge from vertex i to vertex j. */
  type Indices = seq<(int, int)>

  // ----- what the routines promise

  ghost predicate SomeBehind(ds: Vec) {
    exists k :: 0 <= k < |ds| && ds[k] > EPSILON
  }

  ghost predicate SomeInFront(ds: Vec) {
    exists k :: 0 <= k < |ds| && ds[k] < -EPSILON
  }

  /** The sides of the plane, beyond the tolerance, on which there are vertices. */
  ghost function SideOf(ds: Vec): Side {
    if SomeBehind(ds) then if SomeInFront(ds) then Spanning else InBackOf
    else if SomeInFront(ds) then InFrontOf else Coincident
  }

  function Distances(p: Prim, pl: Plane): (ds: Vec)
    ensures |ds| == |p.verts|
  {
    seq(|p.verts|, k requires 0 <= k < |p.verts| => Dist(pl, p.verts[k]))
  }

  /** All vertices are in the half space above, or below, the bound. */
  ghost predicate Above(pl: Plane, vs: seq<Vertex>, bound: real) {
    forall k | 0 <= k < |vs| :: Dist(pl, vs[k]) >= bound
  }

  ghost predicate Below(pl: Plane, vs: seq<Vertex>, bound: real) {
    forall k | 0 <= k < |vs| :: Dist(pl, vs[k]) <= bound
  }

  /** The vertices ws are in every half space that has all of vs. */
  ghost predicate StaysWithin(vs: seq<Vertex>, ws: seq<Vertex>) {
    forall pl: Plane, bound: real ::
      (Above(pl, vs, bound) ==> Above(pl, ws, bound)) && (Below(pl, vs, bound) ==> Below(pl, ws, bound))
  }

  /** p, a place with a colour, belongs to the primitive with these vertices. A quadrangle consists of the two
      triangles into which it is divided. */
  ghost predicate Shows(vs: seq<Vertex>, p: Vertex) {
    if |vs| == 1 then p == vs[0]
    else if |vs| == 2 then InSegment(vs[0], vs[1], p)
    else if |vs| == 3 then InTriangle(vs[0], vs[1], vs[2], p)
    else |vs| == 4 && (InTriangle(vs[0], vs[1], vs[2], p) || InTriangle(vs[0], vs[2], vs[3], p))
  }

  /** Two fragments show together what their parent shows. */
  ghost predicate ShowTogether(vs: seq<Vertex>, front: seq<Vertex>, back: seq<Vertex>) {
    forall p: Vertex :: Shows(vs, p) <==> Shows(front, p) || Shows(back, p)
  }

  /** The fragments of a triangle have three or four vertices, and those of a line two. */
  predicate SameShape(prim: Prim, fragment: Prim) {
    if prim.kind == Triangle then fragment.kind == Triangle || fragment.kind == Quadrangle
    else fragment.kind == prim.kind
  }

  ghost predicate IsSplit(prim: Prim, pl: Plane, front: Prim, back: Prim) {
    && Proper(front) && Proper(back) && front.look == back.look == prim.look
    && SameShape(prim, front) && SameShape(prim, back)
    && Above(pl, back.verts, -EPSILON) && Below(pl, front.verts, EPSILON)
    && StaysWithin(prim.verts, front.verts) && StaysWithin(prim.verts, back.verts)
    && ShowTogether(prim.verts, front.verts, back.verts)
  }

  // ----- the walk around the primitive

  /** The index after i among n, around the end. */
  function NextIndex(i: nat, n: nat): (j: nat)
    requires i < n
    ensures j < n
  {
    if i < n - 1 then i + 1 else 0
  }

  predicate Listed(idx: Indices, i: int, j: int) {
    exists k | 0 <= k < |idx| :: idx[k] == (i, j) || idx[k] == (j, i)
  }

  function Added(idx: Indices, i: int, j: int): Indices {
    if Listed(idx, i, j) then idx else idx + [(i, j)]
  }

  predicate Crosses(ds: Vec, i: nat, j: nat)
    requires i < |ds| && j < |ds|
  {
    (ds[i] < -EPSILON && ds[j] > EPSILON) || (ds[i] > EPSILON && ds[j] < -EPSILON)
  }

  predicate Keeps(d: real, back: bool) {
    if back then d >= -EPSILON else d <= EPSILON
  }

  function Step(ds: Vec, i: nat, j: nat, back: bool, idx: Indices): Indices
    requires i < |ds| && j < |ds|
  {
    var idx1 := if Crosses(ds, i, j) then Added(idx, i, j) else idx;
    if Keeps(ds[j], back) then Added(idx1, j, -1) else idx1
  }

  /** The vertices of the back, or front, fragment after m edges. */
  function Walk(ds: Vec, m: nat, back: bool): Indices
    requires m <= |ds|
  {
    if m == 0 then [] else Step(ds, m - 1, NextIndex(m - 1, |ds|), back, Walk(ds, m - 1, back))
  }

  function Turn(ds: Vec, i: nat, j: nat, side: Side): Side
    requires i < |ds| && j < |ds|
  {
    if ds[j] > EPSILON then
      var s := if side == Coincident then InBackOf else if side != InBackOf then Spanning else side;
      if ds[i] < -EPSILON then Spanning else s
    else if ds[j] < -EPSILON then
      var s := if side == Coincident then InFrontOf else if side != InFrontOf then Spanning else side;
      if ds[i] > EPSILON then Spanning else s
    else side
  }

  function TurnWalk(ds: Vec, m: nat): Side
    requires m <= |ds|
  {
    if m == 0 then Coincident else Turn(ds, m - 1, NextIndex(m - 1, |ds|), TurnWalk(ds, m - 1))
  }

  ghost predicate SeenBehind(ds: Vec, m: nat)
    requires m <= |ds|
  {
    exists i: nat :: i < m && ds[NextIndex(i, |ds|)] > EPSILON
  }

  ghost predicate SeenInFront(ds: Vec, m: nat)
    requires m <= |ds|
  {
    exists i: nat :: i < m && ds[NextIndex(i, |ds|)] < -EPSILON
  }

  lemma SeenStep(ds: Vec, m: nat)
    requires 0 < m <= |ds|
    ensures SeenBehind(ds, m) <==> SeenBehind(ds, m - 1) || ds[NextIndex(m - 1, |ds|)] > EPSILON
    ensures SeenInFront(ds, m) <==> SeenInFront(ds, m - 1) || ds[NextIndex(m - 1, |ds|)] < -EPSILON
  {
  }

  lemma {:induction false} TurnsSeen(ds: Vec, m: nat)
    requires m <= |ds|
    ensures var s := TurnWalk(ds, m);
      && (s == Coincident <==> !SeenBehind(ds, m) && !SeenInFront(ds, m))
      && (s == InBackOf ==> SeenBehind(ds, m) && !SeenInFront(ds, m))
      && (s == InFrontOf ==> !SeenBehind(ds, m) && SeenInFront(ds, m))
      && (s == Spanning ==> SomeBehind(ds) && SomeInFront(ds))
  {
    hide SeenBehind, SeenInFront;
    if m == 0 {
      NothingSeen(ds);
    } else {
      TurnsSeen(ds, m - 1);
      SeenStep(ds, m);
      SeenAreThere(ds, m);
    }
  }

  lemma NothingSeen(ds: Vec)
    ensures !SeenBehind(ds, 0) && !SeenInFront(ds, 0)
  {
  }

  lemma SeenAreThere(ds: Vec, m: nat)
    requires m <= |ds|
    ensures SeenBehind(ds, m) ==> SomeBehind(ds)
    ensures SeenInFront(ds, m) ==> SomeInFront(ds)
    ensures m == |ds| && SomeBehind(ds) ==> SeenBehind(ds, m)
    ensures m == |ds| && SomeInFront(ds) ==> SeenInFront(ds, m)
  {
    if m == |ds| && SomeBehind(ds) {
      var k :| 0 <= k < |ds| && ds[k] > EPSILON;
      Visited(ds, k);
    }
    if m == |ds| && SomeInFront(ds) {
      var k :| 0 <= k < |ds| && ds[k] < -EPSILON;
      Visited(ds, k);
    }
  }

  /** The walk ends every index once. */
  lemma Visited(ds: Vec, k: nat)
    requires k < |ds|
    ensures exists i: nat :: i < |ds| && NextIndex(i, |ds|) == k
  {
    var i := if k == 0 then |ds| - 1 else k - 1;
    assert NextIndex(i, |ds|) == k;
  }

  /** The side found on the way around is the one that the vertices have. */
  lemma TurnsMean(ds: Vec)
    ensures TurnWalk(ds, |ds|) == SideOf(ds)
  {
    hide SeenBehind, SeenInFront, SomeBehind, SomeInFront, TurnWalk;
    TurnsSeen(ds, |ds|);
    SeenAreThere(ds, |ds|);
  }

  // ----- what the walk lists

  ghost predicate ValidIndex(ds: Vec, back: bool, e: (int, int)) {
    && 0 <= e.0 < |ds|
    && if e.1 < 0 then e.1 == -1 && Keeps(ds[e.0], back) else e.1 < |ds| && Crosses(ds, e.0, e.1)
  }

  ghost predicate ValidIndices(ds: Vec, back: bool, idx: Indices) {
    forall k | 0 <= k < |idx| :: ValidIndex(ds, back, idx[k])
  }

  lemma {:induction false} WalkIsValid(ds: Vec, m: nat, back: bool)
    requires m <= |ds|
    ensures ValidIndices(ds, back, Walk(ds, m, back))
  {
    if m > 0 {
      var i, j, w := m - 1, NextIndex(m - 1, |ds|), Walk(ds, m - 1, back);
      WalkIsValid(ds, m - 1, back);
      AddedIsValid(ds, back, w, i, j);
      AddedIsValid(ds, back, if Crosses(ds, i, j) then Added(w, i, j) else w, j, -1);
    }
  }

  lemma AddedIsValid(ds: Vec, back: bool, idx: Indices, i: int, j: int)
    requires ValidIndices(ds, back, idx)
    ensures ValidIndex(ds, back, (i, j)) ==> ValidIndices(ds, back, Added(idx, i, j))
  {
    hide Crosses, Keeps, Listed;
  }

  function CutOf(ds: Vec, i: nat, j: nat): Indices
    requires i < |ds| && j < |ds|
  {
    if Crosses(ds, i, j) then [(i, j)] else []
  }

  function KeepOf(ds: Vec, j: nat, back: bool): Indices
    requires j < |ds|
  {
    if Keeps(ds[j], back) then [(j, -1)] else []
  }

  lemma StepAppends(ds: Vec, i: nat, j: nat, back: bool, idx: Indices)
    requires i < |ds| && j < |ds| && !Listed(idx, i, j) && !Listed(idx, j, -1)
    ensures Step(ds, i, j, back, idx) == idx + CutOf(ds, i, j) + KeepOf(ds, j, back)
  {
    assert !Listed(idx + [(i, j)], j, -1);
  }

  lemma ListedJoin(a: Indices, b: Indices, i: int, j: int)
    ensures Listed(a + b, i, j) <==> Listed(a, i, j) || Listed(b, i, j)
  {
    if Listed(a, i, j) {
      var k :| 0 <= k < |a| && (a[k] == (i, j) || a[k] == (j, i));
      assert (a + b)[k] == a[k];
    }
    if Listed(b, i, j) {
      var k :| 0 <= k < |b| && (b[k] == (i, j) || b[k] == (j, i));
      assert (a + b)[|a| + k] == b[k];
    }
  }

  /** Whether an entry is among those of one edge. */
  lemma ListedEdge(ds: Vec, i: nat, j: nat, back: bool, i': int, j': int)
    requires i < |ds| && j < |ds|
    ensures Listed(CutOf(ds, i, j) + KeepOf(ds, j, back), i', j')
        ==> (i', j') == (i, j) || (i', j') == (j, i) || (i', j') == (j, -1) || (i', j') == (-1, j)
  {
  }

  lemma LineWalk(ds: Vec, back: bool)
    requires |ds| == 2
    ensures Walk(ds, 2, back) == CutOf(ds, 0, 1) + KeepOf(ds, 1, back) + KeepOf(ds, 0, back)
  {
    hide Crosses, Keeps, Listed;
    var w1 := CutOf(ds, 0, 1) + KeepOf(ds, 1, back);
    assert Walk(ds, 0, back) == [];
    NothingListed(0, 1);
    NothingListed(1, -1);
    StepAppends(ds, 0, 1, back, []);
    assert Walk(ds, 1, back) == w1;
    CrossesBack(ds, w1, back);
    ListedEdge(ds, 0, 1, back, 0, -1);
  }

  lemma NothingListed(i: int, j: int)
    ensures !Listed([], i, j)
  {
  }

  /** The second edge of a line is the first one again: its cut is not listed twice. */
  lemma CrossesBack(ds: Vec, w: Indices, back: bool)
    requires |ds| == 2 && w == CutOf(ds, 0, 1) + KeepOf(ds, 1, back)
    ensures Crosses(ds, 1, 0) ==> Listed(w, 1, 0)
  {
    if Crosses(ds, 1, 0) {
      assert w[0] == (0, 1);
    }
  }

  /** A triangle: each cut edge and each kept vertex once, in cyclic order. */
  lemma TriangleWalk(ds: Vec, back: bool)
    requires |ds| == 3
    ensures Walk(ds, 1, back) == CutOf(ds, 0, 1) + KeepOf(ds, 1, back)
    ensures Walk(ds, 2, back) == Walk(ds, 1, back) + (CutOf(ds, 1, 2) + KeepOf(ds, 2, back))
    ensures Walk(ds, 3, back) == Walk(ds, 2, back) + (CutOf(ds, 2, 0) + KeepOf(ds, 0, back))
  {
    hide Crosses, Keeps, Listed, CutOf, KeepOf, Step;
    assert Walk(ds, 0, back) == [];
    NothingListed(0, 1);
    NothingListed(1, -1);
    StepAppends(ds, 0, 1, back, []);
    ListedEdge(ds, 0, 1, back, 1, 2);
    ListedEdge(ds, 0, 1, back, 2, -1);
    var w1, w2 := Walk(ds, 1, back), Walk(ds, 2, back);
    assert w1 == CutOf(ds, 0, 1) + KeepOf(ds, 1, back);
    StepAppends(ds, 1, 2, back, w1);
    assert w2 == w1 + (CutOf(ds, 1, 2) + KeepOf(ds, 2, back));
    ListedEdge(ds, 0, 1, back, 2, 0);
    ListedEdge(ds, 0, 1, back, 0, -1);
    ListedEdge(ds, 1, 2, back, 2, 0);
    ListedEdge(ds, 1, 2, back, 0, -1);
    ListedJoin(w1, CutOf(ds, 1, 2) + KeepOf(ds, 2, back), 2, 0);
    ListedJoin(w1, CutOf(ds, 1, 2) + KeepOf(ds, 2, back), 0, -1);
    StepAppends(ds, 2, 0, back, w2);
  }

  // ----- fragments

  function KindOf(n: nat): Kind {
    if n == 1 then Point else if n == 2 then Line else if n == 3 then Triangle else Quadrangle
  }

  predicate Indexes(vs: seq<Vertex>, idx: Indices) {
    forall k | 0 <= k < |idx| :: 0 <= idx[k].0 < |vs| && idx[k].1 < |vs|
  }

  function VertexAt(vs: seq<Vertex>, pl: Plane, e: (int, int)): Vertex
    requires 0 <= e.0 < |vs| && e.1 < |vs|
  {
    if e.1 < 0 then vs[e.0] else CutEdge(vs[e.0], vs[e.1], pl)
  }

  function FragmentVertices(vs: seq<Vertex>, pl: Plane, idx: Indices): (ws: seq<Vertex>)
    requires Indexes(vs, idx)
    ensures |ws| == |idx|
  {
    seq(|idx|, k requires 0 <= k < |idx| => VertexAt(vs, pl, idx[k]))
  }

  lemma VertexKeepsSide(vs: seq<Vertex>, pl: Plane, ds: Vec, back: bool, e: (int, int), pl': Plane, bound: real)
    requires ds == seq(|vs|, k requires 0 <= k < |vs| => Dist(pl, vs[k])) && ValidIndex(ds, back, e)
    ensures Keeps(Dist(pl, VertexAt(vs, pl, e)), back)
    ensures Above(pl', vs, bound) ==> Dist(pl', VertexAt(vs, pl, e)) >= bound
    ensures Below(pl', vs, bound) ==> Dist(pl', VertexAt(vs, pl, e)) <= bound
  {
    hide Dist, CutEdge, OnEdge;
    if e.1 >= 0 {
      CutIsBetween(vs[e.0], vs[e.1], pl);
      BlendKeepsSide(pl', vs[e.0], vs[e.1], VertexAt(vs, pl, e), bound);
    }
  }

  /** A fragment is on its side, and in every half space of its parent. */
  lemma FragmentKeepsSides(p: Prim, pl: Plane, back: bool, idx: Indices)
    requires ValidIndices(Distances(p, pl), back, idx)
    ensures Indexes(p.verts, idx) && StaysWithin(p.verts, FragmentVertices(p.verts, pl, idx))
    ensures back ==> Above(pl, FragmentVertices(p.verts, pl, idx), -EPSILON)
    ensures !back ==> Below(pl, FragmentVertices(p.verts, pl, idx), EPSILON)
  {
    hide Dist, CutEdge, VertexAt;
    var ds, ws := Distances(p, pl), FragmentVertices(p.verts, pl, idx);
    forall k | 0 <= k < |ws| ensures Keeps(Dist(pl, ws[k]), back) {
      VertexKeepsSide(p.verts, pl, ds, back, idx[k], pl, 0.0);
    }
    forall pl': Plane, bound: real
      ensures (Above(pl', p.verts, bound) ==> Above(pl', ws, bound))
        && (Below(pl', p.verts, bound) ==> Below(pl', ws, bound))
    {
      forall k | 0 <= k < |ws|
        ensures Above(pl', p.verts, bound) ==> Dist(pl', ws[k]) >= bound
        ensures Below(pl', p.verts, bound) ==> Dist(pl', ws[k]) <= bound
      {
        VertexKeepsSide(p.verts, pl, ds, back, idx[k], pl', bound);
      }
    }
  }

  // ----- what the fragments show

  lemma TriangleOrders(A: Vertex, B: Vertex, C: Vertex, p: Vertex)
    ensures InTriangle(A, B, C, p) == InTriangle(B, C, A, p) == InTriangle(C, A, B, p)
    ensures InTriangle(A, B, C, p) == InTriangle(B, A, C, p) == InTriangle(A, C, B, p) == InTriangle(C, B, A, p)
  {
    hide InTriangle;
    TriangleTurns(A, B, C, p);
    TriangleTurns(B, C, A, p);
    TriangleTurns(C, A, B, p);
  }

  /** Cutting off the corner A leaves a quadrangle, which is divided along either diagonal. */
  lemma CornerCut(A: Vertex, B: Vertex, C: Vertex, cB: Vertex, cC: Vertex, p: Vertex)
    requires OnEdge(cB, A, B) && OnEdge(cC, A, C)
    ensures InTriangle(A, B, C, p)
       <==> InTriangle(A, cB, cC, p) || InTriangle(C, cC, cB, p) || InTriangle(C, cB, B, p)
  {
    hide InTriangle, OnEdge;
    TriangleHalves(A, B, C, cB, p);
    TriangleHalves(A, C, cB, cC, p);
    TriangleOrders(A, cB, C, p);
    TriangleOrders(cB, B, C, p);
    TriangleOrders(A, cC, cB, p);
    TriangleOrders(cC, C, cB, p);
  }

  lemma LineLists(ds: Vec, back: bool)
    requires |ds| == 2 && SideOf(ds) == Spanning
    ensures Crosses(ds, 0, 1)
    ensures Walk(ds, 2, back) == [(0, 1), if Keeps(ds[1], back) then (1, -1) else (0, -1)]
    ensures Keeps(ds[1], back) == !Keeps(ds[1], !back)
  {
    hide Walk;
    LineWalk(ds, back);
  }

  /** Line: the cut joins both halves. */
  lemma LineShows(vs: seq<Vertex>, pl: Plane, ds: Vec, p: Vertex)
    requires |vs| == 2 && ds == [Dist(pl, vs[0]), Dist(pl, vs[1])] && SideOf(ds) == Spanning
    ensures Fragmented(vs, pl, ds, p)
  {
    hide Dist, CutEdge, InSegment, OnEdge, Walk, Crosses, Keeps, SideOf;
    LineLists(ds, false);
    LineLists(ds, true);
    OppositeCrosses(vs, pl, ds, 0, 1);
    CutIsBetween(vs[0], vs[1], pl);
    SegmentHalves(vs[0], vs[1], CutEdge(vs[0], vs[1], pl), p);
  }

  lemma OppositeCrosses(vs: seq<Vertex>, pl: Plane, ds: Vec, i: nat, j: nat)
    requires i < |vs| == |ds| && j < |vs| && ds[i] == Dist(pl, vs[i]) && ds[j] == Dist(pl, vs[j])
    ensures Crosses(ds, i, j) <==> Opposite(vs[i], vs[j], pl)
  {
    hide Dist;
  }

  /** The fragments of a line or triangle have two to four vertices, and show p if and only if their parent does. */
  ghost predicate Fragmented(vs: seq<Vertex>, pl: Plane, ds: Vec, p: Vertex) {
    var n := |ds|;
    && n == |vs|
    && Indexes(vs, Walk(ds, n, false)) && n <= |Walk(ds, n, false)| <= 4
    && Indexes(vs, Walk(ds, n, true)) && n <= |Walk(ds, n, true)| <= 4
    && (Shows(vs, p) <==> (Shows(FragmentVertices(vs, pl, Walk(ds, n, false)), p)
                        || Shows(FragmentVertices(vs, pl, Walk(ds, n, true)), p)))
  }

  /** One vertex k of a triangle is alone on its side, beyond the tolerance, and the others are beyond it on the
      other. */
  predicate Alone(ds: Vec, k: nat)
    requires |ds| == 3 && k < 3
  {
    Crosses(ds, k, NextIndex(k, 3)) && Crosses(ds, k, NextIndex(NextIndex(k, 3), 3))
  }

  /** The fragment with the lone vertex, and the other one. */
  function LoneList(k: nat): Indices
    requires k < 3
  {
    if k == 0 then [(0, 1), (2, 0), (0, -1)]
    else if k == 1 then [(0, 1), (1, -1), (1, 2)]
    else [(1, 2), (2, -1), (2, 0)]
  }

  function RestList(k: nat): Indices
    requires k < 3
  {
    if k == 0 then [(0, 1), (1, -1), (2, -1), (2, 0)]
    else if k == 1 then [(0, 1), (1, 2), (2, -1), (0, -1)]
    else [(1, -1), (1, 2), (2, 0), (0, -1)]
  }

  lemma AloneLists(ds: Vec, k: nat, back: bool)
    requires |ds| == 3 && k < 3 && Alone(ds, k)
    ensures Walk(ds, 3, back) == if Keeps(ds[k], back) then LoneList(k) else RestList(k)
    ensures Keeps(ds[k], back) == !Keeps(ds[k], !back)
  {
    hide Walk;
    TriangleWalk(ds, back);
  }

  lemma AloneShows(vs: seq<Vertex>, pl: Plane, ds: Vec, k: nat, p: Vertex)
    requires |vs| == 3 && ds == [Dist(pl, vs[0]), Dist(pl, vs[1]), Dist(pl, vs[2])] && k < 3 && Alone(ds, k)
    ensures Fragmented(vs, pl, ds, p)
  {
    hide Dist, CutEdge, InTriangle, OnEdge, Walk, Keeps, Crosses;
    AloneLists(ds, k, false);
    AloneLists(ds, k, true);
    var lone, rest := FragmentVertices(vs, pl, LoneList(k)), FragmentVertices(vs, pl, RestList(k));
    assert Shows(vs, p) <==> Shows(lone, p) || Shows(rest, p) by {
      LoneAndRestShow(vs, pl, ds, k, p);
    }
  }

  lemma LoneAndRestShow(vs: seq<Vertex>, pl: Plane, ds: Vec, k: nat, p: Vertex)
    requires |vs| == 3 && ds == [Dist(pl, vs[0]), Dist(pl, vs[1]), Dist(pl, vs[2])] && k < 3 && Alone(ds, k)
    ensures Shows(vs, p)
       <==> (Shows(FragmentVertices(vs, pl, LoneList(k)), p) || Shows(FragmentVertices(vs, pl, RestList(k)), p))
  {
    hide Dist, CutEdge, InTriangle, OnEdge;
    var i, j := NextIndex(k, 3), NextIndex(NextIndex(k, 3), 3);
    var A, B, C := vs[k], vs[i], vs[j];
    var cB, cC := CutEdge(A, B, pl), CutEdge(C, A, pl);
    CutIsBetween(A, B, pl);
    CutIsBetween(C, A, pl);
    OnEdgeReverses(cC, C, A);
    hide Alone, Crosses;
    TriangleOrders(A, B, C, p);
    TriangleOrders(A, cB, cC, p);
    CornerCut(A, B, C, cB, cC, p);
    CornerCut(A, C, B, cC, cB, p);
    TriangleOrders(C, cC, cB, p);
    TriangleOrders(C, cB, B, p);
    TriangleOrders(B, cB, cC, p);
    TriangleOrders(B, cC, C, p);
  }

  /** Vertex k is on the plane, within the tolerance, and the other two are on opposite sides. */
  predicate Straddles(ds: Vec, k: nat)
    requires |ds| == 3 && k < 3
  {
    -EPSILON <= ds[k] <= EPSILON && Crosses(ds, NextIndex(k, 3), NextIndex(NextIndex(k, 3), 3))
  }

  /** The fragment with the vertex after k, and the one with the vertex before it. */
  function HalfList(k: nat, after: bool): Indices
    requires k < 3
  {
    if k == 0 then if after then [(1, -1), (1, 2), (0, -1)] else [(1, 2), (2, -1), (0, -1)]
    else if k == 1 then if after then [(1, -1), (2, -1), (2, 0)] else [(1, -1), (2, 0), (0, -1)]
    else if after then [(0, 1), (2, -1), (0, -1)] else [(0, 1), (1, -1), (2, -1)]
  }

  lemma StraddleLists(ds: Vec, k: nat, back: bool)
    requires |ds| == 3 && k < 3 && Straddles(ds, k)
    ensures Walk(ds, 3, back) == HalfList(k, Keeps(ds[NextIndex(k, 3)], back))
    ensures Keeps(ds[NextIndex(k, 3)], back) == !Keeps(ds[NextIndex(k, 3)], !back)
  {
    hide Walk;
    TriangleWalk(ds, back);
  }

  lemma StraddleShows(vs: seq<Vertex>, pl: Plane, ds: Vec, k: nat, p: Vertex)
    requires |vs| == 3 && ds == [Dist(pl, vs[0]), Dist(pl, vs[1]), Dist(pl, vs[2])] && k < 3 && Straddles(ds, k)
    ensures Fragmented(vs, pl, ds, p)
  {
    hide Dist, CutEdge, InTriangle, OnEdge, Walk, Keeps, Crosses;
    StraddleLists(ds, k, false);
    StraddleLists(ds, k, true);
    var one, other := FragmentVertices(vs, pl, HalfList(k, true)), FragmentVertices(vs, pl, HalfList(k, false));
    assert Shows(vs, p) <==> Shows(one, p) || Shows(other, p) by {
      HalvesShow(vs, pl, ds, k, p);
    }
  }

  lemma HalvesShow(vs: seq<Vertex>, pl: Plane, ds: Vec, k: nat, p: Vertex)
    requires |vs| == 3 && ds == [Dist(pl, vs[0]), Dist(pl, vs[1]), Dist(pl, vs[2])] && k < 3 && Straddles(ds, k)
    ensures Shows(vs, p)
       <==> (Shows(FragmentVertices(vs, pl, HalfList(k, true)), p)
         || Shows(FragmentVertices(vs, pl, HalfList(k, false)), p))
  {
    hide Dist, CutEdge, InTriangle, OnEdge;
    var i, j := NextIndex(k, 3), NextIndex(NextIndex(k, 3), 3);
    var A, B, C := vs[i], vs[j], vs[k];
    var c := CutEdge(A, B, pl);
    CutIsBetween(A, B, pl);
    hide Straddles, Crosses;
    TriangleHalves(A, B, C, c, p);
    TriangleOrders(A, B, C, p);
    TriangleOrders(A, c, C, p);
    TriangleOrders(c, B, C, p);
  }

  lemma SpanningTriangle(ds: Vec)
    requires |ds| == 3 && SideOf(ds) == Spanning
    ensures Alone(ds, 0) || Alone(ds, 1) || Alone(ds, 2) || Straddles(ds, 0) || Straddles(ds, 1) || Straddles(ds, 2)
  {
  }

  lemma TriangleShows(vs: seq<Vertex>, pl: Plane, ds: Vec, p: Vertex)
    requires |vs| == 3 && ds == [Dist(pl, vs[0]), Dist(pl, vs[1]), Dist(pl, vs[2])] && SideOf(ds) == Spanning
    ensures Fragmented(vs, pl, ds, p)
  {
    hide Dist, Alone, Straddles, Fragmented, SideOf;
    SpanningTriangle(ds);
    if k: nat :| k < 3 && Alone(ds, k) {
      AloneShows(vs, pl, ds, k, p);
    } else if k: nat :| k < 3 && Straddles(ds, k) {
      StraddleShows(vs, pl, ds, k, p);
    }
  }
}
