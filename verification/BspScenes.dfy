/** What the drawing order means along a sight line, and two scenes that are not drawn as they should be
    (gl2psTraverseBspTree and gl2psPrintPrimitives in lib/bayesopt/matplotpp/gl2ps.c). */
module BspScenes {
  import opened RealVectors
  import opened BspPrimitives
  import opened BspPlanes
  import opened BspRoutines
  import opened BspSplit
  import opened BspTrees
  import opened BspTraversal

  // ----- sight lines

  /** q is strictly between the eye and p on the line through both. */
  ghost predicate Between(eye: Vertex, q: Vertex, p: Vertex) {
    exists t :: 0.0 < t < 1.0 && q[..3] == Blend(eye, p, t)[..3]
  }

  /** On some sight line g is nearer to the eye than f. */
  ghost predicate Nearer(eye: Vertex, g: Prim, f: Prim) {
    exists p, q :: Shows(f.verts, p) && Shows(g.verts, q) && Between(eye, q, p)
  }

  /** What is nearer to the eye should be drawn first: a pair of fragments in the wrong order. */
  ghost predicate OutOfOrder(fs: seq<Prim>, eye: Vertex, i: nat, j: nat) {
    i < j < |fs| && Nearer(eye, fs[j], fs[i])
  }

  lemma DistMixes(pl: Plane, u: real, v: real, w: real, A: Vertex, B: Vertex, C: Vertex)
    requires Weights(u, v, w)
    ensures Dist(pl, Mix(u, v, w, A, B, C)) == Times(u, Dist(pl, A)) + Times(v, Dist(pl, B)) + Times(w, Dist(pl, C))
  {
    MixProduct(pl.a, u, v, w, A[0], B[0], C[0]);
    MixProduct(pl.b, u, v, w, A[1], B[1], C[1]);
    MixProduct(pl.c, u, v, w, A[2], B[2], C[2]);
    MixConstant(u, v, w, pl.d);
    hide Times;
    DistTimes(u, pl, A);
    DistTimes(v, pl, B);
    DistTimes(w, pl, C);
  }

  lemma DistTimes(u: real, pl: Plane, A: Vertex)
    ensures Times(u, Dist(pl, A))
         == Times(u, Times(pl.a, A[0])) + Times(u, Times(pl.b, A[1])) + Times(u, Times(pl.c, A[2])) + Times(u, pl.d)
  {
    hide Times;
    var x, y, z := Times(pl.a, A[0]), Times(pl.b, A[1]), Times(pl.c, A[2]);
    TimesAdds(u, x, y);
    TimesAdds(u, x + y, z);
    TimesAdds(u, x + y + z, pl.d);
  }

  lemma MixProduct(n: real, u: real, v: real, w: real, a: real, b: real, c: real)
    ensures Times(n, Times(u, a) + Times(v, b) + Times(w, c))
         == Times(u, Times(n, a)) + Times(v, Times(n, b)) + Times(w, Times(n, c))
  {
    assert n * (u * a + v * b + w * c) == u * (n * a) + v * (n * b) + w * (n * c);
  }

  lemma MixConstant(u: real, v: real, w: real, d: real)
    requires u + v + w == 1.0
    ensures Times(u, d) + Times(v, d) + Times(w, d) == d
  {
    assert u * d + v * d + w * d == (u + v + w) * d;
  }

  lemma MixBounds(u: real, v: real, w: real, x: real, y: real, z: real, bound: real)
    requires Weights(u, v, w)
    ensures x >= bound && y >= bound && z >= bound ==> Times(u, x) + Times(v, y) + Times(w, z) >= bound
    ensures x <= bound && y <= bound && z <= bound ==> Times(u, x) + Times(v, y) + Times(w, z) <= bound
  {
    MixConstant(u, v, w, bound);
    TimesAdds(u, x, bound);
    TimesAdds(v, y, bound);
    TimesAdds(w, z, bound);
    WeightSign(u, x - bound);
    WeightSign(v, y - bound);
    WeightSign(w, z - bound);
  }

  lemma WeightSign(u: real, x: real)
    requires u >= 0.0
    ensures x >= 0.0 ==> Times(u, x) >= 0.0
    ensures x <= 0.0 ==> Times(u, x) <= 0.0
  {
  }

  lemma TriangleWithin(A: Vertex, B: Vertex, C: Vertex, p: Vertex, pl: Plane, bound: real)
    requires InTriangle(A, B, C, p)
    ensures Dist(pl, A) >= bound && Dist(pl, B) >= bound && Dist(pl, C) >= bound ==> Dist(pl, p) >= bound
    ensures Dist(pl, A) <= bound && Dist(pl, B) <= bound && Dist(pl, C) <= bound ==> Dist(pl, p) <= bound
  {
    hide Times, Mix, Dist;
    var u, v, w :| Weights(u, v, w) && p == Mix(u, v, w, A, B, C);
    DistMixes(pl, u, v, w, A, B, C);
    MixBounds(u, v, w, Dist(pl, A), Dist(pl, B), Dist(pl, C), bound);
  }

  lemma SegmentWithinSide(A: Vertex, B: Vertex, p: Vertex, pl: Plane, bound: real)
    requires InSegment(A, B, p)
    ensures Dist(pl, A) >= bound && Dist(pl, B) >= bound ==> Dist(pl, p) >= bound
    ensures Dist(pl, A) <= bound && Dist(pl, B) <= bound ==> Dist(pl, p) <= bound
  {
    var t :| 0.0 <= t <= 1.0 && p == Blend(A, B, t);
    DistBlends(pl, A, B, t);
    hide Times, Blend, Dist;
    var x, y := Dist(pl, A), Dist(pl, B);
    BlendForms(x, y, t);
    MixBounds(1.0 - t, t, 0.0, x, y, bound, bound);
    TimesUnits(bound);
  }

  /** All points of a fragment are in the half spaces of its vertices. */
  lemma ShownWithin(vs: seq<Vertex>, p: Vertex, pl: Plane, bound: real)
    requires Shows(vs, p)
    ensures Above(pl, vs, bound) ==> Dist(pl, p) >= bound
    ensures Below(pl, vs, bound) ==> Dist(pl, p) <= bound
  {
    hide Dist, InTriangle, InSegment;
    if |vs| == 2 {
      SegmentWithinSide(vs[0], vs[1], p, pl, bound);
    } else if |vs| == 3 {
      TriangleWithin(vs[0], vs[1], vs[2], p, pl, bound);
    } else if |vs| == 4 {
      if InTriangle(vs[0], vs[1], vs[2], p) {
        TriangleWithin(vs[0], vs[1], vs[2], p, pl, bound);
      } else {
        TriangleWithin(vs[0], vs[2], vs[3], p, pl, bound);
      }
    }
  }

  lemma DistOfPlace(pl: Plane, p: Vertex, q: Vertex)
    requires p[..3] == q[..3]
    ensures Dist(pl, p) == Dist(pl, q)
  {
    assert p[0] == p[..3][0] && p[1] == p[..3][1] && p[2] == p[..3][2];
    assert q[0] == q[..3][0] && q[1] == q[..3][1] && q[2] == q[..3][2];
  }

  /** If a plane divides f from g, then g is nowhere nearer to the eye than f, but within the tolerance of the plane. */
  lemma DividedNearer(pl: Plane, eye: Vertex, f: Prim, g: Prim, p: Vertex, q: Vertex)
    requires Divides(pl, eye, f, g) && Shows(f.verts, p) && Shows(g.verts, q) && Between(eye, q, p)
    ensures -EPSILON <= Dist(pl, q) <= EPSILON
  {
    var t :| 0.0 < t < 1.0 && q[..3] == Blend(eye, p, t)[..3];
    DistOfPlace(pl, q, Blend(eye, p, t));
    DistBlends(pl, eye, p, t);
    hide Dist, Blend, Times, Shows, Above, Below;
    if Dist(pl, eye) > EPSILON {
      ShownWithin(f.verts, p, pl, -EPSILON);
      ShownWithin(g.verts, q, pl, EPSILON);
      BlendBounds(Dist(pl, eye), Dist(pl, p), t, -EPSILON);
    } else {
      ShownWithin(f.verts, p, pl, EPSILON);
      ShownWithin(g.verts, q, pl, -EPSILON);
      BlendBounds(Dist(pl, eye), Dist(pl, p), t, EPSILON);
    }
  }

  /** What the painter's order means: where a fragment that is drawn later is nearer to the eye than one drawn
      before, it is within the tolerance of the plane of a node, unless one of the two strays. */
  lemma OutOfOrderIsThin(t: Tree, eye: Vertex, i: nat, j: nat, p: Vertex, q: Vertex)
    requires HalfSpaces(t) && AllClear(t, eye) && i < j < |FarToNear(t, eye)|
    requires FarToNear(t, eye)[i] !in Strays(t) && FarToNear(t, eye)[j] !in Strays(t)
    requires Shows(FarToNear(t, eye)[i].verts, p) && Shows(FarToNear(t, eye)[j].verts, q) && Between(eye, q, p)
    ensures exists pl | pl in Planes(t) :: -EPSILON <= Dist(pl, q) <= EPSILON
  {
    hide HalfSpaces, AllClear, FarToNear, Strays, Shows, Between, Divides, Dist, Planes;
    DrawnInOrder(t, eye);
    assert DividedBySome(Planes(t), eye, FarToNear(t, eye)[i], FarToNear(t, eye)[j]);
    var pl :| pl in Planes(t) && Divides(pl, eye, FarToNear(t, eye)[i], FarToNear(t, eye)[j]);
    DividedNearer(pl, eye, FarToNear(t, eye)[i], FarToNear(t, eye)[j], p, q);
  }

  // ----- two scenes

  function At(x: real, y: real, z: real): Vertex {
    [x, y, z, 0.0, 0.0, 0.0, 0.0]
  }

  /** The eye that the program draws for. */
  function Eye(): Vertex {
    At(0.0, 0.0, 100000.0)
  }

  /** Three points on a line that is not level. */
  function Sliver(): Prim {
    Prim(Triangle, [At(-1.0, 0.0, 0.0), At(0.0, 0.0, 1.0), At(1.0, 0.0, 2.0)], 0)
  }

  function Sheet(): Prim {
    Prim(Triangle, [At(-1.0, -1.0, 0.5), At(1.0, -1.0, 0.5), At(0.0, 1.0, 0.5)], 1)
  }

  /** A line whose plane has the eye on it. */
  function Grazing(): Prim {
    Prim(Line, [At(1.0, 1.0, 0.0), At(2.0, 2.0, 0.0)], 0)
  }

  function Height(z: real): Plane {
    Plane(0.0, 0.0, 1.0, -z)
  }

  lemma HeightDist(z: real, p: Vertex)
    ensures Dist(Height(z), p) == p[2] - z
  {
  }

  lemma RootOf(n: real, s: real, sqrt: real -> real)
    requires IsSqrt(sqrt) && s > 0.0 && Times(s, s) == n
    ensures sqrt(n) == s
  {
    hide Times;
    TimesSquare(s);
    TimesUnits(0.0);
    assert sqrt(n) >= 0.0 && Times(sqrt(n), sqrt(n)) == n;
    SameSquare(sqrt(n), s);
  }

  lemma DiagonalsHaveNoCross(v: Xyz, w: Xyz, x: real, y: real)
    requires v == Xyz(x, 0.0, x) && w == Xyz(y, 0.0, y)
    ensures Cross(v, w) == Xyz(0.0, 0.0, 0.0)
  {
    hide Times;
    TimesUnits(x);
    TimesUnits(y);
  }

  lemma NoCrossNoNorm(sqrt: real -> real)
    requires IsSqrt(sqrt)
    ensures Negligible(Norm(Xyz(0.0, 0.0, 0.0), sqrt))
  {
    hide Inner, Times;
    InnerZero(Xyz(0.0, 0.0, 0.0), Xyz(0.0, 0.0, 0.0));
    TimesZeroRoot(sqrt(0.0));
  }

  lemma SliverPlane(sqrt: real -> real)
    requires IsSqrt(sqrt)
    ensures Listable(Sliver()) && GetPlane(Sliver(), sqrt) == Height(0.0)
  {
    hide Times, Cross, Norm;
    var vs := Sliver().verts;
    assert Difference(vs[1], vs[0]) == Xyz(1.0, 0.0, 1.0) && Difference(vs[2], vs[0]) == Xyz(2.0, 0.0, 2.0);
    DiagonalsHaveNoCross(Xyz(1.0, 0.0, 1.0), Xyz(2.0, 0.0, 2.0), 1.0, 2.0);
    NoCrossNoNorm(sqrt);
    TimesUnits(-1.0);
    TimesUnits(0.0);
  }

  lemma SheetCross(v: Xyz, w: Xyz)
    requires v == Xyz(2.0, 0.0, 0.0) && w == Xyz(1.0, 2.0, 0.0)
    ensures Cross(v, w) == Xyz(0.0, 0.0, 4.0)
  {
    hide Times;
    Squares(v.x, w.x);
    TimesUnits(v.x);
    TimesUnits(w.x);
    TimesUnits(w.y);
    TimesUnits(w.z);
  }

  lemma Squares(two: real, one: real)
    requires two == 2.0 && one == 1.0
    ensures Times(two, two) == 4.0 && Times(4.0, 4.0) == 16.0 && Times(-one, -one) == 1.0 && Times(one, one) == 1.0
  {
  }

  lemma SheetNorm(sqrt: real -> real)
    requires IsSqrt(sqrt)
    ensures Norm(Xyz(0.0, 0.0, 4.0), sqrt) == 4.0
  {
    hide Times, IsSqrt;
    Squares(2.0, 1.0);
    TimesUnits(0.0);
    RootOf(16.0, 4.0, sqrt);
  }

  lemma SheetPlane(sqrt: real -> real)
    requires IsSqrt(sqrt)
    ensures Listable(Sheet()) && GetPlane(Sheet(), sqrt) == Height(0.5)
  {
    hide Times, Cross, Norm;
    var vs := Sheet().verts;
    assert Difference(vs[1], vs[0]) == Xyz(2.0, 0.0, 0.0) && Difference(vs[2], vs[0]) == Xyz(1.0, 2.0, 0.0);
    SheetCross(Xyz(2.0, 0.0, 0.0), Xyz(1.0, 2.0, 0.0));
    SheetNorm(sqrt);
    TimesUnits(-1.0);
    TimesUnits(0.5);
  }

  function Scene(): seq<Prim> {
    [Sliver(), Sheet()]
  }

  lemma SceneSides()
    ensures SideOf(Distances(Sheet(), Height(0.0))) == InBackOf
    ensures SideOf(Distances(Sliver(), Height(0.5))) == Spanning
  {
    hide Dist;
    var ds, es := Distances(Sheet(), Height(0.0)), Distances(Sliver(), Height(0.5));
    forall k | 0 <= k < 3
      ensures ds[k] == Sheet().verts[k][2] && es[k] == Sliver().verts[k][2] - 0.5
    {
      HeightDist(0.0, Sheet().verts[k]);
      HeightDist(0.5, Sliver().verts[k]);
    }
    assert ds[0] == 0.5 && es[0] == -0.5 && es[1] == 0.5;
  }

  lemma SceneListable()
    ensures AllListable(Scene())
  {
  }

  lemma SceneCounts(sqrt: real -> real)
    requires IsSqrt(sqrt) && AllListable(Scene())
    ensures SplitCount(Scene(), 0, 2, sqrt) == 0 && SplitCount(Scene(), 1, 2, sqrt) == 1
  {
    hide SideOf, Distances, GetPlane, Sliver, Sheet, Height, IsSqrt;
    SliverPlane(sqrt);
    SheetPlane(sqrt);
    SceneSides();
    assert SplitCount(Scene(), 0, 1, sqrt) == SplitCount(Scene(), 0, 0, sqrt) == 0;
    assert SplitCount(Scene(), 1, 1, sqrt) == 1;
  }

  /** The sliver is the root, with the option or without. */
  lemma SceneRoot(index: nat, bestRoot: bool, maxbestroot: nat, sqrt: real -> real)
    requires IsSqrt(sqrt) && AllListable(Scene()) && IsRoot(Scene(), index, bestRoot, maxbestroot, sqrt)
    ensures index == 0
  {
    hide SplitCount, AllListable, IsSqrt;
    SceneCounts(sqrt);
  }

  function SceneTree(sqrt: real -> real): Tree {
    Node(Height(0.0), [Sliver()], Empty, Node(Height(0.5), [Sheet()], Empty, Empty))
  }

  lemma SceneLists(same: seq<Prim>, front: seq<Prim>, back: seq<Prim>)
    requires Separated(Scene(), 0, 2, Height(0.0), same, front, back)
    ensures same == [Sliver()] && front == [] && back == [Sheet()]
  {
    hide SideOf, Distances, Sliver, Sheet, Height;
    SceneSides();
    var ps, pl := Scene(), Height(0.0);
    forall side ensures OnSide(ps, 0, 2, pl, side) == if side == InBackOf then [Sheet()] else [] {
      assert OnSide(ps, 0, 1, pl, side) == OnSide(ps, 0, 0, pl, side) == [];
    }
  }

  lemma SceneBuilt(t: Tree, depth: nat, bestRoot: bool, maxbestroot: nat, sqrt: real -> real,
                   sort: seq<Prim> -> seq<Prim>)
    requires IsSqrt(sqrt) && Rearranges(sort) && depth >= 2 && AllListable(Scene())
    requires IsBuilt(t, Scene(), depth, bestRoot, maxbestroot, sqrt, sort)
    ensures t == SceneTree(sqrt)
  {
    hide GetPlane, Rearranges, IsRoot, Separated, IsSqrt, Listable, Sliver, Sheet, Height, AllListable;
    var index: nat, same: seq<Prim>, front: seq<Prim>, back: seq<Prim> :|
      && IsLevel(t, Scene(), bestRoot, maxbestroot, sqrt, sort, index, same, front, back)
      && IsSide(t.front, front, depth - 1, bestRoot, maxbestroot, sqrt, sort)
      && IsSide(t.back, back, depth - 1, bestRoot, maxbestroot, sqrt, sort);
    SceneRoot(index, bestRoot, maxbestroot, sqrt);
    SliverPlane(sqrt);
    SheetPlane(sqrt);
    SceneLists(same, front, back);
    SortedOne(same, sort);
    SortedOne(back, sort);
    OneIsSingle(t.back, back, depth - 1, bestRoot, maxbestroot, sqrt, sort);
  }

  lemma SceneVisits(sqrt: real -> real)
    ensures AllClear(SceneTree(sqrt), Eye()) && FarToNear(SceneTree(sqrt), Eye()) == [Sheet(), Sliver()]
  {
    hide Dist, Sliver, Sheet, Height, Visits;
    var t := SceneTree(sqrt);
    HeightDist(0.0, Eye());
    HeightDist(0.5, Eye());
    VisitsNode(t, Eye(), EPSILON, Greater, false);
    VisitsNode(t.back, Eye(), EPSILON, Greater, false);
    VisitsEmpty(Empty, Eye(), EPSILON, Greater, false, []);
  }

  /** The middle of the sliver is between the eye and a point inside the sheet. */
  lemma SliverIsNearer()
    ensures Nearer(Eye(), Sliver(), Sheet())
  {
    hide Between;
    SheetShows();
    SliverShows();
    MiddleBetween();
  }

  lemma SheetShows()
    ensures Shows(Sheet().verts, At(0.0, 0.0, 0.5))
  {
    var vs := Sheet().verts;
    assert Weights(0.25, 0.25, 0.5);
    assert At(0.0, 0.0, 0.5) == Mix(0.25, 0.25, 0.5, vs[0], vs[1], vs[2]);
  }

  lemma SliverShows()
    ensures Shows(Sliver().verts, At(0.0, 0.0, 1.0))
  {
    var vs := Sliver().verts;
    assert Weights(0.0, 1.0, 0.0);
    assert At(0.0, 0.0, 1.0) == Mix(0.0, 1.0, 0.0, vs[0], vs[1], vs[2]);
  }

  lemma MiddleBetween()
    ensures Between(Eye(), At(0.0, 0.0, 1.0), At(0.0, 0.0, 0.5))
  {
    var t := 99999.0 / 99999.5;
    assert 0.0 < t < 1.0;
    assert t * (0.5 - 100000.0) == 1.0 - 100000.0;
    assert At(0.0, 0.0, 1.0)[..3] == Blend(Eye(), At(0.0, 0.0, 0.5), t)[..3];
  }

  /** A primitive that strays from the plane of its node can be drawn out of order, although the eye is clear of all
      planes: the sheet comes before the sliver, which is nearer to the eye. */
  method DrawScene(depth: nat, bestRoot: bool, maxbestroot: nat, sqrt: real -> real, sort: seq<Prim> -> seq<Prim>)
    returns (drawn: seq<Prim>, finished: bool, t: Tree)
    requires IsSqrt(sqrt) && Rearranges(sort) && depth >= 2
    ensures finished && AllClear(t, Eye()) && drawn == [Sheet(), Sliver()] && OutOfOrder(drawn, Eye(), 0, 1)
    ensures Sliver() in Strays(t) && Sheet() !in Strays(t)
  {
    hide AllClear, Nearer, Sliver, Sheet, IsBuilt, IsSqrt, Rearranges;
    SceneListable();
    drawn, finished, t := DrawSorted(Scene(), depth, bestRoot, maxbestroot, sqrt, sort, Eye());
    SceneBuilt(t, depth, bestRoot, maxbestroot, sqrt, sort);
    SceneVisits(sqrt);
    SliverIsNearer();
    SceneStrays(sqrt);
  }

  lemma SceneStrays(sqrt: real -> real)
    ensures Sliver() in Strays(SceneTree(sqrt)) && Sheet() !in Strays(SceneTree(sqrt))
  {
    HeightDist(0.0, Sliver().verts[1]);
    forall k | 0 <= k < 3 ensures Dist(Height(0.5), Sheet().verts[k]) == 0.0 {
      HeightDist(0.5, Sheet().verts[k]);
    }
    hide Dist, Height;
    assert !LiesIn(Height(0.0), Sliver()) && LiesIn(Height(0.5), Sheet());
    assert Sheet().look != Sliver().look;
  }

  lemma GrazingCross(v: Xyz, w: Xyz)
    requires v == Xyz(1.0, 1.0, 0.0) && w == Xyz(0.0, 0.0, 1.0)
    ensures Cross(v, w) == Xyz(1.0, -1.0, 0.0)
  {
    hide Times;
    TimesUnits(v.x);
    TimesUnits(v.z);
    TimesUnits(w.x);
  }

  lemma GrazingInner(c: Xyz)
    requires c == Xyz(1.0, -1.0, 0.0)
    ensures Inner(c, c) == 2.0
  {
    hide Times;
    Squares(2.0, c.x);
    TimesUnits(c.z);
  }

  lemma RootOfTwo(s: real)
    requires s >= 0.0 && Times(s, s) == 2.0
    ensures s >= 1.0
  {
    hide Times;
    TimesAdds(s, 1.0, s);
    TimesUnits(s);
    WeightSign(s, 1.0 - s);
  }

  lemma OppositeQuotients(s: real)
    requires s >= 1.0
    ensures Over(1.0, s) == -Over(-1.0, s) && Over(0.0, s) == 0.0
  {
    hide Times, Over;
    TimesQuotient(1.0, s);
    TimesQuotient(-1.0, s);
    TimesQuotient(0.0, s);
    TimesNegates(Over(-1.0, s), s);
    TimesCancels(Over(1.0, s), -Over(-1.0, s), s);
    TimesUnits(s);
    TimesCancels(Over(0.0, s), 0.0, s);
  }

  lemma GrazingNormal(sqrt: real -> real)
    requires IsSqrt(sqrt)
    ensures var n := Normal(Xyz(1.0, 1.0, 0.0), Xyz(0.0, 0.0, 1.0), sqrt); n.x == -n.y && n.z == 0.0
  {
    hide Cross, Inner, Times, Over;
    GrazingCross(Xyz(1.0, 1.0, 0.0), Xyz(0.0, 0.0, 1.0));
    GrazingInner(Xyz(1.0, -1.0, 0.0));
    RootOfTwo(sqrt(2.0));
    OppositeQuotients(sqrt(2.0));
  }

  lemma GrazingPlane(sqrt: real -> real)
    requires IsSqrt(sqrt)
    ensures Listable(Grazing()) && Dist(GetPlane(Grazing(), sqrt), Eye()) == 0.0
  {
    hide Normal, Times;
    var vs := Grazing().verts;
    var v := Difference(vs[1], vs[0]);
    assert v == Xyz(1.0, 1.0, 0.0) && Aside(v) == Xyz(0.0, 0.0, 1.0);
    var n := Normal(v, Aside(v), sqrt);
    GrazingNormal(sqrt);
    DistThrough(vs[0], n, Eye());
    assert Difference(Eye(), vs[0]) == Xyz(-1.0, -1.0, 100000.0);
    TimesUnits(n.x);
    TimesUnits(n.y);
    TimesUnits(100000.0);
  }

  /** A primitive whose plane goes through the eye is not drawn. */
  method DrawGrazing(depth: nat, bestRoot: bool, maxbestroot: nat, sqrt: real -> real, sort: seq<Prim> -> seq<Prim>)
    returns (drawn: seq<Prim>, finished: bool, t: Tree)
    requires IsSqrt(sqrt) && Rearranges(sort) && depth >= 1
    ensures finished && Fragments(t) == [Grazing()] && drawn == []
  {
    hide Grazing, GetPlane, IsBuilt, IsSqrt, Rearranges, Dist, Visits;
    GrazingPlane(sqrt);
    drawn, finished, t := DrawSorted([Grazing()], depth, bestRoot, maxbestroot, sqrt, sort, Eye());
    OneIsSingle(t, [Grazing()], depth, bestRoot, maxbestroot, sqrt, sort);
    VisitsNode(t, Eye(), EPSILON, Greater, false);
    VisitsEmpty(Empty, Eye(), EPSILON, Greater, false, []);
    assert Fragments(Empty) == [];
  }
}
