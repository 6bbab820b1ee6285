/** Vertices, planes and cuts of the 3D sorting routines (lib/bayesopt/matplotpp/gl2ps.c). */
module BspPrimitives {
  import opened RealVectors

  const EPSILON := 0.005
  const TINY := 0.00000000000000000001

  /** The coordinates x, y, z and the colour r, g, b, a of a vertex. */
  type Vertex = v: Vec | |v| == 7 witness Zeros(7)

  datatype Plane = Plane(a: real, b: real, c: real, d: real)

  /** A label stands for the primitives with one vertex that are not points: texts, pixmaps and the like. */
  datatype Kind = Label | Point | Line | Quadrangle | Triangle

  /** The look is what a fragment takes over from its parent: culling, offset, pattern, factor and width. */
  datatype Prim = Prim(kind: Kind, verts: seq<Vertex>, look: int)

  predicate Proper(p: Prim) {
    match p.kind
    case Label => |p.verts| == 1
    case Point => |p.verts| == 1
    case Line => |p.verts| == 2
    case Triangle => |p.verts| == 3
    case Quadrangle => |p.verts| == 4
  }

  /** Lists hold no quadrangles: they are divided first. */
  predicate Listable(p: Prim) {
    Proper(p) && p.kind != Quadrangle
  }

  ghost predicate AllListable(ps: seq<Prim>) {
    forall q | q in ps :: Listable(q)
  }

  /** The value of the plane's equation at the point. */
  function Dist(pl: Plane, v: Vertex): real {
    Times(pl.a, v[0]) + Times(pl.b, v[1]) + Times(pl.c, v[2]) + pl.d
  }

  predicate Negligible(x: real) {
    -TINY < x < TINY
  }

  // ----- points of an edge and of a triangle

  /** The point at parameter t of the edge from a to b, with the colour interpolated. */
  function Blend(a: Vertex, b: Vertex, t: real): Vertex {
    seq(7, k requires 0 <= k < 7 => a[k] + Times(t, b[k] - a[k]))
  }

  function Mix(u: real, v: real, w: real, A: Vertex, B: Vertex, C: Vertex): Vertex {
    seq(7, k requires 0 <= k < 7 => Times(u, A[k]) + Times(v, B[k]) + Times(w, C[k]))
  }

  ghost predicate Weights(u: real, v: real, w: real) {
    u >= 0.0 && v >= 0.0 && w >= 0.0 && u + v + w == 1.0
  }

  ghost predicate InTriangle(A: Vertex, B: Vertex, C: Vertex, p: Vertex) {
    exists u, v, w :: Weights(u, v, w) && p == Mix(u, v, w, A, B, C)
  }

  ghost predicate InSegment(A: Vertex, B: Vertex, p: Vertex) {
    exists t :: 0.0 <= t <= 1.0 && p == Blend(A, B, t)
  }

  /** c is strictly between a and b. */
  ghost predicate OnEdge(c: Vertex, a: Vertex, b: Vertex) {
    exists s :: 0.0 < s < 1.0 && c == Blend(a, b, s)
  }

  lemma BlendReverses(a: Vertex, b: Vertex, t: real)
    ensures Blend(a, b, t) == Blend(b, a, 1.0 - t)
  {
    forall k | 0 <= k < 7 ensures Blend(a, b, t)[k] == Blend(b, a, 1.0 - t)[k] {
      assert a[k] + t * (b[k] - a[k]) == b[k] + (1.0 - t) * (a[k] - b[k]);
    }
  }

  lemma OnEdgeReverses(c: Vertex, a: Vertex, b: Vertex)
    requires OnEdge(c, a, b)
    ensures OnEdge(c, b, a)
  {
    hide Blend;
    var s :| 0.0 < s < 1.0 && c == Blend(a, b, s);
    BlendReverses(a, b, s);
    assert 0.0 < 1.0 - s < 1.0;
  }

  lemma MixTurns(u: real, v: real, w: real, A: Vertex, B: Vertex, C: Vertex)
    ensures Mix(u, v, w, A, B, C) == Mix(v, w, u, B, C, A) == Mix(v, u, w, B, A, C)
  {
    hide Times;
  }

  /** A triangle does not depend on the order of its vertices. */
  lemma TriangleTurns(A: Vertex, B: Vertex, C: Vertex, p: Vertex)
    ensures InTriangle(A, B, C, p) <==> InTriangle(B, C, A, p)
    ensures InTriangle(A, B, C, p) <==> InTriangle(B, A, C, p)
  {
    hide Mix;
    forall A, B, C | InTriangle(A, B, C, p) ensures InTriangle(B, C, A, p) && InTriangle(B, A, C, p) {
      var u, v, w :| Weights(u, v, w) && p == Mix(u, v, w, A, B, C);
      MixTurns(u, v, w, A, B, C);
      assert Weights(v, w, u) && Weights(v, u, w);
    }
  }

  /** The weight v of B, given to the point c at parameter s of the edge from A, and the rest to A. */
  lemma ShiftWeight(u: real, v: real, q: real, s: real, A: real, B: real)
    requires Times(q, s) == v
    ensures Times(u + v - q, A) + Times(q, A + Times(s, B - A)) == Times(u, A) + Times(v, B)
  {
    assert (q * s) * B == v * B && (q * s) * A == v * A;
    assert q * (A + s * (B - A)) == q * A + (q * s) * B - (q * s) * A;
    assert (u + v - q) * A == u * A + v * A - q * A;
  }

  lemma MixShift(u: real, v: real, w: real, q: real, s: real, A: Vertex, B: Vertex, C: Vertex)
    requires Times(q, s) == v
    ensures Mix(u + v - q, q, w, A, Blend(A, B, s), C) == Mix(u, v, w, A, B, C)
  {
    hide Times;
    forall k | 0 <= k < 7
      ensures Mix(u + v - q, q, w, A, Blend(A, B, s), C)[k] == Mix(u, v, w, A, B, C)[k]
    {
      ShiftWeight(u, v, q, s, A[k], B[k]);
    }
  }

  lemma QuotientFits(v: real, s: real, total: real)
    requires v >= 0.0 && 0.0 < s < 1.0 && v <= Times(total, s)
    ensures 0.0 <= Over(v, s) <= total
  {
    var q := v / s;
    assert q * s == v;
    assert q < 0.0 ==> q * s < 0.0;
    assert q > total ==> (q - total) * s > 0.0;
  }

  /** One half of a triangle that is cut along the line from C to a point of the edge A B. */
  lemma HalfTriangle(A: Vertex, B: Vertex, C: Vertex, s: real, u: real, v: real, w: real)
    requires 0.0 < s < 1.0 && Weights(u, v, w) && v <= Times(u + v, s)
    ensures InTriangle(A, Blend(A, B, s), C, Mix(u, v, w, A, B, C))
  {
    hide Times, Over, Mix, Blend;
    QuotientFits(v, s, u + v);
    TimesQuotient(v, s);
    MixShift(u, v, w, Over(v, s), s, A, B, C);
    assert Weights(u + v - Over(v, s), Over(v, s), w);
  }

  lemma HalvesCover(A: Vertex, B: Vertex, C: Vertex, c: Vertex, p: Vertex)
    requires OnEdge(c, A, B) && InTriangle(A, B, C, p)
    ensures InTriangle(A, c, C, p) || InTriangle(c, B, C, p)
  {
    hide Times, Mix, Blend;
    var s :| 0.0 < s < 1.0 && c == Blend(A, B, s);
    var u, v, w :| Weights(u, v, w) && p == Mix(u, v, w, A, B, C);
    if v <= Times(u + v, s) {
      HalfTriangle(A, B, C, s, u, v, w);
    } else {
      TimesAdds(u + v, 1.0, s);
      TimesUnits(u + v);
      MixTurns(u, v, w, A, B, C);
      BlendReverses(A, B, s);
      assert Weights(v, u, w);
      HalfTriangle(B, A, C, 1.0 - s, v, u, w);
      TriangleTurns(B, c, C, p);
    }
  }

  lemma HalvesWithin(A: Vertex, B: Vertex, C: Vertex, c: Vertex, p: Vertex)
    requires OnEdge(c, A, B) && InTriangle(A, c, C, p)
    ensures InTriangle(A, B, C, p)
  {
    hide Times, Mix, Blend;
    var s :| 0.0 < s < 1.0 && c == Blend(A, B, s);
    var u, q, w :| Weights(u, q, w) && p == Mix(u, q, w, A, c, C);
    var v := Times(q, s);
    ProductFits(q, s);
    MixShift(u + q - v, v, w, q, s, A, B, C);
    assert u + q - v + v - q == u;
    assert Weights(u + q - v, v, w);
  }

  lemma ProductFits(q: real, s: real)
    requires q >= 0.0 && 0.0 < s < 1.0
    ensures 0.0 <= Times(q, s) <= q
  {
    assert q * s >= 0.0 && q * (1.0 - s) >= 0.0;
  }

  /** Cutting a triangle from a vertex to the opposite edge keeps its points and their colours. */
  lemma TriangleHalves(A: Vertex, B: Vertex, C: Vertex, c: Vertex, p: Vertex)
    requires OnEdge(c, A, B)
    ensures InTriangle(A, B, C, p) <==> InTriangle(A, c, C, p) || InTriangle(c, B, C, p)
  {
    hide InTriangle, OnEdge;
    if InTriangle(A, B, C, p) {
      HalvesCover(A, B, C, c, p);
    }
    if InTriangle(A, c, C, p) {
      HalvesWithin(A, B, C, c, p);
    }
    if InTriangle(c, B, C, p) {
      OnEdgeReverses(c, A, B);
      TriangleTurns(c, B, C, p);
      HalvesWithin(B, A, C, c, p);
      TriangleTurns(A, B, C, p);
    }
  }

  lemma BlendAgain(A: Vertex, B: Vertex, s: real, t: real)
    ensures Blend(A, Blend(A, B, s), t) == Blend(A, B, Times(t, s))
  {
    forall k | 0 <= k < 7 ensures Blend(A, Blend(A, B, s), t)[k] == Blend(A, B, Times(t, s))[k] {
      assert t * (s * (B[k] - A[k])) == (t * s) * (B[k] - A[k]);
    }
  }

  lemma SegmentCovers(A: Vertex, B: Vertex, s: real, t: real)
    requires 0.0 < s < 1.0 && 0.0 <= t <= s
    ensures InSegment(A, Blend(A, B, s), Blend(A, B, t))
  {
    hide Times, Over, Blend;
    TimesUnits(s);
    QuotientFits(t, s, 1.0);
    TimesQuotient(t, s);
    BlendAgain(A, B, s, Over(t, s));
  }

  /** So does cutting a line. */
  lemma SegmentHalves(A: Vertex, B: Vertex, c: Vertex, p: Vertex)
    requires OnEdge(c, A, B)
    ensures InSegment(A, B, p) <==> InSegment(c, A, p) || InSegment(c, B, p)
  {
    hide Times, Blend;
    var s :| 0.0 < s < 1.0 && c == Blend(A, B, s);
    BlendReverses(A, B, s);
    if InSegment(A, B, p) {
      var t :| 0.0 <= t <= 1.0 && p == Blend(A, B, t);
      BlendReverses(A, B, t);
      if t <= s {
        SegmentCovers(A, B, s, t);
        SegmentReverses(A, c, p);
      } else {
        SegmentCovers(B, A, 1.0 - s, 1.0 - t);
        SegmentReverses(B, c, p);
      }
    }
    if InSegment(c, A, p) {
      SegmentReverses(c, A, p);
      SegmentWithin(A, B, s, p);
    }
    if InSegment(c, B, p) {
      SegmentReverses(c, B, p);
      SegmentWithin(B, A, 1.0 - s, p);
      SegmentReverses(B, A, p);
    }
  }

  lemma SegmentWithin(A: Vertex, B: Vertex, s: real, p: Vertex)
    requires 0.0 < s < 1.0 && InSegment(A, Blend(A, B, s), p)
    ensures InSegment(A, B, p)
  {
    hide Times, Blend;
    var t :| 0.0 <= t <= 1.0 && p == Blend(A, Blend(A, B, s), t);
    BlendAgain(A, B, s, t);
    ProductFits(t, s);
  }

  lemma SegmentReverses(A: Vertex, B: Vertex, p: Vertex)
    ensures InSegment(A, B, p) <==> InSegment(B, A, p)
  {
    hide Blend;
    forall A, B | InSegment(A, B, p) ensures InSegment(B, A, p) {
      var t :| 0.0 <= t <= 1.0 && p == Blend(A, B, t);
      BlendReverses(A, B, t);
      assert 0.0 <= 1.0 - t <= 1.0;
    }
  }

  // ----- cutting an edge

  /** The parameter at which the plane cuts the edge. */
  function CutParameter(a: Vertex, b: Vertex, pl: Plane): real {
    var psca := Times(pl.a, b[0] - a[0]) + Times(pl.b, b[1] - a[1]) + Times(pl.c, b[2] - a[2]);
    if Negligible(psca) then 0.0 else Over(-Dist(pl, a), psca)
  }

  function CutEdge(a: Vertex, b: Vertex, pl: Plane): Vertex {
    var sect := CutParameter(a, b, pl);
    seq(7, k requires 0 <= k < 7 =>
      if k < 3 then a[k] + Times(b[k] - a[k], sect) else Times(1.0 - sect, a[k]) + Times(sect, b[k]))
  }

  lemma DistBlends(pl: Plane, a: Vertex, b: Vertex, t: real)
    ensures Dist(pl, Blend(a, b, t)) == Dist(pl, a) + Times(t, Dist(pl, b) - Dist(pl, a))
  {
    BlendProduct(pl.a, a[0], b[0], t);
    BlendProduct(pl.b, a[1], b[1], t);
    BlendProduct(pl.c, a[2], b[2], t);
    hide Times;
    var e0, e1, e2 := Times(pl.a, b[0] - a[0]), Times(pl.b, b[1] - a[1]), Times(pl.c, b[2] - a[2]);
    TimesAdds(pl.a, b[0], a[0]);
    TimesAdds(pl.b, b[1], a[1]);
    TimesAdds(pl.c, b[2], a[2]);
    TimesAdds(t, e0, e1);
    TimesAdds(t, e0 + e1, e2);
  }

  lemma BlendProduct(n: real, a: real, b: real, t: real)
    ensures Times(n, a + Times(t, b - a)) == Times(n, a) + Times(t, Times(n, b - a))
  {
    assert n * (a + t * (b - a)) == n * a + t * (n * (b - a));
  }

  /** On opposite sides of the plane, beyond the tolerance. */
  predicate Opposite(a: Vertex, b: Vertex, pl: Plane) {
    (Dist(pl, a) > EPSILON && Dist(pl, b) < -EPSILON) || (Dist(pl, a) < -EPSILON && Dist(pl, b) > EPSILON)
  }

  /** The cut of such an edge is strictly inside it, lies on the plane, and has the interpolated colour. */
  lemma CutIsBetween(a: Vertex, b: Vertex, pl: Plane)
    requires Opposite(a, b, pl)
    ensures OnEdge(CutEdge(a, b, pl), a, b) && Dist(pl, CutEdge(a, b, pl)) == 0.0
  {
    hide Times, Over, Dist;
    var da, db := Dist(pl, a), Dist(pl, b);
    var s := CutParameter(a, b, pl);
    DistDifference(pl, a, b);
    assert s == Over(-da, db - da);
    RatioBounds(-da, db - da);
    TimesQuotient(-da, db - da);
    forall k | 0 <= k < 7 ensures CutEdge(a, b, pl)[k] == Blend(a, b, s)[k] {
      TimesCommutes(b[k] - a[k], s);
      BlendForms(a[k], b[k], s);
    }
    assert CutEdge(a, b, pl) == Blend(a, b, s);
    DistBlends(pl, a, b, s);
  }

  /** An edge along the plane is cut at its first end. */
  lemma ParallelEdge(a: Vertex, b: Vertex, pl: Plane)
    requires Negligible(Dist(pl, b) - Dist(pl, a))
    ensures CutEdge(a, b, pl) == a
  {
    hide Times, Dist;
    DistDifference(pl, a, b);
    forall k | 0 <= k < 7 ensures CutEdge(a, b, pl)[k] == a[k] {
      TimesUnits(b[k] - a[k]);
      TimesUnits(a[k]);
      TimesUnits(b[k]);
    }
  }

  lemma DistDifference(pl: Plane, a: Vertex, b: Vertex)
    ensures Times(pl.a, b[0] - a[0]) + Times(pl.b, b[1] - a[1]) + Times(pl.c, b[2] - a[2]) == Dist(pl, b) - Dist(pl, a)
  {
    hide Times;
    TimesAdds(pl.a, b[0], a[0]);
    TimesAdds(pl.b, b[1], a[1]);
    TimesAdds(pl.c, b[2], a[2]);
  }

  lemma BlendForms(a: real, b: real, s: real)
    ensures Times(1.0 - s, a) + Times(s, b) == a + Times(s, b - a)
  {
    assert (1.0 - s) * a + s * b == a + s * (b - a);
  }

  lemma RatioBounds(x: real, y: real)
    requires 0.0 < x < y || y < x < 0.0
    ensures 0.0 < Over(x, y) < 1.0
  {
    var q := x / y;
    assert q * y == x;
    if y > 0.0 {
      assert q <= 0.0 ==> q * y <= 0.0;
      assert q >= 1.0 ==> (q - 1.0) * y >= 0.0;
    } else {
      assert q <= 0.0 ==> q * y >= 0.0;
      assert q >= 1.0 ==> (q - 1.0) * y <= 0.0;
    }
  }

  /** A blend of two points of a half space is in it. */
  lemma BlendKeepsSide(pl: Plane, a: Vertex, b: Vertex, c: Vertex, bound: real)
    requires OnEdge(c, a, b)
    ensures Dist(pl, a) >= bound && Dist(pl, b) >= bound ==> Dist(pl, c) >= bound
    ensures Dist(pl, a) <= bound && Dist(pl, b) <= bound ==> Dist(pl, c) <= bound
  {
    var s :| 0.0 < s < 1.0 && c == Blend(a, b, s);
    DistBlends(pl, a, b, s);
    hide Dist, Blend;
    BlendBounds(Dist(pl, a), Dist(pl, b), s, bound);
  }

  lemma BlendBounds(x: real, y: real, s: real, bound: real)
    requires 0.0 < s < 1.0
    ensures x >= bound && y >= bound ==> x + Times(s, y - x) >= bound
    ensures x <= bound && y <= bound ==> x + Times(s, y - x) <= bound
  {
    hide Times;
    BlendForms(x, y, s);
    TimesAdds(1.0 - s, x, bound);
    TimesAdds(s, y, bound);
    BlendForms(bound, bound, s);
    TimesUnits(s);
    ProductSign(1.0 - s, x - bound);
    ProductSign(s, y - bound);
  }

  lemma ProductSign(s: real, x: real)
    requires s > 0.0
    ensures x >= 0.0 ==> Times(s, x) >= 0.0
    ensures x <= 0.0 ==> Times(s, x) <= 0.0
  {
  }
}
