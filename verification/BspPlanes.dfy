/** The plane of a primitive (gl2psGetNormal and gl2psGetPlane in lib/bayesopt/matplotpp/gl2ps.c). */
module BspPlanes {
  import opened RealVectors
  import opened BspPrimitives

  datatype Xyz = Xyz(x: real, y: real, z: real)

  function Difference(p: Vertex, q: Vertex): Xyz {
    Xyz(p[0] - q[0], p[1] - q[1], p[2] - q[2])
  }

  function Inner(a: Xyz, b: Xyz): real {
    Times(a.x, b.x) + Times(a.y, b.y) + Times(a.z, b.z)
  }

  function Cross(a: Xyz, b: Xyz): Xyz {
    Xyz(Times(a.y, b.z) - Times(a.z, b.y), Times(a.z, b.x) - Times(a.x, b.z), Times(a.x, b.y) - Times(a.y, b.x))
  }

  function Norm(a: Xyz, sqrt: real -> real): real {
    sqrt(Inner(a, a))
  }

  predicate Short(v: Xyz) {
    Negligible(v.x) && Negligible(v.y) && Negligible(v.z)
  }

  /** The unit vector along the cross product, or the z direction when the product is negligible. */
  function Normal(a: Xyz, b: Xyz, sqrt: real -> real): Xyz {
    var c := Cross(a, b);
    var n := Norm(c, sqrt);
    if Negligible(n) then Xyz(0.0, 0.0, 1.0) else Xyz(Over(c.x, n), Over(c.y, n), Over(c.z, n))
  }

  /** The second direction taken for a line along v. */
  function Aside(v: Xyz): Xyz {
    if Negligible(v.x) then Xyz(1.0, 0.0, 0.0) else if Negligible(v.y) then Xyz(0.0, 1.0, 0.0) else Xyz(0.0, 0.0, 1.0)
  }

  function PlaneThrough(p: Vertex, n: Xyz): Plane {
    Plane(n.x, n.y, n.z, -Times(n.x, p[0]) - Times(n.y, p[1]) - Times(n.z, p[2]))
  }

  function LevelPlane(p: Vertex): Plane {
    Plane(0.0, 0.0, 1.0, -p[2])
  }

  function GetPlane(p: Prim, sqrt: real -> real): Plane
    requires Proper(p)
  {
    var vs := p.verts;
    match p.kind
    case Triangle => SpannedPlane(vs[0], vs[1], vs[2], sqrt)
    case Quadrangle => SpannedPlane(vs[0], vs[1], vs[2], sqrt)
    case Line =>
      var v := Difference(vs[1], vs[0]);
      if Short(v) then LevelPlane(vs[0]) else PlaneThrough(vs[0], Normal(v, Aside(v), sqrt))
    case _ => LevelPlane(vs[0])
  }

  function SpannedPlane(a: Vertex, b: Vertex, c: Vertex, sqrt: real -> real): Plane {
    var v, w := Difference(b, a), Difference(c, a);
    if Short(v) || Short(w) then LevelPlane(a) else PlaneThrough(a, Normal(v, w, sqrt))
  }

  /** Neither an edge nor the area is negligible, so that the routine takes the plane from the vertices. */
  predicate Regular(p: Prim, sqrt: real -> real)
    requires Proper(p)
  {
    var vs := p.verts;
    match p.kind
    case Triangle =>
      var v, w := Difference(vs[1], vs[0]), Difference(vs[2], vs[0]);
      !Short(v) && !Short(w) && !Negligible(Norm(Cross(v, w), sqrt))
    case Line =>
      var v := Difference(vs[1], vs[0]);
      !Short(v) && !Negligible(Norm(Cross(v, Aside(v)), sqrt))
    case _ => false
  }

  /** All vertices have the height of the first, within the tolerance. */
  predicate Level(p: Prim)
    requires Proper(p)
  {
    forall k | 0 <= k < |p.verts| :: -EPSILON <= p.verts[k][2] - p.verts[0][2] <= EPSILON
  }

  /** The plane is within the tolerance of all vertices. */
  predicate LiesIn(pl: Plane, p: Prim) {
    forall k | 0 <= k < |p.verts| :: -EPSILON <= Dist(pl, p.verts[k]) <= EPSILON
  }

  lemma CrossIsOrthogonal(a: Xyz, b: Xyz)
    ensures Inner(Cross(a, b), a) == 0.0 && Inner(Cross(a, b), b) == 0.0
  {
    assert (a.y * b.z - a.z * b.y) * a.x + (a.z * b.x - a.x * b.z) * a.y + (a.x * b.y - a.y * b.x) * a.z == 0.0;
    assert (a.y * b.z - a.z * b.y) * b.x + (a.z * b.x - a.x * b.z) * b.y + (a.x * b.y - a.y * b.x) * b.z == 0.0;
  }

  lemma ScaledInner(c: Xyz, n: real, v: Xyz)
    requires n != 0.0
    ensures Times(n, Inner(Xyz(Over(c.x, n), Over(c.y, n), Over(c.z, n)), v)) == Inner(c, v)
  {
    hide Times, Over;
    var x, y, z := Over(c.x, n), Over(c.y, n), Over(c.z, n);
    TimesQuotient(c.x, n);
    TimesQuotient(c.y, n);
    TimesQuotient(c.z, n);
    TimesAssociates(n, x, v.x);
    TimesAssociates(n, y, v.y);
    TimesAssociates(n, z, v.z);
    TimesAdds(n, Times(x, v.x), Times(y, v.y));
    TimesAdds(n, Times(x, v.x) + Times(y, v.y), Times(z, v.z));
  }

  /** The normal is orthogonal to both directions, and has length one. */
  lemma NormalIsOrthogonal(a: Xyz, b: Xyz, sqrt: real -> real)
    requires IsSqrt(sqrt) && !Negligible(Norm(Cross(a, b), sqrt))
    ensures Inner(Normal(a, b, sqrt), a) == 0.0 && Inner(Normal(a, b, sqrt), b) == 0.0
    ensures Inner(Normal(a, b, sqrt), Normal(a, b, sqrt)) == 1.0
  {
    hide Times, Over, Inner, Cross;
    var c, m := Cross(a, b), Normal(a, b, sqrt);
    var n := Norm(c, sqrt);
    CrossIsOrthogonal(a, b);
    ScaledInner(c, n, a);
    ScaledInner(c, n, b);
    TimesUnits(n);
    TimesCancels(Inner(m, a), 0.0, n);
    TimesCancels(Inner(m, b), 0.0, n);
    ScaledInner(c, n, m);
    ScaledInner(c, n, c);
    InnerCommutes(c, m);
    NormSquare(c, sqrt);
    TimesCancels(Inner(c, m), n, n);
    TimesCancels(Inner(m, m), 1.0, n);
  }

  lemma InnerCommutes(a: Xyz, b: Xyz)
    ensures Inner(a, b) == Inner(b, a)
  {
    hide Times;
    TimesCommutes(a.x, b.x);
    TimesCommutes(a.y, b.y);
    TimesCommutes(a.z, b.z);
  }

  lemma NormSquare(a: Xyz, sqrt: real -> real)
    requires IsSqrt(sqrt)
    ensures Times(Norm(a, sqrt), Norm(a, sqrt)) == Inner(a, a)
  {
    hide Times;
    TimesSquare(a.x);
    TimesSquare(a.y);
    TimesSquare(a.z);
  }

  lemma DistThrough(p: Vertex, n: Xyz, q: Vertex)
    ensures Dist(PlaneThrough(p, n), q) == Inner(n, Difference(q, p))
  {
    hide Times;
    TimesAdds(n.x, q[0], p[0]);
    TimesAdds(n.y, q[1], p[1]);
    TimesAdds(n.z, q[2], p[2]);
  }

  lemma DistLevel(p: Vertex, q: Vertex)
    ensures Dist(LevelPlane(p), q) == Dist(PlaneThrough(p, Xyz(0.0, 0.0, 1.0)), q) == q[2] - p[2]
  {
  }

  /** A regular primitive lies in its plane, and the plane's equation gives distances. */
  lemma RegularLiesInPlane(p: Prim, sqrt: real -> real)
    requires IsSqrt(sqrt) && Proper(p) && Regular(p, sqrt)
    ensures var pl := GetPlane(p, sqrt);
      && (forall k | 0 <= k < |p.verts| :: Dist(pl, p.verts[k]) == 0.0)
      && Inner(Xyz(pl.a, pl.b, pl.c), Xyz(pl.a, pl.b, pl.c)) == 1.0
  {
    hide Times, Over, Inner, Cross, Normal, Dist;
    var v := Difference(p.verts[1], p.verts[0]);
    var w := if p.kind == Line then Aside(v) else Difference(p.verts[2], p.verts[0]);
    NormalIsOrthogonal(v, w, sqrt);
    var n := Normal(v, w, sqrt);
    DistThrough(p.verts[0], n, p.verts[0]);
    InnerZero(n, Difference(p.verts[0], p.verts[0]));
    DistThrough(p.verts[0], n, p.verts[1]);
    if p.kind == Triangle {
      DistThrough(p.verts[0], n, p.verts[2]);
    }
  }

  lemma InnerZero(n: Xyz, v: Xyz)
    requires v == Xyz(0.0, 0.0, 0.0)
    ensures Inner(n, v) == 0.0
  {
  }

  /** A short vector is one of negligible length, up to the constant factor between the two norms. */
  lemma ShortMeansNear(v: Xyz)
    ensures Short(v) ==> Inner(v, v) <= 3.0 * Times(TINY, TINY)
    ensures !Short(v) ==> Inner(v, v) >= Times(TINY, TINY)
  {
    hide Times;
    SquareBound(v.x);
    SquareBound(v.y);
    SquareBound(v.z);
  }

  lemma SquareBound(x: real)
    ensures Times(x, x) >= 0.0
    ensures if Negligible(x) then Times(x, x) <= Times(TINY, TINY) else Times(x, x) >= Times(TINY, TINY)
  {
    hide Times;
    TimesSquare(x);
    SquareDifference(x);
    if Negligible(x) {
      SameSigns(TINY - x, TINY + x);
    } else if x > 0.0 {
      SameSigns(x - TINY, x + TINY);
    } else {
      SameSigns(-x - TINY, TINY - x);
      assert Times(-x - TINY, TINY - x) == Times(x + TINY, x - TINY) by { TwoSigns(x); }
    }
  }

  lemma SquareDifference(x: real)
    ensures Times(TINY - x, TINY + x) == Times(TINY, TINY) - Times(x, x)
    ensures Times(x - TINY, x + TINY) == Times(x + TINY, x - TINY) == Times(x, x) - Times(TINY, TINY)
  {
  }

  lemma TwoSigns(x: real)
    ensures Times(-x - TINY, TINY - x) == Times(x + TINY, x - TINY)
  {
  }

  lemma SameSigns(a: real, b: real)
    requires a >= 0.0 && b >= 0.0
    ensures Times(a, b) >= 0.0
  {
  }

  /** The plane of a line is parallel to an axis: to the first one along which the line hardly extends, or to the third
      one. */
  lemma LinePlaneIsParallel(p: Prim, sqrt: real -> real)
    requires IsSqrt(sqrt) && Proper(p) && p.kind == Line && Regular(p, sqrt)
    ensures var pl, a, b := GetPlane(p, sqrt), p.verts[0], p.verts[1];
      if -TINY < b[0] - a[0] < TINY then pl.a == 0.0
      else if -TINY < b[1] - a[1] < TINY then pl.b == 0.0
      else pl.c == 0.0
  {
    hide Times, Over, Cross, Normal, Dist, Norm;
    var v := Difference(p.verts[1], p.verts[0]);
    NormalIsOrthogonal(v, Aside(v), sqrt);
    var n := Normal(v, Aside(v), sqrt);
    TimesUnits(n.x);
    TimesUnits(n.y);
    TimesUnits(n.z);
  }

  /** The plane of a quadrangle is that of its first three vertices. */
  lemma QuadranglePlane(p: Prim, sqrt: real -> real)
    requires Proper(p) && p.kind == Quadrangle
    ensures GetPlane(p, sqrt) == GetPlane(Prim(Triangle, p.verts[..3], p.look), sqrt)
  {
    hide Normal, Short;
  }

  /** For other primitives the plane is a level one through the first vertex. */
  lemma OtherPlaneIsLevel(p: Prim, sqrt: real -> real)
    requires Listable(p) && !Regular(p, sqrt)
    ensures forall k | 0 <= k < |p.verts| :: Dist(GetPlane(p, sqrt), p.verts[k]) == p.verts[k][2] - p.verts[0][2]
  {
    hide Times, Over, Inner, Cross, Norm, Dist, PlaneThrough, LevelPlane;
    forall k | 0 <= k < |p.verts| ensures Dist(GetPlane(p, sqrt), p.verts[k]) == p.verts[k][2] - p.verts[0][2] {
      DistLevel(p.verts[0], p.verts[k]);
    }
  }

  /** When a primitive lies in the plane that the routine gives it. */
  lemma LiesInPlaneIff(p: Prim, sqrt: real -> real)
    requires IsSqrt(sqrt) && Listable(p)
    ensures LiesIn(GetPlane(p, sqrt), p) <==> Regular(p, sqrt) || Level(p)
  {
    hide GetPlane, Regular, Dist, IsSqrt;
    if Regular(p, sqrt) {
      RegularLiesInPlane(p, sqrt);
    } else {
      OtherPlaneIsLevel(p, sqrt);
    }
  }

  function PointAbove(z: real): Vertex {
    [0.0, 0.0, z, 0.0, 0.0, 0.0, 0.0]
  }

  /** Three points above each other. */
  function VerticalTriangle(): Prim {
    Prim(Triangle, [PointAbove(0.0), PointAbove(1.0), PointAbove(2.0)], 0)
  }

  /** The plane that such a triangle gets leaves out two of its vertices. */
  lemma VerticalTriangleStrays(sqrt: real -> real)
    requires IsSqrt(sqrt)
    ensures Listable(VerticalTriangle()) && !LiesIn(GetPlane(VerticalTriangle(), sqrt), VerticalTriangle())
  {
    hide GetPlane, LiesIn, Regular, Level, IsSqrt;
    VerticalTriangleIsNotRegular(sqrt);
    VerticalTriangleIsNotLevel();
    LiesInPlaneIff(VerticalTriangle(), sqrt);
  }

  lemma VerticalTriangleIsNotLevel()
    ensures !Level(VerticalTriangle())
  {
    var p := VerticalTriangle();
    assert p.verts[1][2] - p.verts[0][2] == 1.0;
  }

  lemma VerticalTriangleIsNotRegular(sqrt: real -> real)
    requires IsSqrt(sqrt)
    ensures !Regular(VerticalTriangle(), sqrt)
  {
    hide Inner, Cross, Times;
    var p := VerticalTriangle();
    var v, w := Difference(p.verts[1], p.verts[0]), Difference(p.verts[2], p.verts[0]);
    assert v == Xyz(0.0, 0.0, 1.0) && w == Xyz(0.0, 0.0, 2.0);
    CrossOfParallels(v, 1.0, 2.0);
    InnerZero(Xyz(0.0, 0.0, 0.0), Xyz(0.0, 0.0, 0.0));
    assert Times(sqrt(0.0), sqrt(0.0)) == 0.0;
    TimesZeroRoot(sqrt(0.0));
  }

  lemma CrossOfParallels(a: Xyz, z: real, z': real)
    requires a == Xyz(0.0, 0.0, z)
    ensures Cross(a, Xyz(0.0, 0.0, z')) == Xyz(0.0, 0.0, 0.0)
  {
    hide Times;
    TimesUnits(z);
    TimesUnits(z');
    TimesUnits(0.0);
  }

  lemma TimesZeroRoot(x: real)
    requires Times(x, x) == 0.0
    ensures x == 0.0
  {
    if x != 0.0 {
      TimesCancels(x, 0.0, x);
    }
  }
}
