/** How deep the BSP tree gets (gl2psBuildBspTree in lib/bayesopt/matplotpp/gl2ps.c): as long as every fragment is
    regular or a single vertex, each level uses up one of the original primitives. */
module BspDepth {
  import opened RealVectors
  import opened BspPrimitives
  import opened BspPlanes
  import opened BspSplit
  import opened BspRoutines
  import opened BspTrees

  // ----- vectors

  const NOTHING := Xyz(0.0, 0.0, 0.0)
  const EX := Xyz(1.0, 0.0, 0.0)
  const EY := Xyz(0.0, 1.0, 0.0)
  const EZ := Xyz(0.0, 0.0, 1.0)

  lemma Cramer(m1: real, m2: real, m3: real, v1: real, v2: real, v3: real, w1: real, w2: real, w3: real,
               d1: real, d2: real, d3: real)
    ensures m1 * ((v2 * w3 - v3 * w2) * d1 + (v3 * w1 - v1 * w3) * d2 + (v1 * w2 - v2 * w1) * d3)
         == (m1 * v1 + m2 * v2 + m3 * v3) * (w2 * d3 - w3 * d2) + (m1 * w1 + m2 * w2 + m3 * w3) * (d2 * v3 - d3 * v2)
          + (m1 * d1 + m2 * d2 + m3 * d3) * (v2 * w3 - v3 * w2)
  {
  }

  lemma CramerX(m: Xyz, v: Xyz, w: Xyz, d: Xyz)
    ensures Times(m.x, Inner(Cross(v, w), d))
         == Times(Inner(m, v), w.y * d.z - w.z * d.y) + Times(Inner(m, w), d.y * v.z - d.z * v.y)
          + Times(Inner(m, d), v.y * w.z - v.z * w.y)
  {
    Cramer(m.x, m.y, m.z, v.x, v.y, v.z, w.x, w.y, w.z, d.x, d.y, d.z);
  }

  /** Three vectors that are orthogonal to the same one lie in a plane. */
  lemma CoplanarX(m: Xyz, v: Xyz, w: Xyz, d: Xyz)
    requires m.x != 0.0 && Inner(m, v) == 0.0 && Inner(m, w) == 0.0 && Inner(m, d) == 0.0
    ensures Inner(Cross(v, w), d) == 0.0
  {
    hide Inner, Cross, Times;
    CramerX(m, v, w, d);
    TimesUnits(w.y * d.z - w.z * d.y);
    TimesUnits(d.y * v.z - d.z * v.y);
    TimesUnits(v.y * w.z - v.z * w.y);
    TimesUnits(m.x);
    TimesCancels(Inner(Cross(v, w), d), 0.0, m.x);
  }

  function Turned(a: Xyz): Xyz {
    Xyz(a.y, a.z, a.x)
  }

  lemma TurnedProducts(a: Xyz, b: Xyz)
    ensures Inner(Turned(a), Turned(b)) == Inner(a, b) && Cross(Turned(a), Turned(b)) == Turned(Cross(a, b))
  {
    hide Times;
  }

  lemma Coplanar(m: Xyz, v: Xyz, w: Xyz, d: Xyz)
    requires m != NOTHING && Inner(m, v) == 0.0 && Inner(m, w) == 0.0 && Inner(m, d) == 0.0
    ensures Inner(Cross(v, w), d) == 0.0
  {
    hide Inner, Cross;
    if m.x != 0.0 {
      CoplanarX(m, v, w, d);
    } else {
      TurnedProducts(m, v);
      TurnedProducts(m, w);
      TurnedProducts(m, d);
      TurnedProducts(v, w);
      TurnedProducts(Cross(v, w), d);
      var m', v', w', d' := Turned(m), Turned(v), Turned(w), Turned(d);
      if m.y != 0.0 {
        CoplanarX(m', v', w', d');
      } else {
        TurnedProducts(m', v');
        TurnedProducts(m', w');
        TurnedProducts(m', d');
        TurnedProducts(v', w');
        TurnedProducts(Cross(v', w'), d');
        CoplanarX(Turned(m'), Turned(v'), Turned(w'), Turned(d'));
      }
    }
  }

  lemma TripleProduct(u: Xyz, e: Xyz, d: Xyz)
    ensures Inner(Cross(u, e), d) == -Inner(Cross(u, d), e)
  {
    assert (u.y * e.z - u.z * e.y) * d.x + (u.z * e.x - u.x * e.z) * d.y + (u.x * e.y - u.y * e.x) * d.z
        == -((u.y * d.z - u.z * d.y) * e.x + (u.z * d.x - u.x * d.z) * e.y + (u.x * d.y - u.y * d.x) * e.z);
  }

  lemma InnerBasis(a: Xyz)
    ensures Inner(a, EX) == a.x && Inner(a, EY) == a.y && Inner(a, EZ) == a.z
    ensures Inner(EX, a) == a.x && Inner(EY, a) == a.y && Inner(EZ, a) == a.z
    ensures Inner(NOTHING, a) == 0.0 && Inner(a, NOTHING) == 0.0
  {
    hide Times;
    TimesUnits(a.x);
    TimesUnits(a.y);
    TimesUnits(a.z);
  }

  lemma CrossBasis(u: Xyz)
    ensures Cross(u, EX) == Xyz(0.0, u.z, -u.y) && Cross(u, EY) == Xyz(-u.z, 0.0, u.x)
    ensures Cross(u, NOTHING) == NOTHING
  {
    hide Times;
    TimesUnits(u.x);
    TimesUnits(u.y);
    TimesUnits(u.z);
  }

  /** A direction that is orthogonal to u, and to d if d is along u. */
  lemma NormalOfLine(u: Xyz, d: Xyz) returns (n: Xyz)
    requires u != NOTHING && Cross(u, d) == NOTHING
    ensures n != NOTHING && Inner(n, u) == 0.0 && Inner(n, d) == 0.0
  {
    hide Inner, Cross;
    CrossBasis(u);
    var e := if Cross(u, EX) != NOTHING then EX else EY;
    n := Cross(u, e);
    CrossIsOrthogonal(u, e);
    TripleProduct(u, e, d);
    InnerBasis(e);
  }

  lemma SomeNormal(s: Xyz, t: Xyz) returns (n: Xyz)
    ensures n != NOTHING && Inner(n, s) == 0.0 && Inner(n, t) == 0.0
  {
    hide Inner, Cross;
    n := Cross(s, t);
    CrossIsOrthogonal(s, t);
    if n == NOTHING {
      if s != NOTHING {
        n := NormalOfLine(s, t);
      } else if t != NOTHING {
        CrossBasis(t);
        n := NormalOfLine(t, s);
      } else {
        n := EZ;
        InnerBasis(EZ);
      }
      InnerBasis(n);
    }
  }

  // ----- a part in the planes of the whole

  ghost predicate Contains(pl: Plane, vs: seq<Vertex>) {
    forall k | 0 <= k < |vs| :: Dist(pl, vs[k]) == 0.0
  }

  /** A plane that contains the whole contains the part. */
  lemma Carried(vs: seq<Vertex>, ws: seq<Vertex>, pl: Plane)
    requires StaysWithin(vs, ws) && Contains(pl, vs)
    ensures Contains(pl, ws)
  {
    hide Dist;
    assert Above(pl, vs, 0.0) && Below(pl, vs, 0.0);
    assert Above(pl, ws, 0.0) && Below(pl, ws, 0.0);
  }

  lemma DifferenceSplits(n: Xyz, p: Vertex, q: Vertex, r: Vertex)
    ensures Inner(n, Difference(p, q)) == Inner(n, Difference(p, r)) - Inner(n, Difference(q, r))
  {
    hide Times;
    TimesAdds(n.x, p[0], q[0]);
    TimesAdds(n.x, p[0], r[0]);
    TimesAdds(n.x, q[0], r[0]);
    TimesAdds(n.y, p[1], q[1]);
    TimesAdds(n.y, p[1], r[1]);
    TimesAdds(n.y, q[1], r[1]);
    TimesAdds(n.z, p[2], q[2]);
    TimesAdds(n.z, p[2], r[2]);
    TimesAdds(n.z, q[2], r[2]);
  }

  lemma ThroughContains(p: Vertex, n: Xyz, vs: seq<Vertex>)
    ensures Contains(PlaneThrough(p, n), vs) <==> forall k | 0 <= k < |vs| :: Inner(n, Difference(vs[k], p)) == 0.0
  {
    hide Inner, Dist;
    forall k | 0 <= k < |vs| ensures Dist(PlaneThrough(p, n), vs[k]) == Inner(n, Difference(vs[k], p)) {
      DistThrough(p, n, vs[k]);
    }
  }

  /** A triangle that is a part of another is in its plane. */
  lemma TriangleHolds(vs: seq<Vertex>, ws: seq<Vertex>)
    requires |vs| == |ws| == 3 && StaysWithin(vs, ws)
    ensures var c := Cross(Difference(ws[1], ws[0]), Difference(ws[2], ws[0]));
            forall k | 0 <= k < 3 :: Inner(c, Difference(vs[k], ws[0])) == 0.0
  {
    hide Inner, Cross, StaysWithin, Dist;
    var n := SomeNormal(Difference(vs[1], vs[0]), Difference(vs[2], vs[0]));
    InnerBasis(n);
    assert Difference(vs[0], vs[0]) == NOTHING;
    ThroughContains(vs[0], n, vs);
    Carried(vs, ws, PlaneThrough(vs[0], n));
    ThroughContains(vs[0], n, ws);
    var v, w := Difference(ws[1], ws[0]), Difference(ws[2], ws[0]);
    DifferenceSplits(n, ws[1], ws[0], vs[0]);
    DifferenceSplits(n, ws[2], ws[0], vs[0]);
    forall k | 0 <= k < 3 ensures Inner(Cross(v, w), Difference(vs[k], ws[0])) == 0.0 {
      DifferenceSplits(n, vs[k], ws[0], vs[0]);
      Coplanar(n, v, w, Difference(vs[k], ws[0]));
    }
  }

  lemma ParallelX(n: Xyz, v: Xyz, d: Xyz)
    ensures Times(v.x, Inner(n, d))
         == Times(Inner(n, v), d.x) + Times(Cross(v, d).z, n.y) - Times(Cross(v, d).y, n.z)
  {
    Parallel(n.x, n.y, n.z, v.x, v.y, v.z, d.x, d.y, d.z);
  }

  lemma Parallel(n1: real, n2: real, n3: real, v1: real, v2: real, v3: real, d1: real, d2: real, d3: real)
    ensures v1 * (n1 * d1 + n2 * d2 + n3 * d3)
         == (n1 * v1 + n2 * v2 + n3 * v3) * d1 + (v1 * d2 - v2 * d1) * n2 - (v3 * d1 - v1 * d3) * n3
  {
  }

  lemma AlongX(n: Xyz, v: Xyz, d: Xyz)
    requires v.x != 0.0 && Cross(v, d) == NOTHING && Inner(n, v) == 0.0
    ensures Inner(n, d) == 0.0
  {
    hide Inner, Cross, Times;
    ParallelX(n, v, d);
    TimesUnits(d.x);
    TimesUnits(n.y);
    TimesUnits(n.z);
    TimesUnits(v.x);
    TimesCancels(Inner(n, d), 0.0, v.x);
  }

  /** What is orthogonal to v is orthogonal to every d along v. */
  lemma Along(n: Xyz, v: Xyz, d: Xyz)
    requires v != NOTHING && Cross(v, d) == NOTHING && Inner(n, v) == 0.0
    ensures Inner(n, d) == 0.0
  {
    hide Inner, Cross;
    if v.x != 0.0 {
      AlongX(n, v, d);
    } else {
      TurnedProducts(n, v);
      TurnedProducts(n, d);
      TurnedProducts(v, d);
      var n', v', d' := Turned(n), Turned(v), Turned(d);
      if v.y != 0.0 {
        AlongX(n', v', d');
      } else {
        TurnedProducts(n', v');
        TurnedProducts(n', d');
        TurnedProducts(v', d');
        AlongX(Turned(n'), Turned(v'), Turned(d'));
      }
    }
  }

  lemma CrossCommutes(a: Xyz, b: Xyz)
    ensures Cross(a, b) == NOTHING <==> Cross(b, a) == NOTHING
  {
    hide Times;
    TimesCommutes(a.x, b.y);
    TimesCommutes(a.x, b.z);
    TimesCommutes(a.y, b.x);
    TimesCommutes(a.y, b.z);
    TimesCommutes(a.z, b.x);
    TimesCommutes(a.z, b.y);
  }

  /** The points of a part of a line are on the line. */
  lemma OnLine(vs: seq<Vertex>, ws: seq<Vertex>, k: nat)
    requires |vs| == |ws| == 2 && StaysWithin(vs, ws) && k < 2
    ensures Cross(Difference(vs[1], vs[0]), Difference(ws[k], vs[0])) == NOTHING
    ensures Difference(vs[1], vs[0]) == NOTHING ==> Difference(ws[k], vs[0]) == NOTHING
  {
    hide Inner, Cross, StaysWithin, Dist;
    OnPlanes(vs, ws, k, EX);
    OnPlanes(vs, ws, k, EY);
    OnPlanes(vs, ws, k, EZ);
    InnerBasis(Cross(Difference(vs[1], vs[0]), Difference(ws[k], vs[0])));
    InnerBasis(Difference(ws[k], vs[0]));
  }

  lemma OnPlanes(vs: seq<Vertex>, ws: seq<Vertex>, k: nat, e: Xyz)
    requires |vs| == |ws| == 2 && StaysWithin(vs, ws) && k < 2
    ensures var u, d := Difference(vs[1], vs[0]), Difference(ws[k], vs[0]);
            Inner(Cross(u, d), e) == 0.0 && (u == NOTHING ==> Inner(e, d) == 0.0)
  {
    hide Inner, Cross, StaysWithin, Dist;
    var u, d := Difference(vs[1], vs[0]), Difference(ws[k], vs[0]);
    assert Difference(vs[0], vs[0]) == NOTHING;
    var n := Cross(u, e);
    InnerBasis(n);
    InnerBasis(e);
    CrossIsOrthogonal(u, e);
    ThroughContains(vs[0], n, vs);
    Carried(vs, ws, PlaneThrough(vs[0], n));
    ThroughContains(vs[0], n, ws);
    TripleProduct(u, e, d);
    if u == NOTHING {
      ThroughContains(vs[0], e, vs);
      Carried(vs, ws, PlaneThrough(vs[0], e));
      ThroughContains(vs[0], e, ws);
    }
  }

  lemma CrossSplits(u: Xyz, p: Vertex, q: Vertex, r: Vertex)
    requires Cross(u, Difference(p, r)) == NOTHING && Cross(u, Difference(q, r)) == NOTHING
    ensures Cross(u, Difference(p, q)) == NOTHING
  {
    var d, e, v := Difference(p, r), Difference(q, r), Difference(p, q);
    assert v.x == d.x - e.x && v.y == d.y - e.y && v.z == d.z - e.z;
    hide Times, Difference;
    TimesAdds(u.x, d.y, e.y);
    TimesAdds(u.x, d.z, e.z);
    TimesAdds(u.y, d.x, e.x);
    TimesAdds(u.y, d.z, e.z);
    TimesAdds(u.z, d.x, e.x);
    TimesAdds(u.z, d.y, e.y);
  }

  /** What is orthogonal to a part of a line, which is not only a point, is orthogonal to the line. */
  lemma LineHolds(vs: seq<Vertex>, ws: seq<Vertex>, n: Xyz)
    requires |vs| == |ws| == 2 && StaysWithin(vs, ws)
    requires Difference(ws[1], ws[0]) != NOTHING && Inner(n, Difference(ws[1], ws[0])) == 0.0
    ensures forall k | 0 <= k < 2 :: Inner(n, Difference(vs[k], ws[0])) == 0.0
  {
    hide Inner, Cross, StaysWithin;
    var u, v := Difference(vs[1], vs[0]), Difference(ws[1], ws[0]);
    OnLine(vs, ws, 0);
    OnLine(vs, ws, 1);
    assert u != NOTHING;
    CrossSplits(u, ws[1], ws[0], vs[0]);
    CrossCommutes(u, v);
    Along(n, v, u);
    Along(n, u, Difference(ws[0], vs[0]));
    InnerBasis(n);
    assert Difference(vs[0], vs[0]) == NOTHING;
    DifferenceSplits(n, vs[0], ws[0], vs[0]);
    DifferenceSplits(n, vs[1], ws[0], vs[0]);
  }

  // ----- a root uses up the primitive that it is a part of

  /** Regular, or a single vertex. */
  predicate Plain(q: Prim, sqrt: real -> real) {
    Listable(q) && (Regular(q, sqrt) || |q.verts| == 1)
  }

  ghost predicate AllPlain(ps: seq<Prim>, sqrt: real -> real) {
    forall q | q in ps :: Plain(q, sqrt)
  }

  /** The inner product with a unit normal vanishes where that with the cross product does. */
  lemma UnitNormal(a: Xyz, b: Xyz, d: Xyz, sqrt: real -> real)
    requires !Negligible(Norm(Cross(a, b), sqrt)) && Inner(Cross(a, b), d) == 0.0
    ensures Inner(Normal(a, b, sqrt), d) == 0.0
  {
    hide Times, Over, Inner, Cross;
    var c := Cross(a, b);
    var n := Norm(c, sqrt);
    ScaledInner(c, n, d);
    TimesUnits(n);
    TimesCancels(Inner(Normal(a, b, sqrt), d), 0.0, n);
  }

  lemma NotShort(v: Xyz)
    requires !Short(v)
    ensures v != NOTHING
  {
  }

  lemma TrianglePlaneHolds(o: Prim, r: Prim, sqrt: real -> real)
    requires Listable(o) && Listable(r) && IsPart(o, r) && Regular(r, sqrt) && r.kind == Triangle
    ensures Contains(GetPlane(r, sqrt), o.verts)
  {
    hide Inner, Cross, StaysWithin, Dist, Normal, Norm, Contains;
    var v, w := Difference(r.verts[1], r.verts[0]), Difference(r.verts[2], r.verts[0]);
    TriangleHolds(o.verts, r.verts);
    forall k | 0 <= k < 3 ensures Inner(Normal(v, w, sqrt), Difference(o.verts[k], r.verts[0])) == 0.0 {
      UnitNormal(v, w, Difference(o.verts[k], r.verts[0]), sqrt);
    }
    ThroughContains(r.verts[0], Normal(v, w, sqrt), o.verts);
  }

  lemma LinePlaneHolds(o: Prim, r: Prim, sqrt: real -> real)
    requires Listable(o) && Listable(r) && IsPart(o, r) && Regular(r, sqrt) && r.kind == Line && IsSqrt(sqrt)
    ensures Contains(GetPlane(r, sqrt), o.verts)
  {
    hide Inner, Cross, StaysWithin, Dist, Normal, Norm, Contains, Aside, Short, IsSqrt;
    var v := Difference(r.verts[1], r.verts[0]);
    NotShort(v);
    NormalIsOrthogonal(v, Aside(v), sqrt);
    LineHolds(o.verts, r.verts, Normal(v, Aside(v), sqrt));
    ThroughContains(r.verts[0], Normal(v, Aside(v), sqrt), o.verts);
  }

  lemma PointPlaneHolds(o: Prim, r: Prim, sqrt: real -> real)
    requires Listable(o) && Listable(r) && IsPart(o, r) && |r.verts| == 1
    ensures Contains(GetPlane(r, sqrt), o.verts)
  {
    hide StaysWithin, Dist, LevelPlane, PlaneThrough;
    DistLevel(o.verts[0], o.verts[0]);
    DistLevel(o.verts[0], r.verts[0]);
    DistLevel(r.verts[0], o.verts[0]);
    Carried(o.verts, r.verts, LevelPlane(o.verts[0]));
  }

  /** The plane of a plain part contains the whole, and so all other parts. */
  lemma RootHolds(o: Prim, r: Prim, q: Prim, sqrt: real -> real)
    requires Listable(o) && Plain(r, sqrt) && IsPart(o, r) && IsPart(o, q) && IsSqrt(sqrt)
    ensures SideOf(Distances(q, GetPlane(r, sqrt))) == Coincident
  {
    hide StaysWithin, Dist, GetPlane, Regular, IsSqrt;
    if |r.verts| == 1 {
      PointPlaneHolds(o, r, sqrt);
    } else if r.kind == Line {
      LinePlaneHolds(o, r, sqrt);
    } else {
      RegularKinds(r, sqrt);
      TrianglePlaneHolds(o, r, sqrt);
    }
    Carried(o.verts, q.verts, GetPlane(r, sqrt));
    var ds := Distances(q, GetPlane(r, sqrt));
    assert forall k | 0 <= k < |ds| :: ds[k] == 0.0;
  }

  lemma RegularKinds(r: Prim, sqrt: real -> real)
    requires Listable(r) && Regular(r, sqrt)
    ensures r.kind == Triangle || r.kind == Line
  {
  }

  // ----- the depth

  /** Every primitive of the list is a part of one of os. */
  ghost predicate Covers(os: seq<Prim>, ps: seq<Prim>) {
    forall q | q in ps :: IsPartOfSome(os, q)
  }

  ghost predicate IsPartOfSome(os: seq<Prim>, q: Prim) {
    exists k :: 0 <= k < |os| && IsPart(os[k], q)
  }

  lemma PartTransitive(o: Prim, p: Prim, q: Prim)
    requires IsPart(o, p) && IsPart(p, q)
    ensures IsPart(o, q)
  {
    hide Above, Below;
  }

  function Without(os: seq<Prim>, k: nat): (r: seq<Prim>)
    requires k < |os|
    ensures |r| == |os| - 1
  {
    os[..k] + os[k + 1..]
  }

  lemma StillThere(os: seq<Prim>, k: nat, j: nat) returns (i: nat)
    requires k < |os| && j < |os| && j != k
    ensures i < |os| - 1 && Without(os, k)[i] == os[j]
  {
    i := if j < k then j else j - 1;
  }

  lemma WithoutListable(os: seq<Prim>, k: nat)
    requires AllListable(os) && k < |os|
    ensures AllListable(Without(os, k))
  {
    hide Listable;
  }

  /** Below a plain root, which is a part of os[k], nothing is a part of os[k] any more. */
  lemma OneLess(os: seq<Prim>, k: nat, ps: seq<Prim>, index: nat, list: seq<Prim>, sqrt: real -> real)
    requires AllListable(os) && k < |os| && index < |ps| && Plain(ps[index], sqrt) && IsPart(os[k], ps[index])
    requires Covers(os, ps) && AllCutFrom(ps, index, |ps|, GetPlane(ps[index], sqrt), list) && IsSqrt(sqrt)
    ensures Covers(Without(os, k), list)
  {
    var pl := GetPlane(ps[index], sqrt);
    hide IsPart, Plain, GetPlane, SideOf, Distances, Listable, IsSqrt, Without;
    forall q | q in list ensures IsPartOfSome(Without(os, k), q) {
      assert IsCutFrom(ps, index, |ps|, pl, q);
      var m: nat :| m < |ps| && m != index && IsPart(ps[m], q) && SideOf(Distances(ps[m], pl)) != Coincident;
      assert ps[m] in ps;
      assert IsPartOfSome(os, ps[m]);
      var j: nat :| j < |os| && IsPart(os[j], ps[m]);
      assert os[k] in os;
      if j == k {
        RootHolds(os[k], ps[index], ps[m], sqrt);
      }
      var i := StillThere(os, k, j);
      PartTransitive(os[j], ps[m], q);
    }
  }

  lemma CoversMembers(os: seq<Prim>, ps: seq<Prim>, qs: seq<Prim>)
    requires Covers(os, ps) && forall q :: q in qs <==> q in ps
    ensures Covers(os, qs)
  {
    hide IsPartOfSome;
  }

  lemma RootListed(ps: seq<Prim>, index: nat, i: nat, pl: Plane, same: seq<Prim>, front: seq<Prim>, back: seq<Prim>)
    requires index < |ps| && i <= |ps| && Separated(ps, index, i, pl, same, front, back)
    ensures ps[index] in same
  {
  }

  lemma RootPlain(t: Tree, root: Prim, same: seq<Prim>, sort: seq<Prim> -> seq<Prim>, sqrt: real -> real)
    requires t.Node? && AllPlain(Fragments(t), sqrt) && Rearranges(sort) && t.primitives == sort(same) && root in same
    ensures Plain(root, sqrt)
  {
    hide Plain, Rearranges;
    SortedMembers(same, sort);
    assert root in Fragments(t);
  }

  lemma SidesPlain(t: Tree, sqrt: real -> real)
    requires t.Node? && AllPlain(Fragments(t), sqrt)
    ensures AllPlain(Fragments(t.front), sqrt) && AllPlain(Fragments(t.back), sqrt)
  {
    hide Plain;
    forall q | q in Fragments(t.front) || q in Fragments(t.back) ensures Plain(q, sqrt) {
      assert q in Fragments(t);
    }
  }

  /** A tree over parts of os that is built down to as many levels as there are os is finished. */
  lemma {:induction false} FinishedBy(t: Tree, ps: seq<Prim>, os: seq<Prim>, depth: nat, bestRoot: bool,
                                      maxbestroot: nat, sqrt: real -> real, sort: seq<Prim> -> seq<Prim>)
    requires AllListable(ps) && AllListable(os) && ps != [] && Rearranges(sort) && IsSqrt(sqrt)
    requires IsBuilt(t, ps, depth, bestRoot, maxbestroot, sqrt, sort)
    requires Covers(os, ps) && |os| <= depth && AllPlain(Fragments(t), sqrt)
    ensures Finished(t)
    decreases depth, 0
  {
    hide IsPart, Plain, GetPlane, Rearranges, IsSqrt, Listable, Separated, AllCutFrom, IsSide, Without, IsRoot;
    hide Fragments, AllPlain, AllListable;
    assert IsPartOfSome(os, ps[0]);
    var index: nat, same: seq<Prim>, front: seq<Prim>, back: seq<Prim> :|
      && IsLevel(t, ps, bestRoot, maxbestroot, sqrt, sort, index, same, front, back)
      && IsSide(t.front, front, depth - 1, bestRoot, maxbestroot, sqrt, sort)
      && IsSide(t.back, back, depth - 1, bestRoot, maxbestroot, sqrt, sort);
    RootInRange(ps, index, bestRoot, maxbestroot, sqrt);
    RootListed(ps, index, |ps|, t.plane, same, front, back);
    RootPlain(t, ps[index], same, sort, sqrt);
    SidesPlain(t, sqrt);
    assert ps[index] in ps;
    assert IsPartOfSome(os, ps[index]);
    var k: nat :| k < |os| && IsPart(os[k], ps[index]);
    WithoutListable(os, k);
    OneLess(os, k, ps, index, front, sqrt);
    OneLess(os, k, ps, index, back, sqrt);
    SideFinished(t.front, front, Without(os, k), depth - 1, bestRoot, maxbestroot, sqrt, sort);
    SideFinished(t.back, back, Without(os, k), depth - 1, bestRoot, maxbestroot, sqrt, sort);
  }

  lemma {:induction false} SideFinished(t: Tree, list: seq<Prim>, os: seq<Prim>, depth: nat, bestRoot: bool,
                                        maxbestroot: nat, sqrt: real -> real, sort: seq<Prim> -> seq<Prim>)
    requires AllListable(list) && AllListable(os) && Rearranges(sort) && IsSqrt(sqrt)
    requires IsSide(t, list, depth, bestRoot, maxbestroot, sqrt, sort)
    requires Covers(os, list) && |os| <= depth && AllPlain(Fragments(t), sqrt)
    ensures Finished(t)
    decreases depth, 1
  {
    hide Rearranges, IsSqrt, AllListable, Covers, Fragments, AllPlain, IsBuilt;
    if list != [] {
      SortedMembers(list, sort);
      CoversMembers(os, list, sort(list));
      FinishedBy(t, sort(list), os, depth, bestRoot, maxbestroot, sqrt, sort);
    }
  }

  /** If all fragments are regular or single vertices, then as many levels as there are primitives are enough. */
  lemma DepthIsEnough(t: Tree, ps: seq<Prim>, depth: nat, bestRoot: bool, maxbestroot: nat, sqrt: real -> real,
                      sort: seq<Prim> -> seq<Prim>)
    requires AllListable(ps) && ps != [] && Rearranges(sort) && IsSqrt(sqrt)
    requires IsBuilt(t, ps, depth, bestRoot, maxbestroot, sqrt, sort)
    requires |ps| <= depth && AllPlain(Fragments(t), sqrt)
    ensures Finished(t)
  {
    hide Rearranges, IsSqrt, AllListable, Fragments, AllPlain, IsBuilt;
    forall q | q in ps ensures IsPartOfSome(ps, q) {
      var k :| 0 <= k < |ps| && ps[k] == q;
      WholePart(q);
      assert q in [q];
    }
    FinishedBy(t, ps, ps, depth, bestRoot, maxbestroot, sqrt, sort);
  }
}
