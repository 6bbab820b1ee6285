/** The routines that split primitives, divide quadrangles and choose a root (gl2psAddIndex,
    gl2psCreateSplitPrimitive, gl2psSplitPrimitive, gl2psTestSplitPrimitive, gl2psDivideQuad,
    gl2psAddPrimitiveInList and gl2psFindRoot in lib/bayesopt/matplotpp/gl2ps.c). */
module BspRoutines {
  import opened RealVectors
  import opened BspPrimitives
  import opened BspPlanes
  import opened BspSplit

  // ----- the index arrays

  function Contents(index0: array<int>, index1: array<int>, nb: nat): (idx: Indices)
    requires nb <= index0.Length == index1.Length
    reads index0, index1
    ensures |idx| == nb
  {
    seq(nb, k requires 0 <= k < nb reads index0, index1 => (index0[k], index1[k]))
  }

  method AddIndex(index0: array<int>, index1: array<int>, nb: nat, i: int, j: int) returns (nb': nat)
    requires index0 != index1 && nb <= index0.Length == index1.Length
    requires Listed(Contents(index0, index1, nb), i, j) || nb < index0.Length
    modifies index0, index1
    ensures nb' <= index0.Length
    ensures Contents(index0, index1, nb') == Added(old(Contents(index0, index1, nb)), i, j)
  {
    ghost var idx := Contents(index0, index1, nb);
    var k := 0;
    while k < nb
      invariant k <= nb && Contents(index0, index1, nb) == idx
      invariant forall m | 0 <= m < k :: idx[m] != (i, j) && idx[m] != (j, i)
    {
      if (index0[k] == i && index1[k] == j) || (index1[k] == i && index0[k] == j) {
        assert idx[k] == (index0[k], index1[k]);
        return nb;
      }
      k := k + 1;
    }
    index0[nb] := i;
    index1[nb] := j;
    nb' := nb + 1;
    assert Contents(index0, index1, nb') == idx + [(i, j)];
  }

  /** Five places are enough for a primitive with up to three vertices. */
  lemma WalkFits(ds: Vec, m: nat, back: bool)
    requires m <= |ds| <= 3
    ensures |Walk(ds, m, back)| <= 5
  {
    assert Walk(ds, 0, back) == [];
    if |ds| == 3 {
      TriangleWalk(ds, back);
    } else if |ds| == 2 {
      LineWalk(ds, back);
      assert |Walk(ds, 1, back)| <= 2;
    } else if |ds| == 1 {
      assert |Walk(ds, 1, back)| <= 2;
    }
  }

  /** The entries that one edge adds to the list of one fragment. */
  method AddEdge(index0: array<int>, index1: array<int>, nb: nat, ghost ds: Vec, i: nat, j: nat, cut: bool, keep: bool,
                 ghost back: bool)
    returns (nb': nat)
    requires index0 != index1 && nb <= index0.Length == index1.Length == 5 && i < |ds| <= 3 && j == NextIndex(i, |ds|)
    requires Contents(index0, index1, nb) == Walk(ds, i, back)
    requires cut == Crosses(ds, i, j) && keep == Keeps(ds[j], back)
    modifies index0, index1
    ensures nb' <= index0.Length && Contents(index0, index1, nb') == Walk(ds, i + 1, back)
  {
    hide Listed, Crosses, Keeps;
    WalkFits(ds, i + 1, back);
    nb' := nb;
    if cut {
      nb' := AddIndex(index0, index1, nb', i, j);
    }
    if keep {
      nb' := AddIndex(index0, index1, nb', j, -1);
    }
  }

  // ----- splitting

  function Fragment(parent: Prim, pl: Plane, idx: Indices): Prim
    requires Indexes(parent.verts, idx)
  {
    var n := if |idx| > 4 then 4 else |idx|;
    Prim(KindOf(n), FragmentVertices(parent.verts, pl, idx[..n]), parent.look)
  }

  method CreateSplitPrimitive(parent: Prim, pl: Plane, numverts0: nat, index0: array<int>, index1: array<int>)
    returns (child: Prim)
    requires numverts0 <= index0.Length == index1.Length && Indexes(parent.verts, Contents(index0, index1, numverts0))
    ensures child == Fragment(parent, pl, Contents(index0, index1, numverts0))
    ensures numverts0 > 0 ==> Proper(child) && child.kind != Label
  {
    var numverts := numverts0;
    if numverts > 4 {
      numverts := 4;
    }
    var verts := [];
    for i := 0 to numverts
      invariant Contents(index0, index1, i) == Contents(index0, index1, numverts0)[..i]
      invariant verts == FragmentVertices(parent.verts, pl, Contents(index0, index1, numverts0)[..i])
    {
      assert Contents(index0, index1, numverts0)[i] == (index0[i], index1[i]);
      if index1[i] < 0 {
        verts := verts + [parent.verts[index0[i]]];
      } else {
        verts := verts + [CutEdge(parent.verts[index0[i]], parent.verts[index1[i]], pl)];
      }
    }
    assert Contents(index0, index1, numverts0)[..numverts] == Contents(index0, index1, numverts);
    child := Prim(KindOf(numverts), verts, parent.look);
  }

  /** On which side of the plane the primitive is. A spanning one is split into a fragment for each side. */
  method SplitPrimitive(prim: Prim, pl: Plane) returns (side: Side, front: Prim, back: Prim)
    requires Listable(prim)
    ensures side == SideOf(Distances(prim, pl))
    ensures side == Spanning ==> IsSplit(prim, pl, front, back)
  {
    hide Walk, TurnWalk, Dist, SideOf, IsSplit;
    front, back := prim, prim;
    var d := Distances(prim, pl);
    TurnsMean(d);
    var n := |prim.verts|;
    var in0, in1 := new int[5], new int[5];
    var out0, out1 := new int[5], new int[5];
    var nin, nout := 0, 0;
    side := Coincident;
    if prim.kind == Point {
      PointSide(d);
      side := if d[0] > EPSILON then InBackOf else if d[0] < -EPSILON then InFrontOf else Coincident;
      return;
    }
    WalkStarts(d);
    for i := 0 to n
      invariant nin <= 5 && nout <= 5
      invariant Contents(in0, in1, nin) == Walk(d, i, false) && Contents(out0, out1, nout) == Walk(d, i, true)
      invariant side == TurnWalk(d, i)
    {
      var j := NextIndex(i, n);
      var cut := false;
      TurnWalkStep(d, i);
      if d[j] > EPSILON {
        if side == Coincident { side := InBackOf; } else if side != InBackOf { side := Spanning; }
        if d[i] < -EPSILON {
          cut := true;
          side := Spanning;
        }
      } else if d[j] < -EPSILON {
        if side == Coincident { side := InFrontOf; } else if side != InFrontOf { side := Spanning; }
        if d[i] > EPSILON {
          cut := true;
          side := Spanning;
        }
      }
      nin := AddEdge(in0, in1, nin, d, i, j, cut, d[j] <= EPSILON, false);
      nout := AddEdge(out0, out1, nout, d, i, j, cut, d[j] >= -EPSILON, true);
    }
    if side == Spanning {
      SpanningSplits(prim, pl);
      back := CreateSplitPrimitive(prim, pl, nout, out0, out1);
      front := CreateSplitPrimitive(prim, pl, nin, in0, in1);
    }
  }

  lemma WalkStarts(ds: Vec)
    ensures Walk(ds, 0, false) == [] && Walk(ds, 0, true) == [] && TurnWalk(ds, 0) == Coincident
  {
  }

  lemma TurnWalkStep(ds: Vec, m: nat)
    requires m < |ds|
    ensures TurnWalk(ds, m + 1) == Turn(ds, m, NextIndex(m, |ds|), TurnWalk(ds, m))
  {
  }

  lemma PointSide(ds: Vec)
    requires |ds| == 1
    ensures SideOf(ds) == if ds[0] > EPSILON then InBackOf else if ds[0] < -EPSILON then InFrontOf else Coincident
  {
  }

  /** The fragments of a spanning primitive are a split of it. */
  lemma SpanningSplits(prim: Prim, pl: Plane)
    requires Listable(prim) && SideOf(Distances(prim, pl)) == Spanning
    ensures var ds, n := Distances(prim, pl), |prim.verts|;
      && Indexes(prim.verts, Walk(ds, n, false)) && Indexes(prim.verts, Walk(ds, n, true))
      && IsSplit(prim, pl, Fragment(prim, pl, Walk(ds, n, false)), Fragment(prim, pl, Walk(ds, n, true)))
  {
    hide Dist, Walk, StaysWithin, FragmentVertices, Shows, Above, Below, SideOf;
    var ds, n := Distances(prim, pl), |prim.verts|;
    NotSpanningAlone(ds);
    WalkIsValid(ds, n, false);
    WalkIsValid(ds, n, true);
    FragmentKeepsSides(prim, pl, false, Walk(ds, n, false));
    FragmentKeepsSides(prim, pl, true, Walk(ds, n, true));
    ShownByFragments(prim, pl, prim.verts[0]);
    if prim.kind == Line {
      LineLists(ds, false);
      LineLists(ds, true);
    }
    assert Walk(ds, n, false)[..|Walk(ds, n, false)|] == Walk(ds, n, false);
    assert Walk(ds, n, true)[..|Walk(ds, n, true)|] == Walk(ds, n, true);
    var front, back := Fragment(prim, pl, Walk(ds, n, false)), Fragment(prim, pl, Walk(ds, n, true));
    forall p: Vertex ensures Shows(prim.verts, p) <==> Shows(front.verts, p) || Shows(back.verts, p) {
      ShownByFragments(prim, pl, p);
    }
  }

  lemma NotSpanningAlone(ds: Vec)
    requires SideOf(ds) == Spanning
    ensures |ds| >= 2
  {
  }

  lemma ShownByFragments(prim: Prim, pl: Plane, p: Vertex)
    requires Listable(prim) && SideOf(Distances(prim, pl)) == Spanning
    ensures Fragmented(prim.verts, pl, Distances(prim, pl), p)
  {
    hide Dist, Fragmented, SideOf;
    var ds, vs := Distances(prim, pl), prim.verts;
    NotSpanningAlone(ds);
    if |vs| == 2 {
      assert ds == [Dist(pl, vs[0]), Dist(pl, vs[1])];
      LineShows(vs, pl, ds, p);
    } else {
      assert ds == [Dist(pl, vs[0]), Dist(pl, vs[1]), Dist(pl, vs[2])];
      TriangleShows(vs, pl, ds, p);
    }
  }

  /** Whether the plane splits the primitive, found without building the fragments. */
  method TestSplitPrimitive(prim: Prim, pl: Plane) returns (split: nat)
    requires Listable(prim)
    ensures split == if SideOf(Distances(prim, pl)) == Spanning then 1 else 0
  {
    hide TurnWalk, Dist, SideOf;
    var d := Distances(prim, pl);
    var n := |prim.verts|;
    TurnsMean(d);
    if n < 2 {
      if SideOf(d) == Spanning {
        NotSpanningAlone(d);
      }
      return 0;
    }
    WalkStarts(d);
    var side := Coincident;
    for i := 0 to n
      invariant side == TurnWalk(d, i) && side != Spanning
    {
      var j := NextIndex(i, n);
      TurnWalkStep(d, i);
      if d[j] > EPSILON {
        if side == Coincident {
          side := InBackOf;
        } else if side != InBackOf {
          SpanningStays(d, i + 1);
          return 1;
        }
        if d[i] < -EPSILON {
          SpanningStays(d, i + 1);
          return 1;
        }
      } else if d[j] < -EPSILON {
        if side == Coincident {
          side := InFrontOf;
        } else if side != InFrontOf {
          SpanningStays(d, i + 1);
          return 1;
        }
        if d[i] > EPSILON {
          SpanningStays(d, i + 1);
          return 1;
        }
      }
    }
    split := 0;
  }

  lemma SpanningStays(ds: Vec, m: nat)
    requires m <= |ds| && TurnWalk(ds, m) == Spanning
    ensures SideOf(ds) == Spanning
  {
    TurnsSeen(ds, m);
  }

  // ----- lists

  /** A quadrangle enters a list as two triangles. */
  method DivideQuad(quad: Prim) returns (t1: Prim, t2: Prim)
    requires quad.kind == Quadrangle && Proper(quad)
    ensures [t1, t2] == Divided(quad)
  {
    t1 := Prim(Triangle, [quad.verts[0], quad.verts[1], quad.verts[2]], quad.look);
    t2 := Prim(Triangle, [quad.verts[0], quad.verts[2], quad.verts[3]], quad.look);
  }

  function Divided(p: Prim): seq<Prim>
    requires Proper(p)
  {
    var vs := p.verts;
    if p.kind != Quadrangle then [p]
    else [Prim(Triangle, [vs[0], vs[1], vs[2]], p.look), Prim(Triangle, [vs[0], vs[2], vs[3]], p.look)]
  }

  method AddPrimitiveInList(prim: Prim, list: seq<Prim>) returns (list': seq<Prim>)
    requires Proper(prim)
    ensures list' == list + Divided(prim)
  {
    if prim.kind != Quadrangle {
      list' := list + [prim];
    } else {
      var t1, t2 := DivideQuad(prim);
      list' := list + [t1];
      list' := list' + [t2];
    }
  }

  /** p belongs to a primitive of the list that has this look. */
  ghost predicate ListShows(ps: seq<Prim>, look: int, p: Vertex) {
    exists q | q in ps :: q.look == look && Shows(q.verts, p)
  }

  lemma DividedShows(prim: Prim, look: int, p: Vertex)
    requires Proper(prim)
    ensures ListShows(Divided(prim), look, p) <==> prim.look == look && Shows(prim.verts, p)
  {
    hide InTriangle;
    var ds := Divided(prim);
    if prim.kind == Quadrangle {
      assert ds[0].look == prim.look && ds[1].look == prim.look;
      assert Shows(prim.verts, p) <==> Shows(ds[0].verts, p) || Shows(ds[1].verts, p);
    } else {
      assert ds[0] == prim;
    }
  }

  lemma DividedStaysWithin(prim: Prim)
    requires Proper(prim)
    ensures AllListable(Divided(prim))
    ensures forall q | q in Divided(prim) :: StaysWithin(prim.verts, q.verts)
  {
    hide Dist;
  }

  // ----- the root

  ghost function SplitCount(ps: seq<Prim>, i: nat, m: nat, sqrt: real -> real): nat
    requires AllListable(ps) && i < |ps| && m <= |ps|
  {
    assert ps[i] in ps;
    if m == 0 then 0
    else
      var others := SplitCount(ps, i, m - 1, sqrt);
      if m - 1 != i && SideOf(Distances(ps[m - 1], GetPlane(ps[i], sqrt))) == Spanning then others + 1 else others
  }

  lemma {:induction false} SplitCountGrows(ps: seq<Prim>, i: nat, m: nat, n: nat, sqrt: real -> real)
    requires AllListable(ps) && i < |ps| && m <= n <= |ps|
    ensures SplitCount(ps, i, m, sqrt) <= SplitCount(ps, i, n, sqrt)
  {
    if m < n {
      SplitCountGrows(ps, i, m, n - 1, sqrt);
    }
  }

  const NO_ROOT := 1000000

  /** No competing candidate splits fewer others: one among the first maxbestroot, and fewer than a million. Of equal
      ones it is the first. */
  ghost predicate SplitsFewest(ps: seq<Prim>, index: nat, maxbestroot: nat, sqrt: real -> real)
    requires AllListable(ps) && index < |ps|
  {
    && (forall i: nat | i < |ps| && i < maxbestroot && SplitCount(ps, i, |ps|, sqrt) < NO_ROOT ::
          SplitCount(ps, index, |ps|, sqrt) <= SplitCount(ps, i, |ps|, sqrt))
    && (forall i: nat | i < index :: SplitCount(ps, index, |ps|, sqrt) < SplitCount(ps, i, |ps|, sqrt))
    && (index > 0 ==> SplitCount(ps, index, |ps|, sqrt) < NO_ROOT)
  }

  /** The root is the first primitive or, with the option, one among the first maxbestroot whose plane splits as
      few others as possible; counts from a million on do not compete. */
  ghost predicate IsRoot(ps: seq<Prim>, index: nat, bestRoot: bool, maxbestroot: nat, sqrt: real -> real)
    requires AllListable(ps)
  {
    && index < |ps| && (index == 0 || index < maxbestroot)
    && if bestRoot then SplitsFewest(ps, index, maxbestroot, sqrt) else index == 0
  }

  method FindRoot(ps: seq<Prim>, bestRoot: bool, maxbestroot: nat, sqrt: real -> real) returns (index: nat)
    requires ps != [] && AllListable(ps)
    ensures IsRoot(ps, index, bestRoot, maxbestroot, sqrt)
  {
    hide GetPlane, SideOf, Distances;
    index := 0;
    if bestRoot {
      var maxp := |ps|;
      if maxp > maxbestroot {
        maxp := maxbestroot;
      }
      var best := NO_ROOT;
      for i := 0 to maxp
        invariant index < |ps| && (index == 0 || index < maxbestroot) && 0 <= best <= NO_ROOT
        invariant best < NO_ROOT ==> best == SplitCount(ps, index, |ps|, sqrt)
        invariant forall k: nat | k < i :: best <= SplitCount(ps, k, |ps|, sqrt)
        invariant (forall k: nat | k < index :: best < SplitCount(ps, k, |ps|, sqrt)) && (index > 0 ==> best < NO_ROOT)
      {
        var count := CountSplits(ps, i, best, sqrt);
        if count < best {
          best := count;
          index := i;
          if count == 0 {
            return;
          }
        }
      }
    }
  }

  /** How many others the plane of primitive i splits; once that is more than best, any number that is more. */
  method CountSplits(ps: seq<Prim>, i: nat, best: nat, sqrt: real -> real) returns (count: nat)
    requires AllListable(ps) && i < |ps|
    ensures count <= best ==> count == SplitCount(ps, i, |ps|, sqrt)
    ensures count > best ==> SplitCount(ps, i, |ps|, sqrt) > best
  {
    hide GetPlane, SideOf, Distances;
    assert ps[i] in ps;
    var plane := GetPlane(ps[i], sqrt);
    count := 0;
    for j := 0 to |ps|
      invariant count == SplitCount(ps, i, j, sqrt)
    {
      assert ps[j] in ps;
      if j != i {
        var split := TestSplitPrimitive(ps[j], plane);
        count := count + split;
      }
      if count > best {
        SplitCountGrows(ps, i, j + 1, |ps|, sqrt);
        break;
      }
    }
  }
}
