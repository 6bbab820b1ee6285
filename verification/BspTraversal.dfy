/** Traversing the BSP tree from far to near, or near to far (gl2psTraverseBspTree in
    lib/bayesopt/matplotpp/gl2ps.c), and what the order is worth: the painter's algorithm. */
module BspTraversal {
  import opened RealVectors
  import opened BspDepth
  import opened BspPrimitives
  import opened BspPlanes
  import opened BspRoutines
  import opened BspSplit
  import opened BspTrees
  import opened Sequences

  predicate Greater(f1: real, f2: real) {
    f1 > f2
  }

  predicate Less(f1: real, f2: real) {
    f1 < f2
  }

  /** The order in which the primitives are visited. */
  function Visits(t: Tree, eye: Vertex, epsilon: real, compare: (real, real) -> bool, inverse: bool): seq<Prim> {
    if !t.Node? then []
    else
      var result := Dist(t.plane, eye);
      var own := if inverse then Reversed(t.primitives) else t.primitives;
      var b, f := Visits(t.back, eye, epsilon, compare, inverse), Visits(t.front, eye, epsilon, compare, inverse);
      if compare(result, epsilon) then b + own + f
      else if compare(-epsilon, result) then f + own + b
      else f + b
  }

  /** The action is applied to one primitive after another: here it appends to a list. */
  method ListAction(list: seq<Prim>, inverse: bool, visited: seq<Prim>) returns (visited': seq<Prim>)
    ensures visited' == visited + if inverse then Reversed(list) else list
  {
    visited' := visited;
    if inverse {
      var i := |list|;
      while i > 0
        invariant 0 <= i <= |list|
        invariant visited' == visited + Reversed(list)[..|list| - i]
      {
        i := i - 1;
        visited' := visited' + [list[i]];
      }
      assert Reversed(list)[..|list|] == Reversed(list);
    } else {
      for i := 0 to |list|
        invariant visited' == visited + list[..i]
      {
        visited' := visited' + [list[i]];
      }
      assert list[..|list|] == list;
    }
  }

  lemma JoinAssociates<T>(s: seq<T>, a: seq<T>, b: seq<T>, c: seq<T>)
    ensures s + a + b + c == s + (a + b + c)
  {
  }

  lemma VisitsEmpty(t: Tree, eye: Vertex, epsilon: real, compare: (real, real) -> bool, inverse: bool,
                    visited: seq<Prim>)
    ensures !t.Node? ==> visited + Visits(t, eye, epsilon, compare, inverse) == visited
  {
  }

  lemma VisitsNode(t: Tree, eye: Vertex, epsilon: real, compare: (real, real) -> bool, inverse: bool)
    requires t.Node?
    ensures var result, own := Dist(t.plane, eye), if inverse then Reversed(t.primitives) else t.primitives;
            var b, f := Visits(t.back, eye, epsilon, compare, inverse), Visits(t.front, eye, epsilon, compare, inverse);
            Visits(t, eye, epsilon, compare, inverse)
            == if compare(result, epsilon) then b + own + f
               else if compare(-epsilon, result) then f + own + b else f + b
  {
  }

  method TraverseBspTree(t: Tree, eye: Vertex, epsilon: real, compare: (real, real) -> bool, inverse: bool,
                         visited: seq<Prim>)
    returns (visited': seq<Prim>)
    ensures visited' == visited + Visits(t, eye, epsilon, compare, inverse)
  {
    hide Dist, Reversed, Visits;
    visited' := visited;
    VisitsEmpty(t, eye, epsilon, compare, inverse, visited);
    if !t.Node? {
      return;
    }
    ghost var b := Visits(t.back, eye, epsilon, compare, inverse);
    ghost var f := Visits(t.front, eye, epsilon, compare, inverse);
    ghost var own := if inverse then Reversed(t.primitives) else t.primitives;
    VisitsNode(t, eye, epsilon, compare, inverse);
    var result := Dist(t.plane, eye);
    if compare(result, epsilon) {
      visited' := TraverseBspTree(t.back, eye, epsilon, compare, inverse, visited');
      visited' := ListAction(t.primitives, inverse, visited');
      visited' := TraverseBspTree(t.front, eye, epsilon, compare, inverse, visited');
      JoinAssociates(visited, b, own, f);
    } else if compare(-epsilon, result) {
      visited' := TraverseBspTree(t.front, eye, epsilon, compare, inverse, visited');
      visited' := ListAction(t.primitives, inverse, visited');
      visited' := TraverseBspTree(t.back, eye, epsilon, compare, inverse, visited');
      JoinAssociates(visited, f, own, b);
    } else {
      visited' := TraverseBspTree(t.front, eye, epsilon, compare, inverse, visited');
      visited' := TraverseBspTree(t.back, eye, epsilon, compare, inverse, visited');
      JoinAssociates(visited, f, [], b);
      assert f + [] + b == f + b && visited + f + [] + b == visited + f + b;
    }
  }

  // ----- each fragment once

  /** The eye is beyond the tolerance from the plane. */
  predicate Clear(pl: Plane, eye: Vertex) {
    Dist(pl, eye) > EPSILON || Dist(pl, eye) < -EPSILON
  }

  /** The eye is clear of the planes of all nodes. */
  predicate AllClear(t: Tree, eye: Vertex) {
    t.Node? ==> Clear(t.plane, eye) && AllClear(t.back, eye) && AllClear(t.front, eye)
  }

  /** The primitives of the nodes whose plane the eye is clear of. */
  function ClearFragments(t: Tree, eye: Vertex): seq<Prim> {
    if !t.Node? then []
    else ClearFragments(t.back, eye) + (if Clear(t.plane, eye) then t.primitives else []) + ClearFragments(t.front, eye)
  }

  /** The traversals that the program makes: from far to near, and from near to far. */
  function FarToNear(t: Tree, eye: Vertex): seq<Prim> {
    Visits(t, eye, EPSILON, Greater, false)
  }

  function NearToFar(t: Tree, eye: Vertex): seq<Prim> {
    Visits(t, eye, -EPSILON, Less, true)
  }

  lemma {:induction false} ClearVisitedOnce(t: Tree, eye: Vertex)
    ensures multiset(FarToNear(t, eye)) == multiset(ClearFragments(t, eye))
  {
    hide Dist;
    if t.Node? {
      ClearVisitedOnce(t.back, eye);
      ClearVisitedOnce(t.front, eye);
    }
  }

  lemma {:induction false} AllClearFragments(t: Tree, eye: Vertex)
    requires Finished(t) && AllClear(t, eye)
    ensures ClearFragments(t, eye) == Fragments(t)
  {
    hide Clear;
    if t.Node? {
      AllClearFragments(t.back, eye);
      AllClearFragments(t.front, eye);
    }
  }

  /** Every fragment of a finished tree is drawn exactly once, provided that the eye is clear of all planes. In general
      those of the other nodes are left out, and nothing else is. */
  lemma {:induction false} DrawnOnce(t: Tree, eye: Vertex)
    ensures multiset(FarToNear(t, eye)) == multiset(ClearFragments(t, eye))
    ensures Finished(t) && AllClear(t, eye) ==> multiset(FarToNear(t, eye)) == multiset(Fragments(t))
  {
    ClearVisitedOnce(t, eye);
    if Finished(t) && AllClear(t, eye) {
      AllClearFragments(t, eye);
    }
  }

  /** The finished tree is drawn whole, fragment by fragment, if and only if the eye is clear of all planes: every
      node has the primitive that gave it its plane. */
  lemma {:induction false} DrawnWholeIff(t: Tree, eye: Vertex, sqrt: real -> real)
    requires Finished(t) && Owned(t, sqrt)
    ensures multiset(FarToNear(t, eye)) == multiset(Fragments(t)) <==> AllClear(t, eye)
    ensures |FarToNear(t, eye)| == |Fragments(t)| <==> AllClear(t, eye)
  {
    hide AllClear, FarToNear, Owned, Finished;
    DrawnOnce(t, eye);
    assert |multiset(FarToNear(t, eye))| == |multiset(ClearFragments(t, eye))|;
    assert |multiset(FarToNear(t, eye))| == |FarToNear(t, eye)| && |multiset(Fragments(t))| == |Fragments(t)|;
    FewerIfNotClear(t, eye, sqrt);
  }

  lemma {:induction false} FewerIfNotClear(t: Tree, eye: Vertex, sqrt: real -> real)
    requires Finished(t) && Owned(t, sqrt)
    ensures |ClearFragments(t, eye)| <= |Fragments(t)|
    ensures !AllClear(t, eye) ==> |ClearFragments(t, eye)| < |Fragments(t)|
  {
    hide Clear;
    if t.Node? {
      var root :| Owns(t, root, sqrt);
      FewerIfNotClear(t.back, eye, sqrt);
      FewerIfNotClear(t.front, eye, sqrt);
      assert t.primitives != [] by { OwnerListed(t, root, sqrt); }
    }
  }

  lemma OwnerListed(t: Tree, root: Prim, sqrt: real -> real)
    requires t.Node? && Owns(t, root, sqrt)
    ensures root in t.primitives
  {
  }

  /** The traversal for culling visits the fragments in the opposite order. */
  lemma {:induction false} NearToFarIsReverse(t: Tree, eye: Vertex)
    requires AllClear(t, eye)
    ensures NearToFar(t, eye) == Reversed(FarToNear(t, eye))
  {
    hide Dist, Reversed;
    if t.Node? {
      NearToFarIsReverse(t.back, eye);
      NearToFarIsReverse(t.front, eye);
      var b, f, own := FarToNear(t.back, eye), FarToNear(t.front, eye), t.primitives;
      ReversedJoin(b + own, f);
      ReversedJoin(b, own);
      ReversedJoin(f + own, b);
      ReversedJoin(f, own);
      assert Reversed(f) + (Reversed(own) + Reversed(b)) == Reversed(f) + Reversed(own) + Reversed(b);
      assert Reversed(b) + (Reversed(own) + Reversed(f)) == Reversed(b) + Reversed(own) + Reversed(f);
    } else {
      assert Reversed<Prim>([]) == [] by { NothingReversed<Prim>(); }
    }
  }

  // ----- the painter's order

  function Planes(t: Tree): seq<Plane> {
    if !t.Node? then [] else Planes(t.back) + [t.plane] + Planes(t.front)
  }

  /** The plane has f on the side of the eye and g on the other, within the tolerance. */
  ghost predicate Divides(pl: Plane, eye: Vertex, f: Prim, g: Prim) {
    if Dist(pl, eye) > EPSILON then Above(pl, f.verts, -EPSILON) && Below(pl, g.verts, EPSILON)
    else Dist(pl, eye) < -EPSILON && Below(pl, f.verts, EPSILON) && Above(pl, g.verts, -EPSILON)
  }

  ghost predicate DividedBySome(pls: seq<Plane>, eye: Vertex, f: Prim, g: Prim) {
    exists pl | pl in pls :: Divides(pl, eye, f, g)
  }

  /** Whatever is visited earlier is divided from what comes later, and is on the side of the eye: any two of the list
      outside the set of strays. */
  ghost predicate PaintersOrder(fs: seq<Prim>, pls: seq<Plane>, eye: Vertex, strays: set<Prim>) {
    forall i, j | 0 <= i < j < |fs| && fs[i] !in strays && fs[j] !in strays :: DividedBySome(pls, eye, fs[i], fs[j])
  }

  ghost function Astray(pl: Plane, ps: seq<Prim>): set<Prim> {
    set q | q in ps && !LiesIn(pl, q)
  }

  /** The primitives that do not lie in the plane of their node. */
  ghost function Strays(t: Tree): set<Prim> {
    if t.Node? then Strays(t.back) + Astray(t.plane, t.primitives) + Strays(t.front) else {}
  }

  /** None of them is regular, or has all its vertices at the same height within the tolerance. */
  ghost predicate NoneFlat(ps: set<Prim>, sqrt: real -> real) {
    forall q | q in ps :: Listable(q) && !Regular(q, sqrt) && !Level(q)
  }

  /** Only a primitive that gave its node the plane can stray from it, and only if it is not flat. */
  lemma {:induction false} StraysAreNotFlat(t: Tree, sqrt: real -> real)
    requires Owned(t, sqrt) && IsSqrt(sqrt)
    ensures NoneFlat(Strays(t), sqrt)
  {
    hide GetPlane, LiesIn, Regular, Level, IsSqrt, Listable;
    if t.Node? {
      StraysAreNotFlat(t.back, sqrt);
      StraysAreNotFlat(t.front, sqrt);
      var root :| Owns(t, root, sqrt);
      assert Listable(root);
      LiesInPlaneIff(root, sqrt);
    }
  }

  /** A node has no stray of its own if and only if the primitive that gave the plane is flat. */
  lemma StrayIff(t: Tree, root: Prim, sqrt: real -> real)
    requires t.Node? && IsSqrt(sqrt) && Owns(t, root, sqrt)
    ensures Astray(t.plane, t.primitives) == {} <==> Regular(root, sqrt) || Level(root)
  {
    hide GetPlane, LiesIn, Regular, Level, IsSqrt;
    LiesInPlaneIff(root, sqrt);
    assert root in Astray(t.plane, t.primitives) <==> !LiesIn(t.plane, root);
  }

  lemma {:induction false} VisitedAreFragments(t: Tree, eye: Vertex, q: Prim)
    requires q in FarToNear(t, eye)
    ensures q in Fragments(t)
  {
    hide Dist;
    if q in FarToNear(t.back, eye) {
      VisitedAreFragments(t.back, eye, q);
    } else if q in FarToNear(t.front, eye) {
      VisitedAreFragments(t.front, eye, q);
    }
  }

  lemma MorePlanes(fs: seq<Prim>, pls: seq<Plane>, pls': seq<Plane>, eye: Vertex, strays: set<Prim>, strays': set<Prim>)
    requires PaintersOrder(fs, pls, eye, strays) && strays <= strays' && forall pl | pl in pls :: pl in pls'
    ensures PaintersOrder(fs, pls', eye, strays')
  {
    hide Divides;
    forall i, j | 0 <= i < j < |fs| && fs[i] !in strays' && fs[j] !in strays'
      ensures DividedBySome(pls', eye, fs[i], fs[j])
    {
      assert DividedBySome(pls, eye, fs[i], fs[j]);
    }
  }

  /** Two lists in order, and a plane that divides the first from the second. */
  lemma JoinInOrder(fs: seq<Prim>, gs: seq<Prim>, pls: seq<Plane>, pl: Plane, eye: Vertex, strays: set<Prim>)
    requires PaintersOrder(fs, pls, eye, strays) && PaintersOrder(gs, pls, eye, strays) && pl in pls
    requires forall f, g | f in fs && g in gs && f !in strays && g !in strays :: Divides(pl, eye, f, g)
    ensures PaintersOrder(fs + gs, pls, eye, strays)
  {
    hide Divides;
    var all := fs + gs;
    forall i, j | 0 <= i < j < |all| && all[i] !in strays && all[j] !in strays
      ensures DividedBySome(pls, eye, all[i], all[j])
    {
      if j < |fs| {
        assert DividedBySome(pls, eye, fs[i], fs[j]);
      } else if i >= |fs| {
        assert DividedBySome(pls, eye, gs[i - |fs|], gs[j - |fs|]);
      } else {
        assert Divides(pl, eye, fs[i], gs[j - |fs|]);
      }
    }
  }

  lemma CoplanarInOrder(fs: seq<Prim>, pls: seq<Plane>, pl: Plane, eye: Vertex, strays: set<Prim>)
    requires Astray(pl, fs) <= strays && pl in pls && Clear(pl, eye)
    ensures PaintersOrder(fs, pls, eye, strays)
  {
    hide LiesIn, Clear;
    forall i, j | 0 <= i < j < |fs| && fs[i] !in strays && fs[j] !in strays
      ensures DividedBySome(pls, eye, fs[i], fs[j])
    {
      assert fs[i] !in Astray(pl, fs) && fs[j] !in Astray(pl, fs);
      LiesInDivides(pl, eye, fs[i], fs[j]);
    }
  }

  lemma LiesInDivides(pl: Plane, eye: Vertex, f: Prim, g: Prim)
    requires LiesIn(pl, f) && LiesIn(pl, g) && Clear(pl, eye)
    ensures Divides(pl, eye, f, g)
  {
    hide Dist;
  }

  lemma NodeDivides(t: Tree, eye: Vertex, f: Prim, g: Prim)
    requires t.Node? && Clear(t.plane, eye)
    requires ListAbove(t.plane, Fragments(t.back), -EPSILON) && ListBelow(t.plane, Fragments(t.front), EPSILON)
    requires f !in Astray(t.plane, t.primitives) && g !in Astray(t.plane, t.primitives)
    requires if Dist(t.plane, eye) > EPSILON
             then (f in Fragments(t.back) || f in t.primitives) && (g in Fragments(t.front) || g in t.primitives)
             else (f in Fragments(t.front) || f in t.primitives) && (g in Fragments(t.back) || g in t.primitives)
    ensures Divides(t.plane, eye, f, g)
  {
    hide Dist, Fragments;
    assert f in t.primitives ==> LiesIn(t.plane, f);
    assert g in t.primitives ==> LiesIn(t.plane, g);
  }

  /** The fragments are drawn in a painter's order: of two fragments that do not stray, the one drawn first is on the
      side of the eye of the plane of a node, and the other one on the other side. */
  lemma {:induction false} DrawnInOrder(t: Tree, eye: Vertex)
    requires HalfSpaces(t) && AllClear(t, eye)
    ensures PaintersOrder(FarToNear(t, eye), Planes(t), eye, Strays(t))
  {
    hide Divides, Dist, DividedBySome, ListAbove, ListBelow, Astray;
    if t.Node? {
      DrawnInOrder(t.back, eye);
      DrawnInOrder(t.front, eye);
      hide PaintersOrder;
      var pl, pls, strays := t.plane, Planes(t), Strays(t);
      var b, f, own := FarToNear(t.back, eye), FarToNear(t.front, eye), t.primitives;
      MorePlanes(b, Planes(t.back), pls, eye, Strays(t.back), strays);
      MorePlanes(f, Planes(t.front), pls, eye, Strays(t.front), strays);
      CoplanarInOrder(own, pls, pl, eye, strays);
      var first, last := if Dist(pl, eye) > EPSILON then b else f, if Dist(pl, eye) > EPSILON then f else b;
      forall x, y | x in first + own && y in own + last && (x in first || y in last) && x !in strays && y !in strays
        ensures Divides(pl, eye, x, y)
      {
        if x in b {
          VisitedAreFragments(t.back, eye, x);
        }
        if x in f {
          VisitedAreFragments(t.front, eye, x);
        }
        if y in b {
          VisitedAreFragments(t.back, eye, y);
        }
        if y in f {
          VisitedAreFragments(t.front, eye, y);
        }
        NodeDivides(t, eye, x, y);
      }
      JoinInOrder(first, own, pls, pl, eye, strays);
      JoinInOrder(first + own, last, pls, pl, eye, strays);
    } else {
      assert FarToNear(t, eye) == [];
    }
  }

  /** Regular, or level within the tolerance. */
  predicate Flat(q: Prim, sqrt: real -> real) {
    Proper(q) && (Regular(q, sqrt) || Level(q))
  }

  /** In particular any two flat fragments are drawn in order, whatever the other fragments are. */
  lemma FlatAreDivided(t: Tree, eye: Vertex, sqrt: real -> real, i: nat, j: nat)
    requires HalfSpaces(t) && Owned(t, sqrt) && IsSqrt(sqrt) && AllClear(t, eye)
    requires i < j < |FarToNear(t, eye)| && Flat(FarToNear(t, eye)[i], sqrt) && Flat(FarToNear(t, eye)[j], sqrt)
    ensures DividedBySome(Planes(t), eye, FarToNear(t, eye)[i], FarToNear(t, eye)[j])
  {
    hide HalfSpaces, Owned, AllClear, IsSqrt, Regular, Level, DividedBySome, Visits, Strays;
    DrawnInOrder(t, eye);
    StraysAreNotFlat(t, sqrt);
  }

  /** From the list of primitives to the picture: building and drawing. If the eye is clear of all planes, nothing is
      lost or invented, and the order is a painter's order of all fragments that are flat, and of all others that did
      not give their node its plane. As many levels as there are primitives are enough if no fragment degenerates. */
  method DrawSorted(ps: seq<Prim>, depth: nat, bestRoot: bool, maxbestroot: nat, sqrt: real -> real,
                    sort: seq<Prim> -> seq<Prim>, eye: Vertex)
    returns (drawn: seq<Prim>, finished: bool, t: Tree)
    requires ps != [] && AllListable(ps) && Rearranges(sort)
    ensures IsBspTree(t, ps, sqrt) && GrownTo(t, depth) && finished == Finished(t) && drawn == FarToNear(t, eye)
    ensures IsBuilt(t, ps, depth, bestRoot, maxbestroot, sqrt, sort)
    ensures IsSqrt(sqrt) && |ps| <= depth && AllPlain(Fragments(t), sqrt) ==> finished
    ensures finished && AllClear(t, eye) ==> SamePicture(ps, drawn)
    ensures AllClear(t, eye) ==> PaintersOrder(drawn, Planes(t), eye, Strays(t))
    ensures IsSqrt(sqrt) ==> NoneFlat(Strays(t), sqrt)
  {
    hide IsBspTree, AllClear, PaintersOrder, Visits, SamePicture, AllListable, Rearranges, GrownTo, NoneFlat, IsSqrt;
    hide IsBuilt, AllPlain;
    t := BuildBspTree(ps, depth, bestRoot, maxbestroot, sqrt, sort);
    finished := Finished(t);
    drawn := TraverseBspTree(t, eye, EPSILON, Greater, false, []);
    assert drawn == FarToNear(t, eye);
    TreeParts(t, ps, sqrt);
    if AllClear(t, eye) {
      DrawnOnce(t, eye);
      if finished {
        PictureDrawn(ps, t, drawn, sqrt);
      }
      DrawnInOrder(t, eye);
    }
    if IsSqrt(sqrt) {
      StraysAreNotFlat(t, sqrt);
      if |ps| <= depth && AllPlain(Fragments(t), sqrt) {
        DepthIsEnough(t, ps, depth, bestRoot, maxbestroot, sqrt, sort);
      }
    }
  }

  lemma TreeParts(t: Tree, ps: seq<Prim>, sqrt: real -> real)
    requires IsBspTree(t, ps, sqrt)
    ensures HalfSpaces(t) && Owned(t, sqrt)
  {
  }

  lemma PictureDrawn(ps: seq<Prim>, t: Tree, drawn: seq<Prim>, sqrt: real -> real)
    requires IsBspTree(t, ps, sqrt) && multiset(drawn) == multiset(Fragments(t))
    ensures SamePicture(ps, drawn)
  {
    hide HalfSpaces, Owned, SamePicture, Fragments;
    forall q ensures q in drawn <==> q in Fragments(t) {
      assert q in multiset(drawn) <==> q in multiset(Fragments(t));
    }
    SameMembers(Fragments(t), drawn);
    PictureTransitive(ps, Fragments(t), drawn);
  }
}
