/** Building the BSP tree (gl2psBuildBspTree in lib/bayesopt/matplotpp/gl2ps.c). */
module BspTrees {
  import opened RealVectors
  import opened BspPrimitives
  import opened BspPlanes
  import opened BspSplit
  import opened BspRoutines

  /** Pending stands for a subtree whose list is still to be built. */
  datatype Tree =
    | Empty
    | Pending(list: seq<Prim>)
    | Node(plane: Plane, primitives: seq<Prim>, front: Tree, back: Tree)

  /** All fragments of the tree. */
  function Fragments(t: Tree): seq<Prim> {
    match t
    case Empty => []
    case Pending(list) => list
    case Node(_, primitives, front, back) => Fragments(back) + primitives + Fragments(front)
  }

  predicate Finished(t: Tree) {
    match t
    case Empty => true
    case Pending(_) => false
    case Node(_, _, front, back) => Finished(front) && Finished(back)
  }

  /** Nothing is pending above level `depth`, and nothing is built below it. */
  predicate GrownTo(t: Tree, depth: nat) {
    match t
    case Empty => true
    case Pending(_) => depth == 0
    case Node(_, _, front, back) => depth > 0 && GrownTo(front, depth - 1) && GrownTo(back, depth - 1)
  }

  // ----- lists

  ghost predicate ListAbove(pl: Plane, ps: seq<Prim>, bound: real) {
    forall q | q in ps :: Above(pl, q.verts, bound)
  }

  ghost predicate ListBelow(pl: Plane, ps: seq<Prim>, bound: real) {
    forall q | q in ps :: Below(pl, q.verts, bound)
  }

  /** The primitives qs are in every half space that has all of ps. */
  ghost predicate ListStaysWithin(ps: seq<Prim>, qs: seq<Prim>) {
    forall pl: Plane, bound: real ::
      (ListAbove(pl, ps, bound) ==> ListAbove(pl, qs, bound)) && (ListBelow(pl, ps, bound) ==> ListBelow(pl, qs, bound))
  }

  /** Both lists show the same points in the same looks. */
  ghost predicate SamePicture(ps: seq<Prim>, qs: seq<Prim>) {
    forall look: int, p: Vertex :: ListShows(ps, look, p) <==> ListShows(qs, look, p)
  }

  ghost predicate AllLieIn(pl: Plane, ps: seq<Prim>) {
    forall q | q in ps :: LiesIn(pl, q)
  }

  lemma JoinShows(ps: seq<Prim>, qs: seq<Prim>, look: int, p: Vertex)
    ensures ListShows(ps + qs, look, p) <==> ListShows(ps, look, p) || ListShows(qs, look, p)
  {
    hide Shows;
  }

  lemma JoinStays(ps: seq<Prim>, ps': seq<Prim>, qs: seq<Prim>, qs': seq<Prim>)
    requires ListStaysWithin(ps, ps') && ListStaysWithin(qs, qs')
    ensures ListStaysWithin(ps + qs, ps' + qs')
  {
    hide Above, Below;
    forall pl: Plane, bound: real
      ensures ListAbove(pl, ps + qs, bound) ==> ListAbove(pl, ps' + qs', bound)
      ensures ListBelow(pl, ps + qs, bound) ==> ListBelow(pl, ps' + qs', bound)
    {
      JoinSides(pl, ps, qs, bound);
      JoinSides(pl, ps', qs', bound);
    }
  }

  lemma JoinSides(pl: Plane, ps: seq<Prim>, qs: seq<Prim>, bound: real)
    ensures ListAbove(pl, ps + qs, bound) <==> ListAbove(pl, ps, bound) && ListAbove(pl, qs, bound)
    ensures ListBelow(pl, ps + qs, bound) <==> ListBelow(pl, ps, bound) && ListBelow(pl, qs, bound)
  {
    hide Above, Below;
    assert forall q | q in ps :: q in ps + qs;
    assert forall q | q in qs :: q in ps + qs;
  }

  // ----- one primitive

  /** The primitive is replaced by the pieces same, front and back: they are on their sides of the plane, they show
      what the primitive shows, and they stay in every half space that it is in. */
  ghost predicate Pieces(prim: Prim, pl: Plane, same: seq<Prim>, front: seq<Prim>, back: seq<Prim>) {
    && AllListable(same) && AllListable(front) && AllListable(back)
    && AllLieIn(pl, same) && ListBelow(pl, front, EPSILON) && ListAbove(pl, back, -EPSILON)
    && SamePicture([prim], same + front + back)
    && ListStaysWithin([prim], same + front + back)
  }

  lemma WholePiece(prim: Prim, pl: Plane)
    requires Listable(prim)
    ensures SideOf(Distances(prim, pl)) == Coincident ==> Pieces(prim, pl, [prim], [], [])
    ensures SideOf(Distances(prim, pl)) == InFrontOf ==> Pieces(prim, pl, [], [prim], [])
    ensures SideOf(Distances(prim, pl)) == InBackOf ==> Pieces(prim, pl, [], [], [prim])
  {
    hide Dist, Shows, ListShows;
    var ds := Distances(prim, pl);
    assert forall k | 0 <= k < |prim.verts| :: ds[k] == Dist(pl, prim.verts[k]);
    assert [prim] + [] + [] == [prim] && [] + [prim] + [] == [prim] && [] + [] + [prim] == [prim];
  }

  lemma SplitPieces(prim: Prim, pl: Plane, front: Prim, back: Prim)
    requires IsSplit(prim, pl, front, back)
    ensures Proper(front) && Proper(back) && Pieces(prim, pl, [], Divided(front), Divided(back))
  {
    hide Dist, Shows, ListShows, StaysWithin, Above, Below, Divided, Listable;
    DividedStaysWithin(front);
    DividedStaysWithin(back);
    var fs, bs := Divided(front), Divided(back);
    assert [] + fs + bs == fs + bs;
    forall look: int, p: Vertex ensures ListShows([prim], look, p) <==> ListShows([] + fs + bs, look, p) {
      SingleShows(prim, look, p);
      DividedShows(front, look, p);
      DividedShows(back, look, p);
      JoinShows(fs, bs, look, p);
    }
    StaysTransitive(prim.verts, front.verts, fs);
    StaysTransitive(prim.verts, back.verts, bs);
    ListsStay(prim, fs, bs);
    SideStays(pl, front, fs);
    SideStays(pl, back, bs);
  }

  lemma SingleShows(prim: Prim, look: int, p: Vertex)
    ensures ListShows([prim], look, p) <==> prim.look == look && Shows(prim.verts, p)
  {
    hide Shows;
    assert prim in [prim];
  }

  lemma StaysTransitive(us: seq<Vertex>, vs: seq<Vertex>, qs: seq<Prim>)
    requires StaysWithin(us, vs) && forall q | q in qs :: StaysWithin(vs, q.verts)
    ensures forall q | q in qs :: StaysWithin(us, q.verts)
  {
    hide Above, Below;
  }

  lemma ListsStay(prim: Prim, fs: seq<Prim>, bs: seq<Prim>)
    requires forall q | q in fs || q in bs :: StaysWithin(prim.verts, q.verts)
    ensures ListStaysWithin([prim], [] + fs + bs)
  {
    hide Above, Below;
    forall pl: Plane, bound: real
      ensures ListAbove(pl, [prim], bound) ==> ListAbove(pl, [] + fs + bs, bound)
      ensures ListBelow(pl, [prim], bound) ==> ListBelow(pl, [] + fs + bs, bound)
    {
      assert prim in [prim];
      forall q | q in [] + fs + bs
        ensures ListAbove(pl, [prim], bound) ==> Above(pl, q.verts, bound)
        ensures ListBelow(pl, [prim], bound) ==> Below(pl, q.verts, bound)
      {
        assert StaysWithin(prim.verts, q.verts);
      }
    }
  }

  lemma SideStays(pl: Plane, parent: Prim, qs: seq<Prim>)
    requires forall q | q in qs :: StaysWithin(parent.verts, q.verts)
    ensures Above(pl, parent.verts, -EPSILON) ==> ListAbove(pl, qs, -EPSILON)
    ensures Below(pl, parent.verts, EPSILON) ==> ListBelow(pl, qs, EPSILON)
  {
    hide Above, Below;
  }

  /** A primitive that the plane does not split goes to the list of its side as it is. */
  ghost predicate OnItsSide(prim: Prim, pl: Plane, same: seq<Prim>, front: seq<Prim>, back: seq<Prim>) {
    match SideOf(Distances(prim, pl))
    case Coincident => same == [prim] && front == [] && back == []
    case InFrontOf => same == [] && front == [prim] && back == []
    case InBackOf => same == [] && front == [] && back == [prim]
    case Spanning => same == []
  }

  /** q is a piece of prim: it has its kind, and is in every half space that prim is in. */
  ghost predicate IsPart(prim: Prim, q: Prim) {
    q.kind == prim.kind && StaysWithin(prim.verts, q.verts)
  }

  ghost predicate AreParts(prim: Prim, qs: seq<Prim>) {
    forall q | q in qs :: IsPart(prim, q)
  }

  lemma WholePart(prim: Prim)
    ensures AreParts(prim, [prim]) && AreParts(prim, [])
  {
    hide Above, Below;
  }

  lemma SplitParts(prim: Prim, pl: Plane, front: Prim, back: Prim)
    requires Listable(prim) && IsSplit(prim, pl, front, back)
    ensures AreParts(prim, Divided(front)) && AreParts(prim, Divided(back))
  {
    hide Above, Below;
    DividedStaysWithin(front);
    DividedStaysWithin(back);
    hide StaysWithin;
    StaysTransitive(prim.verts, front.verts, Divided(front));
    StaysTransitive(prim.verts, back.verts, Divided(back));
  }

  /** One step of the loop over the primitives. */
  method PlacePrimitive(prim: Prim, pl: Plane, same: seq<Prim>, front: seq<Prim>, back: seq<Prim>)
    returns (same': seq<Prim>, front': seq<Prim>, back': seq<Prim>,
             ghost s: seq<Prim>, ghost f: seq<Prim>, ghost b: seq<Prim>)
    requires Listable(prim)
    ensures same' == same + s && front' == front + f && back' == back + b
    ensures Pieces(prim, pl, s, f, b) && OnItsSide(prim, pl, s, f, b) && AreParts(prim, f) && AreParts(prim, b)
  {
    hide Pieces, SideOf, Distances, IsSplit, AreParts;
    WholePart(prim);
    same', front', back' := same, front, back;
    s, f, b := [], [], [];
    var side, frontprim, backprim := SplitPrimitive(prim, pl);
    WholePiece(prim, pl);
    assert Divided(prim) == [prim];
    match side {
      case Coincident =>
        same' := AddPrimitiveInList(prim, same);
        s := [prim];
      case InBackOf =>
        back' := AddPrimitiveInList(prim, back);
        b := [prim];
      case InFrontOf =>
        front' := AddPrimitiveInList(prim, front);
        f := [prim];
      case Spanning =>
        SplitPieces(prim, pl, frontprim, backprim);
        SplitParts(prim, pl, frontprim, backprim);
        back' := AddPrimitiveInList(backprim, back);
        front' := AddPrimitiveInList(frontprim, front);
        f, b := Divided(frontprim), Divided(backprim);
    }
  }

  // ----- the loop

  /** The primitives considered when the loop is at i: those before i, and the root. */
  function Considered(ps: seq<Prim>, index: nat, i: nat): seq<Prim>
    requires index < |ps| && i <= |ps|
  {
    if i == 0 then [ps[index]] else if i - 1 == index then Considered(ps, index, i - 1)
    else Considered(ps, index, i - 1) + [ps[i - 1]]
  }

  lemma {:induction false} ConsideredAre(ps: seq<Prim>, index: nat, i: nat, q: Prim)
    requires index < |ps| && i <= |ps|
    ensures q in Considered(ps, index, i) <==> q == ps[index] || q in ps[..i]
  {
    if i > 0 {
      ConsideredAre(ps, index, i - 1, q);
      assert ps[..i] == ps[..i - 1] + [ps[i - 1]];
    }
  }

  /** Those of the first i, other than the root, that are on this side of the plane. */
  ghost function OnSide(ps: seq<Prim>, index: nat, i: nat, pl: Plane, side: Side): seq<Prim>
    requires i <= |ps|
  {
    if i == 0 then []
    else
      var before := OnSide(ps, index, i - 1, pl, side);
      if i - 1 != index && SideOf(Distances(ps[i - 1], pl)) == side then before + [ps[i - 1]] else before
  }

  /** Where the primitives go: the coincident ones follow the root in their order and, if the plane splits none, the
      others go to their sides in their order. */
  ghost predicate Separated(ps: seq<Prim>, index: nat, i: nat, pl: Plane,
                            same: seq<Prim>, front: seq<Prim>, back: seq<Prim>)
    requires index < |ps| && i <= |ps|
  {
    && same == [ps[index]] + OnSide(ps, index, i, pl, Coincident)
    && (OnSide(ps, index, i, pl, Spanning) == [] ==>
          front == OnSide(ps, index, i, pl, InFrontOf) && back == OnSide(ps, index, i, pl, InBackOf))
  }

  lemma SeparatedStep(ps: seq<Prim>, index: nat, i: nat, pl: Plane, same: seq<Prim>, front: seq<Prim>, back: seq<Prim>,
                      s: seq<Prim>, f: seq<Prim>, b: seq<Prim>)
    requires index < |ps| && i < |ps| && Separated(ps, index, i, pl, same, front, back)
    requires if i == index then s == f == b == [] else OnItsSide(ps[i], pl, s, f, b)
    ensures Separated(ps, index, i + 1, pl, same + s, front + f, back + b)
  {
    hide SideOf, Distances;
  }

  /** q is a piece of one of the first i, which is not the root and not coincident with the plane. */
  ghost predicate IsCutFrom(ps: seq<Prim>, index: nat, i: nat, pl: Plane, q: Prim)
    requires i <= |ps|
  {
    exists m: nat | m < i && m != index :: IsPart(ps[m], q) && SideOf(Distances(ps[m], pl)) != Coincident
  }

  ghost predicate AllCutFrom(ps: seq<Prim>, index: nat, i: nat, pl: Plane, qs: seq<Prim>)
    requires i <= |ps|
  {
    forall q | q in qs :: IsCutFrom(ps, index, i, pl, q)
  }

  lemma CutFromStep(ps: seq<Prim>, index: nat, i: nat, pl: Plane, qs: seq<Prim>, more: seq<Prim>)
    requires i < |ps| && AllCutFrom(ps, index, i, pl, qs) && AreParts(ps[i], more)
    requires i == index || SideOf(Distances(ps[i], pl)) == Coincident ==> more == []
    ensures AllCutFrom(ps, index, i + 1, pl, qs + more)
  {
    hide IsPart, SideOf, Distances;
    forall q | q in qs + more ensures IsCutFrom(ps, index, i + 1, pl, q) {
      if q in qs {
        assert IsCutFrom(ps, index, i, pl, q);
        var m: nat :| m < i && m != index && IsPart(ps[m], q) && SideOf(Distances(ps[m], pl)) != Coincident;
      } else {
        assert IsPart(ps[i], q);
      }
    }
  }

  lemma CoincidentCutsNothing(prim: Prim, pl: Plane, s: seq<Prim>, f: seq<Prim>, b: seq<Prim>)
    requires OnItsSide(prim, pl, s, f, b)
    ensures SideOf(Distances(prim, pl)) == Coincident ==> f == [] && b == []
  {
  }

  /** What the loop keeps: the three lists together show what the considered primitives show. */
  ghost predicate Distributed(ps: seq<Prim>, root: Prim, pl: Plane, same: seq<Prim>, front: seq<Prim>,
                              back: seq<Prim>)
  {
    && AllListable(same) && AllListable(front) && AllListable(back) && root in same
    && (forall q | q in same :: q == root || LiesIn(pl, q))
    && ListBelow(pl, front, EPSILON) && ListAbove(pl, back, -EPSILON)
    && SamePicture(ps, same + front + back) && ListStaysWithin(ps, same + front + back)
  }

  lemma JoinThree(s: seq<Prim>, f: seq<Prim>, b: seq<Prim>, s': seq<Prim>, f': seq<Prim>, b': seq<Prim>, q: Prim)
    ensures q in (s + s') + (f + f') + (b + b') <==> q in (s + f + b) + (s' + f' + b')
  {
  }

  lemma SameMembers(ps: seq<Prim>, qs: seq<Prim>)
    requires forall q :: q in ps <==> q in qs
    ensures SamePicture(ps, qs) && ListStaysWithin(ps, qs) && ListStaysWithin(qs, ps)
    ensures AllListable(ps) <==> AllListable(qs)
  {
    hide Shows, Above, Below, Listable;
  }

  lemma PictureTransitive(ps: seq<Prim>, qs: seq<Prim>, rs: seq<Prim>)
    requires SamePicture(ps, qs) && SamePicture(qs, rs)
    ensures SamePicture(ps, rs)
  {
    hide ListShows;
  }

  lemma StaysListTransitive(ps: seq<Prim>, qs: seq<Prim>, rs: seq<Prim>)
    requires ListStaysWithin(ps, qs) && ListStaysWithin(qs, rs)
    ensures ListStaysWithin(ps, rs)
  {
    hide ListAbove, ListBelow;
  }

  lemma JoinPictures(ps: seq<Prim>, ps': seq<Prim>, qs: seq<Prim>, qs': seq<Prim>)
    requires SamePicture(ps, ps') && SamePicture(qs, qs')
    ensures SamePicture(ps + qs, ps' + qs')
  {
    hide ListShows;
    forall look: int, p: Vertex ensures ListShows(ps + qs, look, p) <==> ListShows(ps' + qs', look, p) {
      JoinShows(ps, qs, look, p);
      JoinShows(ps', qs', look, p);
    }
  }

  lemma DistributeStep(ps: seq<Prim>, root: Prim, pl: Plane, same: seq<Prim>, front: seq<Prim>, back: seq<Prim>,
                       prim: Prim, s: seq<Prim>, f: seq<Prim>, b: seq<Prim>)
    requires Distributed(ps, root, pl, same, front, back) && Pieces(prim, pl, s, f, b)
    ensures Distributed(ps + [prim], root, pl, same + s, front + f, back + b)
  {
    hide LiesIn, SamePicture, ListStaysWithin, Above, Below, Listable;
    var old3, new3 := same + front + back, s + f + b;
    JoinPictures(ps, old3, [prim], new3);
    JoinStays(ps, old3, [prim], new3);
    var all := (same + s) + (front + f) + (back + b);
    forall q ensures q in old3 + new3 <==> q in all {
      JoinThree(same, front, back, s, f, b, q);
    }
    SameMembers(old3 + new3, all);
    PictureTransitive(ps + [prim], old3 + new3, all);
    StaysListTransitive(ps + [prim], old3 + new3, all);
  }

  lemma DistributeRoot(root: Prim, pl: Plane)
    requires Listable(root)
    ensures Distributed([root], root, pl, [root], [], [])
  {
    hide LiesIn, Above, Below, Shows;
    assert [root] + [] + [] == [root];
    SameMembers([root], [root]);
  }

  /** The loop of gl2psBuildBspTree. */
  method Distribute(ps: seq<Prim>, index: nat, pl: Plane) returns (same: seq<Prim>, front: seq<Prim>, back: seq<Prim>)
    requires AllListable(ps) && index < |ps|
    ensures Distributed(ps, ps[index], pl, same, front, back)
    ensures Separated(ps, index, |ps|, pl, same, front, back)
    ensures AllCutFrom(ps, index, |ps|, pl, front) && AllCutFrom(ps, index, |ps|, pl, back)
  {
    hide Distributed, Pieces, Separated, OnItsSide, AreParts, IsCutFrom, SideOf;
    assert ps[index] in ps;
    assert Divided(ps[index]) == [ps[index]];
    same := AddPrimitiveInList(ps[index], []);
    front, back := [], [];
    assert same == [ps[index]];
    DistributeRoot(ps[index], pl);
    SeparatedStart(ps, index, pl);
    for i := 0 to |ps|
      invariant Distributed(Considered(ps, index, i), ps[index], pl, same, front, back)
      invariant Separated(ps, index, i, pl, same, front, back)
      invariant AllCutFrom(ps, index, i, pl, front) && AllCutFrom(ps, index, i, pl, back)
    {
      assert ps[i] in ps;
      ghost var same0, front0, back0 := same, front, back;
      ghost var s: seq<Prim>, f: seq<Prim>, b: seq<Prim> := [], [], [];
      WholePart(ps[i]);
      if i != index {
        same, front, back, s, f, b := PlacePrimitive(ps[i], pl, same, front, back);
        DistributeStep(Considered(ps, index, i), ps[index], pl, same0, front0, back0, ps[i], s, f, b);
        CoincidentCutsNothing(ps[i], pl, s, f, b);
      }
      CutFromStep(ps, index, i, pl, front0, f);
      CutFromStep(ps, index, i, pl, back0, b);
      SeparatedStep(ps, index, i, pl, same0, front0, back0, s, f, b);
      assert same == same0 + s && front == front0 + f && back == back0 + b;
    }
    DistributedAll(ps, index, pl, same, front, back);
  }

  lemma SeparatedStart(ps: seq<Prim>, index: nat, pl: Plane)
    requires index < |ps|
    ensures Separated(ps, index, 0, pl, [ps[index]], [], [])
  {
  }

  lemma DistributedAll(ps: seq<Prim>, index: nat, pl: Plane, same: seq<Prim>, front: seq<Prim>, back: seq<Prim>)
    requires index < |ps| && Distributed(Considered(ps, index, |ps|), ps[index], pl, same, front, back)
    ensures Distributed(ps, ps[index], pl, same, front, back)
  {
    hide LiesIn, SamePicture, ListStaysWithin, ListAbove, ListBelow, Listable;
    var qs := Considered(ps, index, |ps|);
    forall q ensures q in ps <==> q in qs {
      ConsideredAre(ps, index, |ps|, q);
      assert ps[..|ps|] == ps;
    }
    SameMembers(ps, qs);
    PictureTransitive(ps, qs, same + front + back);
    StaysListTransitive(ps, qs, same + front + back);
  }

  // ----- the tree

  /** At every node, the fragments under back are not in front of the plane, and those under front not behind it,
      within the tolerance. */
  ghost predicate HalfSpaces(t: Tree) {
    t.Node? ==>
      && ListAbove(t.plane, Fragments(t.back), -EPSILON) && ListBelow(t.plane, Fragments(t.front), EPSILON)
      && HalfSpaces(t.back) && HalfSpaces(t.front)
  }

  /** The node has the plane of one of its primitives, and the others lie in it. */
  ghost predicate Owns(t: Tree, root: Prim, sqrt: real -> real)
    requires t.Node?
  {
    && Listable(root) && root in t.primitives && t.plane == GetPlane(root, sqrt)
    && forall q | q in t.primitives :: Listable(q) && (q == root || LiesIn(t.plane, q))
  }

  ghost predicate Owned(t: Tree, sqrt: real -> real) {
    t.Node? ==> (exists root :: Owns(t, root, sqrt)) && Owned(t.back, sqrt) && Owned(t.front, sqrt)
  }

  /** What building promises. */
  ghost predicate IsBspTree(t: Tree, ps: seq<Prim>, sqrt: real -> real) {
    && HalfSpaces(t) && Owned(t, sqrt) && AllListable(Fragments(t))
    && SamePicture(ps, Fragments(t)) && ListStaysWithin(ps, Fragments(t))
  }

  /** Sorting rearranges a list. */
  ghost predicate Rearranges(sort: seq<Prim> -> seq<Prim>) {
    forall s: seq<Prim> :: multiset(sort(s)) == multiset(s)
  }

  lemma SortedMembers(s: seq<Prim>, sort: seq<Prim> -> seq<Prim>)
    requires Rearranges(sort)
    ensures forall q :: q in sort(s) <==> q in s
    ensures sort(s) == [] <==> s == []
  {
    assert multiset(sort(s)) == multiset(s);
    forall q ensures q in sort(s) <==> q in s {
      assert q in multiset(sort(s)) <==> q in multiset(s);
    }
    assert |sort(s)| == |multiset(sort(s))| == |multiset(s)| == |s|;
  }

  lemma NodeIsBspTree(ps: seq<Prim>, root: Prim, pl: Plane, same: seq<Prim>, front: seq<Prim>, back: seq<Prim>,
                      same': seq<Prim>, tf: Tree, tb: Tree, sqrt: real -> real)
    requires Distributed(ps, root, pl, same, front, back) && Listable(root) && pl == GetPlane(root, sqrt)
    requires forall q :: q in same' <==> q in same
    requires IsBspTree(tf, front, sqrt) && IsBspTree(tb, back, sqrt)
    ensures IsBspTree(Node(pl, same', tf, tb), ps, sqrt)
  {
    hide LiesIn, SamePicture, ListStaysWithin, Above, Below, Listable, GetPlane;
    var t := Node(pl, same', tf, tb);
    var mid, out := same + front + back, same' + Fragments(tf) + Fragments(tb);
    SameMembers(same, same');
    JoinPictures(same, same', front, Fragments(tf));
    JoinStays(same, same', front, Fragments(tf));
    JoinPictures(same + front, same' + Fragments(tf), back, Fragments(tb));
    JoinStays(same + front, same' + Fragments(tf), back, Fragments(tb));
    forall q ensures q in out <==> q in Fragments(t) {
    }
    SameMembers(out, Fragments(t));
    PictureTransitive(ps, mid, out);
    PictureTransitive(ps, out, Fragments(t));
    StaysListTransitive(ps, mid, out);
    StaysListTransitive(ps, out, Fragments(t));
    assert Owns(t, root, sqrt);
    ChildrenStay(pl, front, Fragments(tf), back, Fragments(tb));
  }

  lemma ChildrenStay(pl: Plane, front: seq<Prim>, ff: seq<Prim>, back: seq<Prim>, fb: seq<Prim>)
    requires ListBelow(pl, front, EPSILON) && ListStaysWithin(front, ff)
    requires ListAbove(pl, back, -EPSILON) && ListStaysWithin(back, fb)
    ensures ListBelow(pl, ff, EPSILON) && ListAbove(pl, fb, -EPSILON)
  {
    hide ListAbove, ListBelow;
  }

  lemma EmptyIsBspTree(sqrt: real -> real)
    ensures IsBspTree(Empty, [], sqrt)
  {
    SameMembers([], []);
  }

  lemma SortedTree(t: Tree, ps: seq<Prim>, ps': seq<Prim>, sqrt: real -> real)
    requires IsBspTree(t, ps', sqrt) && forall q :: q in ps' <==> q in ps
    ensures IsBspTree(t, ps, sqrt)
  {
    hide HalfSpaces, Owned, SamePicture, ListStaysWithin, AllListable;
    SameMembers(ps, ps');
    PictureTransitive(ps, ps', Fragments(t));
    StaysListTransitive(ps, ps', Fragments(t));
  }

  lemma DistributedListable(ps: seq<Prim>, root: Prim, pl: Plane, same: seq<Prim>, front: seq<Prim>, back: seq<Prim>)
    requires Distributed(ps, root, pl, same, front, back)
    ensures AllListable(front) && AllListable(back)
  {
  }

  lemma PendingIsBspTree(ps: seq<Prim>, sqrt: real -> real)
    requires AllListable(ps)
    ensures IsBspTree(Pending(ps), ps, sqrt)
  {
    SameMembers(ps, ps);
  }

  /** The tree of one primitive. */
  function Single(prim: Prim, sqrt: real -> real): Tree
    requires Proper(prim)
  {
    Node(GetPlane(prim, sqrt), [prim], Empty, Empty)
  }

  /** How a node comes about: the plane is that of the root at index, and the lists separate the primitives. */
  ghost predicate IsLevel(t: Tree, ps: seq<Prim>, bestRoot: bool, maxbestroot: nat, sqrt: real -> real,
                          sort: seq<Prim> -> seq<Prim>, index: nat, same: seq<Prim>, front: seq<Prim>, back: seq<Prim>)
    requires AllListable(ps)
  {
    && IsRoot(ps, index, bestRoot, maxbestroot, sqrt) && Listable(ps[index])
    && AllListable(front) && AllListable(back)
    && t.Node? && t.plane == GetPlane(ps[index], sqrt) && t.primitives == sort(same)
    && Separated(ps, index, |ps|, t.plane, same, front, back)
    && AllCutFrom(ps, index, |ps|, t.plane, front) && AllCutFrom(ps, index, |ps|, t.plane, back)
  }

  /** Every node down to `depth` comes about in this way from the list of its side. */
  ghost predicate IsBuilt(t: Tree, ps: seq<Prim>, depth: nat, bestRoot: bool, maxbestroot: nat, sqrt: real -> real,
                          sort: seq<Prim> -> seq<Prim>)
    requires AllListable(ps)
    decreases depth, 0
  {
    if depth == 0 then t == Pending(ps)
    else exists index: nat, same: seq<Prim>, front: seq<Prim>, back: seq<Prim> ::
      && IsLevel(t, ps, bestRoot, maxbestroot, sqrt, sort, index, same, front, back)
      && IsSide(t.front, front, depth - 1, bestRoot, maxbestroot, sqrt, sort)
      && IsSide(t.back, back, depth - 1, bestRoot, maxbestroot, sqrt, sort)
  }

  /** The side of an empty list is empty, and that of another list is built from the sorted list. */
  ghost predicate IsSide(t: Tree, list: seq<Prim>, depth: nat, bestRoot: bool, maxbestroot: nat, sqrt: real -> real,
                         sort: seq<Prim> -> seq<Prim>)
    requires AllListable(list)
    decreases depth, 1
  {
    if list == [] then t == Empty
    else AllListable(sort(list)) && IsBuilt(t, sort(list), depth, bestRoot, maxbestroot, sqrt, sort)
  }

  lemma SortedOne(s: seq<Prim>, sort: seq<Prim> -> seq<Prim>)
    requires Rearranges(sort) && |s| == 1
    ensures sort(s) == s
  {
    assert multiset(sort(s)) == multiset(s);
    assert |sort(s)| == |multiset(sort(s))| == |multiset(s)| == 1;
    assert sort(s)[0] in multiset(sort(s));
    assert s == [s[0]];
  }

  /** A list of one primitive makes one node. */
  lemma OneIsSingle(t: Tree, ps: seq<Prim>, depth: nat, bestRoot: bool, maxbestroot: nat, sqrt: real -> real,
                    sort: seq<Prim> -> seq<Prim>)
    requires AllListable(ps) && Rearranges(sort) && |ps| == 1 && depth > 0
    requires IsBuilt(t, ps, depth, bestRoot, maxbestroot, sqrt, sort)
    ensures Listable(ps[0]) && t == Single(ps[0], sqrt)
  {
    hide GetPlane, Rearranges, SideOf, Distances, IsRoot, Listable, AllCutFrom;
    var index: nat, same: seq<Prim>, front: seq<Prim>, back: seq<Prim> :|
      && IsLevel(t, ps, bestRoot, maxbestroot, sqrt, sort, index, same, front, back)
      && IsSide(t.front, front, depth - 1, bestRoot, maxbestroot, sqrt, sort)
      && IsSide(t.back, back, depth - 1, bestRoot, maxbestroot, sqrt, sort);
    RootInRange(ps, index, bestRoot, maxbestroot, sqrt);
    assert forall side :: OnSide(ps, 0, 1, t.plane, side) == OnSide(ps, 0, 0, t.plane, side) == [];
    assert same == [ps[0]];
    SortedOne(same, sort);
  }

  lemma RootInRange(ps: seq<Prim>, index: nat, bestRoot: bool, maxbestroot: nat, sqrt: real -> real)
    requires AllListable(ps) && IsRoot(ps, index, bestRoot, maxbestroot, sqrt)
    ensures index < |ps|
  {
  }

  /** The subtree of a list, which is empty for an empty list. */
  method BuildSide(list: seq<Prim>, depth: nat, bestRoot: bool, maxbestroot: nat, sqrt: real -> real,
                   sort: seq<Prim> -> seq<Prim>)
    returns (t: Tree)
    requires AllListable(list) && Rearranges(sort)
    ensures IsBspTree(t, list, sqrt) && GrownTo(t, depth)
    ensures IsSide(t, list, depth, bestRoot, maxbestroot, sqrt, sort)
    decreases depth, 1
  {
    hide IsBspTree, Rearranges, Listable, IsBuilt;
    EmptyIsBspTree(sqrt);
    if list == [] {
      return Empty;
    }
    SortedMembers(list, sort);
    t := BuildBspTree(sort(list), depth, bestRoot, maxbestroot, sqrt, sort);
    SortedTree(t, list, sort(list), sqrt);
  }

  /** Builds the levels of the tree down to `depth`: what would be below is pending. */
  method BuildBspTree(ps: seq<Prim>, depth: nat, bestRoot: bool, maxbestroot: nat, sqrt: real -> real,
                      sort: seq<Prim> -> seq<Prim>)
    returns (t: Tree)
    requires ps != [] && AllListable(ps) && Rearranges(sort)
    ensures IsBspTree(t, ps, sqrt) && GrownTo(t, depth) && t != Empty
    ensures IsBuilt(t, ps, depth, bestRoot, maxbestroot, sqrt, sort)
    decreases depth, 0
  {
    hide IsBspTree, Distributed, Rearranges, GetPlane, AllListable, Separated, IsSide, Listable, AllCutFrom;
    if depth == 0 {
      PendingIsBspTree(ps, sqrt);
      return Pending(ps);
    }
    var index := FindRoot(ps, bestRoot, maxbestroot, sqrt);
    ListableAt(ps, index);
    var plane := GetPlane(ps[index], sqrt);
    var same, front, back := Distribute(ps, index, plane);
    SortedMembers(same, sort);
    DistributedListable(ps, ps[index], plane, same, front, back);
    var tf := BuildSide(front, depth - 1, bestRoot, maxbestroot, sqrt, sort);
    var tb := BuildSide(back, depth - 1, bestRoot, maxbestroot, sqrt, sort);
    NodeIsBspTree(ps, ps[index], plane, same, front, back, sort(same), tf, tb, sqrt);
    t := Node(plane, sort(same), tf, tb);
    assert IsLevel(t, ps, bestRoot, maxbestroot, sqrt, sort, index, same, front, back);
  }

  lemma ListableAt(ps: seq<Prim>, i: nat)
    requires AllListable(ps) && i < |ps|
    ensures Listable(ps[i])
  {
    assert ps[i] in ps;
  }
}
