/** The contours of a level (contourc in lib/bayesopt/matplotpp/matplotpp.cc): they are all closed curves or open ones
    if and only if no cell of the grid has crossings on all of its four edges. */
module ContourComponents {
  import opened ContourTracing
  import opened ContourLines
  import opened ContourShapes
  import opened OpenContours
  import opened Sequences

  // ----- cells with four crossings

  /** The four edges of the cell with lower corner (a, b): bottom, right, top, left. */
  function CellEdge(a: int, b: int, k: nat): (p: ContourPoint)
    requires k < 4
  {
    match k
    case 0 => ContourPoint(0.0, 0.0, a, b, 0, 0)
    case 1 => ContourPoint(0.0, 0.0, a + 1, b, 1, 0)
    case 2 => ContourPoint(0.0, 0.0, a, b + 1, 0, 0)
    case _ => ContourPoint(0.0, 0.0, a, b, 1, 0)
  }

  predicate SameEdge(p: ContourPoint, q: ContourPoint) {
    IsEdge(p, q.yi, q.xj, q.xy)
  }

  predicate InGrid(g: Grid, a: int, b: int) {
    0 <= a < g.nx - 1 && 0 <= b < g.ny - 1
  }

  ghost predicate FourCrossings(g: Grid, z: real, a: int, b: int)
    requires ValidGrid(g) && InGrid(g, a, b)
  {
    forall k: nat | k < 4 :: CrossedEdge(g, z, CellEdge(a, b, k))
  }

  ghost predicate NoSaddle(g: Grid, z: real)
    requires ValidGrid(g)
  {
    forall a, b | InGrid(g, a, b) :: !FourCrossings(g, z, a, b)
  }

  lemma CellEdgeOf(g: Grid, p: ContourPoint, a: int, b: int) returns (k: nat)
    requires ValidEdge(g, p) && OnCell(p, a, b)
    ensures k < 4 && SameEdge(p, CellEdge(a, b, k))
  {
    k := if p.xy == 0 then if p.yi == b then 0 else 2 else if p.xj == a then 3 else 1;
  }

  lemma SameCrossed(g: Grid, z: real, p: ContourPoint, q: ContourPoint)
    requires ValidGrid(g) && SameEdge(p, q) && CrossedEdge(g, z, p)
    ensures CrossedEdge(g, z, q)
  {
    hide Between;
  }

  /** Around a cell the level is crossed an even number of times, if it is not met at the corners. */
  lemma FourthChange(z: real, v0: real, v1: real, v2: real, v3: real)
    requires Between(z, v0, v1) && Between(z, v1, v2) && Between(z, v2, v3)
    ensures Between(z, v3, v0)
  {
    hide Between;
    BetweenBounds(z, v0, v1);
    BetweenBounds(z, v1, v2);
    BetweenBounds(z, v2, v3);
    BetweenBounds(z, v3, v0);
  }

  lemma BetweenCommutes(z: real, v: real, w: real)
    ensures Between(z, v, w) <==> Between(z, w, v)
  {
    hide Between;
    BetweenBounds(z, v, w);
    BetweenBounds(z, w, v);
  }

  lemma CellValues(g: Grid, z: real, a: int, b: int)
    requires ValidGrid(g) && InGrid(g, a, b)
    ensures var v0, v1, v2, v3 := g.Z[b][a], g.Z[b][a + 1], g.Z[b + 1][a + 1], g.Z[b + 1][a];
      && (CrossedEdge(g, z, CellEdge(a, b, 0)) <==> Between(z, v0, v1))
      && (CrossedEdge(g, z, CellEdge(a, b, 1)) <==> Between(z, v1, v2))
      && (CrossedEdge(g, z, CellEdge(a, b, 2)) <==> Between(z, v2, v3))
      && (CrossedEdge(g, z, CellEdge(a, b, 3)) <==> Between(z, v3, v0))
  {
    hide Between;
    BetweenCommutes(z, g.Z[b + 1][a + 1], g.Z[b + 1][a]);
    BetweenCommutes(z, g.Z[b][a], g.Z[b + 1][a]);
  }

  /** Three crossings of one cell come with a fourth. */
  lemma ThreeAreFour(g: Grid, z: real, a: int, b: int, i: nat, j: nat, k: nat)
    requires ValidGrid(g) && InGrid(g, a, b) && i < 4 && j < 4 && k < 4 && i != j && i != k && j != k
    requires CrossedEdge(g, z, CellEdge(a, b, i)) && CrossedEdge(g, z, CellEdge(a, b, j))
    requires CrossedEdge(g, z, CellEdge(a, b, k))
    ensures FourCrossings(g, z, a, b)
  {
    hide Between, CrossedEdge, CellEdge;
    CellValues(g, z, a, b);
    var v0, v1, v2, v3 := g.Z[b][a], g.Z[b][a + 1], g.Z[b + 1][a + 1], g.Z[b + 1][a];
    var rest := 6 - i - j - k;
    match rest {
      case 0 => FourthChange(z, v1, v2, v3, v0);
      case 1 => FourthChange(z, v2, v3, v0, v1);
      case 2 => FourthChange(z, v3, v0, v1, v2);
      case _ => FourthChange(z, v0, v1, v2, v3);
    }
    forall m: nat | m < 4 ensures CrossedEdge(g, z, CellEdge(a, b, m)) {
      assert m == 0 || m == 1 || m == 2 || m == 3;
    }
  }

  // ----- at most two neighbours

  ghost predicate Neighbours(P: seq<ContourPoint>, c: nat, m: nat) {
    c < |P| && m < |P| && Adjoins(P[c], P[m])
  }

  ghost predicate AtMostTwo(P: seq<ContourPoint>) {
    forall c: nat, i: nat, j: nat, k: nat |
      Neighbours(P, c, i) && Neighbours(P, c, j) && Neighbours(P, c, k) :: i == j || i == k || j == k
  }

  ghost predicate AllCrossed(g: Grid, z: real, P: seq<ContourPoint>)
    requires ValidGrid(g)
  {
    && (forall m | 0 <= m < |P| :: CrossedEdge(g, z, P[m]))
    && (forall m, k | 0 <= m < |P| && 0 <= k < |P| && m != k :: !SameEdge(P[m], P[k]))
  }

  lemma ListedAreCrossed(g: Grid, z: real, P: seq<ContourPoint>)
    requires ValidGrid(g) && Lists(g, z, P, g.ny, 0, 0)
    ensures AllCrossed(g, z, P)
  {
    hide CrossedEdge, Complete, Interpolates;
    forall m | 0 <= m < |P| ensures CrossedEdge(g, z, P[m]) {
      assert IsCrossing(g, z, P[m]);
    }
    forall m, k | 0 <= m < |P| && 0 <= k < |P| && m != k ensures !SameEdge(P[m], P[k]) {
      if m < k {
        assert EdgeLess(P[m], P[k].yi, P[k].xj, P[k].xy);
      } else {
        assert EdgeLess(P[k], P[m].yi, P[m].xj, P[m].xy);
      }
    }
  }

  /** The cells that the edge bounds. */
  predicate FirstCell(p: ContourPoint, a: int, b: int) {
    a == p.xj && b == p.yi
  }

  predicate SecondCell(p: ContourPoint, a: int, b: int) {
    if p.xy == 0 then a == p.xj && b == p.yi - 1 else a == p.xj - 1 && b == p.yi
  }

  lemma SharedCell(g: Grid, P: seq<ContourPoint>, z: real, c: nat, m: nat) returns (a: int, b: int)
    requires ValidGrid(g) && AllCrossed(g, z, P) && Neighbours(P, c, m)
    ensures InGrid(g, a, b) && OnCell(P[c], a, b) && OnCell(P[m], a, b) && m != c
    ensures FirstCell(P[c], a, b) || SecondCell(P[c], a, b)
  {
    hide Between, Adjoins, EdgeValues;
    assert CrossedEdge(g, z, P[c]) && CrossedEdge(g, z, P[m]);
    AdjoinsIffShareCell(g, P[c], P[m]);
    a, b :| 0 <= a < g.nx - 1 && 0 <= b < g.ny - 1 && OnCell(P[c], a, b) && OnCell(P[m], a, b);
  }

  /** A cell that has an edge and two neighbours of it has four crossings. */
  lemma TwoInOneCell(g: Grid, P: seq<ContourPoint>, z: real, a: int, b: int, c: nat, i: nat, j: nat)
    requires ValidGrid(g) && AllCrossed(g, z, P) && InGrid(g, a, b) && c < |P| && i < |P| && j < |P|
    requires OnCell(P[c], a, b) && OnCell(P[i], a, b) && OnCell(P[j], a, b) && c != i && c != j && i != j
    ensures !NoSaddle(g, z)
  {
    hide CrossedEdge, CellEdge, OnCell;
    var kc := CrossedAt(g, P, z, a, b, c);
    var ki := CrossedAt(g, P, z, a, b, i);
    var kj := CrossedAt(g, P, z, a, b, j);
    assert !SameEdge(P[c], P[i]) && !SameEdge(P[c], P[j]) && !SameEdge(P[i], P[j]);
    ThreeAreFour(g, z, a, b, kc, ki, kj);
  }

  lemma CrossedAt(g: Grid, P: seq<ContourPoint>, z: real, a: int, b: int, c: nat) returns (k: nat)
    requires ValidGrid(g) && AllCrossed(g, z, P) && c < |P| && OnCell(P[c], a, b)
    ensures k < 4 && SameEdge(P[c], CellEdge(a, b, k)) && CrossedEdge(g, z, CellEdge(a, b, k))
  {
    hide Between, EdgeValues;
    assert CrossedEdge(g, z, P[c]);
    k := CellEdgeOf(g, P[c], a, b);
    SameCrossed(g, z, P[c], CellEdge(a, b, k));
  }

  lemma TwoAtMost(g: Grid, z: real, P: seq<ContourPoint>)
    requires ValidGrid(g) && AllCrossed(g, z, P) && NoSaddle(g, z)
    ensures AtMostTwo(P)
  {
    hide AllCrossed, NoSaddle, Neighbours, OnCell;
    forall c: nat, i: nat, j: nat, k: nat | Neighbours(P, c, i) && Neighbours(P, c, j) && Neighbours(P, c, k)
      ensures i == j || i == k || j == k
    {
      InRange(P, c, i);
      InRange(P, c, j);
      InRange(P, c, k);
      var a, b := SharedCell(g, P, z, c, i);
      var a', b' := SharedCell(g, P, z, c, j);
      var a'', b'' := SharedCell(g, P, z, c, k);
      if i != j && i != k && j != k {
        if (a, b) == (a', b') {
          TwoInOneCell(g, P, z, a, b, c, i, j);
        } else if (a, b) == (a'', b'') {
          TwoInOneCell(g, P, z, a, b, c, i, k);
        } else {
          TwoInOneCell(g, P, z, a', b', c, j, k);
        }
      }
    }
  }

  lemma InRange(P: seq<ContourPoint>, c: nat, m: nat)
    requires Neighbours(P, c, m)
    ensures c < |P| && m < |P|
  {
  }

  // ----- a trail of neighbours

  ghost predicate Trail(P: seq<ContourPoint>, q: seq<nat>) {
    && q != [] && Distinct(q) && (forall x | x in q :: x < |P|)
    && forall i | 0 <= i < |q| - 1 :: Neighbours(P, q[i], q[i + 1])
  }

  /** The last point of the trail has no neighbours elsewhere. */
  ghost predicate Ends(P: seq<ContourPoint>, q: seq<nat>)
    requires q != []
  {
    forall m: nat | Neighbours(P, q[|q| - 1], m) :: m in q
  }

  lemma {:induction false} DistinctFits(q: seq<nat>, n: nat)
    requires Distinct(q) && forall x | x in q :: x < n
    ensures |q| <= n
  {
    if q != [] {
      assert q[0] in q;
      if i :| 0 <= i < |q| && q[i] == n - 1 {
        var r := q[..i] + q[i + 1..];
        forall x | x in r ensures x < n - 1 {
          var j :| 0 <= j < |r| && r[j] == x;
          var k := if j < i then j else j + 1;
          assert r[j] == q[k] && q[k] in q && q[k] != q[i];
        }
        DistinctFits(r, n - 1);
      } else {
        DistinctFits(q, n - 1);
      }
    }
  }

  lemma {:induction false} Extended(P: seq<ContourPoint>, q: seq<nat>) returns (r: seq<nat>)
    requires Trail(P, q)
    ensures Trail(P, r) && Ends(P, r) && q <= r
    decreases |P| - |q|
  {
    hide Neighbours;
    if m: nat :| Neighbours(P, q[|q| - 1], m) && m !in q {
      InRange(P, q[|q| - 1], m);
      assert Trail(P, q + [m]);
      DistinctFits(q + [m], |P|);
      r := Extended(P, q + [m]);
      assert q <= q + [m];
    } else {
      r := q;
    }
  }

  lemma NeighboursCommute(P: seq<ContourPoint>, c: nat, m: nat)
    ensures Neighbours(P, c, m) ==> Neighbours(P, m, c) && m != c
  {
    if Neighbours(P, c, m) {
      AdjoinsCommutes(P[c], P[m]);
    }
  }

  lemma ReversedTrail(P: seq<ContourPoint>, q: seq<nat>)
    requires Trail(P, q)
    ensures Trail(P, Reversed(q)) && forall x :: x in Reversed(q) <==> x in q
  {
    hide Neighbours;
    var r, n := Reversed(q), |q|;
    assert r[n - 1] == q[0];
    forall x ensures x in r <==> x in q {
      if x in r {
        var i :| 0 <= i < n && r[i] == x;
      }
      if x in q {
        var i :| 0 <= i < n && q[i] == x;
        assert r[n - 1 - i] == x;
      }
    }
    forall i | 0 <= i < n - 1 ensures Neighbours(P, r[i], r[i + 1]) {
      NeighboursCommute(P, q[n - 2 - i], q[n - 1 - i]);
    }
  }

  /** A trail with this point that cannot be extended at either end. */
  lemma LongestTrail(P: seq<ContourPoint>, c: nat) returns (q: seq<nat>)
    requires c < |P|
    ensures Trail(P, q) && c in q && Ends(P, q) && Ends(P, Reversed(q))
  {
    hide Neighbours;
    var back := Extended(P, [c]);
    ReversedTrail(P, back);
    q := Extended(P, Reversed(back));
    assert back[0] == c;
    assert c in Reversed(back);
    assert forall k | 0 <= k < |Reversed(back)| :: q[k] == Reversed(back)[k];
    ReversedTrail(P, q);
    assert Reversed(q)[|q| - 1] == q[0] == Reversed(back)[0] == back[|back| - 1];
    forall m: nat | Neighbours(P, Reversed(q)[|q| - 1], m) ensures m in Reversed(q) {
      assert m in back && m in Reversed(back) && m in q;
    }
  }

  /** Inside of the trail there are no other neighbours. */
  lemma InnerNeighbours(P: seq<ContourPoint>, q: seq<nat>, i: nat, m: nat)
    requires AtMostTwo(P) && Trail(P, q) && 0 < i < |q| - 1
    ensures Neighbours(P, q[i], m) <==> m == q[i - 1] || m == q[i + 1]
  {
    hide Neighbours;
    NeighboursCommute(P, q[i - 1], q[i]);
    assert Neighbours(P, q[i], q[i - 1]) && Neighbours(P, q[i], q[i + 1]);
  }

  /** The end of a trail has no neighbours but the point before and, perhaps, the other end. */
  lemma EndNeighbours(P: seq<ContourPoint>, q: seq<nat>, m: nat)
    requires AtMostTwo(P) && Trail(P, q) && Ends(P, q) && |q| >= 2
    ensures Neighbours(P, q[|q| - 1], q[|q| - 2])
    ensures Neighbours(P, q[|q| - 1], m) ==> m == q[|q| - 2] || m == q[0]
  {
    hide Neighbours;
    var n := |q|;
    NeighboursCommute(P, q[n - 2], q[n - 1]);
    if Neighbours(P, q[n - 1], m) {
      NeighboursCommute(P, q[n - 1], m);
      assert m in q;
      var j :| 0 <= j < n && q[j] == m;
      if 0 < j < n - 1 {
        InnerNeighbours(P, q, j, q[n - 1]);
      }
    }
  }

  /** The ends of a longest trail are neighbours of nothing else. */
  lemma BothEnds(P: seq<ContourPoint>, q: seq<nat>, m: nat)
    requires AtMostTwo(P) && Trail(P, q) && Ends(P, q) && Ends(P, Reversed(q)) && |q| >= 2
    ensures Neighbours(P, q[|q| - 1], q[|q| - 2]) && Neighbours(P, q[0], q[1])
    ensures Neighbours(P, q[|q| - 1], m) ==> m == q[|q| - 2] || m == q[0]
    ensures Neighbours(P, q[0], m) ==> m == q[1] || m == q[|q| - 1]
  {
    hide Neighbours, AtMostTwo, Ends;
    EndNeighbours(P, q, m);
    ReversedTrail(P, q);
    EndNeighbours(P, Reversed(q), m);
  }

  lemma LongestIsCycle(P: seq<ContourPoint>, q: seq<nat>)
    requires AtMostTwo(P) && Trail(P, q) && Ends(P, q) && Ends(P, Reversed(q)) && |q| >= 3
    requires Neighbours(P, q[|q| - 1], q[0])
    ensures IsCycle(P, q)
  {
    hide AtMostTwo, Ends, Adjoins;
    var n := |q|;
    NeighboursCommute(P, q[n - 1], q[0]);
    forall i: nat | i < n ensures CycleNeighbours(P, q, i) {
      assert q[i] in q;
      forall m: nat | m < |P| ensures Adjoins(P[q[i]], P[m]) <==> m == q[Next(i, n)] || m == q[Prev(i, n)] {
        BothEnds(P, q, m);
        if 0 < i < n - 1 {
          InnerNeighbours(P, q, i, m);
        }
      }
    }
  }

  lemma LongestIsPath(P: seq<ContourPoint>, q: seq<nat>)
    requires AtMostTwo(P) && Trail(P, q) && Ends(P, q) && Ends(P, Reversed(q))
    requires |q| <= 2 || !Neighbours(P, q[|q| - 1], q[0])
    ensures IsPath(P, q)
  {
    hide AtMostTwo, Ends, Adjoins;
    var n := |q|;
    forall i: nat | i < n ensures PathNeighbours(P, q, i) {
      assert q[i] in q;
      forall m: nat | m < |P| ensures Adjoins(P[q[i]], P[m]) <==> PathNext(q, i, m) {
        if n == 1 {
          AloneInTrail(P, q, m);
        } else {
          BothEnds(P, q, m);
          NeighboursCommute(P, q[0], m);
          if 0 < i < n - 1 {
            InnerNeighbours(P, q, i, m);
          }
        }
      }
    }
  }

  lemma AloneInTrail(P: seq<ContourPoint>, q: seq<nat>, m: nat)
    requires Trail(P, q) && Ends(P, q) && |q| == 1
    ensures !Neighbours(P, q[0], m)
  {
    hide Neighbours;
    NeighboursCommute(P, q[0], m);
    assert Neighbours(P, q[|q| - 1], m) ==> m in q;
  }

  // ----- the contours

  ghost predicate IsCurve(P: seq<ContourPoint>, q: seq<nat>) {
    IsCycle(P, q) || IsPath(P, q)
  }

  ghost predicate OnSomeCurve(P: seq<ContourPoint>, c: nat) {
    exists q :: c in q && IsCurve(P, q)
  }

  /** Every crossing is on a closed or an open curve. */
  ghost predicate AllOnCurves(P: seq<ContourPoint>) {
    forall c: nat | c < |P| :: OnSomeCurve(P, c)
  }

  lemma OnCurve(P: seq<ContourPoint>, c: nat) returns (q: seq<nat>)
    requires AtMostTwo(P) && c < |P|
    ensures c in q && IsCurve(P, q)
  {
    hide AtMostTwo, Trail, Ends, Neighbours, IsCycle, IsPath;
    q := LongestTrail(P, c);
    if |q| >= 3 && Neighbours(P, q[|q| - 1], q[0]) {
      LongestIsCycle(P, q);
    } else {
      LongestIsPath(P, q);
    }
  }

  lemma CellEdgesAdjoin(a: int, b: int, p: ContourPoint, q: ContourPoint, i: nat, j: nat)
    requires i < 4 && j < 4 && i != j && SameEdge(p, CellEdge(a, b, i)) && SameEdge(q, CellEdge(a, b, j))
    ensures Adjoins(p, q) && !SameEdge(p, q)
  {
  }

  lemma CurveNeighbours(P: seq<ContourPoint>, q: seq<nat>, c: nat, i: nat, j: nat, k: nat)
    requires IsCurve(P, q) && c in q && Neighbours(P, c, i) && Neighbours(P, c, j) && Neighbours(P, c, k)
    ensures i == j || i == k || j == k
  {
    hide Adjoins;
    var n: nat :| n < |q| && q[n] == c;
    if IsCycle(P, q) {
      assert CycleNeighbours(P, q, n);
    } else {
      assert PathNeighbours(P, q, n);
    }
  }

  lemma CellCrossing(g: Grid, z: real, P: seq<ContourPoint>, a: int, b: int, k: nat) returns (m: nat)
    requires ValidGrid(g) && Lists(g, z, P, g.ny, 0, 0) && InGrid(g, a, b) && FourCrossings(g, z, a, b) && k < 4
    ensures m < |P| && SameEdge(P[m], CellEdge(a, b, k))
  {
    hide Between, EdgeValues, AllCrossings, InOrder;
    var e := CellEdge(a, b, k);
    assert CrossedEdge(g, z, e) && EdgeLess(e, g.ny, 0, 0);
    assert Listed(P, e);
    m :| 0 <= m < |P| && IsEdge(P[m], e.yi, e.xj, e.xy);
  }

  /** A crossing of such a cell has three neighbours. */
  lemma SaddleBranches(g: Grid, z: real, P: seq<ContourPoint>, a: int, b: int)
    requires ValidGrid(g) && Lists(g, z, P, g.ny, 0, 0) && InGrid(g, a, b) && FourCrossings(g, z, a, b)
    ensures !AllOnCurves(P)
  {
    hide Lists, FourCrossings, Adjoins, CellEdge, SameEdge, IsCurve;
    var c := CellCrossing(g, z, P, a, b, 0);
    var i := CellCrossing(g, z, P, a, b, 1);
    var j := CellCrossing(g, z, P, a, b, 2);
    var k := CellCrossing(g, z, P, a, b, 3);
    CellEdgesAdjoin(a, b, P[c], P[i], 0, 1);
    CellEdgesAdjoin(a, b, P[c], P[j], 0, 2);
    CellEdgesAdjoin(a, b, P[c], P[k], 0, 3);
    CellEdgesAdjoin(a, b, P[i], P[j], 1, 2);
    CellEdgesAdjoin(a, b, P[i], P[k], 1, 3);
    CellEdgesAdjoin(a, b, P[j], P[k], 2, 3);
    Unlike(P, i, j);
    Unlike(P, i, k);
    Unlike(P, j, k);
    if OnSomeCurve(P, c) {
      var q :| c in q && IsCurve(P, q);
      CurveNeighbours(P, q, c, i, j, k);
    }
  }

  lemma Unlike(P: seq<ContourPoint>, i: nat, j: nat)
    requires i < |P| && j < |P| && !SameEdge(P[i], P[j])
    ensures i != j
  {
  }

  /** The crossings of a level are all on closed and open curves if and only if no cell has four of them. */
  lemma AllOnCurvesIff(g: Grid, z: real, P: seq<ContourPoint>)
    requires ValidGrid(g) && Lists(g, z, P, g.ny, 0, 0)
    ensures AllOnCurves(P) <==> NoSaddle(g, z)
  {
    hide Lists, FourCrossings, AtMostTwo, IsCurve, AllCrossed;
    ListedAreCrossed(g, z, P);
    if NoSaddle(g, z) {
      TwoAtMost(g, z, P);
      forall c: nat | c < |P| ensures OnSomeCurve(P, c) {
        var q := OnCurve(P, c);
      }
    } else {
      var a, b :| InGrid(g, a, b) && FourCrossings(g, z, a, b);
      SaddleBranches(g, z, P, a, b);
    }
  }

  ghost predicate ClosedLine(lines: seq<seq<nat>>, q: seq<nat>, l: nat) {
    l < |lines| && |lines[l]| == |q| + 1 && lines[l][0] == lines[l][|q|] && multiset(lines[l][..|q|]) == multiset(q)
  }

  /** What becomes of every contour of a level without such cells: a closed one is one closed polyline; an open one is
      drawn without a gap if and only if its first crossing in scan order is the first or second of the contour. */
  lemma EveryContour(g: Grid, z: real, P: seq<ContourPoint>, lines: seq<seq<nat>>, starts: seq<nat>, c: nat)
    returns (q: seq<nat>, closed: bool, i: nat)
    requires ValidGrid(g) && Lists(g, z, P, g.ny, 0, 0) && NoSaddle(g, z) && IsTracing(P, lines, starts) && c < |P|
    ensures c in q && Component(P, q)
    ensures closed ==> IsCycle(P, q) && exists l: nat :: ClosedLine(lines, q, l)
    ensures !closed ==> IsPath(P, q) && StartsAt(q, i) && (WhollyDrawn(lines, q) <==> i <= 1)
  {
    hide Lists, NoSaddle, IsTracing, AllCrossed, AtMostTwo, IsCycle, IsPath, Component, WhollyDrawn, StartsAt;
    ListedAreCrossed(g, z, P);
    TwoAtMost(g, z, P);
    q := OnCurve(P, c);
    i := 0;
    closed := IsCycle(P, q);
    if closed {
      CycleIsComponent(P, q);
      var l, r := ClosedContour(P, q, lines, starts);
      CycleSize(P, r);
      LapIsClosed(lines, q, l, r);
    } else {
      ReversedMember(q, c);
      q, i := Direction(P, q);
      PathIsComponent(P, q);
      OpenContourIff(P, q, i, lines, starts);
    }
  }

  lemma ReversedMember(q: seq<nat>, c: nat)
    requires c in q
    ensures c in Reversed(q)
  {
    var i :| 0 <= i < |q| && q[i] == c;
    assert Reversed(q)[|q| - 1 - i] == c;
  }

  lemma LapIsClosed(lines: seq<seq<nat>>, q: seq<nat>, l: nat, r: seq<nat>)
    requires l < |lines| && r != [] && lines[l] == r + [r[0]] && multiset(r) == multiset(q)
    ensures ClosedLine(lines, q, l)
  {
    assert |multiset(r)| == |r| && |multiset(q)| == |q|;
    assert (r + [r[0]])[..|r|] == r;
  }
}
