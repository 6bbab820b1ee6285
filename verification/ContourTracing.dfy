/** Contour lines of a grid (lib/bayesopt/matplotpp/matplotpp.cc): finding the crossings of a level with the grid
    edges, joining them to polylines with a small state machine, and splitting the flat result again. */
module ContourTracing {
  import opened RealVectors

  /** A crossing: edge (xj, yi) is horizontal from (xj, yi) to (xj + 1, yi) if xy is 0, and vertical from there
      to (xj, yi + 1) if xy is 1. The mark `done` is 0 before the point is used, 2 for a starting point, and
      1 otherwise. */
  datatype ContourPoint = ContourPoint(x: real, y: real, xj: int, yi: int, xy: int, done: int)

  /** The grid: value Z[i][j] at x[j], y[i]. */
  datatype Grid = Grid(x: Vec, y: Vec, Z: Mat, nx: nat, ny: nat)

  ghost predicate ValidGrid(g: Grid) {
    && 0 < g.ny == |g.Z| && g.nx <= |g.x| && g.ny <= |g.y|
    && forall i | 0 <= i < g.ny :: |g.Z[i]| == g.nx
  }

  // ----- cells

  /** The edge of p bounds the cell with lower corner (a, b). */
  predicate OnCell(p: ContourPoint, a: int, b: int) {
    if p.xy == 0 then p.xj == a && (p.yi == b || p.yi == b + 1)
    else p.yi == b && (p.xj == a || p.xj == a + 1)
  }

  /** Both edges bound one cell of the grid. */
  ghost predicate ShareCell(g: Grid, p: ContourPoint, q: ContourPoint) {
    exists a, b | 0 <= a < g.nx - 1 && 0 <= b < g.ny - 1 :: OnCell(p, a, b) && OnCell(q, a, b)
  }

  predicate ValidEdge(g: Grid, p: ContourPoint) {
    && 0 <= p.xj < g.nx && 0 <= p.yi < g.ny && (p.xy == 0 || p.xy == 1)
    && (p.xy == 0 ==> p.xj < g.nx - 1) && (p.xy == 1 ==> p.yi < g.ny - 1)
  }

  /** The twelve cases in which the search accepts p as the neighbour of c. */
  predicate Adjoins(c: ContourPoint, p: ContourPoint) {
    || (c.xy == 0 && p.xy == 0 && p.xj == c.xj && p.yi == c.yi - 1)
    || (c.xy == 0 && p.xy == 0 && p.xj == c.xj && p.yi == c.yi + 1)
    || (c.xy == 0 && p.xy == 1 && p.xj == c.xj && p.yi == c.yi)
    || (c.xy == 0 && p.xy == 1 && p.xj == c.xj + 1 && p.yi == c.yi)
    || (c.xy == 0 && p.xy == 1 && p.xj == c.xj && p.yi == c.yi - 1)
    || (c.xy == 0 && p.xy == 1 && p.xj == c.xj + 1 && p.yi == c.yi - 1)
    || (c.xy == 1 && p.xy == 1 && p.xj == c.xj + 1 && p.yi == c.yi)
    || (c.xy == 1 && p.xy == 1 && p.xj == c.xj - 1 && p.yi == c.yi)
    || (c.xy == 1 && p.xy == 0 && p.xj == c.xj && p.yi == c.yi)
    || (c.xy == 1 && p.xy == 0 && p.xj == c.xj && p.yi == c.yi + 1)
    || (c.xy == 1 && p.xy == 0 && p.xj == c.xj - 1 && p.yi == c.yi)
    || (c.xy == 1 && p.xy == 0 && p.xj == c.xj - 1 && p.yi == c.yi + 1)
  }

  /** The twelve cases are exactly the pairs of different edges of one cell. */
  lemma AdjoinsIffShareCell(g: Grid, c: ContourPoint, p: ContourPoint)
    requires ValidEdge(g, c) && ValidEdge(g, p)
    ensures Adjoins(c, p) <==> ShareCell(g, c, p) && (c.xj, c.yi, c.xy) != (p.xj, p.yi, p.xy)
  {
    if Adjoins(c, p) {
      var a := if c.xj <= p.xj then c.xj else p.xj;
      var b := if c.yi <= p.yi then c.yi else p.yi;
      var a' := if c.xy == p.xy == 1 then a else if c.xy == 0 then c.xj else p.xj;
      var b' := if c.xy == p.xy == 0 then b else if c.xy == 1 then c.yi else p.yi;
      assert OnCell(c, a', b') && OnCell(p, a', b');
    }
  }

  // ----- crossings

  /** The level z lies strictly between the two values. */
  predicate Between(z: real, za: real, zb: real) {
    Times(zb - z, za - z) < 0.0
  }

  function CrossingAt(a0: real, a1: real, z: real, za: real, zb: real): real {
    a0 + Over(Times(a1 - a0, z - za), zb - za)
  }

  /** The values at the two ends of an edge. */
  function EdgeValues(g: Grid, p: ContourPoint): (real, real)
    requires 0 < g.ny == |g.Z| && (forall i | 0 <= i < g.ny :: |g.Z[i]| == g.nx) && ValidEdge(g, p)
  {
    if p.xy == 0 then (g.Z[p.yi][p.xj], g.Z[p.yi][p.xj + 1]) else (g.Z[p.yi][p.xj], g.Z[p.yi + 1][p.xj])
  }

  /** At parameter t of its edge the interpolated value is z, and p is there. */
  ghost predicate Interpolates(g: Grid, z: real, p: ContourPoint, t: real)
    requires ValidGrid(g) && ValidEdge(g, p)
  {
    var (za, zb) := EdgeValues(g, p);
    && 0.0 < t < 1.0 && za + Times(t, zb - za) == z
    && if p.xy == 0 then p.x == g.x[p.xj] + Times(t, g.x[p.xj + 1] - g.x[p.xj]) && p.y == g.y[p.yi]
       else p.x == g.x[p.xj] && p.y == g.y[p.yi] + Times(t, g.y[p.yi + 1] - g.y[p.yi])
  }

  ghost predicate CrossedEdge(g: Grid, z: real, p: ContourPoint)
    requires ValidGrid(g)
  {
    ValidEdge(g, p) && Between(z, EdgeValues(g, p).0, EdgeValues(g, p).1)
  }

  /** The level crosses the edge of p, and p is where the linear interpolation of the values is z. */
  ghost predicate IsCrossing(g: Grid, z: real, p: ContourPoint)
    requires ValidGrid(g)
  {
    CrossedEdge(g, z, p) && exists t :: Interpolates(g, z, p, t)
  }

  lemma BetweenBounds(z: real, za: real, zb: real)
    ensures Between(z, za, zb) <==> za < z < zb || zb < z < za
  {
    hide Times;
    TimesUnits(za - z);
    TimesUnits(zb - z);
    if za < z && zb < z {
      TimesPositive(z - zb, z - za);
      TimesNegated(z - zb, z - za);
    } else if za > z && zb > z {
      TimesPositive(zb - z, za - z);
    } else if za < z < zb {
      TimesPositive(zb - z, z - za);
      TimesNegated1(zb - z, z - za);
    } else if zb < z < za {
      TimesPositive(za - z, z - zb);
      TimesNegated1(za - z, z - zb);
      TimesCommutes(za - z, zb - z);
    }
  }

  lemma TimesNegated(a: real, b: real)
    ensures Times(-a, -b) == Times(a, b)
  {
  }

  lemma TimesNegated1(a: real, b: real)
    ensures Times(a, -b) == -Times(a, b)
  {
  }

  /** The computed point is the interpolated one. */
  lemma Interpolation(a0: real, a1: real, z: real, za: real, zb: real) returns (t: real)
    requires Between(z, za, zb)
    ensures 0.0 < t < 1.0 && za + Times(t, zb - za) == z
    ensures CrossingAt(a0, a1, z, za, zb) == a0 + Times(t, a1 - a0)
  {
    hide Times, Over, Between;
    BetweenBounds(z, za, zb);
    t := Over(z - za, zb - za);
    TimesQuotient(z - za, zb - za);
    QuotientBounds(z - za, zb - za);
    TimesQuotient(Times(a1 - a0, z - za), zb - za);
    TimesAssociates(a1 - a0, t, zb - za);
    TimesCancels(Over(Times(a1 - a0, z - za), zb - za), Times(a1 - a0, t), zb - za);
    TimesCommutes(a1 - a0, t);
  }

  lemma QuotientBounds(a: real, d: real)
    requires 0.0 < a < d || d < a < 0.0
    ensures 0.0 < Over(a, d) < 1.0
  {
    if d > 0.0 {
      PositiveQuotientBounds(a, d);
    } else {
      PositiveQuotientBounds(-a, -d);
      hide Times, Over;
      TimesQuotient(a, d);
      TimesQuotient(-a, -d);
      TimesNegated1(Over(-a, -d), d);
      TimesCancels(Over(a, d), Over(-a, -d), d);
    }
  }

  lemma PositiveQuotientBounds(a: real, d: real)
    requires 0.0 < a < d
    ensures 0.0 < Over(a, d) < 1.0
  {
    hide Times, Over;
    var q := Over(a, d);
    TimesQuotient(a, d);
    TimesUnits(d);
    if q < 0.0 {
      TimesPositive(-q, d);
      TimesNegates(q, d);
    } else if q > 1.0 {
      TimesPositive(d, q - 1.0);
      TimesAdds(d, q, 1.0);
    }
  }

  /** The order in which the edges are visited. */
  predicate EdgeLess(p: ContourPoint, i: int, j: int, xy: int) {
    p.yi < i || (p.yi == i && (p.xj < j || (p.xj == j && p.xy < xy)))
  }

  predicate IsEdge(p: ContourPoint, i: int, j: int, xy: int) {
    p.yi == i && p.xj == j && p.xy == xy
  }

  ghost predicate AllCrossings(g: Grid, z: real, vc: seq<ContourPoint>)
    requires ValidGrid(g)
  {
    forall m | 0 <= m < |vc| :: IsCrossing(g, z, vc[m]) && vc[m].done == 0
  }

  /** vc is in the order of visits, and all before the edge (i, j, xy). */
  ghost predicate InOrder(vc: seq<ContourPoint>, i: int, j: int, xy: int) {
    && (forall m | 0 <= m < |vc| :: EdgeLess(vc[m], i, j, xy))
    && (forall m, k | 0 <= m < k < |vc| :: EdgeLess(vc[m], vc[k].yi, vc[k].xj, vc[k].xy))
  }

  ghost predicate Listed(vc: seq<ContourPoint>, p: ContourPoint) {
    exists m :: 0 <= m < |vc| && IsEdge(vc[m], p.yi, p.xj, p.xy)
  }

  /** Every crossed edge before (i, j, xy) has its point in vc. */
  ghost predicate Complete(g: Grid, z: real, vc: seq<ContourPoint>, i: int, j: int, xy: int)
    requires ValidGrid(g)
  {
    forall p | CrossedEdge(g, z, p) && EdgeLess(p, i, j, xy) :: Listed(vc, p)
  }

  /** vc lists, in order, the crossings of all edges before (i, j, xy). */
  ghost predicate Lists(g: Grid, z: real, vc: seq<ContourPoint>, i: int, j: int, xy: int)
    requires ValidGrid(g)
  {
    AllCrossings(g, z, vc) && InOrder(vc, i, j, xy) && Complete(g, z, vc, i, j, xy)
  }

  /** An edge with a crossing is appended. */
  lemma ListStep(g: Grid, z: real, vc: seq<ContourPoint>, i: int, j: int, xy: int, p: ContourPoint)
    requires ValidGrid(g) && Lists(g, z, vc, i, j, xy)
    requires IsEdge(p, i, j, xy) && p.done == 0 && CrossedEdge(g, z, p)
    requires xy == 0 ==>
      p.x == CrossingAt(g.x[j], g.x[j + 1], z, EdgeValues(g, p).0, EdgeValues(g, p).1) && p.y == g.y[i]
    requires xy == 1 ==>
      p.x == g.x[j] && p.y == CrossingAt(g.y[i], g.y[i + 1], z, EdgeValues(g, p).0, EdgeValues(g, p).1)
    ensures Lists(g, z, vc + [p], i, j, xy + 1)
  {
    hide Between, CrossingAt, Times;
    var (za, zb) := EdgeValues(g, p);
    if xy == 0 {
      var t := Interpolation(g.x[j], g.x[j + 1], z, za, zb);
      assert Interpolates(g, z, p, t);
    } else {
      var t := Interpolation(g.y[i], g.y[i + 1], z, za, zb);
      assert Interpolates(g, z, p, t);
    }
    hide Interpolates, EdgeValues;
    forall e | CrossedEdge(g, z, e) && EdgeLess(e, i, j, xy + 1) ensures Listed(vc + [p], e) {
      if EdgeLess(e, i, j, xy) {
        assert Listed(vc, e);
        var m :| 0 <= m < |vc| && IsEdge(vc[m], e.yi, e.xj, e.xy);
        assert (vc + [p])[m] == vc[m];
      } else {
        assert (vc + [p])[|vc|] == p && IsEdge(p, e.yi, e.xj, e.xy);
      }
    }
  }

  /** An edge without one, or a place where the grid has no edge, is passed over. */
  lemma ListSkip(g: Grid, z: real, vc: seq<ContourPoint>, i: int, j: int, xy: int)
    requires ValidGrid(g) && Lists(g, z, vc, i, j, xy)
    requires forall p | IsEdge(p, i, j, xy) :: !CrossedEdge(g, z, p)
    ensures Lists(g, z, vc, i, j, xy + 1)
  {
    hide CrossedEdge, Listed, AllCrossings;
    forall e | CrossedEdge(g, z, e) && EdgeLess(e, i, j, xy + 1) ensures Listed(vc, e) {
      assert !IsEdge(e, i, j, xy);
    }
  }

  /** After both edges of a grid point comes the next grid point, and after the last of a row the next row. */
  lemma ListNext(g: Grid, z: real, vc: seq<ContourPoint>, i: int, j: int)
    requires ValidGrid(g)
    ensures Lists(g, z, vc, i, j, 2) ==> Lists(g, z, vc, i, j + 1, 0)
    ensures Lists(g, z, vc, i, g.nx, 0) ==> Lists(g, z, vc, i + 1, 0, 0)
  {
    hide Between, EdgeValues, Listed, AllCrossings;
    if Lists(g, z, vc, i, j, 2) {
      forall e | CrossedEdge(g, z, e) && EdgeLess(e, i, j + 1, 0) ensures Listed(vc, e) {
        assert EdgeLess(e, i, j, 2);
      }
    }
    if Lists(g, z, vc, i, g.nx, 0) {
      forall e | CrossedEdge(g, z, e) && EdgeLess(e, i + 1, 0, 0) ensures Listed(vc, e) {
        assert EdgeLess(e, i, g.nx, 0);
      }
    }
  }

  /** The scan of the grid: the crossings of the level z, each edge once, row by row. */
  method FindCrossings(g: Grid, z: real) returns (vc: seq<ContourPoint>)
    requires ValidGrid(g)
    ensures Lists(g, z, vc, g.ny, 0, 0)
  {
    hide Times, Over, Lists, CrossingAt;
    vc := [];
    assert Lists(g, z, vc, 0, 0, 0) by { NothingListed(g, z); }
    for i := 0 to g.ny
      invariant Lists(g, z, vc, i, 0, 0)
    {
      for j := 0 to g.nx
        invariant Lists(g, z, vc, i, j, 0)
      {
        vc := ScanPoint(g, z, vc, i, j);
        ListNext(g, z, vc, i, j);
      }
      ListNext(g, z, vc, i, 0);
    }
  }

  lemma NothingListed(g: Grid, z: real)
    requires ValidGrid(g)
    ensures Lists(g, z, [], 0, 0, 0)
  {
  }

  /** The two edges that start at grid point (i, j). */
  method ScanPoint(g: Grid, z: real, vc0: seq<ContourPoint>, i: nat, j: nat) returns (vc: seq<ContourPoint>)
    requires ValidGrid(g) && i < g.ny && j < g.nx && Lists(g, z, vc0, i, j, 0)
    ensures Lists(g, z, vc, i, j, 2)
  {
    hide Times, Over, Lists, CrossingAt, Between;
    vc := vc0;
    if j < g.nx - 1 && Between(z, g.Z[i][j], g.Z[i][j + 1]) {
      var c := ContourPoint(CrossingAt(g.x[j], g.x[j + 1], z, g.Z[i][j], g.Z[i][j + 1]), g.y[i], j, i, 0, 0);
      ListStep(g, z, vc, i, j, 0, c);
      vc := vc + [c];
    } else {
      ListSkip(g, z, vc, i, j, 0);
    }
    if i < g.ny - 1 && Between(z, g.Z[i][j], g.Z[i + 1][j]) {
      var c := ContourPoint(g.x[j], CrossingAt(g.y[i], g.y[i + 1], z, g.Z[i][j], g.Z[i + 1][j]), j, i, 1, 0);
      ListStep(g, z, vc, i, j, 1, c);
      vc := vc + [c];
    } else {
      ListSkip(g, z, vc, i, j, 1);
    }
  }
}
