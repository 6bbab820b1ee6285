/** Contour lines over all levels (contourc in lib/bayesopt/matplotpp/matplotpp.cc), and the loop of
    display_contour that takes the flat result apart again. */
module ContourDisplay {
  import opened ContourTracing
  import opened ContourLines

  type Polyline = seq<(real, real)>

  /** The crossings of one level, and the polylines as lists of indices into them, and where they started. */
  datatype LevelTrace = LevelTrace(points: seq<ContourPoint>, lines: seq<seq<nat>>, starts: seq<nat>)

  /** What contourc promises for one level z: all crossings are found; the consecutive points of a polyline are on
      different edges of one grid cell; and the polylines are what the tracing of these crossings gives. */
  ghost predicate Traces(g: Grid, z: real, t: LevelTrace)
    requires ValidGrid(g)
  {
    Lists(g, z, t.points, g.ny, 0, 0) && AllConnected(t.points, t.lines) && IsTracing(t.points, t.lines, t.starts)
  }

  ghost predicate AllTraced(g: Grid, v: seq<real>, ts: seq<LevelTrace>)
    requires ValidGrid(g)
  {
    |ts| == |v| && forall i | 0 <= i < |v| :: Traces(g, v[i], ts[i])
  }

  ghost predicate Encodable(ts: seq<LevelTrace>) {
    forall i | 0 <= i < |ts| :: AllConnected(ts[i].points, ts[i].lines)
  }

  ghost function EncodeLevels(v: seq<real>, ts: seq<LevelTrace>): Flat
    requires |v| == |ts| && Encodable(ts)
  {
    if ts == [] then []
    else var n := |ts| - 1;
      EncodeLevels(v[..n], ts[..n]) + EncodeLines(v[n], ts[n].points, ts[n].lines)
  }

  /** Neighbours in a polyline share a grid cell. */
  lemma NeighboursShareCell(g: Grid, z: real, t: LevelTrace, l: nat, k: nat)
    requires ValidGrid(g) && Traces(g, z, t) && l < |t.lines| && k + 1 < |t.lines[l]|
    ensures t.lines[l][k] < |t.points| && t.lines[l][k + 1] < |t.points|
    ensures IsCrossing(g, z, t.points[t.lines[l][k]]) && IsCrossing(g, z, t.points[t.lines[l][k + 1]])
    ensures ShareCell(g, t.points[t.lines[l][k]], t.points[t.lines[l][k + 1]])
    ensures t.lines[l][k] != t.lines[l][k + 1]
  {
    hide Adjoins, ShareCell, Interpolates, IsTracing;
    assert Connected(t.points, t.lines[l]);
    var p, q := t.points[t.lines[l][k]], t.points[t.lines[l][k + 1]];
    assert Near(p, q);
    AdjoinsIffShareCell(g, p, q);
    AdjoinsIffShareCell(g, q, p);
    ShareCellCommutes(g, p, q);
  }

  lemma ShareCellCommutes(g: Grid, p: ContourPoint, q: ContourPoint)
    ensures ShareCell(g, p, q) <==> ShareCell(g, q, p)
  {
    hide OnCell;
  }

  // ----- where a polyline is in the flat sequence

  /** The columns of the first l polylines: a header and the points of each. */
  function Columns(lines: seq<seq<nat>>, l: nat): nat
    requires l <= |lines|
  {
    if l == 0 then 0 else Columns(lines, l - 1) + 1 + |lines[l - 1]|
  }

  /** The columns of the first i levels. */
  function ColumnsBefore(ts: seq<LevelTrace>, i: nat): nat
    requires i <= |ts|
  {
    if i == 0 then 0 else ColumnsBefore(ts, i - 1) + Columns(ts[i - 1].lines, |ts[i - 1].lines|)
  }

  /** From column pos on, C has a header with the level and the number of points, and then the coordinates of the
      points of the line. */
  ghost predicate HasLine(C: Flat, pos: nat, z: real, P: seq<ContourPoint>, line: seq<nat>) {
    && pos + |line| < |C| && C[pos] == (z, |line| as real)
    && forall k | 0 <= k < |line| :: line[k] < |P| && C[pos + 1 + k] == (P[line[k]].x, P[line[k]].y)
  }

  ghost predicate HasAllLines(C: Flat, v: seq<real>, ts: seq<LevelTrace>) {
    && |ts| == |v| && |C| == ColumnsBefore(ts, |ts|)
    && forall i, l | 0 <= i < |ts| && 0 <= l < |ts[i].lines| ::
         HasLine(C, ColumnsBefore(ts, i) + Columns(ts[i].lines, l), v[i], ts[i].points, ts[i].lines[l])
  }

  lemma {:induction false} ColumnsOf(lines: seq<seq<nat>>, lines': seq<seq<nat>>, l: nat)
    requires l <= |lines| && l <= |lines'| && lines[..l] == lines'[..l]
    ensures Columns(lines, l) == Columns(lines', l)
  {
    if l > 0 {
      assert lines[l - 1] == lines[..l][l - 1] == lines'[l - 1];
      assert lines[..l - 1] == lines[..l][..l - 1] == lines'[..l - 1];
      ColumnsOf(lines, lines', l - 1);
    }
  }

  lemma HasLineJoin(C: Flat, D: Flat, pos: nat, z: real, P: seq<ContourPoint>, line: seq<nat>)
    ensures HasLine(C, pos, z, P, line) ==> HasLine(C + D, pos, z, P, line)
    ensures HasLine(D, pos, z, P, line) ==> HasLine(C + D, |C| + pos, z, P, line)
  {
  }

  lemma HasOneLine(z: real, P: seq<ContourPoint>, line: seq<nat>)
    requires forall k | 0 <= k < |line| :: line[k] < |P|
    ensures |EncodeLine(z, PointsOf(P, line))| == 1 + |line| && HasLine(EncodeLine(z, PointsOf(P, line)), 0, z, P, line)
  {
  }

  lemma {:induction false} LineEncoded(z: real, P: seq<ContourPoint>, lines: seq<seq<nat>>, l: nat)
    requires AllConnected(P, lines)
    ensures |EncodeLines(z, P, lines)| == Columns(lines, |lines|)
    ensures l < |lines| ==> HasLine(EncodeLines(z, P, lines), Columns(lines, l), z, P, lines[l])
  {
    hide Near, HasLine, EncodeLine;
    if lines != [] {
      var n := |lines| - 1;
      LineEncoded(z, P, lines[..n], l);
      ColumnsOf(lines, lines[..n], n);
      HasOneLine(z, P, lines[n]);
      if l < |lines| {
        if l < n {
          ColumnsOf(lines, lines[..n], l);
          assert lines[..n][l] == lines[l];
        }
        HasLineJoin(EncodeLines(z, P, lines[..n]), EncodeLine(z, PointsOf(P, lines[n])),
                    if l < n then Columns(lines, l) else 0, z, P, lines[l]);
      }
    }
  }

  lemma {:induction false} ColumnsBeforeOf(ts: seq<LevelTrace>, ts': seq<LevelTrace>, i: nat)
    requires i <= |ts| && i <= |ts'| && ts[..i] == ts'[..i]
    ensures ColumnsBefore(ts, i) == ColumnsBefore(ts', i)
  {
    if i > 0 {
      assert ts[i - 1] == ts[..i][i - 1] == ts'[i - 1];
      assert ts[..i - 1] == ts[..i][..i - 1] == ts'[..i - 1];
      ColumnsBeforeOf(ts, ts', i - 1);
    }
  }

  lemma {:induction false} LevelEncoded(v: seq<real>, ts: seq<LevelTrace>, i: nat, l: nat)
    requires |v| == |ts| && Encodable(ts)
    ensures |EncodeLevels(v, ts)| == ColumnsBefore(ts, |ts|)
    ensures i < |ts| && l < |ts[i].lines| ==>
      HasLine(EncodeLevels(v, ts), ColumnsBefore(ts, i) + Columns(ts[i].lines, l), v[i], ts[i].points, ts[i].lines[l])
  {
    hide AllConnected, EncodeLines, Columns, HasLine;
    if ts != [] {
      var n := |ts| - 1;
      LevelEncoded(v[..n], ts[..n], i, l);
      ColumnsBeforeOf(ts, ts[..n], n);
      LineEncoded(v[n], ts[n].points, ts[n].lines, l);
      if i < |ts| && l < |ts[i].lines| {
        if i < n {
          ColumnsBeforeOf(ts, ts[..n], i);
          assert ts[..n][i] == ts[i] && v[..n][i] == v[i];
        }
        var pos := (if i < n then ColumnsBefore(ts, i) else 0) + Columns(ts[i].lines, l);
        HasLineJoin(EncodeLevels(v[..n], ts[..n]), EncodeLines(v[n], ts[n].points, ts[n].lines), pos, v[i],
                    ts[i].points, ts[i].lines[l]);
      }
    }
  }

  lemma AllEncoded(v: seq<real>, ts: seq<LevelTrace>)
    requires |v| == |ts| && Encodable(ts)
    ensures HasAllLines(EncodeLevels(v, ts), v, ts)
  {
    hide HasLine, EncodeLevels, Columns, Encodable;
    LevelEncoded(v, ts, 0, 0);
    forall i, l | 0 <= i < |ts| && 0 <= l < |ts[i].lines|
      ensures HasLine(EncodeLevels(v, ts), ColumnsBefore(ts, i) + Columns(ts[i].lines, l), v[i], ts[i].points,
                ts[i].lines[l])
    {
      LevelEncoded(v, ts, i, l);
    }
  }

  method Contourc(g: Grid, v: seq<real>) returns (C: Flat, ghost ts: seq<LevelTrace>)
    requires ValidGrid(g)
    ensures AllTraced(g, v, ts) && HasAllLines(C, v, ts)
    ensures Encodable(ts) && C == EncodeLevels(v, ts)
  {
    hide Lists, AllConnected, IsTracing, EncodeLines, HasAllLines;
    C, ts := [], [];
    for iv := 0 to |v|
      invariant AllTraced(g, v[..iv], ts) && Encodable(ts) && C == EncodeLevels(v[..iv], ts)
    {
      var found := FindCrossings(g, v[iv]);
      assert forall m | 0 <= m < |found| :: found[m].done == 0 by { ListsUnmarked(g, v[iv], found); }
      var vc := new ContourPoint[|found|](k requires 0 <= k < |found| => found[k]);
      assert vc[..] == found;
      ghost var lines, starts;
      C, lines, starts := TraceLevel(v[iv], vc, C, found);
      ghost var t := LevelTrace(found, lines, starts);
      assert (ts + [t])[..iv] == ts && v[..iv + 1][..iv] == v[..iv];
      ts := ts + [t];
    }
    assert v[..|v|] == v;
    AllEncoded(v, ts);
  }

  lemma ListsUnmarked(g: Grid, z: real, vc: seq<ContourPoint>)
    requires ValidGrid(g) && Lists(g, z, vc, g.ny, 0, 0)
    ensures forall m | 0 <= m < |vc| :: vc[m].done == 0
  {
    hide IsCrossing, InOrder, Complete;
  }

  // ----- the display

  /** The conversion of a real to an integer drops the fraction. */
  function Trunc(r: real): (t: int)
    ensures r >= 0.0 ==> t as real <= r < t as real + 1.0
    ensures r <= 0.0 ==> t as real - 1.0 < r <= t as real
  {
    if r >= 0.0 then r.Floor else -((-r).Floor)
  }

  function Least(a: int, b: int): int {
    if a < b then a else b
  }

  /** The number of points that belong to the header C[0]. */
  function Taken(C: Flat): (n: nat)
    requires C != []
    ensures n < |C|
  {
    var n := Least(Trunc(C[0].1), |C| - 1);
    if n < 0 then 0 else n
  }

  function Placed(ps: Flat, tx: real -> real, ty: real -> real): Polyline {
    seq(|ps|, k requires 0 <= k < |ps| => (tx(ps[k].0), ty(ps[k].1)))
  }

  /** The line strips of a flat sequence: a header, its points, the next header. */
  function Strips(C: Flat, tx: real -> real, ty: real -> real): seq<Polyline> {
    if C == [] then [] else [Placed(C[1..1 + Taken(C)], tx, ty)] + Strips(C[1 + Taken(C)..], tx, ty)
  }

  /** The loop over the columns: k counts the points of the current strip, nk is their number. */
  method DrawStrips(C: Flat, tx: real -> real, ty: real -> real) returns (strips: seq<Polyline>)
    ensures strips == Strips(C, tx, ty)
  {
    hide Trunc, Strips, Open, Taken, Placed;
    strips := [];
    var k, nk := 0, 0;
    assert C[0..] == C && strips + Strips(C, tx, ty) == Strips(C, tx, ty);
    ghost var rest := |C|;
    for i := 0 to |C|
      invariant 0 <= k && (k == 0 || k <= nk)
      invariant k == 0 ==> strips + Strips(C[i..], tx, ty) == Strips(C, tx, ty)
      invariant k != 0 ==> strips != [] && rest == Least(i + nk + 1 - k, |C|) && i <= rest
      invariant k != 0 ==> Open(C, i, rest, tx, ty, strips) == Strips(C, tx, ty)
    {
      if k == 0 {
        nk := Trunc(C[i].1);
        strips := strips + [[]];
        rest := i + 1 + Taken(C[i..]);
        TakenAt(C, i);
        OpenStrip(C, i, tx, ty, strips[..|strips| - 1]);
        assert strips[..|strips| - 1] + [[]] == strips;
      } else {
        ExtendStrip(C, i, rest, tx, ty, strips);
        strips := strips[|strips| - 1 := strips[|strips| - 1] + [(tx(C[i].0), ty(C[i].1))]];
      }
      k := k + 1;
      if k > nk {
        k := 0;
        CloseStrip(C, i + 1, tx, ty, strips);
      }
    }
    if k != 0 {
      CloseStrip(C, |C|, tx, ty, strips);
    }
    assert Strips(C[|C|..], tx, ty) == [] by { NoStrips(C[|C|..], tx, ty); }
  }

  lemma NoStrips(C: Flat, tx: real -> real, ty: real -> real)
    requires C == []
    ensures Strips(C, tx, ty) == []
  {
  }

  lemma TakenAt(C: Flat, i: nat)
    requires i < |C|
    ensures var nk := Trunc(C[i].1); i + 1 + Taken(C[i..]) == if nk < 0 then i + 1 else Least(i + 1 + nk, |C|)
  {
  }

  /** The strips when the last of `strips` still takes the points up to `rest`. */
  ghost function Open(C: Flat, i: int, rest: int, tx: real -> real, ty: real -> real,
                      strips: seq<Polyline>): seq<Polyline>
    requires strips != [] && 0 <= i <= rest <= |C|
  {
    var last := |strips| - 1;
    strips[..last] + [strips[last] + Placed(C[i..rest], tx, ty)] + Strips(C[rest..], tx, ty)
  }

  lemma ExtendStrip(C: Flat, i: nat, rest: nat, tx: real -> real, ty: real -> real, strips: seq<Polyline>)
    requires strips != [] && i < rest <= |C|
    ensures var strips' := strips[|strips| - 1 := strips[|strips| - 1] + [(tx(C[i].0), ty(C[i].1))]];
      Open(C, i + 1, rest, tx, ty, strips') == Open(C, i, rest, tx, ty, strips)
  {
    var last, p := |strips| - 1, (tx(C[i].0), ty(C[i].1));
    assert Placed(C[i..rest], tx, ty) == [p] + Placed(C[i + 1..rest], tx, ty);
    assert (strips[last] + [p]) + Placed(C[i + 1..rest], tx, ty) == strips[last] + Placed(C[i..rest], tx, ty);
  }

  lemma CloseStrip(C: Flat, i: nat, tx: real -> real, ty: real -> real, strips: seq<Polyline>)
    requires strips != [] && i <= |C|
    ensures Open(C, i, i, tx, ty, strips) == strips + Strips(C[i..], tx, ty)
  {
    var last := |strips| - 1;
    assert strips[last] + Placed(C[i..i], tx, ty) == strips[last];
    assert strips[..last] + [strips[last]] == strips;
  }

  lemma OpenStrip(C: Flat, i: nat, tx: real -> real, ty: real -> real, before: seq<Polyline>)
    requires i < |C|
    ensures Open(C, i + 1, i + 1 + Taken(C[i..]), tx, ty, before + [[]]) == before + Strips(C[i..], tx, ty)
  {
    var n := Taken(C[i..]);
    assert C[i..][1..1 + n] == C[i + 1..i + 1 + n] && C[i..][1 + n..] == C[i + 1 + n..];
    assert (before + [[]])[..|before|] == before;
    assert [] + Placed(C[i + 1..i + 1 + n], tx, ty) == Placed(C[i + 1..i + 1 + n], tx, ty);
  }

  // ----- the round trip

  /** The places of the points of the polylines of one level. */
  ghost function Drawings(P: seq<ContourPoint>, lines: seq<seq<nat>>, tx: real -> real, ty: real -> real): seq<Polyline>
    requires AllConnected(P, lines)
  {
    seq(|lines|, l requires 0 <= l < |lines| => Placed(EncodePoints(PointsOf(P, lines[l])), tx, ty))
  }

  ghost function AllDrawings(ts: seq<LevelTrace>, tx: real -> real, ty: real -> real): seq<Polyline>
    requires Encodable(ts)
  {
    if ts == [] then []
    else var n := |ts| - 1; AllDrawings(ts[..n], tx, ty) + Drawings(ts[n].points, ts[n].lines, tx, ty)
  }

  /** C is a sequence of complete strips: taking strips apart distributes over what follows C. */
  ghost predicate Splits(C: Flat, strips: seq<Polyline>, tx: real -> real, ty: real -> real) {
    forall D: Flat :: Strips(C + D, tx, ty) == strips + Strips(D, tx, ty)
  }

  lemma SplitsJoin(A: Flat, a: seq<Polyline>, B: Flat, b: seq<Polyline>, tx: real -> real, ty: real -> real)
    requires Splits(A, a, tx, ty) && Splits(B, b, tx, ty)
    ensures Splits(A + B, a + b, tx, ty)
  {
    hide Strips;
    forall D: Flat ensures Strips((A + B) + D, tx, ty) == (a + b) + Strips(D, tx, ty) {
      assert (A + B) + D == A + (B + D);
      assert Strips(A + (B + D), tx, ty) == a + Strips(B + D, tx, ty);
      assert (a + b) + Strips(D, tx, ty) == a + (b + Strips(D, tx, ty));
    }
  }

  lemma LineSplits(z: real, ac: seq<ContourPoint>, tx: real -> real, ty: real -> real)
    ensures Splits(EncodeLine(z, ac), [Placed(EncodePoints(ac), tx, ty)], tx, ty)
  {
    forall D: Flat
      ensures Strips(EncodeLine(z, ac) + D, tx, ty) == [Placed(EncodePoints(ac), tx, ty)] + Strips(D, tx, ty)
    {
      var C := EncodeLine(z, ac) + D;
      assert C[0] == (z, |ac| as real) && Taken(C) == |ac|;
      assert C[1..1 + |ac|] == EncodePoints(ac) && C[1 + |ac|..] == D;
    }
  }

  lemma {:induction false} LinesSplit(z: real, P: seq<ContourPoint>, lines: seq<seq<nat>>, tx: real -> real,
                                      ty: real -> real)
    requires AllConnected(P, lines)
    ensures Splits(EncodeLines(z, P, lines), Drawings(P, lines, tx, ty), tx, ty)
  {
    hide Strips, Placed, Near, Splits, EncodePoints;
    if lines == [] {
      NothingSplits(tx, ty);
    } else {
      var n := |lines| - 1;
      LinesSplit(z, P, lines[..n], tx, ty);
      LineSplits(z, PointsOf(P, lines[n]), tx, ty);
      SplitsJoin(EncodeLines(z, P, lines[..n]), Drawings(P, lines[..n], tx, ty), EncodeLine(z, PointsOf(P, lines[n])),
                 [Placed(EncodePoints(PointsOf(P, lines[n])), tx, ty)], tx, ty);
      assert Drawings(P, lines, tx, ty)
          == Drawings(P, lines[..n], tx, ty) + [Placed(EncodePoints(PointsOf(P, lines[n])), tx, ty)];
    }
  }

  lemma NothingSplits(tx: real -> real, ty: real -> real)
    ensures Splits([], [], tx, ty)
  {
    forall D: Flat ensures Strips([] + D, tx, ty) == [] + Strips(D, tx, ty) {
      assert [] + D == D;
    }
  }

  lemma {:induction false} LevelsSplit(v: seq<real>, ts: seq<LevelTrace>, tx: real -> real, ty: real -> real)
    requires |v| == |ts| && Encodable(ts)
    ensures Splits(EncodeLevels(v, ts), AllDrawings(ts, tx, ty), tx, ty)
  {
    hide Strips, Splits, AllConnected, EncodeLines, Drawings;
    if ts == [] {
      NothingSplits(tx, ty);
    } else {
      var n := |ts| - 1;
      LevelsSplit(v[..n], ts[..n], tx, ty);
      LinesSplit(v[n], ts[n].points, ts[n].lines, tx, ty);
      SplitsJoin(EncodeLevels(v[..n], ts[..n]), AllDrawings(ts[..n], tx, ty),
                 EncodeLines(v[n], ts[n].points, ts[n].lines), Drawings(ts[n].points, ts[n].lines, tx, ty), tx, ty);
    }
  }

  // ----- the strips

  /** The polylines of the first i levels. */
  function LinesBefore(ts: seq<LevelTrace>, i: nat): nat
    requires i <= |ts|
  {
    if i == 0 then 0 else LinesBefore(ts, i - 1) + |ts[i - 1].lines|
  }

  /** Strip pos goes through the places of the crossings on the line, which are crossings of the level. */
  ghost predicate DrawsLine(strips: seq<Polyline>, pos: nat, g: Grid, z: real, P: seq<ContourPoint>, line: seq<nat>,
                            tx: real -> real, ty: real -> real)
    requires ValidGrid(g)
  {
    && pos < |strips| && |strips[pos]| == |line|
    && forall k | 0 <= k < |line| ::
         line[k] < |P| && IsCrossing(g, z, P[line[k]]) && strips[pos][k] == (tx(P[line[k]].x), ty(P[line[k]].y))
  }

  ghost predicate DrawsAllLines(strips: seq<Polyline>, g: Grid, v: seq<real>, ts: seq<LevelTrace>,
                                tx: real -> real, ty: real -> real)
    requires ValidGrid(g)
  {
    && |ts| == |v| && |strips| == LinesBefore(ts, |ts|)
    && forall i, l | 0 <= i < |ts| && 0 <= l < |ts[i].lines| ::
         DrawsLine(strips, LinesBefore(ts, i) + l, g, v[i], ts[i].points, ts[i].lines[l], tx, ty)
  }

  lemma {:induction false} LinesBeforeOf(ts: seq<LevelTrace>, ts': seq<LevelTrace>, i: nat)
    requires i <= |ts| && i <= |ts'| && ts[..i] == ts'[..i]
    ensures LinesBefore(ts, i) == LinesBefore(ts', i)
  {
    if i > 0 {
      assert ts[i - 1] == ts[..i][i - 1] == ts'[i - 1];
      assert ts[..i - 1] == ts[..i][..i - 1] == ts'[..i - 1];
      LinesBeforeOf(ts, ts', i - 1);
    }
  }

  lemma LineDrawn(g: Grid, z: real, t: LevelTrace, l: nat, tx: real -> real, ty: real -> real)
    requires ValidGrid(g) && Traces(g, z, t) && l < |t.lines|
    ensures DrawsLine(Drawings(t.points, t.lines, tx, ty), l, g, z, t.points, t.lines[l], tx, ty)
  {
    hide Near, IsCrossing, IsTracing, InOrder, Complete;
    assert Connected(t.points, t.lines[l]);
    var line, strip := t.lines[l], Drawings(t.points, t.lines, tx, ty)[l];
    assert strip == Placed(EncodePoints(PointsOf(t.points, line)), tx, ty);
    forall k | 0 <= k < |line|
      ensures line[k] < |t.points| && IsCrossing(g, z, t.points[line[k]])
      ensures strip[k] == (tx(t.points[line[k]].x), ty(t.points[line[k]].y))
    {
    }
  }

  lemma DrawingsSize(P: seq<ContourPoint>, lines: seq<seq<nat>>, tx: real -> real, ty: real -> real)
    requires AllConnected(P, lines)
    ensures |Drawings(P, lines, tx, ty)| == |lines|
  {
  }

  lemma DrawsLineJoin(a: seq<Polyline>, b: seq<Polyline>, pos: nat, g: Grid, z: real, P: seq<ContourPoint>,
                      line: seq<nat>, tx: real -> real, ty: real -> real)
    requires ValidGrid(g)
    ensures DrawsLine(a, pos, g, z, P, line, tx, ty) ==> DrawsLine(a + b, pos, g, z, P, line, tx, ty)
    ensures DrawsLine(b, pos, g, z, P, line, tx, ty) ==> DrawsLine(a + b, |a| + pos, g, z, P, line, tx, ty)
  {
    hide IsCrossing;
  }

  lemma {:induction false} LevelDrawn(g: Grid, v: seq<real>, ts: seq<LevelTrace>, i: nat, l: nat, tx: real -> real,
                                      ty: real -> real)
    requires ValidGrid(g) && AllTraced(g, v, ts) && Encodable(ts)
    ensures |AllDrawings(ts, tx, ty)| == LinesBefore(ts, |ts|)
    ensures i < |ts| && l < |ts[i].lines| ==>
      DrawsLine(AllDrawings(ts, tx, ty), LinesBefore(ts, i) + l, g, v[i], ts[i].points, ts[i].lines[l], tx, ty)
  {
    hide Traces, AllConnected, DrawsLine, Drawings;
    if ts != [] {
      var n := |ts| - 1;
      LevelDrawn(g, v[..n], ts[..n], i, l, tx, ty);
      LinesBeforeOf(ts, ts[..n], n);
      DrawingsSize(ts[n].points, ts[n].lines, tx, ty);
      if i < |ts| && l < |ts[i].lines| {
        if i < n {
          LinesBeforeOf(ts, ts[..n], i);
          assert ts[..n][i] == ts[i] && v[..n][i] == v[i];
        } else {
          LineDrawn(g, v[n], ts[n], l, tx, ty);
        }
        DrawsLineJoin(AllDrawings(ts[..n], tx, ty), Drawings(ts[n].points, ts[n].lines, tx, ty),
                      if i < n then LinesBefore(ts, i) + l else l, g, v[i], ts[i].points, ts[i].lines[l], tx, ty);
      }
    }
  }

  lemma AllDrawn(g: Grid, v: seq<real>, ts: seq<LevelTrace>, tx: real -> real, ty: real -> real)
    requires ValidGrid(g) && AllTraced(g, v, ts) && Encodable(ts)
    ensures DrawsAllLines(AllDrawings(ts, tx, ty), g, v, ts, tx, ty)
  {
    hide DrawsLine, Traces, AllDrawings, Encodable;
    LevelDrawn(g, v, ts, 0, 0, tx, ty);
    forall i, l | 0 <= i < |ts| && 0 <= l < |ts[i].lines|
      ensures DrawsLine(AllDrawings(ts, tx, ty), LinesBefore(ts, i) + l, g, v[i], ts[i].points, ts[i].lines[l], tx, ty)
    {
      LevelDrawn(g, v, ts, i, l, tx, ty);
    }
  }

  /** The display draws exactly the traced polylines: one strip for each, through the places of its crossings. */
  method DisplayContour(g: Grid, v: seq<real>, tx: real -> real, ty: real -> real)
    returns (strips: seq<Polyline>, ghost ts: seq<LevelTrace>)
    requires ValidGrid(g)
    ensures AllTraced(g, v, ts) && DrawsAllLines(strips, g, v, ts, tx, ty)
  {
    hide Traces, Encodable, EncodeLevels, DrawsAllLines, HasAllLines;
    var C;
    C, ts := Contourc(g, v);
    strips := DrawStrips(C, tx, ty);
    LevelsSplit(v, ts, tx, ty);
    assert C + [] == C;
    assert Strips(C + [], tx, ty) == AllDrawings(ts, tx, ty) + Strips([], tx, ty);
    assert strips == AllDrawings(ts, tx, ty);
    AllDrawn(g, v, ts, tx, ty);
  }
}
