/** What becomes of an open contour (contourc in lib/bayesopt/matplotpp/matplotpp.cc). Tracing starts at its first
    point in scan order. If that point is further than one step from the end of the contour that the front part goes
    to, the front part turns back at once, and one segment of the contour is never drawn. */
module OpenContours {
  import opened ContourTracing
  import opened ContourLines
  import opened ContourShapes
  import opened Sequences

  predicate PathNext(q: seq<nat>, i: nat, m: nat)
    requires i < |q|
  {
    (i + 1 < |q| && m == q[i + 1]) || (i > 0 && m == q[i - 1])
  }

  ghost predicate PathNeighbours(P: seq<ContourPoint>, q: seq<nat>, i: nat)
    requires i < |q|
  {
    q[i] < |P| && forall m: nat | m < |P| :: Adjoins(P[q[i]], P[m]) <==> PathNext(q, i, m)
  }

  /** The points of q adjoin each other in this order, and nothing else adjoins them. */
  ghost predicate IsPath(P: seq<ContourPoint>, q: seq<nat>) {
    q != [] && Distinct(q) && forall i: nat | i < |q| :: PathNeighbours(P, q, i)
  }

  /** Point i is the first in scan order, and the search takes the neighbour after it first. Every path is like this
      in one of its two directions. */
  ghost predicate StartsAt(q: seq<nat>, i: nat) {
    && i < |q| && (forall k | 0 <= k < |q| :: q[i] <= q[k])
    && (i > 0 ==> i + 1 < |q| && q[i + 1] < q[i - 1])
  }

  lemma PathIsComponent(P: seq<ContourPoint>, q: seq<nat>)
    requires IsPath(P, q)
    ensures Component(P, q)
  {
    hide Adjoins;
    forall c | c in q ensures c < |P| && forall m: nat | m < |P| && Adjoins(P[c], P[m]) :: m in q {
      var i :| 0 <= i < |q| && q[i] == c;
      assert PathNeighbours(P, q, i);
    }
  }

  // ----- the direction

  lemma ReversedPath(P: seq<ContourPoint>, q: seq<nat>)
    requires IsPath(P, q)
    ensures IsPath(P, Reversed(q)) && multiset(Reversed(q)) == multiset(q)
  {
    hide Adjoins;
    var r, n := Reversed(q), |q|;
    ReversedCount(q);
    forall i: nat | i < n ensures PathNeighbours(P, r, i) {
      assert PathNeighbours(P, q, n - 1 - i);
    }
  }

  lemma {:induction false} LeastOf(q: seq<nat>) returns (i: nat)
    requires q != []
    ensures i < |q| && forall k | 0 <= k < |q| :: q[i] <= q[k]
  {
    var n := |q| - 1;
    if n == 0 {
      i := 0;
    } else {
      i := LeastOf(q[..n]);
      if q[n] < q[i] {
        i := n;
      }
    }
  }

  lemma Direction(P: seq<ContourPoint>, q: seq<nat>) returns (r: seq<nat>, i: nat)
    requires IsPath(P, q)
    ensures IsPath(P, r) && (r == q || r == Reversed(q)) && StartsAt(r, i)
  {
    hide PathNeighbours;
    i := LeastOf(q);
    r := q;
    ReversedPath(P, q);
    var n := |q|;
    if i > 0 && (i + 1 == n || q[i - 1] < q[i + 1]) {
      r := Reversed(q);
      assert forall k | 0 <= k < n :: r[k] == q[n - 1 - k];
      i := n - 1 - i;
    } else if i > 0 {
      assert q[i - 1] != q[i + 1];
    }
  }

  // ----- the back part

  lemma TakenPoint(q: seq<nat>, i: nat, j: nat, before: multiset<nat>, starts: seq<nat>, size: nat, k: nat)
    requires i <= k < j <= |q| && (q[k] in starts ==> size <= 2)
    ensures !Free(before + multiset(q[i..j]), starts, size, q[k])
  {
    assert q[i..j][k - i] == q[k];
    assert multiset(q[i..j])[q[k]] > 0;
  }

  /** A point of the path outside of what has been emitted. */
  lemma FreshPoint(q: seq<nat>, i: nat, j: nat, before: multiset<nat>, starts: seq<nat>, size: nat, k: nat)
    requires Distinct(q) && Untouched(q, before, starts) && i <= j <= |q| && k < |q| && (k < i || j <= k)
    ensures Free(before + multiset(q[i..j]), starts, size, q[k])
  {
    assert q[k] !in q[i..j];
    assert q[k] in q;
    assert multiset(q[i..j])[q[k]] == 0;
  }

  lemma PathStep(P: seq<ContourPoint>, q: seq<nat>, i: nat, before: multiset<nat>, starts: seq<nat>, n: nat, m: nat)
    requires IsPath(P, q) && StartsAt(q, i) && Untouched(q, before, starts) && starts[|starts| - 1] == q[i]
    requires 1 <= n && i + n <= |q| && Follows(P, before + multiset(q[i..i + n]), starts, n, q[i + n - 1], m)
    ensures i + n < |q| && m == q[i + n]
  {
    hide Adjoins, Free, Untouched;
    assert PathNeighbours(P, q, i + n - 1);
    if n >= 2 {
      OnlyStart(q, i, before, starts, i + n - 2);
      TakenPoint(q, i, i + n, before, starts, n, i + n - 2);
    } else if i > 0 {
      FreshPoint(q, i, i + n, before, starts, n, i + 1);
      assert PathNext(q, i, q[i + 1]);
      assert PathNeighbours(P, q, i + 1);
      assert CanFollow(P, before + multiset(q[i..i + n]), starts, n, q[i], q[i + 1]);
    }
  }

  lemma OnlyStart(q: seq<nat>, i: nat, before: multiset<nat>, starts: seq<nat>, k: nat)
    requires Distinct(q) && Untouched(q, before, starts) && i < |q| && starts[|starts| - 1] == q[i] && k < |q|
    ensures q[k] in starts <==> k == i
  {
    assert q[k] in q;
  }

  lemma {:induction false} PathBack(P: seq<ContourPoint>, q: seq<nat>, i: nat, before: multiset<nat>, starts: seq<nat>,
                                    back: seq<nat>)
    requires IsPath(P, q) && StartsAt(q, i) && Untouched(q, before, starts) && starts[|starts| - 1] == q[i]
    requires BackRun(P, before, starts, back) && back != [] && back[0] == q[i]
    ensures i + |back| <= |q| && back == q[i..i + |back|]
  {
    hide IsPath, Untouched, Follows;
    var n := |back| - 1;
    if n >= 1 {
      PathBack(P, q, i, before, starts, back[..n]);
      PathStep(P, q, i, before, starts, n, back[n]);
      assert back == back[..n] + [back[n]];
    }
  }

  /** The back part goes on to the end of the path. */
  lemma PathEnds(P: seq<ContourPoint>, q: seq<nat>, i: nat, before: multiset<nat>, starts: seq<nat>, n: nat)
    requires IsPath(P, q) && Untouched(q, before, starts) && 1 <= n && i + n < |q|
    ensures !NoneFollows(P, before + multiset(q[i..i + n]), starts, n, q[i + n - 1])
  {
    hide Adjoins, Free, Untouched;
    FreshPoint(q, i, i + n, before, starts, n, i + n);
    assert PathNeighbours(P, q, i + n - 1) && PathNeighbours(P, q, i + n);
    assert PathNext(q, i + n - 1, q[i + n]);
    assert CanFollow(P, before + multiset(q[i..i + n]), starts, n, q[i + n - 1], q[i + n]);
  }

  // ----- the front part

  /** What has been emitted when the back part is done. */
  ghost function AfterBack(q: seq<nat>, i: nat, before: multiset<nat>): multiset<nat>
    requires i < |q|
  {
    before + multiset(q[i..])
  }

  /** On the other side of the starting point, only the point before it can follow. */
  lemma FrontFirst(P: seq<ContourPoint>, q: seq<nat>, i: nat, before: multiset<nat>, starts: seq<nat>, size: nat)
    requires IsPath(P, q) && StartsAt(q, i) && Untouched(q, before, starts) && starts[|starts| - 1] == q[i]
    ensures i == 0 ==> NoneFollows(P, AfterBack(q, i, before), starts, size, q[i])
    ensures i > 0 ==> !NoneFollows(P, AfterBack(q, i, before), starts, size, q[i])
    ensures i > 0 ==> forall m | Follows(P, AfterBack(q, i, before), starts, size, q[i], m) :: m == q[i - 1]
  {
    hide Adjoins, Free, Untouched;
    assert q[i..] == q[i..|q|];
    assert PathNeighbours(P, q, i);
    if i + 1 < |q| {
      OnlyStart(q, i, before, starts, i + 1);
      TakenPoint(q, i, |q|, before, starts, size, i + 1);
    }
    if i > 0 {
      FreshPoint(q, i, |q|, before, starts, size, i - 1);
      assert PathNeighbours(P, q, i - 1);
      assert PathNext(q, i, q[i - 1]);
      assert CanFollow(P, AfterBack(q, i, before), starts, size, q[i], q[i - 1]);
    }
  }

  /** From there the starting point follows again, because it is the first in scan order. */
  lemma FrontSecond(P: seq<ContourPoint>, q: seq<nat>, i: nat, before: multiset<nat>, starts: seq<nat>, size: nat,
                    m: nat)
    requires IsPath(P, q) && StartsAt(q, i) && Untouched(q, before, starts) && starts[|starts| - 1] == q[i] && i > 0
      && size > 2
    ensures var emitted := AfterBack(q, i, before) + multiset([q[i - 1]]);
      && !NoneFollows(P, emitted, starts, size, q[i - 1])
      && (Follows(P, emitted, starts, size, q[i - 1], m) ==> m == q[i])
  {
    hide Adjoins, Untouched;
    var emitted := AfterBack(q, i, before) + multiset([q[i - 1]]);
    StartOnce(q, i, before, starts);
    assert PathNeighbours(P, q, i - 1) && PathNeighbours(P, q, i);
    assert PathNext(q, i - 1, q[i]);
    assert CanFollow(P, emitted, starts, size, q[i - 1], q[i]);
    assert i > 1 ==> q[i] < q[i - 2] by { LessThanOthers(q, i, i - 2); }
  }

  lemma LessThanOthers(q: seq<nat>, i: nat, k: int)
    requires Distinct(q) && StartsAt(q, i) && k != i
    ensures 0 <= k < |q| ==> q[i] < q[k]
  {
  }

  lemma StartOnce(q: seq<nat>, i: nat, before: multiset<nat>, starts: seq<nat>)
    requires Distinct(q) && Untouched(q, before, starts) && 0 < i < |q| && starts[|starts| - 1] == q[i]
    ensures (AfterBack(q, i, before) + multiset([q[i - 1]]))[q[i]] == 1 && q[i] in starts
  {
    assert q[i] in q && before[q[i]] == 0;
    assert q[i..] == [q[i]] + q[i + 1..];
    assert q[i] !in q[i + 1..];
    assert multiset(q[i..])[q[i]] == 1;
    assert q[i - 1] != q[i];
  }

  /** And after that nothing does. */
  lemma FrontThird(P: seq<ContourPoint>, q: seq<nat>, i: nat, before: multiset<nat>, starts: seq<nat>, size: nat,
                   m: nat)
    requires IsPath(P, q) && StartsAt(q, i) && Untouched(q, before, starts) && starts[|starts| - 1] == q[i] && i > 0
      && size > 2
    ensures !Follows(P, AfterBack(q, i, before) + multiset([q[i], q[i - 1]]), starts, size, q[i], m)
  {
    hide Adjoins, Untouched, Free;
    assert PathNeighbours(P, q, i);
    OnlyStart(q, i, before, starts, i + 1);
    OnlyStart(q, i, before, starts, i - 1);
    StillTaken(q, i, before, starts, size);
  }

  lemma StillTaken(q: seq<nat>, i: nat, before: multiset<nat>, starts: seq<nat>, size: nat)
    requires 0 < i && i + 1 < |q| && q[i + 1] !in starts && q[i - 1] !in starts
    ensures var emitted := AfterBack(q, i, before) + multiset([q[i], q[i - 1]]);
      !Free(emitted, starts, size, q[i + 1]) && !Free(emitted, starts, size, q[i - 1])
  {
    assert q[i..][1] == q[i + 1];
    assert multiset(q[i..])[q[i + 1]] > 0 && multiset([q[i], q[i - 1]])[q[i - 1]] > 0;
  }

  /** The line of a path that tracing starts at point i. */
  function PathLine(q: seq<nat>, i: nat): seq<nat>
    requires i < |q|
  {
    if i == 0 then q else [q[i], q[i - 1]] + q[i..]
  }

  /** The front part of a line whose back part goes from point i to the end of the path. */
  ghost predicate IsFront(P: seq<ContourPoint>, q: seq<nat>, i: nat, before: multiset<nat>, starts: seq<nat>,
                          front: seq<nat>)
  {
    && IsPath(P, q) && StartsAt(q, i) && Untouched(q, before, starts) && starts[|starts| - 1] == q[i]
    && FrontRun(P, AfterBack(q, i, before), starts, |q| - i, q[i], front)
    && NoneFollows(P, AfterBack(q, i, before) + multiset(front), starts, |q| - i + |front|, FrontEnd(front, q[i]))
  }

  lemma FrontTurns(P: seq<ContourPoint>, q: seq<nat>, i: nat, before: multiset<nat>, starts: seq<nat>, front: seq<nat>)
    requires IsFront(P, q, i, before, starts, front)
    ensures i < |q| && (i == 0 <==> front == []) && (front != [] ==> front[|front| - 1] == q[i - 1])
  {
    hide IsPath, Untouched, Follows, NoneFollows, FrontRun, AfterBack;
    var E, size, n := AfterBack(q, i, before), |q| - i, |front|;
    FrontFirst(P, q, i, before, starts, size);
    if front == [] {
      assert E + multiset(front) == E;
    } else {
      FrontStep(P, E, starts, size, q[i], front, 1);
      assert E + multiset(front[n..]) == E;
      NotBoth(P, E, starts, size, q[i], front[n - 1]);
    }
  }

  lemma FrontReturns(P: seq<ContourPoint>, q: seq<nat>, i: nat, before: multiset<nat>, starts: seq<nat>,
                     front: seq<nat>)
    requires IsFront(P, q, i, before, starts, front) && i > 0
    ensures i < |q| && |front| >= 2 && front[|front| - 1] == q[i - 1] && front[|front| - 2] == q[i]
  {
    hide IsPath, Untouched, Follows, NoneFollows, FrontRun, AfterBack;
    var E, size, n := AfterBack(q, i, before), |q| - i, |front|;
    FrontTurns(P, q, i, before, starts, front);
    assert n == 1 ==> front == [q[i - 1]];
    if n > 1 {
      FrontStep(P, E, starts, size, q[i], front, 2);
      assert front[n - 1..] == [q[i - 1]];
    }
    FrontSecond(P, q, i, before, starts, size + 1, if n > 1 then front[n - 2] else 0);
  }

  lemma FrontShape(P: seq<ContourPoint>, q: seq<nat>, i: nat, before: multiset<nat>, starts: seq<nat>, front: seq<nat>)
    requires IsFront(P, q, i, before, starts, front)
    ensures i < |q| && front == if i == 0 then [] else [q[i], q[i - 1]]
  {
    FrontTurns(P, q, i, before, starts, front);
    if i > 0 {
      FrontReturns(P, q, i, before, starts, front);
      hide IsPath, Untouched, Follows, NoneFollows, FrontRun, AfterBack;
      var n := |front|;
      if n > 2 {
        FrontStep(P, AfterBack(q, i, before), starts, |q| - i, q[i], front, 3);
        assert front[n - 2..] == [q[i], q[i - 1]];
        FrontThird(P, q, i, before, starts, |q| - i + 2, front[n - 3]);
        assert false;
      }
    }
  }

  lemma NotBoth(P: seq<ContourPoint>, emitted: multiset<nat>, starts: seq<nat>, size: nat, c: nat, m: nat)
    requires Follows(P, emitted, starts, size, c, m)
    ensures !NoneFollows(P, emitted, starts, size, c)
  {
    hide CanFollow;
  }

  lemma PathTraced(P: seq<ContourPoint>, q: seq<nat>, i: nat, before: multiset<nat>, starts: seq<nat>, line: seq<nat>)
    requires IsPath(P, q) && StartsAt(q, i) && Untouched(q, before, starts) && starts[|starts| - 1] == q[i]
    requires TracedLine(P, before, starts, line)
    ensures line == PathLine(q, i)
  {
    hide IsPath, Untouched, Follows, NoneFollows, BackRun, FrontRun, StartsAt;
    var back, front :| TracedAs(P, before, starts, back, front) && line == front + back;
    assert i < |q| by { StartInside(q, i); }
    PathBack(P, q, i, before, starts, back);
    if i + |back| < |q| {
      PathEnds(P, q, i, before, starts, |back|);
      assert false;
    }
    assert back == q[i..];
    FrontShape(P, q, i, before, starts, front);
    assert i == 0 ==> q[i..] == q;
  }

  lemma StartInside(q: seq<nat>, i: nat)
    requires StartsAt(q, i)
    ensures i < |q|
  {
  }

  // ----- gaps

  /** Some line goes from a to b or from b to a. */
  ghost predicate Drawn(lines: seq<seq<nat>>, a: nat, b: nat) {
    exists l: nat, k: nat :: l < |lines| && k + 1 < |lines[l]| && Joins(lines[l], k, a, b)
  }

  predicate Joins(line: seq<nat>, k: nat, a: nat, b: nat)
    requires k + 1 < |line|
  {
    (line[k] == a && line[k + 1] == b) || (line[k] == b && line[k + 1] == a)
  }

  ghost predicate WhollyDrawn(lines: seq<seq<nat>>, q: seq<nat>) {
    forall j | 0 <= j < |q| - 1 :: Drawn(lines, q[j], q[j + 1])
  }

  lemma PathFirstLine(P: seq<ContourPoint>, q: seq<nat>, i: nat, lines: seq<seq<nat>>, starts: seq<nat>)
    returns (l: nat)
    requires IsTracing(P, lines, starts) && IsPath(P, q) && StartsAt(q, i)
    ensures l < |lines| == |starts| && starts[l] == q[i] && lines[l] == PathLine(q, i)
    ensures forall k, x | 0 <= k < l && x in lines[k] :: x !in q
    ensures forall k | 0 <= k < |q| && k != i :: q[k] !in starts[..l + 1]
  {
    hide IsPath, TracedLine, Flatten, LinesTraced, AllEmitted, Component;
    PathIsComponent(P, q);
    assert Distinct(q) && q != [] by { PathSize(P, q); }
    l := FirstLine(P, q, lines, starts);
    ghost var before, s := multiset(Flatten(lines[..l])), starts[..l + 1];
    LineSide(P, q, before, s, lines[l]);
    assert q[i] in q && q[i] !in before;
    var j :| 0 <= j < |q| && q[j] == starts[l];
    PathTraced(P, q, i, before, s, lines[l]);
    forall k | 0 <= k < |q| && k != i ensures q[k] !in s {
      OnlyStart(q, i, before, s, k);
    }
  }

  lemma PathSize(P: seq<ContourPoint>, q: seq<nat>)
    requires IsPath(P, q)
    ensures Distinct(q) && q != []
  {
  }

  /** An open contour is drawn without a gap if and only if tracing starts at its first or second point. */
  lemma OpenContourIff(P: seq<ContourPoint>, q: seq<nat>, i: nat, lines: seq<seq<nat>>, starts: seq<nat>)
    requires IsTracing(P, lines, starts) && IsPath(P, q) && StartsAt(q, i)
    ensures WhollyDrawn(lines, q) <==> i <= 1
    ensures i > 1 ==> !Drawn(lines, q[i - 2], q[i - 1])
  {
    hide IsTracing, IsPath, StartsAt, Component;
    assert i < |q| by { StartInside(q, i); }
    PathIsComponent(P, q);
    var l := PathFirstLine(P, q, i, lines, starts);
    if i <= 1 {
      forall j | 0 <= j < |q| - 1 ensures Drawn(lines, q[j], q[j + 1]) {
        var k := if i == 0 then j else if j == 0 then 0 else j + 1;
        assert Joins(lines[l], k, q[j], q[j + 1]);
      }
    } else {
      PathSize(P, q);
      var a, b := q[i - 2], q[i - 1];
      GapInLine(q, i, lines[l], a, b);
      forall m: nat, k: nat | m < |lines| && k + 1 < |lines[m]| ensures !Joins(lines[m], k, a, b) {
        if m < l {
          assert lines[m][k] !in q && lines[m][k + 1] !in q;
        } else if m > l {
          assert lines[l][1] == q[i - 1];
          NoLaterLine(P, q, lines, starts, l, m, b);
        }
      }
      assert !Drawn(lines, a, b) && b == q[i - 2 + 1];
    }
  }

  /** The line has nothing of the path before the point that the front part turns back from. */
  lemma GapInLine(q: seq<nat>, i: nat, line: seq<nat>, a: nat, b: nat)
    requires Distinct(q) && 1 < i < |q| && line == PathLine(q, i) && a == q[i - 2] && b == q[i - 1]
    ensures forall k: nat | k + 1 < |line| :: !Joins(line, k, a, b)
  {
    assert q[i - 2] !in q[i..];
  }

  // ----- an example

  /** A valley that is open at one side of the grid. */
  const VALLEY := Grid([0.0, 1.0, 2.0], [0.0, 1.0, 2.0], [[1.0, 1.0, 1.0], [1.0, -1.0, 1.0], [1.0, -1.0, 1.0]], 3, 3)

  /** Its crossings of level zero in scan order: the one at the closed end is the first. */
  const SHORE: seq<ContourPoint> := [
    ContourPoint(1.0, 0.5, 1, 0, 1, 0),
    ContourPoint(0.5, 1.0, 0, 1, 0, 0),
    ContourPoint(1.5, 1.0, 1, 1, 0, 0),
    ContourPoint(0.5, 2.0, 0, 2, 0, 0),
    ContourPoint(1.5, 2.0, 1, 2, 0, 0)]

  lemma ShoreInterpolates(m: nat)
    requires m < 5
    ensures ValidGrid(VALLEY) && ValidEdge(VALLEY, SHORE[m]) && IsCrossing(VALLEY, 0.0, SHORE[m])
  {
    assert Interpolates(VALLEY, 0.0, SHORE[m], 0.5);
    hide Between;
    BetweenBounds(0.0, EdgeValues(VALLEY, SHORE[m]).0, EdgeValues(VALLEY, SHORE[m]).1);
  }

  lemma ShoreComplete(p: ContourPoint)
    requires ValidGrid(VALLEY) && CrossedEdge(VALLEY, 0.0, p)
    ensures exists m :: 0 <= m < 5 && IsEdge(SHORE[m], p.yi, p.xj, p.xy)
  {
    hide Between;
    BetweenBounds(0.0, EdgeValues(VALLEY, p).0, EdgeValues(VALLEY, p).1);
    assert IsEdge(SHORE[0], p.yi, p.xj, p.xy) || IsEdge(SHORE[1], p.yi, p.xj, p.xy)
      || IsEdge(SHORE[2], p.yi, p.xj, p.xy)
      || IsEdge(SHORE[3], p.yi, p.xj, p.xy) || IsEdge(SHORE[4], p.yi, p.xj, p.xy);
  }

  lemma ShoreIsFound()
    ensures ValidGrid(VALLEY) && Lists(VALLEY, 0.0, SHORE, 3, 0, 0)
  {
    hide IsCrossing, CrossedEdge;
    forall m: nat | m < 5 ensures IsCrossing(VALLEY, 0.0, SHORE[m]) {
      ShoreInterpolates(m);
    }
    forall p | CrossedEdge(VALLEY, 0.0, p) && EdgeLess(p, 3, 0, 0) ensures Listed(SHORE, p) {
      ShoreComplete(p);
    }
  }

  /** Which crossings adjoin. */
  predicate Beside(i: nat, m: nat) {
    match i
    case 0 => m == 1 || m == 2
    case 1 => m == 0 || m == 3
    case 2 => m == 0 || m == 4
    case 3 => m == 1
    case _ => m == 2
  }

  lemma ShoreNeighbours(i: nat, m: nat)
    requires i < 5 && m < 5
    ensures Adjoins(SHORE[i], SHORE[m]) <==> Beside(i, m)
  {
    assert m == 0 || m == 1 || m == 2 || m == 3 || m == 4;
    match i {
      case 0 =>
      case 1 =>
      case 2 =>
      case 3 =>
      case _ =>
    }
  }

  lemma ShoreIsPath()
    ensures IsPath(SHORE, [4, 2, 0, 1, 3]) && StartsAt([4, 2, 0, 1, 3], 2)
  {
    hide Adjoins;
    var q := [4, 2, 0, 1, 3];
    forall i: nat | i < |q| ensures PathNeighbours(SHORE, q, i) {
      assert i == 0 || i == 1 || i == 2 || i == 3 || i == 4;
      forall m: nat | m < 5 ensures Adjoins(SHORE[q[i]], SHORE[m]) <==> PathNext(q, i, m) {
        ShoreNeighbours(q[i], m);
      }
    }
  }

  /** The shore of the valley is drawn with a gap. */
  lemma ShoreIsBroken(lines: seq<seq<nat>>, starts: seq<nat>)
    requires IsTracing(SHORE, lines, starts)
    ensures !Drawn(lines, 4, 2)
  {
    hide IsTracing, IsPath, StartsAt, Drawn;
    ShoreIsPath();
    var q := [4, 2, 0, 1, 3];
    OpenContourIff(SHORE, q, 2, lines, starts);
    assert q[0] == 4 && q[1] == 2;
  }
}
