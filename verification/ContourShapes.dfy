/** What becomes of a closed contour (contourc in lib/bayesopt/matplotpp/matplotpp.cc): it is traced by one closed
    polyline. */
module ContourShapes {
  import opened ContourTracing
  import opened ContourLines
  import opened Sequences

  // ----- components

  lemma AdjoinsCommutes(p: ContourPoint, q: ContourPoint)
    ensures Adjoins(p, q) <==> Adjoins(q, p)
  {
  }

  ghost predicate Distinct(q: seq<nat>) {
    forall i, j | 0 <= i < j < |q| :: q[i] != q[j]
  }

  /** No point outside of q adjoins one of q. */
  ghost predicate Component(P: seq<ContourPoint>, q: seq<nat>) {
    && (forall c | c in q :: c < |P|)
    && forall c: nat, m: nat | c in q && m < |P| && Adjoins(P[c], P[m]) :: m in q
  }

  lemma SameSide(P: seq<ContourPoint>, q: seq<nat>, c: nat, m: nat)
    requires Component(P, q) && c < |P| && m < |P| && Adjoins(P[c], P[m])
    ensures c in q <==> m in q
  {
    hide Adjoins;
    AdjoinsCommutes(P[c], P[m]);
  }

  lemma FollowsSide(P: seq<ContourPoint>, q: seq<nat>, emitted: multiset<nat>, starts: seq<nat>, size: nat, c: nat,
                    m: nat)
    requires Component(P, q) && Follows(P, emitted, starts, size, c, m)
    ensures c in q <==> m in q
    ensures emitted[m] == 0 || m in starts
  {
    hide Adjoins, Component;
    SameSide(P, q, c, m);
  }

  /** The back part is in the component of its starting point, and has no used points but starting points. */
  lemma {:induction false} BackSide(P: seq<ContourPoint>, q: seq<nat>, before: multiset<nat>, starts: seq<nat>,
                                    back: seq<nat>)
    requires Component(P, q) && back != [] && back[0] !in before && BackRun(P, before, starts, back)
    ensures forall x | x in back :: (x in q <==> back[0] in q) && (x !in before || x in starts)
  {
    hide Follows, Component;
    var n := |back| - 1;
    if n >= 1 {
      BackSide(P, q, before, starts, back[..n]);
      FollowsSide(P, q, before + multiset(back[..n]), starts, n, back[n - 1], back[n]);
      assert back[n - 1] in back[..n];
      assert back == back[..n] + [back[n]];
    }
  }

  lemma {:induction false} FrontSide(P: seq<ContourPoint>, q: seq<nat>, before: multiset<nat>, starts: seq<nat>,
                                     size: nat, start: nat, front: seq<nat>)
    requires Component(P, q) && FrontRun(P, before, starts, size, start, front)
    ensures forall x | x in front :: (x in q <==> start in q) && (x !in before || x in starts)
  {
    hide Follows, Component;
    if front != [] {
      var rest := front[1..];
      FrontSide(P, q, before, starts, size, start, rest);
      FollowsSide(P, q, before + multiset(rest), starts, size + |front| - 1, FrontEnd(rest, start), front[0]);
      assert rest != [] ==> rest[0] in rest;
      assert front == [front[0]] + rest;
    }
  }

  /** A line is in the component of its starting point, which is the first unused one. */
  lemma LineSide(P: seq<ContourPoint>, q: seq<nat>, before: multiset<nat>, starts: seq<nat>, line: seq<nat>)
    requires Component(P, q) && TracedLine(P, before, starts, line)
    ensures starts != [] && starts[|starts| - 1] in line && FirstUnused(P, before, starts[|starts| - 1])
    ensures forall x | x in line :: (x in q <==> starts[|starts| - 1] in q) && (x !in before || x in starts)
  {
    hide Component, BackRun, FrontRun, BackEnds, FrontEnds;
    var back, front :| TracedAs(P, before, starts, back, front) && line == front + back;
    BackSide(P, q, before, starts, back);
    FrontSide(P, q, before + multiset(back), starts, |back|, back[0], front);
  }

  // ----- the lines of a component

  lemma {:induction false} LeastStart(starts: seq<nat>, q: seq<nat>, k: nat) returns (l: nat)
    requires k < |starts| && starts[k] in q
    ensures l <= k && starts[l] in q && forall j | 0 <= j < l :: starts[j] !in q
  {
    if j :| 0 <= j < k && starts[j] in q {
      l := LeastStart(starts, q, j);
    } else {
      l := k;
    }
  }

  lemma LineAt(P: seq<ContourPoint>, q: seq<nat>, lines: seq<seq<nat>>, starts: seq<nat>, l: nat)
    requires IsTracing(P, lines, starts) && Component(P, q) && l < |lines|
    ensures TracedLine(P, multiset(Flatten(lines[..l])), starts[..l + 1], lines[l])
    ensures starts[l] in lines[l] && FirstUnused(P, multiset(Flatten(lines[..l])), starts[l])
    ensures forall x | x in lines[l] ::
      (x in q <==> starts[l] in q) && (x !in Flatten(lines[..l]) || x in starts[..l + 1])
  {
    hide TracedLine, Component, Flatten, FirstUnused;
    LineSide(P, q, multiset(Flatten(lines[..l])), starts[..l + 1], lines[l]);
  }

  /** What a component sees of the first line in it: nothing of it has been used. */
  ghost predicate Untouched(q: seq<nat>, before: multiset<nat>, starts: seq<nat>) {
    && starts != [] && starts[|starts| - 1] in q
    && forall x | x in q :: x !in before && (x in starts ==> x == starts[|starts| - 1])
  }

  lemma LineOf(P: seq<ContourPoint>, q: seq<nat>, lines: seq<seq<nat>>, starts: seq<nat>, x: nat) returns (k: nat)
    requires IsTracing(P, lines, starts) && Component(P, q) && x in q
    ensures k < |lines| && x in lines[k]
  {
    hide LinesTraced, Flatten;
    assert x < |P|;
    var emitted := multiset(Flatten(lines));
    assert emitted[x] > 0;
    assert x in emitted;
    FlattenMembers(lines, x);
    k :| 0 <= k < |lines| && x in lines[k];
  }

  lemma FirstLine(P: seq<ContourPoint>, q: seq<nat>, lines: seq<seq<nat>>, starts: seq<nat>) returns (l: nat)
    requires IsTracing(P, lines, starts) && Component(P, q) && q != []
    ensures l < |lines| && Untouched(q, multiset(Flatten(lines[..l])), starts[..l + 1])
    ensures TracedLine(P, multiset(Flatten(lines[..l])), starts[..l + 1], lines[l])
    ensures forall k, x | 0 <= k < l && x in lines[k] :: x !in q
  {
    hide TracedLine, Flatten, FirstUnused, LinesTraced, Component, AllEmitted;
    var k := LineOf(P, q, lines, starts, q[0]);
    LineAt(P, q, lines, starts, k);
    l := LeastStart(starts, q, k);
    LineAt(P, q, lines, starts, l);
    forall j, y | 0 <= j < l && y in lines[j] ensures y !in q {
      LineAt(P, q, lines, starts, j);
    }
    forall y | y in q ensures y !in Flatten(lines[..l]) {
      FlattenMembers(lines[..l], y);
    }
  }

  /** A point that is not a starting point is on no line after its first one. */
  lemma NoLaterLine(P: seq<ContourPoint>, q: seq<nat>, lines: seq<seq<nat>>, starts: seq<nat>, l: nat, k: nat, x: nat)
    requires IsTracing(P, lines, starts) && Component(P, q) && l < k < |lines|
    requires x in lines[l] && x !in starts[..l + 1]
    ensures x !in lines[k]
  {
    hide TracedLine, Flatten, Component;
    forall j | l < j <= k ensures x in Flatten(lines[..j]) && x != starts[j] {
      assert lines[..j][l] == lines[l];
      FlattenMembers(lines[..j], x);
      LineAt(P, q, lines, starts, j);
    }
    LineAt(P, q, lines, starts, k);
    forall j | 0 <= j <= k ensures starts[j] != x {
      if j <= l {
        assert starts[j] == starts[..l + 1][j];
      }
    }
  }

  // ----- steps of a run

  lemma {:induction false} BackPrefix(P: seq<ContourPoint>, before: multiset<nat>, starts: seq<nat>, back: seq<nat>,
                                      k: nat)
    requires 0 < k <= |back| && BackRun(P, before, starts, back)
    ensures BackRun(P, before, starts, back[..k])
  {
    hide Follows;
    if k < |back| {
      BackPrefix(P, before, starts, back[..|back| - 1], k);
      assert back[..|back| - 1][..k] == back[..k];
    } else {
      assert back[..k] == back;
    }
  }

  lemma {:induction false} FrontSuffix(P: seq<ContourPoint>, before: multiset<nat>, starts: seq<nat>, size: nat,
                                       start: nat, front: seq<nat>, j: nat)
    requires j <= |front| && FrontRun(P, before, starts, size, start, front)
    ensures FrontRun(P, before, starts, size, start, front[j..])
    decreases j
  {
    hide Follows;
    if j > 0 {
      FrontSuffix(P, before, starts, size, start, front, j - 1);
      assert front[j - 1..][1..] == front[j..];
    }
  }

  lemma FrontTop(P: seq<ContourPoint>, before: multiset<nat>, starts: seq<nat>, size: nat, start: nat, front: seq<nat>)
    requires front != [] && FrontRun(P, before, starts, size, start, front)
    ensures Follows(P, before + multiset(front[1..]), starts, size + |front| - 1, FrontEnd(front[1..], start), front[0])
  {
    hide Follows;
  }

  /** The t-th point from the start of the front part. */
  lemma FrontStep(P: seq<ContourPoint>, before: multiset<nat>, starts: seq<nat>, size: nat, start: nat, front: seq<nat>,
                  t: nat)
    requires 0 < t <= |front| && FrontRun(P, before, starts, size, start, front)
    ensures var rest := front[|front| - t + 1..];
      Follows(P, before + multiset(rest), starts, size + t - 1, FrontEnd(rest, start), front[|front| - t])
  {
    hide Follows, FrontRun, FrontEnd;
    var tail := front[|front| - t..];
    FrontSuffix(P, before, starts, size, start, front, |front| - t);
    assert tail[1..] == front[|front| - t + 1..];
    FrontTop(P, before, starts, size, start, tail);
  }

  lemma CountOnce(q: seq<nat>, i: nat)
    requires Distinct(q) && i < |q|
    ensures multiset(q)[q[i]] == 1
  {
    assert q == q[..i] + [q[i]] + q[i + 1..];
    assert q[i] !in q[..i] && q[i] !in q[i + 1..];
  }

  // ----- closed contours

  function Next(i: nat, n: nat): (r: nat)
    requires i < n
    ensures r < n
  {
    if i + 1 == n then 0 else i + 1
  }

  function Prev(i: nat, n: nat): (r: nat)
    requires i < n
    ensures r < n
  {
    if i == 0 then n - 1 else i - 1
  }

  ghost predicate CycleNeighbours(P: seq<ContourPoint>, q: seq<nat>, i: nat)
    requires i < |q|
  {
    && q[i] < |P|
    && forall m: nat | m < |P| :: Adjoins(P[q[i]], P[m]) <==> m == q[Next(i, |q|)] || m == q[Prev(i, |q|)]
  }

  /** The points of q adjoin each other around a cycle, and nothing else adjoins them. */
  ghost predicate IsCycle(P: seq<ContourPoint>, q: seq<nat>) {
    |q| >= 3 && Distinct(q) && forall i: nat | i < |q| :: CycleNeighbours(P, q, i)
  }

  lemma CycleIsComponent(P: seq<ContourPoint>, q: seq<nat>)
    requires IsCycle(P, q)
    ensures Component(P, q)
  {
    hide Adjoins, Next, Prev;
    forall c | c in q ensures c < |P| && forall m: nat | m < |P| && Adjoins(P[c], P[m]) :: m in q {
      var i :| 0 <= i < |q| && q[i] == c;
      assert CycleNeighbours(P, q, i);
    }
  }

  lemma Rotated(P: seq<ContourPoint>, q: seq<nat>) returns (r: seq<nat>)
    requires IsCycle(P, q)
    ensures IsCycle(P, r) && r == q[1..] + [q[0]] && multiset(r) == multiset(q)
  {
    hide Adjoins;
    r := q[1..] + [q[0]];
    assert q == [q[0]] + q[1..];
    forall i: nat | i < |r| ensures CycleNeighbours(P, r, i) {
      var n := |q|;
      assert CycleNeighbours(P, q, Next(i, n));
      assert r[i] == q[Next(i, n)] && r[Next(i, n)] == q[Next(Next(i, n), n)]
        && r[Prev(i, n)] == q[Prev(Next(i, n), n)];
    }
  }

  lemma {:induction false} RotatedTo(P: seq<ContourPoint>, q: seq<nat>, i: nat) returns (r: seq<nat>)
    requires IsCycle(P, q) && i < |q|
    ensures IsCycle(P, r) && multiset(r) == multiset(q) && r[0] == q[i]
    decreases i
  {
    hide IsCycle;
    CycleSize(P, q);
    if i == 0 {
      r := q;
    } else {
      r := Rotated(P, q);
      r := RotatedTo(P, r, i - 1);
    }
  }

  lemma CycleSize(P: seq<ContourPoint>, q: seq<nat>)
    requires IsCycle(P, q)
    ensures |q| >= 3
  {
  }

  lemma ReversedCycle(P: seq<ContourPoint>, q: seq<nat>)
    requires IsCycle(P, q)
    ensures IsCycle(P, Reversed(q))
  {
    hide Adjoins;
    var r, n := Reversed(q), |q|;
    forall i: nat | i < n ensures CycleNeighbours(P, r, i) {
      assert CycleNeighbours(P, q, n - 1 - i);
      assert r[Next(i, n)] == q[Prev(n - 1 - i, n)] && r[Prev(i, n)] == q[Next(n - 1 - i, n)];
    }
  }

  /** The cycle from s on, in the direction of e. */
  lemma Oriented(P: seq<ContourPoint>, q: seq<nat>, s: nat, e: nat) returns (r: seq<nat>)
    requires IsCycle(P, q) && s in q && s < |P| && e < |P| && Adjoins(P[s], P[e])
    ensures IsCycle(P, r) && multiset(r) == multiset(q) && r[0] == s && r[1] == e
  {
    hide Adjoins, Distinct;
    var i :| 0 <= i < |q| && q[i] == s;
    r := RotatedTo(P, q, i);
    assert CycleNeighbours(P, r, 0);
    if r[1] != e {
      var r' := Rotated(P, r);
      ReversedCycle(P, r');
      ReversedCount(r');
      r := Reversed(r');
    }
  }

  /** Once around, and back at the start. */
  function Lap(q: seq<nat>): (r: seq<nat>)
    requires q != []
    ensures |r| == |q| + 1
  {
    q + [q[0]]
  }

  /** Nothing but the starting point is free on the part of the lap that has been run. */
  lemma LapTaken(q: seq<nat>, before: multiset<nat>, starts: seq<nat>, size: nat, n: nat, x: nat)
    requires q != [] && n <= |q| + 1 && x in Lap(q)[..n] && (x in starts ==> x == q[0])
    requires x == q[0] ==> size <= 2
    ensures !Free(before + multiset(Lap(q)[..n]), starts, size, x)
  {
    assert multiset(Lap(q)[..n])[x] > 0;
  }

  lemma CycleStep(P: seq<ContourPoint>, q: seq<nat>, before: multiset<nat>, starts: seq<nat>, n: nat, m: nat)
    requires IsCycle(P, q) && Untouched(q, before, starts) && starts[|starts| - 1] == q[0] && 2 <= n <= |q| + 1
    requires Follows(P, before + multiset(Lap(q)[..n]), starts, n, Lap(q)[n - 1], m)
    ensures n <= |q| && m == Lap(q)[n]
  {
    hide Adjoins, Free;
    var N, lap := |q|, Lap(q);
    if n <= N {
      assert CycleNeighbours(P, q, n - 1);
      assert lap[n - 2] == lap[..n][n - 2] == q[n - 2];
      LapTaken(q, before, starts, n, n, q[n - 2]);
    } else {
      assert CycleNeighbours(P, q, 0);
      assert q[1] == lap[..n][1] && q[N - 1] == lap[..n][N - 1];
      LapTaken(q, before, starts, n, n, q[1]);
      LapTaken(q, before, starts, n, n, q[N - 1]);
    }
  }

  lemma {:induction false} CycleBack(P: seq<ContourPoint>, q: seq<nat>, before: multiset<nat>, starts: seq<nat>,
                                     back: seq<nat>)
    requires IsCycle(P, q) && Untouched(q, before, starts) && starts[|starts| - 1] == q[0]
    requires BackRun(P, before, starts, back) && back != [] && back[0] == q[0] && (|back| > 1 ==> back[1] == q[1])
    ensures |back| <= |q| + 1 && back == Lap(q)[..|back|]
  {
    hide IsCycle, Untouched, Follows;
    CycleSize(P, q);
    var n := |back| - 1;
    if n >= 1 {
      CycleBack(P, q, before, starts, back[..n]);
      if n >= 2 {
        CycleStep(P, q, before, starts, n, back[n]);
      }
      assert back == back[..n] + [back[n]];
    }
  }

  /** The end of the lap is free until it is reached. */
  lemma CycleEnds(P: seq<ContourPoint>, q: seq<nat>, before: multiset<nat>, starts: seq<nat>, k: nat)
    requires IsCycle(P, q) && Untouched(q, before, starts) && starts[|starts| - 1] == q[0] && 1 <= k <= |q|
    ensures !NoneFollows(P, before + multiset(Lap(q)[..k]), starts, k, Lap(q)[k - 1])
  {
    hide Adjoins;
    var N, lap := |q|, Lap(q);
    var emitted := before + multiset(lap[..k]);
    assert CycleNeighbours(P, q, k - 1);
    assert lap[..k] == q[..k];
    if k < N {
      assert q[k] !in q[..k];
      assert emitted[q[k]] == 0;
    } else {
      CountOnce(q, 0);
      assert q[..k] == q;
      assert emitted[q[0]] == 1 && q[0] in starts;
    }
    assert CycleNeighbours(P, q, if k < N then k else 0);
    assert CanFollow(P, emitted, starts, k, lap[k - 1], lap[k]);
  }

  /** A line that starts on an untouched cycle runs once around it. */
  lemma CycleLine(P: seq<ContourPoint>, q: seq<nat>, before: multiset<nat>, starts: seq<nat>, line: seq<nat>)
    returns (r: seq<nat>)
    requires IsCycle(P, q) && Untouched(q, before, starts) && TracedLine(P, before, starts, line)
    ensures IsCycle(P, r) && multiset(r) == multiset(q) && r[0] == starts[|starts| - 1] && line == Lap(r)
  {
    hide IsCycle, Follows, NoneFollows, Adjoins;
    var back, front :| TracedAs(P, before, starts, back, front) && line == front + back;
    var s := back[0];
    if |back| == 1 {
      assert false by { CycleStarts(P, q, before, starts, back); }
    }
    BackPrefix(P, before, starts, back, 2);
    SecondAdjoins(P, before, starts, back);
    r := Oriented(P, q, s, back[1]);
    SameUntouched(q, r, before, starts);
    CycleSize(P, r);
    CycleBack(P, r, before, starts, back);
    if |back| <= |r| {
      CycleEnds(P, r, before, starts, |back|);
      assert false;
    }
    assert Lap(r)[..|r| + 1] == Lap(r);
    if front != [] {
      FrontStep(P, before + multiset(back), starts, |back|, s, front, 1);
      var rest := front[|front|..];
      assert rest == [] && before + multiset(back) + multiset(rest) == before + multiset(Lap(r)[..|r| + 1]);
      CycleStep(P, r, before, starts, |r| + 1, front[|front| - 1]);
      assert false;
    }
    assert front + back == back;
  }

  lemma CycleStarts(P: seq<ContourPoint>, q: seq<nat>, before: multiset<nat>, starts: seq<nat>, back: seq<nat>)
    requires IsCycle(P, q) && Untouched(q, before, starts) && |back| == 1 && back[0] == starts[|starts| - 1]
    ensures !BackEnds(P, before, starts, back)
  {
    hide IsCycle, NoneFollows;
    var i :| 0 <= i < |q| && q[i] == back[0];
    var r := RotatedTo(P, q, i);
    SameUntouched(q, r, before, starts);
    CycleSize(P, r);
    CycleEnds(P, r, before, starts, 1);
    assert Lap(r)[..1] == back;
  }

  lemma SecondAdjoins(P: seq<ContourPoint>, before: multiset<nat>, starts: seq<nat>, back: seq<nat>)
    requires |back| >= 2 && BackRun(P, before, starts, back[..2])
    ensures back[0] < |P| && back[1] < |P| && Adjoins(P[back[0]], P[back[1]])
  {
    hide Adjoins;
  }

  lemma SameUntouched(q: seq<nat>, r: seq<nat>, before: multiset<nat>, starts: seq<nat>)
    requires Untouched(q, before, starts) && multiset(r) == multiset(q)
    ensures Untouched(r, before, starts)
  {
    forall x ensures x in r <==> x in q {
      assert x in multiset(r) <==> x in multiset(q);
    }
  }

  /** A closed contour becomes one polyline, which starts at its first point, goes around once and ends where it
      started; no other polyline touches it. */
  lemma ClosedContour(P: seq<ContourPoint>, q: seq<nat>, lines: seq<seq<nat>>, starts: seq<nat>)
    returns (l: nat, r: seq<nat>)
    requires IsTracing(P, lines, starts) && IsCycle(P, q)
    ensures l < |lines| && IsCycle(P, r) && multiset(r) == multiset(q) && lines[l] == r + [r[0]] && r[0] == starts[l]
    ensures forall k, x | 0 <= k < |lines| && k != l && x in lines[k] :: x !in q
  {
    hide IsCycle, IsTracing, Component, TracedLine, Untouched, Flatten;
    CycleIsComponent(P, q);
    CycleSize(P, q);
    l := FirstLine(P, q, lines, starts);
    assert l < |starts| by { LinesStart(P, lines, starts); }
    r := CycleLine(P, q, multiset(Flatten(lines[..l])), starts[..l + 1], lines[l]);
    CycleSize(P, r);
    forall k | l < k < |lines| ensures forall x | x in lines[k] :: x !in q {
      StartsElsewhere(P, q, lines, starts, l, r, k);
    }
  }

  lemma LinesStart(P: seq<ContourPoint>, lines: seq<seq<nat>>, starts: seq<nat>)
    requires IsTracing(P, lines, starts)
    ensures |starts| == |lines|
  {
  }

  lemma StartsElsewhere(P: seq<ContourPoint>, q: seq<nat>, lines: seq<seq<nat>>, starts: seq<nat>, l: nat, r: seq<nat>,
                        k: nat)
    requires IsTracing(P, lines, starts) && Component(P, q) && l < k < |lines|
    requires multiset(r) == multiset(q) && forall x | x in r :: x in lines[l]
    ensures forall x | x in lines[k] :: x !in q
  {
    hide TracedLine, Component, Flatten;
    LineAt(P, q, lines, starts, k);
    if starts[k] in q {
      assert starts[k] in multiset(r);
      assert starts[k] in lines[..k][l];
      FlattenMembers(lines[..k], starts[k]);
      assert false;
    }
  }
}
