/** Joining the crossings of one level to polylines (the mode machine of contourc in
    lib/bayesopt/matplotpp/matplotpp.cc), and the flat form in which they are returned and displayed. */
module ContourLines {
  import opened ContourTracing
  import opened Sequences

  /** One column of the two-row result: a header (level, number of points) or a point (x, y). */
  type Flat = seq<(real, real)>

  // ----- what tracing keeps

  function Unmarked(p: ContourPoint): ContourPoint {
    p.(done := 0)
  }

  predicate Near(p: ContourPoint, q: ContourPoint) {
    Adjoins(p, q) || Adjoins(q, p)
  }

  /** V is P with marks. */
  ghost predicate Marked(P: seq<ContourPoint>, V: seq<ContourPoint>) {
    |V| == |P| && forall m | 0 <= m < |P| :: Unmarked(V[m]) == P[m] && V[m].done in {0, 1, 2}
  }

  /** How often a point with this mark has been emitted. */
  predicate MarkAllows(done: int, count: nat) {
    if done == 0 then count == 0 else if done == 2 then count == 1 else 1 <= count <= 2
  }

  /** A starting point that has not been emitted again has mark 2, and no other point has. Only starting points are
      emitted twice. */
  predicate MarkStarts(done: int, count: nat, isStart: bool) {
    (done == 2 <==> isStart && count == 1) && (isStart ==> done != 0) && (!isStart ==> count <= 1)
  }

  /** The marks tell how often each point has been emitted, and which points started a line. */
  ghost predicate MarksCount(V: seq<ContourPoint>, emitted: multiset<nat>, starts: seq<nat>) {
    && (forall m: nat | m in emitted :: m < |V|)
    && (forall m: nat | m < |V| :: MarkAllows(V[m].done, emitted[m]))
    && (forall m: nat | m < |V| :: MarkStarts(V[m].done, emitted[m], m in starts))
  }

  ghost predicate Connected(P: seq<ContourPoint>, line: seq<nat>) {
    && (forall k | 0 <= k < |line| :: line[k] < |P|)
    && (forall k | 0 <= k < |line| - 1 :: Near(P[line[k]], P[line[k + 1]]))
  }

  ghost predicate AllConnected(P: seq<ContourPoint>, lines: seq<seq<nat>>) {
    forall l | 0 <= l < |lines| :: lines[l] != [] && Connected(P, lines[l])
  }

  /** The accumulated points ac are those with the indices in line. */
  ghost predicate Accumulated(P: seq<ContourPoint>, ac: seq<ContourPoint>, line: seq<nat>) {
    Connected(P, line) && |ac| == |line| && forall k | 0 <= k < |ac| :: Unmarked(ac[k]) == P[line[k]]
  }

  // ----- runs

  /** A point may be emitted: it has not been before, or it is a starting point that has been emitted once, and the line
      is longer than two points. */
  ghost predicate Free(emitted: multiset<nat>, starts: seq<nat>, size: nat, m: nat) {
    emitted[m] == 0 || (m in starts && emitted[m] == 1 && size > 2)
  }

  ghost predicate CanFollow(P: seq<ContourPoint>, emitted: multiset<nat>, starts: seq<nat>, size: nat, c: nat, m: nat)
    requires c < |P| && m < |P|
  {
    Free(emitted, starts, size, m) && Adjoins(P[c], P[m])
  }

  /** m is the first point that can follow c. */
  ghost predicate Follows(P: seq<ContourPoint>, emitted: multiset<nat>, starts: seq<nat>, size: nat, c: nat, m: nat) {
    && c < |P| && m < |P| && CanFollow(P, emitted, starts, size, c, m)
    && forall k: nat | k < m :: !CanFollow(P, emitted, starts, size, c, k)
  }

  ghost predicate NoneFollows(P: seq<ContourPoint>, emitted: multiset<nat>, starts: seq<nat>, size: nat, c: nat) {
    c < |P| && forall m: nat | m < |P| :: !CanFollow(P, emitted, starts, size, c, m)
  }

  /** The back part of a line, from its starting point on, grew point by point. */
  ghost predicate BackRun(P: seq<ContourPoint>, before: multiset<nat>, starts: seq<nat>, back: seq<nat>) {
    var n := |back| - 1;
    n < 1 || (BackRun(P, before, starts, back[..n])
              && Follows(P, before + multiset(back[..n]), starts, n, back[n - 1], back[n]))
  }

  function FrontEnd(front: seq<nat>, start: nat): nat {
    if front == [] then start else front[0]
  }

  /** And so did the front part, from the other side of the starting point on; size is that of the back part. */
  ghost predicate FrontRun(P: seq<ContourPoint>, before: multiset<nat>, starts: seq<nat>, size: nat, start: nat,
                           front: seq<nat>)
  {
    front == []
    || (FrontRun(P, before, starts, size, start, front[1..])
        && Follows(P, before + multiset(front[1..]), starts, size + |front| - 1, FrontEnd(front[1..], start), front[0]))
  }

  ghost predicate FirstUnused(P: seq<ContourPoint>, before: multiset<nat>, start: nat) {
    start < |P| && start !in before && forall m: nat | m < start :: m in before
  }

  /** What has been emitted when the line has these two parts. */
  ghost function Emitted(before: multiset<nat>, back: seq<nat>, front: seq<nat>): multiset<nat> {
    before + multiset(back) + multiset(front)
  }

  /** No point can follow the back of the line any more, and none its front. */
  ghost predicate BackEnds(P: seq<ContourPoint>, before: multiset<nat>, starts: seq<nat>, back: seq<nat>) {
    back != [] && NoneFollows(P, before + multiset(back), starts, |back|, back[|back| - 1])
  }

  ghost predicate FrontEnds(P: seq<ContourPoint>, before: multiset<nat>, starts: seq<nat>, back: seq<nat>,
                            front: seq<nat>)
  {
    back != []
    && NoneFollows(P, Emitted(before, back, front), starts, |back| + |front|, FrontEnd(front, back[0]))
  }

  /** A line being traced: the first unused point starts it. */
  ghost predicate Growing(P: seq<ContourPoint>, before: multiset<nat>, starts: seq<nat>, back: seq<nat>,
                          front: seq<nat>)
  {
    && back != [] && FirstUnused(P, before, back[0]) && starts != [] && starts[|starts| - 1] == back[0]
    && BackRun(P, before, starts, back)
    && FrontRun(P, before + multiset(back), starts, |back|, back[0], front)
  }

  ghost predicate TracedAs(P: seq<ContourPoint>, before: multiset<nat>, starts: seq<nat>, back: seq<nat>,
                           front: seq<nat>)
  {
    && Growing(P, before, starts, back, front)
    && BackEnds(P, before, starts, back) && FrontEnds(P, before, starts, back, front)
  }

  /** The line is what tracing gives after the points in `before` have been emitted. */
  ghost predicate TracedLine(P: seq<ContourPoint>, before: multiset<nat>, starts: seq<nat>, line: seq<nat>) {
    exists back, front :: TracedAs(P, before, starts, back, front) && line == front + back
  }

  /** Every line is what tracing gives after the lines before it. */
  ghost predicate LinesTraced(P: seq<ContourPoint>, lines: seq<seq<nat>>, starts: seq<nat>) {
    |lines| <= |starts|
    && forall l | 0 <= l < |lines| :: TracedLine(P, multiset(Flatten(lines[..l])), starts[..l + 1], lines[l])
  }

  function EncodePoints(ac: seq<ContourPoint>): Flat {
    seq(|ac|, k requires 0 <= k < |ac| => (ac[k].x, ac[k].y))
  }

  function EncodeLine(z: real, ac: seq<ContourPoint>): Flat {
    [(z, |ac| as real)] + EncodePoints(ac)
  }

  function PointsOf(P: seq<ContourPoint>, line: seq<nat>): (ps: seq<ContourPoint>)
    requires forall k | 0 <= k < |line| :: line[k] < |P|
    ensures |ps| == |line|
  {
    seq(|line|, k requires 0 <= k < |line| => P[line[k]])
  }

  ghost function EncodeLines(z: real, P: seq<ContourPoint>, lines: seq<seq<nat>>): Flat
    requires AllConnected(P, lines)
  {
    if lines == [] then []
    else EncodeLines(z, P, lines[..|lines| - 1]) + EncodeLine(z, PointsOf(P, lines[|lines| - 1]))
  }

  // ----- termination

  function Weight(V: seq<ContourPoint>): nat {
    if V == [] then 0
    else (if V[0].done == 0 then 2 else if V[0].done == 2 then 1 else 0) + Weight(V[1..])
  }

  lemma {:induction false} WeightUpdate(V: seq<ContourPoint>, k: nat, p: ContourPoint)
    requires k < |V|
    ensures Weight(V[k := p]) == Weight(V) - Weight([V[k]]) + Weight([p])
  {
    if k == 0 {
      assert V[k := p][1..] == V[1..];
    } else {
      assert V[k := p][1..] == V[1..][k - 1 := p];
      WeightUpdate(V[1..], k - 1, p);
    }
  }

  /** The rank of a mode among the modes that do not mark a point. */
  function Rank(mode: int): nat {
    if 1 <= mode <= 4 then 6 - mode else if mode == 0 then 1 else 0
  }

  // ----- the searches

  /** A point may be added: it is unused, or a starting point and the line is longer than two points. */
  predicate Usable(p: ContourPoint, size: nat) {
    p.done == 0 || (p.done == 2 && size > 2)
  }

  method SearchStart(vc: array<ContourPoint>) returns (found: bool, kk: nat)
    ensures found ==> kk < vc.Length && vc[kk].done == 0 && forall m | 0 <= m < kk :: vc[m].done != 0
    ensures !found ==> forall m | 0 <= m < vc.Length :: vc[m].done != 0
  {
    found, kk := false, 0;
    var m := 0;
    while !found && m < vc.Length
      invariant m <= vc.Length
      invariant found ==> kk < vc.Length && vc[kk].done == 0 && forall k | 0 <= k < kk :: vc[k].done != 0
      invariant !found ==> forall k | 0 <= k < m :: vc[k].done != 0
    {
      if vc[m].done == 0 {
        found, kk := true, m;
      }
      m := m + 1;
    }
  }

  method SearchNext(vc: array<ContourPoint>, c: ContourPoint, size: nat) returns (found: bool, kk: nat)
    ensures found ==> kk < vc.Length && Usable(vc[kk], size) && Adjoins(c, vc[kk])
    ensures found ==> forall m | 0 <= m < kk :: !(Usable(vc[m], size) && Adjoins(c, vc[m]))
    ensures !found ==> forall m | 0 <= m < vc.Length :: !(Usable(vc[m], size) && Adjoins(c, vc[m]))
  {
    found, kk := false, 0;
    var m := 0;
    while !found && m < vc.Length
      invariant m <= vc.Length
      invariant found ==> kk < vc.Length && Usable(vc[kk], size) && Adjoins(c, vc[kk])
      invariant found ==> forall k | 0 <= k < kk :: !(Usable(vc[k], size) && Adjoins(c, vc[k]))
      invariant !found ==> forall k | 0 <= k < m :: !(Usable(vc[k], size) && Adjoins(c, vc[k]))
    {
      if Usable(vc[m], size) && Adjoins(c, vc[m]) {
        found, kk := true, m;
      }
      m := m + 1;
    }
  }

  // ----- the steps of the machine

  /** Marking point k and emitting it once more keeps the marks right. */
  lemma MarkStep(P: seq<ContourPoint>, V: seq<ContourPoint>, emitted: multiset<nat>, starts: seq<nat>, k: nat,
                 done: int)
    requires Marked(P, V) && MarksCount(V, emitted, starts) && k < |V|
    requires if done == 2 then V[k].done == 0 else done == 1 && (V[k].done == 0 || V[k].done == 2)
    ensures Marked(P, V[k := V[k].(done := done)])
    ensures MarksCount(V[k := V[k].(done := done)], emitted + multiset{k}, if done == 2 then starts + [k] else starts)
    ensures Weight(V[k := V[k].(done := done)]) < Weight(V)
  {
    var V', emitted' := V[k := V[k].(done := done)], emitted + multiset{k};
    WeightUpdate(V, k, V[k].(done := done));
    forall m: nat | m < |V'|
      ensures MarkAllows(V'[m].done, emitted'[m])
      ensures MarkStarts(V'[m].done, emitted'[m], m in if done == 2 then starts + [k] else starts)
    {
      assert MarkAllows(V[m].done, emitted[m]) && MarkStarts(V[m].done, emitted[m], m in starts);
    }
  }

  /** The marks decide which points are free. */
  lemma FreeIsUsable(V: seq<ContourPoint>, emitted: multiset<nat>, starts: seq<nat>, size: nat, m: nat)
    requires MarksCount(V, emitted, starts) && m < |V|
    ensures Usable(V[m], size) <==> Free(emitted, starts, size, m)
  {
    assert MarkAllows(V[m].done, emitted[m]) && MarkStarts(V[m].done, emitted[m], m in starts);
  }

  lemma CandidateIsUsable(P: seq<ContourPoint>, V: seq<ContourPoint>, emitted: multiset<nat>, starts: seq<nat>,
                          size: nat, c: ContourPoint, q: nat, m: nat)
    requires Marked(P, V) && MarksCount(V, emitted, starts) && q < |P| && m < |V| && Unmarked(c) == P[q]
    ensures m < |P| && (CanFollow(P, emitted, starts, size, q, m) <==> Usable(V[m], size) && Adjoins(c, V[m]))
  {
    hide MarksCount, Usable, Free;
    FreeIsUsable(V, emitted, starts, size, m);
    AdjoinsUnmarked(c, V[m]);
    MarkedAt(P, V, m);
  }

  /** A search finds the first point that can follow, or there is none. */
  lemma SearchFollows(P: seq<ContourPoint>, V: seq<ContourPoint>, emitted: multiset<nat>, starts: seq<nat>, size: nat,
                      c: ContourPoint, q: nat, found: bool, kk: nat)
    requires Marked(P, V) && MarksCount(V, emitted, starts) && q < |P| && Unmarked(c) == P[q]
    requires found ==> kk < |V| && Usable(V[kk], size) && Adjoins(c, V[kk])
    requires found ==> forall m | 0 <= m < kk :: !(Usable(V[m], size) && Adjoins(c, V[m]))
    requires !found ==> forall m | 0 <= m < |V| :: !(Usable(V[m], size) && Adjoins(c, V[m]))
    ensures if found then Follows(P, emitted, starts, size, q, kk) else NoneFollows(P, emitted, starts, size, q)
  {
    hide MarksCount, Usable, CanFollow, Adjoins, Unmarked;
    assert |V| == |P| by { MarkedSize(P, V); }
    forall m: nat | m < |P|
      ensures CanFollow(P, emitted, starts, size, q, m) <==> Usable(V[m], size) && Adjoins(c, V[m])
    {
      CandidateIsUsable(P, V, emitted, starts, size, c, q, m);
    }
  }

  lemma MarkedSize(P: seq<ContourPoint>, V: seq<ContourPoint>)
    requires Marked(P, V)
    ensures |P| == |V|
  {
  }

  lemma PushBack(P: seq<ContourPoint>, ac: seq<ContourPoint>, line: seq<nat>, c: ContourPoint, p: ContourPoint, k: nat)
    requires Accumulated(P, ac, line) && k < |P| && Unmarked(p) == P[k]
    requires ac != [] ==> Unmarked(c) == Unmarked(ac[|ac| - 1]) && Adjoins(c, p)
    ensures Accumulated(P, ac + [p], line + [k])
  {
  }

  lemma StartLine(P: seq<ContourPoint>, V: seq<ContourPoint>, p: ContourPoint, k: nat)
    requires Marked(P, V) && k < |P| && Unmarked(p) == Unmarked(V[k])
    ensures Accumulated(P, [p], [k])
  {
  }

  lemma AdjoinsUnmarked(c: ContourPoint, p: ContourPoint)
    ensures Adjoins(c, p) == Adjoins(Unmarked(c), Unmarked(p))
  {
  }

  lemma MarkedAt(P: seq<ContourPoint>, V: seq<ContourPoint>, k: nat)
    requires Marked(P, V) && k < |V|
    ensures |V| == |P| && Unmarked(V[k]) == P[k] && V[k].done in {0, 1, 2}
  {
  }

  lemma PushFront(P: seq<ContourPoint>, ac: seq<ContourPoint>, line: seq<nat>, c: ContourPoint, p: ContourPoint, k: nat)
    requires Accumulated(P, ac, line) && k < |P| && Unmarked(p) == P[k]
    requires ac != [] && Unmarked(c) == Unmarked(ac[0]) && Adjoins(c, p)
    ensures Accumulated(P, [p] + ac, [k] + line)
  {
  }

  lemma Flush(z: real, P: seq<ContourPoint>, ac: seq<ContourPoint>, line: seq<nat>, lines: seq<seq<nat>>)
    requires Accumulated(P, ac, line) && ac != [] && AllConnected(P, lines)
    ensures AllConnected(P, lines + [line])
    ensures EncodeLines(z, P, lines + [line]) == EncodeLines(z, P, lines) + EncodeLine(z, ac)
    ensures Flatten(lines + [line]) == Flatten(lines) + line
  {
    assert (lines + [line])[..|lines|] == lines;
    assert EncodePoints(ac) == EncodePoints(PointsOf(P, line));
  }

  /** The ends of a line and of its accumulated points are the same. */
  lemma EndsMatch(P: seq<ContourPoint>, ac: seq<ContourPoint>, line: seq<nat>)
    requires Accumulated(P, ac, line) && ac != []
    ensures |line| == |ac| && line[0] < |P| && line[|line| - 1] < |P|
    ensures Unmarked(ac[0]) == P[line[0]] && Unmarked(ac[|ac| - 1]) == P[line[|line| - 1]]
  {
  }

  /** A new line starts at the first unused point. */
  lemma LineStarts(P: seq<ContourPoint>, V: seq<ContourPoint>, emitted: multiset<nat>, starts: seq<nat>, kk: nat)
    requires Marked(P, V) && MarksCount(V, emitted, starts) && kk < |V| && V[kk].done == 0
    requires forall m | 0 <= m < kk :: V[m].done != 0
    ensures Growing(P, emitted, starts + [kk], [kk], [])
  {
    forall m: nat | m <= kk ensures m in emitted <==> m < kk {
      assert MarkAllows(V[m].done, emitted[m]);
    }
  }

  lemma BackGrows(P: seq<ContourPoint>, before: multiset<nat>, starts: seq<nat>, back: seq<nat>, k: nat)
    requires Growing(P, before, starts, back, [])
    requires Follows(P, Emitted(before, back, []), starts, |back|, back[|back| - 1], k)
    ensures Growing(P, before, starts, back + [k], [])
    ensures Emitted(before, back + [k], []) == Emitted(before, back, []) + multiset{k}
  {
    hide Follows, FirstUnused;
    assert (back + [k])[..|back|] == back;
    assert Emitted(before, back, []) == before + multiset(back);
  }

  lemma FrontGrows(P: seq<ContourPoint>, before: multiset<nat>, starts: seq<nat>, back: seq<nat>, front: seq<nat>,
                   k: nat)
    requires Growing(P, before, starts, back, front)
    requires Follows(P, Emitted(before, back, front), starts, |back| + |front|, FrontEnd(front, back[0]), k)
    ensures Growing(P, before, starts, back, [k] + front)
    ensures Emitted(before, back, [k] + front) == Emitted(before, back, front) + multiset{k}
  {
    hide Follows, FirstUnused, BackRun;
    assert ([k] + front)[1..] == front;
  }

  lemma GrowingSize(P: seq<ContourPoint>, before: multiset<nat>, starts: seq<nat>, back: seq<nat>, front: seq<nat>)
    requires Growing(P, before, starts, back, front)
    ensures back != [] && (front + back)[0] == FrontEnd(front, back[0])
      && (front + back)[|front + back| - 1] == back[|back| - 1]
  {
  }

  lemma LineFinished(P: seq<ContourPoint>, lines: seq<seq<nat>>, starts: seq<nat>, back: seq<nat>, front: seq<nat>)
    requires LinesTraced(P, lines, starts) && |starts| == |lines| + 1
    requires TracedAs(P, multiset(Flatten(lines)), starts, back, front)
    ensures LinesTraced(P, lines + [front + back], starts)
    ensures multiset(Flatten(lines + [front + back])) == Emitted(multiset(Flatten(lines)), back, front)
  {
    hide TracedAs, Flatten;
    var line := front + back;
    var ls := lines + [line];
    FlattenMore(lines, line);
    JoinCounts(Flatten(lines), front, back);
    assert ls[..|lines|] == lines && starts[..|starts|] == starts;
    assert TracedLine(P, multiset(Flatten(lines)), starts, line);
    hide TracedLine;
    forall l | 0 <= l < |ls| ensures TracedLine(P, multiset(Flatten(ls[..l])), starts[..l + 1], ls[l]) {
      if l < |lines| {
        assert ls[..l] == lines[..l];
      }
    }
  }

  lemma JoinCounts(a: seq<nat>, front: seq<nat>, back: seq<nat>)
    ensures multiset(a + (front + back)) == multiset(a) + multiset(back) + multiset(front)
  {
  }

  /** A new starting point does not concern the finished lines. */
  lemma TracedStays(P: seq<ContourPoint>, lines: seq<seq<nat>>, starts: seq<nat>, k: nat)
    requires LinesTraced(P, lines, starts)
    ensures LinesTraced(P, lines, starts + [k])
  {
    hide TracedLine;
    forall l | 0 <= l < |lines|
      ensures TracedLine(P, multiset(Flatten(lines[..l])), (starts + [k])[..l + 1], lines[l])
    {
      assert (starts + [k])[..l + 1] == starts[..l + 1];
    }
  }

  /** Mode 0: the first unused point starts a line. */
  method SetInitial(vc: array<ContourPoint>, ghost P: seq<ContourPoint>, ghost before: multiset<nat>,
                    ghost starts: seq<nat>)
    returns (found: bool, kk: nat)
    requires Marked(P, vc[..]) && MarksCount(vc[..], Emitted(before, [], []), starts)
    modifies vc
    ensures !found ==> vc[..] == old(vc[..]) && forall m | 0 <= m < vc.Length :: vc[m].done != 0
    ensures found ==>
      kk < vc.Length && Accumulated(P, [vc[kk]], [] + [kk]) && Growing(P, before, starts + [kk], [kk], [])
    ensures found ==> Marked(P, vc[..]) && MarksCount(vc[..], Emitted(before, [kk], []), starts + [kk])
    ensures found ==> Weight(vc[..]) < Weight(old(vc[..]))
  {
    hide Connected, MarksCount, Marked, Accumulated, Weight, Growing;
    found, kk := SearchStart(vc);
    if found {
      ghost var V := vc[..];
      assert Emitted(before, [], []) == before;
      assert before + multiset{kk} == Emitted(before, [kk], []) && [] + [kk] == [kk];
      MarkedAt(P, V, kk);
      LineStarts(P, V, before, starts, kk);
      vc[kk] := vc[kk].(done := 2);
      assert vc[..] == V[kk := V[kk].(done := 2)];
      MarkStep(P, V, before, starts, kk, 2);
      StartLine(P, V, vc[kk], kk);
    }
  }

  /** The search of modes 1 and 3: the first point that can follow c, marked. */
  method MarkNext(vc: array<ContourPoint>, c: ContourPoint, size: nat,
                  ghost P: seq<ContourPoint>, ghost emitted: multiset<nat>, ghost starts: seq<nat>, ghost end: nat)
    returns (found: bool, kk: nat)
    requires Marked(P, vc[..]) && MarksCount(vc[..], emitted, starts) && end < |P| && Unmarked(c) == P[end]
    modifies vc
    ensures if found then Follows(P, emitted, starts, size, end, kk) else NoneFollows(P, emitted, starts, size, end)
    ensures !found ==> vc[..] == old(vc[..])
    ensures found ==> kk < vc.Length && kk < |P| && Adjoins(c, vc[kk]) && Unmarked(vc[kk]) == P[kk]
    ensures found ==> Marked(P, vc[..]) && MarksCount(vc[..], emitted + multiset{kk}, starts)
    ensures found ==> Weight(vc[..]) < Weight(old(vc[..]))
  {
    hide Adjoins, MarksCount, Marked, Weight, Usable, Follows, NoneFollows;
    found, kk := SearchNext(vc, c, size);
    SearchFollows(P, vc[..], emitted, starts, size, c, end, found, kk);
    if found {
      ghost var V := vc[..];
      MarkedAt(P, V, kk);
      UsableDone(V[kk], size);
      vc[kk] := vc[kk].(done := 1);
      assert vc[..] == V[kk := V[kk].(done := 1)];
      MarkStep(P, V, emitted, starts, kk, 1);
      AdjoinsUnmarked(c, V[kk]);
      AdjoinsUnmarked(c, vc[kk]);
    }
  }

  /** Modes 1 and 3: the first point that can follow extends the line, at its back or at its front. */
  method Extend(vc: array<ContourPoint>, c: ContourPoint, ac: seq<ContourPoint>, atBack: bool,
                ghost P: seq<ContourPoint>,
                ghost before: multiset<nat>, ghost starts: seq<nat>, ghost back: seq<nat>, ghost front: seq<nat>)
    returns (found: bool, c': ContourPoint, ac': seq<ContourPoint>, ghost back': seq<nat>, ghost front': seq<nat>)
    requires Marked(P, vc[..]) && MarksCount(vc[..], Emitted(before, back, front), starts)
    requires Growing(P, before, starts, back, front) && (atBack ==> front == [])
    requires ac != [] && Accumulated(P, ac, front + back)
      && Unmarked(c) == Unmarked(if atBack then ac[|ac| - 1] else ac[0])
    modifies vc
    ensures Marked(P, vc[..]) && MarksCount(vc[..], Emitted(before, back', front'), starts)
    ensures Growing(P, before, starts, back', front') && (if atBack then front' == front else back' == back)
    ensures ac' != [] && Accumulated(P, ac', front' + back')
    ensures Unmarked(c') == Unmarked(if atBack then ac'[|ac'| - 1] else ac'[0])
    ensures found ==> Weight(vc[..]) < Weight(old(vc[..]))
    ensures !found ==> vc[..] == old(vc[..]) && back' == back && front' == front
    ensures !found ==> if atBack then BackEnds(P, before, starts, back) else FrontEnds(P, before, starts, back, front)
  {
    hide Adjoins, Connected, MarksCount, Marked, Accumulated, Weight, Follows, NoneFollows, Growing, Emitted, Unmarked;
    EndsMatch(P, ac, front + back);
    GrowingSize(P, before, starts, back, front);
    c', ac', back', front' := c, ac, back, front;
    var kk;
    found, kk := MarkNext(vc, c, |ac|, P, Emitted(before, back, front), starts,
                          if atBack then back[|back| - 1] else FrontEnd(front, back[0]));
    if found {
      c' := vc[kk];
      if atBack {
        BackGrows(P, before, starts, back, kk);
        PushBack(P, ac, front + back, c, vc[kk], kk);
        assert front + back + [kk] == front + (back + [kk]);
        ac', back' := ac + [vc[kk]], back + [kk];
      } else {
        FrontGrows(P, before, starts, back, front, kk);
        PushFront(P, ac, front + back, c, vc[kk], kk);
        assert [kk] + (front + back) == [kk] + front + back;
        ac', front' := [vc[kk]] + ac, [kk] + front;
      }
    } else if atBack {
      BackEnded(P, before, starts, back);
    }
  }

  lemma BackEnded(P: seq<ContourPoint>, before: multiset<nat>, starts: seq<nat>, back: seq<nat>)
    requires back != [] && NoneFollows(P, Emitted(before, back, []), starts, |back|, back[|back| - 1])
    ensures BackEnds(P, before, starts, back)
  {
    hide NoneFollows;
    assert Emitted(before, back, []) == before + multiset(back);
  }

  lemma UsableDone(p: ContourPoint, size: nat)
    requires Usable(p, size)
    ensures p.done == 0 || p.done == 2
  {
  }

  /** Joins the crossings in vc to polylines, and appends them to C in flat form. The ghost results list the
      polylines by the indices of their points in P, the points as they were found, and their starting points. */
  method TraceLevel(z: real, vc: array<ContourPoint>, C0: Flat, ghost P: seq<ContourPoint>)
    returns (C: Flat, ghost lines: seq<seq<nat>>, ghost starts: seq<nat>)
    requires P == vc[..] && forall m | 0 <= m < |P| :: P[m].done == 0
    modifies vc
    ensures AllConnected(P, lines) && C == C0 + EncodeLines(z, P, lines)
    ensures IsTracing(P, lines, starts)
  {
    hide Adjoins, Near, Connected, Flatten, MarkAllows, MarksCount, Marked, Accumulated, AllConnected, EncodeLines,
      Weight, Growing, LinesTraced, AllEmitted, Emitted, BackEnds, FrontEnds, Unmarked;
    NothingTraced(z, P);
    C, lines, starts := C0, [], [];
    ghost var before: multiset<nat>, back: seq<nat>, front: seq<nat> := multiset{}, [], [];
    var ac: seq<ContourPoint> := [];
    var c := ContourPoint(0.0, 0.0, 0, 0, 0, 0);
    var mode := 0;
    while mode < 5
      invariant 0 <= mode <= 5 && before == multiset(Flatten(lines))
      invariant Marked(P, vc[..]) && MarksCount(vc[..], Emitted(before, back, front), starts)
      invariant LinesTraced(P, lines, starts) && |starts| == if 1 <= mode <= 4 then |lines| + 1 else |lines|
      invariant AllConnected(P, lines) && C == C0 + EncodeLines(z, P, lines)
      invariant mode == 0 || mode == 5 ==> back == front == []
      invariant 1 <= mode <= 4 ==>
        Growing(P, before, starts, back, front) && ac != [] && Accumulated(P, ac, front + back)
      invariant mode <= 2 ==> front == []
      invariant mode == 1 ==> Unmarked(c) == Unmarked(ac[|ac| - 1])
      invariant mode == 3 ==> Unmarked(c) == Unmarked(ac[0])
      invariant 2 <= mode <= 4 ==> BackEnds(P, before, starts, back)
      invariant mode == 4 ==> FrontEnds(P, before, starts, back, front)
      invariant mode == 5 ==> forall m | 0 <= m < |P| :: vc[m].done != 0
      decreases Weight(vc[..]), Rank(mode)
    {
      var modeNext := mode;
      if mode == 0 {
        ac := [];
        var found, kk := SetInitial(vc, P, before, starts);
        if found {
          c := vc[kk];
          assert ac + [vc[kk]] == [vc[kk]];
          TracedStays(P, lines, starts, kk);
          ac, back, starts := ac + [vc[kk]], [kk], starts + [kk];
          modeNext := 1;
        } else {
          modeNext := 5;
        }
      }
      if mode == 1 || mode == 3 {
        var found;
        found, c, ac, back, front := Extend(vc, c, ac, mode == 1, P, before, starts, back, front);
        modeNext := if found then mode else mode + 1;
      }
      if mode == 2 {
        c := ac[0];
        modeNext := 3;
      }
      if mode == 4 {
        if |ac| > 0 {
          Flush(z, P, ac, front + back, lines);
          LineFinished(P, lines, starts, back, front);
          C := C + EncodeLine(z, ac);
          NothingMore(before, back, front);
          lines, before, back, front := lines + [front + back], Emitted(before, back, front), [], [];
        }
        modeNext := 0;
      }
      mode := modeNext;
    }
    AllAreEmitted(P, vc[..], before, starts);
  }

  lemma NothingMore(before: multiset<nat>, back: seq<nat>, front: seq<nat>)
    ensures Emitted(Emitted(before, back, front), [], []) == Emitted(before, back, front)
  {
  }

  lemma NothingTraced(z: real, P: seq<ContourPoint>)
    requires forall m | 0 <= m < |P| :: P[m].done == 0
    ensures Marked(P, P) && AllConnected(P, []) && LinesTraced(P, [], [])
    ensures multiset(Flatten<nat>([])) == multiset{} && EncodeLines(z, P, []) == []
    ensures MarksCount(P, Emitted(multiset{}, [], []), [])
  {
  }

  /** All lines are traced, and all points are on them. */
  ghost predicate IsTracing(P: seq<ContourPoint>, lines: seq<seq<nat>>, starts: seq<nat>) {
    |starts| == |lines| && LinesTraced(P, lines, starts) && AllEmitted(P, multiset(Flatten(lines)), starts)
  }

  /** Every point has been emitted, and only starting points have been emitted twice. */
  ghost predicate AllEmitted(P: seq<ContourPoint>, emitted: multiset<nat>, starts: seq<nat>) {
    forall m: nat | m < |P| :: emitted[m] == 1 || (emitted[m] == 2 && m in starts)
  }

  lemma AllAreEmitted(P: seq<ContourPoint>, V: seq<ContourPoint>, emitted: multiset<nat>, starts: seq<nat>)
    requires Marked(P, V) && MarksCount(V, Emitted(emitted, [], []), starts)
    requires forall m | 0 <= m < |P| :: V[m].done != 0
    ensures AllEmitted(P, emitted, starts)
  {
    assert Emitted(emitted, [], []) == emitted;
    forall m: nat | m < |P| ensures emitted[m] == 1 || (emitted[m] == 2 && m in starts) {
      assert MarkAllows(V[m].done, emitted[m]) && MarkStarts(V[m].done, emitted[m], m in starts);
    }
  }
}
