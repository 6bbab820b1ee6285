/** Complementing, exchanging and fixing inputs on arrays of words (Kit_TruthChangePhase, Kit_TruthSwapAdjacentVars and
    Kit_TruthCofactor0New and 1New in src/bool/kit/kitTruth.c). */
module WordOperations {
  import opened TruthTables
  import opened WordBits
  import opened WordTables

  // ----- what the operations mean for the table

  /** Chunk j of W' is chunk f(j) of W. */
  ghost predicate Moved(W': Words, W: Words, s: nat, n: nat, f: nat -> nat) {
    && Chunked(W', s, n) && Chunked(W, s, n)
    && forall j: nat | j < n :: f(j) < n && ChunkOf(W', s, n, j) == ChunkOf(W, s, n, f(j))
  }

  lemma MovedWord(W': Words, W: Words, h: Assignment, h': Assignment, u: nat, f: nat -> nat)
    requires |W'| == |W| == Pow2(|h|) && |h'| == |h| && u <= |h| && Moved(W', W, Pow2(u), Pow2(|h| - u), f)
    requires h'[..u] == h[..u] && Index(h'[u..]) == f(Index(h[u..]))
    ensures WordAt(W', h) == WordAt(W, h')
  {
    hide Pow2, Index, ChunkOf, Chunked;
    WordInChunk(W', h, u);
    WordInChunk(W, h', u);
  }

  /** Tables are equal if the bits of the words are. */
  lemma SameTable(W: Words, t: Table, n: nat)
    requires |W| == WordNum(n) && |t| == Pow2(n)
    requires forall a: Assignment | |a| == n :: EvalWords(W, a) == Eval(t, a)
    ensures TableOf(W, n) == t
  {
    hide Pow2, EvalWords, Eval, TableOf;
    forall a: Assignment | |a| == n ensures Eval(TableOf(W, n), a) == Eval(t, a) {
      TableAt(W, n, a);
    }
    Extensional(TableOf(W, n), t, n);
  }

  lemma EvalIs(W: Words, a: Assignment)
    requires |W| == WordNum(|a|)
    ensures |W| == Pow2(|High(a)|) && EvalWords(W, a) == Bit(WordAt(W, High(a)), Position(Low(a)))
  {
    WordNumOf(a);
  }

  ghost predicate WordsPhased(W': Words, W: Words, v: nat) {
    v < 5 && |W'| == |W| && forall i | 0 <= i < |W| :: W'[i] == PhaseWord(W[i], v)
  }

  lemma PhaseInWords(W': Words, W: Words, n: nat, v: nat)
    requires |W'| == |W| == WordNum(n) && v < n
    requires if v < 5 then WordsPhased(W', W, v) else Moved(W', W, Pow2(v - 5), Pow2(n - v), Partner)
    ensures TableOf(W', n) == ChangePhase(TableOf(W, n), n, v)
  {
    hide Pow2, EvalWords, Eval, TableOf, Index, Bit, PhaseWord, Position, Toggled, Flip, Moved, ChangePhase, Partner,
      Low, High;
    forall a: Assignment | |a| == n ensures EvalWords(W', a) == Eval(ChangePhase(TableOf(W, n), n, v), a) {
      var a' := Flip(a, v);
      ChangePhaseAt(TableOf(W, n), n, v, a);
      TableAt(W, n, a');
      EvalIs(W', a);
      EvalIs(W, a');
      LowFlip(a, v);
      if v < 5 {
        PositionFlip(Low(a), v);
        PhaseBit(WordAt(W, High(a)), v, Position(Low(a)));
      } else {
        ChunkOfFlip(High(a), v - 5);
        MovedWord(W', W, High(a), High(a'), v - 5, Partner);
      }
    }
    SameTable(W', ChangePhase(TableOf(W, n), n, v), n);
  }

  ghost predicate WordsFixed(W': Words, W: Words, v: nat, c: bool) {
    v < 5 && |W'| == |W|
    && forall i | 0 <= i < |W| :: W'[i] == if c then Cofactor1Word(W[i], v) else Cofactor0Word(W[i], v)
  }

  lemma CofactorInWords(W': Words, W: Words, n: nat, v: nat, c: bool)
    requires |W'| == |W| == WordNum(n) && v < n
    requires if v < 5 then WordsFixed(W', W, v, c) else Moved(W', W, Pow2(v - 5), Pow2(n - v), j => Chosen(j, c))
    ensures TableOf(W', n) == Cofactor(TableOf(W, n), n, v, c)
  {
    hide Pow2, EvalWords, Eval, TableOf, Index, Bit, Cofactor0Word, Cofactor1Word, Position, Cleared, Raised, Moved,
      Cofactor, Chosen, Low, High;
    forall a: Assignment | |a| == n ensures EvalWords(W', a) == Eval(Cofactor(TableOf(W, n), n, v, c), a) {
      var a' := a[v := c];
      CofactorAt(TableOf(W, n), n, v, c, a);
      TableAt(W, n, a');
      EvalIs(W', a);
      EvalIs(W, a');
      LowSet(a, v, c);
      if v < 5 {
        PositionSet(Low(a), v, c);
        Cofactor0Bit(WordAt(W, High(a)), v, Position(Low(a)));
        Cofactor1Bit(WordAt(W, High(a)), v, Position(Low(a)));
      } else {
        ChunkOfSet(High(a), v - 5, c);
        MovedWord(W', W, High(a), High(a'), v - 5, j => Chosen(j, c));
      }
    }
    SameTable(W', Cofactor(TableOf(W, n), n, v, c), n);
  }

  ghost predicate WordsSwapped(W': Words, W: Words, v: nat) {
    v < 4 && |W'| == |W| && forall i | 0 <= i < |W| :: W'[i] == SwapWord(W[i], v)
  }

  /** Words 2 k and 2 k + 1 exchange halves. */
  ghost predicate HalvesSwapped(W': Words, W: Words) {
    |W'| == |W| && |W| % 2 == 0
    && forall k: nat | 2 * k < |W| ::
         W'[2 * k] == LowHalves(W[2 * k], W[2 * k + 1]) && W'[2 * k + 1] == HighHalves(W[2 * k], W[2 * k + 1])
  }

  lemma HalvesBit(w0: bv32, w1: bv32, l: Assignment, b: bool)
    requires |l| == 5
    ensures Bit(if b then HighHalves(w0, w1) else LowHalves(w0, w1), Position(l))
         == Bit(if l[4] then w1 else w0, Position(l[4 := b]))
  {
    hide Bit, LowHalves, HighHalves, Position, Cleared, Raised;
    PositionSet(l, 4, b);
    HighestInput(l);
    LowHalvesBit(w0, w1, Position(l));
    HighHalvesBit(w0, w1, Position(l));
  }

  lemma PairIndex(h: Assignment, b: bool)
    requires h != []
    ensures Index(h[0 := b]) == 2 * Index(h[1..]) + (if b then 1 else 0) < Pow2(|h|)
  {
    assert h[0 := b][1..] == h[1..];
  }

  lemma HalvesWord(W': Words, W: Words, h: Assignment, l: Assignment)
    requires |W'| == |W| == Pow2(|h|) && h != [] && |l| == 5 && HalvesSwapped(W', W)
    ensures Bit(WordAt(W', h), Position(l)) == Bit(WordAt(W, h[0 := l[4]]), Position(l[4 := h[0]]))
  {
    hide Bit, LowHalves, HighHalves, Position, Pow2, Index;
    var k := Index(h[1..]);
    assert h[0 := h[0]] == h;
    PairIndex(h, h[0]);
    PairIndex(h, l[4]);
    HalvesBit(W[2 * k], W[2 * k + 1], l, h[0]);
  }

  lemma SwapInWords(W': Words, W: Words, n: nat, v: nat)
    requires |W'| == |W| == WordNum(n) && v + 1 < n
    requires if v < 4 then WordsSwapped(W', W, v)
             else if v == 4 then HalvesSwapped(W', W)
             else Moved(W', W, Pow2(v - 5), Pow2(n - v), Crossed)
    ensures TableOf(W', n) == SwapAdjacentVars(TableOf(W, n), n, v)
  {
    hide Pow2, EvalWords, Eval, TableOf, Index, Bit, SwapWord, Position, Exchanged, Exchange, Moved, HalvesSwapped,
      SwapAdjacentVars, Crossed, Low, High;
    forall a: Assignment | |a| == n ensures EvalWords(W', a) == Eval(SwapAdjacentVars(TableOf(W, n), n, v), a) {
      var a' := Exchange(a, v);
      SwapAdjacentVarsAt(TableOf(W, n), n, v, a);
      TableAt(W, n, a');
      EvalIs(W', a);
      EvalIs(W, a');
      LowExchange(a, v);
      if v < 4 {
        PositionExchange(Low(a), v);
        SwapBit(WordAt(W, High(a)), v, Position(Low(a)));
      } else if v == 4 {
        HalvesWord(W', W, High(a), Low(a));
      } else {
        ChunkOfExchange(High(a), v - 5);
        MovedWord(W', W, High(a), High(a'), v - 5, Crossed);
      }
    }
    SameTable(W', SwapAdjacentVars(TableOf(W, n), n, v), n);
  }

  // ----- the loops

  lemma TimesLess(i: nat, j: nat, s: nat)
    requires s > 0
    ensures Times(i, s) < Times(j, s) <==> i < j
  {
    if i < j {
      ChunkOrder(i, j, s);
    } else if j < i {
      ChunkOrder(j, i, s);
    }
  }

  lemma ChunkCount(n: nat, v: nat)
    requires 5 <= v < n
    ensures WordNum(n) == Times(Pow2(n - v), Pow2(v - 5)) && Pow2(n - v) == 2 * Pow2(n - v - 1)
    ensures v + 1 < n ==> Pow2(n - v) == 4 * Pow2(n - v - 2)
  {
    hide Pow2, Times;
    PowSplit(n - 5, v - 5);
    PowDouble(n - v);
    if v + 1 < n {
      PowDouble(n - v - 1);
    }
  }

  lemma PowDouble(m: nat)
    requires m > 0
    ensures Pow2(m) == 2 * Pow2(m - 1)
  {
  }

  lemma CrossedOf(m: nat)
    ensures Crossed(4 * m) == 4 * m && Crossed(4 * m + 1) == 4 * m + 2
    ensures Crossed(4 * m + 2) == 4 * m + 1 && Crossed(4 * m + 3) == 4 * m + 3
  {
  }

  /** Chunks outside of the changed words stay. */
  lemma ChunkStays(W: Words, W': Words, s: nat, n: nat, i: nat, lo: nat, hi: nat)
    requires Chunked(W, s, n) && |W'| == |W| && lo <= hi <= |W| && W'[..lo] == W[..lo] && W'[hi..] == W[hi..] && i < n
    requires Times(i, s) + s <= lo || hi <= Times(i, s)
    ensures ChunkOf(W', s, n, i) == ChunkOf(W, s, n, i)
  {
    ChunkFits(W, s, n, i);
    forall k | Times(i, s) <= k < Times(i, s) + s ensures W'[k] == W[k] {
      assert if k < lo then W'[..lo][k] == W[..lo][k] else W'[hi..][k - hi] == W[hi..][k - hi];
    }
  }

  /** Copies one chunk. */
  method CopyChunk(pOut: array<bv32>, to: nat, pIn: array<bv32>, from: nat, step: nat)
    requires pIn != pOut && to + step <= pOut.Length && from + step <= pIn.Length
    modifies pOut
    ensures pOut[to..to + step] == pIn[from..from + step]
    ensures pOut[..to] == old(pOut[..to]) && pOut[to + step..] == old(pOut[to + step..])
  {
    for i := 0 to step
      invariant forall k | to <= k < to + i :: pOut[k] == pIn[k - to + from]
      invariant forall k | 0 <= k < pOut.Length && !(to <= k < to + i) :: pOut[k] == old(pOut[k])
    {
      pOut[to + i] := pIn[from + i];
    }
  }

  /** Exchanges two neighbouring chunks. */
  method ExchangeChunks(p: array<bv32>, base: nat, step: nat)
    requires base + 2 * step <= p.Length
    modifies p
    ensures p[base..base + step] == old(p[base + step..base + 2 * step])
    ensures p[base + step..base + 2 * step] == old(p[base..base + step])
    ensures p[..base] == old(p[..base]) && p[base + 2 * step..] == old(p[base + 2 * step..])
  {
    for i := 0 to step
      invariant forall k | base <= k < base + i :: p[k] == old(p[k + step])
      invariant forall k | base + step <= k < base + step + i :: p[k] == old(p[k - step])
      invariant forall k | 0 <= k < p.Length && !(base <= k < base + i) && !(base + step <= k < base + step + i) ::
                  p[k] == old(p[k])
    {
      p[base + i], p[base + step + i] := p[base + step + i], p[base + i];
    }
  }

  /** The first j chunks have been moved. */
  ghost predicate MovedTo(W': Words, W: Words, s: nat, n: nat, f: nat -> nat, j: nat) {
    && Chunked(W', s, n) && Chunked(W, s, n)
    && forall i: nat | i < j && i < n :: f(i) < n && ChunkOf(W', s, n, i) == ChunkOf(W, s, n, f(i))
  }

  /** And the others have not been changed. */
  ghost predicate Untouched(W': Words, W: Words, s: nat, n: nat, j: nat) {
    Chunked(W', s, n) && Chunked(W, s, n) && forall i: nat | j <= i < n :: ChunkOf(W', s, n, i) == ChunkOf(W, s, n, i)
  }

  /** W'' is W' with the two chunks at b exchanged. */
  ghost predicate PairExchanged(W'': Words, W': Words, s: nat, b: nat) {
    && |W''| == |W'| && b + 2 * s <= |W'|
    && W''[b..b + s] == W'[b + s..b + 2 * s] && W''[b + s..b + 2 * s] == W'[b..b + s]
    && W''[..b] == W'[..b] && W''[b + 2 * s..] == W'[b + 2 * s..]
  }

  lemma PairChunks(W'': Words, W': Words, s: nat, n: nat, j: nat)
    requires Chunked(W', s, n) && j + 2 <= n && PairExchanged(W'', W', s, Times(j, s))
    ensures Chunked(W'', s, n)
    ensures ChunkOf(W'', s, n, j) == ChunkOf(W', s, n, j + 1) && ChunkOf(W'', s, n, j + 1) == ChunkOf(W', s, n, j)
    ensures forall i: nat | i < n && i != j && i != j + 1 :: ChunkOf(W'', s, n, i) == ChunkOf(W', s, n, i)
  {
    hide Times;
    NextChunks(j, s);
    forall i: nat | i < n && (i < j || j + 2 <= i) ensures ChunkOf(W'', s, n, i) == ChunkOf(W', s, n, i) {
      if i < j {
        ChunkOrder(i, j, s);
      } else if j + 2 < i {
        ChunkOrder(j + 2, i, s);
      }
      ChunkStays(W', W'', s, n, i, Times(j, s), Times(j + 2, s));
    }
  }

  lemma PairMoved(W'': Words, W': Words, W: Words, s: nat, n: nat, j: nat)
    requires MovedTo(W', W, s, n, Partner, j) && Untouched(W', W, s, n, j) && j + 2 <= n
    requires Partner(j) == j + 1 && Partner(j + 1) == j
    requires PairExchanged(W'', W', s, Times(j, s))
    ensures MovedTo(W'', W, s, n, Partner, j + 2) && Untouched(W'', W, s, n, j + 2)
  {
    hide Times, ChunkOf, PairExchanged, Chunked, Partner;
    PairChunks(W'', W', s, n, j);
  }

  lemma NextChunks(j: nat, s: nat)
    ensures Times(j + 1, s) == Times(j, s) + s && Times(j + 2, s) == Times(j, s) + 2 * s
    ensures Times(j + 3, s) == Times(j, s) + 3 * s && Times(j + 4, s) == Times(j, s) + 4 * s
  {
    ChunkOrder(j, j + 1, s);
    ChunkOrder(j + 1, j + 2, s);
    ChunkOrder(j + 2, j + 3, s);
    ChunkOrder(j + 3, j + 4, s);
  }

  /** Complements input v in place. */
  method ChangePhaseWords(pTruth: array<bv32>, n: nat, v: nat)
    requires pTruth.Length == WordNum(n) && v < n
    modifies pTruth
    ensures TableOf(pTruth[..], n) == ChangePhase(TableOf(old(pTruth[..]), n), n, v)
  {
    hide TableOf, PhaseWord, ChangePhase, Pow2, Times, Moved;
    ghost var W := pTruth[..];
    if v < 5 {
      for i := 0 to pTruth.Length
        invariant forall k | 0 <= k < i :: pTruth[k] == PhaseWord(W[k], v)
        invariant forall k | i <= k < pTruth.Length :: pTruth[k] == W[k]
      {
        pTruth[i] := PhaseWord(pTruth[i], v);
      }
    } else {
      ChunkCount(n, v);
      ExchangePairs(pTruth, Pow2(v - 5), Pow2(n - v - 1));
    }
    PhaseInWords(pTruth[..], W, n, v);
  }

  /** Exchanges the first and the second of every two chunks. */
  method ExchangePairs(p: array<bv32>, step: nat, ghost M: nat)
    requires p.Length == Times(2 * M, step) && step > 0
    modifies p
    ensures Moved(p[..], old(p[..]), step, 2 * M, Partner)
  {
    hide MovedTo, Untouched, Times, Moved, Partner;
    ghost var W, J := p[..], 2 * M;
    StartMoving(W, W, step, J, Partner);
    var base := 0;
    ghost var m := 0;
    while base < p.Length
      invariant m <= M && base == Times(2 * m, step)
      invariant MovedTo(p[..], W, step, J, Partner, 2 * m) && Untouched(p[..], W, step, J, 2 * m)
      decreases M - m
    {
      TimesLess(2 * m, J, step);
      ChunkFits(W, step, J, 2 * m + 1);
      NextChunks(2 * m, step);
      PartnerOf(m);
      ghost var before := p[..];
      ExchangeChunks(p, base, step);
      assert PairExchanged(p[..], before, step, base);
      PairMoved(p[..], before, W, step, J, 2 * m);
      base := base + 2 * step;
      m := m + 1;
    }
    AllMoved(p[..], W, step, J, Partner, 2 * m);
  }

  lemma StartMoving(W': Words, W: Words, s: nat, n: nat, f: nat -> nat)
    requires Chunked(W', s, n) && Chunked(W, s, n)
    ensures MovedTo(W', W, s, n, f, 0) && Times(0, s) == 0 && (W' == W ==> Untouched(W', W, s, n, 0))
  {
  }

  lemma AllMoved(W': Words, W: Words, s: nat, n: nat, f: nat -> nat, j: nat)
    requires MovedTo(W', W, s, n, f, j) && j <= n && s > 0 && Times(j, s) >= |W|
    ensures Moved(W', W, s, n, f)
  {
    TimesLess(j, n, s);
  }

  // ----- copying operations

  /** Chunk k of W' is chunk m of W after the copy, and the other chunks of W' stay. */
  lemma ChunkCopied(W'': Words, W': Words, W: Words, s: nat, n: nat, f: nat -> nat, k: nat)
    requires MovedTo(W', W, s, n, f, k) && k < n && f(k) < n && |W''| == |W'|
    requires Times(k, s) + s <= |W'| && Times(f(k), s) + s <= |W|
    requires var b := Times(k, s);
      W''[b..b + s] == W[Times(f(k), s)..Times(f(k), s) + s] && W''[..b] == W'[..b] && W''[b + s..] == W'[b + s..]
    ensures MovedTo(W'', W, s, n, f, k + 1)
  {
    hide Times;
    forall i: nat | i < k ensures ChunkOf(W'', s, n, i) == ChunkOf(W', s, n, i) {
      ChunkOrder(i, k, s);
      ChunkStays(W', W'', s, n, i, Times(k, s), Times(k, s) + s);
    }
    assert ChunkOf(W'', s, n, k) == ChunkOf(W, s, n, f(k));
  }

  /** Copies chunk f(k) to place k. */
  method MoveChunk(pOut: array<bv32>, pIn: array<bv32>, to: nat, from: nat, step: nat, ghost n: nat,
                   ghost f: nat -> nat, ghost k: nat)
    requires pIn != pOut && MovedTo(pOut[..], pIn[..], step, n, f, k) && k < n && f(k) < n
    requires to == Times(k, step) && from == Times(f(k), step)
    modifies pOut
    ensures MovedTo(pOut[..], pIn[..], step, n, f, k + 1)
  {
    hide Times, MovedTo;
    MovedSizes(pOut[..], pIn[..], step, n, f, k);
    ghost var before := pOut[..];
    CopyChunk(pOut, to, pIn, from, step);
    ChunkCopied(pOut[..], before, pIn[..], step, n, f, k);
  }

  lemma MovedSizes(W': Words, W: Words, s: nat, n: nat, f: nat -> nat, k: nat)
    requires MovedTo(W', W, s, n, f, k) && k < n && f(k) < n
    ensures Times(k, s) + s <= |W'| == |W| && Times(f(k), s) + s <= |W|
  {
    ChunkFits(W', s, n, k);
    ChunkFits(W, s, n, f(k));
  }

  /** Exchanges inputs v and v + 1. */
  method SwapAdjacentWords(pOut: array<bv32>, pIn: array<bv32>, n: nat, v: nat)
    requires pIn.Length == pOut.Length == WordNum(n) && pIn != pOut && v + 1 < n
    modifies pOut
    ensures TableOf(pOut[..], n) == SwapAdjacentVars(TableOf(pIn[..], n), n, v)
  {
    hide TableOf, SwapWord, SwapAdjacentVars, Pow2, MovedTo, Times, Moved, LowHalves, HighHalves;
    if v < 4 {
      for i := 0 to pIn.Length
        invariant forall k | 0 <= k < i :: pOut[k] == SwapWord(pIn[k], v)
      {
        pOut[i] := SwapWord(pIn[i], v);
      }
    } else if v > 4 {
      ChunkCount(n, v);
      SwapChunks(pOut, pIn, Pow2(v - 5), Pow2(n - v - 2));
    } else {
      EvenWords(n);
      var i := 0;
      while i < pIn.Length
        invariant i <= pIn.Length && i % 2 == 0
        invariant forall k: nat | 2 * k < i ::
          pOut[2 * k] == LowHalves(pIn[2 * k], pIn[2 * k + 1])
            && pOut[2 * k + 1] == HighHalves(pIn[2 * k], pIn[2 * k + 1])
      {
        pOut[i] := LowHalves(pIn[i], pIn[i + 1]);
        pOut[i + 1] := HighHalves(pIn[i], pIn[i + 1]);
        i := i + 2;
      }
    }
    SwapInWords(pOut[..], pIn[..], n, v);
  }

  lemma EvenWords(n: nat)
    requires n >= 6
    ensures WordNum(n) % 2 == 0
  {
  }

  /** Exchanges the middle two of every four chunks. */
  method SwapChunks(pOut: array<bv32>, pIn: array<bv32>, step: nat, ghost M: nat)
    requires pIn.Length == pOut.Length == Times(4 * M, step) && pIn != pOut && step > 0
    modifies pOut
    ensures Moved(pOut[..], pIn[..], step, 4 * M, Crossed)
  {
    hide MovedTo, Times, Moved, Crossed;
    var base := 0;
    ghost var m, J := 0, 4 * M;
    StartMoving(pOut[..], pIn[..], step, J, Crossed);
    while base < pIn.Length
      invariant m <= M && base == Times(4 * m, step)
      invariant MovedTo(pOut[..], pIn[..], step, J, Crossed, 4 * m)
      decreases M - m
    {
      TimesLess(4 * m, J, step);
      NextChunks(4 * m, step);
      CrossedOf(m);
      MoveChunk(pOut, pIn, base, base, step, J, Crossed, 4 * m);
      MoveChunk(pOut, pIn, base + step, base + 2 * step, step, J, Crossed, 4 * m + 1);
      MoveChunk(pOut, pIn, base + 2 * step, base + step, step, J, Crossed, 4 * m + 2);
      MoveChunk(pOut, pIn, base + 3 * step, base + 3 * step, step, J, Crossed, 4 * m + 3);
      base := base + 4 * step;
      m := m + 1;
    }
    AllMoved(pOut[..], pIn[..], step, J, Crossed, 4 * m);
  }

  /** Fixes input v to c: the routines for the negative and for the positive cofactor. */
  method CofactorWords(pOut: array<bv32>, pIn: array<bv32>, n: nat, v: nat, c: bool)
    requires pIn.Length == pOut.Length == WordNum(n) && pIn != pOut && v < n
    modifies pOut
    ensures TableOf(pOut[..], n) == Cofactor(TableOf(pIn[..], n), n, v, c)
  {
    hide TableOf, Cofactor0Word, Cofactor1Word, Cofactor, Pow2, MovedTo, Times, Moved;
    if v < 5 {
      for i := 0 to pIn.Length
        invariant forall k | 0 <= k < i :: pOut[k] == if c then Cofactor1Word(pIn[k], v) else Cofactor0Word(pIn[k], v)
      {
        pOut[i] := if c then Cofactor1Word(pIn[i], v) else Cofactor0Word(pIn[i], v);
      }
    } else {
      ChunkCount(n, v);
      DoubleChunks(pOut, pIn, Pow2(v - 5), Pow2(n - v - 1), c);
    }
    CofactorInWords(pOut[..], pIn[..], n, v, c);
  }

  /** Doubles the first or the second of every two chunks. */
  method DoubleChunks(pOut: array<bv32>, pIn: array<bv32>, step: nat, ghost M: nat, c: bool)
    requires pIn.Length == pOut.Length == Times(2 * M, step) && pIn != pOut && step > 0
    modifies pOut
    ensures Moved(pOut[..], pIn[..], step, 2 * M, j => Chosen(j, c))
  {
    hide MovedTo, Times, Moved, Chosen;
    var base := 0;
    ghost var m, J, f := 0, 2 * M, (i: nat) => Chosen(i, c);
    StartMoving(pOut[..], pIn[..], step, J, f);
    while base < pIn.Length
      invariant m <= M && base == Times(2 * m, step)
      invariant MovedTo(pOut[..], pIn[..], step, J, f, 2 * m)
      decreases M - m
    {
      TimesLess(2 * m, J, step);
      NextChunks(2 * m, step);
      ChosenOf(m, c);
      var from := if c then base + step else base;
      MoveChunk(pOut, pIn, base, from, step, J, f, 2 * m);
      MoveChunk(pOut, pIn, base + step, from, step, J, f, 2 * m + 1);
      base := base + 2 * step;
      m := m + 1;
    }
    AllMoved(pOut[..], pIn[..], step, J, f, 2 * m);
    SameFunction(pOut[..], pIn[..], step, J, f, c);
  }

  lemma SameFunction(W': Words, W: Words, s: nat, n: nat, f: nat -> nat, c: bool)
    requires Moved(W', W, s, n, f) && forall j: nat :: f(j) == Chosen(j, c)
    ensures Moved(W', W, s, n, j => Chosen(j, c))
  {
    hide ChunkOf;
  }
}
