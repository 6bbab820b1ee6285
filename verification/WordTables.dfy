/** Truth tables as arrays of 32-bit words (src/bool/kit/kitTruth.c): the operations with masks, shifts and block copies
    compute the operations on tables. */
module WordTables {
  import opened TruthTables
  import opened WordBits

  type Words = seq<bv32>

  function WordNum(n: nat): (k: nat)
    ensures k > 0
  {
    if n <= 5 then 1 else Pow2(n - 5)
  }

  /** The inputs that select the bit of a word, and those that select the word. */
  function Low(a: Assignment): (r: Assignment)
    ensures |r| == 5
  {
    seq(5, i requires 0 <= i < 5 => i < |a| && a[i])
  }

  function High(a: Assignment): (r: Assignment)
    ensures |r| == if |a| <= 5 then 0 else |a| - 5
  {
    if |a| <= 5 then [] else a[5..]
  }

  /** The word that the high inputs select. */
  function WordAt(W: Words, h: Assignment): bv32
    requires |W| == Pow2(|h|)
  {
    W[Index(h)]
  }

  lemma WordNumOf(a: Assignment)
    ensures WordNum(|a|) == Pow2(|High(a)|)
  {
  }

  function EvalWords(W: Words, a: Assignment): bool
    requires |W| == WordNum(|a|)
  {
    WordNumOf(a);
    Bit(WordAt(W, High(a)), Position(Low(a)))
  }

  /** The table that the words hold. */
  function TableOf(W: Words, n: nat): (t: Table)
    requires |W| == WordNum(n)
    ensures |t| == Pow2(n)
  {
    Tabulate(n, (a: Assignment) requires |a| == n => EvalWords(W, a))
  }

  lemma TableAt(W: Words, n: nat, a: Assignment)
    requires |W| == WordNum(n) && |a| == n
    ensures Eval(TableOf(W, n), a) == EvalWords(W, a)
  {
    EvalTabulate(n, (b: Assignment) requires |b| == n => EvalWords(W, b), a);
  }

  // ----- bits and words

  function Times(a: nat, b: nat): (r: nat) {
    a * b
  }

  lemma TimesDouble(p: nat, k: nat)
    ensures Times(2 * p, k) == 2 * Times(p, k) && Times(1, k) == k
  {
  }

  lemma {:induction false} IndexSplit(a: Assignment, u: nat)
    requires u <= |a|
    ensures Index(a) == Index(a[..u]) + Times(Pow2(u), Index(a[u..]))
  {
    hide Times;
    if u == 0 {
      assert a[..0] == [] && a[0..] == a;
      TimesDouble(1, Index(a));
    } else {
      IndexSplit(a[1..], u - 1);
      assert a[1..][..u - 1] == a[..u][1..] && a[1..][u - 1..] == a[u..];
      TimesDouble(Pow2(u - 1), Index(a[u..]));
    }
  }

  lemma IndexOfOne(g: Assignment)
    requires g != []
    ensures Index(g) == (if g[0] then 1 else 0) + 2 * Index(g[1..])
  {
  }

  lemma IndexOfTwo(g: Assignment)
    requires |g| >= 2
    ensures Index(g) == (if g[0] then 1 else 0) + (if g[1] then 2 else 0) + 4 * Index(g[2..])
  {
    assert g[1..][1..] == g[2..] && g[1..][0] == g[1];
  }

  lemma PositionIsIndex(a: Assignment)
    requires |a| == 5
    ensures Position(a) as int == Index(a)
  {
    IndexOfFive(a);
  }

  lemma IndexOfFive(a: Assignment)
    requires |a| == 5
    ensures Index(a) == (if a[0] then 1 else 0) + (if a[1] then 2 else 0) + (if a[2] then 4 else 0)
                     + (if a[3] then 8 else 0) + (if a[4] then 16 else 0)
  {
    assert Index(a[4..][1..]) == 0;
    hide Index;
    IndexOfTwo(a);
    IndexOfTwo(a[2..]);
    assert a[2..][2..] == a[4..] && a[2..][0] == a[2] && a[2..][1] == a[3];
    IndexOfOne(a[4..]);
  }

  lemma IndexFromFive(a: Assignment)
    requires |a| >= 5
    ensures Index(a) == Index(a[..5]) + 32 * Index(a[5..])
  {
    hide Index, Pow2;
    IndexOfFive(a[..5]);
    IndexOfTwo(a);
    IndexOfTwo(a[2..]);
    assert a[2..][2..] == a[4..] && a[2..][0] == a[2] && a[2..][1] == a[3];
    IndexOfOne(a[4..]);
    assert a[4..][1..] == a[5..];
  }

  /** The bits of the table follow each other in the words: bit k is bit k % 32 of word k / 32. */
  lemma Layout(W: Words, n: nat, a: Assignment)
    requires |W| == WordNum(n) && |a| == n >= 5
    ensures Index(a) == 32 * Index(High(a)) + Position(Low(a)) as int
    ensures Index(High(a)) < |W| && TableOf(W, n)[Index(a)] == Bit(W[Index(High(a))], Position(Low(a)))
  {
    assert Low(a) == a[..5] && High(a) == a[5..];
    TableAt(W, n, a);
    WordNumOf(a);
    hide Pow2, Index, Position, TableOf, Low, High;
    IndexFromFive(a);
    PositionIsIndex(Low(a));
  }

  // ----- chunks of 2^u words

  lemma ChunkOrder(i: nat, j: nat, s: nat)
    requires i < j
    ensures Times(i, s) + s == Times(i + 1, s) <= Times(j, s)
  {
    assert j * s == (i + 1) * s + (j - i - 1) * s;
    NotNegative(j - i - 1, s);
  }

  lemma NotNegative(a: nat, b: nat)
    ensures 0 <= a * b
  {
  }

  /** Chunk j of size s. */
  function Chunk(W: Words, s: nat, j: nat): (c: Words)
    requires Times(j, s) + s <= |W|
    ensures |c| == s
  {
    W[Times(j, s)..Times(j, s) + s]
  }

  /** W is n chunks. */
  ghost predicate Chunked(W: Words, s: nat, n: nat) {
    |W| == Times(n, s)
  }

  lemma ChunkFits(W: Words, s: nat, n: nat, j: nat)
    requires Chunked(W, s, n) && j < n
    ensures Times(j, s) + s <= |W|
  {
    ChunkOrder(j, n, s);
  }

  function ChunkOf(W: Words, s: nat, n: nat, j: nat): (c: Words)
    requires Chunked(W, s, n) && j < n
    ensures |c| == s
  {
    ChunkFits(W, s, n, j);
    Chunk(W, s, j)
  }

  lemma {:induction false} PowSplit(m: nat, u: nat)
    requires u <= m
    ensures Pow2(m) == Times(Pow2(m - u), Pow2(u))
  {
    if u < m {
      PowSplit(m - 1, u);
      TimesDouble(Pow2(m - 1 - u), Pow2(u));
    } else {
      assert Times(1, Pow2(u)) == Pow2(u);
    }
  }

  /** A word is in the chunk that the inputs from u on select, at the place that the others select. */
  lemma WordInChunk(W: Words, h: Assignment, u: nat)
    requires |W| == Pow2(|h|) && u <= |h|
    ensures Chunked(W, Pow2(u), Pow2(|h| - u))
    ensures WordAt(W, h) == ChunkOf(W, Pow2(u), Pow2(|h| - u), Index(h[u..]))[Index(h[..u])]
  {
    hide Pow2, Index, Times;
    PowSplit(|h|, u);
    IndexSplit(h, u);
    var s, j := Pow2(u), Index(h[u..]);
    TimesCommute(s, j);
    ChunkFits(W, s, Pow2(|h| - u), j);
  }

  lemma TimesCommute(a: nat, b: nat)
    ensures Times(a, b) == Times(b, a)
  {
  }

  // ----- chunks that move

  function Partner(j: nat): nat {
    if j % 2 == 0 then j + 1 else j - 1
  }

  function Crossed(j: nat): nat {
    if j % 4 == 1 then j + 1 else if j % 4 == 2 then j - 1 else j
  }

  function Chosen(j: nat, c: bool): nat {
    j - j % 2 + if c then 1 else 0
  }

  lemma PartnerOf(m: nat)
    ensures Partner(2 * m) == 2 * m + 1 && Partner(2 * m + 1) == 2 * m
  {
  }

  lemma ChosenOf(m: nat, c: bool)
    ensures Chosen(2 * m, c) == Chosen(2 * m + 1, c) == 2 * m + if c then 1 else 0
  {
  }

  lemma ChunkOfFlip(h: Assignment, u: nat)
    requires u < |h|
    ensures Flip(h, u)[..u] == h[..u] && Index(Flip(h, u)[u..]) == Partner(Index(h[u..]))
  {
    var g, g' := h[u..], Flip(h, u)[u..];
    IndexOfOne(g);
    IndexOfOne(g');
    hide Index, Partner;
    PartnerOf(Index(g[1..]));
    assert g'[1..] == g[1..] && g'[0] == !g[0];
  }

  lemma ChunkOfSet(h: Assignment, u: nat, c: bool)
    requires u < |h|
    ensures h[u := c][..u] == h[..u] && Index(h[u := c][u..]) == Chosen(Index(h[u..]), c)
  {
    var g, g' := h[u..], h[u := c][u..];
    IndexOfOne(g);
    IndexOfOne(g');
    hide Index, Chosen;
    ChosenOf(Index(g[1..]), c);
    assert g'[1..] == g[1..] && g'[0] == c;
  }

  lemma ChunkOfExchange(h: Assignment, u: nat)
    requires u + 1 < |h|
    ensures Exchange(h, u)[..u] == h[..u] && Index(Exchange(h, u)[u..]) == Crossed(Index(h[u..]))
  {
    var g, g' := h[u..], Exchange(h, u)[u..];
    IndexOfTwo(g);
    IndexOfTwo(g');
    hide Index, Pow2, Crossed;
    assert g'[2..] == g[2..] && g'[0] == g[1] && g'[1] == g[0];
    CrossedBits(g[0], g[1], Index(g[2..]));
  }

  lemma CrossedBits(b0: bool, b1: bool, k: nat)
    ensures Crossed((if b0 then 1 else 0) + (if b1 then 2 else 0) + 4 * k)
         == (if b1 then 1 else 0) + (if b0 then 2 else 0) + 4 * k
  {
  }

  // ----- which inputs an operation touches

  lemma LowFlip(a: Assignment, v: nat)
    requires v < |a|
    ensures if v < 5 then Low(Flip(a, v)) == Flip(Low(a), v) && High(Flip(a, v)) == High(a)
            else Low(Flip(a, v)) == Low(a) && High(Flip(a, v)) == Flip(High(a), v - 5)
  {
  }

  lemma LowSet(a: Assignment, v: nat, c: bool)
    requires v < |a|
    ensures if v < 5 then Low(a[v := c]) == Low(a)[v := c] && High(a[v := c]) == High(a)
            else Low(a[v := c]) == Low(a) && High(a[v := c]) == High(a)[v - 5 := c]
  {
  }

  lemma LowExchange(a: Assignment, v: nat)
    requires v + 1 < |a|
    ensures if v < 4 then Low(Exchange(a, v)) == Exchange(Low(a), v) && High(Exchange(a, v)) == High(a)
            else if v > 4 then Low(Exchange(a, v)) == Low(a) && High(Exchange(a, v)) == Exchange(High(a), v - 5)
            else Low(Exchange(a, v)) == Low(a)[4 := High(a)[0]] && High(Exchange(a, v)) == High(a)[0 := Low(a)[4]]
  {
  }
}
