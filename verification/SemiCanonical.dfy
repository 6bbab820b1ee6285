/** The semi-canonical form of a truth table (src/aig/aig/aigCanon.c): every input in the phase with the smaller
    signature first, and the inputs sorted by that signature with adjacent exchanges. */
module SemiCanonical {
  import opened TruthTables

  // ----- the order of signatures

  /** The four bytes of an integer in memory, least significant first. */
  function Bytes(v: nat): (b: seq<nat>)
    ensures |b| == 4 && v == b[0] + 0x100 * b[1] + 0x1_0000 * b[2] + 0x100_0000 * b[3]
    ensures b[0] < 256 && b[1] < 256 && b[2] < 256 && (v < 0x1_0000_0000 ==> b[3] < 256)
  {
    [v % 256, v / 256 % 256, v / 256 / 256 % 256, v / 256 / 256 / 256]
  }

  /** The sign of a comparison of two byte strings, first difference first. */
  function MemCmp(a: seq<nat>, b: seq<nat>): int
    requires |a| == |b|
  {
    if a == [] then 0 else if a[0] != b[0] then a[0] - b[0] else MemCmp(a[1..], b[1..])
  }

  /** The comparison of signatures: of the bytes of the counts, which is not the order of the numbers. */
  function CompareSigs(x: nat, y: nat): int {
    MemCmp(Bytes(x), Bytes(y))
  }

  predicate SigLeq(x: nat, y: nat) {
    CompareSigs(x, y) <= 0
  }

  lemma {:induction false} MemCmpOrder(a: seq<nat>, b: seq<nat>, c: seq<nat>)
    requires |a| == |b| == |c|
    ensures MemCmp(a, b) == 0 <==> a == b
    ensures MemCmp(a, b) < 0 <==> MemCmp(b, a) > 0
    ensures MemCmp(a, b) <= 0 && MemCmp(b, c) <= 0 ==> MemCmp(a, c) <= 0
  {
    if a != [] {
      MemCmpOrder(a[1..], b[1..], c[1..]);
      assert a == [a[0]] + a[1..] && b == [b[0]] + b[1..];
    }
  }

  /** The byte order of the counts is a total order, and only equal counts compare as equal. */
  lemma SigOrder(x: nat, y: nat, z: nat)
    ensures CompareSigs(x, y) == 0 <==> x == y
    ensures SigLeq(x, y) || SigLeq(y, x)
    ensures SigLeq(x, y) && SigLeq(y, x) ==> x == y
    ensures SigLeq(x, y) && SigLeq(y, z) ==> SigLeq(x, z)
  {
    hide MemCmp;
    MemCmpOrder(Bytes(x), Bytes(y), Bytes(z));
    MemCmpOrder(Bytes(y), Bytes(x), Bytes(z));
    if Bytes(x) == Bytes(y) {
      BytesInjective(x, y);
    }
  }

  lemma MemCmpStep(a: seq<nat>, b: seq<nat>, k: nat)
    requires |a| == |b| && k < |a|
    ensures MemCmp(a[k..], b[k..]) == if a[k] != b[k] then a[k] - b[k] else MemCmp(a[k + 1..], b[k + 1..])
  {
    assert a[k..][1..] == a[k + 1..] && b[k..][1..] == b[k + 1..];
  }

  lemma CompareOneByte(x: nat, y: nat)
    requires x < 256 && y < 256
    ensures CompareSigs(x, y) == x - y
  {
    hide MemCmp;
    var a, b := Bytes(x), Bytes(y);
    assert a == [x, 0, 0, 0] && b == [y, 0, 0, 0];
    MemCmpStep(a, b, 0);
    MemCmpStep(a, b, 1);
    MemCmpStep(a, b, 2);
    MemCmpStep(a, b, 3);
    MemCmpOrder(a[4..], b[4..], b[4..]);
    assert a[0..] == a && b[0..] == b;
  }

  /** The order of the bytes is the order of the numbers exactly when the counts fit in one byte: 256 compares
      below 1. */
  lemma SigOrderIsNumericIff(m: nat)
    ensures (forall x: nat, y: nat | x <= m && y <= m :: SigLeq(x, y) <==> x <= y) <==> m < 256
  {
    hide MemCmp, Bytes;
    if m < 256 {
      forall x: nat, y: nat | x <= m && y <= m ensures SigLeq(x, y) <==> x <= y {
        CompareOneByte(x, y);
      }
    } else {
      assert SigLeq(256, 1) by { CompareTwoBytes(); }
    }
  }

  lemma CompareTwoBytes()
    ensures CompareSigs(256, 1) == -1
  {
    assert Bytes(256)[0] == 0 && Bytes(1)[0] == 1;
  }

  lemma BytesInjective(x: nat, y: nat)
    requires Bytes(x) == Bytes(y)
    ensures x == y
  {
    assert Bytes(x)[0] == Bytes(y)[0] && Bytes(x)[1] == Bytes(y)[1];
    assert Bytes(x)[2] == Bytes(y)[2] && Bytes(x)[3] == Bytes(y)[3];
    hide Bytes;
    LastByte(x / 256 / 256, y / 256 / 256);
    LastByte(x / 256, y / 256);
    LastByte(x, y);
  }

  lemma LastByte(x: nat, y: nat)
    requires x % 256 == y % 256 && x / 256 == y / 256
    ensures x == y
  {
  }

  // ----- inversions

  type Order = (nat, nat) -> bool

  /** The entries of t that a sort must move before x. */
  ghost function Below(t: seq<nat>, x: nat, leq: Order): nat {
    if t == [] then 0 else (if leq(x, t[0]) then 0 else 1) + Below(t[1..], x, leq)
  }

  /** The number of pairs that are out of order. */
  ghost function Inversions(s: seq<nat>, leq: Order): nat {
    if s == [] then 0 else Below(s[1..], s[0], leq) + Inversions(s[1..], leq)
  }

  lemma {:induction false} BelowExchange(t: seq<nat>, i: nat, x: nat, leq: Order)
    requires i + 1 < |t|
    ensures Below(Exchange(t, i), x, leq) == Below(t, x, leq)
  {
    var u := Exchange(t, i);
    if i == 0 {
      assert u[1..][1..] == t[1..][1..];
    } else {
      assert u[1..] == Exchange(t[1..], i - 1);
      BelowExchange(t[1..], i - 1, x, leq);
    }
  }

  /** Exchanging two adjacent entries that are out of order removes one inversion. */
  lemma {:induction false} InversionsExchange(s: seq<nat>, i: nat, leq: Order)
    requires i + 1 < |s| && !leq(s[i], s[i + 1]) && leq(s[i + 1], s[i])
    ensures Inversions(Exchange(s, i), leq) == Inversions(s, leq) - 1
  {
    var u := Exchange(s, i);
    if i == 0 {
      assert u[1..][1..] == s[1..][1..];
      assert u[1..] == [s[0]] + s[2..] && s[1..] == [s[1]] + s[2..];
      assert Below(s[1..], s[0], leq) == 1 + Below(s[2..], s[0], leq);
      assert Below(u[1..], u[0], leq) == Below(s[2..], s[1], leq);
    } else {
      assert u[1..] == Exchange(s[1..], i - 1);
      BelowExchange(s[1..], i - 1, s[0], leq);
      InversionsExchange(s[1..], i - 1, leq);
    }
  }

  // ----- signatures and the operations

  /** sigs holds, at 2v and 2v + 1, the counts of the cofactors of input v. */
  ghost predicate SigsOf(sigs: seq<nat>, t: Table, n: nat) {
    && |sigs| == 2 * n && |t| == Pow2(n)
    && (forall v | 0 <= v < n :: sigs[2 * v] == CofactorOnes(t, n, v, false))
    && (forall v | 0 <= v < n :: sigs[2 * v + 1] == CofactorOnes(t, n, v, true))
  }

  function NoFlips(n: nat): (m: seq<bool>)
    ensures |m| == n
  {
    seq(n, _ => false)
  }

  /** Complementing the inputs in the mask. */
  function PhaseTransform(mask: seq<bool>): Transform {
    Transform(Identity(|mask|), mask)
  }

  function PermTransform(p: seq<nat>): Transform {
    Transform(p, NoFlips(|p|))
  }

  lemma ActPhase(mask: seq<bool>, a: Assignment, i: nat)
    requires i < |a| == |mask|
    ensures Act(PhaseTransform(mask), |a|, a)[i] == (a[i] != mask[i])
  {
  }

  lemma ActPerm(p: seq<nat>, a: Assignment, i: nat)
    requires i < |a| && IsPermutation(p, |a|)
    ensures Act(PermTransform(p), |a|, a)[i] == a[p[i]]
  {
  }

  lemma ActPhaseFlip(mask: seq<bool>, a: Assignment, v: nat)
    requires v < |a| == |mask|
    ensures Act(PhaseTransform(Flip(mask, v)), |a|, a) == Act(PhaseTransform(mask), |a|, Flip(a, v))
  {
    hide Act, PhaseTransform;
    PhaseIsTransform(mask);
    PhaseIsTransform(Flip(mask, v));
    forall i | 0 <= i < |a|
      ensures Act(PhaseTransform(Flip(mask, v)), |a|, a)[i] == Act(PhaseTransform(mask), |a|, Flip(a, v))[i]
    {
      ActPhase(Flip(mask, v), a, i);
      ActPhase(mask, Flip(a, v), i);
    }
  }

  lemma ActPermExchange(p: seq<nat>, a: Assignment, i: nat)
    requires i + 1 < |a| && IsPermutation(p, |a|)
    ensures IsPermutation(Exchange(p, i), |a|)
    ensures Act(PermTransform(Exchange(p, i)), |a|, a) == Exchange(Act(PermTransform(p), |a|, a), i)
  {
    ExchangePermutation(p, |a|, i);
    PermIsTransform(p, |a|);
    PermIsTransform(Exchange(p, i), |a|);
    hide Act, PermTransform;
    forall j | 0 <= j < |a|
      ensures Act(PermTransform(Exchange(p, i)), |a|, a)[j] == Exchange(Act(PermTransform(p), |a|, a), i)[j]
    {
      ActPerm(Exchange(p, i), a, j);
      ActPerm(p, a, if j == i then i + 1 else if j == i + 1 then i else j);
    }
  }

  lemma ActIdentity(a: Assignment)
    ensures PermTransform(Identity(|a|)) == PhaseTransform(NoFlips(|a|))
    ensures Act(PermTransform(Identity(|a|)), |a|, a) == a
  {
  }

  lemma ExchangeTwice(a: Assignment, i: nat)
    requires i + 1 < |a|
    ensures Exchange(Exchange(a, i), i) == a
  {
  }

  lemma ChangePhaseRelated(t: Table, n: nat, v: nat)
    requires |t| == Pow2(n) && v < n
    ensures Related(t, ChangePhase(t, n, v), n, PhaseTransform(Flip(NoFlips(n), v)))
  {
    hide Pow2, Eval, Agree, ChangePhase, Act, PhaseTransform, PermTransform;
    var x, u := PhaseTransform(Flip(NoFlips(n), v)), ChangePhase(t, n, v);
    PhaseIsTransform(Flip(NoFlips(n), v));
    forall a: Assignment | |a| == n ensures Eval(u, a) == Eval(t, Act(x, n, a)) {
      ChangePhaseAt(t, n, v, a);
      ActPhaseFlip(NoFlips(n), a, v);
      ActIdentity(Flip(a, v));
    }
    AgreeIntro(t, u, n, x);
  }

  lemma PhaseIsTransform(mask: seq<bool>)
    ensures ValidTransform(PhaseTransform(mask), |mask|)
  {
  }

  lemma PermIsTransform(p: seq<nat>, n: nat)
    requires IsPermutation(p, n)
    ensures ValidTransform(PermTransform(p), n)
  {
  }

  lemma SwapRelated(t: Table, n: nat, i: nat)
    requires |t| == Pow2(n) && i + 1 < n
    ensures IsPermutation(Exchange(Identity(n), i), n)
    ensures Related(t, SwapAdjacentVars(t, n, i), n, PermTransform(Exchange(Identity(n), i)))
  {
    hide Pow2, Eval, Agree, SwapAdjacentVars, Act, PermTransform, PhaseTransform;
    var p, u := Exchange(Identity(n), i), SwapAdjacentVars(t, n, i);
    ExchangePermutation(Identity(n), n, i);
    PermIsTransform(p, n);
    forall a: Assignment | |a| == n ensures Eval(u, a) == Eval(t, Act(PermTransform(p), n, a)) {
      SwapAdjacentVarsAt(t, n, i, a);
      ActPermExchange(Identity(n), a, i);
      ActIdentity(a);
    }
    AgreeIntro(t, u, n, PermTransform(p));
  }

  /** Complementing input i exchanges its two signatures and leaves the others alone. */
  lemma SigsAfterPhase(sigs: seq<nat>, t: Table, n: nat, i: nat)
    requires SigsOf(sigs, t, n) && i < n
    ensures SigsOf(Exchange(sigs, 2 * i), ChangePhase(t, n, i), n)
  {
    hide Pow2, CofactorOnes, Related, ChangePhase;
    var x := PhaseTransform(Flip(NoFlips(n), i));
    ChangePhaseRelated(t, n, i);
    forall v, c | 0 <= v < n
      ensures CofactorOnes(ChangePhase(t, n, i), n, v, c) == CofactorOnes(t, n, v, c != (v == i))
    {
      CofactorOnesMove(t, ChangePhase(t, n, i), n, x, v, c);
    }
  }

  /** The signature array with the pairs of inputs i and i + 1 exchanged. */
  function ExchangePairs(sigs: seq<nat>, i: nat): (r: seq<nat>)
    requires 2 * i + 3 < |sigs|
    ensures |r| == |sigs|
  {
    sigs[2 * i := sigs[2 * i + 2]][2 * i + 2 := sigs[2 * i]][2 * i + 1 := sigs[2 * i + 3]][2 * i + 3 := sigs[2 * i + 1]]
  }

  /** The input that input v is after the exchange of i and i + 1. */
  function Swapped(i: nat, v: nat): nat {
    if v == i then i + 1 else if v == i + 1 then i else v
  }

  lemma CofactorOnesAfterSwap(t: Table, n: nat, i: nat, v: nat, c: bool)
    requires |t| == Pow2(n) && i + 1 < n && v < n
    ensures CofactorOnes(SwapAdjacentVars(t, n, i), n, v, c) == CofactorOnes(t, n, Swapped(i, v), c)
  {
    hide Pow2, CofactorOnes, Related, SwapAdjacentVars;
    var p := Exchange(Identity(n), i);
    SwapRelated(t, n, i);
    CofactorOnesMove(t, SwapAdjacentVars(t, n, i), n, PermTransform(p), Swapped(i, v), c);
  }

  lemma SigsAfterSwap(sigs: seq<nat>, t: Table, n: nat, i: nat)
    requires SigsOf(sigs, t, n) && i + 1 < n
    ensures SigsOf(ExchangePairs(sigs, i), SwapAdjacentVars(t, n, i), n)
  {
    hide Pow2, CofactorOnes, SwapAdjacentVars;
    var r, u := ExchangePairs(sigs, i), SwapAdjacentVars(t, n, i);
    forall v | 0 <= v < n ensures r[2 * v] == CofactorOnes(u, n, v, false) {
      CofactorOnesAfterSwap(t, n, i, v, false);
      assert r[2 * v] == sigs[2 * Swapped(i, v)];
    }
    forall v | 0 <= v < n ensures r[2 * v + 1] == CofactorOnes(u, n, v, true) {
      CofactorOnesAfterSwap(t, n, i, v, true);
      assert r[2 * v + 1] == sigs[2 * Swapped(i, v) + 1];
    }
  }

  /** The signatures by which the inputs are sorted. */
  function Keys(sigs: seq<nat>): (k: seq<nat>)
    ensures |k| == |sigs| / 2
  {
    seq(|sigs| / 2, v requires 0 <= v < |sigs| / 2 => sigs[2 * v])
  }

  lemma KeysAfterSwap(sigs: seq<nat>, n: nat, i: nat)
    requires |sigs| == 2 * n && i + 1 < n
    ensures Keys(ExchangePairs(sigs, i)) == Exchange(Keys(sigs), i)
  {
  }

  /** An exchange of inputs i and i + 1 is recorded by the same exchange in the permutation. */
  lemma TrackSwap(t: Table, g: Table, n: nat, p: seq<nat>, i: nat)
    requires IsPermutation(p, n) && Related(t, g, n, PermTransform(p)) && i + 1 < n
    ensures IsPermutation(Exchange(p, i), n)
    ensures Related(SwapAdjacentVars(t, n, i), g, n, PermTransform(Exchange(p, i)))
  {
    hide Pow2, Eval, Agree, SwapAdjacentVars, Act, PermTransform, Exchange;
    var u, q := SwapAdjacentVars(t, n, i), Exchange(p, i);
    ExchangePermutation(p, n, i);
    PermIsTransform(q, n);
    forall b: Assignment | |b| == n ensures Eval(g, b) == Eval(u, Act(PermTransform(q), n, b)) {
      var a := Act(PermTransform(p), n, b);
      RelatedAt(t, g, n, PermTransform(p), b);
      ActPermExchange(p, b, i);
      SwapAdjacentVarsAt(t, n, i, Exchange(a, i));
      ExchangeTwice(a, i);
    }
    AgreeIntro(u, g, n, PermTransform(q));
  }

  lemma ExchangePermutation(p: seq<nat>, n: nat, i: nat)
    requires IsPermutation(p, n) && i + 1 < n
    ensures IsPermutation(Exchange(p, i), n)
  {
  }

  /** A phase change of input v is recorded in the mask. */
  lemma TrackPhase(f: Table, t: Table, n: nat, mask: seq<bool>, v: nat)
    requires |mask| == n && v < n && Related(f, t, n, PhaseTransform(mask))
    ensures Related(f, ChangePhase(t, n, v), n, PhaseTransform(Flip(mask, v)))
  {
    hide Pow2, Eval, Agree, ChangePhase, Act, PhaseTransform, Flip;
    var u, m := ChangePhase(t, n, v), Flip(mask, v);
    PhaseIsTransform(m);
    forall a: Assignment | |a| == n ensures Eval(u, a) == Eval(f, Act(PhaseTransform(m), n, a)) {
      ChangePhaseAt(t, n, v, a);
      RelatedAt(f, t, n, PhaseTransform(mask), Flip(a, v));
      ActPhaseFlip(mask, a, v);
    }
    AgreeIntro(f, u, n, PhaseTransform(m));
  }

  lemma RelatedIdentity(t: Table, n: nat)
    requires |t| == Pow2(n)
    ensures PermTransform(Identity(n)) == PhaseTransform(NoFlips(n))
    ensures Related(t, t, n, PermTransform(Identity(n)))
  {
    hide Pow2, Eval, Agree, Act;
    forall a: Assignment | |a| == n ensures Act(PermTransform(Identity(n)), n, a) == a {
      ActIdentity(a);
    }
    AgreeIntro(t, t, n, PermTransform(Identity(n)));
  }

  lemma RelatedByIdentity(t: Table, u: Table, n: nat)
    requires Related(t, u, n, PermTransform(Identity(n)))
    ensures t == u
  {
    hide Pow2, Eval, Agree, Act;
    forall a: Assignment | |a| == n ensures Eval(t, a) == Eval(u, a) {
      ActIdentity(a);
      RelatedAt(t, u, n, PermTransform(Identity(n)), a);
    }
    Extensional(t, u, n);
  }

  // ----- canonicity

  ghost predicate Phased(t: Table, n: nat)
    requires |t| == Pow2(n)
  {
    forall v | 0 <= v < n :: SigLeq(CofactorOnes(t, n, v, false), CofactorOnes(t, n, v, true))
  }

  ghost predicate Sorted(s: seq<nat>) {
    forall i, j | 0 <= i < j < |s| :: SigLeq(s[i], s[j])
  }

  ghost function NegativeOnes(t: Table, n: nat): (s: seq<nat>)
    requires |t| == Pow2(n)
    ensures |s| == n
  {
    seq(n, v requires 0 <= v < n => CofactorOnes(t, n, v, false))
  }

  /** What the semi-canonical form guarantees: phases by signature, inputs sorted by signature. */
  ghost predicate IsSemiCanonical(t: Table, n: nat) {
    |t| == Pow2(n) && Phased(t, n) && Sorted(NegativeOnes(t, n))
  }

  /** The uniqueness test: no two adjacent inputs have equal signatures. */
  ghost predicate AdjacentDiffer(s: seq<nat>) {
    forall i | 0 <= i < |s| - 1 :: s[i] != s[i + 1]
  }

  /** No input has equally many ones in its two cofactors. */
  ghost predicate NoPhaseTies(t: Table, n: nat)
    requires |t| == Pow2(n)
  {
    forall v | 0 <= v < n :: CofactorOnes(t, n, v, false) != CofactorOnes(t, n, v, true)
  }

  /** A permutation that keeps a strictly sorted sequence sorted is the identity. */
  lemma {:induction false} IncreasingIsIdentity(p: seq<nat>, n: nat, i: nat)
    requires IsPermutation(p, n) && i < n
    requires forall i, j | 0 <= i < j < n :: p[i] < p[j]
    ensures p[i] == i
  {
    IncreasingAtLeast(p, n, i);
    IncreasingAtMost(p, n, i);
  }

  lemma {:induction false} IncreasingAtLeast(p: seq<nat>, n: nat, i: nat)
    requires |p| == n && i < n && forall i, j | 0 <= i < j < n :: p[i] < p[j]
    ensures p[i] >= i
  {
    if i > 0 {
      IncreasingAtLeast(p, n, i - 1);
    }
  }

  lemma {:induction false} IncreasingAtMost(p: seq<nat>, n: nat, i: nat)
    requires IsPermutation(p, n) && i < n && forall i, j | 0 <= i < j < n :: p[i] < p[j]
    ensures p[i] <= i
    decreases n - i
  {
    if i < n - 1 {
      IncreasingAtMost(p, n, i + 1);
    }
  }

  /** Ties are preserved by transformations. */
  lemma NoPhaseTiesInvariant(f: Table, g: Table, n: nat, x: Transform)
    requires Related(f, g, n, x) && NoPhaseTies(f, n)
    ensures NoPhaseTies(g, n)
  {
    hide CofactorOnes, Agree, Pow2;
    forall w | 0 <= w < n ensures CofactorOnes(g, n, w, false) != CofactorOnes(g, n, w, true) {
      var v := PermutationOnto(x.perm, n, w);
      CofactorOnesMove(f, g, n, x, v, false);
      CofactorOnesMove(f, g, n, x, v, true);
    }
  }

  // ----- why ties are excluded

  /** A parity table: value `odd` where an odd number of the two inputs is 1. */
  function Parity(odd: bool): (t: Table)
    ensures |t| == Pow2(2)
  {
    assert Pow2(2) == 2 * Pow2(1) == 4 * Pow2(0);
    [!odd, odd, odd, !odd]
  }

  lemma ParityAt(odd: bool, a: Assignment)
    requires |a| == 2
    ensures Eval(Parity(odd), a) == ((a[0] != a[1]) == odd)
  {
    assert a[1..][1..] == [];
    assert Index(a[1..]) == if a[1] then 1 else 0;
  }

  /** Complementing inputs of a parity table by the mask m. */
  lemma ParityRelated(odd: bool, m: seq<bool>, p: seq<nat>)
    requires |m| == 2 && (p == [0, 1] || p == [1, 0])
    ensures Related(Parity(odd), Parity((m[0] != m[1]) != odd), 2, Transform(p, m))
  {
    hide Agree, Eval, Parity, Pow2;
    var x, g := Transform(p, m), Parity((m[0] != m[1]) != odd);
    forall a: Assignment | |a| == 2 ensures Eval(g, a) == Eval(Parity(odd), Act(x, 2, a)) {
      var b := Act(x, 2, a);
      assert b[0] == (a[p[0]] != m[0]) && b[1] == (a[p[1]] != m[1]);
      ParityAt((m[0] != m[1]) != odd, a);
      ParityAt(odd, b);
    }
    AgreeIntro(Parity(odd), g, 2, x);
  }

  /** Every cofactor of a parity table has the same count, so that it is semi-canonical as it is. */
  lemma ParitySemiCanonical(odd: bool)
    ensures IsSemiCanonical(Parity(odd), 2)
  {
    hide CofactorOnes, Related, Pow2, Parity;
    var t := Parity(odd);
    ParityRelated(odd, [true, true], [0, 1]);
    ParityRelated(odd, [false, false], [1, 0]);
    forall v: nat | v < 2 ensures CofactorOnes(t, 2, v, false) == CofactorOnes(t, 2, v, true) {
      CofactorOnesMove(t, t, 2, Transform([0, 1], [true, true]), v, false);
    }
    CofactorOnesMove(t, t, 2, Transform([1, 0], [false, false]), 0, false);
    forall x: nat ensures SigLeq(x, x) {
      SigOrder(x, x, x);
    }
  }

  /** Without the conditions on ties the form is not canonical: the two parity functions of two inputs differ by
      a complemented input, and each is its own semi-canonical form. */
  lemma TiesBreakCanonicity()
    ensures Equivalent(Parity(true), Parity(false), 2) && Parity(true) != Parity(false)
    ensures forall odd :: IsSemiCanonical(Parity(odd), 2) && Equivalent(Parity(odd), Parity(odd), 2)
  {
    ParityRelated(true, [true, false], [0, 1]);
    assert Parity(true)[0] != Parity(false)[0];
    forall odd ensures IsSemiCanonical(Parity(odd), 2) && Equivalent(Parity(odd), Parity(odd), 2) {
      ParitySemiCanonical(odd);
      ParityRelated(odd, [false, false], [0, 1]);
    }
  }

  // ----- the procedure

  method Store(t: array<bool>, s: Table)
    requires t.Length == |s|
    modifies t
    ensures t[..] == s
  {
    for k := 0 to t.Length
      invariant t[..k] == s[..k]
    {
      t[k] := s[k];
    }
  }

  /** Fills the signatures; aux is scratch space for the cofactors. */
  method ComputeVSigs(t: array<bool>, n: nat, sigs: array<nat>, aux: array<bool>)
    requires t.Length == aux.Length == Pow2(n) && t != aux && sigs.Length == 2 * n
    modifies sigs, aux
    ensures SigsOf(sigs[..], t[..], n)
  {
    hide Pow2, Cofactor;
    for v := 0 to n
      invariant forall w | 0 <= w < v :: sigs[2 * w] == CofactorOnes(t[..], n, w, false)
      invariant forall w | 0 <= w < v :: sigs[2 * w + 1] == CofactorOnes(t[..], n, w, true)
    {
      Store(aux, Cofactor(t[..], n, v, false));
      sigs[2 * v] := CountOnes(aux[..]);
      Store(aux, Cofactor(t[..], n, v, true));
      sigs[2 * v + 1] := CountOnes(aux[..]);
    }
  }

  ghost predicate PairsOrdered(sigs: seq<nat>, m: nat)
    requires 2 * m <= |sigs|
  {
    forall v | 0 <= v < m :: SigLeq(sigs[2 * v], sigs[2 * v + 1])
  }

  /** What every step of the sort keeps: t is h with its inputs permuted by p, perm is perm0 permuted by p, and
      sigs are the signatures of t. */
  ghost predicate Sorting(t: Table, h: Table, n: nat, p: seq<nat>, sigs: seq<nat>, perm: seq<nat>, perm0: seq<nat>) {
    && IsPermutation(p, n) && Related(t, h, n, PermTransform(p))
    && SigsOf(sigs, t, n) && PairsOrdered(sigs, n)
    && |perm| == |perm0| == n && forall j | 0 <= j < n :: perm[j] == perm0[p[j]]
  }

  lemma SortingStep(t: Table, h: Table, n: nat, p: seq<nat>, sigs: seq<nat>, perm: seq<nat>, perm0: seq<nat>, i: nat)
    requires Sorting(t, h, n, p, sigs, perm, perm0) && i + 1 < n
    ensures Sorting(SwapAdjacentVars(t, n, i), h, n, Exchange(p, i), ExchangePairs(sigs, i), Exchange(perm, i), perm0)
    ensures Keys(ExchangePairs(sigs, i)) == Exchange(Keys(sigs), i)
  {
    hide Pow2, Related, SwapAdjacentVars, SigLeq, SigsOf;
    TrackSwap(t, h, n, p, i);
    assert |sigs| == 2 * n by { SigsLength(sigs, t, n); }
    SigsAfterSwap(sigs, t, n, i);
    KeysAfterSwap(sigs, n, i);
    var r := ExchangePairs(sigs, i);
    forall v | 0 <= v < n ensures SigLeq(r[2 * v], r[2 * v + 1]) {
      var w := if v == i then i + 1 else if v == i + 1 then i else v;
      assert SigLeq(sigs[2 * w], sigs[2 * w + 1]);
    }
  }

  lemma SigsLength(sigs: seq<nat>, t: Table, n: nat)
    requires SigsOf(sigs, t, n)
    ensures |sigs| == 2 * n && Keys(sigs) == NegativeOnes(t, n)
  {
    hide CofactorOnes;
  }

  lemma {:induction false} AdjacentSorted(s: seq<nat>, i: nat, j: nat)
    requires forall k | 0 <= k < |s| - 1 :: SigLeq(s[k], s[k + 1])
    requires i < j < |s|
    ensures SigLeq(s[i], s[j])
    decreases j
  {
    if i < j - 1 {
      AdjacentSorted(s, i, j - 1);
      assert SigLeq(s[j - 1], s[j - 1 + 1]);
      SigOrder(s[i], s[j - 1], s[j]);
    }
  }

  lemma {:induction false} NothingBelow(t: seq<nat>, x: nat)
    requires forall k | 0 <= k < |t| :: SigLeq(x, t[k])
    ensures Below(t, x, SigLeq) == 0
  {
    if t != [] {
      assert forall k | 0 <= k < |t| - 1 :: t[1..][k] == t[k + 1];
      NothingBelow(t[1..], x);
    }
  }

  /** A sequence without adjacent entries out of order has no inversion. */
  lemma {:induction false} NoInversions(s: seq<nat>)
    requires forall k | 0 <= k < |s| - 1 :: SigLeq(s[k], s[k + 1])
    ensures Inversions(s, SigLeq) == 0
  {
    hide SigLeq;
    if s != [] {
      forall k | 0 <= k < |s[1..]| ensures SigLeq(s[0], s[1..][k]) {
        AdjacentSorted(s, 0, k + 1);
      }
      NothingBelow(s[1..], s[0]);
      forall k | 0 <= k < |s[1..]| - 1 ensures SigLeq(s[1..][k], s[1..][k + 1]) {
        assert SigLeq(s[k + 1], s[k + 1 + 1]);
      }
      NoInversions(s[1..]);
    }
  }

  /** The end of the sort. */
  lemma SortingDone(t: Table, h: Table, n: nat, p: seq<nat>, sigs: seq<nat>, perm: seq<nat>, perm0: seq<nat>)
    requires Sorting(t, h, n, p, sigs, perm, perm0)
    requires forall k | 0 <= k < n - 1 :: SigLeq(Keys(sigs)[k], Keys(sigs)[k + 1])
    ensures IsSemiCanonical(t, n)
  {
    hide Pow2, Related, SigLeq, CofactorOnes;
    SigsLength(sigs, t, n);
    var s := Keys(sigs);
    forall i, j | 0 <= i < j < |s| ensures SigLeq(s[i], s[j]) {
      AdjacentSorted(s, i, j);
    }
    forall v | 0 <= v < n ensures SigLeq(CofactorOnes(t, n, v, false), CofactorOnes(t, n, v, true)) {
      assert SigLeq(sigs[2 * v], sigs[2 * v + 1]);
    }
  }

  /** The first loop: complements every input whose negative cofactor compares greater, and records it. */
  method CanonicizePhases(pIn: array<bool>, n: nat, sigs: array<nat>) returns (phase: seq<bool>)
    requires pIn.Length == Pow2(n) && SigsOf(sigs[..], pIn[..], n)
    modifies pIn, sigs
    ensures |phase| == n && Related(old(pIn[..]), pIn[..], n, PhaseTransform(phase))
    ensures SigsOf(sigs[..], pIn[..], n) && PairsOrdered(sigs[..], n)
  {
    hide Pow2, Related, SigsOf, ChangePhase, SigLeq;
    ghost var f := pIn[..];
    assert sigs.Length == 2 * n by { SigsLength(sigs[..], f, n); }
    phase := NoFlips(n);
    RelatedIdentity(f, n);
    for i := 0 to n
      invariant |phase| == n && forall j | i <= j < n :: !phase[j]
      invariant Related(f, pIn[..], n, PhaseTransform(phase))
      invariant SigsOf(sigs[..], pIn[..], n)
      invariant PairsOrdered(sigs[..], i)
    {
      if !SigLeq(sigs[2 * i], sigs[2 * i + 1]) {
        ghost var t, s := pIn[..], sigs[..];
        SigOrder(sigs[2 * i], sigs[2 * i + 1], 0);
        TrackPhase(f, t, n, phase, i);
        SigsAfterPhase(s, t, n, i);
        phase := phase[i := true];
        sigs[2 * i], sigs[2 * i + 1] := sigs[2 * i + 1], sigs[2 * i];
        Store(pIn, ChangePhase(pIn[..], n, i));
        assert sigs[..] == Exchange(s, 2 * i);
        forall v | 0 <= v < i ensures SigLeq(sigs[2 * v], sigs[2 * v + 1]) {
          assert SigLeq(s[2 * v], s[2 * v + 1]);
        }
      }
    }
  }

  /** One exchange of the sort. */
  method ExchangeInputs(pOut: array<bool>, pIn: array<bool>, n: nat, i: nat, canonPerm: array<nat>, sigs: array<nat>)
    requires pIn.Length == pOut.Length == Pow2(n) && pIn != pOut && i + 1 < n
    requires canonPerm.Length == n && sigs.Length == 2 * n && canonPerm != sigs
    modifies pOut, canonPerm, sigs
    ensures pOut[..] == SwapAdjacentVars(pIn[..], n, i)
    ensures canonPerm[..] == Exchange(old(canonPerm[..]), i)
    ensures sigs[..] == ExchangePairs(old(sigs[..]), i)
  {
    hide Pow2, SwapAdjacentVars;
    canonPerm[i], canonPerm[i + 1] := canonPerm[i + 1], canonPerm[i];
    sigs[2 * i], sigs[2 * i + 2] := sigs[2 * i + 2], sigs[2 * i];
    sigs[2 * i + 1], sigs[2 * i + 3] := sigs[2 * i + 3], sigs[2 * i + 1];
    Store(pOut, SwapAdjacentVars(pIn[..], n, i));
  }

  /** The table that a caller reads afterwards. */
  ghost function Result(pOut: array<bool>, pIn: array<bool>, returnIn: bool): Table
    reads pIn, pOut
  {
    if returnIn then pIn[..] else pOut[..]
  }

  /** The whole procedure. The ghost results are the table h between the two loops, the permutation p by which
      the result is h with its inputs permuted, and the number of exchanges. */
  method SemiCanonicize(pOut: array<bool>, pIn: array<bool>, n: nat, canonPerm: array<nat>, sigs: array<nat>,
                        returnIn: bool)
    returns (phase: seq<bool>, ghost h: Table, ghost p: seq<nat>, ghost exchanges: nat)
    requires pIn.Length == pOut.Length == Pow2(n) && pIn != pOut
    requires canonPerm.Length == n && sigs.Length == 2 * n && canonPerm != sigs
    modifies pOut, pIn, canonPerm, sigs
    ensures |phase| == n && Related(old(pIn[..]), h, n, PhaseTransform(phase))
    ensures Sorting(Result(pOut, pIn, returnIn), h, n, p, sigs[..], canonPerm[..], old(canonPerm[..]))
    ensures IsSemiCanonical(Result(pOut, pIn, returnIn), n)
    ensures exchanges == Inversions(NegativeOnes(h, n), SigLeq)
  {
    hide Pow2, Related, SigsOf, SigLeq, SwapAdjacentVars, Sorting, Inversions, IsSemiCanonical;
    ghost var perm0 := canonPerm[..];
    ComputeVSigs(pIn, n, sigs, pOut);
    phase := CanonicizePhases(pIn, n, sigs);
    h := pIn[..];
    p := Identity(n);
    assert Sorting(h, h, n, p, sigs[..], perm0, perm0) by { SortingStart(h, n, sigs[..], perm0); }
    SigsLength(sigs[..], h, n);
    var input, output := pIn, pOut;
    var counter := 0;
    var change := true;
    while change
      invariant (input == pIn && output == pOut && counter % 2 == 0)
        || (input == pOut && output == pIn && counter % 2 == 1)
      invariant |p| == n && Sorting(input[..], h, n, p, sigs[..], canonPerm[..], perm0)
      invariant counter + Inversions(Keys(sigs[..]), SigLeq) == Inversions(NegativeOnes(h, n), SigLeq)
      invariant !change ==> forall k | 0 <= k < n - 1 :: SigLeq(Keys(sigs[..])[k], Keys(sigs[..])[k + 1])
      decreases Inversions(Keys(sigs[..]), SigLeq), change
    {
      change := false;
      ghost var before := Inversions(Keys(sigs[..]), SigLeq);
      for i := 0 to if n == 0 then 0 else n - 1
        invariant (input == pIn && output == pOut && counter % 2 == 0)
          || (input == pOut && output == pIn && counter % 2 == 1)
        invariant |p| == n && Sorting(input[..], h, n, p, sigs[..], canonPerm[..], perm0)
        invariant counter + Inversions(Keys(sigs[..]), SigLeq) == Inversions(NegativeOnes(h, n), SigLeq)
        invariant if change then Inversions(Keys(sigs[..]), SigLeq) < before
          else Inversions(Keys(sigs[..]), SigLeq) == before
        invariant !change ==> forall k | 0 <= k < i :: SigLeq(Keys(sigs[..])[k], Keys(sigs[..])[k + 1])
      {
        if !SigLeq(sigs[2 * i], sigs[2 * (i + 1)]) {
          counter := counter + 1;
          change := true;
          SortingStep(input[..], h, n, p, sigs[..], canonPerm[..], perm0, i);
          SigOrder(sigs[2 * i], sigs[2 * (i + 1)], 0);
          InversionsExchange(Keys(sigs[..]), i, SigLeq);
          ExchangeInputs(output, input, n, i, canonPerm, sigs);
          p := Exchange(p, i);
          input, output := output, input;
        }
      }
    }
    SortingDone(input[..], h, n, p, sigs[..], canonPerm[..], perm0);
    NoInversions(Keys(sigs[..]));
    exchanges := counter;
    if returnIn != (counter % 2 == 0) {
      Store(output, input[..]);
    }
  }

  lemma SortingStart(h: Table, n: nat, sigs: seq<nat>, perm: seq<nat>)
    requires SigsOf(sigs, h, n) && PairsOrdered(sigs, n) && |perm| == n
    ensures Sorting(h, h, n, Identity(n), sigs, perm, perm)
  {
    hide Pow2, Related, CofactorOnes, SigLeq;
    RelatedIdentity(h, n);
  }
}
