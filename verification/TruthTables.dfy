/** Truth tables as bit arrays, the table operations of src/bool/kit/kitTruth.c by their meaning, and the group of
    input permutations and complementations that acts on them. */
module TruthTables {

  /** One value per input variable; variable v is bit v of the index into a table. */
  type Assignment = seq<bool>

  /** The values of a Boolean function of n inputs, 2^n of them. */
  type Table = seq<bool>

  function Pow2(n: nat): (r: nat)
    ensures r > 0
  {
    if n == 0 then 1 else 2 * Pow2(n - 1)
  }

  /** The index of an assignment, bit 0 first. */
  function Index(a: Assignment): (k: nat)
    ensures k < Pow2(|a|)
  {
    if a == [] then 0 else (if a[0] then 1 else 0) + 2 * Index(a[1..])
  }

  /** The assignment with index k. */
  function Bits(k: nat, n: nat): (a: Assignment)
    requires k < Pow2(n)
    ensures |a| == n
  {
    if n == 0 then [] else [k % 2 == 1] + Bits(k / 2, n - 1)
  }

  lemma {:induction false} IndexOfBits(k: nat, n: nat)
    requires k < Pow2(n)
    ensures Index(Bits(k, n)) == k
  {
    if n > 0 {
      IndexOfBits(k / 2, n - 1);
      assert Bits(k, n)[1..] == Bits(k / 2, n - 1);
    }
  }

  lemma {:induction false} BitsOfIndex(a: Assignment)
    ensures Bits(Index(a), |a|) == a
  {
    if a != [] {
      BitsOfIndex(a[1..]);
    }
  }

  function Eval(t: Table, a: Assignment): bool
    requires |t| == Pow2(|a|)
  {
    t[Index(a)]
  }

  /** The table of a function of n inputs. */
  function Tabulate(n: nat, f: Assignment --> bool): (t: Table)
    requires forall a: Assignment | |a| == n :: f.requires(a)
    ensures |t| == Pow2(n)
  {
    seq(Pow2(n), k requires 0 <= k < Pow2(n) => f(Bits(k, n)))
  }

  lemma EvalTabulate(n: nat, f: Assignment --> bool, a: Assignment)
    requires forall b: Assignment | |b| == n :: f.requires(b)
    requires |a| == n
    ensures Eval(Tabulate(n, f), a) == f(a)
  {
    BitsOfIndex(a);
  }

  /** Tables that agree on every assignment are equal. */
  lemma Extensional(t: Table, u: Table, n: nat)
    requires |t| == |u| == Pow2(n)
    requires forall a: Assignment | |a| == n :: Eval(t, a) == Eval(u, a)
    ensures t == u
  {
    forall k | 0 <= k < |t| ensures t[k] == u[k] {
      IndexOfBits(k, n);
      assert Eval(t, Bits(k, n)) == Eval(u, Bits(k, n));
    }
  }

  // ----- the table operations

  function Flip(a: Assignment, v: nat): (r: Assignment)
    requires v < |a|
    ensures |r| == |a|
  {
    a[v := !a[v]]
  }

  function Exchange<T>(s: seq<T>, i: nat): (r: seq<T>)
    requires i + 1 < |s|
    ensures |r| == |s|
  {
    s[i := s[i + 1]][i + 1 := s[i]]
  }

  /** Complements input v. */
  function ChangePhase(t: Table, n: nat, v: nat): (r: Table)
    requires |t| == Pow2(n) && v < n
    ensures |r| == Pow2(n)
  {
    Tabulate(n, (a: Assignment) requires |a| == n => Eval(t, Flip(a, v)))
  }

  lemma ChangePhaseAt(t: Table, n: nat, v: nat, a: Assignment)
    requires |t| == Pow2(n) && v < n == |a|
    ensures Eval(ChangePhase(t, n, v), a) == Eval(t, Flip(a, v))
  {
    EvalTabulate(n, (a: Assignment) requires |a| == n => Eval(t, Flip(a, v)), a);
  }

  /** Exchanges inputs i and i + 1. */
  function SwapAdjacentVars(t: Table, n: nat, i: nat): (r: Table)
    requires |t| == Pow2(n) && i + 1 < n
    ensures |r| == Pow2(n)
  {
    Tabulate(n, (a: Assignment) requires |a| == n => Eval(t, Exchange(a, i)))
  }

  lemma SwapAdjacentVarsAt(t: Table, n: nat, i: nat, a: Assignment)
    requires |t| == Pow2(n) && i + 1 < n == |a|
    ensures Eval(SwapAdjacentVars(t, n, i), a) == Eval(t, Exchange(a, i))
  {
    EvalTabulate(n, (a: Assignment) requires |a| == n => Eval(t, Exchange(a, i)), a);
  }

  /** Fixes input v to the value c; the result has n inputs still. */
  function Cofactor(t: Table, n: nat, v: nat, c: bool): (r: Table)
    requires |t| == Pow2(n) && v < n
    ensures |r| == Pow2(n)
  {
    Tabulate(n, (a: Assignment) requires |a| == n => Eval(t, a[v := c]))
  }

  lemma CofactorAt(t: Table, n: nat, v: nat, c: bool, a: Assignment)
    requires |t| == Pow2(n) && v < n == |a|
    ensures Eval(Cofactor(t, n, v, c), a) == Eval(t, a[v := c])
  {
    EvalTabulate(n, (a: Assignment) requires |a| == n => Eval(t, a[v := c]), a);
  }

  function CountOnes(t: Table): (c: nat)
    ensures c <= |t|
  {
    if t == [] then 0 else CountOnes(t[..|t| - 1]) + (if t[|t| - 1] then 1 else 0)
  }

  /** The count that serves as signature of polarity c of variable v. */
  function CofactorOnes(t: Table, n: nat, v: nat, c: bool): (k: nat)
    requires |t| == Pow2(n) && v < n
    ensures k <= Pow2(n)
  {
    CountOnes(Cofactor(t, n, v, c))
  }

  // ----- permutations

  /** p lists 0..n-1, each once. */
  ghost predicate IsPermutation(p: seq<nat>, n: nat) {
    && |p| == n
    && (forall i | 0 <= i < n :: p[i] < n)
    && (forall i, j | 0 <= i < j < n :: p[i] != p[j])
  }

  function Identity(n: nat): (p: seq<nat>)
    ensures |p| == n && IsPermutation(p, n)
  {
    seq(n, i requires 0 <= i < n => i)
  }

  ghost function Values(p: seq<nat>, m: nat): set<nat>
    requires m <= |p|
  {
    set i | 0 <= i < m :: p[i]
  }

  lemma {:induction false} ValuesCount(p: seq<nat>, n: nat, m: nat)
    requires IsPermutation(p, n) && m <= n
    ensures |Values(p, m)| == m
  {
    if m > 0 {
      ValuesCount(p, n, m - 1);
      assert Values(p, m) == Values(p, m - 1) + {p[m - 1]};
      assert p[m - 1] !in Values(p, m - 1);
    }
  }

  ghost function Range(n: nat): (r: set<nat>)
    ensures |r| == n && forall i: nat :: i in r <==> i < n
  {
    if n == 0 then {} else Range(n - 1) + {n - 1}
  }

  lemma SubsetFull<T>(a: set<T>, b: set<T>)
    requires a <= b && |a| == |b|
    ensures a == b
  {
    assert b == a + (b - a);
    assert |b| == |a| + |b - a|;
  }

  /** A permutation reaches every index. */
  lemma PermutationOnto(p: seq<nat>, n: nat, j: nat) returns (i: nat)
    requires IsPermutation(p, n) && j < n
    ensures i < n && p[i] == j
  {
    ValuesCount(p, n, n);
    SubsetFull(Values(p, n), Range(n));
    assert j in Values(p, n);
    i :| 0 <= i < n && p[i] == j;
  }

  lemma {:induction false} InverseExists(p: seq<nat>, n: nat, m: nat) returns (q: seq<nat>)
    requires IsPermutation(p, n) && m <= n
    ensures |q| == m && forall j | 0 <= j < m :: q[j] < n && p[q[j]] == j
  {
    if m == 0 {
      q := [];
    } else {
      q := InverseExists(p, n, m - 1);
      var i := PermutationOnto(p, n, m - 1);
      q := q + [i];
    }
  }

  // ----- the group

  /** An input transformation: input i becomes input perm[i], complemented if flip[i]. */
  datatype Transform = Transform(perm: seq<nat>, flip: seq<bool>)

  ghost predicate ValidTransform(x: Transform, n: nat) {
    IsPermutation(x.perm, n) && |x.flip| == n
  }

  ghost function Act(x: Transform, n: nat, a: Assignment): (b: Assignment)
    requires ValidTransform(x, n) && |a| == n
    ensures |b| == n
  {
    seq(n, i requires 0 <= i < n => a[x.perm[i]] != x.flip[i])
  }

  ghost predicate Agree(f: Table, g: Table, n: nat, x: Transform)
    requires ValidTransform(x, n) && |f| == |g| == Pow2(n)
  {
    forall a: Assignment {:trigger Act(x, n, a)} | |a| == n :: Eval(g, a) == Eval(f, Act(x, n, a))
  }

  /** g is f with its inputs transformed by x. */
  ghost predicate Related(f: Table, g: Table, n: nat, x: Transform) {
    ValidTransform(x, n) && |f| == |g| == Pow2(n) && Agree(f, g, n, x)
  }

  lemma RelatedAt(f: Table, g: Table, n: nat, x: Transform, a: Assignment)
    requires Related(f, g, n, x) && |a| == n
    ensures Eval(g, a) == Eval(f, Act(x, n, a))
  {
  }

  /** g is f with its inputs permuted and some of them complemented. */
  ghost predicate Equivalent(f: Table, g: Table, n: nat) {
    exists x :: Related(f, g, n, x)
  }

  lemma AgreeIntro(f: Table, g: Table, n: nat, x: Transform)
    requires ValidTransform(x, n) && |f| == |g| == Pow2(n)
    requires forall a: Assignment | |a| == n :: Eval(g, a) == Eval(f, Act(x, n, a))
    ensures Related(f, g, n, x)
  {
  }

  lemma ActInjective(x: Transform, n: nat, a: Assignment, b: Assignment)
    requires ValidTransform(x, n) && |a| == |b| == n && Act(x, n, a) == Act(x, n, b)
    ensures a == b
  {
    forall j | 0 <= j < n ensures a[j] == b[j] {
      var i := PermutationOnto(x.perm, n, j);
      assert Act(x, n, a)[i] == Act(x, n, b)[i];
    }
  }

  lemma InverseTransform(x: Transform, n: nat) returns (y: Transform)
    requires ValidTransform(x, n)
    ensures ValidTransform(y, n)
    ensures forall a: Assignment | |a| == n :: Act(x, n, Act(y, n, a)) == a
    ensures forall a: Assignment | |a| == n :: Act(y, n, Act(x, n, a)) == a
  {
    var q := InverseExists(x.perm, n, n);
    y := Transform(q, seq(n, j requires 0 <= j < n => x.flip[q[j]]));
    forall i | 0 <= i < n ensures q[x.perm[i]] == i {
      var k := q[x.perm[i]];
      assert x.perm[k] == x.perm[i];
      assert !(k < i) && !(i < k);
    }
    forall a: Assignment | |a| == n ensures Act(x, n, Act(y, n, a)) == a && Act(y, n, Act(x, n, a)) == a {
    }
  }

  lemma RelatedSymmetric(f: Table, g: Table, n: nat, x: Transform) returns (y: Transform)
    requires Related(f, g, n, x)
    ensures Related(g, f, n, y)
  {
    hide Agree, Act, Eval, Pow2;
    y := InverseTransform(x, n);
    forall a: Assignment | |a| == n ensures Eval(f, a) == Eval(g, Act(y, n, a)) {
      RelatedAt(f, g, n, x, Act(y, n, a));
    }
    AgreeIntro(g, f, n, y);
  }

  /** First y, then x. */
  ghost function Compose(x: Transform, y: Transform, n: nat): (z: Transform)
    requires ValidTransform(x, n) && ValidTransform(y, n)
    ensures ValidTransform(z, n)
  {
    var z := Transform(seq(n, i requires 0 <= i < n => y.perm[x.perm[i]]),
                       seq(n, i requires 0 <= i < n => y.flip[x.perm[i]] != x.flip[i]));
    assert forall i, j | 0 <= i < j < n :: x.perm[i] != x.perm[j];
    z
  }

  lemma ComposeAct(x: Transform, y: Transform, n: nat, a: Assignment)
    requires ValidTransform(x, n) && ValidTransform(y, n) && |a| == n
    ensures Act(Compose(x, y, n), n, a) == Act(x, n, Act(y, n, a))
  {
  }

  lemma RelatedTransitive(f: Table, g: Table, h: Table, n: nat, x: Transform, y: Transform)
    requires Related(f, g, n, x) && Related(g, h, n, y)
    ensures Related(f, h, n, Compose(x, y, n))
  {
    hide Agree, Act, Eval, Pow2, Compose;
    forall a: Assignment | |a| == n ensures Eval(h, a) == Eval(f, Act(Compose(x, y, n), n, a)) {
      ComposeAct(x, y, n, a);
      RelatedAt(g, h, n, y, a);
      RelatedAt(f, g, n, x, Act(y, n, a));
    }
    AgreeIntro(f, h, n, Compose(x, y, n));
  }

  lemma EquivalentSymmetric(f: Table, g: Table, n: nat)
    requires Equivalent(f, g, n)
    ensures Equivalent(g, f, n)
  {
    hide Related;
    var x :| Related(f, g, n, x);
    var y := RelatedSymmetric(f, g, n, x);
  }

  lemma EquivalentTransitive(f: Table, g: Table, h: Table, n: nat)
    requires Equivalent(f, g, n) && Equivalent(g, h, n)
    ensures Equivalent(f, h, n)
  {
    hide Related;
    var x :| Related(f, g, n, x);
    var y :| Related(g, h, n, y);
    RelatedTransitive(f, g, h, n, x, y);
  }

  // ----- counts under a transformation

  ghost function Ones(t: Table): set<nat> {
    set k | 0 <= k < |t| && t[k]
  }

  lemma {:induction false} CountOnesIsCardinality(t: Table)
    ensures CountOnes(t) == |Ones(t)|
  {
    if t != [] {
      var s := t[..|t| - 1];
      CountOnesIsCardinality(s);
      assert Ones(t) == Ones(s) + (if t[|t| - 1] then {|t| - 1} else {});
    }
  }

  lemma {:induction false} InjectionCount(a: set<nat>, b: set<nat>, h: nat -> nat)
    requires forall k | k in a :: h(k) in b
    requires forall j, k | j in a && k in a && j != k :: h(j) != h(k)
    ensures |a| <= |b|
    decreases |a|
  {
    if a != {} {
      var k :| k in a;
      InjectionCount(a - {k}, b - {h(k)}, h);
    }
  }

  lemma OnesAtMost(f: Table, g: Table, n: nat, x: Transform)
    requires Related(f, g, n, x)
    ensures CountOnes(g) <= CountOnes(f)
  {
    hide Agree, Act, Pow2, Bits, Index;
    CountOnesIsCardinality(f);
    CountOnesIsCardinality(g);
    var h := (k: nat) => if k < Pow2(n) then Index(Act(x, n, Bits(k, n))) else 0;
    forall k | k in Ones(g) ensures h(k) in Ones(f) {
      IndexOfBits(k, n);
      RelatedAt(f, g, n, x, Bits(k, n));
    }
    forall j, k | j in Ones(g) && k in Ones(g) && j != k ensures h(j) != h(k) {
      var b, c := Act(x, n, Bits(j, n)), Act(x, n, Bits(k, n));
      if h(j) == h(k) {
        BitsOfIndex(b);
        BitsOfIndex(c);
        ActInjective(x, n, Bits(j, n), Bits(k, n));
        IndexOfBits(j, n);
        IndexOfBits(k, n);
        assert false;
      }
    }
    InjectionCount(Ones(g), Ones(f), h);
  }

  /** A transformation of the inputs does not change the number of ones. */
  lemma OnesInvariant(f: Table, g: Table, n: nat, x: Transform)
    requires Related(f, g, n, x)
    ensures CountOnes(g) == CountOnes(f)
  {
    OnesAtMost(f, g, n, x);
    var y := RelatedSymmetric(f, g, n, x);
    OnesAtMost(g, f, n, y);
  }

  /** The signatures travel with the variables: those of input perm[i] of g are those of input i of f,
      exchanged if the input is complemented. */
  lemma CofactorOnesMove(f: Table, g: Table, n: nat, x: Transform, i: nat, c: bool)
    requires Related(f, g, n, x) && i < n
    ensures CofactorOnes(g, n, x.perm[i], c) == CofactorOnes(f, n, i, c != x.flip[i])
  {
    hide Act, Eval, Pow2, Agree, Cofactor;
    var v, d := x.perm[i], c != x.flip[i];
    var f', g' := Cofactor(f, n, i, d), Cofactor(g, n, v, c);
    forall a: Assignment | |a| == n ensures Eval(g', a) == Eval(f', Act(x, n, a)) {
      CofactorAt(g, n, v, c, a);
      RelatedAt(f, g, n, x, a[v := c]);
      FixedInput(x, n, a, i, c);
      CofactorAt(f, n, i, d, Act(x, n, a));
    }
    AgreeIntro(f', g', n, x);
    OnesInvariant(f', g', n, x);
  }

  /** Fixing input perm[i] before the transformation is fixing input i after it. */
  lemma FixedInput(x: Transform, n: nat, a: Assignment, i: nat, c: bool)
    requires ValidTransform(x, n) && |a| == n && i < n
    ensures Act(x, n, a[x.perm[i] := c]) == Act(x, n, a)[i := c != x.flip[i]]
  {
    var l, r := Act(x, n, a[x.perm[i] := c]), Act(x, n, a)[i := c != x.flip[i]];
    forall j | 0 <= j < n ensures l[j] == r[j] {
      assert j != i ==> x.perm[j] != x.perm[i];
    }
  }
}
