/** Recording one function (src/aig/aig/aigCanon.c, Aig_RManRecord): canonicize, look up, undo, compare. */
module Recorder {
  import opened TruthTables
  import opened SemiCanonical
  import opened CanonicalForms
  import opened OutputPhases
  import opened RecordTable

  /** Permutes the inputs back: sorts perm with adjacent exchanges and applies the same exchanges to the table
      (src/bool/kit/kitTruth.c). If the table is h with its inputs permuted by perm, the result is h. */
  method TruthPermute(pOut: array<bool>, pIn: array<bool>, n: nat, perm: array<nat>, returnIn: bool, ghost h: Table)
    requires pIn.Length == pOut.Length == Pow2(n) && pIn != pOut && perm.Length == n
    requires IsPermutation(perm[..], n) && Related(pIn[..], h, n, PermTransform(perm[..]))
    modifies pOut, pIn, perm
    ensures Result(pOut, pIn, returnIn) == h && perm[..] == Identity(n)
  {
    hide Pow2, Related, SwapAdjacentVars, Inversions;
    var input, output := pIn, pOut;
    var counter := 0;
    var change := true;
    while change
      invariant (input == pIn && output == pOut && counter % 2 == 0)
        || (input == pOut && output == pIn && counter % 2 == 1)
      invariant IsPermutation(perm[..], n) && Related(input[..], h, n, PermTransform(perm[..]))
      invariant !change ==> forall k | 0 <= k < n - 1 :: perm[k] <= perm[k + 1]
      decreases Inversions(perm[..], NumLeq), change
    {
      change := false;
      ghost var before := Inversions(perm[..], NumLeq);
      for i := 0 to if n == 0 then 0 else n - 1
        invariant (input == pIn && output == pOut && counter % 2 == 0)
          || (input == pOut && output == pIn && counter % 2 == 1)
        invariant IsPermutation(perm[..], n) && Related(input[..], h, n, PermTransform(perm[..]))
        invariant if change then Inversions(perm[..], NumLeq) < before else Inversions(perm[..], NumLeq) == before
        invariant !change ==> forall k | 0 <= k < i :: perm[k] <= perm[k + 1]
      {
        if perm[i] > perm[i + 1] {
          counter := counter + 1;
          change := true;
          ghost var p, t := perm[..], input[..];
          TrackSwap(t, h, n, p, i);
          InversionsExchange(p, i, NumLeq);
          perm[i], perm[i + 1] := perm[i + 1], perm[i];
          assert perm[..] == Exchange(p, i);
          Store(output, SwapAdjacentVars(input[..], n, i));
          input, output := output, input;
        }
      }
    }
    SortedPermutationIsIdentity(perm[..], n);
    RelatedByIdentity(input[..], h, n);
    if returnIn != (counter % 2 == 0) {
      Store(output, input[..]);
    }
  }

  /** The uniqueness test on the signatures. */
  method VarsAreUnique(sigs: array<nat>, n: nat) returns (unique: bool)
    requires sigs.Length == 2 * n
    ensures unique <==> AdjacentDiffer(Keys(sigs[..]))
  {
    hide CompareSigs;
    ghost var keys := Keys(sigs[..]);
    for i := 0 to if n == 0 then 0 else n - 1
      invariant forall k | 0 <= k < i :: keys[k] != keys[k + 1]
    {
      SigOrder(sigs[2 * i], sigs[2 * (i + 1)], 0);
      if CompareSigs(sigs[2 * i], sigs[2 * (i + 1)]) == 0 {
        assert keys[i] == keys[i + 1];
        return false;
      }
    }
    return true;
  }

  /** Complements the inputs in the mask, one after the other. */
  method UndoPhases(t: array<bool>, n: nat, phase: seq<bool>, ghost f: Table)
    requires t.Length == |f| == Pow2(n) && |phase| == n && Related(f, t[..], n, PhaseTransform(phase))
    modifies t
    ensures t[..] == f
  {
    hide Pow2, Related, ChangePhase;
    ghost var left := phase;
    for i := 0 to n
      invariant |left| == n && Related(f, t[..], n, PhaseTransform(left))
      invariant forall j | 0 <= j < n :: left[j] == (if j < i then false else phase[j])
    {
      if phase[i] {
        TrackPhase(f, t[..], n, left, i);
        left := Flip(left, i);
        Store(t, ChangePhase(t[..], n, i));
      }
    }
    assert left == NoFlips(n);
    RelatedIdentity(f, n);
    RelatedByIdentity(f, t[..], n);
  }

  /** The table with output phase 0 at the all-zero assignment. */
  function Normalized(t: Table): (r: Table)
    requires |t| > 0
    ensures |r| == |t| && !r[0] && (r == t || Complements(t, r))
  {
    if t[0] then seq(|t|, k requires 0 <= k < |t| => !t[k]) else t
  }

  lemma CanonicalFromSort(f: Table, h: Table, c: Table, n: nat, phase: seq<bool>, p: seq<nat>)
    requires |phase| == n && Related(f, h, n, PhaseTransform(phase))
    requires Related(c, h, n, PermTransform(p))
    ensures Equivalent(f, c, n)
  {
    hide Related;
    var y := RelatedSymmetric(c, h, n, PermTransform(p));
    RelatedTransitive(f, h, c, n, PhaseTransform(phase), y);
  }

  /** The buffers of one recording after canonicization: table and scratch, permutation, phases. */
  datatype Canonicized = Canonicized(pTruth: array<bool>, pTemp: array<bool>, perm: array<nat>, phase: seq<bool>,
                                     unique: bool)

  /** What canonicization leaves in the buffers: the table is the function with the phases applied, which is h,
      and its inputs permuted by the permutation. */
  ghost predicate Holds(b: Canonicized, f: Table, h: Table, n: nat)
    reads b.pTruth, b.pTemp, b.perm
  {
    && b.pTruth.Length == b.pTemp.Length == |f| == Pow2(n) && b.pTruth != b.pTemp && |b.phase| == n
      && b.perm.Length == n
    && IsPermutation(b.perm[..], n) && Related(b.pTruth[..], h, n, PermTransform(b.perm[..]))
    && Related(f, h, n, PhaseTransform(b.phase))
  }

  method Canonicize(f: Table, n: nat) returns (b: Canonicized, ghost h: Table)
    requires |f| == Pow2(n)
    ensures fresh(b.pTruth) && fresh(b.pTemp) && fresh(b.perm)
    ensures Holds(b, f, h, n) && Equivalent(f, b.pTruth[..], n) && IsSemiCanonical(b.pTruth[..], n)
    ensures b.unique <==> AdjacentDiffer(NegativeOnes(b.pTruth[..], n))
  {
    hide Pow2, Related, SigsOf, IsSemiCanonical, AdjacentDiffer, NegativeOnes, Equivalent, PairsOrdered;
    var pTruth, pTemp := new bool[|f|], new bool[|f|];
    Store(pTruth, f);
    var perm, mints := new nat[n](i => i), new nat[2 * n];
    assert perm[..] == Identity(n);
    var phase; ghost var p, exchanges;
    phase, h, p, exchanges := SemiCanonicize(pTemp, pTruth, n, perm, mints, true);
    assert perm[..] == p;
    SigsLength(mints[..], pTruth[..], n);
    CanonicalFromSort(f, h, pTruth[..], n, phase, p);
    var unique := VarsAreUnique(mints, n);
    b := Canonicized(pTruth, pTemp, perm, phase, unique);
  }

  /** Records a function of n inputs. The ghost result is the table that was looked up. The function itself is
      always recovered from it, so that the verification never fails. */
  method Record(man: RMan, truth: Table, n: nat) returns (verified: bool, isNew: bool, unique: bool, ghost canon: Table)
    requires man.Valid() && |truth| == Pow2(n)
    modifies man`pBins, man`nEntries, man`entries, man`chains, man.pBins, set e | e in man.entries :: e
    ensures verified
    ensures IsKeyOf(truth, canon, n)
    ensures unique <==> AdjacentDiffer(NegativeOnes(canon, n))
    ensures isNew <==> canon !in old(man.Keys())
    ensures man.Keys() == if isNew then old(man.Keys()) + [canon] else old(man.Keys())
    ensures !isNew || old(man.nEntries) != 3 * old(man.pBins.Length) || old(man.GrowthHarmless(canon)) ==> man.Valid()
  {
    hide Pow2, IsSemiCanonical, AdjacentDiffer, NegativeOnes, Equivalent, Holds, IsKeyOf;
    var b; ghost var h;
    b, h := Canonicize(Normalized(truth), n);
    canon := b.pTruth[..];
    KeyOfForm(truth, Normalized(truth), canon, n);
    unique := b.unique;
    isNew := man.TableFindOrAdd(b.pTruth[..]);
    var recovered := Undo(b, n, Normalized(truth), h);
    verified := !unique || recovered;
  }

  /** The self check: permutes the table back, undoes the phases, and compares with the function. */
  method Undo(b: Canonicized, n: nat, init: Table, ghost h: Table) returns (equal: bool)
    requires Holds(b, init, h, n)
    modifies b.pTemp, b.pTruth
    ensures equal
  {
    hide Pow2, Related;
    var permR := new nat[n](i requires 0 <= i < n reads b.perm => b.perm[i]);
    assert permR[..] == b.perm[..];
    TruthPermute(b.pTemp, b.pTruth, n, permR, true, h);
    UndoPhases(b.pTruth, n, b.phase, init);
    equal := b.pTruth[..] == init;
  }
}
