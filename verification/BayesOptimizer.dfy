/** The optimiser loop (lib/bayesopt/src/bayesoptbase.cpp): every step appends a sample and then either refits
    the surrogate model from scratch or updates it incrementally. */
module BayesOptimizer {
  import opened RealVectors
  import opened CholeskyTheory
  import opened Cholesky
  import opened GaussianProcesses
  import Residues

  /** What the outside world supplies to one step: the next query and its value, the query and value of a
      forced jump, and the hyperparameters a relearning would choose. */
  datatype StepInput = StepInput(xNext: Point, yNext: real, xJump: Point, yJump: real, theta: Params)

  /** The parameters: what the step reads, and what the surrogate model is created from. */
  datatype Config = Config(nIterRelearn: nat, forceJump: nat, noise: real, nIterations: nat,
                           kernel: Kernel, mean: (Params, Point) -> real, regularizer: real, sigma: real)

  // ----- the forced jumps

  /** The counter of near-equal values, and the last value. */
  datatype Stuck = Stuck(counter: nat, yPrev: real)

  const UNSTUCK := Stuck(0, 0.0)

  predicate NearEqual(config: Config, y: real, y': real) {
    Times(y - y', y - y') < config.noise
  }

  /** The counter when it is compared with its limit. */
  function Counted(config: Config, s: Stuck, y: real): nat {
    if NearEqual(config, s.yPrev, y) then s.counter + 1 else 0
  }

  predicate Jumps(config: Config, s: Stuck, y: real) {
    config.forceJump != 0 && Counted(config, s, y) > config.forceJump
  }

  function CountOn(config: Config, s: Stuck, y: real): Stuck {
    if config.forceJump == 0 then s else Stuck(if Jumps(config, s, y) then 0 else Counted(config, s, y), y)
  }

  /** The sample that a step adds: the next query, or the forced jump. */
  function SampleOf(config: Config, s: Stuck, input: StepInput): (Point, real) {
    if Jumps(config, s, input.yNext) then (input.xJump, input.yJump) else (input.xNext, input.yNext)
  }

  function StuckAfter(config: Config, s: Stuck, inputs: seq<StepInput>, i: nat): Stuck
    requires i <= |inputs|
  {
    if i == 0 then s else CountOn(config, StuckAfter(config, s, inputs, i - 1), inputs[i - 1].yNext)
  }

  /** The number of values, up to the i-th, that were near their predecessors without interruption; those before the
      first input are in the counter. */
  function NearRun(config: Config, s: Stuck, inputs: seq<StepInput>, i: nat): nat
    requires i <= |inputs|
  {
    if i == 0 then s.counter
    else if !NearEqual(config, if i == 1 then s.yPrev else inputs[i - 2].yNext, inputs[i - 1].yNext) then 0
    else NearRun(config, s, inputs, i - 1) + 1
  }

  /** The counter is within its limit, as it is from the start and after every step. */
  ghost predicate Counting(config: Config, s: Stuck) {
    config.forceJump == 0 || s.counter <= config.forceJump
  }

  function Remainder(r: nat, m: nat): (k: nat)
    requires m > 0
    ensures k < m
  {
    r % m
  }

  lemma RemainderStep(r: nat, m: nat)
    requires m > 0
    ensures Remainder(0, m) == 0
    ensures Remainder(r + 1, m) == if Remainder(r, m) + 1 == m then 0 else Remainder(r, m) + 1
  {
    var q, k := r / m, r % m;
    assert r == q * m + k;
    assert (q + 1) * m == q * m + m;
    hide Remainder;
    IsRemainder(0, 0, 0, m);
    IsRemainder(r, q, k, m);
    if k + 1 == m {
      IsRemainder(r + 1, q + 1, 0, m);
    } else {
      IsRemainder(r + 1, q, k + 1, m);
    }
  }

  lemma IsRemainder(a: nat, q: nat, r: nat, m: nat)
    requires m > 0 && a == q * m + r && r < m
    ensures Remainder(a, m) == r
  {
    var d := a / m - q;
    assert d * m == r - a % m;
    if d >= 1 {
      AtLeast(d, m);
    } else if d <= -1 {
      assert (-d) * m == -(d * m);
      AtLeast(-d, m);
    }
  }

  lemma AtLeast(d: nat, m: nat)
    requires d >= 1
    ensures d * m >= m
  {
    assert d * m == (d - 1) * m + m;
  }

  lemma {:induction false} CounterIsRun(config: Config, s: Stuck, inputs: seq<StepInput>, i: nat)
    requires config.forceJump > 0 && Counting(config, s) && i <= |inputs|
    ensures StuckAfter(config, s, inputs, i).yPrev == if i == 0 then s.yPrev else inputs[i - 1].yNext
    ensures StuckAfter(config, s, inputs, i).counter == Remainder(NearRun(config, s, inputs, i), config.forceJump + 1)
    ensures Counting(config, StuckAfter(config, s, inputs, i))
  {
    hide NearEqual, Remainder;
    RemainderStep(0, config.forceJump + 1);
    if i > 0 {
      CounterIsRun(config, s, inputs, i - 1);
      RemainderStep(NearRun(config, s, inputs, i - 1), config.forceJump + 1);
    } else {
      IsRemainder(s.counter, 0, s.counter, config.forceJump + 1);
    }
  }

  /** A jump is forced exactly at every (force_jump + 1)-th value of an uninterrupted run of near-equal values. */
  lemma JumpsIff(config: Config, s: Stuck, inputs: seq<StepInput>, i: nat)
    requires Counting(config, s) && i < |inputs|
    ensures Jumps(config, StuckAfter(config, s, inputs, i), inputs[i].yNext) <==> IsForced(config, s, inputs, i)
  {
    hide NearEqual, StuckAfter, Remainder, Residues.Divides;
    if config.forceJump > 0 {
      CounterIsRun(config, s, inputs, i);
      RemainderStep(NearRun(config, s, inputs, i), config.forceJump + 1);
      RemainderDivides(NearRun(config, s, inputs, i + 1), config.forceJump + 1);
    }
  }

  lemma RemainderDivides(r: nat, m: nat)
    requires m > 0
    ensures Residues.Divides(m, r) <==> Remainder(r, m) == 0
  {
    Residues.DividesIff(m, r);
  }

  /** With the limit set, the values have been near their predecessors for a positive multiple of its successor. */
  ghost predicate IsForced(config: Config, s: Stuck, inputs: seq<StepInput>, i: nat)
    requires i < |inputs|
  {
    var r := NearRun(config, s, inputs, i + 1);
    config.forceJump > 0 && r > 0 && Residues.Divides(config.forceJump + 1, r)
  }

  // ----- relearning

  ghost predicate NoneDivided(d: nat, a: nat, b: nat) {
    forall n: nat | a < n <= b :: !Residues.Divides(d, n)
  }

  /** The hyperparameters are learned in the iterations whose number is a multiple of nIterRelearn: theta is what the
      last of these, among the iterations with the numbers from first + 1 to first + i, was given, and theta0 if there
      is none. */
  ghost predicate LastLearned(config: Config, first: nat, inputs: seq<StepInput>, i: nat, theta0: Params, theta: Params)
    requires i <= |inputs|
  {
    && (forall n: nat | first < n <= first + i && Residues.Divides(config.nIterRelearn, n)
                        && NoneDivided(config.nIterRelearn, n, first + i) :: theta == inputs[n - first - 1].theta)
    && (NoneDivided(config.nIterRelearn, first, first + i) ==> theta == theta0)
  }

  lemma NothingLearned(config: Config, first: nat, inputs: seq<StepInput>, theta0: Params)
    ensures LastLearned(config, first, inputs, 0, theta0, theta0)
  {
  }

  lemma LearnedStep(config: Config, first: nat, inputs: seq<StepInput>, i: nat, theta0: Params, theta: Params)
    requires i < |inputs| && LastLearned(config, first, inputs, i, theta0, theta)
    ensures LastLearned(config, first, inputs, i + 1, theta0,
              if Residues.Divides(config.nIterRelearn, first + i + 1) then inputs[i].theta else theta)
  {
    hide Residues.Divides, NoneDivided;
    var d, b := config.nIterRelearn, first + i;
    var theta' := if Residues.Divides(d, b + 1) then inputs[i].theta else theta;
    NoneMore(d, first, b);
    forall n: nat | first < n <= b + 1 && Residues.Divides(d, n) && NoneDivided(d, n, b + 1)
      ensures theta' == inputs[n - first - 1].theta
    {
      if n <= b {
        NoneMore(d, n, b);
      }
    }
  }

  lemma NoneMore(d: nat, a: nat, b: nat)
    requires a <= b
    ensures NoneDivided(d, a, b + 1) <==> NoneDivided(d, a, b) && !Residues.Divides(d, b + 1)
  {
    hide Residues.Divides;
  }

  lemma LearnsIff(config: Config, iteration: nat)
    ensures Residues.Divides(config.nIterRelearn, iteration + 1)
       <==> config.nIterRelearn > 0 && (iteration + 1) % config.nIterRelearn == 0
  {
    if config.nIterRelearn > 0 {
      Residues.DividesIff(config.nIterRelearn, iteration + 1);
    }
  }

  // ----- the samples of a run

  ghost predicate Samples(X: seq<Point>, Y: seq<real>, k: nat, sample: (Point, real)) {
    k < |X| && k < |Y| && X[k] == sample.0 && Y[k] == sample.1
  }

  /** X and Y are X0 and Y0 with the samples of the first i inputs appended. */
  ghost predicate Sampled(config: Config, s: Stuck, X0: seq<Point>, Y0: seq<real>, X: seq<Point>, Y: seq<real>,
                          inputs: seq<StepInput>, i: nat)
    requires i <= |inputs|
  {
    && |X0| == |Y0| && |X| == |Y| == |X0| + i && X[..|X0|] == X0 && Y[..|Y0|] == Y0
    && forall j | 0 <= j < i :: Samples(X, Y, |X0| + j, SampleOf(config, StuckAfter(config, s, inputs, j), inputs[j]))
  }

  lemma NothingSampled(config: Config, s: Stuck, X0: seq<Point>, Y0: seq<real>, inputs: seq<StepInput>)
    requires |X0| == |Y0|
    ensures Sampled(config, s, X0, Y0, X0, Y0, inputs, 0)
  {
  }

  lemma SampledStep(config: Config, s: Stuck, X0: seq<Point>, Y0: seq<real>, X: seq<Point>, Y: seq<real>,
                    inputs: seq<StepInput>, i: nat, sample: (Point, real))
    requires i < |inputs| && Sampled(config, s, X0, Y0, X, Y, inputs, i)
    requires sample == SampleOf(config, StuckAfter(config, s, inputs, i), inputs[i])
    ensures Sampled(config, s, X0, Y0, X + [sample.0], Y + [sample.1], inputs, i + 1)
  {
    hide SampleOf, StuckAfter;
    var X', Y' := X + [sample.0], Y + [sample.1];
    forall j | 0 <= j < i + 1
      ensures Samples(X', Y', |X0| + j, SampleOf(config, StuckAfter(config, s, inputs, j), inputs[j]))
    {
      assert j < i ==> Samples(X, Y, |X0| + j, SampleOf(config, StuckAfter(config, s, inputs, j), inputs[j]));
    }
  }

  /** The samples from place `first` on are those of the first m inputs: the forced jump, where there is one, and the
      next query elsewhere. */
  ghost predicate AddedRight(config: Config, s: Stuck, inputs: seq<StepInput>, m: nat, X: seq<Point>, Y: seq<real>,
                             first: nat)
    requires m <= |inputs|
  {
    && |X| == |Y| == first + m
    && forall j | 0 <= j < m :: AddedOne(inputs[j], IsForced(config, s, inputs, j), X[first + j], Y[first + j])
  }

  ghost predicate AddedOne(input: StepInput, forced: bool, x: Point, y: real) {
    if forced then x == input.xJump && y == input.yJump else x == input.xNext && y == input.yNext
  }

  lemma SampledRight(config: Config, s: Stuck, X0: seq<Point>, Y0: seq<real>, X: seq<Point>, Y: seq<real>,
                     inputs: seq<StepInput>, m: nat)
    requires m <= |inputs| && Sampled(config, s, X0, Y0, X, Y, inputs, m)
    ensures Counting(config, s) ==> AddedRight(config, s, inputs, m, X, Y, |X0|)
  {
    hide StuckAfter, Jumps, IsForced;
    if Counting(config, s) {
      forall j | 0 <= j < m ensures AddedOne(inputs[j], IsForced(config, s, inputs, j), X[|X0| + j], Y[|X0| + j]) {
        assert Samples(X, Y, |X0| + j, SampleOf(config, StuckAfter(config, s, inputs, j), inputs[j]));
        JumpsIff(config, s, inputs, j);
      }
    }
  }

  /** What is saved of an optimisation. */
  datatype BOptState = BOptState(mCurrentIter: nat, mCounterStuck: nat, mYPrev: real, config: Config,
                                 mX: seq<Point>, mY: seq<real>)

  class BayesOpt {
    var config: Config
    var model: GaussianProcess
    var mCurrentIter: nat
    var mCounterStuck: nat
    var mYPrev: real

    constructor (config: Config, sqrt: real -> real)
      ensures this.config == config && Configured() && fresh(model) && model.sqrt == sqrt
      ensures mCurrentIter == 0 && mCounterStuck == 0 && mYPrev == 0.0
    {
      this.config := config;
      model := new GaussianProcess(config.kernel, config.mean, sqrt, config.regularizer, config.sigma, [], [], []);
      mCurrentIter, mCounterStuck, mYPrev := 0, 0, 0.0;
    }

    /** The model is the one of the parameters. */
    ghost predicate Configured()
      reads this, model
    {
      && model.kernel == config.kernel && model.mean == config.mean
      && model.regularizer == config.regularizer && model.sigma == config.sigma
    }

    /** The invariant of the loop: the caches have the current sizes, and they are the factor of the current
        kernel matrix (and the solve with it) exactly when that matrix is positive definite. */
    ghost predicate Consistent()
      reads this, model, model.mL, model.mAlphaV
    {
      && Configured()
      && model.Valid()
      && IsSymmetric(model.kernel)
      && (model.Fitted() <==> PosDef(model.K(), |model.mX|))
    }

    /** A full refactoring of the current kernel matrix decides the same and gives the same lower triangle. */
    lemma CacheIsRefactoring(code: nat, M: Mat)
      requires Consistent() && Outcome(model.K(), |model.mX|, code, M)
      ensures code == 0 <==> model.Fitted()
      ensures code == 0 ==> SameLower(View(model.mL), M, |model.mX|)
    {
      hide PosDef, IsFactor, LowMul;
      OutcomeDecidesPosDef(model.K(), |model.mX|, code, M);
      if code == 0 {
        FactorUnique(View(model.mL), M, model.K(), |model.mX|);
      }
    }

    ghost function StuckState(): Stuck
      reads this
    {
      Stuck(mCounterStuck, mYPrev)
    }

    /** The jump logic: returns the sample to add. */
    method ChooseSample(input: StepInput) returns (xNext: Point, yNext: real)
      modifies this`mCounterStuck, this`mYPrev
      ensures (xNext, yNext) == SampleOf(config, old(StuckState()), input)
      ensures StuckState() == CountOn(config, old(StuckState()), input.yNext)
    {
      hide Times;
      xNext, yNext := input.xNext, input.yNext;
      if config.forceJump != 0 {
        if Times(mYPrev - yNext, mYPrev - yNext) < config.noise {
          mCounterStuck := mCounterStuck + 1;
        } else {
          mCounterStuck := 0;
        }
        mYPrev := yNext;
        if mCounterStuck > config.forceJump {
          xNext, yNext := input.xJump, input.yJump;
          mCounterStuck := 0;
        }
      }
    }

    /** Learns the hyperparameters, which are chosen outside, and fits the model from scratch. */
    method Relearn(theta: Params) returns (code: nat)
      requires |model.mX| == |model.mY| && IsSqrt(model.sqrt) && IsSymmetric(model.kernel) && Configured()
      modifies model
      ensures model.mX == old(model.mX) && model.mY == old(model.mY) && model.theta == theta
      ensures code == 0 <==> PosDef(model.K(), |model.mX|)
      ensures code == 0 ==> Consistent() && fresh(model.mL) && fresh(model.mAlphaV)
    {
      hide PosDef, IsFactor, LowMul, IsSqrt;
      model.SetHyperParameters(theta);
      code := model.FitSurrogateModel();
    }

    /** Adds a sample and updates the caches by one row. */
    method AddIncrementally(xNext: Point, yNext: real)
      requires Consistent()
      modifies model
      ensures model.mX == old(model.mX) + [xNext] && model.mY == old(model.mY) + [yNext]
        && model.theta == old(model.theta)
      ensures Consistent() && fresh(model.mL) && fresh(model.mAlphaV)
    {
      hide PosDef, IsFactor, LowMul, IsSqrt;
      ghost var X := model.mX;
      CachedFactorDecides();
      model.AddSample(xNext, yNext);
      assert model.mX[..|X|] == X;
      model.UpdateSurrogateModel();
    }

    lemma CachedFactorDecides()
      requires Consistent()
      ensures IsFactor(View(model.mL), model.K(), |model.mX|) <==> PosDef(model.K(), |model.mX|)
    {
      hide PosDef, IsFactor, LowMul, IsSqrt;
      if IsFactor(View(model.mL), model.K(), |model.mX|) {
        FactorImpliesPosDef(View(model.mL), model.K(), |model.mX|);
      }
    }

    /** One step. A code other than 0 is the exception of a failed refactoring, which leaves the step unfinished. */
    method StepOptimization(input: StepInput) returns (code: nat)
      requires Consistent()
      modifies this`mCurrentIter, this`mCounterStuck, this`mYPrev, model
      ensures model.mX == old(model.mX) + [SampleOf(config, old(StuckState()), input).0]
      ensures model.mY == old(model.mY) + [SampleOf(config, old(StuckState()), input).1]
      ensures Residues.Divides(config.nIterRelearn, old(mCurrentIter) + 1) ==> model.theta == input.theta
      ensures !Residues.Divides(config.nIterRelearn, old(mCurrentIter) + 1) ==> model.theta == old(model.theta)
      ensures StuckState() == CountOn(config, old(StuckState()), input.yNext)
      ensures code == 0 ==> Consistent() && fresh(model.mL) && fresh(model.mAlphaV)
      ensures code == 0 ==> mCurrentIter == old(mCurrentIter) + 1
      ensures code > 0 ==> mCurrentIter == old(mCurrentIter)
      ensures code > 0 <==>
              Residues.Divides(config.nIterRelearn, old(mCurrentIter) + 1) && !PosDef(model.K(), |model.mX|)
    {
      hide PosDef, IsFactor, LowMul, IsSqrt, SampleOf, CountOn, Residues.Divides;
      LearnsIff(config, mCurrentIter);
      code := 0;
      var xNext, yNext := ChooseSample(input);
      var retrain := config.nIterRelearn > 0 && (mCurrentIter + 1) % config.nIterRelearn == 0;
      if retrain {
        model.AddSample(xNext, yNext);
        code := Relearn(input.theta);
        if code != 0 {
          return;
        }
      } else {
        AddIncrementally(xNext, yNext);
      }
      mCurrentIter := mCurrentIter + 1;
    }

    /** The start of a run: the initial samples are fitted from scratch and the counters are reset. */
    method InitializeOptimization(xPoints: seq<Point>, yPoints: seq<real>, theta: Params) returns (code: nat)
      requires |xPoints| == |yPoints| && IsSqrt(model.sqrt) && IsSymmetric(model.kernel) && Configured()
      modifies this`mCurrentIter, this`mCounterStuck, this`mYPrev, model
      ensures model.mX == xPoints && model.mY == yPoints && model.theta == theta
      ensures code == 0 <==> PosDef(model.K(), |model.mX|)
      ensures code == 0 ==> Consistent() && mCurrentIter == 0 && StuckState() == UNSTUCK
    {
      hide PosDef, IsFactor, LowMul, IsSqrt;
      model.SetSamples(xPoints, yPoints);
      code := Relearn(theta);
      if code == 0 {
        mCurrentIter, mCounterStuck, mYPrev := 0, 0, 0.0;
      }
    }

    method SaveOptimization() returns (state: BOptState)
      ensures state == BOptState(mCurrentIter, mCounterStuck, mYPrev, config, model.mX, model.mY)
    {
      state := BOptState(mCurrentIter, mCounterStuck, mYPrev, config, model.mX, model.mY);
    }

    /** Restores a saved state: a new model is created from the saved parameters. Samples that were not evaluated when
        it was saved are evaluated now. */
    method RestoreOptimization(state: BOptState, evaluate: Point -> real, theta: Params) returns (code: nat)
      requires IsSqrt(model.sqrt) && IsSymmetric(state.config.kernel)
      modifies this
      ensures fresh(model) && config == state.config && Configured()
      ensures model.mX == state.mX && model.theta == theta && |model.mY| == |state.mX|
      ensures forall i | 0 <= i < |state.mX| ::
                model.mY[i] == if i < |state.mY| then state.mY[i] else evaluate(state.mX[i])
      ensures code == 0 <==> PosDef(model.K(), |model.mX|)
      ensures code == 0 ==> Consistent() && mCurrentIter == state.mCurrentIter
      ensures code == 0 ==> StuckState() == Stuck(state.mCounterStuck, state.mYPrev)
    {
      hide PosDef, IsFactor, LowMul, IsSqrt;
      config := state.config;
      model := new GaussianProcess(config.kernel, config.mean, model.sqrt, config.regularizer, config.sigma,
                                   [], [], []);
      var yPoints: seq<real> := [];
      for i := 0 to |state.mX|
        invariant |yPoints| == i
        invariant forall j | 0 <= j < i :: yPoints[j] == if j < |state.mY| then state.mY[j] else evaluate(state.mX[j])
      {
        yPoints := yPoints + [if i < |state.mY| then state.mY[i] else evaluate(state.mX[i])];
      }
      model.SetSamples(state.mX, yPoints);
      code := Relearn(theta);
      if code == 0 {
        mCurrentIter, mCounterStuck, mYPrev := state.mCurrentIter, state.mCounterStuck, state.mYPrev;
      }
    }

    /** A whole run, with one input for each remaining iteration. However relearning and incremental updates
        alternate, the caches are those of a full refactoring whenever there is one, and a run that ends
        early does so because a relearned kernel matrix is not positive definite. */
    method Optimize(inputs: seq<StepInput>) returns (code: nat)
      requires Consistent()
        && |inputs| == if mCurrentIter < config.nIterations then config.nIterations - mCurrentIter else 0
      modifies this`mCurrentIter, this`mCounterStuck, this`mYPrev, model
      ensures code == 0 ==> Consistent() && mCurrentIter == old(mCurrentIter) + |inputs|
      ensures code == 0 ==> StuckState() == StuckAfter(config, old(StuckState()), inputs, |inputs|)
      ensures code == 0 ==>
        Sampled(config, old(StuckState()), old(model.mX), old(model.mY), model.mX, model.mY, inputs, |inputs|)
      ensures code == 0 && Counting(config, old(StuckState())) ==>
        AddedRight(config, old(StuckState()), inputs, |inputs|, model.mX, model.mY, old(|model.mX|))
      ensures code == 0 ==>
        LastLearned(config, old(mCurrentIter), inputs, |inputs|, old(model.theta), model.theta)
      ensures code > 0 ==> var j := mCurrentIter - old(mCurrentIter);
        && 0 <= j < |inputs|
        && Residues.Divides(config.nIterRelearn, mCurrentIter + 1) && model.theta == inputs[j].theta
        && Sampled(config, old(StuckState()), old(model.mX), old(model.mY), model.mX, model.mY, inputs, j + 1)
        && (Counting(config, old(StuckState())) ==>
              AddedRight(config, old(StuckState()), inputs, j + 1, model.mX, model.mY, old(|model.mX|)))
        && !PosDef(model.K(), |model.mX|)
    {
      hide PosDef, Consistent, Sampled, Residues.Divides, LastLearned, SampleOf, CountOn, Counting, AddedRight;
      ghost var s, X0, Y0, theta0 := StuckState(), model.mX, model.mY, model.theta;
      NothingLearned(config, mCurrentIter, inputs, theta0);
      assert |X0| == |Y0| by { SameSizes(); }
      NothingSampled(config, s, X0, Y0, inputs);
      for i := 0 to |inputs|
        invariant mCurrentIter == old(mCurrentIter) + i && Consistent()
        invariant StuckState() == StuckAfter(config, s, inputs, i)
        invariant Sampled(config, s, X0, Y0, model.mX, model.mY, inputs, i)
        invariant LastLearned(config, old(mCurrentIter), inputs, i, theta0, model.theta)
      {
        ghost var X, Y := model.mX, model.mY;
        ghost var sample := SampleOf(config, StuckState(), inputs[i]);
        SampledStep(config, s, X0, Y0, X, Y, inputs, i, sample);
        LearnedStep(config, old(mCurrentIter), inputs, i, theta0, model.theta);
        code := StepOptimization(inputs[i]);
        SampledRight(config, s, X0, Y0, model.mX, model.mY, inputs, i + 1);
        if code != 0 {
          return;
        }
      }
      SampledRight(config, s, X0, Y0, model.mX, model.mY, inputs, |inputs|);
      return 0;
    }

    lemma SameSizes()
      requires Consistent()
      ensures |model.mX| == |model.mY|
    {
    }
  }

  /** Two optimisers with the same samples and hyperparameters have the same caches, whatever steps led to them: so
      has one that was saved and restored. */
  lemma ConsistentModelsAgree(a: BayesOpt, b: BayesOpt)
    requires a.Consistent() && b.Consistent()
    requires a.model.kernel == b.model.kernel && a.model.mean == b.model.mean
      && a.model.regularizer == b.model.regularizer
    requires a.model.theta == b.model.theta && a.model.mX == b.model.mX && a.model.mY == b.model.mY
    ensures a.model.Fitted() <==> b.model.Fitted()
    ensures a.model.Fitted() ==> SameLower(View(a.model.mL), View(b.model.mL), |a.model.mX|)
    ensures a.model.Fitted() ==> a.model.mAlphaV[..] == b.model.mAlphaV[..]
  {
    hide PosDef, IsFactor, LowMul, IsSqrt, KernelMatrix;
    if a.model.Fitted() {
      var n, L, M := |a.model.mX|, View(a.model.mL), View(b.model.mL);
      FactorUnique(L, M, a.model.K(), n);
      SolutionUnique(L, M, a.model.K(), n, a.model.mAlphaV[..], b.model.mAlphaV[..]);
    }
  }

  /** Saving and restoring: the other optimiser, whatever it was before, becomes like the saved one, with the same
      caches, if the hyperparameters are learned to be the same; it fails exactly when the saved one has no factor. */
  method SaveAndRestore(a: BayesOpt, b: BayesOpt, evaluate: Point -> real) returns (code: nat)
    requires a != b && a.Consistent() && IsSqrt(b.model.sqrt)
    modifies b
    ensures code == 0 <==> a.model.Fitted()
    ensures b.config == a.config && b.model.mX == a.model.mX && b.model.mY == a.model.mY
    ensures code == 0 ==> b.Consistent() && b.mCurrentIter == a.mCurrentIter && b.StuckState() == a.StuckState()
    ensures code == 0 ==> b.model.Fitted() && SameLower(View(a.model.mL), View(b.model.mL), |a.model.mX|)
    ensures code == 0 ==> a.model.mAlphaV[..] == b.model.mAlphaV[..]
  {
    hide PosDef, IsFactor, LowMul, IsSqrt, KernelMatrix;
    a.SameSizes();
    var state := a.SaveOptimization();
    code := b.RestoreOptimization(state, evaluate, a.model.theta);
    assert b.model.mY == a.model.mY;
    if code == 0 {
      ConsistentModelsAgree(a, b);
    }
  }

  /** Solutions with two factors of one matrix are the same. */
  lemma SolutionUnique(L: Mat, M: Mat, K: Mat, n: nat, y: Vec, y': Vec)
    requires LowerShape(K, n) && IsFactor(L, K, n) && IsFactor(M, K, n) && |y| == |y'| == n
    requires LowMul(L, n, y) == LowMul(M, n, y')
    ensures y == y'
  {
    hide Reproduces, Dot;
    FactorUnique(L, M, K, n);
    assert LowMul(M, n, y') == LowMul(L, n, y') by { SameProduct(L, M, n, y'); }
    hide LowMul;
    LowMulInjective(L, n, y, y', n);
    assert y[..n] == y && y'[..n] == y';
  }

  lemma SameProduct(L: Mat, M: Mat, n: nat, y: Vec)
    requires LowerShape(L, n) && LowerShape(M, n) && SameLower(L, M, n) && |y| == n
    ensures LowMul(M, n, y) == LowMul(L, n, y)
  {
    hide Dot;
    forall i | 0 <= i < n ensures Dot(M[i], y, i + 1) == Dot(L[i], y, i + 1) {
      DotCongruent(M[i], L[i], y, y, i + 1);
    }
  }
}
