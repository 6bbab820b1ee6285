/** Termination of src/starter.c: every run under a fair scheduler ends. The main thread polls the counter, so that
    without fairness it can poll for ever. */
module ThreadFairness {
  import opened ThreadLimit
  import opened ThreadProgress

  /** An endless sequence of states, in which a program that has ended stays as it is. */
  type Endless = nat -> State

  ghost predicate StepsAt(run: Endless, nCPUs: int, k: nat) {
    Next(run(k), run(k + 1), nCPUs) || (run(k).pc == Done && run(k + 1) == run(k))
  }

  ghost predicate IsEndlessRun(run: Endless, nCPUs: int) {
    Init(run(0)) && forall k: nat :: StepsAt(run, nCPUs, k)
  }

  ghost predicate MovesWorker(s: State, s': State, i: nat) {
    WorkerEnabled(s, i) && exists fails :: s' == WorkerStep(s, i, fails)
  }

  ghost predicate Moves(run: Endless, i: nat, k: nat) {
    MovesWorker(run(k), run(k + 1), i)
  }

  ghost predicate EnabledAgain(run: Endless, i: nat, k: nat) {
    exists j: nat :: k <= j && WorkerEnabled(run(j), i)
  }

  ghost predicate MovesAgain(run: Endless, i: nat, k: nat) {
    exists j: nat :: k <= j && Moves(run, i, j)
  }

  ghost predicate OftenEnabled(run: Endless, i: nat) {
    forall k: nat :: EnabledAgain(run, i, k)
  }

  ghost predicate OftenMoves(run: Endless, i: nat) {
    forall k: nat :: MovesAgain(run, i, k)
  }

  /** Strong fairness: a worker that can move again and again does move again and again. */
  ghost predicate StronglyFair(run: Endless) {
    forall i: nat | OftenEnabled(run, i) :: OftenMoves(run, i)
  }

  // ----- the measure

  /** The main thread has less left, or the workers have. */
  ghost predicate Ahead(s': State, s: State) {
    var l', l := Stages(s'.pc, |s'.lines|), Stages(s.pc, |s.lines|);
    l' < l || (l' == l && WorkLeft(s'.workers) < WorkLeft(s.workers))
  }

  predicate Polls(pc: MainPc) {
    WaitLoop(pc) || DrainLoop(pc)
  }

  /** The main thread stays in its polling loop, and nothing else changes but what it reads and the mutex. */
  ghost predicate Spins(s: State, s': State, nCPUs: int) {
    && Polls(s.pc) && MainEnabled(s) && s' == MainStep(s, nCPUs)
    && Stages(s'.pc, |s'.lines|) == Stages(s.pc, |s.lines|) && s'.workers == s.workers && Polls(s'.pc)
  }

  lemma WorkerStepIsAhead(s: State, i: nat, fails: bool)
    requires WorkerEnabled(s, i)
    ensures Ahead(WorkerStep(s, i, fails), s)
  {
    var s' := WorkerStep(s, i, fails);
    WorkUpdate(s.workers, i, s'.workers[i]);
    assert s'.pc == s.pc && s'.lines == s.lines;
  }

  lemma MainStepIsAheadOrSpins(s: State, nCPUs: int)
    requires MainEnabled(s)
    ensures Ahead(MainStep(s, nCPUs), s) || Spins(s, MainStep(s, nCPUs), nCPUs)
  {
    hide WorkLeft;
  }

  /** Every step gets ahead, or polls. */
  lemma StepIsAheadOrSpins(s: State, s': State, nCPUs: int)
    requires Next(s, s', nCPUs)
    ensures Ahead(s', s) || Spins(s, s', nCPUs)
  {
    hide Ahead, Spins, MainStep, WorkerStep;
    if MainEnabled(s) && s' == MainStep(s, nCPUs) {
      MainStepIsAheadOrSpins(s, nCPUs);
    } else {
      var i, fails :| WorkerEnabled(s, i) && s' == WorkerStep(s, i, fails);
      WorkerStepIsAhead(s, i, fails);
    }
  }

  /** With no workers left, polling ends. */
  lemma SpinUnwinds(s: State, s': State, nCPUs: int)
    requires Inv(s, nCPUs) && Servable(s, nCPUs) && Spins(s, s', nCPUs) && WorkLeft(s.workers) == 0
    ensures LoopLeft(s', nCPUs) < LoopLeft(s, nCPUs)
  {
    NobodyLeft(s.workers);
    hide WorkLeft, CountedWorkers;
  }

  // ----- an endless run without progress

  lemma {:induction false} EndlessKeepsInv(run: Endless, nCPUs: int, k: nat)
    requires IsEndlessRun(run, nCPUs)
    ensures Inv(run(k), nCPUs)
  {
    hide Next;
    if k == 0 {
      InitInv(run(0), nCPUs);
    } else {
      EndlessKeepsInv(run, nCPUs, k - 1);
      assert StepsAt(run, nCPUs, k - 1);
      if Next(run(k - 1), run(k), nCPUs) {
        NextKeepsInv(run(k - 1), run(k), nCPUs);
      }
    }
  }

  lemma InitInv(s: State, nCPUs: int)
    requires Init(s)
    ensures Inv(s, nCPUs)
  {
  }

  lemma ServableStays(s: State, s': State, nCPUs: int)
    requires Servable(s, nCPUs) && Next(s, s', nCPUs)
    ensures Servable(s', nCPUs)
  {
  }

  lemma {:induction false} EndlessStaysServable(run: Endless, nCPUs: int, k: nat)
    requires IsEndlessRun(run, nCPUs) && Servable(run(0), nCPUs)
    ensures Servable(run(k), nCPUs)
  {
    hide Next, Servable;
    if k > 0 {
      EndlessStaysServable(run, nCPUs, k - 1);
      assert StepsAt(run, nCPUs, k - 1);
      if Next(run(k - 1), run(k), nCPUs) {
        ServableStays(run(k - 1), run(k), nCPUs);
      }
    }
  }

  /** From k on, nothing but polling happens. */
  ghost predicate OnlySpins(run: Endless, nCPUs: int, k: nat) {
    forall j: nat | k <= j :: SpinsAt(run, nCPUs, j)
  }

  ghost predicate SpinsAt(run: Endless, nCPUs: int, j: nat) {
    Spins(run(j), run(j + 1), nCPUs)
  }

  lemma {:induction false} SameWorkers(run: Endless, nCPUs: int, k: nat, j: nat)
    requires OnlySpins(run, nCPUs, k) && k <= j
    ensures run(j).workers == run(k).workers
    decreases j
  {
    hide Spins;
    if k < j {
      SameWorkers(run, nCPUs, k, j - 1);
      assert SpinsAt(run, nCPUs, j - 1);
      SpinKeeps(run(j - 1), run(j), nCPUs);
    }
  }

  lemma SpinKeeps(s: State, s': State, nCPUs: int)
    requires Spins(s, s', nCPUs)
    ensures s'.workers == s.workers && Polls(s.pc) && s.pc != Done
  {
    hide WorkLeft;
  }

  lemma {:induction false} SpinningNeedsWorkers(run: Endless, nCPUs: int, k: nat)
    requires IsEndlessRun(run, nCPUs) && Servable(run(0), nCPUs) && OnlySpins(run, nCPUs, k)
    ensures WorkLeft(run(k).workers) > 0
    decreases LoopLeft(run(k), nCPUs)
  {
    hide Spins, LoopLeft, WorkLeft, IsEndlessRun, Inv, Servable;
    if WorkLeft(run(k).workers) == 0 {
      EndlessKeepsInv(run, nCPUs, k);
      EndlessStaysServable(run, nCPUs, k);
      assert SpinsAt(run, nCPUs, k);
      SpinUnwinds(run(k), run(k + 1), nCPUs);
      SpinKeeps(run(k), run(k + 1), nCPUs);
      SpinningNeedsWorkers(run, nCPUs, k + 1);
      assert false;
    }
  }

  /** Between two rounds of polling the mutex is free, so that all workers that are left can move again and again. */
  lemma WorkerEnabledAgain(run: Endless, nCPUs: int, k: nat, i: nat, m: nat)
    requires IsEndlessRun(run, nCPUs) && OnlySpins(run, nCPUs, k) && i < |run(k).workers| && run(k).workers[i] != Gone
    ensures EnabledAgain(run, i, m)
  {
    hide Spins, IsEndlessRun, Inv;
    var n := if m < k then k else m;
    forall j: nat | n <= j ensures SpinsAt(run, nCPUs, j) {
    }
    var j := AllFree(run, nCPUs, n);
    SameWorkers(run, nCPUs, k, j);
    assert WorkerEnabled(run(j), i);
  }

  lemma AllFree(run: Endless, nCPUs: int, k: nat) returns (j: nat)
    requires IsEndlessRun(run, nCPUs) && OnlySpins(run, nCPUs, k)
    ensures k <= j && run(j).holder == Nobody
  {
    hide IsEndlessRun, OnlySpins;
    j := AtLock(run, nCPUs, k);
    assert SpinsAt(run, nCPUs, j) by { SpinsLater(run, nCPUs, k, j); }
    hide WorkLeft;
  }

  lemma SpinsLater(run: Endless, nCPUs: int, k: nat, j: nat)
    requires OnlySpins(run, nCPUs, k) && k <= j
    ensures SpinsAt(run, nCPUs, j) && OnlySpins(run, nCPUs, j)
  {
    hide SpinsAt;
  }

  function ToLock(pc: MainPc): nat {
    match pc
    case WaitLoad | DrainLoad => 3
    case WaitUnlock | DrainUnlock => 2
    case WaitTest | DrainTest => 1
    case _ => 0
  }

  lemma SpinReachesLock(s: State, s': State, nCPUs: int)
    requires Spins(s, s', nCPUs) && !MainTakesMutex(s.pc)
    ensures ToLock(s'.pc) < ToLock(s.pc)
  {
    hide WorkLeft;
  }

  lemma {:induction false} AtLock(run: Endless, nCPUs: int, k: nat) returns (j: nat)
    requires OnlySpins(run, nCPUs, k)
    ensures k <= j && MainTakesMutex(run(j).pc)
    decreases ToLock(run(k).pc)
  {
    hide OnlySpins, MainTakesMutex, Spins;
    if MainTakesMutex(run(k).pc) {
      j := k;
    } else {
      SpinsLater(run, nCPUs, k, k);
      SpinReachesLock(run(k), run(k + 1), nCPUs);
      SpinsLater(run, nCPUs, k, k + 1);
      j := AtLock(run, nCPUs, k + 1);
    }
  }

  lemma SpinningIsUnfair(run: Endless, nCPUs: int, k: nat)
    requires IsEndlessRun(run, nCPUs) && Servable(run(0), nCPUs) && OnlySpins(run, nCPUs, k)
    ensures !StronglyFair(run)
  {
    hide IsEndlessRun, OnlySpins, EnabledAgain, Spins, WorkLeft, Servable;
    SpinningNeedsWorkers(run, nCPUs, k);
    var i := SomeoneLeft(run(k).workers);
    forall m: nat ensures EnabledAgain(run, i, m) {
      WorkerEnabledAgain(run, nCPUs, k, i, m);
    }
    if StronglyFair(run) {
      assert OftenEnabled(run, i);
      assert MovesAgain(run, i, k);
      var j: nat :| k <= j && Moves(run, i, j);
      SpinsLater(run, nCPUs, k, j);
      SpinIsNoWorkerStep(run(j), run(j + 1), nCPUs, i);
      assert false;
    }
  }

  lemma SpinIsNoWorkerStep(s: State, s': State, nCPUs: int, i: nat)
    requires Spins(s, s', nCPUs)
    ensures !MovesWorker(s, s', i)
  {
    hide WorkLeft, MainStep, WorkerStep;
    if WorkerEnabled(s, i) {
      forall fails ensures WorkerStep(s, i, fails).workers != s.workers {
        WorkerStepChanges(s, i, fails);
      }
    }
  }

  lemma WorkerStepChanges(s: State, i: nat, fails: bool)
    requires WorkerEnabled(s, i)
    ensures WorkerStep(s, i, fails).workers != s.workers
  {
    assert WorkerStep(s, i, fails).workers[i] != s.workers[i];
  }

  // ----- termination

  /** From every state before the end, a fair run gets ahead. */
  lemma GetsAhead(run: Endless, nCPUs: int, k: nat) returns (j: nat)
    requires IsEndlessRun(run, nCPUs) && Servable(run(0), nCPUs) && StronglyFair(run) && run(k).pc != Done
    ensures k < j && Ahead(run(j), run(k))
  {
    hide Ahead, Spins, StronglyFair, Next, Servable;
    if OnlySpins(run, nCPUs, k) {
      SpinningIsUnfair(run, nCPUs, k);
      assert false;
    }
    j :| k <= j && !SpinsAt(run, nCPUs, j);
    j := FirstNoSpin(run, nCPUs, k, j);
    LevelSpins(run, nCPUs, k, j);
    assert StepsAt(run, nCPUs, j);
    StepIsAheadOrSpins(run(j), run(j + 1), nCPUs);
    AheadOfLevel(run(j + 1), run(j), run(k));
    j := j + 1;
  }

  lemma {:induction false} FirstNoSpin(run: Endless, nCPUs: int, k: nat, m: nat) returns (j: nat)
    requires k <= m && !SpinsAt(run, nCPUs, m)
    ensures k <= j && !SpinsAt(run, nCPUs, j) && forall i: nat | k <= i < j :: SpinsAt(run, nCPUs, i)
    decreases m - k
  {
    hide SpinsAt;
    if SpinsAt(run, nCPUs, k) {
      j := FirstNoSpin(run, nCPUs, k + 1, m);
    } else {
      j := k;
    }
  }

  ghost predicate Level(s': State, s: State) {
    Stages(s'.pc, |s'.lines|) == Stages(s.pc, |s.lines|) && s'.workers == s.workers && (s.pc == Done <==> s'.pc == Done)
  }

  lemma {:induction false} LevelSpins(run: Endless, nCPUs: int, k: nat, j: nat)
    requires k <= j && forall i: nat | k <= i < j :: SpinsAt(run, nCPUs, i)
    ensures Level(run(j), run(k))
    decreases j
  {
    hide Spins;
    if k < j {
      LevelSpins(run, nCPUs, k, j - 1);
      assert SpinsAt(run, nCPUs, j - 1);
      SpinIsLevel(run(j - 1), run(j), nCPUs);
    }
  }

  lemma SpinIsLevel(s: State, s': State, nCPUs: int)
    requires Spins(s, s', nCPUs)
    ensures Level(s', s)
  {
    hide WorkLeft, MainStep;
  }

  lemma AheadOfLevel(s'': State, s': State, s: State)
    requires Ahead(s'', s') && Level(s', s)
    ensures Ahead(s'', s)
  {
  }

  lemma {:induction false} FinishesFrom(run: Endless, nCPUs: int, k: nat) returns (j: nat)
    requires IsEndlessRun(run, nCPUs) && Servable(run(0), nCPUs) && StronglyFair(run)
    ensures run(j).pc == Done
    decreases Stages(run(k).pc, |run(k).lines|), WorkLeft(run(k).workers)
  {
    hide IsEndlessRun, StronglyFair, Stages, WorkLeft, Servable;
    if run(k).pc == Done {
      j := k;
    } else {
      var m := GetsAhead(run, nCPUs, k);
      j := FinishesFrom(run, nCPUs, m);
    }
  }

  lemma {:induction false} EndlessStaysStuck(run: Endless, nCPUs: int, k: nat)
    requires IsEndlessRun(run, nCPUs) && nCPUs < 2 && Stuck(run(0))
    ensures Stuck(run(k))
  {
    hide Next, Inv;
    if k > 0 {
      EndlessStaysStuck(run, nCPUs, k - 1);
      EndlessKeepsInv(run, nCPUs, k - 1);
      assert StepsAt(run, nCPUs, k - 1);
      StuckStays(run(k - 1), run(k), nCPUs);
    }
  }

  /** A run under a fair scheduler ends if and only if there are two CPUs or no command. */
  lemma FairRunFinishesIff(run: Endless, nCPUs: int)
    requires IsEndlessRun(run, nCPUs) && StronglyFair(run)
    ensures (exists k: nat :: run(k).pc == Done) <==> nCPUs >= 2 || Commands(run(0).lines) == 0
  {
    if nCPUs >= 2 || Commands(run(0).lines) == 0 {
      var k := FinishesFrom(run, nCPUs, 0);
    } else {
      forall k: nat ensures run(k).pc != Done {
        EndlessStaysStuck(run, nCPUs, k);
      }
    }
  }

  // ----- why fairness is needed

  /** The main thread alone. */
  function Alone(s: State, nCPUs: int, k: nat): State {
    if k == 0 then s
    else
      var t := Alone(s, nCPUs, k - 1);
      if MainEnabled(t) then MainStep(t, nCPUs) else t
  }

  const ONE_COMMAND := State(ReadLine, 0, 0, Nobody, [], [true], 0)

  /** Where the main thread is when nobody else moves: the first steps, and then a round of polling. */
  ghost predicate WaitsForWorker(s: State) {
    && s.running == 1 && s.workers == [Running] && s.lines == [] && s.nLines == 1 && DrainLoop(s.pc)
    && (s.holder == if s.pc == DrainLoad || s.pc == DrainUnlock then Main else Nobody)
    && (s.pc == DrainUnlock || s.pc == DrainTest ==> s.counter == 1)
  }

  lemma AloneStep(s: State, nCPUs: int, k: nat)
    requires MainEnabled(Alone(s, nCPUs, k))
    ensures Alone(s, nCPUs, k + 1) == MainStep(Alone(s, nCPUs, k), nCPUs)
  {
  }

  /** The main thread reads its command, launches the worker, finds no more input, and begins to poll. */
  lemma FirstSteps()
    ensures forall k: nat | k < 10 :: MainEnabled(Alone(ONE_COMMAND, 2, k)) && Alone(ONE_COMMAND, 2, k).pc != Done
    ensures WaitsForWorker(Alone(ONE_COMMAND, 2, 10))
  {
    var s := ONE_COMMAND;
    AloneStarts();
    hide Alone, WaitsForWorker;
    AloneStep(s, 2, 0);
    assert Alone(s, 2, 1) == State(WaitLock, 0, 0, Nobody, [], [], 0);
    AloneStep(s, 2, 1);
    AloneStep(s, 2, 2);
    AloneStep(s, 2, 3);
    AloneStep(s, 2, 4);
    assert Alone(s, 2, 5) == State(IncLock, 0, 0, Nobody, [], [], 0);
    AloneStep(s, 2, 5);
    AloneStep(s, 2, 6);
    AloneStep(s, 2, 7);
    assert Alone(s, 2, 8) == State(Create, 0, 1, Nobody, [], [], 0);
    LastFirstSteps();
    forall k: nat | k < 10 ensures MainEnabled(Alone(s, 2, k)) && Alone(s, 2, k).pc != Done {
      assert k == 0 || k == 1 || k == 2 || k == 3 || k == 4 || k == 5 || k == 6 || k == 7 || k == 8 || k == 9;
    }
  }

  lemma LastFirstSteps()
    requires Alone(ONE_COMMAND, 2, 8) == State(Create, 0, 1, Nobody, [], [], 0)
    ensures MainEnabled(Alone(ONE_COMMAND, 2, 9)) && Alone(ONE_COMMAND, 2, 9).pc != Done
    ensures WaitsForWorker(Alone(ONE_COMMAND, 2, 10))
  {
    hide Alone;
    AloneStep(ONE_COMMAND, 2, 8);
    assert Alone(ONE_COMMAND, 2, 9) == State(ReadLine, 0, 1, Nobody, [Running], [], 1);
    AloneStep(ONE_COMMAND, 2, 9);
  }

  lemma {:induction false} StaysWaiting(k: nat)
    requires k >= 10
    ensures WaitsForWorker(Alone(ONE_COMMAND, 2, k))
  {
    if k == 10 {
      FirstSteps();
    } else {
      StaysWaiting(k - 1);
    }
  }

  /** Without fairness the program need not end: the main thread can poll for ever while a command runs. */
  lemma UnfairRunsNeedNotFinish()
    ensures var run := (k: nat) => Alone(ONE_COMMAND, 2, k);
      IsEndlessRun(run, 2) && forall k: nat :: run(k).pc != Done
  {
    var run := (k: nat) => Alone(ONE_COMMAND, 2, k);
    hide Alone, WaitsForWorker, MainStep;
    forall k: nat ensures StepsAt(run, 2, k) && run(k).pc != Done {
      AloneSteps(k);
    }
    assert run(0) == ONE_COMMAND by { AloneStarts(); }
  }

  lemma AloneStarts()
    ensures Alone(ONE_COMMAND, 2, 0) == ONE_COMMAND
  {
  }

  lemma AloneSteps(k: nat)
    ensures var s := Alone(ONE_COMMAND, 2, k);
      s.pc != Done && MainEnabled(s) && Alone(ONE_COMMAND, 2, k + 1) == MainStep(s, 2)
  {
    FirstSteps();
    if k >= 10 {
      StaysWaiting(k);
    }
  }
}
