/** Progress of src/starter.c: from where, and with how many CPUs, the program can always still finish. */
module ThreadProgress {
  import opened ThreadLimit

  /** Some continuation from s ends. */
  ghost predicate CanFinish(s: State, nCPUs: int) {
    exists run: seq<State> :: IsPath(run, nCPUs) && run[0] == s && run[|run| - 1].pc == Done
  }

  ghost predicate IsPath(run: seq<State>, nCPUs: int) {
    |run| > 0 && forall k | 0 <= k < |run| - 1 :: Next(run[k], run[k + 1], nCPUs)
  }

  lemma FinishLater(s: State, s': State, nCPUs: int)
    requires Next(s, s', nCPUs) && CanFinish(s', nCPUs)
    ensures CanFinish(s, nCPUs)
  {
    hide Next;
    var run: seq<State> :| IsPath(run, nCPUs) && run[0] == s' && run[|run| - 1].pc == Done;
    var longer := [s] + run;
    forall k | 0 <= k < |longer| - 1 ensures Next(longer[k], longer[k + 1], nCPUs) {
      assert k > 0 ==> longer[k] == run[k - 1] && longer[k + 1] == run[k - 1 + 1];
    }
    assert longer[|longer| - 1] == run[|run| - 1];
  }

  // ----- what decreases

  predicate WaitLoop(pc: MainPc) {
    pc == WaitLock || pc == WaitLoad || pc == WaitUnlock || pc == WaitTest
  }

  predicate DrainLoop(pc: MainPc) {
    pc == DrainLock || pc == DrainLoad || pc == DrainUnlock || pc == DrainTest
  }

  /** What is left for the main thread, not looking inside its waiting loops. */
  function Stages(pc: MainPc, lines: nat): nat {
    match pc
    case ReadLine => 6 * lines + 3
    case WaitLock | WaitLoad | WaitUnlock | WaitTest => 6 * lines + 8
    case IncLock => 6 * lines + 7
    case Increment => 6 * lines + 6
    case IncUnlock => 6 * lines + 5
    case Create => 6 * lines + 4
    case DrainLock | DrainLoad | DrainUnlock | DrainTest => 2
    case Destroy => 1
    case Done => 0
  }

  function WorkerRank(w: WorkerPc): nat {
    match w
    case Running => 8
    case ReportLock => 7
    case Report => 6
    case ReportUnlock => 5
    case DecLock => 4
    case Decrement => 3
    case DecUnlock => 2
    case Exiting => 1
    case Gone => 0
  }

  /** What is left for the workers. */
  function WorkLeft(ws: seq<WorkerPc>): nat {
    if ws == [] then 0 else WorkerRank(ws[0]) + WorkLeft(ws[1..])
  }

  lemma {:induction false} WorkUpdate(ws: seq<WorkerPc>, i: nat, w: WorkerPc)
    requires i < |ws|
    ensures WorkLeft(ws[i := w]) == WorkLeft(ws) - WorkerRank(ws[i]) + WorkerRank(w)
  {
    if i > 0 {
      assert ws[i := w][1..] == ws[1..][i - 1 := w];
      WorkUpdate(ws[1..], i - 1, w);
    } else {
      assert ws[i := w][1..] == ws[1..];
    }
  }

  /** The value read last will let the main thread leave its waiting loop. */
  predicate Passes(s: State, nCPUs: int) {
    if WaitLoop(s.pc) then s.counter < nCPUs - 1 else s.counter == 0
  }

  /** The steps to the release of the mutex while workers are left, and to the end of the loop when none is. */
  function LoopLeft(s: State, nCPUs: int): nat {
    if WorkLeft(s.workers) > 0 then
      (match s.pc case WaitLoad | DrainLoad => 2 case WaitUnlock | DrainUnlock => 1 case _ => 0)
    else
      match s.pc
      case WaitLock | DrainLock => 3
      case WaitLoad | DrainLoad => 2
      case WaitUnlock | DrainUnlock => if Passes(s, nCPUs) then 1 else 5
      case WaitTest | DrainTest => if Passes(s, nCPUs) then 0 else 4
      case _ => 0
  }

  ghost predicate Less(s': State, s: State, nCPUs: int) {
    var l', l := Stages(s'.pc, |s'.lines|), Stages(s.pc, |s.lines|);
    var w', w := WorkLeft(s'.workers), WorkLeft(s.workers);
    l' < l || (l' == l && (w' < w || (w' == w && LoopLeft(s', nCPUs) < LoopLeft(s, nCPUs))))
  }

  /** There are CPUs for workers, or there is nothing to launch. */
  ghost predicate Servable(s: State, nCPUs: int) {
    nCPUs >= 2 || (Commands(s.lines) == 0 && InHand(s.pc) == 0)
  }

  // ----- one step of progress

  lemma WorkerProgress(s: State, nCPUs: int, i: nat) returns (s': State)
    requires WorkerEnabled(s, i)
    ensures Next(s, s', nCPUs) && Less(s', s, nCPUs) && (Servable(s, nCPUs) ==> Servable(s', nCPUs))
  {
    s' := WorkerStep(s, i, false);
    WorkUpdate(s.workers, i, s'.workers[i]);
  }

  lemma {:induction false} SomeoneLeft(ws: seq<WorkerPc>) returns (i: nat)
    requires WorkLeft(ws) > 0
    ensures i < |ws| && ws[i] != Gone
  {
    if ws[0] != Gone {
      i := 0;
    } else {
      var j := SomeoneLeft(ws[1..]);
      i := j + 1;
    }
  }

  lemma {:induction false} NobodyLeft(ws: seq<WorkerPc>)
    requires WorkLeft(ws) == 0
    ensures CountedWorkers(ws) == 0 && forall i | 0 <= i < |ws| :: ws[i] == Gone
  {
    if ws != [] {
      NobodyLeft(ws[1..]);
      forall i | 0 <= i < |ws| ensures ws[i] == Gone {
        assert i > 0 ==> ws[i] == ws[1..][i - 1];
      }
    }
  }

  /** If the mutex is not free, its holder can move; if it is free, everybody can. */
  lemma WorkersCanMove(s: State, nCPUs: int) returns (i: nat)
    requires MutexInv(s) && WorkLeft(s.workers) > 0 && s.holder != Main
    ensures WorkerEnabled(s, i)
  {
    i := SomeoneLeft(s.workers);
    if s.holder.Worker? {
      i := s.holder.i;
    }
  }

  lemma Progress(s: State, nCPUs: int) returns (s': State)
    requires Inv(s, nCPUs) && Servable(s, nCPUs) && s.pc != Done
    ensures Next(s, s', nCPUs) && Less(s', s, nCPUs) && Servable(s', nCPUs)
  {
    hide WorkLeft, CountedWorkers, Less, Servable, Next;
    if (WaitLoop(s.pc) || DrainLoop(s.pc)) && WorkLeft(s.workers) > 0 && s.holder != Main {
      var i := WorkersCanMove(s, nCPUs);
      s' := WorkerProgress(s, nCPUs, i);
    } else if !MainEnabled(s) {
      s' := WorkerProgress(s, nCPUs, s.holder.i);
    } else {
      if WorkLeft(s.workers) == 0 {
        NobodyLeft(s.workers);
      }
      s' := MainProgress(s, nCPUs);
    }
  }

  lemma MainProgress(s: State, nCPUs: int) returns (s': State)
    requires Inv(s, nCPUs) && Servable(s, nCPUs) && MainEnabled(s)
    requires (WaitLoop(s.pc) || DrainLoop(s.pc)) && WorkLeft(s.workers) > 0 ==> s.holder == Main
    requires WorkLeft(s.workers) == 0 ==> CountedWorkers(s.workers) == 0
    ensures Next(s, s', nCPUs) && Less(s', s, nCPUs) && Servable(s', nCPUs)
  {
    hide WorkLeft, CountedWorkers;
    s' := MainStep(s, nCPUs);
    assert WorkLeft(s'.workers) == WorkLeft(s.workers) || s.pc == Create;
  }

  lemma {:induction false} ServableCanFinish(s: State, nCPUs: int)
    requires Inv(s, nCPUs) && Servable(s, nCPUs)
    ensures CanFinish(s, nCPUs)
    decreases Stages(s.pc, |s.lines|), WorkLeft(s.workers), LoopLeft(s, nCPUs)
  {
    hide Inv, Next, Servable, MainStep;
    if s.pc == Done {
      assert IsPath([s], nCPUs);
    } else {
      var s' := Progress(s, nCPUs);
      NextKeepsInv(s, s', nCPUs);
      ServableCanFinish(s', nCPUs);
      FinishLater(s, s', nCPUs);
    }
  }

  // ----- and what a single CPU does

  /** With fewer than two CPUs, a run with a command stays before its first launch for ever. */
  ghost predicate Stuck(s: State) {
    (s.pc == ReadLine && Commands(s.lines) > 0) || WaitLoop(s.pc)
  }

  lemma StuckStays(s: State, s': State, nCPUs: int)
    requires nCPUs < 2 && Inv(s, nCPUs) && Stuck(s) && Next(s, s', nCPUs)
    ensures Stuck(s')
  {
  }

  lemma {:induction false} StuckForEver(run: seq<State>, nCPUs: int, k: nat)
    requires IsPath(run, nCPUs) && nCPUs < 2 && Inv(run[0], nCPUs) && Stuck(run[0]) && k < |run|
    ensures Inv(run[k], nCPUs) && Stuck(run[k])
  {
    hide Inv, Next, Stuck;
    if k > 0 {
      StuckForEver(run, nCPUs, k - 1);
      assert Next(run[k - 1], run[k - 1 + 1], nCPUs);
      StuckStays(run[k - 1], run[k], nCPUs);
      NextKeepsInv(run[k - 1], run[k], nCPUs);
    }
  }

  /** The program can finish from its start exactly when there are two CPUs or no command. */
  lemma CanFinishIffTwoCPUs(s: State, nCPUs: int)
    requires Init(s)
    ensures CanFinish(s, nCPUs) <==> nCPUs >= 2 || Commands(s.lines) == 0
  {
    if nCPUs >= 2 || Commands(s.lines) == 0 {
      ServableCanFinish(s, nCPUs);
    } else if CanFinish(s, nCPUs) {
      var run: seq<State> :| IsPath(run, nCPUs) && run[0] == s && run[|run| - 1].pc == Done;
      StuckForEver(run, nCPUs, |run| - 1);
      assert false;
    }
  }

  /** With two CPUs or more, no run ever gets into a state from which the program cannot finish. */
  lemma AlwaysCanFinish(run: seq<State>, nCPUs: int, k: nat)
    requires IsRun(run, nCPUs) && k < |run| && nCPUs >= 2
    ensures CanFinish(run[k], nCPUs)
  {
    RunKeepsInv(run, nCPUs, k);
    ServableCanFinish(run[k], nCPUs);
  }
}
