/** The thread limit of src/starter.c: the main thread and its workers as interleaved atomic steps on a shared
    counter and a mutex. */
module ThreadLimit {

  const MAX_COMMANDS: nat := 1000

  /** Where the main thread stands. Each mutex section is three steps: take it, work, release it. */
  datatype MainPc =
    | ReadLine
    | WaitLock | WaitLoad | WaitUnlock | WaitTest
    | IncLock | Increment | IncUnlock
    | Create
    | DrainLock | DrainLoad | DrainUnlock | DrainTest
    | Destroy
    | Done

  /** Where a worker stands: its command runs, a failure may be reported, the counter is decremented. */
  datatype WorkerPc =
    | Running
    | ReportLock | Report | ReportUnlock
    | DecLock | Decrement | DecUnlock
    | Exiting
    | Gone

  datatype Holder = Nobody | Main | Worker(i: nat)

  /** `lines` is the input not read yet: true for a command, false for a line that is skipped. */
  datatype State = State(
    pc: MainPc, counter: int, running: int, holder: Holder, workers: seq<WorkerPc>, lines: seq<bool>, nLines: nat)

  ghost predicate Init(s: State) {
    s.pc == ReadLine && s.running == 0 && s.holder == Nobody && s.workers == [] && s.nLines == 0
  }

  // ----- steps

  predicate MainTakesMutex(pc: MainPc) {
    pc == WaitLock || pc == IncLock || pc == DrainLock
  }

  predicate MainEnabled(s: State) {
    s.pc != Done && (MainTakesMutex(s.pc) ==> s.holder == Nobody)
  }

  function MainStep(s: State, nCPUs: int): State
    requires MainEnabled(s)
  {
    match s.pc
    case ReadLine =>
      if s.lines == [] then s.(pc := DrainLock)
      else s.(pc := if s.lines[0] then WaitLock else ReadLine, lines := s.lines[1..])
    case WaitLock => s.(pc := WaitLoad, holder := Main)
    case WaitLoad => s.(pc := WaitUnlock, counter := s.running)
    case WaitUnlock => s.(pc := WaitTest, holder := Nobody)
    case WaitTest => s.(pc := if s.counter < nCPUs - 1 then IncLock else WaitLock)
    case IncLock => s.(pc := Increment, holder := Main)
    case Increment => s.(pc := IncUnlock, running := s.running + 1)
    case IncUnlock => s.(pc := Create, holder := Nobody)
    case Create =>
      s.(pc := if s.nLines + 1 == MAX_COMMANDS then DrainLock else ReadLine,
         workers := s.workers + [Running], nLines := s.nLines + 1)
    case DrainLock => s.(pc := DrainLoad, holder := Main)
    case DrainLoad => s.(pc := DrainUnlock, counter := s.running)
    case DrainUnlock => s.(pc := DrainTest, holder := Nobody)
    case DrainTest => s.(pc := if s.counter == 0 then Destroy else DrainLock)
    case Destroy => s.(pc := Done)
  }

  predicate WorkerTakesMutex(w: WorkerPc) {
    w == ReportLock || w == DecLock
  }

  predicate WorkerEnabled(s: State, i: nat) {
    i < |s.workers| && s.workers[i] != Gone && (WorkerTakesMutex(s.workers[i]) ==> s.holder == Nobody)
  }

  /** `fails` is the exit status of the command, used in the step in which the command returns. */
  function WorkerStep(s: State, i: nat, fails: bool): State
    requires WorkerEnabled(s, i)
  {
    var ws := s.workers;
    match s.workers[i]
    case Running => s.(workers := ws[i := if fails then ReportLock else DecLock])
    case ReportLock => s.(workers := ws[i := Report], holder := Worker(i))
    case Report => s.(workers := ws[i := ReportUnlock])
    case ReportUnlock => s.(workers := ws[i := DecLock], holder := Nobody)
    case DecLock => s.(workers := ws[i := Decrement], holder := Worker(i))
    case Decrement => s.(workers := ws[i := DecUnlock], running := s.running - 1)
    case DecUnlock => s.(workers := ws[i := Exiting], holder := Nobody)
    case Exiting => s.(workers := ws[i := Gone])
  }

  ghost predicate Next(s: State, s': State, nCPUs: int) {
    || (MainEnabled(s) && s' == MainStep(s, nCPUs))
    || (exists i, fails :: WorkerEnabled(s, i) && s' == WorkerStep(s, i, fails))
  }

  /** A run: some interleaving of steps from an initial state. */
  ghost predicate IsRun(run: seq<State>, nCPUs: int) {
    |run| > 0 && Init(run[0]) && forall k | 0 <= k < |run| - 1 :: Next(run[k], run[k + 1], nCPUs)
  }

  // ----- the invariant

  /** The worker still counts as running. */
  predicate Counted(w: WorkerPc) {
    w != DecUnlock && w != Exiting && w != Gone
  }

  function CountedWorkers(ws: seq<WorkerPc>): (c: nat)
    ensures c <= |ws|
  {
    if ws == [] then 0 else (if Counted(ws[0]) then 1 else 0) + CountedWorkers(ws[1..])
  }

  /** A launch that is counted already but whose thread does not exist yet. */
  function PendingLaunch(pc: MainPc): nat {
    if pc == IncUnlock || pc == Create then 1 else 0
  }

  predicate MainHolds(pc: MainPc) {
    pc == WaitLoad || pc == WaitUnlock || pc == Increment || pc == IncUnlock || pc == DrainLoad || pc == DrainUnlock
  }

  predicate WorkerHolds(w: WorkerPc) {
    w == Report || w == ReportUnlock || w == Decrement || w == DecUnlock
  }

  predicate Finished(w: WorkerPc) {
    w == Exiting || w == Gone
  }

  /** The mutex is held by the one thread that is in a mutex section. */
  ghost predicate MutexInv(s: State) {
    && (s.holder == Main <==> MainHolds(s.pc))
    && (forall i | 0 <= i < |s.workers| :: WorkerHolds(s.workers[i]) <==> s.holder == Worker(i))
    && (s.holder.Worker? ==> s.holder.i < |s.workers| && WorkerHolds(s.workers[s.holder.i]))
  }

  /** How many threads may be counted as running at once. */
  function Limit(nCPUs: int): nat {
    if nCPUs >= 2 then nCPUs - 1 else 0
  }

  /** The main thread is past its last launch. */
  predicate Draining(pc: MainPc) {
    pc == DrainLock || pc == DrainLoad || pc == DrainUnlock || pc == DrainTest || pc == Destroy || pc == Done
  }

  /** The shared counter counts, and the value that the main thread read last is an upper bound. */
  ghost predicate CountInv(s: State, nCPUs: int) {
    && s.running == CountedWorkers(s.workers) + PendingLaunch(s.pc)
    && s.running <= Limit(nCPUs)
    && (s.pc in {WaitUnlock, WaitTest, IncLock, Increment, DrainUnlock, DrainTest} ==> s.running <= s.counter)
    && (s.pc in {IncLock, Increment} ==> s.counter < nCPUs - 1)
    && (nCPUs < 2 ==> s.workers == [])
    && s.nLines == |s.workers| <= MAX_COMMANDS
    && (!Draining(s.pc) ==> s.nLines < MAX_COMMANDS)
  }

  /** After the last wait read zero, all workers are past their last use of the mutex. */
  ghost predicate DrainInv(s: State) {
    s.pc == Destroy || s.pc == Done || (s.pc in {DrainUnlock, DrainTest} && s.counter == 0) ==>
      forall i | 0 <= i < |s.workers| :: Finished(s.workers[i])
  }

  ghost predicate Inv(s: State, nCPUs: int) {
    MutexInv(s) && CountInv(s, nCPUs) && DrainInv(s)
  }

  lemma {:induction false} CountUpdate(ws: seq<WorkerPc>, i: nat, w: WorkerPc)
    requires i < |ws|
    ensures CountedWorkers(ws[i := w]) ==
            CountedWorkers(ws) - (if Counted(ws[i]) then 1 else 0) + (if Counted(w) then 1 else 0)
  {
    if i > 0 {
      assert ws[i := w][1..] == ws[1..][i - 1 := w];
      CountUpdate(ws[1..], i - 1, w);
    } else {
      assert ws[i := w][1..] == ws[1..];
    }
  }

  lemma {:induction false} CountAppend(ws: seq<WorkerPc>, w: WorkerPc)
    ensures CountedWorkers(ws + [w]) == CountedWorkers(ws) + if Counted(w) then 1 else 0
  {
    if ws != [] {
      assert (ws + [w])[1..] == ws[1..] + [w];
      CountAppend(ws[1..], w);
    }
  }

  lemma {:induction false} NoneCounted(ws: seq<WorkerPc>, i: nat)
    requires CountedWorkers(ws) == 0 && i < |ws|
    ensures !Counted(ws[i])
  {
    if i > 0 {
      NoneCounted(ws[1..], i - 1);
    }
  }

  lemma MainKeepsCount(s: State, nCPUs: int)
    requires CountInv(s, nCPUs) && MainEnabled(s)
    ensures CountInv(MainStep(s, nCPUs), nCPUs)
  {
    if s.pc == Create {
      CountAppend(s.workers, Running);
    }
  }

  lemma MainKeepsMutex(s: State, nCPUs: int)
    requires MutexInv(s) && MainEnabled(s)
    ensures MutexInv(MainStep(s, nCPUs))
  {
    var s' := MainStep(s, nCPUs);
    if s.pc != Create {
      assert s'.workers == s.workers;
    }
  }

  lemma MainKeepsDrain(s: State, nCPUs: int)
    requires Inv(s, nCPUs) && MainEnabled(s)
    ensures DrainInv(MainStep(s, nCPUs))
  {
    if s.pc == DrainLoad && s.running == 0 {
      forall i | 0 <= i < |s.workers| ensures Finished(s.workers[i]) {
        NoneCounted(s.workers, i);
        assert !WorkerHolds(s.workers[i]);
      }
    }
  }

  lemma WorkerKeepsCount(s: State, nCPUs: int, i: nat, fails: bool)
    requires CountInv(s, nCPUs) && WorkerEnabled(s, i)
    ensures CountInv(WorkerStep(s, i, fails), nCPUs)
  {
    CountUpdate(s.workers, i, WorkerStep(s, i, fails).workers[i]);
  }

  lemma WorkerKeepsMutex(s: State, i: nat, fails: bool)
    requires MutexInv(s) && WorkerEnabled(s, i)
    ensures MutexInv(WorkerStep(s, i, fails))
  {
    var s' := WorkerStep(s, i, fails);
    assert |s'.workers| == |s.workers|;
    assert forall j | 0 <= j < |s.workers| && j != i :: s'.workers[j] == s.workers[j];
    assert WorkerHolds(s.workers[i]) <==> s.holder == Worker(i);
  }

  lemma WorkerKeepsDrain(s: State, nCPUs: int, i: nat, fails: bool)
    requires Inv(s, nCPUs) && WorkerEnabled(s, i)
    ensures DrainInv(WorkerStep(s, i, fails))
  {
    var s' := WorkerStep(s, i, fails);
    assert |s'.workers| == |s.workers|;
    assert forall j | 0 <= j < |s.workers| && j != i :: s'.workers[j] == s.workers[j];
  }

  lemma NextKeepsInv(s: State, s': State, nCPUs: int)
    requires Inv(s, nCPUs) && Next(s, s', nCPUs)
    ensures Inv(s', nCPUs)
  {
    hide MutexInv, CountInv, DrainInv, MainStep, WorkerStep;
    if MainEnabled(s) && s' == MainStep(s, nCPUs) {
      MainKeepsCount(s, nCPUs);
      MainKeepsMutex(s, nCPUs);
      MainKeepsDrain(s, nCPUs);
    } else {
      var i, fails :| WorkerEnabled(s, i) && s' == WorkerStep(s, i, fails);
      WorkerKeepsCount(s, nCPUs, i, fails);
      WorkerKeepsMutex(s, i, fails);
      WorkerKeepsDrain(s, nCPUs, i, fails);
    }
  }

  lemma {:induction false} RunKeepsInv(run: seq<State>, nCPUs: int, k: nat)
    requires IsRun(run, nCPUs) && k < |run|
    ensures Inv(run[k], nCPUs)
  {
    hide Next;
    if k > 0 {
      RunKeepsInv(run, nCPUs, k - 1);
      NextKeepsInv(run[k - 1], run[k - 1 + 1], nCPUs);
    }
  }

  // ----- safety of every run

  /** The workers whose command is being executed. */
  function Executing(ws: seq<WorkerPc>): nat {
    if ws == [] then 0 else (if ws[0] == Running then 1 else 0) + Executing(ws[1..])
  }

  lemma {:induction false} ExecutingCounted(ws: seq<WorkerPc>)
    ensures Executing(ws) <= CountedWorkers(ws)
  {
    if ws != [] {
      ExecutingCounted(ws[1..]);
    }
  }

  /** In every run, the shared counter is the number of launched workers that have not finished counting down
      plus at most one pending launch, and neither it nor the number of commands executing at once exceeds
      the limit. */
  lemma ThreadLimitHolds(run: seq<State>, nCPUs: int, k: nat)
    requires IsRun(run, nCPUs) && k < |run|
    ensures var s := run[k];
            && s.running == CountedWorkers(s.workers) + PendingLaunch(s.pc)
            && Executing(s.workers) <= s.running <= Limit(nCPUs)
            && |s.workers| <= MAX_COMMANDS
  {
    RunKeepsInv(run, nCPUs, k);
    ExecutingCounted(run[k].workers);
  }

  /** From the moment the mutex is destroyed, in every continuation of the run, every command has returned and
      nobody holds the mutex. */
  lemma {:induction false} CleanShutdown(run: seq<State>, nCPUs: int, k: nat, j: nat)
    requires IsRun(run, nCPUs) && k <= j < |run| && (run[k].pc == Destroy || run[k].pc == Done)
    ensures run[j].pc == Destroy || run[j].pc == Done
    ensures run[j].holder == Nobody && forall i | 0 <= i < |run[j].workers| :: Finished(run[j].workers[i])
    ensures |run[j].workers| == |run[k].workers|
  {
    RunKeepsInv(run, nCPUs, j);
    if j > k {
      CleanShutdown(run, nCPUs, k, j - 1);
      assert Next(run[j - 1], run[j - 1 + 1], nCPUs);
    }
  }

  // ----- every command is launched once

  function Commands(lines: seq<bool>): nat {
    if lines == [] then 0 else (if lines[0] then 1 else 0) + Commands(lines[1..])
  }

  /** A command that was read and is not launched yet. */
  function InHand(pc: MainPc): nat {
    if pc in {WaitLock, WaitLoad, WaitUnlock, WaitTest, IncLock, Increment, IncUnlock, Create} then 1 else 0
  }

  lemma {:induction false} CommandsConserved(run: seq<State>, nCPUs: int, k: nat)
    requires IsRun(run, nCPUs) && k < |run|
    ensures |run[k].workers| + InHand(run[k].pc) + Commands(run[k].lines) == Commands(run[0].lines)
  {
    if k > 0 {
      CommandsConserved(run, nCPUs, k - 1);
      assert Next(run[k - 1], run[k - 1 + 1], nCPUs);
    }
  }

  /** The reading loop is left at the end of the input or at the maximal number of commands. */
  lemma {:induction false} DrainingMeansRead(run: seq<State>, nCPUs: int, k: nat)
    requires IsRun(run, nCPUs) && k < |run| && Draining(run[k].pc)
    ensures run[k].lines == [] || |run[k].workers| == MAX_COMMANDS
  {
    hide Next, Inv;
    if k > 0 {
      RunKeepsInv(run, nCPUs, k - 1);
      assert Next(run[k - 1], run[k - 1 + 1], nCPUs);
      if Draining(run[k - 1].pc) {
        DrainingMeansRead(run, nCPUs, k - 1);
      }
      DrainingStep(run[k - 1], run[k], nCPUs);
    }
  }

  lemma DrainingStep(s: State, s': State, nCPUs: int)
    requires Inv(s, nCPUs) && Next(s, s', nCPUs) && Draining(s'.pc)
    requires Draining(s.pc) ==> s.lines == [] || |s.workers| == MAX_COMMANDS
    ensures s'.lines == [] || |s'.workers| == MAX_COMMANDS
  {
    hide CountedWorkers;
  }

  /** A run that is done has launched and finished all commands of the input, up to the maximal number. */
  lemma DoneMeansAllExecuted(run: seq<State>, nCPUs: int, k: nat)
    requires IsRun(run, nCPUs) && k < |run| && run[k].pc == Done
    ensures |run[k].workers| == if Commands(run[0].lines) <= MAX_COMMANDS then Commands(run[0].lines) else MAX_COMMANDS
    ensures forall i | 0 <= i < |run[k].workers| :: Finished(run[k].workers[i])
  {
    RunKeepsInv(run, nCPUs, k);
    CommandsConserved(run, nCPUs, k);
    DrainingMeansRead(run, nCPUs, k);
  }
}
