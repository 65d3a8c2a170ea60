/**
 The fork-join pool as an interleaved step system: one caller of `run`, any number of helpers,
 sequentially consistent atomics, a mutex and two condition variables. Each step is one atomic
 access, lock operation or task call of one thread.

 Over every interleaving and any number of runs: every index below the count runs exactly once per
 run, a run returns only when no helper is inside the work loop, some thread can always move until
 the run has returned, and a run returns after a bounded number of steps under any scheduler.
 */
module ParallelRunner {

  const SEQUENTIAL_BELOW := 8
  const HELPER_SPINS := 4000
  const CALLER_SPINS := 20000

  // ----- states -----

  datatype Owner = Free | ByCaller | ByHelper(h: nat)

  /** Program points of the thread that calls `run` and destroys the pool. */
  datatype CallerPc =
    | Idle
    | Sequential(i: nat)
    | WantLock | SetTask | SetCount | SetNext | SetFinished | BumpGeneration | Unlock | NotifyAll
    | EnterDrain
    | Ticket(task: nat)
    | Running(task: nat, i: nat)
    | Spin(k: nat)
    | CheckDone
    | WantDoneLock
    | HoldDoneLock
    | SleepDone
    | ClearTask
    | WantStopLock | SetStopping | BumpStop | UnlockStop | NotifyStop | Joining | Gone

  /** Program points of a helper. */
  datatype HelperPc =
    | Load(k: nat)
    | WantWaitLock
    | HoldWaitLock
    | SleepWait
    | Reload
    | WantCheck
    | HoldCheck
    | HEnterDrain
    | HTicket(task: nat)
    | HRunning(task: nat, i: nat)
    | AddFinished
    | WantNotify
    | HoldNotify
    | Exited

  datatype Helper = Helper(pc: HelperPc, seen: nat)

  /** Shared variables, program counters, and the history of the current run: its number, its
      count, and how often each index has been completed. */
  datatype State = State(
    task: nat,             // 0 when null, else the number of the run it belongs to
    count: nat,
    next: nat,
    finished: nat,
    generation: nat,
    stopping: bool,
    mutex: Owner,
    caller: CallerPc,
    helpers: seq<Helper>,
    run: nat,
    arg: nat,
    completed: multiset<nat>)

  function Initial(helpers: nat): (s: State)
  {
    State(0, 0, 0, 0, 0, false, Free, Idle, seq(helpers, _ => Helper(Load(0), 0)), 0, 0, multiset{})
  }

  // ----- steps -----

  datatype Step =
    | StartRun(count: nat)
    | Destroy
    | CallerStep
    | HelperStep(h: nat)
    | SpuriousCaller
    | SpuriousHelper(h: nat)

  predicate Enabled(s: State, step: Step)
  {
    match step
    case StartRun(count) => s.caller.Idle? && count > 0
    case Destroy => s.caller.Idle?
    case CallerStep => CallerCanStep(s)
    case HelperStep(h) => h < |s.helpers| && HelperCanStep(s, s.helpers[h].pc)
    case SpuriousCaller => s.caller.SleepDone?
    case SpuriousHelper(h) => h < |s.helpers| && s.helpers[h].pc.SleepWait?
  }

  predicate CallerCanStep(s: State)
  {
    match s.caller
    case Idle => false
    case WantLock => s.mutex.Free?
    case WantDoneLock => s.mutex.Free?
    case SleepDone => false
    case WantStopLock => s.mutex.Free?
    case Joining => forall h :: 0 <= h < |s.helpers| ==> s.helpers[h].pc.Exited?
    case Gone => false
    case _ => true
  }

  predicate HelperCanStep(s: State, pc: HelperPc)
  {
    match pc
    case WantWaitLock => s.mutex.Free?
    case SleepWait => false
    case WantCheck => s.mutex.Free?
    case WantNotify => s.mutex.Free?
    case Exited => false
    case _ => true
  }

  function Apply(s: State, step: Step): (r: State)
    requires Enabled(s, step)
  {
    match step
    case StartRun(count) =>
      var t := s.(run := s.run + 1, arg := count, completed := multiset{});
      if |s.helpers| == 0 || count < SEQUENTIAL_BELOW then t.(caller := Sequential(0))
      else t.(caller := WantLock)
    case Destroy => s.(caller := WantStopLock)
    case CallerStep => ApplyCaller(s)
    case HelperStep(h) => ApplyHelper(s, h)
    case SpuriousCaller => s.(caller := WantDoneLock)
    case SpuriousHelper(h) => MoveHelper(s, h, WantWaitLock)
  }

  function ApplyCaller(s: State): (r: State)
    requires CallerCanStep(s)
  {
    match s.caller
    case Sequential(i) =>
      if i < s.arg then s.(completed := s.completed + multiset{i}, caller := Sequential(i + 1))
      else s.(caller := Idle)
    case WantLock => s.(mutex := ByCaller, caller := SetTask)
    case SetTask => s.(task := s.run, caller := SetCount)
    case SetCount => s.(count := s.arg, caller := SetNext)
    case SetNext => s.(next := 0, caller := SetFinished)
    case SetFinished => s.(finished := 0, caller := BumpGeneration)
    case BumpGeneration => s.(generation := s.generation + 1, caller := Unlock)
    case Unlock => s.(mutex := Free, caller := NotifyAll)
    case NotifyAll => s.(helpers := Woken(s.helpers), caller := EnterDrain)
    case EnterDrain => s.(caller := Ticket(s.task))
    case Ticket(task) =>
      s.(next := s.next + 1, caller := if s.next >= s.count then Spin(0) else Running(task, s.next))
    case Running(task, i) => s.(completed := s.completed + multiset{i}, caller := Ticket(task))
    case Spin(k) =>
      if s.finished < |s.helpers| && k < CALLER_SPINS then s.(caller := Spin(k + 1))
      else s.(caller := CheckDone)
    case CheckDone => if s.finished < |s.helpers| then s.(caller := WantDoneLock) else s.(caller := ClearTask)
    case WantDoneLock => s.(mutex := ByCaller, caller := HoldDoneLock)
    case HoldDoneLock =>
      if s.finished == |s.helpers| then s.(mutex := Free, caller := ClearTask)
      else s.(mutex := Free, caller := SleepDone)
    case ClearTask => s.(task := 0, caller := Idle)
    case WantStopLock => s.(mutex := ByCaller, caller := SetStopping)
    case SetStopping => s.(stopping := true, caller := BumpStop)
    case BumpStop => s.(generation := s.generation + 1, caller := UnlockStop)
    case UnlockStop => s.(mutex := Free, caller := NotifyStop)
    case NotifyStop => s.(helpers := Woken(s.helpers), caller := Joining)
    case Joining => s.(caller := Gone)
  }

  /** Every sleeping helper goes for the mutex again. */
  function Woken(helpers: seq<Helper>): (r: seq<Helper>)
    ensures |r| == |helpers|
  {
    seq(|helpers|, h requires 0 <= h < |helpers| =>
      if helpers[h].pc.SleepWait? then helpers[h].(pc := WantWaitLock) else helpers[h])
  }

  function MoveHelper(s: State, h: nat, pc: HelperPc): (r: State)
    requires h < |s.helpers|
  {
    s.(helpers := s.helpers[h := s.helpers[h].(pc := pc)])
  }

  /** The helper takes over the generation it has just read. */
  function Notice(s: State, h: nat): (r: State)
    requires h < |s.helpers|
  {
    s.(helpers := s.helpers[h := Helper(WantCheck, s.generation)])
  }

  function ApplyHelper(s: State, h: nat): (r: State)
    requires h < |s.helpers| && HelperCanStep(s, s.helpers[h].pc)
  {
    var me := s.helpers[h];
    match me.pc
    case Load(k) =>
      if s.generation != me.seen then Notice(s, h)
      else if k < HELPER_SPINS then MoveHelper(s, h, Load(k + 1))
      else MoveHelper(s, h, WantWaitLock)
    case WantWaitLock => MoveHelper(s.(mutex := ByHelper(h)), h, HoldWaitLock)
    case HoldWaitLock =>
      if s.generation != me.seen then MoveHelper(s, h, Reload)
      else MoveHelper(s.(mutex := Free), h, SleepWait)
    case Reload => Notice(s.(mutex := Free), h)
    case WantCheck => MoveHelper(s.(mutex := ByHelper(h)), h, HoldCheck)
    case HoldCheck => MoveHelper(s.(mutex := Free), h, if s.stopping then Exited else HEnterDrain)
    case HEnterDrain => MoveHelper(s, h, HTicket(s.task))
    case HTicket(task) =>
      MoveHelper(s.(next := s.next + 1), h, if s.next >= s.count then AddFinished else HRunning(task, s.next))
    case HRunning(task, i) => MoveHelper(s.(completed := s.completed + multiset{i}), h, HTicket(task))
    case AddFinished =>
      MoveHelper(s.(finished := s.finished + 1), h,
                 if s.finished + 1 == |s.helpers| then WantNotify else Load(0))
    case WantNotify => MoveHelper(s.(mutex := ByHelper(h)), h, HoldNotify)
    case HoldNotify =>
      MoveHelper(s.(mutex := Free, caller := if s.caller.SleepDone? then WantDoneLock else s.caller), h, Load(0))
  }

  // ----- the invariant -----

  /** Between announcing a generation and clearing `task`. */
  predicate Working(c: CallerPc)
  {
    || c.Unlock? || c.NotifyAll? || c.EnterDrain? || c.Ticket? || c.Running? || c.Spin?
    || c.CheckDone? || c.WantDoneLock? || c.HoldDoneLock? || c.SleepDone?
  }

  /** After announcing the end of the pool. */
  predicate Stopping(c: CallerPc)
  {
    c.UnlockStop? || c.NotifyStop? || c.Joining? || c.Gone?
  }

  /** The caller has drawn a ticket beyond the count. */
  predicate Waiting(c: CallerPc)
  {
    c.Spin? || c.CheckDone? || c.WantDoneLock? || c.HoldDoneLock? || c.SleepDone?
  }

  /** The caller is preparing a generation. */
  predicate Publishing(c: CallerPc)
  {
    c.WantLock? || c.SetTask? || c.SetCount? || c.SetNext? || c.SetFinished? || c.BumpGeneration?
  }

  predicate CallerHolds(c: CallerPc)
  {
    || c.SetTask? || c.SetCount? || c.SetNext? || c.SetFinished? || c.BumpGeneration? || c.Unlock?
    || c.HoldDoneLock? || c.SetStopping? || c.BumpStop? || c.UnlockStop?
  }

  predicate HelperHolds(pc: HelperPc)
  {
    pc.HoldWaitLock? || pc.Reload? || pc.HoldCheck? || pc.HoldNotify?
  }

  /** Outside the work of any generation. */
  predicate Resting(pc: HelperPc)
  {
    || pc.Load? || pc.WantWaitLock? || pc.HoldWaitLock? || pc.SleepWait?
    || pc.WantNotify? || pc.HoldNotify?
  }

  /** Inside the work loop or on the way into it. */
  predicate InDrain(pc: HelperPc)
  {
    pc.HEnterDrain? || pc.HTicket? || pc.HRunning? || pc.AddFinished?
  }

  predicate Done(s: State, h: nat)
    requires h < |s.helpers|
  {
    s.helpers[h].seen == s.generation && Resting(s.helpers[h].pc)
  }

  ghost predicate MutexOk(s: State)
  {
    && (s.mutex.ByCaller? <==> CallerHolds(s.caller))
    && (s.mutex.ByHelper? ==> s.mutex.h < |s.helpers|)
    && forall h :: 0 <= h < |s.helpers| ==> (s.mutex == ByHelper(h) <==> HelperHolds(s.helpers[h].pc))
  }

  ghost predicate HelperOk(s: State, h: nat)
    requires h < |s.helpers|
  {
    var me := s.helpers[h];
    if Working(s.caller) then
      if me.seen == s.generation then Resting(me.pc) || me.pc.WantCheck? || me.pc.HoldCheck? || InDrain(me.pc)
      else me.seen + 1 == s.generation && (Resting(me.pc) || me.pc.Reload?)
    else if Stopping(s.caller) then
      if me.seen == s.generation then me.pc.WantCheck? || me.pc.HoldCheck? || me.pc.Exited?
      else me.seen + 1 == s.generation && (Resting(me.pc) || me.pc.Reload?)
    else me.seen == s.generation && Resting(me.pc)
  }

  ghost predicate HelpersOk(s: State)
  {
    forall h :: 0 <= h < |s.helpers| ==> HelperOk(s, h)
  }

  /** A sleeping thread is never forgotten: whoever must wake it is on the way. */
  ghost predicate SleepOk(s: State)
  {
    && (forall h :: 0 <= h < |s.helpers| && s.helpers[h].pc.SleepWait? && s.helpers[h].seen != s.generation ==>
          s.caller.Unlock? || s.caller.NotifyAll? || s.caller.UnlockStop? || s.caller.NotifyStop?)
    && (s.caller.SleepDone? ==> s.finished < |s.helpers| || exists h :: 0 <= h < |s.helpers| && Notifying(s, h))
  }

  predicate Notifying(s: State, h: nat)
    requires h < |s.helpers|
  {
    s.helpers[h].pc.WantNotify? || s.helpers[h].pc.HoldNotify?
  }

  function DoneCount(s: State, k: nat): (n: nat)
    requires k <= |s.helpers|
    ensures n <= k
  {
    if k == 0 then 0 else DoneCount(s, k - 1) + if Done(s, k - 1) then 1 else 0
  }

  /** Every index is completed exactly once, and nothing beyond the count. */
  ghost predicate RunComplete(s: State)
  {
    forall i: nat :: s.completed[i] == if i < s.arg then 1 else 0
  }

  predicate Handed(s: State, i: nat)
  {
    i < s.next && i < s.count
  }

  ghost predicate CallerRuns(s: State, i: nat)
  {
    s.caller.Running? && s.caller.i == i
  }

  ghost predicate HelperRuns(s: State, h: nat, i: nat)
    requires h < |s.helpers|
  {
    s.helpers[h].pc.HRunning? && s.helpers[h].pc.i == i
  }

  ghost predicate SomeoneRuns(s: State, i: nat)
  {
    CallerRuns(s, i) || exists h :: 0 <= h < |s.helpers| && HelperRuns(s, h, i)
  }

  /** The tickets handed out are completed once or in the hands of exactly one thread. */
  ghost predicate TicketsOk(s: State)
  {
    && (forall i: nat :: s.completed[i] <= 1)
    && (forall i: nat :: s.completed[i] > 0 ==> Handed(s, i))
    && (forall i: nat :: Handed(s, i) && s.completed[i] == 0 ==> SomeoneRuns(s, i))
    && (s.caller.Running? ==> Handed(s, s.caller.i) && s.completed[s.caller.i] == 0)
    && (forall h :: 0 <= h < |s.helpers| && s.helpers[h].pc.HRunning? ==>
          Handed(s, s.helpers[h].pc.i) && s.completed[s.helpers[h].pc.i] == 0)
    && (forall h :: 0 <= h < |s.helpers| && s.helpers[h].pc.HRunning? ==> !CallerRuns(s, s.helpers[h].pc.i))
    && (forall g, h :: 0 <= g < h < |s.helpers| && s.helpers[g].pc.HRunning? && s.helpers[h].pc.HRunning? ==>
          s.helpers[g].pc.i != s.helpers[h].pc.i)
  }

  /** What holds while a generation is being worked on. */
  ghost predicate WorkOk(s: State)
  {
    && s.task == s.run && s.run > 0 && s.count == s.arg
    && s.finished == DoneCount(s, |s.helpers|)
    && TicketsOk(s)
    && (s.caller.Ticket? || s.caller.Running? ==> s.caller.task == s.run)
    && (forall h :: 0 <= h < |s.helpers| && s.helpers[h].pc.HTicket? ==> s.helpers[h].pc.task == s.run)
    && (forall h :: 0 <= h < |s.helpers| && s.helpers[h].pc.HRunning? ==> s.helpers[h].pc.task == s.run)
    && (Waiting(s.caller) ==> s.next >= s.count)
  }

  /** What the caller may conclude about the current run's indices. */
  ghost predicate HistoryOk(s: State)
  {
    var c := s.caller;
    && (c.Idle? && s.run > 0 ==> RunComplete(s))
    && (c.Sequential? ==> c.i <= s.arg && forall i: nat :: s.completed[i] == if i < c.i then 1 else 0)
    && (Publishing(c) ==> s.completed == multiset{})
    && (c.ClearTask? ==> RunComplete(s))
  }

  /** What the caller has set up so far. */
  ghost predicate SetupOk(s: State)
  {
    var c := s.caller;
    && (c.Sequential? || c.ClearTask? ==> s.run > 0)
    && (Publishing(c) || Working(c) ==> s.run > 0 && |s.helpers| > 0)
    && (c.Idle? || c.Sequential? || c.WantLock? || c.SetTask? ==> s.task == 0)
    && (c.SetCount? || c.SetNext? || c.SetFinished? || c.BumpGeneration? || c.ClearTask? ==> s.task == s.run)
    && (c.SetNext? || c.SetFinished? || c.BumpGeneration? ==> s.count == s.arg)
    && (c.SetFinished? || c.BumpGeneration? ==> s.next == 0)
    && (c.BumpGeneration? ==> s.finished == 0)
    && (s.stopping <==> c.BumpStop? || Stopping(c))
  }

  ghost predicate CallerOk(s: State)
  {
    HistoryOk(s) && SetupOk(s)
  }

  ghost predicate Inv(s: State)
  {
    && MutexOk(s) && HelpersOk(s) && SleepOk(s) && CallerOk(s)
    && (Working(s.caller) ==> WorkOk(s))
  }

  lemma InitialInv(helpers: nat)
    ensures Inv(Initial(helpers))
  {
  }

  // ----- the caller's steps -----

  lemma {:induction false} DoneCountSame(s: State, r: State, k: nat)
    requires |s.helpers| == |r.helpers| && k <= |s.helpers|
    requires forall h :: 0 <= h < k ==> (Done(s, h) <==> Done(r, h))
    ensures DoneCount(s, k) == DoneCount(r, k)
  {
    if k != 0 { DoneCountSame(s, r, k - 1); }
  }

  lemma {:induction false} DoneCountNone(s: State, k: nat)
    requires k <= |s.helpers| && forall h :: 0 <= h < k ==> !Done(s, h)
    ensures DoneCount(s, k) == 0
  {
    if k != 0 { DoneCountNone(s, k - 1); }
  }

  lemma {:induction false} DoneCountAll(s: State, k: nat)
    requires k <= |s.helpers| && DoneCount(s, k) == k
    ensures forall h :: 0 <= h < k ==> Done(s, h)
  {
    if k != 0 { DoneCountAll(s, k - 1); }
  }

  lemma {:induction false} DoneCountOneMore(s: State, r: State, h: nat, k: nat)
    requires |s.helpers| == |r.helpers| && h < k <= |s.helpers|
    requires forall g :: 0 <= g < k && g != h ==> (Done(s, g) <==> Done(r, g))
    requires !Done(s, h) && Done(r, h)
    ensures DoneCount(r, k) == DoneCount(s, k) + 1
  {
    if k - 1 == h {
      DoneCountSame(s, r, k - 1);
    } else {
      DoneCountOneMore(s, r, h, k - 1);
    }
  }

  /** When every helper is done, every ticket has been drawn and nobody runs one, the run is complete. */
  lemma AllDoneMeansComplete(s: State)
    requires HelpersOk(s) && WorkOk(s) && Working(s.caller) && !s.caller.Running?
    requires s.finished == |s.helpers| && s.next >= s.count
    ensures RunComplete(s)
    ensures forall h :: 0 <= h < |s.helpers| ==> Done(s, h)
  {
    DoneCountAll(s, |s.helpers|);
    forall i: nat
      ensures !SomeoneRuns(s, i)
    {
      forall h | 0 <= h < |s.helpers| ensures !HelperRuns(s, h, i) {
        assert Done(s, h);
      }
    }
  }

  lemma StartRunKeepsInv(s: State, count: nat)
    requires Inv(s) && Enabled(s, StartRun(count))
    ensures Inv(Apply(s, StartRun(count)))
  {
    var r := Apply(s, StartRun(count));
    forall h | 0 <= h < |r.helpers| ensures HelperOk(r, h) { assert HelperOk(s, h); }
  }

  lemma DestroyKeepsInv(s: State)
    requires Inv(s) && Enabled(s, Destroy)
    ensures Inv(Apply(s, Destroy))
  {
    var r := Apply(s, Destroy);
    forall h | 0 <= h < |r.helpers| ensures HelperOk(r, h) { assert HelperOk(s, h); }
  }

  lemma CallerKeepsMutex(s: State)
    requires MutexOk(s) && CallerCanStep(s)
    ensures MutexOk(ApplyCaller(s))
  {
  }

  /** The caller leaves the working phase only when every helper is done. */
  ghost predicate LeavesWhenDone(s: State)
  {
    Working(s.caller) && (s.finished == |s.helpers|) ==> forall h :: 0 <= h < |s.helpers| ==> Done(s, h)
  }

  lemma CallerKeepsHelpers(s: State)
    requires HelpersOk(s) && CallerCanStep(s) && LeavesWhenDone(s)
    requires Working(s.caller) ==> s.finished <= |s.helpers|
    ensures HelpersOk(ApplyCaller(s))
  {
    var r := ApplyCaller(s);
    forall h | 0 <= h < |r.helpers| ensures HelperOk(r, h) {
      assert HelperOk(s, h);
      if r.caller.ClearTask? { assert Done(s, h); }
    }
  }

  lemma CallerKeepsSleep(s: State)
    requires HelpersOk(s) && SleepOk(s) && CallerCanStep(s)
    requires s.caller.HoldDoneLock? ==> s.finished <= |s.helpers|
    ensures SleepOk(ApplyCaller(s))
  {
    forall h | 0 <= h < |s.helpers| ensures HelperOk(s, h) {}
  }

  lemma CallerKeepsSetup(s: State)
    requires SetupOk(s) && CallerCanStep(s)
    requires ApplyCaller(s).caller.ClearTask? ==> s.task == s.run
    ensures SetupOk(ApplyCaller(s))
  {
    hide ApplyCaller, SetupOk;
    if Working(s.caller) {
      WorkingKeepsSetup(s);
    } else if Publishing(s.caller) {
      PublishingKeepsSetup(s);
    } else {
      QuietKeepsSetup(s);
    }
  }

  lemma WorkingKeepsSetup(s: State)
    requires SetupOk(s) && CallerCanStep(s) && Working(s.caller)
    requires ApplyCaller(s).caller.ClearTask? ==> s.task == s.run
    ensures SetupOk(ApplyCaller(s))
  {
    hide Woken;
  }

  lemma PublishingKeepsSetup(s: State)
    requires SetupOk(s) && CallerCanStep(s) && Publishing(s.caller)
    ensures SetupOk(ApplyCaller(s))
  {
    hide Woken;
  }

  lemma QuietKeepsSetup(s: State)
    requires SetupOk(s) && CallerCanStep(s) && !Working(s.caller) && !Publishing(s.caller)
    ensures SetupOk(ApplyCaller(s))
  {
    hide Woken;
  }

  lemma CallerKeepsHistory(s: State)
    requires HistoryOk(s) && CallerCanStep(s)
    requires ApplyCaller(s).caller.ClearTask? ==> RunComplete(s)
    ensures HistoryOk(ApplyCaller(s))
  {
  }

  lemma BumpStartsWork(s: State)
    requires HelpersOk(s) && CallerOk(s) && s.caller.BumpGeneration?
    ensures WorkOk(ApplyCaller(s))
  {
    var r := ApplyCaller(s);
    forall h | 0 <= h < |r.helpers| ensures Resting(r.helpers[h].pc) && !Done(r, h) { assert HelperOk(s, h); }
    DoneCountNone(r, |r.helpers|);
  }

  lemma PlainStepKeepsWork(s: State)
    requires WorkOk(s) && CallerCanStep(s) && Working(s.caller) && Working(ApplyCaller(s).caller)
    requires !s.caller.Ticket? && !s.caller.Running?
    ensures WorkOk(ApplyCaller(s))
  {
    hide TicketsOk;
    var r := ApplyCaller(s);
    DoneCountSame(s, r, |s.helpers|);
    TicketsCarryOver(s, r);
  }

  lemma TicketKeepsWork(s: State)
    requires WorkOk(s) && s.caller.Ticket?
    ensures WorkOk(ApplyCaller(s))
  {
    var r := ApplyCaller(s);
    DoneCountSame(s, r, |s.helpers|);
    forall i: nat | Handed(r, i) && r.completed[i] == 0 ensures SomeoneRuns(r, i) {
      if Handed(s, i) {
        assert SomeoneRuns(s, i);
        var h :| 0 <= h < |s.helpers| && HelperRuns(s, h, i);
        assert HelperRuns(r, h, i);
      }
    }
  }

  lemma RunningKeepsWork(s: State)
    requires WorkOk(s) && s.caller.Running?
    ensures WorkOk(ApplyCaller(s))
  {
    var r := ApplyCaller(s);
    DoneCountSame(s, r, |s.helpers|);
    forall i: nat | Handed(r, i) && r.completed[i] == 0 ensures SomeoneRuns(r, i) {
      assert SomeoneRuns(s, i);
      var h :| 0 <= h < |s.helpers| && HelperRuns(s, h, i);
      assert HelperRuns(r, h, i);
    }
  }

  lemma CallerKeepsWork(s: State)
    requires Inv(s) && CallerCanStep(s) && Working(ApplyCaller(s).caller)
    ensures WorkOk(ApplyCaller(s))
  {
    hide MutexOk, HelpersOk, SleepOk, WorkOk, HistoryOk, SetupOk;
    if s.caller.BumpGeneration? {
      BumpStartsWork(s);
    } else if s.caller.Ticket? {
      TicketKeepsWork(s);
    } else if s.caller.Running? {
      RunningKeepsWork(s);
    } else {
      PlainStepKeepsWork(s);
    }
  }

  /** The run is complete when the caller decides to return. */
  lemma ReturnsWhenComplete(s: State)
    requires Inv(s) && CallerCanStep(s) && ApplyCaller(s).caller.ClearTask?
    ensures RunComplete(s) && s.task == s.run
  {
    hide MutexOk, HelpersOk, SleepOk, WorkOk, HistoryOk, SetupOk, RunComplete;
    WorkFacts(s);
    AllDoneMeansComplete(s);
  }

  lemma CallerKeepsInv(s: State)
    requires Inv(s) && CallerCanStep(s)
    ensures Inv(ApplyCaller(s))
  {
    hide MutexOk, HelpersOk, SleepOk, WorkOk, HistoryOk, SetupOk, RunComplete, ApplyCaller, LeavesWhenDone;
    CallerKeepsMutex(s);
    LeavingIsSafe(s);
    if ApplyCaller(s).caller.ClearTask? { ReturnsWhenComplete(s); }
    CallerKeepsHelpers(s);
    CallerKeepsSleep(s);
    CallerKeepsSetup(s);
    CallerKeepsHistory(s);
    if Working(ApplyCaller(s).caller) { CallerKeepsWork(s); }
  }

  lemma LeavingIsSafe(s: State)
    requires Inv(s)
    ensures LeavesWhenDone(s)
    ensures Working(s.caller) ==> s.finished <= |s.helpers|
  {
    hide MutexOk, HelpersOk, SleepOk, WorkOk, HistoryOk, SetupOk;
    if Working(s.caller) { WorkFacts(s); }
  }

  lemma WorkFacts(s: State)
    requires WorkOk(s) && Working(s.caller)
    ensures s.finished <= |s.helpers| && s.task == s.run && s.run > 0
    ensures Waiting(s.caller) ==> s.next >= s.count
    ensures LeavesWhenDone(s)
  {
    if s.finished == |s.helpers| { DoneCountAll(s, |s.helpers|); }
  }

  /** Nothing about tickets changes when no counter and no running thread does. */
  lemma TicketsCarryOver(s: State, r: State)
    requires TicketsOk(s) && |s.helpers| == |r.helpers|
    requires r.next == s.next && r.count == s.count && r.completed == s.completed
    requires !s.caller.Running? && !r.caller.Running?
    requires forall h :: 0 <= h < |s.helpers| ==>
               (s.helpers[h].pc.HRunning? || r.helpers[h].pc.HRunning? ==> s.helpers[h].pc == r.helpers[h].pc)
    ensures TicketsOk(r)
  {
    forall i: nat | Handed(r, i) && r.completed[i] == 0 ensures SomeoneRuns(r, i) {
      assert SomeoneRuns(s, i);
      var h :| 0 <= h < |s.helpers| && HelperRuns(s, h, i);
      assert HelperRuns(r, h, i);
    }
  }

  // ----- the helpers' steps -----

  ghost predicate CanMove(s: State, h: nat)
  {
    h < |s.helpers| && HelperCanStep(s, s.helpers[h].pc)
  }

  /** What a helper's step never touches. */
  ghost predicate Framed(s: State, r: State, h: nat)
  {
    && h < |s.helpers| == |r.helpers|
    && r.task == s.task && r.count == s.count && r.generation == s.generation && r.stopping == s.stopping
    && r.run == s.run && r.arg == s.arg
    && (r.caller == s.caller || (s.caller.SleepDone? && r.caller.WantDoneLock?))
    && (forall g :: 0 <= g < |s.helpers| && g != h ==> r.helpers[g] == s.helpers[g])
  }

  lemma HelperFrame(s: State, h: nat)
    requires CanMove(s, h)
    ensures Framed(s, ApplyHelper(s, h), h)
  {
  }

  /** Steps outside the ticket loop leave the counters alone and keep who is done. */
  lemma PlainHelperFacts(s: State, h: nat)
    requires CanMove(s, h) && HelperOk(s, h) && Working(s.caller)
    requires var pc := s.helpers[h].pc; !pc.HTicket? && !pc.HRunning? && !pc.AddFinished?
    ensures var r := ApplyHelper(s, h);
            && r.next == s.next && r.finished == s.finished && r.completed == s.completed
            && !r.helpers[h].pc.HRunning? && (r.helpers[h].pc.HTicket? ==> r.helpers[h].pc.task == s.task)
            && (Done(r, h) <==> Done(s, h))
  {
  }

  lemma HelperKeepsMutex(s: State, h: nat)
    requires MutexOk(s) && CanMove(s, h)
    ensures MutexOk(ApplyHelper(s, h))
  {
    hide ApplyHelper;
    HelperFrame(s, h);
    HelperMutexFacts(s, h);
  }

  lemma HelperMutexFacts(s: State, h: nat)
    requires CanMove(s, h) && (s.mutex == ByHelper(h) <==> HelperHolds(s.helpers[h].pc))
    ensures var r := ApplyHelper(s, h);
            && |r.helpers| == |s.helpers|
            && (r.mutex == ByHelper(h) <==> HelperHolds(r.helpers[h].pc))
            && (r.mutex == s.mutex || (s.mutex.Free? && r.mutex == ByHelper(h))
                || (s.mutex == ByHelper(h) && r.mutex.Free?))
  {
  }

  lemma HelperKeepsHelpers(s: State, h: nat)
    requires HelpersOk(s) && CanMove(s, h) && SetupOk(s)
    ensures HelpersOk(ApplyHelper(s, h))
  {
    hide ApplyHelper;
    var r := ApplyHelper(s, h);
    HelperFrame(s, h);
    assert HelperOk(s, h);
    HelperMovesOk(s, h);
    forall g | 0 <= g < |r.helpers| && g != h ensures HelperOk(r, g) {
      assert HelperOk(s, g);
    }
  }

  lemma HelperMovesOk(s: State, h: nat)
    requires CanMove(s, h) && HelperOk(s, h) && (s.stopping <==> s.caller.BumpStop? || Stopping(s.caller))
    ensures |ApplyHelper(s, h).helpers| == |s.helpers| && HelperOk(ApplyHelper(s, h), h)
  {
  }

  lemma HelperKeepsSleep(s: State, h: nat)
    requires SleepOk(s) && MutexOk(s) && HelpersOk(s) && CanMove(s, h)
    ensures SleepOk(ApplyHelper(s, h))
  {
    hide ApplyHelper, MutexOk, HelpersOk;
    var r := ApplyHelper(s, h);
    HelperFrame(s, h);
    HelperOkAt(s, h);
    HelperFallsAsleep(s, h);
    HelperNotifies(s, h);
    if r.caller.SleepDone? && r.finished >= |r.helpers| {
      if s.finished >= |s.helpers| {
        var g :| 0 <= g < |s.helpers| && Notifying(s, g);
        assert Notifying(r, g);
      } else {
        assert Notifying(r, h);
      }
    }
  }

  lemma HelperOkAt(s: State, h: nat)
    requires HelpersOk(s) && h < |s.helpers|
    ensures HelperOk(s, h)
  {
    hide HelperOk;
  }

  /** A helper falls asleep only with the current generation seen. */
  lemma HelperFallsAsleep(s: State, h: nat)
    requires CanMove(s, h)
    ensures var r := ApplyHelper(s, h);
            r.helpers[h].pc.SleepWait? ==> r.helpers[h].seen == r.generation
  {
  }

  /** The last helper to finish notifies, and goes on to wake a sleeping caller. */
  lemma HelperNotifies(s: State, h: nat)
    requires CanMove(s, h)
    ensures var r := ApplyHelper(s, h);
            && (r.caller.SleepDone? && Notifying(s, h) ==> Notifying(r, h))
            && (r.finished != s.finished ==> r.finished == s.finished + 1)
            && (s.finished < |s.helpers| <= r.finished ==> Notifying(r, h))
  {
  }

  lemma HelperKeepsCaller(s: State, h: nat)
    requires SetupOk(s) && HistoryOk(s) && HelpersOk(s) && CanMove(s, h)
    ensures SetupOk(ApplyHelper(s, h)) && HistoryOk(ApplyHelper(s, h))
    ensures Working(ApplyHelper(s, h).caller) <==> Working(s.caller)
  {
    hide ApplyHelper;
    HelperFrame(s, h);
    assert HelperOk(s, h);
    if !Working(s.caller) { HelperRestFacts(s, h); }
  }

  lemma HelperRestFacts(s: State, h: nat)
    requires CanMove(s, h) && HelperOk(s, h) && !Working(s.caller)
    ensures var r := ApplyHelper(s, h);
            r.next == s.next && r.finished == s.finished && r.completed == s.completed && r.caller == s.caller
  {
  }

  lemma HelperTicketKeepsWork(s: State, h: nat)
    requires WorkOk(s) && CanMove(s, h) && s.helpers[h].pc.HTicket?
    ensures WorkOk(ApplyHelper(s, h))
  {
    var r := ApplyHelper(s, h);
    DoneCountSame(s, r, |s.helpers|);
    forall i: nat | Handed(r, i) && r.completed[i] == 0 ensures SomeoneRuns(r, i) {
      if Handed(s, i) {
        StillRuns(s, r, h, i);
      } else {
        assert HelperRuns(r, h, i);
      }
    }
  }

  /** Another thread's running index is not affected by this helper's move. */
  lemma StillRuns(s: State, r: State, h: nat, i: nat)
    requires SomeoneRuns(s, i) && h < |s.helpers| == |r.helpers|
    requires s.caller.Running? || r.caller.Running? ==> r.caller == s.caller
    requires forall g :: 0 <= g < |s.helpers| && g != h ==> r.helpers[g] == s.helpers[g]
    requires !HelperRuns(s, h, i)
    ensures SomeoneRuns(r, i)
  {
    if !CallerRuns(s, i) {
      var g :| 0 <= g < |s.helpers| && HelperRuns(s, g, i);
      assert HelperRuns(r, g, i);
    }
  }

  lemma HelperRunningKeepsWork(s: State, h: nat)
    requires WorkOk(s) && CanMove(s, h) && s.helpers[h].pc.HRunning?
    ensures WorkOk(ApplyHelper(s, h))
  {
    var r := ApplyHelper(s, h);
    DoneCountSame(s, r, |s.helpers|);
    forall i: nat | Handed(r, i) && r.completed[i] == 0 ensures SomeoneRuns(r, i) {
      StillRuns(s, r, h, i);
    }
  }

  lemma FinishKeepsWork(s: State, h: nat)
    requires WorkOk(s) && HelpersOk(s) && Working(s.caller) && CanMove(s, h) && s.helpers[h].pc.AddFinished?
    ensures WorkOk(ApplyHelper(s, h))
  {
    var r := ApplyHelper(s, h);
    assert HelperOk(s, h);
    DoneCountOneMore(s, r, h, |s.helpers|);
    forall i: nat | Handed(r, i) && r.completed[i] == 0 ensures SomeoneRuns(r, i) {
      StillRuns(s, r, h, i);
    }
  }

  lemma PlainHelperKeepsWork(s: State, h: nat)
    requires WorkOk(s) && HelpersOk(s) && Working(s.caller) && CanMove(s, h)
    requires var pc := s.helpers[h].pc; !pc.HTicket? && !pc.HRunning? && !pc.AddFinished?
    ensures WorkOk(ApplyHelper(s, h))
  {
    hide ApplyHelper;
    var r := ApplyHelper(s, h);
    HelperFrame(s, h);
    assert HelperOk(s, h);
    PlainHelperFacts(s, h);
    DoneCountSame(s, r, |s.helpers|);
    forall i: nat | Handed(r, i) && r.completed[i] == 0 ensures SomeoneRuns(r, i) {
      StillRuns(s, r, h, i);
    }
  }

  lemma HelperKeepsInv(s: State, h: nat)
    requires Inv(s) && CanMove(s, h)
    ensures Inv(ApplyHelper(s, h))
  {
    hide MutexOk, HelpersOk, SleepOk, WorkOk, HistoryOk, SetupOk, ApplyHelper;
    HelperKeepsMutex(s, h);
    HelperKeepsHelpers(s, h);
    HelperKeepsSleep(s, h);
    HelperKeepsCaller(s, h);
    if Working(s.caller) {
      var pc := s.helpers[h].pc;
      if pc.HTicket? {
        HelperTicketKeepsWork(s, h);
      } else if pc.HRunning? {
        HelperRunningKeepsWork(s, h);
      } else if pc.AddFinished? {
        FinishKeepsWork(s, h);
      } else {
        PlainHelperKeepsWork(s, h);
      }
    }
  }

  lemma SpuriousCallerKeepsInv(s: State)
    requires Inv(s) && Enabled(s, SpuriousCaller)
    ensures Inv(Apply(s, SpuriousCaller))
  {
    var r := Apply(s, SpuriousCaller);
    forall h | 0 <= h < |r.helpers| ensures HelperOk(r, h) { assert HelperOk(s, h); }
    DoneCountSame(s, r, |s.helpers|);
    TicketsCarryOver(s, r);
    hide TicketsOk;
  }

  lemma SpuriousHelperKeepsWork(s: State, h: nat)
    requires WorkOk(s) && Enabled(s, SpuriousHelper(h))
    ensures WorkOk(Apply(s, SpuriousHelper(h)))
  {
    var r := Apply(s, SpuriousHelper(h));
    DoneCountSame(s, r, |s.helpers|);
    forall i: nat | Handed(r, i) && r.completed[i] == 0 ensures SomeoneRuns(r, i) {
      StillRuns(s, r, h, i);
    }
  }

  lemma SpuriousHelperKeepsInv(s: State, h: nat)
    requires Inv(s) && Enabled(s, SpuriousHelper(h))
    ensures Inv(Apply(s, SpuriousHelper(h)))
  {
    hide WorkOk;
    var r := Apply(s, SpuriousHelper(h));
    forall g | 0 <= g < |r.helpers| ensures HelperOk(r, g) { assert HelperOk(s, g); }
    if Working(s.caller) { SpuriousHelperKeepsWork(s, h); }
    if r.caller.SleepDone? && r.finished >= |r.helpers| {
      var g :| 0 <= g < |s.helpers| && Notifying(s, g);
      assert Notifying(r, g);
    }
  }

  lemma StepKeepsInv(s: State, step: Step)
    requires Inv(s) && Enabled(s, step)
    ensures Inv(Apply(s, step))
  {
    hide Inv, ApplyCaller, ApplyHelper;
    match step
    case StartRun(count) => StartRunKeepsInv(s, count);
    case Destroy => DestroyKeepsInv(s);
    case CallerStep => CallerKeepsInv(s);
    case HelperStep(h) => HelperKeepsInv(s, h);
    case SpuriousCaller => SpuriousCallerKeepsInv(s);
    case SpuriousHelper(h) => SpuriousHelperKeepsInv(s, h);
  }

  // ----- safety over every execution -----

  ghost predicate Steps(s: State, r: State)
  {
    exists step :: Enabled(s, step) && r == Apply(s, step)
  }

  /** A finite execution of the pool: any steps of any threads in any order. */
  ghost predicate Execution(trace: seq<State>, helpers: nat)
  {
    && |trace| > 0 && trace[0] == Initial(helpers)
    && forall k :: 0 <= k < |trace| - 1 ==> Steps(trace[k], trace[k + 1])
  }

  lemma {:induction false} ExecutionInv(trace: seq<State>, helpers: nat, k: nat)
    requires Execution(trace, helpers) && k < |trace|
    ensures Inv(trace[k])
  {
    hide Inv, Apply, Enabled, Initial;
    if k == 0 {
      InitialInv(helpers);
    } else {
      ExecutionInv(trace, helpers, k - 1);
      assert Steps(trace[k - 1], trace[k - 1 + 1]);
      var step :| Enabled(trace[k - 1], step) && trace[k] == Apply(trace[k - 1], step);
      StepKeepsInv(trace[k - 1], step);
    }
  }

  /** Whenever `run` has returned, every index below its count was completed exactly once and none
      beyond it; and from the moment the caller decides to clear `task` until the next
      generation, no helper is anywhere in the work loop. */
  lemma RunsExactlyOnce(trace: seq<State>, helpers: nat, k: nat)
    requires Execution(trace, helpers) && k < |trace|
    ensures var s := trace[k];
            && (s.caller.Idle? && s.run > 0 ==> forall i: nat :: s.completed[i] == if i < s.arg then 1 else 0)
            && (s.caller.Idle? || s.caller.ClearTask? ==>
                  forall h :: 0 <= h < |s.helpers| ==> !InDrain(s.helpers[h].pc))
  {
    hide Execution;
    ExecutionInv(trace, helpers, k);
    var s := trace[k];
    if s.caller.Idle? || s.caller.ClearTask? {
      forall h | 0 <= h < |s.helpers| ensures !InDrain(s.helpers[h].pc) {
        assert HelperOk(s, h);
      }
    }
  }

  /** A helper about to read `task` finds that of the current run, and every task call in
      flight is one of the current run. */
  lemma TaskIsCurrent(trace: seq<State>, helpers: nat, k: nat, h: nat)
    requires Execution(trace, helpers) && k < |trace| && h < |trace[k].helpers|
    requires InDrain(trace[k].helpers[h].pc)
    ensures var s, pc := trace[k], trace[k].helpers[h].pc;
            && s.task == s.run && s.run > 0
            && (pc.HTicket? || pc.HRunning? ==> pc.task == s.run)
  {
    hide Execution;
    ExecutionInv(trace, helpers, k);
    assert HelperOk(trace[k], h);
  }

  // ----- progress -----

  ghost predicate SomeThreadCanMove(s: State)
  {
    CallerCanStep(s) || exists h :: CanMove(s, h)
  }

  lemma HolderCanMove(s: State)
    requires MutexOk(s) && !s.mutex.Free?
    ensures SomeThreadCanMove(s)
  {
    if s.mutex.ByHelper? {
      assert CanMove(s, s.mutex.h);
    }
  }

  /** No deadlock: as long as a call of `run` or the destructor is under way, some thread that is
      not asleep can take its next step. */
  lemma NoDeadlock(s: State)
    requires Inv(s) && !s.caller.Idle? && !s.caller.Gone?
    ensures SomeThreadCanMove(s)
  {
    if !s.mutex.Free? {
      HolderCanMove(s);
    } else if s.caller.SleepDone? {
      if s.finished < |s.helpers| {
        var h := SomeoneNotDone(s, |s.helpers|);
        assert HelperOk(s, h);
        assert CanMove(s, h);
      } else {
        var h :| 0 <= h < |s.helpers| && Notifying(s, h);
        assert CanMove(s, h);
      }
    } else if s.caller.Joining? && !CallerCanStep(s) {
      var h :| 0 <= h < |s.helpers| && !s.helpers[h].pc.Exited?;
      assert HelperOk(s, h);
      assert CanMove(s, h);
    }
  }

  lemma {:induction false} SomeoneNotDone(s: State, k: nat) returns (h: nat)
    requires k <= |s.helpers| && DoneCount(s, k) < k
    ensures h < k && !Done(s, h)
  {
    if !Done(s, k - 1) {
      h := k - 1;
    } else {
      h := SomeoneNotDone(s, k - 1);
    }
  }

  // ----- every run returns -----

  const BEHIND := 4013

  /** Steps a helper still has ahead of it before it sleeps, not counting tickets. */
  function HelperRank(s: State, h: nat): (n: nat)
    requires h < |s.helpers|
  {
    PcRank(s.helpers[h].pc) + if s.helpers[h].seen != s.generation then BEHIND else 0
  }

  function PcRank(pc: HelperPc): (n: nat)
    ensures n <= BEHIND - 1
  {
    match pc
    case SleepWait => 0
    case HoldWaitLock => 1
    case WantWaitLock => 2
    case Load(k) => 3 + if k <= HELPER_SPINS then HELPER_SPINS - k else 0
    case HoldNotify => 4006
    case WantNotify => 4007
    case AddFinished => 4008
    case HTicket(_) => 4009
    case HRunning(_, _) => 4010
    case HEnterDrain => 4010
    case HoldCheck => 4011
    case WantCheck => 4012
    case Reload => 0
    case Exited => 0
  }

  /** Steps the caller still has ahead of it, including what its announcements cost the helpers. */
  function CallerRank(s: State): (n: nat)
  {
    var wake := 2 * |s.helpers|;
    var announce := wake + BEHIND * |s.helpers|;
    match s.caller
    case Idle => 0
    case Sequential(i) => 1 + if i <= s.arg then s.arg - i else 0
    case ClearTask => 1
    case SleepDone => 2
    case HoldDoneLock => 3
    case WantDoneLock => 4
    case CheckDone => 5
    case Spin(k) => 6 + if k <= CALLER_SPINS then CALLER_SPINS - k else 0
    case Ticket(_) => 20007
    case Running(_, _) => 20008
    case EnterDrain => 20008
    case NotifyAll => 20009 + wake
    case Unlock => 20010 + wake
    case BumpGeneration => 20011 + announce + 2 * s.arg
    case SetFinished => 20012 + announce + 2 * s.arg
    case SetNext => 20013 + announce + 2 * s.arg
    case SetCount => 20014 + announce + 2 * s.arg
    case SetTask => 20015 + announce + 2 * s.arg
    case WantLock => 20016 + announce + 2 * s.arg
    case Gone => 0
    case Joining => 1
    case NotifyStop => 2 + wake
    case UnlockStop => 3 + wake
    case BumpStop => 4 + announce
    case SetStopping => 5 + announce
    case WantStopLock => 6 + announce
  }

  function TicketRank(s: State): (n: nat)
  {
    if Working(s.caller) && s.next < s.count then 2 * (s.count - s.next) else 0
  }

  function RankSum(s: State, k: nat): (n: nat)
    requires k <= |s.helpers|
  {
    if k == 0 then 0 else RankSum(s, k - 1) + HelperRank(s, k - 1)
  }

  /** A bound on the steps left before the caller is back and every helper sleeps. */
  function Measure(s: State): (n: nat)
  {
    CallerRank(s) + TicketRank(s) + RankSum(s, |s.helpers|)
  }

  lemma {:induction false} RankSumSame(s: State, r: State, k: nat)
    requires |s.helpers| == |r.helpers| && k <= |s.helpers|
    requires forall h :: 0 <= h < k ==> HelperRank(r, h) == HelperRank(s, h)
    ensures RankSum(r, k) == RankSum(s, k)
  {
    if k != 0 { RankSumSame(s, r, k - 1); }
  }

  lemma {:induction false} RankSumGrows(s: State, r: State, k: nat, each: nat)
    requires |s.helpers| == |r.helpers| && k <= |s.helpers|
    requires forall h :: 0 <= h < k ==> HelperRank(r, h) <= HelperRank(s, h) + each
    ensures RankSum(r, k) <= RankSum(s, k) + each * k
  {
    if k != 0 {
      RankSumGrows(s, r, k - 1, each);
      assert each * k == each * (k - 1) + each;
    }
  }

  lemma {:induction false} RankSumMoves(s: State, r: State, h: nat, k: nat)
    requires |s.helpers| == |r.helpers| && h < k <= |s.helpers|
    requires forall g :: 0 <= g < k && g != h ==> HelperRank(r, g) == HelperRank(s, g)
    ensures RankSum(r, k) - RankSum(s, k) == HelperRank(r, h) - HelperRank(s, h)
  {
    if k - 1 == h {
      RankSumSame(s, r, k - 1);
    } else {
      RankSumMoves(s, r, h, k - 1);
    }
  }

  /** What an announcement of the caller adds to the rank of each helper. */
  function Burden(c: CallerPc): (n: nat)
  {
    if c.BumpGeneration? || c.BumpStop? then BEHIND else if c.NotifyAll? || c.NotifyStop? then 2 else 0
  }

  lemma PublishingRankDrops(s: State)
    requires Publishing(s.caller) && CallerCanStep(s)
    requires s.caller.BumpGeneration? ==> s.count == s.arg && s.next == 0
    ensures CallerRank(ApplyCaller(s)) + TicketRank(ApplyCaller(s)) + Burden(s.caller) * |s.helpers|
          < CallerRank(s) + TicketRank(s)
  {
  }

  lemma WorkingRankDrops(s: State)
    requires Working(s.caller) && CallerCanStep(s)
    ensures CallerRank(ApplyCaller(s)) + TicketRank(ApplyCaller(s)) + Burden(s.caller) * |s.helpers|
          < CallerRank(s) + TicketRank(s)
  {
  }

  lemma OtherRankDrops(s: State)
    requires !Publishing(s.caller) && !Working(s.caller) && CallerCanStep(s)
    requires s.caller.Sequential? ==> s.caller.i <= s.arg
    ensures CallerRank(ApplyCaller(s)) + TicketRank(ApplyCaller(s)) + Burden(s.caller) * |s.helpers|
          < CallerRank(s) + TicketRank(s)
  {
  }

  lemma CallerRankDrops(s: State)
    requires SetupOk(s) && HistoryOk(s) && CallerCanStep(s)
    ensures CallerRank(ApplyCaller(s)) + TicketRank(ApplyCaller(s)) + Burden(s.caller) * |s.helpers|
          < CallerRank(s) + TicketRank(s)
  {
    hide RunComplete, ApplyCaller, CallerRank, TicketRank, Burden;
    if Publishing(s.caller) {
      PublishingRankDrops(s);
    } else if Working(s.caller) {
      WorkingRankDrops(s);
    } else {
      OtherRankDrops(s);
    }
  }

  lemma CallerBurden(s: State, h: nat)
    requires CallerCanStep(s) && h < |s.helpers|
    ensures |ApplyCaller(s).helpers| == |s.helpers|
    ensures HelperRank(ApplyCaller(s), h) <= HelperRank(s, h) + Burden(s.caller)
  {
  }

  lemma CallerDecreases(s: State)
    requires Inv(s) && CallerCanStep(s)
    ensures Measure(ApplyCaller(s)) < Measure(s)
  {
    hide MutexOk, HelpersOk, SleepOk, WorkOk, HistoryOk, SetupOk, ApplyCaller, CallerRank, TicketRank,
         HelperRank, Burden;
    var r := ApplyCaller(s);
    CallerRankDrops(s);
    CallerKeepsCount(s);
    forall h | 0 <= h < |s.helpers| ensures HelperRank(r, h) <= HelperRank(s, h) + Burden(s.caller) {
      CallerBurden(s, h);
    }
    RankSumGrows(s, r, |s.helpers|, Burden(s.caller));
  }

  lemma CallerKeepsCount(s: State)
    requires CallerCanStep(s)
    ensures |ApplyCaller(s).helpers| == |s.helpers|
  {
  }

  /** The part of the measure a helper's step can change. */
  function Share(s: State, h: nat): (n: nat)
    requires h < |s.helpers|
  {
    CallerRank(s) + TicketRank(s) + HelperRank(s, h)
  }

  lemma WaitingHelperDecreases(s: State, h: nat)
    requires CanMove(s, h) && HelperOk(s, h)
    requires var pc := s.helpers[h].pc; pc.Load? || pc.WantWaitLock? || pc.HoldWaitLock?
    ensures |ApplyHelper(s, h).helpers| == |s.helpers| && Share(ApplyHelper(s, h), h) < Share(s, h)
  {
    hide CallerRank;
    assert CallerRank(ApplyHelper(s, h)) == CallerRank(s) by { SameCallerRank(s, ApplyHelper(s, h)); }
  }

  lemma SameCallerRank(s: State, r: State)
    requires r.caller == s.caller && r.arg == s.arg && |r.helpers| == |s.helpers|
    ensures CallerRank(r) == CallerRank(s)
  {
  }

  lemma NoticingHelperDecreases(s: State, h: nat)
    requires CanMove(s, h) && HelperOk(s, h)
    requires var pc := s.helpers[h].pc; pc.Reload? || pc.WantCheck? || pc.HoldCheck?
    ensures |ApplyHelper(s, h).helpers| == |s.helpers| && Share(ApplyHelper(s, h), h) < Share(s, h)
  {
    hide CallerRank;
    assert CallerRank(ApplyHelper(s, h)) == CallerRank(s) by { SameCallerRank(s, ApplyHelper(s, h)); }
  }

  lemma DrainingHelperDecreases(s: State, h: nat)
    requires CanMove(s, h) && InDrain(s.helpers[h].pc) && Working(s.caller)
    ensures |ApplyHelper(s, h).helpers| == |s.helpers| && Share(ApplyHelper(s, h), h) < Share(s, h)
  {
    hide CallerRank;
    assert CallerRank(ApplyHelper(s, h)) == CallerRank(s) by { SameCallerRank(s, ApplyHelper(s, h)); }
  }

  lemma NotifyingHelperDecreases(s: State, h: nat)
    requires CanMove(s, h) && Notifying(s, h)
    ensures |ApplyHelper(s, h).helpers| == |s.helpers| && Share(ApplyHelper(s, h), h) < Share(s, h)
  {
    if !s.caller.SleepDone? {
      hide CallerRank;
      assert CallerRank(ApplyHelper(s, h)) == CallerRank(s) by { SameCallerRank(s, ApplyHelper(s, h)); }
    }
  }

  /** A helper's step lowers its own rank, or draws a ticket, by more than it wakes the caller. */
  lemma HelperDecreases(s: State, h: nat)
    requires CanMove(s, h) && HelperOk(s, h)
    requires InDrain(s.helpers[h].pc) ==> Working(s.caller)
    ensures |ApplyHelper(s, h).helpers| == |s.helpers| && Share(ApplyHelper(s, h), h) < Share(s, h)
  {
    hide ApplyHelper, Share, HelperOk;
    var pc := s.helpers[h].pc;
    if InDrain(pc) {
      DrainingHelperDecreases(s, h);
    } else if pc.Reload? || pc.WantCheck? || pc.HoldCheck? {
      NoticingHelperDecreases(s, h);
    } else if Notifying(s, h) {
      NotifyingHelperDecreases(s, h);
    } else {
      WaitingHelperDecreases(s, h);
    }
  }

  /** Every step of a thread that is not a spurious wake-up lowers the measure, so a call of `run`
      returns after a bounded number of steps however the threads are scheduled. */
  lemma StepDecreases(s: State, step: Step)
    requires Inv(s) && Enabled(s, step) && (step.CallerStep? || step.HelperStep?)
    ensures Measure(Apply(s, step)) < Measure(s)
  {
    hide ApplyHelper, ApplyCaller, CallerRank, TicketRank;
    if step.CallerStep? {
      hide Inv;
      CallerDecreases(s);
    } else {
      var h := step.h;
      var r := ApplyHelper(s, h);
      assert HelperOk(s, h);
      HelperFrame(s, h);
      HelperDecreases(s, h);
      RankSumMoves(s, r, h, |s.helpers|);
    }
  }

  /** A stretch of an execution with thread steps only. */
  ghost predicate Stretch(trace: seq<State>)
  {
    && |trace| > 0
    && forall k :: 0 <= k < |trace| - 1 ==> ThreadStep(trace[k], trace[k + 1])
  }

  ghost predicate ThreadStep(s: State, r: State)
  {
    exists step :: Enabled(s, step) && (step.CallerStep? || step.HelperStep?) && r == Apply(s, step)
  }

  /** From any state the invariant allows, thread steps end after at most `Measure` of them, and
      where they end the caller is back from `run` or the pool is gone. */
  lemma {:induction false} RunReturns(trace: seq<State>)
    requires Stretch(trace) && Inv(trace[0])
    ensures |trace| - 1 <= Measure(trace[0])
    ensures Inv(trace[|trace| - 1])
    ensures var last := trace[|trace| - 1];
            (forall r :: !ThreadStep(last, r)) ==> last.caller.Idle? || last.caller.Gone?
    decreases |trace|
  {
    hide Inv, Apply, Enabled, Measure;
    if |trace| == 1 {
      if !trace[0].caller.Idle? && !trace[0].caller.Gone? {
        NoDeadlock(trace[0]);
        MoversStep(trace[0]);
      }
    } else {
      assert ThreadStep(trace[0], trace[0 + 1]);
      var step :| Enabled(trace[0], step) && (step.CallerStep? || step.HelperStep?)
                  && trace[1] == Apply(trace[0], step);
      StepKeepsInv(trace[0], step);
      StepDecreases(trace[0], step);
      var rest := trace[1..];
      forall k | 0 <= k < |rest| - 1 ensures ThreadStep(rest[k], rest[k + 1]) {
        assert ThreadStep(trace[k + 1], trace[k + 1 + 1]);
      }
      RunReturns(rest);
    }
  }

  lemma MoversStep(s: State)
    requires SomeThreadCanMove(s)
    ensures exists r :: ThreadStep(s, r)
  {
    if CallerCanStep(s) {
      assert Enabled(s, CallerStep) && CallerStep.CallerStep?;
      assert ThreadStep(s, Apply(s, CallerStep));
    } else {
      var h :| CanMove(s, h);
      assert Enabled(s, HelperStep(h)) && HelperStep(h).HelperStep?;
      assert ThreadStep(s, Apply(s, HelperStep(h)));
    }
  }
}
