/** The manager and its workers as interleaved steps: every lock, shared flag access, thread creation, end
    and join is one step. */
module Manager {

  const NUM_WORKERS: nat := 4
  const ROUNDS: nat := 10

  /** Where a worker thread is in `worker_routine`. */
  datatype WorkerPc =
    | AtStart
    | InOnline
    | AtLoop
    | Napping(i: nat)
    | AtBeat
    | AtFailLock
    | InFail
    | AtClear
    | AtExit
    | AtDoneLock
    | InDone
    | Finished

  datatype Thread = Thread(slot: nat, pc: WorkerPc, joined: bool)

  /** Where the manager is in `main`. `Broken` is the undefined behaviour of joining a joined thread. */
  datatype ManagerPc =
    | Init(i: nat)
    | Sleep
    | Try(i: nat)
    | Check(i: nat, ended: bool)
    | Join(i: nat)
    | Lock(i: nat)
    | Report(i: nat)
    | Mark(i: nat)
    | Create(i: nat)
    | Stop
    | Final(i: nat)
    | Halted
    | Aborted
    | Broken

  datatype Owner = Free | ByManager | ByThread(t: nat)

  /** `handles[i]` is `workers[i].thread`; `stale` records the slots whose restart failed. */
  datatype State = State(
    mgr: ManagerPc, round: nat, handles: seq<nat>, active: seq<bool>, threads: seq<Thread>,
    keepRunning: bool, mutex: Owner, stale: set<nat>)

  const Start: State := State(Init(0), 0, [], [false, false, false, false], [], true, Free, {})

  /** A step of the manager (`created` says whether `pthread_create` succeeds) or of a thread (`fails` is the
      outcome of its dice). */
  datatype Step = ManagerStep(created: bool) | ThreadStep(t: nat, fails: bool)

  predicate Holding(pc: WorkerPc) { pc.InOnline? || pc.InFail? || pc.InDone? }

  predicate Locking(pc: WorkerPc) { pc.AtStart? || pc.AtFailLock? || pc.AtDoneLock? }

  predicate Over(s: State) { s.mgr.Halted? || s.mgr.Aborted? || s.mgr.Broken? }

  predicate Enabled(s: State, step: Step)
  {
    && !Over(s)
    && match step
       case ThreadStep(t, _) =>
         t < |s.threads| && !s.threads[t].pc.Finished? && (Locking(s.threads[t].pc) ==> s.mutex.Free?)
       case ManagerStep(_) =>
         match s.mgr
         case Lock(_) => s.mutex.Free?
         case Join(i) => i < |s.handles| && s.handles[i] < |s.threads| && s.threads[s.handles[i]].pc.Finished?
         case Final(i) =>
           i < NUM_WORKERS ==>
             i < |s.handles| && s.handles[i] < |s.threads| && s.threads[s.handles[i]].pc.Finished?
         case _ => true
  }

  // ---- the worker ----

  function NextPc(pc: WorkerPc, keepRunning: bool, fails: bool): WorkerPc
  {
    match pc
    case AtStart => InOnline
    case InOnline => AtLoop
    case AtLoop => if keepRunning then Napping(0) else Finished
    case Napping(i) => if i < 10 && keepRunning then Napping(i + 1) else AtBeat
    case AtBeat => if fails then AtFailLock else AtDoneLock
    case AtFailLock => InFail
    case InFail => AtClear
    case AtClear => AtExit
    case AtExit => Finished
    case AtDoneLock => InDone
    case InDone => AtLoop
    case Finished => Finished
  }

  function WorkerMove(s: State, t: nat, fails: bool): State
    requires t < |s.threads|
  {
    var th := s.threads[t];
    var pc := NextPc(th.pc, s.keepRunning, fails);
    s.(threads := s.threads[t := th.(pc := pc)],
       mutex := if Locking(th.pc) then ByThread(t) else if Holding(th.pc) then Free else s.mutex,
       active := if th.pc.AtClear? && th.slot < |s.active| then s.active[th.slot := false] else s.active)
  }

  // ---- the manager ----

  function NextSlot(s: State, i: nat): State
  {
    if i + 1 < NUM_WORKERS then s.(mgr := Try(i + 1))
    else s.(round := s.round + 1, mgr := if s.round + 1 < ROUNDS then Sleep else Stop)
  }

  function Joined(s: State, i: nat): State
    requires i < |s.handles| && s.handles[i] < |s.threads|
  {
    var t := s.handles[i];
    s.(threads := s.threads[t := s.threads[t].(joined := true)])
  }

  function Spawned(s: State, i: nat): State
    requires i <= |s.handles|
  {
    var t := |s.threads|;
    s.(threads := s.threads + [Thread(i, AtStart, false)],
       handles := if i < |s.handles| then s.handles[i := t] else s.handles + [t])
  }

  predicate SlotInRange(mgr: ManagerPc)
  {
    match mgr
    case Init(i) => i < NUM_WORKERS
    case Try(i) => i < NUM_WORKERS
    case Check(i, _) => i < NUM_WORKERS
    case Join(i) => i < NUM_WORKERS
    case Lock(i) => i < NUM_WORKERS
    case Report(i) => i < NUM_WORKERS
    case Mark(i) => i < NUM_WORKERS
    case Create(i) => i < NUM_WORKERS
    case Final(i) => i <= NUM_WORKERS
    case _ => true
  }

  predicate Monitoring(mgr: ManagerPc)
  {
    mgr.Sleep? || mgr.Try? || mgr.Check? || mgr.Join? || mgr.Lock? || mgr.Report? || mgr.Mark? || mgr.Create?
  }

  predicate Wired(s: State)
  {
    && |s.active| == NUM_WORKERS
    && (s.mgr.Init? ==> s.round == 0)
    && (Monitoring(s.mgr) ==> s.round < ROUNDS)
    && (forall i :: 0 <= i < |s.handles| ==> s.handles[i] < |s.threads|)
    && |s.handles| == (if s.mgr.Init? then s.mgr.i else NUM_WORKERS)
    && SlotInRange(s.mgr)
  }

  function ManagerMove(s: State, created: bool): State
    requires Wired(s) && !Over(s)
  {
    match s.mgr
    case Init(i) =>
      if !created then s.(mgr := Aborted)
      else Spawned(s.(active := s.active[i := true]), i).(mgr := if i + 1 < NUM_WORKERS then Init(i + 1) else Sleep)
    case Sleep => s.(mgr := Try(0))
    case Try(i) =>
      var th := s.threads[s.handles[i]];
      if th.joined then s.(mgr := Broken)
      else if th.pc.Finished? then Joined(s, i).(mgr := Check(i, true))
      else s.(mgr := Check(i, false))
    case Check(i, ended) =>
      if ended then s.(mgr := Lock(i)) else if !s.active[i] then s.(mgr := Join(i)) else NextSlot(s, i)
    case Join(i) => Joined(s, i).(mgr := Lock(i))
    case Lock(i) => s.(mgr := Report(i), mutex := ByManager)
    case Report(i) => s.(mgr := Mark(i), mutex := Free)
    case Mark(i) => s.(mgr := Create(i), active := s.active[i := true])
    case Create(i) => NextSlot(if created then Spawned(s, i) else s.(stale := s.stale + {i}), i)
    case Stop => s.(mgr := Final(0), keepRunning := false)
    case Final(i) =>
      if i == NUM_WORKERS then s.(mgr := Halted)
      else if s.threads[s.handles[i]].joined then s.(mgr := Broken)
      else Joined(s, i).(mgr := Final(i + 1))
    case _ => s
  }

  function Next(s: State, step: Step): State
    requires Wired(s) && Enabled(s, step)
  {
    match step
    case ManagerStep(created) => ManagerMove(s, created)
    case ThreadStep(t, fails) => WorkerMove(s, t, fails)
  }

  // ---- the invariant ----

  /** The manager has joined slot `i`'s thread and not yet replaced it. */
  predicate Between(mgr: ManagerPc, i: nat)
  {
    match mgr
    case Check(j, ended) => ended && i == j
    case Lock(j) => i == j
    case Report(j) => i == j
    case Mark(j) => i == j
    case Create(j) => i == j
    case Final(j) => i < j
    case Halted => true
    case _ => false
  }

  predicate Gone(pc: WorkerPc) { pc.AtExit? || pc.Finished? }

  /** A slot never has two unjoined threads, and only ended threads are joined. */
  ghost predicate ThreadsOk(s: State)
    requires Wired(s)
  {
    && (forall t :: 0 <= t < |s.threads| ==> s.threads[t].slot < |s.handles|)
    && (forall i :: 0 <= i < |s.handles| ==> s.threads[s.handles[i]].slot == i)
    && (forall t :: 0 <= t < |s.threads| && !s.threads[t].joined ==> s.handles[s.threads[t].slot] == t)
    && (forall t :: 0 <= t < |s.threads| && s.threads[t].joined ==> s.threads[t].pc.Finished?)
  }

  ghost predicate JoinsOk(s: State)
    requires Wired(s)
  {
    && (forall i :: i in s.stale ==> i < |s.handles| && !Between(s.mgr, i))
    && (forall i :: 0 <= i < |s.handles| ==> (s.threads[s.handles[i]].joined <==> i in s.stale || Between(s.mgr, i)))
    && (s.mgr.Join? ==> s.mgr.i !in s.stale && Gone(s.threads[s.handles[s.mgr.i]].pc))
    && (s.mgr.Check? ==> s.mgr.i !in s.stale)
  }

  ghost predicate MutexOk(s: State)
  {
    && (s.mutex.ByManager? <==> s.mgr.Report?)
    && (s.mutex.ByThread? ==> s.mutex.t < |s.threads|)
    && (forall t :: 0 <= t < |s.threads| ==> (Holding(s.threads[t].pc) <==> s.mutex == ByThread(t)))
  }

  ghost predicate FlagsOk(s: State)
    requires Wired(s)
  {
    && (s.keepRunning <==> !s.mgr.Final? && !s.mgr.Halted?)
    && (s.mgr.Create? ==> s.active[s.mgr.i])
    && (forall i :: 0 <= i < |s.handles| && !s.active[i] ==> Gone(s.threads[s.handles[i]].pc))
    && (forall i :: 0 <= i < |s.handles| && s.keepRunning && Gone(s.threads[s.handles[i]].pc) && s.active[i] ==>
          i in s.stale || s.mgr == Create(i))
    && (forall t :: 0 <= t < |s.threads| && s.threads[t].pc.Napping? ==> s.threads[t].pc.i <= 10)
  }

  /** Sound states other than the undefined one and the early exit. */
  ghost predicate Sound(s: State)
  {
    Wired(s) && ThreadsOk(s) && JoinsOk(s) && MutexOk(s) && FlagsOk(s)
  }

  ghost predicate Inv(s: State)
  {
    match s.mgr
    case Broken => s.stale != {}
    case Aborted => true
    case _ => Sound(s)
  }

  lemma StartInv()
    ensures Inv(Start)
  {}

  // ---- a worker's step ----

  /** A thread that takes a step is the unjoined thread of its slot. */
  lemma RunningIsCurrent(s: State, t: nat)
    requires Wired(s) && ThreadsOk(s) && t < |s.threads| && !s.threads[t].pc.Finished?
    ensures s.handles[s.threads[t].slot] == t && !s.threads[t].joined
  {}

  lemma WorkerKeepsInv(s: State, t: nat, fails: bool)
    requires Sound(s) && Enabled(s, ThreadStep(t, fails))
    ensures Sound(WorkerMove(s, t, fails))
  {
    var u := WorkerMove(s, t, fails);
    assert Wired(u);
    WorkerThreads(s, t, fails);
    WorkerMutex(s, t, fails);
    WorkerFlags(s, t, fails);
  }

  lemma WorkerThreads(s: State, t: nat, fails: bool)
    requires Sound(s) && Enabled(s, ThreadStep(t, fails)) && Wired(WorkerMove(s, t, fails))
    ensures ThreadsOk(WorkerMove(s, t, fails)) && JoinsOk(WorkerMove(s, t, fails))
  {
    hide Locking, Holding;
  }

  lemma WorkerMutex(s: State, t: nat, fails: bool)
    requires Sound(s) && Enabled(s, ThreadStep(t, fails))
    ensures MutexOk(WorkerMove(s, t, fails))
  {
    hide ThreadsOk, JoinsOk, FlagsOk;
  }

  lemma WorkerFlags(s: State, t: nat, fails: bool)
    requires Sound(s) && Enabled(s, ThreadStep(t, fails)) && Wired(WorkerMove(s, t, fails))
    ensures FlagsOk(WorkerMove(s, t, fails))
  {
    hide Locking, Holding, MutexOk;
    RunningIsCurrent(s, t);
  }

  // ---- a manager's step ----

  /** Starting a thread in a slot whose last one has been joined, or that had none. */
  lemma SpawnKeepsThreads(s: State, i: nat, u: State)
    requires Wired(s) && Wired(u) && ThreadsOk(s) && i <= |s.handles|
    requires i < |s.handles| ==> s.threads[s.handles[i]].joined
    requires u.threads == Spawned(s, i).threads && u.handles == Spawned(s, i).handles
    ensures ThreadsOk(u)
  {}

  lemma SameThreads(s: State, u: State)
    requires Wired(s) && Wired(u) && ThreadsOk(s) && u.threads == s.threads && u.handles == s.handles
    ensures ThreadsOk(u)
  {}

  lemma InitKeeps(s: State, created: bool)
    requires Sound(s) && s.mgr.Init? && Enabled(s, ManagerStep(created))
    ensures var u := ManagerMove(s, created); u.mgr.Aborted? || Sound(u)
  {
    if created {
      var u := ManagerMove(s, created);
      assert Wired(u);
      SpawnKeepsThreads(s, s.mgr.i, u);
    }
  }

  lemma SleepKeeps(s: State, created: bool)
    requires Sound(s) && s.mgr.Sleep? && Enabled(s, ManagerStep(created))
    ensures var u := ManagerMove(s, created); Sound(u)
  {}

  lemma TryKeeps(s: State, created: bool)
    requires Sound(s) && s.mgr.Try? && Enabled(s, ManagerStep(created))
    ensures var u := ManagerMove(s, created); u.mgr.Broken? || Sound(u)
  {}

  lemma CheckKeeps(s: State, created: bool)
    requires Sound(s) && s.mgr.Check? && Enabled(s, ManagerStep(created))
    ensures var u := ManagerMove(s, created); Sound(u)
  {}

  lemma JoinKeeps(s: State, created: bool)
    requires Sound(s) && s.mgr.Join? && Enabled(s, ManagerStep(created))
    ensures var u := ManagerMove(s, created); Sound(u)
  {}

  lemma LockKeeps(s: State, created: bool)
    requires Sound(s) && s.mgr.Lock? && Enabled(s, ManagerStep(created))
    ensures var u := ManagerMove(s, created); Sound(u)
  {}

  lemma ReportKeeps(s: State, created: bool)
    requires Sound(s) && s.mgr.Report? && Enabled(s, ManagerStep(created))
    ensures var u := ManagerMove(s, created); Sound(u)
  {}

  lemma MarkKeeps(s: State, created: bool)
    requires Sound(s) && s.mgr.Mark? && Enabled(s, ManagerStep(created))
    ensures var u := ManagerMove(s, created); Sound(u)
  {}

  lemma CreateKeeps(s: State, created: bool)
    requires Sound(s) && s.mgr.Create? && Enabled(s, ManagerStep(created))
    ensures var u := ManagerMove(s, created); Sound(u)
  {
    hide ThreadsOk, JoinsOk, FlagsOk, MutexOk;
    var i, u := s.mgr.i, ManagerMove(s, created);
    assert Wired(u);
    if created {
      assert s.threads[s.handles[i]].joined by { JoinedBeforeCreate(s); }
      SpawnKeepsThreads(s, i, u);
      SpawnKeepsJoins(s, i, u);
      SpawnKeepsMutex(s, i, u);
      SpawnKeepsFlags(s, i, u);
    } else {
      SameThreads(s, u);
      FailedCreateKeeps(s);
    }
  }

  /** A restart follows the end and the join of the slot's previous thread. */
  lemma JoinedBeforeCreate(s: State)
    requires Sound(s) && s.mgr.Create?
    ensures s.threads[s.handles[s.mgr.i]].joined && s.threads[s.handles[s.mgr.i]].pc.Finished?
  {}

  lemma SpawnKeepsJoins(s: State, i: nat, u: State)
    requires Wired(s) && ThreadsOk(s) && JoinsOk(s) && s.mgr == Create(i) && u == ManagerMove(s, true) && Wired(u)
    ensures JoinsOk(u)
  {}

  lemma SpawnKeepsMutex(s: State, i: nat, u: State)
    requires Wired(s) && MutexOk(s) && s.mgr == Create(i) && u == ManagerMove(s, true)
    ensures MutexOk(u)
  {}

  lemma SpawnKeepsFlags(s: State, i: nat, u: State)
    requires Wired(s) && Wired(u) && ThreadsOk(s) && FlagsOk(s) && s.mgr == Create(i)
    requires u == Spawned(s, i).(mgr := u.mgr, round := u.round) && (u.mgr.Try? || u.mgr.Sleep? || u.mgr.Stop?)
    ensures FlagsOk(u)
  {
    forall j | 0 <= j < |s.handles| && j != i ensures u.threads[u.handles[j]] == s.threads[s.handles[j]] {}
  }

  lemma FailedCreateKeeps(s: State)
    requires Sound(s) && s.mgr.Create? && Wired(ManagerMove(s, false))
    ensures var u := ManagerMove(s, false); JoinsOk(u) && MutexOk(u) && FlagsOk(u)
  {}

  lemma StopKeeps(s: State, created: bool)
    requires Sound(s) && s.mgr.Stop? && Enabled(s, ManagerStep(created))
    ensures var u := ManagerMove(s, created); Sound(u)
  {}

  lemma FinalKeeps(s: State, created: bool)
    requires Sound(s) && s.mgr.Final? && Enabled(s, ManagerStep(created))
    ensures var u := ManagerMove(s, created); u.mgr.Broken? || Sound(u)
  {}

  lemma ManagerKeepsInv(s: State, created: bool)
    requires Sound(s) && Enabled(s, ManagerStep(created))
    ensures Inv(ManagerMove(s, created))
  {
    BreaksWhenStale(s, created);
    hide Wired, ThreadsOk, JoinsOk, FlagsOk, MutexOk;
    match s.mgr
    case Init(_) => InitKeeps(s, created);
    case Sleep => SleepKeeps(s, created);
    case Try(_) => TryKeeps(s, created);
    case Check(_, _) => CheckKeeps(s, created);
    case Join(_) => JoinKeeps(s, created);
    case Lock(_) => LockKeeps(s, created);
    case Report(_) => ReportKeeps(s, created);
    case Mark(_) => MarkKeeps(s, created);
    case Create(_) => CreateKeeps(s, created);
    case Stop => StopKeeps(s, created);
    case Final(_) => FinalKeeps(s, created);
  }

  /** The manager joins a joined thread exactly when it comes to a slot whose restart failed. */
  lemma BreaksWhenStale(s: State, created: bool)
    requires Sound(s) && Enabled(s, ManagerStep(created))
    ensures ManagerMove(s, created).mgr.Broken?
       <==> (s.mgr.Try? || (s.mgr.Final? && s.mgr.i < NUM_WORKERS)) && s.mgr.i in s.stale
    ensures ManagerMove(s, created).mgr.Broken? ==> ManagerMove(s, created).stale == s.stale != {}
  {
    hide FlagsOk, MutexOk, ThreadsOk;
  }

  lemma StepKeepsInv(s: State, step: Step)
    requires Inv(s) && Enabled(s, step)
    ensures Inv(Next(s, step))
  {
    hide Sound;
    match step
    case ManagerStep(created) => ManagerKeepsInv(s, created);
    case ThreadStep(t, fails) => WorkerKeepsInv(s, t, fails);
  }

  // ---- runs ----

  predicate LegalRun(s: State, steps: seq<Step>)
    decreases |steps|
  {
    steps == [] || (Wired(s) && Enabled(s, steps[0]) && LegalRun(Next(s, steps[0]), steps[1..]))
  }

  function Run(s: State, steps: seq<Step>): State
    requires LegalRun(s, steps)
    decreases |steps|
  {
    if steps == [] then s else Run(Next(s, steps[0]), steps[1..])
  }

  lemma {:induction false} RunKeepsInv(s: State, steps: seq<Step>)
    requires Inv(s) && LegalRun(s, steps)
    ensures Inv(Run(s, steps))
    decreases |steps|
  {
    hide Inv, Next, Enabled, Wired;
    if steps != [] {
      StepKeepsInv(s, steps[0]);
      RunKeepsInv(Next(s, steps[0]), steps[1..]);
    }
  }

  // ---- safety over all interleavings ----

  function CountJoined(threads: seq<Thread>): nat
  {
    if threads == [] then 0
    else CountJoined(threads[..|threads| - 1]) + (if threads[|threads| - 1].joined then 1 else 0)
  }

  lemma {:induction false} AllJoined(threads: seq<Thread>)
    requires forall t :: 0 <= t < |threads| ==> threads[t].joined
    ensures CountJoined(threads) == |threads|
  {
    if threads != [] {
      AllJoined(threads[..|threads| - 1]);
    }
  }

  /** What holds at every point of every run of the system until it ends: at most one unjoined thread per
      slot, joins only of ended threads, no join while the manager holds the mutex, and a worker whose flag
      is down is past its last use of the mutex. */
  lemma SafetyOfRuns(steps: seq<Step>)
    requires LegalRun(Start, steps)
    ensures var s := Run(Start, steps);
            Over(s) ||
            (&& Wired(s)
             && (forall t, u :: 0 <= t < u < |s.threads| && !s.threads[t].joined && !s.threads[u].joined ==>
                   s.threads[t].slot != s.threads[u].slot)
             && (forall t :: 0 <= t < |s.threads| && s.threads[t].joined ==> s.threads[t].pc.Finished?)
             && (s.mgr.Try? || s.mgr.Join? || s.mgr.Final? ==> !s.mutex.ByManager?)
             && (forall i :: 0 <= i < |s.handles| && !s.active[i] ==>
                   Gone(s.threads[s.handles[i]].pc)
                   && s.mutex != ByThread(s.handles[i])))
  {
    StartInv();
    RunKeepsInv(Start, steps);
  }

  /** How a run can end. It halts with every thread ended and joined, as many joins as creations and the
      mutex free; or it left early because an initial thread could not be created; or it joined a thread
      twice. Apart from the early exit it halts if and only if no restart failed. */
  lemma EndsOfRuns(steps: seq<Step>)
    requires LegalRun(Start, steps)
    ensures var s := Run(Start, steps);
            && (s.mgr.Halted? ==> s.stale == {} && s.mutex.Free? && CountJoined(s.threads) == |s.threads|
                                  && forall t :: 0 <= t < |s.threads| ==> s.threads[t].pc.Finished?)
            && (Over(s) && !s.mgr.Aborted? ==> (s.mgr.Halted? <==> s.stale == {}))
  {
    StartInv();
    RunKeepsInv(Start, steps);
    var s := Run(Start, steps);
    if s.mgr.Halted? {
      HaltedAllJoined(s);
      AllJoined(s.threads);
      assert s.mutex.ByThread? ==> Holding(s.threads[s.mutex.t].pc);
    }
  }

  lemma HaltedAllJoined(s: State)
    requires Sound(s) && s.mgr.Halted?
    ensures s.stale == {} && forall t :: 0 <= t < |s.threads| ==> s.threads[t].joined
  {
    forall i ensures i !in s.stale
    {
      assert Between(s.mgr, 0);
      assert i in s.stale ==> i >= 0 && !Between(s.mgr, i);
    }
    forall t | 0 <= t < |s.threads| ensures s.threads[t].joined
    {
      var i := s.threads[t].slot;
      assert Between(s.mgr, i) && s.threads[s.handles[i]].joined;
    }
  }

  // ---- no deadlock ----

  /** Until the system is over, something can move: whoever holds the mutex can release it, and the thread a
      join waits for can move or has ended. The step is one of the manager, or brings a thread nearer its
      end. */
  lemma NoDeadlock(s: State) returns (step: Step)
    requires Inv(s) && !Over(s)
    ensures Enabled(s, step)
    ensures step.ManagerStep? ==> step.created
    ensures step.ThreadStep? ==> var pc := s.threads[step.t].pc; Rank(NextPc(pc, s.keepRunning, step.fails)) < Rank(pc)
  {
    if s.mutex.ByManager? {
      return ManagerStep(true);
    }
    if s.mutex.ByThread? {
      return ThreadStep(s.mutex.t, false);
    }
    if s.mgr.Join? || (s.mgr.Final? && s.mgr.i < NUM_WORKERS) {
      var t := s.handles[s.mgr.i];
      if !s.threads[t].pc.Finished? {
        return ThreadStep(t, false);
      }
    }
    step := ManagerStep(true);
  }

  /** The join of line 47 waits for at most one step of the failed worker, and nobody can hold that step up. */
  lemma JoinWaitsForOneStep(s: State)
    requires Inv(s) && s.mgr.Join?
    ensures var t := s.handles[s.mgr.i];
            && t < |s.threads|
            && (Enabled(s, ManagerStep(true)) || (Enabled(s, ThreadStep(t, false)) && Wired(s)
                 && Next(s, ThreadStep(t, false)).threads[t].pc.Finished?))
  {}

  // ---- the manager's own steps ----

  function Phase(mgr: ManagerPc): nat
  {
    match mgr
    case Try(i) => 8 * (NUM_WORKERS - Slot(i)) + 7
    case Check(i, _) => 8 * (NUM_WORKERS - Slot(i)) + 6
    case Join(i) => 8 * (NUM_WORKERS - Slot(i)) + 5
    case Lock(i) => 8 * (NUM_WORKERS - Slot(i)) + 4
    case Report(i) => 8 * (NUM_WORKERS - Slot(i)) + 3
    case Mark(i) => 8 * (NUM_WORKERS - Slot(i)) + 2
    case Create(i) => 8 * (NUM_WORKERS - Slot(i)) + 1
    case _ => 48
  }

  function Slot(i: nat): (j: nat) ensures j <= NUM_WORKERS { if i <= NUM_WORKERS then i else NUM_WORKERS }

  /** A bound on the steps the manager still takes, whatever the workers do. */
  function Agenda(s: State): nat
  {
    match s.mgr
    case Init(i) => 20 + 50 * (ROUNDS + 1) + NUM_WORKERS - Slot(i)
    case Stop => 10
    case Final(i) => 1 + NUM_WORKERS - Slot(i)
    case Halted => 0
    case Aborted => 0
    case Broken => 0
    case _ => 20 + 50 * (if s.round < ROUNDS then ROUNDS - s.round else 0) + Phase(s.mgr)
  }

  lemma WorkerKeepsAgenda(s: State, t: nat, fails: bool)
    requires t < |s.threads|
    ensures Agenda(WorkerMove(s, t, fails)) == Agenda(s)
  {
    hide NextPc, Holding, Locking;
  }

  lemma NextSlotAdvances(s: State, i: nat)
    requires i < NUM_WORKERS && s.round < ROUNDS
    ensures Agenda(NextSlot(s, i)) < 20 + 50 * (ROUNDS - s.round) + 8 * (NUM_WORKERS - i) + 1
  {}

  lemma StartAdvances(s: State, created: bool)
    requires Wired(s) && (s.mgr.Init? || s.mgr.Sleep? || s.mgr.Stop? || s.mgr.Final?)
    ensures Agenda(ManagerMove(s, created)) < Agenda(s)
  {}

  lemma SlotAdvances(s: State, created: bool)
    requires Wired(s) && (s.mgr.Try? || s.mgr.Join? || s.mgr.Lock? || s.mgr.Report? || s.mgr.Mark?)
    ensures Agenda(ManagerMove(s, created)) < Agenda(s)
  {}

  lemma CheckAdvances(s: State, created: bool)
    requires Wired(s) && (s.mgr.Check? || s.mgr.Create?)
    ensures Agenda(ManagerMove(s, created)) < Agenda(s)
  {
    hide NextSlot;
    if s.mgr.Create? {
      NextSlotAdvances(if created then Spawned(s, s.mgr.i) else s.(stale := s.stale + {s.mgr.i}), s.mgr.i);
    } else {
      NextSlotAdvances(s, s.mgr.i);
    }
  }

  /** The manager takes a bounded number of steps: each of its steps shortens its agenda, and no worker's
      step lengthens it. */
  lemma ManagerAdvances(s: State, step: Step)
    requires Wired(s) && Enabled(s, step)
    ensures step.ManagerStep? ==> Agenda(Next(s, step)) < Agenda(s)
    ensures step.ThreadStep? ==> Agenda(Next(s, step)) == Agenda(s)
  {
    hide ManagerMove, WorkerMove, Agenda;
    match step
    case ThreadStep(t, fails) => WorkerKeepsAgenda(s, t, fails);
    case ManagerStep(created) =>
      if s.mgr.Check? || s.mgr.Create? {
        CheckAdvances(s, created);
      } else if s.mgr.Init? || s.mgr.Sleep? || s.mgr.Stop? || s.mgr.Final? {
        StartAdvances(s, created);
      } else {
        SlotAdvances(s, created);
      }
  }

  // ---- shutdown ----

  /** An upper bound on the steps a thread still takes once `keep_running` is false. */
  function Rank(pc: WorkerPc): nat
  {
    match pc
    case AtStart => 3
    case InOnline => 2
    case AtLoop => 1
    case Napping(_) => 6
    case AtBeat => 5
    case AtFailLock => 4
    case InFail => 3
    case AtClear => 2
    case AtExit => 1
    case AtDoneLock => 3
    case InDone => 2
    case Finished => 0
  }

  function RankSum(s: State, n: nat): nat
    requires Wired(s) && n <= |s.handles|
  {
    if n == 0 then 0 else RankSum(s, n - 1) + Rank(s.threads[s.handles[n - 1]].pc)
  }

  function FinalRank(mgr: ManagerPc): nat
  {
    if mgr.Final? && mgr.i <= NUM_WORKERS then NUM_WORKERS + 1 - mgr.i else 0
  }

  /** Everything left to do after the flag has been cleared. */
  function Left(s: State): nat
    requires Wired(s) && |s.handles| == NUM_WORKERS
  {
    RankSum(s, NUM_WORKERS) + FinalRank(s.mgr)
  }

  /** Each step of a worker after shutdown brings that worker nearer to its end. */
  lemma WorkerNearsEnd(pc: WorkerPc, fails: bool)
    requires !pc.Finished?
    ensures Rank(NextPc(pc, false, fails)) < Rank(pc)
  {}

  lemma {:induction false} RankSumUpdate(s: State, u: State, k: nat, n: nat)
    requires Wired(s) && Wired(u) && u.handles == s.handles && n <= |s.handles| && k < |s.handles|
    requires forall i :: 0 <= i < |s.handles| && i != k ==> u.threads[s.handles[i]].pc == s.threads[s.handles[i]].pc
    ensures RankSum(u, n) == RankSum(s, n) + (if k < n then Rank(u.threads[s.handles[k]].pc) - Rank(s.threads[s.handles[k]].pc) else 0)
  {
    if n > 0 {
      RankSumUpdate(s, u, k, n - 1);
    }
  }

  lemma {:induction false} RankSumBound(s: State, n: nat)
    requires Wired(s) && n <= |s.handles|
    ensures RankSum(s, n) <= 6 * n
  {
    if n > 0 {
      RankSumBound(s, n - 1);
    }
  }

  /** Shutting down: the flag is cleared and nothing has gone wrong. */
  ghost predicate Closing(s: State) { Sound(s) && (s.mgr.Final? || s.mgr.Halted?) }

  lemma ClosingStep(s: State, step: Step)
    requires Closing(s) && s.stale == {} && Enabled(s, step)
    ensures var u := Next(s, step); Closing(u) && u.stale == {} && Left(u) < Left(s)
  {
    StepKeepsInv(s, step);
    var u := Next(s, step);
    match step
    case ThreadStep(t, fails) =>
      RunningIsCurrent(s, t);
      var k := s.threads[t].slot;
      WorkerNearsEnd(s.threads[t].pc, fails);
      OthersUntouched(s, t, fails, k);
      RankSumUpdate(s, u, k, NUM_WORKERS);
    case ManagerStep(created) =>
      BreaksWhenStale(s, created);
      if s.mgr.i < NUM_WORKERS {
        RankSumUpdate(s, u, s.mgr.i, NUM_WORKERS);
      } else {
        RankSumUpdate(s, u, 0, NUM_WORKERS);
      }
  }

  lemma OthersUntouched(s: State, t: nat, fails: bool, k: nat)
    requires Wired(s) && ThreadsOk(s) && t < |s.threads| && k == s.threads[t].slot && s.handles[k] == t
    ensures var u := WorkerMove(s, t, fails);
            forall i :: 0 <= i < |s.handles| && i != k ==> u.threads[s.handles[i]].pc == s.threads[s.handles[i]].pc
  {}

  lemma {:induction false} ClosingRun(s: State, steps: seq<Step>)
    requires Closing(s) && s.stale == {} && LegalRun(s, steps)
    ensures var u := Run(s, steps); Closing(u) && u.stale == {} && Left(u) + |steps| <= Left(s)
    decreases |steps|
  {
    hide Closing, Next, Enabled, Left;
    if steps != [] {
      ClosingStep(s, steps[0]);
      ClosingRun(Next(s, steps[0]), steps[1..]);
    }
  }

  /** Shutdown takes at most 29 steps however they are interleaved, and while it is not finished some step is
      possible: so every run that goes on as long as it can halts. */
  lemma ShutdownHalts(s: State, steps: seq<Step>)
    requires Closing(s) && s.stale == {} && LegalRun(s, steps)
    ensures |steps| <= 29
    ensures Run(s, steps).mgr.Halted? || exists step :: Enabled(Run(s, steps), step)
  {
    hide Sound, Wired;
    ClosingRun(s, steps);
    LeftBound(s);
    var u := Run(s, steps);
    if !u.mgr.Halted? {
      var step := NoDeadlock(u);
    }
  }

  lemma LeftBound(s: State)
    requires Closing(s)
    ensures Left(s) <= 29
  {
    RankSumBound(s, NUM_WORKERS);
  }
}
