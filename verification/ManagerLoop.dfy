/** What the monitoring loop is for: every worker that has ended is replaced in the next round, and there are
    ten rounds. */
module ManagerLoop {
  import opened Manager

  // ---- restarts ----

  /** Slot `i` no longer runs thread `t`, or its restart failed. */
  predicate Replaced(s: State, i: nat, t: nat)
  {
    i in s.stale || (i < |s.handles| && s.handles[i] != t)
  }

  /** The manager has still to come past slot `i` in this round. */
  predicate Ahead(mgr: ManagerPc, i: nat)
  {
    match mgr
    case Sleep => true
    case Try(j) => j <= i
    case Check(j, _) => j <= i
    case Join(j) => j <= i
    case Lock(j) => j <= i
    case Report(j) => j <= i
    case Mark(j) => j <= i
    case Create(j) => j <= i
    case _ => false
  }

  /** The thread of slot `i` has ended or is about to, and round `r` will replace it. */
  predicate Due(s: State, i: nat, t: nat, r: nat)
  {
    && s.round == r && Ahead(s.mgr, i)
    && i < |s.handles| && s.handles[i] == t && t < |s.threads| && Gone(s.threads[t].pc)
    && i !in s.stale
  }

  lemma WorkerKeepsDue(s: State, i: nat, t: nat, r: nat, w: nat, fails: bool)
    requires Sound(s) && Enabled(s, ThreadStep(w, fails)) && (Due(s, i, t, r) || Replaced(s, i, t))
    ensures var u := WorkerMove(s, w, fails); Due(u, i, t, r) || Replaced(u, i, t)
  {
    hide Sound, Holding, Locking;
  }

  lemma ManagerKeepsReplaced(s: State, i: nat, t: nat, created: bool)
    requires Wired(s) && Enabled(s, ManagerStep(created)) && Replaced(s, i, t) && t < |s.threads|
    ensures Replaced(ManagerMove(s, created), i, t)
  {}

  /** A slot that is looked at although its thread is gone is not passed over. */
  lemma FlagIsDown(s: State, i: nat, t: nat, r: nat)
    requires Sound(s) && Due(s, i, t, r) && !s.mgr.Create?
    ensures !s.active[i]
  {}

  lemma ManagerKeepsDue(s: State, i: nat, t: nat, r: nat, created: bool)
    requires Sound(s) && Enabled(s, ManagerStep(created)) && Due(s, i, t, r)
    ensures var u := ManagerMove(s, created); u.mgr.Broken? || Due(u, i, t, r) || Replaced(u, i, t)
  {
    if !s.mgr.Create? { FlagIsDown(s, i, t, r); }
    hide Sound;
  }

  lemma {:induction false} DueOrReplaced(s: State, steps: seq<Step>, i: nat, t: nat, r: nat)
    requires Sound(s) && LegalRun(s, steps) && !Over(Run(s, steps))
    requires t < |s.threads| && (Due(s, i, t, r) || Replaced(s, i, t))
    ensures Due(Run(s, steps), i, t, r) || Replaced(Run(s, steps), i, t)
    decreases |steps|
  {
    hide Sound, Due, Replaced, ManagerMove, WorkerMove, Enabled;
    if steps != [] {
      var u := Next(s, steps[0]);
      NotOverBefore(s, steps);
      StepKeepsInv(s, steps[0]) by { SoundIsInv(s); }
      match steps[0] {
        case ManagerStep(created) =>
          if Due(s, i, t, r) { ManagerKeepsDue(s, i, t, r, created); } else { ManagerKeepsReplaced(s, i, t, created); }
        case ThreadStep(w, fails) =>
          WorkerKeepsDue(s, i, t, r, w, fails);
      }
      ThreadsStay(s, steps[0]);
      DueOrReplaced(u, steps[1..], i, t, r);
    }
  }

  lemma SoundIsInv(s: State)
    requires Sound(s) && !Over(s)
    ensures Inv(s)
  {}

  lemma ThreadsStay(s: State, step: Step)
    requires Wired(s) && Enabled(s, step)
    ensures |Next(s, step).threads| >= |s.threads|
  {}

  /** Nothing happens after the end. */
  lemma NotOverBefore(s: State, steps: seq<Step>)
    requires steps != [] && LegalRun(s, steps) && !Over(Run(s, steps))
    ensures !Over(s) && !Over(Next(s, steps[0]))
  {
    hide Next, Wired;
    if |steps| > 1 {
      assert steps[1..][0] == steps[1];
    }
  }

  /** The restart law. A worker that has left its loop, or is just leaving it, when the manager goes to sleep
      is no longer the thread of its slot when the next round begins, unless `pthread_create` failed. So the
      manager passes over no slot, whatever the workers do meanwhile. */
  lemma EndedWorkersAreReplaced(s: State, steps: seq<Step>, i: nat)
    requires Sound(s) && s.mgr.Sleep? && LegalRun(s, steps)
    requires !Over(Run(s, steps)) && Run(s, steps).round > s.round
    requires i < 4 && Gone(s.threads[s.handles[i]].pc) && i !in s.stale
    ensures i < |Run(s, steps).handles|
    ensures Run(s, steps).handles[i] != s.handles[i] || i in Run(s, steps).stale
  {
    hide ThreadsOk, JoinsOk, MutexOk, FlagsOk, Run, LegalRun;
    DueOrReplaced(s, steps, i, s.handles[i], s.round);
    RunKeepsInv(s, steps) by { SoundIsInv(s); }
    RoundsCount(s, steps);
  }

  /** The failure of slot `i` has still to be reported in this round. */
  predicate Unreported(mgr: ManagerPc, i: nat)
  {
    Ahead(mgr, i) && mgr != Report(i) && mgr != Mark(i) && mgr != Create(i)
  }

  lemma StaysUnreported(s: State, i: nat, t: nat, r: nat, step: Step)
    requires Sound(s) && Enabled(s, step) && Due(s, i, t, r) && Unreported(s.mgr, i)
    ensures var u := Next(s, step);
            u.mgr.Broken? || u.mgr == Report(i) || (Due(u, i, t, r) && Unreported(u.mgr, i))
  {
    if !s.mgr.Create? { FlagIsDown(s, i, t, r); }
    hide ThreadsOk, JoinsOk, MutexOk, FlagsOk, Holding, Locking;
  }

  /** No worker is replaced in silence: before it is, the manager reports the failure of its slot, and it does
      so holding the mutex. */
  lemma {:induction false} ReportedBeforeReplaced(s: State, steps: seq<Step>, i: nat, t: nat, r: nat) returns (k: nat)
    requires Sound(s) && LegalRun(s, steps) && !Over(Run(s, steps))
    requires Due(s, i, t, r) && Unreported(s.mgr, i) && Replaced(Run(s, steps), i, t)
    ensures k <= |steps| && LegalRun(s, steps[..k])
    ensures Run(s, steps[..k]).mgr == Report(i) && Run(s, steps[..k]).mutex.ByManager?
    decreases |steps|
  {
    hide ThreadsOk, JoinsOk, FlagsOk, ManagerMove, WorkerMove, Enabled, Unreported;
    NotYet(s, i, t, r);
    var u := Next(s, steps[0]);
    NotOverBefore(s, steps);
    StepKeepsInv(s, steps[0]) by { SoundIsInv(s); }
    StaysUnreported(s, i, t, r, steps[0]);
    if u.mgr == Report(i) {
      k := 1;
      assert steps[..1][1..] == [] && steps[..1][0] == steps[0];
      assert LegalRun(u, []);
    } else {
      k := ReportedBeforeReplaced(u, steps[1..], i, t, r);
      k := k + 1;
      assert steps[..k][1..] == steps[1..][..k - 1] && steps[..k][0] == steps[0];
    }
  }

  lemma NotYet(s: State, i: nat, t: nat, r: nat)
    requires Due(s, i, t, r)
    ensures !Replaced(s, i, t)
  {}

  // ---- rounds ----

  /** `iterations` counts to ten before the shutdown begins, and not further. */
  predicate RoundOk(s: State)
  {
    match s.mgr
    case Init(_) => s.round == 0
    case Stop => s.round == 10
    case Final(_) => s.round == 10
    case Halted => s.round == 10
    case Aborted => s.round == 0
    case Broken => s.round <= 10
    case _ => s.round < 10
  }

  lemma StepKeepsRound(s: State, step: Step)
    requires Wired(s) && Enabled(s, step) && RoundOk(s)
    ensures RoundOk(Next(s, step)) && s.round <= Next(s, step).round
    ensures Next(s, step).round > s.round ==> Next(s, step).mgr.Sleep? || Next(s, step).mgr.Stop?
    ensures !Next(s, step).mgr.Init? || s.mgr.Init?
  {}

  lemma {:induction false} RoundsCount(s: State, steps: seq<Step>)
    requires Wired(s) && LegalRun(s, steps) && !s.mgr.Init?
    ensures s.round <= Run(s, steps).round && !Run(s, steps).mgr.Init?
    decreases |steps|
  {
    hide Next, Enabled, Wired;
    if steps != [] {
      StepCounts(s, steps[0]);
      if |steps| > 1 { assert steps[1..][0] == steps[1]; RoundsCount(Next(s, steps[0]), steps[1..]); }
    }
  }

  lemma StepCounts(s: State, step: Step)
    requires Wired(s) && Enabled(s, step) && !s.mgr.Init?
    ensures s.round <= Next(s, step).round && !Next(s, step).mgr.Init?
  {}

  lemma {:induction false} RunKeepsRound(s: State, steps: seq<Step>)
    requires RoundOk(s) && LegalRun(s, steps)
    ensures RoundOk(Run(s, steps))
    decreases |steps|
  {
    hide Next, Enabled, Wired, RoundOk;
    if steps != [] {
      StepKeepsRound(s, steps[0]);
      RunKeepsRound(Next(s, steps[0]), steps[1..]);
    }
  }

  /** Over any run from the start: while the manager monitors fewer than ten rounds are complete, and it
      clears `keep_running` and joins the four workers only after exactly ten. */
  lemma TenRounds(steps: seq<Step>)
    requires LegalRun(Start, steps)
    ensures var s := Run(Start, steps);
            && (s.mgr.Stop? || s.mgr.Final? || s.mgr.Halted? ==> s.round == 10 && |s.handles| == 4)
            && (Monitoring(s.mgr) ==> s.round < 10 && |s.handles| == 4)
            && (!Over(s) ==> (s.keepRunning <==> !s.mgr.Final?))
  {
    hide Run, LegalRun;
    StartInv();
    RunKeepsInv(Start, steps);
    RunKeepsRound(Start, steps);
  }

  // ---- a worker's turns ----

  /** Where a worker is after `n` steps of its own, the flag and its luck staying the same. */
  function Later(n: nat, pc: WorkerPc, keepRunning: bool, fails: bool): WorkerPc
  {
    if n == 0 then pc else NextPc(Later(n - 1, pc, keepRunning, fails), keepRunning, fails)
  }

  lemma {:induction false} Naps(n: nat, fails: bool)
    requires n <= 10
    ensures Later(n + 1, AtLoop, true, fails) == Napping(n)
  {
    if n == 0 {
      assert Later(0, AtLoop, true, fails) == AtLoop;
    } else {
      Naps(n - 1, fails);
    }
  }

  /** One turn of a worker: ten naps and a heartbeat; then it reports success and begins again, or reports
      its failure, lowers its flag and ends. Started, it goes online before its first turn. */
  lemma WorkerTurn(fails: bool)
    ensures Later(2, AtStart, true, fails) == AtLoop
    ensures forall n :: 0 <= n <= 10 ==> Later(n + 1, AtLoop, true, fails) == Napping(n)
    ensures Later(12, AtLoop, true, fails) == AtBeat
    ensures fails ==> Later(14, AtLoop, true, true) == InFail && Later(15, AtLoop, true, true) == AtClear
                      && Later(17, AtLoop, true, true) == Finished
    ensures !fails ==> Later(14, AtLoop, true, false) == InDone && Later(15, AtLoop, true, false) == AtLoop
  {
    forall n | 0 <= n <= 10 ensures Later(n + 1, AtLoop, true, fails) == Napping(n) { Naps(n, fails); }
    assert Later(0, AtStart, true, fails) == AtStart && Later(1, AtStart, true, fails) == InOnline;
    assert Later(11, AtLoop, true, fails) == Napping(10) && Later(12, AtLoop, true, fails) == AtBeat;
    assert Later(13, AtLoop, true, fails) == if fails then AtFailLock else AtDoneLock;
    assert Later(14, AtLoop, true, fails) == if fails then InFail else InDone;
    assert Later(15, AtLoop, true, fails) == if fails then AtClear else AtLoop;
    assert fails ==> Later(16, AtLoop, true, fails) == AtExit && Later(17, AtLoop, true, fails) == Finished;
  }
}
