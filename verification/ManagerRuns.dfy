/** Runs of the manager and its workers to each of their ends. */
module ManagerRuns {
  import opened Manager

  /** One more step at the end of a run. */
  lemma {:induction false} Extend(start: State, steps: seq<Step>, step: Step)
    requires LegalRun(start, steps) && Wired(Run(start, steps)) && Enabled(Run(start, steps), step)
    ensures LegalRun(start, steps + [step]) && Run(start, steps + [step]) == Next(Run(start, steps), step)
    decreases |steps|
  {
    hide Wired, Enabled, Next;
    if steps == [] {
      assert LegalRun(Next(start, step), []);
      assert [step][1..] == [];
    } else {
      assert (steps + [step])[0] == steps[0] && (steps + [step])[1..] == steps[1..] + [step];
      Extend(Next(start, steps[0]), steps[1..], step);
    }
  }

  lemma NoSteps(s: State)
    ensures LegalRun(s, []) && Run(s, []) == s
  {}

  // ---- every run can be brought to an end ----

  /** What the current threads still have to do at most, apart from their turns in the loop. */
  function Work(s: State): nat { if Wired(s) then RankSum(s, |s.handles|) else 0 }

  lemma ThreadStepWorks(s: State, t: nat, fails: bool)
    requires Sound(s) && Enabled(s, ThreadStep(t, fails))
    requires Rank(NextPc(s.threads[t].pc, s.keepRunning, fails)) < Rank(s.threads[t].pc)
    ensures Work(WorkerMove(s, t, fails)) < Work(s) && Agenda(WorkerMove(s, t, fails)) == Agenda(s)
  {
    var u, k := WorkerMove(s, t, fails), s.threads[t].slot;
    WorkerKeepsInv(s, t, fails);
    RunningIsCurrent(s, t);
    OthersUntouched(s, t, fails, k);
    RankSumUpdate(s, u, k, |s.handles|);
    WorkerKeepsAgenda(s, t, fails);
  }

  lemma CreatedKeeps(s: State)
    requires Wired(s) && !Over(s)
    ensures var u := ManagerMove(s, true); u.stale == s.stale && !u.mgr.Aborted?
  {}

  /** However a run has gone so far, short of the early exit, it can go on to an end without another failed
      creation. */
  lemma {:induction false} CanEnd(start: State, before: seq<Step>) returns (steps: seq<Step>)
    requires Inv(start) && LegalRun(start, before) && !Run(start, before).mgr.Aborted?
    ensures before <= steps && LegalRun(start, steps)
    ensures var s, t := Run(start, before), Run(start, steps);
            Over(t) && !t.mgr.Aborted? && t.stale == s.stale
    decreases Agenda(Run(start, before)), Work(Run(start, before))
  {
    hide LegalRun, Run, Agenda, Work, Wired, Next, Enabled, ThreadsOk, JoinsOk, MutexOk, FlagsOk, NextPc, Rank;
    var s := Run(start, before);
    RunKeepsInv(start, before);
    if Over(s) {
      return before;
    }
    var step := NoDeadlock(s);
    Extend(start, before, step);
    NextIs(s, step);
    if step.ManagerStep? {
      CreatedKeeps(s);
      ManagerAdvances(s, step);
    } else {
      ThreadStepWorks(s, step.t, step.fails);
    }
    steps := CanEnd(start, before + [step]);
  }

  lemma NextIs(s: State, step: Step)
    requires Wired(s) && Enabled(s, step)
    ensures step.ManagerStep? ==> Next(s, step) == ManagerMove(s, step.created)
    ensures step.ThreadStep? ==> step.t < |s.threads| && Next(s, step) == WorkerMove(s, step.t, step.fails)
    ensures step.ThreadStep? ==> Next(s, step).stale == s.stale && Next(s, step).mgr == s.mgr
  {}

  /** From the start the system can halt. */
  lemma HaltIsReachable() returns (steps: seq<Step>)
    ensures LegalRun(Start, steps) && Run(Start, steps).mgr.Halted?
  {
    StartInv();
    NoSteps(Start);
    steps := CanEnd(Start, []);
    EndsOfRuns(steps);
  }

  // ---- a run that joins a thread twice ----

  /** All four threads created; the first one at `pc`, its flag up or down, joined or not. */
  function Underway(mgr: ManagerPc, pc: WorkerPc, joined: bool, up: bool, mutex: Owner): State
  {
    State(mgr, 0, [0, 1, 2, 3], [up, true, true, true],
          [Thread(0, pc, joined), Thread(1, AtStart, false), Thread(2, AtStart, false), Thread(3, AtStart, false)],
          true, mutex, {})
  }

  ghost predicate Reaches(steps: seq<Step>, s: State) { LegalRun(Start, steps) && Run(Start, steps) == s }

  lemma Go(before: seq<Step>, s: State, step: Step, t: State) returns (steps: seq<Step>)
    requires Reaches(before, s) && Wired(s) && Enabled(s, step) && Next(s, step) == t
    ensures Reaches(steps, t)
  {
    Extend(Start, before, step);
    steps := before + [step];
  }

  function Begun(i: nat): State
    requires i < NUM_WORKERS
  {
    State(Init(i), 0, [0, 1, 2][..i], seq(NUM_WORKERS, k => k < i),
          [Thread(0, AtStart, false), Thread(1, AtStart, false), Thread(2, AtStart, false)][..i], true, Free, {})
  }

  lemma AllCreated() returns (steps: seq<Step>)
    ensures Reaches(steps, Underway(Sleep, AtStart, false, true, Free))
  {
    hide Run, LegalRun;
    NoSteps(Start);
    var create := ManagerStep(true);
    steps := Go([], Start, create, Begun(1));
    steps := Go(steps, Begun(1), create, Begun(2));
    steps := Go(steps, Begun(2), create, Begun(3));
    steps := Go(steps, Begun(3), create, Underway(Sleep, AtStart, false, true, Free));
  }

  lemma FirstMoves(before: seq<Step>, pc: WorkerPc, up: bool, mutex: Owner, fails: bool) returns (steps: seq<Step>)
    requires Reaches(before, Underway(Sleep, pc, false, up, mutex))
    requires !pc.Finished? && (Locking(pc) ==> mutex.Free?)
    ensures Reaches(steps, Underway(Sleep, NextPc(pc, true, fails), false, up && !pc.AtClear?,
                                    if Locking(pc) then ByThread(0) else if Holding(pc) then Free else mutex))
  {
    hide Run, LegalRun, NextPc;
    var s := Underway(Sleep, pc, false, up, mutex);
    steps := Go(before, s, ThreadStep(0, fails), WorkerMove(s, 0, fails));
    assert WorkerMove(s, 0, fails)
        == Underway(Sleep, NextPc(pc, true, fails), false, up && !pc.AtClear?,
                    if Locking(pc) then ByThread(0) else if Holding(pc) then Free else mutex);
  }

  lemma {:induction false} NapsOver(before: seq<Step>, i: nat) returns (steps: seq<Step>)
    requires i <= 10 && Reaches(before, Underway(Sleep, Napping(i), false, true, Free))
    ensures Reaches(steps, Underway(Sleep, AtBeat, false, true, Free))
    decreases 10 - i
  {
    hide Run, LegalRun;
    steps := FirstMoves(before, Napping(i), true, Free, false);
    if i < 10 {
      steps := NapsOver(steps, i + 1);
    }
  }

  lemma FirstFails() returns (steps: seq<Step>)
    ensures Reaches(steps, Underway(Sleep, Finished, false, false, Free))
  {
    hide Run, LegalRun;
    steps := AllCreated();
    steps := FirstMoves(steps, AtStart, true, Free, false);
    steps := FirstMoves(steps, InOnline, true, ByThread(0), false);
    steps := FirstMoves(steps, AtLoop, true, Free, false);
    steps := NapsOver(steps, 0);
    steps := FirstMoves(steps, AtBeat, true, Free, true);
    steps := FirstMoves(steps, AtFailLock, true, Free, true);
    steps := FirstMoves(steps, InFail, true, ByThread(0), true);
    steps := FirstMoves(steps, AtClear, true, Free, true);
    steps := FirstMoves(steps, AtExit, false, Free, true);
  }

  /** The manager finds it ended and joins it. */
  lemma FirstJoined() returns (steps: seq<Step>)
    ensures Reaches(steps, Underway(Lock(0), Finished, true, false, Free))
  {
    hide Run, LegalRun;
    steps := FirstFails();
    var s, go := Underway(Sleep, Finished, false, false, Free), ManagerStep(true);
    steps := Go(steps, s, go, s.(mgr := Try(0)));
    steps := Go(steps, s.(mgr := Try(0)), go, Underway(Check(0, true), Finished, true, false, Free));
    steps := Go(steps, Underway(Check(0, true), Finished, true, false, Free), go,
                Underway(Lock(0), Finished, true, false, Free));
  }

  /** Its restart fails. */
  lemma RestartFails() returns (steps: seq<Step>)
    ensures Reaches(steps, Underway(Try(1), Finished, true, true, Free).(stale := {0}))
  {
    hide Run, LegalRun;
    steps := FirstJoined();
    var s, go := Underway(Lock(0), Finished, true, false, Free), ManagerStep(true);
    steps := Go(steps, s, go, s.(mgr := Report(0), mutex := ByManager));
    steps := Go(steps, s.(mgr := Report(0), mutex := ByManager), go, s.(mgr := Mark(0)));
    var up := Underway(Create(0), Finished, true, true, Free);
    steps := Go(steps, s.(mgr := Mark(0)), go, up);
    steps := Go(steps, up, ManagerStep(false), up.(mgr := Try(1), stale := {0}));
  }

  /** From the start the system can join a thread twice: after one failed restart. */
  lemma BreakIsReachable() returns (steps: seq<Step>)
    ensures LegalRun(Start, steps) && Run(Start, steps).mgr.Broken?
  {
    hide Run, LegalRun;
    StartInv();
    var before := RestartFails();
    steps := CanEnd(Start, before);
    EndsOfRuns(steps);
  }
}
