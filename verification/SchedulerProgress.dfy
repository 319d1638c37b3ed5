/** When the scheduler's throttle ends, and that `schedule()` promises are settled within bounded numbers of steps. */
module SchedulerProgress {
  import opened Wrappers
  import opened ProcessScheduler

  // ---------- the throttle ----------

  /** When the throttle ends: its length after the last run restarted it. */
  function ThrottleEnd(throttleMs: nat, runs: seq<Run>): nat {
    if runs == [] then 0 else runs[|runs| - 1].throttledFrom + throttleMs
  }

  /** The time is the end of the throttle after some restart. */
  ghost predicate AfterSomeRestart(throttleMs: nat, runs: seq<Run>, until: nat) {
    until == 0 || exists r :: 0 <= r < |runs| && until == runs[r].throttledFrom + throttleMs
  }

  /** The throttle ends when it should, and a task that waits for it waits for the end after some restart. */
  ghost predicate ThrottleOk(throttleMs: nat, s: State) {
    && s.throttleUntil == ThrottleEnd(throttleMs, s.runs)
    && forall t :: 0 <= t < |s.tasks| && s.tasks[t].AwaitThrottle? ==>
         AfterSomeRestart(throttleMs, s.runs, s.tasks[t].until)
  }

  lemma RestartsAreKept(throttleMs: nat, s: State, step: Step)
    requires s.throttleUntil == ThrottleEnd(throttleMs, s.runs) && Enabled(s, step)
    ensures var s' := Stepped(throttleMs, s, step);
      && s'.throttleUntil == ThrottleEnd(throttleMs, s'.runs)
      && |s.runs| <= |s'.runs| && forall r :: 0 <= r < |s.runs| ==> s'.runs[r].throttledFrom == s.runs[r].throttledFrom
  {
  }

  lemma StillAfterRestart(throttleMs: nat, runs: seq<Run>, runs': seq<Run>, until: nat)
    requires AfterSomeRestart(throttleMs, runs, until) && |runs| <= |runs'|
    requires forall r :: 0 <= r < |runs| ==> runs'[r].throttledFrom == runs[r].throttledFrom
    ensures AfterSomeRestart(throttleMs, runs', until)
  {
  }

  lemma StepKeepsThrottleEnd(throttleMs: nat, s: State, step: Step)
    requires ThrottleOk(throttleMs, s) && Enabled(s, step)
    ensures ThrottleOk(throttleMs, Stepped(throttleMs, s, step))
  {
    RestartsAreKept(throttleMs, s, step);
    assert AfterSomeRestart(throttleMs, s.runs, s.throttleUntil);
    hide AfterSomeRestart;
    var s' := Stepped(throttleMs, s, step);
    forall t | 0 <= t < |s'.tasks| && s'.tasks[t].AwaitThrottle?
      ensures AfterSomeRestart(throttleMs, s'.runs, s'.tasks[t].until)
    {
      StillAfterRestart(throttleMs, s.runs, s'.runs, s'.tasks[t].until);
    }
  }

  /** In every run, disciplined or not, the throttle lasts exactly its length from the last restart on, and no task
    * waits for anything later than the throttle time after a restart. */
  lemma {:induction false} ThrottleEndsOnTime(throttleMs: nat, steps: seq<Step>)
    ensures ThrottleOk(throttleMs, After(throttleMs, steps))
    decreases |steps|
  {
    hide Stepped, Enabled, ThrottleOk;
    if steps == [] {
      assert ThrottleOk(throttleMs, INITIAL) by { NothingThrottled(throttleMs); }
    } else {
      ThrottleEndsOnTime(throttleMs, steps[..|steps| - 1]);
      if Enabled(After(throttleMs, steps[..|steps| - 1]), steps[|steps| - 1]) {
        StepKeepsThrottleEnd(throttleMs, After(throttleMs, steps[..|steps| - 1]), steps[|steps| - 1]);
      }
    }
  }

  lemma NothingThrottled(throttleMs: nat)
    ensures ThrottleOk(throttleMs, INITIAL)
  {
  }

  // ---------- settled promises ----------

  /** A promise that a run has settled was settled after the run's process had been called and had ended. */
  ghost predicate SettledAfterwards(s: State) {
    && (forall r :: 0 <= r < |s.runs| && s.runs[r].status.Active? ==> s.runs[r].startedAt.Some?)
    && forall p :: p in s.settled && s.settled[p].SettledBy? ==>
         var r := s.settled[p].run; r < |s.runs| && s.runs[r].status.Done? && s.runs[r].startedAt.Some?
  }

  lemma StepSettlesAfterwards(throttleMs: nat, s: State, step: Step)
    requires SettledAfterwards(s) && Enabled(s, step)
    ensures SettledAfterwards(Stepped(throttleMs, s, step))
  {
  }

  /** In every run, disciplined or not. */
  lemma {:induction false} SettledAfterRunning(throttleMs: nat, steps: seq<Step>)
    ensures SettledAfterwards(After(throttleMs, steps))
    decreases |steps|
  {
    hide Stepped, Enabled, SettledAfterwards;
    if steps == [] {
      assert SettledAfterwards(INITIAL) by { NothingSettled(); }
    } else {
      SettledAfterRunning(throttleMs, steps[..|steps| - 1]);
      if Enabled(After(throttleMs, steps[..|steps| - 1]), steps[|steps| - 1]) {
        StepSettlesAfterwards(throttleMs, After(throttleMs, steps[..|steps| - 1]), steps[|steps| - 1]);
      }
    }
  }

  lemma NothingSettled()
    ensures SettledAfterwards(INITIAL)
  {
  }

  // ---------- how far a promise is from being settled ----------

  /** The steps until the first `n` runs have finished: a waiting run is started and ends, an active one ends. */
  function Unfinished(runs: seq<Run>, n: nat): nat
    requires n <= |runs|
  {
    if n == 0 then 0
    else Unfinished(runs, n - 1) + match runs[n - 1].status case Waiting => 2 case Active => 1 case Done => 0
  }

  /** The steps until all tasks have gone through their waits. */
  function Waits(tasks: seq<Task>): nat {
    if tasks == [] then 0
    else
      Waits(tasks[..|tasks| - 1])
      + match tasks[|tasks| - 1]
        case AwaitRun(_) => 3
        case AwaitThrottle(_) => 2
        case AwaitIdle => 1
        case Exited => 0
  }

  /** The run that has the promise is among the first `n`; the index of the first one that has. */
  function RunWith(runs: seq<Run>, p: Promise): (r: nat)
    ensures r <= |runs|
    ensures r < |runs| ==> runs[r].promise == Some(p)
    ensures forall i :: 0 <= i < r ==> runs[i].promise != Some(p)
  {
    if runs == [] then 0
    else
      var r := RunWith(runs[..|runs| - 1], p);
      if r < |runs| - 1 then r else if runs[|runs| - 1].promise == Some(p) then |runs| - 1 else |runs|
  }

  /** How many steps of processes, and of tasks while the promise is scheduled, can happen before it is settled. */
  function Distance(s: State, p: Promise): nat {
    if s.scheduled == Some(p) then Unfinished(s.runs, |s.runs|) + Waits(s.tasks) + 1
    else
      var r := RunWith(s.runs, p);
      if r < |s.runs| then Unfinished(s.runs, r + 1) else 0
  }

  /** The step is one of a process, or of a task while the promise is scheduled. */
  predicate Counts(s: State, p: Promise, step: Step) {
    || step.ImmediateStart? || step.ProcessEnds?
    || (s.scheduled == Some(p) && (step.RunAwaited? || step.ThrottleAwaited? || step.IdleAwaited?))
  }

  lemma {:induction false} UnfinishedChange(runs: seq<Run>, runs': seq<Run>, n: nat, r: nat)
    requires n <= |runs| && |runs'| == |runs| && r < |runs|
    requires forall i :: 0 <= i < |runs| && i != r ==> runs'[i].status == runs[i].status
    requires (runs[r].status.Waiting? && !runs'[r].status.Waiting?) || (runs[r].status.Active? && runs'[r].status.Done?)
    ensures Unfinished(runs', n) <= Unfinished(runs, n)
    ensures r < n ==> Unfinished(runs', n) < Unfinished(runs, n)
  {
    if n > 0 { UnfinishedChange(runs, runs', n - 1, r); }
  }

  lemma {:induction false} UnfinishedSame(runs: seq<Run>, runs': seq<Run>, n: nat)
    requires n <= |runs| && n <= |runs'| && forall i :: 0 <= i < n ==> runs'[i].status == runs[i].status
    ensures Unfinished(runs', n) == Unfinished(runs, n)
  {
    if n > 0 { UnfinishedSame(runs, runs', n - 1); }
  }

  lemma {:induction false} WaitsChange(tasks: seq<Task>, t: nat, task: Task)
    requires t < |tasks|
    requires (tasks[t].AwaitRun? && task.AwaitThrottle?)
      || (tasks[t].AwaitThrottle? && (task.AwaitIdle? || task.Exited?))
             || (tasks[t].AwaitIdle? && task.Exited?)
    ensures Waits(tasks[t := task]) < Waits(tasks)
    decreases |tasks|
  {
    var tasks', n := tasks[t := task], |tasks| - 1;
    if t < n {
      assert tasks'[..n] == tasks[..n][t := task];
      WaitsChange(tasks[..n], t, task);
    } else {
      assert tasks'[..n] == tasks[..n];
    }
  }

  lemma {:induction false} WaitsPositive(tasks: seq<Task>, t: nat)
    requires t < |tasks| && !tasks[t].Exited?
    ensures Waits(tasks) > 0
    decreases |tasks|
  {
    if t < |tasks| - 1 { WaitsPositive(tasks[..|tasks| - 1], t); }
  }

  // ---------- every counted step brings a promise closer ----------

  /** While the promise is scheduled. */
  lemma ScheduledCloser(throttleMs: nat, s: State, step: Step, p: Promise)
    requires TasksOk(s) && PromisesOk(s) && Enabled(s, step) && s.scheduled == Some(p) && p < s.promises
    requires p !in Stepped(throttleMs, s, step).settled
    ensures Distance(Stepped(throttleMs, s, step), p) <= Distance(s, p)
    ensures Counts(s, p, step) ==> Distance(Stepped(throttleMs, s, step), p) < Distance(s, p)
  {
    var s' := Stepped(throttleMs, s, step);
    match step
    case RunNow =>
      TakenOverCloser(s, s', p, 2);
    case RunAwaited(t) => WaitsChange(s.tasks, t, s'.tasks[t]);
    case ThrottleAwaited(t) => WaitsChange(s.tasks, t, s'.tasks[t]);
    case IdleAwaited(t) =>
      TakenOverCloser(s, s', p, 1);
    case ImmediateStart(r) => UnfinishedChange(s.runs, s'.runs, |s.runs|, r);
    case ProcessEnds(r) => UnfinishedChange(s.runs, s'.runs, |s.runs|, r);
    case _ =>
  }

  /** A run has taken the promise over, and needs at most this many steps itself. */
  lemma TakenOverCloser(s: State, s': State, p: Promise, own: nat)
    requires TasksOk(s) && PromisesOk(s) && s.scheduled == Some(p) && s'.scheduled == None
    requires |s'.runs| == |s.runs| + 1 && s'.runs[..|s.runs|] == s.runs && s'.runs[|s.runs|].promise == Some(p)
    requires own == match s'.runs[|s.runs|].status case Waiting => 2 case Active => 1 case Done => 0
    ensures Distance(s', p) + 2 <= Distance(s, p) + own
  {
    var n := |s.runs|;
    assert forall i :: 0 <= i < n ==> s'.runs[i] == s.runs[i];
    assert RunWith(s'.runs, p) == n;
    UnfinishedSame(s.runs, s'.runs, n);
    var t: nat :| TaskWaits(s, t);
    WaitsPositive(s.tasks, t);
  }

  /** A promise that is not scheduled is with a run that has not finished. */
  lemma WithUnfinishedRun(s: State, p: Promise)
    requires ResolverOk(s) && PromisesOk(s) && Held(s, p) && s.scheduled != Some(p)
    ensures RunWith(s.runs, p) < |s.runs| && !s.runs[RunWith(s.runs, p)].status.Done?
  {
    var r :| 0 <= r < |s.runs| && !s.runs[r].status.Done? && s.runs[r].promise == Some(p);
    var first := RunWith(s.runs, p);
    assert first <= r;
  }

  /** While a run is unfinished, no later one starts or ends. */
  lemma NoLaterRun(s: State, step: Step, r: nat, i: nat)
    requires OneAtATime(s.runs) && Enabled(s, step) && (step == ImmediateStart(i) || step == ProcessEnds(i))
    requires r < |s.runs| && !s.runs[r].status.Done?
    ensures i <= r < |s.runs|
  {
  }

  lemma SameRunWith(runs: seq<Run>, runs': seq<Run>, p: Promise)
    requires |runs| <= |runs'| && RunWith(runs, p) < |runs|
    requires forall i :: 0 <= i < |runs| ==> runs'[i].promise == runs[i].promise
    ensures RunWith(runs', p) == RunWith(runs, p)
  {
  }

  /** What a step does to the runs there are: at most one is started or ends. */
  lemma RunsGoOn(throttleMs: nat, s: State, step: Step)
    requires Enabled(s, step)
    ensures var runs, runs' := s.runs, Stepped(throttleMs, s, step).runs;
      && |runs| <= |runs'| && (forall i :: 0 <= i < |runs| ==> runs'[i].promise == runs[i].promise)
      && if step.ImmediateStart? || step.ProcessEnds? then
           var r := step.run;
           && r < |runs| == |runs'|
           && (forall i :: 0 <= i < |runs| && i != r ==> runs'[i].status == runs[i].status)
           && ((runs[r].status.Waiting? && !runs'[r].status.Waiting?)
               || (runs[r].status.Active? && runs'[r].status.Done?))
         else forall i :: 0 <= i < |runs| ==> runs'[i].status == runs[i].status
  {
  }

  lemma NotScheduledAgain(throttleMs: nat, s: State, step: Step, p: Promise)
    requires Enabled(s, step) && s.scheduled != Some(p) && p < s.promises
    ensures Stepped(throttleMs, s, step).scheduled != Some(p)
  {
  }

  /** While a run has the promise. */
  lemma WithRunCloser(throttleMs: nat, s: State, step: Step, p: Promise)
    requires OneAtATime(s.runs) && PromisesOk(s) && Enabled(s, step) && s.scheduled != Some(p) && p < s.promises
    requires RunWith(s.runs, p) < |s.runs| && !s.runs[RunWith(s.runs, p)].status.Done?
    ensures Distance(Stepped(throttleMs, s, step), p) <= Distance(s, p)
    ensures Counts(s, p, step) ==> Distance(Stepped(throttleMs, s, step), p) < Distance(s, p)
  {
    hide Stepped, Unfinished, RunWith, PromisesOk, OneAtATime, Enabled;
    RunsGoOn(throttleMs, s, step);
    NotScheduledAgain(throttleMs, s, step, p);
    var s', r := Stepped(throttleMs, s, step), RunWith(s.runs, p);
    SameRunWith(s.runs, s'.runs, p);
    if step.ImmediateStart? || step.ProcessEnds? {
      NoLaterRun(s, step, r, step.run);
      UnfinishedChange(s.runs, s'.runs, r + 1, step.run);
    } else {
      UnfinishedSame(s.runs, s'.runs, r + 1);
    }
  }

  lemma StepBringsCloser(throttleMs: nat, s: State, step: Step, p: Promise)
    requires Inv(throttleMs, s) && Enabled(s, step) && p < s.promises
    requires p !in s.settled && p !in Stepped(throttleMs, s, step).settled
    ensures Distance(Stepped(throttleMs, s, step), p) <= Distance(s, p)
    ensures Counts(s, p, step) ==> Distance(Stepped(throttleMs, s, step), p) < Distance(s, p)
  {
    assert Held(s, p);
    hide Stepped, Distance, Counts, Enabled, TasksOk, PromisesOk, ResolverOk, OneAtATime, Held;
    if s.scheduled == Some(p) {
      ScheduledCloser(throttleMs, s, step, p);
    } else {
      WithUnfinishedRun(s, p);
      WithRunCloser(throttleMs, s, step, p);
    }
  }

  /** The counted steps of a run from its `m`-th step on. */
  ghost function Counted(throttleMs: nat, steps: seq<Step>, m: nat, p: Promise): nat
    requires m <= |steps|
    decreases |steps|
  {
    if m == |steps| then 0
    else
      var before, step := steps[..|steps| - 1], steps[|steps| - 1];
      var s := After(throttleMs, before);
      Counted(throttleMs, before, m, p) + if Enabled(s, step) && Counts(s, p, step) then 1 else 0
  }

  lemma {:induction false} SettledOrCloser(throttleMs: nat, steps: seq<Step>, m: nat, p: Promise)
    requires DisciplinedRun(throttleMs, steps) && m <= |steps| && p < After(throttleMs, steps[..m]).promises
    ensures var s, t := After(throttleMs, steps[..m]), After(throttleMs, steps);
      && p < t.promises
      && (p in t.settled || Counted(throttleMs, steps, m, p) + Distance(t, p) <= Distance(s, p))
    decreases |steps|
  {
    hide Stepped, Distance, Counts, Enabled, Inv, Disciplined;
    if m == |steps| {
      assert steps[..m] == steps;
    } else {
      var before, step := steps[..|steps| - 1], steps[|steps| - 1];
      assert before[..m] == steps[..m];
      SettledOrCloser(throttleMs, before, m, p);
      var s := After(throttleMs, before);
      DisciplinedInv(throttleMs, before);
      if Enabled(s, step) {
        NothingUnsettles(throttleMs, s, step);
        if p !in Stepped(throttleMs, s, step).settled {
          StepBringsCloser(throttleMs, s, step, p);
        }
      }
    }
  }

  lemma NothingUnsettles(throttleMs: nat, s: State, step: Step)
    requires Enabled(s, step)
    ensures s.promises <= Stepped(throttleMs, s, step).promises
    ensures forall p :: p in s.settled ==> p in Stepped(throttleMs, s, step).settled
  {
  }

  /** Bounded response: in every disciplined run, a `schedule()` promise is settled as soon as processes, and tasks
    * while it is scheduled, have made as many steps as its distance was, whatever is called meanwhile. */
  lemma PromisesAreSettled(throttleMs: nat, steps: seq<Step>, m: nat, p: Promise)
    requires DisciplinedRun(throttleMs, steps) && m <= |steps| && p < After(throttleMs, steps[..m]).promises
    requires Counted(throttleMs, steps, m, p) >= Distance(After(throttleMs, steps[..m]), p)
    ensures p in After(throttleMs, steps).settled
  {
    SettledOrCloser(throttleMs, steps, m, p);
    DisciplinedInv(throttleMs, steps);
    hide After, DisciplinedRun, Counted;
    var t := After(throttleMs, steps);
    if p !in t.settled {
      DistancePositive(t, p);
    }
  }

  lemma DistancePositive(s: State, p: Promise)
    requires ResolverOk(s) && PromisesOk(s) && Held(s, p)
    ensures Distance(s, p) > 0
  {
    if s.scheduled != Some(p) { WithUnfinishedRun(s, p); }
  }

  // ---------- such a step is always possible ----------

  /** The state when the throttle has passed. */
  function Later(s: State): State {
    if s.now < s.throttleUntil then s.(now := s.throttleUntil) else s
  }

  lemma {:induction false} FirstUnfinished(runs: seq<Run>, n: nat) returns (r: nat)
    requires n < |runs| && !runs[n].status.Done?
    ensures r <= n && !runs[r].status.Done? && forall i :: 0 <= i < r ==> runs[i].status.Done?
  {
    if i :| 0 <= i < n && !runs[i].status.Done? {
      r := FirstUnfinished(runs, i);
    } else {
      r := n;
    }
  }

  /** The first unfinished run can start or end. */
  lemma RunCanGoOn(s: State, n: nat) returns (step: Step)
    requires n < |s.runs| && !s.runs[n].status.Done?
    ensures (step.ImmediateStart? || step.ProcessEnds?) && Enabled(s, step)
  {
    var r := FirstUnfinished(s.runs, n);
    step := if s.runs[r].status.Waiting? then ImmediateStart(r) else ProcessEnds(r);
  }

  /** While a promise is not settled, a step that counts is possible, now or as soon as the throttle has passed. */
  lemma NeverStuck(throttleMs: nat, steps: seq<Step>, p: Promise) returns (step: Step)
    requires DisciplinedRun(throttleMs, steps)
    requires var s := After(throttleMs, steps); p < s.promises && p !in s.settled
    ensures var s := After(throttleMs, steps); Enabled(Later(s), step) && Counts(s, p, step)
  {
    DisciplinedInv(throttleMs, steps);
    WaitedRunsExist(throttleMs, steps);
    hide After, DisciplinedRun;
    var s := After(throttleMs, steps);
    assert Held(s, p);
    if s.scheduled == Some(p) {
      step := TaskCanGoOn(s);
    } else {
      WithUnfinishedRun(s, p);
      step := RunCanGoOn(Later(s), RunWith(s.runs, p));
    }
  }

  lemma TaskCanGoOn(s: State) returns (step: Step)
    requires TasksOk(s) && s.scheduled.Some?
    requires forall task :: task in s.tasks && task.AwaitRun? ==> task.run < |s.runs|
    ensures Counts(s, s.scheduled.value, step) && Enabled(Later(s), step)
  {
    var t: nat :| TaskWaits(s, t);
    assert s.tasks[t] in s.tasks;
    match s.tasks[t]
    case AwaitRun(r) =>
      if Finished(s, r) { step := RunAwaited(t); } else { step := RunCanGoOn(Later(s), r); }
    case AwaitThrottle(_) => step := ThrottleAwaited(t);
    case AwaitIdle => step := IdleAwaited(t);
    case _ =>
  }
}
