/** How far apart the scheduler's runs start, and what calling `run()` while a run is unfinished does to that. */
module ThrottleDistance {
  import opened Wrappers
  import opened ProcessScheduler

  // ---------- when runs start ----------

  /** A scheduled run restarts the throttle when it starts; an immediate one starts when it is requested or later. */
  ghost predicate StartsOk(s: State) {
    forall r :: 0 <= r < |s.runs| ==>
      && (s.runs[r].status.Waiting? ==> s.runs[r].startedAt.None?)
      && (!s.runs[r].immediate ==> s.runs[r].startedAt == Some(s.runs[r].throttledFrom))
      && (s.runs[r].startedAt.Some? ==> s.runs[r].throttledFrom <= s.runs[r].startedAt.value)
      && s.runs[r].throttledFrom <= s.now
  }

  lemma StepKeepsStarts(throttleMs: nat, s: State, step: Step)
    requires StartsOk(s) && Enabled(s, step)
    ensures StartsOk(Stepped(throttleMs, s, step))
  {
  }

  lemma {:induction false} StartsAreOk(throttleMs: nat, steps: seq<Step>)
    ensures StartsOk(After(throttleMs, steps))
    decreases |steps|
  {
    hide Stepped, Enabled, StartsOk;
    if steps == [] {
      assert StartsOk(INITIAL) by { NothingStarted(); }
    } else {
      StartsAreOk(throttleMs, steps[..|steps| - 1]);
      if Enabled(After(throttleMs, steps[..|steps| - 1]), steps[|steps| - 1]) {
        StepKeepsStarts(throttleMs, After(throttleMs, steps[..|steps| - 1]), steps[|steps| - 1]);
      }
    }
  }

  lemma NothingStarted()
    ensures StartsOk(INITIAL)
  {
  }

  /** A scheduled run starts at least the throttle time after every earlier run, less the time that an earlier immediate
    * run had to wait before it started. */
  lemma StartDistance(throttleMs: nat, steps: seq<Step>, i: nat, j: nat)
    requires DisciplinedRun(throttleMs, steps)
    requires var runs := After(throttleMs, steps).runs; i < j < |runs| && !runs[j].immediate && runs[i].startedAt.Some?
    ensures var a, b := After(throttleMs, steps).runs[i], After(throttleMs, steps).runs[j];
      && b.startedAt.Some? && a.throttledFrom <= a.startedAt.value
      && a.startedAt.value + throttleMs <= b.startedAt.value + (a.startedAt.value - a.throttledFrom)
      && (!a.immediate ==> a.startedAt.value == a.throttledFrom)
  {
    NeverConcurrentAndThrottled(throttleMs, steps);
    StartsAreOk(throttleMs, steps);
  }

  // ---------- runs in which immediate runs do not wait ----------

  /** The clock does not advance while an immediate run is due: it starts before any timer fires. */
  ghost predicate Timely(s: State, step: Step) {
    step.Tick? ==> forall r: nat :: !Enabled(s, ImmediateStart(r))
  }

  /** `run()` is called only when no run is unfinished. */
  ghost predicate Patient(s: State, step: Step) {
    step.RunNow? && !s.aborted ==> AllDone(s.runs)
  }

  ghost predicate TimelyRun(throttleMs: nat, steps: seq<Step>) {
    steps == []
    || (TimelyRun(throttleMs, steps[..|steps| - 1])
      && Timely(After(throttleMs, steps[..|steps| - 1]), steps[|steps| - 1]))
  }

  ghost predicate PatientRun(throttleMs: nat, steps: seq<Step>) {
    steps == []
    || (PatientRun(throttleMs, steps[..|steps| - 1])
      && Patient(After(throttleMs, steps[..|steps| - 1]), steps[|steps| - 1]))
  }

  /** At most one run waits, it was requested just now, and it is due; every started run started when it was
    * requested. */
  ghost predicate NoWaiting(s: State) {
    forall r: nat :: r < |s.runs| ==>
      && (s.runs[r].status.Waiting? ==> s.runs[r].throttledFrom == s.now && Finished(s, r - 1))
      && (s.runs[r].startedAt.Some? ==> s.runs[r].startedAt.value == s.runs[r].throttledFrom)
  }

  lemma StepKeepsNoWaiting(throttleMs: nat, s: State, step: Step)
    requires NoWaiting(s) && StartsOk(s) && Enabled(s, step) && Timely(s, step) && Patient(s, step)
    ensures NoWaiting(Stepped(throttleMs, s, step))
  {
    if step.Tick? {
      forall r: nat | r < |s.runs| ensures !s.runs[r].status.Waiting? {
        assert !Enabled(s, ImmediateStart(r));
      }
    }
  }

  lemma {:induction false} PatientNeverWait(throttleMs: nat, steps: seq<Step>)
    requires TimelyRun(throttleMs, steps) && PatientRun(throttleMs, steps)
    ensures NoWaiting(After(throttleMs, steps))
    decreases |steps|
  {
    hide Stepped, Enabled, NoWaiting, Timely, Patient;
    if steps == [] {
      NobodyWaits();
    } else {
      var s, step := After(throttleMs, steps[..|steps| - 1]), steps[|steps| - 1];
      PatientNeverWait(throttleMs, steps[..|steps| - 1]);
      StartsAreOk(throttleMs, steps[..|steps| - 1]);
      if Enabled(s, step) {
        StepKeepsNoWaiting(throttleMs, s, step);
      }
    }
  }

  lemma NobodyWaits()
    ensures NoWaiting(INITIAL)
  {
  }

  /** Every scheduled run starts at least the throttle time after every earlier run has started. */
  ghost predicate StartsApart(throttleMs: nat, runs: seq<Run>) {
    forall i, j :: 0 <= i < j < |runs| && !runs[j].immediate && runs[i].startedAt.Some? ==>
      runs[j].startedAt.Some? && runs[i].startedAt.value + throttleMs <= runs[j].startedAt.value
  }

  /** The documented throttle: if callers are disciplined and call `run()` only when no run is unfinished, scheduled
    * runs start at least the throttle time after every earlier start. */
  lemma StartsKeepThrottle(throttleMs: nat, steps: seq<Step>)
    requires DisciplinedRun(throttleMs, steps) && TimelyRun(throttleMs, steps) && PatientRun(throttleMs, steps)
    ensures StartsApart(throttleMs, After(throttleMs, steps).runs)
  {
    hide After, DisciplinedRun, TimelyRun, PatientRun;
    var runs := After(throttleMs, steps).runs;
    PatientNeverWait(throttleMs, steps);
    forall i, j | 0 <= i < j < |runs| && !runs[j].immediate && runs[i].startedAt.Some?
      ensures runs[j].startedAt.Some? && runs[i].startedAt.value + throttleMs <= runs[j].startedAt.value
    {
      StartDistance(throttleMs, steps, i, j);
    }
  }

  // ---------- the patience is needed ----------

  /** The steps are disciplined and timely. */
  ghost predicate Proper(throttleMs: nat, steps: seq<Step>) {
    DisciplinedRun(throttleMs, steps) && TimelyRun(throttleMs, steps)
  }

  lemma Extend(throttleMs: nat, steps: seq<Step>, step: Step) returns (longer: seq<Step>)
    requires Proper(throttleMs, steps) && Enabled(After(throttleMs, steps), step)
    requires Disciplined(After(throttleMs, steps), step) && Timely(After(throttleMs, steps), step)
    ensures longer == steps + [step] && Proper(throttleMs, longer)
    ensures After(throttleMs, longer) == Stepped(throttleMs, After(throttleMs, steps), step)
  {
    hide After, DisciplinedRun, TimelyRun, Disciplined, Timely, Enabled, Stepped;
    longer := steps + [step];
    OneStepMore(throttleMs, steps, step);
    StillProper(throttleMs, steps, step);
  }

  lemma OneStepMore(throttleMs: nat, steps: seq<Step>, step: Step)
    requires Enabled(After(throttleMs, steps), step)
    ensures After(throttleMs, steps + [step]) == Stepped(throttleMs, After(throttleMs, steps), step)
  {
    hide Enabled, Stepped;
    assert (steps + [step])[..|steps|] == steps;
  }

  lemma StillProper(throttleMs: nat, steps: seq<Step>, step: Step)
    requires DisciplinedRun(throttleMs, steps) && Disciplined(After(throttleMs, steps), step)
    requires TimelyRun(throttleMs, steps) && Timely(After(throttleMs, steps), step)
    ensures DisciplinedRun(throttleMs, steps + [step]) && TimelyRun(throttleMs, steps + [step])
  {
    hide After, Disciplined, Timely;
    assert (steps + [step])[..|steps|] == steps;
  }

  /** Other steps than scheduling and ticks of the clock. */
  lemma ExtendSimply(throttleMs: nat, steps: seq<Step>, step: Step) returns (longer: seq<Step>)
    requires Proper(throttleMs, steps) && Enabled(After(throttleMs, steps), step) && !step.Schedule? && !step.Tick?
    ensures longer == steps + [step] && Proper(throttleMs, longer)
    ensures After(throttleMs, longer) == Stepped(throttleMs, After(throttleMs, steps), step)
  {
    longer := Extend(throttleMs, steps, step);
  }

  /** What stays while runs start and finish. */
  ghost predicate OnlyRunsChange(s: State, s': State) {
    && s'.now == s.now && s'.aborted == s.aborted && s'.scheduled == s.scheduled && s'.tasks == s.tasks
    && s'.throttleUntil == s.throttleUntil && |s'.runs| == |s.runs|
  }

  /** All requested runs can be finished, those that wait starting now. */
  lemma {:induction false} FinishAll(throttleMs: nat, steps: seq<Step>, n: nat) returns (steps': seq<Step>)
    requires var s := After(throttleMs, steps);
      Proper(throttleMs, steps) && !s.aborted && n <= |s.runs| && forall r :: 0 <= r < n ==> s.runs[r].status.Done?
    ensures steps <= steps' && Proper(throttleMs, steps')
    ensures var s, s' := After(throttleMs, steps), After(throttleMs, steps');
      && OnlyRunsChange(s, s') && AllDone(s'.runs)
      && (forall r :: 0 <= r < n ==> s'.runs[r] == s.runs[r])
      && forall r :: n <= r < |s.runs| && s.runs[r].status.Waiting? ==> s'.runs[r].startedAt == Some(s.now)
    decreases |After(throttleMs, steps).runs| - n
  {
    hide After, Proper;
    var s := After(throttleMs, steps);
    steps' := steps;
    if n < |s.runs| {
      if s.runs[n].status.Waiting? {
        steps' := ExtendSimply(throttleMs, steps', ImmediateStart(n));
      }
      if After(throttleMs, steps').runs[n].status.Active? {
        steps' := ExtendSimply(throttleMs, steps', ProcessEnds(n));
      }
      steps' := FinishAll(throttleMs, steps', n + 1);
    }
  }

  ghost predicate NoneDue(s: State) {
    forall r: nat :: !Enabled(s, ImmediateStart(r))
  }

  /** A run requested while another is unfinished has to wait; once a due run has been started, nothing is due. */
  lemma RequestWhileUnfinished(throttleMs: nat, steps: seq<Step>) returns (steps': seq<Step>)
    requires Proper(throttleMs, steps) && !After(throttleMs, steps).aborted && !AllDone(After(throttleMs, steps).runs)
    ensures steps + [RunNow] <= steps' && Proper(throttleMs, steps')
    ensures var s, s' := After(throttleMs, steps), After(throttleMs, steps');
      && s'.now == s.now && !s'.aborted && s'.scheduled.None? && s'.tasks == s.tasks
      && s'.throttleUntil == s.now + throttleMs && |s'.runs| == |s.runs| + 1
      && s'.runs[|s.runs|].status.Waiting? && NoneDue(s')
  {
    OrderOf(throttleMs, steps);
    hide After, Proper, TasksOk, NoneDue;
    var s := After(throttleMs, steps);
    steps' := ExtendSimply(throttleMs, steps, RunNow);
    var s1 := After(throttleMs, steps');
    OrderOf(throttleMs, steps');
    NewRunWaits(s.runs, s1.runs);
    if r: nat :| Enabled(s1, ImmediateStart(r)) {
      DueIsFirst(s1.runs, r);
      steps' := StartDue(throttleMs, steps', r);
    }
  }

  lemma StartDue(throttleMs: nat, steps: seq<Step>, r: nat) returns (steps': seq<Step>)
    requires Proper(throttleMs, steps) && Enabled(After(throttleMs, steps), ImmediateStart(r))
    requires !After(throttleMs, steps).aborted
    ensures steps' == steps + [ImmediateStart(r)] && Proper(throttleMs, steps')
    ensures var s, s' := After(throttleMs, steps), After(throttleMs, steps');
      OnlyRunsChange(s, s') && NoneDue(s') && forall j :: 0 <= j < |s.runs| && j != r ==> s'.runs[j] == s.runs[j]
  {
    hide After, Proper;
    steps' := ExtendSimply(throttleMs, steps, ImmediateStart(r));
    OrderOf(throttleMs, steps');
    NoneDueAfter(After(throttleMs, steps'), r);
  }

  lemma OrderOf(throttleMs: nat, steps: seq<Step>)
    requires Proper(throttleMs, steps)
    ensures OneAtATime(After(throttleMs, steps).runs) && TasksOk(After(throttleMs, steps))
  {
    DisciplinedInv(throttleMs, steps);
  }

  lemma NewRunWaits(runs: seq<Run>, more: seq<Run>)
    requires OneAtATime(runs) && !AllDone(runs) && |more| == |runs| + 1 && more[..|runs|] == runs
    ensures |runs| > 0 && !more[|runs| - 1].status.Done?
  {
    var r :| 0 <= r < |runs| && !runs[r].status.Done?;
    assert more[|runs| - 1] == runs[|runs| - 1];
  }

  lemma DueIsFirst(runs: seq<Run>, r: nat)
    requires OneAtATime(runs) && r < |runs| && runs[r].status.Waiting?
    requires |runs| > 1 && !runs[|runs| - 2].status.Done? && (r == 0 || runs[r - 1].status.Done?)
    ensures r < |runs| - 1
  {
  }

  lemma DueMeansNoneActive(s: State, i: nat, r: nat)
    requires OneAtATime(s.runs) && r < |s.runs| && Enabled(s, ImmediateStart(i))
    ensures !s.runs[r].status.Active?
  {
  }

  /** While a run is active, no run is due. */
  lemma NoneDueAfter(s: State, r: nat)
    requires OneAtATime(s.runs) && r < |s.runs| && s.runs[r].status.Active?
    ensures NoneDue(s)
  {
    forall i: nat ensures !Enabled(s, ImmediateStart(i)) {
      if Enabled(s, ImmediateStart(i)) { DueMeansNoneActive(s, i, r); }
    }
  }

  lemma Wait(throttleMs: nat, steps: seq<Step>, ms: nat) returns (steps': seq<Step>)
    requires Proper(throttleMs, steps) && NoneDue(After(throttleMs, steps))
    ensures steps <= steps' && Proper(throttleMs, steps')
    ensures var s := After(throttleMs, steps); After(throttleMs, steps') == s.(now := s.now + ms)
  {
    hide After, Proper;
    steps' := Extend(throttleMs, steps, Tick(ms));
  }

  /** A task whose promise was taken over ends without doing anything. */
  lemma StaleTaskExits(throttleMs: nat, steps: seq<Step>, t: nat) returns (steps': seq<Step>)
    requires var s := After(throttleMs, steps);
      && Proper(throttleMs, steps) && s.scheduled.None? && AllDone(s.runs) && TaskWaits(s, t)
        && s.throttleUntil <= s.now
      && (s.tasks[t].AwaitThrottle? ==> s.tasks[t].until <= s.now)
    ensures steps <= steps' && Proper(throttleMs, steps')
    ensures var s := After(throttleMs, steps); After(throttleMs, steps') == s.(tasks := s.tasks[t := Exited])
  {
    WaitedRunsExist(throttleMs, steps);
    hide After, Proper;
    var s := After(throttleMs, steps);
    assert s.tasks[t] in s.tasks;
    steps' := steps;
    if s.tasks[t].AwaitRun? {
      steps' := ExtendSimply(throttleMs, steps', RunAwaited(t));
    }
    if After(throttleMs, steps').tasks[t].AwaitThrottle? {
      steps' := ExtendSimply(throttleMs, steps', ThrottleAwaited(t));
    } else {
      steps' := ExtendSimply(throttleMs, steps', IdleAwaited(t));
    }
  }

  /** With no run unfinished, no task waiting and the throttle over, a scheduled run can start at once. */
  lemma ScheduleAtOnce(throttleMs: nat, steps: seq<Step>) returns (steps': seq<Step>)
    requires var s := After(throttleMs, steps);
      && Proper(throttleMs, steps) && !s.aborted && s.scheduled.None? && AllDone(s.runs) && s.throttleUntil <= s.now
      && forall t: nat :: !TaskWaits(s, t)
    ensures steps <= steps' && Proper(throttleMs, steps')
    ensures var s, s' := After(throttleMs, steps), After(throttleMs, steps');
      && |s'.runs| == |s.runs| + 1 && s'.runs[..|s.runs|] == s.runs
      && !s'.runs[|s.runs|].immediate && s'.runs[|s.runs|].startedAt == Some(s.now)
  {
    hide After, Proper;
    var s := After(throttleMs, steps);
    var u := |s.tasks|;
    steps' := Extend(throttleMs, steps, Schedule);
    steps' := ExtendSimply(throttleMs, steps', RunAwaited(u));
    steps' := ExtendSimply(throttleMs, steps', ThrottleAwaited(u));
    steps' := ExtendSimply(throttleMs, steps', IdleAwaited(u));
  }

  /** Two runs, the later one scheduled, that start in the same instant. */
  ghost predicate StartTogether(runs: seq<Run>, i: nat, j: nat) {
    i < j < |runs| && !runs[j].immediate && runs[i].startedAt.Some? && runs[j].startedAt == runs[i].startedAt
  }

  lemma TogetherIsNotApart(throttleMs: nat, runs: seq<Run>, i: nat, j: nat)
    requires throttleMs > 0 && StartTogether(runs, i, j)
    ensures !StartsApart(throttleMs, runs)
  {
  }

  /** The time after which nothing that a stale task waits for is in the future. */
  function LongEnough(throttleMs: nat, tasks: seq<Task>, t: nat): nat {
    throttleMs + if t < |tasks| && tasks[t].AwaitThrottle? then tasks[t].until else 0
  }

  /** The immediate run waits past the throttle that its request restarted, and everything finishes. */
  lemma WaitAndFinish(throttleMs: nat, steps: seq<Step>, t: nat) returns (steps': seq<Step>)
    requires Proper(throttleMs, steps) && !After(throttleMs, steps).aborted && !AllDone(After(throttleMs, steps).runs)
    ensures steps + [RunNow] <= steps' && Proper(throttleMs, steps')
    ensures var s, s' := After(throttleMs, steps), After(throttleMs, steps');
      && !s'.aborted && s'.scheduled.None? && s'.tasks == s.tasks && AllDone(s'.runs)
      && s'.now == s.now + LongEnough(throttleMs, s.tasks, t) && s'.throttleUntil <= s'.now
      && |s'.runs| == |s.runs| + 1 && s'.runs[|s.runs|].startedAt == Some(s'.now)
  {
    hide After, Proper, AllDone, NoneDue;
    var s := After(throttleMs, steps);
    steps' := RequestWhileUnfinished(throttleMs, steps);
    steps' := Wait(throttleMs, steps', LongEnough(throttleMs, s.tasks, t));
    steps' := FinishAll(throttleMs, steps', 0);
  }

  /** Then a stale task ends too, and nothing is left under way. */
  lemma WaitAndClear(throttleMs: nat, steps: seq<Step>) returns (steps': seq<Step>)
    requires Proper(throttleMs, steps) && !After(throttleMs, steps).aborted && !AllDone(After(throttleMs, steps).runs)
    ensures steps + [RunNow] <= steps' && Proper(throttleMs, steps')
    ensures var m, s' := |After(throttleMs, steps).runs|, After(throttleMs, steps');
      && !s'.aborted && s'.scheduled.None? && AllDone(s'.runs) && s'.throttleUntil <= s'.now
      && (forall u: nat :: !TaskWaits(s', u)) && |s'.runs| == m + 1 && s'.runs[m].startedAt == Some(s'.now)
  {
    OrderOf(throttleMs, steps);
    hide After, Proper, AllDone, OneAtATime;
    var s := After(throttleMs, steps);
    var t := |s.tasks|;
    if u: nat :| TaskWaits(s, u) { t := u; }
    steps' := WaitAndFinish(throttleMs, steps, t);
    if t < |s.tasks| {
      steps' := StaleTaskExits(throttleMs, steps', t);
    }
    NoTaskLeft(s, After(throttleMs, steps'), t);
  }

  /** The patience is as weak as it can be: after any disciplined and timely run, calling `run()` while a run is
    * unfinished can be followed by disciplined and timely steps after which the immediate run and a later scheduled one
    * have started in the same instant. */
  lemma PatienceIsNeeded(throttleMs: nat, steps: seq<Step>) returns (steps': seq<Step>)
    requires Proper(throttleMs, steps) && !Patient(After(throttleMs, steps), RunNow)
    ensures steps + [RunNow] <= steps' && Proper(throttleMs, steps')
    ensures var m := |After(throttleMs, steps).runs|; StartTogether(After(throttleMs, steps').runs, m, m + 1)
    ensures throttleMs > 0 ==> !StartsApart(throttleMs, After(throttleMs, steps').runs)
  {
    hide After, Proper, AllDone, StartsApart, TaskWaits;
    var m := |After(throttleMs, steps).runs|;
    steps' := WaitAndClear(throttleMs, steps);
    steps' := ScheduleAtOnce(throttleMs, steps');
    if throttleMs > 0 {
      TogetherIsNotApart(throttleMs, After(throttleMs, steps').runs, m, m + 1);
    }
  }

  lemma NoTaskLeft(s: State, s': State, t: nat)
    requires TasksOk(s) && (TaskWaits(s, t) || forall u: nat :: !TaskWaits(s, u))
    requires s'.tasks == if t < |s.tasks| then s.tasks[t := Exited] else s.tasks
    ensures forall u: nat :: !TaskWaits(s', u)
  {
    forall u: nat ensures !TaskWaits(s', u) {
      assert TaskWaits(s', u) ==> TaskWaits(s, u);
    }
  }
}
