/** The process scheduler: debounced, throttled and idle-time runs, immediate runs, and aborting. */
module ProcessScheduler {
  import opened Wrappers

  type Promise = nat

  /** `Waiting` runs are immediate ones that wait for the run before them. */
  datatype Status = Waiting | Active | Done

  /** `promise` is the `schedule()` promise the run settles, `throttledFrom` when it restarted the throttle: a scheduled
    * run when it starts, an immediate one when it is requested.  `startedAt` is when the process was called. */
  datatype Run = Run(status: Status, immediate: bool, promise: Option<Promise>, throttledFrom: nat,
      startedAt: Option<nat>)

  /** A call of `#scheduleInternal` that has not started the process: what it waits for. */
  datatype Task = AwaitRun(run: int) | AwaitThrottle(until: nat) | AwaitIdle | Exited

  datatype Outcome = SettledBy(run: nat) | Aborted

  /** `runsBefore` is the number of runs requested before the call. */
  datatype Call = Call(promise: Promise, runsBefore: nat)

  /** `scheduled` and `runResolver` are the resolver fields.  The last of `runs` is the run promise.  `calls`,
    * `settled` and `promises` record what callers of `schedule()` got. */
  datatype State = State(
    now: nat, aborted: bool, scheduled: Option<Promise>, runResolver: Option<Promise>, runs: seq<Run>,
    throttleUntil: nat, tasks: seq<Task>, promises: nat, calls: seq<Call>, settled: map<Promise, Outcome>)

  const INITIAL := State(0, false, None, None, [], 0, [], 0, [], map[])

  datatype Step =
    | Schedule | RunNow | Tick(ms: nat) | Abort
    | RunAwaited(task: nat) | ThrottleAwaited(task: nat) | IdleAwaited(task: nat)
    | ImmediateStart(run: nat) | ProcessEnds(run: nat)

  predicate Finished(s: State, run: int) {
    run < 0 || (run < |s.runs| && s.runs[run].status.Done?)
  }

  predicate Enabled(s: State, step: Step) {
    match step
    case RunAwaited(t) => t < |s.tasks| && s.tasks[t].AwaitRun? && Finished(s, s.tasks[t].run)
    case ThrottleAwaited(t) => t < |s.tasks| && s.tasks[t].AwaitThrottle? && (s.tasks[t].until <= s.now || s.aborted)
    case IdleAwaited(t) => t < |s.tasks| && s.tasks[t].AwaitIdle?
    case ImmediateStart(r) => r < |s.runs| && s.runs[r].status.Waiting? && Finished(s, r - 1)
    case ProcessEnds(r) => r < |s.runs| && s.runs[r].status.Active?
    case _ => true
  }

  function Settle(settled: map<Promise, Outcome>, p: Option<Promise>, outcome: Outcome): map<Promise, Outcome> {
    if p.Some? && p.value !in settled then settled[p.value := outcome] else settled
  }

  function Stepped(throttleMs: nat, s: State, step: Step): State
    requires Enabled(s, step)
  {
    match step
    case Schedule =>
      if s.aborted then s
      else if s.scheduled.Some? then s.(calls := s.calls + [Call(s.scheduled.value, |s.runs|)])
      else s.(scheduled := Some(s.promises), promises := s.promises + 1,
              calls := s.calls + [Call(s.promises, |s.runs|)],
              tasks := s.tasks + [AwaitRun(|s.runs| - 1)])
    case RunNow =>
      if s.aborted then s
      else s.(scheduled := None, runs := s.runs + [Run(Waiting, true, s.scheduled, s.now, None)],
              throttleUntil := s.now + throttleMs)
    case Tick(ms) => s.(now := s.now + ms)
    case Abort =>
      s.(aborted := true, scheduled := None, runResolver := None,
         settled := Settle(Settle(s.settled, s.runResolver, Aborted), s.scheduled, Aborted))
    case RunAwaited(t) => s.(tasks := s.tasks[t := AwaitThrottle(s.throttleUntil)])
    case ThrottleAwaited(t) => s.(tasks := s.tasks[t := if s.scheduled.None? then Exited else AwaitIdle])
    case IdleAwaited(t) =>
      if s.scheduled.None? then s.(tasks := s.tasks[t := Exited])
      else s.(tasks := s.tasks[t := Exited], throttleUntil := s.now + throttleMs, runResolver := s.scheduled,
              scheduled := None, runs := s.runs + [Run(Active, false, s.scheduled, s.now, Some(s.now))])
    case ImmediateStart(r) =>
      if s.aborted
      then s.(runs := s.runs[r := s.runs[r].(status := Done)], settled := Settle(s.settled, s.runs[r].promise, Aborted))
      else s.(runs := s.runs[r := s.runs[r].(status := Active, startedAt := Some(s.now))])
    case ProcessEnds(r) =>
      var ended := s.(runs := s.runs[r := s.runs[r].(status := Done)]);
      if s.runs[r].immediate then ended.(settled := Settle(s.settled, s.runs[r].promise, SettledBy(r)))
      else ended.(settled := Settle(s.settled, s.runResolver, SettledBy(r)), runResolver := None)
  }

  // ---------- disciplined runs ----------

  predicate TaskWaits(s: State, t: nat) {
    t < |s.tasks| && !s.tasks[t].Exited?
  }

  /** `schedule()` is not called while a task whose promise an immediate run took over is still waiting.  Without
    * immediate runs this always holds. */
  ghost predicate Disciplined(s: State, step: Step) {
    step.Schedule? && !s.aborted && s.scheduled.None? ==> forall t: nat :: !TaskWaits(s, t)
  }

  /** The state after those of the steps that were possible. */
  function After(throttleMs: nat, steps: seq<Step>): State {
    if steps == [] then INITIAL else
      var s := After(throttleMs, steps[..|steps| - 1]);
      if Enabled(s, steps[|steps| - 1]) then Stepped(throttleMs, s, steps[|steps| - 1]) else s
  }

  ghost predicate DisciplinedRun(throttleMs: nat, steps: seq<Step>) {
    steps == [] || (DisciplinedRun(throttleMs, steps[..|steps| - 1])
      && Disciplined(After(throttleMs, steps[..|steps| - 1]), steps[|steps| - 1]))
  }

  // ---------- the invariant ----------

  /** No run starts before the ones requested earlier have finished. */
  ghost predicate OneAtATime(runs: seq<Run>) {
    && (forall i, j :: 0 <= i < j < |runs| && !runs[j].status.Waiting? ==> runs[i].status.Done?)
    && forall r :: 0 <= r < |runs| && runs[r].status.Waiting? ==> runs[r].immediate
  }

  ghost predicate AllDone(runs: seq<Run>) {
    forall r :: 0 <= r < |runs| ==> runs[r].status.Done?
  }

  /** The only waiting task is the scheduled promise's, it has seen every run finish once it got past the first wait,
    * and it waits for the current throttle. */
  ghost predicate TasksOk(s: State) {
    && (forall t: nat, u: nat :: TaskWaits(s, t) && TaskWaits(s, u) ==> t == u)
    && (s.scheduled.Some? ==> !s.aborted && exists t: nat :: TaskWaits(s, t))
    && forall t: nat :: TaskWaits(s, t) && s.scheduled.Some? ==>
         match s.tasks[t]
         case AwaitRun(r) => r == |s.runs| - 1
         case AwaitThrottle(until) => AllDone(s.runs) && until == s.throttleUntil
         case AwaitIdle => AllDone(s.runs) && s.throttleUntil <= s.now
         case Exited => true
  }

  /** Scheduled runs start at least the throttle time after every earlier run restarted the throttle. */
  ghost predicate Throttled(throttleMs: nat, s: State) {
    && (forall i :: 0 <= i < |s.runs| ==> s.runs[i].throttledFrom + throttleMs <= s.throttleUntil)
    && forall i, j :: 0 <= i < j < |s.runs| && !s.runs[j].immediate ==>
         s.runs[i].throttledFrom + throttleMs <= s.runs[j].throttledFrom
  }

  ghost predicate ThrottledInPast(s: State) {
    forall i :: 0 <= i < |s.runs| ==> s.runs[i].throttledFrom <= s.now
  }

  /** Where an unsettled promise is kept. */
  ghost predicate Held(s: State, p: Promise) {
    s.scheduled == Some(p) || s.runResolver == Some(p)
    || exists r :: 0 <= r < |s.runs| && s.runs[r].immediate && !s.runs[r].status.Done? && s.runs[r].promise == Some(p)
  }

  /** The promise in the resolver of a scheduled run is the one that run was started for. */
  ghost predicate ResolverOk(s: State) {
    && (s.aborted ==> s.scheduled.None? && s.runResolver.None?)
    && (s.runResolver.Some? ==>
          exists r :: (0 <= r < |s.runs| && s.runs[r].status.Active? && !s.runs[r].immediate
                       && s.runs[r].promise == s.runResolver))
  }

  /** A promise is handed to at most one run, and not while it is scheduled. */
  ghost predicate PromisesOk(s: State) {
    && (s.scheduled.Some? ==> s.scheduled.value < s.promises)
    && (s.scheduled.Some? ==> forall r :: 0 <= r < |s.runs| ==> s.runs[r].promise != s.scheduled)
    && (forall r :: 0 <= r < |s.runs| && s.runs[r].promise.Some? ==> s.runs[r].promise.value < s.promises)
    && (forall i, j :: 0 <= i < j < |s.runs| && s.runs[i].promise.Some? ==> s.runs[i].promise != s.runs[j].promise)
  }

  /** A run that is handed a promise was requested after every call that got it. */
  ghost predicate CallsOk(s: State) {
    && (forall c :: c in s.calls ==> c.promise < s.promises && c.runsBefore <= |s.runs|)
    && (forall c, r :: c in s.calls && 0 <= r < |s.runs| && s.runs[r].promise == Some(c.promise) ==> c.runsBefore <= r)
  }

  /** A promise settled by a run is settled by the run it was handed to. */
  ghost predicate SettledOk(s: State) {
    forall p :: p in s.settled && s.settled[p].SettledBy? ==>
      s.settled[p].run < |s.runs| && s.runs[s.settled[p].run].promise == Some(p)
  }

  ghost predicate AbortsOk(s: State) {
    forall p :: p in s.settled && s.settled[p].Aborted? ==> s.aborted
  }

  ghost predicate NothingLost(s: State) {
    forall p :: 0 <= p < s.promises ==> p in s.settled || Held(s, p)
  }

  ghost predicate Inv(throttleMs: nat, s: State) {
    OneAtATime(s.runs) && TasksOk(s) && Throttled(throttleMs, s) && ThrottledInPast(s) && ResolverOk(s)
    && PromisesOk(s) && CallsOk(s) && SettledOk(s) && AbortsOk(s) && NothingLost(s)
  }

  // ---------- every disciplined step keeps the invariant ----------

  lemma StepKeepsOrder(throttleMs: nat, s: State, step: Step)
    requires OneAtATime(s.runs) && TasksOk(s) && Enabled(s, step)
    ensures OneAtATime(Stepped(throttleMs, s, step).runs)
  {
    if step.IdleAwaited? && s.scheduled.Some? {
      assert TaskWaits(s, step.task);
    }
  }

  lemma ScheduleKeepsTasks(throttleMs: nat, s: State)
    requires TasksOk(s) && Disciplined(s, Schedule)
    ensures TasksOk(Stepped(throttleMs, s, Schedule))
  {
    var s' := Stepped(throttleMs, s, Schedule);
    if s.aborted || s.scheduled.Some? {
      assert forall t: nat :: TaskWaits(s', t) <==> TaskWaits(s, t);
    } else {
      assert TaskWaits(s', |s.tasks|);
      assert forall t: nat :: TaskWaits(s', t) ==> t == |s.tasks| || TaskWaits(s, t);
    }
  }

  lemma WakeKeepsTasks(throttleMs: nat, s: State, step: Step, t: nat)
    requires OneAtATime(s.runs) && TasksOk(s) && Enabled(s, step)
    requires step == RunAwaited(t) || step == ThrottleAwaited(t) || step == IdleAwaited(t)
    ensures TasksOk(Stepped(throttleMs, s, step))
  {
    var s' := Stepped(throttleMs, s, step);
    TaskMoves(s, s', t);
    assert TaskWaits(s, t);
    assert s'.scheduled.Some? ==> TaskWaits(s', t);
  }

  lemma StepKeepsTasks(throttleMs: nat, s: State, step: Step)
    requires OneAtATime(s.runs) && TasksOk(s) && Enabled(s, step) && Disciplined(s, step)
    ensures TasksOk(Stepped(throttleMs, s, step))
  {
    match step
    case Schedule => ScheduleKeepsTasks(throttleMs, s);
    case RunAwaited(t) => WakeKeepsTasks(throttleMs, s, step, t);
    case ThrottleAwaited(t) => WakeKeepsTasks(throttleMs, s, step, t);
    case IdleAwaited(t) => WakeKeepsTasks(throttleMs, s, step, t);
    case _ =>
      var s' := Stepped(throttleMs, s, step);
      assert forall t: nat :: TaskWaits(s', t) <==> TaskWaits(s, t);
  }

  lemma TaskMoves(s: State, s': State, t: nat)
    requires TaskWaits(s, t) && |s'.tasks| == |s.tasks|
    requires forall u: nat :: u < |s.tasks| && u != t ==> s'.tasks[u] == s.tasks[u]
    ensures forall u: nat :: u != t ==> (TaskWaits(s', u) <==> TaskWaits(s, u))
  {
  }

  /** A new run restarts the throttle; a scheduled one only after the throttle has passed. */
  lemma NewRunThrottled(throttleMs: nat, s: State, s': State, run: Run)
    requires Throttled(throttleMs, s) && s'.runs == s.runs + [run] && run.throttledFrom == s.now
    requires s'.throttleUntil == s.now + throttleMs
    requires forall i :: 0 <= i < |s.runs| ==> s.runs[i].throttledFrom <= s.now
    requires !run.immediate ==> s.throttleUntil <= s.now
    ensures Throttled(throttleMs, s')
  {
  }

  lemma SameThrottle(throttleMs: nat, s: State, s': State)
    requires Throttled(throttleMs, s) && s'.throttleUntil == s.throttleUntil && |s'.runs| == |s.runs|
    requires forall i :: 0 <= i < |s.runs| ==>
      s'.runs[i].throttledFrom == s.runs[i].throttledFrom && s'.runs[i].immediate == s.runs[i].immediate
    ensures Throttled(throttleMs, s')
  {
  }

  lemma StepKeepsThrottle(throttleMs: nat, s: State, step: Step)
    requires OneAtATime(s.runs) && TasksOk(s) && Throttled(throttleMs, s) && ThrottledInPast(s) && Enabled(s, step)
    ensures Throttled(throttleMs, Stepped(throttleMs, s, step)) && ThrottledInPast(Stepped(throttleMs, s, step))
  {
    hide Throttled, OneAtATime;
    var s' := Stepped(throttleMs, s, step);
    if step.IdleAwaited? && s.scheduled.Some? {
      assert TaskWaits(s, step.task);
      NewRunThrottled(throttleMs, s, s', s'.runs[|s.runs|]);
    } else if step.RunNow? && !s.aborted {
      NewRunThrottled(throttleMs, s, s', s'.runs[|s.runs|]);
    } else {
      SameThrottle(throttleMs, s, s');
    }
  }

  lemma StepKeepsResolver(throttleMs: nat, s: State, step: Step)
    requires OneAtATime(s.runs) && ResolverOk(s) && Enabled(s, step)
    ensures ResolverOk(Stepped(throttleMs, s, step))
  {
    var s' := Stepped(throttleMs, s, step);
    if s.runResolver.Some? {
      var r :| 0 <= r < |s.runs| && s.runs[r].status.Active? && !s.runs[r].immediate
        && s.runs[r].promise == s.runResolver;
      assert s'.runResolver == s.runResolver ==> s'.runs[r] == s.runs[r];
    }
    if step.IdleAwaited? && s.scheduled.Some? {
      assert s'.runs[|s.runs|].promise == s'.runResolver;
    }
  }

  lemma SamePromises(s: State, s': State)
    requires PromisesOk(s) && CallsOk(s) && |s'.runs| == |s.runs| && s'.promises == s.promises && s'.calls == s.calls
    requires s'.scheduled == s.scheduled || s'.scheduled.None?
    requires forall r :: 0 <= r < |s.runs| ==> s'.runs[r].promise == s.runs[r].promise
    ensures PromisesOk(s') && CallsOk(s')
  {
  }

  /** A run takes over the scheduled promise. */
  lemma TakingOverKeepsCalls(s: State, s': State, run: Run)
    requires PromisesOk(s) && CallsOk(s) && s'.runs == s.runs + [run] && run.promise == s.scheduled
    requires s'.scheduled == None && s'.promises == s.promises && s'.calls == s.calls
    ensures PromisesOk(s') && CallsOk(s')
  {
  }

  lemma ScheduleKeepsCalls(throttleMs: nat, s: State)
    requires PromisesOk(s) && CallsOk(s)
    ensures PromisesOk(Stepped(throttleMs, s, Schedule)) && CallsOk(Stepped(throttleMs, s, Schedule))
  {
  }

  lemma StepKeepsCalls(throttleMs: nat, s: State, step: Step)
    requires PromisesOk(s) && CallsOk(s) && Enabled(s, step)
    ensures PromisesOk(Stepped(throttleMs, s, step)) && CallsOk(Stepped(throttleMs, s, step))
  {
    hide PromisesOk, CallsOk;
    var s' := Stepped(throttleMs, s, step);
    if step.Schedule? {
      ScheduleKeepsCalls(throttleMs, s);
    } else if (step.RunNow? && !s.aborted) || (step.IdleAwaited? && s.scheduled.Some?) {
      TakingOverKeepsCalls(s, s', s'.runs[|s.runs|]);
    } else {
      SamePromises(s, s');
    }
  }

  lemma SettleKeeps(s: State, s': State, p: Option<Promise>, outcome: Outcome)
    requires SettledOk(s) && s'.settled == Settle(s.settled, p, outcome) && |s.runs| <= |s'.runs|
    requires forall r :: 0 <= r < |s.runs| ==> s'.runs[r].promise == s.runs[r].promise
    requires p.Some? && outcome.SettledBy? ==> outcome.run < |s.runs| && s.runs[outcome.run].promise == p
    ensures SettledOk(s')
  {
  }

  lemma StepKeepsSettled(throttleMs: nat, s: State, step: Step)
    requires OneAtATime(s.runs) && ResolverOk(s) && SettledOk(s) && Enabled(s, step)
    ensures SettledOk(Stepped(throttleMs, s, step))
  {
    hide SettledOk;
    var s' := Stepped(throttleMs, s, step);
    match step
    case Abort =>
      SettleKeeps(s, s.(settled := Settle(s.settled, s.runResolver, Aborted)), s.runResolver, Aborted);
      SettleKeeps(s.(settled := Settle(s.settled, s.runResolver, Aborted)), s', s.scheduled, Aborted);
    case ImmediateStart(r) => SettleKeeps(s, s', if s.aborted then s.runs[r].promise else None, Aborted);
    case ProcessEnds(e) =>
      if s.runResolver.Some? {
        var r :| 0 <= r < |s.runs| && s.runs[r].status.Active? && !s.runs[r].immediate
          && s.runs[r].promise == s.runResolver;
        assert r == e;
      }
      SettleKeeps(s, s', if s.runs[e].immediate then s.runs[e].promise else s.runResolver, SettledBy(e));
    case _ => SettleKeeps(s, s', None, Aborted);
  }

  lemma StepKeepsAborts(throttleMs: nat, s: State, step: Step)
    requires AbortsOk(s) && Enabled(s, step)
    ensures AbortsOk(Stepped(throttleMs, s, step))
  {
  }

  lemma HeldRunKept(throttleMs: nat, s: State, step: Step, p: Promise, r: nat)
    requires OneAtATime(s.runs) && Enabled(s, step)
    requires r < |s.runs| && s.runs[r].immediate && !s.runs[r].status.Done? && s.runs[r].promise == Some(p)
    ensures var s' := Stepped(throttleMs, s, step); p in s'.settled || Held(s', p)
  {
    var s' := Stepped(throttleMs, s, step);
    assert s'.runs[r].promise == Some(p) && s'.runs[r].immediate;
    assert s'.runs[r].status.Done? ==> p in s'.settled;
  }

  lemma StepLosesNothing(throttleMs: nat, s: State, step: Step)
    requires NothingLost(s) && OneAtATime(s.runs) && ResolverOk(s) && TasksOk(s) && Enabled(s, step)
    ensures NothingLost(Stepped(throttleMs, s, step))
  {
    var s' := Stepped(throttleMs, s, step);
    forall p | 0 <= p < s'.promises ensures p in s'.settled || Held(s', p) {
      if p < s.promises && p !in s.settled {
        assert Held(s, p);
        if s.scheduled == Some(p) {
          if step.RunNow? { assert s'.runs[|s.runs|].promise == Some(p); }
        } else if s.runResolver == Some(p) {
          ResolverKept(throttleMs, s, step, p);
        } else {
          var r :| 0 <= r < |s.runs| && s.runs[r].immediate && !s.runs[r].status.Done? && s.runs[r].promise == Some(p);
          HeldRunKept(throttleMs, s, step, p, r);
        }
      }
    }
  }

  /** A scheduled run does not start while another's promise is in the resolver. */
  lemma ResolverKept(throttleMs: nat, s: State, step: Step, p: Promise)
    requires OneAtATime(s.runs) && ResolverOk(s) && TasksOk(s) && Enabled(s, step) && s.runResolver == Some(p)
    ensures var s' := Stepped(throttleMs, s, step); p in s'.settled || s'.runResolver == Some(p)
  {
    var r :| 0 <= r < |s.runs| && s.runs[r].status.Active? && !s.runs[r].immediate
      && s.runs[r].promise == s.runResolver;
    if step.IdleAwaited? && s.scheduled.Some? {
      assert TaskWaits(s, step.task);
    }
  }

  lemma StepKeepsInv(throttleMs: nat, s: State, step: Step)
    requires Inv(throttleMs, s) && Enabled(s, step) && Disciplined(s, step)
    ensures Inv(throttleMs, Stepped(throttleMs, s, step))
  {
    hide OneAtATime, TasksOk, Throttled, ThrottledInPast, ResolverOk, PromisesOk, CallsOk, SettledOk, AbortsOk,
      NothingLost, Disciplined, Enabled, Stepped;
    StepKeepsOrder(throttleMs, s, step);
    StepKeepsTasks(throttleMs, s, step);
    StepKeepsThrottle(throttleMs, s, step);
    StepKeepsResolver(throttleMs, s, step);
    StepKeepsCalls(throttleMs, s, step);
    StepKeepsSettled(throttleMs, s, step);
    StepKeepsAborts(throttleMs, s, step);
    StepLosesNothing(throttleMs, s, step);
  }

  lemma {:induction false} DisciplinedInv(throttleMs: nat, steps: seq<Step>)
    requires DisciplinedRun(throttleMs, steps)
    ensures Inv(throttleMs, After(throttleMs, steps))
    decreases |steps|
  {
    hide Inv, Disciplined, Enabled, Stepped;
    if steps == [] {
      InitialInv(throttleMs);
    } else {
      var s, step := After(throttleMs, steps[..|steps| - 1]), steps[|steps| - 1];
      DisciplinedInv(throttleMs, steps[..|steps| - 1]);
      if Enabled(s, step) {
        StepKeepsInv(throttleMs, s, step);
      }
    }
  }

  lemma InitialInv(throttleMs: nat)
    ensures Inv(throttleMs, INITIAL)
  {
  }

  // ---------- what the documentation promises ----------

  /** Process runs are never concurrent and start in the order they were requested; scheduled runs start at least the
    * throttle time after any earlier run restarted the throttle. */
  lemma NeverConcurrentAndThrottled(throttleMs: nat, steps: seq<Step>)
    requires DisciplinedRun(throttleMs, steps)
    ensures var runs := After(throttleMs, steps).runs;
      && (forall i, j :: 0 <= i < j < |runs| && runs[i].status.Active? ==> runs[j].status.Waiting?)
      && (forall i, j :: 0 <= i < j < |runs| && !runs[j].status.Waiting? ==> runs[i].status.Done?)
      && (forall i, j :: 0 <= i < j < |runs| && !runs[j].immediate ==>
            runs[i].throttledFrom + throttleMs <= runs[j].throttledFrom)
  {
    DisciplinedInv(throttleMs, steps);
  }

  /** Every `schedule()` promise is settled by a run requested after the call, or by aborting, or it is still held for
    * a run to come. */
  lemma PromisesAreKept(throttleMs: nat, steps: seq<Step>, c: Call)
    requires DisciplinedRun(throttleMs, steps) && c in After(throttleMs, steps).calls
    ensures var s := After(throttleMs, steps);
      if c.promise in s.settled
      then s.settled[c.promise].SettledBy? ==> c.runsBefore <= s.settled[c.promise].run < |s.runs|
      else Held(s, c.promise) && (s.scheduled == Some(c.promise) ==> exists t: nat :: TaskWaits(s, t))
  {
    DisciplinedInv(throttleMs, steps);
  }

  /** After an abort no process starts any more, and no promise is accepted. */
  lemma NothingStartsAfterAbort(throttleMs: nat, steps: seq<Step>, step: Step)
    requires After(throttleMs, steps).aborted && Enabled(After(throttleMs, steps), step)
    ensures var s := After(throttleMs, steps); var s' := Stepped(throttleMs, s, step);
      && s'.aborted && s'.promises == s.promises
      && forall r :: 0 <= r < |s'.runs| && s'.runs[r].status.Active? ==> r < |s.runs| && s.runs[r].status.Active?
  {
    AbortedScheduler(throttleMs, steps);
  }

  lemma {:induction false} AbortedScheduler(throttleMs: nat, steps: seq<Step>)
    ensures var s := After(throttleMs, steps); s.aborted ==> s.scheduled.None? && s.runResolver.None?
    decreases |steps|
  {
    if steps != [] {
      AbortedScheduler(throttleMs, steps[..|steps| - 1]);
    }
  }

  /** Without immediate runs every run of the steps is disciplined. */
  lemma {:induction false} ScheduleOnlyIsDisciplined(throttleMs: nat, steps: seq<Step>)
    requires forall step :: step in steps ==> !step.RunNow?
    ensures DisciplinedRun(throttleMs, steps)
    ensures var s := After(throttleMs, steps); forall t: nat :: TaskWaits(s, t) && !s.aborted ==> s.scheduled.Some?
    decreases |steps|
  {
    if steps != [] {
      var before, step := steps[..|steps| - 1], steps[|steps| - 1];
      assert step in steps && forall x :: x in before ==> x in steps;
      ScheduleOnlyIsDisciplined(throttleMs, before);
      DisciplinedInv(throttleMs, before);
      if Enabled(After(throttleMs, before), step) {
        ScheduleOnlyStep(throttleMs, After(throttleMs, before), step);
      }
    }
  }

  lemma ScheduleOnlyStep(throttleMs: nat, s: State, step: Step)
    requires Enabled(s, step) && !step.RunNow? && TasksOk(s)
    requires forall t: nat :: TaskWaits(s, t) && !s.aborted ==> s.scheduled.Some?
    ensures var s' := Stepped(throttleMs, s, step);
      forall t: nat :: TaskWaits(s', t) && !s'.aborted ==> s'.scheduled.Some?
  {
    var s' := Stepped(throttleMs, s, step);
    forall t: nat | TaskWaits(s', t) && !s'.aborted ensures s'.scheduled.Some? {
      if t < |s.tasks| {
        assert TaskWaits(s, t);
        if step.IdleAwaited? { assert TaskWaits(s, step.task); }
      }
    }
  }

  // ---------- what an undisciplined run can do ----------

  const TAKE_OVER: seq<Step> := [] + [Schedule] + [RunAwaited(0)] + [ThrottleAwaited(0)] + [RunNow]

  const STEAL: seq<Step> := TAKE_OVER + [ImmediateStart(0)] + [Schedule] + [IdleAwaited(0)]

  lemma AfterStep(throttleMs: nat, steps: seq<Step>, step: Step)
    requires Enabled(After(throttleMs, steps), step)
    ensures After(throttleMs, steps + [step]) == Stepped(throttleMs, After(throttleMs, steps), step)
  {
    assert (steps + [step])[..|steps|] == steps;
  }

  lemma TakenOver(throttleMs: nat)
    ensures After(throttleMs, TAKE_OVER)
         == State(0, false, None, None, [Run(Waiting, true, Some(0), 0, None)], throttleMs, [AwaitIdle], 1,
           [Call(0, 0)], map[])
  {
    AfterStep(throttleMs, [], Schedule);
    AfterStep(throttleMs, [] + [Schedule], RunAwaited(0));
    AfterStep(throttleMs, [] + [Schedule] + [RunAwaited(0)], ThrottleAwaited(0));
    AfterStep(throttleMs, [] + [Schedule] + [RunAwaited(0)] + [ThrottleAwaited(0)], RunNow);
  }

  /** `schedule()` after an immediate run took over the earlier promise: the earlier task, still waiting for idle time,
    * takes the new promise and starts the process while the immediate run is active. */
  lemma RunsCanOverlap(throttleMs: nat)
    ensures var s := After(throttleMs, STEAL);
      |s.runs| == 2 && s.runs[0].status.Active? && s.runs[1].status.Active?
    ensures !DisciplinedRun(throttleMs, STEAL)
  {
    hide After, DisciplinedRun;
    TakenOver(throttleMs);
    AfterStep(throttleMs, TAKE_OVER, ImmediateStart(0));
    AfterStep(throttleMs, TAKE_OVER + [ImmediateStart(0)], Schedule);
    AfterStep(throttleMs, TAKE_OVER + [ImmediateStart(0)] + [Schedule], IdleAwaited(0));
    if DisciplinedRun(throttleMs, STEAL) {
      NeverConcurrentAndThrottled(throttleMs, STEAL);
    }
  }

  // ---------- the discipline is needed ----------

  predicate Overlapping(runs: seq<Run>) {
    exists i, j :: 0 <= i < j < |runs| && runs[i].status.Active? && runs[j].status.Active?
  }

  lemma {:induction false} WaitedRunsExist(throttleMs: nat, steps: seq<Step>)
    ensures var s := After(throttleMs, steps); forall task :: task in s.tasks && task.AwaitRun? ==> task.run < |s.runs|
    decreases |steps|
  {
    if steps != [] {
      WaitedRunsExist(throttleMs, steps[..|steps| - 1]);
    }
  }

  /** No run was started for the promise, and nothing can settle it except a run to come. */
  ghost predicate Fresh(s: State, p: Promise) {
    && p !in s.settled && s.runResolver != Some(p)
    && forall r :: 0 <= r < |s.runs| ==> s.runs[r].promise != Some(p)
  }

  /** What stays while the requested runs finish and tasks wake up. */
  ghost predicate SameSchedule(s: State, s': State, p: Promise) {
    && !s'.aborted && s'.scheduled == s.scheduled && s'.promises == s.promises && Fresh(s', p)
  }

  /** All requested runs can be finished. */
  lemma {:induction false} FinishRuns(throttleMs: nat, steps: seq<Step>, n: nat, p: Promise) returns (steps': seq<Step>)
    requires var s := After(throttleMs, steps);
      && !s.aborted && n <= |s.runs| && Fresh(s, p)
      && forall r :: 0 <= r < n ==> s.runs[r].status.Done?
    ensures steps <= steps'
    ensures var s, s' := After(throttleMs, steps), After(throttleMs, steps');
      SameSchedule(s, s', p) && s'.tasks == s.tasks && |s'.runs| == |s.runs| && AllDone(s'.runs)
    decreases |After(throttleMs, steps).runs| - n
  {
    hide After;
    var s := After(throttleMs, steps);
    steps' := steps;
    if n < |s.runs| {
      if s.runs[n].status.Waiting? {
        AfterStep(throttleMs, steps, ImmediateStart(n));
        steps' := steps + [ImmediateStart(n)];
      }
      if After(throttleMs, steps').runs[n].status.Active? {
        AfterStep(throttleMs, steps', ProcessEnds(n));
        steps' := steps' + [ProcessEnds(n)];
      }
      steps' := FinishRuns(throttleMs, steps', n + 1, p);
    }
  }

  /** A waiting task can get to its wait for idle time. */
  lemma ReachIdle(throttleMs: nat, steps: seq<Step>, t: nat, p: Promise) returns (steps': seq<Step>)
    requires var s := After(throttleMs, steps);
      && !s.aborted && s.scheduled.Some? && Fresh(s, p) && AllDone(s.runs) && TaskWaits(s, t)
    ensures steps <= steps'
    ensures var s, s' := After(throttleMs, steps), After(throttleMs, steps');
      SameSchedule(s, s', p) && s'.tasks == s.tasks[t := AwaitIdle] && s'.runs == s.runs
  {
    WaitedRunsExist(throttleMs, steps);
    hide After;
    var s := After(throttleMs, steps);
    assert s.tasks[t] in s.tasks;
    steps' := steps;
    if s.tasks[t].AwaitRun? {
      AfterStep(throttleMs, steps, RunAwaited(t));
      steps' := steps + [RunAwaited(t)];
    }
    var waiting := After(throttleMs, steps').tasks[t];
    if waiting.AwaitThrottle? {
      AfterStep(throttleMs, steps', Tick(waiting.until));
      AfterStep(throttleMs, steps' + [Tick(waiting.until)], ThrottleAwaited(t));
      steps' := steps' + [Tick(waiting.until)] + [ThrottleAwaited(t)];
    }
  }

  /** Two tasks in their wait for idle time start two runs at once; the first one's promise is overwritten. */
  lemma IdleTasksOverlap(throttleMs: nat, steps: seq<Step>, t: nat, u: nat, p: Promise) returns (steps': seq<Step>)
    requires var s := After(throttleMs, steps);
      && !s.aborted && s.scheduled == Some(p) && p < s.promises && Fresh(s, p)
      && t < u < |s.tasks| && s.tasks[t].AwaitIdle? && s.tasks[u].AwaitIdle?
    ensures steps <= steps'
    ensures Overlapping(After(throttleMs, steps').runs) && Lost(After(throttleMs, steps'), p)
  {
    hide After;
    var s := After(throttleMs, steps);
    AfterStep(throttleMs, steps, IdleAwaited(t));
    AfterStep(throttleMs, steps + [IdleAwaited(t)], Schedule);
    AfterStep(throttleMs, steps + [IdleAwaited(t)] + [Schedule], IdleAwaited(u));
    steps' := steps + [IdleAwaited(t)] + [Schedule] + [IdleAwaited(u)];
    var runs := After(throttleMs, steps').runs;
    assert runs[|s.runs|].status.Active? && runs[|s.runs| + 1].status.Active?;
  }

  /** The promise exists, has not been settled, and nothing holds it. */
  ghost predicate Lost(s: State, p: Promise) {
    p < s.promises && p !in s.settled && !Held(s, p)
  }

  ghost predicate WaitingAreImmediate(runs: seq<Run>) {
    forall r :: 0 <= r < |runs| && runs[r].status.Waiting? ==> runs[r].immediate
  }

  lemma {:induction false} OnlyImmediateWait(throttleMs: nat, steps: seq<Step>)
    ensures WaitingAreImmediate(After(throttleMs, steps).runs)
    decreases |steps|
  {
    if steps != [] {
      OnlyImmediateWait(throttleMs, steps[..|steps| - 1]);
    }
  }

  /** A promise that was given out before the step and is held after it was held before it. */
  lemma HeldWasHeld(throttleMs: nat, s: State, step: Step, p: Promise)
    requires Enabled(s, step) && p < s.promises && Held(Stepped(throttleMs, s, step), p)
    ensures Held(s, p)
  {
    var s' := Stepped(throttleMs, s, step);
    if r :| 0 <= r < |s'.runs| && s'.runs[r].immediate && !s'.runs[r].status.Done? && s'.runs[r].promise == Some(p) {
      if r < |s.runs| {
        assert s.runs[r].immediate && !s.runs[r].status.Done? && s.runs[r].promise == Some(p);
      }
    }
  }

  lemma SettledWasHeld(throttleMs: nat, s: State, step: Step, p: Promise)
    requires WaitingAreImmediate(s.runs) && Enabled(s, step)
    requires p !in s.settled && p in Stepped(throttleMs, s, step).settled
    ensures Held(s, p)
  {
  }

  /** No step settles a lost promise, or holds it again. */
  lemma LostStaysLost(throttleMs: nat, s: State, step: Step, p: Promise)
    requires WaitingAreImmediate(s.runs) && Enabled(s, step) && Lost(s, p)
    ensures Lost(Stepped(throttleMs, s, step), p)
  {
    hide Held;
    var s' := Stepped(throttleMs, s, step);
    if Held(s', p) { HeldWasHeld(throttleMs, s, step, p); }
    if p in s'.settled { SettledWasHeld(throttleMs, s, step, p); }
  }

  lemma {:induction false} LostForever(throttleMs: nat, steps: seq<Step>, more: seq<Step>, p: Promise)
    requires Lost(After(throttleMs, steps), p)
    ensures Lost(After(throttleMs, steps + more), p)
    decreases |more|
  {
    hide Lost, Stepped, Enabled;
    if more == [] {
      assert steps + more == steps;
    } else {
      var before, step := more[..|more| - 1], more[|more| - 1];
      assert (steps + more)[..|steps + more| - 1] == steps + before && (steps + more)[|steps + more| - 1] == step;
      LostForever(throttleMs, steps, before, p);
      OnlyImmediateWait(throttleMs, steps + before);
      if Enabled(After(throttleMs, steps + before), step) {
        LostStaysLost(throttleMs, After(throttleMs, steps + before), step, p);
      }
    }
  }

  /** The discipline is as weak as it can be: after any disciplined run, an undisciplined call of `schedule()`, which
    * returns the next promise, can be followed by steps after which two process runs are active at once and that
    * promise is not settled by anything that may follow. */
  lemma DisciplineIsNeeded(throttleMs: nat, steps: seq<Step>) returns (steps': seq<Step>, p: Promise)
    requires DisciplinedRun(throttleMs, steps) && !Disciplined(After(throttleMs, steps), Schedule)
    ensures p == After(throttleMs, steps).promises && After(throttleMs, steps + [Schedule]).scheduled == Some(p)
    ensures steps + [Schedule] <= steps' && Overlapping(After(throttleMs, steps').runs)
    ensures forall more :: p !in After(throttleMs, steps' + more).settled
  {
    DisciplinedInv(throttleMs, steps);
    var s := After(throttleMs, steps);
    var t: nat :| TaskWaits(s, t);
    var u := |s.tasks|;
    p := s.promises;
    hide After, DisciplinedRun, TasksOk, Throttled, ThrottledInPast, OneAtATime, NothingLost;
    AfterStep(throttleMs, steps, Schedule);
    steps' := steps + [Schedule];
    assert Fresh(s, p);
    steps' := FinishRuns(throttleMs, steps', 0, p);
    hide Fresh, AllDone, Held;
    steps' := ReachIdle(throttleMs, steps', t, p);
    steps' := ReachIdle(throttleMs, steps', u, p);
    steps' := IdleTasksOverlap(throttleMs, steps', t, u, p);
    forall more ensures p !in After(throttleMs, steps' + more).settled {
      LostForever(throttleMs, steps', more, p);
    }
  }

  // ---------- what the steps mean ----------

  lemma UnsettledScheduled(throttleMs: nat, s: State)
    requires Inv(throttleMs, s) && s.scheduled.Some?
    ensures s.scheduled.value !in s.settled && Held(s, s.scheduled.value)
  {
  }

  lemma ScheduleMeans(throttleMs: nat, s: State)
    requires Inv(throttleMs, s) && !s.aborted
    ensures var s' := Stepped(throttleMs, s, Schedule);
      && s'.scheduled.Some? && (s.scheduled.Some? ==> s'.scheduled == s.scheduled) && s'.runs == s.runs
      && s'.scheduled.value !in s'.settled && Held(s', s'.scheduled.value)
      && Call(s'.scheduled.value, |s.runs|) in s'.calls
      && forall r :: 0 <= r < |s.runs| ==> s.runs[r].promise != s'.scheduled
  {
    if s.scheduled.Some? { UnsettledScheduled(throttleMs, s); }
    NextPromiseUnsettled(s);
  }

  lemma NextPromiseUnsettled(s: State)
    requires PromisesOk(s) && SettledOk(s) && AbortsOk(s) && !s.aborted
    ensures s.promises !in s.settled
  {
  }

  lemma RunMeans(throttleMs: nat, s: State)
    requires Inv(throttleMs, s) && !s.aborted
    ensures var s' := Stepped(throttleMs, s, RunNow);
      && (s.scheduled.Some? ==> s.scheduled.value !in s'.settled && Held(s', s.scheduled.value))
      && (forall c :: c in s.calls && s.scheduled == Some(c.promise) ==> c.runsBefore <= |s.runs|)
  {
    var s' := Stepped(throttleMs, s, RunNow);
    if s.scheduled.Some? {
      UnsettledScheduled(throttleMs, s);
      assert s'.runs[|s.runs|].promise == s.scheduled;
    }
  }

  /** A run that becomes active is the only active one. */
  lemma StartMeans(throttleMs: nat, s: State, step: Step, r: nat)
    requires Inv(throttleMs, s) && Enabled(s, step) && (step.ImmediateStart? || step.IdleAwaited?)
    requires var s' := Stepped(throttleMs, s, step); r < |s'.runs| && s'.runs[r].status.Active?
    ensures var s' := Stepped(throttleMs, s, step);
      forall i :: 0 <= i < |s'.runs| && s'.runs[i].status.Active? ==> i == r
  {
    hide TasksOk, Throttled, ThrottledInPast, ResolverOk, PromisesOk, CallsOk, SettledOk, AbortsOk, NothingLost;
    StepKeepsOrder(throttleMs, s, step);
  }

  /** After an abort every promise is settled, except those that immediate runs have taken over. */
  lemma AbortMeans(throttleMs: nat, s: State, p: Promise)
    requires Inv(throttleMs, s) && p < s.promises
    ensures var s' := Stepped(throttleMs, s, Abort);
      p in s'.settled
      || exists r ::
           0 <= r < |s'.runs| && s'.runs[r].immediate && !s'.runs[r].status.Done? && s'.runs[r].promise == Some(p)
  {
    assert p in s.settled || Held(s, p);
  }

  /** A task that goes on for a scheduled promise does so when no process is running, and finally after the throttle. */
  lemma TaskMeans(throttleMs: nat, s: State, step: Step, t: nat)
    requires Inv(throttleMs, s) && Enabled(s, step) && s.scheduled.Some?
    requires step == RunAwaited(t) || step == ThrottleAwaited(t)
    ensures AllDone(s.runs)
    ensures step.RunAwaited? ==> Stepped(throttleMs, s, step).tasks[t] == AwaitThrottle(s.throttleUntil)
    ensures step.ThrottleAwaited? ==> Stepped(throttleMs, s, step).tasks[t] == AwaitIdle && s.throttleUntil <= s.now
  {
    hide Throttled, ThrottledInPast, ResolverOk, PromisesOk, CallsOk, SettledOk, AbortsOk, NothingLost;
    assert TaskWaits(s, t);
  }

  lemma IdleMeans(throttleMs: nat, s: State, t: nat)
    requires Inv(throttleMs, s) && Enabled(s, IdleAwaited(t)) && s.scheduled.Some?
    ensures AllDone(s.runs) && forall r :: 0 <= r < |s.runs| ==> s.runs[r].throttledFrom + throttleMs <= s.now
  {
    hide ThrottledInPast, ResolverOk, PromisesOk, CallsOk, SettledOk, AbortsOk, NothingLost;
    assert TaskWaits(s, t);
  }

  /** A finished run settles the promise it was handed, unless an abort has done so. */
  lemma EndMeans(throttleMs: nat, s: State, r: nat)
    requires Inv(throttleMs, s) && Enabled(s, ProcessEnds(r)) && s.runs[r].promise.Some?
      && s.runs[r].promise.value !in s.settled
    ensures var settled := Stepped(throttleMs, s, ProcessEnds(r)).settled;
      settled == s.settled[s.runs[r].promise.value := SettledBy(r)]
  {
    hide TasksOk, Throttled, ThrottledInPast, CallsOk, SettledOk, AbortsOk;
    var p := s.runs[r].promise.value;
    assert p in s.settled || Held(s, p);
  }

  // ---------- the scheduler object ----------

  /** The resolver fields and the throttle of the object, the suspended async calls as `runs` and `tasks`, and what its
    * callers have been given. */
  class Scheduler {
    const throttleMs: nat
    var now: nat
    var aborted: bool
    var scheduledResolver: Option<Promise>
    var runResolver: Option<Promise>
    var runs: seq<Run>
    var throttleUntil: nat
    var tasks: seq<Task>
    var promises: nat
    var calls: seq<Call>
    var settled: map<Promise, Outcome>

    function View(): State
      reads this
    {
      State(now, aborted, scheduledResolver, runResolver, runs, throttleUntil, tasks, promises, calls, settled)
    }

    /** The invariant of disciplined runs.  No method demands it; each says what it gives a caller who has it. */
    ghost predicate Valid()
      reads this
    {
      Inv(throttleMs, View())
    }

    constructor (throttleMs: nat)
      ensures Valid() && View() == INITIAL && this.throttleMs == throttleMs
    {
      this.throttleMs := throttleMs;
      now, aborted, scheduledResolver, runResolver, runs := 0, false, None, None, [];
      throttleUntil, tasks, promises, calls, settled := 0, [], 0, [], map[];
      new;
      InitialInv(throttleMs);
    }

    /** Returns the promise, or nothing if it is rejected at once.  The promise is not settled yet, it is held for a run
      * to come, and no run so far was requested for it. */
    method ScheduleCall() returns (promise: Option<Promise>)
      modifies this
      ensures View() == Stepped(throttleMs, old(View()), Schedule)
      ensures old(Valid() && Disciplined(View(), Schedule)) ==> Valid()
      ensures if aborted then promise == None && View() == old(View())
              else promise == scheduledResolver && promise.Some?
      ensures old(scheduledResolver).Some? && !aborted ==> promise == old(scheduledResolver) && tasks == old(tasks)
      ensures old(Valid()) && promise.Some? ==>
        && promise.value !in settled && Held(View(), promise.value) && Call(promise.value, |runs|) in calls
        && forall r :: 0 <= r < |runs| ==> runs[r].promise != promise
    {
      ghost var s := View();
      if Inv(throttleMs, s) && !aborted { ScheduleMeans(throttleMs, s); }
      if Inv(throttleMs, s) && Disciplined(s, Schedule) { StepKeepsInv(throttleMs, s, Schedule); }
      hide Inv, Disciplined, Held;
      if aborted {
        return None;
      }
      if scheduledResolver.Some? {
        calls := calls + [Call(scheduledResolver.value, |runs|)];
        return scheduledResolver;
      }
      scheduledResolver := Some(promises);
      promises := promises + 1;
      calls := calls + [Call(promises - 1, |runs|)];
      tasks := tasks + [AwaitRun(|runs| - 1)];
      return scheduledResolver;
    }

    /** The part of `run` before its first suspension; returns the promise it took over, which is still held, now by a
      * run that was requested after all calls that got it. */
    method RunCall() returns (resolverToResolve: Option<Promise>)
      modifies this
      ensures View() == Stepped(throttleMs, old(View()), RunNow)
      ensures old(Valid()) ==> Valid()
      ensures resolverToResolve == if aborted then None else old(scheduledResolver)
      ensures old(Valid()) && resolverToResolve.Some? ==>
        && scheduledResolver == None && resolverToResolve.value !in settled && Held(View(), resolverToResolve.value)
        && forall c :: c in calls && resolverToResolve == Some(c.promise) ==> c.runsBefore < |runs|
    {
      ghost var s := View();
      if Inv(throttleMs, s) {
        StepKeepsInv(throttleMs, s, RunNow);
        if !aborted { RunMeans(throttleMs, s); }
      }
      hide Inv, Held;
      if aborted {
        return None;
      }
      resolverToResolve := scheduledResolver;
      scheduledResolver := None;
      runs := runs + [Run(Waiting, true, resolverToResolve, now, None)];
      throttleUntil := now + throttleMs;
    }

    /** `runTask` once the previous run has finished; returns whether the process is called.  It is then the only
      * process running; otherwise the promise the run took over is settled. */
    method RunTask(r: nat) returns (start: bool)
      requires Enabled(View(), ImmediateStart(r))
      modifies this
      ensures View() == Stepped(throttleMs, old(View()), ImmediateStart(r)) && start == !aborted
      ensures old(Valid()) ==> Valid()
      ensures !start && runs[r].promise.Some? ==> runs[r].promise.value in settled
      ensures old(Valid()) && start ==> forall i :: 0 <= i < |runs| ==> (runs[i].status.Active? <==> i == r)
    {
      ghost var s := View();
      if Inv(throttleMs, s) {
        StepKeepsInv(throttleMs, s, ImmediateStart(r));
        if !aborted { StartMeans(throttleMs, s, ImmediateStart(r), r); }
      }
      hide Inv;
      start := !aborted;
      if aborted {
        settled := Settle(settled, runs[r].promise, Aborted);
        runs := runs[r := runs[r].(status := Done)];
      } else {
        runs := runs[r := runs[r].(status := Active, startedAt := Some(now))];
      }
    }

    /** Every promise is settled now, except those that immediate runs have taken over. */
    method AbortEvent()
      modifies this
      ensures View() == Stepped(throttleMs, old(View()), Abort)
      ensures old(Valid()) ==> Valid()
      ensures old(Valid()) ==> forall p: Promise :: p < promises ==>
        || p in settled
        || exists r :: 0 <= r < |runs| && runs[r].immediate && !runs[r].status.Done? && runs[r].promise == Some(p)
    {
      ghost var s := View();
      if Inv(throttleMs, s) {
        StepKeepsInv(throttleMs, s, Abort);
        forall p: Promise | p < s.promises { AbortMeans(throttleMs, s, p); }
      }
      hide Inv;
      aborted := true;
      settled := Settle(Settle(settled, runResolver, Aborted), scheduledResolver, Aborted);
      runResolver := None;
      scheduledResolver := None;
    }

    /** If a promise is scheduled, no process is running, and the task waits for the throttle of the latest run. */
    method RunPromiseAwaited(t: nat)
      requires Enabled(View(), RunAwaited(t))
      modifies this
      ensures View() == Stepped(throttleMs, old(View()), RunAwaited(t))
      ensures old(Valid()) ==> Valid()
      ensures old(Valid()) && scheduledResolver.Some? ==>
        AllDone(runs) && forall r :: 0 <= r < |runs| ==> runs[r].throttledFrom + throttleMs <= tasks[t].until
    {
      ghost var s := View();
      if Inv(throttleMs, s) {
        StepKeepsInv(throttleMs, s, RunAwaited(t));
        if scheduledResolver.Some? { TaskMeans(throttleMs, s, RunAwaited(t), t); }
        assert Throttled(throttleMs, s);
      }
      hide Inv;
      tasks := tasks[t := AwaitThrottle(throttleUntil)];
    }

    /** The task goes on exactly if a promise is scheduled; then no process is running and the throttle is over. */
    method ThrottlePromiseAwaited(t: nat)
      requires Enabled(View(), ThrottleAwaited(t))
      modifies this
      ensures View() == Stepped(throttleMs, old(View()), ThrottleAwaited(t))
      ensures old(Valid()) ==> Valid()
      ensures TaskWaits(View(), t) <==> scheduledResolver.Some?
      ensures old(Valid()) && scheduledResolver.Some? ==>
        AllDone(runs) && forall r :: 0 <= r < |runs| ==> runs[r].throttledFrom + throttleMs <= now
    {
      ghost var s := View();
      if Inv(throttleMs, s) {
        StepKeepsInv(throttleMs, s, ThrottleAwaited(t));
        if scheduledResolver.Some? { TaskMeans(throttleMs, s, ThrottleAwaited(t), t); }
        assert Throttled(throttleMs, s);
      }
      hide Inv;
      if scheduledResolver.None? {
        tasks := tasks[t := Exited];
        return;
      }
      tasks := tasks[t := AwaitIdle];
    }

    /** Returns whether the process is called.  If so it is the only one running, and the throttle time has passed since
      * every earlier run restarted the throttle. */
    method RequestIdleAwaited(t: nat) returns (start: bool)
      requires Enabled(View(), IdleAwaited(t))
      modifies this
      ensures View() == Stepped(throttleMs, old(View()), IdleAwaited(t)) && start == old(scheduledResolver).Some?
      ensures old(Valid()) ==> Valid()
      ensures old(Valid()) && start ==>
        && |runs| > 0 && runs[|runs| - 1].status.Active? && runs[|runs| - 1].promise == old(scheduledResolver)
        && AllDone(runs[..|runs| - 1])
        && forall r :: 0 <= r < |runs| - 1 ==> runs[r].throttledFrom + throttleMs <= now
    {
      ghost var s := View();
      if Inv(throttleMs, s) {
        StepKeepsInv(throttleMs, s, IdleAwaited(t));
        if scheduledResolver.Some? { IdleMeans(throttleMs, s, t); }
      }
      hide Inv;
      tasks := tasks[t := Exited];
      if scheduledResolver.None? {
        return false;
      }
      throttleUntil := now + throttleMs;
      runResolver := scheduledResolver;
      scheduledResolver := None;
      runs := runs + [Run(Active, false, runResolver, now, Some(now))];
      return true;
    }

    /** The run settles the promise it was handed, unless an abort has done so, and no other. */
    method ProcessEnded(r: nat)
      requires Enabled(View(), ProcessEnds(r))
      modifies this
      ensures View() == Stepped(throttleMs, old(View()), ProcessEnds(r))
      ensures old(Valid()) ==> Valid()
      ensures old(Valid()) && runs[r].promise.Some? && runs[r].promise.value !in old(settled) ==>
        settled == old(settled)[runs[r].promise.value := SettledBy(r)]
    {
      ghost var s := View();
      if Inv(throttleMs, s) {
        StepKeepsInv(throttleMs, s, ProcessEnds(r));
        if runs[r].promise.Some? && runs[r].promise.value !in settled { EndMeans(throttleMs, s, r); }
      }
      hide Inv;
      if runs[r].immediate {
        settled := Settle(settled, runs[r].promise, SettledBy(r));
      } else {
        settled := Settle(settled, runResolver, SettledBy(r));
        runResolver := None;
      }
      runs := runs[r := runs[r].(status := Done)];
    }

    method Perform(step: Step)
      requires Enabled(View(), step)
      modifies this
      ensures View() == Stepped(throttleMs, old(View()), step)
    {
      hide Inv, Held, Disciplined, AllDone;
      match step {
        case Schedule => var promise := ScheduleCall();
        case RunNow => var taken := RunCall();
        case Tick(ms) => now := now + ms;
        case Abort => AbortEvent();
        case RunAwaited(t) => RunPromiseAwaited(t);
        case ThrottleAwaited(t) => ThrottlePromiseAwaited(t);
        case IdleAwaited(t) => var start := RequestIdleAwaited(t);
        case ImmediateStart(r) => var start := RunTask(r);
        case ProcessEnds(r) => ProcessEnded(r);
      }
    }

    /** Whatever its callers, the timers and the process do, a new object goes through the states of the specification,
      * and if the calls are disciplined all of them keep the invariant. */
    method Drive(steps: seq<Step>)
      requires View() == INITIAL
      modifies this
      ensures View() == After(throttleMs, steps)
      ensures DisciplinedRun(throttleMs, steps) ==> Valid()
    {
      hide Inv, Stepped, Enabled, DisciplinedRun;
      for i := 0 to |steps|
        invariant View() == After(throttleMs, steps[..i])
      {
        assert steps[..i + 1][..i] == steps[..i];
        if Enabled(View(), steps[i]) {
          Perform(steps[i]);
        }
      }
      assert steps[..|steps|] == steps;
      if DisciplinedRun(throttleMs, steps) { DisciplinedInv(throttleMs, steps); }
    }
  }
}
