/** Why the connection loop starts a request: each one has a call, a failure or a watchdog's alarm of its own. */
module RequestReasons {
  import opened ConnectionLoop

  // ---------- requests and reasons ----------

  /** One more request is in flight after the step. */
  predicate Starts(c: Settings, s: State, step: Step)
    requires Enabled(c, s, step)
  {
    Stepped(c, s, step).inFlight > s.inFlight
  }

  /** The step is a reason for a request: a call that is not kept waiting for the document, the document becoming
    * visible for a call, a request that fails, or the watchdog waking the loop without any of them. */
  predicate IsReason(s: State, step: Step) {
    !s.closed &&
    match step
    case Send(_, now) => now
    case BecomeVisible(_) => true
    case FinishSend(ok, _) => !ok
    case WakePending => !s.pendingResolved
    case _ => false
  }

  /** How many requests a run has started. */
  function Started(c: Settings, s: State, steps: seq<Step>): nat {
    if steps == [] then 0 else
      var before, step := steps[..|steps| - 1], steps[|steps| - 1];
      var t := After(c, s, before);
      Started(c, s, before) + if Enabled(c, t, step) && Starts(c, t, step) then 1 else 0
  }

  /** How many reasons a run has had. */
  function Reasons(c: Settings, s: State, steps: seq<Step>): nat {
    if steps == [] then 0 else
      var before, step := steps[..|steps| - 1], steps[|steps| - 1];
      var t := After(c, s, before);
      Reasons(c, s, before) + if Enabled(c, t, step) && IsReason(t, step) then 1 else 0
  }

  /** The requests that the open loop is still to start: one if it is on its way, and one for the pending flag, which
    * the debounce will take up. */
  function Due(s: State): nat {
    if s.closed then 0
    else (if s.pc.Debounce? || s.pc.WaitConnection? || s.pc.Delay? then 1 else 0)
         + if s.pendingResolved && !s.pc.Debounce? then 1 else 0
  }

  lemma StepNeedsReason(c: Settings, s: State, step: Step)
    requires Enabled(c, s, step)
    ensures Due(Stepped(c, s, step)) + (if Starts(c, s, step) then 1 else 0)
         <= Due(s) + if IsReason(s, step) then 1 else 0
  {
  }

  /** A run starts at most as many requests as were due and as it has reasons for, less what is due at its end. */
  lemma {:induction false} RequestsNeedReasons(c: Settings, s: State, steps: seq<Step>)
    ensures Started(c, s, steps) + Due(After(c, s, steps)) <= Due(s) + Reasons(c, s, steps)
    decreases |steps|
  {
    hide Stepped, Enabled, Due, Starts, IsReason;
    if steps != [] {
      var before, step := steps[..|steps| - 1], steps[|steps| - 1];
      RequestsNeedReasons(c, s, before);
      if Enabled(c, After(c, s, before), step) {
        StepNeedsReason(c, After(c, s, before), step);
      }
    }
  }

  /** So every run from the start has at most as many requests as immediate calls, calls that became visible, failures
    * and alarms. */
  lemma NoRequestWithoutReason(c: Settings, steps: seq<Step>)
    ensures Started(c, INITIAL, steps) <= Reasons(c, INITIAL, steps)
  {
    RequestsNeedReasons(c, INITIAL, steps);
  }

  // ---------- when the loop sleeps ----------

  predicate IsWakeup(step: Step) {
    step.WakePending? || step.WakeDebounce? || step.WakeConnection? || step.WakeDelay?
  }

  /** The loop waits for a call, and there has been none since it last took calls up. */
  predicate Asleep(s: State) {
    s.pc.Pending? && !s.pendingResolved
  }

  /** Nothing is due to the open loop exactly if it sleeps.  Then only the watchdog can wake it; otherwise a wakeup is
    * possible, now or when a connection is free. */
  lemma AsleepIff(c: Settings, s: State)
    requires c.maxConnections >= 1 && Inv(c, s) && !s.closed
    ensures Asleep(s) <==> Due(s) == 0
    ensures Asleep(s) ==> forall step :: IsWakeup(step) && Enabled(c, s, step) ==> c.hasWatchdog && step.WakePending?
    ensures !Asleep(s) ==> (exists step :: IsWakeup(step) && Enabled(c, s, step)) || s.waitingForConnection
  {
    if s.pc.Pending? && s.pendingResolved { assert Enabled(c, s, WakePending) && IsWakeup(WakePending); }
    if s.pc.Debounce? { assert Enabled(c, s, WakeDebounce) && IsWakeup(WakeDebounce); }
    if s.pc.WaitConnection? && !s.waitingForConnection {
      assert Enabled(c, s, WakeConnection) && IsWakeup(WakeConnection);
    }
    if s.pc.Delay? { assert Enabled(c, s, WakeDelay) && IsWakeup(WakeDelay); }
  }

  /** A loop that sleeps sleeps on and starts nothing, however many of its requests succeed and whoever returns, until
    * there is a reason. */
  lemma {:induction false} SleepsUntilReason(c: Settings, s: State, steps: seq<Step>)
    requires Asleep(s) && !s.closed && Reasons(c, s, steps) == 0
    ensures var t := After(c, s, steps); t.closed || Asleep(t)
    ensures Started(c, s, steps) == 0
    decreases |steps|
  {
    RequestsNeedReasons(c, s, steps);
    if steps != [] {
      hide Stepped, Enabled, IsReason, Starts;
      var before, step := steps[..|steps| - 1], steps[|steps| - 1];
      SleepsUntilReason(c, s, before);
      if Enabled(c, After(c, s, before), step) {
        StepSleepsOn(c, After(c, s, before), step);
      }
    }
  }

  lemma StepSleepsOn(c: Settings, s: State, step: Step)
    requires Enabled(c, s, step) && !IsReason(s, step) && (s.closed || Asleep(s))
    ensures var t := Stepped(c, s, step); t.closed || Asleep(t)
  {
  }

  /** Once the loop is closed it stays closed and starts nothing, whatever happens. */
  lemma {:induction false} ClosedStartsNothing(c: Settings, s: State, steps: seq<Step>)
    requires s.closed
    ensures Started(c, s, steps) == 0 && After(c, s, steps).closed && After(c, s, steps).inFlight <= s.inFlight
    decreases |steps|
  {
    if steps != [] {
      hide Stepped, Enabled, Starts;
      var before, step := steps[..|steps| - 1], steps[|steps| - 1];
      ClosedStartsNothing(c, s, before);
      if Enabled(c, After(c, s, before), step) {
        ClosedStep(c, After(c, s, before), step);
      }
    }
  }

  lemma ClosedStep(c: Settings, s: State, step: Step)
    requires Enabled(c, s, step) && s.closed
    ensures var t := Stepped(c, s, step); t.closed && t.inFlight <= s.inFlight && !Starts(c, s, step)
  {
  }

  /** The next wakeup of the closed loop ends it for good. */
  lemma ClosedLoopEnds(c: Settings, s: State, step: Step)
    requires s.closed && Enabled(c, s, step)
    ensures IsWakeup(step) || s.pc.Stopped? ==> Stepped(c, s, step).pc.Stopped?
    ensures s.pc.Stopped? ==> !IsWakeup(step)
  {
  }
}
