/** The push and pull connection loop: wakeups, the bound on requests in flight, and closing. */
module ConnectionLoop {

  /** Where the loop is waiting: for a send, for more sends, for a connection, or before it sends. */
  datatype Pc = Pending | Debounce | WaitConnection | Delay | Stopped

  /** What a `send()` call is answered with.  A request that reports failure without throwing answers `Sent`. */
  datatype Answer = Sent | SendFailed | CloseError

  /** A `send()` call that has not returned: waiting for the document to be visible, or for a send resolver. */
  datatype Caller = WaitingVisible | Awaiting(resolver: nat)

  type Id = nat

  /** `resolver` numbers the current send resolver and `answers` holds the resolved ones.  `counter` is the loop's own
    * count of active connections and `inFlight` the requests really under way. */
  datatype State = State(
    closed: bool, pendingResolved: bool, sendCounter: int, resolver: nat, answers: map<nat, Answer>,
    pc: Pc, counter: int, waitingForConnection: bool, inFlight: nat, callers: map<Id, Caller>)

  const INITIAL := State(false, false, 0, 0, map[], Pending, 0, false, 0, map[])

  /** The uninterrupted sections: `Send`, `BecomeVisible` and `Return` of a caller, `Close`, the four wakeups of the
    * loop, and the completion of a request. */
  datatype Step =
    | Send(id: Id, now: bool) | BecomeVisible(id: Id) | Return(id: Id) | Close
    | WakePending | WakeDebounce | WakeConnection | WakeDelay
    | FinishSend(ok: bool, threw: bool)

  /** The steps of the loop and of the network. */
  predicate SystemStep(step: Step) {
    step.WakePending? || step.WakeDebounce? || step.WakeConnection? || step.WakeDelay? || step.FinishSend?
  }

  datatype Settings = Settings(maxConnections: int, hasWatchdog: bool)

  predicate Enabled(c: Settings, s: State, step: Step) {
    match step
    case Send(id, _) => id !in s.callers
    case BecomeVisible(id) => id in s.callers && s.callers[id].WaitingVisible?
    case Return(id) => id in s.callers && s.callers[id].Awaiting? && s.callers[id].resolver in s.answers
    case Close => true
    case WakePending => s.pc.Pending? && (s.pendingResolved || c.hasWatchdog)
    case WakeDebounce => s.pc.Debounce?
    case WakeConnection => s.pc.WaitConnection? && !s.waitingForConnection
    case WakeDelay => s.pc.Delay?
    case FinishSend(ok, threw) => s.inFlight > 0 && (threw ==> !ok)
  }

  function Resolve(answers: map<nat, Answer>, resolver: nat, answer: Answer): map<nat, Answer> {
    if resolver in answers then answers else answers[resolver := answer]
  }

  function Stepped(c: Settings, s: State, step: Step): State
    requires Enabled(c, s, step)
  {
    match step
    case Send(id, now) =>
      if s.closed then s
      else
        var counted := s.(sendCounter := s.sendCounter + 1);
        if now then counted.(pendingResolved := true, callers := s.callers[id := Awaiting(s.resolver)])
        else counted.(callers := s.callers[id := WaitingVisible])
    case BecomeVisible(id) => s.(pendingResolved := true, callers := s.callers[id := Awaiting(s.resolver)])
    case Return(id) => s.(sendCounter := s.sendCounter - 1, callers := s.callers - {id})
    case Close =>
      s.(closed := true,
         answers := if s.sendCounter > 0 then Resolve(s.answers, s.resolver, CloseError) else s.answers)
    case WakePending => s.(pc := if s.closed then Stopped else Debounce)
    case WakeDebounce =>
      if s.closed then s.(pc := Stopped)
      else if s.counter >= c.maxConnections then
        s.(pendingResolved := false, pc := WaitConnection, waitingForConnection := true)
      else s.(pendingResolved := false, pc := Delay)
    case WakeConnection => s.(pc := if s.closed then Stopped else Delay)
    case WakeDelay =>
      if s.closed then s.(pc := Stopped) else s.(pc := Pending, counter := s.counter + 1, inFlight := s.inFlight + 1)
    case FinishSend(ok, threw) =>
      if s.closed then s.(inFlight := s.inFlight - 1)
      else
        s.(inFlight := s.inFlight - 1, counter := s.counter - 1, waitingForConnection := false,
           resolver := s.resolver + 1,
           answers := Resolve(s.answers, s.resolver, if threw then SendFailed else Sent),
           pendingResolved := s.pendingResolved || !ok)
  }

  /** The state after those of the steps that were possible. */
  function After(c: Settings, s: State, steps: seq<Step>): State {
    if steps == [] then s else
      var before := After(c, s, steps[..|steps| - 1]);
      if Enabled(c, before, steps[|steps| - 1]) then Stepped(c, before, steps[|steps| - 1]) else before
  }

  // ---------- the invariant ----------

  /** A caller whose answer is still open. */
  predicate Stranded(s: State, id: Id) {
    id in s.callers && s.callers[id].Awaiting? && s.callers[id].resolver !in s.answers
  }

  /** Something will lead to a send: the pending flag, the loop on its way, or a request in flight. */
  predicate OnTheWay(s: State) {
    s.pendingResolved || s.pc.Debounce? || s.pc.WaitConnection? || s.pc.Delay? || s.inFlight > 0
  }

  ghost predicate AnswersOk(s: State) {
    && s.sendCounter == |s.callers|
    && (forall g: nat :: g < s.resolver ==> g in s.answers)
    && (forall g: nat :: g in s.answers ==> g <= s.resolver)
    && (forall id :: id in s.callers && s.callers[id].Awaiting? ==> s.callers[id].resolver <= s.resolver)
    && (!s.closed ==> s.resolver !in s.answers)
  }

  ghost predicate CountsOk(c: Settings, s: State) {
    && s.inFlight <= s.counter <= c.maxConnections
    && (s.pc.Delay? ==> s.counter < c.maxConnections)
    && (s.pc.WaitConnection? && !s.waitingForConnection ==> s.counter < c.maxConnections)
    && (s.waitingForConnection ==> s.pc.WaitConnection? || s.closed)
    && (!s.closed ==>
          && s.inFlight == s.counter && !s.pc.Stopped?
          && (s.waitingForConnection ==> s.counter == c.maxConnections))
  }

  ghost predicate NobodyStranded(s: State) {
    && (!s.closed ==> (exists id :: Stranded(s, id)) ==> OnTheWay(s))
    && (s.closed ==>
          && (s.callers != map[] ==> s.resolver in s.answers && s.answers[s.resolver] == CloseError)
          && forall id :: !Stranded(s, id))
  }

  ghost predicate Inv(c: Settings, s: State) {
    AnswersOk(s) && CountsOk(c, s) && NobodyStranded(s)
  }

  lemma SendStep(c: Settings, s: State, id: Id, now: bool)
    requires c.maxConnections >= 1 && Inv(c, s) && Enabled(c, s, Send(id, now))
    ensures Inv(c, Stepped(c, s, Send(id, now)))
  {
    var s' := Stepped(c, s, Send(id, now));
    assert forall i :: Stranded(s', i) ==> Stranded(s, i) || s'.pendingResolved;
  }

  lemma VisibleStep(c: Settings, s: State, id: Id)
    requires c.maxConnections >= 1 && Inv(c, s) && Enabled(c, s, BecomeVisible(id))
    ensures Inv(c, Stepped(c, s, BecomeVisible(id)))
  {
    var s' := Stepped(c, s, BecomeVisible(id));
    assert s'.callers.Keys == s.callers.Keys;
    assert |s'.callers| == |s'.callers.Keys| && |s.callers| == |s.callers.Keys|;
  }

  lemma ReturnStep(c: Settings, s: State, id: Id)
    requires c.maxConnections >= 1 && Inv(c, s) && Enabled(c, s, Return(id))
    ensures Inv(c, Stepped(c, s, Return(id)))
  {
    var s' := Stepped(c, s, Return(id));
    assert s'.callers.Keys == s.callers.Keys - {id};
    assert |s'.callers.Keys| == |s'.callers| && |s.callers.Keys| == |s.callers|;
    assert forall i :: Stranded(s', i) ==> Stranded(s, i);
  }

  lemma CloseStep(c: Settings, s: State)
    requires c.maxConnections >= 1 && Inv(c, s)
    ensures Inv(c, Stepped(c, s, Close))
  {
    if s.sendCounter == 0 { assert s.callers == map[]; }
  }

  lemma CallersStep(c: Settings, s: State, step: Step)
    requires c.maxConnections >= 1 && Inv(c, s) && Enabled(c, s, step) && !SystemStep(step)
    ensures Inv(c, Stepped(c, s, step))
  {
    hide Inv, Enabled, Stepped;
    match step
    case Send(id, now) => SendStep(c, s, id, now);
    case BecomeVisible(id) => VisibleStep(c, s, id);
    case Return(id) => ReturnStep(c, s, id);
    case Close => CloseStep(c, s);
    case _ =>
  }

  lemma FinishStep(c: Settings, s: State, ok: bool, threw: bool)
    requires c.maxConnections >= 1 && Inv(c, s) && Enabled(c, s, FinishSend(ok, threw))
    ensures Inv(c, Stepped(c, s, FinishSend(ok, threw)))
  {
    var s' := Stepped(c, s, FinishSend(ok, threw));
    assert CountsOk(c, s');
    assert forall i :: !Stranded(s', i);
  }

  lemma WakeStep(c: Settings, s: State, step: Step)
    requires c.maxConnections >= 1 && Inv(c, s) && Enabled(c, s, step) && SystemStep(step) && !step.FinishSend?
    ensures Inv(c, Stepped(c, s, step))
  {
    hide AnswersOk;
    var s' := Stepped(c, s, step);
    assert s'.answers == s.answers && s'.callers == s.callers && s'.resolver == s.resolver && s'.closed == s.closed;
    assert AnswersOk(s') by { AnswersUnchanged(s, s'); }
    assert forall i :: Stranded(s', i) ==> Stranded(s, i);
  }

  lemma AnswersUnchanged(s: State, s': State)
    requires AnswersOk(s) && s'.answers == s.answers && s'.callers == s.callers && s'.resolver == s.resolver
    requires s'.closed == s.closed && s'.sendCounter == s.sendCounter
    ensures AnswersOk(s')
  {
  }

  lemma StepKeepsInv(c: Settings, s: State, step: Step)
    requires c.maxConnections >= 1 && Inv(c, s) && Enabled(c, s, step)
    ensures Inv(c, Stepped(c, s, step))
  {
    hide Inv, Enabled, Stepped;
    if step.FinishSend? {
      FinishStep(c, s, step.ok, step.threw);
    } else if SystemStep(step) {
      WakeStep(c, s, step);
    } else {
      CallersStep(c, s, step);
    }
  }

  lemma {:induction false} ReachableInv(c: Settings, steps: seq<Step>)
    requires c.maxConnections >= 1
    ensures Inv(c, After(c, INITIAL, steps))
    decreases |steps|
  {
    if steps != [] {
      hide Inv, Stepped;
      var s, step := After(c, INITIAL, steps[..|steps| - 1]), steps[|steps| - 1];
      ReachableInv(c, steps[..|steps| - 1]);
      if Enabled(c, s, step) {
        StepKeepsInv(c, s, step);
      }
    } else {
      InitialInv(c);
    }
  }

  lemma InitialInv(c: Settings)
    requires c.maxConnections >= 1
    ensures Inv(c, INITIAL)
  {
  }

  /** At most `maxConnections` requests are ever in flight.  Before closing, a caller still to be answered implies that
    * a send is on its way; after closing every caller is answered, or will be with the close error. */
  lemma NoCallerIsStranded(c: Settings, steps: seq<Step>)
    requires c.maxConnections >= 1
    ensures var s := After(c, INITIAL, steps);
      && s.inFlight <= c.maxConnections
      && (!s.closed ==> forall id :: Stranded(s, id) ==> OnTheWay(s))
      && (s.closed ==> forall id :: id in s.callers ==>
            s.resolver in s.answers && s.answers[s.resolver] == CloseError
            && (s.callers[id].Awaiting? ==> s.callers[id].resolver in s.answers))
  {
    ReachableInv(c, steps);
    var s := After(c, INITIAL, steps);
    if s.closed {
      forall id | id in s.callers
        ensures s.resolver in s.answers && (s.callers[id].Awaiting? ==> s.callers[id].resolver in s.answers)
      {
        assert !Stranded(s, id);
      }
    }
  }

  // ---------- every caller is answered ----------

  /** How many system steps can happen before a request completes. */
  function Distance(c: Settings, s: State): int {
    5 * (c.maxConnections - s.counter)
    + match s.pc case Pending => 4 case Debounce => 3 case WaitConnection => 2 case Delay => 1 case Stopped => 0
  }

  /** While a caller is to be answered, some system step other than the watchdog's is possible. */
  lemma NeverStuck(c: Settings, s: State, id: Id) returns (step: Step)
    requires c.maxConnections >= 1 && Inv(c, s) && !s.closed && Stranded(s, id)
    ensures SystemStep(step) && Enabled(c.(hasWatchdog := false), s, step)
  {
    step := if s.pc.Debounce? then WakeDebounce
            else if s.pc.Delay? then WakeDelay
            else if s.pc.WaitConnection? && !s.waitingForConnection then WakeConnection
            else if s.pc.Pending? && s.pendingResolved then WakePending
            else FinishSend(true, false);
    assert OnTheWay(s);
  }

  /** Every system step answers the caller or brings the answer closer; no other step moves it away. */
  lemma StepBringsCloser(c: Settings, s: State, step: Step, id: Id)
    requires c.maxConnections >= 1 && Inv(c, s) && Enabled(c, s, step) && !s.closed && Stranded(s, id)
    requires Stranded(Stepped(c, s, step), id)
    ensures var s' := Stepped(c, s, step);
      !s'.closed && 0 <= Distance(c, s') <= Distance(c, s) && (SystemStep(step) ==> Distance(c, s') < Distance(c, s))
  {
    assert s.callers[id].resolver == s.resolver;
    assert s.sendCounter > 0 by { assert id in s.callers.Keys && |s.callers.Keys| == |s.callers|; }
    StepKeepsInv(c, s, step);
  }

  function SystemSteps(c: Settings, s: State, steps: seq<Step>): nat {
    if steps == [] then 0 else
      var before := steps[..|steps| - 1];
      SystemSteps(c, s, before)
      + if Enabled(c, After(c, s, before), steps[|steps| - 1]) && SystemStep(steps[|steps| - 1]) then 1 else 0
  }

  lemma {:induction false} AnsweredOrCloser(c: Settings, s: State, steps: seq<Step>, id: Id)
    requires c.maxConnections >= 1 && Inv(c, s) && !s.closed && Stranded(s, id)
    ensures var s' := After(c, s, steps);
      Inv(c, s') && (s.callers[id].resolver in s'.answers
                     || (!s'.closed && id in s'.callers && s'.callers[id] == s.callers[id]
                         && 0 <= Distance(c, s') && SystemSteps(c, s, steps) + Distance(c, s') <= Distance(c, s)))
    decreases |steps|
  {
    if steps != [] {
      var before, step := steps[..|steps| - 1], steps[|steps| - 1];
      AnsweredOrCloser(c, s, before, id);
      var t := After(c, s, before);
      if Enabled(c, t, step) {
        StepKeepsInv(c, t, step);
        if s.callers[id].resolver !in t.answers {
          CloserStep(c, t, step, id);
        } else {
          AnswersStayOne(c, t, step, s.callers[id].resolver);
        }
      }
    }
  }

  lemma AnswersStayOne(c: Settings, s: State, step: Step, g: nat)
    requires Enabled(c, s, step) && g in s.answers
    ensures g in Stepped(c, s, step).answers
  {
  }

  lemma CloserStep(c: Settings, s: State, step: Step, id: Id)
    requires c.maxConnections >= 1 && Inv(c, s) && Enabled(c, s, step) && !s.closed && Stranded(s, id)
    ensures var s' := Stepped(c, s, step);
      s.callers[id].resolver in s'.answers
      || (!s'.closed && id in s'.callers && s'.callers[id] == s.callers[id] && 0 <= Distance(c, s') <= Distance(c, s)
          && (SystemStep(step) ==> Distance(c, s') < Distance(c, s)))
  {
    var s' := Stepped(c, s, step);
    assert !(step == Return(id)) && !(step == BecomeVisible(id));
    if s.callers[id].resolver !in s'.answers {
      StepBringsCloser(c, s, step, id);
    }
  }

  /** Bounded response: from any reachable state, every run that contains more than `Distance` steps of the loop and the
    * network answers a caller that was waiting, or closes the loop and answers it with the close error. */
  lemma CallersAreAnswered(c: Settings, steps: seq<Step>, more: seq<Step>, id: Id)
    requires c.maxConnections >= 1
    requires var s := After(c, INITIAL, steps);
      !s.closed && Stranded(s, id) && SystemSteps(c, s, more) > Distance(c, s)
    ensures var s := After(c, INITIAL, steps);
      s.callers[id].resolver in After(c, s, more).answers
  {
    ReachableInv(c, steps);
    AnsweredOrCloser(c, After(c, INITIAL, steps), more, id);
  }

  // ---------- what the steps mean to callers ----------

  /** A caller that waits for its answer waits for the current resolver. */
  lemma StrandedAtCurrent(c: Settings, s: State, id: Id)
    requires Inv(c, s) && Stranded(s, id)
    ensures s.callers[id].resolver == s.resolver && !s.closed
  {
  }

  lemma SendMeans(c: Settings, s: State, id: Id, now: bool)
    requires Inv(c, s) && Enabled(c, s, Send(id, now))
    ensures var s' := Stepped(c, s, Send(id, now));
      && (s.closed ==> s' == s)
      && (!s.closed ==> id in s'.callers && (now ==> Stranded(s', id) && OnTheWay(s')))
      && forall other :: other != id ==> (Stranded(s', other) <==> Stranded(s, other))
  {
  }

  lemma VisibleMeans(c: Settings, s: State, id: Id)
    requires Inv(c, s) && Enabled(c, s, BecomeVisible(id))
    ensures var s' := Stepped(c, s, BecomeVisible(id));
      if s.closed then !Stranded(s', id) && s'.answers[s'.callers[id].resolver] == CloseError
      else Stranded(s', id) && OnTheWay(s')
  {
  }

  lemma ReturnMeans(c: Settings, s: State, id: Id)
    requires Inv(c, s) && Enabled(c, s, Return(id))
    ensures var s', awaited := Stepped(c, s, Return(id)), s.callers[id].resolver;
      && id !in s'.callers && (forall other :: Stranded(s', other) <==> Stranded(s, other))
      && (!s.closed ==> awaited < s.resolver)
      && (s.closed && awaited == s.resolver ==> s.answers[awaited] == CloseError)
  {
  }

  lemma CloseMeans(c: Settings, s: State)
    requires c.maxConnections >= 1 && Inv(c, s)
    ensures var s' := Stepped(c, s, Close);
      && (forall id :: !Stranded(s', id))
      && (forall id :: Stranded(s, id) ==> s'.answers[s'.callers[id].resolver] == CloseError)
      && (forall g :: g in s.answers ==> g in s'.answers && s'.answers[g] == s.answers[g])
  {
    CloseStep(c, s);
    forall id | Stranded(s, id) ensures s.sendCounter > 0 && s.callers[id].resolver == s.resolver {
      StrandedAtCurrent(c, s, id);
      assert id in s.callers.Keys && |s.callers.Keys| == |s.callers|;
    }
  }

  /** A wakeup of the open loop takes it closer to a request, and tells how many requests are in flight. */
  lemma WakeMeans(c: Settings, s: State, step: Step)
    requires c.maxConnections >= 1 && Inv(c, s) && Enabled(c, s, step) && SystemStep(step) && !step.FinishSend?
      && !s.closed
    ensures var s' := Stepped(c, s, step);
      && 0 <= Distance(c, s') < Distance(c, s) && OnTheWay(s')
      && (s'.pc.WaitConnection? ==> s'.inFlight == c.maxConnections)
      && (s'.pc.Delay? ==> s'.inFlight < c.maxConnections)
      && (step.WakeDelay? ==> 0 < s'.inFlight <= c.maxConnections)
  {
    WakeStep(c, s, step);
  }

  lemma FinishMeans(c: Settings, s: State, ok: bool, threw: bool)
    requires c.maxConnections >= 1 && Inv(c, s) && Enabled(c, s, FinishSend(ok, threw)) && !s.closed
    ensures var s' := Stepped(c, s, FinishSend(ok, threw));
      && s'.inFlight < c.maxConnections && (forall id :: !Stranded(s', id))
      && (forall id :: Stranded(s, id) ==> s'.answers[s'.callers[id].resolver] == if threw then SendFailed else Sent)
      && (!ok ==> OnTheWay(s')) && s'.pc == s.pc && (ok ==> s'.pendingResolved == s.pendingResolved)
  {
    FinishStep(c, s, ok, threw);
    forall id | Stranded(s, id) ensures s.callers[id].resolver == s.resolver { StrandedAtCurrent(c, s, id); }
    assert forall id :: !Stranded(Stepped(c, s, FinishSend(ok, threw)), id);
  }

  // ---------- the loop object ----------

  /** The object's fields, with the suspended loop (`pc`), callers and requests (`inFlight`). */
  class Loop {
    const settings: Settings
    var closed: bool
    var pendingResolved: bool
    var sendCounter: int
    var resolver: nat
    var answers: map<nat, Answer>
    var counter: int
    var waitingForConnection: bool
    var pc: Pc
    var inFlight: nat
    var callers: map<Id, Caller>

    function View(): State
      reads this
    {
      State(closed, pendingResolved, sendCounter, resolver, answers, pc, counter, waitingForConnection, inFlight,
        callers)
    }

    ghost predicate Valid()
      reads this
    {
      settings.maxConnections >= 1 && Inv(settings, View())
    }

    constructor (settings: Settings)
      requires settings.maxConnections >= 1
      ensures Valid() && View() == INITIAL && this.settings == settings
    {
      this.settings := settings;
      closed, pendingResolved, sendCounter, resolver, answers := false, false, 0, 0, map[];
      counter, waitingForConnection := 0, false;
      pc, inFlight, callers := Pending, 0, map[];
      new;
      InitialInv(settings);
    }

    /** The part of `send` up to its first suspension.  After closing it is answered at once and changes nothing;
      * otherwise an immediate call waits and a send is on its way. */
    method SendCall(id: Id, now: bool) returns (waiting: bool)
      requires Valid() && id !in callers
      modifies this
      ensures Valid() && View() == Stepped(settings, old(View()), Send(id, now)) && waiting == !old(closed)
      ensures !waiting ==> View() == old(View())
      ensures waiting ==> id in callers && (now ==> Stranded(View(), id) && OnTheWay(View()))
      ensures forall other :: other != id ==> (Stranded(View(), other) <==> old(Stranded(View(), other)))
    {
      ghost var s := View();
      SendMeans(settings, s, id, now);
      SendStep(settings, s, id, now);
      hide Inv, Stranded, OnTheWay;
      if closed {
        return false;
      }
      sendCounter := sendCounter + 1;
      if now {
        pendingResolved := true;
        callers := callers[id := Awaiting(resolver)];
      } else {
        callers := callers[id := WaitingVisible];
      }
      return true;
    }

    /** The call waits and a send is on its way, or it will get the close error. */
    method Visible(id: Id)
      requires Valid() && id in callers && callers[id].WaitingVisible?
      modifies this
      ensures Valid() && View() == Stepped(settings, old(View()), BecomeVisible(id))
      ensures !closed ==> Stranded(View(), id) && OnTheWay(View())
      ensures closed ==> !Stranded(View(), id) && answers[callers[id].resolver] == CloseError
    {
      ghost var s := View();
      VisibleMeans(settings, s, id);
      VisibleStep(settings, s, id);
      hide Inv, OnTheWay;
      pendingResolved := true;
      callers := callers[id := Awaiting(resolver)];
    }

    /** A caller leaves with its answer: before closing that of a request which completed while it waited, afterwards
      * possibly the close error.  Nobody else's waiting changes. */
    method Answered(id: Id, awaited: nat) returns (answer: Answer)
      requires Valid() && id in callers && callers[id] == Awaiting(awaited) && awaited in answers
      modifies this
      ensures Valid() && View() == Stepped(settings, old(View()), Return(id))
      ensures id !in callers && forall other :: Stranded(View(), other) <==> old(Stranded(View(), other))
      ensures answer == answers[awaited]
      ensures if closed && awaited == resolver then answer == CloseError else awaited < resolver
    {
      ghost var s := View();
      ReturnMeans(settings, s, id);
      ReturnStep(settings, s, id);
      ResolverBound(settings, s, id);
      hide Inv, Stranded;
      answer := answers[awaited];
      sendCounter := sendCounter - 1;
      callers := callers - {id};
    }

    /** Nobody waits any longer: those who did get the close error, and answers given before stay. */
    method CloseLoop()
      requires Valid()
      modifies this
      ensures Valid() && View() == Stepped(settings, old(View()), Close) && closed
      ensures forall id :: !Stranded(View(), id)
      ensures forall id :: old(Stranded(View(), id)) ==> answers[callers[id].resolver] == CloseError
      ensures forall g :: g in old(answers) ==> g in answers && answers[g] == old(answers[g])
    {
      ghost var s := View();
      CloseMeans(settings, s);
      CloseStep(settings, s);
      hide Inv;
      closed := true;
      if sendCounter > 0 && resolver !in answers {
        answers := answers[resolver := CloseError];
      }
    }

    /** The open loop is on its way, and closer to the next request. */
    method PendingOver() returns (stop: bool)
      requires Valid() && Enabled(settings, View(), WakePending)
      modifies this
      ensures Valid() && View() == Stepped(settings, old(View()), WakePending) && stop == closed
      ensures stop ==> pc.Stopped?
      ensures !stop ==> OnTheWay(View()) && Distance(settings, View()) < old(Distance(settings, View()))
    {
      ghost var s := View();
      WakeStep(settings, s, WakePending);
      if !closed { WakeMeans(settings, s, WakePending); }
      hide Inv, OnTheWay, Distance;
      stop := closed;
      pc := if closed then Stopped else Debounce;
    }

    /** The loop waits for a connection exactly if all are in use, so that a request in flight will wake it. */
    method DebounceOver() returns (stop: bool, wait: bool)
      requires Valid() && Enabled(settings, View(), WakeDebounce)
      modifies this
      ensures Valid() && View() == Stepped(settings, old(View()), WakeDebounce) && stop == closed
      ensures stop ==> pc.Stopped?
      ensures !stop ==> OnTheWay(View()) && Distance(settings, View()) < old(Distance(settings, View()))
      ensures wait ==> inFlight == settings.maxConnections
      ensures !stop && !wait ==> inFlight < settings.maxConnections
    {
      ghost var s := View();
      WakeStep(settings, s, WakeDebounce);
      if !closed { WakeMeans(settings, s, WakeDebounce); }
      hide Inv, OnTheWay, Distance;
      stop, wait := closed, false;
      if closed {
        pc := Stopped;
        return;
      }
      pendingResolved := false;
      if counter >= settings.maxConnections {
        wait, waitingForConnection := true, true;
        pc := WaitConnection;
      } else {
        pc := Delay;
      }
    }

    /** A connection is really free, and the open loop is closer to the next request. */
    method ConnectionFound() returns (stop: bool)
      requires Valid() && Enabled(settings, View(), WakeConnection)
      modifies this
      ensures Valid() && View() == Stepped(settings, old(View()), WakeConnection) && stop == closed
      ensures stop ==> pc.Stopped?
      ensures !stop ==> inFlight < settings.maxConnections
      ensures !stop ==> OnTheWay(View()) && Distance(settings, View()) < old(Distance(settings, View()))
    {
      ghost var s := View();
      WakeStep(settings, s, WakeConnection);
      if !closed { WakeMeans(settings, s, WakeConnection); }
      hide Inv, OnTheWay, Distance;
      stop := closed;
      pc := if closed then Stopped else Delay;
    }

    /** A request is started, and there are never more than allowed. */
    method DelayOver() returns (stop: bool)
      requires Valid() && Enabled(settings, View(), WakeDelay)
      modifies this
      ensures Valid() && View() == Stepped(settings, old(View()), WakeDelay) && stop == closed
      ensures stop ==> pc.Stopped?
      ensures !stop ==> inFlight == old(inFlight) + 1 <= settings.maxConnections
      ensures !stop ==> OnTheWay(View()) && Distance(settings, View()) < old(Distance(settings, View()))
    {
      ghost var s := View();
      WakeStep(settings, s, WakeDelay);
      if !closed { WakeMeans(settings, s, WakeDelay); }
      hide Inv, OnTheWay, Distance;
      stop := closed;
      if closed {
        pc := Stopped;
        return;
      }
      counter := counter + 1;
      inFlight := inFlight + 1;
      pc := Pending;
    }

    /** Everybody who waited is answered with the outcome of this request, its connection is free, and after a failure
      * another send is on its way; a success asks for none.  After closing the request only ends. */
    method SendReturned(ok: bool, threw: bool)
      requires Valid() && Enabled(settings, View(), FinishSend(ok, threw))
      modifies this
      ensures Valid() && View() == Stepped(settings, old(View()), FinishSend(ok, threw))
      ensures closed ==> answers == old(answers) && callers == old(callers)
      ensures !closed ==> forall id :: !Stranded(View(), id)
      ensures !closed ==> forall id :: old(Stranded(View(), id)) ==>
        answers[callers[id].resolver] == if threw then SendFailed else Sent
      ensures !closed ==> inFlight < settings.maxConnections && (!ok ==> OnTheWay(View()))
      ensures !closed ==> pc == old(pc) && (ok ==> pendingResolved == old(pendingResolved))
    {
      ghost var s := View();
      RequestDone(ok, threw);
      FinishStep(settings, s, ok, threw);
      if !closed { FinishMeans(settings, s, ok, threw); }
      hide Inv, OnTheWay, Stepped;
    }

    method RequestDone(ok: bool, threw: bool)
      requires Enabled(settings, View(), FinishSend(ok, threw))
      modifies this
      ensures View() == Stepped(settings, old(View()), FinishSend(ok, threw))
    {
      inFlight := inFlight - 1;
      if closed {
        return;
      }
      counter := counter - 1;
      ConnectionAvailable();
      AnswerWaiting(if threw then SendFailed else Sent);
      if !ok {
        pendingResolved := true;
      }
    }

    method ConnectionAvailable()
      modifies this`waitingForConnection
      ensures !waitingForConnection
    {
      waitingForConnection := false;
    }

    /** Answers those who wait for the current resolver, and makes a new one. */
    method AnswerWaiting(answer: Answer)
      modifies this`answers, this`resolver
      ensures answers == Resolve(old(answers), old(resolver), answer) && resolver == old(resolver) + 1
    {
      if resolver !in answers {
        answers := answers[resolver := answer];
      }
      resolver := resolver + 1;
    }

    method Perform(step: Step)
      requires Valid() && Enabled(settings, View(), step)
      modifies this
      ensures Valid() && View() == Stepped(settings, old(View()), step)
    {
      hide Inv, Stranded, OnTheWay, Distance, Stepped;
      match step {
        case Send(id, now) => var waiting := SendCall(id, now);
        case BecomeVisible(id) => Visible(id);
        case Return(id) => var answer := Answered(id, callers[id].resolver);
        case Close => CloseLoop();
        case WakePending => var stop := PendingOver();
        case WakeDebounce => var stop, wait := DebounceOver();
        case WakeConnection => var stop := ConnectionFound();
        case WakeDelay => var stop := DelayOver();
        case FinishSend(ok, threw) => SendReturned(ok, threw);
      }
    }

    /** Whatever its callers, the timers and the network do, the object goes through the states of the specification,
      * and all of them keep the invariant. */
    method Drive(steps: seq<Step>)
      requires Valid()
      modifies this
      ensures Valid() && View() == After(settings, old(View()), steps)
    {
      hide Inv, Stepped, Enabled;
      for i := 0 to |steps|
        invariant Valid() && View() == After(settings, old(View()), steps[..i])
      {
        assert steps[..i + 1][..i] == steps[..i];
        if Enabled(settings, View(), steps[i]) {
          Perform(steps[i]);
        }
      }
      assert steps[..|steps|] == steps;
    }
  }

  lemma ResolverBound(c: Settings, s: State, id: Id)
    requires Inv(c, s) && id in s.callers && s.callers[id].Awaiting?
    ensures s.callers[id].resolver <= s.resolver
  {
  }
}
