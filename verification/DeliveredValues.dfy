/** Exactly what a query's callback gets over a whole run of the engine, and a watcher's for one invocation. */
module DeliveredValues {
  import opened Wrappers
  import opened Scan
  import opened Diffs
  import opened Transactions
  import opened Watch
  import opened Subscriptions
  import opened SubscriptionRuns

  // ---------- what should be delivered ----------

  /** The versions on which those runs of a query ran whose callbacks have been called, in the order of the calls. */
  ghost function CalledVersions(s0: State, steps: seq<Step>, id: Id): (versions: seq<nat>)
    requires After(s0, steps).Some?
    decreases |steps|
  {
    if steps == [] then [] else
      var before, step := steps[..|steps| - 1], steps[|steps| - 1];
      CalledVersions(s0, before, id) + StepVersions(After(s0, before).value, step, id)
  }

  ghost function StepVersions(s: State, step: Step, id: Id): seq<nat>
    requires Enabled(s, step)
  {
    if step.CallCallbacks? && id in s.finished[step.i].results then [s.finished[step.i].version] else []
  }

  predicate AllBelow(versions: seq<nat>, n: nat) {
    forall i :: 0 <= i < |versions| ==> versions[i] < n
  }

  /** The results of the body on these versions, without those on which it threw. */
  ghost function Results(history: seq<Store>, body: Body, versions: seq<nat>): seq<Json>
    requires AllBelow(versions, |history|)
  {
    if versions == [] then [] else
      var before, outcome := versions[..|versions| - 1], Run(history[versions[|versions| - 1]], body).outcome;
      Results(history, body, before) + if outcome.Returned? then [outcome.result] else []
  }

  /** The values without those that are equal to the last one kept. */
  function Changes(isEqual: (Json, Json) -> bool, values: seq<Json>): seq<Json> {
    if values == [] then [] else
      var kept, v := Changes(isEqual, values[..|values| - 1]), values[|values| - 1];
      if kept != [] && isEqual(kept[|kept| - 1], v) then kept else kept + [v]
  }

  /** No two neighbours are equal, and every value is one of the given ones. */
  lemma {:induction false} ChangesDiffer(isEqual: (Json, Json) -> bool, values: seq<Json>)
    ensures var kept := Changes(isEqual, values);
      && (forall i :: 0 <= i < |kept| - 1 ==> !isEqual(kept[i], kept[i + 1]))
      && (forall v :: v in kept ==> v in values)
      && (values != [] ==> kept != [] && kept[0] == values[0])
  {
    if values != [] {
      ChangesDiffer(isEqual, values[..|values| - 1]);
    }
  }

  /** Every result comes from a version on which the body returned it. */
  lemma {:induction false} ResultsReturned(history: seq<Store>, body: Body, versions: seq<nat>)
    requires AllBelow(versions, |history|)
    ensures forall x :: x in Results(history, body, versions) ==>
      exists v :: v in versions && Run(history[v], body).outcome == Returned(x)
  {
    hide Run;
    if versions != [] {
      var last := versions[|versions| - 1];
      ResultsReturned(history, body, versions[..|versions| - 1]);
      assert last in versions;
    }
  }

  lemma {:induction false} ResultsOfLonger(history: seq<Store>, longer: seq<Store>, body: Body, versions: seq<nat>)
    requires history <= longer && AllBelow(versions, |history|)
    ensures Results(longer, body, versions) == Results(history, body, versions)
  {
    hide Run;
    if versions != [] {
      ResultsOfLonger(history, longer, body, versions[..|versions| - 1]);
    }
  }

  // ---------- what is delivered ----------

  /** The last value is the last one delivered. */
  ghost predicate LastDelivered(q: Sub)
    requires q.Query?
  {
    q.lastValue == if q.delivered == [] then None else Some(q.delivered[|q.delivered| - 1])
  }

  /** What a callback does to a query: a run that threw delivers nothing, one that returned delivers the result unless
    * it is equal to the last value delivered. */
  ghost predicate Delivers(q: Sub, outcome: Outcome, q': Sub)
    requires q.Query?
  {
    if outcome.Threw? || (q.delivered != [] && q.isEqual(q.delivered[|q.delivered| - 1], outcome.result)) then q' == q
    else q' == q.(lastValue := Some(outcome.result), delivered := q.delivered + [outcome.result])
  }

  /** In a reachable state the outcome is that of the body on the version on which the batch ran. */
  lemma CallbackDelivers(s: State, i: nat, id: Id)
    requires Inv(s) && Enabled(s, CallCallbacks(i)) && IsQuery(s, id) && LastDelivered(s.mgr.subs[id])
    ensures IsQuery(Stepped(s, CallCallbacks(i)), id)
    ensures var f, q, q' := s.finished[i], s.mgr.subs[id], Stepped(s, CallCallbacks(i)).mgr.subs[id];
      if id in f.results then f.version < |s.history| && Delivers(q, Run(s.history[f.version], q.body).outcome, q')
      else q' == q
  {
    hide Run, SameIndexes, UnfiredRight, CommitHandled, Notified, SupportedBody;
    assert QueryOk(s, id);
    assert s.finished[i] in s.finished;
  }

  ghost predicate SameQuery(s: State, s': State, id: Id) {
    IsQuery(s, id) && IsQuery(s', id) && s.mgr.subs[id].body == s'.mgr.subs[id].body
    && s.mgr.subs[id].isEqual == s'.mgr.subs[id].isEqual
  }

  /** Only callbacks deliver anything. */
  lemma OthersDeliverNothing(s: State, step: Step, id: Id)
    requires Enabled(s, step) && IsQuery(s, id) && !step.CallCallbacks?
    ensures var s' := Stepped(s, step);
      SameQuery(s, s', id) && s'.mgr.subs[id].delivered == s.mgr.subs[id].delivered
      && s'.mgr.subs[id].lastValue == s.mgr.subs[id].lastValue && s.history <= s'.history
  {
    hide Run, SameIndexes, Matched, WantedDiffs, DiffsBetween;
  }

  // ---------- the order of the calls ----------

  /** The versions called so far ascend, and are not later than those of the batches still to be called back. */
  ghost predicate CalledInOrder(s: State, versions: seq<nat>) {
    && AllBelow(versions, |s.history|)
    && (forall i, j :: 0 <= i < j < |versions| ==> versions[i] <= versions[j])
    && forall i, f :: 0 <= i < |versions| && f in s.finished ==> versions[i] <= f.version
  }

  lemma StepKeepsOrder(s: State, step: Step, versions: seq<nat>, id: Id)
    requires Inv(s) && Enabled(s, step) && CalledInOrder(s, versions)
    ensures CalledInOrder(Stepped(s, step), versions + StepVersions(s, step, id))
  {
    hide Run, SameIndexes, Matched, WantedDiffs, DiffsBetween, UnfiredRight, QueryOk, InvokeAll, ResultsOf, CallBackAll;
    if step.CallCallbacks? { WithoutMembers(s.finished, step.i); }
    forall f | f in s.finished ensures f.version < |s.history| {
    }
  }

  lemma {:induction false} VersionsAreOrdered(s0: Store, steps: seq<Step>, id: Id)
    requires ValidStore(s0) && After(Initial(s0), steps).Some?
    ensures CalledInOrder(After(Initial(s0), steps).value, CalledVersions(Initial(s0), steps, id))
    decreases |steps|
  {
    hide Inv, CalledInOrder, Enabled, Stepped;
    if steps == [] {
      assert CalledInOrder(Initial(s0), []) by { NothingCalled(s0); }
    } else {
      var before := steps[..|steps| - 1];
      VersionsAreOrdered(s0, before, id);
      ReachableInv(s0, before);
      StepKeepsOrder(After(Initial(s0), before).value, steps[|steps| - 1], CalledVersions(Initial(s0), before, id), id);
    }
  }

  lemma NothingCalled(s0: Store)
    ensures CalledInOrder(Initial(s0), [])
  {
  }

  // ---------- the theorem ----------

  /** The query has been delivered the changes among the results of its runs on these versions. */
  ghost predicate DeliveredRight(s: State, id: Id, versions: seq<nat>) {
    AllBelow(versions, |s.history|)
    && if IsQuery(s, id) then
         var q := s.mgr.subs[id];
         LastDelivered(q) && q.delivered == Changes(q.isEqual, Results(s.history, q.body, versions))
       else id !in s.mgr.subs ==> versions == []
  }

  lemma ResultsAppend(history: seq<Store>, body: Body, versions: seq<nat>, v: nat)
    requires AllBelow(versions + [v], |history|)
    ensures AllBelow(versions, |history|) && v < |history|
    ensures var outcome := Run(history[v], body).outcome;
      Results(history, body, versions + [v])
      == Results(history, body, versions) + if outcome.Returned? then [outcome.result] else []
  {
    hide Run;
    var longer := versions + [v];
    assert longer[|versions|] == v && longer[..|versions|] == versions;
    assert forall i :: 0 <= i < |versions| ==> versions[i] == longer[i];
  }

  lemma ChangesAppend(isEqual: (Json, Json) -> bool, values: seq<Json>, v: Json)
    ensures var kept := Changes(isEqual, values);
      Changes(isEqual, values + [v]) == if kept != [] && isEqual(kept[|kept| - 1], v) then kept else kept + [v]
  {
    assert (values + [v])[..|values|] == values;
  }

  lemma OneMoreDelivered(q: Sub, q': Sub, outcome: Outcome, values: seq<Json>, more: seq<Json>)
    requires q.Query? && LastDelivered(q) && q.delivered == Changes(q.isEqual, values) && Delivers(q, outcome, q')
    requires more == values + if outcome.Returned? then [outcome.result] else []
    ensures q'.Query? && LastDelivered(q') && q'.delivered == Changes(q'.isEqual, more) && q'.body == q.body
  {
    hide Changes;
    if outcome.Returned? {
      ChangesAppend(q.isEqual, values, outcome.result);
    } else {
      assert values + [] == values;
    }
  }

  lemma CallbackDeliversRight(s: State, i: nat, id: Id, versions: seq<nat>)
    requires Inv(s) && Enabled(s, CallCallbacks(i)) && IsQuery(s, id) && DeliveredRight(s, id, versions)
    requires AllBelow(versions + StepVersions(s, CallCallbacks(i), id), |s.history|)
    ensures DeliveredRight(Stepped(s, CallCallbacks(i)), id, versions + StepVersions(s, CallCallbacks(i), id))
  {
    CallbackDelivers(s, i, id);
    assert Stepped(s, CallCallbacks(i)).history == s.history;
    hide Inv, Run, Enabled, Stepped, Changes, Results, LastDelivered, AllBelow, Delivers;
    var f := s.finished[i];
    if id in f.results {
      var q := s.mgr.subs[id];
      ResultsAppend(s.history, q.body, versions, f.version);
      OneMoreDelivered(q, Stepped(s, CallCallbacks(i)).mgr.subs[id], Run(s.history[f.version], q.body).outcome,
                       Results(s.history, q.body, versions), Results(s.history, q.body, versions + [f.version]));
    } else {
      assert versions + [] == versions;
    }
  }

  lemma StepDeliversRight(s: State, step: Step, id: Id, versions: seq<nat>)
    requires Inv(s) && Enabled(s, step) && DeliveredRight(s, id, versions)
    requires AllBelow(versions + StepVersions(s, step, id), |Stepped(s, step).history|)
    ensures DeliveredRight(Stepped(s, step), id, versions + StepVersions(s, step, id))
  {
    if IsQuery(s, id) && step.CallCallbacks? {
      assert Stepped(s, step).history == s.history;
      CallbackDeliversRight(s, step.i, id, versions);
    } else if IsQuery(s, id) {
      OthersDeliverNothing(s, step, id);
      ResultsOfLonger(s.history, Stepped(s, step).history, s.mgr.subs[id].body, versions);
      hide Inv, Enabled, Stepped, Changes, Results;
      assert versions + [] == versions;
    } else {
      OtherSubs(s, step, id);
      assert versions + [] == versions;
      hide Inv, Enabled, Stepped;
    }
  }

  /** A subscription of another kind, or one that is not there yet. */
  lemma OtherSubs(s: State, step: Step, id: Id)
    requires Inv(s) && Enabled(s, step) && !IsQuery(s, id)
    ensures var s' := Stepped(s, step);
      && (id !in s.mgr.subs ==> StepVersions(s, step, id) == [])
      && (id in s.mgr.subs ==> id in s'.mgr.subs && !IsQuery(s', id))
      && (IsQuery(s', id) ==> s'.mgr.subs[id].delivered == [] && s'.mgr.subs[id].lastValue == None)
  {
    hide Run, SameIndexes, Matched, WantedDiffs, DiffsBetween, UnfiredRight, QueryOk;
  }

  /** Over every run of the engine, a query's callback has got exactly the changes among the results of those of its
    * runs that were called back, in version order.  Runs that threw count for nothing, and `lastValue` is the last
    * value delivered. */
  lemma {:induction false} DeliveredExactly(s0: Store, steps: seq<Step>, id: Id)
    requires ValidStore(s0) && After(Initial(s0), steps).Some?
    ensures DeliveredRight(After(Initial(s0), steps).value, id, CalledVersions(Initial(s0), steps, id))
    decreases |steps|
  {
    hide Inv, DeliveredRight, Enabled, Stepped, CalledInOrder;
    VersionsAreOrdered(s0, steps, id);
    if steps == [] {
      assert DeliveredRight(Initial(s0), id, []) by { NothingDelivered(s0, id); }
    } else {
      var before := steps[..|steps| - 1];
      DeliveredExactly(s0, before, id);
      ReachableInv(s0, before);
      OrderedBelow(After(Initial(s0), steps).value, CalledVersions(Initial(s0), steps, id));
      StepDeliversRight(After(Initial(s0), before).value, steps[|steps| - 1], id,
                        CalledVersions(Initial(s0), before, id));
    }
  }

  lemma OrderedBelow(s: State, versions: seq<nat>)
    requires CalledInOrder(s, versions)
    ensures AllBelow(versions, |s.history|)
  {
  }

  lemma NothingDelivered(s0: Store, id: Id)
    ensures DeliveredRight(Initial(s0), id, [])
  {
  }

  /** So every delivered value is what the body returned on some version, no two neighbours are equal for the query, the
    * last one is kept for comparison, and nothing is delivered as long as every run that was called back threw. */
  lemma DeliveredAreResults(s0: Store, steps: seq<Step>, id: Id)
    requires ValidStore(s0) && After(Initial(s0), steps).Some? && IsQuery(After(Initial(s0), steps).value, id)
    ensures var s, versions := After(Initial(s0), steps).value, CalledVersions(Initial(s0), steps, id);
      var q := s.mgr.subs[id];
      && LastDelivered(q) && AllBelow(versions, |s.history|)
      && (forall x :: x in q.delivered ==> exists v: nat ::
            v in versions && v < |s.history| && Run(s.history[v], q.body).outcome == Returned(x))
      && (forall i :: 0 <= i < |q.delivered| - 1 ==> !q.isEqual(q.delivered[i], q.delivered[i + 1]))
      && (q.delivered == [] <==> forall i :: 0 <= i < |versions| ==> Run(s.history[versions[i]], q.body).outcome.Threw?)
  {
    DeliveredExactly(s0, steps, id);
    hide After, CalledVersions, Run;
    var s, versions := After(Initial(s0), steps).value, CalledVersions(Initial(s0), steps, id);
    var q := s.mgr.subs[id];
    ChangesDiffer(q.isEqual, Results(s.history, q.body, versions));
    ResultsReturned(s.history, q.body, versions);
    NoResults(s.history, q.body, versions);
  }

  lemma {:induction false} NoResults(history: seq<Store>, body: Body, versions: seq<nat>)
    requires AllBelow(versions, |history|)
    ensures Results(history, body, versions) == []
       <==> forall i :: 0 <= i < |versions| ==> Run(history[versions[i]], body).outcome.Threw?
  {
    hide Run;
    if versions != [] {
      var before, last := versions[..|versions| - 1], versions[|versions| - 1];
      NoResults(history, body, before);
      assert forall i :: 0 <= i < |before| ==> before[i] == versions[i];
    }
  }

  // ---------- watchers ----------

  /** What one invocation of a watcher and its callback hand over: on an initial run nothing without initial values
    * or if the scan fails, and otherwise all it watches; on a regular run what its filter keeps of the diff, if
    * anything. */
  lemma WatcherInvocation(w: Sub, s: Store, kind: InvokeKind)
    requires w.Watcher?
    ensures Invoked(w, s, kind).0 == w
    ensures var after, options := CalledBack(w, Invoked(w, s, kind).1), WatchScan(w.name, w.prefix);
      match kind
      case InitialRun =>
        if !w.initialValues || ScanFails(s, options) then after == w
        else
          var entries := ScanEntries(MapOf(s, w.name), options);
          after == w.(handed := w.handed + [Filtered(w.name, Additions(entries), w.prefix)])
      case Regular(diffs) =>
        var kept := Filtered(w.name, DiffFor(diffs, w.name), w.prefix);
        after == if kept == [] then w else w.(handed := w.handed + [kept])
  {
    hide Filtered, ScanEntries;
  }
}
