/** The subscriptions manager and the steps that drive it. */
module Subscriptions {
  import opened Wrappers
  import opened Keys
  import opened IndexKeys
  import opened Diffs
  import opened ScanMatching
  import opened Transactions
  import opened Watch

  // ---------- subscriptions ----------

  /** A `subscribe` query or a watcher.  `delivered` is the list of values given to a query's callback so far, and
    * `handed` the list of diffs given to a watcher's. */
  datatype Sub =
    | Query(body: Body, isEqual: (Json, Json) -> bool, keys: set<Key>, scans: seq<ScanInfo>, lastValue: Option<Json>,
            delivered: seq<Json>)
    | Watcher(name: Key, prefix: Key, initialValues: bool, handed: seq<Diff>)

  datatype Result = QueryResult(outcome: Outcome) | WatcherResult(diff: Option<Diff>) | WatcherFailed

  predicate IsNew(sub: Sub) {
    match sub
    case Query(_, _, keys, scans, lastValue, delivered) =>
      keys == {} && scans == [] && lastValue == None && delivered == []
    case Watcher(_, _, _, handed) => handed == []
  }

  predicate HasIndexSubscription(sub: Sub, name: Key) {
    match sub
    case Query(_, _, _, scans, _, _) => exists info :: info in scans && info.options.indexName == Some(name)
    case Watcher(n, _, _, _) => n == name
  }

  predicate ScanInfoMatchesDiff(info: ScanInfo, name: Key, d: Diff) {
    exists e :: e in d && (name != [] ==> DecodeIndexKey(e.key).Some?) && ScanInfoMatchesKey(info, name, e.key)
  }

  predicate DiffMatchesSubscription(keys: set<Key>, scans: seq<ScanInfo>, name: Key, d: Diff) {
    || (name == [] && exists e :: e in d && e.key in keys)
    || exists info :: info in scans && ScanInfoMatchesDiff(info, name, d)
  }

  predicate Matches(sub: Sub, diffs: DiffsMap) {
    match sub
    case Query(_, _, keys, scans, _, _) =>
      exists name :: name in diffs && DiffMatchesSubscription(keys, scans, name, diffs[name])
    case Watcher(name, prefix, _, _) => name in diffs && WatcherMatchesDiff(name, diffs[name], prefix)
  }

  /** One invocation on one version of the data, with the dependencies it leaves behind. */
  ghost function Invoked(sub: Sub, s: Store, kind: InvokeKind): (Sub, Result) {
    match sub
    case Query(body, _, _, _, _, _) =>
      var r := Run(s, body);
      (sub.(keys := r.keys, scans := r.scans), QueryResult(r.outcome))
    case Watcher(name, prefix, initialValues, _) =>
      var stream := StreamOf(s, WatchScan(name, prefix));
      if kind.InitialRun? && initialValues && stream.fails then (sub, WatcherFailed)
      else (sub, WatcherResult(WatchResult(name, prefix, initialValues, kind, stream.entries)))
  }

  /** The callback of a finished invocation. */
  function CalledBack(sub: Sub, result: Result): Sub {
    match (sub, result)
    case (Query(_, isEqual, _, _, lastValue, delivered), QueryResult(Returned(v))) =>
      if lastValue.None? || !isEqual(lastValue.value, v)
      then sub.(lastValue := Some(v), delivered := delivered + [v]) else sub
    case (Watcher(_, _, _, handed), WatcherResult(Some(d))) => sub.(handed := handed + [d])
    case _ => sub
  }

  // ---------- the state ----------

  type Id = nat

  /** Subscriptions whose invocation on one snapshot has been requested. */
  datatype Batch = Batch(subs: set<Id>, kind: InvokeKind)

  /** A batch that has run, on the version with this number, and whose callbacks are still to be called. */
  datatype Finished = Finished(results: map<Id, Result>, version: nat)

  /** `subs` holds every subscription object ever added; the registered ones are those not removed. */
  datatype Manager = Manager(subs: map<Id, Sub>, registered: set<Id>, pending: set<Id>, hasPendingRuns: bool,
      aborted: bool)

  /** The diffs of the commit that followed the version with this number, still to be fired. */
  datatype Unfired = Unfired(diffs: DiffsMap, version: nat)

  /** `history` lists all committed versions, the current one last.  `ranAt` notes on which version a query last ran. */
  datatype State = State(
    history: seq<Store>, mgr: Manager, unfired: seq<Unfired>, queue: seq<Batch>, finished: seq<Finished>,
    ranAt: map<Id, nat>)

  function Initial(s: Store): State {
    State([s], Manager(map[], {}, {}, false, false), [], [], [], map[])
  }

  function Current(s: State): Store
    requires |s.history| > 0
  {
    s.history[|s.history| - 1]
  }

  // ---------- the steps ----------

  /** The sections that run without interruption.  A commit computes diffs; `Fire(i)` matches the `i`-th of those still
    * to be fired, in any order: a refresh waits for the persistent store between its commit and firing its diffs, and
    * mutations may commit and fire in between.  Batches wait for a read lock and run on the version current at that
    * time; callbacks follow later.  Batches may overtake each other, but callbacks of a later version never precede
    * those of an earlier one. */
  datatype Step =
    | AddSub(id: Id, sub: Sub) | StartInitialRun
    | Commit(after: Store) | Fire(i: nat) | RunBatch(i: nat) | CallCallbacks(i: nat)
    | Remove(id: Id) | Clear | Abort

  /** The diffs a commit computes: none without subscriptions, an index's only if some subscription uses it. */
  ghost function WantedDiffs(m: Manager, s: Store): set<Key> {
    if m.registered == {} then {} else
      {[]} + set name | name in s.indexes
        && exists id :: id in m.registered && id in m.subs && HasIndexSubscription(m.subs[id], name)
  }

  ghost function Matched(m: Manager, diffs: DiffsMap): set<Id> {
    set id | id in m.registered && id in m.subs && Matches(m.subs[id], diffs)
  }

  ghost function InvokeAll(m: Manager, b: Batch, s: Store): Manager {
    m.(subs := map id | id in m.subs :: if id in b.subs then Invoked(m.subs[id], s, b.kind).0 else m.subs[id])
  }

  ghost function ResultsOf(m: Manager, b: Batch, s: Store): map<Id, Result> {
    map id | id in b.subs && id in m.subs :: Invoked(m.subs[id], s, b.kind).1
  }

  function CallBackAll(m: Manager, results: map<Id, Result>): Manager {
    m.(subs := map id | id in m.subs :: if id in results then CalledBack(m.subs[id], results[id]) else m.subs[id])
  }

  function Without<T>(xs: seq<T>, i: nat): seq<T>
    requires i < |xs|
  {
    xs[..i] + xs[i + 1..]
  }

  ghost predicate Enabled(s: State, step: Step) {
    |s.history| > 0 &&
    match step
    case AddSub(id, sub) => id !in s.mgr.subs && IsNew(sub)
    case StartInitialRun => s.mgr.hasPendingRuns
    case Commit(after) => SameIndexes(Current(s), after)
    case Fire(i) => i < |s.unfired|
    case RunBatch(i) => i < |s.queue|
    case CallCallbacks(i) =>
      i < |s.finished| && forall j :: 0 <= j < |s.finished| ==> s.finished[i].version <= s.finished[j].version
    case _ => true
  }

  function Enqueued(queue: seq<Batch>, m: Manager, subs: set<Id>, kind: InvokeKind): seq<Batch> {
    if m.aborted || subs == {} then queue else queue + [Batch(subs, kind)]
  }

  ghost function Stepped(s: State, step: Step): State
    requires Enabled(s, step)
  {
    var m := s.mgr;
    match step
    case AddSub(id, sub) =>
      s.(mgr := m.(subs := m.subs[id := sub], registered := m.registered + {id}, pending := m.pending + {id},
                   hasPendingRuns := true))
    case StartInitialRun =>
      s.(mgr := m.(pending := {}, hasPendingRuns := false), queue := Enqueued(s.queue, m, m.pending, InitialRun))
    case Commit(after) =>
      s.(history := s.history + [after],
         unfired := s.unfired + [Unfired(DiffsBetween(Current(s), after, WantedDiffs(m, after)), |s.history| - 1)])
    case Fire(i) =>
      s.(unfired := Without(s.unfired, i),
         queue := Enqueued(s.queue, m, Matched(m, s.unfired[i].diffs), Regular(s.unfired[i].diffs)))
    case RunBatch(i) =>
      var b := s.queue[i];
      s.(queue := Without(s.queue, i), mgr := InvokeAll(m, b, Current(s)),
         finished := s.finished + [Finished(ResultsOf(m, b, Current(s)), |s.history| - 1)],
         ranAt := s.ranAt + map id | id in b.subs :: |s.history| - 1)
    case CallCallbacks(i) =>
      s.(finished := Without(s.finished, i), mgr := CallBackAll(m, s.finished[i].results))
    case Remove(id) => s.(mgr := m.(registered := m.registered - {id}))
    case Clear => s.(mgr := m.(registered := {}))
    case Abort => s.(mgr := m.(aborted := true))
  }

  /** The state after some steps, or `None` if one of them was not possible. */
  ghost function After(s: State, steps: seq<Step>): Option<State> {
    if steps == [] then Some(s) else
      var before := After(s, steps[..|steps| - 1]);
      var step := steps[|steps| - 1];
      if before.Some? && Enabled(before.value, step) then Some(Stepped(before.value, step)) else None
  }

  /** Nothing is under way: no diff to fire, no run requested or waiting for its callbacks. */
  predicate Quiescent(s: State) {
    s.unfired == [] && s.queue == [] && s.finished == [] && s.mgr.pending == {}
  }
}
