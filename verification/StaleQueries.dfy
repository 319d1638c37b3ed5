/** A query over an unsupported scan can stay stale: the condition on scans is needed, option by option. */
module StaleQueries {
  import opened Wrappers
  import opened Keys
  import opened Entries
  import opened IndexKeys
  import opened ScanOptions
  import opened Diffs
  import opened ScanMatching
  import opened Transactions
  import opened Watch
  import opened Subscriptions
  import opened SubscriptionRuns

  // ---------- a body that returns the entries of a scan ----------

  function EntryJson(e: Entry<Json>): Json {
    Array([Text(e.key), e.value])
  }

  function EntriesJson(es: seq<Entry<Json>>): seq<Json> {
    seq(|es|, i requires 0 <= i < |es| => EntryJson(es[i]))
  }

  function Items(es: seq<Entry<Json>>): seq<Answer> {
    seq(|es|, i requires 0 <= i < |es| => Item(es[i]))
  }

  function Collected(log: seq<Answer>): seq<Json> {
    if log == [] then [] else
      var before, last := Collected(log[..|log| - 1]), log[|log| - 1];
      if last.Item? then before + [EntryJson(last.entry)] else before
  }

  /** Opens the scan, asks for entries until there are none, and returns them. */
  function DrainNext(options: Options, log: seq<Answer>): Action {
    if log == [] then OpenScan(options)
    else if log[|log| - 1].Opened? || log[|log| - 1].Item? then Next(0)
    else Return(Array(Collected(log)))
  }

  function DrainBody(options: Options, bound: nat): Body {
    Body(log => DrainNext(options, log), bound)
  }

  lemma {:induction false} CollectedItems(es: seq<Entry<Json>>)
    ensures Collected([Opened] + Items(es)) == EntriesJson(es)
  {
    var log := [Opened] + Items(es);
    if es == [] {
      assert log[..0] == [];
    } else {
      var before := es[..|es| - 1];
      assert log[..|log| - 1] == [Opened] + Items(before);
      CollectedItems(before);
      assert EntriesJson(es) == EntriesJson(before) + [EntryJson(es[|es| - 1])];
    }
  }

  /** The transaction of such a body that has got `i` entries. */
  function DrainTx(options: Options, i: nat): Tx {
    Tx({}, [ScanInfo(ToDbScanOptions(options), None)], [Cursor(options, i, 0)])
  }

  ghost function DrainResult(s: Store, options: Options): RunResult {
    RunResult(Returned(Array(EntriesJson(StreamOf(s, options).entries))), {}, [RecordedInfo(s, options, true)])
  }

  lemma DrainWellRecorded(s: Store, options: Options, i: nat)
    requires i <= |StreamOf(s, options).entries|
    ensures WellRecorded(s, DrainTx(options, i))
  {
    hide StreamOf, ToDbScanOptions;
  }

  /** The last request gets no entry and reports the limit key. */
  lemma DrainEnds(s: Store, options: Options)
    requires !ScanFails(s, options)
    ensures var tx := DrainTx(options, |StreamOf(s, options).entries|);
      && AnswerTo(s, tx, Next(0)) == Done
      && Record(s, tx, Next(0)).keys == {} && Record(s, tx, Next(0)).scans == [RecordedInfo(s, options, true)]
  {
    hide ToDbScanOptions;
  }

  lemma DrainStep(s: Store, options: Options, i: nat)
    requires i < |StreamOf(s, options).entries|
    ensures var tx := DrainTx(options, i);
      AnswerTo(s, tx, Next(0)) == Item(StreamOf(s, options).entries[i])
        && Record(s, tx, Next(0)) == DrainTx(options, i + 1)
  {
    hide StreamOf, ToDbScanOptions;
  }

  lemma DrainAction(options: Options, es: seq<Entry<Json>>)
    ensures DrainNext(options, [Opened] + Items(es)) == Next(0)
    ensures DrainNext(options, [Opened] + Items(es) + [Done]) == Return(Array(EntriesJson(es)))
  {
    CollectedItems(es);
    var log := [Opened] + Items(es) + [Done];
    assert log[..|log| - 1] == [Opened] + Items(es);
  }

  lemma {:induction false} DrainFrom(s: Store, options: Options, bound: nat, i: nat)
    requires !ScanFails(s, options) && i <= |StreamOf(s, options).entries|
      && |StreamOf(s, options).entries| + 2 <= bound
    requires WellRecorded(s, DrainTx(options, i))
    ensures RunFrom(s, DrainBody(options, bound), DrainTx(options, i), [Opened]
      + Items(StreamOf(s, options).entries[..i]))
         == DrainResult(s, options)
    decreases |StreamOf(s, options).entries| - i
  {
    hide StreamOf, Record, AnswerTo, ToDbScanOptions, DrainNext;
    var es := StreamOf(s, options).entries;
    var tx, log := DrainTx(options, i), [Opened] + Items(es[..i]);
    DrainAction(options, es[..i]);
    RecordKeepsWellRecorded(s, tx, Next(0));
    if i < |es| {
      DrainStep(s, options, i);
      assert log + [Item(es[i])] == [Opened] + Items(es[..i + 1]);
      DrainFrom(s, options, bound, i + 1);
    } else {
      DrainEnds(s, options);
      assert es[..i] == es;
    }
  }

  /** Such a body returns exactly the entries of the scan, and records the drained scan. */
  lemma DrainRun(s: Store, options: Options, bound: nat)
    requires !ScanFails(s, options) && |StreamOf(s, options).entries| + 2 <= bound
    ensures Run(s, DrainBody(options, bound)) == DrainResult(s, options)
  {
    hide StreamOf, ToDbScanOptions;
    DrainWellRecorded(s, options, 0);
    assert Record(s, FRESH_TX, OpenScan(options)) == DrainTx(options, 0);
    assert [] + [Opened] == [Opened] + Items(StreamOf(s, options).entries[..0]);
    DrainFrom(s, options, bound, 0);
  }

  lemma DifferentEntries(a: seq<Entry<Json>>, b: seq<Entry<Json>>)
    requires EntriesJson(a) == EntriesJson(b)
    ensures a == b
  {
    assert |a| == |EntriesJson(a)| == |EntriesJson(b)| == |b|;
    forall i | 0 <= i < |a| ensures a[i] == b[i] {
      assert EntriesJson(a)[i] == EntriesJson(b)[i];
      assert EntryJson(a[i]).items[0] == EntryJson(b[i]).items[0]
        && EntryJson(a[i]).items[1] == EntryJson(b[i]).items[1];
    }
  }

  // ---------- a run in which the query is not run again ----------

  /** The query of such a body, after its last run, with the last value delivered. */
  function DrainQuery(options: Options, bound: nat, scans: seq<ScanInfo>, delivered: seq<Json>): Sub {
    var lastValue := if delivered == [] then None else Some(delivered[|delivered| - 1]);
    Query(DrainBody(options, bound), (a: Json, b: Json) => a == b, {}, scans, lastValue, delivered)
  }

  function QueryState(history: seq<Store>, q: Sub, unfired: seq<Unfired>, queue: seq<Batch>, finished: seq<Finished>,
      ranAt: map<Id, nat>): State
  {
    State(history, Manager(map[0 := q], {0}, {}, false, false), unfired, queue, finished, ranAt)
  }

  lemma Follows(s0: State, steps: seq<Step>, s: State, step: Step, s': State) returns (longer: seq<Step>)
    requires After(s0, steps) == Some(s) && Enabled(s, step) && s' == Stepped(s, step)
    ensures longer == steps + [step] && After(s0, longer) == Some(s')
  {
    longer := steps + [step];
    assert longer[..|steps|] == steps;
  }

  lemma AddQuery(s0: Store, q: Sub)
    requires IsNew(q)
    ensures Enabled(Initial(s0), AddSub(0, q))
    ensures Stepped(Initial(s0), AddSub(0, q))
      == State([s0], Manager(map[0 := q], {0}, {0}, true, false), [], [], [], map[])
  {
    assert {} + {0} == {0};
  }

  lemma RequestQuery(s0: Store, q: Sub)
    ensures var s := State([s0], Manager(map[0 := q], {0}, {0}, true, false), [], [], [], map[]);
      && Enabled(s, StartInitialRun)
      && Stepped(s, StartInitialRun) == QueryState([s0], q, [], [Batch({0}, InitialRun)], [], map[])
  {
  }

  lemma RunQuery(s0: Store, q: Sub, q': Sub, outcome: Outcome)
    requires Invoked(q, s0, InitialRun) == (q', QueryResult(outcome))
    ensures var s := QueryState([s0], q, [], [Batch({0}, InitialRun)], [], map[]);
      && Enabled(s, RunBatch(0))
      && Stepped(s, RunBatch(0)) == QueryState([s0], q', [], [], [Finished(map[0 := QueryResult(outcome)], 0)],
        map[0 := 0])
  {
    hide Invoked;
    var s, b := QueryState([s0], q, [], [Batch({0}, InitialRun)], [], map[]), Batch({0}, InitialRun);
    assert Without([b], 0) == [];
    assert InvokeAll(s.mgr, b, s0).subs == map[0 := q'];
    assert ResultsOf(s.mgr, b, s0) == map[0 := QueryResult(outcome)];
    assert map[] + (map x | x in b.subs :: 0) == map[0 := 0];
  }

  lemma DeliverQuery(s0: Store, q: Sub, q': Sub, outcome: Outcome)
    requires CalledBack(q, QueryResult(outcome)) == q'
    ensures var s := QueryState([s0], q, [], [], [Finished(map[0 := QueryResult(outcome)], 0)], map[0 := 0]);
      && Enabled(s, CallCallbacks(0))
      && Stepped(s, CallCallbacks(0)) == QueryState([s0], q', [], [], [], map[0 := 0])
  {
    hide CalledBack;
    var s := QueryState([s0], q, [], [], [Finished(map[0 := QueryResult(outcome)], 0)], map[0 := 0]);
    assert CallBackAll(s.mgr, s.finished[0].results).subs == map[0 := q'];
    assert Without(s.finished, 0) == [];
  }

  lemma CommitUnseen(s0: Store, s1: Store, q: Sub)
    requires SameIndexes(s0, s1)
    ensures var s := QueryState([s0], q, [], [], [], map[0 := 0]);
      var d := DiffsBetween(s0, s1, WantedDiffs(s.mgr, s1));
      && Enabled(s, Commit(s1))
      && Stepped(s, Commit(s1)) == QueryState([s0] + [s1], q, [Unfired(d, 0)], [], [], map[0 := 0])
  {
    hide DiffsBetween, WantedDiffs;
    assert [] + [Unfired(DiffsBetween(s0, s1, WantedDiffs(QueryState([s0], q, [], [], [], map[0 := 0]).mgr, s1)), 0)]
        == [Unfired(DiffsBetween(s0, s1, WantedDiffs(QueryState([s0], q, [], [], [], map[0 := 0]).mgr, s1)), 0)];
  }

  lemma FireUnseen(history: seq<Store>, q: Sub, d: DiffsMap)
    requires history != [] && !Matches(q, d)
    ensures var s := QueryState(history, q, [Unfired(d, 0)], [], [], map[0 := 0]);
      Enabled(s, Fire(0)) && Stepped(s, Fire(0)) == QueryState(history, q, [], [], [], map[0 := 0])
  {
    hide Matches;
    var s := QueryState(history, q, [Unfired(d, 0)], [], [], map[0 := 0]);
    assert Matched(s.mgr, d) == {};
    assert Without(s.unfired, 0) == [];
  }

  /** Diffs in which nothing matches the only recorded scan do not match the query. */
  lemma UnmatchedNotMatched(q: Sub, info: ScanInfo, before: Store, after: Store, wanted: set<Key>)
    requires q.Query? && q.keys == {} && q.scans == [info] && Unmatched(before, after, info)
    ensures !Matches(q, DiffsBetween(before, after, wanted))
  {
    hide ScanInfoMatchesDiff, Unmatched, DiffOf, MapOf;
    var d := DiffsBetween(before, after, wanted);
    forall name | name in d ensures !DiffMatchesSubscription(q.keys, q.scans, name, d[name]) {
      NoEntryMatches(info, before, after, name);
    }
  }

  lemma NoEntryMatches(info: ScanInfo, before: Store, after: Store, name: Key)
    requires Unmatched(before, after, info)
    ensures !ScanInfoMatchesDiff(info, name, DiffOf(MapOf(before, name), MapOf(after, name)))
  {
    hide ScanInfoMatchesKey, DecodeIndexKey;
    var d := DiffOf(MapOf(before, name), MapOf(after, name));
    forall e: Entry<Change> | e in d && (name != [] ==> DecodeIndexKey(e.key).Some?)
      ensures !ScanInfoMatchesKey(info, name, e.key)
    {
      if name == OrEmpty(info.options.indexName) {
        assert Changed(MapOf(before, name), MapOf(after, name), e.key);
      } else {
        OtherMapNotMatched(info, name, e.key);
      }
    }
  }

  lemma OtherMapNotMatched(info: ScanInfo, name: Key, k: Key)
    requires name != OrEmpty(info.options.indexName) && (name != [] ==> DecodeIndexKey(k).Some?)
    ensures !ScanInfoMatchesKey(info, name, k)
  {
  }

  /** A commit that the matcher misses leaves the query as it is. */
  lemma NotRunAgain(before: Store, after: Store, options: Options, bound: nat) returns (steps: seq<Step>)
    requires SameIndexes(before, after) && Unmatched(before, after, RecordedInfo(before, options, true))
    requires Run(before, DrainBody(options, bound)) == DrainResult(before, options)
    ensures var r := DrainResult(before, options);
      After(Initial(before), steps)
      == Some(QueryState([before] + [after], DrainQuery(options, bound, r.scans, [r.outcome.result]), [], [], [],
        map[0 := 0]))
  {
    hide Run, StreamOf, RecordedInfo, ToDbScanOptions, Unmatched, SameIndexes, DrainNext, DrainResult;
    var r := DrainResult(before, options);
    DrainResultReturns(before, options);
    var q := DrainQuery(options, bound, [], []);
    var ran := DrainQuery(options, bound, r.scans, []);
    var done := DrainQuery(options, bound, r.scans, [r.outcome.result]);
    var s0, added := Initial(before), State([before], Manager(map[0 := q], {0}, {0}, true, false), [], [], [], map[]);
    AddQuery(before, q);
    RequestQuery(before, q);
    assert Invoked(q, before, InitialRun) == (ran, QueryResult(r.outcome));
    RunQuery(before, q, ran, r.outcome);
    DeliverQuery(before, ran, done, r.outcome);
    var d := DiffsBetween(before, after, WantedDiffs(QueryState([before], done, [], [], [], map[0 := 0]).mgr, after));
    CommitUnseen(before, after, done);
    UnmatchedNotMatched(done, RecordedInfo(before, options, true), before, after,
                        WantedDiffs(QueryState([before], done, [], [], [], map[0 := 0]).mgr, after));
    FireUnseen([before] + [after], done, d);
    hide After, Enabled, Stepped, Matches, DiffsBetween, WantedDiffs;
    assert After(s0, []) == Some(s0) by { StartsAt(s0); }
    steps := Follows(s0, [], s0, AddSub(0, q), added);
    steps := Follows(s0, steps, added, StartInitialRun,
                     QueryState([before], q, [], [Batch({0}, InitialRun)], [], map[]));
    steps := Follows(s0, steps, QueryState([before], q, [], [Batch({0}, InitialRun)], [], map[]), RunBatch(0),
                     QueryState([before], ran, [], [], [Finished(map[0 := QueryResult(r.outcome)], 0)], map[0 := 0]));
    steps := Follows(s0, steps, QueryState([before], ran, [], [], [Finished(map[0 := QueryResult(r.outcome)], 0)],
                                           map[0 := 0]),
                     CallCallbacks(0), QueryState([before], done, [], [], [], map[0 := 0]));
    steps := Follows(s0, steps, QueryState([before], done, [], [], [], map[0 := 0]), Commit(after),
                     QueryState([before] + [after], done, [Unfired(d, 0)], [], [], map[0 := 0]));
    steps := Follows(s0, steps, QueryState([before] + [after], done, [Unfired(d, 0)], [], [], map[0 := 0]), Fire(0),
                     QueryState([before] + [after], done, [], [], [], map[0 := 0]));
  }

  lemma StartsAt(s: State)
    ensures After(s, []) == Some(s)
  {
  }

  lemma DrainResultReturns(s: Store, options: Options)
    ensures var r := DrainResult(s, options);
      && r.outcome == Returned(Array(EntriesJson(StreamOf(s, options).entries)))
      && r.keys == {} && r.scans == [RecordedInfo(s, options, true)]
  {
  }

  // ---------- the condition on scans is needed ----------

  /** Nothing is under way, and the registered query's last value is not what its body returns on the current data. */
  ghost predicate IsStale(s: State, id: Id) {
    && Quiescent(s) && !s.mgr.aborted && |s.history| > 0 && id in s.mgr.registered && IsQuery(s, id)
    && var q := s.mgr.subs[id];
       !Notified(q, Run(Current(s), q.body).outcome)
  }

  /** The query's body returns the entries of one scan, and its values are compared for equality. */
  ghost predicate IsDrainQuery(s: State, id: Id, options: Options) {
    && IsQuery(s, id)
    && exists bound: nat, scans, delivered :: s.mgr.subs[id] == DrainQuery(options, bound, scans, delivered)
  }

  /** A run in which the engine lets a query over such a scan go stale. */
  ghost predicate GoesStale(before: Store, steps: seq<Step>, options: Options) {
    && ValidStore(before) && After(Initial(before), steps).Some?
    && var s := After(Initial(before), steps).value;
       exists id :: IsDrainQuery(s, id, options) && IsStale(s, id)
  }

  lemma MissedDoesNotFail(before: Store, after: Store, options: Options)
    requires Misses(before, after, options, true)
    ensures !ScanFails(before, options) && !ScanFails(after, options)
  {
  }

  lemma MissedGoesStale(before: Store, after: Store, options: Options) returns (steps: seq<Step>)
    requires Misses(before, after, options, true)
    ensures GoesStale(before, steps, options)
  {
    MissedDoesNotFail(before, after, options);
    var a, b := StreamOf(before, options).entries, StreamOf(after, options).entries;
    var bound := |a| + |b| + 2;
    DrainRun(before, options, bound);
    DrainRun(after, options, bound);
    steps := NotRunAgain(before, after, options, bound);
    DrainResultReturns(before, options);
    DrainResultReturns(after, options);
    hide After, Run, StreamOf, DrainResult, RecordedInfo, DrainNext;
    if EntriesJson(a) == EntriesJson(b) { DifferentEntries(a, b); }
    var s := After(Initial(before), steps).value;
    StaleNow(s, options, bound, DrainResult(before, options).scans, Array(EntriesJson(a)), Array(EntriesJson(b)));
  }

  lemma StaleNow(s: State, options: Options, bound: nat, scans: seq<ScanInfo>, was: Json, now: Json)
    requires |s.history| > 0 && was != now && Run(Current(s), DrainBody(options, bound)).outcome == Returned(now)
    requires s == QueryState(s.history, DrainQuery(options, bound, scans, [was]), [], [], [], map[0 := 0])
    ensures IsDrainQuery(s, 0, options) && IsStale(s, 0)
  {
    hide Run, DrainNext;
  }

  lemma DrainIsSupported(options: Options, bound: nat)
    requires MatcherSupports(options)
    ensures SupportedBody(DrainBody(options, bound))
  {
    hide MatcherSupports, Collected;
  }

  /** The engine needs the condition on scans exactly: the queries over a scan are current in every run if and only
    * if its options are supported. */
  lemma SupportIsNeeded(options: Options)
    ensures MatcherSupports(options) <==> forall before, steps :: !GoesStale(before, steps, options)
  {
    hide After, IsStale, IsDrainQuery;
    if MatcherSupports(options) {
      forall before, steps ensures !GoesStale(before, steps, options) {
        if GoesStale(before, steps, options) {
          SupportedNotStale(before, steps, options);
        }
      }
    } else {
      var before, after;
      if options.Plain? {
        before, after := PlainUnsound(options, true);
      } else {
        before, after := IndexUnsound(options, true);
      }
      hide MatcherSupports, Misses;
      var steps := MissedGoesStale(before, after, options);
    }
  }

  lemma SupportedNotStale(before: Store, steps: seq<Step>, options: Options)
    requires MatcherSupports(options) && ValidStore(before) && After(Initial(before), steps).Some?
    ensures var s := After(Initial(before), steps).value;
      forall id :: IsDrainQuery(s, id, options) ==> !IsStale(s, id)
  {
    hide After, MatcherSupports, Run, DrainNext, SupportedBody;
    var s := After(Initial(before), steps).value;
    forall id | IsDrainQuery(s, id, options) ensures !IsStale(s, id) {
      var bound: nat, scans, delivered :| s.mgr.subs[id] == DrainQuery(options, bound, scans, delivered);
      DrainIsSupported(options, bound);
      if IsStale(s, id) {
        QueriesAreCurrent(before, steps, id);
      }
    }
  }
}
