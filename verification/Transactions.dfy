/** Read transactions that record what a subscription body reads. */
module Transactions {
  import opened Wrappers
  import opened Keys
  import opened Entries
  import opened ScanOptions
  import opened Scan
  import opened Diffs
  import opened ScanMatching

  // ---------- bodies ----------

  /** What a body does next: a read, or finishing with a result or an error.  `Next(i)` asks the `i`-th scan it
    * opened for one more entry, so scans can be interleaved, left undrained, or abandoned. */
  datatype Action =
    | Get(key: Key) | Has(key: Key) | IsEmpty | OpenScan(options: Options) | Next(scan: nat)
    | Return(result: Json) | Throw(error: Json)

  datatype Answer =
    | Value(value: Option<Json>) | Flag(flag: bool) | Opened | Item(entry: Entry<Json>) | Done | Failed

  /** A deterministic body: the answers so far determine what it does next.  A read beyond `bound` throws. */
  datatype Body = Body(next: seq<Answer> -> Action, bound: nat)

  datatype Outcome = Returned(result: Json) | Threw(error: Json)

  // ---------- the recording transaction ----------

  /** An open scan: how many times it was asked for an entry, and where its record is. */
  datatype Cursor = Cursor(options: Options, asked: nat, info: nat)

  datatype Tx = Tx(keys: set<Key>, scans: seq<ScanInfo>, cursors: seq<Cursor>)

  const FRESH_TX := Tx({}, [], [])

  const NO_OPTIONS := DbScanOptions(None, None, None, false, None, None)

  /** What a scan answers to the request that follows `asked` others. */
  ghost predicate EntryOrEnd(s: Store, options: Options, asked: nat, answer: Answer) {
    if ScanFails(s, options) then answer == if asked == 0 then Failed else Done
    else
      var entries := ScanEntries(MapOf(s, IndexNameOf(options)), options);
      answer == if asked < |entries| then Item(entries[asked]) else Done
  }

  /** The cursor was asked beyond its last entry, so the limit key has been reported. */
  ghost predicate Drained(s: Store, c: Cursor) {
    |StreamOf(s, c.options).entries| < c.asked
  }

  ghost function AnswerTo(s: Store, tx: Tx, action: Action): Answer
    requires !action.Return? && !action.Throw?
  {
    match action
    case Get(k) => Value(Lookup(s.primary, k))
    case Has(k) => Flag(k in s.primary)
    case IsEmpty => Flag(s.primary == map[])
    case OpenScan(_) => Opened
    case Next(i) =>
      if i >= |tx.cursors| then Done else
        var stream, asked := StreamOf(s, tx.cursors[i].options), tx.cursors[i].asked;
        if asked < |stream.entries| then Item(stream.entries[asked])
        else if stream.fails && asked == 0 then Failed else Done
  }

  ghost function Record(s: Store, tx: Tx, action: Action): Tx
    requires forall c :: c in tx.cursors ==> c.info < |tx.scans|
  {
    match action
    case Get(k) => tx.(keys := tx.keys + {k})
    case Has(k) => tx.(keys := tx.keys + {k})
    case IsEmpty => tx.(scans := tx.scans + [ScanInfo(NO_OPTIONS, None)])
    case OpenScan(options) =>
      tx.(scans := tx.scans + [ScanInfo(ToDbScanOptions(options), None)],
          cursors := tx.cursors + [Cursor(options, 0, |tx.scans|)])
    case Next(i) =>
      if i >= |tx.cursors| then tx else
        var c := tx.cursors[i];
        var c' := c.(asked := c.asked + 1);
        var stream := StreamOf(s, c.options);
        tx.(cursors := tx.cursors[i := c'],
            scans := if Drained(s, c') && stream.limitKey.Some?
                     then tx.scans[c.info := tx.scans[c.info].(inclusiveLimitKey := stream.limitKey)] else tx.scans)
    case _ => tx
  }

  /** Every cursor's record says what is known about its scan, and no two cursors share one. */
  ghost predicate WellRecorded(s: Store, tx: Tx) {
    && (forall c :: c in tx.cursors ==> c.info < |tx.scans|)
    && (forall i :: 0 <= i < |tx.cursors| ==>
          tx.scans[tx.cursors[i].info] == RecordedInfo(s, tx.cursors[i].options, Drained(s, tx.cursors[i])))
    && (forall i, j :: 0 <= i < j < |tx.cursors| ==> tx.cursors[i].info != tx.cursors[j].info)
  }

  lemma RecordKeepsWellRecorded(s: Store, tx: Tx, action: Action)
    requires WellRecorded(s, tx)
    ensures WellRecorded(s, Record(s, tx, action))
  {
    hide StreamOf, ToDbScanOptions;
    if action.Next? && action.scan < |tx.cursors| {
      var i, tx' := action.scan, Record(s, tx, action);
      assert tx.cursors[i] in tx.cursors;
      forall j | 0 <= j < |tx'.cursors|
        ensures tx'.cursors[j].info < |tx'.scans|
        ensures tx'.scans[tx'.cursors[j].info] == RecordedInfo(s, tx'.cursors[j].options, Drained(s, tx'.cursors[j]))
      {
        assert tx.cursors[j] in tx.cursors;
      }
    } else if action.OpenScan? {
      var tx' := Record(s, tx, action);
      forall j | 0 <= j < |tx'.cursors|
        ensures tx'.cursors[j].info < |tx'.scans|
        ensures tx'.scans[tx'.cursors[j].info] == RecordedInfo(s, tx'.cursors[j].options, Drained(s, tx'.cursors[j]))
        ensures j < |tx.cursors| ==> tx'.cursors[j].info < |tx.scans|
      {
        if j < |tx.cursors| { assert tx.cursors[j] in tx.cursors; }
      }
    }
  }

  // ---------- running a body ----------

  datatype RunResult = RunResult(outcome: Outcome, keys: set<Key>, scans: seq<ScanInfo>)

  ghost function RunFrom(s: Store, body: Body, tx: Tx, log: seq<Answer>): RunResult
    requires WellRecorded(s, tx)
    decreases body.bound - |log|
  {
    var action := body.next(log);
    if action.Return? then RunResult(Returned(action.result), tx.keys, tx.scans)
    else if action.Throw? then RunResult(Threw(action.error), tx.keys, tx.scans)
    else if |log| >= body.bound then RunResult(Threw(Null), tx.keys, tx.scans)
    else
      RecordKeepsWellRecorded(s, tx, action);
      RunFrom(s, body, Record(s, tx, action), log + [AnswerTo(s, tx, action)])
  }

  /** One run of a body on one version of the data, with the dependencies it records. */
  ghost function Run(s: Store, body: Body): RunResult {
    RunFrom(s, body, FRESH_TX, [])
  }

  /** Every scan the body can open has options that the matcher supports. */
  ghost predicate SupportedBody(body: Body) {
    forall log :: body.next(log).OpenScan? ==> MatcherSupports(body.next(log).options)
  }

  // ---------- the recorded dependencies suffice ----------

  /** Nothing that changed from `before` to `after` matches the recorded keys and scans. */
  ghost predicate NothingMatches(before: Store, after: Store, keys: set<Key>, scans: seq<ScanInfo>) {
    && (forall k :: k in keys ==> !Changed(before.primary, after.primary, k))
    && (forall info :: info in scans ==> Unmatched(before, after, info))
  }

  /** The finished run still holds every record of `tx`; at most limit keys of open scans were filled in. */
  ghost predicate RecordsKept(s: Store, tx: Tx, r: RunResult) {
    && tx.keys <= r.keys && |tx.scans| <= |r.scans|
    && (forall j :: 0 <= j < |tx.scans| ==> r.scans[j].options == tx.scans[j].options)
    && (forall c :: c in tx.cursors ==> c.info < |tx.scans| && CursorKept(s, c, r))
  }

  ghost predicate CursorKept(s: Store, c: Cursor, r: RunResult) {
    c.info < |r.scans| && exists d :: r.scans[c.info] == RecordedInfo(s, c.options, d)
  }

  /** The cursors of a recorded step continue those before it. */
  lemma CursorsContinue(s: Store, tx: Tx, action: Action, r: RunResult)
    requires WellRecorded(s, tx) && RecordsKept(s, Record(s, tx, action), r)
    ensures RecordsKept(s, tx, r)
  {
    hide StreamOf, ToDbScanOptions;
    var tx' := Record(s, tx, action);
    forall c | c in tx.cursors ensures CursorKept(s, c, r) {
      var i :| 0 <= i < |tx.cursors| && tx.cursors[i] == c;
      assert tx'.cursors[i] in tx'.cursors;
    }
  }

  lemma {:induction false} RunKeepsRecords(s: Store, body: Body, tx: Tx, log: seq<Answer>)
    requires WellRecorded(s, tx)
    ensures RecordsKept(s, tx, RunFrom(s, body, tx, log))
    decreases body.bound - |log|
  {
    hide StreamOf, Record, AnswerTo;
    var action := body.next(log);
    if action.Return? || action.Throw? || |log| >= body.bound {
      FinishedRecords(s, tx, RunFrom(s, body, tx, log));
    } else {
      RecordKeepsWellRecorded(s, tx, action);
      RunKeepsRecords(s, body, Record(s, tx, action), log + [AnswerTo(s, tx, action)]);
      CursorsContinue(s, tx, action, RunFrom(s, body, tx, log));
    }
  }

  lemma FinishedRecords(s: Store, tx: Tx, r: RunResult)
    requires WellRecorded(s, tx) && r.keys == tx.keys && r.scans == tx.scans
    ensures RecordsKept(s, tx, r)
  {
    forall c | c in tx.cursors ensures CursorKept(s, c, r) {
      var i :| 0 <= i < |tx.cursors| && tx.cursors[i] == c;
      assert r.scans[c.info] == RecordedInfo(s, c.options, Drained(s, c));
    }
  }

  lemma EmptinessAgrees(before: Store, after: Store, info: ScanInfo)
    requires info.options == NO_OPTIONS && Unmatched(before, after, info)
    ensures before.primary == after.primary
  {
    forall k ensures Lookup(before.primary, k) == Lookup(after.primary, k) {
      if Changed(before.primary, after.primary, k) {
        assert ScanInfoMatchesKey(info, [], k);
      }
    }
    assert forall k :: k in before.primary ==> Lookup(after.primary, k) == Some(before.primary[k]);
    assert forall k :: k in after.primary ==> Lookup(before.primary, k) == Some(after.primary[k]);
  }

  lemma StreamAgrees(before: Store, after: Store, options: Options, c: Cursor, r: RunResult)
    requires SameIndexes(before, after) && MatcherSupports(options)
    requires NothingMatches(before, after, r.keys, r.scans)
    requires c.options == options && CursorKept(before, c, r)
    ensures StreamOf(before, options) == StreamOf(after, options)
  {
    var d :| r.scans[c.info] == RecordedInfo(before, options, d);
    assert r.scans[c.info] in r.scans;
    ScanSound(before, after, options, d);
  }

  /** One read gives the same answer and the same record on both versions. */
  lemma ReadAgrees(before: Store, after: Store, tx: Tx, action: Action, r: RunResult)
    requires SameIndexes(before, after) && WellRecorded(before, tx)
    requires !action.Return? && !action.Throw?
    requires action.OpenScan? ==> MatcherSupports(action.options)
    requires forall c :: c in tx.cursors ==> MatcherSupports(c.options)
    requires RecordsKept(before, tx, r) && RecordsKept(before, Record(before, tx, action), r)
    requires NothingMatches(before, after, r.keys, r.scans)
    ensures AnswerTo(before, tx, action) == AnswerTo(after, tx, action)
    ensures Record(before, tx, action) == Record(after, tx, action)
  {
    hide StreamOf, ToDbScanOptions, MatcherSupports;
    match action
    case Get(k) => assert k in Record(before, tx, action).keys; assert !Changed(before.primary, after.primary, k);
    case Has(k) => assert k in Record(before, tx, action).keys; assert !Changed(before.primary, after.primary, k);
    case IsEmpty =>
      assert r.scans[|tx.scans|] in r.scans;
      assert Record(before, tx, action).scans[|tx.scans|].options == NO_OPTIONS;
      EmptinessAgrees(before, after, r.scans[|tx.scans|]);
    case OpenScan(_) =>
    case Next(i) =>
      if i < |tx.cursors| {
        assert tx.cursors[i] in tx.cursors;
        StreamAgrees(before, after, tx.cursors[i].options, tx.cursors[i], r);
      }
  }

  lemma {:induction false} RunsAgree(before: Store, after: Store, body: Body, tx: Tx, log: seq<Answer>)
    requires SameIndexes(before, after) && SupportedBody(body)
    requires WellRecorded(before, tx) && WellRecorded(after, tx)
    requires forall c :: c in tx.cursors ==> MatcherSupports(c.options)
    requires var r := RunFrom(before, body, tx, log); NothingMatches(before, after, r.keys, r.scans)
    ensures RunFrom(before, body, tx, log) == RunFrom(after, body, tx, log)
    decreases body.bound - |log|
  {
    hide StreamOf, Record, AnswerTo, MatcherSupports, NothingMatches, RecordsKept, SameIndexes;
    var action := body.next(log);
    if !action.Return? && !action.Throw? && |log| < body.bound {
      var tx' := Record(before, tx, action);
      var log' := log + [AnswerTo(before, tx, action)];
      var r := RunFrom(before, body, tx, log);
      RecordKeepsWellRecorded(before, tx, action);
      assert r == RunFrom(before, body, tx', log');
      RunKeepsRecords(before, body, tx, log);
      RunKeepsRecords(before, body, tx', log');
      ReadAgrees(before, after, tx, action, r);
      RecordKeepsWellRecorded(after, tx, action);
      CursorsSupported(before, tx, action);
      RunsAgree(before, after, body, tx', log');
    }
  }

  lemma CursorsSupported(s: Store, tx: Tx, action: Action)
    requires forall c :: c in tx.cursors ==> c.info < |tx.scans| && MatcherSupports(c.options)
    requires action.OpenScan? ==> MatcherSupports(action.options)
    ensures forall c :: c in Record(s, tx, action).cursors ==> MatcherSupports(c.options)
  {
    hide StreamOf, MatcherSupports, ToDbScanOptions;
  }

  /** The recorded dependencies suffice: if nothing that changed matches what one run recorded, the body makes the
    * same reads, records the same dependencies and has the same outcome on the changed data. */
  lemma DependenciesSuffice(before: Store, after: Store, body: Body)
    requires SameIndexes(before, after) && SupportedBody(body)
    requires NothingMatches(before, after, Run(before, body).keys, Run(before, body).scans)
    ensures Run(before, body) == Run(after, body)
  {
    RunsAgree(before, after, body, FRESH_TX, []);
  }

  lemma AnswerIsEntryOrEnd(s: Store, tx: Tx, i: nat)
    requires i < |tx.cursors|
    ensures EntryOrEnd(s, tx.cursors[i].options, tx.cursors[i].asked, AnswerTo(s, tx, Next(i)))
  {
    hide ScanEntries, ScanLimitKey, ScanFails, MapOf;
  }

  lemma RecordExists(s: Store, tx: Tx, i: nat)
    requires WellRecorded(s, tx) && i < |tx.cursors|
    ensures tx.cursors[i].info < |tx.scans| && forall c :: c in tx.cursors ==> c.info < |tx.scans|
  {
    assert tx.cursors[i] in tx.cursors;
  }

  // ---------- the transaction object ----------

  /** The wrapper handed to a subscription body.  `btree(name, from)` is the iteration of the map with that name from
    * a key on. */
  class SubscriptionTransactionWrapper {
    const store: Store
    const btree: (Key, Key) -> seq<Entry<Json>>
    var keys: set<Key>
    var scans: seq<ScanInfo>
    var cursors: seq<Cursor>
    var streams: seq<Stream>

    ghost function View(): Tx
      reads this
    {
      Tx(keys, scans, cursors)
    }

    ghost predicate Valid()
      reads this
    {
      && ValidStore(store)
      && (forall name, from :: btree(name, from) == ScanFrom(MapOf(store, name), from))
      && WellRecorded(store, View())
      && |streams| == |cursors|
      && forall i :: 0 <= i < |cursors| ==> streams[i] == StreamOf(store, cursors[i].options)
    }

    constructor (store: Store, btree: (Key, Key) -> seq<Entry<Json>>)
      requires ValidStore(store)
      requires forall name, from :: btree(name, from) == ScanFrom(MapOf(store, name), from)
      ensures Valid() && View() == FRESH_TX && this.store == store
    {
      this.store, this.btree := store, btree;
      keys, scans, cursors, streams := {}, [], [], [];
    }

    method Get(key: Key) returns (value: Option<Json>)
      requires Valid()
      modifies this
      ensures Valid() && View() == Record(store, old(View()), Action.Get(key))
      ensures Value(value) == AnswerTo(store, old(View()), Action.Get(key))
      ensures value.Some? <==> key in store.primary
      ensures value.Some? ==> value.value == store.primary[key]
    {
      RecordKeepsWellRecorded(store, View(), Action.Get(key));
      keys := keys + {key};
      value := Lookup(store.primary, key);
    }

    method Has(key: Key) returns (flag: bool)
      requires Valid()
      modifies this
      ensures Valid() && View() == Record(store, old(View()), Action.Has(key))
      ensures Flag(flag) == AnswerTo(store, old(View()), Action.Has(key))
      ensures flag <==> key in store.primary
    {
      RecordKeepsWellRecorded(store, View(), Action.Has(key));
      keys := keys + {key};
      flag := key in store.primary;
    }

    method IsEmpty() returns (flag: bool)
      requires Valid()
      modifies this
      ensures Valid() && View() == Record(store, old(View()), Action.IsEmpty)
      ensures Flag(flag) == AnswerTo(store, old(View()), Action.IsEmpty)
      ensures flag <==> |store.primary| == 0
    {
      RecordKeepsWellRecorded(store, View(), Action.IsEmpty);
      scans := scans + [ScanInfo(NO_OPTIONS, None)];
      flag := store.primary == map[];
    }

    method Scan(options: Options)
      requires Valid()
      modifies this
      ensures Valid() && View() == Record(store, old(View()), OpenScan(options))
      ensures Opened == AnswerTo(store, old(View()), OpenScan(options))
    {
      RecordKeepsWellRecorded(store, View(), OpenScan(options));
      var stream := OpenStream(options);
      cursors := cursors + [Cursor(options, 0, |scans|)];
      scans := scans + [ScanInfo(ToDbScanOptions(options), None)];
      streams := streams + [stream];
    }

    /** The entries the scan's iterator will yield. */
    method OpenStream(options: Options) returns (stream: Stream)
      requires Valid()
      ensures stream == StreamOf(store, options)
    {
      if ScanFails(store, options) {
        return Stream([], None, true);
      }
      var name := IndexNameOf(options);
      var entries, limitKey := ScanIterator(btree(name, FromKey(options).value), options, MapOf(store, name));
      return Stream(entries, limitKey, false);
    }

    /** The n-th request to a scan is answered with its n-th entry, and later ones with the end; the first request to a
      * scan of an unknown index, or with a key that cannot be encoded, fails. */
    method NextEntry(i: nat) returns (answer: Answer)
      requires Valid()
      modifies this
      ensures Valid() && View() == Record(store, old(View()), Next(i))
      ensures answer == AnswerTo(store, old(View()), Next(i))
      ensures i >= |old(cursors)| ==> answer == Done
      ensures i < |old(cursors)| ==> EntryOrEnd(store, old(cursors)[i].options, old(cursors)[i].asked, answer)
    {
      hide StreamOf, RecordedInfo, ScanFrom, MapOf, ValidStore, EntryOrEnd, WellRecorded;
      RecordKeepsWellRecorded(store, View(), Next(i));
      if i < |cursors| {
        AnswerIsEntryOrEnd(store, View(), i);
        RecordExists(store, View(), i);
      }
      if i >= |cursors| {
        return Done;
      }
      var c, stream := cursors[i], streams[i];
      assert c in View().cursors;
      cursors := cursors[i := c.(asked := c.asked + 1)];
      if c.asked < |stream.entries| {
        return Item(stream.entries[c.asked]);
      }
      if stream.limitKey.Some? {
        scans := scans[c.info := scans[c.info].(inclusiveLimitKey := stream.limitKey)];
      }
      return if stream.fails && c.asked == 0 then Failed else Done;
    }

    /** Runs a body against this transaction. */
    method Invoke(body: Body) returns (outcome: Outcome)
      requires Valid() && View() == FRESH_TX
      modifies this
      ensures RunResult(outcome, keys, scans) == Run(store, body)
    {
      hide StreamOf, Record, AnswerTo, RecordedInfo, Drained, ScanFrom, MapOf, ValidStore;
      var log := [];
      var action := body.next(log);
      while !action.Return? && !action.Throw? && |log| < body.bound
        invariant Valid() && action == body.next(log)
        invariant RunFrom(store, body, View(), log) == Run(store, body)
        decreases body.bound - |log|
      {
        ghost var tx := View();
        var answer := Opened;
        match action {
          case Get(k) => var v := Get(k); answer := Value(v);
          case Has(k) => var f := Has(k); answer := Flag(f);
          case IsEmpty => var f := IsEmpty(); answer := Flag(f);
          case OpenScan(options) => Scan(options);
          case Next(i) => answer := NextEntry(i);
        }
        assert View() == Record(store, tx, action) && answer == AnswerTo(store, tx, action);
        log := log + [answer];
        action := body.next(log);
      }
      outcome := if action.Return? then Returned(action.result) else if action.Throw? then Threw(action.error)
        else Threw(Null);
    }
  }
}
