/** Every registered query's last delivered value agrees with its body on the current data. */
module SubscriptionRuns {
  import opened Keys
  import opened Entries
  import opened IndexKeys
  import opened ScanOptions
  import opened Diffs
  import opened ScanMatching
  import opened Transactions
  import opened Watch
  import opened Subscriptions

  // ---------- the shape of every reachable state ----------

  ghost predicate DiffsRight(d: DiffsMap, before: Store, after: Store) {
    forall name :: name in d ==> d[name] == DiffOf(MapOf(before, name), MapOf(after, name))
  }

  ghost predicate UnfiredRight(history: seq<Store>, u: Unfired) {
    u.version + 1 < |history| && DiffsRight(u.diffs, history[u.version], history[u.version + 1])
  }

  ghost predicate GoodHistory(s: State) {
    && |s.history| > 0
    && (forall i :: 0 <= i < |s.history| ==> SameIndexes(s.history[0], s.history[i]))
    && forall u :: u in s.unfired ==> UnfiredRight(s.history, u)
  }

  ghost predicate GoodIds(s: State) {
    var ids := s.mgr.subs.Keys;
    && s.mgr.registered <= ids && s.mgr.pending <= ids && s.ranAt.Keys <= ids
    && (forall b :: b in s.queue ==> b.subs <= ids)
    && (forall f :: f in s.finished ==> f.results.Keys <= ids && f.version < |s.history|)
    && (s.mgr.pending != {} ==> s.mgr.hasPendingRuns)
  }

  // ---------- one query ----------

  ghost predicate IsQuery(s: State, id: Id) {
    id in s.mgr.subs && s.mgr.subs[id].Query?
  }

  /** A run of the query has been requested and has not started. */
  ghost predicate Waiting(s: State, id: Id) {
    id in s.mgr.pending || exists b :: b in s.queue && id in b.subs
  }

  /** The diffs include the primary map's and those of every index the recorded scans use. */
  ghost predicate Covers(d: DiffsMap, before: Store, after: Store, scans: seq<ScanInfo>) {
    && DiffFor(d, []) == DiffOf(before.primary, after.primary)
    && forall info :: info in scans ==>
         var name := OrEmpty(info.options.indexName);
         DiffFor(d, name) == DiffOf(MapOf(before, name), MapOf(after, name))
  }

  /** The diffs that followed a version are still to be fired and cover the recorded scans. */
  ghost predicate ToBeFired(history: seq<Store>, unfired: seq<Unfired>, i: nat, scans: seq<ScanInfo>)
    requires i + 1 < |history|
  {
    exists u :: u in unfired && u.version == i && Covers(u.diffs, history[i], history[i + 1], scans)
  }

  /** The commit that followed version `i` is no reason to run the query again, or will be one when it is fired. */
  ghost predicate CommitHandled(history: seq<Store>, unfired: seq<Unfired>, i: nat, keys: set<Key>,
      scans: seq<ScanInfo>)
    requires i + 1 < |history|
  {
    ToBeFired(history, unfired, i, scans) || NothingMatches(history[i], history[i + 1], keys, scans)
  }

  /** The query's last run recorded its present dependencies, and every commit since then is handled. */
  ghost predicate Fresh(s: State, id: Id)
    requires IsQuery(s, id)
  {
    var q := s.mgr.subs[id];
    && id in s.ranAt && s.ranAt[id] < |s.history|
    && Run(s.history[s.ranAt[id]], q.body).keys == q.keys && Run(s.history[s.ranAt[id]], q.body).scans == q.scans
    && forall i: nat ::
         s.ranAt[id] <= i && i + 1 < |s.history| ==> CommitHandled(s.history, s.unfired, i, q.keys, q.scans)
  }

  /** The last delivered value stands for the outcome. */
  ghost predicate Notified(q: Sub, outcome: Outcome)
    requires q.Query?
  {
    outcome.Returned? ==>
      q.lastValue.Some? && (q.lastValue.value == outcome.result || q.isEqual(q.lastValue.value, outcome.result))
  }

  ghost predicate RightResult(s: State, id: Id, f: Finished)
    requires IsQuery(s, id) && id in f.results
  {
    && id in s.ranAt && f.version <= s.ranAt[id] && f.version < |s.history|
    && f.results[id] == QueryResult(Run(s.history[f.version], s.mgr.subs[id].body).outcome)
  }

  /** The result of the query's last run is still to be delivered, or has been delivered last. */
  ghost predicate Settled(s: State, id: Id)
    requires IsQuery(s, id)
  {
    && (forall f :: f in s.finished && id in f.results ==> RightResult(s, id, f))
    && (id in s.ranAt ==>
          && s.ranAt[id] < |s.history|
          && ((exists f :: f in s.finished && id in f.results && f.version == s.ranAt[id])
              || ((forall f :: f in s.finished ==> id !in f.results)
                  && Notified(s.mgr.subs[id], Run(s.history[s.ranAt[id]], s.mgr.subs[id].body).outcome))))
  }

  ghost predicate QueryOk(s: State, id: Id) {
    IsQuery(s, id) ==>
      && Settled(s, id)
      && (id in s.mgr.registered && SupportedBody(s.mgr.subs[id].body) && !s.mgr.aborted
          ==> Waiting(s, id) || Fresh(s, id))
  }

  ghost predicate Inv(s: State) {
    GoodHistory(s) && GoodIds(s) && forall id :: QueryOk(s, id)
  }

  // ---------- every step keeps the shape ----------

  lemma WithoutMembers<T>(xs: seq<T>, i: nat)
    requires i < |xs|
    ensures forall x :: x in Without(xs, i) ==> x in xs
    ensures forall x :: x in xs && x != xs[i] ==> x in Without(xs, i)
  {
    forall x | x in xs && x != xs[i] ensures x in Without(xs, i) {
      var j :| 0 <= j < |xs| && xs[j] == x;
      assert Without(xs, i)[if j < i then j else j - 1] == x;
    }
  }

  lemma SameIndexesTransitive(a: Store, b: Store, c: Store)
    requires SameIndexes(a, b) && SameIndexes(b, c)
    ensures SameIndexes(a, c)
  {
  }

  lemma ComputedDiffsRight(before: Store, after: Store, wanted: set<Key>)
    ensures DiffsRight(DiffsBetween(before, after, wanted), before, after)
  {
  }

  lemma UnfiredStaysRight(history: seq<Store>, after: Store, u: Unfired)
    requires UnfiredRight(history, u)
    ensures UnfiredRight(history + [after], u)
  {
  }

  lemma CommitKeepsHistory(s: State, after: Store)
    requires GoodHistory(s) && SameIndexes(Current(s), after)
    ensures GoodHistory(Stepped(s, Commit(after)))
  {
    hide SameIndexes, DiffsRight, DiffsBetween, WantedDiffs;
    var s' := Stepped(s, Commit(after));
    SameIndexesTransitive(s.history[0], Current(s), after);
    ComputedDiffsRight(Current(s), after, WantedDiffs(s.mgr, after));
    forall u | u in s'.unfired ensures UnfiredRight(s'.history, u) {
      if u in s.unfired { UnfiredStaysRight(s.history, after, u); }
    }
  }

  lemma FireKeepsHistory(s: State, i: nat)
    requires GoodHistory(s) && i < |s.unfired|
    ensures GoodHistory(Stepped(s, Fire(i)))
  {
    hide SameIndexes, UnfiredRight, Matched;
    WithoutMembers(s.unfired, i);
  }

  lemma StepKeepsHistory(s: State, step: Step)
    requires GoodHistory(s) && Enabled(s, step)
    ensures GoodHistory(Stepped(s, step))
  {
    hide SameIndexes, UnfiredRight;
    match step
    case Commit(after) => CommitKeepsHistory(s, after);
    case Fire(i) => FireKeepsHistory(s, i);
    case _ =>
  }

  lemma StepKeepsIds(s: State, step: Step)
    requires GoodIds(s) && Enabled(s, step)
    ensures GoodIds(Stepped(s, step))
  {
    hide SameIndexes, Matches, Invoked, CalledBack, IsNew, WantedDiffs;
    var s' := Stepped(s, step);
    assert s.mgr.subs.Keys <= s'.mgr.subs.Keys;
    forall b | b in s'.queue ensures b.subs <= s'.mgr.subs.Keys {
    }
    forall f | f in s'.finished ensures f.results.Keys <= s'.mgr.subs.Keys && f.version < |s'.history| {
    }
  }

  // ---------- every step keeps each query right ----------

  lemma AddKeeps(s: State, id': Id, sub: Sub, id: Id)
    requires Inv(s) && Enabled(s, AddSub(id', sub))
    ensures QueryOk(Stepped(s, AddSub(id', sub)), id)
  {
    hide Run, CommitHandled, SameIndexes, UnfiredRight, Notified;
    assert QueryOk(s, id);
  }

  lemma StartKeeps(s: State, id: Id)
    requires Inv(s) && Enabled(s, StartInitialRun)
    ensures QueryOk(Stepped(s, StartInitialRun), id)
  {
    hide Run, CommitHandled, SameIndexes, UnfiredRight, Notified;
    var s' := Stepped(s, StartInitialRun);
    assert QueryOk(s, id);
    if id in s.mgr.pending && !s.mgr.aborted {
      assert Batch(s.mgr.pending, InitialRun) in s'.queue;
    }
    assert forall b :: b in s.queue ==> b in s'.queue;
  }

  /** A commit's diffs cover everything the recorded scans of a registered query read. */
  lemma CommitCovers(s: State, after: Store, id: Id)
    requires GoodHistory(s) && SameIndexes(Current(s), after) && IsQuery(s, id) && id in s.mgr.registered
    ensures Covers(DiffsBetween(Current(s), after, WantedDiffs(s.mgr, after)), Current(s), after, s.mgr.subs[id].scans)
  {
    var before, wanted := Current(s), WantedDiffs(s.mgr, after);
    var d, q := DiffsBetween(before, after, wanted), s.mgr.subs[id];
    forall info | info in q.scans
      ensures var name := OrEmpty(info.options.indexName);
        DiffFor(d, name) == DiffOf(MapOf(before, name), MapOf(after, name))
    {
      var name := OrEmpty(info.options.indexName);
      if name in after.indexes {
        assert HasIndexSubscription(q, name);
      } else if name != [] {
        UnchangedHasNoDiff(MapOf(before, name));
      }
    }
  }

  lemma UnchangedHasNoDiff(m: Db)
    ensures DiffOf(m, m) == []
  {
    SortedUnique(DiffOf(m, m), []);
  }

  lemma CommitKeeps(s: State, after: Store, id: Id)
    requires Inv(s) && Enabled(s, Commit(after))
    ensures QueryOk(Stepped(s, Commit(after)), id)
  {
    hide Run, Covers, SameIndexes, UnfiredRight, Notified, DiffsBetween, WantedDiffs, NothingMatches, SupportedBody;
    assert QueryOk(s, id);
    if IsQuery(s, id) && id in s.mgr.registered && Fresh(s, id) {
      CommitKeepsFresh(s, after, id);
    }
  }

  lemma CommitKeepsFresh(s: State, after: Store, id: Id)
    requires GoodHistory(s) && Enabled(s, Commit(after)) && IsQuery(s, id) && id in s.mgr.registered && Fresh(s, id)
    ensures Fresh(Stepped(s, Commit(after)), id)
  {
    hide Run, Covers, UnfiredRight, DiffsBetween, WantedDiffs, NothingMatches;
    var s', q, last := Stepped(s, Commit(after)), s.mgr.subs[id], |s.history| - 1;
    CommitCovers(s, after, id);
    hide SameIndexes;
    forall i: nat | s.ranAt[id] <= i && i + 1 < |s'.history|
      ensures CommitHandled(s'.history, s'.unfired, i, q.keys, q.scans) {
      if i < last {
        assert CommitHandled(s.history, s.unfired, i, q.keys, q.scans);
        if u :| u in s.unfired && u.version == i && Covers(u.diffs, s.history[i], s.history[i + 1], q.scans) {
          assert u in s'.unfired;
        }
      } else {
        var u := s'.unfired[|s.unfired|];
        assert u in s'.unfired && u.version == i;
      }
    }
  }

  lemma ChangeInDiff(d: DiffsMap, name: Key, before: Db, after: Db, k: Key)
    requires DiffFor(d, name) == DiffOf(before, after) && Changed(before, after, k)
    ensures name in d && Entry(k, ChangeAt(before, after, k)) in d[name]
  {
    assert Entry(k, ChangeAt(before, after, k)) in DiffOf(before, after);
  }

  lemma ChangedKeyMatches(q: Sub, d: DiffsMap, before: Store, after: Store, k: Key)
    requires q.Query? && Covers(d, before, after, q.scans) && k in q.keys
    requires Changed(before.primary, after.primary, k)
    ensures Matches(q, d)
  {
    ChangeInDiff(d, [], before.primary, after.primary, k);
    assert DiffMatchesSubscription(q.keys, q.scans, [], d[[]]);
  }

  lemma ChangedScanMatches(q: Sub, d: DiffsMap, before: Store, after: Store, info: ScanInfo)
    requires q.Query? && Covers(d, before, after, q.scans) && info in q.scans && !Unmatched(before, after, info)
    ensures Matches(q, d)
  {
    hide ScanInfoMatchesKey;
    var name := OrEmpty(info.options.indexName);
    var k :| Changed(MapOf(before, name), MapOf(after, name), k) && (name != [] ==> DecodeIndexKey(k).Some?)
      && ScanInfoMatchesKey(info, name, k);
    ChangeInDiff(d, name, MapOf(before, name), MapOf(after, name), k);
    assert ScanInfoMatchesDiff(info, name, d[name]);
    assert DiffMatchesSubscription(q.keys, q.scans, name, d[name]);
  }

  /** If a fired diff covers a query's scans and does not match it, nothing it recorded changed. */
  lemma NotMatchedNothingMatches(q: Sub, d: DiffsMap, before: Store, after: Store)
    requires q.Query? && Covers(d, before, after, q.scans) && !Matches(q, d)
    ensures NothingMatches(before, after, q.keys, q.scans)
  {
    hide Covers, Matches, Unmatched;
    forall k | k in q.keys ensures !Changed(before.primary, after.primary, k) {
      if Changed(before.primary, after.primary, k) { ChangedKeyMatches(q, d, before, after, k); }
    }
    forall info | info in q.scans ensures Unmatched(before, after, info) {
      if !Unmatched(before, after, info) { ChangedScanMatches(q, d, before, after, info); }
    }
  }

  /** A query that computed diffs match has a reason to run again: a changed key that it read, or one that a scan of its
    * was recorded to depend on. */
  lemma MatchedHasChanged(q: Sub, d: DiffsMap, before: Store, after: Store)
    requires q.Query? && DiffsRight(d, before, after) && Matches(q, d)
    ensures !NothingMatches(before, after, q.keys, q.scans)
  {
    hide ScanInfoMatchesKey;
    var name :| name in d && DiffMatchesSubscription(q.keys, q.scans, name, d[name]);
    assert d[name] == DiffOf(MapOf(before, name), MapOf(after, name));
    if e :| name == [] && e in d[name] && e.key in q.keys {
      assert Changed(before.primary, after.primary, e.key);
    } else {
      var info :| info in q.scans && ScanInfoMatchesDiff(info, name, d[name]);
      ScanMatchHasChanged(info, name, d[name], before, after);
    }
  }

  lemma ScanMatchHasChanged(info: ScanInfo, name: Key, d: Diff, before: Store, after: Store)
    requires d == DiffOf(MapOf(before, name), MapOf(after, name)) && ScanInfoMatchesDiff(info, name, d)
    ensures !Unmatched(before, after, info)
  {
    hide PlainInfoMatchesKey, IndexInfoMatchesKey, DecodeIndexKey;
    var e :| e in d && (name != [] ==> DecodeIndexKey(e.key).Some?) && ScanInfoMatchesKey(info, name, e.key);
    assert name == OrEmpty(info.options.indexName);
    assert Changed(MapOf(before, name), MapOf(after, name), e.key);
  }

  lemma UnmatchedStaysFresh(s: State, j: nat, id: Id)
    requires j < |s.unfired| && IsQuery(s, id) && Fresh(s, id) && !Matches(s.mgr.subs[id], s.unfired[j].diffs)
    ensures Fresh(Stepped(s, Fire(j)), id)
  {
    hide Run, Covers, Matches, NothingMatches, Matched;
    var s', q := Stepped(s, Fire(j)), s.mgr.subs[id];
    WithoutMembers(s.unfired, j);
    forall i: nat | s.ranAt[id] <= i && i + 1 < |s'.history|
      ensures CommitHandled(s'.history, s'.unfired, i, q.keys, q.scans) {
      assert CommitHandled(s.history, s.unfired, i, q.keys, q.scans);
      if u :| u in s.unfired && u.version == i && Covers(u.diffs, s.history[i], s.history[i + 1], q.scans) {
        if u == s.unfired[j] {
          NotMatchedNothingMatches(q, u.diffs, s.history[i], s.history[i + 1]);
        }
      }
    }
  }

  lemma FireKeeps(s: State, j: nat, id: Id)
    requires Inv(s) && Enabled(s, Fire(j))
    ensures QueryOk(Stepped(s, Fire(j)), id)
  {
    hide Run, SameIndexes, UnfiredRight, Notified, Matches, SupportedBody, CommitHandled;
    var s' := Stepped(s, Fire(j));
    assert QueryOk(s, id);
    assert forall b :: b in s.queue ==> b in s'.queue;
    if IsQuery(s, id) && id in s.mgr.registered && SupportedBody(s.mgr.subs[id].body) && !s.mgr.aborted
      && !Waiting(s, id) {
      if Matches(s.mgr.subs[id], s.unfired[j].diffs) {
        assert id in Matched(s.mgr, s.unfired[j].diffs);
        assert s'.queue[|s.queue|] in s'.queue && id in s'.queue[|s.queue|].subs;
      } else {
        UnmatchedStaysFresh(s, j, id);
      }
    }
  }

  lemma RunKeepsOthers(s: State, i: nat, id: Id)
    requires Inv(s) && i < |s.queue| && id !in s.queue[i].subs
    ensures QueryOk(Stepped(s, RunBatch(i)), id)
  {
    hide Run, CommitHandled, SameIndexes, UnfiredRight, Notified, SupportedBody, Invoked;
    var s' := Stepped(s, RunBatch(i));
    assert QueryOk(s, id);
    WithoutMembers(s.queue, i);
    assert forall f :: f in s'.finished ==> f in s.finished || id !in f.results;
    assert forall f :: f in s.finished ==> f in s'.finished;
  }

  lemma RunRefreshes(s: State, i: nat, id: Id)
    requires Inv(s) && i < |s.queue| && id in s.queue[i].subs
    ensures QueryOk(Stepped(s, RunBatch(i)), id)
  {
    hide Run, CommitHandled, SameIndexes, UnfiredRight, Notified, SupportedBody;
    var s' := Stepped(s, RunBatch(i));
    assert QueryOk(s, id);
    if IsQuery(s, id) {
      var f := s'.finished[|s.finished|];
      assert f in s'.finished && id in f.results && f.version == s'.ranAt[id];
      assert forall g :: g in s'.finished ==> g in s.finished || g == f;
    }
  }

  /** The callbacks of one batch deliver a query's last result, or leave it among those still to be delivered. */
  lemma CallbacksSettle(s: State, i: nat, id: Id)
    requires Enabled(s, CallCallbacks(i)) && IsQuery(s, id) && Settled(s, id)
    ensures Settled(Stepped(s, CallCallbacks(i)), id)
  {
    hide Run;
    var s', g := Stepped(s, CallCallbacks(i)), s.finished[i];
    WithoutMembers(s.finished, i);
    assert g in s.finished;
    forall f | f in s'.finished && id in f.results ensures RightResult(s', id, f) && g.version <= f.version {
      assert RightResult(s, id, f);
      var j :| 0 <= j < |s.finished| && s.finished[j] == f;
    }
    if id in s.ranAt && exists f :: f in s'.finished && id in f.results {
      var f :| f in s'.finished && id in f.results;
      if g.version == s.ranAt[id] && id in g.results {
        assert f.version == s.ranAt[id];
      } else {
        var f' :| f' in s.finished && id in f'.results && f'.version == s.ranAt[id];
        assert f' in s'.finished;
      }
    }
  }

  lemma CallbacksKeep(s: State, i: nat, id: Id)
    requires Inv(s) && Enabled(s, CallCallbacks(i))
    ensures QueryOk(Stepped(s, CallCallbacks(i)), id)
  {
    hide Run, CommitHandled, SameIndexes, UnfiredRight, SupportedBody, Settled, Notified;
    assert QueryOk(s, id);
    if IsQuery(s, id) {
      CallbacksSettle(s, i, id);
    }
  }

  lemma StepKeepsQueries(s: State, step: Step, id: Id)
    requires Inv(s) && Enabled(s, step)
    ensures QueryOk(Stepped(s, step), id)
  {
    hide Run, CommitHandled, SameIndexes, UnfiredRight, SupportedBody, Notified, Matches, Invoked, IsNew, WantedDiffs;
    assert QueryOk(s, id);
    match step
    case AddSub(id', sub) => AddKeeps(s, id', sub, id);
    case StartInitialRun => StartKeeps(s, id);
    case Commit(after) => CommitKeeps(s, after, id);
    case Fire(i) => FireKeeps(s, i, id);
    case RunBatch(i) => if id in s.queue[i].subs { RunRefreshes(s, i, id); } else { RunKeepsOthers(s, i, id); }
    case CallCallbacks(i) => CallbacksKeep(s, i, id);
    case _ =>
  }

  lemma {:induction false} ReachableInv(s0: Store, steps: seq<Step>)
    requires ValidStore(s0) && After(Initial(s0), steps).Some?
    ensures Inv(After(Initial(s0), steps).value)
    decreases |steps|
  {
    hide QueryOk, GoodHistory, GoodIds, Enabled, Stepped;
    if steps == [] {
      InitialInv(s0);
    } else {
      var s, step := After(Initial(s0), steps[..|steps| - 1]).value, steps[|steps| - 1];
      ReachableInv(s0, steps[..|steps| - 1]);
      StepKeepsHistory(s, step);
      StepKeepsIds(s, step);
      forall id ensures QueryOk(Stepped(s, step), id) {
        StepKeepsQueries(s, step, id);
      }
    }
  }

  lemma InitialInv(s0: Store)
    requires ValidStore(s0)
    ensures Inv(Initial(s0))
  {
  }

  /** When nothing is left to be fired, a fresh query would have had the same run on every version since its last. */
  lemma {:induction false} SameRunSince(s: State, id: Id, i: nat)
    requires GoodHistory(s) && s.unfired == [] && IsQuery(s, id) && Fresh(s, id) && SupportedBody(s.mgr.subs[id].body)
    requires s.ranAt[id] <= i < |s.history|
    ensures Run(s.history[i], s.mgr.subs[id].body) == Run(s.history[s.ranAt[id]], s.mgr.subs[id].body)
  {
    hide Run, NothingMatches, SupportedBody, SameIndexes;
    var q := s.mgr.subs[id];
    if s.ranAt[id] < i {
      SameRunSince(s, id, i - 1);
      assert CommitHandled(s.history, s.unfired, i - 1, q.keys, q.scans)
        && !ToBeFired(s.history, s.unfired, i - 1, q.scans);
      assert s.history[i - 1 + 1] == s.history[i];
      SameIndexesBetween(s, i - 1, i);
      DependenciesSuffice(s.history[i - 1], s.history[i], q.body);
    }
  }

  lemma SameIndexesBetween(s: State, i: nat, j: nat)
    requires GoodHistory(s) && i < |s.history| && j < |s.history|
    ensures SameIndexes(s.history[i], s.history[j])
  {
    assert SameIndexes(s.history[0], s.history[i]) && SameIndexes(s.history[0], s.history[j]);
  }

  /** The subscription engine is a cache that agrees with re-running every body after every commit.  In every run of
    * the steps, whenever nothing is under way, the last delivered value of every registered query stands for the
    * outcome of its body on the current data, although only matching queries were re-run. */
  lemma QueriesAreCurrent(s0: Store, steps: seq<Step>, id: Id)
    requires ValidStore(s0) && After(Initial(s0), steps).Some?
    requires var s := After(Initial(s0), steps).value;
      Quiescent(s) && !s.mgr.aborted && id in s.mgr.registered && IsQuery(s, id) && SupportedBody(s.mgr.subs[id].body)
    ensures var s := After(Initial(s0), steps).value;
      |s.history| > 0 && Notified(s.mgr.subs[id], Run(Current(s), s.mgr.subs[id].body).outcome)
  {
    hide Run, CommitHandled, UnfiredRight, SameIndexes, SupportedBody, Notified, After, GoodIds;
    var s := After(Initial(s0), steps).value;
    ReachableInv(s0, steps);
    assert QueryOk(s, id);
    SameRunSince(s, id, |s.history| - 1);
  }

  /** For a reflexive `isEqual` the last delivered value is equal to the result of the body on the current data. */
  lemma DeliveredValueIsCurrent(s0: Store, steps: seq<Step>, id: Id)
    requires ValidStore(s0) && After(Initial(s0), steps).Some?
    requires var s := After(Initial(s0), steps).value;
      Quiescent(s) && !s.mgr.aborted && id in s.mgr.registered && IsQuery(s, id) && SupportedBody(s.mgr.subs[id].body)
    requires var q := After(Initial(s0), steps).value.mgr.subs[id]; forall v :: q.isEqual(v, v)
    ensures var s := After(Initial(s0), steps).value; var q := s.mgr.subs[id];
      && |s.history| > 0
      && (Run(Current(s), q.body).outcome.Returned? ==>
            q.lastValue.Some? && q.isEqual(q.lastValue.value, Run(Current(s), q.body).outcome.result))
  {
    hide Run, SupportedBody;
    QueriesAreCurrent(s0, steps, id);
  }

  // ---------- no run without a reason ----------

  /** A batch is requested only before an abort, and only by firing a diff or by the initial run: for exactly the
    * registered subscriptions that match the diff, or those that were added since. */
  ghost predicate HasReason(s: State, step: Step, b: Batch) {
    !s.mgr.aborted &&
    match step
    case Fire(i) =>
      && i < |s.unfired| && b.kind == Regular(s.unfired[i].diffs)
      && forall id :: id in b.subs <==>
           id in s.mgr.registered && id in s.mgr.subs && Matches(s.mgr.subs[id], s.unfired[i].diffs)
    case StartInitialRun => b.kind == InitialRun && b.subs == s.mgr.pending
    case _ => false
  }

  lemma RequestsHaveReasons(s: State, step: Step)
    requires Enabled(s, step)
    ensures var queue, queue' := s.queue, Stepped(s, step).queue;
      if |queue'| > |queue| then queue' == queue + [queue'[|queue|]] && HasReason(s, step, queue'[|queue|])
      else forall b :: b in queue' ==> b in queue
  {
    hide Matches, SameIndexes, Invoked, CalledBack, IsNew, WantedDiffs;
    if step.RunBatch? { WithoutMembers(s.queue, step.i); }
  }

  /** After an abort nothing more is requested, whatever is committed, fired or added. */
  lemma {:induction false} NothingRequestedAfterAbort(s: State, steps: seq<Step>)
    requires s.mgr.aborted && After(s, steps).Some?
    ensures var t := After(s, steps).value; t.mgr.aborted && forall b :: b in t.queue ==> b in s.queue
    decreases |steps|
  {
    hide Enabled, Stepped;
    if steps != [] {
      var before, step := steps[..|steps| - 1], steps[|steps| - 1];
      NothingRequestedAfterAbort(s, before);
      AbortLasts(After(s, before).value, step);
      RequestsHaveReasons(After(s, before).value, step);
    }
  }

  lemma AbortLasts(s: State, step: Step)
    requires Enabled(s, step) && s.mgr.aborted
    ensures Stepped(s, step).mgr.aborted
  {
  }
}
