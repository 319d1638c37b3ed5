/** A watcher that applies every diff it is handed holds exactly the watched part of the current data. */
module WatcherRuns {
  import opened Wrappers
  import opened Keys
  import opened Entries
  import opened Diffs
  import opened Watch
  import opened Subscriptions
  import opened SubscriptionRuns

  // ---------- runs in which callbacks come in order ----------

  datatype Clause = FiresInOrder | RunsInOrder | CallsBackInOrder | CommitsForSomebody

  /** Diffs are fired in the order of their commits, batches run and call back in the order they were requested, and no
    * commit without subscriptions, which computes no diffs, comes between a commit and the firing of its diffs. */
  ghost predicate Keeps(s: State, step: Step, clause: Clause) {
    match clause
    case FiresInOrder => step.Fire? ==> step.i == 0
    case RunsInOrder => step.RunBatch? ==> step.i == 0
    case CallsBackInOrder => step.CallCallbacks? ==> step.i == 0
    case CommitsForSomebody => step.Commit? ==> s.mgr.registered != {} || s.unfired == []
  }

  ghost predicate InOrder(s: State, step: Step) {
    && Keeps(s, step, FiresInOrder) && Keeps(s, step, RunsInOrder)
    && Keeps(s, step, CallsBackInOrder) && Keeps(s, step, CommitsForSomebody)
  }

  ghost predicate InOrderRun(s: State, steps: seq<Step>) {
    steps == [] ||
      (InOrderRun(s, steps[..|steps| - 1])
       && (After(s, steps[..|steps| - 1]).Some? ==> InOrder(After(s, steps[..|steps| - 1]).value, steps[|steps| - 1])))
  }

  // ---------- what a watcher has been handed and will be handed ----------

  function FinishedDiff(f: Finished, id: Id): Diff {
    if id in f.results && f.results[id].WatcherResult? && f.results[id].diff.Some? then f.results[id].diff.value else []
  }

  function UnfiredDiff(d: DiffsMap, prefix: Key): Diff {
    Filtered([], DiffFor(d, []), prefix)
  }

  function QueuedDiff(b: Batch, id: Id, prefix: Key): Diff {
    if id in b.subs && b.kind.Regular? then UnfiredDiff(b.kind.diffs, prefix) else []
  }

  function FinishedDiffs(fs: seq<Finished>, id: Id): seq<Diff> {
    seq(|fs|, i requires 0 <= i < |fs| => FinishedDiff(fs[i], id))
  }

  function QueuedDiffs(bs: seq<Batch>, id: Id, prefix: Key): seq<Diff> {
    seq(|bs|, i requires 0 <= i < |bs| => QueuedDiff(bs[i], id, prefix))
  }

  function UnfiredDiffs(us: seq<Unfired>, prefix: Key): seq<Diff> {
    seq(|us|, i requires 0 <= i < |us| => UnfiredDiff(us[i].diffs, prefix))
  }

  function OrElse(earlier: Option<Option<Json>>, later: Option<Option<Json>>): Option<Option<Json>> {
    if later.Some? then later else earlier
  }

  ghost predicate IsWatched(s: State, id: Id) {
    && id in s.mgr.registered && id in s.mgr.subs && !s.mgr.aborted
    && s.mgr.subs[id].Watcher? && s.mgr.subs[id].name == [] && s.mgr.subs[id].initialValues
  }

  /** What the diffs handed over, finished, requested and still to be fired last do to a key, in that order. */
  ghost function TotalEffect(s: State, id: Id, k: Key): Option<Option<Json>>
    requires id in s.mgr.subs && s.mgr.subs[id].Watcher?
  {
    var w := s.mgr.subs[id];
    OrElse(OrElse(OrElse(EffectAll(w.handed, k), EffectAll(FinishedDiffs(s.finished, id), k)),
                  EffectAll(QueuedDiffs(s.queue, id, w.prefix), k)),
           EffectAll(UnfiredDiffs(s.unfired, w.prefix), k))
  }

  // ---------- the invariant ----------

  /** The initial run has run. */
  ghost predicate Initialised(s: State, id: Id) {
    id !in s.mgr.pending && forall b :: b in s.queue && id in b.subs ==> !b.kind.InitialRun?
  }

  /** An effect on a key is right if it is confined to the prefix and leaves the key's current value. */
  ghost predicate RightEffect(effect: Option<Option<Json>>, prefix: Key, now: Db, k: Key) {
    effect.Some? ==> StartsWith(k, prefix) && effect.value == Lookup(now, k)
  }

  ghost predicate WatcherOk(s: State, id: Id)
    requires |s.history| > 0
  {
    IsWatched(s, id) ==>
      var prefix, now := s.mgr.subs[id].prefix, Current(s).primary;
      forall k ::
        && RightEffect(TotalEffect(s, id, k), prefix, now, k)
        && (Initialised(s, id) && StartsWith(k, prefix) && k in now ==> TotalEffect(s, id, k).Some?)
  }

  ghost predicate UnfiredOk(s: State)
    requires |s.history| > 0
  {
    forall prefix, k :: RightEffect(EffectAll(UnfiredDiffs(s.unfired, prefix), k), prefix, Current(s).primary, k)
  }

  ghost predicate WatchInv(s: State) {
    Inv(s) && UnfiredOk(s) && forall id :: WatcherOk(s, id)
  }

  // ---------- how each step changes the effects ----------

  lemma EffectAppend(ds: seq<Diff>, d: Diff, k: Key)
    ensures EffectAll(ds + [d], k) == OrElse(EffectAll(ds, k), Effect(d, k))
  {
    assert (ds + [d])[..|ds|] == ds;
  }

  lemma EffectTail(ds: seq<Diff>, k: Key)
    requires ds != []
    ensures EffectAll(ds, k) == OrElse(Effect(ds[0], k), EffectAll(ds[1..], k))
  {
    EffectConcat([ds[0]], ds[1..], k);
    assert ds == [ds[0]] + ds[1..];
    EffectAppend([], ds[0], k);
    assert [] + [ds[0]] == [ds[0]];
  }

  /** What a commit's diff does to a key. */
  lemma CommitEffect(s: State, after: Store, prefix: Key, k: Key)
    requires GoodHistory(s) && s.mgr.registered != {}
    ensures Effect(UnfiredDiff(DiffsBetween(Current(s), after, WantedDiffs(s.mgr, after)), prefix), k)
         == if StartsWith(k, prefix) && Changed(Current(s).primary, after.primary, k)
            then Some(Lookup(after.primary, k)) else None
  {
    var before := Current(s);
    var d := DiffsBetween(before, after, WantedDiffs(s.mgr, after));
    assert DiffFor(d, []) == DiffOf(before.primary, after.primary);
    FilteredEffect(DiffOf(before.primary, after.primary), prefix, k);
    DiffEffect(before.primary, after.primary, k);
  }

  lemma NoDiffsNoEffect(prefix: Key, k: Key)
    ensures Effect(UnfiredDiff(map[], prefix), k) == None
  {
    assert DiffFor(map[], []) == [];
  }

  lemma CommitKeepsUnfired(s: State, after: Store, prefix: Key, k: Key)
    requires GoodHistory(s) && UnfiredOk(s) && Enabled(s, Commit(after)) && InOrder(s, Commit(after))
    ensures var s' := Stepped(s, Commit(after));
      RightEffect(EffectAll(UnfiredDiffs(s'.unfired, prefix), k), prefix, after.primary, k)
  {
    hide Effect, EffectAll, UnfiredDiff, DiffsBetween, WantedDiffs, SameIndexes, GoodHistory;
    var s' := Stepped(s, Commit(after));
    var d := DiffsBetween(Current(s), after, WantedDiffs(s.mgr, after));
    assert UnfiredDiffs(s'.unfired, prefix) == UnfiredDiffs(s.unfired, prefix) + [UnfiredDiff(d, prefix)];
    EffectAppend(UnfiredDiffs(s.unfired, prefix), UnfiredDiff(d, prefix), k);
    if s.mgr.registered != {} {
      CommitEffect(s, after, prefix, k);
    } else {
      NothingWanted(s, after);
      NoDiffsNoEffect(prefix, k);
      NothingUnfired(prefix, k);
      assert UnfiredDiffs(s.unfired, prefix) == [];
    }
  }

  lemma NothingWanted(s: State, after: Store)
    requires |s.history| > 0 && s.mgr.registered == {}
    ensures DiffsBetween(Current(s), after, WantedDiffs(s.mgr, after)) == map[]
  {
  }

  lemma NothingUnfired(prefix: Key, k: Key)
    ensures EffectAll([], k) == None
  {
  }

  lemma CommitKeepsWatcher(s: State, after: Store, id: Id)
    requires WatchInv(s) && Enabled(s, Commit(after))
    ensures WatcherOk(Stepped(s, Commit(after)), id)
  {
    hide Effect, EffectAll, UnfiredDiff, DiffsBetween, WantedDiffs, SameIndexes, QueryOk, GoodIds, FinishedDiffs,
      QueuedDiffs;
    var s' := Stepped(s, Commit(after));
    if IsWatched(s, id) {
      assert WatcherOk(s, id);
      var prefix := s.mgr.subs[id].prefix;
      var d := DiffsBetween(Current(s), after, WantedDiffs(s.mgr, after));
      assert UnfiredDiffs(s'.unfired, prefix) == UnfiredDiffs(s.unfired, prefix) + [UnfiredDiff(d, prefix)];
      forall k
        ensures RightEffect(TotalEffect(s', id, k), prefix, after.primary, k)
        ensures Initialised(s', id) && StartsWith(k, prefix) && k in after.primary ==> TotalEffect(s', id, k).Some?
      {
        EffectAppend(UnfiredDiffs(s.unfired, prefix), UnfiredDiff(d, prefix), k);
        CommitEffect(s, after, prefix, k);
      }
    }
  }

  /** A plain watcher that a diff does not match would not be handed anything of it. */
  lemma NotMatchedNotHanded(w: Sub, d: DiffsMap, before: Store, after: Store)
    requires w.Watcher? && w.name == [] && DiffsRight(d, before, after) && !Matches(w, d)
    ensures UnfiredDiff(d, w.prefix) == []
  {
    if [] in d && w.prefix != [] {
      MatchesIff([], d[[]], w.prefix);
    }
  }

  lemma FireKeepsWatcher(s: State, id: Id)
    requires WatchInv(s) && Enabled(s, Fire(0))
    ensures WatcherOk(Stepped(s, Fire(0)), id)
  {
    hide Effect, EffectAll, UnfiredDiff, SameIndexes, QueryOk, GoodIds, FinishedDiffs, Matches, DiffsRight;
    var s' := Stepped(s, Fire(0));
    if IsWatched(s, id) {
      assert WatcherOk(s, id);
      var w, d := s.mgr.subs[id], s.unfired[0].diffs;
      var first := UnfiredDiff(d, w.prefix);
      assert Without(s.unfired, 0) == s.unfired[1..];
      assert UnfiredDiffs(s.unfired, w.prefix)[1..] == UnfiredDiffs(s'.unfired, w.prefix);
      var matched := Matches(w, d);
      if matched {
        assert id in Matched(s.mgr, d);
        assert QueuedDiff(s'.queue[|s.queue|], id, w.prefix) == first;
        assert QueuedDiffs(s'.queue, id, w.prefix) == QueuedDiffs(s.queue, id, w.prefix) + [first];
      } else {
        var v := s.unfired[0].version;
        assert s.unfired[0] in s.unfired && UnfiredRight(s.history, s.unfired[0]);
        NotMatchedNotHanded(w, d, s.history[v], s.history[v + 1]);
      }
      forall k ensures TotalEffect(s', id, k) == TotalEffect(s, id, k) {
        EffectTail(UnfiredDiffs(s.unfired, w.prefix), k);
        EffectAppend(QueuedDiffs(s.queue, id, w.prefix), first, k);
        UnmatchedQueueEffect(s, id, w.prefix, k, matched);
        EmptyDiffEffect(first, k);
      }
      assert forall b :: b in s.queue ==> b in s'.queue;
    }
  }

  lemma EmptyDiffEffect(d: Diff, k: Key)
    ensures d == [] ==> Effect(d, k) == None
  {
  }

  /** A batch that does not contain the watcher hands it nothing. */
  lemma UnmatchedQueueEffect(s: State, id: Id, prefix: Key, k: Key, matched: bool)
    requires Enabled(s, Fire(0)) && id in s.mgr.registered && id in s.mgr.subs
    requires matched == Matches(s.mgr.subs[id], s.unfired[0].diffs)
    ensures !matched ==>
      EffectAll(QueuedDiffs(Stepped(s, Fire(0)).queue, id, prefix), k) == EffectAll(QueuedDiffs(s.queue, id, prefix), k)
  {
    hide Effect, EffectAll, UnfiredDiff, Matches;
    var s' := Stepped(s, Fire(0));
    if !matched && s'.queue != s.queue {
      assert QueuedDiffs(s'.queue, id, prefix) == QueuedDiffs(s.queue, id, prefix) + [[]];
      EffectAppend(QueuedDiffs(s.queue, id, prefix), [], k);
      EmptyDiffEffect([], k);
    }
  }

  /** A watcher's own run: a regular one hands over what was requested, an initial one the whole watched part. */
  lemma RunEffect(w: Sub, s: Store, b: Batch, id: Id, k: Key)
    requires w.Watcher? && w.name == [] && w.initialValues && id in b.subs
    ensures var f := Finished(map[id := Invoked(w, s, b.kind).1], 0);
      && (b.kind.Regular? ==> FinishedDiff(f, id) == QueuedDiff(b, id, w.prefix))
      && (b.kind.InitialRun? ==>
            && Effect(QueuedDiff(b, id, w.prefix), k) == None
            && Effect(FinishedDiff(f, id), k)
               == if StartsWith(k, w.prefix) && k in s.primary then Some(Some(s.primary[k])) else None)
  {
    AdditionsEffect(s.primary, w.prefix, k);
  }

  lemma RunKeepsWatcher(s: State, id: Id)
    requires WatchInv(s) && Enabled(s, RunBatch(0))
    ensures WatcherOk(Stepped(s, RunBatch(0)), id)
  {
    hide Effect, EffectAll, UnfiredDiffs, SameIndexes, QueryOk, GoodIds, Filtered, Invoked;
    var s', b := Stepped(s, RunBatch(0)), s.queue[0];
    if IsWatched(s', id) {
      InvokedKeepsWatcher(s.mgr.subs[id], Current(s), b.kind);
      assert WatcherOk(s, id);
      var w, now := s.mgr.subs[id], Current(s);
      var f := s'.finished[|s.finished|];
      var q, ran := QueuedDiff(b, id, w.prefix), FinishedDiff(f, id);
      assert QueuedDiffs(s.queue, id, w.prefix)[1..] == QueuedDiffs(s'.queue, id, w.prefix);
      assert FinishedDiffs(s'.finished, id) == FinishedDiffs(s.finished, id) + [ran];
      assert forall b' :: b' in s.queue ==> b' == b || b' in s'.queue;
      forall k
        ensures RightEffect(TotalEffect(s', id, k), w.prefix, now.primary, k)
        ensures Initialised(s', id) && StartsWith(k, w.prefix) && k in now.primary ==> TotalEffect(s', id, k).Some?
      {
        EffectTail(QueuedDiffs(s.queue, id, w.prefix), k);
        EffectAppend(FinishedDiffs(s.finished, id), ran, k);
        if id in b.subs {
          RunEffect(w, now, b, id, k);
        }
      }
    }
  }

  lemma InvokedKeepsWatcher(sub: Sub, s: Store, kind: InvokeKind)
    ensures Invoked(sub, s, kind).0.Watcher? == sub.Watcher?
    ensures sub.Watcher? ==> Invoked(sub, s, kind).0 == sub
  {
  }

  lemma CallbacksKeepWatcher(s: State, id: Id)
    requires WatchInv(s) && Enabled(s, CallCallbacks(0))
    ensures WatcherOk(Stepped(s, CallCallbacks(0)), id)
  {
    hide Effect, EffectAll, UnfiredDiffs, QueuedDiffs, SameIndexes, QueryOk, GoodIds;
    var s', f := Stepped(s, CallCallbacks(0)), s.finished[0];
    if IsWatched(s', id) {
      assert WatcherOk(s, id);
      var w, d := s.mgr.subs[id], FinishedDiff(f, id);
      assert FinishedDiffs(s.finished, id)[1..] == FinishedDiffs(s'.finished, id);
      forall k ensures TotalEffect(s', id, k) == TotalEffect(s, id, k) {
        EffectTail(FinishedDiffs(s.finished, id), k);
        EffectAppend(w.handed, d, k);
        EmptyDiffEffect(d, k);
      }
    }
  }

  lemma AddKeepsWatcher(s: State, id': Id, sub: Sub, id: Id)
    requires WatchInv(s) && Enabled(s, AddSub(id', sub))
    ensures WatcherOk(Stepped(s, AddSub(id', sub)), id)
  {
    hide Effect, UnfiredDiffs, SameIndexes, QueryOk, Filtered;
    var s' := Stepped(s, AddSub(id', sub));
    if id == id' && IsWatched(s', id) {
      forall k ensures RightEffect(TotalEffect(s', id, k), sub.prefix, Current(s).primary, k) {
        NewWatcherEffect(s, id, sub.prefix, k);
        NothingUnfired(sub.prefix, k);
      }
    } else {
      assert WatcherOk(s, id);
    }
  }

  /** Nothing finished or requested concerns an identity that was never added. */
  lemma NewWatcherEffect(s: State, id: Id, prefix: Key, k: Key)
    requires GoodIds(s) && id !in s.mgr.subs
    ensures EffectAll(FinishedDiffs(s.finished, id), k) == None
    ensures EffectAll(QueuedDiffs(s.queue, id, prefix), k) == None
  {
    hide Filtered;
    AllEmptyNoEffect(FinishedDiffs(s.finished, id), k);
    AllEmptyNoEffect(QueuedDiffs(s.queue, id, prefix), k);
  }

  lemma {:induction false} AllEmptyNoEffect(ds: seq<Diff>, k: Key)
    requires forall i :: 0 <= i < |ds| ==> ds[i] == []
    ensures EffectAll(ds, k) == None
  {
    if ds != [] {
      AllEmptyNoEffect(ds[..|ds| - 1], k);
    }
  }

  lemma StartKeepsWatcher(s: State, id: Id)
    requires WatchInv(s) && Enabled(s, StartInitialRun)
    ensures WatcherOk(Stepped(s, StartInitialRun), id)
  {
    hide Effect, EffectAll, UnfiredDiffs, SameIndexes, QueryOk, Filtered, FinishedDiffs;
    var s' := Stepped(s, StartInitialRun);
    if IsWatched(s, id) {
      assert WatcherOk(s, id);
      var prefix := s.mgr.subs[id].prefix;
      if s.mgr.pending != {} {
        assert QueuedDiffs(s'.queue, id, prefix) == QueuedDiffs(s.queue, id, prefix) + [[]];
        assert s'.queue[|s.queue|] == Batch(s.mgr.pending, InitialRun) && s'.queue[|s.queue|] in s'.queue;
      }
      forall k ensures TotalEffect(s', id, k) == TotalEffect(s, id, k) {
        EffectAppend(QueuedDiffs(s.queue, id, prefix), [], k);
        EmptyDiffEffect([], k);
      }
      assert forall b :: b in s.queue ==> b in s'.queue;
    }
  }

  lemma StepKeepsWatcher(s: State, step: Step, id: Id)
    requires WatchInv(s) && Enabled(s, step) && InOrder(s, step) && GoodHistory(Stepped(s, step))
    ensures WatcherOk(Stepped(s, step), id)
  {
    hide Effect, EffectAll, UnfiredDiffs, QueuedDiffs, FinishedDiffs, SameIndexes, QueryOk, GoodIds, IsNew, Matches,
      Invoked;
    assert WatcherOk(s, id);
    match step
    case AddSub(id', sub) => AddKeepsWatcher(s, id', sub, id);
    case StartInitialRun => StartKeepsWatcher(s, id);
    case Commit(after) => CommitKeepsWatcher(s, after, id);
    case Fire(i) => FireKeepsWatcher(s, id);
    case RunBatch(i) => RunKeepsWatcher(s, id);
    case CallCallbacks(i) => CallbacksKeepWatcher(s, id);
    case _ =>
  }

  lemma StepKeepsUnfired(s: State, step: Step, s': State, prefix: Key, k: Key)
    requires GoodHistory(s) && UnfiredOk(s) && Enabled(s, step) && InOrder(s, step) && s' == Stepped(s, step)
    ensures |s'.history| > 0
      && RightEffect(EffectAll(UnfiredDiffs(s'.unfired, prefix), k), prefix, Current(s').primary, k)
  {
    hide Effect, EffectAll, UnfiredDiff, SameIndexes, DiffsRight, IsNew, Matched, Invoked, CalledBack, WantedDiffs;
    match step
    case Commit(after) => CommitKeepsUnfired(s, after, prefix, k);
    case Fire(i) =>
      EffectTail(UnfiredDiffs(s.unfired, prefix), k);
      assert Without(s.unfired, 0) == s.unfired[1..];
      assert UnfiredDiffs(s.unfired, prefix)[1..] == UnfiredDiffs(s.unfired[1..], prefix);
    case _ =>
  }

  lemma {:induction false} InOrderInv(s0: Store, steps: seq<Step>)
    requires ValidStore(s0) && After(Initial(s0), steps).Some? && InOrderRun(Initial(s0), steps)
    ensures WatchInv(After(Initial(s0), steps).value)
    decreases |steps|
  {
    hide GoodHistory, GoodIds, Enabled, Stepped, WatcherOk, RightEffect, InOrder, QueryOk, EffectAll, UnfiredDiffs;
    ReachableInv(s0, steps);
    if steps == [] {
      InitialWatchInv(s0);
    } else {
      var s, step := After(Initial(s0), steps[..|steps| - 1]).value, steps[|steps| - 1];
      InOrderInv(s0, steps[..|steps| - 1]);
      HistoryNotEmpty(Stepped(s, step));
      forall prefix, k
        ensures RightEffect(EffectAll(UnfiredDiffs(Stepped(s, step).unfired, prefix), k), prefix,
          Current(Stepped(s, step)).primary, k)
      {
        StepKeepsUnfired(s, step, Stepped(s, step), prefix, k);
      }
      forall id ensures WatcherOk(Stepped(s, step), id) {
        StepKeepsWatcher(s, step, id);
      }
    }
  }

  lemma HistoryNotEmpty(s: State)
    requires GoodHistory(s)
    ensures |s.history| > 0
  {
  }

  lemma InitialWatchInv(s0: Store)
    ensures UnfiredOk(Initial(s0)) && forall id :: WatcherOk(Initial(s0), id)
  {
    forall prefix ensures UnfiredDiffs([], prefix) == [] {
    }
  }

  /** In every in-order run, whenever nothing is under way, replaying what a plain watcher with initial values was
    * handed gives exactly the part of the current data under its prefix. */
  lemma WatcherIsCurrent(s0: Store, steps: seq<Step>, id: Id, k: Key)
    requires ValidStore(s0) && After(Initial(s0), steps).Some? && InOrderRun(Initial(s0), steps)
    requires Quiescent(After(Initial(s0), steps).value) && IsWatched(After(Initial(s0), steps).value, id)
    ensures var s := After(Initial(s0), steps).value; var w := s.mgr.subs[id];
      && |s.history| > 0
      && Lookup(Replay(w.handed), k) == if StartsWith(k, w.prefix) then Lookup(Current(s).primary, k) else None
  {
    hide Effect, SameIndexes, QueryOk, GoodIds, After, InOrderRun, Filtered;
    var s := After(Initial(s0), steps).value;
    InOrderInv(s0, steps);
    assert WatcherOk(s, id);
    ReplayEffect(s.mgr.subs[id].handed, k);
    NothingUnfired([], k);
    assert TotalEffect(s, id, k) == EffectAll(s.mgr.subs[id].handed, k);
  }
}
