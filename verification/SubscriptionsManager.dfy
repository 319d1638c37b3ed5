/** The manager object: the uninterrupted sections of its methods, each proved to be the step of the same name. */
module SubscriptionsManager {
  import opened Wrappers
  import opened Keys
  import opened Entries
  import opened Diffs
  import opened Transactions
  import opened Watch
  import opened Subscriptions
  import opened SubscriptionRuns

  /** The subscription watches the index, or its last run scanned it. */
  predicate UsesIndex(sub: Sub, name: Key) {
    if sub.Watcher? then sub.name == name
    else exists i :: 0 <= i < |sub.scans| && sub.scans[i].options.indexName == Some(name)
  }

  lemma IndexUsed(sub: Sub, name: Key)
    ensures HasIndexSubscription(sub, name) <==> UsesIndex(sub, name)
  {
    if sub.Query? && HasIndexSubscription(sub, name) {
      var info :| info in sub.scans && info.options.indexName == Some(name);
      var i :| 0 <= i < |sub.scans| && sub.scans[i] == info;
    }
  }

  ghost predicate IndexWanted(m: Manager, name: Key) {
    exists id :: id in m.registered && id in m.subs && HasIndexSubscription(m.subs[id], name)
  }

  /** The maps whose diffs are wanted, among the primary map and these indexes. */
  ghost function WantedAmong(m: Manager, names: set<Key>): set<Key> {
    {[]} + set name | name in names && IndexWanted(m, name)
  }

  lemma WantedOneMore(m: Manager, names: set<Key>, name: Key)
    ensures WantedAmong(m, names + {name})
      == if IndexWanted(m, name) then WantedAmong(m, names) + {name} else WantedAmong(m, names)
  {
    hide IndexWanted;
  }

  lemma WantedAll(m: Manager, s: Store)
    ensures m.registered != {} ==> WantedAmong(m, s.indexes.Keys) == WantedDiffs(m, s)
    ensures m.registered == {} ==> WantedDiffs(m, s) == {}
  {
    hide HasIndexSubscription;
  }

  lemma OneMoreDiff(before: Store, after: Store, names: set<Key>, name: Key)
    ensures var d, diffs := DiffOf(MapOf(before, name), MapOf(after, name)), DiffsBetween(before, after, names);
      DiffsBetween(before, after, names + {name}) == if d != [] then diffs[name := d] else diffs
  {
    hide DiffOf, MapOf;
  }

  lemma PrimaryWanted(m: Manager)
    ensures WantedAmong(m, {}) == {} + {[]}
  {
  }

  lemma NoDiffs(before: Store, after: Store)
    ensures DiffsBetween(before, after, {}) == map[]
  {
  }

  /** What surrounds the object: the database's versions, and the work that waits for a timer or a lock. */
  datatype World = World(history: seq<Store>, unfired: seq<Unfired>, queue: seq<Batch>, finished: seq<Finished>)

  function StateOf(w: World, m: Manager, ranAt: map<Id, nat>): State {
    State(w.history, m, w.unfired, w.queue, w.finished, ranAt)
  }

  lemma {:induction false} StepsBefore(s: State, steps: seq<Step>, i: nat)
    requires i < |steps| && After(s, steps).Some?
    ensures After(s, steps[..i]).Some? && Enabled(After(s, steps[..i]).value, steps[i])
    ensures After(s, steps[..i + 1]) == Some(Stepped(After(s, steps[..i]).value, steps[i]))
    decreases |steps|
  {
    hide Enabled, Stepped;
    if i + 1 == |steps| {
      assert steps[..i + 1] == steps;
    } else {
      var shorter := steps[..|steps| - 1];
      assert shorter[..i] == steps[..i] && shorter[..i + 1] == steps[..i + 1];
      StepsBefore(s, shorter, i);
    }
  }

  lemma CurrentIsValid(s0: Store, steps: seq<Step>)
    requires ValidStore(s0) && After(Initial(s0), steps).Some?
    ensures var s := After(Initial(s0), steps).value; |s.history| > 0 && ValidStore(Current(s))
  {
    hide After, UnfiredRight, GoodIds, QueryOk, ValidStore;
    ReachableInv(s0, steps);
  }

  class SubscriptionsManager {
    var subs: map<Id, Sub>
    var registered: set<Id>
    var pending: set<Id>
    var hasPendingSubscriptionRuns: bool
    var aborted: bool

    ghost function View(): Manager
      reads this
    {
      Manager(subs, registered, pending, hasPendingSubscriptionRuns, aborted)
    }

    constructor ()
      ensures View() == Initial(Store(map[], map[])).mgr
    {
      subs, registered, pending := map[], {}, {};
      hasPendingSubscriptionRuns, aborted := false, false;
    }

    /** Registers a subscription; the caller schedules the initial run if this returns true. */
    method Add(id: Id, sub: Sub, ghost s: State) returns (schedule: bool)
      requires s.mgr == View() && Enabled(s, AddSub(id, sub))
      modifies this
      ensures View() == Stepped(s, AddSub(id, sub)).mgr
      ensures schedule == !old(hasPendingSubscriptionRuns)
    {
      subs := subs[id := sub];
      registered := registered + {id};
      pending := pending + {id};
      schedule := !hasPendingSubscriptionRuns;
      hasPendingSubscriptionRuns := true;
    }

    /** What follows the microtask of the initial run. */
    method StartInitialRun(ghost s: State) returns (batches: seq<Batch>)
      requires s.mgr == View() && Enabled(s, Step.StartInitialRun)
      modifies this
      ensures View() == Stepped(s, Step.StartInitialRun).mgr
      ensures s.queue + batches == Stepped(s, Step.StartInitialRun).queue
      ensures batches == if aborted || old(pending) == {} then [] else [Batch(old(pending), InitialRun)]
    {
      hasPendingSubscriptionRuns := false;
      var toRun := pending;
      pending := {};
      batches := FireSubscriptions(toRun, InitialRun);
    }

    /** Accepts the diffs of any commit, in any order. */
    method Fire(diffs: DiffsMap) returns (batches: seq<Batch>)
      ensures forall queue: seq<Batch> ::
        queue + batches == Enqueued(queue, View(), Matched(View(), diffs), Regular(diffs))
      ensures batches
           == if aborted || Matched(View(), diffs) == {} then [] else [Batch(Matched(View(), diffs), Regular(diffs))]
    {
      hide Matches;
      var toRun: set<Id>, todo := {}, registered;
      while todo != {}
        invariant todo <= registered
        invariant toRun == set id | id in registered && id !in todo && id in subs && Matches(subs[id], diffs)
        decreases todo
      {
        var id :| id in todo;
        todo := todo - {id};
        if id in subs && Matches(subs[id], diffs) {
          toRun := toRun + {id};
        }
      }
      assert toRun == Matched(View(), diffs);
      batches := FireSubscriptions(toRun, Regular(diffs));
    }

    method FireSubscriptions(toRun: set<Id>, kind: InvokeKind) returns (batches: seq<Batch>)
      ensures forall queue: seq<Batch> :: queue + batches == Enqueued(queue, View(), toRun, kind)
      ensures batches == if aborted || toRun == {} then [] else [Batch(toRun, kind)]
    {
      if aborted || toRun == {} {
        batches := [];
        assert forall queue: seq<Batch> :: queue + [] == queue;
      } else {
        batches := [Batch(toRun, kind)];
      }
    }

    /** Runs every subscription of a batch on one snapshot and updates the dependencies. */
    method RunBatch(b: Batch, store: Store, btree: (Key, Key) -> seq<Entry<Json>>) returns (results: map<Id, Result>)
      requires ValidStore(store)
      requires forall name, from :: btree(name, from) == ScanFrom(MapOf(store, name), from)
      modifies this
      ensures View() == InvokeAll(old(View()), b, store)
      ensures results == ResultsOf(old(View()), b, store)
    {
      hide Invoked, ScanFrom, ValidStore;
      results := map[];
      var todo := b.subs;
      ghost var ran: set<Id> := {};
      while todo != {}
        invariant ran + todo == b.subs && ran !! todo && View() == old(View()).(subs := subs)
        invariant subs.Keys == old(subs).Keys
        invariant forall id :: id in subs && id in ran ==> subs[id] == Invoked(old(subs)[id], store, b.kind).0
        invariant forall id :: id in subs && id !in ran ==> subs[id] == old(subs)[id]
        invariant results.Keys == ran * subs.Keys
        invariant forall id :: id in results ==> results[id] == Invoked(old(subs)[id], store, b.kind).1
        decreases todo
      {
        var id :| id in todo;
        todo, ran := todo - {id}, ran + {id};
        if id in subs {
          var sub, result := InvokeOne(subs[id], b.kind, store, btree);
          subs, results := subs[id := sub], results[id := result];
        }
      }
      assert subs == InvokeAll(old(View()), b, store).subs;
      assert results == ResultsOf(old(View()), b, store);
    }

    method InvokeOne(sub: Sub, kind: InvokeKind, store: Store, btree: (Key, Key) -> seq<Entry<Json>>)
        returns (sub': Sub, result: Result)
      requires ValidStore(store)
      requires forall name, from :: btree(name, from) == ScanFrom(MapOf(store, name), from)
      ensures (sub', result) == Invoked(sub, store, kind)
    {
      hide Run, StreamOf, ScanFrom, ValidStore, MapOf;
      var tx := new SubscriptionTransactionWrapper(store, btree);
      match sub {
        case Query(body, _, _, _, _, _) =>
          var outcome := tx.Invoke(body);
          sub', result := sub.(keys := tx.keys, scans := tx.scans), QueryResult(outcome);
        case Watcher(name, prefix, initialValues, _) =>
          var stream := tx.OpenStream(WatchScan(name, prefix));
          if kind.InitialRun? && initialValues && stream.fails {
            return sub, WatcherFailed;
          }
          sub', result := sub, WatcherResult(WatchResult(name, prefix, initialValues, kind, stream.entries));
      }
    }

    method CallCallbacks(results: map<Id, Result>)
      modifies this
      ensures View() == CallBackAll(old(View()), results)
    {
      hide CalledBack;
      var todo, called: set<Id> := results.Keys, {};
      while todo != {}
        invariant called + todo == results.Keys && called !! todo && View() == old(View()).(subs := subs)
        invariant subs.Keys == old(subs).Keys
        invariant forall id :: id in subs && id in called ==> subs[id] == CalledBack(old(subs)[id], results[id])
        invariant forall id :: id in subs && id !in called ==> subs[id] == old(subs)[id]
        decreases todo
      {
        var id :| id in todo;
        todo, called := todo - {id}, called + {id};
        if id in subs {
          subs := subs[id := CalledBack(subs[id], results[id])];
        }
      }
      assert subs == CallBackAll(old(View()), results).subs;
    }

    /** The subscription is not matched any more, and all others are matched as before; its pending initial run, and
      * runs under way, are not cancelled. */
    method Remove(id: Id)
      modifies this
      ensures View() == old(View()).(registered := registered) && registered == old(registered) - {id}
      ensures forall diffs :: Matched(View(), diffs) == Matched(old(View()), diffs) - {id}
    {
      hide Matches;
      registered := registered - {id};
    }

    /** Nothing is matched any more, and commits compute no diffs. */
    method Clear()
      modifies this
      ensures View() == old(View()).(registered := {})
      ensures forall diffs :: Matched(View(), diffs) == {}
      ensures forall s :: WantedDiffs(View(), s) == {}
    {
      hide Matches;
      registered := {};
    }

    /** The diffs of a commit: of the primary map if there is any subscription, and of every index that one uses. */
    method GenerateDiffs(before: Store, after: Store, diff: (Db, Db) -> Diff) returns (diffs: DiffsMap)
      requires forall m, m' :: diff(m, m') == DiffOf(m, m')
      ensures diffs == DiffsBetween(before, after, WantedDiffs(View(), after))
    {
      hide DiffOf, MapOf, DiffsBetween, WantedDiffs, IndexWanted, WantedAmong;
      diffs := map[];
      NoDiffs(before, after);
      WantedAll(View(), after);
      if registered == {} {
        return;
      }
      var valueDiff := diff(MapOf(before, []), MapOf(after, []));
      OneMoreDiff(before, after, {}, []);
      if valueDiff != [] {
        diffs := diffs[[] := valueDiff];
      }
      var todo, done: set<Key> := after.indexes.Keys, {};
      PrimaryWanted(View());
      while todo != {}
        invariant done + todo == after.indexes.Keys
        invariant diffs == DiffsBetween(before, after, WantedAmong(View(), done))
        decreases todo
      {
        var name :| name in todo;
        WantedOneMore(View(), done, name);
        OneMoreDiff(before, after, WantedAmong(View(), done), name);
        todo, done := todo - {name}, done + {name};
        var wanted := ShouldComputeDiffsForIndex(name);
        if wanted {
          var indexDiff := diff(MapOf(before, name), MapOf(after, name));
          if indexDiff != [] {
            diffs := diffs[name := indexDiff];
          }
        }
      }
    }

    method ShouldComputeDiffsForIndex(name: Key) returns (wanted: bool)
      ensures wanted <==> IndexWanted(View(), name)
      ensures wanted <==> exists id :: id in registered && id in subs && UsesIndex(subs[id], name)
    {
      var todo := registered;
      while todo != {}
        invariant forall id :: id in registered && id !in todo && id in subs ==> !HasIndexSubscription(subs[id], name)
        decreases todo
      {
        var id :| id in todo;
        if id in subs && HasIndexSubscription(subs[id], name) {
          IndexUsed(subs[id], name);
          return true;
        }
        todo := todo - {id};
      }
      forall id | id in registered && id in subs ensures !UsesIndex(subs[id], name) {
        IndexUsed(subs[id], name);
      }
      return false;
    }

    /** One step that concerns the object and the work around it. */
    method Perform(step: Step, w: World, btree: (Store, Key, Key) -> seq<Entry<Json>>, diff: (Db, Db) -> Diff,
        ghost s: State)
        returns (w': World)
      requires s == StateOf(w, View(), s.ranAt) && Enabled(s, step) && ValidStore(Current(s))
      requires forall store, name, from ::
        ValidStore(store) ==> btree(store, name, from) == ScanFrom(MapOf(store, name), from)
      requires forall m, m' :: diff(m, m') == DiffOf(m, m')
      modifies this
      ensures StateOf(w', View(), Stepped(s, step).ranAt) == Stepped(s, step)
    {
      hide IsNew, SameIndexes, ValidStore, WantedDiffs, DiffsBetween, Matches, InvokeAll, ResultsOf, CallBackAll;
      var current := w.history[|w.history| - 1];
      match step {
        case AddSub(id, sub) =>
          var _ := Add(id, sub, s);
          w' := w;
        case StartInitialRun =>
          var batches := StartInitialRun(s);
          w' := w.(queue := w.queue + batches);
        case Commit(after) =>
          var diffs := GenerateDiffs(current, after, diff);
          w' := w.(history := w.history + [after], unfired := w.unfired + [Unfired(diffs, |w.history| - 1)]);
        case Fire(i) =>
          var batches := Fire(w.unfired[i].diffs);
          w' := w.(unfired := Without(w.unfired, i), queue := w.queue + batches);
        case RunBatch(i) =>
          var results := RunBatch(w.queue[i], current, (name, from) => btree(current, name, from));
          w' := w.(queue := Without(w.queue, i), finished := w.finished + [Finished(results, |w.history| - 1)]);
        case CallCallbacks(i) =>
          CallCallbacks(w.finished[i].results);
          w' := w.(finished := Without(w.finished, i));
        case Remove(id) =>
          Remove(id);
          w' := w;
        case Clear =>
          Clear();
          w' := w;
        case Abort =>
          aborted := true;
          w' := w;
      }
    }

    /** The object, driven through any run of the steps, together with what waits around it is the state that the run
      * leads to. */
    method Drive(s0: Store, steps: seq<Step>, btree: (Store, Key, Key) -> seq<Entry<Json>>, diff: (Db, Db) -> Diff)
        returns (w: World)
      requires View() == Initial(s0).mgr && ValidStore(s0) && After(Initial(s0), steps).Some?
      requires forall store, name, from ::
        ValidStore(store) ==> btree(store, name, from) == ScanFrom(MapOf(store, name), from)
      requires forall m, m' :: diff(m, m') == DiffOf(m, m')
      modifies this
      ensures StateOf(w, View(), After(Initial(s0), steps).value.ranAt) == After(Initial(s0), steps).value
    {
      hide Enabled, Stepped, ValidStore, ScanFrom, DiffOf, MapOf;
      w := World([s0], [], [], []);
      ghost var s := Initial(s0);
      for i := 0 to |steps|
        invariant After(Initial(s0), steps[..i]) == Some(s)
        invariant s == StateOf(w, View(), s.ranAt)
      {
        StepsBefore(Initial(s0), steps, i);
        CurrentIsValid(s0, steps[..i]);
        w := Perform(steps[i], w, btree, diff, s);
        s := Stepped(s, steps[i]);
      }
      assert steps[..|steps|] == steps;
    }
  }
}
