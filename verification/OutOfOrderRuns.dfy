/** For every clause of the order of a run, a run that breaks only that clause and leaves a watcher's replay wrong. */
module OutOfOrderRuns {
  import opened Wrappers
  import opened Keys
  import opened Entries
  import opened Scan
  import opened Diffs
  import opened Watch
  import opened Subscriptions
  import opened WatcherRuns

  const K: Key := [107]

  function WithKey(present: bool): Store {
    Store(if present then map[K := Null] else map[], map[])
  }

  const ADDED: Diff := [Entry(K, Add(Null))]
  const DELETED: Diff := [Entry(K, Del(Null))]

  function Toggled(added: bool): Diff {
    if added then ADDED else DELETED
  }

  function DiffsOf(d: Diff): DiffsMap {
    map[[] := d]
  }

  lemma ToggledDiff(present: bool)
    ensures DiffOf(WithKey(!present).primary, WithKey(present).primary) == Toggled(present)
  {
    var before, after := WithKey(!present).primary, WithKey(present).primary;
    assert Changed(before, after, K);
    assert forall e :: e in Toggled(present) <==> e == Toggled(present)[0];
    SortedUnique(DiffOf(before, after), Toggled(present));
  }

  lemma WholeDiffKept(d: Diff)
    requires StrictlySorted(d)
    ensures Filtered([], d, []) == d
  {
    PlainFilterExact(d, []);
    EmptyPrefixKeepsAll(d);
  }

  // ---------- states with one registered watcher of everything ----------

  function WatchAll(handed: seq<Diff>): Sub {
    Watcher([], [], true, handed)
  }

  /** The watcher `id` is registered; `gone` are subscriptions that have been removed. */
  function WatchState(gone: map<Id, Sub>, id: Id, history: seq<Store>, handed: seq<Diff>, unfired: seq<Unfired>,
                      queue: seq<Batch>, finished: seq<Finished>, ranAt: map<Id, nat>): State {
    State(history, Manager(gone[id := WatchAll(handed)], {id}, {}, false, false), unfired, queue, finished, ranAt)
  }

  function Result1(id: Id, d: Diff): map<Id, Result> {
    map[id := WatcherResult(Some(d))]
  }

  lemma RunStep(gone: map<Id, Sub>, id: Id, history: seq<Store>, handed: seq<Diff>, queue: seq<Batch>, i: nat,
                finished: seq<Finished>, ranAt: map<Id, nat>, d: Diff)
    requires history != [] && i < |queue| && queue[i].subs == {id}
    requires Invoked(WatchAll(handed), history[|history| - 1], queue[i].kind)
      == (WatchAll(handed), WatcherResult(Some(d)))
    ensures var s := WatchState(gone, id, history, handed, [], queue, finished, ranAt); var v := |history| - 1;
      && Enabled(s, RunBatch(i))
      && Stepped(s, RunBatch(i))
         == WatchState(gone, id, history, handed, [], Without(queue, i), finished + [Finished(Result1(id, d), v)],
           ranAt[id := v])
  {
    hide Invoked;
    var s, b, v := WatchState(gone, id, history, handed, [], queue, finished, ranAt), queue[i], |history| - 1;
    assert InvokeAll(s.mgr, b, history[v]).subs == s.mgr.subs;
    assert ResultsOf(s.mgr, b, history[v]) == Result1(id, d);
    assert ranAt + (map x | x in b.subs :: v) == ranAt[id := v];
  }

  lemma CallStep(gone: map<Id, Sub>, id: Id, history: seq<Store>, handed: seq<Diff>, finished: seq<Finished>, i: nat,
                 ranAt: map<Id, nat>, d: Diff)
    requires history != [] && i < |finished| && finished[i].results == Result1(id, d)
    requires forall j :: 0 <= j < |finished| ==> finished[j].version == finished[i].version
    ensures var s := WatchState(gone, id, history, handed, [], [], finished, ranAt);
      && Enabled(s, CallCallbacks(i))
      && Stepped(s, CallCallbacks(i)) == WatchState(gone, id, history, handed + [d], [], [], Without(finished, i),
        ranAt)
  {
    var s := WatchState(gone, id, history, handed, [], [], finished, ranAt);
    assert CallBackAll(s.mgr, finished[i].results).subs == gone[id := WatchAll(handed + [d])];
  }

  lemma CommitStep(history: seq<Store>, handed: seq<Diff>, unfired: seq<Unfired>, ranAt: map<Id, nat>, present: bool)
    requires history != [] && history[|history| - 1] == WithKey(!present)
    ensures var s := WatchState(map[], 0, history, handed, unfired, [], [], ranAt);
      && Enabled(s, Commit(WithKey(present)))
      && Stepped(s, Commit(WithKey(present)))
         == WatchState(map[], 0, history + [WithKey(present)], handed,
                       unfired + [Unfired(DiffsOf(Toggled(present)), |history| - 1)], [], [], ranAt)
  {
    hide DiffOf;
    var s := WatchState(map[], 0, history, handed, unfired, [], [], ranAt);
    ToggledDiff(present);
    assert WantedDiffs(s.mgr, WithKey(present)) == {[]};
    assert DiffsBetween(WithKey(!present), WithKey(present), {[]}) == DiffsOf(Toggled(present));
  }

  lemma FireStep(gone: map<Id, Sub>, id: Id, history: seq<Store>, handed: seq<Diff>, unfired: seq<Unfired>, i: nat,
                 queue: seq<Batch>, ranAt: map<Id, nat>)
    requires history != [] && i < |unfired| && [] in unfired[i].diffs
    ensures var s := WatchState(gone, id, history, handed, unfired, queue, [], ranAt);
      && Enabled(s, Fire(i))
      && Stepped(s, Fire(i)) == WatchState(gone, id, history, handed, Without(unfired, i),
                                           queue + [Batch({id}, Regular(unfired[i].diffs))], [], ranAt)
  {
    var s := WatchState(gone, id, history, handed, unfired, queue, [], ranAt);
    assert Matches(s.mgr.subs[id], unfired[i].diffs);
    assert Matched(s.mgr, unfired[i].diffs) == {id};
  }

  lemma InitialRunOfNothing()
    ensures Invoked(WatchAll([]), WithKey(false), InitialRun) == (WatchAll([]), WatcherResult(Some([])))
  {
    MatchingUnique([], WithKey(false).primary, Range(WatchScan([], [])));
    WholeDiffKept([]);
  }

  lemma RegularRun(s: Store, handed: seq<Diff>, added: bool)
    ensures Invoked(WatchAll(handed), s, Regular(DiffsOf(Toggled(added))))
      == (WatchAll(handed), WatcherResult(Some(Toggled(added))))
  {
    WholeDiffKept(Toggled(added));
  }

  // ---------- runs that break only one clause ----------

  ghost predicate KeepsOthers(s: State, step: Step, broken: Clause) {
    && (broken.FiresInOrder? || Keeps(s, step, FiresInOrder)) && (broken.RunsInOrder? || Keeps(s, step, RunsInOrder))
    && (broken.CallsBackInOrder? || Keeps(s, step, CallsBackInOrder))
    && (broken.CommitsForSomebody? || Keeps(s, step, CommitsForSomebody))
  }

  /** Every step keeps every clause except perhaps the broken one. */
  ghost predicate OnlyBreaks(s0: State, steps: seq<Step>, broken: Clause) {
    steps == [] ||
      (OnlyBreaks(s0, steps[..|steps| - 1], broken)
       && (After(s0, steps[..|steps| - 1]).Some? ==>
             KeepsOthers(After(s0, steps[..|steps| - 1]).value, steps[|steps| - 1], broken)))
  }

  /** The steps lead from the empty database to `s` and break only one clause. */
  ghost predicate Leads(steps: seq<Step>, s: State, broken: Clause) {
    After(Initial(WithKey(false)), steps) == Some(s) && OnlyBreaks(Initial(WithKey(false)), steps, broken)
  }

  lemma Extend(steps: seq<Step>, s: State, step: Step, broken: Clause) returns (longer: seq<Step>)
    requires Leads(steps, s, broken) && Enabled(s, step) && KeepsOthers(s, step, broken)
    ensures longer == steps + [step] && Leads(longer, Stepped(s, step), broken)
  {
    hide Enabled, Stepped, KeepsOthers;
    longer := steps + [step];
    assert longer[..|steps|] == steps;
  }

  /** A state in which the watcher has been added and its initial run is pending. */
  function Added(gone: map<Id, Sub>, id: Id, history: seq<Store>, unfired: seq<Unfired>, ranAt: map<Id, nat>): State {
    State(history, Manager(gone[id := WatchAll([])], {id}, {id}, true, false), unfired, [], [], ranAt)
  }

  lemma AddStep(gone: map<Id, Sub>, id: Id, history: seq<Store>, unfired: seq<Unfired>, ranAt: map<Id, nat>)
    requires history != [] && id !in gone
    ensures var s := State(history, Manager(gone, {}, {}, false, false), unfired, [], [], ranAt);
      && Enabled(s, AddSub(id, WatchAll([])))
      && Stepped(s, AddSub(id, WatchAll([]))) == Added(gone, id, history, unfired, ranAt)
  {
    assert {} + {id} == {id};
  }

  lemma InitialRunStep(gone: map<Id, Sub>, id: Id, history: seq<Store>, unfired: seq<Unfired>, ranAt: map<Id, nat>)
    requires history != []
    ensures var s := Added(gone, id, history, unfired, ranAt);
      && Enabled(s, StartInitialRun)
      && Stepped(s, StartInitialRun) == WatchState(gone, id, history, [], unfired, [Batch({id}, InitialRun)], [], ranAt)
  {
  }

  lemma NothingLeads(broken: Clause)
    ensures Leads([], Initial(WithKey(false)), broken)
  {
  }

  lemma AddFirst(broken: Clause) returns (steps: seq<Step>)
    ensures Leads(steps, WatchState(map[], 0, [WithKey(false)], [], [], [Batch({0}, InitialRun)], [], map[]), broken)
  {
    hide Leads, Enabled, Stepped, WithKey;
    var h := [WithKey(false)];
    NothingLeads(broken);
    AddStep(map[], 0, h, [], map[]);
    steps := Extend([], Initial(WithKey(false)), AddSub(0, WatchAll([])), broken);
    InitialRunStep(map[], 0, h, [], map[]);
    steps := Extend(steps, Added(map[], 0, h, [], map[]), StartInitialRun, broken);
  }

  lemma Start(broken: Clause) returns (steps: seq<Step>)
    ensures Leads(steps, WatchState(map[], 0, [WithKey(false)], [[]], [], [], [], map[0 := 0]), broken)
  {
    hide Invoked, Leads, Enabled, Stepped;
    steps := AddFirst(broken);
    var h, b, f := [WithKey(false)], Batch({0}, InitialRun), Finished(Result1(0, []), 0);
    InitialRunOfNothing();
    RunStep(map[], 0, h, [], [b], 0, [], map[], []);
    steps := Extend(steps, WatchState(map[], 0, h, [], [], [b], [], map[]), RunBatch(0), broken);
    assert Without([b], 0) == [] && [] + [f] == [f] && map[][0 := 0] == map[0 := 0];
    CallStep(map[], 0, h, [], [f], 0, map[0 := 0], []);
    steps := Extend(steps, WatchState(map[], 0, h, [], [], [], [f], map[0 := 0]), CallCallbacks(0), broken);
    var handed: seq<Diff> := [] + [[]];
    assert Without([f], 0) == [] && handed == [[]];
  }

  // ---------- two commits, fired, run or called back in the wrong order ----------

  const VERSIONS: seq<Store> := [WithKey(false)] + [WithKey(true)] + [WithKey(false)]

  const TO_FIRE: seq<Unfired> := [Unfired(DiffsOf(ADDED), 0)] + [Unfired(DiffsOf(DELETED), 1)]

  function RegularBatch(id: Id, added: bool): Batch {
    Batch({id}, Regular(DiffsOf(Toggled(added))))
  }

  function FinishedBatch(id: Id, added: bool): Finished {
    Finished(Result1(id, Toggled(added)), 2)
  }

  /** The key is added and deleted again before the first diff is fired. */
  lemma CommitBoth(broken: Clause) returns (steps: seq<Step>)
    ensures Leads(steps, WatchState(map[], 0, VERSIONS, [[]], TO_FIRE, [], [], map[0 := 0]), broken)
  {
    hide Leads, Enabled, Stepped;
    steps := Start(broken);
    var h := [WithKey(false)];
    CommitStep(h, [[]], [], map[0 := 0], true);
    steps := Extend(steps, WatchState(map[], 0, h, [[]], [], [], [], map[0 := 0]), Commit(WithKey(true)), broken);
    var first := [Unfired(DiffsOf(ADDED), 0)];
    assert [] + first == first;
    CommitStep(h + [WithKey(true)], [[]], first, map[0 := 0], false);
    steps := Extend(steps, WatchState(map[], 0, h + [WithKey(true)], [[]], first, [], [], map[0 := 0]),
      Commit(WithKey(false)), broken);
  }

  /** Both diffs are fired, the later one first if firing is out of order. */
  lemma FireBoth(broken: Clause) returns (steps: seq<Step>)
    ensures var p := !broken.FiresInOrder?;
      Leads(steps, WatchState(map[], 0, VERSIONS, [[]], [], [RegularBatch(0, p)] + [RegularBatch(0, !p)], [],
        map[0 := 0]), broken)
  {
    hide Leads, Enabled, Stepped;
    steps := CommitBoth(broken);
    var p := !broken.FiresInOrder?;
    var i := if p then 0 else 1;
    FireStep(map[], 0, VERSIONS, [[]], TO_FIRE, i, [], map[0 := 0]);
    steps := Extend(steps, WatchState(map[], 0, VERSIONS, [[]], TO_FIRE, [], [], map[0 := 0]), Fire(i), broken);
    var left := Without(TO_FIRE, i);
    assert left == [Unfired(DiffsOf(Toggled(!p)), if p then 1 else 0)]
      && [] + [RegularBatch(0, p)] == [RegularBatch(0, p)];
    FireStep(map[], 0, VERSIONS, [[]], left, 0, [RegularBatch(0, p)], map[0 := 0]);
    steps := Extend(steps, WatchState(map[], 0, VERSIONS, [[]], left, [RegularBatch(0, p)], [], map[0 := 0]), Fire(0),
      broken);
    assert Without(left, 0) == [];
  }

  /** Both batches run, the later one first if running is out of order. */
  lemma RunBoth(broken: Clause) returns (steps: seq<Step>)
    ensures var q := !broken.FiresInOrder? && !broken.RunsInOrder?;
      Leads(steps, WatchState(map[], 0, VERSIONS, [[]], [], [], [FinishedBatch(0, q)] + [FinishedBatch(0, !q)],
        map[0 := 2]), broken)
  {
    hide Leads, Enabled, Stepped, Invoked;
    steps := FireBoth(broken);
    var p, q := !broken.FiresInOrder?, !broken.FiresInOrder? && !broken.RunsInOrder?;
    var i := if p == q then 0 else 1;
    var queue := [RegularBatch(0, p)] + [RegularBatch(0, !p)];
    RegularRun(WithKey(false), [[]], true);
    RegularRun(WithKey(false), [[]], false);
    RunStep(map[], 0, VERSIONS, [[]], queue, i, [], map[0 := 0], Toggled(q));
    steps := Extend(steps, WatchState(map[], 0, VERSIONS, [[]], [], queue, [], map[0 := 0]), RunBatch(i), broken);
    var left, fs := Without(queue, i), [FinishedBatch(0, q)];
    assert left == [RegularBatch(0, !q)] && [] + fs == fs && map[0 := 0][0 := 2] == map[0 := 2] == map[0 := 2][0 := 2];
    RunStep(map[], 0, VERSIONS, [[]], left, 0, fs, map[0 := 2], Toggled(!q));
    steps := Extend(steps, WatchState(map[], 0, VERSIONS, [[]], [], left, fs, map[0 := 2]), RunBatch(0), broken);
    assert Without(left, 0) == [];
  }

  /** Both batches call back, the later one first if calling back is out of order.  The deletion comes first. */
  lemma CallBoth(broken: Clause) returns (steps: seq<Step>)
    requires !broken.CommitsForSomebody?
    ensures Leads(steps, WatchState(map[], 0, VERSIONS, [[]] + [DELETED] + [ADDED], [], [], [], map[0 := 2]), broken)
  {
    hide Leads, Enabled, Stepped;
    steps := RunBoth(broken);
    var q := !broken.FiresInOrder? && !broken.RunsInOrder?;
    var i, fs := if q then 1 else 0, [FinishedBatch(0, q)] + [FinishedBatch(0, !q)];
    CallStep(map[], 0, VERSIONS, [[]], fs, i, map[0 := 2], DELETED);
    steps := Extend(steps, WatchState(map[], 0, VERSIONS, [[]], [], [], fs, map[0 := 2]), CallCallbacks(i), broken);
    var left := Without(fs, i);
    assert left == [FinishedBatch(0, true)];
    CallStep(map[], 0, VERSIONS, [[]] + [DELETED], left, 0, map[0 := 2], ADDED);
    steps := Extend(steps, WatchState(map[], 0, VERSIONS, [[]] + [DELETED], [], [], left, map[0 := 2]),
      CallCallbacks(0), broken);
    assert Without(left, 0) == [];
  }

  // ---------- a commit while nobody is subscribed ----------

  const GONE: map<Id, Sub> := map[0 := WatchAll([[]])]

  lemma RemoveStep(unfired: seq<Unfired>, history: seq<Store>)
    requires history != []
    ensures var s := WatchState(map[], 0, history, [[]], unfired, [], [], map[0 := 0]);
      && Enabled(s, Remove(0))
      && Stepped(s, Remove(0)) == State(history, Manager(GONE, {}, {}, false, false), unfired, [], [], map[0 := 0])
  {
    assert {0} - {0} == {};
  }

  lemma UnwatchedCommitStep(unfired: seq<Unfired>, history: seq<Store>)
    requires history != [] && history[|history| - 1] == WithKey(true)
    ensures var s := State(history, Manager(GONE, {}, {}, false, false), unfired, [], [], map[0 := 0]);
      && Enabled(s, Commit(WithKey(false)))
      && Stepped(s, Commit(WithKey(false)))
         == State(history + [WithKey(false)], Manager(GONE, {}, {}, false, false),
                  unfired + [Unfired(map[], |history| - 1)], [], [], map[0 := 0])
  {
    var s := State(history, Manager(GONE, {}, {}, false, false), unfired, [], [], map[0 := 0]);
    NothingWanted(s, WithKey(false));
  }

  lemma FireNothingStep(unfired: Unfired, queue: seq<Batch>)
    requires unfired.diffs == map[]
    ensures var s := WatchState(GONE, 1, VERSIONS, [], [unfired], queue, [], map[0 := 0]);
      Enabled(s, Fire(0)) && Stepped(s, Fire(0)) == WatchState(GONE, 1, VERSIONS, [], [], queue, [], map[0 := 0])
  {
    var s := WatchState(GONE, 1, VERSIONS, [], [unfired], queue, [], map[0 := 0]);
    assert Matched(s.mgr, map[]) == {};
    assert Without([unfired], 0) == [];
  }

  /** A watcher comes and goes around the commit that adds the key; the key is deleted while there is none, and the
    * first diff is fired to a second watcher. */
  lemma UnwatchedFire(broken: Clause) returns (steps: seq<Step>)
    requires broken.CommitsForSomebody?
    ensures Leads(steps, WatchState(GONE, 1, VERSIONS, [], [], [Batch({1}, InitialRun)] + [RegularBatch(1, true)], [],
      map[0 := 0]), broken)
  {
    hide Leads, Enabled, Stepped;
    steps := Start(broken);
    var h, first, second := [WithKey(false)], [Unfired(DiffsOf(ADDED), 0)], Unfired(map[], 1);
    CommitStep(h, [[]], [], map[0 := 0], true);
    steps := Extend(steps, WatchState(map[], 0, h, [[]], [], [], [], map[0 := 0]), Commit(WithKey(true)), broken);
    assert [] + first == first;
    var h' := h + [WithKey(true)];
    RemoveStep(first, h');
    steps := Extend(steps, WatchState(map[], 0, h', [[]], first, [], [], map[0 := 0]), Remove(0), broken);
    UnwatchedCommitStep(first, h');
    steps := Extend(steps, State(h', Manager(GONE, {}, {}, false, false), first, [], [], map[0 := 0]),
      Commit(WithKey(false)), broken);
    AddStep(GONE, 1, VERSIONS, first + [second], map[0 := 0]);
    steps := Extend(steps, State(VERSIONS, Manager(GONE, {}, {}, false, false), first + [second], [], [], map[0 := 0]),
      AddSub(1, WatchAll([])), broken);
    steps := UnwatchedFireRest(steps, broken, first + [second]);
  }

  lemma UnwatchedFireRest(before: seq<Step>, broken: Clause, unfired: seq<Unfired>) returns (steps: seq<Step>)
    requires unfired == [Unfired(DiffsOf(ADDED), 0)] + [Unfired(map[], 1)]
    requires Leads(before, Added(GONE, 1, VERSIONS, unfired, map[0 := 0]), broken)
    ensures Leads(steps, WatchState(GONE, 1, VERSIONS, [], [], [Batch({1}, InitialRun)] + [RegularBatch(1, true)], [],
      map[0 := 0]), broken)
  {
    hide Leads, Enabled, Stepped;
    var init := [Batch({1}, InitialRun)];
    InitialRunStep(GONE, 1, VERSIONS, unfired, map[0 := 0]);
    steps := Extend(before, Added(GONE, 1, VERSIONS, unfired, map[0 := 0]), StartInitialRun, broken);
    FireStep(GONE, 1, VERSIONS, [], unfired, 0, init, map[0 := 0]);
    steps := Extend(steps, WatchState(GONE, 1, VERSIONS, [], unfired, init, [], map[0 := 0]), Fire(0), broken);
    assert Without(unfired, 0) == [Unfired(map[], 1)];
    FireNothingStep(Unfired(map[], 1), init + [RegularBatch(1, true)]);
    steps := Extend(steps, WatchState(GONE, 1, VERSIONS, [], [Unfired(map[], 1)], init + [RegularBatch(1, true)], [],
      map[0 := 0]), Fire(0), broken);
  }

  lemma UnwatchedRun(broken: Clause) returns (steps: seq<Step>)
    requires broken.CommitsForSomebody?
    ensures Leads(steps, WatchState(GONE, 1, VERSIONS, [], [], [], [Finished(Result1(1, []), 2)]
      + [FinishedBatch(1, true)], map[0 := 0][1 := 2]), broken)
  {
    hide Leads, Enabled, Stepped, Invoked;
    steps := UnwatchedFire(broken);
    var queue, f := [Batch({1}, InitialRun)] + [RegularBatch(1, true)], Finished(Result1(1, []), 2);
    InitialRunOfNothing();
    RunStep(GONE, 1, VERSIONS, [], queue, 0, [], map[0 := 0], []);
    steps := Extend(steps, WatchState(GONE, 1, VERSIONS, [], [], queue, [], map[0 := 0]), RunBatch(0), broken);
    assert Without(queue, 0) == [RegularBatch(1, true)] && [] + [f] == [f];
    RegularRun(WithKey(false), [], true);
    var ranAt := map[0 := 0][1 := 2];
    RunStep(GONE, 1, VERSIONS, [], [RegularBatch(1, true)], 0, [f], ranAt, ADDED);
    steps := Extend(steps, WatchState(GONE, 1, VERSIONS, [], [], [RegularBatch(1, true)], [f], ranAt), RunBatch(0),
      broken);
    assert Without([RegularBatch(1, true)], 0) == [] && ranAt[1 := 2] == ranAt;
  }

  lemma UnwatchedCalls(broken: Clause) returns (steps: seq<Step>)
    requires broken.CommitsForSomebody?
    ensures Leads(steps, WatchState(GONE, 1, VERSIONS, [[]] + [ADDED], [], [], [], map[0 := 0][1 := 2]), broken)
  {
    hide Leads, Enabled, Stepped;
    steps := UnwatchedRun(broken);
    var ranAt, fs := map[0 := 0][1 := 2], [Finished(Result1(1, []), 2)] + [FinishedBatch(1, true)];
    CallStep(GONE, 1, VERSIONS, [], fs, 0, ranAt, []);
    steps := Extend(steps, WatchState(GONE, 1, VERSIONS, [], [], [], fs, ranAt), CallCallbacks(0), broken);
    var handed: seq<Diff> := [] + [[]];
    assert Without(fs, 0) == [FinishedBatch(1, true)] && handed == [[]];
    CallStep(GONE, 1, VERSIONS, [[]], [FinishedBatch(1, true)], 0, ranAt, ADDED);
    steps := Extend(steps, WatchState(GONE, 1, VERSIONS, [[]], [], [], [FinishedBatch(1, true)], ranAt),
      CallCallbacks(0), broken);
    assert Without([FinishedBatch(1, true)], 0) == [];
  }

  // ---------- every clause is needed ----------

  /** Nothing is under way, everything has been handed over, the key is gone, and the replay still has it. */
  ghost predicate EndsWrong(s: State, id: Id) {
    && Quiescent(s) && |s.history| > 0 && IsWatched(s, id)
    && K !in Current(s).primary && K in Replay(s.mgr.subs[id].handed)
  }

  lemma AddedLast(handed: seq<Diff>)
    requires handed != [] && handed[|handed| - 1] == ADDED
    ensures K in Replay(handed)
  {
    ReplayEffect(handed, K);
    assert Effect(ADDED, K) == Some(Some(Null));
  }

  /** No clause of the order can be dropped: for each there is a run that keeps all the others and ends wrong.  For
    * firing it is a refresh, which fires its diff only after the persistent store has been written, overtaken by a
    * mutation. */
  lemma EveryClauseIsNeeded(broken: Clause)
    ensures exists steps, s, id :: Leads(steps, s, broken) && EndsWrong(s, id)
  {
    hide Leads;
    if broken.CommitsForSomebody? {
      var steps := UnwatchedCalls(broken);
      var s := WatchState(GONE, 1, VERSIONS, [[]] + [ADDED], [], [], [], map[0 := 0][1 := 2]);
      AddedLast(s.mgr.subs[1].handed);
      assert Leads(steps, s, broken) && EndsWrong(s, 1);
    } else {
      var steps := CallBoth(broken);
      var s := WatchState(map[], 0, VERSIONS, [[]] + [DELETED] + [ADDED], [], [], [], map[0 := 2]);
      AddedLast(s.mgr.subs[0].handed);
      assert Leads(steps, s, broken) && EndsWrong(s, 0);
    }
  }
}
