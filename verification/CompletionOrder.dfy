/** When a watcher's replay is right in whatever order the work under way is completed. */
module CompletionOrder {
  import opened Wrappers
  import opened Keys
  import opened Entries
  import opened Scan
  import opened Diffs
  import opened Watch
  import opened Subscriptions
  import opened SubscriptionRuns
  import opened WatcherRuns
  import opened CallbackOrder

  // ---------- complete orders ----------

  predicate Completing(step: Step) {
    step.Fire? || step.RunBatch? || step.CallCallbacks?
  }

  /** The steps fire, run and call back all that is under way, and do nothing else. */
  ghost predicate CompletesWith(s: State, more: seq<Step>) {
    && (forall step :: step in more ==> Completing(step))
    && After(s, more).Some?
    && var t := After(s, more).value; t.unfired == [] && t.queue == [] && t.finished == []
  }

  /** The replay of `handed` has the current value of every key with the prefix, and no other key. */
  ghost predicate RightReplay(handed: seq<Diff>, prefix: Key, now: Db) {
    forall k :: Lookup(Replay(handed), k) == if StartsWith(k, prefix) then Lookup(now, k) else None
  }

  ghost predicate WatcherIsRight(s: State, id: Id)
    requires |s.history| > 0 && id in s.mgr.subs && s.mgr.subs[id].Watcher?
  {
    RightReplay(s.mgr.subs[id].handed, s.mgr.subs[id].prefix, Current(s).primary)
  }

  ghost predicate EndsRight(s: State, more: seq<Step>, id: Id) {
    After(s, more).Some? &&
    var t := After(s, more).value; |t.history| > 0 && IsWatched(t, id) && WatcherIsRight(t, id)
  }

  // ---------- the work under way ----------

  /** Results with these diffs that the watcher is still to be handed, for runs on one version. */
  function Later(ds: seq<Diff>, id: Id, version: nat): seq<Finished> {
    seq(|ds|, i requires 0 <= i < |ds| => Finished(map[id := WatcherResult(Some(ds[i]))], version))
  }

  /** What a queued batch will hand to the watcher if it runs on this data. */
  ghost function RequestedDiff(b: Batch, id: Id, prefix: Key, now: Db): Diff {
    if id !in b.subs then []
    else if b.kind.Regular? then UnfiredDiff(b.kind.diffs, prefix)
    else Filtered([], Additions(ScanEntries(now, WatchScan([], prefix))), prefix)
  }

  ghost function RequestedDiffs(bs: seq<Batch>, id: Id, prefix: Key, now: Db): seq<Diff> {
    seq(|bs|, i requires 0 <= i < |bs| => RequestedDiff(bs[i], id, prefix, now))
  }

  /** What the queued batches and the diffs still to be fired will hand to the watcher. */
  ghost function LaterDiffs(s: State, id: Id): seq<Diff>
    requires |s.history| > 0 && id in s.mgr.subs && s.mgr.subs[id].Watcher?
  {
    var prefix := s.mgr.subs[id].prefix;
    RequestedDiffs(s.queue, id, prefix, Current(s).primary) + UnfiredDiffs(s.unfired, prefix)
  }

  /** The finished batches, and what is queued and still to be fired, which will all run on the current version. */
  ghost function Todo(s: State, id: Id): seq<Finished>
    requires |s.history| > 0 && id in s.mgr.subs && s.mgr.subs[id].Watcher?
  {
    s.finished + Later(LaterDiffs(s, id), id, |s.history| - 1)
  }

  /** What the watcher will have been handed if everything is completed in its present order. */
  ghost function TodoOrder(s: State, id: Id): seq<Diff>
    requires |s.history| > 0 && id in s.mgr.subs && s.mgr.subs[id].Watcher?
  {
    s.mgr.subs[id].handed + FinishedDiffs(Todo(s, id), id)
  }

  ghost predicate Ready(s: State, id: Id) {
    GoodHistory(s) && GoodIds(s) && VersionsAscend(s.finished) && IsWatched(s, id)
  }

  lemma TodoAscends(s: State, id: Id)
    requires Ready(s, id)
    ensures VersionsAscend(Todo(s, id))
  {
    hide GoodHistory, LaterDiffs;
    assert forall i :: 0 <= i < |s.finished| ==> s.finished[i] in s.finished;
  }

  // ---------- the versions and diffs of the work ----------

  ghost function Work(fs: seq<Finished>, id: Id): set<(nat, Diff)> {
    set f | f in fs && FinishedDiff(f, id) != [] :: (f.version, FinishedDiff(f, id))
  }

  ghost function NotEmpty(ds: seq<Diff>): set<Diff> {
    set d | d in ds && d != []
  }

  lemma WorkConcat(fs: seq<Finished>, gs: seq<Finished>, id: Id)
    ensures Work(fs + gs, id) == Work(fs, id) + Work(gs, id)
  {
    hide FinishedDiff;
    forall w ensures w in Work(fs + gs, id) <==> w in Work(fs, id) + Work(gs, id) {
      if w in Work(fs, id) {
        var f :| f in fs && FinishedDiff(f, id) != [] && w == (f.version, FinishedDiff(f, id));
        assert f in fs + gs;
      }
      if w in Work(gs, id) {
        var f :| f in gs && FinishedDiff(f, id) != [] && w == (f.version, FinishedDiff(f, id));
        assert f in fs + gs;
      }
    }
  }

  lemma LaterWork(ds: seq<Diff>, id: Id, version: nat)
    ensures Work(Later(ds, id, version), id) == set d | d in NotEmpty(ds) :: (version, d)
    ensures FinishedDiffs(Later(ds, id, version), id) == ds
  {
    var fs := Later(ds, id, version);
    forall w | w in Work(fs, id) ensures w.0 == version && w.1 in NotEmpty(ds) {
      var f :| f in fs && FinishedDiff(f, id) != [] && w == (f.version, FinishedDiff(f, id));
      var i :| 0 <= i < |fs| && fs[i] == f;
      assert ds[i] in ds;
    }
    forall d | d in NotEmpty(ds) ensures (version, d) in Work(fs, id) {
      var i :| 0 <= i < |ds| && ds[i] == d;
      assert fs[i] in fs && FinishedDiff(fs[i], id) == d;
    }
  }

  /** Only the diffs that are not empty matter, wherever they are in the list. */
  lemma SameWork(fs: seq<Finished>, ds: seq<Diff>, gs: seq<Finished>, es: seq<Diff>, id: Id, version: nat)
    requires Work(fs, id) + (set d | d in NotEmpty(ds) :: (version, d))
      == Work(gs, id) + (set d | d in NotEmpty(es) :: (version, d))
    ensures Work(fs + Later(ds, id, version), id) == Work(gs + Later(es, id, version), id)
  {
    WorkConcat(fs, Later(ds, id, version), id);
    WorkConcat(gs, Later(es, id, version), id);
    LaterWork(ds, id, version);
    LaterWork(es, id, version);
  }

  lemma DiffsWithout(ds: seq<Diff>, i: nat)
    requires i < |ds|
    ensures NotEmpty(ds) == NotEmpty(Without(ds, i)) + NotEmpty([ds[i]])
  {
    WithoutMembers(ds, i);
  }

  lemma NotEmptyConcat(ds: seq<Diff>, es: seq<Diff>)
    ensures NotEmpty(ds + es) == NotEmpty(ds) + NotEmpty(es)
  {
  }

  lemma RequestedWithout(bs: seq<Batch>, i: nat, id: Id, prefix: Key, now: Db)
    requires i < |bs|
    ensures RequestedDiffs(Without(bs, i), id, prefix, now) == Without(RequestedDiffs(bs, id, prefix, now), i)
    ensures |RequestedDiffs(bs, id, prefix, now)| == |bs|
    ensures RequestedDiffs(bs, id, prefix, now)[i] == RequestedDiff(bs[i], id, prefix, now)
  {
    hide RequestedDiff;
  }

  lemma UnfiredWithout(us: seq<Unfired>, i: nat, prefix: Key)
    requires i < |us|
    ensures UnfiredDiffs(Without(us, i), prefix) == Without(UnfiredDiffs(us, prefix), i)
    ensures |UnfiredDiffs(us, prefix)| == |us| && UnfiredDiffs(us, prefix)[i] == UnfiredDiff(us[i].diffs, prefix)
  {
    hide UnfiredDiff;
  }

  // ---------- firing and running keep the work ----------

  lemma FireKeepsReady(s: State, i: nat, id: Id)
    requires Ready(s, id) && Enabled(s, Fire(i))
    ensures var s' := Stepped(s, Fire(i));
      && Ready(s', id) && s'.mgr == s.mgr && s'.history == s.history && s'.finished == s.finished
      && s'.unfired == Without(s.unfired, i)
  {
    hide SameIndexes, UnfiredRight, Matches;
    StepKeepsHistory(s, Fire(i));
    StepKeepsIds(s, Fire(i));
  }

  /** The fired diff is queued for the watcher, or is empty for it. */
  ghost predicate FiredTo(s: State, s': State, i: nat, id: Id)
    requires |s.history| > 0 && i < |s.unfired| && id in s.mgr.subs && s.mgr.subs[id].Watcher?
  {
    var prefix, now := s.mgr.subs[id].prefix, Current(s).primary;
    var q, q' := RequestedDiffs(s.queue, id, prefix, now), RequestedDiffs(s'.queue, id, prefix, now);
    var d := UnfiredDiff(s.unfired[i].diffs, prefix);
    q' == q + [d] || (q' == q && d == [])
  }

  lemma FiredDiff(s: State, i: nat, id: Id)
    requires Ready(s, id) && Enabled(s, Fire(i))
    ensures FiredTo(s, Stepped(s, Fire(i)), i, id)
  {
    hide Matches, UnfiredDiff, SameIndexes, DiffsRight, GoodIds;
    var prefix, s', u := s.mgr.subs[id].prefix, Stepped(s, Fire(i)), s.unfired[i];
    if id !in Matched(s.mgr, u.diffs) {
      assert u in s.unfired && UnfiredRight(s.history, u);
      NotMatchedNotHanded(s.mgr.subs[id], u.diffs, s.history[u.version], s.history[u.version + 1]);
    }
    if s'.queue != s.queue {
      var now := Current(s).primary;
      assert RequestedDiffs(s'.queue, id, prefix, now)
          == RequestedDiffs(s.queue, id, prefix, now) + [UnfiredDiff(u.diffs, prefix)];
    }
  }

  lemma MovedDiff(q: seq<Diff>, q': seq<Diff>, us: seq<Diff>, i: nat)
    requires i < |us| && (q' == q + [us[i]] || (q' == q && us[i] == []))
    ensures NotEmpty(q' + Without(us, i)) == NotEmpty(q + us)
  {
    DiffsWithout(us, i);
    NotEmptyConcat(q', Without(us, i));
    NotEmptyConcat(q, us);
    NotEmptyConcat(q, [us[i]]);
  }

  ghost predicate SameWatcher(s: State, s': State, id: Id) {
    && |s.history| > 0 && s'.history == s.history
    && id in s.mgr.subs && id in s'.mgr.subs && s.mgr.subs[id].Watcher? && s'.mgr.subs[id] == s.mgr.subs[id]
  }

  /** What is left after firing a diff that is queued for the watcher, or is empty for it. */
  lemma LaterAfterFire(s: State, s': State, i: nat, id: Id)
    requires SameWatcher(s, s', id) && i < |s.unfired| && s'.unfired == Without(s.unfired, i)
    requires FiredTo(s, s', i, id)
    ensures NotEmpty(LaterDiffs(s', id)) == NotEmpty(LaterDiffs(s, id))
  {
    var prefix, now := s.mgr.subs[id].prefix, Current(s).primary;
    hide UnfiredDiff, RequestedDiffs, UnfiredDiffs, NotEmpty, Without;
    UnfiredWithout(s.unfired, i, prefix);
    MovedDiff(RequestedDiffs(s.queue, id, prefix, now), RequestedDiffs(s'.queue, id, prefix, now),
              UnfiredDiffs(s.unfired, prefix), i);
  }

  lemma FireKeepsTodo(s: State, s': State, i: nat, id: Id)
    requires SameWatcher(s, s', id) && i < |s.unfired|
    requires s'.finished == s.finished && s'.unfired == Without(s.unfired, i) && FiredTo(s, s', i, id)
    ensures Work(Todo(s', id), id) == Work(Todo(s, id), id)
  {
    hide FiredTo, LaterDiffs, Work, NotEmpty, Later, Without;
    LaterAfterFire(s, s', i, id);
    SameWork(s.finished, LaterDiffs(s, id), s.finished, LaterDiffs(s', id), id, |s.history| - 1);
  }

  lemma FireKeepsWork(s: State, i: nat, s': State, id: Id)
    requires Ready(s, id) && Enabled(s, Fire(i)) && s' == Stepped(s, Fire(i))
    ensures Ready(s', id) && SameWatcher(s, s', id) && Work(Todo(s', id), id) == Work(Todo(s, id), id)
  {
    FireKeepsReady(s, i, id);
    FiredDiff(s, i, id);
    assert SameWatcher(s, s', id);
    hide Ready, Stepped, Work, Todo, Without, FiredTo;
    FireKeepsTodo(s, s', i, id);
  }

  lemma RunKeepsReady(s: State, i: nat, id: Id)
    requires Ready(s, id) && Enabled(s, RunBatch(i))
    ensures var s' := Stepped(s, RunBatch(i));
      && Ready(s', id) && s'.mgr.subs[id] == s.mgr.subs[id] && s'.history == s.history && s'.unfired == s.unfired
      && s'.queue == Without(s.queue, i)
  {
    hide SameIndexes, UnfiredRight, Invoked;
    StepKeepsHistory(s, RunBatch(i));
    StepKeepsIds(s, RunBatch(i));
    InvokedKeepsWatcher(s.mgr.subs[id], Current(s), s.queue[i].kind);
    WithoutMembers(s.queue, i);
    assert forall j :: 0 <= j < |s.finished| ==> s.finished[j] in s.finished;
  }

  /** A batch hands over what was queued for the watcher. */
  lemma RanDiff(s: State, i: nat, id: Id)
    requires Ready(s, id) && Enabled(s, RunBatch(i))
    ensures var s', v := Stepped(s, RunBatch(i)), |s.history| - 1;
      && |s'.finished| == |s.finished| + 1 && s'.finished[..|s.finished|] == s.finished
      && s'.finished[|s.finished|].version == v
      && FinishedDiff(s'.finished[|s.finished|], id)
         == RequestedDiff(s.queue[i], id, s.mgr.subs[id].prefix, Current(s).primary)
  {
    hide SameIndexes, GoodHistory, GoodIds, VersionsAscend, Filtered;

  }

  lemma SingleWork(f: Finished, id: Id)
    ensures Work([f], id) == set d | d in NotEmpty([FinishedDiff(f, id)]) :: (f.version, d)
  {
    hide FinishedDiff;
    forall w ensures w in Work([f], id) <==> w.0 == f.version && w.1 in NotEmpty([FinishedDiff(f, id)]) {
      assert f in [f];
    }
  }

  /** A diff that moves from the queue to the finished batches. */
  lemma MovedWork(fs: seq<Finished>, f: Finished, q: seq<Diff>, us: seq<Diff>, i: nat, id: Id)
    requires i < |q| && FinishedDiff(f, id) == q[i]
    ensures Work(fs + [f] + Later(Without(q, i) + us, id, f.version), id) == Work(fs + Later(q + us, id, f.version), id)
  {
    DiffsWithout(q, i);
    NotEmptyConcat(q, us);
    NotEmptyConcat(Without(q, i), us);
    SingleWork(f, id);
    WorkConcat(fs, [f], id);
    hide NotEmpty, Work, FinishedDiff, Without;
    var v, a, b, c := f.version, NotEmpty(Without(q, i)), NotEmpty([q[i]]), NotEmpty(us);
    assert (set d | d in a + b + c :: (v, d)) == (set d | d in b :: (v, d)) + (set d | d in a + c :: (v, d));
    SameWork(fs, q + us, fs + [f], Without(q, i) + us, id, v);
  }

  lemma LaterAfterRun(s: State, s': State, i: nat, id: Id)
    requires SameWatcher(s, s', id) && i < |s.queue|
    requires s'.queue == Without(s.queue, i) && s'.unfired == s.unfired
    ensures var prefix, now := s.mgr.subs[id].prefix, Current(s).primary;
      var q, us := RequestedDiffs(s.queue, id, prefix, now), UnfiredDiffs(s.unfired, prefix);
      && LaterDiffs(s, id) == q + us && LaterDiffs(s', id) == Without(q, i) + us
      && i < |q| && q[i] == RequestedDiff(s.queue[i], id, prefix, now)
  {
    hide RequestedDiff, RequestedDiffs, UnfiredDiffs, Without;
    RequestedWithout(s.queue, i, id, s.mgr.subs[id].prefix, Current(s).primary);
  }

  lemma RunKeepsTodo(s: State, s': State, i: nat, f: Finished, id: Id)
    requires SameWatcher(s, s', id) && i < |s.queue|
    requires s'.finished == s.finished + [f] && s'.queue == Without(s.queue, i) && s'.unfired == s.unfired
    requires f.version == |s.history| - 1
    requires FinishedDiff(f, id) == RequestedDiff(s.queue[i], id, s.mgr.subs[id].prefix, Current(s).primary)
    ensures Work(Todo(s', id), id) == Work(Todo(s, id), id)
  {
    hide FinishedDiff, RequestedDiff, RequestedDiffs, UnfiredDiffs, LaterDiffs, Work, Later, Without;
    LaterAfterRun(s, s', i, id);
    var prefix, now := s.mgr.subs[id].prefix, Current(s).primary;
    MovedWork(s.finished, f, RequestedDiffs(s.queue, id, prefix, now), UnfiredDiffs(s.unfired, prefix), i, id);
  }

  lemma RunKeepsWork(s: State, i: nat, s': State, id: Id)
    requires Ready(s, id) && Enabled(s, RunBatch(i)) && s' == Stepped(s, RunBatch(i))
    ensures Ready(s', id) && SameWatcher(s, s', id) && Work(Todo(s', id), id) == Work(Todo(s, id), id)
  {
    RunKeepsReady(s, i, id);
    RanDiff(s, i, id);
    var f := s'.finished[|s.finished|];
    assert SameWatcher(s, s', id) && s'.finished == s.finished + [f];
    hide Ready, Stepped, Work, Todo, Without, RequestedDiff, FinishedDiff;
    RunKeepsTodo(s, s', i, f, id);
  }

  // ---------- the same work has the same outcome ----------

  lemma SameMark(fs: seq<Finished>, gs: seq<Finished>, id: Id, k: Key, i: nat) returns (j: nat)
    requires Work(fs, id) == Work(gs, id) && Touches(fs, id, k, i)
    ensures Touches(gs, id, k, j) && gs[j].version == fs[i].version
      && FinishedDiff(gs[j], id) == FinishedDiff(fs[i], id)
  {
    hide FinishedDiff;
    EmptyDiffEffect(FinishedDiff(fs[i], id), k);
    hide Effect;
    assert fs[i] in fs;
    var w := (fs[i].version, FinishedDiff(fs[i], id));
    assert w in Work(fs, id);
    var g :| g in gs && FinishedDiff(g, id) != [] && w == (g.version, FinishedDiff(g, id));
    j :| 0 <= j < |gs| && gs[j] == g;
  }

  lemma SameLatest(fs: seq<Finished>, gs: seq<Finished>, id: Id, k: Key, i: nat) returns (j: nat)
    requires Work(fs, id) == Work(gs, id) && IsLatest(fs, id, k, i)
    ensures IsLatest(gs, id, k, j) && Effect(FinishedDiff(gs[j], id), k) == Effect(FinishedDiff(fs[i], id), k)
  {
    hide FinishedDiff, Effect, Work;
    j := SameMark(fs, gs, id, k, i);
    forall l: nat | Touches(gs, id, k, l) ensures gs[l].version <= gs[j].version {
      var l' := SameMark(gs, fs, id, k, l);
    }
  }

  lemma SameAgreement(fs: seq<Finished>, gs: seq<Finished>, id: Id, k: Key)
    requires Work(fs, id) == Work(gs, id) && LatestAgree(fs, id, k)
    ensures LatestAgree(gs, id, k)
  {
    hide FinishedDiff, Effect, Work;
    forall a: nat, b: nat | IsLatest(gs, id, k, a) && IsLatest(gs, id, k, b)
      ensures a < |gs| && b < |gs| && Effect(FinishedDiff(gs[a], id), k) == Effect(FinishedDiff(gs[b], id), k)
    {
      var a' := SameLatest(gs, fs, id, k, a);
      var b' := SameLatest(gs, fs, id, k, b);
    }
  }

  lemma SameOutcome(fs: seq<Finished>, gs: seq<Finished>, id: Id, k: Key)
    requires Work(fs, id) == Work(gs, id) && LatestAgree(fs, id, k) && VersionsAscend(fs) && VersionsAscend(gs)
    ensures EffectAll(FinishedDiffs(fs, id), k) == EffectAll(FinishedDiffs(gs, id), k)
  {
    hide FinishedDiff, Effect, EffectAll, Work, VersionsAscend;
    var a := LastTouching(fs, id, k);
    var b := LastTouching(gs, id, k);
    if EffectAll(FinishedDiffs(fs, id), k).Some? {
      var a' := SameMark(fs, gs, id, k, a);
      var b' := SameLatest(gs, fs, id, k, b);
    } else if EffectAll(FinishedDiffs(gs, id), k).Some? {
      var b' := SameMark(gs, fs, id, k, b);
    }
  }

  // ---------- every completing step keeps the outcome ----------

  lemma CallKeepsTodo(s: State, i: nat, s': State, id: Id, k: Key)
    requires Ready(s, id) && Enabled(s, CallCallbacks(i)) && s' == Stepped(s, CallCallbacks(i))
    ensures Ready(s', id) && s'.mgr.subs[id].prefix == s.mgr.subs[id].prefix && s'.history == s.history
    ensures i < |s.finished| && Permitted(Todo(s, id), i) && Todo(s', id) == Without(Todo(s, id), i)
    ensures EffectAll(s'.mgr.subs[id].handed, k)
         == OrElse(EffectAll(s.mgr.subs[id].handed, k), Effect(FinishedDiff(Todo(s, id)[i], id), k))
  {
    hide Effect, EffectAll, SameIndexes, UnfiredRight, CalledBack, UnfiredDiff, RequestedDiff, FinishedDiff;
    CalledBackWatcher(s, i, id, k);
    StepKeepsHistory(s, CallCallbacks(i));
    StepKeepsIds(s, CallCallbacks(i));
    WithoutAscends(s.finished, i);
    TodoPermitted(s, i, id);
    TodoWithout(s.finished, i, LaterDiffs(s, id), id, |s.history| - 1);
  }

  lemma TodoPermitted(s: State, i: nat, id: Id)
    requires Ready(s, id) && Permitted(s.finished, i)
    ensures Permitted(Todo(s, id), i)
  {
    hide LaterDiffs, GoodHistory;
    assert s.finished[i] in s.finished;
  }

  lemma TodoWithout(fs: seq<Finished>, i: nat, ds: seq<Diff>, id: Id, version: nat)
    requires i < |fs|
    ensures Without(fs + Later(ds, id, version), i) == Without(fs, i) + Later(ds, id, version)
  {
    hide Later;
  }

  lemma CallKeepsOutcome(s: State, i: nat, s': State, id: Id, k: Key)
    requires Ready(s, id) && Enabled(s, CallCallbacks(i)) && s' == Stepped(s, CallCallbacks(i))
    requires LatestAgree(Todo(s, id), id, k)
    ensures Ready(s', id) && LatestAgree(Todo(s', id), id, k)
    ensures s'.mgr.subs[id].prefix == s.mgr.subs[id].prefix && s'.history == s.history
    ensures EffectAll(TodoOrder(s', id), k) == EffectAll(TodoOrder(s, id), k)
  {
    CallKeepsTodo(s, i, s', id, k);
    TodoAscends(s, id);
    hide Ready, Stepped, Enabled, Todo, Effect, EffectAll, FinishedDiff, VersionsAscend, LatestAgree, Without;
    AgreementStays(Todo(s, id), i, id, k);
    CallFirst(Todo(s, id), i, id, k);
    EffectConcat(s.mgr.subs[id].handed, FinishedDiffs(Todo(s, id), id), k);
    EffectConcat(s'.mgr.subs[id].handed, FinishedDiffs(Todo(s', id), id), k);
  }

  lemma SameWorkKeepsOutcome(s: State, s': State, id: Id, k: Key)
    requires Ready(s, id) && Ready(s', id) && SameWatcher(s, s', id) && Work(Todo(s', id), id) == Work(Todo(s, id), id)
    requires LatestAgree(Todo(s, id), id, k)
    ensures LatestAgree(Todo(s', id), id, k) && EffectAll(TodoOrder(s', id), k) == EffectAll(TodoOrder(s, id), k)
  {
    TodoAscends(s, id);
    TodoAscends(s', id);
    hide Ready, Todo, Work, EffectAll, VersionsAscend, LatestAgree;
    SameAgreement(Todo(s, id), Todo(s', id), id, k);
    SameOutcome(Todo(s, id), Todo(s', id), id, k);
    EffectConcat(s.mgr.subs[id].handed, FinishedDiffs(Todo(s, id), id), k);
    EffectConcat(s'.mgr.subs[id].handed, FinishedDiffs(Todo(s', id), id), k);
  }

  lemma StepKeepsOutcome(s: State, step: Step, s': State, id: Id, k: Key)
    requires Ready(s, id) && Enabled(s, step) && Completing(step) && s' == Stepped(s, step)
    requires LatestAgree(Todo(s, id), id, k)
    ensures Ready(s', id) && LatestAgree(Todo(s', id), id, k)
    ensures s'.mgr.subs[id].prefix == s.mgr.subs[id].prefix && s'.history == s.history
    ensures EffectAll(TodoOrder(s', id), k) == EffectAll(TodoOrder(s, id), k)
  {
    hide LatestAgree, EffectAll, TodoOrder, Todo, Work, Stepped;
    match step
    case Fire(i) =>
      FireKeepsWork(s, i, s', id);
      SameWorkKeepsOutcome(s, s', id, k);
    case RunBatch(i) =>
      RunKeepsWork(s, i, s', id);
      SameWorkKeepsOutcome(s, s', id, k);
    case CallCallbacks(i) => CallKeepsOutcome(s, i, s', id, k);
    case _ =>
  }

  /** While the latest work agrees about a key, the outcome for the key stays what the present order gives. */
  lemma {:induction false} OutcomeStays(s: State, more: seq<Step>, id: Id, k: Key)
    requires Ready(s, id) && LatestAgree(Todo(s, id), id, k)
    requires (forall step :: step in more ==> Completing(step)) && After(s, more).Some?
    ensures var t := After(s, more).value;
      && Ready(t, id) && LatestAgree(Todo(t, id), id, k)
      && t.mgr.subs[id].prefix == s.mgr.subs[id].prefix && t.history == s.history
      && EffectAll(TodoOrder(t, id), k) == EffectAll(TodoOrder(s, id), k)
    decreases |more|
  {
    hide LatestAgree, EffectAll, TodoOrder, Todo, Enabled, Stepped;
    if more != [] {
      var before, step := more[..|more| - 1], more[|more| - 1];
      assert step in more && forall x :: x in before ==> x in more;
      OutcomeStays(s, before, id, k);
      StepKeepsOutcome(After(s, before).value, step, After(s, more).value, id, k);
    }
  }

  // ---------- completing everything ----------

  lemma {:induction false} AfterConcat(s: State, a: seq<Step>, b: seq<Step>)
    requires After(s, a).Some?
    ensures After(s, a + b) == After(After(s, a).value, b)
    decreases |b|
  {
    hide Enabled, Stepped;
    if b == [] {
      assert a + b == a;
    } else {
      AfterConcat(s, a, b[..|b| - 1]);
      assert (a + b)[..|a + b| - 1] == a + b[..|b| - 1];
    }
  }

  lemma AfterOne(s: State, more: seq<Step>, step: Step)
    requires After(s, more).Some? && Enabled(After(s, more).value, step)
    requires Completing(step) && forall x :: x in more ==> Completing(x)
    ensures After(s, more + [step]) == Some(Stepped(After(s, more).value, step))
    ensures forall x :: x in more + [step] ==> Completing(x)
  {
    assert (more + [step])[..|more|] == more;
  }

  /** Everything can be fired and run, which keeps the work. */
  lemma {:induction false} FireAndRunAll(s: State, more: seq<Step>, id: Id) returns (all: seq<Step>)
    requires (forall step :: step in more ==> Completing(step)) && After(s, more).Some?
      && Ready(After(s, more).value, id)
    ensures (forall step :: step in all ==> Completing(step)) && After(s, all).Some?
    ensures var t, t' := After(s, more).value, After(s, all).value;
      && Ready(t', id) && SameWatcher(t, t', id) && t'.unfired == [] && t'.queue == []
      && Work(Todo(t', id), id) == Work(Todo(t, id), id)
    decreases |After(s, more).value.unfired|, |After(s, more).value.queue|
  {
    hide After, Work, Todo, GoodHistory, GoodIds, VersionsAscend;
    var t := After(s, more).value;
    ReadyHistory(t, id);
    if t.unfired != [] {
      AfterOne(s, more, Fire(0));
      FireKeepsWork(t, 0, Stepped(t, Fire(0)), id);
      all := FireAndRunAll(s, more + [Fire(0)], id);
    } else if t.queue != [] {
      AfterOne(s, more, RunBatch(0));
      RunKeepsWork(t, 0, Stepped(t, RunBatch(0)), id);
      all := FireAndRunAll(s, more + [RunBatch(0)], id);
    } else {
      all := more;
    }
  }

  lemma ReadyHistory(s: State, id: Id)
    requires Ready(s, id)
    ensures |s.history| > 0 && IsWatched(s, id)
  {
  }

  lemma AllFinished(s: State, id: Id)
    requires s.unfired == [] && s.queue == [] && |s.history| > 0 && id in s.mgr.subs && s.mgr.subs[id].Watcher?
    ensures Todo(s, id) == s.finished
  {
  }

  /** Calling back what has finished completes what was fired and run before. */
  lemma CallsComplete(s: State, all: seq<Step>, calls: seq<Step>)
    requires (forall step :: step in all ==> Completing(step)) && After(s, all).Some?
    requires var t := After(s, all).value; t.unfired == [] && t.queue == [] && CallsAll(t, calls)
    ensures CompletesWith(s, all + calls) && After(s, all + calls) == After(After(s, all).value, calls)
  {
    hide After;
    var t := After(s, all).value;
    AfterConcat(s, all, calls);
    CallsKeepEmpty(t, calls);
  }

  lemma {:induction false} CallsKeepEmpty(s: State, calls: seq<Step>)
    requires s.unfired == [] && s.queue == []
    requires (forall step :: step in calls ==> step.CallCallbacks?) && After(s, calls).Some?
    ensures After(s, calls).value.unfired == [] && After(s, calls).value.queue == []
    decreases |calls|
  {
    if calls != [] {
      var before, call := calls[..|calls| - 1], calls[|calls| - 1];
      assert call in calls && forall x :: x in before ==> x in calls;
      CallsKeepEmpty(s, before);
    }
  }

  // ---------- the exact condition ----------

  lemma RightAt(handed: seq<Diff>, prefix: Key, now: Db, k: Key)
    requires RightReplay(handed, prefix, now) && EffectAll(handed, k).Some?
    ensures EffectAll(handed, k).value == if StartsWith(k, prefix) then Lookup(now, k) else None
  {
    ReplayEffect(handed, k);
  }

  /** Lists of diffs with the same effects are right or wrong together. */
  lemma SameEffectsSameRight(a: seq<Diff>, b: seq<Diff>, prefix: Key, now: Db)
    requires forall k :: EffectAll(a, k) == EffectAll(b, k)
    ensures RightReplay(a, prefix, now) <==> RightReplay(b, prefix, now)
  {
    hide EffectAll;
    forall k ensures Lookup(Replay(a), k) == Lookup(Replay(b), k) {
      ReplayEffect(a, k);
      ReplayEffect(b, k);
    }
  }

  lemma NothingTodo(s: State, id: Id)
    requires s.unfired == [] && s.queue == [] && s.finished == []
    requires |s.history| > 0 && id in s.mgr.subs && s.mgr.subs[id].Watcher?
    ensures TodoOrder(s, id) == s.mgr.subs[id].handed
  {
    AllFinished(s, id);
  }

  /** If the latest work agrees about every key, what the watcher is handed in the end has the effects of the present
    * order. */
  lemma CompletedOutcome(s: State, more: seq<Step>, id: Id)
    requires Ready(s, id) && CompletesWith(s, more) && forall k :: LatestAgree(Todo(s, id), id, k)
    ensures var t := After(s, more).value;
      && IsWatched(t, id) && t.mgr.subs[id].prefix == s.mgr.subs[id].prefix && t.history == s.history && |t.history| > 0
      && forall k :: EffectAll(t.mgr.subs[id].handed, k) == EffectAll(TodoOrder(s, id), k)
  {
    hide After, EffectAll, Todo, TodoOrder, LatestAgree, GoodHistory, GoodIds, VersionsAscend;
    var t := After(s, more).value;
    ReadyHistory(s, id);
    OutcomeStays(s, more, id, []);
    NothingTodo(t, id);
    forall k ensures EffectAll(t.mgr.subs[id].handed, k) == EffectAll(TodoOrder(s, id), k) {
      OutcomeStays(s, more, id, k);
    }
  }

  /** Any of the latest work on a key can have the last word about it. */
  lemma CompletesWithLastWord(s: State, id: Id, k: Key, i: nat) returns (more: seq<Step>)
    requires Ready(s, id) && IsLatest(Todo(s, id), id, k, i)
    ensures CompletesWith(s, more)
    ensures var t := After(s, more).value;
      && |t.history| > 0 && IsWatched(t, id) && t.history == s.history && t.mgr.subs[id].prefix == s.mgr.subs[id].prefix
      && EffectAll(t.mgr.subs[id].handed, k) == Effect(FinishedDiff(Todo(s, id)[i], id), k)
  {
    assert After(s, []) == Some(s);
    hide After, EffectAll, Effect, FinishedDiff, Todo, Work, GoodHistory, GoodIds, IsLatest;
    var all := FireAndRunAll(s, [], id);
    var t := After(s, all).value;
    ReadyHistory(t, id);
    AllFinished(t, id);
    var j := SameLatest(Todo(s, id), Todo(t, id), id, k, i);
    assert After(t, []) == Some(t) by { AfterNone(t); }
    var calls := HasLastWord(t, [], id, k, j);
    CallsComplete(s, all, calls);
    more := all + calls;
  }

  lemma AfterNone(s: State)
    ensures After(s, []) == Some(s)
  {
  }

  lemma LastWordsAgree(s: State, id: Id, k: Key, a: seq<Step>, b: seq<Step>)
    requires EndsRight(s, a, id) && EndsRight(s, b, id)
    requires var t, t' := After(s, a).value, After(s, b).value;
      && t.history == t'.history && t.mgr.subs[id].prefix == t'.mgr.subs[id].prefix
      && EffectAll(t.mgr.subs[id].handed, k).Some? && EffectAll(t'.mgr.subs[id].handed, k).Some?
    ensures EffectAll(After(s, a).value.mgr.subs[id].handed, k) == EffectAll(After(s, b).value.mgr.subs[id].handed, k)
  {
    hide EffectAll, After;
    var t, t' := After(s, a).value, After(s, b).value;
    RightAt(t.mgr.subs[id].handed, t.mgr.subs[id].prefix, Current(t).primary, k);
    RightAt(t'.mgr.subs[id].handed, t'.mgr.subs[id].prefix, Current(t').primary, k);
  }

  lemma AllRightAllAgree(s: State, id: Id, k: Key)
    requires Ready(s, id) && forall more :: CompletesWith(s, more) ==> EndsRight(s, more, id)
    ensures LatestAgree(Todo(s, id), id, k)
  {
    ReadyHistory(s, id);
    hide Ready, EffectAll, Effect, FinishedDiff, CompletesWith, EndsRight, Todo, After;
    var fs := Todo(s, id);
    forall i: nat, j: nat | IsLatest(fs, id, k, i) && IsLatest(fs, id, k, j)
      ensures i < |fs| && j < |fs| && Effect(FinishedDiff(fs[i], id), k) == Effect(FinishedDiff(fs[j], id), k)
    {
      var a := CompletesWithLastWord(s, id, k, i);
      var b := CompletesWithLastWord(s, id, k, j);
      LastWordsAgree(s, id, k, a, b);
    }
  }

  /** Everything can be completed. */
  lemma CanComplete(s: State, id: Id) returns (more: seq<Step>)
    requires Ready(s, id)
    ensures CompletesWith(s, more)
  {
    assert After(s, []) == Some(s);
    hide After, EffectAll, Todo, Work, GoodHistory, GoodIds;
    var all := FireAndRunAll(s, [], id);
    var t := After(s, all).value;
    ReadyHistory(t, id);
    AfterNone(t);
    var calls := FinishInRunOrder(t, [], id, []);
    CallsComplete(s, all, calls);
    more := all + calls;
  }

  lemma AllAgreeRight(s: State, id: Id, more: seq<Step>)
    requires Ready(s, id) && CompletesWith(s, more) && forall k :: LatestAgree(Todo(s, id), id, k)
    ensures EndsRight(s, more, id) <==> RightReplay(TodoOrder(s, id), s.mgr.subs[id].prefix, Current(s).primary)
  {
    ReadyHistory(s, id);
    CompletedOutcome(s, more, id);
    assert After(s, more).Some?;
    hide Ready, CompletesWith, EffectAll, Todo, TodoOrder, LatestAgree, After, RightReplay, Current;
    var t := After(s, more).value;
    SameEffectsSameRight(TodoOrder(s, id), t.mgr.subs[id].handed, s.mgr.subs[id].prefix, Current(s).primary);
    SameCurrent(s, t);
  }

  lemma SameCurrent(s: State, t: State)
    requires |s.history| > 0 && t.history == s.history
    ensures Current(s) == Current(t)
  {
  }

  /** The condition for a state that keeps the invariants. */
  lemma EveryOrderIffReady(s: State, id: Id)
    requires Ready(s, id)
    ensures |s.history| > 0 && id in s.mgr.subs && s.mgr.subs[id].Watcher?
    ensures (forall more :: CompletesWith(s, more) ==> EndsRight(s, more, id))
       <==> RightReplay(TodoOrder(s, id), s.mgr.subs[id].prefix, Current(s).primary)
            && forall k :: LatestAgree(Todo(s, id), id, k)
  {
    ReadyHistory(s, id);
    hide Ready, CompletesWith, EndsRight, RightReplay, LatestAgree, Todo, TodoOrder;
    if forall more :: CompletesWith(s, more) ==> EndsRight(s, more, id) {
      forall k ensures LatestAgree(Todo(s, id), id, k) {
        AllRightAllAgree(s, id, k);
      }
      var more := CanComplete(s, id);
      AllAgreeRight(s, id, more);
    }
    if RightReplay(TodoOrder(s, id), s.mgr.subs[id].prefix, Current(s).primary)
      && forall k :: LatestAgree(Todo(s, id), id, k) {
      forall more | CompletesWith(s, more) ensures EndsRight(s, more, id) {
        AllAgreeRight(s, id, more);
      }
    }
  }

  lemma {:induction false} ReachableAscends(s0: Store, steps: seq<Step>)
    requires After(Initial(s0), steps).Some?
    ensures var s := After(Initial(s0), steps).value;
      |s.history| > 0 && VersionsAscend(s.finished) && forall f :: f in s.finished ==> f.version < |s.history|
    decreases |steps|
  {
    hide SameIndexes, IsNew, Matched, InvokeAll, ResultsOf, CallBackAll, DiffsBetween, WantedDiffs, Enqueued;
    if steps != [] {
      var s, step := After(Initial(s0), steps[..|steps| - 1]).value, steps[|steps| - 1];
      ReachableAscends(s0, steps[..|steps| - 1]);
      if step.CallCallbacks? {
        WithoutAscends(s.finished, step.i);
        WithoutMembers(s.finished, step.i);
      }
    }
  }

  /** The exact condition.  From any reachable state, whatever is still to be fired, to run or to call back, every
    * order of completing it leaves the watcher right if and only if the present order does and, for each key, all
    * work of the greatest version that touches the key does the same to it.  What is queued or still to be fired
    * counts as work of the current version. */
  lemma EveryOrderIff(s0: Store, steps: seq<Step>, id: Id)
    requires ValidStore(s0) && After(Initial(s0), steps).Some?
    requires IsWatched(After(Initial(s0), steps).value, id)
    ensures var s := After(Initial(s0), steps).value;
      && |s.history| > 0
      && ((forall more :: CompletesWith(s, more) ==> EndsRight(s, more, id))
          <==> RightReplay(TodoOrder(s, id), s.mgr.subs[id].prefix, Current(s).primary)
               && forall k :: LatestAgree(Todo(s, id), id, k))
  {
    ReachableInv(s0, steps);
    ReachableAscends(s0, steps);
    hide After, CompletesWith, EndsRight, RightReplay, LatestAgree, Todo, TodoOrder, GoodHistory, GoodIds,
      VersionsAscend;
    EveryOrderIffReady(After(Initial(s0), steps).value, id);
  }

  /** With nothing left to fire or to run, only the order of callbacks is open: it does not matter if and only if the
    * latest finished batches agree about every key. */
  lemma EveryCallbackOrderIff(s0: Store, steps: seq<Step>, id: Id)
    requires ValidStore(s0) && After(Initial(s0), steps).Some?
    requires var s := After(Initial(s0), steps).value;
      && s.queue == [] && s.unfired == [] && |s.history| > 0 && IsWatched(s, id)
      && RightReplay(InRunOrder(s, id), s.mgr.subs[id].prefix, Current(s).primary)
    ensures var s := After(Initial(s0), steps).value;
      (forall calls :: CallsAll(s, calls) ==> EndsRight(s, calls, id)) <==> forall k :: LatestAgree(s.finished, id, k)
  {
    EveryOrderIff(s0, steps, id);
    hide EndsRight, RightReplay, LatestAgree;
    var s := After(Initial(s0), steps).value;
    AllFinished(s, id);
    hide After;
    forall calls ensures CallsAll(s, calls) <==> CompletesWith(s, calls) {
      OnlyCallsLeft(s, calls);
    }
  }

  lemma OnlyCallsLeft(s: State, more: seq<Step>)
    requires s.unfired == [] && s.queue == []
    ensures CallsAll(s, more) <==> CompletesWith(s, more)
  {
    hide After;
    if CompletesWith(s, more) {
      CompletingAreCalls(s, more);
    }
    if CallsAll(s, more) {
      CallsKeepEmpty(s, more);
    }
  }

  lemma {:induction false} CompletingAreCalls(s: State, more: seq<Step>)
    requires s.unfired == [] && s.queue == [] && (forall step :: step in more ==> Completing(step))
      && After(s, more).Some?
    ensures forall step :: step in more ==> step.CallCallbacks?
    ensures After(s, more).value.unfired == [] && After(s, more).value.queue == []
    decreases |more|
  {
    if more != [] {
      var before, step := more[..|more| - 1], more[|more| - 1];
      assert step in more && forall x :: x in before ==> x in more;
      CompletingAreCalls(s, before);
      assert step.CallCallbacks?;
      assert more == before + [step];
    }
  }

  /** The present order is right after every run that was in order so far, once the initial run has run. */
  lemma InOrderSoFar(s0: Store, steps: seq<Step>, id: Id)
    requires ValidStore(s0) && After(Initial(s0), steps).Some? && InOrderRun(Initial(s0), steps)
    requires var s := After(Initial(s0), steps).value; IsWatched(s, id) && Initialised(s, id)
    ensures var s := After(Initial(s0), steps).value;
      |s.history| > 0 && RightReplay(TodoOrder(s, id), s.mgr.subs[id].prefix, Current(s).primary)
  {
    hide Effect, EffectAll, SameIndexes, QueryOk, GoodIds, After, InOrderRun, Filtered;
    var s := After(Initial(s0), steps).value;
    InOrderInv(s0, steps);
    assert WatcherOk(s, id);
    var w := s.mgr.subs[id];
    forall k
      ensures Lookup(Replay(TodoOrder(s, id)), k)
        == if StartsWith(k, w.prefix) then Lookup(Current(s).primary, k) else None {
      ReplayEffect(TodoOrder(s, id), k);
      TodoIsTotal(s, id, k);
    }
  }

  /** The present order has the effects that the watcher's invariant speaks of. */
  lemma TodoIsTotal(s: State, id: Id, k: Key)
    requires |s.history| > 0 && id in s.mgr.subs && s.mgr.subs[id].Watcher? && Initialised(s, id)
    ensures EffectAll(TodoOrder(s, id), k) == TotalEffect(s, id, k)
  {
    hide EffectAll, Effect, UnfiredDiff, QueuedDiff, FinishedDiff, RequestedDiff;
    var w, later, v := s.mgr.subs[id], LaterDiffs(s, id), |s.history| - 1;
    EffectConcat(w.handed, FinishedDiffs(Todo(s, id), id), k);
    LaterWork(later, id, v);
    assert FinishedDiffs(s.finished + Later(later, id, v), id)
      == FinishedDiffs(s.finished, id) + FinishedDiffs(Later(later, id, v), id);
    EffectConcat(FinishedDiffs(s.finished, id), later, k);
    assert RequestedDiffs(s.queue, id, w.prefix, Current(s).primary) == QueuedDiffs(s.queue, id, w.prefix) by {
      RegularRequests(s, id, w.prefix);
    }
    EffectConcat(QueuedDiffs(s.queue, id, w.prefix), UnfiredDiffs(s.unfired, w.prefix), k);
  }

  lemma RegularRequests(s: State, id: Id, prefix: Key)
    requires |s.history| > 0 && Initialised(s, id)
    ensures RequestedDiffs(s.queue, id, prefix, Current(s).primary) == QueuedDiffs(s.queue, id, prefix)
  {
    hide UnfiredDiff;
    forall i | 0 <= i < |s.queue|
      ensures RequestedDiff(s.queue[i], id, prefix, Current(s).primary) == QueuedDiff(s.queue[i], id, prefix)
    {
      assert s.queue[i] in s.queue;
    }
  }
}
