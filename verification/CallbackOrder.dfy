/** What the order in which finished batches call back means for a watcher. */
module CallbackOrder {
  import opened Wrappers
  import opened Keys
  import opened Diffs
  import opened Watch
  import opened Subscriptions
  import opened WatcherRuns

  // ---------- complete callback orders ----------

  /** Steps that call back every finished batch, and nothing else. */
  ghost predicate CallsAll(s: State, calls: seq<Step>) {
    && (forall step :: step in calls ==> step.CallCallbacks?)
    && After(s, calls).Some? && After(s, calls).value.finished == []
  }

  /** What the watcher will have been handed if the batches call back in the order in which they ran. */
  function InRunOrder(s: State, id: Id): seq<Diff>
    requires id in s.mgr.subs && s.mgr.subs[id].Watcher?
  {
    s.mgr.subs[id].handed + FinishedDiffs(s.finished, id)
  }

  // ---------- the batches that decide about a key ----------

  ghost predicate Touches(fs: seq<Finished>, id: Id, k: Key, i: nat) {
    i < |fs| && Effect(FinishedDiff(fs[i], id), k).Some?
  }

  /** No batch that touches the key ran on a later version. */
  ghost predicate IsLatest(fs: seq<Finished>, id: Id, k: Key, i: nat) {
    Touches(fs, id, k, i) && forall j: nat :: Touches(fs, id, k, j) ==> fs[j].version <= fs[i].version
  }

  /** The batches of the greatest version that touch the key do the same to it. */
  ghost predicate LatestAgree(fs: seq<Finished>, id: Id, k: Key) {
    forall i: nat, j: nat :: IsLatest(fs, id, k, i) && IsLatest(fs, id, k, j) ==>
      Effect(FinishedDiff(fs[i], id), k) == Effect(FinishedDiff(fs[j], id), k)
  }

  ghost predicate VersionsAscend(fs: seq<Finished>) {
    forall i, j :: 0 <= i < j < |fs| ==> fs[i].version <= fs[j].version
  }

  /** The order of running gives a key the effect of one of its latest batches. */
  lemma {:induction false} LastTouching(fs: seq<Finished>, id: Id, k: Key) returns (i: nat)
    requires VersionsAscend(fs)
    ensures if EffectAll(FinishedDiffs(fs, id), k).None? then forall j: nat :: !Touches(fs, id, k, j)
            else IsLatest(fs, id, k, i) && Effect(FinishedDiff(fs[i], id), k) == EffectAll(FinishedDiffs(fs, id), k)
  {
    hide Effect, FinishedDiff;
    i := 0;
    if fs != [] {
      var n := |fs| - 1;
      assert FinishedDiffs(fs, id)[..n] == FinishedDiffs(fs[..n], id);
      if Touches(fs, id, k, n) {
        i := n;
      } else {
        i := LastTouching(fs[..n], id, k);
        assert forall j: nat :: Touches(fs, id, k, j) ==> Touches(fs[..n], id, k, j);
      }
    }
  }

  // ---------- one callback ----------

  function Back(i: nat, j: nat): nat {
    if j < i then j else j + 1
  }

  lemma WithoutAt(fs: seq<Finished>, i: nat, j: nat)
    requires i < |fs| && j < |fs| - 1
    ensures Without(fs, i)[j] == fs[Back(i, j)]
  {
  }

  lemma WithoutAscends(fs: seq<Finished>, i: nat)
    requires i < |fs| && VersionsAscend(fs)
    ensures VersionsAscend(Without(fs, i))
  {
  }

  ghost predicate Permitted(fs: seq<Finished>, i: nat) {
    i < |fs| && forall j :: 0 <= j < |fs| ==> fs[i].version <= fs[j].version
  }

  /** Without a batch of the least version, what is left is latest exactly as before, as long as anything is left. */
  lemma LatestStays(fs: seq<Finished>, i: nat, id: Id, k: Key, j: nat)
    requires Permitted(fs, i) && IsLatest(Without(fs, i), id, k, j)
    ensures IsLatest(fs, id, k, Back(i, j))
  {
    hide Effect, FinishedDiff;
    var gs := Without(fs, i);
    WithoutAt(fs, i, j);
    forall l: nat | Touches(fs, id, k, l) ensures fs[l].version <= fs[Back(i, j)].version {
      if l != i {
        TouchStays(fs, i, id, k, l);
        WithoutAt(fs, i, if l < i then l else l - 1);
      }
    }
  }

  lemma AgreementStays(fs: seq<Finished>, i: nat, id: Id, k: Key)
    requires Permitted(fs, i) && LatestAgree(fs, id, k)
    ensures LatestAgree(Without(fs, i), id, k)
  {
    hide Effect, FinishedDiff;
    var gs := Without(fs, i);
    forall a: nat, b: nat | IsLatest(gs, id, k, a) && IsLatest(gs, id, k, b)
      ensures Effect(FinishedDiff(gs[a], id), k) == Effect(FinishedDiff(gs[b], id), k)
    {
      LatestStays(fs, i, id, k, a);
      LatestStays(fs, i, id, k, b);
      assert Touches(gs, id, k, a) && Touches(gs, id, k, b);
      WithoutAt(fs, i, a);
      WithoutAt(fs, i, b);
    }
  }

  lemma TouchStays(fs: seq<Finished>, i: nat, id: Id, k: Key, a: nat)
    requires i < |fs| && a != i && Touches(fs, id, k, a)
    ensures Touches(Without(fs, i), id, k, if a < i then a else a - 1)
  {
    WithoutAt(fs, i, if a < i then a else a - 1);
  }

  /** If the latest batches agree, calling a permitted one first changes nothing about the outcome for the key. */
  lemma CallFirst(fs: seq<Finished>, i: nat, id: Id, k: Key)
    requires VersionsAscend(fs) && Permitted(fs, i) && LatestAgree(fs, id, k)
    ensures EffectAll(FinishedDiffs(fs, id), k)
         == OrElse(Effect(FinishedDiff(fs[i], id), k), EffectAll(FinishedDiffs(Without(fs, i), id), k))
  {
    hide Effect, FinishedDiff, EffectAll;
    var gs := Without(fs, i);
    WithoutAscends(fs, i);
    var a := LastTouching(fs, id, k);
    var b := LastTouching(gs, id, k);
    if EffectAll(FinishedDiffs(gs, id), k).Some? {
      LatestStays(fs, i, id, k, b);
      WithoutAt(fs, i, b);
      assert IsLatest(fs, id, k, Back(i, b));
    } else if EffectAll(FinishedDiffs(fs, id), k).Some? {
      if a != i {
        TouchStays(fs, i, id, k, a);
      }
    } else {
      assert !Touches(fs, id, k, i);
    }
  }

  lemma CalledBackWatcher(s: State, i: nat, id: Id, k: Key)
    requires Enabled(s, CallCallbacks(i)) && IsWatched(s, id)
    ensures var s' := Stepped(s, CallCallbacks(i));
      && IsWatched(s', id) && s'.mgr.subs[id].prefix == s.mgr.subs[id].prefix && s'.history == s.history
      && s'.finished == Without(s.finished, i) && Permitted(s.finished, i)
      && EffectAll(s'.mgr.subs[id].handed, k)
         == OrElse(EffectAll(s.mgr.subs[id].handed, k), Effect(FinishedDiff(s.finished[i], id), k))
  {
    hide Effect, EffectAll;
    EffectAppend(s.mgr.subs[id].handed, FinishedDiff(s.finished[i], id), k);
    EmptyDiffEffect(FinishedDiff(s.finished[i], id), k);
  }

  // ---------- every batch of the greatest version can have the last word ----------

  lemma AfterCall(s: State, calls: seq<Step>, i: nat)
    requires After(s, calls).Some? && Enabled(After(s, calls).value, CallCallbacks(i))
    requires forall step :: step in calls ==> step.CallCallbacks?
    ensures After(s, calls + [CallCallbacks(i)]) == Some(Stepped(After(s, calls).value, CallCallbacks(i)))
    ensures forall step :: step in calls + [CallCallbacks(i)] ==> step.CallCallbacks?
  {
    assert (calls + [CallCallbacks(i)])[..|calls|] == calls;
  }

  /** The batches can call back in the order in which they ran. */
  lemma {:induction false} FinishInRunOrder(s: State, calls: seq<Step>, id: Id, k: Key) returns (all: seq<Step>)
    requires (forall step :: step in calls ==> step.CallCallbacks?) && After(s, calls).Some?
    requires var t := After(s, calls).value; |t.history| > 0 && IsWatched(t, id) && VersionsAscend(t.finished)
    ensures CallsAll(s, all)
    ensures var t, t' := After(s, calls).value, After(s, all).value;
      && IsWatched(t', id) && t'.history == t.history
      && t'.mgr.subs[id].prefix == t.mgr.subs[id].prefix
      && EffectAll(t'.mgr.subs[id].handed, k) == EffectAll(InRunOrder(t, id), k)
    decreases |After(s, calls).value.finished|
  {
    hide After, EffectAll, Effect;
    var t := After(s, calls).value;
    EffectConcat(t.mgr.subs[id].handed, FinishedDiffs(t.finished, id), k);
    if t.finished == [] {
      all := calls;
      NoneFinished(t, id);
    } else {
      AfterCall(s, calls, 0);
      CalledBackWatcher(t, 0, id, k);
      WithoutAscends(t.finished, 0);
      InRunOrderTail(t, id, k);
      all := FinishInRunOrder(s, calls + [CallCallbacks(0)], id, k);
    }
  }

  lemma NoneFinished(s: State, id: Id)
    requires s.finished == [] && id in s.mgr.subs && s.mgr.subs[id].Watcher?
    ensures InRunOrder(s, id) == s.mgr.subs[id].handed
  {
  }

  lemma InRunOrderTail(t: State, id: Id, k: Key)
    requires t.finished != [] && |t.history| > 0 && IsWatched(t, id) && Enabled(t, CallCallbacks(0))
    ensures IsWatched(Stepped(t, CallCallbacks(0)), id)
    ensures EffectAll(InRunOrder(Stepped(t, CallCallbacks(0)), id), k) == EffectAll(InRunOrder(t, id), k)
  {
    hide EffectAll, Effect;
    CalledBackWatcher(t, 0, id, k);
    var t' := Stepped(t, CallCallbacks(0));
    var ds := FinishedDiffs(t.finished, id);
    assert ds[1..] == FinishedDiffs(t'.finished, id);
    EffectTail(ds, k);
    EffectConcat(t.mgr.subs[id].handed, ds, k);
    EffectConcat(t'.mgr.subs[id].handed, FinishedDiffs(t'.finished, id), k);
  }

  /** A batch that runs before all others of greater versions is followed by nothing that touches the key. */
  lemma FirstDecides(fs: seq<Finished>, id: Id, k: Key)
    requires fs != [] && VersionsAscend(fs) && IsLatest(fs, id, k, 0)
    requires |fs| > 1 ==> fs[0].version < fs[1].version
    ensures EffectAll(FinishedDiffs(fs, id), k) == Effect(FinishedDiff(fs[0], id), k)
  {
    hide Effect, FinishedDiff, EffectAll;
    var i := LastTouching(fs, id, k);
  }

  lemma {:induction false} HasLastWord(s: State, calls: seq<Step>, id: Id, k: Key, j: nat) returns (all: seq<Step>)
    requires (forall step :: step in calls ==> step.CallCallbacks?) && After(s, calls).Some?
    requires var t := After(s, calls).value;
      |t.history| > 0 && IsWatched(t, id) && VersionsAscend(t.finished) && IsLatest(t.finished, id, k, j)
    ensures CallsAll(s, all)
    ensures var t, t' := After(s, calls).value, After(s, all).value;
      && IsWatched(t', id) && t'.history == t.history && t'.mgr.subs[id].prefix == t.mgr.subs[id].prefix
      && EffectAll(t'.mgr.subs[id].handed, k) == Effect(FinishedDiff(t.finished[j], id), k)
    decreases |After(s, calls).value.finished|
  {
    hide After, EffectAll, Effect, FinishedDiff;
    var t := After(s, calls).value;
    if j == 0 && (|t.finished| == 1 || t.finished[0].version < t.finished[1].version) {
      FirstDecides(t.finished, id, k);
      EffectConcat(t.mgr.subs[id].handed, FinishedDiffs(t.finished, id), k);
      all := FinishInRunOrder(s, calls, id, k);
    } else {
      var i := if j == 0 then 1 else 0;
      AfterCall(s, calls, i);
      CalledBackWatcher(t, i, id, k);
      WithoutAscends(t.finished, i);
      LatestWithout(t.finished, i, id, k, j);
      all := HasLastWord(s, calls + [CallCallbacks(i)], id, k, if j == 0 then 0 else j - 1);
    }
  }

  lemma LatestWithout(fs: seq<Finished>, i: nat, id: Id, k: Key, j: nat)
    requires i < |fs| && i != j && IsLatest(fs, id, k, j)
    ensures var j' := if j < i then j else j - 1;
      IsLatest(Without(fs, i), id, k, j') && Without(fs, i)[j'] == fs[j]
  {
    hide Effect, FinishedDiff;
    var gs, j' := Without(fs, i), if j < i then j else j - 1;
    WithoutAt(fs, i, j');
    forall l: nat | Touches(gs, id, k, l) ensures gs[l].version <= gs[j'].version {
      WithoutAt(fs, i, l);
      assert Touches(fs, id, k, Back(i, l));
    }
  }
}
