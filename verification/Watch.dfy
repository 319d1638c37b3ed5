/** Watchers: callbacks that are handed the changes under a key prefix. */
module Watch {
  import opened Wrappers
  import opened Keys
  import opened Entries
  import opened IndexKeys
  import opened ScanOptions
  import opened Scan
  import opened Diffs
  import B = BinarySearch

  /** The string a watcher compares with its prefix: the key, or the secondary key for an index watcher. */
  function CompareKey(name: Key, k: Key): Key {
    if name == [] then k else if DecodeIndexKey(k).Some? then DecodeIndexKey(k).value.secondary else []
  }

  ghost predicate ValidDiff(name: Key, d: Diff) {
    StrictlySorted(d) && (name != [] ==> forall e :: e in d ==> DecodeIndexKey(e.key).Some?)
  }

  function DiffCompare(name: Key, d: Diff, prefix: Key): nat -> int {
    (i: nat) => if i < |d| then Compare(prefix, CompareKey(name, d[i].key)) else -1
  }

  function DiffBinarySearch(name: Key, d: Diff, prefix: Key): (i: nat)
    ensures i <= |d|
  {
    B.Position(0, |d|, DiffCompare(name, d, prefix))
  }

  /** The end of the run of entries with the prefix that starts at `i`. */
  function RunEnd(name: Key, d: Diff, prefix: Key, i: nat): (end: nat)
    requires i <= |d|
    ensures i <= end <= |d|
    ensures forall j :: i <= j < end ==> StartsWith(CompareKey(name, d[j].key), prefix)
    ensures end < |d| ==> !StartsWith(CompareKey(name, d[end].key), prefix)
    decreases |d| - i
  {
    if i < |d| && StartsWith(CompareKey(name, d[i].key), prefix) then RunEnd(name, d, prefix, i + 1) else i
  }

  /** What a watcher makes of a diff: the run with the prefix, from where the binary search lands. */
  function Filtered(name: Key, d: Diff, prefix: Key): Diff {
    var i := DiffBinarySearch(name, d, prefix);
    d[i..RunEnd(name, d, prefix, i)]
  }

  ghost function HasPrefix(name: Key, prefix: Key): Key -> bool {
    k => StartsWith(CompareKey(name, k), prefix)
  }

  /** What a watcher should be handed: all the entries with the prefix, in order. */
  ghost function Kept(name: Key, d: Diff, prefix: Key): Diff {
    Select(d, |d|, HasPrefix(name, prefix))
  }

  // ---------- the filter is right unless it lands between equal keys ----------

  lemma CompareKeysAscend(name: Key, d: Diff, i: nat, j: nat)
    requires ValidDiff(name, d) && i < j < |d|
    ensures AtMost(CompareKey(name, d[i].key), CompareKey(name, d[j].key))
    ensures name == [] ==> Less(CompareKey(name, d[i].key), CompareKey(name, d[j].key))
  {
    if name != [] {
      assert d[i] in d && d[j] in d;
      var a, b := DecodeIndexKey(d[i].key).value, DecodeIndexKey(d[j].key).value;
      EncodeDecode(a, d[i].key);
      EncodeDecode(b, d[j].key);
      EncodingPreservesOrder(a, b);
    }
  }

  lemma DiffIsOrdered(name: Key, d: Diff, prefix: Key)
    requires ValidDiff(name, d)
    ensures B.Ordered(|d|, DiffCompare(name, d, prefix))
  {
    forall i, j | 0 <= i < j < |d|
      ensures var c := DiffCompare(name, d, prefix); (c(i) <= 0 ==> c(j) <= 0) && (c(i) < 0 ==> c(j) < 0)
    {
      var a, b := CompareKey(name, d[i].key), CompareKey(name, d[j].key);
      CompareKeysAscend(name, d, i, j);
      Trichotomy(prefix, a);
      Trichotomy(prefix, b);
      if Less(prefix, a) { LessAtMost(prefix, a, b); }
    }
  }

  /** The keys with the prefix are consecutive: once one at or above the prefix lacks it, so do all later ones. */
  lemma RunIsAll(name: Key, d: Diff, prefix: Key, i: nat, j: nat)
    requires ValidDiff(name, d) && i < j < |d|
    requires AtMost(prefix, CompareKey(name, d[i].key)) && !StartsWith(CompareKey(name, d[i].key), prefix)
    ensures !StartsWith(CompareKey(name, d[j].key), prefix)
  {
    CompareKeysAscend(name, d, i, j);
    if CompareKey(name, d[i].key) != CompareKey(name, d[j].key) {
      PrefixClassEnds(prefix, CompareKey(name, d[i].key), CompareKey(name, d[j].key));
    }
  }

  lemma {:induction false} SelectSlice<V(!new)>(es: seq<Entry<V>>, n: nat, keep: Key -> bool, a: nat, b: nat)
    requires a <= b <= |es| && n <= |es|
    requires forall i :: 0 <= i < |es| ==> (keep(es[i].key) <==> a <= i < b)
    ensures Select(es, n, keep) == if n <= a then [] else if n <= b then es[a..n] else es[a..b]
  {
    if n > 0 {
      SelectSlice(es, n - 1, keep, a, b);
    }
  }

  lemma BelowPrefixLacksIt(prefix: Key, k: Key)
    requires Compare(prefix, k) > 0
    ensures !StartsWith(k, prefix)
  {
    if StartsWith(k, prefix) { PrefixIsLeast(prefix, k); }
  }

  /** Everything at or after the first key at or above the prefix is kept up to the end of the run. */
  lemma FirstIsExact(name: Key, d: Diff, prefix: Key, i: nat)
    requires ValidDiff(name, d) && B.IsFirstAtLeast(i, |d|, DiffCompare(name, d, prefix))
    ensures d[i..RunEnd(name, d, prefix, i)] == Kept(name, d, prefix)
  {
    hide CompareKey, RunEnd, ValidDiff, Select;
    var end := RunEnd(name, d, prefix, i);
    forall j | 0 <= j < |d| ensures HasPrefix(name, prefix)(d[j].key) <==> i <= j < end {
      if j < i {
        assert DiffCompare(name, d, prefix)(j) > 0;
        BelowPrefixLacksIt(prefix, CompareKey(name, d[j].key));
      } else if end <= j {
        assert DiffCompare(name, d, prefix)(end) <= 0;
        if end < j { RunIsAll(name, d, prefix, end, j); }
      }
    }
    SelectSlice(d, |d|, HasPrefix(name, prefix), i, end);
  }

  /** An entry equal to the prefix before the landing position is lost. */
  lemma LandingLate(name: Key, d: Diff, prefix: Key, i: nat)
    requires ValidDiff(name, d) && 0 < i <= |d| && CompareKey(name, d[i - 1].key) == prefix
    ensures d[i..RunEnd(name, d, prefix, i)] != Kept(name, d, prefix)
  {
    hide CompareKey, RunEnd, Select;
    SelectMembers(d, |d|, HasPrefix(name, prefix));
    assert d[i - 1] in Kept(name, d, prefix);
    var run := d[i..RunEnd(name, d, prefix, i)];
    if d[i - 1] in run {
      var j :| 0 <= j < |run| && run[j] == d[i - 1];
      assert d[i + j] == d[i - 1];
      LessIrreflexive(d[i - 1].key);
    }
  }

  /** For one diff the filter is the whole in-order prefix filter if and only if the binary search does not land right
    * after an entry whose key equals the prefix. */
  lemma FilterExactIff(name: Key, d: Diff, prefix: Key)
    requires ValidDiff(name, d)
    ensures var i := DiffBinarySearch(name, d, prefix);
      Filtered(name, d, prefix) == Kept(name, d, prefix) <==> i == 0 || CompareKey(name, d[i - 1].key) != prefix
  {
    hide CompareKey, RunEnd, Kept, B.Position, B.Ordered, ValidDiff, B.IsFirstAtLeast;
    DiffIsOrdered(name, d, prefix);
    var i := DiffBinarySearch(name, d, prefix);
    B.SearchFinds(|d|, DiffCompare(name, d, prefix));
    B.FirstIff(|d|, DiffCompare(name, d, prefix));
    if i == 0 || CompareKey(name, d[i - 1].key) != prefix {
      FirstIsExact(name, d, prefix, i);
    } else {
      LandingLate(name, d, prefix, i);
    }
  }

  /** Primary keys are distinct, so a plain watcher's filter is always the whole prefix filter. */
  lemma PlainFilterExact(d: Diff, prefix: Key)
    requires StrictlySorted(d)
    ensures Filtered([], d, prefix) == Kept([], d, prefix)
  {
    FilterExactIff([], d, prefix);
    var i := DiffBinarySearch([], d, prefix);
    if 0 < i {
      DiffIsOrdered([], d, prefix);
      B.SearchFinds(|d|, DiffCompare([], d, prefix));
      if i < |d| { CompareKeysAscend([], d, i - 1, i); }
      assert DiffCompare([], d, prefix)(i - 1) == Compare(prefix, d[i - 1].key);
      LessIrreflexive(prefix);
    }
  }

  // ---------- which watchers can rely on the filter ----------

  /** The additions of two entries with the same secondary key to an index. */
  function TwoAdds(secondary: Key): Diff
    requires NUL !in secondary
  {
    [Entry(EncodeIndexKey(IndexKey(secondary, [49])).value, Add(Text(secondary))),
     Entry(EncodeIndexKey(IndexKey(secondary, [50])).value, Add(Text(secondary)))]
  }

  lemma TwoAddsFacts(name: Key, secondary: Key)
    requires name != [] && NUL !in secondary
    ensures ValidDiff(name, TwoAdds(secondary))
    ensures CompareKey(name, TwoAdds(secondary)[0].key) == secondary == CompareKey(name, TwoAdds(secondary)[1].key)
  {
    var a, b, d := IndexKey(secondary, [49]), IndexKey(secondary, [50]), TwoAdds(secondary);
    EncodeDecode(a, d[0].key);
    EncodeDecode(b, d[1].key);
    EncodingPreservesOrder(a, b);
    assert Less([49], [50]);
    assert forall e :: e in d ==> e == d[0] || e == d[1];
  }

  /** An index watcher whose prefix is a whole secondary key loses the first of two entries with that key. */
  lemma IndexFilterLoses(name: Key, prefix: Key)
    requires name != [] && NUL !in prefix
    ensures var d := TwoAdds(prefix);
      ValidDiff(name, d) && Kept(name, d, prefix) == d && Filtered(name, d, prefix) == [d[1]]
  {
    hide CompareKey, ValidDiff;
    var d := TwoAdds(prefix);
    TwoAddsFacts(name, prefix);
    assert B.Position(0, 2, DiffCompare(name, d, prefix)) == 1;
    SelectSlice(d, 2, HasPrefix(name, prefix), 0, 2);
    assert d[0..2] == d && d[1..2] == [d[1]];
    assert RunEnd(name, d, prefix, 1) == 2;
  }

  /** No secondary key of an index contains the separator, so none equals a prefix that does. */
  lemma PrefixWithSeparator(name: Key, d: Diff, prefix: Key)
    requires ValidDiff(name, d) && name != [] && NUL in prefix
    ensures Filtered(name, d, prefix) == Kept(name, d, prefix)
  {
    FilterExactIff(name, d, prefix);
    var i := DiffBinarySearch(name, d, prefix);
    if 0 < i {
      assert d[i - 1] in d;
    }
  }

  /** What a watcher can rely on: the filter is right for every diff if and only if the watcher has no index, or its
    * prefix contains the separator and so can never match. */
  lemma FilterReliableIff(name: Key, prefix: Key)
    ensures (forall d :: ValidDiff(name, d) ==> Filtered(name, d, prefix) == Kept(name, d, prefix))
       <==> name == [] || NUL in prefix
  {
    hide Filtered, Kept, ValidDiff, CompareKey;
    if name == [] || NUL in prefix {
      forall d | ValidDiff(name, d) ensures Filtered(name, d, prefix) == Kept(name, d, prefix) {
        if name == [] { PlainIsSorted(d); PlainFilterExact(d, prefix); } else { PrefixWithSeparator(name, d, prefix); }
      }
    } else {
      IndexFilterLoses(name, prefix);
    }
  }

  lemma PlainIsSorted(d: Diff)
    requires ValidDiff([], d)
    ensures StrictlySorted(d)
  {
  }

  // ---------- matching ----------

  function WatcherMatchesDiff(name: Key, d: Diff, prefix: Key): bool {
    if prefix == [] then true else
      var i := DiffBinarySearch(name, d, prefix);
      i < |d| && StartsWith(CompareKey(name, d[i].key), prefix)
  }

  /** A watcher matches a diff if and only if some changed key has the prefix, and then its filter keeps something; this
    * holds for index watchers too, and for an empty prefix, which every changed key has. */
  lemma MatchesIff(name: Key, d: Diff, prefix: Key)
    requires ValidDiff(name, d) && (prefix != [] || d != [])
    ensures WatcherMatchesDiff(name, d, prefix) <==> Kept(name, d, prefix) != []
    ensures WatcherMatchesDiff(name, d, prefix) <==> Filtered(name, d, prefix) != []
  {
    DiffIsOrdered(name, d, prefix);
    var i, c := DiffBinarySearch(name, d, prefix), DiffCompare(name, d, prefix);
    B.SearchFinds(|d|, c);
    if i < |d| && c(i) == 0 {
      SelectMembers(d, |d|, HasPrefix(name, prefix));
      assert d[i] in Kept(name, d, prefix);
    } else {
      FirstIsExact(name, d, prefix, i);
    }
  }

  /** With an empty prefix a plain watcher keeps everything. */
  lemma EmptyPrefixKeepsAll(d: Diff)
    ensures Kept([], d, []) == d
  {
    SelectSlice(d, |d|, HasPrefix([], []), 0, |d|);
  }

  // ---------- the watcher object ----------

  datatype InvokeKind = InitialRun | Regular(diffs: DiffsMap)

  function DiffFor(diffs: DiffsMap, name: Key): Diff {
    if name in diffs then diffs[name] else []
  }

  function Additions(es: seq<Entry<Json>>): Diff {
    seq(|es|, i requires 0 <= i < |es| => Entry(es[i].key, Add(es[i].value)))
  }

  /** The scan of a watcher's initial run. */
  function WatchScan(name: Key, prefix: Key): Options {
    if name == [] then Plain(Some(prefix), None, None) else Index(name, Some(prefix), None, None)
  }

  /** The result of one invocation, given the entries of the initial scan; `None` means no callback. */
  function WatchResult(name: Key, prefix: Key, initialValues: bool, kind: InvokeKind,
      entries: seq<Entry<Json>>): Option<Diff>
  {
    match kind
    case InitialRun => if initialValues then Some(Filtered(name, Additions(entries), prefix)) else None
    case Regular(diffs) =>
      var kept := Filtered(name, DiffFor(diffs, name), prefix);
      if kept != [] then Some(kept) else None
  }

  /** The regular callbacks of a watcher: it is run for a diff exactly when some changed key has the prefix, and is
    * then handed its filter of the diff, which is not empty.  For a plain watcher that is the whole in-order prefix
    * filter. */
  lemma RegularCallbackExact(name: Key, prefix: Key, initialValues: bool, diffs: DiffsMap, entries: seq<Entry<Json>>)
    requires name in diffs && diffs[name] != [] && ValidDiff(name, diffs[name])
    ensures var d := diffs[name];
      var kept := Kept(name, d, prefix);
      && (WatcherMatchesDiff(name, d, prefix) <==> kept != [])
      && WatchResult(name, prefix, initialValues, Regular(diffs), entries)
         == (if kept != [] then Some(Filtered(name, d, prefix)) else None)
      && (name == [] ==> Filtered(name, d, prefix) == kept)
  {
    MatchesIff(name, diffs[name], prefix);
    hide Kept, Filtered, WatcherMatchesDiff, StrictlySorted;
    if name == [] {
      PlainIsSorted(diffs[name]);
      PlainFilterExact(diffs[name], prefix);
    }
  }

  /** The entries that the scan of a plain watcher's initial run yields. */
  lemma WatchedEntries(m: Db, prefix: Key)
    ensures var es := ScanEntries(m, WatchScan([], prefix));
      StrictlySorted(es) && forall k, v :: Entry(k, v) in es <==> k in m && m[k] == v && StartsWith(k, prefix)
  {
    var es := ScanEntries(m, WatchScan([], prefix));
    assert es == Matching(m, Range(WatchScan([], prefix)));
    forall k, v ensures Entry(k, v) in es <==> k in m && m[k] == v && StartsWith(k, prefix) {
      assert InRange(WatchScan([], prefix), k) <==> StartsWith(k, prefix);
    }
  }

  lemma AdditionsKept(es: seq<Entry<Json>>, prefix: Key)
    requires StrictlySorted(es) && forall i :: 0 <= i < |es| ==> StartsWith(es[i].key, prefix)
    ensures Filtered([], Additions(es), prefix) == Additions(es)
  {
    var d := Additions(es);
    PlainFilterExact(d, prefix);
    hide Filtered;
    SelectSlice(d, |d|, HasPrefix([], prefix), 0, |d|);
  }

  /** The initial callback of a plain watcher with initial values gets every entry under its prefix, in order. */
  lemma InitialCallbackExact(m: Db, prefix: Key)
    ensures var es := ScanEntries(m, WatchScan([], prefix));
      && WatchResult([], prefix, true, InitialRun, es) == Some(Additions(es))
      && forall k, v :: Entry(k, v) in es <==> k in m && m[k] == v && StartsWith(k, prefix)
  {
    hide ScanEntries, Filtered, Additions, StrictlySorted;
    var es := ScanEntries(m, WatchScan([], prefix));
    WatchedEntries(m, prefix);
    forall i | 0 <= i < |es| ensures StartsWith(es[i].key, prefix) {
      assert Entry(es[i].key, es[i].value) in es;
    }
    AdditionsKept(es, prefix);
  }

  class WatchSubscription {
    const prefix: Key
    const name: Key
    const initialValuesInFirstDiff: bool
    var handed: seq<Diff>

    constructor (prefix: Option<Key>, indexName: Option<Key>, initialValuesInFirstDiff: bool)
      ensures this.prefix == OrEmpty(prefix) && name == OrEmpty(indexName) && handed == []
      ensures this.initialValuesInFirstDiff == initialValuesInFirstDiff
    {
      this.prefix, this.name := OrEmpty(prefix), OrEmpty(indexName);
      this.initialValuesInFirstDiff := initialValuesInFirstDiff;
      handed := [];
    }

    /** `entries` is what `tx.scan` yields on an initial run. */
    method Invoke(kind: InvokeKind, entries: seq<Entry<Json>>) returns (result: Option<Diff>)
      ensures result == WatchResult(name, prefix, initialValuesInFirstDiff, kind, entries)
      ensures kind.InitialRun? ==> (result.Some? <==> initialValuesInFirstDiff)
      ensures kind.InitialRun? && result.Some? ==> result.value == Filtered(name, Additions(entries), prefix)
      ensures kind.Regular? ==> (result.Some? <==> Filtered(name, DiffFor(kind.diffs, name), prefix) != [])
      ensures kind.Regular? && result.Some? ==> result.value == Filtered(name, DiffFor(kind.diffs, name), prefix)
    {
      var diff: Diff;
      if kind.InitialRun? {
        if !initialValuesInFirstDiff {
          return None;
        }
        diff := InitialDiff(entries);
      } else {
        diff := DiffFor(kind.diffs, name);
      }
      var newDiff := KeepPrefix(diff);
      return if kind.InitialRun? || |newDiff| > 0 then Some(newDiff) else None;
    }

    method InitialDiff(entries: seq<Entry<Json>>) returns (diff: Diff)
      ensures diff == Additions(entries)
    {
      diff := [];
      for i := 0 to |entries|
        invariant diff == Additions(entries)[..i]
      {
        diff := diff + [Entry(entries[i].key, Add(entries[i].value))];
      }
    }

    method KeepPrefix(diff: Diff) returns (newDiff: Diff)
      ensures newDiff == Filtered(name, diff, prefix)
    {
      hide StartsWith, CompareKey, DiffCompare;
      newDiff := [];
      var first := B.Search(|diff|, DiffCompare(name, diff, prefix));
      var i := first;
      while i < |diff| && StartsWith(CompareKey(name, diff[i].key), prefix)
        invariant first <= i <= |diff| && newDiff == diff[first..i]
        invariant RunEnd(name, diff, prefix, i) == RunEnd(name, diff, prefix, first)
      {
        newDiff := newDiff + [diff[i]];
        i := i + 1;
      }
    }

    method OnData(result: Option<Diff>)
      modifies this
      ensures handed == if result.Some? then old(handed) + [result.value] else old(handed)
    {
      if result.Some? {
        handed := handed + [result.value];
      }
    }
  }

  // ---------- replaying what a watcher is handed ----------

  function NewValue(c: Change): Option<Json> {
    match c
    case Add(v) => Some(v)
    case Replace(_, v) => Some(v)
    case Del(_) => None
  }

  /** A copy kept up to date by applying a diff. */
  function Apply(m: Db, d: Diff): Db
    decreases |d|
  {
    if d == [] then m else
      var before, e := Apply(m, d[..|d| - 1]), d[|d| - 1];
      if NewValue(e.value).Some? then before[e.key := NewValue(e.value).value] else before - {e.key}
  }

  function Replay(handed: seq<Diff>): Db {
    if handed == [] then map[] else Apply(Replay(handed[..|handed| - 1]), handed[|handed| - 1])
  }

  /** What a diff, or a list of diffs, last does to a key: `None` if it does not touch it. */
  function Effect(d: Diff, k: Key): Option<Option<Json>>
    decreases |d|
  {
    if d == [] then None
    else if d[|d| - 1].key == k then Some(NewValue(d[|d| - 1].value))
    else Effect(d[..|d| - 1], k)
  }

  function EffectAll(ds: seq<Diff>, k: Key): Option<Option<Json>> {
    if ds == [] then None
    else
      var last := Effect(ds[|ds| - 1], k);
      if last.Some? then last else EffectAll(ds[..|ds| - 1], k)
  }

  lemma {:induction false} ApplyEffect(m: Db, d: Diff, k: Key)
    ensures Lookup(Apply(m, d), k) == if Effect(d, k).Some? then Effect(d, k).value else Lookup(m, k)
    decreases |d|
  {
    if d != [] {
      ApplyEffect(m, d[..|d| - 1], k);
    }
  }

  /** Replaying gives each key the last value the diffs gave it. */
  lemma {:induction false} ReplayEffect(ds: seq<Diff>, k: Key)
    ensures Lookup(Replay(ds), k) == if EffectAll(ds, k).Some? then EffectAll(ds, k).value else None
  {
    if ds != [] {
      ReplayEffect(ds[..|ds| - 1], k);
      ApplyEffect(Replay(ds[..|ds| - 1]), ds[|ds| - 1], k);
    }
  }

  lemma {:induction false} EffectConcat(a: seq<Diff>, b: seq<Diff>, k: Key)
    ensures EffectAll(a + b, k) == if EffectAll(b, k).Some? then EffectAll(b, k) else EffectAll(a, k)
    decreases |b|
  {
    if b == [] {
      assert a + b == a;
    } else {
      EffectConcat(a, b[..|b| - 1], k);
      assert (a + b)[..|a + b| - 1] == a + b[..|b| - 1];
    }
  }

  /** A sorted diff does to a key what its entry for the key says, at whatever place that is. */
  lemma {:induction false} EffectAt(d: Diff, i: nat)
    requires StrictlySorted(d) && i < |d|
    ensures Effect(d, d[i].key) == Some(NewValue(d[i].value))
    decreases |d|
  {
    if i < |d| - 1 {
      LessAsymmetric(d[i].key, d[|d| - 1].key);
      EffectAt(d[..|d| - 1], i);
    }
  }

  lemma {:induction false} NoEffect(d: Diff, k: Key)
    requires forall i :: 0 <= i < |d| ==> d[i].key != k
    ensures Effect(d, k) == None
    decreases |d|
  {
    if d != [] {
      NoEffect(d[..|d| - 1], k);
    }
  }

  lemma EffectOfSorted(d: Diff, k: Key)
    requires StrictlySorted(d)
    ensures forall e :: e in d && e.key == k ==> Effect(d, k) == Some(NewValue(e.value))
    ensures (forall e :: e in d ==> e.key != k) ==> Effect(d, k) == None
  {
    hide Effect, StrictlySorted;
    forall e | e in d && e.key == k ensures Effect(d, k) == Some(NewValue(e.value)) {
      var i :| 0 <= i < |d| && d[i] == e;
      EffectAt(d, i);
    }
    if forall e :: e in d ==> e.key != k {
      NoEffect(d, k);
    }
  }

  /** The diff between two maps takes each changed key to its new value and touches no other. */
  lemma DiffEffect(before: Db, after: Db, k: Key)
    ensures Effect(DiffOf(before, after), k) == if Changed(before, after, k) then Some(Lookup(after, k)) else None
  {
    EffectOfSorted(DiffOf(before, after), k);
    if Changed(before, after, k) {
      assert Entry(k, ChangeAt(before, after, k)) in DiffOf(before, after);
    }
  }

  lemma KeptMembers(d: Diff, prefix: Key)
    requires StrictlySorted(d)
    ensures StrictlySorted(Kept([], d, prefix))
    ensures forall e :: e in Kept([], d, prefix) <==> e in d && StartsWith(e.key, prefix)
  {
    SelectSorted(d, |d|, HasPrefix([], prefix));
    SelectMembers(d, |d|, HasPrefix([], prefix));
    assert forall e :: e in d <==> exists i :: 0 <= i < |d| && d[i] == e;
  }

  /** A plain watcher's filter keeps what happens to the keys with the prefix. */
  lemma FilteredEffect(d: Diff, prefix: Key, k: Key)
    requires StrictlySorted(d)
    ensures Effect(Filtered([], d, prefix), k) == if StartsWith(k, prefix) then Effect(d, k) else None
  {
    hide Filtered, Kept, Effect;
    PlainFilterExact(d, prefix);
    KeptMembers(d, prefix);
    var kept := Kept([], d, prefix);
    EffectOfSorted(kept, k);
    EffectOfSorted(d, k);
    if e :| e in d && e.key == k {
      assert StartsWith(k, prefix) ==> e in kept;
    }
  }

  lemma AdditionsMembers(es: seq<Entry<Json>>)
    requires StrictlySorted(es)
    ensures StrictlySorted(Additions(es))
    ensures forall e :: e in Additions(es) <==> e.value.Add? && Entry(e.key, e.value.newValue) in es
  {
    var d := Additions(es);
    forall e: Entry<Change> | e.value.Add? && Entry(e.key, e.value.newValue) in es ensures e in d {
      var i :| 0 <= i < |es| && es[i] == Entry(e.key, e.value.newValue);
      assert d[i] == e;
    }
  }

  /** The additions of a whole listing give each listed key its value. */
  lemma AdditionsEffect(m: Db, prefix: Key, k: Key)
    ensures var es := ScanEntries(m, WatchScan([], prefix));
      Effect(Filtered([], Additions(es), prefix), k)
      == if StartsWith(k, prefix) && k in m then Some(Some(m[k])) else None
  {
    hide Effect, Filtered, Additions;
    var es := ScanEntries(m, WatchScan([], prefix));
    var d := Additions(es);
    assert forall e :: e in es <==> e.key in m && m[e.key] == e.value && InRange(WatchScan([], prefix), e.key);
    AdditionsMembers(es);
    FilteredEffect(d, prefix, k);
    EffectOfSorted(d, k);
    if StartsWith(k, prefix) && k in m {
      assert Entry(k, m[k]) in es;
      assert Entry(k, Add(m[k])) in d;
    }
  }
}
