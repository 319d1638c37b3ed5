/** Which changes can influence a recorded scan. */
module ScanMatching {
  import opened Wrappers
  import opened Keys
  import opened Entries
  import opened IndexKeys
  import opened ScanOptions
  import opened Scan
  import opened Diffs

  datatype ScanInfo = ScanInfo(options: DbScanOptions, inclusiveLimitKey: Option<Key>)

  predicate IsKeyPastInclusiveLimit(info: ScanInfo, changedKey: Key) {
    info.options.limit.Some? && info.inclusiveLimitKey.Some? && Less(info.inclusiveLimitKey.value, changedKey)
  }

  predicate PlainInfoMatchesKey(info: ScanInfo, changedKey: Key) {
    var o := info.options;
    if o.limit.Some? && o.limit.value <= 0 then false
    else if !Given(o.prefix) && !Given(o.startKey) then true
    else if Given(o.prefix)
            && (!StartsWith(changedKey, o.prefix.value) || IsKeyPastInclusiveLimit(info, changedKey)) then false
    else if Given(o.startKey)
            && ((o.startExclusive && AtMost(changedKey, o.startKey.value)) || Less(changedKey, o.startKey.value)
                || IsKeyPastInclusiveLimit(info, changedKey)) then false
    else true
  }

  predicate IndexInfoMatchesKey(o: DbScanOptions, changedKey: IndexKey) {
    if Given(o.prefix) && !StartsWith(changedKey.secondary, o.prefix.value) then false
    else if Given(o.startSecondaryKey)
            && ((o.startExclusive && AtMost(changedKey.secondary, o.startSecondaryKey.value))
                || Less(changedKey.secondary, o.startSecondaryKey.value)) then false
    else if Given(o.startKey)
            && ((o.startExclusive && AtMost(changedKey.primary, o.startKey.value))
                || Less(changedKey.primary, o.startKey.value)) then false
    else true
  }

  /** Must a subscription that recorded `info` be re-run because `changedKey` changed in the map named
    * `changeIndexName`? */
  predicate ScanInfoMatchesKey(info: ScanInfo, changeIndexName: Key, changedKey: Key)
    requires changeIndexName != [] ==> DecodeIndexKey(changedKey).Some?
  {
    var o := info.options;
    if changeIndexName != OrEmpty(o.indexName) then false
    else if !Given(o.indexName) then PlainInfoMatchesKey(info, changedKey)
    else if !Given(o.prefix) && !Given(o.startKey) && !Given(o.startSecondaryKey) then true
    else IndexInfoMatchesKey(o, DecodeIndexKey(changedKey).value)
  }

  // ---------- when the matcher is right ----------

  /** No string has the prefix and lies at or after the start. */
  predicate RangeIsEmpty(prefix: Key, start: Key) {
    Less(prefix, start) && !StartsWith(start, prefix)
  }

  /** The scans whose changes the matcher never misses, decided from the options alone.  A plain scan needs a
    * positive limit or none.  An index scan needs a start without a primary part, or one that is empty and either
    * inclusive or unable to cut through a secondary key.  Scans that fail or can never yield anything are always
    * fine. */
  predicate MatcherSupports(options: Options) {
    match options
    case Plain(prefix, start, limit) =>
      || limit.None? || limit.value > 0
      || (start.Some? && RangeIsEmpty(OrEmpty(prefix), start.value.key))
    case Index(name, prefix, start, _) =>
      name == [] || FromKey(options).None? || start.None? ||
        var pair := NormalizeStartKey(start.value.key);
        || pair.primary.None?
        || RangeIsEmpty(OrEmpty(prefix), pair.secondary)
        || (pair.primary.value == []
            && (!start.value.exclusive || pair.secondary == [] || !StartsWith(pair.secondary, OrEmpty(prefix))))
  }

  /** What is recorded for a scan that has run on `s`: the limit key is known once the scan was drained. */
  ghost function RecordedInfo(s: Store, options: Options, drained: bool): ScanInfo {
    ScanInfo(ToDbScanOptions(options), if drained then StreamOf(s, options).limitKey else None)
  }

  /** No change from `before` to `after` in the scanned map matches the recorded scan. */
  ghost predicate Unmatched(before: Store, after: Store, info: ScanInfo) {
    var name := OrEmpty(info.options.indexName);
    forall k :: Changed(MapOf(before, name), MapOf(after, name), k) && (name != [] ==> DecodeIndexKey(k).Some?)
      ==> !ScanInfoMatchesKey(info, name, k)
  }

  // ---------- comparing selections from two maps ----------

  ghost function Both(p: Key -> bool, q: Key -> bool): Key -> bool {
    k => p(k) && q(k)
  }

  ghost function UpTo(limit: Key): Key -> bool {
    k => AtMost(k, limit)
  }

  ghost function Below(limit: Key): Key -> bool {
    k => Less(k, limit)
  }

  ghost predicate DownwardClosed(low: Key -> bool) {
    forall a, b :: Less(a, b) && low(b) ==> low(a)
  }

  lemma BoundsAreDownwardClosed(limit: Key)
    ensures DownwardClosed(UpTo(limit)) && DownwardClosed(Below(limit))
  {
    forall a, b | Less(a, b) && AtMost(b, limit) ensures Less(a, limit) {
      LessAtMost(a, b, limit);
    }
  }

  /** Restricting a sorted selection to low keys keeps a beginning of it. */
  lemma {:induction false} CutSorted<V(!new)>(es: seq<Entry<V>>, low: Key -> bool) returns (c: nat)
    requires StrictlySorted(es) && DownwardClosed(low)
    ensures c <= |es|
    ensures forall i :: 0 <= i < |es| ==> (low(es[i].key) <==> i < c)
  {
    c := |es|;
    while c > 0 && !low(es[c - 1].key)
      invariant c <= |es| && forall i :: c <= i < |es| ==> !low(es[i].key)
    {
      c := c - 1;
    }
  }

  lemma CutMatching<V(!new)>(m: map<Key, V>, keep: Key -> bool, low: Key -> bool) returns (c: nat)
    requires DownwardClosed(low)
    ensures c <= |Matching(m, keep)|
    ensures Matching(m, keep)[..c] == Matching(m, Both(keep, low))
    ensures forall i :: 0 <= i < |Matching(m, keep)| ==> (low(Matching(m, keep)[i].key) <==> i < c)
  {
    var es := Matching(m, keep);
    c := CutSorted(es, low);
    forall e ensures e in es[..c] <==> e in es && low(e.key) {
      if e in es && low(e.key) {
        var i :| 0 <= i < |es| && es[i] == e;
        assert es[..c][i] == e;
      }
    }
    MatchingUnique(es[..c], m, Both(keep, low));
  }

  /** If two maps agree on the selected low keys, their selections have a common beginning, which ends at the same
    * position in both. */
  lemma CommonBeginning<V(!new)>(m: map<Key, V>, m': map<Key, V>, keep: Key -> bool, low: Key -> bool)
    returns (c: nat)
    requires DownwardClosed(low)
    requires forall k :: keep(k) && low(k) ==> Lookup(m, k) == Lookup(m', k)
    ensures c <= |Matching(m, keep)| && c <= |Matching(m', keep)|
    ensures Matching(m, keep)[..c] == Matching(m', keep)[..c]
    ensures forall i :: 0 <= i < |Matching(m, keep)| ==> (low(Matching(m, keep)[i].key) <==> i < c)
    ensures forall i :: 0 <= i < |Matching(m', keep)| ==> (low(Matching(m', keep)[i].key) <==> i < c)
  {
    c := CutMatching(m, keep, low);
    var c' := CutMatching(m', keep, low);
    MatchingAgree(m, m', Both(keep, low));
    assert |Matching(m, keep)[..c]| == c && |Matching(m', keep)[..c']| == c';
  }

  lemma SortedNeighbours(es: seq<Entry<Json>>, n: nat)
    requires StrictlySorted(es) && 0 < n < |es|
    ensures !AtMost(es[n].key, es[n - 1].key)
  {
    Trichotomy(es[n - 1].key, es[n].key);
  }

  /** The keys up to the last of the first `n` selected ones are exactly those of the first `n`. */
  lemma CutIsLimit(es: seq<Entry<Json>>, n: nat, c: nat)
    requires StrictlySorted(es) && 0 < n <= |es| && c <= |es|
    requires forall i :: 0 <= i < |es| ==> (AtMost(es[i].key, es[n - 1].key) <==> i < c)
    ensures c == n
  {
    hide StrictlySorted;
    assert AtMost(es[n - 1].key, es[n - 1].key);
    if n < |es| {
      SortedNeighbours(es, n);
    }
  }

  lemma LimitKeyIs(m: Db, options: Options)
    requires options.Plain? && ScanLimitKey(m, options).Some?
    ensures options.limit.Some? && 0 < options.limit.value <= |Matching(m, Range(options))|
    ensures ScanLimitKey(m, options).value == Matching(m, Range(options))[options.limit.value - 1].key
  {
  }

  /** Selections with the same first `n` entries give the same limited scan. */
  lemma SameBeginning(m: Db, m': Db, options: Options, n: nat)
    requires options.Plain? && options.limit == Some(n) && 0 < n
    requires var a, b := Matching(m, Range(options)), Matching(m', Range(options));
      n <= |a| && n <= |b| && a[..n] == b[..n]
    ensures ScanEntries(m, options) == ScanEntries(m', options)
    ensures ScanLimitKey(m, options) == ScanLimitKey(m', options)
  {
    hide InRange, StrictlySorted;
    var a, b := Matching(m, Range(options)), Matching(m', Range(options));
    assert a[..n][n - 1] == b[..n][n - 1];
  }

  /** Agreement up to the limit key is enough for a limited scan. */
  lemma LimitedAgree(m: Db, m': Db, options: Options)
    requires options.Plain? && ScanLimitKey(m, options).Some?
    requires forall k :: InRange(options, k) && AtMost(k, ScanLimitKey(m, options).value) ==> !Changed(m, m', k)
    ensures ScanEntries(m, options) == ScanEntries(m', options)
    ensures ScanLimitKey(m, options) == ScanLimitKey(m', options)
  {
    LimitKeyIs(m, options);
    hide InRange, ScanEntries, ScanLimitKey, AtMost;
    var n, last := options.limit.value, ScanLimitKey(m, options).value;
    BoundsAreDownwardClosed(last);
    var c := CommonBeginning(m, m', Range(options), UpTo(last));
    CutIsLimit(Matching(m, Range(options)), n, c);
    SameBeginning(m, m', options, n);
  }

  lemma RangeAgree(m: Db, m': Db, options: Options)
    requires forall k :: InRange(options, k) ==> !Changed(m, m', k)
    ensures ScanEntries(m, options) == ScanEntries(m', options)
    ensures ScanLimitKey(m, options) == ScanLimitKey(m', options)
  {
    MatchingAgree(m, m', Range(options));
  }

  // ---------- soundness ----------

  /** For a plain scan with a usable limit and a prefix or start, the matcher accepts exactly the keys in range up
    * to the recorded limit key; without prefix and start it accepts every key. */
  lemma PlainMatches(options: Options, limitKey: Option<Key>, k: Key)
    requires options.Plain? && (options.limit.None? || options.limit.value > 0)
    requires limitKey.Some? ==> options.limit.Some?
    ensures var info := ScanInfo(ToDbScanOptions(options), limitKey);
      if Given(info.options.prefix) || Given(info.options.startKey)
      then ScanInfoMatchesKey(info, [], k)
           <==> InRange(options, k) && !(limitKey.Some? && Less(limitKey.value, k))
      else ScanInfoMatchesKey(info, [], k)
  {
    if options.plainStart.Some? {
      Trichotomy(options.plainStart.value.key, k);
    }
  }

  lemma NothingInEmptyRange(prefix: Key, start: Key, key: Key)
    requires RangeIsEmpty(prefix, start) && StartsWith(key, prefix)
    ensures Less(key, start)
  {
    Trichotomy(key, start);
    if AtMost(start, key) {
      StartBelowPrefix(prefix, start, key);
      LessAsymmetric(prefix, start);
    }
  }

  lemma PlainSound(before: Store, after: Store, options: Options, drained: bool)
    requires options.Plain? && MatcherSupports(options)
    requires Unmatched(before, after, RecordedInfo(before, options, drained))
    ensures StreamOf(before, options) == StreamOf(after, options)
  {
    var m, m' := before.primary, after.primary;
    var info := RecordedInfo(before, options, drained);
    if options.limit.Some? && options.limit.value <= 0 {
      forall k ensures !InRange(options, k) {
        var start := options.plainStart.value.key;
        if StartsWith(k, OrEmpty(options.prefix)) {
          NothingInEmptyRange(OrEmpty(options.prefix), start, k);
          LessAsymmetric(k, start);
        }
      }
      RangeAgree(m, m', options);
    } else {
      forall k | InRange(options, k) && Changed(m, m', k)
        ensures info.inclusiveLimitKey.Some? && Less(info.inclusiveLimitKey.value, k)
      {
        PlainMatches(options, info.inclusiveLimitKey, k);
      }
      if info.inclusiveLimitKey.Some? {
        var last := info.inclusiveLimitKey.value;
        forall k | InRange(options, k) && AtMost(k, last) ensures !Changed(m, m', k) {
          Trichotomy(last, k);
        }
        LimitedAgree(m, m', options);
      } else {
        RangeAgree(m, m', options);
      }
    }
  }

  /** Every key an index scan yields is accepted by the matcher, for the supported start keys. */
  lemma IndexInRangeMatches(options: Options, k: Key)
    requires options.Index? && MatcherSupports(options) && options.indexName != [] && FromKey(options).Some?
    requires InRange(options, k)
    ensures ScanInfoMatchesKey(ScanInfo(ToDbScanOptions(options), None), options.indexName, k)
  {
    var ik := DecodeIndexKey(k).value;
    if options.indexStart.Some? {
      var s, prefix := NormalizeStartKey(options.indexStart.value.key), OrEmpty(options.prefix);
      Trichotomy(s.secondary, ik.secondary);
      PrefixIsLeast(prefix, ik.secondary);
      if RangeIsEmpty(prefix, s.secondary) {
        NothingInEmptyRange(prefix, s.secondary, ik.secondary);
        assert false;
      } else if !StartsWith(s.secondary, prefix) {
        Trichotomy(prefix, s.secondary);
        LessAtMost(s.secondary, prefix, ik.secondary);
      }
    }
  }

  lemma IndexSound(before: Store, after: Store, options: Options, drained: bool)
    requires options.Index? && MatcherSupports(options) && SameIndexes(before, after)
    requires Unmatched(before, after, RecordedInfo(before, options, drained))
    ensures StreamOf(before, options) == StreamOf(after, options)
  {
    if !ScanFails(before, options) {
      var name := options.indexName;
      forall k | InRange(options, k) ensures !Changed(MapOf(before, name), MapOf(after, name), k) {
        IndexInRangeMatches(options, k);
      }
      RangeAgree(MapOf(before, name), MapOf(after, name), options);
    }
  }

  /** Scan soundness: if no changed key matches what was recorded when the scan ran on `before`, the scan yields the
    * same entries and limit key on `after`. */
  lemma ScanSound(before: Store, after: Store, options: Options, drained: bool)
    requires MatcherSupports(options) && SameIndexes(before, after)
    requires Unmatched(before, after, RecordedInfo(before, options, drained))
    ensures StreamOf(before, options) == StreamOf(after, options)
  {
    if options.Plain? {
      PlainSound(before, after, options, drained);
    } else {
      IndexSound(before, after, options, drained);
    }
  }

  // ---------- the supported options are exactly the sound ones ----------

  /** Two stores between which the matcher sees nothing and the scan does. */
  ghost predicate Misses(before: Store, after: Store, options: Options, drained: bool) {
    && SameIndexes(before, after)
    && Unmatched(before, after, RecordedInfo(before, options, drained))
    && StreamOf(before, options).entries != StreamOf(after, options).entries
  }

  /** A string with the prefix that lies after the start: the prefix itself, or the start with a character added. */
  function KeyInRange(prefix: Key, start: Key, character: nat): Key {
    if StartsWith(start, prefix) then start + [character] else prefix
  }

  lemma {:induction false} LessExtended(a: Key, c: nat)
    ensures Less(a, a + [c])
  {
    if a != [] {
      LessExtended(a[1..], c);
      assert (a + [c])[1..] == a[1..] + [c];
    }
  }

  lemma KeyInRangeAfterStart(prefix: Key, start: Key, c: nat)
    requires !RangeIsEmpty(prefix, start)
    ensures StartsWith(KeyInRange(prefix, start, c), prefix) && Less(start, KeyInRange(prefix, start, c))
  {
    LessExtended(start, c);
    Trichotomy(prefix, start);
  }

  lemma SingleEntryScan(options: Options, k: Key, value: Json)
    requires InRange(options, k)
    ensures ScanEntries<Json>(map[], options) != ScanEntries(map[k := value], options)
  {
    assert Entry(k, value) in Matching(map[k := value], Range(options));
    MatchingUnique<Json>([], map[], Range(options));
  }

  lemma PlainUnsound(options: Options, drained: bool) returns (before: Store, after: Store)
    requires options.Plain? && !MatcherSupports(options)
    ensures Misses(before, after, options, drained)
  {
    var prefix := OrEmpty(options.prefix);
    var k := if options.plainStart.Some? then KeyInRange(prefix, options.plainStart.value.key, NUL) else prefix;
    if options.plainStart.Some? {
      KeyInRangeAfterStart(prefix, options.plainStart.value.key, NUL);
    }
    before, after := Store(map[], map[]), Store(map[k := Null], map[]);
    SingleEntryScan(options, k, Null);
  }

  /** The index entry the matcher misses: with a non-empty primary part, one whose secondary key is later and whose
    * primary key is empty; otherwise one with the same secondary key. */
  function MissedIndexKey(prefix: Key, start: StartPair): IndexKey {
    if start.primary == Some([]) then IndexKey(start.secondary, [1])
    else IndexKey(KeyInRange(prefix, start.secondary, 1), [])
  }

  lemma MissedIndexKeyFacts(options: Options)
    requires options.Index? && !MatcherSupports(options)
    ensures var k := MissedIndexKey(OrEmpty(options.prefix), NormalizeStartKey(options.indexStart.value.key));
      && NUL !in k.secondary
      && IndexInRange(options.prefix, options.indexStart, k)
      && !IndexInfoMatchesKey(ToDbScanOptions(options), k)
      && (Given(ToDbScanOptions(options).startKey) || Given(ToDbScanOptions(options).startSecondaryKey))
  {
    var s, prefix := NormalizeStartKey(options.indexStart.value.key), OrEmpty(options.prefix);
    assert NUL !in s.secondary;
    assert NUL !in prefix;
    if s.primary.value != [] {
      KeyInRangeAfterStart(prefix, s.secondary, 1);
    }
  }

  /** The change adds a value that is its own secondary key, as an index of whole values stores it. */
  lemma IndexUnsound(options: Options, drained: bool) returns (before: Store, after: Store)
    requires options.Index? && !MatcherSupports(options)
    ensures Misses(before, after, options, drained)
  {
    var ik := MissedIndexKey(OrEmpty(options.prefix), NormalizeStartKey(options.indexStart.value.key));
    MissedIndexKeyFacts(options);
    var k := EncodeIndexKey(ik).value;
    EncodeDecode(ik, k);
    var value := Text(ik.secondary);
    before := Store(map[], map[options.indexName := map[]]);
    after := Store(map[ik.primary := value], map[options.indexName := map[k := value]]);
    SingleEntryScan(options, k, value);
  }

  /** The matcher never misses a change that matters to a scan if and only if its options are supported. */
  lemma MatcherSoundIff(options: Options)
    ensures MatcherSupports(options)
       <==> forall before, after, drained :: SameIndexes(before, after)
              && Unmatched(before, after, RecordedInfo(before, options, drained))
              ==> StreamOf(before, options) == StreamOf(after, options)
  {
    if MatcherSupports(options) {
      forall before, after, drained | SameIndexes(before, after)
        && Unmatched(before, after, RecordedInfo(before, options, drained))
        ensures StreamOf(before, options) == StreamOf(after, options)
      {
        ScanSound(before, after, options, drained);
      }
    } else {
      var before, after;
      if options.Plain? {
        before, after := PlainUnsound(options, true);
      } else {
        before, after := IndexUnsound(options, true);
      }
      assert Misses(before, after, options, true);
    }
  }

  // ---------- exactness ----------

  /** Where two selections first differ: at the least changed selected key. */
  lemma DifferAt(m: Db, m': Db, keep: Key -> bool, k: Key) returns (c: nat)
    requires keep(k) && Changed(m, m', k)
    requires forall k' :: keep(k') && Less(k', k) ==> !Changed(m, m', k')
    ensures var a, b := Matching(m, keep), Matching(m', keep);
      && c <= |a| && c <= |b| && (c < |a| || c < |b|)
      && (c < |a| && c < |b| ==> a[c] != b[c])
      && forall i :: 0 <= i < c ==> Less(a[i].key, k)
  {
    BoundsAreDownwardClosed(k);
    c := CommonBeginning(m, m', keep, Below(k));
    if k in m { PositionOf(m, keep, k, c); }
    if k in m' { PositionOf(m', keep, k, c); }
  }

  lemma PositionOf(m: Db, keep: Key -> bool, k: Key, c: nat)
    requires k in m && keep(k)
    requires forall i :: 0 <= i < |Matching(m, keep)| ==> (Less(Matching(m, keep)[i].key, k) <==> i < c)
    ensures c < |Matching(m, keep)| && Matching(m, keep)[c] == Entry(k, m[k])
  {
    var es := Matching(m, keep);
    assert Entry(k, m[k]) in es;
    var i :| 0 <= i < |es| && es[i] == Entry(k, m[k]);
    LessIrreflexive(k);
  }

  /** Scan exactness: for a drained plain scan with a prefix or a start and a usable limit, if some changed key
    * matches, the scan really yields something else. */
  lemma ScanExact(before: Store, after: Store, options: Options, k: Key)
    requires options.Plain? && (options.limit.None? || options.limit.value > 0)
    requires Given(options.prefix) || Given(ToDbScanOptions(options).startKey)
    requires Changed(before.primary, after.primary, k)
    requires ScanInfoMatchesKey(RecordedInfo(before, options, true), [], k)
    ensures StreamOf(before, options).entries != StreamOf(after, options).entries
  {
    var m, m' := before.primary, after.primary;
    var info := RecordedInfo(before, options, true);
    var matching := set k' | k' in m.Keys + m'.Keys && Changed(m, m', k') && ScanInfoMatchesKey(info, [], k');
    assert k in matching;
    var least := LeastKey(matching);
    PlainMatches(options, info.inclusiveLimitKey, least);
    forall k' | InRange(options, k') && Less(k', least) ensures !Changed(m, m', k') {
      PlainMatches(options, info.inclusiveLimitKey, k');
      Trichotomy(k', least);
      if info.inclusiveLimitKey.Some? && Less(info.inclusiveLimitKey.value, k') {
        LessTransitive(info.inclusiveLimitKey.value, k', least);
      }
      assert k' !in matching;
    }
    var c := DifferAt(m, m', Range(options), least);
    assert options.limit.Some? ==> c < options.limit.value;
    DifferWithinLimit(Matching(m, Range(options)), Matching(m', Range(options)), options.limit, c);
  }

  lemma DifferWithinLimit(a: seq<Entry<Json>>, b: seq<Entry<Json>>, limit: Option<int>, c: nat)
    requires c <= |a| && c <= |b| && (c < |a| || c < |b|) && (c < |a| && c < |b| ==> a[c] != b[c])
    requires limit.Some? ==> c < limit.value
    ensures Limited(a, limit) != Limited(b, limit)
  {
    var la, lb := Limited(a, limit), Limited(b, limit);
    assert c < |a| ==> c < |la| && la[c] == a[c];
    assert c < |b| ==> c < |lb| && lb[c] == b[c];
  }

  // ---------- the exact scans ----------

  /** The plain scans whose matches always matter, decided from the options alone: those with a prefix or a start, and
    * those without a limit that skip no key.  With a limit of zero or less nothing ever matches. */
  predicate MatcherExact(options: Options)
    requires options.Plain?
  {
    || (options.limit.Some? && options.limit.value <= 0)
    || Given(options.prefix) || Given(ToDbScanOptions(options).startKey)
    || (options.limit.None? && !(options.plainStart.Some? && options.plainStart.value.exclusive))
  }

  lemma EverythingInRange(options: Options, k: Key)
    requires options.Plain? && !Given(options.prefix) && !Given(ToDbScanOptions(options).startKey)
    requires !(options.plainStart.Some? && options.plainStart.value.exclusive)
    ensures InRange(options, k)
  {
    PrefixIsLeast([], k);
  }

  lemma SelectionsDiffer(m: Db, m': Db, keep: Key -> bool, k: Key)
    requires keep(k) && Changed(m, m', k)
    ensures Matching(m, keep) != Matching(m', keep)
  {
    if k in m {
      assert Entry(k, m[k]) in Matching(m, keep);
    } else {
      assert Entry(k, m'[k]) in Matching(m', keep);
    }
  }

  lemma WholeScanExact(before: Store, after: Store, options: Options, k: Key)
    requires options.Plain? && options.limit.None? && MatcherExact(options)
    requires !Given(options.prefix) && !Given(ToDbScanOptions(options).startKey)
    requires Changed(before.primary, after.primary, k)
    ensures StreamOf(before, options).entries != StreamOf(after, options).entries
  {
    EverythingInRange(options, k);
    hide InRange, ToDbScanOptions, StrictlySorted, Changed;
    SelectionsDiffer(before.primary, after.primary, Range(options), k);
  }

  function ZeroKey(n: nat): Key {
    seq(n, _ => 0)
  }

  /** A map of the keys of one to `n` zeros. */
  function ZeroKeys(n: nat): Db {
    if n == 0 then map[] else ZeroKeys(n - 1)[ZeroKey(n) := Null]
  }

  lemma {:induction false} ZeroKeysFacts(n: nat)
    ensures |ZeroKeys(n)| == n
    ensures forall k :: k in ZeroKeys(n) ==> 0 < |k| <= n && Less(k, [1])
  {
    if n > 0 {
      ZeroKeysFacts(n - 1);
      assert ZeroKey(n)[0] == 0;
      assert ZeroKey(n) !in ZeroKeys(n - 1);
    }
  }

  /** A listing has as many entries as the map has keys. */
  lemma {:induction false} ListsAll(es: seq<Entry<Json>>, m: Db)
    requires Lists(es, m)
    ensures |es| == |m|
    decreases |es|
  {
    assert forall k :: k in m ==> Entry(k, m[k]) in es;
    if es == [] {
      assert m.Keys == {};
    } else {
      var rest := m - {es[0].key};
      assert es[0] in es;
      forall e | e in es[1..] ensures e.key in rest && rest[e.key] == e.value { TailMembers(es, e); }
      forall k | k in rest ensures Entry(k, rest[k]) in es[1..] { TailMembers(es, Entry(k, rest[k])); }
      ListsAll(es[1..], rest);
      assert m.Keys == rest.Keys + {es[0].key};
    }
  }

  /** A scan that lists a map of as many keys as its limit ends at one of them. */
  lemma LastOfFullScan(m: Db, options: Options)
    requires options.Plain? && options.limit.Some? && 0 < options.limit.value == |m|
    requires forall k :: InRange(options, k)
    ensures ScanLimitKey(m, options).Some? && ScanLimitKey(m, options).value in m
  {
    hide InRange, StrictlySorted;
    var all := Matching(m, Range(options));
    assert forall k :: k in m ==> Entry(k, m[k]) in all;
    ListsAll(all, m);
    assert all[|m| - 1] in all;
  }

  lemma AddedLater(m: Db, last: Key, k: Key)
    requires Less(last, k)
    ensures forall k' :: AtMost(k', last) ==> !Changed(m, m[k := Null], k')
  {
    LessAsymmetric(last, k);
  }

  /** A limited scan of everything is full before the key that changes. */
  lemma LimitedScanInexact(options: Options) returns (before: Store, after: Store)
    requires options.Plain? && options.limit.Some? && options.limit.value > 0
    requires !Given(options.prefix) && !Given(ToDbScanOptions(options).startKey)
    requires !(options.plainStart.Some? && options.plainStart.value.exclusive)
    ensures Changed(before.primary, after.primary, [1])
    ensures StreamOf(before, options).entries == StreamOf(after, options).entries
  {
    var m := ZeroKeys(options.limit.value);
    ZeroKeysFacts(options.limit.value);
    before, after := Store(m, map[]), Store(m[[1] := Null], map[]);
    forall k ensures InRange(options, k) { EverythingInRange(options, k); }
    LessIrreflexive([1]);
    hide InRange, ToDbScanOptions, ZeroKeys, ScanEntries, ScanLimitKey, Less, AtMost;
    LastOfFullScan(m, options);
    AddedLater(m, ScanLimitKey(m, options).value, [1]);
    LimitedAgree(m, after.primary, options);
  }

  /** The matches of a drained plain scan always matter if and only if its options are exact. */
  lemma MatcherExactIff(options: Options)
    requires options.Plain?
    ensures MatcherExact(options)
       <==> forall before: Store, after: Store, k: Key :: Changed(before.primary, after.primary, k)
              && ScanInfoMatchesKey(RecordedInfo(before, options, true), [], k)
              ==> StreamOf(before, options).entries != StreamOf(after, options).entries
  {
    hide StreamOf, RecordedInfo, ScanInfoMatchesKey;
    if MatcherExact(options) {
      forall before: Store, after: Store, k: Key | Changed(before.primary, after.primary, k)
        && ScanInfoMatchesKey(RecordedInfo(before, options, true), [], k)
        ensures StreamOf(before, options).entries != StreamOf(after, options).entries
      {
        if options.limit.Some? && options.limit.value <= 0 {
          UselessLimitMatchesNothing(before, options, k);
        } else if Given(options.prefix) || Given(ToDbScanOptions(options).startKey) {
          ScanExact(before, after, options, k);
        } else {
          WholeScanExact(before, after, options, k);
        }
      }
    } else {
      var before: Store, after: Store, k: Key;
      if options.plainStart.Some? && options.plainStart.value.exclusive {
        before, after, k := Store(map[], map[]), Store(map[[] := Null], map[]), [];
        SkippedKeyUnseen(options);
      } else {
        k := [1];
        before, after := LimitedScanInexact(options);
      }
      EverythingMatches(before, options, k);
      assert Changed(before.primary, after.primary, k)
        && StreamOf(before, options).entries == StreamOf(after, options).entries;
    }
  }

  lemma UselessLimitMatchesNothing(s: Store, options: Options, k: Key)
    requires options.Plain? && options.limit.Some? && options.limit.value <= 0
    ensures !ScanInfoMatchesKey(RecordedInfo(s, options, true), [], k)
  {
  }

  lemma EverythingMatches(s: Store, options: Options, k: Key)
    requires options.Plain? && (options.limit.None? || options.limit.value > 0)
    requires !Given(options.prefix) && !Given(ToDbScanOptions(options).startKey)
    ensures ScanInfoMatchesKey(RecordedInfo(s, options, true), [], k)
  {
  }

  lemma SkippedKeyUnseen(options: Options)
    requires options.Plain? && options.plainStart.Some? && options.plainStart.value == PlainStart([], true)
    ensures StreamOf(Store(map[], map[]), options).entries == StreamOf(Store(map[[] := Null], map[]), options).entries
  {
    RangeAgree(map[], map[[] := Null], options);
  }
}
