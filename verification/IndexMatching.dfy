/** How exact the matcher is for index scans: what it accepts besides the keys that a scan yields. */
module IndexMatching {
  import opened Wrappers
  import opened Keys
  import opened Entries
  import opened IndexKeys
  import opened ScanOptions
  import opened Scan
  import opened Diffs
  import opened ScanMatching

  /** The scan starts after an empty secondary key: it skips keys there, and the matcher takes this for no start. */
  predicate StartsAfterEmpty(options: Options) {
    && options.Index? && options.indexStart.Some? && options.indexStart.value.exclusive && OrEmpty(options.prefix) == []
    && var pair := NormalizeStartKey(options.indexStart.value.key);
       pair.secondary == [] && OrEmpty(pair.primary) == []
  }

  /** The keys that such a scan skips. */
  predicate SkippedAtEmpty(options: Options, k: IndexKey) {
    && StartsAfterEmpty(options) && k.secondary == []
    && (NormalizeStartKey(options.indexStart.value.key).primary.Some? ==> k.primary == [])
  }

  /** What the matcher accepts for an index scan, supported or not, lies in its range, except for the skipped keys. */
  lemma MatchedIndexKeyInRange(options: Options, limitKey: Option<Key>, k: Key)
    requires options.Index? && options.indexName != [] && DecodeIndexKey(k).Some?
    requires ScanInfoMatchesKey(ScanInfo(ToDbScanOptions(options), limitKey), options.indexName, k)
    ensures InRange(options, k) || SkippedAtEmpty(options, DecodeIndexKey(k).value)
  {
    var ik := DecodeIndexKey(k).value;
    PrefixIsLeast([], ik.secondary);
    PrefixIsLeast([], ik.primary);
    if options.indexStart.Some? {
      var pair := NormalizeStartKey(options.indexStart.value.key);
      Trichotomy(pair.secondary, ik.secondary);
      Trichotomy(OrEmpty(pair.primary), ik.primary);
    }
  }

  /** For supported options the matcher accepts exactly the keys in range and those skipped at an empty start. */
  lemma IndexMatches(options: Options, limitKey: Option<Key>, k: Key)
    requires options.Index? && options.indexName != [] && DecodeIndexKey(k).Some?
    requires MatcherSupports(options) && FromKey(options).Some?
    ensures ScanInfoMatchesKey(ScanInfo(ToDbScanOptions(options), limitKey), options.indexName, k)
       <==> InRange(options, k) || SkippedAtEmpty(options, DecodeIndexKey(k).value)
  {
    if ScanInfoMatchesKey(ScanInfo(ToDbScanOptions(options), limitKey), options.indexName, k) {
      MatchedIndexKeyInRange(options, limitKey, k);
    } else if InRange(options, k) {
      IndexInRangeMatches(options, k);
    }
  }

  lemma SkippedIsOutOfRange(options: Options, k: Key)
    requires DecodeIndexKey(k).Some? && SkippedAtEmpty(options, DecodeIndexKey(k).value)
    ensures !InRange(options, k)
  {
  }

  /** Every match of the scan means that its entries differ. */
  ghost predicate MatchesMatter(options: Options)
    requires options.Index?
  {
    forall before, after, k ::
      SameIndexes(before, after) && options.indexName in before.indexes && DecodeIndexKey(k).Some?
      && Changed(MapOf(before, options.indexName), MapOf(after, options.indexName), k)
      && ScanInfoMatchesKey(RecordedInfo(before, options, true), options.indexName, k)
      ==> StreamOf(before, options).entries != StreamOf(after, options).entries
  }

  lemma IndexScanExact(before: Store, after: Store, options: Options, k: Key)
    requires options.Index? && options.indexName != [] && FromKey(options).Some? && !StartsAfterEmpty(options)
    requires options.limit.None? || options.limit.value <= 0
    requires SameIndexes(before, after) && options.indexName in before.indexes && DecodeIndexKey(k).Some?
    requires Changed(MapOf(before, options.indexName), MapOf(after, options.indexName), k)
    requires ScanInfoMatchesKey(RecordedInfo(before, options, true), options.indexName, k)
    ensures StreamOf(before, options).entries != StreamOf(after, options).entries
  {
    MatchedIndexKeyInRange(options, RecordedInfo(before, options, true).inclusiveLimitKey, k);
    hide InRange, ScanInfoMatchesKey, Matching, ToDbScanOptions;
    SelectionsDiffer(MapOf(before, options.indexName), MapOf(after, options.indexName), Range(options), k);
  }

  /** An entry with empty keys appears, matches, and is skipped. */
  lemma EmptyKeysUnseen(options: Options) returns (before: Store, after: Store, k: Key)
    requires options.Index? && options.indexName != [] && FromKey(options).Some? && StartsAfterEmpty(options)
    ensures SameIndexes(before, after) && options.indexName in before.indexes && DecodeIndexKey(k).Some?
    ensures Changed(MapOf(before, options.indexName), MapOf(after, options.indexName), k)
    ensures ScanInfoMatchesKey(RecordedInfo(before, options, true), options.indexName, k)
    ensures StreamOf(before, options).entries == StreamOf(after, options).entries
  {
    var ik := IndexKey([], []);
    k := EncodeIndexKey(ik).value;
    EncodeDecode(ik, k);
    before := Store(map[], map[options.indexName := map[]]);
    after := Store(map[[] := Null], map[options.indexName := map[k := Null]]);
    SkippedIsOutOfRange(options, k);
    RangeAgree(map[], map[k := Null], options);
  }

  // ---------- a limited scan is full before a later key ----------

  /** The `i`-th of a row of primary keys, and of index keys in range of the scan. */
  function RowPrimary(options: Options, i: nat): Key
    requires options.Index?
  {
    (if options.indexStart.Some? then OrEmpty(NormalizeStartKey(options.indexStart.value.key).primary) else [])
    + seq(i + 1, _ => 1)
  }

  function RowSecondary(options: Options): Key
    requires options.Index?
  {
    if options.indexStart.Some?
    then KeyInRange(OrEmpty(options.prefix), NormalizeStartKey(options.indexStart.value.key).secondary, 1)
    else OrEmpty(options.prefix)
  }

  function RowKey(options: Options, i: nat): Key
    requires options.Index?
  {
    [NUL] + RowSecondary(options) + [NUL] + RowPrimary(options, i)
  }

  function PrimaryRow(options: Options, n: nat): Db
    requires options.Index?
  {
    if n == 0 then map[] else PrimaryRow(options, n - 1)[RowPrimary(options, n - 1) := Null]
  }

  function IndexRow(options: Options, n: nat): Db
    requires options.Index?
  {
    if n == 0 then map[] else IndexRow(options, n - 1)[RowKey(options, n - 1) := Null]
  }

  function RowEntries(options: Options, n: nat): seq<Entry<Json>>
    requires options.Index?
  {
    seq(n, i requires 0 <= i < n => Entry(RowKey(options, i), Null))
  }

  predicate RangeOpen(options: Options) {
    && options.Index? && options.indexName != [] && FromKey(options).Some?
    && (options.indexStart.Some? ==>
          !RangeIsEmpty(OrEmpty(options.prefix), NormalizeStartKey(options.indexStart.value.key).secondary))
  }

  lemma {:induction false} RowMembers(options: Options, n: nat)
    requires options.Index?
    ensures forall k :: k in IndexRow(options, n) <==> exists i :: 0 <= i < n && k == RowKey(options, i)
    ensures forall k :: k in IndexRow(options, n) ==> IndexRow(options, n)[k] == Null
    ensures forall i :: 0 <= i < n ==>
      RowPrimary(options, i) in PrimaryRow(options, n) && PrimaryRow(options, n)[RowPrimary(options, i)] == Null
  {
    hide RowKey, RowPrimary;
    if n > 0 { RowMembers(options, n - 1); }
  }

  lemma RowAscends(options: Options, i: nat, j: nat)
    requires options.Index? && i < j
    ensures Less(RowKey(options, i), RowKey(options, j))
  {
    var a, b := RowKey(options, i), RowKey(options, j);
    assert |a| < |b| && b[..|a|] == a;
    PrefixIsLeast(a, b);
  }

  /** Every key of the row decodes, is in range, and matches. */
  lemma RowKeyInRange(options: Options, i: nat, limitKey: Option<Key>)
    requires RangeOpen(options)
    ensures DecodeIndexKey(RowKey(options, i)) == Some(IndexKey(RowSecondary(options), RowPrimary(options, i)))
    ensures InRange(options, RowKey(options, i))
    ensures ScanInfoMatchesKey(ScanInfo(ToDbScanOptions(options), limitKey), options.indexName, RowKey(options, i))
  {
    var ik, prefix := IndexKey(RowSecondary(options), RowPrimary(options, i)), OrEmpty(options.prefix);
    assert NUL !in prefix;
    if options.indexStart.Some? {
      var pair := NormalizeStartKey(options.indexStart.value.key);
      assert NUL !in pair.secondary;
      KeyInRangeAfterStart(prefix, pair.secondary, 1);
      LessAsymmetric(pair.secondary, ik.secondary);
      var q := OrEmpty(pair.primary);
      assert ik.primary[..|q|] == q && ik.primary != q;
      PrefixIsLeast(q, ik.primary);
      LessAsymmetric(q, ik.primary);
    }
    EncodeDecode(ik, RowKey(options, i));
  }

  lemma RowListed(options: Options, n: nat)
    requires RangeOpen(options)
    ensures Matching(IndexRow(options, n), Range(options)) == RowEntries(options, n)
  {
    var es, m := RowEntries(options, n), IndexRow(options, n);
    RowMembers(options, n);
    forall i, j | 0 <= i < j < n ensures Less(es[i].key, es[j].key) { RowAscends(options, i, j); }
    forall i: nat ensures InRange(options, RowKey(options, i)) { RowKeyInRange(options, i, None); }
    hide RowKey, InRange;
    forall e ensures e in es <==> e.key in m && m[e.key] == e.value && Range(options)(e.key) {
      if e.key in m && m[e.key] == e.value {
        var i :| 0 <= i < n && e.key == RowKey(options, i);
        assert es[i] == e;
      }
    }
    MatchingUnique(es, m, Range(options));
  }

  lemma RowIsValid(options: Options, n: nat)
    requires RangeOpen(options)
    ensures ValidStore(Store(PrimaryRow(options, n), map[options.indexName := IndexRow(options, n)]))
  {
    RowMembers(options, n);
    var s := Store(PrimaryRow(options, n), map[options.indexName := IndexRow(options, n)]);
    forall name, k | name in s.indexes && k in s.indexes[name] ensures IndexEntryOk(s.primary, k, s.indexes[name][k]) {
      var i :| 0 <= i < n && k == RowKey(options, i);
      RowKeyInRange(options, i, None);
    }
  }

  /** One key more than the limit changes nothing. */
  lemma RowsScannedAlike(options: Options, n: nat)
    requires RangeOpen(options) && options.limit == Some(n) && n > 0
    ensures ScanEntries(IndexRow(options, n), options) == ScanEntries(IndexRow(options, n + 1), options)
  {
    RowListed(options, n);
    RowListed(options, n + 1);
    hide RowKey, InRange, IndexRow, RangeOpen;
    assert RowEntries(options, n + 1)[..n] == RowEntries(options, n);
  }

  lemma LaterKeyUnseen(options: Options) returns (before: Store, after: Store, k: Key)
    requires RangeOpen(options) && options.limit.Some? && options.limit.value > 0
    ensures SameIndexes(before, after) && options.indexName in before.indexes && DecodeIndexKey(k).Some?
    ensures Changed(MapOf(before, options.indexName), MapOf(after, options.indexName), k)
    ensures ScanInfoMatchesKey(RecordedInfo(before, options, true), options.indexName, k)
    ensures StreamOf(before, options).entries == StreamOf(after, options).entries
  {
    var n := options.limit.value;
    k := RowKey(options, n);
    before := Store(PrimaryRow(options, n), map[options.indexName := IndexRow(options, n)]);
    after := Store(PrimaryRow(options, n + 1), map[options.indexName := IndexRow(options, n + 1)]);
    RowIsValid(options, n);
    RowIsValid(options, n + 1);
    RowMembers(options, n);
    RowsScannedAlike(options, n);
    RowKeyInRange(options, n, RecordedInfo(before, options, true).inclusiveLimitKey);
    forall i | 0 <= i < n ensures RowKey(options, i) != k {
      RowAscends(options, i, n);
      LessIrreflexive(k);
    }
    hide RowKey, InRange, IndexRow, PrimaryRow, ScanInfoMatchesKey, ToDbScanOptions, ValidStore, ScanEntries, RangeOpen;
  }

  /** No key is out of range and matched, and the limit, if there is a usable one, cuts nothing off. */
  predicate IndexMatcherExact(options: Options)
    requires options.Index?
  {
    && !StartsAfterEmpty(options)
    && (options.limit.None? || options.limit.value <= 0 || !RangeOpen(options))
  }

  lemma NothingMatchesEmptyRange(options: Options, limitKey: Option<Key>, k: Key)
    requires options.Index? && options.indexName != [] && FromKey(options).Some? && !RangeOpen(options)
    requires DecodeIndexKey(k).Some?
    ensures !ScanInfoMatchesKey(ScanInfo(ToDbScanOptions(options), limitKey), options.indexName, k)
  {
    if ScanInfoMatchesKey(ScanInfo(ToDbScanOptions(options), limitKey), options.indexName, k) {
      MatchedIndexKeyInRange(options, limitKey, k);
      var pair, ik := NormalizeStartKey(options.indexStart.value.key), DecodeIndexKey(k).value;
      NothingInEmptyRange(OrEmpty(options.prefix), pair.secondary, ik.secondary);
    }
  }

  /** The matches of an index scan always matter if and only if its options are exact. */
  lemma IndexMatcherExactIff(options: Options)
    requires options.Index? && options.indexName != [] && FromKey(options).Some?
    ensures MatchesMatter(options) <==> IndexMatcherExact(options)
  {
    hide StreamOf, ScanInfoMatchesKey, SameIndexes, MapOf, RangeOpen, ToDbScanOptions;
    if StartsAfterEmpty(options) {
      var before, after, k := EmptyKeysUnseen(options);
    } else if options.limit.None? || options.limit.value <= 0 || !RangeOpen(options) {
      forall before, after, k |
        SameIndexes(before, after) && options.indexName in before.indexes && DecodeIndexKey(k).Some?
        && Changed(MapOf(before, options.indexName), MapOf(after, options.indexName), k)
        && ScanInfoMatchesKey(RecordedInfo(before, options, true), options.indexName, k)
        ensures StreamOf(before, options).entries != StreamOf(after, options).entries
      {
        if RangeOpen(options) {
          IndexScanExact(before, after, options, k);
        } else {
          NothingMatchesEmptyRange(options, RecordedInfo(before, options, true).inclusiveLimitKey, k);
        }
      }
    } else {
      var before, after, k := LaterKeyUnseen(options);
    }
  }
}
