/** The options of a scan, the form in which subscriptions record them, and the key a scan starts reading from. */
module ScanOptions {
  import opened Wrappers
  import opened Keys
  import opened IndexKeys

  datatype PlainStart = PlainStart(key: Key, exclusive: bool)

  datatype IndexStartKey = SecondaryOnly(key: Key) | SecondaryAndPrimary(secondary: Key, primary: Option<Key>)

  datatype IndexStart = IndexStart(key: IndexStartKey, exclusive: bool)

  /** `Plain` scans the primary key space, `Index` a named secondary index. */
  datatype Options =
    | Plain(prefix: Option<Key>, plainStart: Option<PlainStart>, limit: Option<int>)
    | Index(indexName: Key, prefix: Option<Key>, indexStart: Option<IndexStart>, limit: Option<int>)

  datatype DbScanOptions = DbScanOptions(
    prefix: Option<Key>, startSecondaryKey: Option<Key>, startKey: Option<Key>, startExclusive: bool,
    limit: Option<int>, indexName: Option<Key>)

  function OrEmpty(k: Option<Key>): Key {
    if k.Some? then k.value else []
  }

  /** An optional string that JavaScript treats as true: present and not empty. */
  predicate Given(k: Option<Key>) {
    k.Some? && k.value != []
  }

  datatype StartPair = StartPair(secondary: Key, primary: Option<Key>)

  function NormalizeStartKey(key: IndexStartKey): StartPair {
    match key
    case SecondaryOnly(k) => StartPair(k, None)
    case SecondaryAndPrimary(s, p) => StartPair(s, p)
  }

  /** The options as a subscription records them.  An index scan with an empty index name always fails, so what is
    * recorded for its start key has no influence; a two-part key is dropped there. */
  function ToDbScanOptions(options: Options): DbScanOptions {
    match options
    case Plain(prefix, start, limit) =>
      DbScanOptions(prefix, None, if start.Some? then Some(start.value.key) else None,
                    start.Some? && start.value.exclusive, limit, None)
    case Index(name, prefix, start, limit) =>
      var pair := if start.Some? then NormalizeStartKey(start.value.key) else StartPair([], None);
      var exclusive := start.Some? && start.value.exclusive;
      if start.None? then DbScanOptions(prefix, None, None, exclusive, limit, Some(name))
      else if name != [] then DbScanOptions(prefix, Some(pair.secondary), pair.primary, exclusive, limit, Some(name))
      else DbScanOptions(prefix, None, if start.value.key.SecondaryOnly? then Some(pair.secondary) else None,
                         exclusive, limit, Some(name))
  }

  // ---------- where a scan starts reading ----------

  function FromKeyForNonIndexScan(prefix: Option<Key>, start: Option<PlainStart>): Key {
    if start.Some? && Less(OrEmpty(prefix), start.value.key) then start.value.key else OrEmpty(prefix)
  }

  /** `None` models the exception for a prefix or start that contains the separator. */
  function FromKeyForIndexScanInternal(prefix: Option<Key>, start: Option<IndexStart>): Option<Key> {
    var prefix2 := if prefix.Some? then EncodeIndexScanKey(prefix.value, None) else Some([]);
    if prefix2.None? || start.None? then prefix2 else
      var pair := NormalizeStartKey(start.value.key);
      var startKey := EncodeIndexScanKey(pair.secondary, pair.primary);
      if startKey.None? then None
      else if Less(prefix2.value, startKey.value) then startKey else prefix2
  }

  /** The unencoded form handed to custom backends. */
  function FromKeyForIndexScan(prefix: Option<Key>, start: Option<IndexStart>): StartPair {
    var prefixNormalized := StartPair(OrEmpty(prefix), None);
    if start.None? then prefixNormalized else
      var pair := NormalizeStartKey(start.value.key);
      if Less(prefixNormalized.secondary, pair.secondary) then pair
      else if pair.secondary == prefixNormalized.secondary && pair.primary.Some? then pair
      else prefixNormalized
  }

  /** A key of an index lies at or after a start pair. */
  ghost predicate AtOrAfter(k: IndexKey, from: StartPair) {
    if from.primary.None? then AtMost(from.secondary, k.secondary)
    else IndexLess(IndexKey(from.secondary, from.primary.value), k) || k == IndexKey(from.secondary, from.primary.value)
  }

  lemma ScanKeyAtOrAfter(from: StartPair, k: IndexKey)
    requires NUL !in from.secondary && NUL !in k.secondary
    ensures AtMost(EncodeIndexScanKey(from.secondary, from.primary).value, EncodeIndexKey(k).value)
       <==> AtOrAfter(k, from)
  {
    if from.primary.None? {
      ScanKeyOrder(from.secondary, k);
    } else {
      EncodingPreservesOrder(IndexKey(from.secondary, from.primary.value), k);
    }
  }

  /** Of two start pairs, the one with the greater encoding reads the entries that both read. */
  lemma LaterScanKey(a: StartPair, b: StartPair, k: IndexKey)
    requires NUL !in a.secondary && NUL !in b.secondary && NUL !in k.secondary
    requires AtMost(EncodeIndexScanKey(a.secondary, a.primary).value, EncodeIndexScanKey(b.secondary, b.primary).value)
    requires AtOrAfter(k, b)
    ensures AtOrAfter(k, a)
  {
    ScanKeyAtOrAfter(a, k);
    ScanKeyAtOrAfter(b, k);
    var ea, eb := EncodeIndexScanKey(a.secondary, a.primary).value, EncodeIndexScanKey(b.secondary, b.primary).value;
    if ea != eb && eb != EncodeIndexKey(k).value {
      LessTransitive(ea, eb, EncodeIndexKey(k).value);
    }
  }

  /** An index scan reads from its prefix or its start, whichever is later. */
  lemma IndexScanReadsBoth(prefix: Option<Key>, start: Option<IndexStart>, k: IndexKey)
    requires FromKeyForIndexScanInternal(prefix, start).Some? && NUL !in k.secondary
    ensures AtMost(FromKeyForIndexScanInternal(prefix, start).value, EncodeIndexKey(k).value)
       <==> AtMost(OrEmpty(prefix), k.secondary)
            && (start.Some? ==> AtOrAfter(k, NormalizeStartKey(start.value.key)))
  {
    var p := StartPair(OrEmpty(prefix), None);
    ScanKeyAtOrAfter(p, k);
    if start.Some? {
      var s := NormalizeStartKey(start.value.key);
      ScanKeyAtOrAfter(s, k);
      Trichotomy(EncodeIndexScanKey(p.secondary, None).value, EncodeIndexScanKey(s.secondary, s.primary).value);
      if AtOrAfter(k, s) && prefix.Some?
        && Less(EncodeIndexScanKey(p.secondary, None).value, EncodeIndexScanKey(s.secondary, s.primary).value) {
        LaterScanKey(p, s, k);
      }
      if AtOrAfter(k, p) && prefix.Some?
        && AtMost(EncodeIndexScanKey(s.secondary, s.primary).value, EncodeIndexScanKey(p.secondary, None).value) {
        LaterScanKey(s, p, k);
      }
    }
  }

  /** The encoded start key and the pair given to custom backends start at the same entry of every index. */
  lemma FromKeysAgree(prefix: Option<Key>, start: Option<IndexStart>, k: IndexKey)
    requires FromKeyForIndexScanInternal(prefix, start).Some? && NUL !in k.secondary
    ensures AtMost(FromKeyForIndexScanInternal(prefix, start).value, EncodeIndexKey(k).value)
       <==> AtOrAfter(k, FromKeyForIndexScan(prefix, start))
  {
    IndexScanReadsBoth(prefix, start, k);
    if start.Some? {
      var p, s := OrEmpty(prefix), NormalizeStartKey(start.value.key);
      Trichotomy(p, s.secondary);
      Trichotomy(p, k.secondary);
      Trichotomy(s.secondary, k.secondary);
      if AtMost(s.secondary, k.secondary) && Less(p, s.secondary) { LessAtMost(p, s.secondary, k.secondary); }
      if AtMost(p, k.secondary) && Less(s.secondary, p) { LessAtMost(s.secondary, p, k.secondary); }
    }
  }
}
