/** Scanning a sorted map: what a scan means, and the iterator that computes it. */
module Scan {
  import opened Wrappers
  import opened Keys
  import opened Entries
  import opened IndexKeys
  import opened ScanOptions

  // ---------- what a scan means ----------

  ghost predicate PlainInRange(prefix: Option<Key>, start: Option<PlainStart>, k: Key) {
    && StartsWith(k, OrEmpty(prefix))
    && (start.Some? ==> if start.value.exclusive then Less(start.value.key, k) else AtMost(start.value.key, k))
  }

  ghost predicate AfterIndexStart(start: IndexStart, k: IndexKey) {
    var pair := NormalizeStartKey(start.key);
    if !start.exclusive then AtOrAfter(k, pair)
    else if pair.primary.None? then Less(pair.secondary, k.secondary)
    else IndexLess(IndexKey(pair.secondary, pair.primary.value), k)
  }

  ghost predicate IndexInRange(prefix: Option<Key>, start: Option<IndexStart>, k: IndexKey) {
    && StartsWith(k.secondary, OrEmpty(prefix))
    && (start.Some? ==> AfterIndexStart(start.value, k))
  }

  /** The stored key `k` is one the scan asks for.  For an index scan `k` is the encoded key. */
  ghost predicate InRange(options: Options, k: Key) {
    match options
    case Plain(prefix, start, _) => PlainInRange(prefix, start, k)
    case Index(_, prefix, start, _) =>
      DecodeIndexKey(k).Some? && IndexInRange(prefix, start, DecodeIndexKey(k).value)
  }

  ghost function Range(options: Options): Key -> bool {
    k => InRange(options, k)
  }

  /** The limit takes effect only when it is positive. */
  function Limited<V>(es: seq<Entry<V>>, limit: Option<int>): seq<Entry<V>> {
    if limit.Some? && 0 < limit.value <= |es| then es[..limit.value] else es
  }

  /** The declarative scan: the first `limit` entries in key order among those in range. */
  ghost function ScanEntries<V(!new)>(m: map<Key, V>, options: Options): seq<Entry<V>> {
    Limited(Matching(m, Range(options)), options.limit)
  }

  /** The key reported when a plain scan is stopped by its limit: the key of the last entry it returned. */
  ghost function ScanLimitKey<V(!new)>(m: map<Key, V>, options: Options): Option<Key> {
    var es := Matching(m, Range(options));
    if options.Plain? && options.limit.Some? && 0 < options.limit.value <= |es|
    then Some(es[options.limit.value - 1].key) else None
  }

  // ---------- the iterator ----------

  /** The key the underlying map is read from; `None` models the exception of the key encoding. */
  function FromKey(options: Options): Option<Key> {
    match options
    case Plain(prefix, start, _) => Some(FromKeyForNonIndexScan(prefix, start))
    case Index(_, prefix, start, _) => FromKeyForIndexScanInternal(prefix, start)
  }

  predicate ShouldSkipNonIndexScan(key: Key, startKey: Key) {
    key == startKey
  }

  predicate ShouldSkipIndexScan(key: IndexKey, startKey: IndexStartKey) {
    var pair := NormalizeStartKey(startKey);
    if key.secondary != pair.secondary then false
    else if pair.primary.None? then true
    else key.primary == pair.primary.value
  }

  predicate Decodable(options: Options, k: Key) {
    options.Index? ==> DecodeIndexKey(k).Some?
  }

  function KeyToMatch(options: Options, k: Key): Key
    requires Decodable(options, k)
  {
    if options.Index? then DecodeIndexKey(k).value.secondary else k
  }

  predicate Skipped(options: Options, k: Key)
    requires Decodable(options, k)
  {
    match options
    case Plain(_, start, _) => start.Some? && start.value.exclusive && ShouldSkipNonIndexScan(k, start.value.key)
    case Index(_, _, start, _) =>
      start.Some? && start.value.exclusive && ShouldSkipIndexScan(DecodeIndexKey(k).value, start.value.key)
  }

  // ---------- why reading from the start key to the first key without the prefix is enough ----------

  lemma PlainReadsBoth(prefix: Option<Key>, start: Option<PlainStart>, k: Key)
    ensures AtMost(FromKeyForNonIndexScan(prefix, start), k)
       <==> AtMost(OrEmpty(prefix), k) && (start.Some? ==> AtMost(start.value.key, k))
  {
    if start.Some? {
      var p, s := OrEmpty(prefix), start.value.key;
      Trichotomy(p, s);
      if Less(p, s) && AtMost(s, k) { LessAtMost(p, s, k); }
      if Less(s, p) && AtMost(p, k) { LessAtMost(s, p, k); }
    }
  }

  lemma ReadsBoth(options: Options, k: Key)
    requires FromKey(options).Some? && Decodable(options, k)
    ensures AtMost(FromKey(options).value, k)
       <==> AtMost(OrEmpty(options.prefix), KeyToMatch(options, k))
            && match options
               case Plain(_, start, _) => start.Some? ==> AtMost(start.value.key, k)
               case Index(_, _, start, _) =>
                 start.Some? ==> AtOrAfter(DecodeIndexKey(k).value, NormalizeStartKey(start.value.key))
  {
    match options
    case Plain(prefix, start, _) => PlainReadsBoth(prefix, start, k);
    case Index(_, prefix, start, _) =>
      var ik := DecodeIndexKey(k).value;
      EncodeDecode(ik, k);
      IndexScanReadsBoth(prefix, start, ik);
  }

  /** Every key in range is read. */
  lemma InRangeIsRead(options: Options, k: Key)
    requires FromKey(options).Some? && Decodable(options, k) && InRange(options, k)
    ensures AtMost(FromKey(options).value, k)
  {
    ReadsBoth(options, k);
    PrefixIsLeast(OrEmpty(options.prefix), KeyToMatch(options, k));
  }

  /** A key that is read, has the prefix and is not skipped is in range, and conversely. */
  lemma ReadKeyInRange(options: Options, k: Key)
    requires FromKey(options).Some? && Decodable(options, k) && AtMost(FromKey(options).value, k)
    ensures Range(options)(k)
       <==> StartsWith(KeyToMatch(options, k), OrEmpty(options.prefix)) && !Skipped(options, k)
  {
    ReadsBoth(options, k);
    match options
    case Plain(_, start, _) =>
      if start.Some? { Trichotomy(start.value.key, k); }
    case Index(_, _, start, _) =>
      if start.Some? {
        var pair, ik := NormalizeStartKey(start.value.key), DecodeIndexKey(k).value;
        Trichotomy(pair.secondary, ik.secondary);
        if pair.primary.Some? { Trichotomy(pair.primary.value, ik.primary); }
      }
  }

  /** After the first read key without the prefix nothing more is in range. */
  lemma NothingAfter(options: Options, k: Key, later: Key)
    requires FromKey(options).Some? && Decodable(options, k) && Decodable(options, later)
    requires AtMost(FromKey(options).value, k) && Less(k, later)
    requires !StartsWith(KeyToMatch(options, k), OrEmpty(options.prefix))
    ensures !InRange(options, later)
  {
    ReadsBoth(options, k);
    var a, b := KeyToMatch(options, k), KeyToMatch(options, later);
    if options.Index? {
      EncodeDecode(DecodeIndexKey(k).value, k);
      EncodeDecode(DecodeIndexKey(later).value, later);
      EncodingPreservesOrder(DecodeIndexKey(k).value, DecodeIndexKey(later).value);
    }
    if a != b { PrefixClassEnds(OrEmpty(options.prefix), a, b); }
  }

  /** Selecting the range from what is read gives every stored entry in range. */
  lemma ReadIsEnough<V(!new)>(m: map<Key, V>, options: Options)
    requires FromKey(options).Some? && forall k :: k in m ==> Decodable(options, k)
    ensures var read := ScanFrom(m, FromKey(options).value);
      Select(read, |read|, Range(options)) == Matching(m, Range(options))
  {
    var read := ScanFrom(m, FromKey(options).value);
    SelectSorted(read, |read|, Range(options));
    SelectMembers(read, |read|, Range(options));
    forall k | k in m && InRange(options, k) ensures AtMost(FromKey(options).value, k) {
      InRangeIsRead(options, k);
    }
    MatchingUnique(Select(read, |read|, Range(options)), m, Range(options));
  }

  /** A read key without the prefix, and every later one, is not in range. */
  lemma NotInRangeFrom(options: Options, k: Key, later: Key)
    requires FromKey(options).Some? && Decodable(options, k) && Decodable(options, later)
    requires AtMost(FromKey(options).value, k) && (later == k || Less(k, later))
    requires !StartsWith(KeyToMatch(options, k), OrEmpty(options.prefix))
    ensures !Range(options)(later)
  {
    hide InRange, KeyToMatch, StartsWith;
    if later == k {
      ReadKeyInRange(options, k);
    } else {
      NothingAfter(options, k, later);
    }
  }

  /** A read key without the prefix ends the scan: nothing from there on is in range. */
  lemma ScanEnds<V(!new)>(m: map<Key, V>, options: Options, i: nat)
    requires FromKey(options).Some? && forall k :: k in m ==> Decodable(options, k)
    requires var iter := ScanFrom(m, FromKey(options).value);
      i < |iter| && iter[i] in iter && !StartsWith(KeyToMatch(options, iter[i].key), OrEmpty(options.prefix))
    ensures Matching(m, Range(options)) == Select(ScanFrom(m, FromKey(options).value), i, Range(options))
  {
    hide InRange, Range, KeyToMatch, StartsWith, FromKey, AtMost, Less, Decodable, Matching;
    var iter, range := ScanFrom(m, FromKey(options).value), Range(options);
    ReadIsEnough(m, options);
    forall j | i <= j < |iter| ensures !range(iter[j].key) {
      assert iter[j] in iter;
      NotInRangeFrom(options, iter[i].key, iter[j].key);
    }
    SelectGrows(iter, i, |iter|, range);
  }

  lemma StoppedByLimit<V(!new)>(m: map<Key, V>, options: Options, out: seq<Entry<V>>)
    requires out <= Matching(m, Range(options)) && options.limit == Some(|out|) && |out| > 0
    ensures out == ScanEntries(m, options)
    ensures ScanLimitKey(m, options) == if options.Plain? then Some(out[|out| - 1].key) else None
  {
    hide InRange, Range, Matching;
  }

  lemma StoppedByEnd<V(!new)>(m: map<Key, V>, options: Options, out: seq<Entry<V>>)
    requires out == Matching(m, Range(options))
    requires options.limit.Some? && options.limit.value > 0 ==> |out| < options.limit.value
    ensures out == ScanEntries(m, options) && ScanLimitKey(m, options) == None
  {
    hide InRange, Range, Matching;
  }

  /** `scanIterator` drained over `iter`, the entries the map yields from the start key.  It returns the
    * declarative scan and reports its limit key. */
  method ScanIterator<V(!new)>(iter: seq<Entry<V>>, options: Options, ghost m: map<Key, V>)
    returns (out: seq<Entry<V>>, limitKey: Option<Key>)
    requires FromKey(options).Some? && iter == ScanFrom(m, FromKey(options).value)
    requires forall k :: k in m ==> Decodable(options, k)
    ensures out == ScanEntries(m, options)
    ensures limitKey == ScanLimitKey(m, options)
  {
    hide InRange, Range, KeyToMatch, Skipped, FromKey, ScanFrom, Decodable, Matching, ScanEntries, ScanLimitKey,
      StartsWith, OrEmpty;
    ghost var range := Range(options);
    ReadIsEnough(m, options);
    out, limitKey := [], None;
    var limit := options.limit;
    for i := 0 to |iter|
      invariant out == Select(iter, i, range) && limitKey == None
      invariant limit == (if options.limit.Some? then Some(options.limit.value - |out|) else None)
      invariant options.limit.Some? && options.limit.value > 0 ==> |out| < options.limit.value
    {
      var entry := iter[i];
      assert entry in iter;
      if !StartsWith(KeyToMatch(options, entry.key), OrEmpty(options.prefix)) {
        ScanEnds(m, options, i);
        StoppedByEnd(m, options, out);
        return;
      }
      ReadKeyInRange(options, entry.key);
      if Skipped(options, entry.key) {
        continue;
      }
      out := out + [entry];
      if limit.Some? {
        limit := Some(limit.value - 1);
        if limit.value == 0 {
          SelectGrows(iter, i + 1, |iter|, range);
          StoppedByLimit(m, options, out);
          if options.Plain? {
            limitKey := Some(entry.key);
          }
          return;
        }
      }
    }
    StoppedByEnd(m, options, out);
  }

  /** "Only include up to `limit` results" is kept for positive limits; any other limit returns everything in range. */
  lemma LimitKept<V(!new)>(m: map<Key, V>, options: Options)
    requires options.limit.Some?
    ensures options.limit.value > 0 ==>
      |ScanEntries(m, options)| <= options.limit.value && ScanEntries(m, options) <= Matching(m, Range(options))
    ensures options.limit.value <= 0 ==>
      forall e :: e in ScanEntries(m, options) <==> e.key in m && m[e.key] == e.value && InRange(options, e.key)
  {
  }
}
