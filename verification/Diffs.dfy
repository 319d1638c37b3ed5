/** The stored data, the changes between two versions of it, and what a scan of it yields. */
module Diffs {
  import opened Wrappers
  import opened Keys
  import opened Entries
  import opened IndexKeys
  import opened ScanOptions
  import opened Scan

  datatype Json =
    | Null | Bool(b: bool) | Number(n: int) | Text(text: Key)
    | Array(items: seq<Json>) | Object(members: seq<(Key, Json)>)

  type Db = map<Key, Json>

  datatype Change = Add(newValue: Json) | Replace(oldValue: Json, newValue: Json) | Del(oldValue: Json)

  type Diff = seq<Entry<Change>>

  ghost predicate Changed(before: Db, after: Db, k: Key) {
    Lookup(before, k) != Lookup(after, k)
  }

  ghost function ChangeAt(before: Db, after: Db, k: Key): Change
    requires Changed(before, after, k)
  {
    if k !in before then Add(after[k]) else if k !in after then Del(before[k]) else Replace(before[k], after[k])
  }

  /** The sorted list of the changes from `before` to `after`: what the B-tree diff is relied on to compute. */
  ghost function DiffOf(before: Db, after: Db): (d: Diff)
    ensures StrictlySorted(d)
    ensures forall k :: Changed(before, after, k) ==> Entry(k, ChangeAt(before, after, k)) in d
    ensures forall e :: e in d ==> Changed(before, after, e.key) && e.value == ChangeAt(before, after, e.key)
  {
    var changes := map k | k in before.Keys + after.Keys && Changed(before, after, k) :: ChangeAt(before, after, k);
    assert forall k :: Changed(before, after, k) ==> k in changes;
    Listing(changes)
  }

  // ---------- a version of the stored data ----------

  /** The primary map and the secondary index maps by name.  Index keys are stored encoded. */
  datatype Store = Store(primary: Db, indexes: map<Key, Db>)

  /** An entry of an index belongs to a stored value: its key decodes to the value's key, and it repeats the value. */
  ghost predicate IndexEntryOk(primary: Db, k: Key, value: Json) {
    DecodeIndexKey(k).Some? && Lookup(primary, DecodeIndexKey(k).value.primary) == Some(value)
  }

  ghost predicate ValidStore(s: Store) {
    && [] !in s.indexes
    && forall name, k :: name in s.indexes && k in s.indexes[name] ==> IndexEntryOk(s.primary, k, s.indexes[name][k])
  }

  /** Two versions of one database: its index definitions never change. */
  ghost predicate SameIndexes(s: Store, s': Store) {
    ValidStore(s) && ValidStore(s') && s.indexes.Keys == s'.indexes.Keys
  }

  /** The map with a name; the primary map has the empty name. */
  function MapOf(s: Store, name: Key): Db {
    if name == [] then s.primary else if name in s.indexes then s.indexes[name] else map[]
  }

  /** Non-empty diffs by map name. */
  type DiffsMap = map<Key, Diff>

  /** The diffs computed at a commit, for the maps that the configuration asks for. */
  ghost function DiffsBetween(before: Store, after: Store, wanted: set<Key>): DiffsMap {
    map name | name in wanted && DiffOf(MapOf(before, name), MapOf(after, name)) != []
      :: DiffOf(MapOf(before, name), MapOf(after, name))
  }

  // ---------- what a scan yields ----------

  /** A scan's entries, the limit key reported once it has been drained, and whether it fails instead. */
  datatype Stream = Stream(entries: seq<Entry<Json>>, limitKey: Option<Key>, fails: bool)

  function IndexNameOf(options: Options): Key {
    if options.Plain? then [] else options.indexName
  }

  predicate ScanFails(s: Store, options: Options) {
    FromKey(options).None? || (options.Index? && options.indexName !in s.indexes)
  }

  ghost function StreamOf(s: Store, options: Options): Stream {
    if ScanFails(s, options) then Stream([], None, true) else
      var m := MapOf(s, IndexNameOf(options));
      Stream(ScanEntries(m, options), ScanLimitKey(m, options), false)
  }
}
