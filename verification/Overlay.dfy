/** Scanning a base map overlaid with pending changes: merge, drop the deleted entries, scan. */
module Overlay {
  import opened Wrappers
  import opened Keys
  import opened Entries
  import opened ScanOptions
  import opened Scan

  /** The base map with the pending writes and deletions applied. */
  ghost function Overlaid<V(!new)>(base: map<Key, V>, pending: map<Key, Option<V>>): map<Key, V> {
    map k | k in base.Keys + pending.Keys && (if k in pending then pending[k].Some? else true)
      :: if k in pending then pending[k].value else base[k]
  }

  /** What merging has produced once `i` entries of `a` and `j` of `b` have been consumed: everything from `b`, and
    * from `a` what `b` does not replace. */
  ghost predicate Merged<V(!new)>(out: seq<Entry<V>>, a: seq<Entry<V>>, i: nat, b: seq<Entry<V>>, j: nat)
    requires i <= |a| && j <= |b|
  {
    && StrictlySorted(out)
    && (forall e :: e in out <==> e in b[..j] || (e in a[..i] && forall f :: f in b ==> f.key != e.key))
    && (forall e :: e in out && i < |a| ==> Less(e.key, a[i].key))
    && (forall e :: e in out && j < |b| ==> Less(e.key, b[j].key))
  }

  lemma SortedAppend<V(!new)>(out: seq<Entry<V>>, e: Entry<V>)
    requires StrictlySorted(out) && forall f :: f in out ==> Less(f.key, e.key)
    ensures StrictlySorted(out + [e])
  {
  }

  /** Emitting the head of `a`, which is below what is left of `b`. */
  lemma TakeBase<V(!new)>(out: seq<Entry<V>>, a: seq<Entry<V>>, i: nat, b: seq<Entry<V>>, j: nat)
    requires StrictlySorted(a) && StrictlySorted(b) && i < |a| && j <= |b| && Merged(out, a, i, b, j)
    requires j < |b| ==> Less(a[i].key, b[j].key)
    ensures Merged(out + [a[i]], a, i + 1, b, j)
  {
    TakeMembers(a, i);
    SortedAppend(out, a[i]);
    forall f | f in b ensures f.key != a[i].key {
      var n :| 0 <= n < |b| && b[n] == f;
      if n < j {
        assert f in b[..j];
        LessAsymmetric(f.key, a[i].key);
      } else {
        if j < n { LessTransitive(a[i].key, b[j].key, f.key); }
        LessAsymmetric(a[i].key, f.key);
      }
    }
    forall e | e in out && i + 1 < |a| ensures Less(e.key, a[i + 1].key) {
      LessTransitive(e.key, a[i].key, a[i + 1].key);
    }
  }

  /** Emitting the head of `b`, which is below what is left of `a`, or replaces its head. */
  lemma TakeOverlay<V(!new)>(out: seq<Entry<V>>, a: seq<Entry<V>>, i: nat, b: seq<Entry<V>>, j: nat, i': nat)
    requires StrictlySorted(a) && StrictlySorted(b) && i <= |a| && j < |b| && Merged(out, a, i, b, j)
    requires (i' == i && (i < |a| ==> Less(b[j].key, a[i].key))) || (i < |a| && i' == i + 1 && a[i].key == b[j].key)
    ensures Merged(out + [b[j]], a, i', b, j + 1)
  {
    TakeMembers(b, j);
    if i < i' { TakeMembers(a, i); }
    SortedAppend(out, b[j]);
    assert b[j] in b;
    forall e | e in out && i' < |a| ensures Less(e.key, a[i'].key) {
      if i < i' { LessTransitive(e.key, a[i].key, a[i'].key); }
    }
    forall e | e in out && j + 1 < |b| ensures Less(e.key, b[j + 1].key) {
      LessTransitive(e.key, b[j].key, b[j + 1].key);
    }
  }

  /** `mergeAsyncIterables`: two cursors, the overlay winning on equal keys. */
  method MergeIterables<V(!new)>(a: seq<Entry<V>>, b: seq<Entry<V>>) returns (out: seq<Entry<V>>)
    requires StrictlySorted(a) && StrictlySorted(b)
    ensures StrictlySorted(out)
    ensures forall e :: e in out <==> e in b || (e in a && forall f :: f in b ==> f.key != e.key)
  {
    hide Merged, StrictlySorted;
    out := [];
    var i, j := 0, 0;
    MergedInitially(a, b);
    while i < |a| || j < |b|
      invariant i <= |a| && j <= |b| && Merged(out, a, i, b, j)
      decreases |a| - i + |b| - j
    {
      if i == |a| {
        TakeOverlay(out, a, i, b, j, i);
        out := out + [b[j]];
        j := j + 1;
        continue;
      }
      if j == |b| {
        TakeBase(out, a, i, b, j);
        out := out + [a[i]];
        i := i + 1;
        continue;
      }
      var ord := Compare(a[i].key, b[j].key);
      Trichotomy(a[i].key, b[j].key);
      if ord == 0 {
        TakeOverlay(out, a, i, b, j, i + 1);
        out := out + [b[j]];
        i, j := i + 1, j + 1;
      } else if ord < 0 {
        TakeBase(out, a, i, b, j);
        out := out + [a[i]];
        i := i + 1;
      } else {
        TakeOverlay(out, a, i, b, j, i);
        out := out + [b[j]];
        j := j + 1;
      }
    }
    MergedFinally(out, a, b);
  }

  lemma MergedInitially<V(!new)>(a: seq<Entry<V>>, b: seq<Entry<V>>)
    ensures Merged([], a, 0, b, 0)
  {
  }

  lemma MergedFinally<V(!new)>(out: seq<Entry<V>>, a: seq<Entry<V>>, b: seq<Entry<V>>)
    requires Merged(out, a, |a|, b, |b|)
    ensures StrictlySorted(out)
    ensures forall e :: e in out <==> e in b || (e in a && forall f :: f in b ==> f.key != e.key)
  {
    assert a[..|a|] == a && b[..|b|] == b;
  }

  /** `filterAsyncIterable` with the predicate that drops deleted entries. */
  method FilterDeleted<V(!new)>(es: seq<Entry<Option<V>>>) returns (out: seq<Entry<V>>)
    requires StrictlySorted(es)
    ensures StrictlySorted(out)
    ensures forall e :: e in out <==> Entry(e.key, Some(e.value)) in es
  {
    out := [];
    for i := 0 to |es|
      invariant StrictlySorted(out)
      invariant forall e :: e in out <==> Entry(e.key, Some(e.value)) in es[..i]
    {
      TakeMembers(es, i);
      if es[i].value.Some? {
        var e := Entry(es[i].key, es[i].value.value);
        forall f | f in out ensures Less(f.key, e.key) {
          var n :| 0 <= n < i && es[n] == Entry(f.key, Some(f.value));
        }
        SortedAppend(out, e);
        out := out + [e];
      }
    }
    assert es[..|es|] == es;
  }

  lemma MergedScan<V(!new)>(base: map<Key, V>, pending: map<Key, Option<V>>, from: Key,
                            a: seq<Entry<Option<V>>>, merged: seq<Entry<Option<V>>>, out: seq<Entry<V>>)
    requires forall e :: e in a <==> e.value.Some? && Entry(e.key, e.value.value) in ScanFrom(base, from)
    requires var b := ScanFrom(pending, from);
      forall e :: e in merged <==> e in b || (e in a && forall f :: f in b ==> f.key != e.key)
    requires StrictlySorted(out) && forall e :: e in out <==> Entry(e.key, Some(e.value)) in merged
    ensures out == ScanFrom(Overlaid(base, pending), from)
  {
    var m := Overlaid(base, pending);
    forall e ensures e in out <==> e in ScanFrom(m, from) {
      var w := Entry(e.key, Some(e.value));
      assert w in a <==> e.key in base && base[e.key] == e.value && AtMost(from, e.key);
      assert w in ScanFrom(pending, from) <==>
        e.key in pending && pending[e.key] == Some(e.value) && AtMost(from, e.key);
      if e.key in pending && AtMost(from, e.key) {
        assert Entry(e.key, pending[e.key]) in ScanFrom(pending, from);
      }
    }
    SortedUnique(out, ScanFrom(m, from));
  }

  /** Merging the two scans from a key and dropping deletions yields the scan of the overlaid map from that key. */
  method OverlayFrom<V(!new)>(base: seq<Entry<V>>, pending: seq<Entry<Option<V>>>, from: Key,
                              ghost m: map<Key, V>, ghost changes: map<Key, Option<V>>)
    returns (out: seq<Entry<V>>)
    requires base == ScanFrom(m, from) && pending == ScanFrom(changes, from)
    ensures out == ScanFrom(Overlaid(m, changes), from)
  {
    hide Overlaid, ScanFrom;
    var a := seq(|base|, i requires 0 <= i < |base| => Entry(base[i].key, Some(base[i].value)));
    LiftedFacts(base, a);
    var merged := MergeIterables(a, pending);
    out := FilterDeleted(merged);
    MergedScan(m, changes, from, a, merged, out);
  }

  lemma LiftedFacts<V(!new)>(base: seq<Entry<V>>, a: seq<Entry<Option<V>>>)
    requires StrictlySorted(base) && |a| == |base|
    requires forall i :: 0 <= i < |a| ==> a[i] == Entry(base[i].key, Some(base[i].value))
    ensures StrictlySorted(a)
    ensures forall e :: e in a <==> e.value.Some? && Entry(e.key, e.value.value) in base
  {
    forall e: Entry<Option<V>> | e.value.Some? && Entry(e.key, e.value.value) in base ensures e in a {
      var i :| 0 <= i < |base| && base[i] == Entry(e.key, e.value.value);
      assert a[i] == e;
    }
  }

  /** A scan over a merging backend is a scan of the overlaid map, for every plain option. */
  method MakeScanResult<V(!new)>(options: Options, persisted: Key -> seq<Entry<V>>,
      pending: Key -> seq<Entry<Option<V>>>,
                                 ghost m: map<Key, V>, ghost changes: map<Key, Option<V>>)
    returns (out: seq<Entry<V>>)
    requires options.Plain?
    requires forall from :: persisted(from) == ScanFrom(m, from) && pending(from) == ScanFrom(changes, from)
    ensures out == ScanEntries(Overlaid(m, changes), options)
  {
    hide Overlaid, ScanFrom, ScanEntries;
    var from := FromKeyForNonIndexScan(options.prefix, options.plainStart);
    var iter := OverlayFrom(persisted(from), pending(from), from, m, changes);
    var limitKey;
    out, limitKey := ScanIterator(iter, options, Overlaid(m, changes));
  }
}
