/** Strictly sorted lists of keyed entries, and the sorted listing of a finite map. */
module Entries {
  import opened Wrappers
  import opened Keys

  datatype Entry<+V> = Entry(key: Key, value: V)

  ghost predicate StrictlySorted<V>(es: seq<Entry<V>>) {
    forall i, j :: 0 <= i < j < |es| ==> Less(es[i].key, es[j].key)
  }

  /** `es` lists the map `m`: exactly its key-value pairs, in strictly ascending key order. */
  ghost predicate Lists<V(!new)>(es: seq<Entry<V>>, m: map<Key, V>) {
    && StrictlySorted(es)
    && (forall e :: e in es ==> e.key in m && m[e.key] == e.value)
    && (forall k :: k in m ==> Entry(k, m[k]) in es)
  }

  function Lookup<V>(m: map<Key, V>, k: Key): Option<V> {
    if k in m then Some(m[k]) else None
  }

  // ---------- uniqueness of sorted listings ----------

  lemma HeadIsLeast<V(!new)>(es: seq<Entry<V>>, e: Entry<V>)
    requires StrictlySorted(es) && e in es
    ensures AtMost(es[0].key, e.key)
  {
    var i :| 0 <= i < |es| && es[i] == e;
    if i > 0 { assert Less(es[0].key, es[i].key); }
  }

  lemma TailMembers<V(!new)>(es: seq<Entry<V>>, e: Entry<V>)
    requires StrictlySorted(es) && |es| > 0
    ensures e in es[1..] <==> e in es && e != es[0]
  {
    if e in es[1..] {
      var i :| 1 <= i < |es| && es[i] == e;
      LessAsymmetric(es[0].key, es[i].key);
    }
  }

  /** Two strictly sorted lists with the same entries are the same list. */
  lemma {:induction false} SortedUnique<V(!new)>(a: seq<Entry<V>>, b: seq<Entry<V>>)
    requires StrictlySorted(a) && StrictlySorted(b)
    requires forall e :: e in a <==> e in b
    ensures a == b
  {
    assert b != [] ==> b[0] in a;
    if a != [] {
      assert a[0] in b;
      HeadIsLeast(b, a[0]);
      assert b[0] in a;
      HeadIsLeast(a, b[0]);
      Trichotomy(a[0].key, b[0].key);
      assert a[0].key == b[0].key;
      LessIrreflexive(a[0].key);
      forall e ensures e in a[1..] <==> e in b[1..] {
        TailMembers(a, e);
        TailMembers(b, e);
      }
      SortedUnique(a[1..], b[1..]);
      assert a == [a[0]] + a[1..] && b == [b[0]] + b[1..];
    }
  }

  // ---------- listing a map ----------

  lemma {:induction false} LeastKeyExists(keys: set<Key>)
    requires keys != {}
    ensures exists k :: k in keys && forall k' :: k' in keys ==> AtMost(k, k')
  {
    var k :| k in keys;
    if keys == {k} {
      assert forall k' :: k' in keys ==> AtMost(k, k');
    } else {
      var rest := keys - {k};
      assert rest != {} by { assert keys == rest + {k}; }
      LeastKeyExists(rest);
      var l :| l in rest && forall k' :: k' in rest ==> AtMost(l, k');
      var least := if Less(k, l) then k else l;
      Trichotomy(k, l);
      forall k' | k' in keys ensures AtMost(least, k') {
        if k' != k {
          assert k' in rest;
          if least == k { LessAtMost(k, l, k'); }
        }
      }
    }
  }

  ghost function LeastKey(keys: set<Key>): (k: Key)
    requires keys != {}
    ensures k in keys && forall k' :: k' in keys ==> AtMost(k, k')
  {
    LeastKeyExists(keys);
    var k :| k in keys && forall k' :: k' in keys ==> AtMost(k, k');
    k
  }

  /** All entries of a map in ascending key order: what the B-tree's iteration from the first key yields. */
  ghost function Listing<V(!new)>(m: map<Key, V>): (es: seq<Entry<V>>)
    ensures Lists(es, m)
    decreases |m|
  {
    if m == map[] then [] else
      var k := LeastKey(m.Keys);
      var rest := m - {k};
      assert k in m && k !in rest && |rest| < |m| by {
        assert rest.Keys == m.Keys - {k};
        assert |rest.Keys| < |m.Keys|;
      }
      var es := [Entry(k, m[k])] + Listing(rest);
      assert StrictlySorted(es) by {
        forall j | 0 < j < |es| ensures Less(es[0].key, es[j].key) {
          assert es[j] in Listing(rest);
        }
      }
      assert forall k' :: k' in m ==> k' == k || k' in rest;
      assert forall k' :: k' in rest ==> Entry(k', m[k']) in Listing(rest);
      es
  }

  lemma TakeMembers<T(!new)>(xs: seq<T>, i: nat)
    requires i < |xs|
    ensures forall x :: x in xs[..i + 1] <==> x in xs[..i] || x == xs[i]
  {
    assert xs[..i + 1] == xs[..i] + [xs[i]];
  }

  // ---------- selecting entries ----------

  /** Those of the first `n` entries whose keys satisfy `keep`, in their order. */
  function Select<V>(es: seq<Entry<V>>, n: nat, keep: Key -> bool): seq<Entry<V>>
    requires n <= |es|
  {
    if n == 0 then []
    else if keep(es[n - 1].key) then Select(es, n - 1, keep) + [es[n - 1]]
    else Select(es, n - 1, keep)
  }

  lemma {:induction false} SelectMembers<V(!new)>(es: seq<Entry<V>>, n: nat, keep: Key -> bool)
    requires n <= |es|
    ensures forall e :: e in Select(es, n, keep) <==> keep(e.key) && exists i :: 0 <= i < n && es[i] == e
  {
    if n > 0 {
      SelectMembers(es, n - 1, keep);
    }
  }

  lemma {:induction false} SelectSorted<V(!new)>(es: seq<Entry<V>>, n: nat, keep: Key -> bool)
    requires n <= |es| && StrictlySorted(es)
    ensures StrictlySorted(Select(es, n, keep))
  {
    if n > 0 {
      SelectSorted(es, n - 1, keep);
      SelectMembers(es, n - 1, keep);
      var before := Select(es, n - 1, keep);
      forall j | 0 <= j < |before| ensures Less(before[j].key, es[n - 1].key) {
        assert before[j] in before;
      }
    }
  }

  /** Selecting from more entries only appends. */
  lemma {:induction false} SelectGrows<V(!new)>(es: seq<Entry<V>>, i: nat, n: nat, keep: Key -> bool)
    requires i <= n <= |es|
    ensures Select(es, i, keep) <= Select(es, n, keep)
    ensures (forall j :: i <= j < n ==> !keep(es[j].key)) ==> Select(es, i, keep) == Select(es, n, keep)
  {
    if i < n {
      SelectGrows(es, i, n - 1, keep);
    }
  }

  /** The entries of `m` whose keys satisfy `keep`, in ascending key order. */
  ghost function Matching<V(!new)>(m: map<Key, V>, keep: Key -> bool): (es: seq<Entry<V>>)
    ensures StrictlySorted(es)
    ensures forall e :: e in es <==> e.key in m && m[e.key] == e.value && keep(e.key)
  {
    var all := Listing(m);
    SelectSorted(all, |all|, keep);
    SelectMembers(all, |all|, keep);
    assert forall e :: e in all <==> exists i :: 0 <= i < |all| && all[i] == e;
    Select(all, |all|, keep)
  }

  /** A list with the properties of `Matching` is `Matching`. */
  lemma MatchingUnique<V(!new)>(es: seq<Entry<V>>, m: map<Key, V>, keep: Key -> bool)
    requires StrictlySorted(es)
    requires forall e :: e in es <==> e.key in m && m[e.key] == e.value && keep(e.key)
    ensures es == Matching(m, keep)
  {
    SortedUnique(es, Matching(m, keep));
  }

  /** Maps that agree on the selected keys have the same selection. */
  lemma MatchingAgree<V(!new)>(m: map<Key, V>, m': map<Key, V>, keep: Key -> bool)
    requires forall k :: keep(k) ==> Lookup(m, k) == Lookup(m', k)
    ensures Matching(m, keep) == Matching(m', keep)
  {
    forall e ensures e in Matching(m, keep) <==> e in Matching(m', keep) {
      assert keep(e.key) ==> Lookup(m, e.key) == Lookup(m', e.key);
    }
    SortedUnique(Matching(m, keep), Matching(m', keep));
  }

  /** The B-tree scan from a key: every entry at or after it, in order. */
  ghost function ScanFrom<V(!new)>(m: map<Key, V>, from: Key): (es: seq<Entry<V>>)
    ensures StrictlySorted(es)
    ensures forall e :: e in es <==> e.key in m && m[e.key] == e.value && AtMost(from, e.key)
  {
    Matching(m, k => AtMost(from, k))
  }
}
