/** Strings and their order.
  *
  * A string is the sequence of its character numbers: Unicode code points for database keys, which
  * `compare-utf8` orders by their UTF-8 bytes (the same order, RFC 3629 section 1), and UTF-16 code units for
  * the identifiers that `stringCompare` orders.  Both orders are lexicographic.
  */
module Keys {

  type Key = seq<nat>

  predicate Less(a: Key, b: Key) {
    b != [] && (a == [] || a[0] < b[0] || (a[0] == b[0] && Less(a[1..], b[1..])))
  }

  predicate AtMost(a: Key, b: Key) {
    a == b || Less(a, b)
  }

  /** The three-way comparison of `compareUTF8` and `stringCompare`. */
  function Compare(a: Key, b: Key): int {
    if a == b then 0 else if Less(a, b) then -1 else 1
  }

  /** `key.startsWith(prefix)`. */
  predicate StartsWith(key: Key, prefix: Key) {
    prefix <= key
  }

  lemma {:induction false} LessIrreflexive(a: Key)
    ensures !Less(a, a)
  {
    if a != [] {
      LessIrreflexive(a[1..]);
    }
  }

  lemma {:induction false} LessTransitive(a: Key, b: Key, c: Key)
    requires Less(a, b) && Less(b, c)
    ensures Less(a, c)
  {
    if a != [] && a[0] == b[0] == c[0] {
      LessTransitive(a[1..], b[1..], c[1..]);
    }
  }

  lemma LessAsymmetric(a: Key, b: Key)
    requires Less(a, b)
    ensures !Less(b, a) && a != b
  {
    LessIrreflexive(a);
    if Less(b, a) {
      LessTransitive(a, b, a);
    }
  }

  lemma {:induction false} LessTotal(a: Key, b: Key)
    ensures Less(a, b) || a == b || Less(b, a)
  {
    if a != [] && b != [] && a[0] == b[0] {
      LessTotal(a[1..], b[1..]);
      assert a == [a[0]] + a[1..] && b == [b[0]] + b[1..];
    }
  }

  /** The order laws of one pair of keys, in the form the sorted-sequence proofs use them. */
  lemma Trichotomy(a: Key, b: Key)
    ensures Less(a, b) || a == b || Less(b, a)
    ensures Less(a, b) ==> !Less(b, a) && a != b
    ensures Less(b, a) ==> !Less(a, b) && a != b
  {
    LessTotal(a, b);
    if Less(a, b) { LessAsymmetric(a, b); }
    if Less(b, a) { LessAsymmetric(b, a); }
  }

  lemma LessAtMost(a: Key, b: Key, c: Key)
    requires Less(a, b) && AtMost(b, c)
    ensures Less(a, c)
  {
    if b != c { LessTransitive(a, b, c); }
  }

  /** A prefix is the least string that has it. */
  lemma {:induction false} PrefixIsLeast(prefix: Key, key: Key)
    requires StartsWith(key, prefix)
    ensures AtMost(prefix, key)
  {
    if prefix != [] {
      PrefixIsLeast(prefix[1..], key[1..]);
      assert prefix == [prefix[0]] + prefix[1..] && key == [key[0]] + key[1..];
    }
  }

  /** The strings with a given prefix form an interval: once a string at or above the prefix does not have it, no
    * later string does either.  A scan may therefore stop at the first key without the prefix. */
  lemma {:induction false} PrefixClassEnds(prefix: Key, key: Key, later: Key)
    requires AtMost(prefix, key) && !StartsWith(key, prefix) && Less(key, later)
    ensures !StartsWith(later, prefix)
  {
    if StartsWith(later, prefix) {
      if prefix[0] == key[0] {
        assert prefix == [prefix[0]] + prefix[1..] && key == [key[0]] + key[1..];
        PrefixClassEnds(prefix[1..], key[1..], later[1..]);
      }
    }
  }

  /** If a string with the prefix lies above a start that lacks the prefix, the start lies below the prefix. */
  lemma {:induction false} StartBelowPrefix(prefix: Key, start: Key, key: Key)
    requires StartsWith(key, prefix) && AtMost(start, key) && !StartsWith(start, prefix)
    ensures Less(start, prefix)
  {
    if start != [] && prefix[0] == start[0] {
      assert start == [start[0]] + start[1..] && key == [key[0]] + key[1..];
      StartBelowPrefix(prefix[1..], start[1..], key[1..]);
    }
  }
}
