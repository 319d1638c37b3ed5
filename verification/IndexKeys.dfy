/** The encoding of secondary index keys: version character, secondary key, separator, primary key. */
module IndexKeys {
  import opened Wrappers
  import opened Keys

  const NUL: nat := 0

  /** A secondary index entry's key. */
  datatype IndexKey = IndexKey(secondary: Key, primary: Key)

  ghost predicate IndexLess(a: IndexKey, b: IndexKey) {
    Less(a.secondary, b.secondary) || (a.secondary == b.secondary && Less(a.primary, b.primary))
  }

  /** `None` models the exception for a secondary key that contains the separator. */
  function EncodeIndexKey(k: IndexKey): Option<Key> {
    if NUL in k.secondary then None else Some([NUL] + k.secondary + [NUL] + k.primary)
  }

  /** Without a primary key the final separator is cut off, so that the result is a prefix of all the keys whose
    * secondary key starts with `secondary`. */
  function EncodeIndexScanKey(secondary: Key, primary: Option<Key>): Option<Key> {
    match EncodeIndexKey(IndexKey(secondary, if primary.Some? then primary.value else []))
    case None => None
    case Some(k) => if primary.None? then Some(k[..|k| - 1]) else Some(k)
  }

  /** The position of the first separator at or after `from`, or the length. */
  function SeparatorFrom(k: Key, from: nat): (i: nat)
    requires from <= |k|
    ensures from <= i <= |k|
    ensures i < |k| ==> k[i] == NUL
    ensures NUL !in k[from..i]
    decreases |k| - from
  {
    if from == |k| || k[from] == NUL then from else
      var i := SeparatorFrom(k, from + 1);
      assert k[from..i] == [k[from]] + k[from + 1..i];
      i
  }

  /** `None` models the exceptions for an invalid version or format. */
  function DecodeIndexKey(k: Key): Option<IndexKey> {
    if k == [] || k[0] != NUL then None else
      var i := SeparatorFrom(k, 1);
      if i == |k| then None else Some(IndexKey(k[1..i], k[i + 1..]))
  }

  lemma FirstSeparator(k: Key, from: nat, i: nat)
    requires from <= i < |k| && k[i] == NUL && NUL !in k[from..i]
    ensures SeparatorFrom(k, from) == i
  {
    var j := SeparatorFrom(k, from);
    forall x | from <= x < i ensures k[x] != NUL { assert k[from..i][x - from] == k[x]; }
    forall x | from <= x < j ensures k[x] != NUL { assert k[from..j][x - from] == k[x]; }
  }

  /** Decoding inverts encoding, and every key that decodes is the encoding of what it decodes to. */
  lemma EncodeDecode(k: IndexKey, encoded: Key)
    ensures EncodeIndexKey(k) == Some(encoded) <==> DecodeIndexKey(encoded) == Some(k)
  {
    if EncodeIndexKey(k) == Some(encoded) {
      var i := 1 + |k.secondary|;
      assert encoded[1..i] == k.secondary;
      assert encoded[i + 1..] == k.primary;
      FirstSeparator(encoded, 1, i);
    }
    if DecodeIndexKey(encoded) == Some(k) {
      var i := SeparatorFrom(encoded, 1);
      assert encoded == [NUL] + encoded[1..i] + [NUL] + encoded[i + 1..];
    }
  }

  // ---------- encoding preserves the order ----------

  lemma LessCons(c: nat, a: Key, b: Key)
    ensures Less([c] + a, [c] + b) <==> Less(a, b)
  {
    assert ([c] + a)[1..] == a && ([c] + b)[1..] == b;
  }

  lemma {:induction false} LessAfterSecondary(s: Key, p: Key, s': Key, p': Key)
    requires NUL !in s && NUL !in s'
    ensures Less(s + [NUL] + p, s' + [NUL] + p') <==> IndexLess(IndexKey(s, p), IndexKey(s', p'))
  {
    var a, b := s + [NUL] + p, s' + [NUL] + p';
    LessIrreflexive(s);
    if s == [] || s' == [] {
      if s == [] { assert a[1..] == p; }
      if s' == [] { assert b[1..] == p'; }
    } else {
      assert a[0] == s[0] && b[0] == s'[0];
      assert a[1..] == s[1..] + [NUL] + p && b[1..] == s'[1..] + [NUL] + p';
      LessAfterSecondary(s[1..], p, s'[1..], p');
      assert s == [s[0]] + s[1..] && s' == [s'[0]] + s'[1..];
    }
  }

  /** The encoded keys are ordered as the pairs they encode, secondary key first. */
  lemma EncodingPreservesOrder(a: IndexKey, b: IndexKey)
    requires EncodeIndexKey(a).Some? && EncodeIndexKey(b).Some?
    ensures Less(EncodeIndexKey(a).value, EncodeIndexKey(b).value) <==> IndexLess(a, b)
    ensures EncodeIndexKey(a) == EncodeIndexKey(b) <==> a == b
  {
    LessAfterSecondary(a.secondary, a.primary, b.secondary, b.primary);
    LessCons(NUL, a.secondary + [NUL] + a.primary, b.secondary + [NUL] + b.primary);
    assert EncodeIndexKey(a).value == [NUL] + (a.secondary + [NUL] + a.primary);
    assert EncodeIndexKey(b).value == [NUL] + (b.secondary + [NUL] + b.primary);
    EncodeDecode(a, EncodeIndexKey(a).value);
    EncodeDecode(b, EncodeIndexKey(b).value);
  }

  lemma {:induction false} AtMostSecondary(start: Key, s: Key, p: Key)
    requires NUL !in start && NUL !in s
    ensures AtMost(start, s + [NUL] + p) <==> AtMost(start, s)
  {
    var b := s + [NUL] + p;
    if start != [] && s != [] {
      assert b[0] == s[0] && b[1..] == s[1..] + [NUL] + p;
      AtMostSecondary(start[1..], s[1..], p);
      assert s == [s[0]] + s[1..] && start == [start[0]] + start[1..];
      assert b == [b[0]] + b[1..];
    }
  }

  /** A scan key without a primary part is at most exactly the keys whose secondary key is at or after it. */
  lemma ScanKeyOrder(start: Key, k: IndexKey)
    requires NUL !in start && NUL !in k.secondary
    ensures AtMost(EncodeIndexScanKey(start, None).value, EncodeIndexKey(k).value) <==> AtMost(start, k.secondary)
  {
    var tail := k.secondary + [NUL] + k.primary;
    AtMostSecondary(start, k.secondary, k.primary);
    LessCons(NUL, start, tail);
    assert EncodeIndexScanKey(start, None).value == [NUL] + start;
    assert EncodeIndexKey(k).value == [NUL] + tail;
    assert [NUL] + start == [NUL] + tail ==> ([NUL] + start)[1..] == ([NUL] + tail)[1..];
  }
}
