/** Lists of deleted clients: kept sorted and free of duplicates, merged and subtracted by walking both lists. */
module DeletedClients {
  import opened Keys
  import E = Entries

  datatype ClientIDPair = ClientIDPair(clientGroupID: Key, clientID: Key)

  type Clients = seq<ClientIDPair>

  function ComparePairs(a: ClientIDPair, b: ClientIDPair): int {
    var cg := Compare(a.clientGroupID, b.clientGroupID);
    if cg != 0 then cg else Compare(a.clientID, b.clientID)
  }

  predicate Before(a: ClientIDPair, b: ClientIDPair) {
    ComparePairs(a, b) < 0
  }

  lemma PairOrder(a: ClientIDPair, b: ClientIDPair)
    ensures ComparePairs(a, b) == 0 <==> a == b
    ensures ComparePairs(a, b) > 0 <==> Before(b, a)
    ensures Before(a, b) ==> a != b && !Before(b, a)
  {
    Trichotomy(a.clientGroupID, b.clientGroupID);
    Trichotomy(a.clientID, b.clientID);
  }

  lemma PairTransitive(a: ClientIDPair, b: ClientIDPair, c: ClientIDPair)
    requires Before(a, b) && Before(b, c)
    ensures Before(a, c)
  {
    if a.clientGroupID == b.clientGroupID == c.clientGroupID {
      LessTransitive(a.clientID, b.clientID, c.clientID);
      LessAsymmetric(a.clientID, c.clientID);
    } else if a.clientGroupID != b.clientGroupID && b.clientGroupID != c.clientGroupID {
      LessTransitive(a.clientGroupID, b.clientGroupID, c.clientGroupID);
      LessAsymmetric(a.clientGroupID, c.clientGroupID);
    }
  }

  ghost predicate StrictlySorted(cs: Clients) {
    forall i, j :: 0 <= i < j < |cs| ==> Before(cs[i], cs[j])
  }

  ghost predicate Sorted(cs: Clients) {
    forall i, j :: 0 <= i < j < |cs| ==> cs[i] == cs[j] || Before(cs[i], cs[j])
  }

  ghost predicate AllBefore(cs: Clients, p: ClientIDPair) {
    forall q :: q in cs ==> Before(q, p)
  }

  // ---------- normalising ----------

  function Insert(p: ClientIDPair, cs: Clients): Clients {
    if cs == [] then [p] else if Before(cs[0], p) then [cs[0]] + Insert(p, cs[1..]) else [p] + cs
  }

  /** `toSorted(compare)`. */
  function ToSorted(cs: Clients): Clients {
    if cs == [] then [] else Insert(cs[0], ToSorted(cs[1..]))
  }

  lemma {:induction false} InsertSorts(p: ClientIDPair, cs: Clients)
    requires Sorted(cs)
    ensures Sorted(Insert(p, cs))
    ensures forall q :: q in Insert(p, cs) <==> q == p || q in cs
  {
    if cs != [] {
      PairOrder(cs[0], p);
      if Before(cs[0], p) {
        InsertSorts(p, cs[1..]);
        var rest := Insert(p, cs[1..]);
        forall j | 0 <= j < |rest| ensures cs[0] == rest[j] || Before(cs[0], rest[j]) {
          assert rest[j] in rest;
        }
      } else {
        forall j | 0 <= j < |cs| ensures p == cs[j] || Before(p, cs[j]) {
          if p != cs[0] && j > 0 && cs[0] != cs[j] { PairTransitive(p, cs[0], cs[j]); }
        }
      }
    }
  }

  lemma {:induction false} ToSortedSorts(cs: Clients)
    ensures Sorted(ToSorted(cs)) && forall q :: q in ToSorted(cs) <==> q in cs
  {
    if cs != [] {
      ToSortedSorts(cs[1..]);
      InsertSorts(cs[0], ToSorted(cs[1..]));
      assert cs == [cs[0]] + cs[1..];
    }
  }

  lemma AppendSorted(cs: Clients, p: ClientIDPair)
    requires StrictlySorted(cs) && AllBefore(cs, p)
    ensures StrictlySorted(cs + [p])
    ensures forall q :: q in cs + [p] <==> q in cs || q == p
  {
  }

  method NormalizeDeletedClients(cs: Clients) returns (r: Clients)
    ensures StrictlySorted(r) && forall q :: q in r <==> q in cs
  {
    var arr := ToSorted(cs);
    ToSortedSorts(cs);
    r := [];
    for i := 0 to |arr|
      invariant StrictlySorted(r) && forall q :: q in r <==> q in arr[..i]
    {
      E.TakeMembers(arr, i);
      if i > 0 { PairOrder(arr[i], arr[i - 1]); }
      if i == 0 || ComparePairs(arr[i], arr[i - 1]) != 0 {
        forall q | q in r ensures Before(q, arr[i]) {
          var j :| 0 <= j < i && arr[j] == q;
          if q != arr[i - 1] && j < i - 1 { PairTransitive(q, arr[i - 1], arr[i]); }
        }
        AppendSorted(r, arr[i]);
        r := r + [arr[i]];
      } else {
        assert arr[i - 1] in arr[..i];
      }
    }
    assert arr[..|arr|] == arr;
  }

  // ---------- merging ----------

  /** The strictly sorted union. */
  ghost predicate IsMergeOf(r: Clients, a: Clients, b: Clients) {
    StrictlySorted(r) && forall q :: q in r <==> q in a || q in b
  }

  /** The strictly sorted difference. */
  ghost predicate IsRemovalOf(r: Clients, a: Clients, b: Clients) {
    StrictlySorted(r) && forall q :: q in r <==> q in a && q !in b
  }

  /** The merge after `i` pairs of `a` and `j` of `b`. */
  ghost predicate Merging(r: Clients, a: Clients, i: nat, b: Clients, j: nat)
    requires i <= |a| && j <= |b|
  {
    && IsMergeOf(r, a[..i], b[..j])
    && (i < |a| ==> AllBefore(r, a[i])) && (j < |b| ==> AllBefore(r, b[j]))
  }

  lemma BeforeNext(r: Clients, cs: Clients, i: nat)
    requires StrictlySorted(cs) && i < |cs| && AllBefore(r, cs[i])
    ensures i + 1 < |cs| ==> AllBefore(r + [cs[i]], cs[i + 1])
  {
    if i + 1 < |cs| {
      forall q | q in r + [cs[i]] ensures Before(q, cs[i + 1]) {
        if q in r { PairTransitive(q, cs[i], cs[i + 1]); }
      }
    }
  }

  /** Emitting the head of one list, which is before what is left of the other. */
  lemma EmitOne(r: Clients, a: Clients, i: nat, b: Clients, j: nat)
    requires StrictlySorted(a) && i < |a| && j <= |b| && Merging(r, a, i, b, j)
    requires j < |b| ==> Before(a[i], b[j])
    ensures Merging(r + [a[i]], a, i + 1, b, j)
  {
    E.TakeMembers(a, i);
    AppendSorted(r, a[i]);
    BeforeNext(r, a, i);
  }

  lemma EmitBoth(r: Clients, a: Clients, i: nat, b: Clients, j: nat)
    requires StrictlySorted(a) && StrictlySorted(b) && i < |a| && j < |b| && Merging(r, a, i, b, j) && a[i] == b[j]
    ensures Merging(r + [a[i]], a, i + 1, b, j + 1)
  {
    E.TakeMembers(a, i);
    E.TakeMembers(b, j);
    AppendSorted(r, a[i]);
    BeforeNext(r, a, i);
    BeforeNext(r, b, j);
  }

  lemma MergingSymmetric(r: Clients, a: Clients, i: nat, b: Clients, j: nat)
    requires i <= |a| && j <= |b| && Merging(r, a, i, b, j)
    ensures Merging(r, b, j, a, i)
  {
  }

  method MergeDeletedClients(a: Clients, b: Clients) returns (merged: Clients)
    ensures IsMergeOf(merged, a, b)
  {
    hide StrictlySorted, Merging;
    merged := [];
    var na := NormalizeDeletedClients(a);
    var nb := NormalizeDeletedClients(b);
    var i, j := 0, 0;
    MergingInitially(na, nb);
    while i < |na| || j < |nb|
      invariant i <= |na| && j <= |nb| && Merging(merged, na, i, nb, j)
      decreases |na| - i + |nb| - j
    {
      if i < |na| && j < |nb| { PairOrder(na[i], nb[j]); PairOrder(nb[j], na[i]); }
      if i < |na| && (j >= |nb| || ComparePairs(na[i], nb[j]) < 0) {
        EmitOne(merged, na, i, nb, j);
        merged := merged + [na[i]];
        i := i + 1;
      } else if j < |nb| && (i >= |na| || ComparePairs(nb[j], na[i]) < 0) {
        MergingSymmetric(merged, na, i, nb, j);
        EmitOne(merged, nb, j, na, i);
        MergingSymmetric(merged + [nb[j]], nb, j + 1, na, i);
        merged := merged + [nb[j]];
        j := j + 1;
      } else {
        EmitBoth(merged, na, i, nb, j);
        merged := merged + [na[i]];
        i, j := i + 1, j + 1;
      }
    }
    MergingFinally(merged, na, nb);
  }

  lemma MergingInitially(a: Clients, b: Clients)
    ensures Merging([], a, 0, b, 0)
  {
  }

  lemma MergingFinally(r: Clients, a: Clients, b: Clients)
    requires Merging(r, a, |a|, b, |b|)
    ensures IsMergeOf(r, a, b)
  {
    assert a[..|a|] == a && b[..|b|] == b;
  }

  // ---------- removing ----------

  /** The removal after `i` pairs of `old_` and `j` of `gone`, which are all before what is left of `old_`. */
  ghost predicate Removing(r: Clients, kept: Clients, i: nat, gone: Clients, j: nat)
    requires i <= |kept| && j <= |gone|
  {
    IsRemovalOf(r, kept[..i], gone) && (i < |kept| ==> AllBefore(r, kept[i]) && AllBefore(gone[..j], kept[i]))
  }

  /** Deciding the next pair: it stays if it is not to be removed, and goes if it is equal to the next one to be. */
  lemma RemovingNext(r: Clients, kept: Clients, i: nat, gone: Clients, j: nat, stays: bool)
    requires StrictlySorted(kept) && StrictlySorted(gone) && i < |kept| && j <= |gone| && Removing(r, kept, i, gone, j)
    requires if stays then j < |gone| ==> Before(kept[i], gone[j]) else j < |gone| && kept[i] == gone[j]
    ensures Removing(if stays then r + [kept[i]] else r, kept, i + 1, gone, if stays then j else j + 1)
  {
    E.TakeMembers(kept, i);
    AppendSorted(r, kept[i]);
    BeforeNext(r, kept, i);
    BeforeNext(gone[..j], kept, i);
    if stays {
      forall q | q in gone ensures q != kept[i] {
        var n :| 0 <= n < |gone| && gone[n] == q;
        if n < j {
          assert q in gone[..j];
          PairOrder(q, kept[i]);
        } else {
          PairOrder(kept[i], q);
          if j < n { PairTransitive(kept[i], gone[j], q); }
        }
      }
    } else {
      E.TakeMembers(gone, j);
    }
  }

  lemma RemovingSkip(r: Clients, kept: Clients, i: nat, gone: Clients, j: nat)
    requires i < |kept| && j < |gone| && Removing(r, kept, i, gone, j) && Before(gone[j], kept[i])
    ensures Removing(r, kept, i, gone, j + 1)
  {
    E.TakeMembers(gone, j);
  }

  method RemoveFromDeletedClients(kept: Clients, toRemove: Clients) returns (result: Clients)
    ensures IsRemovalOf(result, kept, toRemove)
  {
    hide StrictlySorted, Removing;
    result := [];
    var nk := NormalizeDeletedClients(kept);
    var nr := NormalizeDeletedClients(toRemove);
    var i, j := 0, 0;
    RemovingInitially(nk, nr);
    while i < |nk|
      invariant i <= |nk| && j <= |nr| && Removing(result, nk, i, nr, j)
      decreases |nk| - i + |nr| - j
    {
      if j < |nr| { PairOrder(nk[i], nr[j]); }
      if j >= |nr| || ComparePairs(nk[i], nr[j]) < 0 {
        RemovingNext(result, nk, i, nr, j, true);
        result := result + [nk[i]];
        i := i + 1;
      } else if j < |nr| && ComparePairs(nk[i], nr[j]) == 0 {
        RemovingNext(result, nk, i, nr, j, false);
        i, j := i + 1, j + 1;
      } else {
        RemovingSkip(result, nk, i, nr, j);
        j := j + 1;
      }
    }
    RemovingFinally(result, nk, nr, j);
  }

  lemma RemovingInitially(a: Clients, b: Clients)
    ensures Removing([], a, 0, b, 0)
  {
  }

  lemma RemovingFinally(r: Clients, a: Clients, b: Clients, j: nat)
    requires j <= |b| && Removing(r, a, |a|, b, j)
    ensures IsRemovalOf(r, a, b)
  {
    assert a[..|a|] == a;
  }

  // ---------- the laws ----------

  lemma {:induction false} SortedUnique(a: Clients, b: Clients)
    requires StrictlySorted(a) && StrictlySorted(b) && forall q :: q in a <==> q in b
    ensures a == b
  {
    assert b != [] ==> b[0] in a;
    if a != [] {
      assert a[0] in b;
      HeadFirst(a, b[0]);
      HeadFirst(b, a[0]);
      PairOrder(a[0], b[0]);
      PairOrder(b[0], a[0]);
      forall q ensures q in a[1..] <==> q in b[1..] {
        TailMembers(a, q);
        TailMembers(b, q);
      }
      SortedUnique(a[1..], b[1..]);
      assert a == [a[0]] + a[1..] && b == [b[0]] + b[1..];
    }
  }

  lemma HeadFirst(cs: Clients, q: ClientIDPair)
    requires StrictlySorted(cs) && q in cs
    ensures q == cs[0] || Before(cs[0], q)
  {
  }

  lemma TailMembers(cs: Clients, q: ClientIDPair)
    requires StrictlySorted(cs) && cs != []
    ensures q in cs[1..] <==> q in cs && q != cs[0]
  {
    if q in cs[1..] {
      var i :| 1 <= i < |cs| && cs[i] == q;
      PairOrder(cs[0], cs[i]);
    }
  }

  /** Merging does not depend on the order of its arguments, on grouping, or on repetition. */
  lemma MergeLaws(a: Clients, b: Clients, c: Clients, ab: Clients, ba: Clients, bc: Clients, abC: Clients, aBC: Clients,
      aa: Clients, na: Clients)
    requires IsMergeOf(ab, a, b) && IsMergeOf(ba, b, a) && IsMergeOf(bc, b, c)
    requires IsMergeOf(abC, ab, c) && IsMergeOf(aBC, a, bc)
    requires IsMergeOf(aa, a, a) && IsMergeOf(na, a, [])
    ensures ab == ba && abC == aBC && aa == na
  {
    SortedUnique(ab, ba);
    SortedUnique(abC, aBC);
    SortedUnique(aa, na);
  }

  /** Removing what was merged in is the same as removing it from the original. */
  lemma RemoveAfterMerge(a: Clients, b: Clients, ab: Clients, r: Clients, r': Clients)
    requires IsMergeOf(ab, a, b) && IsRemovalOf(r, ab, b) && IsRemovalOf(r', a, b)
    ensures r == r'
  {
    SortedUnique(r, r');
  }
}
