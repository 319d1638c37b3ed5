/** The shared binary search, and what it finds when several elements are equal to the one sought. */
module BinarySearch {

  /** `compare(i)` is positive below the sought element, zero at it, and negative above it. */
  ghost predicate Ordered(high: nat, compare: nat -> int) {
    forall i, j :: 0 <= i < j < high ==> (compare(i) <= 0 ==> compare(j) <= 0) && (compare(i) < 0 ==> compare(j) < 0)
  }

  /** Every element before `i` is less than the sought one, and none from `i` on is. */
  ghost predicate IsFirstAtLeast(i: nat, high: nat, compare: nat -> int) {
    && i <= high
    && (forall j :: 0 <= j < i ==> compare(j) > 0)
    && (forall j :: i <= j < high ==> compare(j) <= 0)
  }

  /** The position the search ends at, started on the range from `low` to `high`. */
  function Position(low: nat, high: nat, compare: nat -> int): (r: nat)
    requires low <= high
    ensures low <= r <= high
    decreases high - low
  {
    if low == high then low else
      var mid := low + (high - low) / 2;
      if compare(mid) == 0 then mid
      else if compare(mid) > 0 then Position(mid + 1, high, compare)
      else Position(low, mid, compare)
  }

  method Search(high: nat, compare: nat -> int) returns (r: nat)
    ensures r == Position(0, high, compare)
  {
    var low: nat, high': nat := 0, high;
    while low < high'
      invariant low <= high' <= high
      invariant Position(low, high', compare) == Position(0, high, compare)
    {
      var mid := low + (high' - low) / 2;
      var i := compare(mid);
      if i == 0 {
        return mid;
      }
      if i > 0 {
        low := mid + 1;
      } else {
        high' := mid;
      }
    }
    return low;
  }

  /** The result is equal to the sought element, or the first one above it. */
  ghost predicate Landed(r: nat, n: nat, compare: nat -> int) {
    r <= n && ((r < n && compare(r) == 0) || (IsFirstAtLeast(r, n, compare) && (r < n ==> compare(r) < 0)))
  }

  ghost predicate AllBelow(low: nat, compare: nat -> int) {
    forall j :: 0 <= j < low ==> compare(j) > 0
  }

  ghost predicate AllAbove(high: nat, n: nat, compare: nat -> int) {
    forall j :: high <= j < n ==> compare(j) < 0
  }

  lemma OneDecides(n: nat, mid: nat, compare: nat -> int)
    requires Ordered(n, compare) && mid < n
    ensures compare(mid) > 0 ==> AllBelow(mid + 1, compare)
    ensures compare(mid) < 0 ==> AllAbove(mid, n, compare)
  {
  }

  lemma OutsideDecides(i: nat, n: nat, compare: nat -> int)
    requires i <= n && AllBelow(i, compare) && AllAbove(i, n, compare)
    ensures Landed(i, n, compare)
  {
  }

  lemma {:induction false} PositionWithin(low: nat, high: nat, n: nat, compare: nat -> int)
    requires low <= high <= n && Ordered(n, compare) && AllBelow(low, compare) && AllAbove(high, n, compare)
    ensures Landed(Position(low, high, compare), n, compare)
    decreases high - low
  {
    hide AllBelow, AllAbove, Ordered, IsFirstAtLeast;
    if low == high {
      OutsideDecides(low, n, compare);
    } else {
      var mid := low + (high - low) / 2;
      OneDecides(n, mid, compare);
      if compare(mid) > 0 {
        PositionWithin(mid + 1, high, n, compare);
      } else if compare(mid) < 0 {
        PositionWithin(low, mid, n, compare);
      }
    }
  }

  /** The search finds an element equal to the sought one if there is one, and otherwise the first greater one. */
  lemma SearchFinds(n: nat, compare: nat -> int)
    requires Ordered(n, compare)
    ensures Landed(Position(0, n, compare), n, compare)
  {
    PositionWithin(0, n, n, compare);
  }

  /** One search meets the documented promise, the first element at or above the sought one, exactly when the element
    * before the result is not itself equal to the sought one. */
  lemma FirstIff(n: nat, compare: nat -> int)
    requires Ordered(n, compare)
    ensures var r := Position(0, n, compare);
      IsFirstAtLeast(r, n, compare) <==> r == 0 || compare(r - 1) != 0
  {
    SearchFinds(n, compare);
  }

  // ---------- how many equal elements the search copes with ----------

  function EqualCount(n: nat, compare: nat -> int): (k: nat)
    ensures k <= n
  {
    if n == 0 then 0 else EqualCount(n - 1, compare) + if compare(n - 1) == 0 then 1 else 0
  }

  lemma {:induction false} CountTwo(n: nat, compare: nat -> int, i: nat, j: nat)
    requires i < j < n && compare(i) == 0 && compare(j) == 0
    ensures EqualCount(n, compare) >= 2
  {
    if j < n - 1 {
      CountTwo(n - 1, compare, i, j);
    } else {
      CountOne(n - 1, compare, i);
    }
  }

  lemma {:induction false} CountOne(n: nat, compare: nat -> int, i: nat)
    requires i < n && compare(i) == 0
    ensures EqualCount(n, compare) >= 1
  {
    if i < n - 1 {
      CountOne(n - 1, compare, i);
    }
  }

  /** The comparisons of a haystack with exactly the elements from `a` to `a + k` equal to the sought one. */
  function Block(a: nat, k: nat): nat -> int {
    (i: nat) => if i < a then 1 else if i < a + k then 0 else -1
  }

  lemma {:induction false} BlockCount(n: nat, a: nat, k: nat)
    ensures EqualCount(n, Block(a, k)) == if n <= a then 0 else if n <= a + k then n - a else k
  {
    if n > 0 {
      BlockCount(n - 1, a, k);
    }
  }

  /** An ordered haystack with `k` equal elements whose middle element, and the one before it, are equal. */
  lemma MiddleBlock(n: nat, k: nat) returns (compare: nat -> int)
    requires 2 <= k <= n
    ensures Ordered(n, compare) && EqualCount(n, compare) == k && !IsFirstAtLeast(Position(0, n, compare), n, compare)
  {
    var mid := n / 2;
    var a := if mid - 1 + k <= n then mid - 1 else n - k;
    compare := Block(a, k);
    BlockCount(n, a, k);
    assert compare(mid - 1) == 0 && compare(mid) == 0;
    assert Position(0, n, compare) == mid;
  }

  /** What a caller can rely on: all haystacks of `n` elements of which `k` equal the sought one are searched as
    * documented if and only if `k` is at most one. */
  lemma DocumentedIff(n: nat, k: nat)
    requires k <= n
    ensures (forall compare :: Ordered(n, compare) && EqualCount(n, compare) == k
               ==> IsFirstAtLeast(Position(0, n, compare), n, compare))
       <==> k <= 1
  {
    if k <= 1 {
      forall compare | Ordered(n, compare) && EqualCount(n, compare) == k
        ensures IsFirstAtLeast(Position(0, n, compare), n, compare)
      {
        OneIsFirst(n, compare);
      }
    } else {
      var compare := MiddleBlock(n, k);
    }
  }

  lemma OneIsFirst(n: nat, compare: nat -> int)
    requires Ordered(n, compare) && EqualCount(n, compare) <= 1
    ensures IsFirstAtLeast(Position(0, n, compare), n, compare)
  {
    SearchFinds(n, compare);
    FirstIff(n, compare);
    var r := Position(0, n, compare);
    if 0 < r && compare(r - 1) == 0 {
      CountTwo(n, compare, r - 1, r);
    }
  }
}
