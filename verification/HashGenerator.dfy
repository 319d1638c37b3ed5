/** The generator of "hashes": a random part followed by a counter, both in base 32. */
module HashGenerator {

  const RANDOM_LENGTH: nat := 12
  const COUNTER_LENGTH: nat := 10
  const STRING_LENGTH: nat := 22

  /** 32 to the power of `COUNTER_LENGTH`. */
  const PERIOD: nat := 0x4_0000_0000_0000

  /** From here on adding one to a JavaScript number changes nothing. */
  const MAX_COUNTER: nat := 0x20_0000_0000_0000

  function DigitChar(d: nat): (c: char)
    requires d < 32
    ensures '0' <= c <= '9' || 'a' <= c <= 'v'
  {
    if d < 10 then '0' + d as char else 'a' + (d - 10) as char
  }

  // ---------- the string functions ----------

  /** `n.toString(32)`. */
  function ToString32(n: nat): string {
    if n < 32 then [DigitChar(n)] else ToString32(n / 32) + [DigitChar(n % 32)]
  }

  /** `s.slice(-len)` for a positive `len`. */
  function SliceLast(s: string, len: nat): string {
    if |s| <= len then s else s[|s| - len..]
  }

  function Zeros(n: nat): string {
    seq(n, _ => '0')
  }

  function PadStart(s: string, len: nat): string {
    if |s| >= len then s else Zeros(len - |s|) + s
  }

  function ToStringAndSlice(n: nat, len: nat): string {
    PadStart(SliceLast(ToString32(n), len), len)
  }

  /** The last `len` digits of a number in base 32. */
  function LastDigits(n: nat, len: nat): (s: string)
    ensures |s| == len
    ensures forall c :: c in s ==> '0' <= c <= '9' || 'a' <= c <= 'v'
  {
    if len == 0 then "" else LastDigits(n / 32, len - 1) + [DigitChar(n % 32)]
  }

  lemma {:induction false} ZeroDigits(len: nat)
    ensures LastDigits(0, len) == Zeros(len)
  {
    if len > 0 {
      ZeroDigits(len - 1);
    }
  }

  lemma SliceAppend(s: string, c: char, len: nat)
    requires len > 0
    ensures SliceLast(s + [c], len) == SliceLast(s, len - 1) + [c]
  {
  }

  lemma PadAppend(s: string, c: char, len: nat)
    requires len > 0
    ensures PadStart(s + [c], len) == PadStart(s, len - 1) + [c]
  {
  }

  /** Slicing and padding yields exactly the last digits of the number. */
  lemma {:induction false} SliceIsLastDigits(n: nat, len: nat)
    requires len > 0
    ensures ToStringAndSlice(n, len) == LastDigits(n, len)
    decreases len
  {
    if n < 32 {
      ZeroDigits(len - 1);
      assert LastDigits(n, len) == LastDigits(0, len - 1) + [DigitChar(n)];
    } else {
      SliceAppend(ToString32(n / 32), DigitChar(n % 32), len);
      PadAppend(SliceLast(ToString32(n / 32), len - 1), DigitChar(n % 32), len);
      if len > 1 {
        SliceIsLastDigits(n / 32, len - 1);
      }
    }
  }

  // ---------- order and period ----------

  function Pow32(n: nat): nat {
    if n == 0 then 1 else 32 * Pow32(n - 1)
  }

  lemma PeriodIsPower()
    ensures Pow32(COUNTER_LENGTH) == PERIOD
  {
    assert Pow32(5) == 33554432;
    assert Pow32(10) == 32 * (32 * (32 * (32 * (32 * Pow32(5)))));
  }

  /** Lexicographic order of strings of equal length. */
  ghost predicate LexLess(a: string, b: string) {
    |a| == |b| && exists i :: 0 <= i < |a| && a[..i] == b[..i] && a[i] < b[i]
  }

  lemma LexLessDiffer(a: string, b: string)
    requires LexLess(a, b)
    ensures a != b
  {
  }

  lemma LexLessExtend(a: string, b: string, x: char, y: char)
    requires LexLess(a, b) || (a == b && x < y)
    ensures LexLess(a + [x], b + [y])
  {
    var i :| 0 <= i <= |a| && a[..i] == b[..i] && (if i == |a| then a == b && x < y else i < |b| && a[i] < b[i]);
    assert (a + [x])[..i] == a[..i] && (b + [y])[..i] == b[..i];
  }

  lemma LexLessPrefix(prefix: string, a: string, b: string)
    requires LexLess(a, b)
    ensures LexLess(prefix + a, prefix + b)
  {
    var i :| 0 <= i < |a| && a[..i] == b[..i] && a[i] < b[i];
    var j := |prefix| + i;
    assert (prefix + a)[..j] == prefix + a[..i] && (prefix + b)[..j] == prefix + b[..i];
    assert (prefix + a)[j] == a[i] && (prefix + b)[j] == b[i];
  }

  lemma DigitsAscend(d: nat, e: nat)
    requires d < e < 32
    ensures DigitChar(d) < DigitChar(e)
  {
  }

  /** Below the period, greater numbers have lexicographically greater digits. */
  lemma {:induction false} DigitsPreserveOrder(m: nat, n: nat, len: nat)
    requires m < n < Pow32(len)
    ensures LexLess(LastDigits(m, len), LastDigits(n, len))
    decreases len
  {
    var p, q := m / 32, n / 32;
    assert p <= q < Pow32(len - 1);
    if p < q {
      DigitsPreserveOrder(p, q, len - 1);
    } else {
      DigitsAscend(m % 32, n % 32);
    }
    LexLessExtend(LastDigits(p, len - 1), LastDigits(q, len - 1), DigitChar(m % 32), DigitChar(n % 32));
  }

  /** Adding the period changes no digit. */
  lemma {:induction false} DigitsRepeat(n: nat, len: nat)
    ensures LastDigits(n + Pow32(len), len) == LastDigits(n, len)
    decreases len
  {
    if len > 0 {
      var p := Pow32(len - 1);
      assert (n + 32 * p) / 32 == n / 32 + p && (n + 32 * p) % 32 == n % 32;
      DigitsRepeat(n / 32, len - 1);
    }
  }

  // ---------- the generator ----------

  /** `i++` on a JavaScript number. */
  function Increment(i: nat): nat {
    if i < MAX_COUNTER then i + 1 else i
  }

  /** The counter after `k` calls. */
  function Counter(k: nat): nat {
    if k <= MAX_COUNTER then k else MAX_COUNTER
  }

  /** The hash that the call after `k` calls returns. */
  function Output(base: string, k: nat): string {
    base + LastDigits(Counter(k), COUNTER_LENGTH)
  }

  class Generator {
    var base: string
    var i: nat
    ghost var calls: nat

    ghost predicate Valid()
      reads this
    {
      i == Counter(calls) && (base == "" ==> calls == 0) && (base != "" ==> |base| == RANDOM_LENGTH)
    }

    constructor ()
      ensures Valid() && calls == 0 && base == ""
    {
      base, i, calls := "", 0, 0;
    }

    /** `random` is the random 64-bit number, drawn on the first call only. */
    method NewHash(random: nat) returns (hash: string)
      requires Valid()
      modifies this
      ensures Valid() && calls == old(calls) + 1
      ensures base == if old(base) == "" then LastDigits(random, RANDOM_LENGTH) else old(base)
      ensures hash == Output(base, old(calls)) && |hash| == STRING_LENGTH
    {
      if base == "" {
        SliceIsLastDigits(random, RANDOM_LENGTH);
        base := ToStringAndSlice(random, RANDOM_LENGTH);
      }
      SliceIsLastDigits(i, COUNTER_LENGTH);
      var tail := ToStringAndSlice(i, COUNTER_LENGTH);
      i := Increment(i);
      calls := calls + 1;
      hash := base + tail;
    }
  }

  /** The first 2^50 hashes are strictly increasing, and so pairwise distinct. */
  lemma HashesIncrease(base: string, j: nat, k: nat)
    requires j < k < PERIOD
    ensures LexLess(Output(base, j), Output(base, k)) && Output(base, j) != Output(base, k)
  {
    PeriodIsPower();
    DigitsPreserveOrder(j, k, COUNTER_LENGTH);
    LexLessPrefix(base, LastDigits(j, COUNTER_LENGTH), LastDigits(k, COUNTER_LENGTH));
    LexLessDiffer(Output(base, j), Output(base, k));
  }

  /** The last ten digits are those of the remainder modulo 2^50. */
  lemma {:induction false} DigitsOfRemainder(n: nat, times: nat)
    ensures LastDigits(n + times * PERIOD, COUNTER_LENGTH) == LastDigits(n, COUNTER_LENGTH)
    decreases times
  {
    hide LastDigits, Pow32;
    if times > 0 {
      PeriodIsPower();
      DigitsOfRemainder(n, times - 1);
      DigitsRepeat(n + (times - 1) * PERIOD, COUNTER_LENGTH);
    }
  }

  lemma DigitsModulo(n: nat)
    ensures LastDigits(n, COUNTER_LENGTH) == LastDigits(n % PERIOD, COUNTER_LENGTH)
  {
    DigitsOfRemainder(n % PERIOD, n / PERIOD);
  }

  lemma OutputTail(base: string, k: nat)
    ensures Output(base, k)[|base|..] == LastDigits(Counter(k), COUNTER_LENGTH)
  {
  }

  /** As long as the counter still counts, two hashes are equal if and only if their numbers are congruent modulo 2^50:
    * the hashes repeat with exactly that period. */
  lemma HashesEqualIff(base: string, j: nat, k: nat)
    requires j <= MAX_COUNTER && k <= MAX_COUNTER
    ensures Output(base, j) == Output(base, k) <==> j % PERIOD == k % PERIOD
  {
    DigitsModulo(j);
    DigitsModulo(k);
    OutputTail(base, j);
    OutputTail(base, k);
    var a, b := j % PERIOD, k % PERIOD;
    PeriodIsPower();
    if a < b {
      DigitsPreserveOrder(a, b, COUNTER_LENGTH);
      LexLessDiffer(LastDigits(a, COUNTER_LENGTH), LastDigits(b, COUNTER_LENGTH));
    } else if b < a {
      DigitsPreserveOrder(b, a, COUNTER_LENGTH);
      LexLessDiffer(LastDigits(b, COUNTER_LENGTH), LastDigits(a, COUNTER_LENGTH));
    }
  }

  /** Once the counter has reached 2^53 every further hash is the same. */
  lemma HashesGetStuck(base: string, j: nat, k: nat)
    requires MAX_COUNTER <= j && MAX_COUNTER <= k
    ensures Output(base, j) == Output(base, k) == base + Zeros(COUNTER_LENGTH)
  {
    DigitsModulo(MAX_COUNTER);
    ZeroDigits(COUNTER_LENGTH);
  }
}
