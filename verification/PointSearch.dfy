/** Bisecting for the largest write rate that a configuration sustains. */
module PointSearch {
  import opened Wrappers

  datatype Status = Pass | Fail | Error

  /** The outcome of one benchmark attempt, as a function of the rate and the repetition. */
  type Attempts = (int, nat) -> Status

  datatype Config = Config(writeRateMin: int, writeRateMax: int, searchSteps: nat, repetitions: nat,
      continueOnError: bool)

  /** All repetitions at a rate pass. */
  ghost predicate RatePasses(attempts: Attempts, repetitions: nat, rate: int) {
    forall n :: 0 <= n < repetitions ==> attempts(rate, n).Pass?
  }

  /** A rate that passes passes at every lower rate too. */
  ghost predicate Monotone(attempts: Attempts, repetitions: nat) {
    forall lower, higher :: lower <= higher && RatePasses(attempts, repetitions, higher)
      ==> RatePasses(attempts, repetitions, lower)
  }

  function Pow2(n: nat): (p: nat)
    ensures p > 0
  {
    if n == 0 then 1 else 2 * Pow2(n - 1)
  }

  function Size(low: int, high: int): nat {
    if low <= high then high - low + 1 else 0
  }

  lemma Halved(now: nat, before: nat, p: nat, size: nat)
    requires 2 * now <= before && before * p <= size
    ensures now * (2 * p) <= size
  {
    assert now * (2 * p) == (2 * now) * p;
    assert (before - 2 * now) * p >= 0;
  }

  /** The first repetition that does not pass is an error, and errors are to stop the sweep. */
  ghost predicate RateThrows(attempts: Attempts, config: Config, rate: int) {
    !config.continueOnError && exists n: nat ::
      n < config.repetitions && attempts(rate, n).Error? && RatePasses(attempts, n, rate)
  }

  /** Runs the repetitions at one rate up to the first that does not pass. */
  method RunRate(attempts: Attempts, config: Config, rate: int) returns (passed: bool, threw: bool)
    ensures passed <==> RatePasses(attempts, config.repetitions, rate)
    ensures threw <==> RateThrows(attempts, config, rate)
    ensures threw ==> !passed
  {
    for n := 0 to config.repetitions
      invariant forall m :: 0 <= m < n ==> attempts(rate, m).Pass?
    {
      var status := attempts(rate, n);
      if status.Error? && !config.continueOnError {
        assert RatePasses(attempts, n, rate);
        return false, true;
      }
      if !status.Pass? {
        return false, false;
      }
    }
    return true, false;
  }

  ghost predicate AllPass(attempts: Attempts, config: Config, from: int, to: int) {
    forall rate :: from <= rate < to ==> RatePasses(attempts, config.repetitions, rate)
  }

  ghost predicate NonePasses(attempts: Attempts, config: Config, from: int, to: int) {
    forall rate :: from < rate <= to ==> !RatePasses(attempts, config.repetitions, rate)
  }

  /** What is known when the search has narrowed the rates down to those from `low` to `high`: the rate below passed,
    * the rate above did not, and if passing is monotone this holds of all rates below and above. */
  ghost predicate Narrowed(attempts: Attempts, config: Config, low: int, high: int, best: Option<int>) {
    && config.writeRateMin <= low && high <= config.writeRateMax
    && (low <= high + 1 || (low == config.writeRateMin && high == config.writeRateMax))
    && (config.writeRateMin < low ==> RatePasses(attempts, config.repetitions, low - 1))
    && (high < config.writeRateMax ==> !RatePasses(attempts, config.repetitions, high + 1))
    && best == (if low == config.writeRateMin then None else Some(low - 1))
    && (Monotone(attempts, config.repetitions) ==>
          AllPass(attempts, config, config.writeRateMin, low)
            && NonePasses(attempts, config, high, config.writeRateMax))
  }

  lemma Narrow(attempts: Attempts, config: Config, low: int, high: int, best: Option<int>, rate: int)
    requires Narrowed(attempts, config, low, high, best) && low <= rate <= high
    ensures RatePasses(attempts, config.repetitions, rate) ==> Narrowed(attempts, config, rate + 1, high, Some(rate))
    ensures !RatePasses(attempts, config.repetitions, rate) ==> Narrowed(attempts, config, low, rate - 1, best)
  {
    hide RatePasses;
  }

  /** The bounds that the search has after trying these rates: each is raised above a rate that passed, or lowered below
    * one that did not. */
  ghost function Bounds(attempts: Attempts, config: Config, tried: seq<int>): (int, int) {
    if tried == [] then (config.writeRateMin, config.writeRateMax)
    else
      var bounds, rate := Bounds(attempts, config, tried[..|tried| - 1]), tried[|tried| - 1];
      if RatePasses(attempts, config.repetitions, rate) then (rate + 1, bounds.1) else (bounds.0, rate - 1)
  }

  /** Every rate tried is the middle of the bounds before it, which still hold some rate. */
  ghost predicate TriedMiddles(attempts: Attempts, config: Config, tried: seq<int>) {
    tried == [] ||
      var before := tried[..|tried| - 1];
      var bounds := Bounds(attempts, config, before);
      TriedMiddles(attempts, config, before) && bounds.0 <= bounds.1
      && tried[|tried| - 1] == (bounds.0 + bounds.1) / 2
  }

  lemma OneMoreTried(attempts: Attempts, config: Config, tried: seq<int>, rate: int)
    requires TriedMiddles(attempts, config, tried)
    requires var bounds := Bounds(attempts, config, tried); bounds.0 <= bounds.1 && rate == (bounds.0 + bounds.1) / 2
    ensures TriedMiddles(attempts, config, tried + [rate])
    ensures var bounds := Bounds(attempts, config, tried);
      Bounds(attempts, config, tried + [rate])
      == if RatePasses(attempts, config.repetitions, rate) then (rate + 1, bounds.1) else (bounds.0, rate - 1)
  {
    assert (tried + [rate])[..|tried|] == tried;
  }

  /** The result is the largest rate that passes, or nothing and no rate passes. */
  ghost predicate IsLargestPassing(attempts: Attempts, config: Config, best: Option<int>) {
    match best
    case Some(b) =>
      config.writeRateMin <= b <= config.writeRateMax && RatePasses(attempts, config.repetitions, b)
      && NonePasses(attempts, config, b, config.writeRateMax)
    case None => NonePasses(attempts, config, config.writeRateMin - 1, config.writeRateMax)
  }

  /** The default search range and number of steps. */
  predicate HasDefaults(config: Config) {
    config.writeRateMin == 1 && config.writeRateMax == 100 && config.searchSteps == 7
  }

  /** The search.  Every step halves the undecided rates.  With a monotone pass predicate and enough steps to decide
    * them all, the result is the largest rate that passes, or nothing exactly if none does; with the defaults the
    * steps are enough.  `tried` lists the rates that were tried: the search throws if and only if the last of them
    * throws, and otherwise ends with the steps or when no rate is left. */
  method RunPointSearch(attempts: Attempts, config: Config)
    returns (bestWriteRate: Option<int>, lowerBound: int, upperBound: int, threw: bool, ghost tried: seq<int>)
    ensures TriedMiddles(attempts, config, tried) && |tried| <= config.searchSteps
    ensures forall i :: 0 <= i < |tried| ==>
      (RateThrows(attempts, config, tried[i]) <==> threw && i == |tried| - 1)
    ensures threw ==> tried != [] && config.writeRateMin <= tried[|tried| - 1] <= config.writeRateMax
    ensures !threw ==>
      (lowerBound, upperBound) == Bounds(attempts, config, tried)
      && (|tried| == config.searchSteps || lowerBound > upperBound)
    ensures !threw ==> Narrowed(attempts, config, lowerBound, upperBound, bestWriteRate)
    ensures !threw ==>
      Size(lowerBound, upperBound) * Pow2(config.searchSteps) <= Size(config.writeRateMin, config.writeRateMax)
    ensures !threw && Monotone(attempts, config.repetitions)
            && Size(config.writeRateMin, config.writeRateMax) < Pow2(config.searchSteps)
      ==> IsLargestPassing(attempts, config, bestWriteRate)
    ensures !threw && Monotone(attempts, config.repetitions) && HasDefaults(config)
      ==> IsLargestPassing(attempts, config, bestWriteRate)
  {
    hide RatePasses, Monotone, RateThrows, TriedMiddles, Bounds;
    tried := [];
    assert TriedMiddles(attempts, config, [])
      && Bounds(attempts, config, []) == (config.writeRateMin, config.writeRateMax)
    by { NothingTried(attempts, config); }
    var low, high, step := config.writeRateMin, config.writeRateMax, 0;
    bestWriteRate, threw := None, false;
    ghost var size := Size(low, high);
    while step < config.searchSteps && low <= high
      invariant 0 <= step <= config.searchSteps
      invariant Narrowed(attempts, config, low, high, bestWriteRate)
      invariant Size(low, high) * Pow2(step) <= size
      invariant |tried| == step && TriedMiddles(attempts, config, tried)
      invariant Bounds(attempts, config, tried) == (low, high)
      invariant forall rate :: rate in tried ==> !RateThrows(attempts, config, rate)
    {
      var writeRate := (low + high) / 2;
      var ratePassed, failed := RunRate(attempts, config, writeRate);
      OneMoreTried(attempts, config, tried, writeRate);
      tried := tried + [writeRate];
      if failed {
        return bestWriteRate, low, high, true, tried;
      }
      Narrow(attempts, config, low, high, bestWriteRate, writeRate);
      ghost var before := Size(low, high);
      if ratePassed {
        bestWriteRate := Some(writeRate);
        low := writeRate + 1;
      } else {
        high := writeRate - 1;
      }
      Halved(Size(low, high), before, Pow2(step), size);
      step := step + 1;
    }
    lowerBound, upperBound := low, high;
    NoneLeft(Size(low, high), Pow2(config.searchSteps), size);
    DefaultsSuffice();
  }

  lemma NothingTried(attempts: Attempts, config: Config)
    ensures TriedMiddles(attempts, config, [])
      && Bounds(attempts, config, []) == (config.writeRateMin, config.writeRateMax)
  {
  }

  lemma NoneLeft(left: nat, p: nat, size: nat)
    requires p > 0
    ensures left * p <= size < p ==> left == 0
  {
    if left > 0 { assert left * p >= p; }
  }

  /** The default search, 100 rates and 7 steps, decides every rate. */
  lemma DefaultsSuffice()
    ensures Size(1, 100) < Pow2(7)
  {
    assert Pow2(7) == 128;
  }
}
