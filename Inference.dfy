/**
 * The arithmetic that turns bootstrap statistics into a verdict: the
 * empirical p-value (`calculate_p_value` and its inline copies) and the
 * maximum-difference step of `calculate_ks_statistic`. The fitted survival
 * functions and the Nelson-Aalen estimates are inputs: the fitting library
 * is not part of this model.
 */
module Inference {
  import opened Wrappers

  /** The exception kinds that matter to the bootstrap loops. */
  datatype PyError = RuntimeWarning | ValueError | OtherError

  /** The kinds the bootstrap's `except (RuntimeWarning, ValueError)` catches. */
  predicate Caught(e: PyError)
  {
    e.RuntimeWarning? || e.ValueError?
  }

  /** What one call of `calculate_ks_statistic` produces: the two statistics, or an exception. */
  datatype KsResult = Statistics(weibull: real, exponential: real) | Raised(error: PyError)

  /** A numpy quotient: `0 / 0` is NaN (with a printed warning), not an exception. */
  datatype Ratio = Fraction(value: real) | NotANumber

  /** `np.sum(np.array(values) >= original)`. */
  function CountAtLeast(values: seq<real>, original: real): (r: nat)
    ensures r <= |values|
    ensures r == |values| <==> forall i :: 0 <= i < |values| ==> original <= values[i]
    ensures r == 0 <==> forall i :: 0 <= i < |values| ==> values[i] < original
  {
    if values == [] then 0
    else (if values[0] >= original then 1 else 0) + CountAtLeast(values[1..], original)
  }

  /** `calculate_p_value`: the share of bootstrap values at or above the observed one. */
  function PValue(values: seq<real>, original: real): (r: Ratio)
    ensures r.NotANumber? <==> |values| == 0
    ensures r.Fraction? ==>
      && 0.0 <= r.value <= 1.0
      && r.value * |values| as real == CountAtLeast(values, original) as real
  {
    if |values| == 0 then NotANumber
    else
      var count := CountAtLeast(values, original);
      FractionBounds(count, |values|);
      Fraction(count as real / |values| as real)
  }

  lemma FractionBounds(count: nat, n: nat)
    requires 0 < n && count <= n
    ensures 0.0 <= count as real / n as real <= 1.0
  {
    assert count as real / n as real * n as real == count as real;
  }

  /** The p-value is 1 when the observed value is at or below every bootstrap value. */
  lemma PValueOneAtOrBelowMinimum(values: seq<real>, original: real)
    requires |values| > 0
    requires forall i :: 0 <= i < |values| ==> original <= values[i]
    ensures PValue(values, original) == Fraction(1.0)
  {
  }

  /** The p-value is 0 when the observed value exceeds every bootstrap value. */
  lemma PValueZeroAboveMaximum(values: seq<real>, original: real)
    requires |values| > 0
    requires forall i :: 0 <= i < |values| ==> values[i] < original
    ensures PValue(values, original) == Fraction(0.0)
  {
  }

  lemma {:induction false} CountAtLeastNonIncreasing(values: seq<real>, lower: real, higher: real)
    requires lower <= higher
    ensures CountAtLeast(values, higher) <= CountAtLeast(values, lower)
  {
    if values != [] {
      CountAtLeastNonIncreasing(values[1..], lower, higher);
    }
  }

  /** A larger observed value never gets a larger p-value. */
  lemma PValueNonIncreasing(values: seq<real>, lower: real, higher: real)
    requires |values| > 0
    requires lower <= higher
    ensures PValue(values, higher).value <= PValue(values, lower).value
  {
    CountAtLeastNonIncreasing(values, lower, higher);
    DivideMonotone(CountAtLeast(values, higher) as real, CountAtLeast(values, lower) as real, |values| as real);
  }

  lemma DivideMonotone(a: real, b: real, n: real)
    requires a <= b && 0.0 < n
    ensures a / n <= b / n
  {
  }

  function Abs(x: real): real
  {
    if x < 0.0 then -x else x
  }

  /** `max(s)`. */
  function Max(s: seq<real>): (r: real)
    requires |s| > 0
    ensures forall i :: 0 <= i < |s| ==> s[i] <= r
    ensures exists i :: 0 <= i < |s| && s[i] == r
  {
    if |s| == 1 then s[0]
    else
      var rest := Max(s[1..]);
      if s[0] >= rest then s[0] else rest
  }

  /** `[abs(est - sf(x)) for est, x in zip(estimates, points)]`; `zip` stops at the shorter. */
  function Differences(estimates: seq<real>, points: seq<real>, sf: real -> real): (r: seq<real>)
    ensures |r| == if |estimates| < |points| then |estimates| else |points|
  {
    var n := if |estimates| < |points| then |estimates| else |points|;
    seq(n, i requires 0 <= i < n => Abs(estimates[i] - sf(points[i])))
  }

  /**
   * The maximum difference between the non-parametric estimates and a
   * survival function over the paired points; `max` of an empty list raises
   * ValueError.
   */
  function MaxDifference(estimates: seq<real>, points: seq<real>, sf: real -> real): (r: Result<real, PyError>)
    ensures r.Failure? <==> |estimates| == 0 || |points| == 0
    ensures r.Failure? ==> r.error == ValueError
    ensures r.Success? ==>
      && 0.0 <= r.value
      && (forall i :: 0 <= i < |estimates| && i < |points| ==> Abs(estimates[i] - sf(points[i])) <= r.value)
      && (exists i :: 0 <= i < |estimates| && i < |points| && Abs(estimates[i] - sf(points[i])) == r.value)
  {
    var diffs := Differences(estimates, points, sf);
    if |diffs| == 0 then Failure(ValueError)
    else
      var m := Max(diffs);
      assert forall i :: 0 <= i < |diffs| ==> diffs[i] == Abs(estimates[i] - sf(points[i]));
      assert diffs[0] <= m;
      Success(m)
  }

  /** Both statistics of `calculate_ks_statistic` from the Nelson-Aalen values and the two fitted survival functions. */
  function KsStatistic(estimates: seq<real>, points: seq<real>, weibullSf: real -> real, exponentialSf: real -> real): (r: KsResult)
    ensures r.Raised? <==> |estimates| == 0 || |points| == 0
    ensures r.Raised? ==> r.error == ValueError
    ensures r.Statistics? ==>
      && r.weibull == MaxDifference(estimates, points, weibullSf).value
      && r.exponential == MaxDifference(estimates, points, exponentialSf).value
      && 0.0 <= r.weibull && 0.0 <= r.exponential
  {
    match MaxDifference(estimates, points, weibullSf)
    case Failure(e) => Raised(e)
    case Success(w) =>
      match MaxDifference(estimates, points, exponentialSf)
      case Failure(e) => Raised(e)
      case Success(x) => Statistics(w, x)
  }

  /**
   * The for-loops of the sequential bootstraps over their per-iteration
   * outcomes: statistics are kept in pairs, a caught exception skips the
   * iteration, any other exception ends the whole run.
   */
  function CollectStatistics(outcomes: seq<KsResult>): (r: Result<seq<(real, real)>, PyError>)
    ensures r.Success? ==> |r.value| <= |outcomes|
    ensures r.Failure? ==> !Caught(r.error) && Raised(r.error) in outcomes
  {
    if outcomes == [] then Success([])
    else
      match CollectStatistics(outcomes[..|outcomes| - 1])
      case Failure(e) => Failure(e)
      case Success(kept) =>
        match outcomes[|outcomes| - 1]
        case Statistics(w, x) => Success(kept + [(w, x)])
        case Raised(e) => if Caught(e) then Success(kept) else Failure(e)
  }

  /** How many iterations produced statistics. */
  function Successes(outcomes: seq<KsResult>): (r: nat)
    ensures r <= |outcomes|
  {
    if outcomes == [] then 0
    else Successes(outcomes[..|outcomes| - 1]) + (if outcomes[|outcomes| - 1].Statistics? then 1 else 0)
  }

  /**
   * The collection fails exactly when some iteration raises an exception the
   * loop does not catch; otherwise it keeps one pair per successful
   * iteration, at most one per iteration.
   */
  lemma {:induction false} CollectStatisticsCount(outcomes: seq<KsResult>)
    ensures var r := CollectStatistics(outcomes);
      && (r.Failure? <==> exists i :: 0 <= i < |outcomes| && outcomes[i].Raised? && !Caught(outcomes[i].error))
      && (r.Failure? ==> !Caught(r.error))
      && (r.Success? ==> |r.value| == Successes(outcomes) <= |outcomes|)
  {
    if outcomes != [] {
      var front := outcomes[..|outcomes| - 1];
      CollectStatisticsCount(front);
      assert forall i :: 0 <= i < |front| ==> front[i] == outcomes[i];
    }
  }

  /** The Weibull statistics of the kept pairs. */
  function WeibullColumn(kept: seq<(real, real)>): (r: seq<real>)
    ensures |r| == |kept|
  {
    seq(|kept|, i requires 0 <= i < |kept| => kept[i].0)
  }

  /** The Exponential statistics of the kept pairs. */
  function ExponentialColumn(kept: seq<(real, real)>): (r: seq<real>)
    ensures |r| == |kept|
  {
    seq(|kept|, i requires 0 <= i < |kept| => kept[i].1)
  }

  /** Taking columns commutes with appending pairs. */
  lemma ColumnsConcat(a: seq<(real, real)>, b: seq<(real, real)>)
    ensures WeibullColumn(a + b) == WeibullColumn(a) + WeibullColumn(b)
    ensures ExponentialColumn(a + b) == ExponentialColumn(a) + ExponentialColumn(b)
  {
    assert forall i :: 0 <= i < |a + b| ==> WeibullColumn(a + b)[i] == (WeibullColumn(a) + WeibullColumn(b))[i];
    assert forall i :: 0 <= i < |a + b| ==> ExponentialColumn(a + b)[i] == (ExponentialColumn(a) + ExponentialColumn(b))[i];
  }

  /** Once a prefix of the iterations fails, the whole collection fails the same way. */
  lemma {:induction false} CollectFailureSticks(outcomes: seq<KsResult>, k: nat)
    requires k <= |outcomes|
    requires CollectStatistics(outcomes[..k]).Failure?
    ensures CollectStatistics(outcomes) == CollectStatistics(outcomes[..k])
    decreases |outcomes| - k
  {
    if k < |outcomes| {
      assert outcomes[..k + 1][..k] == outcomes[..k];
      CollectFailureSticks(outcomes, k + 1);
    } else {
      assert outcomes[..k] == outcomes;
    }
  }

  /** `range(number_of_samples)`: no iterations for a negative count. */
  function IterationCount(numberOfSamples: int): (r: nat)
    ensures numberOfSamples <= 0 ==> r == 0
    ensures numberOfSamples >= 0 ==> r == numberOfSamples
  {
    if numberOfSamples < 0 then 0 else numberOfSamples
  }

  /** The result of a sequential bootstrap: both p-values and the number of kept samples. */
  datatype PValues = PValues(weibull: Ratio, exponential: Ratio, count: nat)

  /**
   * The end of both sequential bootstraps: the statistic of the unresampled
   * data, then one p-value per family over the kept bootstrap statistics.
   */
  function BootstrapPValues(original: KsResult, outcomes: seq<KsResult>): (r: Result<PValues, PyError>)
    ensures original.Raised? ==> r == Failure(original.error)
    ensures r.Success? ==> r.value.count <= |outcomes|
  {
    if original.Raised? then Failure(original.error)
    else
      match CollectStatistics(outcomes)
      case Failure(e) => Failure(e)
      case Success(kept) =>
        Success(PValues(PValue(WeibullColumn(kept), original.weibull),
                        PValue(ExponentialColumn(kept), original.exponential),
                        |kept|))
  }

  /**
   * A sequential bootstrap fails when the unresampled data or some iteration
   * raises an uncaught exception; otherwise it reports how many iterations
   * succeeded (never more than ran), and each p-value lies in [0, 1], or is
   * NaN exactly when no iteration succeeded.
   */
  lemma BootstrapPValuesSpec(original: KsResult, outcomes: seq<KsResult>)
    ensures var r := BootstrapPValues(original, outcomes);
      && (r.Failure? <==>
            || original.Raised?
            || exists i :: 0 <= i < |outcomes| && outcomes[i].Raised? && !Caught(outcomes[i].error))
      && (r.Success? ==>
            && r.value.count == Successes(outcomes) <= |outcomes|
            && (r.value.weibull.NotANumber? <==> r.value.count == 0)
            && (r.value.exponential.NotANumber? <==> r.value.count == 0)
            && (r.value.weibull.Fraction? ==> 0.0 <= r.value.weibull.value <= 1.0)
            && (r.value.exponential.Fraction? ==> 0.0 <= r.value.exponential.value <= 1.0))
  {
    CollectStatisticsCount(outcomes);
  }
}
