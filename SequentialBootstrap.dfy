/**
 * `statistical_tests/bootstrap_handler.py`: the plain sequential bootstrap.
 * Every iteration resamples the arrays once, with no validity filter at all,
 * and scores the draw; iterations whose scoring raised RuntimeWarning or
 * ValueError are skipped.
 *
 * Randomness is an input: iteration `i` uses the index vector `draws[i]`.
 * `calculate_ks_statistic(samples, censoring)` is the function `ks`.
 */
module SequentialBootstrap {
  import opened Wrappers
  import opened Resampling
  import opened Inference

  /** What each iteration's scoring yields: the score of the unfiltered draw. */
  function DrawOutcomes(source: Dataset, draws: seq<seq<nat>>, count: nat, ks: Dataset -> KsResult): (r: seq<KsResult>)
    requires Aligned(source) && count <= |draws|
    requires forall i :: 0 <= i < |draws| ==> IsDraw(draws[i], |source.lifetimes|)
    ensures |r| == count
    ensures forall i :: 0 <= i < count ==> r[i] == ks(Resample(source, draws[i]))
  {
    seq(count, i requires 0 <= i < count => ks(Resample(source, draws[i])))
  }

  /**
   * `bootstrap_p_value`: the statistic of the unresampled arrays, one scored
   * draw per iteration with caught exceptions skipped, then one p-value per
   * family over the kept statistics.
   */
  method BootstrapPValue(lifetimeArray: seq<real>, censoringArray: seq<int>, numberOfSamples: int,
                         draws: seq<seq<nat>>, ks: Dataset -> KsResult)
    returns (r: Result<PValues, PyError>)
    requires |lifetimeArray| == |censoringArray|
    requires IterationCount(numberOfSamples) <= |draws|
    requires forall i :: 0 <= i < |draws| ==> IsDraw(draws[i], |lifetimeArray|)
    ensures var source := Dataset(lifetimeArray, censoringArray);
      r == BootstrapPValues(ks(source), DrawOutcomes(source, draws, IterationCount(numberOfSamples), ks))
    ensures r.Success? ==> r.value.count <= IterationCount(numberOfSamples)
    ensures numberOfSamples <= 0 && r.Success? ==>
      r.value.count == 0 && r.value.weibull.NotANumber? && r.value.exponential.NotANumber?
  {
    var source := Dataset(lifetimeArray, censoringArray);
    var count := IterationCount(numberOfSamples);
    ghost var outcomes := DrawOutcomes(source, draws, count, ks);
    var original := ks(source);
    if original.Raised? {
      return Failure(original.error);
    }
    var weibullBootstraps: seq<real> := [];
    var expBootstraps: seq<real> := [];
    ghost var kept: seq<(real, real)> := [];
    for i := 0 to count
      invariant CollectStatistics(outcomes[..i]) == Success(kept)
      invariant weibullBootstraps == WeibullColumn(kept) && expBootstraps == ExponentialColumn(kept)
    {
      assert outcomes[..i + 1][..i] == outcomes[..i];
      var bootstrapSample := Resample(source, draws[i]);
      match ks(bootstrapSample) {
        case Statistics(weibullD, expD) =>
          weibullBootstraps := weibullBootstraps + [weibullD];
          expBootstraps := expBootstraps + [expD];
          kept := kept + [(weibullD, expD)];
        case Raised(e) =>
          if !Caught(e) {
            CollectFailureSticks(outcomes, i + 1);
            return Failure(e);
          }
      }
    }
    assert outcomes[..count] == outcomes;
    BootstrapPValuesSpec(ks(source), outcomes);
    var numberOfKept := |weibullBootstraps|;
    r := Success(PValues(PValue(weibullBootstraps, original.weibull), PValue(expBootstraps, original.exponential),
                         numberOfKept));
  }
}
