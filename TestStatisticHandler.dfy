/**
 * `statistical_tests/test_statistic_handler.py`: the sequential bootstrap of
 * the KS statistic. Its draw loop only asks for two distinct lifetimes (no
 * check for a code 0), and after 1000 rejected draws it hands back the last
 * rejected one. The bootstrap loop runs the requested number of iterations,
 * skipping those whose scoring raised RuntimeWarning or ValueError.
 *
 * Randomness is an input: each iteration gets its own supply of index
 * vectors, one per attempt of the draw loop. `calculate_ks_statistic(samples,
 * censoring, initial_guess)` is the function `ks`.
 */
module TestStatisticHandler {
  import opened Wrappers
  import opened Resampling
  import opened Inference

  /** The draw loop's test: `len(set(random_lifetime_samples)) != 1`. */
  predicate Varied(d: Dataset)
    ensures Varied(d) <==>
      |d.lifetimes| == 0 || exists j :: 0 <= j < |d.lifetimes| && d.lifetimes[j] != d.lifetimes[0]
  {
    SingletonIffConstant(d.lifetimes);
    |Distinct(d.lifetimes)| != 1
  }

  /** The dataset the draw loop returns: the first varied attempt, or else the last attempt. */
  function FirstVaried(attempts: seq<Dataset>): (r: Dataset)
    requires |attempts| > 0
    ensures r in attempts
    ensures Varied(r) || r == attempts[|attempts| - 1]
  {
    if |attempts| == 1 || Varied(attempts[0]) then attempts[0]
    else FirstVaried(attempts[1..])
  }

  /**
   * The draw loop returns some attempt `k`, every attempt before `k` was
   * rejected, and `k` is either varied or the very last attempt.
   */
  lemma {:induction false} FirstVariedSpec(attempts: seq<Dataset>)
    requires |attempts| > 0
    ensures exists k ::
      && 0 <= k < |attempts|
      && FirstVaried(attempts) == attempts[k]
      && (Varied(attempts[k]) || k == |attempts| - 1)
      && forall j :: 0 <= j < k ==> !Varied(attempts[j])
  {
    if |attempts| == 1 || Varied(attempts[0]) {
      assert FirstVaried(attempts) == attempts[0];
    } else {
      var rest := attempts[1..];
      FirstVariedSpec(rest);
      var k :| && 0 <= k < |rest|
               && FirstVaried(rest) == rest[k]
               && (Varied(rest[k]) || k == |rest| - 1)
               && forall j :: 0 <= j < k ==> !Varied(rest[j]);
      assert forall j :: 0 <= j < k + 1 ==> !Varied(attempts[j]) by {
        forall j | 0 <= j < k + 1 ensures !Varied(attempts[j]) {
          if j > 0 { assert attempts[j] == rest[j - 1]; }
        }
      }
      assert attempts[k + 1] == rest[k];
    }
  }

  /** The returned dataset is varied exactly when some attempt was; otherwise it is the last attempt. */
  lemma {:induction false} FirstVariedIsVaried(attempts: seq<Dataset>)
    requires |attempts| > 0
    ensures Varied(FirstVaried(attempts)) <==> exists k :: 0 <= k < |attempts| && Varied(attempts[k])
    ensures (forall k :: 0 <= k < |attempts| ==> !Varied(attempts[k])) ==>
      FirstVaried(attempts) == attempts[|attempts| - 1]
  {
    if |attempts| > 1 && !Varied(attempts[0]) {
      var rest := attempts[1..];
      FirstVariedIsVaried(rest);
      assert forall k :: 1 <= k < |attempts| ==> attempts[k] == rest[k - 1];
    }
  }

  /** The draw loop as a function of its draws. */
  function DrawnDataset(source: Dataset, draws: seq<seq<nat>>): (r: Dataset)
    requires Aligned(source) && IsDrawSupply(draws, |source.lifetimes|)
    ensures Aligned(r) && |r.lifetimes| == |source.lifetimes|
  {
    var attempts := Attempts(source, draws);
    assert forall k :: 0 <= k < |attempts| ==>
      Aligned(attempts[k]) && |attempts[k].lifetimes| == |source.lifetimes|;
    FirstVaried(attempts)
  }

  /**
   * The dataset drawn is one of the draws: full size, aligned, and varied
   * whenever some attempt was; if none was, it is the 1000th attempt.
   */
  lemma DrawnDatasetSpec(source: Dataset, draws: seq<seq<nat>>)
    requires Aligned(source) && IsDrawSupply(draws, |source.lifetimes|)
    ensures var d := DrawnDataset(source, draws);
      && Aligned(d) && |d.lifetimes| == |source.lifetimes|
      && (exists k :: 0 <= k < MaxAttempts && d == Resample(source, draws[k]))
      && (Varied(d) <==> exists k :: 0 <= k < MaxAttempts && Varied(Resample(source, draws[k])))
      && ((forall k :: 0 <= k < MaxAttempts ==> !Varied(Resample(source, draws[k]))) ==>
            d == Resample(source, draws[MaxAttempts - 1]))
  {
    var attempts := Attempts(source, draws);
    FirstVariedSpec(attempts);
    FirstVariedIsVaried(attempts);
    assert forall k :: 0 <= k < MaxAttempts ==> attempts[k] == Resample(source, draws[k]);
  }

  /**
   * A source whose records all share one lifetime is never varied, so every
   * draw is rejected and the loop hands back its last draw anyway.
   */
  lemma ConstantSourceGivesLastDraw(source: Dataset, draws: seq<seq<nat>>)
    requires Aligned(source) && IsDrawSupply(draws, |source.lifetimes|)
    requires |source.lifetimes| > 0
    requires forall i :: 0 <= i < |source.lifetimes| ==> source.lifetimes[i] == source.lifetimes[0]
    ensures DrawnDataset(source, draws) == Resample(source, draws[MaxAttempts - 1])
    ensures !Varied(DrawnDataset(source, draws))
  {
    forall k | 0 <= k < MaxAttempts
      ensures !Varied(Resample(source, draws[k]))
    {
      var d := Resample(source, draws[k]);
      assert Distinct(d.lifetimes) == {source.lifetimes[0]} by {
        assert d.lifetimes[0] in Distinct(d.lifetimes);
      }
    }
    DrawnDatasetSpec(source, draws);
  }

  /** What each bootstrap iteration's scoring yields. */
  function IterationOutcomes(source: Dataset, iterations: seq<seq<seq<nat>>>, count: nat, ks: Dataset -> KsResult): (r: seq<KsResult>)
    requires Aligned(source) && count <= |iterations|
    requires forall i :: 0 <= i < |iterations| ==> IsDrawSupply(iterations[i], |source.lifetimes|)
    ensures |r| == count
  {
    seq(count, i requires 0 <= i < count => ks(DrawnDataset(source, iterations[i])))
  }

  /**
   * `TestStatisticHandler`. Its `initialGuess` is kept as the source keeps it
   * but never read by the model: the scorer `ks` handed to `BootstrapPValue`
   * already carries the initial guess.
   */
  class TestStatisticHandler {
    const lifetimeArray: seq<real>
    const censoringArray: seq<int>
    const initialGuess: seq<real>

    constructor (lifetimeArray: seq<real>, censoringArray: seq<int>, initialGuess: seq<real>)
      ensures this.lifetimeArray == lifetimeArray
      ensures this.censoringArray == censoringArray
      ensures this.initialGuess == initialGuess
    {
      this.lifetimeArray := lifetimeArray;
      this.censoringArray := censoringArray;
      this.initialGuess := initialGuess;
    }

    function Source(): Dataset
    {
      Dataset(lifetimeArray, censoringArray)
    }

    /** Up to 1000 draws, stopping at the first varied one; the last draw when none is. */
    method GenerateRandomLifetimeDataset(draws: seq<seq<nat>>) returns (r: Dataset)
      requires Aligned(Source()) && IsDrawSupply(draws, |lifetimeArray|)
      ensures r == DrawnDataset(Source(), draws)
    {
      ghost var attempts := Attempts(Source(), draws);
      var i := 0;
      var randomLifetimeSamples := Dataset([], []);
      while i < MaxAttempts
        invariant 0 <= i <= MaxAttempts
        invariant i < MaxAttempts ==> FirstVaried(attempts[i..]) == FirstVaried(attempts)
        invariant i == MaxAttempts ==> randomLifetimeSamples == FirstVaried(attempts)
      {
        randomLifetimeSamples := Resample(Source(), draws[i]);
        assert attempts[i..][0] == randomLifetimeSamples;
        if |Distinct(randomLifetimeSamples.lifetimes)| != 1 {
          break;
        }
        assert attempts[i..][1..] == attempts[i + 1..];
        i := i + 1;
      }
      r := randomLifetimeSamples;
    }

    /**
     * `bootstrap_p_value`: the statistic of the unresampled arrays, then one
     * scored draw per iteration, skipping iterations that raised a caught
     * exception, then one p-value per family over the kept statistics.
     */
    method BootstrapPValue(numberOfSamples: int, iterations: seq<seq<seq<nat>>>, ks: Dataset -> KsResult)
      returns (r: Result<PValues, PyError>)
      requires Aligned(Source()) && IterationCount(numberOfSamples) <= |iterations|
      requires forall i :: 0 <= i < |iterations| ==> IsDrawSupply(iterations[i], |lifetimeArray|)
      ensures r == BootstrapPValues(ks(Source()),
                                    IterationOutcomes(Source(), iterations, IterationCount(numberOfSamples), ks))
      ensures r.Success? ==> r.value.count <= IterationCount(numberOfSamples)
      ensures numberOfSamples <= 0 && r.Success? ==>
        r.value.count == 0 && r.value.weibull.NotANumber? && r.value.exponential.NotANumber?
    {
      var count := IterationCount(numberOfSamples);
      ghost var outcomes := IterationOutcomes(Source(), iterations, count, ks);
      var original := ks(Source());
      if original.Raised? {
        return Failure(original.error);
      }
      var weibullList: seq<real> := [];
      var expList: seq<real> := [];
      ghost var kept: seq<(real, real)> := [];
      for i := 0 to count
        invariant CollectStatistics(outcomes[..i]) == Success(kept)
        invariant weibullList == WeibullColumn(kept) && expList == ExponentialColumn(kept)
      {
        assert outcomes[..i + 1][..i] == outcomes[..i];
        var dataset := GenerateRandomLifetimeDataset(iterations[i]);
        match ks(dataset) {
          case Statistics(weibullD, expD) =>
            weibullList := weibullList + [weibullD];
            expList := expList + [expD];
            kept := kept + [(weibullD, expD)];
          case Raised(e) =>
            if !Caught(e) {
              CollectFailureSticks(outcomes, i + 1);
              return Failure(e);
            }
        }
      }
      assert outcomes[..count] == outcomes;
      BootstrapPValuesSpec(ks(Source()), outcomes);
      var numberOfKept := |weibullList|;
      r := Success(PValues(PValue(weibullList, original.weibull), PValue(expList, original.exponential), numberOfKept));
    }
  }
}
