/**
 * `statisticaltesters/handler.py`: the parallel bootstrap of the KS
 * statistic. A draw is accepted only if it holds at least two distinct
 * lifetimes and a code 0, with at most 1000 attempts per task; the pool is
 * asked, pass after pass, for exactly the number of datasets still missing;
 * the statistics are appended to the caller's lists; and a backfill tops the
 * Weibull list up to 1000.
 *
 * Randomness and the process pool are inputs: every task gets its own
 * supply of index vectors (one per attempt), every pass of the pool its own
 * tasks, and the fit-and-score call `calculate_ks_statistic(samples,
 * censoring, initial_guess)` is the function `ks`.
 */
module StatisticalTesters {
  import opened Wrappers
  import opened Resampling
  import opened Inference

  /** The Weibull list length the backfill aims for. */
  const BackfillTarget: int := 1000

  /** The acceptance test: `len(set(samples)) != 1 and 0 in censoring`. */
  predicate Acceptable(d: Dataset)
    ensures Acceptable(d) ==> 0 in d.censorings && |d.lifetimes| != 1
  {
    assert |d.lifetimes| == 1 ==> Distinct(d.lifetimes) == {d.lifetimes[0]};
    |Distinct(d.lifetimes)| != 1 && 0 in d.censorings
  }

  /** A draw passes the test exactly when it holds an exact record and is empty or has two different lifetimes. */
  lemma AcceptableIffVaried(d: Dataset)
    ensures Acceptable(d) <==>
      && 0 in d.censorings
      && (|d.lifetimes| == 0 || exists j :: 0 <= j < |d.lifetimes| && d.lifetimes[j] != d.lifetimes[0])
  {
    SingletonIffConstant(d.lifetimes);
  }

  /** What an accepted draw is: full size, values of the source, two distinct values, an exact code. */
  predicate IsBootstrapSample(source: Dataset, d: Dataset)
    ensures IsBootstrapSample(source, d) ==> 2 <= |d.lifetimes| == |source.lifetimes|
  {
    SingletonIffConstant(d.lifetimes);
    assert |d.lifetimes| == 0 ==> Distinct(d.lifetimes) == {};
    && Aligned(d)
    && |d.lifetimes| == |source.lifetimes|
    && (forall j :: 0 <= j < |d.lifetimes| ==> d.lifetimes[j] in source.lifetimes)
    && |Distinct(d.lifetimes)| >= 2
    && 0 in d.censorings
  }

  /** The first acceptable dataset of a sequence of attempts. */
  function FirstAcceptable(attempts: seq<Dataset>): (r: Option<Dataset>)
    ensures r.Some? ==> Acceptable(r.value) && r.value in attempts
  {
    if attempts == [] then None
    else if Acceptable(attempts[0]) then Some(attempts[0])
    else FirstAcceptable(attempts[1..])
  }

  /** The draw loop as a function of its draws. */
  function FirstAccepted(source: Dataset, draws: seq<seq<nat>>): (r: Option<Dataset>)
    requires Aligned(source) && IsDrawSupply(draws, |source.lifetimes|)
    ensures r.Some? ==> Acceptable(r.value) && Aligned(r.value) && |r.value.lifetimes| == |source.lifetimes|
  {
    var attempts := Attempts(source, draws);
    assert forall k :: 0 <= k < |attempts| ==>
      Aligned(attempts[k]) && |attempts[k].lifetimes| == |source.lifetimes|;
    FirstAcceptable(attempts)
  }

  lemma AcceptedIsBootstrapSample(source: Dataset, draw: seq<nat>)
    requires Aligned(source) && IsDraw(draw, |source.lifetimes|)
    requires Acceptable(Resample(source, draw))
    ensures IsBootstrapSample(source, Resample(source, draw))
  {
    var d := Resample(source, draw);
    assert d.lifetimes[0] in Distinct(d.lifetimes);
  }

  /** One step of the search: attempt `i` is taken if acceptable, otherwise the search goes on after it. */
  lemma FirstAcceptableStep(attempts: seq<Dataset>, i: nat)
    requires i < |attempts|
    ensures FirstAcceptable(attempts[i..]) ==
      if Acceptable(attempts[i]) then Some(attempts[i]) else FirstAcceptable(attempts[i + 1..])
  {
    assert attempts[i..][1..] == attempts[i + 1..];
  }

  /** The search comes back empty exactly when every attempt is rejected. */
  lemma {:induction false} FirstAcceptableNone(attempts: seq<Dataset>)
    ensures FirstAcceptable(attempts).None? <==> forall k :: 0 <= k < |attempts| ==> !Acceptable(attempts[k])
  {
    if attempts != [] {
      FirstAcceptableNone(attempts[1..]);
      assert forall k :: 1 <= k < |attempts| ==> attempts[k] == attempts[1..][k - 1];
    }
  }

  /** The search returns the first acceptable attempt. */
  lemma {:induction false} FirstAcceptableWitness(attempts: seq<Dataset>)
    ensures var r := FirstAcceptable(attempts);
      r.Some? ==> exists k :: 0 <= k < |attempts| && r.value == attempts[k] && Acceptable(r.value) &&
                    forall j :: 0 <= j < k ==> !Acceptable(attempts[j])
  {
    if attempts != [] && !Acceptable(attempts[0]) {
      FirstAcceptableWitness(attempts[1..]);
      var r := FirstAcceptable(attempts);
      if r.Some? {
        var k :| 0 <= k < |attempts[1..]| && r.value == attempts[1..][k] && Acceptable(r.value) &&
                 forall j :: 0 <= j < k ==> !Acceptable(attempts[1..][j]);
        assert forall j :: 0 <= j < k + 1 ==> !Acceptable(attempts[j]) by {
          forall j | 0 <= j < k + 1 ensures !Acceptable(attempts[j]) {
            if j > 0 { assert attempts[j] == attempts[1..][j - 1]; }
          }
        }
      }
    }
  }

  /** The draw loop gives up exactly when every one of its attempts is rejected. */
  lemma FirstAcceptedNone(source: Dataset, draws: seq<seq<nat>>)
    requires Aligned(source) && IsDrawSupply(draws, |source.lifetimes|)
    ensures FirstAccepted(source, draws).None? <==>
      forall k :: 0 <= k < MaxAttempts ==> !Acceptable(Resample(source, draws[k]))
  {
    var attempts := Attempts(source, draws);
    FirstAcceptableNone(attempts);
    assert forall k :: 0 <= k < MaxAttempts ==> attempts[k] == Resample(source, draws[k]);
  }

  /** What the draw loop returns is its first acceptable draw. */
  lemma FirstAcceptedWitness(source: Dataset, draws: seq<seq<nat>>)
    requires Aligned(source) && IsDrawSupply(draws, |source.lifetimes|)
    ensures var r := FirstAccepted(source, draws);
      r.Some? ==> exists k :: 0 <= k < MaxAttempts && r.value == Resample(source, draws[k]) && Acceptable(r.value) &&
                    forall j :: 0 <= j < k ==> !Acceptable(Resample(source, draws[j]))
  {
    var attempts := Attempts(source, draws);
    FirstAcceptableWitness(attempts);
    assert forall k :: 0 <= k < MaxAttempts ==> attempts[k] == Resample(source, draws[k]);
  }

  /** Whatever the draw loop returns is an accepted bootstrap sample. */
  lemma FirstAcceptedIsSample(source: Dataset, draws: seq<seq<nat>>)
    requires Aligned(source) && IsDrawSupply(draws, |source.lifetimes|)
    requires FirstAccepted(source, draws).Some?
    ensures IsBootstrapSample(source, FirstAccepted(source, draws).value)
  {
    FirstAcceptedWitness(source, draws);
    var k :| 0 <= k < MaxAttempts && FirstAccepted(source, draws).value == Resample(source, draws[k])
               && Acceptable(FirstAccepted(source, draws).value);
    AcceptedIsBootstrapSample(source, draws[k]);
  }

  /** Without any exact record in the source, no draw is ever accepted. */
  lemma NoExactRecordNoSample(source: Dataset, draws: seq<seq<nat>>)
    requires Aligned(source) && IsDrawSupply(draws, |source.lifetimes|)
    requires 0 !in source.censorings
    ensures FirstAccepted(source, draws).None?
  {
    forall k | 0 <= k < MaxAttempts
      ensures !Acceptable(Resample(source, draws[k]))
    {
      ResampledPairsAreSourceRecords(source, draws[k]);
    }
    FirstAcceptedNone(source, draws);
  }

  /** Every task of every pass has its own supply of draws, and a pass has a task for every missing dataset. */
  predicate IsPassSupply(passes: seq<seq<seq<seq<nat>>>>, target: int, n: nat)
  {
    forall p :: 0 <= p < |passes| ==>
      && target <= |passes[p]|
      && forall k :: 0 <= k < |passes[p]| ==> IsDrawSupply(passes[p][k], n)
  }

  /** The datasets among the outcomes of a pass's tasks, in order, Nones dropped. */
  function Somes(outcomes: seq<Option<Dataset>>): (r: seq<Dataset>)
    ensures |r| <= |outcomes|
  {
    if outcomes == [] then []
    else
      Somes(outcomes[..|outcomes| - 1]) +
        match outcomes[|outcomes| - 1]
        case Some(d) => [d]
        case None => []
  }

  /** Every kept dataset is some task's outcome, and every outcome is kept exactly when none is None. */
  lemma {:induction false} SomesSpec(outcomes: seq<Option<Dataset>>)
    ensures forall j :: 0 <= j < |Somes(outcomes)| ==>
      exists k :: 0 <= k < |outcomes| && outcomes[k] == Some(Somes(outcomes)[j])
    ensures |Somes(outcomes)| == |outcomes| <==> forall k :: 0 <= k < |outcomes| ==> outcomes[k].Some?
    ensures Somes(outcomes) == [] <==> forall k :: 0 <= k < |outcomes| ==> outcomes[k].None?
  {
    if outcomes != [] {
      var front := outcomes[..|outcomes| - 1];
      var last := outcomes[|outcomes| - 1];
      SomesSpec(front);
      assert forall k :: 0 <= k < |front| ==> outcomes[k] == front[k];
      var tail := if last.Some? then [last.value] else [];
      assert Somes(outcomes) == Somes(front) + tail;
      forall j | 0 <= j < |Somes(outcomes)|
        ensures exists k :: 0 <= k < |outcomes| && outcomes[k] == Some(Somes(outcomes)[j])
      {
        if j < |Somes(front)| {
          var k :| 0 <= k < |front| && front[k] == Some(Somes(front)[j]);
          assert outcomes[k] == Some(Somes(outcomes)[j]);
        } else {
          assert outcomes[|outcomes| - 1] == Some(Somes(outcomes)[j]);
        }
      }
    } else {
      assert Somes(outcomes) == [];
    }
  }

  /** What each of the first `count` tasks of a pass returns. */
  function TaskOutcomes(source: Dataset, tasks: seq<seq<seq<nat>>>, count: nat): (r: seq<Option<Dataset>>)
    requires Aligned(source) && count <= |tasks|
    requires forall k :: 0 <= k < |tasks| ==> IsDrawSupply(tasks[k], |source.lifetimes|)
    ensures |r| == count
  {
    seq(count, k requires 0 <= k < count => FirstAccepted(source, tasks[k]))
  }

  /** The datasets one pool pass yields from its first `count` tasks. */
  function PassYield(source: Dataset, tasks: seq<seq<seq<nat>>>, count: nat): (r: seq<Dataset>)
    requires Aligned(source) && count <= |tasks|
    requires forall k :: 0 <= k < |tasks| ==> IsDrawSupply(tasks[k], |source.lifetimes|)
    ensures |r| <= count
  {
    Somes(TaskOutcomes(source, tasks, count))
  }

  /** A pass yields at most one dataset per task, each an accepted draw, and exactly one per task when no task gives up. */
  lemma PassYieldSpec(source: Dataset, tasks: seq<seq<seq<nat>>>, count: nat)
    requires Aligned(source) && count <= |tasks|
    requires forall k :: 0 <= k < |tasks| ==> IsDrawSupply(tasks[k], |source.lifetimes|)
    ensures var y := PassYield(source, tasks, count);
      && |y| <= count
      && (forall j :: 0 <= j < |y| ==> IsBootstrapSample(source, y[j]))
      && (|y| == count <==> forall k :: 0 <= k < count ==> FirstAccepted(source, tasks[k]).Some?)
  {
    var outcomes := TaskOutcomes(source, tasks, count);
    var y := Somes(outcomes);
    SomesSpec(outcomes);
    forall j | 0 <= j < |y|
      ensures IsBootstrapSample(source, y[j])
    {
      var k :| 0 <= k < count && outcomes[k] == Some(y[j]);
      FirstAcceptedIsSample(source, tasks[k]);
    }
    assert forall k :: 0 <= k < count ==> outcomes[k] == FirstAccepted(source, tasks[k]);
  }

  /**
   * `generate_lifetime_datasets_parallel` over a finite list of pool passes:
   * each pass submits exactly the shortfall, and the loop stops once the
   * target is met or the passes run out.
   */
  function Gather(source: Dataset, target: int, passes: seq<seq<seq<seq<nat>>>>, collected: seq<Dataset>): (r: seq<Dataset>)
    requires Aligned(source) && IsPassSupply(passes, target, |source.lifetimes|)
    ensures collected <= r
    ensures |r| <= if |collected| < target then target else |collected|
    decreases |passes|
  {
    if |collected| >= target || passes == [] then collected
    else
      Gather(source, target, passes[1..],
             collected + PassYield(source, passes[0], target - |collected|))
  }

  /**
   * Gathering only appends, never beyond the target, and only accepted draws;
   * a pass in which no task gives up completes the target.
   */
  lemma {:induction false} GatherSpec(source: Dataset, target: int, passes: seq<seq<seq<seq<nat>>>>, collected: seq<Dataset>)
    requires Aligned(source) && IsPassSupply(passes, target, |source.lifetimes|)
    ensures var g := Gather(source, target, passes, collected);
      && collected <= g
      && |g| <= (if |collected| < target then target else |collected|)
      && (forall j :: |collected| <= j < |g| ==> IsBootstrapSample(source, g[j]))
      && (|collected| < target && passes != [] &&
          (forall k :: 0 <= k < target - |collected| ==> FirstAccepted(source, passes[0][k]).Some?)
          ==> |g| == target)
    decreases |passes|
  {
    if !(|collected| >= target || passes == []) {
      var shortfall := target - |collected|;
      PassYieldSpec(source, passes[0], shortfall);
      var next := collected + PassYield(source, passes[0], shortfall);
      GatherSpec(source, target, passes[1..], next);
    }
  }

  /** One pass of the gathering loop, seen from the remaining passes. */
  lemma GatherStep(source: Dataset, target: int, passes: seq<seq<seq<seq<nat>>>>, pass: nat,
                   collected: seq<Dataset>, yielded: seq<Dataset>)
    requires Aligned(source) && IsPassSupply(passes, target, |source.lifetimes|)
    requires pass < |passes| && |collected| < target
    requires yielded == PassYield(source, passes[pass], target - |collected|)
    ensures IsPassSupply(passes[pass..], target, |source.lifetimes|)
    ensures IsPassSupply(passes[pass + 1..], target, |source.lifetimes|)
    ensures Gather(source, target, passes[pass..], collected) ==
      Gather(source, target, passes[pass + 1..], collected + yielded)
  {
    var remaining := passes[pass..];
    assert remaining[0] == passes[pass];
    assert remaining[1..] == passes[pass + 1..];
    assert IsPassSupply(remaining, target, |source.lifetimes|);
    assert Gather(source, target, remaining, collected) ==
      Gather(source, target, remaining[1..], collected + PassYield(source, remaining[0], target - |collected|));
  }

  /**
   * If every exact record shares its lifetime with an earlier non-exact
   * record, no pass yields anything: with a positive target the unbounded
   * loop of `generate_lifetime_datasets_parallel` never ends.
   */
  lemma {:induction false} HiddenExactRecordsStarveGeneration(source: Dataset, target: int, passes: seq<seq<seq<seq<nat>>>>)
    requires Aligned(source) && IsPassSupply(passes, target, |source.lifetimes|)
    requires forall i :: 0 <= i < |source.lifetimes| && source.censorings[i] == 0 ==>
               exists k :: 0 <= k < i && source.lifetimes[k] == source.lifetimes[i] && source.censorings[k] != 0
    ensures Gather(source, target, passes, []) == []
    decreases |passes|
  {
    if !(0 >= target || passes == []) {
      forall k | 0 <= k < |passes[0]|
        ensures FirstAccepted(source, passes[0][k]).None?
      {
        forall a | 0 <= a < MaxAttempts
          ensures !Acceptable(Resample(source, passes[0][k][a]))
        {
          ExactRecordsCanBeUnreachable(source, passes[0][k][a]);
        }
        FirstAcceptedNone(source, passes[0][k]);
      }
      NothingYielded(source, passes[0], target);
      HiddenExactRecordsStarveGeneration(source, target, passes[1..]);
    }
  }

  lemma NothingYielded(source: Dataset, tasks: seq<seq<seq<nat>>>, count: nat)
    requires Aligned(source) && count <= |tasks|
    requires forall k :: 0 <= k < |tasks| ==> IsDrawSupply(tasks[k], |source.lifetimes|)
    requires forall k :: 0 <= k < |tasks| ==> FirstAccepted(source, tasks[k]).None?
    ensures PassYield(source, tasks, count) == []
  {
    var outcomes := TaskOutcomes(source, tasks, count);
    SomesSpec(outcomes);
    assert forall k :: 0 <= k < count ==> outcomes[k].None?;
  }

  /** The statistics of the datasets up to the first task that raised, and that exception. */
  function ScoreAll(datasets: seq<Dataset>, ks: Dataset -> KsResult): (r: (seq<(real, real)>, Option<PyError>))
    ensures |r.0| <= |datasets|
    ensures r.1.None? <==> |r.0| == |datasets|
  {
    if datasets == [] then ([], None)
    else
      var front := ScoreAll(datasets[..|datasets| - 1], ks);
      if front.1.Some? then front
      else
        match ks(datasets[|datasets| - 1])
        case Statistics(w, x) => (front.0 + [(w, x)], None)
        case Raised(e) => (front.0, Some(e))
  }

  /**
   * Scoring keeps the statistics of a prefix of the datasets, in order; it
   * stops at the first dataset whose scoring raised, and reports that
   * exception.
   */
  lemma {:induction false} ScoreAllSpec(datasets: seq<Dataset>, ks: Dataset -> KsResult)
    ensures var s := ScoreAll(datasets, ks);
      && |s.0| <= |datasets|
      && (forall i :: 0 <= i < |s.0| ==> ks(datasets[i]) == Statistics(s.0[i].0, s.0[i].1))
      && (s.1.None? <==> |s.0| == |datasets|)
      && (s.1.Some? ==> ks(datasets[|s.0|]) == Raised(s.1.value))
  {
    if datasets != [] {
      var front := datasets[..|datasets| - 1];
      ScoreAllSpec(front, ks);
      assert forall i :: 0 <= i < |front| ==> front[i] == datasets[i];
    }
  }

  /**
   * How the two scorings combine: an exception of the first ends the run;
   * 1000 statistics or more need no back-fill; otherwise an exception of the
   * back-fill ends the run, or its statistics are appended.
   */
  function Combine(first: (seq<(real, real)>, Option<PyError>), second: (seq<(real, real)>, Option<PyError>))
    : (r: Result<seq<(real, real)>, PyError>)
    ensures r.Success? ==> first.1.None? && first.0 <= r.value
    ensures r.Failure? ==> first.1 == Some(r.error) || second.1 == Some(r.error)
  {
    if first.1.Some? then Failure(first.1.value)
    else if |first.0| >= BackfillTarget then Success(first.0)
    else if second.1.Some? then Failure(second.1.value)
    else Success(first.0 + second.0)
  }

  /**
   * `bootstrap_test_statistic_values` as a function of its draws: the first
   * gathering scored, then, while fewer than 1000 statistics were kept, a
   * back-fill gathering of the difference, scored and appended.
   */
  function BootstrapStatistics(source: Dataset, numberOfSamples: int, passes: seq<seq<seq<seq<nat>>>>,
                               backfillPasses: seq<seq<seq<seq<nat>>>>, ks: Dataset -> KsResult)
    : (r: Result<seq<(real, real)>, PyError>)
    requires Aligned(source)
    requires IsPassSupply(passes, numberOfSamples, |source.lifetimes|)
    requires IsPassSupply(backfillPasses, BackfillTarget, |source.lifetimes|)
    ensures r.Success? ==>
      |r.value| <= if numberOfSamples < BackfillTarget then BackfillTarget else numberOfSamples
  {
    var first := ScoreAll(Gather(source, numberOfSamples, passes, []), ks);
    var needed := BackfillTarget - |first.0|;
    if first.1.None? && needed > 0 then
      Combine(first, ScoreAll(Gather(source, needed, backfillPasses, []), ks))
    else
      Combine(first, ([], None))
  }

  /**
   * When no task of the first pass gives up, and, if a back-fill is needed,
   * no task of the first back-fill pass either, a successful bootstrap keeps
   * exactly the larger of the requested count and 1000 statistics.
   */
  lemma BootstrapStatisticsComplete(source: Dataset, numberOfSamples: int, passes: seq<seq<seq<seq<nat>>>>,
                                    backfillPasses: seq<seq<seq<seq<nat>>>>, ks: Dataset -> KsResult)
    requires Aligned(source)
    requires IsPassSupply(passes, numberOfSamples, |source.lifetimes|)
    requires IsPassSupply(backfillPasses, BackfillTarget, |source.lifetimes|)
    requires 0 < numberOfSamples ==>
      passes != [] && forall k :: 0 <= k < numberOfSamples ==> FirstAccepted(source, passes[0][k]).Some?
    requires numberOfSamples < BackfillTarget ==>
      backfillPasses != [] && forall k :: 0 <= k < BackfillTarget ==> FirstAccepted(source, backfillPasses[0][k]).Some?
    ensures var r := BootstrapStatistics(source, numberOfSamples, passes, backfillPasses, ks);
      r.Success? ==> |r.value| == if numberOfSamples < BackfillTarget then BackfillTarget else numberOfSamples
  {
    if 0 < numberOfSamples {
      GatherComplete(source, numberOfSamples, passes, numberOfSamples);
    } else {
      GatherSpec(source, numberOfSamples, passes, []);
    }
    var gathered := |Gather(source, numberOfSamples, passes, [])|;
    if gathered < BackfillTarget {
      GatherComplete(source, BackfillTarget - gathered, backfillPasses, BackfillTarget);
    }
  }

  /**
   * Whenever both gatherings reach their targets (which is when the source's
   * unbounded loops return), a successful bootstrap keeps exactly the larger
   * of the requested count and 1000 statistics.
   */
  lemma BootstrapStatisticsExact(source: Dataset, numberOfSamples: int, passes: seq<seq<seq<seq<nat>>>>,
                                 backfillPasses: seq<seq<seq<seq<nat>>>>, ks: Dataset -> KsResult)
    requires Aligned(source)
    requires IsPassSupply(passes, numberOfSamples, |source.lifetimes|)
    requires IsPassSupply(backfillPasses, BackfillTarget, |source.lifetimes|)
    requires |Gather(source, numberOfSamples, passes, [])| >= numberOfSamples
    requires var gathered := |Gather(source, numberOfSamples, passes, [])|;
      gathered < BackfillTarget ==>
        |Gather(source, BackfillTarget - gathered, backfillPasses, [])| >= BackfillTarget - gathered
    ensures var r := BootstrapStatistics(source, numberOfSamples, passes, backfillPasses, ks);
      r.Success? ==> |r.value| == if numberOfSamples < BackfillTarget then BackfillTarget else numberOfSamples
  {
    var first := ScoreAll(Gather(source, numberOfSamples, passes, []), ks);
    if first.1.None? && |first.0| < BackfillTarget {
      var second := ScoreAll(Gather(source, BackfillTarget - |first.0|, backfillPasses, []), ks);
      assert BootstrapStatistics(source, numberOfSamples, passes, backfillPasses, ks) == Combine(first, second);
    }
  }

  /**
   * A gathering whose first pass has no task that gives up, among at least
   * as many tasks as the target, meets its target in that pass.
   */
  lemma GatherComplete(source: Dataset, target: int, passes: seq<seq<seq<seq<nat>>>>, supplied: int)
    requires Aligned(source) && IsPassSupply(passes, supplied, |source.lifetimes|)
    requires 0 < target <= supplied && passes != []
    requires forall k :: 0 <= k < supplied ==> FirstAccepted(source, passes[0][k]).Some?
    ensures IsPassSupply(passes, target, |source.lifetimes|)
    ensures |Gather(source, target, passes, [])| == target
  {
    GatherSpec(source, target, passes, []);
  }

  /** The two lists the caller owns; the handler only ever appends to them. */
  class StatisticLists {
    var weibull: seq<real>
    var exponential: seq<real>

    constructor ()
      ensures weibull == [] && exponential == []
    {
      weibull, exponential := [], [];
    }
  }

  /**
   * `BootstrapHandler`. Its `initialGuess` is kept as the source keeps it but
   * never read by the model: the scorer `ks` handed to each method already
   * carries the initial guess.
   */
  class BootstrapHandler {
    const lifetimeArray: seq<real>
    const censoringArray: seq<int>
    const initialGuess: seq<real>

    constructor (lifetimeArray: seq<real>, censoringArray: seq<int>, initialGuess: seq<real>)
      ensures this.lifetimeArray == lifetimeArray
      ensures this.censoringArray == censoringArray
      ensures this.initialGuess == initialGuess
    {
      this.lifetimeArray := lifetimeArray;
      this.censoringArray := censoringArray;
      this.initialGuess := initialGuess;
    }

    function Source(): Dataset
    {
      Dataset(lifetimeArray, censoringArray)
    }

    /** At most 1000 draws; the first acceptable one is returned, or nothing. */
    method GenerateRandomLifetimeDataset(draws: seq<seq<nat>>) returns (r: Option<Dataset>)
      requires Aligned(Source()) && IsDrawSupply(draws, |lifetimeArray|)
      ensures r == FirstAccepted(Source(), draws)
      ensures r.Some? ==> IsBootstrapSample(Source(), r.value)
      ensures r.None? <==> forall k :: 0 <= k < MaxAttempts ==> !Acceptable(Resample(Source(), draws[k]))
    {
      ghost var attempts := Attempts(Source(), draws);
      var i := 0;
      while i < MaxAttempts
        invariant 0 <= i <= MaxAttempts
        invariant FirstAcceptable(attempts[i..]) == FirstAccepted(Source(), draws)
      {
        var randomLifetimeSamples := Resample(Source(), draws[i]);
        FirstAcceptableStep(attempts, i);
        assert attempts[i] == randomLifetimeSamples;
        if |Distinct(randomLifetimeSamples.lifetimes)| != 1 && 0 in randomLifetimeSamples.censorings {
          FirstAcceptedNone(Source(), draws);
          FirstAcceptedIsSample(Source(), draws);
          return Some(randomLifetimeSamples);
        }
        i := i + 1;
      }
      FirstAcceptedNone(Source(), draws);
      return None;
    }

    /**
     * Asks the pool, pass after pass, for exactly the number of datasets
     * still missing, and keeps those that are not None.
     */
    method GenerateLifetimeDatasetsParallel(numberOfSamples: int, passes: seq<seq<seq<seq<nat>>>>)
      returns (datasets: seq<Dataset>)
      requires Aligned(Source()) && IsPassSupply(passes, numberOfSamples, |lifetimeArray|)
      ensures datasets == Gather(Source(), numberOfSamples, passes, [])
      ensures |datasets| <= if numberOfSamples <= 0 then 0 else numberOfSamples
      ensures forall j :: 0 <= j < |datasets| ==> IsBootstrapSample(Source(), datasets[j])
    {
      datasets := [];
      var pass := 0;
      while |datasets| < numberOfSamples && pass < |passes|
        invariant 0 <= pass <= |passes|
        invariant Gather(Source(), numberOfSamples, passes[pass..], datasets) == Gather(Source(), numberOfSamples, passes, [])
      {
        var tasks := passes[pass];
        var shortfall := numberOfSamples - |datasets|;
        var yielded := RunPass(tasks, shortfall);
        GatherStep(Source(), numberOfSamples, passes, pass, datasets, yielded);
        datasets := datasets + yielded;
        pass := pass + 1;
      }
      assert |datasets| < numberOfSamples ==> passes[pass..] == [];
      GatherSpec(Source(), numberOfSamples, passes, []);
    }

    /** One pool pass: `count` tasks submitted, the datasets that are not None kept. */
    method RunPass(tasks: seq<seq<seq<nat>>>, count: nat) returns (yielded: seq<Dataset>)
      requires Aligned(Source()) && count <= |tasks|
      requires forall k :: 0 <= k < |tasks| ==> IsDrawSupply(tasks[k], |lifetimeArray|)
      ensures yielded == PassYield(Source(), tasks, count)
    {
      ghost var outcomes := TaskOutcomes(Source(), tasks, count);
      yielded := [];
      for k := 0 to count
        invariant yielded == Somes(outcomes[..k])
      {
        assert outcomes[..k + 1][..k] == outcomes[..k];
        var result := GenerateRandomLifetimeDataset(tasks[k]);
        assert result == outcomes[k];
        if result.Some? {
          yielded := yielded + [result.value];
        }
      }
      assert outcomes[..count] == outcomes;
    }

    /**
     * Scores every dataset and appends the two statistics to the caller's
     * lists; an exception from a task propagates and keeps what was
     * appended before it.
     */
    method FitModelsToSamples(datasets: seq<Dataset>, ks: Dataset -> KsResult, lists: StatisticLists)
      returns (failure: Option<PyError>)
      modifies lists
      ensures var s := ScoreAll(datasets, ks);
        && lists.weibull == old(lists.weibull) + WeibullColumn(s.0)
        && lists.exponential == old(lists.exponential) + ExponentialColumn(s.0)
        && failure == s.1
    {
      ghost var kept: seq<(real, real)> := [];
      for k := 0 to |datasets|
        invariant ScoreAll(datasets[..k], ks) == (kept, None)
        invariant lists.weibull == old(lists.weibull) + WeibullColumn(kept)
        invariant lists.exponential == old(lists.exponential) + ExponentialColumn(kept)
      {
        assert datasets[..k + 1][..k] == datasets[..k];
        match ks(datasets[k]) {
          case Raised(e) =>
            ScoreAllFailureSticks(datasets, k + 1, ks);
            return Some(e);
          case Statistics(weibullD, expD) =>
            lists.weibull := lists.weibull + [weibullD];
            lists.exponential := lists.exponential + [expD];
            kept := kept + [(weibullD, expD)];
        }
      }
      assert datasets[..|datasets|] == datasets;
      failure := None;
    }

    /**
     * Tops the Weibull list up to 1000 entries, whatever number of samples
     * was asked for; nothing happens once it holds 1000 or more.
     */
    method GenerateAdditionalSamplesAndFitModels(lists: StatisticLists, passes: seq<seq<seq<seq<nat>>>>, ks: Dataset -> KsResult)
      returns (failure: Option<PyError>)
      requires Aligned(Source()) && IsPassSupply(passes, BackfillTarget - |lists.weibull|, |lifetimeArray|)
      modifies lists
      ensures old(|lists.weibull|) >= BackfillTarget ==>
        failure.None? && lists.weibull == old(lists.weibull) && lists.exponential == old(lists.exponential)
      ensures old(|lists.weibull|) < BackfillTarget ==>
        var s := ScoreAll(Gather(Source(), BackfillTarget - old(|lists.weibull|), passes, []), ks);
        && lists.weibull == old(lists.weibull) + WeibullColumn(s.0)
        && lists.exponential == old(lists.exponential) + ExponentialColumn(s.0)
        && failure == s.1
      ensures |lists.weibull| <= if old(|lists.weibull|) < BackfillTarget then BackfillTarget else old(|lists.weibull|)
      ensures |lists.weibull| - |lists.exponential| == old(|lists.weibull| - |lists.exponential|)
    {
      var additionalSamplesNeeded := BackfillTarget - |lists.weibull|;
      if additionalSamplesNeeded > 0 {
        var additionalDatasets := GenerateLifetimeDatasetsParallel(additionalSamplesNeeded, passes);
        ScoreAllSpec(additionalDatasets, ks);
        failure := FitModelsToSamples(additionalDatasets, ks, lists);
      } else {
        failure := None;
      }
    }

    /**
     * The whole statistic bootstrap: generate, score, back-fill. The result
     * is the two columns of `BootstrapStatistics`, so on success the lists
     * have equal length, at most the larger of the requested count and 1000.
     */
    method BootstrapTestStatisticValues(numberOfSamples: int, passes: seq<seq<seq<seq<nat>>>>,
                                        backfillPasses: seq<seq<seq<seq<nat>>>>, ks: Dataset -> KsResult)
      returns (r: Result<(seq<real>, seq<real>), PyError>)
      requires Aligned(Source())
      requires IsPassSupply(passes, numberOfSamples, |lifetimeArray|)
      requires IsPassSupply(backfillPasses, BackfillTarget, |lifetimeArray|)
      ensures var s := BootstrapStatistics(Source(), numberOfSamples, passes, backfillPasses, ks);
        && (r.Failure? <==> s.Failure?)
        && (r.Failure? ==> r.error == s.error)
        && (r.Success? ==> r.value == (WeibullColumn(s.value), ExponentialColumn(s.value)))
      ensures r.Success? ==> |r.value.0| == |r.value.1|
      ensures r.Success? ==>
        |r.value.0| <= if numberOfSamples < BackfillTarget then BackfillTarget else numberOfSamples
    {
      var lists := new StatisticLists();
      var datasets := GenerateLifetimeDatasetsParallel(numberOfSamples, passes);
      ScoreAllSpec(datasets, ks);
      var failure := FitModelsToSamples(datasets, ks, lists);
      if failure.Some? {
        return Failure(failure.value);
      }
      ghost var first := ScoreAll(datasets, ks).0;
      assert lists.weibull == WeibullColumn(first) && lists.exponential == ExponentialColumn(first);
      failure := GenerateAdditionalSamplesAndFitModels(lists, backfillPasses, ks);
      if failure.Some? {
        return Failure(failure.value);
      }
      ghost var s := BootstrapStatistics(Source(), numberOfSamples, passes, backfillPasses, ks);
      if |first| < BackfillTarget {
        ghost var second := ScoreAll(Gather(Source(), BackfillTarget - |first|, backfillPasses, []), ks);
        ColumnsConcat(first, second.0);
        assert s == Success(first + second.0);
      } else {
        assert s == Success(first);
      }
      r := Success((lists.weibull, lists.exponential));
    }
  }

  /** Once scoring a prefix of the datasets raised, scoring them all raises the same. */
  lemma {:induction false} ScoreAllFailureSticks(datasets: seq<Dataset>, k: nat, ks: Dataset -> KsResult)
    requires k <= |datasets|
    requires ScoreAll(datasets[..k], ks).1.Some?
    ensures ScoreAll(datasets, ks) == ScoreAll(datasets[..k], ks)
    decreases |datasets| - k
  {
    if k < |datasets| {
      assert datasets[..k + 1][..k] == datasets[..k];
      ScoreAllFailureSticks(datasets, k + 1, ks);
    } else {
      assert datasets[..k] == datasets;
    }
  }

  /**
   * `bootstrap_worker`: one draw and its score, with RuntimeWarning and
   * ValueError turned into `(None, None)`. When the draw gives up, the
   * score is computed on `None`; what the fitting library then does is
   * `ksOnNone`.
   */
  method BootstrapWorker(instance: BootstrapHandler, draws: seq<seq<nat>>, ks: Dataset -> KsResult, ksOnNone: KsResult)
    returns (r: Result<(Option<real>, Option<real>), PyError>)
    requires Aligned(instance.Source()) && IsDrawSupply(draws, |instance.lifetimeArray|)
    ensures var drawn := FirstAccepted(instance.Source(), draws);
      var outcome := if drawn.Some? then ks(drawn.value) else ksOnNone;
      && (r.Failure? <==> outcome.Raised? && !Caught(outcome.error))
      && (r == Success((None, None)) <==> outcome.Raised? && Caught(outcome.error))
      && (outcome.Statistics? ==> r == Success((Some(outcome.weibull), Some(outcome.exponential))))
  {
    var dataset := instance.GenerateRandomLifetimeDataset(draws);
    var outcome := if dataset.Some? then ks(dataset.value) else ksOnNone;
    match outcome {
      case Statistics(weibullD, expD) =>
        r := Success((Some(weibullD), Some(expD)));
      case Raised(e) =>
        if Caught(e) {
          r := Success((None, None));
        } else {
          r := Failure(e);
        }
    }
  }
}
