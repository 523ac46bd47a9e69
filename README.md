# Component lifetime analysis: a verified model of the lifetime and bootstrap core

This project is a Dafny model of the deterministic core of a component-lifetime
analysis service. The core has four parts:

- **Lifetime derivation** (`ComponentDataHandler.calculate_lifetimes`). It turns
  the object-lifetime records of one failure type into `{lifetime, censoring}`
  entries:
  - code 0 is exact, 1 right-censored, 2 interval-censored;
  - the branch depends on whether any malfunction is observable;
  - it then pads the list with right-censored entries for objects that never
    malfunctioned.
- **Interval collapse**, in its two variants:
  - `dataprocessing/lifetime_processor.py` works on fresh copies;
  - `data_processing/lifetime_processor.py` rewrites the object's own fields.

  Both split the entries into two index-aligned arrays. Each interval `[a, b]`
  is replaced by `a`, `(a+b)/2` or `b`, and its code becomes 0.
- **Bootstrap resampling and collection**:
  - the 1000-attempt draw loops (with and without the code-0 test);
  - the censoring lookup through the *first* record holding a drawn value;
  - the pool passes that ask for exactly the missing number of datasets;
  - the scoring that appends to the caller's lists, and the top-up of the
    Weibull list to 1000.
- **Inference**. The p-value is `|{b >= original}| / len`. The KS statistic
  takes the maximum of `|R_i - sf(u_i)|` over the zipped pairs.

Modules:

| file | module | models |
|---|---|---|
| `Wrappers.dfy` | `Wrappers` | `Option` and `Result` |
| `Lifetimes.dfy` | `Lifetimes` | entries, censoring codes, the collapse rule and its algebra |
| `CopyingProcessor.dfy` | `CopyingProcessor` | `dataprocessing/lifetime_processor.py` |
| `InPlaceProcessor.dfy` | `InPlaceProcessor` | `data_processing/lifetime_processor.py` |
| `LifetimeDerivation.dfy` | `LifetimeDerivation` | `data_handler.py`, `calculate_lifetimes` |
| `Resampling.dfy` | `Resampling` | the draw with replacement and the first-index censoring lookup |
| `Inference.dfy` | `Inference` | p-value, KS max-difference step, exception kinds, sequential collection |
| `StatisticalTesters.dfy` | `StatisticalTesters` | `statisticaltesters/handler.py` |
| `TestStatisticHandler.dfy` | `TestStatisticHandler` | `statistical_tests/test_statistic_handler.py` |
| `SequentialBootstrap.dfy` | `SequentialBootstrap` | `statistical_tests/bootstrap_handler.py` |

Behaviour of the code that the model keeps:

- **Empty bootstrap list.** `calculate_p_value` and `bootstrap_p_value` divide
  by the list length with numpy. An empty list gives NaN (0 divided by 0, with
  a warning); nothing raises.
- **Unbounded generation loop.** `generate_lifetime_datasets_parallel` starts
  pool pass after pool pass until the target is met. There is no bound on the
  number of passes.
- **Backfill target.** `generate_additional_samples_and_fit_models` tops the
  Weibull list up to 1000, whatever number of samples was requested.
- **Censoring lookup.** A drawn value gets the censoring code of the first
  record that holds it (`list.index`), which need not be the drawn record.
- **Exceptions during scoring.** `fit_models_to_samples` catches nothing:
  `future.result()` re-raises an exception of the scoring, and it reaches the
  caller of `bootstrap_test_statistic_values`.
- **Giving up.** After 1000 rejected draws, the draw loop of
  `test_statistic_handler.py` returns its last draw, while the one of
  `statisticaltesters/handler.py` returns `(None, None)`.

Inputs that stand for outside effects:

- **Random draws.** Every `np.random.choice` is replaced by an index vector the
  caller supplies. A draw loop gets one vector per attempt; a pool pass gets one
  supply per task.
- **Fit and score.** The call `calculate_ks_statistic(samples, censoring, ...)`
  is a function parameter `ks`. It returns either the two statistics or the
  exception it raised.
- **Fitting library.** The Nelson-Aalen estimates and the fitted survival
  functions are parameters.
- **Database queries.** They are replaced by their results. Dates are integer
  seconds and hours are exact reals.

## Model

| member | source | states |
|---|---|---|
| Lifetimes.ParsePolicy | dataprocessing/lifetime_processor.py:24-25 | an indicator is accepted exactly when it is one of "start", "mid", "end" |
| Lifetimes.Representative | dataprocessing/lifetime_processor.py:33-38 | the value chosen for an interval lies within its bounds, and "mid" is equidistant from both |
| Lifetimes.CollapseEntry | dataprocessing/lifetime_processor.py:32-41 | an open interval (code 2 and a pair) becomes code 0 with a scalar lifetime in hours: its start, its end, or the point equidistant from both, as the policy says, and within the bounds when start <= end; any other entry is returned unchanged |
| Lifetimes.CollapseAll | dataprocessing/lifetime_processor.py:28-43 | the collapsed list has one entry per input entry; entries that are not open intervals are kept as they are, open intervals become code-0 scalars |
| Lifetimes.SplitZipRoundTrip | dataprocessing/lifetime_processor.py:7-10 | splitting entries into two arrays and zipping them back are mutually inverse |
| Lifetimes.CollapseSettles | dataprocessing/lifetime_processor.py:28-43 | after a collapse under any policy no code-2 pair remains |
| Lifetimes.CollapseOfSettled | dataprocessing/lifetime_processor.py:28-43 | a list without code-2 pairs is left unchanged by the collapse under any policy |
| Lifetimes.CollapseIdempotent | dataprocessing/lifetime_processor.py:32-41 | collapsing again, with any second policy, changes nothing |
| CopyingProcessor.LifetimeProcessor.constructor | dataprocessing/lifetime_processor.py:4-5 | the processor holds the given entries |
| CopyingProcessor.LifetimeProcessor.GetLifetimeArrays | dataprocessing/lifetime_processor.py:7-10 | two arrays of length `len(data)` whose position i holds entry i's lifetime and code |
| CopyingProcessor.LifetimeProcessor.GetSimplifiedLifetimeArrays | dataprocessing/lifetime_processor.py:12-43 | fails exactly on an invalid indicator; otherwise returns arrays of length `len(data)` that zip to the entry-wise collapse of `data`; `data` is a constant and is not changed |
| InPlaceProcessor.LifetimeProcessor.constructor | data_processing/lifetime_processor.py:4-11 | the fields have `len(data)` elements and mirror `data` index by index |
| InPlaceProcessor.LifetimeProcessor.ProcessIntervalCensoring | data_processing/lifetime_processor.py:13-43 | an invalid indicator fails and leaves both fields untouched; a valid one rewrites the fields to the collapse of their old contents and returns them; afterwards no code-2 pair remains; on already collapsed fields a second call changes nothing |
| LifetimeDerivation.HoursBetween | data_handler.py:196-197 | hours times 3600 is the span in seconds, and it is non-negative exactly when the span is |
| LifetimeDerivation.RecordEntry | data_handler.py:191-244 | the classification table: an end date gives code 0 with the hours from start to end (observable) or code 2 with the pair of hours from start to each interval bound (otherwise); no end date gives code 1 measured to the end of observation; pairs exactly for code 2; an end date without both interval dates fails |
| LifetimeDerivation.RecordEntries | data_handler.py:191-244 | on success one entry per record; the only failure is a missing interval bound |
| LifetimeDerivation.RecordEntriesLayout | data_handler.py:191-244 | the record loop succeeds exactly when every record does, and then yields one entry per record, in record order |
| LifetimeDerivation.DerivedLifetimes | data_handler.py:153-258 | a missing failure type fails with `FailureTypeCodeNotFound`; on success an earliest start exists and there is at least one entry per record, exactly one per record when `num_objects` does not exceed the number of distinct malfunctioning objects |
| LifetimeDerivation.DerivedLifetimesLayout | data_handler.py:153-258 | a missing failure type raises first; success exactly when no record fails and an earliest start exists; the result is the record entries followed by `max(0, num_objects - distinct object ids)` right-censored padding entries |
| LifetimeDerivation.DerivedCensoringCodes | data_handler.py:188-253 | every code is 0 or 1 in the observable branch and 1 or 2 otherwise; pair lifetimes exactly for code 2 |
| LifetimeDerivation.ObservableListIsSettled | data_handler.py:188-218 | in the observable branch the collapse has nothing to rewrite |
| LifetimeDerivation.CollapsedListIsScalar | data_handler.py:184-253 | after the collapse every derived lifetime is a scalar with code 0 or 1 |
| LifetimeDerivation.RecordEntriesFailureSticks | data_handler.py:227-235 | once a record fails, the whole derivation fails with that error |
| LifetimeDerivation.CalculateLifetimes | data_handler.py:153-258 | the two loops and the padding compute exactly the derivation function above, errors included |
| Resampling.FirstIndex | statisticaltesters/handler.py:40-41 | `list.index`: a position holding the value, before which no position holds it |
| Resampling.Resample | statisticaltesters/handler.py:37-41 | the draw and its looked-up codes are aligned and as long as the source |
| Resampling.ResampledPairsAreSourceRecords | statisticaltesters/handler.py:37-41 | every drawn value is the drawn record's lifetime and carries the code of the first record holding it |
| Resampling.LookupMatchesDrawnRecord | statisticaltesters/handler.py:40-41 | when equal lifetimes carry equal codes, each drawn value carries its own record's code |
| Resampling.LookupIgnoresDrawnRecord | statisticaltesters/handler.py:40-41 | a concrete source where the drawn exact records come out right-censored |
| Resampling.ExactRecordsCanBeUnreachable | statisticaltesters/handler.py:40-41 | if every exact record shares its lifetime with an earlier non-exact record, no draw carries code 0 |
| Resampling.SingletonIffConstant | statisticaltesters/handler.py:43 | `len(set(s)) == 1` exactly when `s` is non-empty and constant |
| StatisticalTesters.Acceptable | statisticaltesters/handler.py:43 | an accepted draw holds a code 0 and does not consist of exactly one record |
| StatisticalTesters.AcceptableIffVaried | statisticaltesters/handler.py:43 | the test passes exactly when a code 0 is present and the draw is empty or holds two different lifetimes |
| StatisticalTesters.IsBootstrapSample | statisticaltesters/handler.py:38-44 | an accepted bootstrap sample has as many records as the source, and at least two |
| StatisticalTesters.FirstAcceptable | statisticaltesters/handler.py:36-47 | what the search returns is one of the attempts and passes the test |
| StatisticalTesters.FirstAccepted | statisticaltesters/handler.py:35-47 | what the draw loop returns passes the test, is aligned and is as long as the source |
| StatisticalTesters.AcceptedIsBootstrapSample | statisticaltesters/handler.py:38-44 | an accepted draw has the source's length, values from the source, at least two distinct values and a code 0 |
| StatisticalTesters.FirstAcceptableNone | statisticaltesters/handler.py:36-47 | the search finds nothing exactly when every attempt is rejected |
| StatisticalTesters.FirstAcceptableWitness | statisticaltesters/handler.py:36-44 | the search returns an acceptable attempt before which every attempt was rejected |
| StatisticalTesters.FirstAcceptedNone | statisticaltesters/handler.py:36-47 | the draw loop gives up exactly when all 1000 draws are rejected |
| StatisticalTesters.FirstAcceptedWitness | statisticaltesters/handler.py:36-44 | the draw loop returns the first acceptable draw |
| StatisticalTesters.FirstAcceptedIsSample | statisticaltesters/handler.py:35-47 | whatever the draw loop returns is an accepted bootstrap sample |
| StatisticalTesters.NoExactRecordNoSample | statisticaltesters/handler.py:43-47 | a source without a code 0 never yields a dataset |
| StatisticalTesters.Somes | statisticaltesters/handler.py:56-58 | dropping the `None` results never keeps more datasets than there were results |
| StatisticalTesters.SomesSpec | statisticaltesters/handler.py:55-58 | every kept dataset is some task's non-`None` result; all results are kept exactly when none is `None`, and none exactly when all are |
| StatisticalTesters.PassYield | statisticaltesters/handler.py:53-58 | a pass yields at most one dataset per submitted task |
| StatisticalTesters.PassYieldSpec | statisticaltesters/handler.py:53-58 | a pass yields at most one dataset per task, all accepted samples, and exactly one per task when no task gives up |
| StatisticalTesters.Gather | statisticaltesters/handler.py:50-59 | gathering only appends to what was collected, and never goes past the target |
| StatisticalTesters.GatherSpec | statisticaltesters/handler.py:50-59 | gathering only appends, never beyond the target, only accepted samples, and a pass in which no task gives up meets the target |
| StatisticalTesters.GatherStep | statisticaltesters/handler.py:51-58 | one loop turn: the pass submits exactly the current shortfall and its yield is appended; the remaining passes still supply enough tasks |
| StatisticalTesters.GatherComplete | statisticaltesters/handler.py:51-58 | a first pass in which no task gives up meets any target it has tasks for |
| StatisticalTesters.HiddenExactRecordsStarveGeneration | statisticaltesters/handler.py:51-58 | when every exact record is hidden by an earlier non-exact record with the same lifetime, no pass yields anything, so the loop cannot reach a positive target |
| StatisticalTesters.NothingYielded | statisticaltesters/handler.py:55-58 | a pass whose tasks all give up appends nothing |
| StatisticalTesters.ScoreAll | statisticaltesters/handler.py:64-72 | at most one pair of statistics per dataset, and one per dataset exactly when no scoring raised |
| StatisticalTesters.ScoreAllSpec | statisticaltesters/handler.py:64-72 | scoring keeps the statistics of a prefix of the datasets, in order, and stops at the first dataset that raised, reporting that exception |
| StatisticalTesters.ScoreAllFailureSticks | statisticaltesters/handler.py:66-67 | once a dataset's scoring raised, later datasets change nothing |
| StatisticalTesters.BootstrapStatistics | statisticaltesters/handler.py:82-98 | a successful bootstrap keeps at most the larger of the requested count and 1000 statistics |
| StatisticalTesters.BootstrapStatisticsComplete | statisticaltesters/handler.py:49-98 | when no task of the first pass gives up, nor of the first back-fill pass when one is needed, a successful bootstrap keeps exactly the larger of the requested count and 1000 statistics |
| StatisticalTesters.BootstrapStatisticsExact | statisticaltesters/handler.py:49-98 | whenever both gatherings reach their targets, which is when the source's loops return, a successful bootstrap keeps exactly the larger of the requested count and 1000 statistics |
| StatisticalTesters.StatisticLists.constructor | statisticaltesters/handler.py:83-84 | both lists start empty |
| StatisticalTesters.BootstrapHandler.constructor | statisticaltesters/handler.py:23-33 | the handler holds the given arrays and initial guess |
| StatisticalTesters.BootstrapHandler.GenerateRandomLifetimeDataset | statisticaltesters/handler.py:35-47 | the loop returns the first acceptable of at most 1000 draws, an accepted sample, and nothing exactly when all 1000 are rejected |
| StatisticalTesters.BootstrapHandler.GenerateLifetimeDatasetsParallel | statisticaltesters/handler.py:49-59 | the loop computes the gathering function; at most the requested number of datasets, each an accepted sample |
| StatisticalTesters.BootstrapHandler.RunPass | statisticaltesters/handler.py:52-58 | one pool pass keeps the non-None results of its tasks, in task order |
| StatisticalTesters.BootstrapHandler.FitModelsToSamples | statisticaltesters/handler.py:61-72 | the caller's lists grow by the statistics of the scored prefix and nothing else; the exception of the first failing dataset is reported |
| StatisticalTesters.BootstrapHandler.GenerateAdditionalSamplesAndFitModels | statisticaltesters/handler.py:74-80 | nothing happens once the Weibull list holds 1000; otherwise the shortfall `1000 - len` is generated and scored; the list never exceeds 1000 through the top-up, and both lists grow equally |
| StatisticalTesters.BootstrapHandler.BootstrapTestStatisticValues | statisticaltesters/handler.py:82-105 | the method computes the bootstrap function above: it fails exactly when that function fails, with the same exception, and otherwise returns its Weibull and Exponential columns; on success the two lists have equal length, at most the larger of the requested count and 1000 |
| StatisticalTesters.BootstrapWorker | statisticaltesters/handler.py:11-18 | RuntimeWarning and ValueError become `(None, None)`; any other exception propagates; statistics are passed through |
| Inference.CountAtLeast | statisticaltesters/handler.py:110 | the count of values at least the original; all of them exactly when the original is at most every value, none exactly when it exceeds every value |
| Inference.PValue | statisticaltesters/handler.py:108-110 | NaN exactly for an empty list; otherwise a fraction in [0, 1] that times the length is the count |
| Inference.PValueOneAtOrBelowMinimum | statisticaltesters/handler.py:108-110 | the p-value is 1 when the original is at most every bootstrap value |
| Inference.PValueZeroAboveMaximum | statisticaltesters/handler.py:108-110 | the p-value is 0 when the original exceeds every bootstrap value |
| Inference.CountAtLeastNonIncreasing | statisticaltesters/handler.py:110 | a larger original never counts more values |
| Inference.PValueNonIncreasing | statisticaltesters/handler.py:108-110 | the p-value is non-increasing in the original value |
| Inference.Max | statisticaltesters/handler.py:127 | `max`: an upper bound of the list that occurs in it |
| Inference.MaxDifference | statisticaltesters/handler.py:122-127 | ValueError exactly when either input is empty; otherwise a non-negative bound on every paired difference that is attained |
| Inference.KsStatistic | statistical_tests/test_statistic_handler.py:104-122 | both statistics, each the attained maximum of the paired differences, or ValueError for empty input (the same step as statisticaltesters/handler.py:121-127) |
| Inference.CollectStatistics | statistical_tests/test_statistic_handler.py:60-69 | on success at most one pair per iteration; a failure is an exception that is neither RuntimeWarning nor ValueError and that some iteration raised |
| Inference.Successes | statistical_tests/test_statistic_handler.py:60-69 | the number of iterations that produced statistics never exceeds the number of iterations |
| Inference.CollectStatisticsCount | statistical_tests/test_statistic_handler.py:60-72 | the collection fails exactly when an iteration raised an uncaught exception; otherwise it keeps one pair per successful iteration |
| Inference.CollectFailureSticks | statistical_tests/test_statistic_handler.py:61-69 | an uncaught exception ends the loop with that exception |
| Inference.BootstrapPValues | statistical_tests/test_statistic_handler.py:54-80 | an exception from scoring the unresampled arrays is the result; on success the count is at most the number of iterations |
| Inference.BootstrapPValuesSpec | statistical_tests/test_statistic_handler.py:54-80 | fails exactly when the original statistic or some iteration raised uncaught; otherwise the count is the number of successful iterations, each p-value is in [0, 1] and NaN exactly when the count is 0 |
| TestStatisticHandler.Varied | statistical_tests/test_statistic_handler.py:36 | the test passes exactly when the draw is empty or holds two different lifetimes |
| TestStatisticHandler.FirstVaried | statistical_tests/test_statistic_handler.py:30-39 | the loop returns one of its attempts, varied or the last one |
| TestStatisticHandler.FirstVariedSpec | statistical_tests/test_statistic_handler.py:30-39 | the loop returns some attempt before which all were rejected, and that attempt is varied or the last one |
| TestStatisticHandler.FirstVariedIsVaried | statistical_tests/test_statistic_handler.py:30-39 | the result is varied exactly when some attempt was; otherwise it is the last attempt |
| TestStatisticHandler.DrawnDataset | statistical_tests/test_statistic_handler.py:30-39 | the returned dataset is aligned and as long as the source |
| TestStatisticHandler.DrawnDatasetSpec | statistical_tests/test_statistic_handler.py:30-39 | the returned dataset is one of the 1000 draws, aligned and full size, varied whenever some draw was, otherwise the 1000th draw; no code-0 test is made |
| TestStatisticHandler.ConstantSourceGivesLastDraw | statistical_tests/test_statistic_handler.py:36-39 | a constant source gets its last rejected draw back |
| TestStatisticHandler.TestStatisticHandler.constructor | statistical_tests/test_statistic_handler.py:10-20 | the handler holds the given arrays and initial guess |
| TestStatisticHandler.TestStatisticHandler.GenerateRandomLifetimeDataset | statistical_tests/test_statistic_handler.py:22-39 | the loop computes the drawn dataset: the first varied draw, or else the last |
| TestStatisticHandler.TestStatisticHandler.BootstrapPValue | statistical_tests/test_statistic_handler.py:41-80 | the loop computes the collection of scored draws and their p-values against the statistic of the unresampled arrays; the count is at most the requested number; a non-positive number of samples runs no iteration, so both p-values are NaN and the count is 0 |
| SequentialBootstrap.BootstrapPValue | statistical_tests/bootstrap_handler.py:5-48 | the loop computes the p-values of the unfiltered scored draws against the statistic of the unresampled arrays; the count is at most the requested number; a non-positive number of samples runs no iteration, so both p-values are NaN and the count is 0 |

## Left out

- Database access, the ORM schema, upserts and session handling are not part of this model. `calculate_lifetimes` receives its query results as a value (`QueryResults`).
- The lower-casing of the failure-type code and its lookup are reduced to the flag `failureTypeFound`. String case folding is not modelled.
- A record whose `StartDate` is missing is not modelled; start dates are always present.
- `total_seconds() / 3600` and `sum(lifetime) / 2` are computed in exact reals. Floating-point rounding is not modelled.
- Dates are whole seconds. Sub-second parts of `datetime` values are not modelled.
- An interval lifetime is a pair. Python lists of other lengths under code 2 are not modelled.
- Lifetime values under code 2 that are not lists are modelled (left unchanged); other Python value types are not.
- InPlaceProcessor.LifetimeProcessor.ProcessIntervalCensoring: returns the new field values, not aliases of the fields. Later changes made through the returned lists are not modelled.
- The HTTP routes, request logging, plotting and the timing prints are not part of this model.
- The maximum-likelihood fits (Weibull, Exponential) and the Nelson-Aalen estimator are not modelled. The fit-and-score call is the parameter `ks`; the estimates and survival functions are parameters of `KsStatistic`.
- `np.unique` is not modelled. The sorted unique samples are an input of `KsStatistic`.
- Randomness is not modelled; every draw is an input index vector.
- Process pools are not modelled: the tasks of a pool run one after another, and their results are taken in submission order rather than in `as_completed` order.
- StatisticalTesters.BootstrapHandler.FitModelsToSamples: under `as_completed` the order of the two lists, which statistics were appended before an exception, and which exception surfaces when several tasks raise all depend on completion order. `ScoreAllSpec` describes submission order only.
- StatisticalTesters.BootstrapHandler.RunPass: datasets are kept in task order; the source keeps them in completion order.
- Default arguments are not modelled; callers pass every value. The defaults are `interval_lifetime_indicator='mid'` (dataprocessing/lifetime_processor.py:12, data_processing/lifetime_processor.py:13), `number_of_samples=1000` (statisticaltesters/handler.py:82), `number_of_samples=10` (statistical_tests/test_statistic_handler.py:41, statistical_tests/bootstrap_handler.py:5) and `initial_guess=[]` (statisticaltesters/handler.py:23, statistical_tests/test_statistic_handler.py:10).
- LifetimeDerivation.CalculateLifetimes: the object-lifetime query (data_handler.py:179-180) filters on `ObjectLifetime.FailureTypeCodeID`, a column that the `ObjectLifetime` class (data_model.py:83-100) does not declare; only `FailureTypeCodeChangeHistory` (data_model.py:39) and `MalfunctionRecord` (data_model.py:79) declare it. The model assumes the query returns its records.
- StatisticalTesters.BootstrapHandler.GenerateLifetimeDatasetsParallel: the unbounded `while` loop is modelled over a finite list of pool passes. When the passes run out before the target is met, the model returns what it has; the source would keep looping, possibly forever (see `HiddenExactRecordsStarveGeneration`).
- StatisticalTesters.BootstrapWorker: what the fitting library does when it is handed `None` is the parameter `ksOnNone`.
- StatisticalTesters.BootstrapHandler.FitModelsToSamples: the `is not None` guards are dead code, since `calculate_ks_statistic` never returns `None`, and they are not modelled.
- StatisticalTesters.BootstrapHandler.BootstrapTestStatisticValues: the result is the two lists; the dictionary that wraps them is not modelled.
- `statistical_tests/ks_test.py` (a copy of the KS function that ignores its initial guess) is not part of this model; the sequential bootstrap uses the same `ks` parameter.
