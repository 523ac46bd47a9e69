/**
 * `ComponentDataHandler.calculate_lifetimes` of `data_handler.py`: turns the
 * object-lifetime records of one failure type into `{lifetime, censoring}`
 * entries, then pads the list with right-censored entries for the objects
 * that never appear in a malfunction record. The database queries are
 * replaced by their results, dates by integer seconds and hours by exact
 * reals.
 */
module LifetimeDerivation {
  import opened Wrappers
  import opened Lifetimes

  /** A malfunction record of the requested failure type. */
  datatype Malfunction = Malfunction(objectCodeId: string, observable: bool)

  /** An object-lifetime record; nullable dates are options. */
  datatype ObjectLifetime = ObjectLifetime(
    startDate: int,
    endDate: Option<int>,
    intervalStart: Option<int>,
    intervalEnd: Option<int>)

  /** What the four queries of `calculate_lifetimes` return. */
  datatype QueryResults = QueryResults(
    failureTypeFound: bool,
    malfunctions: seq<Malfunction>,
    objectLifetimes: seq<ObjectLifetime>,
    earliestStart: Option<int>)

  datatype LifetimeError =
    | FailureTypeCodeNotFound   // the ValueError raised when no failure type matches
    | MissingIntervalBound      // the TypeError of subtracting from an empty interval date
    | NoLifetimeRecords         // the TypeError of subtracting the None minimum of an empty table

  /** The length of a span of seconds in hours. */
  function HoursBetween(from: int, to: int): (r: real)
    ensures r * 3600.0 == (to - from) as real
    ensures from <= to <==> 0.0 <= r
  {
    (to - from) as real / 3600.0
  }

  /** `any([m.Observable for m in malfunctions])`. */
  predicate AnyObservable(malfunctions: seq<Malfunction>)
  {
    exists i :: 0 <= i < |malfunctions| && malfunctions[i].observable
  }

  /** `len(set(object_ids))`. */
  function DistinctObjects(malfunctions: seq<Malfunction>): nat
  {
    |set i | 0 <= i < |malfunctions| :: malfunctions[i].objectCodeId|
  }

  /** `[entry] * count`: Python repetition, empty for a count below one. */
  function Repeat(entry: Entry, count: int): (r: seq<Entry>)
    ensures |r| == if count <= 0 then 0 else count
    ensures forall i :: 0 <= i < |r| ==> r[i] == entry
  {
    if count <= 0 then [] else seq(count, _ => entry)
  }

  /** The entry of one record, in the branch chosen by `observable`. */
  function RecordEntry(observable: bool, ol: ObjectLifetime, endObservation: int): (r: Result<Entry, LifetimeError>)
    ensures r.Failure? <==> !observable && ol.endDate.Some? && (ol.intervalStart.None? || ol.intervalEnd.None?)
    ensures r.Failure? ==> r.error == MissingIntervalBound
    ensures r.Success? ==> (r.value.censoring == Exact <==> observable && ol.endDate.Some?)
    ensures r.Success? ==> (r.value.censoring == IntervalCensored <==> !observable && ol.endDate.Some?)
    ensures r.Success? ==> (r.value.censoring == RightCensored <==> ol.endDate.None?)
    ensures r.Success? ==> (r.value.lifetime.Interval? <==> r.value.censoring == IntervalCensored)
    ensures r.Success? && ol.endDate.None? ==> r.value.lifetime == Hours(HoursBetween(ol.startDate, endObservation))
    ensures r.Success? && observable && ol.endDate.Some? ==>
      r.value.lifetime == Hours(HoursBetween(ol.startDate, ol.endDate.value))
    ensures r.Success? && !observable && ol.endDate.Some? ==>
      && ol.intervalStart.Some? && ol.intervalEnd.Some?
      && r.value.lifetime == Interval(HoursBetween(ol.startDate, ol.intervalStart.value),
                                      HoursBetween(ol.startDate, ol.intervalEnd.value))
  {
    if ol.endDate.Some? then
      if observable then
        Success(Entry(Hours(HoursBetween(ol.startDate, ol.endDate.value)), Exact))
      else if ol.intervalStart.None? || ol.intervalEnd.None? then
        Failure(MissingIntervalBound)
      else
        Success(Entry(Interval(HoursBetween(ol.startDate, ol.intervalStart.value),
                               HoursBetween(ol.startDate, ol.intervalEnd.value)), IntervalCensored))
    else
      Success(Entry(Hours(HoursBetween(ol.startDate, endObservation)), RightCensored))
  }

  /** The entries of the records, in record order; fails at a record that fails. */
  function RecordEntries(observable: bool, records: seq<ObjectLifetime>, endObservation: int): (r: Result<seq<Entry>, LifetimeError>)
    ensures r.Success? ==> |r.value| == |records|
    ensures r.Failure? ==> r.error == MissingIntervalBound
  {
    if records == [] then Success([])
    else
      match RecordEntries(observable, records[..|records| - 1], endObservation)
      case Failure(e) => Failure(e)
      case Success(entries) =>
        match RecordEntry(observable, records[|records| - 1], endObservation)
        case Failure(e) => Failure(e)
        case Success(entry) => Success(entries + [entry])
  }

  /** The right-censored entry for an object without any lifetime record. */
  function UnobservedEntry(earliestStart: int, endObservation: int): Entry
  {
    Entry(Hours(HoursBetween(earliestStart, endObservation)), RightCensored)
  }

  /** The number of padding entries, `num_objects - len(set(object_ids))`. */
  function UnobservedCount(numObjects: int, malfunctions: seq<Malfunction>): int
  {
    numObjects - DistinctObjects(malfunctions)
  }

  /** What `calculate_lifetimes` returns or raises. */
  function DerivedLifetimes(q: QueryResults, numObjects: int, endObservation: int): (r: Result<seq<Entry>, LifetimeError>)
    ensures !q.failureTypeFound ==> r == Failure(FailureTypeCodeNotFound)
    ensures r.Success? ==> q.earliestStart.Some? && |q.objectLifetimes| <= |r.value|
    ensures r.Success? && numObjects <= DistinctObjects(q.malfunctions) ==> |r.value| == |q.objectLifetimes|
  {
    if !q.failureTypeFound then Failure(FailureTypeCodeNotFound)
    else
      match RecordEntries(AnyObservable(q.malfunctions), q.objectLifetimes, endObservation)
      case Failure(e) => Failure(e)
      case Success(entries) =>
        if q.earliestStart.None? then Failure(NoLifetimeRecords)
        else Success(entries + Repeat(UnobservedEntry(q.earliestStart.value, endObservation),
                                      UnobservedCount(numObjects, q.malfunctions)))
  }

  /** The record entries come one per record, in order, unless some record fails. */
  lemma {:induction false} RecordEntriesLayout(observable: bool, records: seq<ObjectLifetime>, endObservation: int)
    ensures var r := RecordEntries(observable, records, endObservation);
      && (r.Success? <==> forall i :: 0 <= i < |records| ==> RecordEntry(observable, records[i], endObservation).Success?)
      && (r.Failure? ==> r.error == MissingIntervalBound)
      && (r.Success? ==>
            && |r.value| == |records|
            && forall i :: 0 <= i < |records| ==> r.value[i] == RecordEntry(observable, records[i], endObservation).value)
  {
    if records != [] {
      var front := records[..|records| - 1];
      RecordEntriesLayout(observable, front, endObservation);
      assert forall i :: 0 <= i < |front| ==> front[i] == records[i];
    }
  }

  /**
   * The outcome of `calculate_lifetimes`: the errors in the order the code
   * meets them, and on success one entry per record in record order followed
   * by `max(0, num_objects - |distinct object ids|)` copies of the
   * right-censored unobserved entry.
   */
  lemma DerivedLifetimesLayout(q: QueryResults, numObjects: int, endObservation: int)
    ensures var r := DerivedLifetimes(q, numObjects, endObservation);
      var observable := AnyObservable(q.malfunctions);
      && (!q.failureTypeFound ==> r == Failure(FailureTypeCodeNotFound))
      && (r == Failure(MissingIntervalBound) <==>
            q.failureTypeFound && exists i :: 0 <= i < |q.objectLifetimes| && RecordEntry(observable, q.objectLifetimes[i], endObservation).Failure?)
      && (r.Success? <==>
            && q.failureTypeFound
            && q.earliestStart.Some?
            && forall i :: 0 <= i < |q.objectLifetimes| ==> RecordEntry(observable, q.objectLifetimes[i], endObservation).Success?)
      && (r.Success? ==>
            var padding := UnobservedCount(numObjects, q.malfunctions);
            && |r.value| == |q.objectLifetimes| + (if padding <= 0 then 0 else padding)
            && (forall i :: 0 <= i < |q.objectLifetimes| ==>
                  r.value[i] == RecordEntry(observable, q.objectLifetimes[i], endObservation).value)
            && (forall i :: |q.objectLifetimes| <= i < |r.value| ==>
                  r.value[i] == UnobservedEntry(q.earliestStart.value, endObservation)))
  {
    RecordEntriesLayout(AnyObservable(q.malfunctions), q.objectLifetimes, endObservation);
  }

  /**
   * Every code is 0 or 1 when some malfunction is observable and 1 or 2
   * otherwise; interval pairs carry code 2 and scalars the other codes.
   */
  lemma DerivedCensoringCodes(q: QueryResults, numObjects: int, endObservation: int)
    requires DerivedLifetimes(q, numObjects, endObservation).Success?
    ensures var list := DerivedLifetimes(q, numObjects, endObservation).value;
      forall i :: 0 <= i < |list| ==>
        && (if AnyObservable(q.malfunctions) then list[i].censoring in {Exact, RightCensored}
            else list[i].censoring in {RightCensored, IntervalCensored})
        && (list[i].lifetime.Interval? <==> list[i].censoring == IntervalCensored)
  {
    DerivedLifetimesLayout(q, numObjects, endObservation);
  }

  /** In the observable branch there is nothing for the interval collapse to rewrite. */
  lemma ObservableListIsSettled(q: QueryResults, numObjects: int, endObservation: int, p: Policy)
    requires DerivedLifetimes(q, numObjects, endObservation).Success?
    requires AnyObservable(q.malfunctions)
    ensures Settled(DerivedLifetimes(q, numObjects, endObservation).value)
    ensures CollapseAll(p, DerivedLifetimes(q, numObjects, endObservation).value) == DerivedLifetimes(q, numObjects, endObservation).value
  {
    DerivedCensoringCodes(q, numObjects, endObservation);
    CollapseOfSettled(p, DerivedLifetimes(q, numObjects, endObservation).value);
  }

  /**
   * Whatever the branch, collapsing the derived list leaves only scalar
   * lifetimes with codes 0 and 1: the shape the bootstrap works on.
   */
  lemma CollapsedListIsScalar(q: QueryResults, numObjects: int, endObservation: int, p: Policy)
    requires DerivedLifetimes(q, numObjects, endObservation).Success?
    ensures var c := CollapseAll(p, DerivedLifetimes(q, numObjects, endObservation).value);
      forall i :: 0 <= i < |c| ==> c[i].lifetime.Hours? && c[i].censoring in {Exact, RightCensored}
  {
    DerivedCensoringCodes(q, numObjects, endObservation);
  }

  /**
   * `calculate_lifetimes` after its queries: the failure-type check, one loop
   * over the records in whichever branch the malfunctions select, the
   * missing-records check, then the padding for unobserved objects.
   */
  method CalculateLifetimes(q: QueryResults, numObjects: int, endObservation: int)
    returns (r: Result<seq<Entry>, LifetimeError>)
    ensures r == DerivedLifetimes(q, numObjects, endObservation)
  {
    if !q.failureTypeFound {
      return Failure(FailureTypeCodeNotFound);
    }
    var lifetimeList: seq<Entry> := [];
    var records := q.objectLifetimes;
    if exists i :: 0 <= i < |q.malfunctions| && q.malfunctions[i].observable {
      for i := 0 to |records|
        invariant RecordEntries(true, records[..i], endObservation) == Success(lifetimeList)
      {
        assert records[..i + 1][..i] == records[..i];
        var ol := records[i];
        if ol.endDate.Some? {
          var lifetime := HoursBetween(ol.startDate, ol.endDate.value);
          lifetimeList := lifetimeList + [Entry(Hours(lifetime), Exact)];
        } else {
          var lifetime := HoursBetween(ol.startDate, endObservation);
          lifetimeList := lifetimeList + [Entry(Hours(lifetime), RightCensored)];
        }
      }
      assert records[..|records|] == records;
      var unobservedCount := numObjects - DistinctObjects(q.malfunctions);
      if q.earliestStart.None? {
        return Failure(NoLifetimeRecords);
      }
      var unobservedLifetime := HoursBetween(q.earliestStart.value, endObservation);
      lifetimeList := lifetimeList + Repeat(Entry(Hours(unobservedLifetime), RightCensored), unobservedCount);
    } else {
      for i := 0 to |records|
        invariant RecordEntries(false, records[..i], endObservation) == Success(lifetimeList)
      {
        assert records[..i + 1][..i] == records[..i];
        var ol := records[i];
        if ol.endDate.Some? {
          if ol.intervalStart.None? || ol.intervalEnd.None? {
            RecordEntriesFailureSticks(false, records, i + 1, endObservation);
            return Failure(MissingIntervalBound);
          }
          var startLifetime := HoursBetween(ol.startDate, ol.intervalStart.value);
          var endLifetime := HoursBetween(ol.startDate, ol.intervalEnd.value);
          lifetimeList := lifetimeList + [Entry(Interval(startLifetime, endLifetime), IntervalCensored)];
        } else {
          var lifetime := HoursBetween(ol.startDate, endObservation);
          lifetimeList := lifetimeList + [Entry(Hours(lifetime), RightCensored)];
        }
      }
      assert records[..|records|] == records;
      var unobservedCount := numObjects - DistinctObjects(q.malfunctions);
      if q.earliestStart.None? {
        return Failure(NoLifetimeRecords);
      }
      var unobservedLifetime := HoursBetween(q.earliestStart.value, endObservation);
      lifetimeList := lifetimeList + Repeat(Entry(Hours(unobservedLifetime), RightCensored), unobservedCount);
    }
    r := Success(lifetimeList);
  }

  /** Once a prefix of the records fails, every longer prefix fails the same way. */
  lemma {:induction false} RecordEntriesFailureSticks(observable: bool, records: seq<ObjectLifetime>, k: nat, endObservation: int)
    requires k <= |records|
    requires RecordEntries(observable, records[..k], endObservation).Failure?
    ensures RecordEntries(observable, records, endObservation) == RecordEntries(observable, records[..k], endObservation)
    decreases |records| - k
  {
    if k < |records| {
      assert records[..k + 1][..k] == records[..k];
      RecordEntriesFailureSticks(observable, records, k + 1, endObservation);
    } else {
      assert records[..k] == records;
    }
  }
}
