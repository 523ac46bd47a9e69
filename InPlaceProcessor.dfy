/**
 * The lifetime processor of `data_processing/lifetime_processor.py`: the
 * constructor splits the entries into two fields, and the interval collapse
 * overwrites those fields element by element, so a second call sees the
 * result of the first.
 */
module InPlaceProcessor {
  import opened Wrappers
  import opened Lifetimes

  class LifetimeProcessor {
    const data: seq<Entry>
    var lifetimeArray: seq<Lifetime>
    var censoringArray: seq<int>

    ghost predicate Valid()
      reads this
    {
      |lifetimeArray| == |censoringArray|
    }

    /** The two fields read back as a list of entries. */
    ghost function Entries(): seq<Entry>
      reads this
      requires Valid()
    {
      Zip(Arrays(lifetimeArray, censoringArray))
    }

    /** Includes `_extract_lifetime_and_censoring`, which builds the two fields. */
    constructor (data: seq<Entry>)
      ensures Valid()
      ensures this.data == data
      ensures |lifetimeArray| == |data|
      ensures Entries() == data
    {
      this.data := data;
      var arrays := Split(data);
      lifetimeArray, censoringArray := arrays.lifetimes, arrays.censorings;
    }

    method ProcessIntervalCensoring(indicator: string) returns (r: Result<Arrays, CollapseError>)
      requires Valid()
      modifies this
      ensures Valid()
      ensures r.Failure? <==> ParsePolicy(indicator).None?
      ensures r.Failure? ==> lifetimeArray == old(lifetimeArray) && censoringArray == old(censoringArray)
      ensures r.Success? ==>
        && r.value == Arrays(lifetimeArray, censoringArray)
        && |lifetimeArray| == old(|lifetimeArray|)
        && Entries() == CollapseAll(ParsePolicy(indicator).value, old(Entries()))
      ensures old(Settled(Entries())) ==> lifetimeArray == old(lifetimeArray) && censoringArray == old(censoringArray)
      ensures Settled(Entries()) || r.Failure?
    {
      var policy := ParsePolicy(indicator);
      if policy.None? {
        return Failure(InvalidIndicator);
      }
      ghost var before := Entries();
      for i := 0 to |lifetimeArray|
        invariant |lifetimeArray| == |censoringArray| == |before|
        invariant forall j :: 0 <= j < i ==> Entry(lifetimeArray[j], censoringArray[j]) == CollapseEntry(policy.value, before[j])
        invariant forall j :: i <= j < |before| ==> Entry(lifetimeArray[j], censoringArray[j]) == before[j]
      {
        var lifetime := lifetimeArray[i];
        var censoring := censoringArray[i];
        if censoring == IntervalCensored && lifetime.Interval? {
          match policy.value {
            case Start =>
              lifetimeArray := lifetimeArray[i := Hours(lifetime.start)];
            case Mid =>
              lifetimeArray := lifetimeArray[i := Hours((lifetime.start + lifetime.end) / 2.0)];
            case End =>
              lifetimeArray := lifetimeArray[i := Hours(lifetime.end)];
          }
          censoringArray := censoringArray[i := Exact];
        }
        assert Entry(lifetimeArray[i], censoringArray[i]) == CollapseEntry(policy.value, before[i]);
      }
      CollapseSettles(policy.value, before);
      if Settled(before) {
        CollapseOfSettled(policy.value, before);
        assert Entries() == before;
        assert lifetimeArray == Split(Entries()).lifetimes;
        assert censoringArray == Split(Entries()).censorings;
      }
      r := Success(Arrays(lifetimeArray, censoringArray));
    }
  }
}
