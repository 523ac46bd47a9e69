/**
 * The lifetime processor of `dataprocessing/lifetime_processor.py`: it keeps
 * the list of entries it was built with, and its simplification builds fresh
 * arrays from that list before rewriting them, so the list itself is never
 * touched.
 */
module CopyingProcessor {
  import opened Wrappers
  import opened Lifetimes

  class LifetimeProcessor {
    const data: seq<Entry>

    constructor (data: seq<Entry>)
      ensures this.data == data
    {
      this.data := data;
    }

    /** The lifetimes and the censoring codes, index by index. */
    function GetLifetimeArrays(): (r: Arrays)
      ensures |r.lifetimes| == |r.censorings| == |data|
      ensures Zip(r) == data
    {
      Split(data)
    }

    /**
     * Rewrites every interval-censored pair `[a, b]` to `a`, `(a + b) / 2`
     * or `b` and reclassifies it as exact; any other indicator fails the
     * assertion before the arrays are built.
     */
    method GetSimplifiedLifetimeArrays(indicator: string) returns (r: Result<Arrays, CollapseError>)
      ensures r.Failure? <==> ParsePolicy(indicator).None?
      ensures r.Success? ==>
        && |r.value.lifetimes| == |r.value.censorings| == |data|
        && Zip(r.value) == CollapseAll(ParsePolicy(indicator).value, data)
    {
      var policy := ParsePolicy(indicator);
      if policy.None? {
        return Failure(InvalidIndicator);
      }
      var arrays := GetLifetimeArrays();
      var lifetimes, censorings := arrays.lifetimes, arrays.censorings;
      for i := 0 to |lifetimes|
        invariant |lifetimes| == |censorings| == |data|
        invariant forall j :: 0 <= j < i ==> Entry(lifetimes[j], censorings[j]) == CollapseEntry(policy.value, data[j])
        invariant forall j :: i <= j < |data| ==> Entry(lifetimes[j], censorings[j]) == data[j]
      {
        var lifetime := lifetimes[i];
        var censoring := censorings[i];
        if censoring == IntervalCensored && lifetime.Interval? {
          match policy.value {
            case Start =>
              lifetimes := lifetimes[i := Hours(lifetime.start)];
            case Mid =>
              lifetimes := lifetimes[i := Hours((lifetime.start + lifetime.end) / 2.0)];
            case End =>
              lifetimes := lifetimes[i := Hours(lifetime.end)];
          }
          censorings := censorings[i := Exact];
        }
        assert Entry(lifetimes[i], censorings[i]) == CollapseEntry(policy.value, data[i]);
      }
      r := Success(Arrays(lifetimes, censorings));
    }
  }
}
