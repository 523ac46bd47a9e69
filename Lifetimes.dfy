/**
 * Lifetime observations as the lifetime processors receive them: a list of
 * `{lifetime, censoring}` entries, where an interval-censored lifetime is the
 * pair of its bounds in hours. Both lifetime processors split such a list into
 * two index-aligned arrays and collapse every interval to one representative
 * value; this module holds what the two share and the facts about the collapse.
 */
module Lifetimes {
  import opened Wrappers

  /** Censoring codes. */
  const Exact: int := 0
  const RightCensored: int := 1
  const IntervalCensored: int := 2

  /** A lifetime in hours: one duration, or the bounds `[start, end]` of an interval. */
  datatype Lifetime = Hours(hours: real) | Interval(start: real, end: real)

  /** One `{"lifetime": ..., "censoring": ...}` dictionary. */
  datatype Entry = Entry(lifetime: Lifetime, censoring: int)

  /** The two index-aligned arrays the processors return. */
  datatype Arrays = Arrays(lifetimes: seq<Lifetime>, censorings: seq<int>)

  /** The accepted values of `interval_lifetime_indicator`. */
  datatype Policy = Start | Mid | End

  /** The failed `assert` on the indicator (an AssertionError). */
  datatype CollapseError = InvalidIndicator

  function ParsePolicy(indicator: string): (r: Option<Policy>)
    ensures r.Some? <==> indicator in ["start", "mid", "end"]
  {
    if indicator == "start" then Some(Start)
    else if indicator == "mid" then Some(Mid)
    else if indicator == "end" then Some(End)
    else None
  }

  /** The value that stands for the interval `[a, b]` under policy `p`. */
  function Representative(p: Policy, a: real, b: real): (r: real)
    ensures a <= b ==> a <= r <= b
    ensures p.Mid? ==> r - a == b - r
  {
    match p
    case Start => a
    case Mid => (a + b) / 2.0
    case End => b
  }

  /** The entries the collapse rewrites: censoring 2 with a list-valued lifetime. */
  predicate IsOpenInterval(e: Entry)
  {
    e.censoring == IntervalCensored && e.lifetime.Interval?
  }

  /** An interval becomes an exact scalar picked by the policy; every other entry is kept. */
  function CollapseEntry(p: Policy, e: Entry): (r: Entry)
    ensures !IsOpenInterval(r)
    ensures !IsOpenInterval(e) ==> r == e
    ensures IsOpenInterval(e) ==>
      && r.censoring == Exact
      && r.lifetime.Hours?
      && (e.lifetime.start <= e.lifetime.end ==> e.lifetime.start <= r.lifetime.hours <= e.lifetime.end)
      && (p.Start? ==> r.lifetime.hours == e.lifetime.start)
      && (p.Mid? ==> r.lifetime.hours - e.lifetime.start == e.lifetime.end - r.lifetime.hours)
      && (p.End? ==> r.lifetime.hours == e.lifetime.end)
  {
    if IsOpenInterval(e) then
      Entry(Hours(Representative(p, e.lifetime.start, e.lifetime.end)), Exact)
    else
      e
  }

  /** The collapse of a whole list, position by position. */
  function CollapseAll(p: Policy, data: seq<Entry>): (r: seq<Entry>)
    ensures |r| == |data|
    ensures forall i :: 0 <= i < |data| && !IsOpenInterval(data[i]) ==> r[i] == data[i]
    ensures forall i :: 0 <= i < |data| && IsOpenInterval(data[i]) ==>
      r[i].censoring == Exact && r[i].lifetime.Hours?
  {
    seq(|data|, i requires 0 <= i < |data| => CollapseEntry(p, data[i]))
  }

  /** No entry is left for the collapse to rewrite. */
  predicate Settled(data: seq<Entry>)
  {
    forall i :: 0 <= i < |data| ==> !IsOpenInterval(data[i])
  }

  /** The two comprehensions `[entry["lifetime"] ...]` and `[entry["censoring"] ...]`. */
  function Split(data: seq<Entry>): (r: Arrays)
    ensures |r.lifetimes| == |r.censorings| == |data|
  {
    Arrays(seq(|data|, i requires 0 <= i < |data| => data[i].lifetime),
           seq(|data|, i requires 0 <= i < |data| => data[i].censoring))
  }

  /** Reads two index-aligned arrays back as a list of entries. */
  function Zip(a: Arrays): (r: seq<Entry>)
    requires |a.lifetimes| == |a.censorings|
    ensures |r| == |a.lifetimes|
  {
    seq(|a.lifetimes|, i requires 0 <= i < |a.lifetimes| => Entry(a.lifetimes[i], a.censorings[i]))
  }

  /** Splitting and zipping are inverse to each other. */
  lemma SplitZipRoundTrip(data: seq<Entry>, a: Arrays)
    requires |a.lifetimes| == |a.censorings|
    ensures Zip(Split(data)) == data
    ensures Split(Zip(a)) == a
  {
  }

  /** After a collapse with any policy nothing is left to collapse. */
  lemma CollapseSettles(p: Policy, data: seq<Entry>)
    ensures Settled(CollapseAll(p, data))
  {
  }

  /** The collapse leaves a settled list alone, whatever the policy. */
  lemma CollapseOfSettled(p: Policy, data: seq<Entry>)
    requires Settled(data)
    ensures CollapseAll(p, data) == data
  {
  }

  /** Collapsing twice, with any two policies, is collapsing once. */
  lemma CollapseIdempotent(p: Policy, q: Policy, data: seq<Entry>)
    ensures CollapseAll(q, CollapseAll(p, data)) == CollapseAll(p, data)
  {
    CollapseSettles(p, data);
    CollapseOfSettled(q, CollapseAll(p, data));
  }
}
