/**
 * The bootstrap draw shared by the three bootstrap implementations:
 * `np.random.choice(lifetime_array, len(lifetime_array), replace=True)`
 * followed by the censoring lookup
 * `censoring_array[lifetime_array.index(sample)]`. The random choice is
 * replaced by a caller-supplied vector of indices.
 */
module Resampling {

  /** The retry cap of the draw loops. */
  const MaxAttempts: nat := 1000

  /** A lifetime array with its index-aligned censoring array. */
  datatype Dataset = Dataset(lifetimes: seq<real>, censorings: seq<int>)

  predicate Aligned(d: Dataset)
  {
    |d.lifetimes| == |d.censorings|
  }

  /** `list.index(x)`: the first position holding `x`. */
  function FirstIndex(s: seq<real>, x: real): (r: nat)
    requires x in s
    ensures r < |s| && s[r] == x
    ensures forall j :: 0 <= j < r ==> s[j] != x
  {
    if s[0] == x then 0 else 1 + FirstIndex(s[1..], x)
  }

  /** One draw of `n` indices into an array of length `n`, with replacement. */
  predicate IsDraw(draw: seq<nat>, n: nat)
  {
    |draw| == n && forall j :: 0 <= j < |draw| ==> draw[j] < n
  }

  /** Enough draws for every attempt of a capped draw loop. */
  predicate IsDrawSupply(draws: seq<seq<nat>>, n: nat)
  {
    MaxAttempts <= |draws| && forall k :: 0 <= k < |draws| ==> IsDraw(draws[k], n)
  }

  /** The drawn lifetimes, each with the code of the FIRST record holding that value. */
  function Resample(source: Dataset, draw: seq<nat>): (r: Dataset)
    requires Aligned(source) && IsDraw(draw, |source.lifetimes|)
    ensures Aligned(r) && |r.lifetimes| == |source.lifetimes|
  {
    var samples := seq(|draw|, j requires 0 <= j < |draw| => source.lifetimes[draw[j]]);
    Dataset(samples,
            seq(|draw|, j requires 0 <= j < |draw| =>
              source.censorings[FirstIndex(source.lifetimes, samples[j])]))
  }

  /** The datasets a capped draw loop tries, one per attempt. */
  function Attempts(source: Dataset, draws: seq<seq<nat>>): (r: seq<Dataset>)
    requires Aligned(source) && IsDrawSupply(draws, |source.lifetimes|)
    ensures |r| == MaxAttempts
  {
    seq(MaxAttempts, k requires 0 <= k < MaxAttempts => Resample(source, draws[k]))
  }

  /** `set(samples)`. */
  function Distinct(s: seq<real>): set<real>
  {
    set x | x in s
  }

  /** A draw is made of whole records of the source: for each drawn value, its first record. */
  lemma ResampledPairsAreSourceRecords(source: Dataset, draw: seq<nat>)
    requires Aligned(source) && IsDraw(draw, |source.lifetimes|)
    ensures var r := Resample(source, draw);
      forall j :: 0 <= j < |draw| ==>
        && r.lifetimes[j] == source.lifetimes[draw[j]]
        && exists k ::
             && 0 <= k <= draw[j]
             && r.lifetimes[j] == source.lifetimes[k]
             && r.censorings[j] == source.censorings[k]
             && forall i :: 0 <= i < k ==> source.lifetimes[i] != r.lifetimes[j]
  {
    var r := Resample(source, draw);
    forall j | 0 <= j < |draw|
      ensures exists k ::
        && 0 <= k <= draw[j]
        && r.lifetimes[j] == source.lifetimes[k]
        && r.censorings[j] == source.censorings[k]
        && forall i :: 0 <= i < k ==> source.lifetimes[i] != r.lifetimes[j]
    {
      var k := FirstIndex(source.lifetimes, r.lifetimes[j]);
      assert k <= draw[j];
    }
  }

  /**
   * When equal lifetimes always carry equal codes, the lookup gives every
   * drawn value the code of the record that was actually drawn.
   */
  lemma LookupMatchesDrawnRecord(source: Dataset, draw: seq<nat>)
    requires Aligned(source) && IsDraw(draw, |source.lifetimes|)
    requires forall i, k :: 0 <= i < |source.lifetimes| && 0 <= k < |source.lifetimes| && source.lifetimes[i] == source.lifetimes[k] ==>
               source.censorings[i] == source.censorings[k]
    ensures forall j :: 0 <= j < |draw| ==> Resample(source, draw).censorings[j] == source.censorings[draw[j]]
  {
  }

  /**
   * Otherwise it does not: of two records with lifetime 5, the first
   * right-censored and the second exact, drawing the second twice gives
   * code 1 twice.
   */
  lemma LookupIgnoresDrawnRecord()
    ensures var source := Dataset([5.0, 5.0], [1, 0]);
      && Resample(source, [1, 1]).censorings == [1, 1]
      && [source.censorings[1], source.censorings[1]] == [0, 0]
  {
    var source := Dataset([5.0, 5.0], [1, 0]);
    assert FirstIndex(source.lifetimes, 5.0) == 0;
  }

  /**
   * If every exact record shares its lifetime with an earlier record that is
   * not exact, no draw whatever carries code 0: those exact observations are
   * invisible to the bootstrap.
   */
  lemma ExactRecordsCanBeUnreachable(source: Dataset, draw: seq<nat>)
    requires Aligned(source) && IsDraw(draw, |source.lifetimes|)
    requires forall i :: 0 <= i < |source.lifetimes| && source.censorings[i] == 0 ==>
               exists k :: 0 <= k < i && source.lifetimes[k] == source.lifetimes[i] && source.censorings[k] != 0
    ensures 0 !in Resample(source, draw).censorings
  {
    var r := Resample(source, draw);
    forall j | 0 <= j < |draw|
      ensures r.censorings[j] != 0
    {
      var f := FirstIndex(source.lifetimes, r.lifetimes[j]);
      assert source.censorings[f] != 0;
    }
  }

  /** `len(set(s)) == 1` exactly when `s` is non-empty and constant. */
  lemma SingletonIffConstant(s: seq<real>)
    ensures |Distinct(s)| == 1 <==> |s| > 0 && forall i :: 0 <= i < |s| ==> s[i] == s[0]
  {
    if |s| > 0 && forall i :: 0 <= i < |s| ==> s[i] == s[0] {
      assert Distinct(s) == {s[0]};
    } else if |s| == 0 {
      assert Distinct(s) == {};
    } else {
      var i :| 0 <= i < |s| && s[i] != s[0];
      assert {s[0], s[i]} <= Distinct(s);
      assert |{s[0], s[i]}| == 2;
      assert |{s[0], s[i]}| <= |Distinct(s)| by {
        SubsetCardinality({s[0], s[i]}, Distinct(s));
      }
    }
  }

  lemma SubsetCardinality(a: set<real>, b: set<real>)
    requires a <= b
    ensures |a| <= |b|
  {
    assert b == a + (b - a);
  }
}
