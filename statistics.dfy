/**
 * The aggregates the benchmark summary reports per language: sums and
 * means, the smallest and largest value, the median and the
 * linear-interpolation percentile, over exact reals.
 */
module Statistics {

  function Sum(vals: seq<real>): real
    decreases |vals|
  {
    if vals == [] then 0.0 else Sum(vals[..|vals| - 1]) + vals[|vals| - 1]
  }

  predicate Sorted(vals: seq<real>) {
    forall i, j :: 0 <= i < j < |vals| ==> vals[i] <= vals[j]
  }

  /** Every value lies in [lo, hi]. */
  predicate Within(vals: seq<real>, lo: real, hi: real) {
    forall i :: 0 <= i < |vals| ==> lo <= vals[i] <= hi
  }

  lemma {:induction false} SumWithin(vals: seq<real>, lo: real, hi: real)
    requires Within(vals, lo, hi)
    ensures |vals| as real * lo <= Sum(vals) <= |vals| as real * hi
    decreases |vals|
  {
    if vals != [] {
      var init := vals[..|vals| - 1];
      assert Within(init, lo, hi) by {
        forall i | 0 <= i < |init| ensures lo <= init[i] <= hi {
          assert init[i] == vals[i];
        }
      }
      SumWithin(init, lo, hi);
    }
  }

  lemma SumSnoc(vals: seq<real>, x: real)
    ensures Sum(vals + [x]) == Sum(vals) + x
  {
    assert (vals + [x])[..|vals|] == vals;
  }

  /** `sum(vals) / len(vals) if vals else fallback`. */
  function MeanOr(vals: seq<real>, fallback: real): (m: real)
    ensures vals == [] ==> m == fallback
    ensures vals != [] ==> m * |vals| as real == Sum(vals)
  {
    if vals == [] then fallback else Sum(vals) / |vals| as real
  }

  /** A mean lies within any bounds its values lie within. */
  lemma MeanWithin(vals: seq<real>, fallback: real, lo: real, hi: real)
    requires vals != [] && Within(vals, lo, hi)
    ensures lo <= MeanOr(vals, fallback) <= hi
  {
    SumWithin(vals, lo, hi);
    var n := |vals| as real;
    var m := MeanOr(vals, fallback);
    assert m * n == Sum(vals);
  }

  /** `min(vals)`: a member no larger than any other. */
  function MinOf(vals: seq<real>): (m: real)
    requires vals != []
    ensures m in vals
    ensures forall i :: 0 <= i < |vals| ==> m <= vals[i]
    decreases |vals|
  {
    if |vals| == 1 then vals[0]
    else
      var rest := MinOf(vals[1..]);
      assert forall i :: 1 <= i < |vals| ==> vals[i] == vals[1..][i - 1];
      if vals[0] <= rest then vals[0] else rest
  }

  /** `max(vals)`: a member no smaller than any other. */
  function MaxOf(vals: seq<real>): (m: real)
    requires vals != []
    ensures m in vals
    ensures forall i :: 0 <= i < |vals| ==> vals[i] <= m
    decreases |vals|
  {
    if |vals| == 1 then vals[0]
    else
      var rest := MaxOf(vals[1..]);
      assert forall i :: 1 <= i < |vals| ==> vals[i] == vals[1..][i - 1];
      if vals[0] >= rest then vals[0] else rest
  }

  /**
   * `_median`: 0.0 for no values; otherwise the middle value, or the mean of
   * the two middle values for an even count. On sorted values at least half
   * of them lie at or below it and at least half at or above it.
   */
  function Median(vals: seq<real>): (m: real)
    ensures vals == [] ==> m == 0.0
    ensures Sorted(vals) ==>
              && (forall i :: 0 <= i < (|vals| + 1) / 2 ==> vals[i] <= m)
              && (forall i :: |vals| / 2 <= i < |vals| ==> m <= vals[i])
  {
    var n := |vals|;
    if n == 0 then 0.0
    else
      var mid := n / 2;
      if n % 2 == 0 then (vals[mid] + vals[mid - 1]) / 2.0 else vals[mid]
  }

  /** The median is the middle value for an odd count and the mean of the two middle values for an even one. */
  lemma MedianMiddle(vals: seq<real>)
    requires vals != []
    ensures |vals| % 2 == 1 ==> Median(vals) == vals[|vals| / 2]
    ensures |vals| % 2 == 0 ==> Median(vals) == (vals[|vals| / 2 - 1] + vals[|vals| / 2]) / 2.0
  {
  }

  function MinInt(a: int, b: int): int {
    if a <= b then a else b
  }

  /** `int(k)` for a non-negative `k` at most `n - 1`: an index into a list of `n` values. */
  lemma ScaledIndex(n: nat, pct: real)
    requires n > 0 && 0.0 <= pct <= 100.0
    ensures 0.0 <= (n - 1) as real * pct / 100.0 <= (n - 1) as real
    ensures 0 <= ((n - 1) as real * pct / 100.0).Floor <= n - 1
  {
    var m := (n - 1) as real;
    assert m * pct <= m * 100.0;
  }

  /**
   * `_percentile`: 0.0 for no values; otherwise the value at rank
   * k = (n - 1) * pct / 100, interpolating linearly between the values at
   * `int(k)` and the next index (capped at the last). On sorted values it
   * lies between those two, so between the first and the last value.
   */
  function Percentile(vals: seq<real>, pct: real): (p: real)
    requires 0.0 <= pct <= 100.0
    ensures vals == [] ==> p == 0.0
    ensures Sorted(vals) && vals != [] ==> vals[0] <= p <= vals[|vals| - 1]
  {
    if vals == [] then 0.0
    else
      var n := |vals|;
      ScaledIndex(n, pct);
      var k := (n - 1) as real * pct / 100.0;
      var lo := k.Floor;
      var hi := MinInt(lo + 1, n - 1);
      var frac := k - lo as real;
      assert 0.0 <= frac < 1.0;
      var p := vals[lo] + frac * (vals[hi] - vals[lo]);
      assert Sorted(vals) ==> vals[lo] <= p <= vals[hi] by {
        if Sorted(vals) {
          Interpolate(vals[lo], vals[hi], frac);
        }
      }
      p
  }

  /** A point a fraction of the way from `a` to `b` lies between them. */
  lemma Interpolate(a: real, b: real, frac: real)
    requires a <= b && 0.0 <= frac <= 1.0
    ensures a <= a + frac * (b - a) <= b
  {
    assert frac * (b - a) <= 1.0 * (b - a);
  }

  /** The 95th percentile of 1, 2, ..., 10 is 9.55. */
  lemma PercentileOfOneToTen()
    ensures Percentile([1.0, 2.0, 3.0, 4.0, 5.0, 6.0, 7.0, 8.0, 9.0, 10.0], 95.0) == 9.55
  {
    var vals := [1.0, 2.0, 3.0, 4.0, 5.0, 6.0, 7.0, 8.0, 9.0, 10.0];
    assert 9 as real * 95.0 / 100.0 == 8.55;
    assert (8.55).Floor == 8;
  }

  /** The 0th and 100th percentiles are the first and the last value. */
  lemma PercentileEnds(vals: seq<real>)
    requires vals != []
    ensures Percentile(vals, 0.0) == vals[0]
    ensures Percentile(vals, 100.0) == vals[|vals| - 1]
  {
    var n := |vals|;
    assert (n - 1) as real * 100.0 / 100.0 == (n - 1) as real;
    assert ((n - 1) as real).Floor == n - 1;
  }

  /** The value `_percentile` interpolates, with its two indices named. */
  lemma PercentileAt(vals: seq<real>, pct: real)
    requires vals != [] && 0.0 <= pct <= 100.0
    ensures var k := (|vals| - 1) as real * pct / 100.0;
            var lo := k.Floor;
            var hi := MinInt(lo + 1, |vals| - 1);
            && 0 <= lo <= hi < |vals|
            && Percentile(vals, pct) == vals[lo] + (k - lo as real) * (vals[hi] - vals[lo])
  {
    ScaledIndex(|vals|, pct);
  }

  /** The 50th percentile is the median, whatever the order of the values. */
  lemma PercentileFiftyIsMedian(vals: seq<real>)
    ensures Percentile(vals, 50.0) == Median(vals)
  {
    var n := |vals|;
    if n > 0 {
      PercentileAt(vals, 50.0);
      MedianMiddle(vals);
      var k := (n - 1) as real * 50.0 / 100.0;
      if n % 2 == 1 {
        assert k == (n / 2) as real;
        assert k.Floor == n / 2;
        assert Percentile(vals, 50.0) == vals[n / 2];
      } else {
        var lo := n / 2 - 1;
        assert k == lo as real + 0.5;
        assert k.Floor == lo;
        assert MinInt(lo + 1, n - 1) == n / 2;
        assert Percentile(vals, 50.0) == vals[lo] + 0.5 * (vals[n / 2] - vals[lo]);
      }
    }
  }
}
