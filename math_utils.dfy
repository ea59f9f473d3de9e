/** The numeric helpers of `utils/math.py`: mean, median, percentile, clamp, normalize and
    safe division, with `sum`, `min`, `max` and `sorted` of a list of numbers. */
module MathUtils {
  import opened Wrappers

  function Sum(s: seq<real>): real {
    if s == [] then 0.0 else Sum(s[..|s| - 1]) + s[|s| - 1]
  }

  /** `sum(s) / len(s)`. */
  function Mean(s: seq<real>): real
    requires |s| > 0
  {
    Sum(s) / |s| as real
  }

  /** `min(s)`. */
  function MinOf(s: seq<real>): (m: real)
    requires |s| > 0
    ensures m in s && forall x :: x in s ==> m <= x
  {
    if |s| == 1 then s[0]
    else
      var rest := MinOf(s[..|s| - 1]);
      assert forall x :: x in s ==> x in s[..|s| - 1] || x == s[|s| - 1];
      if s[|s| - 1] < rest then s[|s| - 1] else rest
  }

  /** `max(s)`. */
  function MaxOf(s: seq<real>): (m: real)
    requires |s| > 0
    ensures m in s && forall x :: x in s ==> x <= m
  {
    if |s| == 1 then s[0]
    else
      var rest := MaxOf(s[..|s| - 1]);
      assert forall x :: x in s ==> x in s[..|s| - 1] || x == s[|s| - 1];
      if s[|s| - 1] > rest then s[|s| - 1] else rest
  }

  /** A sum of values between `lo` and `hi` lies between `n * lo` and `n * hi`. */
  lemma {:induction false} SumBounds(s: seq<real>, lo: real, hi: real)
    requires forall x :: x in s ==> lo <= x <= hi
    ensures |s| as real * lo <= Sum(s) <= |s| as real * hi
  {
    if s != [] {
      var init, last := s[..|s| - 1], s[|s| - 1];
      assert forall x :: x in init ==> x in s;
      assert last in s;
      SumBounds(init, lo, hi);
      var n := |init| as real;
      assert |s| as real * lo == n * lo + lo;
      assert |s| as real * hi == n * hi + hi;
    }
  }

  /** The mean of a nonempty list lies between its minimum and its maximum. */
  lemma {:induction false} MeanBetween(s: seq<real>)
    requires |s| > 0
    ensures MinOf(s) <= Mean(s) <= MaxOf(s)
  {
    var n, lo, hi := |s| as real, MinOf(s), MaxOf(s);
    SumBounds(s, lo, hi);
    DivBounds(Sum(s), n, lo, hi);
  }

  lemma DivBounds(x: real, n: real, lo: real, hi: real)
    requires n > 0.0 && n * lo <= x <= n * hi
    ensures lo <= x / n <= hi
  {
    var q := x / n;
    assert q * n == x;
    assert (q - lo) * n >= 0.0;
    assert (hi - q) * n >= 0.0;
  }

  // ----- calculate_mean -----

  /** `calculate_mean(values)`: 0.0 for an empty list, otherwise `sum / len`. */
  function CalculateMean(values: seq<real>): (r: real)
    ensures values == [] ==> r == 0.0
  {
    if values == [] then 0.0 else Mean(values)
  }

  /** The mean of a nonempty list lies between its minimum and its maximum. */
  lemma {:induction false} CalculateMeanBetween(values: seq<real>)
    requires values != []
    ensures MinOf(values) <= CalculateMean(values) <= MaxOf(values)
  {
    MeanBetween(values);
  }

  /** The mean times the count gives back the sum. */
  lemma MeanTimesCount(values: seq<real>)
    requires values != []
    ensures CalculateMean(values) * |values| as real == Sum(values)
  {
    var n := |values| as real;
    var m := CalculateMean(values);
    assert m == Sum(values) / n;
    DivTimes(Sum(values), n);
    assert m * n == Sum(values);
  }

  lemma DivTimes(x: real, n: real)
    requires n != 0.0
    ensures x / n * n == x
  {
  }

  // ----- sorted -----

  predicate Ascending(s: seq<real>) {
    forall i, j :: 0 <= i < j < |s| ==> s[i] <= s[j]
  }

  function InsertAscending(x: real, s: seq<real>): seq<real> {
    if s == [] || x <= s[0] then [x] + s else [s[0]] + InsertAscending(x, s[1..])
  }

  lemma {:induction false} InsertAscendingCount(x: real, s: seq<real>)
    ensures |InsertAscending(x, s)| == |s| + 1
    ensures multiset(InsertAscending(x, s)) == multiset(s) + multiset{x}
  {
    if s != [] && !(x <= s[0]) {
      InsertAscendingCount(x, s[1..]);
      assert s == [s[0]] + s[1..];
    }
  }

  /** A value no larger than any entry of an ascending list can go in front of it. */
  lemma AscendingCons(a: real, t: seq<real>)
    requires Ascending(t)
    requires forall k :: 0 <= k < |t| ==> a <= t[k]
    ensures Ascending([a] + t)
  {
    var r := [a] + t;
    forall i, j | 0 <= i < j < |r| ensures r[i] <= r[j] {
      assert r[j] == t[j - 1];
      if i > 0 { assert r[i] == t[i - 1]; }
    }
  }

  lemma {:induction false} InsertAscendingSorted(x: real, s: seq<real>)
    requires Ascending(s)
    ensures Ascending(InsertAscending(x, s))
  {
    if s == [] || x <= s[0] {
      AscendingCons(x, s);
    } else {
      var t := InsertAscending(x, s[1..]);
      assert Ascending(s[1..]);
      InsertAscendingSorted(x, s[1..]);
      InsertAscendingCount(x, s[1..]);
      forall k | 0 <= k < |t| ensures s[0] <= t[k] {
        assert t[k] in multiset(t);
        if t[k] != x {
          assert t[k] in multiset(s[1..]);
          var m :| 0 <= m < |s[1..]| && s[1..][m] == t[k];
          assert s[0] <= s[m + 1];
        }
      }
      AscendingCons(s[0], t);
    }
  }

  /** `sorted(values)`: the same values in ascending order. */
  function Sorted(values: seq<real>): (r: seq<real>)
    ensures |r| == |values| && multiset(r) == multiset(values)
    ensures Ascending(r)
  {
    if values == [] then []
    else
      var rest := Sorted(values[1..]);
      InsertAscendingCount(values[0], rest);
      InsertAscendingSorted(values[0], rest);
      assert values == [values[0]] + values[1..];
      InsertAscending(values[0], rest)
  }

  /** Two ascending lists holding the same values are equal. */
  lemma {:induction false} AscendingUnique(a: seq<real>, b: seq<real>)
    requires Ascending(a) && Ascending(b) && multiset(a) == multiset(b)
    ensures a == b
  {
    if a != [] {
      assert |b| == |a| by { assert |multiset(a)| == |multiset(b)|; }
      AscendingHead(a, b);
      AscendingHead(b, a);
      TailMultiset(a);
      TailMultiset(b);
      AscendingTail(a);
      AscendingTail(b);
      AscendingUnique(a[1..], b[1..]);
      assert a == [a[0]] + a[1..] && b == [b[0]] + b[1..];
    }
  }

  /** The first value of an ascending list is no larger than any value of a list with the
      same values. */
  lemma AscendingHead(a: seq<real>, b: seq<real>)
    requires Ascending(a) && multiset(a) == multiset(b) && a != [] && b != []
    ensures a[0] <= b[0]
  {
    assert b[0] in multiset(a);
    var k :| 0 <= k < |a| && a[k] == b[0];
  }

  lemma TailMultiset(a: seq<real>)
    requires a != []
    ensures multiset(a[1..]) == multiset(a) - multiset{a[0]}
  {
    assert a == [a[0]] + a[1..];
  }

  lemma AscendingTail(a: seq<real>)
    requires Ascending(a) && a != []
    ensures Ascending(a[1..])
  {
    forall i, j | 0 <= i < j < |a[1..]| ensures a[1..][i] <= a[1..][j] {
      assert a[1..][i] == a[i + 1] && a[1..][j] == a[j + 1];
    }
  }

  /** Sorting depends only on which values occur how often, not on their order. */
  lemma {:induction false} SortedOfPermutation(a: seq<real>, b: seq<real>)
    requires multiset(a) == multiset(b)
    ensures Sorted(a) == Sorted(b)
  {
    AscendingUnique(Sorted(a), Sorted(b));
  }

  /** The first sorted value is the minimum and the last the maximum. */
  lemma {:induction false} SortedEnds(values: seq<real>)
    requires values != []
    ensures Sorted(values)[0] == MinOf(values)
    ensures Sorted(values)[|values| - 1] == MaxOf(values)
    ensures forall i :: 0 <= i < |values| ==> MinOf(values) <= Sorted(values)[i] <= MaxOf(values)
  {
    var s := Sorted(values);
    var lo, hi := MinOf(values), MaxOf(values);
    forall i | 0 <= i < |s| ensures lo <= s[i] <= hi {
      assert s[i] in multiset(values);
      assert s[i] in values;
    }
    assert lo in multiset(s);
    var a :| 0 <= a < |s| && s[a] == lo;
    assert s[0] <= s[a];
    assert hi in multiset(s);
    var b :| 0 <= b < |s| && s[b] == hi;
    assert s[b] <= s[|s| - 1];
  }

  // ----- calculate_median -----

  /** `calculate_median(values)`: 0.0 when empty; the middle sorted value for an odd count,
      the mean of the two middle ones for an even count. */
  function CalculateMedian(values: seq<real>): real {
    if values == [] then 0.0
    else
      var s := Sorted(values);
      var n := |s|;
      if n % 2 == 0 then (s[n / 2 - 1] + s[n / 2]) / 2.0 else s[n / 2]
  }

  /** The median does not depend on the order of the input. */
  lemma {:induction false} MedianOrderFree(a: seq<real>, b: seq<real>)
    requires multiset(a) == multiset(b)
    ensures CalculateMedian(a) == CalculateMedian(b)
  {
    SortedOfPermutation(a, b);
    assert |a| == |b| by { assert |multiset(a)| == |multiset(b)|; }
  }

  /** The median of a nonempty list lies between its minimum and its maximum. */
  lemma {:induction false} MedianBetween(values: seq<real>)
    requires values != []
    ensures MinOf(values) <= CalculateMedian(values) <= MaxOf(values)
  {
    SortedEnds(values);
  }

  // ----- calculate_std_dev -----

  function SquaredDeviations(values: seq<real>, mean: real): (r: real)
    ensures r >= 0.0
  {
    if values == [] then 0.0
    else
      var d := values[|values| - 1] - mean;
      SquaredDeviations(values[..|values| - 1], mean) + d * d
  }

  /** `calculate_std_dev(values)`: 0.0 for fewer than two values; otherwise the square root,
      passed in as `sqrt`, of the sample variance. */
  function CalculateStdDev(values: seq<real>, sqrt: real -> real): (r: real)
    ensures |values| < 2 ==> r == 0.0
    ensures |values| >= 2 ==> r == sqrt(SampleVariance(values))
  {
    if |values| < 2 then 0.0 else sqrt(SampleVariance(values))
  }

  /** The sample variance, never negative, so the square root is always defined. */
  function SampleVariance(values: seq<real>): (v: real)
    requires |values| >= 2
    ensures v >= 0.0
  {
    SquaredDeviations(values, CalculateMean(values)) / (|values| - 1) as real
  }

  /** Equal values have no spread. */
  lemma {:induction false} ConstantNoDeviation(values: seq<real>, c: real)
    requires forall i :: 0 <= i < |values| ==> values[i] == c
    ensures SquaredDeviations(values, c) == 0.0
  {
    if values != [] {
      ConstantNoDeviation(values[..|values| - 1], c);
    }
  }

  // ----- calculate_percentile -----

  /** `s[i]` with Python's indexing: a negative index counts from the end; `None` is an
      `IndexError`. */
  function PyIndex(s: seq<real>, i: int): (r: Option<real>)
    ensures 0 <= i < |s| ==> r == Some(s[i])
    ensures r.None? <==> !(-|s| <= i < |s|)
  {
    if 0 <= i < |s| then Some(s[i]) else if -|s| <= i < 0 then Some(s[|s| + i]) else None
  }

  /** `math.ceil`. */
  function Ceil(x: real): int {
    if x.Floor as real == x then x.Floor else x.Floor + 1
  }

  /** `calculate_percentile(values, percentile)`. `None` stands for the `IndexError` a
      percentile outside 0..100 can raise. */
  function CalculatePercentile(values: seq<real>, percentile: real): (r: Option<real>)
    ensures values == [] ==> r == Some(0.0)
  {
    if values == [] then Some(0.0)
    else
      var s := Sorted(values);
      AtRank(s, RankOf(|s|, percentile))
  }

  /** The fractional rank of a percentile among `n` sorted values: 0 for the first value,
      `n - 1` for the last. */
  function RankOf(n: int, percentile: real): real {
    (n - 1) as real * (percentile / 100.0)
  }

  /** The value at a fractional rank of a sorted list: the entry itself at a whole rank, the
      linear interpolation between the two neighbouring entries otherwise. */
  function AtRank(s: seq<real>, index: real): Option<real> {
    if index.Floor as real == index then PyIndex(s, index.Floor)
    else
      var lower := PyIndex(s, index.Floor);
      var upper := PyIndex(s, Ceil(index));
      if lower.None? || upper.None? then None
      else Some(Interp(lower.value, upper.value, index - index.Floor as real))
  }

  /** A rank within 0..n-1 of an ascending list gives a value between its first and last
      entries. */
  lemma {:induction false} AtRankBetween(s: seq<real>, index: real)
    requires s != [] && Ascending(s)
    requires 0 <= index.Floor <= Ceil(index) <= |s| - 1
    ensures AtRank(s, index).Some?
    ensures s[0] <= AtRank(s, index).value <= s[|s| - 1]
  {
    var lo, hi := index.Floor, Ceil(index);
    assert s[0] <= s[lo] <= s[hi] <= s[|s| - 1];
    if index.Floor as real != index {
      var frac := index - lo as real;
      assert PyIndex(s, lo) == Some(s[lo]) && PyIndex(s, hi) == Some(s[hi]);
      assert AtRank(s, index) == Some(Interp(s[lo], s[hi], frac));
      Interpolate(s[lo], s[hi], frac);
    }
  }

  /** For a percentile in 0..100 of a nonempty list the result is present and lies between
      the minimum and the maximum. */
  lemma {:induction false} PercentileBetween(values: seq<real>, percentile: real)
    requires values != [] && 0.0 <= percentile <= 100.0
    ensures CalculatePercentile(values, percentile).Some?
    ensures MinOf(values) <= CalculatePercentile(values, percentile).value <= MaxOf(values)
  {
    var s := Sorted(values);
    var index := RankOf(|s|, percentile);
    PercentileIndexRange(|s|, percentile);
    SortedEnds(values);
    AtRankBetween(s, index);
  }

  /** For a percentile in 0..100 the rank lies in 0..n-1, and so do its floor and ceiling. */
  lemma PercentileIndexRange(n: int, percentile: real)
    requires n >= 1
    ensures 0.0 <= percentile <= 100.0 ==> 0.0 <= RankOf(n, percentile) <= (n - 1) as real
    ensures 0.0 <= percentile <= 100.0 ==> 0 <= RankOf(n, percentile).Floor <= Ceil(RankOf(n, percentile)) <= n - 1
  {
    if 0.0 <= percentile <= 100.0 {
      Scale((n - 1) as real, percentile / 100.0);
    }
  }

  lemma Scale(a: real, f: real)
    requires a >= 0.0 && 0.0 <= f <= 1.0
    ensures 0.0 <= a * f <= a
  {
    assert a * f >= 0.0 * f;
    assert a * (1.0 - f) >= 0.0 * (1.0 - f);
  }

  /** The point at fraction `frac` of the way from `lower` to `upper`. */
  function Interp(lower: real, upper: real, frac: real): real {
    lower + (upper - lower) * frac
  }

  /** A point between two values at fraction `frac` of the way lies between them. */
  lemma Interpolate(lower: real, upper: real, frac: real)
    requires lower <= upper && 0.0 <= frac <= 1.0
    ensures lower <= Interp(lower, upper, frac) <= upper
  {
    var d := upper - lower;
    var p := d * frac;
    assert 0.0 <= p <= d by { Scale(d, frac); }
    assert (upper - lower) * frac == p;
  }

  /** Percentile 0 is the minimum and percentile 100 the maximum. */
  lemma {:induction false} PercentileEnds(values: seq<real>)
    requires values != []
    ensures CalculatePercentile(values, 0.0) == Some(MinOf(values))
    ensures CalculatePercentile(values, 100.0) == Some(MaxOf(values))
  {
    SortedEnds(values);
    assert RankOf(|values|, 0.0) == 0.0;
    assert RankOf(|values|, 100.0) == (|values| - 1) as real;
  }

  /** Percentile 50 of an odd-length list is its median. */
  lemma {:induction false} PercentileFiftyIsMedian(values: seq<real>)
    requires |values| % 2 == 1
    ensures CalculatePercentile(values, 50.0) == Some(CalculateMedian(values))
  {
    var n := |values|;
    assert RankOf(n, 50.0) == ((n - 1) / 2) as real;
    assert RankOf(n, 50.0).Floor == n / 2;
  }

  // ----- clamp, normalize, safe_divide -----

  function Min(a: real, b: real): real { if a <= b then a else b }
  function Max(a: real, b: real): real { if a >= b then a else b }

  /** `clamp(value, min_value, max_value)`: `max(min_value, min(value, max_value))`. */
  function Clamp(value: real, minValue: real, maxValue: real): (r: real)
    ensures minValue <= maxValue ==> minValue <= r <= maxValue
    ensures minValue <= value <= maxValue ==> r == value
    ensures value < minValue ==> r == minValue
    ensures maxValue < value ==> r == Max(minValue, maxValue)
  {
    Max(minValue, Min(value, maxValue))
  }

  /** Clamping twice is clamping once. */
  lemma ClampIdempotent(value: real, minValue: real, maxValue: real)
    requires minValue <= maxValue
    ensures Clamp(Clamp(value, minValue, maxValue), minValue, maxValue) == Clamp(value, minValue, maxValue)
  {
  }

  /** `normalize(value, min_value, max_value)`: 0.0 for equal bounds, otherwise the position
      of `value` on the scale from `min_value` (0) to `max_value` (1). */
  function Normalize(value: real, minValue: real, maxValue: real): (r: real)
    ensures maxValue == minValue ==> r == 0.0
    ensures maxValue != minValue ==> minValue + r * (maxValue - minValue) == value
  {
    if maxValue == minValue then 0.0 else (value - minValue) / (maxValue - minValue)
  }

  /** The bounds map to 0 and 1, and values inside ascending bounds map into [0, 1]. */
  lemma NormalizeEnds(value: real, minValue: real, maxValue: real)
    requires minValue != maxValue
    ensures Normalize(minValue, minValue, maxValue) == 0.0
    ensures Normalize(maxValue, minValue, maxValue) == 1.0
    ensures minValue <= value <= maxValue ==> 0.0 <= Normalize(value, minValue, maxValue) <= 1.0
  {
    var d := maxValue - minValue;
    assert Normalize(minValue, minValue, maxValue) == 0.0 / d;
    assert Normalize(maxValue, minValue, maxValue) == d / d == 1.0;
    if minValue <= value <= maxValue {
      assert d * 0.0 <= value - minValue <= d * 1.0;
      DivBounds(value - minValue, d, 0.0, 1.0);
      assert Normalize(value, minValue, maxValue) == (value - minValue) / d;
    }
  }

  /** `safe_divide(numerator, denominator, default)`. */
  function SafeDivide(numerator: real, denominator: real, default: real): (r: real)
    ensures denominator == 0.0 ==> r == default
    ensures denominator != 0.0 ==> r * denominator == numerator
  {
    if denominator == 0.0 then default else numerator / denominator
  }
}
