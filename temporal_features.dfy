/** Feature engineering of the forecasting package: calendar features of a timestamp,
    lagged copies of a series and trailing-window statistics. */
module TemporalFeatures {
  import opened Wrappers
  import opened Calendar
  import opened MathUtils

  // ----- extract_temporal_features -----

  datatype TimeFeatures = TimeFeatures(
    hour: int,
    dayOfWeek: int,
    dayOfMonth: int,
    month: int,
    isWeekend: bool,
    isBusinessHours: bool,
    quarter: int)

  /** `extract_temporal_features(timestamp)`. Business hours here run from 8 to 17 with
      17 included, unlike `Calendar.IsBusinessHours`. */
  function ExtractTemporalFeatures(dt: DateTime): (f: TimeFeatures)
    requires ValidDateTime(dt)
    ensures f.isWeekend <==> f.dayOfWeek >= 5
    ensures f.isBusinessHours <==> 8 <= f.hour <= 17
    ensures 0 <= f.dayOfWeek < 7
  {
    var weekday := CivilWeekday(dt);
    TimeFeatures(dt.hour, weekday, dt.day, dt.month, weekday >= 5, 8 <= dt.hour <= 17,
                 (dt.month - 1) / 3 + 1)
  }

  /** The quarter lies in 1..4 and is the one whose three months contain the month. */
  lemma QuarterOfMonth(dt: DateTime)
    requires ValidDateTime(dt)
    ensures var q := ExtractTemporalFeatures(dt).quarter;
            1 <= q <= 4 && 3 * (q - 1) < dt.month <= 3 * q
  {
  }

  /** The features agree with the clock fields of the same instant as a timestamp. */
  lemma {:induction false} FeaturesOfTimestamp(dt: DateTime)
    requires ValidDateTime(dt)
    ensures var f := ExtractTemporalFeatures(dt);
            var t := ToTimestamp(dt);
            && f.hour == Hour(t)
            && f.dayOfWeek == Weekday(t)
            && (f.isWeekend <==> IsWeekend(t))
  {
    ToTimestampFields(dt);
  }

  /** At 17:00 the forecasting features count business hours; the time utilities do not. */
  lemma {:induction false} BusinessHoursDisagreeAt17(dt: DateTime)
    requires ValidDateTime(dt) && dt.hour == 17
    ensures ExtractTemporalFeatures(dt).isBusinessHours
    ensures !IsBusinessHours(ToTimestamp(dt))
  {
    ToTimestampFields(dt);
  }

  /** Monday 2024-01-15 at 14:30. */
  lemma {:induction false} ExtractExample()
    ensures var f := ExtractTemporalFeatures(DateTime(2024, 1, 15, 14, 30));
            f.hour == 14 && f.dayOfWeek == 0 && f.month == 1 && !f.isWeekend && f.isBusinessHours
  {
    CivilAnchors();
  }

  // ----- create_lag_features -----

  /** `[None] * n`; a negative `n` gives the empty list. */
  function Nones(n: int): (r: seq<Option<real>>)
    ensures |r| == if n > 0 then n else 0
    ensures forall i :: 0 <= i < |r| ==> r[i] == None
  {
    if n <= 0 then [] else Nones(n - 1) + [None]
  }

  /** The values as present entries. */
  function Present(values: seq<real>): (r: seq<Option<real>>)
    ensures |r| == |values| && forall i :: 0 <= i < |values| ==> r[i] == Some(values[i])
  {
    seq(|values|, i requires 0 <= i < |values| => Some(values[i]))
  }

  /** `values[:-lag]` as Python slices it: for a positive `lag`, all but the last `lag`
      values; for `lag == 0`, `values[:0]`, which is empty; for a negative `lag`, the first
      `-lag` values. */
  function DropLast(values: seq<real>, lag: int): seq<real> {
    if lag > 0 then (if lag <= |values| then values[..|values| - lag] else [])
    else if lag == 0 then []
    else if -lag <= |values| then values[..-lag] else values
  }

  /** One list of `create_lag_features`, as the source computes it. */
  function LagValues(values: seq<real>, lag: int): seq<Option<real>> {
    if lag < |values| then Nones(lag) + Present(DropLast(values, lag)) else Nones(|values|)
  }

  /** For `1 <= lag`: as many entries as values, the first `lag` absent and the others the
      value `lag` places earlier; all absent when `lag` reaches the length. */
  lemma {:induction false} LagValuesShift(values: seq<real>, lag: int)
    requires lag >= 1
    ensures |LagValues(values, lag)| == |values|
    ensures forall i :: 0 <= i < |values| ==>
              LagValues(values, lag)[i] == if i >= lag then Some(values[i - lag]) else None
  {
    var r := LagValues(values, lag);
    if lag < |values| {
      var kept := DropLast(values, lag);
      assert |kept| == |values| - lag;
      forall i | 0 <= i < |values| ensures r[i] == if i >= lag then Some(values[i - lag]) else None {
        if i >= lag {
          assert r[i] == Present(kept)[i - lag];
        } else {
          assert r[i] == Nones(lag)[i];
        }
      }
    }
  }

  /** Lag 0 yields the empty list, not the series itself: `values[:-0]` is `values[:0]`. */
  lemma {:induction false} LagZeroIsEmpty(values: seq<real>)
    requires |values| > 0
    ensures LagValues(values, 0) == []
    ensures |LagValues(values, 0)| != |values|
  {
    assert Nones(0) == [];
    assert Present([]) == [];
  }

  /** The lag column with lag 0 meaning the series itself. */
  function LagValuesCorrected(values: seq<real>, lag: nat): seq<Option<real>> {
    if lag < |values| then Nones(lag) + Present(values[..|values| - lag]) else Nones(|values|)
  }

  /** For every `lag >= 0`, lag 0 included: as many entries as values, the first `lag`
      absent and the others the value `lag` places earlier. */
  lemma {:induction false} LagValuesCorrectedShift(values: seq<real>, lag: nat)
    ensures |LagValuesCorrected(values, lag)| == |values|
    ensures forall i :: 0 <= i < |values| ==>
              LagValuesCorrected(values, lag)[i] == if i >= lag then Some(values[i - lag]) else None
  {
    var r := LagValuesCorrected(values, lag);
    if lag < |values| {
      var kept := values[..|values| - lag];
      forall i | 0 <= i < |values| ensures r[i] == if i >= lag then Some(values[i - lag]) else None {
        if i >= lag {
          assert r[i] == Present(kept)[i - lag];
        } else {
          assert r[i] == Nones(lag)[i];
        }
      }
    }
  }

  /** Away from lag 0 the source and the corrected column agree. */
  lemma {:induction false} LagValuesAgree(values: seq<real>, lag: nat)
    requires lag >= 1
    ensures LagValues(values, lag) == LagValuesCorrected(values, lag)
  {
    LagValuesShift(values, lag);
    LagValuesCorrectedShift(values, lag);
  }

  /** The lag column the model uses: the corrected one for lag 0, and the source's own for
      every other lag. */
  function LagColumn(values: seq<real>, lag: int): seq<Option<real>> {
    if lag == 0 then LagValuesCorrected(values, 0) else LagValues(values, lag)
  }

  /** For every `lag >= 0` the column used is the corrected shift. */
  lemma {:induction false} LagColumnCorrected(values: seq<real>, lag: nat)
    ensures LagColumn(values, lag) == LagValuesCorrected(values, lag)
  {
    if lag >= 1 {
      LagValuesAgree(values, lag);
    }
  }

  /** `create_lag_features(values, lags)`: one entry `lag_<lag>` per requested lag, here
      keyed by the lag itself, with lag 0 giving the series itself. */
  method CreateLagFeatures(values: seq<real>, lags: seq<int>) returns (features: map<int, seq<Option<real>>>)
    ensures forall lag :: lag in features <==> lag in lags
    ensures forall lag :: lag in features ==> features[lag] == LagColumn(values, lag)
  {
    features := map[];
    var n := 0;
    while n < |lags|
      invariant n <= |lags|
      invariant forall lag :: lag in features <==> lag in lags[..n]
      invariant forall lag :: lag in features ==> features[lag] == LagColumn(values, lag)
    {
      var lag := lags[n];
      var kept := if lag == 0 then values else DropLast(values, lag);
      var lagValues := if lag < |values| then Nones(lag) + Present(kept) else Nones(|values|);
      assert lag == 0 ==> kept == values[..|values| - lag];
      features := features[lag := lagValues];
      assert lags[..n + 1] == lags[..n] + [lag];
      n := n + 1;
    }
    assert lags[..n] == lags;
  }

  // ----- calculate_rolling_statistics -----

  /** `values[start:stop]` for `0 <= start` and `stop <= len(values)`: empty when the
      bounds cross. */
  function Slice(values: seq<real>, start: int, stop: int): (r: seq<real>)
    requires 0 <= start && 0 <= stop <= |values|
    ensures start < stop ==> r == values[start..stop]
    ensures start >= stop ==> r == []
  {
    if start < stop then values[start..stop] else []
  }

  /** Trailing-window mean, minimum and maximum, absent before the first full window. */
  datatype RollingStats = RollingStats(mean: seq<Option<real>>, min: seq<Option<real>>, max: seq<Option<real>>)

  /** Position `k` of the rolling columns: absent before the first full window, otherwise the
      mean, minimum and maximum of the `window` values ending at `k`. */
  predicate RollingEntry(values: seq<real>, window: int, k: int, mean: Option<real>, min: Option<real>, max: Option<real>)
    requires 0 <= k < |values|
  {
    if k < window - 1 then mean == None && min == None && max == None
    else
      && 1 <= window
      && mean == Some(Mean(values[k - window + 1..k + 1]))
      && min == Some(MinOf(values[k - window + 1..k + 1]))
      && max == Some(MaxOf(values[k - window + 1..k + 1]))
  }

  /** `calculate_rolling_statistics(values, window)`. `None` when the source raises
      `ZeroDivisionError`: a window below 1 makes every window empty. */
  method CalculateRollingStatistics(values: seq<real>, window: int) returns (r: Option<RollingStats>)
    ensures r.None? <==> window <= 0 && |values| > 0
    ensures r.Some? ==> |r.value.mean| == |r.value.min| == |r.value.max| == |values|
    ensures r.Some? ==> forall k :: 0 <= k < |values| ==>
              RollingEntry(values, window, k, r.value.mean[k], r.value.min[k], r.value.max[k])
  {
    var rollingMean: seq<Option<real>> := [];
    var rollingMin: seq<Option<real>> := [];
    var rollingMax: seq<Option<real>> := [];
    var i := 0;
    while i < |values|
      invariant i <= |values|
      invariant i > 0 ==> window >= 1
      invariant |rollingMean| == |rollingMin| == |rollingMax| == i
      invariant forall k :: 0 <= k < i ==>
                  RollingEntry(values, window, k, rollingMean[k], rollingMin[k], rollingMax[k])
    {
      if i < window - 1 {
        rollingMean := rollingMean + [None];
        rollingMin := rollingMin + [None];
        rollingMax := rollingMax + [None];
      } else {
        var windowValues := Slice(values, i + 1 - window, i + 1);
        if |windowValues| == 0 {
          return None;
        }
        rollingMean := rollingMean + [Some(Mean(windowValues))];
        rollingMin := rollingMin + [Some(MinOf(windowValues))];
        rollingMax := rollingMax + [Some(MaxOf(windowValues))];
      }
      assert RollingEntry(values, window, i, rollingMean[i], rollingMin[i], rollingMax[i]);
      i := i + 1;
    }
    r := Some(RollingStats(rollingMean, rollingMin, rollingMax));
  }

  /** Wherever the window is full, its minimum is at most its mean and its mean at most its
      maximum. */
  lemma {:induction false} RollingOrdered(values: seq<real>, window: int, i: nat)
    requires 1 <= window && window - 1 <= i < |values|
    ensures var w := values[i - window + 1..i + 1];
            MinOf(w) <= Mean(w) <= MaxOf(w)
  {
    MeanBetween(values[i - window + 1..i + 1]);
  }
}
