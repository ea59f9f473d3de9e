/** The wait-time service: an average over observed waits, and placeholder answers for the
    current wait, a prediction and a trend. */
module WaitTime {
  import opened Wrappers
  import opened MathUtils

  /** `get_current_wait_time(hospital_id)`: no wait is available yet. */
  function GetCurrentWaitTime(hospitalId: int): (r: Option<int>)
    ensures r.None?
  {
    None
  }

  datatype WaitPrediction = WaitPrediction(
    predictedWaitMinutes: int,
    confidenceLower: int,
    confidenceUpper: int,
    confidenceLevel: real)

  /** `predict_wait_time(hospital_id, time_of_day, day_of_week)`: a fixed prediction of 60
      minutes within 45..75 at 95% confidence. */
  function PredictWaitTime(hospitalId: int, timeOfDay: int, dayOfWeek: int): (r: WaitPrediction)
    ensures r.confidenceLower <= r.predictedWaitMinutes <= r.confidenceUpper
    ensures 0.0 < r.confidenceLevel < 1.0
  {
    WaitPrediction(60, 45, 75, 0.95)
  }

  /** The waits as real numbers. */
  function AsReals(waitTimes: seq<int>): (r: seq<real>)
    ensures |r| == |waitTimes| && forall i :: 0 <= i < |r| ==> r[i] == waitTimes[i] as real
  {
    seq(|waitTimes|, i requires 0 <= i < |waitTimes| => waitTimes[i] as real)
  }

  /** `calculate_average_wait_time(wait_times)`: 0.0 for no waits, otherwise `sum / len`. */
  function CalculateAverageWaitTime(waitTimes: seq<int>): (r: real)
    ensures waitTimes == [] ==> r == 0.0
  {
    if waitTimes == [] then 0.0 else Mean(AsReals(waitTimes))
  }

  /** The average of some waits lies between the shortest and the longest of them. */
  lemma {:induction false} AverageBetween(waitTimes: seq<int>)
    requires waitTimes != []
    ensures exists i :: 0 <= i < |waitTimes| && waitTimes[i] as real <= CalculateAverageWaitTime(waitTimes)
    ensures exists i :: 0 <= i < |waitTimes| && CalculateAverageWaitTime(waitTimes) <= waitTimes[i] as real
    ensures MinOf(AsReals(waitTimes)) <= CalculateAverageWaitTime(waitTimes) <= MaxOf(AsReals(waitTimes))
  {
    var r := AsReals(waitTimes);
    MeanBetween(r);
    var lo :| 0 <= lo < |r| && r[lo] == MinOf(r);
    var hi :| 0 <= hi < |r| && r[hi] == MaxOf(r);
    assert waitTimes[lo] as real <= CalculateAverageWaitTime(waitTimes);
    assert CalculateAverageWaitTime(waitTimes) <= waitTimes[hi] as real;
  }

  /** Equal waits average to that wait. */
  lemma {:induction false} AverageOfEqualWaits(waitTimes: seq<int>, w: int)
    requires waitTimes != [] && forall i :: 0 <= i < |waitTimes| ==> waitTimes[i] == w
    ensures CalculateAverageWaitTime(waitTimes) == w as real
  {
    var r := AsReals(waitTimes);
    assert forall x :: x in r ==> w as real <= x <= w as real;
    SumBounds(r, w as real, w as real);
    DivBounds(Sum(r), |r| as real, w as real, w as real);
  }

  datatype WaitTrend = WaitTrend(hospitalId: int, periodHours: int, trend: string,
                                 currentWait: Option<int>, averageWait: Option<real>)

  /** `get_wait_time_trend(hospital_id, hours)`: echoes its arguments with a stable trend and
      no data. */
  function GetWaitTimeTrend(hospitalId: int, hours: int): (r: WaitTrend)
    ensures r.hospitalId == hospitalId && r.periodHours == hours
    ensures r.trend == "stable" && r.currentWait.None? && r.averageWait.None?
  {
    WaitTrend(hospitalId, hours, "stable", None, None)
  }
}
