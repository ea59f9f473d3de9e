/** `train_and_forecast`: one ARIMA forecast per hospital of the training dataset, skipping
    hospitals with a short history and hospitals whose model fails. The ARIMA fit and its
    one-step forecast are a parameter `arima` of the model: `None` stands for an exception
    raised by the library, `Some(v)` for the forecast value. */
module ForecastService {
  import opened Wrappers
  import opened Calendar
  import opened Pressure
  import opened RiskTier
  import opened Frames
  import opened FeatureBuilder
  import opened SnapshotDataset

  /** One appended prediction record. */
  datatype Prediction = Prediction(
    hospitalId: int,
    predictedPressure: real,
    forecastTime: Timestamp,
    horizonHours: int,
    riskLevel: Tier)

  /** Hospitals with fewer dataset rows than this are skipped. */
  const MinHistory: int := 10

  predicate NoDup(s: seq<int>) {
    forall i, j :: 0 <= i < j < |s| ==> s[i] != s[j]
  }

  /** The `hospital_id` column. */
  function HospitalIds(df: seq<DatasetRow>): (ids: seq<int>)
    ensures |ids| == |df| && forall i :: 0 <= i < |df| ==> ids[i] == df[i].feat.snap.hospitalId
  {
    seq(|df|, i requires 0 <= i < |df| => df[i].feat.snap.hospitalId)
  }

  /** `unique()`: each value once, in order of first appearance. */
  function Unique(ids: seq<int>): (u: seq<int>)
    ensures forall x :: x in u <==> x in ids
    ensures NoDup(u)
  {
    if ids == [] then []
    else
      var rest := Unique(ids[..|ids| - 1]);
      if ids[|ids| - 1] in ids[..|ids| - 1] then rest else rest + [ids[|ids| - 1]]
  }

  /** `x` occurs in `ids` before position `k`. */
  predicate OccursBefore(ids: seq<int>, x: int, k: int) {
    exists k' :: 0 <= k' < k && k' < |ids| && ids[k'] == x
  }

  /** The order of `Unique` is the order of first appearance: every occurrence of a later
      value comes after some occurrence of an earlier one. */
  lemma {:induction false} UniqueOrder(ids: seq<int>, i: nat, j: nat, k: nat)
    requires i < j < |Unique(ids)|
    requires k < |ids| && ids[k] == Unique(ids)[j]
    ensures OccursBefore(ids, Unique(ids)[i], k)
  {
    var n := |ids| - 1;
    var init := ids[..n];
    var rest := Unique(init);
    if ids[n] in init {
      assert Unique(ids) == rest;
      if k == n {
        var k0 :| 0 <= k0 < n && init[k0] == ids[n];
        UniqueOrder(init, i, j, k0);
        var k' :| 0 <= k' < k0 && k' < |init| && init[k'] == rest[i];
        assert ids[k'] == rest[i];
      } else {
        assert init[k] == rest[j];
        UniqueOrder(init, i, j, k);
        var k' :| 0 <= k' < k && k' < |init| && init[k'] == rest[i];
        assert ids[k'] == rest[i];
      }
    } else {
      assert Unique(ids) == rest + [ids[n]];
      if j == |rest| {
        assert rest[i] in init;
        var k' :| 0 <= k' < n && init[k'] == rest[i];
        assert Unique(ids)[j] == ids[n];
        if k < n {
          assert false;
        }
        assert ids[k'] == rest[i];
      } else {
        if k == n {
          assert false;
        }
        assert init[k] == rest[j];
        UniqueOrder(init, i, j, k);
        var k' :| 0 <= k' < k && k' < |init| && init[k'] == rest[i];
        assert ids[k'] == rest[i];
      }
    }
  }

  /** Sort key for `sort_values("snapshot_time")`: time only. */
  function TimeKey(r: DatasetRow): FrameKey {
    FrameKey(0, r.feat.snap.snapshotTime)
  }

  /** `df[df["hospital_id"] == hospital_id].sort_values("snapshot_time")`. */
  function HospitalHistory(df: seq<DatasetRow>, h: int): (rows: seq<DatasetRow>)
    ensures |rows| == |Group(df, DatasetKey, h)|
    ensures multiset(rows) == multiset(Group(df, DatasetKey, h))
  {
    SortBy(Group(df, DatasetKey, h), TimeKey)
  }

  /** A hospital's history holds only that hospital's rows, in `snapshot_time` order, so
      the series the model is fitted on is its pressure in time order. */
  lemma {:induction false} HistoryInTimeOrder(df: seq<DatasetRow>, h: int, i: nat, j: nat)
    requires i < j < |HospitalHistory(df, h)|
    ensures HospitalHistory(df, h)[i].feat.snap.snapshotTime <= HospitalHistory(df, h)[j].feat.snap.snapshotTime
    ensures HospitalHistory(df, h)[i].feat.snap.hospitalId == h
  {
    var g := Group(df, DatasetKey, h);
    SortBySorted(g, TimeKey);
    var rows := HospitalHistory(df, h);
    assert KeyLe(TimeKey(rows[i]), TimeKey(rows[j]));
    assert rows[i] in multiset(g);
    assert rows[i] in g;
  }

  /** The `pressure_score` column of a history. */
  function Series(rows: seq<DatasetRow>): (series: seq<real>)
    ensures |series| == |rows| && forall i :: 0 <= i < |rows| ==> series[i] == rows[i].feat.pressureScore
  {
    seq(|rows|, i requires 0 <= i < |rows| => rows[i].feat.pressureScore)
  }

  /** `hospital_df["snapshot_time"].max()`. */
  function MaxTime(rows: seq<DatasetRow>): (t: Timestamp)
    requires |rows| > 0
    ensures exists i :: 0 <= i < |rows| && rows[i].feat.snap.snapshotTime == t
    ensures forall i :: 0 <= i < |rows| ==> rows[i].feat.snap.snapshotTime <= t
  {
    if |rows| == 1 then rows[0].feat.snap.snapshotTime
    else
      var m := MaxTime(rows[1..]);
      assert forall i :: 1 <= i < |rows| ==> rows[i] == rows[1..][i - 1];
      if rows[0].feat.snap.snapshotTime >= m then rows[0].feat.snap.snapshotTime else m
  }

  /** What one iteration of the loop appends for hospital `h`, if anything. */
  function ForecastFor(df: seq<DatasetRow>, h: int, horizon: int, arima: seq<real> -> Option<real>)
    : (p: Option<Prediction>)
    ensures p.Some? <==> |Group(df, DatasetKey, h)| >= MinHistory && arima(Series(HospitalHistory(df, h))).Some?
    ensures p.Some? ==> p.value.hospitalId == h && p.value.horizonHours == horizon
    ensures p.Some? ==> p.value.predictedPressure == arima(Series(HospitalHistory(df, h))).value
  {
    if |Group(df, DatasetKey, h)| < MinHistory then None
    else
      var rows := HospitalHistory(df, h);
      match arima(Series(rows))
      case None => None
      case Some(v) =>
        Some(Prediction(h, v, MaxTime(rows) + horizon * MicrosPerHour, horizon, PressureToRisk(Some(v))))
  }

  /** The records the loop appends for the hospitals `hs`, in that order, when hospital
      `h` yields `forecast(h)`. */
  function Collect(hs: seq<int>, forecast: int -> Option<Prediction>): seq<Prediction> {
    if hs == [] then []
    else
      var earlier := Collect(hs[..|hs| - 1], forecast);
      match forecast(hs[|hs| - 1])
      case None => earlier
      case Some(p) => earlier + [p]
  }

  function PerHospital(df: seq<DatasetRow>, horizon: int, arima: seq<real> -> Option<real>)
    : int -> Option<Prediction>
  {
    h => ForecastFor(df, h, horizon, arima)
  }

  /** The records appended for the hospitals `hs`. */
  function Forecasts(df: seq<DatasetRow>, hs: seq<int>, horizon: int, arima: seq<real> -> Option<real>)
    : seq<Prediction>
  {
    Collect(hs, PerHospital(df, horizon, arima))
  }

  /** Every collected record is the forecast of one of the hospitals. */
  lemma {:induction false} CollectRecord(hs: seq<int>, forecast: int -> Option<Prediction>, p: Prediction)
    returns (h: int)
    requires p in Collect(hs, forecast)
    ensures h in hs && forecast(h) == Some(p)
  {
    var init := hs[..|hs| - 1];
    if p in Collect(init, forecast) {
      h := CollectRecord(init, forecast, p);
    } else {
      h := hs[|hs| - 1];
    }
  }

  /** Every successful forecast of one of the hospitals is collected. */
  lemma {:induction false} CollectPresent(hs: seq<int>, forecast: int -> Option<Prediction>, h: int)
    requires h in hs && forecast(h).Some?
    ensures forecast(h).value in Collect(hs, forecast)
  {
    var init := hs[..|hs| - 1];
    if h != hs[|hs| - 1] {
      assert h in init;
      CollectPresent(init, forecast, h);
    }
  }

  /** Collected records follow the order of `hs`. */
  lemma {:induction false} CollectInOrder(hs: seq<int>, forecast: int -> Option<Prediction>, i: nat, j: nat)
    returns (a: nat, b: nat)
    requires i < j < |Collect(hs, forecast)|
    ensures a < b < |hs|
    ensures forecast(hs[a]) == Some(Collect(hs, forecast)[i]) && forecast(hs[b]) == Some(Collect(hs, forecast)[j])
  {
    var init := hs[..|hs| - 1];
    var earlier := Collect(init, forecast);
    if j < |earlier| {
      a, b := CollectInOrder(init, forecast, i, j);
      assert hs[a] == init[a] && hs[b] == init[b];
    } else {
      var h := CollectRecord(init, forecast, earlier[i]);
      a :| 0 <= a < |init| && init[a] == h;
      b := |hs| - 1;
      assert hs[a] == init[a];
    }
  }

  /** Over distinct hospitals, each of whose forecasts carries its own id, the collected
      records have distinct ids. */
  lemma {:induction false} CollectOnePerHospital(hs: seq<int>, forecast: int -> Option<Prediction>)
    requires NoDup(hs)
    requires forall h :: forecast(h).Some? ==> forecast(h).value.hospitalId == h
    ensures NoDup(Ids(Collect(hs, forecast)))
  {
    if hs != [] {
      var init := hs[..|hs| - 1];
      var last := hs[|hs| - 1];
      assert NoDup(init);
      CollectOnePerHospital(init, forecast);
      var earlier := Collect(init, forecast);
      if forecast(last).Some? {
        assert Collect(hs, forecast) == earlier + [forecast(last).value];
        forall i | 0 <= i < |earlier| ensures earlier[i].hospitalId != last {
          var h := CollectRecord(init, forecast, earlier[i]);
          assert h in init;
        }
      }
    }
  }

  /** The predictions for the hospitals of the training dataset, in order of first appearance. */
  function TrainForecasts(snapshots: seq<Snapshot>, horizon: int, arima: seq<real> -> Option<real>)
    : seq<Prediction>
  {
    var df := BuildMlDataset(snapshots, horizon);
    Forecasts(df, Unique(HospitalIds(df)), horizon, arima)
  }

  /** `train_and_forecast(db, horizon_hours)` on the loaded snapshots. */
  method TrainAndForecast(snapshots: seq<Snapshot>, horizon: int, arima: seq<real> -> Option<real>)
    returns (predictions: seq<Prediction>)
    ensures predictions == TrainForecasts(snapshots, horizon, arima)
  {
    var df := BuildMlDataset(snapshots, horizon);
    predictions := ForecastHospitals(df, horizon, arima);
  }

  /** One more hospital appends its forecast, if it has one. */
  lemma {:induction false} ForecastsStep(df: seq<DatasetRow>, hs: seq<int>, horizon: int,
                                         arima: seq<real> -> Option<real>, n: nat)
    requires n < |hs|
    ensures Forecasts(df, hs[..n + 1], horizon, arima)
            == Forecasts(df, hs[..n], horizon, arima)
               + (if ForecastFor(df, hs[n], horizon, arima).Some? then [ForecastFor(df, hs[n], horizon, arima).value] else [])
  {
    assert hs[..n + 1][..n] == hs[..n];
    assert hs[..n + 1][n] == hs[n];
  }

  /** One pass of the loop body for `hospital_id`: skip a short history, otherwise fit on
      the time-ordered pressure series; a failed fit yields nothing. */
  method ForecastHospital(df: seq<DatasetRow>, hospitalId: int, horizon: int, arima: seq<real> -> Option<real>)
    returns (record: Option<Prediction>)
    ensures record == ForecastFor(df, hospitalId, horizon, arima)
  {
    var hospitalDf := Group(df, DatasetKey, hospitalId);
    if |hospitalDf| < MinHistory {
      return None;
    }
    hospitalDf := SortBy(hospitalDf, TimeKey);
    var series := Series(hospitalDf);
    var forecast := arima(series);
    if forecast.None? {
      return None;
    }
    var value := forecast.value;
    var riskLevel := PressureToRisk(Some(value));
    var forecastTime := MaxTime(hospitalDf) + horizon * MicrosPerHour;
    record := Some(Prediction(hospitalId, value, forecastTime, horizon, riskLevel));
  }

  /** The loop of `train_and_forecast` over `df["hospital_id"].unique()`. */
  method ForecastHospitals(df: seq<DatasetRow>, horizon: int, arima: seq<real> -> Option<real>)
    returns (predictions: seq<Prediction>)
    ensures predictions == Forecasts(df, Unique(HospitalIds(df)), horizon, arima)
  {
    predictions := [];
    var hospitals := Unique(HospitalIds(df));
    var n := 0;
    while n < |hospitals|
      invariant n <= |hospitals|
      invariant predictions == Forecasts(df, hospitals[..n], horizon, arima)
    {
      ForecastsStep(df, hospitals, horizon, arima, n);
      var record := ForecastHospital(df, hospitals[n], horizon, arima);
      if record.Some? {
        predictions := predictions + [record.value];
      }
      n := n + 1;
    }
    assert hospitals[..n] == hospitals;
  }

  /** Every record is the forecast of one of the hospitals, computed from that hospital's
      own history alone, with the forecast time one horizon after its latest snapshot and
      the risk tier of the forecast value. */
  lemma {:induction false} ForecastRecord(df: seq<DatasetRow>, hs: seq<int>, horizon: int,
                                          arima: seq<real> -> Option<real>, p: Prediction)
    requires p in Forecasts(df, hs, horizon, arima)
    ensures p.hospitalId in hs
    ensures ForecastFor(df, p.hospitalId, horizon, arima) == Some(p)
    ensures |Group(df, DatasetKey, p.hospitalId)| >= MinHistory
    ensures p.forecastTime == MaxTime(HospitalHistory(df, p.hospitalId)) + horizon * MicrosPerHour
    ensures p.riskLevel == PressureToRisk(Some(p.predictedPressure)) && p.riskLevel != Unknown
  {
    var h := CollectRecord(hs, PerHospital(df, horizon, arima), p);
    assert ForecastFor(df, h, horizon, arima) == Some(p);
  }

  /** A hospital gets a record exactly when it has at least `MinHistory` rows and its
      model does not fail, whatever happens to the other hospitals. */
  lemma {:induction false} ForecastIff(df: seq<DatasetRow>, hs: seq<int>, horizon: int,
                                       arima: seq<real> -> Option<real>, h: int)
    requires h in hs
    ensures (exists p :: p in Forecasts(df, hs, horizon, arima) && p.hospitalId == h)
            <==> |Group(df, DatasetKey, h)| >= MinHistory && arima(Series(HospitalHistory(df, h))).Some?
  {
    var f := PerHospital(df, horizon, arima);
    if ForecastFor(df, h, horizon, arima).Some? {
      assert f(h) == ForecastFor(df, h, horizon, arima);
      CollectPresent(hs, f, h);
    } else if p :| p in Forecasts(df, hs, horizon, arima) && p.hospitalId == h {
      ForecastRecord(df, hs, horizon, arima, p);
    }
  }

  function Ids(r: seq<Prediction>): (ids: seq<int>)
    ensures |ids| == |r| && forall i :: 0 <= i < |r| ==> ids[i] == r[i].hospitalId
  {
    seq(|r|, i requires 0 <= i < |r| => r[i].hospitalId)
  }

  /** Over distinct hospitals there is at most one record per hospital. */
  lemma {:induction false} OnePerHospital(df: seq<DatasetRow>, hs: seq<int>, horizon: int,
                                          arima: seq<real> -> Option<real>)
    requires NoDup(hs)
    ensures NoDup(Ids(Forecasts(df, hs, horizon, arima)))
  {
    CollectOnePerHospital(hs, PerHospital(df, horizon, arima));
  }

  /** The records follow the order of `hs`. */
  lemma {:induction false} ForecastsInOrder(df: seq<DatasetRow>, hs: seq<int>, horizon: int,
                                            arima: seq<real> -> Option<real>, i: nat, j: nat)
    requires i < j < |Forecasts(df, hs, horizon, arima)|
    ensures exists a, b :: 0 <= a < b < |hs| && hs[a] == Forecasts(df, hs, horizon, arima)[i].hospitalId
                                               && hs[b] == Forecasts(df, hs, horizon, arima)[j].hospitalId
  {
    var a, b := CollectInOrder(hs, PerHospital(df, horizon, arima), i, j);
  }

  /** A record's forecast time is one horizon after every snapshot of its hospital. */
  lemma {:induction false} ForecastAfterHistory(df: seq<DatasetRow>, hs: seq<int>, horizon: int,
                                                arima: seq<real> -> Option<real>, p: Prediction, r: DatasetRow)
    requires p in Forecasts(df, hs, horizon, arima)
    requires r in df && r.feat.snap.hospitalId == p.hospitalId
    ensures r.feat.snap.snapshotTime + horizon * MicrosPerHour <= p.forecastTime
  {
    ForecastRecord(df, hs, horizon, arima, p);
    var rows := HospitalHistory(df, p.hospitalId);
    GroupKeeps(df, DatasetKey, p.hospitalId, r);
    assert r in multiset(rows);
  }

  /** With a horizon of at least one snapshot, a hospital that gets a prediction had at
      least `MinHistory + 3 + horizon` snapshots. */
  lemma {:induction false} ForecastNeedsSnapshots(snapshots: seq<Snapshot>, horizon: int,
                                                  arima: seq<real> -> Option<real>, p: Prediction)
    requires horizon >= 1
    requires p in TrainForecasts(snapshots, horizon, arima)
    ensures |Group(snapshots, SnapshotKey, p.hospitalId)| >= MinHistory + 3 + horizon
  {
    var df := BuildMlDataset(snapshots, horizon);
    var rows := Group(df, DatasetKey, p.hospitalId);
    var n := |Group(snapshots, SnapshotKey, p.hospitalId)|;
    DatasetCount(snapshots, horizon, p.hospitalId, rows, n);
    EnoughRows(df, Unique(HospitalIds(df)), horizon, arima, p, rows, n);
  }

  lemma {:induction false} EnoughRows(df: seq<DatasetRow>, hs: seq<int>, horizon: int,
                                      arima: seq<real> -> Option<real>, p: Prediction,
                                      rows: seq<DatasetRow>, n: int)
    requires p in Forecasts(df, hs, horizon, arima)
    requires rows == Group(df, DatasetKey, p.hospitalId) && |rows| == Max(0, n - 3 - horizon)
    ensures n >= MinHistory + 3 + horizon
  {
    ForecastRecord(df, hs, horizon, arima, p);
  }
}
