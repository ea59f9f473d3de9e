/** `add_forecast_targets` and `build_ml_dataset`: the feature frame with, for each row, the
    pressure `horizon` snapshots later in the same hospital, keeping only complete rows. */
module SnapshotDataset {
  import opened Wrappers
  import opened Pressure
  import opened Frames
  import opened FeatureBuilder

  /** A feature row with its forecast target column. */
  datatype DatasetRow = DatasetRow(feat: FeatureRow, target: Option<real>)

  function DatasetKey(r: DatasetRow): FrameKey {
    RowKey(r.feat)
  }

  function DatasetPressure(r: DatasetRow): real {
    r.feat.pressureScore
  }

  function DatasetFeature(r: DatasetRow): FeatureRow {
    r.feat
  }

  function Target(r: DatasetRow): Option<real> {
    r.target
  }

  /** The feature column of a dataset. */
  function Features(d: seq<DatasetRow>): (f: seq<FeatureRow>)
    ensures |f| == |d| && forall i :: 0 <= i < |d| ==> f[i] == d[i].feat
  {
    seq(|d|, i requires 0 <= i < |d| => d[i].feat)
  }

  /** `add_forecast_targets(df, horizon_hours)`: sort by (hospital, time), then add the
      pressure column shifted back by `horizon` within each hospital. */
  function AddForecastTargets(df: seq<FeatureRow>, horizon: int): (r: seq<DatasetRow>)
    ensures |r| == |df|
    ensures Features(r) == SortBy(df, RowKey)
  {
    var sorted := SortBy(df, RowKey);
    var target := GroupShiftColumn(sorted, RowKey, RowPressure, -horizon);
    var r := seq(|sorted|, i requires 0 <= i < |sorted| => DatasetRow(sorted[i], target[i]));
    assert Features(r) == sorted;
    r
  }

  /** The target column is the per-hospital shift of the pressure column by `-horizon`. */
  lemma {:induction false} TargetColumn(df: seq<FeatureRow>, horizon: int)
    ensures MappedShift(SortBy(df, RowKey), AddForecastTargets(df, horizon), RowKey, DatasetKey,
                        DatasetFeature, RowPressure, DatasetPressure, Target, -horizon)
  {
  }

  /** Read hospital by hospital: the target of a hospital's `j`-th row is the pressure of
      its `(j + horizon)`-th row, and is absent when the hospital has no such row. */
  lemma {:induction false} TargetsWithinHospital(df: seq<FeatureRow>, horizon: int, h: int, j: nat)
    requires j < |Group(AddForecastTargets(df, horizon), DatasetKey, h)|
    ensures var g := Group(AddForecastTargets(df, horizon), DatasetKey, h);
            g[j].target == if 0 <= j + horizon < |g| then Some(g[j + horizon].feat.pressureScore) else None
  {
    TargetColumn(df, horizon);
    TargetInGroupOf(SortBy(df, RowKey), AddForecastTargets(df, horizon), horizon, h, j);
  }

  lemma {:induction false} TargetInGroupOf(sorted: seq<FeatureRow>, d: seq<DatasetRow>, horizon: int, h: int, j: nat)
    requires MappedShift(sorted, d, RowKey, DatasetKey, DatasetFeature, RowPressure, DatasetPressure, Target, -horizon)
    requires j < |Group(d, DatasetKey, h)|
    ensures Group(d, DatasetKey, h)[j].target
            == if 0 <= j + horizon < |Group(d, DatasetKey, h)| then Some(Group(d, DatasetKey, h)[j + horizon].feat.pressureScore) else None
  {
    ShiftOfMapped(sorted, d, RowKey, DatasetKey, DatasetFeature, RowPressure, DatasetPressure, Target, -horizon, h, j);
  }

  lemma {:induction false} TargetByIndexOf(sorted: seq<FeatureRow>, d: seq<DatasetRow>, horizon: int, i: nat)
    requires SortedBy(sorted, RowKey)
    requires MappedShift(sorted, d, RowKey, DatasetKey, DatasetFeature, RowPressure, DatasetPressure, Target, -horizon)
    requires i < |d|
    ensures d[i].target == if 0 <= i + horizon < |d| && d[i + horizon].feat.snap.hospitalId == d[i].feat.snap.hospitalId
                           then Some(d[i + horizon].feat.pressureScore) else None
  {
    ShiftOfMappedSorted(sorted, d, RowKey, DatasetKey, DatasetFeature, RowPressure, DatasetPressure, Target,
                        -horizon, i, i + horizon);
  }

  /** Read by index in the sorted frame: the target of row `i` is the pressure of row
      `i + horizon` when it exists and belongs to the same hospital. */
  lemma {:induction false} TargetsByIndex(df: seq<FeatureRow>, horizon: int, i: nat)
    requires i < |df|
    ensures var d := AddForecastTargets(df, horizon);
            d[i].target == if 0 <= i + horizon < |d| && d[i + horizon].feat.snap.hospitalId == d[i].feat.snap.hospitalId
                           then Some(d[i + horizon].feat.pressureScore) else None
  {
    TargetColumn(df, horizon);
    SortBySorted(df, RowKey);
    TargetByIndexOf(SortBy(df, RowKey), AddForecastTargets(df, horizon), horizon, i);
  }

  /** Features already in (hospital, time) order, as `build_features` leaves them, keep
      their order: the targets are added alongside. */
  lemma {:induction false} TargetsKeepOrder(df: seq<FeatureRow>, horizon: int)
    requires SortedBy(df, RowKey)
    ensures Features(AddForecastTargets(df, horizon)) == df
  {
    SortSorted(df, RowKey);
  }

  /** The target frame is in (hospital, time) order. */
  lemma {:induction false} TargetsSorted(df: seq<FeatureRow>, horizon: int)
    ensures SortedBy(AddForecastTargets(df, horizon), DatasetKey)
  {
    var d := AddForecastTargets(df, horizon);
    var sorted := SortBy(df, RowKey);
    SortBySorted(df, RowKey);
    forall i, j | 0 <= i < j < |d|
      ensures KeyLe(DatasetKey(d[i]), DatasetKey(d[j]))
    {
      assert Features(d)[i] == sorted[i] && Features(d)[j] == sorted[j];
    }
  }

  /** `dropna()`: a row survives when none of its lags, trend or target is missing. */
  predicate Complete(r: DatasetRow) {
    && r.feat.pressureLag1.Some? && r.feat.pressureLag2.Some? && r.feat.pressureLag3.Some?
    && r.feat.pressureTrend.Some? && r.target.Some?
  }

  /** `build_ml_dataset(db, horizon_hours)` on the loaded snapshots. */
  function BuildMlDataset(snapshots: seq<Snapshot>, horizon: int): (d: seq<DatasetRow>)
    ensures |d| <= |snapshots|
    ensures forall r :: r in d ==> Complete(r)
  {
    Filter(AddForecastTargets(BuildFeatures(snapshots), horizon), Complete)
  }

  /** A hospital's rows in the target frame carry its feature rows, in the same order. */
  lemma {:induction false} DatasetGroupFeatures(snapshots: seq<Snapshot>, horizon: int, h: int)
    ensures var f := BuildFeatures(snapshots);
            var g := Group(AddForecastTargets(f, horizon), DatasetKey, h);
            var gf := Group(f, RowKey, h);
            |g| == |gf| && forall j :: 0 <= j < |g| ==> g[j].feat == gf[j]
  {
    var f := BuildFeatures(snapshots);
    var t := AddForecastTargets(f, horizon);
    FeaturesSorted(snapshots);
    TargetsKeepOrder(f, horizon);
    assert forall i :: 0 <= i < |t| ==> DatasetFeature(t[i]) == f[i];
    GroupMapped(f, t, RowKey, DatasetKey, DatasetFeature, h);
  }

  /** A hospital's `j`-th row is complete exactly when it has three earlier snapshots and
      a snapshot `horizon` places away. */
  lemma {:induction false} CompleteAt(snapshots: seq<Snapshot>, horizon: int, h: int, j: nat)
    requires j < |Group(AddForecastTargets(BuildFeatures(snapshots), horizon), DatasetKey, h)|
    ensures var g := Group(AddForecastTargets(BuildFeatures(snapshots), horizon), DatasetKey, h);
            Complete(g[j]) <==> 3 <= j && 0 <= j + horizon < |g|
  {
    DatasetGroupFeatures(snapshots, horizon, h);
    LagsWithinHospital(snapshots, h, Group(BuildFeatures(snapshots), RowKey, h), j);
    TargetsWithinHospital(BuildFeatures(snapshots), horizon, h, j);
  }

  /** The rows of a hospital `g` that are complete are those with three earlier rows and a
      row `horizon` places away. */
  predicate CompleteExactly(g: seq<DatasetRow>, horizon: int) {
    forall j :: 0 <= j < |g| ==> (Complete(g[j]) <==> 3 <= j && 0 <= j + horizon < |g|)
  }

  /** Those positions form the range from `max(3, -horizon)` up to `min(n, n - horizon)`. */
  lemma {:induction false} CompleteRange(g: seq<DatasetRow>, horizon: int)
    requires CompleteExactly(g, horizon)
    ensures forall j :: 0 <= j < |g| ==> (Complete(g[j]) <==> Max(3, -horizon) <= j < Min(|g|, |g| - horizon))
  {
  }

  /** The rows of a hospital `g` from position `max(3, -horizon)` up to, not including,
      position `min(n, n - horizon)`, where `n` is its number of rows. */
  function Kept(g: seq<DatasetRow>, horizon: int): seq<DatasetRow> {
    Slice(g, Max(3, -horizon), Min(|g|, |g| - horizon))
  }

  /** `dropna` on a frame whose hospital `h` has complete rows exactly there keeps that range. */
  lemma {:induction false} DropIncomplete(t: seq<DatasetRow>, horizon: int, h: int)
    requires CompleteExactly(Group(t, DatasetKey, h), horizon)
    ensures Group(Filter(t, Complete), DatasetKey, h) == Kept(Group(t, DatasetKey, h), horizon)
  {
    var g := Group(t, DatasetKey, h);
    var lo, hi := Max(3, -horizon), Min(|g|, |g| - horizon);
    CompleteRange(g, horizon);
    assert forall j :: 0 <= j < |g| ==> (Complete(g[j]) <==> lo <= j < hi);
    FilterGroupByPosition(t, Complete, DatasetKey, h, lo, hi);
  }

  /** Every row of hospital `h` in the target frame is complete exactly where `CompleteAt` says. */
  lemma {:induction false} CompleteInGroup(snapshots: seq<Snapshot>, horizon: int, h: int)
    ensures CompleteExactly(Group(AddForecastTargets(BuildFeatures(snapshots), horizon), DatasetKey, h), horizon)
  {
    var g := Group(AddForecastTargets(BuildFeatures(snapshots), horizon), DatasetKey, h);
    forall j | 0 <= j < |g| ensures Complete(g[j]) <==> 3 <= j && 0 <= j + horizon < |g| {
      CompleteAt(snapshots, horizon, h, j);
    }
  }

  /** What `dropna` keeps of a hospital: its rows with three earlier snapshots and one
      `horizon` places away, that is, the range `Kept`. */
  lemma {:induction false} DatasetWithinHospital(snapshots: seq<Snapshot>, horizon: int, h: int)
    ensures Group(BuildMlDataset(snapshots, horizon), DatasetKey, h)
            == Kept(Group(AddForecastTargets(BuildFeatures(snapshots), horizon), DatasetKey, h), horizon)
  {
    CompleteInGroup(snapshots, horizon, h);
    DropIncomplete(AddForecastTargets(BuildFeatures(snapshots), horizon), horizon, h);
  }

  /** The rows `dropna` keeps stay in (hospital, time) order. */
  lemma {:induction false} DatasetSorted(snapshots: seq<Snapshot>, horizon: int)
    ensures SortedBy(BuildMlDataset(snapshots, horizon), DatasetKey)
  {
    TargetsSorted(BuildFeatures(snapshots), horizon);
    FilterSorted(AddForecastTargets(BuildFeatures(snapshots), horizon), Complete, DatasetKey);
  }

  function Max(a: int, b: int): int { if a >= b then a else b }
  function Min(a: int, b: int): int { if a <= b then a else b }

  /** With a forecast horizon of at least one snapshot, a hospital `h` with `n` snapshots
      keeps `n - 3 - horizon` rows `d` in the dataset, or none when that is not positive. */
  lemma {:induction false} DatasetCount(snapshots: seq<Snapshot>, horizon: int, h: int,
                                         d: seq<DatasetRow>, n: int)
    requires horizon >= 1
    requires d == Group(BuildMlDataset(snapshots, horizon), DatasetKey, h)
    requires n == |Group(snapshots, SnapshotKey, h)|
    ensures |d| == Max(0, n - 3 - horizon)
  {
    var t := Group(AddForecastTargets(BuildFeatures(snapshots), horizon), DatasetKey, h);
    DatasetLength(snapshots, horizon, h, d, t);
    TargetGroupLength(snapshots, horizon, h, t);
    KeptLength(t, horizon);
  }

  /** The length half of `DatasetWithinHospital`. */
  lemma {:induction false} DatasetLength(snapshots: seq<Snapshot>, horizon: int, h: int,
                                          d: seq<DatasetRow>, t: seq<DatasetRow>)
    requires d == Group(BuildMlDataset(snapshots, horizon), DatasetKey, h)
    requires t == Group(AddForecastTargets(BuildFeatures(snapshots), horizon), DatasetKey, h)
    ensures |d| == |Kept(t, horizon)|
  {
    DatasetWithinHospital(snapshots, horizon, h);
  }

  /** `DatasetGroupSize` with the hospital's target rows named. */
  lemma {:induction false} TargetGroupLength(snapshots: seq<Snapshot>, horizon: int, h: int, t: seq<DatasetRow>)
    requires t == Group(AddForecastTargets(BuildFeatures(snapshots), horizon), DatasetKey, h)
    ensures |t| == |Group(snapshots, SnapshotKey, h)|
  {
    DatasetGroupSize(snapshots, horizon, h);
  }

  /** Positions `max(3, -horizon)` to `min(n, n - horizon)` number `n - 3 - horizon`, or none. */
  lemma KeptLength(g: seq<DatasetRow>, horizon: int)
    requires horizon >= 1
    ensures |Kept(g, horizon)| == Max(0, |g| - 3 - horizon)
  {
  }

  /** A hospital has as many rows in the target frame as it has snapshots. */
  lemma {:induction false} DatasetGroupSize(snapshots: seq<Snapshot>, horizon: int, h: int)
    ensures |Group(AddForecastTargets(BuildFeatures(snapshots), horizon), DatasetKey, h)|
            == |Group(snapshots, SnapshotKey, h)|
  {
    DatasetGroupFeatures(snapshots, horizon, h);
    FeatureGroup(snapshots, h);
  }
}
