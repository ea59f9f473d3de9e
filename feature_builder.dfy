/** `build_features`: sort the snapshots by (hospital, time), score each one, add calendar
    columns and, within each hospital, the pressure of the 1, 2 and 3 previous snapshots. */
module FeatureBuilder {
  import opened Wrappers
  import opened Calendar
  import opened Pressure
  import opened Frames

  datatype FeatureRow = FeatureRow(
    snap: Snapshot,
    pressureScore: real,
    hour: int,
    dayOfWeek: int,
    isWeekend: int,
    pressureLag1: Option<real>,
    pressureLag2: Option<real>,
    pressureLag3: Option<real>,
    pressureTrend: Option<real>)

  function SnapshotKey(s: Snapshot): FrameKey {
    FrameKey(s.hospitalId, s.snapshotTime)
  }

  function RowKey(r: FeatureRow): FrameKey {
    SnapshotKey(r.snap)
  }

  function RowPressure(r: FeatureRow): real {
    r.pressureScore
  }

  function RowSnapshot(r: FeatureRow): Snapshot {
    r.snap
  }

  /** The snapshot column of a frame. */
  function Snapshots(f: seq<FeatureRow>): (s: seq<Snapshot>)
    ensures |s| == |f| && forall i :: 0 <= i < |f| ==> s[i] == f[i].snap
  {
    seq(|f|, i requires 0 <= i < |f| => f[i].snap)
  }

  /** `day_of_week.isin([5, 6]).astype(int)`. */
  function WeekendFlag(dayOfWeek: int): (flag: int)
    ensures flag == 1 <==> dayOfWeek == 5 || dayOfWeek == 6
    ensures flag == 0 || flag == 1
  {
    if dayOfWeek == 5 || dayOfWeek == 6 then 1 else 0
  }

  /** `lag_1 - lag_3`, absent when either is. */
  function Trend(lag1: Option<real>, lag3: Option<real>): (t: Option<real>)
    ensures t.Some? <==> lag1.Some? && lag3.Some?
  {
    if lag1.Some? && lag3.Some? then Some(lag1.value - lag3.value) else None
  }

  /** Row `i` of the feature frame, from the sorted snapshots and the three lag columns. */
  function FeatureRowAt(sorted: seq<Snapshot>, lag1: seq<Option<real>>, lag2: seq<Option<real>>,
                        lag3: seq<Option<real>>, i: nat): FeatureRow
    requires i < |sorted| == |lag1| == |lag2| == |lag3|
  {
    var s := sorted[i];
    FeatureRow(s, PressureScore(s), Hour(s.snapshotTime), Weekday(s.snapshotTime),
               WeekendFlag(Weekday(s.snapshotTime)), lag1[i], lag2[i], lag3[i], Trend(lag1[i], lag3[i]))
  }

  /** The lag-`k` column: the score column shifted by `k` within each hospital. */
  function LagColumnOf(sorted: seq<Snapshot>, k: int): (c: seq<Option<real>>)
    ensures |c| == |sorted|
  {
    GroupShiftColumn(sorted, SnapshotKey, PressureScore, k)
  }

  /** `build_features(df)`. The input sequence itself is a value and is never changed. */
  function BuildFeatures(df: seq<Snapshot>): (r: seq<FeatureRow>)
    ensures |r| == |df|
    ensures Snapshots(r) == SortBy(df, SnapshotKey)
    ensures multiset(Snapshots(r)) == multiset(df)
  {
    var sorted := SortBy(df, SnapshotKey);
    var lag1, lag2, lag3 := LagColumnOf(sorted, 1), LagColumnOf(sorted, 2), LagColumnOf(sorted, 3);
    var r := seq(|sorted|, i requires 0 <= i < |sorted| => FeatureRowAt(sorted, lag1, lag2, lag3, i));
    assert Snapshots(r) == sorted;
    r
  }

  /** The feature frame is in (hospital, time) order. */
  lemma {:induction false} FeaturesSorted(df: seq<Snapshot>)
    ensures SortedBy(BuildFeatures(df), RowKey)
  {
    var sorted, f := SortBy(df, SnapshotKey), BuildFeatures(df);
    SortBySorted(df, SnapshotKey);
    assert forall i :: 0 <= i < |f| ==> RowKey(f[i]) == SnapshotKey(sorted[i]);
  }

  /** Row `i` of the feature frame is the feature row of the `i`-th sorted snapshot. */
  lemma {:induction false} BuildFeaturesAt(df: seq<Snapshot>, i: nat)
    requires i < |df|
    ensures var sorted := SortBy(df, SnapshotKey);
            BuildFeatures(df)[i]
            == FeatureRowAt(sorted, LagColumnOf(sorted, 1), LagColumnOf(sorted, 2), LagColumnOf(sorted, 3), i)
  {
  }

  /** Each row's score is the pressure score of its snapshot, and its trend is lag 1 minus lag 3. */
  lemma {:induction false} ScoreAndTrend(df: seq<Snapshot>, i: nat)
    requires i < |df|
    ensures var r := BuildFeatures(df)[i];
            && r.pressureScore == PressureScore(r.snap)
            && r.pressureTrend == Trend(r.pressureLag1, r.pressureLag3)
  {
    BuildFeaturesAt(df, i);
  }

  /** Calendar columns: hour, Monday-based weekday, and the weekend flag. */
  lemma {:induction false} CalendarColumns(df: seq<Snapshot>, i: nat)
    requires i < |df|
    ensures var r := BuildFeatures(df)[i];
            && r.hour == Hour(r.snap.snapshotTime)
            && r.dayOfWeek == Weekday(r.snap.snapshotTime)
            && (r.isWeekend == 1 <==> r.dayOfWeek >= 5)
            && (r.isWeekend == 0 <==> r.dayOfWeek < 5)
  {
    BuildFeaturesAt(df, i);
  }

  /** A hospital's feature rows carry its snapshots in time order. */
  lemma {:induction false} FeatureGroup(df: seq<Snapshot>, h: int)
    ensures var g := Group(BuildFeatures(df), RowKey, h);
            && Snapshots(g) == Group(SortBy(df, SnapshotKey), SnapshotKey, h)
            && Snapshots(g) == SortBy(Group(df, SnapshotKey, h), SnapshotKey)
  {
    var sorted := SortBy(df, SnapshotKey);
    GroupMapped(sorted, BuildFeatures(df), SnapshotKey, RowKey, RowSnapshot, h);
    GroupOfSort(df, SnapshotKey, h);
  }

  function Lag1(r: FeatureRow): Option<real> { r.pressureLag1 }
  function Lag2(r: FeatureRow): Option<real> { r.pressureLag2 }
  function Lag3(r: FeatureRow): Option<real> { r.pressureLag3 }

  /** Column by column: every row's score is its snapshot's, and its lag-`k` column is the
      per-hospital shift of the score column by `k`. */
  lemma {:induction false} LagColumn(df: seq<Snapshot>, k: int, lag: FeatureRow -> Option<real>)
    requires (k, lag) in {(1, Lag1), (2, Lag2), (3, Lag3)}
    ensures MappedShift(SortBy(df, SnapshotKey), BuildFeatures(df), SnapshotKey, RowKey, RowSnapshot,
                        PressureScore, RowPressure, lag, k)
  {
    var sorted, f := SortBy(df, SnapshotKey), BuildFeatures(df);
    forall i | 0 <= i < |f| ensures lag(f[i]) == LagColumnOf(sorted, k)[i] {
      BuildFeaturesAt(df, i);
    }
    LagColumnFrom(sorted, f, k, lag);
  }

  lemma {:induction false} LagColumnFrom(sorted: seq<Snapshot>, f: seq<FeatureRow>, k: int, lag: FeatureRow -> Option<real>)
    requires |f| == |sorted|
    requires forall i :: 0 <= i < |f| ==> f[i].snap == sorted[i] && f[i].pressureScore == PressureScore(sorted[i])
    requires forall i :: 0 <= i < |f| ==> lag(f[i]) == LagColumnOf(sorted, k)[i]
    ensures MappedShift(sorted, f, SnapshotKey, RowKey, RowSnapshot, PressureScore, RowPressure, lag, k)
  {
  }

  /** One lag column read within hospital `h`'s rows `g`. */
  lemma {:induction false} LagInGroup(df: seq<Snapshot>, h: int, g: seq<FeatureRow>, j: nat, k: int,
                                      lag: FeatureRow -> Option<real>)
    requires (k, lag) in {(1, Lag1), (2, Lag2), (3, Lag3)}
    requires g == Group(BuildFeatures(df), RowKey, h) && j < |g|
    ensures lag(g[j]) == if j >= k then Some(g[j - k].pressureScore) else None
  {
    LagColumn(df, k, lag);
    ShiftOfMapped(SortBy(df, SnapshotKey), BuildFeatures(df), SnapshotKey, RowKey, RowSnapshot,
                  PressureScore, RowPressure, lag, k, h, j);
  }

  /** Read hospital by hospital, `g` being hospital `h`'s feature rows (its snapshots in
      time order, by `FeatureGroup`): the lag-`k` column at its `j`-th row holds the
      pressure of its `(j - k)`-th row and is absent for its first `k` rows, and the trend
      is lag 1 minus lag 3, absent for its first three rows. */
  lemma {:induction false} LagsWithinHospital(df: seq<Snapshot>, h: int, g: seq<FeatureRow>, j: nat)
    requires g == Group(BuildFeatures(df), RowKey, h) && j < |g|
    ensures g[j].pressureLag1 == if j >= 1 then Some(g[j - 1].pressureScore) else None
    ensures g[j].pressureLag2 == if j >= 2 then Some(g[j - 2].pressureScore) else None
    ensures g[j].pressureLag3 == if j >= 3 then Some(g[j - 3].pressureScore) else None
    ensures g[j].pressureTrend == if j >= 3 then Some(g[j - 1].pressureScore - g[j - 3].pressureScore) else None
  {
    LagInGroup(df, h, g, j, 1, Lag1);
    LagInGroup(df, h, g, j, 2, Lag2);
    LagInGroup(df, h, g, j, 3, Lag3);
    TrendOfGroupRow(df, h, g, j);
    TrendInGroup(g, j);
  }

  /** A row of a hospital's group carries the trend of its own lags, as every feature row does. */
  lemma TrendOfGroupRow(df: seq<Snapshot>, h: int, g: seq<FeatureRow>, j: nat)
    requires g == Group(BuildFeatures(df), RowKey, h) && j < |g|
    ensures g[j].pressureTrend == Trend(g[j].pressureLag1, g[j].pressureLag3)
  {
    var f := BuildFeatures(df);
    assert g[j] in f;
    var i :| 0 <= i < |f| && f[i] == g[j];
    ScoreAndTrend(df, i);
  }

  /** A row whose trend is lag 1 minus lag 3, with those lags as in `LagsWithinHospital`. */
  lemma {:induction false} TrendInGroup(g: seq<FeatureRow>, j: nat)
    requires j < |g|
    requires g[j].pressureTrend == Trend(g[j].pressureLag1, g[j].pressureLag3)
    requires g[j].pressureLag1 == if j >= 1 then Some(g[j - 1].pressureScore) else None
    requires g[j].pressureLag3 == if j >= 3 then Some(g[j - 3].pressureScore) else None
    ensures g[j].pressureTrend == if j >= 3 then Some(g[j - 1].pressureScore - g[j - 3].pressureScore) else None
  {
  }

  lemma {:induction false} LagByIndexOf(sorted: seq<Snapshot>, f: seq<FeatureRow>, i: nat, k: int, lag: FeatureRow -> Option<real>)
    requires SortedBy(sorted, SnapshotKey)
    requires MappedShift(sorted, f, SnapshotKey, RowKey, RowSnapshot, PressureScore, RowPressure, lag, k)
    requires i < |f|
    ensures lag(f[i]) == if 0 <= i - k < |f| && f[i - k].snap.hospitalId == f[i].snap.hospitalId
                         then Some(f[i - k].pressureScore) else None
  {
    ShiftOfMappedSorted(sorted, f, SnapshotKey, RowKey, RowSnapshot, PressureScore, RowPressure, lag, k, i, i - k);
  }

  /** One lag column read by index in the sorted frame. */
  lemma {:induction false} LagByIndex(df: seq<Snapshot>, i: nat, k: int, lag: FeatureRow -> Option<real>)
    requires (k, lag) in {(1, Lag1), (2, Lag2), (3, Lag3)}
    requires i < |df|
    ensures var f := BuildFeatures(df);
            lag(f[i]) == if 0 <= i - k < |f| && f[i - k].snap.hospitalId == f[i].snap.hospitalId
                         then Some(f[i - k].pressureScore) else None
  {
    LagColumn(df, k, lag);
    SortBySorted(df, SnapshotKey);
    LagByIndexOf(SortBy(df, SnapshotKey), BuildFeatures(df), i, k, lag);
  }

  /** Read by index in the sorted frame: lag `k` of row `i` is the pressure of row `i - k`
      when that row exists and belongs to the same hospital, and absent otherwise, so no
      lag ever crosses from one hospital to the next. */
  lemma {:induction false} LagsByIndex(df: seq<Snapshot>, i: nat)
    requires i < |df|
    ensures var f := BuildFeatures(df);
            && f[i].pressureLag1 == (if 1 <= i && f[i - 1].snap.hospitalId == f[i].snap.hospitalId
                                     then Some(f[i - 1].pressureScore) else None)
            && f[i].pressureLag2 == (if 2 <= i && f[i - 2].snap.hospitalId == f[i].snap.hospitalId
                                     then Some(f[i - 2].pressureScore) else None)
            && f[i].pressureLag3 == (if 3 <= i && f[i - 3].snap.hospitalId == f[i].snap.hospitalId
                                     then Some(f[i - 3].pressureScore) else None)
  {
    LagByIndex(df, i, 1, Lag1);
    LagByIndex(df, i, 2, Lag2);
    LagByIndex(df, i, 3, Lag3);
  }
}
