# Emergency-room recommender core, modelled in Dafny

This project models the computational core of the emergency-room recommender backend.
It covers the forecasting pipeline, from a raw occupancy snapshot to a risk tier:

- the pressure score of a snapshot;
- the risk tier of a pressure;
- the feature frame: sorted by (hospital, time), with per-hospital lags 1 to 3 and a trend;
- the training dataset: a per-hospital forward target, then dropping incomplete rows;
- the per-hospital forecasting loop, with the ARIMA fit abstracted.

It also models the helpers around that pipeline:

- time-series features (calendar fields, lag lists, rolling statistics);
- overcrowding risk bands, the clamped risk score and the placeholder ARIMA forecaster;
- hospital scoring, stable ranking and filtering;
- travel time and the wait-time placeholders;
- the math and time utilities;
- ingestion: CSV record validation, record enrichment, column-name cleanup and row filtering, and the periodic task scheduler;
- the region registry, the Longueuil region and coordinate validation.

Data frames are sequences of row records. A missing pandas value is an `Option`. Timestamps are
integers: microseconds in the pipeline, minutes in the scheduler. Float quantities are exact
`real`s, and Python's `round` is an explicit rounding to a decimal grid. Clocks, the ARIMA fit,
the square root and the haversine distance are parameters of the model. Objects whose fields the
source updates in place are classes: `ARIMAForecaster`, `DataScheduler` and `RegionRegistry`.
The loops of `train_and_forecast`, `create_lag_features`, `calculate_rolling_statistics`,
`assess_overcrowding_risk`, `validate_hospital_data`, `enrich_hospital_data`, `run_pending` and
`find_region_by_coordinates` are methods. Each is proved against a specification function.

The two `is_business_hours` helpers disagree at 17:00. `extract_temporal_features` in
backend/app/forecasting/features.py counts 17:00 as business hours. `is_business_hours` in
backend/app/utils/time.py does not. Both are modelled as written, and
`TemporalFeatures.BusinessHoursDisagreeAt17` states the difference.

## Model

| member | source | states |
|---|---|---|
| Pressure.AtLeastOne | backend/app/ml/features/pressure.py:8-9 | the guarded denominator is at least 1, equals the count when it is positive, and is 1 otherwise |
| Pressure.RawPressureFormula | backend/app/ml/features/pressure.py:11-20 | with positive denominators the unrounded score is 0.5·occupied/functional + 0.3·waiting/total + 0.2·over-24h/total |
| Pressure.PressureScore | backend/app/ml/features/pressure.py:22 | the score lies within half a thousandth of the weighted sum, either side (ties included), and on the three-decimal grid |
| Pressure.PressureInUnit | backend/app/ml/features/pressure.py:16-20 | nonnegative counts within their guarded denominators give a score in [0, 1], before and after rounding |
| Pressure.PressureMonotone | backend/app/ml/features/pressure.py:11-20 | more occupied stretchers, waiting patients or patients over 24 h never lower the score |
| Pressure.EmptyRoomScoresZero | backend/app/ml/features/pressure.py:8-22 | zero occupied, waiting and over-24h counts score exactly 0 |
| Pressure.PressureIgnoresOtherFields | backend/app/ml/features/pressure.py:11-13 | snapshots that agree on the five read counts score the same, whatever their over-48h and stay fields |
| Rounding.Round | backend/app/ml/features/pressure.py:22 | `round(x, n)` lies at most half a unit of the n-th decimal from x, on either side, and on that decimal grid |
| Rounding.TiesToEven | backend/app/ml/features/pressure.py:22 | a value exactly halfway between two grid points goes to the even one, half a step up or down |
| Rounding.TieExamples | backend/app/ml/features/pressure.py:22 | 0.0625 to 3 places is 0.062, 22.5 to 0 places is 22, and 99.625 to 2 places is 99.62, as Python's `round` gives |
| Rounding.RoundMonotone | backend/app/services/scoring.py:46 | rounding to a fixed number of places preserves order |
| Rounding.RoundOnGrid | backend/app/ml/features/pressure.py:22 | a value already on the grid is unchanged by rounding |
| Rounding.RoundWhole | backend/app/ml/features/pressure.py:22 | whole numbers are unchanged by rounding |
| RiskTier.PressureToRisk | backend/app/ml/risk.py:1-16 | UNKNOWN iff absent; LOW iff below 0.4; MEDIUM iff in [0.4, 0.7); HIGH iff at least 0.7 |
| RiskTier.RiskMonotone | backend/app/ml/risk.py:11-16 | a present pressure never maps to UNKNOWN, and a higher pressure never gets a lower tier |
| RiskTier.Boundaries | backend/app/ml/risk.py:8-16 | 0.4 is MEDIUM, 0.7 is HIGH, 0.399 is LOW and an absent value is UNKNOWN |
| Calendar.Hour | backend/app/utils/time.py:93-103 | the hour of a timestamp lies in 0..23 |
| Calendar.Weekday | backend/app/utils/time.py:106-116 | the weekday of a timestamp lies in 0..6 |
| Calendar.AddMinutes | backend/app/utils/time.py:64-75 | adding m minutes moves the timestamp by exactly m minutes |
| Calendar.DiffMinutes | backend/app/utils/time.py:78-90 | the difference is positive iff the first time is later, and zero iff the times are equal |
| Calendar.AddThenDiff | backend/app/utils/time.py:75-90 | the difference between `add_minutes(t, m)` and `t` is m |
| Calendar.DiffAntisymmetric | backend/app/utils/time.py:89-90 | diff(a, b) = -diff(b, a) and diff(a, a) = 0 |
| Calendar.BusinessHoursByHour | backend/app/utils/time.py:103 | `is_business_hours` depends only on the hour |
| Calendar.DaysInMonth | backend/app/forecasting/features.py:22-23 | every month has 28 to 31 days |
| Calendar.CivilWeekday | backend/app/forecasting/features.py:21 | the weekday of a calendar date lies in 0..6 |
| Calendar.ToTimestampFields | backend/app/forecasting/features.py:20-21 | a date-time and its timestamp agree on hour, day and weekday |
| Calendar.CivilAnchors | backend/tests/test_forecasting.py:80-89 | 1970-01-01 is day 0 and 2024-01-15 is a Monday |
| FeatureBuilder.WeekendFlag | backend/app/ml/features/feature_builder.py:15 | the flag is 1 iff the day of the week is 5 or 6, and 0 otherwise |
| FeatureBuilder.Trend | backend/app/ml/features/feature_builder.py:21 | the trend is present iff lag 1 and lag 3 both are |
| FeatureBuilder.BuildFeatures | backend/app/ml/features/feature_builder.py:4-9 | one row per snapshot; the snapshots are the input sorted by (hospital, time), a permutation of it |
| FeatureBuilder.FeaturesSorted | backend/app/ml/features/feature_builder.py:9 | the feature rows are in (hospital, time) order |
| FeatureBuilder.ScoreAndTrend | backend/app/ml/features/feature_builder.py:11-21 | every row's pressure is the pressure score of its snapshot, and its trend is lag 1 minus lag 3 when both exist |
| FeatureBuilder.CalendarColumns | backend/app/ml/features/feature_builder.py:13-15 | hour and day of week come from the snapshot time, and the weekend flag is 1 iff the day is 5 or later |
| FeatureBuilder.FeatureGroup | backend/app/ml/features/feature_builder.py:9 | a hospital's feature rows are that hospital's snapshots in time order |
| FeatureBuilder.LagColumn | backend/app/ml/features/feature_builder.py:17-19 | each lag column is the per-hospital shift of the pressure column by 1, 2 or 3 |
| FeatureBuilder.LagInGroup | backend/app/ml/features/feature_builder.py:17-19 | within a hospital, lag k of its j-th row is the pressure of its (j-k)-th row, absent when j < k |
| FeatureBuilder.LagsWithinHospital | backend/app/ml/features/feature_builder.py:17-21 | the three lags and the trend of a hospital's j-th row, read from that hospital's earlier rows only |
| FeatureBuilder.LagsByIndex | backend/app/ml/features/feature_builder.py:17-19 | in the sorted frame, lag k of row i is the pressure of row i-k when that row is the same hospital's, and absent otherwise |
| SnapshotDataset.AddForecastTargets | backend/app/ml/datasets/snapshot_dataset.py:35-46 | the same number of rows, whose features are the input sorted by (hospital, time) |
| SnapshotDataset.TargetColumn | backend/app/ml/datasets/snapshot_dataset.py:42-44 | the target column is the per-hospital shift of the pressure column by minus the horizon |
| SnapshotDataset.TargetsWithinHospital | backend/app/ml/datasets/snapshot_dataset.py:42-44 | the target of a hospital's j-th row is the pressure of its (j+horizon)-th row, absent past the end: an index shift, not a clock shift |
| SnapshotDataset.TargetsByIndex | backend/app/ml/datasets/snapshot_dataset.py:42-44 | in the sorted frame, row i's target is row (i+horizon)'s pressure when that row is the same hospital's |
| SnapshotDataset.TargetsKeepOrder | backend/app/ml/datasets/snapshot_dataset.py:40 | a frame already in (hospital, time) order keeps its rows and their order |
| SnapshotDataset.TargetsSorted | backend/app/ml/datasets/snapshot_dataset.py:40 | the target frame is in (hospital, time) order |
| SnapshotDataset.BuildMlDataset | backend/app/ml/datasets/snapshot_dataset.py:49-66 | no more rows than snapshots, and every row has its lags, trend and target |
| SnapshotDataset.DatasetSorted | backend/app/ml/datasets/snapshot_dataset.py:64 | the rows that survive `dropna` stay in (hospital, time) order |
| SnapshotDataset.DatasetGroupFeatures | backend/app/ml/datasets/snapshot_dataset.py:40-44 | a hospital's target rows carry its feature rows, in order |
| SnapshotDataset.CompleteAt | backend/app/ml/datasets/snapshot_dataset.py:42-64 | a hospital's j-th row is complete iff j is at least 3 and j+horizon is a row of that hospital |
| SnapshotDataset.CompleteRange | backend/app/ml/datasets/snapshot_dataset.py:64 | the complete rows of a hospital are those from max(3, -horizon) up to min(n, n-horizon) |
| SnapshotDataset.DropIncomplete | backend/app/ml/datasets/snapshot_dataset.py:64 | `dropna` keeps exactly that range of each hospital's rows |
| SnapshotDataset.DatasetWithinHospital | backend/app/ml/datasets/snapshot_dataset.py:42-64 | a hospital's dataset rows are its target rows minus the first 3 and the last `horizon` |
| SnapshotDataset.DatasetCount | backend/app/ml/datasets/snapshot_dataset.py:42-64 | for horizon at least 1, a hospital with n snapshots keeps max(0, n-3-horizon) rows |
| SnapshotDataset.DatasetGroupSize | backend/app/ml/datasets/snapshot_dataset.py:40-44 | a hospital has as many target rows as snapshots |
| ForecastService.Unique | backend/app/services/forecast_service.py:21-23 | the unique ids are exactly the ids present, each once |
| ForecastService.UniqueOrder | backend/app/services/forecast_service.py:21-23 | the unique ids are in order of first appearance |
| ForecastService.HospitalHistory | backend/app/services/forecast_service.py:24-30 | a hospital's history is a permutation of that hospital's rows |
| ForecastService.HistoryInTimeOrder | backend/app/services/forecast_service.py:30 | the history holds only that hospital and is in `snapshot_time` order |
| ForecastService.MaxTime | backend/app/services/forecast_service.py:41 | the latest snapshot time of a non-empty history: attained and not exceeded |
| ForecastService.ForecastFor | backend/app/services/forecast_service.py:24-50 | a record exists iff the hospital has at least 10 rows and the fit succeeds; it carries that hospital, the horizon and the fitted one-step value |
| ForecastService.ForecastHospitals | backend/app/services/forecast_service.py:21-53 | the loop appends exactly the records of `Forecasts` over the unique ids |
| ForecastService.ForecastHospital | backend/app/services/forecast_service.py:23-50 | one pass of the loop: no record for fewer than 10 rows or a failed fit, otherwise the record `ForecastFor` describes |
| ForecastService.TrainAndForecast | backend/app/services/forecast_service.py:11-55 | the predictions are the per-hospital forecasts of the ML dataset |
| ForecastService.ForecastRecord | backend/app/services/forecast_service.py:27-50 | every record belongs to a listed hospital with at least 10 rows; its forecast time is the latest snapshot plus the horizon; its tier is `pressure_to_risk` of its value and never UNKNOWN |
| ForecastService.ForecastIff | backend/app/services/forecast_service.py:27-53 | a hospital gets a record iff it has at least 10 rows and its fit succeeds; another hospital's failure does not matter |
| ForecastService.CollectRecord | backend/app/services/forecast_service.py:44-53 | every appended record is the successful forecast of a listed hospital |
| ForecastService.CollectPresent | backend/app/services/forecast_service.py:44-53 | every successful forecast of a listed hospital is appended |
| ForecastService.OnePerHospital | backend/app/services/forecast_service.py:21-23 | over distinct ids there is at most one record per hospital |
| ForecastService.ForecastsInOrder | backend/app/services/forecast_service.py:21-23 | records follow the order of the hospital list |
| ForecastService.ForecastAfterHistory | backend/app/services/forecast_service.py:41-42 | a record's forecast time is at least one horizon after every snapshot of its hospital |
| ForecastService.ForecastNeedsSnapshots | backend/app/services/forecast_service.py:27-28 | with horizon at least 1, a hospital with a prediction had at least 13 + horizon snapshots |
| TemporalFeatures.ExtractTemporalFeatures | backend/app/forecasting/features.py:9-27 | weekend iff weekday is at least 5; business hours iff 8 ≤ hour ≤ 17, 17 included; weekday in 0..6 |
| TemporalFeatures.QuarterOfMonth | backend/app/forecasting/features.py:26 | the quarter lies in 1..4 and holds the month |
| TemporalFeatures.FeaturesOfTimestamp | backend/app/forecasting/features.py:20-24 | hour, weekday and weekend agree with the calendar utilities on the same instant |
| TemporalFeatures.BusinessHoursDisagreeAt17 | backend/app/forecasting/features.py:25 | at 17:00 the features say business hours and `is_business_hours` says not |
| TemporalFeatures.ExtractExample | backend/tests/test_forecasting.py:80-89 | 2024-01-15 14:30 gives hour 14, Monday, January, not weekend, business hours |
| TemporalFeatures.LagValuesShift | backend/app/forecasting/features.py:46-48 | for lag at least 1 the list has the input's length; entry i is values[i-lag], absent for i < lag |
| TemporalFeatures.LagZeroIsEmpty | backend/app/forecasting/features.py:47 | lag 0 gives an empty list for a non-empty input |
| TemporalFeatures.LagValuesCorrectedShift | backend/app/forecasting/features.py:47 | the corrected lag list has the input's length, with entry i equal to values[i-lag] for every lag including 0 |
| TemporalFeatures.LagValuesAgree | backend/app/forecasting/features.py:47 | for lag at least 1 the corrected and the written lag lists coincide |
| TemporalFeatures.LagColumnCorrected | backend/app/forecasting/features.py:47 | for every lag of at least 0 the column the model uses is the shifted series, lag 0 included |
| TemporalFeatures.CreateLagFeatures | backend/app/forecasting/features.py:30-50 | one key per requested lag, holding that lag's list, with lag 0 corrected |
| TemporalFeatures.CalculateRollingStatistics | backend/app/forecasting/features.py:53-92 | fails iff window ≤ 0 on a non-empty input; otherwise every list has the input's length, absent before window-1, and each entry is the mean, min and max of its window |
| TemporalFeatures.RollingOrdered | backend/app/forecasting/features.py:79-87 | within a window, min ≤ mean ≤ max |
| OvercrowdingRisk.LevelMonotone | backend/app/forecasting/risk.py:25-40 | a longer wait never lowers the level |
| OvercrowdingRisk.TableMatchesLevels | backend/app/forecasting/risk.py:25-40 | the first band whose threshold exceeds the wait gives that wait's level and its colour |
| OvercrowdingRisk.AssessOvercrowdingRisk | backend/app/forecasting/risk.py:9-49 | the inputs are echoed; the max wait is the larger one; the level is low/moderate/high/critical below 60/90/120/beyond, coloured green/yellow/orange/red; overcrowded iff the max wait reaches the threshold |
| OvercrowdingRisk.LevelBoundaries | backend/app/forecasting/risk.py:25-30 | 60, 90 and 120 each open the next band |
| OvercrowdingRisk.AssessExample | backend/tests/test_forecasting.py:49-56 | waits of 30 and 35 are low, green and not overcrowded |
| OvercrowdingRisk.CalculateRiskScore | backend/app/forecasting/risk.py:52-82 | the score lies in [0, 100], equals the raw sum inside that range, and is clamped outside it |
| OvercrowdingRisk.DefaultRiskScore | backend/app/forecasting/risk.py:62-64 | with no metrics (wait 0, stable, occupancy 0.5) the score is 15 |
| OvercrowdingRisk.RiskScoreExample | backend/tests/test_forecasting.py:66-74 | wait 90, increasing, occupancy 0.8 scores 79 |
| OvercrowdingRisk.UnknownTrendIsStable | backend/app/forecasting/risk.py:70-76 | an unrecognised trend scores as "stable" |
| OvercrowdingRisk.RiskScoreMonotoneInWait | backend/app/forecasting/risk.py:67 | a longer wait never lowers the score, and past 100 minutes it adds nothing |
| OvercrowdingRisk.PredictPeakTimes | backend/app/forecasting/risk.py:85-114 | two periods, each with valid hours and a confidence in (0, 1] |
| OvercrowdingRisk.PeakTimesIgnoreHistory | backend/app/forecasting/risk.py:99-114 | the result does not depend on the history |
| Arima.Repeat | backend/app/forecasting/arima.py:48-58 | `[x] * steps`: max(steps, 0) copies of x |
| Arima.ARIMAForecaster.constructor | backend/app/forecasting/arima.py:11-21 | stores the order, not fitted |
| Arima.ARIMAForecaster.Fit | backend/app/forecasting/arima.py:23-33 | fitted afterwards, whatever the data, with the order kept |
| Arima.ARIMAForecaster.Forecast | backend/app/forecasting/arima.py:35-59 | three lists of length max(steps, 0); zeros before fitting, 45 ≤ 60 ≤ 75 afterwards; the state is unchanged |
| Arima.ARIMAForecaster.Evaluate | backend/app/forecasting/arima.py:61-76 | all three metrics are 0, and the state is unchanged |
| Arima.AutoArima | backend/app/forecasting/arima.py:79-94 | a new forecaster of order (1, 1, 1), fitted |
| Arima.FitThenForecastExample | backend/tests/test_forecasting.py:27-37 | after fitting, a three-step forecast is [60, 60, 60] |
| Scoring.SeverityWeights | backend/app/services/scoring.py:25-32 | both weights are nonnegative and sum to 1 |
| Scoring.UnknownSeverityIsModerate | backend/app/services/scoring.py:32 | an unknown severity gets the moderate weights |
| Scoring.WeightCases | backend/app/services/scoring.py:25-30 | the weights are one of the four table pairs |
| Scoring.DistanceScore | backend/app/services/scoring.py:35 | the distance score is nonnegative, and at most 100 for a nonnegative distance |
| Scoring.WaitTimeScore | backend/app/services/scoring.py:38 | the wait score is nonnegative, and at most 100 for a nonnegative wait |
| Scoring.CompositeBounds | backend/app/services/scoring.py:41-44 | for nonnegative inputs the unrounded score lies in [0, 100] |
| Scoring.CalculateHospitalScore | backend/app/services/scoring.py:8-46 | the score is the composite rounded to 2 places: within 0.005 of it on either side, ties included |
| Scoring.HospitalScoreBounds | backend/tests/test_recommend.py:11-19 | for nonnegative inputs the rounded score lies in [0, 100] |
| Scoring.CloserScoresHigher | backend/app/services/scoring.py:35-46 | a nearer hospital never scores lower |
| Scoring.ShorterWaitScoresHigher | backend/app/services/scoring.py:38-46 | a shorter wait never scores lower |
| Scoring.SeverityChangesScore | backend/tests/test_recommend.py:21-34 | 10 km and 30 minutes score 78 when critical and 60.5 when low |
| Scoring.RankHospitals | backend/app/services/scoring.py:49-63 | a permutation of the input, highest score first, a missing score counting as 0 |
| Scoring.RankStable | backend/app/services/scoring.py:59-63 | entries with equal scores keep their input order |
| Scoring.RankExample | backend/tests/test_recommend.py:36-46 | scores 80, 95, 70 rank as B, A, C |
| Scoring.KeepPassingMembers | backend/app/services/scoring.py:82-88 | an entry is kept iff it is in the input and passes every given limit |
| Scoring.FilterThenFilter | backend/app/services/scoring.py:84-88 | the distance filter followed by the wait filter keeps exactly the entries passing both |
| Scoring.DistanceOnly | backend/app/services/scoring.py:84-85 | only a distance limit: keeps the entries with a distance present and within it |
| Scoring.WaitOnly | backend/app/services/scoring.py:87-88 | only a wait limit: keeps the entries with a wait present and within it |
| Scoring.NoLimits | backend/app/services/scoring.py:82 | no limit keeps the list unchanged |
| Scoring.ApplyFiltersKeepsPassing | backend/app/services/scoring.py:66-91 | the result is the input's passing entries in input order; an entry missing a limited field is dropped |
| Scoring.FilterExample | backend/tests/test_recommend.py:48-56 | a 10 km limit keeps the 3 km hospital and drops the 15 km one |
| Routing.Speed | backend/app/services/routing.py:57-63 | every mode has a positive speed |
| Routing.EstimateTravelTime | backend/app/services/routing.py:45-67 | minutes × speed = distance × 60 |
| Routing.SpeedTable | backend/app/services/routing.py:57-63 | car 50, public transport 30, walk 5 km/h; an unknown mode drives like a car |
| Routing.UnknownModeIsCar | backend/app/services/routing.py:63 | an unknown mode takes the car's time |
| Routing.TravelTimeMonotone | backend/app/services/routing.py:64-67 | for nonnegative distances the time is nonnegative and grows with distance |
| Routing.GetRouteInfo | backend/app/services/routing.py:70-95 | the mode is "car"; distance and time are the rounded inputs, within 0.005 and 0.5 on either side, ties included |
| WaitTime.GetCurrentWaitTime | backend/app/services/wait_time.py:9-22 | always absent |
| WaitTime.PredictWaitTime | backend/app/services/wait_time.py:25-47 | lower ≤ predicted ≤ upper, with a confidence level in (0, 1) |
| WaitTime.CalculateAverageWaitTime | backend/app/services/wait_time.py:50-62 | the average of no waits is 0 |
| WaitTime.AverageBetween | backend/app/services/wait_time.py:62 | a non-empty list's average lies between its minimum and maximum |
| WaitTime.AverageOfEqualWaits | backend/app/services/wait_time.py:62 | equal waits average to that wait |
| WaitTime.GetWaitTimeTrend | backend/app/services/wait_time.py:65-83 | echoes the id and the hours; trend "stable", no current or average wait |
| MathUtils.CalculateMean | backend/app/utils/math.py:8-20 | the mean of no values is 0 |
| MathUtils.CalculateMeanBetween | backend/app/utils/math.py:20 | a non-empty list's mean lies between its minimum and maximum |
| MathUtils.MeanTimesCount | backend/app/utils/math.py:20 | mean × length = sum |
| MathUtils.Sorted | backend/app/utils/math.py:36 | `sorted`: an ascending permutation |
| MathUtils.SortedOfPermutation | backend/app/utils/math.py:36 | permutations sort to the same list |
| MathUtils.SortedEnds | backend/app/utils/math.py:36 | sorting puts the minimum first and the maximum last |
| MathUtils.MedianOrderFree | backend/app/utils/math.py:23-42 | the median does not depend on the input order |
| MathUtils.MedianBetween | backend/app/utils/math.py:36-42 | a non-empty list's median lies between its minimum and maximum |
| MathUtils.CalculateStdDev | backend/app/utils/math.py:45-60 | 0 for fewer than 2 values, otherwise the root of the sample variance |
| MathUtils.SampleVariance | backend/app/utils/math.py:58-59 | the sample variance is nonnegative |
| MathUtils.ConstantNoDeviation | backend/app/utils/math.py:58-59 | constant values have no deviation from their value |
| MathUtils.PyIndex | backend/app/utils/math.py:81-84 | Python list indexing: a negative index counts from the end, and out of range fails |
| MathUtils.CalculatePercentile | backend/app/utils/math.py:63-75 | the percentile of no values is 0 |
| MathUtils.PercentileBetween | backend/app/utils/math.py:74-85 | for 0 ≤ p ≤ 100 and a non-empty list, the percentile exists and lies between minimum and maximum |
| MathUtils.PercentileIndexRange | backend/app/utils/math.py:78-79 | for 0 ≤ p ≤ 100 the rank and its floor and ceiling are valid indices |
| MathUtils.PercentileEnds | backend/app/utils/math.py:74-85 | p = 0 gives the minimum and p = 100 the maximum |
| MathUtils.PercentileFiftyIsMedian | backend/app/utils/math.py:23-85 | for an odd count the 50th percentile is the median |
| MathUtils.Clamp | backend/app/utils/math.py:88-100 | inside a valid range the value is kept; below it gives min; above it gives max(min, max); a valid range holds the result |
| MathUtils.ClampIdempotent | backend/app/utils/math.py:100 | clamping twice is clamping once |
| MathUtils.Normalize | backend/app/utils/math.py:103-117 | 0 for equal bounds; otherwise min + r·(max - min) = value |
| MathUtils.NormalizeEnds | backend/app/utils/math.py:115-117 | min maps to 0, max to 1, and values between them into [0, 1] |
| MathUtils.SafeDivide | backend/app/utils/math.py:134-148 | the default for a zero denominator, otherwise the quotient |
| CsvLoader.ValidateHospitalData | backend/app/ingestion/csv_loader.py:39-58 | true iff every row has a truthy name, latitude and longitude |
| CsvLoader.ExtraKeysIgnored | backend/app/ingestion/csv_loader.py:49-53 | adding or changing a key other than the three required ones does not change the verdict |
| CsvLoader.ValidAppend | backend/app/ingestion/csv_loader.py:51-58 | a concatenation is valid iff both parts are; the empty list is valid |
| CsvLoader.ValidExample | backend/tests/test_ingestion.py:13-29 | a complete row validates |
| CsvLoader.MissingLongitudeExample | backend/tests/test_ingestion.py:31-41 | a row without longitude fails |
| CsvLoader.EmptyNameExample | backend/tests/test_ingestion.py:43-52 | a row with an empty name fails |
| CsvLoader.FalsyNumberExample | backend/app/ingestion/csv_loader.py:53 | a latitude of 0.0 is falsy and fails, while NaN is truthy and passes |
| Enrichment.EnrichHospitalData | backend/app/ingestion/enrichment.py:8-28 | `data_enriched` is true; `location_string` is "lat, lon" iff both keys exist, otherwise as it was; every other key keeps its value; no other key is added |
| Enrichment.GeocodeAddress | backend/app/ingestion/enrichment.py:31-44 | exactly the keys latitude and longitude, both 0.0 |
| Enrichment.EnrichExample | backend/tests/test_ingestion.py:58-82 | 45.5 and -73.5 give "45.5, -73.5", and the name and custom field are kept |
| Enrichment.GeocodeThenEnrich | backend/app/ingestion/enrichment.py:22-44 | enriching a geocoded address gives the location "0.0, 0.0" |
| Enrichment.EnrichTwice | backend/app/ingestion/enrichment.py:18-25 | enriching is idempotent |
| Parser.Strip | backend/app/ingestion/parser.py:7 | the result neither starts nor ends with whitespace |
| Parser.StripSplits | backend/app/ingestion/parser.py:7 | the name is its leading whitespace, the stripped name and its trailing whitespace |
| Parser.StrippedIsSpace | backend/app/ingestion/parser.py:7 | only whitespace is removed |
| Parser.StripIdempotent | backend/app/ingestion/parser.py:7 | stripping twice is stripping once |
| Parser.ReplaceChar | backend/app/ingestion/parser.py:8 | the same length, each space replaced by "_" and every other character kept |
| Parser.RemoveChar | backend/app/ingestion/parser.py:9 | no apostrophe remains, and nothing new appears |
| Parser.FoldChar | backend/app/ingestion/parser.py:10-12 | a character's NFKD decomposition without its non-ASCII parts: ASCII only, with an apostrophe only from an apostrophe |
| Parser.AsciiFold | backend/app/ingestion/parser.py:10-12 | the folded name is ASCII |
| Parser.AsciiFoldAscii | backend/app/ingestion/parser.py:10-12 | an ASCII name is unchanged by folding |
| Parser.CleanColumnNameShape | backend/app/ingestion/parser.py:5-13 | there is no space before folding; the cleaned name is ASCII and has no apostrophe |
| Parser.SpaceCanSurvive | backend/app/ingestion/parser.py:7-11 | a no-break space inside a name folds to a space after the space step: "a b" cleans to "a b" |
| Parser.CleanPlainName | backend/app/ingestion/parser.py:5-13 | a trimmed ASCII name without spaces or apostrophes is unchanged |
| Parser.TidyAtSpace | backend/app/ingestion/parser.py:8 | a space between two parts becomes "_" |
| Parser.TidyAtApostrophe | backend/app/ingestion/parser.py:9 | an apostrophe between two parts disappears |
| Parser.ExtractionColumnExample | backend/app/ingestion/parser.py:20 | "Heure de l'extraction (image)" cleans to "Heure_de_lextraction_(image)" |
| Parser.UpdateColumnExample | backend/app/ingestion/parser.py:21 | "Mise à jour" cleans to "Mise_a_jour" |
| Parser.CleanColumns | backend/app/ingestion/parser.py:5-13 | every column name is cleaned, in place |
| Parser.IndexOf | backend/app/ingestion/parser.py:16 | a column lookup finds the first column of that name, or fails iff it is absent |
| Parser.CleanDataframe | backend/app/ingestion/parser.py:3-25 | fails iff a column read later is missing after cleaning; otherwise the columns are the cleaned names followed by `snapshot_time` and `updated_at` where absent, and no row is added |
| Parser.Convert | backend/app/ingestion/parser.py:19-21 | the three assignments keep one row per row and add `snapshot_time` and `updated_at` to the columns when absent |
| Parser.AssignReads | backend/app/ingestion/parser.py:19-21 | after `df[name] = …` the column found under the name holds each row's computed value |
| Parser.AssignKeeps | backend/app/ingestion/parser.py:19-21 | `df[name] = …` leaves every column of another name in place with its cells |
| Parser.CleanDataframeCells | backend/app/ingestion/parser.py:19-21 | each output row is its surviving row with the permit number as `str` text, `snapshot_time` and `updated_at` parsed from the extraction and update cells, and every other column unchanged |
| Parser.TwoFiltersAsOne | backend/app/ingestion/parser.py:16-17 | the two total-row filters in turn equal one filter dropping both totals |
| Parser.CleanDataframeRows | backend/app/ingestion/parser.py:16-17 | the surviving rows are the input's rows that are not a regional or provincial total, in order, one output row each |
| Scheduler.AfterPass | backend/app/ingestion/scheduler.py:45-54 | the same number of tasks, each updated on its own by its outcome |
| Scheduler.DueAmongExactly | backend/app/ingestion/scheduler.py:45-46 | the called tasks are exactly the due ones, in list order |
| Scheduler.StillDueAfterPass | backend/app/ingestion/scheduler.py:49-54 | with a positive interval, a task is still due iff it was due and it raised |
| Scheduler.DataScheduler.constructor | backend/app/ingestion/scheduler.py:12-15 | no tasks |
| Scheduler.DataScheduler.ScheduleTask | backend/app/ingestion/scheduler.py:17-39 | appends one task with the name and interval, never run, due now; earlier tasks unchanged |
| Scheduler.DataScheduler.RunPending | backend/app/ingestion/scheduler.py:41-54 | calls the due tasks in order; a completed task gets last run = now and next run = now + interval; a failing one is unchanged; no task added or removed |
| Scheduler.ScheduleExample | backend/tests/test_ingestion.py:93-108 | one task "test_task", interval 60, never run, due now |
| Scheduler.RunExample | backend/app/ingestion/scheduler.py:45-51 | a new task runs on the first pass and is not due on a second pass at the same time |
| Registry.RegionRegistry.constructor | backend/app/regions/registry.py:11-14 | no regions |
| Registry.RegionRegistry.RegisterRegion | backend/app/regions/registry.py:16-25 | the code maps to the config, overwriting; the code joins the order only if it is new |
| Registry.RegionRegistry.GetRegion | backend/app/regions/registry.py:27-37 | absent iff the code is unregistered, otherwise its config |
| Registry.RegionRegistry.ListRegions | backend/app/regions/registry.py:39-46 | every registered code, each once |
| Registry.RegionRegistry.FindRegionByCoordinates | backend/app/regions/registry.py:48-74 | the first region, in registration order, with non-empty bounds holding the point, edges included and a missing side unbounded; absent iff no region claims it |
| Registry.InitializeRegions | backend/app/regions/registry.py:81-87 | registers Longueuil under "LNG" |
| Registry.FindExample | backend/app/regions/registry.py:63-74 | the Longueuil centre is found in "LNG" and Quebec City in no region |
| Registry.RegisterTwiceExample | backend/app/regions/registry.py:24-46 | re-registering keeps the second config and lists the code once; an unknown code is absent |
| Longueuil.GetLongueuilHospitals | backend/app/regions/longueuil.py:23-51 | two hospitals, each in region "Longueuil" with an emergency service |
| Longueuil.IsWithinLongueuilRegion | backend/app/regions/longueuil.py:54-69 | iff 45.46 ≤ lat ≤ 45.60 and -73.60 ≤ lon ≤ -73.40 |
| Longueuil.WithinIsClaimed | backend/app/regions/longueuil.py:13-69 | the region check agrees with the registry's bounds test on the region config |
| Longueuil.PlacesInside | backend/app/regions/longueuil.py:12-46 | the centre and both hospitals lie inside the region |
| Geocoding.GeocodeAddress | backend/app/services/geocoding.py:8-21 | always absent |
| Geocoding.ReverseGeocode | backend/app/services/geocoding.py:24-37 | always absent |
| Geocoding.ValidBoundaries | backend/app/services/geocoding.py:51 | ±90 and ±180 are accepted; 90.5 and -180.5 are not |
| Geocoding.ValidSymmetric | backend/app/services/geocoding.py:51 | a point is valid iff its antipode by sign is |
| Geocoding.LongueuilIsValid | backend/app/services/geocoding.py:51 | every point of the Longueuil region is valid |

## Left out

- The database: `load_snapshots_df`, the forecast storage, the loaders and the ORM models. The pipeline starts from a sequence of snapshots.
- The statsmodels ARIMA fit and forecast. It is a parameter `arima: seq<real> -> Option<real>`; `None` stands for an exception.
- ForecastService.ForecastFor: a NaN forecast (which Python classifies HIGH) is not modelled, since values are reals.
- Rounding.Round: ties go to even on the exact real value. Python does the same for a value a binary float holds exactly (occupied 1 of 8 functional stretchers gives 0.0625, which both round to 0.062), but it rounds the nearest binary float of any other decimal, so `round(2.675, 2)` is 2.67 in Python and 2.68 here. The half-unit bound holds under both.
- ForecastService.HospitalHistory: the sort on `snapshot_time` alone is stable here, while pandas' default quicksort for one column is not, so rows of one hospital with equal `snapshot_time` may reach the ARIMA series in a different order. (The two-column sorts in `build_features` and `build_ml_dataset` are stable in pandas too.)
- MathUtils.CalculateStdDev: the square root is a parameter; `sqrt` is floating point.
- TemporalFeatures.CalculateRollingStatistics: the rolling standard deviation list is not modelled (it needs `sqrt`).
- `round_to_nearest` and the haversine distance are floating-point maths and are not part of this model.
- Routing.GetRouteInfo: takes the distance as a parameter instead of computing it from two points.
- TemporalFeatures.CreateLagFeatures: lag 0 gives the series itself, not the empty list the source returns (see Findings); negative lags are modelled as the source slices them.
- Float infinities (`float("inf")` thresholds and `.get` defaults) are `Option` values: `None` stands for an unbounded side.
- Logging and `print` calls do nothing observable and are left out.
- Clocks (`datetime.now`, `utcnow`) become `now` parameters.
- Parser.FoldChar: the NFKD-then-ASCII step is a table of the Latin-1 range; characters above U+00FF are dropped, where NFKD would keep the base letter of some of them.
- Parser.IndexOf: with duplicate column names, the first occurrence is used.
- Parser.CleanDataframe: `pd.to_datetime` is a parameter `toDatetime` (date parsing is not modelled); `astype(str)` is `Records.Render`. A missing column is `None` instead of `KeyError`. Rows are required to have one value per column. The `print` of the column list is left out.
- CSV file reading (`load_csv`), HTTP fetching and `strptime`/`strftime` are I/O and are not modelled.
- Records.Render: a number carries the text Python's `str` gives it; float formatting is not modelled.
- Scheduler.DataScheduler.RunPending: a task's outcome is a parameter `completes`; a task that schedules more tasks while it runs is not modelled.
- The module-level `registry` singleton, the APScheduler background job, the HTTP API, schemas and configuration are not part of this model.
- Geocoding.ValidateCoordinates: its properties are stated by the lemmas beside it, not by its own contract.

## Findings

| source | as written | input that shows it | evidently intended | confidence | as-written member | corrected member |
|---|---|---|---|---|---|---|
| backend/app/forecasting/features.py:46-48 | for lag 0, `values[:-0]` is `values[:0]`, so `lag_0` is the empty list | values = [1.0], lags = [0] | `lag_0` equals the series itself, like every other lag keeping the input's length | not executed; high that the result is empty, medium that lag 0 is ever requested | TemporalFeatures.LagZeroIsEmpty | TemporalFeatures.LagValuesCorrectedShift |
