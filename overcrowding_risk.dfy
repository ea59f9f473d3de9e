/** Overcrowding risk of an emergency room from its current and predicted waits, a composite
    risk score, and the placeholder peak-time predictor. */
module OvercrowdingRisk {
  import opened Wrappers

  datatype Level = Low | Moderate | High | Critical
  datatype Color = Green | Yellow | Orange | Red

  /** One row of the band table: a level applies to waits strictly below its threshold;
      `None` stands for an infinite threshold. */
  datatype Band = Band(level: Level, threshold: Option<int>, color: Color)

  const RiskLevels: seq<Band> := [
    Band(Low, Some(60), Green),
    Band(Moderate, Some(90), Yellow),
    Band(High, Some(120), Orange),
    Band(Critical, None, Red)
  ]

  const DefaultCapacityThreshold: int := 120

  predicate Below(wait: int, threshold: Option<int>) {
    threshold.None? || wait < threshold.value
  }

  /** The level whose band holds `wait`: bands are [.., 60), [60, 90), [90, 120), [120, ..). */
  function LevelFor(wait: int): Level {
    if wait < 60 then Low else if wait < 90 then Moderate else if wait < 120 then High else Critical
  }

  /** The colour the table pairs with each level. */
  function ColorFor(level: Level): Color {
    match level
    case Low => Green
    case Moderate => Yellow
    case High => Orange
    case Critical => Red
  }

  function Rank(level: Level): int {
    match level
    case Low => 0
    case Moderate => 1
    case High => 2
    case Critical => 3
  }

  /** A longer wait never lowers the level. */
  lemma LevelMonotone(a: int, b: int)
    requires a <= b
    ensures Rank(LevelFor(a)) <= Rank(LevelFor(b))
  {
  }

  /** The band table, read row by row, is the level function with its colours. */
  lemma {:induction false} TableMatchesLevels(wait: int, k: int)
    requires 0 <= k < |RiskLevels|
    requires forall j :: 0 <= j < k ==> !Below(wait, RiskLevels[j].threshold)
    requires Below(wait, RiskLevels[k].threshold)
    ensures RiskLevels[k].level == LevelFor(wait)
    ensures RiskLevels[k].color == ColorFor(LevelFor(wait))
  {
    if k >= 1 { assert !Below(wait, RiskLevels[0].threshold); }
    if k >= 2 { assert !Below(wait, RiskLevels[1].threshold); }
    if k >= 3 { assert !Below(wait, RiskLevels[2].threshold); }
  }

  datatype Assessment = Assessment(
    riskLevel: Level,
    currentWaitMinutes: int,
    predictedWaitMinutes: int,
    maxWaitMinutes: int,
    color: Color,
    isOvercrowded: bool)

  /** `assess_overcrowding_risk(current, predicted, capacity_threshold)`: the first band
      whose threshold exceeds the larger wait gives the level and colour. */
  method AssessOvercrowdingRisk(currentWaitTime: int, predictedWaitTime: int, capacityThreshold: int)
    returns (r: Assessment)
    ensures r.currentWaitMinutes == currentWaitTime && r.predictedWaitMinutes == predictedWaitTime
    ensures r.maxWaitMinutes >= currentWaitTime && r.maxWaitMinutes >= predictedWaitTime
    ensures r.maxWaitMinutes == currentWaitTime || r.maxWaitMinutes == predictedWaitTime
    ensures r.riskLevel == LevelFor(r.maxWaitMinutes)
    ensures r.color == ColorFor(r.riskLevel)
    ensures r.isOvercrowded <==> r.maxWaitMinutes >= capacityThreshold
  {
    var maxWait := if currentWaitTime >= predictedWaitTime then currentWaitTime else predictedWaitTime;
    var riskLevel, riskColor := Low, Green;
    var k := 0;
    while k < |RiskLevels|
      invariant 0 <= k < |RiskLevels|
      invariant forall j :: 0 <= j < k ==> !Below(maxWait, RiskLevels[j].threshold)
    {
      var band := RiskLevels[k];
      if Below(maxWait, band.threshold) {
        riskLevel, riskColor := band.level, band.color;
        TableMatchesLevels(maxWait, k);
        break;
      }
      k := k + 1;
    }
    r := Assessment(riskLevel, currentWaitTime, predictedWaitTime, maxWait, riskColor,
                    maxWait >= capacityThreshold);
  }

  /** The band boundaries: 60, 90 and 120 open the next band. */
  lemma LevelBoundaries()
    ensures LevelFor(59) == Low && LevelFor(60) == Moderate
    ensures LevelFor(89) == Moderate && LevelFor(90) == High
    ensures LevelFor(119) == High && LevelFor(120) == Critical
  {
  }

  /** Waits of 30 and 35 minutes against the default capacity: low, green, not overcrowded. */
  method AssessExample() returns (r: Assessment)
    ensures r.maxWaitMinutes == 35 && r.riskLevel == Low && r.color == Green && !r.isOvercrowded
  {
    r := AssessOvercrowdingRisk(30, 35, DefaultCapacityThreshold);
  }

  // ----- calculate_risk_score -----

  /** The metrics the score reads; an absent entry takes the source's default. */
  datatype Metrics = Metrics(waitTimeMinutes: Option<real>, trend: Option<string>, occupancyRate: Option<real>)

  /** The trend adjustment table; an unknown trend adds nothing. */
  function TrendAdjustment(trend: string): real {
    if trend == "decreasing" then -10.0
    else if trend == "stable" then 0.0
    else if trend == "increasing" then 10.0
    else if trend == "rapidly_increasing" then 20.0
    else 0.0
  }

  function Min(a: real, b: real): real { if a <= b then a else b }
  function Max(a: real, b: real): real { if a >= b then a else b }

  /** The sum of the three parts before clamping. */
  function RawRiskScore(m: Metrics): real {
    var waitScore := Min(m.waitTimeMinutes.GetOr(0.0) / 2.0, 50.0);
    waitScore + TrendAdjustment(m.trend.GetOr("stable")) + m.occupancyRate.GetOr(0.5) * 30.0
  }

  /** `calculate_risk_score(hospital_metrics)`: the raw score clamped to [0, 100]. */
  function CalculateRiskScore(m: Metrics): (score: real)
    ensures 0.0 <= score <= 100.0
    ensures 0.0 <= RawRiskScore(m) <= 100.0 ==> score == RawRiskScore(m)
    ensures RawRiskScore(m) < 0.0 ==> score == 0.0
    ensures RawRiskScore(m) > 100.0 ==> score == 100.0
  {
    Min(Max(RawRiskScore(m), 0.0), 100.0)
  }

  /** With nothing given: no wait, a stable trend and half occupancy, 15 points. */
  lemma DefaultRiskScore()
    ensures CalculateRiskScore(Metrics(None, None, None)) == 15.0
  {
  }

  /** Wait 90, an increasing trend and occupancy 0.8 score 45 + 10 + 24 = 79. */
  lemma RiskScoreExample()
    ensures CalculateRiskScore(Metrics(Some(90.0), Some("increasing"), Some(0.8))) == 79.0
  {
  }

  /** An unrecognised trend scores as a stable one. */
  lemma UnknownTrendIsStable(w: Option<real>, trend: string, o: Option<real>)
    requires trend !in {"decreasing", "stable", "increasing", "rapidly_increasing"}
    ensures CalculateRiskScore(Metrics(w, Some(trend), o)) == CalculateRiskScore(Metrics(w, Some("stable"), o))
  {
  }

  /** A longer wait never lowers the score; past 100 minutes the wait part is capped at 50. */
  lemma RiskScoreMonotoneInWait(a: real, b: real, t: Option<string>, o: Option<real>)
    requires a <= b
    ensures CalculateRiskScore(Metrics(Some(a), t, o)) <= CalculateRiskScore(Metrics(Some(b), t, o))
    ensures 100.0 <= a ==> CalculateRiskScore(Metrics(Some(a), t, o)) == CalculateRiskScore(Metrics(Some(b), t, o))
  {
  }

  // ----- predict_peak_times -----

  datatype PeakTime = PeakTime(day: string, startHour: int, endHour: int, averageWait: int, confidence: real)

  /** `predict_peak_times(historical_data)`: a fixed pair of periods, whatever the history. */
  function PredictPeakTimes<T>(historicalData: seq<T>): (r: seq<PeakTime>)
    ensures |r| == 2
    ensures forall p :: p in r ==> 0 <= p.startHour < p.endHour < 24 && 0.0 < p.confidence <= 1.0
  {
    [PeakTime("Monday", 18, 21, 90, 0.85), PeakTime("Friday", 19, 23, 105, 0.80)]
  }

  /** The prediction does not depend on the history. */
  lemma PeakTimesIgnoreHistory<T>(a: seq<T>, b: seq<T>)
    ensures PredictPeakTimes(a) == PredictPeakTimes(b)
  {
  }
}
