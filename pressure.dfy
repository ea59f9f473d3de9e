/** `compute_pressure_score`: the congestion signal of one emergency-room snapshot. */
module Pressure {
  import opened Calendar
  import Rounding

  /** One emergency-room snapshot of a hospital (an `er_snapshots` row). */
  datatype Snapshot = Snapshot(
    hospitalId: int,
    functionalStretchers: int,
    occupiedStretchers: int,
    patientsTotal: int,
    patientsWaitingMc: int,
    patientsOver24h: int,
    patientsOver48h: int,
    avgStayStretcher: real,
    avgStayAmbulatory: real,
    snapshotTime: Timestamp)

  /** `max(n, 1)`: the guard that keeps every denominator at least 1. */
  function AtLeastOne(n: int): (d: int)
    ensures d >= 1
    ensures n >= 1 ==> d == n
    ensures n < 1 ==> d == 1
  {
    if n >= 1 then n else 1
  }

  /** The weighted sum before rounding. */
  function RawPressure(s: Snapshot): real {
    var total := AtLeastOne(s.patientsTotal) as real;
    var stretchers := AtLeastOne(s.functionalStretchers) as real;
    0.5 * (s.occupiedStretchers as real / stretchers)
      + 0.3 * (s.patientsWaitingMc as real / total)
      + 0.2 * (s.patientsOver24h as real / total)
  }

  /** `compute_pressure_score(snapshot)`: the weighted sum rounded to 3 decimals. */
  function PressureScore(s: Snapshot): (p: real)
    ensures -0.0005 <= p - RawPressure(s) <= 0.0005
    ensures Rounding.OnGrid(p, 3)
  {
    assert Rounding.Pow10(3) == 1000;
    Rounding.Round(RawPressure(s), 3)
  }

  /** The three ratios, weighted 0.5 / 0.3 / 0.2, make up the unrounded score. */
  lemma RawPressureFormula(s: Snapshot)
    requires s.functionalStretchers >= 1 && s.patientsTotal >= 1
    ensures RawPressure(s)
            == 0.5 * s.occupiedStretchers as real / s.functionalStretchers as real
             + 0.3 * s.patientsWaitingMc as real / s.patientsTotal as real
             + 0.2 * s.patientsOver24h as real / s.patientsTotal as real
  {
  }

  lemma RatioInUnit(a: real, d: real)
    requires 0.0 <= a <= d && d >= 1.0
    ensures 0.0 <= a / d <= 1.0
  {
    Rounding.DivMonotone(a, d, d);
    Rounding.DivMonotone(0.0, a, d);
  }

  /** Counts within capacity give an unrounded score in [0, 1], hence a rounded one too. */
  lemma {:induction false} PressureInUnit(s: Snapshot)
    requires s.occupiedStretchers >= 0 && s.patientsWaitingMc >= 0 && s.patientsOver24h >= 0
    requires s.occupiedStretchers <= AtLeastOne(s.functionalStretchers)
    requires s.patientsWaitingMc <= AtLeastOne(s.patientsTotal)
    requires s.patientsOver24h <= AtLeastOne(s.patientsTotal)
    ensures 0.0 <= RawPressure(s) <= 1.0
    ensures 0.0 <= PressureScore(s) <= 1.0
  {
    var total := AtLeastOne(s.patientsTotal) as real;
    var stretchers := AtLeastOne(s.functionalStretchers) as real;
    RatioInUnit(s.occupiedStretchers as real, stretchers);
    RatioInUnit(s.patientsWaitingMc as real, total);
    RatioInUnit(s.patientsOver24h as real, total);
    Rounding.RoundMonotone(0.0, RawPressure(s), 3);
    Rounding.RoundMonotone(RawPressure(s), 1.0, 3);
    Rounding.RoundWhole(0, 3);
    Rounding.RoundWhole(1, 3);
  }

  /** More occupied stretchers, more waiting patients or more long stays never lower
      the score, all else being equal. */
  lemma {:induction false} PressureMonotone(s: Snapshot, t: Snapshot)
    requires t.functionalStretchers == s.functionalStretchers && t.patientsTotal == s.patientsTotal
    requires s.occupiedStretchers <= t.occupiedStretchers
    requires s.patientsWaitingMc <= t.patientsWaitingMc
    requires s.patientsOver24h <= t.patientsOver24h
    ensures RawPressure(s) <= RawPressure(t)
    ensures PressureScore(s) <= PressureScore(t)
  {
    var total := AtLeastOne(s.patientsTotal) as real;
    var stretchers := AtLeastOne(s.functionalStretchers) as real;
    Rounding.DivMonotone(s.occupiedStretchers as real, t.occupiedStretchers as real, stretchers);
    Rounding.DivMonotone(s.patientsWaitingMc as real, t.patientsWaitingMc as real, total);
    Rounding.DivMonotone(s.patientsOver24h as real, t.patientsOver24h as real, total);
    Rounding.RoundMonotone(RawPressure(s), RawPressure(t), 3);
  }

  /** An empty emergency room scores 0, whatever its capacity. */
  lemma {:induction false} EmptyRoomScoresZero(s: Snapshot)
    requires s.occupiedStretchers == 0 && s.patientsWaitingMc == 0 && s.patientsOver24h == 0
    ensures PressureScore(s) == 0.0
  {
    assert RawPressure(s) == 0.0;
    Rounding.RoundWhole(0, 3);
  }

  /** Stays over 48 hours and the average stay lengths play no part in the score. */
  lemma PressureIgnoresOtherFields(s: Snapshot, t: Snapshot)
    requires t.functionalStretchers == s.functionalStretchers && t.patientsTotal == s.patientsTotal
    requires t.occupiedStretchers == s.occupiedStretchers
    requires t.patientsWaitingMc == s.patientsWaitingMc && t.patientsOver24h == s.patientsOver24h
    ensures PressureScore(s) == PressureScore(t)
  {
  }
}
