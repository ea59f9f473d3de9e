/** `pressure_to_risk`: the risk tier of a (possibly absent) pressure value. */
module RiskTier {
  import opened Wrappers

  datatype Tier = Unknown | Low | Medium | High

  const MediumFrom: real := 0.4
  const HighFrom: real := 0.7

  function PressureToRisk(pressure: Option<real>): (t: Tier)
    ensures t == Unknown <==> pressure.None?
    ensures t == Low <==> pressure.Some? && pressure.value < 0.4
    ensures t == Medium <==> pressure.Some? && 0.4 <= pressure.value < 0.7
    ensures t == High <==> pressure.Some? && pressure.value >= 0.7
  {
    if pressure.None? then Unknown
    else if pressure.value < MediumFrom then Low
    else if pressure.value < HighFrom then Medium
    else High
  }

  /** Tiers in increasing order of risk. */
  function Rank(t: Tier): nat {
    match t
    case Unknown => 0
    case Low => 1
    case Medium => 2
    case High => 3
  }

  /** A higher pressure never gets a lower tier. */
  lemma {:induction false} RiskMonotone(p: real, q: real)
    requires p <= q
    ensures Rank(PressureToRisk(Some(p))) <= Rank(PressureToRisk(Some(q)))
    ensures PressureToRisk(Some(p)) != Unknown
  {
  }

  /** The threshold values themselves belong to the higher tier. */
  lemma Boundaries()
    ensures PressureToRisk(Some(0.4)) == Medium
    ensures PressureToRisk(Some(0.7)) == High
    ensures PressureToRisk(Some(0.399)) == Low
    ensures PressureToRisk(None) == Unknown
  {
  }
}
