/** Recommendation scoring: a severity-weighted score from distance and wait, ranking by
    score, and filtering by distance and wait limits. */
module Scoring {
  import opened Wrappers
  import opened Rounding
  import opened Frames

  // ----- calculate_hospital_score -----

  datatype Weights = Weights(distance: real, waitTime: real)

  /** The weight table by severity; an unknown severity takes the moderate weights. */
  function SeverityWeights(severity: string): (w: Weights)
    ensures 0.0 <= w.distance && 0.0 <= w.waitTime && w.distance + w.waitTime == 1.0
  {
    if severity == "low" then Weights(0.7, 0.3)
    else if severity == "moderate" then Weights(0.5, 0.5)
    else if severity == "high" then Weights(0.3, 0.7)
    else if severity == "critical" then Weights(0.2, 0.8)
    else Weights(0.5, 0.5)
  }

  /** An unrecognised severity is weighted as a moderate one. */
  lemma UnknownSeverityIsModerate(severity: string)
    requires severity !in {"low", "moderate", "high", "critical"}
    ensures SeverityWeights(severity) == SeverityWeights("moderate")
  {
  }

  /** Closer is better: 100 at the door, 5 points less per kilometre, never below 0. */
  function DistanceScore(distanceKm: real): (r: real)
    ensures 0.0 <= r && (distanceKm >= 0.0 ==> r <= 100.0)
  {
    if 100.0 - distanceKm * 5.0 >= 0.0 then 100.0 - distanceKm * 5.0 else 0.0
  }

  /** Shorter is better: 100 without a wait, half a point less per minute, never below 0. */
  function WaitTimeScore(waitTimeMinutes: int): (r: real)
    ensures 0.0 <= r && (waitTimeMinutes >= 0 ==> r <= 100.0)
  {
    var s := 100.0 - waitTimeMinutes as real * 0.5;
    if s >= 0.0 then s else 0.0
  }

  /** The weighted score before rounding. */
  function CompositeScore(distanceKm: real, waitTimeMinutes: int, severity: string): real {
    var w := SeverityWeights(severity);
    DistanceScore(distanceKm) * w.distance + WaitTimeScore(waitTimeMinutes) * w.waitTime
  }

  /** The weight pairs of the table. */
  lemma WeightCases(severity: string)
    ensures SeverityWeights(severity) in {Weights(0.7, 0.3), Weights(0.5, 0.5), Weights(0.3, 0.7), Weights(0.2, 0.8)}
  {
  }

  /** For a nonnegative distance and wait the unrounded score lies in 0..100: each part lies in
      0..100 and the weights sum to 1. */
  lemma {:induction false} CompositeBounds(distanceKm: real, waitTimeMinutes: int, severity: string)
    requires distanceKm >= 0.0 && waitTimeMinutes >= 0
    ensures 0.0 <= CompositeScore(distanceKm, waitTimeMinutes, severity) <= 100.0
  {
    WeightCases(severity);
  }

  /** `calculate_hospital_score(distance_km, wait_time_minutes, severity)`: the weighted
      score rounded to two decimals. */
  function CalculateHospitalScore(distanceKm: real, waitTimeMinutes: int, severity: string): (r: real)
    ensures -0.005 <= r - CompositeScore(distanceKm, waitTimeMinutes, severity) <= 0.005
  {
    assert Pow10(2) == 100;
    Round(CompositeScore(distanceKm, waitTimeMinutes, severity), 2)
  }

  /** For a nonnegative distance and wait the score lies in 0..100. */
  lemma {:induction false} HospitalScoreBounds(distanceKm: real, waitTimeMinutes: int, severity: string)
    requires distanceKm >= 0.0 && waitTimeMinutes >= 0
    ensures 0.0 <= CalculateHospitalScore(distanceKm, waitTimeMinutes, severity) <= 100.0
  {
    var c := CompositeScore(distanceKm, waitTimeMinutes, severity);
    CompositeBounds(distanceKm, waitTimeMinutes, severity);
    RoundMonotone(0.0, c, 2);
    RoundMonotone(c, 100.0, 2);
    RoundWhole(0, 2);
    RoundWhole(100, 2);
  }

  /** A nearer hospital never scores lower than a farther one with the same wait. */
  lemma {:induction false} CloserScoresHigher(near: real, far: real, waitTimeMinutes: int, severity: string)
    requires near <= far
    ensures CalculateHospitalScore(far, waitTimeMinutes, severity) <= CalculateHospitalScore(near, waitTimeMinutes, severity)
  {
    WeightCases(severity);
    RoundMonotone(CompositeScore(far, waitTimeMinutes, severity), CompositeScore(near, waitTimeMinutes, severity), 2);
  }

  /** A shorter wait never scores lower than a longer one at the same distance. */
  lemma {:induction false} ShorterWaitScoresHigher(distanceKm: real, short: int, long: int, severity: string)
    requires short <= long
    ensures CalculateHospitalScore(distanceKm, long, severity) <= CalculateHospitalScore(distanceKm, short, severity)
  {
    WeightCases(severity);
    RoundMonotone(CompositeScore(distanceKm, long, severity), CompositeScore(distanceKm, short, severity), 2);
  }

  /** At 10 km and 30 minutes, a critical patient scores 78 and a low-severity one 60.5. */
  lemma SeverityChangesScore()
    ensures CalculateHospitalScore(10.0, 30, "critical") == 78.0
    ensures CalculateHospitalScore(10.0, 30, "low") == 60.5
  {
    assert CompositeScore(10.0, 30, "critical") == 78.0;
    assert CompositeScore(10.0, 30, "low") == 60.5;
    RoundWhole(78, 2);
    RoundOnGrid(6050, 2);
    assert Pow10(2) == 100;
  }

  // ----- rank_hospitals -----

  /** A hospital entry: the keys the scoring service reads. */
  datatype Hospital = Hospital(name: string, score: Option<real>, distanceKm: Option<real>, waitTimeMinutes: Option<int>)

  /** `h.get("score", 0)`. */
  function ScoreKey(h: Hospital): real {
    h.score.GetOr(0.0)
  }

  predicate BestFirst(s: seq<Hospital>) {
    forall i, j :: 0 <= i < j < |s| ==> ScoreKey(s[i]) >= ScoreKey(s[j])
  }

  /** Places `x` before the first entry it scores at least as high as. */
  function InsertByScore(x: Hospital, s: seq<Hospital>): seq<Hospital> {
    if s == [] || ScoreKey(x) >= ScoreKey(s[0]) then [x] + s else [s[0]] + InsertByScore(x, s[1..])
  }

  lemma {:induction false} InsertByScoreCount(x: Hospital, s: seq<Hospital>)
    ensures |InsertByScore(x, s)| == |s| + 1
    ensures multiset(InsertByScore(x, s)) == multiset(s) + multiset{x}
  {
    if s != [] && ScoreKey(x) < ScoreKey(s[0]) {
      InsertByScoreCount(x, s[1..]);
      assert s == [s[0]] + s[1..];
    }
  }

  lemma BestFirstCons(a: Hospital, t: seq<Hospital>)
    requires BestFirst(t)
    requires forall k :: 0 <= k < |t| ==> ScoreKey(a) >= ScoreKey(t[k])
    ensures BestFirst([a] + t)
  {
    var r := [a] + t;
    forall i, j | 0 <= i < j < |r| ensures ScoreKey(r[i]) >= ScoreKey(r[j]) {
      assert r[j] == t[j - 1];
      if i > 0 { assert r[i] == t[i - 1]; }
    }
  }

  lemma {:induction false} InsertByScoreOrdered(x: Hospital, s: seq<Hospital>)
    requires BestFirst(s)
    ensures BestFirst(InsertByScore(x, s))
  {
    if s == [] || ScoreKey(x) >= ScoreKey(s[0]) {
      BestFirstCons(x, s);
    } else {
      var t := InsertByScore(x, s[1..]);
      assert BestFirst(s[1..]);
      InsertByScoreOrdered(x, s[1..]);
      InsertByScoreCount(x, s[1..]);
      forall k | 0 <= k < |t| ensures ScoreKey(s[0]) >= ScoreKey(t[k]) {
        assert t[k] in multiset(t);
        if t[k] != x {
          assert t[k] in multiset(s[1..]);
          var m :| 0 <= m < |s[1..]| && s[1..][m] == t[k];
          assert ScoreKey(s[0]) >= ScoreKey(s[m + 1]);
        }
      }
      BestFirstCons(s[0], t);
    }
  }

  /** `rank_hospitals(hospitals)`: the same entries, highest score first (Python's stable
      `sorted(..., reverse=True)`). */
  function RankHospitals(hospitals: seq<Hospital>): (r: seq<Hospital>)
    ensures |r| == |hospitals| && multiset(r) == multiset(hospitals)
    ensures BestFirst(r)
  {
    if hospitals == [] then []
    else
      var rest := RankHospitals(hospitals[1..]);
      InsertByScoreCount(hospitals[0], rest);
      InsertByScoreOrdered(hospitals[0], rest);
      assert hospitals == [hospitals[0]] + hospitals[1..];
      InsertByScore(hospitals[0], rest)
  }

  /** The entries whose score key is `v`, in order. */
  function WithScore(s: seq<Hospital>, v: real): seq<Hospital> {
    if s == [] then [] else (if ScoreKey(s[0]) == v then [s[0]] else []) + WithScore(s[1..], v)
  }

  /** The entries with score `v` of a nonempty list: its head's, then its tail's. */
  lemma WithScoreCons(x: Hospital, t: seq<Hospital>, v: real)
    ensures WithScore([x] + t, v) == (if ScoreKey(x) == v then [x] else []) + WithScore(t, v)
  {
    assert ([x] + t)[0] == x && ([x] + t)[1..] == t;
  }

  /** Inserting keeps the order among equal scores, `x` going before the entries it ties
      with. */
  lemma {:induction false} InsertByScoreStable(x: Hospital, t: seq<Hospital>, v: real)
    ensures WithScore(InsertByScore(x, t), v) == WithScore([x] + t, v)
  {
    if t != [] && ScoreKey(x) < ScoreKey(t[0]) {
      var rest := InsertByScore(x, t[1..]);
      var head, mid := if ScoreKey(t[0]) == v then [t[0]] else [], if ScoreKey(x) == v then [x] else [];
      calc {
        WithScore(InsertByScore(x, t), v);
        { assert InsertByScore(x, t) == [t[0]] + rest; WithScoreCons(t[0], rest, v); }
        head + WithScore(rest, v);
        { InsertByScoreStable(x, t[1..], v); WithScoreCons(x, t[1..], v); }
        head + (mid + WithScore(t[1..], v));
        { assert head == [] || mid == []; }
        mid + (head + WithScore(t[1..], v));
        { assert t == [t[0]] + t[1..]; WithScoreCons(t[0], t[1..], v); }
        mid + WithScore(t, v);
        { WithScoreCons(x, t, v); }
        WithScore([x] + t, v);
      }
    }
  }

  /** Ranking is stable: hospitals with equal scores keep their input order. */
  lemma {:induction false} RankStable(hospitals: seq<Hospital>, v: real)
    ensures WithScore(RankHospitals(hospitals), v) == WithScore(hospitals, v)
  {
    if hospitals != [] {
      var rest := RankHospitals(hospitals[1..]);
      RankStable(hospitals[1..], v);
      InsertByScoreStable(hospitals[0], rest, v);
      assert ([hospitals[0]] + rest)[1..] == rest;
    }
  }

  // ----- apply_filters -----

  /** `h.get("distance_km", inf) <= max_distance`: a missing distance never passes. */
  predicate WithinDistance(h: Hospital, maxDistance: real) {
    h.distanceKm.Some? && h.distanceKm.value <= maxDistance
  }

  /** `h.get("wait_time_minutes", inf) <= max_wait_time`: a missing wait never passes. */
  predicate WithinWait(h: Hospital, maxWaitTime: int) {
    h.waitTimeMinutes.Some? && h.waitTimeMinutes.value <= maxWaitTime
  }

  function DistanceFilter(maxDistance: real): Hospital -> bool {
    h => WithinDistance(h, maxDistance)
  }

  function WaitFilter(maxWaitTime: int): Hospital -> bool {
    h => WithinWait(h, maxWaitTime)
  }

  /** `apply_filters(hospitals, max_distance, max_wait_time)`: a distance pass, then a wait
      pass; an absent limit skips its pass. */
  function ApplyFilters(hospitals: seq<Hospital>, maxDistance: Option<real>, maxWaitTime: Option<int>): seq<Hospital> {
    var byDistance := if maxDistance.Some? then Filter(hospitals, DistanceFilter(maxDistance.value)) else hospitals;
    if maxWaitTime.Some? then Filter(byDistance, WaitFilter(maxWaitTime.value)) else byDistance
  }

  /** An entry passes when it meets every limit that is given. */
  predicate Passes(h: Hospital, maxDistance: Option<real>, maxWaitTime: Option<int>) {
    && (maxDistance.Some? ==> WithinDistance(h, maxDistance.value))
    && (maxWaitTime.Some? ==> WithinWait(h, maxWaitTime.value))
  }

  /** The entries that pass, in their input order, found in a single pass. */
  function KeepPassing(hospitals: seq<Hospital>, maxDistance: Option<real>, maxWaitTime: Option<int>): seq<Hospital> {
    if hospitals == [] then []
    else (if Passes(hospitals[0], maxDistance, maxWaitTime) then [hospitals[0]] else [])
         + KeepPassing(hospitals[1..], maxDistance, maxWaitTime)
  }

  lemma {:induction false} KeepPassingMembers(hospitals: seq<Hospital>, maxDistance: Option<real>, maxWaitTime: Option<int>, x: Hospital)
    ensures x in KeepPassing(hospitals, maxDistance, maxWaitTime) <==> x in hospitals && Passes(x, maxDistance, maxWaitTime)
  {
    if hospitals != [] {
      KeepPassingMembers(hospitals[1..], maxDistance, maxWaitTime, x);
      assert hospitals == [hospitals[0]] + hospitals[1..];
    }
  }

  lemma {:induction false} FilterThenFilter(s: seq<Hospital>, maxDistance: real, maxWaitTime: int)
    ensures Filter(Filter(s, DistanceFilter(maxDistance)), WaitFilter(maxWaitTime))
            == KeepPassing(s, Some(maxDistance), Some(maxWaitTime))
  {
    if s != [] {
      FilterThenFilter(s[1..], maxDistance, maxWaitTime);
      var p, q := DistanceFilter(maxDistance), WaitFilter(maxWaitTime);
      var rest := Filter(s[1..], p);
      assert Passes(s[0], Some(maxDistance), Some(maxWaitTime)) <==> p(s[0]) && q(s[0]);
      if p(s[0]) {
        assert Filter(s, p) == [s[0]] + rest;
        assert ([s[0]] + rest)[0] == s[0] && ([s[0]] + rest)[1..] == rest;
        assert Filter([s[0]] + rest, q) == (if q(s[0]) then [s[0]] else []) + Filter(rest, q);
      } else {
        assert Filter(s, p) == rest;
      }
    }
  }

  lemma {:induction false} DistanceOnly(s: seq<Hospital>, maxDistance: real)
    ensures Filter(s, DistanceFilter(maxDistance)) == KeepPassing(s, Some(maxDistance), None)
  {
    if s != [] {
      DistanceOnly(s[1..], maxDistance);
    }
  }

  lemma {:induction false} WaitOnly(s: seq<Hospital>, maxWaitTime: int)
    ensures Filter(s, WaitFilter(maxWaitTime)) == KeepPassing(s, None, Some(maxWaitTime))
  {
    if s != [] {
      WaitOnly(s[1..], maxWaitTime);
    }
  }

  lemma {:induction false} NoLimits(s: seq<Hospital>)
    ensures s == KeepPassing(s, None, None)
  {
    if s != [] {
      NoLimits(s[1..]);
      assert s == [s[0]] + s[1..];
    }
  }

  /** The two passes keep exactly the entries meeting every given limit, in input order. */
  lemma {:induction false} ApplyFiltersKeepsPassing(hospitals: seq<Hospital>, maxDistance: Option<real>, maxWaitTime: Option<int>)
    ensures ApplyFilters(hospitals, maxDistance, maxWaitTime) == KeepPassing(hospitals, maxDistance, maxWaitTime)
    ensures forall x :: x in ApplyFilters(hospitals, maxDistance, maxWaitTime) <==>
              x in hospitals && Passes(x, maxDistance, maxWaitTime)
  {
    if maxDistance.Some? && maxWaitTime.Some? {
      FilterThenFilter(hospitals, maxDistance.value, maxWaitTime.value);
    } else if maxDistance.Some? {
      DistanceOnly(hospitals, maxDistance.value);
    } else if maxWaitTime.Some? {
      WaitOnly(hospitals, maxWaitTime.value);
    } else {
      NoLimits(hospitals);
    }
    forall x ensures x in KeepPassing(hospitals, maxDistance, maxWaitTime) <==> x in hospitals && Passes(x, maxDistance, maxWaitTime) {
      KeepPassingMembers(hospitals, maxDistance, maxWaitTime, x);
    }
  }

  /** A 10 km limit keeps the hospital 3 km away and drops the one 15 km away. */
  lemma FilterExample()
    ensures var near, far := Hospital("Close Hospital", None, Some(3.0), None),
                             Hospital("Far Hospital", None, Some(15.0), None);
            ApplyFilters([near, far], Some(10.0), None) == [near]
  {
    var near, far := Hospital("Close Hospital", None, Some(3.0), None),
                     Hospital("Far Hospital", None, Some(15.0), None);
    DistanceOnly([near, far], 10.0);
    assert [near, far][1..] == [far] && [far][1..] == [];
  }

  /** Scores 80, 95 and 70 rank as 95, 80, 70. */
  lemma RankExample()
    ensures var a, b, c := Hospital("Hospital A", Some(80.0), None, None),
                          Hospital("Hospital B", Some(95.0), None, None),
                          Hospital("Hospital C", Some(70.0), None, None);
            RankHospitals([a, b, c]) == [b, a, c]
  {
    var a, b, c := Hospital("Hospital A", Some(80.0), None, None),
                   Hospital("Hospital B", Some(95.0), None, None),
                   Hospital("Hospital C", Some(70.0), None, None);
    assert [a, b, c][1..] == [b, c] && [b, c][1..] == [c] && [c][1..] == [];
    assert RankHospitals([c]) == [c];
    assert RankHospitals([b, c]) == [b, c];
  }
}
