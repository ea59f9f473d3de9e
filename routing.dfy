/** Travel-time estimates from a table of average speeds. */
module Routing {
  import opened Rounding

  /** Average speed in km/h by transport mode; an unknown mode travels at car speed. */
  function Speed(mode: string): (kmh: real)
    ensures kmh > 0.0
  {
    if mode == "car" then 50.0
    else if mode == "public_transport" then 30.0
    else if mode == "walk" then 5.0
    else 50.0
  }

  /** `estimate_travel_time(distance_km, mode)`: minutes to cover the distance at the mode's
      speed. */
  function EstimateTravelTime(distanceKm: real, mode: string): (minutes: real)
    ensures minutes * Speed(mode) == distanceKm * 60.0
  {
    distanceKm / Speed(mode) * 60.0
  }

  /** The speed table: 50 km/h by car, 30 by public transport, 5 on foot, and car speed for
      any other mode. */
  lemma SpeedTable(mode: string)
    ensures EstimateTravelTime(50.0, "car") == 60.0
    ensures EstimateTravelTime(30.0, "public_transport") == 60.0
    ensures EstimateTravelTime(5.0, "walk") == 60.0
    ensures mode !in {"car", "public_transport", "walk"} ==> EstimateTravelTime(1.0, mode) == EstimateTravelTime(1.0, "car")
  {
  }

  /** An unknown mode gives the car's time for every distance. */
  lemma UnknownModeIsCar(distanceKm: real, mode: string)
    requires mode !in {"car", "public_transport", "walk"}
    ensures EstimateTravelTime(distanceKm, mode) == EstimateTravelTime(distanceKm, "car")
  {
  }

  /** A nonnegative distance takes a nonnegative time, and a longer one never less time. */
  lemma {:induction false} TravelTimeMonotone(a: real, b: real, mode: string)
    requires 0.0 <= a <= b
    ensures 0.0 <= EstimateTravelTime(a, mode) <= EstimateTravelTime(b, mode)
  {
    var v := Speed(mode);
    var ta, tb := EstimateTravelTime(a, mode), EstimateTravelTime(b, mode);
    assert ta * v == a * 60.0 && tb * v == b * 60.0;
    assert (tb - ta) * v == (b - a) * 60.0;
    assert ta * v >= 0.0 * v;
  }

  datatype RouteInfo = RouteInfo(distanceKm: real, estimatedTimeMinutes: real, mode: string)

  /** `get_route_info(origin, destination)` given the great-circle distance between the two
      points: the distance to two decimals, the car travel time to whole minutes, and mode
      "car" always. */
  function GetRouteInfo(distance: real): (r: RouteInfo)
    ensures r.mode == "car"
    ensures -0.005 <= r.distanceKm - distance <= 0.005
    ensures -0.5 <= r.estimatedTimeMinutes - EstimateTravelTime(distance, "car") <= 0.5
  {
    assert Pow10(2) == 100 && Pow10(0) == 1;
    RouteInfo(Round(distance, 2), Round(EstimateTravelTime(distance, "car"), 0), "car")
  }
}
