/** The shape of a region configuration dictionary, as the region code reads it. */
module RegionConfigs {
  import opened Wrappers

  datatype LatLon = LatLon(latitude: real, longitude: real)

  /** `config["coordinates"]`. A missing `bounds` key reads as the empty dictionary, so it
      is one here. */
  datatype Coordinates = Coordinates(center: LatLon, bounds: map<string, real>)

  datatype RegionConfig = RegionConfig(
    name: string,
    code: string,
    timezone: string,
    coordinates: Option<Coordinates>)

  /** `config.get("coordinates", {}).get("bounds", {})`. */
  function BoundsOf(config: RegionConfig): map<string, real> {
    match config.coordinates
    case None => map[]
    case Some(c) => c.bounds
  }

  /** `bounds.get(side, -inf) <= x`: a missing lower side is no constraint. */
  predicate AtLeast(bounds: map<string, real>, side: string, x: real) {
    side !in bounds || bounds[side] <= x
  }

  /** `x <= bounds.get(side, inf)`: a missing upper side is no constraint. */
  predicate AtMost(bounds: map<string, real>, side: string, x: real) {
    side !in bounds || x <= bounds[side]
  }

  /** The inclusive bounding-box test of `find_region_by_coordinates`. */
  predicate InBounds(bounds: map<string, real>, latitude: real, longitude: real) {
    && AtLeast(bounds, "south", latitude) && AtMost(bounds, "north", latitude)
    && AtLeast(bounds, "west", longitude) && AtMost(bounds, "east", longitude)
  }

  /** A region claims a point when it has non-empty bounds containing it. */
  predicate Claims(config: RegionConfig, latitude: real, longitude: real) {
    BoundsOf(config) != map[] && InBounds(BoundsOf(config), latitude, longitude)
  }
}
