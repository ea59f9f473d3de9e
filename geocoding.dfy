/** Coordinate checks and the geocoding placeholders (`app/services/geocoding.py`). */
module Geocoding {
  import opened Wrappers
  import Longueuil

  /** `geocode_address(address)`: not implemented, always `None`. */
  function GeocodeAddress(address: string): (r: Option<(real, real)>)
    ensures r.None?
  {
    None
  }

  /** `reverse_geocode(latitude, longitude)`: not implemented, always `None`. */
  function ReverseGeocode(latitude: real, longitude: real): (r: Option<string>)
    ensures r.None?
  {
    None
  }

  /** `validate_coordinates(latitude, longitude)`: inclusive ranges. */
  function ValidateCoordinates(latitude: real, longitude: real): bool {
    -90.0 <= latitude <= 90.0 && -180.0 <= longitude <= 180.0
  }

  /** The ranges are symmetric: a point is valid iff its antipode-by-sign is. */
  lemma ValidSymmetric(latitude: real, longitude: real)
    ensures ValidateCoordinates(latitude, longitude) <==> ValidateCoordinates(-latitude, -longitude)
  {
  }

  /** The poles and the antimeridian are valid; one step beyond is not. */
  lemma ValidBoundaries()
    ensures ValidateCoordinates(90.0, 180.0) && ValidateCoordinates(-90.0, -180.0)
    ensures !ValidateCoordinates(90.5, 0.0) && !ValidateCoordinates(0.0, -180.5)
  {
  }

  /** Every point of the Longueuil region is a valid coordinate. */
  lemma LongueuilIsValid(latitude: real, longitude: real)
    requires Longueuil.IsWithinLongueuilRegion(latitude, longitude)
    ensures ValidateCoordinates(latitude, longitude)
  {
  }
}
