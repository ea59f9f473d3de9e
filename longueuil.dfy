/** The Longueuil region: its configuration, its hospitals and its bounding-box test
    (`app/regions/longueuil.py`). */
module Longueuil {
  import opened Wrappers
  import opened RegionConfigs

  const Bounds: map<string, real> := map["north" := 45.60, "south" := 45.46, "east" := -73.40, "west" := -73.60]

  const Center := LatLon(45.5312, -73.5185)

  /** `REGION_CONFIG`. */
  const Config := RegionConfig("Longueuil", "LNG", "America/Montreal", Some(Coordinates(Center, Bounds)))

  datatype HospitalInfo = HospitalInfo(
    name: string,
    address: string,
    latitude: real,
    longitude: real,
    region: string,
    phone: string,
    services: seq<string>)

  /** `get_longueuil_hospitals()`: the two placeholder hospitals. The first name is kept as
      the source spells it, with its mis-decoded accent. */
  function GetLongueuilHospitals(): (hospitals: seq<HospitalInfo>)
    ensures |hospitals| == 2
    ensures forall h :: h in hospitals ==> h.region == "Longueuil" && "emergency" in h.services
  {
    [ HospitalInfo("HÃ´pital Charles-Le Moyne", "3120 Boulevard Taschereau, Greenfield Park",
                   45.4968, -73.4633, "Longueuil", "+1-450-466-5000", ["emergency", "trauma", "pediatric"]),
      HospitalInfo("Centre hospitalier Pierre-Boucher", "1333 Boulevard Jacques-Cartier Est, Longueuil",
                   45.5378, -73.4510, "Longueuil", "+1-450-468-8111", ["emergency", "general"]) ]
  }

  /** `is_within_longueuil_region(latitude, longitude)`: inclusive on all four sides. */
  function IsWithinLongueuilRegion(latitude: real, longitude: real): (within: bool)
    ensures within <==> 45.46 <= latitude <= 45.60 && -73.60 <= longitude <= -73.40
  {
    var b := BoundsOf(Config);
    b["south"] <= latitude <= b["north"] && b["west"] <= longitude <= b["east"]
  }

  /** The Longueuil test is the registry's bounding-box test on the same configuration. */
  lemma WithinIsClaimed(latitude: real, longitude: real)
    ensures IsWithinLongueuilRegion(latitude, longitude) <==> Claims(Config, latitude, longitude)
  {
    assert "north" in BoundsOf(Config);
  }

  /** The centre of the region and both hospitals lie inside it. */
  lemma PlacesInside()
    ensures IsWithinLongueuilRegion(Center.latitude, Center.longitude)
    ensures forall h :: h in GetLongueuilHospitals() ==> IsWithinLongueuilRegion(h.latitude, h.longitude)
  {
  }
}
