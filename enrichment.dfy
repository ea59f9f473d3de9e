/** Enrichment of a hospital record (`app/ingestion/enrichment.py`). */
module Enrichment {
  import opened Records

  const LocationKey := "location_string"
  const EnrichedKey := "data_enriched"

  /** `f"{lat}, {lon}"`. */
  function LocationString(lat: Value, lon: Value): string {
    Render(lat) + ", " + Render(lon)
  }

  /** `enrich_hospital_data(hospital)`: a copy of the record with `location_string` added
      when both coordinates are present and `data_enriched` set to true. The argument is a
      value, so the caller's record is untouched. */
  method EnrichHospitalData(hospital: Record) returns (enriched: Record)
    ensures EnrichedKey in enriched && enriched[EnrichedKey] == Flag(true)
    ensures "latitude" in hospital && "longitude" in hospital ==>
              LocationKey in enriched
              && enriched[LocationKey] == Text(LocationString(hospital["latitude"], hospital["longitude"]))
    ensures !("latitude" in hospital && "longitude" in hospital) ==>
              (LocationKey in enriched <==> LocationKey in hospital)
              && (LocationKey in hospital ==> enriched[LocationKey] == hospital[LocationKey])
    ensures forall k :: k in hospital && k != LocationKey && k != EnrichedKey ==>
              k in enriched && enriched[k] == hospital[k]
    ensures forall k :: k in enriched ==> k in hospital || k == LocationKey || k == EnrichedKey
  {
    enriched := hospital;
    if "latitude" in enriched && "longitude" in enriched {
      enriched := enriched[LocationKey := Text(LocationString(enriched["latitude"], enriched["longitude"]))];
    }
    enriched := enriched[EnrichedKey := Flag(true)];
  }

  /** `geocode_address(address)`: the placeholder answers latitude and longitude zero. */
  function GeocodeAddress(address: string): (coordinates: Record)
    ensures coordinates.Keys == {"latitude", "longitude"}
    ensures coordinates["latitude"].Number? && coordinates["latitude"].x == 0.0
    ensures coordinates["longitude"].Number? && coordinates["longitude"].x == 0.0
  {
    map["latitude" := Number(0.0, "0.0"), "longitude" := Number(0.0, "0.0")]
  }

  /** The record of the enrichment tests gains "45.5, -73.5" and keeps its other fields. */
  method EnrichExample() returns (enriched: Record)
    ensures "location_string" in enriched && enriched["location_string"] == Text("45.5, -73.5")
    ensures "data_enriched" in enriched && enriched["data_enriched"] == Flag(true)
    ensures "name" in enriched && enriched["name"] == Text("Test Hospital")
    ensures "custom_field" in enriched && enriched["custom_field"] == Text("value")
  {
    var hospital := map["name" := Text("Test Hospital"), "latitude" := Number(45.5, "45.5"),
                        "longitude" := Number(-73.5, "-73.5"), "custom_field" := Text("value")];
    enriched := EnrichHospitalData(hospital);
  }

  /** Enriching a geocoded address gives the location "0.0, 0.0". */
  method GeocodeThenEnrich(address: string) returns (enriched: Record)
    ensures LocationKey in enriched && enriched[LocationKey] == Text("0.0, 0.0")
  {
    enriched := EnrichHospitalData(GeocodeAddress(address));
  }

  /** Enriching twice gives the same record as enriching once. */
  method EnrichTwice(hospital: Record) returns (once: Record, twice: Record)
    ensures once == twice
  {
    once := EnrichHospitalData(hospital);
    twice := EnrichHospitalData(once);
  }
}
