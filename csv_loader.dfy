/** Validation of hospital records loaded from CSV (`app/ingestion/csv_loader.py`). */
module CsvLoader {
  import opened Records

  /** The fields every hospital record must carry. */
  const RequiredFields: seq<string> := ["name", "latitude", "longitude"]

  /** `field in row and row[field]`: present with a truthy value. */
  predicate HasField(row: Record, field: string) {
    field in row && Truthy(row[field])
  }

  /** A row is valid when its name and both coordinates are present and non-empty. */
  predicate ValidRow(row: Record) {
    HasField(row, "name") && HasField(row, "latitude") && HasField(row, "longitude")
  }

  predicate AllValid(data: seq<Record>) {
    forall i :: 0 <= i < |data| ==> ValidRow(data[i])
  }

  /** `validate_hospital_data(data)`: scans the rows in order and the required fields in
      order, answering false at the first missing or empty one. */
  method ValidateHospitalData(data: seq<Record>) returns (valid: bool)
    ensures valid <==> AllValid(data)
  {
    var idx := 0;
    while idx < |data|
      invariant idx <= |data|
      invariant forall i :: 0 <= i < idx ==> ValidRow(data[i])
    {
      var row := data[idx];
      var k := 0;
      while k < |RequiredFields|
        invariant k <= |RequiredFields|
        invariant forall j :: 0 <= j < k ==> HasField(row, RequiredFields[j])
      {
        var field := RequiredFields[k];
        if field !in row || !Truthy(row[field]) {
          assert field == "name" || field == "latitude" || field == "longitude";
          return false;
        }
        k := k + 1;
      }
      assert HasField(row, RequiredFields[0]) && HasField(row, RequiredFields[1]) && HasField(row, RequiredFields[2]);
      idx := idx + 1;
    }
    return true;
  }

  /** Keys other than the three required ones never affect validity. */
  lemma {:induction false} ExtraKeysIgnored(data: seq<Record>, i: nat, key: string, v: Value)
    requires i < |data| && key !in RequiredFields
    ensures AllValid(data[i := data[i][key := v]]) <==> AllValid(data)
  {
    var changed := data[i := data[i][key := v]];
    assert ValidRow(changed[i]) <==> ValidRow(data[i]);
    assert forall j :: 0 <= j < |data| && j != i ==> changed[j] == data[j];
  }

  /** Appending rows validates exactly when both parts validate. */
  lemma {:induction false} ValidAppend(a: seq<Record>, b: seq<Record>)
    ensures AllValid(a + b) <==> AllValid(a) && AllValid(b)
  {
    if AllValid(a) && AllValid(b) {
      forall i | 0 <= i < |a + b| ensures ValidRow((a + b)[i]) {
        if i >= |a| {
          assert (a + b)[i] == b[i - |a|];
        }
      }
    }
    if AllValid(a + b) {
      forall i | 0 <= i < |a| ensures ValidRow(a[i]) {
        assert (a + b)[i] == a[i];
      }
      forall i | 0 <= i < |b| ensures ValidRow(b[i]) {
        assert (a + b)[|a| + i] == b[i];
      }
    }
  }

  /** Two complete rows with a region field validate. */
  method ValidExample() returns (valid: bool)
    ensures valid
  {
    var a := map["name" := Text("Hospital A"), "latitude" := Text("45.5"),
                 "longitude" := Text("-73.5"), "region" := Text("Longueuil")];
    var b := map["name" := Text("Hospital B"), "latitude" := Text("45.6"),
                 "longitude" := Text("-73.4"), "region" := Text("Longueuil")];
    valid := ValidateHospitalData([a, b]);
  }

  /** A row without a longitude fails. */
  method MissingLongitudeExample() returns (valid: bool)
    ensures !valid
  {
    var a := map["name" := Text("Hospital A"), "latitude" := Text("45.5"), "region" := Text("Longueuil")];
    assert !ValidRow([a][0]);
    valid := ValidateHospitalData([a]);
  }

  /** A row whose name is the empty string fails. */
  method EmptyNameExample() returns (valid: bool)
    ensures !valid
  {
    var a := map["name" := Text(""), "latitude" := Text("45.5"), "longitude" := Text("-73.5")];
    assert !ValidRow([a][0]);
    valid := ValidateHospitalData([a]);
  }

  /** A numeric latitude of exactly zero is falsy and fails validation; NaN passes. */
  method FalsyNumberExample() returns (zeroValid: bool, nanValid: bool)
    ensures !zeroValid && nanValid
  {
    var zero := map["name" := Text("H"), "latitude" := Number(0.0, "0.0"), "longitude" := Number(-73.5, "-73.5")];
    var nan := map["name" := Text("H"), "latitude" := NotANumber, "longitude" := Number(-73.5, "-73.5")];
    assert !ValidRow([zero][0]) && ValidRow([nan][0]);
    zeroValid := ValidateHospitalData([zero]);
    nanValid := ValidateHospitalData([nan]);
  }
}
