/** Disaster records as the backend's JSON list delivers them, and the
    vocabulary the structure validator checks them against. */
module Records {

  /** A JSON object key. */
  type Field = string

  /** One disaster object of the response: field name to (textual) value. */
  type Record = map<Field, string>

  /** The decoded response body: either a JSON list of objects or anything else. */
  datatype Payload = List(records: seq<Record>) | NotList

  const TypeField: Field := "disaster_type"
  const SeverityField: Field := "severity"

  /** The ten fields every disaster object must carry, in the order they are checked. */
  const RequiredFields: seq<Field> :=
    ["id", "disaster_type", "title", "description", "severity",
     "latitude", "longitude", "location_name", "timestamp", "source"]

  /** The five accepted disaster categories. */
  const ValidTypes: seq<string> := ["earthquake", "wildfire", "flood", "tornado", "air_quality"]

  /** The four accepted severity levels. */
  const ValidSeverities: seq<string> := ["low", "moderate", "high", "severe"]

  /** Every record of `rs` has the key `f`, so `rs[i][f]` cannot raise. */
  predicate AllHave(rs: seq<Record>, f: Field)
  {
    forall i :: 0 <= i < |rs| ==> f in rs[i]
  }

  /** Some record of `rs` has the value `v` under the key `f`. */
  predicate Occurs(rs: seq<Record>, f: Field, v: string)
  {
    exists i :: 0 <= i < |rs| && f in rs[i] && rs[i][f] == v
  }

  /** No value appears twice in `keys`. */
  predicate Distinct(keys: seq<string>)
  {
    forall i, j :: 0 <= i < j < |keys| ==> keys[i] != keys[j]
  }
}
