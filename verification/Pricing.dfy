/** Price values and when two of them count as equal (controller/ratio_sync.go).  Numbers are reals. */
module Pricing {
  import opened Prelude

  const EPSILON := 0.000000001

  /** nearlyEqual */
  predicate NearlyEqual(a: real, b: real) {
    if a > b then a - b < EPSILON else b - a < EPSILON
  }

  /** A JSON scalar or a typed local value. */
  datatype Value = Null | Num(number: real) | Int(integer: int) | Text(text: string) | Flag(flag: bool)

  /** valuesEqual */
  predicate ValuesEqual(a: Value, b: Value) {
    if a.Num? && b.Num? then NearlyEqual(a.number, b.number) else a == b
  }

  /** asFloat64 */
  function AsFloat(value: Value): Option<real> {
    match value
    case Num(number) => Some(number)
    case Int(integer) => Some(integer as real)
    case _ => None
  }

  /** numericPricingSyncFields */
  const NUMERIC_FIELDS: set<string> :=
    {"model_ratio", "completion_ratio", "cache_ratio", "create_cache_ratio", "image_ratio", "audio_ratio",
     "audio_completion_ratio", "model_price"}

  /** normalizeSyncValue */
  function NormalizeValue(field: string, value: Value): Value {
    if field in NUMERIC_FIELDS && AsFloat(value).Some? then Num(AsFloat(value).value) else value
  }
}
