/**
 * The parsed JSON value the comparator walks (serde_json's `Value`).
 * Parsing and serialisation belong to the JSON library and are not part of this model.
 */
module JsonValues {

  /**
   * A JSON number. serde_json keeps integers and floats apart and compares them
   * variant by variant, so `5` and `5.0` are different values; the same holds here.
   */
  datatype Num = Int(i: int) | Float(f: real)

  /** Objects are maps: keys are unique and their order carries no meaning. */
  datatype Json =
    | Null
    | Bool(b: bool)
    | Number(n: Num)
    | String(s: string)
    | Array(items: seq<Json>)
    | Object(fields: map<string, Json>)
}
