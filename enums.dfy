/** The small display types of src/enums.rs (the `Error` enum, which wraps foreign error types, is not modelled). */
module Enums {
  import opened Options
  import opened JsonValues
  import KeyNodes

  /** The four kinds of difference a report can name. */
  datatype DiffType = RootMismatch | LeftExtra | RightExtra | Mismatch

  /** `Display for DiffType`: the label printed for each kind. */
  function Label(d: DiffType): (s: string)
    ensures |s| > 0
  {
    match d
    case RootMismatch => "Mismatch at root."
    case LeftExtra => "Extra on left"
    case RightExtra => "Extra on right"
    case Mismatch => "Mismatched"
  }

  /** No two kinds share a label. */
  lemma LabelsDistinct(d: DiffType, e: DiffType)
    ensures Label(d) == Label(e) <==> d == e
  {
  }

  /** One reported entry: a bare key, or a key with the renderings of the two differing values. */
  datatype ValueType =
    | Key(key: string)
    | Value(key: string, valueLeft: string, valueRight: string)

  /** `ValueType::new_value`: the left rendering goes to `valueLeft` and the right one to `valueRight`. */
  function NewValue(key: string, valueLeft: string, valueRight: string): (v: ValueType)
    ensures v.Value? && v.key == key && v.valueLeft == valueLeft && v.valueRight == valueRight
  {
    Value(key, valueLeft, valueRight)
  }

  /** `ValueType::new_key`. */
  function NewKey(key: string): (v: ValueType)
    ensures v.Key? && v.key == key
  {
    Key(key)
  }

  /** `get_key`: the key of either kind of entry. */
  function GetKey(v: ValueType): string
  {
    match v
    case Value(key, _, _) => key
    case Key(key) => key
  }

  /** The key an entry is built with is the key it gives back, for both kinds. */
  lemma GetKeyOfNew(key: string, valueLeft: string, valueRight: string)
    ensures GetKey(NewKey(key)) == key
    ensures GetKey(NewValue(key, valueLeft, valueRight)) == key
  {
  }

  /**
   * `Display for ValueType`: a bare key prints as itself; a key with values prints as
   * `"<key> [ <left> :: <right> ]"`. Either way the text starts with the key.
   */
  function ToString(v: ValueType): (s: string)
    ensures |GetKey(v)| <= |s| && s[..|GetKey(v)|] == GetKey(v)
    ensures v.Key? ==> s == v.key
    ensures v.Value? ==> |s| == |v.key| + |v.valueLeft| + |v.valueRight| + 9
  {
    match v
    case Key(key) => key
    case Value(key, valueLeft, valueRight) => key + " [ " + valueLeft + " :: " + valueRight + " ]"
  }

  /**
   * The line the flattener writes for a `Value` leaf is the display of an entry whose key is
   * the arrowed path and whose values are the truncated renderings: both follow the one
   * template `"{} [ {} :: {} ]"`.
   */
  lemma ValueLineIsDisplay(key: Option<string>, a: Json, b: Json, maxLen: nat, render: Json -> string)
    ensures KeyNodes.ValueLine(key, a, b, maxLen, render)
         == ToString(NewValue(KeyNodes.ValKey(key), KeyNodes.Truncate(render(a), maxLen), KeyNodes.Truncate(render(b), maxLen)))
  {
  }
}
