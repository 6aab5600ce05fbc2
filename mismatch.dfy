/** The result triple of one comparison, after src/ds/mismatch.rs. */
module Mismatches {
  import opened KeyNodes

  /**
   * The three channels: keys only the left document has, keys only the right one has, and
   * keys whose values differ. Equality is structural, field by field, as the derived
   * `PartialEq` of the source.
   */
  datatype Mismatch = Mismatch(leftOnlyKeys: KeyNode, rightOnlyKeys: KeyNode, keysInBoth: KeyNode)

  /** `Mismatch::new(l, r, u)`: each argument goes to its own field, in that order. */
  function New(l: KeyNode, r: KeyNode, u: KeyNode): (m: Mismatch)
    ensures m.leftOnlyKeys == l && m.rightOnlyKeys == r && m.keysInBoth == u
  {
    Mismatch(l, r, u)
  }

  /**
   * The caller's verdict: the result equals the triple of three `Nil`s built with
   * `Mismatch::new`, which holds exactly when every channel is `Nil`.
   */
  function IsNoMismatch(m: Mismatch): (b: bool)
    ensures b <==> m.leftOnlyKeys == Nil && m.rightOnlyKeys == Nil && m.keysInBoth == Nil
  {
    m == New(Nil, Nil, Nil)
  }
}
