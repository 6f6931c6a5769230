/** Small definitions shared by every part of the model. */
module Wrappers {
  /** The optional value used wherever the source has `null`/`None`/`undefined`. */
  datatype Option<+T> = None | Some(value: T)

  /** The smaller of two counts, as in `slice(0, k)` / `[:k]` cut at the length. */
  function Min(a: nat, b: nat): nat { if a < b then a else b }
}
