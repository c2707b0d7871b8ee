/** Integer facts shared by the pixel-buffer and placement proofs. */
module Arithmetic {

  /** A multiple of `m` strictly between `-m` and `m` is zero. */
  lemma MultipleInRange(m: int, t: int)
    requires 0 < m && -m < m * t < m
    ensures t == 0
  {
  }
}
