/** Small facts about natural-number arithmetic shared by the other modules. */
module Arith {

  /** Products grow with their left factor. */
  lemma MulMonotone(a: nat, b: nat, c: nat)
    requires a <= b
    ensures a * c <= b * c
  {
  }
}
