/** Facts about sequence concatenation shared by the string proofs. */
module Sequences {

  /**
   * Concatenation regroups freely. Stated once here: asserted inline next
   * to recursive string functions it sends the solver into long unfoldings.
   */
  lemma ConcatAssoc<T>(x: seq<T>, y: seq<T>, z: seq<T>)
    ensures x + (y + z) == (x + y) + z
  {
  }
}
