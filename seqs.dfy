/** Facts about sequences that the rendering and export proofs share. */
module Seqs {

  /** Concatenation regroups freely; the solver does not always find this on its own. */
  lemma AppendAssoc<T>(a: seq<T>, b: seq<T>, c: seq<T>)
    ensures a + b + c == a + (b + c)
  {
  }
}
