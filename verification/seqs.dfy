/** Regrouping of concatenations, stated once so that proofs about long runs of output
    lines can cite it instead of comparing the lines element by element. */
module Seqs {

  lemma AppendAssoc<T>(a: seq<T>, b: seq<T>, c: seq<T>)
    ensures a + b + c == a + (b + c)
  {
  }
}
