/** Small facts about sequences shared by the proofs. */
module Seqs {
  /** Concatenation is associative; stated once so that long proofs can call
      it instead of rediscovering it. */
  lemma AppendAssoc<T>(a: seq<T>, b: seq<T>, c: seq<T>)
    ensures a + (b + c) == (a + b) + c
  {
  }
}
