/** Sequence facts used by several components. */
module Seqs {

  lemma AppendAssoc<T>(a: seq<T>, b: seq<T>, c: seq<T>)
    ensures a + (b + c) == a + b + c
  {
  }

  // Peeling the first element of a concatenation.
  lemma AppendTail<T>(a: seq<T>, b: seq<T>)
    ensures a == [] ==> a + b == b
    ensures a != [] ==> (a + b)[1..] == a[1..] + b && (a + b)[0] == a[0]
  {
  }
}
