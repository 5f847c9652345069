/** What the modules share about sequences. */
module Sequences {
  predicate Distinct<K(==)>(q: seq<K>) {
    forall i, j | 0 <= i < j < |q| :: q[i] != q[j]
  }

  function Elements<K>(q: seq<K>): set<K> {
    set x | x in q
  }

  lemma Associative<T>(a: seq<T>, b: seq<T>, c: seq<T>)
    ensures a + b + c == a + (b + c)
  {
  }
}
