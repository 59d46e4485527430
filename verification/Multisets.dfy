/** A fact about multisets the statistics share. */
module Multisets {
  lemma CancelOne<T>(m: multiset<T>, n: multiset<T>, x: T)
    requires m + multiset{x} == n + multiset{x}
    ensures m == n
  {
    forall e
      ensures m[e] == n[e]
    {
      assert (m + multiset{x})[e] == (n + multiset{x})[e];
    }
  }
}
