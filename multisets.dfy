/** Small facts about multisets shared by the day modules. */
module Multisets {
  /** Cancelling a common part of two multiset sums. */
  lemma Cancel<T>(x: multiset<T>, y: multiset<T>, k: multiset<T>)
    requires x + k == y + k
    ensures x == y
  {
    assert forall c :: x[c] == (x + k)[c] - k[c];
  }
}
