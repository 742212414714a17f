/** What holds at every moment of a run. */
module Moments {
  /** Where each step keeps what held before exactly unless it is bad, it holds at every moment exactly if no step is. */
  lemma {:induction false} HoldsUnless(good: nat -> bool, bad: nat -> bool, n: nat)
    requires good(0) && forall k: nat :: k < n && good(k) ==> (good(k + 1) <==> !bad(k))
    ensures (forall k: nat :: k <= n ==> good(k)) <==> (forall k: nat :: k < n ==> !bad(k))
    decreases n
  {
    if n > 0 {
      HoldsUnless(good, bad, n - 1);
      if good(n - 1) {
        assert good(n - 1 + 1) <==> !bad(n - 1);
      }
    }
  }
}
