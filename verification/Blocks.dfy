/** k blocks of a bytes, one after the other: products by addition. */
module Blocks {

  /** a * k, as the sum of k blocks. */
  function Times(a: nat, k: nat): nat {
    if k == 0 then 0 else Times(a, k - 1) + a
  }

  lemma {:induction false} TimesIsProduct(a: nat, k: nat)
    ensures Times(a, k) == a * k
  {
    if k > 0 {
      TimesIsProduct(a, k - 1);
      assert a * k == a * (k - 1) + a;
    }
  }

  lemma {:induction false} TimesMonotone(a: nat, j: nat, k: nat)
    requires j <= k
    ensures Times(a, j) <= Times(a, k)
  {
    if j < k {
      TimesMonotone(a, j, k - 1);
    }
  }

  /** Block e of k lies inside the k blocks. */
  lemma BlockInside(a: nat, e: nat, k: nat)
    requires e < k
    ensures Times(a, e) + a <= Times(a, k)
  {
    TimesMonotone(a, e + 1, k);
  }
}
