/** Multiples as repeated sums, for cutting a file into pieces of one size. */
module Multiples {
  function Multiple(k: nat, m: nat): nat {
    if k == 0 then 0 else Multiple(k - 1, m) + m
  }

  function Min(a: nat, b: nat): nat {
    if a <= b then a else b
  }

  lemma {:induction false} MultipleIsProduct(k: nat, m: nat)
    ensures Multiple(k, m) == k * m
  {
    if k > 0 {
      MultipleIsProduct(k - 1, m);
      assert k * m == (k - 1) * m + m;
    }
  }

  lemma {:induction false} MultipleIncreases(j: nat, k: nat, m: nat)
    requires j <= k
    ensures Multiple(j, m) <= Multiple(k, m) && (j < k ==> Multiple(j, m) + m <= Multiple(k, m))
  {
    if j < k {
      MultipleIncreases(j, k - 1, m);
    }
  }

  lemma {:induction false} MultipleOfMore(k: nat, m: nat)
    ensures Multiple(k + 1, m) == m + Multiple(k, m)
  {
    if k > 0 {
      MultipleOfMore(k - 1, m);
    }
  }
}
