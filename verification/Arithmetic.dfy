/** Powers of two, quotients and remainders. */
module Arithmetic {
  function Pow2(k: nat): (p: nat)
    ensures p >= 1
  {
    if k == 0 then 1 else 2 * Pow2(k - 1)
  }

  function MinNat(a: nat, b: nat): nat {
    if a < b then a else b
  }

  lemma AtLeastOnce(k: nat, d: nat)
    requires k >= 1
    ensures k * d >= d
  {
    if k > 1 {
      AtLeastOnce(k - 1, d);
      assert k * d == (k - 1) * d + d;
    }
  }

  lemma AtLeastTwice(k: nat, d: nat)
    requires k >= 2
    ensures k * d >= 2 * d
  {
    AtLeastOnce(k - 1, d);
    assert k * d == (k - 1) * d + d;
  }

  lemma SmallMultiple(k: int, d: int)
    requires d >= 0 && -d < k * d < d
    ensures k == 0
  {
    if k >= 1 {
      AtLeastOnce(k, d);
    } else if k <= -1 {
      assert k * d == -((-k) * d);
      AtLeastOnce(-k, d);
    }
  }

  lemma QuotientIs(a: nat, d: nat, q: nat, r: nat)
    requires d > 0 && a == q * d + r && r < d
    ensures a / d == q
  {
    var q', r' := a / d, a % d;
    assert a == q' * d + r' && r' < d;
    assert (q' - q) * d == q' * d - q * d;
    SmallMultiple(q' - q, d);
  }

  lemma RemainderIs(a: nat, d: nat, q: nat, r: nat)
    requires d > 0 && a == q * d + r && r < d
    ensures a % d == r
  {
    QuotientIs(a, d, q, r);
  }
}
