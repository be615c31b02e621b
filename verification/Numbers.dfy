/** Arithmetic that several modules need: wrapping to 32 bits, and products and quotients. */
module Numbers {
  import opened Base

  /** Unsigned 32-bit arithmetic. */
  function Wrap(n: int): (r: u32) { n % 0x1_0000_0000 }

  lemma WrapIs(n: int)
    ensures 0 <= n < 0x1_0000_0000 ==> Wrap(n) == n
    ensures -0x1_0000_0000 <= n < 0 ==> Wrap(n) == n + 0x1_0000_0000
  {
  }

  /** Wrapping an operand first does not change a wrapped sum. */
  lemma WrapAdd(a: nat, b: nat)
    ensures Wrap(Wrap(a) + b) == Wrap(a + b)
  {
  }

  /** Two counts less than 2^32 apart differ after wrapping unless they are equal. */
  lemma WrapDiff(a: nat, d: nat)
    requires d < 0x1_0000_0000
    ensures Wrap(a) == Wrap(a + d) <==> d == 0
  {
  }

  /** Two to the power k. */
  function Pow2(k: nat): (p: nat)
    ensures p > 0 && (k > 0 ==> p % 2 == 0)
  {
    if k == 0 then 1 else 2 * Pow2(k - 1)
  }

  lemma MulLe(a: nat, b: nat, k: nat)
    requires a <= b
    ensures a * k <= b * k
  {
    assert b * k == a * k + (b - a) * k;
  }

  lemma MulGap(k: nat, a: int, b: int)
    requires a < b
    ensures k * a + k <= k * b
  {
    MulLe(1, b - a, k);
    assert k * b == k * a + (b - a) * k;
  }

  /** Quotient and remainder are unique. */
  lemma QuotientIs(n: int, d: nat, q: int, r: nat)
    requires d > 0 && n == d * q + r && r < d
    ensures n / d == q && n % d == r
  {
    var q', r' := n / d, n % d;
    assert n == d * q' + r';
    if q < q' { MulGap(d, q, q'); }
    if q' < q { MulGap(d, q', q); }
  }
}
