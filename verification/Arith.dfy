/** 64-bit arithmetic of the storage sentinel without wide types or library division. */
module Arith {
  import opened Base
  import opened Numbers

  type u64 = x: int | 0 <= x < 0x1_0000_0000_0000_0000

  const U64MAX: u64 := 0xFFFF_FFFF_FFFF_FFFF
  const U32MAX: u32 := 0xFFFF_FFFF

  lemma Pow2Values()
    ensures Pow2(64) == 0x1_0000_0000_0000_0000 && Pow2(10) == 1024
  {
    assert Pow2(8) == 256;
    assert Pow2(16) == 65536;
    assert Pow2(24) == 0x100_0000;
    assert Pow2(32) == 0x1_0000_0000;
    assert Pow2(40) == 0x100_0000_0000;
    assert Pow2(48) == 0x1_0000_0000_0000;
    assert Pow2(56) == 0x100_0000_0000_0000;
  }

  // ---- division ----

  /** denominator <= UINT64_MAX >> shift says that the shifted denominator still fits. */
  lemma ShiftFits(d: nat, p: nat)
    requires p > 0
    ensures d <= U64MAX / p <==> d * p <= U64MAX
  {
    var m: nat := U64MAX;
    var q, r := m / p, m % p;
    assert m == p * q + r;
    if d <= q {
      if d < q { MulGap(p, d, q); }
    } else {
      MulGap(p, q, d);
    }
  }

  /** divide64: floor division by shift and subtract; UINT64_MAX for a zero divisor. The
      bit set in the quotient is always clear before, so setting it adds it. */
  method Divide64(n: u64, d: u64) returns (quotient: u64)
    ensures d == 0 ==> quotient == U64MAX
    ensures d != 0 ==> quotient == n / d
  {
    hide *;
    Constants();
    if d == 0 { return U64MAX; }
    Pow2Values();
    MulGap(d, 0, 1);
    BelowTop(n, d, Pow2(64));
    var numerator: u64 := n;
    quotient := 0;
    var bit := 64;
    while bit != 0
      invariant 0 <= bit <= 64
      invariant n == d * quotient + numerator
      invariant numerator < d * Pow2(bit)
      invariant quotient % Pow2(bit) == 0
    {
      var shift := bit - 1;
      var p := Pow2(shift);
      Pow2Next(shift);
      EvenMultiple(quotient, p);
      ShiftFits(d, p);
      DivideTurn(n, d, quotient, numerator, p);
      if d <= U64MAX / p {
        var shifted := d * p;
        if shifted <= numerator {
          numerator := numerator - shifted;
          quotient := quotient + p;
        }
      }
      bit := shift;
    }
    Pow2Next(0);
    QuotientIs(n, d, quotient, numerator);
  }

  lemma Constants()
    ensures U64MAX == 0xFFFF_FFFF_FFFF_FFFF && U32MAX == 0xFFFF_FFFF
  {
  }

  lemma BelowTop(n: u64, d: nat, p: nat)
    requires d > 0 && p == 0x1_0000_0000_0000_0000
    ensures n < d * p
  {
    assert d * p == p + (d - 1) * p;
  }

  lemma Pow2Next(k: nat)
    ensures Pow2(k + 1) == 2 * Pow2(k) && Pow2(0) == 1
  {
  }

  /** One turn of divide64: what is left is below the next smaller multiple. */
  lemma DivideTurn(n: u64, d: nat, q: nat, numerator: nat, p: nat)
    requires d > 0 && p > 0 && n == d * q + numerator && numerator < d * (2 * p)
    ensures d * p <= numerator ==> numerator - d * p < d * p && n == d * (q + p) + (numerator - d * p) && q + p <= U64MAX
  {
    assert d * (2 * p) == d * p + d * p;
    assert d * (q + p) == d * q + d * p;
    if d * p <= numerator { QuotientFits(n, d, q + p); }
  }

  lemma EvenMultiple(q: nat, p: nat)
    requires p > 0 && q % (2 * p) == 0
    ensures q % p == 0 && (q + p) % p == 0
  {
    var k := q / (2 * p);
    assert q == 2 * p * k == p * (2 * k);
    QuotientIs(q, p, 2 * k, 0);
    assert q + p == p * (2 * k + 1);
    QuotientIs(q + p, p, 2 * k + 1, 0);
  }

  lemma QuotientFits(n: u64, d: nat, q: nat)
    requires d > 0 && d * q <= n
    ensures q <= U64MAX
  {
    if d > 1 { assert d * q == q + (d - 1) * q; }
  }

  // ---- multiplication ----

  /** multiply64, by shift and add: it succeeds exactly when the product fits. */
  method Multiply64(left0: u64, right0: u64) returns (ok: bool, product: u64)
    ensures ok <==> left0 * right0 <= U64MAX
    ensures ok ==> product == left0 * right0
  {
    var left: u64, right: u64 := left0, right0;
    var result: u64 := 0;
    ok, product := false, 0;
    while right != 0
      invariant result + left * right == left0 * right0
      decreases right
    {
      ghost var half := right / 2;
      Halve(left, right);
      if right % 2 != 0 {
        if left > U64MAX - result { AtLeast(left, right); return; }
        result := result + left;
      }
      right := right / 2;
      if right != 0 {
        if left > U64MAX - left { AtLeast(2 * left, half); return; }
        left := left + left;
      }
    }
    ok, product := true, result;
  }

  lemma Halve(l: nat, r: nat)
    ensures l * r == (2 * l) * (r / 2) + if r % 2 != 0 then l else 0
  {
    var h, b := r / 2, r % 2;
    assert r == 2 * h + b;
    assert l * r == l * (2 * h) + l * b;
    assert l * (2 * h) == (2 * l) * h;
  }

  lemma AtLeast(l: nat, r: nat)
    requires r > 0
    ensures l * r >= l
  {
    assert l * r == l * (r - 1) + l;
  }

  /** multiply_u64, by 32-bit limbs. */
  function MultiplyU64(a: u64, b: u64): (product: Option<u64>)
    ensures product == if a * b <= U64MAX then Some(a * b) else None
  {
    var w := 0x1_0000_0000;
    var al, ah, bl, bh := a % w, a / w, b % w, b / w;
    QuotientParts(a);
    QuotientParts(b);
    LimbsDecide(a, b, al, ah, bl, bh);
    if ah != 0 && bh != 0 then None
    else
      var lowProduct, crossA, crossB := al * bl, ah * bl, al * bh;
      if crossA > U32MAX || crossB > U32MAX then None
      else
        var high := lowProduct / w + crossA + crossB;
        if high > U32MAX then None
        else Some(high * w + lowProduct % w)
  }

  /** Each test of the limbs fails exactly if the product does not fit. */
  lemma LimbsDecide(a: u64, b: u64, al: nat, ah: nat, bl: nat, bh: nat)
    requires a == 0x1_0000_0000 * ah + al && b == 0x1_0000_0000 * bh + bl
    ensures (ah != 0 && bh != 0) || ah * bl > U32MAX || al * bh > U32MAX ==> a * b > U64MAX
    ensures var high := al * bl / 0x1_0000_0000 + ah * bl + al * bh;
            && (high > U32MAX ==> a * b > U64MAX)
            && ((ah == 0 || bh == 0) && high <= U32MAX ==> a * b == high * 0x1_0000_0000 + al * bl % 0x1_0000_0000 <= U64MAX)
  {
    Limbs(a, b, al, ah, bl, bh);
    if ah != 0 && bh != 0 { AtLeast(ah, bh); }
    NoTop(ah, bh);
    LimbSum(a * b, al * bl, ah * bl, al * bh, ah * bh);
  }

  /** How the partial products decide whether the product fits, and make it up if it does. */
  lemma LimbSum(p: nat, low: nat, crossA: nat, crossB: nat, top: nat)
    requires p == low + 0x1_0000_0000 * (crossA + crossB) + 0x1_0000_0000 * 0x1_0000_0000 * top
    ensures top > 0 || crossA > U32MAX || crossB > U32MAX ==> p > U64MAX
    ensures var high := low / 0x1_0000_0000 + crossA + crossB;
            && (high > U32MAX ==> p > U64MAX)
            && (top == 0 && high <= U32MAX ==> p == high * 0x1_0000_0000 + low % 0x1_0000_0000 <= U64MAX)
  {
  }

  lemma Limbs(a: nat, b: nat, al: nat, ah: nat, bl: nat, bh: nat)
    requires a == 0x1_0000_0000 * ah + al && b == 0x1_0000_0000 * bh + bl
    ensures var w := 0x1_0000_0000;
            a * b == al * bl + w * (ah * bl + al * bh) + w * w * (ah * bh)
  {
    var w := 0x1_0000_0000;
    calc {
      a * b;
      (w * ah + al) * (w * bh + bl);
      (w * ah) * (w * bh) + (w * ah) * bl + al * (w * bh) + al * bl;
      { assert (w * ah) * (w * bh) == w * w * (ah * bh); assert (w * ah) * bl == w * (ah * bl); assert al * (w * bh) == w * (al * bh); }
      w * w * (ah * bh) + w * (ah * bl) + w * (al * bh) + al * bl;
    }
  }

  lemma NoTop(ah: nat, bh: nat)
    ensures ah == 0 || bh == 0 ==> ah * bh == 0
  {
  }

  lemma QuotientParts(a: nat)
    ensures a == 0x1_0000_0000 * (a / 0x1_0000_0000) + a % 0x1_0000_0000
  {
  }

  // ---- per mille ----

  /** The per mille of n in d, rounded to nearest, halves up. */
  function Permille(n: nat, d: nat): nat
    requires d > 0
  {
    (2 * (1000 * n) + d) / (2 * d)
  }

  /** It is the whole number p with p - 1/2 <= 1000 n / d < p + 1/2 shifted by half a unit. */
  lemma PermilleIs(n: nat, d: nat)
    requires d > 0
    ensures 2 * (d * Permille(n, d)) - d <= 2 * (1000 * n) < 2 * (d * Permille(n, d)) + d
  {
    var q, r := (2 * (1000 * n) + d) / (2 * d), (2 * (1000 * n) + d) % (2 * d);
    assert 2 * (1000 * n) + d == (2 * d) * q + r;
    assert (2 * d) * q == 2 * (d * q);
  }

  /** The bits of 1000 above the last `bit`. */
  function Leading(bit: nat): int { 1000 / Pow2(bit) }

  lemma LeadingStep(bit: nat)
    ensures Leading(bit) == 2 * Leading(bit + 1) + Leading(bit) % 2 <= 1000
    ensures 0 <= Leading(bit) && 0 <= Leading(bit + 1)
  {
    var p := Pow2(bit);
    Pow2Next(bit);
    hide Pow2;
    TopBits(1000, p);
    ThousandOver(p);
    ThousandOver(2 * p);
  }

  lemma LeadingEnds()
    ensures Leading(0) == 1000 && Leading(10) == 0
  {
    Pow2Values();
    assert Pow2(0) == 1;
  }

  /** With the leading bits alone the quotient is q and the rest r. */
  ghost predicate Divided(n: nat, d: nat, bit: nat, q: nat, r: nat) {
    n * Leading(bit) == d * q + r
  }

  lemma HalfUp(n: nat, d: nat, q: nat, r: nat)
    requires d > 0 && Divided(n, d, 0, q, r) && r < d && n <= d
    ensures Permille(n, d) == (if 2 * r >= d then q + 1 else q) <= 1000
  {
    LeadingEnds();
    var e := if 2 * r >= d then 1 else 0;
    var x := 2 * (1000 * n) + d;
    assert x == (2 * d) * q + 2 * r + d;
    if 2 * r >= d {
      assert (2 * d) * (q + 1) == (2 * d) * q + 2 * d;
      QuotientIs(x, 2 * d, q + 1, 2 * r - d);
    } else {
      QuotientIs(x, 2 * d, q, 2 * r + d);
    }
    if q + e > 1000 {
      if q > 1000 { MulGap(d, 1000, q); }
    }
  }

  /** Bit b of x, and what is left above it. */
  lemma TopBits(x: nat, p: nat)
    requires p > 0
    ensures x / p == 2 * (x / (2 * p)) + x / p % 2
  {
    var h := x / p;
    var r := x % p;
    assert x == p * h + r;
    assert h == 2 * (h / 2) + h % 2;
    assert x == (2 * p) * (h / 2) + (p * (h % 2) + r) by {
      assert p * h == p * (2 * (h / 2)) + p * (h % 2);
      assert p * (2 * (h / 2)) == (2 * p) * (h / 2);
    }
    assert p * (h % 2) + r < 2 * p;
    QuotientIs(x, 2 * p, h / 2, p * (h % 2) + r);
  }

  /** permille: ten steps of long division of 1000 * n by d, never leaving 64 bits. */
  method PermilleOf(n: u64, d: u64) returns (quotient: u32)
    ensures d == 0 || n > d ==> quotient == U32MAX
    ensures d != 0 && n <= d ==> quotient == Permille(n, d)
  {
    hide *;
    Constants();
    if d == 0 || n > d { return U32MAX; }
    var remainder: u64 := 0;
    quotient := 0;
    var bit := 10;
    NoBits(n, d);
    while bit != 0
      invariant 0 <= bit <= 10 && remainder < d && quotient <= 1000
      invariant Divided(n, d, bit, quotient, remainder)
    {
      var carry := 0;
      var one := Leading(bit - 1) % 2;
      ghost var q0, r0 := quotient, remainder;
      quotient := 2 * quotient;
      if remainder >= d - remainder {
        remainder := remainder - (d - remainder);
        carry := 1;
      } else {
        remainder := remainder + remainder;
      }
      if one != 0 {
        if n >= d - remainder {
          remainder := n - (d - remainder);
          carry := carry + 1;
        } else {
          remainder := remainder + n;
        }
      }
      PermilleTurn(n, d, bit - 1, one, q0, r0, carry, remainder);
      quotient := quotient + carry;
      bit := bit - 1;
    }
    HalfUp(n, d, quotient, remainder);
    if remainder != 0 && remainder >= d - remainder { quotient := quotient + 1; }
    assert quotient <= 1000; // the clamp at the end of the original never applies
  }

  lemma NoBits(n: nat, d: nat)
    ensures Divided(n, d, 10, 0, 0)
  {
    LeadingEnds();
  }

  lemma TurnProducts(n: nat, d: nat, k: nat, one: nat, q: nat, carry: nat)
    requires one <= 1 && carry <= 2
    ensures n * (2 * k + one) == 2 * (n * k) + if one != 0 then n else 0
    ensures d * (2 * q + carry) == 2 * (d * q) + if carry == 0 then 0 else if carry == 1 then d else d + d
  {
    assert n * (2 * k + one) == n * (2 * k) + n * one;
    assert d * (2 * q + carry) == d * (2 * q) + d * carry;
  }

  /** One turn of permille: the prefix of 1000 grows by one bit. */
  lemma PermilleTurn(n: nat, d: nat, bit: nat, one: nat, q: nat, r: nat, carry: nat, r': nat)
    requires 0 < d && n <= d && Divided(n, d, bit + 1, q, r) && one == Leading(bit) % 2
    requires carry <= 2 && 2 * r + (if one != 0 then n else 0) == (if carry == 0 then 0 else if carry == 1 then d else d + d) + r'
    ensures Divided(n, d, bit, 2 * q + carry, r') && 2 * q + carry <= 1000
  {
    hide Leading;
    LeadingStep(bit);
    TurnOf(n, d, Leading(bit + 1), one, Leading(bit), q, r, carry, r');
  }

  lemma TurnOf(n: nat, d: nat, k: nat, one: nat, k': nat, q: nat, r: nat, carry: nat, r': nat)
    requires 0 < d && n <= d && k' == 2 * k + one <= 1000 && one <= 1 && n * k == d * q + r
    requires carry <= 2 && 2 * r + (if one != 0 then n else 0) == (if carry == 0 then 0 else if carry == 1 then d else d + d) + r'
    ensures n * k' == d * (2 * q + carry) + r' && 2 * q + carry <= 1000
  {
    TurnProducts(n, d, k, one, q, carry);
    PrefixBound(n, d, k', 2 * q + carry, r');
  }

  lemma ThousandOver(p: nat)
    requires p > 0
    ensures 0 <= 1000 / p <= 1000
  {
    var q, r := 1000 / p, 1000 % p;
    assert 1000 == p * q + r;
    MulLe(1, p, q);
  }

  lemma PrefixBound(n: nat, d: nat, k: nat, q: nat, r: nat)
    requires d > 0 && n <= d && k <= 1000 && n * k == d * q + r
    ensures q <= 1000
  {
    if q > 1000 { MulGap(d, 1000, q); }
    assert n * k <= d * k by { assert d * k == n * k + (d - n) * k; }
    if k < 1000 { MulGap(d, k, 1000); }
  }
}
