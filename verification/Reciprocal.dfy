/** Unsigned division by multiplication with a rounded-up 32-bit reciprocal: exactly when it agrees
    with real division, for one pair and for one divisor at all 32-bit numerators. */
module Reciprocal {
  import opened PowersOfTwo
  import opened Products

  const TWO32: nat := 0x1_0000_0000
  const TWO64: nat := 0x1_0000_0000_0000_0000

  predicate U32(x: int) {
    0 <= x < TWO32
  }

  /** Conversion to `uint32_t` reduces modulo 2^32 (section 6.3.1.3 of ISO/IEC 9899:2018). */
  function ToU32(x: nat): (r: nat)
    ensures U32(r)
  {
    x % TWO32
  }

  /** 64-bit unsigned arithmetic wraps modulo 2^64. */
  function ToU64(x: nat): (r: nat)
    ensures r < TWO64
  {
    x % TWO64
  }

  function ComputeR(k: nat): (r: nat)
    requires U32(k) && k != 0
    ensures U32(r)
  {
    ToU32(ToU64(TWO32 + (k - 1)) / k)
  }

  function ProcessR(n: nat, r: nat): (d: nat)
    requires U32(n) && U32(r)
    ensures U32(d)
  {
    ToU32(ToU64(n * r) / TWO32)
  }

  /** `f(n, k)`; division by zero is undefined in C, so k is not zero. */
  function F(n: nat, k: nat): (d: nat)
    requires U32(n) && U32(k) && k != 0
    ensures U32(d)
  {
    ProcessR(n, ComputeR(k))
  }

  /** How far k times the reciprocal overshoots 2^32. */
  function Excess(k: nat): int
    requires U32(k) && k != 0
  {
    k * ComputeR(k) - TWO32
  }

  lemma DivBounds(a: nat, b: nat)
    requires b > 0
    ensures b * (a / b) <= a < b * (a / b) + b
  {
  }

  lemma DivUnique(a: nat, b: nat, q: nat)
    requires b > 0 && b * q <= a < b * q + b
    ensures a / b == q
  {
    var d := a / b;
    DivBounds(a, b);
    MulGap(b, d, q);
    MulGap(b, q, d);
  }

  lemma MulGap(b: nat, x: nat, y: nat)
    ensures x < y ==> b * x + b <= b * y
  {
    TimesMonotone(x + 1, y, b);
  }

  /** For k >= 2 nothing is truncated: the reciprocal is 2^32 / k rounded up. */
  lemma ExcessRange(k: nat)
    requires U32(k) && k >= 2
    ensures 0 <= Excess(k) < k && ComputeR(k) <= TWO32 / 2
  {
    var a := TWO32 + (k - 1);
    assert ToU64(a) == a;
    var q := a / k;
    DivBounds(a, k);
    TimesMonotone(2, k, TWO32 / 2);
    MulGap(k, TWO32 / 2, q);
    assert ToU32(q) == q;
  }

  lemma ProductFits(n: nat, r: nat)
    requires U32(n) && r <= TWO32 / 2
    ensures ProcessR(n, r) == (n * r) / TWO32
  {
    TimesMonotone(n, TWO32, r);
    NothingTruncated(n * r);
  }

  lemma NothingTruncated(p: nat)
    requires p <= TWO32 * (TWO32 / 2)
    ensures ToU32(ToU64(p) / TWO32) == p / TWO32
  {
  }

  /** Multiplying the product by k separates quotient, remainder and excess. */
  lemma ProductSplit(n: nat, k: nat, r: nat, e: int)
    requires k > 0 && e == k * r - TWO32
    ensures k * (n * r) == (n / k) * k * TWO32 + (n % k) * TWO32 + n * e
  {
    var q, m := n / k, n % k;
    calc {
      k * (n * r);
      { assert k * (n * r) == n * (k * r); }
      n * (k * r);
      n * (TWO32 + e);
      { assert n * (TWO32 + e) == n * TWO32 + n * e; }
      n * TWO32 + n * e;
      { assert n == q * k + m; }
      (q * k + m) * TWO32 + n * e;
    }
  }

  /** The result is the quotient or one more, and it is the quotient exactly when the excess does
      not carry into it. */
  lemma QuotientOrOneMore(n: nat, k: nat)
    requires U32(n) && U32(k) && k >= 2
    ensures F(n, k) == n / k || F(n, k) == n / k + 1
    ensures F(n, k) == n / k <==> (n % k) * TWO32 + n * Excess(k) < k * TWO32
  {
    ExcessRange(k);
    ProductFits(n, ComputeR(k));
    QuotientFromProduct(n, k, ComputeR(k), Excess(k));
  }

  lemma QuotientFromProduct(n: nat, k: nat, r: nat, e: nat)
    requires U32(n) && k >= 2 && e < k && e == k * r - TWO32
    ensures n * r / TWO32 == if (n % k) * TWO32 + n * e < k * TWO32 then n / k else n / k + 1
  {
    ProductSplit(n, k, r, e);
    CarryBounds(n, k, n % k, e);
    QuotientByParts(k, n * r, n / k, (n % k) * TWO32 + n * e);
  }

  lemma CarryBounds(n: nat, k: nat, m: nat, e: nat)
    requires U32(n) && m < k && e < k
    ensures 0 <= m * TWO32 + n * e < 2 * (k * TWO32)
  {
    TimesMonotone(m + 1, k, TWO32);
    TimesMonotone(n, TWO32, e);
    TimesMonotone(e, k, TWO32);
  }

  lemma QuotientByParts(k: nat, p: nat, q: nat, x: nat)
    requires k > 0 && k * p == q * k * TWO32 + x && x < 2 * (k * TWO32)
    ensures p / TWO32 == (if x < k * TWO32 then q else q + 1)
  {
    var b := if x < k * TWO32 then q else q + 1;
    assert k * (b * TWO32) == if x < k * TWO32 then q * k * TWO32 else q * k * TWO32 + k * TWO32;
    assert k * (b * TWO32) <= k * p < k * (b * TWO32) + k * TWO32;
    CancelFactor(k, b * TWO32, p);
    assert k * (b * TWO32 + TWO32) == k * (b * TWO32) + k * TWO32;
    TimesMonotone(b * TWO32 + TWO32, p, k);
    DivUnique(p, TWO32, b);
  }

  lemma CancelFactor(k: nat, a: nat, b: nat)
    requires k > 0 && k * a <= k * b
    ensures a <= b
  {
    MulGap(k, b, a);
  }

  /** Small numerators are always divided exactly. */
  lemma ExactWhenSmall(n: nat, k: nat)
    requires U32(n) && U32(k) && k >= 2 && n * (k - 1) < TWO32
    ensures F(n, k) == n / k
  {
    QuotientOrOneMore(n, k);
    ExcessRange(k);
    SmallCarry(n, k, n % k, Excess(k));
  }

  lemma SmallCarry(n: nat, k: nat, m: nat, e: nat)
    requires m < k && e < k && n * (k - 1) < TWO32
    ensures m * TWO32 + n * e < k * TWO32
  {
    TimesMonotone(e, k - 1, n);
  }

  /** The last numerator below 2^32 that leaves remainder k - 1: the first to go wrong. */
  function Hardest(k: nat): nat
    requires U32(k) && k >= 2
  {
    k * (TWO32 / k) - 1
  }

  lemma HardestProperties(k: nat)
    requires U32(k) && k >= 2
    ensures U32(Hardest(k)) && Hardest(k) % k == k - 1 && Hardest(k) + k >= TWO32
  {
    var c := TWO32 / k;
    DivBounds(TWO32, k);
    assert c >= 1;
    var h := k * c - 1;
    assert k * (c - 1) == k * c - k;
    DivUnique(h, k, c - 1);
    assert h == k * (h / k) + h % k;
  }

  /** An excess of at least 2 is always too much for the hardest numerator. */
  lemma WrongAtHardest(k: nat)
    requires U32(k) && k >= 2 && Excess(k) >= 2
    ensures U32(Hardest(k)) && F(Hardest(k), k) == Hardest(k) / k + 1
  {
    HardestProperties(k);
    ExcessRange(k);
    var h, e := Hardest(k), Excess(k);
    QuotientOrOneMore(h, k);
    assert (k - 1) * TWO32 + TWO32 == k * TWO32;
    assert h * e >= TWO32 by {
      if 2 * h >= TWO32 {
        TimesMonotone(2, e, h);
        assert e * h == h * e;
      } else {
        assert 2 * k > TWO32;
        LargeDivisor(k);
      }
    }
  }

  /** Above 2^31 the reciprocal is 2, and the hardest numerator is k - 1. */
  lemma LargeDivisor(k: nat)
    requires U32(k) && 2 * k > TWO32
    ensures Hardest(k) == k - 1 && 2 * Hardest(k) >= TWO32
  {
    DivUnique(TWO32, k, 1);
  }

  /** An excess of 0 or 1 never carries. */
  lemma ExactWhenTight(n: nat, k: nat)
    requires U32(n) && U32(k) && k >= 2 && Excess(k) <= 1
    ensures F(n, k) == n / k
  {
    QuotientOrOneMore(n, k);
    ExcessRange(k);
    var e, m := Excess(k), n % k;
    assert n * e <= n by { assert e == 0 || e == 1; }
    TimesMonotone(m, k - 1, TWO32);
    assert (k - 1) * TWO32 + TWO32 == k * TWO32;
  }

  /** The divisors that are exact for every 32-bit numerator are those of 2^32 and of 2^32 + 1,
      except 1. */
  lemma ExactDivisors(k: nat)
    requires U32(k) && k != 0
    ensures (forall n :: U32(n) ==> F(n, k) == n / k)
            <==> k != 1 && (TWO32 % k == 0 || (TWO32 + 1) % k == 0)
  {
    if k == 1 {
      DivisorOne(1);
    } else {
      ExcessRange(k);
      ExcessIsResidue(k);
      if Excess(k) <= 1 {
        forall n | U32(n) ensures F(n, k) == n / k {
          ExactWhenTight(n, k);
        }
      } else {
        WrongAtHardest(k);
        var h := Hardest(k);
        assert U32(h) && F(h, k) != h / k;
      }
    }
  }

  lemma ExcessIsResidue(k: nat)
    requires U32(k) && k >= 2 && 0 <= Excess(k) < k
    ensures Excess(k) == 0 <==> TWO32 % k == 0
    ensures Excess(k) == 1 <==> (TWO32 + 1) % k == 0
  {
    var r, e := ComputeR(k), Excess(k);
    assert k * r >= TWO32;
    Residue(TWO32, k, r, e);
    Residue(TWO32 + 1, k, r, e - 1);
  }

  lemma Residue(a: nat, k: nat, r: nat, d: int)
    requires k >= 2 && r >= 1 && a == k * r - d && -1 <= d < k
    ensures a % k == 0 <==> d == 0
  {
    var q := a / k;
    if d == 0 {
      DivUnique(a, k, r);
    } else if d == -1 {
      DivUnique(a, k, r);
    } else {
      assert k * (r - 1) == k * r - k;
      DivUnique(a, k, r - 1);
    }
  }

  /** Division by a power of two is exact. */
  lemma ExactPowersOfTwo(n: nat, k: nat)
    requires U32(n) && U32(k) && k >= 2 && IsPow2(k)
    ensures F(n, k) == n / k
  {
    PowerDividesWord(k);
    ExactDivisors(k);
  }

  lemma PowerDividesWord(k: nat)
    requires U32(k) && IsPow2(k)
    ensures TWO32 % k == 0
  {
    var e := IsPow2Exponent(k);
    WordIsPower();
    if e >= 32 {
      Pow2Monotone(32, e);
    } else {
      Pow2Add(e, 32 - e);
      MultipleOf(TWO32, k, Pow2(32 - e));
    }
  }

  lemma WordIsPower()
    ensures Pow2(32) == TWO32
  {
    HalfWord();
    Pow2Add(16, 16);
  }

  lemma MultipleOf(a: nat, k: nat, q: nat)
    requires k > 0 && a == k * q
    ensures a % k == 0
  {
    if q > 0 {
      DivUnique(a, k, q);
    }
  }

  /** For k = 1 the reciprocal 2^32 is truncated to 0, and so is every quotient: only n = 0 is
      right. */
  lemma DivisorOne(n: nat)
    requires U32(n)
    ensures F(n, 1) == 0
    ensures F(n, 1) == n / 1 <==> n == 0
  {
    assert ComputeR(1) == 0;
  }
}
