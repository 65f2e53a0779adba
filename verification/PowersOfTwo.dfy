/** Powers of two, the number of one-bits of a natural number, and the arithmetic facts about
    them that the game board and the cache address arithmetic rest on. */
module PowersOfTwo {

  function Pow2(k: nat): (p: nat)
    ensures p >= 1
  {
    if k == 0 then 1 else 2 * Pow2(k - 1)
  }

  lemma {:induction false} Pow2Add(a: nat, b: nat)
    ensures Pow2(a + b) == Pow2(a) * Pow2(b)
  {
    if a == 0 {
    } else {
      Pow2Add(a - 1, b);
      assert Pow2(a + b) == 2 * Pow2(a - 1 + b);
    }
  }

  lemma HalfWord()
    ensures Pow2(16) == 0x1_0000
  {
    assert Pow2(4) == 16;
    Pow2Add(4, 4);
    Pow2Add(8, 8);
  }

  lemma {:induction false} Pow2Monotone(a: nat, b: nat)
    requires a <= b
    ensures Pow2(a) <= Pow2(b)
    ensures a < b ==> 2 * Pow2(a) <= Pow2(b)
  {
    if a < b {
      Pow2Monotone(a, b - 1);
    }
  }

  /** Recognises the powers of two by repeated halving. */
  predicate IsPow2(v: nat) {
    v == 1 || (v >= 2 && v % 2 == 0 && IsPow2(v / 2))
  }

  lemma {:induction false} IsPow2Exponent(v: nat) returns (k: nat)
    requires IsPow2(v)
    ensures v == Pow2(k)
  {
    if v == 1 {
      k := 0;
    } else {
      var j := IsPow2Exponent(v / 2);
      k := j + 1;
    }
  }

  /** The number of one-bits in the binary form of n. */
  function BitCount(n: nat): nat {
    if n == 0 then 0 else n % 2 + BitCount(n / 2)
  }

  lemma BitCountDouble(n: nat, x: nat)
    requires x < 2
    ensures BitCount(2 * n + x) == BitCount(n) + x
  {
    assert (2 * n + x) / 2 == n && (2 * n + x) % 2 == x;
  }

  lemma {:induction false} BitCountPow2(v: nat)
    requires IsPow2(v)
    ensures BitCount(v) == 1
  {
    if v == 1 {
      BitCountDouble(0, 1);
    } else {
      BitCountPow2(v / 2);
    }
  }

  lemma Halves(a: nat) returns (h: nat, x: nat)
    ensures a == 2 * h + x && x < 2 && BitCount(a) == BitCount(h) + x
  {
    h, x := a / 2, a % 2;
    BitCountDouble(h, x);
  }

  lemma {:induction false} BitCountSuccessor(n: nat)
    ensures BitCount(n + 1) <= BitCount(n) + 1
  {
    var h, x := Halves(n);
    if x == 0 {
      BitCountDouble(h, 1);
    } else {
      BitCountSuccessor(h);
      BitCountDouble(h + 1, 0);
    }
  }

  /** Adding two numbers bit by bit, when their upper halves add up well. */
  lemma AddLastBits(a: nat, x: nat, b: nat, y: nat, bits: nat)
    requires x < 2 && y < 2 && BitCount(a + b) <= bits
    ensures BitCount((2 * a + x) + (2 * b + y)) <= bits + x + y
  {
    var s := a + b;
    if x + y < 2 {
      BitCountDouble(s, x + y);
    } else {
      BitCountSuccessor(s);
      BitCountDouble(s + 1, 0);
    }
  }

  /** Carrying never creates one-bits. */
  lemma {:induction false} BitCountSubadditive(a: nat, b: nat)
    ensures BitCount(a + b) <= BitCount(a) + BitCount(b)
    decreases a
  {
    if a > 0 {
      var a', x := Halves(a);
      var b', y := Halves(b);
      BitCountSubadditive(a', b');
      AddLastBits(a', x, b', y, BitCount(a') + BitCount(b'));
    }
  }

  /** Complementing m bits exchanges ones and zeros. */
  lemma {:induction false} BitCountComplement(n: nat, m: nat)
    requires n < Pow2(m)
    ensures BitCount(Pow2(m) - 1 - n) == m - BitCount(n)
  {
    if m == 0 {
    } else {
      var h, x := n / 2, n % 2;
      assert n == 2 * h + x;
      BitCountComplement(h, m - 1);
      var c := Pow2(m - 1) - 1 - h;
      BitCountDouble(c, 1 - x);
      BitCountDouble(h, x);
      assert Pow2(m) - 1 - n == 2 * c + (1 - x);
    }
  }

  /** Only the all-ones number 2^m - 1 fills m bits with ones. */
  lemma {:induction false} BitCountBelowAllOnes(n: nat, m: nat)
    ensures n + 1 < Pow2(m) ==> BitCount(n) < m
  {
    if n > 0 && m > 0 {
      if n % 2 == 1 {
        BitCountBelowAllOnes(n / 2, m - 1);
      } else if n / 2 < Pow2(m - 1) {
        BitCountComplement(n / 2, m - 1);
        BitCountZero(Pow2(m - 1) - 1 - n / 2);
      }
    }
  }

  lemma {:induction false} BitCountZero(n: nat)
    ensures BitCount(n) >= 0
    ensures BitCount(n) == 0 <==> n == 0
  {
    if n > 0 {
      BitCountZero(n / 2);
    }
  }

  /** A number below 2^m with at most m - 3 one-bits lies at least 8 below 2^m. */
  lemma FewBitsLeaveRoom(n: nat, m: nat)
    requires n < Pow2(m) && BitCount(n) <= m - 3
    ensures n + 8 <= Pow2(m)
  {
    BitCountComplement(n, m);
    BitCountBelowAllOnes(Pow2(m) - 1 - n, 3);
    Pow2OfThree();
  }

  lemma Pow2OfThree()
    ensures Pow2(3) == 8
  {
  }
}
