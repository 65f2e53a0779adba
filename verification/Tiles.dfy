/** The numbers on the tiles of the 2048 board: which are legal, and what a tile has cost to build. */
module Tiles {
  import opened PowersOfTwo
  import opened Products

  /** Every cell is empty or holds a power of two that is at least 2. */
  predicate LegalTile(v: int) {
    v == 0 || (v >= 2 && IsPow2(v))
  }

  /** The score a tile has cost to build from 2-tiles: (k - 1) * 2^k for the tile 2^k. */
  function Worth(v: int): int {
    if v <= 2 then 0 else 2 * Worth(v / 2) + v
  }

  lemma WorthDouble(p: int)
    requires p >= 2
    ensures Worth(2 * p) == 2 * Worth(p) + 2 * p
  {
    assert (2 * p) / 2 == p;
  }

  lemma TimesStep(k: int, p: int)
    ensures 2 * ((k - 1) * p) + 2 * p == k * (2 * p)
  {
  }

  /** The closed form of a tile's worth. */
  lemma {:induction false} WorthOfPow2(k: nat)
    ensures Worth(Pow2(k + 1)) == k * Pow2(k + 1)
  {
    if k > 0 {
      WorthOfPow2(k - 1);
      var p := Pow2(k);
      WorthDouble(p);
      TimesStep(k, p);
    }
  }

  lemma DoubledTile(v: int)
    requires LegalTile(v) && v != 0
    ensures LegalTile(2 * v) && Worth(2 * v) == 2 * Worth(v) + 2 * v
  {
    WorthDouble(v);
  }

  lemma ExponentBelow(k: nat, m: nat)
    requires Pow2(k) <= Pow2(m)
    ensures k <= m
  {
    if k > m {
      Pow2Monotone(m, k);
    }
  }

  lemma TileWorthBound(v: int)
    requires LegalTile(v) && v <= Pow2(17)
    ensures 0 <= Worth(v) <= 16 * v
  {
    if v != 0 {
      var k := IsPow2Exponent(v);
      ExponentBelow(k, 17);
      PowerWorthBound(k - 1, 16, v);
    }
  }

  lemma PowerWorthBound(k: nat, m: nat, p: nat)
    requires k <= m && p == Pow2(k + 1)
    ensures 0 <= Worth(p) <= m * p
  {
    WorthOfPow2(k);
    TimesMonotone(k, m, p);
  }
}
