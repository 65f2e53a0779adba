/** Splitting a 64-bit address into tag, line index and line offset with shifts and masks, and why the
    split is a bijection. */
module CacheAddress {
  import opened PowersOfTwo
  import opened Products

  const ADDR_BITS: nat := 64
  const ADDRESSES: nat := 0x1_0000_0000_0000_0000  // 2^64

  datatype LineParams = LineParams(numIndexBits: nat, numOffsetBits: nat) {
    /** Otherwise the shifts in `get_tag` are undefined (section 6.5.7 of ISO/IEC 9899:2018). */
    predicate Ok() {
      numIndexBits + numOffsetBits < ADDR_BITS
    }

    function LineBits(): nat { numIndexBits + numOffsetBits }
  }

  lemma AddressSpace()
    ensures Pow2(ADDR_BITS) == ADDRESSES
  {
    HalfWord();
    Pow2Add(16, 16);
    Pow2Add(32, 32);
  }

  // ----- bit operations on unsigned words -----

  function BitAnd(x: nat, y: nat): nat {
    if x == 0 || y == 0 then 0
    else 2 * BitAnd(x / 2, y / 2) + (if x % 2 == 1 && y % 2 == 1 then 1 else 0)
  }

  function ShiftRight(x: nat, k: nat): nat
    decreases k
  {
    if k == 0 then x else ShiftRight(x / 2, k - 1)
  }

  function ShiftLeft(x: nat, k: nat): nat
    decreases k
  {
    if k == 0 then x else ShiftLeft(2 * x, k - 1)
  }

  lemma {:induction false} ShiftLeftIsProduct(x: nat, k: nat)
    ensures ShiftLeft(x, k) == x * Pow2(k)
    decreases k
  {
    if k > 0 {
      ShiftLeftIsProduct(2 * x, k - 1);
      DoubleFactor(x, Pow2(k - 1), Pow2(k));
    }
  }

  lemma DoubleFactor(x: int, p: int, q: int)
    requires q == 2 * p
    ensures (2 * x) * p == x * q
  {
  }

  /** `((uintptr_t)1 << k) - 1` */
  function Mask(k: nat): nat
    requires k < ADDR_BITS
  {
    Pow2(k) - 1
  }

  lemma BitAndOdd(x: nat, p: nat)
    requires p >= 1
    ensures BitAnd(x, 2 * p - 1) == 2 * BitAnd(x / 2, p - 1) + x % 2
  {
    assert (2 * p - 1) / 2 == p - 1 && (2 * p - 1) % 2 == 1;
  }

  lemma {:induction false} MaskIsRemainder(x: nat, k: nat)
    ensures BitAnd(x, Pow2(k) - 1) == x % Pow2(k)
  {
    if k > 0 {
      MaskIsRemainder(x / 2, k - 1);
      BitAndOdd(x, Pow2(k - 1));
      HalfRemainder(x, Pow2(k - 1));
    }
  }

  lemma {:induction false} ShiftIsQuotient(x: nat, k: nat)
    ensures ShiftRight(x, k) == x / Pow2(k)
    decreases k
  {
    if k > 0 {
      ShiftIsQuotient(x / 2, k - 1);
      DivTwice(x, Pow2(k - 1), 2, Pow2(k));
    }
  }

  lemma HalfRemainder(x: nat, p: nat)
    requires p > 0
    ensures x % (2 * p) == 2 * ((x / 2) % p) + x % 2
  {
    var h := x / 2;
    var q, r := h / p, h % p;
    assert h == q * p + r && x == 2 * h + x % 2;
    DoubleDigits(q, p, r);
    DivModUnique(x, 2 * p, q, 2 * r + x % 2);
  }

  lemma DoubleDigits(q: int, p: int, r: int)
    ensures 2 * (q * p + r) == q * (2 * p) + 2 * r
  {
  }

  lemma DivModUnique(x: nat, d: nat, q: nat, r: nat)
    requires r < d && x == q * d + r
    ensures x / d == q && x % d == r
  {
    var q', r' := x / d, x % d;
    assert x == q' * d + r';
    TimesMonotone(q + 1, q', d);
    TimesMonotone(q' + 1, q, d);
  }

  // ----- the three parts -----

  function GetTag(addr: nat, params: LineParams): (tag: nat)
    requires addr < ADDRESSES && params.Ok()
  {
    var numLineBits := params.numIndexBits + params.numOffsetBits;
    if numLineBits == 0 then addr
    else
      var numTagBits := ADDR_BITS - numLineBits;
      BitAnd(ShiftRight(addr, numLineBits), Mask(numTagBits))
  }

  function GetLineIndex(addr: nat, params: LineParams): (index: nat)
    requires addr < ADDRESSES && params.numIndexBits < ADDR_BITS && params.numOffsetBits < ADDR_BITS
  {
    BitAnd(ShiftRight(addr, params.numOffsetBits), Mask(params.numIndexBits))
  }

  function GetLineOffset(addr: nat, params: LineParams): (offset: nat)
    requires addr < ADDRESSES && params.numOffsetBits <= ADDR_BITS
  {
    if params.numOffsetBits == ADDR_BITS then addr
    else BitAnd(addr, Mask(params.numOffsetBits))
  }

  /** The bytes of a line; one less than the address space when a line would hold all of it. */
  function BlockSize(params: LineParams): nat
    requires params.numOffsetBits <= ADDR_BITS
  {
    if params.numOffsetBits == ADDR_BITS then ADDRESSES - 1 else Pow2(params.numOffsetBits)
  }

  function NumLines(params: LineParams): nat {
    Pow2(params.numIndexBits)
  }

  function NumTags(params: LineParams): nat
    requires params.Ok()
  {
    Pow2(ADDR_BITS - params.LineBits())
  }

  /** Where the block with this tag and line index begins in memory. */
  function BlockBase(tag: nat, index: nat, params: LineParams): nat {
    ShiftLeft(ShiftLeft(tag, params.numIndexBits) + index, params.numOffsetBits)
  }

  lemma BlockBaseIsProduct(tag: nat, index: nat, params: LineParams)
    requires params.Ok()
    ensures BlockBase(tag, index, params) == (tag * NumLines(params) + index) * BlockSize(params)
  {
    ShiftLeftIsProduct(tag, params.numIndexBits);
    ShiftLeftIsProduct(tag * NumLines(params) + index, params.numOffsetBits);
  }

  lemma Sizes(params: LineParams)
    requires params.Ok()
    ensures Pow2(params.LineBits()) == NumLines(params) * BlockSize(params)
    ensures NumTags(params) * Pow2(params.LineBits()) == ADDRESSES
  {
    Pow2Add(params.numIndexBits, params.numOffsetBits);
    WholeSpace(ADDR_BITS - params.LineBits(), params.LineBits());
  }

  lemma WholeSpace(t: nat, n: nat)
    requires t + n == ADDR_BITS
    ensures Pow2(t) * Pow2(n) == ADDRESSES
  {
    Pow2Add(t, n);
    AddressSpace();
  }

  lemma DivBelow(x: nat, d: nat, n: nat)
    requires d > 0 && x < n * d
    ensures x / d < n
  {
    TimesMonotone(n, x / d, d);
  }

  lemma DivTwice(x: nat, a: nat, b: nat, d: nat)
    requires a > 0 && b > 0 && d == a * b && d > 0
    ensures x / d == (x / b) / a
  {
    var y, r := x / b, x % b;
    var q, s := y / a, y % a;
    assert x == y * b + r && y == q * a + s;
    RegroupDigits(x, y, r, q, s, a, b, d);
    DivModUnique(x, d, q, s * b + r);
  }

  lemma RegroupDigits(x: nat, y: nat, r: nat, q: nat, s: nat, a: nat, b: nat, d: nat)
    requires x == y * b + r && r < b && y == q * a + s && s < a && d == a * b
    ensures x == q * d + (s * b + r) && s * b + r < d
  {
    TimesMonotone(s + 1, a, b);
    Expand(y, q, s, a, b, d);
  }

  lemma Expand(y: int, q: int, s: int, a: int, b: int, d: int)
    requires y == q * a + s && d == a * b
    ensures y * b == q * d + s * b
  {
  }

  /** The masks and shifts compute quotients and remainders, and the parts are in range. */
  lemma PartsOfAddress(addr: nat, params: LineParams)
    requires addr < ADDRESSES && params.Ok()
    ensures GetLineOffset(addr, params) == addr % BlockSize(params) < BlockSize(params)
    ensures GetLineIndex(addr, params) == (addr / BlockSize(params)) % NumLines(params) < NumLines(params)
    ensures GetTag(addr, params) == (addr / BlockSize(params)) / NumLines(params) < NumTags(params)
  {
    MaskIsRemainder(addr, params.numOffsetBits);
    ShiftIsQuotient(addr, params.numOffsetBits);
    MaskIsRemainder(ShiftRight(addr, params.numOffsetBits), params.numIndexBits);
    TagOfAddress(addr, params);
  }

  /** From the low end: the offset bits, then the index bits, then the tag. */
  lemma PartsByBits(addr: nat, params: LineParams)
    requires addr < ADDRESSES && params.Ok()
    ensures GetLineOffset(addr, params) == addr % Pow2(params.numOffsetBits)
    ensures GetLineIndex(addr, params) == (addr / Pow2(params.numOffsetBits)) % Pow2(params.numIndexBits)
    ensures GetTag(addr, params) == addr / Pow2(params.numOffsetBits + params.numIndexBits)
    ensures BlockSize(params) == Pow2(params.numOffsetBits) && NumLines(params) == Pow2(params.numIndexBits)
  {
    PartsOfAddress(addr, params);
    Pow2Add(params.numIndexBits, params.numOffsetBits);
    DivTwice(addr, Pow2(params.numIndexBits), Pow2(params.numOffsetBits),
             Pow2(params.numOffsetBits + params.numIndexBits));
  }

  /** The ranges alone. */
  lemma PartsInRange(addr: nat, params: LineParams)
    requires addr < ADDRESSES && params.Ok()
    ensures GetLineOffset(addr, params) < BlockSize(params)
    ensures GetLineIndex(addr, params) < NumLines(params)
    ensures GetTag(addr, params) < NumTags(params)
  {
    PartsOfAddress(addr, params);
  }

  lemma TagOfAddress(addr: nat, params: LineParams)
    requires addr < ADDRESSES && params.Ok()
    ensures GetTag(addr, params) == (addr / BlockSize(params)) / NumLines(params) < NumTags(params)
  {
    Sizes(params);
    var n := params.LineBits();
    TopBits(addr, n, ADDR_BITS - n);
    DivTwice(addr, NumLines(params), BlockSize(params), Pow2(n));
    ShiftIsQuotient(addr, n);
  }

  /** Shifting an address right by n bits leaves its top t bits; the mask then keeps them all. */
  lemma TopBits(addr: nat, n: nat, t: nat)
    requires addr < Pow2(t) * Pow2(n)
    ensures BitAnd(ShiftRight(addr, n), Pow2(t) - 1) == ShiftRight(addr, n) < Pow2(t)
  {
    ShiftIsQuotient(addr, n);
    DivBelow(addr, Pow2(n), Pow2(t));
    MaskIsRemainder(ShiftRight(addr, n), t);
    SmallRemainder(ShiftRight(addr, n), Pow2(t));
  }

  lemma SmallRemainder(q: nat, p: nat)
    requires q < p
    ensures q % p == q
  {
  }

  /** An address is rebuilt from its three parts. */
  lemma AddressRebuilt(addr: nat, params: LineParams)
    requires addr < ADDRESSES && params.Ok()
    ensures addr == BlockBase(GetTag(addr, params), GetLineIndex(addr, params), params)
                    + GetLineOffset(addr, params)
  {
    PartsOfAddress(addr, params);
    BlockBaseIsProduct(GetTag(addr, params), GetLineIndex(addr, params), params);
    Rebuild(addr, BlockSize(params), NumLines(params),
            GetTag(addr, params), GetLineIndex(addr, params), GetLineOffset(addr, params));
  }

  /** The three parts of an address and the start of its block, by name. */
  lemma Split(addr: nat, params: LineParams) returns (tag: nat, index: nat, offset: nat, base: nat)
    requires addr < ADDRESSES && params.Ok()
    ensures tag == GetTag(addr, params) && index == GetLineIndex(addr, params)
    ensures offset == GetLineOffset(addr, params)
    ensures tag < NumTags(params) && index < NumLines(params) && offset < BlockSize(params)
    ensures base == BlockBase(tag, index, params) && base + offset == addr
  {
    PartsInRange(addr, params);
    AddressRebuilt(addr, params);
    tag, index, offset := GetTag(addr, params), GetLineIndex(addr, params), GetLineOffset(addr, params);
    base := BlockBase(tag, index, params);
  }

  lemma Rebuild(x: nat, b: nat, n: nat, tag: nat, index: nat, offset: nat)
    requires b > 0 && n > 0
    requires tag == (x / b) / n && index == (x / b) % n && offset == x % b
    ensures x == (tag * n + index) * b + offset
  {
    var y := x / b;
    assert y == tag * n + index;
    assert x == y * b + offset;
  }

  /** Every combination of parts in range is the split of exactly one address. */
  lemma PartsRebuilt(tag: nat, index: nat, offset: nat, params: LineParams)
    requires params.Ok()
    requires tag < NumTags(params) && index < NumLines(params) && offset < BlockSize(params)
    ensures var addr := BlockBase(tag, index, params) + offset;
            && addr < ADDRESSES
            && GetTag(addr, params) == tag
            && GetLineIndex(addr, params) == index
            && GetLineOffset(addr, params) == offset
  {
    BlockBaseIsProduct(tag, index, params);
    var addr := BlockBase(tag, index, params) + offset;
    assert addr < ADDRESSES by {
      Sizes(params);
      InRange(tag, index, offset, NumTags(params), NumLines(params), BlockSize(params), Pow2(params.LineBits()));
    }
    PartsOfAddress(addr, params);
    Unsplit(addr, tag, index, offset, NumLines(params), BlockSize(params));
  }

  lemma Unsplit(x: nat, tag: nat, index: nat, offset: nat, n: nat, b: nat)
    requires index < n && offset < b && x == (tag * n + index) * b + offset
    ensures x % b == offset && (x / b) % n == index && (x / b) / n == tag
  {
    DivModUnique(x, b, tag * n + index, offset);
    DivModUnique(tag * n + index, n, tag, index);
  }

  lemma InRange(tag: nat, index: nat, offset: nat, t: nat, n: nat, b: nat, d: nat)
    requires tag < t && index < n && offset < b && d == n * b
    ensures (tag * n + index) * b + offset < t * d
  {
    Expand(tag * n + index, tag, index, n, b, d);
    TimesMonotone(index + 1, n, b);
    TimesMonotone(tag + 1, t, d);
  }
}
