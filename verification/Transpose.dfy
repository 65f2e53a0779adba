/** The reference matrix transpose, running through the cache, and the test that checks it. */
module TransposeThroughCache {
  import opened Products
  import opened CacheAddress
  import opened CacheHistory
  import opened CacheModel
  import opened CacheClass

  /** `get_addr`: the entry in a row and column of a row-major matrix. */
  function GetAddr(matrix: nat, width: nat, row: nat, col: nat): nat {
    matrix + row * width + col
  }

  /** The entries of a matrix lie in its region, and a row and a column determine one entry. */
  lemma EntryInRegion(matrix: nat, height: nat, width: nat, row: nat, col: nat)
    requires row < height && col < width
    ensures matrix <= matrix + row * width + col < matrix + height * width
  {
    TimesMonotone(row + 1, height, width);
  }

  lemma EntriesDistinct(matrix: nat, width: nat, row: nat, col: nat, row': nat, col': nat)
    requires col < width && col' < width
    ensures matrix + row * width + col == matrix + row' * width + col' <==> row == row' && col == col'
  {
    TimesMonotone(row + 1, row', width);
    TimesMonotone(row' + 1, row, width);
  }

  predicate Disjoint(a: nat, b: nat, size: nat) {
    a + size <= b || b + size <= a
  }

  /** The destination holds the transpose of the source, and is all that differs from the memory before. */
  ghost predicate Transposed(before: Memory, after: Memory, src: nat, dst: nat, height: nat, width: nat)
    requires src + height * width <= ADDRESSES && dst + height * width <= ADDRESSES
  {
    EntriesDone(before, after, src, dst, height, width, height, 0)
  }

  /** As far as row `row` and column `col` of the source. */
  ghost predicate EntriesDone(before: Memory, after: Memory, src: nat, dst: nat, height: nat, width: nat,
                              row: nat, col: nat)
    requires src + height * width <= ADDRESSES && dst + height * width <= ADDRESSES
  {
    && (forall a :: 0 <= a < ADDRESSES && !(dst <= a < dst + height * width) ==> after[a] == before[a])
    && forall r: nat, c: nat :: r < height && c < width && (r < row || (r == row && c < col)) ==>
         EntryDone(before, after, src, dst, height, width, r, c)
  }

  ghost predicate EntryDone(before: Memory, after: Memory, src: nat, dst: nat, height: nat, width: nat,
                            r: nat, c: nat)
    requires src + height * width <= ADDRESSES && dst + height * width <= ADDRESSES
    requires r < height && c < width
  {
    EntryInRegion(src, height, width, r, c);
    EntryInRegion(dst, width, height, c, r);
    after[dst + c * height + r] == before[src + r * width + c]
  }

  /** In plain addresses: what a transpose puts at column r, row c of the destination is row r, column c of
      the source, and any other address keeps its byte. */
  lemma TransposedEntry(before: Memory, after: Memory, src: nat, dst: nat, height: nat, width: nat, r: nat, c: nat)
    requires src + height * width <= ADDRESSES && dst + height * width <= ADDRESSES
    requires r < height && c < width && Transposed(before, after, src, dst, height, width)
    ensures dst + c * height + r < ADDRESSES && src + r * width + c < ADDRESSES
    ensures after[dst + c * height + r] == before[src + r * width + c]
    ensures forall a :: 0 <= a < ADDRESSES && !(dst <= a < dst + height * width) ==> after[a] == before[a]
  {
    EntryInRegion(src, height, width, r, c);
    EntryInRegion(dst, width, height, c, r);
    assert EntryDone(before, after, src, dst, height, width, r, c);
  }

  /** Copying the next entry keeps the finished ones. */
  lemma NextEntry(before: Memory, now: Memory, src: nat, dst: nat, height: nat, width: nat, row: nat, col: nat)
    requires src + height * width <= ADDRESSES && dst + height * width <= ADDRESSES
    requires Disjoint(src, dst, height * width) && row < height && col < width
    requires EntriesDone(before, now, src, dst, height, width, row, col)
    ensures GetAddr(src, width, row, col) < ADDRESSES && GetAddr(dst, height, col, row) < ADDRESSES
    ensures EntriesDone(before, now[GetAddr(dst, height, col, row) := now[GetAddr(src, width, row, col)]],
                        src, dst, height, width, row, col + 1)
  {
    EntryInRegion(src, height, width, row, col);
    EntryInRegion(dst, width, height, col, row);
    var next := now[GetAddr(dst, height, col, row) := now[GetAddr(src, width, row, col)]];
    forall r: nat, c: nat | r < height && c < width && (r < row || (r == row && c < col + 1))
      ensures EntryDone(before, next, src, dst, height, width, r, c)
    {
      EntriesDistinct(dst, height, col, row, c, r);
      EntryInRegion(dst, width, height, c, r);
      if !(r == row && c == col) {
        assert EntryDone(before, now, src, dst, height, width, r, c);
      }
    }
  }

  /** A whole row done is the next row begun. */
  lemma NextRow(before: Memory, now: Memory, src: nat, dst: nat, height: nat, width: nat, row: nat)
    requires src + height * width <= ADDRESSES && dst + height * width <= ADDRESSES
    requires EntriesDone(before, now, src, dst, height, width, row, width)
    ensures EntriesDone(before, now, src, dst, height, width, row + 1, 0)
  {
  }

  // ----- the accesses of the transpose -----

  /** The load and the store of one entry. */
  function EntrySlots(src: nat, dst: nat, height: nat, width: nat, row: nat, col: nat, params: LineParams): seq<Slot>
    requires src + height * width <= ADDRESSES && dst + height * width <= ADDRESSES
    requires row < height && col < width && params.Ok()
  {
    EntryInRegion(src, height, width, row, col);
    EntryInRegion(dst, width, height, col, row);
    [SlotOf(src + row * width + col, params), SlotOf(dst + col * height + row, params)]
  }

  /** All accesses before the entry in row `row` and column `col` of the source. */
  function SlotsBefore(src: nat, dst: nat, height: nat, width: nat, row: nat, col: nat, params: LineParams)
    : (slots: seq<Slot>)
    requires src + height * width <= ADDRESSES && dst + height * width <= ADDRESSES
    requires row <= height && col <= width && (row < height || col == 0) && params.Ok()
    ensures |slots| == 2 * (row * width + col)
    decreases row, col
  {
    if col > 0 then
      SlotsBefore(src, dst, height, width, row, col - 1, params)
      + EntrySlots(src, dst, height, width, row, col - 1, params)
    else if row > 0 then
      TimesSuccessor(row - 1, width);
      SlotsBefore(src, dst, height, width, row - 1, width, params)
    else []
  }

  /** The accesses of a whole transpose. */
  function TransposeSlots(src: nat, dst: nat, height: nat, width: nat, params: LineParams): (slots: seq<Slot>)
    requires src + height * width <= ADDRESSES && dst + height * width <= ADDRESSES && params.Ok()
    ensures |slots| == 2 * (height * width)
  {
    SlotsBefore(src, dst, height, width, height, 0, params)
  }

  /** After the accesses of the entries before it, each entry is loaded and stored to its mirror entry. */
  lemma {:induction false} EntryAccesses(src: nat, dst: nat, height: nat, width: nat, row: nat, col: nat,
                                         row': nat, col': nat, params: LineParams)
    requires src + height * width <= ADDRESSES && dst + height * width <= ADDRESSES && params.Ok()
    requires row' <= height && col' <= width && (row' < height || col' == 0)
    requires row < height && col < width && (row < row' || (row == row' && col < col'))
    ensures SlotsBefore(src, dst, height, width, row, col, params)
            + EntrySlots(src, dst, height, width, row, col, params)
            <= SlotsBefore(src, dst, height, width, row', col', params)
    decreases row', col'
  {
    if col' == 0 {
      EntryAccesses(src, dst, height, width, row, col, row' - 1, width, params);
    } else if !(row == row' && col == col' - 1) {
      EntryAccesses(src, dst, height, width, row, col, row', col' - 1, params);
    }
  }

  /** The body of the loop: one load and one store. */
  method CopyEntry(ghost before: Memory, src: nat, dst: nat, height: nat, width: nat, row: nat, col: nat,
                   cache: Cache, memory: array<Byte>)
    requires cache.Serves(memory)
    requires src + height * width <= ADDRESSES && dst + height * width <= ADDRESSES
    requires Disjoint(src, dst, height * width) && row < height && col < width
    requires EntriesDone(before, memory[..], src, dst, height, width, row, col)
    modifies cache.Repr, memory
    ensures cache.Serves(memory)
    ensures EntriesDone(before, memory[..], src, dst, height, width, row, col + 1)
    ensures cache.history == old(cache.history) + EntrySlots(src, dst, height, width, row, col, cache.params)
  {
    NextEntry(before, memory[..], src, dst, height, width, row, col);
    var srcByte := cache.Load(GetAddr(src, width, row, col), memory);
    cache.Store(GetAddr(dst, height, col, row), srcByte, memory);
  }

  /** The inner loop: one row of the source becomes one column of the destination. */
  method TransposeRow(ghost before: Memory, ghost start: seq<Slot>,
                      src: nat, dst: nat, height: nat, width: nat, row: nat, cache: Cache, memory: array<Byte>)
    requires cache.Serves(memory)
    requires src + height * width <= ADDRESSES && dst + height * width <= ADDRESSES
    requires Disjoint(src, dst, height * width) && row < height
    requires EntriesDone(before, memory[..], src, dst, height, width, row, 0)
    requires cache.history == start + SlotsBefore(src, dst, height, width, row, 0, cache.params)
    modifies cache.Repr, memory
    ensures cache.Serves(memory)
    ensures EntriesDone(before, memory[..], src, dst, height, width, row, width)
    ensures cache.history == start + SlotsBefore(src, dst, height, width, row, width, cache.params)
  {
    for col := 0 to width
      invariant cache.Serves(memory)
      invariant EntriesDone(before, memory[..], src, dst, height, width, row, col)
      invariant cache.history == start + SlotsBefore(src, dst, height, width, row, col, cache.params)
    {
      CopyEntry(before, src, dst, height, width, row, col, cache, memory);
    }
  }

  /** Transposes the matrix at src into the one at dst by loads and stores through the cache, two
      accesses per entry. */
  method TransposeRef(src: nat, dst: nat, height: nat, width: nat, cache: Cache, memory: array<Byte>)
    requires cache.Serves(memory)
    requires src + height * width <= ADDRESSES && dst + height * width <= ADDRESSES
    requires Disjoint(src, dst, height * width)
    modifies cache.Repr, memory
    ensures cache.Serves(memory)
    ensures Transposed(old(memory[..]), memory[..], src, dst, height, width)
    ensures cache.history == old(cache.history) + TransposeSlots(src, dst, height, width, cache.params)
  {
    ghost var before: Memory := memory[..];
    ghost var start := cache.history;
    for row := 0 to height
      invariant cache.Serves(memory)
      invariant EntriesDone(before, memory[..], src, dst, height, width, row, 0)
      invariant cache.history == start + SlotsBefore(src, dst, height, width, row, 0, cache.params)
    {
      TransposeRow(before, start, src, dst, height, width, row, cache, memory);
      NextRow(before, memory[..], src, dst, height, width, row);
    }
  }

  /** The matrix at rhs is the transpose of the one at lhs. */
  ghost predicate AreTransposes(m: Memory, lhs: nat, rhs: nat, height: nat, width: nat)
    requires lhs + height * width <= ADDRESSES && rhs + height * width <= ADDRESSES
  {
    forall r: nat, c: nat :: r < height && c < width ==> EntryDone(m, m, lhs, rhs, height, width, r, c)
  }

  /** In plain addresses: where the test says yes every entry has its mirror entry, and where it says no
      some entry has not. */
  lemma AreTransposesEntry(m: Memory, lhs: nat, rhs: nat, height: nat, width: nat, r: nat, c: nat)
    requires lhs + height * width <= ADDRESSES && rhs + height * width <= ADDRESSES && r < height && c < width
    ensures rhs + c * height + r < ADDRESSES && lhs + r * width + c < ADDRESSES
    ensures AreTransposes(m, lhs, rhs, height, width) ==> m[rhs + c * height + r] == m[lhs + r * width + c]
  {
    EntryInRegion(lhs, height, width, r, c);
    EntryInRegion(rhs, width, height, c, r);
    if AreTransposes(m, lhs, rhs, height, width) {
      assert EntryDone(m, m, lhs, rhs, height, width, r, c);
    }
  }

  lemma MismatchExists(m: Memory, lhs: nat, rhs: nat, height: nat, width: nat)
    returns (r: nat, c: nat, a: nat, b: nat)
    requires lhs + height * width <= ADDRESSES && rhs + height * width <= ADDRESSES
    requires !AreTransposes(m, lhs, rhs, height, width)
    ensures r < height && c < width
    ensures a == rhs + c * height + r && b == lhs + r * width + c
    ensures a < ADDRESSES && b < ADDRESSES && m[a] != m[b]
  {
    r, c :| r < height && c < width && !EntryDone(m, m, lhs, rhs, height, width, r, c);
    EntryInRegion(lhs, height, width, r, c);
    EntryInRegion(rhs, width, height, c, r);
    a, b := rhs + c * height + r, lhs + r * width + c;
  }

  /** 1 iff every entry matches its mirror entry. */
  method IsTranspose(lhs: nat, rhs: nat, height: nat, width: nat, memory: array<Byte>) returns (answer: int)
    requires memory.Length == ADDRESSES
    requires lhs + height * width <= ADDRESSES && rhs + height * width <= ADDRESSES
    ensures answer == if AreTransposes(memory[..], lhs, rhs, height, width) then 1 else 0
  {
    ghost var m: Memory := memory[..];
    for row := 0 to height
      invariant forall r: nat, c: nat :: r < row && c < width ==> EntryDone(m, m, lhs, rhs, height, width, r, c)
    {
      for col := 0 to width
        invariant forall r: nat, c: nat :: r < row && c < width ==> EntryDone(m, m, lhs, rhs, height, width, r, c)
        invariant forall c: nat :: c < col ==> EntryDone(m, m, lhs, rhs, height, width, row, c)
      {
        EntryInRegion(lhs, height, width, row, col);
        EntryInRegion(rhs, width, height, col, row);
        if memory[GetAddr(lhs, width, row, col)] != memory[GetAddr(rhs, height, col, row)] {
          assert !EntryDone(m, m, lhs, rhs, height, width, row, col);
          return 0;
        }
      }
    }
    return 1;
  }

  /** The source is untouched, so what was copied is still its transpose. */
  lemma TransposedMatches(before: Memory, after: Memory, src: nat, dst: nat, height: nat, width: nat)
    requires src + height * width <= ADDRESSES && dst + height * width <= ADDRESSES
    requires Disjoint(src, dst, height * width)
    requires Transposed(before, after, src, dst, height, width)
    ensures AreTransposes(after, src, dst, height, width)
  {
    forall r: nat, c: nat | r < height && c < width ensures EntryDone(after, after, src, dst, height, width, r, c) {
      assert EntryDone(before, after, src, dst, height, width, r, c);
      EntryInRegion(src, height, width, r, c);
    }
  }

  /** The counters of a cache are determined by the accesses it has served. */
  lemma CountersAfter(c: CacheState, memory: Memory, params: LineParams, slots: seq<Slot>)
    requires Coherent(c, memory, params) && c.history == slots
    ensures c.hits == Hits(slots) && c.evictions == Evictions(slots)
    ensures c.hits + c.misses == |slots| && c.evictions <= c.misses && c.misses - c.evictions <= NumLines(params)
  {
    CoherentCounters(c, memory, params);
  }

  /** `run_test`: a fresh cache, the transpose, the check, and the counters it reports. */
  method RunTest(src: nat, dst: nat, height: nat, width: nat, params: LineParams, memory: array<Byte>)
    returns (answer: int, hits: nat, misses: nat, evictions: nat)
    requires params.Ok() && memory.Length == ADDRESSES
    requires src + height * width <= ADDRESSES && dst + height * width <= ADDRESSES
    requires Disjoint(src, dst, height * width)
    modifies memory
    ensures answer == 1
    ensures Transposed(old(memory[..]), memory[..], src, dst, height, width)
    ensures hits == Hits(TransposeSlots(src, dst, height, width, params))
    ensures evictions == Evictions(TransposeSlots(src, dst, height, width, params))
    ensures hits + misses == 2 * (height * width) && evictions <= misses
    ensures misses - evictions <= NumLines(params)
  {
    var cache := new Cache(params);
    EmptyCoherent(memory[..], params);
    ghost var before: Memory := memory[..];
    ghost var slots := TransposeSlots(src, dst, height, width, params);
    assert Empty(params).history + slots == slots;
    TransposeRef(src, dst, height, width, cache, memory);
    TransposedMatches(before, memory[..], src, dst, height, width);
    answer := IsTranspose(src, dst, height, width, memory);
    CountersAfter(cache.Snapshot(), memory[..], params, slots);
    return answer, cache.hits, cache.misses, cache.evictions;
  }
}
