/** The direct-mapped write-through cache as a value: what one access does to lines and counters, the
    invariant it keeps, and why loads and stores agree with direct access to memory. */
module CacheModel {
  import opened Options
  import opened PowersOfTwo
  import opened CacheAddress
  import opened CacheHistory

  type Byte = b: int | 0 <= b < 256

  type Memory = m: seq<Byte> | |m| == ADDRESSES ghost witness seq(ADDRESSES, _ => 0)

  datatype Line = Unused | Holding(tag: nat, block: seq<Byte>)

  datatype CacheState = CacheState(lines: seq<Line>, hits: nat, misses: nat, evictions: nat, history: seq<Slot>)

  /** The line index and tag an address maps to. */
  function SlotOf(addr: nat, params: LineParams): Slot
    requires addr < ADDRESSES && params.Ok()
  {
    Slot(GetLineIndex(addr, params), GetTag(addr, params))
  }

  /** The aligned memory block with this tag and index. */
  function BlockOf(memory: Memory, slot: Slot, params: LineParams): (block: seq<Byte>)
    requires params.Ok() && slot.tag < NumTags(params) && slot.index < NumLines(params)
    ensures |block| == BlockSize(params)
  {
    BlockInMemory(slot.tag, slot.index, params);
    var base := BlockBase(slot.tag, slot.index, params);
    memory[base..base + BlockSize(params)]
  }

  lemma BlockInMemory(tag: nat, index: nat, params: LineParams)
    requires params.Ok() && tag < NumTags(params) && index < NumLines(params)
    ensures BlockBase(tag, index, params) + BlockSize(params) <= ADDRESSES
  {
    PartsRebuilt(tag, index, BlockSize(params) - 1, params);
  }

  function Empty(params: LineParams): CacheState {
    CacheState(seq(NumLines(params), _ => Unused), 0, 0, 0, [])
  }

  /** What `access` does, given the slot of the address. */
  function Accessed(c: CacheState, memory: Memory, s: Slot, params: LineParams): CacheState
    requires params.Ok() && s.tag < NumTags(params) && s.index < NumLines(params) == |c.lines|
  {
    var line := c.lines[s.index];
    if line.Holding? && line.tag == s.tag then
      c.(hits := c.hits + 1, history := c.history + [s])
    else
      c.(misses := c.misses + 1,
         evictions := if line.Holding? then c.evictions + 1 else c.evictions,
         lines := c.lines[s.index := Holding(s.tag, BlockOf(memory, s, params))],
         history := c.history + [s])
  }

  /** What `store` does to the line after its access. */
  function Written(c: CacheState, s: Slot, offset: nat, value: Byte): CacheState
    requires s.index < |c.lines| && c.lines[s.index].Holding? && offset < |c.lines[s.index].block|
  {
    var line := c.lines[s.index];
    c.(lines := c.lines[s.index := line.(block := line.block[offset := value])])
  }

  // ----- the invariant -----

  /** Every line in use is a copy of the memory block of its most recent access. */
  ghost predicate LineOk(line: Line, index: nat, last: Option<nat>, memory: Memory, params: LineParams)
    requires params.Ok() && index < NumLines(params)
  {
    match last
    case None => line.Unused?
    case Some(tag) => tag < NumTags(params) && line == Holding(tag, BlockOf(memory, Slot(index, tag), params))
  }

  ghost predicate Coherent(c: CacheState, memory: Memory, params: LineParams) {
    && params.Ok()
    && |c.lines| == NumLines(params)
    && (forall k :: 0 <= k < |c.lines| ==> LineOk(c.lines[k], k, LastTag(c.history, k), memory, params))
    && c.hits == Hits(c.history)
    && c.evictions == Evictions(c.history)
    && c.hits + c.misses == |c.history|
    && forall k :: 0 <= k < |c.history| ==> c.history[k].index < NumLines(params)
  }

  lemma EmptyCoherent(memory: Memory, params: LineParams)
    requires params.Ok()
    ensures Coherent(Empty(params), memory, params)
  {
  }

  lemma AccessedCoherent(c: CacheState, memory: Memory, s: Slot, params: LineParams)
    requires Coherent(c, memory, params) && s.tag < NumTags(params) && s.index < NumLines(params)
    ensures Coherent(Accessed(c, memory, s, params), memory, params)
    ensures Accessed(c, memory, s, params).lines[s.index] == Holding(s.tag, BlockOf(memory, s, params))
  {
    var d := Accessed(c, memory, s, params);
    var line := c.lines[s.index];
    assert LineOk(line, s.index, LastTag(c.history, s.index), memory, params);
    Append(c.history, s, s.index);
    forall k | 0 <= k < |d.lines| ensures LineOk(d.lines[k], k, LastTag(d.history, k), memory, params) {
      Append(c.history, s, k);
    }
  }

  /** An address lies in one block only, at one place. */
  lemma OnePlace(addr: nat, s: Slot, b: nat, params: LineParams)
    requires addr < ADDRESSES && params.Ok()
    requires s.tag < NumTags(params) && s.index < NumLines(params) && b < BlockSize(params)
    ensures BlockBase(s.tag, s.index, params) + b == addr <==>
              s == SlotOf(addr, params) && b == GetLineOffset(addr, params)
  {
    if BlockBase(s.tag, s.index, params) + b == addr {
      PartsRebuilt(s.tag, s.index, b, params);
    }
    if s == SlotOf(addr, params) && b == GetLineOffset(addr, params) {
      AddressRebuilt(addr, params);
    }
  }

  /** A store changes the one block that contains the address, at one place. */
  lemma BlockAfterStore(memory: Memory, addr: nat, value: Byte, s: Slot, params: LineParams)
    requires params.Ok() && addr < ADDRESSES && s.tag < NumTags(params) && s.index < NumLines(params)
    requires GetLineOffset(addr, params) < BlockSize(params)
    ensures BlockOf(memory[addr := value], s, params)
            == if s == SlotOf(addr, params) then BlockOf(memory, s, params)[GetLineOffset(addr, params) := value]
               else BlockOf(memory, s, params)
  {
    var was, now := BlockOf(memory, s, params), BlockOf(memory[addr := value], s, params);
    var here, offset := s == SlotOf(addr, params), GetLineOffset(addr, params);
    forall b | 0 <= b < |now| ensures now[b] == if here && b == offset then value else was[b] {
      ByteAfterStore(memory, addr, value, s, b, params);
    }
    assert now == if here then was[offset := value] else was;
  }

  lemma ByteAfterStore(memory: Memory, addr: nat, value: Byte, s: Slot, b: nat, params: LineParams)
    requires params.Ok() && addr < ADDRESSES
    requires s.tag < NumTags(params) && s.index < NumLines(params) && b < BlockSize(params)
    ensures BlockOf(memory[addr := value], s, params)[b]
            == if s == SlotOf(addr, params) && b == GetLineOffset(addr, params) then value
               else BlockOf(memory, s, params)[b]
  {
    BlockByte(memory, s, b, params);
    BlockByte(memory[addr := value], s, b, params);
    OnePlace(addr, s, b, params);
  }

  lemma BlockByte(memory: Memory, s: Slot, b: nat, params: LineParams)
    requires params.Ok() && s.tag < NumTags(params) && s.index < NumLines(params) && b < BlockSize(params)
    ensures BlockBase(s.tag, s.index, params) + b < ADDRESSES
    ensures BlockOf(memory, s, params)[b] == memory[BlockBase(s.tag, s.index, params) + b]
  {
    BlockInMemory(s.tag, s.index, params);
  }

  lemma WrittenCoherent(c: CacheState, memory: Memory, addr: nat, value: Byte, params: LineParams)
    requires Coherent(c, memory, params) && addr < ADDRESSES
    requires LastTag(c.history, SlotOf(addr, params).index) == Some(SlotOf(addr, params).tag)
    requires SlotOf(addr, params).index < NumLines(params)
    requires GetLineOffset(addr, params) < BlockSize(params)
    ensures var s := SlotOf(addr, params);
            && LineOk(c.lines[s.index], s.index, Some(s.tag), memory, params)
            && Coherent(Written(c, s, GetLineOffset(addr, params), value), memory[addr := value], params)
  {
    var s := SlotOf(addr, params);
    assert LineOk(c.lines[s.index], s.index, Some(s.tag), memory, params);
    var d := Written(c, s, GetLineOffset(addr, params), value);
    forall k | 0 <= k < |d.lines|
      ensures LineOk(d.lines[k], k, LastTag(d.history, k), memory[addr := value], params)
    {
      assert LineOk(c.lines[k], k, LastTag(c.history, k), memory, params);
      if LastTag(c.history, k).Some? {
        BlockAfterStore(memory, addr, value, Slot(k, LastTag(c.history, k).value), params);
      }
    }
  }

  /** The byte an access finds at the offset of its address is the byte in memory. */
  lemma ByteInBlock(memory: Memory, addr: nat, params: LineParams)
    requires params.Ok() && addr < ADDRESSES
    ensures var s := SlotOf(addr, params);
            && s.tag < NumTags(params) && s.index < NumLines(params)
            && GetLineOffset(addr, params) < BlockSize(params)
            && BlockOf(memory, s, params)[GetLineOffset(addr, params)] == memory[addr]
  {
    var s, offset := SlotOf(addr, params), GetLineOffset(addr, params);
    PartsInRange(addr, params);
    AddressRebuilt(addr, params);
    BlockByte(memory, s, offset, params);
    assert BlockOf(memory, s, params)[offset] == memory[BlockBase(s.tag, s.index, params) + offset];
    assert BlockBase(s.tag, s.index, params) + offset == addr;
  }

  /** Subtracting the offset from an address gives the start of its block. */
  lemma BlockStart(addr: nat, params: LineParams) returns (s: Slot, base: nat)
    requires params.Ok() && addr < ADDRESSES
    ensures s == SlotOf(addr, params) && s.tag < NumTags(params) && s.index < NumLines(params)
    ensures base + GetLineOffset(addr, params) == addr
    ensures base == BlockBase(s.tag, s.index, params)
  {
    var tag, index, offset;
    tag, index, offset, base := Split(addr, params);
    s := Slot(index, tag);
  }

  lemma BlockFrom(memory: Memory, s: Slot, base: nat, params: LineParams) returns (block: seq<Byte>)
    requires params.Ok() && s.tag < NumTags(params) && s.index < NumLines(params)
    requires base == BlockBase(s.tag, s.index, params)
    ensures base + BlockSize(params) <= ADDRESSES
    ensures block == BlockOf(memory, s, params) == memory[base..base + BlockSize(params)]
  {
    BlockInMemory(s.tag, s.index, params);
    block := BlockOf(memory, s, params);
  }

  // ----- whole histories -----

  /** After any accesses: hits and misses make up all accesses; misses minus evictions is the number of
      lines in use, which is at most the number of lines. */
  lemma CoherentCounters(c: CacheState, memory: Memory, params: LineParams)
    requires Coherent(c, memory, params)
    ensures c.hits + c.misses == |c.history|
    ensures c.misses - c.evictions == |InUse(c)| <= NumLines(params)
  {
    CounterLaw(c.history);
    LinesInUse(c.history, Slot(0, 0), NumLines(params));
    assert InUse(c) == Touched(c.history) by {
      forall k: nat ensures k in InUse(c) <==> k in Touched(c.history) {
        TouchedIffLastTag(c.history, k);
        if k < |c.lines| {
          assert LineOk(c.lines[k], k, LastTag(c.history, k), memory, params);
        }
      }
    }
  }

  ghost function InUse(c: CacheState): set<nat> {
    set k | 0 <= k < |c.lines| && c.lines[k].Holding?
  }

  /** A program that goes through the cache. */
  datatype Op = LoadOp(addr: nat) | StoreOp(addr: nat, value: Byte)

  /** The line indexes and tags of a program's addresses, in order. */
  function Slots(ops: seq<Op>, params: LineParams): (slots: seq<Slot>)
    requires params.Ok() && forall i :: 0 <= i < |ops| ==> ops[i].addr < ADDRESSES
    ensures |slots| == |ops| && forall i :: 0 <= i < |ops| ==> slots[i] == SlotOf(ops[i].addr, params)
  {
    seq(|ops|, i requires 0 <= i < |ops| => SlotOf(ops[i].addr, params))
  }

  /** The memory the program leaves when it bypasses the cache. */
  function DirectMemory(memory: Memory, ops: seq<Op>): Memory
    requires forall i :: 0 <= i < |ops| ==> ops[i].addr < ADDRESSES
  {
    if ops == [] then memory
    else
      var before := DirectMemory(memory, ops[..|ops| - 1]);
      var op := ops[|ops| - 1];
      if op.LoadOp? then before else before[op.addr := op.value]
  }

  /** The bytes its loads return then. */
  function DirectLoads(memory: Memory, ops: seq<Op>): seq<Byte>
    requires forall i :: 0 <= i < |ops| ==> ops[i].addr < ADDRESSES
  {
    if ops == [] then []
    else
      var front, op := ops[..|ops| - 1], ops[|ops| - 1];
      DirectLoads(memory, front) + if op.LoadOp? then [DirectMemory(memory, front)[op.addr]] else []
  }

  datatype Outcome = Outcome(cache: CacheState, memory: Memory, loads: seq<Byte>)

  /** One load or store through the cache. */
  ghost function OneOp(o: Outcome, op: Op, params: LineParams): (r: Outcome)
    requires Coherent(o.cache, o.memory, params) && op.addr < ADDRESSES
    ensures Coherent(r.cache, r.memory, params)
  {
    var s, offset := SlotOf(op.addr, params), GetLineOffset(op.addr, params);
    ByteInBlock(o.memory, op.addr, params);
    AccessedCoherent(o.cache, o.memory, s, params);
    var c := Accessed(o.cache, o.memory, s, params);
    if op.LoadOp? then Outcome(c, o.memory, o.loads + [c.lines[s.index].block[offset]])
    else
      Append(o.cache.history, s, s.index);
      WrittenCoherent(c, o.memory, op.addr, op.value, params);
      Outcome(Written(c, s, offset, op.value), o.memory[op.addr := op.value], o.loads)
  }

  ghost function ThroughCache(c: CacheState, memory: Memory, ops: seq<Op>, params: LineParams): (r: Outcome)
    requires Coherent(c, memory, params)
    requires forall i :: 0 <= i < |ops| ==> ops[i].addr < ADDRESSES
    ensures Coherent(r.cache, r.memory, params)
  {
    if ops == [] then Outcome(c, memory, [])
    else OneOp(ThroughCache(c, memory, ops[..|ops| - 1], params), ops[|ops| - 1], params)
  }

  /** Any program leaves the same memory and loads the same bytes with the cache as without it. */
  lemma {:induction false} CacheIsTransparent(c: CacheState, memory: Memory, ops: seq<Op>, params: LineParams)
    requires Coherent(c, memory, params)
    requires forall i :: 0 <= i < |ops| ==> ops[i].addr < ADDRESSES
    ensures var o := ThroughCache(c, memory, ops, params);
            && o.memory == DirectMemory(memory, ops)
            && o.loads == DirectLoads(memory, ops)
  {
    if ops != [] {
      var front, op := ops[..|ops| - 1], ops[|ops| - 1];
      CacheIsTransparent(c, memory, front, params);
      var o := ThroughCache(c, memory, front, params);
      ByteInBlock(o.memory, op.addr, params);
      AccessedCoherent(o.cache, o.memory, SlotOf(op.addr, params), params);
    }
  }

  lemma OneOpHistory(o: Outcome, op: Op, params: LineParams)
    requires Coherent(o.cache, o.memory, params) && op.addr < ADDRESSES
    ensures OneOp(o, op, params).cache.history == o.cache.history + [SlotOf(op.addr, params)]
  {
    ByteInBlock(o.memory, op.addr, params);
  }

  /** A program accesses exactly the slots of its addresses, so its hits and evictions are those of its
      address sequence. */
  lemma {:induction false} ProgramHistory(c: CacheState, memory: Memory, ops: seq<Op>, params: LineParams)
    requires Coherent(c, memory, params)
    requires forall i :: 0 <= i < |ops| ==> ops[i].addr < ADDRESSES
    ensures var o := ThroughCache(c, memory, ops, params);
            && o.cache.history == c.history + Slots(ops, params)
            && o.cache.hits == Hits(c.history + Slots(ops, params))
            && o.cache.evictions == Evictions(c.history + Slots(ops, params))
  {
    if ops == [] {
      assert c.history + Slots(ops, params) == c.history;
    } else {
      var front, op := ops[..|ops| - 1], ops[|ops| - 1];
      ProgramHistory(c, memory, front, params);
      OneOpHistory(ThroughCache(c, memory, front, params), op, params);
      SlotsSnoc(ops, params);
      assert c.history + Slots(ops, params) == (c.history + Slots(front, params)) + [SlotOf(op.addr, params)];
    }
  }

  lemma SlotsSnoc(ops: seq<Op>, params: LineParams)
    requires params.Ok() && ops != [] && forall i :: 0 <= i < |ops| ==> ops[i].addr < ADDRESSES
    ensures Slots(ops, params)
            == Slots(ops[..|ops| - 1], params) + [SlotOf(ops[|ops| - 1].addr, params)]
  {
  }

  /** What a program that started with memory m and history h has reached. */
  ghost predicate Reached(m: Memory, h: seq<Slot>, ops: seq<Op>, params: LineParams,
                          now: Memory, loads: seq<Byte>, history: seq<Slot>)
  {
    && params.Ok() && (forall i :: 0 <= i < |ops| ==> ops[i].addr < ADDRESSES)
    && now == DirectMemory(m, ops)
    && loads == DirectLoads(m, ops)
    && history == h + Slots(ops, params)
  }

  lemma ReachedStep(m: Memory, h: seq<Slot>, ops: seq<Op>, op: Op, params: LineParams,
                    now: Memory, loads: seq<Byte>, history: seq<Slot>)
    requires Reached(m, h, ops, params, now, loads, history) && op.addr < ADDRESSES
    ensures var slots := history + [SlotOf(op.addr, params)];
            if op.LoadOp? then Reached(m, h, ops + [op], params, now, loads + [now[op.addr]], slots)
            else Reached(m, h, ops + [op], params, now[op.addr := op.value], loads, slots)
  {
    var more := ops + [op];
    assert more[..|more| - 1] == ops;
    SlotsSnoc(more, params);
    assert h + Slots(more, params) == (h + Slots(ops, params)) + [SlotOf(op.addr, params)];
  }
}
