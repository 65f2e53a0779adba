/** The cache as the program keeps it: an array of lines with blocks of bytes, and counters, changed in
    place, with every method proved against the value-level cache. */
module CacheClass {
  import opened PowersOfTwo
  import opened CacheAddress
  import opened CacheHistory
  import opened CacheModel

  class CacheLine {
    const block: array<Byte>
    var tag: nat
    var valid: bool

    /** `make_line`; the bytes of the new block are arbitrary. */
    constructor (blockSize: nat)
      ensures block.Length == blockSize && fresh(block) && !valid && tag == 0
    {
      block := new Byte[blockSize];
      tag := 0;
      valid := false;
    }

    ghost predicate Represents(line: Line)
      reads this, block
    {
      match line
      case Unused => !valid
      case Holding(t, bytes) => valid && tag == t && block[..] == bytes
    }
  }

  class Cache {
    const params: LineParams
    const lines: seq<CacheLine>
    var hits: nat
    var misses: nat
    var evictions: nat
    ghost var contents: seq<Line>
    ghost var history: seq<Slot>
    ghost const Repr: set<object>

    ghost predicate Shape() {
      && params.Ok()
      && this in Repr
      && |lines| == NumLines(params)
      && (forall k :: 0 <= k < |lines| ==>
            lines[k] in Repr && lines[k].block in Repr && lines[k].block.Length == BlockSize(params))
      && (forall j, k :: 0 <= j < k < |lines| ==> lines[j] != lines[k] && lines[j].block != lines[k].block)
    }

    ghost predicate Valid()
      reads this, Repr
    {
      && Shape()
      && |contents| == |lines|
      && forall k :: 0 <= k < |lines| ==> lines[k].Represents(contents[k])
    }

    ghost function Snapshot(): CacheState
      reads this
    {
      CacheState(contents, hits, misses, evictions, history)
    }

    /** The cache is well formed and its contents agree with this memory. */
    ghost predicate Serves(memory: array<Byte>)
      reads this, Repr, memory
    {
      Valid() && memory.Length == ADDRESSES && memory !in Repr && Coherent(Snapshot(), memory[..], params)
    }

    /** `make_cache` */
    constructor (params: LineParams)
      requires params.Ok()
      ensures Valid() && fresh(Repr)
      ensures this.params == params && Snapshot() == Empty(params)
    {
      var made: seq<CacheLine> := [];
      for i := 0 to NumLines(params)
        invariant |made| == i
        invariant forall k :: 0 <= k < i ==> fresh(made[k]) && fresh(made[k].block) && !made[k].valid
        invariant forall k :: 0 <= k < i ==> made[k].block.Length == BlockSize(params)
        invariant forall j, k :: 0 <= j < k < i ==> made[j] != made[k] && made[j].block != made[k].block
      {
        var line := new CacheLine(BlockSize(params));
        made := made + [line];
      }
      this.params := params;
      lines := made;
      hits := 0;
      misses := 0;
      evictions := 0;
      contents := seq(NumLines(params), _ => Unused);
      history := [];
      Repr := {this} + (set k | 0 <= k < |made| :: made[k]) + (set k | 0 <= k < |made| :: made[k].block);
    }

    /** Copies the block at `base` from memory into a line. */
    method FillLine(index: nat, tag: nat, base: nat, memory: array<Byte>, ghost bytes: seq<Byte>)
      requires Valid() && index < |lines| && memory !in Repr
      requires base + BlockSize(params) <= memory.Length
      requires bytes == memory[..][base..base + BlockSize(params)]
      modifies lines[index], lines[index].block, `contents
      ensures Valid()
      ensures contents == old(contents)[index := Holding(tag, bytes)]
    {
      var line := lines[index];
      line.valid := true;
      line.tag := tag;
      for i := 0 to line.block.Length
        modifies line.block
        invariant forall j :: 0 <= j < i ==> line.block[j] == bytes[j]
      {
        line.block[i] := memory[base + i];
      }
      contents := contents[index := Holding(tag, bytes)];
      assert line.Represents(contents[index]);
    }

    /** Brings the block of `addr` into its line, counting a hit, a miss or a miss with an eviction. */
    method Access(addr: nat, memory: array<Byte>)
      requires Valid() && memory.Length == ADDRESSES && memory !in Repr && addr < ADDRESSES
      modifies Repr
      ensures Valid() && SlotOf(addr, params).tag < NumTags(params) && SlotOf(addr, params).index < |lines|
      ensures Snapshot() == Accessed(old(Snapshot()), memory[..], SlotOf(addr, params), params)
    {
      var tag := GetTag(addr, params);
      var index := GetLineIndex(addr, params);
      ghost var s, base := BlockStart(addr, params);
      ghost var bytes := BlockFrom(memory[..], s, base, params);
      var line := lines[index];
      assert line.Represents(contents[index]);
      if line.valid && line.tag == tag {
        hits := hits + 1;
      } else {
        misses := misses + 1;
        if line.valid {
          evictions := evictions + 1;
        }
        var offset := GetLineOffset(addr, params);
        FillLine(index, tag, addr - offset, memory, bytes);
      }
      history := history + [Slot(index, tag)];
    }

    /** The byte at `addr`, through the cache: always the byte in memory. */
    method Load(addr: nat, memory: array<Byte>) returns (value: Byte)
      requires Serves(memory) && addr < ADDRESSES
      modifies Repr
      ensures Serves(memory)
      ensures Outcome(Snapshot(), memory[..], [value])
              == OneOp(Outcome(old(Snapshot()), memory[..], []), LoadOp(addr), params)
      ensures value == memory[addr]
      ensures history == old(history) + [SlotOf(addr, params)]
    {
      ByteInBlock(memory[..], addr, params);
      AccessedCoherent(Snapshot(), memory[..], SlotOf(addr, params), params);
      Access(addr, memory);
      var lineIndex := GetLineIndex(addr, params);
      var lineOffset := GetLineOffset(addr, params);
      assert lines[lineIndex].Represents(contents[lineIndex]);
      value := lines[lineIndex].block[lineOffset];
    }

    method WriteByte(index: nat, offset: nat, value: Byte)
      requires Valid() && index < |lines| && offset < BlockSize(params) && contents[index].Holding?
      modifies lines[index].block, `contents
      ensures Valid()
      ensures contents
              == old(contents)[index := old(contents)[index].(block := old(contents)[index].block[offset := value])]
    {
      var line := lines[index];
      assert line.Represents(contents[index]);
      line.block[offset] := value;
      contents := contents[index := contents[index].(block := contents[index].block[offset := value])];
      assert line.Represents(contents[index]);
    }

    /** An access that also writes the byte in the line. */
    method AccessAndWrite(addr: nat, value: Byte, memory: array<Byte>)
      requires Serves(memory) && addr < ADDRESSES
      modifies Repr
      ensures Valid()
      ensures Snapshot()
              == OneOp(Outcome(old(Snapshot()), memory[..], []), StoreOp(addr, value), params).cache
    {
      ByteInBlock(memory[..], addr, params);
      AccessedCoherent(Snapshot(), memory[..], SlotOf(addr, params), params);
      Access(addr, memory);
      var lineIndex := GetLineIndex(addr, params);
      var lineOffset := GetLineOffset(addr, params);
      WriteByte(lineIndex, lineOffset, value);
    }

    /** Writes the byte to its line and through to memory. */
    method Store(addr: nat, value: Byte, memory: array<Byte>)
      requires Serves(memory) && addr < ADDRESSES
      modifies Repr, memory
      ensures Serves(memory)
      ensures Outcome(Snapshot(), memory[..], [])
              == OneOp(Outcome(old(Snapshot()), old(memory[..]), []), StoreOp(addr, value), params)
      ensures memory[..] == old(memory[..])[addr := value]
      ensures history == old(history) + [SlotOf(addr, params)]
    {
      ghost var m: Memory := memory[..];
      ghost var after := OneOp(Outcome(Snapshot(), m, []), StoreOp(addr, value), params);
      AccessAndWrite(addr, value, memory);
      memory[addr] := value;
      assert memory[..] == m[addr := value];
      assert Snapshot() == after.cache;
    }
  }

  /** Any sequence of loads and stores through the cache returns the bytes, and leaves the memory, of
      direct access. */
  method RunProgram(cache: Cache, memory: array<Byte>, ops: seq<Op>) returns (loads: seq<Byte>)
    requires cache.Serves(memory) && forall i :: 0 <= i < |ops| ==> ops[i].addr < ADDRESSES
    modifies cache.Repr, memory
    ensures cache.Serves(memory)
    ensures memory[..] == DirectMemory(old(memory[..]), ops)
    ensures loads == DirectLoads(old(memory[..]), ops)
    ensures cache.history == old(cache.history) + Slots(ops, cache.params)
    ensures cache.hits == Hits(cache.history) && cache.evictions == Evictions(cache.history)
  {
    ghost var m: Memory := memory[..];
    loads := [];
    assert cache.history + Slots([], cache.params) == cache.history;
    for i := 0 to |ops|
      invariant cache.Serves(memory)
      invariant Reached(m, old(cache.history), ops[..i], cache.params, memory[..], loads, cache.history)
    {
      ReachedStep(m, old(cache.history), ops[..i], ops[i], cache.params, memory[..], loads, cache.history);
      assert ops[..i + 1] == ops[..i] + [ops[i]];
      match ops[i]
      case LoadOp(addr) =>
        var value := cache.Load(addr, memory);
        loads := loads + [value];
      case StoreOp(addr, value) =>
        cache.Store(addr, value, memory);
    }
    assert ops[..|ops|] == ops;
  }
}
