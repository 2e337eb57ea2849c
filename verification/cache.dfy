/** The data cache in front of a 64 KiB byte-addressed memory: direct-mapped, write-back and
    write-allocate. A miss refills the indexed block starting exactly at the requested address. */
module Caches {
  import opened Wrappers
  import opened JavaInt
  import CB = CacheBlocks
  import ByteCodec

  const MEMORY_SIZE: nat := 65536

  datatype Cache = Cache(
    blocks: seq<CB.CacheBlock>,
    cacheSize: int,
    blockSize: int,
    numBlocks: int,
    hitLatency: int,
    missPenalty: int,
    memory: seq<Byte>,
    hits: int,
    misses: int)

  /** What an access reports; `data` is absent for stores and probes. */
  datatype CacheResult = CacheResult(hit: bool, latency: int, data: Option<seq<Byte>>)

  predicate BlockFits(c: Cache, b: CB.CacheBlock) {
    CB.WellFormed(b) && b.blockSize == c.blockSize && b.base >= 0
  }

  /** The shape every operation keeps: a non-zero block size, one block per index, each block
      `blockSize` bytes long and based at a non-negative address. A cache built with fewer
      bytes than one block has no blocks at all (and then any block size but zero). */
  predicate Valid(c: Cache) {
    && c.blockSize != 0
    && c.numBlocks >= 0
    && (c.numBlocks > 0 ==> c.blockSize > 0)
    && |c.blocks| == c.numBlocks
    && (forall i :: 0 <= i < |c.blocks| ==> BlockFits(c, c.blocks[i]))
  }

  /** A cache `getCacheIndex` can be applied to: on a cache without blocks its remainder by
      `numBlocks` divides by zero. */
  predicate Indexable(c: Cache) {
    Valid(c) && c.numBlocks > 0
  }

  /** The memory byte at `address`; addresses past the end read as zero. */
  function MemByte(memory: seq<Byte>, address: int): Byte {
    if 0 <= address < |memory| then memory[address] else 0
  }

  /** Why the constructor throws: `cacheSize / blockSize` divides by zero, or an array of
      blocks or of bytes would have a negative length. */
  datatype CacheFault = ZeroBlockSize | NegativeArraySize

  /** The constructor: `cacheSize / blockSize` blocks of `blockSize` zero bytes, all invalid,
      in front of a zeroed memory. */
  function New(cacheSize: int, blockSize: int, hitLatency: int, missPenalty: int): (r: Result<Cache, CacheFault>)
    ensures blockSize == 0 <==> r == Failure(ZeroBlockSize)
    ensures r.Failure? <==> blockSize == 0 || Quot(cacheSize, blockSize) < 0 || (Quot(cacheSize, blockSize) > 0 && blockSize < 0)
    ensures r.Success? ==>
      var c := r.value;
      && Valid(c) && c.hits == 0 && c.misses == 0
      && c.numBlocks == Quot(cacheSize, blockSize) && c.blockSize == blockSize
      && |c.memory| == MEMORY_SIZE && (forall a :: MemByte(c.memory, a) == 0)
      && (forall i :: 0 <= i < |c.blocks| ==> !c.blocks[i].valid)
    ensures r.Success? ==> (Indexable(r.value) <==> 0 < blockSize <= cacheSize)
  {
    if blockSize == 0 then Failure(ZeroBlockSize)
    else
      var n := Quot(cacheSize, blockSize);
      if n < 0 || (n > 0 && blockSize < 0) then Failure(NegativeArraySize)
      else
        QuotPositive(cacheSize, blockSize);
        var blocks := if n == 0 then [] else seq(n, _ => CB.New(blockSize));
        Success(Cache(blocks, cacheSize, blockSize, n, hitLatency, missPenalty, CB.Zeros(MEMORY_SIZE), 0, 0))
  }

  /** `getCacheIndex`: the block number modulo the number of blocks, with Java's signed
      division and remainder, folded back into range for negative addresses. */
  function Index(c: Cache, address: int): (i: nat)
    requires c.blockSize > 0 && c.numBlocks > 0
    ensures i < c.numBlocks
    ensures address >= 0 ==> i == (address / c.blockSize) % c.numBlocks
  {
    var blockNumber := Quot(address, c.blockSize);
    var idx := Rem(blockNumber, c.numBlocks);
    if address >= 0 then
      QuotOfNonNegative(address, c.blockSize);
      QuotOfNonNegative(blockNumber, c.numBlocks);
      idx
    else if idx < 0 then idx + c.numBlocks
    else idx
  }

  /** `computeTag`: the block number divided by the number of blocks. */
  function ComputeTag(c: Cache, address: int): int
    requires c.blockSize > 0 && c.numBlocks > 0
  {
    Quot(Quot(address, c.blockSize), c.numBlocks)
  }

  /** The hit test every access uses: the indexed block is valid, starts at or below the
      address, and its end is not below the access's end, both ends being 32-bit sums. */
  predicate Covers(b: CB.CacheBlock, address: int, size: int) {
    b.valid && address >= b.base && Wrap32(address + size) <= Wrap32(b.base + b.blockSize)
  }

  predicate Hit(c: Cache, address: int, size: int)
    requires Indexable(c)
  {
    Covers(c.blocks[Index(c, address)], address, size)
  }

  /** The refill buffer: `blockSize` bytes of memory from `address`, zero past the end of memory. */
  function Fill(memory: seq<Byte>, address: int, blockSize: nat): (r: seq<Byte>)
    requires address >= 0
    ensures |r| == blockSize
    ensures forall k :: 0 <= k < blockSize ==> r[k] == MemByte(memory, address + k)
  {
    var len := Min(blockSize, |memory| - address);
    if len > 0 then memory[address..address + len] + CB.Zeros(blockSize - len)
    else CB.Zeros(blockSize)
  }

  /** `writeBackIfDirty`: a valid dirty block copies itself to memory at its base (as much as
      fits) and becomes clean; otherwise nothing happens. */
  function WriteBackIfDirty(c: Cache, i: nat): (r: Cache)
    requires Valid(c) && i < |c.blocks|
    ensures Valid(r) && |r.memory| == |c.memory|
    ensures r == c.(memory := r.memory, blocks := r.blocks)
    ensures !(c.blocks[i].valid && c.blocks[i].dirty) ==> r == c
    ensures c.blocks[i].valid && c.blocks[i].dirty ==>
      && r.blocks == c.blocks[i := c.blocks[i].(dirty := false)]
      && forall k :: 0 <= k < |c.memory| ==>
           r.memory[k] == if c.blocks[i].base <= k < c.blocks[i].base + c.blockSize
                          then c.blocks[i].data[k - c.blocks[i].base] else c.memory[k]
  {
    var b := c.blocks[i];
    if !b.valid || !b.dirty then c
    else
      var len := Min(|b.data|, |c.memory| - b.base);
      var memory := if len > 0 then c.memory[..b.base] + b.data[..len] + c.memory[b.base + len..] else c.memory;
      c.(memory := memory, blocks := c.blocks[i := b.(dirty := false)])
  }

  /** The refill that follows a miss: the block takes `blockSize` bytes of memory from
      `address`, becomes valid and clean, and is based at `address`. */
  function Refill(c: Cache, i: nat, address: int): (r: Cache)
    requires Valid(c) && i < |c.blocks| && address >= 0
    ensures Valid(r) && r == c.(blocks := r.blocks) && |r.blocks| == |c.blocks|
    ensures forall j :: 0 <= j < |c.blocks| && j != i ==> r.blocks[j] == c.blocks[j]
    ensures var b := r.blocks[i];
      && b.valid && !b.dirty && b.base == address && b.tag == ComputeTag(c, address)
      && forall k :: 0 <= k < c.blockSize ==> b.data[k] == MemByte(c.memory, address + k)
  {
    var b := CB.SetData(c.blocks[i], Fill(c.memory, address, c.blockSize));
    var b' := b.(tag := ComputeTag(c, address), base := address, valid := true, dirty := false);
    c.(blocks := c.blocks[i := b'])
  }

  /** `load(address, size)`. A hit returns the block's bytes from the address on, zero past the
      block's end; a miss writes the evicted block back if dirty, refills the block from
      `address`, and returns the first bytes of the refill. */
  function Load(c: Cache, address: int, size: int): (out: (Cache, CacheResult))
    requires Indexable(c) && address >= 0 && size >= 0
    ensures Indexable(out.0) && |out.0.memory| == |c.memory| && |out.0.blocks| == |c.blocks|
    ensures out.0.blockSize == c.blockSize && out.0.numBlocks == c.numBlocks
    ensures out.0.hitLatency == c.hitLatency && out.0.missPenalty == c.missPenalty
    ensures out.1.hit == Hit(c, address, size)
    ensures out.1.data.Some? && |out.1.data.value| == size
    ensures forall j :: 0 <= j < |c.blocks| && j != Index(c, address) ==> out.0.blocks[j] == c.blocks[j]
    ensures out.1.hit ==>
      && out.0 == c.(hits := c.hits + 1)
      && out.1.latency == c.hitLatency
      && var b := c.blocks[Index(c, address)];
         forall k :: 0 <= k < size ==> out.1.data.value[k] == CB.ReadByte(b, address - b.base + k)
    ensures !out.1.hit ==>
      && out.0.hits == c.hits && out.0.misses == c.misses + 1
      && out.1.latency == c.missPenalty
      && out.0.memory == WriteBackIfDirty(c, Index(c, address)).memory
      && (forall k :: 0 <= k < size ==>
            out.1.data.value[k] == if k < c.blockSize then MemByte(out.0.memory, address + k) else 0)
      && var b := out.0.blocks[Index(c, address)];
         && b.valid && !b.dirty && b.base == address
         && forall k :: 0 <= k < c.blockSize ==> b.data[k] == MemByte(out.0.memory, address + k)
  {
    var i := Index(c, address);
    var b := c.blocks[i];
    if Covers(b, address, size) then
      var chunk := CB.ReadBytes(b, address - b.base, size);
      (c.(hits := c.hits + 1), CacheResult(true, c.hitLatency, Some(chunk + CB.Zeros(size - |chunk|))))
    else
      var c1 := WriteBackIfDirty(c.(misses := c.misses + 1), i);
      var c2 := Refill(c1, i, address);
      var n := Min(size, c.blockSize);
      var data := c2.blocks[i].data[..n] + CB.Zeros(size - n);
      (c2, CacheResult(false, c.missPenalty, Some(data)))
  }

  /** `probeStore`: the hit/miss outcome and latency a store would see, without changing anything. */
  function ProbeStore(c: Cache, address: int, size: int): (r: CacheResult)
    requires Indexable(c)
    ensures r.hit == Hit(c, address, size) && r.data.None?
    ensures r.latency == if r.hit then c.hitLatency else c.missPenalty
  {
    var b := c.blocks[Index(c, address)];
    if Covers(b, address, size) then CacheResult(true, c.hitLatency, None)
    else CacheResult(false, c.missPenalty, None)
  }

  /** The first half of `store`: a hit only counts; a miss counts, writes the evicted block back
      if dirty, and refills the block from `address` (write-allocate). */
  function Allocate(c: Cache, address: int, size: int): (r: Cache)
    requires Indexable(c) && address >= 0
    ensures Indexable(r) && |r.memory| == |c.memory| && |r.blocks| == |c.blocks|
    ensures r.hitLatency == c.hitLatency && r.missPenalty == c.missPenalty
    ensures r.blockSize == c.blockSize && r.numBlocks == c.numBlocks
    ensures Hit(c, address, size) ==> r == c.(hits := c.hits + 1)
    ensures !Hit(c, address, size) ==>
      && r.memory == WriteBackIfDirty(c, Index(c, address)).memory
      && r.hits == c.hits && r.misses == c.misses + 1
      && r.blocks[Index(c, address)].base == address
    ensures forall j :: 0 <= j < |c.blocks| && j != Index(c, address) ==> r.blocks[j] == c.blocks[j]
    ensures r.blocks[Index(c, address)].valid
    ensures address >= r.blocks[Index(c, address)].base
  {
    var i := Index(c, address);
    if Covers(c.blocks[i], address, size) then c.(hits := c.hits + 1)
    else Refill(WriteBackIfDirty(c.(misses := c.misses + 1), i), i, address)
  }

  /** `store(address, data)`: a miss allocates the block as a load miss would; then the bytes go
      into the block, which becomes dirty. Memory is only written by the eviction. */
  function Store(c: Cache, address: int, data: seq<Byte>): (out: (Cache, CacheResult))
    requires Indexable(c) && address >= 0
    ensures Indexable(out.0) && |out.0.memory| == |c.memory| && |out.0.blocks| == |c.blocks|
    ensures out.0.hitLatency == c.hitLatency && out.0.missPenalty == c.missPenalty
    ensures out.0.blockSize == c.blockSize && out.0.numBlocks == c.numBlocks
    ensures out.1 == ProbeStore(c, address, |data|)
    ensures out.1.hit ==> out.0.memory == c.memory && out.0.hits == c.hits + 1 && out.0.misses == c.misses
    ensures !out.1.hit ==>
      out.0.memory == WriteBackIfDirty(c, Index(c, address)).memory
      && out.0.hits == c.hits && out.0.misses == c.misses + 1
    ensures forall j :: 0 <= j < |c.blocks| && j != Index(c, address) ==> out.0.blocks[j] == c.blocks[j]
    ensures Stored(c, out.0.blocks[Index(c, address)], address, data, out.1.hit)
  {
    var i := Index(c, address);
    var c1 := Allocate(c, address, |data|);
    var b := c1.blocks[i];
    var b' := CB.WriteBytes(b, address - b.base, data).(dirty := true);
    StoreIntoBlock(c, address, data);
    var c2 := c1.(blocks := c1.blocks[i := b']);
    ReplaceBlockValid(c1, i, b');
    (c2, ProbeStore(c, address, |data|))
  }

  /** The allocated block, written with the data and marked dirty, is what `Stored` describes. */
  lemma StoreIntoBlock(c: Cache, address: int, data: seq<Byte>)
    requires Indexable(c) && address >= 0
    ensures var c1 := Allocate(c, address, |data|);
            var b := c1.blocks[Index(c, address)];
            var b' := CB.WriteBytes(b, address - b.base, data).(dirty := true);
            BlockFits(c1, b') && Stored(c, b', address, data, Hit(c, address, |data|))
  {
    var c1 := Allocate(c, address, |data|);
    var b := c1.blocks[Index(c, address)];
    assert BlockFits(c1, b);
  }

  /** Putting a block that fits in place of another keeps the cache valid. */
  lemma ReplaceBlockValid(c: Cache, i: int, b: CB.CacheBlock)
    requires Valid(c) && 0 <= i < |c.blocks| && BlockFits(c, b)
    ensures Valid(c.(blocks := c.blocks[i := b]))
  {
    var c2 := c.(blocks := c.blocks[i := b]);
    forall j | 0 <= j < |c2.blocks|
      ensures BlockFits(c2, c2.blocks[j])
    {
      if j != i { assert c2.blocks[j] == c.blocks[j]; }
    }
  }

  /** What a store leaves in the indexed block: valid and dirty, based where the old block was on
      a hit and at the store address on a miss, still passing the hit test on a hit, and holding
      the stored bytes that fit. */
  predicate Stored(c: Cache, b: CB.CacheBlock, address: int, data: seq<Byte>, hit: bool)
    requires Indexable(c)
  {
    && CB.WellFormed(b) && b.blockSize == c.blockSize
    && b.valid && b.dirty
    && b.base == (if hit then c.blocks[Index(c, address)].base else address)
    && (hit ==> Covers(b, address, |data|))
    && address >= b.base
    && forall k :: 0 <= k < |data| && address - b.base + k < c.blockSize ==>
         b.data[address - b.base + k] == data[k]
  }

  /** `writeMemory`: bytes are copied from `address` until either runs out; a negative address
      with something to write indexes before the array and raises in the source. */
  function WriteMemory(c: Cache, address: int, data: seq<Byte>): (r: Cache)
    requires address >= 0 || |data| == 0
    ensures r == c.(memory := r.memory) && |r.memory| == |c.memory|
    ensures forall k :: 0 <= k < |c.memory| ==>
      r.memory[k] == if address <= k < address + |data| then data[k - address] else c.memory[k]
  {
    if |data| == 0 || address >= |c.memory| then c
    else
      var n := Min(|data|, |c.memory| - address);
      c.(memory := c.memory[..address] + data[..n] + c.memory[address + n..])
  }

  /** `readMemory`: `size` bytes from `address`, zero past the end of memory. */
  function ReadMemory(c: Cache, address: int, size: int): (r: seq<Byte>)
    requires size >= 0 && (address >= 0 || size == 0)
    ensures |r| == size
    ensures forall k :: 0 <= k < size ==> r[k] == MemByte(c.memory, address + k)
  {
    seq(size, k requires 0 <= k < size => MemByte(c.memory, address + k))
  }

  /** `initializeMemory`: an address outside memory is ignored; otherwise the value, narrowed to
      a long, is written little-endian over `size` bytes. */
  function InitializeMemory(c: Cache, address: int, value: int, size: int): (r: Cache)
    requires size >= 0
    ensures r == c.(memory := r.memory) && |r.memory| == |c.memory|
    ensures !(0 <= address < |c.memory|) ==> r == c
    ensures 0 <= address < |c.memory| ==> r == WriteMemory(c, address, ByteCodec.Encode(value, size))
  {
    if address < 0 || address >= |c.memory| then c
    else WriteMemory(c, address, ByteCodec.Encode(value, size))
  }

  /** `reset`: every block is cleared and the counters zeroed; memory keeps its contents. */
  function Reset(c: Cache): (r: Cache)
    requires Valid(c)
    ensures Valid(r) && r.memory == c.memory && r.hits == 0 && r.misses == 0
    ensures |r.blocks| == |c.blocks| && forall i :: 0 <= i < |r.blocks| ==> r.blocks[i] == CB.New(c.blockSize)
  {
    c.(blocks := seq(|c.blocks|, i requires 0 <= i < |c.blocks| => CB.Clear(c.blocks[i])), hits := 0, misses := 0)
  }

  /** `resetMemory`: every memory byte becomes zero; the blocks are untouched. */
  function ResetMemory(c: Cache): (r: Cache)
    ensures r == c.(memory := r.memory) && |r.memory| == |c.memory|
    ensures forall a :: MemByte(r.memory, a) == 0
  {
    c.(memory := CB.Zeros(|c.memory|))
  }

  /** A load right after a store of at most one block, at the same address and size, hits and
      returns exactly the stored bytes, although memory has not been written. Near `INT_MAX`
      this fails: a block whose end passes `INT_MAX` wraps to a negative end and never hits. */
  lemma {:induction false} StoreThenLoad(c: Cache, address: int, data: seq<Byte>)
    requires Indexable(c) && address >= 0 && |data| <= c.blockSize && address + c.blockSize <= INT_MAX
    ensures var c1 := Store(c, address, data).0;
            Load(c1, address, |data|).1 == CacheResult(true, c.hitLatency, Some(data))
  {
    var c1 := Store(c, address, data).0;
    var i := Index(c, address);
    assert Index(c1, address) == i;
    var b := c1.blocks[i];
    assert Covers(b, address, |data|);
    var r := Load(c1, address, |data|).1;
    assert r.hit;
    forall k | 0 <= k < |data|
      ensures r.data.value[k] == data[k]
    {
      assert r.data.value[k] == b.data[address - b.base + k];
    }
    assert r.data.value == data;
    assert r.latency == c1.hitLatency == c.hitLatency;
  }

  /** The probe a store's latency is computed from agrees with the access itself: the same hit or
      miss and the same latency as the load or store that follows on the unchanged cache. */
  lemma ProbeMatchesAccess(c: Cache, address: int, data: seq<Byte>)
    requires Indexable(c) && address >= 0
    ensures ProbeStore(c, address, |data|) == Store(c, address, data).1
    ensures ProbeStore(c, address, |data|).hit == Load(c, address, |data|).1.hit
    ensures ProbeStore(c, address, |data|).latency == Load(c, address, |data|).1.latency
  {}

  /** A block whose 32-bit end `base + blockSize` passes `INT_MAX` wraps to a negative end, so
      no access at or above its base hits it, even one that lies wholly inside it. */
  lemma BlockEndPastIntMaxNeverHits(b: CB.CacheBlock, address: int, size: int)
    requires 0 <= b.base && 0 <= b.blockSize <= INT_MAX && b.base + b.blockSize > INT_MAX
    requires b.base <= address && size >= 0 && address + size <= INT_MAX
    ensures !Covers(b, address, size)
  {
    WrapAbove(b.base + b.blockSize);
  }

  /** An access whose 32-bit end passes `INT_MAX` wraps to a negative end, so any valid block
      based at or below it whose end fits in an `int` covers it, however short the block. */
  lemma AccessEndPastIntMaxHits(b: CB.CacheBlock, address: int, size: int)
    requires b.valid && 0 <= b.base <= address && 0 <= b.blockSize && b.base + b.blockSize <= INT_MAX
    requires 0 <= size <= INT_MAX && address <= INT_MAX && address + size > INT_MAX
    ensures Covers(b, address, size)
  {
    WrapAbove(address + size);
  }

  /** Bytes written to memory read back unchanged when they fit. */
  lemma {:induction false} ReadAfterWriteMemory(c: Cache, address: int, data: seq<Byte>)
    requires address >= 0 && address + |data| <= |c.memory|
    ensures ReadMemory(WriteMemory(c, address, data), address, |data|) == data
  {
    var r := ReadMemory(WriteMemory(c, address, data), address, |data|);
    forall k | 0 <= k < |data|
      ensures r[k] == data[k]
    {}
  }

  /** An eight-byte value put into memory by `initializeMemory` decodes back to the value the
      simulator's loads see (narrowed to a long), when all eight bytes fit in memory. */
  lemma {:induction false} InitializedValueReadsBack(c: Cache, address: int, value: int)
    requires 0 <= address && address + 8 <= |c.memory|
    ensures ByteCodec.Decode(ReadMemory(InitializeMemory(c, address, value, 8), address, 8), 8) == LongOf(value)
  {
    ReadAfterWriteMemory(c, address, ByteCodec.Encode(value, 8));
    ByteCodec.DecodeEncodeLong(value);
  }
}
