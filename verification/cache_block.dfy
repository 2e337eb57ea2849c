/** One line of the direct-mapped cache. Unlike a textbook cache line, a block may start at
    any address: `base` records where its `blockSize` bytes come from. */
module CacheBlocks {
  import opened JavaInt

  datatype CacheBlock = CacheBlock(data: seq<Byte>, tag: int, valid: bool, dirty: bool, base: int, blockSize: int)

  function Zeros(n: nat): (r: seq<Byte>)
    ensures |r| == n && forall i :: 0 <= i < n ==> r[i] == 0
  {
    seq(n, _ => 0)
  }

  /** The byte array always has the block's length. */
  predicate WellFormed(b: CacheBlock) {
    b.blockSize >= 0 && |b.data| == b.blockSize
  }

  /** `new CacheBlock(blockSize)`; a negative size is the source's `NegativeArraySizeException`. */
  function New(blockSize: int): (b: CacheBlock)
    requires blockSize >= 0
    ensures WellFormed(b)
  {
    CacheBlock(Zeros(blockSize), -1, false, false, 0, blockSize)
  }

  /** `setData`: the first bytes are replaced by `d`, as many as fit; the length never changes. */
  function SetData(b: CacheBlock, d: seq<Byte>): (r: CacheBlock)
    requires WellFormed(b)
    ensures WellFormed(r) && r == b.(data := r.data)
    ensures forall k :: 0 <= k < b.blockSize ==> r.data[k] == if k < |d| then d[k] else b.data[k]
  {
    if |d| == b.blockSize then b.(data := d)
    else if |d| < b.blockSize then b.(data := d + b.data[|d|..])
    else b.(data := d[..b.blockSize])
  }

  /** `readByte`: zero outside the block. */
  function ReadByte(b: CacheBlock, offset: int): Byte
    requires WellFormed(b)
  {
    if 0 <= offset < b.blockSize then b.data[offset] else 0
  }

  /** `writeByte`: ignored outside the block. */
  function WriteByte(b: CacheBlock, offset: int, v: Byte): (r: CacheBlock)
    requires WellFormed(b)
    ensures WellFormed(r) && r == b.(data := r.data)
    ensures forall k :: 0 <= k < b.blockSize ==> ReadByte(r, k) == if k == offset then v else ReadByte(b, k)
  {
    if 0 <= offset < b.blockSize then b.(data := b.data[offset := v]) else b
  }

  /** `writeBytes`: `values` is copied in from `offset`, cut off at the end of the block.
      A negative offset with something to write indexes before the array and raises in the source. */
  function WriteBytes(b: CacheBlock, offset: int, values: seq<Byte>): (r: CacheBlock)
    requires WellFormed(b)
    requires 0 <= offset || |values| == 0
    ensures WellFormed(r) && r == b.(data := r.data)
    ensures forall k :: 0 <= k < b.blockSize ==>
      r.data[k] == if offset <= k < offset + |values| then values[k - offset] else b.data[k]
  {
    if |values| == 0 || offset >= b.blockSize then b
    else
      var n := Min(|values|, b.blockSize - offset);
      b.(data := b.data[..offset] + values[..n] + b.data[offset + n..])
  }

  /** `readBytes`: the bytes from `offset` up to `length` of them or the end of the block,
      whichever comes first; nothing at all if that leaves no bytes. */
  function ReadBytes(b: CacheBlock, offset: int, length: int): (r: seq<Byte>)
    requires WellFormed(b)
    requires 0 <= offset || Min(length, b.blockSize - offset) <= 0
    ensures |r| == Max(0, Min(length, b.blockSize - offset))
    ensures forall k :: 0 <= k < |r| ==> r[k] == b.data[offset + k]
  {
    var n := Min(length, b.blockSize - offset);
    if n <= 0 then [] else b.data[offset..offset + n]
  }

  /** `clear`: zero bytes, no tag, invalid, clean, based at address zero. */
  function Clear(b: CacheBlock): (r: CacheBlock)
    requires WellFormed(b)
    ensures r == New(b.blockSize)
  {
    CacheBlock(Zeros(b.blockSize), -1, false, false, 0, b.blockSize)
  }

  /** Reading back what was written, when it fits in the block, gives exactly the written bytes. */
  lemma {:induction false} ReadAfterWrite(b: CacheBlock, offset: int, values: seq<Byte>)
    requires WellFormed(b) && 0 <= offset && offset + |values| <= b.blockSize
    ensures ReadBytes(WriteBytes(b, offset, values), offset, |values|) == values
  {
    var r := WriteBytes(b, offset, values);
    var got := ReadBytes(r, offset, |values|);
    assert |got| == |values|;
    forall k | 0 <= k < |values|
      ensures got[k] == values[k]
    {
      assert got[k] == r.data[offset + k];
    }
  }

  /** A block fresh from the constructor (or from `clear`) reads zero everywhere. */
  lemma NewBlockReadsZero(blockSize: int, offset: int)
    requires blockSize >= 0
    ensures ReadByte(New(blockSize), offset) == 0
    ensures !New(blockSize).valid && !New(blockSize).dirty
  {}
}
