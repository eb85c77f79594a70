/** Reading blocks of a piece into its cache entry, and copying bytes out of it. */
module DiskReads {
  import opened DiskBlocks

  /** Buffer `b`, if there is one, holds block `k` as it is on disk. */
  ghost predicate Mirrors(b: Buffer, size: int, k: int, disk: seq<byte>) {
    && |disk| == size && 0 <= k < BlocksInPiece(size)
    && (b.Data? ==> |b.bytes| == BLOCK_SIZE && b.bytes[..Len(size, k)] == disk[Offset(k)..Offset(k) + Len(size, k)])
  }

  /** Every cached block of the entry is as on disk. */
  ghost predicate Coherent(p: CachedPiece, disk: seq<byte>) {
    Shaped(p) && |disk| == p.size && forall k :: 0 <= k < |p.blocks| ==> Mirrors(p.blocks[k], p.size, k, disk)
  }

  /** Blocks `start..end` have buffers now, the others are as they were. */
  ghost predicate Allocated(blocks: seq<Buffer>, blocks': seq<Buffer>, start: int, end: int) {
    && |blocks'| == |blocks| && 0 <= start <= end <= |blocks|
    && forall k :: 0 <= k < |blocks| ==>
         if start <= k < end then blocks'[k].Data? && |blocks'[k].bytes| == BLOCK_SIZE else blocks'[k] == blocks[k]
  }

  /** Takes buffers for up to `num` blocks from `start` on, for as long as the limit
      on buffers in use allows. `junk` is what a new buffer happens to hold. */
  method AllocateBlocks(p: CachedPiece, start: int, ignoreLimit: bool, num: int, inUse0: int, limit: int, junk: seq<byte>)
    returns (blocks: seq<Buffer>, numBlocks: int, end: int)
    requires Exact(p) && 0 <= start < |p.blocks| && num > 0 && |junk| == BLOCK_SIZE
    ensures Allocated(p.blocks, blocks, start, end) && numBlocks == Count(blocks) && end <= start + num
    ensures numBlocks <= p.numBlocks + end - start
    ensures end == start <==> !ignoreLimit && inUse0 >= limit
    ensures end == |p.blocks| || end == start + num || (!ignoreLimit && inUse0 + numBlocks - p.numBlocks >= limit)
  {
    blocks, numBlocks, end := p.blocks, p.numBlocks, start;
    var inUse := inUse0;
    while end < BlocksInPiece(p.size) && (ignoreLimit || inUse < limit)
      invariant Allocated(p.blocks, blocks, start, end) && numBlocks == Count(blocks) && end < start + num
      invariant inUse == inUse0 + numBlocks - p.numBlocks <= inUse0 + end - start
      invariant if start == end then inUse == inUse0 else ignoreLimit || inUse0 < limit
      decreases |blocks| - end
    {
      CountUpdate(blocks, end, Data(junk));
      if blocks[end].Data? {
        numBlocks, inUse := numBlocks - 1, inUse - 1;
      }
      blocks := blocks[end := Data(junk)];
      numBlocks, inUse := numBlocks + 1, inUse + 1;
      end := end + 1;
      if end - start >= num { break; }
    }
  }

  /** Blocks `start..end` hold what is on disk. */
  ghost predicate Filled(blocks: seq<Buffer>, size: int, disk: seq<byte>, start: int, end: int) {
    && 0 <= start <= end <= |blocks| == BlocksInPiece(size)
    && forall k :: start <= k < end ==> blocks[k].Data? && Mirrors(blocks[k], size, k, disk)
  }

  lemma LenOfBlock(size: int, k: int)
    requires 0 <= k < BlocksInPiece(size)
    ensures 0 < Len(size, k) <= BLOCK_SIZE && Offset(k) + Len(size, k) == End(size, k + 1) <= size
    ensures k + 1 < BlocksInPiece(size) ==> Len(size, k) == BLOCK_SIZE && End(size, k + 1) == Offset(k + 1)
  {
  }

  lemma SliceOfSlice(s: seq<byte>, a: int, b: int, at: int, n: int)
    requires 0 <= a <= b <= |s| && 0 <= at && 0 <= n && a + at + n <= b
    ensures s[a..b][at..at + n] == s[a + at..a + at + n]
  {
    var x, y := s[a..b][at..at + n], s[a + at..a + at + n];
    forall k | 0 <= k < n ensures x[k] == y[k] {
      assert s[a..b][at + k] == s[a + at + k];
    }
  }

  lemma FrontOf(a: seq<byte>, b: seq<byte>)
    ensures (a + b)[..|a|] == a
  {
  }

  /** Distributes the bytes read over the buffers, in order. */
  method FillBlocks(blocks0: seq<Buffer>, size: int, start: int, end: int, buf: seq<byte>, ghost disk: seq<byte>)
    returns (blocks: seq<Buffer>)
    requires 0 <= start < end <= |blocks0| == BlocksInPiece(size) && |disk| == size && 0 < size
    requires forall k :: start <= k < end ==> blocks0[k].Data? && |blocks0[k].bytes| == BLOCK_SIZE
    requires Offset(start) <= End(size, end) <= size && buf == disk[Offset(start)..End(size, end)]
    ensures Filled(blocks, size, disk, start, end) && |blocks| == |blocks0|
    ensures forall k :: 0 <= k < |blocks| && !(start <= k < end) ==> blocks[k] == blocks0[k]
    ensures forall k :: 0 <= k < |blocks| ==> blocks[k].Data? == blocks0[k].Data?
  {
    blocks := blocks0;
    var offset := 0;
    for i := start to end
      invariant |blocks| == |blocks0| && Filled(blocks, size, disk, start, i)
      invariant i < end ==> offset == Offset(i) - Offset(start)
      invariant forall k :: 0 <= k < |blocks| && !(start <= k < i) ==> blocks[k] == blocks0[k]
      invariant forall k :: 0 <= k < |blocks| ==> blocks[k].Data? == blocks0[k].Data?
    {
      LenOfBlock(size, i);
      var len := Len(size, i);
      if i + 1 == end { assert Offset(i) + len == End(size, end); } else { LenOfBlock(size, i + 1); }
      SliceOfSlice(disk, Offset(start), End(size, end), offset, len);
      FrontOf(buf[offset..offset + len], blocks[i].bytes[len..]);
      var b := Data(buf[offset..offset + len] + blocks[i].bytes[len..]);
      assert Mirrors(b, size, i, disk);
      hide Mirrors, End, Len;
      blocks := blocks[i := b];
      offset := offset + len;
    }
  }

  lemma {:induction false} SameCount(a: seq<Buffer>, b: seq<Buffer>)
    requires |a| == |b| && forall k :: 0 <= k < |a| ==> a[k].Data? == b[k].Data?
    ensures Count(a) == Count(b)
  {
    if |a| > 0 { SameCount(a[..|a| - 1], b[..|b| - 1]); }
  }

  /** What a successful read leaves in the entry. */
  ghost predicate Refilled(p: CachedPiece, q: CachedPiece, disk: seq<byte>, start: int, end: int) {
    && |q.blocks| == |p.blocks| && Filled(q.blocks, p.size, disk, start, end)
    && forall k :: 0 <= k < |p.blocks| && !(start <= k < end) ==> q.blocks[k] == p.blocks[k]
  }

  lemma RefilledCoherent(p: CachedPiece, q: CachedPiece, disk: seq<byte>, start: int, end: int)
    requires Coherent(p, disk) && q.size == p.size && Refilled(p, q, disk, start, end)
    ensures Coherent(q, disk)
  {
    hide BlocksInPiece;
    forall k | 0 <= k < |q.blocks| ensures Mirrors(q.blocks[k], q.size, k, disk) {
      assert Mirrors(p.blocks[k], p.size, k, disk);
    }
    assert forall k :: 0 <= k < |q.blocks| ==> Mirrors(q.blocks[k], q.size, k, disk);
  }

  /** Reads up to `num` blocks into the entry. `-1` stands for a failed read, `-2`
      for no buffer to read into; either way the entry ends up without buffers. */
  method ReadIntoPiece(p: CachedPiece, start: int, ignoreLimit: bool, num: int, inUse: int, limit: int,
                       disk: seq<byte>, ok: bool, junk: seq<byte>)
    returns (q: CachedPiece, ret: int, end: int)
    requires Exact(p) && |disk| == p.size && 0 <= start < |p.blocks| && num > 0 && |junk| == BLOCK_SIZE
    ensures Exact(q) && q == p.(numBlocks := q.numBlocks, blocks := q.blocks)
    ensures ret == -2 <==> !ignoreLimit && inUse >= limit
    ensures ret == -1 <==> (ignoreLimit || inUse < limit) && !ok
    ensures -2 <= ret && (ret < 0 ==> q.numBlocks == 0)
    ensures ret >= 0 ==>
              && start < end <= |p.blocks| && end <= start + num
              && ret == End(p.size, end) - Offset(start)
              && Refilled(p, q, disk, start, end) && q.numBlocks <= p.numBlocks + end - start
              && (end == |p.blocks| || end == start + num || (!ignoreLimit && inUse + q.numBlocks - p.numBlocks >= limit))
  {
    var blocks, n;
    blocks, n, end := AllocateBlocks(p, start, ignoreLimit, num, inUse, limit, junk);
    q := p.(numBlocks := n, blocks := blocks);
    AllocatedShaped(p, q, start, end);
    hide Count, Shaped;
    if end == start {
      q, n := FreePiece(q);
      ret := -2;
      return;
    }
    BufferSize(p.size, start, end);
    var bufferSize := if Offset(end - start) < p.size - Offset(start) then Offset(end - start) else p.size - Offset(start);
    if !ok {
      q, n := FreePiece(q);
      ret := -1;
      return;
    }
    var filled := FillBlocks(blocks, p.size, start, end, disk[Offset(start)..Offset(start) + bufferSize], disk);
    FilledShaped(q, q.(blocks := filled), disk, start, end);
    SameCount(blocks, filled);
    q := q.(blocks := filled);
    ret := bufferSize;
  }

  lemma BufferSize(size: int, start: int, end: int)
    requires 0 <= start < end <= BlocksInPiece(size)
    ensures 0 < Offset(start) + 1 <= End(size, end) <= size
    ensures (if Offset(end - start) < size - Offset(start) then Offset(end - start) else size - Offset(start))
            == End(size, end) - Offset(start)
  {
  }

  lemma AllocatedShaped(p: CachedPiece, q: CachedPiece, start: int, end: int)
    requires Shaped(p) && q.size == p.size && Allocated(p.blocks, q.blocks, start, end)
    ensures Shaped(q) && |q.blocks| == BlocksInPiece(q.size) && 0 < q.size
    ensures forall k :: start <= k < end ==> q.blocks[k].Data? && |q.blocks[k].bytes| == BLOCK_SIZE
    ensures forall k :: 0 <= k < |q.blocks| && !(start <= k < end) ==> q.blocks[k] == p.blocks[k]
  {
  }

  lemma FilledShaped(q: CachedPiece, r: CachedPiece, disk: seq<byte>, start: int, end: int)
    requires Shaped(q) && r.size == q.size && |r.blocks| == |q.blocks| && Filled(r.blocks, r.size, disk, start, end)
    requires forall k :: 0 <= k < |r.blocks| && !(start <= k < end) ==> r.blocks[k] == q.blocks[k]
    ensures Shaped(r)
  {
  }

  // --------------------------------------------------------------- requests

  /** A request for `size` bytes at `offset`, at most one block long. */
  ghost predicate InRange(p: CachedPiece, offset: int, size: int) {
    Shaped(p) && 0 <= offset && 0 < size <= BLOCK_SIZE && offset + size <= p.size
  }

  /** Every block the request touches is cached. */
  ghost predicate Covered(p: CachedPiece, offset: int, size: int)
    requires InRange(p, offset, size)
  {
    forall k :: offset / 0x4000 <= k <= (offset + size - 1) / 0x4000 ==> 0 <= k < |p.blocks| && p.blocks[k].Data?
  }

  function MinBlocksToRead(offset: int, size: int): int {
    if offset % 0x4000 > 0 && size > BLOCK_SIZE - offset % 0x4000 then 2 else 1
  }

  /** How many blocks the request touches. */
  lemma Touched(p: CachedPiece, offset: int, size: int)
    requires InRange(p, offset, size)
    ensures 0 <= offset / 0x4000 && (offset + size - 1) / 0x4000 == offset / 0x4000 + MinBlocksToRead(offset, size) - 1 < |p.blocks|
  {
  }

  /** The block whose absence makes a read necessary. */
  function StartBlock(p: CachedPiece, offset: int, size: int): int
    requires InRange(p, offset, size)
  {
    Touched(p, offset, size);
    var block := offset / 0x4000;
    if p.blocks[block].Data? && MinBlocksToRead(offset, size) > 1 then block + 1 else block
  }

  /** The two look-ups decide whether everything requested is cached. */
  function IsCacheHit(p: CachedPiece, offset: int, size: int): (hit: bool)
    requires InRange(p, offset, size)
    ensures hit <==> Covered(p, offset, size)
  {
    Touched(p, offset, size);
    p.blocks[StartBlock(p, offset, size)].Data?
  }

  /** The requested bytes as they are in the cache. */
  ghost function CachedBytes(p: CachedPiece, offset: int, size: int): (r: seq<byte>)
    requires InRange(p, offset, size) && Covered(p, offset, size)
    ensures |r| == size
  {
    Touched(p, offset, size);
    var k, at := offset / 0x4000, offset % 0x4000;
    assert p.blocks[k].Data?;
    if at + size <= BLOCK_SIZE then p.blocks[k].bytes[at..at + size]
    else
      assert p.blocks[k + 1].Data?;
      p.blocks[k].bytes[at..] + p.blocks[k + 1].bytes[..at + size - BLOCK_SIZE]
  }

  /** Copies the requested bytes out of cached blocks. */
  method CopyOut(p: CachedPiece, offset: int, size: int) returns (out: seq<byte>)
    requires InRange(p, offset, size) && Covered(p, offset, size)
    ensures out == CachedBytes(p, offset, size)
  {
    var block, blockOffset, left := offset / 0x4000, offset % 0x4000, size;
    out := [];
    Touched(p, offset, size);
    ghost var k, at := block, blockOffset;
    while left > 0
      invariant 0 <= left <= size
      invariant left == size ==> out == [] && block == k && blockOffset == at
      invariant 0 < left < size ==> block == k + 1 && blockOffset == 0 && left == at + size - BLOCK_SIZE && out == p.blocks[k].bytes[at..]
      invariant left == 0 ==> out == CachedBytes(p, offset, size)
    {
      assert block <= (offset + size - 1) / 0x4000 && p.blocks[block].Data?;
      var copy := if BLOCK_SIZE - blockOffset < left then BLOCK_SIZE - blockOffset else left;
      out := out + p.blocks[block].bytes[blockOffset..blockOffset + copy];
      left, blockOffset, block := left - copy, 0, block + 1;
    }
  }

  /** Cached bytes of blocks that mirror the disk are the bytes on disk. */
  lemma CachedIsDisk(p: CachedPiece, offset: int, size: int, disk: seq<byte>)
    requires InRange(p, offset, size) && Covered(p, offset, size) && |disk| == p.size
    requires forall k :: offset / 0x4000 <= k <= (offset + size - 1) / 0x4000 && 0 <= k < |p.blocks| ==> Mirrors(p.blocks[k], p.size, k, disk)
    ensures CachedBytes(p, offset, size) == disk[offset..offset + size]
  {
    Touched(p, offset, size);
    var k, at := offset / 0x4000, offset % 0x4000;
    assert Offset(k) + at == offset;
    assert p.blocks[k].Data? && Mirrors(p.blocks[k], p.size, k, disk);
    if at + size <= BLOCK_SIZE {
      PartOfBlock(p, k, at, size, disk);
    } else {
      assert p.blocks[k + 1].Data? && Mirrors(p.blocks[k + 1], p.size, k + 1, disk);
      PartOfBlock(p, k, at, BLOCK_SIZE - at, disk);
      PartOfBlock(p, k + 1, 0, at + size - BLOCK_SIZE, disk);
      assert Offset(k + 1) == Offset(k) + BLOCK_SIZE;
      TwoSlices(disk, offset, Offset(k + 1), offset + size);
    }
  }

  lemma TwoSlices(s: seq<byte>, a: int, b: int, c: int)
    requires 0 <= a <= b <= c <= |s|
    ensures s[a..b] + s[b..c] == s[a..c]
  {
  }

  /** Part of one cached block. */
  lemma PartOfBlock(p: CachedPiece, k: int, at: int, n: int, disk: seq<byte>)
    requires 0 <= k < |p.blocks| && p.blocks[k].Data? && Mirrors(p.blocks[k], p.size, k, disk)
    requires 0 <= at && 0 <= n && at + n <= BLOCK_SIZE && Offset(k) + at + n <= p.size
    ensures 0 <= Offset(k) && p.blocks[k].bytes[at..at + n] == disk[Offset(k) + at..Offset(k) + at + n]
  {
    InsideBlock(p.size, k, at, n);
    var len := Len(p.size, k);
    hide BlocksInPiece;
    SliceOfSlice(p.blocks[k].bytes, 0, len, at, n);
    assert p.blocks[k].bytes[0..len] == p.blocks[k].bytes[..len];
    SliceOfSlice(disk, Offset(k), Offset(k) + len, at, n);
  }

  lemma InsideBlock(size: int, k: int, at: int, n: int)
    requires 0 <= at && at + n <= BLOCK_SIZE && Offset(k) + at + n <= size
    ensures at + n <= Len(size, k)
  {
  }

  lemma NothingCoherent(p: CachedPiece, disk: seq<byte>)
    requires Exact(p) && p.numBlocks == 0 && |disk| == p.size
    ensures Coherent(p, disk)
  {
    CountZero(p.blocks);
  }

  /** A read that reaches past the request covers it, with bytes as on disk. */
  lemma RefilledCovers(p: CachedPiece, q: CachedPiece, disk: seq<byte>, offset: int, size: int, end: int)
    requires InRange(p, offset, size) && Shaped(q) && q.size == p.size == |disk| && Refilled(p, q, disk, offset / 0x4000, end)
    requires End(p.size, end) - Offset(offset / 0x4000) >= size + offset % 0x4000
    ensures InRange(q, offset, size) && Covered(q, offset, size) && CachedBytes(q, offset, size) == disk[offset..offset + size]
  {
    assert Offset(end) >= offset + size;
    assert (offset + size - 1) / 0x4000 < end;
    assert Covered(q, offset, size);
    hide Mirrors, CachedBytes, BlocksInPiece;
    CachedIsDisk(q, offset, size, disk);
  }

  /** Every buffer of `q` was in `p` already or holds what is on disk. */
  ghost predicate Renewed(p: CachedPiece, q: CachedPiece, disk: seq<byte>) {
    && |q.blocks| == |p.blocks|
    && forall k :: 0 <= k < |q.blocks| && q.blocks[k].Data? ==> q.blocks[k] == p.blocks[k] || Mirrors(q.blocks[k], q.size, k, disk)
  }

  lemma RefilledRenewed(p: CachedPiece, q: CachedPiece, disk: seq<byte>, start: int, end: int)
    requires Refilled(p, q, disk, start, end) && q.size == p.size
    ensures Renewed(p, q, disk)
  {
    hide Mirrors, BlocksInPiece;
  }

  lemma EmptyRenewed(p: CachedPiece, q: CachedPiece, disk: seq<byte>)
    requires Exact(q) && q.numBlocks == 0 && |q.blocks| == |p.blocks|
    ensures Renewed(p, q, disk)
  {
    CountZero(q.blocks);
  }

  /** Reads the missing blocks of a request and then copies it out; `touched` tells
      whether the disk was read. What was in the entry before does not matter: all
      that is delivered has just been read. */
  method ServeMiss(p: CachedPiece, offset: int, size: int, wanted: int, inUse: int, limit: int,
                   disk: seq<byte>, ok: bool, junk: seq<byte>)
    returns (q: CachedPiece, ret: int, out: seq<byte>, touched: bool)
    requires Exact(p) && |disk| == p.size && InRange(p, offset, size) && wanted > 0 && |junk| == BLOCK_SIZE
    ensures Exact(q) && Renewed(p, q, disk) && q == p.(numBlocks := q.numBlocks, blocks := q.blocks)
    ensures -2 <= ret && (ret >= 0 ==> ret == size && out == disk[offset..offset + size] && InRange(q, offset, size) && Covered(q, offset, size))
    ensures touched <==> inUse < limit
    ensures ret == -1 <==> touched && !ok
    ensures ret >= 0 ==> touched
    ensures ok && wanted >= MinBlocksToRead(offset, size) && inUse + wanted <= limit ==> ret >= 0
  {
    Touched(p, offset, size);
    var end;
    out := [];
    q, ret, end := ReadIntoPiece(p, offset / 0x4000, false, wanted, inUse, limit, disk, ok, junk);
    touched := ret != -2;
    if ret < 0 {
      EmptyRenewed(p, q, disk);
      return;
    }
    RefilledRenewed(p, q, disk, offset / 0x4000, end);
    hide Count, Refilled, Renewed;
    if ret < size + offset % 0x4000 {
      ShortRead(p, offset, size, wanted, end);
      ret := -2;
      return;
    }
    RefilledCovers(p, q, disk, offset, size, end);
    out := CopyOut(q, offset, size);
    ret := size;
  }

  /** A read is too short only when the buffers ran out. */
  lemma ShortRead(p: CachedPiece, offset: int, size: int, wanted: int, end: int)
    requires InRange(p, offset, size) && wanted >= 1
    requires offset / 0x4000 < end <= |p.blocks|
    ensures End(p.size, end) - Offset(offset / 0x4000) < size + offset % 0x4000 ==>
              end < |p.blocks| && end < offset / 0x4000 + MinBlocksToRead(offset, size)
  {
  }
}
