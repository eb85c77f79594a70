/** The cached blocks of one piece and how they reach the disk. */
module DiskBlocks {

  newtype byte = x: int | 0 <= x < 256

  const BLOCK_SIZE := 0x4000

  /** Where block `k` starts. */
  function Offset(k: int): int {
    k * 0x4000
  }

  /** A pool buffer, always a full block long, or no buffer. */
  datatype Buffer = Absent | Data(bytes: seq<byte>)

  datatype CachedPiece = CachedPiece(storage: int, piece: int, size: int, lastUse: int, numBlocks: int, blocks: seq<Buffer>)

  function BlocksInPiece(size: int): int {
    (size + 0x3fff) / 0x4000
  }

  /** How many bytes of block `k` belong to the piece; only the last block can be short. */
  function Len(size: int, k: int): int {
    if size - Offset(k) < BLOCK_SIZE then size - Offset(k) else BLOCK_SIZE
  }

  function Count(blocks: seq<Buffer>): (r: nat) {
    if |blocks| == 0 then 0 else Count(blocks[..|blocks| - 1]) + if blocks[|blocks| - 1].Data? then 1 else 0
  }

  ghost predicate Shaped(p: CachedPiece) {
    && p.size > 0 && |p.blocks| == BlocksInPiece(p.size)
    && (forall k :: 0 <= k < |p.blocks| && p.blocks[k].Data? ==> |p.blocks[k].bytes| == BLOCK_SIZE)
  }

  /** The block counter of an entry counts its buffers. */
  ghost predicate Exact(p: CachedPiece) {
    Shaped(p) && p.numBlocks == Count(p.blocks)
  }

  lemma {:induction false} CountUpdate(blocks: seq<Buffer>, k: int, b: Buffer)
    requires 0 <= k < |blocks|
    ensures Count(blocks[k := b]) == Count(blocks) - (if blocks[k].Data? then 1 else 0) + if b.Data? then 1 else 0
  {
    var n := |blocks| - 1;
    if k < n {
      CountUpdate(blocks[..n], k, b);
      assert blocks[k := b][..n] == blocks[..n][k := b];
    } else {
      assert blocks[k := b][..n] == blocks[..n];
    }
  }

  lemma {:induction false} CountZero(blocks: seq<Buffer>)
    ensures Count(blocks) == 0 <==> forall k :: 0 <= k < |blocks| ==> blocks[k].Absent?
  {
    if |blocks| > 0 {
      CountZero(blocks[..|blocks| - 1]);
      assert forall k :: 0 <= k < |blocks| - 1 ==> blocks[..|blocks| - 1][k] == blocks[k];
    }
  }

  lemma {:induction false} CountSplit(a: seq<Buffer>, b: seq<Buffer>)
    ensures Count(a + b) == Count(a) + Count(b)
  {
    if |b| == 0 {
      assert a + b == a;
    } else {
      CountSplit(a, b[..|b| - 1]);
      assert (a + b)[..|a + b| - 1] == a + b[..|b| - 1];
    }
  }

  // ------------------------------------------------------ bytes on disk

  /** The contents after writing `bytes` at `offset`. */
  function Put(disk: seq<byte>, offset: int, bytes: seq<byte>): (r: seq<byte>)
    requires 0 <= offset && offset + |bytes| <= |disk|
    ensures |r| == |disk|
  {
    disk[..offset] + bytes + disk[offset + |bytes|..]
  }

  lemma PutAt(disk: seq<byte>, offset: int, bytes: seq<byte>, q: int)
    requires 0 <= offset && offset + |bytes| <= |disk| && 0 <= q < |disk|
    ensures Put(disk, offset, bytes)[q] == if offset <= q < offset + |bytes| then bytes[q - offset] else disk[q]
  {
  }

  lemma PutTwice(disk: seq<byte>, offset: int, a: seq<byte>, b: seq<byte>)
    requires 0 <= offset && offset + |a| + |b| <= |disk|
    ensures Put(Put(disk, offset, a), offset + |a|, b) == Put(disk, offset, a + b)
  {
  }

  /** The part of block `k` that belongs to the piece. */
  function Used(p: CachedPiece, k: int): (r: seq<byte>)
    requires Shaped(p) && 0 <= k < |p.blocks| && p.blocks[k].Data?
    ensures |r| == Len(p.size, k) && 0 < |r| && Offset(k) + |r| <= p.size
  {
    p.blocks[k].bytes[..Len(p.size, k)]
  }

  /** What the disk should hold after a flush of blocks `lo..hi`: every cached
      block written by itself, in its own place. */
  ghost function Overlay(p: CachedPiece, disk: seq<byte>, lo: int, hi: int): (r: seq<byte>)
    requires Shaped(p) && |disk| == p.size && 0 <= lo && hi <= |p.blocks|
    ensures |r| == |disk|
    decreases hi - lo
  {
    if hi <= lo then disk
    else
      var rest := Overlay(p, disk, lo, hi - 1);
      if p.blocks[hi - 1].Data? then Put(rest, Offset(hi - 1), Used(p, hi - 1)) else rest
  }

  /** Read byte by byte: a byte of a flushed block comes from the cache, any other
      byte is as before. */
  lemma {:induction false} OverlayAt(p: CachedPiece, disk: seq<byte>, lo: int, hi: int, q: int, k: int)
    requires Shaped(p) && |disk| == p.size && 0 <= lo <= hi <= |p.blocks| && 0 <= q < p.size
    requires 0 <= k < |p.blocks| && Offset(k) <= q < Offset(k) + BLOCK_SIZE
    ensures Overlay(p, disk, lo, hi)[q] ==
              if lo <= k < hi && p.blocks[k].Data? then p.blocks[k].bytes[q - Offset(k)] else disk[q]
    decreases hi - lo
  {
    if lo < hi {
      OverlayAt(p, disk, lo, hi - 1, q, k);
      if p.blocks[hi - 1].Data? {
        PutAt(Overlay(p, disk, lo, hi - 1), Offset(hi - 1), Used(p, hi - 1), q);
      }
    }
  }

  /** Where the first `k` blocks of the piece end. */
  function End(size: int, k: int): int {
    if Offset(k) < size then Offset(k) else size
  }

  /** The bytes of blocks `from..upto`, one after the other. */
  ghost function Gather(p: CachedPiece, from: int, upto: int): (r: seq<byte>)
    requires Shaped(p) && 0 <= from <= upto <= |p.blocks|
    requires forall k :: from <= k < upto ==> p.blocks[k].Data?
    ensures |r| == if from == upto then 0 else End(p.size, upto) - Offset(from)
    decreases upto - from
  {
    if from == upto then [] else Gather(p, from, upto - 1) + Used(p, upto - 1)
  }

  lemma RunStep(p: CachedPiece, disk: seq<byte>, lo: int, from: int, upto: int)
    requires Shaped(p) && |disk| == p.size && 0 <= lo <= from < upto <= |p.blocks|
    requires forall k :: from <= k < upto ==> p.blocks[k].Data?
    ensures |Used(p, upto - 1)| + Offset(upto - 1) <= p.size && 0 <= Offset(upto - 1)
    ensures Overlay(p, disk, lo, upto) == Put(Overlay(p, disk, lo, upto - 1), Offset(upto - 1), Used(p, upto - 1))
    ensures Gather(p, from, upto) == Gather(p, from, upto - 1) + Used(p, upto - 1)
    ensures Offset(from) + |Gather(p, from, upto - 1)| == Offset(upto - 1)
    ensures |Gather(p, from, upto - 1)| == 0 <==> from == upto - 1
  {
    assert Offset(upto - 1) < p.size;
  }

  /** Writing a run in one go is the same as writing its blocks one by one. */
  lemma {:induction false} RunIsOverlay(p: CachedPiece, disk: seq<byte>, lo: int, from: int, upto: int)
    requires Shaped(p) && |disk| == p.size && 0 <= lo <= from < upto <= |p.blocks|
    requires forall k :: from <= k < upto ==> p.blocks[k].Data?
    ensures 0 <= Offset(from) && Offset(from) + |Gather(p, from, upto)| <= p.size
    ensures Put(Overlay(p, disk, lo, from), Offset(from), Gather(p, from, upto)) == Overlay(p, disk, lo, upto)
    decreases upto - from
  {
    hide *;
    RunStep(p, disk, lo, from, upto);
    OffsetFrom(from);
    if from < upto - 1 {
      RunIsOverlay(p, disk, lo, from, upto - 1);
      PutTwice(Overlay(p, disk, lo, from), Offset(from), Gather(p, from, upto - 1), Used(p, upto - 1));
    } else {
      assert Gather(p, from, upto) == Used(p, from);
    }
  }

  lemma OffsetFrom(from: int)
    requires 0 <= from
    ensures 0 <= Offset(from)
  {
  }

  // --------------------------------------------------------- flush_range

  /** One call of the storage's write function. */
  datatype Write = Write(first: int, last: int, offset: int, data: seq<byte>)

  /** `a..b` is a maximal run of cached blocks inside `lo..hi`. */
  ghost predicate IsRun(blocks: seq<Buffer>, lo: int, hi: int, a: int, b: int) {
    && 0 <= lo <= a < b <= hi <= |blocks|
    && (forall k :: a <= k < b ==> blocks[k].Data?)
    && (a == lo || blocks[a - 1].Absent?) && (b == hi || blocks[b].Absent?)
  }

  /** Each write is one maximal run at its own offset. */
  ghost predicate RunWrite(p: CachedPiece, lo: int, hi: int, w: Write) {
    && Shaped(p) && IsRun(p.blocks, lo, hi, w.first, w.last)
    && w.offset == Offset(w.first) && w.data == Gather(p, w.first, w.last)
  }

  ghost predicate RunWrites(p: CachedPiece, lo: int, hi: int, upTo: int, writes: seq<Write>) {
    && (forall i :: 0 <= i < |writes| ==> RunWrite(p, lo, hi, writes[i]) && writes[i].last <= upTo)
    && (forall i, j :: 0 <= i < j < |writes| ==> writes[i].last < writes[j].first)
    && (forall k :: lo <= k < upTo && 0 <= k < |p.blocks| && p.blocks[k].Data? ==> Written(writes, k))
  }

  ghost predicate Written(writes: seq<Write>, k: int) {
    exists i :: 0 <= i < |writes| && writes[i].first <= k < writes[i].last
  }

  ghost predicate Cleared(blocks: seq<Buffer>, blocks': seq<Buffer>, lo: int, hi: int) {
    && |blocks'| == |blocks|
    && forall k :: 0 <= k < |blocks| ==> blocks'[k] == if lo <= k < hi then Absent else blocks[k]
  }

  lemma ClearedCount(blocks: seq<Buffer>, blocks': seq<Buffer>, lo: int, hi: int)
    requires Cleared(blocks, blocks', lo, hi) && 0 <= lo <= hi <= |blocks|
    ensures Count(blocks') == Count(blocks) - Count(blocks[lo..hi])
  {
    assert blocks == blocks[..lo] + blocks[lo..hi] + blocks[hi..];
    assert blocks' == blocks[..lo] + blocks'[lo..hi] + blocks[hi..];
    CountSplit(blocks[..lo] + blocks[lo..hi], blocks[hi..]);
    CountSplit(blocks[..lo], blocks[lo..hi]);
    CountSplit(blocks[..lo] + blocks'[lo..hi], blocks[hi..]);
    CountSplit(blocks[..lo], blocks'[lo..hi]);
    CountZero(blocks'[lo..hi]);
  }

  /** Writes every maximal run of cached blocks in `start..end` and frees the
      blocks. With `coalesce` a run is first copied into one buffer, without it
      the blocks are handed over as a vector; the disk ends up the same. */
  method FlushRange(p: CachedPiece, start: int, end0: int, coalesce: bool, disk0: seq<byte>)
    returns (q: CachedPiece, disk: seq<byte>, freed: int, writes: seq<Write>)
    requires Exact(p) && |disk0| == p.size && 0 <= start < end0 && start <= |p.blocks|
    ensures var end := if end0 < |p.blocks| then end0 else |p.blocks|;
            && disk == Overlay(p, disk0, start, end)
            && RunWrites(p, start, end, end, writes)
            && Cleared(p.blocks, q.blocks, start, end)
            && freed == Count(p.blocks[start..end])
    ensures Exact(q) && q == p.(numBlocks := p.numBlocks - freed, blocks := q.blocks)
  {
    var end := if end0 < |p.blocks| then end0 else |p.blocks|;
    disk, writes := WriteRuns(p, start, end, coalesce, disk0);
    var blocks: seq<Buffer>;
    blocks, freed := ClearBlocks(p.blocks, start, end);
    ClearedCount(p.blocks, blocks, start, end);
    q := p.(numBlocks := p.numBlocks - freed, blocks := blocks);
  }

  /** Frees every buffer in `lo..hi`. */
  method ClearBlocks(blocks0: seq<Buffer>, lo: int, hi: int) returns (blocks: seq<Buffer>, freed: int)
    requires 0 <= lo <= hi <= |blocks0|
    ensures Cleared(blocks0, blocks, lo, hi) && freed == Count(blocks0[lo..hi])
  {
    blocks, freed := blocks0, 0;
    for i := lo to hi
      invariant Cleared(blocks0, blocks, lo, i) && freed == Count(blocks0[lo..i])
    {
      assert blocks0[lo..i + 1][..i - lo] == blocks0[lo..i];
      if blocks[i].Data? {
        blocks := blocks[i := Absent];
        freed := freed + 1;
      }
    }
  }

  function Concat(iov: seq<seq<byte>>): (r: seq<byte>) {
    if |iov| == 0 then [] else Concat(iov[..|iov| - 1]) + iov[|iov| - 1]
  }

  lemma RunAdded(p: CachedPiece, lo: int, hi: int, from: int, i: int, w: Write, writes: seq<Write>)
    requires RunWrites(p, lo, hi, from, writes) && RunWrite(p, lo, hi, w) && w.first == from < w.last == i
    requires forall n :: 0 <= n < |writes| ==> writes[n].last < from
    ensures RunWrites(p, lo, hi, i, writes + [w])
  {
    hide RunWrite, Written;
    var ws := writes + [w];
    forall k | lo <= k < i && 0 <= k < |p.blocks| && p.blocks[k].Data? ensures Written(ws, k) {
      WrittenMore(writes, w, k);
    }
  }

  lemma WrittenMore(writes: seq<Write>, w: Write, k: int)
    requires Written(writes, k) || w.first <= k < w.last
    ensures Written(writes + [w], k)
  {
    var ws := writes + [w];
    if Written(writes, k) {
      var n :| 0 <= n < |writes| && writes[n].first <= k < writes[n].last;
      assert ws[n] == writes[n];
    } else {
      assert ws[|writes|] == w;
    }
  }

  lemma GapPassed(p: CachedPiece, lo: int, hi: int, i: int, writes: seq<Write>)
    requires RunWrites(p, lo, hi, i, writes) && 0 <= lo <= i < |p.blocks| && p.blocks[i].Absent?
    ensures RunWrites(p, lo, hi, i + 1, writes)
  {
  }

  /** The bytes collected so far, in either mode. */
  ghost predicate Payload(coalesce: bool, buf: seq<byte>, iov: seq<seq<byte>>, bufferSize: int, data: seq<byte>) {
    |data| == bufferSize && if coalesce then bufferSize <= |buf| && buf[..bufferSize] == data else Concat(iov) == data
  }

  /** Adds block `i` to the run being collected. */
  method Collect(p: CachedPiece, i: int, coalesce: bool, buf0: seq<byte>, iov0: seq<seq<byte>>, bufferSize: int, offset: int,
                 ghost data: seq<byte>)
    returns (buf: seq<byte>, iov: seq<seq<byte>>)
    requires Shaped(p) && 0 <= i < |p.blocks| && p.blocks[i].Data?
    requires |buf0| == p.size && 0 <= offset == bufferSize <= Offset(i)
    requires Payload(coalesce, buf0, iov0, bufferSize, data)
    ensures |buf| == p.size && Payload(coalesce, buf, iov, bufferSize + Len(p.size, i), data + Used(p, i))
  {
    buf, iov := buf0, iov0;
    ghost var used := Used(p, i);
    var bytes := p.blocks[i].bytes[..Len(p.size, i)];
    if coalesce {
      buf := Put(buf, offset, bytes);
      assert buf[..bufferSize + |bytes|] == buf0[..bufferSize] + bytes;
    } else {
      iov := iov + [bytes];
      assert iov[..|iov0|] == iov0;
    }
  }

  /** The state between two turns of the gathering loop. */
  ghost predicate Mid(p: CachedPiece, disk0: seq<byte>, lo: int, hi: int, from: int, i: int,
                      disk: seq<byte>, writes: seq<Write>)
  {
    && Shaped(p) && |disk0| == p.size && 0 <= lo <= from <= i <= hi <= |p.blocks|
    && (forall k :: from <= k < i ==> p.blocks[k].Data?)
    && (from == lo || p.blocks[from - 1].Absent?)
    && disk == Overlay(p, disk0, lo, from)
    && RunWrites(p, lo, hi, from, writes)
    && (forall n :: 0 <= n < |writes| ==> writes[n].last < from)
  }

  lemma MidWrite(p: CachedPiece, disk0: seq<byte>, lo: int, hi: int, from: int, i: int, disk: seq<byte>, writes: seq<Write>)
    requires Mid(p, disk0, lo, hi, from, i, disk, writes) && from < i
    requires i == hi || p.blocks[i].Absent?
    ensures var data := Gather(p, from, i);
            && End(p.size, i) - |data| == Offset(from) && Offset(from) + |data| <= |disk| == p.size
            && i - BlocksInPiece(|data|) == from
            && Put(disk, Offset(from), data) == Overlay(p, disk0, lo, i)
            && RunWrites(p, lo, hi, i, writes + [Write(from, i, Offset(from), data)])
  {
    RunIsOverlay(p, disk0, lo, from, i);
    RunAdded(p, lo, hi, from, i, Write(from, i, Offset(from), Gather(p, from, i)), writes);
  }

  /** Hands the collected run, if there is one, to the storage. */
  method EndRun(p: CachedPiece, i: int, data: seq<byte>, disk1: seq<byte>, writes1: seq<Write>,
                ghost disk0: seq<byte>, ghost lo: int, ghost hi: int, ghost from: int)
    returns (disk: seq<byte>, writes: seq<Write>)
    requires Mid(p, disk0, lo, hi, from, i, disk1, writes1) && (i == hi || p.blocks[i].Absent?)
    requires data == Gather(p, from, i)
    ensures |disk0| == p.size && 0 <= lo <= hi && disk == Overlay(p, disk0, lo, i) && RunWrites(p, lo, hi, i, writes)
  {
    disk, writes := disk1, writes1;
    MidDone(p, disk0, lo, hi, from, i, disk, writes);
    hide Mid, Overlay, Gather, RunWrites, Put, Shaped, BlocksInPiece;
    if |data| != 0 {
      MidWrite(p, disk0, lo, hi, from, i, disk, writes);
      var at, first := End(p.size, i) - |data|, i - BlocksInPiece(|data|);
      assert at == Offset(from) && first == from;
      hide End, Offset;
      disk := Put(disk, at, data);
      writes := writes + [Write(first, i, at, data)];
    }
  }

  lemma MidDone(p: CachedPiece, disk0: seq<byte>, lo: int, hi: int, from: int, i: int, disk: seq<byte>, writes: seq<Write>)
    requires Mid(p, disk0, lo, hi, from, i, disk, writes)
    ensures 0 <= lo <= from <= i <= hi && Shaped(p) && |disk0| == p.size && hi <= |p.blocks|
    ensures |Gather(p, from, i)| == 0 <==> from == i
    ensures from == i ==> disk == Overlay(p, disk0, lo, i) && RunWrites(p, lo, hi, i, writes)
  {
    assert from < i ==> End(p.size, i) > Offset(from);
  }

  /** While a run is open all its blocks are full ones. */
  lemma OpenRun(p: CachedPiece, disk0: seq<byte>, lo: int, hi: int, from: int, i: int, disk: seq<byte>, writes: seq<Write>)
    requires Mid(p, disk0, lo, hi, from, i, disk, writes) && i < hi && p.blocks[i].Data?
    ensures |Gather(p, from, i)| == Offset(i - from) <= Offset(i)
    ensures Gather(p, from, i + 1) == Gather(p, from, i) + Used(p, i)
    ensures Mid(p, disk0, lo, hi, from, i + 1, disk, writes)
  {
  }

  /** The state of the gathering loop at block `i`, with blocks `from..i` collected. */
  ghost predicate Gathering(p: CachedPiece, disk0: seq<byte>, lo: int, hi: int, from: int, i: int, disk: seq<byte>, writes: seq<Write>,
                            coalesce: bool, buf: seq<byte>, iov: seq<seq<byte>>, bufferSize: int, offset: int)
  {
    && Mid(p, disk0, lo, hi, from, i, disk, writes)
    && |buf| == p.size && offset == Offset(i - from) && Payload(coalesce, buf, iov, bufferSize, Gather(p, from, i))
  }

  /** Collects one more block. */
  method AddBlock(p: CachedPiece, i: int, coalesce: bool, buf0: seq<byte>, iov0: seq<seq<byte>>, bufferSize0: int, offset0: int,
                  ghost disk0: seq<byte>, ghost lo: int, ghost hi: int, ghost from: int, ghost disk: seq<byte>, ghost writes: seq<Write>)
    returns (buf: seq<byte>, iov: seq<seq<byte>>, bufferSize: int, offset: int)
    requires Gathering(p, disk0, lo, hi, from, i, disk, writes, coalesce, buf0, iov0, bufferSize0, offset0)
    requires 0 <= i < hi && i < |p.blocks| && p.blocks[i].Data?
    ensures Gathering(p, disk0, lo, hi, from, i + 1, disk, writes, coalesce, buf, iov, bufferSize, offset)
  {
    ghost var data := Gather(p, from, i);
    PayloadIs(coalesce, buf0, iov0, bufferSize0, data);
    OpenRun(p, disk0, lo, hi, from, i, disk, writes);
    assert Shaped(p);
    hide Mid, RunWrites, Payload, Overlay, Gather, Shaped, Concat, BlocksInPiece;
    buf, iov := Collect(p, i, coalesce, buf0, iov0, bufferSize0, offset0, data);
    offset := offset0 + BLOCK_SIZE;
    bufferSize := bufferSize0 + Len(p.size, i);
  }

  /** Writes the run that ends before block `i`. */
  method FinishRun(p: CachedPiece, i: int, coalesce: bool, buf: seq<byte>, iov: seq<seq<byte>>, bufferSize: int, ghost offset: int,
                   disk1: seq<byte>, writes1: seq<Write>, ghost disk0: seq<byte>, ghost lo: int, ghost hi: int, ghost from: int)
    returns (disk: seq<byte>, writes: seq<Write>)
    requires Gathering(p, disk0, lo, hi, from, i, disk1, writes1, coalesce, buf, iov, bufferSize, offset)
    requires 0 <= i <= hi <= |p.blocks| && (i == hi || p.blocks[i].Absent?)
    ensures i < hi ==> Gathering(p, disk0, lo, hi, i + 1, i + 1, disk, writes, coalesce, buf, [], 0, 0)
    ensures Shaped(p) && |disk0| == p.size && 0 <= lo
    ensures i == hi ==> disk == Overlay(p, disk0, lo, hi) && RunWrites(p, lo, hi, hi, writes)
  {
    PayloadIs(coalesce, buf, iov, bufferSize, Gather(p, from, i));
    disk, writes := EndRun(p, i, if coalesce then buf[..bufferSize] else Concat(iov), disk1, writes1, disk0, lo, hi, from);
    PayloadEmpty(coalesce, buf);
    if i < hi {
      MidGap(p, disk0, lo, hi, i, disk, writes);
      assert Gather(p, i + 1, i + 1) == [];
    }
  }

  lemma GatheringStart(p: CachedPiece, disk0: seq<byte>, lo: int, hi: int, coalesce: bool, buf: seq<byte>)
    requires Shaped(p) && |disk0| == p.size && 0 <= lo <= hi <= |p.blocks| && |buf| == p.size
    ensures Gathering(p, disk0, lo, hi, lo, lo, disk0, [], coalesce, buf, [], 0, 0)
  {
    PayloadEmpty(coalesce, buf);
    assert Gather(p, lo, lo) == [];
  }

  method Scratch(size: int) returns (buf: seq<byte>)
    ensures size >= 0 ==> |buf| == size
  {
    buf := if size >= 0 then seq(size, _ => 0) else [];
  }

  /** The gathering loop of `flush_range`. */
  method WriteRuns(p: CachedPiece, start: int, end: int, coalesce: bool, disk0: seq<byte>)
    returns (disk: seq<byte>, writes: seq<Write>)
    requires Shaped(p) && |disk0| == p.size && 0 <= start <= end <= |p.blocks|
    ensures disk == Overlay(p, disk0, start, end)
    ensures RunWrites(p, start, end, end, writes)
  {
    hide *;
    disk, writes := disk0, [];
    var bufferSize, offset := 0, 0;
    var iov: seq<seq<byte>> := [];
    var buf := Scratch(p.size);
    ghost var from := start;
    GatheringStart(p, disk0, start, end, coalesce, buf);
    var i := start;
    while i <= end
      invariant start <= i <= end + 1
      invariant i <= end ==> Gathering(p, disk0, start, end, from, i, disk, writes, coalesce, buf, iov, bufferSize, offset)
      invariant i == end + 1 ==> disk == Overlay(p, disk0, start, end) && RunWrites(p, start, end, end, writes)
    {
      if i == end || p.blocks[i].Absent? {
        disk, writes := FinishRun(p, i, coalesce, buf, iov, bufferSize, offset, disk, writes, disk0, start, end, from);
        bufferSize, offset, iov := 0, 0, [];
        from := i + 1;
      } else {
        buf, iov, bufferSize, offset := AddBlock(p, i, coalesce, buf, iov, bufferSize, offset, disk0, start, end, from, disk, writes);
      }
      i := i + 1;
    }
  }

  lemma PayloadIs(coalesce: bool, buf: seq<byte>, iov: seq<seq<byte>>, bufferSize: int, data: seq<byte>)
    requires Payload(coalesce, buf, iov, bufferSize, data)
    ensures |data| == bufferSize && (coalesce ==> bufferSize <= |buf|)
    ensures data == if coalesce then buf[..bufferSize] else Concat(iov)
  {
  }

  lemma PayloadEmpty(coalesce: bool, buf: seq<byte>)
    ensures Payload(coalesce, buf, [], 0, [])
  {
  }

  lemma MidGap(p: CachedPiece, disk0: seq<byte>, lo: int, hi: int, i: int, disk: seq<byte>, writes: seq<Write>)
    requires Shaped(p) && |disk0| == p.size && 0 <= lo <= i < hi <= |p.blocks| && p.blocks[i].Absent?
    requires disk == Overlay(p, disk0, lo, i) && RunWrites(p, lo, hi, i, writes)
    ensures Mid(p, disk0, lo, hi, i + 1, i + 1, disk, writes)
  {
    GapPassed(p, lo, hi, i, writes);
  }

  // -------------------------------------------- what the cache stands for

  /** The contents of the piece once everything cached has been written. */
  ghost function Whole(p: CachedPiece, disk: seq<byte>): (r: seq<byte>)
    requires Shaped(p) && |disk| == p.size
    ensures |r| == |disk|
  {
    Overlay(p, disk, 0, |p.blocks|)
  }

  lemma SameBytes(a: seq<byte>, b: seq<byte>)
    requires |a| == |b| && forall q :: 0 <= q < |a| ==> a[q] == b[q]
    ensures a == b
  {
  }

  lemma BlockOfByte(size: int, q: int) returns (k: int)
    requires 0 <= q < size
    ensures 0 <= k < BlocksInPiece(size) && Offset(k) <= q < Offset(k) + BLOCK_SIZE
  {
    k := q / 0x4000;
  }

  /** Flushing part of a piece does not change what the cache stands for. */
  lemma FlushKeepsWhole(p: CachedPiece, q: CachedPiece, disk: seq<byte>, lo: int, hi: int)
    requires Shaped(p) && |disk| == p.size && 0 <= lo <= hi <= |p.blocks|
    requires q.size == p.size && Cleared(p.blocks, q.blocks, lo, hi)
    ensures Shaped(q) && Whole(q, Overlay(p, disk, lo, hi)) == Whole(p, disk)
  {
    var mid := Overlay(p, disk, lo, hi);
    var n := |p.blocks|;
    forall x | 0 <= x < p.size ensures Overlay(q, mid, 0, n)[x] == Overlay(p, disk, 0, n)[x] {
      var k := BlockOfByte(p.size, x);
      OverlayAt(p, disk, lo, hi, x, k);
      OverlayAt(q, mid, 0, n, x, k);
      OverlayAt(p, disk, 0, n, x, k);
    }
    SameBytes(Overlay(q, mid, 0, n), Overlay(p, disk, 0, n));
  }

  /** Caching a block is as good as writing it. */
  lemma CacheIsWrite(p: CachedPiece, k: int, bytes: seq<byte>, disk: seq<byte>)
    requires Shaped(p) && |disk| == p.size && 0 <= k < |p.blocks| && |bytes| == BLOCK_SIZE
    ensures 0 < Len(p.size, k) <= BLOCK_SIZE && Offset(k) + Len(p.size, k) <= p.size
    ensures var p' := p.(blocks := p.blocks[k := Data(bytes)]);
            Shaped(p') && Whole(p', disk) == Put(Whole(p, disk), Offset(k), bytes[..Len(p.size, k)])
  {
    var p' := p.(blocks := p.blocks[k := Data(bytes)]);
    var n, put := |p.blocks|, Put(Whole(p, disk), Offset(k), bytes[..Len(p.size, k)]);
    forall x | 0 <= x < p.size ensures Overlay(p', disk, 0, n)[x] == put[x] {
      var c := BlockOfByte(p.size, x);
      OverlayAt(p, disk, 0, n, x, c);
      OverlayAt(p', disk, 0, n, x, c);
      PutAt(Whole(p, disk), Offset(k), bytes[..Len(p.size, k)], x);
    }
    SameBytes(Overlay(p', disk, 0, n), put);
  }

  /** An entry with no buffers stands for the disk alone. */
  lemma EmptyIsDisk(p: CachedPiece, disk: seq<byte>)
    requires Shaped(p) && |disk| == p.size && Count(p.blocks) == 0
    ensures Whole(p, disk) == disk
  {
    CountZero(p.blocks);
    forall x | 0 <= x < p.size ensures Whole(p, disk)[x] == disk[x] {
      var k := BlockOfByte(p.size, x);
      OverlayAt(p, disk, 0, |p.blocks|, x, k);
    }
  }

  // ------------------------------------------------------------- eviction

  ghost predicate Full(blocks: seq<Buffer>, a: int, b: int) {
    0 <= a <= b <= |blocks| && forall k :: a <= k < b ==> blocks[k].Data?
  }

  /** The longest run of cached blocks. */
  method LargestRun(blocks: seq<Buffer>) returns (pos: int, len: int)
    ensures 0 <= pos && 0 <= len && Full(blocks, pos, pos + len)
    ensures forall a, b :: Full(blocks, a, b) ==> b - a <= len
    ensures Count(blocks) > 0 ==> len > 0
  {
    len, pos := 0, 0;
    var current, start := 0, 0;
    for i := 0 to |blocks|
      invariant 0 <= start && start + current == i && 0 <= current && 0 <= len && 0 <= pos
      invariant Full(blocks, start, i) && Full(blocks, pos, pos + len)
      invariant start > 0 ==> blocks[start - 1].Absent?
      invariant forall a, b :: Full(blocks, a, b) && b <= i ==> b - a <= len || a >= start
    {
      if blocks[i].Data? {
        current := current + 1;
      } else {
        if current > len {
          len, pos := current, start;
        }
        current, start := 0, i + 1;
      }
    }
    if current > len {
      len, pos := current, start;
    }
    if Count(blocks) > 0 {
      CountZero(blocks);
      var k :| 0 <= k < |blocks| && blocks[k].Data?;
      assert Full(blocks, k, k + 1);
    }
  }

  /** Every buffer outside `lo..hi` is gone, every one inside is as it was. */
  ghost predicate KeptMiddle(blocks: seq<Buffer>, blocks': seq<Buffer>, lo: int, hi: int) {
    && |blocks'| == |blocks|
    && forall k :: 0 <= k < |blocks| ==> blocks'[k] == if lo <= k < hi then blocks[k] else Absent
  }

  /** Buffers went from the two ends only: what is left is one stretch of what was there. */
  ghost predicate EndsFreed(blocks: seq<Buffer>, blocks': seq<Buffer>) {
    exists lo, hi :: KeptMiddle(blocks, blocks', lo, hi)
  }

  lemma SomeInMiddle(blocks: seq<Buffer>, blocks': seq<Buffer>, lo: int, hi: int) returns (k: int)
    requires KeptMiddle(blocks, blocks', lo, hi) && Count(blocks') > 0
    ensures 0 <= k < |blocks'| && blocks'[k].Data? && lo <= k < hi
  {
    CountZero(blocks');
    k :| 0 <= k < |blocks'| && blocks'[k].Data?;
  }

  /** Frees `num` blocks, alternating between the first and the last one left.
      Fewer blocks are asked for than are cached, so neither scan runs off the
      piece and exactly `num` are freed. */
  method FreeEnds(p: CachedPiece, num: int) returns (q: CachedPiece, freed: int)
    requires Exact(p) && 0 <= num < p.numBlocks
    ensures Exact(q) && q == p.(numBlocks := p.numBlocks - num, blocks := q.blocks) && freed == num
    ensures EndsFreed(p.blocks, q.blocks)
  {
    var blocks, numBlocks, left := p.blocks, p.numBlocks, num;
    var end, start := BlocksInPiece(p.size) - 1, 0;
    ghost var lo, hi := 0, |blocks|;
    freed := 0;
    assert end + 1 == |blocks|;
    hide Shaped;
    while left > 0
      invariant 0 <= left && freed == num - left && numBlocks == p.numBlocks - freed
      invariant numBlocks == Count(blocks) && KeptMiddle(p.blocks, blocks, lo, hi)
      invariant 0 <= start <= lo && hi <= end + 1 <= |blocks|
      decreases left
    {
      start := SkipAhead(blocks, start, end, p.blocks, lo, hi);
      if start > end { break; }
      FreeFirst(p.blocks, blocks, lo, hi, start);
      CountUpdate(blocks, start, Absent);
      blocks, lo := blocks[start := Absent], start + 1;
      freed, numBlocks, left := freed + 1, numBlocks - 1, left - 1;
      if left == 0 { break; }

      end := SkipBack(blocks, start, end, p.blocks, lo, hi);
      if start > end { break; }
      FreeLast(p.blocks, blocks, lo, hi, end);
      CountUpdate(blocks, end, Absent);
      blocks, hi := blocks[end := Absent], end;
      freed, numBlocks, left := freed + 1, numBlocks - 1, left - 1;
    }
    q := p.(numBlocks := numBlocks, blocks := blocks);
    KeptShape(p, q, lo, hi);
  }

  lemma KeptShape(p: CachedPiece, q: CachedPiece, lo: int, hi: int)
    requires Shaped(p) && q.size == p.size && KeptMiddle(p.blocks, q.blocks, lo, hi)
    ensures Shaped(q)
  {
  }

  /** Skips gaps from the left; a cached block stops the scan inside the piece. */
  method SkipAhead(blocks: seq<Buffer>, start0: int, end: int, ghost all: seq<Buffer>, ghost lo: int, ghost hi: int)
    returns (start: int)
    requires KeptMiddle(all, blocks, lo, hi) && Count(blocks) > 0
    requires 0 <= start0 <= lo && hi <= end + 1 <= |blocks|
    ensures start0 <= start <= end && blocks[start].Data? && forall k :: 0 <= k < start ==> blocks[k].Absent?
  {
    start := start0;
    ghost var k := SomeInMiddle(all, blocks, lo, hi);
    while blocks[start].Absent? && start <= end
      invariant start0 <= start <= k && forall c :: 0 <= c < start ==> blocks[c].Absent?
    {
      start := start + 1;
    }
  }

  /** Skips gaps from the right. */
  method SkipBack(blocks: seq<Buffer>, start: int, end0: int, ghost all: seq<Buffer>, ghost lo: int, ghost hi: int)
    returns (end: int)
    requires KeptMiddle(all, blocks, lo, hi) && Count(blocks) > 0
    requires 0 <= start < lo && hi <= end0 + 1 <= |blocks|
    ensures start <= end <= end0 && blocks[end].Data? && forall k :: end < k < |blocks| ==> blocks[k].Absent?
  {
    end := end0;
    ghost var k := SomeInMiddle(all, blocks, lo, hi);
    while blocks[end].Absent? && start <= end
      invariant k <= end <= end0 && forall c :: end < c < |blocks| ==> blocks[c].Absent?
    {
      end := end - 1;
    }
  }

  lemma FreeFirst(all: seq<Buffer>, blocks: seq<Buffer>, lo: int, hi: int, start: int)
    requires KeptMiddle(all, blocks, lo, hi) && 0 <= start < |blocks| && blocks[start].Data?
    requires forall k :: 0 <= k < start ==> blocks[k].Absent?
    ensures lo <= start < hi && KeptMiddle(all, blocks[start := Absent], start + 1, hi)
  {
  }

  lemma FreeLast(all: seq<Buffer>, blocks: seq<Buffer>, lo: int, hi: int, end: int)
    requires KeptMiddle(all, blocks, lo, hi) && 0 <= end < |blocks| && blocks[end].Data?
    requires forall k :: end < k < |blocks| ==> blocks[k].Absent?
    ensures lo <= end < hi && KeptMiddle(all, blocks[end := Absent], lo, end)
  {
  }

  /** Frees every buffer of an entry. */
  method FreePiece(p: CachedPiece) returns (q: CachedPiece, freed: int)
    requires Exact(p)
    ensures Exact(q) && q == p.(numBlocks := 0, blocks := q.blocks) && freed == p.numBlocks
    ensures forall k :: 0 <= k < |q.blocks| ==> q.blocks[k].Absent?
  {
    var blocks;
    blocks, freed := ClearBlocks(p.blocks, 0, BlocksInPiece(p.size));
    assert p.blocks[0..|p.blocks|] == p.blocks;
    ClearedCount(p.blocks, blocks, 0, |p.blocks|);
    q := p.(numBlocks := p.numBlocks - freed, blocks := blocks);
  }
}
