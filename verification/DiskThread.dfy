/** The jobs of the disk thread that go through the block cache. */
module DiskThread {
  import opened DiskBlocks
  import opened DiskCache
  import opened DiskReads

  class Cache {
    var write: seq<CachedPiece>
    var read: seq<CachedPiece>
    /** Blocks in both caches, and in the read cache alone. */
    var cacheSize: int
    var readCacheSize: int
    /** Pool buffers in use elsewhere. */
    var outside: int
    /** How many reads went to the disk. */
    var diskReads: int
    var disk: Disk
    /** Settings: the largest number of buffers, how runs are written, which write
        entry goes first, and the granularity of reads and writes. */
    const limit: int
    const coalesceWrites: bool
    const algorithm: Algorithm
    const readLine: int
    const writeLine: int

    ghost predicate Valid()
      reads this`write, this`read, this`disk, this`cacheSize, this`readCacheSize
    {
      && Sound(write, disk)
      && AllBacked(read, disk) && Keyed(read)
      && readCacheSize == Total(read) && cacheSize == Total(write) + Total(read)
    }

    lemma Parts()
      ensures Valid() <==> Sound(write, disk) && AllBacked(read, disk) && Keyed(read)
                           && readCacheSize == Total(read) && cacheSize == Total(write) + Total(read)
    {
    }

    function InUse(): int
      reads this`cacheSize, this`outside
    {
      cacheSize + outside
    }

    constructor (disk: Disk, limit: int, coalesceWrites: bool, algorithm: Algorithm, readLine: int, writeLine: int)
      ensures Valid() && this.disk == disk && write == [] && read == [] && outside == 0 && cacheSize == 0
      ensures this.limit == limit && this.readLine == readLine
    {
      this.disk, this.limit, this.coalesceWrites, this.algorithm := disk, limit, coalesceWrites, algorithm;
      this.readLine, this.writeLine := readLine, writeLine;
      write, read, cacheSize, readCacheSize, outside, diskReads := [], [], 0, 0, 0, 0;
    }

    // -------------------------------------------------------- making room

    /** Frees blocks, cached reads first, the least recently used before others,
        then by writing out cached writes, those the algorithm names. */
    method FlushCacheBlocks(blocks: int, ignore: int, keepWrites: bool, now: int) returns (freed: int, ignore': int)
      requires Valid() && blocks > 0 && 0 <= ignore <= |read|
      modifies this`read, this`write, this`disk, this`cacheSize, this`readCacheSize
      ensures Valid() && freed == old(cacheSize) - cacheSize && freed >= 0
      ensures keepWrites || freed >= blocks || write == []
      ensures keepWrites ==> write == old(write) && disk == old(disk)
      ensures Same(old(write), old(disk), write, disk)
      ensures Kept(old(read), ignore, read, ignore') && NoNewKeys(old(read), read) && Thinner(old(read), read)
      ensures NoNewKeys(old(write), write)
      ensures OldestCleared(old(read), read, now)
      ensures Busy(old(read)) && old(readCacheSize) - readCacheSize < blocks ==> Stuck(read, ignore', now)
      ensures var gone := old(readCacheSize) - readCacheSize;
              !keepWrites ==> WritesFlushed(algorithm, old(write), write, blocks - gone, freed - gone)
    {
      hide *;
      Parts();
      var r, left;
      r, left, ignore' := ClearReadBlocks(read, blocks, ignore, now, disk);
      SoundBacked(write, disk);
      SameRefl(write, disk);
      NothingNew(write);
      freed := blocks - left;
      read, cacheSize, readCacheSize := r, cacheSize - freed, readCacheSize - freed;
      Parts();
      if keepWrites { return; }
      var w, d, more := FlushWriteBlocks(write, disk, left, algorithm, coalesceWrites);
      SameSizesOf(write, disk, w, d);
      StillBacked(read, disk, d);
      freed := freed + more;
      write, disk, cacheSize := w, d, cacheSize - more;
      Parts();
    }

    // ----------------------------------------------------------- the write job

    lemma InUseIs()
      ensures InUse() == cacheSize + outside
    {
    }

    /** Takes over a changed write cache and the buffer that came with the job. */
    method Replace(w: seq<CachedPiece>, d: Disk, change: int)
      requires Valid() && Sound(w, d) && AllBacked(read, d) && Total(w) == Total(write) + change
      modifies this`write, this`disk, this`cacheSize, this`outside
      ensures Valid() && write == w && disk == d && cacheSize == old(cacheSize) + change && outside == old(outside) - 1
    {
      Parts();
      hide *;
      write, disk, cacheSize, outside := w, d, cacheSize + change, outside - 1;
      Parts();
    }

    /** Makes room when the pool is at its limit, and does nothing below it. */
    method MakeRoom(extra: int, now: int)
      requires Valid() && 0 <= extra <= 1
      modifies this`read, this`write, this`disk, this`cacheSize, this`readCacheSize
      ensures Valid() && Same(old(write), old(disk), write, disk)
      ensures InUse() + extra <= limit || write == []
      ensures cacheSize <= old(cacheSize)
      ensures NoNewKeys(old(read), read) && Thinner(old(read), read) && NoNewKeys(old(write), write)
      ensures old(InUse()) + extra <= limit ==> read == old(read) && write == old(write) && disk == old(disk) && cacheSize == old(cacheSize)
    {
      assert Sound(write, disk);
      SameRefl(write, disk);
      NothingNew(write);
      NothingNew(read);
      hide Has, CachedAt;
      if InUse() + extra > limit {
        var _, _ := FlushCacheBlocks(InUse() - limit + extra, |read|, false, now);
      }
    }

    /** Takes over a block received from a peer. Whether the block is cached, written
        with a run or written alone, the piece now stands for itself with the block
        put in place, and every other piece for what it did. */
    method WriteJob(key: Key, k: int, bytes: seq<byte>, now: int)
      requires Valid() && outside >= 1 && key in disk && |bytes| == BLOCK_SIZE && 0 <= k < BlocksInPiece(|disk[key]|)
      modifies this`read, this`write, this`disk, this`cacheSize, this`readCacheSize, this`outside
      ensures Valid() && outside == old(outside) - 1
      ensures 0 < Len(|old(disk)[key]|, k) <= BLOCK_SIZE
      ensures Stored(old(write), old(disk), write, disk, key, Offset(k), bytes[..Len(|old(disk)[key]|, k)])
      ensures InUse() <= limit || write == []
      ensures NoNewKeys(old(read), read) && Thinner(old(read), read) && OnlyNewKey(old(write), write, key)
      ensures old(InUse()) < limit ==> read == old(read) && BlockStored(old(write), old(disk), write, disk, key, k, bytes, now, writeLine)
    {
      hide *;
      ghost var w0, d0, r0 := write, disk, read;
      InUseIs();
      MakeRoom(1, now);
      ghost var r1 := read;
      InUseIs();
      Parts();
      SameKey(w0, d0, write, disk, key);
      ghost var w1, d1 := write, disk;
      var w, d, cached, change := StoreBlock(write, disk, key, k, bytes, now, writeLine, coalesceWrites);
      ghost var data := bytes[..Len(|d0[key]|, k)];
      StoredSizes(w1, d1, w, d, key, Offset(k), data);
      StillBacked(read, disk, d);
      AfterStore(w0, d0, w1, d1, w, d, key, Offset(k), data);
      OnlyNewTrans(w0, w1, w, w, key);
      Replace(w, d, change);
      InUseIs();
      if cached {
        MakeRoom(0, now);
        NoNewTrans(r0, r1, read);
        ThinnerTrans(r0, r1, read);
        OnlyNewTrans(w0, w1, w, write, key);
        StoredSame(w0, d0, w0, d0, w, d, write, disk, key, Offset(k), data);
      }
    }

    /** The bytes a hash job reads back: everything written before it. */
    method HashJob(key: Key) returns (bytes: seq<byte>)
      requires Valid() && key in disk
      modifies this`write, this`disk, this`cacheSize
      ensures Valid() && Same(old(write), old(disk), write, disk) && cacheSize <= old(cacheSize)
      ensures bytes == Content(old(write), old(disk), key) && key in disk && disk[key] == bytes
      ensures NoNewKeys(old(write), write) && !Has(write, key) && OnlyPiece(old(disk), disk, key)
    {
      assert Sound(write, disk) && AllBacked(read, disk) && Keyed(read);
      hide Sound, AllBacked, Keyed, Content, Total, Has;
      var w, d, freed := FlushPiece(write, disk, key, coalesceWrites);
      SameSizesOf(write, disk, w, d);
      StillBacked(read, disk, d);
      hide *;
      write, disk, cacheSize := w, d, cacheSize - freed;
      bytes := disk[key];
    }

    // ------------------------------------------------------------ the read job

    /** How far ahead a read goes. */
    function ReadAhead(blocks: int): int
      reads this`cacheSize, this`outside, this`readCacheSize
    {
      var room := (limit + readCacheSize - InUse()) / 2;
      var most := if room < 3 then 3 else room;
      var some := if blocks < most then blocks else most;
      if some < readLine then some else readLine
    }

    /** Room for `blocks` more, from the read cache only. */
    method ReadRoom(blocks: int, i: int, now: int) returns (ok: bool, i': int)
      requires Valid() && 0 <= i <= |read|
      modifies this`read, this`write, this`disk, this`cacheSize, this`readCacheSize
      ensures Valid() && Kept(old(read), i, read, i') && NoNewKeys(old(read), read) && Thinner(old(read), read)
      ensures write == old(write) && disk == old(disk)
      ensures cacheSize <= old(cacheSize)
      ensures old(InUse()) + blocks <= limit ==> ok && read == old(read) && cacheSize == old(cacheSize)
    {
      NothingNew(read);
      hide Has, CachedAt;
      ok, i' := true, i;
      if InUse() + blocks > limit {
        var freed;
        freed, i' := FlushCacheBlocks(InUse() + blocks - limit, i, true, now);
        ok := freed != 0;
      }
    }

    /** Puts entry `q` in place of entry `i` of the same piece. */
    method SetEntry(i: int, q: CachedPiece)
      requires Valid() && 0 <= i < |read| && Exact(q) && KeyOf(q) == KeyOf(read[i]) && q.size == read[i].size
      modifies this`read, this`cacheSize, this`readCacheSize
      ensures Valid() && read == old(read)[i := q]
      ensures cacheSize == old(cacheSize) - old(read)[i].numBlocks + q.numBlocks
    {
      ChangedStays(read, i, q, disk);
      TotalChange(read, i, q);
      hide *;
      var change := q.numBlocks - read[i].numBlocks;
      read, cacheSize, readCacheSize := read[i := q], cacheSize + change, readCacheSize + change;
    }

    /** Serves a request from entry `i`, reading the blocks that are missing. A hit
        delivers the cached bytes without a disk read, a miss the bytes on disk with one. */
    method CopyFromPiece(i: int, offset: int, size: int, now: int, ok: bool, junk: seq<byte>)
      returns (ret: int, out: seq<byte>, i': int)
      requires Valid() && 0 <= i < |read| && InRange(read[i], offset, size) && |junk| == BLOCK_SIZE
      modifies this`read, this`write, this`disk, this`cacheSize, this`readCacheSize, this`diskReads
      ensures Valid() && write == old(write) && disk == old(disk) && KeyOf(old(read)[i]) in disk
      ensures Refreshed(old(read), read, disk) && NoNewKeys(old(read), read)
      ensures IsCacheHit(old(read)[i], offset, size) ==>
                ret == size && out == CachedBytes(old(read)[i], offset, size) && diskReads == old(diskReads)
      ensures !IsCacheHit(old(read)[i], offset, size) ==>
                && -2 <= ret && (ret == -1 ==> !ok) && (ret >= -1 ==> diskReads == old(diskReads) + 1)
                && (ret >= 0 ==> ret == size && offset + size <= |disk[KeyOf(old(read)[i])]|
                                 && out == disk[KeyOf(old(read)[i])][offset..offset + size])
      ensures 0 <= i' < |read| && KeyOf(read[i']) == KeyOf(old(read)[i]) && read[i'].lastUse == now
      ensures ret >= 0 ==> InRange(read[i'], offset, size) && Covered(read[i'], offset, size)
      ensures ok && old(InUse()) + MostWanted() <= limit ==> ret >= 0
    {
      hide *;
      Parts();
      InUseIs();
      out, i' := [], i;
      var p := read[i].(lastUse := now);
      var key := KeyOf(p);
      EntryBacked(read, disk, i);
      Retimed(read[i], p, offset, size);
      ghost var r0 := read;
      SetEntry(i, p);
      RefreshedEntry(r0, i, p, disk);
      ghost var r1 := read;
      InUseIs();
      var wanted := Wanted(p, offset, size);
      if IsCacheHit(p, offset, size) {
        HitIs(p, offset, size);
        out := CopyOut(p, offset, size);
        ret := size;
        return;
      }
      var room;
      room, i' := ReadRoom(wanted, i, now);
      InUseIs();
      KeptAt(r1, i, read, i');
      RefreshedThinner(r0, r1, read, disk);
      NoNewTrans(r0, r1, read);
      if !room { ret := -2; return; }
      var q, touched;
      q, ret, out, touched := ServeMiss(p, offset, size, wanted, InUse(), limit, disk[key], ok, junk);
      diskReads := diskReads + if touched then 1 else 0;
      ghost var r2 := read;
      KeyOfSame(p, q);
      SetEntry(i', q);
      RefreshedRenewed(r2, i', q, disk);
      RefreshedTrans(r0, r2, read, disk);
      NoNewTrans(r0, r2, read);
    }

    /** The most blocks a miss asks for. */
    function MostWanted(): int {
      if readLine < 2 then 2 else readLine
    }

    /** How many blocks a miss reads: the gap it fell into, within limits, but never
        fewer than the request needs. */
    method Wanted(p: CachedPiece, offset: int, size: int) returns (wanted: int)
      requires InRange(p, offset, size)
      ensures MostWanted() >= wanted >= MinBlocksToRead(offset, size) >= 1
    {
      Touched(p, offset, size);
      var end := EndOfGap(p.blocks, StartBlock(p, offset, size));
      wanted := ReadAhead(end - offset / 0x4000);
      if wanted < MinBlocksToRead(offset, size) { wanted := MinBlocksToRead(offset, size); }
    }

    /** Starts an entry for a piece with a read at `offset`. */
    method CacheReadBlock(key: Key, offset: int, now: int, ok: bool, junk: seq<byte>) returns (ret: int)
      requires Valid() && key in disk && 0 <= offset < |disk[key]| && readLine > 0 && |junk| == BLOCK_SIZE
      requires !Has(read, key)
      modifies this`read, this`write, this`disk, this`cacheSize, this`readCacheSize, this`diskReads
      ensures Valid() && write == old(write) && disk == old(disk) && -2 <= ret
      ensures Refreshed(old(read), read, disk) && OnlyNewKey(old(read), read, key)
      ensures ret >= 0 ==> |read| > 0 && KeyOf(read[|read| - 1]) == key && Coherent(read[|read| - 1], disk[key]) && read[|read| - 1].lastUse == now
      ensures ret < 0 ==> NoNewKeys(old(read), read)
      ensures ret >= 0 ==>
                FilledFrom(read[|read| - 1], offset / 0x4000, old(ReadAhead(BlocksInPiece(|disk[key]|) - offset / 0x4000)), InUse() >= limit)
      ensures ret >= -1 ==> diskReads == old(diskReads) + 1
      ensures ret == -1 ==> !ok
      ensures InUse() <= old(InUse()) + readLine
      ensures ok && old(InUse()) + readLine <= limit ==> ret >= 0
    {
      hide *;
      Parts();
      InUseIs();
      ghost var r0 := read;
      StartRange(offset, |disk[key]|);
      var n := BlocksInPiece(|disk[key]|);
      var start := offset / 0x4000;
      var wanted := ReadAhead(n - start);
      ReadAheadIs(n - start);
      var room, _ := ReadRoom(wanted, |read|, now);
      Parts();
      InUseIs();
      ghost var r1 := read;
      RefreshedThinner(r0, r0, r1, disk);
      NoNewIsOnly(r0, r1, key);
      if !room { ret := -2; return; }
      var q;
      q, ret := StartEntry(key, |disk[key]|, start, wanted, InUse(), limit, disk[key], now, ok, junk);
      diskReads := diskReads + if ret == -2 then 0 else 1;
      if ret >= 0 {
        StillMissing(r0, r1, key);
        AppendBacked(read, q, disk);
        read, cacheSize, readCacheSize := read + [q], cacheSize + q.numBlocks, readCacheSize + q.numBlocks;
        Parts();
        InUseIs();
        RefreshedAppend(r0, r1, q, disk);
        AppendedKey(r1, q);
        OnlyNewTrans(r0, r1, read, read, key);
      }
    }

    /** Serves a request through the read cache; `-2` when there is no room for it. */
    method TryReadFromCache(key: Key, offset: int, size: int, now: int, ok: bool, junk: seq<byte>)
      returns (ret: int, out: seq<byte>)
      requires Valid() && Asks(disk, key, offset, size) && readLine > 0 && |junk| == BLOCK_SIZE
      modifies this`read, this`write, this`disk, this`cacheSize, this`readCacheSize, this`diskReads
      ensures Valid() && write == old(write) && disk == old(disk)
      ensures Refreshed(old(read), read, disk) && OnlyNewKey(old(read), read, key)
      ensures Hit(old(read), key, offset, size) ==> ret >= 0
      ensures -2 <= ret && (ret == -1 ==> !ok) && (ret >= 0 ==> ret == size && out == Delivered(old(read), disk, key, offset, size))
      ensures ret >= 0 ==> Hit(read, key, offset, size)
      ensures ok && old(InUse()) + readLine + MostWanted() <= limit ==> ret >= 0
    {
      hide *;
      out := [];
      Parts();
      var i := Find(read, key);
      FindIs(read, key);
      AsksIs(disk, key, offset, size);
      MostWantedIs();
      ghost var r0 := read;
      var started := i == |read|;
      if started {
        MissIs(r0, disk, key, offset, size);
        ret := CacheReadBlock(key, offset, now, ok, junk);
        if ret < 0 { return; }
        i := |read| - 1;
      } else {
        RefreshedSelf(r0, disk);
        NothingNew(r0);
      }
      Parts();
      ghost var r1 := read;
      EntryBacked(read, disk, i);
      InRangeOf(read[i], offset, size);
      if !started { DeliveredIs(r0, disk, i, offset, size); }
      if started { CoherentDelivers(read[i], disk[key], offset, size); }
      var i';
      ret, out, i' := CopyFromPiece(i, offset, size, now, ok, junk);
      Parts();
      RefreshedTrans(r0, r1, read, disk);
      OnlyNewTrans(r0, r1, read, read, key);
      if ret >= 0 { HitThere(read, i', key, offset, size); }
    }

    /** A read job: through the cache if it can, past it if it must. It fails only when a
        disk read does, and then gives its buffer back; otherwise a cache hit delivers the cached bytes, and everything
        else the bytes on disk. */
    method ReadJob(key: Key, offset: int, size: int, useCache: bool, now: int, ok: bool, junk: seq<byte>)
      returns (ret: int, out: seq<byte>)
      requires Valid() && Asks(disk, key, offset, size) && readLine > 0 && |junk| == BLOCK_SIZE
      modifies this`read, this`write, this`disk, this`cacheSize, this`readCacheSize, this`diskReads, this`outside
      ensures Valid() && write == old(write) && disk == old(disk) && outside == old(outside) + if ret < 0 then 0 else 1
      ensures Refreshed(old(read), read, disk) && OnlyNewKey(old(read), read, key)
      ensures if ret < 0 then ret == -1 && !ok && !(useCache && Hit(old(read), key, offset, size))
              else ret == size && out == if useCache then Delivered(old(read), disk, key, offset, size) else disk[key][offset..offset + size]
      ensures useCache && ok && old(InUse()) + 1 + readLine + MostWanted() <= limit ==> ret >= 0 && Hit(read, key, offset, size)
    {
      hide *;
      InUseIs();
      AsksIs(disk, key, offset, size);
      RefreshedSelf(read, disk);
      NothingNew(read);
      NoNewIsOnly(read, read, key);
      MissOrHit(read, disk, key, offset, size);
      outside := outside + 1;
      InUseIs();
      Parts();
      ret, out := -2, [];
      if useCache {
        ret, out := TryReadFromCache(key, offset, size, now, ok, junk);
      }
      if ret == -2 {
        diskReads := diskReads + 1;
        ret := -1;
        if ok { ret, out := size, disk[key][offset..offset + size]; }
      }
      if ret < 0 { outside := outside - 1; }
    }

    lemma ReadAheadIs(blocks: int)
      requires readLine > 0
      ensures ReadAhead(blocks) <= readLine && (blocks > 0 ==> ReadAhead(blocks) > 0)
    {
    }

    /** A read goes as far ahead as the line and the rest of the piece, and no further
        than three blocks or half of what reads may use of the cache. */
    lemma ReadAheadExactly(blocks: int, n: int)
      ensures n <= ReadAhead(blocks) <==> n <= readLine && n <= blocks && (n <= 3 || 2 * n <= limit + readCacheSize - InUse())
    {
    }

    lemma MostWantedIs()
      ensures MostWanted() >= 2 && MostWanted() >= readLine && (MostWanted() == 2 || MostWanted() == readLine)
    {
    }
  }

  // ------------------------------------------------------ what reads do to the cache

  /** Every cached block was cached before, with the same bytes, or holds what is on disk. */
  ghost predicate Refreshed(r: seq<CachedPiece>, r': seq<CachedPiece>, disk: Disk) {
    forall key, k, b :: CachedAt(r', key, k, b) ==> CachedAt(r, key, k, b) || OnDisk(disk, key, k, b)
  }

  /** Buffer `b` holds block `k` of piece `key` as it is on disk. */
  ghost predicate OnDisk(disk: Disk, key: Key, k: int, b: Buffer) {
    key in disk && Mirrors(b, |disk[key]|, k, disk[key])
  }

  lemma RefreshedSelf(r: seq<CachedPiece>, disk: Disk)
    ensures Refreshed(r, r, disk)
  {
    hide CachedAt, OnDisk;
  }

  lemma RefreshedTrans(r: seq<CachedPiece>, r': seq<CachedPiece>, r'': seq<CachedPiece>, disk: Disk)
    requires Refreshed(r, r', disk) && Refreshed(r', r'', disk)
    ensures Refreshed(r, r'', disk)
  {
    hide CachedAt, OnDisk;
  }

  lemma RefreshedThinner(r: seq<CachedPiece>, r': seq<CachedPiece>, r'': seq<CachedPiece>, disk: Disk)
    requires r == r' || Refreshed(r, r', disk)
    requires Thinner(r', r'')
    ensures Refreshed(r, r'', disk)
  {
    hide CachedAt, OnDisk;
  }

  /** Changing an entry without touching its blocks. */
  lemma RefreshedEntry(r: seq<CachedPiece>, i: int, q: CachedPiece, disk: Disk)
    requires Keyed(r) && 0 <= i < |r| && KeyOf(q) == KeyOf(r[i]) && q.blocks == r[i].blocks
    ensures Refreshed(r, r[i := q], disk) && NoNewKeys(r, r[i := q])
  {
    ThinnerChange(r, i, q);
    SameKeysAt(r, disk, r[i := q], disk, i);
    hide CachedAt, OnDisk;
  }

  /** Reading into an entry. */
  lemma RefreshedRenewed(r: seq<CachedPiece>, i: int, q: CachedPiece, disk: Disk)
    requires 0 <= i < |r| && KeyOf(q) == KeyOf(r[i]) && KeyOf(q) in disk && q.size == |disk[KeyOf(q)]|
    requires r[i].size == q.size && Renewed(r[i], q, disk[KeyOf(q)])
    ensures Refreshed(r, r[i := q], disk) && NoNewKeys(r, r[i := q])
  {
    hide Mirrors;
    var r' := r[i := q];
    SameKeysAt(r, disk, r', disk, i);
    forall key, k, b | CachedAt(r', key, k, b) ensures CachedAt(r, key, k, b) || OnDisk(disk, key, k, b) {
      FindSame(r, r', key);
    }
  }

  /** Adding an entry that mirrors the disk. */
  lemma RefreshedAppend(r: seq<CachedPiece>, r': seq<CachedPiece>, q: CachedPiece, disk: Disk)
    requires Refreshed(r, r', disk) && KeyOf(q) in disk && Coherent(q, disk[KeyOf(q)])
    ensures Refreshed(r, r' + [q], disk)
  {
    hide Mirrors;
    var r'' := r' + [q];
    forall key, k, b | CachedAt(r'', key, k, b) ensures CachedAt(r, key, k, b) || OnDisk(disk, key, k, b) {
      FindAppend(r', q, key);
      assert key == KeyOf(q) && !CachedAt(r', key, k, b) ==> Mirrors(q.blocks[k], q.size, k, disk[key]);
    }
  }

  lemma OnlyNewTrans(s: seq<CachedPiece>, t: seq<CachedPiece>, u: seq<CachedPiece>, v: seq<CachedPiece>, key: Key)
    requires (NoNewKeys(s, t) || OnlyNewKey(s, t, key)) && (NoNewKeys(t, u) || OnlyNewKey(t, u, key)) && (u == v || NoNewKeys(u, v))
    ensures OnlyNewKey(s, v, key)
  {
    hide Has;
  }

  lemma NoNewIsOnly(s: seq<CachedPiece>, t: seq<CachedPiece>, key: Key)
    requires NoNewKeys(s, t)
    ensures OnlyNewKey(s, t, key)
  {
    hide Has;
  }

  lemma StillMissing(s: seq<CachedPiece>, t: seq<CachedPiece>, key: Key)
    requires NoNewKeys(s, t) && !Has(s, key)
    ensures !Has(t, key)
  {
    hide Has;
  }

  lemma EntryBacked(s: seq<CachedPiece>, disk: Disk, i: int)
    requires AllBacked(s, disk) && 0 <= i < |s|
    ensures Exact(s[i]) && Shaped(s[i]) && KeyOf(s[i]) in disk && |disk[KeyOf(s[i])]| == s[i].size
  {
    assert Backed(s[i], disk);
  }

  lemma KeptAt(r: seq<CachedPiece>, i: int, r': seq<CachedPiece>, i': int)
    requires Kept(r, i, r', i') && i < |r|
    ensures 0 <= i' < |r'| && r'[i'] == r[i]
  {
  }

  lemma HitIs(p: CachedPiece, offset: int, size: int)
    requires InRange(p, offset, size) && IsCacheHit(p, offset, size)
    ensures Covered(p, offset, size)
  {
  }

  lemma StartRange(offset: int, size: int)
    requires 0 <= offset < size
    ensures 0 <= offset / 0x4000 < BlocksInPiece(size)
  {
  }

  // ------------------------------------------------------------- what reads deliver

  /** A request for bytes of a piece there is. */
  ghost predicate Asks(disk: Disk, key: Key, offset: int, size: int) {
    key in disk && 0 <= offset && 0 < size <= BLOCK_SIZE && offset + size <= |disk[key]|
  }

  /** Every block of the request is in the read cache. */
  ghost predicate Hit(r: seq<CachedPiece>, key: Key, offset: int, size: int) {
    var i := Find(r, key);
    i < |r| && InRange(r[i], offset, size) && Covered(r[i], offset, size)
  }

  /** What a request through the cache delivers. */
  ghost function Delivered(r: seq<CachedPiece>, disk: Disk, key: Key, offset: int, size: int): seq<byte>
    requires Asks(disk, key, offset, size)
  {
    if Hit(r, key, offset, size) then CachedBytes(r[Find(r, key)], offset, size) else disk[key][offset..offset + size]
  }

  lemma AsksIs(disk: Disk, key: Key, offset: int, size: int)
    requires Asks(disk, key, offset, size)
    ensures key in disk && 0 <= offset < |disk[key]| && 0 < size <= BLOCK_SIZE && offset + size <= |disk[key]|
  {
  }

  lemma FindIs(s: seq<CachedPiece>, key: Key)
    ensures 0 <= Find(s, key) <= |s| && (Find(s, key) < |s| ==> KeyOf(s[Find(s, key)]) == key)
    ensures Has(s, key) <==> Find(s, key) < |s|
  {
  }

  lemma InRangeOf(p: CachedPiece, offset: int, size: int)
    requires Shaped(p) && 0 <= offset && 0 < size <= BLOCK_SIZE && offset + size <= p.size
    ensures InRange(p, offset, size)
  {
  }

  lemma MissIs(r: seq<CachedPiece>, disk: Disk, key: Key, offset: int, size: int)
    requires Asks(disk, key, offset, size) && Find(r, key) == |r|
    ensures !Hit(r, key, offset, size) && Delivered(r, disk, key, offset, size) == disk[key][offset..offset + size]
  {
  }

  lemma MissOrHit(r: seq<CachedPiece>, disk: Disk, key: Key, offset: int, size: int)
    requires Asks(disk, key, offset, size)
    ensures !Hit(r, key, offset, size) ==> Delivered(r, disk, key, offset, size) == disk[key][offset..offset + size]
  {
  }

  lemma DeliveredIs(r: seq<CachedPiece>, disk: Disk, i: int, offset: int, size: int)
    requires 0 <= i < |r| && Find(r, KeyOf(r[i])) == i && Asks(disk, KeyOf(r[i]), offset, size) && InRange(r[i], offset, size)
    ensures Hit(r, KeyOf(r[i]), offset, size) <==> IsCacheHit(r[i], offset, size)
    ensures Delivered(r, disk, KeyOf(r[i]), offset, size) ==
              if IsCacheHit(r[i], offset, size) then CachedBytes(r[i], offset, size) else disk[KeyOf(r[i])][offset..offset + size]
  {
  }

  lemma CoherentDelivers(p: CachedPiece, disk: seq<byte>, offset: int, size: int)
    requires InRange(p, offset, size) && Coherent(p, disk)
    ensures IsCacheHit(p, offset, size) ==> CachedBytes(p, offset, size) == disk[offset..offset + size]
  {
    if IsCacheHit(p, offset, size) {
      hide Mirrors, CachedBytes;
      CachedIsDisk(p, offset, size, disk);
    }
  }

  lemma HitThere(r: seq<CachedPiece>, i: int, key: Key, offset: int, size: int)
    requires Keyed(r) && 0 <= i < |r| && KeyOf(r[i]) == key && InRange(r[i], offset, size) && Covered(r[i], offset, size)
    ensures Hit(r, key, offset, size)
  {
    hide Covered, InRange;
    FindKeyed(r, i);
  }

  lemma NotThere(s: seq<CachedPiece>, key: Key)
    requires !Has(s, key)
    ensures forall i :: 0 <= i < |s| ==> KeyOf(s[i]) != key
  {
  }

  lemma AppendBacked(s: seq<CachedPiece>, q: CachedPiece, disk: Disk)
    requires AllBacked(s, disk) && Keyed(s) && Backed(q, disk) && !Has(s, KeyOf(q))
    ensures AllBacked(s + [q], disk) && Keyed(s + [q]) && Total(s + [q]) == Total(s) + q.numBlocks
  {
    TotalAppend(s, q);
    NotThere(s, KeyOf(q));
  }

  /** A new entry with the blocks read from `start` on. */
  /** Cached are the blocks from `start` on, and no others, as many as wanted or as the
      piece has, unless the pool was `full` before that. */
  ghost predicate FilledFrom(q: CachedPiece, start: int, wanted: int, full: bool) {
    exists end :: FilledTo(q, start, end) && end <= start + wanted && (end == |q.blocks| || end == start + wanted || full)
  }

  ghost predicate FilledTo(q: CachedPiece, start: int, end: int) {
    0 <= start < end <= |q.blocks| && forall k :: 0 <= k < |q.blocks| ==> (q.blocks[k].Data? <==> start <= k < end)
  }

  method StartEntry(key: Key, size: int, start: int, wanted: int, inUse: int, limit: int, disk: seq<byte>, now: int, ok: bool, junk: seq<byte>)
    returns (q: CachedPiece, ret: int)
    requires 0 < size == |disk| && 0 <= start < BlocksInPiece(size) && wanted > 0 && |junk| == BLOCK_SIZE
    ensures -2 <= ret && (ret == -1 ==> !ok) && (ret == -2 <==> inUse >= limit)
    ensures Exact(q) && KeyOf(q) == key && q.size == size && Coherent(q, disk) && q.numBlocks <= wanted && q.lastUse == now
    ensures ret >= 0 ==> FilledFrom(q, start, wanted, inUse + q.numBlocks >= limit)
  {
    var p := CachedPiece(key.storage, key.piece, size, now, 0, seq(BlocksInPiece(size), _ => Absent));
    CountZero(p.blocks);
    NothingCoherent(p, disk);
    var end;
    q, ret, end := ReadIntoPiece(p, start, false, wanted, inUse, limit, disk, ok, junk);
    if ret >= 0 {
      RefilledCoherent(p, q, disk, start, end);
      assert FilledTo(q, start, end);
    } else { NothingCoherent(q, disk); }
  }

  /** The time of use has no bearing on what an entry holds. */
  lemma Retimed(p: CachedPiece, q: CachedPiece, offset: int, size: int)
    requires Exact(p) && InRange(p, offset, size) && q == p.(lastUse := q.lastUse)
    ensures Exact(q) && InRange(q, offset, size) && KeyOf(q) == KeyOf(p)
    ensures IsCacheHit(p, offset, size) == IsCacheHit(q, offset, size)
    ensures IsCacheHit(p, offset, size) ==> CachedBytes(p, offset, size) == CachedBytes(q, offset, size)
  {
  }

  /** One past the gap that starts at `start`. */
  method EndOfGap(blocks: seq<Buffer>, start: int) returns (end: int)
    requires 0 <= start <= |blocks|
    ensures start <= end <= |blocks| && (forall k :: start <= k < end ==> blocks[k].Absent?)
    ensures end == |blocks| || blocks[end].Data?
  {
    end := start;
    while end < |blocks| && blocks[end].Absent?
      invariant start <= end <= |blocks| && forall k :: start <= k < end ==> blocks[k].Absent?
    {
      end := end + 1;
    }
  }

  lemma SameSizesOf(w: seq<CachedPiece>, disk: Disk, w': seq<CachedPiece>, disk': Disk)
    requires Same(w, disk, w', disk')
    ensures SameSizes(disk, disk')
  {
  }

  lemma SameKey(w: seq<CachedPiece>, disk: Disk, w': seq<CachedPiece>, disk': Disk, key: Key)
    requires Same(w, disk, w', disk') && key in disk
    ensures key in disk' && |disk'[key]| == |disk[key]|
  {
  }

  lemma StoredSizes(w: seq<CachedPiece>, disk: Disk, w': seq<CachedPiece>, disk': Disk, key: Key, offset: int, data: seq<byte>)
    requires Stored(w, disk, w', disk', key, offset, data)
    ensures SameSizes(disk, disk')
  {
  }

  lemma AfterStore(w0: seq<CachedPiece>, d0: Disk, w1: seq<CachedPiece>, d1: Disk, w: seq<CachedPiece>, d: Disk,
                   key: Key, offset: int, data: seq<byte>)
    requires Same(w0, d0, w1, d1) && Stored(w1, d1, w, d, key, offset, data)
    ensures Stored(w0, d0, w, d, key, offset, data) && Same(w0, d0, w0, d0)
  {
    SameRefl(w, d);
    SameRefl(w0, d0);
    StoredSame(w0, d0, w1, d1, w, d, w, d, key, offset, data);
  }
}
