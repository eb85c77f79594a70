/** Whole runs of write, hash and read jobs. */
module DiskRuns {
  import opened DiskBlocks
  import opened DiskCache
  import opened DiskReads
  import opened DiskThread

  datatype Job =
    | WriteBlock(key: Key, k: int, bytes: seq<byte>, now: int)
    | HashPiece(key: Key)
    | ReadBlock(key: Key, offset: int, size: int, useCache: bool, now: int, ok: bool, junk: seq<byte>)

  datatype Outcome = Written | Failed | Bytes(bytes: seq<byte>)

  /** What a cache looks like between two jobs. */
  datatype View = View(write: seq<CachedPiece>, read: seq<CachedPiece>, disk: Disk, cacheSize: int, readCacheSize: int)

  /** The job is about a piece there is, and a block or bytes it has. */
  ghost predicate Fits(j: Job, disk: Disk) {
    && j.key in disk
    && (j.WriteBlock? ==> |j.bytes| == BLOCK_SIZE && 0 <= j.k < BlocksInPiece(|disk[j.key]|))
    && (j.ReadBlock? ==> Asks(disk, j.key, j.offset, j.size) && |j.junk| == BLOCK_SIZE)
  }

  ghost predicate AllFit(jobs: seq<Job>, disk: Disk) {
    forall n :: 0 <= n < |jobs| ==> Fits(jobs[n], disk)
  }

  /** Both caches rest on the disk, no write entry is empty, and the counters are exact. */
  ghost predicate Exactly(s: View) {
    && Sound(s.write, s.disk) && AllBacked(s.read, s.disk) && Keyed(s.read)
    && s.readCacheSize == Total(s.read) && s.cacheSize == Total(s.write) + Total(s.read)
  }

  // ------------------------------------------------------------- one job

  /** What a job does to the write cache and the disk. */
  ghost predicate Done(w: seq<CachedPiece>, disk: Disk, w': seq<CachedPiece>, disk': Disk, j: Job)
    requires Fits(j, disk)
  {
    match j
    case WriteBlock(key, k, bytes, _) =>
      && 0 < Len(|disk[key]|, k) <= BLOCK_SIZE
      && Stored(w, disk, w', disk', key, Offset(k), bytes[..Len(|disk[key]|, k)])
    case _ => Same(w, disk, w', disk')
  }

  /** What a job delivers. */
  ghost predicate Answers(s: View, j: Job, o: Outcome)
    requires Fits(j, s.disk) && AllBacked(s.write, s.disk)
  {
    match j
    case WriteBlock(_, _, _, _) => o == Written
    case HashPiece(key) => o == Bytes(Content(s.write, s.disk, key))
    case ReadBlock(key, offset, size, useCache, _, ok, _) =>
      if o == Failed then !ok && !(useCache && Hit(s.read, key, offset, size))
      else o == Bytes(if useCache then Delivered(s.read, s.disk, key, offset, size) else s.disk[key][offset..offset + size])
  }

  /** Which entries a job may add, and what a hash or a read leaves alone. */
  ghost predicate Entries(s: View, j: Job, s': View)
    requires j.key in s.disk && AllBacked(s.write, s.disk)
  {
    && OnlyNewKey(s.write, s'.write, j.key) && OnlyNewKey(s.read, s'.read, j.key)
    && (!j.WriteBlock? ==> NoNewKeys(s.write, s'.write)) && (!j.ReadBlock? ==> NoNewKeys(s.read, s'.read))
    && (j.HashPiece? ==>
          && s'.read == s.read && !Has(s'.write, j.key)
          && OnlyPiece(s.disk, s'.disk, j.key) && j.key in s'.disk && s'.disk[j.key] == Content(s.write, s.disk, j.key))
    && (j.ReadBlock? ==> s'.write == s.write && s'.disk == s.disk)
  }

  ghost predicate Stepped(s: View, j: Job, o: Outcome, s': View) {
    && Exactly(s) && Exactly(s') && Fits(j, s.disk)
    && Done(s.write, s.disk, s'.write, s'.disk, j) && Answers(s, j, o)
    && Refreshed(s.read, s'.read, s'.disk) && Entries(s, j, s')
  }

  ghost function ViewOf(c: Cache): View
    reads c
  {
    View(c.write, c.read, c.disk, c.cacheSize, c.readCacheSize)
  }

  lemma ViewIs(c: Cache)
    ensures c.Valid() <==> Exactly(ViewOf(c))
  {
    hide Sound, AllBacked, Keyed, Total;
  }

  /** Runs one job. */
  method Perform(c: Cache, j: Job) returns (o: Outcome)
    requires c.Valid() && c.outside >= 0 && c.readLine > 0 && Fits(j, c.disk)
    modifies c
    ensures c.Valid() && c.outside >= 0 && Stepped(old(ViewOf(c)), j, o, ViewOf(c))
  {
    ghost var s := ViewOf(c);
    ViewIs(c);
    assert AllBacked(s.write, s.disk);
    FitsIs(j, c.disk);
    hide *;
    match j {
      case WriteBlock(key, k, block, now) =>
        c.outside := c.outside + 1;
        ViewIs(c);
        ViewSame(c, s);
        c.WriteJob(key, k, block, now);
        o := Written;
        ViewIs(c);
        ViewParts(c);
        WriteStepped(s, j, ViewOf(c));
      case HashPiece(key) =>
        var bytes := c.HashJob(key);
        o := Bytes(bytes);
        ViewIs(c);
        ViewParts(c);
        HashStepped(s, j, bytes, ViewOf(c));
      case ReadBlock(key, offset, size, useCache, now, ok, junk) =>
        var ret, out := c.ReadJob(key, offset, size, useCache, now, ok, junk);
        o := if ret < 0 then Failed else Bytes(out);
        ViewIs(c);
        ViewParts(c);
        ReadStepped(s, j, o, ViewOf(c));
    }
  }

  lemma FitsIs(j: Job, disk: Disk)
    requires Fits(j, disk)
    ensures j.key in disk
    ensures j.WriteBlock? ==> |j.bytes| == BLOCK_SIZE && 0 <= j.k < BlocksInPiece(|disk[j.key]|)
    ensures j.ReadBlock? ==> Asks(disk, j.key, j.offset, j.size) && |j.junk| == BLOCK_SIZE
  {
  }

  lemma ViewParts(c: Cache)
    ensures ViewOf(c) == View(c.write, c.read, c.disk, c.cacheSize, c.readCacheSize)
  {
  }

  lemma ViewSame(c: Cache, s: View)
    requires s == View(c.write, c.read, c.disk, c.cacheSize, c.readCacheSize)
    ensures ViewOf(c) == s
  {
  }

  lemma WriteStepped(s: View, j: Job, s': View)
    requires Exactly(s) && Exactly(s') && Fits(j, s.disk) && j.WriteBlock? && 0 < Len(|s.disk[j.key]|, j.k) <= BLOCK_SIZE
    requires Stored(s.write, s.disk, s'.write, s'.disk, j.key, Offset(j.k), j.bytes[..Len(|s.disk[j.key]|, j.k)])
    requires NoNewKeys(s.read, s'.read) && Thinner(s.read, s'.read) && OnlyNewKey(s.write, s'.write, j.key)
    ensures Stepped(s, j, Written, s')
  {
    hide Stored, Thinner, NoNewKeys, OnlyNewKey, Refreshed, AllBacked, Keyed, Busy, Total, Fits;
    RefreshedThinner(s.read, s.read, s'.read, s'.disk);
    NoNewIsOnly(s.read, s'.read, j.key);
  }

  lemma HashStepped(s: View, j: Job, bytes: seq<byte>, s': View)
    requires Exactly(s) && Exactly(s') && Fits(j, s.disk) && j.HashPiece? && s'.read == s.read
    requires Same(s.write, s.disk, s'.write, s'.disk) && NoNewKeys(s.write, s'.write) && !Has(s'.write, j.key)
    requires AllBacked(s.write, s.disk) && j.key in s.disk && bytes == Content(s.write, s.disk, j.key)
    requires OnlyPiece(s.disk, s'.disk, j.key) && j.key in s'.disk && s'.disk[j.key] == bytes
    ensures Stepped(s, j, Bytes(bytes), s')
  {
    hide Same, Thinner, NoNewKeys, OnlyNewKey, Refreshed, AllBacked, Keyed, Busy, Total, Fits, Content, OnlyPiece, Has;
    RefreshedSelf(s.read, s'.disk);
    NothingNew(s.read);
    NoNewIsOnly(s.read, s'.read, j.key);
    NoNewIsOnly(s.write, s'.write, j.key);
  }

  lemma ReadStepped(s: View, j: Job, o: Outcome, s': View)
    requires Exactly(s) && Exactly(s') && Fits(j, s.disk) && j.ReadBlock? && s'.write == s.write && s'.disk == s.disk
    requires Refreshed(s.read, s'.read, s.disk) && OnlyNewKey(s.read, s'.read, j.key) && Asks(s.disk, j.key, j.offset, j.size)
    requires if o == Failed then !j.ok && !(j.useCache && Hit(s.read, j.key, j.offset, j.size))
             else o == Bytes(if j.useCache then Delivered(s.read, s.disk, j.key, j.offset, j.size)
                             else s.disk[j.key][j.offset..j.offset + j.size])
    ensures Stepped(s, j, o, s')
  {
    hide Same, Thinner, NoNewKeys, OnlyNewKey, Refreshed, AllBacked, Keyed, Busy, Total, Content, OnlyPiece, Has, Hit, Delivered, Asks;
    NothingNew(s.write);
    NoNewIsOnly(s.write, s'.write, j.key);
    SameRefl(s.write, s.disk);
  }

  // ------------------------------------------------------------------- runs

  ghost predicate StepAt(t: seq<View>, jobs: seq<Job>, outs: seq<Outcome>, n: int) {
    0 <= n < |jobs| && |outs| == |jobs| && |t| == |jobs| + 1 && Stepped(t[n], jobs[n], outs[n], t[n + 1])
  }

  /** The states of a run, from before the first job to after the last. */
  ghost predicate Traced(t: seq<View>, jobs: seq<Job>, outs: seq<Outcome>) {
    |outs| == |jobs| && |t| == |jobs| + 1 && forall n :: 0 <= n < |jobs| ==> StepAt(t, jobs, outs, n)
  }

  /** Runs any sequence of jobs. Before and after every one of them the counters are
      exact; the trace tells what each job has done. */
  method Run(c: Cache, jobs: seq<Job>) returns (outs: seq<Outcome>, ghost t: seq<View>)
    requires c.Valid() && c.outside >= 0 && c.readLine > 0 && AllFit(jobs, c.disk)
    modifies c
    ensures c.Valid() && Traced(t, jobs, outs) && t[0] == old(ViewOf(c)) && t[|jobs|] == ViewOf(c)
    ensures forall n :: 0 <= n <= |jobs| ==> Exactly(t[n])
  {
    hide *;
    outs, t := [], [ViewOf(c)];
    ghost var d0 := c.disk;
    TracedStart(c, jobs);
    var n := 0;
    while n < |jobs|
      invariant 0 <= n == |outs| <= |jobs| && |t| == n + 1 && c.Valid() && c.outside >= 0
      invariant Traced(t, jobs[..n], outs) && t[0] == old(ViewOf(c)) && t[n] == ViewOf(c)
      invariant forall m :: 0 <= m <= n ==> Exactly(t[m])
      invariant SameSizes(d0, t[n].disk)
    {
      ViewParts(c);
      FitsStill(jobs, n, d0, c.disk);
      ghost var t0, outs0 := t, outs;
      var o := Perform(c, jobs[n]);
      ViewIs(c);
      outs, t := outs + [o], t + [ViewOf(c)];
      TracedMore(t0, jobs, outs0, n, o, ViewOf(c));
      SizesStay(d0, t0[n], jobs[n], o, ViewOf(c));
      n := n + 1;
    }
    assert jobs[..n] == jobs;
  }

  lemma TracedStart(c: Cache, jobs: seq<Job>)
    requires c.Valid()
    ensures Traced([ViewOf(c)], jobs[..0], []) && Exactly(ViewOf(c)) && SameSizes(c.disk, ViewOf(c).disk)
  {
    ViewIs(c);
  }

  lemma FitsStill(jobs: seq<Job>, n: int, disk0: Disk, disk: Disk)
    requires AllFit(jobs, disk0) && SameSizes(disk0, disk) && 0 <= n < |jobs|
    ensures Fits(jobs[n], disk)
  {
    assert Fits(jobs[n], disk0);
  }

  lemma TracedMore(t: seq<View>, jobs: seq<Job>, outs: seq<Outcome>, n: int, o: Outcome, s: View)
    requires 0 <= n < |jobs| && Traced(t, jobs[..n], outs) && Stepped(t[n], jobs[n], o, s)
    ensures Traced(t + [s], jobs[..n + 1], outs + [o])
  {
    hide Stepped;
    var t', js, os := t + [s], jobs[..n + 1], outs + [o];
    forall m | 0 <= m < |js| ensures StepAt(t', js, os, m) {
      if m < n {
        assert StepAt(t, jobs[..n], outs, m);
        assert t'[m] == t[m] && t'[m + 1] == t[m + 1] && js[m] == jobs[..n][m] && os[m] == outs[m];
      }
    }
  }

  lemma SizesStay(d0: Disk, s: View, j: Job, o: Outcome, s': View)
    requires Stepped(s, j, o, s') && SameSizes(d0, s.disk)
    ensures SameSizes(d0, s'.disk)
  {
    hide Stepped;
    SteppedSizes(s, j, o, s');
  }

  lemma SteppedSizes(s: View, j: Job, o: Outcome, s': View)
    requires Stepped(s, j, o, s')
    ensures SameSizes(s.disk, s'.disk) && AllBacked(s.write, s.disk) && AllBacked(s'.write, s'.disk)
  {
    hide Answers, Entries, Refreshed, Content, Total;
  }

  // ---------------------------------------------------- what a run has written

  /** The disk after one job, were every write to go straight to it. */
  ghost function Straight(disk: Disk, j: Job): (d: Disk)
    ensures SameSizes(disk, d)
  {
    if j.WriteBlock? && Fits(j, disk) then
      LenOfBlock(|disk[j.key]|, j.k);
      disk[j.key := Put(disk[j.key], Offset(j.k), j.bytes[..Len(|disk[j.key]|, j.k)])]
    else disk
  }

  ghost function After(disk: Disk, jobs: seq<Job>): (d: Disk)
    ensures SameSizes(disk, d)
  {
    if |jobs| == 0 then disk else Straight(After(disk, jobs[..|jobs| - 1]), jobs[|jobs| - 1])
  }

  /** Cache and disk together stand for what the jobs have written. */
  ghost predicate Stands(s: View, disk0: Disk, jobs: seq<Job>) {
    && AllBacked(s.write, s.disk) && SameSizes(disk0, s.disk)
    && forall key :: key in s.disk ==> Content(s.write, s.disk, key) == After(disk0, jobs)[key]
  }

  lemma StraightAt(d: Disk, disk: Disk, j: Job, key: Key)
    requires SameSizes(d, disk) && Fits(j, disk) && key in d
    ensures j.WriteBlock? ==> 0 < Len(|disk[j.key]|, j.k) <= BLOCK_SIZE
    ensures Straight(d, j)[key] ==
              if j.WriteBlock? && key == j.key then
                (LenOfBlock(|d[key]|, j.k); Put(d[key], Offset(j.k), j.bytes[..Len(|disk[key]|, j.k)]))
              else d[key]
  {
    if j.WriteBlock? { LenOfBlock(|disk[j.key]|, j.k); }
  }

  lemma ContentNext(w: seq<CachedPiece>, disk: Disk, w': seq<CachedPiece>, disk': Disk, d: Disk, j: Job, key: Key)
    requires Fits(j, disk) && Done(w, disk, w', disk', j) && SameSizes(d, disk) && key in d
    requires AllBacked(w, disk) && AllBacked(w', disk') && key in disk' && Content(w, disk, key) == d[key]
    ensures Content(w', disk', key) == Straight(d, j)[key]
  {
    hide Straight, Content, AllBacked, Put, Fits;
    StraightAt(d, disk, j, key);
  }

  lemma AfterNext(disk0: Disk, jobs: seq<Job>, n: int)
    requires 0 <= n < |jobs|
    ensures After(disk0, jobs[..n + 1]) == Straight(After(disk0, jobs[..n]), jobs[n])
    ensures After(disk0, jobs[..n + 1]).Keys == After(disk0, jobs[..n]).Keys
  {
    assert jobs[..n + 1][..n] == jobs[..n];
  }

  lemma SteppedDone(s: View, j: Job, o: Outcome, s': View)
    requires Stepped(s, j, o, s')
    ensures Fits(j, s.disk) && Done(s.write, s.disk, s'.write, s'.disk, j)
  {
  }

  lemma StandsAt(s: View, disk0: Disk, jobs: seq<Job>, key: Key)
    requires Stands(s, disk0, jobs)
    ensures AllBacked(s.write, s.disk) && SameSizes(disk0, s.disk) && SameSizes(After(disk0, jobs), s.disk)
    ensures key in s.disk ==> key in After(disk0, jobs) && Content(s.write, s.disk, key) == After(disk0, jobs)[key]
  {
    hide After, Content;
  }

  /** One job changes what cache and disk stand for as a direct write would. */
  lemma StandsNext(s: View, j: Job, o: Outcome, s': View, disk0: Disk, jobs: seq<Job>, n: int)
    requires 0 <= n < |jobs| && jobs[n] == j && Stands(s, disk0, jobs[..n]) && Stepped(s, j, o, s')
    ensures Stands(s', disk0, jobs[..n + 1])
  {
    hide *;
    SteppedSizes(s, j, o, s');
    SteppedDone(s, j, o, s');
    AfterNext(disk0, jobs, n);
    forall key | key in s'.disk ensures key in After(disk0, jobs[..n + 1]) && Content(s'.write, s'.disk, key) == After(disk0, jobs[..n + 1])[key] {
      SizesKey(s.disk, s'.disk, key);
      StandsAt(s, disk0, jobs[..n], key);
      ContentNext(s.write, s.disk, s'.write, s'.disk, After(disk0, jobs[..n]), j, key);
    }
    StandsBack(s, s', disk0, jobs[..n], jobs[..n + 1]);
  }

  lemma SizesKey(disk: Disk, disk': Disk, key: Key)
    requires SameSizes(disk, disk')
    ensures key in disk <==> key in disk'
  {
  }

  lemma StandsBack(s: View, s': View, disk0: Disk, jobs: seq<Job>, jobs': seq<Job>)
    requires Stands(s, disk0, jobs) && SameSizes(s.disk, s'.disk) && AllBacked(s'.write, s'.disk)
    requires forall key :: key in s'.disk ==> key in After(disk0, jobs') && Content(s'.write, s'.disk, key) == After(disk0, jobs')[key]
    ensures Stands(s', disk0, jobs')
  {
    hide After, Content, AllBacked;
  }

  /** At every point of a run cache and disk stand for exactly what was written. */
  lemma {:induction false} RunStands(t: seq<View>, jobs: seq<Job>, outs: seq<Outcome>, n: int)
    requires Traced(t, jobs, outs) && Exactly(t[0]) && t[0].write == [] && 0 <= n <= |jobs|
    ensures Stands(t[n], t[0].disk, jobs[..n])
    decreases n
  {
    hide *;
    TracedSizes(t, jobs, outs);
    if n == 0 {
      NothingWritten(t[0]);
      assert jobs[..0] == [];
    } else {
      StepOf(t, jobs, outs, n - 1);
      RunStands(t, jobs, outs, n - 1);
      StandsNext(t[n - 1], jobs[n - 1], outs[n - 1], t[n], t[0].disk, jobs, n - 1);
    }
  }

  lemma NothingWritten(s: View)
    requires Exactly(s) && s.write == []
    ensures Stands(s, s.disk, [])
  {
  }

  lemma TracedSizes(t: seq<View>, jobs: seq<Job>, outs: seq<Outcome>)
    requires Traced(t, jobs, outs)
    ensures |outs| == |jobs| && |t| == |jobs| + 1
  {
  }

  lemma StepOf(t: seq<View>, jobs: seq<Job>, outs: seq<Outcome>, n: int)
    requires Traced(t, jobs, outs) && 0 <= n < |jobs|
    ensures |outs| == |jobs| && |t| == |jobs| + 1 && Stepped(t[n], jobs[n], outs[n], t[n + 1])
  {
    hide Stepped;
    assert StepAt(t, jobs, outs, n);
  }

  /** A hash job reads its piece with every earlier write to it, and no other, in place. */
  lemma HashSeesWrites(t: seq<View>, jobs: seq<Job>, outs: seq<Outcome>, n: int)
    requires Traced(t, jobs, outs) && Exactly(t[0]) && t[0].write == [] && 0 <= n < |jobs| && jobs[n].HashPiece?
    ensures jobs[n].key in After(t[0].disk, jobs[..n]) && outs[n] == Bytes(After(t[0].disk, jobs[..n])[jobs[n].key])
  {
    hide *;
    StepOf(t, jobs, outs, n);
    RunStands(t, jobs, outs, n);
    StandsAt(t[n], t[0].disk, jobs[..n], jobs[n].key);
    HashAnswer(t[n], jobs[n], outs[n], t[n + 1]);
  }

  lemma HashAnswer(s: View, j: Job, o: Outcome, s': View)
    requires Stepped(s, j, o, s') && j.HashPiece?
    ensures j.key in s.disk && AllBacked(s.write, s.disk) && o == Bytes(Content(s.write, s.disk, j.key))
  {
    hide Content, Total, Refreshed, Entries;
  }

  // ------------------------------------------------------- what a read delivers

  /** Every cached block of the piece is as on disk. */
  ghost predicate Mirrored(s: View, key: Key) {
    forall k, b :: CachedAt(s.read, key, k, b) ==> OnDisk(s.disk, key, k, b)
  }

  /** Block `k` of the piece is the same on both disks. */
  ghost predicate SameBlock(disk: Disk, disk': Disk, key: Key, k: int) {
    && key in disk && key in disk' && |disk[key]| == |disk'[key]| && 0 <= k < BlocksInPiece(|disk[key]|)
    && forall q :: Offset(k) <= q < Offset(k) + BLOCK_SIZE && 0 <= q < |disk[key]| ==> disk'[key][q] == disk[key][q]
  }

  /** A buffer that mirrors one disk mirrors another exactly when the block is the same on both. */
  lemma MirrorsBoth(disk: Disk, disk': Disk, key: Key, k: int, b: Buffer)
    requires b.Data? && OnDisk(disk, key, k, b) && SameSizes(disk, disk')
    ensures OnDisk(disk', key, k, b) <==> SameBlock(disk, disk', key, k)
  {
    var d, d' := disk[key], disk'[key];
    var size := |d|;
    LenOfBlock(size, k);
    var len := Len(size, k);
    var x, y := d[Offset(k)..Offset(k) + len], d'[Offset(k)..Offset(k) + len];
    assert b.bytes[..len] == x;
    if x == y {
      forall q | Offset(k) <= q < Offset(k) + BLOCK_SIZE && 0 <= q < size ensures d'[q] == d[q] {
        assert x[q - Offset(k)] == d[q] && y[q - Offset(k)] == d'[q];
      }
    }
    if SameBlock(disk, disk', key, k) {
      assert forall i :: 0 <= i < len ==> x[i] == y[i];
    }
  }

  /** Of a piece whose cached blocks are as on disk, a job keeps that so exactly when it
      changes no block on disk that stays in the read cache. */
  lemma MirrorKeptExactly(s: View, j: Job, o: Outcome, s': View, key: Key)
    requires Stepped(s, j, o, s') && Mirrored(s, key)
    ensures Mirrored(s', key) <==>
              forall k, b :: CachedAt(s.read, key, k, b) && CachedAt(s'.read, key, k, b) ==> SameBlock(s.disk, s'.disk, key, k)
  {
    SteppedSizes(s, j, o, s');
    SteppedRead(s, j, o, s');
    hide *;
    MirroredIs(s, key);
    MirroredIs(s', key);
    RefreshedIs(s.read, s'.read, s'.disk);
    CachedIsData();
    forall k, b | CachedAt(s.read, key, k, b) ensures OnDisk(s'.disk, key, k, b) <==> SameBlock(s.disk, s'.disk, key, k) {
      MirrorsBoth(s.disk, s'.disk, key, k, b);
    }
  }

  lemma CachedIsData()
    ensures forall r, key, k, b :: CachedAt(r, key, k, b) ==> b.Data?
  {
  }

  lemma MirroredIs(s: View, key: Key)
    ensures Mirrored(s, key) <==> forall k, b :: CachedAt(s.read, key, k, b) ==> OnDisk(s.disk, key, k, b)
  {
    hide CachedAt, OnDisk;
  }

  lemma RefreshedIs(r: seq<CachedPiece>, r': seq<CachedPiece>, disk: Disk)
    ensures Refreshed(r, r', disk) <==> forall key, k, b :: CachedAt(r', key, k, b) ==> CachedAt(r, key, k, b) || OnDisk(disk, key, k, b)
  {
    hide CachedAt, OnDisk;
  }

  lemma SteppedRead(s: View, j: Job, o: Outcome, s': View)
    requires Stepped(s, j, o, s')
    ensures Refreshed(s.read, s'.read, s'.disk)
  {
    hide Refreshed;
  }

  /** A read that does not fail delivers the bytes on disk exactly unless it is a cache hit
      on bytes that differ from them; it does so of any piece whose cached blocks are as on disk. */
  lemma ReadExactly(s: View, j: Job, o: Outcome, s': View)
    requires Stepped(s, j, o, s') && j.ReadBlock? && o.Bytes?
    ensures Asks(s.disk, j.key, j.offset, j.size)
    ensures o.bytes == s.disk[j.key][j.offset..j.offset + j.size] <==>
              !(j.useCache && Hit(s.read, j.key, j.offset, j.size)
                && CachedBytes(s.read[Find(s.read, j.key)], j.offset, j.size) != s.disk[j.key][j.offset..j.offset + j.size])
    ensures Mirrored(s, j.key) ==> o.bytes == s.disk[j.key][j.offset..j.offset + j.size]
  {
    hide *;
    ReadAnswer(s, j, o, s');
    SteppedExact(s, j, o, s');
    AsksIs(s.disk, j.key, j.offset, j.size);
    if Mirrored(s, j.key) && Hit(s.read, j.key, j.offset, j.size) {
      HitMirrored(s, j.key, j.offset, j.size);
    }
  }

  lemma SteppedExact(s: View, j: Job, o: Outcome, s': View)
    requires Stepped(s, j, o, s')
    ensures Exactly(s) && Exactly(s')
  {
    hide Exactly;
  }

  lemma HitMirrored(s: View, key: Key, offset: int, size: int)
    requires Exactly(s) && Mirrored(s, key) && Asks(s.disk, key, offset, size) && Hit(s.read, key, offset, size)
    ensures CachedBytes(s.read[Find(s.read, key)], offset, size) == s.disk[key][offset..offset + size]
  {
    var i := Find(s.read, key);
    var p := s.read[i];
    assert Backed(p, s.disk);
    hide CachedBytes, Mirrors, Total;
    forall k | offset / 0x4000 <= k <= (offset + size - 1) / 0x4000 && 0 <= k < |p.blocks| ensures Mirrors(p.blocks[k], p.size, k, s.disk[key]) {
      assert CachedAt(s.read, key, k, p.blocks[k]);
      assert OnDisk(s.disk, key, k, p.blocks[k]);
    }
    CachedIsDisk(p, offset, size, s.disk[key]);
  }

  /** Before a hash job it can be told whether its piece will be mirrored after it: the
      cached blocks must hold what the piece stands for. Other pieces are left alone. */
  lemma HashKeepsMirror(s: View, j: Job, o: Outcome, s': View, key: Key)
    requires Stepped(s, j, o, s') && j.HashPiece? && key in s.disk
    ensures AllBacked(s.write, s.disk)
    ensures key == j.key ==>
              (Mirrored(s', key) <==>
                 forall k, b :: CachedAt(s.read, key, k, b) ==> OnDisk(s.disk[key := Content(s.write, s.disk, key)], key, k, b))
    ensures key != j.key ==> (Mirrored(s', key) <==> Mirrored(s, key))
  {
    hide Content, CachedAt, Mirrors, Total, Refreshed, Answers;
  }

  /** A piece without cached writes is not changed by jobs that are not writes to it. */
  lemma NotWritten(s: View, j: Job, o: Outcome, s': View, key: Key)
    requires Stepped(s, j, o, s') && key in s.disk && !Has(s.write, key) && !(j.WriteBlock? && j.key == key)
    ensures !Has(s'.write, key) && key in s'.disk && s'.disk[key] == s.disk[key]
    ensures Mirrored(s, key) ==> Mirrored(s', key)
  {
    SteppedSizes(s, j, o, s');
    SteppedRead(s, j, o, s');
    ContentStays(s, j, o, s', key);
    hide *;
    SizesKey(s.disk, s'.disk, key);
    NoEntryNoChange(s.write, s.disk, s'.write, s'.disk, key);
    MirroredIs(s, key);
    MirroredIs(s', key);
    RefreshedIs(s.read, s'.read, s'.disk);
    forall k, b ensures OnDisk(s.disk, key, k, b) ==> OnDisk(s'.disk, key, k, b) { OnSameDisk(s.disk, s'.disk, key, k, b); }
  }

  lemma OnSameDisk(disk: Disk, disk': Disk, key: Key, k: int, b: Buffer)
    requires key in disk && key in disk' && disk[key] == disk'[key]
    ensures OnDisk(disk, key, k, b) <==> OnDisk(disk', key, k, b)
  {
  }

  lemma ContentStays(s: View, j: Job, o: Outcome, s': View, key: Key)
    requires Stepped(s, j, o, s') && key in s.disk && !Has(s.write, key) && !(j.WriteBlock? && j.key == key)
    ensures AllBacked(s.write, s.disk) && AllBacked(s'.write, s'.disk) && key in s'.disk
    ensures Content(s'.write, s'.disk, key) == Content(s.write, s.disk, key) && !Has(s'.write, key)
  {
    hide Content, Has, Total, Refreshed, Answers, AllBacked, Put;
  }

  // --------------------------------------------------------------- settled pieces

  /** No job among `jobs[from..upto]` is a write to, or a read of, the piece. */
  ghost predicate NoWrites(jobs: seq<Job>, key: Key, from: int, upto: int) {
    forall n :: from <= n < upto && 0 <= n < |jobs| ==> !(jobs[n].WriteBlock? && jobs[n].key == key)
  }

  ghost predicate NoReads(jobs: seq<Job>, key: Key, from: int, upto: int) {
    forall n :: from <= n < upto && 0 <= n < |jobs| ==> !(jobs[n].ReadBlock? && jobs[n].key == key)
  }

  lemma {:induction false} NotReadYet(t: seq<View>, jobs: seq<Job>, outs: seq<Outcome>, key: Key, n: int)
    requires Traced(t, jobs, outs) && t[0].read == [] && 0 <= n <= |jobs| && NoReads(jobs, key, 0, n)
    ensures !Has(t[n].read, key)
    decreases n
  {
    hide Traced, Stepped;
    if n > 0 {
      StepOf(t, jobs, outs, n - 1);
      NotReadYet(t, jobs, outs, key, n - 1);
      NoNewRead(t[n - 1], jobs[n - 1], outs[n - 1], t[n], key);
    }
  }

  lemma NoNewRead(s: View, j: Job, o: Outcome, s': View, key: Key)
    requires Stepped(s, j, o, s') && !Has(s.read, key) && !(j.ReadBlock? && j.key == key)
    ensures !Has(s'.read, key)
  {
    hide Has, Content, Total, Refreshed, Answers, Done, AllBacked;
  }

  /** After a hash job, and until the next write, the piece on disk is complete and, if it
      was not read before, mirrored. */
  lemma {:induction false} Settled(t: seq<View>, jobs: seq<Job>, outs: seq<Outcome>, key: Key, h: int, n: int)
    requires Traced(t, jobs, outs) && t[0].read == [] && 0 <= h < n <= |jobs|
    requires jobs[h] == HashPiece(key) && NoReads(jobs, key, 0, h) && NoWrites(jobs, key, h, n)
    ensures !Has(t[n].write, key) && key in t[n].disk && Mirrored(t[n], key)
    decreases n
  {
    hide Stepped, Mirrored, Has;
    StepOf(t, jobs, outs, n - 1);
    if n == h + 1 {
      NotReadYet(t, jobs, outs, key, h);
      HashSettles(t[h], jobs[h], outs[h], t[h + 1]);
    } else {
      Settled(t, jobs, outs, key, h, n - 1);
      NotWritten(t[n - 1], jobs[n - 1], outs[n - 1], t[n], key);
    }
  }

  lemma HashSettles(s: View, j: Job, o: Outcome, s': View)
    requires Stepped(s, j, o, s') && j.HashPiece? && !Has(s.read, j.key)
    ensures !Has(s'.write, j.key) && j.key in s'.disk && Mirrored(s', j.key)
  {
    hide Content, Total, Refreshed, Answers, OnDisk;
  }

  /** Reads of a piece that was hashed before it was first read, and not written after,
      deliver exactly what was written. */
  lemma SettledReads(t: seq<View>, jobs: seq<Job>, outs: seq<Outcome>, h: int, n: int)
    requires Traced(t, jobs, outs) && Exactly(t[0]) && t[0].write == [] && t[0].read == []
    requires 0 <= h < n < |jobs| && jobs[n].ReadBlock? && jobs[h] == HashPiece(jobs[n].key)
    requires NoReads(jobs, jobs[n].key, 0, h) && NoWrites(jobs, jobs[n].key, h, n)
    ensures outs[n].Bytes? ==>
              && Asks(After(t[0].disk, jobs[..n]), jobs[n].key, jobs[n].offset, jobs[n].size)
              && outs[n].bytes == After(t[0].disk, jobs[..n])[jobs[n].key][jobs[n].offset..jobs[n].offset + jobs[n].size]
    ensures outs[n].Bytes? || (outs[n] == Failed && !jobs[n].ok)
  {
    hide *;
    StepOf(t, jobs, outs, n);
    var j, s := jobs[n], t[n];
    ReadFails(s, j, outs[n], t[n + 1]);
    if outs[n].Bytes? {
      Settled(t, jobs, outs, j.key, h, n);
      ReadExactly(s, j, outs[n], t[n + 1]);
      RunStands(t, jobs, outs, n);
      StandsAt(s, t[0].disk, jobs[..n], j.key);
      OnlyOnDisk(s, j.key);
      AsksSame(s.disk, After(t[0].disk, jobs[..n]), j.key, j.offset, j.size);
    }
  }

  lemma ReadFails(s: View, j: Job, o: Outcome, s': View)
    requires Stepped(s, j, o, s') && j.ReadBlock?
    ensures o.Bytes? || (o == Failed && !j.ok)
  {
    hide Content, Total, Refreshed, Entries, Delivered, Hit;
  }

  lemma OnlyOnDisk(s: View, key: Key)
    requires AllBacked(s.write, s.disk) && !Has(s.write, key) && key in s.disk
    ensures Content(s.write, s.disk, key) == s.disk[key]
  {
  }

  lemma AsksSame(disk: Disk, disk': Disk, key: Key, offset: int, size: int)
    requires Asks(disk, key, offset, size) && key in disk' && disk'[key] == disk[key]
    ensures Asks(disk', key, offset, size)
  {
  }

  // ---------------------------------------------------------------- stale blocks

  /** The read cache has held `b` as block `k` of the piece from point `m` to point `n`. */
  ghost predicate CachedThrough(t: seq<View>, m: int, n: int, key: Key, k: int, b: Buffer) {
    forall i :: m <= i <= n && 0 <= i < |t| ==> CachedAt(t[i].read, key, k, b)
  }

  lemma CachedLonger(t: seq<View>, m: int, n: int, key: Key, k: int, b: Buffer)
    requires 0 <= m <= n < |t| && CachedAt(t[n].read, key, k, b) && (m == n || CachedThrough(t, m, n - 1, key, k, b))
    ensures CachedThrough(t, m, n, key, k, b)
  {
    hide CachedAt;
  }

  /** A cached block holds what was on disk at some point of the run, since when it has
      been cached all the time. So it is stale exactly when the disk has changed since. */
  lemma {:induction false} LoadedSince(t: seq<View>, jobs: seq<Job>, outs: seq<Outcome>, n: int, key: Key, k: int, b: Buffer) returns (m: int)
    requires Traced(t, jobs, outs) && t[0].read == [] && 0 <= n <= |jobs| && CachedAt(t[n].read, key, k, b)
    ensures 0 <= m <= n && OnDisk(t[m].disk, key, k, b)
    ensures CachedThrough(t, m, n, key, k, b)
    ensures OnDisk(t[n].disk, key, k, b) <==> SameBlock(t[m].disk, t[n].disk, key, k)
    decreases n
  {
    hide *;
    TracedSizes(t, jobs, outs);
    CachedIsData();
    NothingCached(key, k, b);
    m := n;
    if !OnDisk(t[n].disk, key, k, b) && n > 0 {
      StepOf(t, jobs, outs, n - 1);
      SteppedRead(t[n - 1], jobs[n - 1], outs[n - 1], t[n]);
      RefreshedIs(t[n - 1].read, t[n].read, t[n].disk);
      m := LoadedSince(t, jobs, outs, n - 1, key, k, b);
    }
    CachedLonger(t, m, n, key, k, b);
    SizesAlong(t, jobs, outs, m, n);
    MirrorsBoth(t[m].disk, t[n].disk, key, k, b);
  }

  lemma NothingCached(key: Key, k: int, b: Buffer)
    ensures !CachedAt([], key, k, b)
  {
  }

  lemma {:induction false} SizesAlong(t: seq<View>, jobs: seq<Job>, outs: seq<Outcome>, m: int, n: int)
    requires Traced(t, jobs, outs) && 0 <= m <= n <= |jobs|
    ensures SameSizes(t[m].disk, t[n].disk)
    decreases n - m
  {
    hide Stepped;
    if m < n {
      StepOf(t, jobs, outs, n - 1);
      SizesAlong(t, jobs, outs, m, n - 1);
      SteppedSizes(t[n - 1], jobs[n - 1], outs[n - 1], t[n]);
    }
  }

  lemma CachedByte(p: CachedPiece, offset: int, size: int, q: int)
    requires InRange(p, offset, size) && Covered(p, offset, size) && offset <= q < offset + size
    ensures 0 <= q / 0x4000 < |p.blocks| && p.blocks[q / 0x4000].Data? && |p.blocks[q / 0x4000].bytes| == BLOCK_SIZE
    ensures CachedBytes(p, offset, size)[q - offset] == p.blocks[q / 0x4000].bytes[q % 0x4000]
  {
    assert offset / 0x4000 <= q / 0x4000 <= (offset + size - 1) / 0x4000;
    Touched(p, offset, size);
  }

  lemma DiskByte(disk: Disk, key: Key, b: Buffer, q: int)
    requires key in disk && 0 <= q < |disk[key]| && b.Data? && OnDisk(disk, key, q / 0x4000, b)
    ensures |b.bytes| == BLOCK_SIZE && b.bytes[q % 0x4000] == disk[key][q]
  {
    var k, d := q / 0x4000, disk[key];
    LenOfBlock(|d|, k);
    var len := Len(|d|, k);
    assert q % 0x4000 < len && Offset(k) + q % 0x4000 == q;
    assert b.bytes[..len][q % 0x4000] == d[Offset(k)..Offset(k) + len][q % 0x4000];
  }

  /** No read makes bytes up: each byte delivered was on disk, at its position, at some point
      of the run, since when its block has been cached. It is the byte now on disk exactly
      when that byte is the same at both points. */
  lemma ReadWasOnDisk(t: seq<View>, jobs: seq<Job>, outs: seq<Outcome>, n: int, q: int) returns (m: int)
    requires Traced(t, jobs, outs) && t[0].read == [] && 0 <= n < |jobs| && jobs[n].ReadBlock? && outs[n].Bytes?
    requires jobs[n].offset <= q < jobs[n].offset + jobs[n].size
    ensures |outs[n].bytes| == jobs[n].size && 0 <= m <= n && jobs[n].key in t[m].disk && 0 <= q < |t[m].disk[jobs[n].key]|
    ensures outs[n].bytes[q - jobs[n].offset] == t[m].disk[jobs[n].key][q]
    ensures m < n ==> exists b :: CachedThrough(t, m, n, jobs[n].key, q / 0x4000, b)
  {
    hide *;
    TracedSizes(t, jobs, outs);
    StepOf(t, jobs, outs, n);
    var j, s := jobs[n], t[n];
    ReadAnswer(s, j, outs[n], t[n + 1]);
    AsksIs(s.disk, j.key, j.offset, j.size);
    if j.useCache && Hit(s.read, j.key, j.offset, j.size) {
      var p := HitEntry(s.read, j.key, j.offset, j.size);
      CachedByte(p, j.offset, j.size, q);
      var b := p.blocks[q / 0x4000];
      m := LoadedSince(t, jobs, outs, n, j.key, q / 0x4000, b);
      SizesAlong(t, jobs, outs, m, n);
      SizesAt(t[m].disk, s.disk, j.key);
      DiskByte(t[m].disk, j.key, b, q);
    } else {
      m := n;
    }
  }

  lemma SizesAt(disk: Disk, disk': Disk, key: Key)
    requires SameSizes(disk, disk') && key in disk'
    ensures key in disk && |disk[key]| == |disk'[key]|
  {
  }

  lemma ReadAnswer(s: View, j: Job, o: Outcome, s': View)
    requires Stepped(s, j, o, s') && j.ReadBlock? && o.Bytes?
    ensures Asks(s.disk, j.key, j.offset, j.size)
    ensures !(j.useCache && Hit(s.read, j.key, j.offset, j.size)) ==> o.bytes == s.disk[j.key][j.offset..j.offset + j.size]
    ensures j.useCache && Hit(s.read, j.key, j.offset, j.size) ==>
              Find(s.read, j.key) < |s.read| && InRange(s.read[Find(s.read, j.key)], j.offset, j.size)
              && Covered(s.read[Find(s.read, j.key)], j.offset, j.size)
              && o.bytes == CachedBytes(s.read[Find(s.read, j.key)], j.offset, j.size)
  {
    hide Total, Content, Refreshed, Entries, CachedBytes;
  }

  lemma HitEntry(r: seq<CachedPiece>, key: Key, offset: int, size: int) returns (p: CachedPiece)
    requires Hit(r, key, offset, size)
    ensures Find(r, key) < |r| && p == r[Find(r, key)] && InRange(p, offset, size) && Covered(p, offset, size)
    ensures forall k :: 0 <= k < |p.blocks| && p.blocks[k].Data? ==> CachedAt(r, key, k, p.blocks[k])
  {
    p := r[Find(r, key)];
  }

  // ------------------------------------------------------------ a stale read

  const PIECE := Key(0, 0)

  lemma OnlyPieceFits(r: seq<CachedPiece>, disk: Disk)
    requires AllBacked(r, disk) && Keyed(r) && disk.Keys == {PIECE} && |disk[PIECE]| == BLOCK_SIZE
    ensures 0 <= Total(r) <= 1
  {
    assert forall i :: 0 <= i < |r| ==> Backed(r[i], disk) && KeyOf(r[i]) == PIECE;
    assert |r| < 2 || KeyOf(r[0]) == KeyOf(r[1]);
    if |r| == 1 {
      assert r[..0] == [];
      assert |r[0].blocks| == 1 && Count(r[0].blocks) <= 1;
    }
  }

  lemma StaleStart(x: seq<byte>)
    requires |x| == BLOCK_SIZE
    ensures Asks(map[PIECE := x], PIECE, 0, BLOCK_SIZE) && 0 < BlocksInPiece(|x|)
    ensures Delivered([], map[PIECE := x], PIECE, 0, BLOCK_SIZE) == x
  {
  }

  lemma StaleRoom(r: seq<CachedPiece>, x: seq<byte>)
    requires AllBacked(r, map[PIECE := x]) && Keyed(r) && |x| == BLOCK_SIZE
    ensures Total([]) == 0 && Total(r) <= 1
  {
    OnlyPieceFits(r, map[PIECE := x]);
  }

  lemma StaleWritten(w: seq<CachedPiece>, disk: Disk, x: seq<byte>, y: seq<byte>)
    requires |x| == BLOCK_SIZE && |y| == BLOCK_SIZE && 0 < Len(|x|, 0) <= BLOCK_SIZE
    requires Stored([], map[PIECE := x], w, disk, PIECE, Offset(0), y[..Len(|x|, 0)])
    ensures AllBacked(w, disk) && PIECE in disk && Content(w, disk, PIECE) == y
  {
  }

  lemma StaleHit(r: seq<CachedPiece>, x: seq<byte>, y: seq<byte>)
    requires |x| == BLOCK_SIZE && |y| == BLOCK_SIZE && AllBacked(r, map[PIECE := x]) && Keyed(r)
    requires Refreshed([], r, map[PIECE := x]) && Hit(r, PIECE, 0, BLOCK_SIZE)
    ensures forall disk :: PIECE in disk && disk[PIECE] == y ==>
              Asks(disk, PIECE, 0, BLOCK_SIZE) && Delivered(r, disk, PIECE, 0, BLOCK_SIZE) == x
  {
    var s := View([], r, map[PIECE := x], Total(r), Total(r));
    HitMirrored(s, PIECE, 0, BLOCK_SIZE);
    hide CachedBytes, Hit, Refreshed;
  }

  /** Read a block, write other bytes to it, hash the piece, read the block again: the hash
      sees the new bytes, they are on disk, and the last read delivers the old ones. */
  method StaleRead(x: seq<byte>, y: seq<byte>) returns (first: seq<byte>, hashed: seq<byte>, last: seq<byte>)
    requires |x| == BLOCK_SIZE && |y| == BLOCK_SIZE
    ensures first == x && hashed == y && last == x
  {
    hide *;
    var c := new Cache(map[PIECE := x], 64, true, Lru, 16, 16);
    var ret;
    StaleStart(x);
    c.InUseIs();
    c.MostWantedIs();
    ret, first := c.ReadJob(PIECE, 0, BLOCK_SIZE, true, 0, true, x);
    c.outside := c.outside + 1;
    c.Parts();
    c.InUseIs();
    ghost var r := c.read;
    StaleRoom(r, x);
    StaleHit(r, x, y);
    c.WriteJob(PIECE, 0, y, 1);
    StaleWritten(c.write, c.disk, x, y);
    hashed := c.HashJob(PIECE);
    assert c.read == r && c.disk[PIECE] == y;
    ret, last := c.ReadJob(PIECE, 0, BLOCK_SIZE, true, 2, true, x);
  }
}
