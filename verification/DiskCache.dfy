/** The block cache of the disk thread: a write cache whose blocks still have to
    reach the disk, and a read cache of blocks that are on disk. A job runs to
    its end before the next one starts; times are arguments. */
module DiskCache {
  import opened Lists
  import opened DiskBlocks

  datatype Key = Key(storage: int, piece: int)

  function KeyOf(p: CachedPiece): Key {
    Key(p.storage, p.piece)
  }

  type Disk = map<Key, seq<byte>>

  // ------------------------------------------------------------- the lists

  function Total(s: seq<CachedPiece>): int {
    if |s| == 0 then 0 else Total(s[..|s| - 1]) + s[|s| - 1].numBlocks
  }

  lemma {:induction false} TotalConcat(a: seq<CachedPiece>, b: seq<CachedPiece>)
    ensures Total(a + b) == Total(a) + Total(b)
  {
    if |b| == 0 {
      assert a + b == a;
    } else {
      TotalConcat(a, b[..|b| - 1]);
      assert (a + b)[..|a + b| - 1] == a + b[..|b| - 1];
    }
  }

  lemma TotalChange(s: seq<CachedPiece>, i: int, p: CachedPiece)
    requires 0 <= i < |s|
    ensures Total(s[i := p]) == Total(s) - s[i].numBlocks + p.numBlocks
    ensures Total(Without(s, i)) == Total(s) - s[i].numBlocks
  {
    assert s == s[..i] + [s[i]] + s[i + 1..] && s[i := p] == s[..i] + [p] + s[i + 1..];
    TotalConcat(s[..i] + [s[i]], s[i + 1..]);
    TotalConcat(s[..i], [s[i]]);
    TotalConcat(s[..i] + [p], s[i + 1..]);
    TotalConcat(s[..i], [p]);
    TotalConcat(s[..i], s[i + 1..]);
    assert Total([s[i]]) == s[i].numBlocks && Total([p]) == p.numBlocks by {
      assert [s[i]][..0] == [] && [p][..0] == [];
    }
  }

  lemma TotalAppend(s: seq<CachedPiece>, p: CachedPiece)
    ensures Total(s + [p]) == Total(s) + p.numBlocks
  {
    assert (s + [p])[..|s|] == s;
  }

  lemma {:induction false} TotalNonNegative(s: seq<CachedPiece>)
    requires forall i :: 0 <= i < |s| ==> s[i].numBlocks >= 0
    ensures Total(s) >= 0
    ensures forall i :: 0 <= i < |s| ==> s[i].numBlocks <= Total(s)
  {
    if |s| > 0 { TotalNonNegative(s[..|s| - 1]); }
  }

  /** The entry is exact and its piece is on disk. */
  ghost predicate Backed(p: CachedPiece, disk: Disk) {
    Exact(p) && KeyOf(p) in disk && |disk[KeyOf(p)]| == p.size
  }

  ghost predicate AllBacked(s: seq<CachedPiece>, disk: Disk) {
    forall i :: 0 <= i < |s| ==> Backed(s[i], disk)
  }

  ghost predicate Keyed(s: seq<CachedPiece>) {
    forall i, j :: 0 <= i < j < |s| ==> KeyOf(s[i]) != KeyOf(s[j])
  }

  /** No write entry is empty. */
  ghost predicate Busy(s: seq<CachedPiece>) {
    forall i :: 0 <= i < |s| ==> s[i].numBlocks >= 1
  }

  /** The position of the entry for `key`, or the length of the list. */
  function Find(s: seq<CachedPiece>, key: Key): (i: int)
    ensures 0 <= i <= |s| && (i < |s| ==> KeyOf(s[i]) == key)
    ensures forall k :: 0 <= k < i ==> KeyOf(s[k]) != key
  {
    if |s| == 0 then 0
    else if KeyOf(s[0]) == key then 0
    else
      var i := Find(s[1..], key);
      assert forall k :: 0 <= k < |s| - 1 ==> s[1..][k] == s[k + 1];
      i + 1
  }

  lemma FindKeyed(s: seq<CachedPiece>, i: int)
    requires Keyed(s) && 0 <= i < |s|
    ensures Find(s, KeyOf(s[i])) == i
  {
  }

  /** What a piece will hold once everything cached for it is written. */
  ghost function Content(w: seq<CachedPiece>, disk: Disk, key: Key): (r: seq<byte>)
    requires AllBacked(w, disk) && key in disk
  {
    var i := Find(w, key);
    if i < |w| then (assert Backed(w[i], disk); Whole(w[i], disk[key])) else disk[key]
  }

  ghost predicate SameContent(w: seq<CachedPiece>, disk: Disk, w': seq<CachedPiece>, disk': Disk)
    requires AllBacked(w, disk) && AllBacked(w', disk')
  {
    disk'.Keys == disk.Keys && forall key :: key in disk ==> Content(w', disk', key) == Content(w, disk, key)
  }

  /** Replacing entry `i` and the disk contents of its piece, without changing
      what the two stand for together. */
  lemma ReplaceKeeps(w: seq<CachedPiece>, disk: Disk, i: int, q: CachedPiece, d: seq<byte>)
    requires AllBacked(w, disk) && Keyed(w) && 0 <= i < |w|
    requires KeyOf(q) == KeyOf(w[i]) && q.size == w[i].size && Exact(q) && |d| == q.size
    requires Whole(q, d) == Whole(w[i], disk[KeyOf(w[i])])
    ensures var w', disk' := w[i := q], disk[KeyOf(q) := d];
            && AllBacked(w', disk') && Keyed(w') && SameContent(w, disk, w', disk')
  {
    var w', disk' := w[i := q], disk[KeyOf(q) := d];
    ReplaceBacked(w, disk, i, q, d);
    assert Backed(w[i], disk);
    hide Backed, Whole, Exact, Keyed, KeyOf, AllBacked, Content;
    forall key | key in disk ensures Content(w', disk', key) == Content(w, disk, key) {
      FindSame(w, w', key);
      ContentIs(w, disk, key);
      ContentIs(w', disk', key);
      FindKeyed(w, i);
    }
  }

  lemma ReplaceBacked(w: seq<CachedPiece>, disk: Disk, i: int, q: CachedPiece, d: seq<byte>)
    requires AllBacked(w, disk) && Keyed(w) && 0 <= i < |w|
    requires KeyOf(q) == KeyOf(w[i]) && Exact(q) && |d| == q.size
    ensures AllBacked(w[i := q], disk[KeyOf(q) := d]) && Keyed(w[i := q])
  {
    hide Exact;
    var w', disk' := w[i := q], disk[KeyOf(q) := d];
    forall k | 0 <= k < |w'| ensures Backed(w'[k], disk') {
      assert Backed(w[k], disk);
      if k != i { KeysDiffer(w, k, i); }
    }
  }

  lemma ContentIs(w: seq<CachedPiece>, disk: Disk, key: Key)
    requires AllBacked(w, disk) && key in disk
    ensures var i := Find(w, key);
            if i < |w| then Backed(w[i], disk) && Shaped(w[i]) && |disk[key]| == w[i].size && Content(w, disk, key) == Whole(w[i], disk[key])
            else Content(w, disk, key) == disk[key]
  {
    hide Whole;
    var i := Find(w, key);
    if i < |w| { assert Backed(w[i], disk); }
  }

  lemma KeysDiffer(w: seq<CachedPiece>, i: int, j: int)
    requires Keyed(w) && 0 <= i < |w| && 0 <= j < |w| && i != j
    ensures KeyOf(w[i]) != KeyOf(w[j])
  {
  }

  lemma {:induction false} FindSame(w: seq<CachedPiece>, w': seq<CachedPiece>, key: Key)
    requires |w| == |w'| && forall k :: 0 <= k < |w| ==> KeyOf(w[k]) == KeyOf(w'[k])
    ensures Find(w, key) == Find(w', key)
  {
    if |w| > 0 && KeyOf(w[0]) != key { FindSame(w[1..], w'[1..], key); }
  }

  /** Dropping an entry that stands for nothing beyond the disk. */
  lemma DropKeeps(w: seq<CachedPiece>, disk: Disk, i: int)
    requires AllBacked(w, disk) && Keyed(w) && 0 <= i < |w| && w[i].numBlocks == 0
    ensures var w' := Without(w, i); AllBacked(w', disk) && Keyed(w') && SameContent(w, disk, w', disk)
  {
    var w' := Without(w, i);
    hide Whole, Exact;
    forall k | 0 <= k < |w'| ensures Backed(w'[k], disk) { assert Backed(w[if k < i then k else k + 1], disk); }
    DropKeyed(w, i);
    hide Backed, Keyed, Without, KeyOf;
    forall key | key in disk ensures Content(w', disk, key) == Content(w, disk, key) {
      ContentIs(w, disk, key);
      ContentIs(w', disk, key);
      FindDropped(w, i, key);
      if Find(w, key) == i { EmptyIsDisk(w[i], disk[key]); }
    }
  }

  lemma DropKeyed(w: seq<CachedPiece>, i: int)
    requires Keyed(w) && 0 <= i < |w|
    ensures Keyed(Without(w, i))
  {
  }

  /** Where an entry is after another one was dropped. */
  lemma FindDropped(w: seq<CachedPiece>, i: int, key: Key)
    requires Keyed(w) && 0 <= i < |w|
    ensures var a, w' := Find(w, key), Without(w, i);
            if a < |w| && a != i then Find(w', key) < |w'| && w'[Find(w', key)] == w[a] else Find(w', key) == |w'|
  {
    var a, w' := Find(w, key), Without(w, i);
    DropKeyed(w, i);
    if a < |w| && a != i {
      var b := if a < i then a else a - 1;
      assert w'[b] == w[a];
      FindKeyed(w', b);
    } else {
      assert forall k :: 0 <= k < |w'| ==> KeyOf(w'[k]) != key;
    }
  }

  lemma SameTrans(w: seq<CachedPiece>, disk: Disk, w': seq<CachedPiece>, disk': Disk, w'': seq<CachedPiece>, disk'': Disk)
    requires AllBacked(w, disk) && AllBacked(w', disk') && AllBacked(w'', disk'')
    requires SameContent(w, disk, w', disk') && SameContent(w', disk', w'', disk'')
    ensures SameContent(w, disk, w'', disk'')
  {
  }

  ghost predicate SameSizes(disk: Disk, disk': Disk) {
    disk'.Keys == disk.Keys && forall key :: key in disk ==> |disk'[key]| == |disk[key]|
  }

  lemma StillBacked(s: seq<CachedPiece>, disk: Disk, disk': Disk)
    requires AllBacked(s, disk) && SameSizes(disk, disk')
    ensures AllBacked(s, disk')
  {
    forall i | 0 <= i < |s| ensures Backed(s[i], disk') { assert Backed(s[i], disk); }
  }

  /** Entry `i` is the first among those used least recently. */
  ghost predicate IsOldest(s: seq<CachedPiece>, i: int) {
    && 0 <= i < |s|
    && (forall k :: 0 <= k < |s| ==> s[i].lastUse <= s[k].lastUse)
    && (forall k :: 0 <= k < i ==> s[i].lastUse < s[k].lastUse)
  }

  method Oldest(s: seq<CachedPiece>) returns (i: int)
    ensures if s == [] then i == 0 else IsOldest(s, i)
  {
    i := 0;
    for k := 1 to if |s| == 0 then 1 else |s|
      invariant |s| > 0 ==> 0 <= i < k && forall c :: 0 <= c < k ==> s[i].lastUse <= s[c].lastUse
      invariant |s| > 0 ==> forall c :: 0 <= c < i ==> s[i].lastUse < s[c].lastUse
      invariant |s| == 0 ==> i == 0
    {
      if s[k].lastUse < s[i].lastUse { i := k; }
    }
  }

  /** The entry with the longest run of cached blocks. */
  method MostContiguous(s: seq<CachedPiece>) returns (i: int)
    ensures 0 <= i <= |s| && (i == |s| <==> s == [])
    ensures i < |s| ==> forall k :: 0 <= k < |s| ==> RunLength(s[i].blocks) >= RunLength(s[k].blocks)
  {
    i := 0;
    if s == [] { return; }
    var at, best := LargestRun(s[0].blocks);
    RunLengthIs(s[0].blocks, at, best);
    for k := 1 to |s|
      invariant 0 <= i < k && best == RunLength(s[i].blocks)
      invariant forall c :: 0 <= c < k ==> best >= RunLength(s[c].blocks)
    {
      var pos, len := LargestRun(s[k].blocks);
      RunLengthIs(s[k].blocks, pos, len);
      if best < len { i, best := k, len; }
    }
  }

  /** How many of the last blocks are cached without a gap. */
  function TailRun(blocks: seq<Buffer>): int {
    if |blocks| == 0 || blocks[|blocks| - 1].Absent? then 0 else TailRun(blocks[..|blocks| - 1]) + 1
  }

  /** The length of the longest run of cached blocks. */
  function RunLength(blocks: seq<Buffer>): int {
    if |blocks| == 0 then 0
    else
      var before, tail := RunLength(blocks[..|blocks| - 1]), TailRun(blocks);
      if tail > before then tail else before
  }

  lemma {:induction false} TailIsRun(blocks: seq<Buffer>)
    ensures 0 <= TailRun(blocks) <= |blocks| && Full(blocks, |blocks| - TailRun(blocks), |blocks|)
    ensures forall a :: Full(blocks, a, |blocks|) ==> |blocks| - a <= TailRun(blocks)
  {
    if |blocks| > 0 {
      var front := blocks[..|blocks| - 1];
      TailIsRun(front);
      forall a | Full(blocks, a, |blocks|) ensures |blocks| - a <= TailRun(blocks) {
        if a < |blocks| { assert Full(front, a, |front|); }
      }
    }
  }

  lemma {:induction false} RunBound(blocks: seq<Buffer>, a: int, b: int)
    requires Full(blocks, a, b)
    ensures b - a <= RunLength(blocks)
  {
    if |blocks| > 0 {
      TailIsRun(blocks);
      if b < |blocks| {
        RunBound(blocks[..|blocks| - 1], a, b);
      }
    }
  }

  lemma {:induction false} RunExists(blocks: seq<Buffer>) returns (a: int)
    ensures Full(blocks, a, a + RunLength(blocks))
  {
    if |blocks| == 0 {
      a := 0;
    } else {
      TailIsRun(blocks);
      a := RunExists(blocks[..|blocks| - 1]);
      if TailRun(blocks) > RunLength(blocks[..|blocks| - 1]) { a := |blocks| - TailRun(blocks); }
    }
  }

  lemma RunLengthIs(blocks: seq<Buffer>, pos: int, len: int)
    requires Full(blocks, pos, pos + len) && forall a, b :: Full(blocks, a, b) ==> b - a <= len
    ensures RunLength(blocks) == len
  {
    RunBound(blocks, pos, pos + len);
    var a := RunExists(blocks);
  }

  // ------------------------------------------------- flushing, as a change of lists

  /** A write cache on top of a disk: one entry per piece, none of them empty. */
  ghost predicate Sound(w: seq<CachedPiece>, disk: Disk) {
    AllBacked(w, disk) && Keyed(w) && Busy(w)
  }

  /** Nothing a reader could see has changed. */
  ghost predicate Same(w: seq<CachedPiece>, disk: Disk, w': seq<CachedPiece>, disk': Disk) {
    AllBacked(w, disk) && AllBacked(w', disk') && SameSizes(disk, disk') && SameContent(w, disk, w', disk')
  }

  /** Nothing on disk differs but piece `key`. */
  ghost predicate OnlyPiece(disk: Disk, disk': Disk, key: Key) {
    forall other :: other in disk && other != key ==> other in disk' && disk'[other] == disk[other]
  }

  /** Flushes blocks `start..end` of entry `i`. */
  method FlushAt(w: seq<CachedPiece>, disk: Disk, i: int, start: int, end: int, coalesce: bool)
    returns (w': seq<CachedPiece>, disk': Disk, freed: int)
    requires AllBacked(w, disk) && Keyed(w) && 0 <= i < |w| && 0 <= start < end && start <= |w[i].blocks|
    ensures AllBacked(w', disk') && Keyed(w') && Same(w, disk, w', disk')
    ensures freed == Count(w[i].blocks[start..if end < |w[i].blocks| then end else |w[i].blocks|])
    ensures |w'| == |w| && w' == w[i := w'[i]] && Exact(w'[i]) && w'[i].numBlocks == w[i].numBlocks - freed
    ensures KeyOf(w'[i]) == KeyOf(w[i]) && OnlyPiece(disk, disk', KeyOf(w[i]))
    ensures w'[i] == w[i].(numBlocks := w[i].numBlocks - freed, blocks := w'[i].blocks)
    ensures Cleared(w[i].blocks, w'[i].blocks, start, if end < |w[i].blocks| then end else |w[i].blocks|)
  {
    var p, d := w[i], disk[KeyOf(w[i])];
    assert Backed(p, disk);
    hide AllBacked, Keyed, RunWrites;
    var q, d', n, writes := FlushRange(p, start, end, coalesce, d);
    freed := n;
    ghost var hi := if end < |p.blocks| then end else |p.blocks|;
    FlushKeepsWhole(p, q, d, start, hi);
    assert Whole(q, d') == Whole(p, d) && |d'| == |d| == q.size == p.size && KeyOf(p) == KeyOf(q);
    hide Whole, Overlay, Exact, Cleared;
    ReplaceKeeps(w, disk, i, q, d');
    w', disk' := w[i := q], disk[KeyOf(p) := d'];
  }

  /** Entry `i` lost blocks `pos..pos + len`, all of them cached, and nothing else
      changed; an entry that lost its last blocks is gone. */
  ghost predicate RunGone(w: seq<CachedPiece>, w': seq<CachedPiece>, i: int, pos: int, len: int) {
    && 0 <= i < |w| && 0 < len && Full(w[i].blocks, pos, pos + len)
    && if len == w[i].numBlocks then w' == Without(w, i)
       else
         && |w'| == |w| && w' == w[i := w'[i]]
         && w'[i] == w[i].(numBlocks := w[i].numBlocks - len, blocks := w'[i].blocks)
         && Cleared(w[i].blocks, w'[i].blocks, pos, pos + len)
  }

  /** No run of cached blocks is longer than `len`. */
  ghost predicate NoLonger(blocks: seq<Buffer>, len: int) {
    forall a, b :: Full(blocks, a, b) ==> b - a <= len
  }

  lemma RunLengthLongest(blocks: seq<Buffer>)
    ensures NoLonger(blocks, RunLength(blocks))
  {
    forall a, b | Full(blocks, a, b) ensures b - a <= RunLength(blocks) { RunBound(blocks, a, b); }
  }

  lemma CountFull(blocks: seq<Buffer>, a: int, b: int)
    requires Full(blocks, a, b)
    ensures Count(blocks[a..b]) == b - a
    decreases b - a
  {
    if a < b {
      CountFull(blocks, a, b - 1);
      assert blocks[a..b][..b - a - 1] == blocks[a..b - 1];
    }
  }

  /** Writes out a whole entry and drops it. */
  method FlushAndRemove(w: seq<CachedPiece>, disk: Disk, i: int, coalesce: bool)
    returns (w': seq<CachedPiece>, disk': Disk, freed: int)
    requires Sound(w, disk) && 0 <= i < |w|
    ensures Sound(w', disk') && Same(w, disk, w', disk')
    ensures w' == Without(w, i) && freed == w[i].numBlocks && Total(w') == Total(w) - freed
    ensures NoNewKeys(w, w') && !Has(w', KeyOf(w[i])) && OnlyPiece(disk, disk', KeyOf(w[i]))
    ensures KeyOf(w[i]) in disk' && disk'[KeyOf(w[i])] == Content(w, disk, KeyOf(w[i]))
  {
    var w1;
    assert Backed(w[i], disk);
    assert w[i].blocks[0..|w[i].blocks|] == w[i].blocks;
    w1, disk', freed := FlushAt(w, disk, i, 0, 0x7fff_ffff + |w[i].blocks|, coalesce);
    DropKeeps(w1, disk', i);
    w' := Without(w1, i);
    assert w' == Without(w, i);
    SameTrans(w, disk, w1, disk', w', disk');
    TotalChange(w, i, w[i]);
    OnlyDisk(w, w', i, disk');
    DroppedKeys(w, i);
  }

  /** A piece without an entry stands for what is on disk. */
  lemma OnlyDisk(w: seq<CachedPiece>, w': seq<CachedPiece>, i: int, disk: Disk)
    requires Keyed(w) && 0 <= i < |w| && w' == Without(w, i) && AllBacked(w', disk) && KeyOf(w[i]) in disk
    ensures Content(w', disk, KeyOf(w[i])) == disk[KeyOf(w[i])] && !Has(w', KeyOf(w[i]))
  {
    forall k | 0 <= k < |w'| ensures KeyOf(w'[k]) != KeyOf(w[i]) { KeysDiffer(w, if k < i then k else k + 1, i); }
  }

  method LongestRun(blocks: seq<Buffer>) returns (pos: int, len: int)
    ensures 0 <= pos && 0 <= len == RunLength(blocks) && pos + len <= |blocks| && Count(blocks[pos..pos + len]) == len
    ensures Full(blocks, pos, pos + len) && NoLonger(blocks, len)
    ensures Count(blocks) > 0 ==> len > 0
  {
    pos, len := LargestRun(blocks);
    RunLengthIs(blocks, pos, len);
    CountFull(blocks, pos, pos + len);
  }

  lemma SameRefl(w: seq<CachedPiece>, disk: Disk)
    requires AllBacked(w, disk)
    ensures Same(w, disk, w, disk)
  {
  }

  /** Flushes blocks `start..end` of entry `i` and drops the entry when nothing is left. */
  method FlushAndTidy(w: seq<CachedPiece>, disk: Disk, i: int, start: int, end: int, coalesce: bool)
    returns (w': seq<CachedPiece>, disk': Disk, freed: int)
    requires Sound(w, disk) && 0 <= i < |w| && 0 <= start < end <= |w[i].blocks|
    ensures Sound(w', disk') && Same(w, disk, w', disk')
    ensures freed == Count(w[i].blocks[start..end]) && Total(w') == Total(w) - freed && NoNewKeys(w, w')
    ensures Full(w[i].blocks, start, end) ==> RunGone(w, w', i, start, end - start)
  {
    w', disk', freed := FlushAt(w, disk, i, start, end, coalesce);
    DropSound(w, disk, w', disk', i);
    ExactNonNegative(w'[i]);
    SameKeysAt(w, disk, w', disk', i);
    DroppedKeys(w, i);
    if Full(w[i].blocks, start, end) {
      CountFull(w[i].blocks, start, end);
      RunIsGone(w, w', i, start, end - start);
    }
    hide *;
    if w'[i].numBlocks == 0 {
      w' := Without(w', i);
    }
  }

  lemma RunIsGone(w: seq<CachedPiece>, w': seq<CachedPiece>, i: int, pos: int, len: int)
    requires 0 <= i < |w| == |w'| && w' == w[i := w'[i]] && 0 < len
    requires w'[i] == w[i].(numBlocks := w[i].numBlocks - len, blocks := w'[i].blocks) && Cleared(w[i].blocks, w'[i].blocks, pos, pos + len)
    requires Full(w[i].blocks, pos, pos + len)
    ensures RunGone(w, if w'[i].numBlocks == 0 then Without(w', i) else w', i, pos, len)
  {
    assert Without(w', i) == Without(w, i);
  }

  lemma DroppedKeys(w: seq<CachedPiece>, i: int)
    requires 0 <= i < |w|
    ensures NoNewKeys(w, Without(w, i))
  {
    var t := Without(w, i);
    forall key | Has(t, key) ensures Has(w, key) {
      var k := Find(t, key);
      assert KeyOf(w[if k < i then k else k + 1]) == key;
    }
  }

  lemma SameKeysAt(w: seq<CachedPiece>, disk: Disk, w': seq<CachedPiece>, disk': Disk, i: int)
    requires 0 <= i < |w| == |w'| && w' == w[i := w'[i]] && KeyOf(w'[i]) == KeyOf(w[i])
    ensures NoNewKeys(w, w')
  {
    forall key | Has(w', key) ensures Has(w, key) { FindSame(w, w', key); }
  }

  /** Writes out the longest run of entry `i` if it is long enough. */
  method FlushContiguous(w: seq<CachedPiece>, disk: Disk, i: int, lower: int, coalesce: bool)
    returns (w': seq<CachedPiece>, disk': Disk, freed: int, ghost pos: int)
    requires Sound(w, disk) && 0 <= i < |w|
    ensures Sound(w', disk') && Same(w, disk, w', disk')
    ensures freed == (if RunLength(w[i].blocks) < lower then 0 else RunLength(w[i].blocks))
    ensures lower <= 0 ==> freed > 0
    ensures Total(w') == Total(w) - freed && NoNewKeys(w, w')
    ensures if freed == 0 then w' == w && disk' == disk && NoLonger(w[i].blocks, lower - 1)
            else freed >= lower && NoLonger(w[i].blocks, freed) && RunGone(w, w', i, pos, freed)
  {
    hide *;
    w', disk', freed := w, disk, 0;
    SoundAt(w, disk, i);
    var start, len := LongestRun(w[i].blocks);
    pos := start;
    SameRefl(w, disk);
    NothingNew(w);
    if len < lower || len <= 0 {
      NoLongerUp(w[i].blocks, len, lower - 1);
      return;
    }
    w', disk', freed := FlushAndTidy(w, disk, i, start, start + len, coalesce);
  }

  lemma NoLongerUp(blocks: seq<Buffer>, len: int, most: int)
    requires NoLonger(blocks, len) && len <= most
    ensures NoLonger(blocks, most)
  {
    hide Full;
  }

  lemma SoundBacked(w: seq<CachedPiece>, disk: Disk)
    requires Sound(w, disk)
    ensures AllBacked(w, disk)
  {
  }

  lemma SoundAt(w: seq<CachedPiece>, disk: Disk, i: int)
    requires Sound(w, disk) && 0 <= i < |w|
    ensures AllBacked(w, disk) && w[i].numBlocks >= 1 && Count(w[i].blocks) > 0 && w == w[i := w[i]]
  {
    assert Backed(w[i], disk);
  }

  /** After a flush of entry `i` the cache is sound, without the entry if it is empty. */
  lemma DropSound(w: seq<CachedPiece>, disk: Disk, w': seq<CachedPiece>, disk': Disk, i: int)
    requires Sound(w, disk) && 0 <= i < |w| && AllBacked(w', disk') && Keyed(w') && Same(w, disk, w', disk')
    requires |w'| == |w| && w' == w[i := w'[i]]
    ensures w'[i].numBlocks > 0 ==> Sound(w', disk')
    ensures Total(w') == Total(w) - w[i].numBlocks + w'[i].numBlocks
    ensures w'[i].numBlocks == 0 ==>
              var w'' := Without(w', i);
              w'' == Without(w, i) && Sound(w'', disk') && Same(w, disk, w'', disk') && Total(w'') == Total(w) - w[i].numBlocks
  {
    hide AllBacked, Keyed, SameContent, Total;
    TotalChange(w, i, w'[i]);
    if w'[i].numBlocks == 0 {
      DropKeeps(w', disk', i);
      SameTrans(w, disk, w', disk', Without(w', i), disk');
      assert Without(w', i) == Without(w, i);
    }
  }

  lemma ExactNonNegative(p: CachedPiece)
    requires Exact(p)
    ensures p.numBlocks >= 0
  {
  }

  // -------------------------------------------------- the read cache, as a list

  const SECOND := 1000000

  ghost predicate Has(s: seq<CachedPiece>, key: Key) {
    Find(s, key) < |s|
  }

  /** Every piece with an entry in `t` has one in `s`. */
  ghost predicate NoNewKeys(s: seq<CachedPiece>, t: seq<CachedPiece>) {
    forall key :: Has(t, key) ==> Has(s, key)
  }

  /** Block `k` of piece `key` is cached in buffer `b`. */
  ghost predicate CachedAt(s: seq<CachedPiece>, key: Key, k: int, b: Buffer) {
    var i := Find(s, key);
    b.Data? && i < |s| && 0 <= k < |s[i].blocks| && s[i].blocks[k] == b
  }

  /** Every block cached in `t` is cached in `s`, with the same bytes. */
  ghost predicate Thinner(s: seq<CachedPiece>, t: seq<CachedPiece>) {
    forall key, k, b :: CachedAt(t, key, k, b) ==> CachedAt(s, key, k, b)
  }

  ghost predicate FewerBlocks(p: CachedPiece, q: CachedPiece) {
    |q.blocks| == |p.blocks| && forall k :: 0 <= k < |q.blocks| ==> q.blocks[k].Absent? || q.blocks[k] == p.blocks[k]
  }

  /** Taking blocks from an entry, or dropping it, adds nothing. */
  lemma ThinnerChange(s: seq<CachedPiece>, i: int, q: CachedPiece)
    requires Keyed(s) && 0 <= i < |s| && KeyOf(q) == KeyOf(s[i])
    ensures FewerBlocks(s[i], q) ==> Thinner(s, s[i := q])
    ensures Thinner(s, Without(s, i))
  {
    var t, u := Without(s, i), s[i := q];
    forall key, k, b | CachedAt(t, key, k, b) ensures CachedAt(s, key, k, b) {
      var a := Find(t, key);
      var o := if a < i then a else a + 1;
      assert t[a] == s[o];
      FindKeyed(s, o);
    }
    if FewerBlocks(s[i], q) {
      forall key, k, b | CachedAt(u, key, k, b) ensures CachedAt(s, key, k, b) {
        FindSame(s, u, key);
      }
    }
  }

  lemma EndsFewer(p: CachedPiece, q: CachedPiece)
    requires EndsFreed(p.blocks, q.blocks) || (|q.blocks| == |p.blocks| && forall k :: 0 <= k < |q.blocks| ==> q.blocks[k].Absent?)
    ensures FewerBlocks(p, q)
  {
    if EndsFreed(p.blocks, q.blocks) {
      var lo, hi :| KeptMiddle(p.blocks, q.blocks, lo, hi);
    }
  }

  lemma ThinnerTrans(s: seq<CachedPiece>, t: seq<CachedPiece>, u: seq<CachedPiece>)
    requires Thinner(s, t) && Thinner(t, u)
    ensures Thinner(s, u)
  {
    hide CachedAt;
  }

  /** Where the entry at `k` is found after entry `i` has been dropped. */
  function Shifted(k: int, i: int): int {
    if k > i then k - 1 else k
  }

  lemma ChangedStays(s: seq<CachedPiece>, i: int, q: CachedPiece, disk: Disk)
    requires AllBacked(s, disk) && Keyed(s) && 0 <= i < |s| && Exact(q) && KeyOf(q) == KeyOf(s[i]) && q.size == s[i].size
    ensures AllBacked(s[i := q], disk) && Keyed(s[i := q])
    ensures AllBacked(Without(s, i), disk) && Keyed(Without(s, i))
    ensures NoNewKeys(s, s[i := q]) && NoNewKeys(s, Without(s, i))
  {
    hide Exact, Without;
    assert Backed(s[i], disk);
    var t, u := Without(s, i), s[i := q];
    forall k | 0 <= k < |u| ensures Backed(u[k], disk) { assert Backed(s[k], disk); }
    forall k | 0 <= k < |t| ensures Backed(t[k], disk) { assert Backed(s[if k < i then k else k + 1], disk); }
    hide Backed, AllBacked, Keyed;
    forall key | Has(u, key) ensures Has(s, key) { assert KeyOf(s[Find(u, key)]) == key; }
    forall key | Has(t, key) ensures Has(s, key) {
      var k := Find(t, key);
      assert KeyOf(s[if k < i then k else k + 1]) == key;
    }
  }

  /** What `clear_oldest_read_piece` has to do to the read cache. */
  ghost predicate ClearedOldest(read: seq<CachedPiece>, num: int, ignore: int, now: int, read': seq<CachedPiece>, freed: int, i: int)
    requires 0 <= i < |read|
  {
    if i == ignore || now - read[i].lastUse < SECOND then freed == 0 && read' == read
    else
      && freed == (if num < read[i].numBlocks then num else read[i].numBlocks)
      && if freed == read[i].numBlocks then read' == Without(read, i)
         else
           && |read'| == |read| && read' == read[i := read'[i]] && EndsFreed(read[i].blocks, read'[i].blocks)
           && read'[i] == read[i].(numBlocks := read[i].numBlocks - freed, blocks := read'[i].blocks)
  }

  /** Frees blocks of the entry used least recently: nothing if it is to be kept or
      less than a second old, otherwise exactly as many as asked for or cached. */
  method ClearOldestReadPiece(read: seq<CachedPiece>, num: int, ignore: int, now: int, ghost disk: Disk)
    returns (read': seq<CachedPiece>, freed: int, ignore': int)
    requires AllBacked(read, disk) && Keyed(read) && num > 0 && 0 <= ignore <= |read|
    ensures AllBacked(read', disk) && Keyed(read') && Total(read') == Total(read) - freed && 0 <= freed <= num
    ensures if read == [] then freed == 0 && read' == read
            else exists i :: IsOldest(read, i) && ClearedOldest(read, num, ignore, now, read', freed, i)
    ensures NoNewKeys(read, read') && Thinner(read, read') && 0 <= ignore' <= |read'|
    ensures if ignore < |read| then ignore' < |read'| && read'[ignore'] == read[ignore] else ignore' == |read'|
  {
    hide *;
    read', freed, ignore' := read, 0, ignore;
    NothingNew(read);
    var i := Oldest(read);
    if read != [] { OldestRange(read, i); }
    if i == |read| { return; }
    if i == ignore || now - read[i].lastUse < SECOND {
      LeftAlone(read, num, ignore, now, i);
      return;
    }
    NthExact(read, disk, i);
    var q;
    if num >= read[i].numBlocks {
      q, freed := FreePiece(read[i]);
    } else {
      q, freed := FreeEnds(read[i], num);
    }
    TotalChange(read, i, q);
    KeyOfSame(read[i], q);
    ChangedStays(read, i, q, disk);
    ShiftedAt(read, i, q, ignore);
    SameShape(read[i], q);
    EndsFewer(read[i], q);
    ThinnerChange(read, i, q);
    Freed(read, num, ignore, now, i, q);
    if q.numBlocks == 0 {
      read' := Without(read, i);
      ignore' := Shifted(ignore, i);
    } else {
      read' := read[i := q];
    }
  }

  lemma NothingNew(s: seq<CachedPiece>)
    ensures NoNewKeys(s, s) && Thinner(s, s)
  {
  }

  lemma OldestRange(s: seq<CachedPiece>, i: int)
    requires IsOldest(s, i)
    ensures 0 <= i < |s|
  {
  }

  lemma SameShape(p: CachedPiece, q: CachedPiece)
    requires Exact(p) && Exact(q) && q.size == p.size
    ensures |q.blocks| == |p.blocks|
  {
  }

  lemma NthExact(s: seq<CachedPiece>, disk: Disk, i: int)
    requires AllBacked(s, disk) && 0 <= i < |s|
    ensures Exact(s[i]) && s[i].numBlocks >= 0
  {
    assert Backed(s[i], disk);
  }

  lemma KeyOfSame(p: CachedPiece, q: CachedPiece)
    requires q.storage == p.storage && q.piece == p.piece
    ensures KeyOf(p) == KeyOf(q)
  {
  }

  lemma ShiftedAt(s: seq<CachedPiece>, i: int, q: CachedPiece, k: int)
    requires 0 <= i < |s| && 0 <= k <= |s| && k != i
    ensures |Without(s, i)| == |s| - 1 && |s[i := q]| == |s| && (k < |s| ==> s[i := q][k] == s[k])
    ensures if k < |s| then 0 <= Shifted(k, i) < |s| - 1 && Without(s, i)[Shifted(k, i)] == s[k] else Shifted(k, i) == |s| - 1
  {
  }

  lemma LeftAlone(read: seq<CachedPiece>, num: int, ignore: int, now: int, i: int)
    requires 0 <= i < |read| && (i == ignore || now - read[i].lastUse < SECOND)
    ensures ClearedOldest(read, num, ignore, now, read, 0, i)
  {
  }

  lemma Freed(read: seq<CachedPiece>, num: int, ignore: int, now: int, i: int, q: CachedPiece)
    requires 0 <= i < |read| && i != ignore && now - read[i].lastUse >= SECOND && num > 0
    requires if num >= read[i].numBlocks then q.numBlocks == 0
             else q == read[i].(numBlocks := read[i].numBlocks - num, blocks := q.blocks) && EndsFreed(read[i].blocks, q.blocks)
    ensures ClearedOldest(read, num, ignore, now, if q.numBlocks == 0 then Without(read, i) else read[i := q],
                          read[i].numBlocks - q.numBlocks, i)
  {
    hide EndsFreed;
  }

  // ----------------------------------------------------------- making room

  /** The entry at `i` is now at `i'`. */
  ghost predicate Kept(r: seq<CachedPiece>, i: int, r': seq<CachedPiece>, i': int) {
    0 <= i <= |r| && 0 <= i' <= |r'| && if i < |r| then i' < |r'| && r'[i'] == r[i] else i' == |r'|
  }

  /** Every entry that lost blocks was at least a second old and used no later than every entry left. */
  ghost predicate OldestCleared(read: seq<CachedPiece>, r: seq<CachedPiece>, now: int) {
    forall a :: 0 <= a < |read| && read[a] !in r ==> now - read[a].lastUse >= SECOND && UsedBy(r, read[a].lastUse)
  }

  /** Every entry was used at `time` or later. */
  ghost predicate UsedBy(r: seq<CachedPiece>, time: int) {
    forall n :: 0 <= n < |r| ==> time <= r[n].lastUse
  }

  /** No block can be freed: the entry used least recently is to be kept or too young. */
  ghost predicate Stuck(r: seq<CachedPiece>, ignore: int, now: int) {
    r != [] ==> exists i :: IsOldest(r, i) && (i == ignore || now - r[i].lastUse < SECOND)
  }

  lemma UsedByNext(r: seq<CachedPiece>, r': seq<CachedPiece>, num: int, ignore: int, now: int, freed: int, i: int, time: int)
    requires 0 <= i < |r| && ClearedOldest(r, num, ignore, now, r', freed, i) && UsedBy(r, time)
    ensures UsedBy(r', time)
  {
    hide EndsFreed;
    forall n | 0 <= n < |r'| ensures time <= r'[n].lastUse {
      assert n != i && |r'| == |r| ==> r'[n] == r[n];
    }
  }

  /** An entry that goes is the one used least recently. */
  lemma WhichGoes(r: seq<CachedPiece>, r': seq<CachedPiece>, num: int, ignore: int, now: int, freed: int, i: int, p: CachedPiece)
    requires IsOldest(r, i) && ClearedOldest(r, num, ignore, now, r', freed, i) && p in r && p !in r'
    ensures p == r[i] && now - p.lastUse >= SECOND && UsedBy(r, p.lastUse)
  {
    hide EndsFreed;
    var k :| 0 <= k < |r| && r[k] == p;
    OthersStay(r, r', num, ignore, now, freed, i, k);
  }

  lemma OthersStay(r: seq<CachedPiece>, r': seq<CachedPiece>, num: int, ignore: int, now: int, freed: int, i: int, k: int)
    requires 0 <= i < |r| && ClearedOldest(r, num, ignore, now, r', freed, i) && 0 <= k < |r|
    ensures k != i ==> r[k] in r'
  {
    hide EndsFreed;
    if k != i {
      var at := if |r'| == |r| then k else Shifted(k, i);
      assert r'[at] == r[k];
    }
  }

  lemma OldestNext(read: seq<CachedPiece>, r: seq<CachedPiece>, r': seq<CachedPiece>, num: int, ignore: int, now: int, freed: int, i: int)
    requires OldestCleared(read, r, now) && IsOldest(r, i) && ClearedOldest(r, num, ignore, now, r', freed, i)
    ensures OldestCleared(read, r', now)
  {
    hide ClearedOldest, IsOldest, UsedBy;
    forall a | 0 <= a < |read| && read[a] !in r' ensures now - read[a].lastUse >= SECOND && UsedBy(r', read[a].lastUse) {
      OldestRange(r, i);
      if read[a] in r { WhichGoes(r, r', num, ignore, now, freed, i, read[a]); }
      UsedByNext(r, r', num, ignore, now, freed, i, read[a].lastUse);
    }
  }

  /** Nothing freed means that nothing could be, unless an entry was empty. */
  lemma StuckWhen(r: seq<CachedPiece>, r': seq<CachedPiece>, num: int, ignore: int, ignore': int, now: int, freed: int, i: int)
    requires IsOldest(r, i) && ClearedOldest(r, num, ignore, now, r', freed, i) && Busy(r) && num > 0 && Kept(r, ignore, r', ignore')
    requires Keyed(r)
    ensures Busy(r') && (freed == 0 ==> Stuck(r', ignore', now))
  {
    hide EndsFreed;
    if freed == 0 {
      assert r' == r;
      if i == ignore && ignore' != ignore { KeysDiffer(r, ignore, ignore'); }
    } else {
      forall k | 0 <= k < |r'| ensures r'[k].numBlocks >= 1 {
        assert |r'| == |r| && k != i ==> r'[k] == r[k];
      }
    }
  }

  /** The first loop of `flush_cache_blocks`. */
  method ClearReadBlocks(read: seq<CachedPiece>, blocks: int, ignore: int, now: int, ghost disk: Disk)
    returns (r: seq<CachedPiece>, left: int, ignore': int)
    requires AllBacked(read, disk) && Keyed(read) && blocks > 0 && 0 <= ignore <= |read|
    ensures AllBacked(r, disk) && Keyed(r) && Total(r) == Total(read) - (blocks - left) && 0 <= left <= blocks
    ensures Kept(read, ignore, r, ignore') && NoNewKeys(read, r) && Thinner(read, r)
    ensures OldestCleared(read, r, now) && (Busy(read) && left > 0 ==> Stuck(r, ignore', now))
  {
    NothingNew(read);
    r, left, ignore' := read, blocks, ignore;
    var freed := 1;
    hide AllBacked, Keyed, ClearedOldest, IsOldest, Total, Has, Thinner, OldestCleared, Stuck, Busy;
    NoneCleared(read, now);
    while freed > 0 && left > 0
      invariant AllBacked(r, disk) && Keyed(r) && Total(r) == Total(read) - (blocks - left) && 0 <= left <= blocks
      invariant Kept(read, ignore, r, ignore') && NoNewKeys(read, r) && Thinner(read, r)
      invariant OldestCleared(read, r, now) && (Busy(read) ==> Busy(r) && (freed <= 0 ==> Stuck(r, ignore', now)))
      decreases left + (if freed > 0 then 1 else 0)
    {
      ghost var r0, was := r, ignore';
      r, freed, ignore' := ClearOldestReadPiece(r, left, ignore', now, disk);
      ThinnerTrans(read, r0, r);
      ClearedNext(read, r0, r, left, was, ignore', now, freed);
      left := left - freed;
    }
  }

  lemma NoneCleared(read: seq<CachedPiece>, now: int)
    ensures OldestCleared(read, read, now)
  {
  }

  lemma ClearedNext(read: seq<CachedPiece>, r: seq<CachedPiece>, r': seq<CachedPiece>, num: int, ignore: int, ignore': int, now: int, freed: int)
    requires OldestCleared(read, r, now) && num > 0 && Kept(r, ignore, r', ignore') && Keyed(r)
    requires if r == [] then freed == 0 && r' == r
             else exists i :: IsOldest(r, i) && ClearedOldest(r, num, ignore, now, r', freed, i)
    ensures OldestCleared(read, r', now) && (Busy(r) ==> Busy(r') && (freed == 0 ==> Stuck(r', ignore', now)))
  {
    if r != [] {
      hide IsOldest, ClearedOldest, OldestCleared, Stuck, Busy, Kept, Keyed;
      var i :| IsOldest(r, i) && ClearedOldest(r, num, ignore, now, r', freed, i);
      OldestNext(read, r, r', num, ignore, now, freed, i);
      if Busy(r) { StuckWhen(r, r', num, ignore, ignore', now, freed, i); }
    }
  }

  datatype Algorithm = Lru | LargestContiguous

  /** Entry `a` goes before entry `b`: it was used earlier, or stands first among those used at one time. */
  ghost predicate Before(w: seq<CachedPiece>, a: int, b: int)
    requires 0 <= a < |w| && 0 <= b < |w|
  {
    w[a].lastUse < w[b].lastUse || (w[a].lastUse == w[b].lastUse && a < b)
  }

  /** The entries left are those at `left`, as they were and in their order. */
  ghost predicate Survive(w: seq<CachedPiece>, w': seq<CachedPiece>, left: seq<int>) {
    && |left| == |w'|
    && (forall n :: 0 <= n < |left| ==> 0 <= left[n] < |w| && w'[n] == w[left[n]])
    && forall m, n :: 0 <= m < n < |left| ==> left[m] < left[n]
  }

  /** Every entry gone was used no later than every entry left. */
  ghost predicate OldestGone(w: seq<CachedPiece>, left: seq<int>)
    requires forall n :: 0 <= n < |left| ==> 0 <= left[n] < |w|
  {
    forall a, n :: 0 <= a < |w| && a !in left && 0 <= n < |left| ==> Before(w, a, left[n])
  }

  /** Entry `last` went last, and without it too little would have been freed. */
  ghost predicate LastNeeded(w: seq<CachedPiece>, left: seq<int>, last: int, blocks: int, freed: int) {
    && 0 <= last < |w| && last !in left && freed - w[last].numBlocks < blocks
    && forall a :: 0 <= a < |w| && a !in left && a != last ==> Before(w, a, last)
  }

  ghost predicate OldestTaken(w: seq<CachedPiece>, w': seq<CachedPiece>, left: seq<int>, last: int, blocks: int, freed: int) {
    Survive(w, w', left) && OldestGone(w, left) && (w' != w ==> LastNeeded(w, left, last, blocks, freed))
  }

  /** `lru`: whole entries went, the least recently used ones, and no more than needed. */
  ghost predicate OldestFlushed(w: seq<CachedPiece>, w': seq<CachedPiece>, blocks: int, freed: int) {
    exists left, last :: OldestTaken(w, w', left, last, blocks, freed)
  }

  /** Blocks `pos..pos + len` of entry `i` are a longest run there is. */
  ghost predicate LongestAt(w: seq<CachedPiece>, i: int, pos: int, len: int) {
    && 0 <= i < |w| && 0 < len && Full(w[i].blocks, pos, pos + len)
    && NoneLonger(w, len)
  }

  ghost predicate NoneLonger(w: seq<CachedPiece>, len: int) {
    forall k :: 0 <= k < |w| ==> NoLonger(w[k].blocks, len)
  }

  /** From `w` to `w'` exactly a longest run went. */
  ghost predicate LongestGone(w: seq<CachedPiece>, w': seq<CachedPiece>, len: int) {
    exists i, pos :: LongestAt(w, i, pos, len) && RunGone(w, w', i, pos, len)
  }

  /** The caches between the steps, each step a longest run that was still needed. */
  ghost predicate LongestSteps(ws: seq<seq<CachedPiece>>, lens: seq<int>, blocks: int) {
    && |ws| == |lens| + 1
    && forall n :: 0 <= n < |lens| ==> LongestGone(ws[n], ws[n + 1], lens[n]) && Total(ws[0]) - Total(ws[n]) < blocks
  }

  /** `largest_contiguous`: longest runs went, one at a time, no more than needed, and what is left has none longer. */
  ghost predicate LongestFlushed(w: seq<CachedPiece>, w': seq<CachedPiece>, blocks: int) {
    exists ws, lens :: LongestSteps(ws, lens, blocks) && ws[0] == w && ws[|lens|] == w' && AllNoneLonger(w', lens)
  }

  ghost predicate AllNoneLonger(w: seq<CachedPiece>, lens: seq<int>) {
    forall n :: 0 <= n < |lens| ==> NoneLonger(w, lens[n])
  }

  /** What the write loops take away. */
  ghost predicate WritesFlushed(algorithm: Algorithm, w: seq<CachedPiece>, w': seq<CachedPiece>, blocks: int, freed: int) {
    match algorithm
    case Lru => OldestFlushed(w, w', blocks, freed)
    case LargestContiguous => LongestFlushed(w, w', blocks)
  }

  /** One turn of a write loop. */
  ghost predicate OneFlushed(algorithm: Algorithm, w: seq<CachedPiece>, w': seq<CachedPiece>, freed: int, i: int) {
    match algorithm
    case Lru => IsOldest(w, i) && w' == Without(w, i) && freed == w[i].numBlocks
    case LargestContiguous => LongestGone(w, w', freed)
  }

  lemma AllSurvive(w: seq<CachedPiece>, n: nat) returns (left: seq<int>)
    requires n <= |w|
    ensures |left| == n && (forall k :: 0 <= k < n ==> left[k] == k) && Survive(w, w[..n], left)
  {
    if n == 0 {
      left := [];
    } else {
      left := AllSurvive(w, n - 1);
      left := left + [n - 1];
    }
  }

  lemma NothingFlushed(algorithm: Algorithm, w: seq<CachedPiece>, blocks: int)
    ensures WritesFlushed(algorithm, w, w, blocks, 0)
  {
    if algorithm == Lru {
      var left := AllSurvive(w, |w|);
      assert w[..|w|] == w;
      forall a | 0 <= a < |w| ensures a in left { assert left[a] == a; }
      assert OldestTaken(w, w, left, 0, blocks, 0);
    } else {
      var ws: seq<seq<CachedPiece>>, lens: seq<int> := [w], [];
      assert LongestSteps(ws, lens, blocks) && ws[0] == w && ws[|lens|] == w && AllNoneLonger(w, lens);
    }
  }

  /** The next entry to go stands before all that stay. */
  lemma OldestBefore(w: seq<CachedPiece>, w': seq<CachedPiece>, left: seq<int>, i: int, n: int)
    requires Survive(w, w', left) && IsOldest(w', i) && 0 <= n < |left| && n != i
    ensures Before(w, left[i], left[n])
  {
    assert w'[n] == w[left[n]] && w'[i] == w[left[i]];
  }

  lemma StillIn(left: seq<int>, i: int, a: int)
    requires 0 <= i < |left| && a in left && a != left[i]
    ensures a in Without(left, i)
  {
    var k :| 0 <= k < |left| && left[k] == a;
    assert Without(left, i)[if k < i then k else k - 1] == a;
  }

  lemma SurviveNext(w: seq<CachedPiece>, w': seq<CachedPiece>, left: seq<int>, i: int)
    requires Survive(w, w', left) && 0 <= i < |w'|
    ensures Survive(w, Without(w', i), Without(left, i)) && left[i] !in Without(left, i)
  {
    var t, l := Without(w', i), Without(left, i);
    forall n | 0 <= n < |l| ensures 0 <= l[n] < |w| && t[n] == w[l[n]] && l[n] != left[i] {
      var o := if n < i then n else n + 1;
      assert l[n] == left[o] && t[n] == w'[o];
    }
  }

  lemma OldestTakenNext(w: seq<CachedPiece>, w': seq<CachedPiece>, left: seq<int>, last: int, blocks: int, freed: int, i: int)
    requires OldestTaken(w, w', left, last, blocks, freed) && IsOldest(w', i) && freed < blocks
    ensures 0 <= i < |w'| && OldestFlushed(w, Without(w', i), blocks, freed + w'[i].numBlocks)
  {
    var l, z := Without(left, i), left[i];
    SurviveNext(w, w', left, i);
    hide Before, Survive, IsOldest;
    forall a, n | 0 <= a < |w| && a !in l && 0 <= n < |l| ensures Before(w, a, l[n]) {
      var o := if n < i then n else n + 1;
      assert l[n] == left[o];
      if a == z { OldestBefore(w, w', left, i, o); } else if a in left { StillIn(left, i, a); }
    }
    forall a | 0 <= a < |w| && a !in l && a != z ensures Before(w, a, z) {
      if a in left { StillIn(left, i, a); }
    }
    SurviveRange(w, w', left, i);
    assert LastNeeded(w, l, z, blocks, freed + w'[i].numBlocks);
    assert OldestTaken(w, Without(w', i), l, z, blocks, freed + w'[i].numBlocks);
  }

  lemma SurviveRange(w: seq<CachedPiece>, w': seq<CachedPiece>, left: seq<int>, i: int)
    requires Survive(w, w', left) && 0 <= i < |w'|
    ensures 0 <= left[i] < |w| && w[left[i]] == w'[i]
  {
  }

  /** A run of what is left is a run of what was there. */
  lemma NoneLongerNext(w: seq<CachedPiece>, w': seq<CachedPiece>, i: int, pos: int, len: int, most: int)
    requires RunGone(w, w', i, pos, len) && NoneLonger(w, most)
    ensures NoneLonger(w', most)
  {
    forall k | 0 <= k < |w'| ensures NoLonger(w'[k].blocks, most) {
      if |w'| == |w| && k == i {
        assert NoLonger(w[i].blocks, most);
        forall a, b | Full(w'[i].blocks, a, b) ensures b - a <= most { assert Full(w[i].blocks, a, b); }
      } else {
        var o := if |w'| == |w| || k < i then k else k + 1;
        assert w'[k] == w[o] && NoLonger(w[o].blocks, most);
      }
    }
  }

  lemma AllNoneLongerNext(w: seq<CachedPiece>, w': seq<CachedPiece>, lens: seq<int>, len: int)
    requires AllNoneLonger(w, lens) && LongestGone(w, w', len)
    ensures AllNoneLonger(w', lens + [len])
  {
    hide NoneLonger, RunGone;
    var i, pos :| LongestAt(w, i, pos, len) && RunGone(w, w', i, pos, len);
    forall n | 0 <= n < |lens| + 1 ensures NoneLonger(w', (lens + [len])[n]) {
      NoneLongerNext(w, w', i, pos, len, (lens + [len])[n]);
    }
  }

  lemma LongestNext(w: seq<CachedPiece>, w': seq<CachedPiece>, w'': seq<CachedPiece>, blocks: int, len: int)
    requires LongestFlushed(w, w', blocks) && LongestGone(w', w'', len) && Total(w) - Total(w') < blocks
    ensures LongestFlushed(w, w'', blocks)
  {
    hide LongestGone, AllNoneLonger, Total;
    var ws, lens :| LongestSteps(ws, lens, blocks) && ws[0] == w && ws[|lens|] == w' && AllNoneLonger(w', lens);
    var vs, ls := ws + [w''], lens + [len];
    forall n | 0 <= n < |ls| ensures LongestGone(vs[n], vs[n + 1], ls[n]) && Total(vs[0]) - Total(vs[n]) < blocks {
      if n < |lens| { assert vs[n] == ws[n] && vs[n + 1] == ws[n + 1] && ls[n] == lens[n]; }
    }
    AllNoneLongerNext(w', w'', lens, len);
    assert LongestSteps(vs, ls, blocks) && vs[0] == w && vs[|ls|] == w'';
  }

  lemma FlushedNext(algorithm: Algorithm, w: seq<CachedPiece>, w': seq<CachedPiece>, w'': seq<CachedPiece>, blocks: int, freed: int, more: int, i: int)
    requires WritesFlushed(algorithm, w, w', blocks, freed) && OneFlushed(algorithm, w', w'', more, i)
    requires freed < blocks && Total(w') == Total(w) - freed
    ensures WritesFlushed(algorithm, w, w'', blocks, freed + more)
  {
    hide IsOldest, OldestTaken, LongestFlushed, LongestGone, Total;
    if algorithm == Lru {
      var left, last :| OldestTaken(w, w', left, last, blocks, freed);
      OldestTakenNext(w, w', left, last, blocks, freed, i);
    } else {
      LongestNext(w, w', w'', blocks, more);
    }
  }

  lemma SameSame(w: seq<CachedPiece>, disk: Disk, w': seq<CachedPiece>, disk': Disk, w'': seq<CachedPiece>, disk'': Disk)
    requires Same(w, disk, w', disk') && Same(w', disk', w'', disk'')
    ensures Same(w, disk, w'', disk'')
  {
    hide AllBacked;
    SameTrans(w, disk, w', disk', w'', disk'');
  }

  lemma NoNewTrans(s: seq<CachedPiece>, t: seq<CachedPiece>, u: seq<CachedPiece>)
    requires NoNewKeys(s, t) && NoNewKeys(t, u)
    ensures NoNewKeys(s, u)
  {
    hide Has;
  }

  /** Writes out the entry used least recently, or the longest run there is. */
  method FlushOne(w: seq<CachedPiece>, disk: Disk, algorithm: Algorithm, coalesce: bool)
    returns (w': seq<CachedPiece>, disk': Disk, freed: int, ghost i: int)
    requires Sound(w, disk) && w != []
    ensures Sound(w', disk') && Same(w, disk, w', disk') && freed > 0 && Total(w') == Total(w) - freed && NoNewKeys(w, w')
    ensures OneFlushed(algorithm, w, w', freed, i)
  {
    if algorithm == Lru {
      var e := Oldest(w);
      w', disk', freed := FlushAndRemove(w, disk, e, coalesce);
      i := e;
    } else {
      var e := MostContiguous(w);
      ghost var pos;
      w', disk', freed, pos := FlushContiguous(w, disk, e, 0, coalesce);
      i := e;
      LongestOfAll(w, w', e, pos, freed);
    }
  }

  lemma LongestOfAll(w: seq<CachedPiece>, w': seq<CachedPiece>, i: int, pos: int, len: int)
    requires 0 <= i < |w| && RunGone(w, w', i, pos, len) && len == RunLength(w[i].blocks)
    requires forall k :: 0 <= k < |w| ==> RunLength(w[i].blocks) >= RunLength(w[k].blocks)
    ensures LongestGone(w, w', len)
  {
    forall k | 0 <= k < |w| ensures NoLonger(w[k].blocks, len) {
      RunLengthLongest(w[k].blocks);
      NoLongerUp(w[k].blocks, RunLength(w[k].blocks), len);
    }
    assert LongestAt(w, i, pos, len);
  }

  /** The write loops of `flush_cache_blocks`: they stop, with enough blocks freed
      or with nothing left to write, and take what the algorithm says. */
  method FlushWriteBlocks(w: seq<CachedPiece>, disk: Disk, blocks: int, algorithm: Algorithm, coalesce: bool)
    returns (w': seq<CachedPiece>, disk': Disk, freed: int)
    requires Sound(w, disk)
    ensures Sound(w', disk') && Same(w, disk, w', disk')
    ensures freed >= 0 && Total(w') == Total(w) - freed && NoNewKeys(w, w')
    ensures freed >= blocks || w' == []
    ensures blocks <= 0 ==> w' == w && disk' == disk
    ensures WritesFlushed(algorithm, w, w', blocks, freed)
  {
    hide *;
    w', disk', freed := w, disk, 0;
    SoundBacked(w, disk);
    SameRefl(w, disk);
    NothingNew(w);
    NothingFlushed(algorithm, w, blocks);
    while freed < blocks && w' != []
      invariant Sound(w', disk') && Same(w, disk, w', disk') && freed >= 0 && Total(w') == Total(w) - freed && NoNewKeys(w, w')
      invariant blocks <= 0 ==> w' == w && disk' == disk
      invariant WritesFlushed(algorithm, w, w', blocks, freed)
      decreases blocks - freed
    {
      ghost var w1, d1, i := w', disk', 0;
      var more;
      w', disk', more, i := FlushOne(w', disk', algorithm, coalesce);
      SameSame(w, disk, w1, d1, w', disk');
      NoNewTrans(w, w1, w');
      FlushedNext(algorithm, w, w1, w', blocks, freed, more, i);
      freed := freed + more;
    }
  }

  // ------------------------------------------------------------ storing a block

  /** The write of `data` into piece `key`, and nothing else, is what changed. */
  ghost predicate Stored(w: seq<CachedPiece>, disk: Disk, w': seq<CachedPiece>, disk': Disk, key: Key, offset: int, data: seq<byte>) {
    && AllBacked(w, disk) && AllBacked(w', disk') && SameSizes(disk, disk')
    && key in disk && 0 <= offset && offset + |data| <= |Content(w, disk, key)|
    && Content(w', disk', key) == Put(Content(w, disk, key), offset, data)
    && forall other :: other in disk && other != key ==> Content(w', disk', other) == Content(w, disk, other)
  }

  lemma StoredSame(w0: seq<CachedPiece>, disk0: Disk, w1: seq<CachedPiece>, disk1: Disk,
                   w2: seq<CachedPiece>, disk2: Disk, w3: seq<CachedPiece>, disk3: Disk, key: Key, offset: int, data: seq<byte>)
    requires Same(w0, disk0, w1, disk1) && Stored(w1, disk1, w2, disk2, key, offset, data) && Same(w2, disk2, w3, disk3)
    ensures Stored(w0, disk0, w3, disk3, key, offset, data)
  {
    hide AllBacked, Content, Put;
  }

  /** Only size and buffers matter for what an entry stands for. */
  lemma {:induction false} OverlayOnly(p: CachedPiece, q: CachedPiece, disk: seq<byte>, hi: int)
    requires Shaped(p) && q.size == p.size && q.blocks == p.blocks && |disk| == p.size && 0 <= hi <= |p.blocks|
    ensures Shaped(q) && Overlay(q, disk, 0, hi) == Overlay(p, disk, 0, hi)
    decreases hi
  {
    if hi > 0 { OverlayOnly(p, q, disk, hi - 1); }
  }

  /** Entry `p` with block `k` replaced. */
  function WithBlock(p: CachedPiece, k: int, bytes: seq<byte>, now: int): CachedPiece
    requires 0 <= k < |p.blocks|
  {
    p.(blocks := p.blocks[k := Data(bytes)], lastUse := now,
       numBlocks := p.numBlocks - (if p.blocks[k].Data? then 1 else 0) + 1)
  }

  lemma WithBlockIs(p: CachedPiece, k: int, bytes: seq<byte>, now: int, disk: seq<byte>)
    requires Exact(p) && |disk| == p.size && 0 <= k < |p.blocks| && |bytes| == BLOCK_SIZE
    ensures var q := WithBlock(p, k, bytes, now);
            && Exact(q) && q.numBlocks >= 1
            && 0 < Len(p.size, k) <= BLOCK_SIZE && Offset(k) + Len(p.size, k) <= p.size
            && Whole(q, disk) == Put(Whole(p, disk), Offset(k), bytes[..Len(p.size, k)])
  {
    CacheIsWrite(p, k, bytes, disk);
    CountUpdate(p.blocks, k, Data(bytes));
    CountZero(p.blocks[k := Data(bytes)]);
    assert p.blocks[k := Data(bytes)][k].Data?;
    OverlayOnly(p.(blocks := p.blocks[k := Data(bytes)]), WithBlock(p, k, bytes, now), disk, |p.blocks|);
  }

  lemma ReplaceContent(w: seq<CachedPiece>, disk: Disk, i: int, q: CachedPiece, key: Key)
    requires AllBacked(w, disk) && Keyed(w) && 0 <= i < |w| && KeyOf(q) == KeyOf(w[i])
    requires AllBacked(w[i := q], disk) && key in disk
    ensures Content(w[i := q], disk, key) == if key == KeyOf(q) then (assert Backed(w[i := q][i], disk); Whole(q, disk[key])) else Content(w, disk, key)
  {
    hide Whole, Exact;
    FindSame(w, w[i := q], key);
    if key == KeyOf(q) { FindKeyed(w, i); }
  }

  lemma StoreWhole(w: seq<CachedPiece>, disk: Disk, i: int, q: CachedPiece, offset: int, data: seq<byte>)
    requires Sound(w, disk) && 0 <= i < |w| && Exact(q) && q.numBlocks >= 1
    requires KeyOf(q) == KeyOf(w[i]) && q.size == w[i].size && 0 <= offset && offset + |data| <= q.size
    requires Whole(q, disk[KeyOf(q)]) == Put(Whole(w[i], disk[KeyOf(q)]), offset, data)
    ensures Sound(w[i := q], disk) && Stored(w, disk, w[i := q], disk, KeyOf(q), offset, data)
  {
    ChangedStays(w, i, q, disk);
    assert Backed(w[i], disk);
    assert Busy(w[i := q]);
    FindKeyed(w, i);
    assert Content(w, disk, KeyOf(q)) == Whole(w[i], disk[KeyOf(q)]);
    hide Whole, Exact, Put, Content, AllBacked, Keyed, Busy;
    forall other | other in disk ensures Content(w[i := q], disk, other) == if other == KeyOf(q) then Whole(q, disk[other]) else Content(w, disk, other) {
      ReplaceContent(w, disk, i, q, other);
    }
  }

  /** Entry `i` takes over a block of its piece. */
  lemma ReplaceStores(w: seq<CachedPiece>, disk: Disk, i: int, k: int, bytes: seq<byte>, now: int)
    requires Sound(w, disk) && 0 <= i < |w| && 0 <= k < |w[i].blocks| && |bytes| == BLOCK_SIZE
    ensures 0 < Len(w[i].size, k) <= BLOCK_SIZE
    ensures var w' := w[i := WithBlock(w[i], k, bytes, now)];
            Sound(w', disk) && Stored(w, disk, w', disk, KeyOf(w[i]), Offset(k), bytes[..Len(w[i].size, k)])
  {
    var p, q, key := w[i], WithBlock(w[i], k, bytes, now), KeyOf(w[i]);
    assert Backed(p, disk);
    WithBlockIs(p, k, bytes, now, disk[key]);
    assert KeyOf(q) == key && q.size == p.size;
    hide WithBlock, Whole, Exact, Put, Len, Sound, Stored;
    StoreWhole(w, disk, i, q, Offset(k), bytes[..Len(p.size, k)]);
  }

  /** A new entry with one block. */
  function NewEntry(key: Key, size: int, k: int, bytes: seq<byte>, now: int): CachedPiece
    requires 0 <= k < BlocksInPiece(size)
  {
    var blocks := seq(BlocksInPiece(size), _ => Absent);
    CachedPiece(key.storage, key.piece, size, now, 1, blocks[k := Data(bytes)])
  }

  lemma NewEntryIs(key: Key, size: int, k: int, bytes: seq<byte>, now: int, disk: seq<byte>)
    requires 0 < size == |disk| && 0 <= k < BlocksInPiece(size) && |bytes| == BLOCK_SIZE
    ensures var q := NewEntry(key, size, k, bytes, now);
            && Exact(q) && q.numBlocks == 1 && KeyOf(q) == key && q.size == size
            && 0 < Len(size, k) <= BLOCK_SIZE && Offset(k) + Len(size, k) <= size
            && Whole(q, disk) == Put(disk, Offset(k), bytes[..Len(size, k)])
  {
    var none := CachedPiece(key.storage, key.piece, size, now, 0, seq(BlocksInPiece(size), _ => Absent));
    CountZero(none.blocks);
    EmptyIsDisk(none, disk);
    WithBlockIs(none, k, bytes, now, disk);
    assert WithBlock(none, k, bytes, now) == NewEntry(key, size, k, bytes, now);
  }

  lemma FindAppend(w: seq<CachedPiece>, q: CachedPiece, key: Key)
    ensures Find(w + [q], key) == if Find(w, key) < |w| then Find(w, key) else if KeyOf(q) == key then |w| else |w| + 1
  {
    var w', i := w + [q], Find(w, key);
    assert forall c :: 0 <= c < |w| ==> w'[c] == w[c];
    assert w'[|w|] == q;
  }

  /** A piece without an entry gets one for its block. */
  lemma AppendStores(w: seq<CachedPiece>, disk: Disk, key: Key, k: int, bytes: seq<byte>, now: int)
    requires Sound(w, disk) && key in disk && Find(w, key) == |w| && |bytes| == BLOCK_SIZE
    requires 0 <= k < BlocksInPiece(|disk[key]|)
    ensures 0 < Len(|disk[key]|, k) <= BLOCK_SIZE
    ensures var w' := w + [NewEntry(key, |disk[key]|, k, bytes, now)];
            Sound(w', disk) && Stored(w, disk, w', disk, key, Offset(k), bytes[..Len(|disk[key]|, k)])
  {
    var d := disk[key];
    var q := NewEntry(key, |d|, k, bytes, now);
    NewEntryIs(key, |d|, k, bytes, now, d);
    AppendSound(w, disk, q);
    StoredByAppend(w, disk, q, Offset(k), bytes[..Len(|d|, k)]);
  }

  lemma AppendSound(w: seq<CachedPiece>, disk: Disk, q: CachedPiece)
    requires Sound(w, disk) && Backed(q, disk) && q.numBlocks >= 1 && Find(w, KeyOf(q)) == |w|
    ensures Sound(w + [q], disk)
  {
    hide Exact;
    var w' := w + [q];
    forall c | 0 <= c < |w'| ensures Backed(w'[c], disk) { if c < |w| { assert Backed(w[c], disk); } }
  }

  lemma AppendContent(w: seq<CachedPiece>, disk: Disk, q: CachedPiece, key: Key)
    requires AllBacked(w, disk) && AllBacked(w + [q], disk) && Backed(q, disk) && key in disk && Find(w, KeyOf(q)) == |w|
    ensures Content(w + [q], disk, key) == if key == KeyOf(q) then Whole(q, disk[key]) else Content(w, disk, key)
    ensures key == KeyOf(q) ==> Content(w, disk, key) == disk[key]
  {
    hide Whole, Exact;
    FindAppend(w, q, key);
  }

  lemma StoredByAppend(w: seq<CachedPiece>, disk: Disk, q: CachedPiece, offset: int, data: seq<byte>)
    requires Sound(w, disk) && Sound(w + [q], disk) && Backed(q, disk) && Find(w, KeyOf(q)) == |w|
    requires 0 <= offset && offset + |data| <= q.size && Whole(q, disk[KeyOf(q)]) == Put(disk[KeyOf(q)], offset, data)
    ensures Stored(w, disk, w + [q], disk, KeyOf(q), offset, data)
  {
    AppendContent(w, disk, q, KeyOf(q));
    hide Content, Whole, Put, AllBacked, Exact;
    forall other | other in disk && other != KeyOf(q) ensures Content(w + [q], disk, other) == Content(w, disk, other) {
      AppendContent(w, disk, q, other);
    }
  }

  /** A piece of a single block is written at once. */
  lemma DirectStores(w: seq<CachedPiece>, disk: Disk, key: Key, offset: int, data: seq<byte>)
    requires Sound(w, disk) && key in disk && Find(w, key) == |w| && 0 <= offset && offset + |data| <= |disk[key]|
    ensures var disk' := disk[key := Put(disk[key], offset, data)];
            Sound(w, disk') && Stored(w, disk, w, disk', key, offset, data)
  {
    var disk' := disk[key := Put(disk[key], offset, data)];
    StillBacked(w, disk, disk');
  }

  /** At most `key` has an entry in `t` and none in `s`. */
  ghost predicate OnlyNewKey(s: seq<CachedPiece>, t: seq<CachedPiece>, key: Key) {
    forall other :: Has(t, other) ==> Has(s, other) || other == key
  }

  lemma OnlyNew(s: seq<CachedPiece>, t: seq<CachedPiece>, u: seq<CachedPiece>, key: Key)
    requires NoNewKeys(s, t) && NoNewKeys(t, u)
    ensures OnlyNewKey(s, u, key)
  {
    hide Has;
  }

  lemma AppendedKey(w: seq<CachedPiece>, q: CachedPiece)
    ensures OnlyNewKey(w, w + [q], KeyOf(q))
  {
    forall other | Has(w + [q], other) ensures Has(w, other) || other == KeyOf(q) { FindAppend(w, q, other); }
  }

  /** Entry `q` is `p` with one more block, used now. */
  ghost predicate Joined(p: CachedPiece, q: CachedPiece, k: int, bytes: seq<byte>, now: int) {
    && 0 <= k < |p.blocks| && q == p.(blocks := p.blocks[k := Data(bytes)], lastUse := now, numBlocks := q.numBlocks)
    && q.numBlocks == p.numBlocks + if p.blocks[k].Data? then 0 else 1
  }

  /** A run shorter than the line stays in the cache; otherwise the longest one is written. */
  ghost predicate LineKept(w: seq<CachedPiece>, disk: Disk, w': seq<CachedPiece>, disk': Disk, i: int, line: int) {
    && 0 <= i < |w|
    && (NoLonger(w[i].blocks, line - 1) ==> w' == w && disk' == disk)
    && (!NoLonger(w[i].blocks, line - 1) ==> LineGone(w, w', i, line))
  }

  ghost predicate LineGone(w: seq<CachedPiece>, w': seq<CachedPiece>, i: int, line: int)
    requires 0 <= i < |w|
  {
    exists pos, len :: line <= len && NoLonger(w[i].blocks, len) && RunGone(w, w', i, pos, len)
  }

  /** How a block gets into the write cache. */
  ghost predicate BlockStored(w: seq<CachedPiece>, disk: Disk, w': seq<CachedPiece>, disk': Disk, key: Key, k: int, bytes: seq<byte>, now: int, line: int)
    requires key in disk
  {
    if Has(w, key) then JoinStored(w, disk, w', disk', Find(w, key), k, bytes, now, line)
    else if BlocksInPiece(|disk[key]|) > 1 then
      disk' == disk && |w'| == |w| + 1 && w'[..|w|] == w && FirstBlock(w'[|w|], key, |disk[key]|, k, bytes, now)
    else w' == w && OnlyPiece(disk, disk', key)
  }

  /** The block joins entry `i`, and what that completes is dealt with. */
  ghost predicate JoinStored(w: seq<CachedPiece>, disk: Disk, w': seq<CachedPiece>, disk': Disk, i: int, k: int, bytes: seq<byte>, now: int, line: int) {
    0 <= i < |w| && exists q :: Joined(w[i], q, k, bytes, now) && LineKept(w[i := q], disk, w', disk', i, line)
  }

  /** An entry with nothing but block `k`. */
  ghost predicate FirstBlock(p: CachedPiece, key: Key, size: int, k: int, bytes: seq<byte>, now: int) {
    && KeyOf(p) == key && p.size == size && p.lastUse == now && p.numBlocks == 1 && |p.blocks| == BlocksInPiece(size)
    && forall c :: 0 <= c < |p.blocks| ==> p.blocks[c] == if c == k then Data(bytes) else Absent
  }

  /** The middle of a write job: the block goes into the entry of its piece, and a
      run that got long enough is written; a piece without an entry gets one,
      unless it is a single block, which is written at once. `change` is what
      happened to the number of cached blocks. */
  method StoreBlock(w: seq<CachedPiece>, disk: Disk, key: Key, k: int, bytes: seq<byte>, now: int, line: int, coalesce: bool)
    returns (w': seq<CachedPiece>, disk': Disk, cached: bool, change: int)
    requires Sound(w, disk) && key in disk && |bytes| == BLOCK_SIZE && 0 <= k < BlocksInPiece(|disk[key]|)
    ensures 0 < Len(|disk[key]|, k) <= BLOCK_SIZE
    ensures Sound(w', disk') && Stored(w, disk, w', disk', key, Offset(k), bytes[..Len(|disk[key]|, k)])
    ensures Total(w') == Total(w) + change && change <= 1
    ensures cached <==> Find(w, key) < |w| || BlocksInPiece(|disk[key]|) > 1
    ensures !cached ==> w' == w
    ensures OnlyNewKey(w, w', key) && BlockStored(w, disk, w', disk', key, k, bytes, now, line)
  {
    hide *;
    var i, size := Find(w, key), |disk[key]|;
    if i < |w| {
      w', disk', change := StoreInEntry(w, disk, i, k, bytes, now, line, coalesce);
      JoinedStored(w, disk, w', disk', key, k, bytes, now, line);
      cached := true;
    } else if BlocksInPiece(size) > 1 {
      AppendStores(w, disk, key, k, bytes, now);
      NewEntryFields(key, size, k, bytes, now);
      var q := NewEntry(key, size, k, bytes, now);
      TotalAppend(w, q);
      AppendedKey(w, q);
      w', disk', cached, change := w + [q], disk, true, 1;
      FirstStored(w, disk, key, k, q, bytes, now, line);
    } else {
      LenInPiece(size, k);
      var data := bytes[..Len(size, k)];
      DirectStores(w, disk, key, Offset(k), data);
      w', disk', cached, change := w, disk[key := Put(disk[key], Offset(k), data)], false, 0;
      AloneStored(w, disk, disk', key, k, bytes, now, line);
      NothingNew(w);
      OnlyNew(w, w, w, key);
    }
  }

  lemma NewEntryFields(key: Key, size: int, k: int, bytes: seq<byte>, now: int)
    requires 0 <= k < BlocksInPiece(size)
    ensures FirstBlock(NewEntry(key, size, k, bytes, now), key, size, k, bytes, now)
    ensures KeyOf(NewEntry(key, size, k, bytes, now)) == key && NewEntry(key, size, k, bytes, now).numBlocks == 1
  {
  }

  lemma LenInPiece(size: int, k: int)
    requires 0 <= k < BlocksInPiece(size)
    ensures 0 < Len(size, k) <= BLOCK_SIZE && 0 <= Offset(k) && Offset(k) + Len(size, k) <= size
  {
  }

  lemma FirstStored(w: seq<CachedPiece>, disk: Disk, key: Key, k: int, q: CachedPiece, bytes: seq<byte>, now: int, line: int)
    requires key in disk && Find(w, key) == |w| && BlocksInPiece(|disk[key]|) > 1 && FirstBlock(q, key, |disk[key]|, k, bytes, now)
    ensures BlockStored(w, disk, w + [q], disk, key, k, bytes, now, line)
  {
    hide FirstBlock;
  }

  lemma AloneStored(w: seq<CachedPiece>, disk: Disk, disk': Disk, key: Key, k: int, bytes: seq<byte>, now: int, line: int)
    requires key in disk && Find(w, key) == |w| && BlocksInPiece(|disk[key]|) <= 1
    requires key in disk' && disk' == disk[key := disk'[key]]
    ensures BlockStored(w, disk, w, disk', key, k, bytes, now, line)
  {
  }

  /** The piece has an entry: the block joins it, and the run it completes may be written. */
  method StoreInEntry(w: seq<CachedPiece>, disk: Disk, i: int, k: int, bytes: seq<byte>, now: int, line: int, coalesce: bool)
    returns (w': seq<CachedPiece>, disk': Disk, change: int)
    requires Sound(w, disk) && 0 <= i < |w| && KeyOf(w[i]) in disk && |bytes| == BLOCK_SIZE && 0 <= k < BlocksInPiece(|disk[KeyOf(w[i])]|)
    requires Find(w, KeyOf(w[i])) == i
    ensures 0 < Len(|disk[KeyOf(w[i])]|, k) <= BLOCK_SIZE
    ensures Sound(w', disk') && Stored(w, disk, w', disk', KeyOf(w[i]), Offset(k), bytes[..Len(|disk[KeyOf(w[i])]|, k)])
    ensures Total(w') == Total(w) + change && change <= 1 && OnlyNewKey(w, w', KeyOf(w[i]))
    ensures JoinStored(w, disk, w', disk', i, k, bytes, now, line)
  {
    ghost var key, size := KeyOf(w[i]), |disk[KeyOf(w[i])]|;
    SameRefl(w, disk);
    assert Backed(w[i], disk);
    ReplaceStores(w, disk, i, k, bytes, now);
    var q := WithBlock(w[i], k, bytes, now);
    TotalChange(w, i, q);
    SameKeysAt(w, disk, w[i := q], disk, i);
    change := q.numBlocks - w[i].numBlocks;
    assert change <= 1;
    assert Joined(w[i], q, k, bytes, now);
    var w1, freed := w[i := q], 0;
    hide *;
    ghost var pos;
    w', disk', freed, pos := FlushContiguous(w1, disk, i, line, coalesce);
    LineIsKept(w1, disk, w', disk', i, line, freed, pos);
    AfterJoin(w, disk, w', disk', i, q, k, bytes, now, line);
    StoredSame(w, disk, w, disk, w1, disk, w', disk', key, Offset(k), bytes[..Len(size, k)]);
    OnlyNew(w, w1, w', key);
    assert freed >= 0 by { RunLengthNonNegative(w1[i].blocks); }
    change := change - freed;
  }

  lemma LineIsKept(w: seq<CachedPiece>, disk: Disk, w': seq<CachedPiece>, disk': Disk, i: int, line: int, freed: int, pos: int)
    requires 0 <= i < |w|
    requires if freed == 0 then w' == w && disk' == disk && NoLonger(w[i].blocks, line - 1)
             else freed >= line && NoLonger(w[i].blocks, freed) && RunGone(w, w', i, pos, freed)
    ensures LineKept(w, disk, w', disk', i, line)
  {
    if freed != 0 {
      assert Full(w[i].blocks, pos, pos + freed);
      assert !NoLonger(w[i].blocks, line - 1);
    }
  }

  lemma AfterJoin(w: seq<CachedPiece>, disk: Disk, w': seq<CachedPiece>, disk': Disk, i: int, q: CachedPiece, k: int, bytes: seq<byte>, now: int, line: int)
    requires 0 <= i < |w| && Joined(w[i], q, k, bytes, now) && LineKept(w[i := q], disk, w', disk', i, line)
    ensures JoinStored(w, disk, w', disk', i, k, bytes, now, line)
  {
  }

  lemma JoinedStored(w: seq<CachedPiece>, disk: Disk, w': seq<CachedPiece>, disk': Disk, key: Key, k: int, bytes: seq<byte>, now: int, line: int)
    requires key in disk && Find(w, key) < |w| && JoinStored(w, disk, w', disk', Find(w, key), k, bytes, now, line)
    ensures BlockStored(w, disk, w', disk', key, k, bytes, now, line)
  {
  }

  lemma RunLengthNonNegative(blocks: seq<Buffer>)
    ensures RunLength(blocks) >= 0
  {
    RunBound(blocks, 0, 0);
  }

  /** Writes out what is cached for a piece, so that the disk holds all of it. */
  method FlushPiece(w: seq<CachedPiece>, disk: Disk, key: Key, coalesce: bool)
    returns (w': seq<CachedPiece>, disk': Disk, freed: int)
    requires Sound(w, disk) && key in disk
    ensures Sound(w', disk') && Same(w, disk, w', disk') && freed >= 0 && Total(w') == Total(w) - freed
    ensures key in disk' && disk'[key] == Content(w, disk, key)
    ensures NoNewKeys(w, w') && !Has(w', key) && OnlyPiece(disk, disk', key)
  {
    w', disk', freed := w, disk, 0;
    SameRefl(w, disk);
    NothingNew(w);
    var i := Find(w, key);
    if i < |w| {
      w', disk', freed := FlushAndRemove(w, disk, i, coalesce);
    }
  }

  /** A flush leaves pieces without an entry alone, on disk too. */
  lemma NoEntryNoChange(w: seq<CachedPiece>, disk: Disk, w': seq<CachedPiece>, disk': Disk, key: Key)
    requires AllBacked(w, disk) && AllBacked(w', disk') && !Has(w, key) && !Has(w', key) && key in disk && key in disk'
    requires Content(w', disk', key) == Content(w, disk, key)
    ensures disk'[key] == disk[key]
  {
  }
}
