/** The files of a torrent laid end to end, and the mapping between pieces and files. */
module FileStorage {
  import Text

  const ALIGNMENT := 0x2000

  datatype FileEntry = FileEntry(path: seq<string>, offset: int, size: int, fileBase: int, padFile: bool)

  datatype Slice = Slice(index: int, offset: int, size: int)

  datatype Request = Request(piece: int, start: int, length: int)

  // ------------------------------------------------------- sums and contents

  function Sum(fs: seq<FileEntry>): int {
    if |fs| == 0 then 0 else Sum(fs[..|fs| - 1]) + fs[|fs| - 1].size
  }

  /** A file apart from where it is placed. */
  function Bare(f: FileEntry): FileEntry {
    f.(offset := 0)
  }

  /** How many of the files are `f`, apart from where they are placed. */
  function Times(fs: seq<FileEntry>, f: FileEntry): nat {
    if |fs| == 0 then 0 else Times(fs[..|fs| - 1], f) + if Bare(fs[|fs| - 1]) == f then 1 else 0
  }

  lemma {:induction false} SumConcat(a: seq<FileEntry>, b: seq<FileEntry>)
    ensures Sum(a + b) == Sum(a) + Sum(b)
  {
    if |b| == 0 {
      assert a + b == a;
    } else {
      SumConcat(a, b[..|b| - 1]);
      assert (a + b)[..|a + b| - 1] == a + b[..|b| - 1];
    }
  }

  lemma {:induction false} TimesConcat(a: seq<FileEntry>, b: seq<FileEntry>, f: FileEntry)
    ensures Times(a + b, f) == Times(a, f) + Times(b, f)
  {
    if |b| == 0 {
      assert a + b == a;
    } else {
      TimesConcat(a, b[..|b| - 1], f);
      assert (a + b)[..|a + b| - 1] == a + b[..|b| - 1];
    }
  }

  lemma SumNext(fs: seq<FileEntry>, i: int)
    requires 0 <= i < |fs|
    ensures Sum(fs[..i + 1]) == Sum(fs[..i]) + fs[i].size
  {
    assert fs[..i + 1][..i] == fs[..i];
  }

  /** Three parts of the files, the middle one a single file. */
  lemma TimesSplit(a: seq<FileEntry>, g: FileEntry, b: seq<FileEntry>, f: FileEntry)
    ensures Times(a + [g] + b, f) == Times(a, f) + (if Bare(g) == f then 1 else 0) + Times(b, f)
  {
    TimesConcat(a + [g], b, f);
    TimesConcat(a, [g], f);
    assert [g][..0] == [];
  }

  lemma Parts(fs: seq<FileEntry>, i: int)
    requires 0 <= i < |fs|
    ensures fs == fs[..i] + [fs[i]] + fs[i + 1..]
  {
  }

  lemma TimesAt(fs: seq<FileEntry>, i: int, f: FileEntry)
    requires 0 <= i < |fs|
    ensures Times(fs, f) == Times(fs[..i], f) + (if Bare(fs[i]) == f then 1 else 0) + Times(fs[i + 1..], f)
  {
    hide *;
    Parts(fs, i);
    TimesSplit(fs[..i], fs[i], fs[i + 1..], f);
  }

  /** The files are the original ones, each as often as before, and the padding. */
  ghost predicate Rearranged(files: seq<FileEntry>, pads: seq<FileEntry>, fs: seq<FileEntry>) {
    forall f :: Times(fs, f) == Times(files, f) + Times(pads, f)
  }

  ghost predicate SameFiles(fs: seq<FileEntry>, gs: seq<FileEntry>) {
    forall f :: Times(gs, f) == Times(fs, f)
  }

  lemma {:induction false} SumGrows(fs: seq<FileEntry>, i: int, j: int)
    requires Sizes(fs) && 0 <= i <= j <= |fs|
    ensures Sum(fs[..i]) <= Sum(fs[..j])
    decreases j
  {
    if i < j {
      SumGrows(fs, i, j - 1);
      assert fs[..j][..j - 1] == fs[..j - 1];
    }
  }

  ghost predicate Sizes(fs: seq<FileEntry>) {
    forall k :: 0 <= k < |fs| ==> fs[k].size >= 0
  }

  /** The first `n` files lie end to end from 0. */
  ghost predicate Placed(fs: seq<FileEntry>, n: int) {
    0 <= n <= |fs| && forall k :: 0 <= k < n ==> fs[k].offset == Sum(fs[..k])
  }

  /** Every file among the first `n` that is worth aligning is aligned. */
  ghost predicate Aligned(fs: seq<FileEntry>, n: int, limit: int) {
    0 <= n <= |fs| && forall k :: 0 <= k < n ==> NeedsAlignment(fs[k], limit) ==> fs[k].offset % ALIGNMENT == 0
  }

  ghost predicate NeedsAlignment(f: FileEntry, limit: int) {
    limit >= 0 && f.size > limit && !f.padFile
  }

  ghost predicate Pads(pads: seq<FileEntry>) {
    forall k :: 0 <= k < |pads| ==> IsPad(pads[k], k)
  }

  /** Padding file number `n`: empty content of its own, and a name no other padding has. */
  ghost predicate IsPad(f: FileEntry, n: nat) {
    && f.padFile && 0 < f.size < ALIGNMENT && f.fileBase == 0
    && |f.path| == 3 && f.path[1] == "_____padding_file_" && f.path[2] == Text.Decimal(n)
  }

  /** The first file is as large as any. */
  ghost predicate LargestFirst(fs: seq<FileEntry>) {
    forall k :: 0 <= k < |fs| ==> fs[k].size <= fs[0].size
  }

  // ---------------------------------------------------------------- optimize

  /** The first of the largest files. */
  method MaxElement(fs: seq<FileEntry>) returns (m: int)
    requires fs != []
    ensures 0 <= m < |fs| && (forall k :: 0 <= k < |fs| ==> fs[k].size <= fs[m].size)
    ensures forall k :: 0 <= k < m ==> fs[k].size < fs[m].size
  {
    m := 0;
    for k := 1 to |fs|
      invariant 0 <= m < k && (forall c :: 0 <= c < k ==> fs[c].size <= fs[m].size)
      invariant forall c :: 0 <= c < m ==> fs[c].size < fs[m].size
    {
      if fs[m].size < fs[k].size { m := k; }
    }
  }

  /** The first of the largest files after `i` that fit in `room`, or the number of files. */
  method BestMatch(fs: seq<FileEntry>, i: int, room: int) returns (best: int)
    requires 0 <= i < |fs|
    ensures i < best <= |fs| && (best < |fs| ==> fs[best].size <= room)
    ensures forall k :: i < k < |fs| && fs[k].size <= room ==> best < |fs| && fs[k].size <= fs[best].size
  {
    best := |fs|;
    for j := i + 1 to |fs|
      invariant i < best <= |fs| && (best < |fs| ==> best < j && fs[best].size <= room)
      invariant forall k :: i < k < j && fs[k].size <= room ==> best < |fs| && fs[k].size <= fs[best].size
    {
      if fs[j].size > room { continue; }
      if best == |fs| || fs[j].size > fs[best].size { best := j; }
    }
  }

  /** Moves file `j` in front of file `i`. */
  function MovedUp<T>(fs: seq<T>, i: int, j: int): seq<T>
    requires 0 <= i < j < |fs|
  {
    fs[..i] + [fs[j]] + fs[i..j] + fs[j + 1..]
  }

  lemma MovedUpIs(fs: seq<FileEntry>, i: int, j: int)
    requires 0 <= i < j < |fs|
    ensures var r := MovedUp(fs, i, j);
            && |r| == |fs| && r[i] == fs[j] && r[i + 1] == fs[i] && r[..i] == fs[..i] && (i > 0 ==> r[0] == fs[0])
            && forall k :: 0 <= k < |r| ==> r[k] in fs
  {
  }

  lemma MovedUpSame(fs: seq<FileEntry>, i: int, j: int)
    requires 0 <= i < j < |fs|
    ensures SameFiles(fs, MovedUp(fs, i, j))
  {
    assert fs[..j] == fs[..i] + fs[i..j];
    assert MovedUp(fs, i, j) == fs[..i] + [fs[j]] + (fs[i..j] + fs[j + 1..]);
    forall f ensures Times(MovedUp(fs, i, j), f) == Times(fs, f) {
      hide *;
      TimesAt(fs, j, f);
      TimesConcat(fs[..i], fs[i..j], f);
      TimesConcat(fs[i..j], fs[j + 1..], f);
      TimesSplit(fs[..i], fs[j], fs[i..j] + fs[j + 1..], f);
    }
  }

  /** Puts `f` in front of file `i`. */
  function Inserted<T>(fs: seq<T>, i: int, f: T): seq<T>
    requires 0 <= i <= |fs|
  {
    fs[..i] + [f] + fs[i..]
  }

  lemma InsertedIs(fs: seq<FileEntry>, i: int, f: FileEntry)
    requires 0 <= i < |fs|
    ensures var r := Inserted(fs, i, f);
            && |r| == |fs| + 1 && r[i] == f && r[i + 1] == fs[i] && r[..i] == fs[..i] && (i > 0 ==> r[0] == fs[0])
            && forall k :: 0 <= k < |r| ==> r[k] == f || r[k] in fs
  {
  }

  lemma InsertedMore(fs: seq<FileEntry>, i: int, g: FileEntry, f: FileEntry)
    requires 0 <= i <= |fs|
    ensures Times(Inserted(fs, i, g), f) == Times(fs, f) + if Bare(g) == f then 1 else 0
  {
    hide Times, Bare;
    assert fs == fs[..i] + fs[i..];
    TimesConcat(fs[..i], fs[i..], f);
    TimesSplit(fs[..i], g, fs[i..], f);
  }

  lemma PlaceSame(fs: seq<FileEntry>, i: int, off: int)
    requires 0 <= i < |fs|
    ensures SameFiles(fs, fs[i := fs[i].(offset := off)])
  {
    var r := fs[i := fs[i].(offset := off)];
    assert r[..i] == fs[..i] && r[i + 1..] == fs[i + 1..] && Bare(r[i]) == Bare(fs[i]);
    forall f ensures Times(r, f) == Times(fs, f) {
      hide *;
      TimesAt(fs, i, f);
      TimesAt(r, i, f);
    }
  }

  /** What is said of a prefix does not depend on what follows it. */
  lemma SamePrefix(fs: seq<FileEntry>, gs: seq<FileEntry>, n: int, limit: int)
    requires 0 <= n <= |fs| && n <= |gs| && fs[..n] == gs[..n] && Placed(fs, n) && Aligned(fs, n, limit)
    ensures Placed(gs, n) && Aligned(gs, n, limit)
  {
    forall k | 0 <= k < n ensures gs[k].offset == Sum(gs[..k]) && (NeedsAlignment(gs[k], limit) ==> gs[k].offset % ALIGNMENT == 0) {
      assert fs[k] == fs[..n][k] == gs[..n][k] == gs[k];
      assert fs[..k] == fs[..n][..k] == gs[..n][..k] == gs[..k];
    }
  }

  /** The state of the loop of `optimize` at file `i`. */
  ghost predicate Laid(fs: seq<FileEntry>, i: int, off: int, limit: int, files: seq<FileEntry>, pads: seq<FileEntry>) {
    && Placed(fs, i) && Aligned(fs, i, limit) && off == Sum(fs[..i]) && off >= 0
    && Sizes(fs) && LargestFirst(fs) && (i == 0 ==> off == 0)
    && Pads(pads) && Rearranged(files, pads, fs)
  }

  lemma StillRearranged(files: seq<FileEntry>, pads: seq<FileEntry>, fs: seq<FileEntry>, gs: seq<FileEntry>)
    requires Rearranged(files, pads, fs) && SameFiles(fs, gs)
    ensures Rearranged(files, pads, gs)
  {
  }

  /** Places file `i` at `off`, which suits it. */
  lemma Placing(fs: seq<FileEntry>, i: int, off: int, limit: int, files: seq<FileEntry>, pads: seq<FileEntry>)
    requires Laid(fs, i, off, limit, files, pads) && 0 <= i < |fs|
    requires NeedsAlignment(fs[i], limit) ==> off % ALIGNMENT == 0
    ensures Laid(fs[i := fs[i].(offset := off)], i + 1, off + fs[i].size, limit, files, pads)
  {
    hide Sum, Times, Rearranged, SameFiles;
    var r := fs[i := fs[i].(offset := off)];
    PlaceSame(fs, i, off);
    StillRearranged(files, pads, fs, r);
    SumNext(r, i);
    assert r[..i] == fs[..i];
    SamePrefix(fs, r, i, limit);
  }

  /** Moving a small file up leaves what is placed alone. */
  lemma Moving(fs: seq<FileEntry>, i: int, off: int, limit: int, files: seq<FileEntry>, pads: seq<FileEntry>, j: int)
    requires Laid(fs, i, off, limit, files, pads) && 0 < i < j < |fs|
    ensures Laid(MovedUp(fs, i, j), i, off, limit, files, pads)
  {
    hide Sum, Times, MovedUp, Rearranged, SameFiles;
    var r := MovedUp(fs, i, j);
    MovedUpIs(fs, i, j);
    MovedUpSame(fs, i, j);
    StillRearranged(files, pads, fs, r);
    SamePrefix(fs, r, i, limit);
  }

  lemma PaddedRearranged(files: seq<FileEntry>, pads: seq<FileEntry>, fs: seq<FileEntry>, i: int, g: FileEntry)
    requires Rearranged(files, pads, fs) && 0 <= i <= |fs|
    ensures Rearranged(files, pads + [g], Inserted(fs, i, g))
  {
    hide Times, Inserted;
    forall f ensures Times(Inserted(fs, i, g), f) == Times(files, f) + Times(pads + [g], f) {
      InsertedMore(fs, i, g, f);
      TimesSplit(pads, g, [], f);
      assert pads + [g] + [] == pads + [g];
      NoTimes(f);
    }
  }

  lemma NoTimes(f: FileEntry)
    ensures Times([], f) == 0
  {
  }

  /** So does adding padding. */
  lemma Padding(fs: seq<FileEntry>, i: int, off: int, limit: int, files: seq<FileEntry>, pads: seq<FileEntry>, f: FileEntry)
    requires Laid(fs, i, off, limit, files, pads) && 0 < i < |fs| && fs[i].size >= ALIGNMENT
    requires IsPad(f, |pads|)
    ensures Laid(Inserted(fs, i, f), i, off, limit, files, pads + [f])
  {
    hide Sum, Times, Inserted, Rearranged, SameFiles;
    var r := Inserted(fs, i, f);
    InsertedIs(fs, i, f);
    PaddedRearranged(files, pads, fs, i, f);
    SamePrefix(fs, r, i, limit);
    assert f.size <= fs[i].size <= fs[0].size;
  }

  function PadPath(next: FileEntry, n: nat): seq<string> {
    [if |next.path| > 0 then next.path[0] else "", "_____padding_file_", Text.Decimal(n)]
  }

  // ------------------------------------------------- what fills the gaps

  /** A file large enough, by both measures, to be aligned. */
  ghost predicate Due(f: FileEntry, limit: int) {
    0 <= limit < f.size && 8192 < f.size && !f.padFile
  }

  /** The first multiple of 8192 after `x`. */
  function GapEnd(x: int): int {
    x + 8192 - x % 8192
  }

  /** File `k` was put into the gap before a file that is due: it fits, no later
      file that fits is larger, and the file that is due stands at the end of the gap. */
  ghost predicate FillsGap(fs: seq<FileEntry>, origin: seq<int>, k: int, limit: int)
    requires |origin| == |fs| && 0 <= k < |fs|
  {
    && BestFit(fs, origin, k)
    && exists d :: k < d < |fs| && Due(fs[d], limit) && fs[d].offset == GapEnd(fs[k].offset)
  }

  ghost predicate BestFit(fs: seq<FileEntry>, origin: seq<int>, k: int)
    requires |origin| == |fs| && 0 <= k < |fs|
  {
    && fs[k].offset % 8192 != 0 && fs[k].offset + fs[k].size <= GapEnd(fs[k].offset)
    && forall c :: k < c < |fs| && origin[c] >= 0 && fs[k].offset + fs[c].size <= GapEnd(fs[k].offset) ==> fs[c].size <= fs[k].size
  }

  /** Padding `k` ends the gap before the next file, which is due, and no later file would have fitted. */
  ghost predicate PadsGap(fs: seq<FileEntry>, origin: seq<int>, k: int, limit: int)
    requires |origin| == |fs| && 0 <= k < |fs|
  {
    && fs[k].padFile && fs[k].offset % 8192 != 0 && fs[k].offset + fs[k].size == GapEnd(fs[k].offset)
    && k + 1 < |fs| && Due(fs[k + 1], limit)
    && forall c :: k < c < |fs| && origin[c] >= 0 ==> fs[c].size > fs[k].size
  }

  /** Each file comes from one of `base`, each of `base` once; padding comes from none. */
  ghost predicate Comes(base: seq<FileEntry>, fs: seq<FileEntry>, origin: seq<int>) {
    && |origin| == |fs|
    && (forall k :: 0 <= k < |fs| ==> -1 <= origin[k] < |base| && (origin[k] >= 0 ==> Bare(fs[k]) == Bare(base[origin[k]])))
    && forall b :: 0 <= b < |base| ==> multiset(origin)[b] == 1
  }

  /** Whatever is not an original file, or stands in front of one it used to follow, fills a gap. */
  ghost predicate GapsFilled(fs: seq<FileEntry>, origin: seq<int>, limit: int)
    requires |origin| == |fs|
  {
    && (forall k :: 0 <= k < |fs| && origin[k] < 0 ==> PadsGap(fs, origin, k, limit))
    && forall k, c :: 0 <= k < c < |fs| && 0 <= origin[c] < origin[k] ==> FillsGap(fs, origin, k, limit)
  }

  ghost predicate DueAligned(fs: seq<FileEntry>, limit: int) {
    forall k :: 0 <= k < |fs| && Due(fs[k], limit) ==> fs[k].offset % 8192 == 0
  }

  /** The gap before `i` that file `k` went into is closed already, or ends at file `i`. */
  ghost predicate Closes(fs: seq<FileEntry>, k: int, i: int, off: int, limit: int)
    requires 0 <= k < i <= |fs|
  {
    || (exists d :: k < d < i && Due(fs[d], limit) && fs[d].offset == GapEnd(fs[k].offset))
    || (i < |fs| && Due(fs[i], limit) && fs[k].offset <= off <= GapEnd(fs[k].offset))
  }

  /** The state of the loop at file `i`: what comes has the original order. */
  ghost predicate Arranged(fs: seq<FileEntry>, origin: seq<int>, i: int, off: int, limit: int) {
    && |origin| == |fs| && 0 <= i <= |fs|
    && InOrder(origin, i)
    && (forall k :: 0 <= k < i && origin[k] < 0 ==> PadsGap(fs, origin, k, limit))
    && forall k, c :: 0 <= k < i && k < c < |fs| && 0 <= origin[c] < origin[k] ==> MovedIn(fs, origin, k, i, off, limit)
  }

  ghost predicate InOrder(origin: seq<int>, i: int) {
    0 <= i <= |origin| && (forall a :: i <= a < |origin| ==> 0 <= origin[a]) && forall a, b :: i <= a < b < |origin| ==> origin[a] < origin[b]
  }

  ghost predicate MovedIn(fs: seq<FileEntry>, origin: seq<int>, k: int, i: int, off: int, limit: int)
    requires |origin| == |fs| && 0 <= k < i <= |fs|
  {
    BestFit(fs, origin, k) && Closes(fs, k, i, off, limit)
  }

  /** Nothing before `i` changes, and every original file from `i` on was there before. */
  ghost predicate Follows(fs: seq<FileEntry>, origin: seq<int>, gs: seq<FileEntry>, from: seq<int>, i: int) {
    && |origin| == |fs| && |from| == |gs| && 0 <= i <= |fs| && i <= |gs|
    && (forall c :: 0 <= c < i ==> gs[c] == fs[c] && from[c] == origin[c])
    && forall c :: i <= c < |gs| && from[c] >= 0 ==> Stems(fs, origin, i, gs[c].size, from[c])
  }

  ghost predicate Stems(fs: seq<FileEntry>, origin: seq<int>, i: int, size: int, o: int)
    requires |origin| == |fs| && 0 <= i
  {
    exists c :: i <= c < |fs| && fs[c].size == size && origin[c] == o
  }

  lemma PadStays(fs: seq<FileEntry>, origin: seq<int>, gs: seq<FileEntry>, from: seq<int>, i: int, k: int, limit: int)
    requires Follows(fs, origin, gs, from, i) && 0 <= k < i && PadsGap(fs, origin, k, limit)
    requires k + 1 < |gs| && Due(gs[k + 1], limit)
    ensures PadsGap(gs, from, k, limit)
  {
    forall c | k < c < |gs| && from[c] >= 0 ensures gs[c].size > gs[k].size {
      if c >= i { assert Stems(fs, origin, i, gs[c].size, from[c]); }
    }
  }

  lemma FitStays(fs: seq<FileEntry>, origin: seq<int>, gs: seq<FileEntry>, from: seq<int>, i: int, k: int)
    requires Follows(fs, origin, gs, from, i) && 0 <= k < i && BestFit(fs, origin, k)
    ensures BestFit(gs, from, k)
  {
    hide GapEnd;
    forall c | k < c < |gs| && from[c] >= 0 && gs[k].offset + gs[c].size <= GapEnd(gs[k].offset) ensures gs[c].size <= gs[k].size {
      if c >= i { assert Stems(fs, origin, i, gs[c].size, from[c]); }
    }
  }

  /** A file that stands before an earlier one did so before. */
  lemma InversionWas(fs: seq<FileEntry>, origin: seq<int>, gs: seq<FileEntry>, from: seq<int>, i: int, k: int, c: int) returns (e: int)
    requires Follows(fs, origin, gs, from, i) && 0 <= k < i && k < c < |gs| && 0 <= from[c] < from[k]
    ensures k < e < |fs| && 0 <= origin[e] < origin[k]
  {
    e := c;
    if c >= i {
      assert Stems(fs, origin, i, gs[c].size, from[c]);
      e :| i <= e < |fs| && fs[e].size == gs[c].size && origin[e] == from[c];
    }
  }

  /** What was closed stays so; what was open has to be told again. */
  lemma ClosedStays(fs: seq<FileEntry>, origin: seq<int>, gs: seq<FileEntry>, from: seq<int>, i: int, k: int, off: int, to: int, limit: int)
    requires Follows(fs, origin, gs, from, i) && 0 <= k < i < |gs| && Closes(fs, k, i, off, limit)
    requires i < |fs| && Due(fs[i], limit) && fs[k].offset <= off <= GapEnd(fs[k].offset) ==> Closes(gs, k, i + 1, to, limit)
    ensures Closes(gs, k, i + 1, to, limit)
  {
    hide Due, GapEnd;
    if d :| k < d < i && Due(fs[d], limit) && fs[d].offset == GapEnd(fs[k].offset) {
      assert gs[d] == fs[d] && gs[k] == fs[k];
    }
  }

  /** The next multiple of 8192 is the same for all of a gap. */
  lemma GapEnds(x: int, y: int)
    requires x % 8192 != 0 && x <= y <= GapEnd(x)
    ensures y % 8192 == 0 ==> y == GapEnd(x)
    ensures y % 8192 != 0 ==> GapEnd(y) == GapEnd(x)
  {
    var q, r := x / 8192, x % 8192;
    assert x == 8192 * q + r && GapEnd(x) == 8192 * (q + 1);
    assert y % 8192 != 0 ==> y / 8192 == q;
  }

  lemma Moves(fs: seq<FileEntry>, origin: seq<int>, gs: seq<FileEntry>, from: seq<int>, i: int, k: int, c: int, off: int, to: int, limit: int)
    requires Arranged(fs, origin, i, off, limit) && Follows(fs, origin, gs, from, i) && i < |gs|
    requires 0 <= k < i && k < c < |gs| && 0 <= from[c] < from[k]
    requires i < |fs| && Due(fs[i], limit) && fs[k].offset % 8192 != 0 && fs[k].offset <= off <= GapEnd(fs[k].offset) ==> Closes(gs, k, i + 1, to, limit)
    ensures MovedIn(gs, from, k, i + 1, to, limit)
  {
    hide GapEnd, Due, Follows, Closes, InOrder, PadsGap;
    var e := InversionWas(fs, origin, gs, from, i, k, c);
    assert MovedIn(fs, origin, k, i, off, limit);
    FitStays(fs, origin, gs, from, i, k);
    ClosedStays(fs, origin, gs, from, i, k, off, to, limit);
  }

  /** Placing the next file. */
  lemma PlaceArranged(fs: seq<FileEntry>, origin: seq<int>, i: int, off: int, limit: int)
    requires Arranged(fs, origin, i, off, limit) && i < |fs| && fs[i].size >= 0 && (Due(fs[i], limit) ==> off % 8192 == 0)
    ensures origin[i] >= 0 && Arranged(fs[i := fs[i].(offset := off)], origin, i + 1, off + fs[i].size, limit)
  {
    hide GapEnd, Due, Follows, Closes, MovedIn, PadsGap;
    var gs, to := fs[i := fs[i].(offset := off)], off + fs[i].size;
    PlaceFollows(fs, origin, i, off);
    forall k | 0 <= k < i + 1 && origin[k] < 0 ensures PadsGap(gs, origin, k, limit) {
      PadIsDue(fs, origin, k, limit);
      DueStays(fs[k + 1], off, limit);
      PadStays(fs, origin, gs, origin, i, k, limit);
    }
    forall k, c | 0 <= k < i + 1 && k < c < |gs| && 0 <= origin[c] < origin[k] ensures MovedIn(gs, origin, k, i + 1, to, limit) {
      assert k < i;
      PlaceCloses(fs, i, off, k, limit);
      Moves(fs, origin, gs, origin, i, k, c, off, to, limit);
    }
  }

  lemma DueStays(f: FileEntry, off: int, limit: int)
    ensures Due(f.(offset := off), limit) <==> Due(f, limit)
  {
  }

  lemma PlaceFollows(fs: seq<FileEntry>, origin: seq<int>, i: int, off: int)
    requires |origin| == |fs| && 0 <= i < |fs|
    ensures Follows(fs, origin, fs[i := fs[i].(offset := off)], origin, i)
  {
  }

  lemma PlaceCloses(fs: seq<FileEntry>, i: int, off: int, k: int, limit: int)
    requires 0 <= k < i < |fs| && (Due(fs[i], limit) ==> off % 8192 == 0)
    ensures Due(fs[i], limit) && fs[k].offset % 8192 != 0 && fs[k].offset <= off <= GapEnd(fs[k].offset) ==>
              Closes(fs[i := fs[i].(offset := off)], k, i + 1, off + fs[i].size, limit)
  {
    hide GapEnd;
    if Due(fs[i], limit) && fs[k].offset % 8192 != 0 && fs[k].offset <= off <= GapEnd(fs[k].offset) {
      GapEnds(fs[k].offset, off);
      assert fs[i := fs[i].(offset := off)][i].offset == GapEnd(fs[k].offset);
    }
  }

  /** The gap goes on after a file that does not fill it. */
  lemma GoesOn(gs: seq<FileEntry>, i: int, off: int, to: int, k: int, limit: int)
    requires 0 <= k < i && i + 1 < |gs| && Due(gs[i + 1], limit) && off % 8192 != 0 && off <= to <= GapEnd(off)
    ensures gs[k].offset % 8192 != 0 && gs[k].offset <= off <= GapEnd(gs[k].offset) ==> Closes(gs, k, i + 1, to, limit)
  {
    hide GapEnd, Due;
    if gs[k].offset % 8192 != 0 && gs[k].offset <= off <= GapEnd(gs[k].offset) { GapEnds(gs[k].offset, off); }
  }

  /** File `j` was the largest of those after `i` that fit. */
  ghost predicate Best(fs: seq<FileEntry>, i: int, j: int, off: int) {
    && 0 <= i < j < |fs| && off + fs[j].size <= GapEnd(off)
    && forall c :: i < c < |fs| && off + fs[c].size <= GapEnd(off) ==> fs[c].size <= fs[j].size
  }

  function MovedFiles(fs: seq<FileEntry>, i: int, j: int, off: int): seq<FileEntry>
    requires 0 <= i < j < |fs|
  {
    MovedUp(fs, i, j)[i := fs[j].(offset := off)]
  }

  lemma MovedIndex<T>(fs: seq<T>, i: int, j: int, k: int)
    requires 0 <= i < j < |fs| && 0 <= k < |fs|
    ensures |MovedUp(fs, i, j)| == |fs|
    ensures MovedUp(fs, i, j)[k] == fs[if k == i then j else if i < k <= j then k - 1 else k]
  {
  }

  lemma MoveFollows(fs: seq<FileEntry>, origin: seq<int>, i: int, j: int, off: int)
    requires |origin| == |fs| && 0 <= i < j < |fs|
    ensures Follows(fs, origin, MovedFiles(fs, i, j, off), MovedUp(origin, i, j), i)
  {
    hide MovedUp;
    var gs, from := MovedFiles(fs, i, j, off), MovedUp(origin, i, j);
    MovedIndex(fs, i, j, i);
    MovedIndex(origin, i, j, i);
    forall c | 0 <= c < |gs|
      ensures if c < i then gs[c] == fs[c] && from[c] == origin[c] else Stems(fs, origin, i, gs[c].size, from[c])
    {
      MovedIndex(fs, i, j, c);
      MovedIndex(origin, i, j, c);
      var e := if c == i then j else if i < c <= j then c - 1 else c;
      assert gs[c].size == fs[e].size && from[c] == origin[e];
    }
  }

  lemma MoveInOrder(origin: seq<int>, i: int, j: int)
    requires InOrder(origin, i) && 0 <= i < j < |origin|
    ensures InOrder(MovedUp(origin, i, j), i + 1) && MovedUp(origin, i, j)[i] >= 0
  {
    hide MovedUp;
    var from := MovedUp(origin, i, j);
    MovedIndex(origin, i, j, i);
    forall a | i + 1 <= a < |from| ensures 0 <= from[a] { MovedIndex(origin, i, j, a); }
    forall a, b | i + 1 <= a < b < |from| ensures from[a] < from[b] {
      MovedIndex(origin, i, j, a);
      MovedIndex(origin, i, j, b);
    }
  }

  lemma MoveFits(fs: seq<FileEntry>, origin: seq<int>, i: int, j: int, off: int, limit: int)
    requires |origin| == |fs| && Best(fs, i, j, off) && Due(fs[i], limit) && off % 8192 != 0 && fs[j].size >= 0
    ensures var gs, from := MovedFiles(fs, i, j, off), MovedUp(origin, i, j);
            |from| == |gs| && i + 1 < |gs| && gs[i + 1] == fs[i] && MovedIn(gs, from, i, i + 1, off + fs[j].size, limit)
  {
    hide MovedUp, GapEnd, Due;
    var gs, from := MovedFiles(fs, i, j, off), MovedUp(origin, i, j);
    MovedIndex(fs, i, j, i);
    MovedIndex(fs, i, j, i + 1);
    MovedIndex(origin, i, j, i);
    DueTooLarge(fs[i], limit, off);
    forall c | i < c < |gs| && from[c] >= 0 && off + gs[c].size <= GapEnd(off) ensures gs[c].size <= fs[j].size {
      MovedIndex(fs, i, j, c);
    }
  }

  /** A file that is due does not fit in any gap. */
  lemma DueTooLarge(f: FileEntry, limit: int, off: int)
    requires Due(f, limit)
    ensures off + f.size > GapEnd(off)
  {
  }

  /** Moving the best match into the gap. */
  lemma MoveArranged(fs: seq<FileEntry>, origin: seq<int>, i: int, j: int, off: int, limit: int)
    requires Arranged(fs, origin, i, off, limit) && 0 < i && origin[i - 1] >= 0
    requires Best(fs, i, j, off) && Due(fs[i], limit) && off % 8192 != 0 && fs[j].size >= 0
    ensures Arranged(MovedFiles(fs, i, j, off), MovedUp(origin, i, j), i + 1, off + fs[j].size, limit)
    ensures |MovedUp(origin, i, j)| == |fs| && MovedUp(origin, i, j)[i] >= 0
  {
    var gs, from, to := MovedFiles(fs, i, j, off), MovedUp(origin, i, j), off + fs[j].size;
    MoveFollows(fs, origin, i, j, off);
    MoveInOrder(origin, i, j);
    MoveFits(fs, origin, i, j, off, limit);
    MovedIndex(origin, i, j, i);
    StepArranged(fs, origin, gs, from, i, off, to, limit);
  }

  /** One more entry in the gap, whatever it is. */
  lemma StepArranged(fs: seq<FileEntry>, origin: seq<int>, gs: seq<FileEntry>, from: seq<int>, i: int, off: int, to: int, limit: int)
    requires Arranged(fs, origin, i, off, limit) && 0 < i && origin[i - 1] >= 0 && Follows(fs, origin, gs, from, i)
    requires i + 1 < |gs| && Due(gs[i + 1], limit) && off % 8192 != 0 && off <= to <= GapEnd(off) && InOrder(from, i + 1)
    requires if from[i] < 0 then PadsGap(gs, from, i, limit) else MovedIn(gs, from, i, i + 1, to, limit)
    ensures Arranged(gs, from, i + 1, to, limit)
  {
    hide GapEnd, Due, InOrder, MovedIn, PadsGap, Closes;
    forall k | 0 <= k < i + 1 && from[k] < 0 ensures PadsGap(gs, from, k, limit) {
      if k < i {
        assert k != i - 1;
        PadIsDue(fs, origin, k, limit);
        PadStays(fs, origin, gs, from, i, k, limit);
      }
    }
    forall k, c | 0 <= k < i + 1 && k < c < |gs| && 0 <= from[c] < from[k] ensures MovedIn(gs, from, k, i + 1, to, limit) {
      if k < i {
        GoesOn(gs, i, off, to, k, limit);
        Moves(fs, origin, gs, from, i, k, c, off, to, limit);
      }
    }
  }

  lemma PadIsDue(fs: seq<FileEntry>, origin: seq<int>, k: int, limit: int)
    requires |origin| == |fs| && 0 <= k < |fs| && PadsGap(fs, origin, k, limit)
    ensures k + 1 < |fs| && Due(fs[k + 1], limit)
  {
  }

  lemma InsertedIndex<T>(fs: seq<T>, i: int, f: T, k: int)
    requires 0 <= i <= |fs| && 0 <= k <= |fs|
    ensures |Inserted(fs, i, f)| == |fs| + 1
    ensures Inserted(fs, i, f)[k] == if k == i then f else if k < i then fs[k] else fs[k - 1]
  {
  }

  lemma PadFollows(fs: seq<FileEntry>, origin: seq<int>, i: int, pad: FileEntry)
    requires |origin| == |fs| && 0 <= i < |fs|
    ensures Follows(fs, origin, Inserted(fs, i, pad), Inserted(origin, i, -1), i)
  {
    hide Inserted;
    var gs, from := Inserted(fs, i, pad), Inserted(origin, i, -1);
    InsertedIndex(fs, i, pad, i);
    InsertedIndex(origin, i, -1, i);
    forall c | 0 <= c < |gs|
      ensures if c < i then gs[c] == fs[c] && from[c] == origin[c] else from[c] >= 0 ==> Stems(fs, origin, i, gs[c].size, from[c])
    {
      InsertedIndex(fs, i, pad, c);
      InsertedIndex(origin, i, -1, c);
      if c > i { assert gs[c].size == fs[c - 1].size && from[c] == origin[c - 1]; }
    }
  }

  lemma PadInOrder(origin: seq<int>, i: int)
    requires InOrder(origin, i) && i < |origin|
    ensures InOrder(Inserted(origin, i, -1), i + 1) && Inserted(origin, i, -1)[i] == -1
  {
    hide Inserted;
    var from := Inserted(origin, i, -1);
    InsertedIndex(origin, i, -1, i);
    forall a | i + 1 <= a < |from| ensures 0 <= from[a] { InsertedIndex(origin, i, -1, a); }
    forall a, b | i + 1 <= a < b < |from| ensures from[a] < from[b] {
      InsertedIndex(origin, i, -1, a);
      InsertedIndex(origin, i, -1, b);
    }
  }

  /** No file after `i` fits in the gap at `off`. */
  ghost predicate NoneFits(fs: seq<FileEntry>, i: int, off: int) {
    0 <= i < |fs| && forall c :: i < c < |fs| ==> off + fs[c].size > GapEnd(off)
  }

  lemma PadFits(fs: seq<FileEntry>, origin: seq<int>, i: int, off: int, pad: FileEntry, limit: int)
    requires |origin| == |fs| && NoneFits(fs, i, off) && Due(fs[i], limit) && off % 8192 != 0
    requires pad.padFile && pad.offset == off && off + pad.size == GapEnd(off)
    ensures var gs, from := Inserted(fs, i, pad), Inserted(origin, i, -1);
            |from| == |gs| && i + 1 < |gs| && gs[i + 1] == fs[i] && PadsGap(gs, from, i, limit)
  {
    hide Inserted, GapEnd, Due;
    var gs, from := Inserted(fs, i, pad), Inserted(origin, i, -1);
    InsertedIndex(fs, i, pad, i);
    InsertedIndex(fs, i, pad, i + 1);
    InsertedIndex(origin, i, -1, i);
    DueTooLarge(fs[i], limit, off);
    forall c | i < c < |gs| && from[c] >= 0 ensures gs[c].size > gs[i].size { InsertedIndex(fs, i, pad, c); }
  }

  /** Padding the gap. */
  lemma PadArranged(fs: seq<FileEntry>, origin: seq<int>, i: int, off: int, pad: FileEntry, limit: int)
    requires Arranged(fs, origin, i, off, limit) && 0 < i && origin[i - 1] >= 0
    requires NoneFits(fs, i, off) && Due(fs[i], limit) && off % 8192 != 0
    requires pad.padFile && pad.offset == off && off + pad.size == GapEnd(off)
    ensures Arranged(Inserted(fs, i, pad), Inserted(origin, i, -1), i + 1, off + pad.size, limit)
  {
    PadFollows(fs, origin, i, pad);
    PadInOrder(origin, i);
    PadFits(fs, origin, i, off, pad, limit);
    StepArranged(fs, origin, Inserted(fs, i, pad), Inserted(origin, i, -1), i, off, off + pad.size, limit);
  }

  /** At the end nothing is left open. */
  lemma AllArranged(fs: seq<FileEntry>, origin: seq<int>, off: int, limit: int)
    requires Arranged(fs, origin, |fs|, off, limit)
    ensures GapsFilled(fs, origin, limit)
  {
    hide PadsGap, BestFit, Due, GapEnd;
    forall k, c | 0 <= k < c < |fs| && 0 <= origin[c] < origin[k] ensures FillsGap(fs, origin, k, limit) {
      assert MovedIn(fs, origin, k, |fs|, off, limit);
    }
  }

  lemma MoveComes(base: seq<FileEntry>, fs: seq<FileEntry>, origin: seq<int>, i: int, j: int, off: int)
    requires Comes(base, fs, origin) && 0 <= i < j < |fs|
    ensures Comes(base, MovedFiles(fs, i, j, off), MovedUp(origin, i, j))
  {
    var gs, from := MovedFiles(fs, i, j, off), MovedUp(origin, i, j);
    assert origin == origin[..i] + origin[i..j] + [origin[j]] + origin[j + 1..];
    assert multiset(from) == multiset(origin);
    hide MovedUp;
    MovedIndex(fs, i, j, i);
    forall k | 0 <= k < |gs| ensures -1 <= from[k] < |base| && (from[k] >= 0 ==> Bare(gs[k]) == Bare(base[from[k]])) {
      MovedIndex(fs, i, j, k);
      MovedIndex(origin, i, j, k);
    }
  }

  lemma PadComes(base: seq<FileEntry>, fs: seq<FileEntry>, origin: seq<int>, i: int, pad: FileEntry)
    requires Comes(base, fs, origin) && 0 <= i <= |fs|
    ensures Comes(base, Inserted(fs, i, pad), Inserted(origin, i, -1))
  {
    var gs, from := Inserted(fs, i, pad), Inserted(origin, i, -1);
    assert origin == origin[..i] + origin[i..];
    assert multiset(from) == multiset(origin) + multiset{-1};
    hide Inserted;
    forall k | 0 <= k < |gs| ensures -1 <= from[k] < |base| && (from[k] >= 0 ==> Bare(gs[k]) == Bare(base[from[k]])) {
      InsertedIndex(fs, i, pad, k);
      InsertedIndex(origin, i, -1, k);
    }
  }

  lemma PlaceComes(base: seq<FileEntry>, fs: seq<FileEntry>, origin: seq<int>, i: int, off: int)
    requires Comes(base, fs, origin) && 0 <= i < |fs|
    ensures Comes(base, fs[i := fs[i].(offset := off)], origin)
  {
  }

  function UpTo(n: nat): (s: seq<int>)
    ensures |s| == n && forall k :: 0 <= k < n ==> s[k] == k
  {
    if n == 0 then [] else UpTo(n - 1) + [n - 1]
  }

  lemma {:induction false} EachOnce(n: nat, b: int)
    ensures multiset(UpTo(n))[b] == if 0 <= b < n then 1 else 0
  {
    if n > 0 { EachOnce(n - 1, b); }
  }

  lemma StartArranged(fs: seq<FileEntry>, limit: int)
    ensures Comes(fs, fs, UpTo(|fs|)) && Arranged(fs, UpTo(|fs|), 0, 0, limit)
  {
    forall b | 0 <= b < |fs| ensures multiset(UpTo(|fs|))[b] == 1 { EachOnce(|fs|, b); }
  }

  /** The limit from which on files are aligned. */
  function Effective(limit: int): int {
    if 0 <= limit < ALIGNMENT then ALIGNMENT else limit
  }

  /** The largest file changes places with the first one. */
  function Swapped(fs: seq<FileEntry>, m: int): seq<FileEntry>
    requires 0 <= m < |fs|
  {
    fs[m := fs[0]][0 := fs[m]]
  }

  lemma SwappedParts(fs: seq<FileEntry>, m: int)
    requires 0 < m < |fs|
    ensures var r := Swapped(fs, m);
            && |r| == |fs| && r[m] == fs[0] && r[m + 1..] == fs[m + 1..]
            && r[..m] == [] + [fs[m]] + fs[1..m] && fs[..m] == [] + [fs[0]] + fs[1..m]
  {
  }

  lemma SwappedTimes(fs: seq<FileEntry>, m: int, f: FileEntry)
    requires 0 < m < |fs|
    ensures Times(Swapped(fs, m), f) == Times(fs, f)
  {
    hide *;
    SwappedParts(fs, m);
    TimesAt(fs, m, f);
    TimesAt(Swapped(fs, m), m, f);
    TimesSplit([], fs[m], fs[1..m], f);
    TimesSplit([], fs[0], fs[1..m], f);
  }

  lemma SwappedSame(fs: seq<FileEntry>, m: int)
    requires 0 <= m < |fs|
    ensures SameFiles(fs, Swapped(fs, m))
  {
    hide Times;
    if m > 0 {
      forall f ensures Times(Swapped(fs, m), f) == Times(fs, f) { SwappedTimes(fs, m, f); }
    } else {
      assert Swapped(fs, m) == fs;
    }
  }

  lemma LaidStart(files: seq<FileEntry>, m: int, limit: int)
    requires 0 <= m < |files| && (forall k :: 0 <= k < |files| ==> files[k].size <= files[m].size) && Sizes(files)
    ensures |Swapped(files, m)| == |files| && Laid(Swapped(files, m), 0, 0, limit, files, [])
  {
    SwappedSame(files, m);
  }

  lemma EffectiveMeans(f: FileEntry, limit: int)
    ensures NeedsAlignment(f, Effective(limit)) <==> Due(f, limit)
  {
  }

  lemma AlignedMeans(fs: seq<FileEntry>, limit: int)
    requires Aligned(fs, |fs|, Effective(limit))
    ensures DueAligned(fs, limit)
  {
    forall k | 0 <= k < |fs| && Due(fs[k], limit) ensures fs[k].offset % 8192 == 0 { EffectiveMeans(fs[k], limit); }
  }

  /** The loop of `optimize` takes one turn at a file that is worth aligning and
      not aligned: the largest later file that fits fills the gap, in part or in
      full, or if there is none padding does. */
  method FillGap(fs0: seq<FileEntry>, i0: int, off0: int, padding: nat, limit: int, ghost files: seq<FileEntry>, ghost pads0: seq<FileEntry>)
    returns (fs: seq<FileEntry>, i: int, off: int, padded: bool, ghost pads: seq<FileEntry>, ghost best: int)
    requires Laid(fs0, i0, off0, limit, files, pads0) && 0 < i0 < |fs0| && limit >= ALIGNMENT && padding == |pads0|
    requires off0 >= 0 && off0 % ALIGNMENT != 0 && fs0[i0].size > limit
    ensures Laid(fs, i, off, limit, files, pads) && i == i0 + 1 && i < |fs| && fs[i] == fs0[i0]
    ensures |fs| == |fs0| + if padded then 1 else 0
    ensures if padded then off == GapEnd(off0) && |pads| == |pads0| + 1 && GapPadded(fs0, fs, i0, off0)
            else pads == pads0 && Best(fs0, i0, best, off0) && fs == MovedFiles(fs0, i0, best, off0) && off == off0 + fs0[best].size
  {
    hide Laid, Sum, Times, MovedUp, Inserted, PadPath;
    var padSize := ALIGNMENT - off0 % ALIGNMENT;
    var found := BestMatch(fs0, i0, padSize);
    best := found;
    padded := found == |fs0|;
    if !padded {
      Moving(fs0, i0, off0, limit, files, pads0, found);
      MovedUpIs(fs0, i0, found);
      fs, pads := MovedUp(fs0, i0, found), pads0;
    } else {
      var pad := FileEntry(PadPath(fs0[i0], padding), 0, padSize, 0, true);
      PadPathIs(fs0[i0], padding);
      Padding(fs0, i0, off0, limit, files, pads0, pad);
      InsertedIs(fs0, i0, pad);
      PadPlaced(fs0, i0, off0, pad);
      fs, pads := Inserted(fs0, i0, pad), pads0 + [pad];
    }
    Placing(fs, i0, off0, limit, files, pads);
    off := off0 + fs[i0].size;
    fs := fs[i0 := fs[i0].(offset := off0)];
    i := i0 + 1;
  }

  lemma PadPathIs(next: FileEntry, n: nat)
    ensures |PadPath(next, n)| == 3 && PadPath(next, n)[1] == "_____padding_file_" && PadPath(next, n)[2] == Text.Decimal(n)
  {
  }

  /** Padding that ends the gap was added, and no later file would have fitted. */
  ghost predicate GapPadded(fs0: seq<FileEntry>, fs: seq<FileEntry>, i: int, off: int) {
    && NoneFits(fs0, i, off)
    && exists pad: FileEntry :: pad.padFile && pad.offset == off && off + pad.size == GapEnd(off) && fs == Inserted(fs0, i, pad)
  }

  lemma PadPlaced(fs: seq<FileEntry>, i: int, off: int, pad: FileEntry)
    requires 0 <= i < |fs|
    ensures |Inserted(fs, i, pad)| > i
    ensures Inserted(fs, i, pad)[i := pad.(offset := off)] == Inserted(fs, i, pad.(offset := off))
  {
  }

  /** One turn of the loop at a gap keeps what is said of the gaps. */
  lemma GapArranged(base: seq<FileEntry>, fs0: seq<FileEntry>, origin: seq<int>, fs: seq<FileEntry>, i: int, off: int, best: int, padded: bool, limit: int)
    returns (from: seq<int>)
    requires Comes(base, fs0, origin) && Arranged(fs0, origin, i, off, limit) && Sizes(fs0)
    requires 0 < i < |fs0| && origin[i - 1] >= 0 && Due(fs0[i], limit) && off % 8192 != 0
    requires if padded then GapPadded(fs0, fs, i, off) else Best(fs0, i, best, off) && fs == MovedFiles(fs0, i, best, off)
    ensures Comes(base, fs, from) && Arranged(fs, from, i + 1, if padded then GapEnd(off) else off + fs0[best].size, limit)
    ensures !padded ==> from[i] >= 0
  {
    hide Comes, Arranged, MovedFiles, MovedUp, Inserted, Due, GapEnd, NoneFits;
    assert |origin| == |fs0| by { hide *; ComesLength(base, fs0, origin); }
    if padded {
      var pad: FileEntry :| pad.padFile && pad.offset == off && off + pad.size == GapEnd(off) && fs == Inserted(fs0, i, pad);
      from := Inserted(origin, i, -1);
      PadArranged(fs0, origin, i, off, pad, limit);
      PadComes(base, fs0, origin, i, pad);
    } else {
      from := MovedUp(origin, i, best);
      MoveArranged(fs0, origin, i, best, off, limit);
      MoveComes(base, fs0, origin, i, best, off);
    }
  }

  lemma ComesLength(base: seq<FileEntry>, fs: seq<FileEntry>, origin: seq<int>)
    requires Comes(base, fs, origin)
    ensures |origin| == |fs|
  {
  }

  /** The largest file, the first of these, comes first. */
  ghost predicate FirstLargest(files: seq<FileEntry>, m: int) {
    && 0 <= m < |files| && (forall k :: 0 <= k < |files| ==> files[k].size <= files[m].size)
    && forall k :: 0 <= k < m ==> files[k].size < files[m].size
  }

  /** The new order of the files, their offsets, and the padding added. */
  method Optimized(files: seq<FileEntry>, padFileLimit: int)
    returns (fs: seq<FileEntry>, total: int, ghost pads: seq<FileEntry>, ghost m: int, ghost origin: seq<int>)
    requires files != [] && Sizes(files)
    ensures Placed(fs, |fs|) && total == Sum(fs) && Sizes(fs)
    ensures DueAligned(fs, padFileLimit)
    ensures Pads(pads) && Rearranged(files, pads, fs) && (padFileLimit < 0 ==> pads == [])
    ensures LargestFirst(fs)
    ensures FirstLargest(files, m) && Comes(Swapped(files, m), fs, origin) && GapsFilled(fs, origin, padFileLimit)
  {
    hide Laid, Sum, Rearranged, Swapped, Placed, Aligned, DueAligned, Pads, LargestFirst, Comes, Arranged, GapsFilled, Sizes, Due, GapEnd, GapPadded, Best, MovedFiles;
    var limit := Effective(padFileLimit);
    var largest := MaxElement(files);
    m := largest;
    LaidStart(files, m, limit);
    fs := Swapped(files, largest);
    origin := UpTo(|fs|);
    StartArranged(fs, padFileLimit);
    var off, padding, i := 0, 0, 0;
    pads := [];
    while i < |fs|
      invariant 0 <= i <= |fs| && padding == |pads| && Laid(fs, i, off, limit, files, pads)
      invariant limit < 0 ==> pads == []
      invariant Comes(Swapped(files, m), fs, origin) && Arranged(fs, origin, i, off, padFileLimit)
      invariant |origin| == |fs| && (i > 0 ==> origin[i - 1] >= 0)
      decreases |fs| - i
    {
      LaidFacts(fs, i, off, limit, files, pads);
      EffectiveMeans(fs[i], padFileLimit);
      if limit >= 0 && off % ALIGNMENT != 0 && fs[i].size > limit && !fs[i].padFile {
        var padded;
        ghost var best, was, at, before := 0, fs, i, off;
        fs, i, off, padded, pads, best := FillGap(fs, i, off, padding, limit, files, pads);
        origin := GapArranged(Swapped(files, m), was, origin, fs, at, before, best, padded, padFileLimit);
        ComesLength(Swapped(files, m), fs, origin);
        if !padded { continue; }
        GapEndIs(before);
        padding := padding + 1;
      }
      SizeAt(fs, i, off, limit, files, pads);
      EffectiveMeans(fs[i], padFileLimit);
      Placing(fs, i, off, limit, files, pads);
      PlaceArranged(fs, origin, i, off, padFileLimit);
      PlaceComes(Swapped(files, m), fs, origin, i, off);
      off, fs, i := off + fs[i].size, fs[i := fs[i].(offset := off)], i + 1;
    }
    assert fs[..i] == fs;
    LaidFacts(fs, i, off, limit, files, pads);
    AlignedMeans(fs, padFileLimit);
    AllArranged(fs, origin, off, padFileLimit);
    total := off;
  }

  lemma GapEndIs(x: int)
    ensures GapEnd(x) % 8192 == 0
  {
  }

  lemma SizeAt(fs: seq<FileEntry>, i: int, off: int, limit: int, files: seq<FileEntry>, pads: seq<FileEntry>)
    requires Laid(fs, i, off, limit, files, pads) && 0 <= i < |fs|
    ensures fs[i].size >= 0
  {
  }

  lemma LaidFacts(fs: seq<FileEntry>, i: int, off: int, limit: int, files: seq<FileEntry>, pads: seq<FileEntry>)
    requires Laid(fs, i, off, limit, files, pads)
    ensures Placed(fs, i) && Aligned(fs, i, limit) && off == Sum(fs[..i]) && off >= 0 && Sizes(fs) && LargestFirst(fs)
    ensures (i == 0 ==> off == 0) && Pads(pads) && Rearranged(files, pads, fs)
  {
  }

  // --------------------------------------------------------- blocks and files

  ghost predicate Contiguous(fs: seq<FileEntry>) {
    Sizes(fs) && Placed(fs, |fs|)
  }

  lemma {:induction false} OffsetsGrow(fs: seq<FileEntry>, i: int, j: int)
    requires Contiguous(fs) && 0 <= i <= j < |fs|
    ensures 0 <= fs[i].offset <= fs[j].offset
  {
    SumGrows(fs, i, j);
    SumGrows(fs, 0, i);
  }

  lemma NextOffset(fs: seq<FileEntry>, i: int)
    requires Contiguous(fs) && 0 <= i < |fs|
    ensures fs[i].offset + fs[i].size == if i + 1 < |fs| then fs[i + 1].offset else Sum(fs)
  {
    SumNext(fs, i);
    if i + 1 == |fs| { assert fs[..i + 1] == fs; }
  }

  /** `std::upper_bound`: the first file that starts after `at`. */
  method UpperBound(fs: seq<FileEntry>, at: int) returns (i: int)
    requires Contiguous(fs)
    ensures 0 <= i <= |fs|
    ensures (forall k :: 0 <= k < i ==> fs[k].offset <= at) && forall k :: i <= k < |fs| ==> at < fs[k].offset
  {
    i := 0;
    var len := |fs|;
    while len > 0
      invariant 0 <= i && 0 <= len && i + len <= |fs|
      invariant forall k :: 0 <= k < i ==> fs[k].offset <= at
      invariant forall k :: i + len <= k < |fs| ==> at < fs[k].offset
    {
      var half := len / 2;
      var mid := i + half;
      if at < fs[mid].offset {
        forall k | mid <= k < |fs| ensures at < fs[k].offset { OffsetsGrow(fs, mid, k); }
        len := half;
      } else {
        forall k | 0 <= k <= mid ensures fs[k].offset <= at { OffsetsGrow(fs, k, mid); }
        i, len := mid + 1, len - half - 1;
      }
    }
  }

  function Lengths(slices: seq<Slice>): int {
    if |slices| == 0 then 0 else Lengths(slices[..|slices| - 1]) + slices[|slices| - 1].size
  }

  /** Where in the torrent a slice starts. */
  function Start(fs: seq<FileEntry>, s: Slice): int
    requires 0 <= s.index < |fs|
  {
    fs[s.index].offset + s.offset - fs[s.index].fileBase
  }

  /** A part, not empty, of the file it names. */
  ghost predicate InFile(fs: seq<FileEntry>, s: Slice) {
    && 0 <= s.index < |fs| && s.size > 0
    && 0 <= s.offset - fs[s.index].fileBase && s.offset - fs[s.index].fileBase + s.size <= fs[s.index].size
  }

  /** The slices cover `size` bytes of the torrent from `at` on, in order and without a gap. */
  ghost predicate Covers(fs: seq<FileEntry>, slices: seq<Slice>, at: int, size: int) {
    && (forall n :: 0 <= n < |slices| ==> InFile(fs, slices[n]) && Start(fs, slices[n]) == at + Lengths(slices[..n]))
    && Lengths(slices) == size
  }

  lemma CoversMore(fs: seq<FileEntry>, slices: seq<Slice>, at: int, size: int, s: Slice)
    requires Covers(fs, slices, at, size) && InFile(fs, s) && Start(fs, s) == at + size
    ensures Covers(fs, slices + [s], at, size + s.size)
  {
    var t := slices + [s];
    assert t[..|slices|] == slices;
    forall n | 0 <= n < |t| ensures InFile(fs, t[n]) && Start(fs, t[n]) == at + Lengths(t[..n]) {
      if n < |slices| { assert t[..n] == slices[..n]; }
    }
  }

  /** The slices of `size` bytes at offset `at` of the torrent. */
  method Slices(fs: seq<FileEntry>, at: int, size0: int) returns (slices: seq<Slice>)
    requires Contiguous(fs) && 0 <= at && 0 <= size0 && at + size0 <= Sum(fs)
    ensures Covers(fs, slices, at, size0)
  {
    slices := [];
    if fs == [] { return; }
    assert fs[0].offset <= at;
    var i := UpperBound(fs, at);
    i := i - 1;
    var fileOffset, size := at - fs[i].offset, size0;
    NextOffset(fs, i);
    hide Sum, Placed;
    while size > 0
      invariant 0 <= size <= size0 && Covers(fs, slices, at, size0 - size)
      invariant size > 0 ==> 0 <= i <= |fs| && 0 <= fileOffset
      invariant size > 0 ==> at + size0 - size == fileOffset + (if i < |fs| then fs[i].offset else Sum(fs))
      decreases |fs| - i
    {
      NextOffset(fs, i);
      if fileOffset < fs[i].size {
        var s := Slice(i, fileOffset + fs[i].fileBase, if fs[i].size - fileOffset < size then fs[i].size - fileOffset else size);
        CoversMore(fs, slices, at, size0 - size, s);
        size := size - s.size;
        fileOffset := fileOffset + s.size;
        slices := slices + [s];
      }
      fileOffset := fileOffset - fs[i].size;
      i := i + 1;
    }
  }

  /** Where one slice ends relative to the start of a later one. */
  lemma SlicesApart(fs: seq<FileEntry>, slices: seq<Slice>, at: int, size: int, c: int, n: int)
    requires Covers(fs, slices, at, size) && 0 <= c < n < |slices|
    ensures 0 <= slices[c].index < |fs| && 0 <= slices[n].index < |fs|
    ensures Start(fs, slices[c]) + slices[c].size <= Start(fs, slices[n])
  {
    hide Start;
    LengthsGrow(fs, slices, at, size, c + 1, n);
    assert slices[..c + 1][..c] == slices[..c];
  }

  ghost predicate Holds(fs: seq<FileEntry>, s: Slice, b: int) {
    0 <= s.index < |fs| && Start(fs, s) <= b < Start(fs, s) + s.size
  }

  /** Every byte asked for is in one slice, and only there. */
  lemma EveryByteOnce(fs: seq<FileEntry>, slices: seq<Slice>, at: int, size: int, b: int) returns (n: int)
    requires Covers(fs, slices, at, size) && at <= b < at + size
    ensures 0 <= n < |slices| && Holds(fs, slices[n], b)
    ensures forall c :: 0 <= c < |slices| && Holds(fs, slices[c], b) ==> c == n
  {
    assert slices[..|slices|] == slices;
    n := HolderAmong(fs, slices, at, size, b, |slices|);
    forall c | 0 <= c < |slices| && Holds(fs, slices[c], b) ensures c == n {
      hide Covers;
      if c < n { SlicesApart(fs, slices, at, size, c, n); } else if n < c { SlicesApart(fs, slices, at, size, n, c); }
    }
  }

  lemma {:induction false} HolderAmong(fs: seq<FileEntry>, slices: seq<Slice>, at: int, size: int, b: int, m: int) returns (n: int)
    requires Covers(fs, slices, at, size) && 0 <= m <= |slices| && at <= b < at + Lengths(slices[..m])
    ensures 0 <= n < m && Holds(fs, slices[n], b)
    decreases m
  {
    n := m - 1;
    assert slices[..m][..n] == slices[..n];
    assert InFile(fs, slices[n]) && Start(fs, slices[n]) == at + Lengths(slices[..n]);
    hide Covers, Start;
    if b < at + Lengths(slices[..n]) {
      n := HolderAmong(fs, slices, at, size, b, m - 1);
    }
  }

  lemma {:induction false} LengthsGrow(fs: seq<FileEntry>, slices: seq<Slice>, at: int, size: int, i: int, j: int)
    requires Covers(fs, slices, at, size) && 0 <= i <= j <= |slices|
    ensures Lengths(slices[..i]) <= Lengths(slices[..j])
    decreases j
  {
    if i < j {
      assert slices[..j][..j - 1] == slices[..j - 1] && InFile(fs, slices[j - 1]);
      hide Covers, Start, Contiguous;
      LengthsGrow(fs, slices, at, size, i, j - 1);
    }
  }

  /** The part of a piece that `size` bytes of a file start in. */
  function MapFile(fs: seq<FileEntry>, pieceLength: int, index: int, fileOffset: int, size: int): Request
    requires 0 <= index < |fs| && pieceLength > 0
  {
    var offset := fileOffset + fs[index].offset;
    Request(offset / pieceLength, offset % pieceLength, size)
  }

  function At(r: Request, pieceLength: int): int {
    r.piece * pieceLength + r.start
  }

  /** A slice is mapped back to its place in the torrent exactly when its file has
      no base: the base is added on the way out and not taken off on the way back. */
  lemma MapFileUndoes(fs: seq<FileEntry>, pieceLength: int, s: Slice)
    requires InFile(fs, s) && pieceLength > 0 && Contiguous(fs)
    ensures At(MapFile(fs, pieceLength, s.index, s.offset, s.size), pieceLength) == Start(fs, s) + fs[s.index].fileBase
    ensures MapFile(fs, pieceLength, s.index, s.offset, s.size) ==
              Request(Start(fs, s) / pieceLength, Start(fs, s) % pieceLength, s.size)
            <==> fs[s.index].fileBase == 0
  {
    var offset := s.offset + fs[s.index].offset;
    DivMod(offset, pieceLength);
    DivMod(Start(fs, s), pieceLength);
  }

  /** A file of two bytes with a base of one: the first of them is mapped back to the second. */
  lemma FileBaseExample()
    ensures var fs := [FileEntry(["a"], 0, 2, 1, false)];
            && Contiguous(fs) && InFile(fs, Slice(0, 1, 1)) && Start(fs, Slice(0, 1, 1)) == 0
            && MapFile(fs, 2, 0, 1, 1) == Request(0, 1, 1)
  {
    var fs := [FileEntry(["a"], 0, 2, 1, false)];
    assert fs[..0] == [];
  }

  lemma DivMod(x: int, n: int)
    requires n > 0
    ensures (x / n) * n + x % n == x
  {
  }

  // ------------------------------------------------------------- piece sizes

  function RoundUp(total: int, pieceLength: int): int
    requires pieceLength > 0
  {
    (total + pieceLength - 1) / pieceLength
  }

  function PieceSize(total: int, pieceLength: int, numPieces: int, index: int): int {
    if index == numPieces - 1 then total - (numPieces - 1) * pieceLength else pieceLength
  }

  function PieceSizes(total: int, pieceLength: int, numPieces: int, n: nat): int {
    if n == 0 then 0 else PieceSizes(total, pieceLength, numPieces, n - 1) + PieceSize(total, pieceLength, numPieces, n - 1)
  }

  lemma {:induction false} FullPieces(total: int, pieceLength: int, numPieces: int, n: nat)
    requires n < numPieces
    ensures PieceSizes(total, pieceLength, numPieces, n) == n * pieceLength
  {
    if n > 0 {
      FullPieces(total, pieceLength, numPieces, n - 1);
      assert n * pieceLength == (n - 1) * pieceLength + pieceLength;
    }
  }

  /** The pieces hold the whole torrent, none of them empty or too large. */
  lemma PiecesAddUp(total: int, pieceLength: int)
    requires total >= 0 && pieceLength > 0
    ensures var n := RoundUp(total, pieceLength);
            && 0 <= n && PieceSizes(total, pieceLength, n, n) == total
            && forall i :: 0 <= i < n ==> 0 < PieceSize(total, pieceLength, n, i) <= pieceLength
  {
    var n := RoundUp(total, pieceLength);
    DivMod(total + pieceLength - 1, pieceLength);
    assert n >= 0;
    if n > 0 {
      FullPieces(total, pieceLength, n, n - 1);
      assert n * pieceLength == (n - 1) * pieceLength + pieceLength;
    } else {
      assert n * pieceLength == 0;
    }
  }

  // ------------------------------------------------------------------- class

  class Storage {
    var files: seq<FileEntry>
    var totalSize: int
    var pieceLength: int
    var numPieces: int

    ghost predicate Valid()
      reads this
    {
      Contiguous(files) && totalSize == Sum(files)
    }

    constructor ()
      ensures Valid() && files == []
    {
      files, totalSize, pieceLength, numPieces := [], 0, 0, 0;
    }

    /** Adds a file after the last one. */
    method AddFile(f: FileEntry)
      requires Valid() && f.size >= 0
      modifies this`files, this`totalSize
      ensures Valid() && files == old(files) + [f.(offset := old(totalSize))] && totalSize == old(totalSize) + f.size
    {
      var n := |files|;
      ghost var was := files;
      files := files + [f.(offset := totalSize)];
      totalSize := totalSize + f.size;
      assert files[..n] == was;
      forall k | 0 <= k <= n ensures files[k].offset == Sum(files[..k]) {
        assert k < n ==> files[..k] == was[..k];
      }
    }

    /** Reorders and pads the files so that large ones are aligned. */
    method Optimize(padFileLimit: int) returns (ghost pads: seq<FileEntry>, ghost m: int, ghost origin: seq<int>)
      requires Valid() && files != []
      modifies this`files, this`totalSize
      ensures Valid() && LargestFirst(files)
      ensures padFileLimit >= 0 ==>
                forall k :: 0 <= k < |files| && !files[k].padFile && files[k].size > padFileLimit && files[k].size > 8192 ==> files[k].offset % 8192 == 0
      ensures Pads(pads) && Rearranged(old(files), pads, files) && (padFileLimit < 0 ==> pads == [])
      ensures FirstLargest(old(files), m) && Comes(Swapped(old(files), m), files, origin) && GapsFilled(files, origin, padFileLimit)
    {
      hide Rearranged, Comes, GapsFilled, Swapped;
      files, totalSize, pads, m, origin := Optimized(files, padFileLimit);
    }

    /** Sets the piece length, lays out the files, and counts the pieces. */
    method Finish(length: int, optimize: bool, padFileLimit: int)
      requires Valid() && files != [] && length > 0
      modifies this
      ensures Valid() && pieceLength == length && numPieces == RoundUp(totalSize, length)
      ensures 0 <= numPieces && PieceSizes(totalSize, pieceLength, numPieces, numPieces) == totalSize
    {
      pieceLength := length;
      if optimize {
        ghost var pads, m, origin := Optimize(padFileLimit);
      }
      SumGrows(files, 0, |files|);
      assert files[..|files|] == files;
      numPieces := RoundUp(totalSize, pieceLength);
      PiecesAddUp(totalSize, pieceLength);
    }

    method MapBlock(piece: int, offset: int, size: int) returns (slices: seq<Slice>)
      requires Valid() && 0 <= piece * pieceLength + offset && 0 <= size && piece * pieceLength + offset + size <= totalSize
      ensures Covers(files, slices, piece * pieceLength + offset, size)
    {
      slices := Slices(files, piece * pieceLength + offset, size);
    }
  }
}
