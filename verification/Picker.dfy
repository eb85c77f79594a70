/** The piece picker itself. Iterators and pointers into vectors are indexes;
    every use of `rand` is an arbitrary choice. */
module Picker {
  import opened PickerTypes
  import opened Buckets
  import opened Cascades
  import opened Rebuild
  import opened Blocks
  import opened Queue
  import opened Cursors

  // ------------------------------------------- the queue against the pieces

  function BlocksInPiece(pieces: int, index: int, bpp: int, last: int): int {
    if index + 1 == pieces then last else bpp
  }

  /** Exactly the pieces flagged as downloading have an entry, none of them is
      had, and every entry is live. */
  ghost predicate InStep(m: PieceMap, v: map<int, Entry>, bpp: int, last: int) {
    && (forall p :: p in v ==> 0 <= p < |m| && |v[p].blocks| == bpp && Live(v[p], BlocksInPiece(|m|, p, bpp, last)))
    && (forall p :: 0 <= p < |m| ==> (m[p].downloading <==> p in v) && (m[p].downloading ==> !m[p].Have()))
  }

  lemma InStepAgree(m: PieceMap, m': PieceMap, v: map<int, Entry>, bpp: int, last: int)
    requires InStep(m, v, bpp, last) && |m| == |m'|
    requires forall p :: 0 <= p < |m| ==> m[p].downloading == m'[p].downloading && (m[p].downloading ==> !m'[p].Have())
    ensures InStep(m', v, bpp, last)
  {
  }

  lemma InStepAt(m: PieceMap, v: map<int, Entry>, bpp: int, last: int, p: int)
    requires InStep(m, v, bpp, last) && 0 <= p < |m|
    ensures (m[p].downloading <==> p in v) && (m[p].downloading ==> !m[p].Have())
    ensures p in v ==> |v[p].blocks| == bpp && Live(v[p], BlocksInPiece(|m|, p, bpp, last))
  {
  }

  /** What a change of one piece's record means for the lists. */
  lemma ChangeOne(pieces: seq<int>, bounds: seq<int>, m: PieceMap, seeds: nat, p: int, x: PiecePos)
    requires AllPacked(m) && x.Packed() && 0 <= p < |m|
    requires Layout(pieces, bounds, Indexes(m), Prios(m, seeds))
    ensures AllPacked(m[p := x])
    ensures var m', prev, e := m[p := x], m[p].Priority(seeds), m[p].index;
            && (prev == -1 ==> Layout(pieces, bounds, Indexes(m'), Prios(m', seeds)[p := -1]))
            && (prev >= 0 ==>
                  && prev < |bounds| && e < |pieces| && pieces[e] == p
                  && Layout(pieces, bounds, Indexes(m')[p := e], Prios(m', seeds)[p := prev]))
  {
    var m', prev, e := m[p := x], m[p].Priority(seeds), m[p].index;
    if prev == -1 {
      assert Prios(m', seeds)[p := -1] == Prios(m, seeds);
      IgnoreUnlisted(pieces, bounds, Indexes(m), Indexes(m'), Prios(m, seeds));
    } else {
      assert Placed(pieces, bounds, Indexes(m), Prios(m, seeds), p);
      assert Indexes(m')[p := e] == Indexes(m);
      assert Prios(m', seeds)[p := prev] == Prios(m, seeds);
    }
  }

  // ------------------------------------- one record changed, rest reindexed

  lemma TalliedReindexed(m: PieceMap, m': PieceMap,
                         cursor: int, reverse: int, numHave: int, numFiltered: int, numHaveFiltered: int)
    requires Tallied(m, cursor, reverse, numHave, numFiltered, numHaveFiltered) && Reindexed(m, m')
    ensures Tallied(m', cursor, reverse, numHave, numFiltered, numHaveFiltered)
  {
    TalliedAgree(m, m', cursor, reverse, numHave, numFiltered, numHaveFiltered);
  }

  lemma TalliedChange(m: PieceMap, p: int, x: PiecePos,
                      cursor: int, reverse: int, numHave: int, numFiltered: int, numHaveFiltered: int,
                      cursor': int, reverse': int)
    requires 0 <= p < |m| && Tallied(m, cursor, reverse, numHave, numFiltered, numHaveFiltered)
    requires CursorsAt(m[p := x], cursor', reverse')
    ensures Tallied(m[p := x], cursor', reverse',
                    numHave - (if m[p].Have() then 1 else 0) + (if x.Have() then 1 else 0),
                    numFiltered - (if m[p].Filtered() && !m[p].Have() then 1 else 0) + (if x.Filtered() && !x.Have() then 1 else 0),
                    numHaveFiltered - (if m[p].Filtered() && m[p].Have() then 1 else 0) + if x.Filtered() && x.Have() then 1 else 0)
  {
    CountsChange(m, p, x);
  }

  lemma TalliedAfter(m: PieceMap, p: int, x: PiecePos, m': PieceMap,
                     cursor: int, reverse: int, numHave: int, numFiltered: int, numHaveFiltered: int)
    requires Tallied(m, cursor, reverse, numHave, numFiltered, numHaveFiltered)
    requires 0 <= p < |m| && Reindexed(m[p := x], m')
    requires (x.Have() <==> m[p].Have()) && (x.Filtered() <==> m[p].Filtered())
    ensures Tallied(m', cursor, reverse, numHave, numFiltered, numHaveFiltered)
  {
    TalliedAgree(m, m', cursor, reverse, numHave, numFiltered, numHaveFiltered);
  }

  lemma InStepAfter(m: PieceMap, p: int, x: PiecePos, m': PieceMap, v: map<int, Entry>, bpp: int, last: int)
    requires InStep(m, v, bpp, last) && 0 <= p < |m| && Reindexed(m[p := x], m')
    requires x.downloading == m[p].downloading && (x.downloading ==> !x.Have())
    ensures InStep(m', v, bpp, last)
  {
    InStepAgree(m, m', v, bpp, last);
  }

  /** Piece `p` gains, or keeps, the live entry `e`. */
  lemma InStepPut(m: PieceMap, p: int, x: PiecePos, m': PieceMap, v: map<int, Entry>, bpp: int, last: int, e: Entry)
    requires InStep(m, v, bpp, last) && 0 <= p < |m| && Reindexed(m[p := x], m')
    requires x.downloading && !x.Have() && |e.blocks| == bpp && Live(e, BlocksInPiece(|m|, p, bpp, last))
    ensures InStep(m', v[p := e], bpp, last)
  {
  }

  /** A piece in progress gets the entry `e`: the queue stays in step exactly when it is live. */
  lemma InStepProgress(m: PieceMap, p: int, v: map<int, Entry>, bpp: int, last: int, e: Entry)
    requires InStep(m, v, bpp, last) && 0 <= p < |m| && p in v && |e.blocks| == bpp
    ensures InStep(m, v[p := e], bpp, last) <==> Live(e, BlocksInPiece(|m|, p, bpp, last))
  {
    hide Live;
    assert v[p := e][p] == e;
  }

  /** Piece `p` loses its entry. */
  lemma InStepDrop(m: PieceMap, p: int, x: PiecePos, m': PieceMap, v: map<int, Entry>, bpp: int, last: int)
    requires InStep(m, v, bpp, last) && 0 <= p < |m| && Reindexed(m[p := x], m') && !x.downloading
    ensures InStep(m', v - {p}, bpp, last)
  {
  }

  ghost predicate CutsNoFiltered(m: PieceMap, total: nat) {
    forall p :: total <= p < |m| ==> !m[p].Filtered()
  }

  /** Every record is reset, except for the priority chosen by the user. */
  ghost predicate ResetFrom(m0: PieceMap, m: PieceMap) {
    forall p :: 0 <= p < |m| ==> m[p] == PiecePos(0, false, if p < |m0| then m0[p].piecePriority else 1, 0)
  }

  /** Re-initialising keeps the filtered count exact just when no filtered piece
      falls off the end. */
  lemma InitFiltered(m: PieceMap, total: nat, resized: PieceMap)
    requires resized == if total <= |m| then m[..total] else m + seq(total - |m|, _ => PiecePos(0, false, 1, 0))
    ensures CountFiltered(m, true) + CountFiltered(m, false) == CountFiltered(resized, true) + CountFiltered(resized, false)
            <==> CutsNoFiltered(m, total)
  {
    var kept := if total <= |m| then m[..total] else m;
    var cut := if total <= |m| then m[total..] else [];
    var added := if total <= |m| then [] else seq(total - |m|, _ => PiecePos(0, false, 1, 0));
    CutIs(m, total, cut);
    assert forall q :: 0 <= q < |added| ==> !added[q].Filtered();
    hide *;
    assert m == kept + cut && resized == kept + added;
    CountsAppend(kept, cut);
    CountsAppend(kept, added);
    SomeFiltered(cut);
    SomeFiltered(added);
  }

  lemma CutIs(m: PieceMap, total: nat, cut: PieceMap)
    requires cut == if total <= |m| then m[total..] else []
    ensures CutsNoFiltered(m, total) <==> forall q :: 0 <= q < |cut| ==> !cut[q].Filtered()
  {
    assert forall q :: 0 <= q < |cut| ==> cut[q] == m[total + q];
    assert forall p :: total <= p < |m| ==> m[p] == cut[p - total];
  }

  lemma {:induction false} SomeFiltered(m: PieceMap)
    ensures CountFiltered(m, true) + CountFiltered(m, false) == 0 <==> forall p :: 0 <= p < |m| ==> !m[p].Filtered()
  {
    if |m| > 0 {
      var n := |m| - 1;
      SomeFiltered(m[..n]);
      assert forall p :: 0 <= p < n ==> m[..n][p] == m[p];
    }
  }

  /** The vector resize and the reset of every record that `Init` performs. */
  method ResetRecords(m0: PieceMap, total: nat) returns (m: PieceMap)
    ensures |m| == total && ResetFrom(m0, m)
    ensures CountHave(m) == 0 && CountFiltered(m, true) == 0
    ensures CountFiltered(m, false) == CountFiltered(m0, true) + CountFiltered(m0, false) <==>
            CutsNoFiltered(m0, total)
  {
    m := if total <= |m0| then m0[..total] else m0 + seq(total - |m0|, _ => PiecePos(0, false, 1, 0));
    ghost var resized := m;
    InitFiltered(m0, total, resized);
    hide CountHave, CountFiltered;
    for i := 0 to total
      invariant |m| == total
      invariant forall p :: 0 <= p < i ==> m[p] == PiecePos(0, false, resized[p].piecePriority, 0)
      invariant forall p :: i <= p < total ==> m[p] == resized[p]
    {
      m := m[i := m[i].(peerCount := 0, downloading := false, index := 0)];
    }
    CountsReset(resized, m);
  }

  method ShiftCounts(m0: PieceMap, mask: seq<bool>, step: int) returns (m: PieceMap, updated: bool)
    requires |mask| == |m0|
    ensures |m| == |m0| && (updated <==> true in mask) && (!updated ==> m == m0)
    ensures forall p :: 0 <= p < |m| ==>
              m[p] == if mask[p] then m0[p].(peerCount := (m0[p].peerCount + step) % PEER_COUNT_RANGE) else m0[p]
  {
    m, updated := m0, false;
    for i := 0 to |m|
      invariant |m| == |m0| && (updated <==> exists p :: 0 <= p < i && mask[p])
      invariant forall p :: 0 <= p < i ==>
                  m[p] == if mask[p] then m0[p].(peerCount := (m0[p].peerCount + step) % PEER_COUNT_RANGE) else m0[p]
      invariant forall p :: i <= p < |m| ==> m[p] == m0[p]
    {
      if mask[i] {
        m := m[i := m[i].(peerCount := (m[i].peerCount + step) % PEER_COUNT_RANGE)];
        updated := true;
      }
    }
  }

  lemma ShiftedPacked(m0: PieceMap, m: PieceMap, mask: seq<bool>, step: int)
    requires AllPacked(m0) && |m| == |m0| == |mask|
    requires forall p :: 0 <= p < |m| ==>
               m[p] == if mask[p] then m0[p].(peerCount := (m0[p].peerCount + step) % PEER_COUNT_RANGE) else m0[p]
    ensures AllPacked(m)
  {
  }

  lemma InStepSame(m: PieceMap, m': PieceMap, v: map<int, Entry>, bpp: int, last: int)
    requires InStep(m, v, bpp, last) && |m| == |m'|
    requires forall p :: 0 <= p < |m| ==> m[p].downloading == m'[p].downloading && (m[p].Have() <==> m'[p].Have())
    ensures InStep(m', v, bpp, last)
  {
    InStepAgree(m, m', v, bpp, last);
  }

  lemma EmptyQueue(m: PieceMap, base: int, bpp: int, last: int)
    requires bpp > 0 && forall p :: 0 <= p < |m| ==> !m[p].downloading
    ensures Represents([], [], base, bpp, map[]) && Descending([]) && InStep(m, map[], bpp, last)
  {
  }

  /** No entry counts a negative number of completed blocks. */
  lemma DoneCounts(dl: Downloads, info: seq<BlockInfo>, base: int, bpp: int, v: map<int, Entry>, m: PieceMap, last: int)
    requires Represents(dl, info, base, bpp, v) && InStep(m, v, bpp, last)
    ensures forall i :: 0 <= i < |dl| ==> dl[i].Done() >= 0
  {
    forall i | 0 <= i < |dl| ensures dl[i].Done() >= 0 {
      assert Shows(dl[i], info, base, bpp, v);
      assert Live(v[dl[i].index], BlocksInPiece(|m|, dl[i].index, bpp, last));
    }
  }

  function EntryOr(v: map<int, Entry>, p: int, bpp: nat): Entry {
    if p in v then v[p] else Blank(bpp)
  }

  ghost predicate OnePeerFewer(m: PieceMap, m': PieceMap) {
    |m'| == |m| && forall p :: 0 <= p < |m| ==> m[p].peerCount > 0 && m'[p] == m[p].(peerCount := m[p].peerCount - 1)
  }

  /** The loop over the pieces when no seed is counted. */
  method LosePeers(m0: PieceMap) returns (m: PieceMap)
    requires forall p :: 0 <= p < |m0| ==> m0[p].peerCount > 0
    ensures OnePeerFewer(m0, m)
  {
    m := m0;
    for i := 0 to |m|
      invariant |m| == |m0|
      invariant forall p :: 0 <= p < i ==> m[p] == m0[p].(peerCount := m0[p].peerCount - 1)
      invariant forall p :: i <= p < |m| ==> m[p] == m0[p]
    {
      m := m[i := m[i].(peerCount := m[i].peerCount - 1)];
    }
  }

  lemma TalliedFewer(m: PieceMap, m': PieceMap,
                     cursor: int, reverse: int, numHave: int, numFiltered: int, numHaveFiltered: int)
    requires Tallied(m, cursor, reverse, numHave, numFiltered, numHaveFiltered) && OnePeerFewer(m, m') && AllPacked(m)
    ensures Tallied(m', cursor, reverse, numHave, numFiltered, numHaveFiltered) && AllPacked(m') && |m'| == |m|
  {
    TalliedAgree(m, m', cursor, reverse, numHave, numFiltered, numHaveFiltered);
  }

  lemma InStepFewer(m: PieceMap, m': PieceMap, v: map<int, Entry>, bpp: int, last: int)
    requires InStep(m, v, bpp, last) && OnePeerFewer(m, m')
    ensures InStep(m', v, bpp, last)
  {
    InStepAgree(m, m', v, bpp, last);
  }

  lemma EntryOrIs(v: map<int, Entry>, p: int, bpp: nat)
    ensures EntryOr(v, p, bpp) == if p in v then v[p] else Blank(bpp)
  {
  }

  lemma PieceSize(pieces: int, index: int, bpp: int, last: int)
    requires 0 < last <= bpp
    ensures 0 < BlocksInPiece(pieces, index, bpp, last) <= bpp
  {
  }

  /** The blocks of the first `n` pieces. */
  function BlocksOfFirst(pieces: int, n: nat, bpp: int, last: int): int {
    if n == 0 then 0 else BlocksOfFirst(pieces, n - 1, bpp, last) + BlocksInPiece(pieces, n - 1, bpp, last)
  }

  /** All pieces but the last are of the same size. */
  lemma BlocksAddUp(pieces: nat, bpp: int, last: int)
    requires pieces > 0
    ensures BlocksOfFirst(pieces, pieces, bpp, last) == (pieces - 1) * bpp + last
  {
    FullBlocks(pieces, pieces - 1, bpp, last);
  }

  lemma {:induction false} FullBlocks(pieces: int, n: nat, bpp: int, last: int)
    requires n < pieces
    ensures BlocksOfFirst(pieces, n, bpp, last) == n * bpp
  {
    if n > 0 {
      FullBlocks(pieces, n - 1, bpp, last);
      assert n * bpp == (n - 1) * bpp + bpp;
    }
  }

  lemma DoneIs(d: DownloadingPiece)
    ensures d.Done() == d.finished + d.writing
  {
  }

  lemma SameDone(d: DownloadingPiece, e: DownloadingPiece)
    requires d.finished == e.finished && d.writing == e.writing
    ensures d.Done() == e.Done()
  {
  }

  lemma ResetPacked(m0: PieceMap, m: PieceMap)
    requires ResetFrom(m0, m) && AllPacked(m0)
    ensures AllPacked(m) && forall p :: 0 <= p < |m| ==> !m[p].downloading
  {
  }

  lemma TalliedIs(m: PieceMap, cursor: int, reverse: int, numHave: int, numFiltered: int, numHaveFiltered: int)
    ensures Tallied(m, cursor, reverse, numHave, numFiltered, numHaveFiltered) <==>
              CursorsAt(m, cursor, reverse) && numHave == CountHave(m) && numFiltered == CountFiltered(m, false)
              && numHaveFiltered == CountFiltered(m, true)
  {
    hide CursorsAt, CountHave, CountFiltered;
  }

  lemma PriosAt(m: PieceMap, seeds: nat, p: int)
    requires AllPacked(m) && 0 <= p < |m|
    ensures m[p].Packed() && Prios(m, seeds)[p] == m[p].Priority(seeds) >= -1 && Indexes(m)[p] == m[p].index
  {
  }

  /** Where a piece is in its bucket, and its record knows it, nothing lags behind. */
  lemma NotLagging(m: PieceMap, seeds: nat, p: int, e: int)
    requires AllPacked(m) && 0 <= p < |m| && (m[p].index == e || m[p].Have()) && m[p].Priority(seeds) >= 0
    ensures Indexes(m)[p := e] == Indexes(m) && Prios(m, seeds)[p := m[p].Priority(seeds)] == Prios(m, seeds)
  {
  }

  lemma PlacedAt(list: seq<int>, bounds: seq<int>, idx: seq<int>, prio: seq<int>, p: int)
    requires Layout(list, bounds, idx, prio) && 0 <= p < |prio| && prio[p] >= 0
    ensures p < |idx| && prio[p] < |bounds| && Start(bounds, prio[p]) <= idx[p] < bounds[prio[p]]
  {
    assert Placed(list, bounds, idx, prio, p);
  }

  lemma MovingStart(list: seq<int>, bounds: seq<int>, idx: seq<int>, prio: seq<int>, x: int, b: int, e: int)
    requires 0 <= e < |list| && list[e] == x && 0 <= x < |idx| && x < |prio| && Layout(list, bounds, idx[x := e], prio[x := b])
    requires 0 <= b < |bounds|
    ensures Moving(list, bounds, idx, prio, x, b, e, x)
  {
    assert list[e := x] == list;
  }

  lemma DescendingChange(dl: Downloads, i: int, d: DownloadingPiece)
    requires Descending(dl) && 0 <= i < |dl|
    ensures DescendingBut(dl[i := d], i) && (d.Done() == dl[i].Done() ==> Descending(dl[i := d]))
  {
  }

  lemma DescendingAdd(dl0: Downloads, dl: Downloads, d: DownloadingPiece)
    requires Descending(dl0) && |dl| == |dl0| + 1 && forall i :: 0 <= i < |dl0| ==> dl[i] == dl0[i].(info := dl[i].info)
    requires forall i :: 0 <= i < |dl0| ==> dl0[i].Done() >= 0
    ensures DescendingBut(dl[|dl0| := d], |dl0|) && (d.Done() == 0 ==> Descending(dl[|dl0| := d]))
  {
    assert forall i :: 0 <= i < |dl0| ==> dl[i].Done() == dl0[i].Done();
  }

  lemma ReindexedSame(m: PieceMap, p: int)
    requires AllPacked(m) && 0 <= p < |m|
    ensures Reindexed(m, m) && m[p := m[p]] == m
  {
  }

  lemma SeedsMatterOnlyAtZero(m: PieceMap, s: nat, t: nat)
    requires AllPacked(m) && s > 0 && t > 0
    ensures Prios(m, s) == Prios(m, t)
  {
  }

  class PiecePicker {
    /** The number of seeds; they are not part of the availability counters. */
    var seeds: nat
    /** Every pickable piece, grouped by priority. */
    var pieces: seq<int>
    /** `bounds[b]` is where bucket `b` ends inside `pieces`. */
    var bounds: seq<int>
    var pieceMap: PieceMap
    var downloads: Downloads
    var blockInfo: seq<BlockInfo>
    /** The address of the first record of `blockInfo`. */
    var base: int
    var blocksPerPiece: nat
    var blocksInLastPiece: nat
    var numFiltered: int
    var numHaveFiltered: int
    var numHave: int
    var cursor: int
    var reverseCursor: int
    /** When set, `pieces` and `bounds` are stale and must be rebuilt before use. */
    var dirty: bool
    /** The download queue as a map from piece to entry. */
    ghost var entries: map<int, Entry>

    // ------------------------------------------------------ the invariant

    ghost predicate Sized()
      reads this`pieceMap
    {
      |pieceMap| < WE_HAVE_INDEX && AllPacked(pieceMap)
    }

    /** The lists agree with the priorities of all pieces. */
    ghost predicate InOrder()
      reads this`pieces, this`bounds, this`pieceMap, this`seeds
    {
      Sized() && Layout(pieces, bounds, Indexes(pieceMap), Prios(pieceMap, seeds))
    }

    ghost predicate Listing()
      reads this`pieces, this`bounds, this`pieceMap, this`seeds, this`dirty
    {
      Sized() && (!dirty ==> InOrder())
    }

    ghost predicate Queueing()
      reads this`pieceMap, this`downloads, this`blockInfo, this`base, this`blocksPerPiece, this`blocksInLastPiece, this`entries
    {
      && 0 < blocksInLastPiece <= blocksPerPiece
      && Represents(downloads, blockInfo, base, blocksPerPiece, entries)
      && Descending(downloads)
      && InStep(pieceMap, entries, blocksPerPiece, blocksInLastPiece)
    }

    ghost predicate Tallying()
      reads this`pieceMap, this`cursor, this`reverseCursor, this`numHave, this`numFiltered, this`numHaveFiltered
    {
      Tallied(pieceMap, cursor, reverseCursor, numHave, numFiltered, numHaveFiltered)
    }

    ghost predicate Valid()
      reads this
    {
      Listing() && Queueing() && Tallying()
    }

    lemma Parts()
      ensures Listing() <==> |pieceMap| < WE_HAVE_INDEX && AllPacked(pieceMap)
                             && (!dirty ==> Layout(pieces, bounds, Indexes(pieceMap), Prios(pieceMap, seeds)))
      ensures Queueing() <==> 0 < blocksInLastPiece <= blocksPerPiece
                              && Represents(downloads, blockInfo, base, blocksPerPiece, entries) && Descending(downloads)
                              && InStep(pieceMap, entries, blocksPerPiece, blocksInLastPiece)
      ensures Tallying() <==> Tallied(pieceMap, cursor, reverseCursor, numHave, numFiltered, numHaveFiltered)
      ensures Valid() <==> Listing() && Queueing() && Tallying()
    {
      hide Layout, Represents, Descending, InStep, Tallied, Prios, Indexes, AllPacked;
    }

    // -------------------------------------------------------- the buckets

    /** The lists agree with the priorities, except that `x` still stands at
        position `e` in the bucket of its previous priority `b`. */
    ghost predicate Lagging(x: int, b: int, e: int)
      reads this`pieces, this`bounds, this`pieceMap, this`seeds
    {
      && Sized() && 0 <= x < |pieceMap| && 0 <= b < |bounds|
      && 0 <= e < |pieces| && pieces[e] == x
      && Layout(pieces, bounds, Indexes(pieceMap)[x := e], Prios(pieceMap, seeds)[x := b])
    }

    /** The lists agree with the priorities, except that `x` is not listed. */
    ghost predicate Missing(x: int)
      reads this`pieces, this`bounds, this`pieceMap, this`seeds
    {
      && Sized() && 0 <= x < |pieceMap|
      && Layout(pieces, bounds, Indexes(pieceMap), Prios(pieceMap, seeds)[x := -1])
    }

    /** Lists a piece that is not listed yet, at an arbitrary position of its
        bucket; the displaced pieces cascade upwards, one per bucket. */
    method Add(piece: int)
      requires Missing(piece) && pieceMap[piece].Priority(seeds) >= 0
      modifies this`pieces, this`bounds, this`pieceMap
      ensures InOrder() && Reindexed(old(pieceMap), pieceMap)
    {
      ghost var prio := Prios(pieceMap, seeds);
      var priority := pieceMap[piece].Priority(seeds);
      ExtendKeepsLayout(pieces, bounds, Indexes(pieceMap), prio[piece := -1], priority + 1);
      if |bounds| <= priority {
        bounds := Extend(bounds, priority + 1, |pieces|);
      }
      ListFits(pieces, bounds, Indexes(pieceMap), prio[piece := -1]);
      BucketInRange(pieces, bounds, priority);
      var newIndex :| Start(bounds, priority) <= newIndex <= bounds[priority];
      pieces, bounds, pieceMap := InsertCascade(pieces, bounds, pieceMap, seeds, piece, priority, newIndex);
      ReindexedPrios(old(pieceMap), pieceMap, seeds);
    }

    /** Unlists a piece that must not be picked any more: the hole it leaves
        travels through the last slot of every bucket above. */
    method Remove(priority: int, elemIndex: int)
      requires 0 <= elemIndex < |pieces|
      requires Lagging(pieces[elemIndex], priority, elemIndex)
      requires pieceMap[pieces[elemIndex]].Priority(seeds) == -1
      modifies this`pieces, this`bounds, this`pieceMap
      ensures InOrder() && Reindexed(old(pieceMap), pieceMap)
    {
      ghost var x := pieces[elemIndex];
      ListFits(pieces, bounds, Indexes(pieceMap)[x := elemIndex], Prios(pieceMap, seeds)[x := priority]);
      pieces, bounds, pieceMap := RemoveCascade(pieces, bounds, pieceMap, seeds, priority, elemIndex);
      ReindexedPrios(old(pieceMap), pieceMap, seeds);
    }
  
    /** Moves a listed piece whose priority has changed to its new bucket, or
        unlists it. */
    method Update(priority: int, elemIndex: int)
      requires 0 <= elemIndex < |pieces|
      requires Lagging(pieces[elemIndex], priority, elemIndex)
      requires pieceMap[pieces[elemIndex]].index == elemIndex || pieceMap[pieces[elemIndex]].Have()
      modifies this`pieces, this`bounds, this`pieceMap
      ensures InOrder() && Reindexed(old(pieceMap), pieceMap)
    {
      hide *;
      LaggingIs(pieces[elemIndex], priority, elemIndex);
      ghost var m0, prio, idx := pieceMap, Prios(pieceMap, seeds), Indexes(pieceMap);
      var index := pieces[elemIndex];
      PriosAt(m0, seeds, index);
      var newPriority := pieceMap[index].Priority(seeds);
      ReindexedRefl(pieceMap);
      if newPriority == priority {
        NotLagging(m0, seeds, index, elemIndex);
        InOrderIs();
        return;
      }
      if newPriority == -1 {
        Remove(priority, elemIndex);
        return;
      }
      ExtendKeepsLayout(pieces, bounds, idx[index := elemIndex], prio[index := priority], newPriority + 1);
      if |bounds| <= newPriority {
        bounds := Extend(bounds, newPriority + 1, |pieces|);
      }
      ListFits(pieces, bounds, idx[index := elemIndex], prio[index := priority]);
      MovingStart(pieces, bounds, idx, prio, index, priority, elemIndex);
      var newIndex: int;
      pieces, bounds, pieceMap, newIndex := UpdateCascade(pieces, bounds, pieceMap, seeds, priority, newPriority, elemIndex);
      ReindexedPrios(m0, pieceMap, seeds);
      InOrderIs();
      PlacedAt(pieces, bounds, Indexes(pieceMap), prio, index);
      ghost var moved := pieceMap;
      Shuffle(newPriority, newIndex);
      ReindexedTrans(m0, moved, pieceMap);
    }

    lemma LaggingIs(x: int, b: int, e: int)
      requires Lagging(x, b, e)
      ensures |pieceMap| < WE_HAVE_INDEX && AllPacked(pieceMap) && 0 <= x < |pieceMap| && 0 <= b < |bounds|
      ensures 0 <= e < |pieces| && pieces[e] == x
      ensures Layout(pieces, bounds, Indexes(pieceMap)[x := e], Prios(pieceMap, seeds)[x := b])
    {
    }

    lemma InOrderIs()
      ensures InOrder() <==> |pieceMap| < WE_HAVE_INDEX && AllPacked(pieceMap)
                             && Layout(pieces, bounds, Indexes(pieceMap), Prios(pieceMap, seeds))
    {
      hide Layout, Prios, Indexes, AllPacked;
    }

    /** Trades a piece with an arbitrary piece of the same bucket. */
    method Shuffle(priority: int, elemIndex: int)
      requires InOrder() && 0 <= priority < |bounds|
      requires Start(bounds, priority) <= elemIndex < bounds[priority]
      modifies this`pieces, this`pieceMap
      ensures InOrder() && Reindexed(old(pieceMap), pieceMap)
    {
      ghost var m0, idx, prio := pieceMap, Indexes(pieceMap), Prios(pieceMap, seeds);
      ReindexedRefl(pieceMap);
      var otherIndex :| Start(bounds, priority) <= otherIndex < bounds[priority];
      if otherIndex == elemIndex { return; }
      SwapInBucket(pieces, bounds, idx, prio, priority, otherIndex, elemIndex);
      ListFits(pieces, bounds, idx, prio);
      BucketOf(pieces, bounds, idx, prio, priority, otherIndex);
      BucketOf(pieces, bounds, idx, prio, priority, elemIndex);
      var p1, p2 := pieces[otherIndex], pieces[elemIndex];
      var temp := pieceMap[p1].index;
      ReindexOne(m0, pieceMap, seeds, p1, elemIndex);
      pieceMap := SetIndex(pieceMap, p1, pieceMap[p2].index);
      ReindexOne(m0, pieceMap, seeds, p2, temp);
      pieceMap := SetIndex(pieceMap, p2, temp);
      pieces := Exchange(pieces, otherIndex, elemIndex);
      ReindexedPrios(m0, pieceMap, seeds);
      assert Indexes(pieceMap) == idx[p1 := elemIndex][p2 := otherIndex];
      assert idx[p1 := elemIndex][p2 := otherIndex] == idx[p2 := otherIndex][p1 := elemIndex];
    }
  
    /** Rebuilds the lists from the priorities. */
    method UpdatePieces()
      requires Sized()
      modifies this`pieces, this`bounds, this`pieceMap, this`dirty
      ensures InOrder() && !dirty && Reindexed(old(pieceMap), pieceMap)
    {
      pieces, bounds, pieceMap := RebuildBuckets(pieces, bounds, pieceMap, seeds);
      ReindexedPrios(old(pieceMap), pieceMap, seeds);
      dirty := false;
    }

    /** Brings the lists up to date after the record of `index` has changed from
        priority `prev`, unless a rebuild is pending anyway. */
    method Relist(index: int, prev: int)
      requires Sized() && 0 <= index < |pieceMap| && prev >= -1
      requires !dirty ==> if prev == -1 then Missing(index) else Lagging(index, prev, pieceMap[index].index)
      modifies this`pieces, this`bounds, this`pieceMap
      ensures Listing() && Reindexed(old(pieceMap), pieceMap)
    {
      ReindexedRefl(pieceMap);
      if dirty { return; }
      if prev == -1 {
        if pieceMap[index].Priority(seeds) == -1 {
          assert Prios(pieceMap, seeds)[index := -1] == Prios(pieceMap, seeds);
          return;
        }
        Add(index);
      } else {
        Update(prev, pieceMap[index].index);
      }
    }
  
    /** Replaces the record of one piece and brings the lists up to date. */
    method ChangeRecord(index: int, x: PiecePos)
      requires Listing() && 0 <= index < |pieceMap| && x.Packed()
      requires x.index == pieceMap[index].index || pieceMap[index].Priority(seeds) == -1
      modifies this`pieces, this`bounds, this`pieceMap
      ensures Listing() && Reindexed(old(pieceMap)[index := x], pieceMap)
    {
      var prev := pieceMap[index].Priority(seeds);
      if !dirty { ChangeOne(pieces, bounds, pieceMap, seeds, index, x); }
      pieceMap := pieceMap[index := x];
      Relist(index, prev);
    }

    /** Replaces the record of one piece by one that must not be listed. */
    method Unlist(index: int, x: PiecePos)
      requires Listing() && 0 <= index < |pieceMap| && x.Packed() && x.Have()
      modifies this`pieces, this`bounds, this`pieceMap
      ensures Listing() && Reindexed(old(pieceMap)[index := x], pieceMap)
    {
      var infoIndex, priority := pieceMap[index].index, pieceMap[index].Priority(seeds);
      if !dirty { ChangeOne(pieces, bounds, pieceMap, seeds, index, x); }
      pieceMap := pieceMap[index := x];
      ReindexedRefl(pieceMap);
      if priority != -1 && !dirty {
        Remove(priority, infoIndex);
      } else if !dirty {
        assert Prios(pieceMap, seeds)[index := -1] == Prios(pieceMap, seeds);
      }
    }

    // ---------------------------------------------------------- the queue

    /** Finds the queue entry of a piece in progress. */
    method Locate(index: int) returns (i: int)
      requires Represents(downloads, blockInfo, base, blocksPerPiece, entries) && index in entries
      ensures 0 <= i < |downloads| && downloads[i].index == index
      ensures Fits(downloads[i], |blockInfo|, base, blocksPerPiece)
      ensures entries[index] == EntryOf(downloads[i], blockInfo, base, blocksPerPiece)
    {
      assert Queued(downloads, index);
      i := FindPiece(downloads, index);
      assert Shows(downloads[i], blockInfo, base, blocksPerPiece, entries);
    }

    /** Rewrites the counters and one block record of entry `i`; the entry is
        moved to its place when the number of completed blocks changed. */
    method StoreBlock(i: int, d: DownloadingPiece, k: int, b: BlockInfo, sort: bool)
      requires Represents(downloads, blockInfo, base, blocksPerPiece, entries) && Descending(downloads)
      requires 0 <= i < |downloads| && 0 <= k < blocksPerPiece
      requires d.index == downloads[i].index && d.info == downloads[i].info
      requires !sort ==> d.Done() == downloads[i].Done()
      modifies this`downloads, this`blockInfo, this`entries
      ensures Represents(downloads, blockInfo, base, blocksPerPiece, entries) && Descending(downloads)
      ensures d.index in old(entries) && |old(entries)[d.index].blocks| == blocksPerPiece
      ensures entries == old(entries)[d.index :=
                Entry(d.speed, d.finished, d.writing, d.requested, old(entries)[d.index].blocks[k := b])]
    {
      hide *;
      Rewrite(downloads, blockInfo, base, blocksPerPiece, entries, i, d, k, b);
      DescendingChange(downloads, i, d);
      entries := entries[d.index := Entry(d.speed, d.finished, d.writing, d.requested, entries[d.index].blocks[k := b])];
      blockInfo := blockInfo[d.info - base + k := b];
      downloads := downloads[i := d];
      if sort {
        downloads := SortPiece(downloads, i, blockInfo, base, blocksPerPiece, entries);
      }
    }

    /** Appends an entry with one block already under way. */
    method NewEntry(index: int, speed: Speed, finished: int, writing: int, requested: int, k: int, b: BlockInfo)
      requires Represents(downloads, blockInfo, base, blocksPerPiece, entries) && Descending(downloads)
      requires index !in entries && 0 <= k < blocksPerPiece && finished + writing >= 0
      requires forall i :: 0 <= i < |downloads| ==> downloads[i].Done() >= 0
      modifies this`downloads, this`blockInfo, this`base, this`entries
      ensures Represents(downloads, blockInfo, base, blocksPerPiece, entries) && Descending(downloads)
      ensures entries == old(entries)[index :=
                Entry(speed, finished, writing, requested, Blank(blocksPerPiece).blocks[k := b])]
    {
      hide *;
      ghost var v := entries;
      var dl, info, bs := AddDownloadPiece(downloads, blockInfo, base, blocksPerPiece, index, v);
      var n := |dl| - 1;
      var d := dl[n].(speed := speed, finished := finished, writing := writing, requested := requested);
      Rewrite(dl, info, bs, blocksPerPiece, v[index := Blank(blocksPerPiece)], n, d, k, b);
      entries := v[index := Entry(speed, finished, writing, requested, Blank(blocksPerPiece).blocks[k := b])];
      assert v[index := Blank(blocksPerPiece)][index := entries[index]] == entries;
      DescendingAdd(downloads, dl, d);
      DoneIs(d);
      downloads, blockInfo, base := dl[n := d], info[d.info - bs + k := b], bs;
      if finished + writing > 0 {
        downloads := SortPiece(downloads, n, blockInfo, base, blocksPerPiece, entries);
      }
    }

    /** Removes entry `i`. */
    method DropEntry(i: int)
      requires Represents(downloads, blockInfo, base, blocksPerPiece, entries) && Descending(downloads)
      requires 0 <= i < |downloads|
      modifies this`downloads, this`blockInfo, this`entries
      ensures Represents(downloads, blockInfo, base, blocksPerPiece, entries) && Descending(downloads)
      ensures entries == old(entries) - {old(downloads)[i].index}
    {
      var dl, info := EraseDownloadPiece(downloads, blockInfo, base, blocksPerPiece, i, entries);
      entries := entries - {downloads[i].index};
      forall j, l | 0 <= j < l < |dl| ensures dl[j].Done() >= dl[l].Done() {
        var a, b := if j < i then j else j + 1, if l < i then l else l + 1;
        assert downloads[a].Done() >= downloads[b].Done();
      }
      downloads, blockInfo := dl, info;
    }
  
    // --------------------------------------------------------- life cycle

    /** The state before the first `Init`. */
    ghost predicate Unset()
      reads this`pieceMap, this`downloads, this`cursor, this`reverseCursor, this`numHave, this`numFiltered, this`numHaveFiltered
    {
      pieceMap == [] && downloads == [] && numFiltered == numHaveFiltered == numHave == cursor == reverseCursor == 0
    }

    constructor ()
      ensures Unset() && seeds == 0
    {
      seeds, pieces, bounds, pieceMap := 0, [], [0], [];
      downloads, blockInfo, base, blocksPerPiece, blocksInLastPiece := [], [], 0, 0, 0;
      numFiltered, numHaveFiltered, numHave, cursor, reverseCursor, dirty := 0, 0, 0, 0, 0, false;
      entries := map[];
    }

    /** Starts over with `total` pieces, none of them had or in progress; piece
        priorities carry over. The counters come out exact if and only if no
        filtered piece is cut off the end. */
    method Init(blocks: nat, blocksInLast: nat, total: nat)
      requires AllPacked(pieceMap)
      requires numFiltered == CountFiltered(pieceMap, false) && numHaveFiltered == CountFiltered(pieceMap, true)
      requires 0 < blocks && blocksInLast <= blocks && 0 < total < WE_HAVE_INDEX
      modifies this`pieceMap, this`cursor, this`reverseCursor, this`downloads, this`blockInfo, this`entries,
               this`numFiltered, this`numHaveFiltered, this`numHave, this`dirty, this`blocksPerPiece, this`blocksInLastPiece
      ensures Listing() && Queueing() && CursorsAt(pieceMap, cursor, reverseCursor) && dirty && entries == map[]
      ensures |pieceMap| == total && ResetFrom(old(pieceMap), pieceMap)
      ensures numFiltered == old(numFiltered) + old(numHaveFiltered) && numHaveFiltered == numHave == 0
      ensures Valid() <==> CutsNoFiltered(old(pieceMap), total)
      ensures blocksPerPiece == blocks && blocksInLastPiece == if blocksInLast == 0 then blocks else blocksInLast
    {
      hide *;
      var m := ResetRecords(pieceMap, total);
      var last := if blocksInLast == 0 then blocks else blocksInLast;
      ResetPacked(pieceMap, m);
      var c, r := ScanCursors(m);
      pieceMap, dirty := m, true;
      ClearQueue(blocks, last);
      ClearCounts(c, r);
      TalliedIs(m, c, r, numHave, numFiltered, numHaveFiltered);
      Parts();
    }

    method ClearQueue(blocks: nat, last: nat)
      requires 0 < last <= blocks && forall p :: 0 <= p < |pieceMap| ==> !pieceMap[p].downloading
      modifies this`downloads, this`blockInfo, this`entries, this`blocksPerPiece, this`blocksInLastPiece
      ensures Queueing() && entries == map[] && blocksPerPiece == blocks && blocksInLastPiece == last
    {
      downloads, blockInfo, entries := [], [], map[];
      blocksPerPiece, blocksInLastPiece := blocks, last;
      EmptyQueue(pieceMap, base, blocks, last);
    }

    method ClearCounts(c: int, r: int)
      modifies this`cursor, this`reverseCursor, this`numFiltered, this`numHaveFiltered, this`numHave
      ensures cursor == c && reverseCursor == r
      ensures numFiltered == old(numFiltered) + old(numHaveFiltered) && numHaveFiltered == numHave == 0
    {
      cursor, reverseCursor := c, r;
      numFiltered, numHaveFiltered, numHave := numFiltered + numHaveFiltered, 0, 0;
    }

    // ------------------------------------------------------- availability

    /** A seed joins: the lists turn stale with the first one, and only then. */
    method IncRefcountAll()
      requires Valid()
      modifies this`seeds, this`dirty
      ensures Valid() && seeds == old(seeds) + 1 && (dirty <==> old(dirty) || old(seeds) == 0)
    {
      seeds := seeds + 1;
      if seeds == 1 {
        dirty := true;
      } else {
        SeedsMatterOnlyAtZero(pieceMap, seeds - 1, seeds);
      }
    }

    /** A seed leaves, and the lists turn stale with the last one. When none is counted,
        every piece loses one of its peers instead. */
    method DecRefcountAll()
      requires Valid()
      requires seeds == 0 ==> forall p :: 0 <= p < |pieceMap| ==> pieceMap[p].peerCount > 0
      modifies this`seeds, this`dirty, this`pieceMap
      ensures Valid()
      ensures old(seeds) > 0 ==> seeds == old(seeds) - 1 && pieceMap == old(pieceMap) && (dirty <==> old(dirty) || seeds == 0)
      ensures old(seeds) == 0 ==> seeds == 0 && OnePeerFewer(old(pieceMap), pieceMap) && dirty
    {
      hide *;
      Parts();
      if seeds > 0 {
        seeds := seeds - 1;
        if seeds == 0 {
          dirty := true;
        } else {
          SeedsMatterOnlyAtZero(pieceMap, seeds, seeds + 1);
        }
      } else {
        var m := LosePeers(pieceMap);
        TalliedFewer(pieceMap, m, cursor, reverseCursor, numHave, numFiltered, numHaveFiltered);
        InStepFewer(pieceMap, m, entries, blocksPerPiece, blocksInLastPiece);
        pieceMap := m;
        dirty := true;
      }
      Parts();
    }

    method IncRefcount(index: int)
      requires Valid() && 0 <= index < |pieceMap|
      modifies this`pieces, this`bounds, this`pieceMap
      ensures Valid()
      ensures var x := old(pieceMap)[index];
              Reindexed(old(pieceMap)[index := x.(peerCount := (x.peerCount + 1) % PEER_COUNT_RANGE)], pieceMap)
    {
      hide Layout, Represents, Descending, InStep, CursorsAt, CountHave, CountFiltered, Reindexed, Prios, Indexes;
      InStepAt(pieceMap, entries, blocksPerPiece, blocksInLastPiece, index);
      var x := pieceMap[index].(peerCount := (pieceMap[index].peerCount + 1) % PEER_COUNT_RANGE);
      ChangeRecord(index, x);
      TalliedAfter(old(pieceMap), index, x, pieceMap, cursor, reverseCursor, numHave, numFiltered, numHaveFiltered);
      InStepAfter(old(pieceMap), index, x, pieceMap, entries, blocksPerPiece, blocksInLastPiece);
    }

    method DecRefcount(index: int)
      requires Valid() && 0 <= index < |pieceMap| && pieceMap[index].peerCount > 0
      modifies this`pieces, this`bounds, this`pieceMap
      ensures Valid()
      ensures var x := old(pieceMap)[index];
              Reindexed(old(pieceMap)[index := x.(peerCount := x.peerCount - 1)], pieceMap)
    {
      hide Layout, Represents, Descending, InStep, CursorsAt, CountHave, CountFiltered, Reindexed, Prios, Indexes;
      InStepAt(pieceMap, entries, blocksPerPiece, blocksInLastPiece, index);
      var x := pieceMap[index].(peerCount := pieceMap[index].peerCount - 1);
      ChangeRecord(index, x);
      TalliedAfter(old(pieceMap), index, x, pieceMap, cursor, reverseCursor, numHave, numFiltered, numHaveFiltered);
      InStepAfter(old(pieceMap), index, x, pieceMap, entries, blocksPerPiece, blocksInLastPiece);
    }

    /** Adds `step` to the availability of every piece in the bit mask; `step` is
        1 when a peer announces its pieces and -1 when it leaves. */
    method ChangeRefcounts(mask: seq<bool>, step: int)
      requires Valid() && |mask| == |pieceMap| && (step == 1 || step == -1)
      modifies this`pieceMap, this`dirty
      ensures Valid() && |pieceMap| == |old(pieceMap)|
      ensures forall p :: 0 <= p < |pieceMap| ==> var x := old(pieceMap)[p];
                pieceMap[p] == if mask[p] then x.(peerCount := (x.peerCount + step) % PEER_COUNT_RANGE) else x
      ensures dirty <==> old(dirty) || true in mask
    {
      hide *;
      Parts();
      var m, updated := ShiftCounts(pieceMap, mask, step);
      ShiftedPacked(pieceMap, m, mask, step);
      ghost var m0 := pieceMap;
      forall p | 0 <= p < |m| ensures (m0[p].Have() <==> m[p].Have()) && (m0[p].Filtered() <==> m[p].Filtered()) {
        HaveIs(m0[p]);
        HaveIs(m[p]);
      }
      TalliedAgree(pieceMap, m, cursor, reverseCursor, numHave, numFiltered, numHaveFiltered);
      InStepSame(pieceMap, m, entries, blocksPerPiece, blocksInLastPiece);
      pieceMap := m;
      if updated { dirty := true; }
      Parts();
    }

    // ---------------------------------------------------- had and filtered

    method WeHave(index: int)
      requires Valid() && 0 <= index < |pieceMap|
      modifies this`pieces, this`bounds, this`pieceMap, this`downloads, this`blockInfo, this`entries,
               this`cursor, this`reverseCursor, this`numHave, this`numFiltered, this`numHaveFiltered
      ensures Valid() && entries == old(entries) - {index}
      ensures Reindexed(old(pieceMap)[index := old(pieceMap)[index].(index := WE_HAVE_INDEX, downloading := false)], pieceMap)
    {
      hide *;
      Parts();
      ghost var m0, v0 := pieceMap, entries;
      var p := pieceMap[index].(downloading := false);
      InStepAt(pieceMap, entries, blocksPerPiece, blocksInLastPiece, index);
      HaveIs(m0[index]);
      HaveIs(p);
      ReindexedSame(m0, index);
      DropIfQueued(index, pieceMap[index].downloading);
      if p.Have() {
        Parts();
        return;
      }
      PackedAt(m0, index);
      Acquire(index, p.(index := WE_HAVE_INDEX));
      InStepDrop(m0, index, p.(index := WE_HAVE_INDEX), pieceMap, v0, blocksPerPiece, blocksInLastPiece);
      Parts();
    }

    /** Counts piece `index` as had and takes it off the lists. */
    method Acquire(index: int, x: PiecePos)
      requires Listing() && Tallying() && 0 <= index < |pieceMap| && !pieceMap[index].Have()
      requires x == pieceMap[index].(index := WE_HAVE_INDEX, downloading := false)
      modifies this`pieces, this`bounds, this`pieceMap,
               this`cursor, this`reverseCursor, this`numHave, this`numFiltered, this`numHaveFiltered
      ensures Listing() && Tallying() && Reindexed(old(pieceMap)[index := x], pieceMap)
    {
      hide *;
      Parts();
      ghost var m0 := pieceMap;
      HaveIs(x);
      HaveIs(m0[index]);
      PackedAt(m0, index);
      PackedIs(x);
      TallyHave(index, x);
      Unlist(index, x);
      TalliedReindexed(m0[index := x], pieceMap, cursor, reverseCursor, numHave, numFiltered, numHaveFiltered);
      Parts();
    }

    method DropIfQueued(index: int, queued: bool)
      requires Represents(downloads, blockInfo, base, blocksPerPiece, entries) && Descending(downloads) && (queued <==> index in entries)
      modifies this`downloads, this`blockInfo, this`entries
      ensures Represents(downloads, blockInfo, base, blocksPerPiece, entries) && Descending(downloads)
      ensures entries == old(entries) - {index} && (!queued ==> unchanged(this))
    {
      hide *;
      if queued {
        var i := Locate(index);
        DropEntry(i);
      }
      assert entries == old(entries) - {index};
    }

    lemma HaveIs(x: PiecePos)
      ensures x.Have() <==> x.index == WE_HAVE_INDEX
      ensures x.Filtered() <==> x.piecePriority == 0
      ensures x.Open() <==> !x.Have() && !x.Filtered()
    {
    }

    lemma PackedIs(x: PiecePos)
      ensures x.Packed() <==> x.peerCount < PEER_COUNT_RANGE && x.piecePriority < PRIORITY_LEVELS && x.index <= WE_HAVE_INDEX
    {
    }

    lemma PackedAt(m: PieceMap, p: int)
      requires AllPacked(m) && 0 <= p < |m|
      ensures m[p].peerCount < PEER_COUNT_RANGE && m[p].piecePriority < PRIORITY_LEVELS && m[p].index <= WE_HAVE_INDEX
    {
    }

    lemma HadIsUnlisted(x: PiecePos)
      requires x.Packed() && x.Have()
      ensures x.Priority(seeds) == -1
    {
    }

    /** Accounts for piece `index` being had, before its record is replaced. */
    method TallyHave(index: int, x: PiecePos)
      requires Tallying() && 0 <= index < |pieceMap| && !pieceMap[index].Have()
      requires x.Have() && (x.Filtered() <==> pieceMap[index].Filtered())
      modifies this`cursor, this`reverseCursor, this`numHave, this`numFiltered, this`numHaveFiltered
      ensures Tallied(pieceMap[index := x], cursor, reverseCursor, numHave, numFiltered, numHaveFiltered)
    {
      if x.Filtered() {
        numFiltered, numHaveFiltered := numFiltered - 1, numHaveFiltered + 1;
      }
      numHave := numHave + 1;
      cursor, reverseCursor := CloseCursors(pieceMap, pieceMap[index := x], cursor, reverseCursor, index);
      TalliedChange(pieceMap, index, x, old(cursor), old(reverseCursor), old(numHave), old(numFiltered),
                    old(numHaveFiltered), cursor, reverseCursor);
    }

    method WeDontHave(index: int)
      requires Valid() && 0 <= index < |pieceMap| && !pieceMap[index].downloading
      modifies this`pieces, this`bounds, this`pieceMap,
               this`cursor, this`reverseCursor, this`numHave, this`numFiltered, this`numHaveFiltered
      ensures Valid()
      ensures var x := old(pieceMap)[index];
              Reindexed(old(pieceMap)[index := if x.Have() then x.(index := 0) else x], pieceMap)
    {
      hide *;
      Parts();
      InStepAt(pieceMap, entries, blocksPerPiece, blocksInLastPiece, index);
      ghost var m0 := pieceMap;
      var p := pieceMap[index];
      HaveIs(p);
      PackedAt(m0, index);
      ReindexedSame(m0, index);
      if !p.Have() { return; }
      PackedIs(p);
      HadIsUnlisted(p);
      var x := p.(index := 0);
      PackedIs(x);
      HaveIs(x);
      TallyLost(index, x);
      ChangeRecord(index, x);
      TalliedReindexed(m0[index := x], pieceMap, cursor, reverseCursor, numHave, numFiltered, numHaveFiltered);
      InStepAfter(m0, index, x, pieceMap, entries, blocksPerPiece, blocksInLastPiece);
      Parts();
    }

    /** Accounts for piece `index` being lost, before its record is replaced. */
    method TallyLost(index: int, x: PiecePos)
      requires Tallying() && 0 <= index < |pieceMap| && pieceMap[index].Have()
      requires !x.Have() && (x.Filtered() <==> pieceMap[index].Filtered())
      modifies this`cursor, this`reverseCursor, this`numHave, this`numFiltered, this`numHaveFiltered
      ensures Tallied(pieceMap[index := x], cursor, reverseCursor, numHave, numFiltered, numHaveFiltered)
    {
      CountsChange(pieceMap, index, x);
      hide CursorsAt, CountHave, CountFiltered;
      if pieceMap[index].Filtered() {
        numFiltered, numHaveFiltered := numFiltered + 1, numHaveFiltered - 1;
        CursorsStay(pieceMap, index, x, cursor, reverseCursor);
      } else {
        cursor, reverseCursor := OpenCursors(pieceMap, pieceMap[index := x], cursor, reverseCursor, index);
      }
      numHave := numHave - 1;
    }

    /** Returns whether the piece became filtered or stopped being so. */
    method SetPiecePriority(index: int, newPriority: nat) returns (changed: bool)
      requires Valid() && 0 <= index < |pieceMap| && newPriority < PRIORITY_LEVELS
      modifies this`pieces, this`bounds, this`pieceMap,
               this`cursor, this`reverseCursor, this`numFiltered, this`numHaveFiltered
      ensures Valid()
      ensures changed <==> (old(pieceMap)[index].Filtered() <==> newPriority != 0)
      ensures Reindexed(old(pieceMap)[index := old(pieceMap)[index].(piecePriority := newPriority)], pieceMap)
    {
      hide *;
      Parts();
      InStepAt(pieceMap, entries, blocksPerPiece, blocksInLastPiece, index);
      ghost var m0 := pieceMap;
      var p := pieceMap[index];
      HaveIs(p);
      ReindexedSame(m0, index);
      if newPriority == p.piecePriority { return false; }
      var x := p.(piecePriority := newPriority);
      PackedAt(m0, index);
      PackedIs(x);
      HaveIs(x);
      changed := TallyPriority(index, x);
      ChangeRecord(index, x);
      TalliedReindexed(m0[index := x], pieceMap, cursor, reverseCursor, numHave, numFiltered, numHaveFiltered);
      InStepAfter(m0, index, x, pieceMap, entries, blocksPerPiece, blocksInLastPiece);
      Parts();
    }

    /** Accounts for another priority of piece `index`, before its record is replaced. */
    method TallyPriority(index: int, x: PiecePos) returns (changed: bool)
      requires Tallying() && 0 <= index < |pieceMap| && x.index == pieceMap[index].index && x.piecePriority != pieceMap[index].piecePriority
      modifies this`cursor, this`reverseCursor, this`numFiltered, this`numHaveFiltered
      ensures Tallied(pieceMap[index := x], cursor, reverseCursor, numHave, numFiltered, numHaveFiltered)
      ensures changed <==> (pieceMap[index].Filtered() <==> x.piecePriority != 0)
    {
      var p := pieceMap[index];
      CountsChange(pieceMap, index, x);
      changed := false;
      hide CursorsAt, CountHave, CountFiltered;
      if x.Open() == p.Open() { CursorsStay(pieceMap, index, x, cursor, reverseCursor); }
      if x.piecePriority == 0 && !p.Filtered() {
        if p.Have() {
          numHaveFiltered := numHaveFiltered + 1;
        } else {
          numFiltered := numFiltered + 1;
          cursor, reverseCursor := CloseCursors(pieceMap, pieceMap[index := x], cursor, reverseCursor, index);
        }
        changed := true;
      } else if x.piecePriority != 0 && p.Filtered() {
        if p.Have() {
          numHaveFiltered := numHaveFiltered - 1;
        } else {
          numFiltered := numFiltered - 1;
          cursor, reverseCursor := OpenCursors(pieceMap, pieceMap[index := x], cursor, reverseCursor, index);
        }
        changed := true;
      }
    }

    // --------------------------------------------------------- the blocks

    ghost predicate BlockOf(piece: int, block: int)
      reads this`pieceMap, this`blocksPerPiece, this`blocksInLastPiece
    {
      0 <= piece < |pieceMap| && 0 <= block < BlocksInPiece(|pieceMap|, piece, blocksPerPiece, blocksInLastPiece)
    }

    /** The first block of a piece comes under way: the piece is flagged, moves to
        its new bucket, and gets a queue entry. */
    method Begin(piece: int, speed: Speed, finished: int, writing: int, requested: int, k: int, b: BlockInfo)
      requires Valid() && BlockOf(piece, k) && !pieceMap[piece].downloading && !pieceMap[piece].Have()
      requires finished + writing >= 0
      requires Live(Entry(speed, finished, writing, requested, Blank(blocksPerPiece).blocks[k := b]),
                    BlocksInPiece(|pieceMap|, piece, blocksPerPiece, blocksInLastPiece))
      modifies this`pieces, this`bounds, this`pieceMap, this`downloads, this`blockInfo, this`base, this`entries
      ensures Valid() && piece !in old(entries)
      ensures Reindexed(old(pieceMap)[piece := old(pieceMap)[piece].(downloading := true)], pieceMap)
      ensures entries == old(entries)[piece := Entry(speed, finished, writing, requested, Blank(blocksPerPiece).blocks[k := b])]
    {
      hide *;
      Parts();
      BlockIs(piece, k);
      ghost var m0 := pieceMap;
      InStepAt(pieceMap, entries, blocksPerPiece, blocksInLastPiece, piece);
      BlankSize(blocksPerPiece);
      PackedAt(m0, piece);
      HaveIs(m0[piece]);
      DoneCounts(downloads, blockInfo, base, blocksPerPiece, entries, pieceMap, blocksInLastPiece);
      var x := pieceMap[piece].(downloading := true);
      HaveIs(x);
      PackedIs(x);
      ChangeRecord(piece, x);
      NewEntry(piece, speed, finished, writing, requested, k, b);
      TalliedAfter(m0, piece, x, pieceMap, cursor, reverseCursor, numHave, numFiltered, numHaveFiltered);
      InStepPut(m0, piece, x, pieceMap, old(entries), blocksPerPiece, blocksInLastPiece, entries[piece]);
      Parts();
    }

    lemma BlockIs(piece: int, block: int)
      requires BlockOf(piece, block)
      ensures 0 <= piece < |pieceMap| && 0 <= block < BlocksInPiece(|pieceMap|, piece, blocksPerPiece, blocksInLastPiece)
      ensures blocksInLastPiece <= blocksPerPiece ==> block < blocksPerPiece
    {
    }

    /** What there is to know about the entry of a piece, or the blank one it stands for. */
    lemma EntryIs(piece: int, block: int)
      requires Valid() && BlockOf(piece, block)
      ensures 0 <= piece < |pieceMap| && |pieceMap| < WE_HAVE_INDEX && AllPacked(pieceMap)
      ensures 0 <= block < BlocksInPiece(|pieceMap|, piece, blocksPerPiece, blocksInLastPiece) && block < blocksPerPiece
      ensures (pieceMap[piece].downloading <==> piece in entries) && (pieceMap[piece].downloading ==> !pieceMap[piece].Have())
      ensures var e := EntryOr(entries, piece, blocksPerPiece);
              && |e.blocks| == blocksPerPiece && Sound(e, BlocksInPiece(|pieceMap|, piece, blocksPerPiece, blocksInLastPiece))
              && (piece in entries ==> e == entries[piece] && Live(e, BlocksInPiece(|pieceMap|, piece, blocksPerPiece, blocksInLastPiece)))
              && (piece !in entries ==> e == Blank(blocksPerPiece) && e.blocks[block] == BlockInfo(0, 0, Free))
    {
      hide *;
      Parts();
      BlockIs(piece, block);
      InStepAt(pieceMap, entries, blocksPerPiece, blocksInLastPiece, piece);
      EntryOrIs(entries, piece, blocksPerPiece);
      BlankSize(blocksPerPiece);
      PieceSize(|pieceMap|, piece, blocksPerPiece, blocksInLastPiece);
      BlankIsSound(blocksPerPiece, BlocksInPiece(|pieceMap|, piece, blocksPerPiece, blocksInLastPiece));
      if piece in entries {
        LiveIsSound(entries[piece], BlocksInPiece(|pieceMap|, piece, blocksPerPiece, blocksInLastPiece));
      }
    }

    /** Finds the queue entry of a piece in progress and the record of one of its blocks. */
    method LocateBlock(piece: int, block: int) returns (i: int, info: BlockInfo)
      requires Represents(downloads, blockInfo, base, blocksPerPiece, entries) && piece in entries && 0 <= block < blocksPerPiece
      ensures 0 <= i < |downloads| && downloads[i].index == piece && |entries[piece].blocks| == blocksPerPiece
      ensures info == entries[piece].blocks[block]
      ensures entries[piece] == Entry(downloads[i].speed, downloads[i].finished, downloads[i].writing, downloads[i].requested,
                                      entries[piece].blocks)
    {
      i := Locate(piece);
      info := blockInfo[downloads[i].info - base + block];
    }

    /** One block of a piece in progress changes; everything stays valid just when the entry is live. */
    method Progress(i: int, d: DownloadingPiece, k: int, b: BlockInfo, sort: bool)
      requires Valid() && 0 <= i < |downloads| && BlockOf(d.index, k)
      requires d.index == downloads[i].index && d.info == downloads[i].info && d.index in entries
      requires !sort ==> d.Done() == downloads[i].Done()
      requires |entries[d.index].blocks| == blocksPerPiece
      modifies this`downloads, this`blockInfo, this`entries
      ensures Listing() && Tallying() && Represents(downloads, blockInfo, base, blocksPerPiece, entries) && Descending(downloads)
      ensures Valid() <==> Live(Entry(d.speed, d.finished, d.writing, d.requested, old(entries)[d.index].blocks[k := b]),
                                BlocksInPiece(|pieceMap|, d.index, blocksPerPiece, blocksInLastPiece))
      ensures entries == old(entries)[d.index :=
                Entry(d.speed, d.finished, d.writing, d.requested, old(entries)[d.index].blocks[k := b])]
    {
      InStepAt(pieceMap, entries, blocksPerPiece, blocksInLastPiece, d.index);
      hide Layout, Represents, Descending, InStep, Tallied, Reindexed, Prios, Indexes, Live, Sound, Count;
      StoreBlock(i, d, k, b, sort);
      InStepProgress(pieceMap, d.index, old(entries), blocksPerPiece, blocksInLastPiece, entries[d.index]);
    }

    /** The last block of a piece leaves: the piece loses its entry and its flag. */
    method Retire(i: int)
      requires Valid() && 0 <= i < |downloads| && 0 <= downloads[i].index < |pieceMap|
      modifies this`pieces, this`bounds, this`pieceMap, this`downloads, this`blockInfo, this`entries
      ensures Valid() && entries == old(entries) - {old(downloads)[i].index}
      ensures var p := old(downloads)[i].index;
              Reindexed(old(pieceMap)[p := old(pieceMap)[p].(downloading := false)], pieceMap)
    {
      hide *;
      Parts();
      var index := downloads[i].index;
      ghost var m0, v0, x := pieceMap, entries, pieceMap[index].(downloading := false);
      HaveIs(m0[index]);
      HaveIs(x);
      DropEntry(i);
      ClearFlag(index);
      TalliedAfter(m0, index, x, pieceMap, cursor, reverseCursor, numHave, numFiltered, numHaveFiltered);
      InStepDrop(m0, index, x, pieceMap, v0, blocksPerPiece, blocksInLastPiece);
      Parts();
    }

    method ClearFlag(index: int)
      requires Listing() && 0 <= index < |pieceMap|
      modifies this`pieces, this`bounds, this`pieceMap
      ensures Listing() && Reindexed(old(pieceMap)[index := old(pieceMap)[index].(downloading := false)], pieceMap)
    {
      ChangeRecord(index, pieceMap[index].(downloading := false));
    }
  
    /** A block is put in a peer's request queue. A request is refused when the
        block is already being written or finished. All invariants hold afterwards if and
        only if the request was not the one that wraps the block's counter. */
    method MarkAsDownloading(piece: int, block: int, peer: nat, speed: Speed) returns (marked: bool)
      requires Valid() && BlockOf(piece, block) && speed != NoSpeed && !pieceMap[piece].Have()
      modifies this`pieces, this`bounds, this`pieceMap, this`downloads, this`blockInfo, this`base, this`entries
      ensures Listing() && Tallying() && Represents(downloads, blockInfo, base, blocksPerPiece, entries) && Descending(downloads)
      ensures Valid() <==> EntryOr(old(entries), piece, blocksPerPiece).blocks[block].numPeers < NUM_PEERS_RANGE - 1
      ensures var st := EntryOr(old(entries), piece, blocksPerPiece).blocks[block].state;
              marked <==> st == Free || st == Requested
      ensures entries == if marked
                then old(entries)[piece := Request(EntryOr(old(entries), piece, blocksPerPiece), block, peer, speed)]
                else old(entries)
      ensures Reindexed(old(pieceMap)[piece := old(pieceMap)[piece].(downloading := true)], pieceMap)
    {
      hide *;
      Parts();
      EntryIs(piece, block);
      ghost var n := BlocksInPiece(|pieceMap|, piece, blocksPerPiece, blocksInLastPiece);
      ghost var e := EntryOr(entries, piece, blocksPerPiece);
      NoPeersUnlessRequested(e, n, block);
      RequestIs(e, block, peer, speed);
      if !pieceMap[piece].downloading {
        RequestKeeps(e, n, block, peer, speed);
        BlankRequest(blocksPerPiece, block, peer, speed);
        Begin(piece, speed, 0, 0, 1, block, BlockInfo(peer, 1, Requested));
        Parts();
        return true;
      }
      ReindexedSame(pieceMap, piece);
      var i, info := LocateBlock(piece, block);
      if info.state == Writing || info.state == Finished { return false; }
      RequestKeeps(e, n, block, peer, speed);
      var d := downloads[i].(speed := if downloads[i].speed == NoSpeed then speed else downloads[i].speed,
                             requested := if info.state == Requested then downloads[i].requested else downloads[i].requested + 1);
      SameDone(downloads[i], d);
      Progress(i, d, block, BlockInfo(peer, (info.numPeers + 1) % NUM_PEERS_RANGE, Requested), false);
      return true;
    }

    /** A block has arrived and is being written to disk. */
    method MarkAsWriting(piece: int, block: int, peer: nat) returns (marked: bool)
      requires Valid() && BlockOf(piece, block)
      modifies this`pieces, this`bounds, this`pieceMap, this`downloads, this`blockInfo, this`base, this`entries
      ensures Valid()
      ensures var st := EntryOr(old(entries), piece, blocksPerPiece).blocks[block].state;
              marked <==> !old(pieceMap)[piece].Have() && (st == Free || st == Requested)
      ensures marked ==> entries == old(entries)[piece := Write(EntryOr(old(entries), piece, blocksPerPiece), block, peer)]
      ensures !marked && piece !in old(entries) ==> entries == old(entries)
      ensures !marked && piece in old(entries) ==> var e := old(entries)[piece];
                entries == old(entries)[piece := e.(blocks := e.blocks[block := e.blocks[block].(peer := peer)])]
      ensures Reindexed(old(pieceMap)[piece := old(pieceMap)[piece].(downloading := marked || piece in old(entries))], pieceMap)
    {
      hide *;
      Parts();
      EntryIs(piece, block);
      ghost var n := BlocksInPiece(|pieceMap|, piece, blocksPerPiece, blocksInLastPiece);
      ghost var e := EntryOr(entries, piece, blocksPerPiece);
      WriteIs(e, block, peer);
      ReindexedSame(pieceMap, piece);
      if !pieceMap[piece].downloading {
        if pieceMap[piece].Have() { return false; }
        WriteKeeps(e, n, block, peer);
        BlankWrite(blocksPerPiece, block, peer);
        Begin(piece, NoSpeed, 0, 1, 0, block, BlockInfo(peer, 0, Writing));
        return true;
      }
      var i, info := LocateBlock(piece, block);
      if info.state == Writing || info.state == Finished {
        RepeerKeeps(e, n, block, peer);
        Progress(i, downloads[i], block, info.(peer := peer), false);
        return false;
      }
      WriteKeeps(e, n, block, peer);
      var requested := if info.state == Requested then downloads[i].requested - 1 else downloads[i].requested;
      var d := downloads[i].(requested := requested, writing := downloads[i].writing + 1,
                             speed := if requested == 0 then NoSpeed else downloads[i].speed);
      Progress(i, d, block, BlockInfo(peer, 0, Writing), true);
      return true;
    }

    /** A block has been written, or was found complete on disk. */
    method MarkAsFinished(piece: int, block: int, peer: nat)
      requires Valid() && BlockOf(piece, block)
      requires piece in entries ==> entries[piece].blocks[block].state != Requested
      modifies this`pieces, this`bounds, this`pieceMap, this`downloads, this`blockInfo, this`base, this`entries
      ensures Valid()
      ensures var e := EntryOr(old(entries), piece, blocksPerPiece);
              entries == if old(pieceMap)[piece].Have() || e.blocks[block].state == Finished then old(entries)
                         else old(entries)[piece := Finish(e, block, peer)]
      ensures Reindexed(old(pieceMap)[piece := old(pieceMap)[piece].(downloading := !old(pieceMap)[piece].Have())], pieceMap)
    {
      hide *;
      Parts();
      EntryIs(piece, block);
      ghost var n := BlocksInPiece(|pieceMap|, piece, blocksPerPiece, blocksInLastPiece);
      ghost var e := EntryOr(entries, piece, blocksPerPiece);
      FinishIs(e, block, peer);
      ReindexedSame(pieceMap, piece);
      if !pieceMap[piece].downloading {
        if pieceMap[piece].Have() { return; }
        FinishKeeps(e, n, block, peer);
        BlankFinish(blocksPerPiece, block, peer);
        Begin(piece, NoSpeed, 1, 0, 0, block, BlockInfo(peer, 0, Finished));
        return;
      }
      var i, info := LocateBlock(piece, block);
      if info.state == Finished { return; }
      FinishKeeps(e, n, block, peer);
      var d := downloads[i].(finished := downloads[i].finished + 1,
                             writing := if info.state == Writing then downloads[i].writing - 1 else downloads[i].writing);
      DoneIs(downloads[i]);
      DoneIs(d);
      Progress(i, d, block, info.(peer := peer, state := Finished), info.state != Writing);
    }

    /** Writing a block failed; it becomes free again. */
    method WriteFailed(piece: int, block: int)
      requires Valid() && BlockOf(piece, block)
      requires piece in entries && entries[piece].blocks[block].state == Writing
      modifies this`pieces, this`bounds, this`pieceMap, this`downloads, this`blockInfo, this`entries
      ensures Valid()
      ensures var e := FailWrite(old(entries)[piece], block);
              entries == if e.Busy() == 0 then old(entries) - {piece} else old(entries)[piece := e]
      ensures Reindexed(old(pieceMap)[piece := old(pieceMap)[piece].(downloading := piece in entries)], pieceMap)
    {
      hide *;
      Parts();
      EntryIs(piece, block);
      ghost var n := BlocksInPiece(|pieceMap|, piece, blocksPerPiece, blocksInLastPiece);
      ghost var e := entries[piece];
      FailWriteIs(e, block);
      FailWriteKeeps(e, n, block);
      LiveIs(FailWrite(e, block), n);
      ReindexedSame(pieceMap, piece);
      var i, info := LocateBlock(piece, block);
      var d := downloads[i].(writing := downloads[i].writing - 1);
      if d.finished + d.writing + d.requested == 0 {
        Retire(i);
      } else {
        Progress(i, d, block, info.(peer := 0, state := Free), true);
      }
    }

    /** A request is rejected or its peer is gone. */
    method AbortDownload(piece: int, block: int)
      requires Valid() && BlockOf(piece, block)
      modifies this`pieces, this`bounds, this`pieceMap, this`downloads, this`blockInfo, this`entries
      ensures Valid()
      ensures var e := EntryOr(old(entries), piece, blocksPerPiece);
              entries == if e.blocks[block].state != Requested then old(entries)
                         else if Abort(e, block).Busy() == 0 then old(entries) - {piece}
                         else old(entries)[piece := Abort(e, block)]
      ensures Reindexed(old(pieceMap)[piece := old(pieceMap)[piece].(downloading := piece in entries)], pieceMap)
    {
      hide *;
      Parts();
      EntryIs(piece, block);
      ghost var n := BlocksInPiece(|pieceMap|, piece, blocksPerPiece, blocksInLastPiece);
      ReindexedSame(pieceMap, piece);
      if !pieceMap[piece].downloading { return; }
      ghost var e := entries[piece];
      var i, info := LocateBlock(piece, block);
      if info.state != Requested { return; }
      AbortIs(e, block);
      AbortKeeps(e, n, block);
      RequestedHasPeers(e, n, block);
      LiveIs(e, n);
      LiveIs(Abort(e, block), n);
      if info.numPeers > 1 {
        Progress(i, downloads[i], block, info.(numPeers := info.numPeers - 1), false);
        return;
      }
      var requested := downloads[i].requested - 1;
      if requested + downloads[i].finished + downloads[i].writing == 0 {
        Retire(i);
      } else {
        var d := downloads[i].(requested := requested, speed := if requested == 0 then NoSpeed else downloads[i].speed);
        SameDone(downloads[i], d);
        Progress(i, d, block, FRESH, false);
      }
    }

    /** A piece failed its hash check and becomes available again. */
    method RestorePiece(piece: int)
      requires Valid() && 0 <= piece < |pieceMap| && pieceMap[piece].downloading
      modifies this`pieces, this`bounds, this`pieceMap, this`downloads, this`blockInfo, this`entries
      ensures Valid() && entries == old(entries) - {piece}
      ensures Reindexed(old(pieceMap)[piece := old(pieceMap)[piece].(downloading := false)], pieceMap)
    {
      InStepAt(pieceMap, entries, blocksPerPiece, blocksInLastPiece, piece);
      var i := Locate(piece);
      Retire(i);
    }
  
    /** The record of one block; a piece not in progress has only fresh ones. */
    method BlockAt(piece: int, block: int) returns (b: BlockInfo)
      requires Valid() && BlockOf(piece, block)
      ensures b == EntryOr(entries, piece, blocksPerPiece).blocks[block]
    {
      InStepAt(pieceMap, entries, blocksPerPiece, blocksInLastPiece, piece);
      if !pieceMap[piece].downloading { return FRESH; }
      var i := Locate(piece);
      b := blockInfo[downloads[i].info - base + block];
    }
  }

  /** Of two pieces the second is filtered out and then cut off: the counters still count it. */
  method InitExample() returns (p: PiecePicker)
    ensures |p.pieceMap| == 1 && !p.pieceMap[0].Filtered() && p.numFiltered == 1 && !p.Valid()
  {
    hide *;
    p := new PiecePicker();
    FirstInit(p);
    p.Init(1, 1, 2);
    ghost var m := p.pieceMap;
    var _ := p.SetPiecePriority(1, 0);
    p.Parts();
    TalliedIs(p.pieceMap, p.cursor, p.reverseCursor, p.numHave, p.numFiltered, p.numHaveFiltered);
    SecondInit(m, p.pieceMap);
    m := p.pieceMap;
    p.Init(1, 1, 1);
    ResetIs(m, p.pieceMap);
  }

  lemma FirstInit(p: PiecePicker)
    requires p.Unset()
    ensures AllPacked(p.pieceMap) && p.numFiltered == CountFiltered(p.pieceMap, false) && p.numHaveFiltered == CountFiltered(p.pieceMap, true)
    ensures CutsNoFiltered(p.pieceMap, 2) && p.pieceMap == [] && 2 < WE_HAVE_INDEX && 0 < PRIORITY_LEVELS
  {
  }

  lemma SecondInit(m: PieceMap, m': PieceMap)
    requires ResetFrom([], m) && |m| == 2 && Reindexed(m[1 := m[1].(piecePriority := 0)], m')
    ensures AllPacked(m') && !CutsNoFiltered(m', 1) && CountFiltered(m', false) + CountFiltered(m', true) == 1
    ensures |m'| == 2 && m'[0].piecePriority == 1
  {
    assert m'[1].Filtered() && !m'[0].Filtered();
    var a := m'[..1];
    assert m'[..|m'| - 1] == a;
    NoneFiltered(a, false);
    NoneFiltered(a, true);
  }

  lemma NoneFiltered(m: PieceMap, had: bool)
    requires |m| == 1 && !m[0].Filtered()
    ensures CountFiltered(m, had) == 0
  {
    assert m[..0] == [];
    assert CountFiltered([], had) == 0;
  }

  lemma ResetIs(m: PieceMap, m': PieceMap)
    requires ResetFrom(m, m') && |m| == 2 && |m'| == 1 && m[0].piecePriority == 1
    ensures !m'[0].Filtered()
  {
  }
}
