/** The download queue: entries kept in descending order of completed blocks,
    each pointing to its own group of block records inside one shared vector.
    Addresses are integers; `base` is the address of the first record, and
    growing the vector may move it anywhere. */
module Queue {
  import opened Lists
  import opened PickerTypes
  import opened Blocks
  import opened Buckets

  datatype DownloadingPiece = DownloadingPiece(speed: Speed, index: int, info: int,
                                               finished: int, writing: int, requested: int)
  {
    function Done(): int {
      finished + writing
    }
  }

  type Downloads = seq<DownloadingPiece>

  // --------------------------------------------------------------- slots

  function Slot(address: int, base: int, bpp: int): int
    requires bpp > 0
  {
    (address - base) / bpp
  }

  /** The address is the start of one of the first `n` groups of `bpp` records. */
  ghost predicate OnSlot(address: int, base: int, bpp: int, n: int)
    requires bpp > 0
  {
    0 <= Slot(address, base, bpp) < n && address == base + Slot(address, base, bpp) * bpp
  }

  /** The entries own the first `|dl|` groups, one each. */
  ghost predicate Slotted(dl: Downloads, size: int, base: int, bpp: int) {
    && bpp > 0 && |dl| * bpp <= size
    && (forall i :: 0 <= i < |dl| ==> OnSlot(dl[i].info, base, bpp, |dl|))
    && (forall i, j :: 0 <= i < j < |dl| ==> dl[i].info != dl[j].info)
  }

  lemma MulMono(a: int, b: int, c: int)
    requires a <= b && 0 <= c
    ensures a * c <= b * c
  {
    assert (b - a) * c >= 0;
  }

  lemma SlotAddress(s: int, base: int, bpp: int)
    requires bpp > 0
    ensures Slot(base + s * bpp, base, bpp) == s
  {
    var a := s * bpp;
    var q, r := a / bpp, a % bpp;
    assert a == bpp * q + r;
    if q < s { MulMono(q + 1, s, bpp); }
    if s < q { MulMono(s + 1, q, bpp); }
  }

  lemma OnSlotFits(address: int, base: int, bpp: int, n: int, size: int)
    requires bpp > 0 && OnSlot(address, base, bpp, n) && n * bpp <= size
    ensures 0 <= address - base && address - base + bpp <= size
  {
    var s := Slot(address, base, bpp);
    MulMono(0, s, bpp);
    MulMono(s + 1, n, bpp);
  }

  /** Each of the first `|dl|` groups has an owner: the slots are a permutation. */
  lemma SlotOwned(dl: Downloads, size: int, base: int, bpp: int, s: int) returns (i: int)
    requires Slotted(dl, size, base, bpp) && 0 <= s < |dl|
    ensures 0 <= i < |dl| && dl[i].info == base + s * bpp
  {
    var slots := seq(|dl|, i requires 0 <= i < |dl| => Slot(dl[i].info, base, bpp));
    forall i | 0 <= i < |slots| ensures 0 <= slots[i] < |dl| && dl[i].info == base + slots[i] * bpp {
      assert OnSlot(dl[i].info, base, bpp, |dl|);
    }
    DistinctCardinality(slots);
    RangeCardinality(Members(slots) + {s}, |dl|);
    assert s !in Members(slots) ==> |Members(slots) + {s}| == |Members(slots)| + 1;
    i :| 0 <= i < |slots| && slots[i] == s;
  }

  // ---------------------------------------------------------- abstraction

  ghost predicate Fits(d: DownloadingPiece, size: int, base: int, bpp: int) {
    0 <= d.info - base && 0 <= bpp && d.info - base + bpp <= size
  }

  ghost function EntryOf(d: DownloadingPiece, info: seq<BlockInfo>, base: int, bpp: int): (e: Entry)
    requires Fits(d, |info|, base, bpp)
  {
    Entry(d.speed, d.finished, d.writing, d.requested, info[d.info - base..d.info - base + bpp])
  }

  ghost predicate Apart(d: DownloadingPiece, e: DownloadingPiece, bpp: int) {
    d.index != e.index && (d.info + bpp <= e.info || e.info + bpp <= d.info)
  }

  ghost predicate Queued(dl: Downloads, p: int) {
    exists i :: 0 <= i < |dl| && dl[i].index == p
  }

  ghost predicate Spread(dl: Downloads, bpp: int) {
    forall i, j :: 0 <= i < |dl| && 0 <= j < |dl| && i != j ==> Apart(dl[i], dl[j], bpp)
  }

  /** Entry `d` of the queue shows what `v` says about its piece. */
  ghost predicate Shows(d: DownloadingPiece, info: seq<BlockInfo>, base: int, bpp: int, v: map<int, Entry>) {
    Fits(d, |info|, base, bpp) && d.index in v && v[d.index] == EntryOf(d, info, base, bpp)
  }

  ghost predicate Covers(dl: Downloads, v: map<int, Entry>) {
    forall p :: p in v ==> Queued(dl, p)
  }

  /** The queue stores exactly the entries of `v`, keyed by piece. */
  ghost predicate Represents(dl: Downloads, info: seq<BlockInfo>, base: int, bpp: int, v: map<int, Entry>) {
    && Slotted(dl, |info|, base, bpp)
    && Spread(dl, bpp)
    && (forall i :: 0 <= i < |dl| ==> Shows(dl[i], info, base, bpp, v))
    && Covers(dl, v)
  }

  lemma RepresentsIs(dl: Downloads, info: seq<BlockInfo>, base: int, bpp: int, v: map<int, Entry>)
    ensures Represents(dl, info, base, bpp, v) <==>
              Slotted(dl, |info|, base, bpp) && Spread(dl, bpp) && (forall i :: 0 <= i < |dl| ==> Shows(dl[i], info, base, bpp, v)) && Covers(dl, v)
  {
    hide Slotted, Spread, Shows, Covers;
  }

  lemma SlotSize(dl: Downloads, size: int, base: int, bpp: int)
    requires Slotted(dl, size, base, bpp)
    ensures bpp > 0
  {
  }

  lemma SpreadAt(dl: Downloads, bpp: int, i: int, j: int)
    requires Spread(dl, bpp) && 0 <= i < |dl| && 0 <= j < |dl| && i != j
    ensures dl[i].index != dl[j].index && (dl[i].info + bpp <= dl[j].info || dl[j].info + bpp <= dl[i].info)
  {
    assert Apart(dl[i], dl[j], bpp);
  }

  lemma ShowsIs(d: DownloadingPiece, info: seq<BlockInfo>, base: int, bpp: int, v: map<int, Entry>)
    requires Shows(d, info, base, bpp, v)
    ensures d.index in v && 0 <= d.info - base && 0 <= bpp && d.info - base + bpp <= |info|
  {
  }

  lemma ShowsSame(d: DownloadingPiece, info: seq<BlockInfo>, base: int, bpp: int, v: map<int, Entry>, v': map<int, Entry>)
    requires Shows(d, info, base, bpp, v) && d.index in v' && v'[d.index] == v[d.index]
    ensures Shows(d, info, base, bpp, v')
  {
  }

  ghost predicate Descending(dl: Downloads) {
    forall i, j :: 0 <= i < j < |dl| ==> dl[i].Done() >= dl[j].Done()
  }

  method FindPiece(dl: Downloads, index: int) returns (i: int)
    ensures 0 <= i <= |dl|
    ensures i < |dl| ==> dl[i].index == index
    ensures i == |dl| <==> !Queued(dl, index)
  {
    i := 0;
    while i < |dl| && dl[i].index != index
      invariant 0 <= i <= |dl| && forall j :: 0 <= j < i ==> dl[j].index != index
    {
      i := i + 1;
    }
  }

  // ------------------------------------------------------------ updating

  lemma OtherGroup(info: seq<BlockInfo>, o: int, bpp: int, at: int, b: BlockInfo)
    requires 0 <= o <= o + bpp <= |info| && 0 <= at < |info|
    ensures !(o <= at < o + bpp) ==> info[at := b][o..o + bpp] == info[o..o + bpp]
    ensures o <= at < o + bpp ==> info[at := b][o..o + bpp] == info[o..o + bpp][at - o := b]
  {
  }

  lemma RewriteElsewhere(o: DownloadingPiece, info: seq<BlockInfo>, base: int, bpp: int, v: map<int, Entry>,
                         p: int, e: Entry, at: int, b: BlockInfo)
    requires Shows(o, info, base, bpp, v) && o.index != p
    requires 0 <= at < |info| && !(o.info - base <= at < o.info - base + bpp)
    ensures Shows(o, info[at := b], base, bpp, v[p := e])
  {
    OtherGroup(info, o.info - base, bpp, at, b);
  }

  lemma RewriteHere(o: DownloadingPiece, info: seq<BlockInfo>, base: int, bpp: int, v: map<int, Entry>,
                    d: DownloadingPiece, k: int, b: BlockInfo)
    requires Shows(o, info, base, bpp, v) && o.index == d.index && o.info == d.info && 0 <= k < bpp
    ensures |v[d.index].blocks| == bpp && v[d.index].blocks[k] == info[d.info - base + k]
    ensures Shows(d, info[d.info - base + k := b], base, bpp,
                  v[d.index := Entry(d.speed, d.finished, d.writing, d.requested, v[d.index].blocks[k := b])])
  {
    OtherGroup(info, o.info - base, bpp, d.info - base + k, b);
  }

  /** The same pieces are queued when only other fields of one entry change. */
  lemma StillCovers(dl: Downloads, v: map<int, Entry>, i: int, d: DownloadingPiece, e: Entry)
    requires Covers(dl, v) && 0 <= i < |dl| && d.index == dl[i].index
    ensures Covers(dl[i := d], v[d.index := e])
  {
    var dl' := dl[i := d];
    forall p | p in v[d.index := e] ensures Queued(dl', p) {
      if p == d.index {
        assert dl'[i].index == p;
      } else {
        assert Queued(dl, p);
        var j :| 0 <= j < |dl| && dl[j].index == p;
        assert dl'[j].index == p;
      }
    }
  }

  /** Rewriting the counters and one block record of entry `i` changes that
      entry and no other. */
  lemma Rewrite(dl: Downloads, info: seq<BlockInfo>, base: int, bpp: int, v: map<int, Entry>,
                i: int, d: DownloadingPiece, k: int, b: BlockInfo)
    requires Represents(dl, info, base, bpp, v) && 0 <= i < |dl| && 0 <= k < bpp
    requires d.index == dl[i].index && d.info == dl[i].info
    ensures d.index in v && 0 <= d.info - base + k < |info| && |v[d.index].blocks| == bpp
    ensures v[d.index].blocks[k] == info[d.info - base + k]
    ensures Represents(dl[i := d], info[d.info - base + k := b], base, bpp,
                       v[d.index := Entry(d.speed, d.finished, d.writing, d.requested, v[d.index].blocks[k := b])])
  {
    assert Shows(dl[i], info, base, bpp, v);
    var at := d.info - base + k;
    var dl', info' := dl[i := d], info[at := b];
    var e := Entry(d.speed, d.finished, d.writing, d.requested, v[d.index].blocks[k := b]);
    assert Slotted(dl', |info'|, base, bpp);
    StillCovers(dl, v, i, d, e);
    hide Slotted, Covers, Queued, OnSlot, EntryOf;
    assert Spread(dl', bpp) by {
      forall j, l | 0 <= j < |dl'| && 0 <= l < |dl'| && j != l ensures Apart(dl'[j], dl'[l], bpp) {
        assert Apart(dl[j], dl[l], bpp);
      }
    }
    forall j | 0 <= j < |dl'| ensures Shows(dl'[j], info', base, bpp, v[d.index := e]) {
      assert Shows(dl[j], info, base, bpp, v);
      if j != i {
        assert Apart(dl[j], dl[i], bpp);
        RewriteElsewhere(dl[j], info, base, bpp, v, d.index, e, at, b);
      } else {
        RewriteHere(dl[i], info, base, bpp, v, d, k, b);
      }
    }
  }

  // ------------------------------------------------------------- sorting

  function Swapped(dl: Downloads, i: int, j: int): Downloads
    requires 0 <= i < |dl| && 0 <= j < |dl|
  {
    dl[i := dl[j]][j := dl[i]]
  }

  lemma SwapKeeps(dl: Downloads, info: seq<BlockInfo>, base: int, bpp: int, v: map<int, Entry>, i: int, j: int)
    requires Represents(dl, info, base, bpp, v) && 0 <= i < |dl| && 0 <= j < |dl|
    ensures Represents(Swapped(dl, i, j), info, base, bpp, v)
  {
    SwapSpread(dl, bpp, i, j);
    var dl' := Swapped(dl, i, j);
    forall k | 0 <= k < |dl'| ensures Shows(dl'[k], info, base, bpp, v) && OnSlot(dl'[k].info, base, bpp, |dl'|) {
      var k' := if k == i then j else if k == j then i else k;
      assert Shows(dl[k'], info, base, bpp, v) && OnSlot(dl[k'].info, base, bpp, |dl|);
    }
    forall p | p in v ensures Queued(dl', p) {
      assert Queued(dl, p);
      var k :| 0 <= k < |dl| && dl[k].index == p;
      assert dl'[if k == i then j else if k == j then i else k].index == p;
    }
  }

  lemma SwapSpread(dl: Downloads, bpp: int, i: int, j: int)
    requires Spread(dl, bpp) && bpp > 0 && 0 <= i < |dl| && 0 <= j < |dl|
    ensures var dl' := Swapped(dl, i, j);
            Spread(dl', bpp) && forall k, l :: 0 <= k < l < |dl'| ==> dl'[k].info != dl'[l].info
  {
    var dl' := Swapped(dl, i, j);
    forall k, l | 0 <= k < |dl'| && 0 <= l < |dl'| && k != l ensures Apart(dl'[k], dl'[l], bpp) {
      var k', l' := if k == i then j else if k == j then i else k, if l == i then j else if l == j then i else l;
      assert Apart(dl[k'], dl[l'], bpp);
    }
    forall k, l | 0 <= k < l < |dl'| ensures dl'[k].info != dl'[l].info {
      assert Apart(dl'[k], dl'[l], bpp);
    }
  }

  /** Everything but position `i` is in descending order. */
  ghost predicate DescendingBut(dl: Downloads, i: int) {
    forall a, b :: 0 <= a < b < |dl| && a != i && b != i ==> dl[a].Done() >= dl[b].Done()
  }

  /** Passing a neighbour that belongs on the other side keeps the rest in order. */
  lemma PassNeighbour(dl: Downloads, i: int, j: int)
    requires DescendingBut(dl, i) && 0 <= i < |dl| && 0 <= j < |dl| && (j == i - 1 || j == i + 1)
    ensures DescendingBut(Swapped(dl, i, j), j)
  {
    var dl' := Swapped(dl, i, j);
    forall a, b | 0 <= a < b < |dl'| && a != j && b != j ensures dl'[a].Done() >= dl'[b].Done() {
      var a', b' := if a == i then j else a, if b == i then j else b;
      assert dl[a'].Done() >= dl[b'].Done();
    }
  }

  /** Moves one entry left and then right until the queue is in order again. */
  method SortPiece(dl0: Downloads, at: int, ghost info: seq<BlockInfo>, ghost base: int, ghost bpp: int, ghost v: map<int, Entry>)
    returns (dl: Downloads)
    requires Represents(dl0, info, base, bpp, v)
    requires 0 <= at < |dl0| && DescendingBut(dl0, at)
    ensures Represents(dl, info, base, bpp, v) && Descending(dl) && |dl| == |dl0|
  {
    hide Represents, DescendingBut, Descending;
    dl := dl0;
    var i := at;
    var complete := dl[i].Done();
    while i != 0 && dl[i - 1].Done() < complete
      invariant 0 <= i <= at < |dl| == |dl0| && dl[i].Done() == complete
      invariant Represents(dl, info, base, bpp, v) && DescendingBut(dl, i)
      invariant i < at ==> dl[i + 1].Done() <= complete
    {
      SwapKeeps(dl, info, base, bpp, v, i, i - 1);
      PassNeighbour(dl, i, i - 1);
      dl := Swapped(dl, i, i - 1);
      i := i - 1;
    }
    assert i > 0 ==> dl[i - 1].Done() >= complete;
    while i != |dl| - 1 && dl[i + 1].Done() > complete
      invariant 0 <= i < |dl| == |dl0| && dl[i].Done() == complete
      invariant Represents(dl, info, base, bpp, v) && DescendingBut(dl, i)
      invariant i > 0 ==> dl[i - 1].Done() >= complete
    {
      SwapKeeps(dl, info, base, bpp, v, i, i + 1);
      PassNeighbour(dl, i, i + 1);
      dl := Swapped(dl, i, i + 1);
      i := i + 1;
    }
    InOrderAgain(dl, i);
  }

  lemma InOrderAgain(dl: Downloads, i: int)
    requires DescendingBut(dl, i) && 0 <= i < |dl|
    requires i > 0 ==> dl[i - 1].Done() >= dl[i].Done()
    requires i < |dl| - 1 ==> dl[i].Done() >= dl[i + 1].Done()
    ensures Descending(dl)
  {
    forall a, b | 0 <= a < b < |dl| ensures dl[a].Done() >= dl[b].Done() {
      if b == i { assert a < i - 1 ==> dl[a].Done() >= dl[i - 1].Done(); }
      if a == i { assert i + 1 < b ==> dl[i + 1].Done() >= dl[b].Done(); }
    }
  }

  // -------------------------------------------------------------- adding

  /** Appends an entry with a fresh group of records, growing the shared vector
      when needed; growing may move the vector, and then every pointer into it
      is rebased. */
  method AddDownloadPiece(dl0: Downloads, info0: seq<BlockInfo>, base0: int, bpp: int, index: int, ghost v: map<int, Entry>)
    returns (dl: Downloads, info: seq<BlockInfo>, base: int)
    requires Represents(dl0, info0, base0, bpp, v) && index !in v
    ensures |dl| == |dl0| + 1
    ensures dl[|dl0|] == DownloadingPiece(NoSpeed, index, base + |dl0| * bpp, 0, 0, 0)
    ensures forall i :: 0 <= i < |dl0| ==> dl[i] == dl0[i].(info := dl[i].info)
    ensures Represents(dl, info, base, bpp, v[index := Blank(bpp)])
  {
    dl, info, base := dl0, info0, base0;
    var blockIndex := |dl| * bpp;
    MulMono(0, |dl|, bpp);
    if |info| < blockIndex + bpp {
      info := info + seq(blockIndex + bpp - |info|, _ => FRESH);
      base :| true;
      if |dl| > 0 && base != base0 {
        for i := 0 to |dl|
          invariant |dl| == |dl0|
          invariant forall j :: 0 <= j < i ==> dl[j] == dl0[j].(info := base + (dl0[j].info - base0))
          invariant forall j :: i <= j < |dl| ==> dl[j] == dl0[j]
        {
          dl := dl[i := dl[i].(info := base + (dl[i].info - base0))];
        }
      }
    }
    ghost var moved := dl;
    dl := dl + [DownloadingPiece(NoSpeed, index, base + blockIndex, 0, 0, 0)];
    ghost var grown := info;
    for i := 0 to bpp
      invariant |info| == |grown| && info[..blockIndex] == grown[..blockIndex]
      invariant forall j :: blockIndex <= j < blockIndex + i ==> info[j] == FRESH
    {
      info := info[blockIndex + i := FRESH];
      assert info[..blockIndex] == grown[..blockIndex];
    }
    assert info[..blockIndex] == info0[..blockIndex];
    AddedSlots(dl0, |info0|, base0, bpp, dl, |info|, base);
    forall j | 0 <= j < |dl0| ensures dl0[j].info - base0 + bpp <= blockIndex {
      EarlierGroup(dl0, info0, base0, bpp, v, j);
    }
    AddedRepresents(dl0, info0, base0, bpp, v, dl, info, base, index, blockIndex);
  }

  /** Every earlier group lies below `m`, and the new one is fresh at `m`. */
  lemma AddedRepresents(dl0: Downloads, info0: seq<BlockInfo>, base0: int, bpp: int, v: map<int, Entry>,
                        dl: Downloads, info: seq<BlockInfo>, base: int, index: int, m: int)
    requires Represents(dl0, info0, base0, bpp, v) && index !in v
    requires Slotted(dl, |info|, base, bpp) && |dl| == |dl0| + 1
    requires forall j :: 0 <= j < |dl0| ==>
               dl[j] == dl0[j].(info := base + (dl0[j].info - base0)) && dl0[j].info - base0 + bpp <= m
    requires dl[|dl0|] == DownloadingPiece(NoSpeed, index, base + m, 0, 0, 0)
    requires 0 <= m && m + bpp <= |info| && m <= |info0| && info[..m] == info0[..m]
    requires forall j :: m <= j < m + bpp ==> info[j] == FRESH
    ensures Represents(dl, info, base, bpp, v[index := Blank(bpp)])
  {
    hide *;
    RepresentsIs(dl0, info0, base0, bpp, v);
    SlotSize(dl0, |info0|, base0, bpp);
    var n, v' := |dl0|, v[index := Blank(bpp)];
    RepresentsIs(dl, info, base, bpp, v');
    forall i | 0 <= i < n ensures dl0[i].index != index { ShowsIs(dl0[i], info0, base0, bpp, v); }
    AddedCovers(dl0, v, dl, index, Blank(bpp));
    AddedSpread(dl0, base0, bpp, dl, base, m);
    forall i | 0 <= i < |dl| ensures Shows(dl[i], info, base, bpp, v') {
      if i < n {
        ShowsIs(dl0[i], info0, base0, bpp, v);
        RebasedShows(dl0[i], info0, base0, bpp, v, info, base, v', m);
      } else {
        FreshShows(dl[i], info, base, bpp, v', m);
      }
    }
  }

  lemma RebasedShows(d: DownloadingPiece, info0: seq<BlockInfo>, base0: int, bpp: int, v: map<int, Entry>,
                     info: seq<BlockInfo>, base: int, v': map<int, Entry>, m: int)
    requires Shows(d, info0, base0, bpp, v) && d.index in v' && v'[d.index] == v[d.index] && d.info - base0 + bpp <= m
    requires 0 <= m <= |info0| && m <= |info| && info[..m] == info0[..m]
    ensures Shows(d.(info := base + (d.info - base0)), info, base, bpp, v')
  {
    SameGroup(info0, info, m, d.info - base0, bpp);
  }

  lemma FreshShows(d: DownloadingPiece, info: seq<BlockInfo>, base: int, bpp: int, v: map<int, Entry>, m: int)
    requires d == DownloadingPiece(NoSpeed, d.index, base + m, 0, 0, 0) && d.index in v && bpp >= 0 && v[d.index] == Blank(bpp)
    requires 0 <= m && m + bpp <= |info| && forall j :: m <= j < m + bpp ==> info[j] == FRESH
    ensures Shows(d, info, base, bpp, v)
  {
    assert info[m..m + bpp] == seq(bpp, _ => FRESH);
  }

  lemma AddedSpread(dl0: Downloads, base0: int, bpp: int, dl: Downloads, base: int, m: int)
    requires Spread(dl0, bpp) && |dl| == |dl0| + 1
    requires forall j :: 0 <= j < |dl0| ==>
               dl[j] == dl0[j].(info := base + (dl0[j].info - base0)) && dl0[j].info - base0 + bpp <= m
    requires dl[|dl0|].info == base + m
    requires forall j :: 0 <= j < |dl0| ==> dl0[j].index != dl[|dl0|].index
    ensures Spread(dl, bpp)
  {
    forall i, j | 0 <= i < |dl| && 0 <= j < |dl| && i != j ensures Apart(dl[i], dl[j], bpp) {
      if i < |dl0| && j < |dl0| { assert Apart(dl0[i], dl0[j], bpp); }
    }
  }

  lemma AddedCovers(dl0: Downloads, v: map<int, Entry>, dl: Downloads, index: int, e: Entry)
    requires Covers(dl0, v) && |dl| == |dl0| + 1 && dl[|dl0|].index == index
    requires forall j :: 0 <= j < |dl0| ==> dl[j].index == dl0[j].index
    ensures Covers(dl, v[index := e])
  {
    forall p | p in v[index := e] ensures Queued(dl, p) {
      if p == index { assert dl[|dl0|].index == p; }
      else {
        assert Queued(dl0, p);
        var j :| 0 <= j < |dl0| && dl0[j].index == p;
        assert dl[j].index == p;
      }
    }
  }

  lemma SameGroup(info0: seq<BlockInfo>, info: seq<BlockInfo>, m: int, o: int, bpp: int)
    requires 0 <= o <= o + bpp <= m <= |info0| && m <= |info| && info[..m] == info0[..m]
    ensures info[o..o + bpp] == info0[o..o + bpp]
  {
    assert info[..m][o..o + bpp] == info0[..m][o..o + bpp];
    assert info[o..o + bpp] == info[..m][o..o + bpp] && info0[o..o + bpp] == info0[..m][o..o + bpp];
  }

  lemma AddedSlots(dl0: Downloads, size0: int, base0: int, bpp: int, dl: Downloads, size: int, base: int)
    requires Slotted(dl0, size0, base0, bpp) && |dl| == |dl0| + 1
    requires forall j :: 0 <= j < |dl0| ==> dl[j] == dl0[j].(info := base + (dl0[j].info - base0))
    requires dl[|dl0|].info == base + |dl0| * bpp && |dl0| * bpp + bpp <= size
    ensures Slotted(dl, size, base, bpp)
  {
    var n := |dl0|;
    assert |dl| * bpp == n * bpp + bpp;
    forall i | 0 <= i < |dl| ensures OnSlot(dl[i].info, base, bpp, |dl|)
      ensures i < n ==> dl[i].info + bpp <= dl[n].info {
      if i < n {
        assert OnSlot(dl0[i].info, base0, bpp, n);
        OnSlotFits(dl0[i].info, base0, bpp, n, n * bpp);
        SlotMoves(dl0[i].info, base0, base, bpp, n);
      } else {
        SlotAddress(n, base, bpp);
      }
    }
    hide OnSlot, Slot;
    forall i, j | 0 <= i < j < |dl| ensures dl[i].info != dl[j].info {
      if j < n { assert dl0[i].info != dl0[j].info; }
    }
  }

  lemma SlotMoves(address: int, base0: int, base: int, bpp: int, n: int)
    requires bpp > 0 && OnSlot(address, base0, bpp, n)
    ensures OnSlot(base + (address - base0), base, bpp, n + 1)
  {
  }

  lemma EarlierGroup(dl: Downloads, info: seq<BlockInfo>, base: int, bpp: int, v: map<int, Entry>, i: int)
    requires Represents(dl, info, base, bpp, v) && 0 <= i < |dl|
    ensures 0 <= dl[i].info - base && dl[i].info - base + bpp <= |dl| * bpp && Shows(dl[i], info, base, bpp, v)
  {
    assert OnSlot(dl[i].info, base, bpp, |dl|);
    OnSlotFits(dl[i].info, base, bpp, |dl|, |dl| * bpp);
  }

  // ------------------------------------------------------------- erasing

  method FindInfo(dl: Downloads, address: int) returns (i: int)
    requires exists j :: 0 <= j < |dl| && dl[j].info == address
    ensures 0 <= i < |dl| && dl[i].info == address
  {
    i := 0;
    while dl[i].info != address
      invariant 0 <= i < |dl| && forall j :: 0 <= j < i ==> dl[j].info != address
      decreases |dl| - i
    {
      i := i + 1;
    }
  }

  /** Copies a group of records over another. */
  function CopyGroup(info: seq<BlockInfo>, from: int, to: int, bpp: int): (r: seq<BlockInfo>)
    requires 0 <= from && 0 <= to && 0 <= bpp && from + bpp <= |info| && to + bpp <= |info|
    ensures |r| == |info|
  {
    info[..to] + info[from..from + bpp] + info[to + bpp..]
  }

  /** Drops entry `i`: the group at the end is moved into the freed group, so the
      groups stay compact. */
  method EraseDownloadPiece(dl0: Downloads, info0: seq<BlockInfo>, base: int, bpp: int, i: int, ghost v: map<int, Entry>)
    returns (dl: Downloads, info: seq<BlockInfo>)
    requires Represents(dl0, info0, base, bpp, v) && 0 <= i < |dl0|
    ensures Represents(dl, info, base, bpp, v - {dl0[i].index})
    ensures |dl| == |dl0| - 1
    ensures forall j :: 0 <= j < |dl| ==> var d := dl0[if j < i then j else j + 1]; dl[j] == d.(info := dl[j].info)
  {
    dl, info := dl0, info0;
    ghost var last := SlotOwned(dl, |info|, base, bpp, |dl| - 1);
    var other := FindInfo(dl, base + (|dl| - 1) * bpp);
    assert Shows(dl[i], info, base, bpp, v) && Shows(dl[other], info, base, bpp, v);
    if i != other {
      info := CopyGroup(info, dl[other].info - base, dl[i].info - base, bpp);
      dl := dl[other := dl[other].(info := dl[i].info)];
    }
    dl := Without(dl, i);
    ErasedSlots(dl0, |info0|, base, bpp, i, other, dl);
    ErasedRepresents(dl0, info0, base, bpp, v, i, other, dl, info);
  }

  lemma CopiedGroup(info: seq<BlockInfo>, from: int, to: int, bpp: int, o: int)
    requires 0 <= from && 0 <= to && 0 <= bpp && from + bpp <= |info| && to + bpp <= |info|
    requires 0 <= o && o + bpp <= |info| && (o == to || o + bpp <= to || to + bpp <= o)
    ensures var r := CopyGroup(info, from, to, bpp);
            r[o..o + bpp] == if o == to then info[from..from + bpp] else info[o..o + bpp]
  {
  }

  lemma ErasedSlots(dl0: Downloads, size: int, base: int, bpp: int, i: int, other: int, dl: Downloads)
    requires Slotted(dl0, size, base, bpp) && 0 <= i < |dl0| && 0 <= other < |dl0|
    requires dl0[other].info == base + (|dl0| - 1) * bpp
    requires dl == Without(if i == other then dl0 else dl0[other := dl0[other].(info := dl0[i].info)], i)
    ensures Slotted(dl, size, base, bpp)
  {
    var n := |dl0| - 1;
    assert n * bpp <= |dl0| * bpp by { MulMono(n, |dl0|, bpp); }
    SlotAddress(n, base, bpp);
    forall j | 0 <= j < |dl| ensures OnSlot(dl[j].info, base, bpp, n) {
      var k := if j < i then j else j + 1;
      var owner := if k == other && i != other then i else k;
      assert dl[j].info == dl0[owner].info && owner != other;
      assert OnSlot(dl0[owner].info, base, bpp, |dl0|);
      assert dl0[owner].info != dl0[other].info;
    }
    forall j, l | 0 <= j < l < |dl| ensures dl[j].info != dl[l].info {
      var a, b := if j < i then j else j + 1, if l < i then l else l + 1;
      var a', b' := if a == other && i != other then i else a, if b == other && i != other then i else b;
      assert dl0[a'].info != dl0[b'].info;
    }
  }

  /** A surviving entry still shows the same blocks after the move, also when it
      is the one whose group was moved. */
  lemma MovedShows(d: DownloadingPiece, info: seq<BlockInfo>, base: int, bpp: int, v: map<int, Entry>, v': map<int, Entry>,
                   from: int, to: int)
    requires Shows(d, info, base, bpp, v) && d.index in v' && v'[d.index] == v[d.index]
    requires d.info + bpp <= to || to + bpp <= d.info
    requires base <= from && from - base + bpp <= |info| && base <= to && to - base + bpp <= |info| && 0 <= bpp
    ensures var info' := CopyGroup(info, from - base, to - base, bpp);
            && Shows(d, info', base, bpp, v')
            && (d.info == from ==> Shows(d.(info := to), info', base, bpp, v'))
  {
    hide *;
    ShowsIs(d, info, base, bpp, v);
    var info' := CopyGroup(info, from - base, to - base, bpp);
    CopiedGroup(info, from - base, to - base, bpp, d.info - base);
    CopiedGroup(info, from - base, to - base, bpp, to - base);
    ShowsGroup(d, d, info, info', base, bpp, v, v');
    if d.info == from { ShowsGroup(d, d.(info := to), info, info', base, bpp, v, v'); }
  }

  lemma ShowsGroup(d: DownloadingPiece, d': DownloadingPiece, info: seq<BlockInfo>, info': seq<BlockInfo>, base: int, bpp: int,
                   v: map<int, Entry>, v': map<int, Entry>)
    requires Shows(d, info, base, bpp, v) && d.index in v' && v'[d.index] == v[d.index] && d' == d.(info := d'.info)
    requires 0 <= d.info - base && 0 <= d'.info - base && 0 <= bpp && d.info - base + bpp <= |info| && d'.info - base + bpp <= |info'|
    requires info'[d'.info - base..d'.info - base + bpp] == info[d.info - base..d.info - base + bpp]
    ensures Shows(d', info', base, bpp, v')
  {
  }

  lemma ErasedRepresents(dl0: Downloads, info0: seq<BlockInfo>, base: int, bpp: int, v: map<int, Entry>,
                         i: int, other: int, dl: Downloads, info: seq<BlockInfo>)
    requires Represents(dl0, info0, base, bpp, v) && 0 <= i < |dl0| && 0 <= other < |dl0|
    requires Slotted(dl, |info|, base, bpp)
    requires Fits(dl0[i], |info0|, base, bpp) && Fits(dl0[other], |info0|, base, bpp)
    requires dl == Without(if i == other then dl0 else dl0[other := dl0[other].(info := dl0[i].info)], i)
    requires info == if i == other then info0 else CopyGroup(info0, dl0[other].info - base, dl0[i].info - base, bpp)
    ensures Represents(dl, info, base, bpp, v - {dl0[i].index})
  {
    hide *;
    var v' := v - {dl0[i].index};
    RepresentsIs(dl0, info0, base, bpp, v);
    RepresentsIs(dl, info, base, bpp, v');
    ErasedSpread(dl0, bpp, i, other, dl);
    ErasedCovers(dl0, v, i, other, dl);
    forall j | 0 <= j < |dl| ensures Shows(dl[j], info, base, bpp, v') {
      var a := if j < i then j else j + 1;
      SpreadAt(dl0, bpp, a, i);
      ShowsIs(dl0[a], info0, base, bpp, v);
      ShowsIs(dl0[i], info0, base, bpp, v);
      ShowsIs(dl0[other], info0, base, bpp, v);
      if i != other {
        MovedShows(dl0[a], info0, base, bpp, v, v', dl0[other].info, dl0[i].info);
      } else {
        ShowsSame(dl0[a], info0, base, bpp, v, v');
      }
    }
  }

  lemma ErasedSpread(dl0: Downloads, bpp: int, i: int, other: int, dl: Downloads)
    requires Spread(dl0, bpp) && 0 <= i < |dl0| && 0 <= other < |dl0|
    requires dl == Without(if i == other then dl0 else dl0[other := dl0[other].(info := dl0[i].info)], i)
    ensures Spread(dl, bpp)
  {
    forall j, l | 0 <= j < |dl| && 0 <= l < |dl| && j != l ensures Apart(dl[j], dl[l], bpp) {
      var a, b := if j < i then j else j + 1, if l < i then l else l + 1;
      assert Apart(dl0[a], dl0[b], bpp) && Apart(dl0[i], dl0[a], bpp) && Apart(dl0[i], dl0[b], bpp);
    }
  }

  lemma ErasedCovers(dl0: Downloads, v: map<int, Entry>, i: int, other: int, dl: Downloads)
    requires Covers(dl0, v) && 0 <= i < |dl0| && 0 <= other < |dl0|
    requires dl == Without(if i == other then dl0 else dl0[other := dl0[other].(info := dl0[i].info)], i)
    ensures Covers(dl, v - {dl0[i].index})
  {
    forall p | p in v - {dl0[i].index} ensures Queued(dl, p) {
      assert Queued(dl0, p);
      var a :| 0 <= a < |dl0| && dl0[a].index == p;
      assert dl[if a < i then a else a - 1].index == p;
    }
  }
}
