/** The full rebuild of the buckets, `piece_picker::update_pieces`: a counting
    sort by priority followed by a shuffle of every bucket. */
module Rebuild {
  import opened PickerTypes
  import opened Buckets

  /** How many of the first `i` pieces have priority `k`. */
  function Rank(prio: seq<int>, i: int, k: int): (r: nat)
    requires 0 <= i <= |prio|
  {
    if i == 0 then 0 else Rank(prio, i - 1, k) + if prio[i - 1] == k then 1 else 0
  }

  lemma {:induction false} RankGrows(prio: seq<int>, i: int, j: int, k: int)
    requires 0 <= i <= j <= |prio|
    ensures Rank(prio, i, k) <= Rank(prio, j, k)
    ensures i < j && prio[i] == k ==> Rank(prio, i, k) < Rank(prio, j, k)
    decreases j
  {
    if i < j { RankGrows(prio, i, j - 1, k); }
  }

  /** Among the pieces of one priority, the rank identifies the piece. */
  lemma RankInjective(prio: seq<int>, p: int, q: int)
    requires 0 <= p < |prio| && 0 <= q < |prio| && prio[p] == prio[q]
    requires Rank(prio, p, prio[p]) == Rank(prio, q, prio[q])
    ensures p == q
  {
    var lo, hi := if p < q then p else q, if p < q then q else p;
    RankGrows(prio, lo, hi, prio[p]);
  }

  /** Every bucket holds only pieces of its priority, none twice, and none is missing. */
  ghost predicate Grouped(list: seq<int>, ends: seq<int>, prio: seq<int>) {
    && |ends| > 0 && ends[|ends| - 1] == |list| && Ascending(ends)
    && Distinct(list)
    && (forall j :: 0 <= j < |list| ==> InBucket(list, ends, prio, j))
    && (forall p :: 0 <= p < |prio| && prio[p] >= 0 ==> p in list)
  }

  ghost predicate InBucket(list: seq<int>, ends: seq<int>, prio: seq<int>, j: int)
    requires 0 <= j < |list|
  {
    0 <= list[j] < |prio| && 0 <= prio[list[j]] < |ends| && Start(ends, prio[list[j]]) <= j < ends[prio[list[j]]]
  }

  /** Once the back-pointers are written, a grouped list is a layout. */
  lemma GroupedIsLayout(list: seq<int>, ends: seq<int>, idx: seq<int>, prio: seq<int>)
    requires Grouped(list, ends, prio) && |idx| == |prio|
    requires forall j :: 0 <= j < |list| ==> 0 <= list[j] < |idx| && idx[list[j]] == j
    ensures Layout(list, ends, idx, prio)
  {
    forall j | 0 <= j < |list| ensures Listed(list, idx, prio, j) {
      assert InBucket(list, ends, prio, j);
    }
    forall p | 0 <= p < |prio| && prio[p] >= 0 ensures Placed(list, ends, idx, prio, p) {
      var j :| 0 <= j < |list| && list[j] == p;
      assert InBucket(list, ends, prio, j);
    }
  }

  lemma SwapKeepsGrouped(list: seq<int>, ends: seq<int>, prio: seq<int>, b: int, e: int, f: int)
    requires Grouped(list, ends, prio) && 0 <= b < |ends|
    requires Start(ends, b) <= e < ends[b] && Start(ends, b) <= f < ends[b]
    ensures 0 <= e < |list| && 0 <= f < |list|
    ensures Grouped(Exchange(list, e, f), ends, prio)
  {
    assert ends[b] <= ends[|ends| - 1];
    var list' := Exchange(list, e, f);
    GroupPriority(list, ends, prio, b, e);
    GroupPriority(list, ends, prio, b, f);
    forall j | 0 <= j < |list'| ensures InBucket(list', ends, prio, j) {
      assert InBucket(list, ends, prio, j);
    }
    forall p | 0 <= p < |prio| && prio[p] >= 0 ensures p in list' {
      var j :| 0 <= j < |list| && list[j] == p;
      assert list'[if j == e then f else if j == f then e else j] == p;
    }
  }

  lemma GroupPriority(list: seq<int>, ends: seq<int>, prio: seq<int>, b: int, j: int)
    requires Grouped(list, ends, prio) && 0 <= b < |ends| && Start(ends, b) <= j < ends[b]
    ensures 0 <= j < |list| && 0 <= list[j] < |prio| && prio[list[j]] == b
  {
    assert ends[b] <= ends[|ends| - 1];
    assert InBucket(list, ends, prio, j);
    EndsBefore(ends, b, prio[list[j]]);
    EndsBefore(ends, prio[list[j]], b);
  }

  // ---------------------------------------------------- the counting sort

  /** First pass: every listed piece stores its rank, every boundary its count. */
  method CountPieces(bounds: seq<int>, map0: PieceMap, seeds: nat) returns (counts: seq<int>, places: PieceMap)
    requires AllPacked(map0) && |map0| < WE_HAVE_INDEX
    ensures Reindexed(map0, places) && |counts| > 0
    ensures forall k :: 0 <= k < |counts| ==> counts[k] == Rank(Prios(map0, seeds), |map0|, k)
    ensures forall p :: 0 <= p < |map0| && Prios(map0, seeds)[p] >= 0 ==>
              Prios(map0, seeds)[p] < |counts| &&
              places[p].index == Rank(Prios(map0, seeds), p, Prios(map0, seeds)[p])
  {
    ghost var prio := Prios(map0, seeds);
    counts := seq(if |bounds| == 0 then 1 else |bounds|, _ => 0);
    places := map0;
    CountStart(prio, counts, places);
    ReindexedRefl(map0);
    hide *;
    for i := 0 to |map0|
      invariant |places| == |map0| && Reindexed(map0, places) && places[i..] == map0[i..]
      invariant Counted(prio, i, counts) && Ranked(prio, i, |counts|, places)
    {
      assert places[i] == places[i..][0] == map0[i];
      PriorityAt(map0, seeds, i);
      var p := places[i].Priority(seeds);
      CountNone(prio, i, counts, places);
      if p != -1 {
        CountRoom(prio, i, counts, places, p + 1);
        if p >= |counts| {
          counts := Extend(counts, p + 1, 0);
        }
        CountIs(prio, i, counts, p);
        RankFits(prio, i, p);
        ReindexOne(map0, places, seeds, i, counts[p]);
        CountOne(prio, i, counts, places, counts[p]);
        places := SetIndex(places, i, counts[p]);
        counts := counts[p := counts[p] + 1];
      }
    }
    CountEnd(prio, counts, places);
  }

  ghost predicate Counted(prio: seq<int>, i: int, counts: seq<int>)
    requires 0 <= i <= |prio|
  {
    && |counts| > 0 && (forall k :: 0 <= k < |counts| ==> counts[k] == Rank(prio, i, k))
    && forall k :: |counts| <= k ==> Rank(prio, i, k) == 0
  }

  ghost predicate Ranked(prio: seq<int>, i: int, n: int, places: PieceMap) {
    && 0 <= i <= |prio| == |places|
    && forall p :: 0 <= p < i && prio[p] >= 0 ==> prio[p] < n && places[p].index == Rank(prio, p, prio[p])
  }

  lemma CountStart(prio: seq<int>, counts: seq<int>, places: PieceMap)
    requires |counts| > 0 && (forall k :: 0 <= k < |counts| ==> counts[k] == 0) && |prio| == |places|
    ensures Counted(prio, 0, counts) && Ranked(prio, 0, |counts|, places)
  {
  }

  /** A piece that is not listed counts for nothing. */
  lemma CountNone(prio: seq<int>, i: int, counts: seq<int>, places: PieceMap)
    requires 0 <= i < |prio| && Counted(prio, i, counts) && Ranked(prio, i, |counts|, places)
    ensures prio[i] == -1 ==> Counted(prio, i + 1, counts) && Ranked(prio, i + 1, |counts|, places)
  {
    forall k | k >= 0 ensures Rank(prio, i + 1, k) == Rank(prio, i, k) + if prio[i] == k then 1 else 0 { RankNext(prio, i, k); }
    var n := i + 1;
    if prio[i] == -1 {
      assert forall k :: 0 <= k < |counts| ==> counts[k] == Rank(prio, n, k);
      assert forall k :: |counts| <= k ==> Rank(prio, n, k) == 0;
    }
  }

  lemma RankNext(prio: seq<int>, i: int, k: int)
    requires 0 <= i < |prio|
    ensures Rank(prio, i + 1, k) == Rank(prio, i, k) + if prio[i] == k then 1 else 0
  {
  }

  lemma CountRoom(prio: seq<int>, i: int, counts: seq<int>, places: PieceMap, n: int)
    requires 0 <= i < |prio| && Counted(prio, i, counts) && Ranked(prio, i, |counts|, places)
    ensures n > |counts| ==>
              var more := Extend(counts, n, 0); |more| == n && Counted(prio, i, more) && Ranked(prio, i, |more|, places)
  {
  }

  lemma CountIs(prio: seq<int>, i: int, counts: seq<int>, k: int)
    requires 0 <= i <= |prio| && Counted(prio, i, counts) && 0 <= k < |counts|
    ensures counts[k] == Rank(prio, i, k) >= 0
  {
  }

  lemma CountOne(prio: seq<int>, i: int, counts: seq<int>, places: PieceMap, rank: nat)
    requires 0 <= i < |prio| && Counted(prio, i, counts) && Ranked(prio, i, |counts|, places)
    requires 0 <= prio[i] < |counts| && rank == counts[prio[i]]
    ensures Counted(prio, i + 1, counts[prio[i] := rank + 1]) && Ranked(prio, i + 1, |counts|, SetIndex(places, i, rank))
    ensures SetIndex(places, i, rank)[i + 1..] == places[i..][1..] && |SetIndex(places, i, rank)| == |places|
  {
    forall k | k >= 0 ensures Rank(prio, i + 1, k) == Rank(prio, i, k) + if prio[i] == k then 1 else 0 { RankNext(prio, i, k); }
    var more, n := counts[prio[i] := rank + 1], i + 1;
    assert forall k :: 0 <= k < |more| ==> more[k] == Rank(prio, n, k);
    assert forall k :: |more| <= k ==> Rank(prio, n, k) == 0;
    assert places[i..][1..] == places[i + 1..];
  }

  lemma CountEnd(prio: seq<int>, counts: seq<int>, places: PieceMap)
    requires Counted(prio, |prio|, counts) && Ranked(prio, |prio|, |counts|, places)
    ensures |counts| > 0 && forall k :: 0 <= k < |counts| ==> counts[k] == Rank(prio, |prio|, k)
    ensures forall p :: 0 <= p < |prio| && prio[p] >= 0 ==> prio[p] < |counts| && places[p].index == Rank(prio, p, prio[p])
  {
  }

  lemma PriorityAt(m: PieceMap, seeds: nat, p: int)
    requires AllPacked(m) && 0 <= p < |m|
    ensures m[p].Packed() && Prios(m, seeds)[p] == m[p].Priority(seeds)
  {
  }

  lemma {:induction false} RankFits(prio: seq<int>, i: int, k: int)
    requires 0 <= i <= |prio|
    ensures Rank(prio, i, k) <= i
  {
    if i > 0 { RankFits(prio, i - 1, k); }
  }

  /** Second pass: counts become boundaries. */
  method SumCounts(counts: seq<int>) returns (ends: seq<int>)
    requires forall k :: 0 <= k < |counts| ==> counts[k] >= 0
    ensures |ends| == |counts| && Ascending(ends)
    ensures forall k :: 0 <= k < |ends| ==> SumAt(ends, k, counts[k])
  {
    ends := counts;
    var index := 0;
    for i := 0 to |counts|
      invariant |ends| == |counts|
      invariant forall k :: i <= k < |ends| ==> ends[k] == counts[k]
      invariant forall k :: 0 <= k < i ==> SumAt(ends, k, counts[k])
      invariant index == if i == 0 then 0 else ends[i - 1]
      invariant forall j, k :: 0 <= j <= k < i ==> 0 <= ends[j] <= ends[k]
    {
      ends := ends[i := ends[i] + index];
      index := ends[i];
    }
  }

  /** The slot at offset `r` of bucket `k` holds the piece of that priority and rank. */
  ghost predicate Filled(list: seq<int>, ends: seq<int>, prio: seq<int>, k: int, r: int)
    requires 0 <= k < |ends|
  {
    && 0 <= Start(ends, k) + r < |list|
    && var q := list[Start(ends, k) + r];
       0 <= q < |prio| && prio[q] == k && Rank(prio, q, k) == r
  }

  ghost predicate FilledUpTo(list: seq<int>, ends: seq<int>, prio: seq<int>, i: int)
    requires 0 <= i <= |prio|
  {
    forall k, r :: 0 <= k < |ends| && 0 <= r < Rank(prio, i, k) ==> Filled(list, ends, prio, k, r)
  }

  ghost predicate SumAt(ends: seq<int>, k: int, count: int)
    requires 0 <= k < |ends|
  {
    ends[k] == Start(ends, k) + count
  }

  ghost predicate Sums(ends: seq<int>, prio: seq<int>) {
    && Ascending(ends)
    && (forall k :: 0 <= k < |ends| ==> SumAt(ends, k, Rank(prio, |prio|, k)))
    && (forall p :: 0 <= p < |prio| && prio[p] >= 0 ==> prio[p] < |ends|)
  }

  lemma NothingFilled(ends: seq<int>, prio: seq<int>)
    ensures forall list :: FilledUpTo(list, ends, prio, 0)
  {
  }

  lemma SkipOne(list: seq<int>, ends: seq<int>, prio: seq<int>, i: int)
    requires 0 <= i < |prio| && prio[i] < 0 && FilledUpTo(list, ends, prio, i)
    ensures FilledUpTo(list, ends, prio, i + 1)
  {
    assert forall k :: 0 <= k < |ends| ==> Rank(prio, i + 1, k) == Rank(prio, i, k);
  }

  /** The slot of piece `i` lies in its bucket and apart from every slot filled before. */
  lemma FreshSlot(ends: seq<int>, prio: seq<int>, i: int, k: int, r: int)
    requires 0 <= i < |prio| && prio[i] >= 0 && Sums(ends, prio)
    requires 0 <= k < |ends| && 0 <= r < Rank(prio, i, k)
    ensures Start(ends, k) + r != Start(ends, prio[i]) + Rank(prio, i, prio[i])
  {
    assert SumAt(ends, k, Rank(prio, |prio|, k)) && SumAt(ends, prio[i], Rank(prio, |prio|, prio[i]));
    RankGrows(prio, i, |prio|, k);
    RankGrows(prio, i, |prio|, prio[i]);
    EndsBefore(ends, k, prio[i]);
    EndsBefore(ends, prio[i], k);
  }

  lemma FillOne(list: seq<int>, ends: seq<int>, prio: seq<int>, i: int)
    requires 0 <= i < |prio| && prio[i] >= 0 && Sums(ends, prio)
    requires ends[|ends| - 1] == |list| && FilledUpTo(list, ends, prio, i)
    ensures prio[i] < |ends|
    ensures var n := Start(ends, prio[i]) + Rank(prio, i, prio[i]);
            0 <= n < |list| && FilledUpTo(list[n := i], ends, prio, i + 1)
  {
    var p := prio[i];
    var n := Start(ends, p) + Rank(prio, i, p);
    assert 0 <= n < |list| by {
      RankGrows(prio, i, |prio|, p);
      assert SumAt(ends, p, Rank(prio, |prio|, p));
      assert ends[p] <= ends[|ends| - 1];
    }
    var list' := list[n := i];
    forall k, r | 0 <= k < |ends| && 0 <= r < Rank(prio, i + 1, k) ensures Filled(list', ends, prio, k, r) {
      if k != p || r != Rank(prio, i, k) {
        assert Filled(list, ends, prio, k, r);
        FreshSlot(ends, prio, i, k, r);
      }
    }
  }

  /** Third pass: every listed piece goes to its slot. */
  method FillBuckets(stale: seq<int>, ends: seq<int>, places: PieceMap, seeds: nat) returns (list: seq<int>)
    requires AllPacked(places) && |ends| > 0 && Sums(ends, Prios(places, seeds))
    requires forall p :: 0 <= p < |places| && Prios(places, seeds)[p] >= 0 ==>
               places[p].index == Rank(Prios(places, seeds), p, Prios(places, seeds)[p])
    ensures Grouped(list, ends, Prios(places, seeds))
  {
    hide FilledUpTo, Grouped, Rank;
    ghost var prio := Prios(places, seeds);
    NothingFilled(ends, prio);
    var size := ends[|ends| - 1];
    list := if |stale| < size then stale + seq(size - |stale|, _ => 0) else stale[..size];
    for i := 0 to |places|
      invariant |list| == size == ends[|ends| - 1]
      invariant FilledUpTo(list, ends, prio, i)
    {
      var p := places[i].Priority(seeds);
      if p != -1 {
        var newIndex := Start(ends, p) + places[i].index;
        FillOne(list, ends, prio, i);
        list := list[newIndex := i];
      } else {
        SkipOne(list, ends, prio, i);
      }
    }
    FilledIsGrouped(list, ends, prio);
  }

  lemma {:induction false} SlotBucket(ends: seq<int>, n: int, j: int) returns (k: int)
    requires 0 < n <= |ends| && Ascending(ends) && 0 <= j < ends[n - 1]
    ensures 0 <= k < n && Start(ends, k) <= j < ends[k]
    decreases n
  {
    if n == 1 || ends[n - 2] <= j { k := n - 1; } else { k := SlotBucket(ends, n - 1, j); }
  }

  lemma FilledIsGrouped(list: seq<int>, ends: seq<int>, prio: seq<int>)
    requires |ends| > 0 && Sums(ends, prio) && ends[|ends| - 1] == |list| && FilledUpTo(list, ends, prio, |prio|)
    ensures Grouped(list, ends, prio)
  {
    forall j | 0 <= j < |list| ensures SlotIsRank(list, ends, prio, j) {
      var k := SlotBucket(ends, |ends|, j);
      assert SumAt(ends, k, Rank(prio, |prio|, k));
      assert Filled(list, ends, prio, k, j - Start(ends, k));
    }
    forall i, j | 0 <= i < j < |list| ensures list[i] != list[j] {
      assert SlotIsRank(list, ends, prio, i) && SlotIsRank(list, ends, prio, j);
    }
    forall j | 0 <= j < |list| ensures InBucket(list, ends, prio, j) {
      assert SlotIsRank(list, ends, prio, j);
    }
    forall p | 0 <= p < |prio| && prio[p] >= 0 ensures p in list {
      var k, r := prio[p], Rank(prio, p, prio[p]);
      RankGrows(prio, p, |prio|, k);
      assert SumAt(ends, k, Rank(prio, |prio|, k));
      assert Filled(list, ends, prio, k, r);
      RankInjective(prio, p, list[Start(ends, k) + r]);
    }
  }

  /** The position of a piece is its bucket's start plus its rank. */
  ghost predicate SlotIsRank(list: seq<int>, ends: seq<int>, prio: seq<int>, j: int)
    requires 0 <= j < |list|
  {
    && InBucket(list, ends, prio, j)
    && j == Start(ends, prio[list[j]]) + Rank(prio, list[j], prio[list[j]])
  }

  /** `std::random_shuffle` over one bucket: any sequence of exchanges inside it. */
  method ShuffleBucket(list0: seq<int>, ends: seq<int>, ghost prio: seq<int>, b: int) returns (list: seq<int>)
    requires Grouped(list0, ends, prio) && 0 <= b < |ends| && Start(ends, b) < ends[b]
    ensures Grouped(list, ends, prio) && |list| == |list0|
  {
    list := list0;
    var start := Start(ends, b);
    for i := start + 1 to ends[b]
      invariant Grouped(list, ends, prio) && |list| == |list0|
    {
      var j :| start <= j <= i;
      SwapKeepsGrouped(list, ends, prio, b, i, j);
      list := Exchange(list, i, j);
    }
  }

  method WriteBackPointers(list: seq<int>, map0: PieceMap, seeds: nat) returns (places: PieceMap)
    requires AllPacked(map0) && Distinct(list) && |list| <= WE_HAVE_INDEX
    requires forall j :: 0 <= j < |list| ==> 0 <= list[j] < |map0| && Prios(map0, seeds)[list[j]] >= 0
    ensures Reindexed(map0, places)
    ensures forall j :: 0 <= j < |list| ==> places[list[j]].index == j
  {
    places := map0;
    for i := 0 to |list|
      invariant Reindexed(map0, places)
      invariant forall j :: 0 <= j < i ==> places[list[j]].index == j
    {
      ReindexOne(map0, places, seeds, list[i], i);
      places := SetIndex(places, list[i], i);
    }
  }

  lemma DistinctFits(list: seq<int>, n: nat)
    requires Distinct(list) && forall j :: 0 <= j < |list| ==> 0 <= list[j] < n
    ensures |list| <= n
  {
    DistinctCardinality(list);
    RangeCardinality(Members(list), n);
  }

  /** The whole rebuild: from any stale contents it yields a layout of the
      current priorities. */
  method RebuildBuckets(stale: seq<int>, bounds: seq<int>, map0: PieceMap, seeds: nat)
    returns (list: seq<int>, ends: seq<int>, places: PieceMap)
    requires AllPacked(map0) && |map0| < WE_HAVE_INDEX
    ensures Reindexed(map0, places)
    ensures Layout(list, ends, Indexes(places), Prios(map0, seeds))
  {
    ghost var prio := Prios(map0, seeds);
    ends, places := CountPieces(bounds, map0, seeds);
    ReindexedPrios(map0, places, seeds);
    ends := SumCounts(ends);
    list := FillBuckets(stale, ends, places, seeds);
    var start := 0;
    for i := 0 to |ends|
      invariant start == if i == 0 then 0 else ends[i - 1]
      invariant Grouped(list, ends, prio)
    {
      if start != ends[i] {
        assert ends[if i == 0 then 0 else i - 1] <= ends[i];
        list := ShuffleBucket(list, ends, prio, i);
        start := ends[i];
      }
    }
    forall j | 0 <= j < |list| ensures 0 <= list[j] < |map0| && prio[list[j]] >= 0 {
      assert InBucket(list, ends, prio, j);
    }
    DistinctFits(list, |map0|);
    ghost var ranked := places;
    places := WriteBackPointers(list, places, seeds);
    ReindexedTrans(map0, ranked, places);
    GroupedIsLayout(list, ends, Indexes(places), prio);
  }
}
