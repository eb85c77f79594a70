/** The loops of `piece_picker::add`, `remove` and `update`, over the three
    vectors they rewrite in place. */
module Cascades {
  import opened PickerTypes
  import opened Buckets

  /** Raises boundaries from `first` on, as long as they equal `at`; `temp` is
      the old value of the last one raised. */
  method RaiseBoundaries(bounds: seq<int>, first: int, at: int) returns (raised: seq<int>, next: int, temp: int)
    requires 0 <= first < |bounds|
    ensures RaiseRun(bounds, at, first, next, temp)
    ensures raised == Raise(bounds, first, next)
  {
    temp := bounds[first];
    raised := bounds[first := temp + 1];
    next := first + 1;
    while temp == at && next < |bounds|
      invariant first < next <= |bounds| && raised == Raise(bounds, first, next)
      invariant temp == bounds[next - 1]
      invariant forall k :: first <= k < next - 1 ==> bounds[k] == at
    {
      temp := raised[next];
      raised := raised[next := temp + 1];
      next := next + 1;
    }
  }

  /** The list with `h` written to slot `n`, the last slot being spare. */
  lemma SlotWritten(list: seq<int>, m: int, n: int, h: int)
    requires |list| == m + 1 && 0 <= n <= m
    ensures n < m ==> list[n := h][..m] == list[..m][n := h]
    ensures n == m ==> list[n := h] == list[..m] + [h]
  {
  }

  method InsertCascade(pieces: seq<int>, bounds: seq<int>, map0: PieceMap, seeds: nat,
                       piece: int, priority0: int, position: int)
    returns (list: seq<int>, ends: seq<int>, places: PieceMap)
    requires AllPacked(map0) && |pieces| <= |map0| < WE_HAVE_INDEX
    requires 0 <= piece < |map0| && priority0 == Prios(map0, seeds)[piece] < |bounds|
    requires Carrying(pieces, bounds, Indexes(map0), Prios(map0, seeds), piece, position)
    ensures Reindexed(map0, places)
    ensures Layout(list, ends, Indexes(places), Prios(map0, seeds))
  {
    hide Layout, Reindexed, Prios, Indexes, AllPacked, SetIndex, Raise;
    ghost var prio, m, gb := Prios(map0, seeds), |pieces|, bounds;
    var index, priority, newIndex := piece, priority0, position;
    list, ends, places := pieces + [-1], bounds, map0;
    assert list[..m] == pieces;
    ReindexedRefl(map0);
    while true
      invariant |places| == |map0| && Reindexed(map0, places)
      invariant |list| == m + 1 && list[m] == -1
      invariant Carrying(list[..m], gb, Indexes(places), prio, index, newIndex)
      invariant RaisedFor(gb, prio[index], newIndex, ends, priority) && priority < |ends|
      decreases |ends| - priority
    {
      var displaced := list[newIndex];
      SlotWritten(list, m, newIndex, index);
      ReindexOne(map0, places, seeds, index, newIndex);
      var raised, next, temp := RaiseBoundaries(ends, priority, newIndex);
      if newIndex == m {
        CarryHome(list[..m], gb, Indexes(places), prio, index, newIndex, ends, priority, next, temp);
      } else {
        CarryOn(list[..m], gb, Indexes(places), prio, index, newIndex, ends, priority, next, temp);
        gb := Raise(gb, prio[index], prio[displaced]);
      }
      list, places := list[newIndex := index], SetIndex(places, index, newIndex);
      index, ends, priority, newIndex := displaced, raised, next, temp;
      if priority >= |ends| { break; }
    }
    if index != -1 {
      SlotWritten(list, m, newIndex, index);
      Append(list[..m], gb, Indexes(places), prio, index, prio[index]);
      ReindexOne(map0, places, seeds, index, newIndex);
      list, places := list[newIndex := index], SetIndex(places, index, newIndex);
    }
  }

  method RemoveCascade(pieces: seq<int>, bounds: seq<int>, map0: PieceMap, seeds: nat, priority0: int, hole: int)
    returns (list: seq<int>, ends: seq<int>, places: PieceMap)
    requires AllPacked(map0) && |pieces| <= |map0| < WE_HAVE_INDEX
    requires 0 <= hole < |pieces| && 0 <= pieces[hole] < |map0| && Prios(map0, seeds)[pieces[hole]] == -1
    requires 0 <= priority0 < |bounds|
    requires Rising(pieces, bounds, Indexes(map0)[pieces[hole] := hole], Prios(map0, seeds), pieces[hole], priority0)
    ensures Reindexed(map0, places)
    ensures Layout(list, ends, Indexes(places), Prios(map0, seeds))
  {
    hide *;
    ghost var x, prio := pieces[hole], Prios(map0, seeds);
    var priority, elemIndex, nextIndex := priority0, hole, hole;
    list, ends, places := pieces, bounds, map0;
    ghost var view, idx := pieces, Indexes(map0)[x := hole];
    ReindexedRefl(map0);
    while true
      invariant |places| == |map0| && Reindexed(map0, places)
      invariant |list| == |pieces| && 0 <= elemIndex < |pieces| && nextIndex == elemIndex
      invariant view == list[elemIndex := x] && idx == Indexes(places)[x := elemIndex]
      invariant 0 <= priority < |ends| == |bounds| && Rising(view, ends, idx, prio, x, priority)
      decreases |ends| - priority
    {
      RiseOne(view, ends, idx, prio, x, priority);
      ghost var before := priority;
      var temp := ends[priority] - 1;
      ends := ends[priority := temp];
      priority := priority + 1;
      while nextIndex == temp && priority < |ends|
        invariant before < priority <= |ends| == |bounds|
        invariant elemIndex <= temp < |list| && 0 <= view[temp] < |idx|
        invariant temp != elemIndex ==> view[temp] != x && prio[view[temp]] >= 0
        invariant Rising(Exchange(view, elemIndex, temp), ends, Repoint(idx, view, elemIndex, temp), prio, x, priority)
      {
        ExchangeSelf(view, idx, elemIndex, x);
        RiseOne(view, ends, idx, prio, x, priority);
        temp := ends[priority] - 1;
        ends := ends[priority := temp];
        priority := priority + 1;
      }
      ExchangeIs(view, idx, elemIndex, temp);
      view, idx := Exchange(view, elemIndex, temp), Repoint(idx, view, elemIndex, temp);
      if nextIndex == temp { break; }
      nextIndex := temp;
      var piece := list[nextIndex];
      ReindexOne(map0, places, seeds, piece, elemIndex);
      list, places := list[elemIndex := piece], SetIndex(places, piece, elemIndex);
      elemIndex := nextIndex;
      if priority == |ends| { break; }
    }
    Risen(view, ends, idx, prio, x);
    assert list[..|list| - 1] == view[..|view| - 1];
    list := list[..|list| - 1];
    assert prio[x := -1] == prio;
    IgnoreUnlisted(list, ends, idx, Indexes(places), prio);
  }

  lemma ExchangeSelf(view: seq<int>, idx: seq<int>, e: int, x: int)
    requires 0 <= e < |view| && view[e] == x && 0 <= x < |idx| && idx[x] == e
    ensures Exchange(view, e, e) == view && Repoint(idx, view, e, e) == idx
  {
  }

  lemma ExchangeIs(view: seq<int>, idx: seq<int>, e: int, f: int)
    requires 0 <= e < |view| && 0 <= f < |view| && 0 <= view[e] < |idx| && 0 <= view[f] < |idx|
    ensures Exchange(view, e, f) == view[e := view[f]][f := view[e]]
    ensures Repoint(idx, view, e, f) == idx[view[f] := e][view[e] := f]
  {
  }

  /** Past the top bucket the piece is in the last slot and no longer listed. */
  lemma Risen(view: seq<int>, ends: seq<int>, idx: seq<int>, prio: seq<int>, x: int)
    requires Rising(view, ends, idx, prio, x, |ends|)
    ensures |view| > 0 && idx[x] == |view| - 1 && Layout(view[..|view| - 1], ends, idx, prio[x := -1])
  {
  }

  /** Where a move stands: `x` conceptually sits in bucket `b` at slot `e`, while
      the slot itself still holds the stale entry `temp`. */
  ghost predicate Moving(list: seq<int>, ends: seq<int>, idx: seq<int>, prio: seq<int>,
                         x: int, b: int, e: int, temp: int)
  {
    && 0 <= x < |prio| == |idx| && 0 <= b < |ends| && 0 <= e < |list|
    && list[e] == temp && 0 <= temp < |prio| && (temp != x ==> idx[temp] != e)
    && Layout(list[e := x], ends, idx[x := e], prio[x := b])
  }

  /** One turn of either loop of `update`, from slot `e` to slot `f`. */
  lemma Step(list: seq<int>, ends: seq<int>, idx: seq<int>, prio: seq<int>, x: int, b: int, e: int, temp: int, down: bool)
    requires Moving(list, ends, idx, prio, x, b, e, temp)
    requires temp != x ==> if down then idx[temp] > e else idx[temp] < e
    requires if down then b > 0 else b < |ends| - 1
    ensures var f, ends' := if down then ends[b - 1] else ends[b] - 1,
                            if down then ends[b - 1 := ends[b - 1] + 1] else ends[b := ends[b] - 1];
            var b' := if down then b - 1 else b + 1;
            && 0 <= f < |list|
            && (temp == list[f] <==> f == e)
            && 0 <= list[f] < |prio| && (f != e ==> prio[list[f]] >= 0 && list[f] != x)
            && (f == e ==> Moving(list, ends', idx, prio, x, b', e, temp))
            && (f != e ==> (if down then f < e else e < f)
                           && Moving(list[e := list[f]], ends', idx[list[f] := e], prio, x, b', f, list[f]))
  {
    hide Layout;
    var view, gidx, p := list[e := x], idx[x := e], prio[x := b];
    var f := if down then ends[b - 1] else ends[b] - 1;
    if down { MoveDown(view, ends, gidx, p, x); } else { MoveUp(view, ends, gidx, p, x); }
    var b' := if down then b - 1 else b + 1;
    assert p[x := b'] == prio[x := b'];
    if f == e {
      assert Exchange(view, e, f) == view && Repoint(gidx, view, e, f) == gidx;
    } else {
      assert view[f] == list[f] && gidx[list[f]] == f;
      assert Exchange(view, e, f) == list[e := list[f]][f := x];
      assert Repoint(gidx, view, e, f) == idx[list[f] := e][x := f];
    }
  }

  method UpdateCascade(pieces: seq<int>, bounds: seq<int>, map0: PieceMap, seeds: nat,
                       priority0: int, newPriority: int, elem0: int)
    returns (list: seq<int>, ends: seq<int>, places: PieceMap, elemIndex: int)
    requires AllPacked(map0) && |pieces| <= |map0| < WE_HAVE_INDEX
    requires 0 <= elem0 < |pieces| && 0 <= pieces[elem0] < |map0|
    requires 0 <= newPriority == Prios(map0, seeds)[pieces[elem0]] < |bounds|
    requires newPriority != priority0
    requires Moving(pieces, bounds, Indexes(map0), Prios(map0, seeds), pieces[elem0], priority0, elem0, pieces[elem0])
    ensures Reindexed(map0, places)
    ensures Layout(list, ends, Indexes(places), Prios(map0, seeds))
    ensures Indexes(places)[pieces[elem0]] == elemIndex
  {
    hide Layout, Reindexed, Prios, Indexes, AllPacked, SetIndex;
    ghost var x, prio := pieces[elem0], Prios(map0, seeds);
    var index, priority, temp := pieces[elem0], priority0, pieces[elem0];
    list, ends, places, elemIndex := pieces, bounds, map0, elem0;
    ReindexedRefl(map0);
    if priority > newPriority {
      while priority != newPriority
        invariant |places| == |map0| && Reindexed(map0, places) && |list| == |pieces| && |ends| == |bounds|
        invariant newPriority <= priority < |ends|
        invariant Moving(list, ends, Indexes(places), prio, x, priority, elemIndex, temp)
        invariant temp != x ==> Indexes(places)[temp] > elemIndex
        decreases priority - newPriority
      {
        Step(list, ends, Indexes(places), prio, x, priority, elemIndex, temp, true);
        priority := priority - 1;
        var newIndex := ends[priority];
        ends := ends[priority := newIndex + 1];
        if temp != list[newIndex] {
          temp := list[newIndex];
          ReindexOne(map0, places, seeds, temp, elemIndex);
          list, places := list[elemIndex := temp], SetIndex(places, temp, elemIndex);
        }
        elemIndex := newIndex;
      }
    } else {
      while priority != newPriority
        invariant |places| == |map0| && Reindexed(map0, places) && |list| == |pieces| && |ends| == |bounds|
        invariant 0 <= priority <= newPriority < |ends|
        invariant Moving(list, ends, Indexes(places), prio, x, priority, elemIndex, temp)
        invariant temp != x ==> Indexes(places)[temp] < elemIndex
        decreases newPriority - priority
      {
        Step(list, ends, Indexes(places), prio, x, priority, elemIndex, temp, false);
        var newIndex := ends[priority] - 1;
        ends := ends[priority := newIndex];
        if temp != list[newIndex] {
          temp := list[newIndex];
          ReindexOne(map0, places, seeds, temp, elemIndex);
          list, places := list[elemIndex := temp], SetIndex(places, temp, elemIndex);
        }
        elemIndex := newIndex;
        priority := priority + 1;
      }
    }
    ReindexOne(map0, places, seeds, index, elemIndex);
    list, places := list[elemIndex := index], SetIndex(places, index, elemIndex);
    assert prio[x := newPriority] == prio;
  }
}
