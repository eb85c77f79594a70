/** The bucket sort that the piece picker maintains incrementally.

    `pieces` lists every pickable piece, grouped by priority; bucket `b` occupies
    the positions from `Start(bounds, b)` up to `bounds[b]`; `idx` holds the
    back-pointer of every piece into `pieces`; `prio` holds every piece's
    priority, negative when the piece must not be listed.

    Each lemma below is one atomic move of the cascades in `piece_picker::add`,
    `remove`, `update` and `shuffle`, stated on values.
 */
module Buckets {

  function Start(bounds: seq<int>, b: int): int
    requires 0 <= b < |bounds|
  {
    if b == 0 then 0 else bounds[b - 1]
  }

  ghost predicate Ascending(bounds: seq<int>) {
    forall i, j :: 0 <= i <= j < |bounds| ==> 0 <= bounds[i] <= bounds[j]
  }

  /** A lower bucket ends before a higher one starts. */
  lemma EndsBefore(bounds: seq<int>, b: int, c: int)
    requires Ascending(bounds)
    ensures 0 <= b < c < |bounds| ==> bounds[b] <= Start(bounds, c)
  {
  }

  /** A boundary may move anywhere between its neighbours. */
  lemma NudgeBoundary(bounds: seq<int>, b: int, v: int)
    requires Ascending(bounds) && 0 <= b < |bounds| - 1
    requires Start(bounds, b) <= v <= bounds[b + 1]
    ensures Ascending(bounds[b := v])
  {
    var bounds' := bounds[b := v];
    forall i, j | 0 <= i <= j < |bounds'| ensures 0 <= bounds'[i] <= bounds'[j] {
      assert 0 <= bounds[i] <= bounds[j];
    }
  }

  lemma BucketInRange(pieces: seq<int>, bounds: seq<int>, b: int)
    requires Ascending(bounds) && 0 <= b < |bounds| && bounds[|bounds| - 1] == |pieces|
    ensures 0 <= Start(bounds, b) <= bounds[b] <= |pieces|
  {
  }

  /** Piece `p` sits inside its own bucket and its back-pointer finds it. */
  ghost predicate Placed(pieces: seq<int>, bounds: seq<int>, idx: seq<int>, prio: seq<int>, p: int)
    requires 0 <= p < |prio| == |idx|
  {
    && 0 <= prio[p] < |bounds|
    && Start(bounds, prio[p]) <= idx[p] < bounds[prio[p]]
    && 0 <= idx[p] < |pieces|
    && pieces[idx[p]] == p
  }

  /** Position `i` holds a listed piece that points back to `i`. */
  ghost predicate Listed(pieces: seq<int>, idx: seq<int>, prio: seq<int>, i: int)
    requires 0 <= i < |pieces| && |prio| == |idx|
  {
    0 <= pieces[i] < |prio| && prio[pieces[i]] >= 0 && idx[pieces[i]] == i
  }

  ghost predicate Layout(pieces: seq<int>, bounds: seq<int>, idx: seq<int>, prio: seq<int>) {
    && |idx| == |prio|
    && |bounds| > 0
    && bounds[|bounds| - 1] == |pieces|
    && Ascending(bounds)
    && (forall i :: 0 <= i < |pieces| ==> Listed(pieces, idx, prio, i))
    && (forall p :: 0 <= p < |prio| && prio[p] >= 0 ==> Placed(pieces, bounds, idx, prio, p))
  }

  // ---------------------------------------------------------------- moves

  /** Exchange the pieces at positions `e` and `f`. */
  function Exchange(pieces: seq<int>, e: int, f: int): (r: seq<int>)
    requires 0 <= e < |pieces| && 0 <= f < |pieces|
  {
    pieces[e := pieces[f]][f := pieces[e]]
  }

  function Repoint(idx: seq<int>, pieces: seq<int>, e: int, f: int): (r: seq<int>)
    requires 0 <= e < |pieces| && 0 <= f < |pieces|
    requires 0 <= pieces[e] < |idx| && 0 <= pieces[f] < |idx|
  {
    idx[pieces[f] := e][pieces[e] := f]
  }

  /** The slot `x` trades for: the first of its bucket on the way down, the last on the way up. */
  ghost predicate Trades(pieces: seq<int>, bounds: seq<int>, idx: seq<int>, prio: seq<int>, x: int, f: int, down: bool) {
    && |prio| == |idx| && 0 <= x < |prio| && Placed(pieces, bounds, idx, prio, x) && 0 <= f < |pieces|
    && (if down then prio[x] >= 1 && f == bounds[prio[x] - 1] else prio[x] < |bounds| - 1 && f == bounds[prio[x]] - 1)
    && Listed(pieces, idx, prio, f) && prio[pieces[f]] == prio[x]
  }

  lemma TradeListed(pieces: seq<int>, bounds: seq<int>, idx: seq<int>, prio: seq<int>, x: int, f: int, down: bool, i: int)
    requires Trades(pieces, bounds, idx, prio, x, f, down) && 0 <= i < |pieces| && Listed(pieces, idx, prio, i)
    ensures var c := if down then prio[x] - 1 else prio[x] + 1;
            Listed(Exchange(pieces, idx[x], f), Repoint(idx, pieces, idx[x], f), prio[x := c], i)
  {
  }

  lemma TradePlaced(pieces: seq<int>, bounds: seq<int>, idx: seq<int>, prio: seq<int>, x: int, f: int, down: bool, p: int)
    requires Ascending(bounds) && Trades(pieces, bounds, idx, prio, x, f, down)
    requires 0 <= p < |prio| && Placed(pieces, bounds, idx, prio, p)
    ensures var c := if down then prio[x] - 1 else prio[x] + 1;
            Placed(Exchange(pieces, idx[x], f), if down then bounds[c := f + 1] else bounds[prio[x] := f],
                   Repoint(idx, pieces, idx[x], f), prio[x := c], p)
  {
    assert down ==> Start(bounds, prio[x] - 1) <= bounds[prio[x] - 1];
    assert !down ==> bounds[prio[x]] <= bounds[prio[x] + 1];
  }

  /** The first and the last slot of a bucket hold pieces of the bucket. */
  lemma TradeFits(pieces: seq<int>, bounds: seq<int>, idx: seq<int>, prio: seq<int>, x: int, f: int, down: bool)
    requires Layout(pieces, bounds, idx, prio) && 0 <= x < |prio| && prio[x] >= 0
    requires if down then prio[x] >= 1 && f == bounds[prio[x] - 1] else prio[x] < |bounds| - 1 && f == bounds[prio[x]] - 1
    ensures Trades(pieces, bounds, idx, prio, x, f, down)
  {
    assert Placed(pieces, bounds, idx, prio, x);
    BucketInRange(pieces, bounds, prio[x]);
    assert Listed(pieces, idx, prio, f);
    var y := pieces[f];
    assert Placed(pieces, bounds, idx, prio, y);
    EndsBefore(bounds, prio[x], prio[y]);
    EndsBefore(bounds, prio[y], prio[x]);
  }

  lemma TradeKeeps(pieces: seq<int>, bounds: seq<int>, idx: seq<int>, prio: seq<int>, x: int, f: int, down: bool)
    requires Layout(pieces, bounds, idx, prio) && Trades(pieces, bounds, idx, prio, x, f, down)
    ensures var c := if down then prio[x] - 1 else prio[x] + 1;
            Layout(Exchange(pieces, idx[x], f), if down then bounds[c := f + 1] else bounds[prio[x] := f],
                   Repoint(idx, pieces, idx[x], f), prio[x := c])
  {
    var c := if down then prio[x] - 1 else prio[x] + 1;
    var pieces', bounds', idx', prio' := Exchange(pieces, idx[x], f), if down then bounds[c := f + 1] else bounds[prio[x] := f],
      Repoint(idx, pieces, idx[x], f), prio[x := c];
    if down { NudgeBoundary(bounds, c, f + 1); } else { NudgeBoundary(bounds, prio[x], f); }
    hide Ascending, Placed, Listed;
    forall i | 0 <= i < |pieces'| ensures Listed(pieces', idx', prio', i) {
      TradeListed(pieces, bounds, idx, prio, x, f, down, i);
    }
    forall p | 0 <= p < |prio'| && prio'[p] >= 0 ensures Placed(pieces', bounds', idx', prio', p) {
      TradePlaced(pieces, bounds, idx, prio, x, f, down, p);
    }
  }

  /** A piece moves to the bucket below by trading places with the first piece
      of its own bucket, whose slot then falls under the lower boundary. */
  lemma MoveDown(pieces: seq<int>, bounds: seq<int>, idx: seq<int>, prio: seq<int>, x: int)
    requires Layout(pieces, bounds, idx, prio)
    requires 0 <= x < |prio| && prio[x] >= 1
    ensures prio[x] < |bounds| && 0 <= idx[x] < |pieces| && pieces[idx[x]] == x
    ensures var f := bounds[prio[x] - 1];
            && 0 <= f <= idx[x] && 0 <= pieces[f] < |idx| && Listed(pieces, idx, prio, f)
            && Layout(Exchange(pieces, idx[x], f), bounds[prio[x] - 1 := f + 1],
                      Repoint(idx, pieces, idx[x], f), prio[x := prio[x] - 1])
  {
    assert Placed(pieces, bounds, idx, prio, x);
    TradeFits(pieces, bounds, idx, prio, x, bounds[prio[x] - 1], true);
    TradeKeeps(pieces, bounds, idx, prio, x, bounds[prio[x] - 1], true);
    hide Layout, Exchange, Repoint;
  }

  /** A piece moves to the bucket above by trading places with the last piece of
      its own bucket, whose slot then rises over the lower boundary. */
  lemma MoveUp(pieces: seq<int>, bounds: seq<int>, idx: seq<int>, prio: seq<int>, x: int)
    requires Layout(pieces, bounds, idx, prio)
    requires 0 <= x < |prio| && 0 <= prio[x] < |bounds| - 1
    ensures 0 <= idx[x] < |pieces| && pieces[idx[x]] == x
    ensures var f := bounds[prio[x]] - 1;
            && idx[x] <= f < |pieces| && 0 <= pieces[f] < |idx| && Listed(pieces, idx, prio, f)
            && Layout(Exchange(pieces, idx[x], f), bounds[prio[x] := f],
                      Repoint(idx, pieces, idx[x], f), prio[x := prio[x] + 1])
  {
    assert Placed(pieces, bounds, idx, prio, x);
    TradeFits(pieces, bounds, idx, prio, x, bounds[prio[x]] - 1, false);
    TradeKeeps(pieces, bounds, idx, prio, x, bounds[prio[x]] - 1, false);
    hide Layout, Exchange, Repoint;
  }

  /** A piece of the top bucket leaves the list: the last piece takes its slot. */
  lemma PopTop(pieces: seq<int>, bounds: seq<int>, idx: seq<int>, prio: seq<int>, x: int)
    requires Layout(pieces, bounds, idx, prio)
    requires 0 <= x < |prio| && prio[x] == |bounds| - 1
    ensures 0 <= idx[x] < |pieces| && pieces[idx[x]] == x
    ensures var f := |pieces| - 1;
            && 0 <= pieces[f] < |idx|
            && Layout(Exchange(pieces, idx[x], f)[..f], bounds[|bounds| - 1 := f],
                      Repoint(idx, pieces, idx[x], f), prio[x := -1])
  {
    assert Placed(pieces, bounds, idx, prio, x);
    var e, f := idx[x], |pieces| - 1;
    assert Listed(pieces, idx, prio, f);
    var y := pieces[f];
    assert Placed(pieces, bounds, idx, prio, y);
    var pieces', bounds', idx', prio' := Exchange(pieces, e, f)[..f], bounds[|bounds| - 1 := f],
      Repoint(idx, pieces, e, f), prio[x := -1];
    forall i | 0 <= i < |pieces'| ensures Listed(pieces', idx', prio', i) {
      assert Listed(pieces, idx, prio, i);
    }
    forall p | 0 <= p < |prio'| && prio'[p] >= 0 ensures Placed(pieces', bounds', idx', prio', p) {
      assert Placed(pieces, bounds, idx, prio, p);
    }
  }

  /** Where a removal stands: `x` has risen to bucket `b`, or past the top
      bucket, in which case it occupies the last slot and is no longer listed. */
  ghost predicate Rising(pieces: seq<int>, bounds: seq<int>, idx: seq<int>, prio: seq<int>, x: int, b: int) {
    && 0 <= x < |prio| == |idx| && 0 <= b <= |bounds|
    && 0 <= idx[x] < |pieces| && pieces[idx[x]] == x
    && (b < |bounds| ==> Layout(pieces, bounds, idx, prio[x := b]))
    && (b == |bounds| ==> idx[x] == |pieces| - 1 && Layout(pieces[..|pieces| - 1], bounds, idx, prio[x := -1]))
  }

  /** One boundary step of `remove`. */
  lemma RiseOne(pieces: seq<int>, bounds: seq<int>, idx: seq<int>, prio: seq<int>, x: int, b: int)
    requires Rising(pieces, bounds, idx, prio, x, b) && b < |bounds|
    ensures var f := bounds[b] - 1;
            && 0 <= idx[x] <= f < |pieces| && 0 <= pieces[f] < |idx|
            && (f != idx[x] ==> pieces[f] != x && prio[pieces[f]] >= 0)
            && Rising(Exchange(pieces, idx[x], f), bounds[b := f], Repoint(idx, pieces, idx[x], f), prio, x, b + 1)
  {
    assert Placed(pieces, bounds, idx, prio[x := b], x);
    BucketInRange(pieces, bounds, b);
    assert Listed(pieces, idx, prio[x := b], bounds[b] - 1);
    if b < |bounds| - 1 {
      MoveUp(pieces, bounds, idx, prio[x := b], x);
      assert prio[x := b][x := b + 1] == prio[x := b + 1];
    } else {
      PopTop(pieces, bounds, idx, prio[x := b], x);
      assert prio[x := b][x := -1] == prio[x := -1];
    }
  }

  /** The list is no longer than the number of pieces. */
  lemma ListFits(pieces: seq<int>, bounds: seq<int>, idx: seq<int>, prio: seq<int>)
    requires Layout(pieces, bounds, idx, prio)
    ensures |pieces| <= |prio|
  {
    PrefixIsUpTo(pieces, bounds, idx, prio, |bounds| - 1);
    RangeCardinality(UpTo(prio, |bounds| - 1), |prio|);
  }

  lemma {:induction false} RangeCardinality(s: set<int>, n: nat)
    requires forall x :: x in s ==> 0 <= x < n
    ensures |s| <= n
  {
    if n == 0 {
      assert forall x :: x !in s;
      assert s == {};
    } else {
      RangeCardinality(s - {n - 1}, n - 1);
      assert |s| <= |s - {n - 1}| + 1 by {
        assert n - 1 in s ==> s == (s - {n - 1}) + {n - 1};
        assert n - 1 !in s ==> s == s - {n - 1};
      }
    }
  }

  /** Two pieces of one bucket trade places. */
  lemma SwapInBucket(pieces: seq<int>, bounds: seq<int>, idx: seq<int>, prio: seq<int>, b: int, e: int, f: int)
    requires Layout(pieces, bounds, idx, prio)
    requires 0 <= b < |bounds|
    requires Start(bounds, b) <= e < bounds[b] && Start(bounds, b) <= f < bounds[b]
    ensures 0 <= e < |pieces| && 0 <= f < |pieces|
    ensures 0 <= pieces[e] < |idx| && 0 <= pieces[f] < |idx|
    ensures Layout(Exchange(pieces, e, f), bounds, Repoint(idx, pieces, e, f), prio)
  {
    BucketOf(pieces, bounds, idx, prio, b, e);
    BucketOf(pieces, bounds, idx, prio, b, f);
    var pieces', idx' := Exchange(pieces, e, f), Repoint(idx, pieces, e, f);
    forall i | 0 <= i < |pieces'| ensures Listed(pieces', idx', prio, i) {
      assert Listed(pieces, idx, prio, i);
    }
    forall p | 0 <= p < |prio| && prio[p] >= 0 ensures Placed(pieces', bounds, idx', prio, p) {
      assert Placed(pieces, bounds, idx, prio, p);
    }
  }

  /** Everything between two neighbouring boundaries has that bucket's priority. */
  lemma BucketOf(pieces: seq<int>, bounds: seq<int>, idx: seq<int>, prio: seq<int>, b: int, i: int)
    requires Layout(pieces, bounds, idx, prio)
    requires 0 <= b < |bounds| && Start(bounds, b) <= i < bounds[b]
    ensures 0 <= i < |pieces| && Listed(pieces, idx, prio, i) && prio[pieces[i]] == b
  {
    assert Listed(pieces, idx, prio, i);
    var c := prio[pieces[i]];
    assert Placed(pieces, bounds, idx, prio, pieces[i]);
    EndsBefore(bounds, c, b);
    EndsBefore(bounds, b, c);
  }

  /** `bounds` with entries `s..r` raised by one. */
  function Raise(bounds: seq<int>, s: int, r: int): (b: seq<int>)
    requires 0 <= s <= r <= |bounds|
    ensures |b| == |bounds|
    ensures forall k :: 0 <= k < |b| ==> b[k] == bounds[k] + if s <= k < r then 1 else 0
  {
    seq(|bounds|, k requires 0 <= k < |bounds| => bounds[k] + if s <= k < r then 1 else 0)
  }

  /** An unlisted piece `h` of priority `s` takes position `n`, anywhere in its
      bucket or just past its end; the piece it displaces is left in hand, and
      the empty buckets between the two shift by one. */
  lemma Displace(pieces: seq<int>, bounds: seq<int>, idx: seq<int>, prio: seq<int>, h: int, s: int, n: int)
    requires 0 <= h < |prio| && Layout(pieces, bounds, idx, prio[h := -1])
    requires 0 <= s < |bounds| && prio[h] == s
    requires Start(bounds, s) <= n <= bounds[s] && n < |pieces|
    ensures |idx| == |prio| && 0 <= n < |pieces| && 0 <= pieces[n] < |prio| && pieces[n] != h
    ensures s <= prio[pieces[n]] < |bounds|
    ensures forall k :: s <= k < prio[pieces[n]] ==> bounds[k] == n
    ensures bounds[prio[pieces[n]]] > n
    ensures Layout(pieces[n := h], Raise(bounds, s, prio[pieces[n]]), idx[h := n], prio[pieces[n] := -1])
  {
    var prio0, d := prio[h := -1], pieces[n];
    assert Listed(pieces, idx, prio0, n);
    assert Placed(pieces, bounds, idx, prio0, d);
    var r := prio[d];
    EndsBefore(bounds, r, s);
    forall k | s <= k < r ensures bounds[k] == n {
      assert bounds[s] <= bounds[k] <= bounds[r - 1];
    }
    var bounds' := Raise(bounds, s, r);
    assert Ascending(bounds') by {
      forall i, j | 0 <= i <= j < |bounds'| ensures 0 <= bounds'[i] <= bounds'[j] {
        assert 0 <= bounds[i] <= bounds[j];
        assert s <= i < r <= j ==> bounds[r] <= bounds[j];
      }
    }
    DisplaceKeepsPlaces(pieces, bounds, idx, prio, h, n, d);
  }

  lemma DisplaceKeepsPlaces(pieces: seq<int>, bounds: seq<int>, idx: seq<int>, prio: seq<int>, h: int, n: int, d: int)
    requires 0 <= h < |prio| && Layout(pieces, bounds, idx, prio[h := -1])
    requires 0 <= n < |pieces| && d == pieces[n] && 0 <= d < |prio| && d != h
    requires 0 <= prio[h] <= prio[d] < |bounds|
    requires Start(bounds, prio[h]) <= n <= bounds[prio[h]] && n < bounds[prio[d]]
    requires forall k :: prio[h] <= k < prio[d] ==> bounds[k] == n
    ensures var pieces', idx', prio' := pieces[n := h], idx[h := n], prio[d := -1];
            && (forall i :: 0 <= i < |pieces'| ==> Listed(pieces', idx', prio', i))
            && (forall p :: 0 <= p < |prio'| && prio'[p] >= 0 ==>
                  Placed(pieces', Raise(bounds, prio[h], prio[d]), idx', prio', p))
  {
    var prio0 := prio[h := -1];
    var pieces', bounds', idx', prio' := pieces[n := h], Raise(bounds, prio[h], prio[d]), idx[h := n], prio[d := -1];
    assert Listed(pieces, idx, prio0, n);
    forall i | 0 <= i < |pieces'| ensures Listed(pieces', idx', prio', i) {
      assert Listed(pieces, idx, prio0, i);
    }
    forall p | 0 <= p < |prio'| && prio'[p] >= 0 ensures Placed(pieces', bounds', idx', prio', p) {
      if p != h { assert Placed(pieces, bounds, idx, prio0, p); }
    }
  }

  /** The piece in hand finds its bucket ending at the end of the list, and is appended. */
  lemma Append(pieces: seq<int>, bounds: seq<int>, idx: seq<int>, prio: seq<int>, h: int, s: int)
    requires 0 <= h < |prio| && Layout(pieces, bounds, idx, prio[h := -1])
    requires 0 <= s < |bounds| && prio[h] == s && bounds[s] == |pieces|
    ensures forall k :: s <= k < |bounds| ==> bounds[k] == |pieces|
    ensures Layout(pieces + [h], Raise(bounds, s, |bounds|), idx[h := |pieces|], prio)
  {
    var n, prio0 := |pieces|, prio[h := -1];
    forall k | s <= k < |bounds| ensures bounds[k] == n {
      assert bounds[s] <= bounds[k] <= bounds[|bounds| - 1];
    }
    var pieces', bounds', idx' := pieces + [h], Raise(bounds, s, |bounds|), idx[h := n];
    forall i | 0 <= i < |pieces'| ensures Listed(pieces', idx', prio, i) {
      if i < n { assert Listed(pieces, idx, prio0, i); }
    }
    forall p | 0 <= p < |prio| && prio[p] >= 0 ensures Placed(pieces', bounds', idx', prio, p) {
      if p != h { assert Placed(pieces, bounds, idx, prio0, p); }
      else if s > 0 { assert bounds[s - 1] <= bounds[s]; }
    }
  }

  /** An insertion in progress: `h` is in hand, everything else is laid out, and
      `n` is where `h` goes. */
  ghost predicate Carrying(pieces: seq<int>, bounds: seq<int>, idx: seq<int>, prio: seq<int>, h: int, n: int) {
    && 0 <= h < |prio| && Layout(pieces, bounds, idx, prio[h := -1])
    && 0 <= prio[h] < |bounds|
    && Start(bounds, prio[h]) <= n <= bounds[prio[h]] <= |pieces|
    && 0 <= n
  }

  /** The boundary vector while `h` is in hand: bucket `prio[h]` is raised as soon
      as the insertion has moved past its first position. */
  ghost predicate RaisedFor(bounds: seq<int>, s: int, n: int, raised: seq<int>, next: int)
    requires 0 <= s < |bounds|
  {
    || (next == s && raised == bounds)
    || (next == s + 1 && raised == Raise(bounds, s, s + 1) && n == bounds[s])
  }

  /** What one run of boundary raising yields. */
  ghost predicate RaiseRun(raised: seq<int>, at: int, first: int, next: int, temp: int) {
    && 0 <= first < next <= |raised|
    && temp == raised[next - 1]
    && (forall k :: first <= k < next - 1 ==> raised[k] == at)
    && (temp == at ==> next == |raised|)
  }

  /** The raising stops exactly at the bucket of the displaced piece. */
  lemma RunStopsAt(bounds: seq<int>, s: int, r: int, n: int, raised: seq<int>, first: int, next: int, temp: int)
    requires 0 <= s <= r < |bounds| && bounds[r] > n
    requires forall k :: s <= k < r ==> bounds[k] == n
    requires RaisedFor(bounds, s, n, raised, first) && RaiseRun(raised, n, first, next, temp)
    ensures next == r + 1 && temp == bounds[r]
    ensures Raise(raised, first, next) == Raise(Raise(bounds, s, r), r, r + 1)
  {
    assert raised[r] == bounds[r];
  }

  /** One turn of the insertion cascade that displaces a piece. */
  lemma CarryOn(pieces: seq<int>, bounds: seq<int>, idx: seq<int>, prio: seq<int>, h: int, n: int,
                raised: seq<int>, first: int, next: int, temp: int)
    requires Carrying(pieces, bounds, idx, prio, h, n) && n < |pieces|
    requires RaisedFor(bounds, prio[h], n, raised, first) && RaiseRun(raised, n, first, next, temp)
    ensures 0 <= pieces[n] < |prio| && prio[h] <= prio[pieces[n]] < |bounds|
    ensures var d, bounds' := pieces[n], Raise(bounds, prio[h], prio[pieces[n]]);
            && next == prio[d] + 1
            && (next == |raised| ==> temp == |pieces|)
            && Carrying(pieces[n := h], bounds', idx[h := n], prio, d, temp)
            && RaisedFor(bounds', prio[d], temp, Raise(raised, first, next), next)
  {
    hide Layout;
    Displace(pieces, bounds, idx, prio, h, prio[h], n);
    var s, r := prio[h], prio[pieces[n]];
    RunStopsAt(bounds, s, r, n, raised, first, next, temp);
    BucketWithin(pieces[n := h], Raise(bounds, s, r), idx[h := n], prio[pieces[n] := -1], r);
  }

  /** The last turn of the cascade: the end of the list is reached. */
  lemma CarryHome(pieces: seq<int>, bounds: seq<int>, idx: seq<int>, prio: seq<int>, h: int, n: int,
                  raised: seq<int>, first: int, next: int, temp: int)
    requires Carrying(pieces, bounds, idx, prio, h, n) && n == |pieces|
    requires RaisedFor(bounds, prio[h], n, raised, first) && RaiseRun(raised, n, first, next, temp)
    ensures next == |bounds| == |raised|
    ensures Layout(pieces + [h], Raise(raised, first, next), idx[h := n], prio)
  {
    Append(pieces, bounds, idx, prio, h, prio[h]);
    assert forall k :: first <= k < |bounds| ==> raised[k] == n;
    assert Raise(raised, first, next) == Raise(bounds, prio[h], |bounds|);
  }

  /** Extra boundaries at the end add empty buckets. */
  function Extend(bounds: seq<int>, size: int, n: int): (r: seq<int>)
    requires 0 <= size
    ensures |r| == if |bounds| < size then size else |bounds|
    ensures forall k :: 0 <= k < |r| ==> r[k] == if k < |bounds| then bounds[k] else n
  {
    if |bounds| < size then bounds + seq(size - |bounds|, _ => n) else bounds
  }

  lemma ExtendKeepsLayout(pieces: seq<int>, bounds: seq<int>, idx: seq<int>, prio: seq<int>, size: int)
    requires Layout(pieces, bounds, idx, prio) && 0 <= size
    ensures Layout(pieces, Extend(bounds, size, |pieces|), idx, prio)
  {
    var bounds' := Extend(bounds, size, |pieces|);
    assert forall k :: 0 <= k < |bounds| ==> bounds[k] <= bounds[|bounds| - 1];
    forall p | 0 <= p < |prio| && prio[p] >= 0 ensures Placed(pieces, bounds', idx, prio, p) {
      assert Placed(pieces, bounds, idx, prio, p);
    }
  }

  /** Back-pointers of unlisted pieces are irrelevant. */
  lemma IgnoreUnlisted(pieces: seq<int>, bounds: seq<int>, idx: seq<int>, idx': seq<int>, prio: seq<int>)
    requires Layout(pieces, bounds, idx, prio) && |idx'| == |idx|
    requires forall p :: 0 <= p < |prio| && prio[p] >= 0 ==> idx'[p] == idx[p]
    ensures Layout(pieces, bounds, idx', prio)
  {
    forall i | 0 <= i < |pieces| ensures Listed(pieces, idx', prio, i) {
      assert Listed(pieces, idx, prio, i);
    }
    forall p | 0 <= p < |prio| && prio[p] >= 0 ensures Placed(pieces, bounds, idx', prio, p) {
      assert Placed(pieces, bounds, idx, prio, p);
    }
  }

  // ---------------------------------------------------------- uniqueness

  /** The pieces whose priority lies in `0..k`, `k` included. */
  function UpTo(prio: seq<int>, k: int): (s: set<int>) {
    set p | 0 <= p < |prio| && 0 <= prio[p] <= k
  }

  function Members(s: seq<int>): (r: set<int>) {
    set p | p in s
  }

  lemma {:induction false} DistinctCardinality(s: seq<int>)
    requires Distinct(s)
    ensures |Members(s)| == |s|
  {
    if |s| > 0 {
      var t := s[..|s| - 1];
      DistinctCardinality(t);
      assert Members(s) == Members(t) + {s[|s| - 1]};
      assert s[|s| - 1] !in Members(t);
    }
  }

  /** The pieces listed below boundary `k` are exactly those of priority at most `k`. */
  lemma PrefixIsUpTo(pieces: seq<int>, bounds: seq<int>, idx: seq<int>, prio: seq<int>, k: int)
    requires Layout(pieces, bounds, idx, prio) && 0 <= k < |bounds|
    ensures 0 <= bounds[k] <= |pieces|
    ensures Members(pieces[..bounds[k]]) == UpTo(prio, k)
    ensures bounds[k] == |UpTo(prio, k)|
  {
    assert bounds[k] <= bounds[|bounds| - 1];
    var s := pieces[..bounds[k]];
    forall p ensures p in Members(s) <==> p in UpTo(prio, k) {
      if p in Members(s) {
        var i :| 0 <= i < |s| && s[i] == p;
        assert Listed(pieces, idx, prio, i);
        assert Placed(pieces, bounds, idx, prio, p);
        EndsBefore(bounds, k, prio[p]);
      }
      if p in UpTo(prio, k) {
        assert Placed(pieces, bounds, idx, prio, p);
        assert bounds[prio[p]] <= bounds[k];
        assert s[idx[p]] == p;
      }
    }
    forall i, j | 0 <= i < j < |s| ensures s[i] != s[j] {
      assert Listed(pieces, idx, prio, i) && Listed(pieces, idx, prio, j);
    }
    DistinctCardinality(s);
  }

  lemma BucketWithin(pieces: seq<int>, bounds: seq<int>, idx: seq<int>, prio: seq<int>, b: int)
    requires Layout(pieces, bounds, idx, prio) && 0 <= b < |bounds|
    ensures 0 <= Start(bounds, b) <= bounds[b] <= |pieces|
    ensures b == |bounds| - 1 ==> bounds[b] == |pieces|
  {
  }

  /** Two layouts of the same priorities agree on every boundary and, bucket by
      bucket, on the pieces listed: they differ only in the order inside a bucket. */
  lemma LayoutUnique(pieces1: seq<int>, bounds1: seq<int>, idx1: seq<int>,
                     pieces2: seq<int>, bounds2: seq<int>, idx2: seq<int>, prio: seq<int>)
    requires Layout(pieces1, bounds1, idx1, prio) && Layout(pieces2, bounds2, idx2, prio)
    ensures |pieces1| == |pieces2| && multiset(pieces1) == multiset(pieces2)
    ensures forall k :: 0 <= k < |bounds1| && k < |bounds2| ==>
              bounds1[k] == bounds2[k] && 0 <= Start(bounds1, k) <= bounds1[k] <= |pieces1|
    ensures forall k :: 0 <= k < |bounds1| && k < |bounds2| ==>
              Members(pieces1[Start(bounds1, k)..bounds1[k]]) == Members(pieces2[Start(bounds2, k)..bounds2[k]])
  {
    PrefixIsUpTo(pieces1, bounds1, idx1, prio, |bounds1| - 1);
    PrefixIsUpTo(pieces2, bounds2, idx2, prio, |bounds2| - 1);
    assert UpTo(prio, |bounds1| - 1) == UpTo(prio, |bounds2| - 1) by {
      forall p | 0 <= p < |prio| && prio[p] >= 0 ensures prio[p] < |bounds1| && prio[p] < |bounds2| {
        assert Placed(pieces1, bounds1, idx1, prio, p) && Placed(pieces2, bounds2, idx2, prio, p);
      }
    }
    assert pieces1[..|pieces1|] == pieces1 && pieces2[..|pieces2|] == pieces2;
    SameMembers(pieces1, pieces2, idx1, idx2, prio);
    forall k | 0 <= k < |bounds1| && k < |bounds2|
      ensures bounds1[k] == bounds2[k] && 0 <= Start(bounds1, k) <= bounds1[k] <= |pieces1|
      ensures Members(pieces1[Start(bounds1, k)..bounds1[k]]) == Members(pieces2[Start(bounds2, k)..bounds2[k]])
    {
      PrefixIsUpTo(pieces1, bounds1, idx1, prio, k);
      PrefixIsUpTo(pieces2, bounds2, idx2, prio, k);
      if k > 0 {
        PrefixIsUpTo(pieces1, bounds1, idx1, prio, k - 1);
        PrefixIsUpTo(pieces2, bounds2, idx2, prio, k - 1);
        assert bounds1[k - 1] <= bounds1[k];
      }
      BucketMembers(pieces1, bounds1, idx1, prio, k);
      BucketMembers(pieces2, bounds2, idx2, prio, k);
    }
  }

  lemma BucketMembers(pieces: seq<int>, bounds: seq<int>, idx: seq<int>, prio: seq<int>, k: int)
    requires Layout(pieces, bounds, idx, prio) && 0 <= k < |bounds|
    ensures 0 <= Start(bounds, k) <= bounds[k] <= |pieces|
    ensures Members(pieces[Start(bounds, k)..bounds[k]]) == set p | 0 <= p < |prio| && prio[p] == k
  {
    if k > 0 { assert bounds[k - 1] <= bounds[k]; }
    assert bounds[k] <= bounds[|bounds| - 1];
    var s, from := pieces[Start(bounds, k)..bounds[k]], Start(bounds, k);
    forall p ensures p in Members(s) <==> 0 <= p < |prio| && prio[p] == k {
      if p in Members(s) {
        var i :| 0 <= i < |s| && s[i] == p;
        BucketOf(pieces, bounds, idx, prio, k, from + i);
      }
      if 0 <= p < |prio| && prio[p] == k {
        assert Placed(pieces, bounds, idx, prio, p);
        assert s[idx[p] - from] == p;
      }
    }
  }

  ghost predicate Distinct(s: seq<int>) {
    forall i, j :: 0 <= i < j < |s| ==> s[i] != s[j]
  }

  lemma {:induction false} DistinctMultiset(s: seq<int>)
    requires Distinct(s)
    ensures multiset(s) == multiset(Members(s))
  {
    if |s| > 0 {
      var t, x := s[..|s| - 1], s[|s| - 1];
      DistinctMultiset(t);
      assert s == t + [x];
      assert Members(s) == Members(t) + {x} && x !in Members(t);
    }
  }

  lemma SameMembers(pieces1: seq<int>, pieces2: seq<int>, idx1: seq<int>, idx2: seq<int>, prio: seq<int>)
    requires |idx1| == |prio| == |idx2|
    requires forall i :: 0 <= i < |pieces1| ==> Listed(pieces1, idx1, prio, i)
    requires forall i :: 0 <= i < |pieces2| ==> Listed(pieces2, idx2, prio, i)
    requires Members(pieces1) == Members(pieces2)
    ensures multiset(pieces1) == multiset(pieces2)
  {
    forall i, j | 0 <= i < j < |pieces1| ensures pieces1[i] != pieces1[j] {
      assert Listed(pieces1, idx1, prio, i) && Listed(pieces1, idx1, prio, j);
    }
    forall i, j | 0 <= i < j < |pieces2| ensures pieces2[i] != pieces2[j] {
      assert Listed(pieces2, idx2, prio, i) && Listed(pieces2, idx2, prio, j);
    }
    DistinctMultiset(pieces1);
    DistinctMultiset(pieces2);
  }

  /** Reading the list from front to back visits priorities in nondecreasing order. */
  lemma ListIsSorted(pieces: seq<int>, bounds: seq<int>, idx: seq<int>, prio: seq<int>, i: int, j: int)
    requires Layout(pieces, bounds, idx, prio) && 0 <= i <= j < |pieces|
    ensures Listed(pieces, idx, prio, i) && Listed(pieces, idx, prio, j)
    ensures prio[pieces[i]] <= prio[pieces[j]]
  {
    assert Listed(pieces, idx, prio, i) && Listed(pieces, idx, prio, j);
    assert Placed(pieces, bounds, idx, prio, pieces[i]) && Placed(pieces, bounds, idx, prio, pieces[j]);
    EndsBefore(bounds, prio[pieces[j]], prio[pieces[i]]);
  }
}
