/** The two scans over the peer list: looking for a peer to connect to, and weeding. */
module PeerScan {
  import opened Lists
  import opened PeerTypes

  // ------------------------------------------------------ what a scan leaves

  /** `kept` lists, in order, which of the original peers are still there. */
  ghost predicate Picks(all: seq<Peer>, kept: seq<int>, s: seq<Peer>) {
    && |s| == |kept|
    && (forall k :: 0 <= k < |kept| ==> 0 <= kept[k] < |all| && s[k] == all[kept[k]])
    && forall i, j :: 0 <= i < j < |kept| ==> kept[i] < kept[j]
  }

  lemma PicksDrop(all: seq<Peer>, kept: seq<int>, s: seq<Peer>, i: int)
    requires Picks(all, kept, s) && 0 <= i < |s|
    ensures Picks(all, Without(kept, i), Without(s, i))
  {
  }

  /** Whatever was dropped may be forgotten. */
  ghost predicate DroppedOk(all: seq<Peer>, kept: seq<int>, finished: bool, c: Settings) {
    forall o :: 0 <= o < |all| && o !in kept ==> IsEraseCandidate(all[o], finished, c)
  }

  lemma DroppedMore(all: seq<Peer>, kept: seq<int>, s: seq<Peer>, i: int, finished: bool, c: Settings)
    requires Picks(all, kept, s) && DroppedOk(all, kept, finished, c) && 0 <= i < |s| && IsEraseCandidate(s[i], finished, c)
    ensures DroppedOk(all, Without(kept, i), finished, c)
  {
    hide IsEraseCandidate;
    var r := Without(kept, i);
    forall o | 0 <= o < |all| && o !in r ensures IsEraseCandidate(all[o], finished, c) {
      DropKeeps(kept, i, o);
    }
  }

  /** The position of a peer after the peer at `i` was erased. */
  function Shift(k: int, i: int): int {
    if k > i then k - 1 else k
  }

  lemma DropKeeps(kept: seq<int>, i: int, o: int)
    requires 0 <= i < |kept|
    ensures o in kept && o != kept[i] ==> o in Without(kept, i)
  {
    if o in kept && o != kept[i] {
      var k :| 0 <= k < |kept| && kept[k] == o;
      assert Without(kept, i)[Shift(k, i)] == o;
    }
  }

  lemma DropAt(kept: seq<int>, i: int, k: int)
    requires 0 <= i < |kept| && 0 <= k < |kept| && k != i
    ensures 0 <= Shift(k, i) < |Without(kept, i)| && Without(kept, i)[Shift(k, i)] == kept[k]
  {
  }

  /** What `erase_peer` does to the round robin cursor. */
  function AfterErase(roundRobin: int, i: int, size: int): int {
    var r := if roundRobin > i then roundRobin - 1 else roundRobin;
    if r >= size then 0 else r
  }

  // ------------------------------------------------- once around the list

  /** How many steps from `start` around a list of `n` peers to position `o`. */
  function Steps(o: int, start: int, n: int): int {
    if o >= start then o - start else o + n - start
  }

  /** The peer visited at step `step`. */
  function Visited(start: int, step: int, n: int): int {
    if start + step < n then start + step else start + step - n
  }

  /** Positions not visited yet are all still there. */
  ghost predicate Unseen(kept: seq<int>, start: int, step: int, n: int) {
    forall o :: 0 <= o < n && Steps(o, start, n) >= step ==> o in kept
  }

  /** The cursor stands at the next position, or past the end when that is the first. */
  ghost predicate CursorAt(kept: seq<int>, start: int, step: int, n: int, cursor: int) {
    && 0 <= cursor <= |kept|
    && (step < n ==> if cursor < |kept| then kept[cursor] == Visited(start, step, n) else Visited(start, step, n) == 0)
  }

  ghost predicate Increasing(kept: seq<int>, n: int) {
    && (forall k :: 0 <= k < |kept| ==> 0 <= kept[k] < n)
    && forall i, j :: 0 <= i < j < |kept| ==> kept[i] < kept[j]
  }

  lemma Ordered(kept: seq<int>, n: int, i: int, j: int)
    requires Increasing(kept, n) && 0 <= i < |kept| && 0 <= j < |kept|
    ensures i < j ==> kept[i] < kept[j]
  {
  }

  /** The wrap puts the cursor on the next position. */
  lemma Wrapped(kept: seq<int>, start: int, step: int, n: int, cursor: int)
    requires Increasing(kept, n) && 0 <= start < n && 0 <= step < n
    requires Unseen(kept, start, step, n) && CursorAt(kept, start, step, n, cursor)
    ensures var c := if cursor >= |kept| then 0 else cursor;
            0 <= c < |kept| && kept[c] == Visited(start, step, n) && CursorAt(kept, start, step, n, c)
  {
    var o := Visited(start, step, n);
    assert Steps(o, start, n) == step;
    assert o in kept;
    if cursor >= |kept| {
      var k :| 0 <= k < |kept| && kept[k] == 0;
      Ordered(kept, n, 0, k);
    }
  }

  /** Stepping on, with the visited peer kept. */
  lemma StepOn(kept: seq<int>, start: int, step: int, n: int, c: int)
    requires Increasing(kept, n) && 0 <= start < n && 0 <= step < n
    requires Unseen(kept, start, step, n) && 0 <= c < |kept| && kept[c] == Visited(start, step, n)
    ensures Unseen(kept, start, step + 1, n) && CursorAt(kept, start, step + 1, n, c + 1)
  {
    if step + 1 < n {
      var o := Visited(start, step + 1, n);
      assert Steps(o, start, n) == step + 1;
      assert o in kept;
      var k :| 0 <= k < |kept| && kept[k] == o;
      if o != 0 {
        assert o == kept[c] + 1;
        Ordered(kept, n, k, c);
        Ordered(kept, n, c, c + 1);
        Ordered(kept, n, c + 1, k);
      } else {
        Ordered(kept, n, c, |kept| - 1);
      }
    }
  }

  /** Stepping on, with the visited peer erased. */
  lemma StepErase(kept: seq<int>, start: int, step: int, n: int, c: int)
    requires Increasing(kept, n) && 0 <= start < n && 0 <= step < n
    requires Unseen(kept, start, step, n) && 0 <= c < |kept| && kept[c] == Visited(start, step, n)
    ensures Increasing(Without(kept, c), n)
    ensures Unseen(Without(kept, c), start, step + 1, n) && CursorAt(Without(kept, c), start, step + 1, n, c)
  {
    StepOn(kept, start, step, n, c);
    var r := Without(kept, c);
    forall o | 0 <= o < n && Steps(o, start, n) >= step + 1 ensures o in r {
      assert Steps(kept[c], start, n) == step;
      DropKeeps(kept, c, o);
    }
  }

  // ------------------------------------------------------ connect candidates

  datatype Context = Context(view: View, now: int, maxSize: int)

  predicate Good(p: Peer, x: Context) {
    Eligible(p, x.now, x.view.finished, x.view.settings)
  }

  predicate Forgettable(p: Peer, x: Context) {
    IsEraseCandidate(p, x.view.finished, x.view.settings)
  }

  /** Visited and still in the list, at position `c`. */
  ghost predicate SeenAt(kept: seq<int>, start: int, step: int, n: int, c: int) {
    0 <= c < |kept| && Steps(kept[c], start, n) < step
  }

  ghost predicate NoneBetter(all: seq<Peer>, start: int, step: int, p: Peer, x: Context) {
    forall o :: 0 <= o < |all| && Steps(o, start, |all|) < step && Good(all[o], x) ==> !ComparePeer(all[o], p, x.view)
  }

  ghost predicate NoneGood(all: seq<Peer>, start: int, step: int, x: Context) {
    forall o :: 0 <= o < |all| && Steps(o, start, |all|) < step ==> !Good(all[o], x)
  }

  /** The best peer of the first `step` visited ones is at position `c`, or there is none. */
  ghost predicate Best(all: seq<Peer>, kept: seq<int>, start: int, step: int, c: int, x: Context) {
    && (forall k :: 0 <= k < |kept| ==> 0 <= kept[k] < |all|)
    && if c == -1 then NoneGood(all, start, step, x)
       else SeenAt(kept, start, step, |all|, c) && Good(all[kept[c]], x) && NoneBetter(all, start, step, all[kept[c]], x)
  }

  /** The next peer visited is no better than the best one, or cannot be connected to. */
  lemma BestStays(all: seq<Peer>, kept: seq<int>, start: int, step: int, c: int, x: Context)
    requires Best(all, kept, start, step, c, x) && 0 <= start < |all| && 0 <= step < |all|
    requires var p := all[Visited(start, step, |all|)];
             Good(p, x) ==> c != -1 && ComparePeer(all[kept[c]], p, x.view)
    ensures Best(all, kept, start, step + 1, c, x)
  {
    hide Good, ComparePeer;
    var v := Visited(start, step, |all|);
    forall o | 0 <= o < |all| && Steps(o, start, |all|) < step + 1 && Good(all[o], x) ensures c != -1 && !ComparePeer(all[o], all[kept[c]], x.view) {
      if o == v {
        Asymmetric(all[kept[c]], all[v], x.view);
      }
    }
  }

  lemma Asymmetric(a: Peer, b: Peer, v: View)
    requires ComparePeer(a, b, v)
    ensures !ComparePeer(b, a, v)
  {
    ComparePeerOrder(a, b, a, v);
  }

  /** The next peer visited is the new best one. */
  lemma BestChanges(all: seq<Peer>, kept: seq<int>, start: int, step: int, c: int, c': int, x: Context)
    requires Best(all, kept, start, step, c, x) && 0 <= start < |all| && 0 <= step < |all|
    requires 0 <= c' < |kept| && kept[c'] == Visited(start, step, |all|) && Good(all[kept[c']], x)
    requires c != -1 ==> !ComparePeer(all[kept[c]], all[kept[c']], x.view)
    ensures Best(all, kept, start, step + 1, c', x)
  {
    hide Good, ComparePeer;
    var p := all[kept[c']];
    forall o | 0 <= o < |all| && Steps(o, start, |all|) < step + 1 && Good(all[o], x) ensures !ComparePeer(all[o], p, x.view) {
      if c != -1 { ComparePeerOrder(all[o], all[kept[c]], p, x.view); }
      ComparePeerOrder(p, p, p, x.view);
    }
  }

  /** Erasing another peer leaves the best one in place. */
  lemma BestShifts(all: seq<Peer>, kept: seq<int>, start: int, step: int, c: int, i: int, x: Context)
    requires Best(all, kept, start, step, c, x) && 0 <= i < |kept| && i != c
    ensures Best(all, Without(kept, i), start, step, if c > i then c - 1 else c, x)
  {
    hide Good, ComparePeer, NoneBetter, NoneGood;
    if c != -1 { DropAt(kept, i, c); }
  }

  // ---------------------------------------------------- find_connect_candidate

  /** Ninety-five percent of the largest size, in integers. */
  lemma TooManyMeans(size: int, maxSize: int)
    ensures TooMany(size, maxSize) <==> maxSize > 0 && 20 * size >= 19 * maxSize
  {
  }

  predicate TooMany(size: int, maxSize: int) {
    maxSize > 0 && size as real >= maxSize as real * 0.95
  }

  /** The variables of the scan: the list, the cursor, the best peer to connect to, the
      best peer to forget, and the number of seeds. */
  datatype Scan = Scan(s: seq<Peer>, cursor: int, candidate: int, eraseCandidate: int, seeds: int)

  ghost predicate Counts(all: seq<Peer>, sc: Scan, x: Context) {
    sc.seeds == Count(sc.s, Seeds) && Count(sc.s, Candidates(x.view.settings, x.view.finished)) == Count(all, Candidates(x.view.settings, x.view.finished))
  }

  ghost predicate ToForget(all: seq<Peer>, kept: seq<int>, start: int, step: int, c: int, x: Context) {
    c == -1 || (SeenAt(kept, start, step, |all|, c) && 0 <= kept[c] < |all| && Forgettable(all[kept[c]], x))
  }

  ghost predicate Scanning(all: seq<Peer>, kept: seq<int>, start: int, step: int, sc: Scan, x: Context) {
    && Picks(all, kept, sc.s) && DroppedOk(all, kept, x.view.finished, x.view.settings) && Counts(all, sc, x)
    && Unseen(kept, start, step, |all|) && CursorAt(kept, start, step, |all|, sc.cursor)
    && Best(all, kept, start, step, sc.candidate, x) && ToForget(all, kept, start, step, sc.eraseCandidate, x)
  }

  lemma PicksIncreasing(all: seq<Peer>, kept: seq<int>, s: seq<Peer>)
    requires Picks(all, kept, s)
    ensures Increasing(kept, |all|) && |s| == |kept|
  {
  }

  lemma ForgettableIsNotGood(p: Peer, x: Context)
    ensures Forgettable(p, x) ==> !Good(p, x) && !Is(p, Candidates(x.view.settings, x.view.finished))
  {
  }

  lemma CountsErase(all: seq<Peer>, sc: Scan, i: int, x: Context, r: Scan)
    requires Counts(all, sc, x) && 0 <= i < |sc.s| && Forgettable(sc.s[i], x)
    requires r.s == Without(sc.s, i) && r.seeds == sc.seeds - if sc.s[i].seed then 1 else 0
    ensures Counts(all, r, x)
  {
    CountErased(sc.s, i, Seeds);
    CountErased(sc.s, i, Candidates(x.view.settings, x.view.finished));
  }

  /** What `erase_peer` does to the variables of the scan. */
  function EraseCurrent(sc: Scan, i: int): Scan
    requires 0 <= i < |sc.s|
  {
    Scan(Without(sc.s, i), AfterErase(sc.cursor - 1, i, |sc.s|),
         if sc.candidate > i then sc.candidate - 1 else sc.candidate,
         if sc.eraseCandidate > i then sc.eraseCandidate - 1 else sc.eraseCandidate,
         sc.seeds - if sc.s[i].seed then 1 else 0)
  }

  lemma ForgetShifts(all: seq<Peer>, kept: seq<int>, start: int, step: int, c: int, i: int, x: Context)
    requires ToForget(all, kept, start, step, c, x) && 0 <= i < |kept| && i != c
    ensures ToForget(all, Without(kept, i), start, step, if c > i then c - 1 else c, x)
  {
    hide Forgettable;
    if c != -1 { DropAt(kept, i, c); }
  }

  /** The visited peer is forgotten at once. */
  lemma VisitErases(all: seq<Peer>, kept: seq<int>, start: int, step: int, sc: Scan, x: Context)
    requires Scanning(all, kept, start, step, sc, x) && 0 <= start < |all| && 0 <= step < |all|
    requires 0 <= sc.cursor < |kept| == |sc.s| && kept[sc.cursor] == Visited(start, step, |all|)
    requires Forgettable(sc.s[sc.cursor], x)
    ensures var r := EraseCurrent(sc, sc.cursor);
            Scanning(all, Without(kept, sc.cursor), start, step + 1, r.(cursor := r.cursor + 1), x)
  {
    hide *;
    var i := sc.cursor;
    var was := EraseCurrent(sc, i);
    var r := was.(cursor := was.cursor + 1);
    ScanningIs(all, kept, start, step, sc, x);
    PicksAt(all, kept, sc.s, i);
    PicksIncreasing(all, kept, sc.s);
    ForgettableIsNotGood(sc.s[i], x);
    ForgettableIs(sc.s[i], x);
    CandidateElsewhere(all, kept, start, step, sc, x);
    EraseCurrentIs(sc);
    PicksDrop(all, kept, sc.s, i);
    DroppedMore(all, kept, sc.s, i, x.view.finished, x.view.settings);
    CountsErase(all, sc, i, x, r);
    StepErase(kept, start, step, |all|, i);
    BestShifts(all, kept, start, step, sc.candidate, i, x);
    BestStays(all, Without(kept, i), start, step, r.candidate, x);
    ForgetShifts(all, kept, start, step, sc.eraseCandidate, i, x);
    ForgetLater(all, Without(kept, i), start, step, r.eraseCandidate, x);
    ScanningIs(all, Without(kept, i), start, step + 1, r, x);
  }

  lemma ForgetLater(all: seq<Peer>, kept: seq<int>, start: int, step: int, c: int, x: Context)
    requires ToForget(all, kept, start, step, c, x)
    ensures ToForget(all, kept, start, step + 1, c, x)
  {
  }

  lemma ScanningIs(all: seq<Peer>, kept: seq<int>, start: int, step: int, sc: Scan, x: Context)
    ensures Scanning(all, kept, start, step, sc, x) <==>
              && Picks(all, kept, sc.s) && DroppedOk(all, kept, x.view.finished, x.view.settings) && Counts(all, sc, x)
              && Unseen(kept, start, step, |all|) && CursorAt(kept, start, step, |all|, sc.cursor)
              && Best(all, kept, start, step, sc.candidate, x) && ToForget(all, kept, start, step, sc.eraseCandidate, x)
  {
    hide Picks, DroppedOk, Counts, Unseen, CursorAt, Best, ToForget;
  }

  lemma PicksAt(all: seq<Peer>, kept: seq<int>, s: seq<Peer>, i: int)
    requires Picks(all, kept, s) && 0 <= i < |s|
    ensures |s| == |kept| && 0 <= kept[i] < |all| && s[i] == all[kept[i]]
  {
  }

  lemma EraseCurrentIs(sc: Scan)
    requires 0 <= sc.cursor < |sc.s|
    ensures var i, r := sc.cursor, EraseCurrent(sc, sc.cursor);
            && r.s == Without(sc.s, i) && r.cursor == i - 1
            && r.candidate == (if sc.candidate > i then sc.candidate - 1 else sc.candidate)
            && r.eraseCandidate == (if sc.eraseCandidate > i then sc.eraseCandidate - 1 else sc.eraseCandidate)
            && r.seeds == sc.seeds - if sc.s[i].seed then 1 else 0
  {
  }

  lemma ForgettableIs(p: Peer, x: Context)
    ensures Forgettable(p, x) <==> IsEraseCandidate(p, x.view.finished, x.view.settings)
  {
  }

  lemma CandidateElsewhere(all: seq<Peer>, kept: seq<int>, start: int, step: int, sc: Scan, x: Context)
    requires Scanning(all, kept, start, step, sc, x) && 0 <= start < |all| && 0 <= step < |all|
    requires 0 <= sc.cursor < |kept| && kept[sc.cursor] == Visited(start, step, |all|)
    ensures sc.candidate != sc.cursor && sc.eraseCandidate != sc.cursor
    ensures sc.candidate == -1 || 0 <= sc.candidate < |kept|
    ensures sc.eraseCandidate == -1 || 0 <= sc.eraseCandidate < |kept|
  {
  }

  /** The visited peer stays. */
  lemma VisitKeeps(all: seq<Peer>, kept: seq<int>, start: int, step: int, sc: Scan, x: Context, r: Scan)
    requires Scanning(all, kept, start, step, sc, x) && 0 <= start < |all| && 0 <= step < |all|
    requires 0 <= sc.cursor < |kept| == |sc.s| && kept[sc.cursor] == Visited(start, step, |all|)
    requires r == sc.(cursor := sc.cursor + 1, candidate := r.candidate, eraseCandidate := r.eraseCandidate)
    requires r.eraseCandidate == sc.eraseCandidate || (r.eraseCandidate == sc.cursor && Forgettable(sc.s[sc.cursor], x))
    requires sc.candidate == -1 || 0 <= sc.candidate < |sc.s|
    requires if r.candidate == sc.candidate then Good(sc.s[sc.cursor], x) ==> sc.candidate != -1 && ComparePeer(sc.s[sc.candidate], sc.s[sc.cursor], x.view)
             else r.candidate == sc.cursor && Good(sc.s[sc.cursor], x) && (sc.candidate != -1 ==> !ComparePeer(sc.s[sc.candidate], sc.s[sc.cursor], x.view))
    ensures Scanning(all, kept, start, step + 1, r, x)
  {
    var i := sc.cursor;
    assert sc.s[i] == all[kept[i]] && Increasing(kept, |all|) && (sc.candidate != -1 ==> sc.s[sc.candidate] == all[kept[sc.candidate]]);
    hide Counts, Forgettable, Good, IsEraseCandidate, Is, ComparePeer;
    StepOn(kept, start, step, |all|, i);
    if r.candidate == sc.candidate {
      BestStays(all, kept, start, step, sc.candidate, x);
    } else {
      BestChanges(all, kept, start, step, sc.candidate, i, x);
    }
    assert ToForget(all, kept, start, step + 1, r.eraseCandidate, x);
    CountsSame(all, sc, r, x);
  }

  lemma CountsSame(all: seq<Peer>, sc: Scan, r: Scan, x: Context)
    requires Counts(all, sc, x) && r.s == sc.s && r.seeds == sc.seeds
    ensures Counts(all, r, x)
  {
  }

  /** One turn of the scan. */
  method VisitNext(sc0: Scan, x: Context, ghost all: seq<Peer>, ghost kept0: seq<int>, ghost start: int, ghost step: int)
    returns (sc: Scan, ghost kept: seq<int>)
    requires Scanning(all, kept0, start, step, sc0, x) && 0 <= start < |all| && 0 <= step < |all|
    ensures Scanning(all, kept, start, step + 1, sc, x)
    ensures !TooMany(|sc0.s|, x.maxSize) ==> sc.s == sc0.s && kept == kept0 && sc.eraseCandidate == sc0.eraseCandidate
  {
    hide *;
    ScanningParts(all, kept0, start, step, sc0, x);
    Wrapped(kept0, start, step, |all|, sc0.cursor);
    kept := kept0;
    sc := if sc0.cursor >= |sc0.s| then sc0.(cursor := 0) else sc0;
    CursorMoved(all, kept, start, step, sc0, x, sc);
    CandidateElsewhere(all, kept, start, step, sc, x);
    var current := sc.cursor;
    var pe := sc.s[current];
    var forget := sc.eraseCandidate;
    ForgettableIs(pe, x);
    if TooMany(|sc.s|, x.maxSize) && IsEraseCandidate(pe, x.view.finished, x.view.settings)
       && (forget == -1 || !ComparePeerErase(sc.s[forget], pe)) {
      if ShouldEraseImmediately(pe) {
        // an erased peer is no connect candidate, so its turn ends here
        VisitErases(all, kept, start, step, sc, x);
        kept := Without(kept, current);
        sc := EraseCurrent(sc, current);
        sc := sc.(cursor := sc.cursor + 1);
        return;
      }
      forget := current;
    }
    GoodIs(pe, x);
    var candidate := sc.candidate;
    if IsConnectCandidate(pe, x.view.finished, x.view.settings)
       && !(candidate != -1 && ComparePeer(sc.s[candidate], pe, x.view))
       && BackOffElapsed(pe, x.now, x.view.settings) {
      candidate := current;
    }
    ghost var before := sc;
    sc := sc.(cursor := sc.cursor + 1, candidate := candidate, eraseCandidate := forget);
    VisitKeeps(all, kept, start, step, before, x, sc);
  }

  lemma GoodIs(p: Peer, x: Context)
    ensures Good(p, x) <==> IsConnectCandidate(p, x.view.finished, x.view.settings) && BackOffElapsed(p, x.now, x.view.settings)
  {
  }

  lemma ScanningParts(all: seq<Peer>, kept: seq<int>, start: int, step: int, sc: Scan, x: Context)
    requires Scanning(all, kept, start, step, sc, x)
    ensures Increasing(kept, |all|) && |sc.s| == |kept|
    ensures Unseen(kept, start, step, |all|) && CursorAt(kept, start, step, |all|, sc.cursor)
  {
  }

  lemma CursorMoved(all: seq<Peer>, kept: seq<int>, start: int, step: int, sc: Scan, x: Context, r: Scan)
    requires Scanning(all, kept, start, step, sc, x) && CursorAt(kept, start, step, |all|, r.cursor) && r == sc.(cursor := r.cursor)
    ensures Scanning(all, kept, start, step, r, x)
  {
    CountsSame(all, sc, r, x);
  }

  /** The peers a scan visits: the first so many from `start` on, around the list. */
  function Turns(n: int): int {
    if n < 300 then n else 300
  }

  ghost function Identity(n: nat): (kept: seq<int>)
    ensures |kept| == n && forall k :: 0 <= k < n ==> kept[k] == k
  {
    seq(n, k => k)
  }

  lemma TurnsIs(n: nat)
    ensures 0 <= Turns(n) <= n
  {
  }

  lemma ScanStart(all: seq<Peer>, start: int, seeds: int, x: Context)
    requires 0 <= start < |all| && seeds == Count(all, Seeds)
    ensures Scanning(all, Identity(|all|), start, 0, Scan(all, start, -1, -1, seeds), x)
  {
    hide Count, Good, Forgettable, IsEraseCandidate, Identity;
    var kept, sc := Identity(|all|), Scan(all, start, -1, -1, seeds);
    forall o | 0 <= o < |all| ensures o in kept { assert kept[o] == o; }
    assert Picks(all, kept, sc.s);
    assert DroppedOk(all, kept, x.view.finished, x.view.settings);
    assert Unseen(kept, start, 0, |all|) && CursorAt(kept, start, 0, |all|, start);
    assert Best(all, kept, start, 0, -1, x);
  }

  /** Once around the list, or three hundred peers of it. */
  method ScanAll(all: seq<Peer>, start: int, seeds: int, x: Context) returns (sc: Scan, ghost kept: seq<int>)
    requires 0 <= start < |all| && seeds == Count(all, Seeds)
    ensures Scanning(all, kept, start, Turns(|all|), sc, x)
    ensures !TooMany(|all|, x.maxSize) ==> sc.s == all && sc.eraseCandidate == -1
  {
    hide *;
    sc := Scan(all, start, -1, -1, seeds);
    kept := Identity(|all|);
    ScanStart(all, start, seeds, x);
    TurnsIs(|all|);
    var iterations := Turns(|all|);
    ghost var step := 0;
    while iterations > 0
      invariant 0 <= step && 0 <= iterations && step + iterations == Turns(|all|) && Turns(|all|) <= |all|
      invariant Scanning(all, kept, start, step, sc, x)
      invariant !TooMany(|all|, x.maxSize) ==> sc.s == all && sc.eraseCandidate == -1
    {
      sc, kept := VisitNext(sc, x, all, kept, start, step);
      iterations := iterations - 1;
      step := step + 1;
    }
  }

  /** What the search promises: what is left of the list, in order, with only peers
      that may be forgotten gone; and at `r` the best eligible peer among those
      visited, or the end of the list when none is eligible. */
  ghost predicate Found(all: seq<Peer>, start: int, x: Context, s: seq<Peer>, kept: seq<int>, r: int) {
    && Picks(all, kept, s) && DroppedOk(all, kept, x.view.finished, x.view.settings)
    && 0 <= r <= |s| && Best(all, kept, start, Turns(|all|), if r == |s| then -1 else r, x)
  }

  method FindCandidate(all: seq<Peer>, roundRobin: int, seeds: int, x: Context)
    returns (s: seq<Peer>, cursor: int, seeds': int, r: int, ghost start: int, ghost kept: seq<int>)
    requires all != [] && 0 <= roundRobin && seeds == Count(all, Seeds)
    ensures start == (if roundRobin >= |all| then 0 else roundRobin) && Found(all, start, x, s, kept, r)
    ensures 0 <= cursor <= |s| && seeds' == Count(s, Seeds)
    ensures Count(s, Candidates(x.view.settings, x.view.finished)) == Count(all, Candidates(x.view.settings, x.view.finished))
    ensures !TooMany(|all|, x.maxSize) ==> s == all
  {
    hide *;
    var from := if roundRobin >= |all| then 0 else roundRobin;
    start := from;
    var sc;
    sc, kept := ScanAll(all, from, seeds, x);
    FoundHere(all, kept, start, sc, x);
    s, cursor, seeds', r := sc.s, sc.cursor, sc.seeds, sc.candidate;
    var e := sc.eraseCandidate;
    if e > -1 {
      FoundAfterErase(all, kept, start, sc, x);
      if r > e { r := r - 1; }
      seeds' := seeds' - if s[e].seed then 1 else 0;
      cursor := AfterErase(cursor, e, |s|);
      s := Without(s, e);
      kept := Without(kept, e);
    }
    if r == -1 { r := |s|; }
  }

  lemma FoundHere(all: seq<Peer>, kept: seq<int>, start: int, sc: Scan, x: Context)
    requires Scanning(all, kept, start, Turns(|all|), sc, x)
    ensures -1 <= sc.candidate < |sc.s| && -1 <= sc.eraseCandidate < |sc.s| && |sc.s| == |kept| && 0 <= sc.cursor <= |sc.s|
    ensures Found(all, start, x, sc.s, kept, if sc.candidate == -1 then |sc.s| else sc.candidate)
    ensures sc.seeds == Count(sc.s, Seeds)
    ensures Count(sc.s, Candidates(x.view.settings, x.view.finished)) == Count(all, Candidates(x.view.settings, x.view.finished))
  {
    hide Count, IsEraseCandidate, Good, NoneGood, NoneBetter, Forgettable, Unseen;
  }

  lemma FoundAfterErase(all: seq<Peer>, kept: seq<int>, start: int, sc: Scan, x: Context)
    requires Scanning(all, kept, start, Turns(|all|), sc, x) && sc.eraseCandidate > -1
    ensures var e, c := sc.eraseCandidate, sc.candidate;
            && 0 <= e < |sc.s| && |sc.s| == |kept| && 0 <= AfterErase(sc.cursor, e, |sc.s|) <= |sc.s| - 1
            && var s := Without(sc.s, e);
               && Found(all, start, x, s, Without(kept, e), if c == -1 then |s| else if c > e then c - 1 else c)
               && sc.seeds - (if sc.s[e].seed then 1 else 0) == Count(s, Seeds)
               && Count(s, Candidates(x.view.settings, x.view.finished)) == Count(all, Candidates(x.view.settings, x.view.finished))
  {
    hide *;
    var e, c := sc.eraseCandidate, sc.candidate;
    FoundHere(all, kept, start, sc, x);
    ScanningIs(all, kept, start, Turns(|all|), sc, x);
    ForgetIs(all, kept, start, Turns(|all|), e, x);
    PicksAt(all, kept, sc.s, e);
    ForgettableIsNotGood(sc.s[e], x);
    ForgettableIs(sc.s[e], x);
    BestIs(all, kept, start, Turns(|all|), c, x);
    PicksDrop(all, kept, sc.s, e);
    DroppedMore(all, kept, sc.s, e, x.view.finished, x.view.settings);
    BestShifts(all, kept, start, Turns(|all|), c, e, x);
    CountsErased(all, sc, e, x);
    AfterEraseIs(sc.cursor, e, |sc.s|);
    FoundIs(all, start, x, Without(sc.s, e), Without(kept, e), if c == -1 then |sc.s| - 1 else if c > e then c - 1 else c);
  }

  lemma ForgetIs(all: seq<Peer>, kept: seq<int>, start: int, step: int, c: int, x: Context)
    requires ToForget(all, kept, start, step, c, x) && c != -1
    ensures 0 <= c < |kept| && 0 <= kept[c] < |all| && Forgettable(all[kept[c]], x)
  {
  }

  lemma BestIs(all: seq<Peer>, kept: seq<int>, start: int, step: int, c: int, x: Context)
    requires Best(all, kept, start, step, c, x)
    ensures c != -1 ==> 0 <= c < |kept| && 0 <= kept[c] < |all| && Good(all[kept[c]], x)
  {
  }

  lemma CountsErased(all: seq<Peer>, sc: Scan, e: int, x: Context)
    requires Counts(all, sc, x) && 0 <= e < |sc.s| && Forgettable(sc.s[e], x)
    ensures var s := Without(sc.s, e);
            && sc.seeds - (if sc.s[e].seed then 1 else 0) == Count(s, Seeds)
            && Count(s, Candidates(x.view.settings, x.view.finished)) == Count(all, Candidates(x.view.settings, x.view.finished))
  {
    CountsErase(all, sc, e, x, Scan(Without(sc.s, e), 0, 0, 0, sc.seeds - if sc.s[e].seed then 1 else 0));
  }

  lemma AfterEraseIs(cursor: int, e: int, size: int)
    requires 0 <= cursor <= size && 0 <= e < size
    ensures 0 <= AfterErase(cursor, e, size) <= size - 1 && AfterErase(cursor, e, size) == if cursor > e then cursor - 1 else cursor
  {
  }

  lemma FoundIs(all: seq<Peer>, start: int, x: Context, s: seq<Peer>, kept: seq<int>, r: int)
    requires Picks(all, kept, s) && DroppedOk(all, kept, x.view.finished, x.view.settings)
    requires 0 <= r <= |s| && Best(all, kept, start, Turns(|all|), if r == |s| then -1 else r, x)
    ensures Found(all, start, x, s, kept, r)
  {
  }

  /** How far ahead of `start` a peer of the list is; the search reaches the first three hundred. */
  ghost predicate InReach(o: int, start: int, n: int) {
    0 <= o < n && (if o >= start then o - start < 300 else o + n - start < 300)
  }

  /** An eligible peer, and no eligible one in reach would be better. */
  ghost predicate BestInReach(all: seq<Peer>, start: int, p: Peer, x: Context) {
    && Eligible(p, x.now, x.view.finished, x.view.settings)
    && forall o :: InReach(o, start, |all|) && Eligible(all[o], x.now, x.view.finished, x.view.settings) ==> NoWorse(p, all[o], x.view)
  }

  ghost predicate NoneInReach(all: seq<Peer>, start: int, x: Context) {
    forall o :: InReach(o, start, |all|) ==> !Eligible(all[o], x.now, x.view.finished, x.view.settings)
  }

  /** What was found, told from the records of the peers. */
  lemma FoundMeans(all: seq<Peer>, start: int, x: Context, s: seq<Peer>, kept: seq<int>, r: int)
    requires Found(all, start, x, s, kept, r) && 0 <= start < |all|
    ensures 0 <= r <= |s| && if r < |s| then BestInReach(all, start, s[r], x) else NoneInReach(all, start, x)
  {
    forall o | InReach(o, start, |all|) ensures Steps(o, start, |all|) < Turns(|all|) { }
    hide Eligible, ComparePeer, NoWorse;
    if r < |s| {
      forall o | InReach(o, start, |all|) && Good(all[o], x) ensures NoWorse(s[r], all[o], x.view) {
        ComparePeerMeans(s[r], all[o], x.view);
      }
    }
  }

  /** Step by step the search goes through the list once: no position is visited twice. */
  lemma VisitsEachOnce(start: int, n: int, a: int, b: int)
    requires 0 <= start < n && 0 <= a < n && 0 <= b < n
    ensures 0 <= Visited(start, a, n) < n && Steps(Visited(start, a, n), start, n) == a
    ensures Visited(start, a, n) == Visited(start, b, n) ==> a == b
  {
  }

  // ------------------------------------------------------------- erase_peers

  /** What weeding leaves: the list in order, without some peers that may be forgotten,
      and the counters to match. */
  ghost predicate Weeded(all: seq<Peer>, kept: seq<int>, s: seq<Peer>, seeds: int, finished: bool, c: Settings) {
    && Picks(all, kept, s) && DroppedOk(all, kept, finished, c)
    && seeds == Count(s, Seeds) && Count(s, Candidates(c, finished)) == Count(all, Candidates(c, finished))
  }

  lemma WeededMore(all: seq<Peer>, kept: seq<int>, s: seq<Peer>, seeds: int, finished: bool, c: Settings, i: int)
    requires Weeded(all, kept, s, seeds, finished, c) && 0 <= i < |s| && IsEraseCandidate(s[i], finished, c)
    ensures |s| == |kept| && Weeded(all, Without(kept, i), Without(s, i), seeds - (if s[i].seed then 1 else 0), finished, c)
  {
    PicksDrop(all, kept, s, i);
    DroppedMore(all, kept, s, i, finished, c);
    CountErased(s, i, Seeds);
    CountErased(s, i, Candidates(c, finished));
  }

  lemma WeededStart(all: seq<Peer>, finished: bool, c: Settings)
    ensures Weeded(all, Identity(|all|), all, Count(all, Seeds), finished, c)
  {
    var kept := Identity(|all|);
    forall o | 0 <= o < |all| ensures o in kept { assert kept[o] == o; }
  }

  /** What weeding forgets at once: known from resume data only, and failed. */
  ghost predicate AtOnce(p: Peer) {
    p.source == {ResumeData} && p.failcount > 0 && !p.banned
  }

  /** Everything dropped so far was dropped at once, and `forget`, if there is one, is of
      those visited that are left and may be forgotten the one to forget first. */
  ghost predicate Weighed(all: seq<Peer>, kept: seq<int>, start: int, step: int, forget: int, finished: bool, c: Settings) {
    && (forall k :: 0 <= k < |kept| ==> 0 <= kept[k] < |all|) && -1 <= forget < |kept|
    && (forget != -1 ==> Steps(kept[forget], start, |all|) < step && IsEraseCandidate(all[kept[forget]], finished, c))
    && (forall o :: 0 <= o < |all| && o !in kept ==> AtOnce(all[o]))
    && (forall k :: 0 <= k < |kept| && Steps(kept[k], start, |all|) < step && IsEraseCandidate(all[kept[k]], finished, c) ==>
          forget != -1 && ForgottenFirst(all[kept[forget]], all[kept[k]]))
  }

  lemma WeighedStart(all: seq<Peer>, start: int, finished: bool, c: Settings)
    requires 0 <= start < |all|
    ensures Weighed(all, Identity(|all|), start, 0, -1, finished, c)
    ensures Increasing(Identity(|all|), |all|) && Unseen(Identity(|all|), start, 0, |all|) && CursorAt(Identity(|all|), start, 0, |all|, start)
  {
    var kept := Identity(|all|);
    forall o | 0 <= o < |all| ensures o in kept { assert kept[o] == o; }
  }

  /** The peer visited stays, and may be the new one to forget. */
  lemma WeighedKeep(all: seq<Peer>, kept: seq<int>, start: int, step: int, forget: int, at: int, finished: bool, c: Settings, forget': int)
    requires Weighed(all, kept, start, step, forget, finished, c) && Increasing(kept, |all|) && 0 <= start < |all|
    requires 0 <= at < |kept| && kept[at] == Visited(start, step, |all|) && 0 <= step < |all|
    requires if forget' == forget then
               IsEraseCandidate(all[kept[at]], finished, c) ==> forget != -1 && ComparePeerErase(all[kept[forget]], all[kept[at]])
             else
               && forget' == at && IsEraseCandidate(all[kept[at]], finished, c)
               && (forget != -1 ==> !ComparePeerErase(all[kept[forget]], all[kept[at]]))
    ensures Weighed(all, kept, start, step + 1, forget', finished, c)
  {
    var p := all[kept[at]];
    forall k | 0 <= k < |kept| && Steps(kept[k], start, |all|) < step + 1 && IsEraseCandidate(all[kept[k]], finished, c)
      ensures forget' != -1 && ForgottenFirst(all[kept[forget']], all[kept[k]]) {
      WeighedPair(all, kept, start, step, forget, at, k, finished, c);
      if forget != -1 { ForgottenFirstTrans(p, all[kept[forget]], all[kept[k]]); } else { ForgottenFirstTrans(p, p, p); }
    }
  }

  lemma WeighedPair(all: seq<Peer>, kept: seq<int>, start: int, step: int, forget: int, at: int, k: int, finished: bool, c: Settings)
    requires Weighed(all, kept, start, step, forget, finished, c) && Increasing(kept, |all|) && 0 <= start < |all|
    requires 0 <= at < |kept| && kept[at] == Visited(start, step, |all|) && 0 <= step < |all|
    requires 0 <= k < |kept| && Steps(kept[k], start, |all|) < step + 1 && IsEraseCandidate(all[kept[k]], finished, c)
    ensures k == at || (forget != -1 && ForgottenFirst(all[kept[forget]], all[kept[k]]))
    ensures forget != -1 ==> (ComparePeerErase(all[kept[forget]], all[kept[at]]) ==> ForgottenFirst(all[kept[forget]], all[kept[at]]))
    ensures forget != -1 ==> (!ComparePeerErase(all[kept[forget]], all[kept[at]]) ==> ForgottenFirst(all[kept[at]], all[kept[forget]]))
  {
    hide IsEraseCandidate, Weighed, ForgottenFirst, ComparePeerErase;
    WeighedAt(all, kept, start, step, forget, finished, c, k);
    Ordered(kept, |all|, at, k);
    Ordered(kept, |all|, k, at);
    if forget != -1 {
      CompareEraseMeans(all[kept[at]], all[kept[forget]]);
      CompareEraseMeans(all[kept[forget]], all[kept[at]]);
      ForgottenFirstTrans(all[kept[at]], all[kept[forget]], all[kept[at]]);
      EraseAsymmetric(all[kept[forget]], all[kept[at]]);
    }
  }

  lemma EraseAsymmetric(a: Peer, b: Peer)
    ensures ComparePeerErase(a, b) ==> !ComparePeerErase(b, a)
  {
  }

  lemma WeighedAt(all: seq<Peer>, kept: seq<int>, start: int, step: int, forget: int, finished: bool, c: Settings, k: int)
    requires Weighed(all, kept, start, step, forget, finished, c) && 0 <= k < |kept|
    ensures 0 <= kept[k] < |all| && -1 <= forget < |kept|
    ensures forget != -1 ==> 0 <= kept[forget] < |all| && Steps(kept[forget], start, |all|) < step && IsEraseCandidate(all[kept[forget]], finished, c)
    ensures Steps(kept[k], start, |all|) < step && IsEraseCandidate(all[kept[k]], finished, c) ==>
              forget != -1 && ForgottenFirst(all[kept[forget]], all[kept[k]])
  {
  }

  /** The peer visited is forgotten at once. */
  lemma WeighedErase(all: seq<Peer>, kept: seq<int>, start: int, step: int, forget: int, at: int, finished: bool, c: Settings)
    requires Weighed(all, kept, start, step, forget, finished, c) && Increasing(kept, |all|) && 0 <= start < |all|
    requires 0 <= at < |kept| && kept[at] == Visited(start, step, |all|) && 0 <= step < |all| && AtOnce(all[kept[at]])
    ensures forget != at
    ensures Weighed(all, Without(kept, at), start, step + 1, if forget > at then forget - 1 else forget, finished, c)
  {
    hide *;
    WeighedParts(all, kept, start, step, forget, finished, c);
    var kept' := Without(kept, at);
    var forget' := if forget > at then forget - 1 else forget;
    StepsAt(kept, start, step, |all|, at);
    WeighedAt(all, kept, start, step, forget, finished, c, at);
    WeighedDropped(all, kept, start, step, forget, finished, c);
    forall o | 0 <= o < |all| && o !in kept' ensures AtOnce(all[o]) { DropKeeps(kept, at, o); }
    forall k | 0 <= k < |kept'|
      ensures 0 <= kept'[k] < |all|
      ensures Steps(kept'[k], start, |all|) < step + 1 && IsEraseCandidate(all[kept'[k]], finished, c) ==>
                forget' != -1 && ForgottenFirst(all[kept'[forget']], all[kept'[k]]) {
      var o := if k < at then k else k + 1;
      WeighedAt(all, kept, start, step, forget, finished, c, o);
      Ordered(kept, |all|, at, o);
      Ordered(kept, |all|, o, at);
      OtherStep(start, step, |all|, kept[at], kept[o]);
    }
    WeighedBack(all, kept', start, step + 1, forget', finished, c);
  }

  lemma WeighedDropped(all: seq<Peer>, kept: seq<int>, start: int, step: int, forget: int, finished: bool, c: Settings)
    requires Weighed(all, kept, start, step, forget, finished, c)
    ensures forall o :: 0 <= o < |all| && o !in kept ==> AtOnce(all[o])
    ensures forget != -1 ==> 0 <= kept[forget] < |all| && Steps(kept[forget], start, |all|) < step
  {
  }

  lemma WeighedBack(all: seq<Peer>, kept: seq<int>, start: int, step: int, forget: int, finished: bool, c: Settings)
    requires -1 <= forget < |kept|
    requires forall k :: 0 <= k < |kept| ==> 0 <= kept[k] < |all|
    requires forget != -1 ==> Steps(kept[forget], start, |all|) < step && IsEraseCandidate(all[kept[forget]], finished, c)
    requires forall o :: 0 <= o < |all| && o !in kept ==> AtOnce(all[o])
    requires forall k :: 0 <= k < |kept| && Steps(kept[k], start, |all|) < step && IsEraseCandidate(all[kept[k]], finished, c) ==>
               forget != -1 && ForgottenFirst(all[kept[forget]], all[kept[k]])
    ensures Weighed(all, kept, start, step, forget, finished, c)
  {
    hide ForgottenFirst, AtOnce, IsEraseCandidate, Steps;
  }

  lemma StepsAt(kept: seq<int>, start: int, step: int, n: int, at: int)
    requires 0 <= at < |kept| && kept[at] == Visited(start, step, n) && 0 <= start < n && 0 <= step < n
    ensures Steps(kept[at], start, n) == step
  {
  }

  lemma OtherStep(start: int, step: int, n: int, a: int, b: int)
    requires 0 <= start < n && 0 <= a < n && 0 <= b < n && a != b && Steps(a, start, n) == step
    ensures Steps(b, start, n) != step
  {
  }

  /** What weeding promises: `last`, if there is one, was forgotten in the end, everything
      else that is gone was forgotten at once; no peer among the first `reach` visited that
      may be forgotten is left unless one to forget before it is gone; and the scan ended
      early only when the list was short enough. */
  ghost predicate WeededWell(all: seq<Peer>, kept: seq<int>, start: int, reach: int, last: int, finished: bool, c: Settings, maxSize: int) {
    && 0 <= reach <= Turns(|all|) && -1 <= last < |all|
    && (last != -1 ==> last !in kept && IsEraseCandidate(all[last], finished, c))
    && (forall o :: 0 <= o < |all| && o !in kept && o != last ==> AtOnce(all[o]))
    && (forall o :: 0 <= o < |all| && o in kept && Steps(o, start, |all|) < reach && IsEraseCandidate(all[o], finished, c) ==>
          last != -1 && ForgottenFirst(all[last], all[o]))
    && (reach < Turns(|all|) ==> 20 * (|kept| + if last == -1 then 0 else 1) < 19 * maxSize)
  }

  lemma WeedEnds(all: seq<Peer>, kept: seq<int>, start: int, step: int, forget: int, finished: bool, c: Settings, maxSize: int)
    requires Weighed(all, kept, start, step, forget, finished, c) && Increasing(kept, |all|) && 0 <= step <= Turns(|all|)
    requires step < Turns(|all|) ==> 20 * |kept| < 19 * maxSize
    ensures if forget == -1 then WeededWell(all, kept, start, step, -1, finished, c, maxSize)
            else WeededWell(all, Without(kept, forget), start, step, kept[forget], finished, c, maxSize)
  {
    hide IsEraseCandidate, ForgottenFirst, AtOnce, Turns;
    if forget == -1 {
      forall o | 0 <= o < |all| && o in kept && Steps(o, start, |all|) < step ensures !IsEraseCandidate(all[o], finished, c) {
        var k :| 0 <= k < |kept| && kept[k] == o;
      }
    } else {
      var kept' := Without(kept, forget);
      forall o | 0 <= o < |all| && o !in kept' && o != kept[forget] ensures AtOnce(all[o]) { DropKeeps(kept, forget, o); }
      forall o | o in kept' ensures o in kept && o != kept[forget] {
        var k :| 0 <= k < |kept'| && kept'[k] == o;
        var b := if k < forget then k else k + 1;
        assert kept[b] == o;
        Ordered(kept, |all|, forget, b);
        Ordered(kept, |all|, b, forget);
      }
      forall o | 0 <= o < |all| && o in kept' && Steps(o, start, |all|) < step && IsEraseCandidate(all[o], finished, c)
        ensures ForgottenFirst(all[kept[forget]], all[o]) {
        var k :| 0 <= k < |kept| && kept[k] == o;
      }
    }
  }

  /** A list at ninety-five percent of its size or more loses a peer if one in reach may be
      forgotten, and a shorter one loses none. */
  lemma WeedLoses(all: seq<Peer>, kept: seq<int>, s: seq<Peer>, start: int, reach: int, last: int, finished: bool, c: Settings, maxSize: int)
    requires Picks(all, kept, s) && WeededWell(all, kept, start, reach, last, finished, c, maxSize) && 0 <= start < |all|
    ensures 20 * |all| >= 19 * maxSize && (exists o :: InReach(o, start, |all|) && IsEraseCandidate(all[o], finished, c)) ==> |s| < |all|
  {
    hide IsEraseCandidate, ForgottenFirst, AtOnce;
    FullSelection(kept, |all|);
    assert |s| == |all| && 20 * |all| >= 19 * maxSize ==> last == -1 && reach == Turns(|all|);
    assert forall o :: InReach(o, start, |all|) ==> Steps(o, start, |all|) < Turns(|all|);
  }

  /** An increasing selection of as many numbers below `n` as there are is all of them. */
  lemma FullSelection(kept: seq<int>, n: int)
    requires Increasing(kept, n) && n >= 0
    ensures |kept| <= n && (|kept| == n ==> forall o :: 0 <= o < n ==> o in kept)
  {
    AtLeast(kept, n, |kept|);
    AtMost(kept, n, 0);
    assert |kept| > 0 ==> 0 <= kept[0] <= n - |kept|;
    if |kept| == n {
      forall o | 0 <= o < n ensures o in kept { assert kept[o] == o; }
    }
  }

  lemma {:induction false} AtLeast(kept: seq<int>, n: int, k: int)
    requires Increasing(kept, n) && 0 <= k <= |kept|
    ensures forall i :: 0 <= i < k ==> kept[i] >= i
    decreases k
  {
    if k > 0 {
      AtLeast(kept, n, k - 1);
      assert k > 1 ==> kept[k - 2] < kept[k - 1];
    }
  }

  lemma {:induction false} AtMost(kept: seq<int>, n: int, k: int)
    requires Increasing(kept, n) && 0 <= k <= |kept|
    ensures forall i :: k <= i < |kept| ==> kept[i] <= n - |kept| + i
    decreases |kept| - k
  {
    if k < |kept| {
      AtMost(kept, n, k + 1);
      assert k + 1 < |kept| ==> kept[k] < kept[k + 1];
    }
  }

  /** Where weeding stands: the list and its counters, the cursor, and the peer to forget. */
  ghost predicate Weeding(all: seq<Peer>, kept: seq<int>, s: seq<Peer>, seeds: int, start: int, step: int, forget: int, at: int,
                          finished: bool, c: Settings) {
    && Weeded(all, kept, s, seeds, finished, c) && Weighed(all, kept, start, step, forget, finished, c)
    && Increasing(kept, |all|) && Unseen(kept, start, step, |all|) && CursorAt(kept, start, step, |all|, at) && |s| == |kept|
  }

  lemma WeedingIs(all: seq<Peer>, kept: seq<int>, s: seq<Peer>, seeds: int, start: int, step: int, forget: int, at: int,
                  finished: bool, c: Settings)
    ensures Weeding(all, kept, s, seeds, start, step, forget, at, finished, c) <==>
              && Weeded(all, kept, s, seeds, finished, c) && Weighed(all, kept, start, step, forget, finished, c)
              && Increasing(kept, |all|) && Unseen(kept, start, step, |all|) && CursorAt(kept, start, step, |all|, at) && |s| == |kept|
    ensures Weeding(all, kept, s, seeds, start, step, forget, at, finished, c) ==> 0 <= at <= |s| && -1 <= forget < |s|
  {
    hide Weeded, Increasing, Unseen;
  }

  /** One turn of the loop. */
  method WeedTurn(all: seq<Peer>, s0: seq<Peer>, cursor0: int, seeds0: int, forget0: int, at0: int, ghost kept0: seq<int>,
                  ghost start: int, ghost step: int, finished: bool, c: Settings)
    returns (s: seq<Peer>, cursor: int, seeds: int, forget: int, at: int, ghost kept: seq<int>)
    requires Weeding(all, kept0, s0, seeds0, start, step, forget0, at0, finished, c) && 0 <= start < |all| && 0 <= step < |all|
    requires 0 <= cursor0 <= |s0|
    ensures Weeding(all, kept, s, seeds, start, step + 1, forget, at, finished, c) && 0 <= cursor <= |s|
  {
    hide *;
    WeedingIs(all, kept0, s0, seeds0, start, step, forget0, at0, finished, c);
    Wrapped(kept0, start, step, |all|, at0);
    var current := if at0 == |s0| then 0 else at0;
    s, cursor, seeds, forget, at, kept := s0, cursor0, seeds0, forget0, current, kept0;
    var pe := s[at];
    WeededAt(all, kept, s, seeds, finished, c, at);
    WeighedAt(all, kept, start, step, forget, finished, c, at);
    if forget != -1 { WeededAt(all, kept, s, seeds, finished, c, forget); }
    if IsEraseCandidate(pe, finished, c) && (forget == -1 || !ComparePeerErase(s[forget], pe)) && ShouldEraseImmediately(pe) {
      AtOnceIs(pe);
      WeededMore(all, kept, s, seeds, finished, c, current);
      WeighedErase(all, kept, start, step, forget, current, finished, c);
      StepErase(kept, start, step, |all|, current);
      if forget > current { forget := forget - 1; }
      at := at - 1;
      AfterEraseIs(cursor, current, |s|);
      cursor, seeds := AfterErase(cursor, current, |s|), seeds - if pe.seed then 1 else 0;
      s, kept := Without(s, current), Without(kept, current);
    } else {
      if IsEraseCandidate(pe, finished, c) && (forget == -1 || !ComparePeerErase(s[forget], pe)) { forget := current; }
      StepsAt(kept, start, step, |all|, current);
      WeighedKeep(all, kept, start, step, forget0, current, finished, c, forget);
      StepOn(kept, start, step, |all|, current);
    }
    at := at + 1;
    WeedingIs(all, kept, s, seeds, start, step + 1, forget, at, finished, c);
  }

  method Weed(all: seq<Peer>, start: int, roundRobin: int, seeds: int, finished: bool, c: Settings, maxSize: int)
    returns (s: seq<Peer>, cursor: int, seeds': int, ghost kept: seq<int>, ghost reach: int, ghost last: int)
    requires 0 <= start < |all| && 0 <= roundRobin <= |all| && seeds == Count(all, Seeds) && maxSize != 0
    ensures Weeded(all, kept, s, seeds', finished, c) && 0 <= cursor <= |s|
    ensures WeededWell(all, kept, start, reach, last, finished, c, maxSize)
    ensures 20 * |all| < 19 * maxSize ==> s == all
  {
    hide *;
    s, cursor, seeds', kept := all, roundRobin, seeds, Identity(|all|);
    WeededStart(all, finished, c);
    WeighedStart(all, start, finished, c);
    var forget, at := -1, start;
    WeedingIs(all, kept, s, seeds', start, 0, forget, at, finished, c);
    TurnsIs(|all|);
    var iterations := Turns(|all|);
    reach := 0;
    while iterations > 0
      invariant 0 <= iterations && 0 <= reach && reach + iterations == Turns(|all|) && 0 <= cursor <= |s|
      invariant Weeding(all, kept, s, seeds', start, reach, forget, at, finished, c)
      invariant 20 * |all| < 19 * maxSize ==> s == all && forget == -1 && reach == 0
    {
      if |s| as real < maxSize as real * 0.95 { break; }
      s, cursor, seeds', forget, at, kept := WeedTurn(all, s, cursor, seeds', forget, at, kept, start, reach, finished, c);
      iterations := iterations - 1;
      reach := reach + 1;
    }
    WeedingIs(all, kept, s, seeds', start, reach, forget, at, finished, c);
    WeighedParts(all, kept, start, reach, forget, finished, c);
    WeedEnds(all, kept, start, reach, forget, finished, c, maxSize);
    last := -1;
    if forget > -1 {
      last := kept[forget];
      WeededAt(all, kept, s, seeds', finished, c, forget);
      WeededMore(all, kept, s, seeds', finished, c, forget);
      AfterEraseIs(cursor, forget, |s|);
      cursor, seeds' := AfterErase(cursor, forget, |s|), seeds' - if s[forget].seed then 1 else 0;
      s, kept := Without(s, forget), Without(kept, forget);
    }
  }

  lemma AtOnceIs(p: Peer)
    ensures ShouldEraseImmediately(p) <==> AtOnce(p)
  {
  }

  lemma WeededAt(all: seq<Peer>, kept: seq<int>, s: seq<Peer>, seeds: int, finished: bool, c: Settings, i: int)
    requires Weeded(all, kept, s, seeds, finished, c) && 0 <= i < |s|
    ensures |s| == |kept| && 0 <= kept[i] < |all| && s[i] == all[kept[i]]
  {
  }

  lemma WeighedParts(all: seq<Peer>, kept: seq<int>, start: int, step: int, forget: int, finished: bool, c: Settings)
    requires Weighed(all, kept, start, step, forget, finished, c)
    ensures -1 <= forget < |kept|
    ensures forget != -1 ==> 0 <= kept[forget] < |all| && IsEraseCandidate(all[kept[forget]], finished, c)
  {
  }

  /** A selection of a sorted list is sorted. */
  lemma PicksSorted(all: seq<Peer>, kept: seq<int>, s: seq<Peer>, multiple: bool)
    requires Picks(all, kept, s) && Sorted(all, multiple)
    ensures Sorted(s, multiple)
  {
    hide Before;
    forall i, j | 0 <= i < j < |s| ensures Before(s[i], s[j], multiple) {
      assert kept[i] < kept[j];
    }
  }
}
