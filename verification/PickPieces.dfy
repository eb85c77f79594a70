/** Choosing which blocks to request from a peer, `piece_picker::pick_pieces` and
    its helpers. */
module PickPieces {
  import opened PickerTypes
  import opened Buckets
  import opened Blocks
  import opened Queue
  import opened Picker
  import opened Cursors

  datatype PieceBlock = PieceBlock(piece: int, block: int)

  datatype Options = Options(rarestFirst: bool, reverse: bool, onParole: bool, partials: bool,
                             sequential: bool, affinity: bool, ignoreWhole: bool)

  /** What one call reads: the picker's vectors, the pieces the peer has, and the
      parameters of the request. */
  datatype Job = Job(m: PieceMap, dl: Downloads, info: seq<BlockInfo>, base: int, bpp: int, last: int,
                     has: seq<bool>, whole: nat, peer: nat, speed: Speed, opts: Options, wanted: int, suggested: seq<int>)
  {
    /** No piece is looked at twice. */
    ghost predicate Once() {
      whole <= 1 && Distinct(suggested)
    }

    /** An ordered pass, and nothing else is preferred. */
    ghost predicate Plain() {
      (opts.sequential || opts.rarestFirst) && !opts.partials && !opts.affinity && suggested == [] && whole == 0
    }

    function BlocksIn(p: int): int {
      BlocksInPiece(|m|, p, bpp, last)
    }

    predicate PieceFree(p: int)
      requires 0 <= p < |m| == |has|
    {
      has[p] && m[p].Open()
    }

    predicate CanPick(p: int)
      requires 0 <= p < |m| == |has|
    {
      has[p] && m[p].Open() && !m[p].downloading
    }
  }

  /** The three lists being filled, and how many blocks are still to be found. */
  datatype Pick = Pick(free: seq<PieceBlock>, near: seq<PieceBlock>, far: seq<PieceBlock>, left: int)

  ghost predicate Fine(j: Job, v: map<int, Entry>) {
    && |j.has| == |j.m| && 0 < j.last <= j.bpp
    && Represents(j.dl, j.info, j.base, j.bpp, v)
    && InStep(j.m, v, j.bpp, j.last)
  }

  // ------------------------------------------------- what a pick may hold

  ghost predicate FreeAt(v: map<int, Entry>, p: int, b: int) {
    p in v ==> 0 <= b < |v[p].blocks| && v[p].blocks[b].state == Free
  }

  /** Everything requested or downloaded of the piece came from this peer. */
  ghost predicate Exclusive(e: Entry, n: int, peer: nat) {
    forall b :: 0 <= b < n && b < |e.blocks| && e.blocks[b].state != Free ==> e.blocks[b].peer == peer
  }

  /** A block of a piece the peer has and we lack, that nobody is fetching; only
      partial pieces may be filtered ones, and only when partial pieces are
      preferred; a peer on parole gets no piece another peer took part in. */
  ghost predicate Pickable(j: Job, v: map<int, Entry>, x: PieceBlock) {
    && 0 <= x.piece < |j.m| && x.piece < |j.has| && j.has[x.piece] && !j.m[x.piece].Have()
    && 0 <= x.block < j.BlocksIn(x.piece)
    && FreeAt(v, x.piece, x.block)
    && ((j.opts.partials && x.piece in v) || j.m[x.piece].Open())
    && (j.opts.onParole && x.piece in v ==> Exclusive(v[x.piece], j.BlocksIn(x.piece), j.peer))
  }

  /** A peer on parole may get all free blocks of the piece too. */
  ghost predicate Allowed(j: Job, v: map<int, Entry>, p: int) {
    j.opts.onParole && p in v ==> Exclusive(v[p], j.BlocksIn(p), j.peer)
  }

  /** Another peer has requests out for the piece. */
  ghost predicate OthersAtWork(j: Job, v: map<int, Entry>, p: int) {
    p in v && exists b :: 0 <= b < j.BlocksIn(p) && b < |v[p].blocks| && v[p].blocks[b].state == Requested
                          && v[p].blocks[b].peer != j.peer && v[p].blocks[b].peer != 0
  }

  /** Neighbouring speed classes, the piece's first. */
  ghost predicate Neighbours(a: Speed, b: Speed) {
    || (a == Slow && (b == NoSpeed || b == Medium)) || (a == Medium && (b == Slow || b == Fast)) || (a == Fast && b == Medium)
  }

  /** How good a choice the blocks of a piece are: 0 for most of them, 1 and 2 for those of
      pieces others are at work on, of a neighbouring or another speed class than the
      peer's when speeds are to match, and 2 for all of these when whole pieces are preferred. */
  ghost function Grade(j: Job, v: map<int, Entry>, p: int): (g: int)
    ensures 0 <= g <= 2 && (p !in v ==> g == 0)
  {
    if !OthersAtWork(j, v, p) then 0
    else if j.whole > 0 then 2
    else if !j.opts.affinity || v[p].speed == NoSpeed || v[p].speed == j.speed then 0
    else if Neighbours(v[p].speed, j.speed) then 1
    else 2
  }

  ghost predicate AllGrade(j: Job, v: map<int, Entry>, s: seq<PieceBlock>, g: int) {
    forall i :: 0 <= i < |s| ==> Grade(j, v, s[i].piece) == g
  }

  /** What is listed from `from` on is of the best grade. */
  ghost predicate Level(j: Job, v: map<int, Entry>, s: seq<PieceBlock>, from: int) {
    forall i :: 0 <= from <= i < |s| ==> Grade(j, v, s[i].piece) == 0
  }

  /** What is listed from `from` on belongs to pieces nobody has started. */
  ghost predicate NotBegun(v: map<int, Entry>, s: seq<PieceBlock>, from: int) {
    forall i :: 0 <= from <= i < |s| ==> s[i].piece !in v
  }

  lemma NotBegunLevel(j: Job, v: map<int, Entry>, s: seq<PieceBlock>, from: int)
    requires NotBegun(v, s, from)
    ensures Level(j, v, s, from)
  {
    hide Grade;
  }

  lemma LevelMore(j: Job, v: map<int, Entry>, s: seq<PieceBlock>, t: seq<PieceBlock>, from: int)
    requires s <= t && 0 <= from <= |s|
    ensures Level(j, v, s, from) && Level(j, v, t, |s|) ==> Level(j, v, t, from)
    ensures NotBegun(v, s, from) && NotBegun(v, t, |s|) ==> NotBegun(v, t, from)
  {
    hide Grade;
    forall i | from <= i < |s| ensures t[i] == s[i] { }
  }

  ghost function Content(k: Pick): multiset<PieceBlock> {
    multiset(k.free) + multiset(k.near) + multiset(k.far)
  }

  ghost predicate AllPickable(j: Job, v: map<int, Entry>, s: seq<PieceBlock>) {
    forall i :: 0 <= i < |s| ==> Pickable(j, v, s[i])
  }

  /** The lists hold pickable blocks, the remaining count is right, and unless several
      whole pieces are picked together no block occurs twice. */
  ghost predicate Tidy(j: Job, v: map<int, Entry>, k: Pick, seen: set<int>) {
    && AllPickable(j, v, k.free) && AllPickable(j, v, k.near) && AllPickable(j, v, k.far)
    && AllGrade(j, v, k.near, 1) && AllGrade(j, v, k.far, 2)
    && (k.left > 0 || j.whole == 0 ==> 0 <= k.left && |k.free| + k.left == j.wanted)
    && (k.left <= 0 ==> |k.free| >= j.wanted)
    && (j.Once() ==> forall x :: Content(k)[x] <= 1 && (x in Content(k) ==> x.piece in seen))
  }

  /** Nothing is taken back. */
  ghost predicate Grows(k: Pick, k': Pick) {
    k.free <= k'.free && k.near <= k'.near && k.far <= k'.far && k'.left <= k.left
  }

  /** Enough blocks of the grade are at hand to fill the request. */
  ghost predicate Saturated(k: Pick, g: int) {
    k.left <= 0 || (g == 1 && |k.near| >= k.left) || (g == 2 && |k.far| >= k.left)
  }

  /** Every free block of piece `p` is listed, unless the request can be filled with others as good. */
  ghost predicate Covered(j: Job, v: map<int, Entry>, k: Pick, p: int) {
    Saturated(k, Grade(j, v, p)) || forall b :: 0 <= b < j.BlocksIn(p) && FreeAt(v, p, b) ==> PieceBlock(p, b) in Content(k)
  }

  lemma GrowsCovers(j: Job, v: map<int, Entry>, k: Pick, k': Pick, p: int)
    requires Grows(k, k') && Covered(j, v, k, p)
    ensures Covered(j, v, k', p)
  {
    hide Grade;
    if !Saturated(k', Grade(j, v, p)) {
      forall b | 0 <= b < j.BlocksIn(p) && FreeAt(v, p, b) ensures PieceBlock(p, b) in Content(k') {
        assert PieceBlock(p, b) in Content(k);
        assert forall x :: x in k.free ==> x in k'.free;
        assert forall x :: x in k.near ==> x in k'.near;
        assert forall x :: x in k.far ==> x in k'.far;
      }
    }
  }

  // ---------------------------------------------------------- the helpers

  /** Whether the peer is the only one that took part in the piece, and whether
      it is the only one with requests outstanding. */
  method RequestedFrom(blocks: seq<BlockInfo>, n: int, peer: nat) returns (exclusive: bool, exclusiveActive: bool)
    requires 0 <= n <= |blocks|
    ensures exclusive <==> forall b :: 0 <= b < n && blocks[b].state != Free ==> blocks[b].peer == peer
    ensures exclusiveActive <==>
            forall b :: 0 <= b < n && blocks[b].state == Requested ==> blocks[b].peer == peer || blocks[b].peer == 0
  {
    exclusive, exclusiveActive := true, true;
    for i := 0 to n
      invariant exclusive <==> forall b :: 0 <= b < i && blocks[b].state != Free ==> blocks[b].peer == peer
      invariant exclusiveActive
      invariant forall b :: 0 <= b < i && blocks[b].state == Requested ==> blocks[b].peer == peer || blocks[b].peer == 0
    {
      if blocks[i].state != Free && blocks[i].peer != peer {
        exclusive := false;
        if blocks[i].state == Requested && blocks[i].peer != 0 {
          return false, false;
        }
      }
    }
  }

  lemma PushFree(j: Job, v: map<int, Entry>, k: Pick, seen: set<int>, x: PieceBlock)
    requires Tidy(j, v, k, seen) && Pickable(j, v, x) && (j.whole == 0 ==> k.left > 0)
    requires j.Once() ==> x.piece in seen && x !in Content(k)
    ensures Tidy(j, v, k.(free := k.free + [x], left := k.left - 1), seen)
  {
    hide Grade, Pickable;
    assert Content(k.(free := k.free + [x], left := k.left - 1)) == Content(k) + multiset{x};
  }

  lemma PushNear(j: Job, v: map<int, Entry>, k: Pick, seen: set<int>, x: PieceBlock)
    requires Tidy(j, v, k, seen) && Pickable(j, v, x) && x.piece in seen && Grade(j, v, x.piece) == 1
    requires j.Once() ==> x !in Content(k)
    ensures Tidy(j, v, k.(near := k.near + [x]), seen)
  {
    hide Grade, Pickable;
    assert Content(k.(near := k.near + [x])) == Content(k) + multiset{x};
  }

  lemma PushFar(j: Job, v: map<int, Entry>, k: Pick, seen: set<int>, x: PieceBlock)
    requires Tidy(j, v, k, seen) && Pickable(j, v, x) && x.piece in seen && Grade(j, v, x.piece) == 2
    requires j.Once() ==> x !in Content(k)
    ensures Tidy(j, v, k.(far := k.far + [x]), seen)
  {
    hide Grade, Pickable;
    assert Content(k.(far := k.far + [x])) == Content(k) + multiset{x};
  }

  lemma SeeMore(j: Job, v: map<int, Entry>, k: Pick, seen: set<int>, seen': set<int>)
    requires Tidy(j, v, k, seen) && seen <= seen'
    ensures Tidy(j, v, k, seen')
  {
  }

  /** While piece `p` is scanned, its listed blocks are those before `b`. */
  ghost predicate Scanned(j: Job, v: map<int, Entry>, k: Pick, p: int, b: int) {
    && (j.Once() ==> forall x :: x in Content(k) && x.piece == p ==> x.block < b)
    && (Saturated(k, Grade(j, v, p)) || forall c :: 0 <= c < b && FreeAt(v, p, c) ==> PieceBlock(p, c) in Content(k))
  }

  /** A step that lists block `b` of piece `p`, or has no reason to. */
  lemma ScanOne(j: Job, v: map<int, Entry>, k: Pick, k': Pick, p: int, b: int)
    requires Scanned(j, v, k, p, b) && Grows(k, k')
    requires || (Content(k') == Content(k) && !FreeAt(v, p, b))
             || Content(k') == Content(k) + multiset{PieceBlock(p, b)}
    ensures Scanned(j, v, k', p, b + 1)
  {
    hide Grade, Content, FreeAt;
    var g := Grade(j, v, p);
    assert Saturated(k, g) ==> Saturated(k', g);
    forall x ensures x in Content(k') ==> x in Content(k) || x == PieceBlock(p, b) { }
    forall c | 0 <= c < b + 1 && FreeAt(v, p, c) && !Saturated(k', g) ensures PieceBlock(p, c) in Content(k') {
      if c < b { assert PieceBlock(p, c) in Content(k); }
    }
  }

  lemma ScanStart(j: Job, v: map<int, Entry>, k: Pick, seen: set<int>, p: int)
    requires Tidy(j, v, k, seen) && (j.Once() ==> p !in seen)
    ensures Scanned(j, v, k, p, 0)
  {
  }

  lemma ScanEnd(j: Job, v: map<int, Entry>, k: Pick, p: int)
    requires Scanned(j, v, k, p, j.BlocksIn(p)) || Saturated(k, Grade(j, v, p))
    ensures Covered(j, v, k, p)
  {
    hide Grade;
  }

  ghost predicate OnlyPiece(s: seq<PieceBlock>, from: int, p: int) {
    forall i :: 0 <= from <= i < |s| ==> s[i].piece == p
  }

  /** The records of piece `p` as the scans read them. */
  ghost predicate Records(j: Job, v: map<int, Entry>, p: int, blocks: seq<BlockInfo>) {
    && 0 <= j.BlocksIn(p) <= |blocks|
    && forall b :: 0 <= b < j.BlocksIn(p) ==>
         if blocks[b].state == Free then Pickable(j, v, PieceBlock(p, b)) else !FreeAt(v, p, b)
  }

  /** Lists every free block of the piece as a last choice. */
  method ScanFar(j: Job, p: int, blocks: seq<BlockInfo>, k0: Pick, ghost v: map<int, Entry>, ghost all: set<int>)
    returns (k: Pick)
    requires Records(j, v, p, blocks) && p in all && Tidy(j, v, k0, all) && Scanned(j, v, k0, p, 0)
    requires Grade(j, v, p) == 2
    ensures Tidy(j, v, k, all) && Grows(k0, k) && Covered(j, v, k, p) && k.free == k0.free
  {
    hide Tidy, Scanned, Pickable, Content, Grade;
    k := k0;
    for b := 0 to j.BlocksIn(p)
      invariant Tidy(j, v, k, all) && Grows(k0, k) && Scanned(j, v, k, p, b) && k.free == k0.free
    {
      ghost var before := k;
      if blocks[b].state == Free {
        NotYet(j, v, k, PieceBlock(p, b), b);
        PushFar(j, v, k, all, PieceBlock(p, b));
        ContentPush(k, PieceBlock(p, b));
        k := k.(far := k.far + [PieceBlock(p, b)]);
      }
      ScanOne(j, v, before, k, p, b);
    }
    ScanEnd(j, v, k, p);
  }

  /** Lists the free blocks of the piece, or sets them aside as a second or last
      choice when `mismatch` says that the speed classes differ. */
  method ScanFree(j: Job, p: int, speed: Speed, mismatch: bool, blocks: seq<BlockInfo>, k0: Pick,
                  ghost v: map<int, Entry>, ghost all: set<int>)
    returns (k: Pick)
    requires Records(j, v, p, blocks) && p in all && Tidy(j, v, k0, all) && Scanned(j, v, k0, p, 0)
    requires k0.left > 0 && Grade(j, v, p) == if !mismatch then 0 else if Adjacent(speed, j.speed) then 1 else 2
    ensures Tidy(j, v, k, all) && Grows(k0, k) && Covered(j, v, k, p)
    ensures OnlyPiece(k.free, |k0.free|, p) && (mismatch ==> k.free == k0.free)
    ensures !mismatch ==> k.near == k0.near && k.far == k0.far
  {
    hide Tidy, Scanned, Pickable, Content, Grade, Adjacent;
    k := k0;
    for b := 0 to j.BlocksIn(p)
      invariant Tidy(j, v, k, all) && Grows(k0, k) && Scanned(j, v, k, p, b) && (mismatch ==> k.free == k0.free)
      invariant OnlyPiece(k.free, |k0.free|, p) && (j.whole == 0 ==> k.left > 0)
      invariant !mismatch ==> k.near == k0.near && k.far == k0.far
    {
      ghost var before := k;
      var x := PieceBlock(p, b);
      if blocks[b].state != Free {
        ScanOne(j, v, k, k, p, b);
        continue;
      }
      ContentPush(k, x);
      NotYet(j, v, k, x, b);
      if mismatch {
        if Adjacent(speed, j.speed) {
          if |k.near| >= k.left { ScanEnd(j, v, k, p); return; }
          PushNear(j, v, k, all, x);
          k := k.(near := k.near + [x]);
        } else {
          if |k.far| >= k.left { ScanEnd(j, v, k, p); return; }
          PushFar(j, v, k, all, x);
          k := k.(far := k.far + [x]);
        }
        ScanOne(j, v, before, k, p, b);
        continue;
      }
      PushFree(j, v, k, all, x);
      k := k.(free := k.free + [x], left := k.left - 1);
      ScanOne(j, v, before, k, p, b);
      if j.whole > 0 { continue; }
      if k.left <= 0 { ScanEnd(j, v, k, p); return; }
    }
    ScanEnd(j, v, k, p);
    if k.left <= 0 {
      RoundUp(j, v, k, all);
      k := k.(left := 0);
      ScanEnd(j, v, k, p);
    }
  }

  lemma EntryRecords(j: Job, v: map<int, Entry>, d: DownloadingPiece, exclusive: bool)
    requires Fine(j, v) && d in j.dl && 0 <= d.index < |j.m| && j.has[d.index]
    requires j.m[d.index].Open() || j.opts.partials
    requires Fits(d, |j.info|, j.base, j.bpp)
    requires var blocks := j.info[d.info - j.base..d.info - j.base + j.bpp];
             exclusive <==> forall b :: 0 <= b < j.BlocksIn(d.index) && b < |blocks| && blocks[b].state != Free ==> blocks[b].peer == j.peer
    requires j.opts.onParole ==> exclusive
    ensures Records(j, v, d.index, j.info[d.info - j.base..d.info - j.base + j.bpp])
  {
    var at :| 0 <= at < |j.dl| && j.dl[at] == d;
    assert Shows(j.dl[at], j.info, j.base, j.bpp, v);
    InStepAt(j.m, v, j.bpp, j.last, d.index);
  }

  lemma ExclusiveIs(j: Job, v: map<int, Entry>, d: DownloadingPiece, exclusive: bool)
    requires Fine(j, v) && d in j.dl && 0 <= d.index < |j.m| && Fits(d, |j.info|, j.base, j.bpp)
    requires var blocks := j.info[d.info - j.base..d.info - j.base + j.bpp];
             exclusive <==> forall b :: 0 <= b < j.BlocksIn(d.index) && b < |blocks| && blocks[b].state != Free ==> blocks[b].peer == j.peer
    ensures d.index in v && Allowed(j, v, d.index) && j.opts.onParole ==> exclusive
  {
    var at :| 0 <= at < |j.dl| && j.dl[at] == d;
    assert Shows(j.dl[at], j.info, j.base, j.bpp, v);
    InStepAt(j.m, v, j.bpp, j.last, d.index);
    var blocks := j.info[d.info - j.base..d.info - j.base + j.bpp];
    assert v[d.index].blocks == blocks;
  }

  lemma EntryFits(j: Job, v: map<int, Entry>, d: DownloadingPiece)
    requires Fine(j, v) && d in j.dl && 0 <= d.index < |j.m|
    ensures Fits(d, |j.info|, j.base, j.bpp) && 0 <= j.BlocksIn(d.index) <= j.bpp
    ensures |j.has| == |j.m| && d.index in v
  {
    var at :| 0 <= at < |j.dl| && j.dl[at] == d;
    assert Shows(j.dl[at], j.info, j.base, j.bpp, v);
  }

  /** Picks from a piece in progress: free blocks are listed as such, or as a
      second choice when the piece belongs to another speed class, or as a last
      choice when whole pieces are preferred and others are at work on it. */
  method AddBlocksDownloading(j: Job, d: DownloadingPiece, k0: Pick, ghost v: map<int, Entry>, ghost seen: set<int>)
    returns (k: Pick)
    requires Fine(j, v) && d in j.dl && 0 <= d.index < |j.m|
    requires j.m[d.index].Open() || j.opts.partials
    requires Tidy(j, v, k0, seen) && (j.Once() ==> d.index !in seen) && k0.left > 0
    ensures Tidy(j, v, k, seen + {d.index}) && Grows(k0, k)
    ensures |j.has| == |j.m| && (j.has[d.index] && Allowed(j, v, d.index) ==> Covered(j, v, k, d.index))
    ensures OnlyPiece(k.free, |k0.free|, d.index) && Level(j, v, k.free, |k0.free|) && d.index in v
    ensures j.whole == 0 && !j.opts.affinity ==> k.near == k0.near && k.far == k0.far
  {
    EntryFits(j, v, d);
    hide Fine, Tidy, Scanned, Pickable, Content, Grade, Covered, Adjacent;
    k := k0;
    ghost var all := seen + {d.index};
    SeeMore(j, v, k, seen, all);
    if !j.has[d.index] { return; }
    var blocks := j.info[d.info - j.base..d.info - j.base + j.bpp];
    var exclusive, exclusiveActive := RequestedFrom(blocks, j.BlocksIn(d.index), j.peer);
    ExclusiveIs(j, v, d, exclusive);
    if j.opts.onParole && !exclusive { return; }
    EntryRecords(j, v, d, exclusive);
    GradeIs(j, v, d, blocks, exclusiveActive);
    ScanStart(j, v, k, seen, d.index);
    if j.whole > 0 && !exclusiveActive {
      if |k.far| >= k.left { ScanEnd(j, v, k, d.index); return; }
      k := ScanFar(j, d.index, blocks, k, v, all);
    } else {
      var mismatch := d.speed != NoSpeed && d.speed != j.speed && !exclusiveActive && j.opts.affinity;
      k := ScanFree(j, d.index, d.speed, mismatch, blocks, k, v, all);
    }
  }

  /** The grade of a piece in progress, from its record. */
  lemma GradeIs(j: Job, v: map<int, Entry>, d: DownloadingPiece, blocks: seq<BlockInfo>, exclusiveActive: bool)
    requires Fine(j, v) && d in j.dl && 0 <= d.index < |j.m| && Fits(d, |j.info|, j.base, j.bpp)
    requires blocks == j.info[d.info - j.base..d.info - j.base + j.bpp] && 0 <= j.BlocksIn(d.index) <= |blocks|
    requires exclusiveActive <==>
             forall b :: 0 <= b < j.BlocksIn(d.index) && blocks[b].state == Requested ==> blocks[b].peer == j.peer || blocks[b].peer == 0
    ensures Grade(j, v, d.index) ==
            if exclusiveActive then 0 else if j.whole > 0 then 2
            else if d.speed != NoSpeed && d.speed != j.speed && j.opts.affinity then (if Adjacent(d.speed, j.speed) then 1 else 2) else 0
  {
    EntryIs(j, v, d);
    hide Fine, Fits;
    assert OthersAtWork(j, v, d.index) <==> !exclusiveActive;
  }

  lemma EntryIs(j: Job, v: map<int, Entry>, d: DownloadingPiece)
    requires Fine(j, v) && d in j.dl && Fits(d, |j.info|, j.base, j.bpp)
    ensures d.index in v && v[d.index].speed == d.speed && v[d.index].blocks == j.info[d.info - j.base..d.info - j.base + j.bpp]
  {
    var at :| 0 <= at < |j.dl| && j.dl[at] == d;
    assert Shows(j.dl[at], j.info, j.base, j.bpp, v);
  }

  lemma ContentPush(k: Pick, x: PieceBlock)
    ensures Content(k.(free := k.free + [x], left := k.left - 1)) == Content(k) + multiset{x}
    ensures Content(k.(near := k.near + [x])) == Content(k) + multiset{x}
    ensures Content(k.(far := k.far + [x])) == Content(k) + multiset{x}
  {
  }

  lemma NotYet(j: Job, v: map<int, Entry>, k: Pick, x: PieceBlock, b: int)
    requires Scanned(j, v, k, x.piece, b) && x.block == b
    ensures j.Once() ==> x !in Content(k)
  {
  }

  lemma RoundUp(j: Job, v: map<int, Entry>, k: Pick, seen: set<int>)
    requires Tidy(j, v, k, seen) && k.left <= 0
    ensures Tidy(j, v, k.(left := 0), seen)
  {
    assert Content(k.(left := 0)) == Content(k);
  }

  predicate Adjacent(a: Speed, b: Speed) {
    var x, y := Rank(a), Rank(b);
    x - y == 1 || y - x == 1
  }

  function Rank(s: Speed): int {
    match s case NoSpeed => 0 case Slow => 1 case Medium => 2 case Fast => 3
  }

  // ------------------------------------------------------- fresh pieces

  /** A piece nobody has started: all its blocks are free. */
  lemma FreshPickable(j: Job, v: map<int, Entry>, p: int, b: int)
    requires Fine(j, v) && 0 <= p < |j.m| && j.CanPick(p) && 0 <= b < j.BlocksIn(p)
    ensures Pickable(j, v, PieceBlock(p, b))
  {
    InStepAt(j.m, v, j.bpp, j.last, p);
  }

  lemma FreshNotBegun(j: Job, v: map<int, Entry>, p: int)
    requires Fine(j, v) && 0 <= p < |j.m| && j.CanPick(p)
    ensures p !in v
  {
    InStepAt(j.m, v, j.bpp, j.last, p);
  }

  /** Lists the first `count` blocks of a piece nobody has started. */
  method ListFresh(j: Job, p: int, count: int, k0: Pick, ghost v: map<int, Entry>, ghost all: set<int>) returns (k: Pick)
    requires Fine(j, v) && 0 <= p < |j.m| && j.CanPick(p) && 0 <= count <= j.BlocksIn(p)
    requires Tidy(j, v, k0, all) && (j.Once() ==> p in all && Scanned(j, v, k0, p, 0))
    requires j.whole == 0 ==> count <= k0.left
    ensures Tidy(j, v, k, all) && Grows(k0, k) && k.left == k0.left - count
    ensures k.near == k0.near && k.far == k0.far && |k.free| == |k0.free| + count
    ensures OnlyPiece(k.free, |k0.free|, p) && NotBegun(v, k.free, |k0.free|)
    ensures forall b :: 0 <= b < count ==> PieceBlock(p, b) in k.free
  {
    k := k0;
    hide Tidy, Scanned, Pickable, Content, Fine, Grade, NotBegun;
    for b := 0 to count
      invariant Tidy(j, v, k, all) && Grows(k0, k) && k.left == k0.left - b
      invariant k.near == k0.near && k.far == k0.far && |k.free| == |k0.free| + b
      invariant OnlyPiece(k.free, |k0.free|, p)
      invariant j.Once() ==> Scanned(j, v, k, p, b)
      invariant forall c :: 0 <= c < b ==> k.free[|k0.free| + c] == PieceBlock(p, c)
    {
      ghost var before := k;
      var x := PieceBlock(p, b);
      FreshPickable(j, v, p, b);
      ContentPush(k, x);
      if j.Once() { NotYet(j, v, k, x, b); }
      PushFree(j, v, k, all, x);
      k := k.(free := k.free + [x], left := k.left - 1);
      if j.Once() { ScanOne(j, v, before, k, p, b); }
    }
    forall b | 0 <= b < count ensures PieceBlock(p, b) in k.free {
      assert k.free[|k0.free| + b] == PieceBlock(p, b);
    }
    FreshNotBegun(j, v, p);
    OnlyNotBegun(v, k.free, |k0.free|, p);
  }

  lemma OnlyNotBegun(v: map<int, Entry>, s: seq<PieceBlock>, from: int, p: int)
    requires OnlyPiece(s, from, p) && p !in v
    ensures NotBegun(v, s, from)
  {
  }

  /** The range of pieces around `piece` that can be picked together, at most
      `j.whole` of them. */
  method ExpandPiece(j: Job, piece: int) returns (start: int, end: int)
    requires |j.has| == |j.m| && 0 <= piece < |j.m| && j.CanPick(piece)
    ensures 0 <= start <= piece < end <= |j.m|
    ensures forall p :: start <= p < end ==> j.CanPick(p)
    ensures j.whole == 0 ==> start == piece && end == piece + 1
    ensures j.whole > 0 ==> end - start <= j.whole
    ensures j.whole > 0 ==> start == 0 || start == piece - j.whole + 1 || !j.CanPick(start - 1)
    ensures j.whole > 0 ==> end == |j.m| || end == start + j.whole || !j.CanPick(end)
  {
    if j.whole == 0 { return piece, piece + 1; }
    start := piece - 1;
    var lower := if piece - j.whole < -1 then -1 else piece - j.whole;
    while start > lower && j.CanPick(start)
      invariant -1 <= lower <= start < piece
      invariant forall p :: start < p <= piece ==> j.CanPick(p)
    {
      start := start - 1;
    }
    start := start + 1;
    end := piece + 1;
    var upper := if start + j.whole > |j.m| then |j.m| else start + j.whole;
    while end < upper && j.CanPick(end)
      invariant piece < end <= |j.m| && (end <= upper || end == piece + 1)
      invariant forall p :: start <= p < end ==> j.CanPick(p)
    {
      end := end + 1;
    }
  }

  /** Lists all blocks of the pieces from `start` to `end`. */
  method ListRange(j: Job, start: int, end: int, piece: int, k0: Pick, ghost v: map<int, Entry>, ghost all: set<int>) returns (k: Pick)
    requires Fine(j, v) && 0 <= start <= piece < end <= |j.m| && j.whole > 0
    requires forall p :: start <= p < end ==> j.CanPick(p)
    requires Tidy(j, v, k0, all) && (j.Once() ==> end == start + 1 && piece in all && Scanned(j, v, k0, piece, 0))
    ensures Tidy(j, v, k, all) && Grows(k0, k) && k.left < k0.left && k.near == k0.near && k.far == k0.far
    ensures forall p :: start <= p < end ==> Covered(j, v, k, p)
    ensures NotBegun(v, k.free, |k0.free|)
  {
    k := k0;
    hide Tidy, Pickable, Content, Covered, Scanned;
    GrowsRefl(k);
    for p := start to end
      invariant Tidy(j, v, k, all) && Grows(k0, k) && k.near == k0.near && k.far == k0.far && NotBegun(v, k.free, |k0.free|)
      invariant p == start ==> k == k0
      invariant p > start ==> k.left < k0.left
      invariant forall q :: start <= q < p ==> Covered(j, v, k, q)
    {
      ghost var before := k;
      FreshBlocks(j, v, p);
      k := ListFresh(j, p, j.BlocksIn(p), k, v, all);
      FreshListed(j, v, k, p);
      LevelMore(j, v, before.free, k.free, |k0.free|);
      GrowsTrans(k0, before, k);
      forall q | start <= q < p ensures Covered(j, v, k, q) { GrowsCovers(j, v, before, k, q); }
    }
  }

  lemma GrowsRefl(k: Pick)
    ensures Grows(k, k)
  {
  }

  lemma GrowsTrans(k: Pick, k': Pick, k'': Pick)
    requires Grows(k, k') && Grows(k', k'')
    ensures Grows(k, k'')
  {
  }

  /** All blocks of a piece are listed, or those there was room for. */
  lemma FreshListed(j: Job, v: map<int, Entry>, k: Pick, p: int)
    requires k.left <= 0 || forall b :: 0 <= b < j.BlocksIn(p) ==> PieceBlock(p, b) in k.free
    ensures Covered(j, v, k, p)
  {
  }

  /** Picks from one open piece, whether in progress or not. */
  method AddBlocks(j: Job, piece: int, ignore: seq<int>, k0: Pick, ghost v: map<int, Entry>, ghost seen: set<int>) returns (k: Pick)
    requires Fine(j, v) && 0 <= piece < |j.m| && j.PieceFree(piece)
    requires Tidy(j, v, k0, seen) && k0.left > 0
    requires j.Once() && piece !in ignore && !(j.opts.partials && piece in v) ==> piece !in seen
    ensures Tidy(j, v, k, seen + {piece}) && Grows(k0, k)
    ensures Allowed(j, v, piece) && piece !in ignore && !(j.opts.partials && piece in v) ==> Covered(j, v, k, piece)
    ensures j.whole == 0 ==> OnlyPiece(k.free, |k0.free|, piece)
    ensures j.whole == 0 && !j.opts.affinity ==> k.near == k0.near && k.far == k0.far
    ensures Level(j, v, k.free, |k0.free|) && (piece in ignore ==> k == k0)
    ensures j.opts.partials ==> NotBegun(v, k.free, |k0.free|) && k.near == k0.near && k.far == k0.far
  {
    hide Tidy, Scanned, Pickable, InStep, Grade, Content;
    k := k0;
    ghost var all := seen + {piece};
    InStepAt(j.m, v, j.bpp, j.last, piece);
    SeeMore(j, v, k, seen, all);
    if piece in ignore { return; }
    if j.m[piece].downloading {
      if j.opts.partials { return; }
      assert Queued(j.dl, piece);
      var i := FindPiece(j.dl, piece);
      k := AddBlocksDownloading(j, j.dl[i], k, v, seen);
      return;
    }
    if j.Once() { ScanStart(j, v, k, seen, piece); }
    if j.whole == 0 {
      var n := j.BlocksIn(piece);
      k := ListFresh(j, piece, if n > k.left then k.left else n, k, v, all);
      FreshListed(j, v, k, piece);
      NotBegunLevel(j, v, k.free, |k0.free|);
    } else {
      var start, end := ExpandPiece(j, piece);
      k := ListRange(j, start, end, piece, k, v, all);
      NotBegunLevel(j, v, k.free, |k0.free|);
      if k.left <= 0 {
        RoundUp(j, v, k, all);
        k := k.(left := 0);
      }
    }
  }

  // ------------------------------------------------- filling up the request

  /** Moving blocks between the lists, and dropping the `rest` only once the
      request is filled, keeps the lists tidy and everything covered. */
  lemma Moved(j: Job, v: map<int, Entry>, k0: Pick, k: Pick, seen: set<int>, rest: multiset<PieceBlock>)
    requires Tidy(j, v, k0, seen) && k0.left > 0
    requires AllPickable(j, v, k.free) && AllPickable(j, v, k.near) && AllPickable(j, v, k.far)
    requires AllGrade(j, v, k.near, 1) && AllGrade(j, v, k.far, 2)
    requires 0 <= k.left && |k.free| + k.left == |k0.free| + k0.left
    requires Content(k0) == Content(k) + rest && (k.left > 0 ==> rest == multiset{})
    requires forall g :: Saturated(k0, g) ==> Saturated(k, g)
    ensures Tidy(j, v, k, seen)
    ensures forall p :: Covered(j, v, k0, p) ==> Covered(j, v, k, p)
  {
    hide Pickable, FreeAt, Grade;
    assert forall x :: Content(k)[x] <= Content(k0)[x];
  }

  lemma TakeSplits(s: seq<PieceBlock>, c: int)
    requires 0 <= c <= |s|
    ensures multiset(s) == multiset(s[..c]) + multiset(s[c..])
  {
    assert s == s[..c] + s[c..];
  }

  function Least(a: int, b: int): int {
    if a < b then a else b
  }

  function TakeNear(k: Pick): Pick
    requires k.left >= 0
  {
    var c := Least(|k.near|, k.left);
    k.(free := k.free + k.near[..c], near := [], left := k.left - c)
  }

  function TakeFar(k: Pick): Pick
    requires k.left >= 0
  {
    var c := Least(|k.far|, k.left);
    k.(free := k.free + k.far[..c], far := [], left := k.left - c)
  }

  lemma TakeNearIs(k: Pick)
    requires k.left > 0
    ensures var c := Least(|k.near|, k.left);
            Content(k) == Content(TakeNear(k)) + multiset(k.near[c..]) && (TakeNear(k).left > 0 ==> multiset(k.near[c..]) == multiset{})
    ensures forall g :: Saturated(k, g) ==> Saturated(TakeNear(k), g)
  {
    var c := Least(|k.near|, k.left);
    TakeSplits(k.near, c);
    assert TakeNear(k).left > 0 ==> k.near[c..] == [];
  }

  lemma TakeNearKeeps(j: Job, v: map<int, Entry>, k: Pick, seen: set<int>)
    requires Tidy(j, v, k, seen) && k.left > 0
    ensures Tidy(j, v, TakeNear(k), seen)
    ensures forall p :: Covered(j, v, k, p) ==> Covered(j, v, TakeNear(k), p)
  {
    hide Pickable, FreeAt, Grade, Content, Saturated, Covered;
    TakeNearIs(k);
    Moved(j, v, k, TakeNear(k), seen, multiset(k.near[Least(|k.near|, k.left)..]));
  }

  lemma TakeFarIs(k: Pick)
    requires k.left > 0
    ensures var c := Least(|k.far|, k.left);
            Content(k) == Content(TakeFar(k)) + multiset(k.far[c..]) && (TakeFar(k).left > 0 ==> multiset(k.far[c..]) == multiset{})
    ensures forall g :: Saturated(k, g) ==> Saturated(TakeFar(k), g)
  {
    var c := Least(|k.far|, k.left);
    TakeSplits(k.far, c);
    assert TakeFar(k).left > 0 ==> k.far[c..] == [];
  }

  lemma TakeFarKeeps(j: Job, v: map<int, Entry>, k: Pick, seen: set<int>)
    requires Tidy(j, v, k, seen) && k.left > 0
    ensures Tidy(j, v, TakeFar(k), seen)
    ensures forall p :: Covered(j, v, k, p) ==> Covered(j, v, TakeFar(k), p)
  {
    hide Pickable, FreeAt, Grade, Content, Saturated, Covered;
    TakeFarIs(k);
    Moved(j, v, k, TakeFar(k), seen, multiset(k.far[Least(|k.far|, k.left)..]));
  }

  /** What is listed, then the second choices, then the last ones, as many as are wanted. */
  function InTurn(k: Pick): seq<PieceBlock>
    requires k.left >= 0
  {
    var c := Least(|k.near|, k.left);
    k.free + k.near[..c] + k.far[..Least(|k.far|, k.left - c)]
  }

  lemma InTurnIs(k: Pick)
    requires k.left >= 0
    ensures TakeNear(k).left >= 0
    ensures InTurn(k) == if TakeNear(k).left == 0 then TakeNear(k).free else TakeFar(TakeNear(k)).free
  {
    if TakeNear(k).left == 0 { assert k.far[..0] == []; }
  }

  /** The better choices come first. */
  ghost predicate ByGrade(j: Job, v: map<int, Entry>, s: seq<PieceBlock>) {
    forall a, b :: 0 <= a < b < |s| ==> Grade(j, v, s[a].piece) <= Grade(j, v, s[b].piece)
  }

  /** No better choice from the pieces in `from` is left out for a worse one. */
  ghost predicate BetterTaken(j: Job, v: map<int, Entry>, s: seq<PieceBlock>, from: set<int>) {
    forall x, a :: Pickable(j, v, x) && x.piece in from && x !in s && 0 <= a < |s| ==> Grade(j, v, s[a].piece) <= Grade(j, v, x.piece)
  }

  lemma LevelByGrade(j: Job, v: map<int, Entry>, s: seq<PieceBlock>, from: set<int>)
    requires Level(j, v, s, 0)
    ensures ByGrade(j, v, s) && BetterTaken(j, v, s, from)
  {
    hide Pickable;
    assert forall a :: 0 <= a < |s| ==> Grade(j, v, s[a].piece) == 0;
  }

  lemma TidyGrades(j: Job, v: map<int, Entry>, k: Pick, seen: set<int>)
    requires Tidy(j, v, k, seen)
    ensures AllGrade(j, v, k.near, 1) && AllGrade(j, v, k.far, 2)
  {
  }

  /** The grade of each block, by its place. */
  lemma InTurnGrades(j: Job, v: map<int, Entry>, k: Pick, a: int)
    requires Level(j, v, k.free, 0) && AllGrade(j, v, k.near, 1) && AllGrade(j, v, k.far, 2) && k.left >= 0 && 0 <= a < |InTurn(k)|
    ensures var c := Least(|k.near|, k.left);
            Grade(j, v, InTurn(k)[a].piece) == if a < |k.free| then 0 else if a < |k.free| + c then 1 else 2
  {
    hide Grade;
  }

  lemma InTurnTakes(j: Job, v: map<int, Entry>, k: Pick, x: PieceBlock)
    requires k.left > 0 && Covered(j, v, k, x.piece) && Pickable(j, v, x) && AllGrade(j, v, k.near, 1) && AllGrade(j, v, k.far, 2)
    requires Level(j, v, k.free, 0) && x !in InTurn(k)
    ensures Grade(j, v, x.piece) > 0 && (Grade(j, v, x.piece) == 1 ==> |k.near| >= k.left)
  {
    PickableAllowed(j, v, x);
    InTurnHolds(k, x);
    hide Grade, Pickable, InTurn;
    assert PieceBlock(x.piece, x.block) == x;
  }

  lemma InTurnHolds(k: Pick, x: PieceBlock)
    requires k.left > 0
    ensures x in k.free || (x in k.near && |k.near| < k.left) ==> x in InTurn(k)
  {
    var s := InTurn(k);
    forall i | 0 <= i < |k.free| ensures k.free[i] in s { assert s[i] == k.free[i]; }
    if |k.near| < k.left {
      forall i | 0 <= i < |k.near| ensures k.near[i] in s { assert s[|k.free| + i] == k.near[i]; }
    }
  }

  /** With the better grades covered, appending in turn keeps to the order of the grades. */
  lemma InTurnByGrade(j: Job, v: map<int, Entry>, k: Pick, from: set<int>)
    requires Level(j, v, k.free, 0) && AllGrade(j, v, k.near, 1) && AllGrade(j, v, k.far, 2) && k.left > 0 && CoversAll(j, v, k, from)
    ensures ByGrade(j, v, InTurn(k)) && BetterTaken(j, v, InTurn(k), from)
  {
    hide Grade, Pickable, Covered, Level, AllGrade, InTurn, Allowed;
    var s := InTurn(k);
    forall a, b | 0 <= a < b < |s| ensures Grade(j, v, s[a].piece) <= Grade(j, v, s[b].piece) {
      InTurnGrades(j, v, k, a);
      InTurnGrades(j, v, k, b);
    }
    forall x, a | Pickable(j, v, x) && x.piece in from && x !in s && 0 <= a < |s| ensures Grade(j, v, s[a].piece) <= Grade(j, v, x.piece) {
      PickableAllowed(j, v, x);
      InTurnTakes(j, v, k, x);
      InTurnGrades(j, v, k, a);
      InTurnLength(k);
    }
  }

  lemma InTurnLength(k: Pick)
    requires k.left >= 0
    ensures |k.near| >= k.left ==> |InTurn(k)| == |k.free| + Least(|k.near|, k.left)
  {
  }

  /** Moves second choices, then last choices, to the end of the result, as many
      as are wanted. */
  method AppendBlocks(j: Job, k0: Pick, ghost v: map<int, Entry>, ghost seen: set<int>) returns (k: Pick)
    requires Tidy(j, v, k0, seen) && k0.left > 0
    ensures Tidy(j, v, k, seen) && 0 <= k.left <= k0.left && k0.free <= k.free
    ensures k.left > 0 ==> k.near == [] && k.far == []
    ensures forall p :: Covered(j, v, k0, p) ==> Covered(j, v, k, p)
    ensures k0.near == [] && k0.far == [] ==> k == k0
    ensures k.free == InTurn(k0)
  {
    hide Tidy, Covered;
    InTurnIs(k0);
    TakeNearKeeps(j, v, k0, seen);
    k := TakeNear(k0);
    if k.left <= 0 { return; }
    TakeFarKeeps(j, v, k, seen);
    k := TakeFar(k);
  }

  // --------------------------------------------------------- the passes

  /** All free blocks of the pieces in `s` are accounted for. */
  ghost predicate CoversAll(j: Job, v: map<int, Entry>, k: Pick, s: set<int>) {
    forall p :: p in s && Allowed(j, v, p) ==> Covered(j, v, k, p)
  }

  lemma CoversGrow(j: Job, v: map<int, Entry>, k: Pick, k': Pick, s: set<int>)
    requires CoversAll(j, v, k, s) && Grows(k, k')
    ensures CoversAll(j, v, k', s)
  {
    forall p | p in s && Allowed(j, v, p) ensures Covered(j, v, k', p) { GrowsCovers(j, v, k, k', p); }
  }

  /** The pieces among the first `i` queue entries that the peer has. */
  ghost function Partial(j: Job, i: int): (s: set<int>)
    requires 0 <= i <= |j.dl|
  {
    set a | 0 <= a < i && 0 <= j.dl[a].index < |j.has| && j.has[j.dl[a].index] :: j.dl[a].index
  }

  lemma PartialGrows(j: Job, i: int)
    requires 0 <= i < |j.dl|
    ensures var p := j.dl[i].index;
            Partial(j, i + 1) == if 0 <= p < |j.has| && j.has[p] then Partial(j, i) + {p} else Partial(j, i)
  {
    assert forall p :: p in Partial(j, i + 1) ==>
      p in Partial(j, i) || (p == j.dl[i].index && 0 <= p < |j.has| && j.has[p]);
    assert forall p :: p in Partial(j, i) ==> p in Partial(j, i + 1);
  }

  /** Every piece in progress that the peer has is among the partial ones. */
  lemma PartialIsAll(j: Job, v: map<int, Entry>, p: int)
    requires Fine(j, v) && p in v && j.has[p]
    ensures p in Partial(j, |j.dl|)
  {
    assert Queued(j.dl, p);
  }

  lemma PartialNew(j: Job, v: map<int, Entry>, i: int)
    requires Fine(j, v) && 0 <= i < |j.dl|
    ensures 0 <= j.dl[i].index < |j.m| && j.dl[i].index in v && j.dl[i].index !in Partial(j, i)
  {
    assert Shows(j.dl[i], j.info, j.base, j.bpp, v);
    forall a | 0 <= a < i ensures j.dl[a].index != j.dl[i].index {
      assert Apart(j.dl[a], j.dl[i], j.bpp);
    }
  }

  /** The pass over the pieces in progress, run first when they are preferred. */
  method PickPartials(j: Job, k0: Pick, ghost v: map<int, Entry>) returns (k: Pick)
    requires Fine(j, v) && j.opts.partials
    requires Tidy(j, v, k0, {}) && k0 == Pick([], [], [], k0.left) && k0.left > 0
    ensures Tidy(j, v, k, Partial(j, |j.dl|))
    ensures k.left > 0 ==> k.near == [] && k.far == []
    ensures k.left > 0 ==> CoversAll(j, v, k, Partial(j, |j.dl|))
    ensures Begun(v, k.free) && ByGrade(j, v, k.free) && BetterTaken(j, v, k.free, Partial(j, |j.dl|))
  {
    hide Tidy, Fine, Pickable, Covered, Grade, Level, ByGrade, BetterTaken, Begun, InTurn, CoversAll;
    k := k0;
    assert Partial(j, 0) == {};
    PartialsStart(j, v, k);
    for i := 0 to |j.dl|
      invariant Tidy(j, v, k, Partial(j, i)) && k.left > 0
      invariant CoversAll(j, v, k, Partial(j, i))
      invariant Level(j, v, k.free, 0) && Begun(v, k.free)
    {
      PartialNew(j, v, i);
      PartialGrows(j, i);
      FineSizes(j, v);
      if j.has[j.dl[i].index] {
        ghost var before := k;
        k := AddBlocksDownloading(j, j.dl[i], k, v, Partial(j, i));
        CoversGrow(j, v, before, k, Partial(j, i));
        CoversOneMore(j, v, k, Partial(j, i), j.dl[i].index);
        LevelMore(j, v, before.free, k.free, 0);
        BegunMore(v, before.free, k.free, j.dl[i].index);
        if k.left <= 0 {
          PartialPrefix(j, i + 1);
          SeeMore(j, v, k, Partial(j, i + 1), Partial(j, |j.dl|));
          LevelByGrade(j, v, k.free, Partial(j, |j.dl|));
          return;
        }
      }
    }
    ghost var before := k;
    TidyGrades(j, v, k, Partial(j, |j.dl|));
    InTurnByGrade(j, v, k, Partial(j, |j.dl|));
    InTurnBegun(j, v, k);
    k := AppendBlocks(j, k, v, Partial(j, |j.dl|));
    CoversKept(j, v, before, k, Partial(j, |j.dl|));
  }

  /** Everything listed belongs to pieces in progress. */
  ghost predicate Begun(v: map<int, Entry>, s: seq<PieceBlock>) {
    forall i :: 0 <= i < |s| ==> s[i].piece in v
  }

  lemma PartialsStart(j: Job, v: map<int, Entry>, k: Pick)
    requires k.free == []
    ensures Level(j, v, k.free, 0) && Begun(v, k.free) && CoversAll(j, v, k, {})
  {
  }

  lemma BegunMore(v: map<int, Entry>, s: seq<PieceBlock>, t: seq<PieceBlock>, p: int)
    requires Begun(v, s) && s <= t && OnlyPiece(t, |s|, p) && p in v
    ensures Begun(v, t)
  {
    forall i | 0 <= i < |t| ensures t[i].piece in v { assert i < |s| ==> t[i] == s[i]; }
  }

  lemma InTurnBegun(j: Job, v: map<int, Entry>, k: Pick)
    requires Begun(v, k.free) && AllGrade(j, v, k.near, 1) && AllGrade(j, v, k.far, 2) && Level(j, v, k.free, 0) && k.left >= 0
    ensures Begun(v, InTurn(k))
  {
    hide Grade, Level, AllGrade;
    forall i | 0 <= i < |InTurn(k)| ensures InTurn(k)[i].piece in v {
      InTurnGrades(j, v, k, i);
      assert i < |k.free| ==> InTurn(k)[i] == k.free[i];
    }
  }

  lemma CoversKept(j: Job, v: map<int, Entry>, k: Pick, k': Pick, s: set<int>)
    requires CoversAll(j, v, k, s) && forall p :: Covered(j, v, k, p) ==> Covered(j, v, k', p)
    ensures CoversAll(j, v, k', s)
  {
    hide Covered, Allowed;
  }

  lemma FineSizes(j: Job, v: map<int, Entry>)
    requires Fine(j, v)
    ensures |j.has| == |j.m|
  {
  }

  lemma PartialPrefix(j: Job, i: int)
    requires 0 <= i <= |j.dl|
    ensures Partial(j, i) <= Partial(j, |j.dl|)
  {
  }

  ghost predicate Valids(j: Job, order: seq<int>) {
    forall i :: 0 <= i < |order| ==> 0 <= order[i] < |j.m|
  }

  /** A pass leaves out pieces offered before. */
  ghost predicate Skipped(j: Job, v: map<int, Entry>, ignore: seq<int>, p: int) {
    p in ignore || (j.opts.partials && p in v)
  }

  ghost predicate Ordered(order: seq<int>, key: seq<int>) {
    forall a, b :: 0 <= a < b < |order| && 0 <= order[a] < |key| && 0 <= order[b] < |key| ==> key[order[a]] <= key[order[b]]
  }

  ghost predicate OrderedBlocks(s: seq<PieceBlock>, key: seq<int>) {
    forall a, b :: 0 <= a < b < |s| && 0 <= s[a].piece < |key| && 0 <= s[b].piece < |key| ==> key[s[a].piece] <= key[s[b].piece]
  }

  /** Appending blocks of a piece whose key is at least all earlier ones. */
  lemma OrderedAppend(s: seq<PieceBlock>, t: seq<PieceBlock>, p: int, key: seq<int>)
    requires OrderedBlocks(s, key) && s <= t && OnlyPiece(t, |s|, p) && 0 <= p < |key|
    requires forall a :: 0 <= a < |s| && 0 <= s[a].piece < |key| ==> key[s[a].piece] <= key[p]
    ensures OrderedBlocks(t, key)
    ensures forall a :: 0 <= a < |t| && 0 <= t[a].piece < |key| ==> key[t[a].piece] <= key[p]
  {
  }

  /** Offers the pieces of `order` one after the other until the request is filled. */
  method Visit(j: Job, order: seq<int>, ignore: seq<int>, k0: Pick, ghost v: map<int, Entry>, ghost seen: set<int>, ghost key: seq<int>)
    returns (k: Pick)
    requires Fine(j, v) && Valids(j, order) && |key| == |j.m|
    requires Tidy(j, v, k0, seen) && k0.left > 0
    requires j.Once() ==> Distinct(order) && forall p :: p in order && !Skipped(j, v, ignore, p) ==> p !in seen
    ensures Tidy(j, v, k, seen + Members(order)) && Grows(k0, k)
    ensures |j.has| == |j.m|
    ensures CoversAll(j, v, k, Offered(j, v, order, ignore))
    ensures j.whole == 0 && !j.opts.affinity ==> k.near == k0.near && k.far == k0.far
    ensures Level(j, v, k.free, |k0.free|) && (j.whole == 0 ==> Drawn(k.free, |k0.free|, order, ignore))
    ensures j.opts.partials ==> NotBegun(v, k.free, |k0.free|) && k.near == k0.near && k.far == k0.far
    ensures j.whole == 0 && k0.free == [] && Ordered(order, key) ==> OrderedBlocks(k.free, key) && FromFirst(k.free, order, |order|)
    ensures j.whole == 0 && !j.opts.affinity && k0 == Pick([], [], [], k0.left) && Ordered(order, key) ==>
              TakenFirst(j, v, k.free, Offered(j, v, order, ignore), key)
  {
    hide Fine, Tidy, Covered, CoversAll, Ordered, OrderedBlocks, FromFirst, Offered, Distinct, Pickable, Content, Grade, Level, NotBegun, Drawn;
    FineSizes(j, v);
    k := k0;
    NothingAdded(j, v, k.free, order, ignore);
    VisitStart(j, v, order, ignore, k, key);
    assert seen + {} == seen;
    for i := 0 to |order|
      invariant Tidy(j, v, k, seen + Members(order[..i])) && Grows(k0, k) && k.left > 0
      invariant CoversAll(j, v, k, Offered(j, v, order[..i], ignore))
      invariant j.whole == 0 && !j.opts.affinity ==> k.near == k0.near && k.far == k0.far
      invariant Level(j, v, k.free, |k0.free|) && (j.whole == 0 ==> Drawn(k.free, |k0.free|, order, ignore))
      invariant j.opts.partials ==> NotBegun(v, k.free, |k0.free|) && k.near == k0.near && k.far == k0.far
      invariant j.whole == 0 && k0.free == [] && Ordered(order, key) ==> InOrderSoFar(k.free, key, order, i)
    {
      OneMore(order, i);
      OfferedGrows(j, v, order, ignore, i);
      var p := order[i];
      if j.PieceFree(p) {
        ghost var before := k;
        assert j.Once() && !Skipped(j, v, ignore, p) ==> p !in seen + Members(order[..i]);
        k := AddBlocks(j, p, ignore, k, v, seen + Members(order[..i]));
        assert (seen + Members(order[..i])) + {p} == seen + Members(order[..i + 1]);
        LevelMore(j, v, before.free, k.free, |k0.free|);
        if j.whole == 0 { DrawnMore(before.free, k.free, |k0.free|, order, ignore, p); }
        CoversGrow(j, v, before, k, Offered(j, v, order[..i], ignore));
        CoversOneMore(j, v, k, Offered(j, v, order[..i], ignore), p);
        if j.whole == 0 && k0.free == [] && Ordered(order, key) {
          InOrderStep(before.free, k.free, key, order, i);
        }
        if k.left <= 0 {
          SeeMore(j, v, k, seen + Members(order[..i + 1]), seen + Members(order));
          if j.whole == 0 && !j.opts.affinity && k0 == Pick([], [], [], k0.left) && Ordered(order, key) {
            StopTakes(j, v, before, k, order, ignore, key, i);
          }
          FirstLater(k.free, order, i + 1);
          FilledCovers(j, v, k, order, ignore);
          return;
        }
      } else {
        SeeMore(j, v, k, seen + Members(order[..i]), seen + Members(order[..i + 1]));
        if j.whole == 0 && k0.free == [] && Ordered(order, key) { InOrderStep(k.free, k.free, key, order, i); }
      }
    }
    assert order[..|order|] == order;
    if j.whole == 0 && !j.opts.affinity && k0 == Pick([], [], [], k0.left) && Ordered(order, key) {
      EndTakes(j, v, k, order, ignore, key);
    }
  }

  /** What is listed from `from` on belongs to pieces of `order` that are not to be ignored. */
  ghost predicate Drawn(s: seq<PieceBlock>, from: int, order: seq<int>, ignore: seq<int>) {
    forall i :: 0 <= from <= i < |s| ==> s[i].piece in order && s[i].piece !in ignore
  }

  lemma NothingAdded(j: Job, v: map<int, Entry>, s: seq<PieceBlock>, order: seq<int>, ignore: seq<int>)
    ensures Level(j, v, s, |s|) && NotBegun(v, s, |s|) && Drawn(s, |s|, order, ignore)
  {
  }

  lemma DrawnMore(s: seq<PieceBlock>, t: seq<PieceBlock>, from: int, order: seq<int>, ignore: seq<int>, p: int)
    requires Drawn(s, from, order, ignore) && s <= t && OnlyPiece(t, |s|, p) && p in order && (p in ignore ==> t == s) && 0 <= from <= |s|
    ensures Drawn(t, from, order, ignore)
  {
    forall i | from <= i < |t| ensures t[i].piece in order && t[i].piece !in ignore { assert i < |s| ==> t[i] == s[i]; }
  }

  /** No block left out of `s` is of a piece that comes before one in `s`. */
  ghost predicate TakenFirst(j: Job, v: map<int, Entry>, s: seq<PieceBlock>, offered: set<int>, key: seq<int>) {
    forall x, a :: Pickable(j, v, x) && x.piece in offered && x !in s && 0 <= a < |s| && 0 <= s[a].piece < |key| && 0 <= x.piece < |key| ==>
      key[s[a].piece] <= key[x.piece]
  }

  lemma PickableAllowed(j: Job, v: map<int, Entry>, x: PieceBlock)
    requires Pickable(j, v, x)
    ensures Allowed(j, v, x.piece) && 0 <= x.block < j.BlocksIn(x.piece) && FreeAt(v, x.piece, x.block)
  {
  }

  /** With nothing in reserve everything pickable of a covered piece is listed. */
  lemma AllTaken(j: Job, v: map<int, Entry>, k: Pick, s: set<int>, x: PieceBlock)
    requires CoversAll(j, v, k, s) && k.left > 0 && k.near == [] && k.far == [] && x.piece in s && Pickable(j, v, x)
    ensures x in k.free
  {
    PickableAllowed(j, v, x);
    assert PieceBlock(x.piece, x.block) in Content(k);
  }

  lemma StopTakes(j: Job, v: map<int, Entry>, before: Pick, k: Pick, order: seq<int>, ignore: seq<int>, key: seq<int>, i: int)
    requires |j.has| == |j.m| && Valids(j, order) && 0 <= i < |order| && 0 <= order[i] < |key| && Ordered(order, key)
    requires CoversAll(j, v, before, Offered(j, v, order[..i], ignore)) && before.left > 0 && before.near == [] && before.far == []
    requires before.free <= k.free && FromFirst(k.free, order, i + 1)
    ensures TakenFirst(j, v, k.free, Offered(j, v, order, ignore), key)
  {
    var offered := Offered(j, v, order, ignore);
    hide Pickable, Covered, Content, CoversAll, Allowed;
    forall x | Pickable(j, v, x) && x.piece in Offered(j, v, order[..i], ignore) ensures x in k.free {
      AllTaken(j, v, before, Offered(j, v, order[..i], ignore), x);
      assert forall y :: y in before.free ==> y in k.free;
    }
    forall x, a | Pickable(j, v, x) && x.piece in offered && x !in k.free && 0 <= a < |k.free| && 0 <= k.free[a].piece < |key| && 0 <= x.piece < |key|
      ensures key[k.free[a].piece] <= key[x.piece] {
      var b := PlaceOf(order, i, x.piece);
      var c :| 0 <= c < i + 1 && order[..i + 1][c] == k.free[a].piece;
      assert order[c] == k.free[a].piece;
    }
  }

  lemma PlaceOf(order: seq<int>, i: int, p: int) returns (b: int)
    requires 0 <= i <= |order| && p in order && p !in order[..i]
    ensures i <= b < |order| && order[b] == p
  {
    assert order == order[..i] + order[i..];
    var c :| 0 <= c < |order| - i && order[i..][c] == p;
    b := i + c;
  }

  lemma EndTakes(j: Job, v: map<int, Entry>, k: Pick, order: seq<int>, ignore: seq<int>, key: seq<int>)
    requires |j.has| == |j.m| && Valids(j, order)
    requires CoversAll(j, v, k, Offered(j, v, order, ignore)) && k.left > 0 && k.near == [] && k.far == []
    ensures TakenFirst(j, v, k.free, Offered(j, v, order, ignore), key)
  {
    hide Pickable, Covered, Content, CoversAll, Allowed, Offered;
    forall x | Pickable(j, v, x) && x.piece in Offered(j, v, order, ignore) ensures x in k.free {
      AllTaken(j, v, k, Offered(j, v, order, ignore), x);
    }
  }

  lemma CoversOneMore(j: Job, v: map<int, Entry>, k: Pick, s: set<int>, p: int)
    requires CoversAll(j, v, k, s)
    ensures (Allowed(j, v, p) ==> Covered(j, v, k, p)) ==> CoversAll(j, v, k, s + {p})
  {
    hide Covered, Allowed;
  }

  lemma VisitStart(j: Job, v: map<int, Entry>, order: seq<int>, ignore: seq<int>, k: Pick, key: seq<int>)
    requires Valids(j, order) && |j.has| == |j.m|
    ensures Members(order[..0]) == {} && CoversAll(j, v, k, Offered(j, v, order[..0], ignore))
    ensures k.free == [] ==> InOrderSoFar(k.free, key, order, 0)
  {
    assert Offered(j, v, order[..0], ignore) == {};
  }

  lemma FilledCovers(j: Job, v: map<int, Entry>, k: Pick, order: seq<int>, ignore: seq<int>)
    requires Valids(j, order) && |j.has| == |j.m| && k.left <= 0
    ensures CoversAll(j, v, k, Offered(j, v, order, ignore))
  {
  }

  ghost function Offered(j: Job, v: map<int, Entry>, order: seq<int>, ignore: seq<int>): (s: set<int>)
    requires Valids(j, order) && |j.has| == |j.m|
  {
    set p | p in order && 0 <= p < |j.m| && j.PieceFree(p) && !Skipped(j, v, ignore, p)
  }

  lemma OfferedGrows(j: Job, v: map<int, Entry>, order: seq<int>, ignore: seq<int>, i: int)
    requires Valids(j, order) && |j.has| == |j.m| && 0 <= i < |order|
    ensures var p, s := order[i], Offered(j, v, order[..i], ignore);
            Offered(j, v, order[..i + 1], ignore) == if j.PieceFree(p) && !Skipped(j, v, ignore, p) then s + {p} else s
  {
    assert order[..i + 1] == order[..i] + [order[i]];
  }

  lemma OneMore(order: seq<int>, i: int)
    requires 0 <= i < |order|
    ensures Members(order[..i + 1]) == Members(order[..i]) + {order[i]}
    ensures Members(order[..i + 1]) <= Members(order)
    ensures Distinct(order) ==> order[i] !in Members(order[..i])
  {
    assert order[..i + 1] == order[..i] + [order[i]];
  }

  /** Every listed block belongs to one of the first `i` pieces. */
  ghost predicate FromFirst(s: seq<PieceBlock>, order: seq<int>, i: int)
    requires 0 <= i <= |order|
  {
    forall a :: 0 <= a < |s| ==> s[a].piece in order[..i]
  }

  ghost predicate InOrderSoFar(s: seq<PieceBlock>, key: seq<int>, order: seq<int>, i: int)
    requires 0 <= i <= |order|
  {
    OrderedBlocks(s, key) && FromFirst(s, order, i)
  }

  lemma InOrderStep(s: seq<PieceBlock>, t: seq<PieceBlock>, key: seq<int>, order: seq<int>, i: int)
    requires 0 <= i < |order| && 0 <= order[i] < |key| && Ordered(order, key)
    requires InOrderSoFar(s, key, order, i) && s <= t && OnlyPiece(t, |s|, order[i])
    ensures InOrderSoFar(t, key, order, i + 1)
  {
    KeyBelow(s, key, order, i);
    OrderedAppend(s, t, order[i], key);
    FirstGrows(s, t, order, i);
  }

  lemma KeyBelow(s: seq<PieceBlock>, key: seq<int>, order: seq<int>, i: int)
    requires 0 <= i < |order| && 0 <= order[i] < |key|
    requires FromFirst(s, order, i) && Ordered(order, key)
    ensures forall a :: 0 <= a < |s| && 0 <= s[a].piece < |key| ==> key[s[a].piece] <= key[order[i]]
  {
  }

  lemma FirstLater(s: seq<PieceBlock>, order: seq<int>, i: int)
    requires 0 <= i <= |order|
    ensures FromFirst(s, order, i) ==> FromFirst(s, order, |order|)
  {
    if FromFirst(s, order, i) {
      forall a | 0 <= a < |s| ensures s[a].piece in order[..|order|] { assert s[a].piece in order[..i]; }
    }
  }

  lemma FirstGrows(s: seq<PieceBlock>, t: seq<PieceBlock>, order: seq<int>, i: int)
    requires 0 <= i < |order| && FromFirst(s, order, i) && s <= t && OnlyPiece(t, |s|, order[i])
    ensures FromFirst(t, order, i + 1)
  {
    assert order[..i + 1] == order[..i] + [order[i]];
    forall a | 0 <= a < |t| ensures t[a].piece in order[..i + 1] {
      if a < |s| { assert s[a].piece in order[..i]; }
    }
  }

  // ------------------------------------------------ orders of preference

  function Upward(from: int, to: int): (r: seq<int>)
    ensures |r| == if from <= to then to - from else 0
    ensures forall i :: 0 <= i < |r| ==> r[i] == from + i
  {
    seq(if from <= to then to - from else 0, i => from + i)
  }

  function Downward(from: int, to: int): (r: seq<int>)
    ensures |r| == if from <= to then to - from else 0
    ensures forall i :: 0 <= i < |r| ==> r[i] == to - 1 - i
  {
    seq(if from <= to then to - from else 0, i => to - 1 - i)
  }

  /** The bucket visited in step `i` of the reverse pass: groups of four in
      descending order, ascending inside each group. */
  function Mirrored(i: int): (b: int)
    ensures i >= 0 ==> b >= 0 && b / PRIO_FACTOR == i / PRIO_FACTOR
    ensures i >= 0 ==> b / PRIO_FACTOR * PRIO_FACTOR + PRIO_FACTOR - 1 - b % PRIO_FACTOR == i
  {
    i / PRIO_FACTOR * PRIO_FACTOR + PRIO_FACTOR - 1 - i % PRIO_FACTOR
  }

  /** Visited in the order of the reverse pass. */
  ghost predicate Descends(order: seq<int>, prio: seq<int>) {
    && (forall i :: 0 <= i < |order| ==> 0 <= order[i] < |prio|)
    && forall i, k :: 0 <= i < k < |order| ==> Mirrored(prio[order[i]]) >= Mirrored(prio[order[k]])
  }

  /** Pieces with a smaller key are looked at first. */
  ghost function PassKey(j: Job, prio: seq<int>): (key: seq<int>)
    ensures |key| == |prio|
  {
    seq(|prio|, p requires 0 <= p < |prio| =>
      (if j.opts.sequential then (if j.opts.reverse then -p else p)
       else if j.opts.reverse then -Mirrored(prio[p]) else prio[p]))
  }

  lemma DescendsConcat(a: seq<int>, b: seq<int>, prio: seq<int>, m: int)
    requires Descends(a, prio) && forall p :: p in a ==> 0 <= p < |prio| && Mirrored(prio[p]) > m
    requires forall p :: p in b ==> 0 <= p < |prio| && Mirrored(prio[p]) == m
    ensures Descends(a + b, prio)
  {
    hide Mirrored;
    var c := a + b;
    forall i | 0 <= i < |c| ensures 0 <= c[i] < |prio| && (if i < |a| then Mirrored(prio[c[i]]) > m else Mirrored(prio[c[i]]) == m) {
      assert if i < |a| then c[i] == a[i] && a[i] in a else c[i] == b[i - |a|] && b[i - |a|] in b;
    }
    forall i, k | 0 <= i < k < |c| ensures Mirrored(prio[c[i]]) >= Mirrored(prio[c[k]]) {
      if k < |a| { assert c[i] == a[i] && c[k] == a[k]; }
    }
  }

  /** The pieces in the order of the reverse pass; every listed piece occurs
      exactly once. */
  method ReverseOrder(list: seq<int>, bounds: seq<int>, ghost idx: seq<int>, ghost prio: seq<int>) returns (order: seq<int>)
    requires Layout(list, bounds, idx, prio) && |bounds| % PRIO_FACTOR == 0
    ensures Distinct(order) && Members(order) == Members(list) && Descends(order, prio)
  {
    order := [];
    ReverseStart(list, bounds, idx, prio);
    MirrorRange(|bounds|);
    hide *;
    for i := |bounds| downto 0
      invariant Distinct(order) && Descends(order, prio) && Gathered(order, prio, i)
    {
      var b := Mirrored(i);
      BucketWithin(list, bounds, idx, prio, b);
      ReverseStep(list, bounds, idx, prio, order, i);
      order := order + list[Start(bounds, b)..bounds[b]];
    }
    ReverseEnd(list, bounds, idx, prio, order);
  }

  /** The pieces of the buckets visited up to step `i`. */
  ghost predicate Gathered(order: seq<int>, prio: seq<int>, i: int) {
    forall p :: p in order <==> 0 <= p < |prio| && prio[p] >= 0 && Mirrored(prio[p]) >= i
  }

  lemma MirrorRange(n: int)
    requires n >= 0 && n % PRIO_FACTOR == 0
    ensures forall i :: 0 <= i < n ==> 0 <= Mirrored(i) < n && Mirrored(Mirrored(i)) == i
  {
  }

  lemma ReverseStart(list: seq<int>, bounds: seq<int>, idx: seq<int>, prio: seq<int>)
    requires Layout(list, bounds, idx, prio) && |bounds| % PRIO_FACTOR == 0
    ensures Distinct([]) && Descends([], prio) && Gathered([], prio, |bounds|)
  {
    MirrorRange(|bounds|);
    hide Mirrored;
    forall p | 0 <= p < |prio| && prio[p] >= 0 ensures Mirrored(prio[p]) < |bounds| { assert Placed(list, bounds, idx, prio, p); }
  }

  lemma BucketHolds(list: seq<int>, bounds: seq<int>, idx: seq<int>, prio: seq<int>, b: int)
    requires Layout(list, bounds, idx, prio) && 0 <= b < |bounds| && 0 <= Start(bounds, b) <= bounds[b] <= |list|
    ensures forall p :: p in list[Start(bounds, b)..bounds[b]] <==> 0 <= p < |prio| && prio[p] == b
  {
    BucketMembers(list, bounds, idx, prio, b);
    hide Layout;
    var bucket := list[Start(bounds, b)..bounds[b]];
    assert forall p :: p in bucket <==> p in Members(bucket);
  }

  lemma ReverseStep(list: seq<int>, bounds: seq<int>, idx: seq<int>, prio: seq<int>, order: seq<int>, i: int)
    requires Layout(list, bounds, idx, prio) && |bounds| % PRIO_FACTOR == 0 && 0 <= i < |bounds|
    requires 0 <= Mirrored(i) < |bounds| && 0 <= Start(bounds, Mirrored(i)) <= bounds[Mirrored(i)] <= |list|
    requires Distinct(order) && Descends(order, prio) && Gathered(order, prio, i + 1)
    ensures var next := order + list[Start(bounds, Mirrored(i))..bounds[Mirrored(i)]];
            Distinct(next) && Descends(next, prio) && Gathered(next, prio, i)
  {
    var b := Mirrored(i);
    var bucket := list[Start(bounds, b)..bounds[b]];
    BucketHolds(list, bounds, idx, prio, b);
    SliceDistinct(list, bounds, idx, prio, b);
    GatherBucket(order, bucket, prio, i);
    hide *;
    DistinctConcat(order, bucket);
    DescendsConcat(order, bucket, prio, i);
  }

  lemma GatherBucket(order: seq<int>, bucket: seq<int>, prio: seq<int>, i: int)
    requires Gathered(order, prio, i + 1) && i >= 0 && forall p :: p in bucket <==> 0 <= p < |prio| && prio[p] == Mirrored(i)
    ensures Gathered(order + bucket, prio, i)
    ensures forall p :: p in bucket ==> 0 <= p < |prio| && Mirrored(prio[p]) == i
    ensures forall p :: p in order ==> 0 <= p < |prio| && Mirrored(prio[p]) > i
    ensures forall p :: !(p in order && p in bucket)
  {
    forall p | 0 <= p < |prio| && prio[p] >= 0 ensures Mirrored(prio[p]) == i <==> prio[p] == Mirrored(i) { MirrorPair(prio[p], i); }
    hide Mirrored;
    forall p ensures p in order + bucket <==> 0 <= p < |prio| && prio[p] >= 0 && Mirrored(prio[p]) >= i {
      assert p in order + bucket <==> p in order || p in bucket;
      assert Mirrored(i) >= 0;
    }
  }

  lemma MirrorPair(a: int, b: int)
    requires a >= 0 && b >= 0
    ensures Mirrored(a) == b <==> a == Mirrored(b)
  {
  }

  lemma ReverseEnd(list: seq<int>, bounds: seq<int>, idx: seq<int>, prio: seq<int>, order: seq<int>)
    requires Layout(list, bounds, idx, prio) && Gathered(order, prio, 0)
    ensures Members(order) == Members(list)
  {
    AllInList(list, bounds, idx, prio);
    ListedOpen(list, bounds, idx, prio);
    hide Layout;
    forall p ensures p in order <==> p in list {
      assert 0 <= p < |prio| && prio[p] >= 0 ==> Mirrored(prio[p]) >= 0;
    }
  }

  lemma ListedOpen(list: seq<int>, bounds: seq<int>, idx: seq<int>, prio: seq<int>)
    requires Layout(list, bounds, idx, prio)
    ensures forall p :: p in list ==> 0 <= p < |prio| && prio[p] >= 0
  {
    forall e | 0 <= e < |list| ensures 0 <= list[e] < |prio| && prio[list[e]] >= 0 { assert Listed(list, idx, prio, e); }
  }

  lemma DistinctConcat(a: seq<int>, b: seq<int>)
    requires Distinct(a) && Distinct(b) && forall p :: !(p in a && p in b)
    ensures Distinct(a + b)
  {
    forall i, k | 0 <= i < k < |a + b| ensures (a + b)[i] != (a + b)[k] {
      if i < |a| <= k { assert a[i] in a && b[k - |a|] in b; }
    }
  }

  lemma SliceDistinct(list: seq<int>, bounds: seq<int>, idx: seq<int>, prio: seq<int>, b: int)
    requires Layout(list, bounds, idx, prio) && 0 <= b < |bounds| && 0 <= Start(bounds, b) <= bounds[b] <= |list|
    ensures Distinct(list[Start(bounds, b)..bounds[b]])
  {
    var s, from := list[Start(bounds, b)..bounds[b]], Start(bounds, b);
    forall a, c | 0 <= a < c < |s| ensures s[a] != s[c] {
      assert Listed(list, idx, prio, from + a) && Listed(list, idx, prio, from + c);
    }
  }

  lemma ListDistinct(list: seq<int>, bounds: seq<int>, idx: seq<int>, prio: seq<int>)
    requires Layout(list, bounds, idx, prio)
    ensures Distinct(list) && Ordered(list, prio)
    ensures forall i :: 0 <= i < |list| ==> 0 <= list[i] < |prio|
  {
    forall i | 0 <= i < |list| ensures 0 <= list[i] < |prio| { assert Listed(list, idx, prio, i); }
    forall a, b | 0 <= a < b < |list| ensures list[a] != list[b] && prio[list[a]] <= prio[list[b]] {
      ListIsSorted(list, bounds, idx, prio, a, b);
    }
  }

  // ---------------------------------------------------- the unordered pass

  /** How far ahead of `start` a piece is on a circular walk. */
  function Ahead(n: int, start: int, p: int): int {
    if p < start then n - start + p else p - start
  }

  /** `dist` steps from `start` the walk is at `piece`; it may have jumped over its start. */
  ghost predicate AtStep(n: int, start: int, dist: int, piece: int) {
    0 <= piece < n && 0 <= start < n && 0 <= dist && (dist < n ==> dist == Ahead(n, start, piece))
  }

  /** The piece cannot be picked, was suggested, or is covered. */
  ghost predicate Handled(j: Job, v: map<int, Entry>, k: Pick, p: int) {
    0 <= p < |j.m| == |j.has| && (j.CanPick(p) && p !in j.suggested ==> Covered(j, v, k, p))
  }

  ghost predicate HandledSoFar(j: Job, v: map<int, Entry>, k: Pick, start: int, dist: int) {
    forall p :: 0 <= p < |j.m| && Ahead(|j.m|, start, p) < dist ==> Handled(j, v, k, p)
  }

  lemma HandledMore(j: Job, v: map<int, Entry>, k: Pick, start: int, dist: int, piece: int, to: int)
    requires HandledSoFar(j, v, k, start, dist) && AtStep(|j.m|, start, dist, piece) && piece < to <= |j.m|
    requires forall p :: piece <= p < to ==> Handled(j, v, k, p)
    ensures HandledSoFar(j, v, k, start, dist + to - piece)
    ensures AtStep(|j.m|, start, dist + to - piece, if to == |j.m| then 0 else to)
  {
    hide Handled;
    forall p | 0 <= p < |j.m| && Ahead(|j.m|, start, p) < dist + to - piece ensures Handled(j, v, k, p) {
      if dist < |j.m| && dist <= Ahead(|j.m|, start, p) { assert piece <= p < to; }
    }
  }

  lemma HandledGrows(j: Job, v: map<int, Entry>, k: Pick, k': Pick, start: int, dist: int)
    requires HandledSoFar(j, v, k, start, dist) && Grows(k, k')
    ensures HandledSoFar(j, v, k', start, dist)
  {
    hide Covered, Grows;
    forall p | 0 <= p < |j.m| && Ahead(|j.m|, start, p) < dist ensures Handled(j, v, k', p) {
      assert Handled(j, v, k, p);
      if Covered(j, v, k, p) { GrowsCovers(j, v, k, k', p); }
    }
  }

  /** Every piece nobody has started is covered, unless it was suggested. */
  ghost predicate AllHandled(j: Job, v: map<int, Entry>, k: Pick) {
    forall p :: 0 <= p < |j.m| ==> Handled(j, v, k, p)
  }

  /** Back at the start of the walk, or with enough at hand, everything has been handled. */
  lemma WalkEnds(j: Job, v: map<int, Entry>, k: Pick, start: int, dist: int, piece: int)
    requires |j.has| == |j.m| && HandledSoFar(j, v, k, start, dist) && AtStep(|j.m|, start, dist, piece)
    requires k.left <= 0 || (dist > 0 && piece == start)
    ensures AllHandled(j, v, k)
  {
    if k.left <= 0 {
      assert forall p :: Covered(j, v, k, p);
    } else {
      hide Handled;
      assert forall p :: 0 <= p < |j.m| ==> Ahead(|j.m|, start, p) < dist;
    }
  }

  /** The pieces picked so far are behind on the walk. */
  ghost predicate Behind(n: int, start: int, dist: int, walked: set<int>) {
    forall p :: p in walked ==> 0 <= p < n && Ahead(n, start, p) < dist
  }

  /** Walks on to the next piece that can be picked and was not suggested, or, `done`, to
      the start of the walk. */
  method NextPiece(j: Job, k: Pick, start: int, piece0: int, ghost dist0: int, ghost v: map<int, Entry>)
    returns (piece: int, done: bool, ghost dist: int)
    requires |j.has| == |j.m| && AtStep(|j.m|, start, dist0, piece0) && HandledSoFar(j, v, k, start, dist0)
    ensures AtStep(|j.m|, start, dist, piece) && HandledSoFar(j, v, k, start, dist) && dist >= dist0
    ensures if done then dist > 0 && piece == start else j.CanPick(piece) && piece !in j.suggested
    ensures !done && dist0 < |j.m| ==> dist < |j.m|
  {
    piece, done, dist := piece0, false, dist0;
    hide Covered, HandledSoFar;
    while !j.CanPick(piece) || piece in j.suggested
      invariant AtStep(|j.m|, start, dist, piece) && HandledSoFar(j, v, k, start, dist) && dist >= dist0
      invariant dist0 < |j.m| ==> dist < |j.m|
      decreases |j.m| - Ahead(|j.m|, start, piece)
    {
      HandledMore(j, v, k, start, dist, piece, piece + 1);
      piece, dist := piece + 1, dist + 1;
      if piece == |j.m| { piece := 0; }
      if piece == start { done := true; return; }
    }
  }

  /** Takes a piece nobody has started, and with it those that go together with it. */
  method TakePiece(j: Job, piece: int, k0: Pick, ghost v: map<int, Entry>, ghost all: set<int>) returns (k: Pick, to: int)
    requires Fine(j, v) && 0 <= piece < |j.m| && |j.has| == |j.m| && j.CanPick(piece) && Tidy(j, v, k0, all) && k0.left > 0
    requires j.Once() ==> piece in all && Scanned(j, v, k0, piece, 0)
    ensures Tidy(j, v, k, all) && Grows(k0, k) && k.left < k0.left && k.near == k0.near && k.far == k0.far
    ensures NotBegun(v, k.free, |k0.free|) && (j.whole == 0 ==> OnlyPiece(k.free, |k0.free|, piece))
    ensures piece < to <= |j.m| && (j.whole <= 1 ==> to == piece + 1)
    ensures forall p :: piece <= p < to ==> Covered(j, v, k, p)
  {
    hide Fine, Tidy, Scanned, Covered, Grows;
    FreshBlocks(j, v, piece);
    var from;
    from, to := ExpandPiece(j, piece);
    if j.whole == 0 {
      var n := j.BlocksIn(piece);
      k := ListFresh(j, piece, if n > k0.left then k0.left else n, k0, v, all);
      FreshListed(j, v, k, piece);
    } else {
      k := ListRange(j, from, to, piece, k0, v, all);
    }
  }

  /** Starts at an arbitrary piece and walks around, taking pieces nobody has started. A
      walk that does not fill the request has offered all of them, but for those suggested. */
  method PickAnywhere(j: Job, k0: Pick, ghost v: map<int, Entry>, ghost seen: set<int>)
    returns (k: Pick, ghost all: set<int>)
    requires Fine(j, v) && |j.m| > 0 && Tidy(j, v, k0, seen) && k0.left > 0
    requires forall p :: 0 <= p < |j.m| && p in seen ==> p in j.suggested || !j.CanPick(p)
    ensures Tidy(j, v, k, all) && k.near == k0.near && k.far == k0.far && Grows(k0, k) && AllHandled(j, v, k)
    ensures Walked(j, v, k.free, |k0.free|)
  {
    FineSizes(j, v);
    hide *;
    GrowsRefl(k0);
    k, all := k0, seen;
    var start :| 0 <= start < |j.m|;
    var piece, done := start, false;
    ghost var walked, dist := {}, 0;
    WalkStart(j, v, k, start);
    NothingWalked(j, v, k.free);
    assert seen + walked == seen;
    while k.left > 0
      invariant AtStep(|j.m|, start, dist, piece) && HandledSoFar(j, v, k, start, dist)
      invariant all == seen + walked && Tidy(j, v, k, all) && k.near == k0.near && k.far == k0.far && Grows(k0, k)
      invariant Walked(j, v, k.free, |k0.free|)
      invariant j.Once() ==> dist < |j.m| && Behind(|j.m|, start, dist, walked)
      decreases k.left
    {
      ghost var at := dist;
      piece, done, dist := NextPiece(j, k, start, piece, dist, v);
      if done { break; }
      StepRange(|j.m|, start, dist, piece);
      ghost var before, passed := k, walked;
      all, walked := seen + walked + {piece}, walked + {piece};
      assert all == seen + walked;
      SeeMore(j, v, k, seen + passed, all);
      if j.Once() {
        BehindLater(|j.m|, start, at, dist, passed);
        NotBehind(|j.m|, start, dist, piece, passed);
        ScanStart(j, v, k, seen + passed, piece);
      }
      var to;
      k, to := TakePiece(j, piece, k, v, all);
      WalkedMore(j, v, k0, before, k, piece);
      GrowsTrans(k0, before, k);
      HandledGrows(j, v, before, k, start, dist);
      CoveredHandled(j, v, k, piece, to);
      HandledMore(j, v, k, start, dist, piece, to);
      if j.Once() {
        OnceIs(j);
        BehindMore(|j.m|, start, dist, piece, to, passed);
      }
      dist, piece := dist + to - piece, if to == |j.m| then 0 else to;
      if piece == start { break; }
    }
    WalkEnds(j, v, k, start, dist, piece);
  }

  lemma GrowsFree(k: Pick, k': Pick)
    requires Grows(k, k')
    ensures k.free <= k'.free
  {
  }

  /** What is listed from `from` on was not suggested. */
  ghost predicate Elsewhere(s: seq<PieceBlock>, from: int, suggested: seq<int>) {
    forall i :: 0 <= from <= i < |s| ==> s[i].piece !in suggested
  }

  /** What the walk lists belongs to pieces nobody has started, and unless whole pieces are preferred not to those suggested. */
  ghost predicate Walked(j: Job, v: map<int, Entry>, s: seq<PieceBlock>, from: int) {
    NotBegun(v, s, from) && (j.whole == 0 ==> Elsewhere(s, from, j.suggested))
  }

  lemma NothingWalked(j: Job, v: map<int, Entry>, s: seq<PieceBlock>)
    ensures Walked(j, v, s, |s|)
  {
  }

  lemma WalkedMore(j: Job, v: map<int, Entry>, k0: Pick, k: Pick, k': Pick, p: int)
    requires Grows(k0, k) && Grows(k, k') && Walked(j, v, k.free, |k0.free|) && NotBegun(v, k'.free, |k.free|)
    requires j.whole == 0 ==> OnlyPiece(k'.free, |k.free|, p) && p !in j.suggested
    ensures Walked(j, v, k'.free, |k0.free|)
  {
    forall i | 0 <= i < |k.free| ensures k'.free[i] == k.free[i] { }
  }

  lemma WalkedIs(j: Job, v: map<int, Entry>, s: seq<PieceBlock>, from: int)
    requires Walked(j, v, s, from)
    ensures NotBegun(v, s, from) && (j.whole == 0 ==> Elsewhere(s, from, j.suggested))
  {
  }

  lemma OnceIs(j: Job)
    ensures j.Once() ==> j.whole <= 1
  {
  }

  lemma WalkStart(j: Job, v: map<int, Entry>, k: Pick, start: int)
    requires 0 <= start < |j.m|
    ensures AtStep(|j.m|, start, 0, start) && HandledSoFar(j, v, k, start, 0) && Behind(|j.m|, start, 0, {})
  {
  }

  lemma FreshBlocks(j: Job, v: map<int, Entry>, p: int)
    requires Fine(j, v) && 0 <= p < |j.m|
    ensures |j.has| == |j.m| && j.BlocksIn(p) > 0
  {
  }

  lemma StepRange(n: int, start: int, dist: int, piece: int)
    requires AtStep(n, start, dist, piece)
    ensures 0 <= piece < n && 0 <= start < n && dist >= 0
  {
  }

  lemma CoveredHandled(j: Job, v: map<int, Entry>, k: Pick, from: int, to: int)
    requires 0 <= from <= to <= |j.m| == |j.has| && forall p :: from <= p < to ==> Covered(j, v, k, p)
    ensures forall p :: from <= p < to ==> Handled(j, v, k, p)
  {
    hide Covered;
  }

  lemma BehindLater(n: int, start: int, at: int, dist: int, walked: set<int>)
    requires Behind(n, start, at, walked) && at <= dist
    ensures Behind(n, start, dist, walked)
  {
  }

  lemma NotBehind(n: int, start: int, dist: int, piece: int, walked: set<int>)
    requires AtStep(n, start, dist, piece) && dist < n && Behind(n, start, dist, walked)
    ensures piece !in walked
  {
  }

  /** One piece further on; unless the walk is over it has not come around. */
  lemma BehindMore(n: int, start: int, dist: int, piece: int, to: int, walked: set<int>)
    requires AtStep(n, start, dist, piece) && dist < n && to == piece + 1 <= n && Behind(n, start, dist, walked)
    ensures Behind(n, start, dist + 1, walked + {piece}) && ((if to == n then 0 else to) != start ==> dist + 1 < n)
  {
  }

  // -------------------------------------------------------- the whole call

  /** A block another peer was asked for, of a wanted piece this peer has too. */
  ghost predicate Contended(j: Job, v: map<int, Entry>, x: PieceBlock) {
    && 0 <= x.piece < |j.m| && x.piece < |j.has| && j.has[x.piece] && j.m[x.piece].Open()
    && x.piece in v && 0 <= x.block < j.BlocksIn(x.piece) && x.block < |v[x.piece].blocks|
    && v[x.piece].blocks[x.block].state == Requested && v[x.piece].blocks[x.block].peer != j.peer
  }

  /** The contended blocks of one piece. */
  method ContendedIn(j: Job, d: DownloadingPiece, ghost v: map<int, Entry>) returns (temp: seq<PieceBlock>)
    requires Fine(j, v) && d in j.dl && 0 <= d.index < |j.m| == |j.has| && j.has[d.index] && !j.m[d.index].Filtered()
    ensures forall x :: x in temp <==> x.piece == d.index && Contended(j, v, x)
  {
    EntryFits(j, v, d);
    var blocks := j.info[d.info - j.base..d.info - j.base + j.bpp];
    BlocksOf(j, v, d, blocks);
    hide *;
    temp := [];
    for b := 0 to j.BlocksIn(d.index)
      invariant forall x :: x in temp <==> x.piece == d.index && Contended(j, v, x) && x.block < b
    {
      ContendedIs(j, v, PieceBlock(d.index, b));
      if blocks[b].state == Requested && blocks[b].peer != j.peer {
        temp := temp + [PieceBlock(d.index, b)];
      }
      forall x ensures x in temp <==> x.piece == d.index && Contended(j, v, x) && x.block < b + 1 {
        assert x.piece == d.index && x.block == b ==> x == PieceBlock(d.index, b);
      }
    }
    forall x ensures Contended(j, v, x) && x.piece == d.index ==> x.block < j.BlocksIn(d.index) { ContendedIs(j, v, x); }
  }

  lemma BlocksOf(j: Job, v: map<int, Entry>, d: DownloadingPiece, blocks: seq<BlockInfo>)
    requires Fine(j, v) && d in j.dl && 0 <= d.index < |j.m| == |j.has| && j.has[d.index] && !j.m[d.index].Filtered()
    requires Fits(d, |j.info|, j.base, j.bpp) && blocks == j.info[d.info - j.base..d.info - j.base + j.bpp]
    ensures d.index in v && v[d.index].blocks == blocks && j.m[d.index].Open() && 0 <= j.BlocksIn(d.index) <= |blocks|
  {
    var at :| 0 <= at < |j.dl| && j.dl[at] == d;
    assert Shows(j.dl[at], j.info, j.base, j.bpp, v);
    InStepAt(j.m, v, j.bpp, j.last, d.index);
  }

  lemma ContendedIs(j: Job, v: map<int, Entry>, x: PieceBlock)
    ensures Contended(j, v, x) <==>
              && 0 <= x.piece < |j.m| && x.piece < |j.has| && j.has[x.piece] && j.m[x.piece].Open()
              && x.piece in v && 0 <= x.block < j.BlocksIn(x.piece) && x.block < |v[x.piece].blocks|
              && v[x.piece].blocks[x.block].state == Requested && v[x.piece].blocks[x.block].peer != j.peer
  {
  }

  /** Where the queue has no contended block, there is none. */
  ghost predicate NoneContended(j: Job, v: map<int, Entry>, i: int) {
    forall x: PieceBlock, a :: 0 <= a < i && a < |j.dl| && x.piece == j.dl[a].index ==> !Contended(j, v, x)
  }

  lemma NoneAtAll(j: Job, v: map<int, Entry>)
    requires Fine(j, v) && NoneContended(j, v, |j.dl|)
    ensures forall x :: !Contended(j, v, x)
  {
    forall x ensures !Contended(j, v, x) {
      if x.piece in v { assert Queued(j.dl, x.piece); }
    }
  }

  /** An arbitrary contended block of the first queued piece that has one. */
  method PickBusy(j: Job, ghost v: map<int, Entry>) returns (busy: seq<PieceBlock>)
    requires Fine(j, v)
    ensures |busy| <= 1 && forall x :: x in busy ==> Contended(j, v, x)
    ensures busy == [] ==> forall x :: !Contended(j, v, x)
  {
    FineSizes(j, v);
    hide Fine, Contended;
    for i := 0 to |j.dl|
      invariant NoneContended(j, v, i)
    {
      PartialNew(j, v, i);
      if j.has[j.dl[i].index] && !j.m[j.dl[i].index].Filtered() {
        var temp := ContendedIn(j, j.dl[i], v);
        if temp != [] {
          var c :| 0 <= c < |temp|;
          assert temp[c] in temp;
          return [temp[c]];
        }
      }
      forall x: PieceBlock | x.piece == j.dl[i].index ensures !Contended(j, v, x) { ContendedIs(j, v, x); }
    }
    busy := [];
    NoneAtAll(j, v);
  }

  /** The pieces a call offers before it gives up: a sequential one all wanted pieces, a
      rarest-first one those that are listed, any other those nobody has started; and all
      of them those suggested, and those in progress if partial pieces are preferred. */
  ghost predicate Reached(j: Job, v: map<int, Entry>, prio: seq<int>, p: int)
    requires |prio| == |j.m| == |j.has|
  {
    && 0 <= p < |j.m| && j.PieceFree(p)
    && (|| p in j.suggested || (j.opts.partials && p in v)
        || (if j.opts.sequential then true else if j.opts.rarestFirst then prio[p] >= 0 else !j.m[p].downloading))
  }

  /** Every pickable block of the pieces offered is in `s`. */
  ghost predicate Complete(j: Job, v: map<int, Entry>, prio: seq<int>, s: seq<PieceBlock>)
    requires |prio| == |j.m| == |j.has|
  {
    forall x :: Pickable(j, v, x) && Reached(j, v, prio, x.piece) ==> x in s
  }

  /** What is known once the first two passes are over. */
  ghost predicate Warm(j: Job, v: map<int, Entry>, k: Pick, seen: set<int>) {
    && Tidy(j, v, k, seen) && |j.has| == |j.m| && Valids(j, j.suggested)
    && (forall p :: p in seen ==> (j.opts.partials && p in v) || p in j.suggested)
    && (k.left > 0 && j.opts.partials ==> CoversAll(j, v, k, Partial(j, |j.dl|)))
    && (k.left > 0 ==> CoversAll(j, v, k, Offered(j, v, j.suggested, [])))
    && (!j.opts.partials && j.suggested == [] ==> k == Pick([], [], [], j.wanted))
    && WarmStages(j, v, k)
  }

  /** What is known of the order once the first two passes are over. */
  ghost predicate WarmStages(j: Job, v: map<int, Entry>, k: Pick) {
    && (if j.opts.partials then PartialStage(j, v, k.free) && (k.left > 0 ==> PartialsListed(j, v, k.free)) else Level(j, v, k.free, 0))
    && (j.whole == 0 ==> OnlySuggested(j, v, k.free))
    && (k.left > 0 && (j.opts.partials || (j.whole == 0 && !j.opts.affinity)) ==> k.near == [] && k.far == [])
  }

  /** Partial pieces come first, the better choices of them before others; none that
      is better is left out, and while one is left out there is nothing else. */
  ghost predicate PartialStage(j: Job, v: map<int, Entry>, s: seq<PieceBlock>) {
    && (forall a, b :: 0 <= a < b < |s| && s[b].piece in v ==> s[a].piece in v && Grade(j, v, s[a].piece) <= Grade(j, v, s[b].piece))
    && forall x, a :: Pickable(j, v, x) && x.piece in Partial(j, |j.dl|) && x !in s && 0 <= a < |s| ==>
         s[a].piece in v && Grade(j, v, s[a].piece) <= Grade(j, v, x.piece)
  }

  ghost predicate PartialsListed(j: Job, v: map<int, Entry>, s: seq<PieceBlock>) {
    forall x :: Pickable(j, v, x) && x.piece in Partial(j, |j.dl|) ==> x in s
  }

  ghost predicate OnlySuggested(j: Job, v: map<int, Entry>, s: seq<PieceBlock>) {
    forall i :: 0 <= i < |s| ==> s[i].piece in j.suggested || (j.opts.partials && s[i].piece in v)
  }

  lemma StageStart(j: Job, v: map<int, Entry>, s: seq<PieceBlock>)
    requires Begun(v, s) && ByGrade(j, v, s) && BetterTaken(j, v, s, Partial(j, |j.dl|))
    ensures PartialStage(j, v, s) && (j.opts.partials ==> OnlySuggested(j, v, s))
  {
    hide Grade, Pickable, Partial;
  }

  lemma StageMore(j: Job, v: map<int, Entry>, s: seq<PieceBlock>, t: seq<PieceBlock>)
    requires PartialStage(j, v, s) && PartialsListed(j, v, s) && s <= t && NotBegun(v, t, |s|)
    ensures PartialStage(j, v, t) && PartialsListed(j, v, t)
  {
    hide Grade, Pickable, Partial;
    forall i | 0 <= i < |s| ensures t[i] == s[i] { }
    assert forall x :: x in s ==> x in t;
  }

  lemma SuggestedMore(j: Job, v: map<int, Entry>, s: seq<PieceBlock>, t: seq<PieceBlock>)
    requires OnlySuggested(j, v, s) && s <= t && Drawn(t, |s|, j.suggested, [])
    ensures OnlySuggested(j, v, t)
  {
    forall i | 0 <= i < |t| ensures t[i].piece in j.suggested || (j.opts.partials && t[i].piece in v) { assert i < |s| ==> t[i] == s[i]; }
  }

  lemma AllPartialsTaken(j: Job, v: map<int, Entry>, k: Pick)
    requires CoversAll(j, v, k, Partial(j, |j.dl|)) && k.left > 0 && k.near == [] && k.far == []
    ensures PartialsListed(j, v, k.free)
  {
    hide Pickable, Partial, CoversAll;
    forall x | Pickable(j, v, x) && x.piece in Partial(j, |j.dl|) ensures x in k.free { AllTaken(j, v, k, Partial(j, |j.dl|), x); }
  }

  lemma PartialQueued(j: Job, v: map<int, Entry>)
    requires Fine(j, v)
    ensures forall p :: p in Partial(j, |j.dl|) ==> p in v
  {
    forall a | 0 <= a < |j.dl| ensures j.dl[a].index in v { PartialNew(j, v, a); }
  }

  lemma StartTidy(j: Job, v: map<int, Entry>)
    requires j.wanted > 0
    ensures Tidy(j, v, Pick([], [], [], j.wanted), {})
  {
  }

  /** Partial pieces first, when preferred, then the pieces the peer suggests. */
  method WarmUp(j: Job, ghost v: map<int, Entry>) returns (k: Pick, ghost seen: set<int>)
    requires Fine(j, v) && j.wanted > 0 && Valids(j, j.suggested)
    ensures Warm(j, v, k, seen)
  {
    k, seen := Pick([], [], [], j.wanted), {};
    StartTidy(j, v);
    PartialQueued(j, v);
    FineSizes(j, v);
    StagesStart(j, v);
    hide Fine, Tidy, Covered, CoversAll, Grade, Level, NotBegun, Begun, ByGrade, BetterTaken, PartialStage, PartialsListed, OnlySuggested, Drawn, Pickable, Partial;
    if j.opts.partials {
      k := PickPartials(j, k, v);
      seen := Partial(j, |j.dl|);
      StageStart(j, v, k.free);
      if k.left <= 0 { return; }
      AllPartialsTaken(j, v, k);
    }
    NothingOffered(j, v, k);
    if j.suggested != [] {
      ghost var before := k;
      k := Visit(j, j.suggested, [], k, v, seen, seq(|j.m|, _ => 0));
      seen := seen + Members(j.suggested);
      if j.opts.partials {
        CoversGrow(j, v, before, k, Partial(j, |j.dl|));
        StageMore(j, v, before.free, k.free);
      } else {
        LevelMore(j, v, before.free, k.free, 0);
      }
      if j.whole == 0 { SuggestedMore(j, v, before.free, k.free); }
    }
  }

  lemma StagesStart(j: Job, v: map<int, Entry>)
    ensures Level(j, v, [], 0) && OnlySuggested(j, v, [])
  {
  }

  lemma NothingOffered(j: Job, v: map<int, Entry>, k: Pick)
    requires |j.has| == |j.m|
    ensures CoversAll(j, v, k, Offered(j, v, [], []))
  {
  }

  /** The order in which an ordered pass looks at pieces. */
  method Preference(j: Job, list: seq<int>, bounds: seq<int>, cursor: int, reverse: int, ghost prio: seq<int>) returns (order: seq<int>)
    requires 0 <= cursor <= |j.m| && 0 <= reverse <= |j.m| && |prio| == |j.m|
    requires j.opts.sequential || j.opts.rarestFirst
    requires !j.opts.sequential ==> Layout(list, bounds, Indexes(j.m), prio) && (j.opts.reverse ==> |bounds| % PRIO_FACTOR == 0)
    ensures Valids(j, order) && Distinct(order) && Ordered(order, PassKey(j, prio))
    ensures j.opts.sequential ==> forall p :: cursor <= p < reverse ==> p in order
    ensures !j.opts.sequential ==> forall p :: 0 <= p < |prio| ==> (prio[p] >= 0 <==> p in order)
  {
    hide Layout, Ordered, Mirrored;
    if j.opts.sequential {
      order := if j.opts.reverse then Downward(cursor, reverse) else Upward(cursor, reverse);
      forall p | cursor <= p < reverse ensures p in order {
        assert order[if j.opts.reverse then reverse - 1 - p else p - cursor] == p;
      }
      SequentialOrder(j, order, cursor, reverse, prio);
    } else {
      ListDistinct(list, bounds, Indexes(j.m), prio);
      AllInList(list, bounds, Indexes(j.m), prio);
      ListedOpen(list, bounds, Indexes(j.m), prio);
      if j.opts.reverse {
        order := ReverseOrder(list, bounds, Indexes(j.m), prio);
        forall i | 0 <= i < |order| ensures 0 <= order[i] < |j.m| { assert order[i] in Members(order); }
        forall p ensures p in list <==> p in order {
          assert p in list <==> p in Members(list);
          assert p in order <==> p in Members(order);
        }
        DescendsOrdered(j, order, prio);
      } else {
        order := list;
        ForwardOrdered(j, order, prio);
      }
    }
  }

  lemma SequentialOrder(j: Job, order: seq<int>, from: int, to: int, prio: seq<int>)
    requires j.opts.sequential && order == if j.opts.reverse then Downward(from, to) else Upward(from, to)
    ensures Ordered(order, PassKey(j, prio))
  {
  }

  lemma DescendsOrdered(j: Job, order: seq<int>, prio: seq<int>)
    requires !j.opts.sequential && j.opts.reverse && Descends(order, prio)
    ensures Ordered(order, PassKey(j, prio))
  {
    hide Mirrored;
  }

  lemma ForwardOrdered(j: Job, order: seq<int>, prio: seq<int>)
    requires !j.opts.sequential && !j.opts.reverse && Ordered(order, prio)
    ensures Ordered(order, PassKey(j, prio))
  {
    assert PassKey(j, prio) == prio;
  }

  lemma AllInList(list: seq<int>, bounds: seq<int>, idx: seq<int>, prio: seq<int>)
    requires Layout(list, bounds, idx, prio)
    ensures forall p :: 0 <= p < |prio| && prio[p] >= 0 ==> p in list
  {
    forall p | 0 <= p < |prio| && prio[p] >= 0 ensures p in list { assert Placed(list, bounds, idx, prio, p); }
  }

  /** Every piece reached and allowed is covered. */
  ghost predicate CoversReached(j: Job, v: map<int, Entry>, prio: seq<int>, k: Pick)
    requires |prio| == |j.m| == |j.has|
  {
    forall p :: Reached(j, v, prio, p) && Allowed(j, v, p) ==> Covered(j, v, k, p)
  }

  /** The pieces of the first two passes. */
  lemma WarmCovers(j: Job, v: map<int, Entry>, k: Pick, p: int)
    requires Fine(j, v) && Valids(j, j.suggested) && 0 <= p < |j.m| && j.PieceFree(p) && Allowed(j, v, p)
    requires CoversAll(j, v, k, Offered(j, v, j.suggested, [])) && (j.opts.partials ==> CoversAll(j, v, k, Partial(j, |j.dl|)))
    requires p in j.suggested || (j.opts.partials && p in v)
    ensures Covered(j, v, k, p)
  {
    if j.opts.partials && p in v {
      PartialIsAll(j, v, p);
    } else {
      assert p in Offered(j, v, j.suggested, []);
    }
  }

  /** An ordered pass offers what is left. */
  lemma PassCovers(j: Job, v: map<int, Entry>, prio: seq<int>, order: seq<int>, k: Pick, cursor: int, reverse: int)
    requires Fine(j, v) && |prio| == |j.m| && Valids(j, j.suggested) && Valids(j, order) && CursorsAt(j.m, cursor, reverse)
    requires CoversAll(j, v, k, Offered(j, v, j.suggested, [])) && (j.opts.partials ==> CoversAll(j, v, k, Partial(j, |j.dl|)))
    requires CoversAll(j, v, k, Offered(j, v, order, j.suggested)) && (j.opts.sequential || j.opts.rarestFirst)
    requires j.opts.sequential ==> forall p :: cursor <= p < reverse ==> p in order
    requires !j.opts.sequential ==> forall p :: 0 <= p < |prio| && prio[p] >= 0 ==> p in order
    ensures |j.has| == |j.m| && CoversReached(j, v, prio, k)
  {
    FineSizes(j, v);
    Window(j.m, cursor, reverse);
    hide Fine, Covered, CursorsAt, Partial, Allowed;
    forall p | Reached(j, v, prio, p) && Allowed(j, v, p) ensures Covered(j, v, k, p) {
      if p in j.suggested || (j.opts.partials && p in v) {
        WarmCovers(j, v, k, p);
      } else {
        assert p in Offered(j, v, order, j.suggested);
      }
    }
  }

  /** So does the unordered one. */
  lemma WalkCovers(j: Job, v: map<int, Entry>, prio: seq<int>, k: Pick)
    requires Fine(j, v) && |prio| == |j.m| && Valids(j, j.suggested) && !j.opts.sequential && !j.opts.rarestFirst
    requires CoversAll(j, v, k, Offered(j, v, j.suggested, [])) && (j.opts.partials ==> CoversAll(j, v, k, Partial(j, |j.dl|)))
    requires AllHandled(j, v, k)
    ensures |j.has| == |j.m| && CoversReached(j, v, prio, k)
  {
    FineSizes(j, v);
    hide Fine, Covered, Partial, Allowed, CoversAll;
    forall p | Reached(j, v, prio, p) && Allowed(j, v, p) ensures Covered(j, v, k, p) {
      if p in j.suggested || (j.opts.partials && p in v) {
        WarmCovers(j, v, k, p);
      } else {
        assert Handled(j, v, k, p);
      }
    }
  }

  lemma CoveredIsComplete(j: Job, v: map<int, Entry>, prio: seq<int>, k: Pick)
    requires |prio| == |j.m| == |j.has| && k.near == [] && k.far == [] && k.left > 0 && CoversReached(j, v, prio, k)
    ensures Complete(j, v, prio, k.free)
  {
    forall x | Pickable(j, v, x) && Reached(j, v, prio, x.piece) ensures x in k.free {
      assert Covered(j, v, k, x.piece);
      assert PieceBlock(x.piece, x.block) in Content(k);
    }
  }

  lemma TidyResult(j: Job, v: map<int, Entry>, k: Pick, seen: set<int>)
    requires Tidy(j, v, k, seen)
    ensures AllPickable(j, v, k.free)
    ensures k.left <= 0 ==> |k.free| >= j.wanted
    ensures k.left > 0 || j.whole == 0 ==> 0 <= k.left && |k.free| + k.left == j.wanted
    ensures j.Once() ==> forall x :: multiset(k.free)[x] <= 1
  {
    forall x | j.Once() ensures multiset(k.free)[x] <= 1 { assert Content(k)[x] <= 1; }
  }

  /** What the caller gets: `free`, followed by at most one contended block.
      All of `free` is pickable. A call that stays short has listed every pickable block of
      the pieces it offers; off parole it then adds a contended block, if there is any, and
      otherwise it adds none. Unless whole pieces are preferred the request is not exceeded;
      no block is repeated if the suggestions are not and no two pieces are picked together;
      and an ordered call with nothing else to prefer lists pieces in the order of its pass. */
  ghost predicate Answers(j: Job, v: map<int, Entry>, prio: seq<int>, free: seq<PieceBlock>, busy: seq<PieceBlock>)
    requires |prio| == |j.m| == |j.has|
  {
    && AllPickable(j, v, free)
    && |busy| <= 1 && (forall x :: x in busy ==> Contended(j, v, x))
    && (|free| < j.wanted ==> Complete(j, v, prio, free))
    && (busy != [] ==> !j.opts.onParole && |free| < j.wanted)
    && (busy == [] && !j.opts.onParole && |free| < j.wanted ==> forall x :: !Contended(j, v, x))
    && (j.whole == 0 ==> |free| + |busy| <= j.wanted)
    && (j.Once() ==> forall x :: multiset(free)[x] <= 1)
    && (j.Plain() ==> PlainAnswer(j, v, prio, free))
    && Preferred(j, v, prio, free)
  }

  /** What comes first: when partial pieces are preferred these, and of these, or else of
      all, the better choices; and among the rest what the peer suggests, unless blocks
      are held back as a second choice or whole pieces are preferred. */
  ghost predicate Preferred(j: Job, v: map<int, Entry>, prio: seq<int>, free: seq<PieceBlock>)
    requires |prio| == |j.m| == |j.has|
  {
    && (if j.opts.partials then PartialStage(j, v, free) else ByGrade(j, v, free) && BetterTaken(j, v, free, ReachedPieces(j, v, prio)))
    && (j.whole == 0 && !j.opts.affinity ==> SuggestedFirst(j, v, free))
  }

  ghost predicate SuggestedFirst(j: Job, v: map<int, Entry>, s: seq<PieceBlock>) {
    forall a, b :: 0 <= a < b < |s| && s[b].piece in j.suggested ==> s[a].piece in j.suggested || (j.opts.partials && s[a].piece in v)
  }

  ghost function ReachedPieces(j: Job, v: map<int, Entry>, prio: seq<int>): (r: set<int>)
    requires |prio| == |j.m| == |j.has|
  {
    set p | 0 <= p < |j.m| && Reached(j, v, prio, p)
  }

  lemma OnlyThenOther(j: Job, v: map<int, Entry>, s: seq<PieceBlock>, t: seq<PieceBlock>)
    requires OnlySuggested(j, v, s) && s <= t && Elsewhere(t, |s|, j.suggested)
    ensures SuggestedFirst(j, v, t)
  {
    forall a, b | 0 <= a < b < |t| && t[b].piece in j.suggested ensures t[a].piece in j.suggested || (j.opts.partials && t[a].piece in v) {
      assert b < |s| && t[a] == s[a];
    }
  }

  lemma WarmPreferred(j: Job, v: map<int, Entry>, prio: seq<int>, k: Pick)
    requires |prio| == |j.m| == |j.has| && WarmStages(j, v, k)
    ensures Preferred(j, v, prio, k.free)
  {
    hide PartialStage, ByGrade, BetterTaken, Level, PartialsListed;
    if !j.opts.partials { LevelByGrade(j, v, k.free, ReachedPieces(j, v, prio)); }
    if j.whole == 0 { OnlyThenOther(j, v, k.free, k.free); }
  }

  /** What holds after the last pass, before second choices are appended. */
  ghost predicate PassStages(j: Job, v: map<int, Entry>, k: Pick) {
    && (if j.opts.partials then PartialStage(j, v, k.free) else Level(j, v, k.free, 0))
    && (j.whole == 0 ==> SuggestedFirst(j, v, k.free))
    && (j.opts.partials || (j.whole == 0 && !j.opts.affinity) ==> k.near == [] && k.far == [])
  }

  lemma PassPreferred(j: Job, v: map<int, Entry>, k: Pick, k': Pick)
    requires WarmStages(j, v, k) && k.left > 0 && k.free <= k'.free && Level(j, v, k'.free, |k.free|)
    requires j.whole == 0 ==> Elsewhere(k'.free, |k.free|, j.suggested)
    requires j.opts.partials ==> NotBegun(v, k'.free, |k.free|) && k'.near == k.near && k'.far == k.far
    requires j.whole == 0 && !j.opts.affinity ==> k'.near == k.near && k'.far == k.far
    ensures PassStages(j, v, k')
  {
    hide PartialStage, Level, PartialsListed, OnlySuggested, SuggestedFirst, NotBegun, Elsewhere;
    if j.opts.partials { StageMore(j, v, k.free, k'.free); } else { LevelMore(j, v, k.free, k'.free, 0); }
    if j.whole == 0 { OnlyThenOther(j, v, k.free, k'.free); }
  }

  lemma StagesPreferred(j: Job, v: map<int, Entry>, prio: seq<int>, k: Pick)
    requires |prio| == |j.m| == |j.has| && PassStages(j, v, k)
    ensures Preferred(j, v, prio, k.free)
  {
    hide PartialStage, ByGrade, BetterTaken, Level, SuggestedFirst;
    if !j.opts.partials { LevelByGrade(j, v, k.free, ReachedPieces(j, v, prio)); }
  }

  /** So do second choices, appended in turn. */
  lemma TurnPreferred(j: Job, v: map<int, Entry>, prio: seq<int>, k: Pick, seen: set<int>)
    requires |prio| == |j.m| == |j.has| && PassStages(j, v, k) && Tidy(j, v, k, seen) && k.left > 0 && CoversReached(j, v, prio, k)
    ensures Preferred(j, v, prio, InTurn(k))
  {
    TidyGrades(j, v, k, seen);
    hide PartialStage, ByGrade, BetterTaken, Level, SuggestedFirst, Tidy, AllGrade, Reached, Covered, Allowed;
    if k.near == [] && k.far == [] { assert InTurn(k) == k.free; }
    if !j.opts.partials { InTurnByGrade(j, v, k, ReachedPieces(j, v, prio)); }
  }

  /** In the order of the pass, and with nothing left out that comes before something taken. */
  ghost predicate PlainAnswer(j: Job, v: map<int, Entry>, prio: seq<int>, free: seq<PieceBlock>)
    requires |prio| == |j.m| == |j.has|
  {
    && OrderedBlocks(free, PassKey(j, prio)) && (!j.opts.sequential ==> AllListed(free, prio))
    && forall x, a :: Pickable(j, v, x) && Reached(j, v, prio, x.piece) && x !in free && 0 <= a < |free| && 0 <= free[a].piece < |prio| ==>
         PassKey(j, prio)[free[a].piece] <= PassKey(j, prio)[x.piece]
  }

  ghost predicate AllListed(s: seq<PieceBlock>, prio: seq<int>) {
    forall a :: 0 <= a < |s| && 0 <= s[a].piece < |prio| ==> prio[s[a].piece] >= 0
  }

  method Choose(j: Job, list: seq<int>, bounds: seq<int>, cursor: int, reverse: int, ghost v: map<int, Entry>, ghost prio: seq<int>)
    returns (free: seq<PieceBlock>, busy: seq<PieceBlock>)
    requires Fine(j, v) && |j.m| > 0 && j.wanted > 0 && Valids(j, j.suggested) && |prio| == |j.m|
    requires !(j.opts.sequential && j.opts.rarestFirst) && CursorsAt(j.m, cursor, reverse)
    requires j.opts.rarestFirst ==> Layout(list, bounds, Indexes(j.m), prio) && (j.opts.reverse ==> |bounds| % PRIO_FACTOR == 0)
    ensures |j.has| == |j.m| && Answers(j, v, prio, free, busy)
  {
    hide *;
    FineSizes(j, v);
    var k: Pick;
    ghost var seen: set<int>;
    k, seen := WarmUp(j, v);
    WarmIs(j, v, k, seen);
    PlainIs(j);
    TidyResult(j, v, k, seen);
    if k.left <= 0 {
      WarmPreferred(j, v, prio, k);
      Filled(j, v, prio, k.free, j.opts.partials || j.suggested != []);
      return k.free, [];
    }
    ghost var before := k;
    if j.opts.sequential || j.opts.rarestFirst {
      CursorRange(j.m, cursor, reverse);
      var order := Preference(j, list, bounds, cursor, reverse, prio);
      NewOnly(j, v, order, seen);
      k := Visit(j, order, j.suggested, k, v, seen, PassKey(j, prio));
      if j.Plain() { PlainPass(j, v, prio, order, k.free, cursor, reverse); }
      seen := seen + Members(order);
      WarmGrows(j, v, before, k);
      PassCovers(j, v, prio, order, k, cursor, reverse);
      if j.whole == 0 { DrawnElsewhere(k.free, |before.free|, order, j.suggested); }
    } else {
      SeenElsewhere(j, v, seen);
      k, seen := PickAnywhere(j, k, v, seen);
      WarmGrows(j, v, before, k);
      WalkCovers(j, v, prio, k);
      WalkedIs(j, v, k.free, |before.free|);
      NotBegunLevel(j, v, k.free, |before.free|);
    }
    TidyResult(j, v, k, seen);
    GrowsFree(before, k);
    PassPreferred(j, v, before, k);
    if k.left <= 0 {
      StagesPreferred(j, v, prio, k);
      Filled(j, v, prio, k.free, false);
      return k.free, [];
    }
    before := k;
    TurnPreferred(j, v, prio, k, seen);
    k := AppendBlocks(j, k, v, seen);
    TidyResult(j, v, k, seen);
    if k.left <= 0 {
      Filled(j, v, prio, k.free, false);
      return k.free, [];
    }
    StillCovers(j, v, prio, before, k);
    CoveredIsComplete(j, v, prio, k);
    free, busy := k.free, [];
    if !j.opts.onParole { busy := PickBusy(j, v); }
    Short(j, v, prio, free, busy);
  }

  lemma DrawnElsewhere(s: seq<PieceBlock>, from: int, order: seq<int>, ignore: seq<int>)
    requires Drawn(s, from, order, ignore)
    ensures Elsewhere(s, from, ignore)
  {
  }

  lemma PlainIs(j: Job)
    ensures j.Plain() <==> (j.opts.sequential || j.opts.rarestFirst) && !j.opts.partials && !j.opts.affinity && j.suggested == [] && j.whole == 0
  {
  }

  lemma PlainPass(j: Job, v: map<int, Entry>, prio: seq<int>, order: seq<int>, s: seq<PieceBlock>, cursor: int, reverse: int)
    requires |prio| == |j.m| == |j.has| && Valids(j, order) && CursorsAt(j.m, cursor, reverse) && j.Plain()
    requires j.opts.sequential ==> forall p :: cursor <= p < reverse ==> p in order
    requires !j.opts.sequential ==> forall p :: 0 <= p < |prio| ==> (prio[p] >= 0 <==> p in order)
    requires OrderedBlocks(s, PassKey(j, prio)) && FromFirst(s, order, |order|)
    requires TakenFirst(j, v, s, Offered(j, v, order, j.suggested), PassKey(j, prio))
    ensures PlainAnswer(j, v, prio, s)
  {
    PlainIs(j);
    Window(j.m, cursor, reverse);
    assert order[..|order|] == order;
    hide OrderedBlocks, PassKey, Pickable, CursorsAt;
    var offered := Offered(j, v, order, j.suggested);
    forall x | Reached(j, v, prio, x) ensures x in offered { }
  }

  lemma WarmIs(j: Job, v: map<int, Entry>, k: Pick, seen: set<int>)
    requires Warm(j, v, k, seen)
    ensures Tidy(j, v, k, seen) && |j.has| == |j.m| && Valids(j, j.suggested)
    ensures forall p :: p in seen ==> (j.opts.partials && p in v) || p in j.suggested
    ensures k.left > 0 && j.opts.partials ==> CoversAll(j, v, k, Partial(j, |j.dl|))
    ensures k.left > 0 ==> CoversAll(j, v, k, Offered(j, v, j.suggested, []))
    ensures !j.opts.partials && j.suggested == [] ==> k == Pick([], [], [], j.wanted)
    ensures WarmStages(j, v, k)
  {
    hide Tidy, CoversAll, Offered, Partial, WarmStages;
  }

  lemma NewOnly(j: Job, v: map<int, Entry>, order: seq<int>, seen: set<int>)
    requires forall p :: p in seen ==> (j.opts.partials && p in v) || p in j.suggested
    ensures forall p :: p in order && !Skipped(j, v, j.suggested, p) ==> p !in seen
  {
  }

  /** An answer that fills the request; nothing is said of its order when `mixed`. */
  lemma Filled(j: Job, v: map<int, Entry>, prio: seq<int>, free: seq<PieceBlock>, mixed: bool)
    requires |prio| == |j.m| == |j.has| && AllPickable(j, v, free) && |free| >= j.wanted && (j.whole == 0 ==> |free| == j.wanted)
    requires j.Once() ==> forall x :: multiset(free)[x] <= 1
    requires mixed ==> j.opts.partials || j.suggested != []
    requires !mixed && j.Plain() ==> PlainAnswer(j, v, prio, free)
    requires Preferred(j, v, prio, free)
    ensures Answers(j, v, prio, free, [])
  {
    hide AllPickable, PlainAnswer, Contended, Complete, Preferred;
  }

  lemma Short(j: Job, v: map<int, Entry>, prio: seq<int>, free: seq<PieceBlock>, busy: seq<PieceBlock>)
    requires |prio| == |j.m| == |j.has| && AllPickable(j, v, free) && |free| < j.wanted && Complete(j, v, prio, free)
    requires j.Once() ==> forall x :: multiset(free)[x] <= 1
    requires j.Plain() ==> PlainAnswer(j, v, prio, free)
    requires |busy| <= 1 && (forall x :: x in busy ==> Contended(j, v, x))
    requires if j.opts.onParole then busy == [] else busy == [] ==> forall x :: !Contended(j, v, x)
    requires Preferred(j, v, prio, free)
    ensures Answers(j, v, prio, free, busy)
  {
    hide AllPickable, PlainAnswer, Contended, Complete, Preferred;
  }

  lemma WarmGrows(j: Job, v: map<int, Entry>, k: Pick, k': Pick)
    requires Grows(k, k') && |j.has| == |j.m| && Valids(j, j.suggested)
    requires CoversAll(j, v, k, Offered(j, v, j.suggested, [])) && (j.opts.partials ==> CoversAll(j, v, k, Partial(j, |j.dl|)))
    ensures CoversAll(j, v, k', Offered(j, v, j.suggested, [])) && (j.opts.partials ==> CoversAll(j, v, k', Partial(j, |j.dl|)))
  {
    hide CoversAll, Grows;
    CoversGrow(j, v, k, k', Offered(j, v, j.suggested, []));
    if j.opts.partials { CoversGrow(j, v, k, k', Partial(j, |j.dl|)); }
  }

  lemma StillCovers(j: Job, v: map<int, Entry>, prio: seq<int>, k: Pick, k': Pick)
    requires |prio| == |j.m| == |j.has| && CoversReached(j, v, prio, k) && forall p :: Covered(j, v, k, p) ==> Covered(j, v, k', p)
    ensures CoversReached(j, v, prio, k')
  {
    hide Covered;
  }

  lemma CursorRange(m: PieceMap, cursor: int, reverse: int)
    requires CursorsAt(m, cursor, reverse)
    ensures 0 <= cursor <= |m| && 0 <= reverse <= |m|
  {
  }

  lemma SeenElsewhere(j: Job, v: map<int, Entry>, seen: set<int>)
    requires Fine(j, v) && forall p :: p in seen ==> (j.opts.partials && p in v) || p in j.suggested
    ensures |j.has| == |j.m|
    ensures forall p :: 0 <= p < |j.m| && p in seen ==> p in j.suggested || !j.CanPick(p)
  {
    forall p | 0 <= p < |j.m| ensures p in v ==> j.m[p].downloading { InStepAt(j.m, v, j.bpp, j.last, p); }
  }

  /** The job as `pick_pieces` sets it up: a long queue makes partial pieces
      preferred, and whole pieces can be overruled. */
  ghost function JobOf(p: PiecePicker, has: seq<bool>, wanted: int, preferWhole: nat, peer: nat, speed: Speed,
                       opts: Options, suggested: seq<int>): Job
    reads p
  {
    Job(p.pieceMap, p.downloads, p.blockInfo, p.base, p.blocksPerPiece, p.blocksInLastPiece, has,
        if opts.ignoreWhole then 0 else preferWhole, peer, speed,
        opts.(partials := opts.partials || |p.downloads| > 20), wanted, suggested)
  }

  /** Where the blocks of two pieces stand in this order in a rarest-first answer. Alike but
      for their peers, the first has no more of them (or, with a user priority of 4 to 6, no
      more in halves; 7 disregards them); with the same peers and not in progress it is
      wanted no less; in progress comes first unless it is less rare; and nothing with more
      than one peer stands before a piece of the highest user priority. */
  ghost predicate RarestFirst(x: PiecePos, y: PiecePos) {
    && (x.downloading == y.downloading && x.piecePriority == y.piecePriority ==>
          && (x.piecePriority <= 3 ==> x.peerCount <= y.peerCount)
          && (4 <= x.piecePriority < 7 ==> x.peerCount / 2 <= y.peerCount / 2))
    && (!x.downloading && !y.downloading && x.peerCount == y.peerCount > 0 && y.piecePriority < 7 ==> x.piecePriority >= y.piecePriority)
    && (!x.downloading && y.downloading && x.piecePriority == y.piecePriority ==> x.peerCount < y.peerCount && x.piecePriority < 7)
    && (!x.downloading && !y.downloading && y.piecePriority == 7 > x.piecePriority ==> x.peerCount <= 1)
  }

  /** The same in reverse: more peers first, but what is as common in the same order as ever. */
  ghost predicate CommonestFirst(x: PiecePos, y: PiecePos) {
    && (x.downloading == y.downloading && x.piecePriority == y.piecePriority ==>
          && (x.piecePriority <= 3 ==> x.peerCount >= y.peerCount)
          && (4 <= x.piecePriority < 7 ==> x.peerCount / 2 >= y.peerCount / 2))
    && (!x.downloading && !y.downloading && x.peerCount == y.peerCount && 3 >= y.piecePriority && 3 >= x.piecePriority ==>
          x.piecePriority >= y.piecePriority)
    && (!x.downloading && y.downloading && x.piecePriority == y.piecePriority ==> x.peerCount > y.peerCount && x.piecePriority < 7)
  }

  /** The blocks are in the order of the pass, told from the records of their pieces. */
  ghost predicate InPassOrder(m: PieceMap, opts: Options, s: seq<PieceBlock>) {
    forall a, b :: 0 <= a < b < |s| && 0 <= s[a].piece < |m| && 0 <= s[b].piece < |m| ==>
      InPlace(m, opts, s[a].piece, s[b].piece)
  }

  ghost predicate InPlace(m: PieceMap, opts: Options, p: int, q: int)
    requires 0 <= p < |m| && 0 <= q < |m|
  {
    if opts.sequential then (if opts.reverse then p >= q else p <= q)
    else if opts.reverse then CommonestFirst(m[p], m[q])
    else RarestFirst(m[p], m[q])
  }

  lemma KeepsPlace(x: PiecePos, y: PiecePos, seeds: nat)
    requires x.Packed() && y.Packed() && x.Priority(seeds) >= 0 && y.Priority(seeds) >= 0
    ensures x.Priority(seeds) <= y.Priority(seeds) ==> RarestFirst(x, y)
    ensures Mirrored(x.Priority(seeds)) >= Mirrored(y.Priority(seeds)) ==> CommonestFirst(x, y)
  {
    hide *;
    KeepsForward(x, y, seeds);
    KeepsReverse(x, y, seeds);
  }

  lemma KeepsForward(x: PiecePos, y: PiecePos, seeds: nat)
    requires x.Packed() && y.Packed() && x.Priority(seeds) >= 0 && y.Priority(seeds) >= 0
    ensures x.Priority(seeds) <= y.Priority(seeds) ==> RarestFirst(x, y)
  {
  }

  lemma KeepsReverse(x: PiecePos, y: PiecePos, seeds: nat)
    requires x.Packed() && y.Packed() && x.Priority(seeds) >= 0 && y.Priority(seeds) >= 0
    ensures Mirrored(x.Priority(seeds)) >= Mirrored(y.Priority(seeds)) ==> CommonestFirst(x, y)
  {
    MirrorOrder(x.Priority(seeds), y.Priority(seeds));
    hide Mirrored;
  }

  lemma MirrorOrder(a: int, b: int)
    requires a >= 0 && b >= 0
    ensures Mirrored(a) >= Mirrored(b) ==> a / PRIO_FACTOR > b / PRIO_FACTOR || (a / PRIO_FACTOR == b / PRIO_FACTOR && a <= b)
  {
  }

  /** The pieces an ordered pass goes through: open ones the peer has, and for a rarest-first
      pass ones that some peer has. */
  ghost predicate Offers(j: Job, seeds: nat, p: int) {
    && 0 <= p < |j.m| && p < |j.has| && j.has[p] && j.m[p].Open()
    && (j.opts.sequential || j.m[p].peerCount + seeds > 0)
  }

  /** Nothing pickable is left out that would come before something taken. */
  ghost predicate BestTaken(j: Job, v: map<int, Entry>, seeds: nat, s: seq<PieceBlock>) {
    forall x, a :: Pickable(j, v, x) && Offers(j, seeds, x.piece) && x !in s && 0 <= a < |s| && 0 <= s[a].piece < |j.m| ==>
      InPlace(j.m, j.opts, s[a].piece, x.piece)
  }

  lemma PassInFields(j: Job, v: map<int, Entry>, seeds: nat, s: seq<PieceBlock>)
    requires AllPacked(j.m) && |j.has| == |j.m| && PlainAnswer(j, v, Prios(j.m, seeds), s) && j.Plain()
    ensures InPassOrder(j.m, j.opts, s) && BestTaken(j, v, seeds, s)
  {
    var prio := Prios(j.m, seeds);
    PlainIs(j);
    forall x, a | Pickable(j, v, x) && Offers(j, seeds, x.piece) && x !in s && 0 <= a < |s| && 0 <= s[a].piece < |j.m|
      ensures InPlace(j.m, j.opts, s[a].piece, x.piece) {
      assert Reached(j, v, prio, x.piece) && PassKey(j, prio)[s[a].piece] <= PassKey(j, prio)[x.piece];
      if !j.opts.sequential {
        hide RarestFirst, CommonestFirst, Mirrored;
        KeepsPlace(j.m[s[a].piece], j.m[x.piece], seeds);
      }
    }
    forall a, b | 0 <= a < b < |s| && 0 <= s[a].piece < |j.m| && 0 <= s[b].piece < |j.m| ensures InPlace(j.m, j.opts, s[a].piece, s[b].piece) {
      var p, q := s[a].piece, s[b].piece;
      assert PassKey(j, prio)[p] <= PassKey(j, prio)[q];
      if !j.opts.sequential {
        hide RarestFirst, CommonestFirst, Mirrored;
        KeepsPlace(j.m[p], j.m[q], seeds);
      }
    }
  }

  /** Picks blocks to request from a peer, rebuilding the lists first when a
      rarest-first pass finds them stale. */
  method PickFrom(p: PiecePicker, has: seq<bool>, wanted: int, preferWhole: nat, peer: nat, speed: Speed,
                  opts: Options, suggested: seq<int>)
    returns (free: seq<PieceBlock>, busy: seq<PieceBlock>)
    requires p.Valid() && |p.pieceMap| > 0 && |has| == |p.pieceMap| && wanted > 0
    requires !(opts.rarestFirst && opts.sequential)
    requires forall i :: 0 <= i < |suggested| ==> 0 <= suggested[i] < |p.pieceMap|
    modifies p`pieces, p`bounds, p`pieceMap, p`dirty
    ensures p.Valid() && Reindexed(old(p.pieceMap), p.pieceMap)
    ensures Answers(JobOf(p, has, wanted, preferWhole, peer, speed, opts, suggested), p.entries,
                    Prios(p.pieceMap, p.seeds), free, busy)
    ensures PlainCall(|p.downloads|, preferWhole, opts, suggested) ==>
              && InPassOrder(p.pieceMap, opts, free)
              && BestTaken(JobOf(p, has, wanted, preferWhole, peer, speed, opts, suggested), p.entries, p.seeds, free)
  {
    hide *;
    p.Parts();
    ReindexedRefl(p.pieceMap);
    ghost var m0 := p.pieceMap;
    if opts.rarestFirst {
      RefreshLists(p, opts.reverse);
    }
    p.Parts();
    ReindexedSize(m0, p.pieceMap);
    var j := Job(p.pieceMap, p.downloads, p.blockInfo, p.base, p.blocksPerPiece, p.blocksInLastPiece, has,
                 if opts.ignoreWhole then 0 else preferWhole, peer, speed,
                 opts.(partials := opts.partials || |p.downloads| > 20), wanted, suggested);
    JobIs(p, has, wanted, preferWhole, peer, speed, opts, suggested, j);
    JobFine(j, p.entries);
    TalliedIs(p.pieceMap, p.cursor, p.reverseCursor, p.numHave, p.numFiltered, p.numHaveFiltered);
    free, busy := Choose(j, p.pieces, p.bounds, p.cursor, p.reverseCursor, p.entries, Prios(p.pieceMap, p.seeds));
    AnswerOrder(j, preferWhole, opts, p.entries, p.seeds, free, busy);
  }

  /** An ordered pass with nothing else to prefer; a queue longer than twenty makes partial
      pieces preferred. */
  ghost predicate PlainCall(queue: int, preferWhole: nat, opts: Options, suggested: seq<int>) {
    && (opts.sequential || opts.rarestFirst) && !opts.partials && queue <= 20 && !opts.affinity
    && (opts.ignoreWhole || preferWhole == 0) && suggested == []
  }

  lemma AnswerOrder(j: Job, preferWhole: nat, opts: Options, v: map<int, Entry>, seeds: nat, free: seq<PieceBlock>, busy: seq<PieceBlock>)
    requires AllPacked(j.m) && |j.has| == |j.m| && Answers(j, v, Prios(j.m, seeds), free, busy)
    requires j.opts == opts.(partials := opts.partials || |j.dl| > 20) && j.whole == if opts.ignoreWhole then 0 else preferWhole
    ensures PlainCall(|j.dl|, preferWhole, opts, j.suggested) ==> InPassOrder(j.m, opts, free) && BestTaken(j, v, seeds, free)
  {
    PlainIs(j);
    hide InPlace, PlainAnswer, Complete, AllPickable, Contended, Prios, BestTaken, Preferred;
    if j.Plain() {
      PassInFields(j, v, seeds, free);
      forall a, b | 0 <= a < b < |free| && 0 <= free[a].piece < |j.m| && 0 <= free[b].piece < |j.m|
        ensures InPlace(j.m, opts, free[a].piece, free[b].piece) {
        SamePlace(j.m, j.opts, opts, free[a].piece, free[b].piece);
      }
    }
  }

  lemma SamePlace(m: PieceMap, opts: Options, opts': Options, p: int, q: int)
    requires 0 <= p < |m| && 0 <= q < |m| && opts == opts'.(partials := opts.partials)
    ensures InPlace(m, opts, p, q) == InPlace(m, opts', p, q)
  {
  }

  lemma ReindexedSize(m: PieceMap, m': PieceMap)
    requires Reindexed(m, m')
    ensures |m'| == |m|
  {
  }

  lemma JobIs(p: PiecePicker, has: seq<bool>, wanted: int, preferWhole: nat, peer: nat, speed: Speed,
              opts: Options, suggested: seq<int>, j: Job)
    requires j == Job(p.pieceMap, p.downloads, p.blockInfo, p.base, p.blocksPerPiece, p.blocksInLastPiece, has,
                      if opts.ignoreWhole then 0 else preferWhole, peer, speed,
                      opts.(partials := opts.partials || |p.downloads| > 20), wanted, suggested)
    ensures JobOf(p, has, wanted, preferWhole, peer, speed, opts, suggested) == j
  {
  }

  lemma JobFine(j: Job, v: map<int, Entry>)
    requires |j.has| == |j.m| && 0 < j.last <= j.bpp && Represents(j.dl, j.info, j.base, j.bpp, v) && InStep(j.m, v, j.bpp, j.last)
    requires forall i :: 0 <= i < |j.suggested| ==> 0 <= j.suggested[i] < |j.m|
    ensures Fine(j, v) && Valids(j, j.suggested)
  {
  }

  /** Rebuilds stale lists, and rounds the number of buckets up for a reverse pass. */
  method RefreshLists(p: PiecePicker, reverse: bool)
    requires p.Valid()
    modifies p`pieces, p`bounds, p`pieceMap, p`dirty
    ensures p.Valid() && !p.dirty && Reindexed(old(p.pieceMap), p.pieceMap)
    ensures reverse ==> |p.bounds| % PRIO_FACTOR == 0
  {
    hide Layout, Represents, InStep, Tallied, Reindexed, Prios, Indexes, Descending;
    ghost var m0 := p.pieceMap;
    ReindexedRefl(m0);
    if p.dirty {
      p.UpdatePieces();
      TalliedReindexed(m0, p.pieceMap, p.cursor, p.reverseCursor, p.numHave, p.numFiltered, p.numHaveFiltered);
      InStepReindexed(m0, p.pieceMap, p.entries, p.blocksPerPiece, p.blocksInLastPiece);
    }
    if reverse {
      LastBoundary(p.pieces, p.bounds, Indexes(p.pieceMap), Prios(p.pieceMap, p.seeds));
      var size := (|p.bounds| + PRIO_FACTOR - 1) / PRIO_FACTOR * PRIO_FACTOR;
      ExtendKeepsLayout(p.pieces, p.bounds, Indexes(p.pieceMap), Prios(p.pieceMap, p.seeds), size);
      p.bounds := Extend(p.bounds, size, p.bounds[|p.bounds| - 1]);
    }
  }

  lemma LastBoundary(list: seq<int>, bounds: seq<int>, idx: seq<int>, prio: seq<int>)
    requires Layout(list, bounds, idx, prio)
    ensures |bounds| > 0 && bounds[|bounds| - 1] == |list|
  {
  }

  lemma InStepReindexed(m: PieceMap, m': PieceMap, v: map<int, Entry>, bpp: int, last: int)
    requires InStep(m, v, bpp, last) && Reindexed(m, m')
    ensures InStep(m', v, bpp, last)
  {
  }
}
