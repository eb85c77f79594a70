/** Whole runs of the picker. */
module PickerRuns {
  import opened PickerTypes
  import opened Buckets
  import opened Blocks
  import opened Queue
  import opened Cursors
  import opened Rebuild
  import opened Picker
  import opened PickPieces

  /** The calls other components make. */
  datatype Event =
    | SeedJoins
    | SeedLeaves
    | PeerHas(piece: int)
    | PeerLoses(piece: int)
    | PeerJoins(mask: seq<bool>)
    | PeerLeaves(mask: seq<bool>)
    | Have(piece: int)
    | Lost(piece: int)
    | Prioritise(piece: int, priority: nat)
    | Requested(piece: int, block: int, peer: nat, speed: Speed)
    | Written(piece: int, block: int, peer: nat)
    | Finished(piece: int, block: int, peer: nat)
    | WriteFails(piece: int, block: int)
    | Aborted(piece: int, block: int)
    | HashFails(piece: int)
    | Pick(has: seq<bool>, wanted: int, preferWhole: nat, peer: nat, speed: Speed, opts: Options, suggested: seq<int>)

  predicate InPiece(p: PiecePicker, piece: int, block: int)
    reads p
  {
    && 0 <= piece < |p.pieceMap|
    && 0 <= block < BlocksInPiece(|p.pieceMap|, piece, p.blocksPerPiece, p.blocksInLastPiece)
  }

  /** Performs one call, provided it meets what the picker asserts of its callers. */
  method Perform(p: PiecePicker, e: Event)
    requires p.Valid() && |p.pieceMap| > 0
    modifies p
    ensures p.Valid() && |p.pieceMap| == |old(p.pieceMap)|
    ensures p.blocksPerPiece == old(p.blocksPerPiece) && p.blocksInLastPiece == old(p.blocksInLastPiece)
  {
    hide PiecePicker.Valid, Layout, Represents, InStep, Tallied, Prios, Indexes, Descending, AllPacked, Answers, JobOf;
    var n := |p.pieceMap|;
    match e
    case SeedJoins => p.IncRefcountAll();
    case SeedLeaves =>
      if p.seeds > 0 || forall i :: 0 <= i < n ==> p.pieceMap[i].peerCount > 0 { p.DecRefcountAll(); }
    case PeerHas(i) => if 0 <= i < n { p.IncRefcount(i); }
    case PeerLoses(i) => if 0 <= i < n && p.pieceMap[i].peerCount > 0 { p.DecRefcount(i); }
    case PeerJoins(mask) => if |mask| == n { p.ChangeRefcounts(mask, 1); }
    case PeerLeaves(mask) => if |mask| == n { p.ChangeRefcounts(mask, -1); }
    case Have(i) => if 0 <= i < n { p.WeHave(i); }
    case Lost(i) => if 0 <= i < n && !p.pieceMap[i].downloading { p.WeDontHave(i); }
    case Prioritise(i, priority) =>
      if 0 <= i < n && priority < PRIORITY_LEVELS { var _ := p.SetPiecePriority(i, priority); }
    case HashFails(i) => if 0 <= i < n && p.pieceMap[i].downloading { p.RestorePiece(i); }
    case Pick(has, wanted, whole, peer, speed, opts, suggested) =>
      if |has| == n && wanted > 0 && !(opts.rarestFirst && opts.sequential)
         && forall i :: 0 <= i < |suggested| ==> 0 <= suggested[i] < n {
        var _, _ := PickFrom(p, has, wanted, whole, peer, speed, opts, suggested);
      }
    case _ => PerformBlock(p, e);
  }

  method PerformBlock(p: PiecePicker, e: Event)
    requires p.Valid() && |p.pieceMap| > 0
    requires e.Requested? || e.Written? || e.Finished? || e.WriteFails? || e.Aborted?
    modifies p
    ensures p.Valid() && |p.pieceMap| == |old(p.pieceMap)|
    ensures p.blocksPerPiece == old(p.blocksPerPiece) && p.blocksInLastPiece == old(p.blocksInLastPiece)
  {
    if !InPiece(p, e.piece, e.block) { return; }
    InStepAt(p.pieceMap, p.entries, p.blocksPerPiece, p.blocksInLastPiece, e.piece);
    var b := p.BlockAt(e.piece, e.block);
    hide Layout, Represents, InStep, Tallied, Prios, Indexes, Descending;
    match e
    case Requested(i, k, peer, speed) =>
      if speed != NoSpeed && !p.pieceMap[i].Have() && b.numPeers < NUM_PEERS_RANGE - 1 {
        var _ := p.MarkAsDownloading(i, k, peer, speed);
      }
    case Written(i, k, peer) => var _ := p.MarkAsWriting(i, k, peer);
    case Finished(i, k, peer) => if b.state != BlockState.Requested { p.MarkAsFinished(i, k, peer); }
    case WriteFails(i, k) => if b.state == Writing { p.WriteFailed(i, k); }
    case Aborted(i, k) => p.AbortDownload(i, k);
  }

  /** Over every run that starts with `Init`, all the picker's invariants hold;
      in particular, lists that are not marked stale are in order. */
  method Run(blocks: nat, blocksInLast: nat, total: nat, events: seq<Event>) returns (p: PiecePicker)
    requires 0 < blocks && blocksInLast <= blocks && 0 < total < WE_HAVE_INDEX
    ensures p.Valid() && |p.pieceMap| == total
    ensures !p.dirty ==> p.InOrder()
  {
    p := new PiecePicker();
    p.Init(blocks, blocksInLast, total);
    for i := 0 to |events|
      invariant p.Valid() && |p.pieceMap| == total
    {
      Perform(p, events[i]);
    }
  }

  /** A rebuild from scratch lists the same pieces in the same buckets as the
      lists that were maintained call by call; only the order inside a bucket
      may differ. */
  method CompareWithRebuild(p: PiecePicker) returns (list: seq<int>, ends: seq<int>)
    requires p.Valid() && !p.dirty
    ensures |list| == |p.pieces| && multiset(list) == multiset(p.pieces)
    ensures forall b :: 0 <= b < |ends| && b < |p.bounds| ==>
              ends[b] == p.bounds[b] && 0 <= Start(ends, b) <= ends[b] <= |list| &&
              Members(list[Start(ends, b)..ends[b]]) == Members(p.pieces[Start(p.bounds, b)..p.bounds[b]])
  {
    var places: PieceMap;
    list, ends, places := RebuildBuckets(p.pieces, p.bounds, p.pieceMap, p.seeds);
    LayoutUnique(list, ends, Indexes(places), p.pieces, p.bounds, Indexes(p.pieceMap), Prios(p.pieceMap, p.seeds));
  }
}
