/** Values held by the piece picker: the packed per-piece record with its
    priority function, per-block state, and the download-queue entry. */
module PickerTypes {

  const PRIORITY_LEVELS := 8
  const PRIO_FACTOR := PRIORITY_LEVELS - 4

  /** The value of the 18-bit index field that marks a piece we have. */
  const WE_HAVE_INDEX := 0x3ffff

  /** The availability counter is a 10-bit field. */
  const PEER_COUNT_RANGE := 0x400

  /** The per-block request counter is a 14-bit field. */
  const NUM_PEERS_RANGE := 0x4000

  datatype PiecePos = PiecePos(peerCount: nat, downloading: bool, piecePriority: nat, index: nat) {

    predicate Have() {
      index == WE_HAVE_INDEX
    }

    predicate Filtered() {
      piecePriority == 0
    }

    /** A piece still wanted: neither had nor filtered out. */
    predicate Open() {
      !Have() && !Filtered()
    }

    /** The fields fit their bit widths. */
    predicate Packed() {
      peerCount < PEER_COUNT_RANGE && piecePriority < PRIORITY_LEVELS && index <= WE_HAVE_INDEX
    }

    /** The bucket of this piece, or -1 when it must not be listed. The multiples
        of the priority factor are reserved for the pieces being downloaded. */
    function Priority(seeds: nat): (r: int)
      requires Packed()
      ensures r >= -1
      ensures r == -1 <==> !Open() || peerCount + seeds == 0
      ensures r >= 0 ==> (downloading <==> r % PRIO_FACTOR == 0)
    {
      if Filtered() || Have() || peerCount + seeds == 0 then -1
      else if piecePriority == PRIORITY_LEVELS - 1 then (if downloading then 0 else 1)
      else
        var high := piecePriority >= PRIORITY_LEVELS / 2;
        var availability := if high then peerCount / 2 else peerCount;
        var p := if high then piecePriority - (PRIORITY_LEVELS - 2) / 2 else piecePriority;
        if downloading then availability * PRIO_FACTOR
        else availability * PRIO_FACTOR + PRIORITY_LEVELS / 2 - p
    }
  }

  // What the priorities mean, in terms of the fields of two records.

  /** Of two pieces alike but for their peers, the rarer one is never behind, and it is ahead
      unless its user priority is one of those that halve the availability and the halves are
      the same. */
  lemma RarerFirst(x: PiecePos, y: PiecePos, seeds: nat)
    requires x.Packed() && y.Packed() && x.Open() && y.Open() && x.peerCount <= y.peerCount
    requires x.downloading == y.downloading && x.piecePriority == y.piecePriority < 7
    ensures x.Priority(seeds) <= y.Priority(seeds)
    ensures x.piecePriority <= 3 && x.peerCount < y.peerCount ==> x.Priority(seeds) < y.Priority(seeds)
    ensures x.piecePriority >= 4 && x.peerCount / 2 < y.peerCount / 2 ==> x.Priority(seeds) < y.Priority(seeds)
    ensures x.piecePriority >= 4 && x.peerCount + seeds > 0 && x.peerCount / 2 == y.peerCount / 2 ==>
              x.Priority(seeds) == y.Priority(seeds)
  {
  }

  /** Of two pieces nobody has started with the same number of peers, the more wanted one is
      never behind, exactly unless they have no peers but seeds: then halving makes no
      difference, and priorities 4, 5 and 6 count as 1, 2 and 3. */
  lemma WantedFirst(x: PiecePos, y: PiecePos, seeds: nat)
    requires x.Packed() && y.Packed() && x.Open() && y.Open() && !x.downloading && !y.downloading
    requires x.peerCount == y.peerCount && x.peerCount + seeds > 0 && x.piecePriority > y.piecePriority
    ensures x.Priority(seeds) <= y.Priority(seeds) <==>
              x.peerCount > 0 || x.piecePriority == 7 || y.piecePriority > 3 || x.piecePriority <= 3
              || x.piecePriority - 3 >= y.piecePriority
    ensures (y.piecePriority > 3 || x.piecePriority <= 3) && x.piecePriority < 7 ==> x.Priority(seeds) < y.Priority(seeds)
  {
  }

  /** With one seed and no peers priority 4 is behind priority 3. */
  lemma WantedExample()
    ensures PiecePos(0, false, 4, 0).Priority(1) == 3 && PiecePos(0, false, 3, 0).Priority(1) == 1
  {
  }

  /** A piece in progress is ahead of all those alike that nobody has started, and behind
      the rarer ones. */
  lemma StartedFirst(x: PiecePos, y: PiecePos, seeds: nat)
    requires x.Packed() && y.Packed() && x.Open() && y.Open() && x.peerCount + seeds > 0 && y.peerCount + seeds > 0
    requires x.downloading && !y.downloading && x.piecePriority == y.piecePriority
    ensures x.peerCount <= y.peerCount ==> x.Priority(seeds) < y.Priority(seeds)
    ensures x.piecePriority <= 3 && y.peerCount < x.peerCount ==> y.Priority(seeds) < x.Priority(seeds)
    ensures 4 <= x.piecePriority < 7 && y.peerCount / 2 < x.peerCount / 2 ==> y.Priority(seeds) < x.Priority(seeds)
  {
  }

  /** The highest user priority disregards availability: nothing that nobody has started is
      ahead of it. */
  lemma TopFirst(x: PiecePos, y: PiecePos, seeds: nat)
    requires x.Packed() && y.Packed() && x.Open() && y.Open() && x.peerCount + seeds > 0 && y.peerCount + seeds > 0
    requires x.piecePriority == 7
    ensures x.Priority(seeds) == if x.downloading then 0 else 1
    ensures !y.downloading ==> x.Priority(seeds) <= y.Priority(seeds)
    ensures x.downloading ==> x.Priority(seeds) <= y.Priority(seeds)
  {
  }

  /** Three steps of user priority make up for half of the peers. */
  lemma HalvedAvailability(x: PiecePos, y: PiecePos, seeds: nat)
    requires x.Packed() && y.Packed() && x.Open() && y.Open() && x.downloading == y.downloading
    requires 1 <= x.piecePriority <= 3 && y.piecePriority == x.piecePriority + 3
    requires y.peerCount / 2 == x.peerCount && x.peerCount + seeds > 0
    ensures x.Priority(seeds) == y.Priority(seeds)
  {
  }

  type PieceMap = seq<PiecePos>

  ghost predicate AllPacked(m: PieceMap) {
    forall p :: 0 <= p < |m| ==> m[p].Packed()
  }

  ghost function Prios(m: PieceMap, seeds: nat): (r: seq<int>)
    requires AllPacked(m)
    ensures |r| == |m|
    ensures forall p :: 0 <= p < |m| ==> r[p] == m[p].Priority(seeds)
  {
    seq(|m|, p requires 0 <= p < |m| => m[p].Priority(seeds))
  }

  ghost function Indexes(m: PieceMap): (r: seq<int>)
    ensures |r| == |m|
    ensures forall p :: 0 <= p < |m| ==> r[p] == m[p].index
  {
    seq(|m|, p requires 0 <= p < |m| => m[p].index)
  }

  function SetIndex(m: PieceMap, p: int, i: nat): (r: PieceMap)
    requires 0 <= p < |m|
    ensures |r| == |m| && Indexes(r) == Indexes(m)[p := i]
  {
    m[p := m[p].(index := i)]
  }

  /** Only back-pointers differ, and no piece is gained or lost. */
  ghost predicate Reindexed(m: PieceMap, m': PieceMap) {
    && |m| == |m'| && AllPacked(m) && AllPacked(m')
    && forall p :: 0 <= p < |m| ==> m'[p] == m[p].(index := m'[p].index) && (m'[p].Have() <==> m[p].Have())
  }

  lemma ReindexedRefl(m: PieceMap)
    requires AllPacked(m)
    ensures Reindexed(m, m)
  {
  }

  lemma ReindexedTrans(m: PieceMap, m': PieceMap, m'': PieceMap)
    requires Reindexed(m, m') && Reindexed(m', m'')
    ensures Reindexed(m, m'')
  {
  }

  lemma ReindexOne(m: PieceMap, m': PieceMap, seeds: nat, p: int, i: nat)
    requires Reindexed(m, m') && 0 <= p < |m| == |m'| && i < WE_HAVE_INDEX
    requires Prios(m, seeds)[p] >= 0
    ensures Reindexed(m, SetIndex(m', p, i))
  {
  }

  lemma ReindexedPrios(m: PieceMap, m': PieceMap, seeds: nat)
    requires Reindexed(m, m')
    ensures |m| == |m'| && AllPacked(m') && Prios(m, seeds) == Prios(m', seeds)
  {
  }
}
