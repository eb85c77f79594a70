/** The state machine of the blocks of one partially downloaded piece. */
module Blocks {
  import opened PickerTypes

  datatype BlockState = Free | Requested | Writing | Finished

  /** `peer` is 0 when the block is attributed to nobody; `numPeers` counts the
      peers that have the block in their queues. */
  datatype BlockInfo = BlockInfo(peer: nat, numPeers: nat, state: BlockState)

  const FRESH := BlockInfo(0, 0, Free)

  datatype Speed = NoSpeed | Slow | Medium | Fast

  /** What the download queue knows about one piece. */
  datatype Entry = Entry(speed: Speed, finished: int, writing: int, requested: int, blocks: seq<BlockInfo>) {
    function Done(): int {
      finished + writing
    }

    function Busy(): int {
      finished + writing + requested
    }
  }

  function Count(blocks: seq<BlockInfo>, st: BlockState): (r: nat) {
    if |blocks| == 0 then 0
    else Count(blocks[..|blocks| - 1], st) + if blocks[|blocks| - 1].state == st then 1 else 0
  }

  lemma {:induction false} CountUpdate(blocks: seq<BlockInfo>, k: int, b: BlockInfo, st: BlockState)
    requires 0 <= k < |blocks|
    ensures Count(blocks[k := b], st) ==
            Count(blocks, st) - (if blocks[k].state == st then 1 else 0) + if b.state == st then 1 else 0
  {
    var n := |blocks| - 1;
    if k < n {
      CountUpdate(blocks[..n], k, b, st);
      assert blocks[k := b][..n] == blocks[..n][k := b];
    } else {
      assert blocks[k := b][..n] == blocks[..n];
    }
  }

  lemma CountsUpdate(blocks: seq<BlockInfo>, k: int, b: BlockInfo)
    requires 0 <= k < |blocks|
    ensures forall st :: Count(blocks[k := b], st) ==
              Count(blocks, st) - (if blocks[k].state == st then 1 else 0) + if b.state == st then 1 else 0
  {
    forall st ensures Count(blocks[k := b], st) ==
              Count(blocks, st) - (if blocks[k].state == st then 1 else 0) + if b.state == st then 1 else 0 {
      CountUpdate(blocks, k, b, st);
    }
  }

  lemma {:induction false} CountPositive(blocks: seq<BlockInfo>, st: BlockState)
    ensures Count(blocks, st) > 0 <==> exists k :: 0 <= k < |blocks| && blocks[k].state == st
  {
    if |blocks| > 0 {
      var n := |blocks| - 1;
      CountPositive(blocks[..n], st);
      if blocks[n].state != st && exists k :: 0 <= k < |blocks| && blocks[k].state == st {
        var k :| 0 <= k < |blocks| && blocks[k].state == st;
        assert blocks[..n][k].state == st;
      }
    }
  }

  lemma {:induction false} CountTotal(blocks: seq<BlockInfo>)
    ensures Count(blocks, Free) + Count(blocks, Requested) + Count(blocks, Writing) + Count(blocks, Finished) == |blocks|
  {
    if |blocks| > 0 { CountTotal(blocks[..|blocks| - 1]); }
  }

  lemma {:induction false} CountFresh(n: nat, st: BlockState)
    ensures Count(seq(n, _ => FRESH), st) == if st == Free then n else 0
  {
    if n > 0 {
      CountFresh(n - 1, st);
      assert seq(n, _ => FRESH)[..n - 1] == seq(n - 1, _ => FRESH);
    }
  }

  /** The counters count, only requested blocks have takers, the speed class is
      set exactly while something is requested, something is under way, and the
      slots past the end of a short piece stay untouched. */
  ghost predicate Sound(e: Entry, n: int) {
    && 0 <= n <= |e.blocks|
    && e.finished == Count(e.blocks, Finished)
    && e.writing == Count(e.blocks, Writing)
    && e.requested == Count(e.blocks, Requested)
    && (forall k :: 0 <= k < |e.blocks| ==>
          e.blocks[k].numPeers < NUM_PEERS_RANGE && (e.blocks[k].numPeers > 0 <==> e.blocks[k].state == Requested))
    && (forall k :: n <= k < |e.blocks| ==> e.blocks[k].state == Free)
    && (e.speed == NoSpeed <==> e.requested == 0)
  }

  /** An entry of the queue: sound, and not idle. */
  ghost predicate Live(e: Entry, n: int) {
    Sound(e, n) && e.Busy() > 0
  }

  // --------------------------------------------------------- transitions

  function Blank(bpp: nat): Entry {
    Entry(NoSpeed, 0, 0, 0, seq(bpp, _ => FRESH))
  }

  function Request(e: Entry, k: int, peer: nat, speed: Speed): (r: Entry)
    requires 0 <= k < |e.blocks|
  {
    var b := e.blocks[k];
    e.(blocks := e.blocks[k := BlockInfo(peer, (b.numPeers + 1) % NUM_PEERS_RANGE, Requested)],
       requested := if b.state == Requested then e.requested else e.requested + 1,
       speed := if e.speed == NoSpeed then speed else e.speed)
  }

  function Write(e: Entry, k: int, peer: nat): (r: Entry)
    requires 0 <= k < |e.blocks|
  {
    var requested := if e.blocks[k].state == Requested then e.requested - 1 else e.requested;
    e.(blocks := e.blocks[k := BlockInfo(peer, 0, Writing)],
       requested := requested, writing := e.writing + 1,
       speed := if requested == 0 then NoSpeed else e.speed)
  }

  function Finish(e: Entry, k: int, peer: nat): (r: Entry)
    requires 0 <= k < |e.blocks|
  {
    e.(blocks := e.blocks[k := e.blocks[k].(peer := peer, state := Finished)],
       finished := e.finished + 1,
       writing := if e.blocks[k].state == Writing then e.writing - 1 else e.writing)
  }

  function FailWrite(e: Entry, k: int): (r: Entry)
    requires 0 <= k < |e.blocks|
  {
    e.(blocks := e.blocks[k := e.blocks[k].(peer := 0, state := Free)], writing := e.writing - 1)
  }

  function Abort(e: Entry, k: int): (r: Entry)
    requires 0 <= k < |e.blocks|
  {
    var b := e.blocks[k];
    if b.numPeers > 1 then e.(blocks := e.blocks[k := b.(numPeers := b.numPeers - 1)])
    else
      e.(blocks := e.blocks[k := FRESH], requested := e.requested - 1,
         speed := if e.requested == 1 then NoSpeed else e.speed)
  }

  lemma BlankSize(bpp: nat)
    ensures |Blank(bpp).blocks| == bpp && forall k :: 0 <= k < bpp ==> Blank(bpp).blocks[k] == BlockInfo(0, 0, Free)
  {
  }

  lemma LiveIs(e: Entry, n: int)
    ensures Live(e, n) <==> Sound(e, n) && e.Busy() > 0
    ensures e.Busy() == e.finished + e.writing + e.requested
    ensures Sound(e, n) ==> e.Busy() >= 0
  {
  }

  lemma LiveIsSound(e: Entry, n: int)
    requires Live(e, n)
    ensures Sound(e, n)
  {
  }

  // The transitions field by field, and from the blank entry.

  lemma RequestIs(e: Entry, k: int, peer: nat, speed: Speed)
    requires 0 <= k < |e.blocks|
    ensures var b := e.blocks[k];
            Request(e, k, peer, speed) ==
              Entry(if e.speed == NoSpeed then speed else e.speed, e.finished, e.writing,
                    if b.state == Requested then e.requested else e.requested + 1,
                    e.blocks[k := BlockInfo(peer, (b.numPeers + 1) % NUM_PEERS_RANGE, Requested)])
  {
  }

  lemma BlankRequest(bpp: nat, k: int, peer: nat, speed: Speed)
    requires 0 <= k < |Blank(bpp).blocks|
    ensures Request(Blank(bpp), k, peer, speed) == Entry(speed, 0, 0, 1, Blank(bpp).blocks[k := BlockInfo(peer, 1, Requested)])
  {
    BlankSize(bpp);
  }

  lemma WriteIs(e: Entry, k: int, peer: nat)
    requires 0 <= k < |e.blocks|
    ensures var requested := if e.blocks[k].state == Requested then e.requested - 1 else e.requested;
            Write(e, k, peer) ==
              Entry(if requested == 0 then NoSpeed else e.speed, e.finished, e.writing + 1, requested,
                    e.blocks[k := BlockInfo(peer, 0, Writing)])
  {
  }

  lemma BlankWrite(bpp: nat, k: int, peer: nat)
    requires 0 <= k < |Blank(bpp).blocks|
    ensures Write(Blank(bpp), k, peer) == Entry(NoSpeed, 0, 1, 0, Blank(bpp).blocks[k := BlockInfo(peer, 0, Writing)])
  {
    BlankSize(bpp);
  }

  lemma FinishIs(e: Entry, k: int, peer: nat)
    requires 0 <= k < |e.blocks|
    ensures Finish(e, k, peer) ==
              Entry(e.speed, e.finished + 1, if e.blocks[k].state == Writing then e.writing - 1 else e.writing, e.requested,
                    e.blocks[k := e.blocks[k].(peer := peer, state := Finished)])
  {
  }

  lemma BlankFinish(bpp: nat, k: int, peer: nat)
    requires 0 <= k < |Blank(bpp).blocks|
    ensures Finish(Blank(bpp), k, peer) == Entry(NoSpeed, 1, 0, 0, Blank(bpp).blocks[k := BlockInfo(peer, 0, Finished)])
  {
    BlankSize(bpp);
  }

  lemma FailWriteIs(e: Entry, k: int)
    requires 0 <= k < |e.blocks|
    ensures FailWrite(e, k) ==
              Entry(e.speed, e.finished, e.writing - 1, e.requested, e.blocks[k := e.blocks[k].(peer := 0, state := Free)])
  {
  }

  lemma AbortIs(e: Entry, k: int)
    requires 0 <= k < |e.blocks|
    ensures var b := e.blocks[k];
            Abort(e, k) ==
              if b.numPeers > 1 then Entry(e.speed, e.finished, e.writing, e.requested, e.blocks[k := b.(numPeers := b.numPeers - 1)])
              else Entry(if e.requested == 1 then NoSpeed else e.speed, e.finished, e.writing, e.requested - 1, e.blocks[k := FRESH])
  {
  }

  /** A request keeps the entry live exactly as long as the 14-bit counter of the
      block does not wrap to zero. */
  lemma RequestKeeps(e: Entry, n: int, k: int, peer: nat, speed: Speed)
    requires Sound(e, n) && 0 <= k < n && speed != NoSpeed
    requires e.blocks[k].state == Free || e.blocks[k].state == Requested
    ensures Live(Request(e, k, peer, speed), n) <==> e.blocks[k].numPeers < NUM_PEERS_RANGE - 1
  {
    var b := Request(e, k, peer, speed).blocks[k];
    CountsUpdate(e.blocks, k, b);
    CountPositive(e.blocks, Requested);
    assert e.blocks[k].numPeers == NUM_PEERS_RANGE - 1 ==> b.numPeers == 0;
  }

  /** A block in the queues of as many peers as the counter can tell: one more request and
      the block counts as requested by none. */
  lemma RequestExample(peer: nat)
    ensures var e := Entry(Fast, 0, 0, 1, [BlockInfo(peer, NUM_PEERS_RANGE - 1, Requested)]);
            Live(e, 1) && Request(e, 0, peer, Fast).blocks[0] == BlockInfo(peer, 0, Requested) && !Live(Request(e, 0, peer, Fast), 1)
  {
    var e := Entry(Fast, 0, 0, 1, [BlockInfo(peer, NUM_PEERS_RANGE - 1, Requested)]);
    assert e.blocks[..0] == [];
    RequestKeeps(e, 1, 0, peer, Fast);
  }

  lemma WriteKeeps(e: Entry, n: int, k: int, peer: nat)
    requires Sound(e, n) && 0 <= k < n
    requires e.blocks[k].state == Free || e.blocks[k].state == Requested
    ensures Live(Write(e, k, peer), n) && Write(e, k, peer).Done() == e.Done() + 1
  {
    var b := Write(e, k, peer).blocks[k];
    CountsUpdate(e.blocks, k, b);
  }

  lemma FinishKeeps(e: Entry, n: int, k: int, peer: nat)
    requires Sound(e, n) && 0 <= k < n
    requires e.blocks[k].state == Free || e.blocks[k].state == Writing
    ensures Live(Finish(e, k, peer), n)
    ensures Finish(e, k, peer).Done() == if e.blocks[k].state == Writing then e.Done() else e.Done() + 1
  {
    var b := Finish(e, k, peer).blocks[k];
    CountsUpdate(e.blocks, k, b);
  }

  lemma FailWriteKeeps(e: Entry, n: int, k: int)
    requires Sound(e, n) && 0 <= k < n && e.blocks[k].state == Writing
    ensures Sound(FailWrite(e, k), n) && FailWrite(e, k).Done() == e.Done() - 1
  {
    var b := FailWrite(e, k).blocks[k];
    CountsUpdate(e.blocks, k, b);
  }

  lemma AbortKeeps(e: Entry, n: int, k: int)
    requires Sound(e, n) && 0 <= k < n && e.blocks[k].state == Requested
    ensures Sound(Abort(e, k), n) && Abort(e, k).Done() == e.Done()
    ensures e.blocks[k].numPeers > 1 ==> Abort(e, k).Busy() == e.Busy()
  {
    var b := Abort(e, k).blocks[k];
    CountsUpdate(e.blocks, k, b);
  }

  /** Attributing a block to another peer changes nothing else. */
  lemma RepeerKeeps(e: Entry, n: int, k: int, peer: nat)
    requires Live(e, n) && 0 <= k < n
    ensures Live(e.(blocks := e.blocks[k := e.blocks[k].(peer := peer)]), n)
  {
    CountsUpdate(e.blocks, k, e.blocks[k].(peer := peer));
  }

  lemma NoPeersUnlessRequested(e: Entry, n: int, k: int)
    requires Sound(e, n) && 0 <= k < |e.blocks|
    ensures e.blocks[k].numPeers < NUM_PEERS_RANGE && (e.blocks[k].numPeers > 0 <==> e.blocks[k].state == Requested)
    ensures e.blocks[k].state != Requested ==> e.blocks[k].numPeers < NUM_PEERS_RANGE - 1
  {
  }

  lemma RequestedHasPeers(e: Entry, n: int, k: int)
    requires Sound(e, n) && 0 <= k < n && e.blocks[k].state == Requested
    ensures e.blocks[k].numPeers > 0 && e.requested > 0
  {
    CountPositive(e.blocks, Requested);
  }

  lemma BlankIsSound(bpp: nat, n: int)
    requires 0 <= n <= bpp
    ensures Sound(Blank(bpp), n)
  {
    CountFresh(bpp, Requested);
    CountFresh(bpp, Writing);
    CountFresh(bpp, Finished);
  }

  /** When every block of the piece is written or finished, nothing is requested
      any more, and the entry counts exactly the blocks of the piece. */
  lemma {:induction false} AllDone(e: Entry, n: int)
    requires Sound(e, n) && e.Done() == n
    ensures e.requested == 0
    ensures forall k :: 0 <= k < n ==> e.blocks[k].state == Writing || e.blocks[k].state == Finished
  {
    TailIsFree(e.blocks, n);
    CountTotal(e.blocks[..n]);
    CountPositive(e.blocks[..n], Free);
    CountPositive(e.blocks[..n], Requested);
    forall k | 0 <= k < n ensures e.blocks[k].state == Writing || e.blocks[k].state == Finished {
      assert e.blocks[..n][k] == e.blocks[k];
    }
  }

  lemma {:induction false} TailIsFree(blocks: seq<BlockInfo>, n: int)
    requires 0 <= n <= |blocks| && forall k :: n <= k < |blocks| ==> blocks[k].state == Free
    ensures Count(blocks, Requested) == Count(blocks[..n], Requested)
    ensures Count(blocks, Writing) == Count(blocks[..n], Writing)
    ensures Count(blocks, Finished) == Count(blocks[..n], Finished)
    decreases |blocks|
  {
    if n < |blocks| {
      TailIsFree(blocks[..|blocks| - 1], n);
      assert blocks[..|blocks| - 1][..n] == blocks[..n];
    } else {
      assert blocks[..n] == blocks;
    }
  }
}
