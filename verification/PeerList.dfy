/** The peer list of a torrent. A peer is named by its position; connections,
    their errors and the time are arguments. */
module PeerList {
  import opened Lists
  import opened PeerTypes
  import opened PeerScan

  /** How a connection ended. */
  datatype Closing = Closing(fastReconnect: bool, failed: bool)

  /** What becomes of the connection a peer already has when a second one comes in. */
  datatype Clash = NoEndpoint | SelfConnection | OldIsDead | KeepOld | KeepNew

  const NO_ADDRESS: Address := 0

  ghost predicate Failcounts(s: seq<Peer>) {
    forall k :: 0 <= k < |s| ==> 0 <= s[k].failcount < 32
  }

  class Policy {
    var peers: seq<Peer>
    var roundRobin: int
    var numCandidates: int
    var numSeeds: int
    var finished: bool
    const settings: Settings

    /** The list is sorted without duplicates, seeds are counted. */
    ghost predicate Listed()
      reads this`peers, this`roundRobin, this`numSeeds
    {
      && Sorted(peers, settings.allowMultiple) && Failcounts(peers)
      && numSeeds == Count(peers, Seeds) && 0 <= roundRobin <= |peers|
    }

    function Kinds(): Kind
      reads this`finished
    {
      Candidates(settings, finished)
    }

    predicate CanConnect(p: Peer)
      reads this`finished
    {
      IsConnectCandidate(p, finished, settings)
    }

    ghost predicate Valid()
      reads this`peers, this`roundRobin, this`numSeeds, this`numCandidates, this`finished
    {
      Listed() && numCandidates == Count(peers, Kinds())
    }

    lemma Parts()
      ensures Valid() <==>
                && Sorted(peers, settings.allowMultiple) && Failcounts(peers) && numSeeds == Count(peers, Seeds)
                && 0 <= roundRobin <= |peers| && numCandidates == Count(peers, Candidates(settings, finished))
    {
    }

    lemma Ones(p: Peer)
      ensures Kinds() == Candidates(settings, finished) && One(p, Kinds()) == (if CanConnect(p) then 1 else 0)
      ensures One(p, Seeds) == if p.seed then 1 else 0
    {
    }

    constructor (settings: Settings)
      ensures Valid() && peers == [] && !finished && this.settings == settings
    {
      this.settings := settings;
      peers, roundRobin, numCandidates, numSeeds, finished := [], 0, 0, 0, false;
    }

    // ------------------------------------------------------ changes of one peer

    /** Replaces the record at `i`, leaving its place in the order and its seed flag alone. */
    method Change(i: int, p: Peer)
      requires Listed() && 0 <= i < |peers| && p.address == peers[i].address && p.seed == peers[i].seed && 0 <= p.failcount < 32
      requires settings.allowMultiple ==> forall k :: 0 <= k < |peers| && k != i && peers[k].address == p.address ==> peers[k].port != p.port
      modifies this`peers
      ensures Listed() && peers == old(peers)[i := p]
      ensures Count(peers, Kinds()) == Count(old(peers), Kinds()) - One(old(peers)[i], Kinds()) + One(p, Kinds())
    {
      SortedUpdated(peers, i, p, settings.allowMultiple);
      CountUpdated(peers, i, p, Seeds);
      CountUpdated(peers, i, p, Kinds());
      hide Count, Sorted;
      peers := peers[i := p];
    }

    /** No other peer has the endpoint of a peer in the list. */
    lemma OwnEndpoint(i: int)
      requires Listed() && 0 <= i < |peers|
      ensures settings.allowMultiple ==> forall k :: 0 <= k < |peers| && k != i && peers[k].address == peers[i].address ==> peers[k].port != peers[i].port
    {
      if settings.allowMultiple {
        forall k | 0 <= k < |peers| && k != i && peers[k].address == peers[i].address ensures peers[k].port != peers[i].port {
          if k < i { assert Before(peers[k], peers[i], true); } else { assert Before(peers[i], peers[k], true); }
        }
      }
    }

    lemma OwnEndpointOf(i: int)
      requires Valid() && 0 <= i < |peers|
      ensures settings.allowMultiple ==> forall k :: 0 <= k < |peers| && k != i && peers[k].address == peers[i].address ==> peers[k].port != peers[i].port
    {
      OwnEndpoint(i);
    }

    method BanPeer(i: int)
      requires Valid() && 0 <= i < |peers|
      modifies this`peers, this`numCandidates
      ensures Valid() && peers == old(peers)[i := old(peers)[i].(banned := true)]
    {
      OwnEndpoint(i);
      hide Count, Sorted, Failcounts;
      if CanConnect(peers[i]) { numCandidates := numCandidates - 1; }
      Change(i, peers[i].(banned := true));
    }

    /** The peer is connected now. */
    method SetConnection(i: int)
      requires Valid() && 0 <= i < |peers|
      modifies this`peers, this`numCandidates
      ensures Valid() && peers == old(peers)[i := old(peers)[i].(connected := true)]
    {
      OwnEndpoint(i);
      hide Count, Sorted;
      if CanConnect(peers[i]) { numCandidates := numCandidates - 1; }
      Change(i, peers[i].(connected := true));
    }

    /** The failure count is five bits wide. */
    method SetFailcount(i: int, f: int)
      requires Valid() && 0 <= i < |peers|
      modifies this`peers, this`numCandidates
      ensures Valid() && peers == old(peers)[i := old(peers)[i].(failcount := f % 32)]
    {
      OwnEndpoint(i);
      hide Count, Sorted;
      var was := CanConnect(peers[i]);
      Change(i, peers[i].(failcount := f % 32));
      if was != CanConnect(peers[i]) {
        if was { numCandidates := numCandidates - 1; } else { numCandidates := numCandidates + 1; }
      }
    }

    /** Marks a peer as a seed or not. The candidate counter is only ever lowered here,
        so it stays exact unless the mark is taken off a peer that becomes a candidate
        by that: one that is kept from connecting by nothing else, while finished. */
    method SetSeed(i: int, s: bool)
      requires Valid() && 0 <= i < |peers|
      modifies this`peers, this`numCandidates, this`numSeeds
      ensures Listed() && peers == old(peers)[i := old(peers)[i].(seed := s)]
      ensures Valid() <==> !(finished && old(peers)[i].seed && !s && IsConnectCandidate(old(peers)[i], false, settings))
    {
      if peers[i].seed == s {
        assert peers == peers[i := peers[i].(seed := s)];
        return;
      }
      OwnEndpoint(i);
      var p := peers[i].(seed := s);
      SortedUpdated(peers, i, p, settings.allowMultiple);
      CountUpdated(peers, i, p, Seeds);
      CountUpdated(peers, i, p, Kinds());
      hide Count, Sorted;
      var was := CanConnect(peers[i]);
      peers := peers[i := p];
      if was && !CanConnect(peers[i]) {
        numCandidates := AtLeastZero(numCandidates - 1);
      }
      numSeeds := numSeeds + if s then 1 else -1;
    }

    /** A connection ended; the peer can be connected to again. */
    method ConnectionClosed(i: int, how: Closing, now: int)
      requires Valid() && 0 <= i < |peers| && peers[i].connected
      modifies this`peers, this`numCandidates
      ensures Valid()
      ensures |peers| == |old(peers)| && forall k :: 0 <= k < |peers| && k != i ==> peers[k] == old(peers)[k]
      ensures var p, q := old(peers)[i], peers[i];
              && !q.connected && q == p.(connected := false, failcount := q.failcount, lastConnected := q.lastConnected)
              && q.failcount == (if !how.failed then p.failcount else if p.failcount == 31 then 31 else p.failcount + 1)
              && q.lastConnected == if how.fastReconnect then p.lastConnected else now % 0x10000
      ensures peers == old(peers)[i := Closed(old(peers)[i], how, now)]
    {
      OwnEndpoint(i);
      hide Count, Sorted;
      Change(i, Closed(peers[i], how, now));
      if CanConnect(peers[i]) { numCandidates := numCandidates + 1; }
    }

    /** The number of candidates is counted anew when the torrent finishes or gets
        unfinished; nothing else changes. */
    method RecalculateCandidates(isFinished: bool)
      requires Valid()
      modifies this`numCandidates, this`finished
      ensures Valid() && finished == isFinished
    {
      if isFinished == finished { return; }
      finished := isFinished;
      var n := CountAll(peers, isFinished, settings);
      numCandidates := n;
    }

    // ------------------------------------------------------------ erasing peers

    method ErasePeer(i: int)
      requires Valid() && 0 <= i < |peers|
      modifies this`peers, this`numCandidates, this`numSeeds, this`roundRobin
      ensures Valid() && peers == Without(old(peers), i)
      ensures roundRobin == if old(roundRobin) > i then old(roundRobin) - 1 else old(roundRobin)
    {
      hide *;
      Parts();
      Ones(peers[i]);
      CountErased(peers, i, Seeds);
      CountErased(peers, i, Kinds());
      SortedErased(peers, i, settings.allowMultiple);
      FailcountsErased(peers, i);
      AfterEraseIs(roundRobin, i, |peers|);
      if peers[i].seed { numSeeds := numSeeds - 1; }
      if CanConnect(peers[i]) { numCandidates := numCandidates - 1; }
      roundRobin := AfterErase(roundRobin, i, |peers|);
      peers := Without(peers, i);
      Parts();
    }

    /** Forgets some of the peers that may be forgotten. `start` is a random position. */
    method ErasePeers(start: int, maxSize: int) returns (ghost kept: seq<int>, ghost reach: int, ghost last: int)
      requires Valid() && (peers != [] ==> 0 <= start < |peers|)
      modifies this`peers, this`numSeeds, this`roundRobin
      ensures Valid() && Picks(old(peers), kept, peers) && DroppedOk(old(peers), kept, finished, settings)
      ensures maxSize == 0 || 20 * |old(peers)| < 19 * maxSize ==> peers == old(peers)
      ensures maxSize != 0 && old(peers) != [] ==> WeededWell(old(peers), kept, start, reach, last, finished, settings, maxSize)
      ensures maxSize != 0 && old(peers) != [] && 20 * |old(peers)| >= 19 * maxSize
              && (exists o :: InReach(o, start, |old(peers)|) && IsEraseCandidate(old(peers)[o], finished, settings)) ==>
                |peers| < |old(peers)|
    {
      hide *;
      Parts();
      reach, last := 0, -1;
      kept := Identity(|peers|);
      KeepAll(peers, finished, settings);
      if maxSize == 0 || peers == [] { return; }
      var s, cursor, seeds;
      s, cursor, seeds, kept, reach, last := Weed(peers, start, roundRobin, numSeeds, finished, settings, maxSize);
      WeededIs(peers, kept, s, seeds, finished, settings);
      WeedLoses(peers, kept, s, start, reach, last, finished, settings, maxSize);
      PicksSorted(peers, kept, s, settings.allowMultiple);
      PicksFailcounts(peers, kept, s);
      peers, roundRobin, numSeeds := s, cursor, seeds;
      Parts();
    }

    // ------------------------------------------------------- looking for a peer

    /** Looks for the best peer to connect to; see `Found` for what it promises. */
    method FindConnectCandidate(now: int, maxSize: int, hasAsDb: bool, distance: Address -> int)
      returns (r: int, ghost start: int, ghost kept: seq<int>)
      requires Valid()
      modifies this`peers, this`numSeeds, this`roundRobin
      ensures Valid() && 0 <= r <= |peers|
      ensures r < |peers| ==> Eligible(peers[r], now, finished, settings)
      ensures old(peers) != [] ==> start == if old(roundRobin) >= |old(peers)| then 0 else old(roundRobin)
      ensures var x := Context(View(settings, finished, hasAsDb, distance), now, maxSize);
              if r < |peers| then BestInReach(old(peers), start, peers[r], x) else NoneInReach(old(peers), start, x)
      ensures maxSize <= 0 || 20 * |old(peers)| < 19 * maxSize ==> peers == old(peers)
      ensures old(peers) != [] ==>
                && start == (if old(roundRobin) >= |old(peers)| then 0 else old(roundRobin))
                && Found(old(peers), start, Context(View(settings, finished, hasAsDb, distance), now, maxSize), peers, kept, r)
      ensures old(peers) == [] ==> peers == []
    {
      hide *;
      Parts();
      r, start, kept := 0, 0, [];
      if peers == [] {
        NobodyInReach(peers, start, Context(View(settings, finished, hasAsDb, distance), now, maxSize));
        roundRobin := 0;
        Parts();
        return;
      }
      var x := Context(View(settings, finished, hasAsDb, distance), now, maxSize);
      var s, cursor, seeds;
      s, cursor, seeds, r, start, kept := FindCandidate(peers, roundRobin, numSeeds, x);
      FoundGood(peers, start, x, s, kept, r);
      StartIs(roundRobin, |peers|);
      FoundMeans(peers, start, x, s, kept, r);
      TooManyMeans(|peers|, maxSize);
      PicksSorted(peers, kept, s, settings.allowMultiple);
      PicksFailcounts(peers, kept, s);
      peers, roundRobin, numSeeds := s, cursor, seeds;
      Parts();
    }

    /** Connects to the best peer there is, if any: `r` is where it is now, `was` how it
        was found. The attempt is stamped on it, and a failure is counted against it. */
    method ConnectOnePeer(now: int, maxSize: int, hasAsDb: bool, distance: Address -> int, connects: bool)
      returns (ok: bool, r: int, ghost was: Peer, ghost start: int)
      requires Valid()
      modifies this`peers, this`numSeeds, this`roundRobin, this`numCandidates
      ensures Valid() && 0 <= r <= |peers| && (ok <==> connects && r < |peers|)
      ensures r < |peers| ==>
                && !was.connected && !was.banned && was.connectable && Eligible(was, now, finished, settings)
                && peers[r] == (if connects then Stamped(was, now).(connected := true) else Failed(Stamped(was, now)))
                && peers[r].lastConnected == now % 0x10000 && peers[r].connected == connects
                && peers[r].failcount == (if connects || was.failcount == 31 then was.failcount else was.failcount + 1)
                && peers[r].address == was.address && peers[r].port == was.port && peers[r].source == was.source
      ensures var x := Context(View(settings, finished, hasAsDb, distance), now, maxSize);
              if r < |peers| then BestInReach(old(peers), start, was, x) else NoneInReach(old(peers), start, x)
      ensures old(peers) != [] ==> start == if old(roundRobin) >= |old(peers)| then 0 else old(roundRobin)
    {
      hide *;
      ghost var kept;
      r, start, kept := FindConnectCandidate(now, maxSize, hasAsDb, distance);
      ok, was := false, Peer(0, 0, false, false, false, false, 0, 0, {}, 0);
      if r == |peers| { return; }
      was := peers[r];
      EligibleMeans(was, now, finished, settings);
      AttemptIs(was, now);
      Parts();
      FailcountAt(peers, r);
      Stamp(r, now);
      if !connects {
        Fail(r);
        return;
      }
      SetConnection(r);
      ok := true;
    }

    /** The time of the attempt is noted before it is made. */
    method Stamp(i: int, now: int)
      requires Valid() && 0 <= i < |peers|
      modifies this`peers
      ensures Valid() && peers == old(peers)[i := Stamped(old(peers)[i], now)]
    {
      OwnEndpoint(i);
      hide Count, Sorted;
      Change(i, Stamped(peers[i], now));
    }

    method Fail(i: int)
      requires Valid() && 0 <= i < |peers|
      modifies this`peers, this`numCandidates
      ensures Valid() && peers == old(peers)[i := Failed(old(peers)[i])]
    {
      OwnEndpoint(i);
      hide Count, Sorted;
      var was := CanConnect(peers[i]);
      Change(i, Failed(peers[i]));
      if was && !CanConnect(peers[i]) { numCandidates := numCandidates - 1; }
    }

    // ------------------------------------------------------------ adding peers

    /** The place of an endpoint in the list, or of its address when only one
        connection per address is allowed; otherwise where to insert it. */
    method Find(address: Address, port: int) returns (i: int, found: bool, ghost upper: bool)
      requires Sorted(peers, settings.allowMultiple)
      ensures if found then 0 <= i < |peers| && peers[i].address == address && (settings.allowMultiple ==> peers[i].port == port)
              else Bound(peers, address, i, upper)
      ensures !found ==> forall k :: 0 <= k < |peers| && peers[k].address == address ==> settings.allowMultiple && peers[k].port != port
    {
      var lo := LowerBound(peers, address, settings.allowMultiple);
      upper := settings.allowMultiple;
      if settings.allowMultiple {
        var hi := UpperBound(peers, address, true);
        Ends(peers, address, lo, hi);
        i := lo;
        while i < hi && peers[i].port != port
          invariant lo <= i <= hi && forall k :: lo <= k < i ==> peers[k].port != port
        {
          i := i + 1;
        }
        found := i < hi;
        return;
      }
      i := lo;
      found := i < |peers| && peers[i].address == address;
      if !found && i < |peers| { Middle(peers, i, false); }
    }

    /** Inserts a new peer. */
    method Insert(i: int, p: Peer, ghost upper: bool)
      requires Valid() && Bound(peers, p.address, i, upper) && 0 <= p.failcount < 32
      requires forall k :: 0 <= k < |peers| && peers[k].address == p.address ==> settings.allowMultiple && peers[k].port != p.port
      modifies this`peers, this`numCandidates, this`numSeeds, this`roundRobin
      ensures Valid() && 0 <= i <= |old(peers)| && peers == Inserted(old(peers), i, p)
    {
      hide *;
      Parts();
      Ones(p);
      FailcountsInserted(peers, i, p, upper);
      CountInserted(peers, i, p, Seeds);
      CountInserted(peers, i, p, Kinds());
      SortedInserted(peers, i, p, settings.allowMultiple, upper);
      peers := Inserted(peers, i, p);
      if roundRobin >= i { roundRobin := roundRobin + 1; }
      if p.seed { numSeeds := numSeeds + 1; }
      if CanConnect(p) { numCandidates := numCandidates + 1; }
      Parts();
    }

    predicate Refused(address: Address, port: int) {
      address == NO_ADDRESS || port == 0 || port in settings.blockedPorts || port < 1024 || address in settings.blockedAddresses
    }

    lemma RefusedIs(address: Address, port: int)
      ensures Refused(address, port) <==>
                address == NO_ADDRESS || port < 1024 || port in settings.blockedPorts || address in settings.blockedAddresses
    {
    }

    /** A peer heard of from `src`. The result is where it is in the list, or `-1`. A
        peer in the list is updated in its place; a new one is inserted, after some that
        may be forgotten made room if need be. `left` is the list before the insertion. */
    method AddPeer(address: Address, port: int, src: set<Source>, isSeed: bool, maxSize: int, start: int, inetAs: int)
      returns (r: int, known: bool, ghost left: seq<Peer>, ghost kept: seq<int>)
      requires Valid() && (peers != [] ==> 0 <= start < |peers|)
      modifies this`peers, this`numCandidates, this`numSeeds, this`roundRobin
      ensures Valid() && -1 <= r < |peers|
      ensures Refused(address, port) ==> r == -1 && peers == old(peers)
      ensures Refused(address, port) <==>
                address == NO_ADDRESS || port < 1024 || port in settings.blockedPorts || address in settings.blockedAddresses
      ensures r == -1 ==> Refused(address, port) || (0 != maxSize <= |old(peers)| && (src == {ResumeData} || maxSize <= |peers|))
      ensures !known && (maxSize == 0 || |old(peers)| < maxSize) ==> left == old(peers)
      ensures known ==> 0 <= r < |old(peers)| && old(peers)[r].address == address && peers == old(peers)[r := Heard(old(peers)[r], port, src, isSeed)]
      ensures !known ==>
                && Picks(old(peers), kept, left) && DroppedOk(old(peers), kept, finished, settings)
                && (if r == -1 then peers == left else r <= |left| && peers == Inserted(left, r, NewPeer(address, port, isSeed, src, inetAs)))
      ensures !known && r != -1 ==>
                && peers[r].address == address && peers[r].port == port && peers[r].connectable && peers[r].seed == isSeed
                && !peers[r].connected && !peers[r].banned && peers[r].failcount == 0 && peers[r].lastConnected == 0 && peers[r].source == src
    {
      RefusedIs(address, port);
      hide *;
      Parts();
      r, known, left, kept := -1, false, peers, Identity(|peers|);
      KeepAll(peers, finished, settings);
      if Refused(address, port) { return; }
      var i, found, upper := Find(address, port);
      if found {
        Hear(i, port, src, isSeed);
        r, known := i, true;
        return;
      }
      if maxSize != 0 && |peers| >= maxSize {
        if src == {ResumeData} { return; }
        ghost var all := peers;
        ghost var reach, last;
        kept, reach, last := ErasePeers(start, maxSize);
        left := peers;
        StillNew(all, kept, peers, address, port, settings.allowMultiple);
        if |peers| >= maxSize { return; }
        Parts();
        i := LowerBound(peers, address, settings.allowMultiple);
        upper := false;
      }
      NewPeerIs(address, port, isSeed, src, inetAs);
      Insert(i, NewPeer(address, port, isSeed, src, inetAs), upper);
      InsertedAt(left, i, NewPeer(address, port, isSeed, src, inetAs));
      r := i;
    }

    /** More news of a peer in the list. */
    method Hear(i: int, port: int, src: set<Source>, isSeed: bool)
      requires Valid() && 0 <= i < |peers| && (settings.allowMultiple ==> peers[i].port == port)
      modifies this`peers, this`numCandidates, this`numSeeds
      ensures Valid() && peers == old(peers)[i := Heard(old(peers)[i], port, src, isSeed)]
    {
      hide *;
      Parts();
      OwnEndpointOf(i);
      var p := Heard(peers[i], port, src, isSeed);
      HeardIs(peers, i, port, src, isSeed);
      Ones(peers[i]);
      Ones(p);
      SortedUpdated(peers, i, p, settings.allowMultiple);
      CountUpdated(peers, i, p, Seeds);
      CountUpdated(peers, i, p, Kinds());
      CountOne(peers, i, Kinds());
      var was := CanConnect(peers[i]);
      if isSeed && !peers[i].connected && !peers[i].seed { numSeeds := numSeeds + 1; }
      peers := peers[i := p];
      if was != CanConnect(p) {
        AtLeastZeroIs(numCandidates + if was then -1 else 1);
        numCandidates := AtLeastZero(numCandidates + if was then -1 else 1);
      }
      Parts();
    }

    /** A connection comes in. The result is the peer it belongs to, or `-1` when it is turned away. */
    method NewConnection(address: Address, port: int, now: int, tooMany: bool, maxSize: int, fastReconnect: bool,
                         clash: Clash, how: Closing, inetAs: int)
      returns (r: int)
      requires Valid()
      modifies this`peers, this`numCandidates, this`numSeeds, this`roundRobin
      ensures Valid() && -1 <= r < |peers|
      ensures r != -1 ==>
                && peers[r].address == address && peers[r].connected && !peers[r].banned
                && (!fastReconnect ==> peers[r].lastConnected == now % 0x10000)
      ensures r == -1 && clash != SelfConnection ==> peers == old(peers)
      ensures r != -1 ==>
                if |peers| == |old(peers)| then peers == old(peers)[r := peers[r]] && old(peers)[r].address == address
                else
                  && r <= |old(peers)| && peers == Inserted(old(peers), r, peers[r]) && peers[r].port == port && peers[r].source == {Incoming}
                  && !peers[r].connectable && peers[r].failcount == 0 && !peers[r].seed
      ensures tooMany ==> r == -1
      ensures r == -1 && !tooMany ==> |old(peers)| >= maxSize || Taken(old(peers), address)
    {
      if tooMany { return -1; }
      var i, found, upper := Find(address, port);
      if found {
        if peers[i].banned { return -1; }
        if peers[i].connected {
          if clash == NoEndpoint || clash == KeepOld { return -1; }
          ConnectionClosed(i, how, now);
          if clash == SelfConnection { return -1; }
        }
        Attach(i, now, fastReconnect);
      } else {
        if |peers| >= maxSize { return -1; }
        AttachNew(i, address, port, now, fastReconnect, inetAs, upper);
      }
      r := i;
    }

    method Attach(i: int, now: int, fastReconnect: bool)
      requires Valid() && 0 <= i < |peers|
      modifies this`peers, this`numCandidates
      ensures Valid() && peers == old(peers)[i := Attached(old(peers)[i], now, fastReconnect)]
    {
      OwnEndpoint(i);
      CountOne(peers, i, Kinds());
      hide Count, Sorted;
      if CanConnect(peers[i]) {
        numCandidates := AtLeastZero(numCandidates - 1);
      }
      Change(i, Attached(peers[i], now, fastReconnect));
    }

    /** The new entry is not connectable until it is connected. */
    method AttachNew(i: int, address: Address, port: int, now: int, fastReconnect: bool, inetAs: int, ghost upper: bool)
      requires Valid() && Bound(peers, address, i, upper)
      requires forall k :: 0 <= k < |peers| && peers[k].address == address ==> settings.allowMultiple && peers[k].port != port
      modifies this`peers, this`numCandidates, this`numSeeds, this`roundRobin
      ensures Valid() && 0 <= i < |peers| && peers[i].address == address && peers[i].connected && !peers[i].banned
      ensures !fastReconnect ==> peers[i].lastConnected == now % 0x10000
      ensures i <= |old(peers)| && peers == Inserted(old(peers), i, peers[i]) && peers[i].port == port && peers[i].source == {Incoming}
      ensures !peers[i].connectable && peers[i].failcount == 0 && !peers[i].seed
    {
      hide *;
      var p := Peer(address, port, false, false, false, false, 0, 0, {Incoming}, inetAs);
      ghost var all := peers;
      Insert(i, p, upper);
      InsertedAt(all, i, p);
      Attach(i, now, fastReconnect);
      AttachedIs(p, now, fastReconnect);
      InsertedAgain(all, i, p, Attached(p, now, fastReconnect));
    }

    /** A connected peer tells its listen port. Another peer that has the endpoint is
        forgotten, unless it is connected too: then this one is. */
    method UpdatePeerPort(i: int, port: int, src: set<Source>, how: Closing, now: int) returns (ok: bool, r: int, ghost other: int)
      requires Valid() && 0 <= i < |peers| && peers[i].connected && 0 <= port < 0x10000
      modifies this`peers, this`numCandidates, this`numSeeds, this`roundRobin
      ensures Valid() && -1 <= other < |old(peers)|
      ensures other != -1 ==>
                && other != i && settings.allowMultiple
                && old(peers)[other].address == old(peers)[i].address && old(peers)[other].port == port
      ensures ok <==> other == -1 || !old(peers)[other].connected
      ensures other == -1 ==> r == i && peers == old(peers)[i := Ported(old(peers)[i], port, src)]
      ensures ok && other != -1 ==>
                0 <= r < |old(peers)| - 1 && peers == Without(old(peers), other)[r := Ported(old(peers)[i], port, src)]
      ensures !ok ==> peers == Without(old(peers)[other := Met(old(peers)[other], src)], i)
      ensures ok ==>
                && 0 <= r < |peers| && peers[r].port == port && peers[r].address == old(peers)[i].address
                && peers[r].connected && peers[r].failcount == old(peers)[i].failcount
                && (old(peers)[i].port != port ==> peers[r].connectable && peers[r].source == old(peers)[i].source + src)
    {
      hide *;
      Parts();
      PortedIs(peers[i], port, src);
      ok, r, other := true, i, -1;
      PortedSame(peers[i], port, src);
      if peers[i].port == port { return; }
      if settings.allowMultiple {
        var j, found, upper := Find(peers[i].address, port);
        if found {
          other := j;
          NewPortFree(peers, i, j, port);
          if peers[j].connected {
            Meet(j, src);
            ConnectionClosed(i, how, now);
            ErasePeer(i);
            return false, -1, j;
          }
          ErasePeer(j);
          r := Shift(i, j);
        }
      }
      SetPort(r, port, src);
    }

    /** The peer is heard of again while it is connected. */
    method Meet(j: int, src: set<Source>)
      requires Valid() && 0 <= j < |peers| && peers[j].connected
      modifies this`peers
      ensures Valid() && peers == old(peers)[j := Met(old(peers)[j], src)]
    {
      OwnEndpoint(j);
      hide Count, Sorted;
      Change(j, Met(peers[j], src));
    }

    method SetPort(i: int, port: int, src: set<Source>)
      requires Valid() && 0 <= i < |peers|
      requires settings.allowMultiple ==> forall k :: 0 <= k < |peers| && k != i && peers[k].address == peers[i].address ==> peers[k].port != port
      modifies this`peers, this`numCandidates
      requires peers[i].port != port
      ensures Valid() && peers == old(peers)[i := Ported(old(peers)[i], port, src)]
    {
      var p := peers[i];
      CountOne(peers, i, Kinds());
      hide Count, Sorted;
      var was := CanConnect(p);
      Change(i, Ported(p, port, src));
      if was != CanConnect(peers[i]) {
        numCandidates := AtLeastZero(numCandidates + if was then -1 else 1);
      }
    }
  }

  /** A seed is heard of, the torrent finishes, and the peer turns out not to be a seed:
      it can be connected to, and the counter says that no peer can. */
  method SeedExample(settings: Settings) returns (p: Policy)
    requires settings.maxFailcount > 0 && settings.blockedPorts == {} && settings.blockedAddresses == {}
    ensures p.Listed() && p.finished && |p.peers| == 1 && p.CanConnect(p.peers[0]) && !p.Valid()
  {
    p := new Policy(settings);
    var r, known;
    ghost var left, kept;
    r, known, left, kept := p.AddPeer(1, 6881, {Tracker}, true, 0, 0, 0);
    assert p.peers == [NewPeer(1, 6881, true, {Tracker}, 0)];
    p.RecalculateCandidates(true);
    p.SetSeed(0, false);
  }

  // --------------------------------------------------------- records and lists

  /** A peer nothing is known about yet but where it is. */
  function NewPeer(address: Address, port: int, isSeed: bool, src: set<Source>, inetAs: int): Peer {
    Peer(address, port, false, true, false, isSeed, 0, 0, src, inetAs)
  }

  lemma NewPeerIs(address: Address, port: int, isSeed: bool, src: set<Source>, inetAs: int)
    ensures var p := NewPeer(address, port, isSeed, src, inetAs);
            && p.address == address && p.port == port && p.connectable && p.seed == isSeed
            && !p.connected && !p.banned && p.failcount == 0 && p.lastConnected == 0 && p.source == src
  {
  }

  function AtLeastZero(n: int): int {
    if n < 0 then 0 else n
  }

  function Closed(p: Peer, how: Closing, now: int): Peer {
    p.(connected := false, lastConnected := if how.fastReconnect then p.lastConnected else now % 0x10000,
       failcount := if how.failed && p.failcount < 31 then p.failcount + 1 else p.failcount)
  }

  /** The time of a connection is kept in sixteen bits. */
  function Stamped(p: Peer, now: int): Peer {
    p.(lastConnected := now % 0x10000)
  }

  lemma AttemptIs(p: Peer, now: int)
    ensures var q := Stamped(p, now);
            && q.lastConnected == now % 0x10000 && q.connected == p.connected && q.failcount == p.failcount
            && q.address == p.address && q.port == p.port && q.source == p.source
    ensures var q := Failed(Stamped(p, now));
            && q.lastConnected == now % 0x10000 && q.connected == p.connected
            && (p.failcount <= 31 ==> q.failcount == if p.failcount == 31 then 31 else p.failcount + 1)
            && q.address == p.address && q.port == p.port && q.source == p.source
  {
  }

  lemma FailcountAt(s: seq<Peer>, i: int)
    requires Failcounts(s) && 0 <= i < |s|
    ensures s[i].failcount <= 31
  {
  }

  function Failed(p: Peer): Peer {
    if p.failcount < 31 then p.(failcount := p.failcount + 1) else p
  }

  /** News of a peer: it can be connected to at this port, the source is added, a failure is
      forgiven if the news comes from a tracker alone, and a seed is not believed of a peer
      that is connected. */
  lemma HeardMeans(p: Peer, port: int, src: set<Source>, isSeed: bool)
    ensures var q := Heard(p, port, src, isSeed);
            && q.connectable && q.port == port && p.source <= q.source && src <= q.source && q.source <= p.source + src
            && (q.failcount == p.failcount || (q.failcount == p.failcount - 1 && Tracker in src && src <= {Tracker}))
            && (src == {Tracker} && p.failcount > 0 ==> q.failcount < p.failcount)
            && (p.connected ==> q.seed == p.seed) && (!p.connected ==> (q.seed <==> p.seed || isSeed))
            && q.address == p.address && q.connected == p.connected && q.banned == p.banned && q.lastConnected == p.lastConnected
  {
  }

  function Heard(p: Peer, port: int, src: set<Source>, isSeed: bool): Peer {
    p.(connectable := true, port := port, source := p.source + src,
       failcount := if p.failcount > 0 && src == {Tracker} then p.failcount - 1 else p.failcount,
       seed := p.seed || (isSeed && !p.connected))
  }

  function Met(p: Peer, src: set<Source>): Peer {
    p.(connectable := true, source := p.source + src)
  }

  lemma PortedIs(p: Peer, port: int, src: set<Source>)
    ensures var q := Ported(p, port, src);
            && q.port == port && q.address == p.address && q.connected == p.connected && q.failcount == p.failcount
            && (p.port != port ==> q.connectable && q.source == p.source + src)
  {
  }

  lemma PortedSame(p: Peer, port: int, src: set<Source>)
    ensures p.port == port ==> Ported(p, port, src) == p
  {
  }

  function Ported(p: Peer, port: int, src: set<Source>): Peer {
    if p.port == port then p else p.(port := port, source := p.source + src, connectable := true)
  }

  function Attached(p: Peer, now: int, fastReconnect: bool): Peer {
    p.(connected := true, lastConnected := if fastReconnect then p.lastConnected else now % 0x10000)
  }

  lemma AttachedIs(p: Peer, now: int, fastReconnect: bool)
    ensures var q := Attached(p, now, fastReconnect);
            && q.address == p.address && q.connected && q.banned == p.banned && (!fastReconnect ==> q.lastConnected == now % 0x10000)
            && q.port == p.port && q.source == p.source && q.connectable == p.connectable && q.failcount == p.failcount && q.seed == p.seed
  {
  }

  lemma InsertedAgain(s: seq<Peer>, i: int, p: Peer, q: Peer)
    requires 0 <= i <= |s|
    ensures |Inserted(s, i, p)| > i && Inserted(s, i, p)[i := q] == Inserted(s, i, q)
  {
  }

  /** Some peer at the address is banned or has a connection. */
  ghost predicate Taken(s: seq<Peer>, address: Address) {
    exists k :: 0 <= k < |s| && s[k].address == address && (s[k].banned || s[k].connected)
  }

  method CountAll(s: seq<Peer>, finished: bool, c: Settings) returns (n: int)
    ensures n == Count(s, Candidates(c, finished))
  {
    n := 0;
    for i := 0 to |s|
      invariant n == Count(s[..i], Candidates(c, finished))
    {
      assert s[..i + 1][..i] == s[..i];
      n := n + if IsConnectCandidate(s[i], finished, c) then 1 else 0;
    }
    assert s[..|s|] == s;
  }

  lemma CountOne(s: seq<Peer>, i: int, k: Kind)
    requires 0 <= i < |s|
    ensures Count(s, k) >= One(s[i], k)
  {
    CountErased(s, i, k);
  }

  lemma AtLeastZeroIs(n: int)
    ensures n >= 0 ==> AtLeastZero(n) == n
  {
  }

  lemma HeardIs(s: seq<Peer>, i: int, port: int, src: set<Source>, isSeed: bool)
    requires Failcounts(s) && 0 <= i < |s|
    ensures var p, q := s[i], Heard(s[i], port, src, isSeed);
            && q.address == p.address && q.port == port && q.seed == (p.seed || (isSeed && !p.connected))
            && Failcounts(s[i := q])
  {
  }

  lemma FailcountsErased(s: seq<Peer>, i: int)
    requires Failcounts(s) && 0 <= i < |s|
    ensures Failcounts(Without(s, i)) && |Without(s, i)| == |s| - 1
  {
  }

  lemma FailcountsInserted(s: seq<Peer>, i: int, p: Peer, upper: bool)
    requires Failcounts(s) && 0 <= p.failcount < 32 && Bound(s, p.address, i, upper)
    ensures 0 <= i <= |s| && Failcounts(Inserted(s, i, p)) && |Inserted(s, i, p)| == |s| + 1
  {
  }

  lemma KeepAll(all: seq<Peer>, finished: bool, c: Settings)
    ensures Picks(all, Identity(|all|), all) && DroppedOk(all, Identity(|all|), finished, c)
  {
    hide Count, Identity;
    WeededStart(all, finished, c);
  }

  lemma WeededIs(all: seq<Peer>, kept: seq<int>, s: seq<Peer>, seeds: int, finished: bool, c: Settings)
    requires Weeded(all, kept, s, seeds, finished, c)
    ensures Picks(all, kept, s) && DroppedOk(all, kept, finished, c)
    ensures seeds == Count(s, Seeds) && Count(s, Candidates(c, finished)) == Count(all, Candidates(c, finished))
  {
    hide Picks, DroppedOk, Count;
  }

  lemma InsertedAt(s: seq<Peer>, i: int, p: Peer)
    requires 0 <= i <= |s|
    ensures |Inserted(s, i, p)| == |s| + 1 && Inserted(s, i, p)[i] == p
  {
  }

  lemma PicksFailcounts(all: seq<Peer>, kept: seq<int>, s: seq<Peer>)
    requires Picks(all, kept, s) && Failcounts(all)
    ensures Failcounts(s)
  {
  }

  lemma FoundGood(all: seq<Peer>, start: int, x: Context, s: seq<Peer>, kept: seq<int>, r: int)
    requires Found(all, start, x, s, kept, r)
    ensures 0 <= r <= |s| && Picks(all, kept, s)
    ensures r < |s| ==> Eligible(s[r], x.now, x.view.finished, x.view.settings)
  {
  }

  lemma NobodyInReach(all: seq<Peer>, start: int, x: Context)
    requires all == []
    ensures NoneInReach(all, start, x)
  {
  }

  lemma StartIs(roundRobin: int, n: int)
    requires 0 <= roundRobin && n > 0
    ensures 0 <= (if roundRobin >= n then 0 else roundRobin) < n
  {
  }

  lemma SideOf(s: seq<Peer>, a: Address, lo: int, hi: int, k: int)
    requires Bound(s, a, lo, false) && Bound(s, a, hi, true) && 0 <= k < |s|
    ensures (k < lo ==> s[k].address < a) && (hi <= k ==> a < s[k].address)
  {
  }

  /** The two bounds of an address enclose exactly the peers that have it. */
  lemma Ends(s: seq<Peer>, a: Address, lo: int, hi: int)
    requires Bound(s, a, lo, false) && Bound(s, a, hi, true)
    ensures lo <= hi && forall k :: 0 <= k < |s| ==> (s[k].address == a <==> lo <= k < hi)
  {
    if hi < |s| { SideOf(s, a, lo, hi, hi); }
  }

  /** Forgetting peers adds no endpoint. */
  lemma StillNew(all: seq<Peer>, kept: seq<int>, s: seq<Peer>, address: Address, port: int, multiple: bool)
    requires Picks(all, kept, s)
    requires forall k :: 0 <= k < |all| && all[k].address == address ==> multiple && all[k].port != port
    ensures forall k :: 0 <= k < |s| && s[k].address == address ==> multiple && s[k].port != port
  {
  }

  /** Once the peer that has the endpoint is gone, the endpoint is free. */
  lemma NewPortFree(s: seq<Peer>, i: int, j: int, port: int)
    requires Sorted(s, true) && 0 <= i < |s| && 0 <= j < |s| && s[j].address == s[i].address && s[j].port == port && s[i].port != port
    ensures i != j && 0 <= Shift(i, j) < |s| - 1 && Without(s, j)[Shift(i, j)] == s[i]
    ensures var t := Without(s, j);
            forall k :: 0 <= k < |t| && t[k].address == s[i].address ==> t[k].port != port
  {
    var t := Without(s, j);
    forall k | 0 <= k < |t| && t[k].address == s[i].address ensures t[k].port != port {
      var o := if k < j then k else k + 1;
      assert t[k] == s[o];
      if o < j { assert Before(s[o], s[j], true); } else { assert Before(s[j], s[o], true); }
    }
  }
}
