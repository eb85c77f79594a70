/** Whole runs of peer list events. */
module PeerRuns {
  import opened PeerTypes
  import opened PeerScan
  import opened PeerList

  datatype Event =
    | Add(address: Address, port: int, src: set<Source>, isSeed: bool, maxSize: int, start: int, inetAs: int)
    | Incoming(address: Address, port: int, now: int, tooMany: bool, maxSize: int, fastReconnect: bool, clash: Clash, how: Closing, inetAs: int)
    | Connect(now: int, maxSize: int, hasAsDb: bool, distance: Address -> int, connects: bool)
    | Close(peer: int, how: Closing, now: int)
    | Port(peer: int, port: int, src: set<Source>, how: Closing, now: int)
    | Seed(peer: int, seed: bool)
    | Ban(peer: int)
    | Failcount(peer: int, count: int)
    | Erase(peer: int)
    | Pulse(start: int, maxSize: int)
    | Finished(isFinished: bool)

  /** Callers only speak of peers in the list, and of connections there are. A seed
      mark is not taken off a peer that is not connected. */
  predicate Allowed(p: Policy, e: Event)
    reads p`peers
  {
    match e
    case Add(_, _, _, _, _, start, _) => p.peers != [] ==> 0 <= start < |p.peers|
    case Close(i, _, _) => 0 <= i < |p.peers| && p.peers[i].connected
    case Port(i, port, _, _, _) => 0 <= i < |p.peers| && p.peers[i].connected && 0 <= port < 0x10000
    case Seed(i, seed) => 0 <= i < |p.peers| && (seed || p.peers[i].connected)
    case Ban(i) => 0 <= i < |p.peers|
    case Failcount(i, _) => 0 <= i < |p.peers|
    case Erase(i) => 0 <= i < |p.peers|
    case Pulse(start, _) => p.peers != [] ==> 0 <= start < |p.peers|
    case _ => true
  }

  method Perform(p: Policy, e: Event)
    requires p.Valid() && Allowed(p, e)
    modifies p
    ensures p.Valid()
  {
    hide Policy.Valid, Policy.Listed;
    match e {
      case Add(address, port, src, isSeed, maxSize, start, inetAs) =>
        var _, _, _, _ := p.AddPeer(address, port, src, isSeed, maxSize, start, inetAs);
      case Incoming(address, port, now, tooMany, maxSize, fastReconnect, clash, how, inetAs) =>
        var _ := p.NewConnection(address, port, now, tooMany, maxSize, fastReconnect, clash, how, inetAs);
      case Connect(now, maxSize, hasAsDb, distance, connects) =>
        var _, _, _, _ := p.ConnectOnePeer(now, maxSize, hasAsDb, distance, connects);
      case Close(i, how, now) => p.ConnectionClosed(i, how, now);
      case Port(i, port, src, how, now) =>
        var _, _, _ := p.UpdatePeerPort(i, port, src, how, now);
      case Seed(i, seed) => p.SetSeed(i, seed);
      case Ban(i) => p.BanPeer(i);
      case Failcount(i, count) => p.SetFailcount(i, count);
      case Erase(i) => p.ErasePeer(i);
      case Pulse(start, maxSize) =>
        ghost var _, _, _ := p.ErasePeers(start, maxSize);
      case Finished(isFinished) => p.RecalculateCandidates(isFinished);
    }
  }

  /** After any sequence of events the candidate counter is the number of connect
      candidates, the seed counter that of seeds, and the list sorted. */
  method Run(settings: Settings, events: seq<Event>) returns (p: Policy)
    ensures p.Valid() && fresh(p) && p.settings == settings
  {
    p := new Policy(settings);
    for n := 0 to |events|
      invariant p.Valid() && fresh(p)
    {
      if Allowed(p, events[n]) {
        Perform(p, events[n]);
      }
    }
  }
}
