/** The peers of a torrent, which of them to connect to, and which to forget. */
module PeerTypes {
  import opened Lists

  datatype Source = Tracker | Dht | Pex | Lsd | ResumeData | Incoming

  type Address = int

  datatype Peer = Peer(address: Address, port: int, connected: bool, connectable: bool, banned: bool, seed: bool,
                       failcount: int, lastConnected: int, source: set<Source>, inetAs: int)

  datatype Settings = Settings(maxFailcount: int, minReconnectTime: int, allowMultiple: bool,
                               blockedPorts: set<int>, blockedAddresses: set<Address>, localAddresses: set<Address>)

  // ------------------------------------------------------------- candidates

  predicate IsConnectCandidate(p: Peer, finished: bool, c: Settings) {
    && !p.connected && !p.banned && p.connectable && !(p.seed && finished) && p.failcount < c.maxFailcount
    && p.port !in c.blockedPorts
    && !(p.port < 1024 && p.source == {Dht})
  }

  predicate ShouldEraseImmediately(p: Peer) {
    p.source == {ResumeData} && p.failcount > 0 && !p.banned
  }

  predicate IsEraseCandidate(p: Peer, finished: bool, c: Settings) {
    !p.connected && p.lastConnected != 0 && !p.banned && !IsConnectCandidate(p, finished, c)
  }

  /** The wait after the last connection, longer with every failure, is over. */
  predicate BackOffElapsed(p: Peer, now: int, c: Settings) {
    p.lastConnected == 0 || now - p.lastConnected >= (p.failcount + 1) * c.minReconnectTime
  }

  predicate Eligible(p: Peer, now: int, finished: bool, c: Settings) {
    IsConnectCandidate(p, finished, c) && BackOffElapsed(p, now, c)
  }

  // ------------------------------------------------------------------ orders

  function SourceRank(s: set<Source>): int {
    (if Tracker in s then 32 else 0) + (if Lsd in s then 16 else 0) + (if Dht in s then 8 else 0) + if Pex in s then 4 else 0
  }

  /** What the comparison of connect candidates depends on besides the peers. */
  datatype View = View(settings: Settings, finished: bool, hasAsDb: bool, distance: Address -> int)

  /** `a` is a better connect candidate than `b`. */
  predicate ComparePeer(a: Peer, b: Peer, v: View) {
    if a.failcount != b.failcount then a.failcount < b.failcount
    else if (a.address in v.settings.localAddresses) != (b.address in v.settings.localAddresses) then
      a.address in v.settings.localAddresses
    else if a.lastConnected != b.lastConnected then a.lastConnected < b.lastConnected
    else if SourceRank(a.source) != SourceRank(b.source) then SourceRank(a.source) > SourceRank(b.source)
    else if !v.finished && v.hasAsDb && a.inetAs != b.inetAs then a.inetAs > b.inetAs
    else v.distance(a.address) < v.distance(b.address)
  }

  /** The comparison is a strict weak order: better is transitive, nothing is
      better than itself, and so is being no better. */
  lemma ComparePeerOrder(a: Peer, b: Peer, c: Peer, v: View)
    ensures !ComparePeer(a, a, v)
    ensures ComparePeer(a, b, v) && ComparePeer(b, c, v) ==> ComparePeer(a, c, v)
    ensures !ComparePeer(a, b, v) && !ComparePeer(b, c, v) ==> !ComparePeer(a, c, v)
  {
  }

  /** Trackers count most, then the local network, then the DHT, then other peers. */
  ghost predicate SourcesNoWorse(s: set<Source>, t: set<Source>) {
    if (Tracker in s) != (Tracker in t) then Tracker in s
    else if (Lsd in s) != (Lsd in t) then Lsd in s
    else if (Dht in s) != (Dht in t) then Dht in s
    else Pex in t ==> Pex in s
  }

  ghost predicate SourcesAlike(s: set<Source>, t: set<Source>) {
    forall source | source in {Tracker, Lsd, Dht, Pex} :: source in s <==> source in t
  }

  /** What it means that `p` is no worse to connect to than `q`: no more failures; among
      those with as many, a local one if there is one; then the longer wait; then the
      sources; then, while downloading, the autonomous system; then the distance. */
  ghost predicate NoWorse(p: Peer, q: Peer, v: View) {
    && p.failcount <= q.failcount
    && (p.failcount == q.failcount ==>
          && (q.address in v.settings.localAddresses ==> p.address in v.settings.localAddresses)
          && ((p.address in v.settings.localAddresses <==> q.address in v.settings.localAddresses) ==>
                p.lastConnected <= q.lastConnected && (p.lastConnected == q.lastConnected ==> NoWorseKnown(p, q, v))))
  }

  ghost predicate NoWorseKnown(p: Peer, q: Peer, v: View) {
    && SourcesNoWorse(p.source, q.source)
    && (SourcesAlike(p.source, q.source) ==>
          && (!v.finished && v.hasAsDb ==> p.inetAs >= q.inetAs)
          && (v.finished || !v.hasAsDb || p.inetAs == q.inetAs ==> v.distance(p.address) <= v.distance(q.address)))
  }

  lemma SourceRankMeans(s: set<Source>, t: set<Source>)
    ensures SourceRank(s) >= SourceRank(t) <==> SourcesNoWorse(s, t)
    ensures SourceRank(s) == SourceRank(t) <==> SourcesAlike(s, t)
  {
  }

  /** The comparison means just that. */
  lemma ComparePeerMeans(p: Peer, q: Peer, v: View)
    ensures !ComparePeer(q, p, v) <==> NoWorse(p, q, v)
  {
    SourceRankMeans(p.source, q.source);
    hide SourceRank, SourcesNoWorse, SourcesAlike;
  }

  /** What makes a peer one to connect to, and one to forget. */
  lemma EligibleMeans(p: Peer, now: int, finished: bool, c: Settings)
    ensures Eligible(p, now, finished, c) <==>
              && !p.connected && !p.banned && p.connectable && (p.seed ==> !finished) && p.failcount < c.maxFailcount
              && p.port !in c.blockedPorts && (p.port >= 1024 || p.source != {Dht})
              && (p.lastConnected == 0 || now >= p.lastConnected + (p.failcount + 1) * c.minReconnectTime)
    ensures IsEraseCandidate(p, finished, c) <==>
              && !p.connected && p.lastConnected != 0 && !p.banned
              && (!p.connectable || (p.seed && finished) || p.failcount >= c.maxFailcount || p.port in c.blockedPorts
                  || (p.port < 1024 && p.source == {Dht}))
  {
  }

  /** What it means that `p` goes before `q` can: the only source of `p` is resume data if
      that of `q` is, and with both or neither so it failed at least as often. */
  ghost predicate ForgottenFirst(p: Peer, q: Peer) {
    && (q.source == {ResumeData} ==> p.source == {ResumeData})
    && ((q.source == {ResumeData} <==> p.source == {ResumeData}) ==> p.failcount >= q.failcount)
  }

  lemma CompareEraseMeans(p: Peer, q: Peer)
    ensures !ComparePeerErase(q, p) <==> ForgottenFirst(p, q)
  {
  }

  lemma ForgottenFirstTrans(p: Peer, q: Peer, r: Peer)
    ensures ForgottenFirst(p, p)
    ensures ForgottenFirst(p, q) && ForgottenFirst(q, r) ==> ForgottenFirst(p, r)
    ensures ForgottenFirst(p, q) || ForgottenFirst(q, p)
  {
  }

  /** `a` is a better peer to forget than `b`. */
  predicate ComparePeerErase(a: Peer, b: Peer) {
    if (a.source == {ResumeData}) != (b.source == {ResumeData}) then a.source == {ResumeData}
    else a.failcount > b.failcount
  }

  // ---------------------------------------------------------------- counting

  /** What the policy counts. */
  datatype Kind = Candidates(settings: Settings, finished: bool) | Seeds

  predicate Is(p: Peer, k: Kind) {
    match k
    case Candidates(settings, finished) => IsConnectCandidate(p, finished, settings)
    case Seeds => p.seed
  }

  function One(p: Peer, k: Kind): nat {
    if Is(p, k) then 1 else 0
  }

  function Count(s: seq<Peer>, k: Kind): nat {
    if |s| == 0 then 0 else Count(s[..|s| - 1], k) + One(s[|s| - 1], k)
  }

  lemma {:induction false} CountConcat(a: seq<Peer>, b: seq<Peer>, k: Kind)
    ensures Count(a + b, k) == Count(a, k) + Count(b, k)
  {
    if |b| == 0 {
      assert a + b == a;
    } else {
      CountConcat(a, b[..|b| - 1], k);
      assert (a + b)[..|a + b| - 1] == a + b[..|b| - 1];
    }
  }

  lemma CountSplit(a: seq<Peer>, p: Peer, b: seq<Peer>, k: Kind)
    ensures Count(a + [p] + b, k) == Count(a, k) + One(p, k) + Count(b, k)
  {
    CountConcat(a + [p], b, k);
    CountConcat(a, [p], k);
    assert [p][..0] == [];
  }

  function Inserted(s: seq<Peer>, i: int, p: Peer): (r: seq<Peer>)
    requires 0 <= i <= |s|
    ensures |r| == |s| + 1 && forall k :: 0 <= k < |r| ==> r[k] == if k < i then s[k] else if k == i then p else s[k - 1]
  {
    s[..i] + [p] + s[i..]
  }

  lemma CountErased(s: seq<Peer>, i: int, k: Kind)
    requires 0 <= i < |s|
    ensures Count(Without(s, i), k) == Count(s, k) - One(s[i], k)
  {
    assert s == s[..i] + [s[i]] + s[i + 1..];
    CountSplit(s[..i], s[i], s[i + 1..], k);
    CountConcat(s[..i], s[i + 1..], k);
  }

  lemma CountInserted(s: seq<Peer>, i: int, p: Peer, k: Kind)
    requires 0 <= i <= |s|
    ensures Count(Inserted(s, i, p), k) == Count(s, k) + One(p, k)
  {
    assert s == s[..i] + s[i..];
    CountSplit(s[..i], p, s[i..], k);
    CountConcat(s[..i], s[i..], k);
  }

  lemma CountUpdated(s: seq<Peer>, i: int, p: Peer, k: Kind)
    requires 0 <= i < |s|
    ensures Count(s[i := p], k) == Count(s, k) - One(s[i], k) + One(p, k)
  {
    assert s == s[..i] + [s[i]] + s[i + 1..];
    assert s[i := p] == s[..i] + [p] + s[i + 1..];
    CountSplit(s[..i], s[i], s[i + 1..], k);
    CountSplit(s[..i], p, s[i + 1..], k);
  }

  // ------------------------------------------------------------------- order

  /** The list is sorted by address. An address is there once, or, when several
      connections to an address are allowed, an endpoint is there once. */
  ghost predicate Sorted(s: seq<Peer>, multiple: bool) {
    forall i, j :: 0 <= i < j < |s| ==> Before(s[i], s[j], multiple)
  }

  ghost predicate Before(a: Peer, b: Peer, multiple: bool) {
    if multiple then a.address <= b.address && !(a.address == b.address && a.port == b.port)
    else a.address < b.address
  }

  lemma SortedErased(s: seq<Peer>, i: int, multiple: bool)
    requires Sorted(s, multiple) && 0 <= i < |s|
    ensures Sorted(Without(s, i), multiple)
  {
  }

  /** `lower_bound` and `upper_bound` of an address. */
  ghost predicate Bound(s: seq<Peer>, a: Address, i: int, upper: bool) {
    && 0 <= i <= |s|
    && (forall k :: 0 <= k < i ==> if upper then s[k].address <= a else s[k].address < a)
    && (forall k :: i <= k < |s| ==> if upper then a < s[k].address else a <= s[k].address)
  }

  lemma SortedInserted(s: seq<Peer>, i: int, p: Peer, multiple: bool, upper: bool)
    requires Sorted(s, multiple) && Bound(s, p.address, i, upper)
    requires forall k :: 0 <= k < |s| && s[k].address == p.address ==> multiple && s[k].port != p.port
    ensures Sorted(Inserted(s, i, p), multiple)
  {
  }

  lemma SortedUpdated(s: seq<Peer>, i: int, p: Peer, multiple: bool)
    requires Sorted(s, multiple) && 0 <= i < |s| && p.address == s[i].address
    requires multiple ==> forall k :: 0 <= k < |s| && k != i && s[k].address == p.address ==> s[k].port != p.port
    ensures Sorted(s[i := p], multiple)
  {
  }

  method LowerBound(s: seq<Peer>, a: Address, multiple: bool) returns (i: int)
    requires Sorted(s, multiple)
    ensures Bound(s, a, i, false)
  {
    i := 0;
    var len := |s|;
    while len > 0
      invariant 0 <= i && 0 <= len && i + len <= |s|
      invariant (forall k :: 0 <= k < i ==> s[k].address < a) && forall k :: i + len <= k < |s| ==> a <= s[k].address
    {
      var half := len / 2;
      Middle(s, i + half, multiple);
      if s[i + half].address < a {
        i, len := i + half + 1, len - half - 1;
      } else {
        len := half;
      }
    }
  }

  method UpperBound(s: seq<Peer>, a: Address, multiple: bool) returns (i: int)
    requires Sorted(s, multiple)
    ensures Bound(s, a, i, true)
  {
    i := 0;
    var len := |s|;
    while len > 0
      invariant 0 <= i && 0 <= len && i + len <= |s|
      invariant (forall k :: 0 <= k < i ==> s[k].address <= a) && forall k :: i + len <= k < |s| ==> a < s[k].address
    {
      var half := len / 2;
      Middle(s, i + half, multiple);
      if a < s[i + half].address {
        len := half;
      } else {
        i, len := i + half + 1, len - half - 1;
      }
    }
  }

  lemma Middle(s: seq<Peer>, m: int, multiple: bool)
    requires Sorted(s, multiple) && 0 <= m < |s|
    ensures (forall k :: 0 <= k <= m ==> s[k].address <= s[m].address) && forall k :: m <= k < |s| ==> s[m].address <= s[k].address
  {
  }
}
