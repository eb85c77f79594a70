/** The search for the synchronisation pattern of the encrypted handshake, in a
    stream that arrives in pieces of any size. The pattern is 20 bytes (a hash) or
    8 bytes (the verification constant). */
module SyncSearch {

  type Bytes = seq<int>

  const HANDSHAKE_LEN := 68
  const SEARCH_LIMIT := 512

  ghost predicate MatchAt(pattern: Bytes, stream: Bytes, i: int) {
    0 <= i && i + |pattern| <= |stream| && stream[i..i + |pattern|] == pattern
  }

  /** No match starts in `from..upto`. */
  ghost predicate NoMatch(pattern: Bytes, stream: Bytes, from: int, upto: int) {
    forall i :: from <= i < upto ==> !MatchAt(pattern, stream, i)
  }

  /** Compares the pattern with the bytes at one offset; `compared` records every offset
      a comparison was made at. */
  method Compare(src: Bytes, target: Bytes, i: int, ghost compared: seq<int>) returns (equal: bool, ghost compared': seq<int>)
    requires 0 <= i && i + |src| <= |target|
    ensures equal <==> MatchAt(src, target, i)
    ensures compared' == compared + [i]
  {
    equal, compared' := target[i..i + |src|] == src, compared + [i];
  }

  /** The offsets `0..n`, each once and in ascending order. */
  ghost predicate InOrder(offsets: seq<int>, n: int) {
    |offsets| == n && forall k :: 0 <= k < n ==> offsets[k] == k
  }

  /** The first position in `target` at which `src` starts and is followed by at
      least one more byte, or `-1`. Offsets are compared in ascending order, each once,
      and none beyond the match. */
  method GetSyncOffset(src: Bytes, target: Bytes) returns (r: int, ghost compared: seq<int>)
    requires 0 < |src| <= |target|
    ensures -1 <= r < |target| - |src|
    ensures if r == -1 then NoMatch(src, target, 0, |target| - |src|) else MatchAt(src, target, r) && NoMatch(src, target, 0, r)
    ensures InOrder(compared, if r == -1 then |target| - |src| else r + 1)
  {
    var limit := |target| - |src|;
    r, compared := 0, [];
    while r < limit
      invariant 0 <= r <= limit && NoMatch(src, target, 0, r) && InOrder(compared, r)
    {
      var equal;
      equal, compared := Compare(src, target, r, compared);
      if equal { return; }
      r := r + 1;
    }
    r := -1;
  }

  datatype Status = Searching | Found(offset: int) | Disconnected

  /** The first of the offsets `0..511` at which the pattern is, with a byte after it. */
  ghost predicate FirstAt(pattern: Bytes, stream: Bytes, f: int) {
    0 <= f < SEARCH_LIMIT && f + |pattern| < |stream| && MatchAt(pattern, stream, f) && NoMatch(pattern, stream, 0, f)
  }

  /** What the stream alone, however it was cut up, has to lead to. */
  ghost function Verdict(pattern: Bytes, stream: Bytes): Status {
    if exists f :: FirstAt(pattern, stream, f) then var f :| FirstAt(pattern, stream, f); Found(f)
    else if |stream| >= SEARCH_LIMIT + |pattern| then Disconnected
    else Searching
  }

  lemma FirstIsUnique(pattern: Bytes, stream: Bytes, f: int, g: int)
    requires FirstAt(pattern, stream, f) && FirstAt(pattern, stream, g)
    ensures f == g
  {
  }

  lemma VerdictFound(pattern: Bytes, stream: Bytes, f: int)
    requires FirstAt(pattern, stream, f)
    ensures Verdict(pattern, stream) == Found(f)
  {
    var g := Verdict(pattern, stream).offset;
    FirstIsUnique(pattern, stream, f, g);
  }

  /** Nothing is found in a stream all of whose offsets, up to the limit, were tested in vain. */
  lemma VerdictNone(pattern: Bytes, stream: Bytes, read: int)
    requires NoMatch(pattern, stream, 0, read) && (read >= SEARCH_LIMIT || |stream| <= read + |pattern|)
    ensures Verdict(pattern, stream) == if |stream| >= SEARCH_LIMIT + |pattern| then Disconnected else Searching
  {
    forall f ensures !FirstAt(pattern, stream, f) { NotFirst(pattern, stream, read, f); }
  }

  lemma NotFirst(pattern: Bytes, stream: Bytes, read: int, f: int)
    requires NoMatch(pattern, stream, 0, read) && (read >= SEARCH_LIMIT || |stream| <= read + |pattern|)
    ensures !FirstAt(pattern, stream, f)
  {
  }

  /** A match in the tail of a stream is one in the stream. */
  lemma Shifted(pattern: Bytes, stream: Bytes, at: int, i: int)
    requires 0 <= at <= |stream| && 0 <= i
    ensures MatchAt(pattern, stream[at..], i) <==> MatchAt(pattern, stream, at + i)
  {
    if i + |pattern| <= |stream| - at {
      assert stream[at..][i..i + |pattern|] == stream[at + i..at + i + |pattern|];
    }
  }

  /** What more bytes add does not touch the matches before. */
  lemma Extended(pattern: Bytes, stream: Bytes, more: Bytes, i: int)
    requires i + |pattern| <= |stream|
    ensures MatchAt(pattern, stream + more, i) <==> MatchAt(pattern, stream, i)
  {
    if 0 <= i { assert (stream + more)[i..i + |pattern|] == stream[i..i + |pattern|]; }
  }

  lemma NoMatchExtended(pattern: Bytes, stream: Bytes, more: Bytes, upto: int)
    requires NoMatch(pattern, stream, 0, upto) && (upto == 0 || upto + |pattern| <= |stream| + 1)
    ensures NoMatch(pattern, stream + more, 0, upto)
  {
    forall i | 0 <= i < upto ensures !MatchAt(pattern, stream + more, i) { Extended(pattern, stream, more, i); }
  }

  lemma NoMatchJoined(pattern: Bytes, stream: Bytes, read: int, n: int)
    requires 0 <= read <= |stream| && NoMatch(pattern, stream, 0, read) && NoMatch(pattern, stream[read..], 0, n)
    ensures NoMatch(pattern, stream, 0, read + n)
  {
    forall i | 0 <= i < read + n ensures !MatchAt(pattern, stream, i) {
      if i >= read { Shifted(pattern, stream, read, i - read); }
    }
  }

  // -------------------------------------------------------------- the search

  /** Before anything was tested a whole pattern is not there yet, afterwards exactly
      as much as a pattern is kept. */
  ghost predicate Open(pattern: Bytes, stream: Bytes, read: int, buffer: Bytes) {
    && 0 <= read < SEARCH_LIMIT && read <= |stream| && buffer == stream[read..]
    && NoMatch(pattern, stream, 0, read)
    && |buffer| <= |pattern| && (read > 0 ==> |buffer| == |pattern|)
  }

  ghost predicate Sound(pattern: Bytes, stream: Bytes, status: Status, read: int, buffer: Bytes, tested: seq<int>) {
    && status == Verdict(pattern, stream)
    && match status {
         case Searching => Open(pattern, stream, read, buffer) && InOrder(tested, read)
         case Found(f) => FirstAt(pattern, stream, f) && InOrder(tested, f + 1) && buffer == stream[f + |pattern|..]
         case Disconnected =>
           && read == SEARCH_LIMIT && InOrder(tested, SEARCH_LIMIT) && |stream| == SEARCH_LIMIT + |pattern|
           && NoMatch(pattern, stream, 0, SEARCH_LIMIT)
       }
  }

  /** The bytes received come after those kept. */
  lemma Arrives(pattern: Bytes, stream: Bytes, read: int, buffer: Bytes, data: Bytes)
    requires |pattern| > 0 && Open(pattern, stream, read, buffer)
    ensures 0 <= read <= |stream + data| && buffer + data == (stream + data)[read..] && NoMatch(pattern, stream + data, 0, read)
  {
    NoMatchExtended(pattern, stream, data, read);
    assert buffer + data == (stream + data)[read..];
  }

  lemma TooShort(pattern: Bytes, stream: Bytes, read: int, buffer: Bytes, tested: seq<int>)
    requires 0 <= read < SEARCH_LIMIT && read <= |stream| && buffer == stream[read..] && NoMatch(pattern, stream, 0, read)
    requires |buffer| < |pattern| && read == 0 && InOrder(tested, read)
    ensures Sound(pattern, stream, Searching, read, buffer, tested)
  {
    VerdictNone(pattern, stream, read);
  }

  lemma Missed(pattern: Bytes, stream: Bytes, read: int, buffer: Bytes, tested: seq<int>)
    requires 0 <= read && read <= |stream| && buffer == stream[read..] && NoMatch(pattern, stream, 0, read)
    requires |pattern| <= |buffer| && |stream| <= SEARCH_LIMIT + |pattern| && NoMatch(pattern, buffer, 0, |buffer| - |pattern|)
    requires InOrder(tested, read + |buffer| - |pattern|)
    ensures var n := |buffer| - |pattern|;
            Sound(pattern, stream, if read + n >= SEARCH_LIMIT then Disconnected else Searching, read + n, buffer[n..], tested)
  {
    var n := |buffer| - |pattern|;
    NoMatchJoined(pattern, stream, read, n);
    VerdictNone(pattern, stream, read + n);
    assert buffer[n..] == stream[read + n..];
  }

  lemma Hit(pattern: Bytes, stream: Bytes, read: int, buffer: Bytes, tested: seq<int>, offset: int)
    requires 0 <= read && read <= |stream| && buffer == stream[read..] && NoMatch(pattern, stream, 0, read)
    requires 0 <= offset < |buffer| - |pattern| && |stream| <= SEARCH_LIMIT + |pattern|
    requires MatchAt(pattern, buffer, offset) && NoMatch(pattern, buffer, 0, offset) && InOrder(tested, read + offset + 1)
    ensures Sound(pattern, stream, Found(read + offset), read, buffer[offset + |pattern|..], tested)
  {
    NoMatchJoined(pattern, stream, read, offset);
    Shifted(pattern, stream, read, offset);
    VerdictFound(pattern, stream, read + offset);
    assert buffer[offset + |pattern|..] == stream[read + offset + |pattern|..];
  }

  /** Offsets in the buffer, as offsets in the stream. */
  ghost function InStream(compared: seq<int>, read: int): seq<int> {
    seq(|compared|, k requires 0 <= k < |compared| => read + compared[k])
  }

  lemma InOrderJoined(tested: seq<int>, read: int, compared: seq<int>, n: int)
    requires InOrder(tested, read) && InOrder(compared, n)
    ensures InOrder(tested + InStream(compared, read), read + n)
    ensures tested <= tested + InStream(compared, read)
  {
  }

  /** What is done with a buffer that has room for the pattern. */
  method Look(pattern: Bytes, read: int, buffer: Bytes, packetSize: int, ghost stream: Bytes, ghost tested: seq<int>)
    returns (status: Status, read': int, buffer': Bytes, packetSize': int, ghost tested': seq<int>)
    requires 0 < |pattern| <= |buffer| && 0 <= read <= |stream| <= SEARCH_LIMIT + |pattern| && buffer == stream[read..]
    requires NoMatch(pattern, stream, 0, read) && InOrder(tested, read)
    ensures Sound(pattern, stream, status, read', buffer', tested') && tested <= tested'
    ensures status == Searching ==>
              && read <= read' < SEARCH_LIMIT && |buffer'| == |pattern|
              && packetSize' == if packetSize < SEARCH_LIMIT + |pattern| - read' then packetSize else SEARCH_LIMIT + |pattern| - read'
  {
    hide *;
    var L := |pattern|;
    var offset;
    ghost var compared;
    offset, compared := GetSyncOffset(pattern, buffer);
    InOrderJoined(tested, read, compared, if offset == -1 then |buffer| - L else offset + 1);
    tested' := tested + InStream(compared, read);
    if offset == -1 {
      Missed(pattern, stream, read, buffer, tested');
      read' := read + |buffer| - L;
      buffer' := buffer[|buffer| - L..];
      status := if read' >= SEARCH_LIMIT then Disconnected else Searching;
      packetSize' := if packetSize < SEARCH_LIMIT + L - read' then packetSize else SEARCH_LIMIT + L - read';
    } else {
      Hit(pattern, stream, read, buffer, tested', offset);
      status, read' := Found(read + offset), read;
      buffer' := buffer[offset + L..];
      packetSize' := if L == 20 then 28 else 6;
    }
  }

  class Search {
    const pattern: Bytes
    const initialSize: int
    var status: Status
    var buffer: Bytes
    var packetSize: int
    var syncBytesRead: int
    /** Everything received, and the stream offsets compared with the pattern, in order. */
    ghost var stream: Bytes
    ghost var tested: seq<int>

    ghost predicate Valid()
      reads this
    {
      && |pattern| > 0 && initialSize > |pattern|
      && Sound(pattern, stream, status, syncBytesRead, buffer, tested)
      && (status == Searching ==> packetSize == PacketSize(syncBytesRead))
    }

    function PacketSize(read: int): int {
      if initialSize < SEARCH_LIMIT + |pattern| - read then initialSize else SEARCH_LIMIT + |pattern| - read
    }

    /** `hash` for the 20-byte pattern, otherwise the 8-byte one. */
    constructor (pattern: Bytes, hash: bool)
      requires |pattern| == if hash then 20 else 8
      ensures Valid() && status == Searching && stream == [] && this.pattern == pattern
    {
      this.pattern := pattern;
      this.initialSize := if hash then 20 + 20 + 8 + 4 + 2 + 0 + HANDSHAKE_LEN else 8 + 4 + 2 + 0 + HANDSHAKE_LEN;
      status, buffer, syncBytesRead, stream, tested := Searching, [], 0, [], [];
      packetSize := if hash then 20 + 20 + 8 + 4 + 2 + 0 + HANDSHAKE_LEN else 8 + 4 + 2 + 0 + HANDSHAKE_LEN;
      new;
      VerdictNone(pattern, [], 0);
    }

    /** Some bytes arrive, no more than the packet has room for. The new status is what
        the whole stream leads to; each offset of the stream is compared once, in order,
        and a search that goes on has room for more. */
    method Receive(data: Bytes)
      requires Valid() && status == Searching && |data| > 0 && |buffer| + |data| <= packetSize
      modifies this
      ensures Valid() && stream == old(stream) + data && old(tested) <= tested
      ensures status == Searching ==> |buffer| < packetSize
    {
      hide *;
      Parts();
      SearchingIs(pattern, stream, syncBytesRead, buffer, tested);
      Arrives(pattern, stream, syncBytesRead, buffer, data);
      ghost var stream', tested' := stream + data, tested;
      var status', read', buffer', packetSize' := status, syncBytesRead, buffer + data, packetSize;
      if |buffer'| < |pattern| {
        TooShort(pattern, stream', read', buffer', tested);
        // a packet has room for more than a pattern, so the search goes on
        status' := if |buffer'| >= packetSize then Disconnected else Searching;
      } else {
        status', read', buffer', packetSize', tested' := Look(pattern, read', buffer', packetSize, stream', tested);
      }
      status, syncBytesRead, buffer, packetSize, stream, tested := status', read', buffer', packetSize', stream', tested';
      Parts();
    }

    lemma Parts()
      ensures Valid() <==>
                && |pattern| > 0 && initialSize > |pattern|
                && Sound(pattern, stream, status, syncBytesRead, buffer, tested)
                && (status == Searching ==>
                      packetSize == if initialSize < SEARCH_LIMIT + |pattern| - syncBytesRead then initialSize else SEARCH_LIMIT + |pattern| - syncBytesRead)
    {
      hide Sound;
    }
  }

  lemma SearchingIs(pattern: Bytes, stream: Bytes, read: int, buffer: Bytes, tested: seq<int>)
    requires Sound(pattern, stream, Searching, read, buffer, tested)
    ensures Open(pattern, stream, read, buffer) && InOrder(tested, read)
    ensures 0 <= read < SEARCH_LIMIT && |stream| == read + |buffer| && |buffer| <= |pattern| && (read > 0 ==> |buffer| == |pattern|)
  {
    hide Verdict;
  }

  /** Once decided, more of the stream does not change the outcome. */
  lemma VerdictStands(pattern: Bytes, stream: Bytes, input: Bytes)
    requires |pattern| > 0 && stream <= input && (stream == input || Verdict(pattern, stream) != Searching)
    requires Verdict(pattern, stream) == Disconnected ==> |stream| == SEARCH_LIMIT + |pattern| && NoMatch(pattern, stream, 0, SEARCH_LIMIT)
    ensures Verdict(pattern, input) == Verdict(pattern, stream)
  {
    var more := input[|stream|..];
    assert input == stream + more;
    match Verdict(pattern, stream) {
      case Found(f) =>
        assert FirstAt(pattern, stream, f);
        Extended(pattern, stream, more, f);
        NoMatchExtended(pattern, stream, more, f);
        VerdictFound(pattern, input, f);
      case Disconnected =>
        NoMatchExtended(pattern, stream, more, SEARCH_LIMIT);
        VerdictNone(pattern, input, SEARCH_LIMIT);
      case Searching =>
    }
  }

  /** However the input is cut up on the way, the outcome is the one of the input. */
  method Run(pattern: Bytes, hash: bool, input: Bytes, cuts: seq<nat>) returns (s: Search)
    requires |pattern| == if hash then 20 else 8
    ensures fresh(s) && s.Valid() && s.pattern == pattern && s.status == Verdict(pattern, input)
  {
    s := new Search(pattern, hash);
    var at, n := 0, 0;
    while s.status == Searching && at < |input|
      invariant fresh(s) && s.Valid() && s.pattern == pattern
      invariant 0 <= at <= |input| && s.stream == input[..at]
      decreases |input| - at
    {
      var size := if n < |cuts| && cuts[n] > 0 then cuts[n] else 1;
      var room := s.packetSize - |s.buffer|;
      size := if size < room then size else room;
      size := if size < |input| - at then size else |input| - at;
      s.Receive(input[at..at + size]);
      assert input[..at] + input[at..at + size] == input[..at + size];
      at, n := at + size, n + 1;
    }
    assert at == |input| ==> input[..at] == input;
    VerdictStands(pattern, s.stream, input);
  }
}
