/** The metadata extension cuts the metadata into 256 slots. A request names a range
    of slots, a message carries the bytes of such a range. */
module Metadata {

  const SLOTS := 256
  const MAX_SIZE := 500 * 1024

  datatype Range = Range(first: int, second: int)

  ghost predicate Request(r: Range) {
    r.first >= 0 && r.second > 0 && r.first + r.second <= 256
  }

  function DivRoundUp(n: int, d: int): int
    requires d > 0
  {
    (n + d - 1) / d
  }

  /** Where slot `k` starts. */
  function SlotStart(k: int, total: int): int {
    DivRoundUp(k * total, 256)
  }

  function ReqToOffset(r: Range, total: int): Range {
    var start := DivRoundUp(r.first * total, 256);
    var size := DivRoundUp((r.first + r.second) * total, 256) - start;
    Range(start, size)
  }

  function OffsetToReq(o: Range, total: int): Range
    requires total > 0
  {
    var start := o.first * 256 / total;
    var size := (o.first + o.second) * 256 / total - start;
    Range(start, size)
  }

  // ------------------------------------------------------------- round trips

  lemma SlotBounds(k: int, total: int)
    ensures k * total <= 256 * SlotStart(k, total) < k * total + 256
  {
  }

  lemma FloorIs(x: int, d: int, q: int)
    requires d > 0 && q * d <= x < q * d + d
    ensures x / d == q
  {
    MulStep(x / d, q, d);
    MulStep(q, x / d, d);
  }

  lemma MulStep(a: int, b: int, d: int)
    requires d > 0
    ensures a < b ==> a * d + d <= b * d
  {
    if a < b { assert (a + 1) * d <= b * d; }
  }

  /** From where a slot starts, its number can be told. */
  lemma SlotBack(k: int, total: int)
    requires total >= 256
    ensures SlotStart(k, total) * 256 / total == k
  {
    SlotBounds(k, total);
    FloorIs(SlotStart(k, total) * 256, total, k);
  }

  lemma RoundTrip(r: Range, total: int)
    requires Request(r) && total >= 256
    ensures OffsetToReq(ReqToOffset(r, total), total) == r
  {
    SlotBack(r.first, total);
    SlotBack(r.first + r.second, total);
  }

  lemma {:induction false} SomeSlotEmpty(total: int, n: int) returns (k: int)
    requires 0 <= SlotStart(n, total) < n
    ensures 0 <= k < n && SlotStart(k + 1, total) <= SlotStart(k, total)
    decreases n
  {
    k := n - 1;
    if SlotStart(n, total) > SlotStart(k, total) {
      SlotStartIs(0, total);
      SlotBounds(k, total);
      if k > 0 {
        SlotNonNegative(k, n, total);
        k := SomeSlotEmpty(total, n - 1);
      }
    }
  }

  lemma SlotStartIs(k: int, total: int)
    ensures k == 0 ==> SlotStart(k, total) == 0
    ensures k == 256 ==> SlotStart(k, total) == total
  {
  }

  lemma SlotNonNegative(k: int, n: int, total: int)
    requires 0 <= k <= n && SlotStart(n, total) >= 0
    ensures SlotStart(k, total) >= 0
  {
    SlotBounds(n, total);
    if total < 0 && k > 0 {
      assert n * total <= k * total;
    } else if total >= 0 {
      assert k * total >= 0;
    }
  }

  /** The mapping can be undone for every request exactly when there are at least as
      many bytes as slots. The receiver accepts smaller sizes too. */
  lemma RoundTripExactly(total: int)
    requires 0 < total <= MAX_SIZE
    ensures (forall r :: Request(r) ==> OffsetToReq(ReqToOffset(r, total), total) == r) <==> total >= 256
  {
    if total >= 256 {
      forall r | Request(r) ensures OffsetToReq(ReqToOffset(r, total), total) == r { RoundTrip(r, total); }
    } else {
      SlotStartIs(256, total);
      var k := SomeSlotEmpty(total, 256);
      var r := Range(k, 1);
      SlotsGrow(k, k + 1, total);
      assert Request(r) && ReqToOffset(r, total).second == 0;
      assert OffsetToReq(ReqToOffset(r, total), total).second == 0;
    }
  }

  lemma SlotsGrow(i: int, j: int, total: int)
    requires i <= j && total >= 0
    ensures SlotStart(i, total) <= SlotStart(j, total)
  {
    assert i * total <= j * total;
  }

  /** Neighbouring requests meet without a gap or an overlap, and all slots together are everything. */
  lemma Tiling(a: Range, b: Range, total: int)
    requires Request(a) && Request(b) && b.first == a.first + a.second && total > 0
    ensures ReqToOffset(a, total).first + ReqToOffset(a, total).second == ReqToOffset(b, total).first
    ensures ReqToOffset(Range(0, 256), total) == Range(0, total)
  {
    SlotStartIs(0, total);
    SlotStartIs(256, total);
  }

  /** No intermediate value exceeds 32 bits, up to the largest size accepted. */
  lemma Fits32(r: Range, total: int)
    requires Request(r) && 0 < total <= MAX_SIZE
    ensures 0 <= r.first * total && (r.first + r.second) * total + 255 < 0x8000_0000
    ensures var o := ReqToOffset(r, total); 0 <= o.first && 0 <= o.second && o.first + o.second <= total && (o.first + o.second) * 256 < 0x8000_0000
  {
    SlotsGrow(0, r.first, total);
    SlotsGrow(r.first, r.first + r.second, total);
    SlotsGrow(r.first + r.second, 256, total);
    SlotStartIs(0, total);
    SlotStartIs(256, total);
    assert (r.first + r.second) * total <= 256 * total;
    assert r.first * total >= 0;
  }

  // --------------------------------------------------------------- receiving

  /** Which slot a byte is in. */
  lemma {:induction false} SlotOfByte(q: int, total: int, n: int) returns (k: int)
    requires total > 0 && 0 <= q < SlotStart(n, total) && n >= 0
    ensures 0 <= k < n && SlotStart(k, total) <= q < SlotStart(k + 1, total)
    decreases n
  {
    SlotStartIs(0, total);
    k := n - 1;
    if q < SlotStart(k, total) { k := SlotOfByte(q, total, n - 1); }
  }

  type Mark = seq<bool>

  /** For each offset the last byte that arrived for it, if any did. */
  datatype Cell = Empty | Full(value: int)
  type Log = seq<Cell>

  ghost predicate HasByte(got: Log, q: int) {
    0 <= q < |got| && got[q].Full?
  }

  /** The bytes of slot `k` have all arrived. */
  ghost predicate Arrived(k: int, total: int, got: Log) {
    forall q :: SlotStart(k, total) <= q < SlotStart(k + 1, total) ==> HasByte(got, q)
  }

  ghost predicate MarksMean(have: Mark, total: int, got: Log) {
    (have == [] || |have| == 256) && forall k :: 0 <= k < |have| && have[k] ==> Arrived(k, total, got)
  }

  /** When every slot is marked every byte has arrived. */
  lemma AllMarked(have: Mark, total: int, got: Log)
    requires MarksMean(have, total, got) && Every(have) && 0 < total == |got|
    ensures forall q :: 0 <= q < total ==> got[q].Full?
  {
    SlotStartIs(256, total);
    hide SlotStart;
    forall q | 0 <= q < total ensures got[q].Full? {
      var k := SlotOfByte(q, total, 256);
      assert have[k] && Arrived(k, total, got) && HasByte(got, q);
    }
  }

  method Fill(have: Mark, first: int, last: int, value: bool) returns (r: Mark)
    requires 0 <= first <= last <= |have|
    ensures |r| == |have| && forall k :: 0 <= k < |r| ==> r[k] == if first <= k < last then value else have[k]
  {
    r := have;
    for i := first to last
      invariant |r| == |have| && forall k :: 0 <= k < |r| ==> r[k] == if first <= k < i then value else have[k]
    {
      r := r[i := value];
    }
  }

  method CountMarks(have: Mark) returns (n: int)
    ensures 0 <= n <= |have| && (n == |have| <==> forall k :: 0 <= k < |have| ==> have[k])
  {
    n := 0;
    for i := 0 to |have|
      invariant 0 <= n <= i && (n == i <==> forall k :: 0 <= k < i ==> have[k])
    {
      if have[i] { n := n + 1; }
    }
  }

  /** What arrives is remembered at its offset. */
  ghost function Noted(got: Log, offset: int, data: seq<int>): (r: Log)
    ensures |r| == |got|
  {
    seq(|got|, q requires 0 <= q < |got| => if offset <= q < offset + |data| then Full(data[q - offset]) else got[q])
  }

  lemma MarksAfter(have: Mark, have': Mark, total: int, got: Log, r: Range, data: seq<int>)
    requires MarksMean(have, total, got) && |have| == 256 == |have'| && Request(r)
    requires forall k :: 0 <= k < 256 ==> have'[k] == (r.first <= k < r.first + r.second || have[k])
    requires 0 < total <= MAX_SIZE && |got| == total && |data| == ReqToOffset(r, total).second
    ensures MarksMean(have', total, Noted(got, ReqToOffset(r, total).first, data))
  {
    hide SlotStart, ReqToOffset;
    ReqIs(r, total);
    Fits32(r, total);
    var o := ReqToOffset(r, total);
    var after := Noted(got, o.first, data);
    forall k | 0 <= k < 256 && have'[k] ensures Arrived(k, total, after) {
      if r.first <= k < r.first + r.second {
        SlotsGrow(r.first, k, total);
        SlotsGrow(k + 1, r.first + r.second, total);
        forall q | SlotStart(k, total) <= q < SlotStart(k + 1, total) ensures HasByte(after, q) {
        }
      } else {
        assert Arrived(k, total, got);
        forall q | SlotStart(k, total) <= q < SlotStart(k + 1, total) ensures HasByte(after, q) {
          assert HasByte(got, q);
        }
      }
    }
  }

  lemma ReqIs(r: Range, total: int)
    ensures var o := ReqToOffset(r, total);
            o.first == SlotStart(r.first, total) && o.first + o.second == SlotStart(r.first + r.second, total)
  {
  }

  /** The buffer holds the bytes that have arrived. */
  ghost predicate Stored(buffer: seq<int>, got: Log) {
    |buffer| == |got| && forall q :: 0 <= q < |got| && got[q].Full? ==> buffer[q] == got[q].value
  }

  lemma StoredAfter(buffer: seq<int>, got: Log, offset: int, data: seq<int>)
    requires Stored(buffer, got) && 0 <= offset && offset + |data| <= |buffer|
    ensures Stored(buffer[..offset] + data + buffer[offset + |data|..], Noted(got, offset, data))
  {
  }

  /** The marks after a message for request `r`. */
  function Marked(have: Mark, r: Range): (m: Mark)
    requires have == [] || |have| == 256
    ensures |m| == 256
  {
    seq(256, k requires 0 <= k < 256 => r.first <= k < r.first + r.second || (have != [] && have[k]))
  }

  ghost predicate Every(have: Mark) {
    |have| == 256 && forall k :: 0 <= k < 256 ==> have[k]
  }

  /** Marks on slot `n` and those after it. */
  function MarkedFrom(n: int): (m: Mark)
    ensures |m| == 256
  {
    seq(256, k => k >= n)
  }

  lemma ClearedIs(have: Mark, have': Mark, n: int)
    requires Every(have) && |have'| == 256 && forall k :: 0 <= k < 256 ==> have'[k] == if 0 <= k < n then false else have[k]
    ensures have' == MarkedFrom(n) && ((forall k :: 0 <= k < 256 ==> !have'[k]) <==> n >= 256)
  {
    assert n < 256 ==> have'[255];
  }

  /** Marks the slots of a message and tells whether all are marked now. */
  method MarkSlots(have0: Mark, r: Range, total: int, ghost got: Log, ghost data: seq<int>) returns (have: Mark, all: bool)
    requires Request(r) && 256 <= total <= MAX_SIZE && MarksMean(have0, total, got) && |got| == total && |data| == ReqToOffset(r, total).second
    ensures MarksMean(have, total, Noted(got, ReqToOffset(r, total).first, data))
    ensures have == Marked(have0, r) && (all <==> Every(have))
  {
    var marks := if have0 == [] then seq(256, _ => false) else have0;
    assert MarksMean(marks, total, got);
    var back := OffsetToReq(ReqToOffset(r, total), total);
    RoundTrip(r, total);
    hide Noted, MarksMean, ReqToOffset, OffsetToReq;
    have := Fill(marks, back.first, back.first + back.second, true);
    MarksAfter(marks, have, total, got, r, data);
    var n := CountMarks(have);
    all := n == 256;
  }

  class Plugin {
    /** The size of the metadata, the same in every message. */
    const total: int
    var have: Mark
    var buffer: seq<int>
    /** What the plugin takes the size of its buffer to be; a refusal sets it to zero and
        leaves the buffer. */
    var size: int
    var requested: seq<int>
    ghost var got: Log

    ghost predicate Valid()
      reads this`have, this`buffer, this`got
    {
      && 256 <= total <= MAX_SIZE && MarksMean(have, total, got) && |got| == total
      && (if buffer == [] then forall q :: 0 <= q < total ==> got[q] == Empty else Stored(buffer, got))
    }

    constructor (total: int)
      requires 256 <= total <= MAX_SIZE
      ensures Valid() && this.total == total && have == [] && |requested| == 256 && forall k :: 0 <= k < 256 ==> requested[k] == 0
    {
      this.total := total;
      have, buffer, size := [], [], 0;
      requested := seq(256, _ => 0);
      got := seq(total, _ => Empty);
    }

    /** Bytes of a message have arrived. */
    method MetadataProgress()
      modifies this`size
      ensures size == total
    {
      size := total;
    }

    /** A message for request `r` arrives; a new buffer would hold `junk`. `accept` tells
        whether the metadata, once complete, has the right hash. The metadata is complete
        when all 256 slots are marked; then every byte has arrived and is in the buffer. A
        refusal clears the marks up to the end of this request, which is all of them exactly
        when the request reaches the last slot. The buffer is never thrown away under the
        marks: the size is restored before it is compared with the one in the message. */
    method Received(r: Range, data: seq<int>, accept: bool, junk: seq<int>) returns (all: bool, complete: bool)
      requires Valid() && Request(r) && |data| == ReqToOffset(r, total).second && |junk| == total
      modifies this`have, this`buffer, this`size, this`got
      ensures Valid() && got == Noted(old(got), ReqToOffset(r, total).first, data) && Stored(buffer, got)
      ensures size == if all && !accept then 0 else total
      ensures (old(have) == [] || |old(have)| == 256) && (all <==> Every(Marked(old(have), r)))
      ensures have == if !all then Marked(old(have), r) else if accept then [] else MarkedFrom(r.first + r.second)
      ensures all ==> forall q :: 0 <= q < total ==> got[q].Full?
      ensures complete <==> all && accept
      ensures all && !accept ==> ((forall k :: 0 <= k < 256 ==> !have[k]) <==> r.first + r.second == 256)
    {
      MarksShape(have, total, got);
      hide MarksMean, Noted, Stored, ReqToOffset, Marked, MarkedFrom, Every;
      var o := ReqToOffset(r, total);
      Fits32(r, total);
      MetadataProgress();
      var b := buffer;
      if buffer == [] || size < total {
        b := junk;
        size := total;
      }
      FirstStored(buffer, b, got);
      StoredAfter(b, got, o.first, data);
      var marks;
      marks, all := MarkSlots(have, r, total, got, data);
      buffer := b[..o.first] + data + b[o.first + |data|..];
      have, got := marks, Noted(got, o.first, data);
      complete := all && accept;
      if !all { return; }
      AllMarked(have, total, got);
      if !accept {
        have := Fill(have, 0, r.first + r.second, false);
        size := 0;
        FewerMarks(marks, have, total, got);
        ClearedIs(marks, have, r.first + r.second);
        return;
      }
      have := [];
      FewerMarks([], [], total, got);
    }

    // --------------------------------------------------------------- requests

    /** Chooses the range of slots asked for least, the first one if there are several.
        The choice is a request exactly when fewer than 256 peers have metadata; of more
        peers each is asked for nothing, and `beyond` is what is read past the counts. */
    method MetadataRequest(peers: nat, beyond: int) returns (r: Range)
      requires |requested| == 256
      modifies this`requested
      ensures 0 <= r.first && r.second == 256 / (peers + 1) && r.first + r.second <= 256
      ensures Request(r) <==> peers < 256
      ensures forall i :: 0 <= i <= 256 - r.second ==>
                Score(old(requested), beyond, r.first, r.second) <= Score(old(requested), beyond, i, r.second)
      ensures forall i :: 0 <= i < r.first ==>
                Score(old(requested), beyond, r.first, r.second) < Score(old(requested), beyond, i, r.second)
      ensures Counted(old(requested)) && peers < 256 ==>
                forall i :: 0 <= i <= 256 - r.second && NeverAsked(old(requested), i, r.second) ==>
                  NeverAsked(old(requested), r.first, r.second) && r.first <= i
      ensures requested == Bumped(old(requested), r)
    {
      var numBlocks := 256 / (peers + 1);
      Share(peers);
      var best := 0;
      for i := 1 to 256 - numBlocks + 1
        invariant 0 <= best < i
        invariant forall k :: 0 <= k < i ==> Score(requested, beyond, best, numBlocks) <= Score(requested, beyond, k, numBlocks)
        invariant forall k :: 0 <= k < best ==> Score(requested, beyond, best, numBlocks) < Score(requested, beyond, k, numBlocks)
      {
        if Score(requested, beyond, best, numBlocks) > Score(requested, beyond, i, numBlocks) { best := i; }
      }
      r := Range(best, numBlocks);
      NeverAskedFirst(requested, beyond, best, numBlocks);
      var s := requested;
      for i := r.first to r.first + r.second
        invariant |s| == 256 && s == Bumped(requested, Range(best, i - best))
      {
        s := s[i := s[i] + 1];
      }
      requested := s;
    }

    /** Takes a request back. */
    method CancelMetadataRequest(r: Range)
      requires |requested| == 256 && Request(r)
      modifies this`requested
      ensures requested == Lowered(old(requested), r)
    {
      var s := requested;
      for i := r.first to r.first + r.second
        invariant |s| == 256 && s == Lowered(requested, Range(r.first, i - r.first))
      {
        if s[i] > 0 { s := s[i := s[i] - 1]; }
      }
      requested := s;
    }
  }

  lemma MarksShape(have: Mark, total: int, got: Log)
    requires MarksMean(have, total, got)
    ensures have == [] || |have| == 256
  {
  }

  /** Slots `n..256` arrive before slots `0..n`, and the metadata is refused: the marks of
      the slots that came first stay, for bytes that were part of what was refused. */
  method RefusedInPart(n: int, bytes: seq<int>) returns (p: Plugin)
    requires 0 < n < 256 && |bytes| == 256
    ensures p.Valid() && p.have == MarkedFrom(n)
  {
    PartsExample(n);
    hide *;
    p := new Plugin(256);
    var _, _ := p.Received(Range(n, 256 - n), bytes[n..], false, bytes);
    var _, _ := p.Received(Range(0, n), bytes[..n], false, bytes);
  }

  lemma PartsExample(n: int)
    requires 0 < n < 256
    ensures 256 <= MAX_SIZE && Request(Range(0, n)) && Request(Range(n, 256 - n))
    ensures ReqToOffset(Range(0, n), 256).second == n && ReqToOffset(Range(n, 256 - n), 256).second == 256 - n
    ensures !Every(Marked([], Range(n, 256 - n))) && Every(Marked(Marked([], Range(n, 256 - n)), Range(0, n)))
  {
    assert !Marked([], Range(n, 256 - n))[0];
    hide Marked;
    PartsMarked(n);
  }

  lemma PartsMarked(n: int)
    requires 0 < n < 256
    ensures Every(Marked(Marked([], Range(n, 256 - n)), Range(0, n)))
  {
    var m := Marked([], Range(n, 256 - n));
    assert forall k :: 0 <= k < 256 ==> (m[k] <==> n <= k);
  }

  lemma FirstStored(buffer: seq<int>, b: seq<int>, got: Log)
    requires if buffer == [] then |b| == |got| > 0 && forall q :: 0 <= q < |got| ==> got[q] == Empty else b == buffer && Stored(buffer, got)
    ensures Stored(b, got) && |b| == |got|
  {
  }

  lemma Share(peers: nat)
    ensures 0 <= 256 / (peers + 1) <= 256 && (256 / (peers + 1) > 0 <==> peers < 256)
  {
  }

  lemma FewerMarks(have: Mark, have': Mark, total: int, got: Log)
    requires have == [] || MarksMean(have, total, got)
    requires |have'| == |have| && forall k :: 0 <= k < |have| && have'[k] ==> have[k]
    ensures MarksMean(have', total, got)
  {
  }

  function SumOf(s: seq<int>, i: int, n: nat): int
    requires 0 <= i && i + n <= |s|
  {
    if n == 0 then 0 else SumOf(s, i, n - 1) + s[i + n - 1]
  }

  /** The least of a range; of an empty range, what stands where it would begin. */
  function LeastOf(s: seq<int>, beyond: int, i: int, n: nat): int
    requires 0 <= i && i + n <= |s|
  {
    if n == 0 then (s + [beyond])[i]
    else if n == 1 then s[i]
    else
      var rest := LeastOf(s, beyond, i, n - 1);
      if s[i + n - 1] < rest then s[i + n - 1] else rest
  }

  /** The least requested slot of a range and the number of requests for all of it, added. */
  function Score(s: seq<int>, beyond: int, i: int, n: int): int
    requires 0 <= i && 0 <= n && i + n <= |s|
  {
    LeastOf(s, beyond, i, n) + SumOf(s, i, n)
  }

  /** A number of requests for each slot. */
  ghost predicate Counted(s: seq<int>) {
    forall k :: 0 <= k < |s| ==> s[k] >= 0
  }

  ghost predicate NeverAsked(s: seq<int>, i: int, n: int)
    requires 0 <= i && 0 <= n && i + n <= |s|
  {
    forall k :: i <= k < i + n ==> s[k] == 0
  }

  /** What is added up: the least of the range, which is one of it, */
  lemma {:induction false} LeastIs(s: seq<int>, beyond: int, i: int, n: nat) returns (k: int)
    requires 0 <= i && 0 < n && i + n <= |s|
    ensures i <= k < i + n && LeastOf(s, beyond, i, n) == s[k] && forall c :: i <= c < i + n ==> s[k] <= s[c]
  {
    k := i;
    if n > 1 {
      k := LeastIs(s, beyond, i, n - 1);
      if s[i + n - 1] < s[k] { k := i + n - 1; }
    }
  }

  /** and the sum of it, which two neighbouring ranges share. */
  lemma {:induction false} SumIs(s: seq<int>, i: int, m: nat, n: nat)
    requires 0 <= i && i + m + n <= |s|
    ensures SumOf(s, i, m + n) == SumOf(s, i, m) + SumOf(s, i + m, n)
    ensures n == 1 ==> SumOf(s, i + m, n) == s[i + m]
  {
    if n > 0 { SumIs(s, i, m, n - 1); }
  }

  lemma {:induction false} SumNone(s: seq<int>, i: int, n: nat)
    requires 0 <= i && i + n <= |s| && Counted(s)
    ensures SumOf(s, i, n) >= 0 && (SumOf(s, i, n) == 0 <==> NeverAsked(s, i, n))
  {
    if n > 0 { SumNone(s, i, n - 1); }
  }

  /** The score is zero for the ranges never asked for, and for no other. */
  lemma ScoreNone(s: seq<int>, beyond: int, i: int, n: nat)
    requires 0 <= i && 0 < n && i + n <= |s| && Counted(s)
    ensures Score(s, beyond, i, n) >= 0 && (Score(s, beyond, i, n) == 0 <==> NeverAsked(s, i, n))
  {
    SumNone(s, i, n);
    var k := LeastIs(s, beyond, i, n);
  }

  lemma NeverAskedFirst(s: seq<int>, beyond: int, best: int, n: nat)
    requires n <= 256 == |s| && 0 <= best <= 256 - n
    requires forall i :: 0 <= i <= 256 - n ==> Score(s, beyond, best, n) <= Score(s, beyond, i, n)
    requires forall i :: 0 <= i < best ==> Score(s, beyond, best, n) < Score(s, beyond, i, n)
    ensures Counted(s) && n > 0 ==> forall i :: 0 <= i <= 256 - n && NeverAsked(s, i, n) ==> NeverAsked(s, best, n) && best <= i
  {
    hide Score, Counted, NeverAsked;
    if Counted(s) && n > 0 {
      forall i | 0 <= i <= 256 - n && NeverAsked(s, i, n) ensures NeverAsked(s, best, n) && best <= i {
        ScoreNone(s, beyond, i, n);
        ScoreNone(s, beyond, best, n);
      }
    }
  }

  function Bumped(s: seq<int>, r: Range): seq<int> {
    seq(|s|, k requires 0 <= k < |s| => (if r.first <= k < r.first + r.second then s[k] + 1 else s[k]))
  }

  function Lowered(s: seq<int>, r: Range): seq<int> {
    seq(|s|, k requires 0 <= k < |s| => (if r.first <= k < r.first + r.second && s[k] > 0 then s[k] - 1 else s[k]))
  }

  /** The numbers of requests stay numbers. */
  lemma StillCounted(s: seq<int>, r: Range)
    requires Counted(s)
    ensures Counted(Bumped(s, r)) && Counted(Lowered(s, r))
  {
  }

  /** Taking a request back undoes making it. */
  lemma CancelUndoes(s: seq<int>, r: Range)
    requires forall k :: 0 <= k < |s| ==> s[k] >= 0
    ensures Lowered(Bumped(s, r), r) == s
  {
  }
}
