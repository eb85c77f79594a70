/** Conversions between UTF-8, UTF-16 and UTF-32. Code units are integers; a
    conversion reads units from a source and writes units to a target of limited size. */
module Utf {

  // -------------------------------------------------------------- one character

  const REPLACEMENT := 0xFFFD

  predicate IsHigh(u: int) { 0xD800 <= u <= 0xDBFF }
  predicate IsLow(u: int) { 0xDC00 <= u <= 0xDFFF }
  predicate IsSurrogate(u: int) { 0xD800 <= u <= 0xDFFF }

  ghost predicate IsScalar(ch: int) {
    0 <= ch <= 0x10FFFF && !IsSurrogate(ch)
  }

  /** The bytes of a character: six bits in each byte but the first. */
  function Encode(ch: int): seq<int> {
    if ch < 0x80 then [ch]
    else if ch < 0x800 then [0xC0 + ch / 64, 0x80 + ch % 64]
    else if ch < 0x10000 then [0xE0 + ch / 4096, 0x80 + ch / 64 % 64, 0x80 + ch % 64]
    else [0xF0 + ch / 262144, 0x80 + ch / 4096 % 64, 0x80 + ch / 64 % 64, 0x80 + ch % 64]
  }

  /** Bitwise operations on unsigned numbers, one binary digit at a time. */
  function And(x: nat, y: nat): (r: nat) {
    if x == 0 || y == 0 then 0 else 2 * And(x / 2, y / 2) + if x % 2 == 1 && y % 2 == 1 then 1 else 0
  }

  function Or(x: nat, y: nat): (r: nat) {
    if x == 0 && y == 0 then 0 else 2 * Or(x / 2, y / 2) + if x % 2 == 1 || y % 2 == 1 then 1 else 0
  }

  lemma AndDigit(x: nat, y: nat, i: nat, j: nat)
    requires i < 2 && j < 2
    ensures And(2 * x + i, 2 * y + j) == 2 * And(x, y) + i * j
  {
    assert (2 * x + i) / 2 == x && (2 * y + j) / 2 == y && (2 * x + i) % 2 == i && (2 * y + j) % 2 == j;
  }

  lemma OrDigit(x: nat, y: nat, i: nat, j: nat)
    requires i < 2 && j < 2
    ensures Or(2 * x + i, 2 * y + j) == 2 * Or(x, y) + if i == 1 || j == 1 then 1 else 0
  {
    assert (2 * x + i) / 2 == x && (2 * y + j) / 2 == y && (2 * x + i) % 2 == i && (2 * y + j) % 2 == j;
  }

  /** One digit of a marked and masked number. */
  lemma MaskDigit(x: nat, mark: nat, mask: nat, i: nat, j: nat, k: nat)
    requires i < 2 && j < 2 && k < 2
    ensures And(Or(2 * x + i, 2 * mark + j), 2 * mask + k) == 2 * And(Or(x, mark), mask) + if (i == 1 || j == 1) && k == 1 then 1 else 0
  {
    hide And, Or;
    OrDigit(x, mark, i, j);
    AndDigit(Or(x, mark), mask, if i == 1 || j == 1 then 1 else 0, k);
  }

  lemma Halved(x: nat) returns (h: nat, i: nat)
    ensures x == 2 * h + i && i < 2
  {
    h, i := x / 2, x % 2;
  }

  /** Three digits with nothing to mark and nothing to mask. */
  lemma ThreeDigits(x: nat, mark: nat, mask: nat)
    ensures And(Or(x, 8 * mark), 8 * mask + 7) == 8 * And(Or(x / 8, mark), mask) + x % 8
  {
    hide And, Or;
    var a, i0 := Halved(x);
    var b, i1 := Halved(a);
    var c, i2 := Halved(b);
    MaskDigit(a, 4 * mark, 4 * mask + 3, i0, 0, 1);
    MaskDigit(b, 2 * mark, 2 * mask + 1, i1, 0, 1);
    MaskDigit(c, mark, mask, i2, 0, 1);
    assert c == x / 8;
  }

  /** The mark and the mask of the source leave the lowest six digits under a 1 and a 0. */
  lemma Continuation(x: nat)
    ensures And(Or(x, 0x80), 0xBF) == 0x80 + x % 64
  {
    hide And, Or;
    ThreeDigits(x, 0x10, 0x17);
    ThreeDigits(x / 8, 2, 2);
    TopDigits(x / 8 / 8);
  }

  lemma TopDigits(x: nat)
    ensures And(Or(x, 2), 2) == 2
  {
    hide And, Or;
    var a, i0 := Halved(x);
    var b, i1 := Halved(a);
    MaskDigit(a, 1, 1, i0, 0, 0);
    MaskDigit(b, 0, 0, i1, 1, 1);
    MaskedByZero(Or(b, 0));
  }

  lemma MaskedByZero(x: nat)
    ensures And(x, 0) == 0
  {
  }

  lemma {:induction false} OrNothing(y: nat)
    ensures Or(0, y) == y
  {
    if y > 0 { OrNothing(y / 2); }
  }

  function Pow2(k: nat): (r: nat)
    ensures r > 0
  {
    if k == 0 then 1 else 2 * Pow2(k - 1)
  }

  /** A mark that begins above the digits of a number is added to it. */
  lemma {:induction false} OrAdds(x: nat, mark: nat, k: nat)
    requires x < Pow2(k)
    ensures Or(x, Pow2(k) * mark) == x + Pow2(k) * mark
  {
    if k == 0 {
      OrNothing(mark);
    } else {
      var m := Pow2(k - 1) * mark;
      assert Pow2(k) * mark == 2 * m;
      OrAdds(x / 2, mark, k - 1);
    }
  }

  lemma FirstBytes(x: nat)
    ensures Or(x, 0) == x
    ensures x < 0x20 ==> Or(x, 0xC0) == x + 0xC0
    ensures x < 0x10 ==> Or(x, 0xE0) == x + 0xE0
    ensures x < 8 ==> Or(x, 0xF0) == x + 0xF0
  {
    hide Or;
    assert Pow2(5) == 32 && Pow2(4) == 16 && Pow2(3) == 8 by { assert Pow2(2) == 4; }
    if x < 0x20 { OrAdds(x, 6, 5); }
    if x < 0x10 { OrAdds(x, 14, 4); }
    if x < 8 { OrAdds(x, 30, 3); }
    OrCommutes(x, 0);
    OrNothing(x);
  }

  lemma {:induction false} OrCommutes(x: nat, y: nat)
    ensures Or(x, y) == Or(y, x)
  {
    if x != 0 || y != 0 { OrCommutes(x / 2, y / 2); }
  }

  function FirstByteMark(bytes: int): nat {
    if bytes == 2 then 0xC0 else if bytes == 3 then 0xE0 else if bytes == 4 then 0xF0 else 0
  }

  /** Writes the bytes of a character from the last to the first, with the marks, masks
      and shifts of the source. The result is the standard encoding. */
  method WriteCharacter(ch: nat) returns (a: seq<int>)
    requires ch <= 0x10FFFF
    ensures a == Encode(ch)
  {
    var bytesToWrite := if ch < 0x80 then 1 else if ch < 0x800 then 2 else if ch < 0x10000 then 3 else 4;
    var left, rest := bytesToWrite, ch;
    a := [];
    WrittenNone(ch);
    hide *;
    while left > 1
      invariant 1 <= left <= bytesToWrite && Written(ch, bytesToWrite - left, rest, a)
    {
      Continuation(rest);
      WrittenMore(ch, bytesToWrite - left, rest, a);
      a := [And(Or(rest, 0x80), 0xBF) % 256] + a;
      rest := rest / 64;
      left := left - 1;
    }
    WrittenAll(ch, bytesToWrite, rest, a);
    a := [Or(rest, FirstByteMark(bytesToWrite)) % 256] + a;
  }

  /** The last `n` bytes are written, `rest` is what they leave of the character. */
  ghost predicate Written(ch: nat, n: int, rest: nat, a: seq<int>) {
    match n
    case 0 => rest == ch && a == []
    case 1 => rest == ch / 64 && a == [0x80 + ch % 64]
    case 2 => rest == ch / 4096 && a == [0x80 + ch / 64 % 64, 0x80 + ch % 64]
    case 3 => rest == ch / 262144 && a == [0x80 + ch / 4096 % 64, 0x80 + ch / 64 % 64, 0x80 + ch % 64]
    case _ => false
  }

  lemma WrittenNone(ch: nat)
    ensures Written(ch, 0, ch, [])
  {
  }

  lemma WrittenAll(ch: nat, n: int, rest: nat, a: seq<int>)
    requires ch <= 0x10FFFF && n == if ch < 0x80 then 1 else if ch < 0x800 then 2 else if ch < 0x10000 then 3 else 4
    requires Written(ch, n - 1, rest, a)
    ensures [Or(rest, FirstByteMark(n)) % 256] + a == Encode(ch)
  {
    hide Or;
    FirstBytes(rest);
  }

  lemma WrittenMore(ch: nat, n: int, rest: nat, a: seq<int>)
    requires Written(ch, n, rest, a) && 0 <= n < 3
    ensures Written(ch, n + 1, rest / 64, [0x80 + rest % 64] + a)
  {
  }

  /** How many bytes follow a first byte. */
  function Trailing(lead: int): int {
    if lead < 0xC0 then 0 else if lead < 0xE0 then 1 else if lead < 0xF0 then 2
    else if lead < 0xF8 then 3 else if lead < 0xFC then 4 else 5
  }

  function Accumulate(a: seq<int>): int {
    if |a| == 0 then 0 else Accumulate(a[..|a| - 1]) * 64 + a[|a| - 1]
  }

  /** What the marks of the bytes add up to. */
  function MarkSum(extra: int): int {
    match extra
    case 0 => 0
    case 1 => 0x3080
    case 2 => 0xE2080
    case 3 => 0x3C82080
    case 4 => 0xFA082080
    case _ => 0x82082080
  }

  function Decode(a: seq<int>): int {
    (Accumulate(a) - MarkSum(|a| - 1)) % 0x1_0000_0000
  }

  lemma AccumulateIs(a: seq<int>)
    ensures |a| == 1 ==> Accumulate(a) == a[0]
    ensures |a| == 2 ==> Accumulate(a) == a[0] * 64 + a[1]
    ensures |a| == 3 ==> Accumulate(a) == a[0] * 4096 + a[1] * 64 + a[2]
    ensures |a| == 4 ==> Accumulate(a) == a[0] * 262144 + a[1] * 4096 + a[2] * 64 + a[3]
  {
    if 1 <= |a| <= 4 {
      var b := a[..|a| - 1];
      if |a| > 1 { AccumulateIs(b); }
    }
  }

  predicate IsTail(b: int) { 0x80 <= b <= 0xBF }

  /** The legality check, with the first byte deciding what the second may be. */
  predicate IsLegal(a: seq<int>) {
    && 1 <= |a| <= 4
    && (|a| == 4 ==> IsTail(a[3])) && (|a| >= 3 ==> IsTail(a[2]))
    && (|a| >= 2 ==>
          && a[1] <= 0xBF
          && if a[0] == 0xE0 then a[1] >= 0xA0
             else if a[0] == 0xED then a[1] <= 0x9F
             else if a[0] == 0xF0 then a[1] >= 0x90
             else if a[0] == 0xF4 then a[1] <= 0x8F
             else a[1] >= 0x80)
    && !(0x80 <= a[0] < 0xC2) && a[0] <= 0xF4
  }

  /** The byte sequences of section 4 of RFC 3629. */
  ghost predicate Rfc3629(a: seq<int>) {
    match |a|
    case 1 => 0 <= a[0] <= 0x7F
    case 2 => 0xC2 <= a[0] <= 0xDF && IsTail(a[1])
    case 3 =>
      && IsTail(a[2])
      && (|| (a[0] == 0xE0 && 0xA0 <= a[1] <= 0xBF)
          || (0xE1 <= a[0] <= 0xEC && IsTail(a[1]))
          || (a[0] == 0xED && 0x80 <= a[1] <= 0x9F)
          || (0xEE <= a[0] <= 0xEF && IsTail(a[1])))
    case 4 =>
      && IsTail(a[2]) && IsTail(a[3])
      && (|| (a[0] == 0xF0 && 0x90 <= a[1] <= 0xBF)
          || (0xF1 <= a[0] <= 0xF3 && IsTail(a[1]))
          || (a[0] == 0xF4 && 0x80 <= a[1] <= 0x8F))
    case _ => false
  }

  ghost predicate IsBytes(a: seq<int>) {
    forall k :: 0 <= k < |a| ==> 0 <= a[k] <= 255
  }

  /** What the check accepts beyond the standard: the second byte after 0xED and 0xF4
      has an upper bound only. */
  ghost predicate Extra(a: seq<int>) {
    && |a| >= 3 && (a[0] == 0xED || a[0] == 0xF4) && a[1] < 0x80 && IsTail(a[2]) && (|a| == 4 ==> IsTail(a[3]))
  }

  lemma LegalExactly(a: seq<int>)
    requires IsBytes(a) && |a| > 0 && |a| == Trailing(a[0]) + 1
    ensures IsLegal(a) <==> Rfc3629(a) || Extra(a)
    ensures !(Rfc3629(a) && Extra(a))
  {
    if |a| >= 2 { assert 0 <= a[1] <= 255; }
  }

  /** Not everything accepted is standard. */
  lemma ExtraExample()
    ensures IsLegal([0xED, 0x00, 0x80]) && !Rfc3629([0xED, 0x00, 0x80])
  {
  }

  /** Whatever is accepted stands for a character, so the checks after it never fail. */
  lemma LegalIsScalar(a: seq<int>)
    requires IsBytes(a) && |a| > 0 && |a| == Trailing(a[0]) + 1 && IsLegal(a)
    ensures IsScalar(Decode(a))
  {
    AccumulateIs(a);
    if |a| >= 2 { assert 0 <= a[1] <= 255; }
  }

  lemma Sextet(x: int)
    ensures x == x / 64 * 64 + x % 64 && 0 <= x % 64 < 64
  {
  }

  lemma Twice(x: int)
    ensures x / 64 / 64 == x / 4096
  {
  }

  lemma Thrice(x: int)
    ensures x / 4096 / 64 == x / 262144
  {
  }

  lemma Sextets(ch: int)
    requires ch >= 0
    ensures ch == ch / 262144 * 262144 + ch / 4096 % 64 * 4096 + ch / 64 % 64 * 64 + ch % 64
    ensures ch < 0x10000 ==> ch / 4096 < 16 && ch == ch / 4096 * 4096 + ch / 64 % 64 * 64 + ch % 64
    ensures ch < 0x800 ==> ch / 64 < 32 && ch == ch / 64 * 64 + ch % 64
  {
    var a, b, c := ch / 64, ch / 4096, ch / 262144;
    Twice(ch);
    Thrice(ch);
    Sextet(ch);
    Sextet(a);
    Sextet(b);
    assert ch == a * 64 + ch % 64 && a == b * 64 + a % 64 && b == c * 64 + b % 64;
  }

  lemma EncodeLegal(ch: int)
    requires IsScalar(ch)
    ensures var a := Encode(ch); 1 <= |a| <= 4 && |a| == Trailing(a[0]) + 1 && IsBytes(a) && Rfc3629(a)
  {
    Sextets(ch);
  }

  lemma DecodeIs(a: seq<int>, ch: int)
    requires 0 <= ch <= 0x10FFFF && 1 <= |a| <= 4 && Accumulate(a) == ch + MarkSum(|a| - 1)
    ensures Decode(a) == ch
  {
  }

  /** The encoding of a character is standard, and decoding gives the character back. */
  lemma DecodeEncode(ch: int)
    requires IsScalar(ch)
    ensures var a := Encode(ch); 1 <= |a| <= 4 && |a| == Trailing(a[0]) + 1 && IsBytes(a) && Rfc3629(a) && IsLegal(a) && Decode(a) == ch
  {
    var a := Encode(ch);
    EncodeLegal(ch);
    LegalExactly(a);
    AccumulateIs(a);
    Sextets(ch);
    hide Decode, IsLegal, Rfc3629, Accumulate, IsBytes, Trailing;
    DecodeIs(a, ch);
  }

  /** An accepted sequence is the encoding of what it decodes to exactly when it is standard. */
  lemma EncodeDecode(a: seq<int>)
    requires IsBytes(a) && |a| > 0 && |a| == Trailing(a[0]) + 1 && IsLegal(a)
    ensures Encode(Decode(a)) == a <==> Rfc3629(a)
  {
    LegalIsScalar(a);
    LegalExactly(a);
    DecodeEncode(Decode(a));
    AccumulateIs(a);
    if Rfc3629(a) { RfcRoundTrip(a); }
  }

  lemma RfcRoundTrip(a: seq<int>)
    requires Rfc3629(a)
    ensures Encode(Decode(a)) == a
  {
    hide Decode, Accumulate, Rfc3629, IsTail;
    var ch := Accumulate(a) - MarkSum(|a| - 1);
    AccumulateIs(a);
    RfcRange(a);
    DecodeIs(a, ch);
    forall k | 1 <= k < |a| ensures 0 <= a[k] - 0x80 < 64 { TailIs(a[k]); }
    match |a| {
      case 1 =>
      case 2 => Digits(0, 0, a[0] - 0xC0, a[1] - 0x80);
      case 3 => Digits(0, a[0] - 0xE0, a[1] - 0x80, a[2] - 0x80);
      case 4 => Digits(a[0] - 0xF0, a[1] - 0x80, a[2] - 0x80, a[3] - 0x80);
    }
  }

  lemma TailIs(b: int)
    ensures IsTail(b) <==> 0x80 <= b <= 0xBF
  {
  }

  lemma RfcRange(a: seq<int>)
    requires Rfc3629(a)
    ensures 1 <= |a| <= 4 && (forall k :: 1 <= k < |a| ==> IsTail(a[k]))
    ensures var ch := Accumulate(a) - MarkSum(|a| - 1);
            && 0 <= ch <= 0x10FFFF
            && |a| == if ch < 0x80 then 1 else if ch < 0x800 then 2 else if ch < 0x10000 then 3 else 4
    ensures |a| == 2 ==> 0xC0 <= a[0] < 0xE0
    ensures |a| == 3 ==> 0xE0 <= a[0] < 0xF0
    ensures |a| == 4 ==> 0xF0 <= a[0] < 0xF8
  {
    AccumulateIs(a);
  }

  lemma Digits(d3: int, d2: int, d1: int, d0: int)
    requires 0 <= d3 && 0 <= d2 < 64 && 0 <= d1 < 64 && 0 <= d0 < 64
    ensures var x := d3 * 262144 + d2 * 4096 + d1 * 64 + d0;
            x % 64 == d0 && x / 64 % 64 == d1 && x / 4096 % 64 == d2 && x / 262144 == d3
            && x / 64 == d3 * 4096 + d2 * 64 + d1 && x / 4096 == d3 * 64 + d2
  {
  }

  function Pair(ch: int): seq<int> {
    [(ch - 0x10000) / 1024 + 0xD800, (ch - 0x10000) % 1024 + 0xDC00]
  }

  function Join(high: int, low: int): int {
    (high - 0xD800) * 1024 + (low - 0xDC00) + 0x10000
  }

  /** A character in UTF-16. */
  function Units(ch: int): seq<int> {
    if ch <= 0xFFFF then [ch] else Pair(ch)
  }

  // -------------------------------------------------------------- conversions

  datatype Codec = Utf16To8 | Utf32To8 | Utf8To16 | Utf8To32

  datatype Status = Ok | SourceExhausted | TargetExhausted | SourceIllegal

  /** What a converter does next: write `units` for the next `len` units of the source
      (`bad`: and report an illegal source in the end), or stop. A `late` stop is
      only noticed if there is room in the target. */
  datatype Step = Emit(len: int, units: seq<int>, bad: bool) | Stop(status: Status, late: bool)

  function From16(s: seq<int>, strict: bool): Step
    requires s != []
  {
    if IsHigh(s[0]) then
      if |s| == 1 then Stop(SourceExhausted, false)
      else if IsLow(s[1]) then Emit(2, Encode(Join(s[0], s[1])), false)
      else if strict then Stop(SourceIllegal, false)
      else Emit(1, Encode(s[0]), false)
    else if strict && IsLow(s[0]) then Stop(SourceIllegal, false)
    else Emit(1, Encode(s[0]), false)
  }

  function From32(s: seq<int>, strict: bool): Step
    requires s != []
  {
    if strict && IsSurrogate(s[0]) then Stop(SourceIllegal, false)
    else if s[0] <= 0x10FFFF then Emit(1, Encode(s[0]), false)
    else Emit(1, Encode(REPLACEMENT), true)
  }

  function From8(s: seq<int>, strict: bool, wide: bool): Step
    requires s != []
  {
    var n := Trailing(s[0]) + 1;
    if n > |s| then Stop(SourceExhausted, false)
    else if !IsLegal(s[..n]) then Stop(SourceIllegal, false)
    else
      var ch := Decode(s[..n]);
      if IsSurrogate(ch) then if strict then Stop(SourceIllegal, true) else Emit(n, [REPLACEMENT], false)
      else if ch > 0x10FFFF then
        if wide then Emit(n, [REPLACEMENT], true) else if strict then Stop(SourceIllegal, true) else Emit(n, [REPLACEMENT], false)
      else Emit(n, if wide then [ch] else Units(ch), false)
  }

  function Next(c: Codec, s: seq<int>, strict: bool): (r: Step)
    requires s != []
    ensures r.Emit? ==> 1 <= r.len <= |s|
  {
    match c
    case Utf16To8 => From16(s, strict)
    case Utf32To8 => From32(s, strict)
    case Utf8To16 => From8(s, strict, false)
    case Utf8To32 => From8(s, strict, true)
  }

  datatype Outcome = Outcome(status: Status, used: int, out: seq<int>)

  /** What a step and the outcome of the rest make together. */
  function After(e: Step, r: Outcome): Outcome
    requires e.Emit?
  {
    Outcome(if e.bad && r.status == Ok then SourceIllegal else r.status, e.len + r.used, e.units + r.out)
  }

  /** The conversion of all of `s` into a target with room enough. */
  ghost function Full(c: Codec, s: seq<int>, strict: bool): (r: Outcome)
    ensures 0 <= r.used <= |s|
    decreases |s|
  {
    if s == [] then Outcome(Ok, 0, [])
    else
      match Next(c, s, strict)
      case Stop(status, _) => Outcome(status, 0, [])
      case Emit(len, units, bad) =>
        After(Next(c, s, strict), Full(c, s[len..], strict))
  }

  /** The next step does not fit. */
  ghost predicate Blocked(c: Codec, s: seq<int>, strict: bool, room: int) {
    s != [] && match Next(c, s, strict) {
      case Emit(_, units, _) => |units| > room
      case Stop(_, late) => late && room <= 0
    }
  }

  /** What has been done and what is left to do add up. */
  ghost predicate Partial(c: Codec, strict: bool, s: seq<int>, at: int, out: seq<int>) {
    && 0 <= at <= |s|
    && Full(c, s, strict).out == out + Full(c, s[at..], strict).out
    && Full(c, s, strict).used == at + Full(c, s[at..], strict).used
  }

  ghost predicate StatusSoFar(c: Codec, strict: bool, s: seq<int>, at: int, bad: bool) {
    0 <= at <= |s| && Full(c, s, strict).status == var r := Full(c, s[at..], strict).status; if bad && r == Ok then SourceIllegal else r
  }

  lemma PartialStep(c: Codec, strict: bool, s: seq<int>, at: int, out: seq<int>, bad: bool)
    requires Partial(c, strict, s, at, out) && StatusSoFar(c, strict, s, at, bad) && at < |s|
    ensures var e := Next(c, s[at..], strict);
            if e.Emit? then Partial(c, strict, s, at + e.len, out + e.units) && StatusSoFar(c, strict, s, at + e.len, bad || e.bad)
            else Full(c, s, strict) == Outcome(e.status, at, out)
  {
    hide *;
    PartialIs(c, strict, s, at, out, bad);
    var rest := s[at..];
    FullStep(c, rest, strict);
    StopIsFinal(c, rest, strict);
    var e := Next(c, rest, strict);
    if e.Emit? {
      TailOfTail(s, at, e.len);
      AfterIs(e, Full(c, rest[e.len..], strict));
      assert (out + e.units) + Full(c, s[at + e.len..], strict).out == out + (e.units + Full(c, s[at + e.len..], strict).out);
      PartialIs(c, strict, s, at + e.len, out + e.units, bad || e.bad);
    } else {
      assert out + [] == out;
    }
  }

  lemma AfterIs(e: Step, r: Outcome)
    requires e.Emit?
    ensures After(e, r) == Outcome(if e.bad && r.status == Ok then SourceIllegal else r.status, e.len + r.used, e.units + r.out)
  {
  }

  lemma TailOfTail(s: seq<int>, at: int, len: int)
    requires 0 <= at && 0 <= len && at + len <= |s|
    ensures s[at..][len..] == s[at + len..]
  {
  }

  lemma FullStep(c: Codec, s: seq<int>, strict: bool)
    requires s != []
    ensures Next(c, s, strict).Stop? ==> Full(c, s, strict) == Outcome(Next(c, s, strict).status, 0, [])
    ensures Next(c, s, strict).Emit? ==>
              && 1 <= Next(c, s, strict).len <= |s|
              && Full(c, s, strict) == After(Next(c, s, strict), Full(c, s[Next(c, s, strict).len..], strict))
  {
  }

  lemma PartialIs(c: Codec, strict: bool, s: seq<int>, at: int, out: seq<int>, bad: bool)
    ensures Partial(c, strict, s, at, out) <==>
              && 0 <= at <= |s| && Full(c, s, strict).out == out + Full(c, s[at..], strict).out
              && Full(c, s, strict).used == at + Full(c, s[at..], strict).used
    ensures StatusSoFar(c, strict, s, at, bad) <==>
              && 0 <= at <= |s|
              && Full(c, s, strict).status == if bad && Full(c, s[at..], strict).status == Ok then SourceIllegal else Full(c, s[at..], strict).status
  {
    hide Full;
  }

  /** A converter: reads from `s` and writes up to `capacity` units. */
  method Convert(c: Codec, s: seq<int>, capacity: nat, strict: bool) returns (status: Status, at: int, out: seq<int>)
    ensures Partial(c, strict, s, at, out) && |out| <= capacity
    ensures if status == TargetExhausted then Blocked(c, s[at..], strict, capacity - |out|)
            else Full(c, s, strict) == Outcome(status, at, out)
  {
    hide *;
    status, at, out := Ok, 0, [];
    Start(c, strict, s);
    while at < |s|
      invariant Partial(c, strict, s, at, out) && |out| <= capacity && 0 <= at <= |s|
      invariant (status == Ok || status == SourceIllegal) && StatusSoFar(c, strict, s, at, status == SourceIllegal)
      decreases |s| - at
    {
      PartialStep(c, strict, s, at, out, status == SourceIllegal);
      BlockedIs(c, s[at..], strict, capacity - |out|);
      match Next(c, s[at..], strict) {
        case Stop(st, late) =>
          status := if late && |out| >= capacity then TargetExhausted else st;
          StopIsFinal(c, s[at..], strict);
          return;
        case Emit(len, units, bad) =>
          if |out| + |units| > capacity {
            status := TargetExhausted;
            return;
          }
          at, out := at + len, out + units;
          if bad { status := SourceIllegal; }
      }
    }
    AtEnd(c, strict, s, at, out, status == SourceIllegal);
  }

  lemma BlockedIs(c: Codec, s: seq<int>, strict: bool, room: int)
    requires s != []
    ensures Blocked(c, s, strict, room) <==> match Next(c, s, strict) {
              case Emit(_, units, _) => |units| > room
              case Stop(_, late) => late && room <= 0
            }
    ensures Next(c, s, strict).Emit? ==> 1 <= Next(c, s, strict).len <= |s|
  {
  }

  lemma Start(c: Codec, strict: bool, s: seq<int>)
    ensures Partial(c, strict, s, 0, []) && StatusSoFar(c, strict, s, 0, false)
  {
    assert s[0..] == s;
    hide Full;
  }

  lemma StopIsFinal(c: Codec, s: seq<int>, strict: bool)
    requires s != []
    ensures Next(c, s, strict).Stop? ==> Next(c, s, strict).status in {SourceExhausted, SourceIllegal}
  {
  }

  lemma AtEnd(c: Codec, strict: bool, s: seq<int>, at: int, out: seq<int>, bad: bool)
    requires Partial(c, strict, s, at, out) && StatusSoFar(c, strict, s, at, bad) && at == |s|
    ensures Full(c, s, strict) == Outcome(if bad then SourceIllegal else Ok, at, out)
  {
    assert s[at..] == [];
    assert out + [] == out;
  }

  // ------------------------------------------------------------ whole strings

  ghost predicate Scalars(u: seq<int>) {
    forall k :: 0 <= k < |u| ==> IsScalar(u[k])
  }

  ghost function Utf8(u: seq<int>): seq<int> {
    if u == [] then [] else Encode(u[0]) + Utf8(u[1..])
  }

  ghost function Utf16(u: seq<int>): seq<int> {
    if u == [] then [] else Units(u[0]) + Utf16(u[1..])
  }

  lemma Front(a: seq<int>, b: seq<int>)
    ensures (a + b)[..|a|] == a && (a + b)[|a|..] == b
  {
  }

  /** Reading one encoded character, whatever comes after it. */
  lemma ReadEncoded(ch: int, rest: seq<int>, strict: bool)
    requires IsScalar(ch)
    ensures var s := Encode(ch) + rest;
            && From8(s, strict, true) == Emit(|Encode(ch)|, [ch], false)
            && From8(s, strict, false) == Emit(|Encode(ch)|, Units(ch), false)
  {
    var a := Encode(ch);
    DecodeEncode(ch);
    Front(a, rest);
    assert (a + rest)[0] == a[0];
    hide Decode, Encode, IsLegal, Rfc3629, IsBytes;
  }

  lemma UnitsAre(ch: int)
    requires IsScalar(ch)
    ensures |Units(ch)| == 1 || |Units(ch)| == 2
    ensures |Units(ch)| == 1 ==> Units(ch)[0] == ch && !IsHigh(ch) && !IsLow(ch)
    ensures |Units(ch)| == 2 ==> IsHigh(Units(ch)[0]) && IsLow(Units(ch)[1]) && Join(Units(ch)[0], Units(ch)[1]) == ch
  {
  }

  /** Reading one character of UTF-16, whatever comes after it. */
  lemma ReadUnits(ch: int, rest: seq<int>, strict: bool)
    requires IsScalar(ch)
    ensures Units(ch) + rest != [] && From16(Units(ch) + rest, strict) == Emit(|Units(ch)|, Encode(ch), false)
  {
    hide Encode, Units;
    UnitsAre(ch);
    var s := Units(ch) + rest;
    assert s[0] == Units(ch)[0] && (|Units(ch)| == 2 ==> s[1] == Units(ch)[1]);
  }

  lemma NothingToDo(c: Codec, strict: bool)
    ensures Full(c, [], strict) == Outcome(Ok, 0, [])
  {
  }

  lemma EncodeNonEmpty(ch: int)
    ensures Encode(ch) != []
  {
  }

  /** A string of characters as the source of a converter, */
  ghost function Source(c: Codec, u: seq<int>): seq<int> {
    match c
    case Utf16To8 => Utf16(u)
    case Utf32To8 => u
    case _ => Utf8(u)
  }

  /** and as its target. */
  ghost function Target(c: Codec, u: seq<int>): seq<int> {
    match c
    case Utf8To16 => Utf16(u)
    case Utf8To32 => u
    case _ => Utf8(u)
  }

  /** Any converter takes one character at a time, whatever comes after it. */
  lemma ReadOne(c: Codec, ch: int, rest: seq<int>, strict: bool)
    requires IsScalar(ch)
    ensures Source(c, [ch]) != [] && Next(c, Source(c, [ch]) + rest, strict) == Emit(|Source(c, [ch])|, Target(c, [ch]), false)
  {
    hide Encode, Units, From8, From16;
    Single(ch);
    EncodeNonEmpty(ch);
    UnitsAre(ch);
    ReadEncoded(ch, rest, strict);
    ReadUnits(ch, rest, strict);
    assert ([ch] + rest)[0] == ch;
  }

  lemma Single(ch: int)
    ensures Utf8([ch]) == Encode(ch) && Utf16([ch]) == Units(ch)
  {
    hide Encode, Units;
    assert [ch][1..] == [];
    assert Encode(ch) + [] == Encode(ch) && Units(ch) + [] == Units(ch);
  }

  lemma FirstOf(c: Codec, u: seq<int>)
    requires u != []
    ensures Source(c, u) == Source(c, [u[0]]) + Source(c, u[1..]) && Target(c, u) == Target(c, [u[0]]) + Target(c, u[1..])
  {
    hide Encode, Units;
    Single(u[0]);
  }

  /** A string of characters is converted in full, whatever comes after it. */
  lemma {:induction false} ConvertThen(c: Codec, u: seq<int>, rest: seq<int>, strict: bool)
    requires Scalars(u)
    ensures var r := Full(c, rest, strict);
            Full(c, Source(c, u) + rest, strict) == Outcome(r.status, |Source(c, u)| + r.used, Target(c, u) + r.out)
  {
    hide *;
    var r := Full(c, rest, strict);
    if u == [] {
      NoCharacters(c);
      assert [] + rest == rest && [] + r.out == r.out;
    } else {
      var a, b := Source(c, [u[0]]), Source(c, u[1..]);
      ScalarsApart(u);
      ConvertThen(c, u[1..], rest, strict);
      ReadOne(c, u[0], b + rest, strict);
      FirstOf(c, u);
      assert a + (b + rest) == Source(c, u) + rest;
      FullStep(c, a + (b + rest), strict);
      Front(a, b + rest);
      AfterIs(Next(c, a + (b + rest), strict), Full(c, b + rest, strict));
      assert Target(c, [u[0]]) + (Target(c, u[1..]) + r.out) == Target(c, u) + r.out;
    }
  }

  lemma NoCharacters(c: Codec)
    ensures Source(c, []) == [] && Target(c, []) == []
  {
  }

  lemma ScalarsApart(u: seq<int>)
    requires Scalars(u) && u != []
    ensures IsScalar(u[0]) && Scalars(u[1..])
  {
  }

  /** A string of characters alone. */
  lemma ConvertAll(c: Codec, u: seq<int>, strict: bool)
    requires Scalars(u)
    ensures Full(c, Source(c, u), strict) == Outcome(Ok, |Source(c, u)|, Target(c, u))
  {
    hide *;
    ConvertThen(c, u, [], strict);
    NothingToDo(c, strict);
    assert Source(c, u) + [] == Source(c, u) && Target(c, u) + [] == Target(c, u);
  }

  lemma Convert32To8(u: seq<int>, strict: bool)
    requires Scalars(u)
    ensures Full(Utf32To8, u, strict) == Outcome(Ok, |u|, Utf8(u))
  {
    hide Full, Utf8;
    ConvertAll(Utf32To8, u, strict);
  }

  lemma Convert8To32(u: seq<int>, strict: bool)
    requires Scalars(u)
    ensures Full(Utf8To32, Utf8(u), strict) == Outcome(Ok, |Utf8(u)|, u)
  {
    hide Full, Utf8;
    ConvertAll(Utf8To32, u, strict);
  }

  lemma Convert16To8(u: seq<int>, strict: bool)
    requires Scalars(u)
    ensures Full(Utf16To8, Utf16(u), strict) == Outcome(Ok, |Utf16(u)|, Utf8(u))
  {
    hide Full, Utf8, Utf16;
    ConvertAll(Utf16To8, u, strict);
  }

  lemma Convert8To16(u: seq<int>, strict: bool)
    requires Scalars(u)
    ensures Full(Utf8To16, Utf8(u), strict) == Outcome(Ok, |Utf8(u)|, Utf16(u))
  {
    hide Full, Utf8, Utf16;
    ConvertAll(Utf8To16, u, strict);
  }

  // -------------------------------------------------------- what is not a string

  /** The length a first byte announces: that of the standard, and for bytes no
      character starts with that of its predecessor, RFC 2279. */
  ghost predicate Announces(lead: int, n: int) {
    || (n == 1 && 0 <= lead <= 0xBF) || (n == 2 && 0xC0 <= lead <= 0xDF) || (n == 3 && 0xE0 <= lead <= 0xEF)
    || (n == 4 && 0xF0 <= lead <= 0xF7) || (n == 5 && 0xF8 <= lead <= 0xFB) || (n == 6 && 0xFC <= lead <= 0xFF)
  }

  lemma AnnouncesLength(lead: int, n: int)
    requires Announces(lead, n)
    ensures n == Trailing(lead) + 1
  {
  }

  /** Bytes that are no character stop the conversion there, with all that came
      before them converted: too few bytes as an end of the source that may go
      on, and bytes that are neither standard nor the extra ones as illegal. */
  lemma NotUtf8(c: Codec, u: seq<int>, bad: seq<int>, n: int, strict: bool)
    requires (c == Utf8To16 || c == Utf8To32) && Scalars(u) && IsBytes(bad) && bad != [] && Announces(bad[0], n)
    ensures |bad| < n ==> Full(c, Utf8(u) + bad, strict) == Outcome(SourceExhausted, |Utf8(u)|, Target(c, u))
    ensures |bad| >= n && !Rfc3629(bad[..n]) && !Extra(bad[..n]) ==>
              Full(c, Utf8(u) + bad, strict) == Outcome(SourceIllegal, |Utf8(u)|, Target(c, u))
  {
    hide Full, Utf8, Utf16, Rfc3629, Extra, IsLegal, Decode;
    AnnouncesLength(bad[0], n);
    ConvertThen(c, u, bad, strict);
    FullStep(c, bad, strict);
    assert Target(c, u) + [] == Target(c, u);
    if |bad| >= n {
      assert bad[..n][0] == bad[0];
      LegalExactly(bad[..n]);
    }
  }

  /** A character that was cut is an end of the source that may go on. */
  lemma CutShort(c: Codec, u: seq<int>, ch: int, k: int, strict: bool)
    requires (c == Utf8To16 || c == Utf8To32) && Scalars(u) && IsScalar(ch) && 0 < k < |Encode(ch)|
    ensures Full(c, Utf8(u) + Encode(ch)[..k], strict) == Outcome(SourceExhausted, |Utf8(u)|, Target(c, u))
  {
    var n := |Encode(ch)|;
    DecodeEncode(ch);
    LeadAnnounces(ch);
    hide *;
    NotUtf8(c, u, Encode(ch)[..k], n, strict);
  }

  lemma LeadAnnounces(ch: int)
    requires IsScalar(ch)
    ensures Encode(ch) != [] && Announces(Encode(ch)[0], |Encode(ch)|) && IsBytes(Encode(ch))
    ensures forall k :: 0 < k < |Encode(ch)| ==> IsBytes(Encode(ch)[..k]) && Encode(ch)[..k] != [] && Encode(ch)[..k][0] == Encode(ch)[0]
  {
  }

  /** A surrogate that is not part of a pair. */
  ghost predicate Lone(s: seq<int>) {
    s != [] && (0xDC00 <= s[0] <= 0xDFFF || (0xD800 <= s[0] <= 0xDBFF && |s| > 1 && !(0xDC00 <= s[1] <= 0xDFFF)))
  }

  /** A lone surrogate stops a strict conversion of UTF-16 and goes through a lenient
      one as three bytes; the first half of a pair at the end may go on. */
  lemma NotUtf16(u: seq<int>, bad: seq<int>, strict: bool)
    requires Scalars(u) && bad != []
    ensures Lone(bad) && strict ==> Full(Utf16To8, Utf16(u) + bad, strict) == Outcome(SourceIllegal, |Utf16(u)|, Utf8(u))
    ensures Lone(bad) && !strict ==>
              var r := Full(Utf16To8, bad[1..], strict);
              Full(Utf16To8, Utf16(u) + bad, strict) == Outcome(r.status, |Utf16(u)| + 1 + r.used, Utf8(u) + (Encode(bad[0]) + r.out))
    ensures |bad| == 1 && 0xD800 <= bad[0] <= 0xDBFF ==>
              Full(Utf16To8, Utf16(u) + bad, strict) == Outcome(SourceExhausted, |Utf16(u)|, Utf8(u))
  {
    hide Full, Utf8, Utf16, Encode;
    ConvertThen(Utf16To8, u, bad, strict);
    FullStep(Utf16To8, bad, strict);
    assert Utf8(u) + [] == Utf8(u);
  }

  /** A surrogate stops a strict conversion of UTF-32; what is beyond the last
      character is replaced, and the source reported as illegal in the end. */
  lemma NotUtf32(u: seq<int>, x: int, rest: seq<int>, strict: bool)
    requires Scalars(u)
    ensures 0xD800 <= x <= 0xDFFF && strict ==> Full(Utf32To8, u + ([x] + rest), strict) == Outcome(SourceIllegal, |u|, Utf8(u))
    ensures x > 0x10FFFF ==>
              var r := Full(Utf32To8, rest, strict);
              Full(Utf32To8, u + ([x] + rest), strict) ==
                Outcome(if r.status == Ok then SourceIllegal else r.status, |u| + 1 + r.used, Utf8(u) + ([0xEF, 0xBF, 0xBD] + r.out))
  {
    hide *;
    ConvertThen(Utf32To8, u, [x] + rest, strict);
    Ends32(u);
    FullStep(Utf32To8, [x] + rest, strict);
    Front([x], rest);
    Next32(x, rest, strict);
    assert Utf8(u) + [] == Utf8(u);
    AfterIs(Emit(1, [0xEF, 0xBF, 0xBD], true), Full(Utf32To8, rest, strict));
  }

  lemma Ends32(u: seq<int>)
    ensures Source(Utf32To8, u) == u && Target(Utf32To8, u) == Utf8(u)
  {
  }

  lemma Next32(x: int, rest: seq<int>, strict: bool)
    ensures 0xD800 <= x <= 0xDFFF && strict ==> Next(Utf32To8, [x] + rest, strict) == Stop(SourceIllegal, false)
    ensures x > 0x10FFFF ==> Next(Utf32To8, [x] + rest, strict) == Emit(1, [0xEF, 0xBF, 0xBD], true)
  {
    assert ([x] + rest)[0] == x;
    assert Encode(REPLACEMENT) == [0xEF, 0xBF, 0xBD];
  }

  /** Every surrogate is one of a pair. */
  ghost predicate WellFormed16(w: seq<int>)
    decreases |w|
  {
    w == []
    || (0 <= w[0] <= 0xFFFF && !IsSurrogate(w[0]) && WellFormed16(w[1..]))
    || (|w| >= 2 && IsHigh(w[0]) && IsLow(w[1]) && WellFormed16(w[2..]))
  }

  /** Well-formed UTF-16 is the UTF-16 of a string of characters. */
  lemma {:induction false} CharactersOf(w: seq<int>) returns (u: seq<int>)
    requires WellFormed16(w)
    ensures Scalars(u) && Utf16(u) == w
    decreases |w|
  {
    hide Units, Join;
    if w == [] {
      u := [];
    } else if !IsSurrogate(w[0]) {
      var v := CharactersOf(w[1..]);
      u := [w[0]] + v;
      assert u[1..] == v && w == [w[0]] + w[1..];
      OneUnit(w[0]);
    } else {
      var v := CharactersOf(w[2..]);
      u := [Join(w[0], w[1])] + v;
      assert u[1..] == v && w == [w[0], w[1]] + w[2..];
      TwoUnits(w[0], w[1]);
    }
  }

  lemma OneUnit(unit: int)
    requires 0 <= unit <= 0xFFFF && !IsSurrogate(unit)
    ensures IsScalar(unit) && Units(unit) == [unit]
  {
  }

  lemma TwoUnits(high: int, low: int)
    requires IsHigh(high) && IsLow(low)
    ensures IsScalar(Join(high, low)) && Units(Join(high, low)) == [high, low]
  {
  }

  /** Through UTF-8 and back nothing is lost: for all strings of characters, */
  lemma RoundTrip32(u: seq<int>, strict: bool)
    requires Scalars(u)
    ensures var e := Full(Utf32To8, u, strict);
            e.status == Ok && e.used == |u| && Full(Utf8To32, e.out, strict) == Outcome(Ok, |e.out|, u)
  {
    Convert32To8(u, strict);
    Convert8To32(u, strict);
  }

  /** and for all well-formed UTF-16. */
  lemma RoundTrip16(w: seq<int>, strict: bool)
    requires WellFormed16(w)
    ensures var e := Full(Utf16To8, w, strict);
            e.status == Ok && e.used == |w| && Full(Utf8To16, e.out, strict) == Outcome(Ok, |e.out|, w)
  {
    var u := CharactersOf(w);
    Convert16To8(u, strict);
    Convert8To16(u, strict);
  }

  // ------------------------------------------------------- room in the target

  /** A converter never stops for a character it has already found legal. */
  lemma NeverLate(c: Codec, s: seq<int>, strict: bool)
    requires s != [] && IsBytes(s)
    ensures Next(c, s, strict).Stop? ==> !Next(c, s, strict).late
  {
    if (c == Utf8To16 || c == Utf8To32) && Trailing(s[0]) + 1 <= |s| {
      var a := s[..Trailing(s[0]) + 1];
      assert IsBytes(a);
      if IsLegal(a) { LegalIsScalar(a); }
    }
  }

  /** With room for all of the output the target is never exhausted. */
  lemma RoomSuffices(c: Codec, strict: bool, s: seq<int>, at: int, out: seq<int>, capacity: nat)
    requires Partial(c, strict, s, at, out) && |Full(c, s, strict).out| <= capacity && (c == Utf16To8 || c == Utf32To8 || IsBytes(s))
    ensures !Blocked(c, s[at..], strict, capacity - |out|)
  {
    hide Next;
    if at < |s| {
      FullStep(c, s[at..], strict);
      if c == Utf8To16 || c == Utf8To32 {
        assert IsBytes(s[at..]);
        NeverLate(c, s[at..], strict);
      } else {
        NoChecksLater(c, s[at..], strict);
      }
    }
  }

  lemma NoChecksLater(c: Codec, s: seq<int>, strict: bool)
    requires s != [] && (c == Utf16To8 || c == Utf32To8)
    ensures Next(c, s, strict).Stop? ==> !Next(c, s, strict).late
  {
  }

  /** Goes on with a conversion, again and again, into targets of the given sizes. Put
      together, the outputs are what one target with room enough would have got. */
  method Resume(c: Codec, s: seq<int>, strict: bool, capacities: seq<nat>) returns (done: bool, at: int, out: seq<int>)
    ensures Partial(c, strict, s, at, out)
    ensures done ==> out == Full(c, s, strict).out && at == Full(c, s, strict).used
  {
    hide *;
    done, at, out := false, 0, [];
    Start(c, strict, s);
    PartialIs(c, strict, s, 0, [], false);
    for n := 0 to |capacities|
      invariant Partial(c, strict, s, at, out) && 0 <= at <= |s| && !done
    {
      var status, used, more := Convert(c, s[at..], capacities[n], strict);
      Joined(c, strict, s, at, out, used, more);
      at, out := at + used, out + more;
      if status != TargetExhausted {
        done := true;
        return;
      }
    }
  }

  lemma Joined(c: Codec, strict: bool, s: seq<int>, at: int, out: seq<int>, used: int, more: seq<int>)
    requires Partial(c, strict, s, at, out) && 0 <= at <= |s| && Partial(c, strict, s[at..], used, more)
    ensures Partial(c, strict, s, at + used, out + more) && 0 <= at + used <= |s|
    ensures forall status :: Full(c, s[at..], strict) == Outcome(status, used, more) ==>
              out + more == Full(c, s, strict).out && at + used == Full(c, s, strict).used
  {
    hide Full;
    assert s[at..][used..] == s[at + used..];
    var rest := Full(c, s[at + used..], strict).out;
    assert (out + more) + rest == out + (more + rest);
  }
}
