/** The incremental HTTP parser. It is handed ever longer prefixes of a message and
    keeps what it has understood so far. */
module HttpParser {
  import opened Text

  datatype State = ReadStatus | ReadHeader | ReadBody | Error

  datatype Parser = Parser(state: State, recvPos: int, statusCode: int, httpMethod: string, path: string, protocol: string,
                           message: string, contentLength: int, rangeStart: int, rangeEnd: int,
                           header: map<string, string>, bodyStart: int, finished: bool)

  function Initial(): Parser {
    Parser(ReadStatus, 0, -1, "", "", "", "", -1, -1, -1, map[], 0, false)
  }

  // -------------------------------------------------------------- one line

  /** The text of a line, without a carriage return before its end. */
  function LineText(s: string): string {
    if |s| > 0 && s[|s| - 1] == '\r' then s[..|s| - 1] else s
  }

  /** The first line of a response or a request. */
  function StatusLine(p: Parser, line: string): (q: Parser)
    ensures q.recvPos == p.recvPos && q.state == ReadHeader && q.bodyStart == p.bodyStart && q.finished == p.finished
  {
    var (first, a) := ReadUntil(line, ' ', 0);
    var (second, b) := ReadUntil(line, ' ', a);
    if |first| >= 5 && first[..5] == "HTTP/" then
      p.(state := ReadHeader, protocol := first, statusCode := Strtoll(second, 0).0, message := ReadUntil(line, '\r', b).0)
    else
      p.(state := ReadHeader, httpMethod := Lower(first), contentLength := 0, path := second,
         protocol := ReadUntil(line, ' ', b).0, statusCode := 0)
  }

  function SkipBlanks(s: string, i: int): (r: int)
    requires 0 <= i <= |s|
    ensures i <= r <= |s|
    decreases |s| - i
  {
    if i < |s| && (s[i] == ' ' || s[i] == '\t') then SkipBlanks(s, i + 1) else i
  }

  /** The value of a Content-Range field. A range that makes no sense is an error. */
  function ContentRange(p: Parser, value: string): (q: Parser)
    ensures q.recvPos == p.recvPos && (q.state == p.state || q.state == Error) && q.bodyStart == p.bodyStart && q.finished == p.finished
  {
    var at := if BeginsNoCase("bytes ", value) then 6 else 0;
    var (start, a) := Strtoll(value, at);
    var dash := a > at && a < |value| && value[a] == '-';
    var (last, b) := if dash then Strtoll(value, a + 1) else (p.rangeEnd, a);
    var q := p.(rangeStart := start, rangeEnd := last);
    if !dash || b == a + 1 || last < start then q.(state := Error)
    else q.(contentLength := last - start + 1)
  }

  /** A header field: the first of a name is kept, the length and the range are taken over. */
  function Field(p: Parser, name: string, value: string): (q: Parser)
    ensures q.recvPos == p.recvPos && (q.state == p.state || q.state == Error) && q.bodyStart == p.bodyStart && q.finished == p.finished
  {
    var q := p.(header := if name in p.header then p.header else p.header[name := value]);
    if name == "content-length" then q.(contentLength := Strtoll(value, 0).0)
    else if name == "content-range" then ContentRange(q, value)
    else q
  }

  /** A header field, or the blank line that ends the header: after a 100 Continue
      another response follows, otherwise the body does. */
  function HeaderLine(p: Parser, line: string): (q: Parser)
    ensures q.recvPos == p.recvPos && (p.state == ReadHeader ==> q.bodyStart == if q.state == ReadBody then p.recvPos else p.bodyStart)
    ensures q.finished == p.finished
  {
    var separator := IndexOf(line, ':', 0);
    if separator == |line| then
      if p.statusCode == 100 then p.(state := ReadStatus) else p.(state := ReadBody, bodyStart := p.recvPos)
    else
      Field(p, Lower(line[..separator]), line[SkipBlanks(line, separator + 1)..])
  }

  /** The line of `buf` from `recvPos` to the newline at `nl`. */
  function Line(p: Parser, buf: string, nl: int): (q: Parser)
    requires 0 <= p.recvPos <= nl < |buf| && (p.state == ReadStatus || p.state == ReadHeader)
    ensures q.state == Error || q.recvPos == nl + 1
    ensures q.recvPos == p.recvPos || q.recvPos == nl + 1
    ensures q.finished == p.finished && q.bodyStart == if q.state == ReadBody then q.recvPos else p.bodyStart
  {
    if p.state == ReadStatus && nl == p.recvPos then p.(state := Error)
    else
      var text := LineText(buf[p.recvPos..nl]);
      var q := p.(recvPos := nl + 1);
      if p.state == ReadStatus then StatusLine(q, text) else HeaderLine(q, text)
  }

  /** The body: as much as the content length allows, or everything. */
  function Body(p: Parser, size: int): Parser {
    var rest := size - p.recvPos;
    var more := if p.recvPos - p.bodyStart + rest > p.contentLength && p.contentLength >= 0
                then p.contentLength - p.recvPos + p.bodyStart else rest;
    var at := p.recvPos + more;
    p.(recvPos := at, finished := p.finished || (p.contentLength >= 0 && at - p.bodyStart >= p.contentLength))
  }

  // ------------------------------------------------------------ a whole buffer

  ghost predicate Reading(p: Parser) {
    p.state == ReadStatus || p.state == ReadHeader
  }

  /** Within a buffer of the given size; a body never reaches past its length. */
  ghost predicate Inside(p: Parser, size: int) {
    && 0 <= p.bodyStart <= p.recvPos <= size
    && (p.state == ReadBody && p.contentLength >= 0 ==> p.recvPos <= p.bodyStart + p.contentLength)
  }

  /** The parser after it has seen all of `buf`. */
  ghost function Seen(p: Parser, buf: string): (q: Parser)
    requires Inside(p, |buf|)
    ensures Inside(q, |buf|)
    decreases |buf| - p.recvPos, if Reading(p) then 1 else 0
  {
    if p.state == Error then p
    else if p.state == ReadBody then Body(p, |buf|)
    else
      var nl := IndexOf(buf, '\n', p.recvPos);
      if nl == |buf| then p else Seen(Line(p, buf, nl), buf)
  }

  lemma NewlineInPrefix(buf: string, k: int, i: int)
    requires 0 <= i <= k <= |buf|
    ensures var nl := IndexOf(buf[..k], '\n', i);
            nl < k ==> IndexOf(buf, '\n', i) == nl
    decreases k - i
  {
    if i < k && buf[i] != '\n' { NewlineInPrefix(buf, k, i + 1); }
  }

  /** More of the message after a part of it comes to the same as all of it at once. */
  lemma {:induction false} SeenInParts(p: Parser, buf: string, k: int)
    requires 0 <= k <= |buf| && Inside(p, k)
    ensures Seen(Seen(p, buf[..k]), buf) == Seen(p, buf)
    decreases |buf| - p.recvPos, if Reading(p) then 1 else 0
  {
    hide Line, Body;
    if p.state == ReadBody {
      BodyInParts(p, k, |buf|);
    } else if Reading(p) {
      var nl := IndexOf(buf[..k], '\n', p.recvPos);
      NewlineInPrefix(buf, k, p.recvPos);
      if nl < k {
        SameLine(p, buf, k, nl);
        LineInside(p, buf, nl);
        SeenInParts(Line(p, buf, nl), buf, k);
      }
    }
  }

  lemma SameLine(p: Parser, buf: string, k: int, nl: int)
    requires 0 <= p.recvPos <= nl < k <= |buf| && Reading(p)
    ensures Line(p, buf[..k], nl) == Line(p, buf, nl)
  {
    assert buf[..k][p.recvPos..nl] == buf[p.recvPos..nl];
  }

  lemma LineInside(p: Parser, buf: string, nl: int)
    requires 0 <= p.bodyStart <= p.recvPos <= nl < |buf| && Reading(p)
    ensures Inside(Line(p, buf, nl), nl + 1)
  {
    hide StatusLine, HeaderLine, LineText;
  }

  lemma BodyInParts(p: Parser, k: int, size: int)
    requires p.state == ReadBody && Inside(p, k) && k <= size
    ensures Inside(Body(p, k), k) && Body(p, k).state == ReadBody && Body(Body(p, k), size) == Body(p, size)
  {
  }

  // -------------------------------------------------------------- what is counted

  /** How many bytes of protocol, and of payload, there have been. */
  function ProtocolBytes(p: Parser, size: int): int {
    if p.state == ReadBody then p.bodyStart else size
  }

  function PayloadBytes(p: Parser): int {
    if p.state == ReadBody then p.recvPos - p.bodyStart else 0
  }

  // ---------------------------------------------------------------- incoming

  lemma SeenLine(p: Parser, buf: string, nl: int)
    requires Inside(p, |buf|) && Reading(p) && nl == IndexOf(buf, '\n', p.recvPos)
    ensures nl == |buf| ==> Seen(p, buf) == p
    ensures nl < |buf| ==> Inside(Line(p, buf, nl), |buf|) && Seen(Line(p, buf, nl), buf) == Seen(p, buf)
  {
    if nl < |buf| { LineInside(p, buf, nl); }
    hide Line;
  }

  lemma LineFacts(p: Parser, buf: string, nl: int)
    requires 0 <= p.recvPos <= nl < |buf| && Reading(p)
    ensures var q := Line(p, buf, nl);
            && (q.state == Error || q.recvPos == nl + 1)
            && (q.state == ReadBody ==> q.bodyStart == q.recvPos)
            && (p.state == ReadStatus ==> q.state == (if nl == p.recvPos then Error else ReadHeader))
  {
    hide StatusLine, HeaderLine, LineText;
  }

  /** Header lines, as long as there are complete ones and the header goes on. `end` is
      where the last line read ends, or the end of the buffer when a line is not complete. */
  method HeaderLines(p0: Parser, buf: string) returns (p: Parser, end: int)
    requires Inside(p0, |buf|) && p0.state == ReadHeader
    ensures Inside(p, |buf|) && Seen(p, buf) == Seen(p0, buf) && p.recvPos >= p0.recvPos
    ensures match p.state {
              case ReadHeader => end == |buf| && Seen(p, buf) == p
              case ReadStatus => p.recvPos > p0.recvPos
              case ReadBody => end == p.recvPos == p.bodyStart
              case Error => true
            }
  {
    hide Line, Seen;
    p := p0;
    end := IndexOf(buf, '\n', p.recvPos);
    SeenLine(p, buf, end);
    while end != |buf| && p.state == ReadHeader
      invariant Inside(p, |buf|) && Seen(p, buf) == Seen(p0, buf) && p0.recvPos <= p.recvPos
      invariant p.state == ReadHeader ==> end == IndexOf(buf, '\n', p.recvPos) && (end == |buf| ==> Seen(p, buf) == p)
      invariant p.state == ReadBody ==> end == p.recvPos == p.bodyStart
      invariant p.state == ReadStatus ==> p.recvPos > p0.recvPos
      decreases |buf| - p.recvPos, if p.state == ReadHeader then 1 else 0
    {
      SeenLine(p, buf, end);
      LineFacts(p, buf, end);
      p := Line(p, buf, end);
      end := end + 1;
      if p.state != ReadHeader { break; }
      end := IndexOf(buf, '\n', p.recvPos);
      SeenLine(p, buf, end);
    }
  }

  /** What a call reports, given the parser before and after it. */
  ghost predicate Counted(p0: Parser, size0: int, p: Parser, size: int, payload: int, protocol: int) {
    && protocol == ProtocolBytes(p, size) - ProtocolBytes(p0, size0)
    && payload == PayloadBytes(p) - PayloadBytes(p0)
  }

  /** Takes in what is new in the buffer, of which the first `size0` bytes are known. */
  method Parse(p0: Parser, buf: string, size0: int) returns (p: Parser, payload: int, protocol: int, error: bool)
    requires 0 <= size0 <= |buf| && Inside(p0, size0)
    ensures Inside(p, |buf|) && p == Seen(p0, buf)
    ensures error <==> p.state == Error
    ensures !error ==> Counted(p0, size0, p, |buf|, payload, protocol)
  {
    hide Line, Seen, Body;
    p, payload, protocol, error := p0, 0, 0, false;
    if p.state == Error {
      SeenError(p, buf);
      error := true;
      return;
    }
    var startPos := size0;
    while true
      invariant Inside(p, |buf|) && Seen(p, buf) == Seen(p0, buf) && p.state != Error && !error && payload == 0
      invariant p.state == ReadBody ==> p == p0
      invariant p0.state == ReadBody ==> p == p0 && protocol == 0
      invariant Reading(p) ==> Reading(p0) && protocol == startPos - size0
      decreases |buf| - p.recvPos
    {
      if p.state == ReadStatus {
        var nl := IndexOf(buf, '\n', p.recvPos);
        SeenLine(p, buf, nl);
        if nl == |buf| {
          protocol := protocol + |buf| - startPos;
          return;
        }
        LineFacts(p, buf, nl);
        p := Line(p, buf, nl);
        if p.state == Error {
          SeenError(p, buf);
          error := true;
          return;
        }
        protocol := protocol + p.recvPos - startPos;
        startPos := p.recvPos;
      }
      if p.state == ReadHeader {
        var end;
        p, end := HeaderLines(p, buf);
        if p.state == Error {
          SeenError(p, buf);
          error := true;
          return;
        }
        if p.state == ReadStatus { continue; }
        protocol := protocol + end - startPos;
        if p.state == ReadHeader { return; }
      }
      SeenBody(p, buf);
      BodyFacts(p, |buf|);
      payload := Body(p, |buf|).recvPos - p.recvPos;
      p := Body(p, |buf|);
      return;
    }
  }

  lemma SeenError(p: Parser, buf: string)
    requires Inside(p, |buf|) && p.state == Error
    ensures Seen(p, buf) == p
  {
  }

  lemma SeenBody(p: Parser, buf: string)
    requires Inside(p, |buf|) && p.state == ReadBody
    ensures Seen(p, buf) == Body(p, |buf|)
  {
  }

  /** The body that has arrived, but no more than the content length. */
  lemma BodyFacts(p: Parser, size: int)
    requires Inside(p, size) && p.state == ReadBody
    ensures var q := Body(p, size);
            && q.state == ReadBody && q.bodyStart == p.bodyStart && q.contentLength == p.contentLength && Inside(q, size)
            && q.recvPos - q.bodyStart ==
                 (if p.contentLength >= 0 && p.contentLength < size - p.bodyStart then p.contentLength else size - p.bodyStart)
  {
  }

  class Http {
    var p: Parser
    var received: string
    /** The parser as it was when the message began. */
    ghost var origin: Parser

    /** The parser depends on what has been received and on nothing else. */
    ghost predicate Valid()
      reads this
    {
      && Fresh(origin) && p == Seen(origin, received) && Inside(p, |received|)
    }

    constructor ()
      ensures Valid() && received == "" && p == Initial() == origin
    {
      p, received, origin := Initial(), "", Initial();
    }

    /** Takes a longer prefix of the message. */
    method Incoming(buf: string) returns (payload: int, protocol: int, error: bool)
      requires Valid() && received <= buf
      modifies this
      ensures Valid() && received == buf && origin == old(origin)
      ensures error <==> p.state == Error && |buf| > |old(received)|
      ensures !error ==> Counted(old(p), |old(received)|, p, |buf|, payload, protocol)
    {
      payload, protocol, error := 0, 0, false;
      if |received| == |buf| {
        assert received == buf;
        return;
      }
      assert buf[..|received|] == received;
      SeenInParts(origin, buf, |received|);
      p, payload, protocol, error := Parse(p, buf, |received|);
      received := buf;
    }

    /** The part of the body that has arrived. */
    method GetBody() returns (body: string)
      requires Valid() && p.state == ReadBody
      ensures 0 <= p.bodyStart <= |received|
      ensures body == received[p.bodyStart..if p.contentLength >= 0 && p.bodyStart + p.contentLength < |received|
                                            then p.bodyStart + p.contentLength else |received|]
      ensures p.finished <==> p.contentLength >= 0 && |body| == p.contentLength
    {
      SeenBodyEnds(origin, received);
      var end := if p.contentLength >= 0 && p.bodyStart + p.contentLength < p.recvPos then p.bodyStart + p.contentLength else p.recvPos;
      body := received[p.bodyStart..end];
    }

    /** Starts over; only path, protocol and server message are left from before. */
    method Reset()
      modifies this
      ensures Valid() && received == "" && p == origin
    {
      p := p.(state := ReadStatus, recvPos := 0, statusCode := -1, httpMethod := "", contentLength := -1,
              rangeStart := -1, rangeEnd := -1, header := map[], bodyStart := 0, finished := false);
      received := "";
      origin := p;
    }
  }

  /** Nothing of a message has been taken in. */
  ghost predicate Fresh(p: Parser) {
    p == Initial().(path := p.path, protocol := p.protocol, message := p.message)
  }

  /** Hands a message over in growing prefixes, cut wherever. In the end the parser is
      as if it had seen the message at once, and, unless there is an error, the reported
      numbers of bytes add up to the header and to the part of the body within its length. */
  method Feed(text: string, cuts: seq<nat>) returns (h: Http, payload: int, protocol: int, error: bool)
    ensures fresh(h) && h.Valid() && h.received == text && Inside(Initial(), |text|) && h.p == Seen(Initial(), text)
    ensures error <==> h.p.state == Error
    ensures !error ==> protocol == ProtocolBytes(h.p, |text|) && payload == PayloadBytes(h.p)
  {
    hide Seen, Line, Body, StatusLine, HeaderLine, ContentRange, IndexOf;
    h := new Http();
    payload, protocol, error := 0, 0, false;
    var at, n := 0, 0;
    while at < |text|
      invariant fresh(h) && h.Valid() && h.origin == Initial() && 0 <= at <= |text| && h.received == text[..at]
      invariant error <==> h.p.state == Error
      invariant !error ==> protocol == ProtocolBytes(h.p, at) && payload == PayloadBytes(h.p)
      decreases |text| - at
    {
      var size := if n < |cuts| && 0 < cuts[n] <= |text| - at then cuts[n] else |text| - at;
      assert text[..at] <= text[..at + size];
      ErrorStays(h.origin, text, at, at + size);
      var more, header, bad := h.Incoming(text[..at + size]);
      payload, protocol, error := payload + more, protocol + header, bad;
      at, n := at + size, n + 1;
    }
    assert text[..at] == text;
  }

  lemma ErrorStays(p: Parser, text: string, j: int, k: int)
    requires 0 <= j <= k <= |text| && Inside(p, j)
    ensures Seen(p, text[..j]).state == Error ==> Seen(p, text[..k]).state == Error
  {
    assert text[..k][..j] == text[..j];
    SeenInParts(p, text[..k], j);
  }

  // ------------------------------------------------------------- what lines mean

  /** A response line gives protocol, status code and message. */
  lemma ResponseLine(p: Parser, protocol: string, code: nat, text: string)
    requires Free(protocol, ' ') && |protocol| >= 5 && protocol[..5] == "HTTP/" && code <= MAX64
    requires Free(text, '\r') && (text == [] || text[0] != ' ')
    ensures StatusLine(p, protocol + " " + Decimal(code) + " " + text) ==
              p.(state := ReadHeader, protocol := protocol, statusCode := code, message := text)
  {
    hide *;
    var number := Decimal(code);
    var line := protocol + " " + number + " " + text;
    DecimalIsWord(code);
    NumberAtEnd();
    ReadsBack("", code, "");
    assert "" + number + "" == number;
    WordThen("", protocol, ' ', number + " " + text);
    WordThen(protocol + " ", number, ' ', text);
    WordLast(protocol + " " + number + " ", text, '\r');
    assert line == "" + protocol + " " + (number + " " + text) && line == (protocol + " ") + number + " " + text;
    assert line == (protocol + " " + number + " ") + text;
    StatusLineIs(p, line, protocol, |protocol| + 1, number, |protocol| + |number| + 2);
  }

  lemma StatusLineIs(p: Parser, line: string, first: string, a: int, second: string, b: int)
    requires 0 <= a <= |line| && 0 <= b <= |line|
    requires ReadUntil(line, ' ', 0) == (first, a) && ReadUntil(line, ' ', a) == (second, b)
    ensures StatusLine(p, line) ==
              if |first| >= 5 && first[..5] == "HTTP/" then
                p.(state := ReadHeader, protocol := first, statusCode := Strtoll(second, 0).0, message := ReadUntil(line, '\r', b).0)
              else
                p.(state := ReadHeader, httpMethod := Lower(first), contentLength := 0, path := second,
                   protocol := ReadUntil(line, ' ', b).0, statusCode := 0)
  {
    hide ReadUntil, Strtoll, Lower;
  }

  lemma DecimalIsWord(n: nat)
    ensures Free(Decimal(n), ' ') && Decimal(n)[0] != ' '
  {
  }

  /** A request line gives method, path and protocol; a request has no body. */
  lemma RequestLine(p: Parser, verb: string, path: string, protocol: string)
    requires Free(verb, ' ') && Free(path, ' ') && Free(protocol, ' ') && path != [] && protocol != []
    requires !(|verb| >= 5 && verb[..5] == "HTTP/")
    ensures StatusLine(p, verb + " " + path + " " + protocol) ==
              p.(state := ReadHeader, httpMethod := Lower(verb), path := path, protocol := protocol, contentLength := 0, statusCode := 0)
  {
    hide Lower, ReadUntil, StatusLine, IndexOf, SkipAll;
    var line := verb + " " + path + " " + protocol;
    WordThen("", verb, ' ', path + " " + protocol);
    WordThen(verb + " ", path, ' ', protocol);
    WordLast(verb + " " + path + " ", protocol, ' ');
    assert (path + " " + protocol)[0] == path[0] && path[0] != ' ' && protocol[0] != ' ';
    assert line == "" + verb + " " + (path + " " + protocol) && line == (verb + " ") + path + " " + protocol;
    assert line == (verb + " " + path + " ") + protocol;
    StatusLineIs(p, line, verb, |verb| + 1, path, |verb| + |path| + 2);
  }

  ghost predicate Trimmed(value: string) {
    value == [] || (value[0] != ' ' && value[0] != '\t')
  }

  ghost predicate Blanks(s: string) {
    forall k :: 0 <= k < |s| ==> s[k] == ' ' || s[k] == '\t'
  }

  lemma {:induction false} SkipsBlanks(head: string, blanks: string, value: string)
    requires Blanks(blanks) && Trimmed(value)
    ensures SkipBlanks(head + blanks + value, |head|) == |head| + |blanks|
    decreases |blanks|
  {
    var line := head + blanks + value;
    if blanks == "" {
      assert |head| < |line| ==> line[|head|] == value[0];
    } else {
      SkipsBlanks(head + blanks[..1], blanks[1..], value);
      assert line == head + blanks[..1] + blanks[1..] + value && line[|head|] == blanks[0];
    }
  }

  lemma FieldParts(name: string, blanks: string, value: string)
    requires Free(name, ':') && Blanks(blanks) && Trimmed(value)
    ensures var line, at := name + ":" + blanks + value, |name| + 1 + |blanks|;
            && IndexOf(line, ':', 0) == |name| < |line| && line[..|name|] == name
            && SkipBlanks(line, |name| + 1) == at && line[at..] == value
  {
    var line := name + ":" + blanks + value;
    forall k | 0 <= k < |name| ensures line[k] != ':' { assert line[k] == name[k]; }
    assert line[|name|] == ':';
    IndexIs(line, ':', 0, |name|);
    SkipsBlanks(name + ":", blanks, value);
    assert line[..|name|] == name && line[|name| + 1 + |blanks|..] == value;
  }

  lemma OneBlank(name: string, value: string)
    requires Free(name, ':') && Trimmed(value)
    ensures var line := name + ": " + value;
            && IndexOf(line, ':', 0) == |name| < |line| && line[..|name|] == name
            && SkipBlanks(line, |name| + 1) == |name| + 2 && line[|name| + 2..] == value
  {
    FieldParts(name, " ", value);
    assert name + ": " + value == name + ":" + " " + value;
  }

  /** A field is found under its name in lower case, without the blanks before its value;
      the first one of a name stays. A content length is taken over, a content range too,
      other fields change nothing else. */
  lemma HeaderField(p: Parser, name: string, blanks: string, value: string)
    requires Free(name, ':') && Blanks(blanks) && Trimmed(value)
    ensures var q, key := HeaderLine(p, name + ":" + blanks + value), Lower(name);
            && key in q.header && q.header[key] == (if key in p.header then p.header[key] else value)
            && (forall other :: other != key ==> (other in q.header <==> other in p.header) && (other in p.header ==> q.header[other] == p.header[other]))
            && (key == "content-length" ==> q == p.(header := q.header, contentLength := Strtoll(value, 0).0))
            && (key == "content-range" ==> q == ContentRange(p.(header := q.header), value))
            && (key != "content-length" && key != "content-range" ==> q == p.(header := q.header))
  {
    hide *;
    FieldParts(name, blanks, value);
    HeaderLineIs(p, name + ":" + blanks + value);
    FieldOf(p, Lower(name), value);
  }

  lemma HeaderLineIs(p: Parser, line: string)
    ensures var separator := IndexOf(line, ':', 0);
            HeaderLine(p, line) ==
              if separator == |line| then
                if p.statusCode == 100 then p.(state := ReadStatus) else p.(state := ReadBody, bodyStart := p.recvPos)
              else Field(p, Lower(line[..separator]), line[SkipBlanks(line, separator + 1)..])
  {
    hide IndexOf, SkipBlanks, Lower, Field;
  }

  lemma FieldOf(p: Parser, key: string, value: string)
    ensures var q := Field(p, key, value);
            && key in q.header && q.header[key] == (if key in p.header then p.header[key] else value)
            && (forall other :: other != key ==> (other in q.header <==> other in p.header) && (other in p.header ==> q.header[other] == p.header[other]))
            && (key == "content-length" ==> q == p.(header := q.header, contentLength := Strtoll(value, 0).0))
            && (key == "content-range" ==> q == ContentRange(p.(header := q.header), value))
            && (key != "content-length" && key != "content-range" ==> q == p.(header := q.header))
  {
    hide Strtoll;
    ContentRangeKeepsHeader(p.(header := if key in p.header then p.header else p.header[key := value]), value);
    hide ContentRange;
  }

  lemma ContentRangeKeepsHeader(p: Parser, value: string)
    ensures ContentRange(p, value).header == p.header
  {
  }

  // ------------------------------------------------------------- 100 Continue

  /** Parser `q` is where `p` is, `n` bytes further on, with the fields `h` read before.
      Once a first line has been read they agree on it. */
  ghost predicate Follows(p: Parser, q: Parser, n: int, h: map<string, string>) {
    && q.state == p.state && q.recvPos == p.recvPos + n && q.finished == p.finished
    && q.bodyStart == (if p.state == ReadBody then p.bodyStart + n else p.bodyStart)
    && q.contentLength == p.contentLength && q.rangeStart == p.rangeStart && q.rangeEnd == p.rangeEnd
    && q.httpMethod == p.httpMethod && q.path == p.path && q.header == p.header + h
    && (p.state == ReadHeader || p.state == ReadBody ==>
          q.statusCode == p.statusCode && q.protocol == p.protocol && (p.statusCode != 0 ==> q.message == p.message))
  }

  lemma StatusFollows(p: Parser, q: Parser, line: string, n: int, h: map<string, string>)
    requires Follows(p, q, n, h) && p.state == ReadStatus
    ensures Follows(StatusLine(p, line), StatusLine(q, line), n, h)
  {
    hide ReadUntil, Strtoll, Lower;
  }

  lemma InsertFollows(a: map<string, string>, h: map<string, string>, name: string, value: string)
    ensures (if name in a + h then a + h else (a + h)[name := value]) == (if name in a then a else a[name := value]) + h
  {
  }

  lemma RangeFollows(p: Parser, q: Parser, value: string, n: int, h: map<string, string>)
    requires Follows(p, q, n, h) && p.state == ReadHeader
    ensures Follows(ContentRange(p, value), ContentRange(q, value), n, h)
  {
    hide Strtoll, BeginsNoCase;
  }

  lemma FieldFollows(p: Parser, q: Parser, name: string, value: string, n: int, h: map<string, string>)
    requires Follows(p, q, n, h) && p.state == ReadHeader
    ensures Follows(Field(p, name, value), Field(q, name, value), n, h)
  {
    hide Strtoll, ContentRange;
    InsertFollows(p.header, h, name, value);
    var p', q' := p.(header := if name in p.header then p.header else p.header[name := value]),
                  q.(header := if name in q.header then q.header else q.header[name := value]);
    RangeFollows(p', q', value, n, h);
  }

  lemma HeaderFollows(p: Parser, q: Parser, line: string, n: int, h: map<string, string>)
    requires Follows(p, q, n, h) && p.state == ReadHeader
    ensures Follows(HeaderLine(p, line), HeaderLine(q, line), n, h)
  {
    hide *;
    var separator := IndexOf(line, ':', 0);
    HeaderLineIs(p, line);
    HeaderLineIs(q, line);
    if separator < |line| {
      FieldFollows(p, q, Lower(line[..separator]), line[SkipBlanks(line, separator + 1)..], n, h);
    } else {
      BlankFollows(p, q, n, h);
    }
  }

  lemma BlankFollows(p: Parser, q: Parser, n: int, h: map<string, string>)
    requires Follows(p, q, n, h) && p.state == ReadHeader
    ensures p.statusCode == q.statusCode
    ensures Follows(p.(state := ReadStatus), q.(state := ReadStatus), n, h)
    ensures Follows(p.(state := ReadBody, bodyStart := p.recvPos), q.(state := ReadBody, bodyStart := q.recvPos), n, h)
  {
  }

  lemma LineFollows(p: Parser, q: Parser, c: string, msg: string, nl: int, h: map<string, string>)
    requires Follows(p, q, |c|, h) && Reading(p) && 0 <= p.recvPos <= nl < |msg|
    ensures Follows(Line(p, msg, nl), Line(q, c + msg, |c| + nl), |c|, h)
  {
    hide *;
    FollowsAt(p, q, |c|, h);
    ReadingIs(p);
    assert (c + msg)[|c| + p.recvPos..|c| + nl] == msg[p.recvPos..nl];
    LineIs(p, msg, nl);
    LineIs(q, c + msg, |c| + nl);
    var text := LineText(msg[p.recvPos..nl]);
    var p', q' := p.(recvPos := nl + 1), q.(recvPos := |c| + nl + 1);
    FollowsMove(p, q, |c|, h, nl + 1);
    if p.state == ReadHeader {
      HeaderFollows(p', q', text, |c|, h);
    } else {
      StatusFollows(p', q', text, |c|, h);
    }
  }

  lemma LineIs(p: Parser, buf: string, nl: int)
    requires 0 <= p.recvPos <= nl < |buf| && (p.state == ReadStatus || p.state == ReadHeader)
    ensures var text, q := LineText(buf[p.recvPos..nl]), p.(recvPos := nl + 1);
            Line(p, buf, nl) ==
              if p.state == ReadStatus && nl == p.recvPos then p.(state := Error)
              else if p.state == ReadStatus then StatusLine(q, text) else HeaderLine(q, text)
  {
    hide StatusLine, HeaderLine, LineText;
  }

  lemma FollowsMove(p: Parser, q: Parser, n: int, h: map<string, string>, at: int)
    requires Follows(p, q, n, h) && (p.state == ReadStatus || p.state == ReadHeader)
    ensures Follows(p.(recvPos := at), q.(recvPos := n + at), n, h)
    ensures p.state == ReadStatus ==> Follows(p.(state := Error), q.(state := Error), n, h)
  {
  }

  lemma NewlineFollows(c: string, msg: string, i: int)
    requires 0 <= i <= |msg|
    ensures IndexOf(c + msg, '\n', |c| + i) == |c| + IndexOf(msg, '\n', i)
  {
    var nl := IndexOf(msg, '\n', i);
    assert forall k :: i <= k < |msg| ==> (c + msg)[|c| + k] == msg[k];
    forall k | |c| + i <= k < |c| + nl ensures (c + msg)[k] != '\n' { assert (c + msg)[k] == msg[k - |c|]; }
    IndexIs(c + msg, '\n', |c| + i, |c| + nl);
  }

  lemma BodyFollows(p: Parser, q: Parser, n: int, size: int, h: map<string, string>)
    requires Follows(p, q, n, h) && p.state == ReadBody
    ensures Follows(Body(p, size), Body(q, n + size), n, h)
  {
  }

  lemma {:induction false} SeenFollows(p: Parser, q: Parser, c: string, msg: string, h: map<string, string>)
    requires Follows(p, q, |c|, h) && Inside(p, |msg|) && Inside(q, |c + msg|)
    ensures Follows(Seen(p, msg), Seen(q, c + msg), |c|, h)
    decreases |msg| - p.recvPos, if Reading(p) then 1 else 0
  {
    hide *;
    FollowsAt(p, q, |c|, h);
    ReadingIs(p);
    if p.state == ReadBody {
      SeenBody(p, msg);
      SeenBody(q, c + msg);
      BodyFollows(p, q, |c|, |msg|, h);
    } else if p.state == Error {
      SeenError(p, msg);
      SeenError(q, c + msg);
    } else {
      ReadingIs(q);
      InsideAt(p, |msg|);
      var nl := IndexOf(msg, '\n', p.recvPos);
      NewlineFollows(c, msg, p.recvPos);
      SeenLine(p, msg, nl);
      SeenLine(q, c + msg, |c| + nl);
      if nl < |msg| {
        LineFollows(p, q, c, msg, nl, h);
        LineFacts(p, msg, nl);
        ReadingIs(Line(p, msg, nl));
        SeenFollows(Line(p, msg, nl), Line(q, c + msg, |c| + nl), c, msg, h);
      }
    }
  }

  lemma ReadingIs(p: Parser)
    ensures Reading(p) <==> p.state == ReadStatus || p.state == ReadHeader
  {
  }

  lemma InsideAt(p: Parser, size: int)
    requires Inside(p, size)
    ensures 0 <= p.bodyStart <= p.recvPos <= size
  {
  }

  lemma FollowsAt(p: Parser, q: Parser, n: int, h: map<string, string>)
    requires Follows(p, q, n, h)
    ensures q.state == p.state && q.recvPos == p.recvPos + n
  {
  }

  /** Until a request line is read, method and path are as they were. */
  ghost predicate NoRequestYet(p: Parser) {
    p.state == ReadStatus || p.statusCode == 100 ==> p.httpMethod == "" && p.path == ""
  }

  lemma {:induction false} OnlyResponses(p: Parser, buf: string)
    requires Inside(p, |buf|) && Reading(p) && NoRequestYet(p) && !p.finished && p.bodyStart == 0
    ensures var q := Seen(p, buf); q.state == ReadStatus ==> q.httpMethod == "" && q.path == "" && !q.finished && q.bodyStart == 0
    decreases |buf| - p.recvPos
  {
    hide *;
    ReadingIs(p);
    InsideAt(p, |buf|);
    NoneYet(p);
    var nl := IndexOf(buf, '\n', p.recvPos);
    SeenLine(p, buf, nl);
    if nl < |buf| {
      LineFacts(p, buf, nl);
      LineKeepsNone(p, buf, nl);
      var q := Line(p, buf, nl);
      ReadingIs(q);
      if q.state == ReadBody {
        SeenBody(q, buf);
        BodyFacts(q, |buf|);
      } else if q.state == Error {
        SeenError(q, buf);
      } else {
        OnlyResponses(q, buf);
      }
    }
  }

  lemma NoneYet(p: Parser)
    requires NoRequestYet(p)
    ensures p.state == ReadStatus ==> p.httpMethod == "" && p.path == ""
  {
  }

  lemma LineKeepsNone(p: Parser, buf: string, nl: int)
    requires 0 <= p.recvPos <= nl < |buf| && Reading(p) && NoRequestYet(p) && !p.finished && p.bodyStart == 0
    ensures var q := Line(p, buf, nl); Reading(q) ==> NoRequestYet(q) && !q.finished && q.bodyStart == 0
  {
    hide ReadUntil, Strtoll, Lower, IndexOf, SkipBlanks, LineText, BeginsNoCase;
  }

  /** Nothing but complete 100 Continue responses. */
  ghost predicate Continued(c: string) {
    Seen(Initial(), c).state == ReadStatus && Seen(Initial(), c).recvPos == |c|
  }

  /** Preceded by `c`, the message is parsed as it is alone, with every position `|c|`
      further on and the header fields of `c` before its own. */
  ghost predicate Transparent(c: string, msg: string) {
    Follows(Seen(Initial(), msg), Seen(Initial(), c + msg), |c|, Seen(Initial(), c).header)
  }

  lemma ContinueIsTransparent(c: string, msg: string)
    requires Continued(c)
    requires var q := Seen(Initial(), c); q.contentLength == -1 && q.rangeStart == -1 && q.rangeEnd == -1
    ensures Transparent(c, msg)
  {
    var q := Seen(Initial(), c);
    OnlyResponses(Initial(), c);
    hide Seen;
    assert (c + msg)[..|c|] == c;
    SeenInParts(Initial(), c + msg, |c|);
    assert map[] + q.header == q.header;
    SeenFollows(Initial(), q, c, msg, q.header);
  }

  /** Exactly those 100 Continue responses are transparent to every message that announce
      neither a length nor a range: these would be taken for those of the message. */
  lemma ContinueExactly(c: string)
    requires Continued(c)
    ensures (forall msg :: Transparent(c, msg)) <==>
              var q := Seen(Initial(), c); q.contentLength == -1 && q.rangeStart == -1 && q.rangeEnd == -1
  {
    var q := Seen(Initial(), c);
    if q.contentLength == -1 && q.rangeStart == -1 && q.rangeEnd == -1 {
      forall msg ensures Transparent(c, msg) { ContinueIsTransparent(c, msg); }
    } else {
      assert c + "" == c;
      assert !Transparent(c, "");
    }
  }

  /** A line without a colon ends the header, except after a 100 Continue. */
  lemma BlankLine(p: Parser, line: string)
    requires Free(line, ':')
    ensures HeaderLine(p, line) == if p.statusCode == 100 then p.(state := ReadStatus) else p.(state := ReadBody, bodyStart := p.recvPos)
  {
    IndexIs(line, ':', 0, |line|);
    HeaderLineIs(p, line);
    hide HeaderLine;
  }

  lemma FirstLine(line: string, rest: string)
    requires Free(line, '\n')
    ensures var p, c := Initial().(recvPos := |line| + 2), line + "\r\n" + rest;
            Inside(StatusLine(p, line), |c|) && Seen(Initial(), c) == Seen(StatusLine(p, line), c)
  {
    var c, nl := line + "\r\n" + rest, |line| + 1;
    assert forall k :: 0 <= k < |line| ==> c[k] == line[k];
    assert c[|line|] == '\r' && c[nl] == '\n' && c[0..nl] == line + "\r";
    IndexIs(c, '\n', 0, nl);
    assert LineText(line + "\r") == line;
    hide StatusLine, LineText, IndexOf;
    SeenLine(Initial(), c, nl);
    assert Line(Initial(), c, nl) == StatusLine(Initial().(recvPos := nl + 1), line);
  }

  lemma LastLine(q: Parser, c: string)
    requires |c| >= 2 && c[|c| - 2..] == "\r\n" && q.state == ReadHeader && q.statusCode == 100
    requires q.recvPos == |c| - 2 && 0 <= q.bodyStart <= q.recvPos
    ensures Seen(q, c) == q.(state := ReadStatus, recvPos := |c|)
  {
    var nl := |c| - 1;
    assert c[|c| - 2] == c[|c| - 2..][0] && c[nl] == c[|c| - 2..][1];
    IndexIs(c, '\n', q.recvPos, nl);
    assert c[q.recvPos..nl] == "\r";
    SeenLine(q, c, nl);
    var r := q.(recvPos := |c|);
    BlankLine(r, "");
    hide StatusLine, HeaderLine, IndexOf;
    assert Line(q, c, nl) == HeaderLine(r, "");
  }

  lemma StatusLineText(protocol: string, code: nat, text: string)
    requires Free(protocol, '\n') && Free(text, '\n')
    ensures Free(protocol + " " + Decimal(code) + " " + text, '\n')
  {
    var number := Decimal(code);
    assert Free(number, '\n') by { hide Decimal; }
  }

  /** The usual response is one of them: a status line with code 100 and a blank line. */
  lemma ContinueLine(protocol: string, text: string)
    requires Free(protocol, ' ') && |protocol| >= 5 && protocol[..5] == "HTTP/" && Free(protocol, '\n')
    requires Free(text, '\r') && Free(text, '\n') && (text == [] || text[0] != ' ')
    ensures var c := protocol + " " + Decimal(100) + " " + text + "\r\n" + "\r\n";
            Continued(c) && Seen(Initial(), c) == Initial().(recvPos := |c|, protocol := protocol, statusCode := 100, message := text)
  {
    var line := protocol + " " + Decimal(100) + " " + text;
    var c := line + "\r\n" + "\r\n";
    var p := Initial();
    assert Continued(c) <==> Seen(p, c).state == ReadStatus && Seen(p, c).recvPos == |c|;
    var q := p.(state := ReadHeader, recvPos := |line| + 2, protocol := protocol, statusCode := 100, message := text);
    assert q == p.(recvPos := |line| + 2).(state := ReadHeader, protocol := protocol, statusCode := 100, message := text);
    assert 0 <= q.bodyStart <= q.recvPos;
    hide *;
    StatusLineText(protocol, 100, text);
    ResponseLine(p.(recvPos := |line| + 2), protocol, 100, text);
    FirstLine(line, "\r\n");
    assert c[|c| - 2..] == "\r\n";
    LastLine(q, c);
  }

  // ------------------------------------------------------------ content range

  /** A range names its first and its last byte (section 14.16 of RFC 2616): the body is
      one longer than the difference. A last byte before the first one is an error. The unit
      may be left out, and may be written in any case. */
  lemma ContentRangeIsInclusive(p: Parser, unit: string, first: nat, last: nat, tail: string)
    requires first <= MAX64 && last <= MAX64 && EndsNumber(tail) && p.state == ReadHeader
    requires unit == "" || IsSpelling(unit, "bytes ")
    ensures var q := ContentRange(p, unit + Decimal(first) + "-" + Decimal(last) + tail);
            && q.rangeStart == first && q.rangeEnd == last
            && if first <= last then q.state == ReadHeader && q.contentLength == last - first + 1
               else q.state == Error && q.contentLength == p.contentLength
  {
    hide *;
    var a, b := Decimal(first), Decimal(last);
    var value := unit + a + "-" + b + tail;
    var n := |unit|;
    RangeText(unit, a, b, tail);
    ReadsBack(unit, first, "-" + b + tail);
    ReadsBack(unit + a + "-", last, tail);
    RangeOf(p, value, n, first, n + |a|, last, n + |a| + 1 + |b|);
  }

  /** A range without a last byte is an error. */
  lemma ContentRangeRefused(p: Parser, unit: string, first: nat, rest: string)
    requires first <= MAX64 && EndsNumber(rest) && (rest == "" || rest[0] != '-')
    requires unit == "" || IsSpelling(unit, "bytes ")
    ensures ContentRange(p, unit + Decimal(first) + rest).state == Error
  {
    hide Strtoll, BeginsNoCase, Decimal;
    var value, a := unit + Decimal(first) + rest, |unit| + |Decimal(first)|;
    UnitText(unit, Decimal(first), rest);
    ReadsBack(unit, first, rest);
    assert a < |value| ==> value[a] == rest[0];
  }

  /** Whether the unit is there. */
  lemma UnitText(unit: string, a: string, rest: string)
    requires unit == "" || IsSpelling(unit, "bytes ")
    requires |a| > 0 && forall k :: 0 <= k < |a| ==> IsDigit(a[k])
    ensures |unit| == if BeginsNoCase("bytes ", unit + a + rest) then 6 else 0
  {
    if unit == "" {
      assert (unit + a + rest)[0] == a[0] && ToLower("bytes "[0]) == 'b';
    } else {
      assert |unit| == 6;
      BeginsInAnyCase("bytes ", unit, a + rest);
      assert unit + a + rest == unit + (a + rest);
    }
  }

  lemma RangeText(unit: string, a: string, b: string, tail: string)
    requires unit == "" || IsSpelling(unit, "bytes ")
    requires |a| > 0 && forall k :: 0 <= k < |a| ==> IsDigit(a[k])
    ensures var value := unit + a + "-" + b + tail;
            && value == unit + a + ("-" + b + tail) && value == (unit + a + "-") + b + tail
            && |unit + a + "-"| == |unit| + |a| + 1 && |value| == |unit| + |a| + 1 + |b| + |tail|
            && value[|unit| + |a|] == '-' && EndsNumber("-" + b + tail)
            && |unit| == if BeginsNoCase("bytes ", value) then 6 else 0
  {
    var value := unit + a + "-" + b + tail;
    assert ("-" + b + tail)[0] == '-';
    UnitText(unit, a, "-" + b + tail);
    assert value == unit + a + ("-" + b + tail);
  }

  lemma RangeOf(p: Parser, value: string, at: int, start: int, a: int, last: int, b: int)
    requires 0 <= at < a < |value| && at == (if BeginsNoCase("bytes ", value) then 6 else 0) && value[a] == '-'
    requires Strtoll(value, at) == (start, a) && Strtoll(value, a + 1) == (last, b) && b > a + 1
    ensures var q := ContentRange(p, value);
            && q.rangeStart == start && q.rangeEnd == last
            && if start <= last then q.state == p.state && q.contentLength == last - start + 1
               else q.state == Error && q.contentLength == p.contentLength
  {
    hide Strtoll, BeginsNoCase;
  }

  // ------------------------------------------------------- fields in any case

  lemma LengthNames()
    ensures ':' !in CAPITALS && ':' !in "content-length" && ':' !in "content-range" && '\n' !in CAPITALS
    ensures '\n' !in "content-length" && '\n' !in "content-range"
  {
    Alphabet();
    forall i | 0 <= i < 26 ensures CAPITALS[i] != ':' && CAPITALS[i] != '\n' { }
  }

  /** However its name is spelled, a content length is taken over. */
  lemma ContentLengthField(p: Parser, name: string, n: nat)
    requires IsSpelling(name, "content-length") && n <= MAX64
    ensures HeaderLine(p, name + ": " + Decimal(n)) ==
              p.(contentLength := n,
                 header := if "content-length" in p.header then p.header else p.header["content-length" := Decimal(n)])
  {
    hide *;
    LengthNames();
    SpellingLower(name, "content-length");
    NoColon(name, "content-length");
    DecimalIsWord(n);
    NumberAtEnd();
    ReadsBack("", n, "");
    assert "" + Decimal(n) + "" == Decimal(n);
    DecimalTrimmed(n);
    OneBlank(name, Decimal(n));
    HeaderLineIs(p, name + ": " + Decimal(n));
    LengthField(p, Decimal(n));
  }

  lemma DecimalTrimmed(n: nat)
    ensures Trimmed(Decimal(n))
  {
  }

  lemma NoColon(name: string, word: string)
    requires forall c :: c !in word && c !in CAPITALS ==> c !in name
    requires ':' !in CAPITALS && ':' !in word && '\n' !in CAPITALS && '\n' !in word
    ensures Free(name, ':') && Free(name, '\n')
  {
  }

  lemma LengthField(p: Parser, value: string)
    ensures Field(p, "content-length", value) ==
              p.(contentLength := Strtoll(value, 0).0,
                 header := if "content-length" in p.header then p.header else p.header["content-length" := value])
  {
    hide Strtoll;
  }

  /** However its name and its unit are spelled, a range is taken over. */
  lemma ContentRangeField(p: Parser, name: string, unit: string, first: nat, last: nat, tail: string)
    requires IsSpelling(name, "content-range") && (unit == "" || IsSpelling(unit, "bytes "))
    requires first <= MAX64 && last <= MAX64 && EndsNumber(tail) && p.state == ReadHeader
    ensures var q := HeaderLine(p, name + ": " + (unit + Decimal(first) + "-" + Decimal(last) + tail));
            && q.rangeStart == first && q.rangeEnd == last && "content-range" in q.header
            && if first <= last then q.state == ReadHeader && q.contentLength == last - first + 1 else q.state == Error
  {
    hide *;
    var value := unit + Decimal(first) + "-" + Decimal(last) + tail;
    LengthNames();
    SpellingLower(name, "content-range");
    NoColon(name, "content-range");
    RangeTrimmed(unit, Decimal(first), "-" + Decimal(last) + tail);
    assert value == unit + Decimal(first) + ("-" + Decimal(last) + tail);
    OneBlank(name, value);
    HeaderLineIs(p, name + ": " + value);
    RangeField(p, value);
    ContentRangeIsInclusive(p.(header := if "content-range" in p.header then p.header else p.header["content-range" := value]),
                            unit, first, last, tail);
  }

  lemma RangeTrimmed(unit: string, a: string, rest: string)
    requires unit == "" || IsSpelling(unit, "bytes ")
    requires |a| > 0 && forall k :: 0 <= k < |a| ==> IsDigit(a[k])
    ensures Trimmed(unit + a + rest)
  {
    if unit == "" {
      assert (unit + a + rest)[0] == a[0];
    } else {
      Alphabet();
      assert (unit + a + rest)[0] == unit[0] && Spells(unit[0], "bytes "[0]);
    }
  }

  lemma RangeField(p: Parser, value: string)
    ensures var h := if "content-range" in p.header then p.header else p.header["content-range" := value];
            Field(p, "content-range", value) == ContentRange(p.(header := h), value) && Field(p, "content-range", value).header == h
  {
    ContentRangeKeepsHeader(p.(header := if "content-range" in p.header then p.header else p.header["content-range" := value]), value);
    hide ContentRange;
  }

  /** The method of a request is kept in small letters. */
  lemma RequestMethod(p: Parser, verb: string, word: string, path: string, protocol: string)
    requires IsSpelling(verb, word) && ' ' !in word && Free(path, ' ') && Free(protocol, ' ') && path != [] && protocol != []
    requires !(|verb| >= 5 && verb[..5] == "HTTP/")
    ensures StatusLine(p, verb + " " + path + " " + protocol).httpMethod == word
  {
    hide *;
    SpellingLower(verb, word);
    NoBlank(verb, word);
    RequestLine(p, verb, path, protocol);
  }

  lemma NoBlank(name: string, word: string)
    requires (forall c :: c !in word && c !in CAPITALS ==> c !in name) && ' ' !in word
    ensures Free(name, ' ')
  {
    Alphabet();
    forall i | 0 <= i < 26 ensures CAPITALS[i] != ' ' { }
    assert ' ' !in CAPITALS;
  }

  /** A complete header line in the middle of a message. */
  lemma NextLine(q: Parser, head: string, line: string, rest: string)
    requires q.state == ReadHeader && q.recvPos == |head| && 0 <= q.bodyStart <= |head| && Free(line, '\n')
    ensures var c, r := head + line + "\r\n" + rest, q.(recvPos := |head| + |line| + 2);
            Inside(q, |c|) && Inside(HeaderLine(r, line), |c|) && Seen(q, c) == Seen(HeaderLine(r, line), c)
  {
    var c, nl := head + line + "\r\n" + rest, |head| + |line| + 1;
    var r := q.(recvPos := nl + 1);
    assert forall k :: |head| <= k < |head| + |line| ==> c[k] == line[k - |head|];
    assert c[|head| + |line|] == '\r' && c[nl] == '\n' && c[|head|..nl] == line + "\r";
    IndexIs(c, '\n', |head|, nl);
    assert LineText(line + "\r") == line;
    hide StatusLine, HeaderLine, LineText, IndexOf, Seen, Line;
    ReadingIs(q);
    SeenLine(q, c, nl);
    LineIs(q, c, nl);
  }

  /** From end to end: a response that announces its length, in whatever spelling, is
      finished when the body is there, and the body is exactly that. */
  lemma ResponseIsRead(protocol: string, code: nat, text: string, name: string, body: string)
    requires Free(protocol, ' ') && |protocol| >= 5 && protocol[..5] == "HTTP/" && Free(protocol, '\n') && code <= MAX64 && code != 100
    requires Free(text, '\r') && Free(text, '\n') && (text == [] || text[0] != ' ')
    requires IsSpelling(name, "content-length") && |body| <= MAX64
    ensures var head := protocol + " " + Decimal(code) + " " + text + "\r\n" + (name + ": " + Decimal(|body|)) + "\r\n" + "\r\n";
            var q := Seen(Initial(), head + body);
            && q.state == ReadBody && q.statusCode == code && q.message == text && q.contentLength == |body|
            && q.header == map["content-length" := Decimal(|body|)]
            && q.bodyStart == |head| && q.recvPos == |head + body| && q.finished
            && (head + body)[q.bodyStart..] == body
  {
    hide *;
    var line, field := protocol + " " + Decimal(code) + " " + text, name + ": " + Decimal(|body|);
    var one, two, head := line + "\r\n", line + "\r\n" + field + "\r\n", line + "\r\n" + field + "\r\n" + "\r\n";
    MessageParts(line, field, body);
    StatusRead(protocol, code, text, field + "\r\n" + "\r\n" + body);
    var q := AfterStatus(protocol, code, text, |one|);
    FieldRead(q, one, name, |body|, "\r\n" + body);
    BlankRead(AfterField(q, |two|, |body|), two, body);
    assert (head + body)[|head|..] == body;
  }

  lemma MessageParts(line: string, field: string, body: string)
    ensures var one, two := line + "\r\n", line + "\r\n" + field + "\r\n";
            && line + "\r\n" + field + "\r\n" + "\r\n" + body == line + "\r\n" + (field + "\r\n" + "\r\n" + body)
            && line + "\r\n" + field + "\r\n" + "\r\n" + body == one + field + "\r\n" + ("\r\n" + body)
            && line + "\r\n" + field + "\r\n" + "\r\n" + body == two + "" + "\r\n" + body
            && |two| == |one| + |field| + 2
  {
  }

  /** What is known after a status line, and after the length too. */
  function AfterStatus(protocol: string, code: int, text: string, at: int): Parser {
    Initial().(state := ReadHeader, recvPos := at, protocol := protocol, statusCode := code, message := text)
  }

  function AfterField(q: Parser, at: int, n: nat): Parser {
    q.(recvPos := at, contentLength := n, header := map["content-length" := Decimal(n)])
  }

  lemma StatusRead(protocol: string, code: nat, text: string, rest: string)
    requires Free(protocol, ' ') && |protocol| >= 5 && protocol[..5] == "HTTP/" && Free(protocol, '\n') && code <= MAX64
    requires Free(text, '\r') && Free(text, '\n') && (text == [] || text[0] != ' ')
    ensures var line := protocol + " " + Decimal(code) + " " + text;
            var c, q := line + "\r\n" + rest, AfterStatus(protocol, code, text, |line + "\r\n"|);
            && Inside(q, |c|) && Seen(Initial(), c) == Seen(q, c)
            && q.state == ReadHeader && q.recvPos == |line + "\r\n"| && q.bodyStart == 0 && !q.finished && q.header == map[]
            && q.statusCode == code && q.message == text
  {
    hide *;
    var line := protocol + " " + Decimal(code) + " " + text;
    StatusLineText(protocol, code, text);
    ResponseLine(Initial().(recvPos := |line| + 2), protocol, code, text);
    FirstLine(line, rest);
    AfterStatusIs(protocol, code, text, |line| + 2);
  }

  lemma AfterStatusIs(protocol: string, code: int, text: string, at: int)
    ensures var q := AfterStatus(protocol, code, text, at);
            && q.state == ReadHeader && q.recvPos == at && q.bodyStart == 0 && !q.finished && q.header == map[]
            && q.statusCode == code && q.message == text
            && q == Initial().(recvPos := at).(state := ReadHeader, protocol := protocol, statusCode := code, message := text)
  {
  }

  lemma FieldRead(q: Parser, one: string, name: string, n: nat, rest: string)
    requires q.state == ReadHeader && q.recvPos == |one| && q.bodyStart == 0 && q.header == map[]
    requires IsSpelling(name, "content-length") && n <= MAX64
    ensures var field := name + ": " + Decimal(n);
            var c, r := one + field + "\r\n" + rest, AfterField(q, |one| + |field| + 2, n);
            && Inside(q, |c|) && Inside(r, |c|) && Seen(q, c) == Seen(r, c)
            && r.state == ReadHeader && r.recvPos == |one| + |field| + 2 && r.bodyStart == 0 && r.finished == q.finished
            && r.statusCode == q.statusCode && r.message == q.message && r.contentLength == n
            && r.header == map["content-length" := Decimal(n)]
  {
    var field := name + ": " + Decimal(n);
    hide *;
    FieldText(name, n);
    NextLine(q, one, field, rest);
    ContentLengthField(q.(recvPos := |one| + |field| + 2), name, n);
    AfterFieldIs(q, |one| + |field| + 2, n);
  }

  lemma AfterFieldIs(q: Parser, at: int, n: nat)
    ensures AfterField(q, at, n) == q.(recvPos := at, contentLength := n, header := map["content-length" := Decimal(n)])
    ensures q.header == map[] ==>
              (if "content-length" in q.header then q.header else q.header["content-length" := Decimal(n)]) == map["content-length" := Decimal(n)]
  {
    hide Decimal;
  }

  lemma BlankRead(r: Parser, two: string, body: string)
    requires r.state == ReadHeader && r.recvPos == |two| && r.bodyStart == 0 && !r.finished && r.contentLength == |body| && r.statusCode != 100
    ensures var c := two + "" + "\r\n" + body;
            && Inside(r, |c|)
            && Seen(r, c) == r.(recvPos := |c|, state := ReadBody, bodyStart := |two| + 2, finished := true)
  {
    hide *;
    NothingFree();
    NextLine(r, two, "", body);
    BlankLine(r.(recvPos := |two| + 2), "");
    var c, b := two + "" + "\r\n" + body, r.(recvPos := |two| + 2, state := ReadBody, bodyStart := |two| + 2);
    SeenBody(b, c);
    WholeBody(b, |c|);
  }

  lemma NothingFree()
    ensures Free("", ':') && Free("", '\n')
  {
  }

  lemma FieldText(name: string, n: nat)
    requires IsSpelling(name, "content-length")
    ensures Free(name + ": " + Decimal(n), '\n')
  {
    LengthNames();
    SpellingLower(name, "content-length");
    NoColon(name, "content-length");
    assert Free(Decimal(n), '\n') by { hide Decimal; }
    hide Decimal, IsSpelling;
  }

  lemma WholeBody(b: Parser, size: int)
    requires b.state == ReadBody && b.recvPos == b.bodyStart && !b.finished && b.contentLength == size - b.bodyStart >= 0
    ensures Body(b, size) == b.(recvPos := size, finished := true)
  {
  }

  /** In a body as much has been taken as there is, up to its length; then it is finished. */
  lemma {:induction false} SeenBodyEnds(p: Parser, buf: string)
    requires Inside(p, |buf|) && !p.finished
    ensures var q := Seen(p, buf);
            q.state == ReadBody ==>
              && q.recvPos - q.bodyStart ==
                   (if q.contentLength >= 0 && q.contentLength < |buf| - q.bodyStart then q.contentLength else |buf| - q.bodyStart)
              && (q.finished <==> q.contentLength >= 0 && q.recvPos - q.bodyStart == q.contentLength)
    decreases |buf| - p.recvPos, if Reading(p) then 1 else 0
  {
    hide *;
    ReadingIs(p);
    if p.state == ReadBody {
      SeenBody(p, buf);
      BodyFacts(p, |buf|);
      BodyFinish(p, |buf|);
    } else if p.state == Error {
      SeenError(p, buf);
    } else {
      InsideAt(p, |buf|);
      var nl := IndexOf(buf, '\n', p.recvPos);
      SeenLine(p, buf, nl);
      if nl < |buf| {
        LineUnfinished(p, buf, nl);
        LineFacts(p, buf, nl);
        ReadingIs(Line(p, buf, nl));
        SeenBodyEnds(Line(p, buf, nl), buf);
      }
    }
  }

  lemma BodyFinish(p: Parser, size: int)
    requires p.state == ReadBody && !p.finished && Inside(p, size)
    ensures var q := Body(p, size); q.finished <==> q.contentLength >= 0 && q.recvPos - q.bodyStart == q.contentLength
  {
  }

  lemma LineUnfinished(p: Parser, buf: string, nl: int)
    requires 0 <= p.recvPos <= nl < |buf| && Reading(p)
    ensures Line(p, buf, nl).finished == p.finished
  {
    hide StatusLine, HeaderLine, LineText;
  }
}
