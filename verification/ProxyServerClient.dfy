/**
 * src/proxy-server-client.cc: the answer of an origin server, read as a header up to the blank
 * line and then a body of Content-Length bytes.
 */
module ProxyServerClient {
  import opened Wrappers
  import opened Search
  import opened HeaderList
  import opened HeaderGrammar
  import opened CString
  import opened Receive
  import opened HeaderMeaning
  import RequestLine
  import Framing
  import Q = HttpRequest
  import R = HttpResponse

  const CONTENT_LENGTH := "Content-Length"
  const TIMEOUT_REPLY := "HTTP/1.1 408 Request Timeout"
  const INT_MAX := 0x7fff_ffff

  // ----- istringstream >> int -----

  /** The end of the run of decimal digits at i. */
  function DigitsEnd(s: string, i: nat): (r: nat)
    requires i <= |s|
    ensures i <= r <= |s| && forall k :: i <= k < r ==> RequestLine.IsDigit(s[k])
    decreases |s| - i
  {
    if i < |s| && RequestLine.IsDigit(s[i]) then DigitsEnd(s, i + 1) else i
  }

  function Clamp(n: int): int {
    if n > INT_MAX then INT_MAX else if n < -INT_MAX - 1 then -INT_MAX - 1 else n
  }

  /** White space, a sign, digits: 0 without digits, and the nearest int when out of range. */
  function ExtractInt(s: string): int {
    var i := SkipSpaces(s, 0);
    var start := if i < |s| && (s[i] == '-' || s[i] == '+') then i + 1 else i;
    var end := DigitsEnd(s, start);
    var n: int := RequestLine.DigitsValue(s[start..end]);
    Clamp(if start > i && s[i] == '-' then -n else n)
  }

  lemma {:induction false} DigitsEndAt(digits: string, rest: string, i: nat)
    requires forall c :: c in digits ==> RequestLine.IsDigit(c)
    requires rest == "" || !RequestLine.IsDigit(rest[0])
    requires i <= |digits|
    ensures DigitsEnd(digits + rest, i) == |digits|
    decreases |digits| - i
  {
    if i < |digits| {
      assert (digits + rest)[i] == digits[i] && digits[i] in digits;
      DigitsEndAt(digits, rest, i + 1);
    }
  }

  /** A length printed in decimal is read back, whatever follows its digits. */
  lemma LengthIsReadBack(n: nat, rest: string)
    requires n <= INT_MAX
    requires rest == "" || !RequestLine.IsDigit(rest[0])
    ensures ExtractInt(RequestLine.Decimal(n) + rest) == n
  {
    var digits := RequestLine.Decimal(n);
    assert (digits + rest)[0] == digits[0] && digits[0] in digits;
    DigitsEndAt(digits, rest, 0);
    assert (digits + rest)[0..|digits|] == digits;
    RequestLine.DecimalValue(n);
  }

  /** Neither white space nor a sign comes first. */
  predicate BeginsPlain(s: string) {
    s == "" || (!White(s[0]) && s[0] != '+' && s[0] != '-')
  }

  predicate IsSign(sign: string) {
    sign == "" || sign == "+" || sign == "-"
  }

  predicate AllDigits(s: string) {
    forall c :: c in s ==> RequestLine.IsDigit(c)
  }

  lemma SignSkipped(white: string, sign: string, tail: string) returns (s: string, before: string)
    requires AllWhite(white) && IsSign(sign) && (sign == "" ==> BeginsPlain(tail))
    ensures before == white + sign && s == before + tail && SkipSpaces(s, 0) == |white|
    ensures |before| == if |white| < |s| && (s[|white|] == '-' || s[|white|] == '+') then |white| + 1 else |white|
    ensures sign == "-" <==> |before| > |white| && s[|white|] == '-'
  {
    before := white + sign;
    s := before + tail;
    assert s == white + (sign + tail);
    WhiteSkipped(white, sign + tail, 0);
  }

  lemma {:induction false} DigitsStop(before: string, digits: string, rest: string)
    requires AllDigits(digits) && (rest == "" || !RequestLine.IsDigit(rest[0]))
    ensures DigitsEnd(before + (digits + rest), |before|) == |before| + |digits|
    decreases |digits|
  {
    var s := before + (digits + rest);
    if digits == "" {
      assert rest != "" ==> s[|before|] == rest[0];
    } else {
      assert s[|before|] == digits[0] && digits[0] in digits;
      assert s == (before + [digits[0]]) + (digits[1..] + rest);
      DigitsStop(before + [digits[0]], digits[1..], rest);
    }
  }

  lemma DigitsBegin(digits: string, rest: string)
    requires AllDigits(digits) && (digits == "" ==> BeginsPlain(rest))
    ensures BeginsPlain(digits + rest)
  {
    if digits != "" {
      assert (digits + rest)[0] == digits[0] && digits[0] in digits;
    } else {
      assert digits + rest == rest;
    }
  }

  lemma NumberParts(white: string, sign: string, digits: string, rest: string)
    returns (s: string, start: nat, end: nat)
    requires AllWhite(white) && IsSign(sign) && AllDigits(digits)
    requires rest == "" || !RequestLine.IsDigit(rest[0])
    requires sign == "" && digits == "" ==> BeginsPlain(rest)
    ensures s == white + sign + (digits + rest) && SkipSpaces(s, 0) == |white|
    ensures start == if |white| < |s| && (s[|white|] == '-' || s[|white|] == '+') then |white| + 1 else |white|
    ensures sign == "-" <==> start > |white| && s[|white|] == '-'
    ensures start <= end <= |s| && DigitsEnd(s, start) == end && s[start..end] == digits
  {
    if sign == "" {
      DigitsBegin(digits, rest);
    }
    var before;
    s, before := SignSkipped(white, sign, digits + rest);
    start, end := |before|, |before| + |digits|;
    DigitsStop(before, digits, rest);
    Middle(before, digits, rest);
  }

  /**
   * The number that is read from a text: after white space and a sign, the digits up to the first
   * other byte; the nearest 32-bit value when they are too large, and 0 when there are none.
   */
  lemma ExtractIntMeans(white: string, sign: string, digits: string, rest: string) returns (s: string)
    requires AllWhite(white) && IsSign(sign) && AllDigits(digits)
    requires rest == "" || !RequestLine.IsDigit(rest[0])
    requires sign == "" && digits == "" ==> BeginsPlain(rest)
    ensures s == white + sign + (digits + rest)
    ensures ExtractInt(s) == SignedInt(sign == "-", RequestLine.DigitsValue(digits))
  {
    var start, end;
    s, start, end := NumberParts(white, sign, digits, rest);
    ExtractAt(s, |white|, start, end, sign == "-");
  }

  lemma Middle(before: string, digits: string, rest: string)
    ensures (before + (digits + rest))[|before|..|before| + |digits|] == digits
  {
  }

  /** A 32-bit value of that sign, the nearest one when the number is too large. */
  function SignedInt(negative: bool, v: int): int {
    if negative then (if v > 2147483648 then -2147483648 else -v)
    else if v > 2147483647 then 2147483647
    else v
  }

  lemma ExtractAt(s: string, i: nat, start: nat, end: nat, negative: bool)
    requires i <= start <= end <= |s| && SkipSpaces(s, 0) == i && DigitsEnd(s, start) == end
    requires start == if i < |s| && (s[i] == '-' || s[i] == '+') then i + 1 else i
    requires negative <==> start > i && s[i] == '-'
    ensures ExtractInt(s) == SignedInt(negative, RequestLine.DigitsValue(s[start..end]))
  {
  }

  // ----- The answer -----

  /** header, body, and the bytes as they came. */
  datatype FullHttpResponse = FullHttpResponse(header: R.Response, body: string, entire: string)

  /** A ProxyServerException, a ProxyServerErrorResponseException with its text, no return yet, or a crash. */
  datatype Fetched =
    | Got(resp: FullHttpResponse)
    | Down
    | ErrorReply(text: string)
    | Hung
    | Crash

  function BodyLength(header: R.Response): int {
    ExtractInt(Lookup(header.headers, CONTENT_LENGTH))
  }

  /** What a receive that did not return 1 leads to. */
  function NotReceived(code: Code): Fetched
    requires code != Done
  {
    match code
    case Again => ErrorReply(TIMEOUT_REPLY)
    case Fault => Down
    case Waiting => Hung
  }

  function FetchBody(header: R.Response, head: string, left: seq<Recv>): (Fetched, seq<Recv>) {
    var body := Nth(left, BodyLength(header), "");
    if body.code != Done then (NotReceived(body.code), body.left)
    else (Got(FullHttpResponse(header, body.data, head + body.data)), body.left)
  }

  /** One getHttpResponse on a fresh connection, and what it leaves unread. */
  function Fetch(script: seq<Recv>): (Fetched, seq<Recv>) {
    var head := Until(script, "", Framing.BLANK);
    if head.code != Done then (NotReceived(head.code), head.left)
    else
      var parse := R.Parse(head.data, R.EMPTY);
      if parse.outcome.Rejected? then (Down, head.left)
      else if !parse.outcome.Parsed? then (Crash, head.left)
      else if Lookup(parse.response.headers, CONTENT_LENGTH) == "" then (Down, head.left)
      else FetchBody(parse.response, head.data, head.left)
  }

  class ProxyServerClient {
    const remote: Socket

    constructor (connection: Socket)
      ensures remote == connection
    {
      remote := connection;
    }

    /**
     * Sends a buffer of one byte more than FormatRequest fills; that byte can be anything. None is
     * the ProxyServerException of a failing send, which is what a failed connect leads to.
     */
    method SendHttpRequest(req: Q.HttpRequest, works: bool) returns (sent: Option<string>)
      requires req.verb == Q.GET
      ensures sent.Some? <==> works
      ensures sent.Some? ==>
                var pieces := Q.RequestPieces(req.View());
                && |sent.value| == Total(pieces) + 1
                && (AllNulFree(pieces) ==> sent.value[..Total(pieces)] == Text(pieces))
    {
      var len := req.GetTotalLength();
      var buffer := new char[len.value + 1];
      var end := req.FormatRequest(buffer);
      VisibleLength(Q.RequestPieces(req.View()));
      if !works {
        return None;
      }
      assert end.value == len.value ==> buffer[..][..len.value] == buffer[0..end.value];
      return Some(buffer[..]);
    }

    method GetHttpResponse() returns (fetched: Fetched)
      modifies remote
      ensures (fetched, remote.script) == Fetch(old(remote.script))
    {
      var code, response := RecvUntil(remote, Framing.BLANK);
      match code {
        case Again => return ErrorReply(TIMEOUT_REPLY);
        case Fault => return Down;
        case Waiting => return Hung;
        case Done =>
      }
      var header := new R.HttpResponse();
      var outcome := header.ParseResponse(response);
      if outcome.Rejected? {
        return Down;
      } else if !outcome.Parsed? {
        return Crash;
      }
      var cl := header.base.FindHeader(CONTENT_LENGTH);
      if cl == "" {
        return Down;
      }
      var bodySize := ExtractInt(cl);
      var status, body := RecvNth(remote, bodySize);
      match status {
        case Again => return ErrorReply(TIMEOUT_REPLY);
        case Fault => return Down;
        case Waiting => return Hung;
        case Done =>
      }
      var view := R.Response(header.version, header.statusCode, header.statusMsg, header.base.headers);
      return Got(FullHttpResponse(view, body, response + body));
    }
  }

  /** What connecting to an origin gives: does the send work, and what do the recvs return? */
  datatype Link = Link(works: bool, script: seq<Recv>)

  function FetchFrom(link: Link): Fetched {
    if link.works then Fetch(link.script).0 else Down
  }

  /** A fresh connection: sendHttpRequest, then getHttpResponse. */
  method Exchange(link: Link, request: Q.HttpRequest) returns (fetched: Fetched)
    requires request.verb == Q.GET
    ensures fetched == FetchFrom(link)
  {
    var connection := new Socket(link.script);
    var client := new ProxyServerClient(connection);
    var sent := client.SendHttpRequest(request, link.works);
    if sent.None? {
      return Down;
    }
    fetched := client.GetHttpResponse();
  }

  // ----- Conservation -----

  /** The two receives behind a complete answer. */
  lemma TwoReceives(script: seq<Recv>) returns (header: R.Response, head: Received, body: Received)
    requires Fetch(script).0.Got?
    ensures head == Until(script, "", Framing.BLANK) && head.code == Done
    ensures header == R.Parse(head.data, R.EMPTY).response
    ensures body == Nth(head.left, BodyLength(header), "") && body.code == Done
    ensures Fetch(script) == (Got(FullHttpResponse(header, body.data, head.data + body.data)), body.left)
  {
    head := Until(script, "", Framing.BLANK);
    header := R.Parse(head.data, R.EMPTY).response;
    body := Nth(head.left, BodyLength(header), "");
  }

  /** Two receives in a row use up a prefix of the script, and deliver its bytes in order. */
  lemma ReceivesInARow(script: seq<Recv>, delimiter: string, length: int, head: Received, body: Received)
    returns (h: nat, m: nat)
    requires head == Until(script, "", delimiter) && head.code == Done
    requires body == Nth(head.left, length, "") && body.code == Done
    ensures h <= m <= |script| && ShortestWith(script, h, delimiter) && ShortestOf(script[h..], m - h, length)
    ensures head.data == Joined(script[..h]) && head.left == script[h..]
    ensures body.data == Joined(script[h..m]) && body.left == script[m..]
    ensures head.data + body.data == Joined(script[..m])
  {
    h := UntilTakes(script, delimiter);
    m := NthTakesFrom(script, h, length);
    JoinedAfter(script, h, m);
  }

  /** The recvs that a complete answer used: h for the header, then those up to m for the body. */
  ghost predicate AnswerUses(script: seq<Recv>, resp: FullHttpResponse, h: nat, m: nat) {
    && h <= m <= |script|
    && ShortestWith(script, h, Framing.BLANK)
    && ShortestOf(script[h..], m - h, BodyLength(resp.header))
    && resp.body == Joined(script[h..m])
    && resp.entire == Joined(script[..m])
  }

  /**
   * A complete answer is exactly the bytes of the recvs that were used, in order, nothing lost
   * and nothing repeated; the header took the shortest whole-recv prefix with a blank line, the
   * body the shortest one of Content-Length bytes after it, and nothing more was read.
   */
  lemma AnswerIsConserved(script: seq<Recv>) returns (h: nat, m: nat)
    requires Fetch(script).0.Got?
    ensures AnswerUses(script, Fetch(script).0.resp, h, m)
    ensures Fetch(script).1 == script[m..]
    ensures Fetch(script).0.resp.header == R.Parse(Joined(script[..h]), R.EMPTY).response
  {
    var header, head, body := TwoReceives(script);
    h, m := ReceivesInARow(script, Framing.BLANK, BodyLength(header), head, body);
  }

  lemma HeadBoundary(script: seq<Recv>, delimiter: string, start: nat, head: Received)
    requires head == Until(script, "", delimiter) && head.code == Done
    requires Find(Joined(script), delimiter, 0).Some? && Find(Joined(script), delimiter, 0).value + |delimiter| == start
    ensures start <= |head.data|
    ensures Boundary(script, start) <==> |head.data| == start
  {
    var h := UntilTakes(script, delimiter);
    UntilBoundary(script, h, delimiter, start);
  }

  lemma BodyBoundary(script: seq<Recv>, delimiter: string, length: nat, head: Received, body: Received)
    requires head == Until(script, "", delimiter) && head.code == Done
    requires body == Nth(head.left, length, "") && body.code == Done
    ensures length <= |body.data| && head.data + body.data <= Joined(script)
    ensures Boundary(script, |head.data| + length) <==> |body.data| == length
  {
    var h := UntilUsesPrefix(script, delimiter);
    var m := NthTakesFrom(script, h, length);
    NthBoundary(script, h, m, length);
    JoinedAfter(script, h, m);
    JoinedPrefix(script, m);
  }

  /** Both receives stop where the message does exactly when the recvs have boundaries there. */
  lemma TwoBoundaries(script: seq<Recv>, delimiter: string, start: nat, length: nat, head: Received, body: Received)
    requires head == Until(script, "", delimiter) && head.code == Done
    requires body == Nth(head.left, length, "") && body.code == Done
    requires Find(Joined(script), delimiter, 0).Some? && Find(Joined(script), delimiter, 0).value + |delimiter| == start
    ensures start + length <= |head.data + body.data| && head.data + body.data <= Joined(script)
    ensures |head.data + body.data| == start + length <==> Boundary(script, start) && Boundary(script, start + length)
  {
    HeadBoundary(script, delimiter, start, head);
    BodyBoundary(script, delimiter, length, head, body);
  }

  /**
   * With the blank line at d and a Content-Length of at least 0, the answer kept is exactly the
   * message at the head of the stream if and only if the message's two boundaries, behind the
   * header and behind the body, fall between recvs; otherwise it holds bytes from behind it.
   */
  lemma EntireIsMessageIff(script: seq<Recv>, d: nat, resp: FullHttpResponse)
    requires Fetch(script).0 == Got(resp)
    requires Find(Joined(script), Framing.BLANK, 0) == Some(d) && 0 <= BodyLength(resp.header)
    ensures
      var stream, end := Joined(script), d + 4 + BodyLength(resp.header);
      && end <= |resp.entire| && resp.entire <= stream
      && (resp.entire == stream[..end] <==> Boundary(script, d + 4) && Boundary(script, end))
  {
    var header, head, body := TwoReceives(script);
    TwoBoundaries(script, Framing.BLANK, d + 4, BodyLength(header), head, body);
    assert resp.entire == Joined(script)[..|resp.entire|];
  }

  /** The answer's header is parsed inside what was received: no reply makes the proxy crash. */
  lemma FetchNeverCrashes(script: seq<Recv>)
    ensures Fetch(script).0 != Crash
  {
    var head := Until(script, "", Framing.BLANK);
    if head.code == Done {
      var d := Framing.ReceivedFrame(script, Joined(script));
      Framing.FramedResponse(head.data, d, R.EMPTY);
    }
  }

  // ----- Which exception -----

  /**
   * How getHttpResponse fails: EAGAIN in either receive is the 408 reply; a failed recv, a header
   * that is rejected and a missing or empty Content-Length are exceptions of the connection.
   */
  lemma FetchExceptions(script: seq<Recv>)
    ensures
      var head, fetched := Until(script, "", "\r\n\r\n"), Fetch(script).0;
      if head.code == Again then fetched == ErrorReply("HTTP/1.1 408 Request Timeout")
      else if head.code == Fault then fetched == Down
      else if head.code == Waiting then fetched == Hung
      else
        var parse := R.Parse(head.data, R.EMPTY);
        if !parse.outcome.Parsed? then fetched == Down
        else
          var length := Lookup(parse.response.headers, "Content-Length");
          if length == "" then fetched == Down
          else
            var body := Nth(head.left, ExtractInt(length), "");
            if body.code == Again then fetched == ErrorReply("HTTP/1.1 408 Request Timeout")
            else if body.code == Fault then fetched == Down
            else if body.code == Waiting then fetched == Hung
            else fetched == Got(FullHttpResponse(parse.response, body.data, head.data + body.data))
  {
    FetchNeverCrashes(script);
  }

  // ----- When an answer comes back -----

  lemma FetchAccepted(script: seq<Recv>, head: Received, header: R.Response, end: nat)
    requires head == Until(script, "", Framing.BLANK) && head.code == Done
    requires R.Parse(head.data, R.EMPTY) == R.ResponseResult(Parsed(end), header)
    requires Lookup(header.headers, CONTENT_LENGTH) != ""
    requires AllAppend(head.left)
    ensures Fetch(script).0.Got? <==> BodyLength(header) <= |Joined(head.left)|
    ensures !Fetch(script).0.Got? ==> Fetch(script).0 == Hung
  {
    NthReturnsIff(head.left, BodyLength(header), "");
  }

  /** What was received parses as the bytes of the stream through the first blank line. */
  lemma HeadParses(script: seq<Recv>, d: nat, head: Received)
    requires head == Until(script, "", Framing.BLANK) && head.code == Done
    requires Find(Joined(script), Framing.BLANK, 0) == Some(d)
    ensures R.Parse(head.data, R.EMPTY) == R.Parse(Joined(script)[..d + 4], R.EMPTY)
  {
    var frame := Framing.ReceivedFrame(script, Joined(script));
    Framing.ResponseIsLocal(head.data, d, R.EMPTY);
  }

  lemma HeadAndRest(script: seq<Recv>) returns (h: nat, head: Received)
    requires AllAppend(script) && Contains(Joined(script), Framing.BLANK)
    ensures ShortestWith(script, h, Framing.BLANK)
    ensures head == Until(script, "", Framing.BLANK) && head.code == Done
    ensures AllAppend(head.left) && |Joined(script)| == |Joined(script[..h])| + |Joined(head.left)|
  {
    UntilReturnsIff(script, Framing.BLANK);
    h := UntilTakes(script, Framing.BLANK);
    head := Until(script, "", Framing.BLANK);
    JoinedAfter(script, h, |script|);
    assert script[..|script|] == script && script[h..|script|] == script[h..];
  }

  /**
   * With an accepted header in the stream, and every recv appending, getHttpResponse returns the
   * answer if and only if Content-Length bytes follow the recv that completed the header: what
   * that recv brought of the body is not counted. Otherwise it waits for ever.
   */
  lemma FetchReturnsIff(script: seq<Recv>, d: nat, header: R.Response, end: nat) returns (h: nat)
    requires AllAppend(script) && Find(Joined(script), Framing.BLANK, 0) == Some(d)
    requires R.Parse(Joined(script)[..d + 4], R.EMPTY) == R.ResponseResult(Parsed(end), header)
    requires Lookup(header.headers, CONTENT_LENGTH) != ""
    ensures ShortestWith(script, h, Framing.BLANK)
    ensures Fetch(script).0.Got? <==> |Joined(script[..h])| + BodyLength(header) <= |Joined(script)|
    ensures !Fetch(script).0.Got? ==> Fetch(script).0 == Hung
  {
    var head;
    h, head := HeadAndRest(script);
    HeadParses(script, d, head);
    FetchAccepted(script, head, header, end);
  }

  /**
   * A reply that is exactly one message and no more: it is ever returned if and only if its body
   * is empty or no recv crosses the end of its header.
   */
  lemma OneMessageReturnsIff(script: seq<Recv>, d: nat, header: R.Response, end: nat)
    requires AllAppend(script) && Find(Joined(script), Framing.BLANK, 0) == Some(d)
    requires R.Parse(Joined(script)[..d + 4], R.EMPTY) == R.ResponseResult(Parsed(end), header)
    requires Lookup(header.headers, CONTENT_LENGTH) != ""
    requires 0 <= BodyLength(header) && |Joined(script)| == d + 4 + BodyLength(header)
    ensures Fetch(script).0.Got? <==> BodyLength(header) == 0 || Boundary(script, d + 4)
    ensures !Fetch(script).0.Got? ==> Fetch(script).0 == Hung
  {
    var h := FetchReturnsIff(script, d, header, end);
    UntilBoundary(script, h, Framing.BLANK, d + 4);
    JoinedPrefix(script, h);
  }
}
