/**
 * From framing to parsing: recv_until stops at a blank line (CRLF CRLF), and that is what makes
 * the parsers safe and their results independent of how the stream was cut into recvs.
 */
module Framing {
  import opened Wrappers
  import opened Search
  import opened HeaderList
  import opened HeaderGrammar
  import opened Receive
  import RequestLine
  import Q = HttpRequest
  import R = HttpResponse

  const BLANK := "\r\n\r\n"

  /** A line break directly followed by another. */
  predicate BlankAt(b: string, i: int) {
    CrlfAt(b, i) && CrlfAt(b, i + 2)
  }

  lemma BlankOccurs(b: string, i: int)
    ensures OccursAt(b, BLANK, i) <==> BlankAt(b, i)
  {
    if 0 <= i && i + 4 <= |b| {
      assert b[i..i + 4] == [b[i], b[i + 1], b[i + 2], b[i + 3]];
    }
  }

  // ----- Outside the frame: the unsigned size - 2 -----

  lemma {:induction false} ScanStaysInside(b: string, pos: nat)
    requires 2 <= |b| && pos <= |b|
    ensures ScanLines(b, pos).end != Overran
    decreases |b| - pos
  {
    if LineAt(b, pos).Line? {
      var rest := ScanStep(b, pos, LineAt(b, pos).crlf);
      ScanStaysInside(b, LineAt(b, pos).crlf + 2);
    }
  }

  /** The only block that is read outside its buffer is the empty one, whose size - 2 wraps. */
  lemma UndefinedIffEmpty(b: string, l: Headers) returns (o: Outcome)
    ensures o == ParseBlock(b, l).outcome
    ensures o == Undefined <==> b == ""
  {
    o := ParseBlock(b, l).outcome;
    if 2 <= |b| {
      ScanStaysInside(b, 0);
    } else {
      assert LineAt(b, 0).Last?;
    }
  }

  predicate LineError(o: Outcome) {
    o == BadCast || (o.Rejected? && (
                      || o.reason == Q.INCORRECT || o.reason == Q.NOT_GET
                      || o.reason == Q.BAD_TARGET || o.reason == Q.BAD_VERSION))
  }

  predicate StatusError(o: Outcome) {
    o.Rejected? && (o.reason == R.BAD_STATUS_LINE || o.reason == R.BAD_STATUS_VERSION)
  }

  /** The second token of the line is an absolute target whose port text is not a number up to 65535. */
  predicate BadPort(line: string) {
    var tokens := RequestLine.Tokens(line);
    && |tokens| >= 2 && tokens[0] == "GET"
    && match RequestLine.SplitTarget(tokens[1])
       case Absolute(_, rest) => rest.port.Some? && RequestLine.LexicalCast(rest.port.value).None?
       case _ => false
  }

  lemma BadPortIff(line: string, r: Q.Request)
    ensures Q.TakeRequestLine(line, r).error == Some(BadCast) <==> BadPort(line)
  {
  }

  /** A request parse throws bad_lexical_cast exactly on a bad port, whatever follows its line. */
  lemma BadCastIff(b: string, r: Q.Request)
    ensures Q.Parse(b, r).outcome == BadCast <==> NextCrlf(b, 0).Some? && BadPort(b[..NextCrlf(b, 0).value])
  {
    if NextCrlf(b, 0).Some? {
      var line, block := RequestParts(b, NextCrlf(b, 0).value, r);
      BadPortIff(b[..NextCrlf(b, 0).value], r);
    }
  }

  /** A parse is its start line's exception, or what its header block gives. */
  lemma RequestFrom(b: string, e: nat, r: Q.Request) returns (line: Q.LineResult, block: HeaderResult)
    requires NextCrlf(b, 0) == Some(e)
    ensures line == Q.TakeRequestLine(b[..e], r) && block == ParseBlock(b[e + 2..], line.request.headers)
    ensures line.error.Some? ==> Q.Parse(b, r) == Q.RequestResult(line.error.value, line.request)
    ensures line.error.None? ==>
              Q.Parse(b, r) == Q.RequestResult(Shift(block.outcome, e + 2), line.request.(headers := block.headers))
  {
    line := Q.TakeRequestLine(b[..e], r);
    block := ParseBlock(b[e + 2..], line.request.headers);
  }

  lemma ResponseFrom(b: string, e: nat, r: R.Response)
    returns (error: Option<Outcome>, taken: R.Response, block: HeaderResult)
    requires NextCrlf(b, 0) == Some(e)
    ensures (error, taken) == R.TakeStatusLine(b[..e], r) && block == ParseBlock(b[e + 2..], taken.headers)
    ensures error.Some? ==> R.Parse(b, r) == R.ResponseResult(error.value, taken)
    ensures error.None? ==>
              R.Parse(b, r) == R.ResponseResult(Shift(block.outcome, e + 2), taken.(headers := block.headers))
  {
    error, taken := R.TakeStatusLine(b[..e], r).0, R.TakeStatusLine(b[..e], r).1;
    block := ParseBlock(b[e + 2..], taken.headers);
  }

  lemma LineErrors(line: string, r: Q.Request)
    ensures
      var error := Q.TakeRequestLine(line, r).error;
      error.Some? ==> LineError(error.value)
  {
  }

  lemma StatusErrors(line: string, r: R.Response)
    ensures
      var error := R.TakeStatusLine(line, r).0;
      error.Some? ==> StatusError(error.value)
  {
  }

  lemma NeverBadCast(b: string, l: Headers)
    ensures ParseBlock(b, l).outcome != BadCast
  {
  }

  /** It leaves its buffer exactly when an accepted start line ends the buffer. */
  lemma RequestParts(b: string, e: nat, r: Q.Request) returns (line: Q.LineResult, block: Outcome)
    requires NextCrlf(b, 0) == Some(e)
    ensures line == Q.TakeRequestLine(b[..e], r) && block == ParseBlock(b[e + 2..], line.request.headers).outcome
    ensures Q.Parse(b, r).outcome == Undefined <==> e + 2 == |b| && line.error.None?
    ensures line.error.Some? ==> LineError(line.error.value) && Q.Parse(b, r).outcome == line.error.value
    ensures line.error.None? ==> Q.Parse(b, r).outcome == Shift(block, e + 2) && block != BadCast
  {
    var result;
    line, result := RequestFrom(b, e, r);
    LineErrors(b[..e], r);
    NeverBadCast(b[e + 2..], line.request.headers);
    block := UndefinedIffEmpty(b[e + 2..], line.request.headers);
  }

  lemma ResponseParts(b: string, e: nat, r: R.Response)
    returns (error: Option<Outcome>, headers: Headers, block: Outcome)
    requires NextCrlf(b, 0) == Some(e)
    ensures R.Parse(b, r).outcome == Undefined <==> e + 2 == |b| && error.None?
    ensures error == R.TakeStatusLine(b[..e], r).0 && headers == R.TakeStatusLine(b[..e], r).1.headers
    ensures block == ParseBlock(b[e + 2..], headers).outcome
    ensures error.Some? ==> StatusError(error.value) && R.Parse(b, r).outcome == error.value
    ensures error.None? ==> R.Parse(b, r).outcome == Shift(block, e + 2)
  {
    var taken, result;
    error, taken, result := ResponseFrom(b, e, r);
    headers := taken.headers;
    StatusErrors(b[..e], r);
    block := UndefinedIffEmpty(b[e + 2..], headers);
  }

  // ----- Inside the frame -----

  lemma CrlfInPrefix(b: string, from: nat, n: nat, e: nat)
    requires n <= |b| && e + 2 <= n
    requires NextCrlf(b, from) == Some(e)
    ensures NextCrlf(b[..n], from) == Some(e)
  {
    NextCrlfIsFirst(b, from);
    NextCrlfIsFirst(b[..n], from);
    assert CrlfAt(b[..n], e);
    forall j | from <= j < e
      ensures !CrlfAt(b[..n], j)
    {
      assert !CrlfAt(b, j);
    }
  }

  /** A CRLF is on its own: a second one starts at its end or later. */
  lemma CrlfBefore(b: string, pos: nat, t: nat) returns (e: nat)
    requires pos <= t && CrlfAt(b, t)
    ensures NextCrlf(b, pos) == Some(e) && pos <= e
    ensures e == t || e + 2 <= t
  {
    NextCrlfIsFirst(b, pos);
    e := NextCrlf(b, pos).value;
  }

  /** Where the scan may stand when the blank line's second CRLF is at t. */
  predicate InFrame(b: string, pos: nat, t: nat) {
    && pos <= t && CrlfAt(b, t)
    && (pos == t || (pos + 2 <= t && CrlfAt(b, t - 2)))
  }

  lemma FrameStep(b: string, pos: nat, t: nat)
    requires InFrame(b, pos, t)
    ensures LineAt(b[..t + 2], pos) == LineAt(b, pos)
    ensures LineAt(b, pos) == Last(Stop(pos)) || (LineAt(b, pos).Line? && InFrame(b, LineAt(b, pos).crlf + 2, t))
  {
    assert LoopGuard(b[..t + 2], pos) == LoopGuard(b, pos);
    if LoopGuard(b, pos) == Enter {
      var e := CrlfBefore(b, pos, t - 2);
      CrlfInPrefix(b, pos, t + 2, e);
    }
  }

  /** The scan stops within the frame, and never looks behind it. */
  lemma {:induction false} FramedScan(b: string, pos: nat, t: nat)
    requires InFrame(b, pos, t)
    ensures ScanLines(b, pos).end.Stop? && ScanLines(b, pos).end.pos <= t
    ensures ScanLines(b[..t + 2], pos) == ScanLines(b, pos)
    decreases t - pos
  {
    FrameStep(b, pos, t);
    if LineAt(b, pos).Line? {
      var e := LineAt(b, pos).crlf;
      FramedScan(b, e + 2, t);
      SameLine(b, b[..t + 2], pos, e);
    }
  }

  /** Two buffers with the same line here and the same scan behind it have the same scan. */
  lemma SameLine(b: string, c: string, pos: nat, e: nat)
    requires pos <= |b| && pos <= |c| && LineAt(b, pos) == Line(e) && LineAt(c, pos) == Line(e)
    requires b[pos..e] == c[pos..e] && ScanLines(b, e + 2) == ScanLines(c, e + 2)
    ensures ScanLines(b, pos) == ScanLines(c, pos) && ScanLines(b, pos).end == ScanLines(b, e + 2).end
  {
    var rest := ScanStep(b, pos, e);
    var rest' := ScanStep(c, pos, e);
  }

  /** What can be wrong with a framed block. */
  predicate FramedError(o: Outcome) {
    o == Rejected(ORPHAN) || o == Rejected(NO_COLON)
  }

  lemma {:induction false} LogicalErrors(lines: seq<string>)
    ensures Logical(lines).error.None? || FramedError(Rejected(Logical(lines).error.value))
    decreases |lines|
  {
    if lines != [] && !IsFold(lines[0]) && ReadHeader(lines[0]).Some? {
      LogicalErrors(lines[1 + FoldCount(lines[1..])..]);
    }
  }

  lemma FramedBlock(b: string, t: nat, l: Headers)
    requires InFrame(b, 0, t)
    ensures ParseBlock(b[..t + 2], l) == ParseBlock(b, l)
    ensures
      match ParseBlock(b, l).outcome
      case Parsed(end) => 2 <= end <= t + 2
      case o => FramedError(o)
  {
    FramedScan(b, 0, t);
    LogicalErrors(ScanLines(b, 0).lines);
  }

  /** A message with its first blank line at d: the start line, and a block inside the frame. */
  lemma FrameOf(b: string, d: nat) returns (e: nat)
    requires Find(b, BLANK, 0) == Some(d)
    ensures NextCrlf(b, 0) == Some(e) && NextCrlf(b[..d + 4], 0) == Some(e)
    ensures e <= d && InFrame(b[e + 2..], 0, d - e)
    ensures b[..d + 4][..e] == b[..e] && b[..d + 4][e + 2..] == b[e + 2..][..d - e + 2]
  {
    BlankOccurs(b, d);
    e := CrlfBefore(b, 0, d);
    CrlfInPrefix(b, 0, d + 4, e);
    assert CrlfAt(b[e + 2..], d - e);
  }

  /** The exceptions for a missing CRLF. */
  predicate MissingCrlf(o: Outcome) {
    o.Rejected? && (
      || o.reason == Q.NO_LINE || o.reason == R.NO_STATUS_LINE
      || o.reason == NO_CRLF || o.reason == NO_FINAL)
  }

  lemma ReasonsDiffer(o: Outcome)
    requires LineError(o) || StatusError(o) || FramedError(o)
    ensures !MissingCrlf(o)
  {
  }

  /** What a framed parse may end with: the end inside the frame, or an exception that is not one of those. */
  predicate FramedOutcome(o: Outcome, limit: nat) {
    match o
    case Parsed(end) => end <= limit
    case Rejected(_) => !MissingCrlf(o)
    case BadCast => true
    case Undefined => false
  }

  lemma FramedRequestParts(b: string, d: nat, r: Q.Request) returns (e: nat, error: Option<Outcome>, block: Outcome)
    requires Find(b, BLANK, 0) == Some(d)
    ensures error.Some? ==> LineError(error.value) && Q.Parse(b, r).outcome == error.value
    ensures error.None? ==> Q.Parse(b, r).outcome == Shift(block, e + 2)
    ensures FramedError(block) || (block.Parsed? && e + 2 + block.end <= d + 4)
  {
    var line;
    e := FrameOf(b, d);
    line, block := RequestParts(b, e, r);
    error := line.error;
    FramedBlock(b[e + 2..], d - e, line.request.headers);
  }

  lemma FramedResponseParts(b: string, d: nat, r: R.Response) returns (e: nat, error: Option<Outcome>, block: Outcome)
    requires Find(b, BLANK, 0) == Some(d)
    ensures error.Some? ==> StatusError(error.value) && R.Parse(b, r).outcome == error.value
    ensures error.None? ==> R.Parse(b, r).outcome == Shift(block, e + 2)
    ensures FramedError(block) || (block.Parsed? && e + 2 + block.end <= d + 4)
  {
    var headers;
    e := FrameOf(b, d);
    error, headers, block := ResponseParts(b, e, r);
    FramedBlock(b[e + 2..], d - e, headers);
  }

  lemma StartThenBlock(error: Option<Outcome>, block: Outcome, outcome: Outcome, start: nat, limit: nat)
    requires error.Some? ==> (LineError(error.value) || StatusError(error.value)) && outcome == error.value
    requires error.None? ==> outcome == Shift(block, start)
    requires FramedError(block) || (block.Parsed? && start + block.end <= limit)
    ensures FramedOutcome(outcome, limit)
  {
    if error.Some? {
      if outcome.Rejected? {
        ReasonsDiffer(outcome);
      }
    } else if FramedError(block) {
      ReasonsDiffer(block);
    }
  }

  /** Two blocks with the same lines, that stop inside both. */
  predicate SameBlock(b: string, c: string) {
    var scan := ScanLines(b, 0);
    && ScanLines(c, 0) == scan
    && scan.end.Stop? && scan.end.pos + 2 <= |b| && scan.end.pos + 2 <= |c|
  }

  lemma SameBlockParses(b: string, c: string, l: Headers)
    requires SameBlock(b, c)
    ensures ParseBlock(b, l) == ParseBlock(c, l)
  {
  }

  /** Two messages with one start line, whose rests are the same block. */
  predicate SameMessage(b: string, c: string, e: nat) {
    && NextCrlf(b, 0) == Some(e) && NextCrlf(c, 0) == Some(e) && b[..e] == c[..e]
    && SameBlock(b[e + 2..], c[e + 2..])
  }

  lemma SameFrame(b: string, d: nat) returns (e: nat)
    requires Find(b, BLANK, 0) == Some(d)
    ensures SameMessage(b, b[..d + 4], e)
  {
    e := FrameOf(b, d);
    FramedScan(b[e + 2..], 0, d - e);
  }

  lemma SameRequest(b: string, c: string, e: nat, r: Q.Request)
    requires SameMessage(b, c, e)
    ensures Q.Parse(b, r) == Q.Parse(c, r)
  {
    var line, block := RequestFrom(b, e, r);
    var line', block' := RequestFrom(c, e, r);
    SameBlockParses(b[e + 2..], c[e + 2..], line.request.headers);
  }

  lemma SameResponse(b: string, c: string, e: nat, r: R.Response)
    requires SameMessage(b, c, e)
    ensures R.Parse(b, r) == R.Parse(c, r)
  {
    var error, taken, block := ResponseFrom(b, e, r);
    var error', taken', block' := ResponseFrom(c, e, r);
    SameBlockParses(b[e + 2..], c[e + 2..], taken.headers);
  }

  /** A request whose bytes hold a blank line is parsed from the bytes through the first one. */
  lemma RequestIsLocal(b: string, d: nat, r: Q.Request)
    requires Find(b, BLANK, 0) == Some(d)
    ensures Q.Parse(b, r) == Q.Parse(b[..d + 4], r)
  {
    var e := SameFrame(b, d);
    SameRequest(b, b[..d + 4], e, r);
  }

  lemma ResponseIsLocal(b: string, d: nat, r: R.Response)
    requires Find(b, BLANK, 0) == Some(d)
    ensures R.Parse(b, r) == R.Parse(b[..d + 4], r)
  {
    var e := SameFrame(b, d);
    SameResponse(b, b[..d + 4], e, r);
  }

  /**
   * Its parse ends there at the latest; nothing is read outside the buffer, so the unsigned
   * size - 2 has not wrapped; and no "missing CRLF" exception is possible.
   */
  lemma FramedRequest(b: string, d: nat, r: Q.Request)
    requires Find(b, BLANK, 0) == Some(d)
    ensures FramedOutcome(Q.Parse(b, r).outcome, d + 4)
  {
    var e, error, block := FramedRequestParts(b, d, r);
    StartThenBlock(error, block, Q.Parse(b, r).outcome, e + 2, d + 4);
  }

  lemma FramedResponse(b: string, d: nat, r: R.Response)
    requires Find(b, BLANK, 0) == Some(d)
    ensures FramedOutcome(R.Parse(b, r).outcome, d + 4) && R.Parse(b, r).outcome != BadCast
  {
    var e, error, block := FramedResponseParts(b, d, r);
    StartThenBlock(error, block, R.Parse(b, r).outcome, e + 2, d + 4);
  }

  // ----- Two chunkings of one stream -----

  /** A completed recv_until holds the stream's own first blank line, and all bytes before it. */
  lemma ReceivedFrame(script: seq<Recv>, stream: string) returns (d: nat)
    requires Until(script, "", BLANK).code == Done && Joined(script) <= stream
    ensures
      var data := Until(script, "", BLANK).data;
      Find(stream, BLANK, 0) == Some(d) && Find(data, BLANK, 0) == Some(d) && data[..d + 4] == stream[..d + 4]
  {
    UntilIsShortestPrefix(script, BLANK);
    var m: nat :| ShortestWith(script, m, BLANK);
    var data := Until(script, "", BLANK).data;
    JoinedPrefix(script, m);
    ContainsMonotone(data, stream, BLANK);
    d := Find(data, BLANK, 0).value;
  }

  /** The parse of what recv_until assembled does not depend on how the stream was chunked. */
  lemma ChunkingIndependence(one: seq<Recv>, two: seq<Recv>, stream: string, q: Q.Request, r: R.Response)
    requires Joined(one) <= stream && Joined(two) <= stream
    requires Until(one, "", BLANK).code == Done && Until(two, "", BLANK).code == Done
    ensures Q.Parse(Until(one, "", BLANK).data, q) == Q.Parse(Until(two, "", BLANK).data, q)
    ensures R.Parse(Until(one, "", BLANK).data, r) == R.Parse(Until(two, "", BLANK).data, r)
  {
    var d := ReceivedFrame(one, stream);
    var d' := ReceivedFrame(two, stream);
    var a, b := Until(one, "", BLANK).data, Until(two, "", BLANK).data;
    RequestIsLocal(a, d, q);
    RequestIsLocal(b, d, q);
    ResponseIsLocal(a, d, r);
    ResponseIsLocal(b, d, r);
  }

  /** What recv_until returns with 1 is framed, so both parses of it are safe. */
  lemma ReceivedIsSafe(script: seq<Recv>, q: Q.Request, r: R.Response)
    requires Until(script, "", BLANK).code == Done
    ensures
      var data := Until(script, "", BLANK).data;
      FramedOutcome(Q.Parse(data, q).outcome, |data|) && FramedOutcome(R.Parse(data, r).outcome, |data|)
  {
    var data := Until(script, "", BLANK).data;
    var d := ReceivedFrame(script, Joined(script));
    FramedRequest(data, d, q);
    FramedResponse(data, d, r);
  }

  /**
   * A request is also parsed when recv_until gave up with EAGAIN. That parse leaves its buffer
   * exactly when the bytes so far are an accepted request line and nothing else.
   */
  lemma OverreadIff(script: seq<Recv>, r: Q.Request)
    requires Until(script, "", BLANK).code == Done || Until(script, "", BLANK).code == Again
    ensures
      var received := Until(script, "", BLANK);
      var data := received.data;
      Q.Parse(data, r).outcome == Undefined <==>
      && received.code == Again
      && NextCrlf(data, 0).Some? && NextCrlf(data, 0).value + 2 == |data|
      && Q.TakeRequestLine(data[..NextCrlf(data, 0).value], r).error.None?
  {
    var data := Until(script, "", BLANK).data;
    if Until(script, "", BLANK).code == Done {
      ReceivedIsSafe(script, r, R.EMPTY);
    }
    if NextCrlf(data, 0).Some? {
      var line, block := RequestParts(data, NextCrlf(data, 0).value, r);
    }
  }
}
