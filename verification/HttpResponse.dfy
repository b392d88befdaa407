/** http-response.cc: the response object, its parser and its printer. */
module HttpResponse {
  import opened Wrappers
  import opened Search
  import opened HeaderList
  import opened HeaderGrammar
  import opened CString
  import H = HttpHeaders

  const NO_STATUS_LINE := "HTTP response doesn't end with \\r\\n"
  const BAD_STATUS_LINE := "Incorrectly formatted response"
  const BAD_STATUS_VERSION := "Incorrectly formatted HTTP response"

  datatype Response = Response(version: string, code: string, msg: string, headers: Headers)

  /** A response as constructed. */
  const EMPTY := Response("", "", "", [])

  // ----- Parsing -----

  /** The two spaces of a status line; a failed first search makes the second start at 0. */
  function FirstSpace(line: string): Option<nat> {
    FindChar(line, ' ', 0)
  }

  function SecondSpace(line: string): Option<nat> {
    FindChar(line, ' ', match FirstSpace(line) case None => 0 case Some(i) => i + 1)
  }

  /** std::string::compare(0, 5, "HTTP/") == 0. */
  predicate NamesHttp(line: string) {
    |line| >= 5 && line[..5] == "HTTP/"
  }

  /** A line that names HTTP has its first space after the slash: no substr starts out of range. */
  lemma SpacesInRange(line: string)
    requires NamesHttp(line) && FirstSpace(line).Some? && SecondSpace(line).Some?
    ensures 5 <= FirstSpace(line).value < SecondSpace(line).value < |line|
  {
    FindCharIsFirst(line, ' ', 0);
    FindCharIsFirst(line, ' ', FirstSpace(line).value + 1);
    assert forall i :: 0 <= i < 5 ==> line[i] == "HTTP/"[i];
  }

  function TakeStatusLine(line: string, r: Response): (Option<Outcome>, Response) {
    if FirstSpace(line).None? || SecondSpace(line).None? then (Some(Rejected(BAD_STATUS_LINE)), r)
    else if !NamesHttp(line) then (Some(Rejected(BAD_STATUS_VERSION)), r)
    else
      var first, second := FirstSpace(line).value, SecondSpace(line).value;
      SpacesInRange(line);
      (None, r.(version := line[5..first], code := line[first + 1..second], msg := line[second + 1..]))
  }

  datatype ResponseResult = ResponseResult(outcome: Outcome, response: Response)

  /** The meaning of a buffer read into a response: the status line, then a header block. */
  function Parse(b: string, r: Response): ResponseResult {
    match NextCrlf(b, 0)
    case None => ResponseResult(Rejected(NO_STATUS_LINE), r)
    case Some(e) =>
      var (error, r') := TakeStatusLine(b[..e], r);
      if error.Some? then ResponseResult(error.value, r')
      else
        var block := ParseBlock(b[e + 2..], r'.headers);
        ResponseResult(Shift(block.outcome, e + 2), r'.(headers := block.headers))
  }

  // ----- Printing -----

  function StatusPieces(r: Response): seq<string> {
    ["HTTP/", r.version, " ", r.code, " ", r.msg, CRLF]
  }

  function ResponsePieces(r: Response): seq<string> {
    StatusPieces(r) + H.Pieces(r.headers) + [CRLF]
  }

  lemma StatusTotal(r: Response)
    ensures Total(StatusPieces(r)) == 5 + |r.version| + (1 + |r.code|) + (1 + |r.msg|) + 2
  {
    SevenPieces("HTTP/", r.version, " ", r.code, " ", r.msg, CRLF);
  }

  lemma ResponseTotal(r: Response)
    ensures Total(ResponsePieces(r)) == Total(StatusPieces(r)) + Total(H.Pieces(r.headers)) + 2
  {
    TotalConcat(StatusPieces(r), H.Pieces(r.headers));
    TotalConcat(StatusPieces(r) + H.Pieces(r.headers), [CRLF]);
    TotalConcat([CRLF], []);
    assert [CRLF] + [] == [CRLF];
  }

  // ----- The object -----

  class HttpResponse {
    var version: string
    var statusCode: string
    var statusMsg: string
    const base: H.HttpHeaders

    ghost function View(): Response
      reads this, base
    {
      Response(version, statusCode, statusMsg, base.headers)
    }

    constructor ()
      ensures fresh(base) && View() == EMPTY
    {
      version, statusCode, statusMsg := "", "", "";
      base := new H.HttpHeaders();
    }

    method ParseStatusLine(line: string) returns (error: Option<Outcome>)
      modifies this
      ensures (error, View()) == TakeStatusLine(line, old(View()))
    {
      var posFirstSpace := FindChar(line, ' ', 0);
      var posSecondSpace := FindChar(line, ' ', if posFirstSpace.None? then 0 else posFirstSpace.value + 1);
      if posFirstSpace.None? || posSecondSpace.None? {
        return Some(Rejected(BAD_STATUS_LINE));
      }
      if !(|line| >= 5 && line[..5] == "HTTP/") {
        return Some(Rejected(BAD_STATUS_VERSION));
      }
      SpacesInRange(line);
      version := line[5..posFirstSpace.value];
      statusCode := line[posFirstSpace.value + 1..posSecondSpace.value];
      statusMsg := line[posSecondSpace.value + 1..];
      return None;
    }

    /** Reads a response header; on an exception the fields keep what had been read. */
    method ParseResponse(buffer: string) returns (outcome: Outcome)
      modifies this, base
      ensures ResponseResult(outcome, View()) == Parse(buffer, old(View()))
    {
      var endline := Memmem(buffer, CRLF);
      NextCrlfIsFind(buffer, 0);
      if endline.None? {
        return Rejected(NO_STATUS_LINE);
      }
      var error := ParseStatusLine(buffer[..endline.value]);
      if error.Some? {
        return error.value;
      }
      var curPos := endline.value + 2;
      H.OnePassIsDeclarative(buffer[curPos..], base.headers);
      outcome := base.ParseHeaders(buffer[curPos..]);
      outcome := Shift(outcome, curPos);
    }

    method GetTotalLength() returns (len: nat)
      ensures len == Total(ResponsePieces(View()))
    {
      ResponseTotal(View());
      StatusTotal(View());
      len := 0;
      len := len + 5;
      len := len + |version|;
      len := len + 1 + |statusCode|;
      len := len + 1 + |statusMsg|;
      len := len + 2;
      var headers := base.GetTotalLength();
      len := len + headers;
      len := len + 2;
    }

    method FormatStatusLine(buffer: array<char>) returns (pos: nat)
      requires Total(StatusPieces(View())) <= buffer.Length
      modifies buffer
      ensures Cursor(buffer[..], pos) == EmitAll(Cursor(old(buffer[..]), 0), StatusPieces(View()))
    {
      ghost var p6 := [CRLF] + [];
      ghost var p5 := [statusMsg] + p6;
      ghost var p4 := [" "] + p5;
      ghost var p3 := [statusCode] + p4;
      ghost var p2 := [" "] + p3;
      ghost var p1 := [version] + p2;
      assert ["HTTP/"] + p1 == StatusPieces(View());
      pos := CopyField(buffer, 0, "HTTP/", p1);
      pos := CopyField(buffer, pos, version, p2);
      pos := CopyField(buffer, pos, " ", p3);
      pos := CopyField(buffer, pos, statusCode, p4);
      pos := CopyField(buffer, pos, " ", p5);
      pos := CopyField(buffer, pos, statusMsg, p6);
      pos := CopyField(buffer, pos, CRLF, []);
    }

    /** Fills a buffer of GetTotalLength bytes; for any field contents nothing else is written. */
    method FormatResponse(buffer: array<char>) returns (end: nat)
      requires Total(ResponsePieces(View())) <= buffer.Length
      modifies buffer
      ensures Cursor(buffer[..], end) == EmitAll(Cursor(old(buffer[..]), 0), ResponsePieces(View()))
      ensures PrintedExactly(old(buffer[..]), 0, buffer[..], end, ResponsePieces(View()))
    {
      EmitAllPrints(Cursor(buffer[..], 0), ResponsePieces(View()));
      ghost var c := Cursor(buffer[..], 0);
      EmitSections(c, StatusPieces(View()), H.Pieces(base.headers), CRLF);
      end := FormatStatusLine(buffer);
      end := base.FormatBlock(buffer, end);
    }
  }
}
