/** http-request.cc: the request object, its parser and its printer. */
module HttpRequest {
  import opened Wrappers
  import opened Search
  import opened HeaderList
  import opened HeaderGrammar
  import opened CString
  import opened RequestLine
  import H = HttpHeaders

  const NO_LINE := "HTTP Request doesn't end with \\r\\n"
  const INCORRECT := "Incorrectly formatted request"
  const NOT_GET := "Request is not GET"
  const BAD_TARGET := "Request line is not correctly formatted"
  const BAD_VERSION := "Incorrectly formatted HTTP request"
  const HOST := "Host"

  datatype Method = GET | UNSUPPORTED

  /** The fields of a request object. */
  datatype Request = Request(verb: Method, host: string, port: nat, path: string, version: string, headers: Headers)

  /** A request as constructed. */
  const FRESH := Request(UNSUPPORTED, "", 0, "", "", [])

  /** The Host header that the setters write: the port is named unless it is 80. */
  function HostValue(host: string, port: nat): string {
    if port != 80 then host + ":" + Decimal(port) else host
  }

  function WithHost(r: Request, host: string): Request {
    r.(host := host, headers := Modify(r.headers, HOST, HostValue(host, r.port)))
  }

  function WithPort(r: Request, port: nat): Request {
    r.(port := port, headers := Modify(r.headers, HOST, HostValue(r.host, port)))
  }

  // ----- Parsing -----

  /** The request after a step of the parser, and the exception that ended it, if any. */
  datatype LineResult = LineResult(error: Option<Outcome>, request: Request)

  /** The second token: an absolute target sets port, host and path, in that order. */
  function TakeTarget(token: string, r: Request): LineResult {
    match SplitTarget(token)
    case PathOnly => LineResult(None, r.(path := token))
    case NoSlash => LineResult(Some(Rejected(BAD_TARGET)), r)
    case Absolute(_, a) =>
      match a.port
      case None => LineResult(None, WithHost(WithPort(r, 80), a.host).(path := a.path))
      case Some(text) =>
        match LexicalCast(text)
        case None => LineResult(Some(BadCast), r)
        case Some(port) => LineResult(None, WithHost(WithPort(r, port), a.host).(path := a.path))
  }

  /** The third token: "HTTP/" anywhere in it, then everything from its sixth byte. */
  function TakeVersion(token: string, r: Request): LineResult {
    match Find(token, "HTTP/", 0)
    case None => LineResult(Some(Rejected(BAD_VERSION)), r)
    case Some(_) => LineResult(None, r.(version := token[5..]))
  }

  function TakeRequestLine(line: string, r: Request): LineResult {
    var tokens := Tokens(line);
    if |tokens| == 0 then LineResult(Some(Rejected(INCORRECT)), r)
    else if tokens[0] != "GET" then LineResult(Some(Rejected(NOT_GET)), r)
    else
      var r1 := r.(verb := GET);
      if |tokens| == 1 then LineResult(Some(Rejected(INCORRECT)), r1)
      else
        var target := TakeTarget(tokens[1], r1);
        if target.error.Some? then target
        else if |tokens| == 2 then LineResult(Some(Rejected(INCORRECT)), target.request)
        else TakeVersion(tokens[2], target.request)
  }

  datatype RequestResult = RequestResult(outcome: Outcome, request: Request)

  /** The meaning of a buffer read into a request: the request line, then a header block. */
  function Parse(b: string, r: Request): RequestResult {
    match NextCrlf(b, 0)
    case None => RequestResult(Rejected(NO_LINE), r)
    case Some(e) =>
      var line := TakeRequestLine(b[..e], r);
      if line.error.Some? then RequestResult(line.error.value, line.request)
      else
        var block := ParseBlock(b[e + 2..], line.request.headers);
        RequestResult(Shift(block.outcome, e + 2), line.request.(headers := block.headers))
  }

  // ----- Printing -----

  function RequestPieces(r: Request): seq<string> {
    ["GET ", r.path, " HTTP/", r.version, CRLF] + H.Pieces(r.headers) + [CRLF]
  }

  lemma RequestTotal(r: Request)
    ensures Total(RequestPieces(r)) ==
            4 + |r.path| + 6 + |r.version| + 2 + Total(H.Pieces(r.headers)) + 2
  {
    var start := ["GET ", r.path, " HTTP/", r.version, CRLF];
    TotalConcat(start, H.Pieces(r.headers));
    TotalConcat(start + H.Pieces(r.headers), [CRLF]);
    TotalConcat([CRLF], []);
    assert [CRLF] + [] == [CRLF];
    StartTotal(r.path, r.version);
  }

  lemma StartTotal(path: string, version: string)
    ensures Total(["GET ", path, " HTTP/", version, CRLF]) == 4 + |path| + 6 + |version| + 2
  {
    FivePieces("GET ", path, " HTTP/", version, CRLF);
  }

  // ----- The object -----

  class HttpRequest {
    var verb: Method
    var host: string
    var port: nat
    var path: string
    var version: string
    const base: H.HttpHeaders

    ghost function View(): Request
      reads this, base
    {
      Request(verb, host, port, path, version, base.headers)
    }

    constructor ()
      ensures fresh(base) && View() == FRESH && View() == Request(UNSUPPORTED, "", 0, "", "", [])
    {
      verb, host, port, path, version := UNSUPPORTED, "", 0, "", "";
      base := new H.HttpHeaders();
    }

    method SetHost(newHost: string)
      modifies this, base
      ensures View() == WithHost(old(View()), newHost)
    {
      host := newHost;
      if port != 80 {
        base.ModifyHeader(HOST, host + ":" + Decimal(port));
      } else {
        base.ModifyHeader(HOST, host);
      }
    }

    method SetPort(newPort: nat)
      modifies this, base
      ensures View() == WithPort(old(View()), newPort)
    {
      port := newPort;
      if port != 80 {
        base.ModifyHeader(HOST, host + ":" + Decimal(port));
      } else {
        base.ModifyHeader(HOST, host);
      }
    }

    /** The second token of the request line; the result is the exception thrown, if any. */
    method ParseTarget(token: string) returns (error: Option<Outcome>)
      modifies this, base
      ensures LineResult(error, View()) == TakeTarget(token, old(View()))
    {
      var pos := FindScheme(token, 0);
      if pos.None? {
        path := token;
        return None;
      }
      var tail := token[pos.value + 3..];
      var posSlash := FindChar(tail, '/', 0);
      if posSlash.None? {
        return Some(Rejected(BAD_TARGET));
      }
      var posPort := FindChar(tail, ':', 0);
      if posPort.Some? && posPort.value < posSlash.value {
        var port := LexicalCast(tail[posPort.value + 1..posSlash.value]);
        if port.None? {
          return Some(BadCast);
        }
        SetPort(port.value);
        SetHost(tail[..posPort.value]);
      } else {
        SetPort(80);
        SetHost(tail[..posSlash.value]);
      }
      path := tail[posSlash.value..];
      return None;
    }

    method ParseRequestLine(line: string) returns (error: Option<Outcome>)
      modifies this, base
      ensures LineResult(error, View()) == TakeRequestLine(line, old(View()))
    {
      var tokens := Tokens(line);
      var token := 0;
      if token == |tokens| {
        return Some(Rejected(INCORRECT));
      }
      if tokens[token] != "GET" {
        return Some(Rejected(NOT_GET));
      }
      verb := GET;
      token := token + 1;
      if token == |tokens| {
        return Some(Rejected(INCORRECT));
      }
      error := ParseTarget(tokens[token]);
      if error.Some? {
        return error;
      }
      token := token + 1;
      if token == |tokens| {
        return Some(Rejected(INCORRECT));
      }
      var posHttp := Find(tokens[token], "HTTP/", 0);
      if posHttp.None? {
        return Some(Rejected(BAD_VERSION));
      }
      version := tokens[token][5..];
      return None;
    }

    /** Reads a request; on an exception the fields keep what had been read. */
    method ParseRequest(buffer: string) returns (outcome: Outcome)
      modifies this, base
      ensures RequestResult(outcome, View()) == Parse(buffer, old(View()))
    {
      var endline := Memmem(buffer, CRLF);
      NextCrlfIsFind(buffer, 0);
      if endline.None? {
        return Rejected(NO_LINE);
      }
      var error := ParseRequestLine(buffer[..endline.value]);
      if error.Some? {
        return error.value;
      }
      var curPos := endline.value + 2;
      ghost var headers := base.headers;
      H.OnePassIsDeclarative(buffer[curPos..], headers);
      outcome := base.ParseHeaders(buffer[curPos..]);
      outcome := Shift(outcome, curPos);
    }

    /** None is the exception "Only GET method is supported". */
    method GetTotalLength() returns (len: Option<nat>)
      ensures len == if verb == GET then Some(Total(RequestPieces(View()))) else None
    {
      if verb != GET {
        return None;
      }
      RequestTotal(View());
      var n := 4;
      n := n + |path| + 1;
      n := n + 5;
      n := n + |version|;
      n := n + 2;
      var headers := base.GetTotalLength();
      n := n + headers;
      n := n + 2;
      return Some(n);
    }

    /**
     * Fills a buffer of GetTotalLength bytes. For any field contents nothing else is written;
     * the text is the visible part of the fields, and it fills the length exactly when no
     * field has a NUL.
     */
    method FormatRequest(buffer: array<char>) returns (end: Option<nat>)
      requires verb == GET ==> Total(RequestPieces(View())) <= buffer.Length
      modifies buffer
      ensures end.Some? <==> verb == GET
      ensures end.None? ==> buffer[..] == old(buffer[..])
      ensures end.Some? ==> Cursor(buffer[..], end.value) == EmitAll(Cursor(old(buffer[..]), 0), RequestPieces(View()))
      ensures end.Some? ==> PrintedExactly(old(buffer[..]), 0, buffer[..], end.value, RequestPieces(View()))
    {
      if verb != GET {
        return None;
      }
      EmitAllPrints(Cursor(buffer[..], 0), RequestPieces(View()));
      ghost var c := Cursor(buffer[..], 0);
      EmitSections(c, ["GET ", path, " HTTP/", version, CRLF], H.Pieces(base.headers), CRLF);
      var pos := FormatLine(buffer);
      pos := base.FormatBlock(buffer, pos);
      return Some(pos);
    }

    method FormatLine(buffer: array<char>) returns (pos: nat)
      requires Total(["GET ", path, " HTTP/", version, CRLF]) <= buffer.Length
      modifies buffer
      ensures Cursor(buffer[..], pos) ==
              EmitAll(Cursor(old(buffer[..]), 0), ["GET ", path, " HTTP/", version, CRLF])
    {
      ghost var p4 := [CRLF] + [];
      ghost var p3 := [version] + p4;
      ghost var p2 := [" HTTP/"] + p3;
      ghost var p1 := [path] + p2;
      assert ["GET "] + p1 == ["GET ", path, " HTTP/", version, CRLF];
      pos := CopyField(buffer, 0, "GET ", p1);
      pos := CopyField(buffer, pos, path, p2);
      pos := CopyField(buffer, pos, " HTTP/", p3);
      pos := CopyField(buffer, pos, version, p4);
      pos := CopyField(buffer, pos, CRLF, []);
    }
  }
}
