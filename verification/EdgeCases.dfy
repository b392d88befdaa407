/** Requests for which a property that one would expect fails. */
module EdgeCases {
  import opened Wrappers
  import opened Search
  import opened HeaderList
  import opened HeaderGrammar
  import opened HeaderCodec
  import opened CString
  import opened RequestLine
  import opened MessageCodec
  import opened Receive
  import Connection
  import Framing
  import RequestMeaning
  import H = HttpHeaders
  import S = ProxyServer
  import Q = HttpRequest

  lemma EmptyBlock(l: Headers)
    ensures ParseBlock(CRLF, l) == HeaderResult(Parsed(2), l)
  {
    assert LineAt(CRLF, 0) == Last(Stop(0));
  }

  /** A request of one target and no headers. */
  function Plain(target: string): Q.Request {
    Q.Request(Q.GET, "", 0, target, "1.0", [])
  }

  /** Text that a host or a path can be made of. */
  predicate Fits(s: string) {
    ' ' !in s && NoCrlf(s) && (s == "" || s[0] != '\n')
  }

  /** Printing and reading a request without headers. */
  lemma ParseBare(r: Q.Request) returns (b: string, target: Q.LineResult)
    requires r.path != "" && Fits(r.path) && NoCrlf(r.version) && ' ' !in r.version && r.headers == []
    ensures b == Text(Q.RequestPieces(r)) && target == Q.TakeTarget(r.path, Q.FRESH.(verb := Q.GET))
    ensures Q.Parse(b, Q.FRESH) ==
            if target.error.Some? then Q.RequestResult(target.error.value, target.request)
            else Q.RequestResult(Parsed(|b|), target.request.(version := r.version))
  {
    var block, n;
    b, target, block, n := ReadPrintedRequest(r);
    BareBody(r.headers, target.request.headers);
    BareReading(Q.Parse(b, Q.FRESH), target, r.version, block, n, |b|);
  }

  lemma BareReading(
    parse: Q.RequestResult, target: Q.LineResult, version: string, block: HeaderResult, n: nat, size: nat)
    requires parse ==
             if target.error.Some? then Q.RequestResult(target.error.value, target.request)
             else
               var request := target.request.(version := version, headers := block.headers);
               Q.RequestResult(Shift(block.outcome, n), request)
    requires block == HeaderResult(Parsed(2), target.request.headers) && size == n + 2
    ensures parse ==
            if target.error.Some? then Q.RequestResult(target.error.value, target.request)
            else Q.RequestResult(Parsed(size), target.request.(version := version))
  {
  }

  lemma BareBody(none: Headers, l: Headers)
    requires none == []
    ensures Text(H.Pieces(none)) == "" && ParseBlock(Text(H.Pieces(none)) + CRLF, l) == HeaderResult(Parsed(2), l)
  {
    assert Text(H.Pieces(none)) + CRLF == CRLF;
    EmptyBlock(l);
  }

  lemma ParsePlain(target: string, taken: Q.Request) returns (b: string)
    requires target != "" && Fits(target)
    requires Q.TakeTarget(target, Q.FRESH.(verb := Q.GET)) == Q.LineResult(None, taken)
    ensures b == Text(Q.RequestPieces(Plain(target)))
    ensures Q.Parse(b, Q.FRESH) == Q.RequestResult(Parsed(|b|), taken.(version := "1.0"))
  {
    var read;
    b, read := ParseBare(Plain(target));
  }

  lemma FitsConcat(s: string, t: string)
    requires Fits(s) && Fits(t)
    ensures Fits(s + t)
  {
    NoCrlfConcat(s, t);
  }

  lemma AbsoluteFits(host: string, path: string)
    requires Fits(host) && Fits(path)
    ensures Fits("http" + SCHEME + (host + path))
  {
    FitsConcat(host, path);
    FitsConcat("http" + SCHEME, host + path);
  }

  /** The token "http://" + host + path is taken apart into what it was made of. */
  lemma TakeAbsolute(host: string, path: string) returns (token: string, r: Q.Request)
    requires '/' !in host && ':' !in host && path != "" && path[0] == '/'
    ensures token == "http" + SCHEME + (host + path)
    ensures r == Q.Request(Q.GET, host, 80, path, "", [Header(Q.HOST, host)])
    ensures Q.TakeTarget(token, Q.FRESH.(verb := Q.GET)) == Q.LineResult(None, r)
  {
    var a := Authority(host, None, path);
    token := "http" + SCHEME + (host + path);
    assert host + PortText(None) + path == host + path;
    SplitIsUnique(token, "http", a);
    var start := Q.FRESH.(verb := Q.GET);
    r := Q.WithHost(Q.WithPort(start, 80), host).(path := path);
    SettersOnFresh(start, host, 80);
  }

  lemma AbsoluteRequest(host: string, path: string) returns (b: string, r: Q.Request)
    requires '/' !in host && ':' !in host && path != "" && path[0] == '/'
    requires Fits(host) && Fits(path)
    ensures r == Q.Request(Q.GET, host, 80, path, "1.0", [Header(Q.HOST, host)])
    ensures Q.Parse(b, Q.FRESH) == Q.RequestResult(Parsed(|b|), r)
  {
    var token, taken := TakeAbsolute(host, path);
    AbsoluteFits(host, path);
    b := ParsePlain(token, taken);
    r := taken.(version := "1.0");
  }

  lemma OriginRequest(path: string) returns (b: string, r: Q.Request)
    requires path != "" && Fits(path) && NoScheme(path)
    ensures r == Q.Request(Q.GET, "", 0, path, "1.0", [])
    ensures Q.Parse(b, Q.FRESH) == Q.RequestResult(Parsed(|b|), r)
  {
    NoSchemeIsPathOnly(path);
    var taken := Q.FRESH.(verb := Q.GET, path := path);
    b := ParsePlain(path, taken);
    r := taken.(version := "1.0");
  }

  /**
   * The key is host + path, and does not tell "GET a/b" from "GET http://a/b": for every host
   * and path there are two accepted requests with one key, of which only the second has a host.
   */
  lemma KeyCollision(host: string, path: string) returns (b: string, c: string, r: Q.Request, s: Q.Request)
    requires '/' !in host && ':' !in host && path != "" && path[0] == '/'
    requires Fits(host) && Fits(path) && NoScheme(path)
    ensures Q.Parse(b, Q.FRESH) == Q.RequestResult(Parsed(|b|), r)
    ensures Q.Parse(c, Q.FRESH) == Q.RequestResult(Parsed(|c|), s)
    ensures S.CacheKey(r) == host + path && S.CacheKey(s) == host + path
    ensures r.host == "" && r.path == host + path && s.host == host && s.path == path
  {
    FitsConcat(host, path);
    forall i
      ensures !SchemeAt(host + path, i)
    {
      assert !SchemeAt(path, i - |host|);
    }
    b, r := OriginRequest(host + path);
    c, s := AbsoluteRequest(host, path);
  }

  lemma TabIsNotTrimmed(l: Headers, host: string)
    requires l == [Header(Q.HOST, host + "\t")] && NoCrlf(host + "\t")
    ensures !HostTrimmed(l)
  {
    PositionIsFirst(l, Q.HOST);
    assert l[0].key == Q.HOST;
    NoCrlfHasNone(host + "\t");
    assert SplitCrlf(host + "\t")[0] == host + "\t";
  }

  /**
   * A host that ends in a tab is accepted, and its path has no "://", but the forwarded bytes
   * do not read back as the same request: the Host header loses the tab.
   */
  lemma TabInHost(host: string) returns (b: string, r: Q.Request)
    requires '/' !in host && ':' !in host && Fits(host)
    ensures Q.Parse(b, Q.FRESH) == Q.RequestResult(Parsed(|b|), r)
    ensures r.host == host + "\t" && NoScheme(r.path)
    ensures
      var text := Visible(Q.RequestPieces(r));
      var again := Q.Parse(text, Q.FRESH);
      !(again.outcome == Parsed(|text|) && SameMessage(again.request, r))
  {
    FitsConcat(host, "\t");
    b, r := AbsoluteRequest(host + "\t", "/");
    TabIsNotTrimmed(r.headers, host);
    ForwardingPreservesIff(b);
  }

  /** Nor do those of a path with "://" in it: its second part is taken for a host. */
  lemma SchemeInPath(host: string, path: string) returns (b: string, r: Q.Request)
    requires '/' !in host && ':' !in host && Fits(host)
    requires path != "" && path[0] == '/' && Fits(path) && !NoScheme(path)
    ensures Q.Parse(b, Q.FRESH) == Q.RequestResult(Parsed(|b|), r) && r.path == path
    ensures
      var text := Visible(Q.RequestPieces(r));
      var again := Q.Parse(text, Q.FRESH);
      !(again.outcome == Parsed(|text|) && SameMessage(again.request, r))
  {
    b, r := AbsoluteRequest(host, path);
    ForwardingPreservesIff(b);
  }

  /** "GET http://h/x://y HTTP/1.0" is such a request. */
  lemma SchemeInSomePath() returns (b: string, r: Q.Request)
    ensures Q.Parse(b, Q.FRESH) == Q.RequestResult(Parsed(|b|), r) && r.host == "h" && r.path == "/x://y"
    ensures !NoScheme(r.path)
  {
    assert SchemeAt("/x://y", 2);
    b, r := AbsoluteRequest("h", "/x://y");
  }

  /** Nor do those of a path with a NUL: the printer stops there. */
  lemma NulInPath(host: string) returns (b: string, r: Q.Request)
    requires '/' !in host && ':' !in host && Fits(host)
    ensures Q.Parse(b, Q.FRESH) == Q.RequestResult(Parsed(|b|), r) && r.path == "/\0"
    ensures
      var text := Visible(Q.RequestPieces(r));
      var again := Q.Parse(text, Q.FRESH);
      !(again.outcome == Parsed(|text|) && SameMessage(again.request, r))
  {
    b, r := AbsoluteRequest(host, "/\0");
    assert r.path[1] == '\0';
    ForwardingPreservesIff(b);
  }

  lemma UntilEagain(data: string, last: string)
    requires !Contains(data, Framing.BLANK) && |data| != EAGAIN && |last| == EAGAIN
    ensures Until([Data(data), Data(last)], "", Framing.BLANK) == Received(Again, data, [])
  {
    var script := [Data(data), Data(last)];
    assert script[1..] == [Data(last)] && script[1..][1..] == [];
    assert "" + data == data;
  }

  lemma OneLineHasNoBlank(line: string)
    requires NoCrlf(line)
    ensures !Contains(line + CRLF, Framing.BLANK)
  {
    forall i
      ensures !OccursAt(line + CRLF, Framing.BLANK, i)
    {
      Framing.BlankOccurs(line + CRLF, i);
      assert !CrlfAt(line, i);
    }
  }

  /** An accepted request line and nothing else: the parse leaves the buffer. */
  lemma LineAloneOverreads(path: string) returns (data: string)
    requires path != "" && Fits(path) && NoScheme(path)
    ensures Q.Parse(data, Q.FRESH).outcome == Undefined
    ensures !Contains(data, Framing.BLANK) && |data| > EAGAIN
  {
    var line := StartLine(path, "1.0");
    data := line + CRLF;
    NoCrlfStartLine(path, "1.0");
    FirstLineOf(line, "");
    assert data + "" == data;
    OneLineHasNoBlank(line);
    ReadStartLine(path, "1.0", Q.FRESH);
    NoSchemeIsPathOnly(path);
    var result, block := Framing.RequestParts(data, |line|, Q.FRESH);
  }

  /** So when an 11-byte recv follows such a line, the handler crashes. */
  lemma EagainOverread(path: string) returns (script: seq<Recv>)
    requires path != "" && Fits(path) && NoScheme(path)
    ensures Until(script, "", Framing.BLANK).code == Again
    ensures S.GetRequest(script) == (S.Fatal, [])
  {
    var data := LineAloneOverreads(path);
    script := [Data(data), Data("Host: a.com")];
    UntilEagain(data, "Host: a.com");
  }

  /** Text that does not begin like a number is none. */
  lemma NoPort(port: string)
    requires port != "" && !IsDigit(port[0]) && port[0] != '-' && port[0] != '+'
    ensures LexicalCast(port).None?
  {
    assert port[0] in port;
  }

  lemma TakeBadPort(host: string, port: string, path: string) returns (token: string)
    requires '/' !in host && ':' !in host && '/' !in port && path != "" && path[0] == '/'
    requires LexicalCast(port).None?
    ensures token == "http" + SCHEME + (host + (":" + port) + path)
    ensures Q.TakeTarget(token, Q.FRESH.(verb := Q.GET)).error == Some(BadCast)
  {
    token := "http" + SCHEME + (host + (":" + port) + path);
    SplitIsUnique(token, "http", Authority(host, Some(port), path));
  }

  /** A printed request whose target the parser rejects, blank line and all. */
  lemma ParseRejected(target: string, outcome: Outcome) returns (b: string)
    requires target != "" && Fits(target)
    requires Q.TakeTarget(target, Q.FRESH.(verb := Q.GET)).error == Some(outcome)
    ensures Q.Parse(b, Q.FRESH).outcome == outcome
    ensures Contains(b, Framing.BLANK) && |b| > EAGAIN
  {
    var read;
    b, read := ParseBare(Plain(target));
    BareText(Plain(target));
    var at := |StartLine(target, "1.0")|;
    assert Framing.BlankAt(b, at);
    Framing.BlankOccurs(b, at);
  }

  lemma BareText(r: Q.Request)
    requires r.headers == []
    ensures Text(Q.RequestPieces(r)) == StartLine(r.path, r.version) + CRLF + CRLF
  {
    RequestText(r);
    assert Text(H.Pieces([])) == "";
  }

  /** A request for such a port, as in "GET http://h:x/ HTTP/1.0", takes the whole proxy down. */
  lemma BadPortCrashes(host: string, port: string, path: string) returns (b: string)
    requires '/' !in host && ':' !in host && '/' !in port && path != "" && path[0] == '/'
    requires port != "" && !IsDigit(port[0]) && port[0] != '-' && port[0] != '+'
    requires Fits(host) && Fits(":" + port) && Fits(path)
    ensures S.GetRequest([Data(b)]) == (S.Fatal, [])
    ensures forall e, v: S.View :: v.client == [Data(b)] ==> S.Connect(e, v).stop == S.Aborted
  {
    NoPort(port);
    var token := TakeBadPort(host, port, path);
    FitsConcat(host, ":" + port);
    FitsConcat(host + (":" + port), path);
    FitsConcat("http" + SCHEME, host + (":" + port) + path);
    b := ParseRejected(token, BadCast);
    OnceFatal(b);
    forall e, v: S.View | v.client == [Data(b)]
      ensures S.Connect(e, v).stop == S.Aborted
    {
      Connection.FatalAborts(e, v);
    }
  }

  lemma OnceFatal(b: string)
    requires Q.Parse(b, Q.FRESH).outcome == BadCast
    requires Contains(b, Framing.BLANK) && |b| > EAGAIN
    ensures S.GetRequest([Data(b)]) == (S.Fatal, [])
  {
    UntilOnce(b);
  }

  lemma UntilOnce(b: string)
    requires Contains(b, Framing.BLANK) && |b| != EAGAIN
    ensures Until([Data(b)], "", Framing.BLANK) == Received(Done, b, [])
  {
    assert "" + b == b;
    assert [Data(b)][1..] == [];
  }

  /**
   * "GET http://host:port/path": the port is read as the number it is, and the Host header names
   * it, unless it is 80.
   */
  lemma PortIsRead(host: string, port: nat, path: string) returns (b: string, r: Q.Request)
    requires '/' !in host && ':' !in host && path != "" && path[0] == '/' && port <= 65535
    requires Fits(host) && Fits(path)
    ensures b == "GET http://" + host + ":" + Decimal(port) + path + " HTTP/1.0\r\n\r\n"
    ensures Q.Parse(b, Q.FRESH) == Q.RequestResult(Parsed(|b|), r)
    ensures r.host == host && r.port == port && r.path == path && r.version == "1.0"
    ensures r.headers == [Header("Host", if port == 80 then host else host + ":" + Decimal(port))]
  {
    var token, taken := TakePort(host, port, path);
    PortFits(host, port, path);
    b := ParsePlain(token, taken);
    r := taken.(version := "1.0");
    BareText(Plain(token));
    PortLine(host, port, path, token);
  }

  lemma TakePort(host: string, port: nat, path: string) returns (token: string, taken: Q.Request)
    requires '/' !in host && ':' !in host && path != "" && path[0] == '/' && port <= 65535
    ensures token == "http" + SCHEME + (host + (":" + Decimal(port)) + path)
    ensures Q.TakeTarget(token, Q.FRESH.(verb := Q.GET)) == Q.LineResult(None, taken)
    ensures RequestMeaning.TakenFrom(Q.FRESH.(verb := Q.GET), taken, host, port, path)
  {
    var text := Decimal(port);
    PortRoundTrip(port);
    assert '/' !in text;
    token := "http" + SCHEME + (host + (":" + text) + path);
    assert NoScheme("http");
    taken := RequestMeaning.ExplicitPort(token, "http", host, text, path, port, Q.FRESH.(verb := Q.GET));
  }

  lemma DigitsFit(port: nat)
    ensures Fits(":" + Decimal(port))
  {
    var s := ":" + Decimal(port);
    assert forall i :: 1 <= i < |s| ==> s[i] == Decimal(port)[i - 1] && s[i] in Decimal(port);
  }

  lemma PortFits(host: string, port: nat, path: string)
    requires Fits(host) && Fits(path)
    ensures Fits("http" + SCHEME + (host + (":" + Decimal(port)) + path))
  {
    DigitsFit(port);
    FitsConcat(host, ":" + Decimal(port));
    FitsConcat(host + (":" + Decimal(port)), path);
    FitsConcat("http" + SCHEME, host + (":" + Decimal(port)) + path);
  }

  lemma PortLine(host: string, port: nat, path: string, token: string)
    requires token == "http" + SCHEME + (host + (":" + Decimal(port)) + path)
    ensures StartLine(token, "1.0") + CRLF + CRLF ==
            "GET http://" + host + ":" + Decimal(port) + path + " HTTP/1.0\r\n\r\n"
  {
    assert "GET " + ("http" + SCHEME) == "GET http://";
    assert " HTTP/" + "1.0" + CRLF + CRLF == " HTTP/1.0\r\n\r\n";
  }
}
