/**
 * Whole messages: what the printers leave in a buffer, read again, is the message that was
 * printed. Each round trip is proved with the exact condition under which it holds.
 */
module MessageCodec {
  import opened Wrappers
  import opened Search
  import opened HeaderList
  import opened HeaderGrammar
  import opened HeaderCodec
  import opened CString
  import opened RequestLine
  import H = HttpHeaders
  import Q = HttpRequest
  import R = HttpResponse

  // ----- A first line and what follows it -----

  lemma FirstLineOf(line: string, rest: string)
    requires NoCrlf(line)
    ensures
      var b := line + CRLF + rest;
      NextCrlf(b, 0) == Some(|line|) && b[..|line|] == line && b[|line| + 2..] == rest
  {
    NextCrlfAfter("", line, rest);
    assert "" + line + CRLF + rest == line + CRLF + rest;
  }

  // ----- Requests: what was accepted -----

  /** A header that may still have an untrimmed first line, as the derived Host header can. */
  predicate NearlyOk(h: Header) {
    var parts := SplitCrlf(h.value);
    && KeyOk(h.key) && FoldsOk(parts[1..]) && (h.key == "" ==> |parts| == 1)
    && (h.key != Q.HOST ==> Trimmed(parts[0]))
  }

  predicate NearlyWellFormed(l: Headers) {
    Distinct(l) && forall i :: 0 <= i < |l| ==> NearlyOk(l[i])
  }

  /** The Host header, if there is one, has no white space around its first line. */
  predicate HostTrimmed(l: Headers) {
    HasKey(l, Q.HOST) ==> Trimmed(SplitCrlf(Lookup(l, Q.HOST))[0])
  }

  lemma NearlyIsWell(l: Headers)
    requires NearlyWellFormed(l)
    ensures WellFormed(l) <==> HostTrimmed(l)
  {
    PositionIsFirst(l, Q.HOST);
    if HasKey(l, Q.HOST) {
      var at := Position(l, Q.HOST).value;
      assert forall i :: 0 <= i < |l| && i != at ==> l[i].key != Q.HOST;
      assert NearlyOk(l[at]);
    }
  }

  lemma {:induction false} ModifyAllKeepsNearly(l: Headers, hs: seq<Header>)
    requires NearlyWellFormed(l) && AllOk(hs)
    ensures NearlyWellFormed(ModifyAll(l, hs))
    decreases |hs|
  {
    if hs != [] {
      ModifyKeepsDistinct(l, hs[0].key, hs[0].value);
      assert HeaderOk(hs[0]) && Header(hs[0].key, hs[0].value) == hs[0];
      ModifyAllKeepsNearly(Modify(l, hs[0].key, hs[0].value), hs[1..]);
    }
  }

  lemma ParsedIsNearlyWellFormed(b: string, l: Headers)
    requires NearlyWellFormed(l)
    ensures NearlyWellFormed(ParseBlock(b, l).headers)
  {
    ScannedLinesArePlain(b, 0);
    LogicalHeadersOk(ScanLines(b, 0).lines);
    ModifyAllKeepsNearly(l, Logical(ScanLines(b, 0).lines).headers);
  }

  lemma WordSlice(token: string, i: nat, j: nat)
    requires i <= j <= |token|
    ensures NoCrlf(token) ==> NoCrlf(token[i..j])
    ensures NulFree(token) ==> NulFree(token[i..j])
    ensures ' ' !in token ==> ' ' !in token[i..j]
  {
    if NoCrlf(token) {
      NoCrlfSlice(token, i, j);
    }
  }

  lemma AuthorityEnds(tail: string, a: Authority)
    requires SplitAuthority(tail) == Some(a)
    ensures |a.host| <= |tail| && a.host == tail[0..|a.host|]
    ensures 0 < |a.path| <= |tail| && a.path == tail[|tail| - |a.path|..|tail|]
  {
    AuthorityIsLossless(tail, a);
  }

  /** The host and the path of an absolute target are slices of the token. */
  lemma AuthoritySlices(token: string, a: Authority)
    requires SplitTarget(token).Absolute? && SplitTarget(token).rest == a
    ensures NoCrlf(token) ==> NoCrlf(a.host) && NoCrlf(a.path)
    ensures NulFree(token) ==> NulFree(a.host) && NulFree(a.path)
    ensures ' ' !in token ==> ' ' !in a.path
    ensures 0 < |a.path| < |token|
  {
    var start := FindScheme(token, 0).value + 3;
    var tail := token[start..|token|];
    assert tail == token[start..];
    WordSlice(token, start, |token|);
    AuthorityEnds(tail, a);
    WordSlice(tail, 0, |a.host|);
    WordSlice(tail, |tail| - |a.path|, |tail|);
  }

  lemma HostHeaderNearlyOk(host: string, port: nat)
    requires NoCrlf(host)
    ensures NearlyOk(Header(Q.HOST, Q.HostValue(host, port)))
    ensures NulFree(host) ==> NulFree(Q.HostValue(host, port))
  {
    var v := Q.HostValue(host, port);
    var suffix := ":" + Decimal(port);
    assert v == if port != 80 then host + suffix else host;
    forall i | 0 <= i < |suffix|
      ensures suffix[i] != '\r' && suffix[i] != '\0' && suffix[i] != '\n'
    {
      assert i > 0 ==> suffix[i] in Decimal(port) && IsDigit(suffix[i]);
    }
    NoCrlfConcat(host, suffix);
    NoCrlfHasNone(v);
    assert SplitCrlf(v) == [v];
    assert Q.HOST[0] == 'H' && Q.HOST[1] == 'o' && Q.HOST == ['H', 'o', 's', 't'];
  }

  /** SetPort then SetHost on an empty header list leave one Host header. */
  lemma SettersOnFresh(r: Q.Request, host: string, port: nat)
    requires r.headers == []
    ensures Q.WithHost(Q.WithPort(r, port), host).headers == [Header(Q.HOST, Q.HostValue(host, port))]
  {
    ModifyOverwrites([], Q.HOST, Q.HostValue(r.host, port), Q.HostValue(host, port));
    assert Position([], Q.HOST).None?;
    assert Modify([], Q.HOST, Q.HostValue(host, port)) == [] + [Header(Q.HOST, Q.HostValue(host, port))];
  }

  /** What an accepted second token makes of a new request. */
  predicate Shaped(token: string, r: Q.Request) {
    && r.verb == Q.GET && IsWord(r.path) && NoCrlf(r.path)
    && NearlyWellFormed(r.headers)
    && (r.host == "" || ('/' !in r.host && r.path[0] == '/'))
    && (NulFree(token) ==> NulFree(r.path) && ListNulFree(r.headers))
  }

  /** The request of an absolute target. */
  lemma AbsoluteTaken(token: string, a: Authority) returns (r: Q.Request)
    requires SplitTarget(token).Absolute? && SplitTarget(token).rest == a
    requires Q.TakeTarget(token, Q.FRESH.(verb := Q.GET)).error.None?
    ensures Q.TakeTarget(token, Q.FRESH.(verb := Q.GET)) == Q.LineResult(None, r)
    ensures r == Q.Request(Q.GET, a.host, r.port, a.path, "", [Header(Q.HOST, Q.HostValue(a.host, r.port))])
  {
    var port := match a.port case None => 80 case Some(text) => LexicalCast(text).value;
    SettersOnFresh(Q.FRESH.(verb := Q.GET), a.host, port);
    r := Q.TakeTarget(token, Q.FRESH.(verb := Q.GET)).request;
  }

  lemma AbsoluteShaped(token: string, a: Authority, r: Q.Request)
    requires IsWord(token) && NoCrlf(token)
    requires SplitTarget(token).Absolute? && SplitTarget(token).rest == a
    requires r == Q.Request(Q.GET, a.host, r.port, a.path, "", [Header(Q.HOST, Q.HostValue(a.host, r.port))])
    ensures Shaped(token, r) && |r.path| < |token|
  {
    AuthoritySlices(token, a);
    AuthorityIsLossless(token[FindScheme(token, 0).value + 3..], a);
    HostHeaderNearlyOk(a.host, r.port);
  }

  /** What the second token contributes to a new request. */
  lemma TargetShape(token: string) returns (r: Q.Request)
    requires IsWord(token) && NoCrlf(token)
    requires Q.TakeTarget(token, Q.FRESH.(verb := Q.GET)).error.None?
    ensures Q.TakeTarget(token, Q.FRESH.(verb := Q.GET)) == Q.LineResult(None, r)
    ensures Shaped(token, r)
    ensures NoScheme(token) ==> r == Q.FRESH.(verb := Q.GET, path := token)
    ensures !NoScheme(token) ==> |r.path| < |token|
  {
    NoSchemeIsPathOnly(token);
    match SplitTarget(token)
    case PathOnly =>
      r := Q.FRESH.(verb := Q.GET, path := token);
    case Absolute(_, a) =>
      r := AbsoluteTaken(token, a);
      AbsoluteShaped(token, a, r);
  }

  lemma NoSchemeIsPathOnly(path: string)
    ensures NoScheme(path) <==> SplitTarget(path).PathOnly?
  {
    FindSchemeIsFirst(path, 0);
  }

  /** The request line of an accepted request, and the tokens it was read from. */
  lemma LineShape(line: string)
    requires NoCrlf(line) && Q.TakeRequestLine(line, Q.FRESH).error.None?
    ensures
      var r := Q.TakeRequestLine(line, Q.FRESH).request;
      && r.verb == Q.GET && IsWord(r.path) && NoCrlf(r.path)
      && ' ' !in r.version && NoCrlf(r.version)
      && NearlyWellFormed(r.headers)
      && (r.host == "" || ('/' !in r.host && r.path[0] == '/'))
      && (NulFree(line) ==> NulFree(r.path) && NulFree(r.version) && ListNulFree(r.headers))
  {
    var target, version := Tokens(line)[1], Tokens(line)[2];
    TokenFacts(line, 1);
    TokenFacts(line, 2);
    var taken := TargetShape(target);
    assert version[5..] == version[5..|version|];
    WordSlice(version, 5, |version|);
  }

  lemma TokenFacts(line: string, i: nat)
    requires NoCrlf(line) && i < |Tokens(line)|
    ensures IsWord(Tokens(line)[i]) && NoCrlf(Tokens(line)[i])
    ensures NulFree(line) ==> NulFree(Tokens(line)[i])
  {
    TokensAreWords(line);
    var token := Tokens(line)[i];
    forall k | 0 <= k < |token| && NulFree(line)
      ensures token[k] != '\0'
    {
      assert token[k] in token;
      assert token[k] in line;
    }
  }

  /** Everything the later proofs need to know about an accepted request. */
  lemma AcceptedShape(b: string)
    requires Q.Parse(b, Q.FRESH).outcome.Parsed?
    ensures
      var r := Q.Parse(b, Q.FRESH).request;
      && r.verb == Q.GET && IsWord(r.path) && NoCrlf(r.path)
      && ' ' !in r.version && NoCrlf(r.version)
      && NearlyWellFormed(r.headers)
      && (r.host == "" || ('/' !in r.host && r.path[0] == '/'))
      && (NulFree(b) ==> RequestNulFree(r))
  {
    var e := NextCrlf(b, 0).value;
    NoCrlfBefore(b, 0);
    assert b[0..e] == b[..e];
    LineShape(b[..e]);
    var line := Q.TakeRequestLine(b[..e], Q.FRESH).request;
    ParsedIsNearlyWellFormed(b[e + 2..], line.headers);
    if NulFree(b) {
      BlockNulFree(b[e + 2..], line.headers);
    }
  }

  lemma BlockNulFree(b: string, l: Headers)
    requires NulFree(b) && ListNulFree(l)
    ensures ListNulFree(ParseBlock(b, l).headers)
  {
    ScannedLinesArePlain(b, 0);
    ScannedLinesNulFree(b, 0);
    LogicalHeadersOk(ScanLines(b, 0).lines);
    ModifyAllNulFree(l, Logical(ScanLines(b, 0).lines).headers);
  }

  lemma {:induction false} ModifyAllNulFree(l: Headers, hs: seq<Header>)
    requires ListNulFree(l) && ListNulFree(hs)
    ensures ListNulFree(ModifyAll(l, hs))
    decreases |hs|
  {
    if hs != [] {
      assert HeaderNulFree(hs[0]) && Header(hs[0].key, hs[0].value) == hs[0];
      ModifyAllNulFree(Modify(l, hs[0].key, hs[0].value), hs[1..]);
    }
  }

  predicate RequestNulFree(r: Q.Request) {
    NulFree(r.path) && NulFree(r.version) && ListNulFree(r.headers)
  }

  // ----- Requests: the cache key -----

  /**
   * The key is host followed by path. Two accepted requests with the same key have the same
   * host and the same path exactly when both name a host or neither does.
   */
  lemma KeyDeterminesHostAndPath(b: string, c: string)
    requires Q.Parse(b, Q.FRESH).outcome.Parsed? && Q.Parse(c, Q.FRESH).outcome.Parsed?
    requires
      var r, s := Q.Parse(b, Q.FRESH).request, Q.Parse(c, Q.FRESH).request;
      r.host + r.path == s.host + s.path
    ensures
      var r, s := Q.Parse(b, Q.FRESH).request, Q.Parse(c, Q.FRESH).request;
      (r.host == s.host && r.path == s.path) <==> (r.host == "" <==> s.host == "")
  {
    AcceptedShape(b);
    AcceptedShape(c);
    var r, s := Q.Parse(b, Q.FRESH).request, Q.Parse(c, Q.FRESH).request;
    SameKey(r.host, r.path, s.host, s.path);
  }

  lemma SameKey(h: string, p: string, h': string, p': string)
    requires h + p == h' + p' && p != "" && p' != ""
    requires h == "" || ('/' !in h && p[0] == '/')
    requires h' == "" || ('/' !in h' && p'[0] == '/')
    ensures (h == h' && p == p') <==> (h == "" <==> h' == "")
  {
    var key := h + p;
    assert key[|h|] == p[0] && key[|h'|] == p'[0];
    assert key[..|h|] == h && key[..|h'|] == h' && key[|h|..] == p && key[|h'|..] == p';
    if |h| < |h'| {
      StartsInside(h, p, h', p');
    } else if |h'| < |h| {
      StartsInside(h', p', h, p);
    }
  }

  lemma StartsInside(h: string, p: string, h': string, p': string)
    requires h + p == h' + p' && |h| < |h'|
    ensures p != "" && p[0] in h'
  {
    assert (h + p)[|h|] == h'[|h|];
  }

  // ----- Requests: the round trip -----

  function StartLine(path: string, version: string): string {
    "GET " + path + " HTTP/" + version
  }

  lemma StartLineTokens(path: string, version: string)
    requires IsWord(path) && ' ' !in version
    ensures Tokens(StartLine(path, version)) == ["GET", path, "HTTP/" + version]
  {
    var last := "HTTP/" + version;
    assert StartLine(path, version) == "GET" + " " + (path + " " + last);
    FirstWord("GET", path + " " + last);
    FirstWord(path, last);
    LastWord(last);
    assert ["GET"] + ([path] + [last]) == ["GET", path, last];
  }

  /** Reading a printed request line: the target decides, the version comes back. */
  lemma ReadStartLine(path: string, version: string, r: Q.Request)
    requires IsWord(path) && ' ' !in version
    ensures
      var target := Q.TakeTarget(path, r.(verb := Q.GET));
      Q.TakeRequestLine(StartLine(path, version), r) ==
      if target.error.Some? then target else Q.LineResult(None, target.request.(version := version))
  {
    StartLineTokens(path, version);
    var last := "HTTP/" + version;
    assert OccursAt(last, "HTTP/", 0);
    assert last[5..] == version;
  }

  lemma NoCrlfStartLine(path: string, version: string)
    requires NoCrlf(path) && NoCrlf(version) && IsWord(path)
    ensures NoCrlf(StartLine(path, version))
  {
    assert NoCrlf("GET ") && NoCrlf(" HTTP/");
    var a := "GET " + path;
    NoCrlfSpace("GET", path);
    assert "GET" + " " + path == a;
    NoCrlfConcat(a, " HTTP/");
    var s := a + " HTTP/";
    forall k | 0 <= k < |s + version|
      ensures !CrlfAt(s + version, k)
    {
      if k + 1 < |s| {
        assert !CrlfAt(s, k);
      } else if k >= |s| {
        assert !CrlfAt(version, k - |s|);
      }
    }
  }

  lemma NoCrlfSpace(s: string, t: string)
    requires NoCrlf(s) && NoCrlf(t)
    ensures NoCrlf(s + " " + t)
  {
    assert NoCrlf(" ");
    NoCrlfConcat(s, " ");
    NoCrlfAfterSpace(s, t);
  }

  lemma RequestText(r: Q.Request)
    ensures Text(Q.RequestPieces(r)) ==
            StartLine(r.path, r.version) + CRLF + (Text(H.Pieces(r.headers)) + CRLF)
  {
    var start := ["GET ", r.path, " HTTP/", r.version, CRLF];
    TotalConcat(start, H.Pieces(r.headers));
    TotalConcat(start + H.Pieces(r.headers), [CRLF]);
    assert Text([CRLF]) == CRLF;
    StartText(r.path, r.version);
  }

  lemma StartText(path: string, version: string)
    ensures Text(["GET ", path, " HTTP/", version, CRLF]) == StartLine(path, version) + CRLF
  {
    FivePieces("GET ", path, " HTTP/", version, CRLF);
  }

  lemma RequestPiecesNulFree(r: Q.Request)
    ensures AllNulFree(Q.RequestPieces(r)) <==> RequestNulFree(r)
  {
    var start := ["GET ", r.path, " HTTP/", r.version, CRLF];
    NulFreeConcat(start + H.Pieces(r.headers), [CRLF]);
    NulFreeConcat(start, H.Pieces(r.headers));
    PiecesNulFree(r.headers);
    assert start[0] == "GET " && start[1] == r.path && start[2] == " HTTP/";
    assert start[3] == r.version && start[4] == CRLF;
    assert NulFree("GET ") && NulFree(" HTTP/") && NulFree(CRLF);
  }

  /** The parts of a request that the forwarded bytes carry. */
  predicate SameMessage(r: Q.Request, s: Q.Request) {
    r.verb == s.verb && r.path == s.path && r.version == s.version && r.headers == s.headers
  }

  lemma RequestFromParts(b: string, line: string, rest: string, read: Q.LineResult, block: HeaderResult)
    requires NextCrlf(b, 0) == Some(|line|) && b[..|line|] == line && b[|line| + 2..] == rest
    requires Q.TakeRequestLine(line, Q.FRESH) == read
    requires ParseBlock(rest, read.request.headers) == block
    ensures Q.Parse(b, Q.FRESH) ==
            if read.error.Some? then Q.RequestResult(read.error.value, read.request)
            else Q.RequestResult(Shift(block.outcome, |line| + 2), read.request.(headers := block.headers))
  {
  }

  /** The printed request line, and what is read from it. */
  lemma ReadPrintedLine(path: string, version: string) returns (line: string, target: Q.LineResult, read: Q.LineResult)
    requires IsWord(path) && NoCrlf(path) && ' ' !in version && NoCrlf(version)
    ensures line == StartLine(path, version) && NoCrlf(line)
    ensures target == Q.TakeTarget(path, Q.FRESH.(verb := Q.GET))
    ensures read == Q.TakeRequestLine(line, Q.FRESH)
    ensures read == if target.error.Some? then target else Q.LineResult(None, target.request.(version := version))
  {
    line := StartLine(path, version);
    NoCrlfStartLine(path, version);
    ReadStartLine(path, version, Q.FRESH);
    target := Q.TakeTarget(path, Q.FRESH.(verb := Q.GET));
    read := Q.TakeRequestLine(line, Q.FRESH);
  }

  /** Reading the printed bytes of a request without NULs, up to the header block. */
  lemma ReadPrintedRequest(r: Q.Request) returns (text: string, target: Q.LineResult, block: HeaderResult, n: nat)
    requires IsWord(r.path) && NoCrlf(r.path) && ' ' !in r.version && NoCrlf(r.version)
    ensures text == Text(Q.RequestPieces(r)) && |text| == n + |Text(H.Pieces(r.headers))| + 2
    ensures target == Q.TakeTarget(r.path, Q.FRESH.(verb := Q.GET))
    ensures block == ParseBlock(Text(H.Pieces(r.headers)) + CRLF, target.request.headers)
    ensures Q.Parse(text, Q.FRESH) ==
            if target.error.Some? then Q.RequestResult(target.error.value, target.request)
            else
              var request := target.request.(version := r.version, headers := block.headers);
              Q.RequestResult(Shift(block.outcome, n), request)
  {
    var line, read;
    line, target, read := ReadPrintedLine(r.path, r.version);
    var body := Text(H.Pieces(r.headers)) + CRLF;
    n := |line| + 2;
    text := line + CRLF + body;
    RequestText(r);
    FirstLineOf(line, body);
    block := ParseBlock(body, read.request.headers);
    RequestFromParts(text, line, body, read, block);
    ReadingOf(target, r.version, read, block, n, Q.Parse(text, Q.FRESH));
  }

  lemma ReadingOf(
    target: Q.LineResult, version: string, read: Q.LineResult, block: HeaderResult, n: nat, parse: Q.RequestResult)
    requires read == if target.error.Some? then target else Q.LineResult(None, target.request.(version := version))
    requires parse ==
             if read.error.Some? then Q.RequestResult(read.error.value, read.request)
             else Q.RequestResult(Shift(block.outcome, n), read.request.(headers := block.headers))
    ensures parse ==
            if target.error.Some? then Q.RequestResult(target.error.value, target.request)
            else
              var request := target.request.(version := version, headers := block.headers);
              Q.RequestResult(Shift(block.outcome, n), request)
  {
  }

  /** Header blocks in the middle of the round trip. */
  lemma PrintedBlockIff(l: Headers)
    requires NearlyWellFormed(l)
    ensures
      var body := Text(H.Pieces(l)) + CRLF;
      ParseBlock(body, []) == HeaderResult(Parsed(|body|), l) <==> HostTrimmed(l)
    ensures ParseBlock(Text(H.Pieces(l)) + CRLF, []).headers == l ==> HostTrimmed(l)
  {
    var body := Text(H.Pieces(l)) + CRLF;
    NearlyIsWell(l);
    if HostTrimmed(l) {
      PrintedParses(l);
    } else {
      ParsedIsWellFormed(body, []);
    }
  }

  /** A path with "://" is not read back: what is read of it is shorter. */
  lemma SchemeIsLost(r: Q.Request)
    requires IsWord(r.path) && NoCrlf(r.path) && ' ' !in r.version && NoCrlf(r.version)
    requires !NoScheme(r.path)
    ensures
      var again := Q.Parse(Text(Q.RequestPieces(r)), Q.FRESH);
      again.outcome.Parsed? ==> again.request.path != r.path
  {
    var text, target, block, n := ReadPrintedRequest(r);
    if target.error.None? {
      var taken := TargetShape(r.path);
    }
  }

  /** Without "://" it comes down to the header block. */
  lemma PathIsKept(r: Q.Request) returns (text: string, block: HeaderResult, n: nat)
    requires IsWord(r.path) && NoCrlf(r.path) && ' ' !in r.version && NoCrlf(r.version)
    requires NoScheme(r.path)
    ensures text == Text(Q.RequestPieces(r)) && |text| == n + |Text(H.Pieces(r.headers))| + 2
    ensures block == ParseBlock(Text(H.Pieces(r.headers)) + CRLF, [])
    ensures Q.Parse(text, Q.FRESH) ==
            Q.RequestResult(Shift(block.outcome, n), Q.Request(Q.GET, "", 0, r.path, r.version, block.headers))
  {
    var target;
    text, target, block, n := ReadPrintedRequest(r);
    NoSchemeIsPathOnly(r.path);
  }

  lemma KeptIff(r: Q.Request, text: string, block: HeaderResult, n: nat, again: Q.RequestResult)
    requires r.verb == Q.GET && NearlyWellFormed(r.headers)
    requires |text| == n + |Text(H.Pieces(r.headers))| + 2
    requires block == ParseBlock(Text(H.Pieces(r.headers)) + CRLF, [])
    requires again ==
             Q.RequestResult(Shift(block.outcome, n), Q.Request(Q.GET, "", 0, r.path, r.version, block.headers))
    ensures again.outcome == Parsed(|text|) && SameMessage(again.request, r) <==> HostTrimmed(r.headers)
  {
    PrintedBlockIff(r.headers);
  }

  /** The round trip of a NUL-free request, before the printer is brought in. */
  lemma ReparseIff(r: Q.Request)
    requires r.verb == Q.GET && IsWord(r.path) && NoCrlf(r.path) && ' ' !in r.version && NoCrlf(r.version)
    requires NearlyWellFormed(r.headers)
    ensures
      var text := Text(Q.RequestPieces(r));
      var again := Q.Parse(text, Q.FRESH);
      (again.outcome == Parsed(|text|) && SameMessage(again.request, r)) <==>
      (NoScheme(r.path) && HostTrimmed(r.headers))
  {
    if NoScheme(r.path) {
      var text, block, n := PathIsKept(r);
      KeptIff(r, text, block, n, Q.Parse(text, Q.FRESH));
    } else {
      SchemeIsLost(r);
    }
  }

  /**
   * Forwarding: an accepted request is printed in origin form, as far as the printer gets.
   * Reading those bytes gives the same method, path, version and ordered header list, the
   * Host header taken from the absolute form included, exactly when no field has a NUL, the
   * path has no "://", and the Host header has no white space at its ends.
   */
  lemma ForwardingPreservesIff(b: string)
    requires Q.Parse(b, Q.FRESH).outcome.Parsed?
    ensures
      var r := Q.Parse(b, Q.FRESH).request;
      var text := Visible(Q.RequestPieces(r));
      var again := Q.Parse(text, Q.FRESH);
      (again.outcome == Parsed(|text|) && SameMessage(again.request, r)) <==>
      (RequestNulFree(r) && NoScheme(r.path) && HostTrimmed(r.headers))
  {
    var r := Q.Parse(b, Q.FRESH).request;
    AcceptedShape(b);
    VisibleLength(Q.RequestPieces(r));
    RequestPiecesNulFree(r);
    var text := Visible(Q.RequestPieces(r));
    if RequestNulFree(r) {
      ReparseIff(r);
    } else if Q.Parse(text, Q.FRESH).outcome.Parsed? {
      AcceptedShape(text);
    }
  }

  // ----- Responses -----

  function StatusLine(r: R.Response): string {
    "HTTP/" + r.version + " " + r.code + " " + r.msg
  }

  predicate ResponseNulFree(r: R.Response) {
    NulFree(r.version) && NulFree(r.code) && NulFree(r.msg) && ListNulFree(r.headers)
  }

  /** What a status line can hold. */
  predicate StatusOk(r: R.Response) {
    && NoCrlf(r.version) && ' ' !in r.version
    && NoCrlf(r.code) && ' ' !in r.code
    && NoCrlf(r.msg)
  }

  lemma StatusLineShape(line: string)
    requires NoCrlf(line) && R.TakeStatusLine(line, R.EMPTY).0.None?
    ensures
      var r := R.TakeStatusLine(line, R.EMPTY).1;
      StatusOk(r) && r.headers == [] && (NulFree(line) ==> NulFree(r.version) && NulFree(r.code) && NulFree(r.msg))
  {
    R.SpacesInRange(line);
    var first, second := R.FirstSpace(line).value, R.SecondSpace(line).value;
    FindCharIsFirst(line, ' ', 0);
    FindCharIsFirst(line, ' ', first + 1);
    WordSlice(line, 5, first);
    WordSlice(line, first + 1, second);
    WordSlice(line, second + 1, |line|);
    assert line[second + 1..] == line[second + 1..|line|];
  }

  lemma ResponseShape(b: string)
    requires R.Parse(b, R.EMPTY).outcome.Parsed?
    ensures
      var r := R.Parse(b, R.EMPTY).response;
      StatusOk(r) && WellFormed(r.headers) && (NulFree(b) ==> ResponseNulFree(r))
  {
    var e := NextCrlf(b, 0).value;
    NoCrlfBefore(b, 0);
    assert b[0..e] == b[..e];
    ShapeFromParts(b[..e], b[e + 2..]);
    assert NulFree(b) ==> NulFree(b[..e]) && NulFree(b[e + 2..]);
  }

  lemma ShapeFromParts(line: string, rest: string)
    requires NoCrlf(line) && R.TakeStatusLine(line, R.EMPTY).0.None?
    ensures
      var taken := R.TakeStatusLine(line, R.EMPTY).1;
      var r := taken.(headers := ParseBlock(rest, taken.headers).headers);
      StatusOk(r) && WellFormed(r.headers) && (NulFree(line) && NulFree(rest) ==> ResponseNulFree(r))
  {
    StatusLineShape(line);
    ParsedIsWellFormed(rest, R.TakeStatusLine(line, R.EMPTY).1.headers);
  }

  /** A run of text without spaces ends at the space written behind it. */
  lemma SpaceAfter(pre: string, word: string, post: string)
    requires ' ' !in word
    ensures FindChar(pre + word + " " + post, ' ', |pre|) == Some(|pre| + |word|)
  {
    var s := pre + word + " " + post;
    FindCharIsFirst(s, ' ', |pre|);
    assert s[|pre| + |word|] == ' ';
    assert forall i :: 0 <= i < |word| ==> s[|pre| + i] == word[i];
  }

  lemma StatusSpaces(r: R.Response)
    requires ' ' !in r.version && ' ' !in r.code
    ensures
      var line, first := StatusLine(r), 5 + |r.version|;
      && R.NamesHttp(line) && R.FirstSpace(line) == Some(first)
      && R.SecondSpace(line) == Some(first + 1 + |r.code|)
  {
    var line := StatusLine(r);
    assert ' ' !in "HTTP/";
    assert line == "" + ("HTTP/" + r.version) + " " + (r.code + " " + r.msg);
    SpaceAfter("", "HTTP/" + r.version, r.code + " " + r.msg);
    var pre := "HTTP/" + r.version + " ";
    assert line == pre + r.code + " " + r.msg;
    SpaceAfter(pre, r.code, r.msg);
    assert line[..5] == "HTTP/";
  }

  lemma ReadStatusLine(r: R.Response)
    requires ' ' !in r.version && ' ' !in r.code
    ensures R.TakeStatusLine(StatusLine(r), R.EMPTY) == (None, r.(headers := []))
  {
    var line := StatusLine(r);
    var first := 5 + |r.version|;
    var second := first + 1 + |r.code|;
    StatusSpaces(r);
    assert line[5..first] == r.version && line[first + 1..second] == r.code && line[second + 1..] == r.msg;
  }

  /** What the fields of a status line have to be, and how they are written. */
  predicate IsStatusLine(line: string, version: string, code: string, msg: string) {
    ' ' !in version && ' ' !in code && line == "HTTP/" + version + " " + code + " " + msg
  }

  lemma StatusLineSplits(line: string)
    requires R.TakeStatusLine(line, R.EMPTY).0.None?
    ensures
      var r := R.TakeStatusLine(line, R.EMPTY).1;
      IsStatusLine(line, r.version, r.code, r.msg)
  {
    R.SpacesInRange(line);
    var first, second := R.FirstSpace(line).value, R.SecondSpace(line).value;
    FindCharIsFirst(line, ' ', 0);
    FindCharIsFirst(line, ' ', first + 1);
    NoSpaceWithin(line, 5, first);
    NoSpaceWithin(line, first + 1, second);
    CutAtSpaces(line, first, second);
  }

  lemma NoSpaceWithin(line: string, lo: nat, hi: nat)
    requires lo <= hi <= |line| && forall i :: lo <= i < hi ==> line[i] != ' '
    ensures ' ' !in line[lo..hi]
  {
    assert forall i :: 0 <= i < hi - lo ==> line[lo..hi][i] == line[lo + i];
  }

  lemma CutAtSpaces(line: string, first: nat, second: nat)
    requires 5 <= first < second < |line| && line[first] == ' ' && line[second] == ' '
    ensures line == line[..5] + line[5..first] + " " + line[first + 1..second] + " " + line[second + 1..]
  {
    assert line[first..first + 1] == " " && line[second..second + 1] == " ";
  }

  /**
   * A status line is accepted if and only if it is "HTTP/" and a version, a code and a message
   * with spaces between them; the version and the code have none, and the parts are the fields.
   */
  lemma StatusLineIff(line: string, version: string, code: string, msg: string)
    ensures R.TakeStatusLine(line, R.EMPTY) == (None, R.Response(version, code, msg, [])) <==>
            IsStatusLine(line, version, code, msg)
    ensures R.TakeStatusLine(line, R.EMPTY).0.None? ==> exists v, c, m :: IsStatusLine(line, v, c, m)
  {
    if R.TakeStatusLine(line, R.EMPTY).0.None? {
      StatusLineSplits(line);
    }
    if IsStatusLine(line, version, code, msg) {
      ReadStatusLine(R.Response(version, code, msg, []));
    }
  }

  lemma NoCrlfStatusLine(r: R.Response)
    requires StatusOk(r)
    ensures NoCrlf(StatusLine(r))
  {
    var a := "HTTP/" + r.version;
    forall k | 0 <= k < |a|
      ensures !CrlfAt(a, k)
    {
      if k >= 5 {
        assert !CrlfAt(r.version, k - 5);
      } else {
        assert a[k] == "HTTP/"[k];
      }
    }
    NoCrlfSpace(a, r.code);
    NoCrlfSpace(a + " " + r.code, r.msg);
  }

  lemma StatusText(r: R.Response)
    ensures Text(R.StatusPieces(r)) == StatusLine(r) + CRLF
  {
    SevenPieces("HTTP/", r.version, " ", r.code, " ", r.msg, CRLF);
  }

  lemma ResponseText(r: R.Response)
    ensures Text(R.ResponsePieces(r)) == StatusLine(r) + CRLF + (Text(H.Pieces(r.headers)) + CRLF)
  {
    TotalConcat(R.StatusPieces(r), H.Pieces(r.headers));
    TotalConcat(R.StatusPieces(r) + H.Pieces(r.headers), [CRLF]);
    assert Text([CRLF]) == CRLF;
    StatusText(r);
  }

  lemma ResponsePiecesNulFree(r: R.Response)
    ensures AllNulFree(R.ResponsePieces(r)) <==> ResponseNulFree(r)
  {
    var p := R.StatusPieces(r);
    NulFreeConcat(p + H.Pieces(r.headers), [CRLF]);
    NulFreeConcat(p, H.Pieces(r.headers));
    PiecesNulFree(r.headers);
    assert p[0] == "HTTP/" && p[1] == r.version && p[2] == " " && p[3] == r.code;
    assert p[4] == " " && p[5] == r.msg && p[6] == CRLF;
    assert NulFree("HTTP/") && NulFree(" ") && NulFree(CRLF);
  }

  lemma ResponseFromParts(b: string, line: string, rest: string, r: R.Response, block: HeaderResult)
    requires NextCrlf(b, 0) == Some(|line|) && b[..|line|] == line && b[|line| + 2..] == rest
    requires R.TakeStatusLine(line, R.EMPTY) == (None, r)
    requires ParseBlock(rest, r.headers) == block
    ensures R.Parse(b, R.EMPTY) == R.ResponseResult(Shift(block.outcome, |line| + 2), r.(headers := block.headers))
  {
  }

  lemma StatusLineParts(r: R.Response) returns (line: string)
    requires StatusOk(r)
    ensures NoCrlf(line) && R.TakeStatusLine(line, R.EMPTY) == (None, r.(headers := []))
    ensures Text(R.ResponsePieces(r)) == line + CRLF + (Text(H.Pieces(r.headers)) + CRLF)
  {
    line := StatusLine(r);
    ResponseText(r);
    NoCrlfStatusLine(r);
    ReadStatusLine(r);
  }

  lemma ReadPrintedResponse(r: R.Response)
    requires StatusOk(r) && WellFormed(r.headers)
    ensures R.Parse(Text(R.ResponsePieces(r)), R.EMPTY) ==
            R.ResponseResult(Parsed(|Text(R.ResponsePieces(r))|), r)
  {
    var line := StatusLineParts(r);
    var body := BodyOf(r.headers);
    FirstLineOf(line, body);
    var empty := r.(headers := []);
    ResponseFromParts(line + CRLF + body, line, body, empty, HeaderResult(Parsed(|body|), r.headers));
  }

  lemma BodyOf(l: Headers) returns (body: string)
    requires WellFormed(l)
    ensures body == Text(H.Pieces(l)) + CRLF
    ensures ParseBlock(body, []) == HeaderResult(Parsed(|body|), l)
  {
    body := Text(H.Pieces(l)) + CRLF;
    PrintedParses(l);
  }

  /**
   * A response header that was accepted is a fixpoint: printed and read again it gives the
   * same version, code, message and headers, and the reader stops at its total length,
   * exactly when no field has a NUL.
   */
  lemma ResponseFixpointIff(b: string)
    requires R.Parse(b, R.EMPTY).outcome.Parsed?
    ensures
      var r := R.Parse(b, R.EMPTY).response;
      var want := R.ResponseResult(Parsed(Total(R.ResponsePieces(r))), r);
      R.Parse(Visible(R.ResponsePieces(r)), R.EMPTY) == want <==> ResponseNulFree(r)
  {
    var r := R.Parse(b, R.EMPTY).response;
    ResponseShape(b);
    VisibleLength(R.ResponsePieces(r));
    ResponsePiecesNulFree(r);
    if ResponseNulFree(r) {
      ReadPrintedResponse(r);
    } else if R.Parse(Visible(R.ResponsePieces(r)), R.EMPTY).outcome.Parsed? {
      ResponseShape(Visible(R.ResponsePieces(r)));
    }
  }
}
