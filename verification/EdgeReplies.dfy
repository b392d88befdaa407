/** Replies of origins for which a property that one would expect fails. */
module EdgeReplies {
  import opened Search
  import opened Wrappers
  import opened HeaderList
  import opened HeaderGrammar
  import opened HeaderCodec
  import opened CString
  import opened RequestLine
  import opened MessageCodec
  import opened Receive
  import opened ProxyServerClient
  import Framing
  import H = HttpHeaders
  import R = HttpResponse

  /** An answer that announces n bytes of body. */
  function Announcing(n: nat): R.Response {
    R.Response("1.0", "200", "OK", [Header(CONTENT_LENGTH, Decimal(n))])
  }

  lemma DigitsArePlain(n: nat)
    ensures NoCrlf(Decimal(n)) && Trimmed(Decimal(n)) && SplitCrlf(Decimal(n)) == [Decimal(n)]
  {
    var s := Decimal(n);
    assert forall i :: 0 <= i < |s| ==> s[i] in s && IsDigit(s[i]);
    NoCrlfHasNone(s);
  }

  lemma LengthKeyIsOk()
    ensures KeyOk(CONTENT_LENGTH)
  {
    assert CONTENT_LENGTH[0] == 'C' && CONTENT_LENGTH[1] == 'o';
    assert forall i :: 0 <= i < |CONTENT_LENGTH| ==> CONTENT_LENGTH[i] != '\r' && CONTENT_LENGTH[i] != ':';
  }

  lemma OneHeader(h: Header)
    requires HeaderOk(h)
    ensures WellFormed([h]) && Lookup([h], h.key) == h.value
  {
    PositionIsFirst([h], h.key);
    assert [h][0].key == h.key;
  }

  lemma AnnouncingIsOk(n: nat)
    ensures StatusOk(Announcing(n)) && WellFormed(Announcing(n).headers)
    ensures Lookup(Announcing(n).headers, CONTENT_LENGTH) == Decimal(n)
  {
    DigitsArePlain(n);
    LengthKeyIsOk();
    OneHeader(Header(CONTENT_LENGTH, Decimal(n)));
  }

  lemma LengthAnnounced(n: nat)
    requires n <= INT_MAX
    ensures BodyLength(Announcing(n)) == n && Lookup(Announcing(n).headers, CONTENT_LENGTH) != ""
  {
    AnnouncingIsOk(n);
    LengthIsReadBack(n, "");
    assert Decimal(n) + "" == Decimal(n);
  }

  /** The text of a header with entries ends in a blank line. */
  lemma EndsInBlank(r: R.Response, text: string)
    requires r.headers != [] && text == Text(R.ResponsePieces(r))
    ensures |text| > EAGAIN && Framing.BlankAt(text, |text| - 4)
  {
    ResponseText(r);
    ListEnds(r.headers);
    BlankBehind(StatusLine(r) + CRLF, Text(H.Pieces(r.headers)));
  }

  lemma BlankBehind(start: string, list: string)
    requires |list| >= 2 && list[|list| - 2..] == CRLF
    ensures Framing.BlankAt(start + (list + CRLF), |start| + |list| - 2)
  {
    var text, at := start + (list + CRLF), |start| + |list| - 2;
    assert text[at] == list[|list| - 2..][0] && text[at + 1] == list[|list| - 2..][1];
  }

  lemma ParsedWithinFrame(text: string, d: nat)
    requires Find(text, Framing.BLANK, 0) == Some(d) && R.Parse(text, R.EMPTY).outcome == Parsed(|text|)
    ensures |text| <= d + 4
  {
    Framing.FramedResponse(text, d, R.EMPTY);
  }

  /** When all of a text is parsed, a blank line at its end is its first one. */
  lemma BlankIsFirst(text: string, more: string)
    requires |text| >= 4 && Framing.BlankAt(text, |text| - 4)
    requires R.Parse(text, R.EMPTY).outcome == Parsed(|text|)
    ensures Find(text + more, Framing.BLANK, 0) == Some(|text| - 4)
  {
    Framing.BlankOccurs(text, |text| - 4);
    var d := Find(text, Framing.BLANK, 0).value;
    ParsedWithinFrame(text, d);
    ContainsMonotone(text, text + more, Framing.BLANK);
  }

  lemma {:induction false} ListEnds(l: Headers)
    requires l != []
    ensures |Text(H.Pieces(l))| >= 2
    ensures Text(H.Pieces(l))[|Text(H.Pieces(l))| - 2..] == CRLF
  {
    PiecesText(l[0]);
    TotalConcat(H.HeaderPieces(l[0]), H.Pieces(l[1..]));
    if |l| > 1 {
      ListEnds(l[1..]);
    }
  }

  /** A header that announces n bytes, what it parses to, and where its frame ends. */
  lemma AnnouncingText(n: nat, more: string) returns (text: string, header: R.Response)
    requires n <= INT_MAX
    ensures |text| > EAGAIN && Find(text + more, Framing.BLANK, 0) == Some(|text| - 4)
    ensures R.Parse(text, R.EMPTY) == R.ResponseResult(Parsed(|text|), header)
    ensures BodyLength(header) == n && Lookup(header.headers, CONTENT_LENGTH) != ""
  {
    header := Announcing(n);
    AnnouncingIsOk(n);
    LengthAnnounced(n);
    text := HeaderText(header, more);
  }

  /** The text of a header with entries: what it parses to, and where its frame ends. */
  lemma HeaderText(header: R.Response, more: string) returns (text: string)
    requires StatusOk(header) && WellFormed(header.headers) && header.headers != []
    ensures |text| > EAGAIN && Find(text + more, Framing.BLANK, 0) == Some(|text| - 4)
    ensures R.Parse(text, R.EMPTY) == R.ResponseResult(Parsed(|text|), header)
  {
    text := PrintedResponse(header);
    BlankIsFirst(text, more);
  }

  lemma PrintedResponse(header: R.Response) returns (text: string)
    requires StatusOk(header) && WellFormed(header.headers) && header.headers != []
    ensures |text| > EAGAIN && Framing.BlankAt(text, |text| - 4)
    ensures R.Parse(text, R.EMPTY) == R.ResponseResult(Parsed(|text|), header)
  {
    text := ParsedText(header);
    EndsInBlank(header, text);
  }

  lemma ParsedText(header: R.Response) returns (text: string)
    requires StatusOk(header) && WellFormed(header.headers)
    ensures text == Text(R.ResponsePieces(header))
    ensures R.Parse(text, R.EMPTY) == R.ResponseResult(Parsed(|text|), header)
  {
    text := Text(R.ResponsePieces(header));
    ReadPrintedResponse(header);
  }

  lemma OneRecv(data: string) returns (script: seq<Recv>)
    requires |data| != EAGAIN
    ensures script == [Data(data)] && AllAppend(script) && Joined(script) == data
    ensures forall n: nat :: Boundary(script, n) ==> n == 0 || n == |data|
  {
    script := [Data(data)];
    JoinedCons(Data(data), []);
    assert script == [Data(data)] + [];
    assert script[..0] == [] && script[..1] == script;
  }

  lemma OneRecvHangs(script: seq<Recv>, text: string, header: R.Response, body: string)
    requires AllAppend(script) && Joined(script) == text + body && !Boundary(script, |text|)
    requires |text| >= 4 && Find(text + body, Framing.BLANK, 0) == Some(|text| - 4)
    requires R.Parse(text, R.EMPTY) == R.ResponseResult(Parsed(|text|), header)
    requires BodyLength(header) == |body| && Lookup(header.headers, CONTENT_LENGTH) != "" && body != ""
    ensures Fetch(script).0 == Hung
  {
    assert (text + body)[..|text|] == text;
    OneMessageReturnsIff(script, |text| - 4, header, |text|);
  }

  /**
   * A reply that is exactly one message, header and body in one recv: the proxy has all its bytes,
   * and waits for Content-Length more.
   */
  lemma HangingReply(body: string) returns (script: seq<Recv>, text: string, header: R.Response)
    requires 0 < |body| <= INT_MAX
    ensures R.Parse(text, R.EMPTY) == R.ResponseResult(Parsed(|text|), header) && BodyLength(header) == |body|
    ensures script == [Data(text + body)] && Fetch(script).0 == Hung
  {
    text, header := AnnouncingText(|body|, body);
    script := OneRecv(text + body);
    OneRecvHangs(script, text, header, body);
  }

  lemma TwoRecvs(a: string, b: string) returns (script: seq<Recv>)
    requires |a| != EAGAIN && |b| != EAGAIN
    ensures script == [Data(a), Data(b)] && AllAppend(script)
    ensures Joined(script) == a + b && Joined(script[..1]) == a
  {
    var first := OneRecv(a);
    var second := OneRecv(b);
    script := [Data(a), Data(b)];
    assert script == first + second && script[..1] == first;
    JoinedConcat(first, second);
  }

  /** The header in one recv, the body and more in the next. */
  lemma SurplusIsKept(script: seq<Recv>, text: string, header: R.Response, rest: string)
    requires |script| == 2 && AllAppend(script)
    requires Joined(script) == text + rest && Joined(script[..1]) == text
    requires |text| >= 4 && Find(text + rest, Framing.BLANK, 0) == Some(|text| - 4)
    requires R.Parse(text, R.EMPTY) == R.ResponseResult(Parsed(|text|), header)
    requires 0 < BodyLength(header) <= |rest| && Lookup(header.headers, CONTENT_LENGTH) != ""
    ensures Fetch(script).0.Got? && Fetch(script).0.resp.entire == text + rest
  {
    assert (text + rest)[..|text|] == text;
    PrefixContains(text + rest, text, Framing.BLANK);
    var h := FetchReturnsIff(script, |text| - 4, header, |text|);
    HeadIsFirst(script, h, text);
    AllIsUsed(script, text, header, rest);
  }

  lemma AllIsUsed(script: seq<Recv>, text: string, header: R.Response, rest: string)
    requires |script| == 2 && Joined(script[..1]) == text && Joined(script) == text + rest
    requires Contains(text, Framing.BLANK) && R.Parse(text, R.EMPTY).response == header
    requires BodyLength(header) > 0 && Fetch(script).0.Got?
    ensures Fetch(script).0.resp.entire == text + rest
  {
    var h, m := AnswerIsConserved(script);
    HeadIsFirst(script, h, text);
    TakesTheBody(script, m, BodyLength(header));
  }

  lemma TakesTheBody(script: seq<Recv>, m: nat, length: int)
    requires |script| == 2 && 1 <= m <= 2 && length > 0
    requires ShortestOf(script[1..], m - 1, length)
    ensures m == 2 && script[..m] == script
  {
    assert script[1..][..0] == [];
  }

  /** The recv of the body brings more than the body: the surplus is kept, and cached, with it. */
  lemma OverreadReply(body: string, surplus: string)
    returns (script: seq<Recv>, text: string, header: R.Response)
    requires 0 < |body| <= INT_MAX && surplus != "" && |body + surplus| != EAGAIN
    ensures R.Parse(text, R.EMPTY) == R.ResponseResult(Parsed(|text|), header) && BodyLength(header) == |body|
    ensures script == [Data(text), Data(body + surplus)]
    ensures Fetch(script).0.Got? && Fetch(script).0.resp.entire == text + (body + surplus)
  {
    text, header := AnnouncingText(|body|, body + surplus);
    script := TwoRecvs(text, body + surplus);
    SurplusIsKept(script, text, header, body + surplus);
  }

  lemma HeadIsFirst(script: seq<Recv>, h: nat, text: string)
    requires |script| == 2 && Joined(script[..1]) == text && Contains(text, Framing.BLANK)
    requires ShortestWith(script, h, Framing.BLANK)
    ensures h == 1
  {
    assert script[..0] == [];
    assert !Contains("", Framing.BLANK);
  }

  /** A status line with a NUL is accepted, but printed and read again it is another one. */
  lemma NulInStatus() returns (b: string, r: R.Response)
    ensures R.Parse(b, R.EMPTY) == R.ResponseResult(Parsed(|b|), r)
    ensures R.Parse(Visible(R.ResponsePieces(r)), R.EMPTY) != R.ResponseResult(Parsed(Total(R.ResponsePieces(r))), r)
  {
    r := R.Response("1.0", "200", "\0", []);
    ReadPrintedResponse(r);
    b := Text(R.ResponsePieces(r));
    assert r.msg[0] == '\0';
    ResponseFixpointIff(b);
  }
}
