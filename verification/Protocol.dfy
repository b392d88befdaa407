/**
 * What a client, an origin and the table can see of onConnect, written out: which bytes are sent
 * and stored, under which key, which error response a request gets, and when a connection ends.
 */
module Protocol {
  import opened Wrappers
  import opened Search
  import opened HeaderList
  import opened HeaderGrammar
  import opened Receive
  import opened CacheDb
  import opened ProxyServer
  import opened Coherence
  import C = MessageCodec
  import Connection
  import Framing
  import RequestLine
  import RequestMeaning
  import M = CacheMachine
  import P = ProxyServerClient
  import Q = HttpRequest

  // ----- Readings -----

  /** The request is read: the parse accepts the bytes, and this is what it makes of them. */
  lemma AskedIff(script: seq<Recv>, request: Q.Request)
    ensures GetRequest(script).0 == Asked(request) <==>
            var r := Until(script, "", "\r\n\r\n");
            && (r.code == Done || r.code == Again)
            && Q.Parse(r.data, Q.FRESH).outcome.Parsed? && Q.Parse(r.data, Q.FRESH).request == request
  {
  }

  /** The connection is lost when a recv fails before the request is complete. */
  lemma LostIff(script: seq<Recv>)
    ensures GetRequest(script).0 == Lost <==>
            exists m: nat :: BrokenAt(script, m, "\r\n\r\n") && script[m] == Failed
  {
    UntilBreaksIff(script, "\r\n\r\n");
  }

  /** The handler waits for ever when the stream ends before the request does. */
  lemma MuteIff(script: seq<Recv>)
    ensures GetRequest(script).0 == Mute <==> AllAppend(script) && !Contains(Joined(script), "\r\n\r\n")
  {
    UntilReturnsIff(script, "\r\n\r\n");
  }

  /** The first line has a first word, and that is not GET. */
  predicate AnotherMethod(data: string) {
    && NextCrlf(data, 0).Some?
    && var tokens := RequestLine.Tokens(data[..NextCrlf(data, 0).value]);
       |tokens| >= 1 && tokens[0] != "GET"
  }

  lemma NotGetIff(data: string)
    ensures Q.Parse(data, Q.FRESH).outcome == Rejected("Request is not GET") <==> AnotherMethod(data)
  {
    if NextCrlf(data, 0).Some? {
      var e := NextCrlf(data, 0).value;
      var line, block := Framing.RequestFrom(data, e, Q.FRESH);
      RequestMeaning.LineExceptions(data[..e], Q.FRESH);
      BlockIsNotMethod(data[e + 2..], line.request.headers);
    }
  }

  lemma BlockIsNotMethod(b: string, l: Headers)
    ensures ParseBlock(b, l).outcome != Rejected("Request is not GET")
  {
    Framing.LogicalErrors(ScanLines(b, 0).lines);
  }

  /** 501 for another method, 400 for everything else that the parse rejects. */
  lemma RefusedText(data: string)
    ensures Understand(data) == Refused("HTTP/1.0 501 Not Implemented\r\n\r\n") <==> AnotherMethod(data)
    ensures Understand(data) == Refused("HTTP/1.0 400 Bad Request\r\n\r\n") <==>
            Q.Parse(data, Q.FRESH).outcome.Rejected? && !AnotherMethod(data)
    ensures Understand(data).Refused? <==> Q.Parse(data, Q.FRESH).outcome.Rejected?
  {
    NotGetIff(data);
    TextsDiffer();
  }

  lemma TextsDiffer()
    ensures "HTTP/1.0 501 Not Implemented\r\n\r\n" != "HTTP/1.0 400 Bad Request\r\n\r\n"
  {
    assert "HTTP/1.0 501 Not Implemented\r\n\r\n"[9] != "HTTP/1.0 400 Bad Request\r\n\r\n"[9];
  }

  /**
   * Over all scripts on which recv_until returns 1: the request is refused exactly when the parse
   * neither accepts it nor throws bad_lexical_cast; it gets the 501 exactly when its first line
   * has a first word that is not GET, and the 400 in every other case.
   */
  lemma RefusedIff(script: seq<Recv>)
    requires Until(script, "", "\r\n\r\n").code == Done
    ensures
      var data := Until(script, "", "\r\n\r\n").data;
      var asked, outcome := GetRequest(script).0, Q.Parse(data, Q.FRESH).outcome;
      && (asked.Refused? <==> !outcome.Parsed? && outcome != BadCast)
      && (asked == Refused("HTTP/1.0 501 Not Implemented\r\n\r\n") <==> AnotherMethod(data))
      && (asked == Refused("HTTP/1.0 400 Bad Request\r\n\r\n") <==> asked.Refused? && !AnotherMethod(data))
  {
    var data := Until(script, "", "\r\n\r\n").data;
    RefusedText(data);
    Framing.OverreadIff(script, Q.FRESH);
  }

  // ----- The cache key -----

  /** Two accepted requests that name a host share a key exactly when they share host and path. */
  lemma KeyIff(b: string, c: string)
    requires Q.Parse(b, Q.FRESH).outcome.Parsed? && Q.Parse(c, Q.FRESH).outcome.Parsed?
    requires Q.Parse(b, Q.FRESH).request.host != "" && Q.Parse(c, Q.FRESH).request.host != ""
    ensures
      var r, s := Q.Parse(b, Q.FRESH).request, Q.Parse(c, Q.FRESH).request;
      CacheKey(r) == CacheKey(s) <==> r.host == s.host && r.path == s.path
  {
    var r, s := Q.Parse(b, Q.FRESH).request, Q.Parse(c, Q.FRESH).request;
    if CacheKey(r) == CacheKey(s) {
      C.KeyDeterminesHostAndPath(b, c);
    }
  }

  // ----- Answering -----

  /** A reply was fetched: the answer of a connection to the origin, and its bytes, kept under the key. */
  predicate FetchedAs(e: Env, v: View, v': View, key: string, text: string, n: nat, insert: bool) {
    && n > 0 && e.remote(key, Others(v, n - 1).now).Got?
    && var resp := e.remote(key, Others(v, n - 1).now).resp;
       && text == resp.entire
       && v' == Others(v, n).(
            rows := Perform(Others(v, n).rows, Write(insert, Row(key, Lookup(resp.header.headers, "Expires"), text))))
  }

  /** A reply came from the cache: a row of the key, and nothing was written. */
  predicate CachedAs(e: Env, v: View, v': View, key: string, text: string) {
    && v' == Others(v, 3)
    && exists row :: row in Others(v, 2).rows && row.key == key && row.resp == text && v'.now <= e.expiry(row.expire)
  }

  /** A request came to nothing, and why. */
  ghost predicate FailedAs(e: Env, v: View, v': View, key: string, ending: Ending) {
    exists n: nat :: v' == Others(v, n) && FailsBy(e, v, key, ending, n)
  }

  predicate FailsBy(e: Env, v: View, key: string, ending: Ending, n: nat) {
    var fetched := e.remote(key, Others(v, n).now);
    match ending
    case Down => fetched == P.Down
    case Apology(text) => fetched == P.ErrorReply(text)
    case Silent => fetched == P.Hung
    case Crashed => fetched == P.Crash || !HasRow(Others(v, n).rows, key)
    case Reply(_) => false
  }

  lemma FetchAnswers(e: Env, v: View, n: nat, key: string, insert: bool)
    ensures
      var (ending, v') := Serve(e, Others(v, n), M.Fetching(key, insert));
      if ending.Reply? then FetchedAs(e, v, v', key, ending.text, n + 2, insert)
      else FailedAs(e, v, v', key, ending)
  {
    ServeFetching(e, Others(v, n), key, insert);
    var during := Others(v, n + 1);
    var fetched := e.remote(key, during.now);
    if fetched.Got? {
      ServeStoring(e, during, M.Storing(key, insert, AnswerOf(fetched.resp)));
    } else {
      assert FailsBy(e, v, key, Serve(e, Others(v, n), M.Fetching(key, insert)).0, n + 1);
    }
  }

  /** Every way in which a request for a key is answered. */
  lemma ServeAnswers(e: Env, v: View, key: string)
    ensures
      var (ending, v') := Serve(e, v, M.Checking(key));
      if !ending.Reply? then FailedAs(e, v, v', key, ending)
      else
        || CachedAs(e, v, v', key, ending.text)
        || FetchedAs(e, v, v', key, ending.text, 3, true)
        || FetchedAs(e, v, v', key, ending.text, 5, false)
  {
    ServeChecking(e, v, key);
    assert Others(v, 1) == Pass(v);
    if !HasRow(Others(v, 1).rows, key) {
      FetchAnswers(e, v, 1, key, true);
    } else {
      ServeLooking(e, Others(v, 1), key);
      AsMapIsFirstRow(Others(v, 2).rows, key);
      if !HasRow(Others(v, 2).rows, key) {
        ServeEnds(e, Others(v, 2), M.Failed);
        assert FailsBy(e, v, key, Crashed, 2);
      } else {
        var i := FirstRowIsFirst(Others(v, 2).rows, key);
        LastLook(e, v, key, Others(v, 2).rows[i]);
        FetchAnswers(e, v, 3, key, false);
      }
    }
  }

  /** The connections behind an environment. */
  ghost predicate Connects(e: Env, net: (string, int) -> P.Link) {
    forall key, t :: e.remote(key, t) == P.FetchFrom(net(key, t))
  }

  /**
   * A reply that was not in the cache is all the bytes that were received from the origin, status
   * line, headers and body, in order; the same bytes are stored, with the Expires value of the
   * header that they begin with.
   */
  lemma MissSendsWhatCame(e: Env, net: (string, int) -> P.Link, v: View, key: string)
    returns (script: seq<Recv>, resp: P.FullHttpResponse, h: nat, m: nat, n: nat)
    requires Connects(e, net) && Serve(e, v, M.Checking(key)).0.Reply? && !Usable(e, v, key)
    ensures P.Fetch(script).0 == P.Got(resp) && P.AnswerUses(script, resp, h, m)
    ensures n > 0 && net(key, Others(v, n - 1).now) == P.Link(true, script)
    ensures
      var (ending, v') := Serve(e, v, M.Checking(key));
      var row := Row(key, Lookup(resp.header.headers, "Expires"), Joined(script[..m]));
      && ending == Reply(Joined(script[..m]))
      && v'.rows == Perform(Others(v, n).rows, Write(!HasRow(Others(v, 1).rows, key), row))
  {
    var ending, v' := Serve(e, v, M.Checking(key)).0, Serve(e, v, M.Checking(key)).1;
    var insert;
    n, insert := MissFetches(e, v, key);
    var link := net(key, Others(v, n - 1).now);
    script, resp := GotFrom(link, e.remote(key, Others(v, n - 1).now));
    h, m := P.AnswerIsConserved(script);
  }

  lemma GotFrom(link: P.Link, fetched: P.Fetched) returns (script: seq<Recv>, resp: P.FullHttpResponse)
    requires fetched == P.FetchFrom(link) && fetched.Got?
    ensures link == P.Link(true, script) && P.Fetch(script).0 == P.Got(resp) && fetched == P.Got(resp)
  {
    script, resp := link.script, fetched.resp;
  }

  lemma MissFetches(e: Env, v: View, key: string) returns (n: nat, insert: bool)
    requires Serve(e, v, M.Checking(key)).0.Reply? && !Usable(e, v, key)
    ensures insert == !HasRow(Others(v, 1).rows, key)
    ensures
      var (ending, v') := Serve(e, v, M.Checking(key));
      FetchedAs(e, v, v', key, ending.text, n, insert)
  {
    ServeChecking(e, v, key);
    insert := !HasRow(Others(v, 1).rows, key);
    n := if insert then 3 else 5;
    if insert {
      FetchAnswers(e, v, 1, key, true);
    } else {
      ServeLooking(e, Others(v, 1), key);
      AsMapIsFirstRow(Others(v, 2).rows, key);
      if !HasRow(Others(v, 2).rows, key) {
        ServeEnds(e, Others(v, 2), M.Failed);
      } else {
        var i := FirstRowIsFirst(Others(v, 2).rows, key);
        LastLook(e, v, key, Others(v, 2).rows[i]);
        FetchAnswers(e, v, 3, key, false);
      }
    }
  }

  // ----- Turns -----

  /** The reply of a turn is a row of its request's key, or what was fetched for it. */
  ghost predicate RepliesUnderKey(e: Env, v: View, turn: Turn) {
    turn.request.Some? && turn.ending.Reply? ==>
      var key := turn.request.value.host + turn.request.value.path;
      || (exists n: nat, row :: row in Others(v, n).rows && row.key == key && row.resp == turn.ending.text)
      || (exists t :: e.remote(key, t).Got? && e.remote(key, t).resp.entire == turn.ending.text)
  }

  /** What a turn writes itself is one row of its request's key, if anything. */
  ghost predicate WritesUnderKey(v: View, v': View, turn: Turn) {
    || (exists n: nat :: v'.rows == Others(v, n).rows)
    || (turn.request.Some?
        && exists n: nat, write :: OwnWrite(v, v', n, write)
                              && write.row.key == turn.request.value.host + turn.request.value.path)
  }

  /** The table when others have acted for n steps, then the handler, then the others once more. */
  predicate OwnWrite(v: View, v': View, n: nat, write: Write) {
    v'.rows == Pass(Others(v, n).(rows := Perform(Others(v, n).rows, write))).rows
  }

  /** The client's script does not matter to the table. */
  lemma {:induction false} OthersOfClient(v: View, client: seq<Recv>, n: nat)
    ensures Others(v.(client := client), n) == Others(v, n).(client := client)
  {
    if n > 0 {
      OthersOfClient(v, client, n - 1);
    }
  }

  lemma {:induction false} OthersAfterOne(v: View, n: nat)
    ensures Others(Pass(v), n) == Others(v, n + 1)
  {
    if n > 0 {
      OthersAfterOne(v, n - 1);
    }
  }

  /** From the view in which a turn's request is served to the view in which the turn began. */
  lemma OthersFromTurn(v: View, client: seq<Recv>, n: nat)
    ensures Others(Pass(v).(client := client), n) == Others(v, n + 1).(client := client)
  {
    OthersOfClient(Pass(v), client, n);
    OthersAfterOne(v, n);
  }

  lemma FinishRows(request: Option<Q.Request>, ending: Ending, since: int, v: View)
    ensures
      var (turn, v') := FinishTurn(request, ending, since, v);
      v'.rows == Pass(v).rows && turn.request == request && turn.ending == ending
  {
  }

  lemma ServedUnderKey(e: Env, v: View, client: seq<Recv>, request: Q.Request, since: int)
    ensures
      var served := Serve(e, Pass(v).(client := client), M.Checking(CacheKey(request)));
      var (turn, v') := FinishTurn(Some(request), served.0, since, served.1);
      RepliesUnderKey(e, v, turn) && WritesUnderKey(v, v', turn)
  {
    var key, u := CacheKey(request), Pass(v).(client := client);
    var ending, u' := Serve(e, u, M.Checking(key)).0, Serve(e, u, M.Checking(key)).1;
    ServeAnswers(e, u, key);
    FinishRows(Some(request), ending, since, u');
    var turn, v' := FinishTurn(Some(request), ending, since, u').0, FinishTurn(Some(request), ending, since, u').1;
    if !ending.Reply? {
      var n: nat :| u' == Others(u, n) && FailsBy(e, u, key, ending, n);
      OthersFromTurn(v, client, n);
      OnlyOthersActed(v, client, v', n);
    } else if CachedAs(e, u, u', key, ending.text) {
      OthersFromTurn(v, client, 2);
      OthersFromTurn(v, client, 3);
      OnlyOthersActed(v, client, v', 3);
    } else {
      var n := if FetchedAs(e, u, u', key, ending.text, 3, true) then 3 else 5;
      OthersFromTurn(v, client, n);
      var resp := e.remote(key, Others(u, n - 1).now).resp;
      var write := Write(n == 3, Row(key, Lookup(resp.header.headers, "Expires"), ending.text));
      assert OwnWrite(v, v', n + 1, write);
    }
  }

  lemma OnlyOthersActed(v: View, client: seq<Recv>, v': View, n: nat)
    requires v'.rows == Pass(Others(Pass(v).(client := client), n)).rows
    ensures v'.rows == Others(v, n + 2).rows
  {
    OthersFromTurn(v, client, n);
  }

  /**
   * One turn of onConnect: what it replies and what it writes are under its request's host and path,
   * and its times are those of the reading and of the sending.
   */
  ghost predicate TurnLaw(e: Env, v: View, turn: Turn, v': View) {
    && (turn, v') == OneTurn(e, v)
    && RepliesUnderKey(e, v, turn) && WritesUnderKey(v, v', turn)
    && turn.since == Pass(v).now && turn.at == v'.now
  }

  lemma UnaskedUnderKey(e: Env, v: View, client: seq<Recv>, ending: Ending, since: int)
    requires !ending.Reply?
    ensures
      var (turn, v') := FinishTurn(None, ending, since, Pass(v).(client := client));
      RepliesUnderKey(e, v, turn) && WritesUnderKey(v, v', turn)
  {
    FinishRows(None, ending, since, Pass(v).(client := client));
    OthersOfClient(Pass(v), client, 1);
    assert Others(v, 2) == Pass(Others(v, 1));
    assert Others(Pass(v).(client := client), 1) == Pass(Pass(v).(client := client));
  }

  lemma TurnObeys(e: Env, v: View) returns (turn: Turn, v': View)
    ensures TurnLaw(e, v, turn, v')
  {
    var asked, left := ReadConsumes(Pass(v).client);
    turn, v' := OneTurn(e, v).0, OneTurn(e, v).1;
    TurnOnObeys(e, v, left, asked);
    TurnTimes(e, Pass(v).(client := left), asked);
  }

  lemma TurnTimes(e: Env, v: View, asked: Asked)
    ensures
      var (turn, v') := TurnOn(e, v, asked);
      turn.since == v.now && turn.at == v'.now
  {
  }

  lemma TurnOnObeys(e: Env, v: View, left: seq<Recv>, asked: Asked)
    ensures
      var (turn, v') := TurnOn(e, Pass(v).(client := left), asked);
      RepliesUnderKey(e, v, turn) && WritesUnderKey(v, v', turn)
  {
    var since := Pass(v).now;
    match asked
    case Lost => UnaskedUnderKey(e, v, left, Down, since);
    case Mute => UnaskedUnderKey(e, v, left, Silent, since);
    case Fatal => UnaskedUnderKey(e, v, left, Crashed, since);
    case Refused(text) => UnaskedUnderKey(e, v, left, Apology(text), since);
    case Asked(request) => ServedUnderKey(e, v, left, request, since);
  }

  /** Turn by turn, from view to view. */
  ghost predicate Lawful(e: Env, views: seq<View>, turns: seq<Turn>)
    decreases |turns|
  {
    && |views| == |turns| + 1
    && (turns == [] || (TurnLaw(e, views[0], turns[0], views[1]) && Lawful(e, views[1..], turns[1..])))
  }

  lemma LawfulMore(e: Env, v: View, turn: Turn, views: seq<View>, turns: seq<Turn>)
    requires views != [] && TurnLaw(e, v, turn, views[0]) && Lawful(e, views, turns)
    ensures Lawful(e, [v] + views, [turn] + turns)
  {
    assert ([v] + views)[1..] == views && ([turn] + turns)[1..] == turns;
  }

  /**
   * Over every run of onConnect: each reply is a row of the request's host and path, or was fetched
   * for it, and each turn's own write is one row of that key.
   */
  lemma {:induction false} RunObeys(e: Env, v: View) returns (views: seq<View>)
    ensures Lawful(e, views, Connect(e, v).turns)
    ensures views[0] == v && views[|views| - 1] == Connect(e, v).view
    decreases |v.client|
  {
    var turn, v' := TurnObeys(e, v);
    var rest := ConnectStep(e, v, turn, v');
    if Verdict(turn).None? {
      var more := RunObeys(e, v');
      LawfulMore(e, v, turn, more, rest.turns);
      views := [v] + more;
    } else {
      LawfulMore(e, v, turn, [v'], []);
      views := [v] + [v'];
      assert [turn] + [] == [turn];
    }
  }

  // ----- The end of a connection -----

  /** The request's Connection header is exactly "close". */
  predicate AsksToClose(turn: Turn) {
    turn.request.Some? && Lookup(turn.request.value.headers, "Connection") == "close"
  }

  /** Over every run: a request that asks to close is the last one that is read. */
  lemma CloseIsLast(e: Env, v: View, i: nat)
    requires i < |Connect(e, v).turns| && AsksToClose(Connect(e, v).turns[i])
    ensures i == |Connect(e, v).turns| - 1
  {
    Connection.ConversationIsInOrder(e, v);
  }

  /** The last turn of a run decides how the run ends. */
  predicate EndsBy(last: Turn, stop: Stop) {
    match stop
    case Closed => last.delivered && AsksToClose(last)
    case Broken => last.ending == Down || (last.ending.Reply? && !last.delivered)
    case Waits => last.ending == Silent
    case Aborted => last.ending == Crashed || (last.ending.Apology? && !last.delivered)
  }

  lemma VerdictEnds(turn: Turn, verdict: Stop, stop: Stop)
    requires Verdict(turn) == Some(verdict)
    requires verdict == Closed <==> turn.delivered && AsksToClose(turn)
    ensures verdict == stop <==> EndsBy(turn, stop)
  {
  }

  /**
   * The connection is closed exactly when a request that asked for it has been answered; it breaks
   * off on an exception of the connection or a reply that could not be sent; the proxy is taken
   * down by a crash or an error response that could not be sent. A request that does not ask to
   * close, and an error response, never end it.
   */
  lemma RunEndsBy(e: Env, v: View, stop: Stop)
    ensures
      var s := Connect(e, v);
      s.turns != [] && (s.stop == stop <==> EndsBy(s.turns[|s.turns| - 1], stop))
  {
    Connection.LastVerdict(e, v);
    Connection.ConversationIsInOrder(e, v);
    var s := Connect(e, v);
    VerdictEnds(s.turns[|s.turns| - 1], s.stop, stop);
  }
}
