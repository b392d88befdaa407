/**
 * src/proxy-server.cc, one connection: reading a request, answering it from the cache or from
 * the origin, and the do-while loop of onConnect.
 */
module ProxyServer {
  import opened Wrappers
  import opened HeaderList
  import opened Receive
  import opened CacheDb
  import Framing
  import C = MessageCodec
  import M = CacheMachine
  import P = ProxyServerClient
  import Q = HttpRequest

  const BAD_REQUEST := "HTTP/1.0 400 Bad Request\r\n\r\n"
  const NOT_IMPLEMENTED := "HTTP/1.0 501 Not Implemented\r\n\r\n"
  const CONNECTION := "Connection"
  const CLOSE := "close"
  const EXPIRES := "Expires"

  // ----- Reading a request -----

  /**
   * A request; an error response to send; a ProxyServerException; no return yet; or a crash:
   * an exception that nothing catches, or a read outside the buffer.
   */
  datatype Asked = Asked(request: Q.Request) | Refused(text: string) | Lost | Mute | Fatal

  function ErrorText(reason: string): string {
    if reason == Q.NOT_GET then NOT_IMPLEMENTED else BAD_REQUEST
  }

  function Understand(data: string): Asked {
    var parse := Q.Parse(data, Q.FRESH);
    match parse.outcome
    case Parsed(_) => Asked(parse.request)
    case Rejected(reason) => Refused(ErrorText(reason))
    case BadCast => Fatal
    case Undefined => Fatal
  }

  /** Only a negative result is an error here: after EAGAIN the bytes so far are parsed. */
  function GetRequest(script: seq<Recv>): (Asked, seq<Recv>) {
    var r := Until(script, "", Framing.BLANK);
    match r.code
    case Fault => (Lost, r.left)
    case Waiting => (Mute, r.left)
    case Done => (Understand(r.data), r.left)
    case Again => (Understand(r.data), r.left)
  }

  method GetHttpRequest(client: Socket) returns (asked: Asked, request: Q.HttpRequest)
    modifies client
    ensures (asked, client.script) == GetRequest(old(client.script))
    ensures fresh(request) && fresh(request.base)
    ensures asked.Asked? ==> request.View() == asked.request && request.verb == Q.GET
  {
    request := new Q.HttpRequest();
    var code, data := RecvUntil(client, Framing.BLANK);
    if code == Fault {
      return Lost, request;
    } else if code == Waiting {
      return Mute, request;
    }
    var outcome := request.ParseRequest(data);
    match outcome {
      case Parsed(_) =>
        C.AcceptedShape(data);
        return Asked(Q.Request(request.verb, request.host, request.port, request.path, request.version,
          request.base.headers)), request;
      case Rejected(reason) =>
        if reason != Q.NOT_GET {
          return Refused(BAD_REQUEST), request;
        }
        return Refused(NOT_IMPLEMENTED), request;
      case BadCast =>
        return Fatal, request;
      case Undefined =>
        return Fatal, request;
    }
  }

  // ----- The surroundings of a handler -----

  /** Another handler's statement. */
  datatype Write = Write(insert: bool, row: Row)

  /** What happens before a handler's next step: the statements of others, and the time. */
  datatype Interlude = Interlude(writes: seq<Write>, now: int)

  /** strptime and timegm on an Expires text, and what fetching a host and path gives at each time. */
  datatype Env = Env(expiry: string -> int, remote: (string, int) -> P.Fetched)

  /** All that a handler touches; `sends` says which of its sends succeed, `sent` what they carried. */
  datatype View = View(
    client: seq<Recv>, rows: seq<Row>, interludes: seq<Interlude>, now: int, sends: seq<bool>, sent: seq<string>)

  function Perform(rows: seq<Row>, write: Write): seq<Row> {
    if write.insert then Inserted(rows, write.row) else Updated(rows, write.row)
  }

  function PerformAll(rows: seq<Row>, writes: seq<Write>): seq<Row>
    decreases |writes|
  {
    if writes == [] then rows else PerformAll(Perform(rows, writes[0]), writes[1..])
  }

  function Pass(v: View): View {
    if v.interludes == [] then v
    else
      v.(rows := PerformAll(v.rows, v.interludes[0].writes),
         now := v.interludes[0].now,
         interludes := v.interludes[1..])
  }

  /** A send; once the script of sends is used up, sending works. */
  function Deliver(v: View, text: string): (bool, View) {
    if v.sends == [] then (true, v.(sent := v.sent + [text]))
    else if v.sends[0] then (true, v.(sends := v.sends[1..], sent := v.sent + [text]))
    else (false, v.(sends := v.sends[1..]))
  }

  // ----- Answering a request -----

  /** A response; an error response; a ProxyServerException; no return yet; a crash. */
  datatype Ending = Reply(text: string) | Apology(text: string) | Down | Silent | Crashed

  function AnswerOf(resp: P.FullHttpResponse): M.Answer {
    M.Answer(Lookup(resp.header.headers, EXPIRES), resp.entire)
  }

  function Rank(pc: M.Pc): nat {
    match pc
    case Checking(_) => 5
    case Looking(_) => 4
    case Timing(_, _) => 3
    case Fetching(_, _) => 2
    case Storing(_, _, _) => 1
    case _ => 0
  }

  /**
   * A request answered by the steps of the cache machine, with an interlude before each: M.Advance
   * says where each one leads, M.Effect what it does to the table.
   */
  function Serve(e: Env, v0: View, pc: M.Pc): (r: (Ending, View))
    ensures r.1.client == v0.client && r.1.sends == v0.sends && r.1.sent == v0.sent
    decreases Rank(pc)
  {
    var v := Pass(v0);
    match pc
    case Sending(_, body) => (Reply(body), v0)
    case Idle => (Silent, v0)
    case Failed => (Crashed, v0)
    case Fetching(key, _) =>
      (match e.remote(key, v.now)
       case Got(resp) => Serve(e, v, M.Advance(e.expiry, pc, M.Rows(v.rows), v.now, Some(AnswerOf(resp))))
       case Down => (Down, v)
       case ErrorReply(text) => (Apology(text), v)
       case Hung => (Silent, v)
       case Crash => (Crashed, v))
    case _ =>
      Serve(e, v.(rows := M.Effect(pc, M.Rows(v.rows)).rows), M.Advance(e.expiry, pc, M.Rows(v.rows), v.now, None))
  }

  // One step of Serve at a time.

  lemma ServeChecking(e: Env, v: View, key: string)
    ensures Serve(e, v, M.Checking(key)) ==
            Serve(e, Pass(v), if HasRow(Pass(v).rows, key) then M.Looking(key) else M.Fetching(key, true))
  {
  }

  lemma ServeLooking(e: Env, v: View, key: string)
    ensures Serve(e, v, M.Looking(key)) ==
            var read := FirstRow(Pass(v).rows, key);
            Serve(e, Pass(v), if read.None? then M.Failed else M.Timing(key, read.value))
  {
  }

  lemma ServeTiming(e: Env, v: View, key: string, row: Row)
    ensures Serve(e, v, M.Timing(key, row)) ==
            var expired := e.expiry(row.expire) < Pass(v).now;
            Serve(e, Pass(v), if expired then M.Fetching(key, false) else M.Sending(key, row.resp))
  {
  }

  lemma ServeFetching(e: Env, v: View, key: string, insert: bool)
    ensures Serve(e, v, M.Fetching(key, insert)) ==
            match e.remote(key, Pass(v).now)
            case Got(resp) => Serve(e, Pass(v), M.Storing(key, insert, AnswerOf(resp)))
            case Down => (Down, Pass(v))
            case ErrorReply(text) => (Apology(text), Pass(v))
            case Hung => (Silent, Pass(v))
            case Crash => (Crashed, Pass(v))
  {
  }

  lemma ServeStoring(e: Env, v: View, pc: M.Pc)
    requires pc.Storing?
    ensures
      var row := Row(pc.key, pc.answer.expires, pc.answer.entire);
      var rows := if pc.insert then Inserted(Pass(v).rows, row) else Updated(Pass(v).rows, row);
      Serve(e, v, pc) == (Reply(pc.answer.entire), Pass(v).(rows := rows))
  {
    var sending := M.Sending(pc.key, pc.answer.entire);
    var v' := Pass(v).(rows := M.Effect(pc, M.Rows(Pass(v).rows)).rows);
    assert Serve(e, v', sending) == (Reply(pc.answer.entire), v');
  }

  lemma ServeEnds(e: Env, v: View, pc: M.Pc)
    ensures pc.Sending? ==> Serve(e, v, pc) == (Reply(pc.body), v)
    ensures pc.Failed? ==> Serve(e, v, pc) == (Crashed, v)
  {
  }

  /** A step of the handler, on the view it finds; None when it is not one that goes on. */
  function Next(e: Env, v: View, pc: M.Pc): Option<(M.Pc, View)> {
    match pc
    case Idle => None
    case Failed => None
    case Sending(_, _) => None
    case Fetching(key, _) =>
      (match e.remote(key, v.now)
       case Got(resp) => Some((M.Advance(e.expiry, pc, M.Rows(v.rows), v.now, Some(AnswerOf(resp))), v))
       case _ => None)
    case _ =>
      Some((M.Advance(e.expiry, pc, M.Rows(v.rows), v.now, None), v.(rows := M.Effect(pc, M.Rows(v.rows)).rows)))
  }

  lemma ServeNext(e: Env, v: View, pc: M.Pc)
    ensures
      match Next(e, Pass(v), pc)
      case Some(step) => Rank(step.0) < Rank(pc) && Serve(e, v, pc) == Serve(e, step.1, step.0)
      case None =>
        var (ending, v') := Serve(e, v, pc);
        (v' == v || v' == Pass(v)) && (ending.Reply? ==> pc.Sending? && ending.text == pc.body && v' == v)
  {
  }

  predicate KeepAlive(request: Q.Request) {
    Lookup(request.headers, CONNECTION) != CLOSE
  }

  function CacheKey(request: Q.Request): string {
    request.host + request.path
  }

  // ----- The loop -----

  /** One iteration: the request, how it ended, whether the response went out, and when it was read and answered. */
  datatype Turn = Turn(request: Option<Q.Request>, ending: Ending, delivered: bool, since: int, at: int)

  /** The loop's end: `persistent` is false, a ProxyServerException, a call that has not returned, a crash. */
  datatype Stop = Closed | Broken | Waits | Aborted

  function FinishTurn(request: Option<Q.Request>, ending: Ending, since: int, v0: View): (Turn, View) {
    var v := Pass(v0);
    if ending.Reply? || ending.Apology? then
      var (ok, v') := Deliver(v, ending.text);
      (Turn(request, ending, ok, since, v.now), v')
    else (Turn(request, ending, false, since, v.now), v)
  }

  /** The turn, once the client has been read. */
  function TurnOn(e: Env, v: View, asked: Asked): (Turn, View) {
    match asked
    case Lost => FinishTurn(None, Down, v.now, v)
    case Mute => FinishTurn(None, Silent, v.now, v)
    case Fatal => FinishTurn(None, Crashed, v.now, v)
    case Refused(text) => FinishTurn(None, Apology(text), v.now, v)
    case Asked(request) =>
      var (ending, v') := Serve(e, v, M.Checking(CacheKey(request)));
      FinishTurn(Some(request), ending, v.now, v')
  }

  function OneTurn(e: Env, v0: View): (Turn, View) {
    var v := Pass(v0);
    var (asked, left) := GetRequest(v.client);
    TurnOn(e, v.(client := left), asked)
  }

  /** Does the loop end with this turn? A failed send of an error response is not caught. */
  function Verdict(turn: Turn): Option<Stop> {
    match turn.ending
    case Down => Some(Broken)
    case Silent => Some(Waits)
    case Crashed => Some(Aborted)
    case Reply(_) =>
      if !turn.delivered then Some(Broken)
      else if turn.request.Some? && !KeepAlive(turn.request.value) then Some(Closed)
      else None
    case Apology(_) =>
      if !turn.delivered then Some(Aborted)
      else if turn.request.Some? && !KeepAlive(turn.request.value) then Some(Closed)
      else None
  }

  datatype Session = Session(turns: seq<Turn>, view: View, stop: Stop)

  function Prepend(turns: seq<Turn>, s: Session): Session {
    s.(turns := turns + s.turns)
  }

  lemma TurnKeepsClient(e: Env, v: View, asked: Asked)
    ensures TurnOn(e, v, asked).1.client == v.client
    ensures asked == Mute ==> Verdict(TurnOn(e, v, asked).0).Some?
  {
  }

  lemma TurnConsumes(e: Env, v: View)
    requires Verdict(OneTurn(e, v).0).None?
    ensures |OneTurn(e, v).1.client| < |v.client|
  {
    var asked, left := ReadConsumes(Pass(v).client);
    TurnKeepsClient(e, Pass(v).(client := left), asked);
  }

  lemma ReadConsumes(script: seq<Recv>) returns (asked: Asked, left: seq<Recv>)
    ensures (asked, left) == GetRequest(script)
    ensures asked != Mute ==> |left| < |script|
  {
    asked, left := GetRequest(script).0, GetRequest(script).1;
    if Until(script, "", Framing.BLANK).code != Waiting {
      UntilConsumes(script);
    }
  }

  lemma {:induction false} UntilLeaves(script: seq<Recv>, data: string)
    ensures |Until(script, data, Framing.BLANK).left| <= |script|
    decreases |script|
  {
    if script != [] && script[0].Data? {
      UntilLeaves(script[1..], data + script[0].bytes);
    }
  }

  lemma UntilConsumes(script: seq<Recv>)
    requires Until(script, "", Framing.BLANK).code != Waiting
    ensures |Until(script, "", Framing.BLANK).left| < |script|
  {
    if script != [] && script[0].Data? {
      UntilLeaves(script[1..], "" + script[0].bytes);
    }
  }

  /** onConnect: the turns of a connection, and how it ends. */
  function Connect(e: Env, v: View): Session
    decreases |v.client|
  {
    var (turn, v') := OneTurn(e, v);
    match Verdict(turn)
    case Some(stop) => Session([turn], v', stop)
    case None =>
      TurnConsumes(e, v);
      Prepend([turn], Connect(e, v'))
  }

  /** A run is one turn, and then the run from what it leaves. */
  lemma ConnectStep(e: Env, v: View, turn: Turn, v': View) returns (rest: Session)
    requires (turn, v') == OneTurn(e, v)
    ensures Verdict(turn).Some? ==> Connect(e, v) == Session([turn], v', Verdict(turn).value)
    ensures Verdict(turn).None? ==>
              && |v'.client| < |v.client| && rest == Connect(e, v')
              && Connect(e, v) == Prepend([turn], rest)
  {
    rest := Session([], v, Closed);
    if Verdict(turn).None? {
      TurnConsumes(e, v);
      rest := Connect(e, v');
    }
  }

  lemma PrependPrepend(a: seq<Turn>, b: seq<Turn>, s: Session)
    ensures Prepend(a, Prepend(b, s)) == Prepend(a + b, s)
  {
  }

  // ----- The handler -----

  class Handler {
    const client: Socket
    const db: Database
    const env: Env
    const net: (string, int) -> P.Link
    var interludes: seq<Interlude>
    var now: int
    var sends: seq<bool>
    var sent: seq<string>

    constructor (client: Socket, db: Database, expiry: string -> int, net: (string, int) -> P.Link,
                 interludes: seq<Interlude>, now: int, sends: seq<bool>)
      ensures Faithful()
      ensures GetView() == View(client.script, db.rows, interludes, now, sends, [])
    {
      this.client, this.db, this.net := client, db, net;
      this.env := Env(expiry, (key, t) => P.FetchFrom(net(key, t)));
      this.interludes, this.now, this.sends, this.sent := interludes, now, sends, [];
    }

    /** env.remote is what getHttpResponse makes of the net. */
    ghost predicate Faithful() {
      forall key, t :: env.remote(key, t) == P.FetchFrom(net(key, t))
    }

    ghost function GetView(): View
      reads this, client, db
    {
      View(client.script, db.rows, interludes, now, sends, sent)
    }

    /** Other handlers run, and time passes. */
    method Yield()
      modifies this, db
      ensures GetView() == Pass(old(GetView()))
    {
      if interludes != [] {
        db.rows := PerformAll(db.rows, interludes[0].writes);
        now := interludes[0].now;
        interludes := interludes[1..];
      }
    }

    method SendHttpResponse(text: string) returns (ok: bool)
      modifies this
      ensures (ok, GetView()) == Deliver(old(GetView()), text)
      ensures ok <==> old(sends) == [] || old(sends)[0]
      ensures sent == old(sent) + (if ok then [text] else [])
    {
      ok := true;
      if sends != [] {
        ok := sends[0];
        sends := sends[1..];
      }
      if ok {
        sent := sent + [text];
      }
    }

    lemma RemoteIs(key: string, t: int) returns (link: P.Link, fetched: P.Fetched)
      requires Faithful()
      ensures link == net(key, t)
      ensures fetched == env.remote(key, t) && fetched == P.FetchFrom(link)
    {
      link, fetched := net(key, t), env.remote(key, t);
    }

    /** A connection to the origin. */
    method FetchRemote(key: string, request: Q.HttpRequest) returns (fetched: P.Fetched)
      requires Faithful() && request.verb == Q.GET
      ensures fetched == env.remote(key, now)
    {
      ghost var link, answer := RemoteIs(key, now);
      fetched := P.Exchange(net(key, now), request);
    }

    /** The cache lookup of onConnect: its three flags, and the response if there is one to use. */
    method ReadCache(hostPath: string)
      returns (requestRemoteServer: bool, updateCache: bool, insertCache: bool, found: Option<string>, ghost pc: M.Pc)
      modifies this, db
      ensures Serve(env, GetView(), pc) == Serve(env, old(GetView()), M.Checking(hostPath))
      ensures
        match found
        case None => pc == M.Failed
        case Some(entire) =>
          && (requestRemoteServer ==> pc == M.Fetching(hostPath, insertCache) && updateCache == !insertCache)
          && (!requestRemoteServer ==> pc == M.Sending(hostPath, entire) && !updateCache && !insertCache)
    {
      requestRemoteServer, updateCache, insertCache, found := true, false, true, Some("");
      ServeChecking(env, GetView(), hostPath);
      Yield();
      var cached := db.ContainsHostPathCache(hostPath);
      pc := M.Fetching(hostPath, true);
      if cached {
        insertCache := false;
        ServeLooking(env, GetView(), hostPath);
        Yield();
        var entry := db.GetCache(hostPath);
        if entry.None? {
          return requestRemoteServer, updateCache, insertCache, None, M.Failed;
        }
        ServeTiming(env, GetView(), hostPath, entry.value);
        Yield();
        if env.expiry(entry.value.expire) < now {
          requestRemoteServer, updateCache := true, true;
          pc := M.Fetching(hostPath, false);
        } else {
          requestRemoteServer, updateCache := false, false;
          found := Some(entry.value.resp);
          pc := M.Sending(hostPath, entry.value.resp);
        }
      }
    }

    /** The body of onConnect's try block, up to the sending. */
    method Answer(hostPath: string, request: Q.HttpRequest) returns (ending: Ending)
      requires Faithful() && request.verb == Q.GET
      modifies this, db
      ensures (ending, GetView()) == Serve(env, old(GetView()), M.Checking(hostPath))
    {
      var requestRemoteServer, updateCache, insertCache, found, pc := ReadCache(hostPath);
      if found.None? {
        ServeEnds(env, GetView(), pc);
        return Crashed;
      }
      var expires, entire := "", found.value;
      if requestRemoteServer {
        ServeFetching(env, GetView(), hostPath, insertCache);
        Yield();
        var fetched := FetchRemote(hostPath, request);
        match fetched {
          case Down => return Down;
          case ErrorReply(text) => return Apology(text);
          case Hung => return Silent;
          case Crash => return Crashed;
          case Got(resp) =>
            expires, entire := Lookup(resp.header.headers, EXPIRES), resp.entire;
            pc := M.Storing(hostPath, insertCache, M.Answer(expires, entire));
            ServeStoring(env, GetView(), pc);
        }
      } else {
        ServeEnds(env, GetView(), pc);
      }
      if updateCache {
        Yield();
        db.UpdateCache(hostPath, expires, entire);
      }
      if insertCache {
        Yield();
        db.InsertCache(hostPath, expires, entire);
      }
      return Reply(entire);
    }

    /** Sends what the turn ended with; the result is a stop that does not come from `persistent`. */
    method Conclude(ending: Ending) returns (delivered: bool, stop: Option<Stop>)
      modifies this, db
      ensures forall request, since :: (Turn(request, ending, delivered, since, now), GetView()) ==
                FinishTurn(request, ending, since, old(GetView()))
      ensures stop == match ending
                      case Down => Some(Broken)
                      case Silent => Some(Waits)
                      case Crashed => Some(Aborted)
                      case Reply(_) => if delivered then None else Some(Broken)
                      case Apology(_) => if delivered then None else Some(Aborted)
    {
      Yield();
      delivered := false;
      match ending {
        case Down => stop := Some(Broken);
        case Silent => stop := Some(Waits);
        case Crashed => stop := Some(Aborted);
        case Reply(text) =>
          delivered := SendHttpResponse(text);
          stop := if delivered then None else Some(Broken);
        case Apology(text) =>
          delivered := SendHttpResponse(text);
          stop := if delivered then None else Some(Aborted);
      }
    }

    /**
     * One iteration, made while `persistent` is true: the request, what `persistent` becomes, the
     * answer, and the sending. `broken` is an end of the loop that does not come from `persistent`.
     */
    method TakeTurn(current: bool) returns (persistent: bool, broken: Option<Stop>, ghost turn: Turn)
      requires Faithful() && current
      modifies this, client, db
      ensures (turn, GetView()) == OneTurn(env, old(GetView()))
      ensures Verdict(turn) == if broken.None? && !persistent then Some(Closed) else broken
    {
      persistent := current;
      Yield();
      ghost var since := now;
      var asked, request := GetHttpRequest(client);
      var ending;
      match asked {
        case Lost => ending := Down;
        case Mute => ending := Silent;
        case Fatal => ending := Crashed;
        case Refused(text) => ending := Apology(text);
        case Asked(_) =>
          var connection := request.base.FindHeader(CONNECTION);
          if connection == CLOSE {
            persistent := false;
          } else {
            persistent := true;
          }
          ending := Answer(request.host + request.path, request);
      }
      var delivered;
      delivered, broken := Conclude(ending);
      turn := Turn(if asked.Asked? then Some(asked.request) else None, ending, delivered, since, now);
    }

    /** The same iteration, as the first part of the run from where it starts. */
    method TakeStep(current: bool)
      returns (persistent: bool, broken: Option<Stop>, ghost turn: Turn, ghost rest: Session)
      requires Faithful() && current
      modifies this, client, db
      ensures Connect(env, old(GetView())) ==
              if broken.Some? then Session([turn], GetView(), broken.value)
              else if !persistent then Session([turn], GetView(), Closed)
              else Prepend([turn], rest)
      ensures broken.None? && persistent ==> rest == Connect(env, GetView()) && |client.script| < old(|client.script|)
    {
      ghost var start := GetView();
      persistent, broken, turn := TakeTurn(current);
      rest := ConnectStep(env, start, turn, GetView());
    }

    /** The do-while loop; `persistent` starts out true, so the first iteration is always made. */
    method OnConnect() returns (stop: Stop, ghost turns: seq<Turn>)
      requires Faithful()
      modifies this, client, db
      ensures Session(turns, GetView(), stop) == Connect(env, old(GetView()))
    {
      var persistent := true;
      ghost var whole := Connect(env, GetView());
      ghost var rest, turn := whole, Turn(None, Silent, false, now, now);
      turns := [];
      while persistent
        invariant persistent ==> rest == Connect(env, GetView()) && Prepend(turns, rest) == whole
        invariant !persistent ==> Session(turns, GetView(), Closed) == whole
        decreases persistent, |client.script|
      {
        var broken;
        persistent, broken, turn, rest := TakeStep(persistent);
        PrependPrepend(turns, [turn], rest);
        turns := turns + [turn];
        if broken.Some? {
          return broken.value, turns;
        }
      }
      return Closed, turns;
    }
  }
}
