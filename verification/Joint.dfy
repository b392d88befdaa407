/**
 * Any number of onConnect handlers on one table: each of them runs src/proxy-server.cc's loop, a
 * scheduler picks whose step is next. Every such run is a run of the cache machine, and what each
 * handler does in it is onConnect among the interludes that the others gave it.
 */
module Joint {
  import opened Wrappers
  import opened Receive
  import opened CacheDb
  import opened ProxyServer
  import M = CacheMachine
  import P = ProxyServerClient
  import Q = HttpRequest

  // ----- One handler, step by step -----

  datatype Task =
    | Reading
    | Serving(request: Q.Request, pc: M.Pc)
    | Finishing(about: Option<Q.Request>, ending: Ending)
    | Ended(stop: Stop)

  /** A connection: what it is at, when its turn began, when its last request arrived, and its script. */
  datatype Conn = Conn(
    task: Task, since: int, arrived: int,
    client: seq<Recv>, sends: seq<bool>, sent: seq<string>, turns: seq<Turn>)

  function Opened(client: seq<Recv>, sends: seq<bool>, now: int): Conn {
    Conn(Reading, now, now, client, sends, [], [])
  }

  function ViewOf(c: Conn, rows: seq<Row>, interludes: seq<Interlude>, now: int): View {
    View(c.client, rows, interludes, now, c.sends, c.sent)
  }

  function AfterRead(c: Conn, asked: Asked): Task {
    match asked
    case Asked(request) => Serving(request, M.Checking(CacheKey(request)))
    case Refused(text) => Finishing(None, Apology(text))
    case Lost => Finishing(None, Down)
    case Mute => Finishing(None, Silent)
    case Fatal => Finishing(None, Crashed)
  }

  function ReadStep(c: Conn, asked: Asked, left: seq<Recv>, now: int): Conn {
    c.(task := AfterRead(c, asked), since := now, client := left,
       arrived := if asked.Asked? then now else c.arrived)
  }

  /** What a fetch that gave no answer leads to. */
  function Failure(fetched: P.Fetched): Ending {
    match fetched
    case ErrorReply(text) => Apology(text)
    case Hung => Silent
    case Crash => Crashed
    case _ => Down
  }

  function Settled(request: Q.Request, pc: M.Pc): Task {
    match pc
    case Sending(_, body) => Finishing(Some(request), Reply(body))
    case Failed => Finishing(Some(request), Crashed)
    case _ => Serving(request, pc)
  }

  function ServeStep(e: Env, c: Conn, request: Q.Request, pc: M.Pc, rows: seq<Row>, now: int): (Conn, seq<Row>) {
    match Next(e, ViewOf(c, rows, [], now), pc)
    case Some(step) => (c.(task := Settled(request, step.0)), step.1.rows)
    case None =>
      var ending := if pc.Fetching? then Failure(e.remote(pc.key, now)) else Silent;
      (c.(task := Finishing(Some(request), ending)), rows)
  }

  function SendStep(c: Conn, request: Option<Q.Request>, ending: Ending, now: int): Conn {
    var (ok, v) :=
      if ending.Reply? || ending.Apology? then Deliver(ViewOf(c, [], [], now), ending.text)
      else (false, ViewOf(c, [], [], now));
    var turn := Turn(request, ending, ok, c.since, now);
    var task := match Verdict(turn) case None => Reading case Some(stop) => Ended(stop);
    c.(task := task, sends := v.sends, sent := v.sent, turns := c.turns + [turn])
  }

  /** One step of a handler on the table and at the time that it finds. */
  function Step(e: Env, c: Conn, rows: seq<Row>, now: int): (Conn, seq<Row>) {
    match c.task
    case Reading => (ReadStep(c, GetRequest(c.client).0, GetRequest(c.client).1, now), rows)
    case Serving(request, pc) => ServeStep(e, c, request, pc, rows, now)
    case Finishing(request, ending) => (SendStep(c, request, ending, now), rows)
    case Ended(_) => (c, rows)
  }

  // ----- The steps are onConnect -----

  /** What follows a turn. */
  function GoOn(e: Env, turn: Turn, v: View): Session {
    match Verdict(turn)
    case Some(stop) => Session([turn], v, stop)
    case None => Prepend([turn], Connect(e, v))
  }

  function Finish(e: Env, request: Option<Q.Request>, ending: Ending, since: int, v: View): Session {
    var (turn, v') := FinishTurn(request, ending, since, v);
    GoOn(e, turn, v')
  }

  /** What onConnect still does from the middle of a turn. */
  function Rest(e: Env, task: Task, since: int, v: View): Session {
    match task
    case Reading => Connect(e, v)
    case Serving(request, pc) => Finish(e, Some(request), Serve(e, v, pc).0, since, Serve(e, v, pc).1)
    case Finishing(request, ending) => Finish(e, request, ending, since, v)
    case Ended(stop) => Session([], v, stop)
  }

  lemma ConnectGoesOn(e: Env, v: View)
    ensures Connect(e, v) == GoOn(e, OneTurn(e, v).0, OneTurn(e, v).1)
  {
    var rest := ConnectStep(e, v, OneTurn(e, v).0, OneTurn(e, v).1);
  }

  lemma TurnOnRests(e: Env, v: View, asked: Asked)
    ensures
      var (turn, v') := TurnOn(e, v, asked);
      GoOn(e, turn, v') == Rest(e, AfterRead(Opened([], [], 0), asked), v.now, v)
  {
  }

  lemma ReadRests(e: Env, c: Conn, v: View)
    requires c.task == Reading
    ensures
      var c' := ReadStep(c, GetRequest(v.client).0, GetRequest(v.client).1, Pass(v).now);
      Connect(e, v) == Rest(e, c'.task, c'.since, Pass(v).(client := GetRequest(v.client).1))
  {
    var asked, left := ReadConsumes(Pass(v).client);
    ConnectGoesOn(e, v);
    TurnOnRests(e, Pass(v).(client := left), asked);
  }

  lemma ServeRests(e: Env, c: Conn, request: Q.Request, pc: M.Pc, v: View)
    requires !pc.Idle? && !pc.Failed? && !pc.Sending?
    ensures
      var (c', rows) := ServeStep(e, c, request, pc, Pass(v).rows, Pass(v).now);
      Rest(e, Serving(request, pc), c.since, v) == Rest(e, c'.task, c.since, Pass(v).(rows := rows))
  {
    ServeNext(e, v, pc);
    var step := Next(e, Pass(v), pc);
    NextIgnoresRest(e, c, Pass(v), pc);
    if step.Some? {
      ServeEnds(e, step.value.1, step.value.0);
    } else {
      ServeFetching(e, v, pc.key, pc.insert);
    }
  }

  /** A step reads the table and the time, and changes the table alone. */
  lemma NextIgnoresRest(e: Env, c: Conn, v: View, pc: M.Pc)
    ensures
      var here, there := Next(e, v, pc), Next(e, ViewOf(c, v.rows, [], v.now), pc);
      && (here.Some? <==> there.Some?)
      && (here.Some? ==> here.value.0 == there.value.0 && here.value.1 == v.(rows := there.value.1.rows))
    ensures !pc.Idle? && !pc.Failed? && !pc.Sending? && !pc.Fetching? ==> Next(e, v, pc).Some?
  {
  }

  lemma SendRests(e: Env, c: Conn, request: Option<Q.Request>, ending: Ending, v: View)
    requires v.client == c.client && v.sends == c.sends && v.sent == c.sent
    ensures
      var c' := SendStep(c, request, ending, Pass(v).now);
      && |c'.turns| == |c.turns| + 1
      && var v' := ViewOf(c', Pass(v).rows, Pass(v).interludes, Pass(v).now);
         Rest(e, Finishing(request, ending), c.since, v) ==
         Prepend([c'.turns[|c.turns|]], Rest(e, c'.task, c'.since, v'))
  {
  }

  predicate Busy(pc: M.Pc) {
    !pc.Idle? && !pc.Failed? && !pc.Sending?
  }

  /** A handler serves the key of its request, and has no reply without one. */
  predicate ConnOk(c: Conn) {
    && (c.task.Serving? ==> Busy(c.task.pc) && c.task.pc.key == CacheKey(c.task.request))
    && (c.task.Finishing? && c.task.about.None? ==> !c.task.ending.Reply?)
  }

  predicate Fits(c: Conn, v: View) {
    v.client == c.client && v.sends == c.sends && v.sent == c.sent
  }

  lemma AdvanceKeepsKey(e: Env, v: View, pc: M.Pc)
    requires Busy(pc) && Next(e, v, pc).Some?
    ensures
      var pc' := Next(e, v, pc).value.0;
      !pc'.Idle? && (pc'.Failed? || pc'.key == pc.key)
  {
  }

  lemma StepKeepsOk(e: Env, c: Conn, rows: seq<Row>, now: int)
    requires ConnOk(c)
    ensures ConnOk(Step(e, c, rows, now).0) && c.turns <= Step(e, c, rows, now).0.turns
  {
    if c.task.Serving? && Next(e, ViewOf(c, rows, [], now), c.task.pc).Some? {
      AdvanceKeepsKey(e, ViewOf(c, rows, [], now), c.task.pc);
    }
  }

  /** One step of the handler is the next part of onConnect on the view that it finds. */
  lemma StepRests(e: Env, c: Conn, v: View) returns (c': Conn, v': View)
    requires ConnOk(c) && Fits(c, v) && !c.task.Ended?
    ensures c' == Step(e, c, Pass(v).rows, Pass(v).now).0 && c.turns <= c'.turns
    ensures v' == ViewOf(c', Step(e, c, Pass(v).rows, Pass(v).now).1, Pass(v).interludes, Pass(v).now)
    ensures Rest(e, c.task, c.since, v) == Prepend(c'.turns[|c.turns|..], Rest(e, c'.task, c'.since, v'))
  {
    StepKeepsOk(e, c, Pass(v).rows, Pass(v).now);
    var moved := Step(e, c, Pass(v).rows, Pass(v).now);
    c' := moved.0;
    v' := ViewOf(c', moved.1, Pass(v).interludes, Pass(v).now);
    match c.task {
      case Reading => ReadRests(e, c, v);
      case Serving(request, pc) => ServeRests(e, c, request, pc, v);
      case Finishing(request, ending) => SendRests(e, c, request, ending, v);
    }
  }
}
