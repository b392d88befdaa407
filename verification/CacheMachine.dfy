/**
 * The shared cache under concurrent handlers (src/proxy-server.cc, onConnect): any number of
 * handlers, one SQL statement or clock reading a step, interleaved in any order.
 */
module CacheMachine {
  import opened Wrappers
  import opened CacheDb

  // ----- One handler -----

  /** What an origin answers: its Expires text and its bytes. */
  datatype Answer = Answer(expires: string, entire: string)

  /** The table as the program has it, or as the map that can be read from it. */
  datatype Table = Rows(rows: seq<Row>) | Cells(cells: map<string, Row>)

  predicate Has(t: Table, key: string) {
    if t.Rows? then HasRow(t.rows, key) else key in t.cells
  }

  function First(t: Table, key: string): Option<Row> {
    if t.Rows? then FirstRow(t.rows, key)
    else if key in t.cells then Some(t.cells[key])
    else None
  }

  function Insert(t: Table, row: Row): Table {
    if t.Rows? then Rows(Inserted(t.rows, row))
    else if row.key in t.cells then t
    else Cells(t.cells[row.key := row])
  }

  function Update(t: Table, row: Row): Table {
    if t.Rows? then Rows(Updated(t.rows, row))
    else if row.key in t.cells then Cells(t.cells[row.key := row])
    else t
  }

  /** Where a handler stands between two steps; Failed is the exception of results.at(0). */
  datatype Pc =
    | Idle
    | Checking(key: string)
    | Looking(key: string)
    | Timing(key: string, row: Row)
    | Fetching(key: string, insert: bool)
    | Storing(key: string, insert: bool, answer: Answer)
    | Sending(key: string, body: string)
    | Failed

  /** A handler's next place, given the table, the time, and what the origin answered, if it did. */
  function Advance(expiry: string -> int, pc: Pc, t: Table, now: int, answer: Option<Answer>): Pc {
    match pc
    case Idle => Idle
    case Checking(key) => if Has(t, key) then Looking(key) else Fetching(key, true)
    case Looking(key) =>
      (match First(t, key)
       case None => Failed
       case Some(row) => Timing(key, row))
    case Timing(key, row) => if expiry(row.expire) < now then Fetching(key, false) else Sending(key, row.resp)
    case Fetching(key, insert) =>
      (match answer
       case None => Idle
       case Some(a) => Storing(key, insert, a))
    case Storing(key, _, a) => Sending(key, a.entire)
    case Sending(_, _) => Idle
    case Failed => Failed
  }

  /** What the step does to the table. */
  function Effect(pc: Pc, t: Table): Table {
    match pc
    case Storing(key, insert, a) =>
      var row := Row(key, a.expires, a.entire);
      if insert then Insert(t, row) else Update(t, row)
    case _ => t
  }

  // ----- All handlers -----

  /** The handler of a connection, and when its current request arrived. */
  datatype Handler = Handler(pc: Pc, since: int)

  /** A response sent: the request's key, the bytes, the request's arrival and the sending. */
  datatype Served = Served(key: string, body: string, since: int, at: int)

  datatype State = State(table: Table, clock: int, handlers: map<nat, Handler>, served: seq<Served>)

  /** The origin's answer to a key at a time, the reading of an Expires text, and max_connections. */
  datatype World = World(origin: (string, int) -> Answer, expiry: string -> int, max: nat)

  datatype Action =
    | Tick
    | Spawn(id: nat)
    | Read(id: nat, key: string)
    | Move(id: nat)
    | Abandon(id: nat)
    | Send(id: nat)
    | Exit(id: nat)

  predicate Enabled(w: World, s: State, a: Action) {
    match a
    case Tick => true
    case Spawn(id) => id !in s.handlers && |s.handlers| < w.max
    case Read(id, _) => id in s.handlers && s.handlers[id].pc.Idle?
    case Move(id) => id in s.handlers && !s.handlers[id].pc.Idle? && !s.handlers[id].pc.Sending?
    case Abandon(id) => id in s.handlers && s.handlers[id].pc.Fetching?
    case Send(id) => id in s.handlers && s.handlers[id].pc.Sending?
    case Exit(id) =>
      && id in s.handlers
      && (s.handlers[id].pc.Idle? || s.handlers[id].pc.Fetching? || s.handlers[id].pc.Sending?)
  }

  function At(s: State, id: nat, pc: Pc): State
    requires id in s.handlers
  {
    s.(handlers := s.handlers[id := s.handlers[id].(pc := pc)])
  }

  function Moved(w: World, s: State, id: nat): State
    requires id in s.handlers
  {
    var pc := s.handlers[id].pc;
    var answer := if pc.Fetching? then Some(w.origin(pc.key, s.clock)) else None;
    At(s.(table := Effect(pc, s.table)), id, Advance(w.expiry, pc, s.table, s.clock, answer))
  }

  function After(w: World, s: State, a: Action): State
    requires Enabled(w, s, a)
  {
    match a
    case Tick => s.(clock := s.clock + 1)
    case Spawn(id) => s.(handlers := s.handlers[id := Handler(Idle, s.clock)])
    case Read(id, key) => s.(handlers := s.handlers[id := Handler(Checking(key), s.clock)])
    case Move(id) => Moved(w, s, id)
    case Abandon(id) => At(s, id, Idle)
    case Send(id) =>
      var h := s.handlers[id];
      At(s, id, Idle).(served := s.served + [Served(h.pc.key, h.pc.body, h.since, s.clock)])
    case Exit(id) => s.(handlers := s.handlers - {id})
  }

  /** A run: None when an action is not possible where it stands. */
  function Run(w: World, s: State, actions: seq<Action>): Option<State>
    decreases |actions|
  {
    if actions == [] then Some(s)
    else if Enabled(w, s, actions[0]) then Run(w, After(w, s, actions[0]), actions[1..])
    else None
  }

  /** The proxy as it starts: no handlers, an empty table. */
  function Start(clock: int): State {
    State(Rows([]), clock, map[], [])
  }

  // ----- What every run keeps -----

  /** The bytes are the origin's answer from time t, and still valid at time u. */
  predicate ValidAt(w: World, key: string, body: string, t: int, u: int) {
    && t <= u && w.origin(key, t).entire == body
    && (t == u || u <= w.expiry(w.origin(key, t).expires))
  }

  /** Valid at some instant from `since` to `now`. */
  ghost predicate Unexpired(w: World, key: string, body: string, since: int, now: int) {
    exists t, u :: ValidAt(w, key, body, t, u) && since <= u <= now
  }

  /** The row's expiry and response come from one single answer for its key. */
  ghost predicate Genuine(w: World, row: Row, now: int) {
    exists t :: t <= now && row == Row(row.key, w.origin(row.key, t).expires, w.origin(row.key, t).entire)
  }

  ghost predicate GenuineTable(w: World, t: Table, now: int) {
    t.Rows? && forall i :: 0 <= i < |t.rows| ==> Genuine(w, t.rows[i], now)
  }

  ghost predicate HandlerOk(w: World, h: Handler, t: Table, now: int) {
    && h.since <= now
    && match h.pc
       case Idle => true
       case Checking(_) => true
       case Looking(key) => Has(t, key)
       case Timing(key, row) => Has(t, key) && row.key == key && Genuine(w, row, now)
       case Fetching(key, insert) => insert || Has(t, key)
       case Storing(key, insert, a) =>
         && (insert || Has(t, key))
         && Unexpired(w, key, a.entire, h.since, now)
         && Genuine(w, Row(key, a.expires, a.entire), now)
       case Sending(key, body) => Unexpired(w, key, body, h.since, now)
       case Failed => false
  }

  ghost predicate ServedOk(w: World, served: seq<Served>) {
    forall i :: 0 <= i < |served| ==> Unexpired(w, served[i].key, served[i].body, served[i].since, served[i].at)
  }

  ghost predicate Inv(w: World, s: State) {
    && GenuineTable(w, s.table, s.clock)
    && ServedOk(w, s.served)
    && forall id :: id in s.handlers ==> HandlerOk(w, s.handlers[id], s.table, s.clock)
  }

  /** Later, and with no key lost, a handler that was fine still is. */
  lemma HandlerStaysOk(w: World, h: Handler, t: Table, t': Table, now: int, now': int)
    requires HandlerOk(w, h, t, now) && now <= now'
    requires forall key :: Has(t, key) ==> Has(t', key)
    ensures HandlerOk(w, h, t', now')
  {
  }

  lemma EffectKeepsKeys(pc: Pc, t: Table, key: string)
    requires Has(t, key)
    ensures Has(Effect(pc, t), key)
  {
    if t.Rows? && pc.Storing? {
      var row := Row(pc.key, pc.answer.expires, pc.answer.entire);
      AsMapIsFirstRow(t.rows, key);
      AsMapIsFirstRow(Inserted(t.rows, row), key);
      AsMapIsFirstRow(Updated(t.rows, row), key);
      InsertIsPutIfAbsent(t.rows, row);
      UpdateIsPutIfPresent(t.rows, row);
    }
  }

  lemma EffectStaysGenuine(w: World, pc: Pc, t: Table, now: int)
    requires GenuineTable(w, t, now)
    requires pc.Storing? ==> Genuine(w, Row(pc.key, pc.answer.expires, pc.answer.entire), now)
    ensures GenuineTable(w, Effect(pc, t), now)
  {
  }

  /** The handler that moves is fine in its next place. */
  lemma AdvanceIsOk(w: World, h: Handler, t: Table, now: int)
    requires GenuineTable(w, t, now) && HandlerOk(w, h, t, now)
    ensures
      var answer := if h.pc.Fetching? then Some(w.origin(h.pc.key, now)) else None;
      HandlerOk(w, h.(pc := Advance(w.expiry, h.pc, t, now, answer)), Effect(h.pc, t), now)
  {
    match h.pc
    case Idle =>
    case Checking(key) =>
    case Looking(key) =>
      var i := FirstRowIsFirst(t.rows, key);
    case Timing(key, row) =>
      var t0 :| t0 <= now && row == Row(row.key, w.origin(row.key, t0).expires, w.origin(row.key, t0).entire);
      assert w.expiry(row.expire) >= now ==> ValidAt(w, key, row.resp, t0, now);
    case Fetching(key, insert) =>
      var a := w.origin(key, now);
      assert ValidAt(w, key, a.entire, now, now);
      assert Genuine(w, Row(key, a.expires, a.entire), now);
    case Storing(key, insert, a) =>
    case Sending(key, body) =>
  }

  lemma StepKeepsInv(w: World, s: State, a: Action)
    requires Inv(w, s) && Enabled(w, s, a)
    ensures Inv(w, After(w, s, a))
  {
    var s' := After(w, s, a);
    if a.Move? {
      var h := s.handlers[a.id];
      AdvanceIsOk(w, h, s.table, s.clock);
      EffectStaysGenuine(w, h.pc, s.table, s.clock);
      forall key | Has(s.table, key)
        ensures Has(s'.table, key)
      {
        EffectKeepsKeys(h.pc, s.table, key);
      }
    }
    forall id | id in s.handlers
      ensures HandlerOk(w, s.handlers[id], s'.table, s'.clock)
    {
      HandlerStaysOk(w, s.handlers[id], s.table, s'.table, s.clock, s'.clock);
    }
  }

  /** Over every run: nothing is served but what the origin said and had not let expire. */
  lemma {:induction false} RunKeepsInv(w: World, s: State, actions: seq<Action>)
    requires Inv(w, s) && Run(w, s, actions).Some?
    ensures Inv(w, Run(w, s, actions).value)
    decreases |actions|
  {
    if actions != [] {
      StepKeepsInv(w, s, actions[0]);
      RunKeepsInv(w, After(w, s, actions[0]), actions[1..]);
    }
  }

  /** Over every run no step removes a key: what containsHostPathCache has seen, getCache finds. */
  lemma {:induction false} KeysArePermanent(w: World, s: State, actions: seq<Action>, key: string)
    requires Has(s.table, key) && Run(w, s, actions).Some?
    ensures Has(Run(w, s, actions).value.table, key)
    decreases |actions|
  {
    if actions != [] {
      if actions[0].Move? {
        EffectKeepsKeys(s.handlers[actions[0].id].pc, s.table, key);
      }
      KeysArePermanent(w, After(w, s, actions[0]), actions[1..], key);
    }
  }

  // ----- Transparency -----

  /** The origin does not change its answer before the answer's own Expires time has passed. */
  ghost predicate Stable(w: World, key: string) {
    forall t, u :: t <= u <= w.expiry(w.origin(key, t).expires) ==> w.origin(key, u).entire == w.origin(key, t).entire
  }

  /** What the client got is what the origin itself would have answered during the request. */
  ghost predicate Transparent(w: World, r: Served) {
    exists u :: r.since <= u <= r.at && w.origin(r.key, u).entire == r.body
  }

  ghost predicate TransparentFor(w: World, s: State, key: string) {
    forall i :: 0 <= i < |s.served| && s.served[i].key == key ==> Transparent(w, s.served[i])
  }

  ghost predicate AlwaysTransparent(w: World, key: string) {
    forall clock, actions :: Run(w, Start(clock), actions).Some? ==>
      TransparentFor(w, Run(w, Start(clock), actions).value, key)
  }

  /** Transparency on every run, from every state that meets the invariant. */
  lemma RunIsTransparent(w: World, s: State, actions: seq<Action>, key: string)
    requires Inv(w, s) && Run(w, s, actions).Some? && Stable(w, key)
    ensures TransparentFor(w, Run(w, s, actions).value, key)
  {
    RunKeepsInv(w, s, actions);
    var end := Run(w, s, actions).value;
    forall i | 0 <= i < |end.served| && end.served[i].key == key
      ensures Transparent(w, end.served[i])
    {
      var r := end.served[i];
      var t, u :| ValidAt(w, key, r.body, t, u) && r.since <= u <= r.at;
      assert w.origin(key, u).entire == r.body;
    }
  }

  function Ticks(n: nat): seq<Action> {
    seq(n, _ => Tick)
  }

  lemma {:induction false} RunTicks(w: World, s: State, n: nat, rest: seq<Action>)
    ensures Run(w, s, Ticks(n) + rest) == Run(w, s.(clock := s.clock + n), rest)
    decreases n
  {
    if n == 0 {
      assert Ticks(n) + rest == rest;
    } else {
      assert (Ticks(n) + rest)[0] == Tick && (Ticks(n) + rest)[1..] == Ticks(n - 1) + rest;
      RunTicks(w, s.(clock := s.clock + 1), n - 1, rest);
    }
  }

  lemma RunStep(w: World, s: State, a: Action, rest: seq<Action>)
    requires Enabled(w, s, a)
    ensures Run(w, s, [a] + rest) == Run(w, After(w, s, a), rest)
  {
    assert ([a] + rest)[1..] == rest;
  }

  /** The proxy with one handler. */
  function One(t: Table, clock: int, h: Handler, served: seq<Served>): State {
    State(t, clock, map[0 := h], served)
  }

  lemma OneHandler(h: Handler, h': Handler)
    ensures map[0 := h][0 := h'] == map[0 := h']
  {
  }

  lemma OneMoves(w: World, t: Table, clock: int, h: Handler, served: seq<Served>, rest: seq<Action>)
    requires Enabled(w, One(t, clock, h, served), Move(0))
    ensures
      var answer := if h.pc.Fetching? then Some(w.origin(h.pc.key, clock)) else None;
      var h' := h.(pc := Advance(w.expiry, h.pc, t, clock, answer));
      Run(w, One(t, clock, h, served), [Move(0)] + rest) == Run(w, One(Effect(h.pc, t), clock, h', served), rest)
  {
    RunStep(w, One(t, clock, h, served), Move(0), rest);
    var answer := if h.pc.Fetching? then Some(w.origin(h.pc.key, clock)) else None;
    OneHandler(h, h.(pc := Advance(w.expiry, h.pc, t, clock, answer)));
  }

  lemma OneReads(w: World, t: Table, clock: int, h: Handler, served: seq<Served>, key: string, rest: seq<Action>)
    requires h.pc.Idle?
    ensures Run(w, One(t, clock, h, served), [Read(0, key)] + rest) ==
            Run(w, One(t, clock, Handler(Checking(key), clock), served), rest)
  {
    RunStep(w, One(t, clock, h, served), Read(0, key), rest);
    OneHandler(h, Handler(Checking(key), clock));
  }

  lemma OneSends(w: World, t: Table, clock: int, h: Handler, served: seq<Served>, rest: seq<Action>)
    requires h.pc.Sending?
    ensures Run(w, One(t, clock, h, served), [Send(0)] + rest) ==
            Run(w, One(t, clock, h.(pc := Idle), served + [Served(h.pc.key, h.pc.body, h.since, clock)]), rest)
  {
    RunStep(w, One(t, clock, h, served), Send(0), rest);
    OneHandler(h, h.(pc := Idle));
  }

  /** The proxy when its first request has been answered and the answer stored. */
  function Kept(clock: int, key: string, a: Answer): State {
    One(Rows([Row(key, a.expires, a.entire)]), clock, Handler(Idle, clock), [Served(key, a.entire, clock, clock)])
  }

  /** Storing the first row of the table, and sending it. */
  lemma OneStores(w: World, clock: int, key: string, a: Answer, rest: seq<Action>)
    ensures Run(w, One(Rows([]), clock, Handler(Storing(key, true, a), clock), []), [Move(0)] + ([Send(0)] + rest)) ==
            Run(w, Kept(clock, key, a), rest)
  {
    var row, served := Row(key, a.expires, a.entire), Served(key, a.entire, clock, clock);
    OneMoves(w, Rows([]), clock, Handler(Storing(key, true, a), clock), [], [Send(0)] + rest);
    assert Inserted([], row) == [row] && [] + [served] == [served];
    OneSends(w, Rows([row]), clock, Handler(Sending(key, a.entire), clock), [], rest);
  }

  /** A request that misses: the handler fetches at once, stores and sends. */
  lemma OneMisses(w: World, clock: int, h: Handler, key: string, rest: seq<Action>) returns (actions: seq<Action>)
    requires h.pc.Idle?
    ensures
      var a := w.origin(key, clock);
      Run(w, One(Rows([]), clock, h, []), actions) ==
      Run(w, Kept(clock, key, a), rest)
  {
    var a := w.origin(key, clock);
    var r2 := [Move(0)] + ([Send(0)] + rest);
    var r3 := [Move(0)] + r2;
    var r4 := [Move(0)] + r3;
    actions := [Read(0, key)] + r4;
    OneReads(w, Rows([]), clock, h, [], key, r4);
    OneMoves(w, Rows([]), clock, Handler(Checking(key), clock), [], r3);
    OneMoves(w, Rows([]), clock, Handler(Fetching(key, true), clock), [], r2);
    OneStores(w, clock, key, a, rest);
  }

  /** A request that hits: the row has not expired. */
  lemma OneHits(w: World, clock: int, h: Handler, row: Row, served: seq<Served>) returns (actions: seq<Action>)
    requires h.pc.Idle? && clock <= w.expiry(row.expire)
    ensures Run(w, One(Rows([row]), clock, h, served), actions) ==
            Some(One(Rows([row]), clock, Handler(Idle, clock), served + [Served(row.key, row.resp, clock, clock)]))
  {
    var t, key := Rows([row]), row.key;
    var r1 := [Send(0)] + [];
    var r2 := [Move(0)] + r1;
    var r3 := [Move(0)] + r2;
    var r4 := [Move(0)] + r3;
    actions := [Read(0, key)] + r4;
    assert t.rows[0] == row;
    OneReads(w, t, clock, h, served, key, r4);
    OneMoves(w, t, clock, Handler(Checking(key), clock), served, r3);
    OneMoves(w, t, clock, Handler(Looking(key), clock), served, r2);
    OneMoves(w, t, clock, Handler(Timing(key, row), clock), served, r1);
    OneSends(w, t, clock, Handler(Sending(key, row.resp), clock), served, []);
  }

  /** An origin that changes too early is caught by a run of one handler and two requests. */
  lemma StaleRun(w: World, key: string, t: int, u: int) returns (actions: seq<Action>)
    requires 1 <= w.max && t <= u <= w.expiry(w.origin(key, t).expires)
    ensures Run(w, Start(t), actions).Some?
    ensures
      var end := Run(w, Start(t), actions).value;
      |end.served| == 2 && end.served[1] == Served(key, w.origin(key, t).entire, u, u)
  {
    var a := w.origin(key, t);
    var row := Row(key, a.expires, a.entire);
    var first := Served(key, a.entire, t, t);
    var last := OneHits(w, u, Handler(Idle, t), row, [first]);
    RunTicks(w, One(Rows([row]), t, Handler(Idle, t), [first]), u - t, last);
    var miss := OneMisses(w, t, Handler(Idle, t), key, Ticks(u - t) + last);
    actions := [Spawn(0)] + miss;
    RunStep(w, Start(t), Spawn(0), miss);
  }

  /**
   * The cache agrees with the origin on every run if and only if the origin keeps each answer
   * until the Expires time that it put on it.
   */
  lemma TransparentIffStable(w: World, key: string)
    requires 1 <= w.max
    ensures AlwaysTransparent(w, key) <==> Stable(w, key)
  {
    if Stable(w, key) {
      forall clock, actions | Run(w, Start(clock), actions).Some?
        ensures TransparentFor(w, Run(w, Start(clock), actions).value, key)
      {
        RunIsTransparent(w, Start(clock), actions, key);
      }
    }
    if AlwaysTransparent(w, key) {
      forall t, u | t <= u <= w.expiry(w.origin(key, t).expires)
        ensures w.origin(key, u).entire == w.origin(key, t).entire
      {
        var actions := StaleRun(w, key, t, u);
        var end := Run(w, Start(t), actions).value;
        assert Transparent(w, end.served[1]);
      }
    }
  }

  // ----- Duplicate rows -----

  /** The handlers that will insert a row for the key. */
  function Inserters(s: State, key: string): set<nat> {
    set id | id in s.handlers && Inserting(s.handlers[id].pc, key)
  }

  predicate Inserting(pc: Pc, key: string) {
    (pc.Fetching? || pc.Storing?) && pc.insert && pc.key == key
  }

  /** Rows and committed inserters together stay within max_connections. */
  predicate Bounded(w: World, s: State, key: string) {
    && s.table.Rows? && |s.handlers| <= w.max
    && |Matching(s.table.rows, key)| + |Inserters(s, key)| <= w.max
  }

  lemma SubsetCard<T>(a: set<T>, b: set<T>)
    requires a <= b
    ensures |a| <= |b|
  {
    if a != {} {
      var x :| x in a;
      SubsetCard(a - {x}, b - {x});
    }
  }

  lemma InsertersAreHandlers(s: State, key: string)
    ensures |Inserters(s, key)| <= |s.handlers|
  {
    SubsetCard(Inserters(s, key), s.handlers.Keys);
  }

  /** One step changes at most the handler it is about. */
  lemma InsertersAfter(w: World, s: State, a: Action, key: string) returns (id: nat)
    requires Enabled(w, s, a)
    ensures
      var was, now := Inserters(s, key), Inserters(After(w, s, a), key);
      now == was || now == was - {id} || (now == was + {id} && id !in was && a == Move(id))
    ensures a.Move? ==> id == a.id
    ensures a.Move? && s.handlers[id].pc.Storing? && Inserting(s.handlers[id].pc, key) ==>
              Inserters(After(w, s, a), key) == Inserters(s, key) - {id} && id in Inserters(s, key)
    ensures Inserters(After(w, s, a), key) == Inserters(s, key) + {id} && id !in Inserters(s, key) ==>
              !Has(s.table, key) && After(w, s, a).table == s.table
  {
    id := if a.Tick? then 0 else a.id;
  }

  /** No handler becomes an inserter once a row of the key exists, so the bound is kept. */
  lemma StepKeepsBounded(w: World, s: State, a: Action, key: string)
    requires Bounded(w, s, key) && Enabled(w, s, a)
    ensures Bounded(w, After(w, s, a), key)
  {
    var s' := After(w, s, a);
    var id := InsertersAfter(w, s, a, key);
    MatchingIsFirst(s.table.rows, key);
    InsertersAreHandlers(s', key);
    if a.Move? && s.handlers[id].pc.Storing? {
      var pc := s.handlers[id].pc;
      var row := Row(pc.key, pc.answer.expires, pc.answer.entire);
      MatchingSnoc(s.table.rows, row, key);
      UpdatedMatching(s.table.rows, row, key);
    }
  }

  lemma {:induction false} RunKeepsBounded(w: World, s: State, actions: seq<Action>, key: string)
    requires Bounded(w, s, key) && Run(w, s, actions).Some?
    ensures Bounded(w, Run(w, s, actions).value, key)
    decreases |actions|
  {
    if actions != [] {
      StepKeepsBounded(w, s, actions[0], key);
      RunKeepsBounded(w, After(w, s, actions[0]), actions[1..], key);
    }
  }

  /** From a table within the bound, no run has more rows of a key than max_connections. */
  lemma RowsBounded(w: World, s: State, actions: seq<Action>, key: string)
    requires s.table.Rows? && s.handlers == map[] && |Matching(s.table.rows, key)| <= w.max
    requires Run(w, s, actions).Some?
    ensures
      var end := Run(w, s, actions).value;
      end.table.Rows? && |Matching(end.table.rows, key)| + |Inserters(end, key)| <= w.max
  {
    assert Inserters(s, key) == {};
    RunKeepsBounded(w, s, actions, key);
  }

  // ----- The bound is reached -----

  function Ids(n: nat): (ids: set<nat>)
    ensures forall id: nat :: id in ids <==> id < n
  {
    if n == 0 then {} else Ids(n - 1) + {n - 1}
  }

  lemma {:induction false} IdsCard(n: nat)
    ensures |Ids(n)| == n
  {
    if n > 0 {
      IdsCard(n - 1);
    }
  }

  /** n handlers, of which the first m have stored and the others still hold their answer to insert. */
  function Crowd(clock: int, key: string, a: Answer, m: nat, n: nat): State {
    State(
      Rows(seq(m, _ => Row(key, a.expires, a.entire))), clock,
      map id | id in Ids(n) :: Handler(if id < m then Sending(key, a.entire) else Storing(key, true, a), clock), [])
  }

  lemma CrowdStores(w: World, clock: int, key: string, a: Answer, m: nat, n: nat)
    requires m < n
    ensures
      var s := Crowd(clock, key, a, m, n);
      Enabled(w, s, Move(m)) && After(w, s, Move(m)) == Crowd(clock, key, a, m + 1, n)
  {
    var s, row := Crowd(clock, key, a, m, n), Row(key, a.expires, a.entire);
    assert s.table.rows + [row] == Crowd(clock, key, a, m + 1, n).table.rows;
    assert After(w, s, Move(m)).handlers == Crowd(clock, key, a, m + 1, n).handlers;
  }

  lemma {:induction false} CrowdRuns(w: World, clock: int, key: string, a: Answer, m: nat, n: nat)
    returns (actions: seq<Action>)
    requires m <= n
    ensures Run(w, Crowd(clock, key, a, m, n), actions) == Some(Crowd(clock, key, a, n, n))
    decreases n - m
  {
    if m == n {
      actions := [];
    } else {
      CrowdStores(w, clock, key, a, m, n);
      var rest := CrowdRuns(w, clock, key, a, m + 1, n);
      actions := [Move(m)] + rest;
      RunStep(w, Crowd(clock, key, a, m, n), Move(m), rest);
    }
  }

  function With(s: State, id: nat, pc: Pc): State {
    s.(handlers := s.handlers[id := Handler(pc, s.clock)])
  }

  lemma WithTwice(s: State, id: nat, pc: Pc, pc': Pc)
    ensures With(With(s, id, pc), id, pc') == With(s, id, pc')
  {
  }

  lemma WithSpawns(w: World, s: State, id: nat, rest: seq<Action>)
    requires id !in s.handlers && |s.handlers| < w.max
    ensures Run(w, s, [Spawn(id)] + rest) == Run(w, With(s, id, Idle), rest)
  {
    RunStep(w, s, Spawn(id), rest);
  }

  lemma WithReads(w: World, s: State, id: nat, key: string, rest: seq<Action>)
    ensures Run(w, With(s, id, Idle), [Read(id, key)] + rest) == Run(w, With(s, id, Checking(key)), rest)
  {
    RunStep(w, With(s, id, Idle), Read(id, key), rest);
    WithTwice(s, id, Idle, Checking(key));
  }

  /** A move that leaves the table alone. */
  lemma WithMoves(w: World, s: State, id: nat, pc: Pc, pc': Pc, rest: seq<Action>)
    requires pc.Checking? || pc.Fetching?
    requires
      var answer := if pc.Fetching? then Some(w.origin(pc.key, s.clock)) else None;
      pc' == Advance(w.expiry, pc, s.table, s.clock, answer)
    ensures Run(w, With(s, id, pc), [Move(id)] + rest) == Run(w, With(s, id, pc'), rest)
  {
    RunStep(w, With(s, id, pc), Move(id), rest);
    WithTwice(s, id, pc, pc');
  }

  /** One more handler arrives, misses, and has its answer before any other has stored. */
  lemma OneMoreMisses(w: World, s: State, key: string, n: nat, rest: seq<Action>) returns (actions: seq<Action>)
    requires n !in s.handlers && |s.handlers| < w.max && !Has(s.table, key)
    ensures Run(w, s, actions) == Run(w, With(s, n, Storing(key, true, w.origin(key, s.clock))), rest)
  {
    var r1 := [Move(n)] + rest;
    var r2 := [Move(n)] + r1;
    var r3 := [Read(n, key)] + r2;
    actions := [Spawn(n)] + r3;
    WithSpawns(w, s, n, r3);
    WithReads(w, s, n, key, r2);
    WithMoves(w, s, n, Checking(key), Fetching(key, true), r1);
    WithMoves(w, s, n, Fetching(key, true), Storing(key, true, w.origin(key, s.clock)), rest);
  }

  lemma CrowdGrows(clock: int, key: string, a: Answer, n: nat)
    ensures |Crowd(clock, key, a, 0, n).handlers| == n
    ensures With(Crowd(clock, key, a, 0, n), n, Storing(key, true, a)) == Crowd(clock, key, a, 0, n + 1)
  {
    var s := Crowd(clock, key, a, 0, n);
    IdsCard(n);
    assert s.handlers.Keys == Ids(n);
    assert With(s, n, Storing(key, true, a)).handlers == Crowd(clock, key, a, 0, n + 1).handlers;
  }

  lemma {:induction false} CrowdGathers(w: World, clock: int, key: string, n: nat, rest: seq<Action>)
    returns (actions: seq<Action>)
    requires n <= w.max
    ensures Run(w, Start(clock), actions) == Run(w, Crowd(clock, key, w.origin(key, clock), 0, n), rest)
  {
    var a := w.origin(key, clock);
    if n == 0 {
      actions := rest;
      var empty := Crowd(clock, key, a, 0, 0);
      assert empty.handlers == map[] && empty.table.rows == [];
    } else {
      CrowdGrows(clock, key, a, n - 1);
      var last := OneMoreMisses(w, Crowd(clock, key, a, 0, n - 1), key, n - 1, rest);
      actions := CrowdGathers(w, clock, key, n - 1, last);
    }
  }

  lemma {:induction false} CopiesMatch(row: Row, n: nat)
    ensures |Matching(seq(n, _ => row), row.key)| == n
  {
    if n > 0 {
      assert seq(n, _ => row)[1..] == seq(n - 1, _ => row);
      CopiesMatch(row, n - 1);
    }
  }

  /** The bound is exact: some run fills the table with max_connections rows of one key. */
  lemma BoundIsReached(w: World, clock: int, key: string) returns (actions: seq<Action>)
    ensures Run(w, Start(clock), actions).Some?
    ensures
      var end := Run(w, Start(clock), actions).value;
      end.table.Rows? && |Matching(end.table.rows, key)| == w.max
  {
    var a := w.origin(key, clock);
    var last := CrowdRuns(w, clock, key, a, 0, w.max);
    actions := CrowdGathers(w, clock, key, w.max, last);
    CopiesMatch(Row(key, a.expires, a.entire), w.max);
  }

  // ----- The table refines a map -----

  /** The same state, with the table seen as the map that can be read from it. */
  function Abs(s: State): State
    requires s.table.Rows?
  {
    s.(table := Cells(AsMap(s.table.rows)))
  }

  lemma TableRefinesMap(rows: seq<Row>, pc: Pc, key: string)
    ensures Has(Rows(rows), key) == Has(Cells(AsMap(rows)), key)
    ensures First(Rows(rows), key) == First(Cells(AsMap(rows)), key)
    ensures Effect(pc, Rows(rows)).Rows? && Effect(pc, Cells(AsMap(rows))) == Cells(AsMap(Effect(pc, Rows(rows)).rows))
  {
    AsMapIsFirstRow(rows, key);
    if pc.Storing? {
      var row := Row(pc.key, pc.answer.expires, pc.answer.entire);
      InsertIsPutIfAbsent(rows, row);
      UpdateIsPutIfPresent(rows, row);
    }
  }

  lemma StepRefinesMap(w: World, s: State, a: Action)
    requires s.table.Rows?
    ensures Enabled(w, Abs(s), a) == Enabled(w, s, a)
    ensures Enabled(w, s, a) ==> After(w, s, a).table.Rows? && After(w, Abs(s), a) == Abs(After(w, s, a))
  {
    if Enabled(w, s, a) && a.Move? {
      var pc := s.handlers[a.id].pc;
      TableRefinesMap(s.table.rows, pc, if pc.Checking? || pc.Looking? then pc.key else "");
    }
  }

  /**
   * With any number of handlers and duplicate rows, no one can tell the table from a map in
   * which an insert writes only if the key is absent: every run has the same steps, the same
   * handlers and the same responses.
   */
  lemma {:induction false} RunRefinesMap(w: World, s: State, actions: seq<Action>)
    requires s.table.Rows?
    ensures Run(w, Abs(s), actions).Some? == Run(w, s, actions).Some?
    ensures Run(w, s, actions).Some? ==>
              var end := Run(w, s, actions).value;
              end.table.Rows? && Run(w, Abs(s), actions) == Some(Abs(end))
    decreases |actions|
  {
    if actions != [] {
      StepRefinesMap(w, s, actions[0]);
      if Enabled(w, s, actions[0]) {
        RunRefinesMap(w, After(w, s, actions[0]), actions[1..]);
      }
    }
  }

  /** With one handler at a time, keys are unique and every store is a plain map write. */
  lemma SingleHandlerIsMap(w: World, clock: int, actions: seq<Action>, key: string)
    requires w.max == 1 && Run(w, Start(clock), actions).Some?
    ensures
      var end := Run(w, Start(clock), actions).value;
      && end.table.Rows? && |Matching(end.table.rows, key)| <= 1
      && forall id :: id in end.handlers && end.handlers[id].pc.Storing? && end.handlers[id].pc.key == key ==>
           var a := end.handlers[id].pc.answer;
           AsMap(Effect(end.handlers[id].pc, end.table).rows) ==
           AsMap(end.table.rows)[key := Row(key, a.expires, a.entire)]
  {
    var end := Run(w, Start(clock), actions).value;
    RowsBounded(w, Start(clock), actions, key);
    RunKeepsInv(w, Start(clock), actions);
    forall id | id in end.handlers && end.handlers[id].pc.Storing? && end.handlers[id].pc.key == key
      ensures
        var a := end.handlers[id].pc.answer;
        AsMap(Effect(end.handlers[id].pc, end.table).rows) ==
        AsMap(end.table.rows)[key := Row(key, a.expires, a.entire)]
    {
      var pc := end.handlers[id].pc;
      var row := Row(key, pc.answer.expires, pc.answer.entire);
      MatchingIsFirst(end.table.rows, key);
      AsMapIsFirstRow(end.table.rows, key);
      InsertIsPutIfAbsent(end.table.rows, row);
      UpdateIsPutIfPresent(end.table.rows, row);
      if pc.insert {
        assert id in Inserters(end, key);
      }
    }
  }
}
