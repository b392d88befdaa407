/**
 * The whole proxy: connections that open, the clock, and one table under all handlers. Its runs
 * are runs of the cache machine, and each connection in them is a run of onConnect.
 */
module Simulation {
  import opened Wrappers
  import opened Receive
  import opened CacheDb
  import opened ProxyServer
  import opened Joint
  import Coherence
  import M = CacheMachine
  import Q = HttpRequest

  // ----- The proxy -----

  /** The table, the time, every connection there has been, and the responses sent so far. */
  datatype System = System(rows: seq<Row>, clock: int, conns: map<nat, Conn>, served: seq<M.Served>)

  datatype Event = Tick | Open(id: nat, client: seq<Recv>, sends: seq<bool>) | Go(id: nat)

  function Boot(clock: int): System {
    System([], clock, map[], [])
  }

  /** A handler that waits for ever still takes its place. */
  predicate Live(c: Conn) {
    c.task.Ended? ==> c.task.stop == Waits
  }

  function LiveIds(s: System): set<nat> {
    set id | id in s.conns && Live(s.conns[id])
  }

  /** No handler has taken the proxy down. */
  predicate Up(s: System) {
    forall id :: id in s.conns ==> s.conns[id].task != Ended(Aborted)
  }

  predicate Possible(max: nat, s: System, ev: Event) {
    && Up(s)
    && match ev
       case Tick => true
       case Open(id, _, _) => id !in s.conns && |LiveIds(s)| < max
       case Go(id) => id in s.conns && !s.conns[id].task.Ended?
  }

  /** The response, if the step has sent one that answers a request. */
  function Sent(c: Conn, c': Conn, now: int): seq<M.Served> {
    if c.task.Finishing? && c.task.about.Some? && c.task.ending.Reply? && |c'.turns| > 0
       && c'.turns[|c'.turns| - 1].delivered
    then [M.Served(CacheKey(c.task.about.value), c.task.ending.text, c.arrived, now)]
    else []
  }

  function Gone(e: Env, s: System, id: nat): System
    requires id in s.conns
  {
    var c := s.conns[id];
    var (c', rows) := Step(e, c, s.rows, s.clock);
    s.(rows := rows, conns := s.conns[id := c'], served := s.served + Sent(c, c', s.clock))
  }

  function After(e: Env, s: System, ev: Event): System
    requires ev.Go? ==> ev.id in s.conns
  {
    match ev
    case Tick => s.(clock := s.clock + 1)
    case Open(id, client, sends) => s.(conns := s.conns[id := Opened(client, sends, s.clock)])
    case Go(id) => Gone(e, s, id)
  }

  function RunAll(e: Env, max: nat, s: System, events: seq<Event>): Option<System>
    decreases |events|
  {
    if events == [] then Some(s)
    else if Possible(max, s, events[0]) then RunAll(e, max, After(e, s, events[0]), events[1..])
    else None
  }

  ghost predicate AllOk(s: System) {
    forall id :: id in s.conns ==> ConnOk(s.conns[id])
  }

  lemma AfterKeepsOk(e: Env, max: nat, s: System, ev: Event)
    requires AllOk(s) && Possible(max, s, ev)
    ensures AllOk(After(e, s, ev))
  {
    if ev.Go? {
      StepKeepsOk(e, s.conns[ev.id], s.rows, s.clock);
    }
  }

  // ----- The proxy is a cache machine -----

  /** Where a connection stands in the machine. */
  function PcOf(task: Task): M.Pc {
    match task
    case Serving(_, pc) => pc
    case Finishing(Some(request), Reply(body)) => M.Sending(CacheKey(request), body)
    case _ => M.Idle
  }

  function HandlerOf(c: Conn): M.Handler {
    M.Handler(PcOf(c.task), c.arrived)
  }

  function Handlers(s: System): map<nat, M.Handler> {
    map id | id in s.conns && Live(s.conns[id]) :: HandlerOf(s.conns[id])
  }

  function Machine(s: System): M.State {
    M.State(M.Rows(s.rows), s.clock, Handlers(s), s.served)
  }

  lemma HandlersCard(s: System)
    ensures |Handlers(s)| == |LiveIds(s)|
  {
    assert Handlers(s).Keys == LiveIds(s);
  }

  /** A step that leaves the handler in place, at another point. */
  lemma HandlersMove(s: System, id: nat, c: Conn)
    requires id in s.conns && Live(s.conns[id]) && Live(c)
    ensures Handlers(s.(conns := s.conns[id := c])) == Handlers(s)[id := HandlerOf(c)]
  {
  }

  lemma HandlersLeave(s: System, id: nat, c: Conn)
    requires id in s.conns && !Live(c)
    ensures Handlers(s.(conns := s.conns[id := c])) == Handlers(s) - {id}
  {
  }

  lemma RunOne(w: M.World, s: M.State, a: M.Action)
    requires M.Enabled(w, s, a)
    ensures M.Run(w, s, [a]) == Some(M.After(w, s, a))
  {
    assert [a][1..] == [];
  }

  lemma RunTwo(w: M.World, s: M.State, a: M.Action, b: M.Action)
    requires M.Enabled(w, s, a) && M.Enabled(w, M.After(w, s, a), b)
    ensures M.Run(w, s, [a, b]) == Some(M.After(w, M.After(w, s, a), b))
  {
    assert [a, b][1..] == [b];
    RunOne(w, M.After(w, s, a), b);
  }

  lemma {:induction false} RunConcat(w: M.World, s: M.State, a: seq<M.Action>, b: seq<M.Action>)
    requires M.Run(w, s, a).Some?
    ensures M.Run(w, s, a + b) == M.Run(w, M.Run(w, s, a).value, b)
    decreases |a|
  {
    if a == [] {
      assert a + b == b;
    } else {
      assert (a + b)[0] == a[0] && (a + b)[1..] == a[1..] + b;
      RunConcat(w, M.After(w, s, a[0]), a[1..], b);
    }
  }

  /** Reading is the machine's Read if a request came of it, and otherwise nothing. */
  lemma ReadSimulates(w: M.World, s: System, id: nat, c: Conn, asked: Asked, left: seq<Recv>)
    returns (actions: seq<M.Action>)
    requires id in s.conns && s.conns[id].task == Reading
    requires c == ReadStep(s.conns[id], asked, left, s.clock)
    ensures M.Run(w, Machine(s), actions) == Some(Machine(s.(conns := s.conns[id := c])))
  {
    HandlersMove(s, id, c);
    if asked.Asked? {
      actions := [M.Read(id, CacheKey(asked.request))];
      RunOne(w, Machine(s), actions[0]);
    } else {
      actions := [];
      assert Handlers(s)[id := HandlerOf(c)] == Handlers(s);
    }
  }

  /** A step of the cache decision is the machine's Move, and a failed fetch its Abandon. */
  lemma ServeSimulates(w: M.World, e: Env, s: System, id: nat, c: Conn, rows: seq<Row>) returns (actions: seq<M.Action>)
    requires Coherence.Honest(w, e) && M.Inv(w, Machine(s))
    requires id in s.conns && s.conns[id].task.Serving? && ConnOk(s.conns[id])
    requires (c, rows) == ServeStep(e, s.conns[id], s.conns[id].task.request, s.conns[id].task.pc, s.rows, s.clock)
    ensures M.Run(w, Machine(s), actions) == Some(Machine(s.(rows := rows, conns := s.conns[id := c])))
  {
    var pc := s.conns[id].task.pc;
    HandlersMove(s, id, c);
    assert Handlers(s)[id] == HandlerOf(s.conns[id]);
    M.AdvanceIsOk(w, Handlers(s)[id], M.Rows(s.rows), s.clock);
    if pc.Fetching? && !e.remote(pc.key, s.clock).Got? {
      actions := [M.Abandon(id)];
    } else {
      actions := [M.Move(id)];
    }
    RunOne(w, Machine(s), actions[0]);
  }

  /** The end of a turn is the machine's Send if a reply went out; the end of the loop is its Exit. */
  lemma SendSimulates(w: M.World, s: System, id: nat, c: Conn) returns (actions: seq<M.Action>)
    requires id in s.conns && s.conns[id].task.Finishing? && ConnOk(s.conns[id])
    requires c == SendStep(s.conns[id], s.conns[id].task.about, s.conns[id].task.ending, s.clock)
    ensures
      var served := s.served + Sent(s.conns[id], c, s.clock);
      M.Run(w, Machine(s), actions) == Some(Machine(s.(conns := s.conns[id := c], served := served)))
  {
    var now := Machine(s);
    assert now.handlers[id] == HandlerOf(s.conns[id]);
    var sent := Sent(s.conns[id], c, s.clock);
    if sent != [] {
      var idle := M.After(w, now, M.Send(id));
      assert idle.served == s.served + sent;
      if Live(c) {
        HandlersMove(s, id, c);
        actions := [M.Send(id)];
        RunOne(w, now, M.Send(id));
      } else {
        HandlersLeave(s, id, c);
        actions := [M.Send(id), M.Exit(id)];
        RunTwo(w, now, M.Send(id), M.Exit(id));
        assert idle.handlers - {id} == now.handlers - {id};
      }
    } else {
      assert s.served + sent == s.served;
      NothingSent(s.conns[id], c, s.clock);
      if Live(c) {
        HandlersMove(s, id, c);
        actions := [];
        assert now.handlers[id := HandlerOf(c)] == now.handlers;
      } else {
        HandlersLeave(s, id, c);
        actions := [M.Exit(id)];
        RunOne(w, now, M.Exit(id));
      }
    }
  }

  /** A reply that was not delivered ends the handler. */
  lemma NothingSent(c: Conn, c': Conn, now: int)
    requires c.task.Finishing? && ConnOk(c) && c' == SendStep(c, c.task.about, c.task.ending, now)
    requires Sent(c, c', now) == []
    ensures c'.arrived == c.arrived && PcOf(c'.task) == M.Idle
    ensures Live(c') ==> PcOf(c.task) == M.Idle
  {
  }

  /** Every event of the proxy is a few actions of the machine. */
  lemma EventSimulates(w: M.World, e: Env, s: System, ev: Event) returns (actions: seq<M.Action>)
    requires Coherence.Honest(w, e) && M.Inv(w, Machine(s)) && AllOk(s) && Possible(w.max, s, ev)
    ensures M.Run(w, Machine(s), actions) == Some(Machine(After(e, s, ev)))
  {
    match ev
    case Tick =>
      actions := [M.Tick];
      RunOne(w, Machine(s), M.Tick);
    case Open(id, client, sends) =>
      HandlersCard(s);
      actions := [M.Spawn(id)];
      RunOne(w, Machine(s), M.Spawn(id));
      assert Handlers(After(e, s, ev)) == Handlers(s)[id := HandlerOf(Opened(client, sends, s.clock))];
    case Go(id) =>
      actions := StepSimulates(w, e, s, id);
  }

  lemma StepSimulates(w: M.World, e: Env, s: System, id: nat) returns (actions: seq<M.Action>)
    requires Coherence.Honest(w, e) && M.Inv(w, Machine(s)) && AllOk(s)
    requires id in s.conns && !s.conns[id].task.Ended?
    ensures M.Run(w, Machine(s), actions) == Some(Machine(Gone(e, s, id)))
  {
    var c := s.conns[id];
    var (c', rows) := Step(e, c, s.rows, s.clock);
    assert !c.task.Finishing? ==> s.served + Sent(c, c', s.clock) == s.served;
    match c.task {
      case Reading =>
        actions := ReadSimulates(w, s, id, c', GetRequest(c.client).0, GetRequest(c.client).1);
      case Serving(_, _) =>
        actions := ServeSimulates(w, e, s, id, c', rows);
      case Finishing(_, _) =>
        actions := SendSimulates(w, s, id, c');
    }
  }

  /** Every run of the proxy is a run of the machine. */
  lemma {:induction false} RunSimulates(w: M.World, e: Env, s: System, events: seq<Event>)
    returns (end: System, actions: seq<M.Action>)
    requires Coherence.Honest(w, e) && M.Inv(w, Machine(s)) && AllOk(s)
    requires RunAll(e, w.max, s, events).Some?
    ensures RunAll(e, w.max, s, events) == Some(end)
    ensures M.Run(w, Machine(s), actions) == Some(Machine(end))
    ensures M.Inv(w, Machine(end))
    decreases |events|
  {
    if events == [] {
      end, actions := s, [];
    } else {
      var s' := After(e, s, events[0]);
      var first := EventSimulates(w, e, s, events[0]);
      M.RunKeepsInv(w, Machine(s), first);
      AfterKeepsOk(e, w.max, s, events[0]);
      var rest;
      end, rest := RunSimulates(w, e, s', events[1..]);
      RunConcat(w, Machine(s), first, rest);
      actions := first + rest;
    }
  }

  // ----- What this says of onConnect -----

  lemma BootIsStart(w: M.World, clock: int)
    ensures Machine(Boot(clock)) == M.Start(clock) && AllOk(Boot(clock)) && M.Inv(w, M.Start(clock))
  {
    assert Handlers(Boot(clock)) == map[];
  }

  /**
   * Any number of onConnect handlers, at most max_connections at a time, in any interleaving: no
   * more rows of a key than max_connections; every response to a request is unexpired, and what a
   * stable origin would itself have said during the request; and the same responses come from a
   * run over a map in place of the table.
   */
  lemma ProxyIsCoherent(w: M.World, e: Env, clock: int, events: seq<Event>, key: string) returns (end: System)
    requires Coherence.Honest(w, e) && RunAll(e, w.max, Boot(clock), events).Some?
    ensures RunAll(e, w.max, Boot(clock), events) == Some(end)
    ensures |Matching(end.rows, key)| <= w.max
    ensures M.ServedOk(w, end.served)
    ensures M.Stable(w, key) ==> M.TransparentFor(w, Machine(end), key)
    ensures exists actions :: M.Run(w, M.Abs(M.Start(clock)), actions) == Some(M.Abs(Machine(end)))
  {
    BootIsStart(w, clock);
    var actions;
    end, actions := RunSimulates(w, e, Boot(clock), events);
    M.RowsBounded(w, M.Start(clock), actions, key);
    M.RunRefinesMap(w, M.Start(clock), actions);
    if M.Stable(w, key) {
      M.RunIsTransparent(w, M.Start(clock), actions, key);
    }
  }

  // ----- And each connection is onConnect -----

  /** The statement that an event executes, if it does. */
  function WritesOf(s: System, ev: Event): seq<Write> {
    if ev.Go? && ev.id in s.conns && s.conns[ev.id].task.Serving? && s.conns[ev.id].task.pc.Storing? then
      var pc := s.conns[ev.id].task.pc;
      [Write(pc.insert, Row(pc.key, pc.answer.expires, pc.answer.entire))]
    else []
  }

  lemma EventWrites(e: Env, max: nat, s: System, ev: Event)
    requires Possible(max, s, ev)
    ensures After(e, s, ev).rows == PerformAll(s.rows, WritesOf(s, ev))
  {
  }

  lemma {:induction false} PerformMore(rows: seq<Row>, a: seq<Write>, b: seq<Write>)
    ensures PerformAll(rows, a + b) == PerformAll(PerformAll(rows, a), b)
    decreases |a|
  {
    if a == [] {
      assert a + b == b;
    } else {
      assert (a + b)[0] == a[0] && (a + b)[1..] == a[1..] + b;
      PerformMore(Perform(rows, a[0]), a[1..], b);
    }
  }

  /** The interludes of a connection: what the others wrote since its last step, and the time of each. */
  function Seen(e: Env, s: System, events: seq<Event>, id: nat, writes: seq<Write>): seq<Interlude>
    decreases |events|
  {
    if events == [] then []
    else
      var ev := events[0];
      if ev.Go? && ev.id !in s.conns then []
      else if ev == Go(id) then [Interlude(writes, s.clock)] + Seen(e, After(e, s, ev), events[1..], id, [])
      else Seen(e, After(e, s, ev), events[1..], id, writes + WritesOf(s, ev))
  }

  /** What a connection has still to do, and what it has done, when it goes from c to c'. */
  predicate Projects(e: Env, c: Conn, v: View, c': Conn, v': View) {
    && c.turns <= c'.turns && Fits(c', v')
    && Rest(e, c.task, c.since, v) == Prepend(c'.turns[|c.turns|..], Rest(e, c'.task, c'.since, v'))
  }

  lemma ProjectsOn(e: Env, c: Conn, v: View, c1: Conn, v1: View, c2: Conn, v2: View)
    requires Projects(e, c, v, c1, v1) && Projects(e, c1, v1, c2, v2)
    ensures Projects(e, c, v, c2, v2)
  {
    JoinTurns(c.turns, c1.turns, c2.turns, Rest(e, c2.task, c2.since, v2));
  }

  /** The connection's own step, on what it finds after an interlude. */
  lemma OwnStep(e: Env, s: System, id: nat, rows: seq<Row>, now: int, writes: seq<Write>, later: seq<Interlude>)
    requires AllOk(s) && id in s.conns && !s.conns[id].task.Ended? && PerformAll(rows, writes) == s.rows
    ensures
      var s', c := Gone(e, s, id), s.conns[id];
      Projects(e, c, ViewOf(c, rows, [Interlude(writes, s.clock)] + later, now),
               s'.conns[id], ViewOf(s'.conns[id], s'.rows, later, s.clock))
  {
    var c := s.conns[id];
    var before := ViewOf(c, rows, [Interlude(writes, s.clock)] + later, now);
    assert before.interludes[1..] == later;
    var c', v' := StepRests(e, c, before);
  }

  /** A connection in a run, from the table and time of its last step: what it did is what onConnect does. */
  lemma {:induction false} RunProjects(
    e: Env, max: nat, s: System, events: seq<Event>, id: nat, rows: seq<Row>, now: int, writes: seq<Write>)
    returns (end: System, v: View)
    requires RunAll(e, max, s, events).Some? && AllOk(s) && id in s.conns
    requires PerformAll(rows, writes) == s.rows
    ensures RunAll(e, max, s, events) == Some(end) && id in end.conns
    ensures Projects(e, s.conns[id], ViewOf(s.conns[id], rows, Seen(e, s, events, id, writes), now), end.conns[id], v)
    decreases |events|
  {
    if events == [] {
      end, v := s, ViewOf(s.conns[id], rows, [], now);
    } else {
      var ev := events[0];
      var s' := After(e, s, ev);
      AfterKeepsOk(e, max, s, ev);
      EventWrites(e, max, s, ev);
      if ev == Go(id) {
        var later := Seen(e, s', events[1..], id, []);
        OwnStep(e, s, id, rows, now, writes, later);
        end, v := RunProjects(e, max, s', events[1..], id, s'.rows, s.clock, []);
        ProjectsOn(e, s.conns[id], ViewOf(s.conns[id], rows, [Interlude(writes, s.clock)] + later, now),
                   s'.conns[id], ViewOf(s'.conns[id], s'.rows, later, s.clock), end.conns[id], v);
      } else {
        PerformMore(rows, writes, WritesOf(s, ev));
        end, v := RunProjects(e, max, s', events[1..], id, rows, now, writes + WritesOf(s, ev));
      }
    }
  }

  lemma JoinTurns(a: seq<Turn>, b: seq<Turn>, c: seq<Turn>, s: Session)
    requires a <= b <= c
    ensures Prepend(b[|a|..], Prepend(c[|b|..], s)) == Prepend(c[|a|..], s)
  {
    assert b[|a|..] + c[|b|..] == c[|a|..];
    PrependPrepend(b[|a|..], c[|b|..], s);
  }

  /**
   * A connection of any run of the proxy that has come to its end: its turns, the bytes it sent and
   * the way it ended are those of onConnect among the interludes that the run gave it.
   */
  lemma EveryConnectionIsOnConnect(
    e: Env, max: nat, s: System, events: seq<Event>, id: nat, client: seq<Recv>, sends: seq<bool>)
    returns (end: System)
    requires AllOk(s) && Possible(max, s, Open(id, client, sends))
    requires RunAll(e, max, After(e, s, Open(id, client, sends)), events).Some?
    ensures RunAll(e, max, After(e, s, Open(id, client, sends)), events) == Some(end) && id in end.conns
    ensures end.conns[id].task.Ended? ==>
              var seen := Seen(e, After(e, s, Open(id, client, sends)), events, id, []);
              var session := Connect(e, View(client, s.rows, seen, s.clock, sends, []));
              && session.turns == end.conns[id].turns
              && session.view.sent == end.conns[id].sent
              && session.stop == end.conns[id].task.stop
  {
    var s' := After(e, s, Open(id, client, sends));
    AfterKeepsOk(e, max, s, Open(id, client, sends));
    var v;
    end, v := RunProjects(e, max, s', events, id, s.rows, s.clock, []);
    assert end.conns[id].turns[0..] == end.conns[id].turns;
  }
}
