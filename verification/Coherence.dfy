/**
 * onConnect among other handlers: whatever genuine rows they write between its steps, each
 * response that it sends is an answer of the origin that had not expired, and its own writes
 * are again genuine rows.
 */
module Coherence {
  import opened Wrappers
  import opened HeaderList
  import opened Receive
  import opened CacheDb
  import opened ProxyServer
  import Connection
  import Framing
  import M = CacheMachine
  import P = ProxyServerClient
  import Q = HttpRequest

  // ----- What a handler relies on -----

  /** Fetching a key at a time gives the origin's answer of that time, if it gives an answer. */
  ghost predicate Honest(w: M.World, e: Env) {
    && e.expiry == w.expiry
    && forall key, t :: e.remote(key, t).Got? ==>
         && w.origin(key, t).entire == e.remote(key, t).resp.entire
         && w.origin(key, t).expires == Lookup(e.remote(key, t).resp.header.headers, "Expires")
  }

  ghost predicate NoCrash(e: Env) {
    forall key, t :: e.remote(key, t) != P.Crash
  }

  /** What fetching does is what getHttpResponse does, and that never crashes. */
  lemma FaithfulNeverCrashes(h: Handler)
    requires h.Faithful()
    ensures NoCrash(h.env)
  {
    forall key, t
      ensures h.env.remote(key, t) != P.Crash
    {
      var link, fetched := h.RemoteIs(key, t);
      P.FetchNeverCrashes(link.script);
    }
  }

  /** The clock does not go back, and every row written by others is an answer of the origin. */
  ghost predicate Rely(w: M.World, now: int, interludes: seq<Interlude>)
    decreases |interludes|
  {
    interludes == [] ||
    (&& now <= interludes[0].now
     && (forall i :: 0 <= i < |interludes[0].writes| ==> M.Genuine(w, interludes[0].writes[i].row, interludes[0].now))
     && Rely(w, interludes[0].now, interludes[1..]))
  }

  ghost predicate Sound(w: M.World, v: View) {
    M.GenuineTable(w, M.Rows(v.rows), v.now) && Rely(w, v.now, v.interludes)
  }

  /** Time has passed, and no key is lost. */
  ghost predicate Later(v: View, v': View) {
    v.now <= v'.now && forall key :: HasRow(v.rows, key) ==> HasRow(v'.rows, key)
  }

  lemma PerformKeeps(w: M.World, rows: seq<Row>, write: Write, now: int)
    requires M.GenuineTable(w, M.Rows(rows), now) && M.Genuine(w, write.row, now)
    ensures M.GenuineTable(w, M.Rows(Perform(rows, write)), now)
    ensures forall key :: HasRow(rows, key) ==> HasRow(Perform(rows, write), key)
  {
    var pc := M.Storing(write.row.key, write.insert, M.Answer(write.row.expire, write.row.resp));
    assert M.Effect(pc, M.Rows(rows)) == M.Rows(Perform(rows, write));
    M.EffectStaysGenuine(w, pc, M.Rows(rows), now);
    forall key | HasRow(rows, key)
      ensures HasRow(Perform(rows, write), key)
    {
      M.EffectKeepsKeys(pc, M.Rows(rows), key);
    }
  }

  lemma {:induction false} PerformAllKeeps(w: M.World, rows: seq<Row>, writes: seq<Write>, now: int)
    requires M.GenuineTable(w, M.Rows(rows), now)
    requires forall i :: 0 <= i < |writes| ==> M.Genuine(w, writes[i].row, now)
    ensures M.GenuineTable(w, M.Rows(PerformAll(rows, writes)), now)
    ensures forall key :: HasRow(rows, key) ==> HasRow(PerformAll(rows, writes), key)
    decreases |writes|
  {
    if writes != [] {
      PerformKeeps(w, rows, writes[0], now);
      PerformAllKeeps(w, Perform(rows, writes[0]), writes[1..], now);
    }
  }

  lemma PassIsSound(w: M.World, v: View)
    requires Sound(w, v)
    ensures Sound(w, Pass(v)) && Later(v, Pass(v))
  {
    if v.interludes != [] {
      PerformAllKeeps(w, v.rows, v.interludes[0].writes, v.interludes[0].now);
    }
  }

  ghost predicate PcOk(w: M.World, v: View, pc: M.Pc, since: int) {
    M.HandlerOk(w, M.Handler(pc, since), M.Rows(v.rows), v.now)
  }

  lemma PcStaysOk(w: M.World, v: View, v': View, pc: M.Pc, since: int)
    requires PcOk(w, v, pc, since) && Later(v, v')
    ensures PcOk(w, v', pc, since)
  {
    M.HandlerStaysOk(w, M.Handler(pc, since), M.Rows(v.rows), M.Rows(v'.rows), v.now, v'.now);
  }

  /** A statement or a clock reading, on the table and at the time of the view. */
  lemma StepIsSound(w: M.World, v: View, pc: M.Pc, since: int) returns (pc': M.Pc, v': View)
    requires Sound(w, v) && PcOk(w, v, pc, since)
    ensures
      var answer := if pc.Fetching? then Some(w.origin(pc.key, v.now)) else None;
      pc' == M.Advance(w.expiry, pc, M.Rows(v.rows), v.now, answer)
    ensures M.Effect(pc, M.Rows(v.rows)).Rows? && v' == v.(rows := M.Effect(pc, M.Rows(v.rows)).rows)
    ensures Sound(w, v') && Later(v, v') && PcOk(w, v', pc', since)
  {
    var answer := if pc.Fetching? then Some(w.origin(pc.key, v.now)) else None;
    pc' := M.Advance(w.expiry, pc, M.Rows(v.rows), v.now, answer);
    v' := v.(rows := M.Effect(pc, M.Rows(v.rows)).rows);
    M.AdvanceIsOk(w, M.Handler(pc, since), M.Rows(v.rows), v.now);
    M.EffectStaysGenuine(w, pc, M.Rows(v.rows), v.now);
    forall key | HasRow(v.rows, key)
      ensures HasRow(v'.rows, key)
    {
      M.EffectKeepsKeys(pc, M.Rows(v.rows), key);
    }
  }

  // ----- What a handler guarantees -----

  function KeyOf(pc: M.Pc): string {
    match pc
    case Idle => ""
    case Failed => ""
    case _ => pc.key
  }

  /** A response is unexpired, and nothing crashes. */
  ghost predicate EndingOk(w: M.World, key: string, ending: Ending, since: int, now: int) {
    && ending != Crashed
    && (ending.Reply? ==> M.Unexpired(w, key, ending.text, since, now))
  }

  lemma {:induction false} ServeIsSound(w: M.World, e: Env, v0: View, pc: M.Pc, since: int)
    requires Honest(w, e) && NoCrash(e)
    requires Sound(w, v0) && PcOk(w, v0, pc, since)
    ensures
      var (ending, v') := Serve(e, v0, pc);
      && Sound(w, v') && Later(v0, v')
      && EndingOk(w, KeyOf(pc), ending, since, v'.now)
    decreases Rank(pc)
  {
    var v := Pass(v0);
    PassIsSound(w, v0);
    PcStaysOk(w, v0, v, pc, since);
    if pc.Sending? || pc.Idle? || pc.Failed? {
      ServeEnds(e, v0, pc);
    } else if pc.Fetching? && !e.remote(pc.key, v.now).Got? {
    } else {
      var pc', v' := StepIsSound(w, v, pc, since);
      assert Serve(e, v0, pc) == Serve(e, v', pc');
      ServeIsSound(w, e, v', pc', since);
    }
  }

  /** A turn that read a request does not crash, and its response was unexpired while it lasted. */
  ghost predicate TurnOk(w: M.World, turn: Turn) {
    && turn.since <= turn.at
    && (turn.request.None? ==> !turn.ending.Reply?)
    && (turn.request.Some? ==> EndingOk(w, CacheKey(turn.request.value), turn.ending, turn.since, turn.at))
  }

  lemma UnexpiredLater(w: M.World, key: string, ending: Ending, since: int, now: int, now': int)
    requires EndingOk(w, key, ending, since, now) && now <= now'
    ensures EndingOk(w, key, ending, since, now')
  {
  }

  lemma FinishIsSound(w: M.World, request: Option<Q.Request>, ending: Ending, since: int, v: View)
    requires Sound(w, v) && since <= v.now
    requires request.Some? ==> EndingOk(w, CacheKey(request.value), ending, since, v.now)
    requires request.None? ==> !ending.Reply?
    ensures
      var (turn, v') := FinishTurn(request, ending, since, v);
      TurnOk(w, turn) && Sound(w, v')
  {
    PassIsSound(w, v);
    if request.Some? {
      UnexpiredLater(w, CacheKey(request.value), ending, since, v.now, Pass(v).now);
    }
  }

  lemma TurnIsSound(w: M.World, e: Env, v: View, asked: Asked)
    requires Honest(w, e) && NoCrash(e) && Sound(w, v)
    ensures
      var (turn, v') := TurnOn(e, v, asked);
      TurnOk(w, turn) && Sound(w, v')
  {
    match asked
    case Lost => FinishIsSound(w, None, Down, v.now, v);
    case Mute => FinishIsSound(w, None, Silent, v.now, v);
    case Fatal => FinishIsSound(w, None, Crashed, v.now, v);
    case Refused(text) => FinishIsSound(w, None, Apology(text), v.now, v);
    case Asked(request) =>
      var pc := M.Checking(CacheKey(request));
      ServeIsSound(w, e, v, pc, v.now);
      var (ending, v') := Serve(e, v, pc);
      FinishIsSound(w, Some(request), ending, v.now, v');
  }

  ghost predicate AllTurnsOk(w: M.World, turns: seq<Turn>) {
    forall i :: 0 <= i < |turns| ==> TurnOk(w, turns[i])
  }

  /**
   * Over every run of onConnect, among handlers that write nothing but answers of the origin:
   * each response is the origin's answer to that request's key, unexpired at some instant
   * between the request and the response; the table is left genuine; and no request that was
   * read crashes the handler, so getCache never misses the row that was counted.
   */
  lemma {:induction false} ConnectIsSound(w: M.World, e: Env, v: View)
    requires Honest(w, e) && NoCrash(e) && Sound(w, v)
    ensures AllTurnsOk(w, Connect(e, v).turns) && Sound(w, Connect(e, v).view)
    decreases |v.client|
  {
    var asked, left := ReadConsumes(Pass(v).client);
    PassIsSound(w, v);
    TurnIsSound(w, e, Pass(v).(client := left), asked);
    var turn, v' := OneTurn(e, v).0, OneTurn(e, v).1;
    var rest := ConnectStep(e, v, turn, v');
    if Verdict(turn).None? {
      ConnectIsSound(w, e, v');
    }
  }

  /** With an origin that keeps its answers until they expire, the client cannot tell it from the cache. */
  lemma ConnectIsTransparent(w: M.World, e: Env, v: View, i: nat)
    requires Honest(w, e) && NoCrash(e) && Sound(w, v)
    requires i < |Connect(e, v).turns|
    requires Connect(e, v).turns[i].ending.Reply?
    ensures
      var turn := Connect(e, v).turns[i];
      && turn.request.Some?
      && var key := CacheKey(turn.request.value);
         M.Stable(w, key) ==> M.Transparent(w, M.Served(key, turn.ending.text, turn.since, turn.at))
  {
    ConnectIsSound(w, e, v);
    var turn := Connect(e, v).turns[i];
    assert TurnOk(w, turn);
    var key := CacheKey(turn.request.value);
    var t, u :| M.ValidAt(w, key, turn.ending.text, t, u) && turn.since <= u <= turn.at;
    assert M.Stable(w, key) ==> w.origin(key, u).entire == turn.ending.text;
  }

  // ----- When the whole proxy crashes -----

  /**
   * onConnect takes the proxy down exactly when the last reading brought bytes that crash it, or
   * an error response could not be sent: no answer of an origin and nothing in the table does.
   */
  lemma AbortedIff(w: M.World, e: Env, v: View) returns (turns: seq<Turn>, stop: Stop, fatal: bool)
    requires Honest(w, e) && NoCrash(e) && Sound(w, v)
    ensures turns == Connect(e, v).turns && stop == Connect(e, v).stop && turns != []
    ensures fatal == Connection.FatalBytes(Until(Connection.ScriptAt(v.client, |turns| - 1), "", Framing.BLANK))
    ensures
      var last := turns[|turns| - 1];
      stop == Aborted <==> fatal || (last.ending.Apology? && !last.delivered)
  {
    turns, stop := TurnsAndStop(w, e, v);
    fatal := AbortOf(w, v.client, turns, stop);
  }

  lemma AbortOf(w: M.World, script: seq<Recv>, turns: seq<Turn>, stop: Stop) returns (fatal: bool)
    requires turns != [] && Connection.InOrder(script, turns) && AllTurnsOk(w, turns)
    requires Verdict(turns[|turns| - 1]) == Some(stop)
    ensures fatal == Connection.FatalBytes(Until(Connection.ScriptAt(script, |turns| - 1), "", Framing.BLANK))
    ensures
      var last := turns[|turns| - 1];
      stop == Aborted <==> fatal || (last.ending.Apology? && !last.delivered)
  {
    fatal := LastCrash(w, script, turns, |turns| - 1);
    AbortVerdict(turns[|turns| - 1], stop);
  }

  lemma AbortVerdict(turn: Turn, stop: Stop)
    requires Verdict(turn) == Some(stop)
    ensures stop == Aborted <==> turn.ending == Crashed || (turn.ending.Apology? && !turn.delivered)
  {
  }

  lemma TurnsAndStop(w: M.World, e: Env, v: View) returns (turns: seq<Turn>, stop: Stop)
    requires Honest(w, e) && NoCrash(e) && Sound(w, v)
    ensures turns == Connect(e, v).turns && stop == Connect(e, v).stop && turns != []
    ensures Connection.InOrder(v.client, turns) && AllTurnsOk(w, turns)
    ensures Verdict(turns[|turns| - 1]) == Some(stop)
  {
    ConnectIsSound(w, e, v);
    Connection.LastVerdict(e, v);
    Connection.ConversationIsInOrder(e, v);
    turns, stop := Connect(e, v).turns, Connect(e, v).stop;
  }

  /** A turn ends in a crash exactly when the bytes read for it are such bytes. */
  lemma LastCrash(w: M.World, script: seq<Recv>, turns: seq<Turn>, i: nat) returns (fatal: bool)
    requires Connection.InOrder(script, turns) && i < |turns| && TurnOk(w, turns[i])
    ensures fatal == Connection.FatalBytes(Until(Connection.ScriptAt(script, i), "", Framing.BLANK))
    ensures turns[i].ending == Crashed <==> fatal
  {
    fatal := Connection.FatalBytes(Until(Connection.ScriptAt(script, i), "", Framing.BLANK));
    Connection.InOrderAt(script, turns, i);
    Connection.FatalIff(Connection.ScriptAt(script, i));
    CrashIsFatal(w, Connection.AskedAt(script, i), turns[i]);
  }

  lemma CrashIsFatal(w: M.World, asked: Asked, turn: Turn)
    requires Connection.Answers(asked, turn) && TurnOk(w, turn)
    ensures turn.ending == Crashed <==> asked == Fatal
  {
  }

  // ----- When the origin is asked -----

  /** The view when n steps have passed in which only others acted. */
  function Others(v: View, n: nat): View {
    if n == 0 then v else Pass(Others(v, n - 1))
  }

  /** The row that a handler gets to read, if one was counted. */
  function RowRead(v: View, key: string): Option<Row> {
    if HasRow(Others(v, 1).rows, key) then FirstRow(Others(v, 2).rows, key) else None
  }

  /** There was a row, and it had not expired when the clock was read. */
  predicate Usable(e: Env, v: View, key: string) {
    RowRead(v, key).Some? && Others(v, 3).now <= e.expiry(RowRead(v, key).value.expire)
  }

  /** Others acted for n steps, and then the handler put one row in the table. */
  predicate OneStatement(w: M.World, v: View, v': View, write: Write, n: nat, t: int) {
    var key, a := write.row.key, w.origin(write.row.key, t);
    && write.row == Row(key, a.expires, a.entire)
    && v.now <= t <= v'.now
    && v' == Others(v, n).(rows := Perform(Others(v, n).rows, write))
  }

  /** A reply was fetched during the request and kept by one statement; anything else left no trace. */
  ghost predicate Fetched(w: M.World, v: View, key: string, insert: bool, ending: Ending, v': View) {
    if ending.Reply? then
      exists row, n: nat, t ::
        OneStatement(w, v, v', Write(insert, row), n, t) && row.key == key && row.resp == ending.text
    else OnlyOthers(v, v')
  }

  ghost predicate OnlyOthers(v: View, v': View) {
    exists n: nat :: v' == Others(v, n)
  }

  /**
   * The handler writes nothing of its own and replies with the row it read exactly when that row
   * was there and unexpired. Otherwise a reply is an answer that the origin gave during the
   * request, and the handler has executed one single statement, with that answer: an insert if no
   * row was counted, else an update. Without a reply it has executed none.
   */
  lemma CacheDecision(w: M.World, e: Env, v: View, key: string)
    requires Honest(w, e) && Sound(w, v)
    ensures
      var (ending, v') := Serve(e, v, M.Checking(key));
      if Usable(e, v, key) then
        var row := RowRead(v, key).value;
        row in Others(v, 2).rows && row.key == key && ending == Reply(row.resp) && v' == Others(v, 3)
      else Fetched(w, v, key, !HasRow(Others(v, 1).rows, key), ending, v')
  {
    ReachDecision(w, e, v, key);
    if Usable(e, v, key) {
      var i := FirstRowIsFirst(Others(v, 2).rows, key);
    } else {
      var insert := !HasRow(Others(v, 1).rows, key);
      FetchDecision(w, e, v, if insert then 1 else 3, key, insert);
    }
  }

  /** How far a request gets without fetching. */
  lemma ReachDecision(w: M.World, e: Env, v: View, key: string)
    requires Sound(w, v)
    ensures Usable(e, v, key) ==>
              && HasRow(Others(v, 2).rows, key)
              && Serve(e, v, M.Checking(key)) == (Reply(RowRead(v, key).value.resp), Others(v, 3))
    ensures !Usable(e, v, key) ==>
              var insert := !HasRow(Others(v, 1).rows, key);
              Serve(e, v, M.Checking(key)) == Serve(e, Others(v, if insert then 1 else 3), M.Fetching(key, insert))
  {
    ServeChecking(e, v, key);
    assert Others(v, 1) == Pass(v);
    if HasRow(Others(v, 1).rows, key) {
      RowStays(w, v, key);
      var i := FirstRowIsFirst(Others(v, 2).rows, key);
      ServeLooking(e, Others(v, 1), key);
      LastLook(e, v, key, Others(v, 2).rows[i]);
    }
  }

  lemma LastLook(e: Env, v: View, key: string, row: Row)
    ensures Serve(e, Others(v, 2), M.Timing(key, row)) ==
            if Others(v, 3).now <= e.expiry(row.expire) then (Reply(row.resp), Others(v, 3))
            else Serve(e, Others(v, 3), M.Fetching(key, false))
  {
    ServeTiming(e, Others(v, 2), key, row);
    ServeEnds(e, Others(v, 3), M.Sending(key, row.resp));
  }

  lemma {:induction false} OthersAreSound(w: M.World, v: View, n: nat)
    requires Sound(w, v)
    ensures Sound(w, Others(v, n)) && Later(v, Others(v, n))
  {
    if n > 0 {
      OthersAreSound(w, v, n - 1);
      PassIsSound(w, Others(v, n - 1));
    }
  }

  lemma RowStays(w: M.World, v: View, key: string)
    requires Sound(w, v) && HasRow(Others(v, 1).rows, key)
    ensures HasRow(Others(v, 2).rows, key)
  {
    OthersAreSound(w, v, 1);
    PassIsSound(w, Others(v, 1));
  }

  lemma FetchDecision(w: M.World, e: Env, v: View, n: nat, key: string, insert: bool)
    requires Honest(w, e) && Sound(w, v)
    ensures
      var (ending, v') := Serve(e, Others(v, n), M.Fetching(key, insert));
      Fetched(w, v, key, insert, ending, v')
  {
    var during, after := Others(v, n + 1), Others(v, n + 2);
    OthersAreSound(w, v, n + 1);
    PassIsSound(w, during);
    ServeFetching(e, Others(v, n), key, insert);
    var fetched := e.remote(key, during.now);
    if fetched.Got? {
      var a := AnswerOf(fetched.resp);
      ServeStoring(e, during, M.Storing(key, insert, a));
      var write := Write(insert, Row(key, a.expires, a.entire));
      assert OneStatement(w, v, after.(rows := Perform(after.rows, write)), write, n + 2, during.now);
    }
  }
}
