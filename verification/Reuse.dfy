/**
 * What one request leaves in the cache is what the next one finds: two requests of a connection
 * for the same key, among handlers that do not write that key.
 */
module Reuse {
  import opened Wrappers
  import opened CacheDb
  import opened ProxyServer
  import M = CacheMachine
  import Q = HttpRequest

  // ----- A key that others leave alone -----

  predicate NotWritten(writes: seq<Write>, key: string) {
    forall i :: 0 <= i < |writes| ==> writes[i].row.key != key
  }

  /** The clock does not go back, and no one else writes the key. */
  predicate Quiet(now: int, interludes: seq<Interlude>, key: string)
    decreases |interludes|
  {
    interludes == [] ||
    (&& now <= interludes[0].now
     && NotWritten(interludes[0].writes, key)
     && Quiet(interludes[0].now, interludes[1..], key))
  }

  predicate QuietView(v: View, key: string) {
    Quiet(v.now, v.interludes, key)
  }

  lemma InsertedReads(rows: seq<Row>, row: Row, key: string)
    ensures FirstRow(Inserted(rows, row), key) ==
            if key == row.key && !HasRow(rows, key) then Some(row) else FirstRow(rows, key)
  {
    InsertIsPutIfAbsent(rows, row);
    AsMapIsFirstRow(rows, key);
    AsMapIsFirstRow(Inserted(rows, row), key);
  }

  lemma UpdatedReads(rows: seq<Row>, row: Row, key: string)
    ensures FirstRow(Updated(rows, row), key) ==
            if key == row.key && HasRow(rows, key) then Some(row) else FirstRow(rows, key)
  {
    UpdateIsPutIfPresent(rows, row);
    AsMapIsFirstRow(rows, key);
    AsMapIsFirstRow(Updated(rows, row), key);
  }

  lemma {:induction false} OthersLeave(rows: seq<Row>, writes: seq<Write>, key: string)
    requires NotWritten(writes, key)
    ensures FirstRow(PerformAll(rows, writes), key) == FirstRow(rows, key)
    decreases |writes|
  {
    if writes != [] {
      InsertedReads(rows, writes[0].row, key);
      UpdatedReads(rows, writes[0].row, key);
      OthersLeave(Perform(rows, writes[0]), writes[1..], key);
    }
  }

  lemma PassLeaves(v: View, key: string)
    requires QuietView(v, key)
    ensures QuietView(Pass(v), key) && v.now <= Pass(v).now
    ensures FirstRow(Pass(v).rows, key) == FirstRow(v.rows, key)
  {
    if v.interludes != [] {
      OthersLeave(v.rows, v.interludes[0].writes, key);
    }
  }

  lemma ReadsWhatIsThere(rows: seq<Row>, key: string)
    ensures FirstRow(rows, key).Some? <==> HasRow(rows, key)
  {
    AsMapIsFirstRow(rows, key);
  }

  // ----- One request -----

  /** The key that a handler is busy with. */
  predicate About(pc: M.Pc, key: string) {
    !pc.Idle? && !pc.Failed? && pc.key == key
  }

  /** What a handler has in hand agrees with the table, as far as the key goes. */
  predicate InHand(rows: seq<Row>, pc: M.Pc, key: string) {
    var read := FirstRow(rows, key);
    About(pc, key) ==>
      match pc
      case Looking(_) => read.Some?
      case Timing(_, row) => read == Some(row)
      case Fetching(_, insert) => insert <==> read.None?
      case Storing(_, insert, _) => insert <==> read.None?
      case Sending(_, body) => read.Some? && read.value.resp == body
      case _ => true
  }

  lemma NextInHand(e: Env, v: View, pc: M.Pc, key: string)
    requires InHand(v.rows, pc, key) && Next(e, v, pc).Some?
    ensures
      var (pc', v') := Next(e, v, pc).value;
      InHand(v'.rows, pc', key) && (About(pc', key) <==> About(pc, key) && !pc'.Failed?)
    ensures !About(pc, key) ==> FirstRow(Next(e, v, pc).value.1.rows, key) == FirstRow(v.rows, key)
  {
    ReadsWhatIsThere(v.rows, key);
    if pc.Storing? {
      var row := Row(pc.key, pc.answer.expires, pc.answer.entire);
      InsertedReads(v.rows, row, key);
      UpdatedReads(v.rows, row, key);
    }
  }

  /** After a reply, the row read for its key holds exactly what was sent. */
  lemma {:induction false} ReplyIsKept(e: Env, v: View, pc: M.Pc, key: string)
    requires QuietView(v, key) && InHand(v.rows, pc, key)
    ensures
      var (ending, v') := Serve(e, v, pc);
      && QuietView(v', key) && v.now <= v'.now
      && (About(pc, key) && ending.Reply? ==>
            FirstRow(v'.rows, key).Some? && FirstRow(v'.rows, key).value.resp == ending.text)
    decreases Rank(pc)
  {
    PassLeaves(v, key);
    ServeNext(e, v, pc);
    if Next(e, Pass(v), pc).Some? {
      var (pc', v') := Next(e, Pass(v), pc).value;
      NextInHand(e, Pass(v), pc, key);
      ReplyIsKept(e, v', pc', key);
    }
  }

  // ----- A row and its lifetime -----

  /** The row is what is read for the key, or its time is over. */
  predicate Lasts(e: Env, v: View, row: Row) {
    e.expiry(row.expire) < v.now || FirstRow(v.rows, row.key) == Some(row)
  }

  /** A handler at work on the key does not replace the row before its time is over. */
  predicate Spares(e: Env, v: View, pc: M.Pc, row: Row) {
    e.expiry(row.expire) < v.now || !(About(pc, row.key) && (pc.Fetching? || pc.Storing?))
  }

  lemma NextSpares(e: Env, v: View, pc: M.Pc, row: Row)
    requires Lasts(e, v, row) && Spares(e, v, pc, row) && InHand(v.rows, pc, row.key) && Next(e, v, pc).Some?
    ensures
      var (pc', v') := Next(e, v, pc).value;
      v'.now == v.now && v'.interludes == v.interludes && Lasts(e, v', row) && Spares(e, v', pc', row)
  {
    ReadsWhatIsThere(v.rows, row.key);
    if pc.Storing? {
      var stored := Row(pc.key, pc.answer.expires, pc.answer.entire);
      InsertedReads(v.rows, stored, row.key);
      UpdatedReads(v.rows, stored, row.key);
    }
  }

  /** Before its time is over the row stays, and a request for its key is answered with it. */
  lemma {:induction false} ServeSpares(e: Env, v: View, pc: M.Pc, row: Row)
    requires QuietView(v, row.key) && Lasts(e, v, row) && Spares(e, v, pc, row) && InHand(v.rows, pc, row.key)
    ensures
      var (ending, v') := Serve(e, v, pc);
      && Lasts(e, v', row)
      && (About(pc, row.key) && ending.Reply? && v'.now <= e.expiry(row.expire) ==> ending.text == row.resp)
    decreases Rank(pc)
  {
    PassLeaves(v, row.key);
    ServeNext(e, v, pc);
    ReplyIsKept(e, v, pc, row.key);
    if Next(e, Pass(v), pc).Some? {
      var (pc', v') := Next(e, Pass(v), pc).value;
      NextInHand(e, Pass(v), pc, row.key);
      NextSpares(e, Pass(v), pc, row);
      ServeSpares(e, v', pc', row);
    }
  }

  // ----- A whole connection -----

  predicate RepliesFor(turn: Turn, key: string) {
    turn.request.Some? && CacheKey(turn.request.value) == key && turn.ending.Reply?
  }

  /** The turn, if it is a reply for the row's key before its time is over, is the row. */
  predicate Repeats(e: Env, turn: Turn, row: Row) {
    RepliesFor(turn, row.key) && turn.at <= e.expiry(row.expire) ==> turn.ending.text == row.resp
  }

  lemma FinishLeaves(request: Option<Q.Request>, ending: Ending, since: int, v: View, key: string)
    requires QuietView(v, key)
    ensures
      var (turn, v') := FinishTurn(request, ending, since, v);
      && QuietView(v', key) && v.now <= v'.now && FirstRow(v'.rows, key) == FirstRow(v.rows, key)
      && turn.request == request && turn.ending == ending && turn.at == v'.now
  {
    PassLeaves(v, key);
  }

  /** A turn keeps a row that lasts, and leaves a row with what it replied. */
  lemma TurnKeeps(e: Env, v: View, asked: Asked, key: string)
    requires QuietView(v, key)
    ensures
      var (turn, v') := TurnOn(e, v, asked);
      && QuietView(v', key)
      && (RepliesFor(turn, key) ==>
            FirstRow(v'.rows, key).Some? && FirstRow(v'.rows, key).value.resp == turn.ending.text)
  {
    match asked
    case Lost => FinishLeaves(None, Down, v.now, v, key);
    case Mute => FinishLeaves(None, Silent, v.now, v, key);
    case Fatal => FinishLeaves(None, Crashed, v.now, v, key);
    case Refused(text) => FinishLeaves(None, Apology(text), v.now, v, key);
    case Asked(request) =>
      var pc := M.Checking(CacheKey(request));
      ReplyIsKept(e, v, pc, key);
      FinishLeaves(Some(request), Serve(e, v, pc).0, v.now, Serve(e, v, pc).1, key);
  }

  lemma TurnSpares(e: Env, v: View, asked: Asked, row: Row)
    requires QuietView(v, row.key) && Lasts(e, v, row)
    ensures Lasts(e, TurnOn(e, v, asked).1, row) && Repeats(e, TurnOn(e, v, asked).0, row)
  {
    match asked
    case Lost => FinishLeaves(None, Down, v.now, v, row.key);
    case Mute => FinishLeaves(None, Silent, v.now, v, row.key);
    case Fatal => FinishLeaves(None, Crashed, v.now, v, row.key);
    case Refused(text) => FinishLeaves(None, Apology(text), v.now, v, row.key);
    case Asked(request) =>
      var pc := M.Checking(CacheKey(request));
      ReplyIsKept(e, v, pc, row.key);
      ServeSpares(e, v, pc, row);
      FinishLeaves(Some(request), Serve(e, v, pc).0, v.now, Serve(e, v, pc).1, row.key);
  }

  lemma OneTurnKeeps(e: Env, v: View, key: string) returns (turn: Turn, v': View)
    requires QuietView(v, key)
    ensures (turn, v') == OneTurn(e, v) && QuietView(v', key)
    ensures RepliesFor(turn, key) ==>
              FirstRow(v'.rows, key).Some? && FirstRow(v'.rows, key).value.resp == turn.ending.text
    ensures forall row: Row | row.key == key && Lasts(e, v, row) :: Lasts(e, v', row) && Repeats(e, turn, row)
  {
    var asked, left := ReadConsumes(Pass(v).client);
    PassLeaves(v, key);
    var read := Pass(v).(client := left);
    TurnKeeps(e, read, asked, key);
    turn, v' := OneTurn(e, v).0, OneTurn(e, v).1;
    forall row: Row | row.key == key && Lasts(e, v, row)
      ensures Lasts(e, v', row) && Repeats(e, turn, row)
    {
      TurnSpares(e, read, asked, row);
    }
  }

  predicate AllRepeat(e: Env, turns: seq<Turn>, row: Row) {
    forall j :: 0 <= j < |turns| ==> Repeats(e, turns[j], row)
  }

  lemma AllRepeatCons(e: Env, turn: Turn, rest: seq<Turn>, row: Row)
    requires Repeats(e, turn, row) && AllRepeat(e, rest, row)
    ensures AllRepeat(e, [turn] + rest, row)
  {
  }

  /** Over a whole run a row is repeated until its time is over. */
  lemma {:induction false} ConnectRepeats(e: Env, v: View, row: Row)
    requires QuietView(v, row.key) && Lasts(e, v, row)
    ensures AllRepeat(e, Connect(e, v).turns, row)
    decreases |v.client|
  {
    var turn, v' := OneTurnKeeps(e, v, row.key);
    var rest := ConnectStep(e, v, turn, v');
    if Verdict(turn).None? {
      ConnectRepeats(e, v', row);
      AllRepeatCons(e, turn, rest.turns, row);
    } else {
      AllRepeatCons(e, turn, [], row);
      assert [turn] + [] == [turn];
    }
  }

  /** The row read after the first reply holds it, and until it expires the later reply is the same. */
  predicate SameReply(e: Env, first: Turn, later: Turn, read: Option<Row>)
    requires first.ending.Reply? && later.ending.Reply?
  {
    && read.Some? && read.value.resp == first.ending.text
    && (later.at <= e.expiry(read.value.expire) ==> later.ending.text == first.ending.text)
  }

  lemma FirstReplyLasts(e: Env, v: View, key: string, first: Turn, j: nat)
    requires QuietView(v, key) && j < |Connect(e, v).turns|
    requires RepliesFor(first, key) && RepliesFor(Connect(e, v).turns[j], key)
    requires FirstRow(v.rows, key).Some? && FirstRow(v.rows, key).value.resp == first.ending.text
    ensures SameReply(e, first, Connect(e, v).turns[j], FirstRow(v.rows, key))
  {
    RowHasKey(v.rows, key);
    ConnectRepeats(e, v, FirstRow(v.rows, key).value);
  }

  /**
   * A turn of a run that replies for a key which no one else writes, and the run that goes on from
   * it: the reply stands in the cache as the row that is read, and every later request for the key
   * gets the same bytes as long as it is answered no later than that row's Expires time. It does
   * not matter whether the first reply was fetched or cached, nor how many rows the key has.
   */
  lemma SameReplyUntilExpired(e: Env, v: View, key: string, turn: Turn, v': View, j: nat)
    requires QuietView(v, key) && (turn, v') == OneTurn(e, v)
    requires j < |Connect(e, v').turns|
    requires RepliesFor(turn, key) && RepliesFor(Connect(e, v').turns[j], key)
    ensures SameReply(e, turn, Connect(e, v').turns[j], FirstRow(v'.rows, key))
  {
    var t, after := OneTurnKeeps(e, v, key);
    FirstReplyLasts(e, v', key, turn, j);
  }

  lemma RowHasKey(rows: seq<Row>, key: string)
    ensures FirstRow(rows, key).Some? ==> FirstRow(rows, key).value.key == key
  {
    ReadsWhatIsThere(rows, key);
    if HasRow(rows, key) {
      var i := FirstRowIsFirst(rows, key);
    }
  }
}
