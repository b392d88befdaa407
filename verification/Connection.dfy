/**
 * Whole runs of onConnect: one response for each request and in their order, when the connection
 * is kept, and what the responses mean whatever the other handlers do in between.
 */
module Connection {
  import opened Wrappers
  import opened Search
  import opened HeaderGrammar
  import opened Receive
  import opened ProxyServer
  import Framing
  import M = CacheMachine
  import Q = HttpRequest
  import R = HttpResponse

  // ----- The conversation -----

  function Said(turn: Turn): seq<string> {
    if turn.delivered && (turn.ending.Reply? || turn.ending.Apology?) then [turn.ending.text] else []
  }

  /** What the turns sent, in order. */
  function SaidAll(turns: seq<Turn>): seq<string> {
    if turns == [] then [] else Said(turns[0]) + SaidAll(turns[1..])
  }

  lemma SaidAllCons(turn: Turn, turns: seq<Turn>)
    ensures SaidAll([turn] + turns) == Said(turn) + SaidAll(turns)
  {
    assert ([turn] + turns)[1..] == turns;
  }

  lemma ServeKeepsTalk(e: Env, v: View, pc: M.Pc)
    ensures
      var v' := Serve(e, v, pc).1;
      v'.client == v.client && v'.sent == v.sent
  {
  }

  lemma FinishSays(request: Option<Q.Request>, ending: Ending, since: int, v: View)
    ensures
      var (turn, v') := FinishTurn(request, ending, since, v);
      && v'.sent == v.sent + Said(turn) && v'.client == v.client
      && turn.request == request && turn.ending == ending
      && (turn.delivered ==> ending.Reply? || ending.Apology?)
  {
  }

  lemma TurnSays(e: Env, v: View, asked: Asked)
    ensures
      var (turn, v') := TurnOn(e, v, asked);
      && v'.sent == v.sent + Said(turn) && v'.client == v.client
      && Answers(asked, turn)
      && (Verdict(turn).Some? ==> EndsWell(turn, Verdict(turn).value))
      && (Verdict(turn).None? ==> turn.delivered && |Said(turn)| == 1 && !WantsClose(turn))
  {
    match asked
    case Lost => FinishSays(None, Down, v.now, v);
    case Mute => FinishSays(None, Silent, v.now, v);
    case Fatal => FinishSays(None, Crashed, v.now, v);
    case Refused(text) => FinishSays(None, Apology(text), v.now, v);
    case Asked(request) =>
      var key := M.Checking(CacheKey(request));
      ServeKeepsTalk(e, v, key);
      FinishSays(Some(request), Serve(e, v, key).0, v.now, Serve(e, v, key).1);
  }

  /** What is left of a script when i requests have been read. */
  function ScriptAt(script: seq<Recv>, i: nat): seq<Recv>
    decreases i
  {
    if i == 0 then script else ScriptAt(GetRequest(script).1, i - 1)
  }

  /** The i-th reading on a connection, by reading alone. */
  function AskedAt(script: seq<Recv>, i: nat): Asked {
    GetRequest(ScriptAt(script, i)).0
  }

  /** The turn is about what was read: a refused request is answered with its own error response. */
  predicate Answers(asked: Asked, turn: Turn) {
    match asked
    case Asked(request) => turn.request == Some(request)
    case Refused(text) => turn.request.None? && turn.ending == Apology(text)
    case Lost => turn.request.None? && turn.ending == Down
    case Mute => turn.request.None? && turn.ending == Silent
    case Fatal => turn.request.None? && turn.ending == Crashed
  }

  predicate WantsClose(turn: Turn) {
    turn.request.Some? && !KeepAlive(turn.request.value)
  }

  /** Every turn before the last answered its request and did not ask to close. */
  predicate Answered(turns: seq<Turn>) {
    forall i :: 0 <= i < |turns| - 1 ==> turns[i].delivered && |Said(turns[i])| == 1 && !WantsClose(turns[i])
  }

  /** The turns are about the readings of the script, one after the other. */
  predicate InOrder(script: seq<Recv>, turns: seq<Turn>)
    decreases |turns|
  {
    turns == [] || (Answers(GetRequest(script).0, turns[0]) && InOrder(GetRequest(script).1, turns[1..]))
  }

  /** So the i-th turn is about the i-th reading. */
  lemma {:induction false} InOrderAt(script: seq<Recv>, turns: seq<Turn>, i: nat)
    requires InOrder(script, turns) && i < |turns|
    ensures Answers(AskedAt(script, i), turns[i])
    decreases i
  {
    if i > 0 {
      InOrderAt(GetRequest(script).1, turns[1..], i - 1);
    }
  }

  predicate EndsWell(last: Turn, stop: Stop) {
    && (stop == Closed <==> last.delivered && WantsClose(last))
    && (stop != Closed ==> Said(last) == [])
  }

  /** The conversation of a run, after what had been sent before. */
  predicate Orderly(sent: seq<string>, s: Session) {
    && s.turns != [] && Answered(s.turns)
    && s.view.sent == sent + SaidAll(s.turns)
    && EndsWell(s.turns[|s.turns| - 1], s.stop)
  }

  lemma OrderlyFirst(sent: seq<string>, turn: Turn, v: View, stop: Stop)
    requires v.sent == sent + Said(turn) && EndsWell(turn, stop)
    ensures Orderly(sent, Session([turn], v, stop))
  {
    SaidAllCons(turn, []);
    assert [turn] + [] == [turn];
  }

  lemma AnsweredMore(turn: Turn, rest: seq<Turn>)
    requires turn.delivered && |Said(turn)| == 1 && !WantsClose(turn)
    requires rest != [] && Answered(rest)
    ensures Answered([turn] + rest)
  {
    var all := [turn] + rest;
    forall i | 0 <= i < |all| - 1
      ensures all[i].delivered && |Said(all[i])| == 1 && !WantsClose(all[i])
    {
      assert i > 0 ==> all[i] == rest[i - 1];
    }
  }

  lemma OrderlyMore(sent: seq<string>, turn: Turn, v: View, rest: Session)
    requires v.sent == sent + Said(turn)
    requires turn.delivered && |Said(turn)| == 1 && !WantsClose(turn)
    requires Orderly(v.sent, rest)
    ensures Orderly(sent, Prepend([turn], rest))
  {
    AnsweredMore(turn, rest.turns);
    SaidAllCons(turn, rest.turns);
    var said, last := SaidAll(rest.turns), Said(turn);
    assert sent + last + said == sent + (last + said);
  }

  /** What one turn promises the conversation. */
  lemma OneTurnSays(e: Env, v: View) returns (turn: Turn, v': View)
    ensures (turn, v') == OneTurn(e, v)
    ensures v'.sent == v.sent + Said(turn)
    ensures forall rest :: InOrder(v'.client, rest) ==> InOrder(v.client, [turn] + rest)
    ensures Verdict(turn).Some? ==> EndsWell(turn, Verdict(turn).value)
    ensures Verdict(turn).None? ==> turn.delivered && |Said(turn)| == 1 && !WantsClose(turn)
  {
    var asked, left := ReadConsumes(Pass(v).client);
    turn, v' := OneTurn(e, v).0, OneTurn(e, v).1;
    TurnSays(e, Pass(v).(client := left), asked);
    forall rest | InOrder(left, rest)
      ensures InOrder(v.client, [turn] + rest)
    {
      assert ([turn] + rest)[1..] == rest;
    }
  }

  /**
   * Over every run of onConnect: the i-th turn is about the i-th reading of the stream, and a
   * refused request gets the error response that belongs to its bytes; each turn
   * but the last sends exactly one response, so the responses are in request order; a request
   * whose Connection header is "close" is the last one read. The loop itself ends the run
   * exactly when that last request was a "close" and its response went out; in every other
   * ending the last turn has sent nothing.
   */
  lemma {:induction false} ConversationIsInOrder(e: Env, v: View)
    ensures Orderly(v.sent, Connect(e, v)) && InOrder(v.client, Connect(e, v).turns)
    decreases |v.client|
  {
    var turn, v' := OneTurnSays(e, v);
    var rest := ConnectStep(e, v, turn, v');
    if Verdict(turn).None? {
      ConversationIsInOrder(e, v');
      OrderlyMore(v.sent, turn, v', rest);
    } else {
      assert InOrder(v'.client, []) && [turn] + [] == [turn];
      OrderlyFirst(v.sent, turn, v', Verdict(turn).value);
    }
  }

  /** The run ends as its last turn says. */
  lemma {:induction false} LastVerdict(e: Env, v: View)
    ensures
      var s := Connect(e, v);
      s.turns != [] && Verdict(s.turns[|s.turns| - 1]) == Some(s.stop)
    decreases |v.client|
  {
    var turn, v' := OneTurn(e, v).0, OneTurn(e, v).1;
    var rest := ConnectStep(e, v, turn, v');
    if Verdict(turn).None? {
      LastVerdict(e, v');
    }
  }

  lemma {:induction false} SaidAt(turns: seq<Turn>, i: nat)
    requires Answered(turns) && i < |turns| - 1
    ensures i < |SaidAll(turns)| && Said(turns[i]) == [SaidAll(turns)[i]]
  {
    assert turns[0].delivered && |Said(turns[0])| == 1;
    if i > 0 {
      var rest := turns[1..];
      assert forall k :: 0 <= k < |rest| ==> rest[k] == turns[k + 1];
      SaidAt(rest, i - 1);
    }
  }

  /** The bytes sent are the answer to what was read. */
  predicate IsAnswerTo(asked: Asked, turn: Turn, sent: string) {
    match asked
    case Refused(text) => sent == text
    case Asked(request) =>
      turn.request == Some(request) && (turn.ending.Reply? || turn.ending.Apology?) && sent == turn.ending.text
    case _ => false
  }

  lemma SaidIsAnswer(asked: Asked, turn: Turn, sent: string)
    requires Answers(asked, turn) && Said(turn) == [sent]
    ensures IsAnswerTo(asked, turn, sent)
  {
  }

  /**
   * The i-th response sent is the answer to the i-th reading: for a refused request it is the
   * 400 or 501 of exactly those bytes, for an accepted one what its turn ended with.
   */
  lemma ResponseAt(e: Env, v: View, i: nat)
    requires i < |Connect(e, v).turns| - 1
    ensures
      var turn, sent := Connect(e, v).turns[i], Connect(e, v).view.sent;
      |v.sent| + i < |sent| && IsAnswerTo(AskedAt(v.client, i), turn, sent[|v.sent| + i])
  {
    ConversationIsInOrder(e, v);
    var s := Connect(e, v);
    SaidAt(s.turns, i);
    InOrderAt(v.client, s.turns, i);
    SaidIsAnswer(AskedAt(v.client, i), s.turns[i], SaidAll(s.turns)[i]);
  }

  // ----- When reading crashes -----

  /**
   * The handler crashes on reading exactly when recv_until came back with 1 or EAGAIN and the
   * bytes have a first line that either asks for a port that is not a number, or is accepted and,
   * after EAGAIN, is all that there is.
   */
  predicate FatalBytes(r: Received) {
    && (r.code == Done || r.code == Again) && NextCrlf(r.data, 0).Some?
    && var e := NextCrlf(r.data, 0).value;
       || Framing.BadPort(r.data[..e])
       || (r.code == Again && e + 2 == |r.data| && Q.TakeRequestLine(r.data[..e], Q.FRESH).error.None?)
  }

  lemma FatalIff(script: seq<Recv>)
    ensures GetRequest(script).0 == Fatal <==> FatalBytes(Until(script, "", Framing.BLANK))
  {
    var r := Until(script, "", Framing.BLANK);
    if r.code == Done || r.code == Again {
      UnderstandFatal(r.data);
      Framing.OverreadIff(script, Q.FRESH);
      Framing.BadCastIff(r.data, Q.FRESH);
    }
  }

  lemma UnderstandFatal(data: string)
    ensures Understand(data) == Fatal <==> Q.Parse(data, Q.FRESH).outcome in {BadCast, Undefined}
  {
  }

  /** Such bytes end the run, and the proxy with it. */
  lemma FatalAborts(e: Env, v: View)
    requires GetRequest(v.client).0 == Fatal
    ensures Connect(e, v).stop == Aborted
  {
    var asked, left := ReadConsumes(Pass(v).client);
    FatalTurn(e, Pass(v).(client := left));
    var rest := ConnectStep(e, v, OneTurn(e, v).0, OneTurn(e, v).1);
  }

  lemma FatalTurn(e: Env, v: View)
    ensures Verdict(TurnOn(e, v, Fatal).0) == Some(Aborted)
  {
  }

  /** Two chunkings of one stream that both complete the request give the same request or error. */
  lemma ReadingIgnoresChunking(one: seq<Recv>, two: seq<Recv>, stream: string)
    requires Joined(one) <= stream && Joined(two) <= stream
    requires Until(one, "", Framing.BLANK).code == Done && Until(two, "", Framing.BLANK).code == Done
    ensures GetRequest(one).0 == GetRequest(two).0
  {
    Framing.ChunkingIndependence(one, two, stream, Q.FRESH, R.EMPTY);
  }
}
