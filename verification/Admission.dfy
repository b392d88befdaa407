/**
 * src/proxy-server.cc, `loop`: reaping the recorded ids of dead handlers and admitting a new
 * connection. Whether a recorded id is alive is a predicate; thread creation does not fail.
 */
module Admission {

  /** The ids that are alive, in order. */
  function Kept(ids: seq<int>, alive: set<int>): seq<int> {
    if ids == [] then [] else IfAlive(ids[0], alive) + Kept(ids[1..], alive)
  }

  function IfAlive(id: int, alive: set<int>): seq<int> {
    if id in alive then [id] else []
  }

  lemma KeptCons(id: int, rest: seq<int>, alive: set<int>)
    ensures Kept([id] + rest, alive) == IfAlive(id, alive) + Kept(rest, alive)
  {
    assert ([id] + rest)[1..] == rest;
  }

  lemma {:induction false} KeptSnoc(ids: seq<int>, id: int, alive: set<int>)
    ensures Kept(ids + [id], alive) == Kept(ids, alive) + IfAlive(id, alive)
  {
    if ids == [] {
      KeptCons(id, [], alive);
      assert ids + [id] == [id] + [];
    } else {
      var rest := ids[1..];
      KeptCons(ids[0], rest + [id], alive);
      assert ids + [id] == [ids[0]] + (rest + [id]);
      KeptSnoc(rest, id, alive);
    }
  }

  class Acceptor {
    const maxConnections: int
    var threadIds: seq<int>

    constructor (max: int)
      ensures maxConnections == max && threadIds == []
    {
      maxConnections := max;
      threadIds := [];
    }

    /** Erasing at i and stepping back, so that no id is skipped. */
    method Reap(alive: set<int>)
      modifies this
      ensures threadIds == Kept(old(threadIds), alive)
    {
      var i := 0;
      ghost var all, done := threadIds, 0;
      while i < |threadIds|
        invariant 0 <= i <= |threadIds| && 0 <= done <= |all|
        invariant threadIds[..i] == Kept(all[..done], alive)
        invariant threadIds[i..] == all[done..]
        decreases |threadIds| - i
      {
        ghost var id := threadIds[i];
        assert id == threadIds[i..][0] == all[done];
        assert all[..done + 1] == all[..done] + [id];
        KeptSnoc(all[..done], id, alive);
        ghost var kept, rest := threadIds[..i], threadIds[i + 1..];
        assert rest == threadIds[i..][1..] == all[done + 1..];
        if threadIds[i] !in alive {
          threadIds := threadIds[..i] + threadIds[i + 1..];
          i := i - 1;
        }
        i := i + 1;
        done := done + 1;
      }
      assert all[..done] == all;
    }

    /** An accepted connection: reap, then record its id, or drop it when the table is full. */
    method Accept(clientId: int, alive: set<int>) returns (admitted: bool)
      modifies this
      ensures Pool(threadIds, alive + (if admitted then {clientId} else {})) ==
              Arrive(maxConnections, Pool(old(threadIds), alive), clientId)
      ensures admitted <==> |Kept(old(threadIds), alive)| != maxConnections
    {
      Reap(alive);
      if |threadIds| == maxConnections {
        return false;
      }
      threadIds := threadIds + [clientId];
      return true;
    }
  }

  // ----- All accept sequences -----

  /** The recorded ids, and the handlers that are running. */
  datatype Pool = Pool(ids: seq<int>, live: set<int>)

  /** A connection arrives, after some handlers have ended. */
  datatype Event = Event(clientId: int, ended: set<int>)

  function Arrive(max: int, p: Pool, clientId: int): Pool {
    var kept := Kept(p.ids, p.live);
    if |kept| == max then Pool(kept, p.live) else Pool(kept + [clientId], p.live + {clientId})
  }

  /** A descriptor is given out again only when no running handler has it. */
  predicate Possible(p: Pool, e: Event) {
    e.clientId !in p.live - e.ended
  }

  function After(max: int, p: Pool, e: Event): Pool {
    Arrive(max, Pool(p.ids, p.live - e.ended), e.clientId)
  }

  predicate AllPossible(max: int, p: Pool, events: seq<Event>)
    decreases |events|
  {
    events == [] || (Possible(p, events[0]) && AllPossible(max, After(max, p, events[0]), events[1..]))
  }

  function AfterAll(max: int, p: Pool, events: seq<Event>): Pool
    decreases |events|
  {
    if events == [] then p else AfterAll(max, After(max, p, events[0]), events[1..])
  }

  predicate NoRepeats(ids: seq<int>) {
    forall i, j :: 0 <= i < j < |ids| ==> ids[i] != ids[j]
  }

  /** Every running handler is recorded, once, and no more ids than allowed are. */
  predicate Covered(max: int, p: Pool) {
    NoRepeats(p.ids) && (forall id :: id in p.live ==> id in p.ids) && |p.ids| <= max
  }

  /** Reaping leaves exactly the live ids, each as often as it was there. */
  lemma {:induction false} KeptIsLive(ids: seq<int>, alive: set<int>, id: int)
    ensures id in Kept(ids, alive) <==> id in ids && id in alive
    ensures multiset(Kept(ids, alive))[id] == if id in alive then multiset(ids)[id] else 0
    ensures |Kept(ids, alive)| <= |ids|
  {
    if ids != [] {
      assert ids == [ids[0]] + ids[1..];
      KeptIsLive(ids[1..], alive, id);
    }
  }

  lemma {:induction false} KeptNoRepeats(ids: seq<int>, alive: set<int>)
    requires NoRepeats(ids)
    ensures NoRepeats(Kept(ids, alive))
  {
    if ids != [] {
      KeptNoRepeats(ids[1..], alive);
      KeptIsLive(ids[1..], alive, ids[0]);
    }
  }

  lemma ArriveKeepsCovered(max: int, p: Pool, e: Event)
    requires Covered(max, p) && Possible(p, e)
    ensures Covered(max, After(max, p, e))
  {
    var live := p.live - e.ended;
    var kept := Kept(p.ids, live);
    KeptNoRepeats(p.ids, live);
    forall id
      ensures id in kept <==> id in p.ids && id in live
    {
      KeptIsLive(p.ids, live, id);
    }
    KeptIsLive(p.ids, live, e.clientId);
  }

  lemma {:induction false} NoRepeatsCard(ids: seq<int>, live: set<int>)
    requires NoRepeats(ids) && forall id :: id in live ==> id in ids
    ensures |live| <= |ids|
  {
    if ids != [] {
      NoRepeatsCard(ids[1..], live - {ids[0]});
    } else {
      forall id
        ensures id !in live
      {
        assert id in live ==> id in ids;
      }
      assert live == {};
    }
  }

  /** A recorded list without repeats, of ids that are all live, is no longer than the live set. */
  lemma {:induction false} NoRepeatsWithin(ids: seq<int>, live: set<int>)
    requires NoRepeats(ids) && forall i :: 0 <= i < |ids| ==> ids[i] in live
    ensures |ids| <= |live|
  {
    if ids != [] {
      NoRepeatsWithin(ids[1..], live - {ids[0]});
    }
  }

  /** A connection is dropped exactly when max_connections handlers are running. */
  lemma DroppedIffFull(max: int, p: Pool, e: Event)
    requires Covered(max, p) && Possible(p, e)
    ensures e.clientId !in After(max, p, e).live <==> |p.live - e.ended| == max
  {
    var live := p.live - e.ended;
    var kept := Kept(p.ids, live);
    KeptNoRepeats(p.ids, live);
    forall id
      ensures id in kept <==> id in p.ids && id in live
    {
      KeptIsLive(p.ids, live, id);
    }
    assert forall i :: 0 <= i < |kept| ==> kept[i] in kept;
    NoRepeatsCard(kept, live);
    NoRepeatsWithin(kept, live);
  }

  /** Over every sequence of arrivals: no more handlers run, and no more ids are recorded, than allowed. */
  lemma {:induction false} NeverTooMany(max: int, p: Pool, events: seq<Event>)
    requires Covered(max, p) && AllPossible(max, p, events)
    ensures
      var end := AfterAll(max, p, events);
      Covered(max, end) && |end.live| <= |end.ids| <= max
    decreases |events|
  {
    if events == [] {
      NoRepeatsCard(p.ids, p.live);
    } else {
      ArriveKeepsCovered(max, p, events[0]);
      NeverTooMany(max, After(max, p, events[0]), events[1..]);
    }
  }
}
