/**
 * A request object over its whole life: any sequence of ParseHeaders, ModifyHeader, RemoveHeader,
 * SetHost and SetPort.
 */
module RequestHistory {
  import opened HeaderList
  import opened HeaderGrammar
  import opened RequestLine
  import Q = HttpRequest

  datatype Op =
    | ParseHeaders(buffer: string)
    | ModifyHeader(key: string, value: string)
    | RemoveHeader(key: string)
    | SetHost(host: string)
    | SetPort(port: nat)

  function Do(r: Q.Request, op: Op): Q.Request {
    match op
    case ParseHeaders(b) => r.(headers := ParseBlock(b, r.headers).headers)
    case ModifyHeader(k, v) => r.(headers := Modify(r.headers, k, v))
    case RemoveHeader(k) => r.(headers := Remove(r.headers, k))
    case SetHost(h) => Q.WithHost(r, h)
    case SetPort(p) => Q.WithPort(r, p)
  }

  function DoAll(r: Q.Request, ops: seq<Op>): Q.Request
    decreases |ops|
  {
    if ops == [] then r else DoAll(Do(r, ops[0]), ops[1..])
  }

  function Parsed(b: string): seq<Header> {
    Logical(ScanLines(b, 0).lines).headers
  }

  /** The edits that an operation makes on the header list. */
  function Edits(r: Q.Request, op: Op): seq<Edit> {
    match op
    case ParseHeaders(b) => Puts(Parsed(b))
    case ModifyHeader(k, v) => [Put(k, v)]
    case RemoveHeader(k) => [Drop(k)]
    case SetHost(h) => [Put(Q.HOST, Q.HostValue(h, r.port))]
    case SetPort(p) => [Put(Q.HOST, Q.HostValue(r.host, p))]
  }

  function History(r: Q.Request, ops: seq<Op>): seq<Edit>
    decreases |ops|
  {
    if ops == [] then [] else Edits(r, ops[0]) + History(Do(r, ops[0]), ops[1..])
  }

  lemma ReplayOne(l: Headers, e: Edit)
    ensures Replay(l, [e]) == Apply(l, e)
  {
    assert [e][..0] == [];
  }

  lemma OpIsEdits(r: Q.Request, op: Op)
    ensures Do(r, op).headers == Replay(r.headers, Edits(r, op))
  {
    match op
    case ParseHeaders(b) => ModifyAllIsReplay(r.headers, Parsed(b));
    case ModifyHeader(k, v) => ReplayOne(r.headers, Put(k, v));
    case RemoveHeader(k) => ReplayOne(r.headers, Drop(k));
    case SetHost(h) => ReplayOne(r.headers, Put(Q.HOST, Q.HostValue(h, r.port)));
    case SetPort(p) => ReplayOne(r.headers, Put(Q.HOST, Q.HostValue(r.host, p)));
  }

  lemma {:induction false} OpsAreHistory(r: Q.Request, ops: seq<Op>)
    ensures DoAll(r, ops).headers == Replay(r.headers, History(r, ops))
    decreases |ops|
  {
    if ops != [] {
      OpIsEdits(r, ops[0]);
      var r' := Do(r, ops[0]);
      OpsAreHistory(r', ops[1..]);
      ReplayConcat(r.headers, Edits(r, ops[0]), History(r', ops[1..]));
    }
  }

  /**
   * From a fresh object, whatever is done to it: each key once, in the order of first insertion
   * since it was last removed, with the value last written.
   */
  lemma HeadersAreOrderedMap(ops: seq<Op>)
    ensures Distinct(DoAll(Q.FRESH, ops).headers)
    ensures IsOrderedMapOf(DoAll(Q.FRESH, ops).headers, History(Q.FRESH, ops))
  {
    OpsAreHistory(Q.FRESH, ops);
    HistoryMakesOrderedMap(History(Q.FRESH, ops));
  }

  // ----- The Host header -----

  /** The Host header says what the host and port fields say. */
  predicate HostAgrees(r: Q.Request) {
    && HasKey(r.headers, "Host")
    && Lookup(r.headers, "Host") == if r.port == 80 then r.host else r.host + ":" + Decimal(r.port)
  }

  predicate IsSetter(op: Op) {
    op.SetHost? || op.SetPort?
  }

  /** No edit of the Host header other than by the setters. */
  predicate LeavesHost(op: Op) {
    match op
    case ParseHeaders(b) => !HasKey(Parsed(b), "Host")
    case ModifyHeader(k, _) => k != "Host"
    case RemoveHeader(k) => k != "Host"
    case SetHost(_) => true
    case SetPort(_) => true
  }

  lemma ModifyHasKey(l: Headers, key: string, value: string, k: string)
    ensures HasKey(Modify(l, key, value), k) <==> k == key || HasKey(l, k)
  {
    var m := Modify(l, key, value);
    PositionIsFirst(l, key);
    var at := match Position(l, key) case None => |l| case Some(i) => i;
    assert m[at].key == key;
    assert forall i :: 0 <= i < |l| ==> m[i].key == l[i].key;
  }

  lemma {:induction false} ModifyAllLeaves(l: Headers, hs: seq<Header>, k: string)
    requires !HasKey(hs, k)
    ensures Lookup(ModifyAll(l, hs), k) == Lookup(l, k)
    ensures HasKey(ModifyAll(l, hs), k) == HasKey(l, k)
    decreases |hs|
  {
    if hs != [] {
      assert hs[0].key != k;
      assert forall i :: 0 <= i < |hs[1..]| ==> hs[1..][i] == hs[i + 1];
      LookupAfterModify(l, hs[0].key, hs[0].value, k);
      ModifyHasKey(l, hs[0].key, hs[0].value, k);
      ModifyAllLeaves(Modify(l, hs[0].key, hs[0].value), hs[1..], k);
    }
  }

  /** The first entry of a key, by position. */
  lemma FoundAt(l: Headers, k: string, p: nat)
    requires p < |l| && l[p].key == k && forall j :: 0 <= j < p ==> l[j].key != k
    ensures HasKey(l, k) && Lookup(l, k) == l[p].value
  {
    PositionIsFirst(l, k);
  }

  lemma NotFound(l: Headers, k: string)
    requires forall j :: 0 <= j < |l| ==> l[j].key != k
    ensures !HasKey(l, k) && Lookup(l, k) == ""
  {
    PositionIsFirst(l, k);
  }

  lemma SkipLeaves(l: Headers, at: nat, k: string)
    requires at < |l| && l[at].key != k
    ensures Lookup(l[..at] + l[at + 1..], k) == Lookup(l, k)
    ensures HasKey(l[..at] + l[at + 1..], k) == HasKey(l, k)
  {
    var m := SkipOne(l, at);
    PositionIsFirst(l, k);
    match Position(l, k)
    case None =>
      NotFound(l, k);
      NotFound(m, k);
    case Some(p) =>
      FoundAt(l, k, p);
      FoundAt(m, k, if p < at then p else p - 1);
  }

  /** Removing one key does not change what another one reads, repeated keys or not. */
  lemma RemoveLeaves(l: Headers, key: string, k: string)
    requires k != key
    ensures Lookup(Remove(l, key), k) == Lookup(l, k)
    ensures HasKey(Remove(l, key), k) == HasKey(l, k)
  {
    PositionIsFirst(l, key);
    if Position(l, key).Some? {
      SkipLeaves(l, Position(l, key).value, k);
    }
  }

  lemma SetterAgrees(r: Q.Request, op: Op)
    requires IsSetter(op)
    ensures HostAgrees(Do(r, op))
  {
    var value := Q.HostValue(if op.SetHost? then op.host else r.host, if op.SetPort? then op.port else r.port);
    LookupAfterModify(r.headers, Q.HOST, value, Q.HOST);
    ModifyHasKey(r.headers, Q.HOST, value, Q.HOST);
  }

  lemma OtherAgrees(r: Q.Request, op: Op)
    requires HostAgrees(r) && LeavesHost(op) && !IsSetter(op)
    ensures HostAgrees(Do(r, op))
  {
    match op
    case ParseHeaders(b) => ModifyAllLeaves(r.headers, Parsed(b), Q.HOST);
    case ModifyHeader(k, v) =>
      LookupAfterModify(r.headers, k, v, Q.HOST);
      ModifyHasKey(r.headers, k, v, Q.HOST);
    case RemoveHeader(k) => RemoveLeaves(r.headers, k, Q.HOST);
  }

  /**
   * Once a setter has been called, and as long as nothing else edits Host, the Host header is
   * the host, with the port after it unless the port is 80.
   */
  lemma {:induction false} HostFollowsSetters(r: Q.Request, ops: seq<Op>)
    requires forall i :: 0 <= i < |ops| ==> LeavesHost(ops[i])
    requires HostAgrees(r) || exists i :: 0 <= i < |ops| && IsSetter(ops[i])
    ensures HostAgrees(DoAll(r, ops))
    decreases |ops|
  {
    if ops != [] {
      if IsSetter(ops[0]) {
        SetterAgrees(r, ops[0]);
      } else if HostAgrees(r) {
        OtherAgrees(r, ops[0]);
      } else {
        var i :| 0 <= i < |ops| && IsSetter(ops[i]);
        assert IsSetter(ops[1..][i - 1]);
      }
      HostFollowsSetters(Do(r, ops[0]), ops[1..]);
    }
  }

  /** The setters can be called in either order. */
  lemma SettersCommute(r: Q.Request, host: string, port: nat)
    ensures Q.WithHost(Q.WithPort(r, port), host) == Q.WithPort(Q.WithHost(r, host), port)
  {
    var both := Q.HostValue(host, port);
    ModifyOverwrites(r.headers, Q.HOST, Q.HostValue(r.host, port), both);
    ModifyOverwrites(r.headers, Q.HOST, Q.HostValue(host, r.port), both);
  }
}
