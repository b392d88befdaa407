/**
 * src/common.cc: messages assembled from recv calls. A socket is the script of what its next
 * recv calls return; a call that has not returned when the script ends is Waiting.
 */
module Receive {
  import opened Search

  const BUFFER_SIZE := 1024
  const EAGAIN := 11

  /** One recv: a number of bytes, possibly none, or -1. */
  datatype Recv = Data(bytes: string) | Failed

  /** recv never returns more than the size it was given. */
  predicate WithinBuffer(script: seq<Recv>) {
    forall i :: 0 <= i < |script| && script[i].Data? ==> |script[i].bytes| <= BUFFER_SIZE - 1
  }

  /** The call appends: no failure, and a count that is not mistaken for EAGAIN. */
  predicate Appends(r: Recv) {
    r.Data? && |r.bytes| != EAGAIN
  }

  predicate AllAppend(script: seq<Recv>) {
    forall i :: 0 <= i < |script| ==> Appends(script[i])
  }

  /** What a recv delivers. */
  function Bytes(r: Recv): string {
    if r.Data? then r.bytes else ""
  }

  /** What the recvs deliver, in order. */
  function Joined(script: seq<Recv>): string {
    if script == [] then "" else Bytes(script[0]) + Joined(script[1..])
  }

  /** Return value 1, EAGAIN, -1, or no return yet. */
  datatype Code = Done | Again | Fault | Waiting

  datatype Received = Received(code: Code, data: string, left: seq<Recv>)

  predicate Contains(data: string, delimiter: string) {
    Find(data, delimiter, 0).Some?
  }

  function Until(script: seq<Recv>, data: string, delimiter: string): Received
    decreases |script|
  {
    if Contains(data, delimiter) then Received(Done, data, script)
    else if script == [] then Received(Waiting, data, script)
    else if script[0].Failed? then Received(Fault, data, script[1..])
    else if |script[0].bytes| == EAGAIN then Received(Again, data, script[1..])
    else Until(script[1..], data + script[0].bytes, delimiter)
  }

  function Nth(script: seq<Recv>, length: int, data: string): Received
    decreases |script|
  {
    if length <= 0 then Received(Done, data, script)
    else if script == [] then Received(Waiting, data, script)
    else if script[0].Failed? then Received(Fault, data, script[1..])
    else if |script[0].bytes| == EAGAIN then Received(Again, data, script[1..])
    else Nth(script[1..], length - |script[0].bytes|, data + script[0].bytes)
  }

  class Socket {
    var script: seq<Recv>

    constructor (s: seq<Recv>)
      ensures script == s
    {
      script := s;
    }

    /** The system call: -1, or the number of bytes delivered. */
    method Recv() returns (count: int, bytes: string)
      requires script != []
      modifies this
      ensures script == old(script)[1..]
      ensures old(script)[0].Failed? ==> count == -1
      ensures old(script)[0].Data? ==> bytes == old(script)[0].bytes && count == |bytes|
    {
      match script[0] {
        case Failed => count, bytes := -1, "";
        case Data(b) => count, bytes := |b|, b;
      }
      script := script[1..];
    }
  }

  method RecvUntil(socket: Socket, delimiter: string) returns (code: Code, data: string)
    modifies socket
    ensures Received(code, data, socket.script) == Until(old(socket.script), "", delimiter)
  {
    data := "";
    var found := Memmem(data, delimiter);
    while found.None?
      invariant found == Find(data, delimiter, 0)
      invariant Until(socket.script, data, delimiter) == Until(old(socket.script), "", delimiter)
      decreases |socket.script|, found.None?
    {
      if socket.script == [] {
        return Waiting, data;
      }
      var count, bytes := socket.Recv();
      if count == EAGAIN {
        return Again, data;
      }
      if count < 0 {
        return Fault, data;
      }
      data := data + bytes;
      found := Memmem(data, delimiter);
    }
    return Done, data;
  }

  method RecvNth(socket: Socket, length: int) returns (code: Code, data: string)
    modifies socket
    ensures Received(code, data, socket.script) == Nth(old(socket.script), length, "")
  {
    data := "";
    var remaining := length;
    while remaining > 0
      invariant Nth(socket.script, remaining, data) == Nth(old(socket.script), length, "")
      decreases |socket.script|
    {
      if socket.script == [] {
        return Waiting, data;
      }
      var count, bytes := socket.Recv();
      if count == EAGAIN {
        return Again, data;
      }
      if count < 0 {
        return Fault, data;
      }
      remaining := remaining - count;
      data := data + bytes;
    }
    return Done, data;
  }

  // ----- What the calls deliver -----

  lemma JoinedCons(r: Recv, rest: seq<Recv>)
    ensures Joined([r] + rest) == Bytes(r) + Joined(rest)
  {
    assert ([r] + rest)[1..] == rest;
  }

  lemma {:induction false} JoinedConcat(a: seq<Recv>, b: seq<Recv>)
    ensures Joined(a + b) == Joined(a) + Joined(b)
  {
    if a == [] {
      assert a + b == b;
    } else {
      var rest := a[1..];
      assert a + b == [a[0]] + (rest + b);
      JoinedCons(a[0], rest + b);
      JoinedConcat(rest, b);
    }
  }

  lemma JoinedTake(script: seq<Recv>, m: nat)
    requires m < |script|
    ensures Joined(script[..m + 1]) == Joined(script[..m]) + Bytes(script[m])
  {
    assert script[..m + 1] == script[..m] + [script[m]];
    JoinedConcat(script[..m], [script[m]]);
    JoinedCons(script[m], []);
    assert [script[m]] + [] == [script[m]];
  }

  /** The first m recvs all append, and only with the last of them is the delimiter there. */
  ghost predicate ShortestWith(script: seq<Recv>, m: nat, delimiter: string) {
    && m <= |script| && AllAppend(script[..m])
    && Contains(Joined(script[..m]), delimiter)
    && forall j :: 0 <= j < m ==> !Contains(Joined(script[..j]), delimiter)
  }

  /** From the m-th recv on, when the first m appended without completing the message. */
  lemma {:induction false} UntilFrom(script: seq<Recv>, m: nat, delimiter: string) returns (n: nat)
    requires m <= |script| && AllAppend(script[..m])
    requires forall j :: 0 <= j < m ==> !Contains(Joined(script[..j]), delimiter)
    ensures
      var r := Until(script[m..], Joined(script[..m]), delimiter);
      && m <= n <= |script| && AllAppend(script[..n])
      && (r.code == Done <==> ShortestWith(script, n, delimiter))
      && (r.code == Done ==> r.data == Joined(script[..n]) && r.left == script[n..])
      && (r.code != Done ==> !exists k: nat :: ShortestWith(script, k, delimiter))
      && (r.code == Waiting <==> n == |script| && !Contains(Joined(script[..n]), delimiter))
    decreases |script| - m
  {
    var data := Joined(script[..m]);
    n := m;
    if Contains(data, delimiter) {
    } else if m == |script| {
      NoneShortest(script, m, delimiter);
    } else if !Appends(script[m]) {
      assert script[m..][0] == script[m];
      NoneShortest(script, m, delimiter);
    } else {
      assert script[m..][0] == script[m] && script[m..][1..] == script[m + 1..];
      JoinedTake(script, m);
      assert script[..m + 1] == script[..m] + [script[m]];
      n := UntilFrom(script, m + 1, delimiter);
    }
  }

  lemma NoneShortest(script: seq<Recv>, m: nat, delimiter: string)
    requires m <= |script|
    requires forall j :: 0 <= j <= m ==> !Contains(Joined(script[..j]), delimiter)
    requires m == |script| || !Appends(script[m])
    ensures !exists k: nat :: ShortestWith(script, k, delimiter)
  {
    forall k: nat | ShortestWith(script, k, delimiter)
      ensures false
    {
    }
  }

  /**
   * recv_until returns 1 exactly when some recvs all append and complete the message; the data
   * is then the shortest whole-chunk prefix of the stream that has the delimiter, and exactly
   * those recvs have been used up.
   */
  lemma UntilIsShortestPrefix(script: seq<Recv>, delimiter: string)
    ensures
      var r := Until(script, "", delimiter);
      && (r.code == Done <==> exists m: nat :: ShortestWith(script, m, delimiter))
      && (forall m: nat :: ShortestWith(script, m, delimiter) ==>
            r.data == Joined(script[..m]) && r.left == script[m..])
  {
    assert script[..0] == [] && script[0..] == script;
    var n := UntilFrom(script, 0, delimiter);
    forall m: nat | ShortestWith(script, m, delimiter)
      ensures m == n
    {
    }
  }

  /** When recv_until has returned 1, the recvs that it used. */
  lemma UntilTakes(script: seq<Recv>, delimiter: string) returns (h: nat)
    requires Until(script, "", delimiter).code == Done
    ensures ShortestWith(script, h, delimiter)
    ensures Until(script, "", delimiter) == Received(Done, Joined(script[..h]), script[h..])
  {
    UntilIsShortestPrefix(script, delimiter);
    h :| ShortestWith(script, h, delimiter);
  }

  lemma UntilUsesPrefix(script: seq<Recv>, delimiter: string) returns (h: nat)
    requires Until(script, "", delimiter).code == Done
    ensures h <= |script|
    ensures Until(script, "", delimiter) == Received(Done, Joined(script[..h]), script[h..])
  {
    h := UntilTakes(script, delimiter);
  }

  /** What one stream delivers in whole chunks is a prefix of it. */
  lemma {:induction false} JoinedPrefix(script: seq<Recv>, m: nat)
    requires m <= |script|
    ensures Joined(script[..m]) <= Joined(script)
    decreases |script|
  {
    if m > 0 {
      assert script[..m][1..] == script[1..][..m - 1];
      JoinedPrefix(script[1..], m - 1);
    } else {
      assert script[..m] == [];
    }
  }

  predicate AllPositive(script: seq<Recv>) {
    forall i :: 0 <= i < |script| ==> script[i].Data? && |script[i].bytes| > 0
  }

  lemma {:induction false} PositiveGrows(script: seq<Recv>)
    requires AllPositive(script)
    ensures |Joined(script)| >= |script|
  {
    if script != [] {
      PositiveGrows(script[1..]);
    }
  }

  lemma ContainsMonotone(s: string, t: string, delimiter: string)
    requires s <= t && Contains(s, delimiter)
    ensures Contains(t, delimiter) && Find(t, delimiter, 0) == Find(s, delimiter, 0)
  {
    var i := Find(s, delimiter, 0).value;
    assert t[i..i + |delimiter|] == s[i..i + |delimiter|];
    assert OccursAt(t, delimiter, i);
    forall j | 0 <= j < i
      ensures !OccursAt(t, delimiter, j)
    {
      assert t[j..j + |delimiter|] == s[j..j + |delimiter|];
      assert !OccursAt(s, delimiter, j);
    }
  }

  lemma {:induction false} UntilStopsAtFailure(script: seq<Recv>, data: string, delimiter: string)
    requires !AllAppend(script)
    ensures Until(script, data, delimiter).code != Waiting
    decreases |script|
  {
    if !Contains(data, delimiter) && Appends(script[0]) {
      UntilStopsAtFailure(script[1..], data + script[0].bytes, delimiter);
    }
  }

  /**
   * recv_until never returns exactly when every recv appends and the stream does not have the
   * delimiter; when every recv appends, it returns 1 exactly when the stream has it.
   */
  lemma UntilReturnsIff(script: seq<Recv>, delimiter: string)
    ensures Until(script, "", delimiter).code == Waiting <==> AllAppend(script) && !Contains(Joined(script), delimiter)
    ensures AllAppend(script) ==> (Until(script, "", delimiter).code == Done <==> Contains(Joined(script), delimiter))
  {
    assert script[..0] == [] && script[0..] == script && script[..|script|] == script;
    if !AllAppend(script) {
      UntilStopsAtFailure(script, "", delimiter);
    } else if Contains(Joined(script), delimiter) {
      UntilFromNotLate(script, 0, |script|, delimiter);
    } else {
      var n := UntilFrom(script, 0, delimiter);
      UntilOfAppending(script, "", delimiter);
      if Contains(Joined(script[..n]), delimiter) {
        JoinedPrefix(script, n);
        ContainsMonotone(Joined(script[..n]), Joined(script), delimiter);
      }
    }
  }

  lemma {:induction false} UntilOfAppending(script: seq<Recv>, data: string, delimiter: string)
    requires AllAppend(script)
    ensures Until(script, data, delimiter).code in {Done, Waiting}
    decreases |script|
  {
    if script != [] && !Contains(data, delimiter) {
      UntilOfAppending(script[1..], data + script[0].bytes, delimiter);
    }
  }

  /** The m-th recv is the first that does not append, and the message is not complete by then. */
  predicate BrokenAt(script: seq<Recv>, m: nat, delimiter: string) {
    && m < |script| && AllAppend(script[..m]) && !Appends(script[m])
    && !Contains(Joined(script[..m]), delimiter)
  }

  lemma {:induction false} UntilReaches(script: seq<Recv>, i: nat, m: nat, delimiter: string)
    requires i <= m <= |script| && AllAppend(script[..m]) && !Contains(Joined(script[..m]), delimiter)
    ensures Until(script[i..], Joined(script[..i]), delimiter) == Until(script[m..], Joined(script[..m]), delimiter)
    decreases m - i
  {
    if i < m {
      JoinedGrows(script, i, m);
      if Contains(Joined(script[..i]), delimiter) {
        ContainsMonotone(Joined(script[..i]), Joined(script[..m]), delimiter);
      }
      assert script[..m][i] == script[i];
      assert script[i..][0] == script[i] && script[i..][1..] == script[i + 1..];
      JoinedTake(script, i);
      UntilReaches(script, i + 1, m, delimiter);
    }
  }

  /** A failing recv is -1, a recv of 11 bytes is EAGAIN, and its bytes are lost. */
  lemma UntilBreaks(script: seq<Recv>, m: nat, delimiter: string)
    requires BrokenAt(script, m, delimiter)
    ensures script[m].Failed? || |script[m].bytes| == 11
    ensures Until(script, "", delimiter) ==
            Received(if script[m].Failed? then Fault else Again, Joined(script[..m]), script[m + 1..])
  {
    assert script[..0] == [] && script[0..] == script;
    UntilReaches(script, 0, m, delimiter);
    assert script[m..][0] == script[m] && script[m..][1..] == script[m + 1..];
  }

  lemma {:induction false} FindBreak(script: seq<Recv>, i: nat, delimiter: string) returns (m: nat)
    requires i <= |script| && AllAppend(script[..i])
    requires Until(script[i..], Joined(script[..i]), delimiter).code in {Fault, Again}
    ensures BrokenAt(script, m, delimiter)
    decreases |script| - i
  {
    assert script[i..][0] == script[i];
    if Appends(script[i]) {
      assert script[i..][1..] == script[i + 1..];
      assert script[..i + 1] == script[..i] + [script[i]];
      JoinedTake(script, i);
      m := FindBreak(script, i + 1, delimiter);
    } else {
      m := i;
    }
  }

  /** recv_until ends with -1 or EAGAIN if and only if some recv breaks it off. */
  lemma UntilBreaksIff(script: seq<Recv>, delimiter: string)
    ensures Until(script, "", delimiter).code == Fault <==>
            exists m: nat :: BrokenAt(script, m, delimiter) && script[m] == Failed
    ensures Until(script, "", delimiter).code == Again <==>
            exists m: nat :: BrokenAt(script, m, delimiter) && script[m].Data?
  {
    assert script[..0] == [] && script[0..] == script;
    forall m: nat | BrokenAt(script, m, delimiter)
      ensures Until(script, "", delimiter).code == if script[m].Failed? then Fault else Again
    {
      UntilBreaks(script, m, delimiter);
    }
    if Until(script, "", delimiter).code in {Fault, Again} {
      var m := FindBreak(script, 0, delimiter);
    }
  }

  /**
   * When each recv brings at least one byte and the delimiter is among the first `need` bytes of
   * the stream, recv_until returns within `need` recvs.
   */
  lemma UntilTerminates(script: seq<Recv>, need: nat, delimiter: string)
    requires AllPositive(script)
    requires need <= |Joined(script)| && Contains(Joined(script)[..need], delimiter)
    ensures
      var r := Until(script, "", delimiter);
      r.code != Waiting && |script| - |r.left| <= need && (AllAppend(script) ==> r.code == Done)
  {
    assert script[..0] == [] && script[0..] == script;
    ContainsMonotone(Joined(script)[..need], Joined(script), delimiter);
    UntilReturnsIff(script, delimiter);
    UntilUses(script, 0, need, delimiter);
  }

  /** A prefix that does not have the delimiter yet is shorter than `need`. */
  lemma ShortOfNeed(script: seq<Recv>, m: nat, need: nat, delimiter: string)
    requires AllPositive(script) && m <= |script|
    requires need <= |Joined(script)| && Contains(Joined(script)[..need], delimiter)
    requires !Contains(Joined(script[..m]), delimiter)
    ensures m <= |Joined(script[..m])| < need && m < |script|
  {
    assert script[..|script|] == script;
    JoinedPrefix(script, m);
    PositiveGrows(script[..m]);
    if need <= |Joined(script[..m])| {
      assert Joined(script)[..need] == Joined(script[..m])[..need];
      ContainsMonotone(Joined(script)[..need], Joined(script[..m]), delimiter);
    }
  }

  lemma {:induction false} UntilUses(script: seq<Recv>, m: nat, need: nat, delimiter: string)
    requires AllPositive(script) && m <= |script| && m <= need
    requires need <= |Joined(script)| && Contains(Joined(script)[..need], delimiter)
    ensures |script| - |Until(script[m..], Joined(script[..m]), delimiter).left| <= need
    decreases |script| - m
  {
    if !Contains(Joined(script[..m]), delimiter) {
      ShortOfNeed(script, m, need, delimiter);
      assert script[m..][0] == script[m] && script[m..][1..] == script[m + 1..];
      JoinedTake(script, m);
      if Appends(script[m]) {
        UntilUses(script, m + 1, need, delimiter);
      }
    }
  }

  /** The loop stops no later than the first prefix that has the delimiter. */
  lemma {:induction false} UntilFromNotLate(script: seq<Recv>, m: nat, k: nat, delimiter: string)
    requires m <= k <= |script| && AllAppend(script) && Contains(Joined(script[..k]), delimiter)
    ensures
      var r := Until(script[m..], Joined(script[..m]), delimiter);
      r.code == Done && |script| - |r.left| <= k
    decreases k - m
  {
    if !Contains(Joined(script[..m]), delimiter) {
      assert m < k;
      assert script[m..][0] == script[m] && script[m..][1..] == script[m + 1..];
      JoinedTake(script, m);
      UntilFromNotLate(script, m + 1, k, delimiter);
    }
  }

  /** A peer that has closed: recvs of zero bytes. */
  function Zeros(n: nat): seq<Recv> {
    seq(n, _ => Data(""))
  }

  /** Without the positive-recv condition neither loop returns: zero-byte recvs change nothing. */
  lemma {:induction false} ZeroRecvsSpin(data: string, n: nat, delimiter: string, length: int)
    ensures !Contains(data, delimiter) ==> Until(Zeros(n), data, delimiter).code == Waiting
    ensures 0 < length ==> Nth(Zeros(n), length, data).code == Waiting
    decreases n
  {
    if n > 0 {
      assert Zeros(n)[1..] == Zeros(n - 1);
      assert data + "" == data;
      ZeroRecvsSpin(data, n - 1, delimiter, length);
    }
  }

  // ----- recv_nth -----

  /** The first m recvs all append, and only with the last of them are there `length` bytes. */
  ghost predicate ShortestOf(script: seq<Recv>, m: nat, length: int) {
    && m <= |script| && AllAppend(script[..m])
    && |Joined(script[..m])| >= length
    && forall j :: 0 <= j < m ==> |Joined(script[..j])| < length
  }

  lemma {:induction false} NthFrom(script: seq<Recv>, m: nat, length: int) returns (n: nat)
    requires m <= |script| && AllAppend(script[..m])
    requires forall j :: 0 <= j < m ==> |Joined(script[..j])| < length
    ensures
      var r := Nth(script[m..], length - |Joined(script[..m])|, Joined(script[..m]));
      && m <= n <= |script| && AllAppend(script[..n])
      && (r.code == Done <==> ShortestOf(script, n, length))
      && (r.code == Done ==> r.data == Joined(script[..n]) && r.left == script[n..])
      && (r.code != Done ==> !exists k: nat :: ShortestOf(script, k, length))
    decreases |script| - m
  {
    var data := Joined(script[..m]);
    n := m;
    if |data| >= length {
    } else if m == |script| {
      NoneOfLength(script, m, length);
    } else if !Appends(script[m]) {
      assert script[m..][0] == script[m];
      NoneOfLength(script, m, length);
    } else {
      assert script[m..][0] == script[m] && script[m..][1..] == script[m + 1..];
      JoinedTake(script, m);
      assert script[..m + 1] == script[..m] + [script[m]];
      n := NthFrom(script, m + 1, length);
    }
  }

  lemma NoneOfLength(script: seq<Recv>, m: nat, length: int)
    requires m <= |script|
    requires forall j :: 0 <= j <= m ==> |Joined(script[..j])| < length
    requires m == |script| || !Appends(script[m])
    ensures !exists k: nat :: ShortestOf(script, k, length)
  {
    forall k: nat | ShortestOf(script, k, length)
      ensures false
    {
    }
  }

  /**
   * recv_nth returns 1 exactly when some recvs all append and reach the length; the data is
   * then the shortest such whole-chunk prefix, and overshoots by less than one buffer.
   */
  lemma NthIsShortestPrefix(script: seq<Recv>, length: int)
    ensures
      var r := Nth(script, length, "");
      && (r.code == Done <==> exists m: nat :: ShortestOf(script, m, length))
      && (forall m: nat :: ShortestOf(script, m, length) ==> r.data == Joined(script[..m]) && r.left == script[m..])
      && (r.code == Done && 0 <= length && WithinBuffer(script) ==> length <= |r.data| < length + 1023)
      && (length <= 0 ==> r.code == Done && r.data == "")
  {
    assert script[..0] == [] && script[0..] == script;
    var n := NthFrom(script, 0, length);
    if Nth(script, length, "").code == Done && n > 0 {
      assert script[..n][n - 1] == script[n - 1];
      JoinedTake(script, n - 1);
    }
    forall m: nat | ShortestOf(script, m, length)
      ensures m == n
    {
    }
  }

  lemma NthTakes(script: seq<Recv>, length: int) returns (k: nat)
    requires Nth(script, length, "").code == Done
    ensures ShortestOf(script, k, length)
    ensures Nth(script, length, "") == Received(Done, Joined(script[..k]), script[k..])
  {
    NthIsShortestPrefix(script, length);
    k :| ShortestOf(script, k, length);
  }

  /** recv_nth behind the first h recvs: the slices of the script are taken from its start. */
  lemma NthTakesFrom(script: seq<Recv>, h: nat, length: int) returns (m: nat)
    requires h <= |script| && Nth(script[h..], length, "").code == Done
    ensures h <= m <= |script| && ShortestOf(script[h..], m - h, length)
    ensures Nth(script[h..], length, "") == Received(Done, Joined(script[h..m]), script[m..])
  {
    var k := NthTakes(script[h..], length);
    m := h + k;
    SliceTwice(script, h, m);
  }

  lemma SliceTwice(script: seq<Recv>, h: nat, m: nat)
    requires h <= m <= |script|
    ensures script[h..][..m - h] == script[h..m] && script[h..][m - h..] == script[m..]
  {
  }

  // ----- Boundaries -----

  /** The first n bytes of the stream come in whole recvs. */
  ghost predicate Boundary(script: seq<Recv>, n: nat) {
    exists h: nat :: h <= |script| && |Joined(script[..h])| == n
  }

  lemma JoinedGrows(script: seq<Recv>, i: nat, j: nat)
    requires i <= j <= |script|
    ensures Joined(script[..i]) <= Joined(script[..j]) <= Joined(script)
  {
    assert script[..j][..i] == script[..i];
    JoinedPrefix(script[..j], i);
    JoinedPrefix(script, j);
  }

  lemma JoinedAfter(script: seq<Recv>, h: nat, m: nat)
    requires h <= m <= |script|
    ensures Joined(script[..m]) == Joined(script[..h]) + Joined(script[h..m])
  {
    assert script[..m] == script[..h] + script[h..m];
    JoinedConcat(script[..h], script[h..m]);
  }

  /** A delimiter that ends at `end`: its shortest whole-recv prefix ends there if any does. */
  lemma UntilBoundary(script: seq<Recv>, h: nat, delimiter: string, end: nat)
    requires ShortestWith(script, h, delimiter)
    requires Find(Joined(script), delimiter, 0).Some? && Find(Joined(script), delimiter, 0).value + |delimiter| == end
    ensures end <= |Joined(script[..h])|
    ensures Boundary(script, end) <==> |Joined(script[..h])| == end
  {
    JoinedPrefix(script, h);
    ContainsMonotone(Joined(script[..h]), Joined(script), delimiter);
    if Boundary(script, end) {
      var b: nat :| b <= |script| && |Joined(script[..b])| == end;
      JoinedPrefix(script, b);
      PrefixContains(Joined(script), Joined(script[..b]), delimiter);
      JoinedGrows(script, h, b);
    }
  }

  lemma PrefixContains(stream: string, data: string, delimiter: string)
    requires Find(stream, delimiter, 0).Some? && data <= stream
    requires |data| >= Find(stream, delimiter, 0).value + |delimiter|
    ensures Contains(data, delimiter)
  {
    var i := Find(stream, delimiter, 0).value;
    assert data[i..i + |delimiter|] == stream[i..i + |delimiter|];
    assert OccursAt(data, delimiter, i);
  }

  /** Recvs that bring `length` bytes are no fewer than the shortest such ones. */
  lemma ShortestIsLeast(script: seq<Recv>, k: nat, length: int, j: nat)
    requires ShortestOf(script, k, length)
    requires j <= |script| && length <= |Joined(script[..j])|
    ensures k <= j
  {
  }

  lemma NthStopsAt(script: seq<Recv>, h: nat, m: nat, length: nat, b: nat)
    requires h <= m <= |script| && ShortestOf(script[h..], m - h, length) && b <= |script|
    requires |Joined(script[..b])| == |Joined(script[..h])| + length
    ensures |Joined(script[..m])| <= |Joined(script[..b])|
  {
    if h <= b {
      JoinedAfter(script, h, b);
      SliceTwice(script, h, b);
      ShortestIsLeast(script[h..], m - h, length, b - h);
      JoinedGrows(script, m, b);
    } else {
      JoinedGrows(script, b, h);
      ShortestIsLeast(script[h..], m - h, length, 0);
    }
  }

  lemma LongEnough(script: seq<Recv>, h: nat, m: nat, length: int)
    requires h <= m <= |script| && ShortestOf(script[h..], m - h, length)
    ensures length <= |Joined(script[h..m])|
  {
    SliceTwice(script, h, m);
  }

  /** After h recvs, the recvs for `length` more bytes end exactly there if any do. */
  lemma NthBoundary(script: seq<Recv>, h: nat, m: nat, length: nat)
    requires h <= m <= |script| && ShortestOf(script[h..], m - h, length)
    ensures |Joined(script[..h])| + length <= |Joined(script[..m])|
    ensures Boundary(script, |Joined(script[..h])| + length) <==>
            |Joined(script[..m])| == |Joined(script[..h])| + length
  {
    var end := |Joined(script[..h])| + length;
    LongEnough(script, h, m, length);
    JoinedAfter(script, h, m);
    if Boundary(script, end) {
      var b: nat :| b <= |script| && |Joined(script[..b])| == end;
      NthStopsAt(script, h, m, length, b);
    }
  }

  /**
   * recv_nth never returns exactly when every recv appends and the stream is too short; when
   * every recv appends, it returns 1 exactly when the stream has `length` bytes.
   */
  lemma {:induction false} NthReturnsIff(script: seq<Recv>, length: int, data: string)
    ensures Nth(script, length, data).code == Waiting <==> AllAppend(script) && |Joined(script)| < length
    ensures AllAppend(script) ==> (Nth(script, length, data).code == Done <==> length <= |Joined(script)|)
    decreases |script|
  {
    if 0 < length && script != [] && Appends(script[0]) {
      var n, rest := |script[0].bytes|, script[1..];
      assert AllAppend(script) <==> AllAppend(rest) by {
        assert forall i :: 1 <= i < |script| ==> script[i] == rest[i - 1];
      }
      NthReturnsIff(rest, length - n, data + script[0].bytes);
    }
  }

  /** When each recv brings at least one byte, recv_nth returns within `length` recvs. */
  lemma {:induction false} NthTerminates(script: seq<Recv>, length: nat, data: string)
    requires AllPositive(script) && length <= |Joined(script)|
    ensures
      var r := Nth(script, length, data);
      r.code != Waiting && |script| - |r.left| <= length && (AllAppend(script) ==> r.code == Done)
    decreases |script|
  {
    NthReturnsIff(script, length, data);
    if length > 0 {
      var n := |script[0].bytes|;
      if n < length && n != EAGAIN {
        NthTerminates(script[1..], length - n, data + script[0].bytes);
      }
    }
  }

  /** recv_nth in full: the first recv that does not append breaks it off, unless the length is there. */
  lemma {:induction false} NthBreaks(script: seq<Recv>, m: nat, length: int, data: string)
    requires m < |script| && AllAppend(script[..m]) && !Appends(script[m]) && |Joined(script[..m])| < length
    ensures script[m].Failed? || |script[m].bytes| == 11
    ensures Nth(script, length, data) ==
            Received(if script[m].Failed? then Fault else Again, data + Joined(script[..m]), script[m + 1..])
    decreases m
  {
    if m == 0 {
      assert script[..0] == [] && data + "" == data;
    } else {
      var first, rest := script[0], script[1..];
      assert script[..m][0] == first && script[..m] == [first] + rest[..m - 1];
      JoinedCons(first, rest[..m - 1]);
      assert rest[..m - 1] == script[..m][1..];
      NthBreaks(rest, m - 1, length - |first.bytes|, data + first.bytes);
      assert data + first.bytes + Joined(rest[..m - 1]) == data + (first.bytes + Joined(rest[..m - 1]));
      assert rest[m - 1] == script[m] && rest[m..] == script[m + 1..];
    }
  }
}
