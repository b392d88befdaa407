/**
 * C strings written into a buffer: `stpncpy` of compat.cc, and what a sequence of such
 * writes leaves behind. A std::string passed as c_str() is cut at its first NUL.
 */
module CString {

  predicate NulFree(s: string) {
    forall i :: 0 <= i < |s| ==> s[i] != '\0'
  }

  /** strlen of s.c_str(). */
  function StrLen(s: string): (n: nat)
    ensures n <= |s| && NulFree(s[..n])
    ensures n < |s| ==> s[n] == '\0'
    ensures n == |s| <==> NulFree(s)
  {
    if s == "" || s[0] == '\0' then 0
    else
      assert s[..1 + StrLen(s[1..])] == [s[0]] + s[1..][..StrLen(s[1..])];
      1 + StrLen(s[1..])
  }

  /** What is seen of a std::string through c_str(). */
  function CStr(s: string): (r: string)
    ensures r == s <==> NulFree(s)
    ensures NulFree(r)
  {
    s[..StrLen(s)]
  }

  /** The `len` bytes that strncpy stores: the C string, cut or padded with NULs. */
  function Field(src: string, len: nat): (r: string)
    ensures |r| == len
  {
    seq(len, i requires 0 <= i < len => if i < StrLen(src) then src[i] else '\0')
  }

  /** It is the C string, filled up with NULs, or its beginning. */
  lemma FieldIs(src: string, len: nat)
    ensures Field(src, len) ==
            if len <= |CStr(src)| then CStr(src)[..len] else CStr(src) + seq(len - |CStr(src)|, _ => '\0')
  {
  }

  function Splice(buf: string, at: nat, s: string): (r: string)
    requires at + |s| <= |buf|
    ensures |r| == |buf|
  {
    buf[..at] + s + buf[at + |s|..]
  }

  method Strncpy(dst: array<char>, at: nat, src: string, len: nat)
    requires at + len <= dst.Length
    modifies dst
    ensures dst[..] == Splice(old(dst[..]), at, Field(src, len))
  {
    var i := 0;
    var n := StrLen(src);
    while i < len
      invariant 0 <= i <= len
      invariant forall k :: 0 <= k < dst.Length ==>
                  dst[k] == if at <= k < at + i then Field(src, len)[k - at] else old(dst[k])
    {
      dst[at + i] := if i < n then src[i] else '\0';
      i := i + 1;
    }
    ghost var want := Splice(old(dst[..]), at, Field(src, len));
    forall k | 0 <= k < dst.Length
      ensures dst[..][k] == want[k]
    {
    }
  }

  /** A buffer and the position the next write starts at. */
  datatype Cursor = Cursor(buf: string, at: nat)

  function Emit(c: Cursor, s: string): Cursor
    requires c.at + |s| <= |c.buf|
  {
    Cursor(Splice(c.buf, c.at, Field(s, |s|)), c.at + StrLen(s))
  }

  /** Copies at most `len` bytes and returns the end of what was copied, padding excluded. */
  method Stpncpy(dst: array<char>, at: nat, src: string, len: nat) returns (end: nat)
    requires at + len <= dst.Length
    modifies dst
    ensures dst[..] == Splice(old(dst[..]), at, Field(src, len))
    ensures end == at + if StrLen(src) > len then len else StrLen(src)
  {
    var n := StrLen(src);
    if n > len {
      n := len;
    }
    Strncpy(dst, at, src, len);
    end := at + n;
  }

  // ----- A sequence of writes -----

  function Total(pieces: seq<string>): nat {
    if pieces == [] then 0 else |pieces[0]| + Total(pieces[1..])
  }

  function EmitAll(c: Cursor, pieces: seq<string>): (r: Cursor)
    requires c.at + Total(pieces) <= |c.buf|
    ensures |r.buf| == |c.buf|
    decreases |pieces|
  {
    if pieces == [] then c else EmitAll(Emit(c, pieces[0]), pieces[1..])
  }

  lemma EmitCons(c: Cursor, s: string, rest: seq<string>)
    requires c.at + Total([s] + rest) <= |c.buf|
    ensures Total([s] + rest) == |s| + Total(rest)
    ensures EmitAll(c, [s] + rest) == EmitAll(Emit(c, s), rest)
  {
    assert ([s] + rest)[1..] == rest;
  }

  function Text(pieces: seq<string>): string {
    if pieces == [] then "" else pieces[0] + Text(pieces[1..])
  }

  /** The visible text: each piece cut at its first NUL. */
  function Visible(pieces: seq<string>): string {
    if pieces == [] then "" else CStr(pieces[0]) + Visible(pieces[1..])
  }

  predicate AllNulFree(pieces: seq<string>) {
    forall i :: 0 <= i < |pieces| ==> NulFree(pieces[i])
  }

  lemma {:induction false} VisibleLength(pieces: seq<string>)
    ensures |Visible(pieces)| <= Total(pieces) == |Text(pieces)|
    ensures NulFree(Visible(pieces))
    ensures |Visible(pieces)| == Total(pieces) <==> AllNulFree(pieces)
    ensures AllNulFree(pieces) ==> Visible(pieces) == Text(pieces)
  {
    if pieces != [] {
      VisibleLength(pieces[1..]);
      assert AllNulFree(pieces) <==> NulFree(pieces[0]) && AllNulFree(pieces[1..]) by {
        if AllNulFree(pieces[1..]) && NulFree(pieces[0]) {
          forall i | 0 <= i < |pieces| ensures NulFree(pieces[i]) {
            assert i > 0 ==> pieces[i] == pieces[1..][i - 1];
          }
        }
      }
    }
  }

  /** One write: the text grows by the visible part, nothing outside the field changes. */
  lemma EmitWrites(c: Cursor, s: string)
    requires c.at + |s| <= |c.buf|
    ensures Emit(c, s).buf[..Emit(c, s).at] == c.buf[..c.at] + CStr(s)
    ensures forall k :: 0 <= k < |c.buf| && !(c.at <= k < c.at + |s|) ==> Emit(c, s).buf[k] == c.buf[k]
  {
    var r := Emit(c, s);
    assert forall k :: 0 <= k < r.at ==> r.buf[k] == if k < c.at then c.buf[k] else s[k - c.at];
  }

  /**
   * Whatever bytes the pieces hold: no write leaves [at, at + Total), the visible text is
   * contiguous from `at` to the returned position, and that position is at + Total exactly
   * when no piece has a NUL.
   */
  lemma {:induction false} EmitAllWrites(c: Cursor, pieces: seq<string>)
    requires c.at + Total(pieces) <= |c.buf|
    ensures
      var r := EmitAll(c, pieces);
      && r.at == c.at + |Visible(pieces)|
      && r.at <= c.at + Total(pieces)
      && r.buf[..r.at] == c.buf[..c.at] + Visible(pieces)
      && (forall k :: 0 <= k < c.at || c.at + Total(pieces) <= k < |c.buf| ==> r.buf[k] == c.buf[k])
      && (r.at == c.at + Total(pieces) <==> AllNulFree(pieces))
    decreases |pieces|
  {
    VisibleLength(pieces);
    if pieces == [] {
      assert c.buf[..c.at] + "" == c.buf[..c.at];
    } else {
      var d := Emit(c, pieces[0]);
      EmitWrites(c, pieces[0]);
      EmitAllWrites(d, pieces[1..]);
      assert c.buf[..c.at] + (CStr(pieces[0]) + Visible(pieces[1..])) ==
             c.buf[..c.at] + CStr(pieces[0]) + Visible(pieces[1..]);
    }
  }

  /**
   * The promise of a printer: from `at` to the returned `end` stands the visible text of the
   * pieces, no byte outside the Total(pieces) bytes from `at` has changed, and `end` is that
   * far exactly when no piece has a NUL.
   */
  ghost predicate PrintedExactly(before: string, at: nat, after: string, end: nat, pieces: seq<string>)
    requires at + Total(pieces) <= |before|
  {
    && |after| == |before|
    && at <= end <= at + Total(pieces)
    && after[at..end] == Visible(pieces)
    && (forall k :: 0 <= k < at || at + Total(pieces) <= k < |before| ==> after[k] == before[k])
    && (end == at + Total(pieces) <==> AllNulFree(pieces))
  }

  lemma {:induction false} TotalConcat(a: seq<string>, b: seq<string>)
    ensures Total(a + b) == Total(a) + Total(b)
    ensures Text(a + b) == Text(a) + Text(b)
  {
    if a == [] {
      assert a + b == b;
    } else {
      assert (a + b)[1..] == a[1..] + b;
      TotalConcat(a[1..], b);
    }
  }

  lemma PieceCons(s: string, rest: seq<string>)
    ensures Total([s] + rest) == |s| + Total(rest)
    ensures Text([s] + rest) == s + Text(rest)
  {
    assert ([s] + rest)[1..] == rest;
  }

  lemma FivePieces(a: string, b: string, c: string, d: string, e: string)
    ensures Total([a, b, c, d, e]) == |a| + |b| + |c| + |d| + |e|
    ensures Text([a, b, c, d, e]) == a + b + c + d + e
  {
    var p4 := [e] + [];
    var p3 := [d] + p4;
    var p2 := [c] + p3;
    var p1 := [b] + p2;
    assert [a, b, c, d, e] == [a] + p1;
    PieceCons(a, p1);
    PieceCons(b, p2);
    PieceCons(c, p3);
    PieceCons(d, p4);
    PieceCons(e, []);
    assert a + (b + (c + (d + (e + "")))) == a + b + c + d + e;
  }

  lemma SevenPieces(a: string, b: string, c: string, d: string, e: string, f: string, g: string)
    ensures Total([a, b, c, d, e, f, g]) == |a| + |b| + |c| + |d| + |e| + |f| + |g|
    ensures Text([a, b, c, d, e, f, g]) == a + b + c + d + e + f + g
  {
    var rest := [c, d, e, f, g];
    FivePieces(c, d, e, f, g);
    assert [a, b, c, d, e, f, g] == [a] + ([b] + rest);
    PieceCons(a, [b] + rest);
    PieceCons(b, rest);
    assert a + (b + (c + d + e + f + g)) == a + b + c + d + e + f + g;
  }

  lemma {:induction false} EmitAllConcat(c: Cursor, a: seq<string>, b: seq<string>)
    requires c.at + Total(a) + Total(b) <= |c.buf|
    ensures Total(a + b) == Total(a) + Total(b)
    ensures EmitAll(c, a).at + Total(b) <= |c.buf|
    ensures EmitAll(c, a + b) == EmitAll(EmitAll(c, a), b)
    decreases |a|
  {
    TotalConcat(a, b);
    EmitAllWrites(c, a);
    if a == [] {
      assert a + b == b;
    } else {
      assert (a + b)[1..] == a[1..] + b;
      EmitAllConcat(Emit(c, a[0]), a[1..], b);
    }
  }

  /** A start line, a header list and a last field, written one behind the other. */
  lemma EmitSections(c: Cursor, line: seq<string>, headers: seq<string>, last: string)
    requires c.at + Total(line + headers + [last]) <= |c.buf|
    ensures Total(line + headers + [last]) == Total(line) + Total(headers) + |last|
    ensures c.at + Total(line) + Total(headers) + |last| <= |c.buf|
    ensures EmitAll(c, line).at + Total(headers) + |last| <= |c.buf|
    ensures EmitAll(EmitAll(c, line), headers).at + Total([last]) <= |c.buf|
    ensures EmitAll(c, line + headers + [last]) == EmitAll(EmitAll(EmitAll(c, line), headers), [last])
  {
    TotalConcat(line + headers, [last]);
    TotalConcat(line, headers);
    PieceCons(last, []);
    assert [last] + [] == [last];
    EmitAllConcat(c, line, headers);
    EmitAllConcat(c, line + headers, [last]);
    EmitAllWrites(c, line);
  }

  /** The printers' use of stpncpy: a whole string is written, `rest` is still to come. */
  method CopyField(dst: array<char>, at: nat, s: string, ghost rest: seq<string>) returns (end: nat)
    requires at + Total([s] + rest) <= dst.Length
    modifies dst
    ensures end + Total(rest) <= dst.Length
    ensures EmitAll(Cursor(dst[..], end), rest) == EmitAll(Cursor(old(dst[..]), at), [s] + rest)
  {
    ghost var c := Cursor(dst[..], at);
    EmitCons(c, s, rest);
    end := Stpncpy(dst, at, s, |s|);
    assert Cursor(dst[..], end) == Emit(c, s);
  }

  lemma EmitAllPrints(c: Cursor, pieces: seq<string>)
    requires c.at + Total(pieces) <= |c.buf|
    ensures PrintedExactly(c.buf, c.at, EmitAll(c, pieces).buf, EmitAll(c, pieces).at, pieces)
  {
    EmitAllWrites(c, pieces);
    VisibleLength(pieces);
    var r := EmitAll(c, pieces);
    assert r.buf[c.at..r.at] == r.buf[..r.at][c.at..];
  }
}
