/** http-headers.cc: the header list object, its one-pass parser and its printer. */
module HttpHeaders {
  import opened Wrappers
  import opened Search
  import opened HeaderList
  import opened HeaderGrammar
  import opened CString

  /** What one line does to the list and to the header being read. */
  datatype Step = Next(headers: Headers, key: string, value: string) | Fail(reason: string)

  function TakeLine(line: string, l: Headers, key: string, value: string): Step {
    if IsFold(line) then
      if key == "" then Fail(ORPHAN)
      else Next(Modify(l, key, value + CRLF + line), key, value + CRLF + line)
    else
      match ReadHeader(line)
      case None => Fail(NO_COLON)
      case Some(h) => Next(Modify(l, h.key, h.value), h.key, h.value)
  }

  /**
   * The parser's loop over the lines it meets, with the key and value of the header last
   * read. Each line changes the list at once, continuation lines by rewriting the last header.
   */
  function Pass(lines: seq<string>, l: Headers, key: string, value: string): Merge
    decreases |lines|
  {
    if lines == [] then Merge(l, None)
    else
      var step := TakeLine(lines[0], l, key, value);
      if step.Fail? then Merge(l, Some(step.reason))
      else Pass(lines[1..], step.headers, step.key, step.value)
  }

  lemma PassStep(line: string, rest: seq<string>, l: Headers, key: string, value: string)
    ensures
      var step := TakeLine(line, l, key, value);
      Pass([line] + rest, l, key, value) ==
      if step.Fail? then Merge(l, Some(step.reason)) else Pass(rest, step.headers, step.key, step.value)
  {
    assert ([line] + rest)[1..] == rest;
  }

  /**
   * The declarative meaning at any point of the pass: the pending header absorbs its
   * continuation lines, and what is left is a block.
   */
  function Pending(lines: seq<string>, l: Headers, key: string, value: string): Merge {
    var n := FoldCount(lines);
    if n == 0 then MergeLines(lines, l)
    else if key == "" then Merge(l, Some(ORPHAN))
    else MergeLines(lines[n..], Modify(l, key, Unfold(value, lines[..n])))
  }

  lemma PendingFold(line: string, rest: seq<string>, l: Headers, key: string, value: string)
    requires IsFold(line) && key != ""
    ensures
      var longer := value + CRLF + line;
      Pending([line] + rest, l, key, value) == Pending(rest, Modify(l, key, longer), key, longer)
  {
    var longer := value + CRLF + line;
    var lines := [line] + rest;
    var n := FoldCount(rest);
    assert lines[1..] == rest;
    assert FoldCount(lines) == n + 1;
    assert lines[..n + 1][1..] == rest[..n];
    assert lines[n + 1..] == rest[n..];
    var value' := Unfold(value, lines[..n + 1]);
    assert value' == Unfold(longer, rest[..n]);
    ModifyOverwrites(l, key, longer, value');
    if n == 0 {
      assert rest[..n] == [];
      assert rest[n..] == rest;
    }
  }

  lemma MergeCons(lines: seq<string>, l: Headers, h: Header, after: Block)
    requires Logical(lines) == Block([h] + after.headers, after.error)
    ensures MergeLines(lines, l) == Merge(ModifyAll(Modify(l, h.key, h.value), after.headers), after.error)
  {
    ModifyAllCons(l, h, after.headers);
  }

  /** A header line, its continuation lines, and the rest of the block. */
  lemma LogicalCons(line: string, rest: seq<string>, h: Header)
    requires !IsFold(line) && ReadHeader(line) == Some(h)
    ensures Logical([line] + rest) == HeaderAnd(h, rest)
  {
    var lines := [line] + rest;
    assert lines[1..] == rest;
    var n := FoldCount(rest);
    assert lines[1..1 + n] == rest[..n];
    assert lines[1 + n..] == rest[n..];
  }

  function HeaderAnd(h: Header, rest: seq<string>): Block {
    var n := FoldCount(rest);
    if h.key == "" && n > 0 then Block([h], Some(ORPHAN))
    else
      var after := Logical(rest[n..]);
      Block([Header(h.key, Unfold(h.value, rest[..n]))] + after.headers, after.error)
  }

  lemma PendingHeader(lines: seq<string>, rest: seq<string>, l: Headers, h: Header)
    requires Logical(lines) == HeaderAnd(h, rest)
    ensures MergeLines(lines, l) == Pending(rest, Modify(l, h.key, h.value), h.key, h.value)
  {
    var n := FoldCount(rest);
    if h.key == "" && n > 0 {
      assert [h] + [] == [h];
      MergeCons(lines, l, h, Block([], Some(ORPHAN)));
    } else {
      var value := Unfold(h.value, rest[..n]);
      MergeCons(lines, l, Header(h.key, value), Logical(rest[n..]));
      if n == 0 {
        assert rest[..n] == [] && rest[n..] == rest;
      } else {
        ModifyOverwrites(l, h.key, h.value, value);
      }
    }
  }

  /** The pass and the declarative reading agree on every line. */
  lemma PendingStep(line: string, rest: seq<string>, l: Headers, key: string, value: string)
    ensures
      var step := TakeLine(line, l, key, value);
      Pending([line] + rest, l, key, value) ==
      if step.Fail? then Merge(l, Some(step.reason)) else Pending(rest, step.headers, step.key, step.value)
  {
    var lines := [line] + rest;
    assert lines[0] == line;
    if IsFold(line) {
      if key != "" {
        PendingFold(line, rest, l, key, value);
      }
    } else if ReadHeader(line).Some? {
      LogicalCons(line, rest, ReadHeader(line).value);
      PendingHeader(lines, rest, l, ReadHeader(line).value);
    } else {
      assert Logical(lines) == Block([], Some(NO_COLON));
    }
  }

  lemma {:induction false} OnePassFromAnywhere(lines: seq<string>, l: Headers, key: string, value: string)
    ensures Pass(lines, l, key, value) == Pending(lines, l, key, value)
    decreases |lines|
  {
    if lines != [] {
      assert lines == [lines[0]] + lines[1..];
      PendingStep(lines[0], lines[1..], l, key, value);
      var step := TakeLine(lines[0], l, key, value);
      if step.Next? {
        OnePassFromAnywhere(lines[1..], step.headers, step.key, step.value);
      }
    }
  }

  /** The parser: one pass over the lines it meets, then the check for the final CRLF. */
  function OnePass(b: string, l: Headers): HeaderResult {
    var scan := ScanLines(b, 0);
    Finish(|b|, Pass(scan.lines, l, "", ""), scan.end)
  }

  /**
   * The one-pass parser computes the declarative meaning of the block: same outcome, same
   * list, from every starting list and on every buffer, well formed or not.
   */
  lemma OnePassIsDeclarative(b: string, l: Headers)
    ensures OnePass(b, l) == ParseBlock(b, l)
  {
    var lines := ScanLines(b, 0).lines;
    OnePassFromAnywhere(lines, l, "", "");
    if FoldCount(lines) > 0 {
      assert IsFold(lines[0]);
    }
  }

  /** After a block is parsed, a key has the value of the last logical header of that name. */
  lemma LastHeaderWins(b: string, l: Headers, k: string)
    ensures Lookup(ParseBlock(b, l).headers, k) ==
            LastValue(Logical(ScanLines(b, 0).lines).headers, k, Lookup(l, k))
  {
    LookupAfterModifyAll(l, Logical(ScanLines(b, 0).lines).headers, k);
  }

  // ----- Printing -----

  /** The four strings the printer writes for one header. */
  function HeaderPieces(h: Header): seq<string> {
    [h.key, ": ", h.value, CRLF]
  }

  function Pieces(l: Headers): seq<string> {
    if l == [] then [] else HeaderPieces(l[0]) + Pieces(l[1..])
  }

  lemma PiecesStep(l: Headers)
    requires l != []
    ensures Pieces(l) == [l[0].key] + ([": "] + ([l[0].value] + ([CRLF] + Pieces(l[1..]))))
  {
  }

  lemma PiecesTotal(l: Headers)
    requires l != []
    ensures Total(Pieces(l)) == |l[0].key| + 2 + |l[0].value| + 2 + Total(Pieces(l[1..]))
  {
    var p4 := Pieces(l[1..]);
    PiecesStep(l);
    TotalConcat([CRLF], p4);
    TotalConcat([l[0].value], [CRLF] + p4);
    TotalConcat([": "], [l[0].value] + ([CRLF] + p4));
    TotalConcat([l[0].key], [": "] + ([l[0].value] + ([CRLF] + p4)));
  }

  // ----- The object -----

  class HttpHeaders {
    var headers: Headers

    constructor ()
      ensures headers == []
    {
      headers := [];
    }

    method AddHeader(key: string, value: string)
      modifies this
      ensures headers == old(headers) + [Header(key, value)]
    {
      headers := headers + [Header(key, value)];
    }

    method RemoveHeader(key: string)
      modifies this
      ensures headers == Remove(old(headers), key)
    {
      var item := Position(headers, key);
      if item.Some? {
        headers := headers[..item.value] + headers[item.value + 1..];
      }
    }

    method ModifyHeader(key: string, value: string)
      modifies this
      ensures headers == Modify(old(headers), key, value)
    {
      var item := Position(headers, key);
      PositionIsFirst(headers, key);
      if item.Some? {
        headers := headers[item.value := headers[item.value].(value := value)];
      } else {
        AddHeader(key, value);
      }
    }

    method FindHeader(key: string) returns (value: string)
      ensures value == Lookup(headers, key)
    {
      var item := Position(headers, key);
      if item.Some? {
        value := headers[item.value].value;
      } else {
        value := "";
      }
    }

    /** The body of the parser's loop: one line of the block; Fail is the exception it throws. */
    method ParseLine(line: string, key: string, value: string) returns (step: Step)
      requires line != ""
      modifies this
      ensures step == TakeLine(line, old(headers), key, value)
      ensures headers == if step.Next? then step.headers else old(headers)
    {
      if line[0] == ' ' || line[0] == '\t' {
        if key == "" {
          return Fail(ORPHAN);
        }
        var longer := value + CRLF + line;
        ModifyHeader(key, longer);
        return Next(headers, key, longer);
      }
      var colon := Memmem(line, ":");
      FindCharIsFind(line, ':', 0);
      if colon.None? {
        return Fail(NO_COLON);
      }
      var newKey := line[..colon.value];
      var newValue := line[colon.value + 1..];
      newValue := Trim(newValue);
      ModifyHeader(newKey, newValue);
      return Next(headers, newKey, newValue);
    }

    /** The loop test, and the search for the end of the line it lets in. */
    static method FindLine(buffer: string, curPos: nat) returns (r: NextLine)
      requires curPos <= |buffer|
      ensures r == LineAt(buffer, curPos)
    {
      var guard := LoopGuard(buffer, curPos);
      if guard == Overread {
        return Last(Overran);
      }
      if guard == Leave {
        return Last(Stop(curPos));
      }
      var endline := Memmem(buffer[curPos..], CRLF);
      FindInSuffix(buffer, CRLF, curPos);
      NextCrlfIsFind(buffer, curPos);
      if endline.None? {
        return Last(Unterminated);
      }
      return Line(curPos + endline.value);
    }

    /** One round of the loop: the pass over what is left does not change. */
    method ParseBody(buffer: string, start: nat, endline: nat, key: string, value: string, ghost result: Merge)
      returns (step: Step, ghost rest: Scan)
      requires start <= |buffer| && LineAt(buffer, start) == Line(endline)
      requires result == Pass(ScanLines(buffer, start).lines, headers, key, value)
      modifies this
      ensures rest == ScanLines(buffer, endline + 2) && rest.end == ScanLines(buffer, start).end
      ensures step.Fail? ==> result == Merge(headers, Some(step.reason))
      ensures step.Next? ==> result == Pass(rest.lines, headers, step.key, step.value)
    {
      rest := ScanStep(buffer, start, endline);
      PassStep(buffer[start..endline], rest.lines, headers, key, value);
      step := ParseLine(buffer[start..endline], key, value);
    }

    /** Parses a block into the list, line by line; an exception leaves what was read so far. */
    method ParseHeaders(buffer: string) returns (outcome: Outcome)
      modifies this
      ensures HeaderResult(outcome, headers) == OnePass(buffer, old(headers))
    {
      var curPos: nat := 0;
      var key, value := "", "";
      ghost var left := ScanLines(buffer, 0);
      ghost var result := Pass(left.lines, headers, "", "");
      ghost var end := left.end;
      ghost var whole := OnePass(buffer, headers);
      assert whole == Finish(|buffer|, result, end);
      var line := FindLine(buffer, curPos);
      while line.Line?
        invariant curPos <= |buffer| && line == LineAt(buffer, curPos)
        invariant left == ScanLines(buffer, curPos) && left.end == end
        invariant result == Pass(left.lines, headers, key, value)
        decreases |buffer| - curPos
      {
        var start, endline := curPos, line.crlf;
        curPos := endline + 2;
        var step;
        step, left := ParseBody(buffer, start, endline, key, value, result);
        if step.Fail? {
          assert HeaderResult(Rejected(step.reason), headers) == whole;
          return Rejected(step.reason);
        }
        key, value := step.key, step.value;
        line := FindLine(buffer, curPos);
      }
      assert left == Scan([], line.end) && result == Merge(headers, None);
      outcome := Conclude(|buffer|, line.end);
      assert HeaderResult(outcome, headers) == whole;
    }

    /** After the loop: the final CRLF is skipped if there is room for it. */
    static method Conclude(size: nat, end: End) returns (outcome: Outcome)
      ensures outcome == BlockOutcome(size, None, end)
    {
      match end {
        case Overran =>
          return Undefined;
        case Unterminated =>
          return Rejected(NO_CRLF);
        case Stop(curPos) =>
          if curPos + 2 <= size {
            return Parsed(curPos + 2);
          }
          return Rejected(NO_FINAL);
      }
    }

    method GetTotalLength() returns (len: nat)
      ensures len == Total(Pieces(headers))
    {
      len := 0;
      var i := 0;
      while i < |headers|
        invariant 0 <= i <= |headers|
        invariant len + Total(Pieces(headers[i..])) == Total(Pieces(headers))
      {
        var header := headers[i];
        assert headers[i..][1..] == headers[i + 1..];
        PiecesTotal(headers[i..]);
        len := len + |header.key| + 2 + |header.value| + 2;
        i := i + 1;
      }
    }

    /**
     * Fills the buffer from `at`. The result is the text of the writes, and nothing outside
     * the GetTotalLength bytes from `at` changes.
     */
    method FormatHeaders(buffer: array<char>, at: nat) returns (end: nat)
      requires at + Total(Pieces(headers)) <= buffer.Length
      modifies buffer
      ensures Cursor(buffer[..], end) == EmitAll(Cursor(old(buffer[..]), at), Pieces(headers))
      ensures PrintedExactly(old(buffer[..]), at, buffer[..], end, Pieces(headers))
    {
      EmitAllPrints(Cursor(buffer[..], at), Pieces(headers));
      end := at;
      var i := 0;
      while i < |headers|
        invariant 0 <= i <= |headers|
        invariant end + Total(Pieces(headers[i..])) <= buffer.Length
        invariant EmitAll(Cursor(buffer[..], end), Pieces(headers[i..])) ==
                  EmitAll(Cursor(old(buffer[..]), at), Pieces(headers))
      {
        var header := headers[i];
        assert headers[i..][1..] == headers[i + 1..];
        ghost var p4 := Pieces(headers[i + 1..]);
        ghost var p3 := [CRLF] + p4;
        ghost var p2 := [header.value] + p3;
        ghost var p1 := [": "] + p2;
        PiecesStep(headers[i..]);
        end := CopyField(buffer, end, header.key, p1);
        end := CopyField(buffer, end, ": ", p2);
        end := CopyField(buffer, end, header.value, p3);
        end := CopyField(buffer, end, CRLF, p4);
        i := i + 1;
      }
    }

    /** The headers and the blank line behind them, as both message printers write them. */
    method FormatBlock(buffer: array<char>, at: nat) returns (end: nat)
      requires at + Total(Pieces(headers)) + 2 <= buffer.Length
      modifies buffer
      ensures EmitAll(Cursor(old(buffer[..]), at), Pieces(headers)).at + Total([CRLF]) <= buffer.Length
      ensures Cursor(buffer[..], end) == EmitAll(EmitAll(Cursor(old(buffer[..]), at), Pieces(headers)), [CRLF])
    {
      end := FormatHeaders(buffer, at);
      assert [CRLF] + [] == [CRLF];
      PieceCons(CRLF, []);
      end := CopyField(buffer, end, CRLF, []);
    }
  }
}
