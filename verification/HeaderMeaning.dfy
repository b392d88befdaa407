/**
 * What header lines mean, written out: the white space that is trimmed, the header of a line, the
 * lines that continue it, and the end of a block.
 */
module HeaderMeaning {
  import opened Wrappers
  import opened Search
  import opened HeaderList
  import opened HeaderGrammar

  // ----- White space -----

  /** The white space of the C locale. */
  predicate White(c: char) {
    c == ' ' || c == '\t' || c == '\n' || c == '\r' || c == '\U{000B}' || c == '\U{000C}'
  }

  predicate AllWhite(s: string) {
    forall i :: 0 <= i < |s| ==> White(s[i])
  }

  /** No white space at either end. */
  predicate Clean(s: string) {
    s == "" || (!White(s[0]) && !White(s[|s| - 1]))
  }

  lemma {:induction false} WhiteSkipped(white: string, s: string, i: nat)
    requires AllWhite(white) && i <= |white| && (s == "" || !White(s[0]))
    ensures SkipSpaces(white + s, i) == |white|
    decreases |white| - i
  {
    if i < |white| {
      assert (white + s)[i] == white[i];
      WhiteSkipped(white, s, i + 1);
    } else if s != "" {
      assert (white + s)[i] == s[0];
    }
  }

  lemma {:induction false} SkippedIsWhite(s: string, i: nat)
    requires i <= |s|
    ensures AllWhite(s[i..SkipSpaces(s, i)])
    decreases |s| - i
  {
    if i < |s| && IsSpace(s[i]) {
      SkippedIsWhite(s, i + 1);
      var end := SkipSpaces(s, i + 1);
      assert s[i..end] == [s[i]] + s[i + 1..end];
    }
  }

  lemma {:induction false} CutIsWhite(s: string, lo: nat, hi: nat)
    requires lo <= hi <= |s|
    ensures AllWhite(s[CutSpaces(s, lo, hi)..hi])
    decreases hi
  {
    if lo < hi && IsSpace(s[hi - 1]) {
      CutIsWhite(s, lo, hi - 1);
      var end := CutSpaces(s, lo, hi - 1);
      assert s[end..hi] == s[end..hi - 1] + [s[hi - 1]];
    }
  }

  lemma {:induction false} WhiteCut(s: string, lo: nat, mid: nat, hi: nat)
    requires lo <= mid <= hi <= |s| && AllWhite(s[mid..hi])
    requires lo == mid || !White(s[mid - 1])
    ensures CutSpaces(s, lo, hi) == mid
    decreases hi
  {
    if mid < hi {
      assert White(s[mid..hi][hi - 1 - mid]);
      assert s[mid..hi - 1] == s[mid..hi][..hi - 1 - mid];
      WhiteCut(s, lo, mid, hi - 1);
    }
  }

  /** Trimming a text that has white space around a clean one gives the clean one. */
  lemma TrimOf(a: string, t: string, b: string)
    requires AllWhite(a) && AllWhite(b) && Clean(t)
    ensures Trim(a + t + b) == t
  {
    var s := a + t + b;
    if t == "" {
      assert s == (a + b) + "";
      WhiteSkipped(a + b, "", 0);
    } else {
      assert s == a + (t + b);
      WhiteSkipped(a, t + b, 0);
      assert s[|a| + |t|..|s|] == b;
      assert s[|a| + |t| - 1] == t[|t| - 1];
      WhiteCut(s, |a|, |a| + |t|, |s|);
      assert s[|a|..|a| + |t|] == t;
    }
  }

  lemma TrimParts(s: string) returns (a: string, b: string)
    ensures s == a + Trim(s) + b && AllWhite(a) && AllWhite(b) && Clean(Trim(s))
  {
    var lo := SkipSpaces(s, 0);
    var hi := CutSpaces(s, lo, |s|);
    a, b := s[..lo], s[hi..];
    EndsAreWhite(s, lo, hi);
    MiddleIsClean(s, lo, hi);
    ThreeSlices(s, lo, hi);
  }

  lemma EndsAreWhite(s: string, lo: nat, hi: nat)
    requires lo == SkipSpaces(s, 0) && hi == CutSpaces(s, lo, |s|)
    ensures AllWhite(s[..lo]) && AllWhite(s[hi..])
  {
    SkippedIsWhite(s, 0);
    CutIsWhite(s, lo, |s|);
    assert s[0..lo] == s[..lo] && s[hi..|s|] == s[hi..];
  }

  lemma MiddleIsClean(s: string, lo: nat, hi: nat)
    requires lo == SkipSpaces(s, 0) && hi == CutSpaces(s, lo, |s|)
    ensures Clean(s[lo..hi])
  {
    if lo < hi {
      assert s[lo..hi][0] == s[lo] && s[lo..hi][hi - lo - 1] == s[hi - 1];
    }
  }

  lemma ThreeSlices(s: string, lo: nat, hi: nat)
    requires lo <= hi <= |s|
    ensures s == s[..lo] + s[lo..hi] + s[hi..]
  {
  }

  /** Trimming takes the white space at both ends away, all of it, and nothing else. */
  lemma TrimIff(s: string, t: string)
    ensures Trim(s) == t <==> Clean(t) && exists a, b :: AllWhite(a) && AllWhite(b) && s == a + t + b
  {
    var before, after := TrimParts(s);
    if Clean(t) {
      forall a, b | AllWhite(a) && AllWhite(b) && s == a + t + b
        ensures Trim(s) == t
      {
        TrimOf(a, t, b);
      }
    }
  }

  // ----- Header lines -----

  /** A line without a colon is no header; any other is cut at its first colon and its value trimmed. */
  lemma HeaderLineIff(line: string)
    ensures ReadHeader(line).None? <==> ':' !in line
  {
    FindCharIsFirst(line, ':', 0);
  }

  lemma HeaderLineMeans(key: string, a: string, value: string, b: string)
    requires ':' !in key && AllWhite(a) && AllWhite(b) && Clean(value)
    ensures ReadHeader(key + ":" + (a + value + b)) == Some(Header(key, value))
  {
    var tail := a + value + b;
    var line := key + ":" + tail;
    FindCharIsFirst(line, ':', 0);
    assert line[|key|] == ':';
    assert forall i :: 0 <= i < |key| ==> line[i] == key[i];
    assert line[..|key|] == key && line[|key| + 1..] == tail;
    TrimOf(a, value, b);
  }

  /** The line goes on with the one before it. */
  predicate GoesOn(line: string) {
    line != "" && (line[0] == ' ' || line[0] == '\t')
  }

  lemma LogicalOne(line: string, rest: seq<string>)
    requires !GoesOn(line)
    ensures ReadHeader(line).None? ==>
              Logical([line] + rest) == Block([], Some("HTTP header doesn't contain ':'"))
    ensures ReadHeader(line).Some? && (rest == [] || !GoesOn(rest[0])) ==>
              Logical([line] + rest) == Block([ReadHeader(line).value] + Logical(rest).headers, Logical(rest).error)
  {
    var lines := [line] + rest;
    assert lines[1..] == rest;
    assert rest[..0] == [] && lines[1..1] == [] && lines[1..] == rest;
  }

  /** A block that begins with a continuation line has no header for it. */
  lemma LogicalOrphan(line: string, rest: seq<string>)
    requires GoesOn(line)
    ensures Logical([line] + rest) == Block([], Some("Multi-line header without actual header"))
  {
  }

  /** A header line and one that continues it: the line break is kept, and so is all of the second line. */
  lemma LogicalFolded(line: string, fold: string, h: Header)
    requires !GoesOn(line) && GoesOn(fold) && ReadHeader(line) == Some(h) && h.key != ""
    ensures Logical([line, fold]) == Block([Header(h.key, h.value + "\r\n" + fold)], None)
  {
    var lines := [line, fold];
    assert lines[1..] == [fold] && [fold][1..] == [];
    assert FoldCount([fold]) == 1;
    assert lines[1..2] == [fold] && lines[2..] == [];
    assert Unfold(h.value, [fold]) == h.value + "\r\n" + fold;
  }

  // ----- The end of a block -----

  /**
   * An accepted block ends inside the buffer, two bytes behind the start of its stop line: a line
   * whose first byte is CR or whose second byte is LF.
   */
  lemma ParsedEnds(b: string, l: Headers)
    requires ParseBlock(b, l).outcome.Parsed?
    ensures
      var end := ParseBlock(b, l).outcome.end;
      2 <= end <= |b| && (b[end - 2] == '\r' || b[end - 1] == '\n')
  {
    ScanStops(b, 0);
  }

  lemma {:induction false} ScanStops(b: string, pos: nat)
    requires pos <= |b|
    ensures
      match ScanLines(b, pos).end
      case Stop(p) => p + 2 <= |b| ==> b[p] == '\r' || b[p + 1] == '\n'
      case _ => true
    decreases |b| - pos
  {
    if LineAt(b, pos).Line? {
      var rest := ScanStep(b, pos, LineAt(b, pos).crlf);
      ScanStops(b, LineAt(b, pos).crlf + 2);
    }
  }

  /** What a block's first wrong line, or else its end, makes of it. */
  predicate BlockEnds(size: nat, error: Option<string>, end: End, outcome: Outcome) {
    match error
    case Some(reason) =>
      && outcome == Rejected(reason)
      && (reason == "HTTP header doesn't contain ':'" || reason == "Multi-line header without actual header")
    case None =>
      match end
      case Unterminated => outcome == Rejected("Header line does end with \\r\\n")
      case Overran => outcome == Undefined
      case Stop(p) =>
        outcome == if p + 2 <= size then Parsed(p + 2) else Rejected("Parsed buffer does not contain \\r\\n")
  }

  /** The exceptions of a block, a wrong line before a wrong end. */
  lemma BlockExceptions(b: string, l: Headers) returns (lines: seq<string>, end: End)
    ensures ScanLines(b, 0) == Scan(lines, end)
    ensures BlockEnds(|b|, Logical(lines).error, end, ParseBlock(b, l).outcome)
  {
    lines, end := ScanLines(b, 0).lines, ScanLines(b, 0).end;
    LogicalReasons(lines);
    OutcomeEnds(|b|, Logical(lines).error, end);
  }

  lemma OutcomeEnds(size: nat, error: Option<string>, end: End)
    requires error.Some? ==>
               || error.value == "HTTP header doesn't contain ':'"
               || error.value == "Multi-line header without actual header"
    ensures BlockEnds(size, error, end, BlockOutcome(size, error, end))
  {
  }

  lemma {:induction false} LogicalReasons(lines: seq<string>)
    ensures
      match Logical(lines).error
      case None => true
      case Some(reason) =>
        reason == "HTTP header doesn't contain ':'" || reason == "Multi-line header without actual header"
    decreases |lines|
  {
    if lines != [] && !IsFold(lines[0]) && ReadHeader(lines[0]).Some? {
      LogicalReasons(lines[1 + FoldCount(lines[1..])..]);
    }
  }
}
