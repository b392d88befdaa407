/**
 * What a header block is, stated without a parser: physical lines up to the stop line,
 * grouped into logical headers with their continuation lines (RFC 2616, section 4.2).
 */
module HeaderGrammar {
  import opened Wrappers
  import opened Search
  import opened HeaderList

  const NO_CRLF := "Header line does end with \\r\\n"
  const ORPHAN := "Multi-line header without actual header"
  const NO_COLON := "HTTP header doesn't contain ':'"
  const NO_FINAL := "Parsed buffer does not contain \\r\\n"

  /** size - 2 in a 64-bit size_t: it wraps for the sizes 0 and 1. */
  function SizeMinusTwo(size: nat): nat {
    if size < 2 then size + 0x1_0000_0000_0000_0000 - 2 else size - 2
  }

  /** Reading the buffer; index |b| is the terminator that c_str() guarantees. */
  function ByteAt(b: string, i: nat): char
    requires i <= |b|
  {
    if i < |b| then b[i] else '\0'
  }

  /** The outcome of the loop test; Overread when it looks past the terminator. */
  datatype Guard = Enter | Leave | Overread

  function LoopGuard(b: string, pos: nat): Guard
    requires pos <= |b|
  {
    if pos > SizeMinusTwo(|b|) then Leave
    else if ByteAt(b, pos) == '\r' then Leave
    else if pos + 1 > |b| then Overread
    else if ByteAt(b, pos + 1) == '\n' then Leave
    else Enter
  }

  // ----- Physical lines -----

  datatype End = Stop(pos: nat) | Unterminated | Overran

  datatype Scan = Scan(lines: seq<string>, end: End)

  /** What stands at `pos`: a line ending at the CRLF at `crlf`, or the end of the block. */
  datatype NextLine = Line(crlf: nat) | Last(end: End)

  function LineAt(b: string, pos: nat): (r: NextLine)
    requires pos <= |b|
    ensures r.Line? ==> pos < r.crlf && r.crlf + 2 <= |b|
    ensures r.Last? && r.end.Stop? ==> r.end.pos == pos
  {
    match LoopGuard(b, pos)
    case Leave => Last(Stop(pos))
    case Overread => Last(Overran)
    case Enter =>
      match NextCrlf(b, pos)
      case None => Last(Unterminated)
      case Some(e) => Line(e)
  }

  /** The lines from `pos` to the stop line, and how the block ended. */
  function ScanLines(b: string, pos: nat): (r: Scan)
    requires pos <= |b|
    ensures r.end.Stop? ==> pos <= r.end.pos <= |b|
    decreases |b| - pos
  {
    match LineAt(b, pos)
    case Last(end) => Scan([], end)
    case Line(e) =>
      var rest := ScanLines(b, e + 2);
      Scan([b[pos..e]] + rest.lines, rest.end)
  }

  lemma ScanStep(b: string, pos: nat, e: nat) returns (rest: Scan)
    requires pos <= |b| && LineAt(b, pos) == Line(e)
    ensures rest == ScanLines(b, e + 2)
    ensures ScanLines(b, pos) == Scan([b[pos..e]] + rest.lines, rest.end)
  {
    rest := ScanLines(b, e + 2);
  }

  // ----- Logical headers -----

  predicate IsSpace(c: char) {
    c == ' ' || c == '\t' || c == '\n' || c == '\r' || c == '\U{000B}' || c == '\U{000C}'
  }

  /** The first position from `i` on that holds no white space. */
  function SkipSpaces(s: string, i: nat): (r: nat)
    requires i <= |s|
    ensures i <= r <= |s|
    ensures r < |s| ==> !IsSpace(s[r])
    decreases |s| - i
  {
    if i < |s| && IsSpace(s[i]) then SkipSpaces(s, i + 1) else i
  }

  /** The end of s[lo..hi] once white space is dropped from its right. */
  function CutSpaces(s: string, lo: nat, hi: nat): (r: nat)
    requires lo <= hi <= |s|
    ensures lo <= r <= hi
    ensures lo < r ==> !IsSpace(s[r - 1])
    decreases hi
  {
    if lo < hi && IsSpace(s[hi - 1]) then CutSpaces(s, lo, hi - 1) else hi
  }

  /** boost::trim: strip white space on both sides. */
  function Trim(s: string): string {
    var lo := SkipSpaces(s, 0);
    s[lo..CutSpaces(s, lo, |s|)]
  }

  /** A continuation line starts with a space or a tab. */
  predicate IsFold(line: string) {
    line != "" && (line[0] == ' ' || line[0] == '\t')
  }

  /** The number of leading continuation lines. */
  function FoldCount(lines: seq<string>): (n: nat)
    ensures n <= |lines|
  {
    if lines == [] || !IsFold(lines[0]) then 0 else 1 + FoldCount(lines[1..])
  }

  /** The header that a line begins, if it has a colon. */
  function ReadHeader(line: string): Option<Header> {
    match FindChar(line, ':', 0)
    case None => None
    case Some(c) => Some(Header(line[..c], Trim(line[c + 1..])))
  }

  /** A folded value keeps its line breaks. */
  function Unfold(value: string, folds: seq<string>): string
    decreases |folds|
  {
    if folds == [] then value else Unfold(value + CRLF + folds[0], folds[1..])
  }

  /** The logical headers of the lines, and what is wrong with the first line that does not fit. */
  datatype Block = Block(headers: seq<Header>, error: Option<string>)

  function Logical(lines: seq<string>): Block
    decreases |lines|
  {
    if lines == [] then Block([], None)
    else if IsFold(lines[0]) then Block([], Some(ORPHAN))
    else
      match ReadHeader(lines[0])
      case None => Block([], Some(NO_COLON))
      case Some(h) =>
        var n := FoldCount(lines[1..]);
        if h.key == "" && n > 0 then Block([h], Some(ORPHAN))
        else
          var rest := Logical(lines[1 + n..]);
          Block([Header(h.key, Unfold(h.value, lines[1..1 + n]))] + rest.headers, rest.error)
  }

  // ----- Parsing a block -----

  /**
   * Parsed: the end position. Rejected: a ParseException. BadCast: a boost::bad_lexical_cast,
   * which no caller catches. Undefined: the program has read outside the buffer.
   */
  datatype Outcome = Parsed(end: nat) | Rejected(reason: string) | BadCast | Undefined

  /** The same outcome, counted from `offset` bytes earlier. */
  function Shift(outcome: Outcome, offset: nat): Outcome {
    if outcome.Parsed? then Parsed(outcome.end + offset) else outcome
  }

  datatype HeaderResult = HeaderResult(outcome: Outcome, headers: Headers)

  function BlockOutcome(size: nat, error: Option<string>, end: End): Outcome {
    match error
    case Some(reason) => Rejected(reason)
    case None =>
      match end
      case Unterminated => Rejected(NO_CRLF)
      case Overran => Undefined
      case Stop(p) => if p + 2 <= size then Parsed(p + 2) else Rejected(NO_FINAL)
  }

  /** The list after a block has been merged into it, and the first error met. */
  datatype Merge = Merge(headers: Headers, error: Option<string>)

  /** Physical lines, read as logical headers and merged into the list by ModifyHeader. */
  function MergeLines(lines: seq<string>, l: Headers): Merge {
    Merge(ModifyAll(l, Logical(lines).headers), Logical(lines).error)
  }

  function Finish(size: nat, merge: Merge, end: End): HeaderResult {
    HeaderResult(BlockOutcome(size, merge.error, end), merge.headers)
  }

  /** The declarative meaning of a header block. */
  function ParseBlock(b: string, l: Headers): HeaderResult {
    var scan := ScanLines(b, 0);
    Finish(|b|, MergeLines(scan.lines, l), scan.end)
  }
}
