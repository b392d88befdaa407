/**
 * Printing and parsing header blocks undo each other. The lists that survive the trip are
 * described by WellFormed; every list the parser can build is one of them.
 */
module HeaderCodec {
  import opened Wrappers
  import opened Search
  import opened HeaderList
  import opened HeaderGrammar
  import opened CString
  import H = HttpHeaders

  // ----- Lines and their text -----

  /** Lines written out, each with its CRLF. */
  function Terminated(lines: seq<string>): string {
    if lines == [] then "" else lines[0] + CRLF + Terminated(lines[1..])
  }

  lemma {:induction false} TerminatedConcat(a: seq<string>, b: seq<string>)
    ensures Terminated(a + b) == Terminated(a) + Terminated(b)
  {
    if a == [] {
      assert a + b == b;
    } else {
      assert (a + b)[1..] == a[1..] + b;
      TerminatedConcat(a[1..], b);
    }
  }

  /** The lines of a value that may be folded. */
  function SplitCrlf(v: string): (parts: seq<string>)
    ensures |parts| > 0
    decreases |v|
  {
    match NextCrlf(v, 0)
    case None => [v]
    case Some(e) => [v[..e]] + SplitCrlf(v[e + 2..])
  }

  lemma {:induction false} SplitIsLossless(v: string)
    ensures Terminated(SplitCrlf(v)) == v + CRLF
    ensures forall i :: 0 <= i < |SplitCrlf(v)| ==> NoCrlf(SplitCrlf(v)[i])
    decreases |v|
  {
    NextCrlfIsFirst(v, 0);
    match NextCrlf(v, 0)
    case None =>
      assert Terminated([v]) == v + CRLF + Terminated([]);
    case Some(e) =>
      var rest := SplitCrlf(v[e + 2..]);
      SplitIsLossless(v[e + 2..]);
      NoCrlfBefore(v, 0);
      assert v[0..e] == v[..e];
      assert SplitCrlf(v)[1..] == rest;
      assert v == v[..e] + CRLF + v[e + 2..];
  }

  /** Joining lines the way the parser does, then splitting, gives the lines back. */
  lemma {:induction false} UnfoldTerminated(first: string, folds: seq<string>)
    ensures Unfold(first, folds) + CRLF == first + CRLF + Terminated(folds)
    decreases |folds|
  {
    if folds != [] {
      UnfoldTerminated(first + CRLF + folds[0], folds[1..]);
    }
  }

  lemma CancelCrlf(v: string, w: string)
    requires v + CRLF == w + CRLF
    ensures v == w
  {
    assert |v| == |w|;
    assert v == (v + CRLF)[..|v|] == (w + CRLF)[..|w|] == w;
  }

  lemma SplitCons(first: string, w: string)
    requires NoCrlf(first)
    ensures SplitCrlf(first + CRLF + w) == [first] + SplitCrlf(w)
  {
    var v := first + CRLF + w;
    NextCrlfAfter("", first, w);
    assert "" + first + CRLF + w == v;
    assert v[..|first|] == first && v[|first| + 2..] == w;
  }

  lemma LastCrlf(lines: seq<string>) returns (w: string)
    requires lines != []
    ensures Terminated(lines) == w + CRLF
  {
    TerminatedEnds(lines);
    var all := Terminated(lines);
    w := all[..|all| - 2];
  }

  lemma SplitOne(v: string, line: string)
    requires NoCrlf(line) && v + CRLF == Terminated([line])
    ensures SplitCrlf(v) == [line]
  {
    assert Terminated([line]) == line + CRLF;
    CancelCrlf(v, line);
    NoCrlfHasNone(v);
  }

  lemma {:induction false} SplitOfTerminated(v: string, lines: seq<string>)
    requires lines != [] && v + CRLF == Terminated(lines)
    requires forall i :: 0 <= i < |lines| ==> NoCrlf(lines[i])
    ensures SplitCrlf(v) == lines
    decreases |lines|
  {
    var first, rest := lines[0], lines[1..];
    if rest == [] {
      assert lines == [first];
      SplitOne(v, first);
    } else {
      var w := LastCrlf(rest);
      assert v + CRLF == (first + CRLF + w) + CRLF;
      CancelCrlf(v, first + CRLF + w);
      SplitCons(first, w);
      SplitOfTerminated(w, rest);
    }
  }

  lemma NoCrlfHasNone(v: string)
    requires NoCrlf(v)
    ensures NextCrlf(v, 0).None?
  {
    NextCrlfIsFirst(v, 0);
  }

  lemma {:induction false} TerminatedEnds(lines: seq<string>)
    requires lines != []
    ensures |Terminated(lines)| >= 2
    ensures Terminated(lines)[|Terminated(lines)| - 2..] == CRLF
  {
    if |lines| > 1 {
      TerminatedEnds(lines[1..]);
    } else {
      assert Terminated(lines[1..]) == "";
    }
  }

  // ----- Which lists survive -----

  predicate Trimmed(s: string) {
    s == "" || (!IsSpace(s[0]) && !IsSpace(s[|s| - 1]))
  }

  /** A line the parser's loop test lets in. */
  predicate PlainLine(s: string) {
    s != "" && NoCrlf(s) && s[0] != '\r' && (|s| > 1 ==> s[1] != '\n')
  }

  predicate KeyOk(key: string) {
    && NoCrlf(key)
    && ':' !in key
    && (key != "" ==> key[0] != '\r' && key[0] != ' ' && key[0] != '\t')
    && (|key| > 1 ==> key[1] != '\n')
  }

  predicate FoldsOk(folds: seq<string>) {
    forall i :: 0 <= i < |folds| ==> IsFold(folds[i]) && PlainLine(folds[i])
  }

  /** A key without a colon, a trimmed first line, continuation lines; none under an empty key. */
  predicate HeaderOk(h: Header) {
    var parts := SplitCrlf(h.value);
    KeyOk(h.key) && Trimmed(parts[0]) && FoldsOk(parts[1..]) && (h.key == "" ==> |parts| == 1)
  }

  predicate AllOk(hs: seq<Header>) {
    forall i :: 0 <= i < |hs| ==> HeaderOk(hs[i])
  }

  predicate AllPlain(lines: seq<string>) {
    forall i :: 0 <= i < |lines| ==> PlainLine(lines[i])
  }

  predicate WellFormed(l: Headers) {
    Distinct(l) && AllOk(l)
  }

  /** The physical lines of one printed header. */
  function PhysicalLines(h: Header): seq<string> {
    [h.key + ": " + SplitCrlf(h.value)[0]] + SplitCrlf(h.value)[1..]
  }

  function AllLines(l: Headers): seq<string> {
    if l == [] then [] else PhysicalLines(l[0]) + AllLines(l[1..])
  }

  lemma PiecesText(h: Header)
    ensures Text(H.HeaderPieces(h)) == h.key + ": " + h.value + CRLF
  {
    assert H.HeaderPieces(h) == [h.key] + ([": "] + ([h.value] + ([CRLF] + [])));
    PieceCons(h.key, [": "] + ([h.value] + ([CRLF] + [])));
    PieceCons(": ", [h.value] + ([CRLF] + []));
    PieceCons(h.value, [CRLF] + []);
    PieceCons(CRLF, []);
    assert h.key + (": " + (h.value + (CRLF + ""))) == h.key + ": " + h.value + CRLF;
  }

  lemma HeaderText(h: Header)
    ensures Text(H.HeaderPieces(h)) == h.key + ": " + h.value + CRLF
    ensures Terminated(PhysicalLines(h)) == Text(H.HeaderPieces(h))
  {
    PiecesText(h);
    var parts := SplitCrlf(h.value);
    SplitIsLossless(h.value);
    assert Terminated(parts) == parts[0] + CRLF + Terminated(parts[1..]);
    assert PhysicalLines(h)[1..] == parts[1..];
    assert Terminated(PhysicalLines(h)) == h.key + ": " + (parts[0] + CRLF + Terminated(parts[1..]));
  }

  lemma {:induction false} ListText(l: Headers)
    ensures Terminated(AllLines(l)) == Text(H.Pieces(l))
  {
    if l != [] {
      HeaderText(l[0]);
      ListText(l[1..]);
      TerminatedConcat(PhysicalLines(l[0]), AllLines(l[1..]));
      TotalConcat(H.HeaderPieces(l[0]), H.Pieces(l[1..]));
    }
  }

  lemma TrimAfterSpace(p: string)
    requires Trimmed(p)
    ensures Trim(" " + p) == p
  {
    var s := " " + p;
    assert SkipSpaces(s, 0) == SkipSpaces(s, 1) == 1;
    assert CutSpaces(s, 1, |s|) == |s|;
  }

  lemma FirstLineIsPlain(key: string, p: string)
    requires KeyOk(key) && NoCrlf(p)
    ensures PlainLine(key + ": " + p) && !IsFold(key + ": " + p)
  {
    assert NoCrlf(": ");
    NoCrlfConcat(key, ": ");
    assert key + ":" + " " == key + ": ";
    NoCrlfAfterSpace(key + ":", p);
    assert key + ": " + p == key + ":" + " " + p;
  }

  lemma FirstColon(key: string, p: string)
    requires ':' !in key
    ensures FindChar(key + ": " + p, ':', 0) == Some(|key|)
  {
    var line := key + ": " + p;
    FindCharIsFirst(line, ':', 0);
    assert forall j :: 0 <= j < |key| ==> line[j] == key[j];
    assert line[|key|] == ':';
  }

  lemma FirstLineReads(key: string, p: string)
    requires KeyOk(key) && Trimmed(p) && NoCrlf(p)
    ensures
      var line := key + ": " + p;
      PlainLine(line) && !IsFold(line) && ReadHeader(line) == Some(Header(key, p))
  {
    var line := key + ": " + p;
    FirstLineIsPlain(key, p);
    FirstColon(key, p);
    assert line[..|key|] == key;
    assert line[|key| + 1..] == " " + p;
    TrimAfterSpace(p);
  }

  lemma NoCrlfAfterSpace(s: string, p: string)
    requires NoCrlf(s + " ") && NoCrlf(p)
    ensures NoCrlf(s + " " + p)
  {
    assert s + " " + p == (s + " ") + p;
    forall k | 0 <= k < |s + " " + p|
      ensures !CrlfAt(s + " " + p, k)
    {
      if k <= |s| {
        assert !CrlfAt(s + " ", k);
      } else {
        assert !CrlfAt(p, k - |s| - 1);
      }
    }
  }

  // ----- Scanning printed lines -----

  /** `text` stands in the buffer at `pos`. */
  predicate StandsAt(b: string, pos: nat, text: string) {
    pos + |text| <= |b| && b[pos..pos + |text|] == text
  }

  lemma StandsApart(b: string, pos: nat, s: string, t: string)
    requires StandsAt(b, pos, s + t)
    ensures StandsAt(b, pos, s) && StandsAt(b, pos + |s|, t)
  {
    var n := |s + t|;
    assert b[pos..pos + |s|] == b[pos..pos + n][..|s|];
    assert b[pos + |s|..pos + n] == b[pos..pos + n][|s|..];
  }

  lemma LineStands(b: string, pos: nat, line: string)
    requires PlainLine(line) && StandsAt(b, pos, line + CRLF)
    ensures LineAt(b, pos) == Line(pos + |line|)
  {
    var e := pos + |line|;
    assert forall k :: 0 <= k < |line| + 2 ==> b[pos + k] == (line + CRLF)[k];
    assert b[pos] == line[0] && b[e] == '\r' && b[e + 1] == '\n';
    assert b[pos + 1] == if |line| > 1 then line[1] else '\r';
    NextCrlfIsFirst(b, pos);
    assert CrlfAt(b, e);
    forall j | pos <= j < e
      ensures !CrlfAt(b, j)
    {
      assert !CrlfAt(line, j - pos);
    }
  }

  lemma PrependLine(b: string, pos: nat, line: string, lines: seq<string>, end: End)
    requires PlainLine(line) && StandsAt(b, pos, line + CRLF)
    requires ScanLines(b, pos + |line| + 2) == Scan(lines, end)
    ensures ScanLines(b, pos) == Scan([line] + lines, end)
  {
    LineStands(b, pos, line);
    var _ := ScanStep(b, pos, pos + |line|);
    StandsApart(b, pos, line, CRLF);
  }

  lemma StopStands(b: string, pos: nat)
    requires StandsAt(b, pos, CRLF)
    ensures ScanLines(b, pos) == Scan([], Stop(pos))
  {
    assert b[pos] == b[pos..pos + 2][0] == '\r';
    assert LineAt(b, pos) == Last(Stop(pos));
  }

  lemma TerminatedCons(line: string, rest: seq<string>)
    ensures Terminated([line] + rest) + CRLF == (line + CRLF) + (Terminated(rest) + CRLF)
    ensures |Terminated([line] + rest)| == |line| + 2 + |Terminated(rest)|
  {
    assert ([line] + rest)[1..] == rest;
  }

  lemma ScanOneMore(b: string, pos: nat, line: string, rest: seq<string>, more: string)
    requires PlainLine(line) && more == Terminated(rest)
    requires StandsAt(b, pos, (line + CRLF) + (more + CRLF))
    requires ScanLines(b, pos + |line| + 2) == Scan(rest, Stop(pos + |line| + 2 + |more|))
    ensures ScanLines(b, pos) == Scan([line] + rest, Stop(pos + |line| + 2 + |more|))
  {
    StandsApart(b, pos, line + CRLF, more + CRLF);
    PrependLine(b, pos, line, rest, Stop(pos + |line| + 2 + |more|));
  }

  lemma FirstStands(b: string, pos: nat, lines: seq<string>) returns (line: string, rest: seq<string>, more: string)
    requires AllPlain(lines) && lines != []
    requires StandsAt(b, pos, Terminated(lines) + CRLF)
    ensures lines == [line] + rest && more == Terminated(rest) && PlainLine(line) && AllPlain(rest)
    ensures |Terminated(lines)| == |line| + 2 + |more|
    ensures StandsAt(b, pos, (line + CRLF) + (more + CRLF)) && StandsAt(b, pos + |line| + 2, more + CRLF)
  {
    line, rest := lines[0], lines[1..];
    more := Terminated(rest);
    assert [line] + rest == lines;
    TerminatedCons(line, rest);
    StandsApart(b, pos, line + CRLF, more + CRLF);
  }

  lemma {:induction false} ScanPrinted(b: string, pos: nat, lines: seq<string>)
    requires AllPlain(lines)
    requires StandsAt(b, pos, Terminated(lines) + CRLF)
    ensures ScanLines(b, pos) == Scan(lines, Stop(pos + |Terminated(lines)|))
    decreases |lines|
  {
    if lines == [] {
      assert Terminated(lines) + CRLF == CRLF;
      StopStands(b, pos);
    } else {
      var line, rest, more := FirstStands(b, pos, lines);
      ScanPrinted(b, pos + |line| + 2, rest);
      ScanOneMore(b, pos, line, rest, more);
    }
  }

  // ----- Reading printed lines -----

  lemma {:induction false} FoldCountOfFolds(folds: seq<string>, rest: seq<string>)
    requires forall i :: 0 <= i < |folds| ==> IsFold(folds[i])
    requires rest == [] || !IsFold(rest[0])
    ensures FoldCount(folds + rest) == |folds|
  {
    if folds == [] {
      assert folds + rest == rest;
    } else {
      assert (folds + rest)[1..] == folds[1..] + rest;
      FoldCountOfFolds(folds[1..], rest);
    }
  }

  /** A header line, its continuation lines, and what follows them. */
  lemma LogicalOfParts(line: string, folds: seq<string>, rest: seq<string>, h: Header)
    requires !IsFold(line) && ReadHeader(line) == Some(h)
    requires forall i :: 0 <= i < |folds| ==> IsFold(folds[i])
    requires h.key != "" || folds == []
    requires rest == [] || !IsFold(rest[0])
    ensures Logical([line] + (folds + rest)) ==
            Block([Header(h.key, Unfold(h.value, folds))] + Logical(rest).headers, Logical(rest).error)
  {
    var tail := folds + rest;
    FoldCountOfFolds(folds, rest);
    assert tail[..|folds|] == folds && tail[|folds|..] == rest;
    H.LogicalCons(line, tail, h);
  }

  lemma LogicalOfPrinted(h: Header, rest: seq<string>)
    requires HeaderOk(h)
    requires rest == [] || !IsFold(rest[0])
    ensures Logical(PhysicalLines(h) + rest) == Block([h] + Logical(rest).headers, Logical(rest).error)
  {
    var line, folds, first := PrintedParts(h);
    LogicalOfParts(line, folds, rest, first);
    Joins(PhysicalLines(h), line, folds, rest);
  }

  lemma Joins(lines: seq<string>, line: string, folds: seq<string>, rest: seq<string>)
    requires lines == [line] + folds
    ensures lines + rest == [line] + (folds + rest)
  {
  }

  /** The lines of a printed header: one that is read as a header, and the folds that complete it. */
  lemma PrintedParts(h: Header) returns (line: string, folds: seq<string>, first: Header)
    requires HeaderOk(h)
    ensures PhysicalLines(h) == [line] + folds
    ensures !IsFold(line) && ReadHeader(line) == Some(first)
    ensures forall i :: 0 <= i < |folds| ==> IsFold(folds[i])
    ensures first.key != "" || folds == []
    ensures h == Header(first.key, Unfold(first.value, folds))
  {
    var parts := SplitCrlf(h.value);
    SplitIsLossless(h.value);
    FirstLineReads(h.key, parts[0]);
    RefoldedValue(h.value);
    line, folds, first := h.key + ": " + parts[0], parts[1..], Header(h.key, parts[0]);
  }

  lemma RefoldedValue(v: string)
    ensures Unfold(SplitCrlf(v)[0], SplitCrlf(v)[1..]) == v
  {
    var parts := SplitCrlf(v);
    SplitIsLossless(v);
    UnfoldTerminated(parts[0], parts[1..]);
    var w := Unfold(parts[0], parts[1..]);
    assert w + CRLF == v + CRLF;
    assert w == (w + CRLF)[..|w|] == v;
  }

  lemma PhysicalLinesArePlain(h: Header)
    requires HeaderOk(h)
    ensures forall i :: 0 <= i < |PhysicalLines(h)| ==> PlainLine(PhysicalLines(h)[i])
    ensures !IsFold(PhysicalLines(h)[0])
  {
    SplitIsLossless(h.value);
    FirstLineReads(h.key, SplitCrlf(h.value)[0]);
  }

  lemma {:induction false} AllLinesArePlain(l: Headers)
    requires AllOk(l)
    ensures AllPlain(AllLines(l))
    ensures l != [] ==> AllLines(l) != [] && !IsFold(AllLines(l)[0])
  {
    if l != [] {
      PhysicalLinesArePlain(l[0]);
      AllLinesArePlain(l[1..]);
    }
  }

  lemma LogicalOneMore(h: Header, l: Headers, lines: seq<string>)
    requires HeaderOk(h) && Logical(lines) == Block(l, None)
    requires lines == [] || !IsFold(lines[0])
    ensures Logical(PhysicalLines(h) + lines) == Block([h] + l, None)
  {
    LogicalOfPrinted(h, lines);
  }

  lemma FirstOfAll(l: Headers) returns (rest: Headers, lines: seq<string>)
    requires AllOk(l) && l != []
    ensures l == [l[0]] + rest && HeaderOk(l[0]) && AllOk(rest)
    ensures lines == AllLines(rest) && AllLines(l) == PhysicalLines(l[0]) + lines
    ensures lines == [] || !IsFold(lines[0])
  {
    rest := l[1..];
    lines := AllLines(rest);
    AllLinesArePlain(rest);
  }

  lemma {:induction false} LogicalOfAllLines(l: Headers)
    requires AllOk(l)
    ensures Logical(AllLines(l)) == Block(l, None)
    decreases |l|
  {
    if l != [] {
      var rest, lines := FirstOfAll(l);
      LogicalOfAllLines(rest);
      LogicalOneMore(l[0], rest, lines);
    }
  }

  lemma ScanAllLines(l: Headers, b: string) returns (lines: seq<string>)
    requires WellFormed(l)
    requires StandsAt(b, 0, Text(H.Pieces(l)) + CRLF)
    ensures ScanLines(b, 0) == Scan(lines, Stop(|Text(H.Pieces(l))|))
    ensures lines == AllLines(l)
  {
    lines := AllLines(l);
    ListText(l);
    AllLinesArePlain(l);
    ScanPrinted(b, 0, lines);
  }

  lemma MergeAllLines(l: Headers)
    requires WellFormed(l)
    ensures MergeLines(AllLines(l), []) == Merge(l, None)
  {
    LogicalOfAllLines(l);
    assert [] + l == l;
    ModifyAllDistinct([], l);
  }

  lemma ScanAndMerge(l: Headers, b: string) returns (lines: seq<string>)
    requires WellFormed(l)
    requires StandsAt(b, 0, Text(H.Pieces(l)) + CRLF)
    ensures ScanLines(b, 0) == Scan(lines, Stop(|Text(H.Pieces(l))|))
    ensures MergeLines(lines, []) == Merge(l, None)
  {
    lines := ScanAllLines(l, b);
    MergeAllLines(l);
  }

  /**
   * Parsing what is printed: for every well-formed list, its text and the blank line parse
   * back to that list, the parser stops right after the blank line, whatever follows it.
   */
  lemma ParsePrinted(l: Headers, rest: string)
    requires WellFormed(l)
    ensures ParseBlock(Text(H.Pieces(l)) + CRLF + rest, []) ==
            HeaderResult(Parsed(|Text(H.Pieces(l))| + 2), l)
  {
    ParseStanding(l, Text(H.Pieces(l)) + CRLF + rest);
  }

  lemma ParseStanding(l: Headers, b: string)
    requires WellFormed(l)
    requires StandsAt(b, 0, Text(H.Pieces(l)) + CRLF)
    ensures ParseBlock(b, []) == HeaderResult(Parsed(|Text(H.Pieces(l))| + 2), l)
  {
    var lines := ScanAndMerge(l, b);
    BlockFromParts(b, [], lines, Stop(|Text(H.Pieces(l))|), Merge(l, None));
  }

  lemma BlockFromParts(b: string, l: Headers, lines: seq<string>, end: End, merge: Merge)
    requires ScanLines(b, 0) == Scan(lines, end) && MergeLines(lines, l) == merge
    ensures ParseBlock(b, l) == Finish(|b|, merge, end)
  {
  }

  // ----- What the parser can build -----

  lemma {:induction false} ScannedLinesArePlain(b: string, pos: nat)
    requires pos <= |b|
    ensures AllPlain(ScanLines(b, pos).lines)
    decreases |b| - pos
  {
    match LineAt(b, pos)
    case Last(_) =>
    case Line(e) =>
      NoCrlfBefore(b, pos);
      var line := b[pos..e];
      assert line[0] == b[pos] && (|line| > 1 ==> line[1] == b[pos + 1]);
      ScannedLinesArePlain(b, e + 2);
      var _ := ScanStep(b, pos, e);
  }

  lemma TrimTrims(s: string)
    ensures Trimmed(Trim(s))
    ensures NoCrlf(s) ==> NoCrlf(Trim(s))
    ensures NulFree(s) ==> NulFree(Trim(s))
  {
    var lo := SkipSpaces(s, 0);
    var hi := CutSpaces(s, lo, |s|);
    if NoCrlf(s) {
      NoCrlfSlice(s, lo, hi);
    }
  }

  lemma ReadHeaderParts(line: string)
    requires PlainLine(line) && !IsFold(line) && ReadHeader(line).Some?
    ensures KeyOk(ReadHeader(line).value.key)
    ensures Trimmed(ReadHeader(line).value.value) && NoCrlf(ReadHeader(line).value.value)
    ensures NulFree(line) ==> NulFree(ReadHeader(line).value.key) && NulFree(ReadHeader(line).value.value)
  {
    FindCharIsFirst(line, ':', 0);
    var c := FindChar(line, ':', 0).value;
    NoCrlfSlice(line, 0, c);
    NoCrlfSlice(line, c + 1, |line|);
    assert line[0..c] == line[..c];
    assert line[c + 1..|line|] == line[c + 1..];
    TrimTrims(line[c + 1..]);
  }

  lemma UnfoldSplits(first: string, folds: seq<string>)
    requires NoCrlf(first) && forall i :: 0 <= i < |folds| ==> NoCrlf(folds[i])
    ensures SplitCrlf(Unfold(first, folds)) == [first] + folds
  {
    UnfoldTerminated(first, folds);
    var lines := [first] + folds;
    assert lines[1..] == folds;
    assert Terminated(lines) == first + CRLF + Terminated(folds);
    SplitOfTerminated(Unfold(first, folds), lines);
  }

  lemma {:induction false} UnfoldNulFree(first: string, folds: seq<string>)
    requires NulFree(first) && AllNulFree(folds)
    ensures NulFree(Unfold(first, folds))
    decreases |folds|
  {
    if folds != [] {
      assert NulFree(folds[0]);
      assert NulFree(first + CRLF + folds[0]);
      UnfoldNulFree(first + CRLF + folds[0], folds[1..]);
    }
  }

  lemma {:induction false} LeadingFolds(lines: seq<string>)
    ensures forall i :: 0 <= i < FoldCount(lines) ==> IsFold(lines[i])
  {
    if lines != [] && IsFold(lines[0]) {
      LeadingFolds(lines[1..]);
    }
  }

  predicate HeaderNulFree(h: Header) {
    NulFree(h.key) && NulFree(h.value)
  }

  predicate ListNulFree(l: Headers) {
    forall i :: 0 <= i < |l| ==> HeaderNulFree(l[i])
  }

  /** The header that a line and its continuation lines make. */
  lemma FoldedHeaderOk(line: string, folds: seq<string>)
    requires PlainLine(line) && !IsFold(line) && ReadHeader(line).Some?
    requires FoldsOk(folds)
    requires ReadHeader(line).value.key == "" ==> folds == []
    ensures
      var h := ReadHeader(line).value;
      var folded := Header(h.key, Unfold(h.value, folds));
      HeaderOk(folded) && (NulFree(line) && AllNulFree(folds) ==> HeaderNulFree(folded))
  {
    var h := ReadHeader(line).value;
    ReadHeaderParts(line);
    UnfoldSplits(h.value, folds);
    assert ([h.value] + folds)[1..] == folds;
    if NulFree(line) && AllNulFree(folds) {
      UnfoldNulFree(h.value, folds);
    }
  }

  /** The first logical header of the lines, and the block after it. */
  lemma FirstLogical(line: string, rest: seq<string>) returns (h: Header, after: seq<string>)
    requires PlainLine(line) && AllPlain(rest)
    requires !IsFold(line) && ReadHeader(line).Some?
    ensures |after| <= |rest| && AllPlain(after)
    ensures HeaderOk(h)
    ensures NulFree(line) && AllNulFree(rest) ==> HeaderNulFree(h) && AllNulFree(after)
    ensures Logical([line] + rest).headers == [h] + Logical(after).headers
  {
    h := ReadHeader(line).value;
    H.LogicalCons(line, rest, h);
    LeadingFolds(rest);
    var n := FoldCount(rest);
    if h.key == "" && n > 0 {
      FoldedHeaderOk(line, []);
      after := [];
    } else {
      FoldedHeaderOk(line, rest[..n]);
      h := Header(h.key, Unfold(h.value, rest[..n]));
      after := rest[n..];
    }
  }

  lemma {:induction false} LogicalHeadersOk(lines: seq<string>)
    requires AllPlain(lines)
    ensures AllOk(Logical(lines).headers)
    ensures AllNulFree(lines) ==> ListNulFree(Logical(lines).headers)
    decreases |lines|
  {
    if lines != [] && !IsFold(lines[0]) && ReadHeader(lines[0]).Some? {
      assert lines == [lines[0]] + lines[1..];
      var h, after := FirstLogical(lines[0], lines[1..]);
      LogicalHeadersOk(after);
    }
  }

  lemma ModifyKeepsWellFormed(l: Headers, h: Header)
    requires WellFormed(l) && HeaderOk(h)
    ensures WellFormed(Modify(l, h.key, h.value))
    ensures ListNulFree(l) && HeaderNulFree(h) ==> ListNulFree(Modify(l, h.key, h.value))
  {
    ModifyKeepsDistinct(l, h.key, h.value);
    ModifyAt(l, h.key, h.value);
    var m := Modify(l, h.key, h.value);
    assert forall i :: 0 <= i < |m| ==> m[i] == h || (i < |l| && m[i] == l[i]);
  }

  lemma {:induction false} ModifyAllKeepsWellFormed(l: Headers, hs: seq<Header>)
    requires WellFormed(l) && AllOk(hs)
    ensures WellFormed(ModifyAll(l, hs))
    ensures ListNulFree(l) && ListNulFree(hs) ==> ListNulFree(ModifyAll(l, hs))
    decreases |hs|
  {
    if hs != [] {
      ModifyKeepsWellFormed(l, hs[0]);
      ModifyAllKeepsWellFormed(Modify(l, hs[0].key, hs[0].value), hs[1..]);
    }
  }

  /** Parsing any bytes into a well-formed list leaves a well-formed list; no NULs come from nowhere. */
  lemma ParsedIsWellFormed(b: string, l: Headers)
    requires WellFormed(l)
    ensures WellFormed(ParseBlock(b, l).headers)
    ensures NulFree(b) && ListNulFree(l) ==> ListNulFree(ParseBlock(b, l).headers)
  {
    ScannedLinesArePlain(b, 0);
    var lines := ScanLines(b, 0).lines;
    if NulFree(b) {
      ScannedLinesNulFree(b, 0);
    }
    LogicalHeadersOk(lines);
    ModifyAllKeepsWellFormed(l, Logical(lines).headers);
  }

  lemma {:induction false} ScannedLinesNulFree(b: string, pos: nat)
    requires pos <= |b| && NulFree(b)
    ensures AllNulFree(ScanLines(b, pos).lines)
    decreases |b| - pos
  {
    if LineAt(b, pos).Line? {
      ScannedLinesNulFree(b, LineAt(b, pos).crlf + 2);
    }
  }

  // ----- The round trip, with its exact condition -----

  lemma NulFreeConcat(a: seq<string>, b: seq<string>)
    ensures AllNulFree(a + b) <==> AllNulFree(a) && AllNulFree(b)
  {
    if AllNulFree(a + b) {
      assert forall i :: 0 <= i < |a| ==> a[i] == (a + b)[i];
      assert forall i :: 0 <= i < |b| ==> b[i] == (a + b)[|a| + i];
    }
  }

  lemma HeaderPiecesNulFree(h: Header)
    ensures AllNulFree(H.HeaderPieces(h)) <==> HeaderNulFree(h)
  {
    var p := H.HeaderPieces(h);
    assert p[0] == h.key && p[1] == ": " && p[2] == h.value && p[3] == CRLF;
    assert NulFree(": ") && NulFree(CRLF);
  }

  lemma ListNulFreeCons(l: Headers)
    requires l != []
    ensures ListNulFree(l) <==> HeaderNulFree(l[0]) && ListNulFree(l[1..])
  {
    assert forall i :: 0 < i < |l| ==> l[i] == l[1..][i - 1];
  }

  lemma {:induction false} PiecesNulFree(l: Headers)
    ensures AllNulFree(H.Pieces(l)) <==> ListNulFree(l)
  {
    if l != [] {
      PiecesNulFree(l[1..]);
      NulFreeConcat(H.HeaderPieces(l[0]), H.Pieces(l[1..]));
      HeaderPiecesNulFree(l[0]);
      ListNulFreeCons(l);
    }
  }

  /**
   * The printer stops at NULs. For a well-formed list, what FormatHeaders leaves in the
   * buffer, with a blank line, parses back to the list exactly when no field has a NUL.
   */
  lemma RoundTripIffNulFree(l: Headers)
    requires WellFormed(l)
    ensures
      var printed := Visible(H.Pieces(l));
      ParseBlock(printed + CRLF, []) == HeaderResult(Parsed(|printed| + 2), l) <==> ListNulFree(l)
  {
    var printed := WhatIsPrinted(l);
    if ListNulFree(l) {
      PrintedParses(l);
    } else {
      NulFreeTextCannotGive(printed + CRLF, l);
    }
  }

  lemma WhatIsPrinted(l: Headers) returns (printed: string)
    ensures printed == Visible(H.Pieces(l)) && NulFree(printed + CRLF)
    ensures ListNulFree(l) ==> printed == Text(H.Pieces(l))
  {
    printed := Visible(H.Pieces(l));
    VisibleLength(H.Pieces(l));
    PiecesNulFree(l);
  }

  lemma PrintedParses(l: Headers)
    requires WellFormed(l)
    ensures
      var text := Text(H.Pieces(l));
      ParseBlock(text + CRLF, []) == HeaderResult(Parsed(|text| + 2), l)
  {
    ParsePrinted(l, "");
    assert Text(H.Pieces(l)) + CRLF + "" == Text(H.Pieces(l)) + CRLF;
  }

  lemma NulFreeTextCannotGive(b: string, l: Headers)
    requires NulFree(b) && !ListNulFree(l)
    ensures ParseBlock(b, []).headers != l
  {
    ParsedIsWellFormed(b, []);
  }

  /** Parse, print, parse is parse: for every accepted block without NULs. */
  lemma ParsePrintParse(b: string)
    requires NulFree(b) && ParseBlock(b, []).outcome.Parsed?
    ensures
      var l := ParseBlock(b, []).headers;
      ParseBlock(Text(H.Pieces(l)) + CRLF, []) == HeaderResult(Parsed(|Text(H.Pieces(l))| + 2), l)
  {
    ParsedIsWellFormed(b, []);
    PrintedParses(ParseBlock(b, []).headers);
  }
}
