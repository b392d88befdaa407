/**
 * The request line of http-request.cc (RFC 2616, section 5.1): tokens, the request target
 * in its two forms, and the decimal port.
 */
module RequestLine {
  import opened Wrappers
  import opened Search

  // ----- Tokens -----

  /** boost::tokenizer with the separator " ": maximal runs of other bytes. */
  function Tokens(s: string): seq<string>
    decreases |s|
  {
    if s == "" then []
    else if s[0] == ' ' then Tokens(s[1..])
    else
      match FindChar(s, ' ', 1)
      case None => [s]
      case Some(i) => [s[..i]] + Tokens(s[i..])
  }

  predicate IsWord(s: string) {
    s != "" && ' ' !in s
  }

  lemma LastWord(word: string)
    requires IsWord(word)
    ensures Tokens(word) == [word]
  {
    FindCharIsFirst(word, ' ', 1);
  }

  lemma FirstWord(word: string, rest: string)
    requires IsWord(word)
    ensures Tokens(word + " " + rest) == [word] + Tokens(rest)
  {
    var s := word + " " + rest;
    FindCharIsFirst(s, ' ', 1);
    assert s[0] == word[0] && s[|word|] == ' ';
    assert forall i :: 0 <= i < |word| ==> s[i] == word[i];
    assert FindChar(s, ' ', 1) == Some(|word|);
    assert s[..|word|] == word;
    assert s[|word|..] == " " + rest;
    assert (" " + rest)[1..] == rest;
  }

  lemma {:induction false} TokensAreWords(s: string)
    ensures forall i :: 0 <= i < |Tokens(s)| ==> IsWord(Tokens(s)[i])
    ensures forall i :: 0 <= i < |Tokens(s)| ==> (forall c :: c in Tokens(s)[i] ==> c in s)
    ensures NoCrlf(s) ==> forall i :: 0 <= i < |Tokens(s)| ==> NoCrlf(Tokens(s)[i])
    decreases |s|
  {
    if s != "" && s[0] == ' ' {
      TokensAreWords(s[1..]);
      if NoCrlf(s) {
        NoCrlfSlice(s, 1, |s|);
        assert s[1..|s|] == s[1..];
      }
    } else if s != "" {
      FindCharIsFirst(s, ' ', 1);
      match FindChar(s, ' ', 1)
      case None =>
      case Some(i) =>
        TokensAreWords(s[i..]);
        if NoCrlf(s) {
          NoCrlfSlice(s, 0, i);
          NoCrlfSlice(s, i, |s|);
          assert s[0..i] == s[..i] && s[i..|s|] == s[i..];
        }
    }
  }

  // ----- The request target -----

  /** "just path", or "combined Host and Path", or the latter without a slash. */
  datatype Target =
    | PathOnly
    | Absolute(protocol: string, rest: Authority)
    | NoSlash

  const SCHEME := "://"

  predicate SchemeAt(s: string, i: int) {
    0 <= i && i + 2 < |s| && s[i] == ':' && s[i + 1] == '/' && s[i + 2] == '/'
  }

  predicate NoScheme(s: string) {
    forall i :: 0 <= i < |s| ==> !SchemeAt(s, i)
  }

  /** std::string::find of "://". */
  function FindScheme(s: string, from: nat): (r: Option<nat>)
    ensures r.Some? ==> r.value + 3 <= |s|
    decreases |s| - from
  {
    if from + 2 >= |s| then None
    else if SchemeAt(s, from) then Some(from)
    else FindScheme(s, from + 1)
  }

  lemma {:induction false} FindSchemeIsFirst(s: string, from: nat)
    ensures
      match FindScheme(s, from)
      case Some(i) => from <= i && SchemeAt(s, i) && forall j :: from <= j < i ==> !SchemeAt(s, j)
      case None => forall j :: from <= j ==> !SchemeAt(s, j)
    decreases |s| - from
  {
    if from + 2 < |s| && !SchemeAt(s, from) {
      FindSchemeIsFirst(s, from + 1);
    }
  }

  lemma SchemeOccurs(s: string, i: int)
    ensures OccursAt(s, SCHEME, i) <==> SchemeAt(s, i)
  {
    if 0 <= i && i + 3 <= |s| {
      assert s[i..i + 3] == [s[i], s[i + 1], s[i + 2]];
    }
  }

  lemma FindSchemeIsFind(s: string, from: nat)
    ensures FindScheme(s, from) == Find(s, SCHEME, from)
  {
    FindSchemeIsFirst(s, from);
    var a, b := FindScheme(s, from), Find(s, SCHEME, from);
    if a.Some? {
      SchemeOccurs(s, a.value);
    }
    if b.Some? {
      SchemeOccurs(s, b.value);
    }
  }

  /** What follows the scheme: host, optional port, and the path from the first slash on. */
  datatype Authority = Authority(host: string, port: Option<string>, path: string)

  function SplitAuthority(tail: string): Option<Authority> {
    match FindChar(tail, '/', 0)
    case None => None
    case Some(slash) =>
      var colon := FindChar(tail, ':', 0);
      if colon.Some? && colon.value < slash then
        Some(Authority(tail[..colon.value], Some(tail[colon.value + 1..slash]), tail[slash..]))
      else
        Some(Authority(tail[..slash], None, tail[slash..]))
  }

  function SplitTarget(token: string): Target {
    match FindScheme(token, 0)
    case None => PathOnly
    case Some(pos) =>
      match SplitAuthority(token[pos + 3..])
      case None => NoSlash
      case Some(a) => Absolute(token[..pos], a)
  }

  function PortText(port: Option<string>): string {
    match port case None => "" case Some(p) => ":" + p
  }

  /** The parts rebuild what follows the scheme, and do not overlap. */
  predicate IsAuthority(tail: string, a: Authority) {
    && tail == a.host + PortText(a.port) + a.path
    && '/' !in a.host && ':' !in a.host
    && (a.port.Some? ==> '/' !in a.port.value)
    && a.path != "" && a.path[0] == '/'
  }

  /** RFC 2616's reading of an absolute target. */
  predicate IsSplit(token: string, protocol: string, a: Authority) {
    && NoScheme(protocol)
    && token == protocol + SCHEME + (a.host + PortText(a.port) + a.path)
    && IsAuthority(a.host + PortText(a.port) + a.path, a)
  }

  lemma AuthorityIsLossless(tail: string, a: Authority)
    requires SplitAuthority(tail) == Some(a)
    ensures IsAuthority(tail, a)
  {
    FindCharIsFirst(tail, '/', 0);
    FindCharIsFirst(tail, ':', 0);
  }

  lemma AuthorityIsUnique(tail: string, a: Authority)
    requires IsAuthority(tail, a)
    ensures SplitAuthority(tail) == Some(a)
  {
    FindCharIsFirst(tail, '/', 0);
    FindCharIsFirst(tail, ':', 0);
    var start := a.host + PortText(a.port);
    assert tail[|start|] == '/' && '/' !in start;
    assert forall i :: 0 <= i < |start| ==> tail[i] == start[i];
    assert FindChar(tail, '/', 0) == Some(|start|);
    assert tail[|start|..] == a.path;
    assert tail[..|a.host|] == a.host;
    if a.port.Some? {
      assert tail[|a.host|] == ':';
      assert forall i :: 0 <= i < |a.host| ==> tail[i] == a.host[i];
      assert FindChar(tail, ':', 0) == Some(|a.host|);
      assert tail[|a.host| + 1..|start|] == a.port.value;
    }
  }

  lemma CutAtScheme(token: string, pos: nat)
    requires SchemeAt(token, pos)
    ensures token == token[..pos] + SCHEME + token[pos + 3..]
  {
    assert token[pos..pos + 3] == [token[pos], token[pos + 1], token[pos + 2]];
  }

  lemma NoSchemeBefore(token: string, pos: nat)
    requires FindScheme(token, 0) == Some(pos)
    ensures SchemeAt(token, pos) && NoScheme(token[..pos])
  {
    FindSchemeIsFirst(token, 0);
    forall i | 0 <= i < pos
      ensures !SchemeAt(token[..pos], i)
    {
      assert !SchemeAt(token, i);
    }
  }

  /** The parts of an accepted absolute target lose nothing. */
  lemma SplitIsLossless(token: string)
    requires SplitTarget(token).Absolute?
    ensures IsSplit(token, SplitTarget(token).protocol, SplitTarget(token).rest)
  {
    var pos := FindScheme(token, 0).value;
    NoSchemeBefore(token, pos);
    CutAtScheme(token, pos);
    AuthorityIsLossless(token[pos + 3..], SplitTarget(token).rest);
  }

  /** "://" has no border, so the first one is where the protocol ends. */
  lemma SchemePosition(protocol: string, rest: string)
    requires NoScheme(protocol)
    ensures FindScheme(protocol + SCHEME + rest, 0) == Some(|protocol|)
  {
    var token := protocol + SCHEME + rest;
    FindSchemeIsFirst(token, 0);
    var n := |protocol|;
    assert token[n] == ':' && token[n + 1] == '/' && token[n + 2] == '/';
    forall i | 0 <= i < n
      ensures !SchemeAt(token, i)
    {
      assert !SchemeAt(protocol, i);
    }
    assert SchemeAt(token, n);
  }

  /** The parts are the only ones: any such split is the one the parser finds. */
  lemma SplitIsUnique(token: string, protocol: string, a: Authority)
    requires IsSplit(token, protocol, a)
    ensures SplitTarget(token) == Absolute(protocol, a)
  {
    var tail := a.host + PortText(a.port) + a.path;
    SchemePosition(protocol, tail);
    assert token[..|protocol|] == protocol && token[|protocol| + 3..] == tail;
    AuthorityIsUnique(tail, a);
  }

  // ----- Numbers -----

  predicate IsDigit(c: char) {
    '0' <= c <= '9'
  }

  function DigitsValue(s: string): nat
    requires forall c :: c in s ==> IsDigit(c)
  {
    if s == "" then 0
    else
      assert IsDigit(s[|s| - 1]);
      10 * DigitsValue(s[..|s| - 1]) + (s[|s| - 1] as int - '0' as int)
  }

  /**
   * boost::lexical_cast<unsigned short>: decimal digits up to 65535, with an optional sign;
   * a minus wraps modulo 65536. Anything else throws bad_lexical_cast.
   */
  function LexicalCast(s: string): (r: Option<nat>)
    ensures r.Some? ==> r.value < 0x1_0000
  {
    var signed := s != "" && (s[0] == '-' || s[0] == '+');
    var digits := if signed then s[1..] else s;
    if digits == "" || (exists c :: c in digits && !IsDigit(c)) then None
    else if DigitsValue(digits) > 65535 then None
    else if signed && s[0] == '-' then Some((0x1_0000 - DigitsValue(digits)) % 0x1_0000)
    else Some(DigitsValue(digits))
  }

  /** boost::lexical_cast<string>: the decimal digits of a number. */
  function Decimal(n: nat): (s: string)
    ensures s != "" && forall c :: c in s ==> IsDigit(c)
  {
    var digit := [('0' as int + n % 10) as char];
    if n < 10 then digit else Decimal(n / 10) + digit
  }

  lemma {:induction false} DecimalValue(n: nat)
    ensures DigitsValue(Decimal(n)) == n
  {
    if n >= 10 {
      DecimalValue(n / 10);
      assert Decimal(n)[..|Decimal(n)| - 1] == Decimal(n / 10);
    }
  }

  /** Printing a port and reading it back. */
  lemma PortRoundTrip(port: nat)
    requires port < 0x1_0000
    ensures LexicalCast(Decimal(port)) == Some(port)
  {
    DecimalValue(port);
    assert IsDigit(Decimal(port)[0]);
  }
}
