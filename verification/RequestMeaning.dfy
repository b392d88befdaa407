/**
 * What a request line means, written out: which lines are accepted, what is read from them, and
 * which exception the others get (RFC 2616, section 5.1).
 */
module RequestMeaning {
  import opened Wrappers
  import opened Search
  import opened HeaderList
  import opened HeaderGrammar
  import opened RequestLine
  import Q = HttpRequest

  // ----- Tokens -----

  predicate AllSpaces(s: string) {
    forall i :: 0 <= i < |s| ==> s[i] == ' '
  }

  /** Words with gaps before, between and after them. */
  function Spaced(gaps: seq<string>, words: seq<string>): string
    requires |gaps| == |words| + 1
    decreases |words|
  {
    if words == [] then gaps[0] else gaps[0] + words[0] + Spaced(gaps[1..], words[1..])
  }

  /** The gaps are spaces, and two words are kept apart by at least one. */
  predicate AreGaps(gaps: seq<string>) {
    && (forall i :: 0 <= i < |gaps| ==> AllSpaces(gaps[i]))
    && (forall i :: 0 < i < |gaps| - 1 ==> gaps[i] != "")
  }

  predicate AreWords(words: seq<string>) {
    forall i :: 0 <= i < |words| ==> IsWord(words[i])
  }

  lemma {:induction false} SkipGap(gap: string, s: string)
    requires AllSpaces(gap)
    ensures Tokens(gap + s) == Tokens(s)
  {
    if gap == "" {
      assert gap + s == s;
    } else {
      assert (gap + s)[1..] == gap[1..] + s;
      SkipGap(gap[1..], s);
    }
  }

  /** A word and what follows it, which is nothing or begins with a space. */
  lemma TakeWord(word: string, s: string)
    requires IsWord(word) && (s == "" || s[0] == ' ')
    ensures Tokens(word + s) == [word] + Tokens(s)
  {
    if s == "" {
      assert word + s == word && [word] + [] == [word];
      LastWord(word);
    } else {
      assert word + s == word + " " + s[1..];
      assert s == " " + s[1..];
      FirstWord(word, s[1..]);
      SkipGap(" ", s[1..]);
    }
  }

  lemma {:induction false} TokensOfSpaced(gaps: seq<string>, words: seq<string>)
    requires |gaps| == |words| + 1 && AreGaps(gaps) && AreWords(words)
    ensures Tokens(Spaced(gaps, words)) == words
    decreases |words|
  {
    if words == [] {
      SkipGap(gaps[0], "");
      assert gaps[0] + "" == gaps[0];
    } else {
      var tail := Spaced(gaps[1..], words[1..]);
      TailBegins(gaps, words);
      TokensOfSpaced(gaps[1..], words[1..]);
      TakeWord(words[0], tail);
      SkipGap(gaps[0], words[0] + tail);
      assert gaps[0] + words[0] + tail == gaps[0] + (words[0] + tail);
      assert [words[0]] + words[1..] == words;
    }
  }

  lemma TailBegins(gaps: seq<string>, words: seq<string>)
    requires |gaps| == |words| + 1 && AreGaps(gaps) && words != []
    ensures
      var tail := Spaced(gaps[1..], words[1..]);
      tail == "" || tail[0] == ' '
  {
    var gap := gaps[1];
    assert AllSpaces(gap);
    assert words[1..] != [] ==> gap != "";
  }

  lemma {:induction false} SpacedTokens(s: string) returns (gaps: seq<string>)
    ensures |gaps| == |Tokens(s)| + 1 && AreGaps(gaps) && Spaced(gaps, Tokens(s)) == s
    ensures s != "" && s[0] == ' ' ==> gaps[0] != ""
    decreases |s|
  {
    if s == "" {
      gaps := [""];
    } else if s[0] == ' ' {
      var rest := SpacedTokens(s[1..]);
      gaps := WidenGap(s[1..], rest);
      assert s == " " + s[1..];
    } else {
      FindCharIsFirst(s, ' ', 1);
      match FindChar(s, ' ', 1)
      case None =>
        gaps := ["", ""];
        assert Spaced([""], []) == "";
        assert gaps[1..] == [""] && [s][1..] == [];
      case Some(i) =>
        var rest := SpacedTokens(s[i..]);
        gaps := [""] + rest;
        assert gaps[1..] == rest && ([s[..i]] + Tokens(s[i..]))[1..] == Tokens(s[i..]);
        assert "" + s[..i] + s[i..] == s;
    }
  }

  lemma WidenGap(s: string, rest: seq<string>) returns (gaps: seq<string>)
    requires |rest| == |Tokens(s)| + 1 && AreGaps(rest) && Spaced(rest, Tokens(s)) == s
    ensures |gaps| == |rest| && AreGaps(gaps) && gaps[0] != "" && Spaced(gaps, Tokens(s)) == " " + s
  {
    gaps := [" " + rest[0]] + rest[1..];
    assert gaps[1..] == rest[1..];
  }

  /** The tokens of a line are the words that it is made of, whatever the spaces around them. */
  lemma TokensIff(s: string, words: seq<string>)
    ensures Tokens(s) == words <==>
            AreWords(words) && exists gaps :: |gaps| == |words| + 1 && AreGaps(gaps) && s == Spaced(gaps, words)
  {
    if Tokens(s) == words {
      TokensAreWords(s);
      var gaps := SpacedTokens(s);
    }
    if AreWords(words) {
      forall gaps | |gaps| == |words| + 1 && AreGaps(gaps) && s == Spaced(gaps, words)
        ensures Tokens(s) == words
      {
        TokensOfSpaced(gaps, words);
      }
    }
  }

  // ----- Numbers -----

  function Power10(n: nat): nat {
    if n == 0 then 1 else 10 * Power10(n - 1)
  }

  /** The first digit is the most significant one. */
  lemma {:induction false} FirstDigit(c: char, s: string)
    requires IsDigit(c) && forall d :: d in s ==> IsDigit(d)
    ensures DigitsValue([c] + s) == (c as int - '0' as int) * Power10(|s|) + DigitsValue(s)
    decreases |s|
  {
    var all := [c] + s;
    if s == "" {
      assert all[..0] == "";
      assert DigitsValue(all) == 10 * DigitsValue(all[..0]) + (c as int - '0' as int);
    } else {
      var n := |s| - 1;
      assert all[..|all| - 1] == [c] + s[..n];
      assert all[|all| - 1] == s[n];
      FirstDigit(c, s[..n]);
      var d, last := c as int - '0' as int, s[n] as int - '0' as int;
      assert DigitsValue(all) == 10 * DigitsValue([c] + s[..n]) + last;
      assert DigitsValue(s) == 10 * DigitsValue(s[..n]) + last;
      TenTimes(d, n, DigitsValue(s[..n]));
    }
  }

  lemma TenTimes(d: int, n: nat, v: nat)
    ensures 10 * (d * Power10(n) + v) == d * Power10(n + 1) + 10 * v
  {
  }

  /** A number is printed without leading zeros. */
  lemma {:induction false} NoLeadingZero(n: nat)
    ensures Decimal(n)[0] == '0' <==> n == 0
    ensures n == 0 ==> Decimal(n) == "0"
  {
    if n >= 10 {
      NoLeadingZero(n / 10);
    }
  }

  /** lexical_cast to an unsigned short: digits, with a plus, and with a minus. */
  lemma CastDigits(s: string)
    requires s != "" && forall c :: c in s ==> IsDigit(c)
    ensures LexicalCast(s) == if DigitsValue(s) <= 65535 then Some(DigitsValue(s)) else None
  {
    assert s[0] in s;
  }

  lemma CastSigned(sign: char, s: string)
    requires s != "" && forall c :: c in s ==> IsDigit(c)
    ensures sign == '+' ==> LexicalCast([sign] + s) == LexicalCast(s)
    ensures sign == '-' ==>
              var v := DigitsValue(s);
              LexicalCast([sign] + s) == if v > 65535 then None else Some(if v == 0 then 0 else 65536 - v)
  {
    CastDigits(s);
    var text := [sign] + s;
    assert text[0] == sign && text[1..] == s;
  }

  /** Nothing else is a number. */
  lemma CastOthers(s: string)
    requires LexicalCast(s).Some?
    ensures exists digits ::
              && digits != "" && (forall c :: c in digits ==> IsDigit(c))
              && (s == digits || s == "+" + digits || s == "-" + digits)
  {
    var signed := s != "" && (s[0] == '-' || s[0] == '+');
    var digits := if signed then s[1..] else s;
    assert s == digits || s == "+" + digits || s == "-" + digits;
  }

  // ----- The request target -----

  /** What the second token may be: no absolute form, or one with a path and with a port that is a number. */
  ghost predicate GoodTarget(token: string) {
    || NoScheme(token)
    || exists protocol, a ::
         IsSplit(token, protocol, a) && (a.port.Some? ==> LexicalCast(a.port.value).Some?)
  }

  lemma SplitIff(token: string)
    ensures SplitTarget(token).Absolute? ==> IsSplit(token, SplitTarget(token).protocol, SplitTarget(token).rest)
    ensures forall protocol, a :: IsSplit(token, protocol, a) ==> SplitTarget(token) == Absolute(protocol, a)
    ensures SplitTarget(token).PathOnly? <==> NoScheme(token)
  {
    FindSchemeIsFirst(token, 0);
    if SplitTarget(token).Absolute? {
      SplitIsLossless(token);
    }
    forall protocol, a | IsSplit(token, protocol, a)
      ensures SplitTarget(token) == Absolute(protocol, a)
    {
      SplitIsUnique(token, protocol, a);
    }
  }

  lemma GoodTargetIff(token: string, r: Q.Request)
    ensures Q.TakeTarget(token, r).error.None? <==> GoodTarget(token)
  {
    SplitIff(token);
  }

  /** In origin form the token is the path, and nothing else is set. */
  lemma OriginForm(token: string, r: Q.Request)
    requires NoScheme(token)
    ensures Q.TakeTarget(token, r) == Q.LineResult(None, r.(path := token))
  {
    SplitIff(token);
  }

  /** What an absolute target makes of a request without headers. */
  predicate TakenFrom(r0: Q.Request, r: Q.Request, host: string, port: nat, path: string) {
    && r.verb == r0.verb && r.version == r0.version
    && r.host == host && r.port == port && r.path == path
    && r.headers == [Header("Host", if port == 80 then host else host + ":" + Decimal(port))]
  }

  /** An absolute target that names a port sets it, and the Host header names it unless it is 80. */
  lemma ExplicitPort(
    token: string, protocol: string, host: string, text: string, path: string, port: nat, r0: Q.Request)
    returns (r: Q.Request)
    requires r0.headers == []
    requires IsSplit(token, protocol, Authority(host, Some(text), path)) && LexicalCast(text) == Some(port)
    ensures Q.TakeTarget(token, r0) == Q.LineResult(None, r) && TakenFrom(r0, r, host, port, path)
  {
    SplitIsUnique(token, protocol, Authority(host, Some(text), path));
    r := AbsoluteOnFresh(host, port, path, r0);
  }

  /** One that names none sets port 80, and the Host header is the host alone. */
  lemma ImplicitPort(token: string, protocol: string, host: string, path: string, r0: Q.Request)
    returns (r: Q.Request)
    requires r0.headers == [] && IsSplit(token, protocol, Authority(host, None, path))
    ensures Q.TakeTarget(token, r0) == Q.LineResult(None, r) && TakenFrom(r0, r, host, 80, path)
  {
    SplitIsUnique(token, protocol, Authority(host, None, path));
    r := AbsoluteOnFresh(host, 80, path, r0);
  }

  lemma AbsoluteOnFresh(host: string, port: nat, path: string, r0: Q.Request) returns (r: Q.Request)
    requires r0.headers == []
    ensures r == Q.WithHost(Q.WithPort(r0, port), host).(path := path) && TakenFrom(r0, r, host, port, path)
  {
    r := Q.WithHost(Q.WithPort(r0, port), host).(path := path);
    var value := if port == 80 then host else host + ":" + Decimal(port);
    ModifyOverwrites([], "Host", Q.HostValue(r0.host, port), value);
    assert Position([], "Host").None?;
    assert Modify([], "Host", value) == [] + [Header("Host", value)];
  }

  /**
   * A request line with an absolute target, read into a new request: the method, the host, the
   * port that the target names or else 80, the path, the version, and a Host header of host and port.
   */
  lemma AbsoluteLine(line: string, protocol: string, a: Authority) returns (r: Q.Request)
    requires GoodLine(line) && IsSplit(Tokens(line)[1], protocol, a)
    ensures Q.TakeRequestLine(line, Q.FRESH) == Q.LineResult(None, r)
    ensures r.verb == Q.GET && r.host == a.host && r.path == a.path
    ensures |Tokens(line)[2]| >= 5 && r.version == Tokens(line)[2][5..]
    ensures
      match a.port
      case None => r.port == 80
      case Some(text) => LexicalCast(text) == Some(r.port)
    ensures r.headers == [Header("Host", if r.port == 80 then r.host else r.host + ":" + Decimal(r.port))]
  {
    var token, r0 := Tokens(line)[1], Q.FRESH.(verb := Q.GET);
    AcceptedMeans(line, Q.FRESH);
    SplitIsUnique(token, protocol, a);
    var taken;
    match a.port {
      case None =>
        taken := ImplicitPort(token, protocol, a.host, a.path, r0);
      case Some(text) =>
        GoodTargetIff(token, r0);
        taken := ExplicitPort(token, protocol, a.host, text, a.path, LexicalCast(text).value, r0);
    }
    r := taken.(version := Tokens(line)[2][5..]);
  }

  // ----- The request line -----

  /** The third token has "HTTP/" in it, wherever. */
  ghost predicate NamesHttp(token: string) {
    exists i :: OccursAt(token, "HTTP/", i)
  }

  lemma NamesHttpIff(token: string, r: Q.Request)
    ensures Q.TakeVersion(token, r).error.None? <==> NamesHttp(token)
    ensures NamesHttp(token) ==> |token| >= 5 && Q.TakeVersion(token, r).request == r.(version := token[5..])
  {
    var found := Find(token, "HTTP/", 0);
    if found.Some? {
      assert OccursAt(token, "HTTP/", found.value);
    } else {
      assert forall i :: 0 <= i ==> !OccursAt(token, "HTTP/", i);
    }
  }

  /** A request line is accepted exactly when it is GET, a good target, and a version that names HTTP. */
  ghost predicate GoodLine(line: string) {
    var tokens := Tokens(line);
    |tokens| >= 3 && tokens[0] == "GET" && GoodTarget(tokens[1]) && NamesHttp(tokens[2])
  }

  lemma AcceptedIff(line: string, r: Q.Request)
    ensures Q.TakeRequestLine(line, r).error.None? <==> GoodLine(line)
  {
    var tokens := Tokens(line);
    if |tokens| >= 2 && tokens[0] == "GET" {
      var r1 := r.(verb := Q.GET);
      GoodTargetIff(tokens[1], r1);
      if |tokens| >= 3 {
        NamesHttpIff(tokens[2], Q.TakeTarget(tokens[1], r1).request);
      }
    }
  }

  /** What an accepted line sets: the method, what its target sets, and the version from its sixth byte. */
  lemma AcceptedMeans(line: string, r: Q.Request)
    requires GoodLine(line)
    ensures
      var tokens := Tokens(line);
      var target := Q.TakeTarget(tokens[1], r.(verb := Q.GET));
      && target.error.None? && |tokens[2]| >= 5
      && Q.TakeRequestLine(line, r) == Q.LineResult(None, target.request.(version := tokens[2][5..]))
  {
    var tokens := Tokens(line);
    var r1 := r.(verb := Q.GET);
    GoodTargetIff(tokens[1], r1);
    NamesHttpIff(tokens[2], Q.TakeTarget(tokens[1], r1).request);
  }

  /** The exceptions for a line, in the order in which the line is looked at. */
  lemma LineExceptions(line: string, r: Q.Request)
    ensures
      var tokens, error := Tokens(line), Q.TakeRequestLine(line, r).error;
      if |tokens| == 0 then error == Some(Rejected("Incorrectly formatted request"))
      else if tokens[0] != "GET" then error == Some(Rejected("Request is not GET"))
      else if |tokens| == 1 then error == Some(Rejected("Incorrectly formatted request"))
      else if SplitTarget(tokens[1]).NoSlash? then error == Some(Rejected("Request line is not correctly formatted"))
      else if !GoodTarget(tokens[1]) then error == Some(BadCast)
      else if |tokens| == 2 then error == Some(Rejected("Incorrectly formatted request"))
      else if !NamesHttp(tokens[2]) then error == Some(Rejected("Incorrectly formatted HTTP request"))
      else error.None?
  {
    var tokens := Tokens(line);
    if |tokens| >= 2 {
      var r1 := r.(verb := Q.GET);
      GoodTargetIff(tokens[1], r1);
      if |tokens| >= 3 {
        NamesHttpIff(tokens[2], Q.TakeTarget(tokens[1], r1).request);
      }
    }
  }

  /** An absolute target lacks its slash when "://" is there, and no "/" after the first one. */
  lemma NoSlashIff(token: string)
    ensures SplitTarget(token).NoSlash? <==>
            exists i: nat :: OccursAt(token, "://", i) && (forall j :: 0 <= j < i ==> !OccursAt(token, "://", j))
                        && '/' !in token[i + 3..]
  {
    FindSchemeIsFind(token, 0);
    var found := Find(token, "://", 0);
    if found.Some? {
      FindCharIsFirst(token[found.value + 3..], '/', 0);
    }
  }
}
