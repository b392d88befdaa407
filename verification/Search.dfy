/**
 * Substring search: compat.cc's `memmem`, and `std::string::find`.
 * Bytes are `char`s; nothing here depends on their range.
 */
module Search {
  import opened Wrappers

  const CRLF := "\r\n"

  /** `needle` occurs in `hay` at index `i`. */
  predicate OccursAt(hay: string, needle: string, i: int) {
    0 <= i && i + |needle| <= |hay| && hay[i..i + |needle|] == needle
  }

  /** The least index, not below `from`, at which `needle` occurs. */
  function Find(hay: string, needle: string, from: nat): (r: Option<nat>)
    ensures r.Some? ==> from <= r.value && OccursAt(hay, needle, r.value)
    ensures r.Some? ==> forall j :: from <= j < r.value ==> !OccursAt(hay, needle, j)
    ensures r.None? ==> forall j :: from <= j ==> !OccursAt(hay, needle, j)
    decreases |hay| - from
  {
    if from + |needle| > |hay| then None
    else if OccursAt(hay, needle, from) then Some(from)
    else Find(hay, needle, from + 1)
  }

  /** The search loop of compat.cc: bytes are compared first-byte-then-rest, from the left. */
  method Memmem(hay: string, needle: string) returns (r: Option<nat>)
    ensures r.Some? ==> OccursAt(hay, needle, r.value)
    ensures r.Some? ==> forall j :: 0 <= j < r.value ==> !OccursAt(hay, needle, j)
    ensures r.None? <==> forall j :: !OccursAt(hay, needle, j)
    ensures r == Find(hay, needle, 0)
  {
    if |needle| == 0 {
      assert OccursAt(hay, needle, 0);
      return Some(0);
    }
    if |hay| < |needle| {
      return None;
    }
    var lastPossible := |hay| - |needle|;
    var begin := 0;
    while begin <= lastPossible
      invariant begin <= lastPossible + 1
      invariant forall j :: 0 <= j < begin ==> !OccursAt(hay, needle, j)
    {
      assert hay[begin..begin + |needle|] == [hay[begin]] + hay[begin + 1..begin + |needle|];
      assert needle == [needle[0]] + needle[1..];
      if hay[begin] == needle[0] && hay[begin + 1..begin + |needle|] == needle[1..] {
        assert OccursAt(hay, needle, begin);
        return Some(begin);
      }
      begin := begin + 1;
    }
    return None;
  }

  lemma OccursInSuffix(hay: string, needle: string, from: nat, i: int)
    requires from <= |hay| && 0 <= i
    ensures OccursAt(hay[from..], needle, i) <==> OccursAt(hay, needle, from + i)
  {
    if i + |needle| <= |hay| - from {
      var j := i + |needle|;
      assert hay[from..][i..j] == hay[from + i..from + j];
    }
  }

  /** Searching a suffix is searching the whole from that offset. */
  lemma FindInSuffix(hay: string, needle: string, from: nat)
    requires from <= |hay|
    ensures Find(hay[from..], needle, 0) ==
            match Find(hay, needle, from) { case None => None case Some(i) => Some(i - from) }
  {
    forall i | 0 <= i
      ensures OccursAt(hay[from..], needle, i) <==> OccursAt(hay, needle, from + i)
    {
      OccursInSuffix(hay, needle, from, i);
    }
    var a, b := Find(hay[from..], needle, 0), Find(hay, needle, from);
    if b.Some? {
      assert OccursAt(hay[from..], needle, b.value - from);
    }
    if a.Some? {
      assert OccursAt(hay, needle, from + a.value);
    }
  }

  /** A CRLF pair starts at `i`. */
  predicate CrlfAt(b: string, i: int) {
    0 <= i && i + 1 < |b| && b[i] == '\r' && b[i + 1] == '\n'
  }

  predicate NoCrlf(b: string) {
    forall i :: 0 <= i < |b| ==> !CrlfAt(b, i)
  }

  /** The first CRLF at or after `from`. */
  function NextCrlf(b: string, from: nat): (r: Option<nat>)
    ensures r.Some? ==> from <= r.value && r.value + 2 <= |b|
    decreases |b| - from
  {
    if from + 1 >= |b| then None
    else if b[from] == '\r' && b[from + 1] == '\n' then Some(from)
    else NextCrlf(b, from + 1)
  }

  lemma {:induction false} NextCrlfIsFirst(b: string, from: nat)
    ensures
      match NextCrlf(b, from)
      case Some(e) => CrlfAt(b, e) && forall j :: from <= j < e ==> !CrlfAt(b, j)
      case None => forall j :: from <= j ==> !CrlfAt(b, j)
    decreases |b| - from
  {
    if from + 1 < |b| && !CrlfAt(b, from) {
      NextCrlfIsFirst(b, from + 1);
    }
  }

  lemma CrlfOccurs(b: string, i: int)
    ensures OccursAt(b, CRLF, i) <==> CrlfAt(b, i)
  {
    if 0 <= i && i + 2 <= |b| {
      assert b[i..i + 2] == [b[i], b[i + 1]];
    }
  }

  /** It is what searching for the two-byte string finds. */
  lemma NextCrlfIsFind(b: string, from: nat)
    ensures NextCrlf(b, from) == Find(b, CRLF, from)
  {
    var r, f := NextCrlf(b, from), Find(b, CRLF, from);
    NextCrlfIsFirst(b, from);
    if r.Some? {
      CrlfOccurs(b, r.value);
    }
    if f.Some? {
      CrlfOccurs(b, f.value);
    }
  }

  /** The first `c` at or after `from`: std::string::find of a one-byte string. */
  function FindChar(s: string, c: char, from: nat): (r: Option<nat>)
    ensures r.Some? ==> from <= r.value < |s|
    decreases |s| - from
  {
    if from >= |s| then None
    else if s[from] == c then Some(from)
    else FindChar(s, c, from + 1)
  }

  lemma {:induction false} FindCharIsFirst(s: string, c: char, from: nat)
    ensures
      match FindChar(s, c, from)
      case Some(i) => s[i] == c && forall j :: from <= j < i ==> s[j] != c
      case None => forall j :: from <= j < |s| ==> s[j] != c
    decreases |s| - from
  {
    if from < |s| && s[from] != c {
      FindCharIsFirst(s, c, from + 1);
    }
  }

  lemma FindCharIsFind(s: string, c: char, from: nat)
    ensures FindChar(s, c, from) == Find(s, [c], from)
  {
    FindCharIsFirst(s, c, from);
    assert forall i :: 0 <= i < |s| ==> s[i..i + 1] == [s[i]];
    assert forall i :: OccursAt(s, [c], i) <==> 0 <= i < |s| && s[i] == c;
  }

  /** A line without CRLF ends exactly where its CRLF was written. */
  lemma NextCrlfAfter(pre: string, line: string, post: string)
    requires NoCrlf(line)
    ensures NextCrlf(pre + line + CRLF + post, |pre|) == Some(|pre| + |line|)
  {
    var b := pre + line + CRLF + post;
    var e := |pre| + |line|;
    NextCrlfIsFirst(b, |pre|);
    assert CrlfAt(b, e);
    forall j | |pre| <= j < e
      ensures !CrlfAt(b, j)
    {
      assert b[j] == line[j - |pre|];
      if j + 1 < e {
        assert b[j + 1] == line[j + 1 - |pre|];
        assert !CrlfAt(line, j - |pre|);
      }
    }
  }

  /** The text up to the first CRLF contains none. */
  lemma NoCrlfBefore(b: string, from: nat)
    requires NextCrlf(b, from).Some?
    ensures NoCrlf(b[from..NextCrlf(b, from).value])
  {
    var e := NextCrlf(b, from).value;
    NextCrlfIsFirst(b, from);
    forall i | 0 <= i < e - from
      ensures !CrlfAt(b[from..e], i)
    {
      assert !CrlfAt(b, from + i);
    }
  }

  lemma NoCrlfSlice(s: string, i: nat, j: nat)
    requires NoCrlf(s) && i <= j <= |s|
    ensures NoCrlf(s[i..j])
  {
    forall k | 0 <= k < j - i
      ensures !CrlfAt(s[i..j], k)
    {
      assert !CrlfAt(s, i + k);
    }
  }

  /** Gluing two CRLF-free texts is safe when the second does not begin with LF. */
  lemma NoCrlfConcat(s: string, t: string)
    requires NoCrlf(s) && NoCrlf(t)
    requires t == "" || t[0] != '\n'
    ensures NoCrlf(s + t)
  {
    forall k | 0 <= k < |s + t|
      ensures !CrlfAt(s + t, k)
    {
      if k + 1 < |s| {
        assert !CrlfAt(s, k);
      } else if k >= |s| {
        assert !CrlfAt(t, k - |s|);
      }
    }
  }
}
