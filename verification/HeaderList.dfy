/**
 * The header list of http-headers.h as a value: what ModifyHeader, RemoveHeader and
 * FindHeader compute, and the proof that any history of edits leaves an ordered map.
 */
module HeaderList {
  import opened Wrappers

  datatype Header = Header(key: string, value: string)

  type Headers = seq<Header>

  predicate HasKey(l: Headers, key: string) {
    exists i :: 0 <= i < |l| && l[i].key == key
  }

  predicate Distinct(l: Headers) {
    forall i, j :: 0 <= i < j < |l| ==> l[i].key != l[j].key
  }

  /** std::find over the list: the first entry with this key. */
  function Position(l: Headers, key: string): (r: Option<nat>)
    ensures r.Some? ==> r.value < |l|
  {
    PositionFrom(l, key, 0)
  }

  function PositionFrom(l: Headers, key: string, i: nat): (r: Option<nat>)
    ensures r.Some? ==> r.value < |l|
    decreases |l| - i
  {
    if i >= |l| then None
    else if l[i].key == key then Some(i)
    else PositionFrom(l, key, i + 1)
  }

  lemma PositionIsFirst(l: Headers, key: string)
    ensures Position(l, key).None? <==> !HasKey(l, key)
    ensures Position(l, key).None? ==> forall j :: 0 <= j < |l| ==> l[j].key != key
    ensures Position(l, key).Some? ==>
              var i := Position(l, key).value;
              l[i].key == key && forall j :: 0 <= j < i ==> l[j].key != key
  {
    PositionFromIsFirst(l, key, 0);
  }

  lemma {:induction false} PositionFromIsFirst(l: Headers, key: string, i: nat)
    ensures
      match PositionFrom(l, key, i)
      case None => forall j :: i <= j < |l| ==> l[j].key != key
      case Some(k) => i <= k && l[k].key == key && forall j :: i <= j < k ==> l[j].key != key
    decreases |l| - i
  {
    if i < |l| && l[i].key != key {
      PositionFromIsFirst(l, key, i + 1);
    }
  }

  function Modify(l: Headers, key: string, value: string): Headers {
    match Position(l, key)
    case None => l + [Header(key, value)]
    case Some(i) => l[i := Header(key, value)]
  }

  function Remove(l: Headers, key: string): Headers {
    match Position(l, key)
    case None => l
    case Some(i) => l[..i] + l[i + 1..]
  }

  /** FindHeader: a missing key reads as the empty string. */
  function Lookup(l: Headers, key: string): string {
    match Position(l, key)
    case None => ""
    case Some(i) => l[i].value
  }

  function ModifyAll(l: Headers, hs: seq<Header>): Headers
    decreases |hs|
  {
    if hs == [] then l else ModifyAll(Modify(l, hs[0].key, hs[0].value), hs[1..])
  }

  lemma ModifyAllCons(l: Headers, h: Header, rest: seq<Header>)
    ensures ModifyAll(l, [h] + rest) == ModifyAll(Modify(l, h.key, h.value), rest)
  {
    assert ([h] + rest)[1..] == rest;
  }

  /** Writing a key twice in a row keeps only the second value. */
  lemma ModifyOverwrites(l: Headers, key: string, v: string, w: string)
    ensures Modify(Modify(l, key, v), key, w) == Modify(l, key, w)
  {
    PositionIsFirst(l, key);
    PositionIsFirst(Modify(l, key, v), key);
    var i := match Position(l, key) case None => |l| case Some(i) => i;
    assert Modify(l, key, v)[i].key == key;
    assert forall j :: 0 <= j < i ==> Modify(l, key, v)[j] == l[j];
    assert HasKey(Modify(l, key, v), key);
  }

  lemma LookupAfterModify(l: Headers, key: string, value: string, k: string)
    ensures Lookup(Modify(l, key, value), k) == if k == key then value else Lookup(l, k)
  {
    var m := Modify(l, key, value);
    PositionIsFirst(l, key);
    PositionIsFirst(l, k);
    PositionIsFirst(m, k);
    var i := match Position(l, key) case None => |l| case Some(i) => i;
    assert forall j :: 0 <= j < |m| && j != i ==> m[j] == l[j];
    assert m[i] == Header(key, value);
    if k == key {
      assert HasKey(m, key);
    } else if Position(l, k).Some? {
      assert m[Position(l, k).value].key == k;
      assert HasKey(m, k);
    }
  }

  /** The value the last entry of `hs` named `k` carries, or `otherwise` when there is none. */
  function LastValue(hs: seq<Header>, k: string, otherwise: string): string {
    if hs == [] then otherwise
    else LastValue(hs[1..], k, if hs[0].key == k then hs[0].value else otherwise)
  }

  lemma {:induction false} LookupAfterModifyAll(l: Headers, hs: seq<Header>, k: string)
    ensures Lookup(ModifyAll(l, hs), k) == LastValue(hs, k, Lookup(l, k))
    decreases |hs|
  {
    if hs != [] {
      LookupAfterModify(l, hs[0].key, hs[0].value, k);
      LookupAfterModifyAll(Modify(l, hs[0].key, hs[0].value), hs[1..], k);
    }
  }

  /** Folding a list with distinct keys onto a list with none of them appends it unchanged. */
  lemma {:induction false} ModifyAllDistinct(l: Headers, hs: seq<Header>)
    requires Distinct(l + hs)
    ensures ModifyAll(l, hs) == l + hs
    decreases |hs|
  {
    if hs == [] {
      assert l + hs == l;
    } else {
      var h := hs[0];
      assert (l + hs)[|l|] == h;
      assert !HasKey(l, h.key) by {
        forall i | 0 <= i < |l| ensures l[i].key != h.key {
          assert (l + hs)[i] == l[i];
        }
      }
      PositionIsFirst(l, h.key);
      assert Modify(l, h.key, h.value) == l + [Header(h.key, h.value)] == l + [h];
      assert (l + [h]) + hs[1..] == l + hs;
      ModifyAllDistinct(l + [h], hs[1..]);
    }
  }

  lemma ModifyKeepsDistinct(l: Headers, key: string, value: string)
    requires Distinct(l)
    ensures Distinct(Modify(l, key, value))
  {
    PositionIsFirst(l, key);
  }

  /** Removal takes the named entry out and keeps the others, in order. */
  lemma RemoveKeepsOthers(l: Headers, key: string) returns (at: nat)
    requires Distinct(l)
    ensures at <= |l| && |Remove(l, key)| == (if at == |l| then |l| else |l| - 1)
    ensures at < |l| ==> l[at].key == key
    ensures forall i :: 0 <= i < |Remove(l, key)| && i < at ==> Remove(l, key)[i] == l[i]
    ensures forall i :: at <= i < |Remove(l, key)| ==> Remove(l, key)[i] == l[i + 1]
    ensures !HasKey(Remove(l, key), key)
  {
    PositionIsFirst(l, key);
    at := match Position(l, key) case None => |l| case Some(i) => i;
    var m := Remove(l, key);
    if at < |l| {
      var _ := SkipOne(l, at);
      forall i | 0 <= i < |m|
        ensures m[i].key != key
      {
        assert i >= at ==> l[i + 1].key != l[at].key;
      }
    }
  }

  lemma SkipOne<T>(l: seq<T>, at: nat) returns (m: seq<T>)
    requires at < |l|
    ensures m == l[..at] + l[at + 1..] && |m| == |l| - 1
    ensures forall i :: 0 <= i < at ==> m[i] == l[i]
    ensures forall i :: at <= i < |m| ==> m[i] == l[i + 1]
  {
    m := l[..at] + l[at + 1..];
  }

  lemma RemoveKeeps(l: Headers, key: string, k: string)
    requires Distinct(l) && HasKey(l, k) && k != key
    ensures HasKey(Remove(l, key), k)
  {
    var m := Remove(l, key);
    var at := RemoveKeepsOthers(l, key);
    var i :| 0 <= i < |l| && l[i].key == k;
    if i < at {
      assert m[i].key == k;
    } else {
      assert m[i - 1].key == k;
    }
  }

  // ----- Histories of edits -----

  /** The two ways the list is ever changed. */
  datatype Edit = Put(key: string, value: string) | Drop(key: string)

  function Apply(l: Headers, e: Edit): Headers {
    match e
    case Put(k, v) => Modify(l, k, v)
    case Drop(k) => Remove(l, k)
  }

  function Replay(l: Headers, edits: seq<Edit>): Headers {
    if edits == [] then l else Apply(Replay(l, edits[..|edits| - 1]), edits[|edits| - 1])
  }

  /** When `key` was inserted for the time that counts: its first Put since its last Drop. */
  function Birth(edits: seq<Edit>, key: string): (r: Option<nat>)
    ensures r.Some? ==> r.value < |edits| && edits[r.value].Put? && edits[r.value].key == key
  {
    if edits == [] then None
    else
      var n := |edits| - 1;
      var earlier := Birth(edits[..n], key);
      if edits[n].key != key then earlier
      else if edits[n].Drop? then None
      else if earlier.Some? then earlier
      else Some(n)
  }

  /** The value most recently Put under `key`. */
  function Latest(edits: seq<Edit>, key: string): string {
    if edits == [] then ""
    else
      var e := edits[|edits| - 1];
      if e.Put? && e.key == key then e.value else Latest(edits[..|edits| - 1], key)
  }

  /** `l` is the ordered map that the history `edits` describes. */
  ghost predicate IsOrderedMapOf(l: Headers, edits: seq<Edit>) {
    && (forall i :: 0 <= i < |l| ==> Birth(edits, l[i].key).Some? && l[i].value == Latest(edits, l[i].key))
    && (forall k :: Birth(edits, k).Some? ==> HasKey(l, k))
    && (forall i, j :: 0 <= i < j < |l| ==>
          Birth(edits, l[i].key).value < Birth(edits, l[j].key).value)
  }

  lemma OrderedMapHasDistinctKeys(l: Headers, edits: seq<Edit>)
    requires IsOrderedMapOf(l, edits)
    ensures Distinct(l)
  {
  }

  lemma OneMoreEdit(edits: seq<Edit>, e: Edit, k: string)
    ensures e.key != k ==> Birth(edits + [e], k) == Birth(edits, k) && Latest(edits + [e], k) == Latest(edits, k)
    ensures e == Drop(k) ==> Birth(edits + [e], k).None?
    ensures e.Put? && e.key == k ==> Latest(edits + [e], k) == e.value
    ensures e.Put? && e.key == k ==>
              Birth(edits + [e], k) == if Birth(edits, k).Some? then Birth(edits, k) else Some(|edits|)
  {
    assert (edits + [e])[..|edits|] == edits;
  }

  /** The first position of a key, or the end of the list. */
  function Place(l: Headers, key: string): nat {
    match Position(l, key) case None => |l| case Some(i) => i
  }

  lemma ModifyAt(l: Headers, key: string, value: string)
    ensures
      var m, at := Modify(l, key, value), Place(l, key);
      && at <= |l| && |m| == (if at == |l| then |l| + 1 else |l|) && m[at] == Header(key, value)
      && (forall i :: 0 <= i < |l| && i != at ==> m[i] == l[i])
      && (at < |l| ==> l[at].key == key)
      && (at == |l| ==> !HasKey(l, key))
  {
    PositionIsFirst(l, key);
  }

  /** What one entry of the list owes to the history. */
  predicate IsEntryOf(h: Header, edits: seq<Edit>) {
    Birth(edits, h.key).Some? && h.value == Latest(edits, h.key)
  }

  lemma EditKeepsEntry(h: Header, edits: seq<Edit>, e: Edit)
    requires IsEntryOf(h, edits) && h.key != e.key
    ensures IsEntryOf(h, edits + [e]) && Birth(edits + [e], h.key) == Birth(edits, h.key)
  {
    OneMoreEdit(edits, e, h.key);
  }

  lemma PutStep(l: Headers, edits: seq<Edit>, e: Edit)
    requires IsOrderedMapOf(l, edits) && e.Put?
    ensures IsOrderedMapOf(Modify(l, e.key, e.value), edits + [e])
  {
    var m, all, at := Modify(l, e.key, e.value), edits + [e], Place(l, e.key);
    ModifyAt(l, e.key, e.value);
    OrderedMapHasDistinctKeys(l, edits);
    OneMoreEdit(edits, e, e.key);
    forall i | 0 <= i < |m|
      ensures IsEntryOf(m[i], all)
      ensures Birth(all, m[i].key) == if i < |l| then Birth(edits, l[i].key) else Some(|edits|)
    {
      if i != at {
        assert IsEntryOf(l[i], edits);
        EditKeepsEntry(m[i], edits, e);
      }
    }
    forall k | Birth(all, k).Some?
      ensures HasKey(m, k)
    {
      PutCovers(l, edits, e, k);
    }
  }

  lemma PutCovers(l: Headers, edits: seq<Edit>, e: Edit, k: string)
    requires IsOrderedMapOf(l, edits) && e.Put? && Birth(edits + [e], k).Some?
    ensures HasKey(Modify(l, e.key, e.value), k)
  {
    ModifyAt(l, e.key, e.value);
    OneMoreEdit(edits, e, k);
    if k != e.key {
      var i :| 0 <= i < |l| && l[i].key == k;
      assert Modify(l, e.key, e.value)[i].key == k;
    } else {
      assert Modify(l, e.key, e.value)[Place(l, k)].key == k;
    }
  }

  /** Where an entry of the shortened list was before. */
  function Before(at: nat, i: nat): nat {
    if i < at then i else i + 1
  }

  lemma DropStep(l: Headers, edits: seq<Edit>, e: Edit)
    requires IsOrderedMapOf(l, edits) && e.Drop?
    ensures IsOrderedMapOf(Remove(l, e.key), edits + [e])
  {
    OrderedMapHasDistinctKeys(l, edits);
    var at := RemoveKeepsOthers(l, e.key);
    var m, all := Remove(l, e.key), edits + [e];
    forall i: nat | i < |m|
      ensures IsEntryOf(m[i], all)
      ensures Before(at, i) < |l| && Birth(all, m[i].key) == Birth(edits, l[Before(at, i)].key)
    {
      assert m[i] == l[Before(at, i)] && m[i].key != e.key;
      assert IsEntryOf(m[i], edits);
      EditKeepsEntry(m[i], edits, e);
    }
    forall k | Birth(all, k).Some?
      ensures HasKey(m, k)
    {
      OneMoreEdit(edits, e, k);
      RemoveKeeps(l, e.key, k);
    }
  }

  /**
   * Any history of Put and Drop, from the empty list, leaves exactly the keys that are
   * alive, once each, in order of insertion, each with the last value written.
   */
  lemma {:induction false} HistoryMakesOrderedMap(edits: seq<Edit>)
    ensures IsOrderedMapOf(Replay([], edits), edits)
    ensures Distinct(Replay([], edits))
  {
    if edits != [] {
      var n := |edits| - 1;
      HistoryMakesOrderedMap(edits[..n]);
      var before := Replay([], edits[..n]);
      assert edits[..n] + [edits[n]] == edits;
      if edits[n].Put? {
        PutStep(before, edits[..n], edits[n]);
      } else {
        DropStep(before, edits[..n], edits[n]);
      }
    }
    OrderedMapHasDistinctKeys(Replay([], edits), edits);
  }

  lemma {:induction false} ReplayConcat(l: Headers, a: seq<Edit>, b: seq<Edit>)
    ensures Replay(l, a + b) == Replay(Replay(l, a), b)
    decreases |b|
  {
    if b == [] {
      assert a + b == a;
    } else {
      var n := |b| - 1;
      assert (a + b)[..|a + b| - 1] == a + b[..n];
      ReplayConcat(l, a, b[..n]);
    }
  }

  /** Folding ModifyHeader over parsed headers is a history of Puts. */
  function Puts(hs: seq<Header>): (edits: seq<Edit>) {
    if hs == [] then [] else [Put(hs[0].key, hs[0].value)] + Puts(hs[1..])
  }

  lemma {:induction false} ModifyAllIsReplay(l: Headers, hs: seq<Header>)
    ensures ModifyAll(l, hs) == Replay(l, Puts(hs))
    decreases |hs|
  {
    if hs != [] {
      var first := [Put(hs[0].key, hs[0].value)];
      assert first[..0] == [];
      assert Replay(l, first) == Apply(Replay(l, first[..0]), first[0]);
      ReplayConcat(l, first, Puts(hs[1..]));
      ModifyAllIsReplay(Modify(l, hs[0].key, hs[0].value), hs[1..]);
    }
  }
}
