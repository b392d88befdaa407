/**
 * src/cache-db.cc: the CACHE table, rows in insertion order and no unique key. Each method of
 * Database is one SQL statement, atomic with respect to the statements of other handlers.
 */
module CacheDb {
  import opened Wrappers

  datatype Row = Row(key: string, expire: string, resp: string)

  predicate HasRow(rows: seq<Row>, key: string) {
    exists i :: 0 <= i < |rows| && rows[i].key == key
  }

  /** The rows of one key, in order. */
  function Matching(rows: seq<Row>, key: string): seq<Row> {
    if rows == [] then [] else OneMatch(rows[0], key) + Matching(rows[1..], key)
  }

  function OneMatch(row: Row, key: string): seq<Row> {
    if row.key == key then [row] else []
  }

  /** The first row of a key. */
  function FirstRow(rows: seq<Row>, key: string): Option<Row> {
    if rows == [] then None
    else if rows[0].key == key then Some(rows[0])
    else FirstRow(rows[1..], key)
  }

  /** INSERT: keys are not unique, so the row is simply added. */
  function Inserted(rows: seq<Row>, row: Row): seq<Row> {
    rows + [row]
  }

  /** UPDATE: every row of the key is overwritten. */
  function Updated(rows: seq<Row>, row: Row): seq<Row> {
    seq(|rows|, i requires 0 <= i < |rows| => if rows[i].key == row.key then row else rows[i])
  }

  lemma MatchingCons(row: Row, rest: seq<Row>, key: string)
    ensures Matching([row] + rest, key) == OneMatch(row, key) + Matching(rest, key)
  {
    assert ([row] + rest)[1..] == rest;
  }

  lemma {:induction false} MatchingSnoc(rows: seq<Row>, row: Row, key: string)
    ensures Matching(rows + [row], key) == Matching(rows, key) + OneMatch(row, key)
  {
    if rows == [] {
      MatchingCons(row, [], key);
      assert rows + [row] == [row] + [];
    } else {
      var rest := rows[1..];
      MatchingCons(rows[0], rest + [row], key);
      assert rows + [row] == [rows[0]] + (rest + [row]);
      MatchingSnoc(rest, row, key);
    }
  }

  class Database {
    var rows: seq<Row>

    constructor ()
      ensures rows == []
    {
      rows := [];
    }

    /** The stepping loop: one result row is pushed for each matching table row. */
    method Query(key: string) returns (results: seq<Row>)
      ensures results == Matching(rows, key)
    {
      results := [];
      var step := 0;
      while step < |rows|
        invariant step <= |rows|
        invariant results == Matching(rows[..step], key)
      {
        MatchingSnoc(rows[..step], rows[step], key);
        assert rows[..step + 1] == rows[..step] + [rows[step]];
        if rows[step].key == key {
          results := results + [rows[step]];
        }
        step := step + 1;
      }
      assert rows[..step] == rows;
    }

    method ContainsHostPathCache(key: string) returns (found: bool)
      ensures found <==> HasRow(rows, key)
    {
      var results := Query(key);
      MatchingIsFirst(rows, key);
      return |results| > 0;
    }

    /** results.at(0): None is the exception std::out_of_range. */
    method GetCache(key: string) returns (row: Option<Row>)
      ensures row == FirstRow(rows, key)
    {
      var results := Query(key);
      MatchingIsFirst(rows, key);
      return if |results| == 0 then None else Some(results[0]);
    }

    method InsertCache(key: string, expire: string, resp: string)
      modifies this
      ensures rows == Inserted(old(rows), Row(key, expire, resp))
    {
      rows := rows + [Row(key, expire, resp)];
    }

    method UpdateCache(key: string, expire: string, resp: string)
      modifies this
      ensures rows == Updated(old(rows), Row(key, expire, resp))
    {
      rows := Updated(rows, Row(key, expire, resp));
    }
  }

  /** The statements agree: a row is found exactly when it is counted, and it is the oldest one. */
  lemma {:induction false} MatchingIsFirst(rows: seq<Row>, key: string)
    ensures |Matching(rows, key)| > 0 <==> HasRow(rows, key)
    ensures FirstRow(rows, key) == if HasRow(rows, key) then Some(Matching(rows, key)[0]) else None
  {
    if rows != [] {
      var rest := rows[1..];
      MatchingIsFirst(rest, key);
      if rows[0].key == key {
        assert HasRow(rows, key);
      } else {
        assert HasRow(rest, key) ==> HasRow(rows, key) by {
          if HasRow(rest, key) {
            var i :| 0 <= i < |rest| && rest[i].key == key;
            assert rows[i + 1].key == key;
          }
        }
        assert HasRow(rows, key) ==> HasRow(rest, key) by {
          if HasRow(rows, key) {
            var i :| 0 <= i < |rows| && rows[i].key == key;
            assert rest[i - 1].key == key;
          }
        }
      }
    }
  }

  lemma {:induction false} FirstRowIsFirst(rows: seq<Row>, key: string) returns (i: nat)
    requires HasRow(rows, key)
    ensures i < |rows| && FirstRow(rows, key) == Some(rows[i]) && rows[i].key == key
    ensures forall j :: 0 <= j < i ==> rows[j].key != key
  {
    if rows[0].key == key {
      i := 0;
    } else {
      var k :| 0 <= k < |rows| && rows[k].key == key;
      assert rows[1..][k - 1].key == key;
      var n := FirstRowIsFirst(rows[1..], key);
      i := n + 1;
      forall j | 0 <= j < i
        ensures rows[j].key != key
      {
        if j > 0 {
          assert rows[1..][j - 1].key != key;
        }
      }
    }
  }

  // ----- What the statements do to the rows of each key -----

  lemma {:induction false} UpdatedMatching(rows: seq<Row>, row: Row, key: string)
    ensures |Matching(Updated(rows, row), key)| == |Matching(rows, key)|
    ensures key != row.key ==> Matching(Updated(rows, row), key) == Matching(rows, key)
    ensures forall r :: r in Matching(Updated(rows, row), row.key) ==> r == row
  {
    if rows != [] {
      assert Updated(rows, row)[1..] == Updated(rows[1..], row);
      UpdatedMatching(rows[1..], row, key);
    }
  }

  // ----- The table as a map -----

  /** What can be read from the table: the first row of each key. */
  function AsMap(rows: seq<Row>): map<string, Row> {
    if rows == [] then map[] else AsMap(rows[1..])[rows[0].key := rows[0]]
  }

  lemma {:induction false} AsMapIsFirstRow(rows: seq<Row>, key: string)
    ensures FirstRow(rows, key) == if key in AsMap(rows) then Some(AsMap(rows)[key]) else None
    ensures key in AsMap(rows) <==> HasRow(rows, key)
  {
    MatchingIsFirst(rows, key);
    if rows != [] {
      AsMapIsFirstRow(rows[1..], key);
    }
  }

  /** An insert is a write only if the key is absent: a second row of a key is never read. */
  lemma {:induction false} InsertIsPutIfAbsent(rows: seq<Row>, row: Row)
    ensures AsMap(Inserted(rows, row)) == if row.key in AsMap(rows) then AsMap(rows) else AsMap(rows)[row.key := row]
  {
    if rows == [] {
      assert Inserted(rows, row) == [row] && [row][1..] == [];
    } else {
      assert Inserted(rows, row)[1..] == Inserted(rows[1..], row);
      InsertIsPutIfAbsent(rows[1..], row);
    }
  }

  /** An update is a write only if the key is present: it reaches every duplicate. */
  lemma {:induction false} UpdateIsPutIfPresent(rows: seq<Row>, row: Row)
    ensures AsMap(Updated(rows, row)) == if row.key in AsMap(rows) then AsMap(rows)[row.key := row] else AsMap(rows)
  {
    if rows != [] {
      assert Updated(rows, row)[1..] == Updated(rows[1..], row);
      UpdateIsPutIfPresent(rows[1..], row);
    }
  }
}
