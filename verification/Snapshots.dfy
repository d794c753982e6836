/** The in-memory index of published board snapshots (`internal/eval/snapshots.go`). */
module Snapshots {
  import opened Basics
  import opened Sorting
  import opened AsOf

  datatype Row = Row(
    at: int,
    condition: string,
    category: string,
    negRisk: bool,
    groupId: string,
    legs: seq<string>,
    volume: real,
    token: string)

  /** Distinct snapshot times in ascending order, and the rows of each. */
  datatype SnapIndex = SnapIndex(times: seq<int>, byTime: map<int, seq<Row>>)

  // ---------------------------------------------------------------- what the index stands for

  function RowsAt(rows: seq<Row>, at: int): seq<Row> {
    if rows == [] then [] else
    var front, r := RowsAt(rows[..|rows| - 1], at), rows[|rows| - 1];
    if r.at == at then front + [r] else front
  }

  /** The rows published at or before `t`. */
  function RowsUpto(rows: seq<Row>, t: int): seq<Row> {
    if rows == [] then [] else
    var front, r := RowsUpto(rows[..|rows| - 1], t), rows[|rows| - 1];
    if r.at <= t then front + [r] else front
  }

  /** The latest snapshot time at or before `t`, by scanning all rows. */
  function Nearest(rows: seq<Row>, t: int): Option<int> {
    if rows == [] then None else
    var rest, at := Nearest(rows[..|rows| - 1], t), rows[|rows| - 1].at;
    if at <= t && (rest.None? || at > rest.value) then Some(at) else rest
  }

  function FirstOf(rows: seq<Row>, condition: string): Option<Row> {
    if rows == [] then None
    else if rows[0].condition == condition then Some(rows[0])
    else FirstOf(rows[1..], condition)
  }

  /** The row for a condition in the latest snapshot at or before `t`. */
  function Lookup(rows: seq<Row>, t: int, condition: string): Option<Row> {
    var at := Nearest(rows, t);
    if at.None? then None else FirstOf(RowsAt(rows, at.value), condition)
  }

  ghost predicate Indexes(idx: SnapIndex, rows: seq<Row>) {
    && Ascends(idx.times)
    && (forall x :: x in idx.times <==> x in idx.byTime)
    && (forall i :: 0 <= i < |rows| ==> rows[i].at in idx.byTime)
    && (forall x :: x in idx.byTime ==> idx.byTime[x] == RowsAt(rows, x) && idx.byTime[x] != [])
  }

  // ---------------------------------------------------------------- the program

  method BuildSnapIndex(rows: seq<Row>) returns (idx: SnapIndex)
    ensures Indexes(idx, rows)
  {
    var times, byTime := GroupByTime(rows);
    var sorted := SortSlice(times, IntLess);
    SameElements(sorted, times);
    forall i, j | 0 <= i < j < |sorted| ensures sorted[i] <= sorted[j] {
      assert !IntLess(sorted[j], sorted[i]);
    }
    idx := SnapIndex(sorted, byTime);
  }

  ghost predicate Groups(byTime: map<int, seq<Row>>, rows: seq<Row>) {
    && (forall i :: 0 <= i < |rows| ==> rows[i].at in byTime)
    && (forall x :: x in byTime ==> byTime[x] == RowsAt(rows, x) && byTime[x] != [])
  }

  method GroupByTime(rows: seq<Row>) returns (times: seq<int>, byTime: map<int, seq<Row>>)
    ensures forall x :: x in times <==> x in byTime
    ensures Groups(byTime, rows)
  {
    times, byTime := [], map[];
    for i := 0 to |rows|
      invariant forall x :: x in times <==> x in byTime
      invariant Groups(byTime, rows[..i])
    {
      var r := rows[i];
      GroupNext(byTime, rows[..i], r);
      assert rows[..i + 1] == rows[..i] + [r];
      if r.at !in byTime {
        times := times + [r.at];
        byTime := byTime[r.at := [r]];
      } else {
        byTime := byTime[r.at := byTime[r.at] + [r]];
      }
    }
    assert rows[..|rows|] == rows;
  }

  lemma GroupNext(byTime: map<int, seq<Row>>, rows: seq<Row>, r: Row)
    requires Groups(byTime, rows)
    ensures Groups(byTime[r.at := (if r.at in byTime then byTime[r.at] else []) + [r]], rows + [r])
  {
    assert (rows + [r])[..|rows|] == rows;
    if r.at !in byTime {
      NoRowsAt(rows, r.at);
      assert [] + [r] == [r];
    }
  }

  lemma {:induction false} NoRowsAt(rows: seq<Row>, at: int)
    requires forall i :: 0 <= i < |rows| ==> rows[i].at != at
    ensures RowsAt(rows, at) == []
  {
    if rows != [] {
      NoRowsAt(rows[..|rows| - 1], at);
    }
  }

  method NearestAtOrBefore(idx: SnapIndex, ghost rows: seq<Row>, t: int) returns (at: Option<int>, found: seq<Row>)
    requires Indexes(idx, rows)
    ensures at == Nearest(rows, t)
    ensures at.Some? ==> found == RowsAt(rows, at.value)
  {
    var i := SearchAtOrBefore(idx.times, t);
    NearestFound(idx, rows, t);
    if i < 0 {
      return None, [];
    }
    assert idx.times[i] in idx.times;
    return Some(idx.times[i]), idx.byTime[idx.times[i]];
  }

  method LookupCond(idx: SnapIndex, ghost rows: seq<Row>, t: int, condition: string) returns (meta: Option<Row>)
    requires Indexes(idx, rows)
    ensures meta == Lookup(rows, t, condition)
  {
    var at, found := NearestAtOrBefore(idx, rows, t);
    if at.None? {
      return None;
    }
    for i := 0 to |found|
      invariant FirstOf(found[i..], condition) == FirstOf(found, condition)
    {
      if found[i].condition == condition {
        return Some(found[i]);
      }
      assert found[i..][1..] == found[i + 1..];
    }
    assert found[|found|..] == [];
    return None;
  }

  // ---------------------------------------------------------------- search equals scan, and sees no future

  lemma {:induction false} NearestIsLatest(rows: seq<Row>, t: int)
    ensures Nearest(rows, t).None? <==> forall i :: 0 <= i < |rows| ==> rows[i].at > t
    ensures Nearest(rows, t).Some? ==>
      && Nearest(rows, t).value <= t
      && (exists i :: 0 <= i < |rows| && rows[i].at == Nearest(rows, t).value)
      && (forall i :: 0 <= i < |rows| && rows[i].at <= t ==> rows[i].at <= Nearest(rows, t).value)
  {
    if rows != [] {
      var k := |rows| - 1;
      NearestIsLatest(rows[..k], t);
      if Nearest(rows, t).Some? && Nearest(rows, t).value != rows[k].at {
        var i :| 0 <= i < k && rows[..k][i].at == Nearest(rows, t).value;
        assert rows[i].at == Nearest(rows, t).value;
      }
    }
  }

  lemma {:induction false} RowsAtNonEmpty(rows: seq<Row>, at: int)
    requires RowsAt(rows, at) != []
    ensures exists i :: 0 <= i < |rows| && rows[i].at == at
  {
    var k := |rows| - 1;
    if rows[k].at != at {
      RowsAtNonEmpty(rows[..k], at);
      var i :| 0 <= i < k && rows[..k][i].at == at;
      assert rows[i].at == at;
    }
  }

  /** The binary search over the index finds the scan's snapshot. */
  lemma NearestFound(idx: SnapIndex, rows: seq<Row>, t: int)
    requires Indexes(idx, rows)
    ensures var i := LastAtOrBefore(idx.times, t);
      Nearest(rows, t) == if i < 0 then None else Some(idx.times[i])
  {
    var i := LastAtOrBefore(idx.times, t);
    NearestIsLatest(rows, t);
    if Nearest(rows, t).Some? {
      var at := Nearest(rows, t).value;
      assert at in idx.times;
      var j :| 0 <= j < |idx.times| && idx.times[j] == at;
      assert j <= i;
    }
    if i >= 0 {
      assert idx.times[i] in idx.times;
      RowsAtNonEmpty(rows, idx.times[i]);
      var k :| 0 <= k < |rows| && rows[k].at == idx.times[i];
      if Nearest(rows, t).Some? {
        var j :| 0 <= j < |idx.times| && idx.times[j] == Nearest(rows, t).value;
        assert idx.times[j] <= idx.times[i];
      }
    }
  }

  lemma {:induction false} UptoKeepsNearest(rows: seq<Row>, t: int)
    ensures Nearest(RowsUpto(rows, t), t) == Nearest(rows, t)
  {
    if rows != [] {
      var k := |rows| - 1;
      UptoKeepsNearest(rows[..k], t);
      var front := RowsUpto(rows[..k], t);
      assert (front + [rows[k]])[..|front|] == front;
    }
  }

  lemma {:induction false} UptoKeepsRowsAt(rows: seq<Row>, t: int, at: int)
    requires at <= t
    ensures RowsAt(RowsUpto(rows, t), at) == RowsAt(rows, at)
  {
    if rows != [] {
      var k := |rows| - 1;
      UptoKeepsRowsAt(rows[..k], t, at);
      var front := RowsUpto(rows[..k], t);
      assert (front + [rows[k]])[..|front|] == front;
    }
  }

  /** A lookup at `t` depends only on the rows published up to `t`. */
  lemma LookupIsPast(rows: seq<Row>, t: int, condition: string)
    ensures Lookup(RowsUpto(rows, t), t, condition) == Lookup(rows, t, condition)
  {
    UptoKeepsNearest(rows, t);
    NearestIsLatest(rows, t);
    if Nearest(rows, t).Some? {
      UptoKeepsRowsAt(rows, t, Nearest(rows, t).value);
    }
  }

  // ---------------------------------------------------------------- which row a lookup finds

  /** Row `i` is the first one of the condition at the instant `at`. */
  ghost predicate IsFirstRow(rows: seq<Row>, at: int, condition: string, i: int) {
    && 0 <= i < |rows| && rows[i].at == at && rows[i].condition == condition
    && forall j :: 0 <= j < i ==> rows[j].at != at || rows[j].condition != condition
  }

  lemma {:induction false} FirstOfNext(rows: seq<Row>, r: Row, condition: string)
    ensures FirstOf(rows + [r], condition) ==
      if FirstOf(rows, condition).Some? then FirstOf(rows, condition)
      else if r.condition == condition then Some(r) else None
  {
    if rows != [] {
      FirstOfNext(rows[1..], r, condition);
      assert (rows + [r])[1..] == rows[1..] + [r];
    }
  }

  lemma {:induction false} FirstRowExactly(rows: seq<Row>, at: int, condition: string)
    ensures var first := FirstOf(RowsAt(rows, at), condition);
      if first.Some? then exists i :: IsFirstRow(rows, at, condition, i) && rows[i] == first.value
      else forall i :: !IsFirstRow(rows, at, condition, i)
  {
    if rows != [] {
      var k := |rows| - 1;
      var front := rows[..k];
      FirstRowExactly(front, at, condition);
      FirstOfNext(RowsAt(front, at), rows[k], condition);
      forall i ensures IsFirstRow(front, at, condition, i) ==> IsFirstRow(rows, at, condition, i) {
      }
      if FirstOf(RowsAt(front, at), condition).None? {
        forall j | 0 <= j < k ensures rows[j].at != at || rows[j].condition != condition {
          NoFirstNoRow(front, at, condition, j);
        }
        assert rows[k].at == at && rows[k].condition == condition ==> IsFirstRow(rows, at, condition, k);
      }
    }
  }

  lemma NoFirstNoRow(rows: seq<Row>, at: int, condition: string, j: nat)
    requires j < |rows| && forall i :: !IsFirstRow(rows, at, condition, i)
    ensures rows[j].at != at || rows[j].condition != condition
    decreases j
  {
    assert !IsFirstRow(rows, at, condition, j);
    if rows[j].at == at && rows[j].condition == condition {
      var i :| 0 <= i < j && rows[i].at == at && rows[i].condition == condition;
      NoFirstNoRow(rows, at, condition, i);
    }
  }

  /** `r` is the first row of the condition in the latest snapshot at or before `t`. */
  ghost predicate IsLatestRow(rows: seq<Row>, t: int, condition: string, r: Row) {
    && r.at <= t && (forall j :: 0 <= j < |rows| && rows[j].at <= t ==> rows[j].at <= r.at)
    && exists i :: IsFirstRow(rows, r.at, condition, i) && rows[i] == r
  }

  lemma FirstRowIsUnique(rows: seq<Row>, at: int, condition: string, i: int, j: int)
    requires IsFirstRow(rows, at, condition, i) && IsFirstRow(rows, at, condition, j)
    ensures i == j
  {
  }

  /** A lookup finds that row, and nothing when there is none. */
  lemma LookupExactly(rows: seq<Row>, t: int, condition: string, r: Row)
    ensures Lookup(rows, t, condition) == Some(r) <==> IsLatestRow(rows, t, condition, r)
  {
    NearestIsLatest(rows, t);
    if Nearest(rows, t).Some? {
      FirstRowExactly(rows, Nearest(rows, t).value, condition);
      if Lookup(rows, t, condition) == Some(r) {
        var i :| IsFirstRow(rows, Nearest(rows, t).value, condition, i) && rows[i] == r;
        assert IsFirstRow(rows, r.at, condition, i);
      }
    }
    if IsLatestRow(rows, t, condition, r) {
      var i :| IsFirstRow(rows, r.at, condition, i) && rows[i] == r;
      assert Nearest(rows, t) == Some(r.at);
      var k :| IsFirstRow(rows, r.at, condition, k) && rows[k] == FirstOf(RowsAt(rows, r.at), condition).value;
      FirstRowIsUnique(rows, r.at, condition, i, k);
    }
  }
}
