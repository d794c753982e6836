/** No look-ahead (`internal/eval/backtest.go`), on the samples themselves: histories that agree on every price,
    book and snapshot row at or before a time have the same universe and board at it. */
module NoLookAhead {
  import opened Basics
  import opened Filters
  import opened AsOf
  import opened Series
  import opened Snapshots
  import opened PitBoard
  import Scoring

  /** Sample `k` of a series is known at `t`. */
  predicate IsKnown(times: seq<int>, k: nat, t: int) {
    k < |times| && times[k] <= t
  }

  /** Two series have the same samples at or before `t`. */
  ghost predicate SameUpTo(a: Prices, b: Prices, t: int)
    requires |a.times| == |a.prices| && |b.times| == |b.prices|
  {
    forall k: nat ::
      && (IsKnown(a.times, k, t) <==> IsKnown(b.times, k, t))
      && (IsKnown(a.times, k, t) && IsKnown(b.times, k, t) ==> a.times[k] == b.times[k] && a.prices[k] == b.prices[k])
  }

  ghost predicate SameBooksUpTo(a: seq<Book>, b: seq<Book>, t: int) {
    forall k: nat ::
      && (IsKnown(BookTimes(a), k, t) <==> IsKnown(BookTimes(b), k, t))
      && (IsKnown(BookTimes(a), k, t) && IsKnown(BookTimes(b), k, t) ==> a[k] == b[k])
  }

  ghost function RowKnown(t: int): Row -> Option<Row> {
    (r: Row) => if r.at <= t then Some(r) else None
  }

  /** Two lists of snapshot rows have the same rows published at or before `t`, in the same order. */
  ghost predicate SameRowsUpTo(a: seq<Row>, b: seq<Row>, t: int) {
    exists rows, ka, kb :: IsFilter(a, RowKnown(t), rows, ka) && IsFilter(b, RowKnown(t), rows, kb)
  }

  function BooksOf(h: History, token: string): seq<Book> {
    if token in h.books then h.books[token] else []
  }

  function SeriesOf(h: History, token: string): Prices {
    if token in h.prices then h.prices[token] else Prices([], [])
  }

  /** The histories agree on the markets and on everything dated at or before `t`. */
  ghost predicate Agree(a: History, b: History, t: int)
    requires Shaped(a.prices) && Shaped(b.prices)
  {
    && a.markets == b.markets
    && (forall token :: SameUpTo(SeriesOf(a, token), SeriesOf(b, token), t))
    && (forall token :: SameBooksUpTo(BooksOf(a, token), BooksOf(b, token), t))
    && SameRowsUpTo(a.snapshots, b.snapshots, t)
  }

  lemma KnownIsPrefix(times: seq<int>, t: int)
    requires Ascends(times)
    ensures forall k: nat :: IsKnown(times, k, t) <==> k < Upto(times, t)
  {
    var i := LastAtOrBefore(times, t);
    forall k: nat ensures IsKnown(times, k, t) <==> k < Upto(times, t) {
      assert k <= i ==> times[k] <= times[i];
    }
  }

  lemma SameUpto(a: seq<int>, b: seq<int>, t: int)
    requires Ascends(a) && Ascends(b) && forall k: nat :: IsKnown(a, k, t) <==> IsKnown(b, k, t)
    ensures Upto(a, t) == Upto(b, t)
  {
    KnownIsPrefix(a, t);
    KnownIsPrefix(b, t);
    assert IsKnown(a, Upto(b, t), t) <==> IsKnown(b, Upto(b, t), t);
    assert IsKnown(a, Upto(a, t), t) <==> IsKnown(b, Upto(a, t), t);
  }

  lemma SamePast(a: Prices, b: Prices, t: int)
    requires Valid(a) && Valid(b) && SameUpTo(a, b, t)
    ensures Upto(a.times, t) == Upto(b.times, t) && Past(a, t) == Past(b, t)
  {
    SameUpto(a.times, b.times, t);
    KnownIsPrefix(a.times, t);
    KnownIsPrefix(b.times, t);
    var n := Upto(a.times, t);
    forall k: nat | k < n ensures a.times[k] == b.times[k] && a.prices[k] == b.prices[k] {
      assert IsKnown(a.times, k, t) && IsKnown(b.times, k, t);
    }
  }

  lemma SamePastBooks(a: seq<Book>, b: seq<Book>, t: int)
    requires Ascends(BookTimes(a)) && Ascends(BookTimes(b)) && SameBooksUpTo(a, b, t)
    ensures PastBooks(a, t) == PastBooks(b, t)
  {
    SameUpto(BookTimes(a), BookTimes(b), t);
    KnownIsPrefix(BookTimes(a), t);
    KnownIsPrefix(BookTimes(b), t);
    forall k: nat | k < Upto(BookTimes(a), t) ensures a[k] == b[k] {
      assert IsKnown(BookTimes(a), k, t) && IsKnown(BookTimes(b), k, t);
    }
  }

  /** A list has one outcome of a filter. */
  lemma FilterIsUnique<T, U>(s: seq<T>, keep: T -> Option<U>, a: seq<U>, ka: seq<nat>, b: seq<U>, kb: seq<nat>)
    requires IsFilter(s, keep, a, ka) && IsFilter(s, keep, b, kb)
    ensures a == b
  {
    SamePositions(ka, kb, |s|);
  }

  lemma LastPosition(a: seq<nat>, n: nat)
    requires Increasing(a, n) && a != []
    ensures a[|a| - 1] in a && forall i :: i in a ==> i <= a[|a| - 1]
    ensures forall i :: i in a[..|a| - 1] <==> i in a && i != a[|a| - 1]
    ensures Increasing(a[..|a| - 1], n)
  {
    assert a == a[..|a| - 1] + [a[|a| - 1]];
  }

  lemma {:induction false} SamePositions(a: seq<nat>, b: seq<nat>, n: nat)
    requires Increasing(a, n) && Increasing(b, n) && forall i :: 0 <= i < n ==> (i in a <==> i in b)
    ensures a == b
    decreases |a| + |b|
  {
    assert a != [] ==> a[0] < n && (a[0] in a <==> a[0] in b);
    assert b != [] ==> b[0] < n && (b[0] in a <==> b[0] in b);
    if a != [] && b != [] {
      LastPosition(a, n);
      LastPosition(b, n);
      var x, y, front, other := a[|a| - 1], b[|b| - 1], a[..|a| - 1], b[..|b| - 1];
      assert x in b && y in a;
      assert x == y;
      forall i | 0 <= i < n ensures i in front <==> i in other {
        assert i in a <==> i in b;
      }
      assert a == front + [x] && b == other + [y];
      SamePositions(front, other, n);
    }
  }

  lemma {:induction false} UptoIsFilter(rows: seq<Row>, t: int) returns (at: seq<nat>)
    ensures IsFilter(rows, RowKnown(t), RowsUpto(rows, t), at)
  {
    if rows == [] {
      at := [];
    } else {
      var front, r := rows[..|rows| - 1], rows[|rows| - 1];
      var before := UptoIsFilter(front, t);
      FilterNext(front, RowKnown(t), RowsUpto(front, t), before, r);
      assert rows == front + [r];
      at := if r.at <= t then before + [|front|] else before;
    }
  }

  lemma SameRows(a: seq<Row>, b: seq<Row>, t: int)
    requires SameRowsUpTo(a, b, t)
    ensures RowsUpto(a, t) == RowsUpto(b, t)
  {
    var rows, ka, kb :| IsFilter(a, RowKnown(t), rows, ka) && IsFilter(b, RowKnown(t), rows, kb);
    var ma := UptoIsFilter(a, t);
    var mb := UptoIsFilter(b, t);
    FilterIsUnique(a, RowKnown(t), rows, ka, RowsUpto(a, t), ma);
    FilterIsUnique(b, RowKnown(t), rows, kb, RowsUpto(b, t), mb);
  }

  lemma AgreeOnPrices(a: History, b: History, t: int)
    requires Sound(a) && Sound(b) && Shaped(a.prices) && Shaped(b.prices) && Agree(a, b, t)
    ensures KnownAt(a, t).prices == KnownAt(b, t).prices
  {
    var ka, kb := KnownAt(a, t).prices, KnownAt(b, t).prices;
    forall token
      ensures token in ka <==> token in kb
      ensures token in ka ==> ka[token] == kb[token]
    {
      SamePast(SeriesOf(a, token), SeriesOf(b, token), t);
    }
  }

  lemma AgreeOnBooks(a: History, b: History, t: int)
    requires Sound(a) && Sound(b) && Shaped(a.prices) && Shaped(b.prices) && Agree(a, b, t)
    ensures KnownAt(a, t).books == KnownAt(b, t).books
  {
    var ka, kb := KnownAt(a, t).books, KnownAt(b, t).books;
    forall token
      ensures token in ka <==> token in kb
      ensures token in ka ==> ka[token] == kb[token]
    {
      SamePastBooks(BooksOf(a, token), BooksOf(b, token), t);
    }
  }

  lemma AgreeIsKnown(a: History, b: History, t: int)
    requires Sound(a) && Sound(b) && Shaped(a.prices) && Shaped(b.prices) && Agree(a, b, t)
    ensures KnownAt(a, t) == KnownAt(b, t)
  {
    AgreeOnPrices(a, b, t);
    AgreeOnBooks(a, b, t);
    SameRows(a.snapshots, b.snapshots, t);
  }

  /** Whatever two histories that agree up to `t` hold later, the board at `t` is the same. */
  lemma BoardSeesNoFuture(env: Scoring.Env, w: Scoring.Weights, a: History, b: History, t: int, maxAge: int, cap: nat, n: int)
    requires Sound(a) && Sound(b) && Shaped(a.prices) && Shaped(b.prices) && Agree(a, b, t)
    ensures CandidateBoard(env, w, a, t, maxAge, cap, n) == CandidateBoard(env, w, b, t, maxAge, cap, n)
  {
    AgreeIsKnown(a, b, t);
    BoardCannotLookAhead(env, w, a, b, t, maxAge, cap, n);
  }
}
