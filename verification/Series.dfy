/** As-of reads over price and book history (`internal/eval/series.go`). Every read at T is proved to
    depend on nothing after T: it gives the same answer on the history cut off at T. */
module Series {
  import opened Basics
  import opened Sorting
  import opened AsOf

  datatype Prices = Prices(times: seq<int>, prices: seq<real>)

  ghost predicate Valid(s: Prices) {
    |s.times| == |s.prices| && Ascends(s.times)
  }

  /** How many samples there are up to `t`. */
  function Upto(times: seq<int>, t: int): nat {
    LastAtOrBefore(times, t) + 1
  }

  /** The history as it was at `t`. */
  function Past(s: Prices, t: int): Prices
    requires |s.times| == |s.prices|
  {
    Prices(s.times[..Upto(s.times, t)], s.prices[..Upto(s.times, t)])
  }

  lemma PastIsExact(s: Prices, t: int)
    requires Valid(s)
    ensures Valid(Past(s, t))
    ensures forall i :: 0 <= i < |s.times| ==> (i < |Past(s, t).times| <==> s.times[i] <= t)
  {
    var k := LastAtOrBefore(s.times, t);
    assert forall i :: 0 <= i <= k ==> s.times[i] <= s.times[k];
  }

  /** Scanning the cut-off history at any earlier time finds the same sample. */
  lemma PastScansAlike(times: seq<int>, t: int, u: int)
    requires u <= t
    ensures LastAtOrBefore(times[..Upto(times, t)], u) == LastAtOrBefore(times, u)
  {
    var k := Upto(times, t);
    assert times == times[..k] + times[k..];
    ScanIgnoresLater(times[..k], times[k..], u);
  }

  // ---------------------------------------------------------------- mid and return

  function MidAsOf(s: Prices, t: int): Option<real>
    requires |s.times| == |s.prices|
  {
    var i := LastAtOrBefore(s.times, t);
    if i < 0 then None else Some(s.prices[i])
  }

  method FindMidAsOf(s: Prices, t: int) returns (mid: Option<real>)
    requires Valid(s)
    ensures mid == MidAsOf(s, t)
  {
    var i := SearchAtOrBefore(s.times, t);
    if i < 0 {
      return None;
    }
    return Some(s.prices[i]);
  }

  lemma MidIsPast(s: Prices, t: int, u: int)
    requires Valid(s) && u <= t
    ensures Valid(Past(s, t)) && MidAsOf(Past(s, t), u) == MidAsOf(s, u)
  {
    PastIsExact(s, t);
    PastScansAlike(s.times, t, u);
  }

  predicate HasPositive(mid: Option<real>) {
    mid.Some? && mid.value > 0.0
  }

  /** |mid(t) / mid(t - window) - 1| when both mids exist and are positive, else 0. */
  function AbsRet(s: Prices, t: int, window: int): real
    requires |s.times| == |s.prices|
  {
    var now, before := MidAsOf(s, t), MidAsOf(s, t - window);
    if HasPositive(now) && HasPositive(before) then Abs(now.value / before.value - 1.0) else 0.0
  }

  lemma AbsRetIsPast(s: Prices, t: int, window: int)
    requires Valid(s) && window >= 0
    ensures Valid(Past(s, t)) && AbsRet(Past(s, t), t, window) == AbsRet(s, t, window)
  {
    MidIsPast(s, t, t);
    MidIsPast(s, t, t - window);
  }

  // ---------------------------------------------------------------- sample count

  /** Samples in (lo, hi], counted one by one. */
  function CountIn(times: seq<int>, lo: int, hi: int): nat {
    if times == [] then 0
    else CountIn(times[..|times| - 1], lo, hi) + (if lo < times[|times| - 1] <= hi then 1 else 0)
  }

  function PointCount(s: Prices, t: int, window: int): nat {
    if window <= 0 then 0 else CountIn(s.times, t - window, t)
  }

  lemma {:induction false} CountIsDifference(times: seq<int>, lo: int, hi: int)
    requires Ascends(times) && lo <= hi
    ensures CountIn(times, lo, hi) == Upto(times, hi) - Upto(times, lo)
  {
    if times != [] {
      var k := |times| - 1;
      CountIsDifference(times[..k], lo, hi);
      if times[k] <= hi {
        AllUpto(times[..k], hi);
      }
      if times[k] <= lo {
        AllUpto(times[..k], lo);
      }
    }
  }

  lemma AllUpto(times: seq<int>, t: int)
    requires forall i :: 0 <= i < |times| ==> times[i] <= t
    ensures Upto(times, t) == |times|
  {
  }

  method CountPoints(s: Prices, t: int, window: int) returns (n: nat)
    requires Valid(s)
    ensures n == PointCount(s, t, window)
  {
    if |s.times| == 0 || window <= 0 {
      return 0;
    }
    var lo := t - window;
    var last := SearchAtOrBefore(s.times, lo);
    var i0 := last + 1;
    var i1 := SearchAtOrBefore(s.times, t);
    CountIsDifference(s.times, lo, t);
    if i1 < i0 {
      return 0;
    }
    return i1 - i0 + 1;
  }

  lemma CountIsPast(s: Prices, t: int, window: int)
    requires Valid(s)
    ensures PointCount(Past(s, t), t, window) == PointCount(s, t, window)
  {
    if window > 0 {
      PastIsExact(s, t);
      PastScansAlike(s.times, t, t - window);
      PastScansAlike(s.times, t, t);
      CountIsDifference(s.times, t - window, t);
      CountIsDifference(Past(s, t).times, t - window, t);
    }
  }

  // ---------------------------------------------------------------- path activity

  /** Sum of |change| between consecutive samples from index i0 to i1. */
  function Moves(prices: seq<real>, i0: nat, i1: int): real
    requires i1 < |prices|
    decreases i1 - i0
  {
    if i1 <= i0 then 0.0 else Moves(prices, i0, i1 - 1) + Abs(prices[i1] - prices[i1 - 1])
  }

  /** Activity over the samples in (t - window, t]. */
  function PathActivity(s: Prices, t: int, window: int): real
    requires |s.times| == |s.prices|
  {
    if window <= 0 then 0.0 else Moves(s.prices, Upto(s.times, t - window), LastAtOrBefore(s.times, t))
  }

  method SumPathActivity(s: Prices, t: int, window: int) returns (sum: real)
    requires Valid(s)
    ensures sum == PathActivity(s, t, window)
  {
    sum := 0.0;
    if |s.times| < 2 || window <= 0 {
      return;
    }
    var lo := t - window;
    var last := SearchAtOrBefore(s.times, lo);
    var i0 := last + 1;
    var i1 := SearchAtOrBefore(s.times, t);
    ActivityBetween(s, t, window, i0, i1);
    if i1 <= i0 {
      return;
    }
    sum := SumMoves(s.prices, i0, i1);
  }

  lemma ActivityBetween(s: Prices, t: int, window: int, i0: nat, i1: int)
    requires |s.times| == |s.prices| && window > 0
    requires i0 == Upto(s.times, t - window) && i1 == LastAtOrBefore(s.times, t)
    ensures PathActivity(s, t, window) == if i1 <= i0 then 0.0 else Moves(s.prices, i0, i1)
  {
  }

  method SumMoves(prices: seq<real>, i0: nat, i1: nat) returns (sum: real)
    requires i0 < i1 < |prices|
    ensures sum == Moves(prices, i0, i1)
  {
    sum := 0.0;
    for i := i0 + 1 to i1 + 1
      invariant sum == Moves(prices, i0, i - 1)
    {
      sum := sum + Abs(prices[i] - prices[i - 1]);
    }
  }

  lemma {:induction false} MovesOfPrefix(prices: seq<real>, n: nat, i0: nat, i1: int)
    requires i1 < n <= |prices|
    ensures Moves(prices[..n], i0, i1) == Moves(prices, i0, i1)
    decreases i1 - i0
  {
    if i1 > i0 {
      MovesOfPrefix(prices, n, i0, i1 - 1);
    }
  }

  lemma ActivityIsPast(s: Prices, t: int, window: int)
    requires Valid(s)
    ensures Valid(Past(s, t)) && PathActivity(Past(s, t), t, window) == PathActivity(s, t, window)
  {
    PastIsExact(s, t);
    if window > 0 {
      PastScansAlike(s.times, t, t - window);
      PastScansAlike(s.times, t, t);
      MovesOfPrefix(s.prices, Upto(s.times, t), Upto(s.times, t - window), LastAtOrBefore(s.times, t));
    }
  }

  // ---------------------------------------------------------------- books

  datatype Book = Book(time: int, bid: real, ask: real, bidDepth: real, askDepth: real)

  function TimeOf(b: Book): int { b.time }

  function BookTimes(books: seq<Book>): seq<int> {
    Map(TimeOf, books)
  }

  function PastBooks(books: seq<Book>, t: int): seq<Book> {
    books[..Upto(BookTimes(books), t)]
  }

  /** The last book at or before `t`, unless it is older than a positive `maxAge`. */
  function BookAsOf(books: seq<Book>, t: int, maxAge: int): Option<Book> {
    var i := LastAtOrBefore(BookTimes(books), t);
    if i < 0 || (maxAge > 0 && t - books[i].time > maxAge) then None else Some(books[i])
  }

  method FindBookAsOf(books: seq<Book>, t: int, maxAge: int) returns (b: Option<Book>)
    requires Ascends(BookTimes(books))
    ensures b == BookAsOf(books, t, maxAge)
  {
    if |books| == 0 {
      return None;
    }
    var i := SearchAtOrBefore(BookTimes(books), t);
    if i < 0 {
      return None;
    }
    var p := books[i];
    if maxAge > 0 && t - p.time > maxAge {
      return None;
    }
    return Some(p);
  }

  lemma BookIsPast(books: seq<Book>, t: int, maxAge: int)
    ensures BookAsOf(PastBooks(books, t), t, maxAge) == BookAsOf(books, t, maxAge)
  {
    var times := BookTimes(books);
    assert BookTimes(PastBooks(books, t)) == times[..Upto(times, t)];
    PastScansAlike(times, t, t);
  }
}
