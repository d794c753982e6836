/** What the as-of reads of price and book history (`internal/eval/series.go`) say about the samples
    themselves, without searching: which sample a mid, a return or a book comes from, and what a window
    counts and sums. */
module Samples {
  import opened Basics
  import opened Products
  import opened AsOf
  import opened Series

  // ---------------------------------------------------------------- mid

  /** Sample `k` is the last one at or before `t`. */
  ghost predicate IsLastAt(times: seq<int>, t: int, k: int) {
    0 <= k < |times| && times[k] <= t && forall j :: k < j < |times| ==> times[j] > t
  }

  /** The last sample at or before `t` has the positive price `x`. */
  ghost predicate PriceIs(s: Prices, t: int, x: real)
    requires |s.times| == |s.prices|
  {
    x > 0.0 && exists k :: IsLastAt(s.times, t, k) && s.prices[k] == x
  }

  lemma LastAtExactly(times: seq<int>, t: int, k: int)
    ensures IsLastAt(times, t, k) <==> k == LastAtOrBefore(times, t) >= 0
  {
  }

  lemma MidExactly(s: Prices, t: int, x: real)
    requires |s.times| == |s.prices|
    ensures PriceIs(s, t, x) <==> HasPositive(MidAsOf(s, t)) && MidAsOf(s, t).value == x
  {
    var i := LastAtOrBefore(s.times, t);
    LastAtExactly(s.times, t, i);
    if PriceIs(s, t, x) {
      var k :| IsLastAt(s.times, t, k) && s.prices[k] == x;
      LastAtExactly(s.times, t, k);
    }
  }

  // ---------------------------------------------------------------- return

  /** The absolute return `r` between two times: the move from the price at the first, in shares of it; none
      unless both prices are there. */
  ghost predicate ReturnIs(s: Prices, from: int, to: int, r: real)
    requires |s.times| == |s.prices|
  {
    if exists now, before :: PriceIs(s, to, now) && PriceIs(s, from, before) then
      forall now, before :: PriceIs(s, to, now) && PriceIs(s, from, before) ==>
        r >= 0.0 && (Prod(before, r) == now - before || Prod(before, r) == before - now)
    else r == 0.0
  }

  lemma MoveShare(now: real, before: real)
    requires before > 0.0
    ensures var r := Abs(now / before - 1.0);
      r >= 0.0 && (Prod(before, r) == now - before || Prod(before, r) == before - now)
  {
    ProdQuotient(before, now);
    ProdAdds(before, now / before, 1.0);
    ProdAdds(before, 1.0, now / before);
    ProdUnits(before);
  }

  lemma AbsRetIsReturn(s: Prices, t: int, window: int)
    requires |s.times| == |s.prices|
    ensures ReturnIs(s, t - window, t, AbsRet(s, t, window))
  {
    var from := t - window;
    var to, start := MidAsOf(s, t), MidAsOf(s, from);
    forall now ensures PriceIs(s, t, now) <==> HasPositive(to) && to.value == now {
      MidExactly(s, t, now);
    }
    forall before ensures PriceIs(s, from, before) <==> HasPositive(start) && start.value == before {
      MidExactly(s, from, before);
    }
    if HasPositive(to) && HasPositive(start) {
      MoveShare(to.value, start.value);
      assert PriceIs(s, t, to.value) && PriceIs(s, from, start.value);
    }
  }

  // ---------------------------------------------------------------- window count and activity

  ghost function InWindow(times: seq<int>, t: int, window: int): set<int> {
    set k | 0 <= k < |times| && t - window < times[k] <= t
  }

  lemma {:induction false} CountIsSetSize(times: seq<int>, t: int, window: int)
    ensures CountIn(times, t - window, t) == |InWindow(times, t, window)|
  {
    if times == [] {
      assert InWindow(times, t, window) == {};
    } else {
      var k := |times| - 1;
      CountIsSetSize(times[..k], t, window);
      assert InWindow(times, t, window)
          == InWindow(times[..k], t, window) + (if t - window < times[k] <= t then {k} else {});
    }
  }

  /** How many samples lie in the window that ends at `t`. */
  lemma PointCountExactly(s: Prices, t: int, window: int)
    requires window > 0
    ensures PointCount(s, t, window) == |InWindow(s.times, t, window)|
  {
    CountIsSetSize(s.times, t, window);
  }

  /** The moves between neighbouring samples that both lie in the window, of the first `n` samples. */
  ghost function MovesInWindow(s: Prices, t: int, window: int, n: nat): real
    requires |s.times| == |s.prices| && n <= |s.times|
  {
    if n <= 1 then 0.0 else
    MovesInWindow(s, t, window, n - 1) +
    (if t - window < s.times[n - 2] && s.times[n - 1] <= t then Abs(s.prices[n - 1] - s.prices[n - 2]) else 0.0)
  }

  lemma UptoSplits(times: seq<int>, t: int, k: nat)
    requires Ascends(times) && k < |times|
    ensures times[k] <= t <==> k < Upto(times, t)
  {
    var i := LastAtOrBefore(times, t);
    assert k <= i ==> times[k] <= times[i];
  }

  lemma {:induction false} MovesAreInWindow(s: Prices, t: int, window: int, n: nat)
    requires Valid(s) && window > 0 && n <= |s.times|
    ensures var last := LastAtOrBefore(s.times, t);
      MovesInWindow(s, t, window, n) == Moves(s.prices, Upto(s.times, t - window), if n - 1 <= last then n - 1 else last)
  {
    if n > 1 {
      MovesAreInWindow(s, t, window, n - 1);
      UptoSplits(s.times, t - window, n - 2);
      UptoSplits(s.times, t, n - 1);
    }
  }

  /** Activity is the sum of all moves within the window that ends at `t`. */
  lemma ActivityExactly(s: Prices, t: int, window: int)
    requires Valid(s) && window > 0
    ensures PathActivity(s, t, window) == MovesInWindow(s, t, window, |s.times|)
  {
    MovesAreInWindow(s, t, window, |s.times|);
  }

  // ---------------------------------------------------------------- book

  /** The last book at or before `t`, if a positive `maxAge` allows its age. */
  ghost predicate BookIs(books: seq<Book>, t: int, maxAge: int, b: Book) {
    exists k :: 0 <= k < |books| && books[k] == b && b.time <= t && (maxAge > 0 ==> t - b.time <= maxAge)
      && forall j :: k < j < |books| ==> books[j].time > t
  }

  lemma BookExactly(books: seq<Book>, t: int, maxAge: int, b: Book)
    ensures BookIs(books, t, maxAge, b) <==> BookAsOf(books, t, maxAge) == Some(b)
  {
    var times := BookTimes(books);
    var i := LastAtOrBefore(times, t);
    assert |times| == |books| && forall k :: 0 <= k < |books| ==> times[k] == books[k].time;
    if BookIs(books, t, maxAge, b) {
      var k :| 0 <= k < |books| && books[k] == b && b.time <= t && (maxAge > 0 ==> t - b.time <= maxAge)
        && forall j :: k < j < |books| ==> books[j].time > t;
      assert k == i;
    }
  }
}
