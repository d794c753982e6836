/** What price gap filling adds (`internal/datagap/prices.go`), stated on the samples around a grid time:
    exactly where it interpolates, holds or gives up, and on which line the price lies. */
module Interpolation {
  import opened Products
  import opened AsOf
  import opened FillPrices

  /** `t` lies between the samples `i` and `i + 1`. */
  ghost predicate InGap(anchors: seq<Point>, i: int, t: int) {
    0 <= i < |anchors| - 1 && anchors[i].time <= t < anchors[i + 1].time
  }

  /** And these are close enough to be joined. */
  ghost predicate InShortGap(anchors: seq<Point>, i: int, t: int, maxGap: int) {
    InGap(anchors, i, t) && anchors[i + 1].time - anchors[i].time <= maxGap
  }

  ghost predicate Joined(anchors: seq<Point>, t: int, maxGap: int) {
    exists i :: InShortGap(anchors, i, t, maxGap)
  }

  /** A sample at or before `t`, or after it, no further than `reach`. */
  ghost predicate HasBefore(anchors: seq<Point>, t: int, reach: int) {
    exists i :: 0 <= i < |anchors| && 0 <= t - anchors[i].time <= reach
  }

  ghost predicate HasAfter(anchors: seq<Point>, t: int, reach: int) {
    exists i :: 0 <= i < |anchors| && 0 < anchors[i].time - t <= reach
  }

  // ---------------------------------------------------------------- which case applies

  /** The scan's index, among ascending samples, says which samples are at or before `t`. */
  lemma ScanSplits(anchors: seq<Point>, t: int)
    requires Ascends(Times(anchors))
    ensures var i := LastAtOrBefore(Times(anchors), t);
      && (forall k :: 0 <= k < |anchors| ==> (anchors[k].time <= t <==> k <= i))
      && (forall k :: 0 <= k <= i ==> anchors[k].time <= anchors[i].time)
      && (forall k :: i < k < |anchors| ==> anchors[i + 1].time <= anchors[k].time)
  {
    var times := Times(anchors);
    var i := LastAtOrBefore(times, t);
    assert forall k :: 0 <= k < |anchors| ==> times[k] == anchors[k].time;
    forall k | 0 <= k <= i ensures anchors[k].time <= anchors[i].time <= t {
      assert k < i ==> times[k] <= times[i];
    }
    forall k | i < k < |anchors| ensures anchors[i + 1].time <= anchors[k].time {
      assert i + 1 < k ==> times[i + 1] <= times[k];
    }
  }

  lemma GapIsAtScan(anchors: seq<Point>, t: int, i: int)
    requires Ascends(Times(anchors)) && InGap(anchors, i, t)
    ensures i == LastAtOrBefore(Times(anchors), t)
  {
    ScanSplits(anchors, t);
  }

  /** A synthetic price interpolates exactly when `t` lies between two samples at most MaxGap apart, and is
      missing exactly when it does not and no sample is within HoldMax of it. */
  lemma SynthExactly(anchors: seq<Point>, t: int, o: Opts)
    requires Ascends(Times(anchors))
    ensures var s := SynthAt(anchors, t, o);
      && (s.Made? && s.kind == Interp <==> Joined(anchors, t, o.maxGap))
      && (s.Missing? <==>
           !Joined(anchors, t, o.maxGap) && !HasBefore(anchors, t, o.holdMax) && !HasAfter(anchors, t, o.holdMax))
  {
    var i := LastAtOrBefore(Times(anchors), t);
    ScanSplits(anchors, t);
    assert Bridges(anchors, i, o) ==> InShortGap(anchors, i, t, o.maxGap);
    assert i >= 0 && t - anchors[i].time <= o.holdMax ==> 0 <= t - anchors[i].time <= o.holdMax;
  }

  /** A held price is that of the latest sample at or before `t` when it is within reach, and otherwise that
      of the first one after it. */
  lemma HeldExactly(anchors: seq<Point>, t: int, o: Opts, k: int)
    requires Ascends(Times(anchors)) && SynthAt(anchors, t, o).Made? && SynthAt(anchors, t, o).kind == Hold
    requires 0 <= k < |anchors|
    requires if HasBefore(anchors, t, o.holdMax)
      then anchors[k].time <= t && (k + 1 < |anchors| ==> anchors[k + 1].time > t)
      else anchors[k].time > t && (k > 0 ==> anchors[k - 1].time <= t)
    ensures -o.holdMax <= t - anchors[k].time <= o.holdMax
    ensures SynthAt(anchors, t, o).price == ClampPrice(anchors[k].price, o)
  {
    var i := LastAtOrBefore(Times(anchors), t);
    ScanSplits(anchors, t);
    SynthExactly(anchors, t, o);
    assert Bridges(anchors, i, o) ==> InShortGap(anchors, i, t, o.maxGap);
  }

  // ---------------------------------------------------------------- on which line it lies

  lemma LineIsUnique(l: Point, r: Point, t: int, y: real, z: real)
    requires l.time < r.time && OnLine(l, r, t, y) && OnLine(l, r, t, z)
    ensures y == z
  {
    var gap := (r.time - l.time) as real;
    ProdCommutes(y - l.price, gap);
    ProdCommutes(z - l.price, gap);
    ProdGrows(gap, y - l.price, z - l.price);
    ProdGrows(gap, z - l.price, y - l.price);
  }

  ghost predicate InRange(o: Opts, price: real) {
    o.floor <= price <= o.ceil
  }

  /** Between two samples in range the price is the one on their line. */
  lemma SynthIsOnLine(anchors: seq<Point>, i: int, t: int, o: Opts)
    requires Ascends(Times(anchors)) && InShortGap(anchors, i, t, o.maxGap)
    requires InRange(o, anchors[i].price) && InRange(o, anchors[i + 1].price)
    ensures var s := SynthAt(anchors, t, o);
      s.Made? && s.kind == Interp && OnLine(anchors[i], anchors[i + 1], t, s.price) && InRange(o, s.price)
  {
    GapIsAtScan(anchors, t, i);
    InterpolationIsBetween(anchors[i], anchors[i + 1], t);
  }

  // ---------------------------------------------------------------- the points Fill adds

  ghost predicate AllInRange(o: Opts, anchors: seq<Point>) {
    forall i :: 0 <= i < |anchors| ==> InRange(o, anchors[i].price)
  }

  lemma AnchorsInRange(samples: seq<Point>, o: Opts, anchors: seq<Point>)
    requires o.floor <= o.ceil && AreAnchors(samples, o, anchors)
    ensures Ascends(Times(anchors)) && AllInRange(o, anchors)
  {
    forall i | 0 <= i < |anchors| ensures InRange(o, anchors[i].price) {
      assert anchors[i] in anchors;
      var p :| p in samples && Usable(p) && anchors[i] == Clean(p, o);
    }
  }

  lemma AddedIsJoined(anchors: seq<Point>, grid: seq<int>, o: Opts, p: Point)
    requires Ascends(Times(anchors)) && p in Added(anchors, grid, o) && p.source == INTERP
    ensures Joined(anchors, p.time, o.maxGap)
    ensures SynthAt(anchors, p.time, o).Made? && p.price == SynthAt(anchors, p.time, o).price
  {
    AddedOnlyWhereUncovered(anchors, grid, o);
    LabelsDiffer();
    SynthExactly(anchors, p.time, o);
  }

  lemma JoinedIsOnLine(anchors: seq<Point>, t: int, o: Opts) returns (i: int)
    requires Ascends(Times(anchors)) && AllInRange(o, anchors) && Joined(anchors, t, o.maxGap)
    ensures InShortGap(anchors, i, t, o.maxGap) && SynthAt(anchors, t, o).Made?
    ensures OnLine(anchors[i], anchors[i + 1], t, SynthAt(anchors, t, o).price)
  {
    i :| InShortGap(anchors, i, t, o.maxGap);
    SynthIsOnLine(anchors, i, t, o);
  }

  /** Every point added as interpolated lies on the line through the samples around it, which are at most
      MaxGap apart. */
  lemma AddedIsOnLine(samples: seq<Point>, grid: seq<int>, o: Opts, anchors: seq<Point>, p: Point) returns (i: int)
    requires o.floor <= o.ceil && AreAnchors(samples, o, anchors)
    requires p in Added(anchors, grid, o) && p.source == INTERP
    ensures InShortGap(anchors, i, p.time, o.maxGap) && OnLine(anchors[i], anchors[i + 1], p.time, p.price)
  {
    AnchorsInRange(samples, o, anchors);
    AddedIsJoined(anchors, grid, o, p);
    i := JoinedIsOnLine(anchors, p.time, o);
  }

  lemma LineIsMonotone(l: Point, r: Point, t: int, y: real, u: int, z: real)
    requires l.time <= t <= u < r.time && OnLine(l, r, t, y) && OnLine(l, r, u, z)
    ensures l.price <= r.price ==> y <= z
    ensures l.price >= r.price ==> y >= z
  {
    var gap, d := (r.time - l.time) as real, r.price - l.price;
    ProdCommutes(y - l.price, gap);
    ProdCommutes(z - l.price, gap);
    ProdGrows(gap, y - l.price, z - l.price);
    ProdGrows(gap, z - l.price, y - l.price);
    ProdAdds(d, (u - l.time) as real, (t - l.time) as real);
    if d >= 0.0 {
      ProdMonotone(0.0, d, (u - t) as real);
    }
    if d <= 0.0 {
      ProdMonotone(d, 0.0, (u - t) as real);
    }
    ProdUnits((u - t) as real);
    ProdCommutes(0.0, (u - t) as real);
    assert (u - l.time) as real - (t - l.time) as real == (u - t) as real;
  }

  lemma AddedInGap(samples: seq<Point>, grid: seq<int>, o: Opts, anchors: seq<Point>, p: Point, i: int)
    requires o.floor <= o.ceil && AreAnchors(samples, o, anchors)
    requires p in Added(anchors, grid, o) && p.source == INTERP && InGap(anchors, i, p.time)
    ensures OnLine(anchors[i], anchors[i + 1], p.time, p.price)
  {
    var j := AddedIsOnLine(samples, grid, o, anchors, p);
    AnchorsInRange(samples, o, anchors);
    GapIsAtScan(anchors, p.time, i);
    GapIsAtScan(anchors, p.time, j);
  }

  /** Two points interpolated in one gap are ordered as its samples are. */
  lemma AddedFollowSamples(samples: seq<Point>, grid: seq<int>, o: Opts, anchors: seq<Point>, p: Point, q: Point, i: int)
    requires o.floor <= o.ceil && AreAnchors(samples, o, anchors)
    requires p in Added(anchors, grid, o) && q in Added(anchors, grid, o) && p.source == INTERP && q.source == INTERP
    requires InGap(anchors, i, p.time) && InGap(anchors, i, q.time) && p.time <= q.time
    ensures anchors[i].price <= anchors[i + 1].price ==> p.price <= q.price
    ensures anchors[i].price >= anchors[i + 1].price ==> p.price >= q.price
  {
    AddedInGap(samples, grid, o, anchors, p, i);
    AddedInGap(samples, grid, o, anchors, q, i);
    LineIsMonotone(anchors[i], anchors[i + 1], p.time, p.price, q.time, q.price);
  }

  /** Points are added at exactly the grid times no sample covers that can be interpolated or held. */
  lemma {:induction false} AddedExactly(anchors: seq<Point>, grid: seq<int>, o: Opts, t: int)
    requires Ascends(Times(anchors))
    ensures (exists p :: p in Added(anchors, grid, o) && p.time == t) <==>
      && t in grid && !Covered(anchors, t, o.gridStep)
      && (Joined(anchors, t, o.maxGap) || HasBefore(anchors, t, o.holdMax) || HasAfter(anchors, t, o.holdMax))
  {
    if grid != [] {
      var front, last := grid[..|grid| - 1], grid[|grid| - 1];
      AddedExactly(anchors, front, o, t);
      SynthExactly(anchors, last, o);
      assert grid == front + [last];
      var before, after := Added(anchors, front, o), Added(anchors, grid, o);
      if t == last && !Covered(anchors, t, o.gridStep) && SynthAt(anchors, t, o).Made? {
        assert after[|before|].time == t;
      }
      forall p | p in before ensures p in after {
      }
    }
  }

  /** A sample counts as being at a grid time within the largest time that is at most a minute and at most
      a quarter of the step; for steps of less than four nanoseconds, within a minute. */
  lemma ToleranceExactly(step: int)
    ensures 0 < Tolerance(step) <= MINUTE
    ensures 4 <= step ==> 4 * Tolerance(step) <= step && forall x :: x <= MINUTE && 4 * x <= step ==> x <= Tolerance(step)
    ensures step < 4 ==> Tolerance(step) == MINUTE
  {
  }

  // ---------------------------------------------------------------- what a sample becomes

  /** A usable sample in range keeps its price, and its source unless that is empty; when no other sample
      shares its instant it is itself in the output. */
  lemma SampleSurvives(samples: seq<Point>, o: Opts, anchors: seq<Point>, p: Point)
    requires AreAnchors(samples, o, anchors)
    requires p in samples && p.time != 0 && p.price > 0.0 && InRange(o, p.price) && p.source != ""
    requires forall q :: q in samples && q.time == p.time ==> q == p
    ensures p in anchors
  {
    assert Usable(p);
    var a :| 0 <= a < |anchors| && Times(anchors)[a] == p.time;
    assert anchors[a] in anchors;
    var q :| q in samples && Usable(q) && anchors[a] == Clean(q, o);
  }

  /** Nothing else is: each anchor has a usable sample at its instant, of its price unless that was out of
      range, and of its source unless that was empty. */
  lemma AnchorHasSample(samples: seq<Point>, o: Opts, anchors: seq<Point>, a: Point) returns (p: Point)
    requires AreAnchors(samples, o, anchors) && a in anchors && o.floor <= o.ceil
    ensures p in samples && p.time == a.time != 0 && p.price > 0.0
    ensures InRange(o, p.price) ==> a.price == p.price
    ensures p.price < o.floor ==> a.price == o.floor
    ensures p.price > o.ceil ==> a.price == o.ceil
    ensures a.source == if p.source == "" then VENUE else p.source
  {
    p :| p in samples && Usable(p) && a == Clean(p, o);
  }

  // ---------------------------------------------------------------- an example

  /** With default options, samples of 0.2 at 10:00 and 0.8 at 20:00 give 0.26 at 11:00; the last one is held
      until 02:00 the next day, and then the price is missing. */
  lemma DefaultFill(opts: Opts, day: int)
    requires opts == Opts(0, 0, 0, 0.0, 0.0, 0.0, 0, 0.0) && day > 0
    ensures var o, anchors := Normalized(opts), [Point(day + 10 * HOUR, 0.2, VENUE), Point(day + 20 * HOUR, 0.8, VENUE)];
      && SynthAt(anchors, day + 11 * HOUR, o) == Made(0.26, Interp)
      && SynthAt(anchors, day + 26 * HOUR, o) == Made(0.8, Hold)
      && SynthAt(anchors, day + 26 * HOUR + 1, o) == Missing
      && SynthAt(anchors, day + 4 * HOUR, o) == Made(0.2, Hold)
      && SynthAt(anchors, day + 4 * HOUR - 1, o) == Missing
  {
    var o, l, r := Normalized(opts), Point(day + 10 * HOUR, 0.2, VENUE), Point(day + 20 * HOUR, 0.8, VENUE);
    var anchors := [l, r];
    assert Times(anchors) == [l.time, r.time];
    assert InShortGap(anchors, 0, day + 11 * HOUR, o.maxGap);
    SynthIsOnLine(anchors, 0, day + 11 * HOUR, o);
    assert OnLine(l, r, day + 11 * HOUR, 0.26);
    LineIsUnique(l, r, day + 11 * HOUR, SynthAt(anchors, day + 11 * HOUR, o).price, 0.26);
    DefaultHold(o, anchors, day);
  }

  lemma DefaultHold(o: Opts, anchors: seq<Point>, day: int)
    requires o == Normalized(Opts(0, 0, 0, 0.0, 0.0, 0.0, 0, 0.0))
    requires anchors == [Point(day + 10 * HOUR, 0.2, VENUE), Point(day + 20 * HOUR, 0.8, VENUE)]
    ensures SynthAt(anchors, day + 26 * HOUR, o) == Made(0.8, Hold) && SynthAt(anchors, day + 26 * HOUR + 1, o) == Missing
    ensures SynthAt(anchors, day + 4 * HOUR, o) == Made(0.2, Hold) && SynthAt(anchors, day + 4 * HOUR - 1, o) == Missing
  {
    assert Times(anchors) == [day + 10 * HOUR, day + 20 * HOUR];
  }
}
