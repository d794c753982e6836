/** Gap filling for sparse price history (`internal/datagap/prices.go`): venue samples are kept, and
    grid times no sample covers get an interpolated or held price. Times are nanoseconds, 0 is unset. */
module FillPrices {
  import opened Basics
  import opened Products
  import opened Sorting
  import opened AsOf

  const VENUE := "venue"
  const INTERP := "synth_interp"
  const HOLD := "synth_hold"
  const MINUTE: int := 60 * 1000000000
  const HOUR: int := 60 * MINUTE

  datatype Point = Point(time: int, price: real, source: string)

  datatype Opts = Opts(
    maxGap: int,
    holdMax: int,
    gridStep: int,
    floor: real,
    ceil: real,
    halfSpreadBps: real,
    bookReuseMax: int,
    depth: real)

  datatype Mix = Mix(venue: nat, interp: nat, hold: nat, book: nat, missing: nat)

  function Normalized(o: Opts): Opts {
    Opts(PositiveInt(o.maxGap, 48 * HOUR), PositiveInt(o.holdMax, 6 * HOUR), PositiveInt(o.gridStep, HOUR),
         Positive(o.floor, 0.001), Positive(o.ceil, 0.999), Positive(o.halfSpreadBps, 50.0),
         PositiveInt(o.bookReuseMax, 24 * HOUR), Positive(o.depth, 100.0))
  }

  // ---------------------------------------------------------------- prices

  function ClampPrice(p: real, o: Opts): real {
    Clamp(p, o.floor, o.ceil)
  }

  /** Clamping keeps prices in range exactly when the range is not inverted; the defaults alone do
      not prevent a floor above the ceiling. */
  lemma ClampInRangeExactly(o: Opts)
    ensures (forall p: real :: o.floor <= ClampPrice(p, o) <= o.ceil) <==> o.floor <= o.ceil
  {
    if o.floor > o.ceil {
      assert ClampPrice(o.floor, o) == o.ceil;
    }
  }

  predicate Usable(p: Point) {
    p.time != 0 && p.price > 0.0
  }

  function Clean(p: Point, o: Opts): Point {
    Point(p.time, ClampPrice(p.price, o), if p.source == "" then VENUE else p.source)
  }

  function Times(points: seq<Point>): seq<int> {
    Map((p: Point) => p.time, points)
  }

  /** Half-width of the window in which a venue sample counts as being at a grid time. */
  function Tolerance(step: int): (tol: int)
    ensures tol > 0
  {
    var tol := if step > 0 && step / 4 < MINUTE then step / 4 else MINUTE;
    if tol <= 0 then MINUTE else tol
  }

  ghost predicate Covered(anchors: seq<Point>, t: int, step: int) {
    exists i :: 0 <= i < |anchors| && -Tolerance(step) <= anchors[i].time - t <= Tolerance(step)
  }

  datatype Kind = Interp | Hold

  datatype Synth = Missing | Made(price: real, kind: Kind)

  function Label(k: Kind): string {
    if k == Interp then INTERP else HOLD
  }

  function Interpolate(left: Point, right: Point, t: int): real
    requires left.time < right.time
  {
    var frac := (t - left.time) as real / (right.time - left.time) as real;
    var f := if frac < 0.0 then 0.0 else if frac > 1.0 then 1.0 else frac;
    left.price + Prod(f, right.price - left.price)
  }

  predicate Bridges(anchors: seq<Point>, i: int, o: Opts) {
    0 <= i && i + 1 < |anchors| && 0 < anchors[i + 1].time - anchors[i].time <= o.maxGap
  }

  /** The synthetic price at `t`, between the samples around it: `i` is the last sample at or before. */
  function SynthBetween(anchors: seq<Point>, i: int, t: int, o: Opts): Synth
    requires -1 <= i < |anchors|
  {
    if Bridges(anchors, i, o) then
      Made(ClampPrice(Interpolate(anchors[i], anchors[i + 1], t), o), Interp)
    else if i >= 0 && 0 <= t - anchors[i].time <= o.holdMax then Made(ClampPrice(anchors[i].price, o), Hold)
    else if i + 1 < |anchors| && 0 <= anchors[i + 1].time - t <= o.holdMax then
      Made(ClampPrice(anchors[i + 1].price, o), Hold)
    else Missing
  }

  function SynthAt(anchors: seq<Point>, t: int, o: Opts): Synth {
    SynthBetween(anchors, LastAtOrBefore(Times(anchors), t), t, o)
  }

  /** A share of a difference lies between nothing and all of it. */
  lemma PortionIsBetween(f: real, d: real)
    requires 0.0 <= f <= 1.0
    ensures 0.0 <= Prod(f, d) <= d || d <= Prod(f, d) <= 0.0
  {
    ProdCommutes(f, d);
    ProdUnits(d);
    if d >= 0.0 {
      ProdMonotone(0.0, f, d);
      ProdMonotone(f, 1.0, d);
      ProdCommutes(d, 1.0);
      ProdCommutes(d, 0.0);
    } else {
      ProdGrows(-d, 0.0, f);
      ProdGrows(-d, f, 1.0);
      NegateProd(d, f);
    }
  }

  lemma NegateProd(d: real, f: real)
    ensures Prod(-d, f) == -Prod(d, f) && Prod(-d, 0.0) == 0.0 && Prod(-d, 1.0) == -d
  {
  }

  /** (t, y) is on the line through two samples. */
  ghost predicate OnLine(l: Point, r: Point, t: int, y: real) {
    Prod(y - l.price, (r.time - l.time) as real) == Prod(r.price - l.price, (t - l.time) as real)
  }

  lemma ShareOfGap(a: int, b: int)
    requires 0 <= a < b
    ensures var f := a as real / b as real; 0.0 <= f <= 1.0 && Prod(f, b as real) == a as real
  {
    ProdQuotient(b as real, a as real);
    ProdCommutes(b as real, a as real / b as real);
    ProdGrows(b as real, a as real / b as real, 1.0);
    ProdUnits(b as real);
  }

  lemma MovedShare(f: real, d: real, gap: real)
    ensures Prod(Prod(f, d), gap) == Prod(d, Prod(f, gap))
  {
  }

  lemma InterpolateIsOnLine(l: Point, r: Point, t: int)
    requires l.time <= t < r.time
    ensures OnLine(l, r, t, Interpolate(l, r, t))
  {
    var f := (t - l.time) as real / (r.time - l.time) as real;
    ShareOfGap(t - l.time, r.time - l.time);
    MovedShare(f, r.price - l.price, (r.time - l.time) as real);
  }

  lemma InterpolationIsBetween(left: Point, right: Point, t: int)
    requires left.time < right.time
    ensures var p := Interpolate(left, right, t);
      left.price <= p <= right.price || right.price <= p <= left.price
    ensures left.time <= t < right.time ==> OnLine(left, right, t, Interpolate(left, right, t))
  {
    if left.time <= t < right.time {
      InterpolateIsOnLine(left, right, t);
    }
    var frac := (t - left.time) as real / (right.time - left.time) as real;
    PortionIsBetween(if frac < 0.0 then 0.0 else if frac > 1.0 then 1.0 else frac, right.price - left.price);
  }

  /** A synthetic price is an interpolation between the two samples around its time, or the price of
      a sample no further than HoldMax away, and stays in range. */
  lemma SynthIsJustified(anchors: seq<Point>, t: int, o: Opts)
    requires o.floor <= o.ceil && forall i :: 0 <= i < |anchors| ==> o.floor <= anchors[i].price <= o.ceil
    requires SynthAt(anchors, t, o).Made?
    ensures o.floor <= SynthAt(anchors, t, o).price <= o.ceil
    ensures SynthAt(anchors, t, o).kind == Interp ==> Interpolated(anchors, t, SynthAt(anchors, t, o).price)
    ensures SynthAt(anchors, t, o).kind == Hold ==> HeldFrom(anchors, t, o.holdMax, SynthAt(anchors, t, o).price)
  {
    var i := LastAtOrBefore(Times(anchors), t);
    assert i >= 0 ==> Times(anchors)[i] == anchors[i].time;
    assert i + 1 < |anchors| ==> Times(anchors)[i + 1] == anchors[i + 1].time;
    if Bridges(anchors, i, o) {
      InterpolationIsBetween(anchors[i], anchors[i + 1], t);
      assert Around(anchors, i, t, SynthAt(anchors, t, o).price);
    } else if i >= 0 && t - anchors[i].time <= o.holdMax {
      assert NearSample(anchors, i, t, o.holdMax, SynthAt(anchors, t, o).price);
    } else {
      assert NearSample(anchors, i + 1, t, o.holdMax, SynthAt(anchors, t, o).price);
    }
  }

  ghost predicate Around(anchors: seq<Point>, i: int, t: int, price: real) {
    && 0 <= i < |anchors| - 1
    && anchors[i].time <= t < anchors[i + 1].time
    && (anchors[i].price <= price <= anchors[i + 1].price || anchors[i + 1].price <= price <= anchors[i].price)
    && OnLine(anchors[i], anchors[i + 1], t, price)
  }

  ghost predicate NearSample(anchors: seq<Point>, i: int, t: int, holdMax: int, price: real) {
    0 <= i < |anchors| && -holdMax <= t - anchors[i].time <= holdMax && price == anchors[i].price
  }

  ghost predicate Interpolated(anchors: seq<Point>, t: int, price: real) {
    exists i :: Around(anchors, i, t, price)
  }

  ghost predicate HeldFrom(anchors: seq<Point>, t: int, holdMax: int, price: real) {
    exists i :: NearSample(anchors, i, t, holdMax, price)
  }

  // ---------------------------------------------------------------- the points that are added

  /** The synthetic points, in grid order: one for each uncovered grid time that can be priced. */
  ghost function Added(anchors: seq<Point>, grid: seq<int>, o: Opts): seq<Point> {
    if grid == [] then [] else
    var front, t := Added(anchors, grid[..|grid| - 1], o), grid[|grid| - 1];
    if Covered(anchors, t, o.gridStep) || SynthAt(anchors, t, o).Missing? then front
    else front + [Point(t, SynthAt(anchors, t, o).price, Label(SynthAt(anchors, t, o).kind))]
  }

  ghost predicate IsSynth(anchors: seq<Point>, p: Point, o: Opts) {
    var s := SynthAt(anchors, p.time, o);
    s.Made? && p.price == s.price && p.source == Label(s.kind)
  }

  ghost function CoveredTimes(anchors: seq<Point>, grid: seq<int>, o: Opts): nat {
    if grid == [] then 0 else
    CoveredTimes(anchors, grid[..|grid| - 1], o) + (if Covered(anchors, grid[|grid| - 1], o.gridStep) then 1 else 0)
  }

  /** Points are added only at uncovered grid times. */
  lemma {:induction false} AddedOnlyWhereUncovered(anchors: seq<Point>, grid: seq<int>, o: Opts)
    ensures forall p :: p in Added(anchors, grid, o) ==>
      p.time in grid && !Covered(anchors, p.time, o.gridStep) && IsSynth(anchors, p, o)
  {
    if grid != [] {
      AddedOnlyWhereUncovered(anchors, grid[..|grid| - 1], o);
    }
  }

  lemma {:induction false} AddedAscends(anchors: seq<Point>, grid: seq<int>, o: Opts)
    requires StrictlyAscends(grid)
    ensures StrictlyAscends(Times(Added(anchors, grid, o)))
  {
    if grid != [] {
      var k := |grid| - 1;
      AddedAscends(anchors, grid[..k], o);
      AddedOnlyWhereUncovered(anchors, grid[..k], o);
      var front := Added(anchors, grid[..k], o);
      forall i | 0 <= i < |front| ensures front[i].time < grid[k] {
        assert front[i] in front;
        var j :| 0 <= j < k && grid[j] == front[i].time;
      }
      assert Times(Added(anchors, grid, o)) == Times(front) || Times(Added(anchors, grid, o)) == Times(front) + [grid[k]];
    }
  }

  /** No added point shares its time with a sample. */
  lemma AddedTimeIsNoSample(anchors: seq<Point>, grid: seq<int>, o: Opts, x: int)
    requires x in Times(Added(anchors, grid, o))
    ensures x !in Times(anchors)
  {
    var added := Added(anchors, grid, o);
    AddedOnlyWhereUncovered(anchors, grid, o);
    var j :| 0 <= j < |added| && Times(added)[j] == x;
    assert added[j] in added;
    UncoveredIsNoSample(anchors, x, o.gridStep);
  }

  lemma TimesConcat(a: seq<Point>, b: seq<Point>, x: int)
    ensures multiset(Times(a + b))[x] == multiset(Times(a))[x] + multiset(Times(b))[x]
  {
    assert Times(a + b) == Times(a) + Times(b);
  }

  /** So all times together are distinct. */
  lemma TimesTogetherDistinct(anchors: seq<Point>, grid: seq<int>, o: Opts, x: int)
    requires StrictlyAscends(Times(anchors)) && StrictlyAscends(grid)
    ensures multiset(Times(anchors + Added(anchors, grid, o)))[x] <= 1
  {
    AddedAscends(anchors, grid, o);
    StrictMeansOnce(Times(anchors), x);
    StrictMeansOnce(Times(Added(anchors, grid, o)), x);
    TimesConcat(anchors, Added(anchors, grid, o), x);
    if x in Times(Added(anchors, grid, o)) {
      AddedTimeIsNoSample(anchors, grid, o, x);
    }
  }

  lemma UncoveredIsNoSample(anchors: seq<Point>, t: int, step: int)
    requires !Covered(anchors, t, step)
    ensures t !in Times(anchors)
  {
    forall i | 0 <= i < |anchors| ensures Times(anchors)[i] != t {
      assert !(-Tolerance(step) <= anchors[i].time - t <= Tolerance(step));
    }
  }

  // ---------------------------------------------------------------- the program

  method HasVenueNear(anchors: seq<Point>, t: int, step: int) returns (near: bool)
    requires Ascends(Times(anchors))
    ensures near <==> Covered(anchors, t, step)
  {
    var tol := MINUTE;
    if step > 0 && step / 4 < tol {
      tol := step / 4;
    }
    if tol <= 0 {
      tol := MINUTE;
    }
    var times := Times(anchors);
    var i := SearchAtOrBefore(times, t);
    if i >= 0 {
      var dt := t - anchors[i].time;
      if dt >= 0 && dt <= tol {
        return true;
      }
    }
    if i + 1 < |anchors| {
      var dt := anchors[i + 1].time - t;
      if dt >= 0 && dt <= tol {
        return true;
      }
    }
    NothingNear(anchors, t, i, step);
    return false;
  }

  /** Only the samples on either side of `t` can be near it. */
  lemma NothingNear(anchors: seq<Point>, t: int, i: int, step: int)
    requires Ascends(Times(anchors)) && -1 <= i < |anchors|
    requires i >= 0 ==> anchors[i].time < t - Tolerance(step)
    requires i + 1 < |anchors| ==> anchors[i + 1].time > t + Tolerance(step)
    ensures !Covered(anchors, t, step)
  {
    var times := Times(anchors);
    forall j | 0 <= j < |anchors|
      ensures !(-Tolerance(step) <= anchors[j].time - t <= Tolerance(step))
    {
      assert j <= i ==> times[j] <= times[i];
      assert j > i ==> times[i + 1] <= times[j];
    }
  }

  method FindSynth(anchors: seq<Point>, t: int, o: Opts) returns (r: Synth)
    requires Ascends(Times(anchors))
    ensures r == SynthAt(anchors, t, o)
  {
    var i := SearchAtOrBefore(Times(anchors), t);
    var j := i + 1;
    if i >= 0 && j < |anchors| {
      var gap := anchors[j].time - anchors[i].time;
      if gap <= o.maxGap && gap > 0 {
        return Made(ClampPrice(Interpolate(anchors[i], anchors[j], t), o), Interp);
      }
    }
    if i >= 0 {
      var dt := t - anchors[i].time;
      if dt >= 0 && dt <= o.holdMax {
        return Made(ClampPrice(anchors[i].price, o), Hold);
      }
    }
    if j < |anchors| {
      var dt := anchors[j].time - t;
      if dt >= 0 && dt <= o.holdMax {
        return Made(ClampPrice(anchors[j].price, o), Hold);
      }
    }
    return Missing;
  }

  function EarlierFirst(a: Point, b: Point): bool { a.time < b.time }

  /** The samples that survive: usable, clamped, in time order, one per instant. */
  ghost predicate AreAnchors(samples: seq<Point>, o: Opts, anchors: seq<Point>) {
    && StrictlyAscends(Times(anchors))
    && (forall p :: p in samples && Usable(p) ==> p.time in Times(anchors))
    && (forall a :: a in anchors ==> exists p :: p in samples && Usable(p) && a == Clean(p, o))
  }

  method Anchors(samples: seq<Point>, o: Opts) returns (anchors: seq<Point>)
    ensures AreAnchors(samples, o, anchors)
  {
    var kept: seq<Point> := [];
    for i := 0 to |samples|
      invariant forall p :: p in samples[..i] && Usable(p) ==> Clean(p, o) in kept
      invariant forall a :: a in kept ==> exists p :: p in samples && Usable(p) && a == Clean(p, o)
    {
      assert samples[..i + 1] == samples[..i] + [samples[i]];
      if !Usable(samples[i]) {
        continue;
      }
      assert samples[i] in samples;
      kept := kept + [Clean(samples[i], o)];
    }
    assert samples[..|samples|] == samples;
    var sorted := SortSlice(kept, EarlierFirst);
    SameElements(sorted, kept);
    anchors := KeepLastPerInstant(sorted);
    LastPerInstantAscends(sorted);
    LastPerInstantKeepsInstants(sorted);
    forall p | p in samples && Usable(p) ensures p.time in Times(anchors) {
      assert Clean(p, o) in sorted;
      var a :| 0 <= a < |anchors| && anchors[a].time == p.time;
      assert Times(anchors)[a] == p.time;
    }
  }

  /** One point per instant, the last one of a run of equal times. */
  function LastPerInstant(sorted: seq<Point>): (r: seq<Point>)
    ensures sorted != [] ==> r != [] && r[|r| - 1] == sorted[|sorted| - 1]
  {
    if sorted == [] then [] else
    var front, p := LastPerInstant(sorted[..|sorted| - 1]), sorted[|sorted| - 1];
    if front != [] && front[|front| - 1].time == p.time then front[|front| - 1 := p] else front + [p]
  }

  method KeepLastPerInstant(sorted: seq<Point>) returns (out: seq<Point>)
    ensures out == LastPerInstant(sorted)
  {
    if |sorted| == 0 {
      return [];
    }
    out := [sorted[0]];
    assert sorted[..1][..0] == [];
    for i := 1 to |sorted|
      invariant out == LastPerInstant(sorted[..i])
    {
      assert sorted[..i + 1][..i] == sorted[..i];
      if sorted[i].time == out[|out| - 1].time {
        out := out[|out| - 1 := sorted[i]];
      } else {
        out := out + [sorted[i]];
      }
    }
    assert sorted[..|sorted|] == sorted;
  }

  ghost predicate InTimes(points: seq<Point>, t: int) {
    exists a :: 0 <= a < |points| && points[a].time == t
  }

  /** On a list in time order that is one of its points for each of its instants, in strict order. */
  lemma {:induction false} LastPerInstantAscends(sorted: seq<Point>)
    requires Sorted(sorted, EarlierFirst)
    ensures forall a, b :: 0 <= a < b < |LastPerInstant(sorted)| ==>
      LastPerInstant(sorted)[a].time < LastPerInstant(sorted)[b].time
  {
    if |sorted| > 1 {
      var k := |sorted| - 1;
      LastPerInstantAscends(sorted[..k]);
      assert !EarlierFirst(sorted[k], sorted[k - 1]);
      assert sorted[..k][k - 1] == sorted[k - 1];
    }
  }

  lemma {:induction false} LastPerInstantKeepsInstants(sorted: seq<Point>)
    ensures forall p :: p in sorted ==> InTimes(LastPerInstant(sorted), p.time)
    ensures forall p :: p in LastPerInstant(sorted) ==> p in sorted
  {
    if sorted != [] {
      var k := |sorted| - 1;
      var front, out := LastPerInstant(sorted[..k]), LastPerInstant(sorted);
      LastPerInstantKeepsInstants(sorted[..k]);
      assert out[|out| - 1].time == sorted[k].time;
      forall p | p in sorted[..k] ensures InTimes(out, p.time) {
        var a :| 0 <= a < |front| && front[a].time == p.time;
        assert out[a].time == p.time;
      }
    }
  }

  function VenueFirst(a: Point, b: Point): bool {
    if a.time == b.time then a.source == VENUE && b.source != VENUE else a.time < b.time
  }

  /** Two points of one instant stand side by side, and one of them is a venue point. */
  ghost predicate ShadowsAt(out: seq<Point>, i: nat) {
    i + 1 < |out| && out[i].time == out[i + 1].time && (out[i].source == VENUE || out[i + 1].source == VENUE)
  }

  ghost predicate Unshadowed(out: seq<Point>) {
    forall i: nat :: !ShadowsAt(out, i)
  }

  /** The pass that drops synthetic points next to a venue point of the same instant. */
  method DropShadowed(out: seq<Point>) returns (clean: seq<Point>)
    ensures Unshadowed(out) ==> clean == out
    ensures forall p :: p in clean ==> p in out
  {
    clean := [];
    var i := 0;
    while i < |out|
      invariant 0 <= i <= |out|
      invariant Unshadowed(out) ==> clean == out[..i]
      invariant forall p :: p in clean ==> p in out
    {
      assert Unshadowed(out) ==> !ShadowsAt(out, i);
      if i + 1 < |out| && out[i].time == out[i + 1].time {
        if out[i].source == VENUE {
          clean := clean + [out[i]];
          while i + 1 < |out| && out[i + 1].time == out[i].time
            invariant 0 <= i < |out|
            decreases |out| - i
          {
            i := i + 1;
          }
        } else if out[i + 1].source == VENUE {
          i := i + 1;
          continue;
        } else {
          clean := clean + [out[i]];
        }
        i := i + 1;
        continue;
      }
      clean := clean + [out[i]];
      i := i + 1;
    }
  }

  ghost function Labelled(points: seq<Point>, tag: string): nat {
    if points == [] then 0 else
    Labelled(points[..|points| - 1], tag) + (if points[|points| - 1].source == tag then 1 else 0)
  }

  lemma LabelledNext(points: seq<Point>, p: Point, tag: string)
    ensures Labelled(points + [p], tag) == Labelled(points, tag) + (if p.source == tag then 1 else 0)
  {
    assert (points + [p])[..|points|] == points;
  }

  lemma LabelsDiffer()
    ensures INTERP != HOLD && INTERP != VENUE && HOLD != VENUE
  {
    assert |VENUE| != |INTERP| && |VENUE| != |HOLD| && |INTERP| != |HOLD|;
  }

  /** The counters after the grid times in `past`. */
  ghost predicate Tally(kept: seq<Point>, past: seq<int>, o: Opts, mix: Mix) {
    && mix.venue == |kept| && mix.book == 0
    && mix.interp == Labelled(Added(kept, past, o), INTERP) && mix.hold == Labelled(Added(kept, past, o), HOLD)
    && mix.interp + mix.hold == |Added(kept, past, o)|
    && CoveredTimes(kept, past, o) + mix.interp + mix.hold + mix.missing == |past|
  }

  lemma AddedNext(kept: seq<Point>, past: seq<int>, t: int, o: Opts)
    ensures var near, synth := Covered(kept, t, o.gridStep), SynthAt(kept, t, o);
      && CoveredTimes(kept, past + [t], o) == CoveredTimes(kept, past, o) + (if near then 1 else 0)
      && Added(kept, past + [t], o) == if near || synth.Missing? then Added(kept, past, o)
         else Added(kept, past, o) + [Point(t, synth.price, Label(synth.kind))]
  {
    assert (past + [t])[..|past|] == past;
  }

  lemma TallyNext(kept: seq<Point>, past: seq<int>, t: int, o: Opts, mix: Mix)
    requires Tally(kept, past, o, mix)
    ensures var synth := SynthAt(kept, t, o);
      if Covered(kept, t, o.gridStep) then Tally(kept, past + [t], o, mix)
      else if synth.Missing? then Tally(kept, past + [t], o, mix.(missing := mix.missing + 1))
      else if synth.kind == Interp then Tally(kept, past + [t], o, mix.(interp := mix.interp + 1))
      else Tally(kept, past + [t], o, mix.(hold := mix.hold + 1))
  {
    var synth := SynthAt(kept, t, o);
    AddedNext(kept, past, t, o);
    if synth.Made? {
      LabelsDiffer();
      LabelledNext(Added(kept, past, o), Point(t, synth.price, Label(synth.kind)), INTERP);
      LabelledNext(Added(kept, past, o), Point(t, synth.price, Label(synth.kind)), HOLD);
    }
  }

  /** What the grid time `k` adds to the output and to the counters. */
  lemma GridNext(kept: seq<Point>, grid: seq<int>, k: nat, o: Opts, mix: Mix)
    requires k < |grid| && Tally(kept, grid[..k], o, mix)
    ensures var before, after := kept + Added(kept, grid[..k], o), kept + Added(kept, grid[..k + 1], o);
      var synth := SynthAt(kept, grid[k], o);
      if Covered(kept, grid[k], o.gridStep) then after == before && Tally(kept, grid[..k + 1], o, mix)
      else if synth.Missing? then
        after == before && Tally(kept, grid[..k + 1], o, mix.(missing := mix.missing + 1))
      else
        && after == before + [Point(grid[k], synth.price, Label(synth.kind))]
        && Tally(kept, grid[..k + 1], o,
             if synth.kind == Interp then mix.(interp := mix.interp + 1) else mix.(hold := mix.hold + 1))
  {
    var synth := SynthAt(kept, grid[k], o);
    assert grid[..k + 1] == grid[..k] + [grid[k]];
    AddedNext(kept, grid[..k], grid[k], o);
    TallyNext(kept, grid[..k], grid[k], o, mix);
    if synth.Made? {
      ConcatAssociates(kept, Added(kept, grid[..k], o), [Point(grid[k], synth.price, Label(synth.kind))]);
    }
  }

  method AddToGrid(kept: seq<Point>, grid: seq<int>, o: Opts) returns (out: seq<Point>, mix: Mix)
    requires Ascends(Times(kept))
    ensures out == kept + Added(kept, grid, o)
    ensures Tally(kept, grid, o, mix)
  {
    out := kept;
    mix := Mix(|kept|, 0, 0, 0, 0);
    assert kept + [] == kept;
    for k := 0 to |grid|
      invariant out == kept + Added(kept, grid[..k], o)
      invariant Tally(kept, grid[..k], o, mix)
    {
      var t := grid[k];
      GridNext(kept, grid, k, o, mix);
      var near := HasVenueNear(kept, t, o.gridStep);
      if near {
        continue;
      }
      var synth := FindSynth(kept, t, o);
      if synth.Missing? {
        mix := mix.(missing := mix.missing + 1);
        continue;
      }
      out := out + [Point(t, synth.price, Label(synth.kind))];
      if synth.kind == Interp {
        mix := mix.(interp := mix.interp + 1);
      } else {
        mix := mix.(hold := mix.hold + 1);
      }
    }
    assert grid[..|grid|] == grid;
  }

  /** The points added to the samples; nothing is added when there is no sample. */
  ghost function Synthetic(anchors: seq<Point>, grid: seq<int>, o: Opts): seq<Point> {
    if anchors == [] then [] else Added(anchors, grid, o)
  }

  /** On every grid the output holds every surviving sample and every added point once, in time
      order, so the last pass has nothing to drop, and the mix balances against both the grid and the
      output. On a strictly increasing grid no two points share an instant. */
  method Fill(samples: seq<Point>, grid: seq<int>, opts: Opts)
    returns (out: seq<Point>, mix: Mix, ghost anchors: seq<Point>)
    ensures AreAnchors(samples, Normalized(opts), anchors)
    ensures multiset(out) == multiset(anchors + Synthetic(anchors, grid, Normalized(opts)))
    ensures Ascends(Times(out))
    ensures mix.venue == |anchors| && |out| == mix.venue + mix.interp + mix.hold
    ensures mix.interp == Labelled(Synthetic(anchors, grid, Normalized(opts)), INTERP)
    ensures mix.hold == Labelled(Synthetic(anchors, grid, Normalized(opts)), HOLD)
    ensures anchors != [] ==>
      CoveredTimes(anchors, grid, Normalized(opts)) + mix.interp + mix.hold + mix.missing == |grid|
    ensures StrictlyAscends(grid) ==> StrictlyAscends(Times(out))
  {
    var o := Normalized(opts);
    var kept := Anchors(samples, o);
    anchors := kept;
    out := kept;
    mix := Mix(|kept|, 0, 0, 0, 0);
    if |grid| == 0 || |kept| == 0 {
      assert kept + Synthetic(kept, grid, o) == kept;
      return;
    }
    out, mix := AddToGrid(kept, grid, o);
    out := Arrange(kept, grid, o, out);
  }

  method Arrange(ghost anchors: seq<Point>, ghost grid: seq<int>, ghost o: Opts, all: seq<Point>) returns (out: seq<Point>)
    requires StrictlyAscends(Times(anchors)) && all == anchors + Added(anchors, grid, o)
    ensures multiset(out) == multiset(all)
    ensures Ascends(Times(out))
    ensures StrictlyAscends(grid) ==> StrictlyAscends(Times(out))
  {
    out := SortSlice(all, VenueFirst);
    SortedAscends(out);
    if StrictlyAscends(grid) {
      SortedStrictly(anchors, grid, o, out);
    }
    NothingShadowed(anchors, grid, o, out);
    out := DropShadowed(out);
  }

  lemma SortedAscends(out: seq<Point>)
    requires Sorted(out, VenueFirst)
    ensures Ascends(Times(out))
  {
    forall i, j | 0 <= i < j < |out| ensures Times(out)[i] <= Times(out)[j] {
      assert !VenueFirst(out[j], out[i]);
    }
  }

  lemma {:induction false} SampleOnce(anchors: seq<Point>, p: Point)
    requires StrictlyAscends(Times(anchors))
    ensures multiset(anchors)[p] <= 1
  {
    if anchors != [] {
      var front, last := anchors[..|anchors| - 1], anchors[|anchors| - 1];
      assert Times(front) == Times(anchors)[..|front|];
      SampleOnce(front, p);
      forall i | 0 <= i < |front| ensures front[i] != last {
        assert Times(anchors)[i] < Times(anchors)[|front|];
      }
      assert anchors == front + [last];
      MultisetSnoc(front, last);
    }
  }

  lemma SamplesShareNoTime(anchors: seq<Point>, p: Point, q: Point)
    requires StrictlyAscends(Times(anchors)) && p in anchors && q in anchors && p.time == q.time
    ensures p == q
  {
    var a :| 0 <= a < |anchors| && anchors[a] == p;
    var b :| 0 <= b < |anchors| && anchors[b] == q;
    assert Times(anchors)[a] == Times(anchors)[b];
  }

  /** A sample shares its instant with no other point of the output. */
  lemma SampleStandsAlone(anchors: seq<Point>, grid: seq<int>, o: Opts, out: seq<Point>, i: nat, j: nat)
    requires StrictlyAscends(Times(anchors)) && multiset(out) == multiset(anchors) + multiset(Added(anchors, grid, o))
    requires i < |out| && j < |out| && i != j && out[i].time == out[j].time
    ensures out[i] !in anchors
  {
    var p, q := out[i], out[j];
    AddedOnlyWhereUncovered(anchors, grid, o);
    if p in anchors {
      var a :| 0 <= a < |anchors| && Times(anchors)[a] == p.time;
      if q in Added(anchors, grid, o) || p in Added(anchors, grid, o) {
        UncoveredIsNoSample(anchors, p.time, o.gridStep);
        assert false;
      }
      assert q in multiset(out);
      SamplesShareNoTime(anchors, p, q);
      PresentTwice(out, if i < j then i else j, if i < j then j else i);
      SampleOnce(anchors, p);
    }
  }

  /** No synthetic point stands at the instant of a sample, so the last pass drops nothing. */
  lemma NothingShadowed(anchors: seq<Point>, grid: seq<int>, o: Opts, out: seq<Point>)
    requires StrictlyAscends(Times(anchors)) && multiset(out) == multiset(anchors + Added(anchors, grid, o))
    ensures Unshadowed(out)
  {
    AddedOnlyWhereUncovered(anchors, grid, o);
    LabelsDiffer();
    forall i: nat ensures !ShadowsAt(out, i) {
      if i + 1 < |out| && out[i].time == out[i + 1].time {
        SampleStandsAlone(anchors, grid, o, out, i, i + 1);
        SampleStandsAlone(anchors, grid, o, out, i + 1, i);
        assert out[i] in multiset(out) && out[i + 1] in multiset(out);
      }
    }
  }

  lemma SortedStrictly(anchors: seq<Point>, grid: seq<int>, o: Opts, out: seq<Point>)
    requires StrictlyAscends(Times(anchors)) && StrictlyAscends(grid)
    requires multiset(out) == multiset(anchors + Added(anchors, grid, o)) && Sorted(out, VenueFirst)
    ensures StrictlyAscends(Times(out))
  {
    var all := anchors + Added(anchors, grid, o);
    MapPermutes((p: Point) => p.time, out, all);
    forall i, j | 0 <= i < j < |out| ensures Times(out)[i] <= Times(out)[j] {
      assert !VenueFirst(out[j], out[i]);
    }
    forall x ensures multiset(Times(out))[x] <= 1 {
      TimesTogetherDistinct(anchors, grid, o, x);
      assert multiset(Times(out)) == multiset(Times(all));
    }
    OnceMeansStrict(Times(out));
  }

  /** In a range that is not inverted every price of the output is in range. */
  lemma OutputInRange(samples: seq<Point>, grid: seq<int>, o: Opts, anchors: seq<Point>, p: Point)
    requires o.floor <= o.ceil
    requires AreAnchors(samples, o, anchors) && p in anchors + Added(anchors, grid, o)
    ensures o.floor <= p.price <= o.ceil
  {
    AddedOnlyWhereUncovered(anchors, grid, o);
    forall i | 0 <= i < |anchors| ensures o.floor <= anchors[i].price <= o.ceil {
      var a := anchors[i];
      assert a in anchors;
      var s :| s in samples && Usable(s) && a == Clean(s, o);
    }
    if p !in anchors {
      SynthIsJustified(anchors, p.time, o);
    }
  }

  /** The samples that survive are none exactly when none is usable. */
  lemma NoAnchorsExactly(samples: seq<Point>, o: Opts, anchors: seq<Point>)
    requires AreAnchors(samples, o, anchors)
    ensures anchors == [] <==> forall s :: s in samples ==> !Usable(s)
  {
    if anchors != [] {
      assert anchors[0] in anchors;
    } else {
      assert Times(anchors) == [];
    }
  }

  /** Every output price is in range exactly when the range is not inverted or no sample is usable. */
  lemma OutputInRangeExactly(samples: seq<Point>, grid: seq<int>, o: Opts, anchors: seq<Point>)
    requires AreAnchors(samples, o, anchors)
    ensures (forall p :: p in anchors + Synthetic(anchors, grid, o) ==> o.floor <= p.price <= o.ceil)
       <==> (o.floor <= o.ceil || forall s :: s in samples ==> !Usable(s))
  {
    NoAnchorsExactly(samples, o, anchors);
    if anchors != [] {
      if o.floor <= o.ceil {
        forall p | p in anchors + Added(anchors, grid, o) ensures o.floor <= p.price <= o.ceil {
          OutputInRange(samples, grid, o, anchors, p);
        }
      } else {
        assert anchors[0] in anchors + Synthetic(anchors, grid, o);
      }
    }
  }

  /** With an inverted range the promise fails: a single sample of 0.4 filled with a floor of 0.9 and a
      ceiling of 0.5 is kept at 0.9. */
  lemma InvertedRangeEscapes(opts: Opts, anchors: seq<Point>)
    requires opts.floor == 0.9 && opts.ceil == 0.5
    requires AreAnchors([Point(1, 0.4, "")], Normalized(opts), anchors)
    ensures Normalized(opts).ceil == 0.5 && exists p :: p in anchors && p.price == 0.9
  {
    var sample := Point(1, 0.4, "");
    assert sample in [sample] && Usable(sample);
    assert sample.time in Times(anchors);
    var i :| 0 <= i < |anchors| && Times(anchors)[i] == 1;
    assert anchors[i] in anchors;
  }
}
