/** What the universe at a decision time contains (`internal/eval/runner.go`, `internal/eval/features.go`),
    stated on the fields of the history: which markets have a candidate, and which samples, books and
    snapshot rows its fields come from. */
module Universes {
  import opened Basics
  import opened Products
  import opened Sorting
  import opened Filters
  import opened Series
  import opened Snapshots
  import opened Samples
  import opened PitBoard
  import opened Verdicts
  import Board
  import Cost
  import Scoring

  // ---------------------------------------------------------------- which markets are in

  /** A market with a positive last price at or before `t` that has not ended by then. */
  ghost predicate IsLive(h: History, m: Meta, t: int)
    requires Shaped(h.prices)
  {
    m.token in h.prices && (m.endDate == 0 || t < m.endDate) && exists x :: PriceIs(h.prices[m.token], t, x)
  }

  lemma PricedExactly(s: Prices, t: int)
    requires |s.times| == |s.prices|
    ensures (exists x :: PriceIs(s, t, x)) <==> HasPositive(MidAsOf(s, t))
  {
    if x :| PriceIs(s, t, x) {
      MidExactly(s, t, x);
    }
    if HasPositive(MidAsOf(s, t)) {
      MidExactly(s, t, MidAsOf(s, t).value);
    }
  }

  lemma LiveExactly(h: History, m: Meta, t: int, maxAge: int, minDepth: real)
    requires Shaped(h.prices)
    ensures PointAt(h, m, t, maxAge, minDepth).Some? <==> IsLive(h, m, t)
  {
    if m.token in h.prices {
      PricedExactly(h.prices[m.token], t);
    }
  }

  lemma {:induction false} UniverseFilters(h: History, markets: seq<Meta>, t: int, maxAge: int, minDepth: real,
                                          point: Meta -> Option<Scoring.Candidate>) returns (at: seq<nat>)
    requires Shaped(h.prices) && forall m :: point(m) == PointAt(h, m, t, maxAge, minDepth)
    ensures IsFilter(markets, point, Universe(h, markets, t, maxAge, minDepth), at)
  {
    if markets == [] {
      at := [];
    } else {
      var front, m := markets[..|markets| - 1], markets[|markets| - 1];
      var before := UniverseFilters(h, front, t, maxAge, minDepth, point);
      FilterNext(front, point, Universe(h, front, t, maxAge, minDepth), before, m);
      assert markets == front + [m];
      at := if point(m).Some? then before + [|front|] else before;
    }
  }

  // ---------------------------------------------------------------- market facts

  /** The last market of the list with the condition, at position `k`. */
  ghost predicate IsFactsAt(markets: seq<Meta>, condition: string, base: Meta, k: int) {
    && 0 <= k < |markets| && markets[k] == base && base.condition == condition
    && forall j :: k < j < |markets| ==> markets[j].condition != condition
  }

  ghost predicate IsFactsOf(markets: seq<Meta>, condition: string, base: Meta) {
    exists k :: IsFactsAt(markets, condition, base, k)
  }

  lemma FactsNext(front: seq<Meta>, m: Meta, condition: string, base: Meta)
    ensures IsFactsOf(front + [m], condition, base) <==>
      if m.condition == condition then m == base else IsFactsOf(front, condition, base)
  {
    var markets := front + [m];
    if m.condition == condition {
      assert IsFactsAt(markets, condition, m, |front|);
    }
    forall k ensures m.condition != condition ==>
      (IsFactsAt(markets, condition, base, k) <==> IsFactsAt(front, condition, base, k))
    {
      assert forall j :: 0 <= j < |front| ==> markets[j] == front[j];
      assert markets[|front|] == m;
    }
  }

  lemma {:induction false} ByConditionExactly(markets: seq<Meta>, condition: string, base: Meta)
    ensures condition in ByCondition(markets) && ByCondition(markets)[condition] == base
      <==> IsFactsOf(markets, condition, base)
  {
    if markets != [] {
      var n := |markets| - 1;
      ByConditionExactly(markets[..n], condition, base);
      FactsNext(markets[..n], markets[n], condition, base);
      assert markets == markets[..n] + [markets[n]];
    }
  }

  lemma {:induction false} ConditionIsKnown(markets: seq<Meta>, m: Meta)
    requires m in markets
    ensures m.condition in ByCondition(markets) && ByCondition(markets)[m.condition].condition == m.condition
  {
    var n := |markets| - 1;
    if markets[n].condition != m.condition {
      assert m in markets[..n];
      ConditionIsKnown(markets[..n], m);
    }
  }

  /** The facts `base` with neg-risk flag, group and legs from the latest snapshot's row where that states them. */
  ghost predicate Overlays(rows: seq<Row>, t: int, base: Meta, self: Meta) {
    && self.condition == base.condition && self.token == base.token && self.endDate == base.endDate
    && (forall r :: IsLatestRow(rows, t, base.condition, r) ==>
         && self.negRisk == r.negRisk
         && self.groupId == (if r.groupId != "" then r.groupId else base.groupId)
         && self.legs == (if r.legs != [] then r.legs else base.legs))
    && ((forall r :: !IsLatestRow(rows, t, base.condition, r)) ==>
         self.negRisk == base.negRisk && self.groupId == base.groupId && self.legs == base.legs)
  }

  lemma OverlaidOverlays(rows: seq<Row>, t: int, base: Meta)
    ensures Overlays(rows, t, base, Overlaid(base, Lookup(rows, t, base.condition)))
  {
    forall r ensures IsLatestRow(rows, t, base.condition, r) <==> Lookup(rows, t, base.condition) == Some(r) {
      LookupExactly(rows, t, base.condition, r);
    }
  }

  /** The facts of a market at `t` as the universe uses them. */
  ghost predicate AreFacts(h: History, m: Meta, t: int, self: Meta) {
    exists base :: IsFactsOf(h.markets, m.condition, base) && Overlays(h.snapshots, t, base, self)
  }

  ghost function FactsAt(h: History, m: Meta, t: int): Meta {
    var byCond := ByCondition(h.markets);
    Overlaid(if m.condition in byCond then byCond[m.condition] else m, Lookup(h.snapshots, t, m.condition))
  }

  lemma FactsExactly(h: History, m: Meta, t: int)
    requires m in h.markets
    ensures AreFacts(h, m, t, FactsAt(h, m, t))
  {
    ConditionIsKnown(h.markets, m);
    var base := ByCondition(h.markets)[m.condition];
    ByConditionExactly(h.markets, m.condition, base);
    OverlaidOverlays(h.snapshots, t, base);
  }

  // ---------------------------------------------------------------- price, book, returns, activity

  /** A proper book of the market at `t`, not too old. */
  ghost predicate HasBook(h: History, m: Meta, t: int, maxAge: int, b: Book) {
    m.token in h.books && BookIs(h.books[m.token], t, maxAge, b) && b.bid > 0.0 && b.ask >= b.bid
  }

  /** The book fields are those of the book. */
  ghost predicate FitsBook(f: Scoring.Features, t: int, b: Book, minDepth: real) {
    && !f.missingBook
    && f.bestBid == b.bid && f.bestAsk == b.ask && f.bidDepth == b.bidDepth && f.askDepth == b.askDepth
    && 2.0 * f.mid == b.bid + b.ask
    && Prod(f.mid, f.spreadBps) == 10000.0 * (b.ask - b.bid)
    && (b.bidDepth + b.askDepth > 0.0 ==> Prod(b.bidDepth + b.askDepth, f.imbalance) == b.bidDepth)
    && (f.thinBook <==> b.bidDepth + b.askDepth < (if minDepth > 0.0 then minDepth else 10.0))
    && 1000000000.0 * f.bookAgeSec == (t - b.time) as real
  }

  /** With a proper book the mid is the book's, without one the last price. */
  ghost predicate FitsQuotes(h: History, m: Meta, t: int, maxAge: int, minDepth: real, f: Scoring.Features)
    requires Shaped(h.prices) && m.token in h.prices
  {
    && (forall b :: HasBook(h, m, t, maxAge, b) ==> FitsBook(f, t, b, minDepth))
    && ((forall b :: !HasBook(h, m, t, maxAge, b)) ==>
         f.missingBook && f.bestBid == 0.0 && f.bestAsk == 0.0 && PriceIs(h.prices[m.token], t, f.mid))
  }

  ghost predicate FitsSeries(s: Prices, t: int, f: Scoring.Features)
    requires |s.times| == |s.prices|
  {
    && ReturnIs(s, t - MINUTE, t, f.absRet1m)
    && ReturnIs(s, t - 5 * MINUTE, t, f.absRet5m)
    && ReturnIs(s, t - 60 * MINUTE, t, f.absRet1h)
    && ReturnIs(s, t - 24 * 60 * MINUTE, t, f.oneDayAbs)
    && f.volumeProxy == 1000.0 * |InWindow(s.times, t, 24 * 60 * MINUTE)| as real
         + 100000.0 * MovesInWindow(s, t, 24 * 60 * MINUTE, |s.times|)
  }

  ghost predicate FitsFacts(t: int, self: Meta, f: Scoring.Features) {
    && f.condition == self.condition && f.token == self.token && f.negRisk == self.negRisk && f.groupId == self.groupId
    && (self.endDate == 0 ==> f.ttrHours == 0.0)
    && (self.endDate != 0 ==> Prod(HOUR as real, f.ttrHours) == (self.endDate - t) as real)
  }

  lemma BookFieldsFit(f: Scoring.Features, t: int, b: Book, minDepth: real)
    requires Cost.ValidBook(b.bid, b.ask) && f.imbalance == 0.0 && !f.thinBook
    ensures FitsBook(WithBook(f, t, Some(b), minDepth), t, b, minDepth)
  {
    ProdQuotient((b.bid + b.ask) / 2.0, 10000.0 * (b.ask - b.bid));
    if b.bidDepth + b.askDepth > 0.0 {
      ProdQuotient(b.bidDepth + b.askDepth, b.bidDepth);
    }
  }

  lemma QuotesFit(h: History, m: Meta, t: int, maxAge: int, minDepth: real, f: Scoring.Features)
    requires Shaped(h.prices) && m.token in h.prices && PriceIs(h.prices[m.token], t, f.mid)
    requires f.imbalance == 0.0 && !f.thinBook && f.bestBid == 0.0 && f.bestAsk == 0.0
    ensures FitsQuotes(h, m, t, maxAge, minDepth, WithBook(f, t, BookAt(h.books, m.token, t, maxAge), minDepth))
  {
    var book := BookAt(h.books, m.token, t, maxAge);
    forall b ensures HasBook(h, m, t, maxAge, b) <==> book == Some(b) && Cost.ValidBook(b.bid, b.ask) {
      if m.token in h.books {
        BookExactly(h.books[m.token], t, maxAge, b);
      }
    }
    if book.Some? && Cost.ValidBook(book.value.bid, book.value.ask) {
      BookFieldsFit(f, t, book.value, minDepth);
      assert HasBook(h, m, t, maxAge, book.value);
    }
  }

  lemma BookKeepsRest(f: Scoring.Features, t: int, book: Option<Book>, minDepth: real)
    ensures var g := WithBook(f, t, book, minDepth);
      && g.absRet1m == f.absRet1m && g.absRet5m == f.absRet5m && g.absRet1h == f.absRet1h
      && g.oneDayAbs == f.oneDayAbs && g.volumeProxy == f.volumeProxy && g.ttrHours == f.ttrHours
      && g.condition == f.condition && g.token == f.token && g.negRisk == f.negRisk && g.groupId == f.groupId
  {
  }

  lemma ReturnsFit(s: Prices, t: int)
    requires |s.times| == |s.prices|
    ensures ReturnIs(s, t - MINUTE, t, AbsRet(s, t, MINUTE)) && ReturnIs(s, t - 5 * MINUTE, t, AbsRet(s, t, 5 * MINUTE))
    ensures ReturnIs(s, t - 60 * MINUTE, t, AbsRet(s, t, HOUR)) && ReturnIs(s, t - 24 * 60 * MINUTE, t, AbsRet(s, t, DAY))
  {
    AbsRetIsReturn(s, t, MINUTE);
    AbsRetIsReturn(s, t, 5 * MINUTE);
    AbsRetIsReturn(s, t, HOUR);
    AbsRetIsReturn(s, t, DAY);
  }

  lemma ActivityFits(s: Prices, t: int)
    requires Valid(s)
    ensures ActivityProxy(PointCount(s, t, DAY), PathActivity(s, t, DAY))
         == 1000.0 * |InWindow(s.times, t, 24 * 60 * MINUTE)| as real
            + 100000.0 * MovesInWindow(s, t, 24 * 60 * MINUTE, |s.times|)
  {
    PointCountExactly(s, t, DAY);
    ActivityExactly(s, t, DAY);
  }

  lemma TimeLeftFits(t: int, self: Meta, mid: real, r1m: real, r5m: real, r1h: real, r1d: real, points: nat, path: real)
    ensures FitsFacts(t, self, SeriesFeatures(t, self, mid, r1m, r5m, r1h, r1d, points, path))
  {
    ProdQuotient(HOUR as real, (self.endDate - t) as real);
  }

  lemma SeriesFits(s: Prices, t: int, f: Scoring.Features)
    requires Valid(s)
    requires f.absRet1m == AbsRet(s, t, MINUTE) && f.absRet5m == AbsRet(s, t, 5 * MINUTE)
    requires f.absRet1h == AbsRet(s, t, HOUR) && f.oneDayAbs == AbsRet(s, t, DAY)
    requires f.volumeProxy == ActivityProxy(PointCount(s, t, DAY), PathActivity(s, t, DAY))
    ensures FitsSeries(s, t, f)
  {
    ReturnsFit(s, t);
    ActivityFits(s, t);
  }

  lemma FeaturesFit(h: History, m: Meta, t: int, self: Meta, maxAge: int, minDepth: real)
    requires PitBoard.Sound(h) && Shaped(h.prices) && m.token in h.prices && HasPositive(MidAsOf(h.prices[m.token], t))
    ensures var f := FeaturesAsOf(t, self, h.prices[m.token], BookAt(h.books, m.token, t, maxAge), minDepth);
      f.Some? && FitsSeries(h.prices[m.token], t, f.value) && FitsFacts(t, self, f.value)
      && FitsQuotes(h, m, t, maxAge, minDepth, f.value)
  {
    var s := h.prices[m.token];
    var f := SeriesFeatures(t, self, MidAsOf(s, t).value, AbsRet(s, t, MINUTE), AbsRet(s, t, 5 * MINUTE),
                            AbsRet(s, t, HOUR), AbsRet(s, t, DAY), PointCount(s, t, DAY), PathActivity(s, t, DAY));
    TimeLeftFits(t, self, MidAsOf(s, t).value, AbsRet(s, t, MINUTE), AbsRet(s, t, 5 * MINUTE), AbsRet(s, t, HOUR),
                 AbsRet(s, t, DAY), PointCount(s, t, DAY), PathActivity(s, t, DAY));
    SeriesFits(s, t, f);
    MidExactly(s, t, MidAsOf(s, t).value);
    BookKeepsRest(f, t, BookAt(h.books, m.token, t, maxAge), minDepth);
    QuotesFit(h, m, t, maxAge, minDepth, f);
  }

  // ---------------------------------------------------------------- group mids

  /** The leg `id` of the group of `self` has the price `x`: the market itself, a related leg, or a market of
      the same group. */
  ghost predicate IsLegPrice(h: History, t: int, self: Meta, id: string, x: real)
    requires Shaped(h.prices)
  {
    exists leg :: IsFactsOf(h.markets, id, leg) && leg.token in h.prices && PriceIs(h.prices[leg.token], t, x)
      && (id == self.condition || id in self.legs || (self.groupId != "" && leg.groupId == self.groupId))
  }

  /** All legs that have a price, if at least two have and the market belongs to a group. */
  ghost predicate FitsGroup(h: History, t: int, self: Meta, mids: map<string, real>)
    requires Shaped(h.prices)
  {
    if mids != map[] then
      && (self.groupId != "" || self.legs != []) && |mids| >= 2
      && (forall id, x :: id in mids && mids[id] == x <==> IsLegPrice(h, t, self, id, x))
    else
      (self.groupId == "" && self.legs == [])
      || forall id, x, other, y :: IsLegPrice(h, t, self, id, x) && IsLegPrice(h, t, self, other, y) ==> id == other
  }

  lemma MidAtExactly(prices: map<string, Prices>, token: string, t: int, x: real)
    requires Shaped(prices)
    ensures MidAt(prices, token, t) == Some(x) <==> token in prices && PriceIs(prices[token], t, x)
  {
    if token in prices {
      MidExactly(prices[token], t, x);
    }
  }

  /** In its own universe a market's token is the one its condition stands for. */
  lemma GroupMidExactly(h: History, t: int, self: Meta, id: string, x: real)
    requires Shaped(h.prices)
    requires self.condition in ByCondition(h.markets) && ByCondition(h.markets)[self.condition].token == self.token
    ensures GroupMid(t, self, ByCondition(h.markets), h.prices, id) == Some(x) <==> IsLegPrice(h, t, self, id, x)
  {
    var byCond := ByCondition(h.markets);
    forall leg ensures id in byCond && byCond[id] == leg <==> IsFactsOf(h.markets, id, leg) {
      ByConditionExactly(h.markets, id, leg);
    }
    if id in byCond {
      MidAtExactly(h.prices, byCond[id].token, t, x);
      assert IsFactsOf(h.markets, id, byCond[id]);
    }
  }

  lemma TwoKeys(mids: map<string, real>, id: string, other: string)
    requires |mids| < 2 && id in mids && other in mids
    ensures id == other
  {
    if id != other {
      assert {id, other} <= mids.Keys;
      assert |{id, other}| == 2;
      SubsetSize({id, other}, mids.Keys);
    }
  }

  lemma SubsetSize(a: set<string>, b: set<string>)
    requires a <= b
    ensures |a| <= |b|
  {
    assert b == a + (b - a);
  }

  lemma GroupFits(h: History, t: int, self: Meta)
    requires Shaped(h.prices)
    requires self.condition in ByCondition(h.markets) && ByCondition(h.markets)[self.condition].token == self.token
    ensures FitsGroup(h, t, self, GroupMids(t, self, ByCondition(h.markets), h.prices))
  {
    var byCond := ByCondition(h.markets);
    var all := AllMids(t, self, byCond, h.prices);
    forall id, x ensures id in all && all[id] == x <==> IsLegPrice(h, t, self, id, x) {
      GroupMidExactly(h, t, self, id, x);
    }
    if |all| < 2 {
      forall id, x, other, y | IsLegPrice(h, t, self, id, x) && IsLegPrice(h, t, self, other, y) ensures id == other {
        TwoKeys(all, id, other);
      }
    }
  }

  // ---------------------------------------------------------------- the candidate

  /** All of a candidate's fields that scoring reads. */
  ghost predicate Fits(h: History, m: Meta, t: int, maxAge: int, minDepth: real, self: Meta, c: Scoring.Candidate)
    requires Shaped(h.prices) && m.token in h.prices
  {
    && AreFacts(h, m, t, self)
    && FitsFacts(t, self, c.features)
    && FitsQuotes(h, m, t, maxAge, minDepth, c.features)
    && FitsSeries(h.prices[m.token], t, c.features)
    && FitsGroup(h, t, self, c.groupMids) && c.knownGroupSize == |c.groupMids|
    && FitsVolume(h, m, t, c.tieBreak)
  }

  /** The volume the snapshot states, or the day's sample count. */
  ghost predicate FitsVolume(h: History, m: Meta, t: int, volume: real)
    requires Shaped(h.prices) && m.token in h.prices
  {
    var count := |InWindow(h.prices[m.token].times, t, 24 * 60 * MINUTE)| as real;
    && (forall r :: IsLatestRow(h.snapshots, t, m.condition, r) ==> volume == if r.volume > 0.0 then r.volume else count)
    && ((forall r :: !IsLatestRow(h.snapshots, t, m.condition, r)) ==> volume == count)
  }

  lemma VolumeFits(h: History, m: Meta, t: int)
    requires Shaped(h.prices) && m.token in h.prices
    ensures FitsVolume(h, m, t, VolumeOf(PointCount(h.prices[m.token], t, DAY), Lookup(h.snapshots, t, m.condition)))
  {
    PointCountExactly(h.prices[m.token], t, DAY);
    forall r ensures IsLatestRow(h.snapshots, t, m.condition, r) <==> Lookup(h.snapshots, t, m.condition) == Some(r) {
      LookupExactly(h.snapshots, t, m.condition, r);
    }
  }

  ghost predicate IsCandidateOf(h: History, m: Meta, t: int, maxAge: int, minDepth: real, c: Scoring.Candidate)
    requires Shaped(h.prices)
  {
    m.token in h.prices && exists self :: Fits(h, m, t, maxAge, minDepth, self, c)
  }

  lemma CandidateFits(h: History, m: Meta, t: int, maxAge: int, minDepth: real, c: Scoring.Candidate)
    requires PitBoard.Sound(h) && Shaped(h.prices) && m in h.markets && PointAt(h, m, t, maxAge, minDepth) == Some(c)
    ensures IsCandidateOf(h, m, t, maxAge, minDepth, c)
  {
    FactsExactly(h, m, t);
    FeaturesFit(h, m, t, FactsAt(h, m, t), maxAge, minDepth);
    ConditionIsKnown(h.markets, m);
    GroupFits(h, t, FactsAt(h, m, t));
    VolumeFits(h, m, t);
    assert Fits(h, m, t, maxAge, minDepth, FactsAt(h, m, t), c);
  }

  lemma PointExactly(h: History, m: Meta, t: int, maxAge: int, minDepth: real, p: Option<Scoring.Candidate>)
    requires PitBoard.Sound(h) && Shaped(h.prices) && m in h.markets && p == PointAt(h, m, t, maxAge, minDepth)
    ensures p.Some? <==> IsLive(h, m, t)
    ensures p.Some? ==> IsCandidateOf(h, m, t, maxAge, minDepth, p.value)
  {
    LiveExactly(h, m, t, maxAge, minDepth);
    if p.Some? {
      CandidateFits(h, m, t, maxAge, minDepth, p.value);
    }
  }

  /** The universe at `t`: in market order exactly one candidate for each live market, each made of what its
      market's samples, books and snapshot rows say at `t`. */
  lemma UniverseExactly(h: History, t: int, maxAge: int, minDepth: real, points: seq<Scoring.Candidate>)
    returns (at: seq<nat>)
    requires PitBoard.Sound(h) && Shaped(h.prices) && points == Universe(h, h.markets, t, maxAge, minDepth)
    ensures |at| == |points| && Increasing(at, |h.markets|)
    ensures forall i :: 0 <= i < |h.markets| ==> (i in at <==> IsLive(h, h.markets[i], t))
    ensures forall k :: 0 <= k < |points| ==> IsCandidateOf(h, h.markets[at[k]], t, maxAge, minDepth, points[k])
  {
    var point := (m: Meta) => PointAt(h, m, t, maxAge, minDepth);
    at := UniverseFilters(h, h.markets, t, maxAge, minDepth, point);
    forall i | 0 <= i < |h.markets| ensures i in at <==> IsLive(h, h.markets[i], t) {
      PointExactly(h, h.markets[i], t, maxAge, minDepth, point(h.markets[i]));
    }
    forall k | 0 <= k < |points| ensures IsCandidateOf(h, h.markets[at[k]], t, maxAge, minDepth, points[k]) {
      PointExactly(h, h.markets[at[k]], t, maxAge, minDepth, point(h.markets[at[k]]));
    }
  }

  // ---------------------------------------------------------------- the universe cut

  lemma VolumeOrder()
    ensures StrictWeak(MoreVolume)
  {
  }

  /** A universe above the cap keeps that many candidates, none with less volume than one left out; a
      smaller one stays as it is. */
  lemma CutKeepsBusiest(points: seq<Scoring.Candidate>, cap: nat) returns (rest: seq<Scoring.Candidate>)
    ensures var kept := CutUniverse(points, cap);
      && multiset(kept) + multiset(rest) == multiset(points)
      && (|points| <= cap ==> kept == points)
      && (|points| > cap ==> |kept| == cap)
      && (forall i, j :: 0 <= i < |kept| && 0 <= j < |rest| ==> kept[i].tieBreak >= rest[j].tieBreak)
  {
    if |points| <= cap {
      rest := [];
    } else {
      var sorted := StableSort(points, MoreVolume);
      VolumeOrder();
      StableSortSorted(points, MoreVolume);
      rest := sorted[cap..];
      assert sorted == sorted[..cap] + rest;
      forall i, j | 0 <= i < cap && 0 <= j < |rest| ensures sorted[i].tieBreak >= rest[j].tieBreak {
        assert !MoreVolume(sorted[cap + j], sorted[i]);
      }
    }
  }

  // ---------------------------------------------------------------- the candidate board

  /** The backtest's board at `t` is the best of the cut universe; offline no candidate is dropped for want of
      a book, so exactly the quoted ones with an extreme mid are, where the policy says so. */
  lemma CandidateBoardExactly(env: Scoring.Env, w: Scoring.Weights, h: History, t: int, maxAge: int, cap: nat, n: int)
    returns (rows: seq<Board.Row<Scoring.Candidate>>, at: seq<nat>, rest: seq<Board.Row<Scoring.Candidate>>)
    requires Shaped(h.prices)
    ensures var points := CutUniverse(Universe(h, h.markets, t, maxAge, w.minDepthShares), cap);
      var board := CandidateBoard(env, w, h, t, maxAge, cap, n);
      && Board.HasBest(rows, if n <= 0 then 50 else n, board, rest)
      && |at| == |rows| && Increasing(at, |points|)
      && (forall k :: 0 <= k < |rows| ==>
           rows[k].cand == points[at[k]] && rows[k].id == points[at[k]].features.condition && rows[k].act == points[at[k]].tieBreak)
      && (forall i :: 0 <= i < |points| && points[i].features.mid != 0.0 ==>
           (i !in at <==> w.dropExtremePrice && !points[i].features.missingBook && IsExtreme(w, points[i].features.mid)))
  {
    var points := CutUniverse(Universe(h, h.markets, t, maxAge, w.minDepthShares), cap);
    var offline := w.(dropMissingBook := false);
    var p := Scoring.PolicyOf(env, offline);
    rows := Board.Survivors(p, points);
    at := Board.SurvivorsExactly(p, points);
    rest := Board.BoardHasBest(p, points, n);
    forall i | 0 <= i < |points| && points[i].features.mid != 0.0
      ensures i !in at <==> w.dropExtremePrice && !points[i].features.missingBook && IsExtreme(w, points[i].features.mid)
    {
      VerdictExactly(env, offline, points[i]);
      assert i in at <==> Board.RowOf(p)(points[i]).Some?;
    }
    forall k | 0 <= k < |rows|
      ensures rows[k].cand == points[at[k]] && rows[k].id == points[at[k]].features.condition
      ensures rows[k].act == points[at[k]].tieBreak
    {
      assert Board.RowOf(p)(points[at[k]]) == Some(rows[k]);
    }
  }
}
