/** What a candidate's costs, fair value and edge are (`internal/edge/cost.go`, `internal/edge/fv_negrisk.go`,
    `internal/edge/score.go`), stated on bids, asks, depths and mids. */
module Verdicts {
  import opened Basics
  import opened Products
  import opened Totals
  import opened Cost
  import opened Scoring

  // ---------------------------------------------------------------- cost

  /** With a proper book: the half spread takes the mid to the ask, the impact of a walk takes it to the
      average price paid, and the four parts add up. */
  lemma CostExactly(root: real -> real, c: CostInput)
    requires ValidBook(c.bestBid, c.bestAsk)
    ensures var r := CostOf(root, c);
      && r.hasBook && 2.0 * r.mid == c.bestBid + c.bestAsk
      && Prod(r.mid, 10000.0 + r.halfSpreadBps) == 10000.0 * c.bestAsk
      && r.feeBps == (if c.takerFeeBps > 0.0 then c.takerFeeBps else 0.0)
      && r.negRiskFeeBps == (if c.negRiskFeeBps > 0.0 then c.negRiskFeeBps else 0.0)
      && r.totalCostBps == r.halfSpreadBps + r.feeBps + r.impactBps + r.negRiskFeeBps
  {
    var mid := (c.bestBid + c.bestAsk) / 2.0;
    ProdQuotient(mid, 10000.0 * ((c.bestAsk - c.bestBid) / 2.0));
    ProdAdds(mid, 10000.0, 10000.0 * ((c.bestAsk - c.bestBid) / 2.0) / mid);
    ProdCommutes(mid, 10000.0);
  }

  /** The dollars the size buys for, and the shares it gets, give the impact: shares at the mid, marked up by
      the impact, cost what was paid. */
  lemma WalkImpactExactly(root: real -> real, c: CostInput)
    requires ValidBook(c.bestBid, c.bestAsk) && c.levels != []
    ensures var r, f := CostOf(root, c), Walk(c.levels, c.bestAsk, if c.sizeUSD > 0.0 then c.sizeUSD else 100.0, 0.0);
      if f.shares > 0.0 then Prod(Prod(r.mid, 10000.0 + r.impactBps), f.shares) == 10000.0 * f.usd else r.impactBps == 0.0
  {
    var mid := (c.bestBid + c.bestAsk) / 2.0;
    var f := Walk(c.levels, c.bestAsk, Positive(c.sizeUSD, 100.0), 0.0);
    if f.shares > 0.0 {
      MarkUp(mid, f.usd / f.shares);
      ProdQuotient(f.shares, f.usd);
      ScaledQuotient(f.usd / f.shares, f.shares);
      assert ImpactWalk(mid, c.bestAsk, c.levels, Positive(c.sizeUSD, 100.0)) == ImpactOf(mid, f);
    }
  }

  lemma MarkUp(mid: real, average: real)
    requires mid > 0.0
    ensures Prod(mid, 10000.0 + 10000.0 * (average - mid) / mid) == 10000.0 * average
  {
    ProdQuotient(mid, 10000.0 * (average - mid));
    ProdAdds(mid, 10000.0, 10000.0 * (average - mid) / mid);
    ProdCommutes(mid, 10000.0);
  }

  lemma ScaledQuotient(a: real, b: real)
    ensures Prod(10000.0 * a, b) == 10000.0 * Prod(b, a)
  {
  }

  /** The dollars on offer: levels with a price and a size that are not below the best ask. */
  ghost function OnOffer(levels: seq<Level>, bestAsk: real): real {
    if levels == [] then 0.0 else
    (var lv := levels[0];
     if lv.price > 0.0 && lv.size > 0.0 && (bestAsk <= 0.0 || lv.price >= bestAsk - 0.000000000001)
     then Prod(lv.price, lv.size) else 0.0)
    + OnOffer(levels[1..], bestAsk)
  }

  lemma {:induction false} OfferIsPositive(levels: seq<Level>, bestAsk: real)
    ensures OnOffer(levels, bestAsk) >= 0.0
  {
    if levels != [] {
      OfferIsPositive(levels[1..], bestAsk);
      if levels[0].price > 0.0 {
        ProdPositive(levels[0].price, levels[0].size);
      }
    }
  }

  /** A walk spends the whole size, but for a billionth of a dollar, when that much is on offer, and
      otherwise all that is on offer; never more than either. */
  lemma {:induction false} WalkSpends(levels: seq<Level>, bestAsk: real, size: real, last: real)
    requires size > 0.0
    ensures var usd, offer := Walk(levels, bestAsk, size, last).usd, OnOffer(levels, bestAsk);
      && 0.0 <= usd <= size && usd <= offer
      && (offer >= size ==> usd >= size - 0.000000001)
      && (offer < size ==> usd >= offer - 0.000000001)
  {
    OfferIsPositive(levels, bestAsk);
    if levels != [] {
      OfferIsPositive(levels[1..], bestAsk);
      if !Included(levels[0], bestAsk) {
        WalkSpends(levels[1..], bestAsk, size, last);
      } else {
        ProdPositive(levels[0].price, levels[0].size);
        var take := Min(size, Prod(levels[0].price, levels[0].size));
        if size - take > STOP {
          WalkSpends(levels[1..], bestAsk, size - take, levels[0].price);
        }
      }
    }
  }

  /** An order that the best ask can fill costs the half spread. */
  lemma SmallOrderPaysAsk(root: real -> real, c: CostInput)
    requires ValidBook(c.bestBid, c.bestAsk) && c.levels != [] && c.sizeUSD > 0.0
    requires c.levels[0].price == c.bestAsk && Prod(c.levels[0].price, c.levels[0].size) >= c.sizeUSD
    ensures CostOf(root, c).impactBps == CostOf(root, c).halfSpreadBps
  {
    var lv, size := c.levels[0], c.sizeUSD;
    PositiveFactor(lv.price, lv.size);
    assert Walk(c.levels, c.bestAsk, size, 0.0) == Fill(size, size / lv.price, lv.price);
    WalkImpactExactly(root, c);
    CostExactly(root, c);
    var r := CostOf(root, c);
    ProdQuotient(lv.price, size);
    SameMarkUp(r.mid, r.impactBps, r.halfSpreadBps, c.bestAsk, size / lv.price, size);
  }

  lemma PositiveFactor(a: real, b: real)
    requires a > 0.0 && Prod(a, b) > 0.0
    ensures b > 0.0
  {
    ProdPositive(a, b);
  }

  lemma SameMarkUp(mid: real, impact: real, half: real, ask: real, shares: real, usd: real)
    requires mid > 0.0 && shares > 0.0 && Prod(ask, shares) == usd
    requires Prod(Prod(mid, 10000.0 + impact), shares) == 10000.0 * usd
    requires Prod(mid, 10000.0 + half) == 10000.0 * ask
    ensures impact == half
  {
    ScaledQuotient(ask, shares);
    ProdCommutes(shares, ask);
    var x, y := Prod(mid, 10000.0 + impact), Prod(mid, 10000.0 + half);
    ProdCommutes(x, shares);
    ProdCommutes(y, shares);
    ProdGrows(shares, x, y);
    ProdGrows(shares, y, x);
    ProdGrows(mid, 10000.0 + impact, 10000.0 + half);
    ProdGrows(mid, 10000.0 + half, 10000.0 + impact);
  }

  /** Without levels the squared impact grows with the size in shares of the visible depth. */
  lemma RootImpactExactly(root: real -> real, c: CostInput, mid: real)
    requires ValidBook(c.bestBid, c.bestAsk) && c.levels == [] && mid == CostOf(root, c).mid
    requires Prod(c.askDepth, mid) >= STOP && c.sizeUSD > 0.0 && c.impactCoeff > 0.0
    requires forall y :: y >= 0.0 ==> root(y) >= 0.0 && Prod(root(y), root(y)) == y
    ensures var impact := CostOf(root, c).impactBps;
      impact >= 0.0 && Prod(Prod(impact, impact), Prod(c.askDepth, mid)) == Prod(Prod(c.impactCoeff, c.impactCoeff), c.sizeUSD)
  {
    var depth := Prod(c.askDepth, mid);
    var share := c.sizeUSD / depth;
    RootImpact(root, c, mid, depth);
    ProdQuotient(depth, c.sizeUSD);
    ProdPositive(c.impactCoeff, root(share));
    SquaredProduct(c.impactCoeff, root(share), depth);
  }

  lemma RootImpact(root: real -> real, c: CostInput, mid: real, depth: real)
    requires ValidBook(c.bestBid, c.bestAsk) && c.levels == [] && mid == (c.bestBid + c.bestAsk) / 2.0
    requires depth == Prod(c.askDepth, mid) && depth >= STOP && c.sizeUSD > 0.0 && c.impactCoeff > 0.0
    ensures CostOf(root, c).impactBps == Prod(c.impactCoeff, root(c.sizeUSD / depth))
  {
    assert CostOf(root, c).impactBps == DepthImpact(root, c.impactCoeff, c.sizeUSD, depth);
  }

  lemma SquaredProduct(a: real, x: real, d: real)
    ensures Prod(Prod(Prod(a, x), Prod(a, x)), d) == Prod(Prod(a, a), Prod(d, Prod(x, x)))
  {
    assert Prod(Prod(a, x), Prod(a, x)) == Prod(Prod(a, a), Prod(x, x));
    RegroupThree(Prod(a, a), Prod(x, x), d);
  }

  lemma RegroupThree(a: real, b: real, d: real)
    ensures Prod(Prod(a, b), d) == Prod(a, Prod(d, b))
  {
  }

  /** From a dollar of depth up, the capacity is the largest size within it whose impact meets the cap: of the
      sizes that have the root impact `x`, exactly those up to the capacity do. */
  lemma CapacityIsLargest(visible: real, cap: real, coeff: real, size: real, x: real)
    requires visible >= 1.0 && cap > 0.0 && coeff > 0.0
    requires x >= 0.0 && size == Prod(visible, Prod(x, x))
    ensures size <= Capacity(visible, cap / coeff) <==> size <= visible && Prod(coeff, x) <= cap
  {
    var ratio := cap / coeff;
    ProdQuotient(coeff, cap);
    ProdGrows(coeff, x, ratio);
    SquaresCompare(x, ratio);
    ProdGrows(visible, Prod(x, x), Prod(ratio, ratio));
    RegroupProduct(visible, ratio);
  }

  // ---------------------------------------------------------------- fair value

  /** The legs that count: other conditions with a proper price. */
  ghost predicate AreOthers(self: string, mids: map<string, real>, others: map<string, real>) {
    && (forall id :: id in others <==> id in mids && id != self && 0.0 < mids[id] < 1.0)
    && (forall id :: id in others ==> id in mids && others[id] == mids[id])
  }

  lemma OthersExactly(self: string, mids: map<string, real>, others: map<string, real>)
    ensures AreOthers(self, mids, others) <==> others == Others(self, mids)
  {
  }

  /** A quote needs a condition and enough other legs; the fair value and the other legs' prices make one,
      kept within a cent of 0 and 1; the confidence is the share of the group seen, raised or lowered by
      0.15 when all prices together are close to one or far from it. */
  lemma QuoteExactly(self: string, mids: map<string, real>, known: int, minOtherLegs: int, fee: real, others: map<string, real>)
    returns (share: real)
    requires AreOthers(self, mids, others)
    ensures var q, size := QuoteOf(self, mids, known, minOtherLegs, 0.0, fee), GroupSize(known, |mids|, |others|);
      && Prod(size as real, share) == (|others| + 1) as real
      && (q.Some? <==> self != "" && |others| >= 1 && |others| >= minOtherLegs)
      && (q.Some? ==>
           && FitsFairValue(q.value.fairValue, 1.0 - Total(Itself, others))
           && FitsConfidence(q.value.confidence, share, mids, self, Total(Itself, others))
           && (q.value.incomplete <==> size > |others| + 1))
  {
    var size := GroupSize(known, |mids|, |others|);
    share := (|others| + 1) as real / size as real;
    OthersExactly(self, mids, others);
    assert mids == map[] ==> others == map[];
    assert size == KnownSize(known, |mids|, |others|);
    ProdQuotient(size as real, (|others| + 1) as real);
    ShareFits(share, mids, self, Total(Itself, others), |others| + 1, size);
  }

  lemma ShareFits(share: real, mids: map<string, real>, self: string, sum: real, seen: nat, size: int)
    requires 0 < seen <= size && share == seen as real / size as real
    ensures var own := self in mids && mids[self] > 0.0;
      FitsConfidence(Confidence(share, if own then sum + mids[self] else 0.0, own), share, mids, self, sum)
  {
    QuotientCompare(seen as real, size as real, 1.0);
    ProdUnits(size as real);
  }

  ghost predicate FitsFairValue(fv: real, value: real) {
    && (0.01 <= value <= 0.99 ==> fv == value) && (value < 0.01 ==> fv == 0.01) && (value > 0.99 ==> fv == 0.99)
  }

  /** The group's size: as stated, or as many as have prices, and never less than the legs seen. */
  ghost function GroupSize(known: int, mids: nat, others: nat): (size: int)
    ensures size > 0
  {
    var stated := if known > 0 then known else mids;
    if stated >= others + 1 then stated else others + 1
  }

  ghost predicate FitsConfidence(conf: real, share: real, mids: map<string, real>, self: string, sum: real) {
    var own := self in mids && mids[self] > 0.0;
    var gap := if own then sum + mids[self] - 1.0 else 0.0;
    if own && -0.05 < gap < 0.05 then conf == Min(1.0, share + 0.15)
    else if own && (gap > 0.25 || gap < -0.25) then conf == Max(0.0, share - 0.15)
    else conf == share
  }

  // ---------------------------------------------------------------- edge

  /** A proper quote that is not marked missing. */
  ghost predicate IsQuoted(f: Features) {
    !f.missingBook && f.bestBid > 0.0 && f.bestAsk >= f.bestBid
  }

  ghost predicate IsExtreme(w: Weights, mid: real) {
    mid > 0.0 && (mid < (if w.extremeLo > 0.0 then w.extremeLo else 0.05) || mid > (if w.extremeHi > 0.0 then w.extremeHi else 0.95))
  }

  ghost predicate IsStale(w: Weights, f: Features) {
    f.stale || (w.maxFeatureAgeSec > 0.0 && f.featureAgeSec > w.maxFeatureAgeSec)
  }

  /** A candidate with a mid is dropped exactly when its quoted mid is extreme or it has no quote, each only
      where the policy says so; otherwise edge, costs, penalties and buffer together are what the fair
      value, or the opportunity, makes of it. */
  lemma VerdictExactly(env: Env, w: Weights, c: Candidate)
    requires c.features.mid != 0.0
    ensures var f, v := c.features, Judge(env, w, c);
      var cost := CostFor(env, w, c, f).totalCostBps;
      var stale := if IsStale(w, f) then w.stalePenaltyBps else 0.0;
      && (v.None? <==>
           || (w.dropExtremePrice && !f.missingBook && IsExtreme(w, f.mid))
           || (w.dropMissingBook && !IsQuoted(f)))
      && (v.Some? && !IsQuoted(f) ==> v.value + cost + 500.0 == env.opportunity(f))
      && (v.Some? && IsQuoted(f) && FairValue(w, c).None? ==> v.value + cost + stale == env.opportunity(f))
      && (v.Some? && IsQuoted(f) && FairValue(w, c).Some? ==>
           v.value + cost + stale + Max(0.0, w.modelBufferBps)
             == 10000.0 * (FairValue(w, c).value - (f.bestBid + f.bestAsk) / 2.0))
  {
  }

  /** A fair value counts when it is enabled, the candidate has a condition and enough other legs, and the
      quote's confidence reaches the minimum, 0.4 unless set; it is then what the other legs leave of one. */
  lemma FairValueExactly(w: Weights, c: Candidate, others: map<string, real>) returns (share: real, conf: real)
    requires AreOthers(c.features.condition, c.groupMids, others)
    ensures var self, fv, sum := c.features.condition, FairValue(w, c), Total(Itself, others);
      var asked := w.fvEnabled && self != "" && |others| >= 1 && |others| >= w.fvMinOtherLegs;
      && Prod(GroupSize(c.knownGroupSize, |c.groupMids|, |others|) as real, share) == (|others| + 1) as real
      && (asked ==> FitsConfidence(conf, share, c.groupMids, self, sum))
      && (fv.Some? <==> asked && conf >= (if w.fvMinConfidence > 0.0 then w.fvMinConfidence else 0.4))
      && (fv.Some? ==> FitsFairValue(fv.value, 1.0 - sum))
  {
    share := QuoteExactly(c.features.condition, c.groupMids, c.knownGroupSize, w.fvMinOtherLegs, c.negRiskFeeBips, others);
    var q := QuoteOf(c.features.condition, c.groupMids, c.knownGroupSize, w.fvMinOtherLegs, 0.0, c.negRiskFeeBips);
    conf := if q.Some? then q.value.confidence else 0.0;
  }
}
