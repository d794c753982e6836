/** Execution cost (`internal/edge/cost.go`): walking ask levels for a size, the square-root impact
    used when there are no levels, and the capacity derived from the impact cap. */
module Cost {
  import opened Basics
  import opened Products

  datatype Level = Level(price: real, size: real)

  const STOP: real := 0.000000001
  const PRICE_SLACK: real := 0.000000000001

  // ---------------------------------------------------------------- walking the levels

  predicate Included(lv: Level, bestAsk: real) {
    lv.price > 0.0 && lv.size > 0.0 && !(bestAsk > 0.0 && lv.price + PRICE_SLACK < bestAsk)
  }

  /** Dollars spent, shares bought, and the last price paid. */
  datatype Fill = Fill(usd: real, shares: real, last: real)

  /** Buy `remaining` dollars' worth from the levels in order; stop when less than STOP is left. */
  function Walk(levels: seq<Level>, bestAsk: real, remaining: real, last: real): Fill {
    if levels == [] then Fill(0.0, 0.0, last)
    else if !Included(levels[0], bestAsk) then Walk(levels[1..], bestAsk, remaining, last)
    else
      var take := Min(remaining, Prod(levels[0].price, levels[0].size));
      var rest := if remaining - take <= STOP then Fill(0.0, 0.0, levels[0].price)
        else Walk(levels[1..], bestAsk, remaining - take, levels[0].price);
      Fill(take + rest.usd, take / levels[0].price + rest.shares, rest.last)
  }

  function ImpactOf(mid: real, f: Fill): real
    requires mid > 0.0
  {
    if f.shares <= 0.0 then 0.0 else 10000.0 * (f.usd / f.shares - mid) / mid
  }

  function ImpactWalk(mid: real, bestAsk: real, levels: seq<Level>, sizeUSD: real): real {
    if mid <= 0.0 || sizeUSD <= 0.0 then 0.0 else ImpactOf(mid, Walk(levels, bestAsk, sizeUSD, 0.0))
  }

  method ImpactWalkBps(mid: real, bestAsk: real, levels: seq<Level>, sizeUSD: real) returns (bps: real)
    ensures bps == ImpactWalk(mid, bestAsk, levels, sizeUSD)
  {
    if mid <= 0.0 || sizeUSD <= 0.0 {
      return 0.0;
    }
    var remaining, sumPXSize, sumSize := sizeUSD, 0.0, 0.0;
    ghost var whole := Walk(levels, bestAsk, sizeUSD, 0.0);
    ghost var last := 0.0;
    var i := 0;
    assert levels[0..] == levels;
    while i < |levels|
      invariant 0 <= i <= |levels|
      invariant sumPXSize + Walk(levels[i..], bestAsk, remaining, last).usd == whole.usd
      invariant sumSize + Walk(levels[i..], bestAsk, remaining, last).shares == whole.shares
    {
      var lv := levels[i];
      assert levels[i..][1..] == levels[i + 1..];
      i := i + 1;
      if lv.price <= 0.0 || lv.size <= 0.0 {
        continue;
      }
      if bestAsk > 0.0 && lv.price + PRICE_SLACK < bestAsk {
        continue;
      }
      var levelUSD := Prod(lv.price, lv.size);
      var takeUSD := Min(remaining, levelUSD);
      var takeShares := takeUSD / lv.price;
      ProdQuotient(lv.price, takeUSD);
      sumPXSize := sumPXSize + Prod(lv.price, takeShares);
      sumSize := sumSize + takeShares;
      remaining := remaining - takeUSD;
      last := lv.price;
      if remaining <= STOP {
        break;
      }
    }
    assert i == |levels| ==> levels[i..] == [];
    if sumSize <= 0.0 {
      return 0.0;
    }
    var vwap := sumPXSize / sumSize;
    return 10000.0 * (vwap - mid) / mid;
  }

  ghost predicate AscendingFrom(levels: seq<Level>, bestAsk: real, floor: real) {
    && (forall i :: 0 <= i < |levels| && Included(levels[i], bestAsk) ==> floor <= levels[i].price)
    && (forall i, j :: 0 <= i < j < |levels| ==> levels[i].price <= levels[j].price)
  }

  lemma TailAscends(levels: seq<Level>, bestAsk: real, floor: real)
    requires levels != [] && AscendingFrom(levels, bestAsk, floor)
    ensures AscendingFrom(levels[1..], bestAsk, floor)
    ensures AscendingFrom(levels[1..], bestAsk, levels[0].price)
  {
  }

  /** The average price lies between the cheapest admissible price and the last price paid. */
  lemma {:induction false} PaidWithinPrices(levels: seq<Level>, bestAsk: real, r: real, floor: real)
    requires r > 0.0 && floor > 0.0 && AscendingFrom(levels, bestAsk, floor)
    ensures var f := Walk(levels, bestAsk, r, floor);
      && f.usd >= 0.0 && f.shares >= 0.0 && f.last >= floor
      && Prod(floor, f.shares) <= f.usd <= Prod(f.last, f.shares)
      && (f.shares == 0.0 ==> f.usd == 0.0 && f.last == floor)
  {
    if levels == [] {
    } else {
      TailAscends(levels, bestAsk, floor);
      if !Included(levels[0], bestAsk) {
        PaidWithinPrices(levels[1..], bestAsk, r, floor);
      } else {
        var q := levels[0].price;
        var take := Min(r, Prod(q, levels[0].size));
        assert Prod(q, levels[0].size) > 0.0;
        ProdQuotient(q, take);
        ProdMonotone(floor, q, take / q);
        if r - take > STOP {
          PaidWithinPrices(levels[1..], bestAsk, r - take, q);
          var rest := Walk(levels[1..], bestAsk, r - take, q);
          ProdMonotone(q, rest.last, take / q);
          ProdMonotone(floor, q, rest.shares);
          ProdAdds(rest.last, take / q, rest.shares);
          ProdAdds(floor, take / q, rest.shares);
        }
        assert take / q > 0.0;
      }
    }
  }

  /** A larger size buys at least as much, and everything beyond the smaller purchase costs at least
      the last price paid in it; this survives the early stop. */
  lemma {:induction false} LargerPaysMore(levels: seq<Level>, bestAsk: real, r1: real, r2: real, floor: real)
    requires 0.0 < r1 <= r2 && floor > 0.0 && AscendingFrom(levels, bestAsk, floor)
    ensures var f1, f2 := Walk(levels, bestAsk, r1, floor), Walk(levels, bestAsk, r2, floor);
      && f1.shares <= f2.shares
      && Prod(f1.last, f2.shares - f1.shares) <= f2.usd - f1.usd
  {
    if levels == [] {
    } else {
      TailAscends(levels, bestAsk, floor);
      if !Included(levels[0], bestAsk) {
        LargerPaysMore(levels[1..], bestAsk, r1, r2, floor);
      } else {
        var q := levels[0].price;
        var available := Prod(q, levels[0].size);
        var t1, t2 := Min(r1, available), Min(r2, available);
        assert available > 0.0;
        if r1 - t1 <= STOP {
          StoppedPaysLess(levels, bestAsk, r1, r2, floor);
        } else {
          LargerPaysMore(levels[1..], bestAsk, r1 - t1, r2 - t1, q);
        }
      }
    }
  }

  /** The case where the smaller purchase stops at the first level. */
  lemma StoppedPaysLess(levels: seq<Level>, bestAsk: real, r1: real, r2: real, floor: real)
    requires 0.0 < r1 <= r2 && floor > 0.0 && AscendingFrom(levels, bestAsk, floor)
    requires levels != [] && Included(levels[0], bestAsk)
    requires r1 - Min(r1, Prod(levels[0].price, levels[0].size)) <= STOP
    ensures var f1, f2 := Walk(levels, bestAsk, r1, floor), Walk(levels, bestAsk, r2, floor);
      && f1.shares <= f2.shares
      && Prod(f1.last, f2.shares - f1.shares) <= f2.usd - f1.usd
  {
    var q := levels[0].price;
    var available := Prod(q, levels[0].size);
    var t1, t2 := Min(r1, available), Min(r2, available);
    assert available > 0.0;
    TailAscends(levels, bestAsk, floor);
    assert Walk(levels, bestAsk, r1, floor) == Fill(t1 + 0.0, t1 / q + 0.0, q);
    var rest := if r2 - t2 <= STOP then Fill(0.0, 0.0, q) else Walk(levels[1..], bestAsk, r2 - t2, q);
    if r2 - t2 > STOP {
      PaidWithinPrices(levels[1..], bestAsk, r2 - t2, q);
    }
    assert Walk(levels, bestAsk, r2, floor) == Fill(t2 + rest.usd, t2 / q + rest.shares, rest.last);
    MoreOfTheSame(q, t1, t2, rest.usd, rest.shares);
  }

  lemma MoreOfTheSame(q: real, t1: real, t2: real, usd: real, shares: real)
    requires q > 0.0 && t1 <= t2 && shares >= 0.0 && Prod(q, shares) <= usd
    ensures t1 / q <= t2 / q + shares
    ensures Prod(q, t2 / q + shares - t1 / q) <= t2 + usd - t1
  {
    ProdQuotient(q, t1);
    ProdQuotient(q, t2);
    ProdAdds(q, t2 / q, shares);
    ProdAdds(q, t2 / q + shares, t1 / q);
    ProdGrows(q, t1 / q, t2 / q);
  }

  lemma CrossMultiply(u1: real, s1: real, u2: real, s2: real, p: real)
    requires 0.0 < s1 <= s2 && u1 <= Prod(p, s1) && Prod(p, s2 - s1) <= u2 - u1
    ensures u1 / s1 <= u2 / s2
  {
    var v := u1 / s1;
    ProdQuotient(s1, u1);
    ProdCommutes(p, s1);
    QuotientCompare(u1, s1, p);
    ProdMonotone(v, p, s2 - s1);
    ProdAdds(v, s2, s1);
    ProdCommutes(v, s1);
    ProdCommutes(v, s2);
    ProdQuotient(s2, u2);
    ProdGrows(s2, v, u2 / s2);
  }

  ghost predicate Ascending(levels: seq<Level>) {
    forall i, j :: 0 <= i < j < |levels| ==> levels[i].price <= levels[j].price
  }

  lemma {:induction false} LowestPrice(levels: seq<Level>, bestAsk: real) returns (floor: real)
    requires Ascending(levels)
    ensures floor > 0.0 && AscendingFrom(levels, bestAsk, floor)
    ensures floor == 1.0 || exists i :: 0 <= i < |levels| && Included(levels[i], bestAsk) && levels[i].price == floor
  {
    if levels == [] {
      floor := 1.0;
    } else if Included(levels[0], bestAsk) {
      floor := levels[0].price;
    } else {
      floor := LowestPrice(levels[1..], bestAsk);
      forall i | 0 <= i < |levels| && Included(levels[i], bestAsk) ensures floor <= levels[i].price {
        assert levels[i] == levels[1..][i - 1];
      }
      if exists i :: 0 <= i < |levels[1..]| && Included(levels[1..][i], bestAsk) && levels[1..][i].price == floor {
        var i :| 0 <= i < |levels[1..]| && Included(levels[1..][i], bestAsk) && levels[1..][i].price == floor;
        assert levels[i + 1] == levels[1..][i];
      }
    }
  }

  /** Walking ascending ask levels, the average price never falls as the size grows. */
  lemma ImpactGrowsWithSize(mid: real, bestAsk: real, levels: seq<Level>, size1: real, size2: real)
    requires mid > 0.0 && 0.0 < size1 <= size2 && Ascending(levels)
    ensures ImpactWalk(mid, bestAsk, levels, size1) <= ImpactWalk(mid, bestAsk, levels, size2)
  {
    var floor := LowestPrice(levels, bestAsk);
    var f1, f2 := Walk(levels, bestAsk, size1, floor), Walk(levels, bestAsk, size2, floor);
    StartDoesNotMatter(levels, bestAsk, size1, floor);
    StartDoesNotMatter(levels, bestAsk, size2, floor);
    LargerPaysMore(levels, bestAsk, size1, size2, floor);
    PaidWithinPrices(levels, bestAsk, size1, floor);
    BothBuyOrNeither(levels, bestAsk, size1, size2, floor);
    if f1.shares > 0.0 {
      CrossMultiply(f1.usd, f1.shares, f2.usd, f2.shares, f1.last);
      ImpactMonotone(mid, f1.usd / f1.shares, f2.usd / f2.shares);
    }
  }

  ghost predicate BetweenLevels(levels: seq<Level>, bestAsk: real, i: int, j: int, price: real) {
    && 0 <= i <= j < |levels|
    && Included(levels[i], bestAsk) && Included(levels[j], bestAsk)
    && levels[i].price <= price <= levels[j].price
  }

  lemma AverageBetween(usd: real, shares: real, lo: real, hi: real)
    requires shares > 0.0 && Prod(lo, shares) <= usd <= Prod(hi, shares)
    ensures lo <= usd / shares <= hi
  {
    ProdQuotient(shares, usd);
    ProdCommutes(lo, shares);
    ProdCommutes(hi, shares);
    ProdGrows(shares, lo, usd / shares);
    ProdGrows(shares, usd / shares, hi);
  }

  /** The average price paid lies between two admissible level prices. */
  lemma AverageWithinLevels(bestAsk: real, levels: seq<Level>, size: real) returns (i: nat, j: nat)
    requires size > 0.0 && Ascending(levels)
    requires Walk(levels, bestAsk, size, 0.0).shares > 0.0
    ensures BetweenLevels(levels, bestAsk, i, j,
      Walk(levels, bestAsk, size, 0.0).usd / Walk(levels, bestAsk, size, 0.0).shares)
  {
    i := FirstIncluded(levels, bestAsk, size);
    var floor := levels[i].price;
    var f := Walk(levels, bestAsk, size, floor);
    StartDoesNotMatter(levels, bestAsk, size, floor);
    PaidWithinPrices(levels, bestAsk, size, floor);
    j := LastPaidIsLevel(levels, bestAsk, size, floor);
    AverageBetween(f.usd, f.shares, floor, f.last);
    assert j >= i;
  }

  /** Where the walk starts buying. */
  lemma {:induction false} FirstIncluded(levels: seq<Level>, bestAsk: real, size: real) returns (i: nat)
    requires Ascending(levels) && Walk(levels, bestAsk, size, 0.0).shares > 0.0
    ensures i < |levels| && Included(levels[i], bestAsk) && AscendingFrom(levels, bestAsk, levels[i].price)
    ensures forall k :: 0 <= k < i ==> !Included(levels[k], bestAsk)
  {
    if Included(levels[0], bestAsk) {
      i := 0;
    } else {
      var k := FirstIncluded(levels[1..], bestAsk, size);
      i := k + 1;
      forall m | 0 <= m < |levels| && Included(levels[m], bestAsk) ensures levels[i].price <= levels[m].price {
        assert levels[m] == levels[1..][m - 1];
      }
      forall m | 0 <= m < i ensures !Included(levels[m], bestAsk) {
        assert m > 0 ==> levels[m] == levels[1..][m - 1];
      }
    }
  }

  lemma {:induction false} LastPaidIsLevel(levels: seq<Level>, bestAsk: real, r: real, floor: real) returns (j: nat)
    requires exists i :: 0 <= i < |levels| && Included(levels[i], bestAsk)
    ensures j < |levels| && Included(levels[j], bestAsk) && levels[j].price == Walk(levels, bestAsk, r, floor).last
  {
    var rest := levels[1..];
    if exists i :: 0 <= i < |rest| && Included(rest[i], bestAsk) {
      var take := Min(r, Prod(levels[0].price, levels[0].size));
      if !Included(levels[0], bestAsk) {
        var k := LastPaidIsLevel(rest, bestAsk, r, floor);
        j := k + 1;
      } else if r - take <= STOP {
        j := 0;
      } else {
        var k := LastPaidIsLevel(rest, bestAsk, r - take, levels[0].price);
        j := k + 1;
      }
    } else {
      j := 0;
      forall i | 0 < i < |levels| ensures !Included(levels[i], bestAsk) {
        assert levels[i] == rest[i - 1];
      }
      NothingMore(rest, bestAsk, r - Min(r, Prod(levels[0].price, levels[0].size)), levels[0].price);
    }
  }

  lemma {:induction false} NothingMore(levels: seq<Level>, bestAsk: real, r: real, last: real)
    requires forall i :: 0 <= i < |levels| ==> !Included(levels[i], bestAsk)
    ensures Walk(levels, bestAsk, r, last) == Fill(0.0, 0.0, last)
  {
    if levels != [] {
      NothingMore(levels[1..], bestAsk, r, last);
    }
  }

  lemma ImpactMonotone(mid: real, v1: real, v2: real)
    requires mid > 0.0 && v1 <= v2
    ensures 10000.0 * (v1 - mid) / mid <= 10000.0 * (v2 - mid) / mid
  {
  }

  lemma {:induction false} StartDoesNotMatter(levels: seq<Level>, bestAsk: real, r: real, last: real)
    ensures Walk(levels, bestAsk, r, last).usd == Walk(levels, bestAsk, r, 0.0).usd
    ensures Walk(levels, bestAsk, r, last).shares == Walk(levels, bestAsk, r, 0.0).shares
  {
    if levels != [] {
      StartDoesNotMatter(levels[1..], bestAsk, r, last);
    }
  }

  lemma {:induction false} BothBuyOrNeither(levels: seq<Level>, bestAsk: real, r1: real, r2: real, floor: real)
    requires 0.0 < r1 <= r2 && floor > 0.0 && AscendingFrom(levels, bestAsk, floor)
    ensures Walk(levels, bestAsk, r1, floor).shares > 0.0 <==> Walk(levels, bestAsk, r2, floor).shares > 0.0
  {
    if levels != [] {
      TailAscends(levels, bestAsk, floor);
      if !Included(levels[0], bestAsk) {
        BothBuyOrNeither(levels[1..], bestAsk, r1, r2, floor);
      } else {
        BuysSomething(levels, bestAsk, r1, floor);
        BuysSomething(levels, bestAsk, r2, floor);
      }
    }
  }

  lemma BuysSomething(levels: seq<Level>, bestAsk: real, r: real, floor: real)
    requires r > 0.0 && floor > 0.0 && AscendingFrom(levels, bestAsk, floor)
    requires levels != [] && Included(levels[0], bestAsk)
    ensures Walk(levels, bestAsk, r, floor).shares > 0.0
  {
    var q := levels[0].price;
    var take := Min(r, Prod(q, levels[0].size));
    assert Prod(q, levels[0].size) > 0.0;
    ProdQuotient(q, take);
    TailAscends(levels, bestAsk, floor);
    if r - take > STOP {
      PaidWithinPrices(levels[1..], bestAsk, r - take, q);
    }
    assert take / q > 0.0;
  }

  // ---------------------------------------------------------------- cost stack and capacity

  datatype CostInput = CostInput(
    bestBid: real,
    bestAsk: real,
    bidDepth: real,
    askDepth: real,
    levels: seq<Level>,
    sizeUSD: real,
    takerFeeBps: real,
    negRiskFeeBps: real,
    impactCapBps: real,
    impactCoeff: real)

  datatype CostBreakdown = CostBreakdown(
    mid: real,
    halfSpreadBps: real,
    feeBps: real,
    impactBps: real,
    negRiskFeeBps: real,
    totalCostBps: real,
    capacityUSD: real,
    hasBook: bool,
    spreadInvalid: bool)

  function Capacity(visible: real, ratio: real): real {
    var size := Max(visible, 1.0) * ratio * ratio;
    if visible > 0.0 && size > visible then visible else size
  }

  /** Depth the square-root impact divides by. */
  function ImpactDepth(visible: real): (d: real)
    ensures d > 0.0
  {
    if visible < STOP then STOP else visible
  }

  /** The square-root impact of a size on the visible depth. */
  function DepthImpact(root: real -> real, coeff: real, size: real, visible: real): real {
    coeff * root(size / ImpactDepth(visible))
  }

  predicate ValidBook(bid: real, ask: real) {
    bid > 0.0 && ask > 0.0 && ask >= bid
  }

  /** The cost stack. `root` is the square root, which the model takes as a parameter. */
  function CostOf(root: real -> real, c: CostInput): CostBreakdown {
    var fee, negRisk := Max(0.0, c.takerFeeBps), Max(0.0, c.negRiskFeeBps);
    if !ValidBook(c.bestBid, c.bestAsk) then
      CostBreakdown(0.0, 0.0, fee, 0.0, negRisk, fee + negRisk, 0.0, false, c.bestBid > 0.0 || c.bestAsk > 0.0)
    else
      var mid := (c.bestBid + c.bestAsk) / 2.0;
      var half := 10000.0 * ((c.bestAsk - c.bestBid) / 2.0) / mid;
      var size, coeff := Positive(c.sizeUSD, 100.0), Positive(c.impactCoeff, 50.0);
      var impact := if |c.levels| > 0 then ImpactWalk(mid, c.bestAsk, c.levels, size)
        else DepthImpact(root, coeff, size, Prod(c.askDepth, mid));
      CostBreakdown(mid, half, fee, impact, negRisk, half + fee + impact + negRisk,
                    Capacity(Prod(c.askDepth, mid), Positive(c.impactCapBps, 25.0) / coeff), true, false)
  }

  /** Trading exactly the capacity keeps the square-root impact at or below the cap precisely when at
      least a dollar is visible, or, below that, when the cap is generous enough for the depth. */
  lemma CapacityMeetsCapExactly(visible: real, cap: real, coeff: real, x: real)
    requires cap > 0.0 && coeff > 0.0
    requires x >= 0.0 && x * x == Capacity(visible, cap / coeff) / ImpactDepth(visible)
    ensures coeff * x <= cap <==>
      visible >= 1.0 || (visible > 0.0 && visible <= (cap / coeff) * (cap / coeff) * ImpactDepth(visible))
  {
    var ratio, d := cap / coeff, ImpactDepth(visible);
    ProdQuotient(coeff, cap);
    ProdGrows(coeff, x, ratio);
    SquaresCompare(x, ratio);
    CapacityRatio(visible, ratio);
    assert Prod(coeff, x) == coeff * x && Prod(x, x) == x * x;
    assert Prod(Prod(ratio, ratio), d) == ratio * ratio * d;
  }

  /** Below a dollar the capacity is the squared ratio, cut off at what is visible. */
  lemma CapacityValue(visible: real, ratio: real)
    requires ratio > 0.0
    ensures var q := Prod(ratio, ratio);
      && q > 0.0
      && (visible < 1.0 ==> Capacity(visible, ratio) == if visible > 0.0 && q > visible then visible else q)
      && (visible >= 1.0 ==> Capacity(visible, ratio) <= Prod(visible, q))
  {
    ProdPositive(ratio, ratio);
    RegroupProduct(Max(visible, 1.0), ratio);
  }

  lemma RegroupProduct(m: real, ratio: real)
    ensures m * ratio * ratio == Prod(m, Prod(ratio, ratio))
  {
  }

  /** When the capacity is at most ratio^2 times the depth the impact is measured against. */
  lemma CapacityRatio(visible: real, ratio: real)
    requires ratio > 0.0
    ensures Capacity(visible, ratio) / ImpactDepth(visible) <= Prod(ratio, ratio) <==>
      visible >= 1.0 || (visible > 0.0 && visible <= Prod(Prod(ratio, ratio), ImpactDepth(visible)))
  {
    var d, size, q := ImpactDepth(visible), Capacity(visible, ratio), Prod(ratio, ratio);
    CapacityValue(visible, ratio);
    QuotientCompare(size, d, q);
    ProdCommutes(d, q);
    if visible < 1.0 {
      ProdGrows(q, d, 1.0);
      ProdUnits(q);
    }
  }

  /** It can fail: with half a share of depth at 0.5, a cap of 25 and a coefficient of 50, trading the
      stated capacity has twice the capped impact. */
  lemma CapacityCanBreakCap(root: real -> real)
    requires root(1.0) == 1.0
    ensures var c := CostInput(0.5, 0.5, 0.0, 0.5, [], 0.25, 0.0, 0.0, 25.0, 50.0);
      CostOf(root, c).capacityUSD == c.sizeUSD && CostOf(root, c).impactBps == 50.0
  {
  }
}
