/** The size a signal gets (`internal/risk/manager.go`), stated on the numbers of the configuration, the
    book and the signal, by products rather than by the quotients the manager computes. */
module Sizing {
  import opened Basics
  import opened Products
  import opened RiskConfig
  import opened RiskBook

  // ---------------------------------------------------------------- what a mode asks for

  /** The conviction that counts: one that is not positive counts as one half, one above 1 as 1. */
  ghost function Counted(conviction: real): real {
    if conviction <= 0.0 then 0.5 else if conviction >= 1.0 then 1.0 else conviction
  }

  /** The expected gain of a dollar staked at the configured win probability and payoff, if positive. */
  ghost function Advantage(c: Config): real {
    if Prod(c.kellyP, c.kellyB) > 1.0 - c.kellyP then Prod(c.kellyP, c.kellyB) - (1.0 - c.kellyP) else 0.0
  }

  /** `share` of the equity is the fractional Kelly bet. */
  ghost predicate IsKellyBet(c: Config, conviction: real, share: real) {
    Prod(share, c.kellyB) == Prod(Prod(c.kellyFraction, Counted(conviction)), Advantage(c))
  }

  /** `k` scales the window of last returns to the target volatility, within a tenth and three times. */
  ghost predicate IsScale(p: Policy, rets: seq<real>, k: real) {
    if p.cfg.volLookback <= 1 || |rets| < 2 then k == 1.0 else
    var sd := p.stdev(if |rets| > p.cfg.volLookback then rets[|rets| - p.cfg.volLookback..] else rets);
    if sd < 0.000000000001 then k == 1.0 else
    var unit := Prod(sd, p.annualRoot);
    && 0.1 <= k <= 3.0
    && (Prod(k, unit) > p.cfg.volTargetAnn ==> k == 0.1)
    && (Prod(k, unit) < p.cfg.volTargetAnn ==> k == 3.0)
  }

  /** The sizing mode asks for `x` dollars. */
  ghost predicate Asks(p: Policy, b: Book, sig: Signal, x: real) {
    var weight := 1.0 + 3.0 * Counted(sig.conviction);
    if p.cfg.sizingMode == SIGNAL_SIZE then
      4.0 * x == Prod(if sig.sizeUSD > 0.0 then sig.sizeUSD else p.cfg.minSizeUSD, weight)
    else if p.cfg.sizingMode == VOL_TARGET then
      exists k :: IsScale(p, b.rets, k) &&
        4.0 * x == Prod(Prod(if sig.sizeUSD > 0.0 then sig.sizeUSD else p.cfg.maxPositionUSD / 10.0, k), weight)
    else
      exists share :: IsKellyBet(p.cfg, sig.conviction, share) && x == Prod(b.equity, LowerShare(p.cfg, sig, share))
  }

  /** A stated Kelly share of the signal's own counts when it is lower. */
  ghost function LowerShare(c: Config, sig: Signal, share: real): real {
    if sig.kelly.Some? && sig.kelly.value > 0.0 && Prod(c.kellyFraction, sig.kelly.value) < share
    then Prod(c.kellyFraction, sig.kelly.value) else share
  }

  // ---------------------------------------------------------------- what the caps leave

  /** A size within the position cap, the share of a stated capacity and, outside the default mode, a
      stated size. */
  ghost predicate AllowsAlone(p: Policy, sig: Signal, size: real) {
    && size <= p.cfg.maxPositionUSD
    && (sig.capacityUSD > 0.0 ==> size <= Prod(sig.capacityUSD, p.cfg.capacityFrac))
    && (sig.sizeUSD > 0.0 && p.cfg.sizingMode != FRAC_KELLY ==> size <= sig.sizeUSD)
  }

  /** And within the room the open positions leave. */
  ghost predicate Allows(p: Policy, b: Book, sig: Signal, size: real) {
    AllowsAlone(p, sig, size) && Gross(b.positions) + size <= p.cfg.maxGrossUSD
  }

  /** Not halted, or halted for a day that has passed. */
  ghost predicate TradesAt(b: Book, at: int) {
    b.state == Ok || (b.state == HaltedDay && at != NO_TIME && b.day != NO_TIME && DayOf(at) > b.day)
  }

  /** A signal the manager looks at: complete, on a market it may open now. */
  ghost predicate Welcome(p: Policy, b: Book, sig: Signal) {
    && sig.condition != "" && (sig.side == "BUY" || sig.side == "SELL")
    && TradesAt(b, sig.at)
    && sig.condition !in b.positions && |b.positions| < p.cfg.maxPositions
  }

  // ---------------------------------------------------------------- the mode's size is what it asks for

  lemma ConvictionCounts(sig: Signal)
    ensures Conviction(sig) == Counted(sig.conviction)
  {
  }

  lemma KellyProduct(fraction: real, quotient: real, conv: real, payoff: real, advantage: real)
    requires Prod(quotient, payoff) == advantage
    ensures Prod(fraction * quotient * conv, payoff) == Prod(Prod(fraction, conv), advantage)
  {
    var scaled := fraction * conv;
    assert fraction * quotient * conv == scaled * quotient;
    assert Prod(scaled * quotient, payoff) == Prod(scaled, quotient * payoff);
  }

  /** The fractional Kelly share, without the signal's own. */
  ghost function OwnShare(c: Config, conv: real): real
    requires c.kellyB > 0.0
  {
    c.kellyFraction * FullKelly(c) * conv
  }

  lemma OwnShareIsBet(c: Config, conviction: real)
    requires Usable(c)
    ensures IsKellyBet(c, conviction, OwnShare(c, Counted(conviction)))
  {
    var gain := Prod(c.kellyP, c.kellyB) - (1.0 - c.kellyP);
    ProdQuotient(c.kellyB, gain);
    ProdCommutes(c.kellyB, gain / c.kellyB);
    ProdUnits(c.kellyB);
    ProdCommutes(c.kellyB, 0.0);
    KellyProduct(c.kellyFraction, if gain < 0.0 then 0.0 else gain / c.kellyB, Counted(conviction), c.kellyB, Advantage(c));
  }

  lemma BetIsUnique(c: Config, conviction: real, s: real, t: real)
    requires c.kellyB > 0.0 && IsKellyBet(c, conviction, s) && IsKellyBet(c, conviction, t)
    ensures s == t
  {
    ProdCommutes(s, c.kellyB);
    ProdCommutes(t, c.kellyB);
    ProdGrows(c.kellyB, s, t);
    ProdGrows(c.kellyB, t, s);
  }

  lemma KellyShareIsLower(p: Policy, sig: Signal)
    requires Usable(p.cfg)
    ensures KellyShare(p, sig) == LowerShare(p.cfg, sig, OwnShare(p.cfg, Counted(sig.conviction)))
  {
    ConvictionCounts(sig);
  }

  lemma QuotientByTwo(target: real, root: real, sd: real)
    requires root > 0.0 && sd > 0.0
    ensures Prod(sd, root) > 0.0 && target / root / sd == target / Prod(sd, root)
  {
    ProdPositive(sd, root);
    ProdQuotient(root, target);
    ProdQuotient(sd, target / root);
    var q := target / root / sd;
    assert Prod(root, Prod(sd, q)) == target;
    assert Prod(Prod(sd, root), q) == target;
    ProdQuotient(Prod(sd, root), target);
    ProdGrows(Prod(sd, root), q, target / Prod(sd, root));
    ProdGrows(Prod(sd, root), target / Prod(sd, root), q);
  }

  lemma ClampedQuotient(target: real, unit: real)
    requires unit > 0.0
    ensures var k := Clamp(target / unit, 0.1, 3.0);
      && 0.1 <= k <= 3.0
      && (Prod(k, unit) > target ==> k == 0.1)
      && (Prod(k, unit) < target ==> k == 3.0)
  {
    var k := Clamp(target / unit, 0.1, 3.0);
    ProdQuotient(unit, target);
    ProdCommutes(k, unit);
    ProdGrows(unit, k, target / unit);
    ProdGrows(unit, target / unit, k);
  }

  lemma VolScaleIsScale(p: Policy, b: Book)
    requires Sound(p)
    ensures IsScale(p, b.rets, VolScale(p, b))
  {
    var sd := p.stdev(LastOf(b.rets, p.cfg.volLookback));
    if p.cfg.volLookback > 1 && |b.rets| >= 2 && sd >= TINY {
      QuotientByTwo(p.cfg.volTargetAnn, p.annualRoot, sd);
      ClampedQuotient(p.cfg.volTargetAnn, Prod(sd, p.annualRoot));
    }
  }

  lemma ScaleIsUnique(p: Policy, rets: seq<real>, k: real, m: real)
    requires Sound(p) && IsScale(p, rets, k) && IsScale(p, rets, m)
    ensures k == m
  {
    if p.cfg.volLookback > 1 && |rets| >= 2 {
      var sd := p.stdev(if |rets| > p.cfg.volLookback then rets[|rets| - p.cfg.volLookback..] else rets);
      if sd >= 0.000000000001 {
        var unit := Prod(sd, p.annualRoot);
        ProdPositive(sd, p.annualRoot);
        ProdCommutes(k, unit);
        ProdCommutes(m, unit);
        ProdGrows(unit, k, m);
        ProdGrows(unit, m, k);
      }
    }
  }

  lemma WeightedSize(base: real, k: real, conv: real)
    ensures 4.0 * (base * (0.25 + 0.75 * conv)) == Prod(base, 1.0 + 3.0 * conv)
    ensures 4.0 * (base * k * (0.25 + 0.75 * conv)) == Prod(Prod(base, k), 1.0 + 3.0 * conv)
  {
    var scaled := base * k;
    assert 4.0 * (base * (0.25 + 0.75 * conv)) == base * (1.0 + 3.0 * conv);
    assert 4.0 * (scaled * (0.25 + 0.75 * conv)) == scaled * (1.0 + 3.0 * conv);
  }

  lemma SignalSizeIsAsked(p: Policy, b: Book, sig: Signal, x: real)
    requires p.cfg.sizingMode == SIGNAL_SIZE
    ensures Asks(p, b, sig, x) <==> x == RawSize(p, b, sig)
  {
    ConvictionCounts(sig);
    WeightedSize(Positive(sig.sizeUSD, p.cfg.minSizeUSD), 1.0, Counted(sig.conviction));
  }

  lemma VolTargetIsAsked(p: Policy, b: Book, sig: Signal, x: real)
    requires Sound(p) && p.cfg.sizingMode == VOL_TARGET && p.cfg.sizingMode != SIGNAL_SIZE
    ensures Asks(p, b, sig, x) <==> x == RawSize(p, b, sig)
  {
    var k := VolScale(p, b);
    ConvictionCounts(sig);
    VolScaleIsScale(p, b);
    WeightedSize(Positive(sig.sizeUSD, p.cfg.maxPositionUSD * 0.1), k, Counted(sig.conviction));
    forall m | IsScale(p, b.rets, m) ensures m == k {
      ScaleIsUnique(p, b.rets, k, m);
    }
  }

  lemma KellyIsAsked(p: Policy, b: Book, sig: Signal, x: real)
    requires Sound(p) && p.cfg.sizingMode != VOL_TARGET && p.cfg.sizingMode != SIGNAL_SIZE
    ensures Asks(p, b, sig, x) <==> x == RawSize(p, b, sig)
  {
    var share := OwnShare(p.cfg, Counted(sig.conviction));
    OwnShareIsBet(p.cfg, sig.conviction);
    KellyShareIsLower(p, sig);
    forall s | IsKellyBet(p.cfg, sig.conviction, s) ensures s == share {
      BetIsUnique(p.cfg, sig.conviction, share, s);
    }
  }

  /** Each sizing mode asks for one size, the one the manager computes. */
  lemma RawSizeIsAsked(p: Policy, b: Book, sig: Signal, x: real)
    requires Sound(p)
    ensures Asks(p, b, sig, x) <==> x == RawSize(p, b, sig)
  {
    if p.cfg.sizingMode == SIGNAL_SIZE {
      SignalSizeIsAsked(p, b, sig, x);
    } else if p.cfg.sizingMode == VOL_TARGET {
      VolTargetIsAsked(p, b, sig, x);
    } else {
      KellyIsAsked(p, b, sig, x);
    }
  }

  // ---------------------------------------------------------------- accepted sizes

  lemma RollFacts(b: Book, at: int)
    ensures var r := Roll(b, at);
      && r.equity == b.equity && r.positions == b.positions && r.rets == b.rets
      && (r.state == Ok <==> TradesAt(b, at))
  {
  }

  /** `size` dollars are asked for and allowed. */
  ghost predicate Grants(p: Policy, b: Book, sig: Signal, x: real, size: real) {
    size <= x && Allows(p, b, sig, size)
  }

  lemma GrantsUpToCap(p: Policy, b: Book, sig: Signal, x: real, size: real)
    requires Sound(p)
    ensures Grants(p, b, sig, x, size) <==>
      size <= CappedSize(p, sig, x) && size <= p.cfg.maxGrossUSD - Gross(b.positions)
  {
    UpToCap(p, sig, x, size);
    assert Gross(b.positions) + size <= p.cfg.maxGrossUSD <==> size <= p.cfg.maxGrossUSD - Gross(b.positions);
  }

  lemma UpToCap(p: Policy, sig: Signal, x: real, size: real)
    requires Sound(p)
    ensures size <= CappedSize(p, sig, x) <==> size <= x && AllowsAlone(p, sig, size)
  {
    var cap := Prod(sig.capacityUSD, p.cfg.capacityFrac);
    var s1 := Min(x, p.cfg.maxPositionUSD);
    var s2 := if sig.capacityUSD > 0.0 then Min(s1, cap) else s1;
    CapsInTurn(p, sig, x, cap, s1, s2);
    assert size <= s1 <==> size <= x && size <= p.cfg.maxPositionUSD;
  }

  lemma CapsInTurn(p: Policy, sig: Signal, x: real, cap: real, s1: real, s2: real)
    requires Sound(p) && cap == sig.capacityUSD * p.cfg.capacityFrac
    requires s1 == Min(x, p.cfg.maxPositionUSD) && s2 == if sig.capacityUSD > 0.0 then Min(s1, cap) else s1
    ensures CappedSize(p, sig, x) == if sig.sizeUSD > 0.0 && p.cfg.sizingMode != FRAC_KELLY then Min(s2, sig.sizeUSD) else s2
  {
  }

  lemma RawSizeIgnoresRoll(p: Policy, b: Book, sig: Signal)
    ensures RawSize(p, Roll(b, sig.at), sig) == RawSize(p, b, sig)
  {
    RollFacts(b, sig.at);
  }

  lemma JudgeByCaps(p: Policy, b: Book, sig: Signal)
    ensures var d, size := Judge(p, b, sig), CappedSize(p, sig, RawSize(p, b, sig));
      var room := p.cfg.maxGrossUSD - Gross(b.positions);
      && (d.accept <==> Welcome(p, b, sig) && p.cfg.minSizeUSD <= size && p.cfg.minSizeUSD <= room)
      && (d.accept ==> d.sizeUSD == Min(size, room))
  {
    RollFacts(b, sig.at);
    RawSizeIgnoresRoll(p, b, sig);
  }

  /** A signal is accepted exactly when it is welcome and the smallest size is asked for and allowed, and
      then gets the greatest allowed size that is not more than was asked for. */
  lemma AcceptsExactly(p: Policy, b: Book, sig: Signal, x: real)
    requires Sound(p) && Asks(p, b, sig, x)
    ensures var d := Judge(p, b, sig);
      && (d.accept <==> Welcome(p, b, sig) && Grants(p, b, sig, x, p.cfg.minSizeUSD))
      && (d.accept ==> Grants(p, b, sig, x, d.sizeUSD))
      && (d.accept ==> forall size :: Grants(p, b, sig, x, size) ==> size <= d.sizeUSD)
  {
    RawSizeIsAsked(p, b, sig, x);
    JudgeByCaps(p, b, sig);
    GrantsUpToCap(p, b, sig, x, p.cfg.minSizeUSD);
    GrantsUpToCap(p, b, sig, x, Judge(p, b, sig).sizeUSD);
    forall size | Grants(p, b, sig, x, size)
      ensures size <= Min(CappedSize(p, sig, x), p.cfg.maxGrossUSD - Gross(b.positions))
    {
      GrantsUpToCap(p, b, sig, x, size);
    }
  }

  /** The decision is the one the asked-for size, the caps and the state of the book call for. */
  ghost predicate IsDecision(p: Policy, b: Book, sig: Signal, d: Decision) {
    exists x ::
      && Asks(p, b, sig, x)
      && (d.accept <==> Welcome(p, b, sig) && Grants(p, b, sig, x, p.cfg.minSizeUSD))
      && (d.accept ==> Grants(p, b, sig, x, d.sizeUSD))
      && (d.accept ==> forall size :: Grants(p, b, sig, x, size) ==> size <= d.sizeUSD)
  }

  lemma JudgeIsDecision(p: Policy, b: Book, sig: Signal)
    requires Sound(p)
    ensures IsDecision(p, b, sig, Judge(p, b, sig))
  {
    RawSizeIsAsked(p, b, sig, RawSize(p, b, sig));
    AcceptsExactly(p, b, sig, RawSize(p, b, sig));
  }

  /** The greatest size that is asked for and allowed before the open positions are looked at. */
  ghost predicate IsSize(p: Policy, b: Book, sig: Signal, size: real) {
    exists x :: Asks(p, b, sig, x) && forall s :: s <= x && AllowsAlone(p, sig, s) <==> s <= size
  }

  lemma CappedIsSize(p: Policy, b: Book, sig: Signal)
    requires Sound(p)
    ensures IsSize(p, b, sig, CappedSize(p, sig, RawSize(p, b, sig)))
  {
    var x := RawSize(p, b, sig);
    RawSizeIsAsked(p, b, sig, x);
    forall s ensures s <= x && AllowsAlone(p, sig, s) <==> s <= CappedSize(p, sig, x) {
      UpToCap(p, sig, x, s);
    }
  }

  // ---------------------------------------------------------------- fractional Kelly

  predicate UsesKelly(c: Config) {
    c.sizingMode != SIGNAL_SIZE && c.sizingMode != VOL_TARGET
  }

  /** Fractional Kelly accepts nothing without an expected gain, or without equity. */
  lemma KellyNeedsAdvantage(p: Policy, b: Book, sig: Signal)
    requires Sound(p) && UsesKelly(p.cfg) && Judge(p, b, sig).accept
    ensures Prod(p.cfg.kellyP, p.cfg.kellyB) > 1.0 - p.cfg.kellyP && b.equity > 0.0
  {
    var share := OwnShare(p.cfg, Counted(sig.conviction));
    var x := Prod(b.equity, LowerShare(p.cfg, sig, share));
    OwnShareIsBet(p.cfg, sig.conviction);
    AcceptsExactly(p, b, sig, x);
    SharesArePositive(p.cfg, sig, share);
    PositiveProduct(b.equity, LowerShare(p.cfg, sig, share));
  }

  lemma SharesArePositive(c: Config, sig: Signal, share: real)
    requires Usable(c) && IsKellyBet(c, sig.conviction, share)
    ensures 0.0 <= LowerShare(c, sig, share) <= share
    ensures Advantage(c) == 0.0 ==> share == 0.0
  {
    ProdPositive(c.kellyFraction, Counted(sig.conviction));
    ProdPositive(Prod(c.kellyFraction, Counted(sig.conviction)), Advantage(c));
    ProdCommutes(share, c.kellyB);
    ProdPositive(c.kellyB, share);
    if sig.kelly.Some? {
      ProdPositive(c.kellyFraction, sig.kelly.value);
    }
  }

  lemma PositiveProduct(a: real, b: real)
    requires b >= 0.0 && Prod(a, b) > 0.0
    ensures a > 0.0 && b > 0.0
  {
    if b > 0.0 {
      ProdCommutes(a, b);
      ProdPositive(b, a);
    } else {
      ProdUnits(a);
    }
  }

  lemma EdgesCompare(p1: real, b1: real, p2: real, b2: real)
    requires 0.0 < p1 <= p2 < 1.0 && 0.0 < b1 <= b2
    ensures Prod(Prod(p1, b1) - (1.0 - p1), b2) <= Prod(Prod(p2, b2) - (1.0 - p2), b1)
  {
    var both, q1, q2 := b1 * b2, 1.0 - p1, 1.0 - p2;
    ProdMonotone(p1, p2, both);
    ProdMonotone(q2, q1, b1);
    ProdGrows(q1, b1, b2);
    assert Prod(Prod(p1, b1) - q1, b2) == Prod(p1, both) - Prod(q1, b2);
    assert Prod(Prod(p2, b2) - q2, b1) == Prod(p2, both) - Prod(q2, b1);
  }

  lemma AdvantagesCompare(c: Config, d: Config)
    requires Usable(c) && Usable(d) && c.kellyP <= d.kellyP && c.kellyB <= d.kellyB
    ensures Advantage(c) >= 0.0 && Advantage(d) >= 0.0
    ensures Prod(Advantage(c), d.kellyB) <= Prod(Advantage(d), c.kellyB)
  {
    EdgesCompare(c.kellyP, c.kellyB, d.kellyP, d.kellyB);
    ProdCommutes(Advantage(d), c.kellyB);
    ProdPositive(c.kellyB, Advantage(d));
    ProdCommutes(Advantage(c), d.kellyB);
    ProdUnits(d.kellyB);
    if Advantage(c) > 0.0 && Advantage(d) == 0.0 {
      ProdPositive(d.kellyB, Advantage(c));
      ProdPositive(c.kellyB, -(Prod(d.kellyP, d.kellyB) - (1.0 - d.kellyP)));
      NegatedProduct(Prod(d.kellyP, d.kellyB) - (1.0 - d.kellyP), c.kellyB);
    }
  }

  lemma NegatedProduct(a: real, b: real)
    ensures Prod(b, -a) == -Prod(a, b)
  {
  }

  /** Shares over payoffs compare like their numerators. */
  lemma SharesCompare(s: real, w1: real, a1: real, b1: real, t: real, w2: real, a2: real, b2: real)
    requires b1 > 0.0 && b2 > 0.0 && 0.0 <= w1 <= w2 && 0.0 <= a1 && 0.0 <= a2
    requires Prod(s, b1) == Prod(w1, a1) && Prod(t, b2) == Prod(w2, a2)
    requires Prod(a1, b2) <= Prod(a2, b1)
    ensures s <= t
  {
    var both, x1, x2 := b1 * b2, Prod(a1, b2), Prod(a2, b1);
    ProdPositive(b1, b2);
    ProdCommutes(a1, b2);
    ProdPositive(b2, a1);
    ProdMonotone(w1, w2, x1);
    if w2 > 0.0 {
      ProdGrows(w2, x1, x2);
    }
    Cleared(s, w1, a1, b1, b2);
    Cleared(t, w2, a2, b2, b1);
    ProdGrows(both, s, t);
  }

  lemma Cleared(s: real, w: real, a: real, b: real, other: real)
    requires Prod(s, b) == Prod(w, a)
    ensures Prod(b * other, s) == Prod(w, Prod(a, other)) && Prod(other * b, s) == Prod(w, Prod(a, other))
  {
    assert Prod(Prod(s, b), other) == Prod(Prod(w, a), other);
  }

  /** The fractional Kelly share never falls as win probability, payoff or a stated conviction rises. */
  lemma KellyBetGrows(c: Config, d: Config, v1: real, v2: real, s: real, t: real)
    requires Usable(c) && Usable(d) && c.kellyFraction == d.kellyFraction
    requires c.kellyP <= d.kellyP && c.kellyB <= d.kellyB && (v1 == v2 || 0.0 < v1 <= v2)
    requires IsKellyBet(c, v1, s) && IsKellyBet(d, v2, t)
    ensures s <= t
  {
    AdvantagesCompare(c, d);
    ProdGrows(c.kellyFraction, Counted(v1), Counted(v2));
    ProdPositive(c.kellyFraction, Counted(v1));
    SharesCompare(s, Prod(c.kellyFraction, Counted(v1)), Advantage(c), c.kellyB,
                  t, Prod(d.kellyFraction, Counted(v2)), Advantage(d), d.kellyB);
  }

  /** Nor does the accepted size, nor the acceptance. */
  lemma KellySizeGrows(p: Policy, q: Policy, b: Book, sig: Signal, conviction: real)
    requires Sound(p) && Sound(q) && UsesKelly(p.cfg)
    requires q == p.(cfg := p.cfg.(kellyP := q.cfg.kellyP, kellyB := q.cfg.kellyB))
    requires p.cfg.kellyP <= q.cfg.kellyP && p.cfg.kellyB <= q.cfg.kellyB
    requires sig.conviction == conviction || 0.0 < sig.conviction <= conviction
    requires Judge(p, b, sig).accept
    ensures var d := Judge(q, b, sig.(conviction := conviction)); d.accept && Judge(p, b, sig).sizeUSD <= d.sizeUSD
  {
    var more := sig.(conviction := conviction);
    var s, t := OwnShare(p.cfg, Counted(sig.conviction)), OwnShare(q.cfg, Counted(conviction));
    var x, y := Prod(b.equity, LowerShare(p.cfg, sig, s)), Prod(b.equity, LowerShare(q.cfg, more, t));
    OwnShareIsBet(p.cfg, sig.conviction);
    OwnShareIsBet(q.cfg, conviction);
    KellyBetGrows(p.cfg, q.cfg, sig.conviction, conviction, s, t);
    KellyNeedsAdvantage(p, b, sig);
    ProdGrows(b.equity, LowerShare(p.cfg, sig, s), LowerShare(q.cfg, more, t));
    AcceptsExactly(p, b, sig, x);
    AcceptsExactly(q, b, more, y);
    assert Grants(q, b, more, y, Judge(p, b, sig).sizeUSD);
  }

  /** A new manager under the default configuration gives a complete signal without limits of its own 250
      dollars at full conviction, and in proportion below it. */
  lemma DefaultSize(p: Policy, sig: Signal)
    requires p.cfg == DEFAULTS && p.annualRoot > 0.0
    requires sig.condition != "" && sig.side == "BUY" && sig.sizeUSD == 0.0 && sig.capacityUSD == 0.0 && sig.kelly == None
    requires 0.01 <= sig.conviction <= 1.0
    ensures Judge(p, Opening(p), sig).accept && Judge(p, Opening(p), sig).sizeUSD == 250.0 * sig.conviction
  {
    DefaultAsk(p, sig);
    assert Gross(map[]) == 0.0;
    AcceptsExactly(p, Opening(p), sig, 250.0 * sig.conviction);
    assert Grants(p, Opening(p), sig, 250.0 * sig.conviction, 250.0 * sig.conviction);
  }

  lemma DefaultAsk(p: Policy, sig: Signal)
    requires p.cfg == DEFAULTS && p.annualRoot > 0.0 && sig.kelly == None
    ensures Sound(p) && UsesKelly(p.cfg)
    ensures Asks(p, Opening(p), sig, 250.0 * Counted(sig.conviction))
  {
    assert DEFAULTS.sizingMode[0] == 'f' && SIGNAL_SIZE[0] == 's' && VOL_TARGET[0] == 'v';
    assert IsKellyBet(p.cfg, sig.conviction, 0.025 * Counted(sig.conviction));
  }

  /** A conviction that is not stated counts as one half, so stating a low one lowers the size. */
  lemma StatedConvictionCanLowerSize(p: Policy, sig: Signal)
    requires p.cfg == DEFAULTS && p.annualRoot > 0.0
    requires sig.condition != "" && sig.side == "BUY" && sig.sizeUSD == 0.0 && sig.capacityUSD == 0.0 && sig.kelly == None
    requires sig.conviction == 0.0
    ensures Judge(p, Opening(p), sig).sizeUSD == 125.0
    ensures Judge(p, Opening(p), sig.(conviction := 0.1)).sizeUSD == 25.0
  {
    DefaultAsk(p, sig);
    assert Gross(map[]) == 0.0;
    AcceptsExactly(p, Opening(p), sig, 125.0);
    assert Grants(p, Opening(p), sig, 125.0, 125.0);
    DefaultSize(p, sig.(conviction := 0.1));
  }

  // ---------------------------------------------------------------- reasons

  ghost predicate Complete(sig: Signal) {
    sig.condition != "" && (sig.side == "BUY" || sig.side == "SELL")
  }

  /** Every reason, exactly: the first that applies in this order. */
  lemma ReasonsExactly(p: Policy, b: Book, sig: Signal, x: real)
    requires Sound(p) && Asks(p, b, sig, x)
    ensures var d, trades := Judge(p, b, sig), Complete(sig) && TradesAt(b, sig.at);
      var small := !(p.cfg.minSizeUSD <= x && AllowsAlone(p, sig, p.cfg.minSizeUSD));
      && (d.reason == InvalidSignal <==> !Complete(sig))
      && (d.reason == DDHalt <==> Complete(sig) && b.state == HaltedDD)
      && (d.reason == DayHalt <==> Complete(sig) && b.state == HaltedDay && !TradesAt(b, sig.at))
      && (d.reason == AlreadyOpen <==> trades && sig.condition in b.positions)
      && (d.reason == MaxPositions <==> trades && sig.condition !in b.positions && |b.positions| >= p.cfg.maxPositions)
      && (d.reason == SizeZero <==> Welcome(p, b, sig) && small)
      && (d.reason == MaxGross <==> Welcome(p, b, sig) && !small && !d.accept)
      && (d.reason == ReasonOK <==> d.accept)
  {
    RawSizeIsAsked(p, b, sig, x);
    UpToCap(p, sig, x, p.cfg.minSizeUSD);
    RollFacts(b, sig.at);
    RawSizeIgnoresRoll(p, b, sig);
  }
}
