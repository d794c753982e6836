/** When the risk manager (`internal/risk/manager.go`) halts, on the equity values themselves: the start
    and the gains booked so far. */
module Halts {
  import opened Products
  import opened RiskConfig
  import opened RiskBook

  lemma LossExactly(from: real, to: real, limit: real)
    requires limit > 0.0
    ensures LossBps(from, to) >= limit <==> from > 0.0 && Prod(limit, from) <= 10000.0 * (from - to)
  {
    if from > 0.0 {
      ProdQuotient(from, from - to);
      ProdCommutes(limit, from);
      ProdGrows(from, limit / 10000.0, (from - to) / from);
      ScaledProduct(from, limit);
      assert (from - to) / from * 10000.0 >= limit <==> limit / 10000.0 <= (from - to) / from;
    }
  }

  lemma ScaledProduct(a: real, b: real)
    ensures Prod(a, b / 10000.0) * 10000.0 == Prod(a, b)
  {
  }

  /** The day of an instant is its UTC midnight. */
  lemma DayIsMidnight(t: int)
    ensures DayOf(t) % DAY == 0 && DayOf(t) <= t < DayOf(t) + DAY
  {
  }

  /** One booked gain: the final halt is on afterwards if it was on or the fall from the highest equity
      reaches its limit; the daily halt if not that, and it was on that day or the fall since the
      day's first equity reaches its own. */
  lemma GainHaltsExactly(p: Policy, b: Book, pnl: real, at: int)
    requires Sound(p) && HaltsInForce(p, b)
    ensures var after, rolled := ApplyPnL(p, b, pnl, at), Roll(b, at);
      var e, high, open := b.equity + pnl, (if b.equity + pnl > b.peak then b.equity + pnl else b.peak), rolled.dayOpen;
      var fell := high > 0.0 && Prod(p.cfg.maxDrawdownBps, high) <= 10000.0 * (high - e);
      var fellToday := open > 0.0 && Prod(p.cfg.maxDailyDrawdownBps, open) <= 10000.0 * (open - e);
      && after.equity == e && after.peak == high && after.dayOpen == open && after.day == rolled.day
      && (after.state == HaltedDD <==> b.state == HaltedDD || fell)
      && (after.state == HaltedDay <==> b.state != HaltedDD && !fell && (rolled.state == HaltedDay || fellToday))
  {
    var settled := Settle(Roll(b, at), pnl);
    LossExactly(settled.peak, settled.equity, p.cfg.maxDrawdownBps);
    LossExactly(settled.dayOpen, settled.equity, p.cfg.maxDailyDrawdownBps);
  }

  /** The day's first equity: a dated call on a later UTC day than the last one starts a day at the equity
      it finds, and ends a daily halt. */
  lemma DayStartsExactly(b: Book, at: int)
    ensures var r := Roll(b, at);
      var starts := at != NO_TIME && (b.day == NO_TIME || at >= DayOf(at) > b.day);
      && r == b.(day := r.day, dayOpen := r.dayOpen, state := r.state)
      && (starts ==> r.day == DayOf(at) && r.dayOpen == b.equity)
      && (!starts ==> r == b)
      && (r.state != b.state ==> b.state == HaltedDay && r.state == Ok && starts && b.day != NO_TIME)
      && (starts && b.day != NO_TIME ==> r.state != HaltedDay)
  {
    DayIsMidnight(at);
  }

  /** A recorded return comes last, after the most recent ones before it, 500 in all. */
  lemma RecordKeepsLatest(b: Book, r: real)
    ensures var before, after := b.rets, RecordReturn(b, r).rets;
      var kept := |after| - 1;
      && kept == (if |before| < 500 then |before| else 499) && after[kept] == r
      && after[..kept] == before[|before| - kept..]
      && RecordReturn(b, r) == b.(rets := after)
  {
  }

  // ---------------------------------------------------------------- over runs

  /** The equity after the first `k` calls. */
  ghost function EquityAfter(p: Policy, ops: seq<Op>, k: nat): real
    requires k <= |ops|
  {
    p.cfg.startingEquity + SumGains(ops[..k])
  }

  /** After `k` calls equity has fallen from its highest value so far, reached after `j`, by the limit. */
  ghost predicate FellToLimit(p: Policy, ops: seq<Op>, j: nat, k: nat)
    requires j <= k <= |ops|
  {
    && (forall i :: 0 <= i <= k ==> EquityAfter(p, ops, i) <= EquityAfter(p, ops, j))
    && Prod(p.cfg.maxDrawdownBps, EquityAfter(p, ops, j)) <= 10000.0 * (EquityAfter(p, ops, j) - EquityAfter(p, ops, k))
  }

  lemma EquityOfPrefix(p: Policy, ops: seq<Op>, i: nat, k: nat)
    requires i <= k <= |ops|
    ensures Run(p, ops[..k][..i]).equity == EquityAfter(p, ops, i)
  {
    assert ops[..k][..i] == ops[..i];
    EquityIsStartPlusGains(p, ops[..i]);
  }

  lemma PeakAfter(p: Policy, ops: seq<Op>, k: nat) returns (j: nat)
    requires Sound(p) && k <= |ops|
    ensures j <= k && Run(p, ops[..k]).peak == EquityAfter(p, ops, j) > 0.0
    ensures forall i :: 0 <= i <= k ==> EquityAfter(p, ops, i) <= EquityAfter(p, ops, j)
  {
    PeakIsRunningMaximum(p, ops[..k]);
    forall i | 0 <= i <= k ensures Run(p, ops[..k][..i]).equity == EquityAfter(p, ops, i) {
      EquityOfPrefix(p, ops, i, k);
    }
    j :| 0 <= j <= k && Run(p, ops[..k][..j]).equity == Run(p, ops[..k]).peak;
    assert EquityAfter(p, ops, 0) == p.cfg.startingEquity;
  }

  lemma DrawdownAfter(p: Policy, ops: seq<Op>, k: nat)
    requires Sound(p) && k <= |ops|
    ensures Drawdown(Run(p, ops[..k])) >= p.cfg.maxDrawdownBps <==> exists j: nat :: j <= k && FellToLimit(p, ops, j, k)
  {
    var top := PeakAfter(p, ops, k);
    EquityOfPrefix(p, ops, k, k);
    assert ops[..k][..k] == ops[..k];
    LossExactly(Run(p, ops[..k]).peak, Run(p, ops[..k]).equity, p.cfg.maxDrawdownBps);
    assert Drawdown(Run(p, ops[..k])) >= p.cfg.maxDrawdownBps <==> FellToLimit(p, ops, top, k);
    forall j: nat | j <= k && FellToLimit(p, ops, j, k) ensures FellToLimit(p, ops, top, k) {
      assert EquityAfter(p, ops, j) == EquityAfter(p, ops, top);
    }
  }

  /** The manager is finally halted exactly when equity at some point fell from its highest value so far by
      the limit. */
  lemma FinalHaltExactly(p: Policy, ops: seq<Op>)
    requires Sound(p)
    ensures Run(p, ops).state == HaltedDD <==> exists j: nat, k: nat :: j <= k <= |ops| && FellToLimit(p, ops, j, k)
  {
    HaltedDDExactly(p, ops);
    forall k | 0 <= k <= |ops|
      ensures Drawdown(Run(p, ops[..k])) >= p.cfg.maxDrawdownBps <==> exists j: nat :: j <= k && FellToLimit(p, ops, j, k)
    {
      DrawdownAfter(p, ops, k);
    }
  }
}
