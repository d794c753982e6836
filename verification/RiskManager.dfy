/** The manager object itself: fields updated in place, each method tied to its step on the book. */
module RiskManager {
  import opened Basics
  import opened RiskConfig
  import opened RiskBook
  import opened Sizing
  import opened Totals

  class Manager {
    const policy: Policy

    var equity: real
    var peakEquity: real
    var dayOpenEq: real
    var dayUTC: int
    var state: State
    var positions: map<string, Position>
    var periodReturns: seq<real>

    ghost function View(): Book
      reads this
    {
      Book(equity, peakEquity, dayOpenEq, dayUTC, state, positions, periodReturns)
    }

    constructor (cfg: Config, stdev: seq<real> -> real, annualRoot: real)
      ensures policy == Policy(Normalized(cfg), stdev, annualRoot)
      ensures View() == Opening(policy)
      ensures annualRoot > 0.0 ==> Sound(policy)
    {
      NormalizeRepairs(cfg);
      var c := Normalized(cfg);
      policy := Policy(c, stdev, annualRoot);
      equity, peakEquity, dayOpenEq := c.startingEquity, c.startingEquity, c.startingEquity;
      dayUTC, state, positions, periodReturns := NO_TIME, Ok, map[], [];
    }

    method GrossExposure() returns (g: real)
      ensures g == Gross(positions)
    {
      g := 0.0;
      var left := positions;
      while left != map[]
        invariant g + Gross(left) == Gross(positions)
        decreases left.Keys
      {
        var k :| k in left;
        TotalSplit(AbsSize, left, k);
        g := g + Abs(left[k].sizeUSD);
        left := left - {k};
      }
    }

    method MaybeRollDay(t: int)
      modifies this
      ensures View() == Roll(old(View()), t)
    {
      if t == NO_TIME {
        return;
      }
      var day := DayOf(t);
      if dayUTC == NO_TIME {
        dayUTC := day;
        dayOpenEq := equity;
        return;
      }
      if day > dayUTC {
        dayUTC := day;
        dayOpenEq := equity;
        if state == HaltedDay {
          state := Ok;
        }
      }
    }

    method Halt()
      modifies this
      ensures View() == CheckHalts(policy, old(View()))
    {
      if policy.cfg.maxDrawdownBps > 0.0 && LossBps(peakEquity, equity) >= policy.cfg.maxDrawdownBps {
        if state != HaltedDD {
          state := HaltedDD;
        }
        return;
      }
      if policy.cfg.maxDailyDrawdownBps > 0.0 && LossBps(dayOpenEq, equity) >= policy.cfg.maxDailyDrawdownBps {
        if state != HaltedDay && state != HaltedDD {
          state := HaltedDay;
        }
      }
    }

    method AddPnL(pnlUSD: real, at: int)
      modifies this
      ensures View() == ApplyPnL(policy, old(View()), pnlUSD, at)
    {
      MaybeRollDay(at);
      equity := equity + pnlUSD;
      if equity > peakEquity {
        peakEquity := equity;
      }
      Halt();
    }

    method OnOpen(p: Position)
      modifies this
      ensures View() == Step(policy, old(View()), Open(p))
    {
      positions := positions[p.condition := p];
    }

    method OnClose(condition: string, pnlUSD: real, at: int)
      modifies this
      ensures View() == Step(policy, old(View()), Close(condition, pnlUSD, at))
    {
      positions := positions - {condition};
      AddPnL(pnlUSD, at);
    }

    method RecordPeriodReturn(r: real)
      modifies this
      ensures View() == Step(policy, old(View()), PeriodReturn(r))
    {
      periodReturns := periodReturns + [r];
      if |periodReturns| > 500 {
        periodReturns := periodReturns[|periodReturns| - 500..];
      }
    }

    method AcceptSignal(sig: Signal) returns (d: Decision)
      modifies this
      ensures d == Judge(policy, old(View()), sig)
      ensures Sound(policy) ==> IsDecision(policy, old(View()), sig, d)
      ensures View() == Step(policy, old(View()), Accept(sig))
    {
      if Sound(policy) {
        JudgeIsDecision(policy, View(), sig);
      }
      d := Decision(false, 0.0, ReasonOK, 0.0, 1.0,
                    OpportunityScore(policy.cfg, sig.edgeBps, sig.conviction, sig.urgency));
      if sig.condition == "" || (sig.side != "BUY" && sig.side != "SELL") {
        return d.(reason := InvalidSignal);
      }
      MaybeRollDay(sig.at);
      if state == HaltedDD {
        return d.(reason := DDHalt);
      }
      if state == HaltedDay {
        return d.(reason := DayHalt);
      }
      if sig.condition in positions {
        return d.(reason := AlreadyOpen);
      }
      if |positions| >= policy.cfg.maxPositions {
        return d.(reason := MaxPositions);
      }
      var size, kelly, scale := ComputeSize(sig);
      d := d.(kelly := kelly, scale := scale);
      if size < policy.cfg.minSizeUSD {
        return d.(reason := SizeZero);
      }
      var gross := GrossExposure();
      var room := policy.cfg.maxGrossUSD - gross;
      if room < policy.cfg.minSizeUSD {
        return d.(reason := MaxGross);
      }
      if size > room {
        size := room;
      }
      if size < policy.cfg.minSizeUSD {
        return d.(reason := MaxGross);
      }
      d := d.(accept := true, sizeUSD := size);
    }

    method ComputeSize(sig: Signal) returns (size: real, kelly: real, scale: real)
      ensures size == CappedSize(policy, sig, RawSize(policy, View(), sig))
      ensures Sound(policy) ==> IsSize(policy, View(), sig, size)
      ensures kelly == if policy.cfg.sizingMode == SIGNAL_SIZE || policy.cfg.sizingMode == VOL_TARGET then 0.0
                       else KellyShare(policy, sig)
      ensures scale == if policy.cfg.sizingMode == VOL_TARGET then VolScale(policy, View()) else 1.0
    {
      size, kelly, scale := SizeByMode(sig);
      size := ApplyCaps(sig, size);
      if Sound(policy) {
        CappedIsSize(policy, View(), sig);
      }
    }

    method SizeByMode(sig: Signal) returns (size: real, kelly: real, scale: real)
      ensures size == RawSize(policy, View(), sig)
      ensures kelly == if policy.cfg.sizingMode == SIGNAL_SIZE || policy.cfg.sizingMode == VOL_TARGET then 0.0
                       else KellyShare(policy, sig)
      ensures scale == if policy.cfg.sizingMode == VOL_TARGET then VolScale(policy, View()) else 1.0
    {
      kelly, scale := 0.0, 1.0;
      var conv := Conviction(sig);
      if policy.cfg.sizingMode == SIGNAL_SIZE {
        size := sig.sizeUSD;
        if size <= 0.0 {
          size := policy.cfg.minSizeUSD;
        }
        size := size * (0.25 + 0.75 * conv);
      } else if policy.cfg.sizingMode == VOL_TARGET {
        size := sig.sizeUSD;
        if size <= 0.0 {
          size := policy.cfg.maxPositionUSD * 0.1;
        }
        scale := VolScale(policy, Book(equity, peakEquity, dayOpenEq, dayUTC, state, positions, periodReturns));
        size := size * scale;
        size := size * (0.25 + 0.75 * conv);
      } else {
        kelly := KellyShare(policy, sig);
        size := equity * kelly;
      }
    }

    method ApplyCaps(sig: Signal, raw: real) returns (size: real)
      ensures size == CappedSize(policy, sig, raw)
    {
      size := raw;
      if size > policy.cfg.maxPositionUSD {
        size := policy.cfg.maxPositionUSD;
      }
      if sig.capacityUSD > 0.0 && policy.cfg.capacityFrac > 0.0 {
        var cap := sig.capacityUSD * policy.cfg.capacityFrac;
        if size > cap {
          size := cap;
        }
      }
      if sig.sizeUSD > 0.0 && policy.cfg.sizingMode != FRAC_KELLY {
        if size > sig.sizeUSD {
          size := sig.sizeUSD;
        }
      }
    }
  }
}
