/** The paper-trading risk manager (`internal/risk/manager.go`) as a state machine: what each call
    does to the book, and what every run of calls keeps. Times are nanoseconds since Go's zero time,
    so 0 is "no time" and a UTC day starts at a multiple of DAY. */
module RiskBook {
  import opened Basics
  import opened RiskConfig
  import opened Totals

  datatype State = Ok | HaltedDay | HaltedDD

  datatype Reason = ReasonOK | InvalidSignal | DayHalt | DDHalt | AlreadyOpen | MaxPositions | SizeZero | MaxGross

  datatype Signal = Signal(
    at: int,
    condition: string,
    side: string,
    sizeUSD: real,
    edgeBps: real,
    conviction: real,
    capacityUSD: real,
    urgency: real,
    kelly: Option<real>)

  datatype Position = Position(condition: string, sizeUSD: real)

  datatype Decision = Decision(
    accept: bool, sizeUSD: real, reason: Reason, kelly: real, scale: real, opportunity: real)

  datatype Book = Book(
    equity: real,
    peak: real,
    dayOpen: real,
    day: int,
    state: State,
    positions: map<string, Position>,
    rets: seq<real>)

  /** A configuration with the two square roots the code takes as parameters: the deviation of a
      window of rets, and the root of 252 trading days. */
  datatype Policy = Policy(cfg: Config, stdev: seq<real> -> real, annualRoot: real)

  ghost predicate Sound(p: Policy) {
    Usable(p.cfg) && p.annualRoot > 0.0
  }

  const NO_TIME: int := 0
  const DAY: int := 86400 * 1000000000
  const TINY: real := 0.000000000001

  function Opening(p: Policy): Book {
    Book(p.cfg.startingEquity, p.cfg.startingEquity, p.cfg.startingEquity, NO_TIME, Ok, map[], [])
  }

  // ---------------------------------------------------------------- drawdowns and halts

  function LossBps(from: real, to: real): real {
    if from <= 0.0 then 0.0 else
    var dd := (from - to) / from * 10000.0;
    if dd < 0.0 then 0.0 else dd
  }

  function Drawdown(b: Book): real {
    LossBps(b.peak, b.equity)
  }

  function DailyDrawdown(b: Book): real {
    LossBps(b.dayOpen, b.equity)
  }

  /** The first instant of the UTC day of `t`. */
  function DayOf(t: int): int {
    t - t % DAY
  }

  function Roll(b: Book, t: int): Book {
    if t == NO_TIME then b
    else if b.day == NO_TIME then b.(day := DayOf(t), dayOpen := b.equity)
    else if DayOf(t) > b.day then
      b.(day := DayOf(t), dayOpen := b.equity, state := if b.state == HaltedDay then Ok else b.state)
    else b
  }

  function CheckHalts(p: Policy, b: Book): Book {
    if p.cfg.maxDrawdownBps > 0.0 && Drawdown(b) >= p.cfg.maxDrawdownBps then b.(state := HaltedDD)
    else if p.cfg.maxDailyDrawdownBps > 0.0 && DailyDrawdown(b) >= p.cfg.maxDailyDrawdownBps && b.state != HaltedDD
      then b.(state := HaltedDay)
    else b
  }

  function Settle(b: Book, pnl: real): Book {
    b.(equity := b.equity + pnl, peak := if b.equity + pnl > b.peak then b.equity + pnl else b.peak)
  }

  function ApplyPnL(p: Policy, b: Book, pnl: real, at: int): Book {
    CheckHalts(p, Settle(Roll(b, at), pnl))
  }

  // ---------------------------------------------------------------- sizing

  function LastOf(rets: seq<real>, n: nat): seq<real> {
    if |rets| > n then rets[|rets| - n..] else rets
  }

  function VolScale(p: Policy, b: Book): real {
    if p.cfg.volLookback <= 1 || |b.rets| < 2 then 1.0 else
    var sd := p.stdev(LastOf(b.rets, p.cfg.volLookback));
    if sd < TINY || p.annualRoot == 0.0 then 1.0 else Clamp(p.cfg.volTargetAnn / p.annualRoot / sd, 0.1, 3.0)
  }

  function Conviction(sig: Signal): real {
    var conv := Clamp(sig.conviction, 0.0, 1.0);
    if conv == 0.0 then 0.5 else conv
  }

  /** The full Kelly share of the equity, nothing when the odds are bad. */
  function FullKelly(c: Config): real
    requires c.kellyB != 0.0
  {
    var fStar := (c.kellyP * c.kellyB - (1.0 - c.kellyP)) / c.kellyB;
    if fStar < 0.0 then 0.0 else fStar
  }

  function KellyShare(p: Policy, sig: Signal): real {
    if p.cfg.kellyB == 0.0 then 0.0 else
    var kelly := p.cfg.kellyFraction * FullKelly(p.cfg) * Conviction(sig);
    if sig.kelly.Some? && sig.kelly.value > 0.0 && p.cfg.kellyFraction * sig.kelly.value < kelly
      then p.cfg.kellyFraction * sig.kelly.value
    else kelly
  }

  /** The size a sizing mode asks for, before any cap. */
  function RawSize(p: Policy, b: Book, sig: Signal): real {
    if p.cfg.sizingMode == SIGNAL_SIZE then
      Positive(sig.sizeUSD, p.cfg.minSizeUSD) * (0.25 + 0.75 * Conviction(sig))
    else if p.cfg.sizingMode == VOL_TARGET then
      Positive(sig.sizeUSD, p.cfg.maxPositionUSD * 0.1) * VolScale(p, b) * (0.25 + 0.75 * Conviction(sig))
    else
      b.equity * KellyShare(p, sig)
  }

  /** Position cap, then the stated capacity, then (outside fractional Kelly) the signal's own size. */
  function CappedSize(p: Policy, sig: Signal, raw: real): real {
    var s1 := Min(raw, p.cfg.maxPositionUSD);
    var s2 := if sig.capacityUSD > 0.0 && p.cfg.capacityFrac > 0.0 then Min(s1, sig.capacityUSD * p.cfg.capacityFrac) else s1;
    if sig.sizeUSD > 0.0 && p.cfg.sizingMode != FRAC_KELLY then Min(s2, sig.sizeUSD) else s2
  }

  // ---------------------------------------------------------------- exposure

  function AbsSize(p: Position): real {
    Abs(p.sizeUSD)
  }

  /** Total absolute size of the open positions. */
  ghost function Gross(ps: map<string, Position>): real {
    Total(AbsSize, ps)
  }

  // ---------------------------------------------------------------- accepting a signal

  ghost function Judge(p: Policy, b: Book, sig: Signal): Decision {
    var opp := OpportunityScore(p.cfg, sig.edgeBps, sig.conviction, sig.urgency);
    var no := Decision(false, 0.0, ReasonOK, 0.0, 1.0, opp);
    if sig.condition == "" || (sig.side != "BUY" && sig.side != "SELL") then no.(reason := InvalidSignal) else
    var b1 := Roll(b, sig.at);
    if b1.state == HaltedDD then no.(reason := DDHalt)
    else if b1.state == HaltedDay then no.(reason := DayHalt)
    else if sig.condition in b1.positions then no.(reason := AlreadyOpen)
    else if |b1.positions| >= p.cfg.maxPositions then no.(reason := MaxPositions)
    else
      var kelly := if p.cfg.sizingMode == SIGNAL_SIZE || p.cfg.sizingMode == VOL_TARGET then 0.0 else KellyShare(p, sig);
      var scale := if p.cfg.sizingMode == VOL_TARGET then VolScale(p, b1) else 1.0;
      var sized := no.(kelly := kelly, scale := scale);
      var size := CappedSize(p, sig, RawSize(p, b1, sig));
      var room := p.cfg.maxGrossUSD - Gross(b1.positions);
      if size < p.cfg.minSizeUSD then sized.(reason := SizeZero)
      else if Min(size, room) < p.cfg.minSizeUSD then sized.(reason := MaxGross)
      else sized.(accept := true, sizeUSD := Min(size, room))
  }

  /** Judging a signal may roll the day, and changes nothing else. */
  function AfterJudging(b: Book, sig: Signal): Book {
    if sig.condition == "" || (sig.side != "BUY" && sig.side != "SELL") then b else Roll(b, sig.at)
  }

  /** An accepted size respects every cap, whatever the sizing mode. */
  lemma AcceptedSizeIsBounded(p: Policy, b: Book, sig: Signal)
    requires Sound(p) && Judge(p, b, sig).accept
    ensures p.cfg.minSizeUSD <= Judge(p, b, sig).sizeUSD <= p.cfg.maxPositionUSD
    ensures sig.capacityUSD > 0.0 ==> Judge(p, b, sig).sizeUSD <= sig.capacityUSD * p.cfg.capacityFrac
    ensures sig.sizeUSD > 0.0 && p.cfg.sizingMode != FRAC_KELLY ==> Judge(p, b, sig).sizeUSD <= sig.sizeUSD
    ensures Gross(b.positions) + Judge(p, b, sig).sizeUSD <= p.cfg.maxGrossUSD
    ensures |b.positions| < p.cfg.maxPositions && sig.condition !in b.positions
  {
    var raw := RawSize(p, Roll(b, sig.at), sig);
    CappedSizeIsBounded(p, sig, raw);
  }

  lemma CappedSizeIsBounded(p: Policy, sig: Signal, raw: real)
    requires Sound(p)
    ensures CappedSize(p, sig, raw) <= p.cfg.maxPositionUSD
    ensures sig.capacityUSD > 0.0 ==> CappedSize(p, sig, raw) <= sig.capacityUSD * p.cfg.capacityFrac
    ensures sig.sizeUSD > 0.0 && p.cfg.sizingMode != FRAC_KELLY ==> CappedSize(p, sig, raw) <= sig.sizeUSD
  {
  }

  // ---------------------------------------------------------------- runs

  datatype Op =
    | Accept(sig: Signal)
    | Open(pos: Position)
    | Close(condition: string, closePnl: real, closedAt: int)
    | PnL(pnl: real, at: int)
    | PeriodReturn(r: real)

  function RecordReturn(b: Book, r: real): Book {
    b.(rets := LastOf(b.rets + [r], 500))
  }

  function Step(p: Policy, b: Book, op: Op): Book {
    match op
    case Accept(sig) => AfterJudging(b, sig)
    case Open(pos) => b.(positions := b.positions[pos.condition := pos])
    case Close(condition, pnl, at) => ApplyPnL(p, b.(positions := b.positions - {condition}), pnl, at)
    case PnL(pnl, at) => ApplyPnL(p, b, pnl, at)
    case PeriodReturn(r) => RecordReturn(b, r)
  }

  /** The book after a run of calls on a new manager. */
  function Run(p: Policy, ops: seq<Op>): Book {
    if ops == [] then Opening(p) else Step(p, Run(p, ops[..|ops| - 1]), ops[|ops| - 1])
  }

  function Gain(op: Op): real {
    match op
    case Close(_, pnl, _) => pnl
    case PnL(pnl, _) => pnl
    case _ => 0.0
  }

  function SumGains(ops: seq<Op>): real {
    if ops == [] then 0.0 else SumGains(ops[..|ops| - 1]) + Gain(ops[|ops| - 1])
  }

  /** Equity is the starting equity plus every gain and loss so far. */
  lemma {:induction false} EquityIsStartPlusGains(p: Policy, ops: seq<Op>)
    ensures Run(p, ops).equity == p.cfg.startingEquity + SumGains(ops)
  {
    if ops != [] {
      EquityIsStartPlusGains(p, ops[..|ops| - 1]);
    }
  }

  lemma StepPeak(p: Policy, b: Book, op: Op)
    requires b.peak >= b.equity
    ensures var b' := Step(p, b, op); b'.peak == if b'.equity > b.peak then b'.equity else b.peak
  {
  }

  /** Peak equity is the maximum of all equity values of the run. */
  lemma {:induction false} PeakIsRunningMaximum(p: Policy, ops: seq<Op>)
    ensures forall k :: 0 <= k <= |ops| ==> Run(p, ops[..k]).equity <= Run(p, ops).peak
    ensures exists k :: 0 <= k <= |ops| && Run(p, ops[..k]).equity == Run(p, ops).peak
  {
    assert ops[..|ops|] == ops;
    if ops == [] {
      assert Run(p, ops[..0]).equity == Run(p, ops).peak;
    } else {
      var front := ops[..|ops| - 1];
      PeakIsRunningMaximum(p, front);
      assert forall k :: 0 <= k <= |front| ==> front[..k] == ops[..k];
      assert front[..|front|] == front;
      StepPeak(p, Run(p, front), ops[|ops| - 1]);
      var k :| 0 <= k <= |front| && Run(p, front[..k]).equity == Run(p, front).peak;
      assert Run(p, ops[..k]).equity == Run(p, front).peak;
      assert Run(p, ops[..|ops|]).equity == Run(p, ops).equity;
    }
  }

  /** What the halts keep: only a drawdown below the limit escapes the final halt, and only two
      drawdowns below their limits leave the book open. */
  ghost predicate HaltsInForce(p: Policy, b: Book) {
    && b.peak >= b.equity
    && (b.state != HaltedDD ==> Drawdown(b) < p.cfg.maxDrawdownBps)
    && (b.state == Ok ==> DailyDrawdown(b) < p.cfg.maxDailyDrawdownBps)
  }

  lemma LossAgainstSelf(x: real)
    ensures LossBps(x, x) == 0.0
  {
  }

  lemma RollKeepsHalts(p: Policy, b: Book, t: int)
    requires Sound(p) && HaltsInForce(p, b)
    ensures HaltsInForce(p, Roll(b, t))
    ensures Drawdown(Roll(b, t)) == Drawdown(b)
  {
    LossAgainstSelf(b.equity);
  }

  lemma StepKeepsHalts(p: Policy, b: Book, op: Op)
    requires Sound(p) && HaltsInForce(p, b)
    ensures HaltsInForce(p, Step(p, b, op))
    ensures b.state == HaltedDD ==> Step(p, b, op).state == HaltedDD
    ensures Step(p, b, op).state == HaltedDD && b.state != HaltedDD ==> Drawdown(Step(p, b, op)) >= p.cfg.maxDrawdownBps
  {
    match op
    case Accept(sig) => RollKeepsHalts(p, b, sig.at);
    case Open(pos) =>
    case Close(condition, pnl, at) => RollKeepsHalts(p, b.(positions := b.positions - {condition}), at);
    case PnL(pnl, at) => RollKeepsHalts(p, b, at);
    case PeriodReturn(r) =>
  }

  lemma {:induction false} RunKeepsHalts(p: Policy, ops: seq<Op>)
    requires Sound(p)
    ensures HaltsInForce(p, Run(p, ops))
  {
    if ops == [] {
      LossAgainstSelf(p.cfg.startingEquity);
    } else {
      RunKeepsHalts(p, ops[..|ops| - 1]);
      StepKeepsHalts(p, Run(p, ops[..|ops| - 1]), ops[|ops| - 1]);
    }
  }

  /** The book is finally halted exactly when some drawdown of the run reached the limit. */
  lemma {:induction false} HaltedDDExactly(p: Policy, ops: seq<Op>)
    requires Sound(p)
    ensures Run(p, ops).state == HaltedDD <==>
      exists k :: 0 <= k <= |ops| && Drawdown(Run(p, ops[..k])) >= p.cfg.maxDrawdownBps
  {
    assert ops[..|ops|] == ops;
    RunKeepsHalts(p, ops);
    if ops != [] {
      var front := ops[..|ops| - 1];
      HaltedDDExactly(p, front);
      RunKeepsHalts(p, front);
      StepKeepsHalts(p, Run(p, front), ops[|ops| - 1]);
      assert forall k :: 0 <= k <= |front| ==> front[..k] == ops[..k];
      if Run(p, front).state == HaltedDD {
        var k :| 0 <= k <= |front| && Drawdown(Run(p, front[..k])) >= p.cfg.maxDrawdownBps;
        assert Drawdown(Run(p, ops[..k])) >= p.cfg.maxDrawdownBps;
      } else if Run(p, ops).state == HaltedDD {
        assert Drawdown(Run(p, ops[..|ops|])) >= p.cfg.maxDrawdownBps;
      } else {
        forall k | 0 <= k <= |ops| ensures Drawdown(Run(p, ops[..k])) < p.cfg.maxDrawdownBps {
          if k < |ops| {
            assert front[..k] == ops[..k];
          }
        }
      }
    }
  }

  /** After the final halt no signal is ever accepted again. */
  lemma {:induction false} NothingAcceptedAfterDD(p: Policy, before: seq<Op>, after: seq<Op>, sig: Signal)
    requires Sound(p) && Run(p, before).state == HaltedDD
    ensures Run(p, before + after).state == HaltedDD
    ensures !Judge(p, Run(p, before + after), sig).accept
  {
    if after == [] {
      assert before + after == before;
    } else {
      var front := after[..|after| - 1];
      NothingAcceptedAfterDD(p, before, front, sig);
      assert (before + after)[..|before + after| - 1] == before + front;
      RunKeepsHalts(p, before + front);
      StepKeepsHalts(p, Run(p, before + front), after[|after| - 1]);
    }
  }

  /** A daily halt ends only on a strictly later UTC day, or by becoming the final halt. */
  lemma DayHaltEndsOnlyNextDay(p: Policy, b: Book, op: Op)
    requires b.state == HaltedDay && Step(p, b, op).state != HaltedDay
    ensures Step(p, b, op).state == HaltedDD || (Step(p, b, op).state == Ok && Step(p, b, op).day > b.day)
  {
  }

  /** Whatever run led here, an accepted signal finds both drawdowns below their limits. */
  lemma AcceptedMeansBelowLimits(p: Policy, ops: seq<Op>, sig: Signal)
    requires Sound(p) && Judge(p, Run(p, ops), sig).accept
    ensures Drawdown(Run(p, ops + [Accept(sig)])) < p.cfg.maxDrawdownBps
    ensures DailyDrawdown(Run(p, ops + [Accept(sig)])) < p.cfg.maxDailyDrawdownBps
  {
    assert (ops + [Accept(sig)])[..|ops|] == ops;
    RunKeepsHalts(p, ops + [Accept(sig)]);
  }

  // ---------------------------------------------------------------- exposure over runs

  /** Every open directly follows the call that accepted its condition and size. */
  ghost predicate Disciplined(p: Policy, ops: seq<Op>) {
    forall k :: 0 <= k < |ops| && ops[k].Open? ==> Authorised(p, ops, k)
  }

  ghost predicate Authorised(p: Policy, ops: seq<Op>, k: nat)
    requires k < |ops| && ops[k].Open?
  {
    && k > 0 && ops[k - 1].Accept?
    && ops[k - 1].sig.condition == ops[k].pos.condition
    && Judge(p, Run(p, ops[..k - 1]), ops[k - 1].sig).accept
    && Judge(p, Run(p, ops[..k - 1]), ops[k - 1].sig).sizeUSD == ops[k].pos.sizeUSD
  }

  ghost predicate WithinCaps(c: Config, ps: map<string, Position>) {
    && |ps| <= c.maxPositions
    && Gross(ps) <= c.maxGrossUSD
    && (forall id :: id in ps ==> c.minSizeUSD <= ps[id].sizeUSD <= c.maxPositionUSD)
  }

  lemma RemoveStaysWithinCaps(c: Config, ps: map<string, Position>, id: string)
    requires WithinCaps(c, ps)
    ensures WithinCaps(c, ps - {id})
  {
    if id in ps {
      TotalSplit(AbsSize, ps, id);
      assert ps.Keys == (ps - {id}).Keys + {id};
    } else {
      assert ps - {id} == ps;
    }
  }

  lemma AddStaysWithinCaps(c: Config, ps: map<string, Position>, id: string, pos: Position)
    requires WithinCaps(c, ps) && c.minSizeUSD > 0.0
    requires id !in ps && |ps| < c.maxPositions && Gross(ps) + pos.sizeUSD <= c.maxGrossUSD
    requires c.minSizeUSD <= pos.sizeUSD <= c.maxPositionUSD
    ensures WithinCaps(c, ps[id := pos])
  {
    TotalAdd(AbsSize, ps, id, pos);
    assert ps[id := pos].Keys == ps.Keys + {id};
  }

  lemma OpenStaysWithinCaps(p: Policy, b: Book, sig: Signal, pos: Position)
    requires Sound(p) && WithinCaps(p.cfg, b.positions) && Judge(p, b, sig).accept
    requires pos.condition == sig.condition && pos.sizeUSD == Judge(p, b, sig).sizeUSD
    ensures WithinCaps(p.cfg, b.positions[pos.condition := pos])
  {
    AcceptedSizeIsBounded(p, b, sig);
    AddStaysWithinCaps(p.cfg, b.positions, pos.condition, pos);
  }

  lemma PositionsAfter(p: Policy, b: Book, op: Op)
    ensures Step(p, b, op).positions ==
      match op
      case Open(pos) => b.positions[pos.condition := pos]
      case Close(condition, _, _) => b.positions - {condition}
      case _ => b.positions
  {
  }

  /** Over every disciplined run, the gross exposure, the number of positions and every position's
      size stay within the configured bounds. */
  lemma {:induction false} ExposureStaysWithinCaps(p: Policy, ops: seq<Op>)
    requires Sound(p) && Disciplined(p, ops)
    ensures WithinCaps(p.cfg, Run(p, ops).positions)
  {
    if ops != [] {
      var k := |ops| - 1;
      var front := ops[..k];
      DisciplinedPrefix(p, ops, k);
      ExposureStaysWithinCaps(p, front);
      PositionsAfter(p, Run(p, front), ops[k]);
      match ops[k]
      case Accept(sig) =>
      case Open(pos) =>
        assert Authorised(p, ops, k);
        assert front[..k - 1] == ops[..k - 1];
        PositionsAfter(p, Run(p, ops[..k - 1]), ops[k - 1]);
        OpenStaysWithinCaps(p, Run(p, ops[..k - 1]), ops[k - 1].sig, pos);
      case Close(condition, pnl, at) =>
        RemoveStaysWithinCaps(p.cfg, Run(p, front).positions, condition);
      case PnL(pnl, at) =>
      case PeriodReturn(r) =>
    }
  }

  lemma DisciplinedPrefix(p: Policy, ops: seq<Op>, n: nat)
    requires Disciplined(p, ops) && n <= |ops|
    ensures Disciplined(p, ops[..n])
  {
    forall k | 0 <= k < n && ops[k].Open? ensures Authorised(p, ops[..n], k) {
      assert Authorised(p, ops, k);
      assert ops[..n][..k - 1] == ops[..k - 1];
    }
  }
}
