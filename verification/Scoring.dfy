/** Scoring a board candidate (`internal/edge/score.go`, `internal/edge/fv_negrisk.go`,
    `internal/edge/fv.go`): the neg-risk fair value, the cost-aware edge, and the policy that
    SelectBoard applies. The square root and the opportunity mix of the proxy path are parameters. */
module Scoring {
  import opened Basics
  import opened Cost
  import opened Board
  import opened Totals

  datatype Features = Features(
    condition: string,
    token: string,
    bestBid: real,
    bestAsk: real,
    mid: real,
    spreadBps: real,
    imbalance: real,
    bidDepth: real,
    askDepth: real,
    bookAgeSec: real,
    absRet1m: real,
    absRet5m: real,
    absRet1h: real,
    oneDayAbs: real,
    ttrHours: real,
    volumeProxy: real,
    negRisk: bool,
    groupId: string,
    featureAgeSec: real,
    missingBook: bool,
    thinBook: bool,
    stale: bool)

  datatype Weights = Weights(
    defaultTakerFeeBps: real,
    impactCapBps: real,
    impactCoeff: real,
    probeSizeUSD: real,
    modelBufferBps: real,
    maxFeatureAgeSec: real,
    minDepthShares: real,
    dropMissingBook: bool,
    stalePenaltyBps: real,
    fvEnabled: bool,
    fvMinConfidence: real,
    fvMinOtherLegs: int,
    dropExtremePrice: bool,
    extremeLo: real,
    extremeHi: real)

  /** What the model leaves open: the square root, and the opportunity of a candidate without fair value. */
  datatype Env = Env(root: real -> real, opportunity: Features -> real)

  datatype Candidate = Candidate(
    features: Features,
    groupMids: map<string, real>,
    knownGroupSize: int,
    negRiskFeeBips: real,
    takerFeeBps: real,
    tieBreak: real)

  function FillBookDerived(f: Features, minDepth: real): Features {
    if !ValidBook(f.bestBid, f.bestAsk) then f.(missingBook := true) else
    var mid := (f.bestBid + f.bestAsk) / 2.0;
    var total := f.bidDepth + f.askDepth;
    f.(missingBook := false, mid := mid,
       spreadBps := 10000.0 * (f.bestAsk - f.bestBid) / mid,
       imbalance := if total > 0.0 && f.imbalance == 0.0 then f.bidDepth / total else f.imbalance,
       thinBook := f.thinBook || total < Positive(minDepth, 10.0))
  }

  function Derived(w: Weights, f: Features): Features {
    if f.mid == 0.0 && !f.missingBook then FillBookDerived(f, w.minDepthShares) else f
  }

  predicate IsExtremeMid(mid: real, lo: real, hi: real) {
    mid > 0.0 && (mid < Positive(lo, 0.05) || mid > Positive(hi, 0.95))
  }

  // ---------------------------------------------------------------- neg-risk fair value

  const FV_LO := 0.01
  const FV_HI := 0.99

  datatype Quote = Quote(fairValue: real, confidence: real, incomplete: bool)

  function Itself(x: real): real { x }

  /** The mids of the other legs that count as observed. */
  function Others(self: string, mids: map<string, real>): map<string, real> {
    map id | id in mids && id != self && 0.0 < mids[id] < 1.0 :: mids[id]
  }

  function Confidence(coverage: real, sumAll: real, selfSeen: bool): real {
    var dev := Abs(sumAll - 1.0);
    var conf := if selfSeen && dev < 0.05 then Min(1.0, coverage + 0.15)
      else if selfSeen && dev > 0.25 then Max(0.0, coverage - 0.15)
      else coverage;
    if conf > 1.0 then 1.0 else conf
  }

  function KnownSize(stated: int, mids: nat, others: nat): (k: int)
    ensures k > 0
  {
    var known := if stated <= 0 then mids else stated;
    if known < others + 1 then others + 1 else known
  }

  /** NegRiskComplement.Quote: one minus the observed other mids, less a fee haircut, clamped. */
  ghost function QuoteOf(self: string, mids: map<string, real>, knownGroupSize: int, minOtherLegs: int,
                         feeScale: real, feeBips: real): Option<Quote> {
    var others := Others(self, mids);
    if self == "" || mids == map[] || |others| < (if minOtherLegs <= 0 then 1 else minOtherLegs) then None else
    var sum := Total(Itself, others);
    var fv := 1.0 - sum - (if feeScale > 0.0 && feeBips > 0.0 then feeBips / 10000.0 * feeScale else 0.0);
    var known := KnownSize(knownGroupSize, |mids|, |others|);
    var selfSeen := self in mids && mids[self] > 0.0;
    Some(Quote(Clamp(fv, FV_LO, FV_HI),
               Confidence((|others| + 1) as real / known as real, if selfSeen then sum + mids[self] else 0.0, selfSeen),
               known > |others| + 1))
  }

  method QuoteNegRisk(self: string, mids: map<string, real>, knownGroupSize: int, minOtherLegs: int,
                      feeScale: real, feeBips: real) returns (q: Option<Quote>)
    ensures q == QuoteOf(self, mids, knownGroupSize, minOtherLegs, feeScale, feeBips)
  {
    if self == "" || |mids| == 0 {
      return None;
    }
    var minOthers := if minOtherLegs <= 0 then 1 else minOtherLegs;
    var sumOthers, nOthers := SumOthers(self, mids);
    if nOthers < minOthers {
      return None;
    }
    var fv := 1.0 - sumOthers;
    if feeScale > 0.0 && feeBips > 0.0 {
      fv := fv - feeBips / 10000.0 * feeScale;
    }
    fv := Clamp(fv, FV_LO, FV_HI);
    var known := KnownSize(knownGroupSize, |mids|, nOthers);
    var coverage := (nOthers + 1) as real / known as real;
    var selfSeen := self in mids && mids[self] > 0.0;
    var conf := Confidence(coverage, if selfSeen then sumOthers + mids[self] else 0.0, selfSeen);
    return Some(Quote(fv, conf, known > nOthers + 1));
  }

  lemma VisitOther(self: string, left: map<string, real>, id: string)
    requires id in left
    ensures var counts := id != self && 0.0 < left[id] < 1.0;
      && Total(Itself, Others(self, left)) == Total(Itself, Others(self, left - {id})) + (if counts then left[id] else 0.0)
      && |Others(self, left)| == |Others(self, left - {id})| + (if counts then 1 else 0)
  {
    var all := Others(self, left);
    assert Others(self, left - {id}) == all - {id};
    if id in all {
      TotalSplit(Itself, all, id);
      assert all.Keys == (all - {id}).Keys + {id};
    } else {
      assert all - {id} == all;
    }
  }

  method SumOthers(self: string, mids: map<string, real>) returns (sum: real, n: nat)
    ensures sum == Total(Itself, Others(self, mids)) && n == |Others(self, mids)|
  {
    sum, n := 0.0, 0;
    var left := mids;
    assert Others(self, map[]) == map[];
    while left != map[]
      invariant sum + Total(Itself, Others(self, left)) == Total(Itself, Others(self, mids))
      invariant n + |Others(self, left)| == |Others(self, mids)|
      decreases left.Keys
    {
      var id :| id in left;
      var mid := left[id];
      VisitOther(self, left, id);
      left := left - {id};
      if id == self || mid <= 0.0 || mid >= 1.0 {
        continue;
      }
      sum := sum + mid;
      n := n + 1;
    }
  }

  /** The fair value the chain gives a candidate; the external provider never quotes here. */
  ghost function FairValue(w: Weights, c: Candidate): Option<real> {
    if !w.fvEnabled then None else
    var q := QuoteOf(c.features.condition, c.groupMids, c.knownGroupSize, w.fvMinOtherLegs, 0.0, c.negRiskFeeBips);
    if q.Some? && q.value.confidence >= MinConfidence(w) then Some(q.value.fairValue) else None
  }

  function MinConfidence(w: Weights): real {
    Positive(w.fvMinConfidence, 0.4)
  }

  // ---------------------------------------------------------------- score

  function CostFor(env: Env, w: Weights, c: Candidate, f: Features): CostBreakdown {
    var fee := if c.takerFeeBps <= 0.0 then (if w.defaultTakerFeeBps > 0.0 then w.defaultTakerFeeBps else 0.0)
      else c.takerFeeBps;
    CostOf(env.root, CostInput(f.bestBid, f.bestAsk, f.bidDepth, f.askDepth, [], w.probeSizeUSD, fee,
                               c.negRiskFeeBips, w.impactCapBps, w.impactCoeff))
  }

  function StalePenalty(w: Weights, f: Features): real {
    if f.stale || (w.maxFeatureAgeSec > 0.0 && f.featureAgeSec > w.maxFeatureAgeSec) then w.stalePenaltyBps else 0.0
  }

  /** Raw model edge: fair value against the book mid. */
  function ModelEdge(fv: real, mid: real): real {
    (fv - mid) * 10000.0
  }

  /** Score on the board policy's path: nothing for a dropped candidate, otherwise its edge. */
  ghost function Judge(env: Env, w: Weights, c: Candidate): Option<real> {
    var f := Derived(w, c.features);
    var cost := CostFor(env, w, c, f);
    if w.dropExtremePrice && !f.missingBook && IsExtremeMid(f.mid, w.extremeLo, w.extremeHi) then None
    else if f.missingBook || !cost.hasBook then
      if w.dropMissingBook then None else Some(env.opportunity(f) - cost.totalCostBps - 500.0)
    else if FairValue(w, c).Some? then
      Some(ModelEdge(FairValue(w, c).value, cost.mid) - cost.totalCostBps - Max(0.0, w.modelBufferBps) - StalePenalty(w, f))
    else
      Some(env.opportunity(f) - cost.totalCostBps - StalePenalty(w, f))
  }

  ghost function PolicyOf(env: Env, w: Weights): Policy<Candidate> {
    Policy((c: Candidate) => c.features.condition, (c: Candidate) => c.tieBreak, (c: Candidate) => Judge(env, w, c))
  }

  // ---------------------------------------------------------------- fully observed groups

  /** The confidence of a quote from a fully observed group: lowered only when the mids are far from
      summing to one. */
  function FullConfidence(sum: real): real {
    if Abs(sum - 1.0) > 0.25 then 0.85 else 1.0
  }

  /** A leg of a fully observed neg-risk group that the fair-value path scores: its book mid is the
      group's mid, every leg's mid is a proper price, and its quote is neither clamped nor refused. */
  ghost predicate IsLeg(w: Weights, group: map<string, real>, c: Candidate) {
    var f := Derived(w, c.features);
    && c.features.condition in group && c.features.condition != ""
    && c.groupMids == group && c.knownGroupSize <= |group|
    && (forall id :: id in group ==> 0.0 < group[id] < 1.0)
    && |group| > (if w.fvMinOtherLegs <= 0 then 1 else w.fvMinOtherLegs)
    && w.fvEnabled && MinConfidence(w) <= FullConfidence(Total(Itself, group))
    && ValidBook(f.bestBid, f.bestAsk) && !f.missingBook
    && (f.bestBid + f.bestAsk) / 2.0 == group[c.features.condition]
    && !(w.dropExtremePrice && IsExtremeMid(f.mid, w.extremeLo, w.extremeHi))
    && FV_LO <= 1.0 - (Total(Itself, group) - group[c.features.condition]) <= FV_HI
  }

  lemma OthersOfGroup(group: map<string, real>, self: string)
    requires self in group && forall id :: id in group ==> 0.0 < group[id] < 1.0
    ensures Others(self, group) == group - {self}
    ensures |Others(self, group)| == |group| - 1
    ensures Total(Itself, Others(self, group)) == Total(Itself, group) - group[self]
  {
    assert Others(self, group) == group - {self};
    assert group.Keys == (group - {self}).Keys + {self};
    TotalSplit(Itself, group, self);
  }

  /** In a fully observed group every leg has the same raw model edge: the group residual. */
  lemma EveryLegHasResidualEdge(w: Weights, group: map<string, real>, c: Candidate)
    requires IsLeg(w, group, c)
    ensures FairValue(w, c).Some?
    ensures ModelEdge(FairValue(w, c).value, group[c.features.condition]) == (1.0 - Total(Itself, group)) * 10000.0
  {
    var self := c.features.condition;
    OthersOfGroup(group, self);
    var q := QuoteOf(self, group, c.knownGroupSize, w.fvMinOtherLegs, 0.0, c.negRiskFeeBips);
    assert q.Some? && q.value.fairValue == 1.0 - (Total(Itself, group) - group[self]);
    FullCoverage(group, self, c.knownGroupSize, Total(Itself, group));
  }

  lemma FullCoverage(group: map<string, real>, self: string, stated: int, sum: real)
    requires self in group && |Others(self, group)| == |group| - 1 && stated <= |group|
    ensures KnownSize(stated, |group|, |Others(self, group)|) == |group|
    ensures Confidence(|group| as real / |group| as real, sum, true) == FullConfidence(sum)
  {
    assert |group| as real / |group| as real == 1.0;
  }

  /** So a leg's edge is the residual less its own costs. */
  lemma LegEdge(env: Env, w: Weights, group: map<string, real>, c: Candidate)
    requires IsLeg(w, group, c)
    ensures Judge(env, w, c) == Some((1.0 - Total(Itself, group)) * 10000.0
      - CostFor(env, w, c, Derived(w, c.features)).totalCostBps
      - Max(0.0, w.modelBufferBps) - StalePenalty(w, Derived(w, c.features)))
  {
    EveryLegHasResidualEdge(w, group, c);
  }

  /** Among equally fresh legs of one group the board is ordered by total cost alone, activity
      deciding between equal costs. */
  lemma LegsRankByCost(env: Env, w: Weights, group: map<string, real>, cands: seq<Candidate>, i: nat, j: nat)
    requires i < j < |Ranked(PolicyOf(env, w), cands)|
    requires var a, b := Ranked(PolicyOf(env, w), cands)[i].cand, Ranked(PolicyOf(env, w), cands)[j].cand;
      && IsLeg(w, group, a) && IsLeg(w, group, b)
      && StalePenalty(w, Derived(w, a.features)) == StalePenalty(w, Derived(w, b.features))
    ensures var a, b := Ranked(PolicyOf(env, w), cands)[i].cand, Ranked(PolicyOf(env, w), cands)[j].cand;
      var costA := CostFor(env, w, a, Derived(w, a.features)).totalCostBps;
      var costB := CostFor(env, w, b, Derived(w, b.features)).totalCostBps;
      costA < costB || (costA == costB && a.tieBreak >= b.tieBreak)
  {
    var p := PolicyOf(env, w);
    var rows := Ranked(p, cands);
    RankedIsRanking(p, cands);
    assert rows[i] in multiset(rows) && rows[j] in multiset(rows);
    assert rows[i] in multiset(Survivors(p, cands)) && rows[j] in multiset(Survivors(p, cands));
    SurvivorsAre(p, cands, rows[i]);
    SurvivorsAre(p, cands, rows[j]);
    LegEdge(env, w, group, rows[i].cand);
    LegEdge(env, w, group, rows[j].cand);
    assert !RowLess<Candidate>()(rows[j], rows[i]);
  }
}
