/** Portfolio budget policy (`internal/risk/config.go`) and the opportunity score that ranks
    candidates for it (`internal/risk/rank.go`). Money, prices and scores are reals. */
module RiskConfig {
  import opened Basics
  import opened Products
  import opened Sorting

  datatype Config = Config(
    startingEquity: real,
    sizingMode: string,
    kellyFraction: real,
    kellyP: real,
    kellyB: real,
    volTargetAnn: real,
    volLookback: int,
    maxPositionUSD: real,
    maxGrossUSD: real,
    maxPositions: int,
    capacityFrac: real,
    maxDailyDrawdownBps: real,
    maxDrawdownBps: real,
    minSizeUSD: real,
    edgeWeight: real,
    convictionWeight: real)

  const FRAC_KELLY := "frac_kelly"
  const VOL_TARGET := "vol_target"
  const SIGNAL_SIZE := "signal_size"

  const DEFAULTS := Config(
    10000.0, FRAC_KELLY, 0.25, 0.55, 1.0, 0.15, 24, 500.0, 5000.0, 20, 0.1, 300.0, 1000.0, 1.0, 1.0, 1.0)

  function Normalized(c: Config): Config {
    Config(
      Positive(c.startingEquity, DEFAULTS.startingEquity),
      if c.sizingMode == "" then DEFAULTS.sizingMode else c.sizingMode,
      if c.kellyFraction <= 0.0 || c.kellyFraction > 1.0 then DEFAULTS.kellyFraction else c.kellyFraction,
      if c.kellyP <= 0.0 || c.kellyP >= 1.0 then DEFAULTS.kellyP else c.kellyP,
      Positive(c.kellyB, DEFAULTS.kellyB),
      Positive(c.volTargetAnn, DEFAULTS.volTargetAnn),
      if c.volLookback <= 0 then DEFAULTS.volLookback else c.volLookback,
      Positive(c.maxPositionUSD, DEFAULTS.maxPositionUSD),
      Positive(c.maxGrossUSD, DEFAULTS.maxGrossUSD),
      if c.maxPositions <= 0 then DEFAULTS.maxPositions else c.maxPositions,
      Positive(c.capacityFrac, DEFAULTS.capacityFrac),
      Positive(c.maxDailyDrawdownBps, DEFAULTS.maxDailyDrawdownBps),
      Positive(c.maxDrawdownBps, DEFAULTS.maxDrawdownBps),
      Positive(c.minSizeUSD, DEFAULTS.minSizeUSD),
      if c.edgeWeight < 0.0 then DEFAULTS.edgeWeight else c.edgeWeight,
      if c.convictionWeight < 0.0 then DEFAULTS.convictionWeight else c.convictionWeight)
  }

  /** What the rest of the risk package relies on: every cap and every limit is positive. */
  ghost predicate Usable(c: Config) {
    && c.startingEquity > 0.0
    && c.sizingMode != ""
    && 0.0 < c.kellyFraction <= 1.0
    && 0.0 < c.kellyP < 1.0
    && c.kellyB > 0.0
    && c.volTargetAnn > 0.0
    && c.volLookback > 0
    && c.maxPositionUSD > 0.0
    && c.maxGrossUSD > 0.0
    && c.maxPositions > 0
    && c.capacityFrac > 0.0
    && c.maxDailyDrawdownBps > 0.0
    && c.maxDrawdownBps > 0.0
    && c.minSizeUSD > 0.0
    && c.edgeWeight >= 0.0
    && c.convictionWeight >= 0.0
  }

  /** Normalizing changes a configuration exactly when it is not usable, and always repairs it. */
  lemma NormalizeRepairs(c: Config)
    ensures Usable(Normalized(c))
    ensures Normalized(c) == c <==> Usable(c)
  {
    assert DEFAULTS.sizingMode[0] == 'f';
  }

  /** Higher is better: |edge| in units of 100 bps, conviction clamped to [0, 1], optional urgency. */
  function OpportunityScore(c: Config, edgeBps: real, conviction: real, urgency: real): (score: real)
    ensures score >= 0.0
  {
    var ew := Positive(c.edgeWeight, 1.0);
    var cw := Positive(c.convictionWeight, 1.0);
    ProdPositive(ew, Abs(edgeBps) / 100.0);
    ProdPositive(cw, Clamp(conviction, 0.0, 1.0));
    var score := Prod(ew, Abs(edgeBps) / 100.0) + Prod(cw, Clamp(conviction, 0.0, 1.0));
    if urgency > 0.0 then score + 0.1 * urgency else score
  }

  /** A larger edge either way, a higher conviction or a higher urgency never lowers the score, and a
      larger edge raises it. */
  lemma OpportunityGrows(c: Config, e1: real, v1: real, u1: real, e2: real, v2: real, u2: real)
    requires Abs(e1) <= Abs(e2) && v1 <= v2 && u1 <= u2
    ensures OpportunityScore(c, e1, v1, u1) <= OpportunityScore(c, e2, v2, u2)
    ensures Abs(e1) < Abs(e2) ==> OpportunityScore(c, e1, v1, u1) < OpportunityScore(c, e2, v2, u2)
  {
    var ew, cw := Positive(c.edgeWeight, 1.0), Positive(c.convictionWeight, 1.0);
    ProdGrows(ew, Abs(e1) / 100.0, Abs(e2) / 100.0);
    ProdGrows(cw, Clamp(v1, 0.0, 1.0), Clamp(v2, 0.0, 1.0));
  }

  /** The score adds up its three parts: the edge weight for each 100 bps of edge either way, the conviction
      weight for a full conviction and in proportion below it, and a tenth of a positive urgency. */
  lemma OpportunityAddsUp(c: Config, e: real, v: real, u: real, k: real)
    requires k >= 0.0
    ensures OpportunityScore(c, e, v, u)
         == OpportunityScore(c, e, 0.0, 0.0) + OpportunityScore(c, 0.0, v, 0.0) + OpportunityScore(c, 0.0, 0.0, u)
    ensures OpportunityScore(c, Prod(k, 100.0), 0.0, 0.0) == Prod(k, Positive(c.edgeWeight, 1.0))
    ensures OpportunityScore(c, -e, 0.0, 0.0) == OpportunityScore(c, e, 0.0, 0.0)
    ensures 0.0 <= v <= 1.0 ==> OpportunityScore(c, 0.0, v, 0.0) == Prod(v, Positive(c.convictionWeight, 1.0))
    ensures v > 1.0 ==> OpportunityScore(c, 0.0, v, 0.0) == Positive(c.convictionWeight, 1.0)
    ensures v < 0.0 ==> OpportunityScore(c, 0.0, v, 0.0) == 0.0
    ensures OpportunityScore(c, 0.0, 0.0, u) * 10.0 == if u > 0.0 then u else 0.0
  {
    var ew, cw := Positive(c.edgeWeight, 1.0), Positive(c.convictionWeight, 1.0);
    ProdUnits(ew);
    ProdUnits(cw);
    ProdCommutes(ew, k);
    ProdCommutes(cw, v);
    ProdPositive(100.0, k);
    ProdCommutes(k, 100.0);
    ProdQuotientBack(k);
  }

  lemma ProdQuotientBack(k: real)
    ensures Prod(k, 100.0) / 100.0 == k
  {
  }

  datatype Rankable = Rankable(index: nat, score: real)

  predicate RankLess(a: Rankable, b: Rankable) {
    if a.score == b.score then a.index < b.index else a.score > b.score
  }

  function Rankables(scores: seq<real>): (r: seq<Rankable>)
    ensures |r| == |scores|
  {
    seq(|scores|, i requires 0 <= i < |scores| => Rankable(i, scores[i]))
  }

  /** Items in opportunity-descending order, earlier index first among equal scores. */
  function RankOrder(scores: seq<real>): seq<Rankable> {
    StableSort(Rankables(scores), RankLess)
  }

  /** The rank order names every index once, carries its score, and never lets a later entry
      beat an earlier one; equal scores keep their index order. */
  lemma RankOrderIsRanking(scores: seq<real>)
    ensures |RankOrder(scores)| == |scores|
    ensures multiset(RankOrder(scores)) == multiset(Rankables(scores))
    ensures forall r :: r in RankOrder(scores) ==> r.index < |scores| && r.score == scores[r.index]
    ensures forall i, j :: 0 <= i < j < |scores| ==>
      var a, b := RankOrder(scores)[i], RankOrder(scores)[j];
      a.score > b.score || (a.score == b.score && a.index < b.index)
  {
    var items, order := Rankables(scores), RankOrder(scores);
    StableSortSorted(items, RankLess);
    SameElements(order, items);
    forall i, j | 0 <= i < j < |scores|
      ensures order[i].score > order[j].score
           || (order[i].score == order[j].score && order[i].index < order[j].index)
    {
      DistinctIndices(scores, i, j);
    }
  }

  lemma DistinctIndices(scores: seq<real>, i: nat, j: nat)
    requires i < j < |RankOrder(scores)|
    ensures RankOrder(scores)[i].index != RankOrder(scores)[j].index
  {
    var items, order := Rankables(scores), RankOrder(scores);
    SameElements(order, items);
    assert order[i] in items && order[j] in items;
    OnlyOnce(items, order[i].index);
    if order[i] == order[j] {
      PresentTwice(order, i, j);
    }
  }

  lemma OnlyOnce(items: seq<Rankable>, k: nat)
    requires forall i :: 0 <= i < |items| ==> items[i].index == i
    requires k < |items|
    ensures multiset(items)[items[k]] == 1
  {
    assert items == items[..k] + [items[k]] + items[k + 1..];
    assert items[k] !in items[..k] && items[k] !in items[k + 1..];
  }

  /** The items a ranking refers to, in rank order. */
  function Pick<T>(items: seq<T>, order: seq<Rankable>): (r: seq<T>)
    requires forall x :: x in order ==> x.index < |items|
    ensures |r| == |order|
    ensures forall i :: 0 <= i < |r| ==> r[i] == items[order[i].index]
  {
    seq(|order|, i requires 0 <= i < |order| => assert order[i] in order; items[order[i].index])
  }

  lemma PickWithout<T>(items: seq<T>, order: seq<Rankable>, k: nat)
    requires k < |order| && forall x :: x in order ==> x.index < |items|
    ensures forall x :: x in Without(order, k) ==> x.index < |items|
    ensures multiset(Pick(items, order)) == multiset(Pick(items, Without(order, k))) + multiset{items[order[k].index]}
  {
    WithoutIsPart(order, k);
    MultisetWithout(Pick(items, order), k);
    assert Pick(items, Without(order, k)) == Without(Pick(items, order), k);
  }

  lemma WithoutIsPart<T>(s: seq<T>, k: nat)
    requires k < |s|
    ensures forall x :: x in Without(s, k) ==> x in s
  {
  }

  lemma PickHead<T>(items: seq<T>, order: seq<Rankable>)
    requires order != [] && forall x :: x in order ==> x.index < |items|
    ensures multiset(Pick(items, order)) == multiset{items[order[0].index]} + multiset(Pick(items, order[1..]))
  {
    MultisetHead(Pick(items, order));
    assert Pick(items, order)[1..] == Pick(items, order[1..]);
  }

  lemma {:induction false} PickPermutes<T>(items: seq<T>, a: seq<Rankable>, b: seq<Rankable>)
    requires multiset(a) == multiset(b)
    requires forall x :: x in a ==> x.index < |items|
    requires forall x :: x in b ==> x.index < |items|
    ensures multiset(Pick(items, a)) == multiset(Pick(items, b))
    decreases |a|
  {
    SameElements(a, b);
    if a != [] {
      var k := RemoveHead(a, b);
      WithoutIsPart(b, k);
      PickPermutes(items, a[1..], Without(b, k));
      PickHead(items, a);
      PickWithout(items, b, k);
    }
  }
}
