/** Capital allocation over a board (`internal/alloc/alloc.go`): screen every name, keep the best
    one per market, rank by opportunity, and fill greedily under a count cap and a gross cap. */
module Alloc {
  import opened Basics
  import opened Sorting
  import opened RiskConfig
  import opened Greedy

  /** One board market. `stamp` is the RFC 3339 text of its time; fields no decision reads are left out. */
  datatype Name = Name(
    condition: string,
    token: string,
    stamp: string,
    edgeBps: real,
    conviction: real,
    urgency: real,
    spreadBps: real,
    sizeUSD: real,
    fvSource: string,
    scorePath: string)

  datatype Worthiness = Worthiness(minEdgeBps: real, maxSpreadBps: real, requireFV: bool)

  datatype Reason = Unworthy | Outranked | AlreadyOpen

  datatype Rejected = Rejected(name: Name, reason: Reason)

  datatype Input = Input(names: seq<Name>, risk: Config, worth: Worthiness, open: seq<string>)

  datatype Result = Result(taken: seq<Name>, rejected: seq<Rejected>)

  /** Slack the fill allows on the gross cap. */
  const SLACK: real := 0.000000001

  // ---------------------------------------------------------------- what a name is worth

  predicate IsUnworthy(n: Name, w: Worthiness) {
    || (w.minEdgeBps > 0.0 && Abs(n.edgeBps) < w.minEdgeBps)
    || (w.maxSpreadBps > 0.0 && n.spreadBps > w.maxSpreadBps)
    || (w.requireFV && (n.fvSource == "" || n.fvSource == "none" || n.scorePath == "proxy"))
  }

  predicate IsOpen(n: Name, open: seq<string>) {
    n.condition != "" && n.condition in open
  }

  /** The market a name competes in. */
  function Market(n: Name): string {
    if n.condition != "" then n.condition
    else if n.token != "" then n.token
    else n.token + "#" + n.stamp
  }

  function ScoreBy(c: Config): (score: Name -> real)
    ensures forall n :: score(n) >= 0.0
  {
    (n: Name) => OpportunityScore(c, n.edgeBps, n.conviction, n.urgency)
  }

  /** The room a name takes: its own size, or the position cap when it states none. */
  function SizeBy(c: Config): (size: Name -> real)
    ensures c.maxPositionUSD > 0.0 ==> forall n :: size(n) > 0.0
  {
    (n: Name) => if n.sizeUSD <= 0.0 then Positive(c.maxPositionUSD, 500.0) else n.sizeUSD
  }

  function LimitsOf(c: Config): Limits {
    Limits(c.maxPositions, c.maxGrossUSD + SLACK)
  }

  // ---------------------------------------------------------------- screening

  predicate MayCompete(n: Name, w: Worthiness, open: seq<string>) {
    !IsUnworthy(n, w) && !IsOpen(n, open)
  }

  function Eligible(names: seq<Name>, w: Worthiness, open: seq<string>): seq<Name> {
    if names == [] then [] else
    var rest, n := Eligible(names[..|names| - 1], w, open), names[|names| - 1];
    if MayCompete(n, w, open) then rest + [n] else rest
  }

  function Screened(names: seq<Name>, w: Worthiness, open: seq<string>): seq<Rejected> {
    if names == [] then [] else
    var rest, n := Screened(names[..|names| - 1], w, open), names[|names| - 1];
    if MayCompete(n, w, open) then rest
    else rest + [Rejected(n, if IsUnworthy(n, w) then Unworthy else AlreadyOpen)]
  }

  /** An edge of at least the minimum either way, a spread of at most the limit, and a stated fair value
      off the proxy path, each only where the bar asks for it. */
  ghost predicate MeetsBar(n: Name, w: Worthiness) {
    && (w.minEdgeBps > 0.0 ==> n.edgeBps >= w.minEdgeBps || n.edgeBps <= -w.minEdgeBps)
    && (w.maxSpreadBps > 0.0 ==> n.spreadBps <= w.maxSpreadBps)
    && (w.requireFV ==> n.fvSource != "" && n.fvSource != "none" && n.scorePath != "proxy")
  }

  ghost predicate IsHeld(n: Name, open: seq<string>) {
    n.condition != "" && exists i :: 0 <= i < |open| && open[i] == n.condition
  }

  lemma BarExactly(n: Name, w: Worthiness, open: seq<string>)
    ensures !IsUnworthy(n, w) <==> MeetsBar(n, w)
    ensures IsOpen(n, open) <==> IsHeld(n, open)
  {
  }

  function NamesOf(rejected: seq<Rejected>): (names: seq<Name>)
    ensures |names| == |rejected|
  {
    seq(|rejected|, i requires 0 <= i < |rejected| => rejected[i].name)
  }

  /** A name competes exactly when it is on the board, meets the bar and is not already held. */
  lemma {:induction false} EligibleExactly(names: seq<Name>, w: Worthiness, open: seq<string>, n: Name)
    ensures n in Eligible(names, w, open) <==> n in names && MeetsBar(n, w) && !IsHeld(n, open)
  {
    BarExactly(n, w, open);
    if names != [] {
      var k := |names| - 1;
      EligibleExactly(names[..k], w, open, n);
      assert names == names[..k] + [names[k]];
    }
  }

  lemma {:induction false} ScreeningLosesNothing(names: seq<Name>, w: Worthiness, open: seq<string>)
    ensures multiset(Eligible(names, w, open)) + multiset(NamesOf(Screened(names, w, open))) == multiset(names)
  {
    if names == [] {
      assert NamesOf([]) == [];
    } else {
      var k := |names| - 1;
      ScreeningLosesNothing(names[..k], w, open);
      assert names == names[..k] + [names[k]];
      var before, after := Screened(names[..k], w, open), Screened(names, w, open);
      assert NamesOf(after) == if after == before then NamesOf(before) else NamesOf(before) + [names[k]];
    }
  }

  // ---------------------------------------------------------------- ranking

  function Scores(score: Name -> real, names: seq<Name>): (s: seq<real>)
    ensures |s| == |names|
  {
    seq(|names|, i requires 0 <= i < |names| => score(names[i]))
  }

  ghost function Ranked(score: Name -> real, kept: seq<Name>): (r: seq<Name>)
    ensures |r| == |kept|
  {
    RankOrderIsRanking(Scores(score, kept));
    Pick(kept, RankOrder(Scores(score, kept)))
  }

  lemma RankedPermutes(score: Name -> real, kept: seq<Name>)
    ensures multiset(Ranked(score, kept)) == multiset(kept)
  {
    var items, order := Rankables(Scores(score, kept)), RankOrder(Scores(score, kept));
    RankOrderIsRanking(Scores(score, kept));
    PickPermutes(kept, order, items);
    assert Pick(kept, items) == kept;
  }

  lemma RankedPair(score: Name -> real, kept: seq<Name>, i: nat, j: nat)
    requires DistinctMarkets(Market, kept) && i < j < |kept|
    ensures score(Ranked(score, kept)[i]) >= score(Ranked(score, kept)[j])
    ensures Market(Ranked(score, kept)[i]) != Market(Ranked(score, kept)[j])
  {
    var scores := Scores(score, kept);
    var order := RankOrder(scores);
    RankOrderIsRanking(scores);
    DistinctIndices(scores, i, j);
    assert order[i] in order && order[j] in order;
    var p, q := order[i].index, order[j].index;
    assert Market(kept[if p < q then p else q]) != Market(kept[if p < q then q else p]);
  }

  lemma RankedIsRanking(score: Name -> real, kept: seq<Name>)
    requires DistinctMarkets(Market, kept)
    ensures multiset(Ranked(score, kept)) == multiset(kept)
    ensures Descending(score, Ranked(score, kept))
    ensures DistinctMarkets(Market, Ranked(score, kept))
  {
    RankedPermutes(score, kept);
    forall i, j | 0 <= i < j < |kept|
      ensures score(Ranked(score, kept)[i]) >= score(Ranked(score, kept)[j])
      ensures Market(Ranked(score, kept)[i]) != Market(Ranked(score, kept)[j])
    {
      RankedPair(score, kept, i, j);
    }
  }

  // ---------------------------------------------------------------- the whole decision

  ghost function Competing(input: Input): seq<Name> {
    Eligible(input.names, input.worth, input.open)
  }

  /** Names that competed and survived the per-market cut. */
  ghost function Kept(input: Input): seq<Name> {
    Winners(Market, ScoreBy(Normalized(input.risk)), Competing(input), |Competing(input)|)
  }

  /** Names dropped because their market has a better one; the result does not mention them. */
  ghost function DedupeLosers(input: Input): seq<Name> {
    Losers(Market, ScoreBy(Normalized(input.risk)), Competing(input), |Competing(input)|)
  }

  ghost function Outcome(input: Input): Filled<Name> {
    var c := Normalized(input.risk);
    Fill(LimitsOf(c), SizeBy(c), Ranked(ScoreBy(c), Kept(input)))
  }

  ghost function AsRejected(outranked: seq<Name>): (r: seq<Rejected>)
    ensures |r| == |outranked| && NamesOf(r) == outranked
  {
    seq(|outranked|, i requires 0 <= i < |outranked| => Rejected(outranked[i], Outranked))
  }

  ghost function Allocation(input: Input): Result {
    Result(Outcome(input).taken,
           Screened(input.names, input.worth, input.open) + AsRejected(Outcome(input).outranked))
  }

  lemma {:induction false} KeptIsSound(input: Input)
    ensures DistinctMarkets(Market, Kept(input))
    ensures multiset(Kept(input)) + multiset(DedupeLosers(input)) == multiset(Competing(input))
    ensures forall n :: n in Competing(input) ==> HasBetter(input, n)
  {
    var score, e := ScoreBy(Normalized(input.risk)), Competing(input);
    WinnersDistinct(Market, score, e, |e|);
    WinnersAndLosers(Market, score, e, |e|);
    assert e[..|e|] == e;
    forall n | n in e ensures HasBetter(input, n) {
      var i :| 0 <= i < |e| && e[i] == n;
      var w := MarketHasWinner(Market, score, e, i);
      assert e[w] in Kept(input);
    }
  }

  /** Some kept name of the same market scores at least as much. */
  ghost predicate HasBetter(input: Input, n: Name) {
    exists k :: k in Kept(input) && Market(k) == Market(n)
      && ScoreBy(Normalized(input.risk))(k) >= ScoreBy(Normalized(input.risk))(n)
  }

  lemma KeptIsCompeting(input: Input, n: Name)
    requires n in multiset(Kept(input))
    ensures n in Competing(input)
  {
    var i := WinnerHasIndex(Market, ScoreBy(Normalized(input.risk)), Competing(input), |Competing(input)|, n);
  }

  lemma LosersHaveBetter(input: Input)
    ensures forall n :: n in DedupeLosers(input) ==> n in Competing(input) && HasBetter(input, n)
  {
    KeptIsSound(input);
    forall n | n in DedupeLosers(input) ensures n in Competing(input) {
      var i := LoserHasIndex(Market, ScoreBy(Normalized(input.risk)), Competing(input), |Competing(input)|, n);
    }
  }

  lemma OutcomeIsSound(input: Input)
    ensures var c, st := Normalized(input.risk), Outcome(input);
      && multiset(st.taken) + multiset(st.outranked) == multiset(Kept(input))
      && Descending(ScoreBy(c), st.taken)
      && DistinctMarkets(Market, st.taken)
      && FitsCaps(LimitsOf(c), SizeBy(c), st.taken)
      && (forall n :: n in st.outranked ==> BreaksCap(LimitsOf(c), |st.taken|, Sum(SizeBy(c), st.taken), SizeBy(c)(n)))
  {
    var c := Normalized(input.risk);
    var ranked := Ranked(ScoreBy(c), Kept(input));
    NormalizeRepairs(input.risk);
    KeptIsSound(input);
    RankedIsRanking(ScoreBy(c), Kept(input));
    FillIsSound(LimitsOf(c), SizeBy(c), ranked);
    FillKeepsOrder(LimitsOf(c), SizeBy(c), Market, ScoreBy(c), ranked);
  }

  /** Conservation: every name on the board is taken, rejected with a reason, or lost its market
      to a kept name that scores at least as much. */
  lemma EveryNameAccountedFor(input: Input)
    ensures multiset(Allocation(input).taken) + multiset(NamesOf(Allocation(input).rejected))
          + multiset(DedupeLosers(input)) == multiset(input.names)
    ensures forall n :: n in DedupeLosers(input) ==> HasBetter(input, n)
  {
    var screened := Screened(input.names, input.worth, input.open);
    OutcomeIsSound(input);
    LosersHaveBetter(input);
    KeptIsSound(input);
    ScreeningLosesNothing(input.names, input.worth, input.open);
    RejectedNames(screened, Outcome(input).outranked);
    Balance(multiset(Outcome(input).taken), multiset(Outcome(input).outranked), multiset(Kept(input)),
            multiset(DedupeLosers(input)), multiset(Competing(input)), multiset(NamesOf(screened)),
            multiset(input.names));
  }

  lemma RejectedNames(screened: seq<Rejected>, outranked: seq<Name>)
    ensures multiset(NamesOf(screened + AsRejected(outranked))) == multiset(NamesOf(screened)) + multiset(outranked)
  {
    var all := NamesOf(screened + AsRejected(outranked));
    forall i | 0 <= i < |outranked| ensures all[|screened| + i] == outranked[i] {
      assert AsRejected(outranked)[i] == Rejected(outranked[i], Outranked);
    }
    assert all == NamesOf(screened) + outranked;
  }

  lemma Balance<T>(taken: multiset<T>, outranked: multiset<T>, kept: multiset<T>, losers: multiset<T>,
                   competing: multiset<T>, screened: multiset<T>, names: multiset<T>)
    requires taken + outranked == kept && kept + losers == competing && competing + screened == names
    ensures taken + (screened + outranked) + losers == names
  {
  }

  ghost predicate WasOutranked(a: Result, n: Name) {
    exists i :: 0 <= i < |a.rejected| && a.rejected[i].reason == Outranked && a.rejected[i].name == n
  }

  /** What `Run` promises for arbitrary sizes: the taken names are admissible, in rank order, one
      per market and within both caps, and each outranked name would break a cap if it were added. */
  lemma AllocationIsSound(input: Input)
    ensures var c, a := Normalized(input.risk), Allocation(input);
      && Admissible(input, a.taken)
      && Descending(ScoreBy(c), a.taken)
      && FitsCaps(LimitsOf(c), SizeBy(c), a.taken)
      && (forall n :: WasOutranked(a, n) ==>
           BreaksCap(LimitsOf(c), |a.taken|, Sum(SizeBy(c), a.taken), SizeBy(c)(n)))
  {
    var st, a := Outcome(input), Allocation(input);
    var screened := Screened(input.names, input.worth, input.open);
    OutcomeIsSound(input);
    forall n | n in a.taken
      ensures n in input.names && MeetsBar(n, input.worth) && !IsHeld(n, input.open)
    {
      assert n in multiset(st.taken);
      KeptIsCompeting(input, n);
      EligibleExactly(input.names, input.worth, input.open, n);
    }
    forall n | WasOutranked(a, n)
      ensures n in st.outranked
    {
      ScreenedNeverOutranked(input.names, input.worth, input.open);
      var i :| 0 <= i < |a.rejected| && a.rejected[i].reason == Outranked && a.rejected[i].name == n;
      assert i >= |screened|;
      assert a.rejected[i] == Rejected(st.outranked[i - |screened|], Outranked);
    }
  }

  lemma {:induction false} ScreenedNeverOutranked(names: seq<Name>, w: Worthiness, open: seq<string>)
    ensures forall i :: 0 <= i < |Screened(names, w, open)| ==> Screened(names, w, open)[i].reason != Outranked
  {
    if names != [] {
      ScreenedNeverOutranked(names[..|names| - 1], w, open);
    }
  }

  /** The gross cap itself is met exactly when no rank is in the slack: when the fill under the cap alone,
      arrived at that rank, never has a place left for a name that passes the cap by at most 1e-9. The
      allocation is then what that fill takes. */
  lemma GrossCapExactly(input: Input)
    ensures var c := Normalized(input.risk);
      var ranked := Ranked(ScoreBy(c), Kept(input));
      var none := NoneInSlack(c.maxPositions, c.maxGrossUSD, SLACK, SizeBy(c), ranked);
      && (Sum(SizeBy(c), Allocation(input).taken) <= c.maxGrossUSD <==> none)
      && (none ==> Outcome(input) == Fill(Limits(c.maxPositions, c.maxGrossUSD), SizeBy(c), ranked))
  {
    var c := Normalized(input.risk);
    var ranked := Ranked(ScoreBy(c), Kept(input));
    NormalizeRepairs(input.risk);
    FillIsSound(LimitsOf(c), SizeBy(c), ranked);
    CapHoldsExactly(c.maxPositions, c.maxGrossUSD, SLACK, SizeBy(c), ranked);
  }

  /** A selection the allocator is allowed to make: names on the board that are worthy and not
      held, at most one per market. */
  ghost predicate Admissible(input: Input, pick: seq<Name>) {
    && DistinctMarkets(Market, pick)
    && (forall n :: n in pick ==> n in input.names && MeetsBar(n, input.worth) && !IsHeld(n, input.open))
  }

  /** Among the names that compete, one that scores at least as much takes no more room. */
  ghost predicate BetterIsSmaller(input: Input) {
    var c := Normalized(input.risk);
    forall x, y :: x in Competing(input) && y in Competing(input) && ScoreBy(c)(x) >= ScoreBy(c)(y) ==>
      SizeBy(c)(x) <= SizeBy(c)(y)
  }

  lemma BetterIsRanked(input: Input, ranked: seq<Name>, n: Name)
    requires HasBetter(input, n) && n in Competing(input) && BetterIsSmaller(input)
    requires forall k :: k in Kept(input) ==> k in ranked && k in Competing(input)
    ensures Matched(Market, ScoreBy(Normalized(input.risk)), SizeBy(Normalized(input.risk)), ranked, n)
  {
    var score := ScoreBy(Normalized(input.risk));
    var k :| k in Kept(input) && Market(k) == Market(n) && score(k) >= score(n);
    var p :| 0 <= p < |ranked| && ranked[p] == k;
  }

  /** Optimality: when better names never take more room, no admissible selection within the caps has
      a higher total opportunity score than what `Run` takes. */
  lemma SmallerBetterAreOptimal(input: Input, pick: seq<Name>)
    requires BetterIsSmaller(input) && Admissible(input, pick)
    requires FitsCaps(LimitsOf(Normalized(input.risk)), SizeBy(Normalized(input.risk)), pick)
    ensures Sum(ScoreBy(Normalized(input.risk)), pick)
         <= Sum(ScoreBy(Normalized(input.risk)), Allocation(input).taken)
  {
    var c := Normalized(input.risk);
    var ranked := Ranked(ScoreBy(c), Kept(input));
    NormalizeRepairs(input.risk);
    KeptIsSound(input);
    RankedIsRanking(ScoreBy(c), Kept(input));
    RankedAreCompeting(input);
    forall n | n in pick ensures Matched(Market, ScoreBy(c), SizeBy(c), ranked, n) {
      EligibleExactly(input.names, input.worth, input.open, n);
      BetterIsRanked(input, ranked, n);
    }
    forall i, j | 0 <= i < j < |ranked| ensures SizeBy(c)(ranked[i]) <= SizeBy(c)(ranked[j]) {
      assert ranked[i] in ranked && ranked[j] in ranked;
    }
    SmallerFirstOptimal(LimitsOf(c), SizeBy(c), Market, ScoreBy(c), ranked, pick);
  }

  lemma RankedAreCompeting(input: Input)
    ensures var ranked := Ranked(ScoreBy(Normalized(input.risk)), Kept(input));
      && (forall n :: n in ranked ==> n in Competing(input))
      && (forall n :: n in Kept(input) ==> n in ranked && n in Competing(input))
  {
    var score := ScoreBy(Normalized(input.risk));
    KeptIsSound(input);
    RankedIsRanking(score, Kept(input));
    SameElements(Ranked(score, Kept(input)), Kept(input));
    forall n | n in Kept(input) ensures n in Competing(input) {
      KeptIsCompeting(input, n);
    }
  }

  /** In particular when every name on the board takes the same room. */
  lemma EqualSizesAreOptimal(input: Input, size: real, pick: seq<Name>)
    requires forall n :: n in input.names ==> SizeBy(Normalized(input.risk))(n) == size
    requires Admissible(input, pick)
    requires FitsCaps(LimitsOf(Normalized(input.risk)), SizeBy(Normalized(input.risk)), pick)
    ensures Sum(ScoreBy(Normalized(input.risk)), pick)
         <= Sum(ScoreBy(Normalized(input.risk)), Allocation(input).taken)
  {
    forall n | n in Competing(input) ensures n in input.names {
      EligibleExactly(input.names, input.worth, input.open, n);
    }
    SmallerBetterAreOptimal(input, pick);
  }

  // ---------------------------------------------------------------- the decision on the names' own fields

  /** Of two names of one decision: same condition, or no condition and the same token, or neither and
      the same instant. A condition that equals another name's token counts as the same, too. */
  ghost predicate SameMarket(a: Name, b: Name) {
    if a.condition != "" && b.condition != "" then a.condition == b.condition
    else if a.condition != "" then a.condition == if b.token != "" then b.token else "#" + b.stamp
    else if b.condition != "" then b.condition == if a.token != "" then a.token else "#" + a.stamp
    else if a.token != "" && b.token != "" then a.token == b.token
    else if a.token != "" then a.token == "#" + b.stamp
    else if b.token != "" then b.token == "#" + a.stamp
    else a.stamp == b.stamp
  }

  lemma SameMarketExactly(a: Name, b: Name)
    ensures Market(a) == Market(b) <==> SameMarket(a, b)
  {
    NamelessMarket(a);
    NamelessMarket(b);
  }

  lemma NamelessMarket(n: Name)
    ensures n.condition == "" && n.token == "" ==> Market(n) == "#" + n.stamp
    ensures ("#" + n.stamp)[1..] == n.stamp
  {
    assert "" + "#" + n.stamp == "#" + n.stamp;
  }

  /** What each list of a decision says about its names. */
  ghost predicate Decides(input: Input, out: Result) {
    && (forall n :: n in out.taken ==> n in input.names && MeetsBar(n, input.worth) && !IsHeld(n, input.open))
    && (forall i, j :: 0 <= i < j < |out.taken| ==> !SameMarket(out.taken[i], out.taken[j]))
    && (forall r :: r in out.rejected ==> r.name in input.names)
    && (forall n :: Rejected(n, Unworthy) in out.rejected <==> n in input.names && !MeetsBar(n, input.worth))
    && (forall n :: Rejected(n, AlreadyOpen) in out.rejected <==>
         n in input.names && MeetsBar(n, input.worth) && IsHeld(n, input.open))
    && (forall n :: Rejected(n, Outranked) in out.rejected ==> MeetsBar(n, input.worth) && !IsHeld(n, input.open))
  }

  lemma {:induction false} ScreenedExactly(names: seq<Name>, w: Worthiness, open: seq<string>, r: Rejected)
    ensures r in Screened(names, w, open) <==>
      && r.name in names
      && ((r.reason == Unworthy && !MeetsBar(r.name, w))
          || (r.reason == AlreadyOpen && MeetsBar(r.name, w) && IsHeld(r.name, open)))
  {
    if names != [] {
      var k := |names| - 1;
      ScreenedExactly(names[..k], w, open, r);
      BarExactly(names[k], w, open);
      assert names == names[..k] + [names[k]];
    }
  }

  lemma ScreenSplits(input: Input)
    ensures forall n :: n in Competing(input) <==> n in input.names && MeetsBar(n, input.worth) && !IsHeld(n, input.open)
    ensures forall n :: Rejected(n, Unworthy) in Screened(input.names, input.worth, input.open) <==>
      n in input.names && !MeetsBar(n, input.worth)
    ensures forall n :: Rejected(n, AlreadyOpen) in Screened(input.names, input.worth, input.open) <==>
      n in input.names && MeetsBar(n, input.worth) && IsHeld(n, input.open)
  {
    forall n ensures n in Competing(input) <==> n in input.names && MeetsBar(n, input.worth) && !IsHeld(n, input.open) {
      EligibleExactly(input.names, input.worth, input.open, n);
    }
    forall r: Rejected {
      ScreenedExactly(input.names, input.worth, input.open, r);
    }
  }

  lemma OutrankedExactly(input: Input, r: Rejected)
    ensures r in Allocation(input).rejected <==>
      r in Screened(input.names, input.worth, input.open) || (r.reason == Outranked && r.name in Outcome(input).outranked)
  {
    var outranked := Outcome(input).outranked;
    if r.reason == Outranked && r.name in outranked {
      var i :| 0 <= i < |outranked| && outranked[i] == r.name;
      assert AsRejected(outranked)[i] == r;
    }
  }

  /** Every taken or outranked name competed. */
  lemma OutcomeCompetes(input: Input, n: Name)
    requires n in Outcome(input).taken || n in Outcome(input).outranked
    ensures n in input.names && MeetsBar(n, input.worth) && !IsHeld(n, input.open)
  {
    var st := Outcome(input);
    OutcomeIsSound(input);
    assert n in multiset(st.taken) + multiset(st.outranked);
    KeptIsCompeting(input, n);
    EligibleExactly(input.names, input.worth, input.open, n);
    BarExactly(n, input.worth, input.open);
  }

  /** Taken names meet the bar, are not held and are of different markets; a name is rejected as
      unworthy exactly when it misses the bar, as held exactly when it meets the bar and is held. */
  lemma AllocationDecides(input: Input)
    ensures Decides(input, Allocation(input))
  {
    var out := Allocation(input);
    OutcomeIsSound(input);
    forall n | n in out.taken ensures n in input.names && MeetsBar(n, input.worth) && !IsHeld(n, input.open) {
      OutcomeCompetes(input, n);
    }
    forall i, j | 0 <= i < j < |out.taken| ensures !SameMarket(out.taken[i], out.taken[j]) {
      SameMarketExactly(out.taken[i], out.taken[j]);
    }
    forall r: Rejected
      ensures r in out.rejected <==>
        r in Screened(input.names, input.worth, input.open) || (r.reason == Outranked && r.name in Outcome(input).outranked)
      ensures r in Screened(input.names, input.worth, input.open) ==> r.name in input.names && r.reason != Outranked
    {
      OutrankedExactly(input, r);
      ScreenedExactly(input.names, input.worth, input.open, r);
    }
    forall n ensures Rejected(n, Unworthy) in out.rejected <==> n in input.names && !MeetsBar(n, input.worth) {
      ScreenedExactly(input.names, input.worth, input.open, Rejected(n, Unworthy));
    }
    forall n
      ensures Rejected(n, AlreadyOpen) in out.rejected <==>
        n in input.names && MeetsBar(n, input.worth) && IsHeld(n, input.open)
    {
      ScreenedExactly(input.names, input.worth, input.open, Rejected(n, AlreadyOpen));
    }
    forall n | n in Outcome(input).outranked
      ensures n in input.names && MeetsBar(n, input.worth) && !IsHeld(n, input.open)
    {
      OutcomeCompetes(input, n);
    }
  }

  /** The dollars the names take: the stated size, or the position cap when none is stated. */
  ghost function Spent(risk: Config, names: seq<Name>): real {
    if names == [] then 0.0 else
    Spent(risk, names[..|names| - 1]) + (
      var n := names[|names| - 1];
      if n.sizeUSD > 0.0 then n.sizeUSD else if risk.maxPositionUSD > 0.0 then risk.maxPositionUSD else 500.0)
  }

  lemma {:induction false} SpentIsSum(risk: Config, names: seq<Name>)
    ensures Spent(risk, names) == Sum(SizeBy(Normalized(risk)), names)
  {
    if names != [] {
      SpentIsSum(risk, names[..|names| - 1]);
    }
  }

  /** The configured count and gross caps, with their defaults. */
  ghost predicate WithinCaps(risk: Config, names: seq<Name>) {
    && |names| <= (if risk.maxPositions > 0 then risk.maxPositions else 20)
    && Spent(risk, names) <= (if risk.maxGrossUSD > 0.0 then risk.maxGrossUSD else 5000.0) + 0.000000001
  }

  /** What is taken stays within the caps, and taking an outranked name too would not. */
  lemma AllocationFillsCaps(input: Input)
    ensures WithinCaps(input.risk, Allocation(input).taken)
    ensures forall n :: Rejected(n, Outranked) in Allocation(input).rejected ==>
      !WithinCaps(input.risk, Allocation(input).taken + [n])
  {
    var taken := Allocation(input).taken;
    AllocationIsSound(input);
    SpentIsSum(input.risk, taken);
    forall n | Rejected(n, Outranked) in Allocation(input).rejected
      ensures !WithinCaps(input.risk, taken + [n])
    {
      assert WasOutranked(Allocation(input), n);
      assert (taken + [n])[..|taken|] == taken;
    }
  }

  /** A dropped duplicate has a kept name of its market that scores at least as much. */
  lemma LoserIsOutdone(input: Input, n: Name)
    requires n in DedupeLosers(input)
    ensures var score := ScoreBy(Normalized(input.risk));
      exists k :: k in Kept(input) && SameMarket(k, n) && score(k) >= score(n)
  {
    LosersHaveBetter(input);
    var k :| k in Kept(input) && Market(k) == Market(n)
      && ScoreBy(Normalized(input.risk))(k) >= ScoreBy(Normalized(input.risk))(n);
    SameMarketExactly(k, n);
  }

  /** The kept name of a market is its first best: of the names that compete, none of the same market scores
      higher, and none before it as high. */
  lemma KeptIsFirstBest(input: Input, n: Name) returns (i: nat)
    requires n in Kept(input)
    ensures var e, score := Competing(input), ScoreBy(Normalized(input.risk));
      && i < |e| && e[i] == n
      && (forall j :: 0 <= j < |e| && SameMarket(e[j], n) ==> score(e[j]) <= score(n))
      && (forall j :: 0 <= j < i && SameMarket(e[j], n) ==> score(e[j]) < score(n))
  {
    var e, score := Competing(input), ScoreBy(Normalized(input.risk));
    i := WinnerHasIndex(Market, score, e, |e|, n);
    forall j | 0 <= j < |e| && SameMarket(e[j], n) ensures Beats(score, e, i, j) {
      SameMarketExactly(e[j], n);
    }
  }

  /** No limit of `loose` is tighter than that of `tight`; one that is not positive does not apply. */
  ghost predicate NoTighter(loose: Worthiness, tight: Worthiness) {
    && (loose.minEdgeBps <= 0.0 || loose.minEdgeBps <= tight.minEdgeBps)
    && (loose.maxSpreadBps <= 0.0 || 0.0 < tight.maxSpreadBps <= loose.maxSpreadBps)
    && (loose.requireFV ==> tight.requireFV)
  }

  /** Relaxing the bar turns no competing name away. */
  lemma RelaxingKeepsCompeting(names: seq<Name>, tight: Worthiness, loose: Worthiness, open: seq<string>, n: Name)
    requires NoTighter(loose, tight) && n in Eligible(names, tight, open)
    ensures n in Eligible(names, loose, open)
  {
    EligibleExactly(names, tight, open, n);
    EligibleExactly(names, loose, open, n);
  }

  // ---------------------------------------------------------------- mixed sizes: it need not be

  function BoardName(condition: string, edgeBps: real, sizeUSD: real): Name {
    Name(condition, condition, "", edgeBps, 0.0, 0.0, 0.0, sizeUSD, "", "")
  }

  /** A board of three names under a gross cap of 10: one of size 10 and edge 300, two of size 5 and
      edge 200. */
  function MixedBoard(): Input {
    Input([BoardName("a", 300.0, 10.0), BoardName("b", 200.0, 5.0), BoardName("c", 200.0, 5.0)],
          DEFAULTS.(maxGrossUSD := 10.0), Worthiness(0.0, 0.0, false), [])
  }

  lemma MixedBoardCompetes()
    ensures Competing(MixedBoard()) == MixedBoard().names && Kept(MixedBoard()) == MixedBoard().names
    ensures Normalized(MixedBoard().risk) == MixedBoard().risk
  {
    var names := MixedBoard().names;
    NormalizeRepairs(MixedBoard().risk);
    assert DEFAULTS.sizingMode[0] == 'f';
    DistinctAllCompete(names, MixedBoard().worth);
    assert Market(names[0])[0] == 'a' && Market(names[1])[0] == 'b' && Market(names[2])[0] == 'c';
    DistinctAllWin(Market, ScoreBy(Normalized(MixedBoard().risk)), names, |names|);
  }

  lemma {:induction false} DistinctAllCompete(names: seq<Name>, w: Worthiness)
    requires forall n :: n in names ==> MayCompete(n, w, [])
    ensures Eligible(names, w, []) == names
  {
    if names != [] {
      DistinctAllCompete(names[..|names| - 1], w);
      assert names == names[..|names| - 1] + [names[|names| - 1]];
    }
  }

  lemma MixedBoardScores()
    ensures var score, names := ScoreBy(Normalized(MixedBoard().risk)), MixedBoard().names;
      score(names[0]) == 3.0 && score(names[1]) == 2.0 && score(names[2]) == 2.0
  {
    MixedBoardCompetes();
  }

  /** A best name that leaves no room for any other is all that is taken. */
  lemma FirstCrowdsOut(input: Input, best: Name)
    requires best in Kept(input)
    requires var c := Normalized(input.risk);
      && SizeBy(c)(best) <= LimitsOf(c).cap && LimitsOf(c).maxN > 0
      && forall n :: n in Kept(input) && n != best ==>
           ScoreBy(c)(n) < ScoreBy(c)(best) && SizeBy(c)(best) + SizeBy(c)(n) > LimitsOf(c).cap
    ensures Allocation(input).taken == [best]
  {
    var c := Normalized(input.risk);
    var ranked := Ranked(ScoreBy(c), Kept(input));
    KeptIsSound(input);
    RankedIsRanking(ScoreBy(c), Kept(input));
    SameElements(ranked, Kept(input));
    BestComesFirst(ScoreBy(c), ranked, best);
    forall i | 0 < i < |ranked| ensures ranked[i] in Kept(input) && ranked[i] != best {
      assert Market(ranked[0]) != Market(ranked[i]);
      assert ranked[i] in ranked;
    }
    FirstTakesAllRoom(LimitsOf(c), SizeBy(c), ranked);
  }

  lemma BestComesFirst(score: Name -> real, ranked: seq<Name>, best: Name)
    requires best in ranked && Descending(score, ranked)
    requires forall n :: n in ranked && n != best ==> score(n) < score(best)
    ensures ranked[0] == best
  {
    var i :| 0 <= i < |ranked| && ranked[i] == best;
    assert ranked[0] in ranked;
  }

  lemma MixedBoardTakesFirst()
    ensures Allocation(MixedBoard()).taken == [MixedBoard().names[0]]
  {
    MixedBoardCompetes();
    MixedBoardScores();
    FirstCrowdsOut(MixedBoard(), MixedBoard().names[0]);
  }

  /** One name, a tolerance larger than the gross cap of 10. */
  function SlackBoard(): Input {
    Input([BoardName("a", 300.0, 10.0 + SLACK)], DEFAULTS.(maxGrossUSD := 10.0), Worthiness(0.0, 0.0, false), [])
  }

  lemma OnlyNameIsKept(input: Input, only: Name)
    requires input.names == [only] && MayCompete(only, input.worth, input.open)
    ensures Kept(input) == [only]
  {
    assert input.names[..0] == [] && Eligible([], input.worth, input.open) == [];
    assert Competing(input) == [only];
    DistinctAllWin(Market, ScoreBy(Normalized(input.risk)), [only], 1);
  }

  lemma SlackBoardRisk()
    ensures Normalized(SlackBoard().risk) == SlackBoard().risk
  {
    NormalizeRepairs(SlackBoard().risk);
    assert DEFAULTS.sizingMode[0] == 'f';
  }

  /** It is taken, so gross exposure ends up above the configured cap. */
  lemma GrossCanPassCap()
    ensures var input := SlackBoard();
      var c := Normalized(input.risk);
      && c.maxGrossUSD == 10.0
      && Allocation(input).taken == input.names
      && Sum(SizeBy(c), Allocation(input).taken) > c.maxGrossUSD
  {
    var only := SlackBoard().names[0];
    SlackBoardRisk();
    OnlyNameIsKept(SlackBoard(), only);
    FirstCrowdsOut(SlackBoard(), only);
    SumOfTwo(SizeBy(Normalized(SlackBoard().risk)), only, only);
  }

  lemma SumOfTwo<T>(value: T -> real, x: T, y: T)
    ensures Sum(value, [x]) == value(x) && Sum(value, [x, y]) == value(x) + value(y)
  {
    assert [x, y][..1] == [x] && [x][..0] == [];
  }

  lemma MixedBoardPairFits()
    ensures var c, b, d := Normalized(MixedBoard().risk), MixedBoard().names[1], MixedBoard().names[2];
      Admissible(MixedBoard(), [b, d]) && FitsCaps(LimitsOf(c), SizeBy(c), [b, d])
  {
    var c, names := Normalized(MixedBoard().risk), MixedBoard().names;
    MixedBoardCompetes();
    assert Market(names[1])[0] == 'b' && Market(names[2])[0] == 'c';
    SumOfTwo(SizeBy(c), names[1], names[2]);
  }

  /** With mixed sizes the allocator can miss the optimum: the board's first name takes all the room,
      while the two smaller ones fit together and score more. */
  lemma MixedSizesCanMissOptimum()
    ensures var input := MixedBoard();
      var c, pick := Normalized(input.risk), [input.names[1], input.names[2]];
      && Admissible(input, pick)
      && FitsCaps(LimitsOf(c), SizeBy(c), pick)
      && Sum(ScoreBy(c), pick) > Sum(ScoreBy(c), Allocation(input).taken)
  {
    var score, names := ScoreBy(Normalized(MixedBoard().risk)), MixedBoard().names;
    MixedBoardPairFits();
    MixedBoardScores();
    MixedBoardTakesFirst();
    SumOfTwo(score, names[1], names[2]);
    SumOfTwo(score, names[0], names[0]);
  }

  // ---------------------------------------------------------------- the program

  method DedupeBest(score: Name -> real, batch: seq<Name>) returns (out: seq<Name>)
    ensures out == Winners(Market, score, batch, |batch|)
  {
    var best: map<string, nat> := map[];
    for i := 0 to |batch|
      invariant forall id :: id in best ==> best[id] < i && Market(batch[best[id]]) == id
      invariant forall j :: 0 <= j < i ==>
        Market(batch[j]) in best && Beats(score, batch, best[Market(batch[j])], j)
    {
      var id := Market(batch[i]);
      if id !in best {
        best := best[id := i];
      } else if score(batch[i]) > score(batch[best[id]]) {
        best := best[id := i];
      }
    }
    var keep := best.Values;
    out := [];
    for i := 0 to |batch|
      invariant out == Winners(Market, score, batch, i)
    {
      var b := best[Market(batch[i])];
      assert Wins(Market, score, batch, i) <==> b == i by {
        assert Wins(Market, score, batch, i) ==> Beats(score, batch, i, b);
      }
      assert i in keep <==> b == i by {
        if i in keep {
          var id :| id in best && best[id] == i;
        }
      }
      if i in keep {
        out := out + [batch[i]];
      }
    }
  }

  method Run(input: Input) returns (out: Result)
    ensures out == Allocation(input)
    ensures Decides(input, out)
  {
    AllocationDecides(input);
    var c := Normalized(input.risk);
    NormalizeRepairs(input.risk);
    var eligible, rejected := Screen(input);
    eligible := DedupeBest(ScoreBy(c), eligible);
    if |eligible| == 0 {
      assert AsRejected([]) == [];
      return Result([], rejected);
    }
    var order := RankOrder(Scores(ScoreBy(c), eligible));
    RankOrderIsRanking(Scores(ScoreBy(c), eligible));
    var taken, outranked := FillInOrder(c, eligible, order);
    out := Result(taken, rejected + outranked);
  }

  method Screen(input: Input) returns (eligible: seq<Name>, rejected: seq<Rejected>)
    ensures eligible == Competing(input)
    ensures rejected == Screened(input.names, input.worth, input.open)
    ensures forall n :: n in eligible <==> n in input.names && MeetsBar(n, input.worth) && !IsHeld(n, input.open)
    ensures forall n :: Rejected(n, Unworthy) in rejected <==> n in input.names && !MeetsBar(n, input.worth)
    ensures forall n :: Rejected(n, AlreadyOpen) in rejected <==>
      n in input.names && MeetsBar(n, input.worth) && IsHeld(n, input.open)
  {
    ScreenSplits(input);
    eligible, rejected := [], [];
    for i := 0 to |input.names|
      invariant eligible == Eligible(input.names[..i], input.worth, input.open)
      invariant rejected == Screened(input.names[..i], input.worth, input.open)
    {
      var n := input.names[i];
      assert input.names[..i + 1][..i] == input.names[..i];
      if IsUnworthy(n, input.worth) {
        rejected := rejected + [Rejected(n, Unworthy)];
      } else if IsOpen(n, input.open) {
        rejected := rejected + [Rejected(n, AlreadyOpen)];
      } else {
        eligible := eligible + [n];
      }
    }
    assert input.names[..|input.names|] == input.names;
  }

  method FillInOrder(c: Config, eligible: seq<Name>, order: seq<Rankable>)
    returns (taken: seq<Name>, rejected: seq<Rejected>)
    requires c.maxGrossUSD > 0.0
    requires forall x :: x in order ==> x.index < |eligible|
    ensures taken == Fill(LimitsOf(c), SizeBy(c), Pick(eligible, order)).taken
    ensures rejected == AsRejected(Fill(LimitsOf(c), SizeBy(c), Pick(eligible, order)).outranked)
  {
    ghost var l, ranked := LimitsOf(c), Pick(eligible, order);
    var gross := 0.0;
    taken, rejected := [], [];
    for k := 0 to |order|
      invariant taken == Fill(l, SizeBy(c), ranked[..k]).taken
      invariant gross == Fill(l, SizeBy(c), ranked[..k]).gross
      invariant rejected == AsRejected(Fill(l, SizeBy(c), ranked[..k]).outranked)
    {
      var n := eligible[order[k].index];
      assert ranked[..k + 1][..k] == ranked[..k];
      if |taken| >= c.maxPositions {
        rejected := rejected + [Rejected(n, Outranked)];
        continue;
      }
      var add := n.sizeUSD;
      if add <= 0.0 {
        add := Positive(c.maxPositionUSD, 500.0);
      }
      if c.maxGrossUSD > 0.0 && gross + add > c.maxGrossUSD + SLACK {
        rejected := rejected + [Rejected(n, Outranked)];
        continue;
      }
      taken := taken + [n];
      gross := gross + add;
    }
    assert ranked[..|order|] == ranked;
  }
}
