/** The offline candidate board at a decision time (`internal/eval/features.go`,
    `internal/eval/backtest.go`, and the universe loop of `internal/eval/runner.go`), and why it
    cannot look ahead: built at T, it is the same on any two histories that agree up to T. */
module PitBoard {
  import opened Basics
  import opened Sorting
  import opened AsOf
  import opened Series
  import opened Snapshots
  import Cost
  import Board
  import Scoring

  const MINUTE: int := 60 * 1000000000
  const HOUR: int := 60 * MINUTE
  const DAY: int := 24 * HOUR

  datatype Meta = Meta(condition: string, token: string, negRisk: bool, groupId: string, legs: seq<string>, endDate: int)

  datatype History = History(
    markets: seq<Meta>,
    prices: map<string, Prices>,
    books: map<string, seq<Book>>,
    snapshots: seq<Row>)

  ghost predicate Sound(h: History) {
    && (forall tok :: tok in h.prices ==> Valid(h.prices[tok]))
    && (forall tok :: tok in h.books ==> Ascends(BookTimes(h.books[tok])))
  }

  predicate Shaped(prices: map<string, Prices>) {
    forall tok :: tok in prices ==> |prices[tok].times| == |prices[tok].prices|
  }

  /** Everything that was known at `t`. Markets, with their end dates, are known in advance. */
  function KnownAt(h: History, t: int): History
    requires Shaped(h.prices)
  {
    History(
      h.markets,
      map tok | tok in h.prices && Upto(h.prices[tok].times, t) > 0 :: Past(h.prices[tok], t),
      map tok | tok in h.books && PastBooks(h.books[tok], t) != [] :: PastBooks(h.books[tok], t),
      RowsUpto(h.snapshots, t))
  }

  // ---------------------------------------------------------------- reads by token

  /** A token's positive mid at `t`. */
  function MidAt(prices: map<string, Prices>, token: string, t: int): Option<real>
    requires Shaped(prices)
  {
    if token in prices && HasPositive(MidAsOf(prices[token], t)) then MidAsOf(prices[token], t) else None
  }

  function BookAt(books: map<string, seq<Book>>, token: string, t: int, maxAge: int): Option<Book> {
    if token in books then BookAsOf(books[token], t, maxAge) else None
  }

  // ---------------------------------------------------------------- neg-risk group mids

  /** Own mid and related legs: a leg with a mid overrides. */
  function NearMid(t: int, self: Meta, byCond: map<string, Meta>, prices: map<string, Prices>, legs: seq<string>, id: string)
    : Option<real>
    requires Shaped(prices)
  {
    if id in legs && id in byCond && MidAt(prices, byCond[id].token, t).Some? then MidAt(prices, byCond[id].token, t)
    else if id == self.condition then MidAt(prices, self.token, t)
    else None
  }

  /** The mid a condition contributes to the group of `self`. */
  function GroupMid(t: int, self: Meta, byCond: map<string, Meta>, prices: map<string, Prices>, id: string): Option<real>
    requires Shaped(prices)
  {
    if NearMid(t, self, byCond, prices, self.legs, id).Some? then NearMid(t, self, byCond, prices, self.legs, id)
    else if self.groupId != "" && id != self.condition && id in byCond && byCond[id].groupId == self.groupId then
      MidAt(prices, byCond[id].token, t)
    else None
  }

  /** Mids of the group a market belongs to, by condition; empty unless two legs are observed. */
  function GroupMids(t: int, self: Meta, byCond: map<string, Meta>, prices: map<string, Prices>): map<string, real>
    requires Shaped(prices)
  {
    if self.groupId == "" && |self.legs| == 0 then map[] else
    var out := AllMids(t, self, byCond, prices);
    if |out| < 2 then map[] else out
  }

  function AllMids(t: int, self: Meta, byCond: map<string, Meta>, prices: map<string, Prices>): map<string, real>
    requires Shaped(prices)
  {
    map id | id in {self.condition} + byCond.Keys && GroupMid(t, self, byCond, prices, id).Some?
      :: GroupMid(t, self, byCond, prices, id).value
  }

  method ReadMid(prices: map<string, Prices>, token: string, t: int) returns (mid: Option<real>)
    requires forall tok :: tok in prices ==> Valid(prices[tok])
    ensures Shaped(prices) && mid == MidAt(prices, token, t)
  {
    if token !in prices {
      return None;
    }
    mid := FindMidAsOf(prices[token], t);
    if mid.Some? && mid.value > 0.0 {
      return mid;
    }
    return None;
  }

  lemma AreAllMids(t: int, self: Meta, byCond: map<string, Meta>, prices: map<string, Prices>, out: map<string, real>)
    requires Shaped(prices)
    requires forall id :: id in out <==> GroupMid(t, self, byCond, prices, id).Some?
    requires forall id :: id in out ==> GroupMid(t, self, byCond, prices, id) == Some(out[id])
    ensures out == AllMids(t, self, byCond, prices)
  {
    forall id | id in out ensures id in {self.condition} + byCond.Keys {
      assert GroupMid(t, self, byCond, prices, id).Some?;
    }
  }

  method GroupMidsAtT(t: int, self: Meta, byCond: map<string, Meta>, prices: map<string, Prices>)
    returns (out: map<string, real>)
    requires forall tok :: tok in prices ==> Valid(prices[tok])
    ensures Shaped(prices) && out == GroupMids(t, self, byCond, prices)
  {
    if self.groupId == "" && |self.legs| == 0 {
      return map[];
    }
    out := OwnAndLegs(t, self, byCond, prices);
    out := SameGroup(t, self, byCond, prices, out);
    AreAllMids(t, self, byCond, prices, out);
    if |out| < 2 {
      return map[];
    }
  }

  /** Own mid first, then the related legs that have a mid. */
  method OwnAndLegs(t: int, self: Meta, byCond: map<string, Meta>, prices: map<string, Prices>)
    returns (out: map<string, real>)
    requires forall tok :: tok in prices ==> Valid(prices[tok])
    ensures Shaped(prices)
    ensures forall id :: id in out <==> NearMid(t, self, byCond, prices, self.legs, id).Some?
    ensures forall id :: id in out ==> NearMid(t, self, byCond, prices, self.legs, id) == Some(out[id])
  {
    out := map[];
    var own := ReadMid(prices, self.token, t);
    if own.Some? {
      out := out[self.condition := own.value];
    }
    for i := 0 to |self.legs|
      invariant forall id :: id in out <==> NearMid(t, self, byCond, prices, self.legs[..i], id).Some?
      invariant forall id :: id in out ==> NearMid(t, self, byCond, prices, self.legs[..i], id) == Some(out[id])
    {
      var id := self.legs[i];
      assert self.legs[..i + 1] == self.legs[..i] + [id];
      if id !in byCond {
        continue;
      }
      var mid := ReadMid(prices, byCond[id].token, t);
      if mid.Some? {
        out := out[id := mid.value];
      }
    }
    assert self.legs[..|self.legs|] == self.legs;
  }

  /** Then every other market of the same group that is not in yet. */
  method SameGroup(t: int, self: Meta, byCond: map<string, Meta>, prices: map<string, Prices>, near: map<string, real>)
    returns (out: map<string, real>)
    requires forall tok :: tok in prices ==> Valid(prices[tok])
    requires Shaped(prices)
    requires forall id :: id in near <==> NearMid(t, self, byCond, prices, self.legs, id).Some?
    requires forall id :: id in near ==> NearMid(t, self, byCond, prices, self.legs, id) == Some(near[id])
    ensures forall id :: id in out <==> GroupMid(t, self, byCond, prices, id).Some?
    ensures forall id :: id in out ==> GroupMid(t, self, byCond, prices, id) == Some(out[id])
  {
    out := near;
    if self.groupId == "" {
      return;
    }
    var left := byCond.Keys;
    while left != {}
      invariant left <= byCond.Keys
      invariant forall id :: id in near ==> id in out
      invariant forall id :: id in out ==> GroupMid(t, self, byCond, prices, id) == Some(out[id])
      invariant forall id :: id !in left && GroupMid(t, self, byCond, prices, id).Some? ==> id in out
      decreases left
    {
      var id :| id in left;
      left := left - {id};
      if byCond[id].groupId != self.groupId || id == self.condition {
        continue;
      }
      if id in out {
        continue;
      }
      var mid := ReadMid(prices, byCond[id].token, t);
      if mid.Some? {
        out := out[id := mid.value];
      }
    }
  }

  // ---------------------------------------------------------------- features of one market

  function ActivityProxy(points: nat, path: real): real {
    points as real * 1000.0 + path * 100000.0
  }

  /** The feature vector without its book part. */
  function SeriesFeatures(t: int, meta: Meta, mid: real, r1m: real, r5m: real, r1h: real, r1d: real,
                          points: nat, path: real): Scoring.Features
  {
    Scoring.Features(
      meta.condition, meta.token, 0.0, 0.0, mid, 0.0, 0.0, 0.0, 0.0, 0.0, r1m, r5m, r1h, r1d,
      if meta.endDate != 0 then (meta.endDate - t) as real / HOUR as real else 0.0,
      ActivityProxy(points, path), meta.negRisk, meta.groupId, 0.0, false, false, false)
  }

  function WithBook(f: Scoring.Features, t: int, book: Option<Book>, minDepth: real): Scoring.Features {
    if book.Some? && Cost.ValidBook(book.value.bid, book.value.ask) then
      Scoring.FillBookDerived(
        f.(bestBid := book.value.bid, bestAsk := book.value.ask, bidDepth := book.value.bidDepth,
           askDepth := book.value.askDepth, bookAgeSec := (t - book.value.time) as real / 1000000000.0), minDepth)
    else f.(missingBook := true)
  }

  function FeaturesAsOf(t: int, meta: Meta, s: Prices, book: Option<Book>, minDepth: real): Option<Scoring.Features>
    requires |s.times| == |s.prices|
  {
    if !HasPositive(MidAsOf(s, t)) then None else
    Some(WithBook(
      SeriesFeatures(t, meta, MidAsOf(s, t).value, AbsRet(s, t, MINUTE), AbsRet(s, t, 5 * MINUTE), AbsRet(s, t, HOUR),
                     AbsRet(s, t, DAY), PointCount(s, t, DAY), PathActivity(s, t, DAY)),
      t, book, minDepth))
  }

  method ReadAbsRet(s: Prices, t: int, window: int) returns (r: real)
    requires Valid(s)
    ensures r == AbsRet(s, t, window)
  {
    var midT := FindMidAsOf(s, t);
    if midT.None? || midT.value <= 0.0 {
      return 0.0;
    }
    var mid0 := FindMidAsOf(s, t - window);
    if mid0.None? || mid0.value <= 0.0 {
      return 0.0;
    }
    return Abs(midT.value / mid0.value - 1.0);
  }

  method ReadFeatures(t: int, meta: Meta, s: Prices, book: Option<Book>, minDepth: real)
    returns (f: Option<Scoring.Features>)
    requires Valid(s)
    ensures f == FeaturesAsOf(t, meta, s, book, minDepth)
  {
    var mid := FindMidAsOf(s, t);
    if mid.None? || mid.value <= 0.0 {
      return None;
    }
    var pts := CountPoints(s, t, DAY);
    var path := SumPathActivity(s, t, DAY);
    var r1m := ReadAbsRet(s, t, MINUTE);
    var r5m := ReadAbsRet(s, t, 5 * MINUTE);
    var r1h := ReadAbsRet(s, t, HOUR);
    var r1d := ReadAbsRet(s, t, DAY);
    return Some(WithBook(SeriesFeatures(t, meta, mid.value, r1m, r5m, r1h, r1d, pts, path), t, book, minDepth));
  }

  // ---------------------------------------------------------------- the universe

  /** Market facts with the latest snapshot's overlay. */
  function Overlaid(m: Meta, snap: Option<Row>): Meta {
    if snap.None? then m else
    var r := snap.value;
    m.(negRisk := r.negRisk,
       groupId := if r.groupId != "" then r.groupId else m.groupId,
       legs := if |r.legs| > 0 then r.legs else m.legs)
  }

  function ByCondition(markets: seq<Meta>): map<string, Meta> {
    if markets == [] then map[]
    else ByCondition(markets[..|markets| - 1])[markets[|markets| - 1].condition := markets[|markets| - 1]]
  }

  function VolumeOf(points: nat, snap: Option<Row>): real {
    if snap.Some? && snap.value.volume > 0.0 then snap.value.volume else points as real
  }

  /** One market at `t`, or nothing when it has ended or has no positive mid yet. */
  function PointAt(h: History, m: Meta, t: int, maxAge: int, minDepth: real): Option<Scoring.Candidate>
    requires Shaped(h.prices)
  {
    if m.token !in h.prices || (m.endDate != 0 && m.endDate <= t) then None else
    var s, snap := h.prices[m.token], Lookup(h.snapshots, t, m.condition);
    var byCond := ByCondition(h.markets);
    var meta := Overlaid(if m.condition in byCond then byCond[m.condition] else m, snap);
    var f := FeaturesAsOf(t, meta, s, BookAt(h.books, m.token, t, maxAge), minDepth);
    if f.None? then None else
    var mids := GroupMids(t, meta, byCond, h.prices);
    Some(Scoring.Candidate(f.value, mids, |mids|, 0.0, 0.0, VolumeOf(PointCount(s, t, DAY), snap)))
  }

  function Universe(h: History, markets: seq<Meta>, t: int, maxAge: int, minDepth: real): seq<Scoring.Candidate>
    requires Shaped(h.prices)
  {
    if markets == [] then [] else
    var front := Universe(h, markets[..|markets| - 1], t, maxAge, minDepth);
    var p := PointAt(h, markets[|markets| - 1], t, maxAge, minDepth);
    if p.None? then front else front + [p.value]
  }

  method IndexByCondition(markets: seq<Meta>) returns (byCond: map<string, Meta>)
    ensures byCond == ByCondition(markets)
  {
    byCond := map[];
    for i := 0 to |markets|
      invariant byCond == ByCondition(markets[..i])
    {
      assert markets[..i + 1][..i] == markets[..i];
      byCond := byCond[markets[i].condition := markets[i]];
    }
    assert markets[..|markets|] == markets;
  }

  method BuildUniverse(h: History, t: int, maxAge: int, minDepth: real) returns (points: seq<Scoring.Candidate>)
    requires Sound(h)
    ensures Shaped(h.prices) && points == Universe(h, h.markets, t, maxAge, minDepth)
  {
    var idx := BuildSnapIndex(h.snapshots);
    var byCond := IndexByCondition(h.markets);
    points := [];
    for i := 0 to |h.markets|
      invariant points == Universe(h, h.markets[..i], t, maxAge, minDepth)
    {
      assert h.markets[..i + 1][..i] == h.markets[..i];
      var p := BuildPoint(h, idx, byCond, h.markets[i], t, maxAge, minDepth);
      if p.Some? {
        points := points + [p.value];
      }
    }
    assert h.markets[..|h.markets|] == h.markets;
  }

  method BuildPoint(h: History, idx: SnapIndex, byCond: map<string, Meta>, m: Meta, t: int, maxAge: int, minDepth: real)
    returns (p: Option<Scoring.Candidate>)
    requires Sound(h) && Indexes(idx, h.snapshots) && byCond == ByCondition(h.markets)
    ensures Shaped(h.prices) && p == PointAt(h, m, t, maxAge, minDepth)
  {
    if m.token !in h.prices {
      return None;
    }
    if m.endDate != 0 && m.endDate <= t {
      return None;
    }
    var s := h.prices[m.token];
    var snap := LookupCond(idx, h.snapshots, t, m.condition);
    var meta := Overlaid(if m.condition in byCond then byCond[m.condition] else m, snap);
    var book: Option<Book> := None;
    if m.token in h.books {
      book := FindBookAsOf(h.books[m.token], t, maxAge);
    }
    var f := ReadFeatures(t, meta, s, book, minDepth);
    if f.None? {
      return None;
    }
    var mids := GroupMidsAtT(t, meta, byCond, h.prices);
    var pts := CountPoints(s, t, DAY);
    return Some(Scoring.Candidate(f.value, mids, |mids|, 0.0, 0.0, VolumeOf(pts, snap)));
  }

  // ---------------------------------------------------------------- the candidate board

  function MoreVolume(a: Scoring.Candidate, b: Scoring.Candidate): bool {
    a.tieBreak > b.tieBreak
  }

  /** The universe cut: the most active markets when there are more than the cap. */
  function CutUniverse(points: seq<Scoring.Candidate>, cap: nat): seq<Scoring.Candidate> {
    if |points| > cap then StableSort(points, MoreVolume)[..cap] else points
  }

  /** The board the backtest trades at `t`; missing books are never a reason to drop offline. */
  ghost function CandidateBoard(env: Scoring.Env, w: Scoring.Weights, h: History, t: int, maxAge: int, cap: nat, n: int)
    : seq<Board.Row<Scoring.Candidate>>
    requires Shaped(h.prices)
  {
    var points := CutUniverse(Universe(h, h.markets, t, maxAge, w.minDepthShares), cap);
    Board.Cut(Board.Ranked(Scoring.PolicyOf(env, w.(dropMissingBook := false)), points), n)
  }

  // ---------------------------------------------------------------- no look-ahead

  lemma KnownIsShaped(h: History, t: int)
    requires Sound(h)
    ensures Shaped(h.prices) && Shaped(KnownAt(h, t).prices)
  {
  }

  lemma MidIsKnown(h: History, t: int, token: string)
    requires Sound(h)
    ensures Shaped(h.prices) && Shaped(KnownAt(h, t).prices)
    ensures MidAt(KnownAt(h, t).prices, token, t) == MidAt(h.prices, token, t)
  {
    if token in h.prices {
      MidIsPast(h.prices[token], t, t);
    }
  }

  lemma BookIsKnown(h: History, t: int, token: string, maxAge: int)
    requires Sound(h)
    ensures Shaped(h.prices)
    ensures BookAt(KnownAt(h, t).books, token, t, maxAge) == BookAt(h.books, token, t, maxAge)
  {
    if token in h.books {
      BookIsPast(h.books[token], t, maxAge);
    }
  }

  lemma GroupMidsAreKnown(h: History, t: int, self: Meta, byCond: map<string, Meta>)
    requires Sound(h)
    ensures Shaped(h.prices) && Shaped(KnownAt(h, t).prices)
    ensures GroupMids(t, self, byCond, KnownAt(h, t).prices) == GroupMids(t, self, byCond, h.prices)
  {
    var known := KnownAt(h, t).prices;
    forall id ensures GroupMid(t, self, byCond, known, id) == GroupMid(t, self, byCond, h.prices, id) {
      MidIsKnown(h, t, self.token);
      if id in byCond {
        MidIsKnown(h, t, byCond[id].token);
      }
    }
    assert AllMids(t, self, byCond, known) == AllMids(t, self, byCond, h.prices);
  }

  lemma FeaturesArePast(t: int, meta: Meta, s: Prices, book: Option<Book>, minDepth: real)
    requires Valid(s)
    ensures Valid(Past(s, t))
    ensures FeaturesAsOf(t, meta, Past(s, t), book, minDepth) == FeaturesAsOf(t, meta, s, book, minDepth)
  {
    MidIsPast(s, t, t);
    AbsRetIsPast(s, t, MINUTE);
    AbsRetIsPast(s, t, 5 * MINUTE);
    AbsRetIsPast(s, t, HOUR);
    AbsRetIsPast(s, t, DAY);
    CountIsPast(s, t, DAY);
    ActivityIsPast(s, t, DAY);
  }

  lemma PointIsKnown(h: History, m: Meta, t: int, maxAge: int, minDepth: real)
    requires Sound(h)
    ensures Shaped(h.prices) && Shaped(KnownAt(h, t).prices)
    ensures PointAt(KnownAt(h, t), m, t, maxAge, minDepth) == PointAt(h, m, t, maxAge, minDepth)
  {
    if m.token in h.prices && !(m.endDate != 0 && m.endDate <= t) {
      var s, snap := h.prices[m.token], Lookup(h.snapshots, t, m.condition);
      var byCond := ByCondition(h.markets);
      var meta := Overlaid(if m.condition in byCond then byCond[m.condition] else m, snap);
      LookupIsPast(h.snapshots, t, m.condition);
      BookIsKnown(h, t, m.token, maxAge);
      FeaturesArePast(t, meta, s, BookAt(h.books, m.token, t, maxAge), minDepth);
      CountIsPast(s, t, DAY);
      GroupMidsAreKnown(h, t, meta, byCond);
    }
  }

  lemma {:induction false} UniverseIsKnown(h: History, markets: seq<Meta>, t: int, maxAge: int, minDepth: real)
    requires Sound(h)
    ensures Shaped(h.prices) && Shaped(KnownAt(h, t).prices)
    ensures Universe(KnownAt(h, t), markets, t, maxAge, minDepth) == Universe(h, markets, t, maxAge, minDepth)
  {
    KnownIsShaped(h, t);
    if markets != [] {
      UniverseIsKnown(h, markets[..|markets| - 1], t, maxAge, minDepth);
      PointIsKnown(h, markets[|markets| - 1], t, maxAge, minDepth);
    }
  }

  /** No look-ahead: two histories that agree on everything known at `t` give the same board at `t`,
      whatever comes later in either of them. */
  lemma BoardCannotLookAhead(env: Scoring.Env, w: Scoring.Weights, h1: History, h2: History, t: int, maxAge: int,
                             cap: nat, n: int)
    requires Sound(h1) && Sound(h2)
    requires Shaped(h1.prices) && Shaped(h2.prices) && KnownAt(h1, t) == KnownAt(h2, t)
    ensures CandidateBoard(env, w, h1, t, maxAge, cap, n) == CandidateBoard(env, w, h2, t, maxAge, cap, n)
  {
    UniverseIsKnown(h1, h1.markets, t, maxAge, w.minDepthShares);
    UniverseIsKnown(h2, h2.markets, t, maxAge, w.minDepthShares);
  }
}
