/** Competing for scarce places: keep the best item of every market, rank the rest, and fill
    under a count cap and a gross cap. What an item is, which market it is in, what it scores
    and how much room it takes are parameters. */
module Greedy {
  import opened Sorting

  // ---------------------------------------------------------------- one item per market

  ghost predicate Beats<T>(score: T -> real, batch: seq<T>, i: nat, j: nat)
    requires i < |batch| && j < |batch|
  {
    score(batch[j]) < score(batch[i]) || (score(batch[j]) == score(batch[i]) && i <= j)
  }

  /** Nothing in the same market scores higher, and nothing before it scores as high. */
  ghost predicate Wins<T, K>(market: T -> K, score: T -> real, batch: seq<T>, i: nat)
    requires i < |batch|
  {
    forall j :: 0 <= j < |batch| && market(batch[j]) == market(batch[i]) ==> Beats(score, batch, i, j)
  }

  ghost function Winners<T, K>(market: T -> K, score: T -> real, batch: seq<T>, k: nat): seq<T>
    requires k <= |batch|
  {
    if k == 0 then []
    else if Wins(market, score, batch, k - 1) then Winners(market, score, batch, k - 1) + [batch[k - 1]]
    else Winners(market, score, batch, k - 1)
  }

  ghost function Losers<T, K>(market: T -> K, score: T -> real, batch: seq<T>, k: nat): seq<T>
    requires k <= |batch|
  {
    if k == 0 then []
    else if Wins(market, score, batch, k - 1) then Losers(market, score, batch, k - 1)
    else Losers(market, score, batch, k - 1) + [batch[k - 1]]
  }

  /** An item added to either list. */
  lemma OneMore<T>(a: seq<T>, b: seq<T>, c: seq<T>, d: seq<T>, all: seq<T>, x: T)
    requires multiset(a) + multiset(b) == multiset(all)
    requires (c == a + [x] && d == b) || (c == a && d == b + [x])
    ensures multiset(c) + multiset(d) == multiset(all + [x])
  {
    MultisetSnoc(a, x);
    MultisetSnoc(b, x);
    MultisetSnoc(all, x);
  }

  lemma PrefixNext<T>(s: seq<T>, k: nat)
    requires 0 < k <= |s|
    ensures s[..k] == s[..k - 1] + [s[k - 1]]
  {
  }

  lemma {:induction false} WinnersAndLosers<T, K>(market: T -> K, score: T -> real, batch: seq<T>, k: nat)
    requires k <= |batch|
    ensures multiset(Winners(market, score, batch, k)) + multiset(Losers(market, score, batch, k))
         == multiset(batch[..k])
  {
    if k > 0 {
      WinnersAndLosers(market, score, batch, k - 1);
      OneMore(Winners(market, score, batch, k - 1), Losers(market, score, batch, k - 1),
              Winners(market, score, batch, k), Losers(market, score, batch, k), batch[..k - 1], batch[k - 1]);
      PrefixNext(batch, k);
    }
  }

  lemma {:induction false} WinnerHasIndex<T, K>(market: T -> K, score: T -> real, batch: seq<T>, k: nat, x: T)
    returns (i: nat)
    requires k <= |batch| && x in Winners(market, score, batch, k)
    ensures i < k && batch[i] == x && Wins(market, score, batch, i)
  {
    if Wins(market, score, batch, k - 1) && batch[k - 1] == x {
      i := k - 1;
    } else {
      i := WinnerHasIndex(market, score, batch, k - 1, x);
    }
  }

  lemma {:induction false} LoserHasIndex<T, K>(market: T -> K, score: T -> real, batch: seq<T>, k: nat, x: T)
    returns (i: nat)
    requires k <= |batch| && x in Losers(market, score, batch, k)
    ensures i < k && batch[i] == x && !Wins(market, score, batch, i)
  {
    if !Wins(market, score, batch, k - 1) && batch[k - 1] == x {
      i := k - 1;
    } else {
      i := LoserHasIndex(market, score, batch, k - 1, x);
    }
  }

  lemma {:induction false} WinnerIsKept<T, K>(market: T -> K, score: T -> real, batch: seq<T>, k: nat, i: nat)
    requires i < k <= |batch| && Wins(market, score, batch, i)
    ensures batch[i] in Winners(market, score, batch, k)
  {
    if i < k - 1 {
      WinnerIsKept(market, score, batch, k - 1, i);
    }
  }

  ghost predicate DistinctMarkets<T, K>(market: T -> K, s: seq<T>) {
    forall i, j :: 0 <= i < j < |s| ==> market(s[i]) != market(s[j])
  }

  /** Two winners never share a market. */
  lemma {:induction false} WinnersDistinct<T, K>(market: T -> K, score: T -> real, batch: seq<T>, k: nat)
    requires k <= |batch|
    ensures DistinctMarkets(market, Winners(market, score, batch, k))
  {
    if k > 0 {
      WinnersDistinct(market, score, batch, k - 1);
      var w := Winners(market, score, batch, k - 1);
      if Wins(market, score, batch, k - 1) {
        forall i | 0 <= i < |w|
          ensures market(w[i]) != market(batch[k - 1])
        {
          var p := WinnerHasIndex(market, score, batch, k - 1, w[i]);
          assert !Beats(score, batch, k - 1, p) || !Beats(score, batch, p, k - 1);
        }
      }
    }
  }

  /** Without rivals everybody wins. */
  lemma {:induction false} DistinctAllWin<T, K>(market: T -> K, score: T -> real, batch: seq<T>, k: nat)
    requires k <= |batch| && DistinctMarkets(market, batch)
    ensures Winners(market, score, batch, k) == batch[..k]
  {
    if k > 0 {
      DistinctAllWin(market, score, batch, k - 1);
      forall j | 0 <= j < |batch| && market(batch[j]) == market(batch[k - 1]) ensures j == k - 1 {
      }
      assert Wins(market, score, batch, k - 1);
      assert batch[..k] == batch[..k - 1] + [batch[k - 1]];
    }
  }

  /** Every market keeps a winner that scores at least as much as any of its items. */
  lemma MarketHasWinner<T, K>(market: T -> K, score: T -> real, batch: seq<T>, i: nat) returns (w: nat)
    requires i < |batch|
    ensures w < |batch| && Wins(market, score, batch, w) && batch[w] in Winners(market, score, batch, |batch|)
    ensures market(batch[w]) == market(batch[i]) && score(batch[w]) >= score(batch[i])
  {
    w := i;
    for k := 0 to |batch|
      invariant w < |batch| && market(batch[w]) == market(batch[i]) && score(batch[w]) >= score(batch[i])
      invariant forall j :: 0 <= j < k && market(batch[j]) == market(batch[i]) ==> Beats(score, batch, w, j)
    {
      if market(batch[k]) == market(batch[i]) && !Beats(score, batch, w, k) {
        w := k;
      }
    }
    WinnerIsKept(market, score, batch, |batch|, w);
  }

  // ---------------------------------------------------------------- greedy fill

  /** `cap` is the gross bound the fill applies. */
  datatype Limits = Limits(maxN: int, cap: real)

  predicate BreaksCap(l: Limits, count: nat, gross: real, add: real) {
    count >= l.maxN || gross + add > l.cap
  }

  datatype Filled<T> = Filled(taken: seq<T>, outranked: seq<T>, gross: real)

  function Fill<T>(l: Limits, size: T -> real, ranked: seq<T>): Filled<T> {
    if ranked == [] then Filled([], [], 0.0) else
    var st, x := Fill(l, size, ranked[..|ranked| - 1]), ranked[|ranked| - 1];
    if BreaksCap(l, |st.taken|, st.gross, size(x)) then
      Filled(st.taken, st.outranked + [x], st.gross)
    else
      Filled(st.taken + [x], st.outranked, st.gross + size(x))
  }

  ghost function Sum<T>(value: T -> real, s: seq<T>): real {
    if s == [] then 0.0 else Sum(value, s[..|s| - 1]) + value(s[|s| - 1])
  }

  lemma SumSnoc<T>(value: T -> real, s: seq<T>, x: T)
    ensures Sum(value, s + [x]) == Sum(value, s) + value(x)
  {
    assert (s + [x])[..|s|] == s;
  }

  ghost predicate FitsCaps<T>(l: Limits, size: T -> real, s: seq<T>) {
    |s| <= l.maxN && Sum(size, s) <= l.cap
  }

  /** The fill stays within both caps, loses nothing, and turned an item away only when adding
      it to the final selection would break a cap. */
  lemma {:induction false} FillIsSound<T>(l: Limits, size: T -> real, ranked: seq<T>)
    requires l.maxN >= 0 && l.cap >= 0.0
    requires forall x :: x in ranked ==> size(x) > 0.0
    ensures Fill(l, size, ranked).gross == Sum(size, Fill(l, size, ranked).taken)
    ensures FitsCaps(l, size, Fill(l, size, ranked).taken)
    ensures multiset(Fill(l, size, ranked).taken) + multiset(Fill(l, size, ranked).outranked) == multiset(ranked)
    ensures forall x :: x in Fill(l, size, ranked).outranked ==>
      BreaksCap(l, |Fill(l, size, ranked).taken|, Fill(l, size, ranked).gross, size(x))
  {
    if ranked != [] {
      var front, x := ranked[..|ranked| - 1], ranked[|ranked| - 1];
      assert ranked == front + [x];
      FillIsSound(l, size, front);
      SumSnoc(size, Fill(l, size, front).taken, x);
    }
  }

  ghost predicate Descending<T>(score: T -> real, s: seq<T>) {
    forall i, j :: 0 <= i < j < |s| ==> score(s[i]) >= score(s[j])
  }

  /** Taken items stay in rank order, one per market. */
  lemma {:induction false} FillKeepsOrder<T, K>(
    l: Limits, size: T -> real, market: T -> K, score: T -> real, ranked: seq<T>)
    requires Descending(score, ranked) && DistinctMarkets(market, ranked)
    ensures Descending(score, Fill(l, size, ranked).taken)
    ensures DistinctMarkets(market, Fill(l, size, ranked).taken)
    ensures forall x :: x in Fill(l, size, ranked).taken ==> x in ranked
  {
    if ranked != [] {
      var front, x := ranked[..|ranked| - 1], ranked[|ranked| - 1];
      FillKeepsOrder(l, size, market, score, front);
      forall y | y in Fill(l, size, front).taken
        ensures score(y) >= score(x) && market(y) != market(x)
      {
        assert y in front;
      }
    }
  }

  // ---------------------------------------------------------------- a cap with slack

  /** The fill under `cap` has a place left at rank `k`, and the item there passes the cap by at most `slack`. */
  ghost predicate InSlack<T>(n: int, cap: real, slack: real, size: T -> real, ranked: seq<T>, k: nat)
    requires k < |ranked|
  {
    var st := Fill(Limits(n, cap), size, ranked[..k]);
    |st.taken| < n && cap < st.gross + size(ranked[k]) <= cap + slack
  }

  ghost predicate NoneInSlack<T>(n: int, cap: real, slack: real, size: T -> real, ranked: seq<T>) {
    forall k :: 0 <= k < |ranked| ==> !InSlack(n, cap, slack, size, ranked, k)
  }

  lemma NoneInSlackNext<T>(n: int, cap: real, slack: real, size: T -> real, ranked: seq<T>)
    requires ranked != []
    ensures NoneInSlack(n, cap, slack, size, ranked) <==>
      && NoneInSlack(n, cap, slack, size, ranked[..|ranked| - 1])
      && !InSlack(n, cap, slack, size, ranked, |ranked| - 1)
  {
    var front := ranked[..|ranked| - 1];
    forall k | 0 <= k < |front|
      ensures InSlack(n, cap, slack, size, front, k) <==> InSlack(n, cap, slack, size, ranked, k)
    {
      assert front[..k] == ranked[..k];
    }
  }

  /** A fill whose cap test has slack stays within the cap itself exactly when no rank is in the slack, and
      is then the fill without slack. */
  lemma {:induction false} CapHoldsExactly<T>(n: int, cap: real, slack: real, size: T -> real, ranked: seq<T>)
    requires cap >= 0.0 && slack >= 0.0
    requires forall x :: x in ranked ==> size(x) > 0.0
    ensures Fill(Limits(n, cap + slack), size, ranked).gross <= cap <==> NoneInSlack(n, cap, slack, size, ranked)
    ensures NoneInSlack(n, cap, slack, size, ranked) ==>
      Fill(Limits(n, cap + slack), size, ranked) == Fill(Limits(n, cap), size, ranked)
  {
    if ranked != [] {
      CapHoldsExactly(n, cap, slack, size, ranked[..|ranked| - 1]);
      NoneInSlackNext(n, cap, slack, size, ranked);
    }
  }

  // ---------------------------------------------------------------- smaller first: the fill is optimal

  /** Sizes never decrease down the ranking. */
  ghost predicate SmallerFirst<T>(size: T -> real, ranked: seq<T>) {
    forall i, j :: 0 <= i < j < |ranked| ==> size(ranked[i]) <= size(ranked[j])
  }

  /** Then the fill takes a prefix and stops only when a cap stops it. */
  lemma {:induction false} SmallerFirstTakesPrefix<T>(l: Limits, size: T -> real, ranked: seq<T>)
    requires SmallerFirst(size, ranked)
    ensures |Fill(l, size, ranked).taken| <= |ranked|
    ensures Fill(l, size, ranked).taken == ranked[..|Fill(l, size, ranked).taken|]
    ensures Fill(l, size, ranked).gross == Sum(size, Fill(l, size, ranked).taken)
    ensures var m := |Fill(l, size, ranked).taken|;
      m < |ranked| ==> BreaksCap(l, m, Fill(l, size, ranked).gross, size(ranked[m]))
  {
    if ranked != [] {
      var front, x := ranked[..|ranked| - 1], ranked[|ranked| - 1];
      SmallerFirstTakesPrefix(l, size, front);
      var m := |Fill(l, size, front).taken|;
      assert front[..m] == ranked[..m];
      if m < |front| {
        assert front[m] == ranked[m] && size(ranked[m]) <= size(x);
      } else {
        assert front[..m] + [x] == ranked[..m + 1];
        SumSnoc(size, front[..m], x);
      }
    }
  }

  ghost function SumAt<T>(value: T -> real, s: seq<T>, at: set<nat>): real
    requires forall i :: i in at ==> i < |s|
    decreases |at|
  {
    if at == {} then 0.0 else
    var top := MaxOf(at);
    SumAt(value, s, at - {top}) + value(s[top])
  }

  ghost function MaxOf(at: set<nat>): (top: nat)
    requires at != {}
    ensures top in at && forall i :: i in at ==> i <= top
    decreases |at|
  {
    var x :| x in at;
    if at == {x} then x else
    var rest := at - {x};
    assert at == rest + {x};
    assert rest != {};
    var y := MaxOf(rest);
    if x > y then x else y
  }

  lemma {:induction false} CountBelow(at: set<nat>, n: nat)
    requires forall i :: i in at ==> i < n
    ensures |at| <= n
    decreases n
  {
    if n > 0 {
      CountBelow(at - {n - 1}, n - 1);
    } else {
      assert at == {};
    }
  }

  /** Exchange: no choice of positions beats the same number of positions from the front. */
  lemma {:induction false} FrontIsBest<T>(value: T -> real, s: seq<T>, at: set<nat>)
    requires Descending(value, s)
    requires forall i :: i in at ==> i < |s|
    ensures |at| <= |s| && SumAt(value, s, at) <= Sum(value, s[..|at|])
    decreases |at|
  {
    CountBelow(at, |s|);
    if at != {} {
      var top := MaxOf(at);
      var rest := at - {top};
      CountBelow(at, top + 1);
      FrontIsBest(value, s, rest);
      assert s[..|at|][..|rest|] == s[..|rest|];
    }
  }

  /** The mirror image: the front positions are the lightest. */
  lemma {:induction false} FrontIsLightest<T>(size: T -> real, s: seq<T>, at: set<nat>)
    requires SmallerFirst(size, s)
    requires forall i :: i in at ==> i < |s|
    ensures |at| <= |s| && Sum(size, s[..|at|]) <= SumAt(size, s, at)
    decreases |at|
  {
    CountBelow(at, |s|);
    if at != {} {
      var top := MaxOf(at);
      var rest := at - {top};
      CountBelow(at, top + 1);
      FrontIsLightest(size, s, rest);
      assert s[..|at|][..|rest|] == s[..|rest|];
    }
  }

  lemma {:induction false} SumGrows<T>(value: T -> real, s: seq<T>, k: nat)
    requires k <= |s| && forall x :: x in s ==> value(x) >= 0.0
    ensures Sum(value, s[..k]) <= Sum(value, s)
  {
    if k == |s| {
      assert s[..k] == s;
    } else {
      var front := s[..|s| - 1];
      SumGrows(value, front, k);
      assert front[..k] == s[..k];
    }
  }

  ghost function AddAt<T>(value: T -> real, s: seq<T>, at: set<nat>, p: nat): (unit: ())
    requires p < |s| && p !in at && forall i :: i in at ==> i < |s|
    ensures SumAt(value, s, at + {p}) == SumAt(value, s, at) + value(s[p])
    decreases |at|
  {
    var top := MaxOf(at + {p});
    if top == p then
      assert (at + {p}) - {p} == at;
      ()
    else
      assert (at + {p}) - {top} == (at - {top}) + {p};
      assert MaxOf(at) == top;
      AddAt(value, s, at - {top}, p)
  }

  /** The ranking has an item of the same market that scores at least as much and takes no more room. */
  ghost predicate Matched<T, K>(market: T -> K, score: T -> real, size: T -> real, ranked: seq<T>, x: T) {
    exists p :: 0 <= p < |ranked| && market(ranked[p]) == market(x)
      && score(ranked[p]) >= score(x) && size(ranked[p]) <= size(x)
  }

  lemma LastMarketIsNew<T, K>(market: T -> K, pick: seq<T>)
    requires pick != [] && DistinctMarkets(market, pick)
    ensures forall x :: x in pick[..|pick| - 1] ==> market(x) != market(pick[|pick| - 1])
  {
    forall x | x in pick[..|pick| - 1] ensures market(x) != market(pick[|pick| - 1]) {
      var k :| 0 <= k < |pick| - 1 && pick[k] == x;
    }
  }

  /** Every selection with one item per market maps, market by market, onto distinct ranked positions
      that score at least as much and take no more room. */
  lemma {:induction false} SelectionHasPositions<T, K>(
    market: T -> K, score: T -> real, size: T -> real, ranked: seq<T>, pick: seq<T>) returns (at: set<nat>)
    requires DistinctMarkets(market, pick)
    requires forall x :: x in pick ==> Matched(market, score, size, ranked, x)
    ensures |at| == |pick| && forall i :: i in at ==> i < |ranked|
    ensures forall i :: i in at ==> exists x :: x in pick && market(x) == market(ranked[i])
    ensures Sum(score, pick) <= SumAt(score, ranked, at)
    ensures SumAt(size, ranked, at) <= Sum(size, pick)
  {
    if pick == [] {
      at := {};
    } else {
      var front, x := pick[..|pick| - 1], pick[|pick| - 1];
      assert pick == front + [x];
      var rest := SelectionHasPositions(market, score, size, ranked, front);
      assert Matched(market, score, size, ranked, x);
      var p: nat :| p < |ranked| && market(ranked[p]) == market(x)
        && score(ranked[p]) >= score(x) && size(ranked[p]) <= size(x);
      LastMarketIsNew(market, pick);
      at := rest + {p};
      var _ := AddAt(score, ranked, rest, p);
      var _ := AddAt(size, ranked, rest, p);
    }
  }

  lemma RoomForNext<T>(size: T -> real, ranked: seq<T>, m: nat, k: nat)
    requires m < k <= |ranked| && forall x :: x in ranked ==> size(x) > 0.0
    ensures Sum(size, ranked[..m]) + size(ranked[m]) <= Sum(size, ranked[..k])
  {
    assert ranked[..k][..m + 1] == ranked[..m] + [ranked[m]];
    SumSnoc(size, ranked[..m], ranked[m]);
    SumGrows(size, ranked[..k], m + 1);
  }

  /** The fill takes at least as many items as fit from the front. */
  lemma SmallerFirstFillsMost<T>(l: Limits, size: T -> real, ranked: seq<T>, k: nat)
    requires SmallerFirst(size, ranked) && forall x :: x in ranked ==> size(x) > 0.0
    requires k <= |ranked| && FitsCaps(l, size, ranked[..k])
    ensures Fill(l, size, ranked).taken <= ranked && k <= |Fill(l, size, ranked).taken|
  {
    SmallerFirstTakesPrefix(l, size, ranked);
    var m := |Fill(l, size, ranked).taken|;
    if m < k {
      RoomForNext(size, ranked, m, k);
      assert false;
    }
  }

  /** Optimality: when sizes never decrease down the ranking, no admissible selection that fits the
      caps totals more than the fill does. One size for everybody is the special case. */
  lemma SmallerFirstOptimal<T, K>(
    l: Limits, size: T -> real, market: T -> K, score: T -> real, ranked: seq<T>, pick: seq<T>)
    requires SmallerFirst(size, ranked) && forall x :: x in ranked ==> size(x) > 0.0 && score(x) >= 0.0
    requires Descending(score, ranked) && DistinctMarkets(market, pick)
    requires forall x :: x in pick ==> Matched(market, score, size, ranked, x)
    requires FitsCaps(l, size, pick)
    ensures Sum(score, pick) <= Sum(score, Fill(l, size, ranked).taken)
  {
    var taken, k := Fill(l, size, ranked).taken, |pick|;
    var at := SelectionHasPositions(market, score, size, ranked, pick);
    FrontIsBest(score, ranked, at);
    FrontIsLightest(size, ranked, at);
    SmallerFirstFillsMost(l, size, ranked, k);
    assert taken[..k] == ranked[..k];
    SumGrows(score, taken, k);
  }

  /** When the first item leaves room for no other, it is all the fill takes. */
  lemma {:induction false} FirstTakesAllRoom<T>(l: Limits, size: T -> real, ranked: seq<T>)
    requires ranked != [] && l.maxN > 0 && size(ranked[0]) <= l.cap
    requires forall i :: 0 < i < |ranked| ==> size(ranked[0]) + size(ranked[i]) > l.cap
    ensures Fill(l, size, ranked).taken == [ranked[0]] && Fill(l, size, ranked).gross == size(ranked[0])
  {
    if |ranked| > 1 {
      FirstTakesAllRoom(l, size, ranked[..|ranked| - 1]);
    }
  }
}
