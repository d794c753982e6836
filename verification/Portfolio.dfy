/** Equity-curve metrics of a backtest (`internal/eval/engine.go`): mean return per decision time,
    running equity and peak, and the largest drawdown. Times are unix seconds. */
module Portfolio {
  import opened Products
  import opened Sorting
  import opened AsOf

  datatype Label = Label(time: int, horizon: string, policy: string, returnBps: real)

  datatype Metrics = Metrics(periods: nat, total: real, maxDrawdown: real, mean: real)

  // ---------------------------------------------------------------- what is measured

  predicate Selects(l: Label, horizon: string, policy: string) {
    && l.horizon == horizon
    && (if policy == "" || policy == "candidate" then l.policy == "" || l.policy == "candidate" else l.policy == policy)
  }

  function SumAt(labels: seq<Label>, horizon: string, policy: string, t: int): real {
    if labels == [] then 0.0 else
    var rest, l := SumAt(labels[..|labels| - 1], horizon, policy, t), labels[|labels| - 1];
    if Selects(l, horizon, policy) && l.time == t then rest + l.returnBps else rest
  }

  function CountAt(labels: seq<Label>, horizon: string, policy: string, t: int): nat {
    if labels == [] then 0 else
    var rest, l := CountAt(labels[..|labels| - 1], horizon, policy, t), labels[|labels| - 1];
    if Selects(l, horizon, policy) && l.time == t then rest + 1 else rest
  }

  function MeanAt(labels: seq<Label>, horizon: string, policy: string, t: int): real {
    if CountAt(labels, horizon, policy, t) == 0 then 0.0
    else SumAt(labels, horizon, policy, t) / CountAt(labels, horizon, policy, t) as real
  }

  /** The decision times that have a selected label, in ascending order. */
  ghost predicate AreTimes(times: seq<int>, labels: seq<Label>, horizon: string, policy: string) {
    StrictlyAscends(times) && forall t :: t in times <==> CountAt(labels, horizon, policy, t) > 0
  }

  /** Mean return of each period, oldest first. */
  function Means(times: seq<int>, labels: seq<Label>, horizon: string, policy: string): seq<real> {
    Map(t => MeanAt(labels, horizon, policy, t), times)
  }

  /** Equity after the first `k` periods, starting from zero. */
  function Equity(rets: seq<real>, k: nat): real
    requires k <= |rets|
  {
    if k == 0 then 0.0 else Equity(rets, k - 1) + rets[k - 1]
  }

  /** Equity is highest after `i` of the first `k` periods. */
  ghost predicate IsPeak(rets: seq<real>, k: nat, i: nat)
    requires k <= |rets|
  {
    i <= k && forall j :: 0 <= j <= k ==> Equity(rets, j) <= Equity(rets, i)
  }

  /** Equity falls furthest, within the first `k` periods, between `from` and `to`. */
  ghost predicate IsLargestFall(rets: seq<real>, k: nat, from: nat, to: nat)
    requires k <= |rets|
  {
    && from <= to <= k
    && (forall i, j :: 0 <= i <= j <= k ==> Equity(rets, i) - Equity(rets, j) <= Equity(rets, from) - Equity(rets, to))
  }

  /** `d` is the largest fall from an equity value to a later or the same one. */
  ghost predicate IsMaxDrawdown(rets: seq<real>, d: real) {
    exists from: nat, to: nat :: IsLargestFall(rets, |rets|, from, to) && d == Equity(rets, from) - Equity(rets, to)
  }

  /** The running peak, as the online loop keeps it. */
  function Peak(rets: seq<real>, k: nat): real
    requires k <= |rets|
  {
    if k == 0 then 0.0
    else if Equity(rets, k) > Peak(rets, k - 1) then Equity(rets, k)
    else Peak(rets, k - 1)
  }

  /** The largest fall from the running peak so far. */
  function Fall(rets: seq<real>, k: nat): real
    requires k <= |rets|
  {
    if k == 0 then 0.0
    else if Peak(rets, k) - Equity(rets, k) > Fall(rets, k - 1) then Peak(rets, k) - Equity(rets, k)
    else Fall(rets, k - 1)
  }

  lemma {:induction false} PeakIsHighest(rets: seq<real>, k: nat) returns (i: nat)
    requires k <= |rets|
    ensures IsPeak(rets, k, i) && Peak(rets, k) == Equity(rets, i)
  {
    if k == 0 {
      i := 0;
    } else {
      i := PeakIsHighest(rets, k - 1);
      if Equity(rets, k) > Peak(rets, k - 1) {
        i := k;
      }
    }
  }

  /** Only falls from the running peak need to be looked at: the online maximum is the maximum over
      all pairs of an earlier and a later equity value. */
  lemma {:induction false} FallIsLargest(rets: seq<real>, k: nat) returns (from: nat, to: nat)
    requires k <= |rets|
    ensures IsLargestFall(rets, k, from, to) && Fall(rets, k) == Equity(rets, from) - Equity(rets, to)
  {
    if k == 0 {
      from, to := 0, 0;
    } else {
      from, to := FallIsLargest(rets, k - 1);
      var top := PeakIsHighest(rets, k);
      if Peak(rets, k) - Equity(rets, k) > Fall(rets, k - 1) {
        from, to := top, k;
      }
      forall i, j | 0 <= i <= j <= k
        ensures Equity(rets, i) - Equity(rets, j) <= Equity(rets, from) - Equity(rets, to)
      {
        assert j == k ==> Equity(rets, i) <= Equity(rets, top);
      }
    }
  }

  // ---------------------------------------------------------------- periods, label by label

  /** The label is of the horizon and policy; no policy and "candidate" are the same. */
  ghost predicate Matches(l: Label, horizon: string, policy: string) {
    && l.horizon == horizon
    && (l.policy == policy || (l.policy in {"", "candidate"} && policy in {"", "candidate"}))
  }

  ghost function At(labels: seq<Label>, horizon: string, policy: string, t: int): set<int> {
    set i | 0 <= i < |labels| && labels[i].time == t && Matches(labels[i], horizon, policy)
  }

  lemma AtNext(front: seq<Label>, l: Label, h: string, p: string, t: int)
    ensures At(front + [l], h, p, t) == At(front, h, p, t) + (if l.time == t && Matches(l, h, p) then {|front|} else {})
  {
    var labels := front + [l];
    assert labels[|front|] == l && forall i :: 0 <= i < |front| ==> labels[i] == front[i];
  }

  lemma SelectsMatches(l: Label, h: string, p: string)
    ensures Selects(l, h, p) <==> Matches(l, h, p)
  {
  }

  lemma {:induction false} CountIsSize(labels: seq<Label>, h: string, p: string, t: int)
    ensures CountAt(labels, h, p, t) == |At(labels, h, p, t)|
  {
    if labels == [] {
      assert At(labels, h, p, t) == {};
    } else {
      var front, l := labels[..|labels| - 1], labels[|labels| - 1];
      CountIsSize(front, h, p, t);
      AtNext(front, l, h, p, t);
      SelectsMatches(l, h, p);
      assert labels == front + [l];
    }
  }

  /** The periods are exactly the times of matching labels. */
  lemma PeriodsExactly(times: seq<int>, labels: seq<Label>, h: string, p: string, t: int)
    requires AreTimes(times, labels, h, p)
    ensures t in times <==> exists i :: i in At(labels, h, p, t)
  {
    CountIsSize(labels, h, p, t);
    if i :| i in At(labels, h, p, t) {
      assert At(labels, h, p, t) != {};
    }
  }

  lemma {:induction false} SumWithin(labels: seq<Label>, h: string, p: string, t: int, lo: real, hi: real)
    requires forall i :: i in At(labels, h, p, t) ==> lo <= labels[i].returnBps <= hi
    ensures Prod(lo, CountAt(labels, h, p, t) as real) <= SumAt(labels, h, p, t) <= Prod(hi, CountAt(labels, h, p, t) as real)
  {
    if labels != [] {
      var k := |labels| - 1;
      assert forall i :: i in At(labels[..k], h, p, t) ==> i in At(labels, h, p, t);
      SumWithin(labels[..k], h, p, t, lo, hi);
      ProdAdds(lo, CountAt(labels[..k], h, p, t) as real, 1.0);
      ProdAdds(hi, CountAt(labels[..k], h, p, t) as real, 1.0);
      ProdUnits(lo);
      ProdUnits(hi);
      assert labels[k].time == t && Matches(labels[k], h, p) ==> k in At(labels, h, p, t);
    }
  }

  /** The mean return of a period lies between the returns of its labels. */
  lemma MeanIsBetween(labels: seq<Label>, h: string, p: string, t: int, lo: real, hi: real)
    requires CountAt(labels, h, p, t) > 0
    requires forall i :: i in At(labels, h, p, t) ==> lo <= labels[i].returnBps <= hi
    ensures lo <= MeanAt(labels, h, p, t) <= hi
  {
    var n, sum := CountAt(labels, h, p, t) as real, SumAt(labels, h, p, t);
    SumWithin(labels, h, p, t, lo, hi);
    ProdCommutes(lo, n);
    ProdCommutes(hi, n);
    ProdQuotient(n, sum);
    ProdGrows(n, lo, sum / n);
    ProdGrows(n, sum / n, hi);
  }

  // ---------------------------------------------------------------- the program

  datatype Bucket = Bucket(sum: real, n: nat)

  /** The metrics of one curve of period returns. */
  ghost predicate Describes(m: Metrics, rets: seq<real>) {
    && m.periods == |rets|
    && m.total == Equity(rets, |rets|)
    && IsMaxDrawdown(rets, m.maxDrawdown)
    && m.mean == (if |rets| == 0 then 0.0 else m.total / |rets| as real)
  }

  /** The labels have exactly one list of decision times, and the metrics are those of its curve. */
  method BuildPortfolioMetrics(labels: seq<Label>, horizon: string, policy: string) returns (m: Metrics)
    ensures exists times :: AreTimes(times, labels, horizon, policy)
    ensures forall times :: AreTimes(times, labels, horizon, policy) ==>
      Describes(m, Means(times, labels, horizon, policy))
  {
    ghost var found: seq<int>;
    m, found := CurveMetrics(labels, horizon, policy);
    forall times | AreTimes(times, labels, horizon, policy)
      ensures Describes(m, Means(times, labels, horizon, policy))
    {
      AscendingIsUnique(times, found);
    }
  }

  method CurveMetrics(labels: seq<Label>, horizon: string, policy: string) returns (m: Metrics, ghost times: seq<int>)
    ensures AreTimes(times, labels, horizon, policy)
    ensures Describes(m, Means(times, labels, horizon, policy))
  {
    var unsorted, byT := Buckets(labels, horizon, policy);
    var sorted := SortSlice(unsorted, IntLess);
    SortedTimes(unsorted, sorted);
    times := sorted;
    var rets := PeriodReturns(sorted, byT, labels, horizon, policy);
    var total, maxDD := RunCurve(rets);
    m := Metrics(|sorted|, total, maxDD, if |sorted| == 0 then 0.0 else total / |sorted| as real);
  }

  ghost predicate BucketsFor(byT: map<int, Bucket>, labels: seq<Label>, horizon: string, policy: string) {
    forall t ::
      && CountAt(labels, horizon, policy, t) == (if t in byT then byT[t].n else 0)
      && SumAt(labels, horizon, policy, t) == (if t in byT then byT[t].sum else 0.0)
  }

  method Buckets(labels: seq<Label>, horizon: string, policy: string)
    returns (times: seq<int>, byT: map<int, Bucket>)
    ensures forall i, j :: 0 <= i < j < |times| ==> times[i] != times[j]
    ensures forall t :: t in times <==> t in byT
    ensures forall t :: t in byT ==> byT[t].n > 0
    ensures BucketsFor(byT, labels, horizon, policy)
  {
    times, byT := [], map[];
    for i := 0 to |labels|
      invariant forall a, b :: 0 <= a < b < |times| ==> times[a] != times[b]
      invariant forall t :: t in times <==> t in byT
      invariant forall t :: t in byT ==> byT[t].n > 0
      invariant BucketsFor(byT, labels[..i], horizon, policy)
    {
      var l := labels[i];
      assert labels[..i + 1] == labels[..i] + [l];
      AddToBucket(byT, labels[..i], l, horizon, policy);
      if !Selects(l, horizon, policy) {
        continue;
      }
      var b := Bucket(0.0, 0);
      if l.time in byT {
        b := byT[l.time];
      } else {
        times := times + [l.time];
      }
      byT := byT[l.time := Bucket(b.sum + l.returnBps, b.n + 1)];
    }
    assert labels[..|labels|] == labels;
  }

  lemma AddToBucket(byT: map<int, Bucket>, labels: seq<Label>, l: Label, horizon: string, policy: string)
    requires BucketsFor(byT, labels, horizon, policy)
    ensures var b := if l.time in byT then byT[l.time] else Bucket(0.0, 0);
      BucketsFor(if Selects(l, horizon, policy) then byT[l.time := Bucket(b.sum + l.returnBps, b.n + 1)] else byT,
                 labels + [l], horizon, policy)
  {
    assert (labels + [l])[..|labels|] == labels;
  }

  lemma SortedTimes(unsorted: seq<int>, sorted: seq<int>)
    requires forall i, j :: 0 <= i < j < |unsorted| ==> unsorted[i] != unsorted[j]
    requires multiset(unsorted) == multiset(sorted) && Sorted(sorted, IntLess)
    ensures StrictlyAscends(sorted) && forall t :: t in sorted <==> t in unsorted
  {
    SameElements(sorted, unsorted);
    forall i, j | 0 <= i < j < |sorted| ensures sorted[i] < sorted[j] {
      assert !IntLess(sorted[j], sorted[i]);
      DistinctOnce(unsorted, sorted[i]);
      if sorted[i] == sorted[j] {
        PresentTwice(sorted, i, j);
      }
    }
  }

  lemma {:induction false} DistinctOnce(s: seq<int>, x: int)
    requires forall i, j :: 0 <= i < j < |s| ==> s[i] != s[j]
    ensures multiset(s)[x] <= 1
  {
    if s != [] {
      DistinctOnce(s[1..], x);
      assert s == [s[0]] + s[1..];
      assert s[0] !in s[1..];
    }
  }

  method PeriodReturns(times: seq<int>, byT: map<int, Bucket>, ghost labels: seq<Label>, ghost horizon: string,
                       ghost policy: string) returns (rets: seq<real>)
    requires BucketsFor(byT, labels, horizon, policy)
    requires forall t :: t in times ==> t in byT && byT[t].n > 0
    ensures rets == Means(times, labels, horizon, policy)
  {
    rets := [];
    for k := 0 to |times|
      invariant |rets| == k && forall i :: 0 <= i < k ==> rets[i] == MeanAt(labels, horizon, policy, times[i])
    {
      assert times[k] in times;
      var b := byT[times[k]];
      rets := rets + [b.sum / b.n as real];
    }
  }

  /** The online loop over periods: equity, peak and the largest fall from the peak. */
  method RunCurve(rets: seq<real>) returns (total: real, maxDD: real)
    ensures total == Equity(rets, |rets|)
    ensures IsMaxDrawdown(rets, maxDD)
  {
    var equity, peak := 0.0, 0.0;
    total, maxDD := 0.0, 0.0;
    for k := 0 to |rets|
      invariant equity == total == Equity(rets, k)
      invariant peak == Peak(rets, k) && maxDD == Fall(rets, k)
    {
      total := total + rets[k];
      equity := equity + rets[k];
      if equity > peak {
        peak := equity;
      }
      var dd := peak - equity;
      if dd > maxDD {
        maxDD := dd;
      }
    }
    ghost var from, to := FallIsLargest(rets, |rets|);
  }

  // ---------------------------------------------------------------- the order of labels does not matter

  lemma {:induction false} SumConcat(a: seq<Label>, b: seq<Label>, h: string, p: string, t: int)
    ensures SumAt(a + b, h, p, t) == SumAt(a, h, p, t) + SumAt(b, h, p, t)
    ensures CountAt(a + b, h, p, t) == CountAt(a, h, p, t) + CountAt(b, h, p, t)
  {
    if b == [] {
      assert a + b == a;
    } else {
      assert (a + b)[..|a + b| - 1] == a + b[..|b| - 1];
      SumConcat(a, b[..|b| - 1], h, p, t);
    }
  }

  lemma SumHead(a: seq<Label>, h: string, p: string, t: int)
    requires a != []
    ensures SumAt(a, h, p, t) == SumAt([a[0]], h, p, t) + SumAt(a[1..], h, p, t)
    ensures CountAt(a, h, p, t) == CountAt([a[0]], h, p, t) + CountAt(a[1..], h, p, t)
  {
    SumConcat([a[0]], a[1..], h, p, t);
    assert a == [a[0]] + a[1..];
  }

  lemma SumWithout(b: seq<Label>, k: nat, h: string, p: string, t: int)
    requires k < |b|
    ensures SumAt(b, h, p, t) == SumAt([b[k]], h, p, t) + SumAt(Without(b, k), h, p, t)
    ensures CountAt(b, h, p, t) == CountAt([b[k]], h, p, t) + CountAt(Without(b, k), h, p, t)
  {
    SumConcat(b[..k], b[k..], h, p, t);
    SumHead(b[k..], h, p, t);
    SumConcat(b[..k], b[k + 1..], h, p, t);
    assert b == b[..k] + b[k..] && b[k..][1..] == b[k + 1..];
  }

  lemma {:induction false} SumPermutes(a: seq<Label>, b: seq<Label>, h: string, p: string, t: int)
    requires multiset(a) == multiset(b)
    ensures SumAt(a, h, p, t) == SumAt(b, h, p, t) && CountAt(a, h, p, t) == CountAt(b, h, p, t)
    decreases |a|
  {
    SameElements(a, b);
    if a != [] {
      var k := RemoveHead(a, b);
      SumPermutes(a[1..], Without(b, k), h, p, t);
      SumHead(a, h, p, t);
      SumWithout(b, k, h, p, t);
    }
  }

  lemma LastIsLargest(a: seq<int>)
    requires StrictlyAscends(a) && a != []
    ensures forall t :: t in a[..|a| - 1] <==> t in a && t != a[|a| - 1]
    ensures forall t :: t in a ==> t <= a[|a| - 1]
    ensures a[|a| - 1] in a
  {
    assert a == a[..|a| - 1] + [a[|a| - 1]];
  }

  /** A set of times has one ascending order. */
  lemma {:induction false} AscendingIsUnique(a: seq<int>, b: seq<int>)
    requires StrictlyAscends(a) && StrictlyAscends(b)
    requires forall t :: t in a <==> t in b
    ensures a == b
  {
    assert a != [] ==> (a[0] in a <==> a[0] in b);
    assert b != [] ==> (b[0] in a <==> b[0] in b);
    if a != [] {
      LastIsLargest(a);
      LastIsLargest(b);
      var x, y, front, other := a[|a| - 1], b[|b| - 1], a[..|a| - 1], b[..|b| - 1];
      assert x == y by { assert x in b && y in a; }
      forall t ensures t in front <==> t in other {
        assert t in front <==> t in a && t != x;
      }
      AscendingIsUnique(front, other);
      assert a == front + [x] && b == other + [y];
    }
  }

  lemma DrawdownIsUnique(rets: seq<real>, d: real, e: real)
    requires IsMaxDrawdown(rets, d) && IsMaxDrawdown(rets, e)
    ensures d == e
  {
    var f1: nat, t1: nat :| IsLargestFall(rets, |rets|, f1, t1) && d == Equity(rets, f1) - Equity(rets, t1);
    var f2: nat, t2: nat :| IsLargestFall(rets, |rets|, f2, t2) && e == Equity(rets, f2) - Equity(rets, t2);
  }

  /** Any permutation of the labels has the same periods and the same curve, hence the same metrics. */
  lemma MetricsIgnoreOrder(a: seq<Label>, b: seq<Label>, h: string, p: string, ta: seq<int>, tb: seq<int>, da: real, db: real)
    requires multiset(a) == multiset(b)
    requires AreTimes(ta, a, h, p) && AreTimes(tb, b, h, p)
    requires IsMaxDrawdown(Means(ta, a, h, p), da) && IsMaxDrawdown(Means(tb, b, h, p), db)
    ensures ta == tb && Means(ta, a, h, p) == Means(tb, b, h, p) && da == db
  {
    forall t ensures CountAt(a, h, p, t) == CountAt(b, h, p, t) && MeanAt(a, h, p, t) == MeanAt(b, h, p, t) {
      SumPermutes(a, b, h, p, t);
    }
    AscendingIsUnique(ta, tb);
    assert Means(ta, a, h, p) == Means(tb, b, h, p);
    DrawdownIsUnique(Means(ta, a, h, p), da, db);
  }
}
