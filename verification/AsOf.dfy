/** As-of reads over ascending times: binary search, and the linear scan it replaces. */
module AsOf {
  import opened Sorting

  ghost predicate Ascends(times: seq<int>) {
    forall i, j :: 0 <= i < j < |times| ==> times[i] <= times[j]
  }

  ghost predicate StrictlyAscends(times: seq<int>) {
    forall i, j :: 0 <= i < j < |times| ==> times[i] < times[j]
  }

  /** Index of the last time at or before `t`, found by scanning back; -1 when there is none. */
  function LastAtOrBefore(times: seq<int>, t: int): (i: int)
    ensures -1 <= i < |times|
    ensures i >= 0 ==> times[i] <= t
    ensures forall j :: i < j < |times| ==> times[j] > t
  {
    if times == [] then -1
    else if times[|times| - 1] <= t then |times| - 1
    else LastAtOrBefore(times[..|times| - 1], t)
  }

  function After(times: seq<int>, t: int): nat --> bool {
    (j: nat) requires j < |times| => times[j] > t
  }

  /** The repository's binary search for that index. It needs ascending times; on any other list it
      still ends at a boundary between a time at or before `t` and a later one. */
  method SearchAtOrBefore(times: seq<int>, t: int) returns (i: int)
    ensures -1 <= i < |times|
    ensures i >= 0 ==> times[i] <= t
    ensures i + 1 < |times| ==> times[i + 1] > t
    ensures Ascends(times) ==> i == LastAtOrBefore(times, t)
    ensures i == Bisection(After(times, t), 0, |times|) - 1
  {
    var n := Search(|times|, After(times, t));
    if Ascends(times) {
      BoundaryIsScan(times, t, n);
    }
    i := n as int - 1;
  }

  /** On ascending times there is one boundary. */
  lemma BoundaryIsScan(times: seq<int>, t: int, n: nat)
    requires Ascends(times) && n <= |times|
    requires n > 0 ==> times[n - 1] <= t
    requires n < |times| ==> times[n] > t
    ensures n - 1 == LastAtOrBefore(times, t)
  {
    forall j | n <= j < |times| ensures times[j] > t {
      assert times[n] <= times[j];
    }
  }

  /** On ascending times bisection finds what the scan finds. */
  lemma BisectionIsScan(times: seq<int>, t: int)
    requires Ascends(times)
    ensures Bisection(After(times, t), 0, |times|) - 1 == LastAtOrBefore(times, t)
  {
    BisectionIsBoundary(After(times, t), 0, |times|);
    BoundaryIsScan(times, t, Bisection(After(times, t), 0, |times|));
  }

  /** The scan sees only the times up to `t`: the part after them does not matter. */
  lemma {:induction false} ScanIgnoresLater(times: seq<int>, later: seq<int>, t: int)
    requires forall i :: 0 <= i < |later| ==> later[i] > t
    ensures LastAtOrBefore(times + later, t) == LastAtOrBefore(times, t)
  {
    if later == [] {
      assert times + later == times;
    } else {
      var all := times + later;
      assert all[..|all| - 1] == times + later[..|later| - 1];
      ScanIgnoresLater(times, later[..|later| - 1], t);
    }
  }

  lemma {:induction false} StrictMeansOnce(times: seq<int>, x: int)
    requires StrictlyAscends(times)
    ensures multiset(times)[x] <= 1
  {
    if times != [] {
      var k := |times| - 1;
      StrictMeansOnce(times[..k], x);
      assert times == times[..k] + [times[k]];
      assert times[k] !in times[..k];
    }
  }

  lemma OnceMeansStrict(times: seq<int>)
    requires Ascends(times) && forall x :: multiset(times)[x] <= 1
    ensures StrictlyAscends(times)
  {
    forall i, j | 0 <= i < j < |times| ensures times[i] < times[j] {
      if times[i] == times[j] {
        PresentTwice(times, i, j);
      }
    }
  }
}
