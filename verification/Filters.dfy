/** Lists built by looking at each item in turn and keeping something of some of them. */
module Filters {
  import opened Basics

  ghost predicate Increasing(at: seq<nat>, n: nat) {
    && (forall k :: 0 <= k < |at| ==> at[k] < n)
    && (forall j, k :: 0 <= j < k < |at| ==> at[j] < at[k])
  }

  /** `out` holds, in order, what `keep` makes of the items at the positions `at`, which are exactly those it
      keeps something of. */
  ghost predicate IsFilter<T, U>(s: seq<T>, keep: T -> Option<U>, out: seq<U>, at: seq<nat>) {
    && |at| == |out| && Increasing(at, |s|)
    && (forall k :: 0 <= k < |at| ==> keep(s[at[k]]) == Some(out[k]))
    && (forall i :: 0 <= i < |s| ==> (i in at <==> keep(s[i]).Some?))
  }

  lemma FilterNext<T, U>(s: seq<T>, keep: T -> Option<U>, out: seq<U>, at: seq<nat>, x: T)
    requires IsFilter(s, keep, out, at)
    ensures keep(x).Some? ==> IsFilter(s + [x], keep, out + [keep(x).value], at + [|s|])
    ensures keep(x).None? ==> IsFilter(s + [x], keep, out, at)
  {
    var all := s + [x];
    assert forall i :: 0 <= i < |s| ==> all[i] == s[i];
    assert all[|s|] == x && |s| !in at;
    assert forall i :: i in at + [|s|] <==> i in at || i == |s|;
  }
}
