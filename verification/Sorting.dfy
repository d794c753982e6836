/** Go's `sort` package as the repository uses it: binary search for a boundary,
    stable sorting, and sorting that promises no more than a sorted permutation. */
module Sorting {

  /** A strict weak order, which is what Go's sort functions demand of `less`. */
  ghost predicate StrictWeak<T(!new)>(less: (T, T) -> bool) {
    && (forall x, y :: less(x, y) ==> !less(y, x))
    && (forall x, y, z :: less(x, z) ==> less(x, y) || less(y, z))
  }

  ghost predicate Sorted<T>(s: seq<T>, less: (T, T) -> bool) {
    forall i, j :: 0 <= i < j < |s| ==> !less(s[j], s[i])
  }

  /** The answer of bisecting [lo, hi): the search goes left on true and right on false. */
  ghost function Bisection(f: nat --> bool, lo: nat, hi: nat): (i: nat)
    requires lo <= hi && forall j :: lo <= j < hi ==> f.requires(j)
    ensures lo <= i <= hi
    decreases hi - lo
  {
    if lo == hi then lo
    else if f((lo + hi) / 2) then Bisection(f, lo, (lo + hi) / 2)
    else Bisection(f, (lo + hi) / 2 + 1, hi)
  }

  /** Left of the answer stands a false, unless the answer is the left end. */
  lemma {:induction false} BisectionIsBoundary(f: nat --> bool, lo: nat, hi: nat)
    requires lo <= hi && forall j :: lo <= j < hi ==> f.requires(j)
    ensures Bisection(f, lo, hi) > lo ==> !f(Bisection(f, lo, hi) - 1)
    ensures Bisection(f, lo, hi) < hi ==> f(Bisection(f, lo, hi))
    decreases hi - lo
  {
    if lo < hi {
      var mid := (lo + hi) / 2;
      if f(mid) {
        BisectionIsBoundary(f, lo, mid);
      } else {
        BisectionIsBoundary(f, mid + 1, hi);
      }
    }
  }

  /** Binary search for a boundary. On a predicate that is not monotone the result is still a
      boundary between a false and a true answer, only not a unique one. */
  method Search(n: nat, f: nat --> bool) returns (i: nat)
    requires forall j :: 0 <= j < n ==> f.requires(j)
    ensures i <= n
    ensures i > 0 ==> !f(i - 1)
    ensures i < n ==> f(i)
    ensures i == Bisection(f, 0, n)
  {
    var lo, hi := 0, n;
    while lo < hi
      invariant 0 <= lo <= hi <= n
      invariant lo > 0 ==> !f(lo - 1)
      invariant hi < n ==> f(hi)
      invariant Bisection(f, lo, hi) == Bisection(f, 0, n)
    {
      var mid := (lo + hi) / 2;
      assert lo <= mid < hi;
      if f(mid) {
        hi := mid;
      } else {
        lo := mid + 1;
      }
    }
    i := lo;
  }

  function Insert<T>(x: T, s: seq<T>, less: (T, T) -> bool): (r: seq<T>)
    ensures multiset(r) == multiset(s) + multiset{x}
    ensures |r| == |s| + 1
  {
    if s == [] || !less(s[0], x) then
      [x] + s
    else
      assert s == [s[0]] + s[1..];
      [s[0]] + Insert(x, s[1..], less)
  }

  /** Stable sorting: an element goes before the equal ones that came after it. */
  function StableSort<T>(s: seq<T>, less: (T, T) -> bool): (r: seq<T>)
    ensures multiset(r) == multiset(s)
    ensures |r| == |s|
  {
    if s == [] then []
    else
      assert s == [s[0]] + s[1..];
      Insert(s[0], StableSort(s[1..], less), less)
  }

  lemma {:induction false} InsertSorted<T(!new)>(x: T, s: seq<T>, less: (T, T) -> bool)
    requires StrictWeak(less) && Sorted(s, less)
    ensures Sorted(Insert(x, s, less), less)
  {
    if s == [] || !less(s[0], x) {
    } else {
      var t := Insert(x, s[1..], less);
      InsertSorted(x, s[1..], less);
      forall j | 0 <= j < |t|
        ensures !less(t[j], s[0])
      {
        assert t[j] in multiset(t);
        assert t[j] == x || t[j] in multiset(s[1..]);
      }
    }
  }

  lemma {:induction false} StableSortSorted<T(!new)>(s: seq<T>, less: (T, T) -> bool)
    requires StrictWeak(less)
    ensures Sorted(StableSort(s, less), less)
  {
    if s != [] {
      StableSortSorted(s[1..], less);
      InsertSorted(s[0], StableSort(s[1..], less), less);
    }
  }

  /** Sorting what is already sorted changes nothing, ties included. */
  lemma {:induction false} StableSortFixed<T>(s: seq<T>, less: (T, T) -> bool)
    requires Sorted(s, less)
    ensures StableSort(s, less) == s
  {
    if s != [] {
      StableSortFixed(s[1..], less);
      assert |s| > 1 ==> !less(s[1], s[0]);
    }
  }

  /** The elements of `s` that no comparison separates from `x`, in their order. */
  ghost function Ties<T>(s: seq<T>, x: T, less: (T, T) -> bool): seq<T> {
    if s == [] then []
    else (if !less(s[0], x) && !less(x, s[0]) then [s[0]] else []) + Ties(s[1..], x, less)
  }

  lemma {:induction false} InsertKeepsTies<T(!new)>(y: T, s: seq<T>, x: T, less: (T, T) -> bool)
    requires StrictWeak(less)
    ensures Ties(Insert(y, s, less), x, less) == Ties([y] + s, x, less)
  {
    if s == [] || !less(s[0], y) {
    } else {
      InsertKeepsTies(y, s[1..], x, less);
      assert ([s[0]] + Insert(y, s[1..], less))[1..] == Insert(y, s[1..], less);
      assert ([y] + s)[1..] == s;
      assert ([y] + s[1..])[1..] == s[1..];
    }
  }

  /** Stability: sorting leaves every class of equal elements in its original order. */
  lemma {:induction false} StableSortIsStable<T(!new)>(s: seq<T>, x: T, less: (T, T) -> bool)
    requires StrictWeak(less)
    ensures Ties(StableSort(s, less), x, less) == Ties(s, x, less)
  {
    if s != [] {
      StableSortIsStable(s[1..], x, less);
      InsertKeepsTies(s[0], StableSort(s[1..], less), x, less);
      assert ([s[0]] + StableSort(s[1..], less))[1..] == StableSort(s[1..], less);
    }
  }

  /** sort.Slice: some sorted permutation, nothing said about the order of equal elements. */
  method SortSlice<T(!new)>(s: seq<T>, less: (T, T) -> bool) returns (r: seq<T>)
    requires StrictWeak(less)
    ensures Sorted(r, less)
    ensures multiset(r) == multiset(s) && |r| == |s|
  {
    r := StableSort(s, less);
    StableSortSorted(s, less);
  }

  /** Two sequences with the same elements as multisets contain the same elements. */
  lemma SameElements<T>(a: seq<T>, b: seq<T>)
    requires multiset(a) == multiset(b)
    ensures |a| == |b|
    ensures forall x :: x in a <==> x in b
  {
    assert |a| == |multiset(a)| == |multiset(b)| == |b|;
    forall x ensures x in a <==> x in b {
      assert x in a <==> x in multiset(a);
    }
  }

  lemma PresentTwice<T>(s: seq<T>, i: nat, j: nat)
    requires i < j < |s| && s[i] == s[j]
    ensures multiset(s)[s[i]] >= 2
  {
    assert s == s[..j] + s[j..];
    assert s[i] in s[..j] && s[j] in s[j..];
  }

  /** A sequence without its `k`-th element. */
  function Without<T>(s: seq<T>, k: nat): (r: seq<T>)
    requires k < |s|
    ensures |r| == |s| - 1
    ensures forall i :: 0 <= i < |r| ==> r[i] == if i < k then s[i] else s[i + 1]
  {
    s[..k] + s[k + 1..]
  }

  lemma MultisetWithout<T>(s: seq<T>, k: nat)
    requires k < |s|
    ensures multiset(s) == multiset(Without(s, k)) + multiset{s[k]}
  {
    assert s == s[..k] + ([s[k]] + s[k + 1..]);
  }

  lemma MultisetHead<T>(s: seq<T>)
    requires s != []
    ensures multiset(s) == multiset{s[0]} + multiset(s[1..])
  {
    assert s == [s[0]] + s[1..];
  }

  lemma ConcatAssociates<T>(a: seq<T>, b: seq<T>, c: seq<T>)
    ensures a + b + c == a + (b + c)
  {
  }

  lemma MultisetSnoc<T>(s: seq<T>, x: T)
    ensures multiset(s + [x]) == multiset(s) + multiset{x}
  {
  }

  /** A permutation of `a` is the first element of `a` put somewhere into a permutation of the rest. */
  lemma RemoveHead<T>(a: seq<T>, b: seq<T>) returns (k: nat)
    requires a != [] && multiset(a) == multiset(b)
    ensures k < |b| && b[k] == a[0]
    ensures multiset(Without(b, k)) == multiset(a[1..])
  {
    SameElements(a, b);
    assert a[0] in b;
    k :| 0 <= k < |b| && b[k] == a[0];
    MultisetHead(a);
    MultisetWithout(b, k);
    SameRemainder(a[0], multiset(a[1..]), multiset(Without(b, k)));
  }

  lemma SameRemainder<T>(x: T, a: multiset<T>, b: multiset<T>)
    requires multiset{x} + a == multiset{x} + b
    ensures a == b
  {
    forall y ensures a[y] == b[y] {
      assert (multiset{x} + a)[y] == (multiset{x} + b)[y];
    }
  }

  function Map<T, U>(f: T -> U, s: seq<T>): (r: seq<U>)
    ensures |r| == |s|
    ensures forall i :: 0 <= i < |r| ==> r[i] == f(s[i])
  {
    seq(|s|, i requires 0 <= i < |s| => f(s[i]))
  }

  lemma MapWithout<T, U>(f: T -> U, s: seq<T>, k: nat)
    requires k < |s|
    ensures multiset(Map(f, s)) == multiset(Map(f, Without(s, k))) + multiset{f(s[k])}
  {
    MultisetWithout(Map(f, s), k);
    assert Map(f, Without(s, k)) == Without(Map(f, s), k);
  }

  lemma MapHead<T, U>(f: T -> U, s: seq<T>)
    requires s != []
    ensures multiset(Map(f, s)) == multiset{f(s[0])} + multiset(Map(f, s[1..]))
  {
    MultisetHead(Map(f, s));
    assert Map(f, s)[1..] == Map(f, s[1..]);
  }

  lemma {:induction false} MapPermutes<T, U>(f: T -> U, a: seq<T>, b: seq<T>)
    requires multiset(a) == multiset(b)
    ensures multiset(Map(f, a)) == multiset(Map(f, b))
    decreases |a|
  {
    SameElements(a, b);
    if a != [] {
      var k := RemoveHead(a, b);
      MapPermutes(f, a[1..], Without(b, k));
      MapHead(f, a);
      MapWithout(f, b, k);
    }
  }

  function IntLess(a: int, b: int): bool { a < b }

  function Ascending(s: seq<int>): (r: seq<int>)
    ensures |r| == |s|
  {
    StableSort(s, IntLess)
  }
}
