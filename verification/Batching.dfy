/** Cutting a sorted list of marks into batches, and why no other split needs later starts.
    A batch is the list of its members' marks; its start is a monotone function of its oldest mark. */
module Batching {
  import opened Sorting

  function Mul(n: nat, size: nat): nat {
    if n == 0 then 0 else Mul(n - 1, size) + size
  }

  lemma {:induction false} MulMonotone(m: nat, n: nat, size: nat)
    requires m <= n
    ensures Mul(m, size) <= Mul(n, size)
    ensures m < n ==> Mul(m, size) + size <= Mul(n, size)
  {
    if m < n {
      MulMonotone(m, n - 1, size);
    }
  }

  // ---------------------------------------------------------------- cutting

  function Chunks<T>(s: seq<T>, size: nat): seq<seq<T>>
    requires size > 0
  {
    if s == [] then []
    else if |s| <= size then [s]
    else [s[..size]] + Chunks(s[size..], size)
  }

  function Concat<T>(batches: seq<seq<T>>): seq<T> {
    if batches == [] then [] else batches[0] + Concat(batches[1..])
  }

  ghost predicate IsSplit<T>(batches: seq<seq<T>>, size: nat) {
    forall i :: 0 <= i < |batches| ==> 0 < |batches[i]| <= size
  }

  lemma {:induction false} ChunksCut<T>(s: seq<T>, size: nat)
    requires size > 0
    ensures Concat(Chunks(s, size)) == s
    ensures IsSplit(Chunks(s, size), size)
  {
    if |s| > size {
      ChunksCut(s[size..], size);
    }
  }

  /** Batch `i` is the part of the list from position i * size on. */
  lemma {:induction false} ChunkAt<T>(s: seq<T>, size: nat, i: nat)
    requires size > 0 && i < |Chunks(s, size)|
    ensures Mul(i, size) < |s|
    ensures Mul(i, size) + |Chunks(s, size)[i]| <= |s|
    ensures Chunks(s, size)[i] == s[Mul(i, size)..Mul(i, size) + |Chunks(s, size)[i]|]
    decreases i
  {
    if i > 0 {
      ChunkAt(s[size..], size, i - 1);
      assert Chunks(s, size)[i] == Chunks(s[size..], size)[i - 1];
    } else {
      ChunksCut(s, size);
    }
  }

  lemma {:induction false} MapChunks<T>(f: T -> int, s: seq<T>, size: nat)
    requires size > 0
    ensures MapAll(f, Chunks(s, size)) == Chunks(Map(f, s), size)
  {
    if |s| > size {
      MapChunks(f, s[size..], size);
      assert Map(f, s)[..size] == Map(f, s[..size]);
      assert Map(f, s)[size..] == Map(f, s[size..]);
      assert Chunks(s, size)[1..] == Chunks(s[size..], size);
    }
  }

  function MapAll<T>(f: T -> int, batches: seq<seq<T>>): (r: seq<seq<int>>)
    ensures |r| == |batches|
    ensures forall i :: 0 <= i < |r| ==> r[i] == Map(f, batches[i])
  {
    if batches == [] then [] else [Map(f, batches[0])] + MapAll(f, batches[1..])
  }

  lemma {:induction false} MapConcat<T>(f: T -> int, batches: seq<seq<T>>)
    ensures Map(f, Concat(batches)) == Concat(MapAll(f, batches))
  {
    if batches != [] {
      MapConcat(f, batches[1..]);
      assert Map(f, batches[0] + Concat(batches[1..])) == Map(f, batches[0]) + Map(f, Concat(batches[1..]));
    }
  }

  // ---------------------------------------------------------------- oldest member and start

  /** The smallest positive mark, 0 when there is none. */
  function Oldest(marks: seq<int>): (m: int)
    ensures m >= 0
  {
    if marks == [] then 0 else
    var rest, last := Oldest(marks[..|marks| - 1]), marks[|marks| - 1];
    if last > 0 && (rest == 0 || last < rest) then last else rest
  }

  lemma {:induction false} OldestIsMinimum(marks: seq<int>)
    ensures forall i :: 0 <= i < |marks| && marks[i] > 0 ==> 0 < Oldest(marks) <= marks[i]
    ensures Oldest(marks) > 0 ==> Oldest(marks) in marks
  {
    if marks != [] {
      OldestIsMinimum(marks[..|marks| - 1]);
    }
  }

  /** The oldest mark less the overlap, never before a positive floor. */
  function StartFrom(oldest: int, overlap: int, floor: int): int {
    if oldest <= 0 then (if floor > 0 then floor else 0) else
    var start := oldest - (if overlap < 0 then 0 else overlap);
    if floor > 0 && start < floor then floor else start
  }

  function Starts(batches: seq<seq<int>>, overlap: int, floor: int): (s: seq<int>)
    ensures |s| == |batches|
    ensures forall i :: 0 <= i < |s| ==> s[i] == StartFrom(Oldest(batches[i]), overlap, floor)
  {
    if batches == [] then []
    else [StartFrom(Oldest(batches[0]), overlap, floor)] + Starts(batches[1..], overlap, floor)
  }

  // ---------------------------------------------------------------- counting

  ghost function CountUpTo(s: seq<int>, v: int): nat {
    if s == [] then 0 else (if s[0] <= v then 1 else 0) + CountUpTo(s[1..], v)
  }

  lemma {:induction false} CountUpToConcat(a: seq<int>, b: seq<int>, v: int)
    ensures CountUpTo(a + b, v) == CountUpTo(a, v) + CountUpTo(b, v)
  {
    if a == [] {
      assert a + b == b;
    } else {
      assert (a + b)[1..] == a[1..] + b;
      CountUpToConcat(a[1..], b, v);
    }
  }

  lemma {:induction false} CountUpToPermutes(a: seq<int>, b: seq<int>, v: int)
    requires multiset(a) == multiset(b)
    ensures CountUpTo(a, v) == CountUpTo(b, v)
    decreases |a|
  {
    SameElements(a, b);
    if a != [] {
      var k := RemoveHead(a, b);
      CountUpToPermutes(a[1..], Without(b, k), v);
      CountUpToConcat(b[..k], b[k + 1..], v);
      assert b == b[..k] + b[k..];
      CountUpToConcat(b[..k], b[k..], v);
    }
  }

  lemma {:induction false} CountUpToAtLeast(s: seq<int>, n: nat, v: int)
    requires n <= |s| && forall i :: 0 <= i < n ==> s[i] <= v
    ensures CountUpTo(s, v) >= n
  {
    if n > 0 {
      CountUpToAtLeast(s[1..], n - 1, v);
    }
  }

  lemma {:induction false} CountUpToAtMost(s: seq<int>, n: nat, v: int)
    requires n <= |s| && forall i :: n <= i < |s| ==> s[i] > v
    ensures CountUpTo(s, v) <= n
  {
    if s != [] {
      CountUpToAtMost(s[1..], if n > 0 then n - 1 else 0, v);
    }
  }

  /** If more than `i` entries are at most `v`, then the i-th smallest is. */
  lemma NthSmallest(s: seq<int>, i: nat, v: int)
    requires CountUpTo(s, v) > i
    ensures i < |s| && Ascending(s)[i] <= v
  {
    var r := Ascending(s);
    StableSortSorted(s, IntLess);
    CountUpToPermutes(s, r, v);
    CountUpToAtMost(s, |s|, v);
    if r[i] > v {
      assert forall j :: i < j < |r| ==> !IntLess(r[j], r[i]);
      CountUpToAtMost(r, i, v);
    }
  }

  // ---------------------------------------------------------------- optimality

  ghost predicate AllPositive(batches: seq<seq<int>>) {
    forall i, k :: 0 <= i < |batches| && 0 <= k < |batches[i]| ==> batches[i][k] > 0
  }

  /** Pigeonhole: batches of at most `size` members cannot hold many old members in few old batches. */
  lemma {:induction false} OldMembersNeedOldBatches(
    batches: seq<seq<int>>, size: nat, overlap: int, floor: int, h: int)
    requires IsSplit(batches, size) && AllPositive(batches) && h > 0
    ensures CountUpTo(Concat(batches), h)
         <= Mul(CountUpTo(Starts(batches, overlap, floor), StartFrom(h, overlap, floor)), size)
  {
    if batches != [] {
      var b, rest := batches[0], batches[1..];
      OldMembersNeedOldBatches(rest, size, overlap, floor, h);
      CountUpToConcat(b, Concat(rest), h);
      assert Starts(batches, overlap, floor)[1..] == Starts(rest, overlap, floor);
      OldestIsMinimum(b);
      if Oldest(b) <= h {
        assert b[0] > 0;
        CountUpToAtMost(b, |b|, h);
      } else {
        CountUpToAtMost(b, 0, h);
      }
    }
  }

  lemma OldestOfPart(sorted: seq<int>, from: nat, n: nat)
    requires n > 0 && from + n <= |sorted|
    requires Sorted(sorted, IntLess) && forall k :: 0 <= k < |sorted| ==> sorted[k] > 0
    ensures Oldest(sorted[from..from + n]) == sorted[from]
  {
    var b := sorted[from..from + n];
    OldestIsMinimum(b);
    forall k | 0 <= k < |b| ensures b[k] >= b[0] {
      assert !IntLess(sorted[from + k], sorted[from]);
    }
  }

  lemma StartOfPart(sorted: seq<int>, from: nat, batches: seq<seq<int>>, overlap: int, floor: int, i: nat)
    requires i < |batches| && batches[i] != [] && from + |batches[i]| <= |sorted|
    requires batches[i] == sorted[from..from + |batches[i]|]
    requires Sorted(sorted, IntLess) && forall k :: 0 <= k < |sorted| ==> sorted[k] > 0
    ensures Starts(batches, overlap, floor)[i] == StartFrom(sorted[from], overlap, floor)
  {
    OldestOfPart(sorted, from, |batches[i]|);
  }

  /** Batch `i` of a sorted list starts where member i * size needs it to. */
  lemma ChunkStart(sorted: seq<int>, size: nat, overlap: int, floor: int, i: nat)
    requires size > 0 && i < |Chunks(sorted, size)|
    requires Sorted(sorted, IntLess) && forall k :: 0 <= k < |sorted| ==> sorted[k] > 0
    ensures Mul(i, size) < |sorted|
    ensures Starts(Chunks(sorted, size), overlap, floor)[i] == StartFrom(sorted[Mul(i, size)], overlap, floor)
  {
    ChunksCut(sorted, size);
    ChunkAt(sorted, size, i);
    StartOfPart(sorted, Mul(i, size), Chunks(sorted, size), overlap, floor, i);
  }

  /** So many members are at most as old as batch `i`'s oldest that other batches must be as well. */
  lemma ManyOldBatches(sorted: seq<int>, size: nat, overlap: int, floor: int, other: seq<seq<int>>, i: nat)
    requires size > 0 && Mul(i, size) < |sorted|
    requires Sorted(sorted, IntLess) && sorted[Mul(i, size)] > 0
    requires IsSplit(other, size) && AllPositive(other) && multiset(Concat(other)) == multiset(sorted)
    ensures CountUpTo(Starts(other, overlap, floor), StartFrom(sorted[Mul(i, size)], overlap, floor)) > i
  {
    var h := sorted[Mul(i, size)];
    var n := CountUpTo(Starts(other, overlap, floor), StartFrom(h, overlap, floor));
    forall k | 0 <= k < Mul(i, size) + 1 ensures sorted[k] <= h {
      assert k < Mul(i, size) ==> !IntLess(sorted[Mul(i, size)], sorted[k]);
    }
    CountUpToAtLeast(sorted, Mul(i, size) + 1, h);
    CountUpToPermutes(Concat(other), sorted, h);
    OldMembersNeedOldBatches(other, size, overlap, floor, h);
    if n <= i {
      MulMonotone(n, i, size);
      assert false;
    }
  }

  lemma EarlierThanChunk(sorted: seq<int>, size: nat, overlap: int, floor: int, other: seq<seq<int>>, i: nat)
    requires size > 0 && i < |Chunks(sorted, size)|
    requires Sorted(sorted, IntLess) && forall k :: 0 <= k < |sorted| ==> sorted[k] > 0
    requires IsSplit(other, size) && AllPositive(other) && multiset(Concat(other)) == multiset(sorted)
    ensures i < |other|
    ensures Ascending(Starts(other, overlap, floor))[i] <= Starts(Chunks(sorted, size), overlap, floor)[i]
  {
    ChunkStart(sorted, size, overlap, floor, i);
    ManyOldBatches(sorted, size, overlap, floor, other, i);
    NthSmallest(Starts(other, overlap, floor), i, StartFrom(sorted[Mul(i, size)], overlap, floor));
  }

  lemma PlanAscends(sorted: seq<int>, size: nat, overlap: int, floor: int)
    requires size > 0
    requires Sorted(sorted, IntLess) && forall k :: 0 <= k < |sorted| ==> sorted[k] > 0
    ensures Sorted(Starts(Chunks(sorted, size), overlap, floor), IntLess)
  {
    var plan := Starts(Chunks(sorted, size), overlap, floor);
    forall i, j | 0 <= i < j < |plan| ensures !IntLess(plan[j], plan[i]) {
      ChunkStart(sorted, size, overlap, floor, i);
      ChunkStart(sorted, size, overlap, floor, j);
      MulMonotone(i, j, size);
      assert !IntLess(sorted[Mul(j, size)], sorted[Mul(i, size)]);
    }
  }

  /** Pointwise optimality of cutting a sorted list. */
  lemma ChunksArePointwiseOptimal(sorted: seq<int>, size: nat, overlap: int, floor: int, other: seq<seq<int>>)
    requires size > 0
    requires Sorted(sorted, IntLess) && forall k :: 0 <= k < |sorted| ==> sorted[k] > 0
    requires IsSplit(other, size) && AllPositive(other) && multiset(Concat(other)) == multiset(sorted)
    ensures |Chunks(sorted, size)| <= |other|
    ensures Sorted(Starts(Chunks(sorted, size), overlap, floor), IntLess)
    ensures forall i :: 0 <= i < |Chunks(sorted, size)| ==>
      Ascending(Starts(other, overlap, floor))[i] <= Starts(Chunks(sorted, size), overlap, floor)[i]
  {
    var plan := Starts(Chunks(sorted, size), overlap, floor);
    forall i | 0 <= i < |plan|
      ensures i < |other| && Ascending(Starts(other, overlap, floor))[i] <= plan[i]
    {
      EarlierThanChunk(sorted, size, overlap, floor, other, i);
    }
    if |plan| > 0 {
      EarlierThanChunk(sorted, size, overlap, floor, other, |plan| - 1);
    }
    PlanAscends(sorted, size, overlap, floor);
  }

  // ---------------------------------------------------------------- total look-back

  ghost function LookBack(now: int, starts: seq<int>): int {
    if starts == [] then 0 else (now - starts[0]) + LookBack(now, starts[1..])
  }

  lemma {:induction false} LookBackPointwise(now: int, plan: seq<int>, alt: seq<int>)
    requires |plan| <= |alt| && forall i :: 0 <= i < |plan| ==> alt[i] <= plan[i]
    requires forall i :: 0 <= i < |alt| ==> alt[i] <= now
    ensures LookBack(now, plan) <= LookBack(now, alt)
    decreases |alt|
  {
    if plan != [] {
      LookBackPointwise(now, plan[1..], alt[1..]);
    } else if alt != [] {
      LookBackPointwise(now, [], alt[1..]);
    }
  }

  lemma {:induction false} LookBackConcat(now: int, a: seq<int>, b: seq<int>)
    ensures LookBack(now, a + b) == LookBack(now, a) + LookBack(now, b)
  {
    if a == [] {
      assert a + b == b;
    } else {
      assert (a + b)[1..] == a[1..] + b;
      LookBackConcat(now, a[1..], b);
    }
  }

  lemma {:induction false} LookBackPermutes(now: int, a: seq<int>, b: seq<int>)
    requires multiset(a) == multiset(b)
    ensures LookBack(now, a) == LookBack(now, b)
    decreases |a|
  {
    SameElements(a, b);
    if a != [] {
      var k := RemoveHead(a, b);
      LookBackPermutes(now, a[1..], Without(b, k));
      LookBackConcat(now, b[..k], b[k + 1..]);
      assert b == b[..k] + b[k..];
      LookBackConcat(now, b[..k], b[k..]);
    }
  }

  // ---------------------------------------------------------------- look-back per member

  /** The start each member is actually fetched from: its batch's. */
  ghost function MemberStarts(batches: seq<seq<int>>, overlap: int, floor: int): (r: seq<int>)
    ensures |r| == |Concat(batches)|
  {
    if batches == [] then [] else
    seq(|batches[0]|, i => StartFrom(Oldest(batches[0]), overlap, floor)) + MemberStarts(batches[1..], overlap, floor)
  }

  /** The start each member would need if it were alone. */
  ghost function OwnStarts(marks: seq<int>, overlap: int, floor: int): (r: seq<int>)
    ensures |r| == |marks|
  {
    Map(h => StartFrom(h, overlap, floor), marks)
  }

  lemma {:induction false} BatchStartsEarlier(batches: seq<seq<int>>, overlap: int, floor: int)
    requires AllPositive(batches)
    ensures forall i :: 0 <= i < |Concat(batches)| ==>
      MemberStarts(batches, overlap, floor)[i] <= OwnStarts(Concat(batches), overlap, floor)[i]
  {
    if batches != [] {
      BatchStartsEarlier(batches[1..], overlap, floor);
      OldestIsMinimum(batches[0]);
      var n := |batches[0]|;
      forall i | 0 <= i < |Concat(batches)|
        ensures MemberStarts(batches, overlap, floor)[i] <= OwnStarts(Concat(batches), overlap, floor)[i]
      {
        if i >= n {
          assert OwnStarts(Concat(batches[1..]), overlap, floor)[i - n] == OwnStarts(Concat(batches), overlap, floor)[i];
        }
      }
    }
  }

  function Singles(marks: seq<int>): (r: seq<seq<int>>)
    ensures |r| == |marks| && forall i :: 0 <= i < |r| ==> r[i] == [marks[i]]
  {
    seq(|marks|, i requires 0 <= i < |marks| => [marks[i]])
  }

  lemma {:induction false} SinglesMeetOwnStarts(marks: seq<int>, overlap: int, floor: int)
    requires forall i :: 0 <= i < |marks| ==> marks[i] > 0
    ensures Concat(Singles(marks)) == marks
    ensures MemberStarts(Singles(marks), overlap, floor) == OwnStarts(marks, overlap, floor)
  {
    if marks != [] {
      SinglesMeetOwnStarts(marks[1..], overlap, floor);
      assert Singles(marks)[1..] == Singles(marks[1..]);
      assert marks == [marks[0]] + marks[1..];
      assert Oldest([marks[0]]) == marks[0];
    }
  }

  lemma {:induction false} EarlierLooksBackMore(now: int, a: seq<int>, b: seq<int>)
    requires |a| == |b| && forall i :: 0 <= i < |a| ==> a[i] <= b[i]
    ensures LookBack(now, a) >= LookBack(now, b)
    ensures LookBack(now, a) == LookBack(now, b) <==> a == b
  {
    if a != [] {
      EarlierLooksBackMore(now, a[1..], b[1..]);
      assert a == [a[0]] + a[1..] && b == [b[0]] + b[1..];
    }
  }

  /** No split of these members looks back less per member than `plan` does. */
  ghost predicate LeastPerMember(plan: seq<seq<int>>, size: nat, overlap: int, floor: int, now: int) {
    forall other: seq<seq<int>> ::
      IsSplit(other, size) && AllPositive(other) && multiset(Concat(other)) == multiset(Concat(plan)) ==>
        LookBack(now, MemberStarts(plan, overlap, floor)) <= LookBack(now, MemberStarts(other, overlap, floor))
  }

  /** Counted per member instead of per request, the plan is minimal exactly when no member shares
      a batch with one that needs an earlier start. */
  lemma LeastPerMemberExactly(plan: seq<seq<int>>, size: nat, overlap: int, floor: int, now: int)
    requires size > 0 && IsSplit(plan, size) && AllPositive(plan)
    ensures LeastPerMember(plan, size, overlap, floor, now)
        <==> MemberStarts(plan, overlap, floor) == OwnStarts(Concat(plan), overlap, floor)
  {
    var marks := Concat(plan);
    ConcatPositive(plan);
    BatchStartsEarlier(plan, overlap, floor);
    SinglesMeetOwnStarts(marks, overlap, floor);
    EarlierLooksBackMore(now, MemberStarts(plan, overlap, floor), OwnStarts(marks, overlap, floor));
    if LeastPerMember(plan, size, overlap, floor, now) {
      assert IsSplit(Singles(marks), size) && AllPositive(Singles(marks));
    }
    if MemberStarts(plan, overlap, floor) == OwnStarts(marks, overlap, floor) {
      forall other: seq<seq<int>> |
        IsSplit(other, size) && AllPositive(other) && multiset(Concat(other)) == multiset(marks)
        ensures LookBack(now, MemberStarts(plan, overlap, floor)) <= LookBack(now, MemberStarts(other, overlap, floor))
      {
        BatchStartsEarlier(other, overlap, floor);
        EarlierLooksBackMore(now, MemberStarts(other, overlap, floor), OwnStarts(Concat(other), overlap, floor));
        MapPermutes(h => StartFrom(h, overlap, floor), Concat(other), marks);
        LookBackPermutes(now, OwnStarts(Concat(other), overlap, floor), OwnStarts(marks, overlap, floor));
      }
    }
  }

  /** Every batch starts where each of its members alone would. */
  ghost predicate NobodyWaits(batches: seq<seq<int>>, overlap: int, floor: int) {
    forall i, k :: 0 <= i < |batches| && 0 <= k < |batches[i]| ==>
      StartFrom(Oldest(batches[i]), overlap, floor) == StartFrom(batches[i][k], overlap, floor)
  }

  lemma {:induction false} NobodyWaitsExactly(batches: seq<seq<int>>, overlap: int, floor: int)
    ensures NobodyWaits(batches, overlap, floor)
       <==> MemberStarts(batches, overlap, floor) == OwnStarts(Concat(batches), overlap, floor)
  {
    if batches != [] {
      var first, rest := batches[0], batches[1..];
      NobodyWaitsExactly(rest, overlap, floor);
      FirstNobodyWaits(first, rest, overlap, floor);
      OwnStartsConcat(first, Concat(rest), overlap, floor);
      var ms := seq(|first|, i => StartFrom(Oldest(first), overlap, floor));
      var own := OwnStarts(first, overlap, floor);
      assert (ms + MemberStarts(rest, overlap, floor))[..|first|] == ms;
      assert (ms + MemberStarts(rest, overlap, floor))[|first|..] == MemberStarts(rest, overlap, floor);
      assert (own + OwnStarts(Concat(rest), overlap, floor))[..|first|] == own;
      assert (own + OwnStarts(Concat(rest), overlap, floor))[|first|..] == OwnStarts(Concat(rest), overlap, floor);
      BatchNobodyWaits(first, overlap, floor);
    }
  }

  lemma OwnStartsConcat(a: seq<int>, b: seq<int>, overlap: int, floor: int)
    ensures OwnStarts(a + b, overlap, floor) == OwnStarts(a, overlap, floor) + OwnStarts(b, overlap, floor)
  {
  }

  lemma BatchNobodyWaits(batch: seq<int>, overlap: int, floor: int)
    ensures seq(|batch|, i => StartFrom(Oldest(batch), overlap, floor)) == OwnStarts(batch, overlap, floor)
       <==> forall k :: 0 <= k < |batch| ==> StartFrom(Oldest(batch), overlap, floor) == StartFrom(batch[k], overlap, floor)
  {
    var ms, own := seq(|batch|, i => StartFrom(Oldest(batch), overlap, floor)), OwnStarts(batch, overlap, floor);
    assert forall k :: 0 <= k < |batch| ==> own[k] == StartFrom(batch[k], overlap, floor);
    if ms == own {
      forall k | 0 <= k < |batch| ensures StartFrom(Oldest(batch), overlap, floor) == StartFrom(batch[k], overlap, floor) {
        assert ms[k] == own[k];
      }
    }
  }

  lemma FirstNobodyWaits(first: seq<int>, rest: seq<seq<int>>, overlap: int, floor: int)
    ensures NobodyWaits([first] + rest, overlap, floor) <==> NobodyWaits([first], overlap, floor) && NobodyWaits(rest, overlap, floor)
  {
    var all := [first] + rest;
    assert forall i :: 0 <= i < |rest| ==> all[i + 1] == rest[i];
    if NobodyWaits(all, overlap, floor) {
      forall i, k | 0 <= i < |rest| && 0 <= k < |rest[i]|
        ensures StartFrom(Oldest(rest[i]), overlap, floor) == StartFrom(rest[i][k], overlap, floor)
      {
        assert all[i + 1] == rest[i];
      }
      assert all[0] == first;
    }
  }

  lemma ChunkOfSorted(sorted: seq<int>, size: nat, i: nat)
    requires size > 0 && i < |Chunks(sorted, size)|
    requires Sorted(sorted, IntLess) && forall k :: 0 <= k < |sorted| ==> sorted[k] > 0
    ensures Chunks(sorted, size)[i] != [] && Oldest(Chunks(sorted, size)[i]) == Chunks(sorted, size)[i][0]
    ensures forall k :: 0 <= k < |Chunks(sorted, size)[i]| ==> Chunks(sorted, size)[i][k] > 0
  {
    ChunksCut(sorted, size);
    ChunkAt(sorted, size, i);
    PartOfSorted(sorted, Mul(i, size), Chunks(sorted, size)[i]);
  }

  lemma PartOfSorted(sorted: seq<int>, from: nat, part: seq<int>)
    requires part != [] && from + |part| <= |sorted| && part == sorted[from..from + |part|]
    requires Sorted(sorted, IntLess) && forall k :: 0 <= k < |sorted| ==> sorted[k] > 0
    ensures Oldest(part) == part[0] && forall k :: 0 <= k < |part| ==> part[k] > 0
  {
    OldestOfPart(sorted, from, |part|);
  }

  lemma ChunksPositive(sorted: seq<int>, size: nat)
    requires size > 0 && Sorted(sorted, IntLess) && forall k :: 0 <= k < |sorted| ==> sorted[k] > 0
    ensures AllPositive(Chunks(sorted, size))
  {
    forall i | 0 <= i < |Chunks(sorted, size)|
      ensures forall k :: 0 <= k < |Chunks(sorted, size)[i]| ==> Chunks(sorted, size)[i][k] > 0
    {
      ChunkOfSorted(sorted, size, i);
    }
  }

  /** The batches the plan cuts a sorted list into are least per member exactly when the members of
      each batch all need the same start. */
  lemma ChunksLeastPerMemberExactly(sorted: seq<int>, size: nat, overlap: int, floor: int, now: int)
    requires size > 0 && Sorted(sorted, IntLess) && forall k :: 0 <= k < |sorted| ==> sorted[k] > 0
    ensures LeastPerMember(Chunks(sorted, size), size, overlap, floor, now) <==>
      forall i, k :: 0 <= i < |Chunks(sorted, size)| && 0 <= k < |Chunks(sorted, size)[i]| ==>
        StartFrom(Chunks(sorted, size)[i][0], overlap, floor) == StartFrom(Chunks(sorted, size)[i][k], overlap, floor)
  {
    var plan := Chunks(sorted, size);
    ChunksCut(sorted, size);
    forall i | 0 <= i < |plan| ensures Oldest(plan[i]) == plan[i][0] {
      ChunkOfSorted(sorted, size, i);
    }
    ChunksPositive(sorted, size);
    LeastPerMemberExactly(plan, size, overlap, floor, now);
    NobodyWaitsExactly(plan, overlap, floor);
  }

  lemma {:induction false} ConcatPositive(batches: seq<seq<int>>)
    requires AllPositive(batches)
    ensures forall i :: 0 <= i < |Concat(batches)| ==> Concat(batches)[i] > 0
  {
    if batches != [] {
      ConcatPositive(batches[1..]);
      assert forall k :: 0 <= k < |batches[0]| ==> batches[0][k] > 0;
    }
  }

  lemma OldestOfPair(a: int, b: int)
    ensures Oldest([a, b]) == if b > 0 && (a <= 0 || b < a) then b else if a > 0 then a else 0
  {
    assert [a, b][..1] == [a] && Oldest([a]) == if a > 0 then a else 0;
  }

  /** Positive marks are needed: two members without a mark get a batch of their own that starts at
      the floor, while spreading them over the other batches starts every batch later. */
  lemma MissingMarksBreakOptimality()
    ensures multiset([0, 3609] + [0, 3605]) == multiset([0, 0, 3605, 3609])
    ensures Starts(Chunks([0, 0, 3605, 3609], 2), 3600, 1) == [1, 5]
    ensures Starts([[0, 3609], [0, 3605]], 3600, 1) == [9, 5]
  {
    var s := [0, 0, 3605, 3609];
    assert s[..2] == [0, 0] && s[2..] == [3605, 3609];
    assert Chunks(s, 2) == [[0, 0], [3605, 3609]];
    OldestOfPair(0, 3609);
    OldestOfPair(0, 3605);
    OldestOfPair(0, 0);
    OldestOfPair(3605, 3609);
  }
}
