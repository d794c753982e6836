/** The incremental price planner (`internal/enrich/prices.go`): partition tokens into cold, fresh
    and warm, sort the warm ones by high-water mark, cut them into batches, and give each batch the
    one start time its oldest token needs. */
module WarmPrices {
  import opened Basics
  import opened Sorting
  import opened Batching

  type Marks = map<string, int>

  const MILLIS_FROM: int := 1000000000000
  const DEFAULT_BATCH: int := 20
  const SECOND: int := 1000000000

  /** Raw table timestamp of a token; a missing entry reads as zero. */
  function RawMark(marks: Marks, id: string): int {
    if id in marks then marks[id] else 0
  }

  /** High-water marks in unix seconds (the table mixes seconds and milliseconds), 0 when there is none. */
  function MarkBy(marks: Marks): (mark: string -> int)
    ensures forall id :: mark(id) >= 0 && (mark(id) > 0 <==> RawMark(marks, id) > 0)
  {
    (id: string) =>
      var raw := RawMark(marks, id);
      if raw <= 0 then 0 else if raw >= MILLIS_FROM then raw / 1000 else raw
  }

  // ---------------------------------------------------------------- order

  /** Byte order on strings, as Go compares them. */
  predicate TextLess(a: string, b: string) {
    if a == [] then b != []
    else if b == [] then false
    else if a[0] == b[0] then TextLess(a[1..], b[1..])
    else a[0] < b[0]
  }

  lemma {:induction false} TextOrder(a: string, b: string, c: string)
    ensures TextLess(a, b) ==> !TextLess(b, a)
    ensures TextLess(a, c) ==> TextLess(a, b) || TextLess(b, c)
  {
    if a != [] && b != [] {
      TextOrder(a[1..], b[1..], if c == [] then [] else c[1..]);
    }
  }

  /** Older mark first, a token without a mark before all others, the id deciding between equals. */
  function OlderFirst(mark: string -> int): (string, string) -> bool {
    (a: string, b: string) =>
      if mark(a) == mark(b) then TextLess(a, b)
      else if mark(a) == 0 then true
      else if mark(b) == 0 then false
      else mark(a) < mark(b)
  }

  lemma OlderFirstIsOrder(mark: string -> int)
    requires forall id :: mark(id) >= 0
    ensures StrictWeak(OlderFirst(mark))
  {
    forall x: string, y: string, z: string
      ensures TextLess(x, y) ==> !TextLess(y, x)
      ensures TextLess(x, z) ==> TextLess(x, y) || TextLess(y, z)
    {
      TextOrder(x, y, z);
    }
  }

  function SortByMark(ids: seq<string>, mark: string -> int): (r: seq<string>)
    ensures |r| == |ids| && multiset(r) == multiset(ids)
  {
    StableSort(ids, OlderFirst(mark))
  }

  lemma SortByMarkAscends(ids: seq<string>, mark: string -> int)
    requires forall id :: mark(id) >= 0
    ensures Sorted(Map(mark, SortByMark(ids, mark)), IntLess)
  {
    var sorted := SortByMark(ids, mark);
    OlderFirstIsOrder(mark);
    StableSortSorted(ids, OlderFirst(mark));
    forall i, j | 0 <= i < j < |sorted| ensures !IntLess(mark(sorted[j]), mark(sorted[i])) {
      assert !OlderFirst(mark)(sorted[j], sorted[i]);
    }
  }

  // ---------------------------------------------------------------- batches and start times

  method ChunkTokenIDs(ids: seq<string>, size: int) returns (chunks: seq<seq<string>>)
    ensures chunks == Chunks(ids, if size <= 0 then DEFAULT_BATCH else size)
  {
    var step := if size <= 0 then DEFAULT_BATCH else size;
    chunks := [];
    var i := 0;
    assert CutUpTo(chunks, ids, 0, step) by { assert From(ids, 0) == ids; }
    while i < |ids|
      invariant 0 <= i && CutUpTo(chunks, ids, i, step)
      decreases |ids| - i
    {
      var end := i + step;
      if end > |ids| {
        end := |ids|;
      }
      NextChunk(chunks, ids, i, step);
      chunks := chunks + [ids[i..end]];
      i := i + step;
    }
    AllCut(chunks, ids, i, step);
  }

  /** `done` cuts the list up to position `i`. */
  ghost predicate CutUpTo<T>(done: seq<seq<T>>, s: seq<T>, i: nat, step: nat)
    requires step > 0
  {
    done + Chunks(From(s, i), step) == Chunks(s, step)
  }

  lemma NextChunk<T>(done: seq<seq<T>>, s: seq<T>, i: nat, step: nat)
    requires step > 0 && i < |s| && CutUpTo(done, s, i, step)
    ensures CutUpTo(done + [s[i..if i + step > |s| then |s| else i + step]], s, i + step, step)
  {
    FirstChunk(s, i, step);
    Regroup(done, s[i..if i + step > |s| then |s| else i + step], Chunks(From(s, i + step), step));
  }

  lemma Regroup<T>(done: seq<T>, x: T, left: seq<T>)
    ensures done + ([x] + left) == done + [x] + left
  {
  }

  lemma AllCut<T>(done: seq<seq<T>>, s: seq<T>, i: nat, step: nat)
    requires step > 0 && i >= |s| && CutUpTo(done, s, i, step)
    ensures done == Chunks(s, step)
  {
    assert done + [] == done;
  }

  function From<T>(s: seq<T>, i: nat): seq<T> {
    if i < |s| then s[i..] else []
  }

  lemma FirstChunk<T>(s: seq<T>, i: nat, step: nat)
    requires step > 0 && i < |s|
    ensures var end := if i + step > |s| then |s| else i + step;
      Chunks(From(s, i), step) == [s[i..end]] + Chunks(From(s, i + step), step)
  {
    var left := s[i..];
    if |left| > step {
      assert left[step..] == s[i + step..] && left[..step] == s[i..i + step];
    } else {
      assert left == s[i..|s|];
      assert Chunks(left, step) == [left] + Chunks([], step);
    }
  }

  method EarliestHWM(ids: seq<string>, marks: Marks) returns (minLast: int)
    ensures minLast == Oldest(Map(MarkBy(marks), ids))
  {
    var mark := MarkBy(marks);
    minLast := 0;
    for i := 0 to |ids|
      invariant minLast == Oldest(Map(mark, ids)[..i])
    {
      assert Map(mark, ids)[..i + 1][..i] == Map(mark, ids)[..i];
      var last := mark(ids[i]);
      if last <= 0 {
        continue;
      }
      if minLast == 0 || last < minLast {
        minLast := last;
      }
    }
    assert Map(mark, ids)[..|ids|] == Map(mark, ids);
  }

  method EarliestStartTS(ids: seq<string>, marks: Marks, overlapSec: int, floor: int) returns (start: int)
    ensures start == StartFrom(Oldest(Map(MarkBy(marks), ids)), overlapSec, floor)
  {
    var minLast := EarliestHWM(ids, marks);
    if minLast <= 0 {
      if floor > 0 {
        return floor;
      }
      return 0;
    }
    var overlap := overlapSec;
    if overlap < 0 {
      overlap := 0;
    }
    start := minLast - overlap;
    if floor > 0 && start < floor {
      start := floor;
    }
  }

  // ---------------------------------------------------------------- partition and plan

  datatype Kind = Cold | Fresh | Warm

  /** A mark as an instant in nanoseconds. */
  function Instant(raw: int): int {
    if raw >= MILLIS_FROM then raw * 1000000 else raw * SECOND
  }

  /** Cold without a mark (or when forced); fresh when the mark is younger than `warmAge`; else warm.
      A negative mark reads as Go's zero time, which is older than any age. */
  function KindOf(marks: Marks, id: string, forceCold: bool, now: int, warmAge: int): Kind {
    if RawMark(marks, id) == 0 || forceCold then Cold
    else if RawMark(marks, id) > 0 && now - Instant(RawMark(marks, id)) < warmAge then Fresh
    else Warm
  }

  function Of(kind: Kind, ids: seq<string>, marks: Marks, forceCold: bool, now: int, warmAge: int): seq<string> {
    if ids == [] then [] else
    var front, id := Of(kind, ids[..|ids| - 1], marks, forceCold, now, warmAge), ids[|ids| - 1];
    if KindOf(marks, id, forceCold, now, warmAge) == kind then front + [id] else front
  }

  datatype Request = Request(ids: seq<string>, start: int)

  /** Warm requests: the sorted warm tokens in batches, each with its batch's start. */
  function WarmRequests(warm: seq<string>, marks: Marks, size: nat, overlap: int, floor: int): (r: seq<Request>)
    requires size > 0
  {
    RequestsFor(Chunks(SortByMark(warm, MarkBy(marks)), size), MarkBy(marks), overlap, floor)
  }

  function RequestsFor(batches: seq<seq<string>>, mark: string -> int, overlap: int, floor: int): (r: seq<Request>)
    ensures |r| == |batches|
    ensures forall i :: 0 <= i < |r| ==>
      r[i].ids == batches[i] && r[i].start == StartFrom(Oldest(Map(mark, batches[i])), overlap, floor)
  {
    if batches == [] then [] else
    var b := batches[|batches| - 1];
    RequestsFor(batches[..|batches| - 1], mark, overlap, floor)
      + [Request(b, StartFrom(Oldest(Map(mark, b)), overlap, floor))]
  }

  const DEFAULT_LOOKBACK: int := 30 * 24 * 3600 * SECOND
  const DEFAULT_WARM_AGE: int := 30 * 60 * SECOND
  const OVERLAP_SEC: int := 3600

  /** The tokens asked about: those with an id. */
  function Named(ids: seq<string>): seq<string> {
    if ids == [] then [] else
    var front, id := Named(ids[..|ids| - 1]), ids[|ids| - 1];
    if id == "" then front else front + [id]
  }

  method KeepNamed(ids: seq<string>) returns (named: seq<string>)
    ensures named == Named(ids)
  {
    named := [];
    for i := 0 to |ids|
      invariant named == Named(ids[..i])
    {
      assert ids[..i + 1][..i] == ids[..i];
      if ids[i] == "" {
        continue;
      }
      named := named + [ids[i]];
    }
    assert ids[..|ids|] == ids;
  }

  /** The requests for the tokens asked about. Times are nanoseconds, starts unix seconds; settings that are
      not positive take their defaults. */
  ghost predicate IsPlan(tokens: seq<string>, marks: Marks, forceCold: bool, now: int, lookbackOpt: int, warmAgeOpt: int,
                         batchOpt: int, cold: seq<Request>, warm: seq<Request>, skippedFresh: nat)
  {
    var coldStart := (now - PositiveInt(lookbackOpt, DEFAULT_LOOKBACK)) / SECOND;
    var warmAge, batch := PositiveInt(warmAgeOpt, DEFAULT_WARM_AGE), PositiveInt(batchOpt, DEFAULT_BATCH);
    var ids := Named(tokens);
    && skippedFresh == |Of(Fresh, ids, marks, forceCold, now, warmAge)|
    && warm == WarmRequests(Of(Warm, ids, marks, forceCold, now, warmAge), marks, batch, OVERLAP_SEC, coldStart)
    && |cold| == |Chunks(Of(Cold, ids, marks, forceCold, now, warmAge), batch)|
    && (forall i :: 0 <= i < |cold| ==>
         cold[i] == Request(Chunks(Of(Cold, ids, marks, forceCold, now, warmAge), batch)[i], coldStart))
  }

  /** EnsurePrices without its I/O: which tokens are asked for, in which batches, from when. */
  method EnsurePrices(tokens: seq<string>, marks: Marks, forceCold: bool, now: int, lookbackOpt: int, warmAgeOpt: int,
                      batchOpt: int)
    returns (cold: seq<Request>, warm: seq<Request>, skippedFresh: nat)
    ensures IsPlan(tokens, marks, forceCold, now, lookbackOpt, warmAgeOpt, batchOpt, cold, warm, skippedFresh)
  {
    var lookback, warmAge := PositiveInt(lookbackOpt, DEFAULT_LOOKBACK), PositiveInt(warmAgeOpt, DEFAULT_WARM_AGE);
    var batch := PositiveInt(batchOpt, DEFAULT_BATCH);
    var ids := KeepNamed(tokens);
    if |ids| == 0 {
      assert SortByMark([], MarkBy(marks)) == [];
      return [], [], 0;
    }
    var coldIds, warmIds: seq<string>;
    coldIds, warmIds, skippedFresh := Partition(ids, marks, forceCold, now, warmAge);
    var coldStart := (now - lookback) / SECOND;

    var chunks := ChunkTokenIDs(coldIds, batch);
    cold := RequestCold(chunks, coldStart);
    chunks := ChunkTokenIDs(SortByMark(warmIds, MarkBy(marks)), batch);
    warm := RequestWarm(chunks, marks, coldStart);
  }

  method RequestCold(chunks: seq<seq<string>>, start: int) returns (cold: seq<Request>)
    ensures |cold| == |chunks| && forall i :: 0 <= i < |cold| ==> cold[i] == Request(chunks[i], start)
  {
    cold := [];
    for i := 0 to |chunks|
      invariant |cold| == i && forall k :: 0 <= k < i ==> cold[k] == Request(chunks[k], start)
    {
      cold := cold + [Request(chunks[i], start)];
    }
  }

  method Partition(ids: seq<string>, marks: Marks, forceCold: bool, now: int, warmAge: int)
    returns (coldIds: seq<string>, warmIds: seq<string>, skippedFresh: nat)
    ensures coldIds == Of(Cold, ids, marks, forceCold, now, warmAge)
    ensures warmIds == Of(Warm, ids, marks, forceCold, now, warmAge)
    ensures skippedFresh == |Of(Fresh, ids, marks, forceCold, now, warmAge)|
  {
    coldIds, warmIds, skippedFresh := [], [], 0;
    for i := 0 to |ids|
      invariant coldIds == Of(Cold, ids[..i], marks, forceCold, now, warmAge)
      invariant warmIds == Of(Warm, ids[..i], marks, forceCold, now, warmAge)
      invariant skippedFresh == |Of(Fresh, ids[..i], marks, forceCold, now, warmAge)|
    {
      assert ids[..i + 1][..i] == ids[..i];
      var raw := RawMark(marks, ids[i]);
      if raw == 0 || forceCold {
        coldIds := coldIds + [ids[i]];
        continue;
      }
      if raw > 0 && now - Instant(raw) < warmAge {
        skippedFresh := skippedFresh + 1;
        continue;
      }
      warmIds := warmIds + [ids[i]];
    }
    assert ids[..|ids|] == ids;
  }

  method RequestWarm(chunks: seq<seq<string>>, marks: Marks, floor: int) returns (warm: seq<Request>)
    ensures warm == RequestsFor(chunks, MarkBy(marks), OVERLAP_SEC, floor)
  {
    warm := [];
    for i := 0 to |chunks|
      invariant warm == RequestsFor(chunks[..i], MarkBy(marks), OVERLAP_SEC, floor)
    {
      assert chunks[..i + 1][..i] == chunks[..i];
      var start := EarliestStartTS(chunks[i], marks, OVERLAP_SEC, floor);
      warm := warm + [Request(chunks[i], start)];
    }
    assert chunks[..|chunks|] == chunks;
  }

  lemma OfNext(kind: Kind, ids: seq<string>, marks: Marks, forceCold: bool, now: int, warmAge: int)
    requires ids != []
    ensures var front, id := ids[..|ids| - 1], ids[|ids| - 1];
      multiset(Of(kind, ids, marks, forceCold, now, warmAge)) == multiset(Of(kind, front, marks, forceCold, now, warmAge))
        + (if KindOf(marks, id, forceCold, now, warmAge) == kind then multiset{id} else multiset{})
  {
    MultisetSnoc(Of(kind, ids[..|ids| - 1], marks, forceCold, now, warmAge), ids[|ids| - 1]);
  }

  /** Every token is of one kind, so the three lists together hold each token as often as the input. */
  lemma {:induction false} PartitionLosesNothing(ids: seq<string>, marks: Marks, forceCold: bool, now: int, warmAge: int)
    ensures multiset(ids) == multiset(Of(Cold, ids, marks, forceCold, now, warmAge))
      + multiset(Of(Fresh, ids, marks, forceCold, now, warmAge))
      + multiset(Of(Warm, ids, marks, forceCold, now, warmAge))
  {
    if ids != [] {
      var front, id := ids[..|ids| - 1], ids[|ids| - 1];
      PartitionLosesNothing(front, marks, forceCold, now, warmAge);
      assert ids == front + [id];
      MultisetSnoc(front, id);
      OfNext(Cold, ids, marks, forceCold, now, warmAge);
      OfNext(Fresh, ids, marks, forceCold, now, warmAge);
      OfNext(Warm, ids, marks, forceCold, now, warmAge);
    }
  }

  // ---------------------------------------------------------------- what the warm plan promises

  function IdsOf(requests: seq<Request>): (r: seq<seq<string>>)
    ensures |r| == |requests| && forall i :: 0 <= i < |r| ==> r[i] == requests[i].ids
  {
    seq(|requests|, i requires 0 <= i < |requests| => requests[i].ids)
  }

  function StartsOf(requests: seq<Request>): (r: seq<int>)
    ensures |r| == |requests| && forall i :: 0 <= i < |r| ==> r[i] == requests[i].start
  {
    seq(|requests|, i requires 0 <= i < |requests| => requests[i].start)
  }

  /** The later of what a token itself needs (its mark less the overlap) and a positive floor. */
  function OwnStart(mark: int, overlap: int, floor: int): int {
    if floor > 0 && mark - overlap < floor then floor else mark - overlap
  }

  /** The warm requests ask for exactly the warm tokens, never more than `size` at a time, and no
      token with a mark is asked for later than it needs. */
  lemma WarmRequestsCover(warm: seq<string>, marks: Marks, size: nat, overlap: int, floor: int)
    requires size > 0 && overlap >= 0
    ensures var requests := WarmRequests(warm, marks, size, overlap, floor);
      && multiset(Concat(IdsOf(requests))) == multiset(warm)
      && IsSplit(IdsOf(requests), size)
      && (forall i, k :: 0 <= i < |requests| && 0 <= k < |requests[i].ids| && MarkBy(marks)(requests[i].ids[k]) > 0 ==>
           requests[i].start <= OwnStart(MarkBy(marks)(requests[i].ids[k]), overlap, floor))
  {
    var mark := MarkBy(marks);
    var requests := WarmRequests(warm, marks, size, overlap, floor);
    ChunksCut(SortByMark(warm, mark), size);
    assert IdsOf(requests) == Chunks(SortByMark(warm, mark), size);
    forall i, k | 0 <= i < |requests| && 0 <= k < |requests[i].ids| && mark(requests[i].ids[k]) > 0
      ensures requests[i].start <= OwnStart(mark(requests[i].ids[k]), overlap, floor)
    {
      BatchInTime(requests[i].ids, mark, overlap, floor, k);
    }
  }

  lemma BatchInTime(batch: seq<string>, mark: string -> int, overlap: int, floor: int, k: nat)
    requires overlap >= 0 && k < |batch| && mark(batch[k]) > 0
    ensures StartFrom(Oldest(Map(mark, batch)), overlap, floor) <= OwnStart(mark(batch[k]), overlap, floor)
  {
    OldestIsMinimum(Map(mark, batch));
    assert Map(mark, batch)[k] == mark(batch[k]);
  }

  lemma StartsAreStarts(batches: seq<seq<string>>, mark: string -> int, overlap: int, floor: int)
    ensures StartsOf(RequestsFor(batches, mark, overlap, floor)) == Starts(MapAll(mark, batches), overlap, floor)
  {
  }

  lemma SplitOfMarked(other: seq<seq<string>>, warm: seq<string>, mark: string -> int, size: nat)
    requires forall id :: id in warm ==> mark(id) > 0
    requires IsSplit(other, size) && multiset(Concat(other)) == multiset(warm)
    ensures IsSplit(MapAll(mark, other), size) && AllPositive(MapAll(mark, other))
  {
    SameElements(Concat(other), warm);
    forall i, k | 0 <= i < |other| && 0 <= k < |other[i]| ensures mark(other[i][k]) > 0 {
      MemberOfConcat(other, i, k);
    }
  }

  lemma {:induction false} MemberOfConcat<T>(batches: seq<seq<T>>, i: nat, k: nat)
    requires i < |batches| && k < |batches[i]|
    ensures batches[i][k] in Concat(batches)
  {
    if i > 0 {
      MemberOfConcat(batches[1..], i - 1, k);
    }
  }

  /** The warm plan is pointwise optimal: any other split of the same tokens into batches of at most
      `size` makes at least as many requests, and its i-th earliest start is no later than the
      plan's, whose own starts are already in ascending order. */
  lemma WarmPlanIsPointwiseOptimal(warm: seq<string>, marks: Marks, size: nat, overlap: int, floor: int,
                                   other: seq<seq<string>>)
    requires size > 0
    requires forall id :: id in warm ==> MarkBy(marks)(id) > 0
    requires IsSplit(other, size) && multiset(Concat(other)) == multiset(warm)
    ensures var plan := StartsOf(WarmRequests(warm, marks, size, overlap, floor));
      var alt := Ascending(StartsOf(RequestsFor(other, MarkBy(marks), overlap, floor)));
      && |plan| <= |alt|
      && Sorted(plan, IntLess)
      && (forall i :: 0 <= i < |plan| ==> alt[i] <= plan[i])
  {
    var mark := MarkBy(marks);
    var ids := SortByMark(warm, mark);
    SortByMarkAscends(warm, mark);
    SameElements(ids, warm);
    SplitOfMarked(other, warm, mark, size);
    MapConcat(mark, other);
    MapPermutes(mark, Concat(other), ids);
    ChunksArePointwiseOptimal(Map(mark, ids), size, overlap, floor, MapAll(mark, other));
    MapChunks(mark, ids, size);
    StartsAreStarts(other, mark, overlap, floor);
    StartsAreStarts(Chunks(ids, size), mark, overlap, floor);
  }

  lemma AscendingLooksBackAlike(now: int, alt: seq<int>)
    requires forall i :: 0 <= i < |alt| ==> alt[i] <= now
    ensures forall i :: 0 <= i < |alt| ==> Ascending(alt)[i] <= now
    ensures LookBack(now, Ascending(alt)) == LookBack(now, alt)
  {
    SameElements(Ascending(alt), alt);
    forall i | 0 <= i < |alt| ensures Ascending(alt)[i] <= now {
      assert Ascending(alt)[i] in Ascending(alt);
    }
    LookBackPermutes(now, alt, Ascending(alt));
  }

  /** A batch of marks at or before `now` starts at or before it. */
  lemma StartIsPast(batch: seq<int>, overlap: int, floor: int, now: int)
    requires batch != [] && floor <= now && forall k :: 0 <= k < |batch| ==> 0 < batch[k] <= now
    ensures StartFrom(Oldest(batch), overlap, floor) <= now
  {
    OldestIsMinimum(batch);
  }

  lemma StartsArePast(batches: seq<seq<string>>, mark: string -> int, size: nat, overlap: int, floor: int, now: int)
    requires IsSplit(batches, size) && floor <= now
    requires forall id :: id in Concat(batches) ==> 0 < mark(id) <= now
    ensures forall i :: 0 <= i < |batches| ==> StartsOf(RequestsFor(batches, mark, overlap, floor))[i] <= now
  {
    forall i | 0 <= i < |batches| ensures StartFrom(Oldest(Map(mark, batches[i])), overlap, floor) <= now {
      forall k | 0 <= k < |batches[i]| ensures 0 < mark(batches[i][k]) <= now {
        MemberOfConcat(batches, i, k);
      }
      StartIsPast(Map(mark, batches[i]), overlap, floor, now);
    }
  }

  /** Hence the look-back summed over all requests is minimal, up to a time no mark and no floor is after. */
  lemma WarmPlanMinimisesLookBack(warm: seq<string>, marks: Marks, size: nat, overlap: int, floor: int,
                                  other: seq<seq<string>>, now: int)
    requires size > 0 && floor <= now
    requires forall id :: id in warm ==> 0 < MarkBy(marks)(id) <= now
    requires IsSplit(other, size) && multiset(Concat(other)) == multiset(warm)
    ensures LookBack(now, StartsOf(WarmRequests(warm, marks, size, overlap, floor)))
         <= LookBack(now, StartsOf(RequestsFor(other, MarkBy(marks), overlap, floor)))
  {
    var alt := StartsOf(RequestsFor(other, MarkBy(marks), overlap, floor));
    WarmPlanIsPointwiseOptimal(warm, marks, size, overlap, floor, other);
    SameElements(Concat(other), warm);
    StartsArePast(other, MarkBy(marks), size, overlap, floor, now);
    AscendingLooksBackAlike(now, alt);
    LookBackPointwise(now, StartsOf(WarmRequests(warm, marks, size, overlap, floor)), Ascending(alt));
  }

  /** Counted per token, the warm plan is least exactly when the tokens of each batch, cut from the
      sorted marks, all need the same start. */
  lemma WarmPlanLeastPerTokenExactly(warm: seq<string>, marks: Marks, size: nat, overlap: int, floor: int, now: int)
    requires size > 0
    requires forall id :: id in warm ==> MarkBy(marks)(id) > 0
    ensures var batches := Chunks(Map(MarkBy(marks), SortByMark(warm, MarkBy(marks))), size);
      && MapAll(MarkBy(marks), IdsOf(WarmRequests(warm, marks, size, overlap, floor))) == batches
      && (LeastPerMember(batches, size, overlap, floor, now) <==>
          forall i, k :: 0 <= i < |batches| && 0 <= k < |batches[i]| ==>
            StartFrom(batches[i][0], overlap, floor) == StartFrom(batches[i][k], overlap, floor))
  {
    var mark := MarkBy(marks);
    var ids := SortByMark(warm, mark);
    SortByMarkAscends(warm, mark);
    SameElements(ids, warm);
    ChunksLeastPerMemberExactly(Map(mark, ids), size, overlap, floor, now);
    MapChunks(mark, ids, size);
    assert IdsOf(WarmRequests(warm, marks, size, overlap, floor)) == Chunks(ids, size);
  }

  /** It need not be: two warm tokens with marks 5 and 9 in one batch are both fetched from 5. */
  lemma WarmPlanCanLookBackTooFar(a: string, b: string, marks: Marks, now: int)
    requires MarkBy(marks)(a) == 5 && MarkBy(marks)(b) == 9
    ensures IdsOf(WarmRequests([a, b], marks, 2, 0, 0)) == [[a, b]]
    ensures StartsOf(WarmRequests([a, b], marks, 2, 0, 0)) == [5]
    ensures !LeastPerMember([[5, 9]], 2, 0, 0, now)
  {
    SortedPair(a, b, MarkBy(marks));
    var ids := [a, b];
    assert Chunks(ids, 2) == [ids];
    assert Map(MarkBy(marks), ids) == [5, 9];
    OldestOfPair(5, 9);
    PairLooksBackTooFar(now);
  }

  /** Four tokens, two of them with a negative table timestamp and hence without a mark. */
  const HALF_MARKED: Marks := map["a" := -1, "b" := -1, "c" := 3605, "d" := 3609]

  lemma HalfMarkedOrder(mark: string -> int)
    requires mark == MarkBy(HALF_MARKED)
    ensures mark("a") == 0 && mark("b") == 0 && mark("c") == 3605 && mark("d") == 3609
    ensures Sorted(["a", "b", "c", "d"], OlderFirst(mark))
  {
    var ids := ["a", "b", "c", "d"];
    assert "a"[0] == 'a' && "b"[0] == 'b' && "c"[0] == 'c' && "d"[0] == 'd';
    forall i, j | 0 <= i < j < |ids| ensures !OlderFirst(mark)(ids[j], ids[i]) {
    }
  }

  lemma HalfMarkedWarm(now: int)
    requires now >= DEFAULT_LOOKBACK
    ensures forall id :: id in HALF_MARKED ==> KindOf(HALF_MARKED, id, false, now, DEFAULT_WARM_AGE) == Warm
  {
  }

  lemma SpreadTokens(a: string, b: string, c: string, d: string)
    ensures IsSplit([[a, d], [b, c]], 2)
    ensures multiset(Concat([[a, d], [b, c]])) == multiset([a, b, c, d])
  {
    assert [[a, d], [b, c]][1..] == [[b, c]] && [[b, c]][1..] == [];
    assert Concat([[b, c]]) == [b, c] + [] == [b, c];
  }

  lemma HalfMarkedStarts(ids: seq<string>, other: seq<seq<string>>, mark: string -> int)
    requires Sorted(ids, OlderFirst(mark)) && Map(mark, ids) == [0, 0, 3605, 3609]
    requires MapAll(mark, other) == [[0, 3609], [0, 3605]]
    ensures StartsOf(RequestsFor(Chunks(SortByMark(ids, mark), 2), mark, OVERLAP_SEC, 1)) == [1, 5]
    ensures StartsOf(RequestsFor(other, mark, OVERLAP_SEC, 1)) == [9, 5]
  {
    StableSortFixed(ids, OlderFirst(mark));
    MapChunks(mark, ids, 2);
    StartsAreStarts(Chunks(ids, 2), mark, OVERLAP_SEC, 1);
    StartsAreStarts(other, mark, OVERLAP_SEC, 1);
    MissingMarksBreakOptimality();
  }

  lemma MapSpread(a: string, b: string, c: string, d: string, mark: string -> int)
    ensures Map(mark, [a, b, c, d]) == [mark(a), mark(b), mark(c), mark(d)]
    ensures MapAll(mark, [[a, d], [b, c]]) == [[mark(a), mark(d)], [mark(b), mark(c)]]
  {
    assert Map(mark, [a, d]) == [mark(a), mark(d)] && Map(mark, [b, c]) == [mark(b), mark(c)];
  }

  /** Without marks the plan can miss the optimum. With the program's overlap and a floor of 1 it puts the
      two unmarked tokens in a batch of their own, fetched from 1, and the others are fetched from 5;
      spread over two batches all are fetched from 5 or 9. */
  lemma MissingMarksMissOptimum(now: int)
    requires now == DEFAULT_LOOKBACK + SECOND
    ensures (now - DEFAULT_LOOKBACK) / SECOND == 1
    ensures forall id :: id in HALF_MARKED ==> KindOf(HALF_MARKED, id, false, now, DEFAULT_WARM_AGE) == Warm
    ensures var warm, other := ["a", "b", "c", "d"], [["a", "d"], ["b", "c"]];
      && IsSplit(other, 2) && multiset(Concat(other)) == multiset(warm)
      && StartsOf(WarmRequests(warm, HALF_MARKED, 2, OVERLAP_SEC, 1)) == [1, 5]
      && StartsOf(RequestsFor(other, MarkBy(HALF_MARKED), OVERLAP_SEC, 1)) == [9, 5]
  {
    var mark := MarkBy(HALF_MARKED);
    HalfMarkedWarm(now);
    SpreadTokens("a", "b", "c", "d");
    HalfMarkedOrder(mark);
    MapSpread("a", "b", "c", "d", mark);
    HalfMarkedStarts(["a", "b", "c", "d"], [["a", "d"], ["b", "c"]], mark);
  }

  lemma SortedPair(a: string, b: string, mark: string -> int)
    requires mark(a) < mark(b) && forall id :: mark(id) >= 0
    ensures SortByMark([a, b], mark) == [a, b]
  {
    SortByMarkAscends([a, b], mark);
    var ids := SortByMark([a, b], mark);
    SameElements(ids, [a, b]);
    assert ids[0] in ids && ids[1] in ids && a in ids && b in ids;
    assert !IntLess(Map(mark, ids)[1], Map(mark, ids)[0]);
  }

  lemma PairLooksBackTooFar(now: int)
    ensures !LeastPerMember([[5, 9]], 2, 0, 0, now)
  {
    var marks := [5, 9];
    assert Chunks(marks, 2) == [marks];
    ChunksLeastPerMemberExactly(marks, 2, 0, 0, now);
    assert [marks][0][0] == 5 && [marks][0][1] == 9 && StartFrom(5, 0, 0) != StartFrom(9, 0, 0);
  }
}
