/** Which tokens a price refresh asks for (`internal/enrich/prices.go`), stated on their table timestamps:
    cold without one, skipped when it is young, in a warm request otherwise, and from when. */
module Refresh {
  import opened Basics
  import opened Sorting
  import opened Batching
  import opened WarmPrices

  /** The table timestamp in nanoseconds; the table mixes seconds and milliseconds. */
  ghost function Stamp(raw: int): int {
    if raw >= 1000000000000 then raw * 1000000 else raw * 1000000000
  }

  /** No timestamp, or a refresh that ignores them. */
  ghost predicate IsCold(marks: Marks, forceCold: bool, id: string) {
    forceCold || id !in marks || marks[id] == 0
  }

  /** A positive timestamp younger than `age`. */
  ghost predicate IsYoung(marks: Marks, id: string, now: int, age: int) {
    id in marks && marks[id] > 0 && now < Stamp(marks[id]) + age
  }

  ghost predicate Asks(requests: seq<Request>, id: string) {
    exists i :: 0 <= i < |requests| && id in requests[i].ids
  }

  lemma {:induction false} NamedExactly(tokens: seq<string>, id: string)
    ensures id in Named(tokens) <==> id in tokens && id != ""
  {
    if tokens != [] {
      NamedExactly(tokens[..|tokens| - 1], id);
      assert tokens == tokens[..|tokens| - 1] + [tokens[|tokens| - 1]];
    }
  }

  lemma {:induction false} OfExactly(kind: Kind, ids: seq<string>, marks: Marks, forceCold: bool, now: int, age: int, id: string)
    ensures id in Of(kind, ids, marks, forceCold, now, age) <==> id in ids && KindOf(marks, id, forceCold, now, age) == kind
  {
    if ids != [] {
      OfExactly(kind, ids[..|ids| - 1], marks, forceCold, now, age, id);
      assert ids == ids[..|ids| - 1] + [ids[|ids| - 1]];
    }
  }

  lemma KindExactly(marks: Marks, id: string, forceCold: bool, now: int, age: int)
    ensures var kind := KindOf(marks, id, forceCold, now, age);
      && (kind == Cold <==> IsCold(marks, forceCold, id))
      && (kind == Fresh <==> !IsCold(marks, forceCold, id) && IsYoung(marks, id, now, age))
  {
  }

  lemma {:induction false} InConcat<T>(batches: seq<seq<T>>, x: T)
    ensures x in Concat(batches) <==> exists i :: 0 <= i < |batches| && x in batches[i]
  {
    if batches != [] {
      InConcat(batches[1..], x);
      if x in Concat(batches[1..]) {
        var i :| 0 <= i < |batches[1..]| && x in batches[1..][i];
        assert x in batches[i + 1];
      }
      if i :| 0 < i < |batches| && x in batches[i] {
        assert x in batches[1..][i - 1];
      }
    }
  }

  lemma WarmAsks(warm: seq<string>, marks: Marks, size: nat, floor: int, id: string)
    requires size > 0
    ensures Asks(WarmRequests(warm, marks, size, OVERLAP_SEC, floor), id) <==> id in warm
  {
    var requests := WarmRequests(warm, marks, size, OVERLAP_SEC, floor);
    WarmRequestsCover(warm, marks, size, OVERLAP_SEC, floor);
    InConcat(IdsOf(requests), id);
    SameElements(Concat(IdsOf(requests)), warm);
    assert forall i :: 0 <= i < |requests| ==> IdsOf(requests)[i] == requests[i].ids;
  }

  lemma ColdAsks(ids: seq<string>, size: nat, requests: seq<Request>, id: string)
    requires size > 0 && |requests| == |Chunks(ids, size)|
    requires forall i :: 0 <= i < |requests| ==> requests[i].ids == Chunks(ids, size)[i]
    ensures Asks(requests, id) <==> id in ids
  {
    ChunksCut(ids, size);
    InConcat(Chunks(ids, size), id);
  }

  /** For every token asked about: one without a timestamp is in a cold request and no warm one, a young one
      is in no request, any other is in a warm request and no cold one; and no other token is in any.
      The age that counts as young is half an hour unless set. */
  lemma PlanExactly(tokens: seq<string>, marks: Marks, forceCold: bool, now: int, lookback: int, warmAge: int, batch: int,
                    cold: seq<Request>, warm: seq<Request>, skippedFresh: nat, id: string)
    requires IsPlan(tokens, marks, forceCold, now, lookback, warmAge, batch, cold, warm, skippedFresh)
    ensures var age := if warmAge > 0 then warmAge else 1800000000000;
      var asked := id in tokens && id != "";
      && (Asks(cold, id) <==> asked && IsCold(marks, forceCold, id))
      && (Asks(warm, id) <==> asked && !IsCold(marks, forceCold, id) && !IsYoung(marks, id, now, age))
  {
    var age, size := PositiveInt(warmAge, DEFAULT_WARM_AGE), PositiveInt(batch, DEFAULT_BATCH);
    var ids := Named(tokens);
    NamedExactly(tokens, id);
    KindExactly(marks, id, forceCold, now, age);
    OfExactly(Cold, ids, marks, forceCold, now, age, id);
    OfExactly(Warm, ids, marks, forceCold, now, age, id);
    ColdAsks(Of(Cold, ids, marks, forceCold, now, age), size, cold, id);
    WarmAsks(Of(Warm, ids, marks, forceCold, now, age), marks, size,
             (now - PositiveInt(lookback, DEFAULT_LOOKBACK)) / SECOND, id);
  }

  // ---------------------------------------------------------------- from when

  /** Cold requests start the look-back before now, thirty days unless set, to the second below. */
  lemma ColdStartExactly(tokens: seq<string>, marks: Marks, forceCold: bool, now: int, lookback: int, warmAge: int, batch: int,
                         cold: seq<Request>, warm: seq<Request>, skippedFresh: nat, i: nat)
    requires IsPlan(tokens, marks, forceCold, now, lookback, warmAge, batch, cold, warm, skippedFresh) && i < |cold|
    ensures var from := now - (if lookback > 0 then lookback else 2592000000000000);
      cold[i].start * 1000000000 <= from < (cold[i].start + 1) * 1000000000
  {
  }

  /** The timestamp in whole seconds. */
  lemma MarkInSeconds(marks: Marks, id: string)
    ensures var mark := MarkBy(marks)(id);
      if id in marks && marks[id] > 0
      then mark * 1000000000 <= Stamp(marks[id]) < (mark + 1) * 1000000000
      else mark == 0
  {
  }

  /** A warm request starts where its oldest token needs it: an hour before that token's timestamp, but not
      before the cold start. */
  lemma WarmStartIsNeeded(warm: seq<string>, marks: Marks, size: nat, floor: int, i: nat) returns (k: nat)
    requires size > 0 && i < |WarmRequests(warm, marks, size, OVERLAP_SEC, floor)|
    requires exists id :: id in WarmRequests(warm, marks, size, OVERLAP_SEC, floor)[i].ids && MarkBy(marks)(id) > 0
    ensures var r := WarmRequests(warm, marks, size, OVERLAP_SEC, floor)[i];
      && k < |r.ids| && MarkBy(marks)(r.ids[k]) > 0 && r.start == OwnStart(MarkBy(marks)(r.ids[k]), 3600, floor)
      && forall j :: 0 <= j < |r.ids| && MarkBy(marks)(r.ids[j]) > 0 ==> MarkBy(marks)(r.ids[k]) <= MarkBy(marks)(r.ids[j])
  {
    var r := WarmRequests(warm, marks, size, OVERLAP_SEC, floor)[i];
    var batch := Map(MarkBy(marks), r.ids);
    OldestIsMinimum(batch);
    assert forall j :: 0 <= j < |r.ids| ==> batch[j] == MarkBy(marks)(r.ids[j]);
    var id :| id in r.ids && MarkBy(marks)(id) > 0;
    var j :| 0 <= j < |r.ids| && r.ids[j] == id;
    assert batch[j] > 0;
    k :| 0 <= k < |batch| && batch[k] == Oldest(batch);
  }
}
