/** Board policy: the offline selector (`internal/edge/board_select.go`) and the live board builder
    with its sticky cut (`internal/edgescan/stage2.go`, `internal/edgescan/select.go`). How a
    candidate is scored is a parameter, so what is proved here holds for any scoring. */
module Board {
  import opened Basics
  import opened Filters
  import opened Sorting

  /** A scored candidate: `act` is the activity that decides between equal edges. */
  datatype Row<C> = Row(cand: C, id: string, edge: real, act: real)

  /** Higher edge first, then higher activity. */
  function RowLess<C>(): (Row<C>, Row<C>) -> bool {
    (a: Row<C>, b: Row<C>) => if a.edge == b.edge then a.act > b.act else a.edge > b.edge
  }

  /** How candidates are judged: `judge` gives the edge, or nothing for a dropped candidate. */
  datatype Policy<!C> = Policy(id: C -> string, act: C -> real, judge: C -> Option<real>)

  // ---------------------------------------------------------------- SelectBoard

  function Survivors<C>(p: Policy<C>, cands: seq<C>): seq<Row<C>> {
    if cands == [] then [] else
    var front, c := Survivors(p, cands[..|cands| - 1]), cands[|cands| - 1];
    if p.judge(c).None? then front else front + [Row(c, p.id(c), p.judge(c).value, p.act(c))]
  }

  function Ranked<C>(p: Policy<C>, cands: seq<C>): seq<Row<C>> {
    StableSort(Survivors(p, cands), RowLess())
  }

  function Cut<T>(s: seq<T>, n: int): seq<T> {
    var k := if n <= 0 then 50 else n;
    if |s| <= k then s else s[..k]
  }

  method SelectBoard<C>(p: Policy<C>, cands: seq<C>, n: int) returns (board: seq<Row<C>>)
    ensures board == Cut(Ranked(p, cands), n)
  {
    var limit := if n <= 0 then 50 else n;
    var kept: seq<Row<C>> := [];
    for i := 0 to |cands|
      invariant kept == Survivors(p, cands[..i])
    {
      assert cands[..i + 1][..i] == cands[..i];
      var verdict := p.judge(cands[i]);
      if verdict.None? {
        continue;
      }
      kept := kept + [Row(cands[i], p.id(cands[i]), verdict.value, p.act(cands[i]))];
    }
    assert cands[..|cands|] == cands;
    kept := StableSort(kept, RowLess());
    if limit > |kept| {
      limit := |kept|;
    }
    board := kept[..limit];
  }

  lemma RowOrder<C(!new)>()
    ensures StrictWeak(RowLess<C>())
  {
  }

  lemma {:induction false} SurvivorsAre<C(!new)>(p: Policy<C>, cands: seq<C>, r: Row<C>)
    requires r in Survivors(p, cands)
    ensures r.cand in cands && p.judge(r.cand) == Some(r.edge) && r.id == p.id(r.cand) && r.act == p.act(r.cand)
  {
    var k := |cands| - 1;
    if r in Survivors(p, cands[..k]) {
      SurvivorsAre(p, cands[..k], r);
    }
  }

  lemma {:induction false} SurvivorsDistinct<C(!new)>(p: Policy<C>, cands: seq<C>)
    requires DistinctCandidates(p, cands)
    ensures DistinctRows(Survivors(p, cands))
  {
    if cands != [] {
      var k := |cands| - 1;
      SurvivorsDistinct(p, cands[..k]);
      var front := Survivors(p, cands[..k]);
      forall i | 0 <= i < |front| ensures front[i].id != p.id(cands[k]) {
        SurvivorsAre(p, cands[..k], front[i]);
        var j :| 0 <= j < k && cands[j] == front[i].cand;
      }
    }
  }

  ghost predicate DistinctCandidates<C>(p: Policy<C>, cands: seq<C>) {
    forall i, j :: 0 <= i < j < |cands| ==> p.id(cands[i]) != p.id(cands[j])
  }

  ghost predicate DistinctRows<C>(rows: seq<Row<C>>) {
    forall i, j :: 0 <= i < j < |rows| ==> rows[i].id != rows[j].id
  }

  lemma {:induction false} DistinctPermutes<C(!new)>(a: seq<Row<C>>, b: seq<Row<C>>)
    requires multiset(a) == multiset(b) && DistinctRows(a)
    ensures DistinctRows(b)
  {
    SameElements(a, b);
    forall i, j | 0 <= i < j < |b| ensures b[i].id != b[j].id {
      if b[i].id == b[j].id {
        assert b[i] in a && b[j] in a;
        assert b[i] == b[j];
        PresentTwice(b, i, j);
        OnlyOnce(a, b[i]);
      }
    }
  }

  lemma {:induction false} OnlyOnce<C(!new)>(a: seq<Row<C>>, r: Row<C>)
    requires DistinctRows(a)
    ensures multiset(a)[r] <= 1
  {
    if a != [] {
      OnlyOnce(a[1..], r);
      assert a == [a[0]] + a[1..];
      if r == a[0] {
        assert r !in a[1..];
      }
    }
  }

  lemma RankedIsRanking<C(!new)>(p: Policy<C>, cands: seq<C>)
    ensures Sorted(Ranked(p, cands), RowLess())
    ensures multiset(Ranked(p, cands)) == multiset(Survivors(p, cands))
    ensures DistinctCandidates(p, cands) ==> DistinctRows(Ranked(p, cands))
  {
    RowOrder<C>();
    StableSortSorted(Survivors(p, cands), RowLess());
    if DistinctCandidates(p, cands) {
      SurvivorsDistinct(p, cands);
      DistinctPermutes(Survivors(p, cands), Ranked(p, cands));
    }
  }

  /** What a candidate with a verdict becomes. */
  ghost function RowOf<C>(p: Policy<C>): C -> Option<Row<C>> {
    (c: C) => if p.judge(c).Some? then Some(Row(c, p.id(c), p.judge(c).value, p.act(c))) else None
  }

  /** In order, exactly the candidates with a verdict survive, each with its id, edge and activity. */
  lemma {:induction false} SurvivorsExactly<C>(p: Policy<C>, cands: seq<C>) returns (at: seq<nat>)
    ensures IsFilter(cands, RowOf(p), Survivors(p, cands), at)
  {
    if cands == [] {
      at := [];
    } else {
      var front, c := cands[..|cands| - 1], cands[|cands| - 1];
      var before := SurvivorsExactly(p, front);
      FilterNext(front, RowOf(p), Survivors(p, front), before, c);
      assert cands == front + [c];
      at := if p.judge(c).Some? then before + [|front|] else before;
    }
  }

  /** `a` stands ahead of `b`, or either may: a higher edge, or the same and no less activity. */
  predicate NoWorse<C>(a: Row<C>, b: Row<C>) {
    a.edge > b.edge || (a.edge == b.edge && a.act >= b.act)
  }

  /** A board of the best `limit` rows and the rest: best first, all of them if they fit, and otherwise full
      with no row of the rest better than one on it. */
  ghost predicate HasBest<C>(rows: seq<Row<C>>, limit: nat, board: seq<Row<C>>, rest: seq<Row<C>>) {
    && multiset(board) + multiset(rest) == multiset(rows)
    && |board| <= limit && (rest != [] ==> |board| == limit)
    && (forall i, j :: 0 <= i < j < |board| ==> NoWorse(board[i], board[j]))
    && (forall i, j :: 0 <= i < |board| && 0 <= j < |rest| ==> NoWorse(board[i], rest[j]))
  }

  lemma SortedHasBest<C>(sorted: seq<Row<C>>, n: nat)
    requires n <= |sorted| && forall i, j :: 0 <= i < j < |sorted| ==> NoWorse(sorted[i], sorted[j])
    ensures HasBest(sorted, n, sorted[..n], sorted[n..])
  {
    assert sorted == sorted[..n] + sorted[n..];
  }

  lemma RankIsNoWorse<C(!new)>(sorted: seq<Row<C>>)
    requires Sorted(sorted, RowLess())
    ensures forall i, j :: 0 <= i < j < |sorted| ==> NoWorse(sorted[i], sorted[j])
  {
    forall i, j | 0 <= i < j < |sorted| ensures NoWorse(sorted[i], sorted[j]) {
      assert !RowLess<C>()(sorted[j], sorted[i]);
    }
  }

  /** The offline board is the best 50 candidates with a verdict, or as many as asked for. */
  lemma BoardHasBest<C(!new)>(p: Policy<C>, cands: seq<C>, n: int) returns (rest: seq<Row<C>>)
    ensures HasBest(Survivors(p, cands), if n <= 0 then 50 else n, Cut(Ranked(p, cands), n), rest)
  {
    var rows, limit := Ranked(p, cands), if n <= 0 then 50 else n;
    var k := if |rows| <= limit then |rows| else limit;
    RankedIsRanking(p, cands);
    RankIsNoWorse(rows);
    SortedHasBest(rows, k);
    rest := rows[k..];
    assert rows[..k] == Cut(rows, n);
  }

  // ---------------------------------------------------------------- the sticky cut

  predicate Seen<C>(rows: seq<Row<C>>, id: string) {
    exists i :: 0 <= i < |rows| && rows[i].id == id
  }

  /** Both passes of the cut: add rows in order while there is room, skipping ids already taken and,
      in the first pass, ids that are not sticky. */
  function Gather<C>(rows: seq<Row<C>>, only: Option<set<string>>, taken: seq<Row<C>>, n: nat): seq<Row<C>> {
    if rows == [] then taken else
    var acc, r := Gather(rows[..|rows| - 1], only, taken, n), rows[|rows| - 1];
    if |acc| < n && (only.Some? ==> r.id in only.value) && !Seen(acc, r.id) then acc + [r] else acc
  }

  function SelectTop<C>(rows: seq<Row<C>>, sticky: set<string>, maxN: int): seq<Row<C>> {
    if maxN <= 0 || |rows| <= maxN then rows
    else StableSort(Gather(rows, None, Gather(rows, Some(sticky), [], maxN), maxN), RowLess())
  }

  lemma {:induction false} FullGathersNothing<C>(rows: seq<Row<C>>, only: Option<set<string>>, taken: seq<Row<C>>, n: nat)
    requires |taken| >= n
    ensures Gather(rows, only, taken, n) == taken
  {
    if rows != [] {
      FullGathersNothing(rows[..|rows| - 1], only, taken, n);
    }
  }

  method SelectTopNByEdge<C>(rows: seq<Row<C>>, sticky: set<string>, maxN: int) returns (out: seq<Row<C>>)
    ensures out == SelectTop(rows, sticky, maxN)
  {
    if maxN <= 0 || |rows| <= maxN {
      return rows;
    }
    out := GatherRows(rows, Some(sticky), [], maxN);
    if |out| >= maxN {
      FullGathersNothing(rows, None, out, maxN);
      return StableSort(out, RowLess());
    }
    out := GatherRows(rows, None, out, maxN);
    out := StableSort(out, RowLess());
  }

  /** One pass: it stops as soon as the board is full. */
  method GatherRows<C>(rows: seq<Row<C>>, only: Option<set<string>>, taken: seq<Row<C>>, n: nat)
    returns (out: seq<Row<C>>)
    requires |taken| < n
    ensures out == Gather(rows, only, taken, n)
  {
    out := taken;
    var seen := set i | 0 <= i < |taken| :: taken[i].id;
    for i := 0 to |rows|
      invariant out == Gather(rows[..i], only, taken, n) && |out| < n
      invariant forall id :: id in seen <==> Seen(out, id)
    {
      assert rows[..i + 1][..i] == rows[..i];
      var id := rows[i].id;
      if (only.Some? && id !in only.value) || id in seen {
        continue;
      }
      SeenAfter(out, rows[i]);
      out := out + [rows[i]];
      seen := seen + {id};
      if |out| >= n {
        GatherStops(rows, only, taken, n, i + 1);
        return;
      }
    }
    assert rows[..|rows|] == rows;
  }

  lemma SeenAfter<C>(rows: seq<Row<C>>, r: Row<C>)
    ensures forall id :: Seen(rows + [r], id) <==> Seen(rows, id) || id == r.id
  {
    assert (rows + [r])[|rows|] == r;
    forall id | Seen(rows, id) ensures Seen(rows + [r], id) {
      var i :| 0 <= i < |rows| && rows[i].id == id;
      assert (rows + [r])[i] == rows[i];
    }
  }

  lemma {:induction false} GatherStops<C>(rows: seq<Row<C>>, only: Option<set<string>>, taken: seq<Row<C>>, n: nat, k: nat)
    requires k <= |rows| && |Gather(rows[..k], only, taken, n)| >= n
    ensures Gather(rows, only, taken, n) == Gather(rows[..k], only, taken, n)
  {
    if k == |rows| {
      assert rows[..k] == rows;
    } else {
      var front := rows[..|rows| - 1];
      assert front[..k] == rows[..k];
      GatherStops(front, only, taken, n, k);
    }
  }

  // ---------------------------------------------------------------- what the cut promises

  /** How many of the rows are sticky. */
  ghost function StickyCount<C>(rows: seq<Row<C>>, sticky: set<string>): nat {
    if rows == [] then 0
    else StickyCount(rows[..|rows| - 1], sticky) + (if rows[|rows| - 1].id in sticky then 1 else 0)
  }

  /** First pass on distinct rows: only sticky rows, as many as there are or as fit. */
  lemma {:induction false} FirstPassTakes<C(!new)>(rows: seq<Row<C>>, sticky: set<string>, n: nat)
    requires DistinctRows(rows)
    ensures |Gather(rows, Some(sticky), [], n)| == if StickyCount(rows, sticky) < n then StickyCount(rows, sticky) else n
    ensures forall r :: r in Gather(rows, Some(sticky), [], n) ==> r in rows && r.id in sticky
    ensures DistinctRows(Gather(rows, Some(sticky), [], n))
  {
    if rows != [] {
      var front, r := rows[..|rows| - 1], rows[|rows| - 1];
      FirstPassTakes(front, sticky, n);
      assert rows == front + [r];
      NotSeenYet(front, Gather(front, Some(sticky), [], n), r);
    }
  }

  /** It takes all sticky rows if they fit, and never a later one instead of an earlier one. */
  lemma {:induction false} FirstPassInOrder<C(!new)>(rows: seq<Row<C>>, sticky: set<string>, n: nat)
    requires DistinctRows(rows)
    ensures StickyCount(rows, sticky) <= n ==>
      forall i :: 0 <= i < |rows| && rows[i].id in sticky ==> rows[i] in Gather(rows, Some(sticky), [], n)
    ensures forall i, j :: 0 <= i < j < |rows| && rows[i].id in sticky && rows[j] in Gather(rows, Some(sticky), [], n) ==>
      rows[i] in Gather(rows, Some(sticky), [], n)
  {
    if rows != [] {
      var k := |rows| - 1;
      var front, r := rows[..k], rows[k];
      FirstPassInOrder(front, sticky, n);
      FirstPassTakes(front, sticky, n);
      var before, got := Gather(front, Some(sticky), [], n), Gather(rows, Some(sticky), [], n);
      NotSeenYet(front, before, r);
      assert got == before || got == before + [r];
      forall i, j | 0 <= i < j < |rows| && rows[i].id in sticky && rows[j] in got ensures rows[i] in got {
        if j < k {
          assert front[i] == rows[i] && front[j] == rows[j];
        } else {
          assert front[i] == rows[i];
          NotTaken(before, r);
        }
      }
    }
  }

  lemma NotTaken<C(!new)>(taken: seq<Row<C>>, r: Row<C>)
    requires !Seen(taken, r.id)
    ensures r !in taken
  {
  }

  /** A row whose id differs from all rows so far has not been taken. */
  lemma NotSeenYet<C(!new)>(rows: seq<Row<C>>, taken: seq<Row<C>>, r: Row<C>)
    requires forall x :: x in taken ==> x in rows
    requires forall i :: 0 <= i < |rows| ==> rows[i].id != r.id
    ensures !Seen(taken, r.id)
  {
    forall i | 0 <= i < |taken| ensures taken[i].id != r.id {
      assert taken[i] in rows;
    }
  }

  /** Second pass: what was taken stays, everything fits until the board is full, and among the rows
      not taken before, an earlier one is never skipped for a later one. */
  lemma {:induction false} SecondPass<C(!new)>(rows: seq<Row<C>>, taken: seq<Row<C>>, n: nat)
    requires DistinctRows(rows) && DistinctRows(taken) && |taken| <= n
    requires forall x, r :: x in taken && r in rows && x.id == r.id ==> x == r
    ensures var got := Gather(rows, None, taken, n);
      && DistinctRows(got) && |got| <= n && taken <= got
      && (forall r :: r in got ==> r in taken || r in rows)
      && (|got| < n ==> forall r :: r in rows ==> r in got)
      && (forall i, j :: 0 <= i < j < |rows| && rows[i] !in taken && rows[j] !in taken && rows[j] in got ==> rows[i] in got)
  {
    if rows != [] {
      var k := |rows| - 1;
      var front, r := rows[..k], rows[k];
      assert rows == front + [r];
      SecondPass(front, taken, n);
      var before := Gather(front, None, taken, n);
      if r !in taken {
        assert forall j :: 0 <= j < |front| ==> front[j] != r;
        forall i | 0 <= i < |before| ensures before[i].id != r.id {
          assert before[i] in taken || before[i] in front;
        }
        assert !Seen(before, r.id);
      } else {
        assert r in before;
        var i :| 0 <= i < |before| && before[i] == r;
        assert Seen(before, r.id);
      }
    }
  }

  lemma {:induction false} Inclusion<C(!new)>(a: seq<Row<C>>, b: seq<Row<C>>)
    requires DistinctRows(a) && forall r :: r in a ==> r in b
    ensures |a| <= |b|
  {
    if a != [] {
      assert a[0] in b;
      var k :| 0 <= k < |b| && b[k] == a[0];
      var rest := b[..k] + b[k + 1..];
      forall r | r in a[1..] ensures r in rest {
        assert r in a;
        var i :| 0 <= i < |b| && b[i] == r;
        assert r != a[0];
        assert if i < k then b[..k][i] == r else b[k + 1..][i - k - 1] == r;
      }
      Inclusion(a[1..], rest);
    }
  }

  /** Before the final ordering: the board is full, keeps the sticky rows (or the best of them when
      there are too many), and never prefers a lower-ranked non-sticky row to a higher-ranked one. */
  ghost predicate KeepsBest<C(!new)>(rows: seq<Row<C>>, sticky: set<string>, n: nat, board: seq<Row<C>>) {
    && |board| == n && DistinctRows(board)
    && (forall r :: r in board ==> r in rows)
    && (StickyCount(rows, sticky) <= n ==> forall r :: r in rows && r.id in sticky ==> r in board)
    && (StickyCount(rows, sticky) >= n ==> forall r :: r in board ==> r.id in sticky)
    && (forall i, j :: 0 <= i < j < |rows| && (rows[i].id in sticky <==> rows[j].id in sticky) && rows[j] in board ==>
         rows[i] in board)
  }

  lemma GatheredKeepsBest<C(!new)>(rows: seq<Row<C>>, sticky: set<string>, n: nat)
    requires DistinctRows(rows) && 0 < n < |rows|
    ensures KeepsBest(rows, sticky, n, Gather(rows, None, Gather(rows, Some(sticky), [], n), n))
  {
    var first := Gather(rows, Some(sticky), [], n);
    var got := Gather(rows, None, first, n);
    FirstPassTakes(rows, sticky, n);
    FirstPassInOrder(rows, sticky, n);
    forall x, r | x in first && r in rows && x.id == r.id ensures x == r {
      var i :| 0 <= i < |rows| && rows[i] == x;
      var j :| 0 <= j < |rows| && rows[j] == r;
    }
    SecondPass(rows, first, n);
    if |got| < n {
      Inclusion(rows, got);
    }
    if |first| == n {
      FullGathersNothing(rows, None, first, n);
    }
    forall i, j | 0 <= i < j < |rows| && (rows[i].id in sticky <==> rows[j].id in sticky) && rows[j] in got
      ensures rows[i] in got
    {
      if rows[i].id in sticky {
        assert rows[j] in first ==> rows[i] in first;
        assert rows[i] in first ==> rows[i] in got;
      }
    }
  }

  lemma KeepsBestPermutes<C(!new)>(rows: seq<Row<C>>, sticky: set<string>, n: nat, a: seq<Row<C>>, b: seq<Row<C>>)
    requires multiset(a) == multiset(b) && |a| == |b| && KeepsBest(rows, sticky, n, a)
    ensures KeepsBest(rows, sticky, n, b)
  {
    SameElements(a, b);
    DistinctPermutes(a, b);
  }

  /** The sticky cut of a ranked board: same size, all sticky survivors or the best of them, every
      kept non-sticky row ahead of every dropped one, and the result in rank order. */
  lemma StickyCutKeepsBest<C(!new)>(rows: seq<Row<C>>, sticky: set<string>, maxN: int)
    requires DistinctRows(rows) && Sorted(rows, RowLess()) && 0 < maxN < |rows|
    ensures KeepsBest(rows, sticky, maxN, SelectTop(rows, sticky, maxN))
    ensures Sorted(SelectTop(rows, sticky, maxN), RowLess())
  {
    var got := Gather(rows, None, Gather(rows, Some(sticky), [], maxN), maxN);
    GatheredKeepsBest(rows, sticky, maxN);
    RowOrder<C>();
    StableSortSorted(got, RowLess());
    KeepsBestPermutes(rows, sticky, maxN, got, SelectTop(rows, sticky, maxN));
  }

  /** Without sticky ids the cut is the plain cut exactly when the rows it would keep have distinct ids. */
  lemma PlainCutExactly<C(!new)>(rows: seq<Row<C>>, maxN: int)
    requires Sorted(rows, RowLess()) && 0 < maxN < |rows|
    ensures SelectTop(rows, {}, maxN) == rows[..maxN] <==> DistinctRows(rows[..maxN])
  {
    NothingSticky(rows, maxN);
    var got := Gather(rows, None, [], maxN);
    var board := SelectTop(rows, {}, maxN);
    GatheredDistinct(rows, [], maxN);
    DistinctPermutes(got, board);
    if DistinctRows(rows[..maxN]) {
      GathersDistinct(rows[..maxN], maxN);
      GatherStops(rows, None, [], maxN, maxN);
      StableSortFixed(rows[..maxN], RowLess());
    }
  }

  lemma {:induction false} NothingSticky<C>(rows: seq<Row<C>>, n: nat)
    ensures Gather(rows, Some({}), [], n) == []
  {
    if rows != [] {
      NothingSticky(rows[..|rows| - 1], n);
    }
  }

  lemma {:induction false} GatheredDistinct<C>(rows: seq<Row<C>>, taken: seq<Row<C>>, n: nat)
    requires DistinctRows(taken)
    ensures DistinctRows(Gather(rows, None, taken, n))
  {
    if rows != [] {
      GatheredDistinct(rows[..|rows| - 1], taken, n);
    }
  }

  lemma {:induction false} GathersDistinct<C>(rows: seq<Row<C>>, n: nat)
    requires DistinctRows(rows) && |rows| <= n
    ensures Gather(rows, None, [], n) == rows
  {
    if rows != [] {
      var front := rows[..|rows| - 1];
      GathersDistinct(front, n);
      assert rows == front + [rows[|rows| - 1]];
    }
  }

  // ---------------------------------------------------------------- the live board

  /** Candidates by id; of several with one id the last remains. */
  function ById<C>(p: Policy<C>, cands: seq<C>): map<string, C> {
    if cands == [] then map[]
    else ById(p, cands[..|cands| - 1])[p.id(cands[|cands| - 1]) := cands[|cands| - 1]]
  }

  /** Each ranked row with its candidate looked up by id. */
  function LookUp<C>(byId: map<string, C>, rows: seq<Row<C>>): seq<Row<C>> {
    if rows == [] then [] else
    var front, r := LookUp(byId, rows[..|rows| - 1]), rows[|rows| - 1];
    if r.id in byId then front + [r.(cand := byId[r.id])] else front
  }

  function LiveCap(maxN: int): int {
    if maxN <= 0 then 50 else maxN
  }

  /** What the live scan publishes. */
  function Published<C>(p: Policy<C>, cands: seq<C>, sticky: set<string>, maxN: int, blocked: bool): seq<Row<C>> {
    if blocked then [] else SelectTop(LookUp(ById(p, cands), Ranked(p, cands)), sticky, LiveCap(maxN))
  }

  predicate AnyBook<C>(hasBook: C -> bool, cands: seq<C>) {
    exists i :: 0 <= i < |cands| && hasBook(cands[i])
  }

  method BuildEdgeBoard<C>(p: Policy<C>, hasBook: C -> bool, cands: seq<C>, sticky: set<string>, maxN: int,
                           requireBooks: bool) returns (board: seq<Row<C>>)
    ensures board == Published(p, cands, sticky, maxN, requireBooks && !AnyBook(hasBook, cands))
  {
    var byId: map<string, C> := map[];
    var booksHit := 0;
    for i := 0 to |cands|
      invariant byId == ById(p, cands[..i])
      invariant booksHit >= 0 && (booksHit > 0 <==> AnyBook(hasBook, cands[..i]))
    {
      assert cands[..i + 1][..i] == cands[..i];
      assert forall j :: 0 <= j < i ==> cands[..i][j] == cands[..i + 1][j];
      if hasBook(cands[i]) {
        assert hasBook(cands[..i + 1][i]);
        booksHit := booksHit + 1;
      }
      byId := byId[p.id(cands[i]) := cands[i]];
    }
    assert cands[..|cands|] == cands;
    if booksHit == 0 && requireBooks {
      return [];
    }
    var ranked := SelectBoard(p, cands, |cands|);
    SurvivorsFew(p, cands);
    var scored := FindCandidates(byId, ranked);
    board := SelectTopNByEdge(scored, sticky, LiveCap(maxN));
  }

  method FindCandidates<C>(byId: map<string, C>, ranked: seq<Row<C>>) returns (scored: seq<Row<C>>)
    ensures scored == LookUp(byId, ranked)
  {
    scored := [];
    for i := 0 to |ranked|
      invariant scored == LookUp(byId, ranked[..i])
    {
      assert ranked[..i + 1][..i] == ranked[..i];
      var id := ranked[i].id;
      if id !in byId {
        continue;
      }
      scored := scored + [ranked[i].(cand := byId[id])];
    }
    assert ranked[..|ranked|] == ranked;
  }

  lemma {:induction false} SurvivorsFew<C>(p: Policy<C>, cands: seq<C>)
    ensures |Survivors(p, cands)| <= |cands|
    ensures Cut(Ranked(p, cands), |cands|) == Ranked(p, cands)
  {
    if cands != [] {
      SurvivorsFew(p, cands[..|cands| - 1]);
    }
  }

  lemma {:induction false} LookUpIsIdentity<C(!new)>(byId: map<string, C>, rows: seq<Row<C>>)
    requires forall i :: 0 <= i < |rows| ==> rows[i].id in byId && byId[rows[i].id] == rows[i].cand
    ensures LookUp(byId, rows) == rows
  {
    if rows != [] {
      var front := rows[..|rows| - 1];
      LookUpIsIdentity(byId, front);
      assert rows == front + [rows[|rows| - 1]];
    }
  }

  lemma {:induction false} ByIdFinds<C(!new)>(p: Policy<C>, cands: seq<C>, c: C)
    requires DistinctCandidates(p, cands) && c in cands
    ensures p.id(c) in ById(p, cands) && ById(p, cands)[p.id(c)] == c
  {
    var k := |cands| - 1;
    if c != cands[k] {
      assert c in cands[..k];
      ByIdFinds(p, cands[..k], c);
    }
  }

  lemma RankedFindsItself<C(!new)>(p: Policy<C>, cands: seq<C>)
    requires DistinctCandidates(p, cands)
    ensures LookUp(ById(p, cands), Ranked(p, cands)) == Ranked(p, cands)
  {
    var rows := Ranked(p, cands);
    RankedIsRanking(p, cands);
    SameElements(rows, Survivors(p, cands));
    forall i | 0 <= i < |rows| ensures rows[i].id in ById(p, cands) && ById(p, cands)[rows[i].id] == rows[i].cand {
      var r := rows[i];
      assert r in multiset(rows);
      assert r in multiset(Survivors(p, cands));
      SurvivorsAre(p, cands, r);
      ByIdFinds(p, cands, rows[i].cand);
    }
    LookUpIsIdentity(ById(p, cands), rows);
  }

  /** Parity: with distinct ids, no sticky ids and publication not blocked, the live board is the
      offline board at the same size, row for row. */
  lemma LiveEqualsOffline<C(!new)>(p: Policy<C>, cands: seq<C>, maxN: int)
    requires DistinctCandidates(p, cands)
    ensures Published(p, cands, {}, maxN, false) == Cut(Ranked(p, cands), maxN)
  {
    var rows := Ranked(p, cands);
    RankedIsRanking(p, cands);
    RankedFindsItself(p, cands);
    if |rows| > LiveCap(maxN) {
      PlainCutExactly(rows, LiveCap(maxN));
    }
  }

  lemma {:induction false} LookUpEach<C(!new)>(byId: map<string, C>, rows: seq<Row<C>>)
    requires forall i :: 0 <= i < |rows| ==> rows[i].id in byId
    ensures |LookUp(byId, rows)| == |rows|
    ensures forall i :: 0 <= i < |rows| ==> LookUp(byId, rows)[i] == rows[i].(cand := byId[rows[i].id])
  {
    if rows != [] {
      LookUpEach(byId, rows[..|rows| - 1]);
    }
  }

  lemma {:induction false} ByIdHas<C(!new)>(p: Policy<C>, cands: seq<C>, c: C)
    requires c in cands
    ensures p.id(c) in ById(p, cands)
  {
    var k := |cands| - 1;
    if c != cands[k] {
      assert c in cands[..k];
      ByIdHas(p, cands[..k], c);
    }
  }

  lemma RankedIdsKnown<C(!new)>(p: Policy<C>, cands: seq<C>)
    ensures forall i :: 0 <= i < |Ranked(p, cands)| ==> Ranked(p, cands)[i].id in ById(p, cands)
  {
    var rows := Ranked(p, cands);
    RankedIsRanking(p, cands);
    forall i | 0 <= i < |rows| ensures rows[i].id in ById(p, cands) {
      assert rows[i] in multiset(rows);
      assert rows[i] in multiset(Survivors(p, cands));
      SurvivorsAre(p, cands, rows[i]);
      ByIdHas(p, cands, rows[i].cand);
    }
  }

  /** The row's candidate is the last of its id, the one the lookup finds. */
  predicate FindsItself<C(==)>(byId: map<string, C>, r: Row<C>) {
    r.id in byId && byId[r.id] == r.cand
  }

  lemma SameShape<C(!new)>(a: seq<Row<C>>, b: seq<Row<C>>)
    requires |a| == |b|
    requires forall i :: 0 <= i < |a| ==> b[i].id == a[i].id && b[i].edge == a[i].edge && b[i].act == a[i].act
    ensures Sorted(a, RowLess()) ==> Sorted(b, RowLess())
    ensures DistinctRows(a) <==> DistinctRows(b)
  {
    if Sorted(a, RowLess()) {
      forall i, j | 0 <= i < j < |b| ensures !RowLess<C>()(b[j], b[i]) {
        assert !RowLess<C>()(a[j], a[i]);
      }
    }
  }

  /** The cut of looked-up rows is the cut of the rows exactly when the rows within the cut find
      themselves and, if anything is cut off, have distinct ids. */
  lemma LookedUpCutExactly<C(!new)>(byId: map<string, C>, rows: seq<Row<C>>, n: nat)
    requires n > 0 && Sorted(rows, RowLess()) && forall i :: 0 <= i < |rows| ==> rows[i].id in byId
    ensures SelectTop(LookUp(byId, rows), {}, n) == Cut(rows, n) <==>
      && (forall i :: 0 <= i < |Cut(rows, n)| ==> FindsItself(byId, rows[i]))
      && (|rows| > n ==> DistinctRows(rows[..n]))
  {
    var found := LookUp(byId, rows);
    LookUpEach(byId, rows);
    SameCandidates(byId, rows, |Cut(rows, n)|);
    if |rows| > n {
      SameShape(rows, found);
      SameShape(rows[..n], found[..n]);
      PlainCutExactly(found, n);
      CutIsDistinct(found, n);
    } else {
      assert found[..|rows|] == found && rows[..|rows|] == rows;
    }
  }

  lemma CutIsDistinct<C(!new)>(rows: seq<Row<C>>, n: nat)
    requires 0 < n < |rows|
    ensures DistinctRows(SelectTop(rows, {}, n))
  {
    NothingSticky(rows, n);
    GatheredDistinct(rows, [], n);
    DistinctPermutes(Gather(rows, None, [], n), SelectTop(rows, {}, n));
  }

  lemma SameCandidates<C(!new)>(byId: map<string, C>, rows: seq<Row<C>>, n: nat)
    requires n <= |rows| && forall i :: 0 <= i < |rows| ==> rows[i].id in byId
    ensures |LookUp(byId, rows)| == |rows|
    ensures LookUp(byId, rows)[..n] == rows[..n] <==> forall i :: 0 <= i < n ==> FindsItself(byId, rows[i])
  {
    var found := LookUp(byId, rows);
    LookUpEach(byId, rows);
    if found[..n] == rows[..n] {
      forall i | 0 <= i < n ensures FindsItself(byId, rows[i]) {
        assert found[..n][i] == rows[..n][i];
      }
    }
  }

  /** Parity exactly: for all candidates, repeated ids included. */
  lemma LiveEqualsOfflineExactly<C(!new)>(p: Policy<C>, cands: seq<C>, maxN: int)
    ensures Published(p, cands, {}, maxN, false) == Cut(Ranked(p, cands), maxN) <==>
      && (forall i :: 0 <= i < |Cut(Ranked(p, cands), maxN)| ==> FindsItself(ById(p, cands), Ranked(p, cands)[i]))
      && (|Ranked(p, cands)| > LiveCap(maxN) ==> DistinctRows(Ranked(p, cands)[..LiveCap(maxN)]))
  {
    RankedIsRanking(p, cands);
    RankedIdsKnown(p, cands);
    LookedUpCutExactly(ById(p, cands), Ranked(p, cands), LiveCap(maxN));
    assert Cut(Ranked(p, cands), LiveCap(maxN)) == Cut(Ranked(p, cands), maxN);
  }

  /** Candidates are numbers, judged by themselves, all with one id. */
  function OneIdPolicy(): Policy<int> {
    Policy((c: int) => "a", (c: int) => 0.0, (c: int) => Some(c as real))
  }

  lemma OneIdSurvivors()
    ensures Survivors(OneIdPolicy(), [2, 1]) == [Row(2, "a", 2.0, 0.0), Row(1, "a", 1.0, 0.0)]
    ensures "a" in ById(OneIdPolicy(), [2, 1]) && ById(OneIdPolicy(), [2, 1])["a"] == 1
  {
    assert [2, 1][..1] == [2] && [2][..0] == [];
  }

  lemma PairInOrder<C(!new)>(rows: seq<Row<C>>)
    requires |rows| == 2 && !RowLess()(rows[1], rows[0])
    ensures StableSort(rows, RowLess()) == rows
  {
    StableSortFixed(rows, RowLess());
  }

  lemma OneIdRanking()
    ensures Ranked(OneIdPolicy(), [2, 1]) == Survivors(OneIdPolicy(), [2, 1])
  {
    OneIdSurvivors();
    PairInOrder(Survivors(OneIdPolicy(), [2, 1]));
  }

  /** It can fail: of two candidates with one id the live board publishes the later one under the
      edge of the better one, while the offline board selects the better one. */
  lemma RepeatedIdBreaksParity()
    ensures Published(OneIdPolicy(), [2, 1], {}, 1, false) != Cut(Ranked(OneIdPolicy(), [2, 1]), 1)
  {
    OneIdSurvivors();
    OneIdRanking();
    LiveEqualsOfflineExactly(OneIdPolicy(), [2, 1], 1);
    assert !FindsItself(ById(OneIdPolicy(), [2, 1]), Ranked(OneIdPolicy(), [2, 1])[0]);
  }

  /** With sticky ids: the live board has the offline board's size and keeps what the sticky cut keeps. */
  lemma LiveWithSticky<C(!new)>(p: Policy<C>, cands: seq<C>, sticky: set<string>, maxN: int)
    requires DistinctCandidates(p, cands)
    ensures |Published(p, cands, sticky, maxN, false)| == |Cut(Ranked(p, cands), maxN)|
    ensures Sorted(Published(p, cands, sticky, maxN, false), RowLess())
    ensures |Ranked(p, cands)| > LiveCap(maxN) ==>
      KeepsBest(Ranked(p, cands), sticky, LiveCap(maxN), Published(p, cands, sticky, maxN, false))
    ensures |Ranked(p, cands)| <= LiveCap(maxN) ==> Published(p, cands, sticky, maxN, false) == Ranked(p, cands)
  {
    var rows := Ranked(p, cands);
    RankedIsRanking(p, cands);
    RankedFindsItself(p, cands);
    if |rows| > LiveCap(maxN) {
      StickyCutKeepsBest(rows, sticky, LiveCap(maxN));
    }
  }
}
