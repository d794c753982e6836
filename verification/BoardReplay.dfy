/** Board replay (`internal/signaleval/board_source.go`): run the allocator on each published board.
    Every name gets the same size here, which is what makes the greedy fill optimal. */
module BoardReplay {
  import opened Basics
  import opened RiskConfig
  import opened Greedy
  import opened Alloc

  /** One published board row; `stamp` is the text of the instant the board was selected at. */
  datatype Row = Row(condition: string, token: string, edgeBps: Option<real>, stamp: string)

  datatype Meta = Meta(snapshotTimes: nat, namesSeen: nat, taken: nat, rejected: nat)

  const CONVICTION_SCALE := 200.0

  function ToName(r: Row, sizeUSD: real): Name {
    var edge := if r.edgeBps.Some? then r.edgeBps.value else 0.0;
    var conviction := Abs(edge) / CONVICTION_SCALE;
    Name(r.condition, r.token, r.stamp, edge, if conviction > 1.0 then 1.0 else conviction,
         0.0, 0.0, sizeUSD, "", "board_snapshot")
  }

  function ToNames(g: seq<Row>, sizeUSD: real): (names: seq<Name>)
    ensures |names| == |g|
  {
    seq(|g|, i requires 0 <= i < |g| => ToName(g[i], sizeUSD))
  }

  function ReplaySize(c: Config): (size: real)
    ensures size > 0.0
  {
    if c.maxPositionUSD <= 0.0 then 25.0 else c.maxPositionUSD
  }

  function InputFor(g: seq<Row>, c: Config, w: Worthiness): Input {
    Input(ToNames(g, ReplaySize(c)), c, w, [])
  }

  /** For every published board, replay takes a selection of maximum total opportunity score among
      all admissible selections within the caps. */
  lemma ReplayIsOptimal(g: seq<Row>, c: Config, w: Worthiness, pick: seq<Name>)
    requires Admissible(InputFor(g, c, w), pick)
    requires FitsCaps(LimitsOf(Normalized(c)), SizeBy(Normalized(c)), pick)
    ensures Sum(ScoreBy(Normalized(c)), pick) <= Sum(ScoreBy(Normalized(c)), Allocation(InputFor(g, c, w)).taken)
    ensures Admissible(InputFor(g, c, w), Allocation(InputFor(g, c, w)).taken)
    ensures FitsCaps(LimitsOf(Normalized(c)), SizeBy(Normalized(c)), Allocation(InputFor(g, c, w)).taken)
  {
    EqualSizesAreOptimal(InputFor(g, c, w), ReplaySize(c), pick);
    AllocationIsSound(InputFor(g, c, w));
  }

  /** A replayed name states no fair-value source, so a bar that requires one takes nothing at all. */
  lemma RequireFVTakesNothing(g: seq<Row>, c: Config, w: Worthiness)
    requires w.requireFV
    ensures forall n :: n !in Allocation(InputFor(g, c, w)).taken
  {
    AllocationIsSound(InputFor(g, c, w));
  }

  /** What a row enters the allocation with: its own market and edge, a conviction of one at 200 bps of edge
      either way and in proportion below, and the common size, 25 dollars unless configured. */
  lemma NamesAreRows(g: seq<Row>, c: Config, w: Worthiness, i: nat)
    requires i < |g|
    ensures var n := InputFor(g, c, w).names[i];
      && |InputFor(g, c, w).names| == |g|
      && n.condition == g[i].condition && n.token == g[i].token && n.stamp == g[i].stamp
      && n.edgeBps == (if g[i].edgeBps.Some? then g[i].edgeBps.value else 0.0)
      && (-200.0 <= n.edgeBps <= 200.0 ==> 200.0 * n.conviction == n.edgeBps || 200.0 * n.conviction == -n.edgeBps)
      && 0.0 <= n.conviction <= 1.0 && (n.conviction < 1.0 ==> -200.0 < n.edgeBps < 200.0)
      && n.sizeUSD == (if c.maxPositionUSD > 0.0 then c.maxPositionUSD else 25.0)
  {
  }

  // ---------------------------------------------------------------- one board per publication

  function Flatten<T>(parts: seq<seq<T>>): seq<T> {
    if parts == [] then [] else Flatten(parts[..|parts| - 1]) + parts[|parts| - 1]
  }

  /** Consecutive rows of one publication instant form a board. */
  function Boards(rows: seq<Row>): (boards: seq<seq<Row>>)
    ensures rows == [] <==> boards == []
    ensures forall k :: 0 <= k < |boards| ==> boards[k] != []
    ensures rows != [] ==> boards[|boards| - 1][|boards[|boards| - 1]| - 1] == rows[|rows| - 1]
  {
    if rows == [] then [] else
    var front, r := Boards(rows[..|rows| - 1]), rows[|rows| - 1];
    if front != [] && rows[|rows| - 2].stamp == r.stamp
    then front[|front| - 1 := front[|front| - 1] + [r]]
    else front + [[r]]
  }

  /** A board of one instant. */
  predicate OneInstant(board: seq<Row>) {
    forall i :: 0 <= i < |board| ==> board[i].stamp == board[|board| - 1].stamp
  }

  lemma FlattenNext<T>(parts: seq<seq<T>>, part: seq<T>)
    ensures Flatten(parts + [part]) == Flatten(parts) + part
  {
    assert (parts + [part])[..|parts|] == parts;
  }

  lemma FlattenLast<T>(parts: seq<seq<T>>, x: T)
    requires parts != []
    ensures Flatten(parts[|parts| - 1 := parts[|parts| - 1] + [x]]) == Flatten(parts) + [x]
  {
    var m := |parts| - 1;
    assert parts[m := parts[m] + [x]][..m] == parts[..m];
  }

  /** The boards hold the rows, in order. */
  lemma {:induction false} BoardsKeepRows(rows: seq<Row>)
    ensures Flatten(Boards(rows)) == rows
  {
    if rows != [] {
      var n := |rows| - 1;
      BoardsKeepRows(rows[..n]);
      FlattenNext(Boards(rows[..n]), [rows[n]]);
      if n > 0 {
        FlattenLast(Boards(rows[..n]), rows[n]);
      }
      assert rows == rows[..n] + [rows[n]];
    }
  }

  /** Each board is of one instant, and neighbouring boards are of different ones. */
  ghost predicate SplitByInstant(boards: seq<seq<Row>>) {
    && (forall k :: 0 <= k < |boards| ==> boards[k] != [] && OneInstant(boards[k]))
    && (forall k :: 0 < k < |boards| ==> boards[k - 1][|boards[k - 1]| - 1].stamp != boards[k][0].stamp)
  }

  lemma LongerBoard(boards: seq<seq<Row>>, r: Row)
    requires boards != [] && SplitByInstant(boards)
    requires var last := boards[|boards| - 1]; last[|last| - 1].stamp == r.stamp
    ensures SplitByInstant(boards[|boards| - 1 := boards[|boards| - 1] + [r]])
  {
    assert OneInstant(boards[|boards| - 1]);
  }

  lemma {:induction false} BoardsSplitByInstant(rows: seq<Row>)
    ensures SplitByInstant(Boards(rows))
  {
    if rows != [] {
      var front := Boards(rows[..|rows| - 1]);
      BoardsSplitByInstant(rows[..|rows| - 1]);
      if front != [] && rows[|rows| - 2].stamp == rows[|rows| - 1].stamp {
        LongerBoard(front, rows[|rows| - 1]);
      }
    }
  }

  method GroupSnapshotsBySelectedAt(rows: seq<Row>) returns (out: seq<seq<Row>>)
    ensures out == Boards(rows)
  {
    out := [];
    if |rows| == 0 {
      return;
    }
    var cur: seq<Row> := [];
    for i := 0 to |rows|
      invariant Boards(rows[..i]) == if i == 0 then [] else out + [cur]
      invariant i == 0 ==> out == [] && cur == []
      invariant i > 0 ==> cur != [] && cur[|cur| - 1] == rows[i - 1]
    {
      var r := rows[i];
      assert rows[..i + 1][..i] == rows[..i];
      if i == 0 || r.stamp != rows[i - 1].stamp {
        if |cur| > 0 {
          out := out + [cur];
        }
        cur := [r];
        continue;
      }
      cur := cur + [r];
    }
    out := out + [cur];
    assert rows[..|rows|] == rows;
  }

  // ---------------------------------------------------------------- the whole replay

  ghost function Replayed(boards: seq<seq<Row>>, c: Config, w: Worthiness): seq<Name> {
    if boards == [] then [] else
    Replayed(boards[..|boards| - 1], c, w) + Allocation(InputFor(boards[|boards| - 1], c, w)).taken
  }

  /** Names turned away with a reason. */
  ghost function TurnedAway(boards: seq<seq<Row>>, c: Config, w: Worthiness): nat {
    if boards == [] then 0 else
    TurnedAway(boards[..|boards| - 1], c, w) + |Allocation(InputFor(boards[|boards| - 1], c, w)).rejected|
  }

  /** Names dropped because their market has a better one on the same board. */
  ghost function Outdone(boards: seq<seq<Row>>, c: Config, w: Worthiness): nat {
    if boards == [] then 0 else
    Outdone(boards[..|boards| - 1], c, w) + |DedupeLosers(InputFor(boards[|boards| - 1], c, w))|
  }

  lemma BoardBalances(board: seq<Row>, c: Config, w: Worthiness)
    ensures var input := InputFor(board, c, w);
      |Allocation(input).taken| + |Allocation(input).rejected| + |DedupeLosers(input)| == |board|
  {
    var input := InputFor(board, c, w);
    var taken, names := Allocation(input).taken, NamesOf(Allocation(input).rejected);
    EveryNameAccountedFor(input);
    assert |multiset(taken) + multiset(names) + multiset(DedupeLosers(input))| == |multiset(input.names)|;
  }

  lemma {:induction false} ReplayBalances(boards: seq<seq<Row>>, c: Config, w: Worthiness)
    ensures |Replayed(boards, c, w)| + TurnedAway(boards, c, w) + Outdone(boards, c, w) == |Flatten(boards)|
  {
    if boards != [] {
      ReplayBalances(boards[..|boards| - 1], c, w);
      BoardBalances(boards[|boards| - 1], c, w);
    }
  }

  /** The whole replay: one board per publication, allocated in order; every row is taken, turned away
      or outdone in its market, and the counters say how many. */
  method AllocateFromBoardSnapshots(rows: seq<Row>, c: Config, w: Worthiness) returns (out: seq<Name>, meta: Meta)
    ensures out == Replayed(Boards(rows), c, w)
    ensures meta == Meta(|Boards(rows)|, |rows|, |out|, TurnedAway(Boards(rows), c, w))
    ensures meta.taken + meta.rejected + Outdone(Boards(rows), c, w) == meta.namesSeen
  {
    var boards := GroupSnapshotsBySelectedAt(rows);
    out, meta := ReplayBoards(boards, c, w);
    BoardsKeepRows(rows);
    ReplayBalances(boards, c, w);
  }

  method ReplayBoards(boards: seq<seq<Row>>, c: Config, w: Worthiness) returns (out: seq<Name>, meta: Meta)
    ensures out == Replayed(boards, c, w)
    ensures meta == Meta(|boards|, |Flatten(boards)|, |out|, TurnedAway(boards, c, w))
  {
    out, meta := [], Meta(|boards|, 0, 0, 0);
    for k := 0 to |boards|
      invariant out == Replayed(boards[..k], c, w)
      invariant meta == Meta(|boards|, |Flatten(boards[..k])|, |out|, TurnedAway(boards[..k], c, w))
    {
      var res := Run(InputFor(boards[k], c, w));
      NextBoard(boards, c, w, k);
      out := out + res.taken;
      meta := Meta(meta.snapshotTimes, meta.namesSeen + |boards[k]|, meta.taken + |res.taken|,
                   meta.rejected + |res.rejected|);
    }
    assert boards[..|boards|] == boards;
  }

  lemma NextBoard(boards: seq<seq<Row>>, c: Config, w: Worthiness, k: nat)
    requires k < |boards|
    ensures var next := boards[..k + 1];
      && Replayed(next, c, w) == Replayed(boards[..k], c, w) + Allocation(InputFor(boards[k], c, w)).taken
      && TurnedAway(next, c, w) == TurnedAway(boards[..k], c, w) + |Allocation(InputFor(boards[k], c, w)).rejected|
      && Flatten(next) == Flatten(boards[..k]) + boards[k]
  {
    assert boards[..k + 1][..k] == boards[..k];
  }
}
