/** When book filling adds only the books it needs (`internal/datagap/books.go`). The list it searches
    is two ascending blocks, venue books and the books added so far, so a bisection for a time ends
    either after the last venue book at or before that time or after the last added book. */
module NeededBooks {
  import opened Basics
  import opened Sorting
  import opened AsOf
  import opened FillPrices
  import opened FillBooks

  // ---------------------------------------------------------------- where a bisection ends

  /** Where a bisection of [0, n) ends when exactly the positions in [a, m) answer true. */
  ghost function Landing(a: nat, m: nat, n: nat): nat {
    Bisection(InRange(a, m), 0, n)
  }

  function InRange(a: nat, m: nat): nat -> bool {
    j => a <= j < m
  }

  lemma {:induction false} LandsAtBlockEnd(a: nat, m: nat, lo: nat, hi: nat)
    requires a <= m && lo <= hi
    ensures lo >= m || a == m ==> Bisection(InRange(a, m), lo, hi) == hi
    ensures lo <= a <= hi <= m ==> Bisection(InRange(a, m), lo, hi) == a
    ensures lo <= a && m <= hi ==> Bisection(InRange(a, m), lo, hi) == a || Bisection(InRange(a, m), lo, hi) == hi
    decreases hi - lo
  {
    if lo < hi {
      var mid := (lo + hi) / 2;
      if a <= mid < m {
        LandsAtBlockEnd(a, m, lo, mid);
      } else {
        LandsAtBlockEnd(a, m, mid + 1, hi);
      }
    }
  }

  lemma LandsInEitherBlock(a: nat, m: nat, added: nat)
    requires a <= m
    ensures Landing(a, m, m + added) == a || (Landing(a, m, m + added) == m + added && added > 0)
  {
    LandsAtBlockEnd(a, m, 0, m + added);
  }

  lemma {:induction false} BisectAlike(f: nat --> bool, g: nat -> bool, lo: nat, hi: nat)
    requires lo <= hi && forall j :: lo <= j < hi ==> f.requires(j) && f(j) == g(j)
    ensures Bisection(f, lo, hi) == Bisection(g, lo, hi)
    decreases hi - lo
  {
    if lo < hi {
      var mid := (lo + hi) / 2;
      if f(mid) {
        BisectAlike(f, g, lo, mid);
      } else {
        BisectAlike(f, g, mid + 1, hi);
      }
    }
  }

  // ---------------------------------------------------------------- one grid time

  /** Where the search for `t` ends, counted from the front of the two blocks. */
  ghost function EndsAt(venue: seq<int>, added: seq<int>, t: int): nat {
    Landing(LastAtOrBefore(venue, t) + 1, |venue|, |venue| + |added|)
  }

  ghost predicate RecentTime(times: seq<int>, t: int, step: int) {
    exists i :: 0 <= i < |times| && 0 <= t - times[i] <= step
  }

  /** The last venue book at or before `t` is recent. */
  ghost predicate VenueRecent(venue: seq<int>, t: int, step: int) {
    LastAtOrBefore(venue, t) >= 0 && t - venue[LastAtOrBefore(venue, t)] <= step
  }

  /** The last added book is recent. */
  ghost predicate AddedRecent(added: seq<int>, t: int, step: int) {
    added != [] && t - added[|added| - 1] <= step
  }

  /** The bisection ends in the block whose last book is stale, while the other block has a recent one. */
  ghost predicate Misled(venue: seq<int>, added: seq<int>, t: int, step: int) {
    if EndsAt(venue, added, t) <= |venue|
    then AddedRecent(added, t, step) && !VenueRecent(venue, t, step)
    else VenueRecent(venue, t, step) && !AddedRecent(added, t, step)
  }

  lemma AsOfIndexByTimes(books: seq<Book>, venue: seq<int>, added: seq<int>, t: int)
    requires BookTimes(books) == venue + added
    requires Ascends(venue) && forall i :: 0 <= i < |added| ==> added[i] <= t
    ensures AsOfIndex(books, t) == EndsAt(venue, added, t) - 1
  {
    var a, times := LastAtOrBefore(venue, t) + 1, BookTimes(books);
    forall j | 0 <= j < |books| ensures After(times, t)(j) == InRange(a, |venue|)(j) {
      if j < a {
        assert venue[j] <= venue[a - 1];
      }
    }
    BisectAlike(After(times, t), InRange(a, |venue|), 0, |books|);
  }

  lemma TimeInBlock(books: seq<Book>, venue: seq<int>, added: seq<int>, i: nat)
    requires BookTimes(books) == venue + added && i < |books|
    ensures i < |venue| + |added|
    ensures books[i].time == if i < |venue| then venue[i] else added[i - |venue|]
  {
    assert books[i].time == BookTimes(books)[i];
  }

  /** What a search that ended at `at` sees. */
  ghost predicate SeesAt(venue: seq<int>, added: seq<int>, t: int, step: int, at: nat)
    requires at <= |venue| + |added|
  {
    at > 0 && t - (if at <= |venue| then venue[at - 1] else added[at - 1 - |venue|]) <= step
  }

  lemma CoversWhereItLands(books: seq<Book>, venue: seq<int>, added: seq<int>, t: int, step: int)
    requires step > 0 && BookTimes(books) == venue + added
    ensures CoversAt(books, t, step) <==> SeesAt(venue, added, t, step, AsOfIndex(books, t) + 1)
  {
    if AsOfIndex(books, t) >= 0 {
      TimeInBlock(books, venue, added, AsOfIndex(books, t));
    }
  }

  lemma SeesLastOfBlock(venue: seq<int>, added: seq<int>, t: int, step: int, at: nat)
    requires at == LastAtOrBefore(venue, t) + 1 || (at == |venue| + |added| && added != [])
    ensures SeesAt(venue, added, t, step, at) <==>
      if at <= |venue| then VenueRecent(venue, t, step) else AddedRecent(added, t, step)
  {
  }

  lemma CoversAtLanding(books: seq<Book>, venue: seq<int>, added: seq<int>, t: int, step: int)
    requires step > 0 && BookTimes(books) == venue + added
    requires Ascends(venue) && forall i :: 0 <= i < |added| ==> added[i] <= t
    ensures EndsAt(venue, added, t) <= |venue| + |added|
    ensures CoversAt(books, t, step) <==>
      SeesAt(venue, added, t, step, EndsAt(venue, added, t))
  {
    AsOfIndexByTimes(books, venue, added, t);
    CoversWhereItLands(books, venue, added, t, step);
  }

  lemma CoversAtByTimes(books: seq<Book>, venue: seq<int>, added: seq<int>, t: int, step: int)
    requires step > 0 && BookTimes(books) == venue + added
    requires Ascends(venue) && forall i :: 0 <= i < |added| ==> added[i] <= t
    ensures CoversAt(books, t, step) <==>
      if EndsAt(venue, added, t) <= |venue|
      then VenueRecent(venue, t, step) else AddedRecent(added, t, step)
  {
    var a := LastAtOrBefore(venue, t) + 1;
    LandsInEitherBlock(a, |venue|, |added|);
    SeesLastOfBlock(venue, added, t, step, EndsAt(venue, added, t));
    CoversAtLanding(books, venue, added, t, step);
  }

  lemma RecentInEitherBlock(venue: seq<int>, added: seq<int>, t: int, step: int)
    requires Ascends(venue) && Ascends(added) && forall i :: 0 <= i < |added| ==> added[i] <= t
    ensures RecentTime(venue + added, t, step) <==> VenueRecent(venue, t, step) || AddedRecent(added, t, step)
  {
    var all, a := venue + added, LastAtOrBefore(venue, t);
    if RecentTime(all, t, step) {
      var i :| 0 <= i < |all| && 0 <= t - all[i] <= step;
      if i < |venue| {
        assert venue[i] <= venue[a];
      } else {
        assert added[i - |venue|] <= added[|added| - 1];
      }
    }
    if VenueRecent(venue, t, step) {
      assert all[a] == venue[a];
    }
    if AddedRecent(added, t, step) {
      assert all[|all| - 1] == added[|added| - 1];
    }
  }

  /** At one grid time the search sees a recent book exactly when there is one and it is not misled. */
  lemma SeesRecentUnlessMisled(books: seq<Book>, venue: seq<int>, added: seq<int>, t: int, step: int)
    requires step > 0 && BookTimes(books) == venue + added
    requires Ascends(venue) && Ascends(added) && forall i :: 0 <= i < |added| ==> added[i] <= t
    ensures CoversAt(books, t, step) <==> RecentTime(venue + added, t, step) && !Misled(venue, added, t, step)
    ensures Misled(venue, added, t, step) ==> RecentTime(venue + added, t, step)
  {
    CoversAtByTimes(books, venue, added, t, step);
    RecentInEitherBlock(venue, added, t, step);
  }

  // ---------------------------------------------------------------- a whole run

  /** The grid times that need a book: priced, and no venue or already needed book is recent. */
  ghost function Needed(venue: seq<int>, grid: seq<int>, midAt: int -> Mid, step: int): seq<int> {
    if grid == [] then [] else
    var front, t := Needed(venue, grid[..|grid| - 1], midAt, step), grid[|grid| - 1];
    if Priced(midAt, t) && !RecentTime(venue + front, t, step) then front + [t] else front
  }

  lemma {:induction false} NeededAscends(venue: seq<int>, grid: seq<int>, midAt: int -> Mid, step: int)
    requires Ascends(grid)
    ensures Ascends(Needed(venue, grid, midAt, step))
    ensures forall x :: x in Needed(venue, grid, midAt, step) ==> x in grid
  {
    if grid != [] {
      var n := |grid| - 1;
      NeededAscends(venue, grid[..n], midAt, step);
      var front := Needed(venue, grid[..n], midAt, step);
      forall i | 0 <= i < |front| ensures front[i] <= grid[n] {
        assert front[i] in front;
        var j :| 0 <= j < n && grid[j] == front[i];
      }
    }
  }

  /** Before its `k`-th grid time the run has added books exactly at the needed times. */
  ghost predicate OnlyNeeded(kept: seq<Book>, grid: seq<int>, midAt: int -> Mid, o: Opts, k: nat)
    requires o.floor > 0.0 && k <= |grid|
  {
    BookTimes(AddedBooks(kept, grid[..k], midAt, o)) == Needed(BookTimes(kept), grid[..k], midAt, o.gridStep)
  }

  /** At its `k`-th grid time a run that added only what it needed is misled. */
  ghost predicate MisledAt(kept: seq<Book>, grid: seq<int>, midAt: int -> Mid, o: Opts, k: nat)
    requires k < |grid|
  {
    Priced(midAt, grid[k]) &&
    Misled(BookTimes(kept), Needed(BookTimes(kept), grid[..k], midAt, o.gridStep), grid[k], o.gridStep)
  }

  lemma AddedStep(kept: seq<Book>, grid: seq<int>, midAt: int -> Mid, o: Opts, k: nat)
    requires o.floor > 0.0 && k < |grid|
    ensures var before, t := AddedBooks(kept, grid[..k], midAt, o), grid[k];
      BookTimes(AddedBooks(kept, grid[..k + 1], midAt, o)) == BookTimes(before) +
        (if CoversAt(kept + before, t, o.gridStep) || !Priced(midAt, t) then [] else [t])
  {
    assert grid[..k + 1][..k] == grid[..k];
  }

  lemma NextChoice(kept: seq<Book>, grid: seq<int>, midAt: int -> Mid, o: Opts, k: nat)
    requires o.floor > 0.0 && o.gridStep > 0 && Ascends(BookTimes(kept)) && Ascends(grid) && k < |grid|
    requires OnlyNeeded(kept, grid, midAt, o, k)
    ensures OnlyNeeded(kept, grid, midAt, o, k + 1) <==> !MisledAt(kept, grid, midAt, o, k)
  {
    var venue, before, t := BookTimes(kept), AddedBooks(kept, grid[..k], midAt, o), grid[k];
    var added := Needed(venue, grid[..k], midAt, o.gridStep);
    NeededAscends(venue, grid[..k], midAt, o.gridStep);
    forall i | 0 <= i < |added| ensures added[i] <= t {
      assert added[i] in added;
      var j :| 0 <= j < k && grid[j] == added[i];
    }
    assert BookTimes(kept + before) == venue + added;
    SeesRecentUnlessMisled(kept + before, venue, added, t, o.gridStep);
    AddedStep(kept, grid, midAt, o, k);
    assert grid[..k + 1][..k] == grid[..k];
  }

  lemma OnlyNeededUpTo(kept: seq<Book>, grid: seq<int>, midAt: int -> Mid, o: Opts, n: nat)
    requires o.floor > 0.0 && o.gridStep > 0 && Ascends(BookTimes(kept)) && Ascends(grid) && n <= |grid|
    ensures (forall k :: 0 <= k <= n ==> OnlyNeeded(kept, grid, midAt, o, k))
       <==> (forall k :: 0 <= k < n ==> !MisledAt(kept, grid, midAt, o, k))
  {
    var p := (k: nat) => k <= |grid| && OnlyNeeded(kept, grid, midAt, o, k);
    var q := (k: nat) => k < |grid| && !MisledAt(kept, grid, midAt, o, k);
    assert grid[..0] == [];
    forall k: nat | k < n && p(k) ensures p(k + 1) <==> q(k) {
      NextChoice(kept, grid, midAt, o, k);
    }
    HoldsUpTo(p, q, n);
    assert forall k: nat :: k <= n ==> (p(k) <==> OnlyNeeded(kept, grid, midAt, o, k));
    assert forall k: nat :: k < n ==> (q(k) <==> !MisledAt(kept, grid, midAt, o, k));
  }

  /** Exactly when filling adds only needed books, for every ascending grid: when no priced grid time
      is misled. The condition speaks of the venue times, the grid, the mids and the step alone. */
  lemma AddsOnlyNeededExactly(kept: seq<Book>, grid: seq<int>, midAt: int -> Mid, o: Opts)
    requires o.floor > 0.0 && o.gridStep > 0 && Sorted(kept, EarlierBook) && Ascends(grid)
    ensures (forall k :: 0 <= k <= |grid| ==> OnlyNeeded(kept, grid, midAt, o, k))
       <==> (forall k :: 0 <= k < |grid| ==> !MisledAt(kept, grid, midAt, o, k))
  {
    SortedBooksAscend(kept);
    OnlyNeededUpTo(kept, grid, midAt, o, |grid|);
  }

  lemma SortedBooksAscend(books: seq<Book>)
    requires Sorted(books, EarlierBook)
    ensures Ascends(BookTimes(books))
  {
    forall i, j | 0 <= i < j < |books| ensures BookTimes(books)[i] <= BookTimes(books)[j] {
      assert !EarlierBook(books[j], books[i]);
    }
  }

  /** In particular when no venue book is later than a grid time: the list then stays in time order. */
  lemma VenueBeforeGridAddsOnlyNeeded(kept: seq<Book>, grid: seq<int>, midAt: int -> Mid, o: Opts)
    requires o.floor > 0.0 && o.gridStep > 0 && Sorted(kept, EarlierBook) && Ascends(grid)
    requires forall b, t :: b in kept && t in grid ==> b.time <= t
    ensures forall k :: 0 <= k <= |grid| ==> OnlyNeeded(kept, grid, midAt, o, k)
  {
    var venue := BookTimes(kept);
    SortedBooksAscend(kept);
    forall k | 0 <= k < |grid| ensures !MisledAt(kept, grid, midAt, o, k) {
      var added, t := Needed(venue, grid[..k], midAt, o.gridStep), grid[k];
      NeededAscends(venue, grid[..k], midAt, o.gridStep);
      assert t in grid && forall x :: x in grid[..k] ==> x in grid;
      forall i | 0 <= i < |venue| ensures venue[i] <= t && forall x :: x in added ==> venue[i] <= x {
        assert kept[i] in kept && venue[i] == kept[i].time;
      }
      NotMisledInOrder(venue, added, t, o.gridStep);
    }
    AddsOnlyNeededExactly(kept, grid, midAt, o);
  }

  lemma NotMisledInOrder(venue: seq<int>, added: seq<int>, t: int, step: int)
    requires forall i :: 0 <= i < |venue| ==> venue[i] <= t && forall x :: x in added ==> venue[i] <= x
    ensures !Misled(venue, added, t, step)
  {
    var a, n := LastAtOrBefore(venue, t) + 1, |venue| + |added|;
    LandsAtBlockEnd(a, |venue|, 0, n);
    assert a == |venue|;
    if added != [] {
      assert added[|added| - 1] in added;
    }
  }

  /** The condition is needed: filling two venue books at 100 and 200 over the grid [10, 12], both
      times priced, adds a book at 12 although the one it added at 10 is recent. `venue` is what the
      fill keeps of the samples. */
  lemma FillCanAddNeedlessly(a: Book, b: Book, venue: seq<Book>, midAt: int -> Mid, opts: Opts)
    requires UsableBook(a) && UsableBook(b) && a.time == 100 && b.time == 200
    requires multiset(venue) == multiset(VenueBooks([a, b])) && Sorted(venue, EarlierBook)
    requires Normalized(opts).gridStep >= 2 && Priced(midAt, 10) && Priced(midAt, 12)
    ensures BookTimes(AddedBooks(venue, [10, 12], midAt, Normalized(opts))) == [10, 12]
    ensures Needed(BookTimes(venue), [10, 12], midAt, Normalized(opts).gridStep) == [10]
  {
    TwoVenueBooks(a, b, venue);
    AddsNeedlessly(venue, midAt, Normalized(opts));
  }

  lemma TwoVenueBooks(a: Book, b: Book, venue: seq<Book>)
    requires UsableBook(a) && UsableBook(b) && a.time < b.time
    requires multiset(venue) == multiset(VenueBooks([a, b])) && Sorted(venue, EarlierBook)
    ensures BookTimes(venue) == [a.time, b.time]
  {
    var x, y := CleanBook(a), CleanBook(b);
    assert [a, b][..1] == [a] && [a][..0] == [];
    assert VenueBooks([a]) == [x] && VenueBooks([a, b]) == [x, y];
    assert |venue| == |multiset(venue)| == 2;
    SameElements(venue, [x, y]);
    assert venue[0] in venue && venue[1] in venue && x in venue && y in venue;
    assert !EarlierBook(venue[1], venue[0]);
  }

  lemma AddsNeedlessly(venue: seq<Book>, midAt: int -> Mid, o: Opts)
    requires o.floor > 0.0 && o.gridStep >= 2 && BookTimes(venue) == [100, 200]
    requires Priced(midAt, 10) && Priced(midAt, 12)
    ensures BookTimes(AddedBooks(venue, [10, 12], midAt, o)) == [10, 12]
    ensures Needed(BookTimes(venue), [10, 12], midAt, o.gridStep) == [10]
  {
    var grid, times := [10, 12], [100, 200];
    assert grid[..0] == [] && grid[..1] == [10] && grid[..2] == grid;
    assert forall i :: 0 <= i < 2 ==> venue[i].time == times[i];
    assert Needed(times, [], midAt, o.gridStep) == [];
    assert !RecentTime(times, 10, o.gridStep) && times + [] == times;
    assert Needed(times, [10], midAt, o.gridStep) == [10] by { assert [10][..0] == []; }
    assert (times + [10])[2] == 10;
    assert RecentTime(times + [10], 12, o.gridStep);
    MissesFirst(venue, o.gridStep);
    AddedStep(venue, grid, midAt, o, 0);
    var before := AddedBooks(venue, grid[..1], midAt, o);
    MissesSecond(venue + before, o.gridStep);
    AddedStep(venue, grid, midAt, o, 1);
  }

  lemma MissesFirst(books: seq<Book>, step: int)
    requires BookTimes(books) == [100, 200]
    ensures !CoversAt(books + [], 10, step)
  {
    assert books + [] == books;
    BisectAlike(After(BookTimes(books), 10), InRange(0, 2), 0, 2);
    LandsAtBlockEnd(0, 2, 0, 2);
  }

  lemma MissesSecond(books: seq<Book>, step: int)
    requires BookTimes(books) == [100, 200, 10]
    ensures !CoversAt(books, 12, step)
  {
    BisectAlike(After(BookTimes(books), 12), InRange(0, 2), 0, 3);
    assert InRange(0, 2)(1);
    LandsAtBlockEnd(0, 2, 0, 1);
    assert Bisection(InRange(0, 2), 0, 3) == Bisection(InRange(0, 2), 0, 1);
  }
}
