/** Gap filling for top-of-book history (`internal/datagap/books.go`). The book list is searched by
    bisection while synthetic books are still being appended at its end, so it is not in time order
    during the run; what the result promises holds anyway. */
module FillBooks {
  import opened Basics
  import opened Filters
  import opened Sorting
  import opened AsOf
  import opened FillPrices

  const SYNTH_BOOK := "synth_book_from_mid"

  datatype Book = Book(time: int, bid: real, ask: real, bidDepth: real, askDepth: real, source: string)

  datatype Mid = NoMid | Quote(mid: real)

  function BookTimes(books: seq<Book>): seq<int> {
    Map((b: Book) => b.time, books)
  }

  predicate UsableBook(b: Book) {
    b.time != 0 && b.bid > 0.0 && b.ask > 0.0
  }

  function CleanBook(b: Book): Book {
    if b.source == "" then b.(source := VENUE) else b
  }

  function VenueBooks(samples: seq<Book>): seq<Book> {
    if samples == [] then [] else
    var front, b := VenueBooks(samples[..|samples| - 1]), samples[|samples| - 1];
    if UsableBook(b) then front + [CleanBook(b)] else front
  }

  /** Where bisection for `t` ends: the book it takes for the last one at or before `t`, or -1. */
  ghost function AsOfIndex(books: seq<Book>, t: int): (i: int)
    ensures -1 <= i < |books|
  {
    Bisection(After(BookTimes(books), t), 0, |books|) - 1
  }

  ghost predicate CoversAt(books: seq<Book>, t: int, step: int) {
    AsOfIndex(books, t) >= 0 && t - books[AsOfIndex(books, t)].time <= PositiveInt(step, HOUR)
  }

  method BookCovers(books: seq<Book>, t: int, step: int) returns (i: int, covers: bool)
    ensures -1 <= i < |books| && i == AsOfIndex(books, t)
    ensures i >= 0 ==> books[i].time <= t
    ensures covers == CoversAt(books, t, step)
  {
    i := SearchAtOrBefore(BookTimes(books), t);
    covers := i >= 0 && t - books[i].time <= PositiveInt(step, HOUR);
  }

  /** A book at or before `t`, no older than `step`. */
  ghost predicate HasRecentBook(books: seq<Book>, t: int, step: int) {
    exists i :: 0 <= i < |books| && 0 <= t - books[i].time <= step
  }

  /** While the list is in time order, bisection sees a recent book exactly when there is one. */
  lemma InOrderCoversExactly(books: seq<Book>, t: int, step: int)
    requires Ascends(BookTimes(books))
    ensures CoversAt(books, t, step) <==> HasRecentBook(books, t, PositiveInt(step, HOUR))
  {
    var times := BookTimes(books);
    var i := AsOfIndex(books, t);
    BisectionIsScan(times, t);
    assert forall k :: 0 <= k < |books| ==> times[k] == books[k].time;
    if HasRecentBook(books, t, PositiveInt(step, HOUR)) {
      var k :| 0 <= k < |books| && 0 <= t - books[k].time <= PositiveInt(step, HOUR);
      assert k <= i;
      assert times[k] <= times[i];
    }
    if CoversAt(books, t, step) {
      assert 0 <= t - books[i].time;
    }
  }

  function HalfSpread(lb: Book, half: real): real {
    if lb.ask > lb.bid && lb.bid > 0.0 && (lb.bid + lb.ask) / 2.0 > 0.0 then (lb.ask - lb.bid) / 2.0 else half
  }

  /** A synthetic book around a mid: clamped to the price range, and pushed open if that closed it. */
  function BookAround(t: int, mid: real, half: real, bidDepth: real, askDepth: real, o: Opts): (b: Book)
    requires o.floor > 0.0
    ensures o.floor <= b.bid < b.ask
    ensures half > 0.0 && o.floor <= mid - half && mid + half <= o.ceil ==> b.bid == mid - half && b.ask == mid + half
  {
    var bb := if mid - half < o.floor then o.floor else mid - half;
    var ba := if mid + half > o.ceil then o.ceil else mid + half;
    Book(t, bb, if ba <= bb then bb + 2.0 * o.floor else ba, bidDepth, askDepth, SYNTH_BOOK)
  }

  function HalfWidth(o: Opts): real {
    if o.halfSpreadBps / 10000.0 / 2.0 <= 0.0 then 0.0025 else o.halfSpreadBps / 10000.0 / 2.0
  }

  function DepthOr(x: real, fallback: real): real {
    if x > 0.0 then x else fallback
  }

  /** The book added for `t`: around the mid, with the half spread and the depths of the book before
      it when that one is recent enough to be reused. */
  ghost function NewBook(books: seq<Book>, t: int, mid: real, o: Opts): (b: Book)
    requires o.floor > 0.0
    ensures b.time == t && o.floor <= b.bid < b.ask && b.source == SYNTH_BOOK
  {
    var i, half := AsOfIndex(books, t), HalfWidth(o);
    if i >= 0 && t - books[i].time <= o.bookReuseMax then
      BookAround(t, mid, HalfSpread(books[i], half), DepthOr(books[i].bidDepth, o.depth), DepthOr(books[i].askDepth, o.depth), o)
    else BookAround(t, mid, half, o.depth, o.depth, o)
  }

  /** The book that is found at or before `t`, when it is recent enough to take spread and depths from. */
  ghost predicate IsTemplate(books: seq<Book>, t: int, o: Opts, lb: Book) {
    AsOfIndex(books, t) >= 0 && books[AsOfIndex(books, t)] == lb && t - lb.time <= o.bookReuseMax
  }

  /** An added book stands around the mid: as far apart as the book it is modelled on, when that has a spread,
      and otherwise as configured; where that leaves the price range it stops at the bound. */
  lemma NewBookStandsAroundMid(books: seq<Book>, t: int, mid: real, o: Opts, spread: real)
    requires 0.0 < o.floor < o.ceil && o.halfSpreadBps > 0.0
    requires forall lb :: IsTemplate(books, t, o, lb) && lb.ask > lb.bid > 0.0 ==> spread == lb.ask - lb.bid
    requires (forall lb :: IsTemplate(books, t, o, lb) ==> !(lb.ask > lb.bid > 0.0)) ==> 10000.0 * spread == o.halfSpreadBps
    requires spread > 0.0 && o.floor <= mid <= o.ceil
    ensures var b := NewBook(books, t, mid, o);
      && b.bid == (if mid - spread / 2.0 < o.floor then o.floor else mid - spread / 2.0)
      && (mid + spread / 2.0 <= o.ceil ==> b.ask == mid + spread / 2.0)
      && (mid + spread / 2.0 > o.ceil && b.bid < o.ceil ==> b.ask == o.ceil)
  {
    var i := AsOfIndex(books, t);
    if i >= 0 && t - books[i].time <= o.bookReuseMax {
      assert IsTemplate(books, t, o, books[i]);
    }
  }

  /** Its depths are those of that book where it states any, and otherwise the configured one. */
  lemma NewBookDepths(books: seq<Book>, t: int, mid: real, o: Opts)
    requires o.floor > 0.0
    ensures var b := NewBook(books, t, mid, o);
      && (forall lb :: IsTemplate(books, t, o, lb) ==>
           && b.bidDepth == (if lb.bidDepth > 0.0 then lb.bidDepth else o.depth)
           && b.askDepth == (if lb.askDepth > 0.0 then lb.askDepth else o.depth))
      && ((forall lb :: !IsTemplate(books, t, o, lb)) ==> b.bidDepth == o.depth && b.askDepth == o.depth)
  {
    var i := AsOfIndex(books, t);
    if i >= 0 && t - books[i].time <= o.bookReuseMax {
      assert IsTemplate(books, t, o, books[i]);
    }
  }

  /** What a venue sample becomes: itself, marked as from the venue if it names no source. */
  ghost function Usable(b: Book): Option<Book> {
    if b.time == 0 || b.bid <= 0.0 || b.ask <= 0.0 then None
    else Some(if b.source == "" then b.(source := "venue") else b)
  }

  /** Kept are, in order, exactly the samples with a time and both prices. */
  lemma {:induction false} VenueBooksExactly(samples: seq<Book>) returns (at: seq<nat>)
    ensures IsFilter(samples, Usable, VenueBooks(samples), at)
  {
    if samples == [] {
      at := [];
    } else {
      var front, b := samples[..|samples| - 1], samples[|samples| - 1];
      var before := VenueBooksExactly(front);
      FilterNext(front, Usable, VenueBooks(front), before, b);
      assert samples == front + [b];
      at := if Usable(b).Some? then before + [|front|] else before;
    }
  }

  /** The books added to `kept`, in grid order. */
  ghost function AddedBooks(kept: seq<Book>, grid: seq<int>, midAt: int -> Mid, o: Opts): seq<Book>
    requires o.floor > 0.0
  {
    if grid == [] then [] else
    var front, t := AddedBooks(kept, grid[..|grid| - 1], midAt, o), grid[|grid| - 1];
    if CoversAt(kept + front, t, o.gridStep) || !Priced(midAt, t) then front
    else front + [NewBook(kept + front, t, midAt(t).mid, o)]
  }

  /** How many grid times were not covered when their turn came and had no mid either. */
  ghost function Unpriced(kept: seq<Book>, grid: seq<int>, midAt: int -> Mid, o: Opts): nat
    requires o.floor > 0.0
  {
    if grid == [] then 0 else
    var front, t := grid[..|grid| - 1], grid[|grid| - 1];
    Unpriced(kept, front, midAt, o) +
    (if CoversAt(kept + AddedBooks(kept, front, midAt, o), t, o.gridStep) || Priced(midAt, t) then 0 else 1)
  }

  /** What the run promises, whatever the order of the grid: every added book is a proper synthetic
      quote at a priced grid time, and every priced grid time has a recent book in the end. */
  lemma {:induction false} AddedBooksSuffice(kept: seq<Book>, grid: seq<int>, midAt: int -> Mid, o: Opts)
    requires o.floor > 0.0 && o.gridStep > 0
    ensures forall b :: b in AddedBooks(kept, grid, midAt, o) ==>
      b.time in grid && o.floor <= b.bid < b.ask && b.source == SYNTH_BOOK && Priced(midAt, b.time)
    ensures forall j :: 0 <= j < |grid| && Priced(midAt, grid[j]) ==>
      HasRecentBook(kept + AddedBooks(kept, grid, midAt, o), grid[j], o.gridStep)
  {
    if grid != [] {
      var n := |grid| - 1;
      AddedBooksSuffice(kept, grid[..n], midAt, o);
      var before := kept + AddedBooks(kept, grid[..n], midAt, o);
      var t := grid[n];
      if CoversAt(before, t, o.gridStep) {
        BisectionStopsBefore(before, t);
        assert HasRecentBook(before, t, o.gridStep);
      } else if Priced(midAt, t) {
        var b := NewBook(before, t, midAt(t).mid, o);
        StillRecent(before, b, midAt, grid[..n], o.gridStep);
        assert kept + AddedBooks(kept, grid, midAt, o) == before + [b];
      }
    }
  }

  /** Venue books are kept, the missing quotes of the grid are added, and the list is put in order. */
  method Fill(samples: seq<Book>, grid: seq<int>, midAt: int -> Mid, opts: Opts)
    returns (out: seq<Book>, mix: Mix, ghost venue: seq<Book>)
    ensures multiset(venue) == multiset(VenueBooks(samples))
    ensures Sorted(venue, EarlierBook) && Sorted(out, EarlierBook)
    ensures multiset(out) == multiset(venue) + multiset(AddedBooks(venue, grid, midAt, Normalized(opts)))
    ensures forall t :: t in grid && Priced(midAt, t) ==> HasRecentBook(out, t, Normalized(opts).gridStep)
    ensures mix.venue == |venue| && mix.book == |AddedBooks(venue, grid, midAt, Normalized(opts))|
    ensures mix.missing == Unpriced(venue, grid, midAt, Normalized(opts))
  {
    var o := Normalized(opts);
    var usable := UsableBooks(samples);
    var kept := SortSlice(usable, EarlierBook);
    venue := kept;
    out, mix := kept, Mix(|kept|, 0, 0, 0, 0);
    if |grid| == 0 {
      return;
    }
    out, mix := AddToGrid(kept, grid, midAt, o);
    AddedBooksSuffice(kept, grid, midAt, o);
    forall t | t in grid && Priced(midAt, t) ensures HasRecentBook(out, t, o.gridStep) {
      var j :| 0 <= j < |grid| && grid[j] == t;
    }
    ghost var unsorted := out;
    out := SortSlice(out, EarlierBook);
    RecentSurvivesSorting(unsorted, out, o.gridStep);
  }

  method Synthesize(books: seq<Book>, i: int, t: int, mid: real, o: Opts) returns (b: Book)
    requires o.floor > 0.0 && i == AsOfIndex(books, t)
    ensures b == NewBook(books, t, mid, o)
  {
    var half := o.halfSpreadBps / 10000.0 / 2.0;
    if half <= 0.0 {
      half := 0.0025;
    }
    var hs, bidDepth, askDepth := half, o.depth, o.depth;
    if i >= 0 && t - books[i].time <= o.bookReuseMax {
      hs := HalfSpread(books[i], half);
      bidDepth := DepthOr(books[i].bidDepth, bidDepth);
      askDepth := DepthOr(books[i].askDepth, askDepth);
    }
    b := BookAround(t, mid, hs, bidDepth, askDepth, o);
  }

  method AddToGrid(kept: seq<Book>, grid: seq<int>, midAt: int -> Mid, o: Opts) returns (out: seq<Book>, mix: Mix)
    requires o.floor > 0.0
    ensures out == kept + AddedBooks(kept, grid, midAt, o)
    ensures mix.venue == |kept| && mix.book == |AddedBooks(kept, grid, midAt, o)|
    ensures mix.missing == Unpriced(kept, grid, midAt, o)
  {
    out, mix := kept, Mix(|kept|, 0, 0, 0, 0);
    for k := 0 to |grid|
      invariant out == kept + AddedBooks(kept, grid[..k], midAt, o)
      invariant mix.venue == |kept| && mix.book == |AddedBooks(kept, grid[..k], midAt, o)|
      invariant mix.missing == Unpriced(kept, grid[..k], midAt, o)
    {
      var t := grid[k];
      assert grid[..k + 1][..k] == grid[..k];
      var i, covers := BookCovers(out, t, o.gridStep);
      if covers {
        continue;
      }
      var quote := midAt(t);
      if quote.NoMid? || quote.mid <= 0.0 {
        mix := mix.(missing := mix.missing + 1);
        continue;
      }
      var b := Synthesize(out, i, t, quote.mid, o);
      ConcatAssociates(kept, AddedBooks(kept, grid[..k], midAt, o), [b]);
      out := out + [b];
      mix := mix.(book := mix.book + 1);
    }
    assert grid[..|grid|] == grid;
  }

  ghost predicate Priced(midAt: int -> Mid, t: int) {
    midAt(t).Quote? && midAt(t).mid > 0.0
  }

  function EarlierBook(a: Book, b: Book): bool { a.time < b.time }

  method UsableBooks(samples: seq<Book>) returns (kept: seq<Book>)
    ensures kept == VenueBooks(samples)
  {
    kept := [];
    for i := 0 to |samples|
      invariant kept == VenueBooks(samples[..i])
    {
      assert samples[..i + 1][..i] == samples[..i];
      if !UsableBook(samples[i]) {
        continue;
      }
      kept := kept + [CleanBook(samples[i])];
    }
    assert samples[..|samples|] == samples;
  }

  /** Whatever the order, bisection ends on a book at or before the time it looks for. */
  lemma BisectionStopsBefore(books: seq<Book>, t: int)
    ensures AsOfIndex(books, t) >= 0 ==> books[AsOfIndex(books, t)].time <= t
  {
    BisectionIsBoundary(After(BookTimes(books), t), 0, |books|);
  }

  lemma StillRecent(books: seq<Book>, b: Book, midAt: int -> Mid, times: seq<int>, step: int)
    requires forall j :: 0 <= j < |times| && Priced(midAt, times[j]) ==> HasRecentBook(books, times[j], step)
    ensures forall j :: 0 <= j < |times| && Priced(midAt, times[j]) ==> HasRecentBook(books + [b], times[j], step)
    ensures step > 0 ==> HasRecentBook(books + [b], b.time, step)
  {
    forall j | 0 <= j < |times| && Priced(midAt, times[j]) ensures HasRecentBook(books + [b], times[j], step) {
      var i :| 0 <= i < |books| && 0 <= times[j] - books[i].time <= step;
      assert (books + [b])[i] == books[i];
    }
    assert (books + [b])[|books|] == b;
  }

  lemma RecentSurvivesSorting(a: seq<Book>, b: seq<Book>, step: int)
    requires multiset(a) == multiset(b)
    ensures forall t :: HasRecentBook(a, t, step) ==> HasRecentBook(b, t, step)
  {
    SameElements(a, b);
    forall t | HasRecentBook(a, t, step) ensures HasRecentBook(b, t, step) {
      var i :| 0 <= i < |a| && 0 <= t - a[i].time <= step;
      assert a[i] in b;
      var j :| 0 <= j < |b| && b[j] == a[i];
    }
  }
}
