/** The schema splitter (`internal/db/init.go`): a one-character-lookahead scanner that cuts SQL text
    at semicolons outside quotes, dollar quotes and line comments, proved against a grammar of
    whole lexemes. Text is a sequence of code points; every character the scanner looks at is ASCII. */
module SqlSplit {
  import opened Basics
  import opened Filters
  import opened SqlText

  // ---------------------------------------------------------------- grammar

  /** How far a lexeme reaches, and whether it was closed before the text ended. */
  datatype Extent = Extent(length: nat, closed: bool)

  function Longer(e: Extent, k: nat): Extent {
    Extent(e.length + k, e.closed)
  }

  /** After "--": up to and including the newline. */
  function CommentBody(s: string): (e: Extent)
    ensures e.length <= |s|
  {
    if s == [] then Extent(0, false)
    else if s[0] == '\n' then Extent(1, true)
    else Longer(CommentBody(s[1..]), 1)
  }

  /** After "$$": up to and including the next "$$". */
  function DollarBody(s: string): (e: Extent)
    ensures e.length <= |s|
  {
    if s == [] then Extent(0, false)
    else if |s| >= 2 && s[0] == '$' && s[1] == '$' then Extent(2, true)
    else Longer(DollarBody(s[1..]), 1)
  }

  /** After a quote: up to and including the closing quote, a doubled quote standing for itself. */
  function QuoteBody(s: string): (e: Extent)
    ensures e.length <= |s|
  {
    if s == [] then Extent(0, false)
    else if s[0] == '\'' then
      if |s| >= 2 && s[1] == '\'' then Longer(QuoteBody(s[2..]), 2) else Extent(1, true)
    else Longer(QuoteBody(s[1..]), 1)
  }

  predicate StartsWith(s: string, c: char) {
    |s| >= 2 && s[0] == c && s[1] == c
  }

  /** The first lexeme of a text. */
  function Lexeme(s: string): (e: Extent)
    requires s != []
    ensures 0 < e.length <= |s|
  {
    if StartsWith(s, '-') then Longer(CommentBody(s[2..]), 2)
    else if StartsWith(s, '$') then Longer(DollarBody(s[2..]), 2)
    else if s[0] == '\'' then Longer(QuoteBody(s[1..]), 1)
    else Extent(1, true)
  }

  /** The pieces between top-level semicolons. */
  function Segments(s: string): (r: seq<string>)
    ensures r != []
    decreases |s|
  {
    if s == [] then [[]]
    else if s[0] == ';' then [[]] + Segments(s[1..])
    else Prepend(s[..Lexeme(s).length], Segments(s[Lexeme(s).length..]))
  }

  /** A text that lexes from plain mode back to plain mode and has no top-level semicolon. */
  predicate Closed(s: string)
    decreases |s|
  {
    s == [] || (s[0] != ';' && Lexeme(s).closed && Closed(s[Lexeme(s).length..]))
  }

  // ---------------------------------------------------------------- cutting and joining are inverse

  function JoinSemi(segments: seq<string>): string {
    if segments == [] then []
    else if |segments| == 1 then segments[0]
    else segments[0] + ";" + JoinSemi(segments[1..])
  }

  lemma PrependFirst(p: string, q: string, rest: seq<string>)
    ensures Prepend(p, [q] + rest) == [p + q] + rest
    ensures q == [] ==> Prepend(p, [q] + rest) == [p] + rest
  {
    assert ([q] + rest)[1..] == rest;
    assert p + [] == p;
  }

  lemma PrependNothing(rest: seq<string>)
    requires rest != []
    ensures Prepend([], rest) == rest
  {
    assert [] + rest[0] == rest[0];
  }

  lemma JoinPrepend(p: string, segments: seq<string>)
    requires segments != []
    ensures JoinSemi(Prepend(p, segments)) == p + JoinSemi(segments)
  {
    assert Prepend(p, segments)[1..] == segments[1..];
  }

  /** Rejoining the raw segments gives back the input, character for character. */
  lemma {:induction false} JoinUndoesCut(s: string)
    ensures JoinSemi(Segments(s)) == s
    decreases |s|
  {
    if s == [] {
    } else if s[0] == ';' {
      JoinUndoesCut(s[1..]);
      assert ([[]] + Segments(s[1..]))[1..] == Segments(s[1..]);
      assert s == ";" + s[1..];
    } else {
      var n := Lexeme(s).length;
      JoinUndoesCut(s[n..]);
      JoinPrepend(s[..n], Segments(s[n..]));
    }
  }

  /** What may follow a closed lexeme without changing it: anything but a dash, a dollar or a quote. */
  predicate Harmless(u: string) {
    u == [] || (u[0] != '-' && u[0] != '$' && u[0] != '\'')
  }

  lemma {:induction false} CommentExtends(s: string, u: string)
    requires CommentBody(s).closed
    ensures CommentBody(s + u) == CommentBody(s)
  {
    if s[0] != '\n' {
      CommentExtends(s[1..], u);
      assert (s + u)[1..] == s[1..] + u;
    }
  }

  lemma {:induction false} DollarExtends(s: string, u: string)
    requires DollarBody(s).closed
    ensures DollarBody(s + u) == DollarBody(s)
  {
    if !StartsWith(s, '$') {
      DollarExtends(s[1..], u);
      assert (s + u)[1..] == s[1..] + u;
    }
  }

  lemma {:induction false} QuoteExtends(s: string, u: string)
    requires QuoteBody(s).closed && Harmless(u)
    ensures QuoteBody(s + u) == QuoteBody(s)
  {
    if s[0] != '\'' {
      QuoteExtends(s[1..], u);
      assert (s + u)[1..] == s[1..] + u;
    } else if |s| >= 2 && s[1] == '\'' {
      QuoteExtends(s[2..], u);
      assert (s + u)[2..] == s[2..] + u;
    }
  }

  lemma DropFront(s: string, u: string, k: nat)
    requires k <= |s|
    ensures (s + u)[k..] == s[k..] + u
  {
  }

  lemma SameStart(s: string, u: string, c: char)
    requires s != [] && Harmless(u) && (c == '-' || c == '$')
    ensures StartsWith(s + u, c) <==> StartsWith(s, c)
  {
  }

  lemma LexemeExtends(s: string, u: string)
    requires s != [] && Lexeme(s).closed && Harmless(u)
    ensures Lexeme(s + u) == Lexeme(s)
  {
    SameStart(s, u, '-');
    SameStart(s, u, '$');
    if StartsWith(s, '-') {
      CommentExtends(s[2..], u);
      DropFront(s, u, 2);
    } else if StartsWith(s, '$') {
      DollarExtends(s[2..], u);
      DropFront(s, u, 2);
    } else if s[0] == '\'' {
      QuoteExtends(s[1..], u);
      DropFront(s, u, 1);
    }
  }

  /** A closed text followed by a semicolon is a segment of its own. */
  lemma ClosedIsSegment(s: string, t: string)
    requires Closed(s)
    ensures Segments(s + ";" + t) == [s] + Segments(t)
  {
    SegmentBefore(s, ";" + t, t);
    assert s + ";" + t == s + (";" + t);
  }

  lemma {:induction false} SegmentBefore(s: string, u: string, t: string)
    requires Closed(s) && u == ";" + t
    ensures Segments(s + u) == [s] + Segments(t)
    decreases |s|
  {
    if s == [] {
      assert s + u == u && u[1..] == t;
    } else {
      var n := Lexeme(s).length;
      SegmentBefore(s[n..], u, t);
      FirstLexemeOf(s, u);
      PrependFirst(s[..n], s[n..], Segments(t));
      assert s[..n] + s[n..] == s;
    }
  }

  lemma FirstLexemeOf(s: string, u: string)
    requires s != [] && s[0] != ';' && Lexeme(s).closed && Harmless(u)
    ensures Segments(s + u) == Prepend(s[..Lexeme(s).length], Segments(s[Lexeme(s).length..] + u))
  {
    var n := Lexeme(s).length;
    LexemeExtends(s, u);
    assert (s + u)[..n] == s[..n] && (s + u)[n..] == s[n..] + u;
  }

  lemma {:induction false} ClosedIsWhole(s: string)
    requires Closed(s)
    ensures Segments(s) == [s]
    decreases |s|
  {
    if s != [] {
      var n := Lexeme(s).length;
      ClosedIsWhole(s[n..]);
      assert s[..n] + s[n..] == s;
    }
  }

  /** Lists a text can be cut into: all parts but the last closed, the last without a top-level semicolon. */
  ghost predicate IsCut(parts: seq<string>) {
    && parts != []
    && (forall i :: 0 <= i < |parts| - 1 ==> Closed(parts[i]))
    && Segments(parts[|parts| - 1]) == [parts[|parts| - 1]]
  }

  /** Among them every non-empty list of closed texts. */
  lemma ClosedPartsAreCut(parts: seq<string>)
    requires parts != [] && forall i :: 0 <= i < |parts| ==> Closed(parts[i])
    ensures IsCut(parts)
  {
    ClosedIsWhole(parts[|parts| - 1]);
  }

  /** Cutting undoes joining, for every list a text can be cut into. */
  lemma {:induction false} CutUndoesJoin(parts: seq<string>)
    requires IsCut(parts)
    ensures Segments(JoinSemi(parts)) == parts
  {
    if |parts| > 1 {
      CutUndoesJoin(parts[1..]);
      ClosedIsSegment(parts[0], JoinSemi(parts[1..]));
    }
  }

  lemma {:induction false} CutShortComment(s: string, u: string)
    ensures CommentBody(s).closed && u <= s && |u| >= CommentBody(s).length ==> CommentBody(u) == CommentBody(s)
  {
    if s != [] && u != [] && s[0] != '\n' {
      CutShortComment(s[1..], u[1..]);
    }
  }

  lemma {:induction false} CutShortDollar(s: string, u: string)
    ensures DollarBody(s).closed && u <= s && |u| >= DollarBody(s).length ==> DollarBody(u) == DollarBody(s)
  {
    if s != [] && u != [] && !StartsWith(s, '$') {
      CutShortDollar(s[1..], u[1..]);
    }
  }

  lemma {:induction false} CutShortQuote(s: string, u: string)
    ensures QuoteBody(s).closed && u <= s && |u| >= QuoteBody(s).length ==> QuoteBody(u) == QuoteBody(s)
  {
    if s != [] && u != [] {
      if s[0] != '\'' {
        CutShortQuote(s[1..], u[1..]);
      } else if |s| >= 2 && |u| >= 2 && s[1] == '\'' {
        CutShortQuote(s[2..], u[2..]);
      }
    }
  }

  /** A lexeme does not depend on what follows the segment it is in. */
  lemma CutShortLexeme(s: string, u: string)
    requires s != [] && Lexeme(s).closed && u <= s && |u| >= Lexeme(s).length
    ensures Lexeme(u) == Lexeme(s)
  {
    if StartsWith(s, '-') {
      assert u[2..] <= s[2..];
      CutShortComment(s[2..], u[2..]);
    } else if StartsWith(s, '$') {
      assert u[2..] <= s[2..];
      CutShortDollar(s[2..], u[2..]);
    } else if s[0] == '\'' {
      assert u[1..] <= s[1..];
      CutShortQuote(s[1..], u[1..]);
    }
  }

  lemma UnclosedReachesEnd(s: string)
    requires s != [] && !Lexeme(s).closed
    ensures Lexeme(s).length == |s|
  {
    if StartsWith(s, '-') {
      UnclosedComment(s[2..]);
    } else if StartsWith(s, '$') {
      UnclosedDollar(s[2..]);
    } else if s[0] == '\'' {
      UnclosedQuote(s[1..]);
    }
  }

  lemma {:induction false} UnclosedComment(s: string)
    ensures !CommentBody(s).closed ==> CommentBody(s).length == |s|
  {
    if s != [] {
      UnclosedComment(s[1..]);
    }
  }

  lemma {:induction false} UnclosedDollar(s: string)
    ensures !DollarBody(s).closed ==> DollarBody(s).length == |s|
  {
    if s != [] {
      UnclosedDollar(s[1..]);
    }
  }

  lemma {:induction false} UnclosedQuote(s: string)
    ensures !QuoteBody(s).closed ==> QuoteBody(s).length == |s|
  {
    if s != [] {
      UnclosedQuote(s[1..]);
      if |s| >= 2 {
        UnclosedQuote(s[2..]);
      }
    }
  }

  /** The first segment is a prefix of the text, up to its end or a semicolon. */
  lemma {:induction false} FirstSegment(s: string)
    ensures Segments(s)[0] <= s
    ensures |Segments(s)| > 1 ==> Closed(Segments(s)[0])
    ensures |Segments(s)| == 1 ==> Segments(s)[0] == s
    decreases |s|
  {
    if s != [] && s[0] != ';' {
      var n := Lexeme(s).length;
      var first, rest := Segments(s)[0], Segments(s[n..])[0];
      FirstSegment(s[n..]);
      assert first == s[..n] + rest;
      if !Lexeme(s).closed {
        UnclosedReachesEnd(s);
        assert Segments(s[n..]) == [[]];
      } else if |Segments(s)| > 1 {
        CutShortLexeme(s, first);
        assert first[n..] == rest;
      }
    }
  }

  lemma {:induction false} LaterSegments(s: string)
    requires |Segments(s)| > 1
    ensures exists t: string :: |t| < |s| && Segments(s)[1..] == Segments(t)
    decreases |s|
  {
    if s[0] == ';' {
      assert Segments(s)[1..] == Segments(s[1..]);
    } else {
      var n := Lexeme(s).length;
      LaterSegments(s[n..]);
      assert Segments(s)[1..] == Segments(s[n..])[1..];
    }
  }

  /** Every text is cut into such a list; with the two lemmas above, cutting and joining are inverse
      bijections between texts and the lists they can be cut into. */
  lemma {:induction false} SegmentsAreCut(s: string)
    ensures IsCut(Segments(s))
    decreases |s|
  {
    FirstSegment(s);
    if |Segments(s)| > 1 {
      LaterSegments(s);
      var t :| |t| < |s| && Segments(s)[1..] == Segments(t);
      SegmentsAreCut(t);
      assert forall i :: 0 < i < |Segments(s)| ==> Segments(s)[i] == Segments(t)[i - 1];
    }
  }

  // ---------------------------------------------------------------- statements

  /** What a segment contributes: itself, trimmed, unless that is empty or comment-only. */
  function Kept(text: string): seq<string> {
    if Trim(text) != [] && !IsCommentOnly(Trim(text)) then [Trim(text)] else []
  }

  /** The statements among the segments. */
  function Statements(segments: seq<string>): seq<string> {
    if segments == [] then [] else Statements(segments[..|segments| - 1]) + Kept(segments[|segments| - 1])
  }

  // ---------------------------------------------------------------- the scanner

  /** What is left to cut when the scanner stands before `s` in one of its modes. */
  ghost function Rest(inComment: bool, inDollar: bool, inSingle: bool, s: string): (r: seq<string>)
    ensures r != []
  {
    var n := if inComment then CommentBody(s).length
      else if inDollar then DollarBody(s).length
      else if inSingle then QuoteBody(s).length
      else 0;
    Prepend(s[..n], Segments(s[n..]))
  }

  lemma PlainRest(s: string)
    ensures Rest(false, false, false, s) == Segments(s)
  {
    assert s[..0] + Segments(s)[0] == Segments(s)[0];
    assert s[0..] == s;
  }

  lemma PrependTwice(p: string, q: string, segments: seq<string>)
    requires segments != []
    ensures Prepend(p, Prepend(q, segments)) == Prepend(p + q, segments)
  {
    assert p + (q + segments[0]) == p + q + segments[0];
  }

  /** Reading `k` characters of a lexeme whose extent at `s` is `n`, with `m` left of it. */
  lemma ReadInside(s: string, k: nat, n: nat)
    requires k <= n <= |s|
    ensures Prepend(s[..n], Segments(s[n..])) == Prepend(s[..k], Prepend(s[k..][..n - k], Segments(s[k..][n - k..])))
  {
    PrependTwice(s[..k], s[k..][..n - k], Segments(s[n..]));
    assert s[k..][n - k..] == s[n..];
    assert s[..k] + s[k..][..n - k] == s[..n];
  }

  lemma CommentStep(s: string)
    requires s != []
    ensures Rest(true, false, false, s) == Prepend(s[..1], Rest(s[0] != '\n', false, false, s[1..]))
  {
    var n := CommentBody(s).length;
    ReadInside(s, 1, n);
    if s[0] == '\n' {
      PlainRest(s[1..]);
      PrependNothing(Segments(s[1..]));
    } else {
      assert n - 1 == CommentBody(s[1..]).length;
    }
  }

  lemma DollarStep(s: string)
    requires s != []
    ensures StartsWith(s, '$') ==> Rest(false, true, false, s) == Prepend(s[..2], Rest(false, false, false, s[2..]))
    ensures !StartsWith(s, '$') ==> Rest(false, true, false, s) == Prepend(s[..1], Rest(false, true, false, s[1..]))
  {
    ReadInside(s, if StartsWith(s, '$') then 2 else 1, DollarBody(s).length);
  }

  lemma QuoteStep(s: string)
    requires s != []
    ensures s[0] != '\'' ==> Rest(false, false, true, s) == Prepend(s[..1], Rest(false, false, true, s[1..]))
    ensures StartsWith(s, '\'') ==> Rest(false, false, true, s) == Prepend(s[..2], Rest(false, false, true, s[2..]))
    ensures s[0] == '\'' && !StartsWith(s, '\'') ==>
      Rest(false, false, true, s) == Prepend(s[..1], Rest(false, false, false, s[1..]))
  {
    ReadInside(s, if StartsWith(s, '\'') then 2 else 1, QuoteBody(s).length);
  }

  lemma LexemeStep(s: string, k: nat)
    requires s != [] && s[0] != ';' && k <= Lexeme(s).length
    ensures var n := Lexeme(s).length - k;
      Rest(false, false, false, s) == Prepend(s[..k], Prepend(s[k..][..n], Segments(s[k..][n..])))
  {
    PlainRest(s);
    ReadInside(s, k, Lexeme(s).length);
  }

  lemma PlainStep(s: string)
    requires s != []
    ensures s[0] == ';' ==> Rest(false, false, false, s) == [[]] + Rest(false, false, false, s[1..])
    ensures StartsWith(s, '-') ==> Rest(false, false, false, s) == Prepend(s[..2], Rest(true, false, false, s[2..]))
    ensures StartsWith(s, '$') ==> Rest(false, false, false, s) == Prepend(s[..2], Rest(false, true, false, s[2..]))
    ensures s[0] == '\'' ==> Rest(false, false, false, s) == Prepend(s[..1], Rest(false, false, true, s[1..]))
    ensures s[0] != ';' && s[0] != '\'' && !StartsWith(s, '-') && !StartsWith(s, '$') ==>
      Rest(false, false, false, s) == Prepend(s[..1], Rest(false, false, false, s[1..]))
  {
    PlainRest(s[1..]);
    if s[0] == ';' {
      PlainRest(s);
    } else if StartsWith(s, '-') || StartsWith(s, '$') {
      LexemeStep(s, 2);
    } else {
      LexemeStep(s, 1);
    }
  }

  /** What the scanner's state stands for: the finished segments, then the one being written
      together with all that is still to be cut. */
  ghost function Total(sql: string, i: nat, done: seq<string>, b: string,
                       inComment: bool, inDollar: bool, inSingle: bool): seq<string>
    requires i <= |sql|
  {
    done + Prepend(b, Rest(inComment, inDollar, inSingle, sql[i..]))
  }

  lemma Written(sql: string, i: nat, k: nat, done: seq<string>, b: string, rest: seq<string>)
    requires i + k <= |sql| && rest != []
    ensures done + Prepend(b, Prepend(sql[i..][..k], rest)) == done + Prepend(b + sql[i..i + k], rest)
    ensures sql[i..][k..] == sql[i + k..]
  {
    assert sql[i..][..k] == sql[i..i + k];
    PrependTwice(b, sql[i..i + k], rest);
  }

  lemma CommentAt(sql: string, i: nat, done: seq<string>, b: string)
    requires i < |sql|
    ensures Total(sql, i, done, b, true, false, false)
         == Total(sql, i + 1, done, b + sql[i..i + 1], sql[i] != '\n', false, false)
  {
    CommentStep(sql[i..]);
    Written(sql, i, 1, done, b, Rest(sql[i] != '\n', false, false, sql[i..][1..]));
  }

  lemma CommentOpensAt(sql: string, i: nat, done: seq<string>, b: string)
    requires i < |sql| && StartsWith(sql[i..], '-')
    ensures Total(sql, i, done, b, false, false, false)
         == Total(sql, i + 2, done, b + sql[i..i + 2], true, false, false)
  {
    PlainStep(sql[i..]);
    Written(sql, i, 2, done, b, Rest(true, false, false, sql[i..][2..]));
  }

  lemma DollarAt(sql: string, i: nat, done: seq<string>, b: string, inDollar: bool)
    requires i < |sql| && StartsWith(sql[i..], '$')
    ensures Total(sql, i, done, b, false, inDollar, false)
         == Total(sql, i + 2, done, b + sql[i..i + 2], false, !inDollar, false)
  {
    PlainStep(sql[i..]);
    DollarStep(sql[i..]);
    Written(sql, i, 2, done, b, Rest(false, !inDollar, false, sql[i..][2..]));
  }

  lemma DoubledQuoteAt(sql: string, i: nat, done: seq<string>, b: string)
    requires i < |sql| && StartsWith(sql[i..], '\'')
    ensures Total(sql, i, done, b, false, false, true)
         == Total(sql, i + 2, done, b + sql[i..i + 2], false, false, true)
  {
    QuoteStep(sql[i..]);
    Written(sql, i, 2, done, b, Rest(false, false, true, sql[i..][2..]));
  }

  lemma ToggleStep(s: string, inSingle: bool)
    requires s != [] && s[0] == '\'' && (inSingle ==> !StartsWith(s, '\''))
    ensures Rest(false, false, inSingle, s) == Prepend(s[..1], Rest(false, false, !inSingle, s[1..]))
  {
    if inSingle {
      QuoteStep(s);
    } else {
      PlainStep(s);
    }
  }

  lemma QuoteAt(sql: string, i: nat, done: seq<string>, b: string, inSingle: bool)
    requires i < |sql| && sql[i] == '\'' && (inSingle ==> !StartsWith(sql[i..], '\''))
    ensures Total(sql, i, done, b, false, false, inSingle)
         == Total(sql, i + 1, done, b + sql[i..i + 1], false, false, !inSingle)
  {
    ToggleStep(sql[i..], inSingle);
    Written(sql, i, 1, done, b, Rest(false, false, !inSingle, sql[i..][1..]));
  }

  lemma SemicolonAt(sql: string, i: nat, done: seq<string>, b: string)
    requires i < |sql| && sql[i] == ';'
    ensures Total(sql, i, done, b, false, false, false) == Total(sql, i + 1, done + [b], [], false, false, false)
  {
    PlainStep(sql[i..]);
    var rest := Rest(false, false, false, sql[i + 1..]);
    assert sql[i..][1..] == sql[i + 1..];
    PrependFirst(b, [], rest);
    PrependNothing(rest);
  }

  lemma OtherStep(s: string, inDollar: bool, inSingle: bool)
    requires s != [] && !(inDollar && inSingle)
    requires !inSingle ==> !StartsWith(s, '$')
    requires !inSingle && !inDollar ==> !StartsWith(s, '-') && s[0] != ';'
    requires !inDollar ==> s[0] != '\''
    ensures Rest(false, inDollar, inSingle, s) == Prepend(s[..1], Rest(false, inDollar, inSingle, s[1..]))
  {
    if inSingle {
      QuoteStep(s);
    } else if inDollar {
      DollarStep(s);
    } else {
      PlainStep(s);
    }
  }

  lemma OtherAt(sql: string, i: nat, done: seq<string>, b: string, inDollar: bool, inSingle: bool)
    requires i < |sql| && !(inDollar && inSingle)
    requires !inSingle ==> !StartsWith(sql[i..], '$')
    requires !inSingle && !inDollar ==> !StartsWith(sql[i..], '-') && sql[i] != ';'
    requires !inDollar ==> sql[i] != '\''
    ensures Total(sql, i, done, b, false, inDollar, inSingle)
         == Total(sql, i + 1, done, b + sql[i..i + 1], false, inDollar, inSingle)
  {
    var rest := Rest(false, inDollar, inSingle, sql[i + 1..]);
    assert sql[i..][0] == sql[i] && sql[i..][1..] == sql[i + 1..];
    OtherStep(sql[i..], inDollar, inSingle);
    Written(sql, i, 1, done, b, rest);
  }

  lemma TotalStart(sql: string)
    ensures Total(sql, 0, [], [], false, false, false) == Segments(sql)
  {
    PlainRest(sql);
    assert sql[0..] == sql;
    assert Prepend([], Segments(sql)) == Segments(sql);
  }

  lemma TotalEnd(sql: string, done: seq<string>, b: string, inComment: bool, inDollar: bool, inSingle: bool)
    ensures Total(sql, |sql|, done, b, inComment, inDollar, inSingle) == done + [b]
  {
    assert sql[|sql|..] == [];
    var e: string := [];
    assert e[..0] == e && e[0..] == e;
    PrependFirst(e, [], []);
    PrependFirst(b, [], []);
  }

  lemma StatementsSnoc(done: seq<string>, b: string)
    ensures Statements(done + [b]) == Statements(done) + Kept(b)
  {
    assert (done + [b])[..|done|] == done;
  }

  // ---------------------------------------------------------------- which segments come back

  /** What comes back of a segment: itself, trimmed, when that has code. */
  ghost function Coded(segment: string): Option<string> {
    if HasCode(Trim(segment)) then Some(Trim(segment)) else None
  }

  lemma KeptIsCoded(s: string)
    ensures Kept(s) == if Coded(s).Some? then [Coded(s).value] else []
  {
    CommentOnlyExactly(Trim(s));
    assert !HasCode([]);
  }

  lemma StatementsByLast(front: seq<string>, s: string)
    ensures Statements(front + [s]) == if Coded(s).Some? then Statements(front) + [Coded(s).value] else Statements(front)
  {
    StatementsSnoc(front, s);
    KeptIsCoded(s);
    assert Statements(front) + [] == Statements(front);
  }

  lemma CodedStep(front: seq<string>, s: string, before: seq<nat>) returns (at: seq<nat>)
    requires IsFilter(front, Coded, Statements(front), before)
    ensures IsFilter(front + [s], Coded, Statements(front + [s]), at)
  {
    FilterNext(front, Coded, Statements(front), before, s);
    StatementsByLast(front, s);
    at := if Coded(s).Some? then before + [|front|] else before;
  }

  lemma {:induction false} StatementsAreCoded(segments: seq<string>) returns (at: seq<nat>)
    ensures IsFilter(segments, Coded, Statements(segments), at)
  {
    if segments == [] {
      at := [];
    } else {
      at := StatementsAreCoded(segments[..|segments| - 1]);
      at := CodedStep(segments[..|segments| - 1], segments[|segments| - 1], at);
      assert segments == segments[..|segments| - 1] + [segments[|segments| - 1]];
    }
  }

  /** splitSQLStatements: the scanner computes the statements of the grammar's segments. */
  method SplitSQLStatements(sql: string) returns (stmts: seq<string>)
    ensures stmts == Statements(Segments(sql))
    ensures exists at :: IsFilter(Segments(sql), Coded, stmts, at)
  {
    stmts := [];
    var b: string := [];
    var inSingle, inDollar, inLineComment := false, false, false;
    ghost var done: seq<string> := [];
    TotalStart(sql);
    var i := 0;
    while i < |sql|
      invariant 0 <= i <= |sql|
      invariant !(inSingle && inDollar) && !(inSingle && inLineComment) && !(inDollar && inLineComment)
      invariant Segments(sql) == Total(sql, i, done, b, inLineComment, inDollar, inSingle)
      invariant stmts == Statements(done)
    {
      var c := sql[i];

      if inLineComment {
        CommentAt(sql, i, done, b);
        b := b + sql[i..i + 1];
        if c == '\n' {
          inLineComment := false;
        }
        i := i + 1;
        continue;
      }

      if !inSingle && !inDollar && c == '-' && i + 1 < |sql| && sql[i + 1] == '-' {
        CommentOpensAt(sql, i, done, b);
        b := b + sql[i..i + 2];
        i := i + 2;
        inLineComment := true;
        continue;
      }

      if !inSingle && i + 1 < |sql| && c == '$' && sql[i + 1] == '$' {
        DollarAt(sql, i, done, b, inDollar);
        b := b + sql[i..i + 2];
        i := i + 2;
        inDollar := !inDollar;
        continue;
      }

      if !inDollar && c == '\'' {
        if inSingle && i + 1 < |sql| && sql[i + 1] == '\'' {
          DoubledQuoteAt(sql, i, done, b);
          b := b + sql[i..i + 2];
          i := i + 2;
          continue;
        }
        QuoteAt(sql, i, done, b, inSingle);
        b := b + sql[i..i + 1];
        inSingle := !inSingle;
        i := i + 1;
        continue;
      }

      if c == ';' && !inSingle && !inDollar {
        SemicolonAt(sql, i, done, b);
        StatementsSnoc(done, b);
        stmts := AddStatement(stmts, b);
        done := done + [b];
        b := [];
        i := i + 1;
        continue;
      }

      OtherAt(sql, i, done, b, inDollar, inSingle);
      b := b + sql[i..i + 1];
      i := i + 1;
    }
    TotalEnd(sql, done, b, inLineComment, inDollar, inSingle);
    StatementsSnoc(done, b);
    stmts := AddStatement(stmts, b);
    ghost var at := StatementsAreCoded(Segments(sql));
  }

  method AddStatement(stmts: seq<string>, text: string) returns (r: seq<string>)
    ensures r == stmts + Kept(text)
    ensures r == if HasCode(Trim(text)) then stmts + [Trim(text)] else stmts
  {
    KeptIsCoded(text);
    var stmt := Trim(text);
    var commentOnly := IsSQLCommentOnly(stmt);
    if stmt != [] && !commentOnly {
      return stmts + [stmt];
    }
    return stmts;
  }
}
