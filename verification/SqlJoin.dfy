/** Joining statements with ";\n" and splitting them again (`internal/db/init.go`): exactly which lists
    of statements come back. */
module SqlJoin {
  import opened SqlSplit
  import opened SqlText

  /** Statements joined by a semicolon and a newline. */
  function JoinStatements(stmts: seq<string>): string {
    if stmts == [] then []
    else if |stmts| == 1 then stmts[0]
    else stmts[0] + ";\n" + JoinStatements(stmts[1..])
  }

  ghost predicate IsStatement(stmt: string) {
    Trim(stmt) == stmt && !IsCommentOnly(stmt)
  }

  function OnNewLines(stmts: seq<string>): (r: seq<string>)
    ensures |r| == |stmts|
  {
    seq(|stmts|, i requires 0 <= i < |stmts| => if i == 0 then stmts[0] else "\n" + stmts[i])
  }

  lemma {:induction false} JoinedIsCut(stmts: seq<string>)
    requires stmts != []
    ensures JoinStatements(stmts) == JoinSemi(OnNewLines(stmts))
  {
    if |stmts| > 1 {
      JoinedIsCut(stmts[1..]);
      var tail := OnNewLines(stmts)[1..];
      assert tail == ["\n" + stmts[1]] + OnNewLines(stmts[1..])[1..];
      assert tail == Prepend("\n", OnNewLines(stmts[1..]));
      JoinPrepend("\n", OnNewLines(stmts[1..]));
      assert stmts[0] + ";\n" == stmts[0] + ";" + "\n";
    }
  }

  lemma NewLineKeepsShape(s: string)
    ensures Closed(s) ==> Closed("\n" + s)
    ensures Segments(s) == [s] ==> Segments("\n" + s) == ["\n" + s]
  {
    var t := "\n" + s;
    assert t[1..] == s && t[..1] == "\n";
    assert !StartsWith(t, '-') && !StartsWith(t, '$');
    assert Lexeme(t) == Extent(1, true);
  }

  lemma TrimNewLine(s: string)
    requires Trim(s) == s
    ensures Trim("\n" + s) == s
  {
    TrimmedEnds(s);
    assert ("\n" + s)[1..] == s;
  }

  /** The segment `line` counts as the statement `stmt`. */
  ghost predicate Yields(line: string, stmt: string) {
    Trim(line) == stmt && stmt != [] && !IsCommentOnly(stmt)
  }

  ghost predicate AllYield(lines: seq<string>, stmts: seq<string>) {
    |lines| == |stmts| &&
    forall i {:trigger Yields(lines[i], stmts[i])} :: 0 <= i < |stmts| ==> Yields(lines[i], stmts[i])
  }

  lemma OneMoreYields(lines: seq<string>, line: string, stmt: string)
    requires Yields(line, stmt)
    ensures Statements(lines + [line]) == Statements(lines) + [stmt]
  {
    assert (lines + [line])[..|lines|] == lines;
  }

  lemma TakeOneMore(s: seq<string>, n: nat)
    requires n < |s|
    ensures s[..n + 1] == s[..n] + [s[n]]
  {}

  lemma {:induction false} FirstLinesYield(lines: seq<string>, stmts: seq<string>, n: nat)
    requires AllYield(lines, stmts) && n <= |lines|
    ensures Statements(lines[..n]) == stmts[..n]
  {
    if n > 0 {
      var k := n - 1;
      FirstLinesYield(lines, stmts, k);
      OneMoreYields(lines[..k], lines[k], stmts[k]);
      TakeOneMore(lines, k);
      TakeOneMore(stmts, k);
    }
  }

  lemma StatementsOfLines(lines: seq<string>, stmts: seq<string>)
    requires AllYield(lines, stmts)
    ensures Statements(lines) == stmts
  {
    FirstLinesYield(lines, stmts, |lines|);
    assert lines[..|lines|] == lines && stmts[..|lines|] == stmts;
  }

  lemma LineIsStatement(stmt: string)
    requires IsStatement(stmt)
    ensures Yields(stmt, stmt) && Yields("\n" + stmt, stmt)
  {
    EmptyIsCommentOnly();
    TrimNewLine(stmt);
  }

  lemma EmptyIsCommentOnly()
    ensures IsCommentOnly([])
  {
    assert Trim([]) == [];
  }

  lemma LinesAreCut(stmts: seq<string>)
    requires stmts != [] && IsCut(stmts)
    ensures IsCut(OnNewLines(stmts))
  {
    forall i | 0 <= i < |stmts| {
      NewLineKeepsShape(stmts[i]);
    }
  }

  lemma LinesYield(stmts: seq<string>)
    requires forall i :: 0 <= i < |stmts| ==> IsStatement(stmts[i])
    ensures AllYield(OnNewLines(stmts), stmts)
  {
    forall i | 0 <= i < |stmts| ensures Yields(OnNewLines(stmts)[i], stmts[i]) {
      LineIsStatement(stmts[i]);
    }
  }

  lemma CommentToTheEnd(s: string)
    requires StartsWith(s, '-') && forall i :: 0 <= i < |s| ==> s[i] != '\n'
    ensures !Lexeme(s).closed
  {
    NoNewLine(s[2..]);
  }

  lemma {:induction false} NoNewLine(s: string)
    requires forall i :: 0 <= i < |s| ==> s[i] != '\n'
    ensures !CommentBody(s).closed
  {
    if s != [] {
      NoNewLine(s[1..]);
    }
  }

  /** Joining a cut list of statements with ";\n" and splitting again returns the list. */
  lemma SplitUndoesJoin(stmts: seq<string>)
    requires forall i :: 0 <= i < |stmts| ==> IsStatement(stmts[i])
    requires IsCut(stmts)
    ensures Statements(Segments(JoinStatements(stmts))) == stmts
  {
    JoinedIsCut(stmts);
    LinesAreCut(stmts);
    CutUndoesJoin(OnNewLines(stmts));
    LinesYield(stmts);
    StatementsOfLines(OnNewLines(stmts), stmts);
  }

  /** In particular when every statement lexes back to plain mode without a top-level semicolon. */
  lemma ClosedStatementsComeBack(stmts: seq<string>)
    requires forall i :: 0 <= i < |stmts| ==> IsStatement(stmts[i]) && Closed(stmts[i])
    ensures Statements(Segments(JoinStatements(stmts))) == stmts
  {
    if stmts == [] {
      SplitUndoesJoinExactly(stmts);
    } else {
      ClosedPartsAreCut(stmts);
      SplitUndoesJoin(stmts);
    }
  }

  // ---------------------------------------------------------------- counting semicolons

  function Semis(s: string): nat {
    if s == [] then 0 else (if s[0] == ';' then 1 else 0) + Semis(s[1..])
  }

  function SemisIn(parts: seq<string>): nat {
    if parts == [] then 0 else SemisIn(parts[..|parts| - 1]) + Semis(parts[|parts| - 1])
  }

  lemma {:induction false} SemisConcat(s: string, t: string)
    ensures Semis(s + t) == Semis(s) + Semis(t)
  {
    if s == [] {
      assert s + t == t;
    } else {
      SemisConcat(s[1..], t);
      assert (s + t)[1..] == s[1..] + t;
    }
  }

  lemma {:induction false} SemisFirst(parts: seq<string>)
    requires parts != []
    ensures SemisIn(parts) == Semis(parts[0]) + SemisIn(parts[1..])
  {
    if |parts| == 1 {
      assert parts[..0] == [] && parts[1..] == [];
    } else {
      SemisFirst(parts[..|parts| - 1]);
      assert parts[1..][..|parts| - 2] == parts[..|parts| - 1][1..];
    }
  }

  lemma {:induction false} SemisJoined(parts: seq<string>)
    requires parts != []
    ensures Semis(JoinSemi(parts)) == SemisIn(parts) + |parts| - 1
  {
    SemisFirst(parts);
    if |parts| > 1 {
      SemisJoined(parts[1..]);
      SemisConcat(parts[0] + ";", JoinSemi(parts[1..]));
      SemisConcat(parts[0], ";");
    } else {
      assert parts[1..] == [];
    }
  }

  lemma {:induction false} SemisOfStatements(stmts: seq<string>)
    requires stmts != []
    ensures Semis(JoinStatements(stmts)) == SemisIn(stmts) + |stmts| - 1
  {
    SemisFirst(stmts);
    if |stmts| > 1 {
      SemisOfStatements(stmts[1..]);
      SemisConcat(stmts[0] + ";\n", JoinStatements(stmts[1..]));
      SemisConcat(stmts[0], ";\n");
      assert ";\n"[1..] == "\n" && "\n"[1..] == "";
    } else {
      assert stmts[1..] == [];
    }
  }

  lemma {:induction false} TrimLeftKeepsSemis(s: string)
    ensures Semis(TrimLeft(s)) == Semis(s)
  {
    if s != [] && IsSpace(s[0]) {
      TrimLeftKeepsSemis(s[1..]);
    }
  }

  lemma {:induction false} TrimRightKeepsSemis(s: string)
    ensures Semis(TrimRight(s)) == Semis(s)
  {
    if s != [] && IsSpace(s[|s| - 1]) {
      TrimRightKeepsSemis(s[..|s| - 1]);
      SemisConcat(s[..|s| - 1], [s[|s| - 1]]);
      assert s == s[..|s| - 1] + [s[|s| - 1]];
    }
  }

  lemma TrimKeepsSemis(s: string)
    ensures Semis(Trim(s)) == Semis(s)
  {
    TrimLeftKeepsSemis(s);
    TrimRightKeepsSemis(TrimLeft(s));
  }

  /** Every part, and every semicolon in it. */
  function Weight(parts: seq<string>): nat {
    SemisIn(parts) + |parts|
  }

  lemma WeightSnoc(parts: seq<string>, s: string)
    ensures Weight(parts + [s]) == Weight(parts) + Semis(s) + 1
  {
    assert (parts + [s])[..|parts|] == parts;
  }

  /** The statements are the segments, trimmed. */
  ghost predicate AllKept(segments: seq<string>) {
    && |Statements(segments)| == |segments|
    && forall i :: 0 <= i < |segments| ==> Statements(segments)[i] == Trim(segments[i])
  }

  lemma OneMoreSegment(front: seq<string>, s: string)
    requires Weight(Statements(front)) <= Weight(front)
    requires Weight(Statements(front)) == Weight(front) ==> AllKept(front)
    ensures Weight(Statements(front + [s])) <= Weight(front + [s])
    ensures Weight(Statements(front + [s])) == Weight(front + [s]) ==> AllKept(front + [s])
  {
    StatementsSnoc(front, s);
    WeightSnoc(front, s);
    WeightSnoc(Statements(front), Trim(s));
    TrimKeepsSemis(s);
    if Trim(s) == [] || IsCommentOnly(Trim(s)) {
      assert Statements(front + [s]) == Statements(front);
    }
  }

  /** Dropping a segment loses weight, so equal weights mean that nothing was dropped. */
  lemma {:induction false} NothingDropped(segments: seq<string>)
    ensures Weight(Statements(segments)) <= Weight(segments)
    ensures Weight(Statements(segments)) == Weight(segments) ==> AllKept(segments)
  {
    if segments != [] {
      var k := |segments| - 1;
      NothingDropped(segments[..k]);
      OneMoreSegment(segments[..k], segments[k]);
      assert segments == segments[..k] + [segments[k]];
    }
  }

  // ---------------------------------------------------------------- only cut lists come back

  /** A first segment that trims to the first statement is that statement, for a semicolon follows it. */
  lemma FirstIsWhole(segment: string, stmt: string, rest: string)
    requires segment <= stmt + ";" + rest && Trim(segment) == stmt && Trim(stmt) == stmt && stmt != []
    ensures segment == stmt
  {
    var text := stmt + ";" + rest;
    TrimmedEnds(stmt);
    assert Trim([]) == [];
    assert segment[0] == text[0] == stmt[0];
    assert TrimLeft(segment) == segment;
    if |segment| > |stmt| {
      assert segment[|stmt|] == text[|stmt|] == ';';
      TrimRightStops(segment, |stmt|);
      assert false;
    }
  }

  lemma NewLineSegments(s: string)
    ensures Segments("\n" + s) == Prepend("\n", Segments(s))
  {
    var t := "\n" + s;
    assert t[1..] == s && t[..1] == "\n";
    assert !StartsWith(t, '-') && !StartsWith(t, '$');
    assert Lexeme(t) == Extent(1, true);
  }

  lemma Regroup(a: seq<string>, b: seq<string>, c: seq<string>)
    ensures a + b + c == a + (b + c)
  {
  }

  lemma {:induction false} StatementsConcat(a: seq<string>, b: seq<string>)
    ensures Statements(a + b) == Statements(a) + Statements(b)
  {
    if b == [] {
      assert a + b == a;
    } else {
      var k := |b| - 1;
      StatementsConcat(a, b[..k]);
      assert (a + b)[..|a + b| - 1] == a + b[..k];
      Regroup(Statements(a), Statements(b[..k]), Kept(b[k]));
    }
  }

  lemma NewLineKeepsStatements(segments: seq<string>)
    requires segments != []
    ensures Statements(Prepend("\n", segments)) == Statements(segments)
  {
    var first := segments[0];
    assert ("\n" + first)[1..] == first;
    assert Trim("\n" + first) == Trim(first);
    StatementsConcat(["\n" + first], segments[1..]);
    StatementsConcat([first], segments[1..]);
    assert segments == [first] + segments[1..];
    OneSegment("\n" + first);
    OneSegment(first);
  }

  lemma OneSegment(s: string)
    ensures Statements([s]) == Kept(s)
  {
    StatementsSnoc([], s);
    assert [] + [s] == [s];
  }

  lemma EachSegmentIsStatement(stmts: seq<string>)
    requires stmts != [] && Statements(Segments(JoinStatements(stmts))) == stmts
    ensures var segments := Segments(JoinStatements(stmts));
      |segments| == |stmts| && forall i :: 0 <= i < |stmts| ==> Trim(segments[i]) == stmts[i]
  {
    var text := JoinStatements(stmts);
    JoinUndoesCut(text);
    SemisJoined(Segments(text));
    SemisOfStatements(stmts);
    NothingDropped(Segments(text));
  }

  lemma FirstIsClosed(text: string, stmt: string, rest: string)
    requires text == stmt + ";" + rest && |Segments(text)| > 1
    requires Trim(Segments(text)[0]) == stmt && Trim(stmt) == stmt && stmt != []
    ensures Closed(stmt)
  {
    FirstSegment(text);
    FirstIsWhole(Segments(text)[0], stmt, rest);
  }

  lemma JoinedText(stmts: seq<string>)
    requires |stmts| > 1
    ensures JoinStatements(stmts) == stmts[0] + ";" + ("\n" + JoinStatements(stmts[1..]))
  {
    SeparatorSplits(stmts[0], JoinStatements(stmts[1..]));
  }

  lemma SeparatorSplits(s: string, t: string)
    ensures s + ";\n" + t == s + ";" + ("\n" + t)
  {
    assert ";\n" == ";" + "\n";
  }

  lemma NotEmpty(stmt: string)
    requires IsStatement(stmt)
    ensures stmt != [] && Trim(stmt) == stmt
  {
    EmptyIsCommentOnly();
  }

  /** What comes back starts with the whole first statement, so the rest comes back on its own. */
  lemma FirstComesBack(stmts: seq<string>)
    requires |stmts| > 1 && IsStatement(stmts[0])
    requires Statements(Segments(JoinStatements(stmts))) == stmts
    ensures Closed(stmts[0])
    ensures Segments(JoinStatements(stmts)) == [stmts[0]] + Segments("\n" + JoinStatements(stmts[1..]))
  {
    var stmt, rest := stmts[0], "\n" + JoinStatements(stmts[1..]);
    EachSegmentIsStatement(stmts);
    JoinedText(stmts);
    NotEmpty(stmt);
    FirstIsClosed(JoinStatements(stmts), stmt, rest);
    ClosedIsSegment(stmt, rest);
  }

  lemma RestComesBack(stmt: string, rest: string)
    requires IsStatement(stmt)
    ensures Statements([stmt] + Segments("\n" + rest)) == [stmt] + Statements(Segments(rest))
  {
    EmptyIsCommentOnly();
    NewLineSegments(rest);
    NewLineKeepsStatements(Segments(rest));
    StatementsConcat([stmt], Segments("\n" + rest));
    OneSegment(stmt);
  }

  lemma {:induction false} OnlyCutListsComeBack(stmts: seq<string>)
    requires stmts != [] && forall i :: 0 <= i < |stmts| ==> IsStatement(stmts[i])
    requires Statements(Segments(JoinStatements(stmts))) == stmts
    ensures IsCut(stmts)
    decreases |stmts|
  {
    if |stmts| == 1 {
      EachSegmentIsStatement(stmts);
      FirstSegment(stmts[0]);
    } else {
      FirstComesBack(stmts);
      RestComesBack(stmts[0], JoinStatements(stmts[1..]));
      assert stmts == [stmts[0]] + stmts[1..];
      OnlyCutListsComeBack(stmts[1..]);
      CutWithFirst(stmts[0], stmts[1..]);
    }
  }

  lemma CutWithFirst(first: string, rest: seq<string>)
    requires Closed(first) && IsCut(rest)
    ensures IsCut([first] + rest)
  {
  }

  // ---------------------------------------------------------------- every result is a list of statements

  lemma TrimTwice(s: string)
    ensures Trim(Trim(s)) == Trim(s)
  {
    var l := TrimLeft(s);
    var r := TrimRight(l);
    if r != [] {
      assert r[0] == l[0];
    }
  }

  lemma {:induction false} StatementsAreStatements(segments: seq<string>)
    ensures forall i :: 0 <= i < |Statements(segments)| ==> IsStatement(Statements(segments)[i])
  {
    if segments != [] {
      StatementsAreStatements(segments[..|segments| - 1]);
      TrimTwice(segments[|segments| - 1]);
    }
  }

  /** Exactly the lists that survive joining with ";\n" and splitting: the empty one, and lists of
      trimmed, not comment-only statements in which all but the last lex back to plain mode and none
      has a top-level semicolon. */
  lemma SplitUndoesJoinExactly(stmts: seq<string>)
    ensures Statements(Segments(JoinStatements(stmts))) == stmts <==>
      stmts == [] || (IsCut(stmts) && forall i :: 0 <= i < |stmts| ==> IsStatement(stmts[i]))
  {
    if stmts == [] {
      OneSegment([]);
      assert Trim([]) == [];
    } else if Statements(Segments(JoinStatements(stmts))) == stmts {
      StatementsAreStatements(Segments(JoinStatements(stmts)));
      OnlyCutListsComeBack(stmts);
    } else if IsCut(stmts) && forall i :: 0 <= i < |stmts| ==> IsStatement(stmts[i]) {
      SplitUndoesJoin(stmts);
    }
  }

  /** The same for raw segments: cutting undoes joining exactly on the lists a text can be cut into. */
  lemma CutUndoesJoinExactly(parts: seq<string>)
    ensures Segments(JoinSemi(parts)) == parts <==> IsCut(parts)
  {
    SegmentsAreCut(JoinSemi(parts));
    if IsCut(parts) {
      CutUndoesJoin(parts);
    }
  }

  /** A statement that ends inside a line comment swallows the separator: "a--" and "b" come back as one. */
  lemma TrailingCommentSwallowsSeparator()
    ensures IsStatement("a--") && IsStatement("b") && !Closed("a--")
    ensures Statements(Segments(JoinStatements(["a--", "b"]))) != ["a--", "b"]
  {
    assert "a--"[1..] == "--";
    CommentToTheEnd("--");
    assert Lexeme("a--") == Extent(1, true);
    assert !Closed("--");
    SplitUndoesJoinExactly(["a--", "b"]);
    assert ["a--", "b"][0] == "a--";
    OneLineStatement("a--");
    OneLineStatement("b");
  }

  lemma OneLineStatement(s: string)
    requires s != [] && !IsSpace(s[0]) && !IsSpace(s[|s| - 1]) && s[0] != '-'
    requires forall i :: 0 <= i < |s| ==> s[i] != '\n'
    ensures IsStatement(s)
  {
    assert Trim(s) == s;
    OneLine(s);
    assert Lines(s)[0] == s;
    assert !IsCommentLine(Lines(s)[0]);
  }

  lemma {:induction false} OneLine(s: string)
    requires forall i :: 0 <= i < |s| ==> s[i] != '\n'
    ensures Lines(s) == [s]
  {
    if s != [] {
      OneLine(s[1..]);
      PrependFirst([s[0]], s[1..], []);
      assert [s[0]] + s[1..] == s;
    }
  }
}
