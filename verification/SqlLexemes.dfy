/** What the schema splitter (`internal/db/init.go`) leaves whole: quoted text, dollar-quoted text, line
    comments and plain text, alone or one after another, and a statement with the comment above it. */
module SqlLexemes {
  import opened SqlText
  import opened SqlSplit
  import opened SqlJoin

  // ---------------------------------------------------------------- closed texts

  /** A quoted text is closed, whatever semicolons it has. */
  lemma QuotedIsClosed(body: string)
    requires '\'' !in body
    ensures Closed("'" + body + "'")
  {
    var s := "'" + body + "'";
    QuoteEnds(body);
    assert s[1..] == body + "'";
    assert s[|s|..] == [];
  }

  lemma {:induction false} QuoteEnds(body: string)
    requires '\'' !in body
    ensures QuoteBody(body + "'") == Extent(|body| + 1, true)
  {
    if body != [] {
      QuoteEnds(body[1..]);
      assert (body + "'")[1..] == body[1..] + "'";
    }
  }

  /** So is a dollar-quoted text. */
  lemma DollarQuotedIsClosed(body: string)
    requires '$' !in body
    ensures Closed("$$" + body + "$$")
  {
    var s := "$$" + body + "$$";
    DollarEnds(body);
    assert s[2..] == body + "$$";
    assert s[|s|..] == [];
  }

  lemma {:induction false} DollarEnds(body: string)
    requires '$' !in body
    ensures DollarBody(body + "$$") == Extent(|body| + 2, true)
  {
    if body != [] {
      DollarEnds(body[1..]);
      assert (body + "$$")[1..] == body[1..] + "$$";
    }
  }

  /** So is a line comment with its newline. */
  lemma CommentIsClosed(body: string)
    requires '\n' !in body
    ensures Closed("--" + body + "\n")
  {
    var s := "--" + body + "\n";
    CommentEnds(body);
    assert s[2..] == body + "\n";
    assert s[|s|..] == [];
  }

  lemma {:induction false} CommentEnds(body: string)
    requires '\n' !in body
    ensures CommentBody(body + "\n") == Extent(|body| + 1, true)
  {
    if body != [] {
      CommentEnds(body[1..]);
      assert (body + "\n")[1..] == body[1..] + "\n";
    }
  }

  predicate IsPlain(c: char) {
    c != ';' && c != '\'' && c != '-' && c != '$'
  }

  /** So is a text without semicolons, quotes, dashes and dollars. */
  lemma {:induction false} PlainIsClosed(s: string)
    requires forall k :: 0 <= k < |s| ==> IsPlain(s[k])
    ensures Closed(s)
  {
    if s != [] {
      PlainIsClosed(s[1..]);
    }
  }

  /** And so are closed texts one after another, when the second does not open with a dash, a dollar or a quote. */
  lemma {:induction false} ClosedConcat(s: string, u: string)
    requires Closed(s) && Closed(u) && Harmless(u)
    ensures Closed(s + u)
    decreases |s|
  {
    if s == [] {
      assert s + u == u;
    } else {
      var n := Lexeme(s).length;
      LexemeExtends(s, u);
      ClosedConcat(s[n..], u);
      DropFront(s, u, n);
    }
  }

  /** A comment ends with its newline, so anything closed may follow it. */
  lemma CommentThen(body: string, u: string)
    requires '\n' !in body && Closed(u)
    ensures Closed("--" + body + "\n" + u)
  {
    var s := "--" + body + "\n";
    CommentEnds(body);
    assert s[2..] == body + "\n";
    CommentExtends(s[2..], u);
    DropFront(s, u, 2);
    DropFront(s, u, |s|);
    assert s[|s|..] + u == u;
  }

  // ---------------------------------------------------------------- a comment above a statement

  lemma CommentedIsTrimmed(body: string, stmt: string)
    requires stmt != [] && Trim(stmt) == stmt
    ensures var s := "--" + body + "\n" + stmt; Trim(s) == s
  {
    TrimmedEnds(stmt);
  }

  lemma CommentedHasCode(body: string, stmt: string)
    requires HasCode(stmt)
    ensures HasCode("--" + body + "\n" + stmt)
  {
    var head := "--" + body + "\n";
    var i: nat, k: nat :| CodeAt(stmt, i, k);
    assert (head + stmt)[|head|..] == stmt;
    CodeInRest(head + stmt, i, k, |head|);
  }

  /** A statement that lexes back to plain mode comes back together with the comment line above it, and
      what follows the semicolon is split on its own. */
  lemma CommentComesBackWithStatement(body: string, stmt: string, rest: string)
    requires '\n' !in body && Closed(stmt) && Trim(stmt) == stmt && HasCode(stmt)
    ensures var s := "--" + body + "\n" + stmt;
      && Statements(Segments(s)) == [s]
      && Statements(Segments(s + ";" + rest)) == [s] + Statements(Segments(rest))
  {
    var s := "--" + body + "\n" + stmt;
    CommentThen(body, stmt);
    CommentedIsTrimmed(body, stmt);
    CommentedHasCode(body, stmt);
    ClosedIsWhole(s);
    ClosedIsSegment(s, rest);
    KeptIsCoded(s);
    OneSegment(s);
    StatementsConcat([s], Segments(rest));
  }

  // ---------------------------------------------------------------- a text without code

  lemma {:induction false} CommentStops(s: string)
    ensures var e := CommentBody(s);
      if e.closed then 0 < e.length && s[e.length - 1] == '\n' else e.length == |s|
  {
    if s != [] && s[0] != '\n' {
      CommentStops(s[1..]);
    }
  }

  lemma BlankThenCode(s: string)
    requires s != [] && IsSpace(s[0]) && HasCode(s[1..])
    ensures HasCode(s)
  {
    var i: nat, k: nat :| CodeAt(s[1..], i, k);
    if i == 0 && s[0] != '\n' {
      forall j | 0 <= j < k + 1 ensures IsSpace(s[j]) && s[j] != '\n' {
        assert j > 0 ==> s[j] == s[1..][j - 1];
      }
      assert CodeAt(s, 0, k + 1);
    } else {
      LaterLine(s, i, k);
    }
  }

  lemma LaterLine(s: string, i: nat, k: nat)
    requires s != [] && CodeAt(s[1..], i, k) && (i > 0 || s[0] == '\n')
    ensures CodeAt(s, i + 1, k + 1)
  {
    forall j | i + 1 <= j < k + 1 ensures IsSpace(s[j]) && s[j] != '\n' {
      assert s[j] == s[1..][j - 1];
    }
  }

  lemma VisibleFirst(s: string)
    requires s != [] && !IsSpace(s[0]) && !HasCode(s)
    ensures StartsWith(s, '-')
  {
    assert FirstVisible(s, 0, 0);
    assert !CodeAt(s, 0, 0);
  }

  lemma AfterComment(s: string)
    requires StartsWith(s, '-') && !HasCode(s)
    ensures var n := Lexeme(s).length; !HasCode(s[n..])
  {
    var n := Lexeme(s).length;
    CommentStops(s[2..]);
    if HasCode(s[n..]) {
      var i: nat, k: nat :| CodeAt(s[n..], i, k);
      CodeInRest(s, i, k, n);
      assert false;
    }
  }

  /** A text of blank lines and comments is one segment, */
  lemma {:induction false} NoCodeIsWhole(s: string)
    requires !HasCode(s)
    ensures Segments(s) == [s]
    decreases |s|
  {
    if s != [] {
      var n := Lexeme(s).length;
      if IsSpace(s[0]) {
        if HasCode(s[1..]) {
          BlankThenCode(s);
          assert false;
        }
      } else {
        VisibleFirst(s);
        AfterComment(s);
      }
      NoCodeIsWhole(s[n..]);
      assert s[..n] + s[n..] == s;
    }
  }

  /** and no statement comes back from it. */
  lemma NoCodeNoStatements(s: string)
    requires !HasCode(s)
    ensures Statements(Segments(s)) == []
  {
    NoCodeIsWhole(s);
    OneSegment(s);
    KeptIsCoded(s);
    if HasCode(Trim(s)) {
      TrimmedCodeIsCode(s);
      assert false;
    }
  }
}
