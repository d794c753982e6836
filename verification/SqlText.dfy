/** Trimming, lines and comment-only text (`internal/db/init.go`): what the schema splitter keeps, and
    what that means character by character. */
module SqlText {

  function Prepend(p: string, segments: seq<string>): (r: seq<string>)
    requires segments != []
    ensures |r| == |segments|
  {
    [p + segments[0]] + segments[1..]
  }

  /** unicode.IsSpace. */
  predicate IsSpace(c: char) {
    || '\t' <= c <= '\r' || c == ' ' || c == '\U{0085}' || c == '\U{00A0}' || c == '\U{1680}'
    || '\U{2000}' <= c <= '\U{200A}' || c == '\U{2028}' || c == '\U{2029}' || c == '\U{202F}'
    || c == '\U{205F}' || c == '\U{3000}'
  }

  function TrimLeft(s: string): (r: string)
    ensures |r| <= |s|
    ensures |r| == |s| ==> r == s
    ensures r != [] ==> !IsSpace(r[0])
  {
    if s != [] && IsSpace(s[0]) then TrimLeft(s[1..]) else s
  }

  function TrimRight(s: string): (r: string)
    ensures r <= s
    ensures r != [] ==> !IsSpace(r[|r| - 1])
  {
    if s != [] && IsSpace(s[|s| - 1]) then TrimRight(s[..|s| - 1]) else s
  }

  function Trim(s: string): string {
    TrimRight(TrimLeft(s))
  }

  lemma TrimmedEnds(s: string)
    requires Trim(s) == s
    ensures TrimLeft(s) == s && TrimRight(s) == s
  {
  }

  function Lines(s: string): (r: seq<string>)
    ensures r != []
  {
    if s == [] then [[]]
    else if s[0] == '\n' then [[]] + Lines(s[1..])
    else Prepend([s[0]], Lines(s[1..]))
  }

  predicate IsCommentLine(line: string) {
    Trim(line) == [] || "--" <= Trim(line)
  }

  predicate AllComments(lines: seq<string>) {
    forall i :: 0 <= i < |lines| ==> IsCommentLine(lines[i])
  }

  predicate IsCommentOnly(s: string) {
    AllComments(Lines(s))
  }

  method IsSQLCommentOnly(s: string) returns (r: bool)
    ensures r == IsCommentOnly(s) == !HasCode(s)
  {
    CommentOnlyExactly(s);
    var lines := Lines(s);
    for i := 0 to |lines|
      invariant forall k :: 0 <= k < i ==> IsCommentLine(lines[k])
    {
      var line := Trim(lines[i]);
      if line == [] || "--" <= line {
        continue;
      }
      return false;
    }
    return true;
  }

  // ---------------------------------------------------------------- trimming, character by character

  ghost predicate AllSpace(s: string, from: nat, to: nat)
    requires from <= to <= |s|
  {
    forall j :: from <= j < to ==> IsSpace(s[j])
  }

  lemma {:induction false} TrimLeftIsSuffix(s: string) returns (k: nat)
    ensures k <= |s| && TrimLeft(s) == s[k..] && AllSpace(s, 0, k)
    ensures k < |s| ==> !IsSpace(s[k])
  {
    if s != [] && IsSpace(s[0]) {
      k := TrimLeftIsSuffix(s[1..]);
      k := k + 1;
    } else {
      k := 0;
    }
  }

  lemma {:induction false} TrimRightIsPrefix(s: string)
    ensures AllSpace(s, |TrimRight(s)|, |s|)
  {
    if s != [] && IsSpace(s[|s| - 1]) {
      TrimRightIsPrefix(s[..|s| - 1]);
    }
  }

  lemma {:induction false} TrimRightStops(s: string, k: nat)
    requires k < |s| && !IsSpace(s[k])
    ensures |TrimRight(s)| > k
  {
    if k < |s| - 1 && IsSpace(s[|s| - 1]) {
      TrimRightStops(s[..|s| - 1], k);
    }
  }

  /** Trimming cuts a text at its first and last visible characters. */
  lemma TrimIsMiddle(s: string) returns (from: nat, to: nat)
    ensures from <= to <= |s| && Trim(s) == s[from..to]
    ensures AllSpace(s, 0, from) && AllSpace(s, to, |s|)
    ensures from < to ==> !IsSpace(s[from]) && !IsSpace(s[to - 1])
  {
    from := TrimLeftIsSuffix(s);
    var rest := s[from..];
    TrimRightIsPrefix(rest);
    to := from + |TrimRight(rest)|;
    assert Trim(s) == rest[..|TrimRight(rest)|];
    forall j | to <= j < |s| ensures IsSpace(s[j]) {
      assert rest[j - from] == s[j];
    }
  }

  // ---------------------------------------------------------------- where a text has code

  /** At `k` stands the first visible character of the line that starts at `i`. */
  ghost predicate FirstVisible(s: string, i: nat, k: nat) {
    && i <= k < |s| && (i == 0 || s[i - 1] == '\n') && !IsSpace(s[k])
    && (forall j :: i <= j < k ==> IsSpace(s[j]) && s[j] != '\n')
  }

  predicate OpensComment(s: string, k: nat) {
    k + 1 < |s| && s[k] == '-' && s[k + 1] == '-'
  }

  ghost predicate CodeAt(s: string, i: nat, k: nat) {
    FirstVisible(s, i, k) && !OpensComment(s, k)
  }

  /** Some line's first visible character does not open a comment. */
  ghost predicate HasCode(s: string) {
    exists i: nat, k: nat :: CodeAt(s, i, k)
  }

  function LineEnd(s: string): (n: nat)
    ensures n <= |s| && (n < |s| ==> s[n] == '\n')
    ensures forall j :: 0 <= j < n ==> s[j] != '\n'
  {
    if s == [] || s[0] == '\n' then 0 else LineEnd(s[1..]) + 1
  }

  lemma {:induction false} LinesSplit(s: string)
    ensures var n := LineEnd(s);
      Lines(s) == [s[..n]] + (if n == |s| then [] else Lines(s[n + 1..]))
  {
    if s != [] && s[0] != '\n' {
      var n, tail := LineEnd(s), s[1..];
      LinesSplit(tail);
      assert [s[0]] + tail[..n - 1] == s[..n];
      assert n < |s| ==> tail[n..] == s[n + 1..];
    }
  }

  lemma CommentLineExactly(line: string)
    requires forall j :: 0 <= j < |line| ==> line[j] != '\n'
    ensures IsCommentLine(line) <==> !HasCode(line)
  {
    var k := TrimLeftIsSuffix(line);
    if k < |line| {
      var rest := line[k..];
      assert FirstVisible(line, 0, k) && rest[0] == line[k];
      TrimRightStops(rest, 0);
      if OpensComment(line, k) {
        assert rest[1] == '-';
        TrimRightStops(rest, 1);
      } else {
        assert CodeAt(line, 0, k);
      }
    } else {
      assert Trim(line) == [];
    }
  }

  lemma CodeInFirstLine(s: string, i: nat, k: nat)
    requires CodeAt(s, i, k)
    ensures var n := LineEnd(s);
      if i == 0 then CodeAt(s[..n], i, k) else n < |s| && i > n && CodeAt(s[n + 1..], i - n - 1, k - n - 1)
  {
    var n := LineEnd(s);
    if i == 0 {
      assert k >= n ==> n < |s|;
    } else {
      assert i - 1 >= n;
    }
  }

  lemma CodeInStart(s: string, i: nat, k: nat, n: nat)
    requires n <= |s| && (n < |s| ==> s[n] == '\n') && CodeAt(s[..n], i, k)
    ensures CodeAt(s, i, k)
  {
    assert !OpensComment(s[..n], k) && k < n;
  }

  lemma CodeInRest(s: string, i: nat, k: nat, m: nat)
    requires 0 < m <= |s| && s[m - 1] == '\n' && CodeAt(s[m..], i, k)
    ensures CodeAt(s, i + m, k + m)
  {
    forall j | i + m <= j < k + m ensures IsSpace(s[j]) && s[j] != '\n' {
      assert s[j] == s[m..][j - m];
    }
  }

  lemma CodeByLine(s: string, n: nat)
    requires n == LineEnd(s)
    ensures HasCode(s) <==> HasCode(s[..n]) || (n < |s| && HasCode(s[n + 1..]))
  {
    if HasCode(s) {
      var i: nat, k: nat :| CodeAt(s, i, k);
      CodeInFirstLine(s, i, k);
    } else if HasCode(s[..n]) {
      var i: nat, k: nat :| CodeAt(s[..n], i, k);
      CodeInStart(s, i, k, n);
      assert false;
    } else if n < |s| && HasCode(s[n + 1..]) {
      var i: nat, k: nat :| CodeAt(s[n + 1..], i, k);
      CodeInRest(s, i, k, n + 1);
      assert false;
    }
  }

  lemma FirstLineCounts(first: string, rest: seq<string>)
    ensures AllComments([first] + rest) <==> IsCommentLine(first) && AllComments(rest)
  {
    var lines := [first] + rest;
    assert lines[0] == first && forall i :: 0 <= i < |rest| ==> lines[i + 1] == rest[i];
  }

  /** A text is comment-only exactly when it has no code. */
  lemma {:induction false} CommentOnlyExactly(s: string)
    ensures IsCommentOnly(s) <==> !HasCode(s)
    decreases |s|
  {
    var n := LineEnd(s);
    LinesSplit(s);
    CodeByLine(s, n);
    CommentLineExactly(s[..n]);
    FirstLineCounts(s[..n], if n == |s| then [] else Lines(s[n + 1..]));
    if n < |s| {
      CommentOnlyExactly(s[n + 1..]);
    }
  }

  /** A visible character with nothing visible before it on its line is the first of some line. */
  lemma FindLineStart(s: string, from: nat, k: nat) returns (i: nat)
    requires from <= k < |s| && AllSpace(s, 0, k) && !IsSpace(s[k])
    requires forall j :: from <= j < k ==> s[j] != '\n'
    ensures FirstVisible(s, i, k)
  {
    i := from;
    while i > 0 && s[i - 1] != '\n'
      invariant i <= from && forall j :: i <= j < k ==> s[j] != '\n'
    {
      i := i - 1;
    }
  }

  /** Trimming away blanks uncovers no code. */
  lemma TrimmedCodeIsCode(s: string)
    requires HasCode(Trim(s))
    ensures HasCode(s)
  {
    var from, to := TrimIsMiddle(s);
    var i: nat, k: nat :| CodeAt(Trim(s), i, k);
    assert forall j :: 0 <= j < to - from ==> Trim(s)[j] == s[from + j];
    var start := from + i;
    if i == 0 {
      start := FindLineStart(s, from, from + k);
    }
    if OpensComment(s, from + k) {
      assert !IsSpace(s[from + k + 1]);
      assert OpensComment(Trim(s), k);
    }
    assert CodeAt(s, start, from + k);
  }
}
