/** Reading the revision list that `alembic current` prints. */
module AlembicOutput {
  import opened Basics
  import opened PyStrings

  function FirstWord(s: string): string {
    if s == "" || s[0] == ' ' then "" else [s[0]] + FirstWord(s[1..])
  }

  /** `_parse_current_revision` on the lines of the output. */
  function Revisions(lines: seq<string>): seq<string> {
    if lines == [] then []
    else
      var revision := FirstWord(Strip(lines[|lines| - 1]));
      Revisions(lines[..|lines| - 1]) + if revision == "" then [] else [revision]
  }

  // ----- Lines -----

  /** The line boundaries of `str.splitlines`. */
  const BREAKS: set<char> :=
    {'\n', '\U{b}', '\U{c}', '\r', '\U{1c}', '\U{1d}', '\U{1e}', '\U{85}', '\U{2028}', '\U{2029}'}

  predicate IsBreak(c: char) {
    c in BREAKS
  }

  /** `str.splitlines`. */
  function SplitLines(s: string): seq<string>
    decreases |s|
  {
    var k := FirstIn(s, BREAKS);
    if s == "" then []
    else if k == |s| then [s]
    else if s[k] == '\r' && k + 1 < |s| && s[k + 1] == '\n' then [s[..k]] + SplitLines(s[k + 2..])
    else [s[..k]] + SplitLines(s[k + 1..])
  }

  method ParseCurrentRevision(stdout: string) returns (revisions: seq<string>)
    ensures revisions == Revisions(SplitLines(Strip(stdout)))
  {
    revisions := [];
    var lines := SplitLines(Strip(stdout));
    for n := 0 to |lines|
      invariant revisions == Revisions(lines[..n])
    {
      assert lines[..n + 1][..n] == lines[..n];
      var revision := FirstWord(Strip(lines[n]));
      if revision != "" {
        revisions := revisions + [revision];
      }
    }
    assert lines[..|lines|] == lines;
  }

  /** What a failed upgrade is rolled back to. */
  function RollbackTarget(revisions: seq<string>): string {
    if revisions == [] then "base" else revisions[0]
  }

  predicate IsRevision(s: string) {
    s != "" && forall i | 0 <= i < |s| :: !IsSpace(s[i])
  }

  lemma {:induction false} FirstWordIs(s: string, word: string)
    requires ' ' !in word && word <= s
    requires |word| == |s| || s[|word|] == ' '
    ensures FirstWord(s) == word
    decreases |word|
  {
    if word != "" {
      assert s[0] == word[0];
      FirstWordIs(s[1..], word[1..]);
      assert word == [word[0]] + word[1..];
    }
  }

  lemma RevisionIsFirstWord(revision: string, note: string)
    requires IsRevision(revision) && (note == "" || note[0] == ' ')
    ensures FirstWord(Strip(revision + note)) == revision
  {
    hide FirstWord, Strip;
    var line := revision + note;
    var left, right := StripSplits(line);
    var core := Strip(line);
    assert line[0] == revision[0] && !IsSpace(revision[0]);
    assert line == core + right;
    assert |core| < |line| ==> IsSpace(right[0]) && line[|core|] == right[0];
    assert forall i | 0 <= i < |revision| :: line[i] == revision[i] && !IsSpace(revision[i]);
    assert core == line[..|core|];
    assert revision == line[..|revision|];
    FirstWordIs(core, revision);
  }

  lemma {:induction false} FirstWordsAreRevisions(lines: seq<string>, revisions: seq<string>)
    requires Lists(lines, revisions)
    ensures Revisions(lines) == revisions
    decreases |lines|
  {
    hide FirstWord, Strip, Trimmed, IsBreak;
    if lines != [] {
      var n := |lines| - 1;
      FirstWordsAreRevisions(lines[..n], revisions[..n]);
      assert IsEntry(lines[n], revisions[n]);
      var note := lines[n][|revisions[n]|..];
      assert lines[n] == revisions[n] + note;
      RevisionIsFirstWord(revisions[n], note);
      assert revisions == revisions[..n] + [revisions[n]];
    }
  }

  // ----- The output of `alembic current` -----

  /** A printed line: a revision and perhaps a note such as ` (head)`. */
  predicate IsEntry(line: string, revision: string) {
    && IsRevision(revision) && revision <= line
    && (|line| == |revision| || line[|revision|] == ' ')
    && Trimmed(line) && forall i | 0 <= i < |line| :: !IsBreak(line[i])
  }

  predicate Lists(lines: seq<string>, revisions: seq<string>) {
    |lines| == |revisions| && forall i | 0 <= i < |lines| :: IsEntry(lines[i], revisions[i])
  }

  /** The text printed: every line ended by a newline. */
  function Output(lines: seq<string>): string {
    if lines == [] then "" else lines[0] + "\n" + Output(lines[1..])
  }

  /** The same text without the last newline. */
  function JoinLines(lines: seq<string>): string {
    if lines == [] then ""
    else if |lines| == 1 then lines[0]
    else lines[0] + "\n" + JoinLines(lines[1..])
  }

  lemma {:induction false} OutputIsJoined(lines: seq<string>)
    requires lines != []
    ensures Output(lines) == JoinLines(lines) + "\n"
  {
    if |lines| == 1 {
      assert Output(lines[1..]) == "";
      assert lines[0] + "\n" + "" == lines[0] + "\n";
    } else {
      OutputIsJoined(lines[1..]);
      assert lines[0] + "\n" + (JoinLines(lines[1..]) + "\n") == lines[0] + "\n" + JoinLines(lines[1..]) + "\n";
    }
  }

  predicate Solid(line: string) {
    line != "" && Trimmed(line) && forall i | 0 <= i < |line| :: !IsBreak(line[i])
  }

  lemma {:induction false} JoinedIsTrimmed(lines: seq<string>)
    requires lines != [] && forall i | 0 <= i < |lines| :: Solid(lines[i])
    ensures JoinLines(lines) != "" && Trimmed(JoinLines(lines))
  {
    assert Solid(lines[0]);
    if |lines| > 1 {
      JoinedIsTrimmed(lines[1..]);
      TrimmedAround(lines[0], "\n", JoinLines(lines[1..]));
    }
  }

  lemma TrimmedAround(a: string, mid: string, b: string)
    requires a != "" && Trimmed(a) && b != "" && Trimmed(b)
    ensures a + mid + b != "" && Trimmed(a + mid + b)
  {
    var s := a + mid + b;
    assert s[0] == a[0] && s[|s| - 1] == b[|b| - 1];
  }

  lemma LineFront(line: string, rest: string)
    requires Solid(line)
    ensures SplitLines(line) == [line]
    ensures SplitLines(line + "\n" + rest) == [line] + SplitLines(rest)
  {
    FirstInIs(line, BREAKS, |line|);
    var s := line + "\n" + rest;
    assert s[|line|] == '\n' && s[..|line|] == line && s[|line| + 1..] == rest;
    FirstInIs(s, BREAKS, |line|);
  }

  /** Any of the ten line boundaries ends a line, and a carriage return with a line feed is one boundary. */
  lemma LineEnds(line: string, c: char, rest: string)
    requires forall i | 0 <= i < |line| :: !IsBreak(line[i])
    requires c in {'\n', '\U{b}', '\U{c}', '\r', '\U{1c}', '\U{1d}', '\U{1e}', '\U{85}', '\U{2028}', '\U{2029}'}
    ensures SplitLines(line + "\r\n" + rest) == [line] + SplitLines(rest)
    ensures !(c == '\r' && rest != "" && rest[0] == '\n') ==> SplitLines(line + [c] + rest) == [line] + SplitLines(rest)
  {
    var s, t := line + [c] + rest, line + "\r\n" + rest;
    assert s[..|line|] == line && s[|line|] == c && s[|line| + 1..] == rest;
    assert t[..|line|] == line && t[|line|] == '\r' && t[|line| + 1] == '\n' && t[|line| + 2..] == rest;
    FirstInIs(s, BREAKS, |line|);
    FirstInIs(t, BREAKS, |line|);
    assert |s| > |line| + 1 ==> s[|line| + 1] == rest[0];
  }

  lemma {:induction false} SplitJoined(lines: seq<string>)
    requires lines != [] && forall i | 0 <= i < |lines| :: Solid(lines[i])
    ensures SplitLines(JoinLines(lines)) == lines
  {
    hide SplitLines;
    assert Solid(lines[0]);
    if |lines| > 1 {
      SplitJoined(lines[1..]);
      LineFront(lines[0], JoinLines(lines[1..]));
      assert lines == [lines[0]] + lines[1..];
    } else {
      LineFront(lines[0], "");
    }
  }

  lemma SplitOutput(lines: seq<string>)
    requires forall i | 0 <= i < |lines| :: Solid(lines[i])
    ensures SplitLines(Strip(Output(lines))) == lines
  {
    hide SplitLines, Strip, Trimmed;
    if lines == [] {
      StripNothing();
    } else {
      OutputIsJoined(lines);
      JoinedIsTrimmed(lines);
      var core := JoinLines(lines);
      assert "" + (core + "\n") == core + "\n";
      assert AllSpace("\n") && AllSpace("");
      StripPadded("", core, "\n");
      SplitJoined(lines);
    }
  }

  lemma StripNothing()
    ensures SplitLines(Strip("")) == []
  {
  }

  /** Printed output that lists revisions one a line, each possibly followed by a note such as ` (head)`, is parsed to
    * exactly those revisions in order. */
  lemma ParseListsRevisions(lines: seq<string>, revisions: seq<string>)
    requires Lists(lines, revisions)
    ensures Revisions(SplitLines(Strip(Output(lines)))) == revisions
  {
    hide SplitLines, Strip;
    forall i | 0 <= i < |lines| ensures Solid(lines[i]) {
      assert IsEntry(lines[i], revisions[i]);
    }
    SplitOutput(lines);
    FirstWordsAreRevisions(lines, revisions);
  }

  // ----- A linear history -----

  const BASE := "base"

  /** The revisions of a linear history, oldest first; revision `k` is the state after the first `k` of them. */
  predicate IsHistory(history: seq<string>) {
    && (forall i | 0 <= i < |history| :: IsRevision(history[i]) && history[i] != BASE)
    && (forall i, j | 0 <= i < j < |history| :: history[i] != history[j])
  }

  /** What alembic calls the state after the first `k` revisions. */
  function Name(history: seq<string>, k: nat): string
    requires k <= |history|
  {
    if k == 0 then BASE else history[k - 1]
  }

  /** The state that a downgrade to `name` leads to. */
  function Position(history: seq<string>, name: string): Option<nat> {
    if name == BASE then Some(0)
    else if history == [] then None
    else if history[|history| - 1] == name then Some(|history|)
    else Position(history[..|history| - 1], name)
  }

  lemma {:induction false} PositionOfName(history: seq<string>, k: nat)
    requires IsHistory(history) && k <= |history|
    ensures Position(history, Name(history, k)) == Some(k)
  {
    if 0 < k < |history| {
      var front := history[..|history| - 1];
      assert history[k - 1] != history[|history| - 1];
      PositionOfName(front, k);
    }
  }

  /** The lines that `alembic current` prints: none at base, else the revision, marked if it is the head. */
  function Printed(history: seq<string>, k: nat, head: nat): seq<string>
    requires k <= |history|
  {
    if k == 0 then [] else [history[k - 1] + if k == head then " (head)" else ""]
  }

  /** What a failed upgrade is rolled back to, if `alembic current` ran after the first `k` revisions. */
  function ParsedTarget(history: seq<string>, k: nat, head: nat): string
    requires k <= |history|
  {
    RollbackTarget(Revisions(SplitLines(Strip(Output(Printed(history, k, head))))))
  }

  /** The target parsed from the output names the revision at which it was printed. */
  lemma ParsedTargetIsCurrent(history: seq<string>, k: nat, head: nat)
    requires IsHistory(history) && k <= |history|
    ensures ParsedTarget(history, k, head) == Name(history, k) == if k == 0 then "base" else history[k - 1]
    ensures Position(history, ParsedTarget(history, k, head)) == Some(k)
  {
    hide SplitLines, Strip, Revisions, Position;
    if k > 0 { EntryIsEntry(history[k - 1], k == head); }
    ParseListsRevisions(Printed(history, k, head), if k == 0 then [] else [history[k - 1]]);
    PositionOfName(history, k);
  }

  lemma EntryIsEntry(revision: string, marked: bool)
    requires IsRevision(revision)
    ensures IsEntry(revision + if marked then " (head)" else "", revision)
  {
    var line := revision + if marked then " (head)" else "";
    assert line[0] == revision[0] && !IsSpace(revision[0]);
    assert marked ==> line[|line| - 1] == ')';
    assert !marked ==> line == revision && !IsSpace(revision[|revision| - 1]);
    forall i | 0 <= i < |line| ensures !IsBreak(line[i]) {
      if i < |revision| { assert line[i] == revision[i] && !IsSpace(revision[i]); }
    }
  }
}
