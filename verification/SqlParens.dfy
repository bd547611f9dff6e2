/** `_find_matching_paren`, `_balanced` and the peel loop of `_normalize_expr`. */
module SqlParens {
  import opened Basics
  import opened PyStrings
  import opened SqlScanner
  import opened SqlSplitting

  // ----- _find_matching_paren -----

  function ParenDepth(s: string, depth: int, mode: Mode): int
    requires s != ""
  {
    if mode != Plain then depth
    else if s[0] == '(' then depth + 1
    else if s[0] == ')' then depth - 1
    else depth
  }

  /** The offset of the closing parenthesis at which the depth comes back to 0. */
  function Match(s: string, depth: int, mode: Mode): Option<nat>
    decreases |s|
  {
    if s == "" then None
    else if mode == Plain && s[0] == ')' && depth - 1 == 0 then Some(0)
    else
      var n := StepLength(s, mode);
      Offset(Match(s[n..], ParenDepth(s, depth, mode), StepMode(s, mode)), n)
  }

  function Offset(found: Option<nat>, start: nat): Option<nat> {
    match found
    case None => None
    case Some(k) => Some(start + k)
  }

  /** The answer `whole` is what the scan from `index` on finds. */
  ghost predicate Searching(whole: Option<nat>, text: string, index: nat, depth: int, mode: Mode) {
    index <= |text| && whole == Offset(Match(text[index..], depth, mode), index)
  }

  lemma MatchAdvance(rest: string, depth: int, mode: Mode, rest': string)
    requires rest != "" && !(mode == Plain && rest[0] == ')' && depth - 1 == 0)
    requires rest' == rest[StepLength(rest, mode)..]
    ensures Match(rest, depth, mode)
            == Offset(Match(rest', ParenDepth(rest, depth, mode), StepMode(rest, mode)), StepLength(rest, mode))
  {
  }

  lemma SearchStep(whole: Option<nat>, text: string, index: nat, depth: int, mode: Mode, index': nat, depth': int,
                   mode': Mode)
    requires Searching(whole, text, index, depth, mode) && index < |text|
    requires !(mode == Plain && text[index] == ')' && depth - 1 == 0)
    requires index' == index + StepLength(text[index..], mode)
    requires depth' == ParenDepth(text[index..], depth, mode) && mode' == StepMode(text[index..], mode)
    ensures Searching(whole, text, index', depth', mode')
  {
    hide Match;
    var rest := text[index..];
    assert text[index'..] == rest[StepLength(rest, mode)..];
    MatchAdvance(rest, depth, mode, text[index'..]);
  }

  lemma SearchFound(whole: Option<nat>, text: string, index: nat, depth: int)
    requires Searching(whole, text, index, depth, Plain) && index < |text|
    requires text[index] == ')' && depth - 1 == 0
    ensures whole == Some(index)
  {
    assert text[index..][0] == ')';
  }

  /** `None` is the `ValueError` for an unbalanced fragment. */
  method FindMatchingParen(text: string, openIndex: nat) returns (close: Option<nat>)
    ensures openIndex >= |text| ==> close == None
    ensures openIndex < |text| ==> close == Offset(Match(text[openIndex..], 0, Plain), openIndex)
  {
    if openIndex >= |text| {
      return None;
    }
    var depth := 0;
    var mode := Plain;
    var index := openIndex;
    ghost var whole := Offset(Match(text[openIndex..], 0, Plain), openIndex);
    while index < |text|
      invariant Searching(whole, text, index, depth, mode)
      decreases |text| - index
    {
      if mode == Plain && text[index] == ')' && depth - 1 == 0 {
        SearchFound(whole, text, index, depth);
        return Some(index);
      }
      var rest := text[index..];
      var depth', mode', index' := ParenDepth(rest, depth, mode), StepMode(rest, mode), index + StepLength(rest, mode);
      SearchStep(whole, text, index, depth, mode, index', depth', mode');
      depth, mode, index := depth', mode', index';
    }
    return None;
  }

  lemma {:induction false} MatchIsClose(s: string, depth: int, mode: Mode)
    requires Match(s, depth, mode).Some?
    ensures var k := Match(s, depth, mode).value; k < |s| && s[k] == ')'
    decreases |s|
  {
    if !(mode == Plain && s[0] == ')' && depth - 1 == 0) {
      MatchIsClose(s[StepLength(s, mode)..], ParenDepth(s, depth, mode), StepMode(s, mode));
    }
  }

  // ----- Splitting what lies between matching parentheses -----

  /** `Match` and the split scan keep the same depth, so at the closing parenthesis the split scan is back at its
    * start state. */
  lemma {:induction false} MatchedInsideCloses(inner: string, r: string, s: string, depth: nat, mode: Mode)
    requires Break(r) && s == inner + r
    requires Match(s, depth + 1, mode) == Some(|inner|)
    ensures End(inner, State(depth, mode)) == START
    decreases |inner|
  {
    if inner == "" {
      assert s == r;
      MatchedHere(r, depth, mode);
    } else {
      MatchedStep(inner, r, s, depth, mode);
    }
  }

  lemma MatchedHere(r: string, depth: nat, mode: Mode)
    requires Match(r, depth + 1, mode) == Some(0)
    ensures State(depth, mode) == START
  {
  }

  /** The two scans take the same step. */
  lemma ScansStepTogether(inner: string, s: string, depth: nat, mode: Mode, s': string, st: State)
    requires inner != "" && s != "" && s[0] == inner[0]
    requires StepLength(s, mode) == StepLength(inner, mode) && StepMode(s, mode) == StepMode(inner, mode)
    requires !(mode == Plain && inner[0] == ')' && depth == 0)
    requires s' == s[StepLength(s, mode)..] && st == Step(inner, State(depth, mode))
    ensures Match(s, depth + 1, mode) == Offset(Match(s', st.depth + 1, st.mode), StepLength(s, mode))
  {
    MatchAdvance(s, depth + 1, mode, s');
  }

  lemma NotClosedYet(s: string, depth: nat, mode: Mode, k: nat)
    requires Match(s, depth + 1, mode) == Some(k) && k > 0
    ensures s != "" && !(mode == Plain && s[0] == ')' && depth == 0)
  {
  }

  lemma EndAdvance(inner: string, st: State, inner': string)
    requires inner != "" && inner' == inner[StepLength(inner, st.mode)..]
    ensures End(inner, st) == End(inner', Step(inner, st))
  {
  }

  lemma {:induction false} MatchedStep(inner: string, r: string, s: string, depth: nat, mode: Mode)
    requires inner != "" && Break(r) && s == inner + r
    requires Match(s, depth + 1, mode) == Some(|inner|)
    ensures End(inner, State(depth, mode)) == START
    decreases |inner|, 0
  {
    hide Match, End;
    NotClosedYet(s, depth, mode, |inner|);
    var n := StepLength(inner, mode);
    StepLocal(inner, r, mode);
    AppendDrop(inner, r, n);
    var inner', s', st := inner[n..], s[n..], Step(inner, State(depth, mode));
    ScansStepTogether(inner, s, depth, mode, s', st);
    EndAdvance(inner, State(depth, mode), inner');
    MatchedInsideCloses(inner', r, s', st.depth, st.mode);
  }

  /** The scan of the last raw piece ends as the scan of the whole text does. */
  lemma {:induction false} LastPieceEnds(s: string)
    ensures End(RawSplit(s)[|RawSplit(s)| - 1], START) == End(s, START)
    decreases |s|
  {
    hide Cut, End;
    var k := Cut(s, START);
    if k < |s| {
      CutSound(s, START);
      LastPieceEnds(s[k + 1..]);
      EndAfterComma(s[..k], s[k + 1..], s);
    }
  }

  lemma EndAfterComma(piece: string, rest: string, s: string)
    requires |piece| < |s| && s[..|piece|] == piece && s[|piece|] == ',' && s[|piece| + 1..] == rest
    requires SelfContained(piece)
    ensures End(s, START) == End(rest, START)
  {
    var r := s[|piece|..];
    assert s == piece + r;
    ScanThrough(piece, r, START);
    assert r[1..] == rest && StepLength(r, Plain) == 1 && Step(r, START) == START;
  }

  lemma MatchOpen(expr: string, rest: string)
    requires expr != "" && expr[0] == '(' && rest == expr[1..]
    ensures Match(expr, 0, Plain) == Offset(Match(rest, 1, Plain), 1)
  {
    MatchAdvance(expr, 0, Plain, rest);
  }

  /** Every value of a text whose scan ends at the start state is self-contained, the last one included. */
  lemma ClosedTextSplitsCleanly(text: string, i: nat)
    requires End(text, START) == START
    requires i < |Split(text)|
    ensures SelfContained(Split(text)[i])
  {
    LastPieceEnds(text);
    RawSplitSeparable(text);
    SplitTrimsRaw(text);
    TrimKeepsScan(RawSplit(text)[i]);
  }

  /** The column list of a table, an index or a function: what lies between a parenthesis and its match splits into
    * self-contained pieces only. `inside`, `close` and what follows are the text after the open parenthesis. */
  lemma MatchedListSplitsCleanly(expr: string, inside: string, r: string, i: nat)
    requires expr == "(" + (inside + r) && r != "" && r[0] == ')'
    requires Match(expr, 0, Plain) == Some(1 + |inside|)
    requires i < |Split(inside)|
    ensures SelfContained(Split(inside)[i])
  {
    hide Match, End, Cut, Split;
    MatchOpen(expr, inside + r);
    MatchedInsideCloses(inside, r, inside + r, 0, Plain);
    ClosedTextSplitsCleanly(inside, i);
  }

  // ----- _balanced -----

  function NextQuote(c: char, quote: Option<QuoteChar>): Option<QuoteChar> {
    if quote.Some? then (if c == quote.value then None else quote)
    else if IsQuote(c) then Some(c)
    else None
  }

  /** The rest of the scan of `_balanced`, which knows quotes but no dollar tags. */
  function Balance(s: string, depth: nat, quote: Option<QuoteChar>): bool
    decreases |s|
  {
    if s == "" then depth == 0 && quote == None
    else if quote == None && s[0] == '(' then Balance(s[1..], depth + 1, None)
    else if quote == None && s[0] == ')' then depth > 0 && Balance(s[1..], depth - 1, None)
    else Balance(s[1..], depth, NextQuote(s[0], quote))
  }

  method Balanced(value: string) returns (balanced: bool)
    ensures balanced == Balance(value, 0, None)
  {
    var depth := 0;
    var quote: Option<QuoteChar> := None;
    assert value[0..] == value;
    for index := 0 to |value|
      invariant depth >= 0
      invariant Balance(value, 0, None) == Balance(value[index..], depth, quote)
    {
      var c := value[index];
      assert value[index..][0] == c && value[index..][1..] == value[index + 1..];
      if quote.Some? {
        if c == quote.value {
          quote := None;
        }
        continue;
      }
      if IsQuote(c) {
        quote := Some(c);
        continue;
      }
      if c == '(' {
        depth := depth + 1;
      } else if c == ')' {
        depth := depth - 1;
        if depth < 0 {
          return false;
        }
      }
    }
    balanced := depth == 0 && quote == None;
  }

  lemma TailAppend(inner: string, close: string, s: string)
    requires inner != "" && s == inner + close
    ensures s != "" && s[0] == inner[0] && s[1..] == inner[1..] + close
  {
  }

  predicate Parenthesized(expr: string) {
    |expr| >= 2 && expr[0] == '(' && expr[|expr| - 1] == ')'
  }

  function Inside(expr: string): string
    requires |expr| >= 2
  {
    expr[1..|expr| - 1]
  }

  // ----- The peel -----

  predicate Peelable(expr: string) {
    Parenthesized(expr) && Balance(Inside(expr), 0, None)
  }

  /** The loop of `_normalize_expr`. */
  function Peel(expr: string): string
    decreases |expr|
  {
    if Peelable(expr) then StripShrinks(Inside(expr)); Peel(Strip(Inside(expr))) else expr
  }

  method PeelParens(value: string) returns (expr: string)
    ensures expr == Peel(value)
  {
    expr := value;
    while true
      invariant Peel(expr) == Peel(value)
      decreases |expr|
    {
      if !Parenthesized(expr) {
        return;
      }
      var balanced := Balanced(Inside(expr));
      if !balanced {
        return;
      }
      StripShrinks(Inside(expr));
      expr := Strip(Inside(expr));
    }
  }

  /** The first parenthesis of `expr` is closed by its last character. */
  predicate Wrapped(expr: string) {
    Parenthesized(expr) && Match(expr, 0, Plain) == Some(|expr| - 1)
  }

  /** `result` is `expr` with some outer pairs of matching parentheses, and white space inside them, removed. */
  ghost predicate Unwraps(expr: string, result: string)
    decreases |expr|
  {
    result == expr
    || (Wrapped(expr) && (StripShrinks(Inside(expr)); Unwraps(Strip(Inside(expr)), result)))
  }

  // ----- Redundant parentheses do not matter -----

  /** Characters that `_balanced` passes over. */
  predicate Neutral(pad: string) {
    forall i | 0 <= i < |pad| :: pad[i] != '(' && pad[i] != ')' && !IsQuote(pad[i])
  }

  lemma NeutralFront(pad: string, x: string, depth: nat, quote: Option<QuoteChar>)
    requires pad != "" && Neutral(pad)
    ensures Balance(pad + x, depth, quote) == Balance(pad[1..] + x, depth, quote)
  {
    TailAppend(pad, x, pad + x);
  }

  /** Neutral characters do not matter, wherever they stand. */
  lemma {:induction false} BalanceSkips(pre: string, pad: string, x: string, depth: nat, quote: Option<QuoteChar>)
    requires Neutral(pad)
    ensures Balance(pre + (pad + x), depth, quote) == Balance(pre + x, depth, quote)
    decreases |pre| + |pad|
  {
    if pre == "" && pad == "" {
      assert pre + (pad + x) == pre + x;
    } else if pre == "" {
      NeutralFront(pad, x, depth, quote);
      BalanceSkips("", pad[1..], x, depth, quote);
      assert "" + (pad[1..] + x) == pad[1..] + x && "" + (pad + x) == pad + x;
    } else {
      TailAppend(pre, pad + x, pre + (pad + x));
      TailAppend(pre, x, pre + x);
      if quote == None && pre[0] == '(' {
        BalanceSkips(pre[1..], pad, x, depth + 1, None);
      } else if quote == None && pre[0] == ')' {
        if depth > 0 { BalanceSkips(pre[1..], pad, x, depth - 1, None); }
      } else {
        BalanceSkips(pre[1..], pad, x, depth, NextQuote(pre[0], quote));
      }
    }
  }

  lemma SpaceIsNeutral(pad: string)
    requires AllSpace(pad)
    ensures Neutral(pad)
  {
    forall i | 0 <= i < |pad| ensures pad[i] != '(' && pad[i] != ')' && !IsQuote(pad[i]) {
      assert IsSpace(pad[i]);
    }
  }

  lemma PaddedStaysBalanced(left: string, expr: string, right: string)
    requires Neutral(left) && Neutral(right)
    ensures Balance(left + (expr + right), 0, None) == Balance(expr, 0, None)
  {
    hide Balance;
    BalanceSkips("", left, expr + right, 0, None);
    assert "" + (left + (expr + right)) == left + (expr + right) && "" + (expr + right) == expr + right;
    BalanceSkips(expr, right, "", 0, None);
    assert right + "" == right && expr + "" == expr;
  }

  lemma PeelOnce(wrapped: string, inner: string)
    requires wrapped == "(" + inner + ")" && Balance(inner, 0, None)
    ensures Peel(wrapped) == Peel(Strip(inner))
  {
    hide Balance, Strip;
    assert Inside(wrapped) == inner;
    StripShrinks(inner);
  }

  /** Adding a redundant outer pair of parentheses, with any white space, does not change the normalised form of a
    * balanced expression. */
  lemma PeelIgnoresRedundantPair(expr: string, left: string, right: string)
    requires Trimmed(expr) && Balance(expr, 0, None)
    requires AllSpace(left) && AllSpace(right)
    ensures Peel("(" + left + expr + right + ")") == Peel(expr)
  {
    hide Balance, Strip, Trimmed, Peel;
    var inner := left + (expr + right);
    assert "(" + left + expr + right + ")" == "(" + inner + ")";
    SpaceIsNeutral(left);
    SpaceIsNeutral(right);
    PaddedStaysBalanced(left, expr, right);
    PeelOnce("(" + inner + ")", inner);
    StripPadded(left, expr, right);
  }
}
