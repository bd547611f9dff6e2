/** The hand-written SQL scanners of the schema audit: `_split_csv`, `_find_matching_paren`, `_balanced` and the
  * parenthesis peel of `_normalize_expr`. */
module SqlScanner {
  import opened PyStrings

  // ----- Dollar tags -----

  predicate IsIdentStart(c: char) {
    'A' <= c <= 'Z' || 'a' <= c <= 'z' || c == '_'
  }

  predicate IsIdentChar(c: char) {
    IsIdentStart(c) || '0' <= c <= '9'
  }

  predicate IsTagChar(c: char) {
    c == '$' || IsIdentChar(c)
  }

  function IdentLength(s: string): (n: nat)
    ensures n <= |s|
    ensures forall i | 0 <= i < n :: IsIdentChar(s[i])
    ensures n < |s| ==> !IsIdentChar(s[n])
  {
    if s == "" || !IsIdentChar(s[0]) then 0 else 1 + IdentLength(s[1..])
  }

  /** The length of the match of `\$[A-Za-z_][A-Za-z0-9_]*\$|\$\$` at the front of `s`, or 0. */
  function TagLength(s: string): (n: nat)
    ensures n <= |s| && (n == 0 || n >= 2)
    ensures forall i | 0 <= i < n :: IsTagChar(s[i])
    ensures n > 0 ==> s[0] == '$'
  {
    if |s| < 2 || s[0] != '$' then 0
    else if s[1] == '$' then 2
    else if !IsIdentStart(s[1]) then 0
    else
      var k := 1 + IdentLength(s[1..]);
      if k < |s| && s[k] == '$' then k + 1 else 0
  }

  type Tag = t: string | t != "" && t[0] == '$' && forall i | 0 <= i < |t| :: IsTagChar(t[i]) witness "$$"

  // ----- One step of the dollar-aware scanners -----

  predicate IsQuote(c: char) {
    c == '\'' || c == '"'
  }

  type QuoteChar = c: char | IsQuote(c) witness '"'

  /** The variables `quote` and `dollar_quote`, of which at most one is set. */
  datatype Mode = Plain | Quoted(quote: QuoteChar) | Dollar(tag: Tag)

  /** The number of characters that one iteration consumes. */
  function StepLength(s: string, mode: Mode): (n: nat)
    requires s != ""
    ensures 1 <= n <= |s|
  {
    match mode
    case Plain => if TagLength(s) > 0 then TagLength(s) else 1
    case Quoted(_) => 1
    case Dollar(tag) => if tag <= s then |tag| else 1
  }

  function StepMode(s: string, mode: Mode): Mode
    requires s != ""
  {
    match mode
    case Plain =>
      if TagLength(s) > 0 then Dollar(s[..TagLength(s)])
      else if IsQuote(s[0]) then Quoted(s[0])
      else Plain
    case Quoted(quote) => if s[0] == quote then Plain else mode
    case Dollar(tag) => if tag <= s then Plain else mode
  }

  datatype State = State(depth: nat, mode: Mode)

  const START := State(0, Plain)

  function Step(s: string, st: State): State
    requires s != ""
  {
    var depth :=
      if st.mode != Plain then st.depth
      else if s[0] == '(' then st.depth + 1
      else if s[0] == ')' then (if st.depth == 0 then 0 else st.depth - 1)
      else st.depth;
    State(depth, StepMode(s, st.mode))
  }

  predicate AtComma(s: string, st: State)
    requires s != ""
  {
    s[0] == ',' && st == START
  }

  /** The position of the first comma outside parentheses and quotes, or the length of `s`. */
  function Cut(s: string, st: State): (k: nat)
    ensures k <= |s|
    decreases |s|
  {
    if s == "" || AtComma(s, st) then 0
    else
      var n := StepLength(s, st.mode);
      n + Cut(s[n..], Step(s, st))
  }

  /** The scanner's variables after all of `s`. */
  function End(s: string, st: State): State
    decreases |s|
  {
    if s == "" then st else End(s[StepLength(s, st.mode)..], Step(s, st))
  }

  // ----- str.join -----

  /** `",".join(pieces)`. */
  function Join(pieces: seq<string>): string {
    if pieces == [] then ""
    else if |pieces| == 1 then pieces[0]
    else pieces[0] + "," + Join(pieces[1..])
  }

  // ----- _split_csv -----

  /** The untrimmed pieces between top-level commas, the tail included. */
  function RawSplit(s: string): (raw: seq<string>)
    ensures raw != []
    decreases |s|
  {
    var k := Cut(s, START);
    if k == |s| then [s] else [s[..k]] + RawSplit(s[k + 1..])
  }

  /** What `_split_csv` returns: the pieces trimmed, an empty tail dropped. */
  function Split(text: string): seq<string>
    decreases |text|
  {
    var k := Cut(text, START);
    if k == |text| then Tail(Strip(text))
    else [Strip(text[..k])] + Split(text[k + 1..])
  }

  function Tail(tail: string): seq<string> {
    if tail == "" then [] else [tail]
  }

  /** What is still to be appended when `current` is collected and `rest` is unread. */
  function Remaining(current: string, rest: string, st: State): seq<string> {
    var k := Cut(rest, st);
    if k == |rest| then Tail(Strip(current + rest))
    else [Strip(current + rest[..k])] + Split(rest[k + 1..])
  }

  lemma RemainingAtStart(text: string)
    ensures Remaining("", text, START) == Split(text)
  {
    hide Cut, Strip;
    var k := Cut(text, START);
    assert "" + text == text && "" + text[..k] == text[..k];
  }

  lemma RemainingAtComma(current: string, rest: string)
    requires rest != "" && AtComma(rest, START)
    ensures Remaining(current, rest, START) == [Strip(current)] + Remaining("", rest[1..], START)
  {
    assert current + rest[..0] == current;
    RemainingAtStart(rest[1..]);
  }

  lemma DropDrop(taken: string, rest: string, k: nat)
    requires k <= |rest|
    ensures (taken + rest)[|taken| + k..] == rest[k..]
  {
  }

  lemma TakeTake(current: string, taken: string, rest: string, k: nat)
    requires k <= |rest|
    ensures current + (taken + rest)[..|taken| + k] == current + taken + rest[..k]
  {
  }

  /** One iteration of the scan at `rest` consumes `taken` and leaves the variables at `next`. */
  predicate Consumes(rest: string, st: State, taken: string, next: State) {
    rest != "" && !AtComma(rest, st) && taken == rest[..StepLength(rest, st.mode)] && next == Step(rest, st)
  }

  lemma CutAdvance(rest: string, st: State, taken: string, next: State, rest': string)
    requires Consumes(rest, st, taken, next)
    requires rest == taken + rest'
    ensures Cut(rest, st) == |taken| + Cut(rest', next)
  {
    assert rest[|taken|..] == rest';
  }

  lemma RemainingStep(current: string, rest: string, st: State, taken: string, next: State, rest': string)
    requires Consumes(rest, st, taken, next)
    requires rest == taken + rest'
    ensures Remaining(current, rest, st) == Remaining(current + taken, rest', next)
  {
    hide Strip, Split, StepLength, Step;
    CutAdvance(rest, st, taken, next, rest');
    var k := Cut(rest', next);
    if k == |rest'| {
      assert current + taken + rest' == current + rest;
    } else {
      TakeTake(current, taken, rest', k);
      DropDrop(taken, rest', k + 1);
    }
  }

  /** The loop invariant of `_split_csv`. */
  ghost predicate Collecting(text: string, values: seq<string>, current: string, index: nat, st: State) {
    index <= |text| && Split(text) == values + Remaining(current, text[index..], st)
  }

  lemma Regroup<T>(front: seq<T>, x: T, back: seq<T>)
    ensures front + ([x] + back) == front + [x] + back
  {
  }

  lemma CollectComma(text: string, values: seq<string>, current: string, index: nat)
    requires Collecting(text, values, current, index, START) && index < |text| && AtComma(text[index..], START)
    ensures Collecting(text, values + [Strip(current)], "", index + 1, START)
  {
    RemainingAtComma(current, text[index..]);
    assert text[index..][1..] == text[index + 1..];
    Regroup(values, Strip(current), Remaining("", text[index + 1..], START));
  }

  lemma CollectStep(text: string, values: seq<string>, current: string, index: nat, st: State, taken: string,
                    next: State)
    requires Collecting(text, values, current, index, st) && index < |text|
    requires Consumes(text[index..], st, taken, next)
    ensures index + |taken| <= |text|
    ensures Collecting(text, values, current + taken, index + |taken|, next)
  {
    var rest := text[index..];
    var rest' := text[index + |taken|..];
    assert rest == taken + rest';
    RemainingStep(current, rest, st, taken, next, rest');
  }

  lemma CollectStart(text: string)
    ensures Collecting(text, [], "", 0, START)
  {
    RemainingAtStart(text);
    assert text[0..] == text;
  }

  lemma CollectEnd(text: string, values: seq<string>, current: string, st: State)
    requires Collecting(text, values, current, |text|, st)
    ensures Split(text) == values + Tail(Strip(current))
  {
    assert current + "" == current && text[|text|..] == "";
  }

  method SplitCsv(text: string) returns (values: seq<string>)
    ensures values == Split(text)
  {
    hide Collecting, Split, Strip;
    values := [];
    var current := "";
    var st := START;
    var index := 0;
    CollectStart(text);
    while index < |text|
      invariant index <= |text|
      invariant Collecting(text, values, current, index, st)
    {
      if AtComma(text[index..], st) {
        CollectComma(text, values, current, index);
        values := values + [Strip(current)];
        current := "";
        index := index + 1;
      } else {
        var taken, next := Consume(text[index..], st);
        CollectStep(text, values, current, index, st, taken, next);
        current, index, st := current + taken, index + |taken|, next;
      }
    }
    CollectEnd(text, values, current, st);
    var tail := Strip(current);
    if tail != "" {
      values := values + [tail];
    }
  }

  /** One iteration that does not end a piece: the characters appended and the new variables. */
  method Consume(rest: string, st: State) returns (taken: string, next: State)
    requires rest != "" && !AtComma(rest, st)
    ensures taken != "" && Consumes(rest, st, taken, next)
  {
    taken := [rest[0]];
    next := st;
    assert rest[..1] == [rest[0]];
    match st.mode {
      case Dollar(tag) =>
        if tag <= rest {
          taken := tag;
          next := st.(mode := Plain);
        }
      case Quoted(quote) =>
        if rest[0] == quote {
          next := st.(mode := Plain);
        }
      case Plain =>
        var length := TagLength(rest);
        if length > 0 {
          taken := rest[..length];
          next := st.(mode := Dollar(taken));
        } else if IsQuote(rest[0]) {
          next := st.(mode := Quoted(rest[0]));
        } else if rest[0] == '(' {
          next := st.(depth := st.depth + 1);
        } else if rest[0] == ')' {
          next := st.(depth := if st.depth == 0 then 0 else st.depth - 1);
        }
    }
  }
}
