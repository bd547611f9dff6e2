/** The characters that the SQL scanners act on, written out: texts as lists of tokens, and what splitting, matching and
  * balance mean on the tokens. */
module SqlLexicon {
  import opened Basics
  import opened SqlScanner
  import opened SqlSplitting
  import opened SqlParens
  import opened SqlDollarQuotes

  // ----- Tokens -----

  predicate Letter(c: char) {
    'a' <= c <= 'z' || 'A' <= c <= 'Z' || c == '_'
  }

  /** The name of a dollar tag: empty, or an identifier. */
  predicate IsName(name: string) {
    name == "" || (Letter(name[0]) && forall i | 0 <= i < |name| :: Letter(name[i]) || '0' <= name[i] <= '9')
  }

  function TagOf(name: string): string {
    "$" + name + "$"
  }

  datatype Token =
    | Literal(quote: char, body: string)
    | DollarBody(name: string, body: string)
    | Open
    | Close
    | Comma
    | Other(c: char)

  function Text(t: Token): string {
    match t
    case Literal(quote, body) => [quote] + (body + [quote])
    case DollarBody(name, body) => TagOf(name) + (body + TagOf(name))
    case Open => "("
    case Close => ")"
    case Comma => ","
    case Other(c) => [c]
  }

  function Texts(ts: seq<Token>): string {
    if ts == [] then "" else Text(ts[0]) + Texts(ts[1..])
  }

  /** A literal ends at the next quote of its kind, a dollar body at the next tag like its own; any other character has
    * no meaning of its own, and a dollar sign only if no tag starts with it. */
  ghost predicate Valid(t: Token, rest: string) {
    match t
    case Literal(quote, body) => (quote == '\'' || quote == '"') && quote !in body
    case DollarBody(name, body) => IsName(name) && ClosedAfter(TagOf(name), body)
    case Other(c) =>
      && c != '\'' && c != '"' && c != '(' && c != ')' && c != ','
      && (c == '$' ==> forall name | IsName(name) :: !(TagOf(name) <= "$" + rest))
    case _ => true
  }

  ghost predicate ValidList(ts: seq<Token>) {
    ts == [] || (Valid(ts[0], Texts(ts[1..])) && ValidList(ts[1..]))
  }

  // ----- Dollar tags -----

  lemma NamedTag(name: string, r: string)
    requires IsName(name)
    ensures TagLength(TagOf(name) + r) == |TagOf(name)| && IsTag(TagOf(name))
  {
    NamedTagAt(name, TagOf(name) + r);
    NamedTagAt(name, TagOf(name));
  }

  lemma NamedTagAt(name: string, s: string)
    requires IsName(name) && TagOf(name) <= s
    ensures TagLength(s) == |name| + 2
  {
    hide IdentLength;
    assert forall i | 0 <= i < |name| + 2 :: s[i] == TagOf(name)[i];
    if name != "" {
      assert s[1] == name[0] && s[|name| + 1] == '$';
      assert forall i | 0 <= i < |name| :: s[1..][i] == name[i];
      IdentLengthIs(s[1..], |name|);
    }
  }

  /** A tag starts with a text exactly when a name between dollar signs does. */
  lemma TagStartsIff(s: string)
    ensures TagLength(s) > 0 <==> exists name :: IsName(name) && TagOf(name) <= s
  {
    if TagLength(s) > 0 {
      TagIsNamed(s);
    }
    if name :| IsName(name) && TagOf(name) <= s {
      NamedTagAt(name, s);
    }
  }

  lemma TagIsNamed(s: string)
    requires TagLength(s) > 0
    ensures exists name :: IsName(name) && TagOf(name) <= s
  {
    if s[1] == '$' {
      assert IsName("") && s[..2] == TagOf("");
    } else {
      var k := 1 + IdentLength(s[1..]);
      var name := s[1..k];
      assert forall i | 0 <= i < |name| :: name[i] == s[1..][i];
      assert s[..k + 1] == TagOf(name) && name[0] == s[1];
      assert IsName(name);
    }
  }

  // ----- Single steps -----

  lemma CutStep(s: string, st: State, n: nat, s': string, st': State)
    requires s != "" && !AtComma(s, st)
    requires n == StepLength(s, st.mode) && s' == s[n..] && st' == Step(s, st)
    ensures Cut(s, st) == n + Cut(s', st') && End(s, st) == End(s', st')
  {
  }

  lemma FrontChar(c: char, rest: string)
    ensures ([c] + rest)[1..] == rest && ([c] + rest)[0] == c
  {
  }

  lemma NoTagHere(c: char, rest: string)
    requires c != '$'
    ensures TagLength([c] + rest) == 0
  {
  }

  // ----- Inside quotes -----

  lemma {:induction false} CutInLiteral(q: QuoteChar, body: string, rest: string, depth: nat)
    requires q !in body
    ensures Cut(body + ([q] + rest), State(depth, Quoted(q))) == |body| + 1 + Cut(rest, State(depth, Plain))
    ensures End(body + ([q] + rest), State(depth, Quoted(q))) == End(rest, State(depth, Plain))
    decreases |body|
  {
    hide Cut, End;
    var s := body + ([q] + rest);
    if body == "" {
      assert s == [q] + rest;
      FrontChar(q, rest);
      CutStep(s, State(depth, Quoted(q)), 1, rest, State(depth, Plain));
    } else {
      TailAppend(body, [q] + rest, s);
      CutStep(s, State(depth, Quoted(q)), 1, body[1..] + ([q] + rest), State(depth, Quoted(q)));
      CutInLiteral(q, body[1..], rest, depth);
    }
  }

  lemma {:induction false} MatchInLiteral(q: QuoteChar, body: string, rest: string, depth: int)
    requires q !in body
    ensures Match(body + ([q] + rest), depth, Quoted(q)) == Offset(Match(rest, depth, Plain), |body| + 1)
    decreases |body|
  {
    hide Match;
    var s := body + ([q] + rest);
    if body == "" {
      assert s == [q] + rest;
      FrontChar(q, rest);
      MatchAdvance(s, depth, Quoted(q), rest);
    } else {
      TailAppend(body, [q] + rest, s);
      MatchAdvance(s, depth, Quoted(q), body[1..] + ([q] + rest));
      MatchInLiteral(q, body[1..], rest, depth);
    }
  }

  lemma {:induction false} BalanceInLiteral(q: QuoteChar, body: string, rest: string, depth: nat)
    requires q !in body
    ensures Balance(body + ([q] + rest), depth, Some(q)) == Balance(rest, depth, None)
    decreases |body|
  {
    hide Balance;
    var s := body + ([q] + rest);
    if body == "" {
      assert s == [q] + rest;
      BalanceFront(q, rest, depth, Some(q));
    } else {
      assert s == [body[0]] + (body[1..] + ([q] + rest));
      BalanceFront(body[0], body[1..] + ([q] + rest), depth, Some(q));
      BalanceInLiteral(q, body[1..], rest, depth);
    }
  }

  /** A literal in single or in double quotes is passed over by all three scanners, whatever it holds, and they go on
    * behind it as they were. */
  lemma LiteralIsSkipped(q: char, body: string, rest: string, depth: nat)
    requires (q == '\'' || q == '"') && q !in body
    ensures var s := [q] + (body + ([q] + rest));
            && Cut(s, State(depth, Plain)) == |body| + 2 + Cut(rest, State(depth, Plain))
            && End(s, State(depth, Plain)) == End(rest, State(depth, Plain))
            && Match(s, depth, Plain) == Offset(Match(rest, depth, Plain), |body| + 2)
            && Balance(s, depth, None) == Balance(rest, depth, None)
  {
    hide Cut, End, Match, Balance, TagLength;
    var inner := body + ([q] + rest);
    var s := [q] + inner;
    FrontChar(q, inner);
    NoTagHere(q, inner);
    CutStep(s, State(depth, Plain), 1, inner, State(depth, Quoted(q)));
    CutInLiteral(q, body, rest, depth);
    MatchAdvance(s, depth, Plain, inner);
    MatchInLiteral(q, body, rest, depth);
    BalanceFront(q, inner, depth, None);
    BalanceInLiteral(q, body, rest, depth);
  }

  /** A literal that is not closed swallows the rest: nothing is cut, nothing matches, nothing is balanced. */
  lemma OpenLiteralSwallows(q: char, body: string, depth: nat)
    requires (q == '\'' || q == '"') && q !in body
    ensures Cut([q] + body, State(depth, Plain)) == |body| + 1
    ensures Match([q] + body, depth, Plain) == None && !Balance([q] + body, depth, None)
  {
    hide Cut, End, Match, Balance, TagLength;
    FrontChar(q, body);
    NoTagHere(q, body);
    CutStep([q] + body, State(depth, Plain), 1, body, State(depth, Quoted(q)));
    MatchAdvance([q] + body, depth, Plain, body);
    BalanceFront(q, body, depth, None);
    InsideSwallows(q, body, depth);
  }

  lemma {:induction false} InsideSwallows(q: QuoteChar, body: string, depth: nat)
    requires q !in body
    ensures Cut(body, State(depth, Quoted(q))) == |body|
    ensures End(body, State(depth, Quoted(q))) == State(depth, Quoted(q))
    ensures Match(body, depth, Quoted(q)) == None && !Balance(body, depth, Some(q))
    decreases |body|
  {
    if body != "" {
      InsideSwallows(q, body[1..], depth);
    }
  }

  // ----- Inside dollar quotes -----

  lemma {:induction false} CutInDollar(tag: Tag, body: string, rest: string, depth: nat)
    requires ClosedAfter(tag, body)
    ensures Cut(body + (tag + rest), State(depth, Dollar(tag))) == |body| + |tag| + Cut(rest, State(depth, Plain))
    ensures End(body + (tag + rest), State(depth, Dollar(tag))) == End(rest, State(depth, Plain))
    decreases |body|
  {
    hide Cut, End;
    var s := body + (tag + rest);
    if body == "" {
      assert s == tag + rest && s[|tag|..] == rest && tag <= s;
      CutStep(s, State(depth, Dollar(tag)), |tag|, rest, State(depth, Plain));
    } else {
      TailAppend(body, tag + rest, s);
      NotClosedYetHere(tag, body, rest, s);
      CutStep(s, State(depth, Dollar(tag)), 1, body[1..] + (tag + rest), State(depth, Dollar(tag)));
      ClosedAfterTail(tag, body);
      CutInDollar(tag, body[1..], rest, depth);
    }
  }

  lemma {:induction false} MatchInDollar(tag: Tag, body: string, rest: string, depth: int)
    requires ClosedAfter(tag, body)
    ensures Match(body + (tag + rest), depth, Dollar(tag)) == Offset(Match(rest, depth, Plain), |body| + |tag|)
    decreases |body|
  {
    hide Match;
    var s := body + (tag + rest);
    if body == "" {
      assert s == tag + rest && s[|tag|..] == rest && tag <= s;
      MatchAdvance(s, depth, Dollar(tag), rest);
    } else {
      TailAppend(body, tag + rest, s);
      NotClosedYetHere(tag, body, rest, s);
      MatchAdvance(s, depth, Dollar(tag), body[1..] + (tag + rest));
      ClosedAfterTail(tag, body);
      MatchInDollar(tag, body[1..], rest, depth);
    }
  }

  /** A dollar quote is passed over by the splitter and the matcher, whatever it holds. */
  lemma DollarQuoteIsSkipped(name: string, body: string, rest: string, depth: nat, matched: int)
    requires IsName(name) && ClosedAfter(TagOf(name), body)
    ensures var s := TagOf(name) + (body + (TagOf(name) + rest));
            && Cut(s, State(depth, Plain)) == |body| + 2 * |TagOf(name)| + Cut(rest, State(depth, Plain))
            && End(s, State(depth, Plain)) == End(rest, State(depth, Plain))
            && Match(s, matched, Plain) == Offset(Match(rest, matched, Plain), |body| + 2 * |TagOf(name)|)
  {
    hide Cut, End, Match;
    var inner := body + (TagOf(name) + rest);
    NamedTag(name, inner);
    TagFront(TagOf(name), inner);
    var tag: Tag := AsTag(TagOf(name));
    CutStep(tag + inner, State(depth, Plain), |tag|, inner, State(depth, Dollar(tag)));
    CutInDollar(tag, body, rest, depth);
    MatchAdvance(tag + inner, matched, Plain, inner);
    MatchInDollar(tag, body, rest, matched);
  }

  function AsTag(tag: string): (t: Tag)
    requires IsTag(tag)
    ensures t == tag
  {
    tag
  }

  // ----- The other tokens -----

  lemma OtherHasNoTag(c: char, rest: string)
    requires Valid(Other(c), rest)
    ensures TagLength([c] + rest) == 0
  {
    if c == '$' {
      TagStartsIff([c] + rest);
    }
  }

  /** Only a comma at depth 0 cuts, only parentheses change the depth, and no other character does anything. */
  lemma OtherTokensStep(t: Token, rest: string, depth: nat, matched: int)
    requires Valid(t, rest) && !t.Literal? && !t.DollarBody?
    ensures t == Comma && depth == 0 ==> Cut(Text(t) + rest, State(depth, Plain)) == 0
    ensures !(t == Comma && depth == 0) ==>
              && Cut(Text(t) + rest, State(depth, Plain)) == 1 + Cut(rest, State(DepthAfter(t, depth), Plain))
              && End(Text(t) + rest, State(depth, Plain)) == End(rest, State(DepthAfter(t, depth), Plain))
    ensures t == Close && matched == 1 ==> Match(Text(t) + rest, matched, Plain) == Some(0)
    ensures !(t == Close && matched == 1) ==>
              Match(Text(t) + rest, matched, Plain) == Offset(Match(rest, NestAfter(t, matched), Plain), 1)
  {
    hide Cut, End, Match, TagLength;
    var s := Text(t) + rest;
    FrontChar(Text(t)[0], rest);
    assert s == [Text(t)[0]] + rest;
    if t.Other? { OtherHasNoTag(t.c, rest); } else { NoTagHere(Text(t)[0], rest); }
    if t == Comma && depth == 0 {
      CutHere(s);
    } else {
      CutStep(s, State(depth, Plain), 1, rest, State(DepthAfter(t, depth), Plain));
    }
    if t == Close && matched == 1 {
      MatchesHere(s);
    } else {
      MatchAdvance(s, matched, Plain, rest);
    }
  }

  lemma CutHere(s: string)
    requires s != "" && AtComma(s, START)
    ensures Cut(s, START) == 0
  {
  }

  lemma MatchesHere(s: string)
    requires s != "" && s[0] == ')'
    ensures Match(s, 1, Plain) == Some(0)
  {
  }

  /** The depth of the splitter, which never falls below 0. */
  function DepthAfter(t: Token, depth: nat): nat {
    if t == Open then depth + 1 else if t == Close && depth > 0 then depth - 1 else depth
  }

  function NestAfter(t: Token, depth: int): int {
    if t == Open then depth + 1 else if t == Close then depth - 1 else depth
  }

  lemma TokenStep(t: Token, rest: string, depth: nat)
    requires Valid(t, rest) && !(t == Comma && depth == 0)
    ensures Cut(Text(t) + rest, State(depth, Plain)) == |Text(t)| + Cut(rest, State(DepthAfter(t, depth), Plain))
  {
    hide Cut, End, Match, Balance;
    match t
    case Literal(q, body) =>
      assert Text(t) + rest == [q] + (body + ([q] + rest));
      LiteralIsSkipped(q, body, rest, depth);
    case DollarBody(name, body) =>
      assert Text(t) + rest == TagOf(name) + (body + (TagOf(name) + rest));
      DollarQuoteIsSkipped(name, body, rest, depth, 0);
    case _ =>
      OtherTokensStep(t, rest, depth, 0);
  }

  lemma TokenMatchStep(t: Token, rest: string, depth: nat)
    requires Valid(t, rest) && !(t == Close && depth == 1)
    ensures Match(Text(t) + rest, depth, Plain) == Offset(Match(rest, NestAfter(t, depth), Plain), |Text(t)|)
  {
    hide Cut, End, Match, Balance;
    match t
    case Literal(q, body) =>
      assert Text(t) + rest == [q] + (body + ([q] + rest));
      LiteralIsSkipped(q, body, rest, depth);
    case DollarBody(name, body) =>
      assert Text(t) + rest == TagOf(name) + (body + (TagOf(name) + rest));
      DollarQuoteIsSkipped(name, body, rest, 0, depth);
    case _ =>
      OtherTokensStep(t, rest, 0, depth);
  }

  lemma TokenBalanceStep(t: Token, rest: string, depth: nat)
    requires Valid(t, rest) && !t.DollarBody?
    ensures Balance(Text(t) + rest, depth, None) ==
            if t == Open then Balance(rest, depth + 1, None)
            else if t == Close then depth > 0 && Balance(rest, depth - 1, None)
            else Balance(rest, depth, None)
  {
    hide Cut, End, Match, Balance;
    if t.Literal? {
      assert Text(t) + rest == [t.quote] + (t.body + ([t.quote] + rest));
      LiteralIsSkipped(t.quote, t.body, rest, depth);
    } else {
      assert Text(t) + rest == [Text(t)[0]] + rest;
      BalanceFront(Text(t)[0], rest, depth, None);
    }
  }

  // ----- What the scanners compute on tokens -----

  /** The first comma outside parentheses, or the length of the list. */
  function TopComma(ts: seq<Token>, depth: nat): (k: nat)
    ensures k <= |ts| && (k < |ts| ==> ts[k] == Comma)
  {
    if ts == [] || (ts[0] == Comma && depth == 0) then 0 else 1 + TopComma(ts[1..], DepthAfter(ts[0], depth))
  }

  lemma TextsFront(ts: seq<Token>, k: nat)
    requires 0 < k <= |ts|
    ensures Texts(ts[..k]) == Text(ts[0]) + Texts(ts[1..][..k - 1])
  {
    assert ts[..k][1..] == ts[1..][..k - 1];
  }

  lemma {:induction false} CutOfTokens(ts: seq<Token>, depth: nat)
    requires ValidList(ts)
    ensures Cut(Texts(ts), State(depth, Plain)) == |Texts(ts[..TopComma(ts, depth)])|
    decreases |ts|
  {
    hide Cut, Text, Valid;
    if ts == [] {
      CutOfNothing(depth);
    } else if ts[0] == Comma && depth == 0 {
      OtherTokensStep(Comma, Texts(ts[1..]), 0, 0);
    } else {
      TokenStep(ts[0], Texts(ts[1..]), depth);
      CutOfTokens(ts[1..], DepthAfter(ts[0], depth));
      TextsFront(ts, TopComma(ts, depth));
    }
  }

  lemma CutOfNothing(depth: nat)
    ensures Cut("", State(depth, Plain)) == 0
  {
  }

  lemma {:induction false} TextsSplit(ts: seq<Token>, k: nat)
    requires k <= |ts|
    ensures Texts(ts) == Texts(ts[..k]) + Texts(ts[k..])
    decreases |ts|
  {
    hide Text;
    if k > 0 {
      TextsSplit(ts[1..], k - 1);
      TextsFront(ts, k);
      assert ts[1..][k - 1..] == ts[k..];
      assert Text(ts[0]) + (Texts(ts[1..][..k - 1]) + Texts(ts[k..]))
             == Text(ts[0]) + Texts(ts[1..][..k - 1]) + Texts(ts[k..]);
    }
  }

  lemma {:induction false} ValidSuffix(ts: seq<Token>, k: nat)
    requires ValidList(ts) && k <= |ts|
    ensures ValidList(ts[k..])
    decreases k
  {
    if k > 0 {
      ValidSuffix(ts[1..], k - 1);
      assert ts[1..][k - 1..] == ts[k..];
    }
  }

  /** The texts between the top-level commas of the list. */
  function Pieces(ts: seq<Token>): seq<string>
    decreases |ts|
  {
    var k := TopComma(ts, 0);
    if k == |ts| then [Texts(ts)] else [Texts(ts[..k])] + Pieces(ts[k + 1..])
  }

  lemma LastComma(ts: seq<Token>, k: nat)
    requires k < |ts| && ts[k] == Comma
    ensures Texts(ts) == Texts(ts[..k]) + "," + Texts(ts[k + 1..])
  {
    hide Texts;
    TextsSplit(ts, k);
    TextsOfComma(ts[k..]);
    assert ts[k..][1..] == ts[k + 1..];
    assert Texts(ts[..k]) + ("," + Texts(ts[k + 1..])) == Texts(ts[..k]) + "," + Texts(ts[k + 1..]);
  }

  lemma TextsOfComma(ts: seq<Token>)
    requires ts != [] && ts[0] == Comma
    ensures Texts(ts) == "," + Texts(ts[1..])
  {
  }

  /** Splitting the text of a list of tokens cuts it at exactly the commas that stand outside parentheses and outside
    * quotes of every kind. */
  lemma {:induction false} SplitsAtTopCommas(ts: seq<Token>)
    requires ValidList(ts)
    ensures RawSplit(Texts(ts)) == Pieces(ts)
    decreases |ts|
  {
    hide Cut, Texts, ValidList, TopComma;
    var k := TopComma(ts, 0);
    CutOfTokens(ts, 0);
    if k == |ts| {
      assert ts[..k] == ts;
    } else {
      LastComma(ts, k);
      var head, tail := Texts(ts[..k]), Texts(ts[k + 1..]);
      assert Texts(ts)[..|head|] == head && Texts(ts)[|head| + 1..] == tail;
      ValidSuffix(ts, k + 1);
      SplitsAtTopCommas(ts[k + 1..]);
    }
  }

  /** The closing parenthesis that brings the depth back to 0. */
  function Partner(ts: seq<Token>, depth: nat): (k: nat)
    ensures k <= |ts| && (k < |ts| ==> ts[k] == Close)
  {
    if ts == [] || (ts[0] == Close && depth <= 1) then 0
    else 1 + Partner(ts[1..], NestAfter(ts[0], depth))
  }

  /** The matcher finds the partner of a parenthesis that is open before the list: the first closing parenthesis outside
    * quotes of every kind that brings the depth back to 0. */
  lemma {:induction false} MatchesPartner(ts: seq<Token>, depth: nat)
    requires ValidList(ts) && depth > 0
    ensures var k := Partner(ts, depth);
            Match(Texts(ts), depth, Plain) == if k < |ts| then Some(|Texts(ts[..k])|) else None
    decreases |ts|
  {
    hide Match, Text, Valid;
    if ts == [] {
      MatchOfNothing(depth);
    } else if ts[0] == Close && depth == 1 {
      OtherTokensStep(Close, Texts(ts[1..]), 0, 1);
    } else {
      TokenMatchStep(ts[0], Texts(ts[1..]), depth);
      MatchesPartner(ts[1..], NestAfter(ts[0], depth));
      TextsFront(ts, Partner(ts, depth));
    }
  }

  lemma MatchOfNothing(depth: int)
    ensures Match("", depth, Plain) == None
  {
  }

  /** The parentheses of the list close, in order, everything that is open. */
  predicate Nested(ts: seq<Token>, depth: nat) {
    if ts == [] then depth == 0
    else if ts[0] == Open then Nested(ts[1..], depth + 1)
    else if ts[0] == Close then depth > 0 && Nested(ts[1..], depth - 1)
    else Nested(ts[1..], depth)
  }

  /** A text without dollar quotes is balanced exactly when the parentheses outside its literals nest. */
  lemma {:induction false} BalancedIffNested(ts: seq<Token>, depth: nat)
    requires ValidList(ts) && forall t | t in ts :: !t.DollarBody?
    ensures Balance(Texts(ts), depth, None) <==> Nested(ts, depth)
    decreases |ts|
  {
    hide Balance, Text, Valid;
    if ts == [] {
      BalanceOfNothing(depth);
    } else {
      assert ts[0] in ts && forall t | t in ts[1..] :: t in ts;
      TokenBalanceStep(ts[0], Texts(ts[1..]), depth);
      if ts[0] == Close {
        if depth > 0 { BalancedIffNested(ts[1..], depth - 1); }
      } else {
        BalancedIffNested(ts[1..], if ts[0] == Open then depth + 1 else depth);
      }
    }
  }

  lemma BalanceOfNothing(depth: nat)
    ensures Balance("", depth, None) <==> depth == 0
  {
  }
}
