/** `_balanced` does not know dollar quotes and `_find_matching_paren` does: what the matcher finds, exactly when the
  * test of the peel loop agrees with it, and exactly when the peel removes matching pairs only. */
module SqlDollarQuotes {
  import opened Basics
  import opened PyStrings
  import opened SqlScanner
  import opened SqlSplitting
  import opened SqlParens

  // ----- What the matcher finds -----

  /** `Balance` for a scan that knows dollar tags. */
  function AwareBalance(s: string, depth: nat, mode: Mode): bool
    decreases |s|
  {
    if s == "" then depth == 0 && mode == Plain
    else if mode == Plain && s[0] == ')' && depth == 0 then false
    else AwareBalance(s[StepLength(s, mode)..], ParenDepth(s, depth, mode), StepMode(s, mode))
  }

  lemma AwareAdvance(s: string, depth: nat, mode: Mode, s': string, depth': nat, mode': Mode)
    requires s != "" && !(mode == Plain && s[0] == ')' && depth == 0)
    requires s' == s[StepLength(s, mode)..] && depth' == ParenDepth(s, depth, mode) && mode' == StepMode(s, mode)
    ensures AwareBalance(s, depth, mode) == AwareBalance(s', depth', mode')
  {
  }

  /** The depth comes back to 0 at a closing parenthesis exactly when what lies before it is balanced. */
  lemma {:induction false} MatchIffAware(inner: string, r: string, s: string, depth: nat, mode: Mode)
    requires r != "" && r[0] == ')' && s == inner + r
    ensures Match(s, depth + 1, mode) == Some(|inner|) <==> AwareBalance(inner, depth, mode)
    decreases |inner|
  {
    if inner == "" {
      assert s == r;
      MatchHere(r, depth, mode);
    } else if mode == Plain && s[0] == ')' && depth == 0 {
      assert s[0] == inner[0];
    } else {
      MatchIffAwareStep(inner, r, s, depth, mode);
    }
  }

  lemma MatchHere(r: string, depth: nat, mode: Mode)
    requires r != "" && r[0] == ')'
    ensures Match(r, depth + 1, mode) == Some(0) <==> depth == 0 && mode == Plain
  {
  }

  lemma {:induction false} MatchIffAwareStep(inner: string, r: string, s: string, depth: nat, mode: Mode)
    requires inner != "" && r != "" && r[0] == ')' && s == inner + r
    requires !(mode == Plain && s[0] == ')' && depth == 0)
    ensures Match(s, depth + 1, mode) == Some(|inner|) <==> AwareBalance(inner, depth, mode)
    decreases |inner|, 0
  {
    hide Match, AwareBalance;
    var n := StepLength(inner, mode);
    StepLocal(inner, r, mode);
    AppendDrop(inner, r, n);
    var inner', s', depth', mode' := inner[n..], s[n..], ParenDepth(inner, depth, mode), StepMode(inner, mode);
    assert s[0] == inner[0];
    MatchAdvance(s, depth + 1, mode, s');
    AwareAdvance(inner, depth, mode, inner', depth', mode');
    MatchIffAware(inner', r, s', depth', mode');
  }

  /** The matcher finds `k` for a parenthesis exactly when a closing one stands there and what lies between is balanced;
    * so it finds the partner of the parenthesis, whatever tags the text holds. */
  lemma MatcherFindsPartner(expr: string, k: nat)
    requires expr != "" && expr[0] == '('
    ensures Match(expr, 0, Plain) == Some(k) <==>
              0 < k < |expr| && expr[k] == ')' && AwareBalance(expr[1..k], 0, Plain)
  {
    hide Match, AwareBalance;
    var rest := expr[1..];
    MatchOpen(expr, rest);
    if Match(expr, 0, Plain).Some? { MatchIsClose(expr, 0, Plain); }
    if 0 < k < |expr| && expr[k] == ')' {
      assert rest == expr[1..k] + expr[k..];
      MatchIffAware(expr[1..k], expr[k..], rest, 0, Plain);
    }
  }

  /** An expression in parentheses is wrapped in a pair exactly when its inside is balanced, dollar quotes skipped. */
  lemma WrappedIffAware(expr: string)
    requires Parenthesized(expr)
    ensures Wrapped(expr) <==> AwareBalance(Inside(expr), 0, Plain)
  {
    MatcherFindsPartner(expr, |expr| - 1);
  }

  // ----- Erasing dollar quotes -----

  /** The text outside dollar quotes: tags and bodies are erased. */
  function Erase(s: string, mode: Mode): string
    decreases |s|
  {
    if s == "" then ""
    else
      var rest := Erase(s[StepLength(s, mode)..], StepMode(s, mode));
      if mode.Dollar? || StepMode(s, mode).Dollar? then rest else [s[0]] + rest
  }

  /** Every dollar quote is closed. */
  predicate ClosesTags(s: string, mode: Mode)
    decreases |s|
  {
    if s == "" then !mode.Dollar? else ClosesTags(s[StepLength(s, mode)..], StepMode(s, mode))
  }

  function QuoteOf(mode: Mode): Option<QuoteChar> {
    match mode
    case Quoted(quote) => Some(quote)
    case _ => None
  }

  lemma BalanceFront(c: char, rest: string, depth: nat, quote: Option<QuoteChar>)
    ensures Balance([c] + rest, depth, quote) ==
            if quote == None && c == '(' then Balance(rest, depth + 1, None)
            else if quote == None && c == ')' then depth > 0 && Balance(rest, depth - 1, None)
            else Balance(rest, depth, NextQuote(c, quote))
  {
    assert ([c] + rest)[1..] == rest;
  }

  /** The scan that knows dollar tags is the scan that does not, on the text without its dollar quotes. */
  lemma {:induction false} AwareIsErased(s: string, depth: nat, mode: Mode)
    ensures AwareBalance(s, depth, mode) <==> ClosesTags(s, mode) && Balance(Erase(s, mode), depth, QuoteOf(mode))
    decreases |s|
  {
    if s != "" {
      AwareIsErasedStep(s, depth, mode, s[StepLength(s, mode)..], StepMode(s, mode));
    }
  }

  lemma {:induction false} AwareIsErasedStep(s: string, depth: nat, mode: Mode, s': string, mode': Mode)
    requires s != "" && s' == s[StepLength(s, mode)..] && mode' == StepMode(s, mode)
    ensures AwareBalance(s, depth, mode) <==> ClosesTags(s, mode) && Balance(Erase(s, mode), depth, QuoteOf(mode))
    decreases |s|, 0
  {
    hide Balance, StepLength;
    var rest := Erase(s', mode');
    BalanceFront(s[0], rest, depth, QuoteOf(mode));
    if !(mode == Plain && s[0] == ')' && depth == 0) {
      AwareIsErased(s', ParenDepth(s, depth, mode), mode');
    }
  }

  /** The check on a text: its dollar quotes are closed and erasing them leaves it balanced exactly when it was. */
  predicate ErasureKeepsBalance(s: string) {
    Balance(s, 0, None) <==> ClosesTags(s, Plain) && Balance(Erase(s, Plain), 0, None)
  }

  /** For every expression in parentheses, whatever tags it holds: the loop's test agrees with the matcher exactly when
    * erasing the dollar quotes of the inside does not change its balance. */
  lemma TestAgreesIff(expr: string)
    requires Parenthesized(expr)
    ensures (Peelable(expr) <==> Wrapped(expr)) <==> ErasureKeepsBalance(Inside(expr))
  {
    hide Wrapped, AwareBalance, Erase, ClosesTags, Balance;
    WrappedIffAware(expr);
    AwareIsErased(Inside(expr), 0, Plain);
  }

  // ----- The peel -----

  /** The check at every round of the loop. */
  predicate SoundPeel(expr: string)
    decreases |expr|
  {
    Parenthesized(expr) ==>
      && ErasureKeepsBalance(Inside(expr))
      && (Peelable(expr) ==> (StripShrinks(Inside(expr)); SoundPeel(Strip(Inside(expr)))))
  }

  lemma {:induction false} PeelShrinks(expr: string)
    ensures |Peel(expr)| <= |expr|
    decreases |expr|
  {
    if Peelable(expr) {
      StripShrinks(Inside(expr));
      PeelShrinks(Strip(Inside(expr)));
    }
  }

  /** The loop removes matching pairs only, and all of them, exactly when the check succeeds at every round. */
  lemma {:induction false} PeelIsSoundIff(expr: string)
    ensures Unwraps(expr, Peel(expr)) && !Wrapped(Peel(expr)) <==> SoundPeel(expr)
    decreases |expr|
  {
    if Parenthesized(expr) {
      TestAgreesIff(expr);
      var next := Strip(Inside(expr));
      StripShrinks(Inside(expr));
      if Peelable(expr) {
        PeelShrinks(next);
        PeelIsSoundIff(next);
      }
      PeelRound(expr, next);
    }
  }

  lemma PeelRound(expr: string, next: string)
    requires Parenthesized(expr) && next == Strip(Inside(expr)) && |next| < |expr|
    ensures Peel(expr) == if Peelable(expr) then Peel(next) else expr
    ensures SoundPeel(expr) <==> ErasureKeepsBalance(Inside(expr)) && (Peelable(expr) ==> SoundPeel(next))
    ensures forall r :: Unwraps(expr, r) <==> r == expr || (Wrapped(expr) && Unwraps(next, r))
  {
  }

  // ----- Text without live tags -----

  /** No dollar tag starts outside a quotation; `$` inside quotes is harmless. */
  predicate NoLiveTag(s: string, quote: Option<QuoteChar>)
    decreases |s|
  {
    s == "" || ((quote == None ==> TagLength(s) == 0) && NoLiveTag(s[1..], NextQuote(s[0], quote)))
  }

  function ModeOf(quote: Option<QuoteChar>): Mode {
    match quote
    case None => Plain
    case Some(q) => Quoted(q)
  }

  lemma LiveStep(s: string, quote: Option<QuoteChar>)
    requires s != "" && (quote == None ==> TagLength(s) == 0)
    ensures StepLength(s, ModeOf(quote)) == 1
    ensures StepMode(s, ModeOf(quote)) == ModeOf(NextQuote(s[0], quote))
  {
  }

  /** The quote that is open after all of `s`. */
  function QuoteAfter(s: string, quote: Option<QuoteChar>): Option<QuoteChar> {
    if s == "" then quote else QuoteAfter(s[1..], NextQuote(s[0], quote))
  }

  lemma EraseFront(s: string, quote: Option<QuoteChar>, s': string)
    requires s != "" && s' == s[1..] && (quote == None ==> TagLength(s) == 0)
    ensures Erase(s, ModeOf(quote)) == [s[0]] + Erase(s', ModeOf(NextQuote(s[0], quote)))
    ensures ClosesTags(s, ModeOf(quote)) == ClosesTags(s', ModeOf(NextQuote(s[0], quote)))
  {
    LiveStep(s, quote);
  }

  lemma {:induction false} NothingToErase(s: string, quote: Option<QuoteChar>)
    requires NoLiveTag(s, quote)
    ensures Erase(s, ModeOf(quote)) == s && ClosesTags(s, ModeOf(quote))
    decreases |s|
  {
    hide TagLength;
    if s != "" {
      EraseFront(s, quote, s[1..]);
      NothingToErase(s[1..], NextQuote(s[0], quote));
    }
  }

  lemma {:induction false} NoLiveTagPrefix(p: string, r: string, quote: Option<QuoteChar>)
    requires NoLiveTag(p + r, quote)
    ensures NoLiveTag(p, quote)
    decreases |p|
  {
    if p != "" {
      assert (p + r)[1..] == p[1..] + r && (p + r)[0] == p[0];
      TagStays(p, r);
      NoLiveTagPrefix(p[1..], r, NextQuote(p[0], quote));
    }
  }

  /** A dollar tag at the front of a string stays one when text is appended. */
  lemma TagStays(p: string, r: string)
    ensures TagLength(p) > 0 ==> TagLength(p + r) > 0
  {
    if TagLength(p) > 0 && p[1] != '$' {
      var k := IdentLength(p[1..]);
      assert (p + r)[1..] == p[1..] + r;
      IdentLengthIs(p[1..] + r, k);
    }
  }

  lemma IdentLengthIs(s: string, k: nat)
    requires k < |s| && !IsIdentChar(s[k])
    requires forall i | 0 <= i < k :: IsIdentChar(s[i])
    ensures IdentLength(s) == k
  {
  }

  lemma {:induction false} NoLiveTagAfterSpace(pad: string, r: string)
    requires AllSpace(pad)
    requires NoLiveTag(pad + r, None)
    ensures NoLiveTag(r, None)
    decreases |pad|
  {
    if pad == "" {
      assert pad + r == r;
    } else {
      assert IsSpace(pad[0]);
      assert (pad + r)[1..] == pad[1..] + r;
      NoLiveTagAfterSpace(pad[1..], r);
    }
  }

  lemma InsideHasNoLiveTag(expr: string)
    requires Parenthesized(expr) && NoLiveTag(expr, None)
    ensures NoLiveTag(Inside(expr), None)
  {
    assert expr[1..] == Inside(expr) + ")";
    NoLiveTagPrefix(Inside(expr), ")", None);
  }

  /** Peeling a wrapped expression leaves no live tag. */
  lemma PeeledHasNoLiveTag(expr: string)
    requires Parenthesized(expr) && NoLiveTag(expr, None)
    ensures NoLiveTag(Strip(Inside(expr)), None)
  {
    hide NoLiveTag, Strip;
    var inner := Inside(expr);
    InsideHasNoLiveTag(expr);
    var left, right := StripSplits(inner);
    assert inner == left + (Strip(inner) + right);
    NoLiveTagAfterSpace(left, Strip(inner) + right);
    NoLiveTagPrefix(Strip(inner), right, None);
  }

  /** For an expression in parentheses without live dollar tags, the inside is balanced exactly when the last
    * character closes the first. */
  lemma ScannersAgree(expr: string)
    requires Parenthesized(expr) && NoLiveTag(expr, None)
    ensures Balance(Inside(expr), 0, None) <==> Match(expr, 0, Plain) == Some(|expr| - 1)
  {
    InsideHasNoLiveTag(expr);
    NothingToErase(Inside(expr), None);
    TestAgreesIff(expr);
  }

  /** Without live dollar tags, the loop removes only pairs that match each other and stops when no outer pair
    * matches. */
  lemma PeelRemovesMatchingPairs(expr: string)
    requires NoLiveTag(expr, None)
    ensures Unwraps(expr, Peel(expr))
    ensures !Wrapped(Peel(expr))
  {
    PeelOfNoLiveTagIsSound(expr);
    PeelIsSoundIff(expr);
  }

  lemma {:induction false} PeelOfNoLiveTagIsSound(expr: string)
    requires NoLiveTag(expr, None)
    ensures SoundPeel(expr)
    decreases |expr|
  {
    if Parenthesized(expr) {
      var next := Strip(Inside(expr));
      InsideHasNoLiveTag(expr);
      NothingToErase(Inside(expr), None);
      PeeledHasNoLiveTag(expr);
      StripShrinks(Inside(expr));
      PeelRound(expr, next);
      PeelOfNoLiveTagIsSound(next);
    }
  }

  // ----- A dollar quote inside the pair -----

  /** A whole dollar tag. */
  predicate IsTag(tag: string) {
    tag != "" && TagLength(tag) == |tag|
  }

  /** A dollar quote opened by `tag` with this body is closed right after it. */
  predicate ClosedAfter(tag: string, body: string) {
    forall i | 0 <= i < |body| :: !(tag <= (body + tag)[i..])
  }

  /** `(`, some text, a dollar-quoted body, some text, `)`. */
  function DollarQuoted(pre: string, tag: string, body: string, post: string): string {
    "(" + (pre + (tag + (body + (tag + post)))) + ")"
  }

  lemma InsideDollarQuoted(pre: string, tag: string, body: string, post: string)
    ensures var expr := DollarQuoted(pre, tag, body, post);
            Parenthesized(expr) && Inside(expr) == pre + (tag + (body + (tag + post)))
  {
  }

  lemma TagFront(tag: string, r: string)
    requires IsTag(tag)
    ensures TagLength(tag + r) == |tag| && (tag + r)[..|tag|] == tag && (tag + r)[|tag|..] == r
  {
    assert (tag + r)[1..] == tag[1..] + r;
    if tag[1] != '$' {
      var k := IdentLength(tag[1..]);
      IdentLengthIs(tag[1..] + r, k);
    }
  }

  lemma OpenTag(tag: Tag, r: string)
    requires IsTag(tag)
    ensures Erase(tag + r, Plain) == Erase(r, Dollar(tag)) && ClosesTags(tag + r, Plain) == ClosesTags(r, Dollar(tag))
  {
    TagFront(tag, r);
  }

  lemma CloseTag(tag: Tag, r: string)
    ensures Erase(tag + r, Dollar(tag)) == Erase(r, Plain) && ClosesTags(tag + r, Dollar(tag)) == ClosesTags(r, Plain)
  {
    assert (tag + r)[|tag|..] == r && tag <= tag + r;
  }

  lemma BodyFront(tag: Tag, s: string, s': string)
    requires s != "" && s' == s[1..] && !(tag <= s)
    ensures Erase(s, Dollar(tag)) == Erase(s', Dollar(tag)) && ClosesTags(s, Dollar(tag)) == ClosesTags(s', Dollar(tag))
  {
  }

  lemma {:induction false} SkipBody(tag: Tag, body: string, r: string)
    requires ClosedAfter(tag, body)
    ensures Erase(body + (tag + r), Dollar(tag)) == Erase(r, Plain)
    ensures ClosesTags(body + (tag + r), Dollar(tag)) == ClosesTags(r, Plain)
    decreases |body|
  {
    hide Erase, ClosesTags;
    var s := body + (tag + r);
    if body == "" {
      assert s == tag + r;
      CloseTag(tag, r);
    } else {
      TailAppend(body, tag + r, s);
      NotClosedYetHere(tag, body, r, s);
      BodyFront(tag, s, body[1..] + (tag + r));
      ClosedAfterTail(tag, body);
      SkipBody(tag, body[1..], r);
    }
  }

  lemma NotClosedYetHere(tag: string, body: string, r: string, s: string)
    requires body != "" && ClosedAfter(tag, body) && s == body + (tag + r)
    ensures !(tag <= s)
  {
    var t := body + tag;
    assert s == t + r;
    assert t[0..] == t && !(tag <= t[0..]);
    assert s[..|tag|] == t[..|tag|];
  }

  lemma ClosedAfterTail(tag: string, body: string)
    requires body != "" && ClosedAfter(tag, body)
    ensures ClosedAfter(tag, body[1..])
  {
    forall i | 0 <= i < |body| - 1 ensures !(tag <= (body[1..] + tag)[i..]) {
      assert (body[1..] + tag)[i..] == (body + tag)[i + 1..];
    }
  }

  /** No tag starts in `x` when a text that begins with a dollar sign follows, if none starts when just the sign
    * follows. */
  lemma TagNeedsDollar(x: string, r: string)
    requires x != "" && r != "" && r[0] == '$' && TagLength(x + "$") == 0
    ensures TagLength(x + r) == 0
  {
    var s, t := x + r, x + "$";
    if TagLength(s) > 0 {
      assert forall i | 0 <= i <= |x| :: s[i] == t[i];
      if s[1] != '$' {
        var k := IdentLength(s[1..]);
        assert s[1 + k] == '$' && s[1..][k] == '$';
        assert s[1..][|x| - 1] == s[|x|] == '$' && !IsIdentChar('$');
        assert 1 + k <= |x|;
        forall i | 0 <= i < k ensures IsIdentChar(t[1..][i]) { assert t[1..][i] == s[1..][i]; }
        IdentLengthIs(t[1..], k);
      }
    }
  }

  /** A scan passes over text without live tags up to a dollar quote. */
  lemma {:induction false} EraseThrough(pre: string, r: string, quote: Option<QuoteChar>)
    requires r != "" && r[0] == '$' && NoLiveTag(pre + "$", quote)
    ensures Erase(pre + r, ModeOf(quote)) == pre + Erase(r, ModeOf(QuoteAfter(pre, quote)))
    ensures ClosesTags(pre + r, ModeOf(quote)) == ClosesTags(r, ModeOf(QuoteAfter(pre, quote)))
    decreases |pre|
  {
    hide Erase, ClosesTags, TagLength;
    if pre == "" {
      assert pre + r == r;
      assert pre + Erase(r, ModeOf(quote)) == Erase(r, ModeOf(quote));
    } else {
      TailAppend(pre, r, pre + r);
      TailAppend(pre, "$", pre + "$");
      if quote == None { TagNeedsDollar(pre, r); }
      EraseFront(pre + r, quote, pre[1..] + r);
      EraseThrough(pre[1..], r, NextQuote(pre[0], quote));
      FrontBack(pre, Erase(r, ModeOf(QuoteAfter(pre, quote))));
    }
  }

  lemma FrontBack(pre: string, r: string)
    requires pre != ""
    ensures [pre[0]] + (pre[1..] + r) == pre + r
  {
  }

  lemma EraseDollarQuoted(pre: string, tag: Tag, body: string, post: string)
    requires IsTag(tag) && ClosedAfter(tag, body)
    requires NoLiveTag(pre + "$", None) && QuoteAfter(pre, None) == None && NoLiveTag(post, None)
    ensures var s := pre + (tag + (body + (tag + post)));
            Erase(s, Plain) == pre + post && ClosesTags(s, Plain)
  {
    hide Erase, ClosesTags, NoLiveTag, TagLength;
    var r := tag + (body + (tag + post));
    EraseThrough(pre, r, None);
    OpenTag(tag, body + (tag + post));
    SkipBody(tag, body, post);
    NothingToErase(post, None);
  }

  lemma TagIsNeutral(tag: Tag)
    ensures Neutral(tag)
  {
  }

  /** A dollar quote anywhere in the pair, between texts whose own tags are all inside quotes: the pair matches exactly
    * when the texts around the quote are balanced together, and the loop peels it exactly when they are so together
    * with the body. */
  lemma DollarBodyPeelsIffBalanced(pre: string, tag: Tag, body: string, post: string)
    requires IsTag(tag) && ClosedAfter(tag, body)
    requires NoLiveTag(pre + "$", None) && QuoteAfter(pre, None) == None && NoLiveTag(post, None)
    ensures Wrapped(DollarQuoted(pre, tag, body, post)) <==> Balance(pre + post, 0, None)
    ensures Peelable(DollarQuoted(pre, tag, body, post)) <==> Balance(pre + (body + post), 0, None)
  {
    hide Wrapped, Balance, Erase, ClosesTags, NoLiveTag, AwareBalance;
    InsideDollarQuoted(pre, tag, body, post);
    var inside := Inside(DollarQuoted(pre, tag, body, post));
    WrappedIffAware(DollarQuoted(pre, tag, body, post));
    AwareIsErased(inside, 0, Plain);
    EraseDollarQuoted(pre, tag, body, post);
    TagIsNeutral(tag);
    BalanceSkips(pre, tag, body + (tag + post), 0, None);
    assert pre + (body + (tag + post)) == (pre + body) + (tag + post);
    BalanceSkips(pre + body, tag, post, 0, None);
    assert (pre + body) + post == pre + (body + post);
  }

  /** So a parenthesis in a dollar-quoted body can make the loop peel a pair that does not match, and keep one that
    * does. */
  lemma DollarTagMisleadsThePeel()
    ensures Peelable(DollarQuoted("", "$$", "(", ")")) && !Wrapped(DollarQuoted("", "$$", "(", ")"))
    ensures !Peelable(DollarQuoted("", "$$", "(", "")) && Wrapped(DollarQuoted("", "$$", "(", ""))
  {
    hide Wrapped, Peelable;
    var tag: Tag := "$$";
    assert ("(" + tag)[0..][0] == '(';
    assert NoLiveTag("" + "$", None) && NoLiveTag(")", None) by { assert "$"[1..] == "" && ")"[1..] == ""; }
    DollarBodyPeelsIffBalanced("", tag, "(", ")");
    DollarBodyPeelsIffBalanced("", tag, "(", "");
    BalanceFront('(', ")", 0, None);
    BalanceFront(')', "", 1, None);
    BalanceFront(')', "", 0, None);
    BalanceFront('(', "", 0, None);
    assert [')'] + "" == ")" && ['('] + ")" == "()" && ['('] + "" == "(";
    assert "" + ("(" + ")") == "()" && "" + ")" == ")" && "" + ("(" + "") == "(";
  }
}
