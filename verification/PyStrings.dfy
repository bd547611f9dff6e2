/** Python's `str.strip`. */
module PyStrings {

  /** `str.isspace` on one character. */
  predicate IsSpace(c: char) {
    || '\t' <= c <= '\r' || '\U{1c}' <= c <= ' ' || c == '\U{85}' || c == '\U{a0}' || c == '\U{1680}'
    || '\U{2000}' <= c <= '\U{200a}' || c == '\U{2028}' || c == '\U{2029}' || c == '\U{202f}'
    || c == '\U{205f}' || c == '\U{3000}'
  }

  function StripLeft(s: string): string {
    if s != "" && IsSpace(s[0]) then StripLeft(s[1..]) else s
  }

  function StripRight(s: string): string {
    if s != "" && IsSpace(s[|s| - 1]) then StripRight(s[..|s| - 1]) else s
  }

  function Strip(s: string): string {
    StripRight(StripLeft(s))
  }

  predicate AllSpace(s: string) {
    forall i | 0 <= i < |s| :: IsSpace(s[i])
  }

  predicate Trimmed(s: string) {
    s == "" || (!IsSpace(s[0]) && !IsSpace(s[|s| - 1]))
  }

  lemma {:induction false} StripLeftSplits(s: string) returns (pad: string)
    ensures s == pad + StripLeft(s) && AllSpace(pad)
    ensures StripLeft(s) == "" || !IsSpace(StripLeft(s)[0])
  {
    pad := "";
    if s != "" && IsSpace(s[0]) {
      var rest := StripLeftSplits(s[1..]);
      pad := [s[0]] + rest;
      assert s == [s[0]] + s[1..];
    }
  }

  lemma {:induction false} StripRightSplits(s: string) returns (pad: string)
    ensures s == StripRight(s) + pad && AllSpace(pad)
    ensures StripRight(s) == "" || !IsSpace(StripRight(s)[|StripRight(s)| - 1])
    decreases |s|
  {
    pad := "";
    if s != "" && IsSpace(s[|s| - 1]) {
      var rest := StripRightSplits(s[..|s| - 1]);
      pad := rest + [s[|s| - 1]];
      assert s == s[..|s| - 1] + [s[|s| - 1]];
    }
  }

  /** A string is its trimmed part between two pads of white space. */
  lemma StripSplits(s: string) returns (left: string, right: string)
    ensures s == left + Strip(s) + right
    ensures AllSpace(left) && AllSpace(right)
    ensures Trimmed(Strip(s))
  {
    hide StripLeft, StripRight;
    left := StripLeftSplits(s);
    right := StripRightSplits(StripLeft(s));
    assert left + (Strip(s) + right) == left + Strip(s) + right;
    if Strip(s) != "" {
      assert StripLeft(s)[0] == Strip(s)[0];
    }
  }

  /** The stripped part is trimmed and no longer than the string, and only the string itself is as long. */
  lemma StripShrinks(s: string)
    ensures Trimmed(Strip(s)) && |Strip(s)| <= |s|
    ensures |Strip(s)| == |s| ==> Strip(s) == s
  {
    hide Strip, Trimmed;
    var left, right := StripSplits(s);
    if |Strip(s)| == |s| {
      assert left == "" && right == "";
      assert left + Strip(s) + right == Strip(s);
    }
  }

  lemma TrimmedIsFixed(s: string)
    ensures Trimmed(s) <==> Strip(s) == s
  {
    StripShrinks(s);
    if Trimmed(s) && s != "" {
      assert StripLeft(s) == s && StripRight(s) == s;
    }
  }

  // ----- Stripping a padded core -----

  lemma {:induction false} StripLeftPadded(left: string, s: string)
    requires AllSpace(left)
    requires s == "" || !IsSpace(s[0])
    ensures StripLeft(left + s) == s
    decreases |left|
  {
    if left == "" {
      assert left + s == s;
    } else {
      assert IsSpace(left[0]);
      assert (left + s)[1..] == left[1..] + s;
      StripLeftPadded(left[1..], s);
    }
  }

  lemma {:induction false} StripRightPadded(s: string, right: string)
    requires AllSpace(right)
    requires s == "" || !IsSpace(s[|s| - 1])
    ensures StripRight(s + right) == s
    decreases |right|
  {
    if right == "" {
      assert s + right == s;
    } else {
      var all := s + right;
      assert IsSpace(right[|right| - 1]);
      assert all[..|all| - 1] == s + right[..|right| - 1];
      StripRightPadded(s, right[..|right| - 1]);
    }
  }

  lemma StripPadded(left: string, core: string, right: string)
    requires AllSpace(left) && AllSpace(right) && Trimmed(core)
    ensures Strip(left + (core + right)) == core
  {
    if core == "" {
      assert AllSpace(left + right);
      assert left + (core + right) == left + right + "";
      StripLeftPadded(left + right, "");
    } else {
      StripLeftPadded(left, core + right);
      StripRightPadded(core, right);
    }
  }

  /** The characters that Python strips. */
  lemma SpacesAre(c: char)
    ensures IsSpace(c) <==>
              c in {'\t', '\n', '\U{b}', '\U{c}', '\r', '\U{1c}', '\U{1d}', '\U{1e}', '\U{1f}', ' ', '\U{85}', '\U{a0}',
                    '\U{1680}', '\U{2000}', '\U{2001}', '\U{2002}', '\U{2003}', '\U{2004}', '\U{2005}', '\U{2006}',
                    '\U{2007}', '\U{2008}', '\U{2009}', '\U{200a}', '\U{2028}', '\U{2029}', '\U{202f}', '\U{205f}',
                    '\U{3000}'}
  {
  }
}
