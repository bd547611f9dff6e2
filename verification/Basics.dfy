/** What several modules share. */
module Basics {

  datatype Option<+T> = None | Some(value: T)

  function Min(x: real, y: real): real {
    if x <= y then x else y
  }

  lemma ScaleOrder(k: real, x: real, y: real)
    requires k >= 0.0 && x <= y
    ensures k * x <= k * y
  {
  }

  lemma NonEmpty(s: set<int>)
    ensures s != {} ==> exists x :: x in s
  {
    if forall x :: x !in s { assert s == {}; }
  }

  /** The index of the first character among `chars`, or the length of `s`. */
  function FirstIn(s: string, chars: set<char>): (k: nat)
    ensures k <= |s|
    ensures forall i | 0 <= i < k :: s[i] !in chars
    ensures k < |s| ==> s[k] in chars
  {
    if s == "" || s[0] in chars then 0 else 1 + FirstIn(s[1..], chars)
  }

  lemma FirstInIs(s: string, chars: set<char>, k: nat)
    requires k <= |s| && forall i | 0 <= i < k :: s[i] !in chars
    requires k < |s| ==> s[k] in chars
    ensures FirstIn(s, chars) == k
  {
    hide FirstIn;
    var j := FirstIn(s, chars);
    assert j >= k && k >= j;
  }

  /** The index of the first `c`, or the length of `s`. */
  function FirstIndex(s: string, c: char): (k: nat)
    ensures k <= |s| && c !in s[..k]
    ensures k < |s| ==> s[k] == c
  {
    FirstIn(s, {c})
  }

  lemma FirstIndexIs(s: string, c: char, k: nat)
    requires k <= |s| && c !in s[..k] && (k < |s| ==> s[k] == c)
    ensures FirstIndex(s, c) == k
  {
    hide FirstIn;
    assert forall i | 0 <= i < k :: s[i] == s[..k][i] && s[i] != c;
    FirstInIs(s, {c}, k);
  }
}
