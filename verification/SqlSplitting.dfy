/** What `_split_csv` promises: it inverts joining with commas, on exactly the lists that can be told apart. */
module SqlSplitting {
  import opened PyStrings
  import opened SqlScanner

  // ----- Scanning is local -----

  /** `r` cannot continue a dollar tag. */
  predicate Break(r: string) {
    r == "" || !IsTagChar(r[0])
  }

  lemma {:induction false} IdentLengthLocal(p: string, r: string)
    requires Break(r)
    ensures IdentLength(p + r) == IdentLength(p)
  {
    if p == "" {
      assert p + r == r;
    } else {
      assert (p + r)[1..] == p[1..] + r;
      IdentLengthLocal(p[1..], r);
    }
  }

  lemma TagLengthLocal(p: string, r: string)
    requires Break(r) && p != ""
    ensures TagLength(p + r) == TagLength(p)
  {
    assert (p + r)[1..] == p[1..] + r;
    IdentLengthLocal(p[1..], r);
  }

  lemma TagLocal(tag: Tag, p: string, r: string)
    requires Break(r)
    ensures tag <= p + r <==> tag <= p
  {
    if |p| < |tag| {
      assert IsTagChar(tag[|p|]);
      if r != "" { assert (p + r)[|p|] == r[0]; }
    } else {
      assert (p + r)[..|tag|] == p[..|tag|];
    }
  }

  lemma StepLocal(p: string, r: string, mode: Mode)
    requires Break(r) && p != ""
    ensures StepLength(p + r, mode) == StepLength(p, mode)
    ensures StepMode(p + r, mode) == StepMode(p, mode)
  {
    match mode
    case Plain =>
      TagLengthLocal(p, r);
      assert (p + r)[..TagLength(p)] == p[..TagLength(p)];
    case Quoted(_) =>
    case Dollar(tag) =>
      TagLocal(tag, p, r);
  }

  lemma AppendDrop(p: string, r: string, n: nat)
    requires n <= |p|
    ensures (p + r)[n..] == p[n..] + r
  {
  }

  /** A scan that meets no top-level comma in `p` goes on into what follows. */
  lemma {:induction false} ScanThrough(p: string, r: string, st: State)
    requires Break(r)
    requires Cut(p, st) == |p|
    ensures Cut(p + r, st) == |p| + Cut(r, End(p, st))
    ensures End(p + r, st) == End(r, End(p, st))
    decreases |p|
  {
    hide StepLength, StepMode;
    if p == "" {
      assert p + r == r;
    } else {
      var n := StepLength(p, st.mode);
      StepLocal(p, r, st.mode);
      AppendDrop(p, r, n);
      ScanThrough(p[n..], r, Step(p, st));
      assert Step(p + r, st) == Step(p, st);
    }
  }

  /** A scan that stops inside `p` stops at the same comma whatever follows. */
  lemma {:induction false} ScanStops(p: string, r: string, st: State)
    requires Break(r)
    requires Cut(p, st) < |p|
    ensures Cut(p + r, st) == Cut(p, st)
    decreases |p|
  {
    if !AtComma(p, st) {
      var n := StepLength(p, st.mode);
      StepLocal(p, r, st.mode);
      AppendDrop(p, r, n);
      ScanStops(p[n..], r, Step(p, st));
      assert Step(p + r, st) == Step(p, st);
    }
  }

  /** What lies before the cut is scanned through, and the cut is a comma met at the start state. */
  lemma {:induction false} CutSound(s: string, st: State)
    ensures var k := Cut(s, st);
            && Cut(s[..k], st) == k
            && (k < |s| ==> s[k] == ',' && End(s[..k], st) == START)
    decreases |s|
  {
    hide StepLength, Step;
    if s != "" && !AtComma(s, st) {
      var n := StepLength(s, st.mode);
      CutSound(s[n..], Step(s, st));
      CutSoundStep(s, st, n, Cut(s, st), s[..Cut(s, st)], s[n..]);
    }
  }

  lemma CutSoundStep(s: string, st: State, n: nat, k: nat, p: string, s': string)
    requires s != "" && !AtComma(s, st) && n == StepLength(s, st.mode) && s' == s[n..]
    requires k == Cut(s, st) == n + Cut(s', Step(s, st)) && p == s[..k]
    requires k < |s| ==> s[k] == ','
    requires Cut(s'[..k - n], Step(s, st)) == k - n
    ensures Cut(p, st) == k
    ensures k < |s| ==> End(p, st) == End(s'[..k - n], Step(s, st))
  {
    hide StepLength, StepMode, Cut;
    var r := s[k..];
    assert s == p + r;
    assert s'[..k - n] == p[n..];
    StepLocal(p, r, st.mode);
    assert Step(p, st) == Step(s, st);
    assert p == p[..n] + p[n..];
    CutAdvance(p, st, p[..n], Step(p, st), p[n..]);
  }

  // ----- Pieces -----

  /** The scan of a piece meets no top-level comma and leaves no parenthesis and no quote open. */
  predicate SelfContained(piece: string) {
    Cut(piece, START) == |piece| && End(piece, START) == START
  }

  /** A list that joining with commas does not blur: every piece but the last is self-contained, and the last has
    * no top-level comma. */
  predicate Separable(pieces: seq<string>) {
    && pieces != []
    && (forall i | 0 <= i < |pieces| - 1 :: SelfContained(pieces[i]))
    && Cut(pieces[|pieces| - 1], START) == |pieces[|pieces| - 1]|
  }

  /** The untrimmed pieces rejoined with commas give the input back. */
  lemma {:induction false} JoinRawSplit(s: string)
    ensures Join(RawSplit(s)) == s
    decreases |s|
  {
    hide Cut;
    var k := Cut(s, START);
    if k < |s| {
      CutSound(s, START);
      JoinRawSplit(s[k + 1..]);
      assert ([s[..k]] + RawSplit(s[k + 1..]))[1..] == RawSplit(s[k + 1..]);
      assert s[k..k + 1] == ",";
      assert s == s[..k] + s[k..k + 1] + s[k + 1..];
    }
  }

  lemma {:induction false} RawSplitSeparable(s: string)
    ensures Separable(RawSplit(s))
    decreases |s|
  {
    var k := Cut(s, START);
    CutSound(s, START);
    if k < |s| {
      RawSplitSeparable(s[k + 1..]);
      var rest := RawSplit(s[k + 1..]);
      assert RawSplit(s) == [s[..k]] + rest;
      forall i | 0 <= i < |rest| ensures SelfContained(([s[..k]] + rest)[i]) || i == |rest| {
        if i > 0 { assert ([s[..k]] + rest)[i] == rest[i - 1]; }
      }
    }
  }

  lemma RawSplitFront(piece: string, rest: string)
    requires SelfContained(piece)
    ensures RawSplit(piece + "," + rest) == [piece] + RawSplit(rest)
  {
    var r := "," + rest;
    var s := piece + r;
    assert piece + "," + rest == s;
    ScanThrough(piece, r, START);
    assert s[..|piece|] == piece && s[|piece| + 1..] == rest;
  }

  lemma {:induction false} RawSplitJoin(pieces: seq<string>)
    requires Separable(pieces)
    ensures RawSplit(Join(pieces)) == pieces
    decreases |pieces|
  {
    hide Cut, End;
    if |pieces| > 1 {
      var rest := pieces[1..];
      assert Separable(rest) by {
        forall i | 0 <= i < |rest| - 1 ensures SelfContained(rest[i]) { assert rest[i] == pieces[i + 1]; }
        assert rest[|rest| - 1] == pieces[|pieces| - 1];
      }
      RawSplitJoin(rest);
      RawSplitFront(pieces[0], Join(rest));
      assert pieces == [pieces[0]] + rest;
    }
  }

  // ----- Trimming -----

  /** White space changes no variable of the scanner. */
  lemma {:induction false} SpaceIsIdle(pad: string, st: State)
    requires AllSpace(pad)
    ensures Cut(pad, st) == |pad| && End(pad, st) == st
    decreases |pad|
  {
    if pad != "" {
      assert IsSpace(pad[0]);
      assert StepLength(pad, st.mode) == 1 && Step(pad, st) == st;
      SpaceIsIdle(pad[1..], st);
    }
  }

  lemma {:induction false} LeadingSpaceIsIdle(pad: string, r: string)
    requires AllSpace(pad)
    ensures Cut(pad + r, START) == |pad| + Cut(r, START) && End(pad + r, START) == End(r, START)
    decreases |pad|
  {
    if pad == "" {
      assert pad + r == r;
    } else {
      assert IsSpace(pad[0]);
      AppendDrop(pad, r, 1);
      assert StepLength(pad + r, Plain) == 1 && Step(pad + r, START) == START;
      LeadingSpaceIsIdle(pad[1..], r);
    }
  }

  lemma TrailingSpaceIsIdle(core: string, pad: string)
    requires AllSpace(pad)
    requires Cut(core + pad, START) == |core + pad|
    ensures Cut(core, START) == |core| && End(core, START) == End(core + pad, START)
  {
    if Cut(core, START) < |core| {
      ScanStops(core, pad, START);
    } else {
      ScanThrough(core, pad, START);
      SpaceIsIdle(pad, End(core, START));
    }
  }

  /** Trimming a piece without top-level commas keeps it so, and keeps what its scan leaves open. */
  lemma TrimKeepsScan(piece: string)
    requires Cut(piece, START) == |piece|
    ensures Cut(Strip(piece), START) == |Strip(piece)| && End(Strip(piece), START) == End(piece, START)
  {
    hide Cut, End, Strip;
    var left, right := StripSplits(piece);
    var core := Strip(piece);
    assert piece == left + (core + right);
    LeadingSpaceIsIdle(left, core + right);
    TrailingSpaceIsIdle(core, right);
  }

  // ----- The returned pieces -----

  /** The values returned are the raw pieces trimmed, without an empty tail. */
  lemma {:induction false} SplitTrimsRaw(s: string)
    ensures var raw := RawSplit(s);
            && |raw| - 1 <= |Split(s)| <= |raw|
            && (forall i | 0 <= i < |Split(s)| :: Split(s)[i] == Strip(raw[i]))
            && (|Split(s)| == |raw| <==> Strip(raw[|raw| - 1]) != "")
    decreases |s|
  {
    hide Cut, Strip;
    var k := Cut(s, START);
    if k < |s| {
      SplitTrimsRaw(s[k + 1..]);
    }
  }

  /** Every value returned is trimmed and has no top-level comma, every value before the tail is self-contained, and
    * every non-empty value splits to itself. */
  lemma ValuesAreSeparated(s: string, i: nat)
    requires i < |Split(s)|
    ensures var v := Split(s)[i];
            && Trimmed(v) && Cut(v, START) == |v|
            && (i < |RawSplit(s)| - 1 ==> SelfContained(v))
            && (v != "" ==> Split(v) == [v])
  {
    hide Cut, Strip, Split;
    SplitTrimsRaw(s);
    RawSplitSeparable(s);
    var raw := RawSplit(s);
    var v := Split(s)[i];
    TrimKeepsScan(raw[i]);
    var _, _ := StripSplits(raw[i]);
    TrimmedIsFixed(v);
    if v != "" {
      assert RawSplit(v) == [v];
      SplitTrimsRaw(v);
    }
  }

  // ----- The round trip -----

  function TotalLength(pieces: seq<string>): nat {
    if pieces == [] then 0 else |pieces[0]| + TotalLength(pieces[1..])
  }

  lemma {:induction false} JoinLength(pieces: seq<string>)
    requires pieces != []
    ensures |Join(pieces)| == TotalLength(pieces) + |pieces| - 1
    decreases |pieces|
  {
    if |pieces| > 1 {
      JoinLength(pieces[1..]);
    }
  }

  /** `small` has no longer pieces than the first ones of `big`. */
  lemma {:induction false} ShorterPieces(small: seq<string>, big: seq<string>)
    requires |small| <= |big|
    requires forall i | 0 <= i < |small| :: |small[i]| <= |big[i]|
    ensures TotalLength(small) <= TotalLength(big)
    ensures |small| == |big| && TotalLength(small) == TotalLength(big) ==>
              forall i | 0 <= i < |small| :: |small[i]| == |big[i]|
  {
    if small != [] {
      ShorterPieces(small[1..], big[1..]);
      if |small| == |big| && TotalLength(small) == TotalLength(big) {
        forall i | 0 <= i < |small| ensures |small[i]| == |big[i]| {
          if i > 0 { assert |small[1..][i - 1]| == |big[1..][i - 1]|; }
        }
      }
    }
  }

  /** Splitting gives back the joined pieces exactly when the pieces are trimmed, the last is not empty and the list
    * is separable. */
  lemma SplitInvertsJoinIff(pieces: seq<string>)
    requires pieces != []
    ensures Split(Join(pieces)) == pieces <==>
              && (forall i | 0 <= i < |pieces| :: Trimmed(pieces[i]))
              && pieces[|pieces| - 1] != ""
              && Separable(pieces)
  {
    hide Cut, Join, Split, RawSplit;
    if Split(Join(pieces)) == pieces {
      RawIsJoined(pieces);
    }
    if (forall i | 0 <= i < |pieces| :: Trimmed(pieces[i])) && pieces[|pieces| - 1] != "" && Separable(pieces) {
      RawSplitJoin(pieces);
      SplitTrimsRaw(Join(pieces));
      forall i | 0 <= i < |pieces| ensures Strip(pieces[i]) == pieces[i] {
        TrimmedIsFixed(pieces[i]);
      }
    }
  }

  /** When splitting gives back the joined pieces, nothing was trimmed: the lengths leave no room for white space. */
  lemma RawIsJoined(pieces: seq<string>)
    requires pieces != []
    requires Split(Join(pieces)) == pieces
    ensures RawSplit(Join(pieces)) == pieces
    ensures forall i | 0 <= i < |pieces| :: Trimmed(pieces[i])
    ensures pieces[|pieces| - 1] != "" && Separable(pieces)
  {
    hide Cut, End, Strip, Split, RawSplit, Join, Trimmed, Separable;
    var raw := RawSplit(Join(pieces));
    SplitTrimsRaw(Join(pieces));
    JoinRawSplit(Join(pieces));
    forall i | 0 <= i < |pieces| ensures Trimmed(pieces[i]) && Shortens(pieces[i], raw[i]) {
      StripShrinks(raw[i]);
    }
    LengthsForceEquality(pieces, raw);
    RawSplitSeparable(Join(pieces));
  }

  /** `short` is no longer than `long`, and only itself is as long. */
  predicate Shortens(short: string, long: string) {
    |short| <= |long| && (|short| == |long| ==> short == long)
  }

  lemma LengthsForceEquality(pieces: seq<string>, raw: seq<string>)
    requires pieces != [] && |raw| - 1 <= |pieces| <= |raw|
    requires forall i | 0 <= i < |pieces| :: Shortens(pieces[i], raw[i])
    requires Join(raw) == Join(pieces)
    ensures raw == pieces
  {
    hide Join, TotalLength;
    JoinLength(pieces);
    JoinLength(raw);
    ShorterPieces(pieces, raw);
    assert |raw| == |pieces|;
    forall i | 0 <= i < |pieces| ensures raw[i] == pieces[i] {
      assert Shortens(pieces[i], raw[i]);
    }
  }
}
