/** JSON Pointer: the encoder `_pointer_join` and, as its independent reference, the decoding and evaluation
  * of sections 3 and 4 of RFC 6901. */
module JsonPointer {
  import opened Basics
  import opened JsonValues

  /** `s.replace(c, with)`. */
  function Replace(s: string, c: char, with: string): string {
    if s == "" then "" else (if s[0] == c then with else [s[0]]) + Replace(s[1..], c, with)
  }

  function Escape(segment: string): string {
    Replace(Replace(segment, '~', "~0"), '/', "~1")
  }

  function PointerJoin(pointer: string, segment: string): string {
    var escaped := Escape(segment);
    if pointer != "" then pointer + "/" + escaped else "/" + escaped
  }

  /** The pointer built by joining the segments of `path` one by one, as the recursive diff does. */
  function Encode(path: seq<string>): string {
    if path == [] then "" else PointerJoin(Encode(path[..|path| - 1]), path[|path| - 1])
  }

  // ----- RFC 6901 -----

  /** Replace every occurrence of the pair `a``b`, left to right. */
  function ReplacePair(s: string, a: char, b: char, with: char): string {
    if s == "" then ""
    else if |s| >= 2 && s[0] == a && s[1] == b then [with] + ReplacePair(s[2..], a, b, with)
    else [s[0]] + ReplacePair(s[1..], a, b, with)
  }

  /** Section 4: first `~1` to `/`, then `~0` to `~`. */
  function Unescape(token: string): string {
    ReplacePair(ReplacePair(token, '~', '1', '/'), '~', '0', '~')
  }

  /** Section 3: a pointer is a sequence of reference tokens, each prefixed by a slash. */
  function Decode(pointer: string): seq<string>
    decreases |pointer|
  {
    if pointer == "" then []
    else
      var rest := pointer[1..];
      var k := FirstIndex(rest, '/');
      [Unescape(rest[..k])] + Decode(rest[k..])
  }

  function Digit(d: nat): char
    requires d < 10
  {
    "0123456789"[d]
  }

  /** `str(n)`. */
  function Decimal(n: nat): string {
    if n < 10 then [Digit(n)] else Decimal(n / 10) + [Digit(n % 10)]
  }

  predicate AllDigits(s: string) {
    forall i | 0 <= i < |s| :: '0' <= s[i] <= '9'
  }

  function DecimalValue(s: string): nat
    requires AllDigits(s)
  {
    if s == "" then 0
    else 10 * DecimalValue(s[..|s| - 1]) + (s[|s| - 1] as int - '0' as int)
  }

  /** Section 4: digits without a leading zero. */
  function ArrayIndex(token: string): Option<nat> {
    if token != "" && AllDigits(token) && (token[0] == '0' ==> |token| == 1)
    then Some(DecimalValue(token))
    else None
  }

  /** The value a reference-token path leads to. */
  function Eval(doc: Json, path: seq<string>): Option<Json>
    decreases |path|
  {
    if path == [] then Some(doc)
    else
      match doc
      case Obj(fields) => if path[0] in fields then Eval(fields[path[0]], path[1..]) else None
      case List(items) =>
        var index := ArrayIndex(path[0]);
        if index.Some? && index.value < |items| then Eval(items[index.value], path[1..]) else None
      case _ => None
  }

  // ----- Round trips -----

  lemma ReplaceFront(head: char, tail: string, c: char, with: string)
    ensures Replace([head] + tail, c, with) == (if head == c then with else [head]) + Replace(tail, c, with)
  {
    assert ([head] + tail)[1..] == tail;
  }

  lemma PairHit(tail: string, a: char, b: char, with: char)
    ensures ReplacePair([a] + ([b] + tail), a, b, with) == [with] + ReplacePair(tail, a, b, with)
  {
    hide ReplacePair;
    var s := [a] + ([b] + tail);
    assert s[2..] == tail;
    PairFront(s, tail, a, b, with);
  }

  lemma PairFront(s: string, tail: string, a: char, b: char, with: char)
    requires |s| >= 2 && s[0] == a && s[1] == b && s[2..] == tail
    ensures ReplacePair(s, a, b, with) == [with] + ReplacePair(tail, a, b, with)
  {
  }

  lemma PairMiss(head: char, tail: string, a: char, b: char, with: char)
    requires head != a || tail == "" || tail[0] != b
    ensures ReplacePair([head] + tail, a, b, with) == [head] + ReplacePair(tail, a, b, with)
  {
    assert ([head] + tail)[1..] == tail;
  }

  lemma {:induction false} UnescapeEscape(segment: string)
    ensures ReplacePair(Escape(segment), '~', '1', '/') == Replace(segment, '~', "~0")
    ensures Unescape(Escape(segment)) == segment
  {
    if segment != "" {
      UnescapeEscape(segment[1..]);
      UnescapeEscapeFront(segment, segment[0], segment[1..]);
    }
  }

  lemma UnescapeEscapeFront(segment: string, head: char, tail: string)
    requires segment == [head] + tail
    requires ReplacePair(Escape(tail), '~', '1', '/') == Replace(tail, '~', "~0")
    requires Unescape(Escape(tail)) == tail
    ensures ReplacePair(Escape(segment), '~', '1', '/') == Replace(segment, '~', "~0")
    ensures Unescape(Escape(segment)) == segment
  {
    hide Replace, ReplacePair;
    var half, full := Replace(tail, '~', "~0"), Escape(tail);
    ReplaceFront(head, tail, '~', "~0");
    ReplaceFront(head, half, '/', "~1");
    if head == '~' {
      assert "~0" + half == ['~'] + (['0'] + half);
      ReplaceFront('~', ['0'] + half, '/', "~1");
      ReplaceFront('0', half, '/', "~1");
      PairMiss('~', ['0'] + full, '~', '1', '/');
      PairMiss('0', full, '~', '1', '/');
      PairHit(half, '~', '0', '~');
    } else if head == '/' {
      assert "~1" + full == ['~'] + (['1'] + full);
      PairHit(full, '~', '1', '/');
      PairMiss('/', half, '~', '0', '~');
    } else {
      PairMiss(head, full, '~', '1', '/');
      PairMiss(head, half, '~', '0', '~');
    }
  }

  lemma {:induction false} ReplacedSlashIsGone(s: string)
    ensures '/' !in Replace(s, '/', "~1")
  {
    if s != "" {
      ReplacedSlashIsGone(s[1..]);
    }
  }

  lemma {:induction false} ReplaceAppend(s: string, t: string, c: char, with: string)
    ensures Replace(s + t, c, with) == Replace(s, c, with) + Replace(t, c, with)
  {
    if s == "" {
      assert s + t == t;
    } else {
      assert (s + t)[1..] == s[1..] + t;
      ReplaceAppend(s[1..], t, c, with);
    }
  }

  /** Section 3: the escaping works character by character, `~` becomes `~0`, `/` becomes `~1`, and nothing else
    * changes. */
  lemma EscapeIs(s: string, t: string, c: char)
    ensures Escape(s + t) == Escape(s) + Escape(t) && Escape("") == ""
    ensures Escape("~") == "~0" && Escape("/") == "~1"
    ensures c != '~' && c != '/' ==> Escape([c]) == [c]
  {
    ReplaceAppend(s, t, '~', "~0");
    ReplaceAppend(Replace(s, '~', "~0"), Replace(t, '~', "~0"), '/', "~1");
    OneReplaced('~', '~', "~0");
    OneReplaced('/', '~', "~0");
    OneReplaced('/', '/', "~1");
    OneReplaced(c, '~', "~0");
    OneReplaced(c, '/', "~1");
    ReplaceAbsent("~0", '/', "~1");
  }

  lemma OneReplaced(x: char, c: char, with: string)
    ensures Replace([x], c, with) == if x == c then with else [x]
  {
    assert [x][1..] == "";
  }

  lemma EscapeFacts(segment: string)
    ensures '/' !in Escape(segment)
    ensures Unescape(Escape(segment)) == segment
  {
    ReplacedSlashIsGone(Replace(segment, '~', "~0"));
    UnescapeEscape(segment);
  }

  lemma {:induction false} EscapePlain(name: string)
    requires '~' !in name && '/' !in name
    ensures Escape(name) == name
  {
    ReplaceAbsent(name, '~', "~0");
    ReplaceAbsent(name, '/', "~1");
  }

  lemma {:induction false} ReplaceAbsent(s: string, c: char, with: string)
    requires c !in s
    ensures Replace(s, c, with) == s
  {
    if s != "" {
      ReplaceAbsent(s[1..], c, with);
    }
  }

  /** Seen from the front: the first segment is what the pointer starts with. */
  lemma {:induction false} EncodeFront(path: seq<string>)
    requires path != []
    ensures Encode(path) == "/" + Escape(path[0]) + Encode(path[1..])
    decreases |path|
  {
    hide Escape, Encode;
    var front, last := path[..|path| - 1], path[|path| - 1];
    assert path == front + [last];
    EncodeStep(front, last);
    if front == [] {
      assert path[1..] == [];
      EncodeNothing();
    } else {
      EncodeFront(front);
      assert path[1..] == front[1..] + [last];
      EncodeStep(front[1..], last);
      Regroup("/" + Escape(path[0]), Encode(front[1..]), "/", Escape(last));
    }
  }

  lemma Regroup(a: string, b: string, c: string, d: string)
    ensures (a + b) + c + d == a + (b + c + d)
  {
  }

  lemma EncodeNothing()
    ensures Encode([]) == ""
  {
  }

  lemma EncodeStep(path: seq<string>, segment: string)
    ensures Encode(path + [segment]) == PointerJoin(Encode(path), segment)
    ensures Encode(path + [segment]) == Encode(path) + "/" + Escape(segment)
  {
    assert (path + [segment])[..|path|] == path;
  }

  /** Joining then decoding by the RFC gives back every segment, so joining is injective in its segments. */
  lemma {:induction false} DecodeEncode(path: seq<string>)
    ensures Decode(Encode(path)) == path
  {
    if path != [] {
      DecodeEncode(path[1..]);
      DecodeFront(path);
    }
  }

  lemma DecodeFront(path: seq<string>)
    requires path != []
    ensures Decode(Encode(path)) == [path[0]] + Decode(Encode(path[1..]))
  {
    EncodeFront(path);
    if path[1..] != [] { EncodeFront(path[1..]); }
    EscapeFacts(path[0]);
    DecodeToken(Escape(path[0]), Encode(path[1..]));
  }

  lemma DecodeToken(token: string, rest: string)
    requires '/' !in token
    requires rest == "" || rest[0] == '/'
    ensures Decode("/" + token + rest) == [Unescape(token)] + Decode(rest)
  {
    var pointer := "/" + token + rest;
    assert pointer[1..] == token + rest;
    FirstSlashAfter(token, rest);
    assert (token + rest)[..|token|] == token && (token + rest)[|token|..] == rest;
  }

  lemma FirstSlashAfter(token: string, rest: string)
    requires '/' !in token
    requires rest == "" || rest[0] == '/'
    ensures FirstIndex(token + rest, '/') == |token|
  {
    assert (token + rest)[..|token|] == token;
    FirstIndexIs(token + rest, '/', |token|);
  }

  lemma DigitAppended(s: string, d: nat, longer: string)
    requires AllDigits(s) && d < 10 && longer == s + [Digit(d)]
    ensures AllDigits(longer) && DecimalValue(longer) == 10 * DecimalValue(s) + d
  {
    assert longer[..|longer| - 1] == s;
  }

  lemma {:induction false} ArrayIndexDecimal(n: nat)
    ensures AllDigits(Decimal(n)) && DecimalValue(Decimal(n)) == n
    ensures ArrayIndex(Decimal(n)) == Some(n)
    ensures n > 0 ==> Decimal(n)[0] != '0'
  {
    hide DecimalValue;
    if n < 10 {
      DigitAppended("", n, Decimal(n));
      DecimalValueEmpty();
    } else {
      ArrayIndexDecimal(n / 10);
      DigitAppended(Decimal(n / 10), n % 10, Decimal(n));
      assert Decimal(n)[0] == Decimal(n / 10)[0];
    }
  }

  lemma DecimalValueEmpty()
    ensures DecimalValue("") == 0
  {
  }

  lemma DecimalAppended(n: nat, d: nat)
    requires n > 0 && d < 10
    ensures Decimal(10 * n + d) == Decimal(n) + [Digit(d)]
  {
  }

  /** A token read as an array index is the decimal spelling of that index. */
  lemma {:induction false} DecimalArrayIndex(token: string)
    requires ArrayIndex(token).Some?
    ensures Decimal(ArrayIndex(token).value) == token
    ensures token[0] != '0' ==> ArrayIndex(token).value > 0
    decreases |token|
  {
    hide DecimalValue;
    var front, last := token[..|token| - 1], token[|token| - 1];
    var d := last as int - '0' as int;
    assert Digit(d) == last && token == front + [last];
    DigitAppended(front, d, token);
    if front != "" {
      assert front[0] == token[0];
      DecimalArrayIndex(front);
      DecimalAppended(ArrayIndex(front).value, d);
    } else {
      DecimalValueEmpty();
    }
  }

  lemma {:induction false} EvalAppend(doc: Json, path: seq<string>, more: seq<string>)
    ensures Eval(doc, path + more) ==
            match Eval(doc, path) { case None => None case Some(there) => Eval(there, more) }
    decreases |path|
  {
    if path == [] {
      assert path + more == more;
    } else {
      assert (path + more)[1..] == path[1..] + more;
      match doc
      case Obj(fields) =>
        if path[0] in fields { EvalAppend(fields[path[0]], path[1..], more); }
      case List(items) =>
        var index := ArrayIndex(path[0]);
        if index.Some? && index.value < |items| { EvalAppend(items[index.value], path[1..], more); }
      case _ =>
    }
  }

  // ----- Section 6: pointers in URI fragments -----

  function HexValue(c: char): Option<nat> {
    if '0' <= c <= '9' then Some(c as int - '0' as int)
    else if 'a' <= c <= 'f' then Some(c as int - 'a' as int + 10)
    else if 'A' <= c <= 'F' then Some(c as int - 'A' as int + 10)
    else None
  }

  /** The octet that a percent-encoded triplet at the front of `s` stands for. */
  function Octet(s: string): Option<nat> {
    if |s| >= 3 && s[0] == '%' && HexValue(s[1]).Some? && HexValue(s[2]).Some?
    then Some(16 * HexValue(s[1]).value + HexValue(s[2]).value)
    else None
  }

  /** `value` extended by the payload of `count` UTF-8 continuation octets at the front of `s`. */
  function Continue(value: nat, s: string, count: nat): Option<nat>
    decreases count
  {
    if count == 0 then Some(value)
    else
      match Octet(s)
      case Some(b) => if 0x80 <= b < 0xC0 then Continue(64 * value + b - 0x80, s[3..], count - 1) else None
      case None => None
  }

  predicate IsScalarValue(v: int) {
    0 <= v < 0xD800 || 0xE000 <= v < 0x11_0000
  }

  /** The character decoded from `lead` and `count` more octets, if its value is at least `least`. */
  function Multibyte(lead: nat, s: string, count: nat, least: nat): Option<char> {
    match Continue(lead, s, count)
    case Some(value) => if value >= least && IsScalarValue(value) then Some(value as char) else None
    case None => None
  }

  /** The character at the front of a percent-encoded text, and the number of triplets it takes; an octet that begins no
    * character becomes the replacement character. */
  function Utf8Front(s: string): (char, nat)
    requires Octet(s).Some?
  {
    var b := Octet(s).value;
    var (decoded, count) :=
      if b < 0x80 then (Some(b as char), 1)
      else if 0xC0 <= b < 0xE0 then (Multibyte(b - 0xC0, s[3..], 1, 0x80), 2)
      else if 0xE0 <= b < 0xF0 then (Multibyte(b - 0xE0, s[3..], 2, 0x800), 3)
      else if 0xF0 <= b < 0xF8 then (Multibyte(b - 0xF0, s[3..], 3, 0x1_0000), 4)
      else (None, 1);
    if decoded.Some? then (decoded.value, count) else ('\U{FFFD}', 1)
  }

  lemma {:induction false} ContinueTakes(value: nat, s: string, count: nat)
    requires Continue(value, s, count).Some?
    ensures 3 * count <= |s| && '/' !in s[..3 * count]
    decreases count
  {
    if count > 0 {
      ContinueTakes(64 * value + Octet(s).value - 0x80, s[3..], count - 1);
      assert s[..3 * count] == s[..3] + s[3..][..3 * (count - 1)];
    }
  }

  lemma Utf8FrontTakes(s: string)
    requires Octet(s).Some?
    ensures 1 <= Utf8Front(s).1 && 3 * Utf8Front(s).1 <= |s| && '/' !in s[..3 * Utf8Front(s).1]
  {
    var b, n := Octet(s).value, Utf8Front(s).1;
    if n > 1 {
      ContinueTakes(b - (if n == 2 then 0xC0 else if n == 3 then 0xE0 else 0xF0), s[3..], n - 1);
      assert s[..3 * n] == s[..3] + s[3..][..3 * (n - 1)];
    }
  }

  function PercentDecode(s: string): string
    decreases |s|
  {
    if s == "" then ""
    else if Octet(s).None? then [s[0]] + PercentDecode(s[1..])
    else
      Utf8FrontTakes(s);
      [Utf8Front(s).0] + PercentDecode(s[3 * Utf8Front(s).1..])
  }

  /** The reference tokens of a fragment `#...`. */
  function FragmentTokens(ref: string): seq<string>
    requires ref != ""
  {
    Decode(PercentDecode(ref[1..]))
  }

  /** Decoding a text that holds any triplet makes it shorter. */
  lemma {:induction false} PercentShrinks(s: string)
    ensures |PercentDecode(s)| <= |s|
    ensures |PercentDecode(s)| == |s| ==> PercentDecode(s) == s
    decreases |s|
  {
    hide Octet, Utf8Front;
    if s != "" {
      if Octet(s).None? {
        PercentShrinks(s[1..]);
      } else {
        Utf8FrontTakes(s);
        PercentShrinks(s[3 * Utf8Front(s).1..]);
      }
    }
  }

  lemma {:induction false} PercentKeepsSlash(s: string)
    requires '/' in s
    ensures '/' in PercentDecode(s)
    decreases |s|
  {
    hide Utf8Front;
    if Octet(s).None? {
      if s[0] != '/' { PercentKeepsSlash(s[1..]); }
    } else {
      Utf8FrontTakes(s);
      var n := 3 * Utf8Front(s).1;
      assert s == s[..n] + s[n..];
      PercentKeepsSlash(s[n..]);
    }
  }

  lemma {:induction false} PercentAfterPlain(p: string, s: string)
    requires '%' !in p
    ensures PercentDecode(p + s) == p + PercentDecode(s)
  {
    if p == "" {
      assert p + s == s;
    } else {
      assert (p + s)[0] == p[0] && (p + s)[1..] == p[1..] + s;
      assert Octet(p + s) == None;
      PercentAfterPlain(p[1..], s);
      assert [p[0]] + (p[1..] + PercentDecode(s)) == p + PercentDecode(s);
    }
  }

  lemma {:induction false} ReplacePairShrinks(s: string, a: char, b: char, with: char)
    ensures |ReplacePair(s, a, b, with)| <= |s|
    ensures |ReplacePair(s, a, b, with)| == |s| ==> ReplacePair(s, a, b, with) == s
    decreases |s|
  {
    if s != "" {
      if |s| >= 2 && s[0] == a && s[1] == b {
        ReplacePairShrinks(s[2..], a, b, with);
      } else {
        ReplacePairShrinks(s[1..], a, b, with);
      }
    }
  }

  lemma UnescapeShrinks(token: string)
    ensures |Unescape(token)| <= |token|
    ensures |Unescape(token)| == |token| ==> Unescape(token) == token
  {
    ReplacePairShrinks(token, '~', '1', '/');
    ReplacePairShrinks(ReplacePair(token, '~', '1', '/'), '~', '0', '~');
  }

  // ----- Percent-encoding, for the way back -----

  function HexChar(n: nat): char
    requires n < 16
  {
    "0123456789ABCDEF"[n]
  }

  /** An octet as a percent-encoded triplet. */
  function Triplet(b: nat): (t: string)
    requires b < 256
    ensures |t| == 3
  {
    ['%', HexChar(b / 16), HexChar(b % 16)]
  }

  /** The UTF-8 form of a character, percent-encoded. */
  function EncodeChar(c: char): (t: string)
    ensures |t| >= 3
  {
    var v := c as int;
    if v < 0x80 then Triplet(v)
    else if v < 0x800 then Triplet(0xC0 + v / 64) + Triplet(0x80 + v % 64)
    else if v < 0x1_0000 then Triplet(0xE0 + v / 4096) + (Triplet(0x80 + v / 64 % 64) + Triplet(0x80 + v % 64))
    else Triplet(0xF0 + v / 262144)
         + (Triplet(0x80 + v / 4096 % 64) + (Triplet(0x80 + v / 64 % 64) + Triplet(0x80 + v % 64)))
  }

  function PercentEncode(s: string): string {
    if s == "" then "" else EncodeChar(s[0]) + PercentEncode(s[1..])
  }

  lemma HexRoundTrip(n: nat)
    requires n < 16
    ensures HexValue(HexChar(n)) == Some(n)
  {
  }

  lemma DropMore(s: string, t: string, k: nat, rest: string)
    requires |s| >= 3 && s[3..] == t && k <= |t| && t[k..] == rest
    ensures s[3 + k..] == rest
  {
  }

  lemma TripletOctet(b: nat, rest: string)
    requires b < 256
    ensures Octet(Triplet(b) + rest) == Some(b) && (Triplet(b) + rest)[3..] == rest
  {
    hide HexValue, HexChar;
    var s := Triplet(b) + rest;
    HexRoundTrip(b / 16);
    HexRoundTrip(b % 16);
    assert s[1] == HexChar(b / 16) && s[2] == HexChar(b % 16) && s[0] == '%';
  }

  lemma ContinueOne(value: nat, low: nat, rest: string, count: nat)
    requires low < 64
    ensures Continue(value, Triplet(0x80 + low) + rest, count + 1) == Continue(64 * value + low, rest, count)
  {
    hide Octet, Triplet;
    TripletOctet(0x80 + low, rest);
  }

  lemma ContinueNone(value: nat, rest: string)
    ensures Continue(value, rest, 0) == Some(value)
  {
  }

  lemma FrontOne(c: char, rest: string)
    requires c as int < 0x80
    ensures Octet(EncodeChar(c) + rest).Some? && Utf8Front(EncodeChar(c) + rest) == (c, 1)
    ensures (EncodeChar(c) + rest)[3..] == rest
  {
    hide Octet, Triplet;
    TripletOctet(c as int, rest);
  }

  lemma FrontTwo(c: char, rest: string)
    requires 0x80 <= c as int < 0x800
    ensures Octet(EncodeChar(c) + rest).Some? && Utf8Front(EncodeChar(c) + rest) == (c, 2)
    ensures (EncodeChar(c) + rest)[6..] == rest
  {
    hide Octet, Continue, Triplet;
    var v := c as int;
    var a, b := Triplet(0xC0 + v / 64), Triplet(0x80 + v % 64) + rest;
    assert EncodeChar(c) + rest == a + b;
    TripletOctet(0xC0 + v / 64, b);
    TripletOctet(0x80 + v % 64, rest);
    ContinueOne(v / 64, v % 64, rest, 0);
    ContinueNone(64 * (v / 64) + v % 64, rest);
    DropMore(a + b, b, 3, rest);
  }

  lemma FrontThree(c: char, rest: string)
    requires 0x800 <= c as int < 0x1_0000
    ensures Octet(EncodeChar(c) + rest).Some? && Utf8Front(EncodeChar(c) + rest) == (c, 3)
    ensures (EncodeChar(c) + rest)[9..] == rest
  {
    hide Octet, Continue, Triplet;
    var v := c as int;
    var d := Triplet(0x80 + v % 64) + rest;
    var b := Triplet(0x80 + v / 64 % 64) + d;
    var a := Triplet(0xE0 + v / 4096);
    assert EncodeChar(c) + rest == a + b;
    TripletOctet(0xE0 + v / 4096, b);
    TripletOctet(0x80 + v / 64 % 64, d);
    TripletOctet(0x80 + v % 64, rest);
    ContinueOne(v / 4096, v / 64 % 64, d, 1);
    ContinueOne(64 * (v / 4096) + v / 64 % 64, v % 64, rest, 0);
    ContinueNone(64 * (64 * (v / 4096) + v / 64 % 64) + v % 64, rest);
    DropMore(b, d, 3, rest);
    DropMore(a + b, b, 6, rest);
  }

  lemma ContinueThree(p: nat, q: nat, r: nat, t: nat, rest: string)
    requires q < 64 && r < 64 && t < 64
    ensures Continue(p, Triplet(0x80 + q) + (Triplet(0x80 + r) + (Triplet(0x80 + t) + rest)), 3)
            == Some(64 * (64 * (64 * p + q) + r) + t)
  {
    hide Octet, Continue, Triplet;
    ContinueOne(p, q, Triplet(0x80 + r) + (Triplet(0x80 + t) + rest), 2);
    ContinueOne(64 * p + q, r, Triplet(0x80 + t) + rest, 1);
    ContinueOne(64 * (64 * p + q) + r, t, rest, 0);
    ContinueNone(64 * (64 * (64 * p + q) + r) + t, rest);
  }

  lemma FourDigits(v: nat)
    requires v < 0x11_0000
    ensures v / 262144 < 8
    ensures 64 * (64 * (64 * (v / 262144) + v / 4096 % 64) + v / 64 % 64) + v % 64 == v
  {
  }

  lemma FourDropped(a: string, q: string, r: string, t: string, rest: string)
    requires |a| == |q| == |r| == |t| == 3
    ensures (a + (q + (r + (t + rest))))[3..] == q + (r + (t + rest))
    ensures (a + (q + (r + (t + rest))))[12..] == rest
  {
  }

  lemma FourGrouped(a: string, q: string, r: string, t: string, rest: string)
    ensures (a + (q + (r + t))) + rest == a + (q + (r + (t + rest)))
  {
  }

  lemma FrontFour(c: char, rest: string)
    requires 0x1_0000 <= c as int
    ensures Octet(EncodeChar(c) + rest).Some? && Utf8Front(EncodeChar(c) + rest) == (c, 4)
    ensures (EncodeChar(c) + rest)[12..] == rest
  {
    hide Octet, Continue, Triplet;
    var v := c as int;
    FourDigits(v);
    var p, q, r, t := v / 262144, v / 4096 % 64, v / 64 % 64, v % 64;
    FourGrouped(Triplet(0xF0 + p), Triplet(0x80 + q), Triplet(0x80 + r), Triplet(0x80 + t), rest);
    FourDropped(Triplet(0xF0 + p), Triplet(0x80 + q), Triplet(0x80 + r), Triplet(0x80 + t), rest);
    TripletOctet(0xF0 + p, Triplet(0x80 + q) + (Triplet(0x80 + r) + (Triplet(0x80 + t) + rest)));
    ContinueThree(p, q, r, t, rest);
  }

  lemma FrontDecodes(c: char, rest: string)
    ensures PercentDecode(EncodeChar(c) + rest) == [c] + PercentDecode(rest)
  {
    hide Octet, Utf8Front, EncodeChar;
    if c as int < 0x80 {
      FrontOne(c, rest);
    } else if c as int < 0x800 {
      FrontTwo(c, rest);
    } else if c as int < 0x1_0000 {
      FrontThree(c, rest);
    } else {
      FrontFour(c, rest);
    }
  }

  /** Every text, percent-encoded as UTF-8, decodes to itself. */
  lemma {:induction false} PercentRoundTrip(s: string)
    ensures PercentDecode(PercentEncode(s)) == s
  {
    hide PercentDecode, EncodeChar;
    if s == "" {
      UndecodedText("");
    } else {
      FrontDecodes(s[0], PercentEncode(s[1..]));
      PercentRoundTrip(s[1..]);
    }
  }

  /** A text without percent signs decodes to itself. */
  lemma UndecodedText(s: string)
    requires '%' !in s
    ensures PercentDecode(s) == s
  {
    PercentAfterPlain(s, "");
    assert s + "" == s;
  }
}
