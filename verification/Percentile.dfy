/** The interpolated percentile of the latency benchmark; floats are modelled as reals. */
module Percentile {
  import opened Basics

  // ----- Sorting -----

  predicate IsSorted(s: seq<real>) {
    forall i, j | 0 <= i <= j < |s| :: s[i] <= s[j]
  }

  function Insert(x: real, s: seq<real>): seq<real> {
    if s == [] || x <= s[0] then [x] + s else [s[0]] + Insert(x, s[1..])
  }

  /** `sorted(data)`. */
  function Sorted(data: seq<real>): seq<real> {
    if data == [] then [] else Insert(data[0], Sorted(data[1..]))
  }

  lemma {:induction false} InsertFacts(x: real, s: seq<real>)
    ensures |Insert(x, s)| == |s| + 1
    ensures multiset(Insert(x, s)) == multiset(s) + multiset{x}
  {
    if s != [] && x > s[0] {
      InsertFacts(x, s[1..]);
      assert s == [s[0]] + s[1..];
    }
  }

  lemma {:induction false} InsertSorts(x: real, s: seq<real>)
    requires IsSorted(s)
    ensures IsSorted(Insert(x, s))
    ensures forall y | y in Insert(x, s) :: y == x || y in s
  {
    if s != [] && x > s[0] {
      var rest := s[1..];
      assert IsSorted(rest);
      InsertSorts(x, rest);
      assert forall y | y in rest :: y in s;
      ConsSorted(s[0], Insert(x, rest));
    } else {
      ConsSorted(x, s);
    }
  }

  lemma ConsSorted(x: real, s: seq<real>)
    requires IsSorted(s) && forall y | y in s :: x <= y
    ensures IsSorted([x] + s)
  {
    var r := [x] + s;
    forall i, j | 0 <= i <= j < |r| ensures r[i] <= r[j] {
      if i > 0 {
        assert r[i] == s[i - 1] && r[j] == s[j - 1];
      } else if j > 0 {
        assert r[j] == s[j - 1] && s[j - 1] in s;
      }
    }
  }

  lemma {:induction false} SortedFacts(data: seq<real>)
    ensures IsSorted(Sorted(data)) && |Sorted(data)| == |data|
    ensures multiset(Sorted(data)) == multiset(data)
  {
    if data != [] {
      SortedFacts(data[1..]);
      InsertFacts(data[0], Sorted(data[1..]));
      InsertSorts(data[0], Sorted(data[1..]));
      assert data == [data[0]] + data[1..];
    }
  }

  // ----- The percentile -----

  /** `int(k)`: truncation toward zero. */
  function Truncate(k: real): int {
    if k >= 0.0 then k.Floor else -(-k).Floor
  }

  /** Python indexing, where negative indices count from the end and others may raise. */
  function At(s: seq<real>, i: int): Option<real> {
    if 0 <= i < |s| then Some(s[i]) else if -|s| <= i < 0 then Some(s[|s| + i]) else None
  }

  function Between(a: real, b: real, share: real): real {
    a + share * (b - a)
  }

  /** The value at the fractional position `k` of the sorted data. */
  function AtPosition(s: seq<real>, k: real): Option<real> {
    var f := Truncate(k);
    var c := f + 1;
    if c >= |s| then At(s, f)
    else if At(s, f).None? || At(s, c).None? then None
    else Some(Between(At(s, f).value, At(s, c).value, k - f as real))
  }

  function Position(n: nat, p: real): real {
    (n as real - 1.0) * (p / 100.0)
  }

  /** `percentile`; `None` is an `IndexError`. */
  function Percentile(data: seq<real>, p: real): Option<real> {
    if data == [] then Some(0.0) else AtPosition(Sorted(data), Position(|data|, p))
  }

  lemma PositionGrows(n: nat, p: real, q: real)
    requires n > 0 && p <= q
    ensures Position(n, p) <= Position(n, q)
    ensures Position(n, 0.0) == 0.0 && Position(n, 100.0) == n as real - 1.0
  {
    ScaleOrder(n as real - 1.0, p / 100.0, q / 100.0);
  }

  /** Between two neighbours the interpolation stays between them and follows the position. */
  lemma SegmentBounds(a: real, b: real, x: real, y: real)
    requires a <= b && 0.0 <= x <= y <= 1.0
    ensures a <= Between(a, b, x) <= Between(a, b, y) <= b
  {
    ScaleOrder(b - a, 0.0, x);
    ScaleOrder(b - a, x, y);
    ScaleOrder(b - a, y, 1.0);
  }

  lemma BetweenStarts(a: real, b: real)
    ensures Between(a, b, 0.0) == a
  {
  }

  /** A position within the data has a value between those of its two neighbours. */
  lemma PositionBounds(s: seq<real>, k: real)
    requires s != [] && IsSorted(s) && 0.0 <= k <= |s| as real - 1.0
    ensures AtPosition(s, k).Some?
    ensures s[k.Floor] <= AtPosition(s, k).value <= s[|s| - 1]
    ensures k.Floor + 1 < |s| ==> AtPosition(s, k).value <= s[k.Floor + 1]
    ensures k == k.Floor as real ==> AtPosition(s, k).value == s[k.Floor]
  {
    hide Between;
    var f := k.Floor;
    if f + 1 < |s| {
      SegmentBounds(s[f], s[f + 1], k - f as real, k - f as real);
      BetweenStarts(s[f], s[f + 1]);
    }
  }

  lemma PositionMonotone(s: seq<real>, j: real, k: real)
    requires s != [] && IsSorted(s) && 0.0 <= j <= k <= |s| as real - 1.0
    ensures AtPosition(s, j).Some? && AtPosition(s, k).Some?
    ensures AtPosition(s, j).value <= AtPosition(s, k).value
  {
    hide Between;
    PositionBounds(s, j);
    PositionBounds(s, k);
    var f := j.Floor;
    if f == k.Floor && f + 1 < |s| {
      SegmentBounds(s[f], s[f + 1], j - f as real, k - f as real);
    }
  }

  /** The percentile never falls as `p` grows, also across the boundaries between interpolation segments. */
  lemma PercentileIsMonotone(data: seq<real>, p: real, q: real)
    requires data != [] && 0.0 <= p <= q <= 100.0
    ensures Percentile(data, p).Some? && Percentile(data, q).Some?
    ensures Percentile(data, p).value <= Percentile(data, q).value
  {
    SortedFacts(data);
    var n := |data|;
    PositionGrows(n, p, q);
    PositionGrows(n, 0.0, p);
    PositionGrows(n, q, 100.0);
    PositionMonotone(Sorted(data), Position(n, p), Position(n, q));
  }

  lemma InSorted(data: seq<real>, x: real)
    ensures x in data <==> x in Sorted(data)
  {
    SortedFacts(data);
    assert x in data <==> x in multiset(data);
    assert x in Sorted(data) <==> x in multiset(Sorted(data));
  }

  /** At 0 and at 100 the percentile is the smallest and the largest value of the data. */
  lemma PercentileEnds(data: seq<real>)
    requires data != []
    ensures Percentile(data, 0.0).Some? && Percentile(data, 100.0).Some?
    ensures Percentile(data, 0.0).value in data && Percentile(data, 100.0).value in data
    ensures forall x | x in data :: Percentile(data, 0.0).value <= x <= Percentile(data, 100.0).value
  {
    SortedFacts(data);
    var s, n := Sorted(data), |data|;
    PositionGrows(n, 0.0, 100.0);
    PositionBounds(s, 0.0);
    PositionBounds(s, n as real - 1.0);
    forall x ensures x in data <==> x in s { InSorted(data, x); }
  }

  /** Every percentile lies between two values of the data. */
  lemma PercentileWithinData(data: seq<real>, p: real)
    requires data != [] && 0.0 <= p <= 100.0
    ensures Percentile(data, p).Some?
    ensures exists low, high | low in data && high in data :: low <= Percentile(data, p).value <= high
  {
    PercentileEnds(data);
    PercentileIsMonotone(data, 0.0, p);
    PercentileIsMonotone(data, p, 100.0);
  }

  /** Outside 0 to 100 an index may leave the list: exactly when the position reaches the length, or lies more than
    * the length below zero. */
  lemma RaisesIff(data: seq<real>, p: real)
    ensures Percentile(data, p).None? <==>
              data != [] && (Position(|data|, p) >= |data| as real || Position(|data|, p) <= -(|data| as real) - 1.0)
  {
    SortedFacts(data);
  }

  /** The mean of two values with weights `1 - x` and `x`. */
  function Mean(a: real, b: real, x: real): real {
    (1.0 - x) * a + x * b
  }

  lemma BetweenIsMean(a: real, b: real, x: real)
    ensures Between(a, b, x) == Mean(a, b, x)
  {
    assert x * (b - a) == x * b - x * a;
    assert (1.0 - x) * a == a - x * a;
  }

  lemma PositionIs(n: nat, p: real, k: real)
    requires (n as real - 1.0) * p == 100.0 * k
    ensures Position(n, p) == k
  {
    assert Position(n, p) == (n as real - 1.0) * p / 100.0;
  }

  lemma AtPositionIs(s: seq<real>, k: real, i: nat, x: real)
    requires i + 1 < |s| && k == i as real + x && 0.0 <= x < 1.0
    ensures AtPosition(s, k) == Some(Between(s[i], s[i + 1], x))
  {
    hide Between;
    assert k.Floor == i && k - i as real == x;
  }

  lemma LinearAt(s: seq<real>, k: real, i: nat, x: real)
    requires i + 1 < |s| && k == i as real + x && 0.0 <= x < 1.0
    ensures AtPosition(s, k) == Some(Mean(s[i], s[i + 1], x))
  {
    hide AtPosition, Mean, Between;
    AtPositionIs(s, k, i, x);
    BetweenIsMean(s[i], s[i + 1], x);
  }

  lemma PercentileAtPosition(data: seq<real>, p: real, i: nat, x: real)
    requires i + 1 < |data| && 0.0 <= x < 1.0 && Position(|data|, p) == i as real + x
    ensures |Sorted(data)| == |data|
    ensures Percentile(data, p) == Some(Mean(Sorted(data)[i], Sorted(data)[i + 1], x))
  {
    hide Sorted, Position, AtPosition, Mean;
    SortedFacts(data);
    LinearAt(Sorted(data), Position(|data|, p), i, x);
  }

  /** The interpolation is linear: if `p` hundredths of the way through the sorted data lie `x` behind the value number
    * `i`, the percentile is the weighted mean of that value and the next. */
  lemma PercentileIsLinear(data: seq<real>, p: real, i: nat, x: real)
    requires i + 1 < |data| && 0.0 <= x < 1.0
    requires (|data| as real - 1.0) * p == 100.0 * (i as real + x)
    ensures |Sorted(data)| == |data|
    ensures Percentile(data, p) == Some(Mean(Sorted(data)[i], Sorted(data)[i + 1], x))
  {
    hide Sorted, Position, Percentile, Mean;
    PositionIs(|data|, p, i as real + x);
    PercentileAtPosition(data, p, i, x);
  }
}
