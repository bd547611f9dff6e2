/** `_diff_values`: the structural diff of two JSON documents, each issue addressed by a JSON Pointer. */
module SchemaDiff {
  import opened Basics
  import opened JsonValues
  import opened JsonPointer
  import opened StringSorting

  // ----- Python equality -----

  predicate IsNumber(j: Json) {
    j.Bool? || j.Int? || j.Float?
  }

  /** In Python `True == 1 == 1.0`. */
  function NumberOf(j: Json): real
    requires IsNumber(j)
  {
    match j
    case Bool(b) => if b then 1.0 else 0.0
    case Int(i) => i as real
    case Float(r) => r
  }

  predicate PyEqual(a: Json, b: Json)
    decreases a
  {
    match a
    case Null => b.Null?
    case Str(s) => b.Str? && s == b.s
    case List(items) =>
      b.List? && |items| == |b.items| && forall i | 0 <= i < |items| :: PyEqual(items[i], b.items[i])
    case Obj(fields) =>
      b.Obj? && fields.Keys == b.fields.Keys && forall k | k in fields :: PyEqual(fields[k], b.fields[k])
    case _ => IsNumber(b) && NumberOf(a) == NumberOf(b)
  }

  /** The document with every boolean and integer replaced by the float it is equal to. */
  function Canonical(j: Json): Json {
    match j
    case Null => Null
    case Str(s) => j
    case List(items) => List(seq(|items|, i requires 0 <= i < |items| => Canonical(items[i])))
    case Obj(fields) => Obj(map k | k in fields :: Canonical(fields[k]))
    case _ => Float(NumberOf(j))
  }

  lemma {:induction false} PyEqualIffCanonical(a: Json, b: Json)
    ensures PyEqual(a, b) <==> Canonical(a) == Canonical(b)
    decreases a
  {
    match a
    case List(items) =>
      if b.List? && |items| == |b.items| {
        forall i | 0 <= i < |items|
          ensures PyEqual(items[i], b.items[i]) <==> Canonical(items[i]) == Canonical(b.items[i])
        {
          PyEqualIffCanonical(items[i], b.items[i]);
        }
        if Canonical(a) == Canonical(b) {
          forall i | 0 <= i < |items| ensures Canonical(items[i]) == Canonical(b.items[i]) {
            assert Canonical(a).items[i] == Canonical(b).items[i];
          }
        }
        if PyEqual(a, b) {
          assert Canonical(a).items == Canonical(b).items;
        }
      } else if b.List? {
        assert |Canonical(a).items| != |Canonical(b).items|;
      }
    case Obj(fields) =>
      if b.Obj? {
        assert Canonical(a).fields.Keys == fields.Keys && Canonical(b).fields.Keys == b.fields.Keys;
        if fields.Keys == b.fields.Keys {
          forall k | k in fields
            ensures PyEqual(fields[k], b.fields[k]) <==> Canonical(fields[k]) == Canonical(b.fields[k])
          {
            PyEqualIffCanonical(fields[k], b.fields[k]);
          }
          if Canonical(a) == Canonical(b) {
            forall k | k in fields ensures Canonical(fields[k]) == Canonical(b.fields[k]) {
              assert Canonical(a).fields[k] == Canonical(b).fields[k];
            }
          }
          if PyEqual(a, b) {
            assert Canonical(a).fields == Canonical(b).fields;
          }
        }
      }
    case _ =>
  }

  /** Which numbers are equal: a boolean is 1 or 0, an integer and a float are equal when they are the same number. */
  lemma NumbersEqualIff(a: bool, b: bool, i: int, j: int, r: real, q: real)
    ensures PyEqual(Bool(a), Bool(b)) <==> a == b
    ensures PyEqual(Int(i), Int(j)) <==> i == j
    ensures PyEqual(Float(r), Float(q)) <==> r == q
    ensures PyEqual(Bool(b), Int(i)) <==> i == if b then 1 else 0
    ensures PyEqual(Int(i), Bool(b)) <==> i == if b then 1 else 0
    ensures PyEqual(Bool(b), Float(r)) <==> r == if b then 1.0 else 0.0
    ensures PyEqual(Float(r), Bool(b)) <==> r == if b then 1.0 else 0.0
    ensures PyEqual(Int(i), Float(r)) <==> i as real == r
    ensures PyEqual(Float(r), Int(i)) <==> i as real == r
  {
  }

  /** Everything that is not a number equals only its own kind: null, the same string, lists and objects. */
  lemma OtherKindsEqualIff(a: Json, b: Json)
    ensures PyEqual(a, b) ==>
              && (a.Null? <==> b.Null?) && (a.Str? <==> b.Str?) && (a.List? <==> b.List?) && (a.Obj? <==> b.Obj?)
    ensures a.Null? && b.Null? ==> PyEqual(a, b)
    ensures a.Str? && b.Str? ==> (PyEqual(a, b) <==> a.s == b.s)
  {
  }

  /** The documents have the same shape and the same kind of value at every place. */
  predicate SameKinds(a: Json, b: Json)
    decreases a
  {
    match a
    case Null => b.Null?
    case Bool(_) => b.Bool?
    case Int(_) => b.Int?
    case Float(_) => b.Float?
    case Str(_) => b.Str?
    case List(items) =>
      b.List? && |items| == |b.items| && forall i | 0 <= i < |items| :: SameKinds(items[i], b.items[i])
    case Obj(fields) =>
      b.Obj? && fields.Keys == b.fields.Keys && forall k | k in fields :: SameKinds(fields[k], b.fields[k])
  }

  lemma {:induction false} SameKindsEqualIff(a: Json, b: Json)
    requires SameKinds(a, b)
    ensures PyEqual(a, b) <==> a == b
    decreases a
  {
    match a
    case List(items) =>
      forall i | 0 <= i < |items| ensures PyEqual(items[i], b.items[i]) <==> items[i] == b.items[i] {
        SameKindsEqualIff(items[i], b.items[i]);
      }
      if PyEqual(a, b) { assert items == b.items; }
    case Obj(fields) =>
      forall k | k in fields ensures PyEqual(fields[k], b.fields[k]) <==> fields[k] == b.fields[k] {
        SameKindsEqualIff(fields[k], b.fields[k]);
      }
      if PyEqual(a, b) { assert fields == b.fields; }
    case _ =>
  }

  // ----- The diff -----

  datatype Kind = NoneType | BoolType | IntType | FloatType | StrType | ListType | DictType

  function KindOf(j: Json): Kind {
    match j
    case Null => NoneType
    case Bool(_) => BoolType
    case Int(_) => IntType
    case Float(_) => FloatType
    case Str(_) => StrType
    case List(_) => ListType
    case Obj(_) => DictType
  }

  /** The kinds are told apart, and each carries the name of its own type. */
  lemma KindsAreDistinct(j: Json)
    ensures KindOf(j) == NoneType <==> j.Null?
    ensures KindOf(j) == BoolType <==> j.Bool?
    ensures KindOf(j) == IntType <==> j.Int?
    ensures KindOf(j) == FloatType <==> j.Float?
    ensures KindOf(j) == StrType <==> j.Str?
    ensures KindOf(j) == ListType <==> j.List?
    ensures KindOf(j) == DictType <==> j.Obj?
  {
  }

  datatype Change =
    | MissingInActual
    | AbsentInExpected
    | LengthChanged(expected: nat, actual: nat)
    | TypeChanged(from: Kind, to: Kind)
    | ValueChanged(was: Json, now: Json)

  datatype Issue = Issue(pointer: string, change: Change)

  /** `sorted(set(expected) | set(actual))`. */
  function AllKeys(expected: Json, actual: Json): (keys: seq<string>)
    requires expected.Obj? && actual.Obj?
    ensures KeysOf(keys, expected, actual)
    ensures forall key | key in expected.fields || key in actual.fields :: key in keys
    ensures forall i, j | 0 <= i < j < |keys| :: keys[i] != keys[j]
  {
    Sorted(expected.fields.Keys + actual.fields.Keys)
  }

  /** The issues that `_diff_values` appends. */
  function Diff(pointer: string, expected: Json, actual: Json): seq<Issue>
    decreases expected, 1, 0
  {
    if PyEqual(expected, actual) then []
    else if expected.Obj? && actual.Obj? then
      var keys := AllKeys(expected, actual);
      DiffKeys(pointer, expected, actual, keys, |keys|)
    else if expected.List? && actual.List? then
      if |expected.items| != |actual.items|
      then [Issue(pointer, LengthChanged(|expected.items|, |actual.items|))]
      else DiffItems(pointer, expected, actual, |expected.items|)
    else if KindOf(expected) != KindOf(actual) then
      [Issue(pointer, TypeChanged(KindOf(expected), KindOf(actual)))]
    else [Issue(pointer, ValueChanged(expected, actual))]
  }

  function DiffKey(pointer: string, expected: Json, actual: Json, key: string): seq<Issue>
    requires expected.Obj? && actual.Obj? && (key in expected.fields || key in actual.fields)
    decreases expected, 0, 0
  {
    var child := PointerJoin(pointer, key);
    if key !in actual.fields then [Issue(child, MissingInActual)]
    else if key !in expected.fields then [Issue(child, AbsentInExpected)]
    else Diff(child, expected.fields[key], actual.fields[key])
  }

  /** Every key belongs to at least one of two objects. */
  predicate KeysOf(keys: seq<string>, expected: Json, actual: Json) {
    && expected.Obj? && actual.Obj?
    && forall i | 0 <= i < |keys| :: keys[i] in expected.fields || keys[i] in actual.fields
  }

  /** The issues of the first `count` keys. */
  function DiffKeys(pointer: string, expected: Json, actual: Json, keys: seq<string>, count: nat): seq<Issue>
    requires KeysOf(keys, expected, actual) && count <= |keys|
    decreases expected, 0, count + 1
  {
    if count == 0 then []
    else DiffKeys(pointer, expected, actual, keys, count - 1) + DiffKey(pointer, expected, actual, keys[count - 1])
  }

  function DiffItem(pointer: string, expected: Json, actual: Json, n: nat): seq<Issue>
    requires expected.List? && actual.List? && n < |expected.items| == |actual.items|
    decreases expected, 0, 0
  {
    Diff(PointerJoin(pointer, Decimal(n)), expected.items[n], actual.items[n])
  }

  /** The issues of the first `count` items. */
  function DiffItems(pointer: string, expected: Json, actual: Json, count: nat): seq<Issue>
    requires expected.List? && actual.List? && |expected.items| == |actual.items|
    requires count <= |expected.items|
    decreases expected, 0, count + 1
  {
    if count == 0 then []
    else DiffItems(pointer, expected, actual, count - 1)
         + DiffItem(pointer, expected, actual, count - 1)
  }

  /** The list that every recursive call appends to. */
  class IssueLog {
    var issues: seq<Issue>

    constructor ()
      ensures issues == []
    {
      issues := [];
    }
  }

  method DiffValues(pointer: string, expected: Json, actual: Json, log: IssueLog)
    modifies log
    ensures log.issues == old(log.issues) + Diff(pointer, expected, actual)
    decreases expected, 1
  {
    if PyEqual(expected, actual) {
      return;
    }
    if expected.Obj? && actual.Obj? {
      DiffMembers(pointer, expected, actual, AllKeys(expected, actual), log);
      return;
    }
    if expected.List? && actual.List? {
      if |expected.items| != |actual.items| {
        log.issues := log.issues + [Issue(pointer, LengthChanged(|expected.items|, |actual.items|))];
        return;
      }
      DiffElements(pointer, expected, actual, log);
      return;
    }
    if KindOf(expected) != KindOf(actual) {
      log.issues := log.issues + [Issue(pointer, TypeChanged(KindOf(expected), KindOf(actual)))];
      return;
    }
    log.issues := log.issues + [Issue(pointer, ValueChanged(expected, actual))];
  }

  /** The loop over the sorted keys of two objects. */
  method DiffMembers(pointer: string, expected: Json, actual: Json, keys: seq<string>, log: IssueLog)
    requires KeysOf(keys, expected, actual)
    modifies log
    ensures log.issues == old(log.issues) + DiffKeys(pointer, expected, actual, keys, |keys|)
    decreases expected, 0, 1
  {
    ghost var before := log.issues;
    for n := 0 to |keys|
      invariant log.issues == before + DiffKeys(pointer, expected, actual, keys, n)
    {
      DiffMember(pointer, expected, actual, keys, n, log, before);
    }
  }

  method DiffMember(pointer: string, expected: Json, actual: Json, keys: seq<string>, n: nat, log: IssueLog,
                    ghost before: seq<Issue>)
    requires KeysOf(keys, expected, actual) && n < |keys|
    requires log.issues == before + DiffKeys(pointer, expected, actual, keys, n)
    modifies log
    ensures log.issues == before + DiffKeys(pointer, expected, actual, keys, n + 1)
    decreases expected, 0, 0
  {
    var key := keys[n];
    var child := PointerJoin(pointer, key);
    if key !in actual.fields {
      log.issues := log.issues + [Issue(child, MissingInActual)];
    } else if key !in expected.fields {
      log.issues := log.issues + [Issue(child, AbsentInExpected)];
    } else {
      DiffValues(child, expected.fields[key], actual.fields[key], log);
    }
  }

  /** The loop over two lists of the same length. */
  method DiffElements(pointer: string, expected: Json, actual: Json, log: IssueLog)
    requires expected.List? && actual.List? && |expected.items| == |actual.items|
    modifies log
    ensures log.issues == old(log.issues) + DiffItems(pointer, expected, actual, |expected.items|)
    decreases expected, 0, 1
  {
    ghost var before := log.issues;
    for n := 0 to |expected.items|
      invariant log.issues == before + DiffItems(pointer, expected, actual, n)
    {
      DiffElement(pointer, expected, actual, n, log, before);
    }
  }

  method DiffElement(pointer: string, expected: Json, actual: Json, n: nat, log: IssueLog, ghost before: seq<Issue>)
    requires expected.List? && actual.List? && n < |expected.items| == |actual.items|
    requires log.issues == before + DiffItems(pointer, expected, actual, n)
    modifies log
    ensures log.issues == before + DiffItems(pointer, expected, actual, n + 1)
    decreases expected, 0, 0
  {
    DiffValues(PointerJoin(pointer, Decimal(n)), expected.items[n], actual.items[n], log);
  }

  // ----- Nothing is reported exactly when the documents are equal -----

  lemma {:induction false} DiffEmptyIffEqual(pointer: string, expected: Json, actual: Json)
    ensures Diff(pointer, expected, actual) == [] <==> PyEqual(expected, actual)
    decreases expected, 1, 0
  {
    hide PyEqual;
    if PyEqual(expected, actual) {
    } else if expected.Obj? && actual.Obj? {
      UnequalObjectsDiffer(pointer, expected, actual);
    } else if expected.List? && actual.List? && |expected.items| == |actual.items| {
      UnequalListsDiffer(pointer, expected, actual);
    }
  }

  lemma {:induction false} UnequalObjectsDiffer(pointer: string, expected: Json, actual: Json)
    requires expected.Obj? && actual.Obj? && !PyEqual(expected, actual)
    ensures Diff(pointer, expected, actual) != []
    decreases expected, 0, 0
  {
    hide Diff, DiffKeys, PointerJoin;
    var key := UnequalKey(expected, actual);
    if key in expected.fields && key in actual.fields {
      DiffEmptyIffEqual(PointerJoin(pointer, key), expected.fields[key], actual.fields[key]);
    }
    var issue := DiffKey(pointer, expected, actual, key)[0];
    KeyIssueIsReported(pointer, expected, actual, key, issue);
  }

  lemma UnequalKey(expected: Json, actual: Json) returns (key: string)
    requires expected.Obj? && actual.Obj? && !PyEqual(expected, actual)
    ensures key in expected.fields || key in actual.fields
    ensures key in expected.fields && key in actual.fields ==> !PyEqual(expected.fields[key], actual.fields[key])
  {
    key :| (key in expected.fields || key in actual.fields)
           && !(key in expected.fields && key in actual.fields && PyEqual(expected.fields[key], actual.fields[key]));
  }

  lemma {:induction false} UnequalListsDiffer(pointer: string, expected: Json, actual: Json)
    requires expected.List? && actual.List? && |expected.items| == |actual.items| && !PyEqual(expected, actual)
    ensures Diff(pointer, expected, actual) != []
    decreases expected, 0, 0
  {
    hide PointerJoin, Decimal;
    var i :| 0 <= i < |expected.items| && !PyEqual(expected.items[i], actual.items[i]);
    DiffEmptyIffEqual(PointerJoin(pointer, Decimal(i)), expected.items[i], actual.items[i]);
    ItemIssuesAreListed(pointer, expected, actual, |expected.items|, i);
  }

  lemma {:induction false} KeyIssuesAreListed(pointer: string, expected: Json, actual: Json, keys: seq<string>,
                                              count: nat, n: nat)
    requires KeysOf(keys, expected, actual) && n < count <= |keys|
    ensures var own := DiffKey(pointer, expected, actual, keys[n]);
            && (forall issue | issue in own :: issue in DiffKeys(pointer, expected, actual, keys, count))
            && |own| <= |DiffKeys(pointer, expected, actual, keys, count)|
  {
    if n != count - 1 {
      KeyIssuesAreListed(pointer, expected, actual, keys, count - 1, n);
    }
  }

  lemma {:induction false} ItemIssuesAreListed(pointer: string, expected: Json, actual: Json, count: nat, i: nat)
    requires expected.List? && actual.List? && |expected.items| == |actual.items|
    requires i < count <= |expected.items|
    ensures var own := DiffItem(pointer, expected, actual, i);
            && (forall issue | issue in own :: issue in DiffItems(pointer, expected, actual, count))
            && |own| <= |DiffItems(pointer, expected, actual, count)|
  {
    if i != count - 1 {
      ItemIssuesAreListed(pointer, expected, actual, count - 1, i);
    }
  }

  /** The confusions that the diff does not see: `true`, `1` and `1.0` are equal to Python. */
  lemma BooleanDriftIsInvisible()
    ensures Diff("", Obj(map["nullable" := Bool(true)]), Obj(map["nullable" := Int(1)])) == []
  {
    var e, a := Obj(map["nullable" := Bool(true)]), Obj(map["nullable" := Int(1)]);
    assert PyEqual(e.fields["nullable"], a.fields["nullable"]);
    assert PyEqual(e, a);
  }

  /** Nothing is reported exactly when the documents differ at most in how equal numbers are spelled. */
  lemma DiffIsExact(pointer: string, expected: Json, actual: Json)
    ensures Diff(pointer, expected, actual) == [] <==> Canonical(expected) == Canonical(actual)
  {
    DiffEmptyIffEqual(pointer, expected, actual);
    PyEqualIffCanonical(expected, actual);
  }

  /** Between documents of the same shape and kinds, nothing is reported exactly when they are the same document. */
  lemma DiffIsExactOnSameKinds(pointer: string, expected: Json, actual: Json)
    requires SameKinds(expected, actual)
    ensures Diff(pointer, expected, actual) == [] <==> expected == actual
  {
    hide Diff, PyEqual, SameKinds;
    DiffEmptyIffEqual(pointer, expected, actual);
    SameKindsEqualIff(expected, actual);
  }

  // ----- Every issue points, by RFC 6901, at a real difference -----

  /** What `change` claims about the values found at its place in the two documents. */
  predicate Holds(change: Change, expected: Option<Json>, actual: Option<Json>) {
    match change
    case MissingInActual => expected.Some? && actual.None?
    case AbsentInExpected => expected.None? && actual.Some?
    case LengthChanged(m, n) =>
      && expected.Some? && expected.value.List? && |expected.value.items| == m
      && actual.Some? && actual.value.List? && |actual.value.items| == n
      && m != n
    case TypeChanged(s, t) =>
      expected.Some? && actual.Some? && KindOf(expected.value) == s && KindOf(actual.value) == t && s != t
      && !PyEqual(expected.value, actual.value)
    case ValueChanged(was, now) =>
      expected == Some(was) && actual == Some(now) && KindOf(was) == KindOf(now)
      && !was.Obj? && !was.List? && !PyEqual(was, now)
  }

  /** The issue is addressed by the location `base + at`, and its claim holds of the values found at `at`. */
  ghost predicate Justified(issue: Issue, base: seq<string>, at: seq<string>, expected: Json, actual: Json) {
    issue.pointer == Encode(base + at) && Holds(issue.change, Eval(expected, at), Eval(actual, at))
  }

  lemma JustifiedBelow(issue: Issue, base: seq<string>, token: string, at: seq<string>,
                       expected: Json, actual: Json, e: Json, a: Json)
    requires Justified(issue, base + [token], at, e, a)
    requires Eval(expected, [token]) == Some(e) && Eval(actual, [token]) == Some(a)
    ensures Justified(issue, base, [token] + at, expected, actual)
  {
    assert base + [token] + at == base + ([token] + at);
    EvalAppend(expected, [token], at);
    EvalAppend(actual, [token], at);
  }

  lemma {:induction false} IssuesAreReal(base: seq<string>, expected: Json, actual: Json,
                                         issue: Issue) returns (at: seq<string>)
    requires issue in Diff(Encode(base), expected, actual)
    ensures Justified(issue, base, at, expected, actual)
    decreases expected, 1, 0
  {
    at := [];
    assert base + [] == base;
    if expected.Obj? && actual.Obj? {
      var keys := AllKeys(expected, actual);
      var n := OwningKey(Encode(base), expected, actual, keys, |keys|, issue);
      at := KeyIssueIsReal(base, expected, actual, keys[n], issue);
    } else if expected.List? && actual.List? && |expected.items| == |actual.items| {
      var i := OwningItem(Encode(base), expected, actual, |expected.items|, issue);
      at := ItemIssueIsReal(base, expected, actual, i, issue);
    }
  }

  lemma {:induction false} ItemIssueIsReal(base: seq<string>, expected: Json, actual: Json, n: nat, issue: Issue)
    returns (at: seq<string>)
    requires expected.List? && actual.List? && n < |expected.items| == |actual.items|
    requires issue in DiffItem(Encode(base), expected, actual, n)
    ensures Justified(issue, base, at, expected, actual)
    ensures at != [] && at[0] == Decimal(n)
    decreases expected, 0, 0
  {
    var token := Decimal(n);
    EncodeStep(base, token);
    ArrayIndexDecimal(n);
    var below := IssuesAreReal(base + [token], expected.items[n], actual.items[n], issue);
    JustifiedBelow(issue, base, token, below, expected, actual, expected.items[n], actual.items[n]);
    at := [token] + below;
  }

  lemma {:induction false} KeyIssueIsReal(base: seq<string>, expected: Json, actual: Json, key: string, issue: Issue)
    returns (at: seq<string>)
    requires expected.Obj? && actual.Obj? && (key in expected.fields || key in actual.fields)
    requires issue in DiffKey(Encode(base), expected, actual, key)
    ensures Justified(issue, base, at, expected, actual)
    ensures at != [] && at[0] == key
    decreases expected, 0, 0
  {
    EncodeStep(base, key);
    at := [key];
    if key in expected.fields && key in actual.fields {
      var below := IssuesAreReal(base + [key], expected.fields[key], actual.fields[key], issue);
      JustifiedBelow(issue, base, key, below, expected, actual, expected.fields[key], actual.fields[key]);
      at := [key] + below;
    }
  }

  lemma {:induction false} OwningKey(pointer: string, expected: Json, actual: Json, keys: seq<string>, count: nat,
                                     issue: Issue)
    returns (n: nat)
    requires KeysOf(keys, expected, actual) && count <= |keys|
    requires issue in DiffKeys(pointer, expected, actual, keys, count)
    ensures n < count && issue in DiffKey(pointer, expected, actual, keys[n])
  {
    n := count - 1;
    if issue !in DiffKey(pointer, expected, actual, keys[n]) {
      n := OwningKey(pointer, expected, actual, keys, count - 1, issue);
    }
  }

  lemma {:induction false} OwningItem(pointer: string, expected: Json, actual: Json, count: nat, issue: Issue)
    returns (i: nat)
    requires expected.List? && actual.List? && |expected.items| == |actual.items|
    requires count <= |expected.items|
    requires issue in DiffItems(pointer, expected, actual, count)
    ensures i < count
    ensures issue in DiffItem(pointer, expected, actual, i)
  {
    i := count - 1;
    if issue !in DiffItem(pointer, expected, actual, i) {
      i := OwningItem(pointer, expected, actual, count - 1, issue);
    }
  }

  /** Decoding a reported pointer by RFC 6901 leads to a place where the two documents differ as the issue says. */
  lemma ReportedPointersResolve(expected: Json, actual: Json, issue: Issue)
    requires issue in Diff("", expected, actual)
    ensures var at := Decode(issue.pointer);
            issue.pointer == Encode(at) && Holds(issue.change, Eval(expected, at), Eval(actual, at))
  {
    var at := IssuesAreReal([], expected, actual, issue);
    assert [] + at == at;
    DecodeEncode(at);
  }

  // ----- No place is reported twice -----

  ghost predicate DistinctPointers(issues: seq<Issue>) {
    forall i, j | 0 <= i < j < |issues| :: issues[i].pointer != issues[j].pointer
  }

  lemma {:induction false} PointersAreDistinct(base: seq<string>, expected: Json, actual: Json)
    ensures DistinctPointers(Diff(Encode(base), expected, actual))
    decreases expected, 1, 0
  {
    if PyEqual(expected, actual) {
    } else if expected.Obj? && actual.Obj? {
      var keys := AllKeys(expected, actual);
      KeyPointersAreDistinct(base, expected, actual, keys, |keys|);
    } else if expected.List? && actual.List? && |expected.items| == |actual.items| {
      ItemPointersAreDistinct(base, expected, actual, |expected.items|);
    }
  }

  lemma DistinctAppended(earlier: seq<Issue>, own: seq<Issue>)
    requires DistinctPointers(earlier) && DistinctPointers(own)
    requires forall x, y | x in earlier && y in own :: x.pointer != y.pointer
    ensures DistinctPointers(earlier + own)
  {
  }

  lemma {:induction false} KeyPointersAreDistinct(base: seq<string>, expected: Json, actual: Json, keys: seq<string>,
                                                  count: nat)
    requires KeysOf(keys, expected, actual) && count <= |keys|
    requires forall i, j | 0 <= i < j < |keys| :: keys[i] != keys[j]
    ensures DistinctPointers(DiffKeys(Encode(base), expected, actual, keys, count))
    decreases expected, 0, count + 1
  {
    hide DistinctPointers, DiffKey, Encode;
    if count > 0 {
      var key := keys[count - 1];
      KeyPointersAreDistinct(base, expected, actual, keys, count - 1);
      OwnPointersAreDistinct(base, expected, actual, key);
      var earlier := DiffKeys(Encode(base), expected, actual, keys, count - 1);
      var own := DiffKey(Encode(base), expected, actual, key);
      forall x, y | x in earlier && y in own ensures x.pointer != y.pointer {
        var n := OwningKey(Encode(base), expected, actual, keys, count - 1, x);
        KeysSeparatePointers(base, expected, actual, keys[n], x, key, y);
      }
      DistinctAppended(earlier, own);
    } else {
      NothingIsDistinct();
    }
  }

  lemma NothingIsDistinct()
    ensures DistinctPointers([])
  {
  }

  lemma {:induction false} OwnPointersAreDistinct(base: seq<string>, expected: Json, actual: Json, key: string)
    requires expected.Obj? && actual.Obj? && (key in expected.fields || key in actual.fields)
    ensures DistinctPointers(DiffKey(Encode(base), expected, actual, key))
    decreases expected, 0, 0
  {
    hide Diff, Encode;
    if key in expected.fields && key in actual.fields {
      EncodeStep(base, key);
      PointersAreDistinct(base + [key], expected.fields[key], actual.fields[key]);
    }
  }

  lemma KeysSeparatePointers(base: seq<string>, expected: Json, actual: Json, k: string, x: Issue, l: string, y: Issue)
    requires expected.Obj? && actual.Obj? && k != l
    requires (k in expected.fields || k in actual.fields) && x in DiffKey(Encode(base), expected, actual, k)
    requires (l in expected.fields || l in actual.fields) && y in DiffKey(Encode(base), expected, actual, l)
    ensures x.pointer != y.pointer
  {
    hide DiffKey, Encode, Decode;
    var p := KeyIssueIsReal(base, expected, actual, k, x);
    var q := KeyIssueIsReal(base, expected, actual, l, y);
    TokensSeparatePointers(base, p, q);
  }

  /** Locations that part after `base` have different pointers. */
  lemma TokensSeparatePointers(base: seq<string>, p: seq<string>, q: seq<string>)
    requires p != [] && q != [] && p[0] != q[0]
    ensures Encode(base + p) != Encode(base + q)
  {
    hide Encode, Decode;
    DecodeEncode(base + p);
    DecodeEncode(base + q);
    assert (base + p)[|base|] == p[0] && (base + q)[|base|] == q[0];
  }

  lemma {:induction false} ItemPointersAreDistinct(base: seq<string>, expected: Json, actual: Json, count: nat)
    requires expected.List? && actual.List? && |expected.items| == |actual.items|
    requires count <= |expected.items|
    ensures DistinctPointers(DiffItems(Encode(base), expected, actual, count))
    decreases expected, 0, count + 1
  {
    hide DistinctPointers, Diff, Encode, Decimal;
    if count > 0 {
      var last := count - 1;
      ItemPointersAreDistinct(base, expected, actual, last);
      EncodeStep(base, Decimal(last));
      PointersAreDistinct(base + [Decimal(last)], expected.items[last], actual.items[last]);
      var earlier := DiffItems(Encode(base), expected, actual, last);
      var own := DiffItem(Encode(base), expected, actual, last);
      forall x, y | x in earlier && y in own ensures x.pointer != y.pointer {
        var i := OwningItem(Encode(base), expected, actual, last, x);
        ItemsSeparatePointers(base, expected, actual, i, x, last, y);
      }
      DistinctAppended(earlier, own);
    } else {
      NothingIsDistinct();
    }
  }

  lemma ItemsSeparatePointers(base: seq<string>, expected: Json, actual: Json, i: nat, x: Issue, j: nat, y: Issue)
    requires expected.List? && actual.List? && |expected.items| == |actual.items|
    requires i < |expected.items| && j < |expected.items| && i != j
    requires x in DiffItem(Encode(base), expected, actual, i) && y in DiffItem(Encode(base), expected, actual, j)
    ensures x.pointer != y.pointer
  {
    hide DiffItem, Encode, Decimal;
    var p := ItemIssueIsReal(base, expected, actual, i, x);
    var q := ItemIssueIsReal(base, expected, actual, j, y);
    ArrayIndexDecimal(i);
    ArrayIndexDecimal(j);
    TokensSeparatePointers(base, p, q);
  }

  // ----- No difference is missed -----

  /** The documents differ at `at`: one has no value there, or the values are unequal. */
  predicate DifferAt(expected: Json, actual: Json, at: seq<string>) {
    match (Eval(expected, at), Eval(actual, at))
    case (None, None) => false
    case (Some(e), Some(a)) => !PyEqual(e, a)
    case _ => true
  }

  predicate Covers(pointer: string, base: seq<string>, at: seq<string>) {
    exists n | 0 <= n <= |at| :: pointer == Encode(base + at[..n])
  }

  lemma CoversBelow(pointer: string, base: seq<string>, at: seq<string>)
    requires at != [] && Covers(pointer, base + [at[0]], at[1..])
    ensures Covers(pointer, base, at)
  {
    var n :| 0 <= n <= |at| - 1 && pointer == Encode(base + [at[0]] + at[1..][..n]);
    assert base + [at[0]] + at[1..][..n] == base + at[..n + 1];
  }

  /** A difference between leaves, or in presence, is reported at its place or above it. */
  predicate LeafDifference(expected: Json, actual: Json, at: seq<string>) {
    var e, a := Eval(expected, at), Eval(actual, at);
    && DifferAt(expected, actual, at)
    && !(e.Some? && a.Some? && e.value.Obj? && a.value.Obj?)
    && !(e.Some? && a.Some? && e.value.List? && a.value.List? && |e.value.items| == |a.value.items|)
  }

  lemma {:induction false} NoDifferenceIsMissed(base: seq<string>, expected: Json, actual: Json, at: seq<string>)
    returns (issue: Issue)
    requires LeafDifference(expected, actual, at)
    ensures issue in Diff(Encode(base), expected, actual)
    ensures Covers(issue.pointer, base, at)
    decreases |at|, 1
  {
    hide LeafDifference, Encode, PyEqual;
    DocumentsDiffer(expected, actual, at);
    if expected.Obj? && actual.Obj? {
      issue := MemberDifferenceIsReported(base, expected, actual, at);
      KeyIssueIsReported(Encode(base), expected, actual, at[0], issue);
    } else if expected.List? && actual.List? && |expected.items| == |actual.items| {
      var i;
      issue, i := ElementDifferenceIsReported(base, expected, actual, at);
      ItemIssuesAreListed(Encode(base), expected, actual, |expected.items|, i);
    } else {
      issue := Diff(Encode(base), expected, actual)[0];
      assert base + at[..0] == base;
    }
  }

  lemma DocumentsDiffer(expected: Json, actual: Json, at: seq<string>)
    requires LeafDifference(expected, actual, at)
    ensures !PyEqual(expected, actual)
  {
    if PyEqual(expected, actual) { EqualDocumentsAgree(expected, actual, at); }
  }

  lemma KeyIssueIsReported(pointer: string, expected: Json, actual: Json, key: string, issue: Issue)
    requires expected.Obj? && actual.Obj? && !PyEqual(expected, actual)
    requires (key in expected.fields || key in actual.fields) && issue in DiffKey(pointer, expected, actual, key)
    ensures issue in Diff(pointer, expected, actual)
  {
    hide DiffKey, PyEqual;
    var keys := AllKeys(expected, actual);
    var n :| 0 <= n < |keys| && keys[n] == key;
    KeyIssuesAreListed(pointer, expected, actual, keys, |keys|, n);
  }

  lemma {:induction false} MemberDifferenceIsReported(base: seq<string>, expected: Json, actual: Json, at: seq<string>)
    returns (issue: Issue)
    requires expected.Obj? && actual.Obj? && LeafDifference(expected, actual, at)
    ensures at != [] && (at[0] in expected.fields || at[0] in actual.fields)
    ensures issue in DiffKey(Encode(base), expected, actual, at[0])
    ensures Covers(issue.pointer, base, at)
    decreases |at|, 0
  {
    hide Diff, Encode, PyEqual;
    var key := at[0];
    EncodeStep(base, key);
    if key in expected.fields && key in actual.fields {
      issue := NoDifferenceIsMissed(base + [key], expected.fields[key], actual.fields[key], at[1..]);
      CoversBelow(issue.pointer, base, at);
    } else {
      issue := DiffKey(Encode(base), expected, actual, key)[0];
      assert base + at[..1] == base + [key];
    }
  }

  lemma {:induction false} ElementDifferenceIsReported(base: seq<string>, expected: Json, actual: Json, at: seq<string>)
    returns (issue: Issue, i: nat)
    requires expected.List? && actual.List? && |expected.items| == |actual.items|
    requires LeafDifference(expected, actual, at)
    ensures i < |expected.items| && issue in DiffItem(Encode(base), expected, actual, i)
    ensures Covers(issue.pointer, base, at)
    decreases |at|, 0
  {
    hide Diff, Encode, PyEqual, Decimal;
    i := ArrayIndex(at[0]).value;
    DecimalArrayIndex(at[0]);
    EncodeStep(base, at[0]);
    issue := NoDifferenceIsMissed(base + [at[0]], expected.items[i], actual.items[i], at[1..]);
    CoversBelow(issue.pointer, base, at);
  }

  lemma {:induction false} EqualDocumentsAgree(expected: Json, actual: Json, at: seq<string>)
    requires PyEqual(expected, actual)
    ensures !DifferAt(expected, actual, at)
    decreases |at|
  {
    if at != [] {
      match expected
      case Obj(fields) =>
        if at[0] in fields { EqualDocumentsAgree(fields[at[0]], actual.fields[at[0]], at[1..]); }
      case List(items) =>
        var index := ArrayIndex(at[0]);
        if index.Some? && index.value < |items| {
          EqualDocumentsAgree(items[index.value], actual.items[index.value], at[1..]);
        }
      case _ =>
    }
  }
}
