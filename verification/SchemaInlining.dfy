/** `_inline_defs`: expand every local `$ref` of a JSON schema and strip the keys Firecrawl rejects. */
module SchemaInlining {
  import opened Basics
  import opened JsonPointer
  import opened JsonValues

  const UNSUPPORTED_KEYS: set<string> := {"$defs", "definitions", "format"}

  predicate IsLocalRef(ref: string) {
    "#/$defs/" <= ref || "#/definitions/" <= ref
  }

  /** `ref.rsplit("/", 1)[-1]`: the text after the last slash. */
  function LastSegment(ref: string): string {
    if ref == "" then ""
    else if '/' in ref[1..] then LastSegment(ref[1..])
    else if ref[0] == '/' then ref[1..]
    else ref
  }

  /** The definition name an object refers to, when its `$ref` is a local reference string. */
  function RefKey(fields: map<string, Json>): Option<string> {
    if "$ref" in fields && fields["$ref"].Str? && IsLocalRef(fields["$ref"].s)
    then Some(LastSegment(fields["$ref"].s))
    else None
  }

  function Kept(fields: map<string, Json>): set<string> {
    fields.Keys - UNSUPPORTED_KEYS
  }

  /** `schema.get("$defs") or schema.get("definitions") or {}`. */
  function Defs(schema: map<string, Json>): Json {
    var first := Get(schema, "$defs", Null);
    if Truthy(first) then first
    else
      var second := Get(schema, "definitions", Null);
      if Truthy(second) then second else Obj(map[])
  }

  /** What a reference to `key` stands for: the definition if it is an object, else `{}`. */
  function Target(defs: Json, key: string): Json
    requires defs.Obj?
  {
    if key in defs.fields && defs.fields[key].Obj? then defs.fields[key] else Obj(map[])
  }

  /** The inner `walk`, run with `frames` stack frames left. `None` means that an exception escapes:
    * the stack is exhausted, or a reference is met while `defs` is not a dictionary. */
  function Walk(defs: Json, node: Json, frames: nat): Option<Json>
    decreases frames
  {
    if frames == 0 then None
    else
      match node
      case Obj(fields) =>
        (match RefKey(fields)
         case Some(key) =>
           if !defs.Obj? then None
           else if key in defs.fields && defs.fields[key].Obj? then Walk(defs, defs.fields[key], frames - 1)
           else Some(Obj(map[]))
         case None =>
           if forall k | k in Kept(fields) :: Walk(defs, fields[k], frames - 1).Some?
           then Some(Obj(map k | k in Kept(fields) :: Walk(defs, fields[k], frames - 1).value))
           else None)
      case List(items) =>
        if forall i | 0 <= i < |items| :: Walk(defs, items[i], frames - 1).Some?
        then Some(List(seq(|items|, i requires 0 <= i < |items| => Walk(defs, items[i], frames - 1).value)))
        else None
      case _ => Some(node)
  }

  function InlineDefs(schema: map<string, Json>, frames: nat): Option<Json> {
    Walk(Defs(schema), Obj(schema), frames)
  }

  /** More stack never changes an answer. */
  lemma {:induction false} WalkMonotone(defs: Json, node: Json, few: nat, many: nat)
    requires few <= many
    requires Walk(defs, node, few).Some?
    ensures Walk(defs, node, many) == Walk(defs, node, few)
    decreases few
  {
    hide RefKey;
    match node
    case Obj(fields) =>
      match RefKey(fields) {
        case Some(key) =>
          if key in defs.fields && defs.fields[key].Obj? {
            WalkMonotone(defs, defs.fields[key], few - 1, many - 1);
          }
        case None =>
          forall k | k in Kept(fields)
            ensures Walk(defs, fields[k], many - 1) == Walk(defs, fields[k], few - 1)
          {
            WalkMonotone(defs, fields[k], few - 1, many - 1);
          }
          assert Walk(defs, node, many).value.fields == Walk(defs, node, few).value.fields;
      }
    case List(items) =>
      forall i | 0 <= i < |items|
        ensures Walk(defs, items[i], many - 1) == Walk(defs, items[i], few - 1)
      {
        WalkMonotone(defs, items[i], few - 1, many - 1);
      }
      assert Walk(defs, node, many).value.items == Walk(defs, node, few).value.items;
    case _ =>
  }

  // ----- What a reader sees -----

  datatype Segment = Key(key: string) | Index(index: nat)

  /** The observation of one place of a document: a scalar, the key set of an object, or the length of a list. */
  datatype View = Scalar(value: Json) | Keys(keys: set<string>) | Length(length: nat) | Absent

  /** The place `path` of a plain document. */
  function Read(doc: Json, path: seq<Segment>): View
    decreases |path|
  {
    match doc
    case Obj(fields) =>
      if path == [] then Keys(fields.Keys)
      else if path[0].Key? && path[0].key in fields then Read(fields[path[0].key], path[1..])
      else Absent
    case List(items) =>
      if path == [] then Length(|items|)
      else if path[0].Index? && path[0].index < |items| then Read(items[path[0].index], path[1..])
      else Absent
    case _ => if path == [] then Scalar(doc) else Absent
  }

  /** Follow a chain of local references, at most `hops` of them, to the first object that is not one. */
  function Follow(defs: Json, node: Json, hops: nat): Option<Json>
    decreases hops
  {
    if node.Obj? && RefKey(node.fields).Some? then
      if hops == 0 || !defs.Obj? then None
      else Follow(defs, Target(defs, RefKey(node.fields).value), hops - 1)
    else Some(node)
  }

  /** The place `path` of the original schema, with references followed on demand on the way. */
  function ReadThrough(defs: Json, node: Json, path: seq<Segment>, hops: nat): Option<View>
    decreases |path|
  {
    match Follow(defs, node, hops)
    case None => None
    case Some(Obj(fields)) =>
      if path == [] then Some(Keys(Kept(fields)))
      else if path[0].Key? && path[0].key in Kept(fields)
      then ReadThrough(defs, fields[path[0].key], path[1..], hops)
      else Some(Absent)
    case Some(List(items)) =>
      if path == [] then Some(Length(|items|))
      else if path[0].Index? && path[0].index < |items|
      then ReadThrough(defs, items[path[0].index], path[1..], hops)
      else Some(Absent)
    case Some(scalar) => Some(if path == [] then Scalar(scalar) else Absent)
  }

  /** If the walk returns, following the references of its argument ends, at a node that it walks to the same output. */
  lemma {:induction false} FollowReachesWalked(defs: Json, node: Json, frames: nat, hops: nat) returns (end: Json)
    requires Walk(defs, node, frames).Some?
    requires frames <= hops
    ensures Follow(defs, node, hops) == Some(end)
    ensures !(end.Obj? && RefKey(end.fields).Some?)
    ensures Walk(defs, end, frames) == Walk(defs, node, frames)
    decreases frames
  {
    if node.Obj? && RefKey(node.fields).Some? {
      var key := RefKey(node.fields).value;
      if key in defs.fields && defs.fields[key].Obj? {
        end := FollowReachesWalked(defs, defs.fields[key], frames - 1, hops - 1);
        WalkMonotone(defs, end, frames - 1, frames);
      } else {
        end := Obj(map[]);
        assert Kept(end.fields) == {};
      }
    } else {
      end := node;
    }
  }

  /** Inlining preserves meaning: at every path the output shows what following references on demand shows. */
  lemma {:induction false} InliningPreservesMeaning(defs: Json, node: Json, frames: nat, path: seq<Segment>, hops: nat)
    requires Walk(defs, node, frames).Some?
    requires frames <= hops
    ensures ReadThrough(defs, node, path, hops) == Some(Read(Walk(defs, node, frames).value, path))
    decreases |path|
  {
    var end := FollowReachesWalked(defs, node, frames, hops);
    if path == [] {
      if end.Obj? {
        assert Walk(defs, end, frames).value.fields.Keys == Kept(end.fields);
      }
    } else {
      match end
      case Obj(fields) =>
        if path[0].Key? && path[0].key in Kept(fields) {
          var child := fields[path[0].key];
          WalkMonotone(defs, child, frames - 1, frames);
          InliningPreservesMeaning(defs, child, frames, path[1..], hops);
        }
      case List(items) =>
        if path[0].Index? && path[0].index < |items| {
          var child := items[path[0].index];
          WalkMonotone(defs, child, frames - 1, frames);
          InliningPreservesMeaning(defs, child, frames, path[1..], hops);
        }
      case _ =>
    }
  }

  /** A document is determined by what it shows at every path. */
  lemma {:induction false} ViewsDetermineDocument(a: Json, b: Json)
    requires forall path :: Read(a, path) == Read(b, path)
    ensures a == b
  {
    assert Read(a, []) == Read(b, []);
    match a
    case Obj(fields) =>
      forall k | k in fields ensures fields[k] == b.fields[k] {
        forall path ensures Read(fields[k], path) == Read(b.fields[k], path) {
          assert ([Key(k)] + path)[1..] == path;
          assert Read(a, [Key(k)] + path) == Read(b, [Key(k)] + path);
        }
        ViewsDetermineDocument(fields[k], b.fields[k]);
      }
    case List(items) =>
      forall i: nat | i < |items| ensures items[i] == b.items[i] {
        forall path ensures Read(items[i], path) == Read(b.items[i], path) {
          assert ([Index(i)] + path)[1..] == path;
          assert Read(a, [Index(i)] + path) == Read(b, [Index(i)] + path);
        }
        ViewsDetermineDocument(items[i], b.items[i]);
      }
    case _ =>
  }

  /** `doc` shows, at every path, what following references on demand from `node` shows. */
  ghost predicate Faithful(defs: Json, node: Json, hops: nat, doc: Json) {
    forall path :: ReadThrough(defs, node, path, hops) == Some(Read(doc, path))
  }

  /** The output is the only document that shows, at every path, what the original shows. */
  lemma OutputIsTheOnlyFaithfulDocument(schema: map<string, Json>, frames: nat, hops: nat, doc: Json)
    requires InlineDefs(schema, frames).Some?
    requires frames <= hops
    ensures Faithful(Defs(schema), Obj(schema), hops, doc) <==> InlineDefs(schema, frames) == Some(doc)
  {
    var defs, node := Defs(schema), Obj(schema);
    var out := InlineDefs(schema, frames).value;
    forall path ensures ReadThrough(defs, node, path, hops) == Some(Read(out, path)) {
      InliningPreservesMeaning(defs, node, frames, path, hops);
    }
    assert Faithful(defs, node, hops, out);
    if Faithful(defs, node, hops, doc) {
      forall path ensures Read(out, path) == Read(doc, path) {
        assert ReadThrough(defs, node, path, hops) == Some(Read(doc, path));
      }
      ViewsDetermineDocument(out, doc);
    }
  }

  // ----- Clean and stable output -----

  /** No local reference and no unsupported key at any depth. */
  predicate Clean(j: Json) {
    match j
    case Obj(fields) =>
      && fields.Keys !! UNSUPPORTED_KEYS
      && RefKey(fields).None?
      && forall k | k in fields :: Clean(fields[k])
    case List(items) => forall i | 0 <= i < |items| :: Clean(items[i])
    case _ => true
  }

  lemma {:induction false} WalkKeepsKind(defs: Json, node: Json, frames: nat)
    requires Walk(defs, node, frames).Some?
    ensures var out := Walk(defs, node, frames).value;
            if node.Obj? then out.Obj? else if node.List? then out.List? else out == node
    decreases frames
  {
    if node.Obj? && RefKey(node.fields).Some? {
      var key := RefKey(node.fields).value;
      if key in defs.fields && defs.fields[key].Obj? {
        WalkKeepsKind(defs, defs.fields[key], frames - 1);
      }
    }
  }

  lemma {:induction false} OutputIsClean(defs: Json, node: Json, frames: nat)
    requires Walk(defs, node, frames).Some?
    ensures Clean(Walk(defs, node, frames).value)
    decreases frames
  {
    match node
    case Obj(fields) =>
      match RefKey(fields) {
        case Some(key) =>
          if key in defs.fields && defs.fields[key].Obj? {
            OutputIsClean(defs, defs.fields[key], frames - 1);
          }
        case None =>
          forall k | k in Kept(fields) ensures Clean(Walk(defs, fields[k], frames - 1).value) {
            OutputIsClean(defs, fields[k], frames - 1);
          }
          if "$ref" in fields {
            WalkKeepsKind(defs, fields["$ref"], frames - 1);
          }
      }
    case List(items) =>
      forall i | 0 <= i < |items| ensures Clean(Walk(defs, items[i], frames - 1).value) {
        OutputIsClean(defs, items[i], frames - 1);
      }
    case _ =>
  }

  /** The `$ref` of the object is a string that points into the definitions. */
  ghost predicate RefersToDefinition(fields: map<string, Json>) {
    "$ref" in fields
    && exists name :: fields["$ref"] == Str("#/$defs/" + name) || fields["$ref"] == Str("#/definitions/" + name)
  }

  lemma RefersToDefinitionIff(fields: map<string, Json>)
    ensures RefersToDefinition(fields) <==> RefKey(fields).Some?
  {
    if "$ref" in fields && fields["$ref"].Str? {
      var ref := fields["$ref"].s;
      if "#/$defs/" <= ref { assert ref == "#/$defs/" + ref[8..]; }
      if "#/definitions/" <= ref { assert ref == "#/definitions/" + ref[14..]; }
    }
  }

  lemma {:induction false} CleanEverywhere(doc: Json, at: seq<string>)
    requires Clean(doc) && Eval(doc, at).Some?
    ensures Clean(Eval(doc, at).value)
    decreases |at|
  {
    hide RefKey, ArrayIndex;
    if at != [] {
      match doc
      case Obj(fields) => CleanEverywhere(fields[at[0]], at[1..]);
      case List(items) => CleanEverywhere(items[ArrayIndex(at[0]).value], at[1..]);
    }
  }

  /** No object at any place of an output holds a key that Firecrawl rejects, or refers to a definition. */
  lemma OutputHoldsNothingRejected(defs: Json, node: Json, frames: nat, at: seq<string>, there: map<string, Json>)
    requires Walk(defs, node, frames).Some?
    requires Eval(Walk(defs, node, frames).value, at) == Some(Obj(there))
    ensures "$defs" !in there && "definitions" !in there && "format" !in there
    ensures !RefersToDefinition(there)
  {
    OutputIsClean(defs, node, frames);
    CleanEverywhere(Walk(defs, node, frames).value, at);
    RefersToDefinitionIff(there);
    assert forall k | k in UNSUPPORTED_KEYS :: k !in there;
  }

  /** The walk of an object that refers to no definition keeps exactly the other keys, each with its walked value. */
  lemma WalkedObjectKeys(defs: Json, fields: map<string, Json>, frames: nat)
    requires !RefersToDefinition(fields) && Walk(defs, Obj(fields), frames).Some?
    ensures frames > 0 && Walk(defs, Obj(fields), frames).value.Obj?
    ensures var out := Walk(defs, Obj(fields), frames).value.fields;
            && (forall k :: k in out <==> k in fields && k != "$defs" && k != "definitions" && k != "format")
            && (forall k | k in out :: Walk(defs, fields[k], frames - 1) == Some(out[k]))
  {
    RefersToDefinitionIff(fields);
  }

  lemma {:induction false} CleanIsFixed(defs: Json, node: Json, frames: nat)
    requires Clean(node)
    requires Walk(defs, node, frames).Some?
    ensures Walk(defs, node, frames) == Some(node)
    decreases frames
  {
    match node
    case Obj(fields) =>
      assert Kept(fields) == fields.Keys;
      forall k | k in fields ensures Walk(defs, fields[k], frames - 1) == Some(fields[k]) {
        CleanIsFixed(defs, fields[k], frames - 1);
      }
      assert Walk(defs, node, frames).value.fields == fields;
    case List(items) =>
      forall i | 0 <= i < |items| ensures Walk(defs, items[i], frames - 1) == Some(items[i]) {
        CleanIsFixed(defs, items[i], frames - 1);
      }
      assert Walk(defs, node, frames).value.items == items;
    case _ =>
  }

  lemma CleanFront(j: Json)
    requires Clean(j)
    ensures j.Obj? ==> RefKey(j.fields) == None && Kept(j.fields) == j.fields.Keys
  {
  }

  /** The walk of the output needs no more stack than the walk that produced it. */
  lemma {:induction false} OutputIsShallow(defs: Json, node: Json, frames: nat, defs': Json)
    requires Walk(defs, node, frames).Some?
    ensures Walk(defs', Walk(defs, node, frames).value, frames).Some?
    decreases frames
  {
    hide Clean, RefKey;
    OutputIsClean(defs, node, frames);
    var out := Walk(defs, node, frames).value;
    CleanFront(out);
    match node
    case Obj(fields) =>
      match RefKey(fields) {
        case Some(key) =>
          if key in defs.fields && defs.fields[key].Obj? {
            OutputIsShallow(defs, defs.fields[key], frames - 1, defs');
            WalkMonotone(defs', out, frames - 1, frames);
          }
        case None =>
          forall k | k in out.fields ensures Walk(defs', out.fields[k], frames - 1).Some? {
            OutputIsShallow(defs, fields[k], frames - 1, defs');
          }
      }
    case List(items) =>
      forall i | 0 <= i < |items| ensures Walk(defs', out.items[i], frames - 1).Some? {
        OutputIsShallow(defs, items[i], frames - 1, defs');
      }
    case _ =>
  }

  /** Inlining its own output returns it unchanged, on the same stack. */
  lemma InliningIsIdempotent(schema: map<string, Json>, frames: nat)
    requires InlineDefs(schema, frames).Some?
    ensures InlineDefs(schema, frames).value.Obj?
    ensures InlineDefs(InlineDefs(schema, frames).value.fields, frames) == InlineDefs(schema, frames)
  {
    var defs := Defs(schema);
    var out := InlineDefs(schema, frames).value;
    WalkKeepsKind(defs, Obj(schema), frames);
    OutputIsClean(defs, Obj(schema), frames);
    OutputIsShallow(defs, Obj(schema), frames, Defs(out.fields));
    CleanIsFixed(Defs(out.fields), out, frames);
  }

  // ----- When the expansion ends -----

  function Unopened(defs: Json, open: set<string>): nat {
    if defs.Obj? then |defs.fields.Keys - open| else 0
  }

  lemma OpeningShrinks(defs: Json, open: set<string>, key: string)
    requires defs.Obj? && key in defs.fields && key !in open
    ensures Unopened(defs, open + {key}) < Unopened(defs, open)
  {
    assert defs.fields.Keys - open == (defs.fields.Keys - (open + {key})) + {key};
  }

  /** The check a caller can make beforehand: no definition is met again while it is being expanded, and every
    * reference met is looked up in a dictionary. `open` holds the definitions being expanded. */
  predicate Expandable(defs: Json, node: Json, open: set<string>)
    decreases Unopened(defs, open), node
  {
    match node
    case Obj(fields) =>
      (match RefKey(fields)
       case Some(key) =>
         defs.Obj? &&
         (key in defs.fields && defs.fields[key].Obj? ==>
            key !in open &&
            (OpeningShrinks(defs, open, key);
             Expandable(defs, defs.fields[key], open + {key})))
       case None =>
         forall k | k in Kept(fields) :: Expandable(defs, fields[k], open))
    case List(items) => forall i | 0 <= i < |items| :: Expandable(defs, items[i], open)
    case _ => true
  }

  ghost predicate Returns(defs: Json, node: Json) {
    exists frames :: Walk(defs, node, frames).Some?
  }

  lemma {:induction false} CommonFrames(defs: Json, nodes: set<Json>) returns (frames: nat)
    requires forall n | n in nodes :: Returns(defs, n)
    ensures forall n | n in nodes :: Walk(defs, n, frames).Some?
    decreases nodes
  {
    frames := 0;
    if nodes != {} {
      var n :| n in nodes;
      var rest := CommonFrames(defs, nodes - {n});
      var own: nat :| Walk(defs, n, own).Some?;
      frames := if rest < own then own else rest;
      forall m | m in nodes ensures Walk(defs, m, frames).Some? {
        WalkMonotone(defs, m, if m == n then own else rest, frames);
      }
    }
  }

  lemma {:induction false} ExpandableReturns(defs: Json, node: Json, open: set<string>)
    requires Expandable(defs, node, open)
    ensures Returns(defs, node)
    decreases Unopened(defs, open), node
  {
    match node
    case Obj(fields) =>
      match RefKey(fields) {
        case Some(key) =>
          if key in defs.fields && defs.fields[key].Obj? {
            OpeningShrinks(defs, open, key);
            ExpandableReturns(defs, defs.fields[key], open + {key});
            var frames: nat :| Walk(defs, defs.fields[key], frames).Some?;
            assert Walk(defs, node, frames + 1).Some?;
          } else {
            assert Walk(defs, node, 1).Some?;
          }
        case None =>
          forall k | k in Kept(fields) ensures Returns(defs, fields[k]) {
            ExpandableReturns(defs, fields[k], open);
          }
          var frames := CommonFrames(defs, set k | k in Kept(fields) :: fields[k]);
          assert forall k | k in Kept(fields) :: Walk(defs, fields[k], frames).Some?;
          assert Walk(defs, node, frames + 1).Some?;
      }
    case List(items) =>
      forall i | 0 <= i < |items| ensures Returns(defs, items[i]) {
        ExpandableReturns(defs, items[i], open);
      }
      var frames := CommonFrames(defs, set i | 0 <= i < |items| :: items[i]);
      assert forall i | 0 <= i < |items| :: Walk(defs, items[i], frames).Some?;
      assert Walk(defs, node, frames + 1).Some?;
    case _ =>
      assert Walk(defs, node, 1).Some?;
  }

  lemma LeastFrames(defs: Json, node: Json, some: nat) returns (frames: nat)
    requires Walk(defs, node, some).Some?
    ensures frames <= some
    ensures Walk(defs, node, frames).Some?
    ensures 0 < frames && Walk(defs, node, frames - 1).None?
    decreases some
  {
    if Walk(defs, node, some - 1).Some? {
      frames := LeastFrames(defs, node, some - 1);
    } else {
      frames := some;
    }
  }

  /** Every open definition needs at least `frames` frames. */
  ghost predicate OpenNeed(defs: Json, open: set<string>, frames: nat) {
    forall key | key in open ::
      defs.Obj? && key in defs.fields && Walk(defs, defs.fields[key], frames).None?
  }

  lemma OpenNeedLess(defs: Json, open: set<string>, frames: nat, fewer: nat)
    requires OpenNeed(defs, open, frames)
    requires fewer <= frames
    ensures OpenNeed(defs, open, fewer)
  {
    forall key | key in open ensures Walk(defs, defs.fields[key], fewer).None? {
      if Walk(defs, defs.fields[key], fewer).Some? {
        WalkMonotone(defs, defs.fields[key], fewer, frames);
      }
    }
  }

  /** Opening one more definition, at the least stack on which it returns, keeps every open definition unaffordable. */
  lemma OpenOneMore(defs: Json, open: set<string>, frames: nat, key: string) returns (least: nat)
    requires defs.Obj? && key in defs.fields
    requires Walk(defs, defs.fields[key], frames).Some?
    requires OpenNeed(defs, open, frames)
    ensures key !in open
    ensures 0 < least <= frames && Walk(defs, defs.fields[key], least).Some?
    ensures OpenNeed(defs, open + {key}, least - 1)
  {
    least := LeastFrames(defs, defs.fields[key], frames);
    OpenNeedLess(defs, open, frames, least - 1);
  }

  /** A walk that returns never meets an open definition, because that definition would need a smaller stack than
    * the least one on which it returns. */
  lemma {:induction false} ReturnsExpandable(defs: Json, node: Json, open: set<string>, frames: nat)
    requires 0 < frames && Walk(defs, node, frames).Some?
    requires OpenNeed(defs, open, frames - 1)
    ensures Expandable(defs, node, open)
    decreases frames
  {
    hide RefKey, OpenNeed, Unopened;
    match node
    case Obj(fields) =>
      if RefKey(fields).Some? {
        var key := RefKey(fields).value;
        if key in defs.fields && defs.fields[key].Obj? {
          var least := OpenOneMore(defs, open, frames - 1, key);
          ReturnsExpandable(defs, defs.fields[key], open + {key}, least);
        }
      } else {
        forall k | k in Kept(fields) ensures Expandable(defs, fields[k], open) {
          assert Walk(defs, fields[k], frames - 1).Some?;
          OpenNeedLess(defs, open, frames - 1, frames - 2);
          ReturnsExpandable(defs, fields[k], open, frames - 1);
        }
      }
    case List(items) =>
      forall i | 0 <= i < |items| ensures Expandable(defs, items[i], open) {
        assert Walk(defs, items[i], frames - 1).Some?;
        OpenNeedLess(defs, open, frames - 1, frames - 2);
        ReturnsExpandable(defs, items[i], open, frames - 1);
      }
    case _ =>
  }

  /** A model that refers to itself makes the walk fail on every stack: `key` is a definition with a field that
    * refers to `key`. */
  lemma {:induction false} RecursiveModelNeverReturns(defs: Json, key: string, field: string, ref: Json, frames: nat)
    requires defs.Obj? && key in defs.fields && defs.fields[key].Obj?
    requires ref.Obj? && RefKey(ref.fields) == Some(key)
    requires var body := defs.fields[key].fields;
             RefKey(body) == None && field in Kept(body) && body[field] == ref
    ensures Walk(defs, ref, frames) == None && Walk(defs, defs.fields[key], frames) == None
  {
    hide RefKey, Kept;
    if frames > 0 {
      RecursiveModelNeverReturns(defs, key, field, ref, frames - 1);
    }
  }

  /** Some stack is deep enough exactly when no reachable definition is met inside itself. */
  lemma InliningReturnsIffAcyclic(schema: map<string, Json>)
    ensures Returns(Defs(schema), Obj(schema)) <==> Expandable(Defs(schema), Obj(schema), {})
  {
    if Expandable(Defs(schema), Obj(schema), {}) {
      ExpandableReturns(Defs(schema), Obj(schema), {});
    }
    if Returns(Defs(schema), Obj(schema)) {
      var frames: nat :| Walk(Defs(schema), Obj(schema), frames).Some?;
      ReturnsExpandable(Defs(schema), Obj(schema), {}, frames);
    }
  }
}
