/** `prune_unreferenced_components`: keep exactly the component schemas that the retained paths reach. */
module ComponentPruning {
  import opened Basics
  import opened JsonPointer
  import opened JsonValues

  const SCHEMA_REF_PREFIX := "#/components/schemas/"

  /** The name that `^#/components/schemas/(?P<name>[^/]+)$` extracts. */
  function RefName(ref: string): Option<string> {
    if SCHEMA_REF_PREFIX <= ref then
      var name := ref[|SCHEMA_REF_PREFIX|..];
      if name != "" && '/' !in name then Some(name) else None
    else None
  }

  function OwnRef(fields: map<string, Json>): set<string> {
    if "$ref" in fields && fields["$ref"].Str? && RefName(fields["$ref"].s).Some?
    then {RefName(fields["$ref"].s).value}
    else {}
  }

  /** Every component schema named by a `$ref` anywhere in `node`. */
  function Refs(node: Json): set<string>
    decreases node, 1
  {
    match node
    case Obj(fields) => OwnRef(fields) + RefsUnder(node, fields.Keys)
    case List(items) => RefsUpTo(node, |items|)
    case _ => {}
  }

  function RefsUnder(node: Json, keys: set<string>): set<string>
    requires node.Obj? && keys <= node.fields.Keys
    decreases node, 0
  {
    set key, name | key in keys && name in Refs(node.fields[key]) :: name
  }

  function RefsUpTo(node: Json, count: nat): set<string>
    requires node.List? && count <= |node.items|
    decreases node, 0
  {
    set i, name | 0 <= i < count && name in Refs(node.items[i]) :: name
  }

  method CollectComponentSchemaRefs(node: Json) returns (refs: set<string>)
    ensures refs == Refs(node)
    ensures forall name :: name in refs <==> Mentions(node, name)
  {
    hide Mentions, OwnRef;
    refs := {};
    if node.Obj? {
      refs := OwnRef(node.fields);
      var keys := node.fields.Keys;
      while keys != {}
        invariant keys <= node.fields.Keys
        invariant refs == OwnRef(node.fields) + RefsUnder(node, node.fields.Keys - keys)
        decreases keys
      {
        var key :| key in keys;
        var inner := CollectComponentSchemaRefs(node.fields[key]);
        refs := refs + inner;
        keys := keys - {key};
      }
      assert node.fields.Keys - keys == node.fields.Keys;
    } else if node.List? {
      for n := 0 to |node.items|
        invariant refs == RefsUpTo(node, n)
      {
        var inner := CollectComponentSchemaRefs(node.items[n]);
        refs := refs + inner;
      }
    }
    forall name ensures name in refs <==> Mentions(node, name) {
      CollectedIffMentioned(node, name);
    }
  }

  // ----- What a reference is -----

  /** At the place `at` stands an object whose `$ref` refers to the component schema `name`. */
  ghost predicate ReferenceAt(doc: Json, at: seq<string>, name: string) {
    match Eval(doc, at)
    case Some(Obj(fields)) => "$ref" in fields && fields["$ref"] == Str("#/components/schemas/" + name)
    case _ => false
  }

  /** Somewhere in the document stands a reference to the component schema `name`. */
  ghost predicate Mentions(doc: Json, name: string) {
    name != "" && '/' !in name && exists at :: ReferenceAt(doc, at, name)
  }

  lemma OwnRefIs(fields: map<string, Json>, name: string)
    ensures name in OwnRef(fields) <==> name != "" && '/' !in name && ReferenceAt(Obj(fields), [], name)
  {
    if "$ref" in fields && fields["$ref"].Str? {
      var ref := fields["$ref"].s;
      if SCHEMA_REF_PREFIX <= ref {
        assert ref == SCHEMA_REF_PREFIX + ref[|SCHEMA_REF_PREFIX|..];
      }
      if ref == SCHEMA_REF_PREFIX + name {
        assert ref[|SCHEMA_REF_PREFIX|..] == name;
      }
    }
  }

  lemma MentionedBelow(doc: Json, token: string, child: Json, name: string)
    requires Eval(doc, [token]) == Some(child) && Mentions(child, name)
    ensures Mentions(doc, name)
  {
    var at :| ReferenceAt(child, at, name);
    EvalAppend(doc, [token], at);
    assert ReferenceAt(doc, [token] + at, name);
  }

  lemma EvalOne(doc: Json, token: string)
    ensures doc.Obj? && token in doc.fields ==> Eval(doc, [token]) == Some(doc.fields[token])
    ensures doc.List? && ArrayIndex(token).Some? && ArrayIndex(token).value < |doc.items| ==>
              Eval(doc, [token]) == Some(doc.items[ArrayIndex(token).value])
  {
    assert [token][1..] == [];
  }

  lemma {:induction false} CollectedIsMentioned(doc: Json, name: string)
    requires name in Refs(doc)
    ensures Mentions(doc, name)
    decreases doc
  {
    match doc
    case Obj(fields) =>
      if name in OwnRef(fields) {
        OwnRefIs(fields, name);
      } else {
        var key :| key in fields && name in Refs(fields[key]);
        CollectedIsMentioned(fields[key], name);
        EvalOne(doc, key);
        MentionedBelow(doc, key, fields[key], name);
      }
    case List(items) =>
      var i :| 0 <= i < |items| && name in Refs(items[i]);
      CollectedIsMentioned(items[i], name);
      ArrayIndexDecimal(i);
      EvalOne(doc, Decimal(i));
      MentionedBelow(doc, Decimal(i), items[i], name);
    case _ =>
  }

  lemma {:induction false} MentionIsCollected(doc: Json, at: seq<string>, name: string)
    requires name != "" && '/' !in name && ReferenceAt(doc, at, name)
    ensures name in Refs(doc)
    decreases |at|
  {
    hide OwnRef;
    if at == [] {
      OwnRefIs(doc.fields, name);
    } else {
      match doc
      case Obj(fields) =>
        MentionIsCollected(fields[at[0]], at[1..], name);
      case List(items) =>
        MentionIsCollected(items[ArrayIndex(at[0]).value], at[1..], name);
    }
  }

  /** For every document, the names collected are exactly those that a reference anywhere in it refers to. */
  lemma CollectedIffMentioned(doc: Json, name: string)
    ensures name in Refs(doc) <==> Mentions(doc, name)
  {
    if name in Refs(doc) { CollectedIsMentioned(doc, name); }
    if Mentions(doc, name) {
      var at :| ReferenceAt(doc, at, name);
      MentionIsCollected(doc, at, name);
    }
  }

  // ----- Reachability -----

  /** The schemas that the body of `name` refers to; a dangling name refers to nothing. */
  function Edges(schemas: map<string, Json>, name: string): set<string> {
    if name in schemas then Refs(schemas[name]) else {}
  }

  ghost predicate IsRefPath(schemas: map<string, Json>, roots: set<string>, path: seq<string>) {
    && path != []
    && path[0] in roots
    && forall i | 0 <= i < |path| - 1 :: path[i + 1] in Edges(schemas, path[i])
  }

  /** Some chain of references leads from a root to `name`. */
  ghost predicate Reachable(schemas: map<string, Json>, roots: set<string>, name: string) {
    exists path :: IsRefPath(schemas, roots, path) && path[|path| - 1] == name
  }

  lemma ReachableRoot(schemas: map<string, Json>, roots: set<string>, name: string)
    requires name in roots
    ensures Reachable(schemas, roots, name)
  {
    assert IsRefPath(schemas, roots, [name]) && [name][|[name]| - 1] == name;
  }

  lemma ReachableEdge(schemas: map<string, Json>, roots: set<string>, name: string, next: string)
    requires Reachable(schemas, roots, name) && next in Edges(schemas, name)
    ensures Reachable(schemas, roots, next)
  {
    var path :| IsRefPath(schemas, roots, path) && path[|path| - 1] == name;
    var longer := path + [next];
    assert IsRefPath(schemas, roots, longer) && longer[|longer| - 1] == next;
  }

  ghost predicate Closed(schemas: map<string, Json>, names: set<string>) {
    forall name | name in names :: Edges(schemas, name) <= names
  }

  /** A closed set that holds the roots holds everything reachable. */
  lemma {:induction false} ClosedHoldsReachable(schemas: map<string, Json>, roots: set<string>, names: set<string>,
                                                path: seq<string>)
    requires roots <= names && Closed(schemas, names)
    requires IsRefPath(schemas, roots, path)
    ensures path[|path| - 1] in names
    decreases |path|
  {
    if |path| > 1 {
      var front := path[..|path| - 1];
      assert IsRefPath(schemas, roots, front);
      ClosedHoldsReachable(schemas, roots, names, front);
      assert path[|path| - 1] in Edges(schemas, path[|path| - 2]);
    }
  }

  /** Every name mentioned by a root or a schema body; it bounds the search. */
  function Mentioned(schemas: map<string, Json>, roots: set<string>): set<string> {
    roots + set key, name | key in schemas && name in Refs(schemas[key]) :: name
  }

  ghost function ReachableNames(schemas: map<string, Json>, roots: set<string>): (names: set<string>)
    ensures forall name :: name in names <==> Reachable(schemas, roots, name)
  {
    assert Closed(schemas, Mentioned(schemas, roots));
    assert forall name | Reachable(schemas, roots, name) :: name in Mentioned(schemas, roots) by {
      forall name | Reachable(schemas, roots, name) ensures name in Mentioned(schemas, roots) {
        var path :| IsRefPath(schemas, roots, path) && path[|path| - 1] == name;
        ClosedHoldsReachable(schemas, roots, Mentioned(schemas, roots), path);
      }
    }
    set name | name in Mentioned(schemas, roots) && Reachable(schemas, roots, name)
  }

  /** The search finds the only set that is closed, holds the roots and holds nothing unreachable. */
  lemma ClosedReachableIsAll(schemas: map<string, Json>, roots: set<string>, names: set<string>)
    requires roots <= names && Closed(schemas, names)
    requires forall name | name in names :: Reachable(schemas, roots, name)
    ensures names == ReachableNames(schemas, roots)
  {
    forall name | Reachable(schemas, roots, name) ensures name in names {
      var path :| IsRefPath(schemas, roots, path) && path[|path| - 1] == name;
      ClosedHoldsReachable(schemas, roots, names, path);
    }
  }

  // ----- Pruning -----

  function Roots(schema: map<string, Json>): set<string> {
    Refs(Get(schema, "paths", Obj(map[])))
  }

  predicate HasSchemas(schema: map<string, Json>) {
    && "components" in schema && schema["components"].Obj?
    && "schemas" in schema["components"].fields && schema["components"].fields["schemas"].Obj?
  }

  function Schemas(schema: map<string, Json>): map<string, Json>
    requires HasSchemas(schema)
  {
    schema["components"].fields["schemas"].fields
  }

  function WithSchemas(schema: map<string, Json>, schemas: map<string, Json>): map<string, Json>
    requires HasSchemas(schema)
  {
    schema["components" := Obj(schema["components"].fields["schemas" := Obj(schemas)])]
  }

  ghost function Prune(schema: map<string, Json>): map<string, Json> {
    if HasSchemas(schema) then
      var schemas := Schemas(schema);
      var names := ReachableNames(schemas, Roots(schema));
      WithSchemas(schema, map name | name in schemas && name in names :: schemas[name])
    else schema
  }

  /** The worklist, on any reference graph: cyclic, or with names that no schema defines. */
  method FindReachable(schemas: map<string, Json>, roots: set<string>) returns (reachable: set<string>)
    ensures reachable == ReachableNames(schemas, roots)
  {
    reachable := roots;
    var expanded: set<string> := {};
    forall name | name in roots ensures Reachable(schemas, roots, name) {
      ReachableRoot(schemas, roots, name);
    }
    var pending := reachable - expanded;
    while pending != {}
      invariant pending == reachable - expanded
      invariant Progress(schemas, roots, reachable, expanded)
      decreases Mentioned(schemas, roots) - expanded
    {
      reachable := ExpandAll(schemas, roots, reachable, expanded, pending);
      expanded := expanded + pending;
      pending := reachable - expanded;
    }
    forall name | name in reachable ensures name in expanded {
      assert name !in pending;
    }
    ClosedReachableIsAll(schemas, roots, reachable);
  }

  /** One round of the worklist: expand every pending name. */
  method ExpandAll(schemas: map<string, Json>, ghost roots: set<string>, reachable: set<string>,
                   ghost expanded: set<string>,
                   pending: set<string>)
    returns (found: set<string>)
    requires Progress(schemas, roots, reachable, expanded)
    requires pending <= reachable
    ensures Progress(schemas, roots, found, expanded + pending)
  {
    found := reachable;
    ghost var done := expanded;
    var todo := pending;
    while todo != {}
      invariant todo <= found && done + todo == expanded + pending
      invariant Progress(schemas, roots, found, done)
      decreases todo
    {
      var name :| name in todo;
      var more := {};
      if name in schemas {
        more := CollectComponentSchemaRefs(schemas[name]);
      }
      RoundStep(schemas, roots, found, done, todo, name);
      found, done, todo := found + more, done + {name}, todo - {name};
    }
    assert done == expanded + pending;
  }

  lemma RoundStep(schemas: map<string, Json>, roots: set<string>, found: set<string>, done: set<string>,
                  todo: set<string>,
                  name: string)
    requires Progress(schemas, roots, found, done) && todo <= found && name in todo
    ensures Progress(schemas, roots, found + Edges(schemas, name), done + {name})
    ensures todo - {name} <= found + Edges(schemas, name)
    ensures (done + {name}) + (todo - {name}) == done + todo
  {
    ProgressStep(schemas, roots, found, done, name);
  }

  method PruneUnreferencedComponents(schema: map<string, Json>) returns (pruned: map<string, Json>)
    ensures pruned == Prune(schema)
  {
    if !HasSchemas(schema) {
      return schema;
    }
    var schemas := Schemas(schema);
    var roots := CollectComponentSchemaRefs(Get(schema, "paths", Obj(map[])));
    var reachable := FindReachable(schemas, roots);
    pruned := WithSchemas(schema, map name | name in schemas && name in reachable :: schemas[name]);
  }

  /** The invariant of the worklist: everything found is reachable, and what is expanded is closed within it. */
  ghost predicate Progress(schemas: map<string, Json>, roots: set<string>, reachable: set<string>,
                           expanded: set<string>) {
    && roots <= reachable && expanded <= reachable <= Mentioned(schemas, roots)
    && (forall name | name in reachable :: Reachable(schemas, roots, name))
    && (forall name | name in expanded :: Edges(schemas, name) <= reachable)
  }

  lemma ProgressStep(schemas: map<string, Json>, roots: set<string>, reachable: set<string>, expanded: set<string>,
                     name: string)
    requires Progress(schemas, roots, reachable, expanded) && name in reachable
    ensures Progress(schemas, roots, reachable + Edges(schemas, name), expanded + {name})
  {
    forall next | next in Edges(schemas, name) ensures Reachable(schemas, roots, next) {
      ReachableEdge(schemas, roots, name, next);
    }
  }

  // ----- What pruning promises -----

  /** Every reference under the paths or inside a schema of `kept` that `schemas` resolves is resolved by `kept`. */
  ghost predicate KeepsReferences(schemas: map<string, Json>, paths: Json, kept: map<string, Json>) {
    && (forall name | Mentions(paths, name) && name in schemas :: name in kept)
    && (forall key, name | key in kept && Mentions(kept[key], name) && name in schemas :: name in kept)
  }

  /** The same on the names collected. */
  ghost predicate KeepsRefs(schemas: map<string, Json>, roots: set<string>, kept: map<string, Json>) {
    && (forall name | name in roots && name in schemas :: name in kept)
    && (forall key, name | key in kept && name in Refs(kept[key]) && name in schemas :: name in kept)
  }

  lemma KeepsEither(schemas: map<string, Json>, paths: Json, kept: map<string, Json>)
    ensures KeepsReferences(schemas, paths, kept) <==> KeepsRefs(schemas, Refs(paths), kept)
  {
    hide Mentions, Refs;
    forall doc, name ensures name in Refs(doc) <==> Mentions(doc, name) {
      CollectedIffMentioned(doc, name);
    }
  }

  ghost predicate SubMap(small: map<string, Json>, big: map<string, Json>) {
    forall name | name in small :: name in big && small[name] == big[name]
  }

  /** The schemas kept are the least part of the original ones in which every reference still resolves. */
  lemma PruningKeepsLeastResolvingPart(schema: map<string, Json>, other: map<string, Json>)
    requires HasSchemas(schema)
    ensures HasSchemas(Prune(schema))
    ensures var kept := Schemas(Prune(schema));
            && SubMap(kept, Schemas(schema))
            && KeepsReferences(Schemas(schema), Get(schema, "paths", Obj(map[])), kept)
            && (SubMap(other, Schemas(schema))
                && KeepsReferences(Schemas(schema), Get(schema, "paths", Obj(map[])), other) ==>
                  SubMap(kept, other))
  {
    var schemas, roots, kept := Schemas(schema), Roots(schema), Schemas(Prune(schema));
    forall name | name in roots && name in schemas ensures name in kept {
      ReachableRoot(schemas, roots, name);
    }
    forall key, name | key in kept && name in Refs(kept[key]) && name in schemas ensures name in kept {
      ReachableEdge(schemas, roots, key, name);
    }
    KeepsEither(schemas, Get(schema, "paths", Obj(map[])), kept);
    KeepsEither(schemas, Get(schema, "paths", Obj(map[])), other);
    if SubMap(other, schemas) && KeepsRefs(schemas, roots, other) {
      forall name | name in kept ensures name in other {
        var path :| IsRefPath(schemas, roots, path) && path[|path| - 1] == name;
        ResolvingHoldsReachable(schemas, roots, other, path);
      }
    }
  }

  lemma {:induction false} ResolvingHoldsReachable(schemas: map<string, Json>, roots: set<string>, kept: map<string,
                                                   Json>, path: seq<string>)
    requires SubMap(kept, schemas) && KeepsRefs(schemas, roots, kept)
    requires IsRefPath(schemas, roots, path) && path[|path| - 1] in schemas
    ensures path[|path| - 1] in kept
    decreases |path|
  {
    if |path| > 1 {
      var front := path[..|path| - 1];
      assert IsRefPath(schemas, roots, front);
      assert path[|path| - 1] in Edges(schemas, path[|path| - 2]);
      ResolvingHoldsReachable(schemas, roots, kept, front);
    }
  }

  /** Each name of the chain is mentioned by the schema before it, the first one by the paths. */
  ghost predicate IsChain(schemas: map<string, Json>, paths: Json, chain: seq<string>) {
    && chain != []
    && Mentions(paths, chain[0])
    && forall i | 0 <= i < |chain| - 1 :: chain[i] in schemas && Mentions(schemas[chain[i]], chain[i + 1])
  }

  lemma EdgeIsMention(schemas: map<string, Json>, name: string, next: string)
    ensures next in Edges(schemas, name) <==> name in schemas && Mentions(schemas[name], next)
  {
    if name in schemas { CollectedIffMentioned(schemas[name], next); }
  }

  lemma ChainIsRefPath(schemas: map<string, Json>, paths: Json, chain: seq<string>)
    ensures IsChain(schemas, paths, chain) <==> IsRefPath(schemas, Refs(paths), chain)
  {
    hide Refs, Edges;
    if chain != [] { CollectedIffMentioned(paths, chain[0]); }
    if IsChain(schemas, paths, chain) {
      forall i | 0 <= i < |chain| - 1 ensures chain[i + 1] in Edges(schemas, chain[i]) {
        EdgeIsMention(schemas, chain[i], chain[i + 1]);
      }
    }
    if IsRefPath(schemas, Refs(paths), chain) {
      forall i | 0 <= i < |chain| - 1 ensures chain[i] in schemas && Mentions(schemas[chain[i]], chain[i + 1]) {
        assert chain[i + 1] in Edges(schemas, chain[i]);
        EdgeIsMention(schemas, chain[i], chain[i + 1]);
      }
    }
  }

  /** Pruning keeps a schema exactly when a chain of references leads to it from the paths. */
  lemma PrunedIffMentioned(schema: map<string, Json>, name: string)
    requires HasSchemas(schema)
    ensures HasSchemas(Prune(schema))
    ensures name in Schemas(Prune(schema)) <==>
              && name in Schemas(schema)
              && exists chain :: IsChain(Schemas(schema), Get(schema, "paths", Obj(map[])), chain)
                                 && chain[|chain| - 1] == name
  {
    hide IsChain, IsRefPath, Refs;
    var schemas, paths := Schemas(schema), Get(schema, "paths", Obj(map[]));
    forall chain ensures IsChain(schemas, paths, chain) <==> IsRefPath(schemas, Refs(paths), chain) {
      ChainIsRefPath(schemas, paths, chain);
    }
  }

  /** Reachability only looks at reachable bodies, so it is the same in the pruned graph. */
  lemma {:induction false} PathSurvives(schemas: map<string, Json>, roots: set<string>, kept: map<string, Json>,
                                        path: seq<string>)
    requires SubMap(kept, schemas)
    requires forall name | name in schemas && Reachable(schemas, roots, name) :: name in kept
    requires IsRefPath(schemas, roots, path)
    ensures IsRefPath(kept, roots, path)
  {
    forall i | 0 <= i < |path| - 1 ensures path[i + 1] in Edges(kept, path[i]) {
      assert path[i + 1] in Edges(schemas, path[i]);
      var front := path[..i + 1];
      assert IsRefPath(schemas, roots, front) && front[|front| - 1] == path[i];
      assert Reachable(schemas, roots, path[i]);
    }
  }

  lemma ReachableInPruned(schemas: map<string, Json>, roots: set<string>, kept: map<string, Json>)
    requires SubMap(kept, schemas)
    requires forall name | name in schemas && Reachable(schemas, roots, name) :: name in kept
    ensures ReachableNames(kept, roots) == ReachableNames(schemas, roots)
  {
    forall name ensures Reachable(kept, roots, name) <==> Reachable(schemas, roots, name) {
      if Reachable(schemas, roots, name) {
        var path :| IsRefPath(schemas, roots, path) && path[|path| - 1] == name;
        PathSurvives(schemas, roots, kept, path);
      }
      if Reachable(kept, roots, name) {
        var path :| IsRefPath(kept, roots, path) && path[|path| - 1] == name;
        assert IsRefPath(schemas, roots, path);
      }
    }
  }

  /** Nothing but the component schemas is touched, and those kept are the original ones. */
  lemma PruningTouchesOnlySchemas(schema: map<string, Json>)
    ensures var pruned := Prune(schema);
            && pruned.Keys == schema.Keys
            && (forall key | key in schema && key != "components" :: pruned[key] == schema[key])
            && (if HasSchemas(schema) then
                  var before, after := schema["components"].fields, pruned["components"].fields;
                  && after.Keys == before.Keys
                  && (forall group | group in before && group != "schemas" :: after[group] == before[group])
                else pruned == schema)
  {
    if HasSchemas(schema) {
      var pruned := Prune(schema);
      assert HasSchemas(pruned);
      assert pruned["components"].fields.Keys == schema["components"].fields.Keys;
    }
  }

  lemma PruningIsIdempotent(schema: map<string, Json>)
    ensures Prune(Prune(schema)) == Prune(schema)
  {
    if HasSchemas(schema) {
      var pruned := Prune(schema);
      var schemas, kept := Schemas(schema), Schemas(pruned);
      assert Roots(pruned) == Roots(schema);
      ReachableInPruned(schemas, Roots(schema), kept);
      assert Schemas(Prune(pruned)) == kept;
      assert pruned["components"].fields["schemas" := Obj(kept)] == pruned["components"].fields;
      assert pruned["components" := pruned["components"]] == pruned;
    }
  }
}
