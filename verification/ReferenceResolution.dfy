/** What `_inline_defs` looks up for a reference, against what the reference means: a JSON Pointer in a URI fragment
  * (sections 4 and 6 of RFC 6901), evaluated on the whole schema. */
module ReferenceResolution {
  import opened Basics
  import opened JsonValues
  import opened JsonPointer
  import opened SchemaInlining

  const DEFS := "$defs"
  const DEFINITIONS := "definitions"

  /** What the reference means; a missing target and one that is no object read as `{}`. */
  function RfcTarget(schema: map<string, Json>, ref: string): Json
    requires ref != ""
  {
    match Eval(Obj(schema), FragmentTokens(ref))
    case Some(there) => if there.Obj? then there else Obj(map[])
    case None => Obj(map[])
  }

  /** What the walk looks up. */
  function CodeTarget(schema: map<string, Json>, ref: string): Json
    requires Defs(schema).Obj?
  {
    Target(Defs(schema), LastSegment(ref))
  }

  /** The container that the walk takes its definitions from, whatever a reference says. */
  function Chosen(schema: map<string, Json>): Option<string> {
    if Truthy(Get(schema, DEFS, Null)) then Some(DEFS)
    else if Truthy(Get(schema, DEFINITIONS, Null)) then Some(DEFINITIONS)
    else None
  }

  /** The check on one reference: its tokens are the chosen container and the key that the walk reads off it. */
  predicate Sound(chosen: Option<string>, ref: string)
    requires ref != ""
  {
    chosen == None || FragmentTokens(ref) == [chosen.value, LastSegment(ref)]
  }

  // ----- The tokens of a local reference -----

  lemma LocalRefTokens(ref: string) returns (container: string, name: string)
    requires IsLocalRef(ref)
    ensures container == DEFS || container == DEFINITIONS
    ensures ref == "#/" + container + "/" + name
    ensures FragmentTokens(ref) == [container] + Decode("/" + PercentDecode(name))
  {
    container := if "#/$defs/" <= ref then DEFS else DEFINITIONS;
    name := ref[|container| + 3..];
    assert ref == "#/" + container + "/" + name;
    TokensOf(container, name, ref);
  }

  /** No character that decoding looks at. */
  predicate Literal(s: string) {
    '/' !in s && '~' !in s && '%' !in s
  }

  lemma TokensOf(container: string, name: string, ref: string)
    requires Literal(container) && ref == "#/" + container + "/" + name
    ensures FragmentTokens(ref) == [container] + Decode("/" + PercentDecode(name))
  {
    hide PercentDecode, Decode, Unescape;
    var head := "/" + container + "/";
    Fragment(container, name, ref, head);
    PercentAfterPlain(head, name);
    TokenAfter(container, PercentDecode(name), head + PercentDecode(name));
  }

  lemma Fragment(container: string, name: string, ref: string, head: string)
    requires '%' !in container && ref == "#/" + container + "/" + name && head == "/" + container + "/"
    ensures ref[1..] == head + name && '%' !in head
  {
  }

  lemma TokenAfter(token: string, rest: string, pointer: string)
    requires Literal(token) && pointer == "/" + token + "/" + rest
    ensures Decode(pointer) == [token] + Decode("/" + rest)
  {
    hide Decode, Unescape;
    assert pointer == "/" + token + ("/" + rest);
    DecodeToken(token, "/" + rest);
    PlainToken(token);
  }

  lemma PlainToken(token: string)
    requires '~' !in token
    ensures Unescape(token) == token
  {
    NoPair(token, '1', '/');
    NoPair(token, '0', '~');
  }

  lemma {:induction false} NoPair(s: string, b: char, with: char)
    requires '~' !in s
    ensures ReplacePair(s, '~', b, with) == s
  {
    if s != "" {
      NoPair(s[1..], b, with);
    }
  }

  lemma DecodeOne(name: string)
    ensures Decode("/" + name) != []
    ensures '/' !in name ==> Decode("/" + name) == [Unescape(name)]
    ensures '/' in name ==> |Decode("/" + name)| > 1
  {
    hide Unescape, Decode, FirstIndex;
    var k := FirstIndex(name, '/');
    assert "/" + name == "/" + name[..k] + name[k..];
    DecodeToken(name[..k], name[k..]);
    DecodeEmptyIff(name[k..]);
    assert k == |name| ==> name[..k] == name;
  }

  lemma DecodeEmptyIff(pointer: string)
    ensures Decode(pointer) == [] <==> pointer == ""
  {
  }

  // ----- When the lookup follows the standard -----

  /** A value inside a falsy container does not exist. */
  lemma FalsyHoldsNothing(j: Json, path: seq<string>)
    requires !Truthy(j) && path != []
    ensures Eval(j, path) == None
  {
  }

  lemma EvalFalsyContainer(schema: map<string, Json>, container: string, rest: seq<string>)
    requires !Truthy(Get(schema, container, Null)) && rest != []
    ensures Eval(Obj(schema), [container] + rest) == None
  {
    assert ([container] + rest)[1..] == rest;
    if container in schema { FalsyHoldsNothing(schema[container], rest); }
  }

  lemma SoundIsRight(schema: map<string, Json>, ref: string)
    requires IsLocalRef(ref) && Defs(schema).Obj? && Sound(Chosen(schema), ref)
    ensures CodeTarget(schema, ref) == RfcTarget(schema, ref)
  {
    hide FragmentTokens, LastSegment, IsLocalRef;
    var container, name := LocalRefTokens(ref);
    if Chosen(schema) == None {
      DecodeOne(PercentDecode(name));
      EvalFalsyContainer(schema, container, Decode("/" + PercentDecode(name)));
    } else {
      var c, key := Chosen(schema).value, LastSegment(ref);
      EvalTwo(schema, c, key);
    }
  }

  lemma EvalStep(fields: map<string, Json>, key: string, rest: seq<string>, path: seq<string>)
    requires path == [key] + rest
    ensures Eval(Obj(fields), path) == if key in fields then Eval(fields[key], rest) else None
  {
    assert path[1..] == rest;
  }

  lemma EvalTwo(schema: map<string, Json>, container: string, key: string)
    requires container in schema && schema[container].Obj?
    ensures Eval(Obj(schema), [container, key]) ==
            if key in schema[container].fields then Some(schema[container].fields[key]) else None
  {
    EvalStep(schema, container, [key], [container, key]);
    EvalStep(schema[container].fields, key, [], [key]);
  }

  /** A schema whose chosen container defines only what the walk looks up, with a field that no token names. */
  function Witness(chosen: string, key: string, extra: string): map<string, Json> {
    map[chosen := Obj(map[key := Obj(map[extra := Null])])]
  }

  lemma UnsoundIsWrong(chosen: string, ref: string) returns (schema: map<string, Json>)
    requires IsLocalRef(ref) && !Sound(Some(chosen), ref)
    requires chosen == DEFS || chosen == DEFINITIONS
    ensures Chosen(schema) == Some(chosen) && Defs(schema).Obj?
    ensures CodeTarget(schema, ref) != RfcTarget(schema, ref)
  {
    hide FragmentTokens, LastSegment, IsLocalRef, Eval;
    var container, name := LocalRefTokens(ref);
    var tokens, key := FragmentTokens(ref), LastSegment(ref);
    DecodeOne(PercentDecode(name));
    var extra := if |tokens| > 2 then tokens[2] + "x" else "x";
    schema := Witness(chosen, key, extra);
    WitnessChosen(chosen, key, extra);
    WitnessMissing(chosen, key, extra, tokens);
    var body := Obj(map[extra := Null]);
    assert CodeTarget(schema, ref) == body;
    assert extra in body.fields;
  }

  lemma WitnessChosen(chosen: string, key: string, extra: string)
    requires chosen == DEFS || chosen == DEFINITIONS
    ensures var schema := Witness(chosen, key, extra);
            Chosen(schema) == Some(chosen) && Defs(schema) == Obj(map[key := Obj(map[extra := Null])])
  {
    var defs := map[key := Obj(map[extra := Null])];
    assert key in defs;
    assert Truthy(Obj(defs));
  }

  lemma WitnessMissing(chosen: string, key: string, extra: string, tokens: seq<string>)
    requires |tokens| >= 2 && tokens != [chosen, key]
    requires |tokens| > 2 ==> extra == tokens[2] + "x"
    ensures Eval(Obj(Witness(chosen, key, extra)), tokens) == None
  {
    var defs, body := map[key := Obj(map[extra := Null])], Obj(map[extra := Null]);
    var rest := tokens[1..];
    if tokens[0] == chosen && tokens[1] == key {
      assert |tokens| == 2 ==> tokens == [chosen, key];
      assert rest[0] == key && rest[1..][0] == tokens[2] && |tokens[2]| != |extra|;
      assert Eval(body, rest[1..]) == None;
      assert Eval(Obj(defs), rest) == None;
    }
  }

  /** For every local reference and every choice of container: the lookup gives what the reference means, on every
    * schema with that choice, exactly when the tokens of the reference are the container chosen and the key read off,
    * or there are no definitions at all. */
  lemma LookupFollowsRfcIff(chosen: Option<string>, ref: string)
    requires IsLocalRef(ref)
    requires chosen == None || chosen == Some(DEFS) || chosen == Some(DEFINITIONS)
    ensures (forall schema | Chosen(schema) == chosen && Defs(schema).Obj? ::
               CodeTarget(schema, ref) == RfcTarget(schema, ref))
            <==> Sound(chosen, ref)
  {
    if Sound(chosen, ref) {
      forall schema | Chosen(schema) == chosen && Defs(schema).Obj?
        ensures CodeTarget(schema, ref) == RfcTarget(schema, ref)
      {
        SoundIsRight(schema, ref);
      }
    } else {
      var schema := UnsoundIsWrong(chosen.value, ref);
    }
  }

  /** The walk of an object that refers to a plainly named definition is the walk of that definition, or `{}` if there
    * is none or it is no object; the other members of the object do not matter. */
  lemma WalkedReference(defs: Json, fields: map<string, Json>, name: string, frames: nat)
    requires "$ref" in fields && '/' !in name
    requires fields["$ref"] == Str("#/$defs/" + name) || fields["$ref"] == Str("#/definitions/" + name)
    requires Walk(defs, Obj(fields), frames).Some?
    ensures defs.Obj? && frames > 0
    ensures Walk(defs, Obj(fields), frames) ==
            if name in defs.fields && defs.fields[name].Obj? then Walk(defs, defs.fields[name], frames - 1)
            else Some(Obj(map[]))
  {
    hide LastSegment;
    var ref := fields["$ref"].s;
    var head := if ref == "#/$defs/" + name then "#/$defs" else "#/definitions";
    assert ref == head + "/" + name;
    LastSegmentAfter(head, name);
    RefersToDefinitionIff(fields);
  }

  /** `name` needs no decoding: no slash, no percent-encoded triplet, no `~0` and no `~1`. */
  predicate Plain(name: string) {
    '/' !in name && PercentDecode(name) == name && Unescape(name) == name
  }

  lemma {:induction false} LastSegmentAfter(head: string, name: string)
    ensures LastSegment(head + "/" + name) == if '/' in name then LastSegment(name) else name
    ensures |LastSegment(name)| <= |name|
    decreases |head| + |name|
  {
    var s := head + "/" + name;
    if head != "" {
      assert s[1..] == head[1..] + "/" + name;
      assert (head[1..] + "/" + name)[|head| - 1] == '/';
      LastSegmentAfter(head[1..], name);
    } else {
      assert s[0] == '/' && s[1..] == name;
      LastSegmentShort(name);
    }
  }

  lemma {:induction false} LastSegmentShort(s: string)
    ensures |LastSegment(s)| <= |s|
  {
    if s != "" {
      LastSegmentShort(s[1..]);
    }
  }

  /** The shape of the references that the lookup understands: the chosen container, then one plain name. */
  lemma SoundIffPlain(container: string, name: string, chosen: string)
    requires container == DEFS || container == DEFINITIONS
    ensures Sound(Some(chosen), "#/" + container + "/" + name) <==> container == chosen && Plain(name)
  {
    hide FragmentTokens, LastSegment, PercentDecode, Unescape, Decode;
    var ref := "#/" + container + "/" + name;
    var decoded := PercentDecode(name);
    TokensOf(container, name, ref);
    DecodeOne(decoded);
    LastSegmentAfter("#/" + container, name);
    PercentShrinks(name);
    UnescapeShrinks(decoded);
    if '/' in name { PercentKeepsSlash(name); }
    if '/' !in decoded {
      assert FragmentTokens(ref) == [container, Unescape(decoded)];
      assert [container, Unescape(decoded)] == [chosen, LastSegment(ref)] <==>
             container == chosen && Unescape(decoded) == LastSegment(ref);
    }
  }

  /** A reference to any place, its path spelled without percent signs, means the value there; the walk looks for a
    * definition called like the escaped last step of the path, wherever the path leads, and puts `{}` in its place if
    * there is none. */
  lemma PathReferenceIsMisread(schema: map<string, Json>, container: string, steps: seq<string>)
    requires container == DEFS || container == DEFINITIONS
    requires steps != [] && '%' !in Encode([container] + steps)
    requires Defs(schema).Obj?
    ensures var ref, key := "#" + Encode([container] + steps), Escape(steps[|steps| - 1]);
            && IsLocalRef(ref) && FragmentTokens(ref) == [container] + steps
            && (match Eval(Obj(schema), [container] + steps)
                case Some(there) => there.Obj? ==> RfcTarget(schema, ref) == there
                case None => RfcTarget(schema, ref) == Obj(map[]))
            && CodeTarget(schema, ref) ==
               (if key in Defs(schema).fields && Defs(schema).fields[key].Obj? then Defs(schema).fields[key]
                else Obj(map[]))
  {
    hide Eval, FragmentTokens, LastSegment, Encode, Escape, IsLocalRef, Defs;
    var path := [container] + steps;
    PathIsLocal(container, steps);
    PathKey(path);
    PathTokens(path, "#" + Encode(path));
    assert path[|path| - 1] == steps[|steps| - 1];
  }

  lemma PathTokens(path: seq<string>, ref: string)
    requires '%' !in Encode(path) && ref == "#" + Encode(path)
    ensures FragmentTokens(ref) == path
  {
    hide Decode, PercentDecode, Encode;
    assert ref[1..] == Encode(path);
    UndecodedText(Encode(path));
    DecodeEncode(path);
  }

  lemma PathIsLocal(container: string, steps: seq<string>)
    requires container == DEFS || container == DEFINITIONS
    requires steps != []
    ensures IsLocalRef("#" + Encode([container] + steps))
  {
    hide Encode, Escape;
    var path := [container] + steps;
    assert path[1..] == steps;
    EncodeFront(path);
    EncodeFront(steps);
    EscapePlain(container);
    var rest := Escape(steps[0]) + Encode(steps[1..]);
    assert "#" + Encode(path) == "#/" + container + "/" + rest;
    assert "#/" + DEFS + "/" == "#/$defs/" && "#/" + DEFINITIONS + "/" == "#/definitions/";
  }

  lemma PathKey(path: seq<string>)
    requires path != []
    ensures LastSegment("#" + Encode(path)) == Escape(path[|path| - 1])
  {
    hide LastSegment, Encode, Escape;
    var front, last := path[..|path| - 1], path[|path| - 1];
    assert path == front + [last];
    EncodeStep(front, last);
    assert "#" + Encode(path) == "#" + Encode(front) + "/" + Escape(last);
    EscapeFacts(last);
    LastSegmentAfter("#" + Encode(front), Escape(last));
  }

  /** For example, a reference to a field inside a definition. */
  lemma FieldReferenceIsMisread(name: string, member: string, field: string, there: Json)
    requires there.Obj? && there != Obj(map[]) && name != Escape(field)
    requires '%' !in Encode([DEFS, name, member, field])
    ensures var schema := map[DEFS := Obj(map[name := Obj(map[member := Obj(map[field := there])])])];
            var ref := "#" + Encode([DEFS, name, member, field]);
            && IsLocalRef(ref) && Defs(schema).Obj?
            && RfcTarget(schema, ref) == there && CodeTarget(schema, ref) == Obj(map[]) != there
  {
    hide Eval, FragmentTokens, LastSegment, Encode, Escape, IsLocalRef;
    var fields := map[field := there];
    var body := map[member := Obj(fields)];
    var defs := map[name := Obj(body)];
    var schema := map[DEFS := Obj(defs)];
    assert name in defs && Truthy(Obj(defs));
    assert [DEFS] + [name, member, field] == [DEFS, name, member, field];
    PathReferenceIsMisread(schema, DEFS, [name, member, field]);
    EvalStep(schema, DEFS, [name, member, field], [DEFS, name, member, field]);
    EvalStep(defs, name, [member, field], [name, member, field]);
    EvalStep(body, member, [field], [member, field]);
    EvalStep(fields, field, [], [field]);
    EvalNothing(there);
  }

  lemma EvalNothing(doc: Json)
    ensures Eval(doc, []) == Some(doc)
  {
  }

  // ----- The standard reader -----

  /** Follow a chain of references into the definitions as the standard resolves them. */
  function RfcFollow(schema: map<string, Json>, node: Json, hops: nat): Option<Json>
    decreases hops
  {
    if node.Obj? && "$ref" in node.fields && node.fields["$ref"].Str?
       && ("#/$defs/" <= node.fields["$ref"].s || "#/definitions/" <= node.fields["$ref"].s)
    then if hops == 0 then None else RfcFollow(schema, RfcTarget(schema, node.fields["$ref"].s), hops - 1)
    else Some(node)
  }

  /** The keys of an object that Firecrawl accepts. */
  function Accepted(fields: map<string, Json>): set<string> {
    set k | k in fields && k != "$defs" && k != "definitions" && k != "format"
  }

  /** The place `path` of the schema, with references resolved by the standard on the way. */
  function RfcRead(schema: map<string, Json>, node: Json, path: seq<Segment>, hops: nat): Option<View>
    decreases |path|
  {
    match RfcFollow(schema, node, hops)
    case None => None
    case Some(Obj(fields)) =>
      if path == [] then Some(Keys(Accepted(fields)))
      else if path[0].Key? && path[0].key in Accepted(fields)
      then RfcRead(schema, fields[path[0].key], path[1..], hops)
      else Some(Absent)
    case Some(List(items)) =>
      if path == [] then Some(Length(|items|))
      else if path[0].Index? && path[0].index < |items| then RfcRead(schema, items[path[0].index], path[1..], hops)
      else Some(Absent)
    case Some(scalar) => Some(if path == [] then Scalar(scalar) else Absent)
  }

  lemma AcceptedAreKept(fields: map<string, Json>)
    ensures Accepted(fields) == Kept(fields)
  {
  }

  /** Every reference that the walk of `node` can meet, short of the definitions, is sound. */
  predicate SoundRefs(chosen: Option<string>, node: Json) {
    match node
    case Obj(fields) =>
      if RefKey(fields).Some? then Sound(chosen, fields["$ref"].s)
      else forall k | k in Kept(fields) :: SoundRefs(chosen, fields[k])
    case List(items) => forall i | 0 <= i < |items| :: SoundRefs(chosen, items[i])
    case _ => true
  }

  /** The check on a schema: all references in it and in its definitions are sound. */
  predicate SoundSchema(schema: map<string, Json>) {
    && SoundRefs(Chosen(schema), Obj(schema))
    && (Defs(schema).Obj? ==>
          forall name | name in Defs(schema).fields && Defs(schema).fields[name].Obj? ::
            SoundRefs(Chosen(schema), Defs(schema).fields[name]))
  }

  lemma {:induction false} FollowsAgree(schema: map<string, Json>, node: Json, frames: nat, hops: nat)
    requires Walk(Defs(schema), node, frames).Some? && frames <= hops
    requires SoundSchema(schema) && SoundRefs(Chosen(schema), node)
    ensures RfcFollow(schema, node, hops) == Follow(Defs(schema), node, hops)
    ensures Follow(Defs(schema), node, hops).Some?
            && SoundRefs(Chosen(schema), Follow(Defs(schema), node, hops).value)
    decreases frames
  {
    hide Defs, Chosen, LastSegment, Sound, RfcTarget;
    var defs := Defs(schema);
    if node.Obj? && RefKey(node.fields).Some? {
      var ref := node.fields["$ref"].s;
      SoundIsRight(schema, ref);
      var target := Target(defs, LastSegment(ref));
      if target == Obj(map[]) {
        NoReference(schema, target, hops - 1);
      }
      if LastSegment(ref) in defs.fields && defs.fields[LastSegment(ref)].Obj? {
        FollowsAgree(schema, target, frames - 1, hops - 1);
      }
    }
  }

  lemma NoReference(schema: map<string, Json>, node: Json, hops: nat)
    requires node == Obj(map[])
    ensures RfcFollow(schema, node, hops) == Follow(Defs(schema), node, hops) == Some(node)
    ensures SoundRefs(Chosen(schema), node)
  {
  }

  lemma {:induction false} ReadersAgree(schema: map<string, Json>, node: Json, frames: nat, path: seq<Segment>,
                                        hops: nat)
    requires Walk(Defs(schema), node, frames).Some? && frames <= hops
    requires SoundSchema(schema) && SoundRefs(Chosen(schema), node)
    ensures RfcRead(schema, node, path, hops) == ReadThrough(Defs(schema), node, path, hops)
    decreases |path|
  {
    hide Defs, Chosen, SoundSchema, RfcFollow, Follow, Accepted;
    var defs := Defs(schema);
    FollowsAgree(schema, node, frames, hops);
    var end := FollowReachesWalked(defs, node, frames, hops);
    if end.Obj? { AcceptedAreKept(end.fields); }
    if path != [] {
      match end
      case Obj(fields) =>
        if path[0].Key? && path[0].key in Kept(fields) {
          ReadersAgree(schema, fields[path[0].key], frames - 1, path[1..], hops);
        }
      case List(items) =>
        if path[0].Index? && path[0].index < |items| {
          ReadersAgree(schema, items[path[0].index], frames - 1, path[1..], hops);
        }
      case _ =>
    }
  }

  /** `doc` shows at every path what the standard resolution of references shows from `node`. */
  ghost predicate StandardFaithful(schema: map<string, Json>, node: Json, hops: nat, doc: Json) {
    forall path :: RfcRead(schema, node, path, hops) == Some(Read(doc, path))
  }

  /** Inlining preserves the standard meaning: if every reference is sound, the output shows at every path what the
    * standard resolution of references shows in the original, and it is the only document that does. */
  lemma InliningPreservesStandardMeaning(schema: map<string, Json>, frames: nat, hops: nat, doc: Json)
    requires InlineDefs(schema, frames).Some? && frames <= hops
    requires SoundSchema(schema)
    ensures StandardFaithful(schema, Obj(schema), hops, doc) <==> InlineDefs(schema, frames) == Some(doc)
  {
    hide RfcRead, ReadThrough, Read, Walk, SoundRefs, Defs, Chosen;
    var defs, node := Defs(schema), Obj(schema);
    forall path ensures RfcRead(schema, node, path, hops) == ReadThrough(defs, node, path, hops) {
      ReadersAgree(schema, node, frames, path, hops);
    }
    OutputIsTheOnlyFaithfulDocument(schema, frames, hops, doc);
  }
}
