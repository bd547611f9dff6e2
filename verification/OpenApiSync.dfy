/** The artifact generator `generate_openapi` and the drift checker `check_openapi_sync`, which must agree. */
module OpenApiSync {
  import opened Basics
  import opened JsonValues
  import opened JsonPointer
  import opened SchemaDiff
  import opened ComponentPruning

  type Schema = map<string, Json>

  const TITLE := "Open Notes Server"

  /** `normalize_openapi_metadata`; `None` when `info` is not a mapping, where the original raises. */
  function NormalizeMetadata(schema: Schema): Option<Schema> {
    var info := Get(schema, "info", Obj(map[]));
    if info.Obj? then Some(schema["info" := Obj(info.fields["title" := Str(TITLE)])]) else None
  }

  predicate IsPublic(path: string, prefix: string) {
    path == prefix || prefix + "/" <= path
  }

  /** `filter_public_paths`; `None` when `paths` is not a mapping, where the original raises. */
  function FilterPublicPaths(schema: Schema, prefix: string): Option<Schema> {
    var paths := Get(schema, "paths", Obj(map[]));
    if paths.Obj?
    then Some(schema["paths" := Obj(map path | path in paths.fields && IsPublic(path, prefix) :: paths.fields[path])])
    else None
  }

  /** `normalize_schema`: drop the volatile `servers`. */
  function DropServers(schema: Schema): Schema {
    schema - {"servers"}
  }

  datatype Artifact = Full | Public

  /** The filter that the artifact applies to the whole schema. */
  ghost function Trim(artifact: Artifact, schema: Schema, prefix: string): Option<Schema> {
    match artifact
    case Full => Some(schema)
    case Public =>
      match FilterPublicPaths(schema, prefix)
      case None => None
      case Some(filtered) => Some(Prune(filtered))
  }

  /** What the generator writes for the schema `app` of the running application. */
  ghost function Generate(artifact: Artifact, app: Schema, prefix: string): Option<Schema> {
    match NormalizeMetadata(app)
    case None => None
    case Some(schema) => Trim(artifact, schema, prefix)
  }

  /** What the checker expects to find. */
  ghost function Expected(artifact: Artifact, app: Schema, prefix: string): Option<Schema> {
    match NormalizeMetadata(app)
    case None => None
    case Some(schema) =>
      match Trim(artifact, DropServers(schema), prefix)
      case None => None
      case Some(trimmed) => Some(DropServers(trimmed))
  }

  // ----- The checker's verdict -----

  /** The checker's exit code for one artifact, or the exception that escapes it. */
  datatype Verdict = InSync | OutOfSync | Raises

  /** The summary of a match reads the paths and the component schemas; it raises on other shapes. */
  predicate Summarizable(expected: Schema) {
    && Get(expected, "paths", Obj(map[])).Obj?
    && var components := Get(expected, "components", Obj(map[]));
       && components.Obj?
       && var schemas := Get(components.fields, "schemas", Obj(map[]));
          schemas.Obj? || schemas.List? || schemas.Str?
  }

  /** `_compare_and_report`; `committed` is the parsed file, or `None` when there is no file. */
  function Compare(committed: Option<Json>, expected: Schema): Verdict {
    match committed
    case None => OutOfSync
    case Some(Obj(fields)) =>
      if Diff("", Obj(expected), Obj(DropServers(fields))) != [] then OutOfSync
      else if Summarizable(expected) then InSync
      else Raises
    case Some(_) => Raises
  }

  // ----- Generator and checker agree -----

  lemma PruneIgnoresServers(schema: Schema)
    ensures DropServers(Prune(schema)) == Prune(DropServers(schema))
  {
    assert HasSchemas(DropServers(schema)) <==> HasSchemas(schema);
    assert Roots(DropServers(schema)) == Roots(schema);
    if HasSchemas(schema) {
      assert Schemas(DropServers(schema)) == Schemas(schema);
    }
  }

  lemma TrimIgnoresServers(artifact: Artifact, schema: Schema, prefix: string)
    ensures Trim(artifact, schema, prefix).Some? <==> Trim(artifact, DropServers(schema), prefix).Some?
    ensures Trim(artifact, schema, prefix).Some? ==>
              DropServers(Trim(artifact, schema, prefix).value)
              == DropServers(Trim(artifact, DropServers(schema), prefix).value)
  {
    match artifact
    case Full =>
      assert DropServers(DropServers(schema)) == DropServers(schema);
    case Public =>
      assert Get(DropServers(schema), "paths", Obj(map[])) == Get(schema, "paths", Obj(map[]));
      if FilterPublicPaths(schema, prefix).Some? {
        var filtered := FilterPublicPaths(schema, prefix).value;
        var filtered' := FilterPublicPaths(DropServers(schema), prefix).value;
        assert DropServers(filtered) == filtered';
        PruneIgnoresServers(filtered);
        assert DropServers(DropServers(Prune(filtered))) == DropServers(Prune(filtered));
      }
  }

  /** For every application schema, what the generator writes shows no drift to the checker, and the checker
    * computes an expectation whenever the generator writes something. */
  lemma GeneratedArtifactHasNoDrift(artifact: Artifact, app: Schema, prefix: string)
    ensures Generate(artifact, app, prefix).Some? <==> Expected(artifact, app, prefix).Some?
    ensures Generate(artifact, app, prefix).Some? ==>
              var written, expected := Generate(artifact, app, prefix).value, Expected(artifact, app, prefix).value;
              && Diff("", Obj(expected), Obj(DropServers(written))) == []
              && Compare(Some(Obj(written)), expected) == (if Summarizable(expected) then InSync else Raises)
              && (forall key :: key in expected <==> key in written && key != "servers")
              && (forall key | key in expected :: expected[key] == written[key])
  {
    if NormalizeMetadata(app).Some? {
      TrimIgnoresServers(artifact, NormalizeMetadata(app).value, prefix);
      if Generate(artifact, app, prefix).Some? {
        var expected := Expected(artifact, app, prefix).value;
        DiffIsExact("", Obj(expected), Obj(expected));
      }
    }
  }

  /** The checker passes a file exactly when, apart from `servers`, it spells the expected document, and that can be
    * summarised; it reports one exactly when the file is missing or is an object that spells another document. */
  lemma CheckPassesIffInSync(committed: Option<Json>, expected: Schema)
    ensures Compare(committed, expected) == InSync <==>
              && Summarizable(expected)
              && committed.Some? && committed.value.Obj?
              && Canonical(Obj(DropServers(committed.value.fields))) == Canonical(Obj(expected))
    ensures Compare(committed, expected) == OutOfSync <==>
              committed.Some? ==>
                && committed.value.Obj?
                && Canonical(Obj(DropServers(committed.value.fields))) != Canonical(Obj(expected))
  {
    if committed.Some? && committed.value.Obj? {
      DiffIsExact("", Obj(expected), Obj(DropServers(committed.value.fields)));
    }
  }

  /** A document cannot be summarised if the paths, the components or the schemas among them are there but are not
    * mappings; for the schemas a list or a string also has a length. */
  lemma SummaryFailsIff(expected: Schema)
    ensures !Summarizable(expected) <==>
              || ("paths" in expected && !expected["paths"].Obj?)
              || ("components" in expected && !expected["components"].Obj?)
              || ("components" in expected && "schemas" in expected["components"].fields
                  && var schemas := expected["components"].fields["schemas"];
                     schemas.Null? || schemas.Bool? || schemas.Int? || schemas.Float?)
  {
  }

  /** What the checker compares, member by member: everything but the committed `servers`. */
  lemma ServersAloneAreIgnored(committed: Schema, expected: Schema)
    ensures Canonical(Obj(DropServers(committed))) == Canonical(Obj(expected)) <==>
              && "servers" !in expected
              && (forall key | key != "servers" :: key in committed <==> key in expected)
              && (forall key | key in expected && key in committed :: PyEqual(expected[key], committed[key]))
  {
    hide Canonical;
    PyEqualIffCanonical(Obj(expected), Obj(DropServers(committed)));
  }

  /** The members of `info` besides the title are kept; the title is fixed. */
  predicate HasInfo(app: Schema, written: Schema) {
    && "info" in written && written["info"].Obj?
    && var before, after := Get(app, "info", Obj(map[])), written["info"].fields;
       && before.Obj?
       && after.Keys == before.fields.Keys + {"title"}
       && after["title"] == Str("Open Notes Server")
       && forall key | key in before.fields && key != "title" :: after[key] == before.fields[key]
  }

  lemma NormalizedHasInfo(app: Schema)
    requires NormalizeMetadata(app).Some?
    ensures HasInfo(app, NormalizeMetadata(app).value)
  {
  }

  lemma SameInfo(app: Schema, schema: Schema, written: Schema)
    requires HasInfo(app, schema) && "info" in written && written["info"] == schema["info"]
    ensures HasInfo(app, written)
  {
  }

  /** The full artifact is the application's schema with the fixed title. */
  lemma FullArtifactContents(app: Schema, prefix: string, written: Schema)
    requires Generate(Full, app, prefix) == Some(written)
    ensures written.Keys == app.Keys + {"info"} && HasInfo(app, written)
    ensures forall key | key in app && key != "info" :: written[key] == app[key]
  {
  }

  /** The generator raises exactly when `info` is no object or, for the public artifact, `paths` is none. */
  lemma GeneratorRaisesIff(artifact: Artifact, app: Schema, prefix: string)
    ensures Generate(artifact, app, prefix) == None <==>
              || ("info" in app && !app["info"].Obj?)
              || (artifact == Public && "paths" in app && !app["paths"].Obj?)
  {
  }

  /** Filtering and pruning an artifact again changes nothing. */
  lemma TrimIsIdempotent(artifact: Artifact, schema: Schema, prefix: string)
    requires Trim(artifact, schema, prefix).Some?
    ensures Trim(artifact, Trim(artifact, schema, prefix).value, prefix) == Trim(artifact, schema, prefix)
  {
    if artifact == Public {
      var filtered := FilterPublicPaths(schema, prefix).value;
      var trimmed := Prune(filtered);
      assert trimmed["paths"] == filtered["paths"];
      var again := FilterPublicPaths(trimmed, prefix).value;
      assert again["paths"].fields == trimmed["paths"].fields;
      assert again == trimmed;
      PruningIsIdempotent(filtered);
    }
  }

  // ----- The public prefix -----

  /** The segments of a path, split at slashes. */
  function PathSegments(path: string): (segments: seq<string>)
    ensures segments != []
  {
    var k := FirstIndex(path, '/');
    if k == |path| then [path] else [path[..k]] + PathSegments(path[k + 1..])
  }

  function JoinSegments(segments: seq<string>): string
    requires segments != []
  {
    if |segments| == 1 then segments[0] else segments[0] + "/" + JoinSegments(segments[1..])
  }

  /** The segments hold no slash, and joined with slashes they are the path. */
  lemma {:induction false} SegmentsAre(path: string)
    ensures JoinSegments(PathSegments(path)) == path
    ensures forall segment | segment in PathSegments(path) :: '/' !in segment
    decreases |path|
  {
    var k := FirstIndex(path, '/');
    if k < |path| {
      SegmentsAre(path[k + 1..]);
      var rest := PathSegments(path[k + 1..]);
      assert ([path[..k]] + rest)[1..] == rest;
      SplitSegment(path, k);
    } else {
      assert path[..k] == path;
    }
  }

  /** `s` starts with the slash-free `name` and a slash exactly when `name` is its first, closed segment. */
  lemma StartsWithSegment(s: string, name: string)
    requires '/' !in name
    ensures name + "/" <= s <==> FirstIndex(s, '/') < |s| && s[..FirstIndex(s, '/')] == name
  {
    hide FirstIndex;
    if name + "/" <= s {
      assert s[..|name| + 1] == name + "/";
      assert s[..|name|] == name && s[|name|] == '/';
      FirstIndexIs(s, '/', |name|);
    }
    if FirstIndex(s, '/') < |s| && s[..FirstIndex(s, '/')] == name {
      assert s[..|name| + 1] == name + "/";
    }
  }

  lemma PrefixCancels(head: string, a: string, b: string)
    ensures head + a <= head + b <==> a <= b
  {
    if head + a <= head + b {
      assert (head + b)[|head|..][..|a|] == (head + b)[..|head| + |a|][|head|..];
      assert (head + b)[|head|..] == b && (head + a)[|head|..] == a;
    }
  }

  lemma SegmentPrefixCancels(head: string, a: seq<string>, b: seq<string>)
    ensures [head] + a <= [head] + b <==> a <= b
  {
    if [head] + a <= [head] + b {
      assert ([head] + b)[1..][..|a|] == ([head] + b)[..1 + |a|][1..];
      assert ([head] + b)[1..] == b && ([head] + a)[1..] == a;
    }
  }

  lemma PublicBelow(head: string, path: string, prefix: string)
    ensures IsPublic(head + path, head + prefix) <==> IsPublic(path, prefix)
  {
    PrefixCancels(head, prefix + "/", path);
    assert head + prefix + "/" == head + (prefix + "/");
    if head + path == head + prefix {
      assert (head + path)[|head|..] == path && (head + prefix)[|head|..] == prefix;
    }
  }

  lemma SplitSegment(s: string, k: nat)
    requires k < |s| && s[k] == '/'
    ensures s == s[..k] + "/" + s[k + 1..]
  {
    assert forall i | 0 <= i < |s| :: s[i] == (s[..k] + "/" + s[k + 1..])[i];
  }

  /** A path is public exactly when its segments begin with the segments of the prefix, so `/api/public/v10`
    * is not under `/api/public/v1`. */
  lemma {:induction false} PublicMeansSegmentPrefix(path: string, prefix: string)
    ensures IsPublic(path, prefix) <==> PathSegments(prefix) <= PathSegments(path)
    decreases |prefix|
  {
    hide FirstIndex;
    var j, k := FirstIndex(prefix, '/'), FirstIndex(path, '/');
    if j == |prefix| {
      StartsWithSegment(path, prefix);
      assert prefix[..j] == prefix && path[..|path|] == path;
      assert PathSegments(path)[0] == path[..k];
    } else {
      var head, rest := prefix[..j], prefix[j + 1..];
      SplitSegment(prefix, j);
      StartsWithSegment(path, head);
      if k < |path| && path[..k] == head {
        var below := path[k + 1..];
        SplitSegment(path, k);
        PublicMeansSegmentPrefix(below, rest);
        PublicBelow(head + "/", below, rest);
        SegmentPrefixCancels(head, PathSegments(rest), PathSegments(below));
      } else {
        NotPublicElsewhere(path, prefix);
      }
    }
  }

  lemma NotPublicElsewhere(path: string, prefix: string)
    requires FirstIndex(prefix, '/') < |prefix|
    requires !(prefix[..FirstIndex(prefix, '/')] + "/" <= path)
    ensures !IsPublic(path, prefix) && !(PathSegments(prefix) <= PathSegments(path))
  {
    var j, k := FirstIndex(prefix, '/'), FirstIndex(path, '/');
    SplitSegment(prefix, j);
    StartsWithSegment(path, prefix[..j]);
    StartsWithSegment(prefix, prefix[..j]);
    assert |PathSegments(prefix)| > 1 && PathSegments(prefix)[0] == prefix[..j];
    assert k < |path| ==> PathSegments(path)[0] == path[..k];
  }

  /** The public artifact: exactly the operations whose path begins with the segments of the prefix, exactly the
    * component schemas of the application that they reach, the fixed title, and every other member as it was. */
  lemma PublicArtifactContents(app: Schema, prefix: string, written: Schema)
    requires Generate(Public, app, prefix) == Some(written)
    ensures written.Keys == app.Keys + {"info", "paths"}
    ensures forall key | key in app && key !in {"info", "paths"} && (key == "components" ==> !HasSchemas(app)) ::
              written[key] == app[key]
    ensures HasInfo(app, written)
    ensures written["paths"].Obj?
    ensures var before, after := Get(app, "paths", Obj(map[])), written["paths"];
            && before.Obj?
            && (forall path :: path in after.fields <==>
                  path in before.fields && PathSegments(prefix) <= PathSegments(path))
            && (forall path | path in after.fields :: after.fields[path] == before.fields[path])
    ensures HasSchemas(written) <==> HasSchemas(app)
    ensures HasSchemas(app) ==>
              forall name :: name in Schemas(written) <==>
                name in Schemas(app) && Reachable(Schemas(app), Refs(written["paths"]), name)
    ensures HasSchemas(app) ==> forall name | name in Schemas(written) :: Schemas(written)[name] == Schemas(app)[name]
  {
    hide PathSegments, IsPublic, Refs, Reachable, HasInfo;
    var schema := NormalizeMetadata(app).value;
    var filtered := FilterPublicPaths(schema, prefix).value;
    PruningTouchesOnlySchemas(filtered);
    NormalizedHasInfo(app);
    SameInfo(app, schema, written);
    assert HasSchemas(filtered) <==> HasSchemas(app);
    assert HasSchemas(app) ==> Schemas(filtered) == Schemas(app);
    assert Roots(filtered) == Refs(written["paths"]);
    forall path ensures IsPublic(path, prefix) <==> PathSegments(prefix) <= PathSegments(path) {
      PublicMeansSegmentPrefix(path, prefix);
    }
  }

  // ----- The report -----

  predicate IsPathIssue(issue: Issue) { "/paths/" <= issue.pointer }

  predicate IsComponentIssue(issue: Issue) { "/components/" <= issue.pointer }

  lemma PointerInside(token: string, rest: string, name: string)
    requires '/' !in token && '/' !in name
    requires rest == "" || rest[0] == '/'
    ensures "/" + name + "/" <= "/" + token + rest <==> token == name && rest != ""
  {
    FirstSlashAfter(token, rest);
    StartsWithSegment(token + rest, name);
    assert (token + rest)[..|token|] == token;
    PrefixCancels("/", name + "/", token + rest);
    assert "/" + token + rest == "/" + (token + rest) && "/" + name + "/" == "/" + (name + "/");
  }

  lemma InsideMember(at: seq<string>, name: string)
    requires '~' !in name && '/' !in name
    ensures "/" + name + "/" <= Encode(at) <==> |at| >= 2 && at[0] == name
  {
    EscapePlain(name);
    if at != [] {
      EncodeFront(at);
      if |at| >= 2 { EncodeFront(at[1..]); }
      EscapeFacts(at[0]);
      EscapeFacts(name);
      PointerInside(Escape(at[0]), Encode(at[1..]), name);
    }
  }

  /** The report files an issue under paths or components exactly when its location lies strictly inside that
    * top-level member, so no issue is printed twice. */
  lemma BucketsFollowLocations(expected: Json, actual: Json, issue: Issue)
    requires issue in Diff("", expected, actual)
    ensures var at := Decode(issue.pointer);
            && (IsPathIssue(issue) <==> |at| >= 2 && at[0] == "paths")
            && (IsComponentIssue(issue) <==> |at| >= 2 && at[0] == "components")
    ensures !(IsPathIssue(issue) && IsComponentIssue(issue))
  {
    hide Diff, Decode, Encode;
    ReportedPointersResolve(expected, actual, issue);
    var at := Decode(issue.pointer);
    InsideMember(at, "paths");
    InsideMember(at, "components");
    assert "/" + "paths" + "/" == "/paths/" && "/" + "components" + "/" == "/components/";
  }
}
