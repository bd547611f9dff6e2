# Open Notes: models and proofs

This project models the code of Open Notes whose correctness spans many inputs, runs or threads, and proves what that
code is for. Each module stands for one piece of the program:

- `SchemaInlining` expands the local references of a JSON schema for Firecrawl. The walk runs on a bounded stack, as
  Python's does; the proofs say what the output means, that it is clean and stable, and exactly when the expansion ends.
  `ReferenceResolution` compares its lookup with what a reference means by RFC 6901.
- `JsonPointer`, `SchemaDiff`, `ComponentPruning` and `OpenApiSync` are the OpenAPI artifact generator and the drift
  checker. RFC 6901 pointers are decoded and evaluated by an independent reference, reachability is defined by chains of
  references, and the two programs are proved to agree.
- `SqlScanner`, `SqlSplitting` and `SqlParens` are the hand-written SQL scanners of the schema audit: the comma splitter,
  the parenthesis matcher, the balance test and the peel loop, each a loop proved against a recursive specification.
  `SqlLexicon` pins what they compute on literals, dollar quotes and tokens. The splitter inverts joining;
  `SqlDollarQuotes` says exactly when the test agrees with the matcher. `PyStrings` is `str.strip`.
- `CircuitBreaker` is the breaker as a class, and every interleaving of the atomic steps of the calls in flight.
- `KeySeeding` is production key seeding: the script's own steps on a session, a committed table and a secret store, and
  histories of runs that may fail at every step.
- `StartupMigrations` and `AlembicOutput` are the migrations at startup: any number of instances as program-counter
  steps over one PostgreSQL advisory lock, sessions that may be lost, and the parsing of what alembic prints.
- `ScoringPatch` is the double-checked patching before scoring: any number of threads, two flags, two locks.
- `EngineRegistry` is the table of engines per event loop, keyed by object identities that are used again.
- `NoteScoring` and `Percentile` are the arithmetic of the scoring demo and of the latency benchmark, over real numbers.

`JsonValues` is the JSON datatype shared by the document modules, `StringSorting` is Python's `sorted` on strings,
`Basics` holds what several modules use.

## Where the code differs from its documentation, or from what a reader may expect

- The drift checker compares with Python's `==`, under which `True`, `1` and `1.0` are equal, so a change among them is
  drift in the JSON document that it passes (`SchemaDiff.DiffIsExact` gives the exact condition,
  `SchemaDiff.BooleanDriftIsInvisible` an instance).
- A push that failed after the commit is recoverable through an override, as the module docstring of key seeding says
  (`KeySeeding.OverrideRepairs`); running again without one repairs nothing
  (`KeySeeding.RerunWithoutOverrideRepairsNothing`).
- A minted key whose commit took effect but was not acknowledged is never pushed, so row and newest version differ
  afterwards (`KeySeeding.SyncAfterSeedKeyIff`).
- `get_engine` is documented to prune closed loops on every access; it does so on a miss only
  (`EngineRegistry.MissPrunesClosedLoops`, `EngineRegistry.HitKeepsClosedLoop`).
- A disposal of background engines can evict an engine that its loop got meanwhile, without disposing it
  (`EngineRegistry.EvictionCanDropANewerEngine`; `EngineRegistry.EvictsNotedEngineIff` gives the exact condition).
- Local references are looked up by their last segment, undecoded, in `$defs` if that is not empty and else in
  `definitions`. Section 8.2.3.1 of JSON Schema Core and RFC 6901 evaluate the whole decoded fragment
  (`ReferenceResolution.LookupFollowsRfcIff`, `ReferenceResolution.PathReferenceIsMisread`), and draft 2020-12 also
  applies the siblings of `$ref`, which the walk drops.
- Exclusion of migrations, and with it the rollback, holds only while sessions outlive their subprocesses
  (`StartupMigrations.LostSessionBreaksExclusion`).
- A thread that raises in the middle of the pandas patch makes a later one replace some functions again
  (`ScoringPatch.ReplacedOnceIff`).
- The balance test does not know dollar quotes and the matcher does, so the peel can remove a pair that does not match
  and keep one that does (`SqlDollarQuotes.DollarTagMisleadsThePeel`; `SqlDollarQuotes.PeelIsSoundIff` gives the exact
  condition).
- The rule that a helpful note needs five ratings never decides (`NoteScoring.HelpfulIff`).
- The backoff shrinks when the cap is configured below the base timeout (`CircuitBreaker.BackoffMonotoneIffSane`).
- `percentile` is documented for sorted lists; it sorts its input itself, and the model follows it.
- A recursive model makes `_inline_defs` exhaust the stack (`SchemaInlining.RecursiveModelNeverReturns`).

## Assumptions

The clock of the breaker never goes back in the two lemmas about runs in time, and `failure_threshold` is at least 1.
The key prefix drawn at generation is hexadecimal. A key hash is an injective function of the key. A running event loop
is open, and objects that exist at the same time have different identities, none of them 0. An object exists as long as
the table or a running disposal refers to it. Writing an artifact and parsing it back gives the same JSON value. Between
two polls of the lock at least the retry interval passes. The rollback theorem assumes that no session is lost while
its subprocess runs.

## Model

| member | source | states |
|---|---|---|
| `SchemaInlining.InliningPreservesMeaning` | opennotes-vibecheck-server/src/firecrawl_client.py:100-122 | Whenever the walk returns, reading the original at any path while following local references on demand, as the code looks them up (missing target reads as `{}`, siblings of `$ref` ignored, stripped keys absent), shows exactly what the output shows at that path |
| `ReferenceResolution.InliningPreservesStandardMeaning` | opennotes-vibecheck-server/src/firecrawl_client.py:100-122 | If every reference passes the check of the next row, a document shows at every path what resolving references by RFC 6901 (sections 4 and 6, on the whole schema) shows in the original, if and only if it is the output |
| `ReferenceResolution.LookupFollowsRfcIff` | opennotes-vibecheck-server/src/firecrawl_client.py:106-116 | For every local reference and every choice of container: the lookup gives what the fragment means by RFC 6901 on all schemas with that choice, if and only if the decoded tokens of the reference are the chosen container and the key the code reads off, or there are no definitions |
| `ReferenceResolution.SoundIffPlain` | opennotes-vibecheck-server/src/firecrawl_client.py:111-113 | The references that pass are `#/`, the chosen container and one name without slash, percent-encoded octet, `~0` or `~1` |
| `ReferenceResolution.PathReferenceIsMisread` | opennotes-vibecheck-server/src/firecrawl_client.py:112-116 | On any schema, a reference to a place at any depth, spelled without percent signs, means the object there; the code takes the definition named like the escaped last step instead, or `{}` if there is none |
| `SchemaInlining.OutputIsTheOnlyFaithfulDocument` | opennotes-vibecheck-server/src/firecrawl_client.py:100-122 | A document shows at every path what that reader shows of the original if and only if it is the output |
| `SchemaInlining.ViewsDetermineDocument` | opennotes-vibecheck-server/src/firecrawl_client.py:108-120 | Two documents that show the same at every path are equal |
| `SchemaInlining.FollowReachesWalked` | opennotes-vibecheck-server/src/firecrawl_client.py:110-116 | If the walk of a node returns, its chain of references ends, at a node that is no local reference and has the same output |
| `SchemaInlining.InliningReturnsIffAcyclic` | opennotes-vibecheck-server/src/firecrawl_client.py:106-122 | Some recursion depth suffices if and only if a check beforehand succeeds: no definition is met again inside its own expansion, and no reference is met while the definitions are not a dictionary |
| `SchemaInlining.RecursiveModelNeverReturns` | opennotes-vibecheck-server/src/firecrawl_client.py:110-117 | A definition with a kept field that refers back to it makes the walk fail at every recursion depth |
| `SchemaInlining.WalkMonotone` | opennotes-vibecheck-server/src/firecrawl_client.py:108-120 | More stack never changes an answer |
| `SchemaInlining.OutputIsClean` | opennotes-vibecheck-server/src/firecrawl_client.py:87-97 | At no depth of the output is there a local-reference string `$ref` or a key `$defs`, `definitions` or `format` |
| `SchemaInlining.OutputHoldsNothingRejected` | opennotes-vibecheck-server/src/firecrawl_client.py:87-120 | Whatever pointer path leads to an object in the output, that object holds no `$defs`, no `definitions`, no `format` and no `$ref` that spells a local reference |
| `SchemaInlining.WalkedObjectKeys` | opennotes-vibecheck-server/src/firecrawl_client.py:117 | Walking an object that is no local reference: a key is in the output if and only if it is a key of the object and none of the three, and its value is the walk of the value |
| `ReferenceResolution.WalkedReference` | opennotes-vibecheck-server/src/firecrawl_client.py:110-116 | Walking a reference to a plain name gives the walk of the definition of that name if there is an object there and `{}` otherwise, whatever else the referring object holds |
| `SchemaInlining.InliningIsIdempotent` | opennotes-vibecheck-server/src/firecrawl_client.py:100-122 | Inlining an output returns it unchanged, on the stack that produced it |
| `ReferenceResolution.FieldReferenceIsMisread` | opennotes-vibecheck-server/src/firecrawl_client.py:112-116 | Instance: a reference to a field inside a definition means that field and becomes `{}` |
| `JsonPointer.DecodeEncode` | opennotes-server/scripts/check_openapi_sync.py:44-46 | Decoding a joined pointer by sections 3 and 4 of RFC 6901 gives back every segment, so joining is injective in the whole list of segments |
| `JsonPointer.EscapeFacts` | opennotes-server/scripts/check_openapi_sync.py:45 | An escaped segment holds no slash and un-escapes to the segment |
| `JsonPointer.EscapeIs` | opennotes-server/scripts/check_openapi_sync.py:45 | Escaping works character by character: `~` becomes `~0`, `/` becomes `~1`, every other character stays |
| `JsonPointer.PercentRoundTrip` | opennotes-vibecheck-server/src/firecrawl_client.py:111-113 | The percent decoding used for references as the standard reads them inverts percent encoding over UTF-8, for every string |
| `JsonPointer.ArrayIndexDecimal` | opennotes-server/scripts/check_openapi_sync.py:69 | The decimal spelling of an index is an RFC 6901 array index for that index |
| `JsonPointer.DecimalArrayIndex` | opennotes-server/scripts/check_openapi_sync.py:69 | Every RFC 6901 array index token is the decimal spelling of its value |
| `SchemaDiff.DiffValues` | opennotes-server/scripts/check_openapi_sync.py:49-78 | The recursive method appends to the shared list exactly the issues of `Diff`, after those already there |
| `SchemaDiff.DiffIsExact` | opennotes-server/scripts/check_openapi_sync.py:49-78 | Nothing is reported if and only if the documents are equal up to the spelling of equal numbers (`True`, `1`, `1.0`) |
| `SchemaDiff.DiffIsExactOnSameKinds` | opennotes-server/scripts/check_openapi_sync.py:49-78 | Between documents of the same kinds at the same places nothing is reported if and only if they are identical |
| `SchemaDiff.NumbersEqualIff` | opennotes-server/scripts/check_openapi_sync.py:50 | Two booleans, two integers or two floats are equal if and only if the same; a boolean equals a number if and only if that is 1 for true and 0 for false; an integer equals a float of its value |
| `SchemaDiff.OtherKindsEqualIff` | opennotes-server/scripts/check_openapi_sync.py:50 | Null, strings, lists and mappings equal only their own kind; two nulls are equal, and two strings if the same |
| `SchemaDiff.KindsAreDistinct` | opennotes-server/scripts/check_openapi_sync.py:72-75 | The seven kinds named in a type change are those of the seven JSON constructors |
| `SchemaDiff.PyEqualIffCanonical` | opennotes-server/scripts/check_openapi_sync.py:50 | Python equality of JSON values is equality of the documents with every boolean and integer replaced by its float |
| `SchemaDiff.BooleanDriftIsInvisible` | opennotes-server/scripts/check_openapi_sync.py:50-51 | A change from `true` to `1` is not reported although the JSON documents differ |
| `SchemaDiff.ReportedPointersResolve` | opennotes-server/scripts/check_openapi_sync.py:53-78 | Each reported pointer, decoded and evaluated by RFC 6901, leads to a place where the two documents differ as the issue claims |
| `SchemaDiff.PointersAreDistinct` | opennotes-server/scripts/check_openapi_sync.py:49-78 | No two issues have the same pointer |
| `SchemaDiff.NoDifferenceIsMissed` | opennotes-server/scripts/check_openapi_sync.py:49-78 | Every place where the documents differ in a leaf, in presence, in kind or in list length is covered by an issue at that place or above it |
| `StringSorting.Sorted` | opennotes-server/scripts/check_openapi_sync.py:54 | The sorted key set: exactly the keys, each once, in code-point order |
| `StringSorting.BelowIsLexicographic` | opennotes-server/scripts/check_openapi_sync.py:54 | The order is lexicographic: a prefix comes first, otherwise the first differing character decides |
| `JsonValues.FalsyValues` | opennotes-vibecheck-server/src/firecrawl_client.py:106 | Exactly `None`, `False`, `0`, `0.0` and the empty string, list and mapping are false |
| `ComponentPruning.CollectComponentSchemaRefs` | opennotes-server/scripts/generate_openapi.py:62-75 | The accumulating traversal returns exactly the names without slash to which some object, at any RFC 6901 place of the document, refers as `#/components/schemas/name` |
| `ComponentPruning.CollectedIffMentioned` | opennotes-server/scripts/generate_openapi.py:62-75 | The same of the recursive specification: a name is collected if and only if such an object exists at some place |
| `ComponentPruning.FindReachable` | opennotes-server/scripts/generate_openapi.py:92-103 | On any reference graph, cyclic or with dangling names, the worklist ends and finds exactly the names that some chain of references reaches from the roots |
| `ComponentPruning.PruneUnreferencedComponents` | opennotes-server/scripts/generate_openapi.py:78-112 | The method returns the schema with the component schemas cut down to the reachable ones, or unchanged where there are none |
| `ComponentPruning.PruningKeepsLeastResolvingPart` | opennotes-server/scripts/generate_openapi.py:78-112 | The kept schemas are the least part of the original in which every reference, at any place under the paths or of a kept schema, that resolved before still resolves |
| `ComponentPruning.PrunedIffMentioned` | opennotes-server/scripts/generate_openapi.py:92-112 | A schema is kept if and only if a chain of such references, each standing in the schema named before, leads to it from the paths |
| `ComponentPruning.PruningTouchesOnlySchemas` | opennotes-server/scripts/generate_openapi.py:81-83 | Every other member and every other component group is as before |
| `ComponentPruning.PruningIsIdempotent` | opennotes-server/scripts/generate_openapi.py:78-112 | Pruning a pruned schema changes nothing |
| `ComponentPruning.ClosedReachableIsAll` | opennotes-server/scripts/generate_openapi.py:95-103 | A set that holds the roots, is closed under references and holds only reachable names is the set of all reachable names |
| `OpenApiSync.GeneratedArtifactHasNoDrift` | opennotes-server/scripts/check_openapi_sync.py:96-101 | For every application schema and both artifacts, what the generator writes yields no issue in the checker, which computes an expectation exactly when the generator writes something |
| `OpenApiSync.CheckPassesIffInSync` | opennotes-server/scripts/check_openapi_sync.py:89-126 | The checker passes a file if and only if it is an object that, without `servers`, spells the expected document (and that can be summarised), and reports drift if and only if it is missing or such an object spells another |
| `OpenApiSync.ServersAloneAreIgnored` | opennotes-server/scripts/check_openapi_sync.py:38-41 | A committed file spells the expectation if and only if every member except `servers` is in both or in neither and is equal |
| `OpenApiSync.SummaryFailsIff` | opennotes-server/scripts/check_openapi_sync.py:122-125 | The summary of a match raises if and only if the paths, the components or the schemas in them are there with a kind that has no keys or length |
| `OpenApiSync.PublicArtifactContents` | opennotes-server/scripts/generate_openapi.py:139-143 | The public artifact holds exactly the public operations, exactly the schemas they reach, the fixed title beside the rest of `info`, and every other member unchanged |
| `OpenApiSync.FullArtifactContents` | opennotes-server/scripts/generate_openapi.py:139-146 | The full artifact holds the members of the application schema unchanged but for the fixed title beside the rest of `info` |
| `OpenApiSync.GeneratorRaisesIff` | opennotes-server/scripts/generate_openapi.py:31-59 | Generating an artifact raises if and only if `info` is there and no mapping, or, for the public one, `paths` is |
| `OpenApiSync.PublicMeansSegmentPrefix` | opennotes-server/scripts/generate_openapi.py:42-59 | A path passes the filter if and only if its slash-separated segments begin with those of the prefix |
| `OpenApiSync.SegmentsAre` | opennotes-server/scripts/generate_openapi.py:52-57 | The segments of a path hold no slash and rejoin to the path |
| `OpenApiSync.TrimIsIdempotent` | opennotes-server/scripts/generate_openapi.py:42-112 | Filtering and pruning an artifact again changes nothing |
| `OpenApiSync.TrimIgnoresServers` | opennotes-server/scripts/check_openapi_sync.py:38-41 | Dropping `servers` before or after filtering and pruning gives the same document |
| `OpenApiSync.BucketsFollowLocations` | opennotes-server/scripts/check_openapi_sync.py:106-112 | An issue is printed under paths or components if and only if its location lies strictly inside that member, and never under both |
| `SqlScanner.SplitCsv` | opennotes-vibecheck-server/scripts/audit_vibecheck_schema.py:195-245 | The scanner loop returns the list `Split`, whose properties the next rows state |
| `SqlSplitting.SplitInvertsJoinIff` | opennotes-vibecheck-server/scripts/audit_vibecheck_schema.py:195-245 | Splitting the comma-joined pieces gives the pieces back if and only if all are trimmed, the last is not empty, all but the last are self-contained and the last has no top-level comma |
| `SqlSplitting.JoinRawSplit` | opennotes-vibecheck-server/scripts/audit_vibecheck_schema.py:236-245 | The untrimmed pieces joined with commas are the input |
| `SqlSplitting.RawSplitJoin` | opennotes-vibecheck-server/scripts/audit_vibecheck_schema.py:236-245 | A separable list of untrimmed pieces is recovered from its join |
| `SqlSplitting.RawSplitSeparable` | opennotes-vibecheck-server/scripts/audit_vibecheck_schema.py:202-241 | Every untrimmed piece but the last ends with depth 0 and no open quote, and none holds a top-level comma |
| `SqlSplitting.SplitTrimsRaw` | opennotes-vibecheck-server/scripts/audit_vibecheck_schema.py:237-245 | The values are the untrimmed pieces trimmed, in order, and only an empty tail is dropped |
| `SqlSplitting.ValuesAreSeparated` | opennotes-vibecheck-server/scripts/audit_vibecheck_schema.py:195-245 | Every value is trimmed, has no top-level comma and, if not empty, splits to itself |
| `PyStrings.StripSplits` | opennotes-vibecheck-server/scripts/audit_vibecheck_schema.py:237 | A string is its stripped part between two pads of white space, and the stripped part neither begins nor ends with white space |
| `SqlParens.FindMatchingParen` | opennotes-vibecheck-server/scripts/audit_vibecheck_schema.py:248-283 | The loop returns what `Match` finds from the opening index on, or fails where the original raises |
| `SqlParens.MatchIsClose` | opennotes-vibecheck-server/scripts/audit_vibecheck_schema.py:278-281 | The index found holds a closing parenthesis |
| `SqlParens.MatchedInsideCloses` | opennotes-vibecheck-server/scripts/audit_vibecheck_schema.py:248-283 | Up to the matching parenthesis the comma scanner comes back to depth 0 with no quote open |
| `SqlParens.MatchedListSplitsCleanly` | opennotes-vibecheck-server/scripts/audit_vibecheck_schema.py:195-283 | The list between a parenthesis and its match splits into self-contained values only, the last included |
| `SqlParens.Balanced` | opennotes-vibecheck-server/scripts/audit_vibecheck_schema.py:175-192 | The loop decides `Balance` |
| `SqlParens.PeelParens` | opennotes-vibecheck-server/scripts/audit_vibecheck_schema.py:163-165 | The loop ends and returns `Peel`, characterised by the next rows |
| `SqlParens.PeelIgnoresRedundantPair` | opennotes-vibecheck-server/scripts/audit_vibecheck_schema.py:160-165 | A redundant outer pair of parentheses, with any white space, around a balanced trimmed expression does not change the result |
| `SqlDollarQuotes.MatcherFindsPartner` | opennotes-vibecheck-server/scripts/audit_vibecheck_schema.py:248-283 | The matcher finds an index for an opening parenthesis if and only if a closing one stands there and the text between is balanced, dollar quotes and quotes skipped |
| `SqlDollarQuotes.WrappedIffAware` | opennotes-vibecheck-server/scripts/audit_vibecheck_schema.py:248-283 | The last character closes the first if and only if the inside is balanced with dollar quotes skipped |
| `SqlDollarQuotes.AwareIsErased` | opennotes-vibecheck-server/scripts/audit_vibecheck_schema.py:175-283 | Balance with dollar quotes skipped is closed dollar quotes and plain balance of the text with them erased |
| `SqlDollarQuotes.TestAgreesIff` | opennotes-vibecheck-server/scripts/audit_vibecheck_schema.py:160-192 | For every expression in parentheses: the test of the loop agrees with the matcher if and only if erasing the dollar quotes of the inside does not change its balance |
| `SqlDollarQuotes.PeelIsSoundIff` | opennotes-vibecheck-server/scripts/audit_vibecheck_schema.py:160-165 | For every expression: only matching pairs are removed, and all of them, if and only if that check succeeds at every round |
| `SqlDollarQuotes.ScannersAgree` | opennotes-vibecheck-server/scripts/audit_vibecheck_schema.py:175-283 | With no dollar tag outside quotes, the inside is balanced if and only if the last character closes the first |
| `SqlDollarQuotes.PeelRemovesMatchingPairs` | opennotes-vibecheck-server/scripts/audit_vibecheck_schema.py:160-165 | With no dollar tag outside quotes, only pairs that match each other are removed, and no such outer pair remains |
| `SqlDollarQuotes.DollarBodyPeelsIffBalanced` | opennotes-vibecheck-server/scripts/audit_vibecheck_schema.py:163-192 | For a dollar quote with any tag and body, between texts without live tags: the pair around it all matches if and only if the surrounding texts are balanced together, and is peeled if and only if they are so with the body |
| `SqlDollarQuotes.DollarTagMisleadsThePeel` | opennotes-vibecheck-server/scripts/audit_vibecheck_schema.py:163-164 | Instances: a pair that does not match is peeled, one that matches is kept |
| `SqlLexicon.LiteralIsSkipped` | opennotes-vibecheck-server/scripts/audit_vibecheck_schema.py:175-283 | A literal, between either of the two quote characters and without it inside, is passed over by all three scanners, whatever it holds |
| `SqlLexicon.OpenLiteralSwallows` | opennotes-vibecheck-server/scripts/audit_vibecheck_schema.py:175-283 | A quote that is never closed hides the rest: no comma, no match, no balance |
| `SqlLexicon.DollarQuoteIsSkipped` | opennotes-vibecheck-server/scripts/audit_vibecheck_schema.py:195-283 | A dollar quote, plain or with a name and closed by the same tag, is passed over by splitter and matcher whatever it holds |
| `SqlLexicon.TagStartsIff` | opennotes-vibecheck-server/scripts/audit_vibecheck_schema.py:213 | A dollar tag starts a text if and only if two dollar signs do, with nothing or with letters, digits and underscores, no digit first, between them |
| `SqlLexicon.OtherTokensStep` | opennotes-vibecheck-server/scripts/audit_vibecheck_schema.py:229-283 | Any other character counts for one: only parentheses change the depth, which in the splitter stays at 0 or above, and only a comma at depth 0 cuts |
| `SqlLexicon.SplitsAtTopCommas` | opennotes-vibecheck-server/scripts/audit_vibecheck_schema.py:195-245 | On any list of literals, dollar quotes, parentheses, commas and other characters, the cuts are exactly the comma tokens at depth 0 |
| `SqlLexicon.MatchesPartner` | opennotes-vibecheck-server/scripts/audit_vibecheck_schema.py:248-283 | On such a list the matcher returns the position of the parenthesis token that brings the nesting to 0, and fails if there is none |
| `SqlLexicon.BalancedIffNested` | opennotes-vibecheck-server/scripts/audit_vibecheck_schema.py:175-192 | On such a list without dollar quotes, balance means that the parenthesis tokens nest |
| `PyStrings.SpacesAre` | opennotes-vibecheck-server/scripts/audit_vibecheck_schema.py:237 | The characters that `str.strip` removes, listed |
| `CircuitBreaker.CircuitBreakerCore.constructor` | opennotes-server/src/circuit_breaker_core.py:37-48 | A new breaker is closed with all counters at zero |
| `CircuitBreaker.CircuitBreakerCore.Check` | opennotes-server/src/circuit_breaker_core.py:69-84 | Admits exactly as `Admits` says; an admitted call on an open breaker makes it half-open, nothing else changes |
| `CircuitBreaker.CircuitBreakerCore.RecordSuccess` | opennotes-server/src/circuit_breaker_core.py:86-95 | Resets the whole state |
| `CircuitBreaker.CircuitBreakerCore.RecordFailure` | opennotes-server/src/circuit_breaker_core.py:97-123 | The new state after a counted failure, in each of the three phases |
| `CircuitBreaker.CircuitBreakerCore.Reset` | opennotes-server/src/circuit_breaker_core.py:138-142 | Resets the whole state |
| `CircuitBreaker.CircuitBreakerCore.ShouldAttemptReset` | opennotes-server/src/circuit_breaker_core.py:144-148 | Whether the effective timeout has passed since the last failure |
| `CircuitBreaker.CallReturned` | opennotes-server/src/circuit_breaker_core.py:212-216 | A call that returned resets a half-open breaker or a closed one with failures, and nothing else |
| `CircuitBreaker.CallRaised` | opennotes-server/src/circuit_breaker_core.py:218-221 | Only a failure that the predicate counts is recorded |
| `CircuitBreaker.CountingInvariant` | opennotes-server/src/circuit_breaker_core.py:69-142 | Over any interleaving of calls in flight: closed means no openings, fewer failures than the threshold, and as many as the current streak; otherwise failures are threshold - 1 + openings, and the last failure time is that of the latest counted failure |
| `CircuitBreaker.StepsOfRun` | opennotes-server/src/circuit_breaker_core.py:69-142 | After any history: what an admission, a return, a raise and a reset do next; a return closes a half-open breaker, a counted failure opens it again, and the wait runs from the latest counted failure |
| `CircuitBreaker.LeavesClosedIffStreak` | opennotes-server/src/circuit_breaker_core.py:113-115 | A step leaves CLOSED if and only if it completes a streak of `failure_threshold` counted failures with no return or reset in between |
| `CircuitBreaker.QuietStaysOpen` | opennotes-server/src/circuit_breaker_core.py:206-222 | While nothing is admitted or reset, an open breaker stays open, whatever earlier calls return or raise |
| `CircuitBreaker.NoEarlyAdmission` | opennotes-server/src/circuit_breaker_core.py:69-84 | While open, no call is admitted earlier than the latest counted failure plus the effective timeout, nor, if the backoff is sane, earlier than any moment since it opened promised |
| `CircuitBreaker.BackoffMonotoneIffSane` | opennotes-server/src/circuit_breaker_core.py:51-55 | The effective timeout never decreases with the openings if and only if there is no growth or the cap is at least the base timeout |
| `CircuitBreaker.BackoffMultiplies` | opennotes-server/src/circuit_breaker_core.py:51-55 | The first opening waits the base timeout, and every further one the backoff rate times the previous wait, up to the cap |
| `CircuitBreaker.BackoffBounds` | opennotes-server/src/circuit_breaker_core.py:44-55 | It lies between the base timeout and the cap, and without a configured cap within eight times the base |
| `CircuitBreaker.BackoffReachesCap` | opennotes-server/src/circuit_breaker_core.py:51-55 | With growth it equals the cap after a number of openings given by a formula |
| `KeySeeding.PrefixRecoveredIff` | opennotes-server/scripts/seed_api_keys.py:111-116 | The prefix read off a generated key is the one chosen if and only if the prefix has no underscore; the secret may have any |
| `KeySeeding.KeyPrefixIff` | opennotes-server/scripts/seed_api_keys.py:510-515 | A key has a lookup prefix if and only if it is `opk_`, the prefix, an underscore and anything, with no underscore in the prefix |
| `KeySeeding.NoOverrideIff` | opennotes-server/scripts/seed_api_keys.py:506-515 | The environment gives no override if and only if it is empty or starts with `CHANGE_THIS` |
| `KeySeeding.GeneratedKeyResolves` | opennotes-server/scripts/seed_api_keys.py:506-515 | A generated key given back through the environment resolves to itself with its own prefix |
| `KeySeeding.SeedResultIsTruthful` | opennotes-server/scripts/seed_api_keys.py:176-299 | The row ends active with the given scopes; hash and prefix are written together or not at all, and publication is allowed exactly when they were; each of the five statuses says which row was found |
| `KeySeeding.Deployment.SeedApiKey` | opennotes-server/scripts/seed_api_keys.py:176-299 | The row and the result of each of the five cases, in the session only |
| `KeySeeding.Deployment.SeedAndSaveProdKey` | opennotes-server/scripts/seed_api_keys.py:558-581 | One helper with a fault at any step: what is durable and published afterwards, and whether it raised |
| `KeySeeding.Deployment.SeedProduction` | opennotes-server/scripts/seed_api_keys.py:693-736 | The four helpers in order up to the first that raises, then a rollback |
| `KeySeeding.ProductionInOrder` | opennotes-server/scripts/seed_api_keys.py:693-697 | A run seeds Discord, playground, platform and Discourse in this order, each only if the one before returned |
| `KeySeeding.PublishesIff` | opennotes-server/scripts/seed_api_keys.py:558-581 | A helper pushes its key, once, if and only if it wrote the hash of a minted key, the commit was acknowledged and the push took effect; and when it returns normally |
| `KeySeeding.CompletedRunSeedsAll` | opennotes-server/scripts/seed_api_keys.py:81-103 | After a run that did not raise all four rows are active, each with the scopes of its own client |
| `KeySeeding.DurableBeforePublished` | opennotes-server/scripts/seed_api_keys.py:8-15 | Over any history of runs with faults anywhere, every plaintext ever pushed had its hash and prefix in the committed active row when it was pushed |
| `KeySeeding.SyncAfterSeedKeyIff` | opennotes-server/scripts/seed_api_keys.py:558-581 | After one helper the newest stored version matches the row if and only if, in case the attempt writes a hash, its key is the newest version before it or is minted with neither a lost commit acknowledgement nor a failed push, and otherwise they matched before |
| `KeySeeding.RunKeepsSyncIffDisciplined` | opennotes-server/scripts/seed_api_keys.py:693-697 | From a state in which all match, all match after every helper of a run if and only if each attempt that writes a hash meets that condition |
| `KeySeeding.NewestVersionMatchesRow` | opennotes-server/scripts/seed_api_keys.py:558-736 | Under that condition newest version and row match after any history of runs, revocations and repeated versions |
| `KeySeeding.RowsKeepTheirPrefix` | opennotes-server/scripts/seed_api_keys.py:176-299 | Over any history every row carries the lookup prefix of the key it has the hash of |
| `KeySeeding.RerunWithoutOverrideRepairsNothing` | opennotes-server/scripts/seed_api_keys.py:12-15 | Running again without an override never repairs a row whose push failed |
| `KeySeeding.OverrideRepairs` | opennotes-server/scripts/seed_api_keys.py:12-15 | Adding a version by hand and running with it as override repairs it |
| `KeySeeding.NewestKeyAuthenticatesIffInSync` | opennotes-server/src/users/crud.py:456-514 | Verification, by prefix or by scan, accepts the newest version as its own row if and only if it matches the row, the row has not expired and its user may act, when no other active row answers to the key |
| `StartupMigrations.RunKeepsInv` | opennotes-server/src/startup_migrations.py:66-267 | The invariant tying every instance to the lock and the revision holds at every moment of every run of any number of instances |
| `StartupMigrations.MigrationMutualExclusion` | opennotes-server/src/startup_migrations.py:88-201 | An instance that runs `alembic current`, `upgrade` or `downgrade` holds the lock if and only if it has not lost its session, so no two that have theirs do so together |
| `StartupMigrations.LostSessionBreaksExclusion` | opennotes-server/src/startup_migrations.py:135-163 | There is a run in which a session lost during an upgrade lets a second instance migrate beside it, and makes what that one read stale |
| `StartupMigrations.NoStepFreesAnothersLock` | opennotes-server/src/startup_migrations.py:83-85 | No step, a repeated unlock included, and no loss of a session, changes a lock that another session holds |
| `StartupMigrations.SecondUnlockMeetsAnothersLock` | opennotes-server/src/startup_migrations.py:163 | There is a run in which the second unlock after a rollback timeout meets a lock another session has taken, and leaves it |
| `StartupMigrations.FinishedHoldsNothing` | opennotes-server/src/startup_migrations.py:234-267 | Whatever the exit, exceptions included, a finished instance holds nothing |
| `StartupMigrations.RollbackRestoresWhatWasRead` | opennotes-server/src/startup_migrations.py:122-201 | As long as no session is lost under a subprocess: the revision parsed from the output under the lock names the current one until the upgrade ends, and a successful rollback ends at exactly that revision |
| `StartupMigrations.RollsBackIff` | opennotes-server/src/startup_migrations.py:166-201 | As long as no session is lost under a subprocess: an upgrade step leads to the downgrade, to the revision read, if and only if it failed with an error text in which none of the three known names occurs |
| `StartupMigrations.SafeErrorIsLeftAlone` | opennotes-server/src/startup_migrations.py:167-180 | After a failure with one of these names no later moment of the run has that instance in a downgrade, and with its session kept it reaches its release at a revision no lower than the one read |
| `StartupMigrations.WhatRunsNext` | opennotes-server/src/startup_migrations.py:224-267 | Every other step of an instance that does not raise: where it stands afterwards |
| `StartupMigrations.OnlyTheHolderMigrates` | opennotes-server/src/startup_migrations.py:253-258 | Only the running upgrade or downgrade of a server changes the revision, and that server holds the lock if and only if it has its session; a worker never does |
| `StartupMigrations.EveryStepAdvances` | opennotes-server/src/startup_migrations.py:224-267 | Every step other than an unsuccessful poll brings an instance nearer to its end |
| `StartupMigrations.AcquireLock` | opennotes-server/src/startup_migrations.py:66-80 | At most 901 polls; it stops at the first grant and gives up only once 1800 seconds have passed |
| `AlembicOutput.ParseCurrentRevision` | opennotes-server/src/startup_migrations.py:41-47 | The loop returns the first word of every line of the stripped output that has one, in order |
| `AlembicOutput.LineEnds` | opennotes-server/src/startup_migrations.py:43 | The characters that end a line of `str.splitlines`, and that a carriage return with a line feed ends one line only |
| `AlembicOutput.ParseListsRevisions` | opennotes-server/src/startup_migrations.py:41-47 | Printed output that lists revisions one a line, each with an optional note, is parsed to exactly those revisions |
| `AlembicOutput.ParsedTargetIsCurrent` | opennotes-server/src/startup_migrations.py:122-132 | What a failed upgrade is rolled back to, parsed from the output at any revision of a linear history, names that revision, or `base` before the first |
| `ScoringPatch.WrappedAtMostOnce` | opennotes-server/src/scoring_adapter.py:58-106 | Under any schedule of any number of threads the constructor is wrapped at most once, and never outside development and test |
| `ScoringPatch.ScoringSeesAllPatches` | opennotes-server/src/scoring_adapter.py:218-243 | No thread reaches the scoring before all four replacements and the threshold decision; from then on the constructor is wrapped exactly as the environment asks |
| `ScoringPatch.ReplacedOnceIff` | opennotes-server/src/scoring_adapter.py:225-236 | Once the flag is set every function was replaced, and exactly once each if and only if no thread raised in the locked block after a first replacement |
| `ScoringPatch.PatchingIsExclusive` | opennotes-server/src/scoring_adapter.py:66-106 | At most one thread is in each locked block, and a thread that ended, even by an exception, holds no lock |
| `ScoringPatch.SomeThreadMoves` | opennotes-server/src/scoring_adapter.py:218-238 | While a thread has not ended, it or the owner of the lock it waits for can move |
| `EngineRegistry.Registry.GetEngine` | opennotes-server/src/database.py:170-200 | The tables and the engine after a hit, and after a miss that prunes |
| `EngineRegistry.Registry.GetSessionMaker` | opennotes-server/src/database.py:203-225 | The tables after it, and that the maker returned is the one stored under the key of the caller |
| `EngineRegistry.Registry.DisposeBackgroundEngines` | opennotes-server/src/database.py:267-288 | Uninterrupted, it removes exactly the entries of other open loops and their makers |
| `EngineRegistry.Registry.CloseDb` | opennotes-server/src/database.py:291-300 | Both tables are empty |
| `EngineRegistry.RegistriesAgree` | opennotes-server/src/database.py:170-300 | After any feasible history, every maker is bound to the engine stored under its key, and every engine sits under the identity of the existing loop it was created for |
| `EngineRegistry.CallerGetsOwnEngine` | opennotes-server/src/database.py:177-225 | A caller gets the engine created for its own loop, although identities are used again, and a maker bound to that engine |
| `EngineRegistry.MissPrunesClosedLoops` | opennotes-server/src/database.py:191-199 | After a miss no closed loop is left in the table, after a hit nothing was pruned, and two entries never share an engine |
| `EngineRegistry.HitKeepsClosedLoop` | opennotes-server/src/database.py:173-187 | There is a history in which an access that hits leaves a closed loop in the table |
| `EngineRegistry.DisposedEnginesAreGone` | opennotes-server/src/database.py:267-288 | Whatever other threads do before, between and after the evictions, no engine that the disposal found is left under its key |
| `EngineRegistry.NotedKeyIsOwn` | opennotes-server/src/database.py:273-288 | While a disposal that noted a loop runs, an entry under the identity of the loop is always that loop's own |
| `EngineRegistry.EvictsNotedEngineIff` | opennotes-server/src/database.py:273-288 | When a noted key still has an entry at its eviction, the engine dropped is the one noted, which was disposed, if and only if no access under that key missed in between |
| `EngineRegistry.EvictionCanDropANewerEngine` | opennotes-server/src/database.py:280-288 | There is a history in which a second disposal evicts a newer engine of the same open loop, which nobody disposed |
| `EngineRegistry.EngineIsStable` | opennotes-server/src/database.py:184-187 | Until the entry is evicted, the registry is closed or the loop closes, the loop gets the same engine whatever others do |
| `EngineRegistry.MakerIsStable` | opennotes-server/src/database.py:214-225 | The same for the session maker, which is the very object handed out before |
| `NoteScoring.ScoreIsMin` | opennotes-server/scripts/run_scoring_demo.py:38-44 | The score is the smaller of the share of helpful ratings and a tenth of their number |
| `NoteScoring.ScoreAgainst` | opennotes-server/scripts/run_scoring_demo.py:38-44 | The score reaches, and stays within, any bound exactly when the two counts say so |
| `NoteScoring.ScoreBounds` | opennotes-server/scripts/run_scoring_demo.py:38-44 | The score lies between 0 and 1 |
| `NoteScoring.HelpfulIff` | opennotes-server/scripts/run_scoring_demo.py:47-48 | A note is rated helpful if and only if it has six helpful ratings and they are three fifths of all |
| `NoteScoring.NotHelpfulIff` | opennotes-server/scripts/run_scoring_demo.py:49-50 | A note is rated not helpful if and only if it has three ratings and at most three, or at most three tenths, are helpful |
| `NoteScoring.HelpfulRatingNeverLowers` | opennotes-server/scripts/run_scoring_demo.py:38-44 | One more helpful rating never lowers the score |
| `NoteScoring.UnhelpfulRatingNeverRaises` | opennotes-server/scripts/run_scoring_demo.py:38-44 | One more unhelpful rating never raises it |
| `NoteScoring.StatusSurvives` | opennotes-server/scripts/run_scoring_demo.py:47-52 | Helpful survives further helpful ratings, not helpful survives further unhelpful ones |
| `NoteScoring.CalculateNoteScores` | opennotes-server/scripts/run_scoring_demo.py:26-64 | One scored note per rated note, in ascending order, each from all of its ratings, and their counts add up to all ratings |
| `NoteScoring.ScoredNoteIs` | opennotes-server/scripts/run_scoring_demo.py:34-64 | Each scored note in terms of the ratings of that note: counts, share, score and status |
| `NoteScoring.CalculateUserHelpfulness` | opennotes-server/scripts/run_scoring_demo.py:66-103 | One entry per rater, in ascending order, each from all of the rater's joined rows, and their counts add up to all rows |
| `NoteScoring.ScoredUserIs` | opennotes-server/scripts/run_scoring_demo.py:76-103 | Each rater in terms of the ratings given: their number, and the share of those that agree with the final status of their note |
| `NoteScoring.JoinKeepsRatings` | opennotes-server/scripts/run_scoring_demo.py:70-73 | Joining the ratings with the scores computed from them keeps every rating exactly once, beside the final status of its own note |
| `NoteScoring.AgreementRateIsAShare` | opennotes-server/scripts/run_scoring_demo.py:94 | The agreement rate lies between 0 and 1, and is 1 exactly when every row of the rater agrees |
| `Percentile.PercentileIsMonotone` | opennotes-server/scripts/benchmark_db_latency.py:29-39 | Between 0 and 100 the percentile never falls as `p` grows, also across interpolation boundaries |
| `Percentile.PercentileIsLinear` | opennotes-server/scripts/benchmark_db_latency.py:29-39 | Between two neighbouring values it is their mean weighted by the distance |
| `Percentile.PercentileEnds` | opennotes-server/scripts/benchmark_db_latency.py:29-39 | At 0 and 100 it is the smallest and the largest value of the data |
| `Percentile.PercentileWithinData` | opennotes-server/scripts/benchmark_db_latency.py:29-39 | It lies between two values of the data |
| `Percentile.PositionBounds` | opennotes-server/scripts/benchmark_db_latency.py:33-39 | At a fractional position the value lies between its two neighbours; at a whole position it is the value there |
| `Percentile.RaisesIff` | opennotes-server/scripts/benchmark_db_latency.py:33-39 | For any `p` it raises an index error exactly when the position reaches the length or lies more than the length below zero |

## Left out

- Which exception escapes from `_inline_defs` is not distinguished: an exhausted stack and a `defs` value that is no dictionary are both `None`.
- JSON numbers that are not real numbers (`NaN`, infinities), and keys of objects that are not strings.
- The wording of the issues and of all other output; an issue is its pointer and what it claims.
- SchemaDiff.BooleanDriftIsInvisible: an instance only; the exact condition is the contract of `SchemaDiff.DiffIsExact`.
- Settings, HTTP, the FastAPI application that supplies the schema, and the file system behind the artifacts.
- SqlParens.PeelParens: models the loop of `_normalize_expr`, not its first two lines (white space, a trailing semicolon, casts), which depend on `re`; the whole function is not idempotent, because a peel can expose a cast or a semicolon.
- The extractors of the audit that use `re`, `sqlparse` and the PostgreSQL catalogs, and `_normalize_type`.
- CircuitBreaker.CountingInvariant: does not cover the setters of `failure_count` and `timeout`, which would break it, nor a threshold below 1.
- The status report, the messages and the metrics of the breaker, and the facade that keeps breakers by name.
- Two seeding runs at the same time, the salt of the hash, creation of the service users, and the development branch, which never publishes.
- KeySeeding.NewestKeyAuthenticatesIffInSync: whether a row has expired and whether its user may act are given; the clock and the user table behind them, and the event published on use, are not part of the model.
- A subprocess that timed out counts as finished; what a killed one still does in the database is not modelled.
- StartupMigrations.RollbackRestoresWhatWasRead: linear revision histories only; with several heads the code rolls back to the first one.
- `alembic check` after a lock timeout runs without the lock, as in the code, and only reads.
- Logging in the polling loop (`last_log`).
- The wrapped functions of pandas and of the scorer; an import that fails and a replacement that raises are modelled as raising and leaving the locked block.
- ReferenceResolution.InliningPreservesStandardMeaning: local references only; other references, and siblings of `$ref`, are kept or dropped as the walk does.
- Disposal of engines and pool metrics; the pops of `dispose_background_engines` appear in histories as single evictions at any time.
- EngineRegistry.Registry.DisposeBackgroundEngines: the method itself is stated for a call that no other thread interrupts; what holds beside other threads is `EngineRegistry.DisposedEnginesAreGone`.
- Rounding of floats, missing note or rater identities, and a ratings table without the column `helpful`.
- Discord, Chrome, NATS, Redis, storage and language-model calls, the web applications, and the migration and sampling scripts: input and output over libraries that are not part of this model.
