/** Production API-key seeding: the hash of each key is committed before its plaintext is pushed to the secret store,
  * with a failure possible at every step of every run. */
module KeySeeding {
  import opened Basics

  // ----- Key format -----

  /** `s.split(c, max)`. */
  function SplitMax(s: string, c: char, max: nat): (parts: seq<string>)
    ensures parts != []
    decreases max
  {
    var k := FirstIndex(s, c);
    if max == 0 || k == |s| then [s] else [s[..k]] + SplitMax(s[k + 1..], c, max - 1)
  }

  /** `generate_api_key`, with its two random parts as parameters. */
  function GenerateKey(prefix: string, secret: string): string {
    "opk_" + prefix + "_" + secret
  }

  /** The lookup prefix that `_resolve_provided_key` and `verify_api_key` read off a key. */
  function KeyPrefix(key: string): Option<string> {
    if "opk_" <= key then
      var parts := SplitMax(key, '_', 2);
      if |parts| == 3 then Some(parts[1]) else None
    else None
  }

  /** `_resolve_provided_key` on the value of the environment variable. */
  function ResolveProvidedKey(value: string): Option<(string, Option<string>)> {
    if value == "" || "CHANGE_THIS" <= value then None else Some((value, KeyPrefix(value)))
  }

  lemma SplitOnce(head: string, rest: string, c: char, max: nat)
    requires c !in head && max > 0
    ensures SplitMax(head + [c] + rest, c, max) == [head] + SplitMax(rest, c, max - 1)
  {
    var s := head + [c] + rest;
    assert s[..|head|] == head && s[|head|] == c && s[|head| + 1..] == rest;
    FirstIndexIs(s, c, |head|);
  }

  lemma SplitTwo(rest: string, c: char)
    requires FirstIndex(rest, c) < |rest|
    ensures SplitMax(rest, c, 1) == [rest[..FirstIndex(rest, c)], rest[FirstIndex(rest, c) + 1..]]
  {
  }

  lemma SplitThree(head: string, rest: string, c: char)
    requires c !in head && FirstIndex(rest, c) < |rest|
    ensures var parts := SplitMax(head + [c] + rest, c, 2);
            |parts| == 3 && parts[1] == rest[..FirstIndex(rest, c)]
  {
    SplitOnce(head, rest, c, 2);
    SplitTwo(rest, c);
  }

  /** What is read off `opk_` followed by `rest`: the text up to the first underscore of `rest`. */
  lemma PrefixAfterMarker(rest: string, key: string)
    requires FirstIndex(rest, '_') < |rest|
    requires key == "opk" + ['_'] + rest
    ensures KeyPrefix(key) == Some(rest[..FirstIndex(rest, '_')])
  {
    SplitThree("opk", rest, '_');
    assert key[..4] == "opk_";
  }

  lemma PrefixOfKey(prefix: string, secret: string)
    ensures var rest := prefix + "_" + secret;
            KeyPrefix(GenerateKey(prefix, secret)) == Some(rest[..FirstIndex(rest, '_')])
  {
    var rest := prefix + "_" + secret;
    assert rest[|prefix|] == '_';
    assert GenerateKey(prefix, secret) == "opk" + ['_'] + rest;
    PrefixAfterMarker(rest, GenerateKey(prefix, secret));
  }

  /** The prefix chosen at generation is recovered exactly when it holds no underscore; the secret may hold any. */
  lemma PrefixRecoveredIff(prefix: string, secret: string)
    ensures KeyPrefix(GenerateKey(prefix, secret)) == Some(prefix) <==> '_' !in prefix
  {
    PrefixOfKey(prefix, secret);
    var rest := prefix + "_" + secret;
    if '_' !in prefix {
      assert rest[..|prefix|] == prefix;
      FirstIndexIs(rest, '_', |prefix|);
    }
  }

  /** The lookup prefix of a key is what stands between `opk_` and the next underscore, if there is one. */
  lemma KeyPrefixIff(key: string, prefix: string)
    ensures KeyPrefix(key) == Some(prefix) <==>
              '_' !in prefix && exists secret :: key == "opk_" + prefix + "_" + secret
  {
    hide KeyPrefix;
    if KeyPrefix(key) == Some(prefix) {
      PrefixIsBetween(key, prefix);
    }
    if secret :| '_' !in prefix && key == "opk_" + prefix + "_" + secret {
      PrefixRecoveredIff(prefix, secret);
    }
  }

  lemma PrefixIsBetween(key: string, prefix: string)
    requires KeyPrefix(key) == Some(prefix)
    ensures '_' !in prefix && exists secret :: key == "opk_" + prefix + "_" + secret
  {
    hide SplitMax;
    var rest := key[4..];
    assert key == "opk" + ['_'] + rest;
    var k := FirstIndex(rest, '_');
    if k == |rest| {
      NoPrefix(rest, key);
    } else {
      PrefixAfterMarker(rest, key);
      Reassembled(key, rest, k);
    }
  }

  lemma Reassembled(key: string, rest: string, k: nat)
    requires key == "opk" + ['_'] + rest && k < |rest| && rest[k] == '_'
    ensures key == "opk_" + rest[..k] + "_" + rest[k + 1..]
  {
    assert rest == rest[..k] + "_" + rest[k + 1..];
  }

  lemma NoPrefix(rest: string, key: string)
    requires '_' !in rest && key == "opk" + ['_'] + rest
    ensures KeyPrefix(key) == None
  {
    SplitOnce("opk", rest, '_', 2);
    FirstIndexIs(rest, '_', |rest|);
  }

  /** A value of the environment counts as no key exactly when it is empty or a placeholder. */
  lemma NoOverrideIff(value: string)
    ensures ResolveProvidedKey(value) == None <==> value == "" || exists rest :: value == "CHANGE_THIS" + rest
  {
    if "CHANGE_THIS" <= value {
      assert value == "CHANGE_THIS" + value[|"CHANGE_THIS"|..];
    }
  }

  /** A generated key given back through the environment resolves to itself with its own prefix. */
  lemma GeneratedKeyResolves(prefix: string, secret: string)
    requires '_' !in prefix
    ensures ResolveProvidedKey(GenerateKey(prefix, secret)) == Some((GenerateKey(prefix, secret), Some(prefix)))
  {
    PrefixRecoveredIff(prefix, secret);
    assert GenerateKey(prefix, secret)[0] == 'o';
  }

  // ----- Rows -----

  /** The four production keys, in the order in which they are seeded. */
  datatype Slot = Discord | Playground | Platform | Discourse

  function ScopesOf(slot: Slot): seq<string> {
    match slot
    case Discord => ["platform:adapter"]
    case Playground => ["simulations:read"]
    case Platform => ["api-keys:create"]
    case Discourse => ["platform:adapter"]
  }

  /** `get_password_hash`, as an injective function; the salt is not modelled. */
  datatype Hash = HashOf(plaintext: string)

  datatype Row = Row(active: bool, hash: Hash, prefix: Option<string>, scopes: seq<string>)

  datatype SeedStatus = Created | Reactivated | ActiveRotated | ScopeOnlyUpdated | NoOp

  datatype SeedResult = SeedResult(status: SeedStatus, hashWritten: bool, shouldPublish: bool)

  /** The row and the result of `seed_api_key`. */
  function SeedRow(row: Option<Row>, hash: Hash, prefix: Option<string>, scopes: seq<string>, force: bool): (Row,
                   SeedResult) {
    match row
    case None => (Row(true, hash, prefix, scopes), SeedResult(Created, true, true))
    case Some(r) =>
      if !r.active then (Row(true, hash, prefix, scopes), SeedResult(Reactivated, true, true))
      else if force then (Row(true, hash, prefix, scopes), SeedResult(ActiveRotated, true, true))
      else if r.scopes != scopes then (r.(scopes := scopes), SeedResult(ScopeOnlyUpdated, false, false))
      else (r, SeedResult(NoOp, false, false))
  }

  /** What the result tells the caller is true of the row: a plaintext may be published exactly when its hash was
    * written; hash and prefix are written together or not at all, and not at all only on a row that was active. The
    * row always ends active with the given scopes. */
  lemma SeedResultIsTruthful(row: Option<Row>, hash: Hash, prefix: Option<string>, scopes: seq<string>, force: bool)
    ensures var (after, result) := SeedRow(row, hash, prefix, scopes, force);
            && after.active && after.scopes == scopes
            && result.shouldPublish == result.hashWritten
            && (if result.hashWritten then after.hash == hash && after.prefix == prefix
                else row.Some? && row.value.active && !force
                     && after.hash == row.value.hash && after.prefix == row.value.prefix)
            && (result.status == Created <==> row == None)
            && (result.status == Reactivated <==> row.Some? && !row.value.active)
            && (result.status == ActiveRotated <==> row.Some? && row.value.active && force)
            && (result.status == ScopeOnlyUpdated <==>
                  row.Some? && row.value.active && !force && row.value.scopes != scopes)
            && (result.status == NoOp <==> row.Some? && row.value.active && !force && row.value.scopes == scopes)
  {
  }

  // ----- One key, one run -----

  /** Where a run breaks off. A commit or a push can also fail to be acknowledged after it took effect. */
  datatype Fault = NoFault | SeedFails | CommitFails | CommitUnacknowledged | PushFails | PushUnacknowledged

  /** What one run finds and draws for one key: the environment value, the random parts, and the fault. */
  datatype Attempt = Attempt(env: string, prefix: string, secret: string, fault: Fault)

  /** A pushed plaintext with the row that was durable when it was pushed. */
  datatype Publication = Publication(slot: Slot, plaintext: string, durable: Option<Row>)

  /** The committed rows, the versions in the secret store, and the log of pushes. */
  datatype World = World(rows: map<Slot, Row>, versions: map<Slot, seq<string>>, published: seq<Publication>)

  function RowOf(rows: map<Slot, Row>, slot: Slot): Option<Row> {
    if slot in rows then Some(rows[slot]) else None
  }

  function VersionsOf(w: World, slot: Slot): seq<string> {
    if slot in w.versions then w.versions[slot] else []
  }

  predicate IsOverride(a: Attempt) {
    ResolveProvidedKey(a.env).Some?
  }

  function KeyOf(a: Attempt): string {
    if IsOverride(a) then ResolveProvidedKey(a.env).value.0 else GenerateKey(a.prefix, a.secret)
  }

  function PrefixOf(a: Attempt): Option<string> {
    if IsOverride(a) then ResolveProvidedKey(a.env).value.1 else Some(a.prefix)
  }

  function Seeded(rows: map<Slot, Row>, slot: Slot, a: Attempt): (Row, SeedResult) {
    SeedRow(RowOf(rows, slot), HashOf(KeyOf(a)), PrefixOf(a), ScopesOf(slot), IsOverride(a))
  }

  function Push(w: World, slot: Slot, plaintext: string): World {
    World(w.rows, w.versions[slot := VersionsOf(w, slot) + [plaintext]],
          w.published + [Publication(slot, plaintext, RowOf(w.rows, slot))])
  }

  /** The helper `_seed_and_save_prod_*_key`: the durable effects, and whether it returned normally. */
  function SeedKey(w: World, slot: Slot, a: Attempt): (World, bool) {
    if a.fault == SeedFails || a.fault == CommitFails then (w, false)
    else
      var (row, result) := Seeded(w.rows, slot, a);
      var committed := w.(rows := w.rows[slot := row]);
      if a.fault == CommitUnacknowledged then (committed, false)
      else if result.shouldPublish && !IsOverride(a) then
        if a.fault == PushFails then (committed, false)
        else (Push(committed, slot, KeyOf(a)), a.fault != PushUnacknowledged)
      else (committed, true)
  }

  const ORDER := [Discord, Playground, Platform, Discourse]

  type Attempts = Slot -> Attempt

  /** The first `n` helpers of `main`, stopping at the first that raises. */
  function SeedFirst(w: World, attempts: Attempts, n: nat): (World, bool)
    requires n <= |ORDER|
  {
    if n == 0 then (w, true)
    else
      var (before, ok) := SeedFirst(w, attempts, n - 1);
      if ok then SeedKey(before, ORDER[n - 1], attempts(ORDER[n - 1])) else (before, false)
  }

  function Production(w: World, attempts: Attempts): World {
    SeedFirst(w, attempts, |ORDER|).0
  }

  /** The production run seeds the four keys in this order and stops at the first that raises. */
  lemma ProductionInOrder(w: World, attempts: Attempts)
    ensures Production(w, attempts) ==
            var (w1, ok1) := SeedKey(w, Discord, attempts(Discord));
            if !ok1 then w1
            else
              var (w2, ok2) := SeedKey(w1, Playground, attempts(Playground));
              if !ok2 then w2
              else
                var (w3, ok3) := SeedKey(w2, Platform, attempts(Platform));
                if !ok3 then w3 else SeedKey(w3, Discourse, attempts(Discourse)).0
  {
    hide SeedKey;
    assert SeedFirst(w, attempts, 0) == (w, true);
    assert SeedFirst(w, attempts, 1) == SeedKey(w, Discord, attempts(Discord));
    assert SeedFirst(w, attempts, 2).1 ==> SeedFirst(w, attempts, 1).1;
    assert SeedFirst(w, attempts, 3).1 ==> SeedFirst(w, attempts, 2).1;
  }

  /** One helper publishes its key exactly when it is minted, a hash was written and committed, and neither the commit
    * acknowledgement nor the push was lost; it raises exactly when a step that it reaches breaks off. */
  lemma PublishesIff(w: World, slot: Slot, a: Attempt)
    ensures var (w', ok) := SeedKey(w, slot, a);
            var reaches := !IsOverride(a) && Seeded(w.rows, slot, a).1.hashWritten;
            && (a.fault in {NoFault, PushUnacknowledged} && reaches ==>
                  w'.published == w.published + [Publication(slot, KeyOf(a), RowOf(w'.rows, slot))])
            && (!(a.fault in {NoFault, PushUnacknowledged} && reaches) ==>
                  w'.published == w.published && w'.versions == w.versions)
            && (ok <==> a.fault == NoFault || (a.fault in {PushFails, PushUnacknowledged} && !reaches))
            && (a.fault in {SeedFails, CommitFails} ==> w'.rows == w.rows)
            && (a.fault !in {SeedFails, CommitFails} ==> w'.rows == w.rows[slot := Seeded(w.rows, slot, a).0])
  {
    hide KeyOf, PrefixOf, IsOverride;
    SeedResultIsTruthful(RowOf(w.rows, slot), HashOf(KeyOf(a)), PrefixOf(a), ScopesOf(slot), IsOverride(a));
  }

  lemma HelperSeeds(w: World, slot: Slot, a: Attempt)
    requires SeedKey(w, slot, a).1
    ensures var rows := SeedKey(w, slot, a).0.rows;
            slot in rows && rows[slot].active && rows[slot].scopes == ScopesOf(slot)
  {
    hide KeyOf, PrefixOf, IsOverride, SeedRow, ScopesOf;
    SeedResultIsTruthful(RowOf(w.rows, slot), HashOf(KeyOf(a)), PrefixOf(a), ScopesOf(slot), IsOverride(a));
  }

  lemma {:induction false} SeededSoFar(w: World, attempts: Attempts, n: nat)
    requires n <= |ORDER| && SeedFirst(w, attempts, n).1
    ensures forall m | 0 <= m < n ::
              var rows, slot := SeedFirst(w, attempts, n).0.rows, ORDER[m];
              slot in rows && rows[slot].active && rows[slot].scopes == ScopesOf(slot)
    decreases n
  {
    hide SeedKey, ScopesOf;
    if n > 0 {
      var before, slot := SeedFirst(w, attempts, n - 1).0, ORDER[n - 1];
      SeededSoFar(w, attempts, n - 1);
      HelperSeeds(before, slot, attempts(slot));
      forall m | 0 <= m < n - 1
        ensures RowOf(SeedFirst(w, attempts, n).0.rows, ORDER[m]) == RowOf(before.rows, ORDER[m])
      {
        assert ORDER[m] != slot;
        SeedKeyLeavesOthers(before, slot, attempts(slot), ORDER[m]);
      }
    }
  }

  /** A run that ends normally leaves all four keys active with the scopes of their services. */
  lemma CompletedRunSeedsAll(w: World, attempts: Attempts)
    requires SeedFirst(w, attempts, |ORDER|).1
    ensures var rows := Production(w, attempts).rows;
            && (forall slot: Slot :: slot in rows && rows[slot].active)
            && rows[Discord].scopes == ["platform:adapter"] && rows[Playground].scopes == ["simulations:read"]
            && rows[Platform].scopes == ["api-keys:create"] && rows[Discourse].scopes == ["platform:adapter"]
  {
    hide SeedFirst;
    SeededSoFar(w, attempts, |ORDER|);
    var rows := Production(w, attempts).rows;
    assert ORDER[0] == Discord && ORDER[1] == Playground && ORDER[2] == Platform && ORDER[3] == Discourse;
    assert Discord in rows && Playground in rows && Platform in rows && Discourse in rows;
    forall slot: Slot ensures slot in rows && rows[slot].active {
      match slot case Discord => case Playground => case Platform => case Discourse =>
    }
  }

  // ----- The script's own steps -----

  class Deployment {
    var committed: map<Slot, Row>
    var session: map<Slot, Row>
    var versions: map<Slot, seq<string>>
    ghost var published: seq<Publication>

    ghost function Durable(): World
      reads this
    {
      World(committed, versions, published)
    }

    constructor ()
      ensures Durable() == World(map[], map[], []) && session == map[]
    {
      committed, session, versions, published := map[], map[], map[], [];
    }

    /** `seed_api_key`: writes the session only; the caller owns the transaction. */
    method SeedApiKey(slot: Slot, keyHash: Hash, keyPrefix: Option<string>, scopes: seq<string>,
                      forceRotateActive: bool)
      returns (result: SeedResult)
      modifies this`session
      ensures var (row, r) := SeedRow(RowOf(old(session), slot), keyHash, keyPrefix, scopes, forceRotateActive);
              result == r && session == old(session)[slot := row]
    {
      if slot in session {
        var row := session[slot];
        if !row.active {
          session := session[slot := row.(active := true, hash := keyHash, prefix := keyPrefix, scopes := scopes)];
          return SeedResult(Reactivated, true, true);
        }
        if forceRotateActive {
          session := session[slot := row.(hash := keyHash, prefix := keyPrefix, scopes := scopes)];
          return SeedResult(ActiveRotated, true, true);
        }
        if row.scopes != scopes {
          session := session[slot := row.(scopes := scopes)];
          return SeedResult(ScopeOnlyUpdated, false, false);
        }
        assert session[slot := row] == session;
        return SeedResult(NoOp, false, false);
      }
      session := session[slot := Row(true, keyHash, keyPrefix, scopes)];
      return SeedResult(Created, true, true);
    }

    method Commit(fault: Fault) returns (ok: bool)
      modifies this`committed
      ensures committed == if fault == CommitFails then old(committed) else session
      ensures ok <==> fault != CommitFails && fault != CommitUnacknowledged
    {
      if fault == CommitFails {
        return false;
      }
      committed := session;
      return fault != CommitUnacknowledged;
    }

    method Rollback()
      modifies this`session
      ensures session == committed
    {
      session := committed;
    }

    method PushPlaintext(slot: Slot, plaintext: string, fault: Fault) returns (ok: bool)
      modifies this`versions, this`published
      ensures Durable() == if fault == PushFails then old(Durable()) else Push(old(Durable()), slot, plaintext)
      ensures ok <==> fault != PushFails && fault != PushUnacknowledged
    {
      if fault == PushFails {
        return false;
      }
      published := published + [Publication(slot, plaintext, RowOf(committed, slot))];
      versions := versions[slot := (if slot in versions then versions[slot] else []) + [plaintext]];
      return fault != PushUnacknowledged;
    }

    /** One of the four helpers; `ok` is false when the original raises. */
    method SeedAndSaveProdKey(slot: Slot, a: Attempt) returns (ok: bool)
      requires session == committed
      modifies this
      ensures (Durable(), ok) == SeedKey(old(Durable()), slot, a)
      ensures ok ==> session == committed
    {
      var override := ResolveProvidedKey(a.env);
      var pushedFromOverride := override.Some?;
      var apiKey, keyPrefix;
      if override.Some? {
        apiKey, keyPrefix := override.value.0, override.value.1;
      } else {
        apiKey, keyPrefix := GenerateKey(a.prefix, a.secret), Some(a.prefix);
      }
      if a.fault == SeedFails {
        return false;
      }
      var result := SeedApiKey(slot, HashOf(apiKey), keyPrefix, ScopesOf(slot), pushedFromOverride);
      ok := Commit(a.fault);
      if ok && result.shouldPublish && !pushedFromOverride {
        ok := PushPlaintext(slot, apiKey, a.fault);
      }
    }

    /** The production branch of `main`. */
    method SeedProduction(attempts: Attempts) returns (ok: bool)
      requires session == committed
      modifies this
      ensures Durable() == Production(old(Durable()), attempts)
      ensures session == committed
    {
      hide SeedKey;
      ok := true;
      var n := 0;
      while ok && n < |ORDER|
        invariant n <= |ORDER|
        invariant ok ==> session == committed
        invariant (Durable(), ok) == SeedFirst(old(Durable()), attempts, n)
        decreases |ORDER| - n
      {
        ok := SeedAndSaveProdKey(ORDER[n], attempts(ORDER[n]));
        n := n + 1;
      }
      if !ok {
        StaysBroken(old(Durable()), attempts, n, |ORDER|);
        Rollback();
      }
    }
  }

  lemma {:induction false} StaysBroken(w: World, attempts: Attempts, n: nat, m: nat)
    requires n <= m <= |ORDER| && !SeedFirst(w, attempts, n).1
    ensures SeedFirst(w, attempts, m) == SeedFirst(w, attempts, n)
    decreases m
  {
    if n < m {
      StaysBroken(w, attempts, n, m - 1);
    }
  }

  // ----- Histories -----

  /** What happens to the stored state: a seeding run, the revocation of a key, or an operator adding a version. */
  datatype Event =
    | Run(attempts: Attempts)
    | Revoke(slot: Slot)
    | OperatorAdds(slot: Slot, plaintext: string)

  function Apply(w: World, e: Event): World {
    match e
    case Run(attempts) => Production(w, attempts)
    case Revoke(slot) => if slot in w.rows then w.(rows := w.rows[slot := w.rows[slot].(active := false)]) else w
    case OperatorAdds(slot, plaintext) => w.(versions := w.versions[slot := VersionsOf(w, slot) + [plaintext]])
  }

  function After(w: World, history: seq<Event>): World {
    if history == [] then w else Apply(After(w, history[..|history| - 1]), history[|history| - 1])
  }

  /** The random prefix is hexadecimal, so it holds no underscore. */
  ghost predicate Hex(attempts: Attempts) {
    forall slot :: '_' !in attempts(slot).prefix
  }

  ghost predicate HexHistory(history: seq<Event>) {
    forall i | 0 <= i < |history| && history[i].Run? :: Hex(history[i].attempts)
  }

  // ----- Durable before published -----

  /** The row holds the hash of the plaintext and the prefix it is looked up by. */
  predicate Pairs(row: Row, plaintext: string) {
    row.hash == HashOf(plaintext) && row.prefix == KeyPrefix(plaintext)
  }

  predicate WasDurable(p: Publication) {
    p.durable.Some? && p.durable.value.active && Pairs(p.durable.value, p.plaintext)
  }

  ghost predicate AllDurable(w: World) {
    forall i | 0 <= i < |w.published| :: WasDurable(w.published[i])
  }

  /** A hash is written together with the prefix that the key will be looked up by. */
  lemma WrittenRowPairs(rows: map<Slot, Row>, slot: Slot, a: Attempt)
    requires '_' !in a.prefix
    ensures PrefixOf(a) == KeyPrefix(KeyOf(a))
    ensures Seeded(rows, slot, a).1.hashWritten ==>
              Seeded(rows, slot, a).0.active && Pairs(Seeded(rows, slot, a).0, KeyOf(a))
  {
    hide KeyOf, PrefixOf, KeyPrefix, IsOverride, ScopesOf;
    AttemptPrefix(a);
  }

  lemma AttemptPrefix(a: Attempt)
    requires '_' !in a.prefix
    ensures PrefixOf(a) == KeyPrefix(KeyOf(a))
  {
    hide KeyPrefix, GenerateKey;
    PrefixRecoveredIff(a.prefix, a.secret);
  }

  lemma SeedKeyPublishesDurable(w: World, slot: Slot, a: Attempt)
    requires AllDurable(w) && '_' !in a.prefix
    ensures AllDurable(SeedKey(w, slot, a).0)
  {
    hide SplitMax, GenerateKey;
    WrittenRowPairs(w.rows, slot, a);
  }

  lemma {:induction false} SeedFirstPublishesDurable(w: World, attempts: Attempts, n: nat)
    requires AllDurable(w) && Hex(attempts) && n <= |ORDER|
    ensures AllDurable(SeedFirst(w, attempts, n).0)
  {
    if n > 0 {
      SeedFirstPublishesDurable(w, attempts, n - 1);
      var slot := ORDER[n - 1];
      assert '_' !in attempts(slot).prefix;
      SeedKeyPublishesDurable(SeedFirst(w, attempts, n - 1).0, slot, attempts(slot));
    }
  }

  /** Over any history of runs, with faults anywhere, every plaintext ever pushed had its hash and its prefix in the
    * committed, active row at the moment of the push. */
  lemma {:induction false} DurableBeforePublished(w: World, history: seq<Event>)
    requires AllDurable(w) && HexHistory(history)
    ensures AllDurable(After(w, history))
    decreases |history|
  {
    if history != [] {
      var front, e := history[..|history| - 1], history[|history| - 1];
      DurableBeforePublished(w, front);
      if e.Run? {
        SeedFirstPublishesDurable(After(w, front), e.attempts, |ORDER|);
      }
    }
  }

  // ----- The newest version and the row -----

  function Newest(w: World, slot: Slot): Option<string> {
    var versions := VersionsOf(w, slot);
    if versions == [] then None else Some(versions[|versions| - 1])
  }

  /** The newest stored version verifies against the row, or there is neither. */
  predicate InSync(w: World, slot: Slot) {
    match (RowOf(w.rows, slot), Newest(w, slot))
    case (None, None) => true
    case (Some(row), Some(newest)) => Pairs(row, newest)
    case _ => false
  }

  /** The attempt durably writes a hash. */
  predicate Writes(w: World, slot: Slot, a: Attempt) {
    a.fault != SeedFails && a.fault != CommitFails && Seeded(w.rows, slot, a).1.hashWritten
  }

  /** The key that the attempt hashes is the newest version already, or it is minted and nothing stops it from being
    * pushed. All of it is known before the attempt. */
  predicate EndsNewest(w: World, slot: Slot, a: Attempt) {
    || Newest(w, slot) == Some(KeyOf(a))
    || (!IsOverride(a) && a.fault != CommitUnacknowledged && a.fault != PushFails)
  }

  /** Exactly when one key's seeding leaves the newest version and the row matching: if it writes a hash, when the key
    * is the newest version already or is minted and reaches the store; otherwise when they matched before. */
  lemma SyncAfterSeedKeyIff(w: World, slot: Slot, a: Attempt)
    requires '_' !in a.prefix
    ensures InSync(SeedKey(w, slot, a).0, slot) <==>
              if Writes(w, slot, a) then EndsNewest(w, slot, a) else InSync(w, slot)
  {
    if Writes(w, slot, a) {
      SyncAfterWrite(w, slot, a);
    } else {
      SyncWithoutWrite(w, slot, a);
    }
  }

  lemma SyncWithoutWrite(w: World, slot: Slot, a: Attempt)
    requires !Writes(w, slot, a)
    ensures InSync(SeedKey(w, slot, a).0, slot) <==> InSync(w, slot)
  {
    hide SplitMax, GenerateKey, IsOverride, KeyOf, PrefixOf, KeyPrefix;
  }

  lemma SyncAfterWrite(w: World, slot: Slot, a: Attempt)
    requires '_' !in a.prefix && Writes(w, slot, a)
    ensures InSync(SeedKey(w, slot, a).0, slot) <==> EndsNewest(w, slot, a)
  {
    hide SplitMax, GenerateKey, IsOverride, KeyOf, PrefixOf, KeyPrefix, EndsNewest;
    WrittenRowPairs(w.rows, slot, a);
    NewestAfterWrite(w, slot, a);
  }

  lemma NewestAfterWrite(w: World, slot: Slot, a: Attempt)
    requires Writes(w, slot, a)
    ensures Newest(SeedKey(w, slot, a).0, slot) == Some(KeyOf(a)) <==> EndsNewest(w, slot, a)
  {
    hide SplitMax, GenerateKey, IsOverride, KeyOf, PrefixOf;
  }

  lemma SeedKeyLeavesOthers(w: World, slot: Slot, a: Attempt, other: Slot)
    requires other != slot
    ensures var w' := SeedKey(w, slot, a).0;
            RowOf(w'.rows, other) == RowOf(w.rows, other) && VersionsOf(w', other) == VersionsOf(w, other)
  {
  }

  /** What the operators must see to: an override repeats the newest stored version, and a minted key that is committed
    * is also pushed. Failures before the commit, lost acknowledgements of a push, and attempts that write no hash are
    * harmless. */
  predicate Disciplined(w: World, slot: Slot, a: Attempt) {
    Writes(w, slot, a) ==> EndsNewest(w, slot, a)
  }

  /** The discipline over a whole run: each key is judged in the world its helper starts from. */
  ghost predicate DisciplinedRun(w: World, attempts: Attempts) {
    forall n | 0 <= n < |ORDER| && SeedFirst(w, attempts, n).1 ::
      Disciplined(SeedFirst(w, attempts, n).0, ORDER[n], attempts(ORDER[n]))
  }

  /** A run is disciplined, and an operator adds only a version that the row has the hash of. */
  ghost predicate DisciplinedEvent(w: World, e: Event) {
    match e
    case Run(attempts) => DisciplinedRun(w, attempts)
    case OperatorAdds(slot, plaintext) => slot in w.rows && Pairs(w.rows[slot], plaintext)
    case Revoke(_) => true
  }

  ghost predicate DisciplinedHistory(w: World, history: seq<Event>) {
    forall i | 0 <= i < |history| :: DisciplinedEvent(After(w, history[..i]), history[i])
  }

  ghost predicate AllInSync(w: World) {
    forall slot :: InSync(w, slot)
  }

  /** From a world in which all match, one helper leaves all matching exactly when its attempt is disciplined. */
  lemma SyncKeptIffDisciplined(w: World, slot: Slot, a: Attempt)
    requires AllInSync(w) && '_' !in a.prefix
    ensures AllInSync(SeedKey(w, slot, a).0) <==> Disciplined(w, slot, a)
  {
    hide SeedKey, Writes, EndsNewest, InSync;
    var w' := SeedKey(w, slot, a).0;
    SyncAfterSeedKeyIff(w, slot, a);
    forall s | s != slot ensures InSync(w', s) {
      SeedKeyLeavesOthers(w, slot, a, s);
      SameIsInSync(w, w', s);
    }
  }

  lemma SameIsInSync(w: World, w': World, slot: Slot)
    requires InSync(w, slot)
    requires RowOf(w'.rows, slot) == RowOf(w.rows, slot) && VersionsOf(w', slot) == VersionsOf(w, slot)
    ensures InSync(w', slot)
  {
  }

  /** All keys match after every helper of the run. */
  ghost predicate SyncThroughout(w: World, attempts: Attempts) {
    forall n | 0 <= n <= |ORDER| :: AllInSync(SeedFirst(w, attempts, n).0)
  }

  /** All keys match after every helper of a run exactly when the run is disciplined. */
  lemma RunKeepsSyncIffDisciplined(w: World, attempts: Attempts)
    requires AllInSync(w) && Hex(attempts)
    ensures SyncThroughout(w, attempts) <==> DisciplinedRun(w, attempts)
  {
    if DisciplinedRun(w, attempts) {
      forall n | 0 <= n <= |ORDER| ensures AllInSync(SeedFirst(w, attempts, n).0) {
        DisciplinedRunKeepsSync(w, attempts, n);
      }
    }
    if SyncThroughout(w, attempts) {
      SyncedRunIsDisciplined(w, attempts);
    }
  }

  lemma SyncedRunIsDisciplined(w: World, attempts: Attempts)
    requires Hex(attempts) && SyncThroughout(w, attempts)
    ensures DisciplinedRun(w, attempts)
  {
    hide AllInSync, Disciplined, SeedKey;
    forall n | 0 <= n < |ORDER| && SeedFirst(w, attempts, n).1
      ensures Disciplined(SeedFirst(w, attempts, n).0, ORDER[n], attempts(ORDER[n]))
    {
      assert AllInSync(SeedFirst(w, attempts, n).0) && AllInSync(SeedFirst(w, attempts, n + 1).0);
      assert '_' !in attempts(ORDER[n]).prefix;
      SyncKeptIffDisciplined(SeedFirst(w, attempts, n).0, ORDER[n], attempts(ORDER[n]));
    }
  }

  lemma {:induction false} DisciplinedRunKeepsSync(w: World, attempts: Attempts, n: nat)
    requires AllInSync(w) && Hex(attempts) && DisciplinedRun(w, attempts) && n <= |ORDER|
    ensures AllInSync(SeedFirst(w, attempts, n).0)
  {
    hide AllInSync, Disciplined, SeedKey;
    if n > 0 {
      DisciplinedRunKeepsSync(w, attempts, n - 1);
      if SeedFirst(w, attempts, n - 1).1 {
        assert '_' !in attempts(ORDER[n - 1]).prefix;
        SyncKeptIffDisciplined(SeedFirst(w, attempts, n - 1).0, ORDER[n - 1], attempts(ORDER[n - 1]));
      }
    }
  }

  lemma EventKeepsSync(w: World, e: Event)
    requires AllInSync(w) && DisciplinedEvent(w, e) && (e.Run? ==> Hex(e.attempts))
    ensures AllInSync(Apply(w, e))
  {
    hide Hex, DisciplinedRun, KeyPrefix;
    match e
    case Run(attempts) =>
      DisciplinedRunKeepsSync(w, attempts, |ORDER|);
    case Revoke(slot) =>
      forall s ensures InSync(Apply(w, e), s) {
        assert InSync(w, s);
      }
    case OperatorAdds(slot, plaintext) =>
      forall s ensures InSync(Apply(w, e), s) {
        assert InSync(w, s);
      }
  }

  /** Under that discipline, the newest version of every key matches its row after any history. */
  lemma {:induction false} NewestVersionMatchesRow(w: World, history: seq<Event>)
    requires AllInSync(w) && HexHistory(history) && DisciplinedHistory(w, history)
    ensures AllInSync(After(w, history))
    decreases |history|
  {
    hide AllInSync, DisciplinedEvent, Apply, Hex;
    if history != [] {
      var front, e := history[..|history| - 1], history[|history| - 1];
      forall i | 0 <= i < |front| ensures front[i] == history[i] && front[..i] == history[..i] {}
      NewestVersionMatchesRow(w, front);
      EventKeepsSync(After(w, front), e);
    }
  }

  /** A minted key whose push failed cannot be repaired by running again without an override: an active row is not
    * rewritten, so nothing that matters changes. */
  lemma RerunWithoutOverrideRepairsNothing(w: World, slot: Slot, a: Attempt)
    requires !IsOverride(a) && '_' !in a.prefix
    requires slot in w.rows && w.rows[slot].active
    ensures var w' := SeedKey(w, slot, a).0;
            && slot in w'.rows && w'.rows[slot].active
            && Newest(w', slot) == Newest(w, slot)
            && (InSync(w', slot) <==> InSync(w, slot))
  {
    SyncAfterSeedKeyIff(w, slot, a);
  }

  /** The operator's way back: add a version of one's own, then run with it as the override. */
  lemma OverrideRepairs(w: World, slot: Slot, key: string, a: Attempt)
    requires a.env == key && IsOverride(a) && '_' !in a.prefix
    requires a.fault != SeedFails && a.fault != CommitFails
    ensures InSync(SeedKey(Apply(w, OperatorAdds(slot, key)), slot, a).0, slot)
  {
    SyncAfterSeedKeyIff(Apply(w, OperatorAdds(slot, key)), slot, a);
  }

  // ----- Authentication -----

  /** A row carries the prefix of the key it has the hash of. */
  predicate OwnPrefix(row: Row) {
    row.prefix == KeyPrefix(row.hash.plaintext)
  }

  ghost predicate OwnPrefixes(w: World) {
    forall slot | slot in w.rows :: OwnPrefix(w.rows[slot])
  }

  lemma {:induction false} SeedFirstKeepsOwnPrefixes(w: World, attempts: Attempts, n: nat)
    requires OwnPrefixes(w) && Hex(attempts) && n <= |ORDER|
    ensures OwnPrefixes(SeedFirst(w, attempts, n).0)
  {
    hide KeyPrefix, GenerateKey, ResolveProvidedKey;
    if n > 0 {
      SeedFirstKeepsOwnPrefixes(w, attempts, n - 1);
      var slot := ORDER[n - 1];
      assert '_' !in attempts(slot).prefix;
      WrittenRowPairs(SeedFirst(w, attempts, n - 1).0.rows, slot, attempts(slot));
    }
  }

  /** Over any history, every row carries the prefix of the key it has the hash of. */
  lemma {:induction false} RowsKeepTheirPrefix(w: World, history: seq<Event>)
    requires OwnPrefixes(w) && HexHistory(history)
    ensures OwnPrefixes(After(w, history))
    decreases |history|
  {
    if history != [] {
      var front, e := history[..|history| - 1], history[|history| - 1];
      RowsKeepTheirPrefix(w, front);
      if e.Run? {
        SeedFirstKeepsOwnPrefixes(After(w, front), e.attempts, |ORDER|);
      }
    }
  }

  /** A row of the key table, with whether it has expired and whether its user exists and is active. */
  datatype Stored = Stored(row: Row, expired: bool, usable: bool)

  datatype Verdict = Accepted(index: nat) | Rejected | Ambiguous

  /** The first active row with this prefix, or the length of the table. */
  function FirstWithPrefix(table: seq<Stored>, prefix: string): nat {
    if table == [] || (table[0].row.active && table[0].row.prefix == Some(prefix)) then 0
    else 1 + FirstWithPrefix(table[1..], prefix)
  }

  /** The checks on a row whose hash verifies. */
  predicate Usable(s: Stored) {
    !s.expired && s.usable && s.row.scopes != []
  }

  /** The lookup by prefix; two rows make the query raise. */
  function VerifyByPrefix(table: seq<Stored>, raw: string, prefix: string): Verdict {
    var k := FirstWithPrefix(table, prefix);
    if k >= |table| then Rejected
    else if FirstWithPrefix(table[k + 1..], prefix) < |table| - (k + 1) then Ambiguous
    else if table[k].row.hash == HashOf(raw) && Usable(table[k]) then Accepted(k)
    else Rejected
  }

  /** The scan over the active rows, from `k` on. */
  function VerifyByScan(table: seq<Stored>, raw: string, k: nat): Verdict
    decreases |table| - k
  {
    if k >= |table| then Rejected
    else if table[k].row.active && table[k].row.hash == HashOf(raw) && !table[k].expired then
      if table[k].row.scopes == [] then Rejected
      else if table[k].usable then Accepted(k)
      else VerifyByScan(table, raw, k + 1)
    else VerifyByScan(table, raw, k + 1)
  }

  /** `verify_api_key`. */
  function VerifyApiKey(table: seq<Stored>, raw: string): Verdict {
    match KeyPrefix(raw)
    case Some(prefix) => VerifyByPrefix(table, raw, prefix)
    case None => VerifyByScan(table, raw, 0)
  }

  lemma {:induction false} FirstWithPrefixIs(table: seq<Stored>, prefix: string)
    ensures var k := FirstWithPrefix(table, prefix);
            && k <= |table|
            && (k < |table| ==> table[k].row.active && table[k].row.prefix == Some(prefix))
            && forall j | 0 <= j < k :: !(table[j].row.active && table[j].row.prefix == Some(prefix))
  {
    if table != [] {
      FirstWithPrefixIs(table[1..], prefix);
    }
  }

  lemma PrefixFindsOnlyRow(table: seq<Stored>, raw: string, prefix: string, i: nat)
    requires i < |table| && table[i].row.active
    requires forall j | 0 <= j < |table| && j != i && table[j].row.active :: table[j].row.prefix != Some(prefix)
    ensures VerifyByPrefix(table, raw, prefix) == Accepted(i) <==>
              table[i].row.prefix == Some(prefix) && table[i].row.hash == HashOf(raw) && Usable(table[i])
  {
    hide FirstWithPrefix;
    var k := FirstWithPrefix(table, prefix);
    FirstWithPrefixIs(table, prefix);
    if k < |table| {
      FirstWithPrefixIs(table[k + 1..], prefix);
    }
  }

  lemma {:induction false} ScanFindsOnlyRow(table: seq<Stored>, raw: string, i: nat, k: nat)
    requires k <= i < |table| && table[i].row.active
    requires forall j | 0 <= j < |table| && j != i && table[j].row.active :: table[j].row.hash != HashOf(raw)
    ensures VerifyByScan(table, raw, k) == Accepted(i) <==> table[i].row.hash == HashOf(raw) && Usable(table[i])
    decreases i - k
  {
    if k < i {
      ScanFindsOnlyRow(table, raw, i, k + 1);
    } else {
      ScanFindsNothing(table, raw, i + 1);
    }
  }

  lemma {:induction false} ScanFindsNothing(table: seq<Stored>, raw: string, k: nat)
    requires forall j | k <= j < |table| && table[j].row.active :: table[j].row.hash != HashOf(raw)
    ensures VerifyByScan(table, raw, k) == Rejected
    decreases |table| - k
  {
    if k < |table| {
      ScanFindsNothing(table, raw, k + 1);
    }
  }

  /** A service that presents the newest version of its key is accepted as its own row exactly when version and row
    * match, the row has not expired and its user may act; by prefix, or by scanning when the key has none. No other
    * active row may answer to the key. */
  lemma NewestKeyAuthenticatesIffInSync(w: World, slot: Slot, table: seq<Stored>, i: nat)
    requires slot in w.rows && OwnPrefix(w.rows[slot]) && w.rows[slot].active && w.rows[slot].scopes != []
    requires i < |table| && table[i].row == w.rows[slot]
    requires Newest(w, slot).Some?
    requires forall j | 0 <= j < |table| && j != i && table[j].row.active ::
               && (KeyPrefix(Newest(w, slot).value).Some? ==>
                     table[j].row.prefix != KeyPrefix(Newest(w, slot).value))
               && (KeyPrefix(Newest(w, slot).value).None? ==> table[j].row.hash != HashOf(Newest(w, slot).value))
    ensures VerifyApiKey(table, Newest(w, slot).value) == Accepted(i) <==>
              InSync(w, slot) && !table[i].expired && table[i].usable
  {
    hide KeyPrefix, VerifyByPrefix, VerifyByScan;
    var raw := Newest(w, slot).value;
    match KeyPrefix(raw)
    case Some(prefix) => PrefixFindsOnlyRow(table, raw, prefix, i);
    case None => ScanFindsOnlyRow(table, raw, i, 0);
  }
}
