/** The per-event-loop engine registry: two dictionaries keyed by `id(loop)` that must agree, while loops come, close
  * and are collected, and their identities are used again. */
module EngineRegistry {
  import opened Basics

  /** An event loop object. Its `id()` is its address, which a later object may get again. */
  datatype Loop = Loop(serial: nat, address: int)

  /** An engine object, with the loop it was created for. */
  datatype Engine = Engine(serial: nat, loop: Option<Loop>)

  /** A session maker object, with the engine it is bound to. */
  datatype Maker = Maker(engine: Engine, serial: nat)

  datatype Entry = Entry(engine: Engine, loop: Option<Loop>)

  /** `created` counts the engines and makers made so far; their serial numbers tell the objects apart. */
  datatype Tables = Tables(engines: map<int, Entry>, makers: map<int, Maker>, created: nat)

  function KeyOf(current: Option<Loop>): int {
    match current
    case None => 0
    case Some(loop) => loop.address
  }

  // ----- What the locked operations do to the tables -----

  predicate Stale(entry: Entry, closed: set<Loop>) {
    entry.loop.Some? && entry.loop.value in closed
  }

  /** The caller's key has an entry whose loop is not closed. */
  predicate Hit(t: Tables, current: Option<Loop>, closed: set<Loop>) {
    KeyOf(current) in t.engines && !Stale(t.engines[KeyOf(current)], closed)
  }

  function StaleKeys(engines: map<int, Entry>, closed: set<Loop>): set<int> {
    set k | k in engines && Stale(engines[k], closed)
  }

  function AfterGetEngine(t: Tables, current: Option<Loop>, closed: set<Loop>): Tables {
    if Hit(t, current, closed) then t
    else
      var stale := StaleKeys(t.engines, closed);
      Tables((t.engines - stale)[KeyOf(current) := Entry(Engine(t.created, current), current)],
             t.makers - stale, t.created + 1)
  }

  function EngineFor(t: Tables, current: Option<Loop>, closed: set<Loop>): Engine {
    AfterGetEngine(t, current, closed).engines[KeyOf(current)].engine
  }

  function AfterGetSessionMaker(t: Tables, current: Option<Loop>, closed: set<Loop>): Tables {
    var t' := AfterGetEngine(t, current, closed);
    var key := KeyOf(current);
    if key in t'.makers then t'
    else t'.(makers := t'.makers[key := Maker(t'.engines[key].engine, t'.created)], created := t'.created + 1)
  }

  /** The pops that `dispose_background_engines` makes for one key, each time it takes the lock. */
  function AfterEvict(t: Tables, key: int): Tables {
    t.(engines := t.engines - {key}, makers := t.makers - {key})
  }

  function AfterClose(t: Tables): Tables {
    t.(engines := map[], makers := map[])
  }

  /** The entry belongs to an open loop other than the caller's. */
  predicate Background(entry: Entry, current: Option<Loop>, closed: set<Loop>) {
    entry.loop.Some? && entry.loop != current && entry.loop.value !in closed
  }

  // ----- The module's own steps -----

  class Registry {
    var engines: map<int, Entry>
    var makers: map<int, Maker>
    var created: nat

    function Current(): Tables
      reads this
    {
      Tables(engines, makers, created)
    }

    constructor ()
      ensures Current() == Tables(map[], map[], 0)
    {
      engines, makers, created := map[], map[], 0;
    }

    method GetEngine(current: Option<Loop>, closed: set<Loop>) returns (engine: Engine)
      modifies this
      ensures Current() == AfterGetEngine(old(Current()), current, closed)
      ensures engine == EngineFor(old(Current()), current, closed)
    {
      var key := KeyOf(current);
      ghost var stale := StaleKeys(engines, closed);
      if key in engines {
        var entry := engines[key];
        if entry.loop == None || entry.loop.value !in closed {
          return entry.engine;
        }
        engines := engines - {key};
        makers := makers - {key};
      }
      PruneClosed(closed);
      assert engines - {key} == old(engines) - stale - {key} && makers == old(makers) - stale;
      engine := Engine(created, current);
      created := created + 1;
      engines := engines[key := Entry(engine, current)];
      assert engines == (old(engines) - stale)[key := Entry(engine, current)];
    }

    /** The loop over the stale keys. */
    method PruneClosed(closed: set<Loop>)
      modifies this`engines, this`makers
      ensures engines == old(engines) - StaleKeys(old(engines), closed)
      ensures makers == old(makers) - StaleKeys(old(engines), closed)
    {
      ghost var stale := StaleKeys(engines, closed);
      var left := StaleKeys(engines, closed);
      while left != {}
        invariant left <= stale
        invariant engines == old(engines) - (stale - left)
        invariant makers == old(makers) - (stale - left)
        decreases left
      {
        NonEmpty(left);
        var k :| k in left;
        engines := engines - {k};
        makers := makers - {k};
        left := left - {k};
      }
      assert stale - left == stale;
    }

    method GetSessionMaker(current: Option<Loop>, closed: set<Loop>) returns (maker: Maker)
      modifies this
      ensures Current() == AfterGetSessionMaker(old(Current()), current, closed)
      ensures KeyOf(current) in makers && maker == makers[KeyOf(current)]
    {
      var key := KeyOf(current);
      var engine := GetEngine(current, closed);
      if key in makers {
        return makers[key];
      }
      maker := Maker(engine, created);
      created := created + 1;
      makers := makers[key := maker];
    }

    method Evict(key: int)
      modifies this
      ensures Current() == AfterEvict(old(Current()), key)
    {
      engines := engines - {key};
      makers := makers - {key};
    }

    /** `dispose_background_engines`, when no other thread takes the lock in between. */
    method DisposeBackgroundEngines(current: Option<Loop>, closed: set<Loop>)
      modifies this
      ensures forall k :: k in engines <==>
                k in old(engines) && (old(engines)[k].loop == None || old(engines)[k].loop == current
                                      || old(engines)[k].loop.value in closed)
      ensures forall k | k in engines :: engines[k] == old(engines)[k]
      ensures forall k :: k in makers <==>
                k in old(makers)
                && (k !in old(engines) || old(engines)[k].loop == None || old(engines)[k].loop == current
                    || old(engines)[k].loop.value in closed)
    {
      var keys := set k | k in engines && Background(engines[k], current, closed);
      ghost var all := keys;
      while keys != {}
        invariant keys <= all
        invariant engines == old(engines) - (all - keys)
        invariant makers == old(makers) - (all - keys)
        decreases keys
      {
        NonEmpty(keys);
        var key :| key in keys;
        Evict(key);
        keys := keys - {key};
      }
    }

    method CloseDb()
      modifies this
      ensures Current() == AfterClose(old(Current()))
    {
      engines := map[];
      makers := map[];
    }
  }

  // ----- Histories -----

  /** The tables, the loops that exist, those of them that are closed, and the references to loops that the running
    * disposals hold. */
  datatype World = World(tables: Tables, live: set<Loop>, closed: set<Loop>, held: multiset<Loop>)

  /** The locked operations of any thread, and the life of the loops. */
  datatype Event =
    | GetEngine(current: Option<Loop>)
    | GetSessionMaker(current: Option<Loop>)
    | Evict(key: int)
    | CloseDb
    | DisposalNotes(current: Option<Loop>)
    | DisposalEnds(noted: set<Loop>)
    | LoopStarts(loop: Loop)
    | LoopCloses(loop: Loop)
    | LoopCollected(loop: Loop)

  /** The loops in the list that a disposal makes before its first eviction and keeps until its last. */
  function NotedLoops(t: Tables, current: Option<Loop>, closed: set<Loop>): set<Loop> {
    set k | k in t.engines && Background(t.engines[k], current, closed) :: t.engines[k].loop.value
  }

  predicate Referenced(t: Tables, loop: Loop) {
    exists k :: k in t.engines && t.engines[k].loop == Some(loop)
  }

  /** What can happen: callers run on an existing open loop or on none; a new loop gets an address that no existing
    * object has; only an object that neither the table nor a running disposal references can be collected. */
  predicate Possible(w: World, e: Event) {
    match e
    case GetEngine(current) => current.Some? ==> current.value in w.live && current.value !in w.closed
    case GetSessionMaker(current) => current.Some? ==> current.value in w.live && current.value !in w.closed
    case LoopStarts(loop) =>
      loop.address != 0 && loop !in w.closed && forall l | l in w.live :: l.address != loop.address
    case LoopCollected(loop) => !Referenced(w.tables, loop) && loop !in w.held
    case DisposalEnds(noted) => multiset(noted) <= w.held
    case _ => true
  }

  function Apply(w: World, e: Event): World {
    match e
    case GetEngine(current) => w.(tables := AfterGetEngine(w.tables, current, w.closed))
    case GetSessionMaker(current) => w.(tables := AfterGetSessionMaker(w.tables, current, w.closed))
    case Evict(key) => w.(tables := AfterEvict(w.tables, key))
    case CloseDb => w.(tables := AfterClose(w.tables))
    case DisposalNotes(current) => w.(held := w.held + multiset(NotedLoops(w.tables, current, w.closed)))
    case DisposalEnds(noted) => w.(held := w.held - multiset(noted))
    case LoopStarts(loop) => w.(live := w.live + {loop})
    case LoopCloses(loop) => w.(closed := w.closed + {loop})
    case LoopCollected(loop) => w.(live := w.live - {loop})
  }

  const EMPTY := World(Tables(map[], map[], 0), {}, {}, multiset{})

  function After(w: World, history: seq<Event>): World {
    if history == [] then w else Apply(After(w, history[..|history| - 1]), history[|history| - 1])
  }

  ghost predicate Feasible(w: World, history: seq<Event>) {
    forall i | 0 <= i < |history| :: Possible(After(w, history[..i]), history[i])
  }

  // ----- The invariant -----

  /** An entry sits under the identity of its own existing loop, and its engine was created for that loop. */
  predicate EntryInv(w: World, key: int, entry: Entry) {
    && entry.engine.loop == entry.loop
    && entry.engine.serial < w.tables.created
    && key == KeyOf(entry.loop)
    && (entry.loop.Some? ==> entry.loop.value in w.live)
  }

  ghost predicate Inv(w: World) {
    && (forall k | k in w.tables.engines :: EntryInv(w, k, w.tables.engines[k]))
    && (forall k | k in w.tables.makers ::
          k in w.tables.engines && w.tables.makers[k].engine == w.tables.engines[k].engine)
    && (forall l | l in w.held :: l in w.live)
    && (forall l | l in w.live :: l.address != 0)
    && (forall l, m | l in w.live && m in w.live && l.address == m.address :: l == m)
  }

  lemma GetEngineKeepsInv(w: World, current: Option<Loop>)
    requires Inv(w) && Possible(w, GetEngine(current))
    ensures Inv(Apply(w, GetEngine(current)))
    ensures EngineFor(w.tables, current, w.closed).loop == current
  {
    var key := KeyOf(current);
    if Hit(w.tables, current, w.closed) {
      assert EntryInv(w, key, w.tables.engines[key]);
    }
    var w' := Apply(w, GetEngine(current));
    forall k | k in w'.tables.engines ensures EntryInv(w', k, w'.tables.engines[k]) {
      if k in w.tables.engines { assert EntryInv(w, k, w.tables.engines[k]); }
    }
  }

  lemma ApplyKeepsInv(w: World, e: Event)
    requires Inv(w) && Possible(w, e)
    ensures Inv(Apply(w, e))
  {
    var w' := Apply(w, e);
    match e
    case GetEngine(current) =>
      GetEngineKeepsInv(w, current);
    case GetSessionMaker(current) =>
      GetEngineKeepsInv(w, current);
      var mid := Apply(w, GetEngine(current));
      forall k | k in w'.tables.engines ensures EntryInv(w', k, w'.tables.engines[k]) {
        assert EntryInv(mid, k, mid.tables.engines[k]);
      }
    case CloseDb =>
    case LoopCollected(loop) =>
      forall k | k in w'.tables.engines ensures EntryInv(w', k, w'.tables.engines[k]) {
        assert EntryInv(w, k, w.tables.engines[k]);
        assert w.tables.engines[k].loop != Some(loop);
      }
    case _ =>
      forall k | k in w'.tables.engines ensures EntryInv(w', k, w'.tables.engines[k]) {
        assert EntryInv(w, k, w.tables.engines[k]);
      }
  }

  /** After any feasible history, every cached maker is bound to the engine stored under the same key, and every
    * engine sits under the identity of the loop it was created for. */
  lemma {:induction false} RegistriesAgree(w: World, history: seq<Event>)
    requires Inv(w) && Feasible(w, history)
    ensures Inv(After(w, history))
    decreases |history|
  {
    if history != [] {
      var front, e := history[..|history| - 1], history[|history| - 1];
      forall i | 0 <= i < |front| ensures front[i] == history[i] && front[..i] == history[..i] {}
      RegistriesAgree(w, front);
      ApplyKeepsInv(After(w, front), e);
    }
  }

  lemma EmptyInv()
    ensures Inv(EMPTY)
  {
  }

  // ----- What the callers get -----

  /** At any time the caller gets the engine created for its own loop, although the table is keyed by an identity that
    * other loops may have had, and the session maker it gets is bound to that engine. */
  lemma CallerGetsOwnEngine(history: seq<Event>, current: Option<Loop>)
    requires Feasible(EMPTY, history)
    requires Possible(After(EMPTY, history), GetEngine(current))
    ensures var w := After(EMPTY, history);
            var t := AfterGetSessionMaker(w.tables, current, w.closed);
            var key := if current.None? then 0 else current.value.address;
            && EngineFor(w.tables, current, w.closed).loop == current
            && key in t.engines && t.engines[key] == Entry(EngineFor(w.tables, current, w.closed), current)
            && key in t.makers && t.makers[key].engine == EngineFor(w.tables, current, w.closed)
  {
    EmptyInv();
    RegistriesAgree(EMPTY, history);
    var w := After(EMPTY, history);
    GetEngineKeepsInv(w, current);
    ApplyKeepsInv(w, GetSessionMaker(current));
  }

  /** A miss leaves no closed loop in the tables, and two different loops never share an engine. A hit prunes
    * nothing. */
  lemma MissPrunesClosedLoops(w: World, current: Option<Loop>)
    requires Inv(w) && Possible(w, GetEngine(current))
    ensures var t := AfterGetEngine(w.tables, current, w.closed);
            var key := if current.None? then 0 else current.value.address;
            if key in w.tables.engines
               && !(w.tables.engines[key].loop.Some? && w.tables.engines[key].loop.value in w.closed)
            then t == w.tables
            else
              && (forall k | k in t.engines && t.engines[k].loop.Some? :: t.engines[k].loop.value !in w.closed)
              && (forall k | k in w.tables.engines && k != key ::
                    || (k in t.engines && t.engines[k] == w.tables.engines[k])
                    || (w.tables.engines[k].loop.Some? && w.tables.engines[k].loop.value in w.closed))
    ensures var t := AfterGetEngine(w.tables, current, w.closed);
            forall j, k | j in t.engines && k in t.engines && j != k :: t.engines[j].engine != t.engines[k].engine
  {
    GetEngineKeepsInv(w, current);
    var w' := Apply(w, GetEngine(current));
    var t := w'.tables;
    forall j, k | j in t.engines && k in t.engines && j != k ensures t.engines[j].engine != t.engines[k].engine {
      assert EntryInv(w', j, t.engines[j]) && EntryInv(w', k, t.engines[k]);
    }
  }

  /** Nothing in `e` makes the registry forget the engine of `current`. */
  predicate Keeps(e: Event, current: Option<Loop>) {
    match e
    case Evict(key) => key != KeyOf(current)
    case CloseDb => false
    case LoopCloses(loop) => current != Some(loop)
    case _ => true
  }

  /** The caller's loop has an open entry of its own. */
  predicate Cached(w: World, current: Option<Loop>) {
    Hit(w.tables, current, w.closed) && w.tables.engines[KeyOf(current)].loop == current
  }

  /** Between two calls on the same loop, other loops may come, go, close and use the registry: as long as this loop's
    * entry is not evicted, the registry is not closed and the loop itself stays open, the engine is the same. */
  lemma EngineIsStable(w: World, current: Option<Loop>, history: seq<Event>)
    requires Inv(w) && Possible(w, GetEngine(current))
    requires var w0 := Apply(w, GetEngine(current));
             Feasible(w0, history) && forall i | 0 <= i < |history| :: Keeps(history[i], current)
    ensures var w1 := After(Apply(w, GetEngine(current)), history);
            && Hit(w1.tables, current, w1.closed)
            && EngineFor(w1.tables, current, w1.closed) == EngineFor(w.tables, current, w.closed)
  {
    var w0 := Apply(w, GetEngine(current));
    GetEngineKeepsInv(w, current);
    var key := KeyOf(current);
    assert EntryInv(w0, key, w0.tables.engines[key]);
    CachedStays(w0, current, history);
  }

  /** The same holds for the session maker, which is the very object handed out before. */
  lemma MakerIsStable(w: World, current: Option<Loop>, history: seq<Event>)
    requires Inv(w) && Possible(w, GetSessionMaker(current))
    requires var w0 := Apply(w, GetSessionMaker(current));
             Feasible(w0, history) && forall i | 0 <= i < |history| :: Keeps(history[i], current)
    ensures var key := if current.None? then 0 else current.value.address;
            var w0 := Apply(w, GetSessionMaker(current));
            var w1 := Apply(After(w0, history), GetSessionMaker(current));
            key in w0.tables.makers && key in w1.tables.makers && w1.tables.makers[key] == w0.tables.makers[key]
  {
    var w0 := Apply(w, GetSessionMaker(current));
    ApplyKeepsInv(w, GetSessionMaker(current));
    GetEngineKeepsInv(w, current);
    CachedStays(w0, current, history);
  }

  /** A maker under the key is still there. */
  predicate KeepsMaker(w: World, w': World, key: int) {
    key in w.tables.makers ==> key in w'.tables.makers && w'.tables.makers[key] == w.tables.makers[key]
  }

  lemma {:induction false} CachedStays(w: World, current: Option<Loop>, history: seq<Event>)
    requires Inv(w) && Feasible(w, history) && Cached(w, current)
    requires forall i | 0 <= i < |history| :: Keeps(history[i], current)
    ensures var w' := After(w, history);
            && Cached(w', current) && w'.tables.engines[KeyOf(current)] == w.tables.engines[KeyOf(current)]
            && KeepsMaker(w, w', KeyOf(current))
    decreases |history|
  {
    if history != [] {
      var front, e := history[..|history| - 1], history[|history| - 1];
      forall i | 0 <= i < |front| ensures front[i] == history[i] && front[..i] == history[..i] {}
      CachedStays(w, current, front);
      RegistriesAgree(w, front);
      OneEventKeepsEntry(After(w, front), current, e);
    }
  }

  lemma OneEventKeepsEntry(w: World, current: Option<Loop>, e: Event)
    requires Inv(w) && Possible(w, e) && Keeps(e, current) && Cached(w, current)
    ensures var w' := Apply(w, e);
            && Cached(w', current) && w'.tables.engines[KeyOf(current)] == w.tables.engines[KeyOf(current)]
            && KeepsMaker(w, w', KeyOf(current))
  {
  }

  // ----- Disposal beside other threads -----

  /** The engine under `key`, if there is one, was created no earlier than `serial`. */
  predicate CreatedSince(w: World, key: int, serial: nat) {
    key in w.tables.engines ==> w.tables.engines[key].engine.serial >= serial
  }

  lemma ApplyKeepsSince(w: World, e: Event, key: int, serial: nat)
    requires serial <= w.tables.created && CreatedSince(w, key, serial)
    ensures serial <= Apply(w, e).tables.created && CreatedSince(Apply(w, e), key, serial)
  {
  }

  lemma {:induction false} CreatedGrows(w: World, history: seq<Event>)
    ensures w.tables.created <= After(w, history).tables.created
    decreases |history|
  {
    if history != [] {
      CreatedGrows(w, history[..|history| - 1]);
    }
  }

  /** Whatever other threads do before, between and after its evictions, `dispose_background_engines` leaves no engine
    * that it found: once the key was evicted, an engine under it was created since the disposal began. */
  lemma {:induction false} DisposedEnginesAreGone(w: World, history: seq<Event>, i: nat, key: int)
    requires i < |history| && history[i] == Evict(key)
    ensures CreatedSince(After(w, history), key, w.tables.created)
    decreases |history|
  {
    var front, e := history[..|history| - 1], history[|history| - 1];
    CreatedGrows(w, front);
    if i < |front| {
      DisposedEnginesAreGone(w, front, i, key);
      ApplyKeepsSince(After(w, front), e, key, w.tables.created);
    }
  }

  /** While a disposal that noted a loop runs, an entry under the identity of the loop is always that loop's own. */
  lemma NotedKeyIsOwn(history: seq<Event>, loop: Loop)
    requires Feasible(EMPTY, history)
    ensures var w := After(EMPTY, history);
            loop in w.held && loop.address in w.tables.engines ==> w.tables.engines[loop.address].loop == Some(loop)
  {
    EmptyInv();
    RegistriesAgree(EMPTY, history);
    var w := After(EMPTY, history);
    if loop in w.held && loop.address in w.tables.engines {
      assert EntryInv(w, loop.address, w.tables.engines[loop.address]);
    }
  }

  /** The event asks for the engine under `key`, and there is none, or one of a closed loop. */
  predicate Misses(w: World, e: Event, key: int) {
    && (e.GetEngine? || e.GetSessionMaker?)
    && KeyOf(e.current) == key && !Hit(w.tables, e.current, w.closed)
  }

  lemma MissCreates(w: World, e: Event, key: int)
    requires Misses(w, e, key)
    ensures CreatedSince(Apply(w, e), key, w.tables.created)
  {
  }

  lemma NoMissKeepsEngine(w: World, e: Event, key: int, noted: Engine)
    requires key in w.tables.engines ==> w.tables.engines[key].engine == noted
    requires !Misses(w, e, key)
    ensures key in Apply(w, e).tables.engines ==> Apply(w, e).tables.engines[key].engine == noted
  {
  }

  lemma {:induction false} WithoutMissSameEngine(w: World, history: seq<Event>, key: int)
    requires key in w.tables.engines
    requires forall i | 0 <= i < |history| :: !Misses(After(w, history[..i]), history[i], key)
    ensures var t := After(w, history).tables;
            key in t.engines ==> t.engines[key].engine == w.tables.engines[key].engine
    decreases |history|
  {
    hide Misses, Apply;
    if history != [] {
      var front, e := history[..|history| - 1], history[|history| - 1];
      forall i | 0 <= i < |front| ensures front[i] == history[i] && front[..i] == history[..i] {}
      WithoutMissSameEngine(w, front, key);
      NoMissKeepsEngine(After(w, front), e, key, w.tables.engines[key].engine);
    }
  }

  lemma {:induction false} AfterMissNewerEngine(w: World, history: seq<Event>, key: int, i: nat)
    requires i < |history| && Misses(After(w, history[..i]), history[i], key)
    ensures CreatedSince(After(w, history), key, w.tables.created)
    decreases |history|
  {
    hide Misses, Apply;
    var front, e := history[..|history| - 1], history[|history| - 1];
    CreatedGrows(w, front);
    if i < |front| {
      assert front[..i] == history[..i];
      AfterMissNewerEngine(w, front, key, i);
      ApplyKeepsSince(After(w, front), e, key, w.tables.created);
    } else {
      MissCreates(After(w, front), e, key);
    }
  }

  /** When a key that a disposal noted still has an entry at its eviction, the engine dropped is the one noted, which
    * was disposed, exactly when no access under that key missed in between. */
  lemma EvictsNotedEngineIff(w: World, history: seq<Event>, key: int)
    requires Inv(w) && key in w.tables.engines && key in After(w, history).tables.engines
    ensures After(w, history).tables.engines[key].engine == w.tables.engines[key].engine
            <==> forall i | 0 <= i < |history| :: !Misses(After(w, history[..i]), history[i], key)
  {
    hide Misses;
    assert EntryInv(w, key, w.tables.engines[key]);
    if i :| 0 <= i < |history| && Misses(After(w, history[..i]), history[i], key) {
      AfterMissNewerEngine(w, history, key, i);
    } else {
      WithoutMissSameEngine(w, history, key);
    }
  }

  // ----- Histories that show the limits -----

  lemma Play(history: seq<Event>, e: Event) returns (longer: seq<Event>)
    requires Feasible(EMPTY, history) && Possible(After(EMPTY, history), e)
    ensures longer == history + [e]
    ensures Feasible(EMPTY, longer) && After(EMPTY, longer) == Apply(After(EMPTY, history), e)
  {
    longer := history + [e];
    assert longer[..|history|] == history;
    forall i | 0 <= i < |longer| ensures Possible(After(EMPTY, longer[..i]), longer[i]) {
      if i < |history| { assert longer[..i] == history[..i] && longer[i] == history[i]; }
    }
  }

  /** Two loops are running and have their engines. */
  lemma TwoLoops(a: Loop, b: Loop) returns (history: seq<Event>)
    requires a.address != 0 && b.address != 0 && a.address != b.address
    ensures Feasible(EMPTY, history)
    ensures After(EMPTY, history) ==
            World(Tables(map[a.address := Entry(Engine(0, Some(a)), Some(a)),
                             b.address := Entry(Engine(1, Some(b)), Some(b))], map[], 2), {a, b}, {}, multiset{})
  {
    hide Feasible, After;
    history := Nothing();
    history := Play(history, LoopStarts(a));
    history := Play(history, LoopStarts(b));
    assert After(EMPTY, history) == World(Tables(map[], map[], 0), {a, b}, {}, multiset{});
    history := Play(history, GetEngine(Some(a)));
    assert After(EMPTY, history) ==
           World(Tables(map[a.address := Entry(Engine(0, Some(a)), Some(a))], map[], 1), {a, b}, {}, multiset{});
    history := Play(history, GetEngine(Some(b)));
  }

  lemma Nothing() returns (history: seq<Event>)
    ensures history == [] && Feasible(EMPTY, history) && After(EMPTY, history) == EMPTY
  {
    history := [];
  }

  /** A hit can leave a closed loop in the table: the pruning does not happen on every access. */
  lemma HitKeepsClosedLoop(a: Loop, b: Loop) returns (history: seq<Event>)
    requires a.address != 0 && b.address != 0 && a.address != b.address
    ensures Feasible(EMPTY, history) && |history| > 0 && history[|history| - 1] == GetEngine(Some(b))
    ensures var w := After(EMPTY, history);
            a.address in w.tables.engines && w.tables.engines[a.address].loop == Some(a) && a in w.closed
  {
    hide Feasible, After;
    history := TwoLoops(a, b);
    history := Play(history, LoopCloses(a));
    history := Play(history, GetEngine(Some(b)));
  }

  /** After `noted`, a disposal has just noted `a`; after `later`, its eviction drops an engine of `a` that it did not
    * note, although `a` is open. */
  ghost predicate DropsNewerEngine(noted: World, later: World, a: Loop) {
    && a in noted.held && a in later.held && a !in later.closed
    && a.address in noted.tables.engines && a.address in later.tables.engines
    && later.tables.engines[a.address].loop == Some(a)
    && later.tables.engines[a.address].engine != noted.tables.engines[a.address].engine
    && a.address !in Apply(later, Evict(a.address)).tables.engines
  }

  /** The noted loop can have a newer engine when its key is evicted, which is then dropped without being disposed: two
    * disposals noted `a`, the first one evicted it, and `a` came back before the second one did. */
  lemma EvictionCanDropANewerEngine(a: Loop) returns (history: seq<Event>)
    requires a.address != 0
    ensures |history| == 6 && Feasible(EMPTY, history) && history[3] == DisposalNotes(None)
    ensures DropsNewerEngine(After(EMPTY, history[..4]), After(EMPTY, history), a)
  {
    hide Feasible, After;
    history := Nothing();
    history := Play(history, LoopStarts(a));
    history := Play(history, GetEngine(Some(a)));
    var tables := Tables(map[a.address := Entry(Engine(0, Some(a)), Some(a))], map[], 1);
    assert After(EMPTY, history) == World(tables, {a}, {}, multiset{});
    NotesOnlyLoop(tables, a);
    history := Play(history, DisposalNotes(None));
    history := Play(history, DisposalNotes(None));
    var noted := history;
    history := Play(history, Evict(a.address));
    history := Play(history, GetEngine(Some(a)));
    assert history[..4] == noted;
  }

  lemma NotesOnlyLoop(t: Tables, a: Loop)
    requires t.engines == map[a.address := Entry(Engine(0, Some(a)), Some(a))]
    ensures NotedLoops(t, None, {}) == {a}
  {
    assert Background(t.engines[a.address], None, {});
  }
}
