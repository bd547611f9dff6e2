/** Startup migrations: any number of server and worker instances share one database and one session-scoped advisory
  * lock. Every instance is a sequence of atomic steps; any step may raise, and subprocesses may time out. */
module StartupMigrations {
  import opened AlembicOutput
  import opened Basics
  import opened PyStrings

  // ----- The advisory lock -----

  type Id = nat

  /** A PostgreSQL session-level advisory lock: re-entrant for its holder, and counted. */
  datatype Lock = Free | Held(holder: Id, count: nat)

  /** `pg_try_advisory_lock` grants. */
  predicate Grants(lock: Lock, i: Id) {
    lock == Free || lock.holder == i
  }

  function TryLock(lock: Lock, i: Id): Lock {
    match lock
    case Free => Held(i, 1)
    case Held(holder, n) => if holder == i then Held(i, n + 1) else lock
  }

  /** `pg_advisory_unlock`: only the holder's session can undo one of its grants. */
  function Unlock(lock: Lock, i: Id): Lock {
    match lock
    case Free => Free
    case Held(holder, n) => if holder != i then lock else if n <= 1 then Free else Held(i, n - 1)
  }

  /** The end of a session frees whatever it holds. */
  function Disconnect(lock: Lock, i: Id): Lock {
    match lock
    case Free => Free
    case Held(holder, _) => if holder == i then Free else lock
  }

  // ----- Instances -----

  /** How an attempt to migrate ended. */
  datatype Ending =
    | Waited
    | CurrentFailed
    | Upgraded
    | UpgradeTimedOut
    | SafeError
    | RolledBack
    | RollbackFailed
    | RollbackTimedOut

  /** Where an instance stands. `RunCurrent`, `RunUpgrade` and `RunDowngrade` mean that the subprocess is running. */
  datatype Pc =
    | Connecting
    | Polling
    | CheckingHead
    | LockAcquired
    | RunCurrent
    | RunUpgrade(pre: string)
    | RunDowngrade(target: string)
    | EarlyRelease
    | Release(ending: Ending)
    | Closing(raised: bool)
    | Done(raised: bool)

  /** `head` counts the revisions that the instance's code knows; `read` is the rollback target it parsed, if any;
    * `alive` is false once the database session is lost, which subprocesses do not notice. */
  datatype Instance = Instance(worker: bool, head: nat, read: Option<string>, pc: Pc, alive: bool)

  /** `revision` counts the revisions of the linear `history` that are applied; 0 is `base`. */
  datatype State = State(lock: Lock, revision: nat, instances: map<Id, Instance>, history: seq<string>)

  predicate Contains(text: string, word: string) {
    word <= text || (text != "" && Contains(text[1..], word))
  }

  /** `_is_safe_error` on what alembic wrote. */
  predicate IsSafeError(stderr: string) {
    Contains(stderr, "DuplicateColumn") || Contains(stderr, "DuplicateTable") || Contains(stderr, "DuplicateObject")
  }

  /** The outcome of one step. `reached` is the revision at which a broken subprocess left the database;
    * `RaisesAfter` is an exception raised once the step took effect. */
  datatype Outcome = Succeeds | Fails(reached: nat, stderr: string) | TimesOut(reached: nat) | Raises | RaisesAfter

  function Clamp(x: nat, low: nat, high: nat): nat {
    if low <= x <= high then x else low
  }

  function At(inst: Instance, pc: Pc): Instance {
    inst.(pc := pc)
  }

  /** Statements on the connection of the instance; they raise once the session is lost. */
  predicate UsesSession(pc: Pc) {
    pc == Polling || pc == EarlyRelease || pc.Release?
  }

  predicate Ended(pc: Pc) {
    pc.Closing? || pc.Done?
  }

  /** One step of `_run_migrations_sync` by instance `i`. */
  function Step(s: State, i: Id, o: Outcome): State
    requires i in s.instances && s.revision <= |s.history|
  {
    var inst := s.instances[i];
    if (o == Raises && !Ended(inst.pc)) || (!inst.alive && UsesSession(inst.pc))
    then s.(instances := s.instances[i := At(inst, Closing(true))])
    else
      var (lock, revision, next) := Effect(s.lock, s.revision, i, inst, o, s.history);
      var pc := if o == RaisesAfter && !Ended(inst.pc) then Closing(true) else next.pc;
      s.(lock := lock, revision := revision, instances := s.instances[i := next.(pc := pc)])
  }

  /** The upgrade to the head of the instance's code; an unknown newer revision makes it fail at once. */
  function Upgrade(revision: nat, head: nat): nat {
    if revision <= head then head else revision
  }

  /** Where a downgrade leads to; to an unknown or a newer revision it fails at once. */
  function Goal(history: seq<string>, target: string, revision: nat): nat {
    match Position(history, target)
    case Some(p) => if p <= revision then p else revision
    case None => revision
  }

  function Effect(lock: Lock, revision: nat, i: Id, inst: Instance, o: Outcome, history: seq<string>)
    : (Lock, nat, Instance)
    requires revision <= |history|
  {
    match inst.pc
    case Connecting => (lock, revision, At(inst, Polling))
    case Polling =>
      if Grants(lock, i) then (TryLock(lock, i), revision, At(inst, LockAcquired))
      else (lock, revision, At(inst, if o.TimesOut? then CheckingHead else Polling))
    case CheckingHead => (lock, revision, At(inst, Closing(o != Succeeds)))
    case LockAcquired => (lock, revision, At(inst, if inst.worker then Release(Waited) else RunCurrent))
    case RunCurrent =>
      if o == Succeeds && revision <= inst.head then
        var target := ParsedTarget(history, revision, inst.head);
        (lock, revision, inst.(read := Some(target), pc := RunUpgrade(target)))
      else (lock, revision, At(inst, Release(CurrentFailed)))
    case RunUpgrade(pre) =>
      (match o
       case Fails(reached, stderr) =>
         (lock, Clamp(reached, revision, inst.head),
          At(inst, if IsSafeError(stderr) then Release(SafeError) else RunDowngrade(pre)))
       case TimesOut(reached) => (lock, Clamp(reached, revision, inst.head), At(inst, Release(UpgradeTimedOut)))
       case _ => (lock, Upgrade(revision, inst.head), At(inst, Release(Upgraded))))
    case RunDowngrade(target) =>
      var goal := Goal(history, target, revision);
      (match o
       case Fails(reached, _) => (lock, Clamp(reached, goal, revision), At(inst, Release(RollbackFailed)))
       case TimesOut(reached) => (lock, Clamp(reached, goal, revision), At(inst, EarlyRelease))
       case _ => (lock, goal, At(inst, Release(RolledBack))))
    case EarlyRelease => (Unlock(lock, i), revision, At(inst, Release(RollbackTimedOut)))
    case Release(_) => (Unlock(lock, i), revision, At(inst, Closing(false)))
    case Closing(raised) => (Disconnect(lock, i), revision, At(inst, Done(raised)))
    case Done(_) => (lock, revision, inst)
  }

  /** The session of `i` breaks: the server frees its lock, the instance runs on. */
  function LoseSession(s: State, i: Id): State
    requires i in s.instances
  {
    s.(lock := Disconnect(s.lock, i), instances := s.instances[i := s.instances[i].(alive := false)])
  }

  /** Any set of instances, all about to connect, and a free lock. */
  ghost predicate Initial(s: State) {
    && s.lock == Free && IsHistory(s.history) && s.revision <= |s.history|
    && forall i | i in s.instances ::
         var inst := s.instances[i];
         inst.pc == Connecting && inst.read == None && inst.alive && inst.head <= |s.history|
  }

  ghost predicate IsRun(run: seq<State>) {
    && run != [] && Initial(run[0])
    && forall k | 0 <= k < |run| - 1 :: Follows(run[k], run[k + 1])
  }

  /** Some instance takes one step or loses its session. */
  ghost predicate Follows(s: State, t: State) {
    && s.revision <= |s.history|
    && ((exists i, o :: i in s.instances && t == Step(s, i, o))
        || (exists i :: i in s.instances && t == LoseSession(s, i)))
  }

  // ----- The invariant -----

  predicate RunsAlembic(pc: Pc) {
    pc == RunCurrent || pc.RunUpgrade? || pc.RunDowngrade?
  }

  predicate MustHold(pc: Pc) {
    RunsAlembic(pc) || pc == LockAcquired || pc == EarlyRelease
    || (pc.Release? && pc.ending != RollbackTimedOut)
  }

  predicate MayHold(pc: Pc) {
    MustHold(pc) || pc.Closing?
  }

  predicate HeldBy(lock: Lock, i: Id) {
    lock.Held? && lock.holder == i
  }

  /** What the position of one instance says about the lock. */
  predicate InstanceInv(lock: Lock, i: Id, inst: Instance) {
    && (MustHold(inst.pc) && inst.alive ==> lock == Held(i, 1))
    && (HeldBy(lock, i) ==> MayHold(inst.pc) && inst.alive && lock.count == 1)
    && (inst.worker ==> inst.read == None && !RunsAlembic(inst.pc) && inst.pc != EarlyRelease)
  }

  ghost predicate Inv(s: State) {
    && IsHistory(s.history) && s.revision <= |s.history|
    && (forall i | i in s.instances :: InstanceInv(s.lock, i, s.instances[i]) && s.instances[i].head <= |s.history|)
    && (s.lock.Held? ==> s.lock.holder in s.instances)
  }

  lemma GoalIsPosition(history: seq<string>, target: string, revision: nat)
    requires revision <= |history|
    ensures Goal(history, target, revision) <= |history|
  {
    PositionBounded(history, target);
  }

  lemma {:induction false} PositionBounded(history: seq<string>, name: string)
    ensures Position(history, name).Some? ==> Position(history, name).value <= |history|
  {
    if name != BASE && history != [] && history[|history| - 1] != name {
      PositionBounded(history[..|history| - 1], name);
    }
  }

  lemma EffectKeepsOwn(lock: Lock, revision: nat, i: Id, inst: Instance, o: Outcome, history: seq<string>)
    requires revision <= |history| && InstanceInv(lock, i, inst) && (inst.alive || !UsesSession(inst.pc))
    ensures var (lock', _, inst') := Effect(lock, revision, i, inst, o, history);
            InstanceInv(lock', i, inst') && InstanceInv(lock', i, At(inst', Closing(true)))
  {
    hide ParsedTarget, Goal, Clamp, Upgrade;
  }

  /** The stepping instance keeps its own part of the invariant. */
  lemma StepKeepsOwn(s: State, i: Id, o: Outcome)
    requires Inv(s) && i in s.instances
    ensures var t := Step(s, i, o); InstanceInv(t.lock, i, t.instances[i])
  {
    hide IsHistory, Effect;
    assert InstanceInv(s.lock, i, s.instances[i]);
    if s.instances[i].alive || !UsesSession(s.instances[i].pc) {
      EffectKeepsOwn(s.lock, s.revision, i, s.instances[i], o, s.history);
    }
  }

  lemma EffectRespectsHolder(lock: Lock, revision: nat, i: Id, inst: Instance, o: Outcome, history: seq<string>)
    requires revision <= |history|
    ensures var lock' := Effect(lock, revision, i, inst, o, history).0;
            && (lock.Held? && lock.holder != i ==> lock' == lock)
            && (lock'.Held? && lock'.holder != i ==> lock' == lock)
  {
    hide ParsedTarget, Goal, Clamp, Upgrade;
  }

  lemma EffectOnRevision(lock: Lock, revision: nat, i: Id, inst: Instance, o: Outcome, history: seq<string>)
    requires revision <= |history| && inst.head <= |history|
    ensures var (_, revision', inst') := Effect(lock, revision, i, inst, o, history);
            && revision' <= |history| && inst'.head == inst.head
            && (revision' != revision ==> inst.pc.RunUpgrade? || inst.pc.RunDowngrade?)
  {
    hide ParsedTarget, Goal;
    if inst.pc.RunDowngrade? { GoalIsPosition(history, inst.pc.target, revision); }
  }

  /** No step of an instance frees or takes the lock of another, and only a step of a running subprocess that belongs
    * to a server changes the revision, within the history. */
  lemma StepRespectsHolder(s: State, i: Id, o: Outcome)
    requires Inv(s) && i in s.instances
    ensures var t := Step(s, i, o);
            && (s.lock.Held? && s.lock.holder != i ==> t.lock == s.lock)
            && (t.lock.Held? && t.lock.holder != i ==> t.lock == s.lock)
            && (t.revision != s.revision ==>
                  RunsAlembic(s.instances[i].pc) && s.instances[i].pc != RunCurrent && !s.instances[i].worker)
            && t.revision <= |s.history| && t.history == s.history
            && t.instances.Keys == s.instances.Keys && t.instances[i].head == s.instances[i].head
            && forall j | j in s.instances && j != i :: t.instances[j] == s.instances[j]
  {
    hide IsHistory, Effect;
    assert InstanceInv(s.lock, i, s.instances[i]);
    EffectRespectsHolder(s.lock, s.revision, i, s.instances[i], o, s.history);
    EffectOnRevision(s.lock, s.revision, i, s.instances[i], o, s.history);
  }

  lemma OtherKeepsInv(lock: Lock, lock': Lock, i: Id, j: Id, inst: Instance)
    requires i != j && InstanceInv(lock, j, inst)
    requires HeldBy(lock, j) || HeldBy(lock', j) ==> lock' == lock
    ensures InstanceInv(lock', j, inst)
  {
  }

  lemma StepKeepsInv(s: State, i: Id, o: Outcome)
    requires Inv(s) && i in s.instances
    ensures Inv(Step(s, i, o))
  {
    hide Step, IsHistory, InstanceInv;
    var t := Step(s, i, o);
    StepKeepsOwn(s, i, o);
    StepRespectsHolder(s, i, o);
    forall j | j in t.instances && j != i ensures InstanceInv(t.lock, j, t.instances[j]) {
      OtherKeepsInv(s.lock, t.lock, i, j, s.instances[j]);
    }
    HolderExists(s, i, o);
  }

  lemma HolderExists(s: State, i: Id, o: Outcome)
    requires Inv(s) && i in s.instances
    ensures var t := Step(s, i, o); t.lock.Held? ==> t.lock.holder in t.instances
  {
    hide IsHistory, ParsedTarget, InstanceInv;
    StepRespectsHolder(s, i, o);
  }

  lemma LossKeepsInv(s: State, i: Id)
    requires Inv(s) && i in s.instances
    ensures Inv(LoseSession(s, i))
  {
    hide IsHistory;
    var t := LoseSession(s, i);
    forall j | j in t.instances ensures InstanceInv(t.lock, j, t.instances[j]) {
      assert InstanceInv(s.lock, j, s.instances[j]);
    }
  }

  lemma FollowsKeepsInv(s: State, t: State)
    requires Inv(s) && Follows(s, t)
    ensures Inv(t)
  {
    hide Inv, Step, LoseSession;
    if i, o :| i in s.instances && t == Step(s, i, o) {
      StepKeepsInv(s, i, o);
    } else {
      var i :| i in s.instances && t == LoseSession(s, i);
      LossKeepsInv(s, i);
    }
  }

  lemma {:induction false} RunKeepsInv(run: seq<State>, k: nat)
    requires IsRun(run) && k < |run|
    ensures Inv(run[k])
  {
    hide Follows;
    if k > 0 {
      RunKeepsInv(run, k - 1);
      assert Follows(run[k - 1], run[k - 1 + 1]);
      FollowsKeepsInv(run[k - 1], run[k]);
    }
  }

  // ----- Safety over whole runs -----

  /** At every moment of every run, an instance that runs alembic holds the lock exactly when it has not lost its
    * session, so no two that have theirs run it together. */
  lemma MigrationMutualExclusion(run: seq<State>, k: nat, i: Id, j: Id)
    requires IsRun(run) && k < |run|
    requires i in run[k].instances && j in run[k].instances
    requires RunsAlembic(run[k].instances[i].pc)
    ensures run[k].lock == Held(i, 1) <==> run[k].instances[i].alive
    ensures RunsAlembic(run[k].instances[j].pc) && run[k].instances[i].alive && run[k].instances[j].alive ==> i == j
  {
    RunKeepsInv(run, k);
    assert InstanceInv(run[k].lock, i, run[k].instances[i]);
    assert InstanceInv(run[k].lock, j, run[k].instances[j]);
  }

  /** The second unlock after a rollback timeout, like any other step, and like the loss of another session, never
    * frees a lock that another session took. */
  lemma NoStepFreesAnothersLock(run: seq<State>, k: nat, i: Id, o: Outcome)
    requires IsRun(run) && k < |run| && i in run[k].instances
    requires run[k].lock.Held? && run[k].lock.holder != i
    ensures run[k].revision <= |run[k].history|
    ensures Step(run[k], i, o).lock == run[k].lock
    ensures LoseSession(run[k], i).lock == run[k].lock
  {
    RunKeepsInv(run, k);
    StepRespectsHolder(run[k], i, o);
  }

  /** Every exit path, exceptions included, leaves the instance holding nothing. */
  lemma FinishedHoldsNothing(run: seq<State>, k: nat, i: Id)
    requires IsRun(run) && k < |run| && i in run[k].instances
    requires run[k].instances[i].pc.Done?
    ensures !HeldBy(run[k].lock, i)
  {
    RunKeepsInv(run, k);
    assert InstanceInv(run[k].lock, i, run[k].instances[i]);
  }

  /** Only a server whose upgrade or downgrade is running changes the revision, and it holds the lock unless it lost
    * its session; workers never do. */
  lemma OnlyTheHolderMigrates(run: seq<State>, k: nat, i: Id, o: Outcome)
    requires IsRun(run) && k < |run| && i in run[k].instances && run[k].revision <= |run[k].history|
    requires Step(run[k], i, o).revision != run[k].revision
    ensures !run[k].instances[i].worker
    ensures run[k].instances[i].pc.RunUpgrade? || run[k].instances[i].pc.RunDowngrade?
    ensures run[k].lock == Held(i, 1) <==> run[k].instances[i].alive
  {
    RunKeepsInv(run, k);
    StepRespectsHolder(run[k], i, o);
    MigrationMutualExclusion(run, k, i, i);
  }

  // ----- The rollback -----

  /** No session was lost under a running subprocess. */
  ghost predicate Supervised(s: State) {
    forall i | i in s.instances && RunsAlembic(s.instances[i].pc) :: s.instances[i].alive
  }

  /** What was parsed names the current revision until the upgrade ends, and no newer one until the rollback ends. */
  predicate RollbackInv(revision: nat, history: seq<string>, inst: Instance)
    requires revision <= |history|
  {
    && (inst.pc.RunUpgrade? ==> inst.read == Some(inst.pc.pre) && inst.pc.pre == Name(history, revision)
                                && revision <= inst.head)
    && (inst.pc.RunDowngrade? ==>
          && inst.read == Some(inst.pc.target)
          && exists p | 0 <= p <= revision :: inst.pc.target == Name(history, p))
    && (inst.pc == Release(RolledBack) && inst.alive ==> inst.read == Some(Name(history, revision)))
    && (inst.pc == Release(SafeError) && inst.alive ==>
          exists p | 0 <= p <= revision :: inst.read == Some(Name(history, p)))
  }

  ghost predicate AllRollbackInv(s: State)
    requires s.revision <= |s.history|
  {
    forall i | i in s.instances :: RollbackInv(s.revision, s.history, s.instances[i])
  }

  lemma DowngradeReachesGoal(revision: nat, history: seq<string>, inst: Instance) returns (p: nat)
    requires IsHistory(history) && revision <= |history| && RollbackInv(revision, history, inst)
    requires inst.pc.RunDowngrade?
    ensures p <= revision && inst.pc.target == Name(history, p) && Goal(history, inst.pc.target, revision) == p
  {
    hide IsHistory, Position, Name;
    p :| 0 <= p <= revision && inst.pc.target == Name(history, p);
    PositionOfName(history, p);
  }

  lemma EffectKeepsRollback(lock: Lock, revision: nat, i: Id, inst: Instance, o: Outcome, history: seq<string>)
    requires IsHistory(history) && revision <= |history| && inst.head <= |history|
    requires RollbackInv(revision, history, inst)
    ensures var (_, revision', inst') := Effect(lock, revision, i, inst, o, history);
            revision' <= |history| && RollbackInv(revision', history, inst')
  {
    hide IsHistory, ParsedTarget, Goal, Name;
    EffectOnRevision(lock, revision, i, inst, o, history);
    if inst.pc == RunCurrent {
      ParsedTargetIsCurrent(history, revision, inst.head);
    } else if inst.pc.RunUpgrade? {
      assert inst.pc.pre == Name(history, revision);
    } else if inst.pc.RunDowngrade? {
      var p := DowngradeReachesGoal(revision, history, inst);
    }
  }

  lemma StepKeepsOwnRollback(s: State, i: Id, o: Outcome)
    requires Inv(s) && AllRollbackInv(s) && i in s.instances
    ensures var t := Step(s, i, o);
            t.revision <= |t.history| && RollbackInv(t.revision, t.history, t.instances[i])
  {
    hide IsHistory, Effect, Name;
    assert RollbackInv(s.revision, s.history, s.instances[i]);
    EffectKeepsRollback(s.lock, s.revision, i, s.instances[i], o, s.history);
  }

  lemma StepKeepsRollback(s: State, i: Id, o: Outcome)
    requires Inv(s) && AllRollbackInv(s) && Supervised(s) && i in s.instances
    ensures Step(s, i, o).revision <= |s.history| && AllRollbackInv(Step(s, i, o))
  {
    hide Step, IsHistory, Name;
    var t := Step(s, i, o);
    StepRespectsHolder(s, i, o);
    StepKeepsOwnRollback(s, i, o);
    forall j | j in t.instances && j != i ensures RollbackInv(t.revision, t.history, t.instances[j]) {
      assert RollbackInv(s.revision, s.history, s.instances[j]);
      assert InstanceInv(s.lock, i, s.instances[i]) && InstanceInv(s.lock, j, s.instances[j]);
    }
  }

  lemma LossKeepsRollback(s: State, i: Id)
    requires Inv(s) && AllRollbackInv(s) && i in s.instances
    ensures AllRollbackInv(LoseSession(s, i))
  {
    forall j | j in s.instances ensures RollbackInv(s.revision, s.history, LoseSession(s, i).instances[j]) {
      assert RollbackInv(s.revision, s.history, s.instances[j]);
    }
  }

  lemma FollowsKeepsRollback(s: State, t: State)
    requires Inv(s) && AllRollbackInv(s) && Supervised(s) && Follows(s, t) && Inv(t)
    ensures AllRollbackInv(t)
  {
    hide Step, LoseSession, Supervised, AllRollbackInv, InstanceInv;
    if i, o :| i in s.instances && t == Step(s, i, o) {
      StepKeepsRollback(s, i, o);
    } else {
      var i :| i in s.instances && t == LoseSession(s, i);
      LossKeepsRollback(s, i);
    }
  }

  lemma {:induction false} RunKeepsRollback(run: seq<State>, k: nat)
    requires IsRun(run) && k < |run|
    requires forall m | 0 <= m < k :: Supervised(run[m])
    ensures Inv(run[k]) && AllRollbackInv(run[k])
  {
    hide Follows, Supervised;
    RunKeepsInv(run, k);
    if k > 0 {
      RunKeepsInv(run, k - 1);
      RunKeepsRollback(run, k - 1);
      assert Follows(run[k - 1], run[k - 1 + 1]) && Supervised(run[k - 1]);
      FollowsKeepsRollback(run[k - 1], run[k]);
    }
  }

  /** As long as no session is lost under a running subprocess: the revision parsed under the lock is still the current
    * one while the upgrade has not finished, a rollback that succeeds ends at exactly that revision, and it is there
    * when the lock is released. */
  lemma RollbackRestoresWhatWasRead(run: seq<State>, k: nat, i: Id)
    requires IsRun(run) && k < |run| && i in run[k].instances
    requires forall m | 0 <= m < k :: Supervised(run[m])
    ensures run[k].revision <= |run[k].history|
    ensures run[k].instances[i].pc.RunUpgrade? ==>
              run[k].instances[i].read == Some(Name(run[k].history, run[k].revision))
    ensures run[k].instances[i].pc.RunDowngrade? ==>
              var t := Step(run[k], i, Succeeds);
              t.revision <= |t.history| && run[k].instances[i].read == Some(Name(t.history, t.revision))
    ensures run[k].instances[i].pc == Release(RolledBack) && run[k].instances[i].alive ==>
              run[k].lock == Held(i, 1) && run[k].instances[i].read == Some(Name(run[k].history, run[k].revision))
  {
    hide IsRun, Supervised, IsHistory, Position, ParsedTarget;
    RunKeepsRollback(run, k);
    var s, inst := run[k], run[k].instances[i];
    assert InstanceInv(s.lock, i, inst) && RollbackInv(s.revision, s.history, inst);
    if inst.pc.RunDowngrade? {
      var p :| 0 <= p <= s.revision && inst.pc.target == Name(s.history, p);
      PositionOfName(s.history, p);
    }
  }

  // ----- What runs next -----

  /** The text holds the word. */
  ghost predicate Holds(text: string, word: string) {
    exists before, after :: text == before + word + after
  }

  lemma {:induction false} ContainedHolds(text: string, word: string)
    requires Contains(text, word)
    ensures Holds(text, word)
  {
    if word <= text {
      assert text == "" + word + text[|word|..];
    } else {
      ContainedHolds(text[1..], word);
      var before, after :| text[1..] == before + word + after;
      assert text == [text[0]] + before + word + after;
    }
  }

  lemma {:induction false} HeldIsContained(before: string, word: string, after: string, text: string)
    requires text == before + word + after
    ensures Contains(text, word)
    decreases |before|
  {
    if before == "" {
      assert text[..|word|] == word;
    } else {
      assert text[1..] == before[1..] + word + after;
      HeldIsContained(before[1..], word, after, text[1..]);
    }
  }

  lemma ContainsIffHolds(text: string, word: string)
    ensures Contains(text, word) <==> Holds(text, word)
  {
    if Contains(text, word) { ContainedHolds(text, word); }
    if Holds(text, word) {
      var before, after :| text == before + word + after;
      HeldIsContained(before, word, after, text);
    }
  }

  /** The errors after which a failed upgrade is left as it is. */
  ghost predicate KnownSafe(stderr: string) {
    Holds(stderr, "DuplicateColumn") || Holds(stderr, "DuplicateTable") || Holds(stderr, "DuplicateObject")
  }

  lemma SafeIffKnown(stderr: string)
    ensures IsSafeError(stderr) <==> KnownSafe(stderr)
  {
    hide Contains, Holds;
    ContainsIffHolds(stderr, "DuplicateColumn");
    ContainsIffHolds(stderr, "DuplicateTable");
    ContainsIffHolds(stderr, "DuplicateObject");
  }

  /** An instance whose upgrade ends runs the downgrade next exactly when the upgrade failed with an error that is not
    * known to be safe, and it downgrades to what it read before. */
  lemma RollsBackIff(run: seq<State>, k: nat, i: Id, o: Outcome)
    requires IsRun(run) && k < |run| && i in run[k].instances && run[k].instances[i].pc.RunUpgrade?
    requires forall m | 0 <= m < k :: Supervised(run[m])
    ensures run[k].revision <= |run[k].history|
    ensures var pc := Step(run[k], i, o).instances[i].pc;
            && (pc.RunDowngrade? <==> o.Fails? && !KnownSafe(o.stderr))
            && (pc.RunDowngrade? ==> run[k].instances[i].read == Some(pc.target))
            && (pc == Release(SafeError) <==> o.Fails? && KnownSafe(o.stderr))
  {
    hide IsRun, Supervised, KnownSafe, IsSafeError;
    RunKeepsRollback(run, k);
    assert RollbackInv(run[k].revision, run[k].history, run[k].instances[i]);
    if o.Fails? { SafeIffKnown(o.stderr); }
  }

  /** The positions after a safe error. */
  predicate PastSafeError(pc: Pc) {
    pc == Release(SafeError) || pc.Closing? || pc.Done?
  }

  lemma StepStaysPast(s: State, i: Id, j: Id, o: Outcome)
    requires s.revision <= |s.history| && i in s.instances && j in s.instances && PastSafeError(s.instances[j].pc)
    ensures j in Step(s, i, o).instances && PastSafeError(Step(s, i, o).instances[j].pc)
  {
    hide ParsedTarget, Goal, Clamp, Upgrade, Unlock, Disconnect, TryLock, IsSafeError;
  }

  lemma FollowsStaysPast(s: State, t: State, j: Id)
    requires Follows(s, t) && j in s.instances && PastSafeError(s.instances[j].pc)
    ensures j in t.instances && PastSafeError(t.instances[j].pc)
  {
    hide Step;
    if i, o :| i in s.instances && t == Step(s, i, o) {
      StepStaysPast(s, i, j, o);
    } else {
      var i :| i in s.instances && t == LoseSession(s, i);
    }
  }

  /** After a safe error an instance never runs a downgrade: it releases, closes and ends. While it releases, and if no
    * session was lost under a subprocess, the revision is no lower than the one it read. */
  lemma {:induction false} SafeErrorIsLeftAlone(run: seq<State>, k: nat, m: nat, i: Id, o: Outcome)
    requires IsRun(run) && k < m < |run| && i in run[k].instances && run[k].instances[i].pc.RunUpgrade?
    requires run[k].revision <= |run[k].history| && run[k + 1] == Step(run[k], i, o)
    requires o.Fails? && KnownSafe(o.stderr)
    ensures i in run[m].instances && PastSafeError(run[m].instances[i].pc)
    ensures run[m].revision <= |run[m].history|
    ensures (forall n | 0 <= n < m :: Supervised(run[n]))
            && run[m].instances[i].pc == Release(SafeError) && run[m].instances[i].alive ==>
              exists p | 0 <= p <= run[m].revision :: run[m].instances[i].read == Some(Name(run[m].history, p))
    decreases m
  {
    hide Supervised, Follows, KnownSafe, IsSafeError, Name;
    RunKeepsInv(run, m);
    if m == k + 1 {
      SafeIffKnown(o.stderr);
    } else {
      SafeErrorIsLeftAlone(run, k, m - 1, i, o);
      assert Follows(run[m - 1], run[m - 1 + 1]);
      FollowsStaysPast(run[m - 1], run[m], i);
    }
    if forall n | 0 <= n < m :: Supervised(run[n]) {
      RunKeepsRollback(run, m);
      assert RollbackInv(run[m].revision, run[m].history, run[m].instances[i]);
    }
  }

  /** What an instance with a session does after each step that does not raise: a worker never starts a subprocess, only
    * a server whose `current` succeeded upgrades, a timeout never leads to a downgrade, every finished attempt releases
    * the lock, a rollback timeout releases it twice, and giving up on the lock raises exactly when the head check
    * fails. */
  lemma WhatRunsNext(s: State, i: Id, o: Outcome)
    requires i in s.instances && s.revision <= |s.history| && s.instances[i].alive && o != Raises && o != RaisesAfter
    ensures var inst, pc := s.instances[i], Step(s, i, o).instances[i].pc;
            && (inst.pc == Connecting ==> pc == Polling)
            && (inst.pc == Polling ==>
                  pc == if s.lock == Free || s.lock.holder == i then LockAcquired
                        else if o.TimesOut? then CheckingHead else Polling)
            && (inst.pc == CheckingHead ==> pc == Closing(o != Succeeds))
            && (inst.pc == LockAcquired ==> pc == if inst.worker then Release(Waited) else RunCurrent)
            && (inst.pc == RunCurrent ==>
                  (pc.RunUpgrade? <==> o == Succeeds && s.revision <= inst.head)
                  && (!pc.RunUpgrade? ==> pc == Release(CurrentFailed)))
            && (inst.pc.RunUpgrade? && o == Succeeds ==>
                  pc == Release(Upgraded) && (s.revision <= inst.head ==> Step(s, i, o).revision == inst.head))
            && (inst.pc.RunUpgrade? && o.TimesOut? ==> pc == Release(UpgradeTimedOut))
            && (inst.pc.RunDowngrade? ==>
                  pc == if o == Succeeds then Release(RolledBack)
                        else if o.Fails? then Release(RollbackFailed) else EarlyRelease)
            && (inst.pc == EarlyRelease ==> pc == Release(RollbackTimedOut))
            && (inst.pc.Release? ==> pc == Closing(false))
            && (inst.pc.Closing? ==> pc == Done(inst.pc.raised))
  {
    hide ParsedTarget, Goal, Clamp, Unlock, Disconnect, TryLock, IsSafeError;
  }

  // ----- Runs that show the limits -----

  function Last(run: seq<State>): State
    requires run != []
  {
    run[|run| - 1]
  }

  lemma ExtendBy(run: seq<State>, next: State) returns (longer: seq<State>)
    requires IsRun(run) && Follows(Last(run), next)
    ensures IsRun(longer) && Last(longer) == next
    ensures longer == run + [next]
  {
    longer := run + [next];
    forall k | 0 <= k < |longer| - 1 ensures Follows(longer[k], longer[k + 1]) {
      assert longer[k] == run[k];
      if k < |run| - 1 { assert longer[k + 1] == run[k + 1]; }
    }
  }

  lemma Extend(run: seq<State>, i: Id, o: Outcome) returns (longer: seq<State>)
    requires IsRun(run) && i in Last(run).instances
    ensures Last(run).revision <= |Last(run).history|
    ensures IsRun(longer) && Last(longer) == Step(Last(run), i, o)
  {
    RunKeepsInv(run, |run| - 1);
    longer := ExtendBy(run, Step(Last(run), i, o));
  }

  lemma ExtendLoss(run: seq<State>, i: Id) returns (longer: seq<State>)
    requires IsRun(run) && i in Last(run).instances
    ensures IsRun(longer) && Last(longer) == LoseSession(Last(run), i)
  {
    RunKeepsInv(run, |run| - 1);
    longer := ExtendBy(run, LoseSession(Last(run), i));
  }

  const ONE_REVISION := ["a"]

  /** A server at `pc`, of two that migrate from revision 0 to 1. */
  function Server(read: Option<string>, pc: Pc, alive: bool): Instance {
    Instance(false, 1, read, pc, alive)
  }

  ghost predicate TwoServers(s: State, lock: Lock, revision: nat, i: Id, first: Instance, j: Id, second: Instance) {
    && s.lock == lock && s.revision == revision && s.history == ONE_REVISION
    && i in s.instances && s.instances[i] == first && j in s.instances && s.instances[j] == second
  }

  lemma Start(i: Id, j: Id) returns (run: seq<State>)
    requires i != j
    ensures IsRun(run)
    ensures var server := Server(None, Connecting, true); TwoServers(Last(run), Free, 0, i, server, j, server)
  {
    var server := Server(None, Connecting, true);
    assert !IsSpace('a');
    run := [State(Free, 0, map[i := server, j := server], ONE_REVISION)];
  }

  /** From a free lock at revision 0, `i` connects, takes the lock and starts to migrate. */
  lemma StartUpgrade(run: seq<State>, i: Id, j: Id, other: Instance) returns (longer: seq<State>)
    requires i != j && IsRun(run)
    requires TwoServers(Last(run), Free, 0, i, Server(None, Connecting, true), j, other)
    ensures IsRun(longer)
    ensures TwoServers(Last(longer), Held(i, 1), 0, i, Server(Some(BASE), RunUpgrade(BASE), true), j, other)
  {
    hide IsRun, Last, ParsedTarget, Name;
    longer := Extend(run, i, Succeeds);
    assert TwoServers(Last(longer), Free, 0, i, Server(None, Polling, true), j, other);
    longer := Extend(longer, i, Succeeds);
    assert TwoServers(Last(longer), Held(i, 1), 0, i, Server(None, LockAcquired, true), j, other);
    longer := Extend(longer, i, Succeeds);
    assert TwoServers(Last(longer), Held(i, 1), 0, i, Server(None, RunCurrent, true), j, other);
    BaseIsRead();
    longer := Extend(longer, i, Succeeds);
  }

  lemma BaseIsRead()
    ensures ParsedTarget(ONE_REVISION, 0, 1) == BASE
  {
    assert !IsSpace('a');
    ParsedTargetIsCurrent(ONE_REVISION, 0, 1);
  }

  lemma EmptyErrorIsNotSafe()
    ensures !IsSafeError("")
  {
  }

  /** `i` migrates, fails, times out in the rollback and releases once. */
  lemma FirstRelease(i: Id, j: Id) returns (run: seq<State>)
    requires i != j
    ensures IsRun(run)
    ensures TwoServers(Last(run), Free, 0, i, Server(Some(BASE), Release(RollbackTimedOut), true),
                       j, Server(None, Connecting, true))
  {
    hide IsRun, Last;
    var other, read := Server(None, Connecting, true), Some(BASE);
    run := Start(i, j);
    run := StartUpgrade(run, i, j, other);
    EmptyErrorIsNotSafe();
    run := Extend(run, i, Fails(0, ""));
    assert TwoServers(Last(run), Held(i, 1), 0, i, Server(read, RunDowngrade(BASE), true), j, other);
    run := Extend(run, i, TimesOut(0));
    assert TwoServers(Last(run), Held(i, 1), 0, i, Server(read, EarlyRelease, true), j, other);
    run := Extend(run, i, Succeeds);
  }

  /** The repeated unlock does meet another session's lock in some run: `i` timed out in its rollback and released,
    * `j` took the lock, and the second unlock of `i` is still to come. It leaves the lock with `j`. */
  lemma SecondUnlockMeetsAnothersLock(i: Id, j: Id) returns (run: seq<State>)
    requires i != j
    ensures IsRun(run) && i in Last(run).instances && Last(run).revision <= |Last(run).history|
    ensures Last(run).instances[i].pc == Release(RollbackTimedOut) && Last(run).lock == Held(j, 1)
    ensures Step(Last(run), i, Succeeds).lock == Held(j, 1)
  {
    hide IsRun, Last;
    run := FirstRelease(i, j);
    run := Extend(run, j, Succeeds);
    run := Extend(run, j, Succeeds);
  }

  /** The assumption that sessions outlive their subprocesses is needed: `i` loses its session during its upgrade, `j`
    * takes the freed lock and migrates too, and when the upgrade of `i` ends, what `j` read is no longer current. */
  lemma LostSessionBreaksExclusion(i: Id, j: Id) returns (run: seq<State>, longer: seq<State>)
    requires i != j
    ensures IsRun(run) && IsRun(longer)
    ensures TwoServers(Last(run), Held(j, 1), 0, i, Server(Some(BASE), RunUpgrade(BASE), false),
                       j, Server(Some(BASE), RunUpgrade(BASE), true))
    ensures TwoServers(Last(longer), Held(j, 1), 1, i, Server(Some(BASE), Release(Upgraded), false),
                       j, Server(Some(BASE), RunUpgrade(BASE), true))
  {
    hide IsRun, Last;
    run := Start(i, j);
    run := StartUpgrade(run, i, j, Server(None, Connecting, true));
    run := ExtendLoss(run, i);
    run := StartUpgrade(run, j, i, Server(Some(BASE), RunUpgrade(BASE), false));
    longer := Extend(run, i, Succeeds);
  }

  // ----- Progress -----

  /** The steps an instance can still take, apart from polling. */
  function Rank(pc: Pc): nat {
    match pc
    case Connecting => 10
    case Polling => 9
    case LockAcquired => 8
    case RunCurrent => 7
    case RunUpgrade(_) => 6
    case RunDowngrade(_) => 5
    case EarlyRelease => 4
    case Release(_) => 3
    case CheckingHead => 3
    case Closing(_) => 2
    case Done(_) => 0
  }

  lemma EffectAdvances(lock: Lock, revision: nat, i: Id, inst: Instance, o: Outcome, history: seq<string>)
    requires revision <= |history| && !inst.pc.Done?
    ensures var inst' := Effect(lock, revision, i, inst, o, history).2;
            || Rank(inst'.pc) < Rank(inst.pc)
            || (inst.pc == Polling && inst' == inst && !Grants(lock, i) && !o.TimesOut?)
  {
    hide ParsedTarget, Goal, Clamp, Upgrade, TryLock, Unlock, Disconnect;
  }

  /** Every step of an unfinished instance brings it nearer to its end, except a poll that finds the lock taken
    * before the timeout; so an instance whose polling ends, ends. */
  lemma EveryStepAdvances(s: State, i: Id, o: Outcome)
    requires i in s.instances && s.revision <= |s.history| && !s.instances[i].pc.Done?
    ensures var t := Step(s, i, o);
            Rank(t.instances[i].pc) < Rank(s.instances[i].pc)
            || (s.instances[i].pc == Polling == t.instances[i].pc && !Grants(s.lock, i) && !o.TimesOut?
                && s.instances[i].alive)
  {
    hide Effect;
    EffectAdvances(s.lock, s.revision, i, s.instances[i], o, s.history);
  }

  const LOCK_TIMEOUT_SECONDS := 1800.0
  const LOCK_RETRY_INTERVAL := 2.0

  /** The clock at the check after each poll: `start` is read first, and a sleep separates the polls. */
  ghost predicate Sleeps(start: real, clock: nat -> real) {
    clock(0) >= start && forall k: nat :: clock(k + 1) >= clock(k) + 2.0
  }

  lemma {:induction false} ClockAdvances(start: real, clock: nat -> real, k: nat)
    requires Sleeps(start, clock)
    ensures clock(k) - start >= k as real * LOCK_RETRY_INTERVAL
  {
    if k > 0 {
      ClockAdvances(start, clock, k - 1);
    }
  }

  /** `_acquire_lock`: `granted(k)` is the answer to poll `k`. It polls at most 901 times, gives up only after the
    * timeout, and stops at the first grant. */
  method AcquireLock(start: real, clock: nat -> real, granted: nat -> bool) returns (locked: bool, polls: nat)
    requires Sleeps(start, clock)
    ensures 1 <= polls <= 901
    ensures forall k | 0 <= k < polls - 1 :: !granted(k) && clock(k) - start < 1800.0
    ensures locked <==> granted(polls - 1)
    ensures !locked ==> clock(polls - 1) - start >= 1800.0
  {
    polls := 0;
    while true
      invariant polls <= 900
      invariant forall k | 0 <= k < polls :: !granted(k) && clock(k) - start < 1800.0
      decreases 900 - polls
    {
      ClockAdvances(start, clock, polls);
      polls := polls + 1;
      if granted(polls - 1) {
        return true, polls;
      }
      var elapsed := clock(polls - 1) - start;
      if elapsed >= LOCK_TIMEOUT_SECONDS {
        return false, polls;
      }
    }
  }
}
