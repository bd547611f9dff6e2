/** Double-checked patching before scoring: any number of threads, two flags and two locks, under any schedule. */
module ScoringPatch {
  import opened Basics

  type Thread = nat

  /** The thresholds are lowered in development and test only. */
  predicate ShouldPatch(env: string) {
    env == "development" || env == "test"
  }

  /** The pandas functions that get replaced, in order. */
  datatype Target = Concat | Merge | Join | ApplyRows

  const TARGET_COUNT := 4

  function NthTarget(n: nat): Target {
    if n == 0 then Concat else if n == 1 then Merge else if n == 2 then Join else ApplyRows
  }

  /** The next statement of a thread in `_run_scoring_sync`. */
  datatype Pc =
    | CheckPandas
    | WaitPandas
    | RecheckPandas
    | ImportPatcher
    | Replace(done: nat)
    | SetPandasFlag
    | LeavePandas
    | CheckThreshold
    | WaitThreshold
    | RecheckThreshold
    | ImportScorer
    | Decide
    | WrapInit
    | SetThresholdFlag
    | LeaveThreshold
    | RunScoring
    | Finished
    | Raised

  /** The module globals, how often each function was replaced, and the two locks. `interrupted` counts the threads that
    * raised after a first replacement; the program does not keep it. */
  datatype Shared = Shared(
    env: string,
    pandasPatched: bool,
    thresholdsPatched: bool,
    replaced: multiset<Target>,
    interrupted: nat,
    wraps: nat,
    pandasOwner: Option<Thread>,
    thresholdOwner: Option<Thread>)

  datatype State = State(shared: Shared, threads: map<Thread, Pc>)

  /** One step of thread `t` at `pc`; `raises` lets an import, a replacement or the scoring itself raise. A thread that
    * waits for a taken lock does not move, and a raised exception leaves the `with` block. */
  function Move(s: Shared, t: Thread, pc: Pc, raises: bool): (Shared, Pc) {
    match pc
    case CheckPandas => (s, if s.pandasPatched then CheckThreshold else WaitPandas)
    case WaitPandas => if s.pandasOwner.Some? then (s, pc) else (s.(pandasOwner := Some(t)), RecheckPandas)
    case RecheckPandas => (s, if s.pandasPatched then LeavePandas else ImportPatcher)
    case ImportPatcher => if raises then (s.(pandasOwner := None), Raised) else (s, Replace(0))
    case Replace(done) =>
      if done >= TARGET_COUNT then (s, SetPandasFlag)
      else if raises then
        (s.(pandasOwner := None, interrupted := if done > 0 then s.interrupted + 1 else s.interrupted), Raised)
      else (s.(replaced := s.replaced + multiset{NthTarget(done)}), Replace(done + 1))
    case SetPandasFlag => (s.(pandasPatched := true), LeavePandas)
    case LeavePandas => (s.(pandasOwner := None), CheckThreshold)
    case CheckThreshold => (s, if s.thresholdsPatched then RunScoring else WaitThreshold)
    case WaitThreshold => if s.thresholdOwner.Some? then (s, pc) else (s.(thresholdOwner := Some(t)), RecheckThreshold)
    case RecheckThreshold => (s, if s.thresholdsPatched then LeaveThreshold else ImportScorer)
    case ImportScorer => if raises then (s.(thresholdOwner := None), Raised) else (s, Decide)
    case Decide => (s, if ShouldPatch(s.env) then WrapInit else SetThresholdFlag)
    case WrapInit => (s.(wraps := s.wraps + 1), SetThresholdFlag)
    case SetThresholdFlag => (s.(thresholdsPatched := true), LeaveThreshold)
    case LeaveThreshold => (s.(thresholdOwner := None), RunScoring)
    case RunScoring => (s, if raises then Raised else Finished)
    case Finished => (s, pc)
    case Raised => (s, pc)
  }

  function Step(s: State, t: Thread, raises: bool): State
    requires t in s.threads
  {
    var (shared, pc) := Move(s.shared, t, s.threads[t], raises);
    State(shared, s.threads[t := pc])
  }

  ghost predicate Initial(s: State) {
    && !s.shared.pandasPatched && !s.shared.thresholdsPatched && s.shared.wraps == 0
    && s.shared.replaced == multiset{} && s.shared.interrupted == 0
    && s.shared.pandasOwner == None && s.shared.thresholdOwner == None
    && forall t | t in s.threads :: s.threads[t] == CheckPandas
  }

  ghost predicate Follows(s: State, s': State) {
    exists t, raises :: t in s.threads && s' == Step(s, t, raises)
  }

  ghost predicate IsRun(run: seq<State>) {
    run != [] && Initial(run[0]) && forall k | 0 <= k < |run| - 1 :: Follows(run[k], run[k + 1])
  }

  // ----- The invariant -----

  /** The thread is inside the `with` block of the pandas lock. */
  predicate InPandas(pc: Pc) {
    pc == RecheckPandas || pc == ImportPatcher || pc.Replace? || pc == SetPandasFlag || pc == LeavePandas
  }

  /** The thread is inside the `with` block of the threshold lock. */
  predicate InThreshold(pc: Pc) {
    pc == RecheckThreshold || pc == ImportScorer || pc == Decide || pc == WrapInit || pc == SetThresholdFlag
    || pc == LeaveThreshold
  }

  /** How often the targets were replaced when the current thread has done `n` of them: `Concat` once for every thread
    * that got so far, the others at most so often. */
  predicate Counts(n: nat, interrupted: nat, replaced: multiset<Target>) {
    && replaced[Concat] == interrupted + (if n > 0 then 1 else 0)
    && forall m | 0 <= m < TARGET_COUNT ::
         if m < n then 1 <= replaced[NthTarget(m)] <= interrupted + 1 else replaced[NthTarget(m)] <= interrupted
  }

  predicate PastThreshold(pc: Pc) {
    pc == RunScoring || pc == Finished
  }

  predicate PastPandas(pc: Pc) {
    pc == CheckThreshold || pc == WaitThreshold || InThreshold(pc) || PastThreshold(pc)
  }

  /** The constructor is wrapped once if it should be, and not at all otherwise. */
  predicate Decided(s: Shared) {
    s.wraps == if ShouldPatch(s.env) then 1 else 0
  }

  /** What the position of one thread says about the shared state. */
  predicate ThreadInv(s: Shared, t: Thread, pc: Pc) {
    && (InPandas(pc) <==> s.pandasOwner == Some(t))
    && (InThreshold(pc) <==> s.thresholdOwner == Some(t))
    && (pc == RecheckPandas && !s.pandasPatched ==> Counts(0, s.interrupted, s.replaced))
    && (pc == ImportPatcher ==> !s.pandasPatched && Counts(0, s.interrupted, s.replaced))
    && (pc.Replace? ==> !s.pandasPatched && pc.done <= TARGET_COUNT && Counts(pc.done, s.interrupted, s.replaced))
    && (pc == SetPandasFlag ==> !s.pandasPatched && Counts(TARGET_COUNT, s.interrupted, s.replaced))
    && (pc == LeavePandas || PastPandas(pc) ==> s.pandasPatched)
    && (pc == ImportScorer || pc == Decide ==> s.wraps == 0 && !s.thresholdsPatched)
    && (pc == WrapInit ==> s.wraps == 0 && ShouldPatch(s.env) && !s.thresholdsPatched)
    && (pc == SetThresholdFlag ==> Decided(s))
    && (pc == LeaveThreshold || PastThreshold(pc) ==> s.thresholdsPatched)
    && (s.thresholdOwner == Some(t) && !s.thresholdsPatched && s.wraps > 0 ==> pc == SetThresholdFlag)
  }

  /** What holds whoever moves: the flags tell the truth, and before the flag only an owner may have wrapped. */
  predicate SharedInv(s: Shared) {
    && (s.pandasPatched ==> Counts(TARGET_COUNT, s.interrupted, s.replaced))
    && (!s.pandasPatched && s.pandasOwner == None ==> Counts(0, s.interrupted, s.replaced))
    && (s.thresholdsPatched ==> Decided(s))
    && (!s.thresholdsPatched && s.wraps > 0 ==> s.thresholdOwner.Some? && Decided(s))
  }

  ghost predicate Inv(s: State) {
    && (forall t | t in s.threads :: ThreadInv(s.shared, t, s.threads[t]))
    && SharedInv(s.shared)
    && (s.shared.pandasOwner.Some? ==> s.shared.pandasOwner.value in s.threads)
    && (s.shared.thresholdOwner.Some? ==> s.shared.thresholdOwner.value in s.threads)
  }

  predicate BeforeThreshold(pc: Pc) {
    pc == CheckPandas || pc == WaitPandas || InPandas(pc)
  }

  /** What a move says about the parts that all threads see. */
  predicate SharedKept(s: Shared, t: Thread, s': Shared) {
    && SharedInv(s') && s'.env == s.env
    && (s'.pandasOwner == s.pandasOwner || s'.pandasOwner == None || s'.pandasOwner == Some(t))
    && (s'.thresholdOwner == s.thresholdOwner || s'.thresholdOwner == None || s'.thresholdOwner == Some(t))
  }

  lemma ReplaceKeepsShared(s: Shared, t: Thread, pc: Pc, raises: bool)
    requires SharedInv(s) && ThreadInv(s, t, pc) && pc.Replace?
    ensures SharedKept(s, t, Move(s, t, pc, raises).0)
  {
    hide Counts, NthTarget, ShouldPatch;
    if pc.done < TARGET_COUNT { GiveUp(pc.done, s.interrupted, s.replaced); }
  }

  lemma PandasKeepsShared(s: Shared, t: Thread, pc: Pc, raises: bool)
    requires SharedInv(s) && ThreadInv(s, t, pc) && BeforeThreshold(pc) && !pc.Replace?
    ensures SharedKept(s, t, Move(s, t, pc, raises).0)
  {
    hide Counts, NthTarget;
  }

  lemma ThresholdKeepsShared(s: Shared, t: Thread, pc: Pc, raises: bool)
    requires SharedInv(s) && ThreadInv(s, t, pc) && !BeforeThreshold(pc)
    ensures SharedKept(s, t, Move(s, t, pc, raises).0)
  {
    hide Counts, NthTarget;
  }

  lemma MoveKeepsShared(s: Shared, t: Thread, pc: Pc, raises: bool)
    requires SharedInv(s) && ThreadInv(s, t, pc)
    ensures SharedKept(s, t, Move(s, t, pc, raises).0)
  {
    hide Move, SharedInv, ThreadInv, SharedKept;
    if pc.Replace? {
      ReplaceKeepsShared(s, t, pc, raises);
    } else if BeforeThreshold(pc) {
      PandasKeepsShared(s, t, pc, raises);
    } else {
      ThresholdKeepsShared(s, t, pc, raises);
    }
  }

  lemma ReplaceOne(n: nat, interrupted: nat, replaced: multiset<Target>)
    requires n < TARGET_COUNT && Counts(n, interrupted, replaced)
    ensures Counts(n + 1, interrupted, replaced + multiset{NthTarget(n)})
  {
    forall m | 0 <= m < TARGET_COUNT && m != n ensures NthTarget(m) != NthTarget(n) {}
  }

  lemma GiveUp(n: nat, interrupted: nat, replaced: multiset<Target>)
    requires n < TARGET_COUNT && Counts(n, interrupted, replaced)
    ensures Counts(0, if n > 0 then interrupted + 1 else interrupted, replaced)
  {
  }

  lemma MoveKeepsOwnReplace(s: Shared, t: Thread, pc: Pc, raises: bool)
    requires SharedInv(s) && ThreadInv(s, t, pc) && pc.Replace?
    ensures var (s', pc') := Move(s, t, pc, raises); ThreadInv(s', t, pc')
  {
    hide Counts, NthTarget, Decided, SharedInv, ThreadInv;
    ReplaceState(s, t, pc);
    if pc.done >= TARGET_COUNT {
      ReplaceContinues(s, t, SetPandasFlag);
    } else if raises {
      ReplaceEnds(s.(pandasOwner := None,
                     interrupted := if pc.done > 0 then s.interrupted + 1 else s.interrupted), t);
    } else {
      ReplaceOne(pc.done, s.interrupted, s.replaced);
      ReplaceContinues(s.(replaced := s.replaced + multiset{NthTarget(pc.done)}), t, Replace(pc.done + 1));
    }
  }

  lemma ReplaceState(s: Shared, t: Thread, pc: Pc)
    requires ThreadInv(s, t, pc) && pc.Replace?
    ensures s.pandasOwner == Some(t) && s.thresholdOwner != Some(t) && !s.pandasPatched
    ensures pc.done <= TARGET_COUNT && Counts(pc.done, s.interrupted, s.replaced)
  {
    hide Counts, NthTarget, Decided;
  }

  lemma ReplaceContinues(s: Shared, t: Thread, pc: Pc)
    requires pc == SetPandasFlag || pc.Replace?
    requires s.pandasOwner == Some(t) && s.thresholdOwner != Some(t) && !s.pandasPatched
    requires pc == SetPandasFlag ==> Counts(TARGET_COUNT, s.interrupted, s.replaced)
    requires pc.Replace? ==> pc.done <= TARGET_COUNT && Counts(pc.done, s.interrupted, s.replaced)
    ensures ThreadInv(s, t, pc)
  {
    hide Counts, NthTarget, Decided;
  }

  lemma ReplaceEnds(s: Shared, t: Thread)
    requires s.pandasOwner != Some(t) && s.thresholdOwner != Some(t)
    ensures ThreadInv(s, t, Raised)
  {
    hide Counts, NthTarget, Decided;
  }

  lemma MoveKeepsOwnPandas(s: Shared, t: Thread, pc: Pc, raises: bool)
    requires SharedInv(s) && ThreadInv(s, t, pc) && BeforeThreshold(pc)
    ensures var (s', pc') := Move(s, t, pc, raises); ThreadInv(s', t, pc')
  {
    hide Decided, Counts, NthTarget;
    if pc.Replace? { MoveKeepsOwnReplace(s, t, pc, raises); }
  }

  lemma MoveKeepsOwnThreshold(s: Shared, t: Thread, pc: Pc, raises: bool)
    requires SharedInv(s) && ThreadInv(s, t, pc) && !BeforeThreshold(pc)
    ensures var (s', pc') := Move(s, t, pc, raises); ThreadInv(s', t, pc')
  {
  }

  lemma MoveKeepsOther(s: Shared, t: Thread, pc: Pc, raises: bool, u: Thread, other: Pc)
    requires SharedInv(s) && ThreadInv(s, t, pc) && ThreadInv(s, u, other) && t != u
    ensures ThreadInv(Move(s, t, pc, raises).0, u, other)
  {
    hide Counts, NthTarget;
  }

  lemma StepKeepsInv(s: State, t: Thread, raises: bool)
    requires Inv(s) && t in s.threads
    ensures Inv(Step(s, t, raises)) && Step(s, t, raises).shared.env == s.shared.env
  {
    var s' := Step(s, t, raises);
    MoveKeepsShared(s.shared, t, s.threads[t], raises);
    if BeforeThreshold(s.threads[t]) {
      MoveKeepsOwnPandas(s.shared, t, s.threads[t], raises);
    } else {
      MoveKeepsOwnThreshold(s.shared, t, s.threads[t], raises);
    }
    forall u | u in s'.threads ensures ThreadInv(s'.shared, u, s'.threads[u]) {
      if u != t { MoveKeepsOther(s.shared, t, s.threads[t], raises, u, s.threads[u]); }
    }
  }

  lemma InitialInv(s: State)
    requires Initial(s)
    ensures Inv(s)
  {
  }

  lemma FollowsKeepsInv(s: State, s': State)
    requires Inv(s) && Follows(s, s')
    ensures Inv(s') && s'.shared.env == s.shared.env
  {
    var t, raises :| t in s.threads && s' == Step(s, t, raises);
    StepKeepsInv(s, t, raises);
  }

  lemma {:induction false} RunKeepsInv(run: seq<State>, k: nat)
    requires IsRun(run) && k < |run|
    ensures Inv(run[k]) && run[k].shared.env == run[0].shared.env
  {
    if k == 0 {
      InitialInv(run[0]);
    } else {
      RunKeepsInv(run, k - 1);
      assert Follows(run[k - 1], run[k - 1 + 1]);
      FollowsKeepsInv(run[k - 1], run[k]);
    }
  }

  /** Whatever the schedule, the constructor is wrapped at most once, and never outside development and test. */
  lemma WrappedAtMostOnce(run: seq<State>, k: nat)
    requires IsRun(run) && k < |run|
    ensures run[k].shared.wraps <= 1
    ensures run[k].shared.wraps == 1 ==> run[0].shared.env == "development" || run[0].shared.env == "test"
  {
    RunKeepsInv(run, k);
  }

  /** No thread reaches the scoring before all four replacements are in place and the thresholds are decided; from
    * then on the constructor is wrapped exactly as the environment asks. */
  lemma ScoringSeesAllPatches(run: seq<State>, k: nat, t: Thread)
    requires IsRun(run) && k < |run| && t in run[k].threads
    requires run[k].threads[t] == RunScoring || run[k].threads[t] == Finished
    ensures forall target: Target :: target in run[k].shared.replaced
    ensures run[k].shared.wraps == if run[0].shared.env in {"development", "test"} then 1 else 0
  {
    RunKeepsInv(run, k);
    assert ThreadInv(run[k].shared, t, run[k].threads[t]);
    ReplacedWithin(run[k].shared);
  }

  lemma ReplacedWithin(s: Shared)
    requires Counts(TARGET_COUNT, s.interrupted, s.replaced)
    ensures forall target: Target :: 1 <= s.replaced[target] <= s.interrupted + 1
    ensures s.replaced[Concat] == s.interrupted + 1
  {
    forall target: Target ensures 1 <= s.replaced[target] <= s.interrupted + 1 {
      var n := if target == Concat then 0 else if target == Merge then 1 else if target == Join then 2 else 3;
      assert NthTarget(n) == target;
    }
  }

  /** A thread raises in the locked block after a first replacement. */
  ghost predicate Interrupts(s: State, s': State) {
    exists t :: t in s.threads && t in s'.threads && s.threads[t].Replace? && s.threads[t].done > 0
                && s'.threads[t] == Raised
  }

  lemma FollowsCounts(s: State, s': State)
    requires Follows(s, s')
    ensures s'.shared.interrupted == s.shared.interrupted + if Interrupts(s, s') then 1 else 0
  {
    hide Move;
    var t, raises :| t in s.threads && s' == Step(s, t, raises);
    MoveCounts(s.shared, t, s.threads[t], raises);
    forall u | u in s.threads && u != t ensures s'.threads[u] == s.threads[u] {}
  }

  lemma MoveCounts(s: Shared, t: Thread, pc: Pc, raises: bool)
    ensures var (s', pc') := Move(s, t, pc, raises);
            s'.interrupted == s.interrupted + if pc.Replace? && pc.done > 0 && pc' == Raised then 1 else 0
  {
    hide NthTarget, ShouldPatch;
  }

  lemma {:induction false} InterruptedIff(run: seq<State>, k: nat)
    requires IsRun(run) && k < |run|
    ensures run[k].shared.interrupted == 0 <==> forall m | 0 <= m < k :: !Interrupts(run[m], run[m + 1])
  {
    hide Follows, Interrupts;
    if k > 0 {
      InterruptedIff(run, k - 1);
      assert Follows(run[k - 1], run[k - 1 + 1]);
      FollowsCounts(run[k - 1], run[k]);
    }
  }

  /** Once the flag is set, every function was replaced, and exactly once each if and only if no thread raised in the
    * locked block after a first replacement, which makes a later thread start over. */
  lemma ReplacedOnceIff(run: seq<State>, k: nat)
    requires IsRun(run) && k < |run| && run[k].shared.pandasPatched
    ensures forall target: Target :: target in run[k].shared.replaced
    ensures (forall target: Target :: run[k].shared.replaced[target] == 1)
            <==> forall m | 0 <= m < k :: !Interrupts(run[m], run[m + 1])
  {
    RunKeepsInv(run, k);
    ReplacedWithin(run[k].shared);
    InterruptedIff(run, k);
  }

  /** The two critical sections are exclusive, and a thread that ended, even by an exception, holds no lock. */
  lemma PatchingIsExclusive(run: seq<State>, k: nat, t: Thread, u: Thread)
    requires IsRun(run) && k < |run| && t in run[k].threads && u in run[k].threads
    ensures InPandas(run[k].threads[t]) && InPandas(run[k].threads[u]) ==> t == u
    ensures InThreshold(run[k].threads[t]) && InThreshold(run[k].threads[u]) ==> t == u
    ensures run[k].threads[t] == Raised || run[k].threads[t] == Finished ==>
              run[k].shared.pandasOwner != Some(t) && run[k].shared.thresholdOwner != Some(t)
  {
    RunKeepsInv(run, k);
    assert ThreadInv(run[k].shared, t, run[k].threads[t]);
    assert ThreadInv(run[k].shared, u, run[k].threads[u]);
  }

  // ----- Nobody waits for ever -----

  /** The only threads that cannot move are the finished ones and those waiting for a taken lock. */
  lemma MoveMoves(s: Shared, t: Thread, pc: Pc)
    requires pc != Finished && pc != Raised
    requires !(pc == WaitPandas && s.pandasOwner.Some?) && !(pc == WaitThreshold && s.thresholdOwner.Some?)
    ensures Move(s, t, pc, false).1 != pc
  {
  }

  /** There is no deadlock: while some thread has not ended, a thread can move, namely the one itself or the one
    * inside the block that it waits for. */
  lemma SomeThreadMoves(run: seq<State>, k: nat, t: Thread) returns (mover: Thread)
    requires IsRun(run) && k < |run| && t in run[k].threads
    requires run[k].threads[t] != Finished && run[k].threads[t] != Raised
    ensures mover in run[k].threads && Step(run[k], mover, false).threads[mover] != run[k].threads[mover]
    ensures mover == t || InPandas(run[k].threads[mover]) || InThreshold(run[k].threads[mover])
  {
    RunKeepsInv(run, k);
    var s := run[k];
    mover := t;
    if s.threads[t] == WaitPandas && s.shared.pandasOwner.Some? {
      mover := s.shared.pandasOwner.value;
    } else if s.threads[t] == WaitThreshold && s.shared.thresholdOwner.Some? {
      mover := s.shared.thresholdOwner.value;
    }
    assert ThreadInv(s.shared, mover, s.threads[mover]);
    MoveMoves(s.shared, mover, s.threads[mover]);
  }
}
