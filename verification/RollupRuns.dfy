/**
  Runs of the block rollup: servers on one database, each with its running flag,
  validate a batch against the store they read and commit it later.
 */
module RollupRuns {
  import opened Wrappers
  import opened BlockRollup

  /** Where one sync stands. Validated: seen is what it read, coverage first and blocks later. */
  datatype Phase = Fetching | Loading(coverage: Option<int>) | Validated(seen: Store, payload: Payload) | Stored

  datatype Sync = Sync(server: nat, phase: Phase)

  /** running: the servers whose flag is set. reached: the greatest in-window height of any committed batch. */
  datatype System = System(store: Store, reached: Option<int>, running: set<nat>, syncs: map<nat, Sync>)

  /** Start is a scheduled or a manual run; Finish ends it, whether it stored anything or failed; a crash takes the flag along. */
  datatype Action =
    | Start(id: nat, server: nat)
    | ReadCoverage(id: nat)
    | Validate(id: nat, start: int, end: int)
    | Commit(id: nat)
    | Finish(id: nat)
    | Crash(server: nat)

  const EMPTY := Store(None, map[])

  predicate Init(s: System) { s == System(EMPTY, None, {}, map[]) }

  /** A set flag turns the run away. */
  predicate StartStep(a: System, b: System, id: nat, server: nat) {
    if server in a.running then b == a
    else id !in a.syncs && b == a.(running := a.running + {server}, syncs := a.syncs[id := Sync(server, Fetching)])
  }

  function At(s: System, id: nat, phase: Phase): System
    requires id in s.syncs
  {
    s.(syncs := s.syncs[id := s.syncs[id].(phase := phase)])
  }

  ghost predicate ValidateStep(a: System, b: System, id: nat, start: int, end: int) {
    id in a.syncs && a.syncs[id].phase.Loading? && id in b.syncs && b.syncs[id].phase.Validated? &&
    var cov, p := a.syncs[id].phase.coverage, b.syncs[id].phase.payload;
    Acceptable(start, end, p.rows, a.store.blocks, cov, p.covStart, p.maxInWindow) &&
    b == At(a, id, Validated(Store(cov, a.store.blocks), p))
  }

  function Reach(reached: Option<int>, h: int): Option<int> {
    match reached
    case None => Some(h)
    case Some(r) => Some(Max(r, h))
  }

  /** The system with p committed. */
  function Committed(s: System, p: Payload): System {
    s.(store := Apply(s.store, p), reached := Reach(s.reached, p.maxInWindow))
  }

  predicate Commits(s: System, act: Action) { act.Commit? && act.id in s.syncs && s.syncs[act.id].phase.Validated? }

  predicate CommitStep(a: System, b: System, id: nat) {
    Commits(a, Commit(id)) && b == At(Committed(a, a.syncs[id].phase.payload), id, Stored)
  }

  predicate FinishStep(a: System, b: System, id: nat) {
    id in a.syncs && b == a.(running := a.running - {a.syncs[id].server}, syncs := a.syncs - {id})
  }

  predicate CrashStep(a: System, b: System, server: nat) {
    b == a.(running := a.running - {server}, syncs := map id | id in a.syncs && a.syncs[id].server != server :: a.syncs[id])
  }

  ghost predicate Step(a: System, b: System, act: Action) {
    match act
    case Start(id, server) => StartStep(a, b, id, server)
    case ReadCoverage(id) => id in a.syncs && a.syncs[id].phase.Fetching? && b == At(a, id, Loading(a.store.coverage))
    case Validate(id, start, end) => ValidateStep(a, b, id, start, end)
    case Commit(id) => CommitStep(a, b, id)
    case Finish(id) => FinishStep(a, b, id)
    case Crash(server) => CrashStep(a, b, server)
  }

  ghost predicate Run(trace: seq<System>, acts: seq<Action>) {
    |trace| == |acts| + 1 && Init(trace[0]) && forall i :: 0 <= i < |acts| ==> Step(trace[i], trace[i + 1], acts[i])
  }

  // ---------------------------------------------------------------- what every run keeps

  /** What a sync read stays below the store, and its batch was acceptable to what it read. */
  predicate PhaseOk(s: Store, phase: Phase) {
    match phase
    case Fetching => true
    case Loading(cov) => cov.Some? ==> s.coverage == cov
    case Validated(seen, p) =>
      && (seen.coverage.Some? ==> s.coverage == seen.coverage && p.covStart == seen.coverage.value)
      && seen.blocks.Keys <= s.blocks.Keys
      && Contiguous(seen.blocks.Keys + HeightsOf(p.rows), p.covStart, p.maxInWindow)
      && Distinct(p.rows) && NoConflict(p.rows, seen.blocks)
    case Stored => true
  }

  predicate Inv(s: System) {
    && (s.reached.Some? ==> s.store.coverage.Some?)
    && (forall id :: id in s.syncs ==> s.syncs[id].server in s.running && PhaseOk(s.store, s.syncs[id].phase))
    && (forall i, j :: i in s.syncs && j in s.syncs && s.syncs[i].server == s.syncs[j].server ==> i == j)
  }

  predicate Extends(s: Store, t: Store) {
    (s.coverage.Some? ==> t.coverage == s.coverage) && s.blocks.Keys <= t.blocks.Keys
  }

  lemma ApplyExtends(s: Store, p: Payload)
    ensures Extends(s, Apply(s, p)) && Apply(s, p).blocks.Keys == s.blocks.Keys + HeightsOf(p.rows)
  {
    UpsertKeys(s.blocks, p.rows);
  }

  lemma PhaseStaysOk(s: Store, t: Store, phase: Phase)
    requires PhaseOk(s, phase) && Extends(s, t)
    ensures PhaseOk(t, phase)
  {
  }

  lemma CommitKeeps(a: System, b: System, id: nat)
    requires Inv(a) && CommitStep(a, b, id)
    ensures Inv(b)
  {
    hide PhaseOk, Apply, Extends;
    ApplyExtends(a.store, a.syncs[id].phase.payload);
    forall k | k in b.syncs && k != id ensures PhaseOk(b.store, b.syncs[k].phase) {
      PhaseStaysOk(a.store, b.store, a.syncs[k].phase);
    }
    NothingToKeep(b.store);
    assert Apply(a.store, a.syncs[id].phase.payload).coverage.Some? by {
      CoverageIsSet(a.store, a.syncs[id].phase.payload);
    }
  }

  lemma NothingToKeep(s: Store)
    ensures PhaseOk(s, Stored)
  {
  }

  lemma CoverageIsSet(s: Store, p: Payload)
    ensures Apply(s, p).coverage.Some?
  {
  }

  lemma ValidateKeeps(a: System, b: System, id: nat, start: int, end: int)
    requires Inv(a) && ValidateStep(a, b, id, start, end)
    ensures Inv(b)
  {
    hide WindowBounds, NoConflict, Distinct, Contiguous;
    assert PhaseOk(b.store, b.syncs[id].phase) by {
      assert PhaseOk(a.store, a.syncs[id].phase);
    }
  }

  lemma StepKeeps(a: System, b: System, act: Action)
    requires Inv(a) && Step(a, b, act)
    ensures Inv(b)
  {
    hide ValidateStep, CommitStep;
    match act
    case Validate(id, start, end) => ValidateKeeps(a, b, id, start, end);
    case Commit(id) => CommitKeeps(a, b, id);
    case Start(_, _) =>
    case ReadCoverage(_) =>
    case Finish(_) =>
    case Crash(_) =>
  }

  lemma {:induction false} RunKeeps(trace: seq<System>, acts: seq<Action>, n: nat)
    requires Run(trace, acts) && n < |trace|
    ensures Inv(trace[n])
    decreases n
  {
    hide Inv, Step;
    if n == 0 {
      InitInv(trace[0]);
    } else {
      RunKeeps(trace, acts, n - 1);
      StepKeeps(trace[n - 1], trace[n], acts[n - 1]);
    }
  }

  /** Every flag that is set has a sync under way behind it. */
  predicate FlagsMeanSyncs(s: System) {
    forall server :: server in s.running ==> exists id :: id in s.syncs && s.syncs[id].server == server
  }

  lemma StepKeepsFlags(a: System, b: System, act: Action)
    requires Inv(a) && FlagsMeanSyncs(a) && Step(a, b, act)
    ensures FlagsMeanSyncs(b)
  {
    hide PhaseOk, Acceptable, Apply;
    forall server | server in b.running ensures exists id :: id in b.syncs && b.syncs[id].server == server {
      if server in a.running {
        var id :| id in a.syncs && a.syncs[id].server == server;
        assert id in b.syncs && b.syncs[id].server == server;
      } else {
        assert act.Start? && act.id in b.syncs && b.syncs[act.id].server == server;
      }
    }
  }

  /** A server's flag is set exactly while it has a sync, and it never has two: a run is turned away only for one that is under way. */
  lemma {:induction false} FlagIsExact(trace: seq<System>, acts: seq<Action>, n: nat)
    requires Run(trace, acts) && n < |trace|
    ensures FlagsMeanSyncs(trace[n]) && Inv(trace[n])
    decreases n
  {
    hide Inv, Step, FlagsMeanSyncs;
    RunKeeps(trace, acts, n);
    if n == 0 {
      NoFlags(trace[0]);
    } else {
      FlagIsExact(trace, acts, n - 1);
      StepKeepsFlags(trace[n - 1], trace[n], acts[n - 1]);
    }
  }

  lemma NoFlags(s: System)
    requires Init(s)
    ensures FlagsMeanSyncs(s)
  {
  }

  lemma InitInv(s: System)
    requires Init(s)
    ensures Inv(s)
  {
  }

  lemma StepExtends(a: System, b: System, act: Action)
    requires Step(a, b, act)
    ensures Extends(a.store, b.store) && (!act.Commit? ==> b.store == a.store && b.reached == a.reached)
  {
    hide Acceptable;
    if act.Commit? {
      ApplyExtends(a.store, a.syncs[act.id].phase.payload);
    }
  }

  /** Once set, the coverage start is fixed, and no height is ever lost, whatever interleaves. */
  lemma {:induction false} StoreOnlyGrows(trace: seq<System>, acts: seq<Action>, m: nat, n: nat)
    requires Run(trace, acts) && m <= n < |trace|
    ensures Extends(trace[m].store, trace[n].store)
    decreases n
  {
    hide Step;
    if m == n {
    } else {
      StoreOnlyGrows(trace, acts, m, n - 1);
      StepExtends(trace[n - 1], trace[n], acts[n - 1]);
    }
  }

  // ---------------------------------------------------------------- no holes

  /** Every height from the coverage start to the greatest accepted one is stored. */
  predicate HoleFree(s: System) {
    s.store.coverage.Some? && s.reached.Some? ==> Contiguous(s.store.blocks.Keys, s.store.coverage.value, s.reached.value)
  }

  /** The first height the store does not claim yet, as p is about to be committed. */
  function FirstUnclaimed(s: System, p: Payload): int {
    if s.store.coverage.None? then p.covStart
    else if s.reached.None? then s.store.coverage.value
    else Max(s.store.coverage.value, s.reached.value + 1)
  }

  /** From there to its own greatest height, p leaves nothing out that the store does not hold. */
  predicate Joins(s: System, p: Payload) {
    Contiguous(s.store.blocks.Keys + HeightsOf(p.rows), FirstUnclaimed(s, p), p.maxInWindow)
  }

  /** Exactly when a commit, however stale what it was validated against, leaves no hole. */
  lemma CommitHoleFreeExact(s: System, p: Payload)
    requires HoleFree(s) && (s.reached.Some? ==> s.store.coverage.Some?)
    ensures HoleFree(Committed(s, p)) <==> Joins(s, p)
  {
    hide Upsert;
    ApplyExtends(s.store, p);
  }

  lemma StepHoleFreeExact(a: System, b: System, act: Action)
    requires Inv(a) && HoleFree(a) && Step(a, b, act)
    ensures HoleFree(b) <==> (Commits(a, act) ==> Joins(a, a.syncs[act.id].phase.payload))
  {
    hide Inv, Joins, Acceptable, Apply, Contiguous;
    assert a.reached.Some? ==> a.store.coverage.Some? by {
      ReachedIsCovered(a);
    }
    if act.Commit? {
      CommitHoleFreeExact(a, a.syncs[act.id].phase.payload);
    } else {
      StepExtends(a, b, act);
    }
  }

  lemma ReachedIsCovered(s: System)
    requires Inv(s)
    ensures s.reached.Some? ==> s.store.coverage.Some?
  {
  }

  /** A run never has a hole exactly when each of its commits joined what was stored when it was made. */
  lemma {:induction false} NoHoles(trace: seq<System>, acts: seq<Action>, n: nat)
    requires Run(trace, acts) && n < |trace|
    ensures (forall i :: 0 <= i <= n ==> HoleFree(trace[i])) <==>
            (forall i :: 0 <= i < n && Commits(trace[i], acts[i]) ==> Joins(trace[i], trace[i].syncs[acts[i].id].phase.payload))
    decreases n
  {
    hide HoleFree, Joins, Step, Inv;
    if n == 0 {
      NothingStored(trace[0]);
    } else {
      NoHoles(trace, acts, n - 1);
      RunKeeps(trace, acts, n - 1);
      if HoleFree(trace[n - 1]) {
        StepHoleFreeExact(trace[n - 1], trace[n], acts[n - 1]);
      }
    }
  }

  lemma NothingStored(s: System)
    requires Init(s)
    ensures HoleFree(s)
  {
  }

  /** A batch validated before there was a coverage start meets none at its commit, or its own. */
  predicate ColdStartAgrees(s: System, phase: Phase)
    requires phase.Validated?
  {
    phase.seen.coverage.None? ==> s.store.coverage.None? || s.store.coverage == Some(phase.payload.covStart)
  }

  /** A commit joins whenever its cold start agrees; only racing cold starts can fail to. */
  lemma AgreeingStartJoins(s: System, id: nat)
    requires Inv(s) && id in s.syncs && s.syncs[id].phase.Validated? && ColdStartAgrees(s, s.syncs[id].phase)
    ensures Joins(s, s.syncs[id].phase.payload)
  {
    hide Contiguous;
    assert PhaseOk(s.store, s.syncs[id].phase);
    var Validated(seen, p) := s.syncs[id].phase;
    ContiguousWithin(seen.blocks.Keys + HeightsOf(p.rows), s.store.blocks.Keys + HeightsOf(p.rows), p.covStart, FirstUnclaimed(s, p), p.maxInWindow);
  }

  lemma ContiguousWithin(known: set<int>, more: set<int>, lo: int, higher: int, hi: int)
    requires known <= more && lo <= higher && Contiguous(known, lo, hi)
    ensures Contiguous(more, higher, hi)
  {
  }

  // ---------------------------------------------------------------- what never changes

  predicate SameMetadata(s: Store, t: Store) {
    forall h :: h in s.blocks && h in t.blocks ==> Agree(s.blocks[h], t.blocks[h])
  }

  /** An upsert leaves every stored day, bits and subsidy alone exactly when its rows agree with the store. */
  lemma UpsertMetadataExact(s: Store, p: Payload)
    requires Distinct(p.rows)
    ensures SameMetadata(s, Apply(s, p)) <==> NoConflict(p.rows, s.blocks)
  {
    hide Agree;
    var t := Apply(s, p);
    UpsertKeys(s.blocks, p.rows);
    if NoConflict(p.rows, s.blocks) {
      forall h | h in s.blocks ensures Agree(s.blocks[h], t.blocks[h]) {
        UpsertAt(s.blocks, p.rows, h);
        AgreeReflexive(s.blocks[h]);
      }
    }
    if SameMetadata(s, t) {
      forall i | 0 <= i < |p.rows| && p.rows[i].height in s.blocks ensures Agree(s.blocks[p.rows[i].height], p.rows[i]) {
        UpsertTakes(s.blocks, p.rows, i);
      }
    }
  }

  lemma AgreeReflexive(b: Block)
    ensures Agree(b, b)
  {
  }

  lemma {:induction false} UpsertTakes(blocks: Blocks, rows: seq<Block>, i: nat)
    requires Distinct(rows) && i < |rows|
    ensures rows[i].height in Upsert(blocks, rows) && Upsert(blocks, rows)[rows[i].height] == rows[i]
  {
    if i == |rows| - 1 {
    } else {
      UpsertTakes(blocks, rows[..|rows| - 1], i);
    }
  }

  lemma MetadataTransitive(s: Store, t: Store, u: Store)
    requires Extends(s, t) && SameMetadata(s, t) && SameMetadata(t, u)
    ensures SameMetadata(s, u)
  {
  }

  lemma StepMetadataExact(a: System, b: System, act: Action)
    requires Inv(a) && Step(a, b, act)
    ensures SameMetadata(a.store, b.store) <==> (Commits(a, act) ==> NoConflict(a.syncs[act.id].phase.payload.rows, a.store.blocks))
  {
    hide Agree, Upsert, Acceptable, Apply, NoConflict;
    if act.Commit? {
      assert PhaseOk(a.store, a.syncs[act.id].phase);
      UpsertMetadataExact(a.store, a.syncs[act.id].phase.payload);
    } else {
      StepExtends(a, b, act);
      forall h | h in a.store.blocks ensures Agree(a.store.blocks[h], a.store.blocks[h]) {
        AgreeReflexive(a.store.blocks[h]);
      }
    }
  }

  /** In a run no stored height's day, bits or subsidy ever changes exactly when each commit agreed with the store it was made on. */
  lemma {:induction false} MetadataNeverChanges(trace: seq<System>, acts: seq<Action>, n: nat)
    requires Run(trace, acts) && n < |trace|
    ensures (forall i, j :: 0 <= i <= j <= n ==> SameMetadata(trace[i].store, trace[j].store)) <==>
            (forall i :: 0 <= i < n && Commits(trace[i], acts[i]) ==>
               NoConflict(trace[i].syncs[acts[i].id].phase.payload.rows, trace[i].store.blocks))
    decreases n
  {
    hide SameMetadata, NoConflict, Step, Inv, Extends;
    if n == 0 {
      MetadataReflexive(trace[0].store);
    } else {
      MetadataNeverChanges(trace, acts, n - 1);
      RunKeeps(trace, acts, n - 1);
      StepMetadataExact(trace[n - 1], trace[n], acts[n - 1]);
      MetadataReflexive(trace[n].store);
      if SameMetadata(trace[n - 1].store, trace[n].store) && forall i, j :: 0 <= i <= j <= n - 1 ==> SameMetadata(trace[i].store, trace[j].store) {
        forall i | 0 <= i < n ensures SameMetadata(trace[i].store, trace[n].store) {
          StoreOnlyGrows(trace, acts, i, n - 1);
          MetadataTransitive(trace[i].store, trace[n - 1].store, trace[n].store);
        }
      }
    }
  }

  lemma MetadataReflexive(s: Store)
    ensures SameMetadata(s, s)
  {
  }

  // ---------------------------------------------------------------- one server

  /** All syncs are this server's, and what the one under way read is still what is stored. */
  predicate Alone(s: System, server: nat) {
    forall id :: id in s.syncs ==>
      s.syncs[id].server == server &&
      match s.syncs[id].phase
      case Fetching => true
      case Loading(cov) => cov == s.store.coverage
      case Validated(seen, _) => seen == s.store
      case Stored => true
  }

  lemma StepStaysAlone(a: System, b: System, act: Action, server: nat)
    requires Inv(a) && Alone(a, server) && Step(a, b, act) && (act.Start? ==> act.server == server)
    ensures Alone(b, server)
  {
    hide Acceptable, Apply, PhaseOk;
  }

  lemma {:induction false} RunStaysAlone(trace: seq<System>, acts: seq<Action>, server: nat, n: nat)
    requires Run(trace, acts) && n < |trace|
    requires forall i :: 0 <= i < |acts| && acts[i].Start? ==> acts[i].server == server
    ensures Alone(trace[n], server)
    decreases n
  {
    hide Inv, Step;
    if n == 0 {
    } else {
      RunStaysAlone(trace, acts, server, n - 1);
      RunKeeps(trace, acts, n - 1);
      StepStaysAlone(trace[n - 1], trace[n], acts[n - 1], server);
    }
  }

  lemma AloneCommits(s: System, server: nat, act: Action)
    requires Inv(s) && Alone(s, server) && Commits(s, act)
    ensures Joins(s, s.syncs[act.id].phase.payload) && NoConflict(s.syncs[act.id].phase.payload.rows, s.store.blocks)
  {
    hide Joins, NoConflict, Contiguous;
    assert PhaseOk(s.store, s.syncs[act.id].phase);
    AgreeingStartJoins(s, act.id);
  }

  /**
    With one server on the database the running flag keeps both promises, with
    no assumption on the schedule: whatever runs start, fail, are turned away or
    crash, there is never a hole, and stored metadata never changes.
   */
  lemma OneServerKeepsPromises(trace: seq<System>, acts: seq<Action>, server: nat, m: nat, n: nat)
    requires Run(trace, acts) && m <= n < |trace|
    requires forall i :: 0 <= i < |acts| && acts[i].Start? ==> acts[i].server == server
    ensures HoleFree(trace[n]) && SameMetadata(trace[m].store, trace[n].store)
  {
    hide Inv, Alone, Step, Joins, NoConflict, HoleFree, SameMetadata;
    forall i | 0 <= i < n && Commits(trace[i], acts[i])
      ensures Joins(trace[i], trace[i].syncs[acts[i].id].phase.payload)
      ensures NoConflict(trace[i].syncs[acts[i].id].phase.payload.rows, trace[i].store.blocks)
    {
      RunKeeps(trace, acts, i);
      RunStaysAlone(trace, acts, server, i);
      AloneCommits(trace[i], server, acts[i]);
    }
    NoHoles(trace, acts, n);
    MetadataNeverChanges(trace, acts, n);
  }

  // ---------------------------------------------------------------- two servers on one database

  /** Two servers that both read the empty store commit one after the other. */
  lemma Race(p: Payload, q: Payload, day0: int, day1: int) returns (trace: seq<System>, acts: seq<Action>)
    requires Acceptable(day0, day0 + 1, p.rows, map[], None, p.covStart, p.maxInWindow)
    requires Acceptable(day1, day1 + 1, q.rows, map[], None, q.covStart, q.maxInWindow)
    ensures Run(trace, acts) && |trace| == 9
    ensures forall i :: 0 <= i < 6 ==> !acts[i].Commit?
    ensures acts[6] == Commit(0) && trace[6].store == EMPTY && acts[7] == Commit(1)
    ensures 1 in trace[7].syncs && trace[7].syncs[1].phase == Validated(EMPTY, q)
    ensures trace[7].store == Apply(EMPTY, p) && trace[8].store == Apply(Apply(EMPTY, p), q)
    ensures trace[8].reached == Some(Max(p.maxInWindow, q.maxInWindow))
  {
    hide Acceptable, Apply;
    var x, y := Validated(EMPTY, p), Validated(EMPTY, q);
    var s0 := System(EMPTY, None, {}, map[]);
    var s1 := s0.(running := {0}, syncs := map[0 := Sync(0, Fetching)]);
    var s2 := s1.(running := {0, 1}, syncs := s1.syncs[1 := Sync(1, Fetching)]);
    var s3 := At(s2, 0, Loading(None));
    var s4 := At(s3, 1, Loading(None));
    var s5 := At(s4, 0, x);
    var s6 := At(s5, 1, y);
    var s7 := At(Committed(s6, p), 0, Stored);
    var s8 := At(Committed(s7, q), 1, Stored);
    trace := [s0, s1, s2, s3, s4, s5, s6, s7, s8];
    acts := [Start(0, 0), Start(1, 1), ReadCoverage(0), ReadCoverage(1), Validate(0, day0, day0 + 1), Validate(1, day1, day1 + 1), Commit(0), Commit(1)];
    assert s1.running + {1} == s2.running && s0.running + {0} == s1.running;
    assert ValidateStep(s4, s5, 0, day0, day0 + 1);
    assert ValidateStep(s5, s6, 1, day1, day1 + 1);
    assert CommitStep(s6, s7, 0) && CommitStep(s7, s8, 1);
  }

  /** Two servers that start cold on heights 10 and 20 leave a claimed hole at 15. */
  lemma RacingColdStartsLeaveAHole() returns (trace: seq<System>, acts: seq<Action>)
    ensures Run(trace, acts) && |trace| == 9
    ensures trace[8].store.coverage == Some(10) && trace[8].reached == Some(20) && 15 !in trace[8].store.blocks && !HoleFree(trace[8])
  {
    hide Acceptable, Step, Run, Upsert;
    var x, y := Block(10, 5, "17021ef0", 0, 1), Block(20, 8, "17021ef0", 0, 1);
    SingleBlock(x);
    SingleBlock(y);
    var p, q := Payload(10, [x], 10), Payload(20, [y], 20);
    trace, acts := Race(p, q, 5, 8);
    ApplyExtends(EMPTY, p);
    ApplyExtends(Apply(EMPTY, p), q);
  }

  /** Two servers that start cold on the same height but are told different bits: both cold starts agree, and the second rewrites the first. */
  lemma RacingServersChangeMetadata() returns (trace: seq<System>, acts: seq<Action>)
    ensures Run(trace, acts) && |trace| == 9
    ensures forall i :: 0 <= i < 8 && Commits(trace[i], acts[i]) ==> ColdStartAgrees(trace[i], trace[i].syncs[acts[i].id].phase)
    ensures 10 in trace[7].store.blocks && trace[7].store.blocks[10].bits == "17021ef0"
    ensures 10 in trace[8].store.blocks && trace[8].store.blocks[10].bits == "17021ef1"
  {
    hide Acceptable, Step;
    var x, y := Block(10, 5, "17021ef0", 0, 1), Block(10, 5, "17021ef1", 0, 1);
    SingleBlock(x);
    SingleBlock(y);
    trace, acts := Race(Payload(10, [x], 10), Payload(10, [y], 10), 5, 5);
    UpsertTakes(map[], [x], 0);
    UpsertTakes(trace[7].store.blocks, [y], 0);
  }

  lemma SingleBlock(b: Block)
    ensures Acceptable(b.day, b.day + 1, [b], map[], None, b.height, b.height)
  {
    var rows := [b];
    assert InWindow(rows[0], b.day, b.day + 1) && rows[0].height == b.height;
    assert WindowBounds(rows, b.day, b.day + 1, b.height, b.height);
  }
}
