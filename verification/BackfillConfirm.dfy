/** Estimate, then confirm: the HTTP backfill endpoint under interleaved requests. */
module BackfillConfirm {
  import opened Wrappers

  const PLAN_TTL_SECONDS := 15 * 60

  /** The estimate last shown to the operator; its token confirms it once. */
  datatype PendingEstimate = PendingEstimate(token: string, force: bool, bytes: nat, issuedAt: int)

  /** The fields the mutex guards. */
  datatype Guarded = Guarded(running: bool, pending: Option<PendingEstimate>)

  datatype Reply = AlreadyRunning | Healthy | NoMatchingEstimate | OtherMode | EstimateStarted | EstimateReady | Started

  /** The stored history as the precheck sees it. */
  datatype Precheck = Precheck(completed: bool, corrupted: bool)

  function ForceRepair(check: Precheck, force: bool): bool {
    force || check.corrupted
  }

  /** The confirmed estimate plus a tenth; at least one byte, because a cap of zero would mean no cap. */
  function ConfirmedCap(bytes: nat): nat {
    Max(bytes + bytes / 10, 1)
  }

  // ---------------------------------------------------------------- the critical sections as functions

  function DryRunEnter(g: Guarded, check: Precheck, force: bool): Reply {
    if g.running then AlreadyRunning
    else if check.completed && !check.corrupted && !force then Healthy
    else EstimateStarted
  }

  function DryRunLeave(g: Guarded, plan: PendingEstimate): (Guarded, Reply) {
    if g.running then (g, AlreadyRunning) else (g.(pending := Some(plan)), EstimateReady)
  }

  function Confirm(g: Guarded, check: Precheck, force: bool, token: string, now: int): (Guarded, Reply) {
    if g.running then (g, AlreadyRunning)
    else if check.completed && !check.corrupted && !force then (g, Healthy)
    else if g.pending.None? || token == "" || token != g.pending.value.token || now - g.pending.value.issuedAt > PLAN_TTL_SECONDS then
      (g, NoMatchingEstimate)
    else if g.pending.value.force != ForceRepair(check, force) then (g, OtherMode)
    else (Guarded(true, None), Started)
  }

  /**
    An estimate that was recorded can be confirmed once, for 15 minutes, in its
    own mode: the first confirmation starts a run, and a second one with the
    same token is refused even after that run has ended.
   */
  lemma EstimateConfirmsOnce(g: Guarded, plan: PendingEstimate, check: Precheck, force: bool, now: int, later: int)
    requires !g.running && plan.token != "" && plan.force == ForceRepair(check, force) && now <= plan.issuedAt + PLAN_TTL_SECONDS
    requires check.completed ==> check.corrupted || force
    ensures var recorded := DryRunLeave(g, plan).0;
            var (started, reply) := Confirm(recorded, check, force, plan.token, now);
            reply == Started && started.running &&
            Confirm(started, check, force, plan.token, later).1 == AlreadyRunning &&
            Confirm(started.(running := false), check, force, plan.token, later).1 == NoMatchingEstimate
  {
  }

  /** An estimate is let in exactly when confirming it at once, in its own mode, would start a run. */
  lemma EstimateStartsExactly(g: Guarded, check: Precheck, force: bool, token: string, bytes: nat, now: int)
    requires token != ""
    ensures DryRunEnter(g, check, force) == EstimateStarted <==>
              Confirm(DryRunLeave(g, PendingEstimate(token, ForceRepair(check, force), bytes, now)).0, check, force, token, now).1 == Started
    ensures DryRunEnter(g, check, force) == AlreadyRunning <==> g.running
    ensures DryRunEnter(g, check, force) == Healthy <==> !g.running && check.completed && !check.corrupted && !force
  {
  }

  /** A confirmation starts a run exactly with the token of the pending estimate, in its mode, within 15 minutes, when there is anything to run. */
  lemma ConfirmExact(g: Guarded, check: Precheck, force: bool, token: string, now: int)
    ensures var (after, reply) := Confirm(g, check, force, token, now);
            var matches := g.pending.Some? && token != "" && g.pending.value.token == token && now <= g.pending.value.issuedAt + 900;
            var wanted := !g.running && (check.completed ==> check.corrupted || force);
            && (reply == Started <==> wanted && matches && (g.pending.value.force <==> force || check.corrupted))
            && (reply == OtherMode <==> wanted && matches && !(g.pending.value.force <==> force || check.corrupted))
            && (reply == NoMatchingEstimate <==> wanted && !matches)
            && (reply == AlreadyRunning <==> g.running)
            && after == if reply == Started then Guarded(true, None) else g
  {
  }

  /** The cap is the estimate and a tenth, to the byte; an empty estimate gets one byte, since no bytes would mean no cap. */
  lemma ConfirmedCapExact(bytes: nat, billed: nat)
    ensures billed <= ConfirmedCap(bytes) <==> 10 * billed <= 11 * bytes || billed <= 1
    ensures ConfirmedCap(bytes) > 0
  {
  }

  class BackfillService {
    var backfillRunning: bool
    var pendingPlan: Option<PendingEstimate>

    function State(): Guarded
      reads this
    {
      Guarded(backfillRunning, pendingPlan)
    }

    constructor ()
      ensures State() == Guarded(false, None)
    {
      backfillRunning, pendingPlan := false, None;
    }

    method FinishEstimate(token: string, force: bool, bytes: nat, now: int) returns (reply: Reply)
      modifies this
      ensures (State(), reply) == DryRunLeave(old(State()), PendingEstimate(token, force, bytes, now))
    {
      if backfillRunning {
        return AlreadyRunning;
      }
      pendingPlan := Some(PendingEstimate(token, force, bytes, now));
      return EstimateReady;
    }

    /** On success the cap of the run that starts is returned with the reply. */
    method ConfirmRun(check: Precheck, force: bool, token: string, now: int) returns (reply: Reply, maxTotal: nat)
      modifies this
      ensures (State(), reply) == Confirm(old(State()), check, force, token, now)
      ensures reply == Started ==> maxTotal == ConfirmedCap(old(pendingPlan).value.bytes) > 0
      ensures reply != Started ==> State() == old(State())
    {
      maxTotal := 0;
      if backfillRunning {
        return AlreadyRunning, 0;
      }
      if check.completed && !check.corrupted && !force {
        return Healthy, 0;
      }
      var forceRepair := force || check.corrupted;
      if pendingPlan.None? || token == "" || token != pendingPlan.value.token || now - pendingPlan.value.issuedAt > PLAN_TTL_SECONDS {
        return NoMatchingEstimate, 0;
      }
      var plan := pendingPlan.value;
      if plan.force != forceRepair {
        return OtherMode, 0;
      }
      pendingPlan := None;
      maxTotal := Max(plan.bytes + plan.bytes / 10, 1);
      backfillRunning := true;
      return Started, maxTotal;
    }

    method RunFinished()
      modifies this`backfillRunning
      ensures State() == old(State()).(running := false)
    {
      backfillRunning := false;
    }
  }

  // ---------------------------------------------------------------- interleaved requests

  datatype RunRecord = RunRecord(token: string, force: bool, cap: nat, startedAt: int, active: bool)

  /**
    Both handlers take one mutex, but an estimate releases it while BigQuery
    answers, so other requests run in the middle of it.

    estimates: requests between the two critical sections of an estimate, with
    the mode they will record. issued: every estimate ever recorded, by token.
    runs: every run ever started.
   */
  datatype System = System(
    g: Guarded,
    now: int,
    estimates: map<nat, bool>,
    issued: map<string, PendingEstimate>,
    runs: seq<RunRecord>)

  const INITIAL := System(Guarded(false, None), 0, map[], map[], [])

  datatype Action =
    | Tick(later: int)
    | EnterDryRun(request: nat, check: Precheck, force: bool)
    | LeaveDryRun(request: nat, token: string, bytes: nat)
    | AbortDryRun(request: nat)
    | ConfirmRequest(check: Precheck, force: bool, token: string)
    | FinishRun

  /** Finishing marks every active run; the invariant shows there is at most one. */
  function Deactivate(runs: seq<RunRecord>): (r: seq<RunRecord>)
    ensures |r| == |runs|
    ensures forall i :: 0 <= i < |runs| ==> r[i] == runs[i].(active := false)
  {
    seq(|runs|, i requires 0 <= i < |runs| => runs[i].(active := false))
  }

  predicate Step(a: System, b: System, act: Action) {
    match act
    case Tick(later) => a.now <= later && b == a.(now := later)
    case EnterDryRun(request, check, force) =>
      && request !in a.estimates
      && b == if DryRunEnter(a.g, check, force) == EstimateStarted
              then a.(estimates := a.estimates[request := ForceRepair(check, force)]) else a
    case LeaveDryRun(request, token, bytes) =>
      && request in a.estimates && token != "" && token !in a.issued
      && var plan := PendingEstimate(token, a.estimates[request], bytes, a.now);
      && var (g, reply) := DryRunLeave(a.g, plan);
      && b == a.(g := g, estimates := a.estimates - {request},
                 issued := if reply == EstimateReady then a.issued[token := plan] else a.issued)
    case AbortDryRun(request) => b == a.(estimates := a.estimates - {request})
    case ConfirmRequest(check, force, token) =>
      var (g, reply) := Confirm(a.g, check, force, token, a.now);
      b == if reply == Started
           then a.(g := g, runs := a.runs + [RunRecord(token, ForceRepair(check, force), ConfirmedCap(a.g.pending.value.bytes), a.now, true)])
           else a.(g := g)
    case FinishRun => a.g.running && b == a.(g := a.g.(running := false), runs := Deactivate(a.runs))
  }

  /** A run was confirmed with the token of a recorded estimate of its own mode, at most 15 minutes old. */
  predicate Confirmed(s: System, r: RunRecord) {
    && r.token in s.issued
    && var plan := s.issued[r.token];
    && plan.force == r.force && r.cap == ConfirmedCap(plan.bytes)
    && plan.issuedAt <= r.startedAt <= plan.issuedAt + PLAN_TTL_SECONDS
  }

  predicate Disciplined(s: System) {
    && (forall i :: 0 <= i < |s.runs| ==> Confirmed(s, s.runs[i]))
    && (forall i, j :: 0 <= i < j < |s.runs| ==> s.runs[i].token != s.runs[j].token)
    && (forall i, j :: 0 <= i < j < |s.runs| && s.runs[i].active ==> !s.runs[j].active)
    && (s.g.running <==> exists i :: 0 <= i < |s.runs| && s.runs[i].active)
  }

  predicate Inv(s: System) {
    && Disciplined(s)
    && (forall t :: t in s.issued ==> s.issued[t].token == t && s.issued[t].issuedAt <= s.now)
    && (s.g.pending.Some? ==>
          && s.g.pending.value.token in s.issued && s.issued[s.g.pending.value.token] == s.g.pending.value
          && forall i :: 0 <= i < |s.runs| ==> s.runs[i].token != s.g.pending.value.token)
  }

  lemma ConfirmKeeps(a: System, b: System, check: Precheck, force: bool, token: string)
    requires Inv(a) && Step(a, b, ConfirmRequest(check, force, token))
    ensures Inv(b)
  {
    if Confirm(a.g, check, force, token, a.now).1 == Started {
      var last := |a.runs|;
      assert b.runs[last].active;
      forall i | 0 <= i < |b.runs| ensures Confirmed(b, b.runs[i]) {
        if i < last {
          assert Confirmed(a, a.runs[i]);
        }
      }
    }
  }

  lemma LeaveKeeps(a: System, b: System, request: nat, token: string, bytes: nat)
    requires Inv(a) && Step(a, b, LeaveDryRun(request, token, bytes))
    ensures Inv(b)
  {
    forall i | 0 <= i < |b.runs| ensures Confirmed(b, b.runs[i]) && b.runs[i].token != token {
      assert Confirmed(a, a.runs[i]);
    }
  }

  lemma FinishKeeps(a: System, b: System)
    requires Inv(a) && Step(a, b, FinishRun)
    ensures Inv(b)
  {
    forall i | 0 <= i < |b.runs| ensures Confirmed(b, b.runs[i]) {
      assert Confirmed(a, a.runs[i]);
    }
  }

  lemma StepKeeps(a: System, b: System, act: Action)
    requires Inv(a) && Step(a, b, act)
    ensures Inv(b)
  {
    if act.ConfirmRequest? {
      ConfirmKeeps(a, b, act.check, act.force, act.token);
    } else if act.LeaveDryRun? {
      LeaveKeeps(a, b, act.request, act.token, act.bytes);
    } else if act.FinishRun? {
      FinishKeeps(a, b);
    } else {
      forall i | 0 <= i < |b.runs| ensures Confirmed(b, b.runs[i]) {
        assert Confirmed(a, a.runs[i]);
      }
    }
  }

  /**
    Over every interleaving of requests: at most one HTTP-started run is
    active, each run used up a token of its own, and that token came from an
    estimate of the same mode at most 15 minutes old whose size caps the run.
   */
  lemma {:induction false} EveryRunWasConfirmed(trace: seq<System>, acts: seq<Action>, n: nat)
    requires |trace| == |acts| + 1 && n < |trace| && trace[0] == INITIAL
    requires forall i :: 0 <= i < |acts| ==> Step(trace[i], trace[i + 1], acts[i])
    ensures Inv(trace[n]) && Disciplined(trace[n])
  {
    if n == 0 {
    } else {
      EveryRunWasConfirmed(trace, acts, n - 1);
      StepKeeps(trace[n - 1], trace[n], acts[n - 1]);
    }
  }
}
