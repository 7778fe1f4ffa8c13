/**
  The budget over whole runs: any number of processes reserving, attaching,
  settling and recovering against the same two tables.
 */
module BudgetRuns {
  import opened Wrappers
  import opened Calendar
  import opened BudgetLedger

  // ---------------------------------------------------------------- recoverStale

  /** What recoverStale reads of a row before it settles anything. */
  datatype Stale = Stale(id: nat, jobId: string, bytes: nat)

  /** The expired rows below n, by id. */
  function StaleRows(t: Tables, now: int, n: nat): seq<Stale> {
    if n == 0 then []
    else
      StaleRows(t, now, n - 1)
      + if n - 1 in t.rows && t.rows[n - 1].expires <= now then [Stale(n - 1, t.rows[n - 1].jobId, t.rows[n - 1].bytes)] else []
  }

  /** Recovery of one row: unattached rows cost what they reserved, attached ones what their finished job billed. */
  function RecoverOne(t: Tables, s: Stale, lookup: string -> Option<int>): Tables {
    if s.jobId == "" then Settle(t, s.id, s.bytes)
    else match lookup(s.jobId)
      case None => t
      case Some(billed) => Settle(t, s.id, billed)
  }

  /** Recovery of all of them, and whether it got to the end: the first settlement that fails ends it. */
  function RecoverAll(t: Tables, stale: seq<Stale>, lookup: string -> Option<int>, fails: nat -> bool): (Tables, bool)
    decreases |stale|
  {
    if stale == [] then (t, true)
    else if (stale[0].jobId == "" || lookup(stale[0].jobId).Some?) && fails(stale[0].id) then (t, false)
    else RecoverAll(RecoverOne(t, stale[0], lookup), stale[1..], lookup, fails)
  }

  class BtcBudget {
    const budgetBytes: int
    var rows: map<nat, Row>
    var ledger: seq<Line>
    var nextId: nat
    var lastBaseline: Option<int>

    constructor (budgetBytes: int)
      ensures this.budgetBytes == budgetBytes && Contents() == EMPTY_TABLES
    {
      this.budgetBytes := budgetBytes;
      rows, ledger, nextId, lastBaseline := map[], [], 1, None;
    }

    function Contents(): Tables
      reads this
    {
      Tables(rows, ledger, nextId, lastBaseline)
    }

    method ReserveWithOpts(q: Request, now: int) returns (r: Result<nat, Refusal>)
      modifies this
      ensures (Contents(), r) == Reserve(old(Contents()), budgetBytes, q, now)
    {
      hide MonthOf;
      if q.hardCap > 0 && q.bytes > q.hardCap {
        return Err(OverBudget);
      }
      if q.job == BASELINE_JOB {
        if BaselineActive(Contents(), now) {
          return Err(BaselineInFlight);
        }
        if q.minInterval > 0 && lastBaseline.Some? && now - lastBaseline.value < q.minInterval {
          return Err(BaselineInterval);
        }
      }
      var settled := MonthTotal(ledger, MonthOf(now));
      var reserved := SumRows(rows, Counted(now), nextId);
      var remaining := budgetBytes - settled - reserved;
      if q.bytes > remaining {
        return Err(OverBudget);
      }
      var id := nextId;
      rows := rows[id := Row(q.job, q.bytes, "", now, now + q.ttl)];
      nextId := nextId + 1;
      return Ok(id);
    }

    method AttachJob(id: nat, jobId: string)
      modifies this`rows
      ensures Contents() == Attach(old(Contents()), id, jobId)
    {
      if id in rows {
        rows := rows[id := AttachTo(rows[id], jobId)];
      }
    }

    method SettleRow(id: nat, billed: int)
      modifies this`rows, this`ledger
      ensures Contents() == Settle(old(Contents()), id, billed)
    {
      hide MonthOf;
      if id !in rows {
        return;
      }
      var r := rows[id];
      rows := rows - {id};
      if billed > 0 {
        ledger := Upsert(ledger, MonthOf(r.created), r.job, billed);
      }
    }

    /** Reads the expired rows, then settles them one transaction at a time; fails tells which settlements the database refuses. */
    method RecoverStale(now: int, lookup: string -> Option<int>, fails: nat -> bool) returns (ok: bool)
      modifies this`rows, this`ledger
      ensures (Contents(), ok) == RecoverAll(old(Contents()), StaleRows(old(Contents()), now, old(nextId)), lookup, fails)
    {
      ghost var before := Contents();
      var stale := [];
      for n := 0 to nextId
        invariant stale == StaleRows(before, now, n)
      {
        if n in rows && rows[n].expires <= now {
          stale := stale + [Stale(n, rows[n].jobId, rows[n].bytes)];
        }
      }
      var i := 0;
      while i < |stale|
        invariant 0 <= i <= |stale|
        invariant RecoverAll(Contents(), stale[i..], lookup, fails) == RecoverAll(before, stale, lookup, fails)
        invariant nextId == before.nextId && lastBaseline == before.lastBaseline
      {
        var s := stale[i];
        assert stale[i..][0] == s && stale[i..][1..] == stale[i + 1..];
        if s.jobId == "" {
          if fails(s.id) {
            return false;
          }
          SettleRow(s.id, s.bytes);
        } else {
          match lookup(s.jobId)
          case None =>
          case Some(billed) =>
            if fails(s.id) {
              return false;
            }
            SettleRow(s.id, billed);
        }
        i := i + 1;
      }
      ok := true;
    }
  }

  // ---------------------------------------------------------------- recovery leaves nothing to skip

  /** No expired row without a job is left: a reservation at `now` skips nothing. */
  predicate NothingSkipped(t: Tables, now: int) {
    forall id :: id in t.rows && t.rows[id].expires <= now ==> t.rows[id].jobId != ""
  }

  lemma {:induction false} NothingSkippedSum(t: Tables, now: int, month: int, n: nat)
    requires NothingSkipped(t, now)
    ensures SumRows(t.rows, SkippedBy(now, month), n) == 0
  {
    hide MonthOf;
    if n == 0 {
    } else {
      NothingSkippedSum(t, now, month, n - 1);
    }
  }

  lemma {:induction false} StaleRowsComplete(t: Tables, now: int, n: nat, id: nat)
    requires id < n && id in t.rows && t.rows[id].expires <= now
    ensures Stale(id, t.rows[id].jobId, t.rows[id].bytes) in StaleRows(t, now, n)
  {
    if id == n - 1 {
    } else {
      StaleRowsComplete(t, now, n - 1, id);
    }
  }

  /** Recovery only removes rows, and removes every unattached row it read if it got to the end. */
  lemma {:induction false} RecoverAllRemoves(t: Tables, stale: seq<Stale>, lookup: string -> Option<int>, fails: nat -> bool)
    ensures var (t', ok) := RecoverAll(t, stale, lookup, fails);
            && (forall id :: id in t'.rows ==> id in t.rows && t'.rows[id] == t.rows[id])
            && (ok ==> forall s :: s in stale && s.jobId == "" ==> s.id !in t'.rows)
    decreases |stale|
  {
    hide MonthOf;
    if stale == [] {
    } else {
      RecoverAllRemoves(RecoverOne(t, stale[0], lookup), stale[1..], lookup, fails);
    }
  }

  lemma RecoverLeavesNothingSkipped(t: Tables, now: int, lookup: string -> Option<int>, fails: nat -> bool)
    requires forall id :: id in t.rows ==> id < t.nextId
    ensures var (t', ok) := RecoverAll(t, StaleRows(t, now, t.nextId), lookup, fails); ok ==> NothingSkipped(t', now)
  {
    var stale := StaleRows(t, now, t.nextId);
    var (t', ok) := RecoverAll(t, stale, lookup, fails);
    RecoverAllRemoves(t, stale, lookup, fails);
    forall id | ok && id in t'.rows && t'.rows[id].expires <= now ensures t'.rows[id].jobId != "" {
      StaleRowsComplete(t, now, t.nextId, id);
    }
  }

  // ---------------------------------------------------------------- what recovery charges

  predicate Expired(t: Tables, now: int, id: nat) { id in t.rows && t.rows[id].expires <= now }

  /** What recovery owes for row id: an expired row costs what it reserved, or what its finished job billed; None is a row it leaves alone. */
  function Owes(t: Tables, now: int, lookup: string -> Option<int>, id: nat): Option<int> {
    if !Expired(t, now, id) then None
    else if t.rows[id].jobId == "" then Some(t.rows[id].bytes)
    else lookup(t.rows[id].jobId)
  }

  /** The positive amounts owed for the rows of month with ids below n. */
  function OwedIn(t: Tables, now: int, lookup: string -> Option<int>, month: int, n: nat): nat {
    if n == 0 then 0
    else
      var owes := Owes(t, now, lookup, n - 1);
      OwedIn(t, now, lookup, month, n - 1) + if owes.Some? && MonthOf(t.rows[n - 1].created) == month then Max(owes.value, 0) else 0
  }

  /** The first id below n that recovery would settle and the database refuses, n if there is none. */
  function FirstRefused(t: Tables, now: int, lookup: string -> Option<int>, fails: nat -> bool, n: nat): (k: nat)
    ensures k <= n && forall id :: 0 <= id < k && Owes(t, now, lookup, id).Some? ==> !fails(id)
    ensures k < n ==> Owes(t, now, lookup, k).Some? && fails(k)
  {
    if n == 0 then 0
    else
      var k := FirstRefused(t, now, lookup, fails, n - 1);
      if k == n - 1 && !(Owes(t, now, lookup, n - 1).Some? && fails(n - 1)) then n else k
  }

  function OneStale(t: Tables, now: int, n: nat): seq<Stale> {
    if Expired(t, now, n) then [Stale(n, t.rows[n].jobId, t.rows[n].bytes)] else []
  }

  lemma {:induction false} RecoverConcat(t: Tables, a: seq<Stale>, b: seq<Stale>, lookup: string -> Option<int>, fails: nat -> bool)
    ensures var (t', ok) := RecoverAll(t, a, lookup, fails);
            RecoverAll(t, a + b, lookup, fails) == if ok then RecoverAll(t', b, lookup, fails) else (t', false)
    decreases |a|
  {
    hide RecoverOne;
    if a == [] {
      assert a + b == b;
    } else {
      assert (a + b)[0] == a[0] && (a + b)[1..] == a[1..] + b;
      RecoverConcat(RecoverOne(t, a[0], lookup), a[1..], b, lookup, fails);
    }
  }

  /** How far recovery of the rows below n has come: everything owed for below k is settled, and nothing else has changed. */
  ghost predicate SettledBelow(t: Tables, t': Tables, now: int, lookup: string -> Option<int>, k: nat) {
    && t'.nextId == t.nextId && t'.lastBaseline == t.lastBaseline
    && (forall id :: id in t'.rows <==> id in t.rows && !(id < k && Owes(t, now, lookup, id).Some?))
    && (forall id :: id in t'.rows ==> t'.rows[id] == t.rows[id])
    && forall month :: MonthTotal(t'.ledger, month) == MonthTotal(t.ledger, month) + OwedIn(t, now, lookup, month, k)
  }

  lemma SettleOwed(t: Tables, t': Tables, now: int, lookup: string -> Option<int>, n: nat)
    requires SettledBelow(t, t', now, lookup, n) && Owes(t, now, lookup, n).Some?
    ensures SettledBelow(t, Settle(t', n, Owes(t, now, lookup, n).value), now, lookup, n + 1)
  {
    hide MonthOf, MonthTotal, Upsert, Owes;
    assert Expired(t, now, n) by {
      OwesExpired(t, now, lookup, n);
    }
    assert n in t'.rows && t'.rows[n] == t.rows[n];
    var billed, row := Owes(t, now, lookup, n).value, t.rows[n];
    forall month ensures MonthTotal(Settle(t', n, billed).ledger, month) == MonthTotal(t.ledger, month) + OwedIn(t, now, lookup, month, n + 1) {
      if billed > 0 {
        UpsertTotal(t'.ledger, MonthOf(row.created), row.job, billed, month);
      }
    }
  }

  lemma OwesExpired(t: Tables, now: int, lookup: string -> Option<int>, id: nat)
    requires Owes(t, now, lookup, id).Some?
    ensures Expired(t, now, id)
  {
  }

  lemma LeaveAlone(t: Tables, t': Tables, now: int, lookup: string -> Option<int>, n: nat)
    requires SettledBelow(t, t', now, lookup, n) && Owes(t, now, lookup, n).None?
    ensures SettledBelow(t, t', now, lookup, n + 1)
  {
    hide MonthOf, MonthTotal, Owes;
  }

  lemma RecoverRow(t: Tables, t': Tables, now: int, lookup: string -> Option<int>, fails: nat -> bool, n: nat)
    ensures RecoverAll(t', OneStale(t, now, n), lookup, fails) ==
              if Owes(t, now, lookup, n).None? then (t', true)
              else if fails(n) then (t', false)
              else (Settle(t', n, Owes(t, now, lookup, n).value), true)
  {
    hide Settle;
    if Expired(t, now, n) {
      var s := Stale(n, t.rows[n].jobId, t.rows[n].bytes);
      assert [s][1..] == [];
      assert RecoverAll(RecoverOne(t', s, lookup), [], lookup, fails) == (RecoverOne(t', s, lookup), true);
    }
  }

  lemma {:induction false} RecoveredBelow(t: Tables, now: int, lookup: string -> Option<int>, fails: nat -> bool, n: nat)
    ensures var (t', ok) := RecoverAll(t, StaleRows(t, now, n), lookup, fails);
            var k := FirstRefused(t, now, lookup, fails, n);
            (ok <==> k == n) && SettledBelow(t, t', now, lookup, k)
  {
    hide RecoverAll, SettledBelow, Owes, FirstRefused, Settle;
    if n == 0 {
      NothingRecovered(t, now, lookup, fails);
    } else {
      RecoveredBelow(t, now, lookup, fails, n - 1);
      var (t', ok) := RecoverAll(t, StaleRows(t, now, n - 1), lookup, fails);
      RecoverConcat(t, StaleRows(t, now, n - 1), OneStale(t, now, n - 1), lookup, fails);
      RecoverRow(t, t', now, lookup, fails, n - 1);
      FirstRefusedStep(t, now, lookup, fails, n);
      if ok {
        if Owes(t, now, lookup, n - 1).None? {
          LeaveAlone(t, t', now, lookup, n - 1);
        } else if !fails(n - 1) {
          SettleOwed(t, t', now, lookup, n - 1);
        }
      }
    }
  }

  lemma FirstRefusedStep(t: Tables, now: int, lookup: string -> Option<int>, fails: nat -> bool, n: nat)
    requires n > 0
    ensures FirstRefused(t, now, lookup, fails, n) ==
            var k := FirstRefused(t, now, lookup, fails, n - 1);
            if k == n - 1 && !(Owes(t, now, lookup, n - 1).Some? && fails(n - 1)) then n else k
  {
  }

  lemma NothingRecovered(t: Tables, now: int, lookup: string -> Option<int>, fails: nat -> bool)
    ensures RecoverAll(t, StaleRows(t, now, 0), lookup, fails) == (t, true) && FirstRefused(t, now, lookup, fails, 0) == 0
    ensures SettledBelow(t, t, now, lookup, 0)
  {
    hide MonthOf, MonthTotal;
  }

  /**
    What a recovery does, to the byte: it reports ok exactly when the database
    refuses none of the settlements owed; until the first refusal it removes
    each row it owes something for, and adds that to the row's creation month;
    unexpired rows and rows whose job is not done stay as they are.
   */
  lemma RecoveryCharges(t: Tables, now: int, lookup: string -> Option<int>, fails: nat -> bool, month: int)
    requires forall id :: id in t.rows ==> id < t.nextId
    ensures var (t', ok) := RecoverAll(t, StaleRows(t, now, t.nextId), lookup, fails);
            var k := FirstRefused(t, now, lookup, fails, t.nextId);
            && (ok <==> forall id :: id in t.rows && Owes(t, now, lookup, id).Some? ==> !fails(id))
            && (forall id :: id in t'.rows <==> id in t.rows && !(id < k && Owes(t, now, lookup, id).Some?))
            && (forall id :: id in t'.rows ==> t'.rows[id] == t.rows[id])
            && MonthTotal(t'.ledger, month) == MonthTotal(t.ledger, month) + OwedIn(t, now, lookup, month, k)
  {
    hide RecoverAll, MonthOf, MonthTotal, FirstRefused;
    RecoveredBelow(t, now, lookup, fails, t.nextId);
  }

  // ---------------------------------------------------------------- the interleaved system

  datatype Charge = Charge(month: int, billed: nat)

  /**
    born: every reservation ever made, as created. charges: every settled
    reservation and what it was charged. reading: per process, the rows a
    recoverStale under way has read and not yet handled.
   */
  datatype System = System(
    t: Tables,
    now: int,
    born: map<nat, Row>,
    charges: map<nat, Charge>,
    reading: map<nat, seq<Stale>>)

  const INITIAL := System(EMPTY_TABLES, 0, map[], map[], map[])

  datatype Action =
    | Tick(later: int)
    | AReserve(q: Request)
    | AAttach(id: nat, jobId: string)
    | ASettle(id: nat, billed: int)
    | AReadStale(process: nat)
    | ARecover(process: nat, found: Option<int>)
    | ABaselineDone

  function ChargesAfter(s: System, id: nat, billed: int): map<nat, Charge> {
    if id in s.t.rows then s.charges[id := Charge(MonthOf(s.t.rows[id].created), Max(billed, 0))] else s.charges
  }

  /** The settlement an action performs, if any. */
  function SettlementOf(s: System, act: Action): Option<(nat, int)> {
    match act
    case ASettle(id, billed) => Some((id, billed))
    case ARecover(p, found) =>
      if p !in s.reading || s.reading[p] == [] then None
      else
        var r := s.reading[p][0];
        if r.jobId == "" then Some((r.id, r.bytes))
        else if found.Some? then Some((r.id, found.value)) else None
    case _ => None
  }

  function ReadingAfter(s: System, act: Action): map<nat, seq<Stale>> {
    match act
    case AReadStale(p) => s.reading[p := StaleRows(s.t, s.now, s.t.nextId)]
    case ARecover(p, _) => if p in s.reading && s.reading[p] != [] then s.reading[p := s.reading[p][1..]] else s.reading
    case _ => s.reading
  }

  function Next(s: System, budget: int, act: Action): System {
    match act
    case Tick(later) => s.(now := Max(s.now, later))
    case AReserve(q) =>
      var (t, r) := Reserve(s.t, budget, q, s.now);
      s.(t := t, born := if r.Ok? then s.born[r.value := t.rows[r.value]] else s.born)
    case AAttach(id, jobId) => s.(t := Attach(s.t, id, jobId))
    case ABaselineDone => s.(t := s.t.(lastBaseline := Some(s.now)))
    case _ =>
      var settlement := SettlementOf(s, act);
      var s' := s.(reading := ReadingAfter(s, act));
      if settlement.None? then s'
      else
        var (id, billed) := settlement.value;
        s'.(t := Settle(s.t, id, billed), charges := ChargesAfter(s, id, billed))
  }

  predicate Run(trace: seq<System>, acts: seq<Action>, budget: int) {
    && |trace| == |acts| + 1 && trace[0] == INITIAL
    && forall i :: 0 <= i < |acts| ==> trace[i + 1] == Next(trace[i], budget, acts[i])
  }

  /** Process p handles every row it has read, one step after the other. */
  function HandleAll(s: System, budget: int, p: nat, lookup: string -> Option<int>): System
    requires p in s.reading
    decreases |s.reading[p]|
  {
    if s.reading[p] == [] then s
    else HandleAll(Next(s, budget, ARecover(p, lookup(s.reading[p][0].jobId))), budget, p, lookup)
  }

  /** A recovery in one go that meets no refusal does to the tables what its steps do one by one. */
  lemma {:induction false} RecoveryIsItsSteps(s: System, budget: int, p: nat, lookup: string -> Option<int>, fails: nat -> bool)
    requires p in s.reading && RecoverAll(s.t, s.reading[p], lookup, fails).1
    ensures HandleAll(s, budget, p, lookup).t == RecoverAll(s.t, s.reading[p], lookup, fails).0
    decreases |s.reading[p]|
  {
    hide Settle, MonthOf;
    if s.reading[p] == [] {
    } else {
      RecoveryIsItsSteps(Next(s, budget, ARecover(p, lookup(s.reading[p][0].jobId))), budget, p, lookup, fails);
    }
  }

  // ---------------------------------------------------------------- exactly-once settlement

  /** The charges of month over the ids below n. */
  function ChargedIn(charges: map<nat, Charge>, month: int, n: nat): nat {
    if n == 0 then 0
    else ChargedIn(charges, month, n - 1) + if n - 1 in charges && charges[n - 1].month == month then charges[n - 1].billed else 0
  }

  lemma {:induction false} ChargedInNew(charges: map<nat, Charge>, id: nat, c: Charge, month: int, n: nat)
    requires id !in charges
    ensures ChargedIn(charges[id := c], month, n) ==
            ChargedIn(charges, month, n) + if id < n && c.month == month then c.billed else 0
  {
    if n == 0 {
    } else {
      ChargedInNew(charges, id, c, month, n - 1);
    }
  }

  /** Every reservation ever made is either outstanding or charged once, and the ledger is the sum of the charges. */
  ghost predicate Accounted(s: System) {
    && s.t.nextId >= 1 && (forall id :: id in s.born <==> 1 <= id < s.t.nextId)
    && (forall id :: id in s.born ==> (id in s.t.rows <==> id !in s.charges))
    && (forall id :: id in s.t.rows ==> id in s.born && s.t.rows[id].(jobId := "") == s.born[id])
    && (forall id :: id in s.charges ==> id in s.born && s.charges[id].month == MonthOf(s.born[id].created))
    && (forall month :: MonthTotal(s.t.ledger, month) == ChargedIn(s.charges, month, s.t.nextId))
    && UniqueLines(s.t.ledger)
  }

  /** A recovery under way remembers the true size of every row it read. */
  predicate ReadingsTrue(s: System) {
    forall p, i :: p in s.reading && 0 <= i < |s.reading[p]| ==>
      s.reading[p][i].id in s.born && s.born[s.reading[p][i].id].bytes == s.reading[p][i].bytes
  }

  /** Each baseline reservation was made when every earlier one had expired. */
  predicate BaselinesSpaced(s: System) {
    && (forall id :: id in s.t.rows ==> s.t.rows[id].created <= s.now)
    && forall a, b :: a in s.t.rows && b in s.t.rows && a < b && s.t.rows[a].job == BASELINE_JOB && s.t.rows[b].job == BASELINE_JOB
         ==> s.t.rows[a].expires <= s.t.rows[b].created
  }

  ghost predicate Inv(s: System) {
    Accounted(s) && ReadingsTrue(s) && BaselinesSpaced(s)
  }

  lemma {:induction false} StaleRowsTrue(t: Tables, now: int, n: nat, i: nat)
    requires i < |StaleRows(t, now, n)|
    ensures var r := StaleRows(t, now, n)[i]; r.id in t.rows && t.rows[r.id].bytes == r.bytes
  {
    if i >= |StaleRows(t, now, n - 1)| {
    } else {
      StaleRowsTrue(t, now, n - 1, i);
    }
  }

  lemma {:induction false} ChargedInBeyond(charges: map<nat, Charge>, month: int, n: nat)
    requires n !in charges
    ensures ChargedIn(charges, month, n + 1) == ChargedIn(charges, month, n)
  {
  }

  /** s with a new reservation r under the next id. */
  function WithRow(s: System, r: Row): System {
    s.(t := s.t.(rows := s.t.rows[s.t.nextId := r], nextId := s.t.nextId + 1), born := s.born[s.t.nextId := r])
  }

  lemma ReserveAccounts(s: System, r: Row)
    requires Accounted(s) && r.jobId == ""
    ensures Accounted(WithRow(s, r))
  {
    hide MonthOf, UniqueLines, MonthTotal, ChargedIn;
    var s' := WithRow(s, r);
    forall month ensures MonthTotal(s'.t.ledger, month) == ChargedIn(s'.charges, month, s'.t.nextId) {
      ChargedInBeyond(s.charges, month, s.t.nextId);
    }
  }

  /** Ids are never reused. */
  lemma NextIdIsFresh(s: System)
    requires Accounted(s) || Inv(s)
    ensures s.t.nextId !in s.born && forall id :: id in s.t.rows ==> 1 <= id < s.t.nextId
  {
    hide MonthOf, UniqueLines, MonthTotal;
  }

  lemma ReserveKeeps(s: System, budget: int, q: Request)
    requires Inv(s)
    ensures Inv(Next(s, budget, AReserve(q)))
  {
    hide MonthOf, Accounted, MonthTotal, SumRows;
    NextIdIsFresh(s);
    var r := Row(q.job, q.bytes, "", s.now, s.now + q.ttl);
    ReserveAccounts(s, r);
  }

  lemma SettleAccounts(s: System, id: nat, billed: int)
    requires Accounted(s) && id in s.t.rows
    ensures Accounted(s.(t := Settle(s.t, id, billed), charges := ChargesAfter(s, id, billed)))
  {
    hide MonthOf, UniqueLines, MonthTotal, ChargedIn, Upsert;
    var s' := s.(t := Settle(s.t, id, billed), charges := ChargesAfter(s, id, billed));
    var month0 := MonthOf(s.t.rows[id].created);
    assert s.t.rows[id].created == s.born[id].created;
    forall month ensures MonthTotal(s'.t.ledger, month) == ChargedIn(s'.charges, month, s'.t.nextId) {
      ChargedInNew(s.charges, id, Charge(month0, Max(billed, 0)), month, s.t.nextId);
      if billed > 0 {
        UpsertTotal(s.t.ledger, month0, s.t.rows[id].job, billed, month);
      }
    }
    if billed > 0 {
      UpsertKeepsUnique(s.t.ledger, month0, s.t.rows[id].job, billed);
    }
  }

  lemma SettleKeeps(s: System, budget: int, act: Action)
    requires Inv(s) && SettlementOf(s, act).Some?
    ensures Inv(Next(s, budget, act))
  {
    hide MonthOf, Accounted;
    var (id, billed) := SettlementOf(s, act).value;
    var s' := s.(t := Settle(s.t, id, billed), charges := ChargesAfter(s, id, billed));
    if id in s.t.rows {
      SettleAccounts(s, id, billed);
    }
    assert Accounted(s');
    AccountedIgnores(s', s.now, ReadingAfter(s, act), s'.t.lastBaseline);
  }

  /** Accounting does not depend on the clock, the readings or the last baseline. */
  lemma AccountedIgnores(s: System, now: int, reading: map<nat, seq<Stale>>, lastBaseline: Option<int>)
    requires Accounted(s)
    ensures Accounted(s.(now := now, reading := reading, t := s.t.(lastBaseline := lastBaseline)))
  {
    hide MonthOf, UniqueLines, MonthTotal, ChargedIn;
  }

  lemma AttachKeeps(s: System, budget: int, id: nat, jobId: string)
    requires Inv(s)
    ensures Inv(Next(s, budget, AAttach(id, jobId)))
  {
    hide MonthOf, UniqueLines, MonthTotal, ChargedIn;
    var s' := Next(s, budget, AAttach(id, jobId));
    assert Accounted(s');
  }

  lemma ReadStaleKeeps(s: System, budget: int, p: nat)
    requires Inv(s)
    ensures Inv(Next(s, budget, AReadStale(p)))
  {
    hide MonthOf;
    var stale := StaleRows(s.t, s.now, s.t.nextId);
    forall i | 0 <= i < |stale| ensures stale[i].id in s.born && s.born[stale[i].id].bytes == stale[i].bytes {
      StaleRowsTrue(s.t, s.now, s.t.nextId, i);
    }
    AccountedIgnores(s, s.now, s.reading[p := stale], s.t.lastBaseline);
  }

  lemma NextKeeps(s: System, budget: int, act: Action)
    requires Inv(s)
    ensures Inv(Next(s, budget, act))
  {
    hide MonthOf, Inv, Next;
    if SettlementOf(s, act).Some? {
      SettleKeeps(s, budget, act);
    } else if act.AReserve? {
      ReserveKeeps(s, budget, act.q);
    } else if act.AAttach? {
      AttachKeeps(s, budget, act.id, act.jobId);
    } else if act.AReadStale? {
      ReadStaleKeeps(s, budget, act.process);
    } else {
      QuietKeeps(s, budget, act);
    }
  }

  /** Steps that change neither table rows nor ledger. */
  lemma QuietKeeps(s: System, budget: int, act: Action)
    requires Inv(s) && SettlementOf(s, act).None?
    requires act.Tick? || act.ARecover? || act.ABaselineDone? || act.ASettle?
    ensures Inv(Next(s, budget, act))
  {
    hide MonthOf, Accounted;
    var s' := Next(s, budget, act);
    AccountedIgnores(s, s'.now, s'.reading, s'.t.lastBaseline);
  }

  lemma {:induction false} RunKeeps(trace: seq<System>, acts: seq<Action>, budget: int, n: nat)
    requires Run(trace, acts, budget) && n < |trace|
    ensures Inv(trace[n])
  {
    hide MonthOf;
    if n == 0 {
      forall month ensures MonthTotal([], month) == ChargedIn(map[], month, 1) {
        assert ChargedIn(map[], month, 0) == 0;
      }
    } else {
      RunKeeps(trace, acts, budget, n - 1);
      NextKeeps(trace[n - 1], budget, acts[n - 1]);
    }
  }

  // ---------------------------------------------------------------- main results: settlement

  /** In every run the ledger of each month is exactly the sum of the settled reservations created in it. */
  lemma LedgerIsSumOfCharges(trace: seq<System>, acts: seq<Action>, budget: int, n: nat, month: int)
    requires Run(trace, acts, budget) && n < |trace|
    ensures MonthTotal(trace[n].t.ledger, month) == ChargedIn(trace[n].charges, month, trace[n].t.nextId)
  {
    RunKeeps(trace, acts, budget, n);
  }

  lemma NextOnlyAdds(s: System, budget: int, act: Action)
    requires Inv(s)
    ensures var s' := Next(s, budget, act);
            && (forall id :: id in s.born ==> id in s'.born && s'.born[id] == s.born[id])
            && (forall id :: id in s.charges ==> id in s'.charges && s'.charges[id] == s.charges[id])
  {
    hide MonthOf, Inv, SumRows, BaselineActive, StaleRows, Settle, MonthTotal;
    NextIdIsFresh(s);
    var settlement := SettlementOf(s, act);
    if settlement.Some? && settlement.value.0 in s.t.rows {
      OutstandingIsUncharged(s, settlement.value.0);
    }
  }

  lemma OutstandingIsUncharged(s: System, id: nat)
    requires Inv(s) && id in s.t.rows
    ensures id !in s.charges
  {
    hide MonthOf, UniqueLines, MonthTotal, ChargedIn;
  }

  /**
    Exactly-once settlement: in every run, with recoveries and settlements
    interleaved at will, a reservation is always either outstanding or charged,
    a charge once made never changes, it goes to the month of creation, and an
    id, once used, keeps naming the same reservation.
   */
  lemma {:induction false} SettledExactlyOnce(trace: seq<System>, acts: seq<Action>, budget: int, m: nat, n: nat, id: nat)
    requires Run(trace, acts, budget) && m <= n < |trace| && id in trace[m].born
    ensures id in trace[n].born && trace[n].born[id] == trace[m].born[id]
    ensures id in trace[n].t.rows <==> id !in trace[n].charges
    ensures id in trace[m].charges ==> id in trace[n].charges && trace[n].charges[id] == trace[m].charges[id]
    ensures id in trace[n].charges ==> trace[n].charges[id].month == MonthOf(trace[m].born[id].created)
    decreases n - m
  {
    hide MonthOf, Next, UniqueLines, MonthTotal, ChargedIn;
    RunKeeps(trace, acts, budget, n);
    if m == n {
    } else {
      SettledExactlyOnce(trace, acts, budget, m, n - 1, id);
      RunKeeps(trace, acts, budget, n - 1);
      NextOnlyAdds(trace[n - 1], budget, acts[n - 1]);
    }
  }

  /** A recovery that read an unattached expired row and finds it still there charges all it reserved. */
  lemma UnattachedPaysInFull(trace: seq<System>, acts: seq<Action>, budget: int, n: nat, p: nat, found: Option<int>)
    requires Run(trace, acts, budget) && n < |acts| && acts[n] == ARecover(p, found)
    requires p in trace[n].reading && trace[n].reading[p] != [] && trace[n].reading[p][0].jobId == ""
    requires trace[n].reading[p][0].id in trace[n].t.rows
    ensures var id := trace[n].reading[p][0].id;
            && id in trace[n].born && id !in trace[n].charges && id in trace[n + 1].charges
            && trace[n + 1].charges[id].billed == trace[n].born[id].bytes
  {
    hide MonthOf;
    RunKeeps(trace, acts, budget, n);
  }

  /** At any time at most one baseline reservation is unexpired. */
  lemma OneBaselineAtATime(trace: seq<System>, acts: seq<Action>, budget: int, n: nat, a: nat, b: nat)
    requires Run(trace, acts, budget) && n < |trace|
    requires a in trace[n].t.rows && trace[n].t.rows[a].job == BASELINE_JOB && trace[n].t.rows[a].expires > trace[n].now
    requires b in trace[n].t.rows && trace[n].t.rows[b].job == BASELINE_JOB && trace[n].t.rows[b].expires > trace[n].now
    ensures a == b
  {
    hide MonthOf, Accounted;
    RunKeeps(trace, acts, budget, n);
  }

  // ---------------------------------------------------------------- main results: the monthly bound

  /** What a successful reservation in `month` skipped. */
  function SkippedAt(s: System, budget: int, act: Action, month: int): nat {
    if act.AReserve? && MonthOf(s.now) == month && Reserve(s.t, budget, act.q, s.now).1.Ok? then Skipped(s.t, s.now, month) else 0
  }

  /** The most that any of the first n actions skipped. */
  function MaxSkipped(trace: seq<System>, acts: seq<Action>, budget: int, month: int, n: nat): nat
    requires n <= |acts| < |trace|
  {
    if n == 0 then 0 else Max(MaxSkipped(trace, acts, budget, month, n - 1), SkippedAt(trace[n - 1], budget, acts[n - 1], month))
  }

  function ExcessAt(s: System, act: Action, month: int): nat {
    var settlement := SettlementOf(s, act);
    if settlement.None? then 0 else Excess(s.t, settlement.value.0, settlement.value.1, month)
  }

  /** All bytes the first n actions billed above what was reserved for them. */
  function TotalExcess(trace: seq<System>, acts: seq<Action>, month: int, n: nat): nat
    requires n <= |acts| < |trace|
  {
    if n == 0 then 0 else TotalExcess(trace, acts, month, n - 1) + ExcessAt(trace[n - 1], acts[n - 1], month)
  }

  lemma NextExposure(s: System, budget: int, act: Action, month: int)
    requires Inv(s)
    ensures var after := Exposure(Next(s, budget, act).t, month);
            || after <= Exposure(s.t, month) + ExcessAt(s, act, month)
            || after <= budget + SkippedAt(s, budget, act, month)
  {
    hide MonthOf, UniqueLines, MonthTotal, ChargedIn, SumRows;
    NextIdIsFresh(s);
    var settlement := SettlementOf(s, act);
    if settlement.Some? {
      SettleExposure(s.t, settlement.value.0, settlement.value.1, month);
    } else if act.AReserve? {
      if Reserve(s.t, budget, act.q, s.now).1.Ok? {
        ReserveExposure(s.t, budget, act.q, s.now, month);
      }
    } else if act.AAttach? {
      AttachExposure(s.t, act.id, act.jobId, month);
    }
  }

  /**
    Over every run and for every month: what the month was charged plus all
    reservations made in it and still outstanding is at most the budget, plus
    the most that one reservation of the month failed to count because it had
    expired unattached, plus what was billed beyond its reservation.
   */
  lemma {:induction false} ExposureBound(trace: seq<System>, acts: seq<Action>, budget: int, month: int, n: nat)
    requires Run(trace, acts, budget) && n < |trace| && budget >= 0
    ensures Exposure(trace[n].t, month) <= budget + MaxSkipped(trace, acts, budget, month, n) + TotalExcess(trace, acts, month, n)
  {
    hide MonthOf, Next, SkippedAt, ExcessAt, Inv;
    if n == 0 {
      EmptyExposure(month);
    } else {
      ExposureBound(trace, acts, budget, month, n - 1);
      RunKeeps(trace, acts, budget, n - 1);
      NextExposure(trace[n - 1], budget, acts[n - 1], month);
    }
  }

  lemma EmptyExposure(month: int)
    ensures Exposure(EMPTY_TABLES, month) == 0
  {
    assert SumRows(EMPTY_TABLES.rows, InMonth(month), 0) == 0;
  }

  /** Bills never exceed what was reserved for them. */
  predicate BillsWithinReservations(trace: seq<System>, acts: seq<Action>) {
    |trace| == |acts| + 1 &&
    forall i :: 0 <= i < |acts| && SettlementOf(trace[i], acts[i]).Some? ==>
      var (id, billed) := SettlementOf(trace[i], acts[i]).value;
      id in trace[i].t.rows ==> billed <= trace[i].t.rows[id].bytes
  }

  /** Every expired row that never got a job is still ahead of the recovery process p has under way. */
  predicate Ahead(s: System, p: nat) {
    p in s.reading &&
    forall id :: id in s.t.rows && s.t.rows[id].expires <= s.now && s.t.rows[id].jobId == "" ==>
      Stale(id, "", s.t.rows[id].bytes) in s.reading[p]
  }

  lemma ReadingIsAhead(s: System, budget: int, p: nat)
    requires Inv(s)
    ensures Ahead(Next(s, budget, AReadStale(p)), p)
  {
    hide MonthOf;
    NextIdIsFresh(s);
    forall id | id in s.t.rows && s.t.rows[id].expires <= s.now && s.t.rows[id].jobId == ""
      ensures Stale(id, "", s.t.rows[id].bytes) in StaleRows(s.t, s.now, s.t.nextId)
    {
      StaleRowsComplete(s.t, s.now, s.t.nextId, id);
    }
  }

  /** Settling leaves fewer rows, and none it settled. */
  lemma SettleOnlyRemoves(t: Tables, id: nat, billed: int)
    ensures Settle(t, id, billed).rows == t.rows - {id}
  {
    hide MonthOf;
  }

  lemma HandlingStaysAhead(s: System, budget: int, p: nat, found: Option<int>)
    requires Ahead(s, p)
    ensures Ahead(Next(s, budget, ARecover(p, found)), p)
  {
    hide MonthOf, Settle;
    if s.reading[p] != [] {
      var head := s.reading[p][0];
      assert s.reading[p] == [head] + s.reading[p][1..];
      var settlement := SettlementOf(s, ARecover(p, found));
      if settlement.Some? {
        SettleOnlyRemoves(s.t, settlement.value.0, settlement.value.1);
      }
    }
  }

  /** No step of any other process, at the same instant, puts an expired row without a job behind the recovery. */
  lemma StaysAhead(s: System, budget: int, act: Action, p: nat)
    requires Inv(s) && Ahead(s, p) && Next(s, budget, act).now == s.now
    requires act.AReserve? ==> act.q.ttl > 0
    ensures Ahead(Next(s, budget, act), p)
  {
    hide MonthOf, SumRows, MonthTotal, Inv, BaselineActive;
    if act == AReadStale(p) {
      ReadingIsAhead(s, budget, p);
    } else if act.ARecover? && act.process == p {
      HandlingStaysAhead(s, budget, p, act.found);
    } else if act.ARecover? || act.ASettle? {
      var settlement := SettlementOf(s, act);
      if settlement.Some? {
        SettleOnlyRemoves(s.t, settlement.value.0, settlement.value.1);
      }
    }
  }

  lemma {:induction false} NowMonotone(trace: seq<System>, acts: seq<Action>, budget: int, m: nat, n: nat)
    requires Run(trace, acts, budget) && m <= n < |trace|
    ensures trace[m].now <= trace[n].now
    decreases n - m
  {
    hide MonthOf;
    if m == n {
    } else {
      NowMonotone(trace, acts, budget, m, n - 1);
    }
  }

  lemma {:induction false} AheadUntil(trace: seq<System>, acts: seq<Action>, budget: int, p: nat, j: nat, n: nat)
    requires Run(trace, acts, budget) && j < n < |trace| && acts[j] == AReadStale(p)
    requires trace[j].now == trace[n].now
    requires forall i :: 0 <= i < |acts| && acts[i].AReserve? ==> acts[i].q.ttl > 0
    ensures Ahead(trace[n], p)
    decreases n - j
  {
    hide Next, Ahead, Inv;
    if n == j + 1 {
      RunKeeps(trace, acts, budget, j);
      ReadingIsAhead(trace[j], budget, p);
    } else {
      NowMonotone(trace, acts, budget, j, n - 1);
      NowMonotone(trace, acts, budget, n - 1, n);
      AheadUntil(trace, acts, budget, p, j, n - 1);
      RunKeeps(trace, acts, budget, n - 1);
      StaysAhead(trace[n - 1], budget, acts[n - 1], p);
    }
  }

  /**
    A recoverStale that any process began at step j and had run to its end by
    state k leaves nothing to skip, whatever the other processes did meanwhile.
   */
  lemma RecoveryLeavesNothingSkipped(trace: seq<System>, acts: seq<Action>, budget: int, p: nat, j: nat, k: nat)
    requires Run(trace, acts, budget) && j < k < |trace| && acts[j] == AReadStale(p)
    requires p in trace[k].reading && trace[k].reading[p] == [] && trace[j].now == trace[k].now
    requires forall i :: 0 <= i < |acts| && acts[i].AReserve? ==> acts[i].q.ttl > 0
    ensures NothingSkipped(trace[k].t, trace[k].now)
  {
    hide Next;
    AheadUntil(trace, acts, budget, p, j, k);
  }

  /** By state i, and at its instant, some process read the expired rows and handled every one of them. */
  predicate Recovered(trace: seq<System>, acts: seq<Action>, i: nat)
    requires i < |trace| == |acts| + 1
  {
    exists p, j, k | 0 <= j < k <= i && p in trace[k].reading ::
      acts[j] == AReadStale(p) && trace[k].reading[p] == [] && trace[j].now == trace[i].now
  }

  lemma StaysRecovered(s: System, budget: int, act: Action)
    requires NothingSkipped(s.t, s.now) && Next(s, budget, act).now == s.now
    requires act.AReserve? ==> act.q.ttl > 0
    ensures NothingSkipped(Next(s, budget, act).t, s.now)
  {
    hide MonthOf, SumRows, MonthTotal;
  }

  lemma {:induction false} RecoveredUntil(trace: seq<System>, acts: seq<Action>, budget: int, k: nat, n: nat)
    requires Run(trace, acts, budget) && k <= n < |trace|
    requires trace[k].now == trace[n].now && NothingSkipped(trace[k].t, trace[k].now)
    requires forall i :: 0 <= i < |acts| && acts[i].AReserve? ==> acts[i].q.ttl > 0
    ensures NothingSkipped(trace[n].t, trace[n].now)
    decreases n - k
  {
    hide Next, NothingSkipped;
    if k == n {
    } else {
      NowMonotone(trace, acts, budget, k, n - 1);
      NowMonotone(trace, acts, budget, n - 1, n);
      RecoveredUntil(trace, acts, budget, k, n - 1);
      StaysRecovered(trace[n - 1], budget, acts[n - 1]);
    }
  }

  lemma RecoveredSkipsNothing(trace: seq<System>, acts: seq<Action>, budget: int, n: nat)
    requires Run(trace, acts, budget) && n < |trace| && Recovered(trace, acts, n)
    requires forall i :: 0 <= i < |acts| && acts[i].AReserve? ==> acts[i].q.ttl > 0
    ensures NothingSkipped(trace[n].t, trace[n].now)
  {
    hide Next, NothingSkipped;
    var p, j, k :| 0 <= j < k <= n && p in trace[k].reading && acts[j] == AReadStale(p) && trace[k].reading[p] == [] && trace[j].now == trace[n].now;
    NowMonotone(trace, acts, budget, j, k);
    NowMonotone(trace, acts, budget, k, n);
    RecoveryLeavesNothingSkipped(trace, acts, budget, p, j, k);
    RecoveredUntil(trace, acts, budget, k, n);
  }

  // ---------------------------------------------------------------- exactly when the budget holds

  /** act is a reservation in `month`, and it is granted. */
  predicate Grants(s: System, budget: int, act: Action, month: int) {
    act.AReserve? && MonthOf(s.now) == month && Reserve(s.t, budget, act.q, s.now).1.Ok?
  }

  lemma NextWithinExact(s: System, budget: int, act: Action, month: int)
    requires Inv(s) && Exposure(s.t, month) <= budget && ExcessAt(s, act, month) == 0
    ensures Exposure(Next(s, budget, act).t, month) <= budget <==>
            (Grants(s, budget, act, month) ==> Fits(s.t, budget, act.q, s.now))
  {
    hide MonthOf, UniqueLines, MonthTotal, ChargedIn, SumRows, Fits, Exposure, Reserve, Settle, Attach;
    NextIdIsFresh(s);
    var settlement := SettlementOf(s, act);
    if settlement.Some? {
      SettleExposure(s.t, settlement.value.0, settlement.value.1, month);
    } else if act.AReserve? {
      if Reserve(s.t, budget, act.q, s.now).1.Ok? {
        ReserveExposure(s.t, budget, act.q, s.now, month);
        GrantedFitsExact(s.t, budget, act.q, s.now);
      } else {
        FittingReservationGranted(s.t, budget, act.q, s.now);
      }
    } else if act.AAttach? {
      AttachExposure(s.t, act.id, act.jobId, month);
    } else {
      SameExposure(s.t, Some(s.now), month);
    }
  }

  lemma SameExposure(t: Tables, lastBaseline: Option<int>, month: int)
    ensures Exposure(t.(lastBaseline := lastBaseline), month) == Exposure(t, month)
  {
  }

  /** Grants in `month` among the first n actions all fit. */
  predicate GrantsFit(trace: seq<System>, acts: seq<Action>, budget: int, month: int, n: nat)
    requires n <= |acts| < |trace|
  {
    forall i :: 0 <= i < n && Grants(trace[i], budget, acts[i], month) ==> Fits(trace[i].t, budget, acts[i].q, trace[i].now)
  }

  /** The month is within the budget in each of the first n + 1 states. */
  predicate WithinBudget(trace: seq<System>, budget: int, month: int, n: nat)
    requires n < |trace|
  {
    forall i :: 0 <= i <= n ==> Exposure(trace[i].t, month) <= budget
  }

  lemma OneMoreState(trace: seq<System>, budget: int, month: int, n: nat)
    requires 0 < n < |trace|
    ensures WithinBudget(trace, budget, month, n) <==> WithinBudget(trace, budget, month, n - 1) && Exposure(trace[n].t, month) <= budget
    ensures WithinBudget(trace, budget, month, n - 1) ==> Exposure(trace[n - 1].t, month) <= budget
  {
    hide Exposure;
  }

  lemma OneMoreAction(trace: seq<System>, acts: seq<Action>, budget: int, month: int, n: nat)
    requires 0 < n <= |acts| < |trace|
    ensures GrantsFit(trace, acts, budget, month, n) <==>
            GrantsFit(trace, acts, budget, month, n - 1) &&
            (Grants(trace[n - 1], budget, acts[n - 1], month) ==> Fits(trace[n - 1].t, budget, acts[n - 1].q, trace[n - 1].now))
  {
    hide Grants, Fits;
  }

  /**
    If bills stay within their reservations, a run keeps a month within the
    budget all along exactly when every reservation granted in it fits.
   */
  lemma {:induction false} BudgetHeldExact(trace: seq<System>, acts: seq<Action>, budget: int, month: int, n: nat)
    requires Run(trace, acts, budget) && n < |trace| && budget >= 0 && BillsWithinReservations(trace, acts)
    ensures WithinBudget(trace, budget, month, n) <==> GrantsFit(trace, acts, budget, month, n)
  {
    hide MonthOf, Next, ExcessAt, Inv, Exposure, Fits, Grants, BillsWithinReservations;
    if n == 0 {
      EmptyExposure(month);
    } else {
      BudgetHeldExact(trace, acts, budget, month, n - 1);
      OneMoreState(trace, budget, month, n);
      OneMoreAction(trace, acts, budget, month, n);
      if WithinBudget(trace, budget, month, n - 1) {
        RunKeeps(trace, acts, budget, n - 1);
        NoExcessAt(trace, acts, month, n - 1);
        NextWithinExact(trace[n - 1], budget, acts[n - 1], month);
      }
    }
  }

  lemma NoExcessAt(trace: seq<System>, acts: seq<Action>, month: int, i: nat)
    requires BillsWithinReservations(trace, acts) && i < |acts|
    ensures ExcessAt(trace[i], acts[i], month) == 0
  {
    hide MonthOf;
  }

  /** What nothing was skipped for fits. */
  lemma NothingSkippedFits(t: Tables, budget: int, q: Request, now: int)
    requires NothingSkipped(t, now) && Reserve(t, budget, q, now).1.Ok?
    ensures Fits(t, budget, q, now)
  {
    hide MonthOf, SumRows, MonthTotal, BaselineActive;
    NothingSkippedSum(t, now, MonthOf(now), t.nextId);
  }

  /**
    When a recoverStale, by whatever process and with whatever other steps in
    between, has run to its end at the same instant before each reservation, the
    month's charges and outstanding reservations never exceed the budget.
   */
  lemma RecoverFirstBound(trace: seq<System>, acts: seq<Action>, budget: int, month: int, n: nat)
    requires Run(trace, acts, budget) && n < |trace| && budget >= 0
    requires BillsWithinReservations(trace, acts)
    requires forall i :: 0 <= i < |acts| && acts[i].AReserve? ==> acts[i].q.ttl > 0 && Recovered(trace, acts, i)
    ensures Exposure(trace[n].t, month) <= budget
  {
    hide MonthOf, Next, BillsWithinReservations, Recovered, Fits, Exposure, NothingSkipped;
    forall i | 0 <= i < n && Grants(trace[i], budget, acts[i], month) ensures Fits(trace[i].t, budget, acts[i].q, trace[i].now) {
      RecoveredSkipsNothing(trace, acts, budget, i);
      NothingSkippedFits(trace[i].t, budget, acts[i].q, trace[i].now);
    }
    BudgetHeldExact(trace, acts, budget, month, n);
    assert WithinBudget(trace, budget, month, n);
  }

  /**
    The recovery is needed: two reservations of 60 against a budget of 100, the
    second made after the first expired without a job, leave the month exposed
    to 120.
   */
  lemma WithoutRecoveryOverBudget() returns (trace: seq<System>, acts: seq<Action>)
    ensures Run(trace, acts, 100) && BillsWithinReservations(trace, acts)
    ensures Exposure(trace[|acts|].t, MonthOf(0)) == 120
  {
    hide MonthOf;
    var q := Request("btc_onchain", 60, 0, 10, 0);
    var s1 := Next(INITIAL, 100, AReserve(q));
    var r1 := Row("btc_onchain", 60, "", 0, 10);
    assert SumRows(map[], Counted(0), 0) == 0;
    assert s1.t == Tables(map[1 := r1], [], 2, None);
    var s2 := Next(s1, 100, Tick(10));
    assert SumRows(s2.t.rows, Counted(10), 0) == 0;
    assert SumRows(s2.t.rows, Counted(10), 1) == 0;
    assert SumRows(s2.t.rows, Counted(10), 2) == 0;
    var s3 := Next(s2, 100, AReserve(q));
    var r2 := Row("btc_onchain", 60, "", 10, 20);
    assert s3.t == Tables(map[1 := r1, 2 := r2], [], 3, None);
    SameMonth();
    assert SumRows(s3.t.rows, InMonth(MonthOf(0)), 1) == 0;
    assert SumRows(s3.t.rows, InMonth(MonthOf(0)), 2) == 60;
    trace := [INITIAL, s1, s2, s3];
    acts := [AReserve(q), Tick(10), AReserve(q)];
  }

  lemma SameMonth()
    ensures MonthOf(10) == MonthOf(0)
  {
  }
}
