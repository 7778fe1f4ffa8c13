/**
  The cross-process BigQuery budget: a table of reservations and a monthly
  ledger, both changed only by atomic transactions. Times are seconds; expiry
  compares at that resolution.
 */
module BudgetLedger {
  import opened Wrappers
  import opened Calendar

  const BASELINE_JOB := "btc_utxo_baseline"

  /** One reservation row; jobId is "" until the BigQuery job is attached. */
  datatype Row = Row(job: string, bytes: nat, jobId: string, created: int, expires: int)

  /** One line of the ledger, unique by (month, job). */
  datatype Line = Line(month: int, job: string, billed: nat)

  datatype Tables = Tables(rows: map<nat, Row>, ledger: seq<Line>, nextId: nat, lastBaseline: Option<int>)

  const EMPTY_TABLES := Tables(map[], [], 1, None)

  datatype Request = Request(job: string, bytes: nat, hardCap: nat, ttl: int, minInterval: int)

  datatype Refusal = OverBudget | BaselineInFlight | BaselineInterval

  // ---------------------------------------------------------------- sums

  /** SELECT SUM(bytes) WHERE sel, over the ids below n. */
  function SumRows(rows: map<nat, Row>, sel: Row -> bool, n: nat): nat {
    if n == 0 then 0
    else SumRows(rows, sel, n - 1) + if n - 1 in rows && sel(rows[n - 1]) then rows[n - 1].bytes else 0
  }

  function MonthTotal(ledger: seq<Line>, month: int): nat {
    if ledger == [] then 0
    else (if ledger[0].month == month then ledger[0].billed else 0) + MonthTotal(ledger[1..], month)
  }

  /** INSERT ... ON CONFLICT(month, job) DO UPDATE adding the billed bytes. */
  function Upsert(ledger: seq<Line>, month: int, job: string, billed: nat): seq<Line> {
    if ledger == [] then [Line(month, job, billed)]
    else if ledger[0].month == month && ledger[0].job == job then
      [ledger[0].(billed := ledger[0].billed + billed)] + ledger[1..]
    else [ledger[0]] + Upsert(ledger[1..], month, job, billed)
  }

  function InMonth(month: int): Row -> bool {
    (r: Row) => MonthOf(r.created) == month
  }

  /** The rows a reservation at `now` counts. */
  function Counted(now: int): Row -> bool {
    (r: Row) => r.expires > now || r.jobId != ""
  }

  /** The rows of `month` a reservation at `now` does not count: expired and never attached. */
  function SkippedBy(now: int, month: int): Row -> bool {
    (r: Row) => MonthOf(r.created) == month && r.expires <= now && r.jobId == ""
  }

  /** The rows a reservation at `now` counts although they were made in another month. */
  function CountedElsewhere(now: int, month: int): Row -> bool {
    (r: Row) => MonthOf(r.created) != month && (r.expires > now || r.jobId != "")
  }

  /** What the budget of the current month has left for new reservations. */
  function Remaining(t: Tables, budget: int, now: int): int {
    budget - MonthTotal(t.ledger, MonthOf(now)) - SumRows(t.rows, Counted(now), t.nextId)
  }

  function Outstanding(t: Tables, month: int): nat {
    SumRows(t.rows, InMonth(month), t.nextId)
  }

  function Skipped(t: Tables, now: int, month: int): nat {
    SumRows(t.rows, SkippedBy(now, month), t.nextId)
  }

  /** What month has been charged or may still be charged. */
  function Exposure(t: Tables, month: int): nat {
    MonthTotal(t.ledger, month) + Outstanding(t, month)
  }

  // ---------------------------------------------------------------- the transactions as functions

  predicate BaselineActive(t: Tables, now: int) {
    exists id | id in t.rows :: t.rows[id].job == BASELINE_JOB && t.rows[id].expires > now
  }

  function Reserve(t: Tables, budget: int, q: Request, now: int): (Tables, Result<nat, Refusal>) {
    if q.hardCap > 0 && q.bytes > q.hardCap then (t, Err(OverBudget))
    else if q.job == BASELINE_JOB && BaselineActive(t, now) then (t, Err(BaselineInFlight))
    else if q.job == BASELINE_JOB && q.minInterval > 0 && t.lastBaseline.Some? && now - t.lastBaseline.value < q.minInterval then
      (t, Err(BaselineInterval))
    else if q.bytes > Remaining(t, budget, now) then (t, Err(OverBudget))
    else
      (t.(rows := t.rows[t.nextId := Row(q.job, q.bytes, "", now, now + q.ttl)], nextId := t.nextId + 1), Ok(t.nextId))
  }

  function AttachTo(r: Row, jobId: string): Row {
    r.(jobId := if r.jobId == "" then jobId else r.jobId + "," + jobId)
  }

  function Attach(t: Tables, id: nat, jobId: string): Tables {
    if id in t.rows then t.(rows := t.rows[id := AttachTo(t.rows[id], jobId)]) else t
  }

  /** Deletes the row and charges its creation month; a row that is gone charges nothing. */
  function Settle(t: Tables, id: nat, billed: int): Tables {
    if id !in t.rows then t
    else
      var r := t.rows[id];
      t.(rows := t.rows - {id},
         ledger := if billed > 0 then Upsert(t.ledger, MonthOf(r.created), r.job, billed) else t.ledger)
  }

  /**
    When a request is granted: it is under its own cap, no baseline is in flight
    and the last one is long enough ago if it is a baseline itself, and what it
    asks for is left of the month's budget. A grant adds one row, a refusal
    changes nothing.
   */
  lemma GrantedExactly(t: Tables, budget: int, q: Request, now: int)
    ensures var (t', r) := Reserve(t, budget, q, now);
            && (r.Ok? <==>
                  && (q.hardCap > 0 ==> q.bytes <= q.hardCap)
                  && (q.job == BASELINE_JOB ==>
                        && (forall id :: id in t.rows && t.rows[id].job == BASELINE_JOB ==> t.rows[id].expires <= now)
                        && (q.minInterval > 0 && t.lastBaseline.Some? ==> now >= t.lastBaseline.value + q.minInterval))
                  && MonthTotal(t.ledger, MonthOf(now)) + SumRows(t.rows, Counted(now), t.nextId) + q.bytes <= budget)
            && (r.Err? ==> t' == t)
            && (r.Ok? ==>
                  && r.value == t.nextId && t' == t.(nextId := t.nextId + 1, rows := t'.rows)
                  && t.nextId in t'.rows && t'.rows[t.nextId] == Row(q.job, q.bytes, "", now, now + q.ttl)
                  && forall id :: id != t.nextId ==> (id in t'.rows <==> id in t.rows) && (id in t.rows ==> t'.rows[id] == t.rows[id]))
  {
    hide MonthOf, MonthTotal, SumRows;
  }

  /** A row keeps every job id attached to it, in order, and nothing else of it changes. */
  lemma AttachAppends(t: Tables, id: nat, jobId: string, other: nat)
    ensures Attach(t, id, jobId).rows.Keys == t.rows.Keys
    ensures other in t.rows && other != id ==> Attach(t, id, jobId).rows[other] == t.rows[other]
    ensures id in t.rows ==>
              var before, after := t.rows[id], Attach(t, id, jobId).rows[id];
              && after == before.(jobId := after.jobId) && before.jobId <= after.jobId
              && after.jobId[|before.jobId|..] == if before.jobId == "" then jobId else "," + jobId
  {
  }

  // ---------------------------------------------------------------- lemmas about the sums

  lemma {:induction false} UpsertTotal(ledger: seq<Line>, month: int, job: string, billed: nat, m: int)
    ensures MonthTotal(Upsert(ledger, month, job, billed), m) == MonthTotal(ledger, m) + if m == month then billed else 0
  {
    if ledger == [] {
    } else {
      if ledger[0].month == month && ledger[0].job == job {
        assert Upsert(ledger, month, job, billed)[1..] == ledger[1..];
      } else {
        assert Upsert(ledger, month, job, billed)[1..] == Upsert(ledger[1..], month, job, billed);
        UpsertTotal(ledger[1..], month, job, billed, m);
      }
    }
  }

  predicate UniqueLines(ledger: seq<Line>) {
    forall i, j :: 0 <= i < j < |ledger| ==> ledger[i].month != ledger[j].month || ledger[i].job != ledger[j].job
  }

  /** The upsert keeps (month, job) a key: it adds at most one line, and only for a key that was absent. */
  lemma {:induction false} UpsertKeepsUnique(ledger: seq<Line>, month: int, job: string, billed: nat)
    requires UniqueLines(ledger)
    ensures UniqueLines(Upsert(ledger, month, job, billed))
    ensures forall l :: l in Upsert(ledger, month, job, billed) ==>
              (l.month == month && l.job == job) || l in ledger
  {
    if ledger != [] && !(ledger[0].month == month && ledger[0].job == job) {
      UpsertKeepsUnique(ledger[1..], month, job, billed);
      var rest := Upsert(ledger[1..], month, job, billed);
      var all := Upsert(ledger, month, job, billed);
      assert all == [ledger[0]] + rest;
      forall j | 0 < j < |all| ensures all[0].month != all[j].month || all[0].job != all[j].job {
        assert all[j] == rest[j - 1] && rest[j - 1] in rest;
        if rest[j - 1] in ledger[1..] {
          var k :| 0 <= k < |ledger[1..]| && ledger[1..][k] == rest[j - 1];
          assert ledger[k + 1] == rest[j - 1];
        }
      }
    }
  }

  lemma {:induction false} SumRowsOther(rows: map<nat, Row>, sel: Row -> bool, id: nat, r: Row, n: nat)
    requires n <= id
    ensures SumRows(rows[id := r], sel, n) == SumRows(rows, sel, n)
  {
    if n == 0 {
    } else {
      SumRowsOther(rows, sel, id, r, n - 1);
    }
  }

  lemma {:induction false} SumRowsRemove(rows: map<nat, Row>, sel: Row -> bool, id: nat, n: nat)
    requires id in rows
    ensures SumRows(rows - {id}, sel, n) + (if id < n && sel(rows[id]) then rows[id].bytes else 0) == SumRows(rows, sel, n)
  {
    if n == 0 {
    } else {
      SumRowsRemove(rows, sel, id, n - 1);
    }
  }

  /** Replacing a row by one of the same size that sel treats alike changes no sum. */
  lemma {:induction false} SumRowsReplace(rows: map<nat, Row>, sel: Row -> bool, id: nat, r: Row, n: nat)
    requires id in rows && r.bytes == rows[id].bytes && sel(r) == sel(rows[id])
    ensures SumRows(rows[id := r], sel, n) == SumRows(rows, sel, n)
  {
    if n == 0 {
    } else {
      SumRowsReplace(rows, sel, id, r, n - 1);
    }
  }

  /** A row is counted, or skipped; counted rows are the month's or another's. */
  lemma {:induction false} MonthSplit(rows: map<nat, Row>, now: int, month: int, n: nat)
    ensures SumRows(rows, InMonth(month), n) + SumRows(rows, CountedElsewhere(now, month), n) ==
            SumRows(rows, Counted(now), n) + SumRows(rows, SkippedBy(now, month), n)
  {
    hide MonthOf;
    if n == 0 {
    } else {
      MonthSplit(rows, now, month, n - 1);
    }
  }

  // ---------------------------------------------------------------- one step's effect on a month's exposure

  lemma ReserveExposure(t: Tables, budget: int, q: Request, now: int, month: int)
    requires Reserve(t, budget, q, now).1.Ok?
    ensures var t' := Reserve(t, budget, q, now).0;
            if month == MonthOf(now) then Exposure(t', month) <= budget + Skipped(t, now, month)
            else Exposure(t', month) == Exposure(t, month)
  {
    hide MonthOf;
    SumRowsOther(t.rows, InMonth(month), t.nextId, Row(q.job, q.bytes, "", now, now + q.ttl), t.nextId);
    MonthSplit(t.rows, now, month, t.nextId);
  }

  /**
    Does a granted reservation leave its month within the budget? The rows it
    skipped must fit into what it left over, or be made up for by rows of other
    months that it counted.
   */
  predicate Fits(t: Tables, budget: int, q: Request, now: int) {
    Skipped(t, now, MonthOf(now)) <=
      SumRows(t.rows, CountedElsewhere(now, MonthOf(now)), t.nextId) + (Remaining(t, budget, now) - q.bytes)
  }

  lemma GrantedFitsExact(t: Tables, budget: int, q: Request, now: int)
    requires Reserve(t, budget, q, now).1.Ok?
    ensures Exposure(Reserve(t, budget, q, now).0, MonthOf(now)) <= budget <==> Fits(t, budget, q, now)
  {
    hide MonthOf, BaselineActive;
    var month := MonthOf(now);
    SumRowsOther(t.rows, InMonth(month), t.nextId, Row(q.job, q.bytes, "", now, now + q.ttl), t.nextId);
    MonthSplit(t.rows, now, month, t.nextId);
  }

  lemma {:induction false} CountedAtMostAll(rows: map<nat, Row>, now: int, n: nat)
    ensures SumRows(rows, Counted(now), n) <= SumRows(rows, r => true, n)
  {
    if n == 0 {
    } else {
      CountedAtMostAll(rows, now, n - 1);
    }
  }

  /** A reservation that fits beside everything the month was charged and everything outstanding is granted; a refusal changes nothing. */
  lemma FittingReservationGranted(t: Tables, budget: int, q: Request, now: int)
    ensures q.job != BASELINE_JOB && (q.hardCap > 0 ==> q.bytes <= q.hardCap) &&
            MonthTotal(t.ledger, MonthOf(now)) + SumRows(t.rows, r => true, t.nextId) + q.bytes <= budget ==>
              Reserve(t, budget, q, now).1 == Ok(t.nextId)
    ensures Reserve(t, budget, q, now).1.Err? ==> Reserve(t, budget, q, now).0 == t
  {
    hide MonthOf;
    CountedAtMostAll(t.rows, now, t.nextId);
  }

  lemma AttachExposure(t: Tables, id: nat, jobId: string, month: int)
    ensures Exposure(Attach(t, id, jobId), month) == Exposure(t, month)
  {
    hide MonthOf;
    if id in t.rows {
      SumRowsReplace(t.rows, InMonth(month), id, AttachTo(t.rows[id], jobId), t.nextId);
    }
  }

  /** Bytes billed above what the row reserved. */
  function Excess(t: Tables, id: nat, billed: int, month: int): nat {
    if id in t.rows && MonthOf(t.rows[id].created) == month && billed > t.rows[id].bytes then billed - t.rows[id].bytes else 0
  }

  lemma SettleExposure(t: Tables, id: nat, billed: int, month: int)
    requires id in t.rows ==> id < t.nextId
    ensures Exposure(Settle(t, id, billed), month) <= Exposure(t, month) + Excess(t, id, billed, month)
    ensures id in t.rows && billed == t.rows[id].bytes ==> Exposure(Settle(t, id, billed), month) == Exposure(t, month)
  {
    hide MonthOf;
    if id in t.rows {
      SumRowsRemove(t.rows, InMonth(month), id, t.nextId);
      if billed > 0 {
        UpsertTotal(t.ledger, MonthOf(t.rows[id].created), t.rows[id].job, billed, month);
      }
    }
  }
}
