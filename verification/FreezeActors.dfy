/** The syncer's tick and the backfill run as the program executes them, against a source that may fail. */
module FreezeActors {
  import opened Wrappers
  import opened Calendar
  import opened FreezeStore
  import opened BackfillPlan
  import opened FreezeCoverage
  import opened BackfillConfirm

  const BILLED_RETRY_SECONDS := 6 * 3600
  const SYNC_MAX_BYTES := 150 * 0x4000_0000
  const BACKFILL_MIN_MAX_BYTES := 64 * 0x10_0000

  /** The source's answer to one fetch: the rows, or a failure; both report the bytes billed. */
  datatype Fetched =
    | Rows(events: seq<Event>, billed: nat)
    | Failed(billed: nat, timedOut: bool)

  datatype SyncOutcome = NothingToDo | BlockCheckFailed | NotCaughtUp | GapTooLarge | FetchFailed | StoreFailed | Synced

  /** The first day a tick would fetch. */
  function StartDay(st: SyncState, now: int, initialDays: nat): int {
    if st.cursor.None? then DayOf(now) - initialDays else st.cursor.value + 1
  }

  /**
    Is there anything to look for? Not while a billed failure is waited out, not
    before a first backfill when none is configured, and not when the only
    complete day that is missing is yesterday and it is not yet 00:30.
   */
  predicate Due(st: SyncState, retryAfter: int, now: int, initialDays: nat) {
    var today := DayOf(now);
    && now >= retryAfter
    && if st.cursor.None? then initialDays > 0
       else
         && st.cursor.value < today - 1
         && (st.cursor.value == today - 2 ==> now >= DayStart(today) + FINALITY_SECONDS)
  }

  /** What a tick that finds the days [start, end) wanting asks the source for. */
  function TickWindow(st: SyncState, start: int, end: int): Window {
    Window(start, end, if st.cursor.None? then Some(start) else None, Some(end - 1))
  }

  /** A day a tick can fetch up to was found, and the days before it are some and not too many. */
  predicate Fetches(st: SyncState, now: int, exported: int, initialDays: nat) {
    var start := StartDay(st, now, initialDays);
    var end := SafeEndFrom(now, exported, Some(start));
    end.Some? && start < end.value <= start + MAX_WINDOW_DAYS
  }

  /** How a tick that fetched ends. */
  predicate FetchedAs(outcome: SyncOutcome, answer: Fetched, storeFails: bool) {
    && (outcome == FetchFailed <==> answer.Failed?)
    && (outcome == StoreFailed <==> answer.Rows? && storeFails)
    && (outcome == Synced <==> answer.Rows? && !storeFails)
  }

  /** After a failure that was or may have been billed there is no retry for six hours. */
  predicate Waits(outcome: SyncOutcome, answer: Fetched) {
    outcome == StoreFailed || (answer.Failed? && (answer.billed > 0 || answer.timedOut))
  }

  class StablecoinSyncer {
    const store: RiskStore
    const initialDays: nat
    var retryAfter: int

    constructor (store: RiskStore, initialDays: nat)
      ensures this.store == store && this.initialDays == initialDays && retryAfter == 0
    {
      this.store, this.initialDays, this.retryAfter := store, initialDays, 0;
    }

    /**
      One tick. The first clauses say exactly when it ends in which way; then
      what it stores, bills and waits for; the last two what a healthy tick
      achieves, in days of the calendar.
     */
    method Sync(now: int, checkFails: bool, exported: int, fetch: (Window, nat) -> Fetched, storeFails: bool)
      returns (outcome: SyncOutcome, billed: nat)
      requires forall w, cap :: fetch(w, cap).billed <= cap
      modifies this`retryAfter, store
      ensures var st := SyncStateOf(old(store.State()));
              var start := StartDay(st, now, initialDays);
              var end := SafeEndFrom(now, exported, Some(start));
              var due := Due(st, old(retryAfter), now, initialDays);
              && (outcome == BlockCheckFailed <==> due && checkFails)
              && (outcome == NotCaughtUp <==> due && !checkFails && end.None?)
              && (outcome == NothingToDo <==> !due || (!checkFails && end.Some? && end.value <= start))
              && (outcome == GapTooLarge <==> due && !checkFails && end.Some? && start + MAX_WINDOW_DAYS < end.value)
      ensures var st := SyncStateOf(old(store.State()));
              Due(st, old(retryAfter), now, initialDays) && !checkFails && Fetches(st, now, exported, initialDays) ==>
                var start := StartDay(st, now, initialDays);
                var w := TickWindow(st, start, SafeEndFrom(now, exported, Some(start)).value);
                var answer := fetch(w, SYNC_MAX_BYTES);
                && SyncPlan(st, now, exported, initialDays) == Some(w) && billed == answer.billed
                && FetchedAs(outcome, answer, storeFails)
                && (outcome == Synced ==> store.State() == InsertWindow(old(store.State()), answer.events, w))
                && retryAfter == if Waits(outcome, answer) then now + BILLED_RETRY_SECONDS else old(retryAfter)
      ensures outcome != Synced ==> store.State() == old(store.State())
      ensures outcome !in {FetchFailed, StoreFailed, Synced} ==> billed == 0 && retryAfter == old(retryAfter)
      ensures billed <= SYNC_MAX_BYTES
      ensures var today := DayOf(now);
              Unhindered(old(retryAfter), now, checkFails, exported, storeFails) && old(store.cursor).Some? && old(store.cursor).value + 1 < today <= old(store.cursor).value + 32 ==>
                var w := Window(old(store.cursor).value + 1, today, None, Some(today - 1));
                fetch(w, SYNC_MAX_BYTES).Rows? ==>
                  outcome == Synced && store.cursor == Some(today - 1) && store.coverageFrom == old(store.coverageFrom) &&
                  store.State() == InsertWindow(old(store.State()), fetch(w, SYNC_MAX_BYTES).events, w)
      ensures var today := DayOf(now);
              Unhindered(old(retryAfter), now, checkFails, exported, storeFails) && old(store.cursor).None? && old(store.coverageFrom).None? && 1 <= initialDays <= 31 ==>
                var w := Window(today - initialDays, today, Some(today - initialDays), Some(today - 1));
                fetch(w, SYNC_MAX_BYTES).Rows? ==>
                  outcome == Synced && (forall d :: Claims(store.State(), d) <==> today - initialDays <= d < today) &&
                  store.State() == InsertWindow(old(store.State()), fetch(w, SYNC_MAX_BYTES).events, w)
    {
      hide InsertWindow, SafeEndFrom, DayOf, Claims;
      ghost var s0 := store.State();
      if Unhindered(retryAfter, now, checkFails, exported, storeFails) {
        HealthyGap(SyncStateOf(s0), retryAfter, now, exported, initialDays);
      }
      billed := 0;
      if now < retryAfter {
        return NothingToDo, 0;
      }
      var today := DayOf(now);
      var start: int;
      var newFrom: Option<int> := None;
      if store.cursor.None? {
        if initialDays == 0 {
          return NothingToDo, 0;
        }
        start := today - initialDays;
        newFrom := Some(start);
      } else {
        start := store.cursor.value + 1;
        if start >= today || (start >= today - 1 && now < DayStart(today) + FINALITY_SECONDS) {
          return NothingToDo, 0;
        }
      }
      if checkFails {
        return BlockCheckFailed, 0;
      }
      var end := SafeEndFrom(now, exported, Some(start));
      if end.None? {
        return NotCaughtUp, 0;
      }
      if start >= end.value {
        return NothingToDo, 0;
      }
      if end.value - start > MAX_WINDOW_DAYS {
        return GapTooLarge, 0;
      }
      var w := Window(start, end.value, newFrom, Some(end.value - 1));
      outcome, billed := FetchWindow(w, now, fetch, storeFails);
      if outcome == Synced {
        WatermarksMove(s0, fetch(w, SYNC_MAX_BYTES).events, w);
        if s0.cursor.None? && s0.coverageFrom.None? {
          ColdClaims(s0, fetch(w, SYNC_MAX_BYTES).events, w);
        }
      }
    }

    /** The billed part of a tick: one fetch and one commit. */
    method FetchWindow(w: Window, now: int, fetch: (Window, nat) -> Fetched, storeFails: bool) returns (outcome: SyncOutcome, billed: nat)
      modifies this`retryAfter, store
      ensures FetchedAs(outcome, fetch(w, SYNC_MAX_BYTES), storeFails) && billed == fetch(w, SYNC_MAX_BYTES).billed
      ensures store.State() ==
                if outcome == Synced then InsertWindow(old(store.State()), fetch(w, SYNC_MAX_BYTES).events, w) else old(store.State())
      ensures retryAfter == if Waits(outcome, fetch(w, SYNC_MAX_BYTES)) then now + BILLED_RETRY_SECONDS else old(retryAfter)
    {
      hide InsertWindow;
      match fetch(w, SYNC_MAX_BYTES)
      case Failed(b, timedOut) =>
        if b > 0 || timedOut {
          retryAfter := now + BILLED_RETRY_SECONDS;
        }
        return FetchFailed, b;
      case Rows(events, b) =>
        if storeFails {
          retryAfter := now + BILLED_RETRY_SECONDS;
          return StoreFailed, b;
        }
        store.InsertStablecoinWindow(events, w);
        return Synced, b;
    }
  }

  /** With a gap of at most 31 days a healthy tick fetches all of it. */
  lemma HealthyGap(st: SyncState, retryAfter: int, now: int, exported: int, initialDays: nat)
    requires Unhindered(retryAfter, now, false, exported, false)
    ensures var today := DayOf(now);
            st.cursor.Some? && st.cursor.value + 1 < today <= st.cursor.value + 32 ==>
              Due(st, retryAfter, now, initialDays) && Fetches(st, now, exported, initialDays) &&
              SafeEndFrom(now, exported, Some(StartDay(st, now, initialDays))) == Some(today)
    ensures st.cursor.None? && 1 <= initialDays <= 31 ==>
              Due(st, retryAfter, now, initialDays) && Fetches(st, now, exported, initialDays) &&
              SafeEndFrom(now, exported, Some(StartDay(st, now, initialDays))) == Some(DayOf(now))
  {
    hide DayOf;
  }

  lemma ColdClaims(s: StoreState, batch: seq<Event>, w: Window)
    requires s.cursor.None? && s.coverageFrom.None? && w.start < w.end && w.newFrom == Some(w.start) && w.newCursor == Some(w.end - 1)
    ensures forall d :: Claims(InsertWindow(s, batch, w), d) <==> w.start <= d < w.end
  {
  }

  /** No failure is waited out, none happens, it is past 00:30 and the export holds all of yesterday. */
  predicate Unhindered(retryAfter: int, now: int, checkFails: bool, exported: int, storeFails: bool) {
    && now >= retryAfter && !checkFails && !storeFails
    && now >= DayStart(DayOf(now)) + FINALITY_SECONDS && exported >= DayOf(now)
  }

  // ---------------------------------------------------------------- the backfill run

  function BatchCap(size: nat): nat {
    Max(size + size / 10, BACKFILL_MIN_MAX_BYTES)
  }

  /** A batch may bill its dry run and a tenth, to the byte, and never less than 64 MiB. */
  lemma BatchCapExact(size: nat, bytes: nat)
    ensures bytes <= BatchCap(size) <==> 10 * bytes <= 11 * size || bytes <= BACKFILL_MIN_MAX_BYTES
  {
  }

  /** Dry-run bytes of the first k batches. */
  function TotalBytes(bs: seq<Batch>, k: nat, dryRun: Window -> nat): nat
    requires k <= |bs|
  {
    if k == 0 then 0 else TotalBytes(bs, k - 1, dryRun) + dryRun(bs[k - 1].window)
  }

  /** The sum of the billing caps of the first k batches. */
  function TotalCap(bs: seq<Batch>, k: nat, dryRun: Window -> nat): nat
    requires k <= |bs|
  {
    if k == 0 then 0 else TotalCap(bs, k - 1, dryRun) + BatchCap(dryRun(bs[k - 1].window))
  }

  /** The caps together exceed the estimate by at most a tenth and 64 MiB a batch. */
  lemma {:induction false} TotalCapBound(bs: seq<Batch>, k: nat, dryRun: Window -> nat)
    requires k <= |bs|
    ensures 10 * TotalCap(bs, k, dryRun) <= 11 * TotalBytes(bs, k, dryRun) + 10 * k * BACKFILL_MIN_MAX_BYTES
  {
    if k == 0 {
    } else {
      TotalCapBound(bs, k - 1, dryRun);
    }
  }

  lemma {:induction false} TotalCapMonotone(bs: seq<Batch>, j: nat, k: nat, dryRun: Window -> nat)
    requires j <= k <= |bs|
    ensures TotalCap(bs, j, dryRun) <= TotalCap(bs, k, dryRun)
    decreases k - j
  {
    if j == k {
    } else {
      TotalCapMonotone(bs, j, k - 1, dryRun);
    }
  }

  /** The store after the first k batches were fetched and committed in order. */
  function Committed(s: StoreState, bs: seq<Batch>, k: nat, dryRun: Window -> nat, fetch: (Window, nat) -> Fetched): StoreState
    requires k <= |bs|
  {
    if k == 0 then s
    else
      var w := bs[k - 1].window;
      var answer := fetch(w, BatchCap(dryRun(w)));
      InsertWindow(Committed(s, bs, k - 1, dryRun, fetch), if answer.Rows? then answer.events else [], w)
  }

  lemma {:induction false} CommittedWatermarks(s: StoreState, bs: seq<Batch>, k: nat, dryRun: Window -> nat, fetch: (Window, nat) -> Fetched)
    requires k <= |bs|
    ensures SyncStateOf(Committed(s, bs, k, dryRun, fetch)) == AfterBatches(SyncStateOf(s), bs[..k])
  {
    if k > 0 {
      CommittedWatermarks(s, bs, k - 1, dryRun, fetch);
      var last := [bs[k - 1]];
      assert bs[..k] == bs[..k - 1] + last && last[1..] == [];
      AfterConcat(SyncStateOf(s), bs[..k - 1], last);
    } else {
      assert bs[..0] == [];
    }
  }

  /** A stopped backfill run resumes: the next plan is exactly what the stopped run did not commit. */
  lemma BackfillResumes(s: StoreState, since: int, end: int, done: nat, dryRun: Window -> nat, fetch: (Window, nat) -> Fetched)
    requires s.coverageFrom.Some? <==> s.cursor.Some?
    requires done <= |BackfillBatches(SyncStateOf(s), since, end, false)|
    ensures var plan := BackfillBatches(SyncStateOf(s), since, end, false);
            BackfillBatches(SyncStateOf(Committed(s, plan, done, dryRun, fetch)), since, end, false) == plan[done..]
  {
    hide Plan, YearStart, YearOf;
    CommittedWatermarks(s, BackfillBatches(SyncStateOf(s), since, end, false), done, dryRun, fetch);
    PlanResumes(SyncStateOf(s), since, end, done);
  }

  // ---------------------------------------------------------------- a complete backfill covers the late tokens

  /** A late token's coverage start and the cursor, as batches are committed. */
  datatype TokenState = TokenState(from: Option<int>, cursor: Option<int>)

  function TokenStateOf(s: StoreState, token: string): TokenState { TokenState(Lookup(s.tokenFrom, token), s.cursor) }

  function NextToken(t: TokenState, w: Window): TokenState {
    var cursor := MoveCursor(t.cursor, w.newCursor);
    var next := NextTokenFrom(t.from, cursor, w);
    TokenState(if next.Some? then next else t.from, cursor)
  }

  function TokenAfter(t: TokenState, bs: seq<Batch>): TokenState
    decreases |bs|
  {
    if bs == [] then t else TokenAfter(NextToken(t, bs[0].window), bs[1..])
  }

  lemma {:induction false} TokenAfterConcat(t: TokenState, a: seq<Batch>, b: seq<Batch>)
    ensures TokenAfter(t, a + b) == TokenAfter(TokenAfter(t, a), b)
    decreases |a|
  {
    if a == [] {
      assert a + b == b;
    } else {
      assert (a + b)[1..] == a[1..] + b;
      TokenAfterConcat(NextToken(t, a[0].window), a[1..], b);
    }
  }

  lemma {:induction false} CommittedToken(s: StoreState, bs: seq<Batch>, k: nat, dryRun: Window -> nat, fetch: (Window, nat) -> Fetched, token: string)
    requires k <= |bs| && token in LATE_TOKENS && forall i :: 0 <= i < |bs| ==> bs[i].window.start < bs[i].window.end
    ensures TokenStateOf(Committed(s, bs, k, dryRun, fetch), token) == TokenAfter(TokenStateOf(s, token), bs[..k])
  {
    hide NextTokenFrom, BatchCap, InsertOrIgnore;
    if k == 0 {
      assert bs[..0] == [];
    } else {
      CommittedToken(s, bs, k - 1, dryRun, fetch, token);
      var before, w := Committed(s, bs, k - 1, dryRun, fetch), bs[k - 1].window;
      ExtendTokensAt(before.tokenFrom, MoveCursor(before.cursor, w.newCursor), w, LATE_TOKENS, token);
      assert bs[..k] == bs[..k - 1] + [bs[k - 1]] && [bs[k - 1]][1..] == [];
      TokenAfterConcat(TokenStateOf(s, token), bs[..k - 1], [bs[k - 1]]);
    }
  }

  /** Years back from `from` take the token's start back to `since`, whether it had one or the first of them reaches the cursor. */
  lemma {:induction false} YearsCoverToken(t: TokenState, from: int, since: int)
    requires t.cursor.Some? && (if t.from.Some? then t.from.value <= from else t.cursor.value < from && since < from)
    ensures TokenAfter(t, BackwardYears(from, since)) == TokenState(Some(if t.from.Some? then Min(t.from.value, since) else since), t.cursor)
    decreases from - since
  {
    hide YearStart, YearOf;
    if from <= since {
    } else {
      var start := Max(since, YearStart(from - 1));
      var w := BackwardYears(from, since)[0].window;
      assert BackwardYears(from, since)[1..] == BackwardYears(start, since);
      YearsCoverToken(NextToken(t, w), start, since);
    }
  }

  /** The forward chunks give a token without a start the first of their days, and leave one that has a start alone. */
  lemma {:induction false} ChunksCoverToken(t: TokenState, s: int, end: int)
    requires t.cursor == Some(s - 1) && (t.from.Some? ==> t.from.value <= s)
    ensures TokenAfter(t, ForwardChunks(s, end)) ==
            TokenState(if t.from.None? && s < end then Some(s) else t.from, Some(Max(s, end) - 1))
    decreases end - s
  {
    if s >= end {
    } else {
      var e := Min(s + MAX_WINDOW_DAYS, end);
      assert ForwardChunks(s, end)[1..] == ForwardChunks(e, end);
      ChunksCoverToken(NextToken(t, ForwardChunks(s, end)[0].window), e, end);
    }
  }

  /** The windows of a plan are not empty. */
  lemma PlanWindows(st: SyncState, since: int, end: int)
    ensures forall i :: 0 <= i < |Plan(st, since, end)| ==> Plan(st, since, end)[i].window.start < Plan(st, since, end)[i].window.end
  {
    hide Plan, YearStart, YearOf;
    PlanShape(st, since, end);
    forall i | 0 <= i < |Plan(st, since, end)| ensures WellShaped(Plan(st, since, end)[i]) {
      assert Plan(st, since, end)[i] in Plan(st, since, end);
    }
  }

  /**
    A backfill that runs to its end, on an empty store or forced, takes each late
    token's coverage back to `since`, even one that joined the sync later.
   */
  lemma CompleteBackfillCoversTokens(s: StoreState, since: int, end: int, force: bool, dryRun: Window -> nat, fetch: (Window, nat) -> Fetched, token: string)
    requires token in LATE_TOKENS && (token in s.tokenFrom ==> s.cursor.Some? && s.tokenFrom[token] <= s.cursor.value + 1)
    requires if s.cursor.None? then since < end else force && since <= s.cursor.value
    ensures var plan := BackfillBatches(SyncStateOf(s), since, end, force);
            var t := Committed(s, plan, |plan|, dryRun, fetch);
            token in t.tokenFrom && t.tokenFrom[token] == if token in s.tokenFrom then Min(s.tokenFrom[token], since) else since
  {
    hide YearStart, YearOf, Committed, NextTokenFrom, Plan, BackwardYears, ForwardChunks;
    var plan := BackfillBatches(SyncStateOf(s), since, end, force);
    var st := if s.cursor.Some? then SyncState(Some(s.cursor.value + 1), s.cursor) else SyncStateOf(s);
    assert plan == Plan(st, since, end);
    PlanWindows(st, since, end);
    CommittedToken(s, plan, |plan|, dryRun, fetch, token);
    assert plan[..|plan|] == plan;
    if s.cursor.None? {
      ColdPlanCoversToken(TokenStateOf(s, token), since, end);
      ColdPlanIgnoresStart(st, since, end);
    } else {
      ForcedPlanCoversToken(TokenStateOf(s, token), since, end);
    }
  }

  lemma TokenAfterCons(t: TokenState, b: Batch, rest: seq<Batch>)
    ensures TokenAfter(t, [b] + rest) == TokenAfter(NextToken(t, b.window), rest)
  {
    hide NextToken;
    assert ([b] + rest)[1..] == rest;
  }

  lemma ColdPlanCoversToken(t: TokenState, since: int, end: int)
    requires t.cursor.None? && t.from.None? && since < end
    ensures TokenAfter(t, Plan(SyncState(None, None), since, end)).from == Some(since)
  {
    hide YearStart, YearOf, BackwardYears, TokenAfter;
    var cold := ColdBatch(since, end);
    TokenAfterCons(t, cold, BackwardYears(cold.window.start, since));
    YearsCoverToken(NextToken(t, cold.window), cold.window.start, since);
  }

  lemma ColdPlanIgnoresStart(st: SyncState, since: int, end: int)
    requires st.cursor.None?
    ensures Plan(st, since, end) == Plan(SyncState(None, None), since, end)
  {
    hide YearStart, YearOf, BackwardYears;
  }

  lemma ForcedPlanCoversToken(t: TokenState, since: int, end: int)
    requires t.cursor.Some? && since <= t.cursor.value && (t.from.Some? ==> t.from.value <= t.cursor.value + 1)
    ensures TokenAfter(t, Plan(SyncState(Some(t.cursor.value + 1), t.cursor), since, end)).from ==
            Some(if t.from.Some? then Min(t.from.value, since) else since)
  {
    hide YearStart, YearOf, BackwardYears, ForwardChunks, TokenAfter, NextToken;
    var c := t.cursor.value;
    TokenAfterConcat(t, ForwardChunks(c + 1, end), BackwardYears(c + 1, since));
    ChunksCoverToken(t, c + 1, end);
    YearsCoverToken(TokenAfter(t, ForwardChunks(c + 1, end)), c + 1, since);
  }

  /** Forcing fetches every day of [since, end) again, covered or not; without it only the days still owed are fetched. */
  lemma ForcedPlanTiles(st: SyncState, since: int, end: int, d: int)
    requires st.cursor.Some?
    ensures Times(BackfillBatches(st, since, end, true), d) == if since <= d <= st.cursor.value || st.cursor.value < d < end then 1 else 0
    ensures st.coverageFrom.Some? && st.coverageFrom.value <= st.cursor.value + 1 ==>
              Times(BackfillBatches(st, since, end, false), d) == if since <= d < st.coverageFrom.value || st.cursor.value < d < end then 1 else 0
  {
    hide Plan, YearStart, YearOf;
    PlanTiles(SyncState(Some(st.cursor.value + 1), st.cursor), since, end, d);
    if st.coverageFrom.Some? && st.coverageFrom.value <= st.cursor.value + 1 {
      PlanTiles(st, since, end, d);
    }
  }

  // ---------------------------------------------------------------- estimate and run

  datatype EstimateError = BlockCheckError | BlocksNotExported | DryRunError

  datatype Estimate = Estimate(batches: seq<Batch>, end: int, total: nat)

  /** The export's answer to the block check, and what each window's free dry run says, None when it fails. */
  datatype Probe = Probe(checkFails: bool, exported: int, dryRun: Window -> Option<nat>)

  function BytesOf(size: Option<nat>): nat {
    if size.Some? then size.value else 0
  }

  function Size(probe: Probe): Window -> nat {
    (w: Window) => BytesOf(probe.dryRun(w))
  }

  predicate DryRunFails(probe: Probe, bs: seq<Batch>) {
    exists i :: 0 <= i < |bs| && probe.dryRun(bs[i].window).None?
  }

  /** What a backfill at `now` would run and cost, by the watermarks st. */
  function EstimateOf(st: SyncState, since: int, force: bool, now: int, probe: Probe): Result<Estimate, EstimateError> {
    var end := SafeEndFrom(now, probe.exported, None);
    if probe.checkFails then Err(BlockCheckError)
    else if end.None? then Err(BlocksNotExported)
    else
      var plan := BackfillBatches(st, since, end.value, force);
      if DryRunFails(probe, plan) then Err(DryRunError)
      else Ok(Estimate(plan, end.value, TotalBytes(plan, |plan|, Size(probe))))
  }

  /** The end from the export, the batches from the watermarks, the cost from free dry runs. */
  method EstimateBackfill(store: RiskStore, since: int, force: bool, now: int, probe: Probe) returns (r: Result<Estimate, EstimateError>)
    ensures r == EstimateOf(SyncStateOf(store.State()), since, force, now, probe)
  {
    hide Plan, YearStart, YearOf, SafeEndFrom;
    if probe.checkFails {
      return Err(BlockCheckError);
    }
    var end := SafeEndFrom(now, probe.exported, None);
    if end.None? {
      return Err(BlocksNotExported);
    }
    var batches := PlanBackfill(
      if force && store.cursor.Some? then SyncState(Some(store.cursor.value + 1), store.cursor)
      else SyncState(store.coverageFrom, store.cursor), since, end.value);
    var total := 0;
    for j := 0 to |batches|
      invariant total == TotalBytes(batches, j, Size(probe))
      invariant forall i :: 0 <= i < j ==> probe.dryRun(batches[i].window).Some?
    {
      var size := probe.dryRun(batches[j].window);
      if size.None? {
        return Err(DryRunError);
      }
      total := total + size.value;
    }
    r := Ok(Estimate(batches, end.value, total));
  }

  datatype RunOutcome = EstimateFailed | EstimateGrew | NothingToBackfill | DryRunOnly | BatchFailed | Complete

  /** Batch i is fetched and stored. */
  predicate Succeeds(bs: seq<Batch>, i: nat, size: Window -> nat, fetch: (Window, nat) -> Fetched, storeFails: Window -> bool)
    requires i < |bs|
  {
    var w := bs[i].window;
    fetch(w, BatchCap(size(w))).Rows? && !storeFails(w)
  }

  /** What the fetches of the first k batches were billed. */
  function BilledFor(bs: seq<Batch>, k: nat, size: Window -> nat, fetch: (Window, nat) -> Fetched): nat
    requires k <= |bs|
  {
    if k == 0 then 0
    else
      var w := bs[k - 1].window;
      BilledFor(bs, k - 1, size, fetch) + fetch(w, BatchCap(size(w))).billed
  }

  /** The batches before `done` succeeded, the next one if any failed, and all of them were billed. */
  predicate RanUntil(bs: seq<Batch>, done: nat, billed: nat, size: Window -> nat, fetch: (Window, nat) -> Fetched, storeFails: Window -> bool) {
    && done <= |bs| && (forall i :: 0 <= i < done ==> Succeeds(bs, i, size, fetch, storeFails))
    && (done < |bs| ==> !Succeeds(bs, done, size, fetch, storeFails))
    && billed == BilledFor(bs, if done < |bs| then done + 1 else done, size, fetch)
  }

  /** How a run that began with the estimate e ends, what it stored and what it was billed. */
  predicate RanAgainst(e: Estimate, s0: StoreState, s: StoreState, outcome: RunOutcome, billed: nat, done: nat, yes: bool, maxTotalBytes: nat,
                       size: Window -> nat, fetch: (Window, nat) -> Fetched, storeFails: Window -> bool)
  {
    var grew := maxTotalBytes > 0 && e.total > maxTotalBytes;
    && done <= |e.batches| && s == Committed(s0, e.batches, done, size, fetch)
    && (outcome == EstimateGrew <==> grew)
    && (outcome == NothingToBackfill <==> !grew && e.batches == [])
    && (outcome == DryRunOnly <==> !grew && e.batches != [] && !yes)
    && (grew || e.batches == [] || !yes ==> done == 0 && billed == 0)
    && (!grew && e.batches != [] && yes ==>
          RanUntil(e.batches, done, billed, size, fetch, storeFails) && outcome == if done == |e.batches| then Complete else BatchFailed)
    && 10 * billed <= 11 * e.total + 10 * |e.batches| * BACKFILL_MIN_MAX_BYTES
  }

  /**
    A backfill run: every batch commits its rows and watermarks together, so
    whatever happens the store is the old store plus a prefix of the plan, and
    the bill is at most 1.1 times the estimate plus 64 MiB a batch.
   */
  method RunBackfill(store: RiskStore, since: int, force: bool, yes: bool, maxTotalBytes: nat,
                     now: int, probe: Probe, fetch: (Window, nat) -> Fetched, storeFails: Window -> bool)
    returns (outcome: RunOutcome, billed: nat, done: nat)
    requires forall w, cap :: fetch(w, cap).billed <= cap
    modifies store
    ensures var e := EstimateOf(SyncStateOf(old(store.State())), since, force, now, probe);
            && (outcome == EstimateFailed <==> e.Err?)
            && (e.Err? ==> store.State() == old(store.State()) && billed == 0)
            && (e.Ok? ==> RanAgainst(e.value, old(store.State()), store.State(), outcome, billed, done, yes, maxTotalBytes, Size(probe), fetch, storeFails))
  {
    hide EstimateOf, InsertWindow;
    ghost var s0 := store.State();
    var e := EstimateBackfill(store, since, force, now, probe);
    billed, done := 0, 0;
    if e.Err? {
      return EstimateFailed, 0, 0;
    }
    SizedEstimate(SyncStateOf(s0), since, force, now, probe);
    var batches, total := e.value.batches, e.value.total;
    var size := Size(probe);
    TotalCapBound(batches, |batches|, size);
    if maxTotalBytes > 0 && total > maxTotalBytes {
      return EstimateGrew, 0, 0;
    }
    if |batches| == 0 {
      return NothingToBackfill, 0, 0;
    }
    if !yes {
      return DryRunOnly, 0, 0;
    }
    billed, done := RunBatches(store, batches, size, fetch, storeFails);
    outcome := if done == |batches| then Complete else BatchFailed;
  }

  /** Fetches and commits one batch after the other, up to the first that fails. */
  method RunBatches(store: RiskStore, batches: seq<Batch>, size: Window -> nat, fetch: (Window, nat) -> Fetched, storeFails: Window -> bool)
    returns (billed: nat, done: nat)
    requires forall w, cap :: fetch(w, cap).billed <= cap
    modifies store
    ensures done <= |batches| && store.State() == Committed(old(store.State()), batches, done, size, fetch)
    ensures billed <= TotalCap(batches, |batches|, size) && RanUntil(batches, done, billed, size, fetch, storeFails)
  {
    hide InsertWindow, BatchCap;
    billed, done := 0, 0;
    while done < |batches|
      invariant 0 <= done <= |batches|
      invariant store.State() == Committed(old(store.State()), batches, done, size, fetch)
      invariant billed <= TotalCap(batches, done, size) && billed == BilledFor(batches, done, size, fetch)
      invariant forall i :: 0 <= i < done ==> Succeeds(batches, i, size, fetch, storeFails)
    {
      var w := batches[done].window;
      var answer := fetch(w, BatchCap(size(w)));
      billed := billed + answer.billed;
      TotalCapMonotone(batches, done + 1, |batches|, size);
      if answer.Failed? || storeFails(w) {
        return billed, done;
      }
      store.InsertStablecoinWindow(answer.events, w);
      done := done + 1;
    }
  }

  lemma SizedEstimate(st: SyncState, since: int, force: bool, now: int, probe: Probe)
    ensures var e := EstimateOf(st, since, force, now, probe);
            e.Ok? ==> e.value.total == TotalBytes(e.value.batches, |e.value.batches|, Size(probe))
  {
    hide SafeEndFrom, BackfillBatches, TotalBytes;
  }

  /**
    A run the operator confirmed over HTTP, from the confirmation to its end:
    it is billed at most 1.1 times the cap of the estimate that was shown, plus
    64 MiB a batch, and a refused confirmation bills and stores nothing.
   */
  method ConfirmedBackfill(service: BackfillService, store: RiskStore, check: Precheck, force: bool, token: string, confirmedAt: int,
                           since: int, now: int, probe: Probe, fetch: (Window, nat) -> Fetched, storeFails: Window -> bool)
    returns (reply: Reply, outcome: RunOutcome, billed: nat, done: nat)
    requires forall w, cap :: fetch(w, cap).billed <= cap
    modifies service, store
    ensures reply == Confirm(old(service.State()), check, force, token, confirmedAt).1
    ensures service.State() == Confirm(old(service.State()), check, force, token, confirmedAt).0.(running := old(service.backfillRunning))
    ensures reply != Started ==> store.State() == old(store.State()) && billed == 0
    ensures reply == Started ==>
              var e, cap := EstimateOf(SyncStateOf(old(store.State())), since, ForceRepair(check, force), now, probe), ConfirmedCap(old(service.pendingPlan).value.bytes);
              && (outcome == EstimateFailed <==> e.Err?)
              && (e.Err? ==> store.State() == old(store.State()) && billed == 0)
              && (e.Ok? ==>
                    && RanAgainst(e.value, old(store.State()), store.State(), outcome, billed, done, true, cap, Size(probe), fetch, storeFails)
                    && 10 * billed <= 11 * cap + 10 * |e.value.batches| * BACKFILL_MIN_MAX_BYTES)
  {
    hide EstimateOf, Committed, BatchCap;
    outcome, billed, done := NothingToBackfill, 0, 0;
    var maxTotal: nat;
    reply, maxTotal := service.ConfirmRun(check, force, token, confirmedAt);
    if reply != Started {
      return;
    }
    outcome, billed, done := RunBackfill(store, since, ForceRepair(check, force), true, maxTotal, now, probe, fetch, storeFails);
    service.RunFinished();
  }
}
