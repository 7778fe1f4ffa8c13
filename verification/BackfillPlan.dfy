/**
  The batches a freeze-history backfill runs: first the forward gap after the
  cursor, then whole calendar years back from the coverage start.
 */
module BackfillPlan {
  import opened Wrappers
  import opened Calendar
  import opened FreezeStore

  const MAX_WINDOW_DAYS := 31

  datatype BatchKind = Year(y: int) | ForwardGap

  datatype Batch = Batch(kind: BatchKind, window: Window)

  /** The part of the sync row the planner reads. */
  datatype SyncState = SyncState(coverageFrom: Option<int>, cursor: Option<int>)

  function SyncStateOf(s: StoreState): SyncState {
    SyncState(s.coverageFrom, s.cursor)
  }

  function ForwardChunks(s: int, end: int): seq<Batch>
    decreases end - s
  {
    if s < end then
      var e := Min(s + MAX_WINDOW_DAYS, end);
      [Batch(ForwardGap, Window(s, e, None, Some(e - 1)))] + ForwardChunks(e, end)
    else []
  }

  function BackwardYears(from: int, since: int): seq<Batch>
    decreases from - since
  {
    if from > since then
      var start := Max(since, YearStart(from - 1));
      [Batch(Year(YearOf(start)), Window(start, from, Some(start), None))] + BackwardYears(start, since)
    else []
  }

  function ColdBatch(since: int, end: int): Batch {
    var first := Max(since, YearStart(end - 1));
    Batch(Year(YearOf(first)), Window(first, end, Some(first), Some(end - 1)))
  }

  function Plan(st: SyncState, since: int, end: int): seq<Batch> {
    if st.cursor.None? then
      var cold := ColdBatch(since, end);
      if cold.window.start < end then [cold] + BackwardYears(cold.window.start, since) else []
    else
      ForwardChunks(st.cursor.value + 1, end)
      + BackwardYears(if st.coverageFrom.Some? then st.coverageFrom.value else st.cursor.value + 1, since)
  }

  /** The planner as the program runs it. */
  method PlanBackfill(st: SyncState, since: int, end: int) returns (out: seq<Batch>)
    ensures out == Plan(st, since, end)
  {
    hide YearStart, YearOf, BackwardYears, ForwardChunks;
    var from: int;
    if st.cursor.None? {
      var first := Max(since, YearStart(end - 1));
      if first >= end {
        return [];
      }
      out := [Batch(Year(YearOf(first)), Window(first, end, Some(first), Some(end - 1)))];
      from := first;
    } else {
      var cur := st.cursor.value;
      from := cur + 1;
      if st.coverageFrom.Some? {
        from := st.coverageFrom.value;
      }
      out := Chunks(cur + 1, end);
    }
    out := AppendYears(out, from, since);
  }

  lemma ChunkStep(out: seq<Batch>, s: int, end: int)
    ensures s >= end ==> out + ForwardChunks(s, end) == out
    ensures var e := Min(s + MAX_WINDOW_DAYS, end);
            s < end ==> out + [Batch(ForwardGap, Window(s, e, None, Some(e - 1)))] + ForwardChunks(e, end) == out + ForwardChunks(s, end)
  {
  }

  /** The first loop of the planner: chunks of at most 31 days up to `end`. */
  method Chunks(first: int, end: int) returns (out: seq<Batch>)
    ensures out == ForwardChunks(first, end)
  {
    hide ForwardChunks;
    out := [];
    var s := first;
    while s < end
      invariant out + ForwardChunks(s, end) == ForwardChunks(first, end)
      decreases end - s
    {
      ChunkStep(out, s, end);
      var e := Min(s + MAX_WINDOW_DAYS, end);
      out := out + [Batch(ForwardGap, Window(s, e, None, Some(e - 1)))];
      s := e;
    }
    ChunkStep(out, s, end);
  }

  /** The second loop of the planner: whole years back from `from`, newest first. */
  method AppendYears(planned: seq<Batch>, newest: int, since: int) returns (out: seq<Batch>)
    ensures out == planned + BackwardYears(newest, since)
  {
    hide YearStart, YearOf;
    out := planned;
    var from := newest;
    while from > since
      invariant out + BackwardYears(from, since) == planned + BackwardYears(newest, since)
      decreases from - since
    {
      var start := Max(since, YearStart(from - 1));
      out := out + [Batch(Year(YearOf(start)), Window(start, from, Some(start), None))];
      from := start;
    }
    assert out + [] == out;
  }

  // ---------------------------------------------------------------- tiling

  predicate Holds(b: Batch, d: int) {
    b.window.start <= d < b.window.end
  }

  /** How many batches of the plan fetch day d. */
  function Times(plan: seq<Batch>, d: int): nat {
    if plan == [] then 0 else (if Holds(plan[0], d) then 1 else 0) + Times(plan[1..], d)
  }

  lemma {:induction false} TimesConcat(a: seq<Batch>, b: seq<Batch>, d: int)
    ensures Times(a + b, d) == Times(a, d) + Times(b, d)
  {
    if a == [] {
      assert a + b == b;
    } else {
      assert (a + b)[1..] == a[1..] + b;
      TimesConcat(a[1..], b, d);
    }
  }

  lemma {:induction false} ForwardChunksTile(s: int, end: int, d: int)
    ensures Times(ForwardChunks(s, end), d) == if s <= d < end then 1 else 0
    decreases end - s
  {
    if s >= end {
    } else {
      var e := Min(s + MAX_WINDOW_DAYS, end);
      assert ForwardChunks(s, end)[1..] == ForwardChunks(e, end);
      ForwardChunksTile(e, end, d);
    }
  }

  lemma {:induction false} BackwardYearsTile(from: int, since: int, d: int)
    ensures Times(BackwardYears(from, since), d) == if since <= d < from then 1 else 0
    decreases from - since
  {
    if from <= since {
    } else {
      var start := Max(since, YearStart(from - 1));
      assert BackwardYears(from, since)[1..] == BackwardYears(start, since);
      BackwardYearsTile(start, since, d);
    }
  }

  /** The days a backfill to `since` still owes on a store with watermarks st. */
  predicate Owed(st: SyncState, since: int, end: int, d: int) {
    if st.cursor.None? then since <= d < end
    else
      || st.cursor.value < d < end
      || since <= d < (if st.coverageFrom.Some? then st.coverageFrom.value else st.cursor.value + 1)
  }

  /** Each owed day is fetched by exactly one batch and no other day is fetched. */
  lemma PlanTiles(st: SyncState, since: int, end: int, d: int)
    requires st.cursor.Some? && st.coverageFrom.Some? ==> st.coverageFrom.value <= st.cursor.value + 1
    ensures Times(Plan(st, since, end), d) == if Owed(st, since, end, d) then 1 else 0
  {
    hide YearStart, YearOf, ForwardChunks, BackwardYears;
    if st.cursor.None? {
      var cold := ColdBatch(since, end);
      if cold.window.start < end {
        assert Plan(st, since, end)[1..] == BackwardYears(cold.window.start, since);
        BackwardYearsTile(cold.window.start, since, d);
      }
    } else {
      var from := if st.coverageFrom.Some? then st.coverageFrom.value else st.cursor.value + 1;
      TimesConcat(ForwardChunks(st.cursor.value + 1, end), BackwardYears(from, since), d);
      ForwardChunksTile(st.cursor.value + 1, end, d);
      BackwardYearsTile(from, since, d);
    }
  }

  // ---------------------------------------------------------------- batch shapes

  /** Nonempty; a forward chunk spans at most 31 days, any other batch stays inside the year it is labelled with. */
  predicate WellShaped(b: Batch) {
    && b.window.start < b.window.end
    && match b.kind
       case ForwardGap => b.window.end - b.window.start <= MAX_WINDOW_DAYS
       case Year(y) => DaysBeforeYear(y) <= b.window.start && b.window.end <= DaysBeforeYear(y + 1)
  }

  lemma {:induction false} ForwardChunksShape(s: int, end: int)
    ensures forall b :: b in ForwardChunks(s, end) ==> WellShaped(b)
    decreases end - s
  {
    if s >= end {
    } else {
      ForwardChunksShape(Min(s + MAX_WINDOW_DAYS, end), end);
    }
  }

  lemma {:induction false} BackwardYearsShape(from: int, since: int)
    ensures forall b :: b in BackwardYears(from, since) ==> WellShaped(b)
    decreases from - since
  {
    if from <= since {
    } else {
      var start := Max(since, YearStart(from - 1));
      SameYear(start, from - 1);
      BackwardYearsShape(start, since);
    }
  }

  lemma ColdShape(since: int, end: int)
    requires ColdBatch(since, end).window.start < end
    ensures WellShaped(ColdBatch(since, end))
  {
    SameYear(ColdBatch(since, end).window.start, end - 1);
  }

  lemma PlanShape(st: SyncState, since: int, end: int)
    ensures forall b :: b in Plan(st, since, end) ==> WellShaped(b)
  {
    hide YearStart, YearOf, WellShaped, ForwardChunks, BackwardYears;
    if st.cursor.None? {
      var cold := ColdBatch(since, end);
      if cold.window.start < end {
        ColdShape(since, end);
        BackwardYearsShape(cold.window.start, since);
      }
    } else {
      ForwardChunksShape(st.cursor.value + 1, end);
      BackwardYearsShape(if st.coverageFrom.Some? then st.coverageFrom.value else st.cursor.value + 1, since);
    }
  }

  // ---------------------------------------------------------------- resuming

  /** The watermarks after the batches of a plan prefix have been committed. */
  function AfterBatches(st: SyncState, done: seq<Batch>): SyncState
    decreases |done|
  {
    if done == [] then st
    else
      var w := done[0].window;
      AfterBatches(SyncState(MoveFrom(st.coverageFrom, w.newFrom), MoveCursor(st.cursor, w.newCursor)), done[1..])
  }

  lemma {:induction false} ForwardResumes(st: SyncState, since: int, end: int, k: nat)
    requires st.cursor.Some? && st.coverageFrom.Some? && k <= |ForwardChunks(st.cursor.value + 1, end)|
    ensures var after := AfterBatches(st, ForwardChunks(st.cursor.value + 1, end)[..k]);
            && after.cursor.Some? && after.coverageFrom == st.coverageFrom
            && ForwardChunks(after.cursor.value + 1, end) == ForwardChunks(st.cursor.value + 1, end)[k..]
    decreases k
  {
    var s := st.cursor.value + 1;
    if k == 0 {
    } else {
      var e := Min(s + MAX_WINDOW_DAYS, end);
      var next := SyncState(st.coverageFrom, Some(e - 1));
      var chunks := ForwardChunks(s, end);
      assert chunks[1..] == ForwardChunks(e, end);
      assert chunks[..k][1..] == chunks[1..][..k - 1];
      assert AfterBatches(st, chunks[..k]) == AfterBatches(next, chunks[1..][..k - 1]);
      ForwardResumes(next, since, end, k - 1);
    }
  }

  lemma {:induction false} BackwardResumes(st: SyncState, since: int, k: nat)
    requires st.cursor.Some? && st.coverageFrom.Some? && k <= |BackwardYears(st.coverageFrom.value, since)|
    ensures var after := AfterBatches(st, BackwardYears(st.coverageFrom.value, since)[..k]);
            && after.coverageFrom.Some? && after.cursor == st.cursor
            && BackwardYears(after.coverageFrom.value, since) == BackwardYears(st.coverageFrom.value, since)[k..]
    decreases k
  {
    hide YearStart, YearOf;
    var from := st.coverageFrom.value;
    if k == 0 {
    } else {
      var start := Max(since, YearStart(from - 1));
      var next := SyncState(Some(start), st.cursor);
      var years := BackwardYears(from, since);
      assert years[1..] == BackwardYears(start, since);
      assert years[..k][1..] == years[1..][..k - 1];
      assert AfterBatches(st, years[..k]) == AfterBatches(next, years[1..][..k - 1]);
      BackwardResumes(next, since, k - 1);
    }
  }

  lemma {:induction false} AfterConcat(st: SyncState, a: seq<Batch>, b: seq<Batch>)
    ensures AfterBatches(st, a + b) == AfterBatches(AfterBatches(st, a), b)
    decreases |a|
  {
    if a == [] {
      assert a + b == b;
    } else {
      var w := a[0].window;
      assert (a + b)[1..] == a[1..] + b;
      AfterConcat(SyncState(MoveFrom(st.coverageFrom, w.newFrom), MoveCursor(st.cursor, w.newCursor)), a[1..], b);
    }
  }

  /** The plan of a store with both watermarks. */
  lemma PlanWarm(st: SyncState, since: int, end: int)
    requires st.coverageFrom.Some? && st.cursor.Some?
    ensures Plan(st, since, end) == ForwardChunks(st.cursor.value + 1, end) + BackwardYears(st.coverageFrom.value, since)
  {
    hide ForwardChunks, BackwardYears, YearStart, YearOf;
  }

  lemma WarmResumes(st: SyncState, since: int, end: int, k: nat)
    requires st.coverageFrom.Some? && st.cursor.Some? && k <= |Plan(st, since, end)|
    ensures Plan(AfterBatches(st, Plan(st, since, end)[..k]), since, end) == Plan(st, since, end)[k..]
  {
    hide Plan, ForwardChunks, BackwardYears, YearStart, YearOf, AfterBatches;
    var plan := Plan(st, since, end);
    var forward := ForwardChunks(st.cursor.value + 1, end);
    var back := BackwardYears(st.coverageFrom.value, since);
    PlanWarm(st, since, end);
    if k <= |forward| {
      assert plan[..k] == forward[..k] && plan[k..] == forward[k..] + back;
      ForwardResumes(st, since, end, k);
      PlanWarm(AfterBatches(st, plan[..k]), since, end);
    } else {
      var j := k - |forward|;
      assert forward[..|forward|] == forward && forward[|forward|..] == [];
      assert plan[..k] == forward + back[..j] && plan[k..] == [] + back[j..];
      ForwardResumes(st, since, end, |forward|);
      var mid := AfterBatches(st, forward);
      BackwardResumes(mid, since, j);
      AfterConcat(st, forward, back[..j]);
      PlanWarm(AfterBatches(mid, back[..j]), since, end);
    }
  }

  lemma ColdResumes(st: SyncState, since: int, end: int, k: nat)
    requires st.coverageFrom.None? && st.cursor.None?
    requires 0 < k <= |Plan(st, since, end)|
    ensures Plan(AfterBatches(st, Plan(st, since, end)[..k]), since, end) == Plan(st, since, end)[k..]
  {
    hide YearStart, YearOf;
    var plan := Plan(st, since, end);
    var cold := ColdBatch(since, end).window;
    var next := SyncState(Some(cold.start), Some(end - 1));
    var back := BackwardYears(cold.start, since);
    assert plan[..k][1..] == back[..k - 1] && plan[k..] == back[k - 1..];
    assert AfterBatches(st, plan[..k]) == AfterBatches(next, back[..k - 1]);
    BackwardResumes(next, since, k - 1);
    assert ForwardChunks(end, end) == [];
  }

  /**
    A run that stops after any number of batches resumes: planning again from
    the watermarks it left gives exactly the batches it had not committed.
   */
  lemma PlanResumes(st: SyncState, since: int, end: int, k: nat)
    requires st.coverageFrom.Some? <==> st.cursor.Some?
    requires k <= |Plan(st, since, end)|
    ensures Plan(AfterBatches(st, Plan(st, since, end)[..k]), since, end) == Plan(st, since, end)[k..]
  {
    hide Plan, YearStart, YearOf;
    var plan := Plan(st, since, end);
    if k == 0 {
      assert plan[..0] == [] && plan[0..] == plan;
    } else if st.cursor.None? {
      ColdResumes(st, since, end, k);
    } else {
      WarmResumes(st, since, end, k);
    }
  }
}
