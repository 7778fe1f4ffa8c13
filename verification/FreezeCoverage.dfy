/** The hourly syncer and the backfill, any number of each, interleaved over one store of freeze history. */
module FreezeCoverage {
  import opened Wrappers
  import opened Calendar
  import opened FreezeStore
  import opened BackfillPlan

  const FINALITY_SECONDS := 1800

  // ---------------------------------------------------------------- the exclusive end of a batch

  /** The export has reached 00:30 of day e; `exported` is the first day that has not. */
  predicate BlocksComplete(exported: int, e: int) {
    e <= exported
  }

  function SafeEndFrom(now: int, exported: int, start: Option<int>): Option<int> {
    var today := DayOf(now);
    var cand := if now < DayStart(today) + FINALITY_SECONDS then today - 1 else today;
    if BlocksComplete(exported, cand) then Some(cand)
    else if cand == today && (start.None? || start.value < today - 1) && BlocksComplete(exported, today - 1) then Some(today - 1)
    else None
  }

  lemma SafeEndIsExported(now: int, exported: int, start: Option<int>)
    requires SafeEndFrom(now, exported, start).Some?
    ensures SafeEndFrom(now, exported, start).value <= exported
    ensures DayOf(now) - 1 <= SafeEndFrom(now, exported, start).value <= DayOf(now)
  {
  }

  /** e is a day a batch may end at: finished, final, and in the export. */
  predicate MayEndAt(now: int, exported: int, start: Option<int>, e: int) {
    var today := DayOf(now);
    && e <= exported
    && ((e == today && now >= DayStart(today) + FINALITY_SECONDS) ||
        (e == today - 1 && (now < DayStart(today) + FINALITY_SECONDS || start.None? || start.value < today - 1)))
  }

  /** The end of a batch is the latest it may have, and there is none exactly when it may have none. */
  lemma SafeEndIsLatest(now: int, exported: int, start: Option<int>, e: int)
    ensures SafeEndFrom(now, exported, start) == Some(e) ==> MayEndAt(now, exported, start, e)
    ensures MayEndAt(now, exported, start, e) ==> SafeEndFrom(now, exported, start).Some? && e <= SafeEndFrom(now, exported, start).value
  {
  }

  // ---------------------------------------------------------------- the syncer's plan

  /** The window one scheduler tick fetches, None when the tick fetches nothing. */
  function SyncPlan(st: SyncState, now: int, exported: int, initialDays: nat): Option<Window> {
    var today := DayOf(now);
    if st.cursor.None? && initialDays == 0 then None
    else
      var start := if st.cursor.None? then today - initialDays else st.cursor.value + 1;
      if st.cursor.Some? && (start >= today || (start >= today - 1 && now < DayStart(today) + FINALITY_SECONDS)) then None
      else
        var end := SafeEndFrom(now, exported, Some(start));
        if end.None? || start >= end.value || end.value - start > MAX_WINDOW_DAYS then None
        else Some(Window(start, end.value, if st.cursor.None? then Some(start) else None, Some(end.value - 1)))
  }

  /**
    The syncer is not stuck: once the export holds all of yesterday and it is
    past 00:30, a tick fetches every day from the cursor to yesterday, unless
    there are none or more than 31.
   */
  lemma SyncCatchesUp(st: SyncState, now: int, exported: int, initialDays: nat)
    requires st.cursor.Some? && exported >= DayOf(now) && now >= DayStart(DayOf(now)) + FINALITY_SECONDS
    ensures var start, today := st.cursor.value + 1, DayOf(now);
            SyncPlan(st, now, exported, initialDays) ==
              if start < today <= start + MAX_WINDOW_DAYS then Some(Window(start, today, None, Some(today - 1))) else None
  {
  }

  /** The backfill's plan; force plans as if nothing before the cursor were covered. */
  function BackfillBatches(st: SyncState, since: int, end: int, force: bool): seq<Batch> {
    var planState := if force && st.cursor.Some? then SyncState(Some(st.cursor.value + 1), st.cursor) else st;
    Plan(planState, since, end)
  }

  // ---------------------------------------------------------------- the interleaved system

  /**
    An actor between its first step and its last commit: it reads the watermarks and probes the export
    in two steps, plans from what it saw, and commits batch by batch while others do the same.
    Reader: a syncer that read the watermarks and the clock and has not probed the export.
    Prober: a backfill that probed the export for its end and has not read the watermarks.
    Cold: planned from an empty store on UTC day `day`, first batch not committed.
    Warm: `from` and `cursor` are the watermarks its plan counts on.
   */
  datatype Actor =
    | Reader(st: SyncState, at: int, initialDays: nat)
    | Prober(end: int, at: int)
    | Cold(windows: seq<Window>, day: int)
    | Warm(windows: seq<Window>, from: int, cursor: int)

  datatype System = System(store: StoreState, actors: map<nat, Actor>, now: int, exported: int)

  function Windows(bs: seq<Batch>): (ws: seq<Window>)
    ensures |ws| == |bs| && forall i :: 0 <= i < |bs| ==> ws[i] == bs[i].window
  {
    seq(|bs|, i requires 0 <= i < |bs| => bs[i].window)
  }

  predicate Planned(actor: Actor) { actor.Cold? || actor.Warm? }

  function NewActor(st: SyncState, at: int, windows: seq<Window>, force: bool): Actor {
    if st.cursor.None? then Cold(windows, DayOf(at))
    else
      var from := if st.coverageFrom.None? || force then st.cursor.value + 1 else st.coverageFrom.value;
      Warm(windows, from, st.cursor.value)
  }

  /** Time passes and the export only grows. */
  predicate Tick(a: System, b: System) {
    b == a.(now := b.now, exported := b.exported) && a.now <= b.now && a.exported <= b.exported
  }

  predicate ReadSync(a: System, b: System, id: nat, initialDays: nat) {
    id !in a.actors && b == a.(actors := a.actors[id := Reader(SyncStateOf(a.store), a.now, initialDays)])
  }

  /** The syncer probes the export and fixes its window; a tick without one leaves instead. */
  predicate ProbeSync(a: System, b: System, id: nat) {
    id in a.actors && a.actors[id].Reader? &&
    var Reader(st, at, initialDays) := a.actors[id];
    var w := SyncPlan(st, at, a.exported, initialDays);
    w.Some? && b == a.(actors := a.actors[id := NewActor(st, at, [w.value], false)])
  }

  predicate ProbeBackfill(a: System, b: System, id: nat) {
    var end := SafeEndFrom(a.now, a.exported, None);
    id !in a.actors && end.Some? && b == a.(actors := a.actors[id := Prober(end.value, a.now)])
  }

  predicate ReadBackfill(a: System, b: System, id: nat, since: int, force: bool) {
    id in a.actors && a.actors[id].Prober? &&
    var Prober(end, at) := a.actors[id];
    var st := SyncStateOf(a.store);
    b == a.(actors := a.actors[id := NewActor(st, at, Windows(BackfillBatches(st, since, end, force)), force)])
  }

  /** What the source answers for w: only events of the chain, and all of those on exported days. */
  ghost predicate Answers(chain: Chain, exported: int, w: Window, batch: seq<Event>) {
    && (forall e :: e in batch ==> exists d :: e in chain(d))
    && (forall d, e :: w.start <= d < w.end && d < exported && e in chain(d) ==> e in batch)
  }

  function AfterCommit(actor: Actor): Actor
    requires Planned(actor) && actor.windows != []
  {
    var w := actor.windows[0];
    match actor
    case Cold(ws, _) => Warm(ws[1..], w.start, w.end - 1)
    case Warm(ws, from, cursor) =>
      Warm(ws[1..], if w.newFrom.Some? then w.start else from, if w.newCursor.Some? then Max(cursor, w.end - 1) else cursor)
  }

  /** Actor id fetches its next batch and commits it with the watermarks it moves. */
  ghost predicate Commit(chain: Chain, a: System, b: System, id: nat, batch: seq<Event>) {
    && id in a.actors && Planned(a.actors[id]) && a.actors[id].windows != []
    && Answers(chain, a.exported, a.actors[id].windows[0], batch)
    && b == a.(store := InsertWindow(a.store, batch, a.actors[id].windows[0]),
               actors := a.actors[id := AfterCommit(a.actors[id])])
  }

  /** An actor finishes, fails or crashes between commits. */
  predicate Leave(a: System, b: System, id: nat) {
    b == a.(actors := map k | k in a.actors && k != id :: a.actors[k])
  }

  datatype Action =
    | ATick
    | AReadSync(id: nat, initialDays: nat)
    | AProbeSync(id: nat)
    | AProbeBackfill(id: nat)
    | AReadBackfill(id: nat, since: int, force: bool)
    | ACommit(id: nat, batch: seq<Event>)
    | ALeave(id: nat)

  ghost predicate Step(chain: Chain, a: System, b: System, act: Action) {
    match act
    case ATick => Tick(a, b)
    case AReadSync(id, n) => ReadSync(a, b, id, n)
    case AProbeSync(id) => ProbeSync(a, b, id)
    case AProbeBackfill(id) => ProbeBackfill(a, b, id)
    case AReadBackfill(id, since, force) => ReadBackfill(a, b, id, since, force)
    case ACommit(id, batch) => Commit(chain, a, b, id, batch)
    case ALeave(id) => Leave(a, b, id)
  }

  ghost predicate Run(chain: Chain, trace: seq<System>, acts: seq<Action>) {
    && |trace| == |acts| + 1
    && forall i :: 0 <= i < |acts| ==> Step(chain, trace[i], trace[i + 1], acts[i])
  }

  /** The UTC day on which an actor read an empty store, until it commits. */
  function ColdDay(actor: Actor): Option<int> {
    match actor
    case Reader(st, at, _) => if st.cursor.None? then Some(DayOf(at)) else None
    case Cold(_, day) => Some(day)
    case _ => None
  }

  /** The one assumption on the schedule: cold starts that race see the same UTC day. */
  predicate ColdStartsAgree(s: System) {
    forall i, j :: i in s.actors && j in s.actors && ColdDay(s.actors[i]).Some? && ColdDay(s.actors[j]).Some? ==>
      ColdDay(s.actors[i]) == ColdDay(s.actors[j])
  }

  // ---------------------------------------------------------------- the inductive invariant

  /** A plan tail that stays attached to any store with coverageFrom <= from and cursor >= cursor. */
  predicate Linked(ws: seq<Window>, from: int, cursor: int, exported: int)
    decreases |ws|
  {
    ws == [] ||
    (var w := ws[0];
     && w.start < w.end <= exported
     && w.start <= cursor + 1
     && if w.newFrom.None? then
          w.newCursor == Some(w.end - 1) && from <= w.start && Linked(ws[1..], from, Max(cursor, w.end - 1), exported)
        else
          w.newFrom == Some(w.start) && w.newCursor.None? && from <= w.end && Linked(ws[1..], w.start, cursor, exported))
  }

  predicate ColdLinked(ws: seq<Window>, day: int, exported: int) {
    ws == [] ||
    (var w := ws[0];
     && w.start < w.end <= exported
     && w.start < day && day - 1 <= w.end
     && w.newFrom == Some(w.start) && w.newCursor == Some(w.end - 1)
     && Linked(ws[1..], w.start, w.end - 1, exported))
  }

  /** The watermarks st were read off this store when it claimed no more than it does now. */
  predicate WasRead(s: StoreState, st: SyncState, exported: int) {
    && st.cursor.Some? && st.coverageFrom.Some? && s.cursor.Some? && s.coverageFrom.Some?
    && s.coverageFrom.value <= st.coverageFrom.value <= st.cursor.value + 1
    && st.cursor.value <= s.cursor.value && st.cursor.value < exported
  }

  /** A store that a cold start of `day` found empty is empty, or claims that day's neighbourhood. */
  predicate ColdOk(s: StoreState, day: int) {
    s.cursor.Some? && s.coverageFrom.Some? ==> s.coverageFrom.value < day && day - 2 <= s.cursor.value
  }

  predicate ActorOk(s: StoreState, actor: Actor, exported: int) {
    match actor
    case Reader(st, at, _) =>
      if st.cursor.None? then ColdOk(s, DayOf(at)) else WasRead(s, st, exported)
    case Prober(end, at) => end <= exported && DayOf(at) - 1 <= end <= DayOf(at)
    case Cold(ws, day) => ColdLinked(ws, day, exported) && ColdOk(s, day)
    case Warm(ws, from, cursor) =>
      && Linked(ws, from, cursor, exported)
      && s.cursor.Some? && s.coverageFrom.Some?
      && s.coverageFrom.value <= from && cursor <= s.cursor.value
  }

  ghost predicate Inv(chain: Chain, s: System) {
    && Covered(chain, s.store)
    && (s.store.cursor.Some? ==> s.store.cursor.value < s.exported)
    && forall id :: id in s.actors ==> ActorOk(s.store, s.actors[id], s.exported)
  }

  lemma {:induction false} LinkedMonotone(ws: seq<Window>, from: int, cursor: int, exported: int, exported': int)
    requires Linked(ws, from, cursor, exported) && exported <= exported'
    ensures Linked(ws, from, cursor, exported')
    decreases |ws|
  {
    if ws == [] {
    } else {
      var w := ws[0];
      if w.newFrom.None? {
        LinkedMonotone(ws[1..], from, Max(cursor, w.end - 1), exported, exported');
      } else {
        LinkedMonotone(ws[1..], w.start, cursor, exported, exported');
      }
    }
  }

  lemma {:induction false} BackwardLinked(from: int, since: int, cursor: int, exported: int)
    requires from <= cursor + 1 && from <= exported
    ensures Linked(Windows(BackwardYears(from, since)), from, cursor, exported)
    decreases from - since
  {
    hide YearStart, YearOf;
    if from <= since {
    } else {
      var start := Max(since, YearStart(from - 1));
      BackwardLinked(start, since, cursor, exported);
      assert Windows(BackwardYears(from, since))[1..] == Windows(BackwardYears(start, since));
    }
  }

  lemma {:induction false} LinkedLaterCursor(ws: seq<Window>, from: int, cursor: int, later: int, exported: int)
    requires Linked(ws, from, cursor, exported) && cursor <= later
    ensures Linked(ws, from, later, exported)
    decreases |ws|
  {
    if ws == [] {
    } else {
      var w := ws[0];
      if w.newFrom.None? {
        LinkedLaterCursor(ws[1..], from, Max(cursor, w.end - 1), Max(later, w.end - 1), exported);
      } else {
        LinkedLaterCursor(ws[1..], w.start, cursor, later, exported);
      }
    }
  }

  lemma LinkedForward(w: Window, rest: seq<Window>, from: int, cursor: int, exported: int)
    requires w.start < w.end <= exported && from <= w.start <= cursor + 1
    requires w.newFrom.None? && w.newCursor == Some(w.end - 1)
    requires Linked(rest, from, Max(cursor, w.end - 1), exported)
    ensures Linked([w] + rest, from, cursor, exported)
  {
    assert ([w] + rest)[1..] == rest;
  }

  lemma WindowsCons(b: Batch, bs: seq<Batch>, more: seq<Batch>)
    ensures Windows([b] + bs + more) == [b.window] + Windows(bs + more)
  {
    assert [b] + bs + more == [b] + (bs + more);
  }

  /** The plan of a backfill hangs together: forward chunks follow each other, years step back from `from`. */
  lemma {:induction false} PlanLinked(s: int, end: int, from: int, back: seq<Batch>, exported: int)
    requires from <= s && end <= exported
    requires Linked(Windows(back), from, s - 1, exported)
    ensures Linked(Windows(ForwardChunks(s, end) + back), from, s - 1, exported)
    decreases end - s
  {
    hide YearStart, YearOf, BackwardYears, SafeEndFrom, Linked, Windows;
    if s < end {
      var e := Min(s + MAX_WINDOW_DAYS, end);
      var chunk := Batch(ForwardGap, Window(s, e, None, Some(e - 1)));
      LinkedLaterCursor(Windows(back), from, s - 1, e - 1, exported);
      PlanLinked(e, end, from, back, exported);
      WindowsCons(chunk, ForwardChunks(e, end), back);
      LinkedForward(chunk.window, Windows(ForwardChunks(e, end) + back), from, s - 1, exported);
    } else {
      assert ForwardChunks(s, end) + back == back;
    }
  }

  lemma ReadSyncKeeps(chain: Chain, a: System, b: System, id: nat, initialDays: nat)
    requires Inv(chain, a) && ReadSync(a, b, id, initialDays)
    ensures Inv(chain, b)
  {
    assert ActorOk(b.store, b.actors[id], b.exported);
  }

  lemma ProbeSyncKeeps(chain: Chain, a: System, b: System, id: nat)
    requires Inv(chain, a) && ProbeSync(a, b, id)
    ensures Inv(chain, b)
  {
    var Reader(st, at, initialDays) := a.actors[id];
    assert ActorOk(a.store, a.actors[id], a.exported);
    var w := SyncPlan(st, at, a.exported, initialDays).value;
    SafeEndIsExported(at, a.exported, Some(w.start));
    assert [w][1..] == [];
    assert ActorOk(b.store, b.actors[id], b.exported);
  }

  lemma ProbeBackfillKeeps(chain: Chain, a: System, b: System, id: nat)
    requires Inv(chain, a) && ProbeBackfill(a, b, id)
    ensures Inv(chain, b)
  {
    SafeEndIsExported(a.now, a.exported, None);
    assert ActorOk(b.store, b.actors[id], b.exported);
  }

  lemma ColdBackfillLinked(since: int, end: int, day: int, exported: int)
    requires end <= exported && day - 1 <= end <= day
    ensures ColdLinked(Windows(Plan(SyncState(None, None), since, end)), day, exported)
  {
    hide YearStart, YearOf;
    var cold := ColdBatch(since, end).window;
    if cold.start < end {
      var bs := Plan(SyncState(None, None), since, end);
      BackwardLinked(cold.start, since, end - 1, exported);
      assert Windows(bs)[0] == cold;
      assert Windows(bs)[1..] == Windows(BackwardYears(cold.start, since));
    }
  }

  lemma WarmBackfillLinked(from: int, cursor: int, since: int, end: int, exported: int)
    requires from <= cursor + 1 <= exported && end <= exported
    ensures Linked(Windows(Plan(SyncState(Some(from), Some(cursor)), since, end)), from, cursor, exported)
  {
    hide YearStart, YearOf, ForwardChunks, BackwardYears, Linked;
    var back := BackwardYears(from, since);
    BackwardLinked(from, since, cursor, exported);
    PlanLinked(cursor + 1, end, from, back, exported);
  }

  lemma ReadBackfillKeeps(chain: Chain, a: System, b: System, id: nat, since: int, force: bool)
    requires Inv(chain, a) && ReadBackfill(a, b, id, since, force)
    ensures Inv(chain, b)
  {
    hide Plan, YearStart, YearOf;
    var st := SyncStateOf(a.store);
    var Prober(end, at) := a.actors[id];
    assert ActorOk(a.store, a.actors[id], a.exported);
    if st.cursor.None? {
      ColdBackfillLinked(since, end, DayOf(at), a.exported);
    } else {
      WarmBackfillLinked(if force then st.cursor.value + 1 else st.coverageFrom.value, st.cursor.value, since, end, a.exported);
    }
    assert ActorOk(b.store, b.actors[id], b.exported);
  }

  lemma TickKeeps(chain: Chain, a: System, b: System)
    requires Inv(chain, a) && Tick(a, b)
    ensures Inv(chain, b)
  {
    forall id | id in b.actors ensures ActorOk(b.store, b.actors[id], b.exported) {
      match a.actors[id]
      case Reader(_, _, _) =>
      case Prober(_, _) =>
      case Cold(ws, day) =>
        if ws != [] {
          LinkedMonotone(ws[1..], ws[0].start, ws[0].end - 1, a.exported, b.exported);
        }
      case Warm(ws, from, cursor) =>
        LinkedMonotone(ws, from, cursor, a.exported, b.exported);
    }
  }

  /** The next window of any actor attaches to the store, however stale the actor's reading is. */
  lemma NextWindowAttaches(chain: Chain, a: System, id: nat)
    requires Inv(chain, a) && id in a.actors && Planned(a.actors[id]) && a.actors[id].windows != []
    ensures Attaches(a.store, a.actors[id].windows[0]) && a.actors[id].windows[0].end <= a.exported
  {
    assert ActorOk(a.store, a.actors[id], a.exported);
  }

  /** The watermarks after a window that attaches. */
  lemma WatermarksMove(s: StoreState, batch: seq<Event>, w: Window)
    ensures var t := InsertWindow(s, batch, w);
            t.coverageFrom == MoveFrom(s.coverageFrom, w.newFrom) && t.cursor == MoveCursor(s.cursor, w.newCursor)
  {
  }

  lemma CommitterStaysOk(s: StoreState, batch: seq<Event>, actor: Actor, exported: int)
    requires ActorOk(s, actor, exported) && Planned(actor) && actor.windows != [] && (s.coverageFrom.Some? <==> s.cursor.Some?)
    ensures ActorOk(InsertWindow(s, batch, actor.windows[0]), AfterCommit(actor), exported)
    ensures var t := InsertWindow(s, batch, actor.windows[0]); s.cursor.Some? && s.cursor.value < exported ==> t.cursor.value < exported
    ensures var t := InsertWindow(s, batch, actor.windows[0]); s.cursor.None? && t.cursor.Some? ==> t.cursor.value < exported
  {
    hide InsertWindow;
    WatermarksMove(s, batch, actor.windows[0]);
  }

  lemma BystanderStaysOk(s: StoreState, batch: seq<Event>, actor: Actor, other: Actor, exported: int)
    requires ActorOk(s, actor, exported) && ActorOk(s, other, exported) && Planned(actor) && actor.windows != []
    requires s.coverageFrom.Some? <==> s.cursor.Some?
    requires ColdDay(actor).Some? && ColdDay(other).Some? ==> ColdDay(actor) == ColdDay(other)
    ensures ActorOk(InsertWindow(s, batch, actor.windows[0]), other, exported)
  {
    hide InsertWindow, Linked;
    WatermarksMove(s, batch, actor.windows[0]);
  }

  lemma CommitKeeps(chain: Chain, a: System, b: System, id: nat, batch: seq<Event>)
    requires KeysIdentify(chain) && Inv(chain, a) && ColdStartsAgree(a) && Commit(chain, a, b, id, batch)
    ensures Inv(chain, b)
  {
    hide ActorOk, InsertWindow, AfterCommit;
    var w := a.actors[id].windows[0];
    NextWindowAttaches(chain, a, id);
    InsertWindowKeepsCoverage(chain, a.store, batch, w);
    CommitterStaysOk(a.store, batch, a.actors[id], a.exported);
    forall k | k in b.actors ensures ActorOk(b.store, b.actors[k], b.exported) {
      assert ActorOk(a.store, a.actors[k], a.exported);
      if k != id {
        BystanderStaysOk(a.store, batch, a.actors[id], a.actors[k], a.exported);
      }
    }
  }

  lemma StepKeeps(chain: Chain, a: System, b: System, act: Action)
    requires KeysIdentify(chain) && Inv(chain, a) && ColdStartsAgree(a) && Step(chain, a, b, act)
    ensures Inv(chain, b)
  {
    match act
    case ATick => TickKeeps(chain, a, b);
    case AReadSync(id, n) => ReadSyncKeeps(chain, a, b, id, n);
    case AProbeSync(id) => ProbeSyncKeeps(chain, a, b, id);
    case AProbeBackfill(id) => ProbeBackfillKeeps(chain, a, b, id);
    case AReadBackfill(id, since, force) => ReadBackfillKeeps(chain, a, b, id, since, force);
    case ACommit(id, batch) => CommitKeeps(chain, a, b, id, batch);
    case ALeave(id) =>
  }

  lemma {:induction false} RunKeeps(chain: Chain, trace: seq<System>, acts: seq<Action>, n: nat)
    requires KeysIdentify(chain) && Run(chain, trace, acts) && n < |trace|
    requires Inv(chain, trace[0])
    requires forall i :: 0 <= i < n ==> ColdStartsAgree(trace[i])
    ensures Inv(chain, trace[n])
  {
    if n == 0 {
    } else {
      RunKeeps(chain, trace, acts, n - 1);
      StepKeeps(chain, trace[n - 1], trace[n], acts[n - 1]);
    }
  }

  // ---------------------------------------------------------------- main results

  /**
    Safety over whole runs: from a store that keeps its promise and with no
    actor under way, in every interleaving in which racing cold starts see the
    same UTC day, no state ever claims a day whose events are missing, for the
    table and for each late token.
   */
  lemma NoRunClaimsAMissingDay(chain: Chain, trace: seq<System>, acts: seq<Action>, n: nat)
    requires KeysIdentify(chain) && Run(chain, trace, acts) && n < |trace|
    requires trace[0].actors == map[] && Covered(chain, trace[0].store)
    requires trace[0].store.cursor.Some? ==> trace[0].store.cursor.value < trace[0].exported
    requires forall i :: 0 <= i < n ==> ColdStartsAgree(trace[i])
    ensures Covered(chain, trace[n].store)
  {
    RunKeeps(chain, trace, acts, n);
  }

  /** In every run at all, cursor never decreases and no coverage start ever increases. */
  lemma {:induction false} WatermarksOnlyWiden(chain: Chain, trace: seq<System>, acts: seq<Action>, m: nat, n: nat)
    requires Run(chain, trace, acts) && m <= n < |trace|
    ensures var s, t := trace[m].store, trace[n].store;
            && (s.cursor.Some? ==> t.cursor.Some? && s.cursor.value <= t.cursor.value)
            && (s.coverageFrom.Some? ==> t.coverageFrom.Some? && t.coverageFrom.value <= s.coverageFrom.value)
            && (forall k :: k in s.tokenFrom ==> k in t.tokenFrom && t.tokenFrom[k] <= s.tokenFrom[k])
            && (forall k :: k in s.events ==> k in t.events && t.events[k] == s.events[k])
    decreases n - m
  {
    if m == n {
    } else {
      WatermarksOnlyWiden(chain, trace, acts, m, n - 1);
      var a, b := trace[n - 1], trace[n];
      assert Step(chain, a, b, acts[n - 1]);
      if acts[n - 1].ACommit? {
        InsertWindowWidens(a.store, acts[n - 1].batch, a.actors[acts[n - 1].id].windows[0]);
      }
    }
  }

  /** Two cold windows with a hole between them: whoever commits second, the hole is claimed. */
  lemma HoleIsClaimed(w0: Window, w1: Window)
    requires w0.start < w0.end < w1.start < w1.end
    requires w0.newFrom == Some(w0.start) && w0.newCursor == Some(w0.end - 1)
    requires w1.newFrom == Some(w1.start) && w1.newCursor == Some(w1.end - 1)
    ensures var s := InsertWindow(InsertWindow(EMPTY_STORE, [], w1), [], w0);
            s.events == map[] && Claims(s, w0.end)
  {
  }

  lemma ColdBackfillReads(s: System, id: nat, since: int) returns (windows: seq<Window>)
    requires s.store == EMPTY_STORE && id in s.actors && s.actors[id].Prober? && since < s.actors[id].end
    ensures ReadBackfill(s, s.(actors := s.actors[id := Cold(windows, DayOf(s.actors[id].at))]), id, since, false)
    ensures var end := s.actors[id].end;
            && windows != [] && windows[0].start < end
            && windows[0] == Window(windows[0].start, end, Some(windows[0].start), Some(end - 1))
  {
    hide YearStart, YearOf;
    windows := Windows(BackfillBatches(SyncStateOf(s.store), since, s.actors[id].end, false));
  }

  /**
    The assumption is needed: a backfill that plans from an empty store on
    day 100 and commits after a syncer's own cold start of day 103 makes the
    watermarks claim day 100, which nobody fetched.
   */
  lemma ColdStartsOnDifferentDaysLoseADay()
    returns (chain: Chain, trace: seq<System>, acts: seq<Action>)
    ensures KeysIdentify(chain) && Run(chain, trace, acts)
    ensures trace[0].actors == map[] && trace[0].store == EMPTY_STORE && Covered(chain, trace[0].store)
    ensures var last := trace[|acts|].store;
            Claims(last, 100) && !DayStored(chain, last.events, "USDT", 100) && !Covered(chain, last)
  {
    hide Plan, YearStart, YearOf, InsertWindow, SyncPlan, SafeEndFrom, DayOf, Claims, DayStored, TokenCovered, Authentic, Step, NewActor, SyncStateOf, ReadBackfill;
    var e := Event(EventKey("0x1", 0), "USDT", "freeze", "0xa", "", 7);
    chain := (d: int) => if d == 100 then {e} else {};
    var noon := 100 * SECONDS_PER_DAY + 43200;
    var later := noon + 3 * SECONDS_PER_DAY;
    var start := System(EMPTY_STORE, map[], noon, 100);
    NoonSafeEnd(noon);
    var s0 := start.(actors := start.actors[0 := Prober(100, noon)]);
    var ws := ColdBackfillReads(s0, 0, 95);
    var s1 := s0.(actors := s0.actors[0 := Cold(ws, 100)]);
    var s2 := s1.(now := later, exported := 103);
    var w1 := Window(102, 103, Some(102), Some(102));
    var s5: System;
    s5, trace, acts := CommitBothColdWindows(chain, s2, ws, w1);
    HoleIsClaimed(ws[0], w1);
    NeverFetched(chain, s5.store, e, 100);
    NothingClaimed(chain);
    trace, acts := PlanEarlier(chain, start, ws, s2, trace, acts);
  }

  /** A run that begins with a cold plan of day 100 under way, from the idle system in which it was planned. */
  lemma PlanEarlier(chain: Chain, start: System, ws: seq<Window>, s2: System, trace: seq<System>, acts: seq<Action>)
    returns (trace': seq<System>, acts': seq<Action>)
    requires Run(chain, trace, acts) && trace[0] == s2
    requires start.actors == map[] && start.now <= s2.now && start.exported <= s2.exported
    requires SafeEndFrom(start.now, start.exported, None) == Some(100)
    requires var s0 := start.(actors := map[0 := Prober(100, start.now)]);
             var s1 := start.(actors := map[0 := Cold(ws, 100)]);
             ReadBackfill(s0, s1, 0, 95, false) && s2 == s1.(now := s2.now, exported := s2.exported)
    ensures Run(chain, trace', acts') && trace'[0] == start && trace'[|acts'|] == trace[|acts|]
  {
    hide ReadBackfill, SafeEndFrom, Run;
    var s0 := start.(actors := map[0 := Prober(100, start.now)]);
    var s1 := start.(actors := map[0 := Cold(ws, 100)]);
    assert start.actors[0 := Prober(100, start.now)] == s0.actors;
    trace', acts' := Prepend(chain, s1, ATick, trace, acts);
    trace', acts' := Prepend(chain, s0, AReadBackfill(0, 95, false), trace', acts');
    trace', acts' := Prepend(chain, start, AProbeBackfill(0), trace', acts');
  }

  lemma NeverFetched(chain: Chain, s: StoreState, e: Event, d: int)
    requires e in chain(d) && e.token == "USDT" && s.events == map[] && Claims(s, d)
    ensures !DayStored(chain, s.events, "USDT", d) && !Covered(chain, s)
  {
  }

  lemma NothingClaimed(chain: Chain)
    ensures Covered(chain, EMPTY_STORE)
  {
  }

  lemma Prepend(chain: Chain, s: System, act: Action, trace: seq<System>, acts: seq<Action>)
    returns (trace': seq<System>, acts': seq<Action>)
    requires Run(chain, trace, acts) && Step(chain, s, trace[0], act)
    ensures trace' == [s] + trace && acts' == [act] + acts && Run(chain, trace', acts')
    ensures trace'[|acts'|] == trace[|acts|]
  {
    hide Step;
    trace', acts' := [s] + trace, [act] + acts;
  }

  /** From a stale cold backfill plan on an empty store: a syncer cold-starts and commits, then the backfill commits. */
  lemma CommitBothColdWindows(chain: Chain, s2: System, ws: seq<Window>, w1: Window)
    returns (s5: System, trace: seq<System>, acts: seq<Action>)
    requires s2.store == EMPTY_STORE && s2.actors == map[0 := Cold(ws, 100)] && ws != []
    requires s2.exported == 103 && s2.now == 103 * SECONDS_PER_DAY + 43200
    requires w1 == Window(102, 103, Some(102), Some(102)) && ws[0].end == 100
    requires forall d | d != 100 :: chain(d) == {}
    ensures |trace| == 5 && trace[0] == s2 && trace[4] == s5 && |acts| == 4 && Run(chain, trace, acts)
    ensures s5.store == InsertWindow(InsertWindow(EMPTY_STORE, [], w1), [], ws[0])
  {
    hide InsertWindow, SyncPlan;
    SyncerColdStart(s2.now);
    var r := s2.(actors := s2.actors[1 := Reader(SyncState(None, None), s2.now, 1)]);
    assert ReadSync(s2, r, 1, 1);
    var s3 := r.(actors := r.actors[1 := Cold([w1], 103)]);
    assert ProbeSync(r, s3, 1);
    var s4 := s3.(store := InsertWindow(s3.store, [], w1), actors := s3.actors[1 := AfterCommit(s3.actors[1])]);
    assert Commit(chain, s3, s4, 1, []);
    s5 := s4.(store := InsertWindow(s4.store, [], ws[0]), actors := s4.actors[0 := AfterCommit(s4.actors[0])]);
    assert Commit(chain, s4, s5, 0, []);
    trace := [s2, r, s3, s4, s5];
    acts := [AReadSync(1, 1), AProbeSync(1), ACommit(1, []), ACommit(0, [])];
  }

  lemma NoonSafeEnd(now: int)
    requires now == 100 * SECONDS_PER_DAY + 43200
    ensures DayOf(now) == 100 && SafeEndFrom(now, 100, None) == Some(100)
  {
  }

  lemma SyncerColdStart(now: int)
    requires now == 103 * SECONDS_PER_DAY + 43200
    ensures DayOf(now) == 103 && SyncPlan(SyncState(None, None), now, 103, 1) == Some(Window(102, 103, Some(102), Some(102)))
  {
  }
}
