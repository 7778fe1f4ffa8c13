/** The stablecoin part of the risk store: blacklist events and the watermarks that one transaction moves with them. */
module FreezeStore {
  import opened Wrappers

  datatype EventKey = EventKey(txHash: string, logIndex: int)

  datatype Event = Event(key: EventKey, token: string, action: string, address: string,
                         amount: string, blockNumber: int)

  /** One fetched batch [start, end) and the watermarks it moves; a batch without dates has start == end. */
  datatype Window = Window(start: int, end: int, newFrom: Option<int>, newCursor: Option<int>)

  /**
    Days are day numbers. A watermark never set (the empty string in the
    database, which sorts before every date) is None.
   */
  datatype StoreState = StoreState(
    events: map<EventKey, Event>,
    coverageFrom: Option<int>,
    cursor: Option<int>,
    tokenFrom: map<string, int>)

  const EMPTY_STORE := StoreState(map[], None, None, map[])

  const LATE_TOKENS: seq<string> := ["EURC"]

  // ---------------------------------------------------------------- the transaction as a function

  function InsertOrIgnore(events: map<EventKey, Event>, batch: seq<Event>): map<EventKey, Event>
    decreases |batch|
  {
    if batch == [] then events
    else
      var e := batch[0];
      InsertOrIgnore(if e.key in events then events else events[e.key := e], batch[1..])
  }

  function MoveFrom(from: Option<int>, newFrom: Option<int>): Option<int> {
    if newFrom.None? then from
    else if from.None? || newFrom.value < from.value then newFrom
    else from
  }

  function MoveCursor(cursor: Option<int>, newCursor: Option<int>): Option<int> {
    if newCursor.None? then cursor
    else if cursor.None? || cursor.value < newCursor.value then newCursor
    else cursor
  }

  /** The coverage start a late token gets from window w, None when the window leaves it alone. */
  function NextTokenFrom(from: Option<int>, cursor: Option<int>, w: Window): Option<int> {
    if from.None? then
      if cursor.Some? && w.end - 1 >= cursor.value then Some(w.start) else None
    else if w.start < from.value && w.end >= from.value then Some(w.start)
    else None
  }

  function Lookup(m: map<string, int>, k: string): Option<int> {
    if k in m then Some(m[k]) else None
  }

  function ExtendTokens(tokenFrom: map<string, int>, cursor: Option<int>, w: Window, tokens: seq<string>): map<string, int>
    decreases |tokens|
  {
    if tokens == [] then tokenFrom
    else
      var next := NextTokenFrom(Lookup(tokenFrom, tokens[0]), cursor, w);
      ExtendTokens(if next.Some? then tokenFrom[tokens[0] := next.value] else tokenFrom, cursor, w, tokens[1..])
  }

  function InsertWindow(s: StoreState, batch: seq<Event>, w: Window): StoreState {
    var cursor := MoveCursor(s.cursor, w.newCursor);
    StoreState(
      InsertOrIgnore(s.events, batch),
      MoveFrom(s.coverageFrom, w.newFrom),
      cursor,
      if w.start < w.end then ExtendTokens(s.tokenFrom, cursor, w, LATE_TOKENS) else s.tokenFrom)
  }

  // ---------------------------------------------------------------- what the store must mean

  /** The chain itself: which blacklist events each day holds. */
  type Chain = int -> set<Event>

  /** (tx_hash, log_index) identifies an event on the chain. */
  ghost predicate KeysIdentify(chain: Chain) {
    forall d1, e1, d2, e2 :: e1 in chain(d1) && e2 in chain(d2) && e1.key == e2.key ==> e1 == e2
  }

  /** No stored row contradicts the chain. */
  ghost predicate Authentic(chain: Chain, events: map<EventKey, Event>) {
    forall d, e :: e in chain(d) && e.key in events ==> events[e.key] == e
  }

  ghost predicate DayStored(chain: Chain, events: map<EventKey, Event>, token: string, d: int) {
    forall e :: e in chain(d) && e.token == token ==> e.key in events && events[e.key] == e
  }

  /** The fetch of window w answered with events of the chain, and with all of [w.start, w.end). */
  ghost predicate FetchedAll(chain: Chain, w: Window, batch: seq<Event>) {
    && (forall e :: e in batch ==> exists d :: e in chain(d))
    && (forall d, e :: w.start <= d < w.end && e in chain(d) ==> e in batch)
  }

  ghost predicate TokenCovered(chain: Chain, s: StoreState, token: string)
    requires token in s.tokenFrom
  {
    && token in LATE_TOKENS
    && s.cursor.Some? && s.coverageFrom.Some?
    && s.coverageFrom.value <= s.tokenFrom[token] <= s.cursor.value + 1
    && forall d :: s.tokenFrom[token] <= d <= s.cursor.value ==> DayStored(chain, s.events, token, d)
  }

  /**
    The promise of the store: [coverageFrom, cursor] never claims a day whose
    events are missing, and neither does [tokenFrom, cursor] for a late token.
   */
  ghost predicate Covered(chain: Chain, s: StoreState) {
    && Authentic(chain, s.events)
    && (s.coverageFrom.Some? <==> s.cursor.Some?)
    && (s.coverageFrom.Some? ==> s.coverageFrom.value <= s.cursor.value + 1)
    && (s.coverageFrom.Some? ==>
          forall d, token | s.coverageFrom.value <= d <= s.cursor.value && token !in LATE_TOKENS ::
            DayStored(chain, s.events, token, d))
    && (forall token :: token in s.tokenFrom ==> TokenCovered(chain, s, token))
  }

  /** Whether the watermarks of s claim day d. */
  predicate Claims(s: StoreState, d: int) {
    s.coverageFrom.Some? && s.cursor.Some? && s.coverageFrom.value <= d <= s.cursor.value
  }

  /**
    A window that may be committed on s: it moves a watermark only to its own
    edge, and unless the store is empty it touches what is already claimed.
   */
  predicate Attaches(s: StoreState, w: Window) {
    && w.start < w.end
    && (w.newFrom.Some? ==> w.newFrom.value == w.start)
    && (w.newCursor.Some? ==> w.newCursor.value == w.end - 1)
    && if s.cursor.None? || s.coverageFrom.None? then
         w.newFrom.Some? && w.newCursor.Some? && s.tokenFrom == map[]
       else
         && w.start <= s.cursor.value + 1
         && (if w.newFrom.Some? then s.coverageFrom.value <= w.end else s.coverageFrom.value <= w.start)
  }

  // ---------------------------------------------------------------- lemmas

  lemma {:induction false} InsertOrIgnoreKeeps(events: map<EventKey, Event>, batch: seq<Event>)
    ensures forall k :: k in events ==> k in InsertOrIgnore(events, batch) && InsertOrIgnore(events, batch)[k] == events[k]
    decreases |batch|
  {
    if batch == [] {
    } else {
      InsertOrIgnoreKeeps(if batch[0].key in events then events else events[batch[0].key := batch[0]], batch[1..]);
    }
  }

  /** INSERT OR IGNORE of chain events leaves a store that agrees with the chain and holds the whole batch. */
  lemma {:induction false} InsertOrIgnoreHolds(chain: Chain, events: map<EventKey, Event>, batch: seq<Event>)
    requires KeysIdentify(chain) && Authentic(chain, events)
    requires forall e :: e in batch ==> exists d :: e in chain(d)
    ensures Authentic(chain, InsertOrIgnore(events, batch))
    ensures forall e :: e in batch ==> e.key in InsertOrIgnore(events, batch) && InsertOrIgnore(events, batch)[e.key] == e
    decreases |batch|
  {
    if batch == [] {
    } else {
      var e0 := batch[0];
      assert e0 in batch;
      var grown := if e0.key in events then events else events[e0.key := e0];
      assert grown[e0.key] == e0;
      forall e | e in batch[1..] ensures exists d :: e in chain(d) {
        assert e in batch;
      }
      InsertOrIgnoreHolds(chain, grown, batch[1..]);
      InsertOrIgnoreKeeps(grown, batch[1..]);
      forall e | e in batch
        ensures e.key in InsertOrIgnore(events, batch) && InsertOrIgnore(events, batch)[e.key] == e
      {
        assert e == e0 || e in batch[1..];
      }
    }
  }

  /** Each token is decided on its own, from its own coverage start. */
  lemma {:induction false} ExtendTokensAt(tokenFrom: map<string, int>, cursor: Option<int>, w: Window, tokens: seq<string>, k: string)
    requires forall i, j :: 0 <= i < j < |tokens| ==> tokens[i] != tokens[j]
    ensures Lookup(ExtendTokens(tokenFrom, cursor, w, tokens), k) ==
            var next := NextTokenFrom(Lookup(tokenFrom, k), cursor, w);
            if k in tokens && next.Some? then next else Lookup(tokenFrom, k)
    decreases |tokens|
  {
    if tokens == [] {
    } else {
      var next := NextTokenFrom(Lookup(tokenFrom, tokens[0]), cursor, w);
      var grown := if next.Some? then tokenFrom[tokens[0] := next.value] else tokenFrom;
      assert k in tokens <==> k == tokens[0] || k in tokens[1..];
      assert tokens[0] !in tokens[1..];
      ExtendTokensAt(grown, cursor, w, tokens[1..], k);
    }
  }

  /** The watermarks only ever widen, and rows are never lost or rewritten. */
  lemma InsertWindowWidens(s: StoreState, batch: seq<Event>, w: Window)
    ensures var t := InsertWindow(s, batch, w);
            && (s.cursor.Some? ==> t.cursor.Some? && s.cursor.value <= t.cursor.value)
            && (s.coverageFrom.Some? ==> t.coverageFrom.Some? && t.coverageFrom.value <= s.coverageFrom.value)
            && (forall k :: k in s.tokenFrom ==> k in t.tokenFrom && t.tokenFrom[k] <= s.tokenFrom[k])
            && (forall k :: k in s.events ==> k in t.events && t.events[k] == s.events[k])
  {
    InsertOrIgnoreKeeps(s.events, batch);
    forall k | k in s.tokenFrom
      ensures var t := InsertWindow(s, batch, w); k in t.tokenFrom && t.tokenFrom[k] <= s.tokenFrom[k]
    {
      ExtendTokensAt(s.tokenFrom, MoveCursor(s.cursor, w.newCursor), w, LATE_TOKENS, k);
    }
  }

  /** Every day of a completely fetched window is stored afterwards. */
  lemma WindowDaysStored(chain: Chain, s: StoreState, batch: seq<Event>, w: Window, token: string, d: int)
    requires KeysIdentify(chain) && Authentic(chain, s.events) && FetchedAll(chain, w, batch)
    requires w.start <= d < w.end || DayStored(chain, s.events, token, d)
    ensures DayStored(chain, InsertWindow(s, batch, w).events, token, d)
  {
    InsertOrIgnoreHolds(chain, s.events, batch);
    InsertOrIgnoreKeeps(s.events, batch);
  }

  /** The single transaction keeps the promise for every window that attaches. */
  lemma InsertWindowKeepsCoverage(chain: Chain, s: StoreState, batch: seq<Event>, w: Window)
    requires KeysIdentify(chain) && Covered(chain, s)
    requires Attaches(s, w) && FetchedAll(chain, w, batch)
    ensures Covered(chain, InsertWindow(s, batch, w))
  {
    var t := InsertWindow(s, batch, w);
    InsertOrIgnoreHolds(chain, s.events, batch);
    InsertWindowWidens(s, batch, w);
    forall d, token | t.coverageFrom.value <= d <= t.cursor.value && token !in LATE_TOKENS
      ensures DayStored(chain, t.events, token, d)
    {
      WindowDaysStored(chain, s, batch, w, token, d);
    }
    forall token | token in t.tokenFrom
      ensures TokenCovered(chain, t, token)
    {
      InsertWindowKeepsToken(chain, s, batch, w, token);
    }
  }

  /** Late tokens: first set only by a window that reaches the cursor, then extended only through touching windows. */
  lemma InsertWindowKeepsToken(chain: Chain, s: StoreState, batch: seq<Event>, w: Window, token: string)
    requires KeysIdentify(chain) && Covered(chain, s)
    requires Attaches(s, w) && FetchedAll(chain, w, batch)
    requires token in InsertWindow(s, batch, w).tokenFrom
    ensures TokenCovered(chain, InsertWindow(s, batch, w), token)
  {
    var t := InsertWindow(s, batch, w);
    ExtendTokensAt(s.tokenFrom, t.cursor, w, LATE_TOKENS, token);
    if token in s.tokenFrom {
      assert TokenCovered(chain, s, token);
    }
    forall d | t.tokenFrom[token] <= d <= t.cursor.value
      ensures DayStored(chain, t.events, token, d)
    {
      WindowDaysStored(chain, s, batch, w, token, d);
    }
  }

  /**
    Exactly when a window that moves both watermarks (a cold start) is safe on
    a store that already claims days: the claim grows by nothing but the
    window's own days if and only if the window touches the claimed range.
   */
  lemma ColdWindowExact(s: StoreState, batch: seq<Event>, w: Window)
    requires s.coverageFrom.Some? && s.cursor.Some? && s.coverageFrom.value <= s.cursor.value
    requires w.start < w.end && w.newFrom == Some(w.start) && w.newCursor == Some(w.end - 1)
    ensures (forall d :: Claims(InsertWindow(s, batch, w), d) ==> Claims(s, d) || w.start <= d < w.end)
       <==> w.start <= s.cursor.value + 1 && s.coverageFrom.value <= w.end
  {
    var t := InsertWindow(s, batch, w);
    if w.start > s.cursor.value + 1 {
      assert Claims(t, s.cursor.value + 1) && !Claims(s, s.cursor.value + 1);
    } else if s.coverageFrom.value > w.end {
      assert Claims(t, w.end) && !Claims(s, w.end);
    }
  }

  // ---------------------------------------------------------------- the store as the program updates it

  class RiskStore {
    var events: map<EventKey, Event>
    var coverageFrom: Option<int>
    var cursor: Option<int>
    var tokenFrom: map<string, int>

    constructor ()
      ensures State() == EMPTY_STORE
    {
      events, coverageFrom, cursor, tokenFrom := map[], None, None, map[];
    }

    function State(): StoreState
      reads this
    {
      StoreState(events, coverageFrom, cursor, tokenFrom)
    }

    /** One transaction: rows, watermarks and token coverage together. */
    method InsertStablecoinWindow(batch: seq<Event>, w: Window)
      modifies this
      ensures State() == InsertWindow(old(State()), batch, w)
    {
      ghost var before := State();
      var i := 0;
      while i < |batch|
        invariant 0 <= i <= |batch|
        invariant InsertOrIgnore(events, batch[i..]) == InsertOrIgnore(before.events, batch)
        invariant coverageFrom == before.coverageFrom && cursor == before.cursor && tokenFrom == before.tokenFrom
      {
        assert batch[i..][1..] == batch[i + 1..];
        if batch[i].key !in events {
          events := events[batch[i].key := batch[i]];
        }
        i := i + 1;
      }
      if w.newFrom.Some? && (coverageFrom.None? || w.newFrom.value < coverageFrom.value) {
        coverageFrom := w.newFrom;
      }
      if w.newCursor.Some? && (cursor.None? || cursor.value < w.newCursor.value) {
        cursor := w.newCursor;
      }
      if w.start < w.end {
        ExtendTokenCoverage(w);
      }
    }

    method ExtendTokenCoverage(w: Window)
      modifies this`tokenFrom
      ensures tokenFrom == ExtendTokens(old(tokenFrom), cursor, w, LATE_TOKENS)
    {
      var last := w.end - 1;
      var i := 0;
      while i < |LATE_TOKENS|
        invariant 0 <= i <= |LATE_TOKENS|
        invariant ExtendTokens(tokenFrom, cursor, w, LATE_TOKENS[i..]) == ExtendTokens(old(tokenFrom), cursor, w, LATE_TOKENS)
      {
        var token := LATE_TOKENS[i];
        assert LATE_TOKENS[i..][0] == token && LATE_TOKENS[i..][1..] == LATE_TOKENS[i + 1..];
        if token !in tokenFrom {
          if cursor.Some? && last >= cursor.value {
            tokenFrom := tokenFrom[token := w.start];
          }
        } else if w.start < tokenFrom[token] && w.end >= tokenFrom[token] {
          tokenFrom := tokenFrom[token := w.start];
        }
        i := i + 1;
      }
    }
  }
}
