/**
  The block rollup: batches of block rows are accepted only when they join the
  stored heights without a hole, and are then upserted together with the
  height coverage starts at. Days are day numbers.
 */
module BlockRollup {
  import opened Wrappers

  datatype Block = Block(height: int, day: int, bits: string, subsidy: int, txCount: int)

  type Blocks = map<int, Block>

  function HeightsOf(rows: seq<Block>): (hs: set<int>)
    ensures forall h :: h in hs <==> exists i :: 0 <= i < |rows| && rows[i].height == h
  {
    set i | 0 <= i < |rows| :: rows[i].height
  }

  // ---------------------------------------------------------------- the range to load

  /** Is lo..hi the range of the rows' heights, stretched down to the stored coverage start? */
  predicate IsBounds(rows: seq<Block>, cov: Option<int>, lo: int, hi: int) {
    if rows == [] then lo == 0 && hi == -1
    else
      && (forall i :: 0 <= i < |rows| ==> lo <= rows[i].height <= hi)
      && hi in HeightsOf(rows)
      && (cov.Some? ==> lo <= cov.value)
      && (lo in HeightsOf(rows) || cov == Some(lo))
  }

  method HeightBounds(rows: seq<Block>, cov: Option<int>) returns (lo: int, hi: int)
    ensures IsBounds(rows, cov, lo, hi)
  {
    if |rows| == 0 {
      return 0, -1;
    }
    lo, hi := rows[0].height, rows[0].height;
    for i := 1 to |rows|
      invariant forall j :: 0 <= j < i ==> lo <= rows[j].height <= hi
      invariant lo in HeightsOf(rows) && hi in HeightsOf(rows)
    {
      var h := rows[i].height;
      if h < lo {
        lo := h;
      }
      if h > hi {
        hi := h;
      }
    }
    if cov.Some? && cov.value < lo {
      lo := cov.value;
    }
  }

  /** The stored rows of a height range. */
  function LoadRange(blocks: Blocks, lo: int, hi: int): Blocks {
    map h | h in blocks && lo <= h <= hi :: blocks[h]
  }

  // ---------------------------------------------------------------- acceptance

  datatype Verdict =
    | Accepted(covStart: int, maxInWindow: int)
    | EmptyBatch
    | DuplicateHeight(height: int)
    | Conflict(height: int)
    | NothingInWindow
    | Hole(height: int)

  predicate InWindow(b: Block, start: int, end: int) { start <= b.day < end }

  predicate Agree(a: Block, b: Block) { a.day == b.day && a.bits == b.bits && a.subsidy == b.subsidy }

  predicate Distinct(rows: seq<Block>) { forall i, j :: 0 <= i < j < |rows| ==> rows[i].height != rows[j].height }

  predicate NoConflict(rows: seq<Block>, existing: Blocks) {
    forall i :: 0 <= i < |rows| && rows[i].height in existing ==> Agree(existing[rows[i].height], rows[i])
  }

  predicate AnyInWindow(rows: seq<Block>, start: int, end: int) { exists i :: 0 <= i < |rows| && InWindow(rows[i], start, end) }

  /** lo and hi are the least and greatest heights dated in the window. */
  predicate WindowBounds(rows: seq<Block>, start: int, end: int, lo: int, hi: int) {
    && (forall i :: 0 <= i < |rows| && InWindow(rows[i], start, end) ==> lo <= rows[i].height <= hi)
    && (exists i :: 0 <= i < |rows| && InWindow(rows[i], start, end) && rows[i].height == lo)
    && (exists i :: 0 <= i < |rows| && InWindow(rows[i], start, end) && rows[i].height == hi)
  }

  predicate Contiguous(known: set<int>, lo: int, hi: int) { forall h :: lo <= h <= hi ==> h in known }

  /** When a batch is accepted, from which coverage start and up to which height. */
  ghost predicate Acceptable(start: int, end: int, rows: seq<Block>, existing: Blocks, cov: Option<int>, covStart: int, hi: int) {
    && Distinct(rows) && NoConflict(rows, existing)
    && (exists lo :: WindowBounds(rows, start, end, lo, hi) && covStart == if cov.Some? then cov.value else lo)
    && Contiguous(existing.Keys + HeightsOf(rows), covStart, hi)
  }

  /** Where the scan of the rows stands: everything so far is new, agrees with the store, and is bounded. */
  predicate Scanned(start: int, end: int, rows: seq<Block>, existing: Blocks, seen: set<int>, bounds: Option<(int, int)>) {
    && seen == HeightsOf(rows) && Distinct(rows) && NoConflict(rows, existing)
    && (bounds.Some? ==> WindowBounds(rows, start, end, bounds.value.0, bounds.value.1))
    && (bounds.None? ==> !AnyInWindow(rows, start, end))
  }

  function Widen(bounds: Option<(int, int)>, h: int): Option<(int, int)> {
    match bounds
    case None => Some((h, h))
    case Some((lo, hi)) => Some((Min(lo, h), Max(hi, h)))
  }

  /** Row i is the first that repeats an earlier row's height or disagrees with the store. */
  predicate FirstBad(rows: seq<Block>, existing: Blocks, i: int) {
    && 0 <= i < |rows| && Distinct(rows[..i]) && NoConflict(rows[..i], existing)
    && (rows[i].height in HeightsOf(rows[..i]) || (rows[i].height in existing && !Agree(existing[rows[i].height], rows[i])))
  }

  /** h is the lowest height of lo..hi that is not known. */
  predicate IsFirstHole(known: set<int>, lo: int, hi: int, h: int) {
    lo <= h <= hi && h !in known && Contiguous(known, lo, h - 1)
  }

  lemma FirstBadIsBad(rows: seq<Block>, existing: Blocks, i: int)
    requires FirstBad(rows, existing, i)
    ensures !(Distinct(rows) && NoConflict(rows, existing))
    ensures forall j :: FirstBad(rows, existing, j) ==> j == i
  {
    hide Agree;
    var h := rows[i].height;
    if h in HeightsOf(rows[..i]) {
      var k :| 0 <= k < i && rows[..i][k].height == h;
      assert rows[k].height == rows[i].height;
    }
    forall j | FirstBad(rows, existing, j) ensures j == i {
      if j < i {
        BadPrefix(rows, existing, j, i);
      } else if i < j {
        BadPrefix(rows, existing, i, j);
      }
    }
  }

  lemma BadPrefix(rows: seq<Block>, existing: Blocks, i: int, j: int)
    requires FirstBad(rows, existing, i) && i < j <= |rows|
    ensures !(Distinct(rows[..j]) && NoConflict(rows[..j], existing))
  {
    hide Agree;
    var p := rows[..j];
    assert p[i] == rows[i];
    if p[i].height in HeightsOf(rows[..i]) {
      var k :| 0 <= k < i && rows[..i][k].height == p[i].height;
      assert p[k] == rows[k];
    }
  }

  lemma NoneBad(rows: seq<Block>, existing: Blocks)
    requires Distinct(rows) && NoConflict(rows, existing)
    ensures forall i :: !FirstBad(rows, existing, i)
  {
    hide Agree;
    forall i ensures !FirstBad(rows, existing, i) {
      if FirstBad(rows, existing, i) {
        FirstBadIsBad(rows, existing, i);
      }
    }
  }

  method ValidateBlocks(start: int, end: int, rows: seq<Block>, existing: Blocks, cov: Option<int>) returns (v: Verdict)
    ensures v.Accepted? ==> Acceptable(start, end, rows, existing, cov, v.covStart, v.maxInWindow)
    ensures !v.Accepted? ==> forall covStart, hi :: !Acceptable(start, end, rows, existing, cov, covStart, hi)
    ensures v.EmptyBatch? <==> rows == []
    ensures v.DuplicateHeight? <==> exists i :: FirstBad(rows, existing, i) && rows[i].height in HeightsOf(rows[..i])
    ensures v.Conflict? <==> exists i :: FirstBad(rows, existing, i) && rows[i].height !in HeightsOf(rows[..i])
    ensures v.DuplicateHeight? || v.Conflict? ==> exists i :: FirstBad(rows, existing, i) && rows[i].height == v.height
    ensures v.NothingInWindow? <==> rows != [] && Distinct(rows) && NoConflict(rows, existing) && !AnyInWindow(rows, start, end)
    ensures v.Hole? ==>
              exists lo, hi :: WindowBounds(rows, start, end, lo, hi) &&
                               IsFirstHole(existing.Keys + HeightsOf(rows), if cov.Some? then cov.value else lo, hi, v.height)
  {
    hide Scanned;
    if |rows| == 0 {
      return EmptyBatch;
    }
    var seen: set<int> := {};
    var bounds: Option<(int, int)> := None;
    ScanStart(start, end, existing);
    for i := 0 to |rows|
      invariant Scanned(start, end, rows[..i], existing, seen, bounds)
    {
      var b := rows[i];
      assert rows[..i + 1] == rows[..i] + [b];
      ScanEnd(start, end, rows[..i], existing, seen, bounds);
      if b.height in seen {
        assert FirstBad(rows, existing, i);
        FirstBadIsBad(rows, existing, i);
        return DuplicateHeight(b.height);
      }
      if b.height in existing && !Agree(existing[b.height], b) {
        assert FirstBad(rows, existing, i);
        FirstBadIsBad(rows, existing, i);
        return Conflict(b.height);
      }
      ScanStep(start, end, rows[..i], b, existing, seen, bounds);
      seen := seen + {b.height};
      if InWindow(b, start, end) {
        bounds := Widen(bounds, b.height);
      }
    }
    assert rows[..|rows|] == rows;
    ScanEnd(start, end, rows, existing, seen, bounds);
    NoneBad(rows, existing);
    if bounds.None? {
      return NothingInWindow;
    }
    var (hMin, hMax) := bounds.value;
    var covStart := hMin;
    if cov.Some? {
      covStart := cov.value;
    }
    var hole := FirstHole(existing.Keys + seen, covStart, hMax);
    if hole.Some? {
      HoleRejects(start, end, rows, existing, cov, hMin, hMax, hole.value);
      return Hole(hole.value);
    }
    v := Accepted(covStart, hMax);
  }

  method FirstHole(known: set<int>, lo: int, hi: int) returns (hole: Option<int>)
    ensures hole.None? <==> Contiguous(known, lo, hi)
    ensures hole.Some? ==> lo <= hole.value <= hi && hole.value !in known && Contiguous(known, lo, hole.value - 1)
  {
    var h := lo;
    while h <= hi
      invariant lo <= h && Contiguous(known, lo, h - 1)
      decreases hi - h
    {
      if h !in known {
        return Some(h);
      }
      h := h + 1;
    }
    hole := None;
  }

  lemma ScanStart(start: int, end: int, existing: Blocks)
    ensures Scanned(start, end, [], existing, {}, None)
  {
  }

  lemma ScanStep(start: int, end: int, rows: seq<Block>, b: Block, existing: Blocks, seen: set<int>, bounds: Option<(int, int)>)
    requires Scanned(start, end, rows, existing, seen, bounds)
    requires b.height !in seen && (b.height in existing ==> Agree(existing[b.height], b))
    ensures Scanned(start, end, rows + [b], existing, seen + {b.height}, if InWindow(b, start, end) then Widen(bounds, b.height) else bounds)
  {
    hide Agree;
    HeightsSnoc(rows, b);
    assert (rows + [b])[|rows|] == b;
    if bounds.Some? {
      if InWindow(b, start, end) {
        WindowBoundsSnoc(rows, b, start, end, bounds.value.0, bounds.value.1);
      } else {
        WindowBoundsSkip(rows, b, start, end, bounds.value.0, bounds.value.1);
      }
    }
  }

  lemma ScanEnd(start: int, end: int, rows: seq<Block>, existing: Blocks, seen: set<int>, bounds: Option<(int, int)>)
    requires Scanned(start, end, rows, existing, seen, bounds)
    ensures seen == HeightsOf(rows) && Distinct(rows) && NoConflict(rows, existing)
    ensures bounds.Some? ==> WindowBounds(rows, start, end, bounds.value.0, bounds.value.1)
    ensures bounds.None? ==> !AnyInWindow(rows, start, end)
  {
  }

  lemma HeightsSnoc(rows: seq<Block>, b: Block)
    ensures HeightsOf(rows + [b]) == HeightsOf(rows) + {b.height}
  {
    var more := rows + [b];
    assert more[|rows|] == b;
    forall h | h in HeightsOf(rows) ensures h in HeightsOf(more) {
      var i :| 0 <= i < |rows| && rows[i].height == h;
      assert more[i] == rows[i];
    }
  }

  lemma WindowBoundsSnoc(rows: seq<Block>, b: Block, start: int, end: int, lo: int, hi: int)
    requires WindowBounds(rows, start, end, lo, hi) && InWindow(b, start, end)
    ensures WindowBounds(rows + [b], start, end, Min(lo, b.height), Max(hi, b.height))
  {
    var more := rows + [b];
    var i :| 0 <= i < |rows| && InWindow(rows[i], start, end) && rows[i].height == lo;
    var j :| 0 <= j < |rows| && InWindow(rows[j], start, end) && rows[j].height == hi;
    assert more[i] == rows[i] && more[j] == rows[j] && more[|rows|] == b;
  }

  lemma WindowBoundsSkip(rows: seq<Block>, b: Block, start: int, end: int, lo: int, hi: int)
    requires WindowBounds(rows, start, end, lo, hi) && !InWindow(b, start, end)
    ensures WindowBounds(rows + [b], start, end, lo, hi)
  {
    var more := rows + [b];
    var i :| 0 <= i < |rows| && InWindow(rows[i], start, end) && rows[i].height == lo;
    var j :| 0 <= j < |rows| && InWindow(rows[j], start, end) && rows[j].height == hi;
    assert more[i] == rows[i] && more[j] == rows[j];
  }

  lemma WindowBoundsUnique(rows: seq<Block>, start: int, end: int, lo: int, hi: int, lo': int, hi': int)
    requires WindowBounds(rows, start, end, lo, hi) && WindowBounds(rows, start, end, lo', hi')
    ensures lo == lo' && hi == hi'
  {
  }

  lemma HoleRejects(start: int, end: int, rows: seq<Block>, existing: Blocks, cov: Option<int>, lo: int, hi: int, h: int)
    requires WindowBounds(rows, start, end, lo, hi)
    requires (if cov.Some? then cov.value else lo) <= h <= hi && h !in existing.Keys + HeightsOf(rows)
    ensures forall covStart, top :: !Acceptable(start, end, rows, existing, cov, covStart, top)
  {
    forall lo', top | WindowBounds(rows, start, end, lo', top) ensures lo' == lo && top == hi {
      WindowBoundsUnique(rows, start, end, lo, hi, lo', top);
    }
  }

  // ---------------------------------------------------------------- the store

  datatype Payload = Payload(covStart: int, rows: seq<Block>, maxInWindow: int)

  datatype Store = Store(coverage: Option<int>, blocks: Blocks)

  function Upsert(blocks: Blocks, rows: seq<Block>): Blocks {
    if rows == [] then blocks
    else
      var b := rows[|rows| - 1];
      Upsert(blocks, rows[..|rows| - 1])[b.height := b]
  }

  /** The coverage start is written once; the rows replace what their heights held. */
  function Apply(s: Store, p: Payload): Store {
    Store(if s.coverage.None? then Some(p.covStart) else s.coverage, Upsert(s.blocks, p.rows))
  }

  lemma {:induction false} UpsertKeys(blocks: Blocks, rows: seq<Block>)
    ensures Upsert(blocks, rows).Keys == blocks.Keys + HeightsOf(rows)
  {
    if rows == [] {
    } else {
      var init, b := rows[..|rows| - 1], rows[|rows| - 1];
      UpsertKeys(blocks, init);
      HeightsSnoc(init, b);
      assert rows == init + [b];
    }
  }

  /** A height keeps its stored row, or takes the row of the batch that has its height. */
  lemma {:induction false} UpsertAt(blocks: Blocks, rows: seq<Block>, h: int)
    requires h in Upsert(blocks, rows)
    ensures (h in blocks && Upsert(blocks, rows)[h] == blocks[h]) ||
            exists i :: 0 <= i < |rows| && rows[i].height == h && Upsert(blocks, rows)[h] == rows[i]
  {
    if rows == [] {
    } else {
      var init, b := rows[..|rows| - 1], rows[|rows| - 1];
      if h == b.height {
        assert Upsert(blocks, rows)[h] == rows[|rows| - 1];
      } else {
        UpsertAt(blocks, init, h);
        if !(h in blocks && Upsert(blocks, rows)[h] == blocks[h]) {
          var i :| 0 <= i < |init| && init[i].height == h && Upsert(blocks, init)[h] == init[i];
          assert rows[i] == init[i];
        }
      }
    }
  }

  // ---------------------------------------------------------------- per-day rows

  /** What the transactions query reports for one day. */
  datatype TxDay = TxDay(day: int, coinbaseTxs: int, txs: int, inputs: int, taprootOutputs: int, opReturnOutputs: int)

  datatype DayRow = DayRow(day: int, blocks: nat, emptyBlocks: nat, scheduledSats: int, tx: TxDay)

  datatype DayError = NoBlocks(day: int) | NoTransactions(day: int) | CoinbaseMismatch(day: int) | TooFew(day: int) | BadBits(day: int)

  predicate HexChar(c: char) { '0' <= c <= '9' || 'a' <= c <= 'f' || 'A' <= c <= 'F' }

  /** Eight hexadecimal digits whose last six, the mantissa, are not all zero. */
  predicate ValidBits(bits: string) {
    |bits| == 8 && (forall i :: 0 <= i < 8 ==> HexChar(bits[i])) && exists i :: 2 <= i < 8 && bits[i] != '0'
  }

  function HexDigit(c: char): nat {
    if '0' <= c <= '9' then c as int - '0' as int
    else if 'a' <= c <= 'f' then c as int - 'a' as int + 10
    else if 'A' <= c <= 'F' then c as int - 'A' as int + 10
    else 0
  }

  function HexValue(s: string): nat {
    if s == "" then 0 else 16 * HexValue(s[..|s| - 1]) + HexDigit(s[|s| - 1])
  }

  lemma {:induction false} HexValueZero(s: string)
    requires forall i :: 0 <= i < |s| ==> HexChar(s[i])
    ensures HexValue(s) == 0 <==> forall i :: 0 <= i < |s| ==> s[i] == '0'
  {
    if s == "" {
    } else {
      var init := s[..|s| - 1];
      assert forall i :: 0 <= i < |init| ==> init[i] == s[i];
      HexValueZero(init);
      assert HexDigit(s[|s| - 1]) == 0 <==> s[|s| - 1] == '0';
    }
  }

  /** Bits are accepted exactly when they are eight hexadecimal digits whose 24-bit mantissa is not zero. */
  lemma ValidBitsExact(bits: string)
    ensures ValidBits(bits) <==> |bits| == 8 && (forall i :: 0 <= i < 8 ==> bits[i] in HEX_DIGITS) && HexValue(bits[2..]) > 0
  {
    hide HexValue, HexChar;
    if |bits| == 8 {
      forall i | 0 <= i < 8 ensures HexChar(bits[i]) <==> bits[i] in HEX_DIGITS {
        HexCharSpelled(bits[i]);
      }
      if forall i :: 0 <= i < 8 ==> HexChar(bits[i]) {
        var mantissa := bits[2..];
        assert forall i :: 2 <= i < 8 ==> mantissa[i - 2] == bits[i];
        HexValueZero(mantissa);
      }
    }
  }

  const HEX_DIGITS := "0123456789abcdefABCDEF"

  lemma HexCharSpelled(c: char)
    ensures HexChar(c) <==> c in HEX_DIGITS
  {
    if '0' <= c <= '9' {
      assert HEX_DIGITS[c as int - '0' as int] == c;
    } else if 'a' <= c <= 'f' {
      assert HEX_DIGITS[c as int - 'a' as int + 10] == c;
    } else if 'A' <= c <= 'F' {
      assert HEX_DIGITS[c as int - 'A' as int + 16] == c;
    }
  }

  function RowsOfDay(rows: seq<Block>, d: int): seq<Block> {
    if rows == [] then []
    else
      var b := rows[|rows| - 1];
      RowsOfDay(rows[..|rows| - 1], d) + (if b.day == d then [b] else [])
  }

  /** The last transactions row of day d. */
  function TxOfDay(txs: seq<TxDay>, d: int): Option<TxDay> {
    if txs == [] then None
    else if txs[|txs| - 1].day == d then Some(txs[|txs| - 1])
    else TxOfDay(txs[..|txs| - 1], d)
  }

  predicate IsLastAt(txs: seq<TxDay>, d: int, i: int) {
    0 <= i < |txs| && txs[i].day == d && forall j :: i < j < |txs| ==> txs[j].day != d
  }

  ghost predicate IsLastOf(txs: seq<TxDay>, d: int, tx: TxDay) { exists i :: IsLastAt(txs, d, i) && txs[i] == tx }

  lemma LastIsLast(txs: seq<TxDay>)
    requires txs != []
    ensures IsLastOf(txs, txs[|txs| - 1].day, txs[|txs| - 1])
  {
    assert IsLastAt(txs, txs[|txs| - 1].day, |txs| - 1);
  }

  lemma StillLast(txs: seq<TxDay>, d: int, tx: TxDay)
    requires txs != [] && txs[|txs| - 1].day != d && IsLastOf(txs[..|txs| - 1], d, tx)
    ensures IsLastOf(txs, d, tx)
  {
    var i :| IsLastAt(txs[..|txs| - 1], d, i) && txs[..|txs| - 1][i] == tx;
    assert IsLastAt(txs, d, i);
  }

  lemma {:induction false} TxOfDayExact(txs: seq<TxDay>, d: int)
    ensures TxOfDay(txs, d).None? <==> forall i :: 0 <= i < |txs| ==> txs[i].day != d
    ensures TxOfDay(txs, d).Some? ==> IsLastOf(txs, d, TxOfDay(txs, d).value)
  {
    hide IsLastOf;
    if txs == [] {
    } else {
      var n := |txs| - 1;
      if txs[n].day == d {
        LastIsLast(txs);
      } else {
        TxOfDayExact(txs[..n], d);
        assert forall i :: 0 <= i < n ==> txs[..n][i] == txs[i];
        if TxOfDay(txs[..n], d).Some? {
          StillLast(txs, d, TxOfDay(txs[..n], d).value);
        }
      }
    }
  }

  function SumSubsidy(rows: seq<Block>): int {
    if rows == [] then 0 else SumSubsidy(rows[..|rows| - 1]) + rows[|rows| - 1].subsidy
  }

  function CountEmpty(rows: seq<Block>): nat {
    if rows == [] then 0 else CountEmpty(rows[..|rows| - 1]) + (if rows[|rows| - 1].txCount <= 1 then 1 else 0)
  }

  datatype Guards = Guards(minTxs: int, minInputs: int)

  /** The guards of one day, in the order they are tried. */
  function DayOf(rows: seq<Block>, txs: seq<TxDay>, g: Guards, d: int): Result<DayRow, DayError> {
    var own := RowsOfDay(rows, d);
    var tx := TxOfDay(txs, d);
    if own == [] then Err(NoBlocks(d))
    else if tx.None? then Err(NoTransactions(d))
    else if tx.value.coinbaseTxs != |own| then Err(CoinbaseMismatch(d))
    else if tx.value.txs < g.minTxs || tx.value.inputs < g.minInputs || tx.value.taprootOutputs < 1 || tx.value.opReturnOutputs < 1 then
      Err(TooFew(d))
    else if exists i :: 0 <= i < |own| && !ValidBits(own[i].bits) then Err(BadBits(d))
    else Ok(DayRow(d, |own|, CountEmpty(own), SumSubsidy(own), tx.value))
  }

  function DaysFrom(rows: seq<Block>, txs: seq<TxDay>, g: Guards, start: int, end: int): Result<seq<DayRow>, DayError>
    decreases end - start
  {
    if start >= end then Ok([])
    else
      match DayOf(rows, txs, g, start)
      case Err(e) => Err(e)
      case Ok(day) =>
        match DaysFrom(rows, txs, g, start + 1, end)
        case Err(e) => Err(e)
        case Ok(rest) => Ok([day] + rest)
  }

  function Group(byDay: map<int, seq<Block>>, d: int): seq<Block> { if d in byDay then byDay[d] else [] }

  lemma {:induction false} DaysSnoc(rows: seq<Block>, txs: seq<TxDay>, g: Guards, start: int, cur: int, end: int)
    requires start <= cur < end && DaysFrom(rows, txs, g, start, cur).Ok?
    ensures DayOf(rows, txs, g, cur).Ok? ==>
            DaysFrom(rows, txs, g, start, cur + 1) == Ok(DaysFrom(rows, txs, g, start, cur).value + [DayOf(rows, txs, g, cur).value])
    ensures DayOf(rows, txs, g, cur).Err? ==> DaysFrom(rows, txs, g, start, end) == Err(DayOf(rows, txs, g, cur).error)
    decreases cur - start
  {
    hide DayOf;
    if start < cur {
      DaysSnoc(rows, txs, g, start + 1, cur, end);
      if DayOf(rows, txs, g, cur).Ok? {
        var first, rest := [DayOf(rows, txs, g, start).value], DaysFrom(rows, txs, g, start + 1, cur).value;
        var last := [DayOf(rows, txs, g, cur).value];
        assert first + (rest + last) == (first + rest) + last;
      }
    } else if DayOf(rows, txs, g, cur).Ok? {
      assert DaysFrom(rows, txs, g, cur + 1, cur + 1) == Ok([]);
      assert [DayOf(rows, txs, g, cur).value] + [] == [] + [DayOf(rows, txs, g, cur).value];
    }
  }

  method BuildDays(start: int, end: int, rows: seq<Block>, txs: seq<TxDay>, g: Guards) returns (r: Result<seq<DayRow>, DayError>)
    ensures r == DaysFrom(rows, txs, g, start, end)
  {
    hide DayOf, RowsOfDay;
    var byDay: map<int, seq<Block>> := map[];
    NoRows();
    for i := 0 to |rows|
      invariant forall d :: start <= d < end ==> Group(byDay, d) == RowsOfDay(rows[..i], d)
    {
      var b := rows[i];
      RowsOfDaySnoc(rows[..i], b);
      assert rows[..i + 1] == rows[..i] + [b];
      if InWindow(b, start, end) {
        byDay := byDay[b.day := Group(byDay, b.day) + [b]];
      }
    }
    assert rows[..|rows|] == rows;
    var out: seq<DayRow> := [];
    var cur := start;
    while cur < end
      invariant start <= cur && (start <= end ==> cur <= end) && (start > end ==> cur == start)
      invariant DaysFrom(rows, txs, g, start, cur) == Ok(out)
      decreases end - cur
    {
      DaysSnoc(rows, txs, g, start, cur, end);
      var day := BuildDay(cur, Group(byDay, cur), rows, txs, g);
      if day.Err? {
        return Err(day.error);
      }
      out := out + [day.value];
      cur := cur + 1;
    }
    r := Ok(out);
  }

  /** A day's rows are the batch's blocks of that day, no other. */
  lemma {:induction false} RowsOfDayExact(rows: seq<Block>, d: int, b: Block)
    ensures b in RowsOfDay(rows, d) <==> b in rows && b.day == d
  {
    if rows == [] {
    } else {
      var init, last := rows[..|rows| - 1], rows[|rows| - 1];
      RowsOfDayExact(init, d, b);
      assert b in rows <==> b in init || b == last;
    }
  }

  lemma NoRows()
    ensures forall d :: RowsOfDay([], d) == []
  {
  }

  lemma RowsOfDaySnoc(rows: seq<Block>, b: Block)
    ensures forall d :: RowsOfDay(rows + [b], d) == RowsOfDay(rows, d) + (if b.day == d then [b] else [])
  {
    assert (rows + [b])[..|rows|] == rows;
  }

  method BuildDay(d: int, own: seq<Block>, rows: seq<Block>, txs: seq<TxDay>, g: Guards) returns (r: Result<DayRow, DayError>)
    requires own == RowsOfDay(rows, d)
    ensures r == DayOf(rows, txs, g, d)
  {
    hide ValidBits, RowsOfDay, TxOfDay;
    if |own| == 0 {
      return Err(NoBlocks(d));
    }
    var tx := TxOfDay(txs, d);
    if tx.None? {
      return Err(NoTransactions(d));
    }
    if tx.value.coinbaseTxs != |own| {
      return Err(CoinbaseMismatch(d));
    }
    if tx.value.txs < g.minTxs || tx.value.inputs < g.minInputs || tx.value.taprootOutputs < 1 || tx.value.opReturnOutputs < 1 {
      return Err(TooFew(d));
    }
    var sched, empty := 0, 0;
    for i := 0 to |own|
      invariant sched == SumSubsidy(own[..i]) && empty == CountEmpty(own[..i])
      invariant forall j :: 0 <= j < i ==> ValidBits(own[j].bits)
    {
      assert own[..i + 1][..i] == own[..i];
      sched := sched + own[i].subsidy;
      if own[i].txCount <= 1 {
        empty := empty + 1;
      }
      if !ValidBits(own[i].bits) {
        return Err(BadBits(d));
      }
    }
    assert own[..|own|] == own;
    r := Ok(DayRow(d, |own|, empty, sched, tx.value));
  }

  // ---------------------------------------------------------------- the days account for the window's blocks

  function WindowRows(rows: seq<Block>, start: int, end: int): seq<Block> {
    if rows == [] then []
    else
      var b := rows[|rows| - 1];
      WindowRows(rows[..|rows| - 1], start, end) + (if InWindow(b, start, end) then [b] else [])
  }

  function SumBlocks(days: seq<DayRow>): nat {
    if days == [] then 0 else days[0].blocks + SumBlocks(days[1..])
  }

  function SumScheduled(days: seq<DayRow>): int {
    if days == [] then 0 else days[0].scheduledSats + SumScheduled(days[1..])
  }

  /** Splitting a window's rows after its first day. */
  lemma {:induction false} WindowSplit(rows: seq<Block>, start: int, end: int)
    requires start < end
    ensures |WindowRows(rows, start, end)| == |RowsOfDay(rows, start)| + |WindowRows(rows, start + 1, end)|
    ensures SumSubsidy(WindowRows(rows, start, end)) == SumSubsidy(RowsOfDay(rows, start)) + SumSubsidy(WindowRows(rows, start + 1, end))
  {
    hide SumSubsidy;
    NoSubsidy();
    if rows == [] {
    } else {
      var init, b := rows[..|rows| - 1], rows[|rows| - 1];
      WindowSplit(init, start, end);
      SumSubsidySnoc(WindowRows(init, start, end), b);
      SumSubsidySnoc(WindowRows(init, start + 1, end), b);
      SumSubsidySnoc(RowsOfDay(init, start), b);
    }
  }

  lemma NoSubsidy()
    ensures SumSubsidy([]) == 0
  {
  }

  lemma SumSubsidySnoc(rows: seq<Block>, b: Block)
    ensures SumSubsidy(rows + [b]) == SumSubsidy(rows) + b.subsidy
    ensures rows + [] == rows
  {
    assert (rows + [b])[..|rows|] == rows;
  }

  lemma {:induction false} EmptyWindow(rows: seq<Block>, start: int, end: int)
    requires start >= end
    ensures WindowRows(rows, start, end) == []
  {
    if rows == [] {
    } else {
      EmptyWindow(rows[..|rows| - 1], start, end);
    }
  }

  /** What makes a day of the window acceptable, said of the batch's own rows. */
  ghost predicate DayMeets(rows: seq<Block>, txs: seq<TxDay>, g: Guards, d: int) {
    && (exists b :: b in rows && b.day == d)
    && (forall b :: b in rows && b.day == d ==> ValidBits(b.bits))
    && exists tx :: IsLastOf(txs, d, tx) && tx.coinbaseTxs == |RowsOfDay(rows, d)| && tx.txs >= g.minTxs && tx.inputs >= g.minInputs &&
                    tx.taprootOutputs >= 1 && tx.opReturnOutputs >= 1
  }

  lemma LastIsUnique(txs: seq<TxDay>, d: int, a: TxDay, b: TxDay)
    requires IsLastOf(txs, d, a) && IsLastOf(txs, d, b)
    ensures a == b
  {
  }

  lemma DayOfExact(rows: seq<Block>, txs: seq<TxDay>, g: Guards, d: int)
    ensures DayOf(rows, txs, g, d).Ok? <==> DayMeets(rows, txs, g, d)
    ensures DayOf(rows, txs, g, d).Ok? ==> IsLastOf(txs, d, DayOf(rows, txs, g, d).value.tx)
  {
    hide ValidBits, IsLastOf, RowsOfDay, CountEmpty, SumSubsidy, TxOfDay;
    var own, tx := RowsOfDay(rows, d), TxOfDay(txs, d);
    TxOfDayExact(txs, d);
    forall b ensures b in own <==> b in rows && b.day == d {
      RowsOfDayExact(rows, d, b);
    }
    if own != [] {
      assert own[0] in own;
    }
    if tx.Some? {
      forall other | IsLastOf(txs, d, other) ensures other == tx.value {
        LastIsUnique(txs, d, other, tx.value);
      }
    } else {
      NoLast(txs, d);
    }
  }

  lemma NoLast(txs: seq<TxDay>, d: int)
    requires forall i :: 0 <= i < |txs| ==> txs[i].day != d
    ensures forall tx :: !IsLastOf(txs, d, tx)
  {
  }

  /** The days are built exactly when every day of the window meets its guards, each with the transactions row of its own day. */
  lemma {:induction false} DaysFromExact(rows: seq<Block>, txs: seq<TxDay>, g: Guards, start: int, end: int)
    ensures DaysFrom(rows, txs, g, start, end).Ok? <==> forall d :: start <= d < end ==> DayMeets(rows, txs, g, d)
    ensures DaysFrom(rows, txs, g, start, end).Ok? ==>
              forall day :: day in DaysFrom(rows, txs, g, start, end).value ==> IsLastOf(txs, day.day, day.tx)
    decreases end - start
  {
    hide DayMeets, DayOf, IsLastOf;
    if start >= end {
    } else {
      DayOfExact(rows, txs, g, start);
      DaysFromExact(rows, txs, g, start + 1, end);
      DayOfDay(rows, txs, g, start);
    }
  }

  /** The positions of the blocks with no transaction but the coinbase. */
  function EmptyAt(rows: seq<Block>): set<int> { set i | 0 <= i < |rows| && rows[i].txCount <= 1 }

  lemma DayOfDay(rows: seq<Block>, txs: seq<TxDay>, g: Guards, d: int)
    ensures DayOf(rows, txs, g, d).Ok? ==>
            var row := DayOf(rows, txs, g, d).value;
            row.day == d && row.blocks == |RowsOfDay(rows, d)| && row.emptyBlocks == |EmptyAt(RowsOfDay(rows, d))|
  {
    hide RowsOfDay, TxOfDay, ValidBits, CountEmpty, SumSubsidy;
    CountEmptyExact(RowsOfDay(rows, d));
  }

  lemma {:induction false} CountEmptyExact(rows: seq<Block>)
    ensures CountEmpty(rows) == |EmptyAt(rows)|
  {
    if rows == [] {
      assert EmptyAt(rows) == {};
    } else {
      var n := |rows| - 1;
      CountEmptyExact(rows[..n]);
      assert EmptyAt(rows) == EmptyAt(rows[..n]) + (if rows[n].txCount <= 1 then {n} else {});
    }
  }

  /** One row a day, and together they hold every in-window block and all its scheduled satoshis. */
  lemma {:induction false} DaysConserve(rows: seq<Block>, txs: seq<TxDay>, g: Guards, start: int, end: int)
    requires start <= end && DaysFrom(rows, txs, g, start, end).Ok?
    ensures var days := DaysFrom(rows, txs, g, start, end).value;
            |days| == end - start && (forall i :: 0 <= i < |days| ==> days[i].day == start + i && days[i].blocks == days[i].tx.coinbaseTxs > 0) &&
            SumBlocks(days) == |WindowRows(rows, start, end)| &&
            SumScheduled(days) == SumSubsidy(WindowRows(rows, start, end))
    decreases end - start
  {
    hide RowsOfDay, WindowRows, SumSubsidy, TxOfDay, ValidBits;
    if start < end {
      DaysConserve(rows, txs, g, start + 1, end);
      WindowSplit(rows, start, end);
    } else {
      EmptyWindow(rows, start, end);
      NoSubsidy();
    }
  }

  // ---------------------------------------------------------------- the transaction

  /** The day rows replace what their days held. */
  function UpsertDays(daily: map<int, DayRow>, days: seq<DayRow>): map<int, DayRow> {
    if days == [] then daily
    else
      var d := days[|days| - 1];
      UpsertDays(daily, days[..|days| - 1])[d.day := d]
  }

  class BlockStore {
    var coverage: Option<int>
    var blocks: Blocks
    var daily: map<int, DayRow>
    var syncedFrom: Option<int>
    var cursor: Option<int>

    constructor ()
      ensures State() == Store(None, map[]) && daily == map[] && syncedFrom.None? && cursor.None?
    {
      coverage, blocks, daily, syncedFrom, cursor := None, map[], map[], None, None;
    }

    function State(): Store
      reads this
    {
      Store(coverage, blocks)
    }

    /** One transaction: the coverage start, the block rows, the day rows and the sync row. */
    method ApplyBatch(p: Payload, days: seq<DayRow>, newFrom: Option<int>, newCursor: int)
      modifies this
      ensures State() == Apply(old(State()), p) && daily == UpsertDays(old(daily), days)
      ensures syncedFrom == (if old(syncedFrom).Some? then old(syncedFrom) else newFrom) && cursor == Some(newCursor)
    {
      if coverage.None? {
        coverage := Some(p.covStart);
      }
      for i := 0 to |p.rows|
        invariant coverage == Apply(old(State()), p).coverage
        invariant blocks == Upsert(old(blocks), p.rows[..i])
        invariant daily == old(daily) && syncedFrom == old(syncedFrom)
      {
        assert p.rows[..i + 1][..i] == p.rows[..i];
        blocks := blocks[p.rows[i].height := p.rows[i]];
      }
      assert p.rows[..|p.rows|] == p.rows;
      for i := 0 to |days|
        invariant State() == Apply(old(State()), p) && syncedFrom == old(syncedFrom)
        invariant daily == UpsertDays(old(daily), days[..i])
      {
        assert days[..i + 1][..i] == days[..i];
        daily := daily[days[i].day := days[i]];
      }
      assert days[..|days|] == days;
      if syncedFrom.None? {
        syncedFrom := newFrom;
      }
      cursor := Some(newCursor);
    }
  }

  /** Storing a window's day rows gives each of its days its own row and leaves every other day alone. */
  lemma {:induction false} UpsertDaysExact(daily: map<int, DayRow>, days: seq<DayRow>, start: int, d: int)
    requires forall i :: 0 <= i < |days| ==> days[i].day == start + i
    ensures d in UpsertDays(daily, days) <==> d in daily || start <= d < start + |days|
    ensures d in UpsertDays(daily, days) ==> UpsertDays(daily, days)[d] == if start <= d < start + |days| then days[d - start] else daily[d]
  {
    if days == [] {
    } else {
      UpsertDaysExact(daily, days[..|days| - 1], start, d);
    }
  }

  // ---------------------------------------------------------------- a run and its bill

  datatype Fetch<T> = Fetch(billed: nat, rows: Option<T>)

  /** How the two queries answer under a byte cap; a failed query may still be billed. */
  datatype Source = Source(blocks: int -> Fetch<seq<Block>>, rollup: int -> Fetch<seq<TxDay>>)

  ghost predicate RespectsCaps(src: Source) {
    forall cap :: cap > 0 ==> src.blocks(cap).billed <= cap && src.rollup(cap).billed <= cap
  }

  datatype RunResult = Done(payload: Payload, days: seq<DayRow>) | Failed | Refused(verdict: Verdict) | BadDay(error: DayError) | OverBudget

  const DEFAULT_CAP: nat := 0x4000_0000
  const MIN_DAILY := 100_000

  /** Some coverage start and height make the rows acceptable to the store. */
  ghost predicate Joins(store: BlockStore, start: int, end: int, rows: seq<Block>)
    reads store
  {
    exists covStart, hi :: Acceptable(start, end, rows, store.blocks, store.coverage, covStart, hi)
  }

  /** The first query left something of the cap, or there is none. */
  predicate CapLeft(maxBytes: int, billed: nat) { maxBytes <= 0 || billed < maxBytes }

  /** What the second query may bill. */
  function SecondCap(maxBytes: int, billed: nat): int { if maxBytes <= 0 then DEFAULT_CAP else maxBytes - billed }

  /** Loads the heights the batch reaches and checks it against them. */
  method CheckAgainst(store: BlockStore, start: int, end: int, rows: seq<Block>) returns (v: Verdict)
    ensures v.Accepted? <==> Joins(store, start, end, rows)
    ensures v.Accepted? ==> Acceptable(start, end, rows, store.blocks, store.coverage, v.covStart, v.maxInWindow)
  {
    hide Acceptable, IsBounds;
    var existing: Blocks := map[];
    var lo, hi := HeightBounds(rows, store.coverage);
    if hi >= lo {
      existing := LoadRange(store.blocks, lo, hi);
    }
    v := ValidateBlocks(start, end, rows, existing, store.coverage);
    forall covStart, top
      ensures Acceptable(start, end, rows, existing, store.coverage, covStart, top) <==>
              Acceptable(start, end, rows, store.blocks, store.coverage, covStart, top)
    {
      LoadedIsEnough(start, end, rows, store.blocks, store.coverage, lo, hi, covStart, top);
    }
  }

  /**
    The first query, the checks against the store, the second query under what
    is left of the cap, and the day guards: the clauses say exactly when each of
    them ends the run, and what was billed by then.
   */
  method Run(store: BlockStore, start: int, end: int, maxBytes: int, src: Source, guards: Guards) returns (r: RunResult, billed: nat)
    ensures var a2 := src.blocks(maxBytes);
            && (r.Refused? <==> a2.rows.Some? && !Joins(store, start, end, a2.rows.value))
            && (r.OverBudget? <==> a2.rows.Some? && Joins(store, start, end, a2.rows.value) && !CapLeft(maxBytes, a2.billed))
            && (a2.rows.None? ==> r.Failed?)
            && (a2.rows.None? || r.Refused? || r.OverBudget? ==> billed == a2.billed)
    ensures var a2 := src.blocks(maxBytes);
            a2.rows.Some? && Joins(store, start, end, a2.rows.value) && CapLeft(maxBytes, a2.billed) ==>
              var a1 := src.rollup(SecondCap(maxBytes, a2.billed));
              && billed == a2.billed + a1.billed
              && (r.Failed? <==> a1.rows.None?)
              && (a1.rows.Some? ==>
                    var days := DaysFrom(a2.rows.value, a1.rows.value, Effective(guards), start, end);
                    && (days.Err? ==> r == BadDay(days.error))
                    && (days.Ok? ==> r.Done? && r.payload.rows == a2.rows.value && r.days == days.value))
    ensures r.Done? ==> Acceptable(start, end, r.payload.rows, store.blocks, store.coverage, r.payload.covStart, r.payload.maxInWindow)
    ensures RespectsCaps(src) && maxBytes > 0 ==> billed <= maxBytes
    ensures RespectsCaps(src) && maxBytes <= 0 ==> billed <= src.blocks(maxBytes).billed + DEFAULT_CAP
  {
    hide Acceptable, IsBounds, DaysFrom, Joins;
    var a2 := src.blocks(maxBytes);
    billed := a2.billed;
    if a2.rows.None? {
      return Failed, billed;
    }
    var rows := a2.rows.value;
    var v := CheckAgainst(store, start, end, rows);
    if !v.Accepted? {
      return Refused(v), billed;
    }
    var remCap := maxBytes - a2.billed;
    if maxBytes <= 0 {
      remCap := DEFAULT_CAP;
    } else if remCap <= 0 {
      return OverBudget, billed;
    }
    var a1 := src.rollup(remCap);
    billed := a2.billed + a1.billed;
    if a1.rows.None? {
      return Failed, billed;
    }
    var days := BuildDays(start, end, rows, a1.rows.value, Effective(guards));
    if days.Err? {
      return BadDay(days.error), billed;
    }
    r := Done(Payload(v.covStart, rows, v.maxInWindow), days.value);
  }

  /** Thresholds of zero or less stand for the defaults. */
  function Effective(g: Guards): Guards {
    Guards(if g.minTxs <= 0 then MIN_DAILY else g.minTxs, if g.minInputs <= 0 then MIN_DAILY else g.minInputs)
  }

  /** Positive thresholds stand, and only those; the others become 100,000. */
  lemma EffectiveExact(g: Guards)
    ensures Effective(g).minTxs > 0 && Effective(g).minInputs > 0
    ensures Effective(g) == g <==> (g.minTxs > 0 && g.minInputs > 0)
    ensures g.minTxs < 1 ==> Effective(g).minTxs == 100_000
    ensures g.minInputs < 1 ==> Effective(g).minInputs == 100_000
    ensures g.minTxs > 0 ==> Effective(g).minTxs == g.minTxs
    ensures g.minInputs > 0 ==> Effective(g).minInputs == g.minInputs
  {
  }

  /** Loading only the batch's range, stretched to the coverage start, decides acceptance as the whole store would. */
  lemma LoadedIsEnough(start: int, end: int, rows: seq<Block>, blocks: Blocks, cov: Option<int>, lo: int, hi: int, covStart: int, top: int)
    requires IsBounds(rows, cov, lo, hi)
    ensures Acceptable(start, end, rows, if hi >= lo then LoadRange(blocks, lo, hi) else map[], cov, covStart, top) <==>
            Acceptable(start, end, rows, blocks, cov, covStart, top)
  {
    hide Agree;
    if rows != [] {
      var loaded := LoadRange(blocks, lo, hi);
      assert lo <= rows[0].height <= hi;
      forall low | WindowBounds(rows, start, end, low, top) ensures lo <= low && top <= hi {
      }
      assert NoConflict(rows, loaded) <==> NoConflict(rows, blocks);
      if covStart >= lo && top <= hi {
        forall h | lo <= h <= hi ensures h in loaded.Keys + HeightsOf(rows) <==> h in blocks.Keys + HeightsOf(rows) {
        }
        assert Contiguous(loaded.Keys + HeightsOf(rows), covStart, top) <==> Contiguous(blocks.Keys + HeightsOf(rows), covStart, top);
      }
    } else {
      forall low ensures !WindowBounds(rows, start, end, low, top) {
      }
    }
  }
}
