/**
  One batch of coin-age rows: totals, the creation-day matrix and the whales of
  each day, guarded so that no satoshi is counted twice or lost.
 */
module CoinAgeBatch {
  import opened Wrappers
  import opened CoinAge

  // ---------------------------------------------------------------- sorting

  ghost predicate IsOrder<T(!new)>(le: (T, T) -> bool) {
    (forall a, b :: le(a, b) || le(b, a)) && (forall a, b, c :: le(a, b) && le(b, c) ==> le(a, c))
  }

  predicate Sorted<T>(xs: seq<T>, le: (T, T) -> bool) { forall i, j :: 0 <= i < j < |xs| ==> le(xs[i], xs[j]) }

  method Sort<T(!new)>(xs: seq<T>, le: (T, T) -> bool) returns (ys: seq<T>)
    requires IsOrder(le)
    ensures Sorted(ys, le) && multiset(ys) == multiset(xs)
  {
    ys := [];
    for i := 0 to |xs|
      invariant Sorted(ys, le) && multiset(ys) == multiset(xs[..i])
    {
      assert xs[..i + 1] == xs[..i] + [xs[i]];
      ys := Insert(ys, xs[i], le);
    }
    assert xs[..|xs|] == xs;
  }

  method Insert<T(!new)>(ys: seq<T>, x: T, le: (T, T) -> bool) returns (zs: seq<T>)
    requires IsOrder(le) && Sorted(ys, le)
    ensures Sorted(zs, le) && multiset(zs) == multiset(ys) + multiset{x}
  {
    var k := 0;
    while k < |ys| && le(ys[k], x)
      invariant 0 <= k <= |ys| && forall i :: 0 <= i < k ==> le(ys[i], x)
    {
      k := k + 1;
    }
    zs := ys[..k] + [x] + ys[k..];
    assert ys == ys[..k] + ys[k..];
    AfterInserted(ys, x, k, le);
  }

  lemma AfterInserted<T(!new)>(ys: seq<T>, x: T, k: nat, le: (T, T) -> bool)
    requires IsOrder(le) && Sorted(ys, le) && k <= |ys| && (forall i :: 0 <= i < k ==> le(ys[i], x)) && (k < |ys| ==> !le(ys[k], x))
    ensures Sorted(ys[..k] + [x] + ys[k..], le)
  {
    forall i | k <= i < |ys| ensures le(x, ys[i]) {
      assert le(x, ys[k]);
      if i > k {
        assert le(ys[k], ys[i]);
      }
    }
  }

  /** Byte-wise order of strings. */
  predicate StringLe(s: string, t: string) {
    s == "" || (t != "" && (s[0] < t[0] || (s[0] == t[0] && StringLe(s[1..], t[1..]))))
  }

  lemma {:induction false} StringLeTotal(s: string, t: string)
    ensures StringLe(s, t) || StringLe(t, s)
  {
    if s != "" && t != "" && s[0] == t[0] {
      StringLeTotal(s[1..], t[1..]);
    }
  }

  lemma {:induction false} StringLeTransitive(s: string, t: string, u: string)
    requires StringLe(s, t) && StringLe(t, u)
    ensures StringLe(s, u)
  {
    if s != "" && s[0] == t[0] == u[0] {
      StringLeTransitive(s[1..], t[1..], u[1..]);
    }
  }

  // ---------------------------------------------------------------- rows

  /** A creation day as the query reports it: absent, not a date, or a day. */
  datatype Created = Unmatched | Unreadable | On(day: int)

  datatype Raw =
    | TotalsRow(day: int, sats: int, n: int)
    | MatrixRow(day: int, created: Created, sats: int, n: int)
    | WhaleRow(day: int, created: Created, sats: int, n: int, tx: string)

  datatype Total = Total(sats: int, n: int)

  datatype Cell = Cell(created: Created, sats: int, n: int)

  datatype SpentRow = SpentRow(spendDay: int, createDay: int, sats: int, inputs: int)

  datatype Whale = Whale(tx: string, createDay: int, spendDay: int, ageDays: int, sats: int, inputs: int)

  /** The last totals row of a day. */
  function TotalsFor(raws: seq<Raw>, d: int): Option<Total> {
    if raws == [] then None
    else
      var r := raws[|raws| - 1];
      if r.TotalsRow? && r.day == d then Some(Total(r.sats, r.n)) else TotalsFor(raws[..|raws| - 1], d)
  }

  function CellsFor(raws: seq<Raw>, d: int): seq<Cell> {
    if raws == [] then []
    else
      var r := raws[|raws| - 1];
      CellsFor(raws[..|raws| - 1], d) + (if r.MatrixRow? && r.day == d then [Cell(r.created, r.sats, r.n)] else [])
  }

  /** A whale row worth showing: named, dated, large enough and at least a year old. */
  function WhaleOf(r: Raw, minSats: int): Option<Whale> {
    if r.WhaleRow? && r.tx != "" && r.created.On? && r.sats >= minSats && r.day - r.created.day >= 365 then
      Some(Whale(r.tx, r.created.day, r.day, r.day - r.created.day, r.sats, r.n))
    else None
  }

  function WhalesFor(raws: seq<Raw>, d: int, minSats: int): seq<Whale> {
    if raws == [] then []
    else
      var w := WhaleOf(raws[|raws| - 1], minSats);
      WhalesFor(raws[..|raws| - 1], d, minSats) + (if w.Some? && w.value.spendDay == d then [w.value] else [])
  }

  function SumCells(cells: seq<Cell>): Total {
    if cells == [] then Total(0, 0)
    else
      var t, c := SumCells(cells[..|cells| - 1]), cells[|cells| - 1];
      Total(t.sats + c.sats, t.n + c.n)
  }

  function SumUnmatched(cells: seq<Cell>): Total {
    if cells == [] then Total(0, 0)
    else
      var t, c := SumUnmatched(cells[..|cells| - 1]), cells[|cells| - 1];
      if c.created.Unmatched? then Total(t.sats + c.sats, t.n + c.n) else t
  }

  function SumSpent(rows: seq<SpentRow>): Total {
    if rows == [] then Total(0, 0)
    else
      var t, r := SumSpent(rows[..|rows| - 1]), rows[|rows| - 1];
      Total(t.sats + r.sats, t.n + r.inputs)
  }

  function Matched(cells: seq<Cell>, d: int): seq<SpentRow> {
    if cells == [] then []
    else
      var c := cells[|cells| - 1];
      Matched(cells[..|cells| - 1], d) + (if c.created.On? then [SpentRow(d, c.created.day, c.sats, c.n)] else [])
  }

  datatype BatchError =
    | NoTotals(day: int) | TooFewInputs(day: int) | BadCreateDay(day: int) | FutureCreateDay(day: int)
    | TotalsMismatch(day: int) | TooManyUnmatched(day: int)

  /** The first cell whose creation day is no date, or is more than a day after the spend. */
  function CellError(cells: seq<Cell>, d: int): Option<BatchError> {
    if cells == [] then None
    else
      var c := cells[|cells| - 1];
      var earlier := CellError(cells[..|cells| - 1], d);
      if earlier.Some? then earlier
      else if c.created.Unreadable? then Some(BadCreateDay(d))
      else if c.created.On? && c.created.day > d + 1 then Some(FutureCreateDay(d))
      else None
  }

  /** A day's guards, in the order they are tried. */
  function DayError(raws: seq<Raw>, d: int, minInputs: int): Option<BatchError> {
    var total, cells := TotalsFor(raws, d), CellsFor(raws, d);
    if total.None? then Some(NoTotals(d))
    else if total.value.n < minInputs then Some(TooFewInputs(d))
    else if CellError(cells, d).Some? then CellError(cells, d)
    else if SumCells(cells) != total.value then Some(TotalsMismatch(d))
    else if SumUnmatched(cells).n * 10_000 > total.value.n then Some(TooManyUnmatched(d))
    else None
  }

  /** The first guard that fails in [start, end). */
  function FirstError(raws: seq<Raw>, start: int, end: int, minInputs: int): Option<BatchError>
    decreases end - start
  {
    if start >= end then None
    else if DayError(raws, start, minInputs).Some? then DayError(raws, start, minInputs)
    else FirstError(raws, start + 1, end, minInputs)
  }

  // ---------------------------------------------------------------- one day of the payload

  predicate MatrixLe(a: SpentRow, b: SpentRow) { a.createDay <= b.createDay }

  /** Larger first; equal amounts by transaction id. */
  predicate WhaleLe(a: Whale, b: Whale) { a.sats > b.sats || (a.sats == b.sats && StringLe(a.tx, b.tx)) }

  lemma WhaleOrder()
    ensures IsOrder(WhaleLe) && IsOrder(MatrixLe)
  {
    hide StringLe;
    forall a: Whale, b: Whale ensures WhaleLe(a, b) || WhaleLe(b, a) {
      StringLeTotal(a.tx, b.tx);
    }
    forall a: Whale, b: Whale, c: Whale | WhaleLe(a, b) && WhaleLe(b, c) ensures WhaleLe(a, c) {
      if a.sats == b.sats == c.sats {
        StringLeTransitive(a.tx, b.tx, c.tx);
      }
    }
  }

  /** Satoshis by creation day. */
  function Spend(rows: seq<SpentRow>): Spent {
    if rows == [] then map[]
    else
      var m, r := Spend(rows[..|rows| - 1]), rows[|rows| - 1];
      m[r.createDay := (if r.createDay in m then m[r.createDay] else 0) + r.sats]
  }

  datatype DayPart = DayPart(day: int, matrix: seq<SpentRow>, whales: seq<Whale>, metrics: CoinageDay)

  /** The k first whales of some order of them all, largest first. */
  ghost predicate TopWhales(top: seq<Whale>, all: seq<Whale>, k: int) {
    exists ranked: seq<Whale> :: multiset(ranked) == multiset(all) && Sorted(ranked, WhaleLe) &&
      top == if k > 0 && |ranked| > k then ranked[..k] else ranked
  }

  ghost predicate IsDay(part: DayPart, raws: seq<Raw>, d: int, whaleMin: int, whalesPerDay: int) {
    && part.day == d
    && multiset(part.matrix) == multiset(Matched(CellsFor(raws, d), d)) && Sorted(part.matrix, MatrixLe)
    && TopWhales(part.whales, WhalesFor(raws, d, whaleMin), whalesPerDay)
    && IsMetrics(part.metrics, d, Spend(part.matrix), map[], false)
  }

  method BuildDay(raws: seq<Raw>, d: int, total: Option<Total>, cells: seq<Cell>, whales: seq<Whale>,
                  minInputs: int, whaleMin: int, whalesPerDay: int) returns (r: Result<DayPart, BatchError>)
    requires total == TotalsFor(raws, d) && cells == CellsFor(raws, d) && whales == WhalesFor(raws, d, whaleMin)
    ensures r.Err? <==> DayError(raws, d, minInputs).Some?
    ensures r.Err? ==> DayError(raws, d, minInputs) == Some(r.error)
    ensures r.Ok? ==> IsDay(r.value, raws, d, whaleMin, whalesPerDay)
  {
    hide TotalsFor, CellsFor, WhalesFor, IsMetrics, Spend, WhaleLe, MatrixLe;
    if total.None? {
      return Err(NoTotals(d));
    }
    if total.value.n < minInputs {
      return Err(TooFewInputs(d));
    }
    var sum, unmatched, matrix, error := SplitCells(cells, d);
    if error.Some? {
      return Err(error.value);
    }
    if sum.n != total.value.n || sum.sats != total.value.sats {
      return Err(TotalsMismatch(d));
    }
    if unmatched * 10_000 > total.value.n {
      return Err(TooManyUnmatched(d));
    }
    WhaleOrder();
    matrix := Sort(matrix, MatrixLe);
    var spent := SpendMap(matrix);
    var metrics := CoinageMetrics(d, spent, map[], false);
    var ranked := Sort(whales, WhaleLe);
    var top := ranked;
    if whalesPerDay > 0 && |ranked| > whalesPerDay {
      top := ranked[..whalesPerDay];
    }
    assert TopWhales(top, whales, whalesPerDay);
    r := Ok(DayPart(d, matrix, top, metrics));
  }

  /** The loop over a day's cells: sums everything, sets unmatched inputs apart, keeps the rest. */
  method SplitCells(cells: seq<Cell>, d: int) returns (sum: Total, unmatchedN: int, matrix: seq<SpentRow>, error: Option<BatchError>)
    ensures error == CellError(cells, d)
    ensures error.None? ==> sum == SumCells(cells) && unmatchedN == SumUnmatched(cells).n && matrix == Matched(cells, d)
  {
    var sumN, sumSats := 0, 0;
    unmatchedN, matrix, sum, error := 0, [], Total(0, 0), None;
    for i := 0 to |cells|
      invariant CellError(cells[..i], d) == None
      invariant Total(sumSats, sumN) == SumCells(cells[..i]) && unmatchedN == SumUnmatched(cells[..i]).n
      invariant matrix == Matched(cells[..i], d)
    {
      var c := cells[i];
      assert cells[..i + 1][..i] == cells[..i];
      CellErrorStays(cells, i + 1, d);
      sumN := sumN + c.n;
      sumSats := sumSats + c.sats;
      if c.created.Unmatched? {
        unmatchedN := unmatchedN + c.n;
      } else if c.created.Unreadable? {
        return sum, unmatchedN, matrix, Some(BadCreateDay(d));
      } else if c.created.day > d + 1 {
        return sum, unmatchedN, matrix, Some(FutureCreateDay(d));
      } else {
        matrix := matrix + [SpentRow(d, c.created.day, c.sats, c.n)];
      }
    }
    assert cells[..|cells|] == cells;
    sum := Total(sumSats, sumN);
  }

  lemma {:induction false} CellErrorStays(cells: seq<Cell>, i: nat, d: int)
    requires i <= |cells|
    ensures CellError(cells[..i], d).Some? ==> CellError(cells, d) == CellError(cells[..i], d)
    decreases |cells| - i
  {
    if i < |cells| {
      assert cells[..i + 1][..i] == cells[..i];
      CellErrorStays(cells, i + 1, d);
    } else {
      assert cells[..i] == cells;
    }
  }

  method SpendMap(rows: seq<SpentRow>) returns (spent: Spent)
    ensures spent == Spend(rows)
  {
    spent := map[];
    for i := 0 to |rows|
      invariant spent == Spend(rows[..i])
    {
      assert rows[..i + 1][..i] == rows[..i];
      var c := rows[i].createDay;
      spent := spent[c := (if c in spent then spent[c] else 0) + rows[i].sats];
    }
    assert rows[..|rows|] == rows;
  }

  // ---------------------------------------------------------------- the batch

  datatype Payload = Payload(matrix: seq<SpentRow>, whales: seq<Whale>, days: seq<CoinageDay>)

  ghost function Flatten(parts: seq<DayPart>): Payload {
    if parts == [] then Payload([], [], [])
    else
      var p, last := Flatten(parts[..|parts| - 1]), parts[|parts| - 1];
      Payload(p.matrix + last.matrix, p.whales + last.whales, p.days + [last.metrics])
  }

  function Get<T>(m: map<int, seq<T>>, d: int): seq<T> { if d in m then m[d] else [] }

  function GetTotal(m: map<int, Total>, d: int): Option<Total> { if d in m then Some(m[d]) else None }

  ghost predicate TotalsOk(totals: map<int, Total>, raws: seq<Raw>) {
    forall d :: (d in totals ==> TotalsFor(raws, d) == Some(totals[d])) && (d !in totals ==> TotalsFor(raws, d) == None)
  }

  ghost predicate CellsOk(cells: map<int, seq<Cell>>, raws: seq<Raw>) { forall d :: Get(cells, d) == CellsFor(raws, d) }

  ghost predicate WhalesOk(whales: map<int, seq<Whale>>, raws: seq<Raw>, whaleMin: int) {
    forall d :: Get(whales, d) == WhalesFor(raws, d, whaleMin)
  }

  method GroupRows(raws: seq<Raw>, whaleMin: int) returns (totals: map<int, Total>, cells: map<int, seq<Cell>>, whales: map<int, seq<Whale>>)
    ensures TotalsOk(totals, raws) && CellsOk(cells, raws) && WhalesOk(whales, raws, whaleMin)
  {
    hide TotalsOk, CellsOk, WhalesOk;
    totals, cells, whales := map[], map[], map[];
    NothingGrouped(whaleMin);
    for i := 0 to |raws|
      invariant TotalsOk(totals, raws[..i]) && CellsOk(cells, raws[..i]) && WhalesOk(whales, raws[..i], whaleMin)
    {
      var r := raws[i];
      assert raws[..i + 1] == raws[..i] + [r];
      TotalsStep(totals, raws[..i], r);
      CellsStep(cells, raws[..i], r);
      WhalesStep(whales, raws[..i], r, whaleMin);
      if r.TotalsRow? {
        totals := totals[r.day := Total(r.sats, r.n)];
      } else if r.MatrixRow? {
        cells := cells[r.day := Get(cells, r.day) + [Cell(r.created, r.sats, r.n)]];
      } else {
        var w := WhaleOf(r, whaleMin);
        if w.Some? {
          whales := whales[r.day := Get(whales, r.day) + [w.value]];
        }
      }
    }
    assert raws[..|raws|] == raws;
  }

  lemma NothingGrouped(whaleMin: int)
    ensures TotalsOk(map[], []) && CellsOk(map[], []) && WhalesOk(map[], [], whaleMin)
  {
  }

  lemma TotalsStep(totals: map<int, Total>, raws: seq<Raw>, r: Raw)
    requires TotalsOk(totals, raws)
    ensures TotalsOk(if r.TotalsRow? then totals[r.day := Total(r.sats, r.n)] else totals, raws + [r])
  {
    assert (raws + [r])[..|raws|] == raws;
  }

  lemma CellsStep(cells: map<int, seq<Cell>>, raws: seq<Raw>, r: Raw)
    requires CellsOk(cells, raws)
    ensures CellsOk(if r.MatrixRow? then cells[r.day := Get(cells, r.day) + [Cell(r.created, r.sats, r.n)]] else cells, raws + [r])
  {
    assert (raws + [r])[..|raws|] == raws;
    var next := if r.MatrixRow? then cells[r.day := Get(cells, r.day) + [Cell(r.created, r.sats, r.n)]] else cells;
    forall d ensures Get(next, d) == CellsFor(raws + [r], d) {
      assert Get(cells, d) == CellsFor(raws, d);
      assert CellsFor(raws, d) + [] == CellsFor(raws, d);
    }
  }

  lemma WhalesStep(whales: map<int, seq<Whale>>, raws: seq<Raw>, r: Raw, whaleMin: int)
    requires WhalesOk(whales, raws, whaleMin)
    ensures WhalesOk(if WhaleOf(r, whaleMin).Some? then whales[r.day := Get(whales, r.day) + [WhaleOf(r, whaleMin).value]] else whales, raws + [r], whaleMin)
  {
    assert (raws + [r])[..|raws|] == raws;
    var w := WhaleOf(r, whaleMin);
    var next := if w.Some? then whales[r.day := Get(whales, r.day) + [w.value]] else whales;
    forall d ensures Get(next, d) == WhalesFor(raws + [r], d, whaleMin) {
      assert Get(whales, d) == WhalesFor(raws, d, whaleMin);
      assert WhalesFor(raws, d, whaleMin) + [] == WhalesFor(raws, d, whaleMin);
    }
  }

  /** The first failing guard refuses the batch; otherwise every day is built from its own rows, in order. */
  method BuildPayload(start: int, end: int, raws: seq<Raw>, minInputs: int, whaleMin: int, whalesPerDay: int)
    returns (r: Result<Payload, BatchError>, ghost parts: seq<DayPart>)
    ensures r.Err? <==> FirstError(raws, start, end, minInputs).Some?
    ensures r.Err? ==> FirstError(raws, start, end, minInputs) == Some(r.error)
    ensures r.Ok? ==> r.value == Flatten(parts) && |parts| == Max(0, end - start)
    ensures r.Ok? ==> forall i :: 0 <= i < |parts| ==> IsDay(parts[i], raws, start + i, whaleMin, whalesPerDay)
  {
    hide DayError, IsDay, TotalsFor, CellsFor, WhalesFor;
    var totals, cells, whales := GroupRows(raws, whaleMin);
    var matrixOut: seq<SpentRow>, whalesOut: seq<Whale>, daysOut: seq<CoinageDay> := [], [], [];
    parts := [];
    var cur := start;
    while cur < end
      invariant start <= cur && |parts| == cur - start && (cur > start ==> cur <= end)
      invariant FirstError(raws, start, end, minInputs) == FirstError(raws, cur, end, minInputs)
      invariant Payload(matrixOut, whalesOut, daysOut) == Flatten(parts)
      invariant forall i :: 0 <= i < |parts| ==> IsDay(parts[i], raws, start + i, whaleMin, whalesPerDay)
      decreases end - cur
    {
      var day := BuildDay(raws, cur, GetTotal(totals, cur), Get(cells, cur), Get(whales, cur), minInputs, whaleMin, whalesPerDay);
      if day.Err? {
        return Err(day.error), parts;
      }
      assert (parts + [day.value])[..|parts|] == parts;
      parts := parts + [day.value];
      matrixOut := matrixOut + day.value.matrix;
      whalesOut := whalesOut + day.value.whales;
      daysOut := daysOut + [day.value.metrics];
      cur := cur + 1;
    }
    r := Ok(Payload(matrixOut, whalesOut, daysOut));
  }

  // ---------------------------------------------------------------- what the batch says of its rows

  /** The totals of a day are its last totals row. */
  lemma {:induction false} TotalsForExact(raws: seq<Raw>, d: int)
    ensures TotalsFor(raws, d).None? <==> forall r :: r in raws ==> !(r.TotalsRow? && r.day == d)
    ensures TotalsFor(raws, d).Some? ==> exists i :: IsLastTotals(raws, d, i) && TotalsFor(raws, d) == Some(Total(raws[i].sats, raws[i].n))
  {
    if raws == [] {
    } else {
      var n := |raws| - 1;
      if raws[n].TotalsRow? && raws[n].day == d {
        assert IsLastTotals(raws, d, n);
      } else {
        TotalsForExact(raws[..n], d);
        assert forall r :: r in raws <==> r in raws[..n] || r == raws[n];
        if TotalsFor(raws[..n], d).Some? {
          var i :| IsLastTotals(raws[..n], d, i) && TotalsFor(raws[..n], d) == Some(Total(raws[..n][i].sats, raws[..n][i].n));
          assert IsLastTotals(raws, d, i);
        }
      }
    }
  }

  predicate IsLastTotals(raws: seq<Raw>, d: int, i: int) {
    && 0 <= i < |raws| && raws[i].TotalsRow? && raws[i].day == d
    && forall j :: i < j < |raws| ==> !(raws[j].TotalsRow? && raws[j].day == d)
  }

  /** A day's cells are its matrix rows, in order: each of them, and nothing else. */
  lemma {:induction false} CellsForExact(raws: seq<Raw>, d: int, c: Cell)
    ensures c in CellsFor(raws, d) <==> MatrixRow(d, c.created, c.sats, c.n) in raws
  {
    if raws == [] {
    } else {
      var init, r := raws[..|raws| - 1], raws[|raws| - 1];
      CellsForExact(init, d, c);
      assert MatrixRow(d, c.created, c.sats, c.n) in raws <==> MatrixRow(d, c.created, c.sats, c.n) in init || MatrixRow(d, c.created, c.sats, c.n) == r;
    }
  }

  /** A day's whales: its whale rows with a transaction id and a readable creation day at least a year back, large enough. */
  lemma {:induction false} WhalesForExact(raws: seq<Raw>, d: int, minSats: int, w: Whale)
    ensures w in WhalesFor(raws, d, minSats) <==>
              && WhaleRow(d, On(w.createDay), w.sats, w.inputs, w.tx) in raws
              && w.spendDay == d && w.ageDays == d - w.createDay && w.tx != "" && minSats <= w.sats && w.createDay + 365 <= d
  {
    if raws == [] {
    } else {
      var init, r, row := raws[..|raws| - 1], raws[|raws| - 1], WhaleRow(d, On(w.createDay), w.sats, w.inputs, w.tx);
      WhalesForExact(init, d, minSats, w);
      assert row in raws <==> row in init || row == r;
    }
  }

  lemma {:induction false} CellErrorExact(cells: seq<Cell>, d: int)
    ensures CellError(cells, d).None? <==> forall c :: c in cells ==> !c.created.Unreadable? && (c.created.On? ==> c.created.day <= d + 1)
    ensures CellError(cells, d).Some? ==> CellError(cells, d).value in {BadCreateDay(d), FutureCreateDay(d)}
  {
    if cells == [] {
    } else {
      var init, last := cells[..|cells| - 1], cells[|cells| - 1];
      CellErrorExact(init, d);
      assert forall c :: c in cells <==> c in init || c == last;
    }
  }

  /** Exactly which days a batch is accepted for, and which guard refuses the others. */
  lemma DayErrorExact(raws: seq<Raw>, d: int, minInputs: int)
    ensures var total, cells, error := TotalsFor(raws, d), CellsFor(raws, d), DayError(raws, d, minInputs);
            var readable := forall c :: c in cells ==> !c.created.Unreadable? && (c.created.On? ==> c.created.day <= d + 1);
            var unmatched := SumUnmatched(cells).n;
            && (error.None? <==> total.Some? && minInputs <= total.value.n && readable && SumCells(cells) == total.value && 10_000 * unmatched <= total.value.n)
            && (error == Some(NoTotals(d)) <==> total.None?)
            && (error == Some(TooFewInputs(d)) <==> total.Some? && total.value.n < minInputs)
            && (error == Some(TotalsMismatch(d)) <==> total.Some? && minInputs <= total.value.n && readable && SumCells(cells) != total.value)
            && (error == Some(TooManyUnmatched(d)) <==>
                  total.Some? && minInputs <= total.value.n && readable && SumCells(cells) == total.value && total.value.n < 10_000 * unmatched)
  {
    hide TotalsFor, CellsFor, SumUnmatched, SumCells, CellError;
    CellErrorExact(CellsFor(raws, d), d);
  }

  /** The batch is refused exactly when some day's guard fails, and for the first such day. */
  lemma {:induction false} FirstErrorExact(raws: seq<Raw>, start: int, end: int, minInputs: int)
    ensures FirstError(raws, start, end, minInputs).None? <==> forall d :: start <= d < end ==> DayError(raws, d, minInputs).None?
    ensures FirstError(raws, start, end, minInputs).Some? ==>
              exists d :: start <= d < end && FirstError(raws, start, end, minInputs) == DayError(raws, d, minInputs) &&
                          forall e :: start <= e < d ==> DayError(raws, e, minInputs).None?
    decreases end - start
  {
    hide DayError;
    if start >= end {
    } else {
      FirstErrorExact(raws, start + 1, end, minInputs);
    }
  }

  /** A day's matrix rows are its cells with a creation day. */
  lemma {:induction false} MatchedExact(cells: seq<Cell>, d: int, r: SpentRow)
    ensures r in Matched(cells, d) <==> r.spendDay == d && Cell(On(r.createDay), r.sats, r.inputs) in cells
  {
    if cells == [] {
    } else {
      var init, last := cells[..|cells| - 1], cells[|cells| - 1];
      MatchedExact(init, d, r);
      assert Cell(On(r.createDay), r.sats, r.inputs) in cells <==> Cell(On(r.createDay), r.sats, r.inputs) in init || Cell(On(r.createDay), r.sats, r.inputs) == last;
    }
  }

  /** Satoshis of the rows created on day c. */
  function SatsOf(rows: seq<SpentRow>, c: int): int {
    if rows == [] then 0 else SatsOf(rows[..|rows| - 1], c) + if rows[|rows| - 1].createDay == c then rows[|rows| - 1].sats else 0
  }

  /** The spent map holds, for each creation day of the rows and no other, what their satoshis add up to. */
  lemma {:induction false} SpendExact(rows: seq<SpentRow>, c: int)
    ensures c in Spend(rows) <==> exists r :: r in rows && r.createDay == c
    ensures c in Spend(rows) ==> Spend(rows)[c] == SatsOf(rows, c)
    ensures c !in Spend(rows) ==> SatsOf(rows, c) == 0
  {
    if rows == [] {
    } else {
      var init, last := rows[..|rows| - 1], rows[|rows| - 1];
      SpendExact(init, c);
      assert forall r :: r in rows <==> r in init || r == last;
    }
  }

  // ---------------------------------------------------------------- conservation

  /** Every cell is either unmatched or a matrix row, if no guard refuses it. */
  lemma {:induction false} CellsSplit(cells: seq<Cell>, d: int)
    requires CellError(cells, d) == None
    ensures var all, un, matched := SumCells(cells), SumUnmatched(cells), SumSpent(Matched(cells, d));
            all == Total(un.sats + matched.sats, un.n + matched.n)
    ensures forall r :: r in Matched(cells, d) ==> r.spendDay == d && r.createDay <= d + 1
  {
    if cells == [] {
    } else {
      var init, c := cells[..|cells| - 1], cells[|cells| - 1];
      CellsSplit(init, d);
      if c.created.On? {
        SumSpentSnoc(Matched(init, d), SpentRow(d, c.created.day, c.sats, c.n));
      } else {
        assert Matched(cells, d) == Matched(init, d);
      }
    }
  }

  lemma SumSpentSnoc(rows: seq<SpentRow>, r: SpentRow)
    ensures SumSpent(rows + [r]) == Total(SumSpent(rows).sats + r.sats, SumSpent(rows).n + r.inputs)
  {
    assert (rows + [r])[..|rows|] == rows;
  }

  /** Sums do not depend on the order of the rows. */
  lemma {:induction false} SumSpentRemove(rows: seq<SpentRow>, i: nat)
    requires i < |rows|
    ensures var t, u := SumSpent(rows), SumSpent(rows[..i] + rows[i + 1..]);
            t == Total(u.sats + rows[i].sats, u.n + rows[i].inputs)
  {
    var n := |rows| - 1;
    var rest := rows[..i] + rows[i + 1..];
    if i < n {
      SumSpentRemove(rows[..n], i);
      assert rest[..n - 1] == rows[..n][..i] + rows[..n][i + 1..];
    } else {
      assert rest == rows[..n];
    }
  }

  lemma {:induction false} SumSpentPermutes(a: seq<SpentRow>, b: seq<SpentRow>)
    requires multiset(a) == multiset(b)
    ensures SumSpent(a) == SumSpent(b)
    decreases |a|
  {
    hide SumSpent;
    if a == [] {
      assert |multiset(b)| == 0;
    } else {
      var n := |a| - 1;
      assert a[n] in multiset(b);
      var j :| 0 <= j < |b| && b[j] == a[n];
      MultisetRemove(a, n);
      MultisetRemove(b, j);
      SumSpentRemove(a, n);
      SumSpentRemove(b, j);
      SumSpentPermutes(a[..n] + a[n + 1..], b[..j] + b[j + 1..]);
    }
  }

  lemma MultisetRemove<T>(s: seq<T>, i: nat)
    requires i < |s|
    ensures multiset(s[..i] + s[i + 1..]) == multiset(s) - multiset{s[i]}
  {
    assert s == s[..i] + [s[i]] + s[i + 1..];
  }

  /** With no negative amount the metrics' total is the matrix's. */
  lemma {:induction false} SpendTotal(rows: seq<SpentRow>, d: int)
    requires forall r :: r in rows ==> r.sats >= 0
    ensures SpentOlder(d, Spend(rows), 0) == SumSpent(rows).sats
    ensures forall c :: c in Spend(rows) ==> Spend(rows)[c] >= 0
  {
    hide SpentOlder;
    if rows == [] {
      NothingSpent(d);
    } else {
      var init, r := rows[..|rows| - 1], rows[|rows| - 1];
      assert r in rows && forall x :: x in init ==> x in rows;
      SpendTotal(init, d);
      SpendGrows(Spend(init), r.createDay, r.sats, d);
    }
  }

  lemma NothingSpent(d: int)
    ensures SpentOlder(d, map[], 0) == 0
  {
    var none: Spent := map[];
    assert none.Keys == {};
  }

  lemma SpendGrows(m: Spent, c: int, sats: int, d: int)
    requires sats >= 0 && forall k :: k in m ==> m[k] >= 0
    ensures var m' := m[c := (if c in m then m[c] else 0) + sats]; SpentOlder(d, m', 0) == SpentOlder(d, m, 0) + sats
  {
    hide SumBy;
    var m' := m[c := (if c in m then m[c] else 0) + sats];
    var f, g := Older(d, m, 0), Older(d, m', 0);
    var others := m.Keys - {c};
    SumByLe(f, g, others);
    SumByLe(g, f, others);
    SumByRemove(g, m'.Keys, c);
    assert m'.Keys - {c} == others;
    if c in m {
      SumByRemove(f, m.Keys, c);
    } else {
      assert others == m.Keys;
    }
  }

  /**
    An accepted day accounts for every input and satoshi of its totals row: what
    is not in the matrix is unmatched, at most one input in ten thousand; and
    with no negative amount the metrics' spent total is what the matrix holds.
   */
  lemma DayConserves(part: DayPart, raws: seq<Raw>, d: int, minInputs: int, whaleMin: int, whalesPerDay: int)
    requires DayError(raws, d, minInputs) == None && IsDay(part, raws, d, whaleMin, whalesPerDay)
    ensures var total, un, spent := TotalsFor(raws, d).value, SumUnmatched(CellsFor(raws, d)), SumSpent(part.matrix);
            spent.sats + un.sats == total.sats && spent.n + un.n == total.n && un.n * 10_000 <= total.n && minInputs <= total.n
    ensures forall r :: r in part.matrix ==> r.spendDay == d && r.createDay <= d + 1
    ensures (forall r :: r in part.matrix ==> r.sats >= 0) ==> part.metrics.spentSats == SumSpent(part.matrix).sats
  {
    hide TotalsFor, CellsFor, Spend, SumCells, SumUnmatched, SumSpent, Matched, TopWhales, CellError, SpentOlder, BandSats, CoinDays;
    var cells := CellsFor(raws, d);
    CellsSplit(cells, d);
    SumSpentPermutes(part.matrix, Matched(cells, d));
    forall r | r in part.matrix ensures r in Matched(cells, d) {
      assert r in multiset(part.matrix);
    }
    if forall r :: r in part.matrix ==> r.sats >= 0 {
      SpendTotal(part.matrix, d);
    }
  }

  /** Whales shown are the day's largest: none left out is larger than one shown. */
  lemma TopWhalesAreLargest(top: seq<Whale>, all: seq<Whale>, k: int, w: Whale)
    requires TopWhales(top, all, k)
    ensures Sorted(top, WhaleLe) && (k > 0 ==> |top| == Min(k, |all|)) && (k <= 0 ==> |top| == |all|)
    ensures multiset(top) <= multiset(all)
    ensures w in multiset(all) - multiset(top) ==> forall i :: 0 <= i < |top| ==> WhaleLe(top[i], w)
  {
    hide WhaleLe;
    var ranked :| multiset(ranked) == multiset(all) && Sorted(ranked, WhaleLe) &&
      top == if k > 0 && |ranked| > k then ranked[..k] else ranked;
    SameLength(ranked, all);
    RestRanked(ranked, |top|, w);
    assert ranked[..|top|] == top;
  }

  lemma SameLength<T>(a: seq<T>, b: seq<T>)
    requires multiset(a) == multiset(b)
    ensures |a| == |b|
  {
    assert |multiset(a)| == |a| && |multiset(b)| == |b|;
  }

  lemma RestRanked(ranked: seq<Whale>, n: nat, w: Whale)
    requires n <= |ranked| && Sorted(ranked, WhaleLe)
    ensures multiset(ranked[..n]) <= multiset(ranked)
    ensures w in multiset(ranked) - multiset(ranked[..n]) ==> forall i :: 0 <= i < n ==> WhaleLe(ranked[i], w)
  {
    hide WhaleLe;
    assert ranked == ranked[..n] + ranked[n..];
    if w in multiset(ranked) - multiset(ranked[..n]) {
      assert w in multiset(ranked[n..]);
      var j :| 0 <= j < |ranked[n..]| && ranked[n..][j] == w;
    }
  }
}
