/**
  One day's coin-age metrics, from a map of creation days to the satoshis spent
  that day. Days are day numbers and prices exact reals.
 */
module CoinAge {
  import opened Wrappers

  // ---------------------------------------------------------------- sums over a set, in whatever order it is visited

  ghost function SumBy(f: int -> int, keys: set<int>): int {
    if keys == {} then 0
    else
      var k := Pick(keys);
      f(k) + SumBy(f, keys - {k})
  }

  /** Any key may be taken out first: the sum does not depend on the order of the loop. */
  lemma {:induction false} SumByRemove(f: int -> int, keys: set<int>, k: int)
    requires k in keys
    ensures SumBy(f, keys) == f(k) + SumBy(f, keys - {k})
    decreases keys
  {
    var first := Pick(keys);
    if first == k {
    } else {
      SumByRemove(f, keys - {first}, k);
      SumByRemove(f, keys - {k}, first);
      assert keys - {first} - {k} == keys - {k} - {first};
    }
  }

  lemma {:induction false} SumByAdd(f: int -> int, g: int -> int, h: int -> int, keys: set<int>)
    requires forall k :: k in keys ==> h(k) == f(k) + g(k)
    ensures SumBy(h, keys) == SumBy(f, keys) + SumBy(g, keys)
    decreases keys
  {
    if keys == {} {
    } else {
      var k := Pick(keys);
      SumByRemove(f, keys, k);
      SumByRemove(g, keys, k);
      SumByRemove(h, keys, k);
      SumByAdd(f, g, h, keys - {k});
    }
  }

  lemma {:induction false} SumByLe(f: int -> int, g: int -> int, keys: set<int>)
    requires forall k :: k in keys ==> f(k) <= g(k)
    ensures SumBy(f, keys) <= SumBy(g, keys)
    decreases keys
  {
    if keys == {} {
    } else {
      var k := Pick(keys);
      SumByRemove(f, keys, k);
      SumByRemove(g, keys, k);
      SumByLe(f, g, keys - {k});
    }
  }

  ghost function SumReal(f: int -> real, keys: set<int>): real {
    if keys == {} then 0.0
    else
      var k := Pick(keys);
      f(k) + SumReal(f, keys - {k})
  }

  lemma {:induction false} SumRealRemove(f: int -> real, keys: set<int>, k: int)
    requires k in keys
    ensures SumReal(f, keys) == f(k) + SumReal(f, keys - {k})
    decreases keys
  {
    var first := Pick(keys);
    if first == k {
    } else {
      SumRealRemove(f, keys - {first}, k);
      SumRealRemove(f, keys - {k}, first);
      assert keys - {first} - {k} == keys - {k} - {first};
    }
  }

  lemma {:induction false} SumRealAdd(f: int -> real, g: int -> real, h: int -> real, keys: set<int>)
    requires forall k :: k in keys ==> h(k) == f(k) + g(k)
    ensures SumReal(h, keys) == SumReal(f, keys) + SumReal(g, keys)
    decreases keys
  {
    if keys == {} {
    } else {
      var k := Pick(keys);
      SumRealRemove(f, keys, k);
      SumRealRemove(g, keys, k);
      SumRealRemove(h, keys, k);
      SumRealAdd(f, g, h, keys - {k});
    }
  }

  // ---------------------------------------------------------------- age bands

  const BANDS: nat := 12

  /** The first age, in days, of each band. */
  function BandStart(b: nat): nat
    requires b < BANDS
  {
    if b == 0 then 0 else if b == 1 then 1 else if b == 2 then 7 else if b == 3 then 30
    else if b == 4 then 90 else if b == 5 then 180 else if b == 6 then 365 else if b == 7 then 730
    else if b == 8 then 1095 else if b == 9 then 1825 else if b == 10 then 2555 else 3650
  }

  function AgeBand(ageDays: int): nat {
    if ageDays < 1 then 0
    else if ageDays < 7 then 1
    else if ageDays < 30 then 2
    else if ageDays < 90 then 3
    else if ageDays < 180 then 4
    else if ageDays < 365 then 5
    else if ageDays < 730 then 6
    else if ageDays < 1095 then 7
    else if ageDays < 1825 then 8
    else if ageDays < 2555 then 9
    else if ageDays < 3650 then 10
    else 11
  }

  /** The bands cover every age once: a band is the last one that has started. */
  lemma AgeBandExact(age: nat, b: nat)
    requires b < BANDS
    ensures AgeBand(age) < BANDS
    ensures AgeBand(age) == b <==> BandStart(b) <= age && (b + 1 < BANDS ==> age < BandStart(b + 1))
  {
  }

  // ---------------------------------------------------------------- one day's metrics

  type Spent = map<int, int>

  function Age(day: int, created: int): nat { if day - created < 0 then 0 else day - created }

  /** Satoshis spent of coins created on day c, when there are any. */
  function SatsAt(spent: Spent, c: int): nat { if c in spent && spent[c] > 0 then spent[c] else 0 }

  function Older(day: int, spent: Spent, minAge: nat): int -> int {
    c => if Age(day, c) >= minAge then SatsAt(spent, c) else 0
  }

  function SatDays(day: int, spent: Spent): int -> int {
    c => SatsAt(spent, c) * Age(day, c)
  }

  function InBand(day: int, spent: Spent, b: nat): int -> int {
    c => if AgeBand(Age(day, c)) == b then SatsAt(spent, c) else 0
  }

  /** Satoshis spent of coins at least minAge days old. */
  ghost function SpentOlder(day: int, spent: Spent, minAge: nat): int { SumBy(Older(day, spent, minAge), spent.Keys) }

  ghost function BandSats(day: int, spent: Spent, b: nat): int { SumBy(InBand(day, spent, b), spent.Keys) }

  ghost function CoinDays(day: int, spent: Spent): int { SumBy(SatDays(day, spent), spent.Keys) }

  ghost function SumBands(day: int, spent: Spent, n: nat): int {
    if n == 0 then 0 else SumBands(day, spent, n - 1) + BandSats(day, spent, n - 1)
  }

  function InFirstBands(day: int, spent: Spent, n: nat): int -> int {
    c => if AgeBand(Age(day, c)) < n then SatsAt(spent, c) else 0
  }

  lemma {:induction false} FirstBands(day: int, spent: Spent, n: nat)
    ensures SumBands(day, spent, n) == SumBy(InFirstBands(day, spent, n), spent.Keys)
  {
    hide AgeBand;
    if n == 0 {
      SumByAdd(InFirstBands(day, spent, 0), InFirstBands(day, spent, 0), InFirstBands(day, spent, 0), spent.Keys);
    } else {
      FirstBands(day, spent, n - 1);
      SumByAdd(InFirstBands(day, spent, n - 1), InBand(day, spent, n - 1), InFirstBands(day, spent, n), spent.Keys);
    }
  }

  /** Every spent satoshi is in exactly one of the twelve bands. */
  lemma BandsConserve(day: int, spent: Spent)
    ensures SumBands(day, spent, BANDS) == SpentOlder(day, spent, 0)
  {
    hide AgeBand, SumBands;
    FirstBands(day, spent, BANDS);
    forall c ensures AgeBand(Age(day, c)) < BANDS {
      AgeBandExact(Age(day, c), 0);
    }
    SumByLe(InFirstBands(day, spent, BANDS), Older(day, spent, 0), spent.Keys);
    SumByLe(Older(day, spent, 0), InFirstBands(day, spent, BANDS), spent.Keys);
  }

  /** What is older is also less old. */
  lemma RevivedNest(day: int, spent: Spent, lower: nat, higher: nat)
    requires lower <= higher
    ensures 0 <= SpentOlder(day, spent, higher) <= SpentOlder(day, spent, lower)
  {
    SumByLe(Older(day, spent, higher), Older(day, spent, lower), spent.Keys);
    var none: int -> int := c => 0;
    SumByAdd(none, none, none, spent.Keys);
    SumByLe(none, Older(day, spent, higher), spent.Keys);
  }

  // ---------------------------------------------------------------- profit ratios

  type Prices = map<int, real>

  function PriceAt(prices: Prices, d: int): real { if d in prices then prices[d] else 0.0 }

  /** A range of ages, open at the top when hi is None. */
  datatype Ages = Ages(lo: nat, hi: Option<nat>)

  const ALL: Ages := Ages(0, None)
  const ADJUSTED: Ages := Ages(1, None)
  const SHORT_TERM: Ages := Ages(0, Some(155))
  const LONG_TERM: Ages := Ages(155, None)

  predicate In(ages: Ages, age: nat) { ages.lo <= age && (ages.hi.Some? ==> age < ages.hi.value) }

  /** Coins without a price on their creation day are left out. */
  predicate Counted(day: int, spent: Spent, prices: Prices, ages: Ages, c: int) {
    SatsAt(spent, c) > 0 && PriceAt(prices, c) > 0.0 && In(ages, Age(day, c))
  }

  function ValueCreated(day: int, spent: Spent, prices: Prices, ages: Ages): int -> real {
    c => if Counted(day, spent, prices, ages, c) then SatsAt(spent, c) as real * PriceAt(prices, c) else 0.0
  }

  function ValueSpent(day: int, spent: Spent, prices: Prices, ages: Ages): int -> real {
    c => if Counted(day, spent, prices, ages, c) then SatsAt(spent, c) as real * PriceAt(prices, day) else 0.0
  }

  /** Value when spent over value when created, of the coins of an age range. */
  datatype Pair = Pair(num: real, den: real)

  ghost function Totals(day: int, spent: Spent, prices: Prices, ages: Ages, keys: set<int>): Pair {
    Pair(SumReal(ValueSpent(day, spent, prices, ages), keys), SumReal(ValueCreated(day, spent, prices, ages), keys))
  }

  function Ratio(p: Pair): Option<real> { if p.den > 0.0 then Some(p.num / p.den) else None }

  ghost function Profit(day: int, spent: Spent, prices: Prices, ages: Ages): Option<real> {
    Ratio(Totals(day, spent, prices, ages, spent.Keys))
  }

  /** Every counted coin is worth something, so sums that count one are positive. */
  lemma {:induction false} TotalsSign(day: int, spent: Spent, prices: Prices, ages: Ages, keys: set<int>)
    requires PriceAt(prices, day) > 0.0
    ensures var t := Totals(day, spent, prices, ages, keys);
            t.num >= 0.0 && t.den >= 0.0 && (t.den == 0.0 <==> t.num == 0.0)
    decreases keys
  {
    hide Counted;
    var f, g := ValueSpent(day, spent, prices, ages), ValueCreated(day, spent, prices, ages);
    if keys == {} {
    } else {
      var k := Pick(keys);
      SumRealRemove(f, keys, k);
      SumRealRemove(g, keys, k);
      TotalsSign(day, spent, prices, ages, keys - {k});
      CountedWorth(day, spent, prices, ages, k);
    }
  }

  lemma CountedWorth(day: int, spent: Spent, prices: Prices, ages: Ages, c: int)
    requires PriceAt(prices, day) > 0.0
    ensures Counted(day, spent, prices, ages, c) ==>
            ValueSpent(day, spent, prices, ages)(c) > 0.0 && ValueCreated(day, spent, prices, ages)(c) > 0.0
    ensures !Counted(day, spent, prices, ages, c) ==>
            ValueSpent(day, spent, prices, ages)(c) == 0.0 && ValueCreated(day, spent, prices, ages)(c) == 0.0
  {
    if Counted(day, spent, prices, ages, c) {
      PositiveProduct(SatsAt(spent, c) as real, PriceAt(prices, c));
      PositiveProduct(SatsAt(spent, c) as real, PriceAt(prices, day));
    }
  }

  lemma PositiveProduct(a: real, b: real)
    requires a > 0.0 && b > 0.0
    ensures a * b > 0.0
  {
  }

  lemma ShortAndLongTerm(day: int, spent: Spent, prices: Prices, keys: set<int>)
    ensures var all, sth, lth := Totals(day, spent, prices, ALL, keys), Totals(day, spent, prices, SHORT_TERM, keys), Totals(day, spent, prices, LONG_TERM, keys);
            all.num == sth.num + lth.num && all.den == sth.den + lth.den
  {
    hide Age, SatsAt, PriceAt;
    SumRealAdd(ValueSpent(day, spent, prices, SHORT_TERM), ValueSpent(day, spent, prices, LONG_TERM), ValueSpent(day, spent, prices, ALL), keys);
    SumRealAdd(ValueCreated(day, spent, prices, SHORT_TERM), ValueCreated(day, spent, prices, LONG_TERM), ValueCreated(day, spent, prices, ALL), keys);
  }

  lemma Mediant(a: real, b: real, c: real, d: real)
    requires b > 0.0 && d > 0.0
    ensures a / b <= c / d ==> a / b <= (a + c) / (b + d) <= c / d
  {
    if a / b <= c / d {
      var x, y := a / b, c / d;
      assert a == x * b && c == y * d;
      ScaleLe(x, y, d);
      ScaleLe(x, y, b);
      assert x * (b + d) == x * b + x * d && y * (b + d) == y * b + y * d;
      DivideLe(x, a + c, b + d);
      DivideGe(y, a + c, b + d);
    }
  }

  lemma ScaleLe(x: real, y: real, k: real)
    requires x <= y && k >= 0.0
    ensures x * k <= y * k
  {
  }

  lemma DivideLe(x: real, n: real, d: real)
    requires d > 0.0 && x * d <= n
    ensures x <= n / d
  {
    var q := n / d;
    assert q * d == n;
    assert (x - q) * d == x * d - q * d;
    if q < x {
      PositiveProduct(x - q, d);
    }
  }

  lemma DivideGe(y: real, n: real, d: real)
    requires d > 0.0 && n <= y * d
    ensures n / d <= y
  {
    var q := n / d;
    assert q * d == n;
    assert (q - y) * d == q * d - y * d;
    if q > y {
      PositiveProduct(q - y, d);
    }
  }

  /** The day's ratio lies between its short-term and long-term ratios, and is the one that exists when only one does. */
  lemma ProfitBetweenTerms(day: int, spent: Spent, prices: Prices)
    requires PriceAt(prices, day) > 0.0
    ensures var all, sth, lth := Profit(day, spent, prices, ALL), Profit(day, spent, prices, SHORT_TERM), Profit(day, spent, prices, LONG_TERM);
            (all.Some? <==> sth.Some? || lth.Some?) &&
            (sth.None? ==> all == lth) && (lth.None? ==> all == sth) &&
            (sth.Some? && lth.Some? && sth.value <= lth.value ==> sth.value <= all.value <= lth.value) &&
            (sth.Some? && lth.Some? && lth.value <= sth.value ==> lth.value <= all.value <= sth.value)
  {
    hide Totals;
    var sth, lth := Totals(day, spent, prices, SHORT_TERM, spent.Keys), Totals(day, spent, prices, LONG_TERM, spent.Keys);
    ShortAndLongTerm(day, spent, prices, spent.Keys);
    TotalsSign(day, spent, prices, SHORT_TERM, spent.Keys);
    TotalsSign(day, spent, prices, LONG_TERM, spent.Keys);
    if sth.den > 0.0 && lth.den > 0.0 {
      Mediant(sth.num, sth.den, lth.num, lth.den);
      Mediant(lth.num, lth.den, sth.num, sth.den);
    }
  }

  // ---------------------------------------------------------------- the two loops

  datatype Ratios = Blocked | Ratios(all: Option<real>, adjusted: Option<real>, shortTerm: Option<real>, longTerm: Option<real>)

  datatype CoinageDay = CoinageDay(day: int, spentSats: int, cddSatDays: int, dormancyDays: real,
                                   revived1y: int, revived2y: int, revived5y: int, shares: seq<real>, ratios: Ratios)

  function Share(sats: int, total: int): real { if total > 0 then sats as real / total as real * 100.0 else 0.0 }

  /** What the metrics of a day are, whatever order its coins are visited in. */
  ghost predicate IsMetrics(m: CoinageDay, day: int, spent: Spent, prices: Prices, complete: bool) {
    && m.day == day
    && m.spentSats == SpentOlder(day, spent, 0) && m.cddSatDays == CoinDays(day, spent)
    && m.dormancyDays == (if m.spentSats > 0 then m.cddSatDays as real / m.spentSats as real else 0.0)
    && m.revived1y == SpentOlder(day, spent, 365) && m.revived2y == SpentOlder(day, spent, 730)
    && m.revived5y == SpentOlder(day, spent, 1825)
    && |m.shares| == BANDS && (forall b :: 0 <= b < BANDS ==> m.shares[b] == Share(BandSats(day, spent, b), m.spentSats))
    && m.ratios == if complete && PriceAt(prices, day) > 0.0 then
         Ratios(Profit(day, spent, prices, ALL), Profit(day, spent, prices, ADJUSTED),
                Profit(day, spent, prices, SHORT_TERM), Profit(day, spent, prices, LONG_TERM))
       else Blocked
  }

  lemma SumByVisit(f: int -> int, visited: set<int>, c: int)
    requires c !in visited
    ensures SumBy(f, visited + {c}) == SumBy(f, visited) + f(c)
  {
    SumByRemove(f, visited + {c}, c);
    assert visited + {c} - {c} == visited;
  }

  lemma TotalsVisit(day: int, spent: Spent, prices: Prices, ages: Ages, visited: set<int>, c: int)
    requires c !in visited
    ensures var t, u := Totals(day, spent, prices, ages, visited), Totals(day, spent, prices, ages, visited + {c});
            u == Pair(t.num + ValueSpent(day, spent, prices, ages)(c), t.den + ValueCreated(day, spent, prices, ages)(c))
  {
    SumRealRemove(ValueSpent(day, spent, prices, ages), visited + {c}, c);
    SumRealRemove(ValueCreated(day, spent, prices, ages), visited + {c}, c);
    assert visited + {c} - {c} == visited;
  }

  method CoinageMetrics(day: int, spent: Spent, prices: Prices, complete: bool) returns (m: CoinageDay)
    ensures IsMetrics(m, day, spent, prices, complete)
  {
    var t := SpendSums(day, spent);
    var shares := seq(BANDS, b requires 0 <= b < BANDS => Share(t.bands[b], t.total));
    var dormancy := if t.total > 0 then t.cdd as real / t.total as real else 0.0;
    var ratios := Blocked;
    if complete && PriceAt(prices, day) > 0.0 {
      var all, adjusted, sth, lth := ProfitSums(day, spent, prices);
      ratios := Ratios(Ratio(all), Ratio(adjusted), Ratio(sth), Ratio(lth));
    }
    m := CoinageDay(day, t.total, t.cdd, dormancy, t.revived1y, t.revived2y, t.revived5y, shares, ratios);
  }

  /** The loop's sums after the creation days in visited. */
  datatype Tally = Tally(total: int, cdd: int, revived1y: int, revived2y: int, revived5y: int, bands: seq<int>)

  ghost predicate IsTally(t: Tally, day: int, spent: Spent, visited: set<int>) {
    && t.total == SumBy(Older(day, spent, 0), visited) && t.cdd == SumBy(SatDays(day, spent), visited)
    && t.revived1y == SumBy(Older(day, spent, 365), visited) && t.revived2y == SumBy(Older(day, spent, 730), visited)
    && t.revived5y == SumBy(Older(day, spent, 1825), visited)
    && |t.bands| == BANDS && forall b :: 0 <= b < BANDS ==> t.bands[b] == SumBy(InBand(day, spent, b), visited)
  }

  method SpendSums(day: int, spent: Spent) returns (t: Tally)
    ensures IsTally(t, day, spent, spent.Keys)
  {
    hide IsTally, AgeBand, Age;
    var total, cdd, r1, r2, r5 := 0, 0, 0, 0, 0;
    var bands := seq(BANDS, b => 0);
    var rest := spent.Keys;
    ghost var visited: set<int> := {};
    EmptyTally(day, spent);
    while rest != {}
      invariant visited + rest == spent.Keys && visited !! rest
      invariant |bands| == BANDS && IsTally(Tally(total, cdd, r1, r2, r5, bands), day, spent, visited)
      decreases |rest|
    {
      NotEmpty(rest);
      var c :| c in rest;
      var sats, age := spent[c], Age(day, c);
      AgeBandExact(age, 0);
      VisitTally(Tally(total, cdd, r1, r2, r5, bands), day, spent, visited, c);
      if sats > 0 {
        total := total + sats;
        cdd := cdd + sats * age;
        if age >= 365 {
          r1 := r1 + sats;
        }
        if age >= 730 {
          r2 := r2 + sats;
        }
        if age >= 1825 {
          r5 := r5 + sats;
        }
        bands := bands[AgeBand(age) := bands[AgeBand(age)] + sats];
      }
      rest := rest - {c};
      visited := visited + {c};
    }
    assert visited == spent.Keys;
    t := Tally(total, cdd, r1, r2, r5, bands);
  }

  lemma NotEmpty(s: set<int>)
    requires s != {}
    ensures exists c :: c in s
  {
    var c := Pick(s);
  }

  lemma EmptyTally(day: int, spent: Spent)
    ensures IsTally(Tally(0, 0, 0, 0, 0, seq(BANDS, b => 0)), day, spent, {})
  {
  }

  function AddIf(x: int, sats: int, condition: bool): int { if condition then x + sats else x }

  lemma VisitTally(t: Tally, day: int, spent: Spent, visited: set<int>, c: int)
    requires c in spent && c !in visited && IsTally(t, day, spent, visited) && AgeBand(Age(day, c)) < BANDS
    ensures spent[c] <= 0 ==> IsTally(t, day, spent, visited + {c})
    ensures var sats, age := spent[c], Age(day, c);
            sats > 0 ==> IsTally(Tally(t.total + sats, t.cdd + sats * age, AddIf(t.revived1y, sats, age >= 365), AddIf(t.revived2y, sats, age >= 730),
              AddIf(t.revived5y, sats, age >= 1825), t.bands[AgeBand(age) := t.bands[AgeBand(age)] + sats]), day, spent, visited + {c})
  {
    hide SumBy, AgeBand, Age;
    SumByVisit(Older(day, spent, 0), visited, c);
    SumByVisit(Older(day, spent, 365), visited, c);
    SumByVisit(Older(day, spent, 730), visited, c);
    SumByVisit(Older(day, spent, 1825), visited, c);
    SumByVisit(SatDays(day, spent), visited, c);
    forall b | 0 <= b < BANDS ensures SumBy(InBand(day, spent, b), visited + {c}) == SumBy(InBand(day, spent, b), visited) + InBand(day, spent, b)(c) {
      SumByVisit(InBand(day, spent, b), visited, c);
    }
  }

  function AddPair(p: Pair, num: real, den: real): Pair { Pair(p.num + num, p.den + den) }

  function Worth(sats: int, price: real): real { sats as real * price }

  method ProfitSums(day: int, spent: Spent, prices: Prices) returns (all: Pair, adjusted: Pair, sth: Pair, lth: Pair)
    ensures all == Totals(day, spent, prices, ALL, spent.Keys) && adjusted == Totals(day, spent, prices, ADJUSTED, spent.Keys)
    ensures sth == Totals(day, spent, prices, SHORT_TERM, spent.Keys) && lth == Totals(day, spent, prices, LONG_TERM, spent.Keys)
  {
    hide Totals, Age, AddPair, Worth, PriceAt;
    var none := Pair(0.0, 0.0);
    all, adjusted, sth, lth := none, none, none, none;
    var rest := spent.Keys;
    ghost var visited: set<int> := {};
    NothingTotalled(day, spent, prices);
    while rest != {}
      invariant visited + rest == spent.Keys && visited !! rest
      invariant all == Totals(day, spent, prices, ALL, visited) && adjusted == Totals(day, spent, prices, ADJUSTED, visited)
      invariant sth == Totals(day, spent, prices, SHORT_TERM, visited) && lth == Totals(day, spent, prices, LONG_TERM, visited)
      decreases |rest|
    {
      NotEmpty(rest);
      var c :| c in rest;
      VisitTotals(day, spent, prices, ALL, visited, c);
      VisitTotals(day, spent, prices, ADJUSTED, visited, c);
      VisitTotals(day, spent, prices, SHORT_TERM, visited, c);
      VisitTotals(day, spent, prices, LONG_TERM, visited, c);
      var sats, price, age := spent[c], PriceAt(prices, c), Age(day, c);
      if sats > 0 && price > 0.0 {
        var created, value := Worth(sats, price), Worth(sats, PriceAt(prices, day));
        all := AddPair(all, value, created);
        if age >= 1 {
          adjusted := AddPair(adjusted, value, created);
        }
        if age < 155 {
          sth := AddPair(sth, value, created);
        } else {
          lth := AddPair(lth, value, created);
        }
      }
      rest := rest - {c};
      visited := visited + {c};
    }
    assert visited == spent.Keys;
  }

  lemma VisitTotals(day: int, spent: Spent, prices: Prices, ages: Ages, visited: set<int>, c: int)
    requires c in spent && c !in visited
    ensures var t, sats, price := Totals(day, spent, prices, ages, visited), spent[c], PriceAt(prices, c);
            Totals(day, spent, prices, ages, visited + {c}) ==
              if sats > 0 && price > 0.0 && In(ages, Age(day, c)) then AddPair(t, Worth(sats, PriceAt(prices, day)), Worth(sats, price)) else t
  {
    hide Totals, Age, PriceAt;
    TotalsVisit(day, spent, prices, ages, visited, c);
  }

  lemma NothingTotalled(day: int, spent: Spent, prices: Prices)
    ensures Totals(day, spent, prices, ALL, {}) == Totals(day, spent, prices, ADJUSTED, {}) == Pair(0.0, 0.0)
    ensures Totals(day, spent, prices, SHORT_TERM, {}) == Totals(day, spent, prices, LONG_TERM, {}) == Pair(0.0, 0.0)
  {
  }

  // ---------------------------------------------------------------- what the metrics mean

  /** On the day's metrics, one coin's worth of everything. */
  lemma OneCoin(m: CoinageDay, day: int, created: int, sats: int, prices: Prices, complete: bool)
    requires IsMetrics(m, day, map[created := sats], prices, complete) && sats > 0
    ensures var age := Max(0, day - created);
            && m.spentSats == sats && m.cddSatDays == sats * age && m.dormancyDays == age as real
            && m.revived1y == (if age >= 365 then sats else 0) && m.revived2y == (if age >= 730 then sats else 0)
            && m.revived5y == (if age >= 1825 then sats else 0)
            && (forall b :: 0 <= b < BANDS ==> m.shares[b] == if AgeBand(age) == b then 100.0 else 0.0)
    ensures m.ratios.Blocked? <==> !(complete && PriceAt(prices, day) > 0.0)
    ensures m.ratios.Ratios? ==>
              var age, ratio := Max(0, day - created), Times(PriceAt(prices, created), PriceAt(prices, day));
              && m.ratios.all == ratio && m.ratios.adjusted == (if age >= 1 then ratio else None)
              && m.ratios.shortTerm == (if age < 155 then ratio else None) && m.ratios.longTerm == (if age >= 155 then ratio else None)
  {
    hide AgeBand, Profit, Times;
    var spent: Spent := map[created := sats];
    assert spent.Keys == {created};
    OneKey(Older(day, spent, 0), created);
    OneKey(Older(day, spent, 365), created);
    OneKey(Older(day, spent, 730), created);
    OneKey(Older(day, spent, 1825), created);
    OneKey(SatDays(day, spent), created);
    forall b | 0 <= b < BANDS ensures BandSats(day, spent, b) == if AgeBand(Max(0, day - created)) == b then sats else 0 {
      OneKey(InBand(day, spent, b), created);
    }
    Cancels(sats, Max(0, day - created));
    OneCoinRatio(day, created, sats, prices, ALL);
    OneCoinRatio(day, created, sats, prices, ADJUSTED);
    OneCoinRatio(day, created, sats, prices, SHORT_TERM);
    OneCoinRatio(day, created, sats, prices, LONG_TERM);
  }

  /** How many times its price a coin has become worth, when it had one. */
  function Times(before: real, now: real): Option<real> { if before > 0.0 then Some(now / before) else None }

  lemma OneKey(f: int -> int, k: int)
    ensures SumBy(f, {k}) == f(k)
  {
    SumByRemove(f, {k}, k);
    assert {k} - {k} == {};
  }

  lemma Cancels(sats: int, age: int)
    requires sats > 0
    ensures (sats * age) as real / sats as real == age as real && sats as real / sats as real * 100.0 == 100.0 && 0 as real / sats as real * 100.0 == 0.0
  {
    assert (sats * age) as real == age as real * sats as real;
  }

  lemma OneCoinRatio(day: int, created: int, sats: int, prices: Prices, ages: Ages)
    requires sats > 0
    ensures Profit(day, map[created := sats], prices, ages) ==
            if In(ages, Max(0, day - created)) then Times(PriceAt(prices, created), PriceAt(prices, day)) else None
  {
    hide Totals, PriceAt;
    var spent: Spent := map[created := sats];
    assert spent.Keys == {created} && {created} - {created} == {};
    TotalsTake(day, spent, prices, ages, {created}, created);
    NoTotals(day, spent, prices, ages);
    var p, q := PriceAt(prices, created), PriceAt(prices, day);
    assert SatsAt(spent, created) == sats && Age(day, created) == Max(0, day - created);
    assert Counted(day, spent, prices, ages, created) <==> p > 0.0 && In(ages, Max(0, day - created));
    if p > 0.0 {
      var x := sats as real;
      SameFactor(x, p, q);
      if In(ages, Max(0, day - created)) {
        assert Totals(day, spent, prices, ages, spent.Keys) == Pair(x * q, x * p);
      }
    }
  }

  lemma SameFactor(s: real, p: real, q: real)
    requires s > 0.0 && p > 0.0
    ensures s * p > 0.0 && (s * q) / (s * p) == q / p
  {
    PositiveProduct(s, p);
    var r := q / p;
    assert r * p == q;
    assert r * (s * p) == s * q;
  }

  /** Coins of another creation day add to every sum what they would amount to alone. */
  lemma CoinsAdd(day: int, spent: Spent, created: int, sats: int, minAge: nat, b: nat)
    requires created !in spent
    ensures var one: Spent, both := map[created := sats], spent[created := sats];
            && SpentOlder(day, both, minAge) == SpentOlder(day, spent, minAge) + SpentOlder(day, one, minAge)
            && CoinDays(day, both) == CoinDays(day, spent) + CoinDays(day, one)
            && BandSats(day, both, b) == BandSats(day, spent, b) + BandSats(day, one, b)
  {
    hide SumBy, Older, SatDays, InBand;
    var one: Spent, both := map[created := sats], spent[created := sats];
    assert one.Keys == {created} && both.Keys == spent.Keys + {created};
    SameTerms(day, spent, created, sats, minAge, b);
    OneMoreKey(Older(day, spent, minAge), Older(day, both, minAge), Older(day, one, minAge), spent.Keys, created);
    OneMoreKey(SatDays(day, spent), SatDays(day, both), SatDays(day, one), spent.Keys, created);
    OneMoreKey(InBand(day, spent, b), InBand(day, both, b), InBand(day, one, b), spent.Keys, created);
  }

  lemma SameTerms(day: int, spent: Spent, created: int, sats: int, minAge: nat, b: nat)
    requires created !in spent
    ensures var one: Spent, both := map[created := sats], spent[created := sats];
            && Older(day, both, minAge)(created) == Older(day, one, minAge)(created)
            && SatDays(day, both)(created) == SatDays(day, one)(created)
            && InBand(day, both, b)(created) == InBand(day, one, b)(created)
            && forall c :: c in spent ==>
                 && Older(day, both, minAge)(c) == Older(day, spent, minAge)(c)
                 && SatDays(day, both)(c) == SatDays(day, spent)(c)
                 && InBand(day, both, b)(c) == InBand(day, spent, b)(c)
  {
    hide AgeBand, Age, SatsAt;
    SameSats(spent, created, sats);
  }

  lemma SameSats(spent: Spent, created: int, sats: int)
    requires created !in spent
    ensures SatsAt(spent[created := sats], created) == SatsAt(map[created := sats], created)
    ensures forall c :: c in spent ==> SatsAt(spent[created := sats], c) == SatsAt(spent, c)
  {
  }

  lemma OneMoreKey(f: int -> int, g: int -> int, one: int -> int, keys: set<int>, k: int)
    requires k !in keys && (forall x :: x in keys ==> f(x) == g(x)) && g(k) == one(k)
    ensures SumBy(g, keys + {k}) == SumBy(f, keys) + SumBy(one, {k})
  {
    SumByRemove(g, keys + {k}, k);
    assert keys + {k} - {k} == keys;
    SumByLe(f, g, keys);
    SumByLe(g, f, keys);
    OneKey(one, k);
  }

  /** The four age ranges: ADJUSTED leaves out coins younger than a day, SHORT_TERM ends at 155 days and LONG_TERM begins there. */
  lemma AgeRanges(day: int, spent: Spent, prices: Prices, c: int)
    ensures Counted(day, spent, prices, ADJUSTED, c) <==> Counted(day, spent, prices, ALL, c) && Age(day, c) >= 1
    ensures Counted(day, spent, prices, SHORT_TERM, c) <==> Counted(day, spent, prices, ALL, c) && Age(day, c) < 155
    ensures Counted(day, spent, prices, LONG_TERM, c) <==> Counted(day, spent, prices, ALL, c) && Age(day, c) >= 155
    ensures Counted(day, spent, prices, ALL, c) <==> c in spent && spent[c] > 0 && c in prices && prices[c] > 0.0
  {
  }

  /** The coins of an age range were created at prices on one side of the day's price, by sign: below for 1, above for -1, at it for 0. */
  predicate AllOn(sign: int, day: int, spent: Spent, prices: Prices, ages: Ages, keys: set<int>) {
    forall c :: c in keys && Counted(day, spent, prices, ages, c) ==> Side(PriceAt(prices, day) - PriceAt(prices, c)) == sign
  }

  function Side(x: real): int { if x > 0.0 then 1 else if x < 0.0 then -1 else 0 }

  /** Taking one key out of the totals. */
  lemma TotalsTake(day: int, spent: Spent, prices: Prices, ages: Ages, keys: set<int>, k: int)
    requires k in keys
    ensures var rest, s := Totals(day, spent, prices, ages, keys - {k}), SatsAt(spent, k) as real;
            Totals(day, spent, prices, ages, keys) ==
              if Counted(day, spent, prices, ages, k) then Pair(rest.num + s * PriceAt(prices, day), rest.den + s * PriceAt(prices, k)) else rest
  {
    hide Counted, SumReal;
    SumRealRemove(ValueSpent(day, spent, prices, ages), keys, k);
    SumRealRemove(ValueCreated(day, spent, prices, ages), keys, k);
  }

  lemma NoTotals(day: int, spent: Spent, prices: Prices, ages: Ages)
    ensures Totals(day, spent, prices, ages, {}) == Pair(0.0, 0.0)
  {
  }

  lemma CountedHasWorth(day: int, spent: Spent, prices: Prices, ages: Ages, c: int)
    requires Counted(day, spent, prices, ages, c)
    ensures SatsAt(spent, c) as real > 0.0 && PriceAt(prices, c) > 0.0
  {
  }

  lemma {:induction false} TotalsOnOneSide(sign: int, day: int, spent: Spent, prices: Prices, ages: Ages, keys: set<int>)
    requires AllOn(sign, day, spent, prices, ages, keys)
    ensures var t := Totals(day, spent, prices, ages, keys);
            t.den >= 0.0 && (t.den > 0.0 ==> Side(t.num - t.den) == sign) && (t.den == 0.0 ==> t.num == 0.0)
    decreases keys
  {
    hide Counted, Totals, Side;
    if keys == {} {
      NoTotals(day, spent, prices, ages);
    } else {
      var k := Pick(keys);
      TotalsTake(day, spent, prices, ages, keys, k);
      TotalsOnOneSide(sign, day, spent, prices, ages, keys - {k});
      if Counted(day, spent, prices, ages, k) {
        CountedHasWorth(day, spent, prices, ages, k);
        var rest := Totals(day, spent, prices, ages, keys - {k});
        var s, p, q := SatsAt(spent, k) as real, PriceAt(prices, k), PriceAt(prices, day);
        assert Side(q - p) == sign;
        AddOnSide(rest.num, rest.den, s, p, q);
        assert Totals(day, spent, prices, ages, keys) == Pair(rest.num + s * q, rest.den + s * p);
      }
    }
  }

  lemma AddOnSide(num: real, den: real, s: real, p: real, q: real)
    requires s > 0.0 && p > 0.0 && den >= 0.0 && (den > 0.0 ==> Side(num - den) == Side(q - p)) && (den == 0.0 ==> num == 0.0)
    ensures den + s * p > 0.0 && Side(num + s * q - (den + s * p)) == Side(q - p)
  {
    PositiveProduct(s, p);
    GainSide(s, p, q);
  }

  lemma GainSide(s: real, p: real, q: real)
    requires s > 0.0
    ensures Side(s * q - s * p) == Side(q - p)
  {
    assert s * q - s * p == s * (q - p);
    if q > p {
      PositiveProduct(s, q - p);
    } else if q < p {
      PositiveProduct(s, p - q);
    }
  }

  /**
    A ratio exists exactly when some coin of its ages has a price; it is above
    one when they all gained, below one when they all lost, and one when they
    all kept their price.
   */
  lemma ProfitSide(day: int, spent: Spent, prices: Prices, ages: Ages)
    requires PriceAt(prices, day) > 0.0
    ensures Profit(day, spent, prices, ages).Some? <==> exists c :: c in spent && Counted(day, spent, prices, ages, c)
    ensures var ratio, now := Profit(day, spent, prices, ages), PriceAt(prices, day);
            ratio.Some? ==>
              && ((forall c :: c in spent && Counted(day, spent, prices, ages, c) ==> prices[c] < now) ==> ratio.value > 1.0)
              && ((forall c :: c in spent && Counted(day, spent, prices, ages, c) ==> prices[c] > now) ==> ratio.value < 1.0)
              && ((forall c :: c in spent && Counted(day, spent, prices, ages, c) ==> prices[c] == now) ==> ratio.value == 1.0)
  {
    hide Counted, Totals;
    TotalsExist(day, spent, prices, ages, spent.Keys);
    forall c | Counted(day, spent, prices, ages, c) ensures c in prices && PriceAt(prices, c) == prices[c] {
      CountedHasPrice(day, spent, prices, ages, c);
    }
    var t := Totals(day, spent, prices, ages, spent.Keys);
    if t.den > 0.0 {
      QuotientSide(t.num, t.den);
      if AllOn(1, day, spent, prices, ages, spent.Keys) {
        TotalsOnOneSide(1, day, spent, prices, ages, spent.Keys);
      }
      if AllOn(-1, day, spent, prices, ages, spent.Keys) {
        TotalsOnOneSide(-1, day, spent, prices, ages, spent.Keys);
      }
      if AllOn(0, day, spent, prices, ages, spent.Keys) {
        TotalsOnOneSide(0, day, spent, prices, ages, spent.Keys);
      }
    }
  }

  lemma CountedHasPrice(day: int, spent: Spent, prices: Prices, ages: Ages, c: int)
    requires Counted(day, spent, prices, ages, c)
    ensures c in prices && PriceAt(prices, c) == prices[c]
  {
  }

  /** A day without spends has no shares and no dormancy. */
  lemma QuietDay(m: CoinageDay, day: int, spent: Spent, prices: Prices, complete: bool)
    requires IsMetrics(m, day, spent, prices, complete) && m.spentSats == 0
    ensures m.dormancyDays == 0.0 && m.shares == seq(BANDS, b => 0.0)
  {
    hide BandSats, SpentOlder, CoinDays, Profit;
  }

  lemma QuotientSide(n: real, d: real)
    requires d > 0.0
    ensures Side(n / d - 1.0) == Side(n - d)
  {
    var q := n / d;
    assert q * d == n;
    GainSide(d, 1.0, q);
    assert d * q - d * 1.0 == n - d;
  }

  lemma {:induction false} TotalsExist(day: int, spent: Spent, prices: Prices, ages: Ages, keys: set<int>)
    ensures (exists c :: c in keys && Counted(day, spent, prices, ages, c)) <==> Totals(day, spent, prices, ages, keys).den > 0.0
    ensures Totals(day, spent, prices, ages, keys).den >= 0.0
    decreases keys
  {
    hide Counted, Totals;
    if keys == {} {
      NoTotals(day, spent, prices, ages);
    } else {
      var k := Pick(keys);
      TotalsTake(day, spent, prices, ages, keys, k);
      TotalsExist(day, spent, prices, ages, keys - {k});
      if Counted(day, spent, prices, ages, k) {
        CountedHasWorth(day, spent, prices, ages, k);
        PositiveProduct(SatsAt(spent, k) as real, PriceAt(prices, k));
      } else {
        assert forall c :: c in keys && Counted(day, spent, prices, ages, c) ==> c in keys - {k};
      }
    }
  }

  /** If every coin of the ages was created at price p, the ratio is the day's price over p. */
  lemma ProfitAtOnePrice(day: int, spent: Spent, prices: Prices, ages: Ages, p: real)
    requires p > 0.0 && forall c :: c in spent && Counted(day, spent, prices, ages, c) ==> PriceAt(prices, c) == p
    ensures Profit(day, spent, prices, ages).Some? ==> Profit(day, spent, prices, ages).value == PriceAt(prices, day) / p
  {
    hide Counted, Totals;
    TotalsAtOnePrice(day, spent, prices, ages, p, spent.Keys);
    var t := Totals(day, spent, prices, ages, spent.Keys);
    if t.den > 0.0 {
      var sum := t.den / p;
      assert sum * p == t.den && t.num == sum * PriceAt(prices, day);
      assert sum > 0.0;
      SameFactor(sum, p, PriceAt(prices, day));
    }
  }

  lemma {:induction false} TotalsAtOnePrice(day: int, spent: Spent, prices: Prices, ages: Ages, p: real, keys: set<int>)
    requires p > 0.0 && forall c :: c in keys && Counted(day, spent, prices, ages, c) ==> PriceAt(prices, c) == p
    ensures var t := Totals(day, spent, prices, ages, keys); t.num == t.den / p * PriceAt(prices, day)
    decreases keys
  {
    hide Counted, Totals;
    if keys == {} {
      NoTotals(day, spent, prices, ages);
    } else {
      var k := Pick(keys);
      TotalsTake(day, spent, prices, ages, keys, k);
      TotalsAtOnePrice(day, spent, prices, ages, p, keys - {k});
      if Counted(day, spent, prices, ages, k) {
        AddAtPrice(Totals(day, spent, prices, ages, keys - {k}).den, SatsAt(spent, k) as real, p, PriceAt(prices, day));
      }
    }
  }

  lemma AddAtPrice(den: real, s: real, p: real, q: real)
    requires p > 0.0
    ensures (den + s * p) / p * q == den / p * q + s * q
  {
    var a := den / p;
    assert a * p == den;
    assert (a + s) * p == den + s * p;
    assert (den + s * p) / p == a + s;
    assert (a + s) * q == a * q + s * q;
  }

  ghost function SumShares(shares: seq<real>): real {
    if shares == [] then 0.0 else SumShares(shares[..|shares| - 1]) + shares[|shares| - 1]
  }

  /** On a day with spends the band shares add up to one hundred per cent. */
  lemma SharesAddUp(m: CoinageDay, day: int, spent: Spent, prices: Prices, complete: bool)
    requires IsMetrics(m, day, spent, prices, complete) && m.spentSats > 0
    ensures SumShares(m.shares) == 100.0
  {
    hide SpentOlder, BandSats, CoinDays, Profit;
    BandsConserve(day, spent);
    SharesPrefix(m, day, spent, prices, complete, BANDS);
    assert m.shares[..BANDS] == m.shares;
    var t := m.spentSats as real;
    assert t / t == 1.0;
  }

  lemma {:induction false} SharesPrefix(m: CoinageDay, day: int, spent: Spent, prices: Prices, complete: bool, n: nat)
    requires IsMetrics(m, day, spent, prices, complete) && m.spentSats > 0 && n <= BANDS
    ensures SumShares(m.shares[..n]) == SumBands(day, spent, n) as real / m.spentSats as real * 100.0
  {
    hide SpentOlder, BandSats, CoinDays, Profit;
    if n == 0 {
    } else {
      SharesPrefix(m, day, spent, prices, complete, n - 1);
      assert m.shares[..n][..n - 1] == m.shares[..n - 1];
      var x, y, t := SumBands(day, spent, n - 1) as real, BandSats(day, spent, n - 1) as real, m.spentSats as real;
      assert (x + y) / t == x / t + y / t;
    }
  }
}
