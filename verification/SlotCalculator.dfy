/**
  The slot-pricing calculator: a day's demand in quarter-hour buckets, what each
  bucket bills, and the search for the cheapest commitment. Prices and slots
  are exact reals.
 */
module SlotCalculator {
  import opened Wrappers
  import opened SlotSweep

  const BUCKETS: nat := 96
  const MAX_SWEEP: real := 400.0
  const BUCKET_HOURS: real := 0.25
  const HOURS_PER_MONTH: real := 730.0

  // ---------------------------------------------------------------- quarter-hour buckets

  /** The bucket of a clock time, rounded to the nearest quarter hour; None for an invalid time. */
  function TimeToBucket(h: int, m: int): Option<nat> {
    if h < 0 || h > 24 || m < 0 || m > 59 || (h == 24 && m > 0) then None
    else Some((2 * (h * 60 + m) + 15) / 30 % BUCKETS)
  }

  /** A valid time is at most seven minutes from its bucket, around midnight. */
  lemma TimeToBucketIsNearest(h: int, m: int)
    requires TimeToBucket(h, m).Some?
    ensures var b := TimeToBucket(h, m).value;
            b < BUCKETS && exists q: int :: (q == b || q == b + BUCKETS) && -7 <= 15 * q - (h * 60 + m) <= 7
  {
    var t := h * 60 + m;
    var q := (2 * t + 15) / 30;
    Rounded(t, q);
    assert 0 <= q <= BUCKETS;
  }

  /** The times with a bucket are those from 00:00 to 23:59, and 24:00. */
  lemma TimeIsValid(h: int, m: int)
    ensures TimeToBucket(h, m).Some? <==> (0 <= h <= 23 && 0 <= m <= 59) || (h == 24 && m == 0)
  {
  }

  lemma Rounded(t: int, q: int)
    requires q == (2 * t + 15) / 30
    ensures -7 <= 15 * q - t <= 7
  {
  }

  /** Steps forward from s to i around the day. */
  function Ahead(s: nat, i: nat): nat
    requires s < BUCKETS && i < BUCKETS
  {
    if i >= s then i - s else i + BUCKETS - s
  }

  /** Is bucket i in [s, e), wrapping through midnight when e <= s and empty when e == s? */
  predicate InWindow(s: nat, e: nat, i: nat)
    requires s < BUCKETS && e < BUCKETS && i < BUCKETS
  {
    Ahead(s, i) < Ahead(s, e)
  }

  /** Off-by-wrap check: a window and its reverse split the day between them. */
  lemma WindowAndReverse(s: nat, e: nat, i: nat)
    requires s < BUCKETS && e < BUCKETS && i < BUCKETS && s != e
    ensures InWindow(s, e, i) <==> !InWindow(e, s, i)
  {
  }

  method WindowMask(s: nat, e: nat) returns (mask: seq<bool>)
    requires s < BUCKETS && e < BUCKETS
    ensures |mask| == BUCKETS && forall i :: 0 <= i < BUCKETS ==> (mask[i] <==> InWindow(s, e, i))
  {
    var on := new bool[BUCKETS](i => false);
    var i := s;
    while i != e
      invariant 0 <= i < BUCKETS && Ahead(s, i) <= Ahead(s, e)
      invariant forall j :: 0 <= j < BUCKETS ==> (on[j] <==> Ahead(s, j) < Ahead(s, i))
      decreases Ahead(i, e)
    {
      on[i] := true;
      i := (i + 1) % BUCKETS;
    }
    mask := on[..];
  }

  datatype Window = Window(start: nat, end: nat, slots: real)

  predicate ValidWindows(ws: seq<Window>) {
    forall w :: w in ws ==> w.start < BUCKETS && w.end < BUCKETS && w.slots >= 0.0
  }

  /** Baseline plus every window open at bucket i. */
  function DemandAt(entered: real, ws: seq<Window>, i: nat): real
    requires ValidWindows(ws) && i < BUCKETS
  {
    if ws == [] then entered
    else
      var w := ws[|ws| - 1];
      DemandAt(entered, ws[..|ws| - 1], i) + (if InWindow(w.start, w.end, i) then w.slots else 0.0)
  }

  function Demand(entered: real, ws: seq<Window>): (d: seq<real>)
    requires ValidWindows(ws)
    ensures |d| == BUCKETS
  {
    seq(BUCKETS, i requires 0 <= i < BUCKETS => DemandAt(entered, ws, i))
  }

  lemma {:induction false} DemandFloor(entered: real, ws: seq<Window>, i: nat)
    requires ValidWindows(ws) && i < BUCKETS
    ensures DemandAt(entered, ws, i) >= entered
  {
    if ws == [] {
    } else {
      assert ws[|ws| - 1] in ws;
      DemandFloor(entered, ws[..|ws| - 1], i);
    }
  }

  /** A window's length in buckets. */
  function Length(w: Window): nat
    requires w.start < BUCKETS && w.end < BUCKETS
  {
    Ahead(w.start, w.end)
  }

  /** What the day's buckets demand together. */
  function TotalAsked(entered: real, ws: seq<Window>): real
    requires ValidWindows(ws)
  {
    if ws == [] then entered * BUCKETS as real
    else
      var w := ws[|ws| - 1];
      assert w in ws;
      TotalAsked(entered, ws[..|ws| - 1]) + w.slots * Length(w) as real
  }

  lemma DemandSnoc(entered: real, ws: seq<Window>, i: nat)
    requires ValidWindows(ws) && ws != [] && i < BUCKETS
    ensures var w := ws[|ws| - 1];
            w in ws && Demand(entered, ws)[i] == Demand(entered, ws[..|ws| - 1])[i] + (if InWindow(w.start, w.end, i) then w.slots else 0.0)
  {
    assert ws[|ws| - 1] in ws;
  }

  lemma SumSnoc(xs: seq<real>, n: nat)
    requires 0 < n <= |xs|
    ensures Sum(xs[..n]) == Sum(xs[..n - 1]) + xs[n - 1]
  {
    assert xs[..n][..n - 1] == xs[..n - 1];
  }

  lemma TimesOneMore(x: real, k: nat)
    ensures x * (k + 1) as real == x * k as real + x
  {
  }

  /** The demand of the first n buckets with one more window: its slots once for each of them it is open in. */
  lemma {:induction false} OneMoreWindow(entered: real, ws: seq<Window>, n: nat)
    requires ValidWindows(ws) && ws != [] && n <= BUCKETS
    ensures var w := ws[|ws| - 1];
            w in ws && Sum(Demand(entered, ws)[..n]) == Sum(Demand(entered, ws[..|ws| - 1])[..n]) + w.slots * OpenBefore(w, n) as real
  {
    hide InWindow, Demand, Sum;
    var w := ws[|ws| - 1];
    assert w in ws;
    if n == 0 {
      assert Demand(entered, ws)[..0] == Demand(entered, ws[..|ws| - 1])[..0] == [];
    } else {
      OneMoreWindow(entered, ws, n - 1);
      SumSnoc(Demand(entered, ws), n);
      SumSnoc(Demand(entered, ws[..|ws| - 1]), n);
      DemandSnoc(entered, ws, n - 1);
      TimesOneMore(w.slots, OpenBefore(w, n - 1));
    }
  }

  /** In how many of the first n buckets w is open. */
  function OpenBefore(w: Window, n: nat): nat
    requires w.start < BUCKETS && w.end < BUCKETS && n <= BUCKETS
  {
    if n == 0 then 0 else OpenBefore(w, n - 1) + if InWindow(w.start, w.end, n - 1) then 1 else 0
  }

  /** That many are open among the first n: those of [start, end), less what lies past n. */
  lemma {:induction false} OpenCount(w: Window, n: nat)
    requires w.start < BUCKETS && w.end < BUCKETS && n <= BUCKETS
    ensures OpenBefore(w, n) == if w.start <= w.end then Max(0, Min(n, w.end) - w.start) else Min(n, w.end) + Max(0, n - w.start)
  {
    if n == 0 {
    } else {
      OpenCount(w, n - 1);
    }
  }

  lemma {:induction false} ConstantDemand(entered: real, n: nat)
    requires n <= BUCKETS
    ensures Sum(Demand(entered, [])[..n]) == entered * n as real
  {
    if n == 0 {
    } else {
      ConstantDemand(entered, n - 1);
      assert Demand(entered, [])[..n][..n - 1] == Demand(entered, [])[..n - 1];
    }
  }

  /** Over the day every window asks for its slots exactly as long as it lasts, on top of the baseline. */
  lemma {:induction false} DemandConserves(entered: real, ws: seq<Window>)
    requires ValidWindows(ws)
    ensures Sum(Demand(entered, ws)) == TotalAsked(entered, ws)
  {
    hide Sum, Demand, InWindow;
    assert Demand(entered, ws)[..BUCKETS] == Demand(entered, ws);
    if ws == [] {
      ConstantDemand(entered, BUCKETS);
    } else {
      var w := ws[|ws| - 1];
      assert w in ws;
      DemandConserves(entered, ws[..|ws| - 1]);
      OneMoreWindow(entered, ws, BUCKETS);
      assert Demand(entered, ws[..|ws| - 1])[..BUCKETS] == Demand(entered, ws[..|ws| - 1]);
      OpenCount(w, BUCKETS);
    }
  }

  method BuildProfile(entered: real, ws: seq<Window>) returns (demand: seq<real>)
    requires ValidWindows(ws)
    ensures demand == Demand(entered, ws)
  {
    var d := new real[BUCKETS](i => entered);
    for wi := 0 to |ws|
      invariant forall i :: 0 <= i < BUCKETS ==> d[i] == DemandAt(entered, ws[..wi], i)
    {
      var w := ws[wi];
      assert w in ws && ws[..wi + 1][..wi] == ws[..wi];
      var mask := WindowMask(w.start, w.end);
      for i := 0 to BUCKETS
        invariant forall j :: 0 <= j < i ==> d[j] == DemandAt(entered, ws[..wi + 1], j)
        invariant forall j :: i <= j < BUCKETS ==> d[j] == DemandAt(entered, ws[..wi], j)
      {
        if mask[i] {
          d[i] := d[i] + w.slots;
        }
      }
    }
    assert ws[..|ws|] == ws;
    demand := d[..];
  }

  // ---------------------------------------------------------------- rounding to 50 slots

  function Ceiling(x: real): int {
    if x == x.Floor as real then x.Floor else x.Floor + 1
  }

  /** k increments of 50 slots. */
  function Slots(k: nat): real { 50.0 * k as real }

  /** The increments a demand rounds up to. */
  function Steps(slots: real): nat {
    if slots <= 0.0 then 0 else CeilingPositive(slots / 50.0); Ceiling(slots / 50.0)
  }

  lemma CeilingPositive(x: real)
    requires x > 0.0
    ensures Ceiling(x) > 0
  {
  }

  function RoundUp50(slots: real): real {
    if slots <= 0.0 then 0.0 else Ceiling(slots / 50.0) as real * 50.0
  }

  /** The least multiple of 50 slots, none of them negative, that is enough. */
  lemma RoundUpIsLeast(slots: real, k: nat)
    ensures RoundUp50(slots) == Slots(Steps(slots)) >= slots
    ensures Slots(k) >= slots <==> k >= Steps(slots)
  {
    if slots > 0.0 {
      var x := slots / 50.0;
      assert slots == x * 50.0;
      CeilingIsLeast(x, k);
    }
  }

  lemma CeilingIsLeast(x: real, k: int)
    ensures Ceiling(x) as real >= x
    ensures k as real >= x <==> k >= Ceiling(x)
  {
  }

  // ---------------------------------------------------------------- one day's bill

  /** Spend split into the ways a slot can be billed. */
  datatype SlotCost = SlotCost(committed: real, uncommittedBaseline: real, autoscaled: real, payg: real, total: real)

  const ZERO: SlotCost := SlotCost(0.0, 0.0, 0.0, 0.0, 0.0)

  function Add(a: SlotCost, b: SlotCost): SlotCost {
    SlotCost(a.committed + b.committed, a.uncommittedBaseline + b.uncommittedBaseline,
             a.autoscaled + b.autoscaled, a.payg + b.payg, a.total + b.total)
  }

  function Scale(c: SlotCost, f: real): SlotCost {
    SlotCost(c.committed * f, c.uncommittedBaseline * f, c.autoscaled * f, c.payg * f, c.total * f)
  }

  function SumCosts(cs: seq<SlotCost>): SlotCost {
    if cs == [] then ZERO else Add(SumCosts(cs[..|cs| - 1]), cs[|cs| - 1])
  }

  /** A commitment, a baseline, a cap per reservation (0 for none) and the two hourly rates. */
  datatype Plan = Plan(baseline: real, committed: real, maxSlots: real, rates: Rates)

  function Floor(p: Plan): real { RMax(p.baseline, p.committed) }

  function Uncommitted(p: Plan): real { RMax(0.0, p.baseline - p.committed) }

  function Uncapped(p: Plan, demand: real): real { Floor(p) + RoundUp50(RMax(0.0, demand - Floor(p))) }

  predicate Capped(p: Plan, demand: real) { p.maxSlots > 0.0 && Uncapped(p, demand) > p.maxSlots }

  /** Slots charged in one bucket. */
  function Billed(p: Plan, demand: real): real {
    if Capped(p, demand) then p.maxSlots else Uncapped(p, demand)
  }

  function Autoscaled(p: Plan, demand: real): real {
    if Capped(p, demand) then RMax(0.0, p.maxSlots - Floor(p)) else RoundUp50(RMax(0.0, demand - Floor(p)))
  }

  function BucketCost(p: Plan, demand: real): SlotCost {
    var committed := p.committed * p.rates.commit * BUCKET_HOURS;
    var baseline := Uncommitted(p) * p.rates.payg * BUCKET_HOURS;
    var autoscaled := Autoscaled(p, demand) * p.rates.payg * BUCKET_HOURS;
    SlotCost(committed, baseline, autoscaled, baseline + autoscaled, committed + (baseline + autoscaled))
  }

  function BucketCosts(p: Plan, demand: seq<real>): (cs: seq<SlotCost>)
    ensures |cs| == |demand|
  {
    seq(|demand|, i requires 0 <= i < |demand| => BucketCost(p, demand[i]))
  }

  function PaygSlotHours(p: Plan, demand: seq<real>): real {
    if demand == [] then 0.0
    else PaygSlotHours(p, demand[..|demand| - 1]) + (Uncommitted(p) + Autoscaled(p, demand[|demand| - 1])) * BUCKET_HOURS
  }

  function UsedCommittedHours(p: Plan, demand: seq<real>): real {
    if demand == [] then 0.0
    else UsedCommittedHours(p, demand[..|demand| - 1]) + RMin(demand[|demand| - 1], p.committed) * BUCKET_HOURS
  }

  function Peak(demand: seq<real>): (m: real)
    ensures m >= 0.0 && forall i :: 0 <= i < |demand| ==> demand[i] <= m
    ensures m > 0.0 ==> m in demand
  {
    if demand == [] then 0.0
    else
      var rest := demand[..|demand| - 1];
      assert forall i :: 0 <= i < |rest| ==> rest[i] == demand[i];
      RMax(Peak(rest), demand[|demand| - 1])
  }

  /** average is of the slots demanded, utilization of the committed hours used over those bought. */
  datatype Bill = Bill(billed: seq<real>, hourly: seq<SlotCost>, daily: SlotCost, monthly: SlotCost,
                       peak: real, average: real, paygSlotHours: real, usedCommittedHours: real, utilization: real)

  function Sum(xs: seq<real>): real {
    if xs == [] then 0.0 else Sum(xs[..|xs| - 1]) + xs[|xs| - 1]
  }

  /** What xs exceed a floor by, added up. */
  function Above(xs: seq<real>, floor: real): real {
    if xs == [] then 0.0 else Above(xs[..|xs| - 1], floor) + RMax(0.0, xs[|xs| - 1] - floor)
  }

  /** What xs fall short of a level by, added up. */
  function Below(xs: seq<real>, level: real): real {
    if xs == [] then 0.0 else Below(xs[..|xs| - 1], level) + RMax(0.0, level - xs[|xs| - 1])
  }

  function QuotientOrZero(num: real, den: real): real { if den <= 0.0 then 0.0 else num / den }

  function Monthly(p: Plan, demand: seq<real>): SlotCost {
    Scale(SumCosts(BucketCosts(p, demand)), HOURS_PER_MONTH / 24.0)
  }

  lemma AddCommutes(a: SlotCost, b: SlotCost, c: SlotCost)
    ensures Add(Add(a, b), c) == Add(a, Add(b, c)) == Add(Add(a, c), b)
  {
  }

  /** Adding to one hour adds to the day. */
  lemma {:induction false} SumCostsUpdate(cs: seq<SlotCost>, h: nat, c: SlotCost)
    requires h < |cs|
    ensures SumCosts(cs[h := Add(cs[h], c)]) == Add(SumCosts(cs), c)
  {
    hide Add;
    var n := |cs| - 1;
    var updated := cs[h := Add(cs[h], c)];
    if h < n {
      SumCostsUpdate(cs[..n], h, c);
      assert updated[..n] == cs[..n][h := Add(cs[h], c)];
      AddCommutes(SumCosts(cs[..n]), c, cs[n]);
    } else {
      assert updated[..n] == cs[..n];
      AddCommutes(SumCosts(cs[..n]), cs[n], c);
    }
  }

  lemma {:induction false} SumOfZeros(n: nat)
    ensures SumCosts(seq(n, i => ZERO)) == ZERO
  {
    if n == 0 {
    } else {
      SumOfZeros(n - 1);
      assert seq(n, i => ZERO)[..n - 1] == seq(n - 1, i => ZERO);
    }
  }

  /** What the billing loop adds up over the buckets it has seen. */
  datatype Tally = Tally(billed: seq<real>, hourly: seq<SlotCost>, peak: real, sum: real, paygSlotHours: real, usedCommittedHours: real)

  ghost predicate IsTally(t: Tally, p: Plan, demand: seq<real>)
    requires |demand| == BUCKETS
  {
    && |t.billed| == BUCKETS && (forall i :: 0 <= i < BUCKETS ==> t.billed[i] == Billed(p, demand[i]))
    && |t.hourly| == 24 && HoursUpTo(BucketCosts(p, demand), t.hourly, BUCKETS) && SumCosts(t.hourly) == SumCosts(BucketCosts(p, demand))
    && t.peak == Peak(demand) && t.sum == Sum(demand)
    && t.paygSlotHours == PaygSlotHours(p, demand) && t.usedCommittedHours == UsedCommittedHours(p, demand)
  }

  method TallyBuckets(demand: seq<real>, p: Plan) returns (t: Tally)
    requires |demand| == BUCKETS
    ensures IsTally(t, p, demand)
  {
    hide BucketCost, Autoscaled, Uncommitted, Billed, Add, SumCosts, HoursUpTo, Peak, PaygSlotHours, UsedCommittedHours, Sum;
    ghost var costs := BucketCosts(p, demand);
    var billed := new real[BUCKETS](i => 0.0);
    var hourly := seq(24, i => ZERO);
    var peak, sum, payg, used := 0.0, 0.0, 0.0, 0.0;
    HoursStart(p, demand);
    for i := 0 to BUCKETS
      invariant |hourly| == 24 && SumCosts(hourly) == SumCosts(costs[..i]) && HoursUpTo(costs, hourly, i)
      invariant forall j :: 0 <= j < i ==> billed[j] == Billed(p, demand[j])
      invariant peak == Peak(demand[..i]) && sum == Sum(demand[..i])
      invariant payg == PaygSlotHours(p, demand[..i]) && used == UsedCommittedHours(p, demand[..i])
    {
      var d := demand[i];
      var c := BucketCost(p, d);
      SumCostsUpdate(hourly, i / 4, c);
      SumCostsStep(costs, i);
      HourStep(costs, hourly, i);
      TallyStep(p, demand, i);
      billed[i] := Billed(p, d);
      hourly := hourly[i / 4 := Add(hourly[i / 4], c)];
      used := used + RMin(d, p.committed) * BUCKET_HOURS;
      payg := payg + (Uncommitted(p) + Autoscaled(p, d)) * BUCKET_HOURS;
      peak := RMax(peak, d);
      sum := sum + d;
    }
    assert demand[..BUCKETS] == demand && costs[..BUCKETS] == costs;
    t := Tally(billed[..], hourly, peak, sum, payg, used);
  }

  /** A day's bill: every field, in terms of the plan, the demand and the slots billed. */
  ghost predicate IsBill(bill: Bill, p: Plan, demand: seq<real>)
    requires |demand| == BUCKETS
  {
    && |bill.billed| == BUCKETS && (forall i :: 0 <= i < BUCKETS ==> bill.billed[i] == Billed(p, demand[i]))
    && |bill.hourly| == 24 && HoursUpTo(BucketCosts(p, demand), bill.hourly, BUCKETS)
    && bill.daily == SumCosts(BucketCosts(p, demand)) && bill.monthly == Monthly(p, demand)
    && bill.monthly.total * 24.0 == bill.daily.total * 730.0
    && bill.peak == Peak(demand) && bill.average == Sum(demand) / BUCKETS as real
    && bill.paygSlotHours == PaygSlotHours(p, demand) && bill.usedCommittedHours == UsedCommittedHours(p, demand)
    && bill.daily.committed == p.committed * p.rates.commit * 24.0
    && bill.daily.uncommittedBaseline == RMax(0.0, p.baseline - p.committed) * p.rates.payg * 24.0
    && bill.daily.autoscaled == p.rates.payg * (BUCKET_HOURS * Above(bill.billed, RMax(p.baseline, p.committed)))
    && bill.usedCommittedHours == p.committed * 24.0 - BUCKET_HOURS * Below(demand, p.committed)
    && bill.utilization == QuotientOrZero(bill.usedCommittedHours, p.committed * 24.0)
  }

  /**
    The billing loop. Every hour's cost is the sum of its four buckets, the 24
    hours add up to the 96 buckets, and the day is split by what was billed.
   */
  method CostProfile(demand: seq<real>, p: Plan) returns (bill: Bill)
    requires |demand| == BUCKETS
    ensures IsBill(bill, p, demand)
  {
    hide BucketCost, BucketCosts, Billed, Add, SumCosts, HoursUpTo, Peak, PaygSlotHours, UsedCommittedHours, Sum, Above, Below;
    var t := TallyBuckets(demand, p);
    var daily := SumHours(t.hourly);
    DaySplits(p, demand, t.billed);
    UsedAndIdle(p, demand);
    assert BUCKET_HOURS * |demand| as real == 24.0;
    bill := Bill(t.billed, t.hourly, daily, Scale(daily, HOURS_PER_MONTH / 24.0), t.peak, t.sum / BUCKETS as real,
                 t.paygSlotHours, t.usedCommittedHours, QuotientOrZero(t.usedCommittedHours, p.committed * 24.0));
  }

  method SumHours(hourly: seq<SlotCost>) returns (daily: SlotCost)
    ensures daily == SumCosts(hourly)
  {
    daily := ZERO;
    for h := 0 to |hourly|
      invariant daily == SumCosts(hourly[..h])
    {
      SumCostsStep(hourly, h);
      daily := Add(daily, hourly[h]);
    }
    assert hourly[..|hourly|] == hourly;
  }

  lemma SumCostsStep(cs: seq<SlotCost>, i: nat)
    requires i < |cs|
    ensures SumCosts(cs[..i + 1]) == Add(SumCosts(cs[..i]), cs[i])
  {
    assert cs[..i + 1][..i] == cs[..i];
  }

  lemma TallyStep(p: Plan, demand: seq<real>, i: nat)
    requires i < |demand|
    ensures Peak(demand[..i + 1]) == RMax(Peak(demand[..i]), demand[i])
    ensures PaygSlotHours(p, demand[..i + 1]) ==
            PaygSlotHours(p, demand[..i]) + (Uncommitted(p) + Autoscaled(p, demand[i])) * BUCKET_HOURS
    ensures UsedCommittedHours(p, demand[..i + 1]) ==
            UsedCommittedHours(p, demand[..i]) + RMin(demand[i], p.committed) * BUCKET_HOURS
    ensures Sum(demand[..i + 1]) == Sum(demand[..i]) + demand[i]
  {
    assert demand[..i + 1][..i] == demand[..i];
  }

  /** After i buckets each hour holds the sum of those of its four buckets that are done. */
  predicate HoursUpTo(costs: seq<SlotCost>, hourly: seq<SlotCost>, i: nat)
    requires |costs| == BUCKETS && |hourly| == 24
  {
    forall h :: 0 <= h < 24 ==> hourly[h] == SumCosts(costs[Min(4 * h, i)..Min(4 * h + 4, i)])
  }

  lemma HoursStart(p: Plan, demand: seq<real>)
    requires |demand| == BUCKETS
    ensures HoursUpTo(BucketCosts(p, demand), seq(24, i => ZERO), 0)
    ensures SumCosts(seq(24, i => ZERO)) == ZERO == SumCosts(BucketCosts(p, demand)[..0])
    ensures Peak(demand[..0]) == PaygSlotHours(p, demand[..0]) == UsedCommittedHours(p, demand[..0]) == Sum(demand[..0]) == 0.0
  {
    SumOfZeros(24);
  }

  lemma HourStep(costs: seq<SlotCost>, hourly: seq<SlotCost>, i: nat)
    requires |costs| == BUCKETS && |hourly| == 24 && i < BUCKETS && HoursUpTo(costs, hourly, i)
    ensures HoursUpTo(costs, hourly[i / 4 := Add(hourly[i / 4], costs[i])], i + 1)
  {
    hide Add;
    var next := hourly[i / 4 := Add(hourly[i / 4], costs[i])];
    forall h | 0 <= h < 24 ensures next[h] == SumCosts(costs[Min(4 * h, i + 1)..Min(4 * h + 4, i + 1)]) {
      if h == i / 4 {
        var after := costs[4 * h..i + 1];
        assert after[..|after| - 1] == costs[4 * h..i];
        assert Min(4 * h, i + 1) == Min(4 * h, i) == 4 * h && Min(4 * h + 4, i + 1) == i + 1 && Min(4 * h + 4, i) == i;
      } else if h > i / 4 {
        assert costs[i + 1..i + 1] == costs[i..i] == [];
      } else {
        assert Min(4 * h, i + 1) == Min(4 * h, i) && Min(4 * h + 4, i + 1) == Min(4 * h + 4, i) == 4 * h + 4;
      }
    }
  }

  // ---------------------------------------------------------------- what a bill means

  /** With no cap a bucket bills the largest of baseline, commitment and demand rounded up to 50. */
  lemma BilledIsMax(p: Plan, b: nat, c: nat, d: real)
    requires p.baseline == Slots(b) && p.committed == Slots(c)
    ensures Uncapped(p, d) == RMax(Floor(p), RoundUp50(d))
    ensures Billed(p, d) == if p.maxSlots > 0.0 then RMin(p.maxSlots, Uncapped(p, d)) else Uncapped(p, d)
  {
    hide RoundUp50, Steps, Ceiling;
    var f := if b < c then c else b;
    assert Floor(p) == Slots(f);
    StepsAbove(d, f);
    RoundUpIsLeast(d, f);
  }

  /** Rounding up commutes with taking whole increments off. */
  lemma StepsAbove(d: real, f: nat)
    ensures RoundUp50(RMax(0.0, d - Slots(f))) == Slots(if Steps(d) > f then Steps(d) - f else 0)
  {
    if d > Slots(f) {
      var x := d / 50.0;
      assert (d - Slots(f)) / 50.0 == x - f as real;
      CeilingShift(x, f);
    } else {
      RoundUpIsLeast(d, f);
    }
  }

  lemma CeilingShift(x: real, f: nat)
    ensures Ceiling(x - f as real) == Ceiling(x) - f
  {
    assert (x - f as real).Floor == x.Floor - f;
  }

  /** The level, in increments, above which a bucket stops paying on demand. */
  function Level(b: nat, d: real): nat { if Steps(d) > b then Steps(d) else b }

  function Levels(b: nat, demand: seq<real>): (ms: seq<nat>)
    ensures |ms| == |demand|
  {
    seq(|demand|, i requires 0 <= i < |demand| => Level(b, demand[i]))
  }

  /** On-demand slots of an uncapped bucket: what demand or baseline, rounded up, exceeds the commitment by. */
  lemma PaygIdentity(p: Plan, b: nat, c: nat, d: real)
    requires p.baseline == Slots(b) && p.committed == Slots(c) && p.maxSlots == 0.0
    ensures Uncommitted(p) + Autoscaled(p, d) == Slots(if Level(b, d) > c then Level(b, d) - c else 0)
  {
    hide RoundUp50, Steps, Ceiling;
    var f := if b < c then c else b;
    assert Floor(p) == Slots(f);
    StepsAbove(d, f);
  }

  /** One increment for one bucket, over a month. */
  const UNIT: real := 50.0 * BUCKET_HOURS * (HOURS_PER_MONTH / 24.0)

  lemma BucketTotal(p: Plan, b: nat, c: nat, d: real)
    requires p.baseline == Slots(b) && p.committed == Slots(c) && p.maxSlots == 0.0
    ensures BucketCost(p, d).total ==
            50.0 * BUCKET_HOURS * (p.rates.commit * c as real + p.rates.payg * (if Level(b, d) > c then Level(b, d) - c else 0) as real)
  {
    hide Level, Uncommitted, Autoscaled;
    PaygIdentity(p, b, c, d);
    var over := if Level(b, d) > c then Level(b, d) - c else 0;
    assert BucketCost(p, d).total == p.committed * p.rates.commit * BUCKET_HOURS + (Uncommitted(p) + Autoscaled(p, d)) * p.rates.payg * BUCKET_HOURS;
    assert p.committed * p.rates.commit == 50.0 * (p.rates.commit * c as real);
    assert Slots(over) * p.rates.payg == 50.0 * (p.rates.payg * over as real);
  }

  lemma {:induction false} DayTotal(p: Plan, b: nat, c: nat, demand: seq<real>)
    requires p.baseline == Slots(b) && p.committed == Slots(c) && p.maxSlots == 0.0
    ensures SumCosts(BucketCosts(p, demand)).total == 50.0 * BUCKET_HOURS * Cost(p.rates, Levels(b, demand), c)
  {
    hide BucketCost, Level, Cost, Slots;
    if demand == [] {
      NoCost(p.rates, c);
      assert Levels(b, demand) == [];
    } else {
      var n := |demand| - 1;
      var rest := demand[..n];
      DayTotal(p, b, c, rest);
      BucketTotal(p, b, c, demand[n]);
      assert BucketCosts(p, demand)[..n] == BucketCosts(p, rest);
      var ms := Levels(b, demand);
      assert ms[..n] == Levels(b, rest);
      CostSnoc(p.rates, ms, c);
    }
  }

  lemma NoCost(r: Rates, k: nat)
    ensures Cost(r, [], k) == 0.0
  {
  }

  lemma CostSnoc(r: Rates, ms: seq<nat>, k: nat)
    requires ms != []
    ensures var m := ms[|ms| - 1];
            Cost(r, ms, k) == Cost(r, ms[..|ms| - 1], k) + (r.commit * k as real + r.payg * (if m > k then m - k else 0) as real)
  {
    var n := |ms| - 1;
    assert (n + 1) * k == n * k + k;
    var m := ms[n];
    var over := if m > k then m - k else 0;
    Distribute(r.commit, (n * k) as real, k as real);
    Distribute(r.payg, Over(ms[..n], k) as real, over as real);
  }

  /** The month's total is the cost function of the commitment sweep. */
  lemma MonthlyTotal(p: Plan, b: nat, c: nat, demand: seq<real>)
    requires p.baseline == Slots(b) && p.committed == Slots(c) && p.maxSlots == 0.0
    ensures Monthly(p, demand).total == UNIT * Cost(p.rates, Levels(b, demand), c)
  {
    hide SumCosts, BucketCosts, Cost;
    DayTotal(p, b, c, demand);
  }

  /** The bill's on-demand charge is its on-demand slot-hours at the rate, for any plan. */
  lemma {:induction false} PaygCharge(p: Plan, demand: seq<real>)
    ensures SumCosts(BucketCosts(p, demand)).payg == PaygSlotHours(p, demand) * p.rates.payg
    ensures SumCosts(BucketCosts(p, demand)).total ==
            SumCosts(BucketCosts(p, demand)).committed + SumCosts(BucketCosts(p, demand)).payg
  {
    hide Autoscaled, Uncommitted, BucketCost;
    if demand == [] {
    } else {
      var n := |demand| - 1;
      PaygCharge(p, demand[..n]);
      BucketPayg(p, demand[n]);
      assert BucketCosts(p, demand)[..n] == BucketCosts(p, demand[..n]);
      Distribute(p.rates.payg, PaygSlotHours(p, demand[..n]), (Uncommitted(p) + Autoscaled(p, demand[n])) * BUCKET_HOURS);
    }
  }

  lemma BucketPayg(p: Plan, d: real)
    ensures BucketCost(p, d).payg == (Uncommitted(p) + Autoscaled(p, d)) * BUCKET_HOURS * p.rates.payg
    ensures BucketCost(p, d).total == BucketCost(p, d).committed + BucketCost(p, d).payg
  {
    hide Autoscaled, Uncommitted;
    var u, a := Uncommitted(p), Autoscaled(p, d);
    Distribute(p.rates.payg, u, a);
  }

  /** Every billed slot is a committed or an on-demand one, unless the cap cuts below the floor. */
  lemma BilledSplits(p: Plan, d: real)
    requires p.committed >= 0.0
    ensures Billed(p, d) == p.committed + Uncommitted(p) + Autoscaled(p, d) <==> !(Capped(p, d) && Floor(p) > p.maxSlots)
  {
    hide RoundUp50;
  }

  /** What each kind of slot costs over any stretch of buckets, said of the slots billed. */
  lemma DaySplits(p: Plan, demand: seq<real>, billed: seq<real>)
    requires |billed| == |demand| && forall i :: 0 <= i < |demand| ==> billed[i] == Billed(p, demand[i])
    ensures var s, hours := SumCosts(BucketCosts(p, demand)), BUCKET_HOURS * |demand| as real;
            && s.committed == p.committed * p.rates.commit * hours
            && s.uncommittedBaseline == RMax(0.0, p.baseline - p.committed) * p.rates.payg * hours
            && s.autoscaled == p.rates.payg * (BUCKET_HOURS * Above(billed, RMax(p.baseline, p.committed)))
            && s.payg == s.uncommittedBaseline + s.autoscaled && s.total == s.committed + s.payg
  {
    hide BucketCosts, SumCosts, Billed, Above;
    FloorCost(p, demand);
    AutoscaledCost(p, demand, billed);
  }

  lemma CostsSnoc(p: Plan, demand: seq<real>)
    requires demand != []
    ensures var n := |demand| - 1;
            SumCosts(BucketCosts(p, demand)) == Add(SumCosts(BucketCosts(p, demand[..n])), BucketCost(p, demand[n]))
  {
    hide BucketCost, Add;
    assert BucketCosts(p, demand)[..|demand| - 1] == BucketCosts(p, demand[..|demand| - 1]);
  }

  lemma NoBuckets(p: Plan)
    ensures SumCosts(BucketCosts(p, [])) == ZERO
  {
  }

  lemma {:induction false} FloorCost(p: Plan, demand: seq<real>)
    ensures var s, hours := SumCosts(BucketCosts(p, demand)), BUCKET_HOURS * |demand| as real;
            && s.committed == p.committed * p.rates.commit * hours
            && s.uncommittedBaseline == RMax(0.0, p.baseline - p.committed) * p.rates.payg * hours
            && s.payg == s.uncommittedBaseline + s.autoscaled && s.total == s.committed + s.payg
  {
    hide BucketCost, BucketCosts, SumCosts, Billed;
    if demand == [] {
      NoBuckets(p);
    } else {
      var n := |demand| - 1;
      FloorCost(p, demand[..n]);
      CostsSnoc(p, demand);
      BucketSplits(p, demand[n]);
      Distribute(p.committed * p.rates.commit, BUCKET_HOURS * n as real, BUCKET_HOURS);
      Distribute(RMax(0.0, p.baseline - p.committed) * p.rates.payg, BUCKET_HOURS * n as real, BUCKET_HOURS);
    }
  }

  lemma {:induction false} AutoscaledCost(p: Plan, demand: seq<real>, billed: seq<real>)
    requires |billed| == |demand| && forall i :: 0 <= i < |demand| ==> billed[i] == Billed(p, demand[i])
    ensures SumCosts(BucketCosts(p, demand)).autoscaled == p.rates.payg * (BUCKET_HOURS * Above(billed, RMax(p.baseline, p.committed)))
  {
    hide BucketCost, BucketCosts, SumCosts, Billed;
    if demand == [] {
      NoBuckets(p);
    } else {
      var n := |demand| - 1;
      AutoscaledCost(p, demand[..n], billed[..n]);
      CostsSnoc(p, demand);
      BucketSplits(p, demand[n]);
      Distribute(p.rates.payg, BUCKET_HOURS * Above(billed[..n], RMax(p.baseline, p.committed)),
                 BUCKET_HOURS * RMax(0.0, billed[n] - RMax(p.baseline, p.committed)));
    }
  }

  lemma BucketSplits(p: Plan, d: real)
    ensures var c := BucketCost(p, d);
            && c.committed == p.committed * p.rates.commit * BUCKET_HOURS
            && c.uncommittedBaseline == RMax(0.0, p.baseline - p.committed) * p.rates.payg * BUCKET_HOURS
            && c.autoscaled == p.rates.payg * (BUCKET_HOURS * RMax(0.0, Billed(p, d) - RMax(p.baseline, p.committed)))
            && c.payg == c.uncommittedBaseline + c.autoscaled && c.total == c.committed + c.payg
  {
    AutoscaledIsAbove(p, d);
  }

  /** Slots are autoscaled exactly above the floor. */
  lemma AutoscaledIsAbove(p: Plan, d: real)
    ensures Autoscaled(p, d) == RMax(0.0, Billed(p, d) - RMax(p.baseline, p.committed))
  {
    hide RoundUp50;
    RoundUpIsLeast(RMax(0.0, d - Floor(p)), 0);
  }

  /** Committed hours used and committed hours idle are the hours bought. */
  lemma {:induction false} UsedAndIdle(p: Plan, demand: seq<real>)
    ensures UsedCommittedHours(p, demand) + BUCKET_HOURS * Below(demand, p.committed) == p.committed * (BUCKET_HOURS * |demand| as real)
  {
    if demand == [] {
    } else {
      var n := |demand| - 1;
      UsedAndIdle(p, demand[..n]);
      Distribute(p.committed, BUCKET_HOURS * n as real, BUCKET_HOURS);
    }
  }

  /** No more committed hours are used than were bought. */
  lemma {:induction false} UtilizationAtMostOne(p: Plan, demand: seq<real>)
    requires p.committed >= 0.0
    ensures UsedCommittedHours(p, demand) <= p.committed * BUCKET_HOURS * |demand| as real
  {
    if demand == [] {
    } else {
      var n := |demand| - 1;
      UtilizationAtMostOne(p, demand[..n]);
      Distribute(p.committed * BUCKET_HOURS, n as real, 1.0);
    }
  }

  // ---------------------------------------------------------------- candidates of the sweep

  /** x is a multiple of 50 slots in [0, Slots(top)]. */
  predicate Increment(x: real, top: nat) { exists k: nat :: k <= top && x == Slots(k) }

  predicate Ascending(xs: seq<real>) { forall i, j :: 0 <= i < j < |xs| ==> xs[i] < xs[j] }

  predicate IsLeast(m: real, s: set<real>) { m in s && forall x :: x in s ==> m <= x }

  lemma {:induction false} LeastExists(s: set<real>) returns (m: real)
    requires s != {}
    ensures IsLeast(m, s)
  {
    var y := Pick(s);
    if s == {y} {
      m := y;
    } else {
      var z := LeastExists(s - {y});
      m := if z < y then z else y;
      forall x | x in s ensures m <= x {
        assert x == y || x in s - {y};
      }
    }
  }

  lemma AppendLeast(xs: seq<real>, rest: set<real>, m: real)
    requires Ascending(xs) && IsLeast(m, rest) && forall x, y :: x in xs && y in rest ==> x < y
    ensures Ascending(xs + [m]) && forall x, y :: x in xs + [m] && y in rest - {m} ==> x < y
  {
    forall i | 0 <= i < |xs| ensures xs[i] < m {
      assert xs[i] in xs;
    }
  }

  method SortReals(s: set<real>) returns (xs: seq<real>)
    ensures Ascending(xs) && forall x :: x in xs <==> x in s
  {
    xs := [];
    var rest := s;
    while rest != {}
      invariant rest <= s && Ascending(xs)
      invariant forall x :: x in s <==> x in xs || x in rest
      invariant forall x, y :: x in xs && y in rest ==> x < y
      decreases |rest|
    {
      ghost var least := LeastExists(rest);
      var m :| m in rest && IsLeast(m, rest);
      assert IsLeast(m, rest);
      AppendLeast(xs, rest, m);
      rest := rest - {m};
      xs := xs + [m];
    }
  }

  /** Uniform steps of 50 slots, or of as many as leave some four hundred of them. */
  function SweepStep(top: real): real { if top / 50.0 > MAX_SWEEP then RoundUp50(top / MAX_SWEEP) else 50.0 }

  ghost predicate UniformPoint(x: real, top: real) { x <= top && exists k: nat :: x == MultipleOf(k, SweepStep(top)) }

  function MultipleOf(k: nat, step: real): real { k as real * step }

  lemma OneStepMore(k: nat, step: real)
    ensures MultipleOf(k + 1, step) == MultipleOf(k, step) + step && MultipleOf(0, step) == 0.0
  {
  }

  lemma StepsAreIncrements(top: real, topK: nat) returns (stepK: nat)
    requires top == Slots(topK)
    ensures stepK > 0 && SweepStep(top) == Slots(stepK)
  {
    hide RoundUp50, Steps;
    stepK := if top / 50.0 > MAX_SWEEP then Steps(top / MAX_SWEEP) else 1;
    if top / 50.0 > MAX_SWEEP {
      RoundUpIsLeast(top / MAX_SWEEP, 0);
    }
  }

  lemma BeyondTop(k: nat, n: nat, step: real, top: real)
    requires step > 0.0 && MultipleOf(n, step) > top && n <= k
    ensures MultipleOf(k, step) > top
  {
    NonNegativeProduct((k - n) as real, step);
    assert MultipleOf(k, step) == MultipleOf(n, step) + (k - n) as real * step;
  }

  /** There are at most 400 uniform steps above zero. */
  lemma SweepIsShort(top: real, k: nat)
    requires top >= 0.0 && MultipleOf(k, SweepStep(top)) <= top
    ensures k <= 400
  {
    hide SweepStep, MultipleOf;
    StepIsLong(top);
    if k >= 401 {
      BeyondTop(k, 401, SweepStep(top), top);
    }
  }

  lemma StepIsLong(top: real)
    requires top >= 0.0
    ensures SweepStep(top) > 0.0 && MultipleOf(401, SweepStep(top)) > top
  {
    hide RoundUp50;
    RoundUpIsLeast(top / MAX_SWEEP, 0);
  }

  /** The first loop of the sweep: every uniform step up to the top. */
  method UniformSteps(top: real, ghost topK: nat) returns (seen: set<real>)
    requires top == Slots(topK)
    ensures forall x :: x in seen ==> Increment(x, topK) && UniformPoint(x, top)
    ensures forall k: nat :: MultipleOf(k, SweepStep(top)) <= top ==> MultipleOf(k, SweepStep(top)) in seen
  {
    hide RoundUp50, Steps, SweepStep, MultipleOf;
    var step := if top / 50.0 > MAX_SWEEP then RoundUp50(top / MAX_SWEEP) else 50.0;
    StepIs(top);
    ghost var stepK := StepsAreIncrements(top, topK);
    seen := {};
    var c := 0.0;
    ghost var cK: nat := 0;
    ghost var n: nat := 0;
    OneStepMore(0, step);
    while c <= top
      invariant c == Slots(cK) == MultipleOf(n, step)
      invariant forall x :: x in seen ==> Increment(x, topK) && UniformPoint(x, top)
      invariant forall k: nat :: k < n ==> MultipleOf(k, step) in seen
      decreases topK + 1 - cK
    {
      assert cK <= topK && Increment(c, topK);
      assert UniformPoint(c, top);
      seen := seen + {c};
      OneStepMore(n, step);
      c := c + step;
      cK := cK + stepK;
      n := n + 1;
    }
    forall k: nat | MultipleOf(k, step) <= top ensures MultipleOf(k, step) in seen {
      if n <= k {
        BeyondTop(k, n, step, top);
      }
    }
  }

  lemma StepIs(top: real)
    ensures SweepStep(top) == if top / 50.0 > MAX_SWEEP then RoundUp50(top / MAX_SWEEP) else 50.0
  {
  }

  /** x is a uniform step, or an end, a floor or a demand level rounded up. */
  ghost predicate Candidate(x: real, top: real, levels: seq<real>) {
    UniformPoint(x, top) || (x <= top && exists d :: d in levels && x == RoundUp50(d))
  }

  /** Sorted multiples of 50 in [0, top]: the uniform steps, the two ends, and every rounded level that is not above the top. */
  method SweepCandidates(top: real, baseline: real, committed: real, demand: seq<real>, ghost topK: nat) returns (out: seq<real>)
    requires top == Slots(topK)
    ensures Ascending(out) && forall x :: x in out ==> Increment(x, topK)
    ensures 0.0 in out && top in out
    ensures forall d :: d in [baseline, committed] + demand && RoundUp50(d) <= top ==> RoundUp50(d) in out
    ensures forall k: nat :: MultipleOf(k, SweepStep(top)) <= top ==> MultipleOf(k, SweepStep(top)) in out
    ensures forall x :: x in out ==> Candidate(x, top, [0.0, top, baseline, committed] + demand)
  {
    hide RoundUp50, Steps, SweepStep, MultipleOf, UniformPoint;
    var seen := UniformSteps(top, topK);
    RoundUpIsLeast(0.0, 0);
    RoundUpIsLeast(top, topK);
    ghost var levels := [0.0, top, baseline, committed];
    seen := AddCandidate(seen, 0.0, top, topK);
    seen := AddCandidate(seen, top, top, topK);
    seen := AddCandidate(seen, baseline, top, topK);
    seen := AddCandidate(seen, committed, top, topK);
    assert RoundUp50(0.0) == 0.0 && RoundUp50(top) == top by {
      RoundedAlready(topK);
      RoundedAlready(0);
    }
    for i := 0 to |demand|
      invariant forall x :: x in seen ==> Increment(x, topK)
      invariant forall k: nat :: MultipleOf(k, SweepStep(top)) <= top ==> MultipleOf(k, SweepStep(top)) in seen
      invariant 0.0 in seen && top in seen
      invariant forall d :: d in [baseline, committed] + demand[..i] && RoundUp50(d) <= top ==> RoundUp50(d) in seen
      invariant forall x :: x in seen ==> Candidate(x, top, levels + demand[..i])
    {
      assert demand[..i + 1] == demand[..i] + [demand[i]];
      MoreLevels(seen, top, levels + demand[..i], demand[i]);
      assert levels + demand[..i] + [demand[i]] == levels + demand[..i + 1];
      seen := AddCandidate(seen, demand[i], top, topK);
    }
    assert demand[..|demand|] == demand;
    out := SortReals(seen);
  }

  lemma RoundedAlready(k: nat)
    ensures RoundUp50(Slots(k)) == Slots(k)
  {
    RoundUpIsLeast(Slots(k), k);
    RoundUpIsLeast(Slots(k), Steps(Slots(k)));
  }

  lemma MoreLevels(seen: set<real>, top: real, levels: seq<real>, d: real)
    requires forall x :: x in seen ==> Candidate(x, top, levels)
    ensures forall x :: x in seen ==> Candidate(x, top, levels + [d])
    ensures RoundUp50(d) <= top ==> Candidate(RoundUp50(d), top, levels + [d])
  {
    hide RoundUp50, UniformPoint;
    assert d in levels + [d] && forall e :: e in levels ==> e in levels + [d];
  }

  method AddCandidate(seen: set<real>, v: real, top: real, ghost topK: nat) returns (r: set<real>)
    requires top == Slots(topK) && forall x :: x in seen ==> Increment(x, topK)
    ensures forall x :: x in r ==> Increment(x, topK)
    ensures r == if RoundUp50(v) <= top then seen + {RoundUp50(v)} else seen
  {
    hide RoundUp50, Steps;
    var x := RoundUp50(v);
    RoundUpIsLeast(v, topK);
    r := seen;
    if x >= 0.0 && x <= top {
      assert Steps(v) <= topK && x == Slots(Steps(v));
      r := seen + {x};
    }
  }

  // ---------------------------------------------------------------- the estimate

  datatype Edition = Standard | Enterprise | EnterprisePlus

  predicate AllowsBaseline(e: Edition) { e != Standard }

  predicate AllowsCommitment(e: Edition) { e != Standard }

  function EditionCap(e: Edition): real { if e == Standard then 1600.0 else 0.0 }

  function Discounted(rate: real, pct: real): real { rate * (1.0 - RMin(100.0, RMax(0.0, pct)) / 100.0) }

  datatype Request = Request(edition: Edition, baselineSlots: real, committedSlots: real, windows: seq<Window>,
                             paygRate: real, commitRate: real, discountPct: real)

  predicate ValidRequest(r: Request) {
    0.0 <= r.baselineSlots <= 1000000.0 && 0.0 <= r.committedSlots <= 1000000.0 &&
    r.paygRate >= 0.0 && r.commitRate >= 0.0 && r.discountPct >= 0.0 && |r.windows| <= 24 &&
    ValidWindows(r.windows) && forall w :: w in r.windows ==> w.slots <= 1000000.0
  }

  function Entered(r: Request): real { if AllowsBaseline(r.edition) then r.baselineSlots else 0.0 }

  function DemandOf(r: Request): seq<real>
    requires ValidRequest(r)
  {
    Demand(Entered(r), r.windows)
  }

  /** The plan after the edition's rules, rounding to 50 slots and the discount. */
  function PlanOf(r: Request): Plan {
    Plan(RoundUp50(Entered(r)),
         RoundUp50(if AllowsCommitment(r.edition) then r.committedSlots else 0.0),
         EditionCap(r.edition),
         Rates(Discounted(r.paygRate, r.discountPct), Discounted(r.commitRate, r.discountPct)))
  }

  /** What the same request would cost a month with another commitment. */
  function MonthlyAt(r: Request, committed: real): real
    requires ValidRequest(r)
  {
    Monthly(PlanOf(r).(committed := committed), DemandOf(r)).total
  }

  datatype SweepPoint = SweepPoint(committed: real, monthly: real)

  datatype Estimate = Estimate(bill: Bill, sweep: seq<SweepPoint>, best: Option<SweepPoint>)

  /** The cheapest of all multiples of 50 slots, and of those as cheap the smallest. */
  ghost predicate Cheapest(r: Request, best: SweepPoint)
    requires ValidRequest(r)
  {
    && (exists k: nat :: best.committed == Slots(k))
    && best.monthly == MonthlyAt(r, best.committed)
    && forall k: nat :: best.monthly <= MonthlyAt(r, Slots(k)) && (best.monthly == MonthlyAt(r, Slots(k)) ==> best.committed <= Slots(k))
  }

  /** The first of the cheapest points of a sweep in ascending order. */
  predicate BestOf(sweep: seq<SweepPoint>, best: SweepPoint) {
    best in sweep && forall pt :: pt in sweep ==>
      best.monthly <= pt.monthly && (best.monthly == pt.monthly ==> best.committed <= pt.committed)
  }

  method SlotsEstimate(r: Request) returns (est: Estimate)
    requires ValidRequest(r)
    ensures IsBill(est.bill, PlanOf(r), DemandOf(r))
    ensures est.best.Some? <==> AllowsCommitment(r.edition)
    ensures est.best.Some? ==> Cheapest(r, est.best.value) && BestOf(est.sweep, est.best.value)
    ensures est.best == None ==> est.sweep == []
  {
    hide RoundUp50, Monthly, Steps, Peak, Demand, Cheapest, HoursUpTo, SumCosts, Priced, BestOf;
    var baseline, committed := r.baselineSlots, r.committedSlots;
    if !AllowsBaseline(r.edition) {
      baseline := 0.0;
    }
    if !AllowsCommitment(r.edition) {
      committed := 0.0;
    }
    baseline := RoundUp50(baseline);
    committed := RoundUp50(committed);
    var demand := BuildProfile(Entered(r), r.windows);
    var rates := Rates(Discounted(r.paygRate, r.discountPct), Discounted(r.commitRate, r.discountPct));
    var plan := Plan(baseline, committed, EditionCap(r.edition), rates);
    var bill := CostProfile(demand, plan);
    var sweep: seq<SweepPoint> := [];
    var best: Option<SweepPoint> := None;
    if AllowsCommitment(r.edition) {
      var top := RMax(RoundUp50(bill.peak), committed);
      ghost var topK := TopSteps(r);
      TopOf(r);
      var candidates := SweepCandidates(top, baseline, committed, demand, topK);
      sweep, best := Sweep(r, demand, plan, candidates);
      SweepFindsCheapest(r, candidates, sweep, best.value);
    }
    est := Estimate(bill, sweep, best);
  }

  predicate Priced(r: Request, candidates: seq<real>, sweep: seq<SweepPoint>)
    requires ValidRequest(r)
  {
    |sweep| == |candidates| && forall j :: 0 <= j < |sweep| ==> sweep[j] == SweepPoint(candidates[j], MonthlyAt(r, candidates[j]))
  }

  /** Prices every candidate and keeps the first that is strictly cheaper than all before it. */
  method Sweep(r: Request, demand: seq<real>, plan: Plan, candidates: seq<real>) returns (sweep: seq<SweepPoint>, best: Option<SweepPoint>)
    requires ValidRequest(r) && demand == DemandOf(r) && plan == PlanOf(r) && Ascending(candidates)
    ensures Priced(r, candidates, sweep)
    ensures best == None <==> candidates == []
    ensures best.Some? ==> BestOf(sweep, best.value)
  {
    hide PlanOf, Demand, Monthly, HoursUpTo, SumCosts, Peak;
    sweep, best := [], None;
    for i := 0 to |candidates|
      invariant Priced(r, candidates[..i], sweep)
      invariant i == 0 <==> best == None
      invariant i > 0 ==> BestOf(sweep, best.value)
    {
      var bill := CostProfile(demand, plan.(committed := candidates[i]));
      var pt := SweepPoint(candidates[i], bill.monthly.total);
      sweep := sweep + [pt];
      if best == None || pt.monthly < best.value.monthly {
        best := Some(pt);
      }
    }
    assert candidates[..|candidates|] == candidates;
  }

  function TopSteps(r: Request): nat
    requires ValidRequest(r)
  {
    var peak, committed := Steps(Peak(DemandOf(r))), Steps(if AllowsCommitment(r.edition) then r.committedSlots else 0.0);
    if peak < committed then committed else peak
  }

  /** What an edition allows: Standard takes no baseline and no commitment and is cut at 1600 slots; the others take both in full increments, without a cap. */
  lemma PlanRules(r: Request)
    requires ValidRequest(r)
    ensures r.edition == Standard ==> PlanOf(r).baseline == PlanOf(r).committed == 0.0 && PlanOf(r).maxSlots == 1600.0 && Entered(r) == 0.0
    ensures r.edition != Standard ==>
              PlanOf(r).baseline == Slots(Steps(r.baselineSlots)) && PlanOf(r).committed == Slots(Steps(r.committedSlots)) &&
              PlanOf(r).maxSlots == 0.0 && Entered(r) == r.baselineSlots
  {
    hide Steps, Ceiling;
    RoundUpIsLeast(r.baselineSlots, 0);
    RoundUpIsLeast(r.committedSlots, 0);
  }

  lemma TopOf(r: Request)
    requires ValidRequest(r)
    ensures RMax(RoundUp50(Peak(DemandOf(r))), PlanOf(r).committed) == Slots(TopSteps(r))
  {
    hide RoundUp50, Steps, Peak, Demand;
    RoundUpIsLeast(Peak(DemandOf(r)), 0);
    RoundUpIsLeast(if AllowsCommitment(r.edition) then r.committedSlots else 0.0, 0);
  }

  lemma StepsMonotone(x: real, y: real)
    requires x <= y
    ensures Steps(x) <= Steps(y)
  {
    hide Steps, RoundUp50;
    RoundUpIsLeast(y, Steps(y));
    RoundUpIsLeast(x, Steps(y));
  }

  /** A discount of pct per cent takes exactly that share off, at most everything. */
  lemma DiscountedExact(rate: real, pct: real)
    ensures 0.0 <= pct <= 100.0 ==> rate - Discounted(rate, pct) == rate * (pct / 100.0)
    ensures pct < 0.0 ==> Discounted(rate, pct) == rate
    ensures pct > 100.0 ==> Discounted(rate, pct) == 0.0
  {
    if 0.0 <= pct <= 100.0 {
      Distribute(rate, 1.0 - pct / 100.0, pct / 100.0);
    }
  }

  lemma DiscountedNonNegative(rate: real, pct: real)
    requires rate >= 0.0
    ensures Discounted(rate, pct) >= 0.0
  {
    var f := 1.0 - RMin(100.0, RMax(0.0, pct)) / 100.0;
    assert f >= 0.0;
    NonNegativeProduct(rate, f);
  }

  /** Every corner of the cost is among the candidates. */
  lemma CornersAreCandidates(r: Request, candidates: seq<real>, v: nat)
    requires ValidRequest(r) && 0.0 in candidates
    requires forall d :: d in [PlanOf(r).baseline, PlanOf(r).committed] + DemandOf(r) && RoundUp50(d) <= Slots(TopSteps(r)) ==> RoundUp50(d) in candidates
    requires Corner(Levels(Steps(Entered(r)), DemandOf(r)), v)
    ensures v <= TopSteps(r) && Slots(v) in candidates
  {
    hide RoundUp50, Steps, Peak;
    var demand := DemandOf(r);
    var b := Steps(Entered(r));
    if v != 0 {
      var i :| 0 <= i < |demand| && v == Levels(b, demand)[i];
      DemandFloor(Entered(r), r.windows, i);
      StepsMonotone(Entered(r), demand[i]);
      StepsMonotone(demand[i], Peak(demand));
      RoundUpIsLeast(demand[i], 0);
      assert demand[i] in [PlanOf(r).baseline, PlanOf(r).committed] + demand;
    }
  }

  lemma LevelsBelowTop(r: Request)
    requires ValidRequest(r)
    ensures var ms := Levels(Steps(Entered(r)), DemandOf(r)); forall i :: 0 <= i < |ms| ==> ms[i] <= TopSteps(r)
  {
    hide RoundUp50, Steps, Peak;
    var demand := DemandOf(r);
    forall i | 0 <= i < |demand| ensures Level(Steps(Entered(r)), demand[i]) <= TopSteps(r) {
      DemandFloor(Entered(r), r.windows, i);
      StepsMonotone(Entered(r), demand[i]);
      StepsMonotone(demand[i], Peak(demand));
    }
  }

  lemma MonthlyAtCost(r: Request, k: nat)
    requires ValidRequest(r) && AllowsCommitment(r.edition)
    ensures MonthlyAt(r, Slots(k)) == UNIT * Cost(PlanOf(r).rates, Levels(Steps(Entered(r)), DemandOf(r)), k)
  {
    hide RoundUp50, Steps, Monthly, Cost;
    RoundUpIsLeast(Entered(r), 0);
    MonthlyTotal(PlanOf(r).(committed := Slots(k)), Steps(Entered(r)), k, DemandOf(r));
  }

  lemma SweepFindsCheapest(r: Request, candidates: seq<real>, sweep: seq<SweepPoint>, best: SweepPoint)
    requires ValidRequest(r) && AllowsCommitment(r.edition) && 0.0 in candidates
    requires forall x :: x in candidates ==> Increment(x, TopSteps(r))
    requires forall d :: d in [PlanOf(r).baseline, PlanOf(r).committed] + DemandOf(r) && RoundUp50(d) <= Slots(TopSteps(r)) ==> RoundUp50(d) in candidates
    requires Priced(r, candidates, sweep) && BestOf(sweep, best)
    ensures Cheapest(r, best)
  {
    hide RoundUp50, Steps, MonthlyAt, Cost, Levels, TopSteps, PlanOf, DemandOf, Corner;
    var j :| 0 <= j < |sweep| && sweep[j] == best;
    assert candidates[j] in candidates;
    forall k: nat ensures best.monthly <= MonthlyAt(r, Slots(k)) && (best.monthly == MonthlyAt(r, Slots(k)) ==> best.committed <= Slots(k)) {
      BeatsCommitment(r, candidates, sweep, best, k);
    }
  }

  lemma BeatsCommitment(r: Request, candidates: seq<real>, sweep: seq<SweepPoint>, best: SweepPoint, k: nat)
    requires ValidRequest(r) && AllowsCommitment(r.edition) && 0.0 in candidates
    requires forall d :: d in [PlanOf(r).baseline, PlanOf(r).committed] + DemandOf(r) && RoundUp50(d) <= Slots(TopSteps(r)) ==> RoundUp50(d) in candidates
    requires Priced(r, candidates, sweep) && BestOf(sweep, best)
    ensures best.monthly <= MonthlyAt(r, Slots(k)) && (best.monthly == MonthlyAt(r, Slots(k)) ==> best.committed <= Slots(k))
  {
    hide RoundUp50, Steps, MonthlyAt, Cost, Levels, TopSteps, DemandOf, Corner, Discounted, Entered;
    DiscountedNonNegative(r.paygRate, r.discountPct);
    DiscountedNonNegative(r.commitRate, r.discountPct);
    LevelsBelowTop(r);
    var ms := Levels(Steps(Entered(r)), DemandOf(r));
    var v := CornerIsEnough(PlanOf(r).rates, ms, k, TopSteps(r));
    CornersAreCandidates(r, candidates, v);
    MonthlyAtCost(r, v);
    MonthlyAtCost(r, k);
    var j :| 0 <= j < |candidates| && candidates[j] == Slots(v);
    assert sweep[j] in sweep;
  }
}
