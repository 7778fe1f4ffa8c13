/** Scheduled Bitcoin issuance in exact satoshis. */
module Issuance {
  import opened Wrappers

  const ERA: nat := 210_000
  const INITIAL: nat := 5_000_000_000
  const INT64_MAX: int := 0x7fff_ffff_ffff_ffff

  /** A right shift of a non-negative number: k halvings, each rounded down. */
  function Shift(x: nat, k: nat): nat {
    if k == 0 then x else Shift(x, k - 1) / 2
  }

  function SubsidySats(h: int): nat {
    if h < 0 then 0
    else if h / ERA >= 64 then 0
    else Shift(INITIAL, h / ERA)
  }

  /** What blocks minH..maxH issue, one block at a time; there are none below height 0. */
  function Issued(minH: int, maxH: int): nat
    decreases maxH - minH
  {
    if maxH < minH then 0 else Issued(minH, maxH - 1) + SubsidySats(maxH)
  }

  function Supply(h: int): nat { Issued(0, h) }

  // ---------------------------------------------------------------- the loop over halving eras

  lemma {:induction false} ShiftMonotone(x: nat, j: nat, k: nat)
    requires j <= k
    ensures Shift(x, k) <= Shift(x, j)
  {
    if j == k {
    } else {
      ShiftMonotone(x, j, k - 1);
    }
  }

  lemma SameEra(h: nat, g: nat)
    requires h <= g < (h / ERA + 1) * ERA
    ensures g / ERA == h / ERA && SubsidySats(g) == SubsidySats(h)
  {
    hide Shift;
  }

  /** Within one era every block issues the same. */
  lemma {:induction false} IssuedInEra(h: nat, last: int)
    requires h - 1 <= last < (h / ERA + 1) * ERA
    ensures Issued(h, last) == (last - h + 1) * SubsidySats(h)
    decreases last - h + 1
  {
    hide SubsidySats;
    if h > last {
    } else {
      IssuedInEra(h, last - 1);
      SameEra(h, last);
      var s, n := SubsidySats(h), last - h;
      assert (n + 1) * s == n * s + s;
    }
  }

  /** Issuance over adjacent ranges adds up. */
  lemma {:induction false} IssuedAdditive(a: int, m: int, b: int)
    requires a <= m + 1 <= b + 1
    ensures Issued(a, b) == Issued(a, m) + Issued(m + 1, b)
    decreases b - m
  {
    hide SubsidySats;
    if m == b {
    } else {
      IssuedAdditive(a, m, b - 1);
    }
  }

  /** Blocks below zero issue nothing, so starting at zero instead loses nothing. */
  lemma {:induction false} NoBlocksBelowZero(a: int, b: int)
    requires a <= 0
    ensures Issued(a, b) == Issued(0, b)
    decreases b - a
  {
    if a > b {
    } else {
      NoBlocksBelowZero(a, b - 1);
    }
  }

  /**
    The program's loop takes a whole era at a step, yet returns the block-by-block
    sum, for every range. No intermediate value overflows 64 bits so long as an
    era fits above maxH.
   */
  method ScheduledIssuance(minH: int, maxH: int) returns (sats: nat)
    ensures sats == Issued(minH, maxH)
  {
    hide SubsidySats, Issued;
    var h := minH;
    if h < 0 {
      h := 0;
    }
    ghost var start := h;
    if minH <= 0 {
      NoBlocksBelowZero(minH, maxH);
    }
    sats := 0;
    NothingIssued(start, maxH);
    while h <= maxH
      invariant h >= start && (start <= maxH ==> h <= maxH + 1) && (start > maxH ==> h == start)
      invariant sats == Issued(start, h - 1)
      decreases maxH + 1 - h
    {
      var last := Min(maxH, (h / ERA + 1) * ERA - 1);
      NextEraAhead(h);
      FitsInt64(start, h, maxH);
      IssuedInEra(h, last);
      IssuedAdditive(start, h - 1, last);
      sats := sats + (last - h + 1) * SubsidySats(h);
      h := last + 1;
    }
  }

  lemma NothingIssued(start: int, maxH: int)
    ensures Issued(start, start - 1) == 0 && (maxH < start ==> Issued(start, maxH) == 0)
  {
  }

  lemma NextEraAhead(h: nat)
    ensures h < (h / ERA + 1) * ERA <= h + ERA
  {
  }

  /** The running sum, the era's product and the heights all fit, the sum because it is part of the supply. */
  lemma FitsInt64(start: nat, h: nat, maxH: int)
    requires start <= h <= maxH
    ensures var last := Min(maxH, (h / ERA + 1) * ERA - 1);
            var product := (last - h + 1) * SubsidySats(h);
            product <= ERA * INITIAL <= INT64_MAX &&
            Issued(start, h - 1) + product == Issued(start, last) <= CAP <= INT64_MAX &&
            (maxH <= INT64_MAX - ERA ==> (h / ERA + 1) * ERA <= INT64_MAX && last + 1 <= INT64_MAX)
  {
    hide Shift, SubsidySats, Issued;
    NextEraAhead(h);
    SubsidyBound(h);
    var last := Min(maxH, (h / ERA + 1) * ERA - 1);
    ProductBound(last - h + 1, SubsidySats(h), ERA, INITIAL);
    IssuedInEra(h, last);
    IssuedAdditive(start, h - 1, last);
    IssuedAdditive(0, start - 1, last);
    SupplyCap(last);
  }

  lemma SubsidyBound(h: nat)
    ensures SubsidySats(h) <= INITIAL
  {
    hide Shift;
    ShiftMonotone(INITIAL, 0, h / ERA);
    ShiftZero(INITIAL);
  }

  lemma ShiftZero(x: nat)
    ensures Shift(x, 0) == x
  {
  }

  lemma ProductBound(a: nat, b: nat, c: nat, d: nat)
    requires a <= c && b <= d
    ensures a * b <= c * d
  {
    assert a * b <= a * d;
    assert a * d <= c * d;
  }

  // ---------------------------------------------------------------- the supply and its cap

  lemma SupplyMonotone(g: int, h: int)
    requires g <= h
    ensures Supply(g) <= Supply(h)
  {
    hide SubsidySats;
    if g >= -1 {
      IssuedAdditive(0, g, h);
    }
  }

  /** What the first e eras issue. */
  function EraSum(e: nat): nat {
    if e == 0 then 0 else EraSum(e - 1) + ERA * SubsidySats((e - 1) * ERA)
  }

  lemma {:induction false} SupplyOfEras(e: nat)
    ensures Supply(e * ERA - 1) == EraSum(e)
  {
    hide SubsidySats;
    if e == 0 {
    } else {
      var h := (e - 1) * ERA;
      SupplyOfEras(e - 1);
      EraStart(e - 1);
      IssuedInEra(h, e * ERA - 1);
      IssuedAdditive(0, h - 1, e * ERA - 1);
    }
  }

  lemma EraStart(e: nat)
    ensures (e * ERA) / ERA == e
  {
  }

  /** The 34th era, from height 6,930,000 on, issues nothing. */
  lemma NothingAfter33Eras(h: int)
    requires h >= 33 * ERA
    ensures SubsidySats(h) == 0
  {
    hide Shift;
    assert h / ERA >= 33;
    ShiftMonotone(INITIAL, 33, h / ERA);
    ShiftSum33();
  }

  lemma {:induction false} SupplyStops(h: int)
    requires h >= 33 * ERA - 1
    ensures Supply(h) == Supply(33 * ERA - 1)
    decreases h
  {
    hide SubsidySats;
    if h == 33 * ERA - 1 {
    } else {
      SupplyStops(h - 1);
      NothingAfter33Eras(h);
    }
  }

  const CAP: nat := 2_099_999_997_690_000

  lemma EraSubsidy(e: nat)
    requires e < 64
    ensures SubsidySats(e * ERA) == Shift(INITIAL, e)
  {
    hide Shift;
    EraStart(e);
  }

  function ShiftSum(e: nat): nat {
    if e == 0 then 0 else ShiftSum(e - 1) + Shift(INITIAL, e - 1)
  }

  lemma {:induction false} EraSumShifts(e: nat)
    requires e <= 64
    ensures EraSum(e) == ERA * ShiftSum(e)
  {
    hide Shift, SubsidySats;
    if e == 0 {
    } else {
      EraSumShifts(e - 1);
      EraSubsidy(e - 1);
    }
  }

  lemma FourEras(e: nat)
    ensures var x := Shift(INITIAL, e);
            Shift(INITIAL, e + 4) == x / 2 / 2 / 2 / 2 &&
            ShiftSum(e + 4) == ShiftSum(e) + x + x / 2 + x / 2 / 2 + x / 2 / 2 / 2
  {
    assert Shift(INITIAL, e + 2) == Shift(INITIAL, e + 1) / 2;
    assert ShiftSum(e + 2) == ShiftSum(e) + Shift(INITIAL, e) + Shift(INITIAL, e + 1);
    assert Shift(INITIAL, e + 4) == Shift(INITIAL, e + 3) / 2;
    assert ShiftSum(e + 4) == ShiftSum(e + 2) + Shift(INITIAL, e + 2) + Shift(INITIAL, e + 3);
  }

  /** Thirty-two eras by fours, then the one that issues a satoshi a block. */
  lemma ShiftSum33()
    ensures ShiftSum(33) == 9999999989 && Shift(INITIAL, 32) == 1 && Shift(INITIAL, 33) == 0
  {
    hide Shift, ShiftSum;
    ShiftZero(INITIAL);
    NoEras();
    FourEras(0);
    assert Shift(INITIAL, 4) == 312500000 && ShiftSum(4) == 9375000000;
    FourEras(4);
    assert Shift(INITIAL, 8) == 19531250 && ShiftSum(8) == 9960937500;
    FourEras(8);
    assert Shift(INITIAL, 12) == 1220703 && ShiftSum(12) == 9997558593;
    FourEras(12);
    assert Shift(INITIAL, 16) == 76293 && ShiftSum(16) == 9999847409;
    FourEras(16);
    assert Shift(INITIAL, 20) == 4768 && ShiftSum(20) == 9999990457;
    FourEras(20);
    assert Shift(INITIAL, 24) == 298 && ShiftSum(24) == 9999999397;
    FourEras(24);
    assert Shift(INITIAL, 28) == 18 && ShiftSum(28) == 9999999955;
    FourEras(28);
    ShiftStep(INITIAL, 32);
    SumStep(32);
  }

  lemma SumStep(e: nat)
    ensures ShiftSum(e + 1) == ShiftSum(e) + Shift(INITIAL, e)
  {
  }

  lemma NoEras()
    ensures ShiftSum(0) == 0
  {
  }

  /** No height's supply exceeds 20,999,999.9769 BTC, and exactly the heights from 6,929,999 on reach it. */
  lemma SupplyCap(h: int)
    ensures Supply(h) <= CAP
    ensures Supply(h) == CAP <==> h >= 33 * ERA - 1
  {
    hide Shift, SubsidySats, Supply;
    var last := 33 * ERA - 1;
    SupplyOfEras(33);
    EraSumShifts(33);
    ShiftSum33();
    if h >= last {
      SupplyStops(h);
    } else {
      StillIssuing(h);
    }
  }

  lemma StillIssuing(h: int)
    requires h < 33 * ERA - 1
    ensures Supply(h) < Supply(33 * ERA - 1)
  {
    hide Shift, SubsidySats;
    var last := 33 * ERA - 1;
    SupplyMonotone(h, last - 1);
    assert last / ERA == 32;
    LastEra(last);
  }

  lemma LastEra(h: nat)
    requires h / ERA == 32
    ensures SubsidySats(h) == 1
  {
    hide Shift;
    ShiftSum33();
  }

  // ---------------------------------------------------------------- the halving countdown

  datatype Halving = Halving(nextHeight: nat, blocksRemaining: nat, subsidyNow: nat, subsidyNext: nat, supply: nat)

  /** None at an unknown tip. */
  function HalvingAt(height: int): Option<Halving> {
    if height <= 0 then None
    else
      NextEraAhead(height);
      var next := (height / ERA + 1) * ERA;
      Some(Halving(next, next - height, SubsidySats(height), SubsidySats(next), Supply(height)))
  }

  /** There is a countdown at every height but an unknown or empty tip. */
  lemma HalvingKnown(height: int)
    ensures HalvingAt(height).None? <==> height < 1
  {
  }

  /** The subsidy stands until the announced height and is halved there. */
  lemma HalvingIsNext(height: int, g: int)
    requires height > 0
    ensures var v := HalvingAt(height).value;
            1 <= v.blocksRemaining <= ERA && v.nextHeight == height + v.blocksRemaining &&
            (height <= g < v.nextHeight ==> SubsidySats(g) == v.subsidyNow) &&
            v.subsidyNext == v.subsidyNow / 2 &&
            Supply(v.nextHeight - 1) == v.supply + (v.blocksRemaining - 1) * v.subsidyNow
  {
    hide SubsidySats;
    var next := (height / ERA + 1) * ERA;
    NextEraAhead(height);
    if height <= g < next {
      SameEra(height, g);
    }
    HalvedAtNext(height);
    if height + 1 < next {
      SameEra(height, height + 1);
      assert (height + 1) / ERA == height / ERA;
    }
    IssuedInEra(height, next - 1);
    IssuedInEra(height, height);
    IssuedAdditive(0, height - 1, height);
    IssuedAdditive(0, height - 1, next - 1);
    var n, s := next - height, SubsidySats(height);
    assert n * s == (n - 1) * s + s;
  }

  lemma HalvedAtNext(height: nat)
    ensures SubsidySats((height / ERA + 1) * ERA) == SubsidySats(height) / 2
  {
    hide Shift;
    var e := height / ERA;
    EraStart(e + 1);
    assert (e + 1) * ERA >= 0;
    if e >= 63 {
      ShiftMonotone(INITIAL, 33, e);
      ShiftSum33();
    }
    ShiftStep(INITIAL, e);
  }

  lemma ShiftStep(x: nat, k: nat)
    ensures Shift(x, k + 1) == Shift(x, k) / 2
  {
  }
}
