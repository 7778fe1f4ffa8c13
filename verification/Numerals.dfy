/**
  Positional numerals, most significant digit first.

  A number has one shortest numeral, with no leading zero; any other numeral of
  it is that one behind some zeros. Everything the codecs say about lengths
  comes from comparing powers of their bases.

  Products of unknowns go through a few named laws.
 */
module Numerals {

  predicate Below(base: nat, ds: seq<nat>) {
    forall i :: 0 <= i < |ds| ==> ds[i] < base
  }

  function ToNat(base: nat, ds: seq<nat>): nat {
    if ds == [] then 0 else ToNat(base, ds[..|ds| - 1]) * base + ds[|ds| - 1]
  }

  /** The shortest numeral of n; zero has no digits. */
  function FromNat(base: nat, n: nat): (ds: seq<nat>)
    requires base >= 2
    ensures Below(base, ds)
    ensures ds != [] ==> ds[0] > 0
    ensures n > 0 <==> ds != []
  {
    if n == 0 then [] else
      DivShrinks(base, n);
      FromNat(base, n / base) + [n % base]
  }

  lemma MulLe(a: int, b: int, c: nat)
    requires a <= b
    ensures a * c <= b * c
  {
  }

  lemma MulSucc(a: int, c: int)
    ensures (a + 1) * c == a * c + c
  {
  }

  lemma DivShrinks(base: nat, n: nat)
    requires base >= 2 && n > 0
    ensures n / base < n
  {
    var q := n / base;
    assert n == q * base + n % base;
    MulLe(2, base, q);
  }

  lemma DivMod(base: nat, q: nat, r: nat)
    requires r < base
    ensures (q * base + r) / base == q && (q * base + r) % base == r
  {
    var n := q * base + r;
    QuotientUnique(base, q, r, n / base, n % base);
  }

  lemma QuotientUnique(base: nat, q: int, r: nat, q': int, r': nat)
    requires r < base && r' < base && q * base + r == q' * base + r'
    ensures q == q' && r == r'
  {
    if q' < q {
      MulLe(q' + 1, q, base);
      MulSucc(q', base);
    } else if q < q' {
      MulLe(q + 1, q', base);
      MulSucc(q, base);
    }
  }

  lemma ToNatSnoc(base: nat, ds: seq<nat>, d: nat)
    ensures ToNat(base, ds + [d]) == ToNat(base, ds) * base + d
  {
    assert (ds + [d])[..|ds|] == ds;
  }

  lemma {:induction false} ToNatFromNat(base: nat, n: nat)
    requires base >= 2
    ensures ToNat(base, FromNat(base, n)) == n
  {
    if n == 0 {
    } else {
      var q, r := n / base, n % base;
      assert n == q * base + r;
      DivShrinks(base, n);
      ToNatFromNat(base, q);
      ToNatSnoc(base, FromNat(base, q), r);
    }
  }

  lemma {:induction false} ToNatPositive(base: nat, ds: seq<nat>)
    requires base >= 2 && ds != [] && ds[0] > 0
    ensures ToNat(base, ds) > 0
  {
    if |ds| == 1 {
    } else {
      ToNatPositive(base, ds[..|ds| - 1]);
    }
  }

  lemma {:induction false} FromNatToNat(base: nat, ds: seq<nat>)
    requires base >= 2 && Below(base, ds) && (ds != [] ==> ds[0] > 0)
    ensures FromNat(base, ToNat(base, ds)) == ds
  {
    if ds == [] {
    } else {
      var init := ds[..|ds| - 1];
      FromNatToNat(base, init);
      DivMod(base, ToNat(base, init), ds[|ds| - 1]);
      ToNatPositive(base, ds);
      assert ds == init + [ds[|ds| - 1]];
    }
  }

  lemma LastDigit(base: nat, n: nat)
    requires base >= 2
    ensures n == 0 ==> FromNat(base, n) == []
    ensures n > 0 ==> FromNat(base, n) == FromNat(base, n / base) + [n % base]
  {
  }

  // ---------------------------------------------------------------- leading zeros

  function Zeros(k: nat): (z: seq<nat>)
    ensures |z| == k && forall i :: 0 <= i < k ==> z[i] == 0
  {
    seq(k, i => 0)
  }

  function LeadingZeros(ds: seq<nat>): (k: nat)
    ensures k <= |ds| && (forall i :: 0 <= i < k ==> ds[i] == 0) && (k < |ds| ==> ds[k] > 0)
  {
    if ds != [] && ds[0] == 0 then 1 + LeadingZeros(ds[1..]) else 0
  }

  lemma LeadingZerosUnique(ds: seq<nat>, k: nat)
    requires k <= |ds| && (forall i :: 0 <= i < k ==> ds[i] == 0) && (k < |ds| ==> ds[k] > 0)
    ensures LeadingZeros(ds) == k
  {
    if k < |ds| && k < LeadingZeros(ds) {
      assert false;
    }
  }

  lemma {:induction false} ToNatDropZeros(base: nat, ds: seq<nat>, k: nat)
    requires k <= |ds| && forall i :: 0 <= i < k ==> ds[i] == 0
    ensures ToNat(base, ds) == ToNat(base, ds[k..])
  {
    if |ds| == k {
      if ds != [] {
        ToNatDropZeros(base, ds[..|ds| - 1], k - 1);
        assert ds[..|ds| - 1][k - 1..] == [];
      }
    } else {
      var init := ds[..|ds| - 1];
      ToNatDropZeros(base, init, k);
      assert ds[k..][..|ds| - k - 1] == init[k..];
    }
  }

  // ---------------------------------------------------------------- sizes

  function Pow(base: nat, k: nat): nat {
    if k == 0 then 1 else Pow(base, k - 1) * base
  }

  /** Dividing by the base shifts a range of multiples of base^k down by one digit. */
  lemma DivRange(base: nat, n: nat, lo: nat, hi: nat)
    requires base >= 2 && lo * base <= n < hi * base
    ensures lo <= n / base < hi
  {
    var q := n / base;
    assert n == q * base + n % base;
    if q < lo {
      MulLe(q + 1, lo, base);
      MulSucc(q, base);
    }
    if q >= hi {
      MulLe(hi, q, base);
    }
  }

  /** n in [d * base^k, (d + 1) * base^k) has k + 1 digits, the first of them d. */
  lemma {:induction false} LeadingDigit(base: nat, n: nat, d: nat, k: nat)
    requires base >= 2 && 0 < d < base
    requires d * Pow(base, k) <= n < (d + 1) * Pow(base, k)
    ensures |FromNat(base, n)| == k + 1 && FromNat(base, n)[0] == d
    decreases k
  {
    PowPositive(base, k);
    MulLe(1, Pow(base, k), d);
    if k == 0 {
      assert n == d;
      DivMod(base, 0, d);
      assert FromNat(base, 0) == [];
    } else {
      var p := Pow(base, k - 1);
      assert d * Pow(base, k) == (d * p) * base && (d + 1) * Pow(base, k) == ((d + 1) * p) * base by {
        MulAssoc(d, p, base);
        MulAssoc(d + 1, p, base);
      }
      DivRange(base, n, d * p, (d + 1) * p);
      LeadingDigit(base, n / base, d, k - 1);
    }
  }

  lemma MulAssoc(a: int, b: int, c: int)
    ensures a * (b * c) == (a * b) * c
  {
  }

  lemma {:induction false} PowPositive(base: nat, k: nat)
    requires base > 0
    ensures Pow(base, k) > 0
  {
    if k == 0 {
    } else {
      PowPositive(base, k - 1);
    }
  }

  /** k digits stay below base^k. */
  lemma {:induction false} ToNatBound(base: nat, ds: seq<nat>)
    requires base >= 2 && Below(base, ds)
    ensures ToNat(base, ds) < Pow(base, |ds|)
  {
    if ds == [] {
    } else {
      var init := ds[..|ds| - 1];
      ToNatBound(base, init);
      MulLe(ToNat(base, init) + 1, Pow(base, |init|), base);
      MulSucc(ToNat(base, init), base);
    }
  }

  /** A value below base^k has at most k digits. */
  lemma {:induction false} FromNatBound(base: nat, n: nat, k: nat)
    requires base >= 2 && n < Pow(base, k)
    ensures |FromNat(base, n)| <= k
    decreases k
  {
    if n == 0 {
    } else {
      if k > 0 {
        DivRange(base, n, 0, Pow(base, k - 1));
        FromNatBound(base, n / base, k - 1);
      }
    }
  }

  /** Prepending a digit adds its place value. */
  lemma {:induction false} ToNatCons(base: nat, d: nat, ds: seq<nat>)
    ensures ToNat(base, [d] + ds) == d * Pow(base, |ds|) + ToNat(base, ds)
  {
    if ds == [] {
      assert ([d] + ds)[..0] == [];
    } else {
      var init := ds[..|ds| - 1];
      assert ([d] + ds)[..|ds|] == [d] + init;
      ToNatCons(base, d, init);
      MulAssoc(d, Pow(base, |init|), base);
      assert (d * Pow(base, |init|) + ToNat(base, init)) * base == (d * Pow(base, |init|)) * base + ToNat(base, init) * base;
    }
  }

  lemma {:induction false} PowAdd(base: nat, a: nat, b: nat)
    ensures Pow(base, a + b) == Pow(base, a) * Pow(base, b)
  {
    if b == 0 {
    } else {
      PowAdd(base, a, b - 1);
      MulAssoc(Pow(base, a), Pow(base, b - 1), base);
    }
  }

  lemma PowersOf58()
    ensures Pow(58, 33) == 15599970876632771988160814054146447252125923204784443097088
    ensures Pow(58, 42) == 115871260020027757769182095419415455604368209753879122781949129969750769664
  {
    hide Pow;
    Pow58Small();
    PowAdd(58, 7, 7);
    PowAdd(58, 14, 14);
    PowAdd(58, 28, 5);
    PowAdd(58, 28, 14);
  }

  lemma Pow58Small()
    ensures Pow(58, 5) == 656356768 && Pow(58, 7) == 2207984167552
  {
  }

  lemma PowersOf256()
    ensures Pow(256, 24) == 6277101735386680763835789423207666416102355444464034512896
    ensures Pow(256, 31) == 452312848583266388373324160190187140051835877600158453279131187530910662656
  {
    hide Pow;
    Pow256Small();
    PowAdd(256, 6, 6);
    PowAdd(256, 12, 12);
    PowAdd(256, 24, 7);
  }

  lemma Pow256Small()
    ensures Pow(256, 6) == 281474976710656 && Pow(256, 7) == 72057594037927936
  {
  }

  /** Where the powers of 58 and of 256 that bound address lengths lie. */
  lemma PowersInterleave()
    ensures Pow(58, 42) < Pow(256, 31)
    ensures 26 * Pow(58, 33) <= 65 * Pow(256, 24) && 66 * Pow(256, 24) <= 27 * Pow(58, 33)
  {
    hide Pow;
    PowersOf58();
    PowersOf256();
  }

  lemma {:induction false} PowMonotone(a: nat, b: nat, k: nat)
    requires a <= b
    ensures Pow(a, k) <= Pow(b, k)
  {
    if k == 0 {
    } else {
      PowMonotone(a, b, k - 1);
      MulLe(Pow(a, k - 1), Pow(b, k - 1), a);
      MulLe(a, b, Pow(b, k - 1));
    }
  }

  lemma EighthPowers()
    ensures Pow(256, 8) <= Pow(58, 11)
  {
    hide Pow;
    Pow58Small();
    Pow256Small();
    PowAdd(58, 7, 4);
    PowAdd(256, 7, 1);
    PowTiny();
  }

  lemma PowTiny()
    ensures Pow(58, 4) == 11316496 && Pow(256, 1) == 256
  {
  }

  lemma SmallPowers(k: nat)
    requires k < 8
    ensures Pow(256, k) <= Pow(58, (11 * k + 7) / 8)
  {
    hide Pow;
    FewDigits();
    MoreDigits();
    assert k == 0 || k == 1 || k == 2 || k == 3 || k == 4 || k == 5 || k == 6 || k == 7;
  }

  lemma FewDigits()
    ensures Pow(256, 0) <= Pow(58, 0) && Pow(256, 1) <= Pow(58, 2) && Pow(256, 2) <= Pow(58, 3) && Pow(256, 3) <= Pow(58, 5)
  {
  }

  lemma MoreDigits()
    ensures Pow(256, 4) <= Pow(58, 6) && Pow(256, 5) <= Pow(58, 7)
    ensures Pow(256, 6) <= Pow(58, 9) && Pow(256, 7) <= Pow(58, 10)
  {
    assert Pow(256, 5) == 1099511627776 && Pow(58, 7) == 2207984167552;
  }

  /** Eight bytes take at most eleven base-58 digits. */
  lemma {:induction false} PowElevenEighths(k: nat)
    ensures Pow(256, k) <= Pow(58, (11 * k + 7) / 8)
    decreases k
  {
    hide Pow;
    if k >= 8 {
      var e := (11 * (k - 8) + 7) / 8;
      PowElevenEighths(k - 8);
      PowAdd(256, k - 8, 8);
      PowAdd(58, e, 11);
      EighthPowers();
      MulLe(Pow(256, k - 8), Pow(58, e), Pow(256, 8));
      MulLe(Pow(256, 8), Pow(58, 11), Pow(58, e));
      assert (11 * k + 7) / 8 == e + 11;
    } else {
      SmallPowers(k);
    }
  }
}
