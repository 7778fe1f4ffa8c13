/**
  Exact decimal rendering of integer amounts.

  Digits are sequences of numbers until the very end, so that reading an amount
  back is a statement about numerals and not about characters.
 */
module FormatUnits {
  import opened Wrappers
  import opened Numerals

  function DigitChar(d: nat): (c: char)
    requires d < 10
    ensures '0' <= c <= '9' && c as int - '0' as int == d
  {
    (d + '0' as int) as char
  }

  function DigitString(ds: seq<nat>): (s: string)
    requires Below(10, ds)
    ensures |s| == |ds|
  {
    seq(|ds|, i requires 0 <= i < |ds| => DigitChar(ds[i]))
  }

  /** Decimal digits of n, with one zero for zero. */
  function Decimal(n: nat): (ds: seq<nat>)
    ensures |ds| >= 1 && Below(10, ds)
  {
    if n == 0 then [0] else FromNat(10, n)
  }

  function TrimZeros(ds: seq<nat>): (r: seq<nat>)
    ensures r <= ds
    ensures r != [] ==> r[|r| - 1] != 0
    ensures forall i :: |r| <= i < |ds| ==> ds[i] == 0
  {
    if ds != [] && ds[|ds| - 1] == 0 then TrimZeros(ds[..|ds| - 1]) else ds
  }

  function Padded(n: nat, decimals: nat): (ds: seq<nat>)
    ensures |ds| > decimals && Below(10, ds)
  {
    var s := Decimal(n);
    if |s| <= decimals then Zeros(decimals - |s| + 1) + s else s
  }

  function Whole(n: nat, decimals: nat): (w: seq<nat>)
    ensures w != [] && Below(10, w)
  {
    var s := Padded(n, decimals);
    s[..|s| - decimals]
  }

  function Fraction(n: nat, decimals: nat): (f: seq<nat>)
    ensures |f| <= decimals && Below(10, f)
    ensures f != [] ==> f[|f| - 1] != 0
  {
    var s := Padded(n, decimals);
    TrimZeros(s[|s| - decimals..])
  }

  /** The sign is the caller's: only the magnitude is rendered. */
  function FormatUnits(n: int, decimals: nat): string {
    var m: nat := if n < 0 then -n else n;
    var whole, frac := DigitString(Whole(m, decimals)), DigitString(Fraction(m, decimals));
    if frac == "" then whole else whole + "." + frac
  }

  // ---------------------------------------------------------------- reading a rendering back

  function DigitOf(c: char): nat { if '0' <= c <= '9' then c as int - '0' as int else 0 }

  function DigitsOf(s: string): (ds: seq<nat>)
    ensures |ds| == |s|
  {
    seq(|s|, i requires 0 <= i < |s| => DigitOf(s[i]))
  }

  /** Position of the point, |s| when there is none. */
  function PointAt(s: string): (p: nat)
    ensures p <= |s|
  {
    if s == "" || s[0] == '.' then 0 else 1 + PointAt(s[1..])
  }

  /** The amount a decimal string with at most `decimals` fraction digits denotes, in units of 10^-decimals. */
  function Scale(s: string, decimals: nat): Option<nat> {
    var p := PointAt(s);
    var frac := if p < |s| then s[p + 1..] else "";
    if |frac| > decimals then None
    else Some(ToNat(10, DigitsOf(s[..p])) * Pow(10, decimals) + ToNat(10, DigitsOf(frac)) * Pow(10, decimals - |frac|))
  }

  lemma DigitsOfString(ds: seq<nat>)
    requires Below(10, ds)
    ensures DigitsOf(DigitString(ds)) == ds
    ensures '.' !in DigitString(ds)
  {
  }

  lemma {:induction false} PointAfter(w: string, rest: string)
    requires '.' !in w
    ensures PointAt(w + "." + rest) == |w| && PointAt(w) == |w|
  {
    if w == "" {
    } else {
      PointAfter(w[1..], rest);
      assert (w + "." + rest)[1..] == w[1..] + "." + rest;
    }
  }

  /** Two numerals side by side. */
  lemma {:induction false} ToNatConcat(base: nat, a: seq<nat>, b: seq<nat>)
    ensures ToNat(base, a + b) == ToNat(base, a) * Pow(base, |b|) + ToNat(base, b)
  {
    if b == [] {
      assert a + b == a;
    } else {
      var init, d := b[..|b| - 1], b[|b| - 1];
      ToNatConcat(base, a, init);
      assert (a + b)[..|a| + |b| - 1] == a + init;
      MulAssoc(ToNat(base, a), Pow(base, |init|), base);
      TimesSum(ToNat(base, a) * Pow(base, |init|), ToNat(base, init), base);
    }
  }

  lemma TimesSum(x: nat, y: nat, k: nat)
    ensures (x + y) * k == x * k + y * k
  {
  }

  lemma ZerosAreNothing(base: nat, k: nat)
    ensures ToNat(base, Zeros(k)) == 0
  {
    ToNatDropZeros(base, Zeros(k), k);
    assert Zeros(k)[k..] == [];
  }

  lemma PaddedValue(n: nat, decimals: nat)
    ensures ToNat(10, Padded(n, decimals)) == n
  {
    hide ToNat, Decimal, Zeros;
    var s := Decimal(n);
    DecimalValue(n);
    if |s| <= decimals {
      var k := decimals - |s| + 1;
      ToNatDropZeros(10, Zeros(k) + s, k);
      assert (Zeros(k) + s)[k..] == s;
    }
  }

  lemma DecimalValue(n: nat)
    ensures ToNat(10, Decimal(n)) == n
  {
    hide FromNat;
    if n > 0 {
      ToNatFromNat(10, n);
    }
  }

  lemma FractionValue(n: nat, decimals: nat)
    ensures var s, f := Padded(n, decimals), Fraction(n, decimals);
            ToNat(10, s[|s| - decimals..]) == ToNat(10, f) * Pow(10, decimals - |f|)
  {
    hide ToNat, Pow, Padded;
    var s, f := Padded(n, decimals), Fraction(n, decimals);
    var full := s[|s| - decimals..];
    assert full == f + Zeros(decimals - |f|);
    ToNatConcat(10, f, Zeros(decimals - |f|));
    ZerosAreNothing(10, decimals - |f|);
  }

  lemma ScaleWhole(w: seq<nat>, decimals: nat)
    requires Below(10, w)
    ensures Scale(DigitString(w), decimals) == Some(ToNat(10, w) * Pow(10, decimals) + ToNat(10, []) * Pow(10, decimals))
  {
    hide ToNat, Pow;
    var s := DigitString(w);
    DigitsOfString(w);
    PointAfter(s, "");
    assert s[..|s|] == s && DigitsOf("") == [];
  }

  lemma ScalePoint(w: seq<nat>, f: seq<nat>, decimals: nat)
    requires Below(10, w) && Below(10, f) && |f| <= decimals
    ensures Scale(DigitString(w) + "." + DigitString(f), decimals) ==
            Some(ToNat(10, w) * Pow(10, decimals) + ToNat(10, f) * Pow(10, decimals - |f|))
  {
    hide ToNat, Pow;
    var whole, frac := DigitString(w), DigitString(f);
    var s := whole + "." + frac;
    DigitsOfString(w);
    DigitsOfString(f);
    PointAfter(whole, frac);
    assert s[..|whole|] == whole && s[|whole| + 1..] == frac;
  }

  /** Reading a rendering back gives the magnitude exactly: no dust is rounded away. */
  lemma FormatExact(n: int, decimals: nat)
    ensures Scale(FormatUnits(n, decimals), decimals) == Some(if n < 0 then -n else n)
  {
    hide ToNat, Pow, Scale, Whole, Fraction;
    var m: nat := if n < 0 then -n else n;
    SplitValue(m, decimals);
    if Fraction(m, decimals) == [] {
      ScaleWhole(Whole(m, decimals), decimals);
    } else {
      ScalePoint(Whole(m, decimals), Fraction(m, decimals), decimals);
    }
  }

  lemma SplitValue(n: nat, decimals: nat)
    ensures var w, f := Whole(n, decimals), Fraction(n, decimals);
            ToNat(10, w) * Pow(10, decimals) + ToNat(10, f) * Pow(10, decimals - |f|) == n
  {
    hide ToNat, Pow, Fraction;
    var s := Padded(n, decimals);
    PaddedValue(n, decimals);
    FractionValue(n, decimals);
    ToNatConcat(10, s[..|s| - decimals], s[|s| - decimals..]);
    assert s == s[..|s| - decimals] + s[|s| - decimals..];
  }

  /** Different non-negative amounts never render alike, and only zero renders as "0". */
  lemma FormatInjective(m: nat, n: nat, decimals: nat)
    ensures FormatUnits(m, decimals) == FormatUnits(n, decimals) ==> m == n
    ensures FormatUnits(m, decimals) == "0" <==> m == 0
  {
    hide FormatUnits, Scale;
    FormatExact(m, decimals);
    FormatExact(n, decimals);
    FormatExact(0, decimals);
    ZeroRendering(decimals);
  }

  lemma ZeroRendering(decimals: nat)
    ensures FormatUnits(0, decimals) == "0"
  {
    var s := Padded(0, decimals);
    assert s == Zeros(decimals + 1);
    assert Whole(0, decimals) == [0];
    assert Fraction(0, decimals) == [];
  }

  /** No needless zeros: none ends the fraction, and none leads the whole part unless it is the only digit. */
  lemma NoNeedlessZeros(n: nat, decimals: nat)
    ensures var w, f := Whole(n, decimals), Fraction(n, decimals);
            (f != [] ==> f[|f| - 1] != 0) && (|w| > 1 ==> w[0] != 0)
  {
    hide FromNat;
  }
}
