/**
  The checksum register of Bech32 and Bech32m: a 32-bit word into which five-bit
  symbols are pushed, with five generator words folded in whenever bits leave it.

  The register is linear over GF(2), so two runs differ by the run of their
  symbols' differences from zero. It never loses information either: one step
  is injective in the register, because the five bits that leave it show in the
  low five bits of the folded generator words.

  Operators on 32-bit words are named functions here, so that a proof can set
  their bits aside and use the laws it needs.
 */
module Bech32Register {

  type Symbol = bv5

  const BITS30: bv32 := 0x40000000

  // ---------------------------------------------------------------- one step

  function Xor(a: bv32, b: bv32): bv32 { a ^ b }

  /** The register with symbol v pushed in below it. */
  function Push(p: bv32, v: Symbol): bv32 { (p << 5) ^ (v as bv32) }

  function Low25(chk: bv32): bv32 { chk & 0x1ffffff }

  function Top(chk: bv32): bv32 { chk >> 25 }

  predicate Bit(top: bv32, i: nat)
    requires i < 5
  {
    if i == 0 then top & 1 == 1
    else if i == 1 then (top >> 1) & 1 == 1
    else if i == 2 then (top >> 2) & 1 == 1
    else if i == 3 then (top >> 3) & 1 == 1
    else (top >> 4) & 1 == 1
  }

  function Generator(i: nat): bv32
    requires i < 5
  {
    if i == 0 then 0x3b6a57b2 else if i == 1 then 0x26508e6d else if i == 2 then 0x1ea119fa
    else if i == 3 then 0x3d4233dd else 0x2a1462b3
  }

  function Tap(top: bv32, i: nat): bv32
    requires i < 5
  {
    if Bit(top, i) then Generator(i) else 0
  }

  /** The first i generator words that bits of top select. */
  function TapsUpTo(top: bv32, i: nat): bv32
    requires i <= 5
  {
    if i == 0 then 0 else Xor(TapsUpTo(top, i - 1), Tap(top, i - 1))
  }

  function PolyStep(chk: bv32, v: Symbol): bv32 {
    Xor(Push(Low25(chk), v), TapsUpTo(Top(chk), 5))
  }

  function Poly(chk: bv32, vs: seq<Symbol>): bv32
    decreases |vs|
  {
    if vs == [] then chk else Poly(PolyStep(chk, vs[0]), vs[1..])
  }

  method Bech32Polymod(values: seq<Symbol>) returns (chk: bv32)
    ensures chk == Poly(1, values)
  {
    hide Xor, Push, Low25, Top, Bit, Generator;
    chk := 1;
    for k := 0 to |values|
      invariant Poly(chk, values[k..]) == Poly(1, values)
    {
      assert values[k..][0] == values[k] && values[k..][1..] == values[k + 1..];
      var top := Top(chk);
      ghost var before := chk;
      chk := Push(Low25(chk), values[k]);
      ghost var shifted := chk;
      XorZero(shifted);
      for i := 0 to 5
        invariant chk == Xor(shifted, TapsUpTo(top, i))
      {
        XorAssoc(shifted, TapsUpTo(top, i), Generator(i));
        XorZero(TapsUpTo(top, i));
        if Bit(top, i) {
          chk := Xor(chk, Generator(i));
        }
      }
      assert chk == PolyStep(before, values[k]);
    }
  }

  // ---------------------------------------------------------------- exclusive or

  lemma XorAssoc(a: bv32, b: bv32, c: bv32)
    ensures Xor(Xor(a, b), c) == Xor(a, Xor(b, c))
  {
  }

  lemma XorCommutes(a: bv32, b: bv32)
    ensures Xor(a, b) == Xor(b, a)
  {
  }

  lemma XorZero(a: bv32)
    ensures Xor(a, 0) == a && Xor(0, a) == a && Xor(a, a) == 0
  {
  }

  lemma XorLeft(a: bv32, b: bv32, c: bv32)
    ensures Xor(a, Xor(b, c)) == Xor(b, Xor(a, c))
  {
  }

  lemma XorCancel(a: bv32, x: bv32, y: bv32)
    ensures Xor(a, x) == Xor(a, y) <==> x == y
  {
  }

  lemma XorBound(a: bv32, b: bv32)
    requires a < BITS30 && b < BITS30
    ensures Xor(a, b) < BITS30
  {
  }

  // ---------------------------------------------------------------- the register is linear over GF(2)

  lemma BitXor(a: bv32, b: bv32, i: nat)
    requires i < 5
    ensures Bit(Xor(a, b), i) == (Bit(a, i) != Bit(b, i))
  {
    hide Bit, Xor;
    if i == 0 {
      BitXor0(a, b);
    } else if i == 1 {
      BitXor1(a, b);
    } else if i == 2 {
      BitXor2(a, b);
    } else if i == 3 {
      BitXor3(a, b);
    } else {
      BitXor4(a, b);
    }
  }

  lemma BitXor0(a: bv32, b: bv32)
    ensures Bit(Xor(a, b), 0) == (Bit(a, 0) != Bit(b, 0))
  {
  }

  lemma BitXor1(a: bv32, b: bv32)
    ensures Bit(Xor(a, b), 1) == (Bit(a, 1) != Bit(b, 1))
  {
  }

  lemma BitXor2(a: bv32, b: bv32)
    ensures Bit(Xor(a, b), 2) == (Bit(a, 2) != Bit(b, 2))
  {
  }

  lemma BitXor3(a: bv32, b: bv32)
    ensures Bit(Xor(a, b), 3) == (Bit(a, 3) != Bit(b, 3))
  {
  }

  lemma BitXor4(a: bv32, b: bv32)
    ensures Bit(Xor(a, b), 4) == (Bit(a, 4) != Bit(b, 4))
  {
  }

  lemma TapXor(a: bv32, b: bv32, i: nat)
    requires i < 5
    ensures Tap(Xor(a, b), i) == Xor(Tap(a, i), Tap(b, i))
  {
    hide Xor, Bit, Generator;
    BitXor(a, b, i);
    XorZero(Generator(i));
    XorZero(0);
  }

  lemma {:induction false} TapsXor(a: bv32, b: bv32, i: nat)
    requires i <= 5
    ensures TapsUpTo(Xor(a, b), i) == Xor(TapsUpTo(a, i), TapsUpTo(b, i))
  {
    hide Xor, Tap;
    if i == 0 {
      XorZero(0);
    } else {
      TapsXor(a, b, i - 1);
      TapXor(a, b, i - 1);
      var p, q, x, y := TapsUpTo(a, i - 1), TapsUpTo(b, i - 1), Tap(a, i - 1), Tap(b, i - 1);
      XorAssoc(p, q, Xor(x, y));
      XorLeft(q, x, y);
      XorAssoc(p, x, Xor(q, y));
    }
  }

  lemma PushXor(p: bv32, q: bv32, v: Symbol, w: Symbol)
    ensures Push(Xor(p, q), v ^ w) == Xor(Push(p, v), Push(q, w))
  {
  }

  lemma SplitXor(c: bv32, d: bv32)
    ensures Low25(Xor(c, d)) == Xor(Low25(c), Low25(d)) && Top(Xor(c, d)) == Xor(Top(c), Top(d))
  {
  }

  lemma PolyStepXor(c: bv32, d: bv32, v: Symbol, w: Symbol)
    ensures PolyStep(Xor(c, d), v ^ w) == Xor(PolyStep(c, v), PolyStep(d, w))
  {
    hide Xor, Push, Low25, Top, TapsUpTo;
    SplitXor(c, d);
    PushXor(Low25(c), Low25(d), v, w);
    TapsXor(Top(c), Top(d), 5);
    var p, q, x, y := Push(Low25(c), v), Push(Low25(d), w), TapsUpTo(Top(c), 5), TapsUpTo(Top(d), 5);
    XorAssoc(p, q, Xor(x, y));
    XorLeft(q, x, y);
    XorAssoc(p, x, Xor(q, y));
  }

  // ---------------------------------------------------------------- no register is lost

  /** The generator words differ enough that any selection of them shows in the low five bits. */
  lemma TapsShow(top: bv32)
    requires 0 < top < 32
    ensures TapsUpTo(top, 5) & 31 != 0
  {
    var t1, t2, t3 := Tap(top, 0), Xor(Tap(top, 0), Tap(top, 1)), Xor(Xor(Tap(top, 0), Tap(top, 1)), Tap(top, 2));
    assert TapsUpTo(top, 0) == 0 && TapsUpTo(top, 1) == t1;
    assert TapsUpTo(top, 2) == t2;
    assert TapsUpTo(top, 3) == t3;
    assert TapsUpTo(top, 4) == Xor(t3, Tap(top, 3));
  }

  lemma PushLow(p: bv32)
    ensures Push(p, 0) & 31 == 0
  {
  }

  lemma XorLow(a: bv32, b: bv32)
    requires Xor(a, b) == 0 && a & 31 == 0
    ensures b & 31 == 0
  {
  }

  lemma TopAndLow(d: bv32)
    requires 0 < d < BITS30
    ensures Top(d) < 32 && (Top(d) == 0 ==> Low25(d) == d && Push(d, 0) != 0)
  {
  }

  lemma {:induction false} NoTaps(i: nat)
    requires i <= 5
    ensures TapsUpTo(0, i) == 0
  {
    if i == 0 {
    } else {
      NoTaps(i - 1);
    }
  }

  lemma PolyStepNonzero(d: bv32)
    requires 0 < d < BITS30
    ensures PolyStep(d, 0) != 0
  {
    hide Xor, Push, Low25, Top, TapsUpTo;
    TopAndLow(d);
    if Top(d) == 0 {
      NoTaps(5);
      XorZero(Push(d, 0));
    } else {
      TapsShow(Top(d));
      PushLow(Low25(d));
      if PolyStep(d, 0) == 0 {
        XorLow(Push(Low25(d), 0), TapsUpTo(Top(d), 5));
      }
    }
  }

  lemma PushBound(c: bv32, v: Symbol)
    ensures Push(Low25(c), v) < BITS30
  {
  }

  lemma {:induction false} TapsBound(top: bv32, i: nat)
    requires i <= 5
    ensures TapsUpTo(top, i) < BITS30
  {
    hide Xor, Bit;
    if i == 0 {
    } else {
      TapsBound(top, i - 1);
      XorBound(TapsUpTo(top, i - 1), Tap(top, i - 1));
    }
  }

  lemma PolyStepBound(c: bv32, v: Symbol)
    ensures PolyStep(c, v) < BITS30
  {
    hide Xor, Push, Low25, Top, TapsUpTo;
    PushBound(c, v);
    TapsBound(Top(c), 5);
    XorBound(Push(Low25(c), v), TapsUpTo(Top(c), 5));
  }

  lemma SymbolXorSelf(v: Symbol)
    ensures v ^ v == 0 && 0 ^ v == v
  {
  }

  lemma PolyStepInjective(c: bv32, d: bv32, v: Symbol)
    requires c < BITS30 && d < BITS30 && c != d
    ensures PolyStep(c, v) != PolyStep(d, v)
  {
    hide PolyStep, Xor;
    XorZero(d);
    XorZero(PolyStep(d, v));
    if Xor(c, d) == 0 {
      XorCommutes(c, d);
      XorCancel(d, c, d);
    }
    XorBound(c, d);
    PolyStepXor(c, d, v, v);
    SymbolXorSelf(v);
    PolyStepNonzero(Xor(c, d));
  }

  lemma {:induction false} PolyConcat(c: bv32, a: seq<Symbol>, b: seq<Symbol>)
    ensures Poly(c, a + b) == Poly(Poly(c, a), b)
    decreases |a|
  {
    hide PolyStep;
    if a == [] {
      assert a + b == b;
    } else {
      assert (a + b)[1..] == a[1..] + b;
      PolyConcat(PolyStep(c, a[0]), a[1..], b);
    }
  }

  lemma {:induction false} PolyBound(c: bv32, vs: seq<Symbol>)
    requires c < BITS30
    ensures Poly(c, vs) < BITS30
    decreases |vs|
  {
    hide PolyStep;
    if vs == [] {
    } else {
      PolyStepBound(c, vs[0]);
      PolyBound(PolyStep(c, vs[0]), vs[1..]);
    }
  }

  /** Different registers stay different through any common suffix. */
  lemma {:induction false} PolyInjective(c: bv32, d: bv32, vs: seq<Symbol>)
    requires c < BITS30 && d < BITS30 && c != d
    ensures Poly(c, vs) != Poly(d, vs)
    decreases |vs|
  {
    hide PolyStep;
    if vs == [] {
    } else {
      PolyStepInjective(c, d, vs[0]);
      PolyStepBound(c, vs[0]);
      PolyStepBound(d, vs[0]);
      PolyInjective(PolyStep(c, vs[0]), PolyStep(d, vs[0]), vs[1..]);
    }
  }

  // ---------------------------------------------------------------- six symbols fill the register

  /** Symbols pushed below p without folding anything in. */
  function ShiftIn(p: bv32, ws: seq<Symbol>): bv32
    decreases |ws|
  {
    if ws == [] then p else ShiftIn(Push(p, ws[0]), ws[1..])
  }

  function ZeroSymbols(k: nat): (z: seq<Symbol>)
    ensures |z| == k
  {
    seq(k, i => 0)
  }

  /** Below Room(k) a register takes k more symbols before a bit leaves it. */
  function Room(k: nat): bv32
    requires k <= 6
  {
    if k == 0 then 0x40000000 else if k == 1 then 0x2000000 else if k == 2 then 0x100000
    else if k == 3 then 0x8000 else if k == 4 then 0x400 else if k == 5 then 0x20 else 1
  }

  predicate Fits(p: bv32, k: nat)
    requires k <= 6
  {
    p < Room(k)
  }

  lemma FitsStep(p: bv32, w: Symbol, k: nat)
    requires 0 < k <= 6 && Fits(p, k)
    ensures Fits(Push(p, w), k - 1) && Fits(p, 1)
  {
  }

  lemma SmallRegister(p: bv32)
    requires Fits(p, 1)
    ensures Top(p) == 0 && Low25(p) == p
  {
  }

  lemma PolyStepShift(c: bv32, p: bv32, v: Symbol)
    requires Fits(p, 1)
    ensures PolyStep(Xor(c, p), v) == Xor(PolyStep(c, 0), Push(p, v))
  {
    hide Xor, Push, Low25, Top, TapsUpTo, Fits;
    PolyStepXor(c, p, 0, v);
    SymbolXorSelf(v);
    SmallRegister(p);
    NoTaps(5);
    XorZero(Push(p, v));
  }

  /** Up to six symbols enter the register untouched by the generator words. */
  lemma {:induction false} PolyShiftIn(c: bv32, p: bv32, ws: seq<Symbol>)
    requires |ws| <= 6 && Fits(p, |ws|)
    ensures Poly(Xor(c, p), ws) == Xor(Poly(c, ZeroSymbols(|ws|)), ShiftIn(p, ws))
    decreases |ws|
  {
    hide PolyStep, Xor, Push, Fits;
    if ws == [] {
    } else {
      FitsStep(p, ws[0], |ws|);
      PolyStepShift(c, p, ws[0]);
      PolyShiftIn(PolyStep(c, 0), Push(p, ws[0]), ws[1..]);
      assert ZeroSymbols(|ws|)[1..] == ZeroSymbols(|ws| - 1);
    }
  }

  lemma PushInjective(p: bv32, q: bv32, v: Symbol, w: Symbol)
    requires Fits(p, 1) && Fits(q, 1) && (p != q || v != w)
    ensures Push(p, v) != Push(q, w)
  {
  }

  lemma TailsDiffer(vs: seq<Symbol>, ws: seq<Symbol>)
    requires |vs| == |ws| > 0 && vs != ws && vs[0] == ws[0]
    ensures vs[1..] != ws[1..]
  {
    assert vs == [vs[0]] + vs[1..] && ws == [ws[0]] + ws[1..];
  }

  lemma {:induction false} ShiftInInjective(p: bv32, q: bv32, vs: seq<Symbol>, ws: seq<Symbol>)
    requires |vs| == |ws| <= 6 && Fits(p, |vs|) && Fits(q, |vs|)
    requires p != q || vs != ws
    ensures ShiftIn(p, vs) != ShiftIn(q, ws)
    decreases |vs|
  {
    hide Push, Fits;
    if vs == [] {
      assert ws == vs;
    } else {
      FitsStep(p, vs[0], |vs|);
      FitsStep(q, ws[0], |ws|);
      if p != q || vs[0] != ws[0] {
        PushInjective(p, q, vs[0], ws[0]);
      } else {
        TailsDiffer(vs, ws);
      }
      ShiftInInjective(Push(p, vs[0]), Push(q, ws[0]), vs[1..], ws[1..]);
    }
  }

  function Drop5(word: bv32): bv32 { word >> 5 }

  /** The upper 5 * i bits of a 30-bit word. */
  function Upper(word: bv32, i: nat): bv32
    requires i <= 6
    decreases 6 - i
  {
    if i == 6 then word else Drop5(Upper(word, i + 1))
  }

  function LowSymbol(word: bv32): Symbol { (word & 31) as bv5 }

  /** The six symbols of a 30-bit word, most significant first. */
  function Unpack(word: bv32): (ws: seq<Symbol>)
    ensures |ws| == 6
  {
    [LowSymbol(Upper(word, 1)), LowSymbol(Upper(word, 2)), LowSymbol(Upper(word, 3)),
     LowSymbol(Upper(word, 4)), LowSymbol(Upper(word, 5)), LowSymbol(Upper(word, 6))]
  }

  /** A word is its upper part with its low five bits pushed in. */
  lemma PushPart(word: bv32)
    ensures Push(Drop5(word), LowSymbol(word)) == word
  {
  }

  lemma FitsDrop(word: bv32, k: nat)
    requires k < 6 && Fits(word, k)
    ensures Fits(Drop5(word), k + 1)
  {
    hide Drop5;
    DropBound(word);
  }

  lemma DropBound(word: bv32)
    ensures word < 0x40000000 ==> Drop5(word) < 0x2000000
    ensures word < 0x2000000 ==> Drop5(word) < 0x100000
    ensures word < 0x100000 ==> Drop5(word) < 0x8000
    ensures word < 0x8000 ==> Drop5(word) < 0x400
    ensures word < 0x400 ==> Drop5(word) < 0x20
    ensures word < 0x20 ==> Drop5(word) < 1
  {
  }

  lemma {:induction false} UpperFits(word: bv32, i: nat)
    requires i <= 6 && Fits(word, 0)
    ensures Fits(Upper(word, i), 6 - i)
    decreases 6 - i
  {
    hide Fits, Drop5;
    if i == 6 {
    } else {
      UpperFits(word, i + 1);
      FitsDrop(Upper(word, i + 1), 6 - (i + 1));
    }
  }

  lemma {:induction false} ShiftInUpper(word: bv32, i: nat)
    requires i <= 6
    ensures ShiftIn(Upper(word, i), Unpack(word)[i..]) == word
    decreases 6 - i
  {
    hide Push, LowSymbol, Drop5;
    if i == 6 {
    } else {
      var ws := Unpack(word)[i..];
      PushPart(Upper(word, i + 1));
      ShiftInUpper(word, i + 1);
      assert ws[1..] == Unpack(word)[i + 1..];
      SymbolAt(word, i);
    }
  }

  lemma SymbolAt(word: bv32, i: nat)
    requires i < 6
    ensures Unpack(word)[i] == LowSymbol(Upper(word, i + 1))
  {
    hide LowSymbol, Upper;
  }

  lemma ShiftInUnpack(word: bv32)
    requires word < BITS30
    ensures ShiftIn(0, Unpack(word)) == word
  {
    hide ShiftIn, Unpack, Upper;
    UpperFits(word, 0);
    ShiftInUpper(word, 0);
    assert Unpack(word)[0..] == Unpack(word);
  }

  /** The six symbols that bring the register to the constant k after pre. */
  function Checksum(pre: seq<Symbol>, k: bv32): (ws: seq<Symbol>)
    ensures |ws| == 6
  {
    Unpack(Xor(Poly(1, pre + ZeroSymbols(6)), k))
  }

  /** Exactly one six-symbol suffix reaches a given constant. */
  lemma ChecksumExact(pre: seq<Symbol>, ws: seq<Symbol>, k: bv32)
    requires |ws| == 6 && k < BITS30
    ensures Poly(1, pre + ws) == k <==> ws == Checksum(pre, k)
  {
    hide PolyStep, Xor, ShiftIn, Poly, Unpack;
    var c := Poly(1, pre);
    var z := Poly(c, ZeroSymbols(6));
    PolyBound(1, pre);
    PolyBound(c, ZeroSymbols(6));
    PolyConcat(1, pre, ws);
    PolyConcat(1, pre, ZeroSymbols(6));
    XorZero(c);
    PolyShiftIn(c, 0, ws);
    XorBound(z, k);
    XorAssoc(z, z, k);
    XorZero(z);
    XorZero(k);
    XorCancel(z, ShiftIn(0, ws), Xor(z, k));
    ShiftInUnpack(Xor(z, k));
    if ws != Checksum(pre, k) {
      ShiftInInjective(0, 0, ws, Checksum(pre, k));
    }
  }

  /**
    Every error confined to six adjacent symbols changes the checksum word; a
    single substitution is the smallest such burst.
   */
  lemma BurstChangesPolymod(pre: seq<Symbol>, u: seq<Symbol>, w: seq<Symbol>, post: seq<Symbol>)
    requires |u| == |w| <= 6 && u != w
    ensures Poly(1, pre + u + post) != Poly(1, pre + w + post)
  {
    hide PolyStep, Xor, ShiftIn, Poly;
    var c := Poly(1, pre);
    PolyBound(1, pre);
    PolyConcat(1, pre, u);
    PolyConcat(1, pre, w);
    PolyConcat(1, pre + u, post);
    PolyConcat(1, pre + w, post);
    XorZero(c);
    PolyShiftIn(c, 0, u);
    PolyShiftIn(c, 0, w);
    ShiftInInjective(0, 0, u, w);
    XorCancel(Poly(c, ZeroSymbols(|u|)), ShiftIn(0, u), ShiftIn(0, w));
    PolyBound(c, u);
    PolyBound(c, w);
    PolyInjective(Poly(c, u), Poly(c, w), post);
  }
}
