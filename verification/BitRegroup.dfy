/**
  Five-bit symbols regrouped into octets and back. Both are read as strings of
  bits, most significant bit first, so regrouping is cutting the same bit
  string at different places.

  The decoder's accumulator is a 32-bit word that is shifted and never masked:
  stale bits pile up above the live ones and fall off the top. Its loop is
  proved to cut out the same octets, because only the low bits are ever read.

  Padding is at most four bits, all zero.
 */
module BitRegroup {
  import opened Wrappers

  type Symbol = bv5
  type Octet = bv8
  type Bits = seq<bool>

  // ---------------------------------------------------------------- bits of the three word types

  predicate Bit5(v: Symbol, i: nat)
    requires i < 5
  {
    if i == 0 then v & 1 != 0 else if i == 1 then v & 2 != 0 else if i == 2 then v & 4 != 0
    else if i == 3 then v & 8 != 0 else v & 16 != 0
  }

  predicate Bit8(v: Octet, i: nat)
    requires i < 8
  {
    if i == 0 then v & 1 != 0 else if i == 1 then v & 2 != 0 else if i == 2 then v & 4 != 0
    else if i == 3 then v & 8 != 0 else if i == 4 then v & 16 != 0 else if i == 5 then v & 32 != 0
    else if i == 6 then v & 64 != 0 else v & 128 != 0
  }

  predicate Bit12(acc: bv32, i: nat)
    requires i < 12
  {
    if i == 0 then acc & 1 != 0 else if i == 1 then acc & 2 != 0 else if i == 2 then acc & 4 != 0
    else if i == 3 then acc & 8 != 0 else if i == 4 then acc & 16 != 0 else if i == 5 then acc & 32 != 0
    else if i == 6 then acc & 64 != 0 else if i == 7 then acc & 128 != 0 else if i == 8 then acc & 256 != 0
    else if i == 9 then acc & 512 != 0 else if i == 10 then acc & 1024 != 0 else acc & 2048 != 0
  }

  function Bits5(v: Symbol): (b: Bits)
    ensures |b| == 5
  {
    seq(5, j requires 0 <= j < 5 => Bit5(v, 4 - j))
  }

  function Bits8(v: Octet): (b: Bits)
    ensures |b| == 8
  {
    seq(8, j requires 0 <= j < 8 => Bit8(v, 7 - j))
  }

  /** The k low bits of an accumulator whose upper bits are never cleared. */
  function LowBits(acc: bv32, k: nat): (b: Bits)
    requires k <= 12
    ensures |b| == k
  {
    seq(k, j requires 0 <= j < k => Bit12(acc, k - 1 - j))
  }

  function SymbolOf(b: Bits): Symbol
    requires |b| == 5
  {
    Symbol5(b[0], b[1], b[2], b[3], b[4])
  }

  function Symbol5(b4: bool, b3: bool, b2: bool, b1: bool, b0: bool): Symbol {
    (if b4 then 16 else 0) | (if b3 then 8 else 0) | (if b2 then 4 else 0) | (if b1 then 2 else 0) | (if b0 then 1 else 0)
  }

  function OctetOf(b: Bits): Octet
    requires |b| == 8
  {
    Octet8(b[0], b[1], b[2], b[3], b[4], b[5], b[6], b[7])
  }

  function Octet8(b7: bool, b6: bool, b5: bool, b4: bool, b3: bool, b2: bool, b1: bool, b0: bool): Octet {
    (if b7 then 128 else 0) | (if b6 then 64 else 0) | (if b5 then 32 else 0) | (if b4 then 16 else 0) |
    (if b3 then 8 else 0) | (if b2 then 4 else 0) | (if b1 then 2 else 0) | (if b0 then 1 else 0)
  }

  lemma SymbolOfBits(v: Symbol)
    ensures SymbolOf(Bits5(v)) == v
  {
    hide Bit5, Symbol5;
    Symbol5OfBits(v);
  }

  lemma Symbol5OfBits(v: Symbol)
    ensures Symbol5(Bit5(v, 4), Bit5(v, 3), Bit5(v, 2), Bit5(v, 1), Bit5(v, 0)) == v
  {
  }

  lemma BitsOfSymbol(b: Bits)
    requires |b| == 5
    ensures Bits5(SymbolOf(b)) == b
  {
    hide Bit5, Symbol5;
    BitsOfSymbol5(b[0], b[1], b[2], b[3], b[4]);
  }

  lemma BitsOfSymbol5(b4: bool, b3: bool, b2: bool, b1: bool, b0: bool)
    ensures var v := Symbol5(b4, b3, b2, b1, b0);
            Bit5(v, 4) == b4 && Bit5(v, 3) == b3 && Bit5(v, 2) == b2 && Bit5(v, 1) == b1 && Bit5(v, 0) == b0
  {
  }

  lemma OctetOfBits(v: Octet)
    ensures OctetOf(Bits8(v)) == v
  {
    hide Bit8, Octet8;
    Octet8OfBits(v);
  }

  lemma Octet8OfBits(v: Octet)
    ensures Octet8(Bit8(v, 7), Bit8(v, 6), Bit8(v, 5), Bit8(v, 4), Bit8(v, 3), Bit8(v, 2), Bit8(v, 1), Bit8(v, 0)) == v
  {
  }

  lemma BitsOfOctet(b: Bits)
    requires |b| == 8
    ensures Bits8(OctetOf(b)) == b
  {
    hide Bit8, Octet8;
    BitsOfOctet8(b[0], b[1], b[2], b[3], b[4], b[5], b[6], b[7]);
    forall j | 0 <= j < 8 ensures Bit8(OctetOf(b), 7 - j) == b[j] {
      assert j == 0 || j == 1 || j == 2 || j == 3 || j == 4 || j == 5 || j == 6 || j == 7;
    }
  }

  lemma BitsOfOctet8(b7: bool, b6: bool, b5: bool, b4: bool, b3: bool, b2: bool, b1: bool, b0: bool)
    ensures var v := Octet8(b7, b6, b5, b4, b3, b2, b1, b0);
            Bit8(v, 7) == b7 && Bit8(v, 6) == b6 && Bit8(v, 5) == b5 && Bit8(v, 4) == b4 &&
            Bit8(v, 3) == b3 && Bit8(v, 2) == b2 && Bit8(v, 1) == b1 && Bit8(v, 0) == b0
  {
  }

  // ---------------------------------------------------------------- the accumulator

  function PushBits(acc: bv32, v: Symbol): bv32 { (acc << 5) | (v as bv32) }

  lemma PushBitsHigh(acc: bv32, v: Symbol, i: nat)
    requires i < 7
    ensures Bit12(PushBits(acc, v), i + 5) == Bit12(acc, i)
  {
  }

  lemma PushBitsLow(acc: bv32, v: Symbol, i: nat)
    requires i < 5
    ensures Bit12(PushBits(acc, v), i) == Bit5(v, i)
  {
  }

  lemma PushLow(acc: bv32, v: Symbol, k: nat)
    requires k <= 7
    ensures LowBits(PushBits(acc, v), k + 5) == LowBits(acc, k) + Bits5(v)
  {
    hide Bit12, Bit5, PushBits;
    forall j | 0 <= j < k + 5 ensures LowBits(PushBits(acc, v), k + 5)[j] == (LowBits(acc, k) + Bits5(v))[j] {
      if j < k {
        PushBitsHigh(acc, v, k - 1 - j);
      } else {
        PushBitsLow(acc, v, k + 4 - j);
      }
    }
  }

  function PopOctet(acc: bv32, k: nat): Octet
    requires k <= 4
  {
    if k == 0 then (acc & 0xff) as bv8
    else if k == 1 then ((acc >> 1) & 0xff) as bv8
    else if k == 2 then ((acc >> 2) & 0xff) as bv8
    else if k == 3 then ((acc >> 3) & 0xff) as bv8
    else ((acc >> 4) & 0xff) as bv8
  }

  lemma PopBit0(acc: bv32, i: nat)
    requires i < 8
    ensures Bit8(PopOctet(acc, 0), i) == Bit12(acc, i + 0)
  {
  }

  lemma PopBit1(acc: bv32, i: nat)
    requires i < 8
    ensures Bit8(PopOctet(acc, 1), i) == Bit12(acc, i + 1)
  {
  }

  lemma PopBit2(acc: bv32, i: nat)
    requires i < 8
    ensures Bit8(PopOctet(acc, 2), i) == Bit12(acc, i + 2)
  {
  }

  lemma PopBit3(acc: bv32, i: nat)
    requires i < 8
    ensures Bit8(PopOctet(acc, 3), i) == Bit12(acc, i + 3)
  {
  }

  lemma PopBit4(acc: bv32, i: nat)
    requires i < 8
    ensures Bit8(PopOctet(acc, 4), i) == Bit12(acc, i + 4)
  {
  }

  lemma PopBit(acc: bv32, k: nat, i: nat)
    requires k <= 4 && i < 8
    ensures Bit8(PopOctet(acc, k), i) == Bit12(acc, i + k)
  {
    hide Bit12, Bit8, PopOctet;
    if k == 0 {
      PopBit0(acc, i);
    } else if k == 1 {
      PopBit1(acc, i);
    } else if k == 2 {
      PopBit2(acc, i);
    } else if k == 3 {
      PopBit3(acc, i);
    } else {
      PopBit4(acc, i);
    }
  }

  lemma PopLow(acc: bv32, k: nat)
    requires k <= 4
    ensures LowBits(acc, k + 8) == Bits8(PopOctet(acc, k)) + LowBits(acc, k)
  {
    hide Bit12, Bit8, PopOctet;
    forall j | 0 <= j < k + 8 ensures LowBits(acc, k + 8)[j] == (Bits8(PopOctet(acc, k)) + LowBits(acc, k))[j] {
      if j < 8 {
        PopBit(acc, k, 7 - j);
      }
    }
  }

  /** The octet left after shifting the k leftover bits up. */
  function Leftover(acc: bv32, k: nat): bv32
    requires k <= 4
  {
    if k == 0 then (acc << 8) & 0xff
    else if k == 1 then (acc << 7) & 0xff
    else if k == 2 then (acc << 6) & 0xff
    else if k == 3 then (acc << 5) & 0xff
    else (acc << 4) & 0xff
  }

  lemma LeftoverBits(acc: bv32)
    ensures Leftover(acc, 0) == 0
    ensures Leftover(acc, 1) == 0 <==> !Bit12(acc, 0)
    ensures Leftover(acc, 2) == 0 <==> !Bit12(acc, 1) && !Bit12(acc, 0)
    ensures Leftover(acc, 3) == 0 <==> !Bit12(acc, 2) && !Bit12(acc, 1) && !Bit12(acc, 0)
    ensures Leftover(acc, 4) == 0 <==> !Bit12(acc, 3) && !Bit12(acc, 2) && !Bit12(acc, 1) && !Bit12(acc, 0)
  {
  }

  predicate AllClear(b: Bits) { forall i :: 0 <= i < |b| ==> !b[i] }

  lemma LeftoverZero(acc: bv32, k: nat)
    requires k <= 4
    ensures Leftover(acc, k) == 0 <==> AllClear(LowBits(acc, k))
  {
    hide Leftover, Bit12;
    LeftoverBits(acc);
    var b := LowBits(acc, k);
    assert k > 0 ==> b[k - 1] == Bit12(acc, 0);
    assert k > 1 ==> b[k - 2] == Bit12(acc, 1);
    assert k > 2 ==> b[k - 3] == Bit12(acc, 2);
    assert k > 3 ==> b[k - 4] == Bit12(acc, 3);
  }

  // ---------------------------------------------------------------- strings of symbols and of octets

  function AllBits5(vs: seq<Symbol>): (b: Bits)
    ensures |b| == 5 * |vs|
  {
    if vs == [] then [] else AllBits5(vs[..|vs| - 1]) + Bits5(vs[|vs| - 1])
  }

  function AllBits8(vs: seq<Octet>): (b: Bits)
    ensures |b| == 8 * |vs|
  {
    if vs == [] then [] else AllBits8(vs[..|vs| - 1]) + Bits8(vs[|vs| - 1])
  }

  /** The n symbols a string of 5n bits spells. */
  function SymbolsOf(b: Bits, n: nat): (vs: seq<Symbol>)
    requires |b| == 5 * n
    ensures |vs| == n
  {
    if n == 0 then [] else SymbolsOf(b[..|b| - 5], n - 1) + [SymbolOf(b[|b| - 5..])]
  }

  /** The n octets a string of 8n bits spells. */
  function OctetsOf(b: Bits, n: nat): (vs: seq<Octet>)
    requires |b| == 8 * n
    ensures |vs| == n
  {
    if n == 0 then [] else OctetsOf(b[..|b| - 8], n - 1) + [OctetOf(b[|b| - 8..])]
  }

  lemma {:induction false} SymbolsOfAllBits(vs: seq<Symbol>)
    ensures SymbolsOf(AllBits5(vs), |vs|) == vs
  {
    hide Bits5, SymbolOf;
    if vs == [] {
    } else {
      var init, last := vs[..|vs| - 1], vs[|vs| - 1];
      var b := AllBits5(vs);
      SymbolsOfAllBits(init);
      SymbolOfBits(last);
      assert b[..|b| - 5] == AllBits5(init) && b[|b| - 5..] == Bits5(last);
    }
  }

  lemma {:induction false} AllBitsOfSymbols(b: Bits, n: nat)
    requires |b| == 5 * n
    ensures AllBits5(SymbolsOf(b, n)) == b
  {
    hide Bits5, SymbolOf, AllBits5;
    if n == 0 {
      AllBits5Snoc([], 0);
    } else {
      var init, tail := b[..|b| - 5], b[|b| - 5..];
      AllBitsOfSymbols(init, n - 1);
      BitsOfSymbol(tail);
      AllBits5Snoc(SymbolsOf(init, n - 1), SymbolOf(tail));
      assert b == init + tail;
    }
  }

  lemma AllBits5Snoc(vs: seq<Symbol>, v: Symbol)
    ensures AllBits5(vs + [v]) == AllBits5(vs) + Bits5(v) && AllBits5([]) == []
  {
    hide Bits5;
    assert (vs + [v])[..|vs|] == vs;
  }

  lemma {:induction false} OctetsOfAllBits(vs: seq<Octet>)
    ensures OctetsOf(AllBits8(vs), |vs|) == vs
  {
    hide Bits8, OctetOf;
    if vs == [] {
    } else {
      var init, last := vs[..|vs| - 1], vs[|vs| - 1];
      var b := AllBits8(vs);
      OctetsOfAllBits(init);
      OctetOfBits(last);
      assert b[..|b| - 8] == AllBits8(init) && b[|b| - 8..] == Bits8(last);
    }
  }

  lemma {:induction false} AllBitsOfOctets(b: Bits, n: nat)
    requires |b| == 8 * n
    ensures AllBits8(OctetsOf(b, n)) == b
  {
    hide Bits8, OctetOf, AllBits8;
    if n == 0 {
      AllBits8Snoc([], 0);
    } else {
      var init, tail := b[..|b| - 8], b[|b| - 8..];
      AllBitsOfOctets(init, n - 1);
      BitsOfOctet(tail);
      AllBits8Snoc(OctetsOf(init, n - 1), OctetOf(tail));
      assert b == init + tail;
    }
  }

  lemma AllBits8Snoc(vs: seq<Octet>, v: Octet)
    ensures AllBits8(vs + [v]) == AllBits8(vs) + Bits8(v) && AllBits8([]) == []
  {
    hide Bits8;
    assert (vs + [v])[..|vs|] == vs;
  }

  // ---------------------------------------------------------------- regrouping

  /** The whole octets in the symbols' bits, provided fewer than five bits are left over and all are clear. */
  function Regroup(symbols: seq<Symbol>): Option<seq<Octet>> {
    var b := AllBits5(symbols);
    var n := |b| / 8;
    if |b| - 8 * n >= 5 || !AllClear(b[8 * n..]) then None else Some(OctetsOf(b[..8 * n], n))
  }

  function ClearBits(k: nat): (b: Bits)
    ensures |b| == k && AllClear(b)
  {
    seq(k, i => false)
  }

  /** The octets' bits padded with clear bits to whole symbols. */
  function Ungroup(octets: seq<Octet>): (symbols: seq<Symbol>)
    ensures |symbols| == (8 * |octets| + 4) / 5
  {
    var b := AllBits8(octets);
    var n := (8 * |octets| + 4) / 5;
    SymbolsOf(b + ClearBits(5 * n - |b|), n)
  }

  /** The bits of the symbols so far are the octets emitted, then the accumulator's pending bits. */
  predicate Accumulated(symbols: seq<Symbol>, octets: seq<Octet>, acc: bv32, bits: nat)
    requires bits <= 12
  {
    AllBits5(symbols) == AllBits8(octets) + LowBits(acc, bits)
  }

  lemma PushStep(symbols: seq<Symbol>, v: Symbol, octets: seq<Octet>, acc: bv32, bits: nat)
    requires bits <= 7 && Accumulated(symbols, octets, acc, bits)
    ensures Accumulated(symbols + [v], octets, PushBits(acc, v), bits + 5)
  {
    hide Bits5, AllBits8, LowBits, PushBits;
    PushLow(acc, v, bits);
    assert (symbols + [v])[..|symbols|] == symbols;
  }

  lemma PopStep(symbols: seq<Symbol>, octets: seq<Octet>, acc: bv32, bits: nat)
    requires bits <= 4 && Accumulated(symbols, octets, acc, bits + 8)
    ensures Accumulated(symbols, octets + [PopOctet(acc, bits)], acc, bits)
  {
    hide AllBits5, Bits8, LowBits, PopOctet;
    PopLow(acc, bits);
    var octet := PopOctet(acc, bits);
    assert (octets + [octet])[..|octets|] == octets;
  }

  lemma AccumulatedEnd(symbols: seq<Symbol>, octets: seq<Octet>, acc: bv32, bits: nat)
    requires bits < 8 && Accumulated(symbols, octets, acc, bits)
    ensures Regroup(symbols) == if bits >= 5 || !AllClear(LowBits(acc, bits)) then None else Some(octets)
  {
    hide AllBits5, AllBits8, LowBits, OctetsOf, AllClear;
    var b := AllBits5(symbols);
    assert |b| / 8 == |octets|;
    assert b[..|b| - bits] == AllBits8(octets) && b[|b| - bits..] == LowBits(acc, bits);
    OctetsOfAllBits(octets);
  }

  /** The accumulator loop: only its low bits matter, whatever earlier symbols left above them. */
  method RegroupSymbols(payload: seq<Symbol>) returns (r: Option<seq<Octet>>)
    ensures r == Regroup(payload)
  {
    hide Accumulated, PushBits, PopOctet, Leftover, Regroup;
    var acc: bv32 := 0;
    var bits := 0;
    var program: seq<Octet> := [];
    AccumulatedStart();
    for i := 0 to |payload|
      invariant 0 <= bits < 8
      invariant Accumulated(payload[..i], program, acc, bits)
    {
      PushStep(payload[..i], payload[i], program, acc, bits);
      assert payload[..i + 1] == payload[..i] + [payload[i]];
      acc := PushBits(acc, payload[i]);
      bits := bits + 5;
      while bits >= 8
        invariant 0 <= bits <= 12
        invariant Accumulated(payload[..i + 1], program, acc, bits)
        decreases bits
      {
        bits := bits - 8;
        PopStep(payload[..i + 1], program, acc, bits);
        program := program + [PopOctet(acc, bits)];
      }
    }
    assert payload[..|payload|] == payload;
    AccumulatedEnd(payload, program, acc, bits);
    if bits >= 5 {
      return None;
    }
    LeftoverZero(acc, bits);
    if Leftover(acc, bits) != 0 {
      return None;
    }
    r := Some(program);
  }

  lemma AccumulatedStart()
    ensures Accumulated([], [], 0, 0)
  {
  }

  lemma PaddingExact(symbols: seq<Symbol>, octets: seq<Octet>, pad: nat)
    requires pad < 5 && AllBits5(symbols) == AllBits8(octets) + ClearBits(pad)
    ensures Regroup(symbols) == Some(octets)
  {
    hide AllBits5, AllBits8, OctetsOf, AllClear;
    var b, o := AllBits5(symbols), AllBits8(octets);
    assert |b| / 8 == |octets|;
    assert b[..|o|] == o && b[|o|..] == ClearBits(pad);
    OctetsOfAllBits(octets);
  }

  lemma RegroupUngroup(octets: seq<Octet>)
    ensures Regroup(Ungroup(octets)) == Some(octets)
  {
    hide AllBits5, AllBits8, SymbolsOf, Regroup;
    var n := (8 * |octets| + 4) / 5;
    var pad := 5 * n - 8 * |octets|;
    AllBitsOfSymbols(AllBits8(octets) + ClearBits(pad), n);
    PaddingExact(Ungroup(octets), octets, pad);
  }

  lemma UngroupRegroup(symbols: seq<Symbol>)
    requires Regroup(symbols).Some?
    ensures Ungroup(Regroup(symbols).value) == symbols
  {
    hide AllBits5, AllBits8, SymbolsOf, OctetsOf;
    var b := AllBits5(symbols);
    var n := |b| / 8;
    AllBitsOfOctets(b[..8 * n], n);
    assert b == b[..8 * n] + ClearBits(|b| - 8 * n);
    assert (8 * n + 4) / 5 == |symbols|;
    SymbolsOfAllBits(symbols);
  }

  /** Regrouping accepts exactly the symbols that zero-padding some octets produces, and gives those octets. */
  lemma RegroupExact(symbols: seq<Symbol>, octets: seq<Octet>)
    ensures Regroup(symbols) == Some(octets) <==> symbols == Ungroup(octets)
  {
    hide Regroup, Ungroup;
    RegroupUngroup(octets);
    if Regroup(symbols) == Some(octets) {
      UngroupRegroup(symbols);
    }
  }
}
