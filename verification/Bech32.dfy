/**
  SegWit addresses: Bech32 (BIP-173, witness version 0) and Bech32m (BIP-350,
  versions 1 to 16).

  The decoder is taken apart as it runs: letter case, the separator, the data
  symbols, the checksum, and the regrouped witness program. An encoder, which
  the program does not have, is the reference it is compared with.
 */
module Bech32 {
  import opened Wrappers
  import opened Ascii
  import opened Bech32Register
  import opened BitRegroup

  const BECH32_CONST: bv32 := 1
  const BECH32M_CONST: bv32 := 0x2bc830a3

  // ---------------------------------------------------------------- the charset

  const CHARSET: string := "qpzry9x8gf2tvdw0s3jn54khce6mua7l"

  function CharAt(d: nat): char
    requires d < 32
  {
    if d == 0 then 'q' else if d == 1 then 'p' else if d == 2 then 'z' else if d == 3 then 'r'
    else if d == 4 then 'y' else if d == 5 then '9' else if d == 6 then 'x' else if d == 7 then '8'
    else if d == 8 then 'g' else if d == 9 then 'f' else if d == 10 then '2' else if d == 11 then 't'
    else if d == 12 then 'v' else if d == 13 then 'd' else if d == 14 then 'w' else if d == 15 then '0'
    else if d == 16 then 's' else if d == 17 then '3' else if d == 18 then 'j' else if d == 19 then 'n'
    else if d == 20 then '5' else if d == 21 then '4' else if d == 22 then 'k' else if d == 23 then 'h'
    else if d == 24 then 'c' else if d == 25 then 'e' else if d == 26 then '6' else if d == 27 then 'm'
    else if d == 28 then 'u' else if d == 29 then 'a' else if d == 30 then '7' else 'l'
  }

  /** The charset position of c, -1 for a character outside it. */
  function IndexOf(c: char): (d: int)
    ensures -1 <= d < 32
  {
    if c == 'q' then 0 else if c == 'p' then 1 else if c == 'z' then 2 else if c == 'r' then 3
    else if c == 'y' then 4 else if c == '9' then 5 else if c == 'x' then 6 else if c == '8' then 7
    else if c == 'g' then 8 else if c == 'f' then 9 else if c == '2' then 10 else if c == 't' then 11
    else if c == 'v' then 12 else if c == 'd' then 13 else if c == 'w' then 14 else if c == '0' then 15
    else if c == 's' then 16 else if c == '3' then 17 else if c == 'j' then 18 else if c == 'n' then 19
    else if c == '5' then 20 else if c == '4' then 21 else if c == 'k' then 22 else if c == 'h' then 23
    else if c == 'c' then 24 else if c == 'e' then 25 else if c == '6' then 26 else if c == 'm' then 27
    else if c == 'u' then 28 else if c == 'a' then 29 else if c == '7' then 30 else if c == 'l' then 31 else -1
  }

  lemma CharsetSpelled(d: nat)
    requires d < 32
    ensures |CHARSET| == 32 && CHARSET[d] == CharAt(d)
  {
  }

  lemma IndexOfCharAt(d: nat)
    requires d < 32
    ensures IndexOf(CharAt(d)) == d
  {
  }

  lemma CharAtIndexOf(c: char)
    requires IndexOf(c) >= 0
    ensures CharAt(IndexOf(c)) == c
  {
  }

  lemma CharAtShape(d: nat)
    requires d < 32
    ensures IsLower(CharAt(d)) || '0' <= CharAt(d) <= '9'
    ensures CharAt(d) != '1'
  {
  }

  function SymbolChar(v: Symbol): char { CharAt(v as nat) }

  function CharSymbol(c: char): Option<Symbol> {
    if IndexOf(c) < 0 then None else Some(IndexOf(c) as bv5)
  }

  lemma SymbolOfChar(v: Symbol)
    ensures CharSymbol(SymbolChar(v)) == Some(v)
    ensures IsLower(SymbolChar(v)) || '0' <= SymbolChar(v) <= '9'
    ensures SymbolChar(v) != '1'
  {
    hide CharAt, IndexOf;
    IndexOfCharAt(v as nat);
    CharAtShape(v as nat);
  }

  lemma CharOfSymbol(c: char)
    requires CharSymbol(c).Some?
    ensures SymbolChar(CharSymbol(c).value) == c
  {
    hide CharAt, IndexOf;
    CharAtIndexOf(c);
  }

  function DataString(vs: seq<Symbol>): (s: string)
    ensures |s| == |vs|
  {
    seq(|vs|, i requires 0 <= i < |vs| => SymbolChar(vs[i]))
  }

  predicate InCharset(s: string) { forall i :: 0 <= i < |s| ==> CharSymbol(s[i]).Some? }

  function DataSymbols(s: string): (vs: seq<Symbol>)
    requires InCharset(s)
    ensures |vs| == |s|
  {
    seq(|s|, i requires 0 <= i < |s| => CharSymbol(s[i]).value)
  }

  lemma SymbolsOfString(vs: seq<Symbol>)
    ensures InCharset(DataString(vs)) && DataSymbols(DataString(vs)) == vs
  {
    hide SymbolChar, CharSymbol;
    forall i | 0 <= i < |vs| ensures CharSymbol(SymbolChar(vs[i])) == Some(vs[i]) {
      SymbolOfChar(vs[i]);
    }
  }

  lemma StringOfSymbols(s: string)
    requires InCharset(s)
    ensures DataString(DataSymbols(s)) == s
  {
    hide SymbolChar, CharSymbol;
    forall i | 0 <= i < |s| ensures SymbolChar(CharSymbol(s[i]).value) == s[i] {
      CharOfSymbol(s[i]);
    }
  }

  // ---------------------------------------------------------------- decoding

  datatype Bech32Error =
    | BadLength | BadCharacter | MixedCase | BadSeparator | BadPrefix | BadDataCharacter
    | BadVersion | BadChecksum | BadPadding | BadProgramLength

  /** Crash is the slice of a six-symbol data part from 1 to 0, which panics. */
  datatype Outcome = Decoded(hrp: string, version: Symbol, program: seq<Octet>) | Rejected(error: Bech32Error) | Crash

  predicate Printable(s: string) { forall i :: 0 <= i < |s| ==> 33 <= s[i] as int <= 126 }

  /** Position of the last '1', -1 when there is none. */
  function LastOne(s: string): (p: int)
    ensures -1 <= p < |s|
    ensures p >= 0 ==> s[p] == '1'
  {
    if s == "" then -1
    else if s[|s| - 1] == '1' then |s| - 1
    else LastOne(s[..|s| - 1])
  }

  predicate SupportedPrefix(hrp: string) { hrp == "bc" || hrp == "tb" }

  function High(c: char): Symbol
    requires c < 128 as char
  {
    (c as int / 32) as bv5
  }

  function Low(c: char): Symbol
    requires c < 128 as char
  {
    (c as int % 32) as bv5
  }

  /** What the prefix contributes to the checksum. */
  function Expand(hrp: string): seq<Symbol>
    requires SupportedPrefix(hrp)
  {
    seq(|hrp|, i requires 0 <= i < |hrp| => High(hrp[i])) + [0] + seq(|hrp|, i requires 0 <= i < |hrp| => Low(hrp[i]))
  }

  function Constant(version: Symbol): bv32 {
    if version == 0 then BECH32_CONST else BECH32M_CONST
  }

  predicate ValidLength(version: Symbol, n: nat) {
    2 <= n <= 40 && (version == 0 ==> n == 20 || n == 32)
  }

  function DecodeProgram(hrp: string, version: Symbol, payload: seq<Symbol>): Outcome {
    match Regroup(payload)
    case None => Rejected(BadPadding)
    case Some(program) => if ValidLength(version, |program|) then Decoded(hrp, version, program) else Rejected(BadProgramLength)
  }

  function DecodeData(hrp: string, data: seq<Symbol>): Outcome
    requires SupportedPrefix(hrp) && |data| >= 6
  {
    var version := data[0];
    if version > 16 then Rejected(BadVersion)
    else if Poly(1, Expand(hrp) + data) != Constant(version) then Rejected(BadChecksum)
    else if |data| == 6 then Crash
    else DecodeProgram(hrp, version, data[1..|data| - 6])
  }

  function DecodeLower(lower: string): Outcome {
    var pos := LastOne(lower);
    if pos < 1 || pos + 7 > |lower| then Rejected(BadSeparator)
    else if !SupportedPrefix(lower[..pos]) then Rejected(BadPrefix)
    else if !InCharset(lower[pos + 1..]) then Rejected(BadDataCharacter)
    else DecodeData(lower[..pos], DataSymbols(lower[pos + 1..]))
  }

  function Decode(s: string): Outcome {
    if |s| < 8 || |s| > 90 then Rejected(BadLength)
    else if !Printable(s) then Rejected(BadCharacter)
    else if HasLower(s) && HasUpper(s) then Rejected(MixedCase)
    else DecodeLower(Lower(s))
  }

  /** The program's loops: range and case flags, charset table, checksum input, then the witness program. */
  method Bech32Decode(s: string) returns (r: Outcome)
    ensures r == Decode(s)
  {
    hide DecodeData, CharSymbol;
    if |s| < 8 || |s| > 90 {
      return Rejected(BadLength);
    }
    var hasLower, hasUpper := false, false;
    for i := 0 to |s|
      invariant Printable(s[..i]) && hasLower == HasLower(s[..i]) && hasUpper == HasUpper(s[..i])
    {
      var c := s[i];
      if c as int < 33 || c as int > 126 {
        return Rejected(BadCharacter);
      }
      assert s[..i + 1] == s[..i] + [c];
      if IsLower(c) {
        assert s[..i + 1][i] == c;
        hasLower := true;
      } else if IsUpper(c) {
        assert s[..i + 1][i] == c;
        hasUpper := true;
      }
    }
    assert s[..|s|] == s;
    if hasLower && hasUpper {
      return Rejected(MixedCase);
    }
    var lower := Lower(s);
    var pos := LastOne(lower);
    if pos < 1 || pos + 7 > |lower| {
      return Rejected(BadSeparator);
    }
    var hrp := lower[..pos];
    if hrp != "bc" && hrp != "tb" {
      return Rejected(BadPrefix);
    }
    r := DecodeDataPart(hrp, lower[pos + 1..]);
  }

  method DecodeDataPart(hrp: string, dataPart: string) returns (r: Outcome)
    requires SupportedPrefix(hrp) && |dataPart| >= 6
    ensures r == if InCharset(dataPart) then DecodeData(hrp, DataSymbols(dataPart)) else Rejected(BadDataCharacter)
  {
    hide DecodeData, CharSymbol;
    var data: seq<Symbol> := [];
    for i := 0 to |dataPart|
      invariant InCharset(dataPart[..i]) && data == DataSymbols(dataPart[..i])
    {
      var v := CharSymbol(dataPart[i]);
      if v == None {
        return Rejected(BadDataCharacter);
      }
      assert dataPart[..i + 1] == dataPart[..i] + [dataPart[i]];
      data := data + [v.value];
    }
    assert dataPart[..|dataPart|] == dataPart;
    r := CheckData(hrp, data);
  }

  method CheckData(hrp: string, data: seq<Symbol>) returns (r: Outcome)
    requires SupportedPrefix(hrp) && |data| >= 6
    ensures r == DecodeData(hrp, data)
  {
    hide Poly, Regroup, High, Low;
    var polyIn: seq<Symbol> := [];
    for i := 0 to |hrp|
      invariant polyIn == Expand(hrp)[..i]
    {
      polyIn := polyIn + [High(hrp[i])];
    }
    polyIn := polyIn + [0];
    for i := 0 to |hrp|
      invariant polyIn == Expand(hrp)[..|hrp| + 1 + i]
    {
      polyIn := polyIn + [Low(hrp[i])];
    }
    assert polyIn == Expand(hrp);
    polyIn := polyIn + data;
    var pm := Bech32Polymod(polyIn);
    var version := data[0];
    if version > 16 {
      return Rejected(BadVersion);
    }
    if version == 0 && pm != BECH32_CONST {
      return Rejected(BadChecksum);
    }
    if version >= 1 && pm != BECH32M_CONST {
      return Rejected(BadChecksum);
    }
    if |data| == 6 {
      return Crash;
    }
    var program := RegroupSymbols(data[1..|data| - 6]);
    if program == None {
      return Rejected(BadPadding);
    }
    if |program.value| < 2 || |program.value| > 40 {
      return Rejected(BadProgramLength);
    }
    if version == 0 && |program.value| != 20 && |program.value| != 32 {
      return Rejected(BadProgramLength);
    }
    r := Decoded(hrp, version, program.value);
  }

  // ---------------------------------------------------------------- the reference encoder

  predicate ValidWitness(hrp: string, version: Symbol, program: seq<Octet>) {
    SupportedPrefix(hrp) && version <= 16 && ValidLength(version, |program|)
  }

  function Body(version: Symbol, program: seq<Octet>): seq<Symbol> { [version] + Ungroup(program) }

  function EncodeData(hrp: string, version: Symbol, program: seq<Octet>): (data: seq<Symbol>)
    requires SupportedPrefix(hrp)
  {
    Body(version, program) + Checksum(Expand(hrp) + Body(version, program), Constant(version))
  }

  /** The address as BIP-173 and BIP-350 build it: prefix, separator, version, padded program, checksum. */
  function Encode(hrp: string, version: Symbol, program: seq<Octet>): string
    requires SupportedPrefix(hrp)
  {
    hrp + "1" + DataString(EncodeData(hrp, version, program))
  }

  lemma ConstantBound(version: Symbol)
    ensures Constant(version) < BITS30
  {
  }

  lemma EncodeDecodesData(hrp: string, version: Symbol, program: seq<Octet>)
    requires ValidWitness(hrp, version, program)
    ensures DecodeData(hrp, EncodeData(hrp, version, program)) == Decoded(hrp, version, program)
  {
    hide Poly, Regroup, Ungroup, Checksum, Expand, Constant;
    var body := Body(version, program);
    var sum := Checksum(Expand(hrp) + body, Constant(version));
    var data := body + sum;
    ConstantBound(version);
    ChecksumExact(Expand(hrp) + body, sum, Constant(version));
    assert Expand(hrp) + data == Expand(hrp) + body + sum;
    assert data[1..|data| - 6] == Ungroup(program);
    RegroupExact(Ungroup(program), program);
  }

  lemma DecodedDataIsEncoded(hrp: string, data: seq<Symbol>)
    requires SupportedPrefix(hrp) && |data| >= 6 && DecodeData(hrp, data).Decoded?
    ensures var d := DecodeData(hrp, data);
            d.hrp == hrp && ValidWitness(hrp, d.version, d.program) && data == EncodeData(hrp, d.version, d.program)
  {
    hide Poly, Regroup, Ungroup, Checksum, Expand, Constant;
    var d := DecodeData(hrp, data);
    var body, sum := data[..|data| - 6], data[|data| - 6..];
    RegroupExact(data[1..|data| - 6], d.program);
    assert body == Body(d.version, d.program);
    ConstantBound(d.version);
    ChecksumExact(Expand(hrp) + body, sum, Constant(d.version));
    assert Expand(hrp) + data == Expand(hrp) + body + sum;
    assert sum == Checksum(Expand(hrp) + body, Constant(d.version));
    assert data == body + sum;
  }

  // ---------------------------------------------------------------- from data symbols to whole strings

  lemma {:induction false} LastOneOfParts(hrp: string, t: string)
    requires '1' !in t
    ensures LastOne(hrp + "1" + t) == |hrp|
  {
    var s := hrp + "1" + t;
    if t == "" {
    } else {
      var init := t[..|t| - 1];
      LastOneOfParts(hrp, init);
      assert s[..|s| - 1] == hrp + "1" + init;
      assert s[|s| - 1] == t[|t| - 1];
    }
  }

  /** A lower-case string is read back as the prefix and data symbols it was put together from. */
  lemma DecodeParts(hrp: string, data: seq<Symbol>)
    requires SupportedPrefix(hrp) && |data| >= 6
    ensures DecodeLower(hrp + "1" + DataString(data)) == DecodeData(hrp, data)
  {
    hide DecodeData, SymbolChar, CharSymbol, LastOne;
    var t := DataString(data);
    var s := hrp + "1" + t;
    forall i | 0 <= i < |t| ensures t[i] != '1' {
      SymbolOfChar(data[i]);
    }
    LastOneOfParts(hrp, t);
    SymbolsOfString(data);
    assert s[..|hrp|] == hrp && s[|hrp| + 1..] == t;
  }

  lemma PartsOfDecoded(lower: string)
    ensures var pos := LastOne(lower);
            DecodeLower(lower).Decoded? || DecodeLower(lower).Crash? ==>
              1 <= pos && pos + 7 <= |lower| && SupportedPrefix(lower[..pos]) && InCharset(lower[pos + 1..]) &&
              DecodeLower(lower) == DecodeData(lower[..pos], DataSymbols(lower[pos + 1..])) &&
              lower == lower[..pos] + "1" + DataString(DataSymbols(lower[pos + 1..]))
  {
    hide DecodeData, DataString, DataSymbols, InCharset, LastOne, SupportedPrefix;
    if DecodeLower(lower).Decoded? || DecodeLower(lower).Crash? {
      var pos := LastOne(lower);
      StringOfSymbols(lower[pos + 1..]);
      SplitAt(lower, pos);
    }
  }

  lemma SplitAt(s: string, p: nat)
    requires p < |s| && s[p] == '1'
    ensures s == s[..p] + "1" + s[p + 1..]
  {
  }

  predicate SingleCase(s: string) { !(HasLower(s) && HasUpper(s)) }

  /** Prefix, separator and data characters are all printable, in either case. */
  lemma PartsPrintable(s: string, hrp: string, data: seq<Symbol>)
    requires SupportedPrefix(hrp) && Lower(s) == hrp + "1" + DataString(data)
    ensures Printable(s)
  {
    hide SymbolChar;
    forall i | 0 <= i < |s| ensures 33 <= s[i] as int <= 126 {
      assert Lower(s)[i] == LowerChar(s[i]);
      if i > |hrp| {
        SymbolOfChar(data[i - |hrp| - 1]);
        assert Lower(s)[i] == SymbolChar(data[i - |hrp| - 1]);
      }
    }
  }

  /** What Decode makes of any single-case spelling of a prefix and some data symbols. */
  lemma DecodeSpelling(s: string, hrp: string, data: seq<Symbol>)
    requires SupportedPrefix(hrp) && 6 <= |data| <= 87 && SingleCase(s) && Lower(s) == hrp + "1" + DataString(data)
    ensures |s| >= 8 && Decode(s) == DecodeData(hrp, data)
  {
    hide DecodeData, DecodeLower, HasLower, HasUpper, Printable;
    PartsPrintable(s, hrp, data);
    DecodeParts(hrp, data);
  }

  /**
    The decoder accepts exactly the encoder's strings, in either case but not
    both: each accepted string has one prefix, version and program, and each
    valid witness program one address.
   */
  lemma DecodeExact(s: string, hrp: string, version: Symbol, program: seq<Octet>)
    ensures Decode(s) == Decoded(hrp, version, program) <==>
            ValidWitness(hrp, version, program) && SingleCase(s) && Lower(s) == Encode(hrp, version, program)
  {
    hide DecodeData, EncodeData, HasLower, HasUpper, Printable, LastOne;
    if ValidWitness(hrp, version, program) && SingleCase(s) && Lower(s) == Encode(hrp, version, program) {
      EncodeDecodesData(hrp, version, program);
      EncodeDataLength(hrp, version, program);
      DecodeSpelling(s, hrp, EncodeData(hrp, version, program));
    }
    if Decode(s) == Decoded(hrp, version, program) {
      var lower := Lower(s);
      var pos := LastOne(lower);
      PartsOfDecoded(lower);
      DecodedDataIsEncoded(lower[..pos], DataSymbols(lower[pos + 1..]));
    }
  }

  lemma EncodeDataLength(hrp: string, version: Symbol, program: seq<Octet>)
    requires ValidWitness(hrp, version, program)
    ensures |EncodeData(hrp, version, program)| == 7 + (8 * |program| + 4) / 5
    ensures 11 <= |EncodeData(hrp, version, program)| <= 71
  {
    hide Checksum, Ungroup;
  }

  /** Two accepted strings with the same prefix, version and program differ at most in letter case. */
  lemma DecodeInjective(s: string, t: string)
    ensures Decode(s).Decoded? && Decode(s) == Decode(t) ==> Lower(s) == Lower(t)
  {
    hide Decode, Encode;
    if Decode(s).Decoded? && Decode(s) == Decode(t) {
      var d := Decode(s);
      DecodeExact(s, d.hrp, d.version, d.program);
      DecodeExact(t, d.hrp, d.version, d.program);
    }
  }

  lemma AcceptedShape(s: string)
    ensures Decode(s).Decoded? ==> SingleCase(s) && |s| <= 90
    ensures !SingleCase(s) ==> Decode(s).Rejected?
  {
    hide DecodeLower, Printable, HasLower, HasUpper;
  }

  /**
    Any change confined to six adjacent data symbols is rejected, so long as it
    does not swap the checksum constant by turning version 0 into another or back.
   */
  lemma BurstRejected(s: string, t: string, hrp: string, pre: seq<Symbol>, u: seq<Symbol>, w: seq<Symbol>, post: seq<Symbol>)
    requires Decode(s).Decoded? && SupportedPrefix(hrp) && Lower(s) == hrp + "1" + DataString(pre + u + post)
    requires |u| == |w| <= 6 && u != w && |pre + u + post| >= 6
    requires (pre + u + post)[0] == 0 <==> (pre + w + post)[0] == 0
    requires Lower(t) == hrp + "1" + DataString(pre + w + post)
    ensures Decode(t).Rejected?
  {
    hide Poly, Regroup, SingleCase, Decode, Expand, DataString;
    var good, bad := pre + u + post, pre + w + post;
    AcceptedShape(s);
    AcceptedShape(t);
    assert |Lower(s)| == 3 + |good| && |Lower(t)| == 3 + |bad|;
    if SingleCase(t) {
      DecodeSpelling(s, hrp, good);
      DecodeSpelling(t, hrp, bad);
      assert Constant(good[0]) == Constant(bad[0]);
      BurstChangesPolymod(Expand(hrp) + pre, u, w, post);
      assert Expand(hrp) + good == Expand(hrp) + pre + u + post;
      assert Expand(hrp) + bad == Expand(hrp) + pre + w + post;
    }
  }

  // ---------------------------------------------------------------- the one string that panics

  lemma TapsSpelled(top: bv32)
    ensures TapsUpTo(top, 5) == Xor(Xor(Xor(Xor(Xor(0, Tap(top, 0)), Tap(top, 1)), Tap(top, 2)), Tap(top, 3)), Tap(top, 4))
  {
    hide Xor, Tap;
    assert TapsUpTo(top, 1) == Xor(TapsUpTo(top, 0), Tap(top, 0));
    assert TapsUpTo(top, 2) == Xor(TapsUpTo(top, 1), Tap(top, 1));
    assert TapsUpTo(top, 3) == Xor(TapsUpTo(top, 2), Tap(top, 2));
    assert TapsUpTo(top, 4) == Xor(TapsUpTo(top, 3), Tap(top, 3));
  }

  lemma PolyAt(c: bv32, vs: seq<Symbol>, k: nat)
    requires k < |vs|
    ensures Poly(c, vs[k..]) == Poly(PolyStep(c, vs[k]), vs[k + 1..])
    ensures k == 0 ==> Poly(c, vs[k..]) == Poly(c, vs)
  {
    hide PolyStep;
    assert vs[k..][1..] == vs[k + 1..];
    assert vs[0..] == vs;
  }

  lemma PolyEnd(c: bv32, vs: seq<Symbol>)
    ensures Poly(c, vs[|vs|..]) == c
  {
  }

  lemma SixZeros(c0: bv32, c1: bv32, c2: bv32, c4: bv32, c6: bv32)
    requires Poly(c0, [0]) == c1 && Poly(c1, [0]) == c2 && Poly(c2, [0, 0]) == c4 && Poly(c4, [0, 0]) == c6
    ensures Poly(c0, ZeroSymbols(6)) == c6
  {
    hide Poly;
    var one: seq<Symbol> := [0];
    var two: seq<Symbol> := [0, 0];
    PolyConcat(c0, one, one);
    PolyConcat(c0, one + one, two);
    PolyConcat(c0, one + one + two, two);
    assert one + one + two + two == ZeroSymbols(6);
  }

  lemma ExpandBc()
    ensures Expand("bc") == [3, 3, 0, 2, 3]
  {
    assert 'b' as int == 98 && 'c' as int == 99 && 't' as int == 116;
  }

  lemma RegisterBc0()
    ensures Poly(0x1, [3, 3, 0, 2, 3]) == 0x2318043
  {
    hide Poly;
    var vs := [3, 3, 0, 2, 3];
    TapsSpelled(Top(0x1));
    PolyAt(0x1, vs, 0);
    TapsSpelled(Top(0x23));
    PolyAt(0x23, vs, 1);
    TapsSpelled(Top(0x463));
    PolyAt(0x463, vs, 2);
    TapsSpelled(Top(0x8c60));
    PolyAt(0x8c60, vs, 3);
    TapsSpelled(Top(0x118c02));
    PolyAt(0x118c02, vs, 4);
    PolyEnd(0x2318043, vs);
  }

  lemma RegisterBc5()
    ensures Poly(0x2318043, [0]) == 0x3d5a5fd2
  {
    hide Poly;
    var vs := [0];
    TapsSpelled(Top(0x2318043));
    PolyAt(0x2318043, vs, 0);
    PolyEnd(0x3d5a5fd2, vs);
  }

  lemma RegisterBc6()
    ensures Poly(0x3d5a5fd2, [0]) == 0x4ec3cb9
  {
    hide Poly;
    var vs := [0];
    TapsSpelled(Top(0x3d5a5fd2));
    PolyAt(0x3d5a5fd2, vs, 0);
    PolyEnd(0x4ec3cb9, vs);
  }

  lemma RegisterBc7()
    ensures Poly(0x4ec3cb9, [0, 0]) == 0x87e3686
  {
    hide Poly;
    var vs := [0, 0];
    TapsSpelled(Top(0x4ec3cb9));
    PolyAt(0x4ec3cb9, vs, 0);
    TapsSpelled(Top(0x3bd7194d));
    PolyAt(0x3bd7194d, vs, 1);
    PolyEnd(0x87e3686, vs);
  }

  lemma RegisterBc9()
    ensures Poly(0x87e3686, [0, 0]) == 0x11bb149d
  {
    hide Poly;
    var vs := [0, 0];
    TapsSpelled(Top(0x87e3686));
    PolyAt(0x87e3686, vs, 0);
    TapsSpelled(Top(0x1167c93a));
    PolyAt(0x1167c93a, vs, 1);
    PolyEnd(0x11bb149d, vs);
  }

  /** The register after "bc" and six zero symbols. */
  lemma PolyBc()
    ensures Poly(1, Expand("bc") + ZeroSymbols(6)) == 0x11bb149d
  {
    hide Poly, Expand;
    ExpandBc();
    RegisterBc0();
    RegisterBc5();
    RegisterBc6();
    RegisterBc7();
    RegisterBc9();
    SixZeros(0x2318043, 0x3d5a5fd2, 0x4ec3cb9, 0x87e3686, 0x11bb149d);
    PolyConcat(1, Expand("bc"), ZeroSymbols(6));
  }

  lemma ExpandTb()
    ensures Expand("tb") == [3, 3, 0, 20, 2]
  {
    assert 'b' as int == 98 && 'c' as int == 99 && 't' as int == 116;
  }

  lemma RegisterTb0()
    ensures Poly(0x1, [3, 3, 0, 20, 2]) == 0x2318282
  {
    hide Poly;
    var vs := [3, 3, 0, 20, 2];
    TapsSpelled(Top(0x1));
    PolyAt(0x1, vs, 0);
    TapsSpelled(Top(0x23));
    PolyAt(0x23, vs, 1);
    TapsSpelled(Top(0x463));
    PolyAt(0x463, vs, 2);
    TapsSpelled(Top(0x8c60));
    PolyAt(0x8c60, vs, 3);
    TapsSpelled(Top(0x118c14));
    PolyAt(0x118c14, vs, 4);
    PolyEnd(0x2318282, vs);
  }

  lemma RegisterTb5()
    ensures Poly(0x2318282, [0]) == 0x3d5a07f2
  {
    hide Poly;
    var vs := [0];
    TapsSpelled(Top(0x2318282));
    PolyAt(0x2318282, vs, 0);
    PolyEnd(0x3d5a07f2, vs);
  }

  lemma RegisterTb6()
    ensures Poly(0x3d5a07f2, [0]) == 0x4e738b9
  {
    hide Poly;
    var vs := [0];
    TapsSpelled(Top(0x3d5a07f2));
    PolyAt(0x3d5a07f2, vs, 0);
    PolyEnd(0x4e738b9, vs);
  }

  lemma RegisterTb7()
    ensures Poly(0x4e738b9, [0, 0]) == 0x246e3686
  {
    hide Poly;
    var vs := [0, 0];
    TapsSpelled(Top(0x4e738b9));
    PolyAt(0x4e738b9, vs, 0);
    TapsSpelled(Top(0x3ab7994d));
    PolyAt(0x3ab7994d, vs, 1);
    PolyEnd(0x246e3686, vs);
  }

  lemma RegisterTb9()
    ensures Poly(0x246e3686, [0, 0]) == 0x304783c0
  {
    hide Poly;
    var vs := [0, 0];
    TapsSpelled(Top(0x246e3686));
    PolyAt(0x246e3686, vs, 0);
    TapsSpelled(Top(0x1823c1e));
    PolyAt(0x1823c1e, vs, 1);
    PolyEnd(0x304783c0, vs);
  }

  /** The register after "tb" and six zero symbols. */
  lemma PolyTb()
    ensures Poly(1, Expand("tb") + ZeroSymbols(6)) == 0x304783c0
  {
    hide Poly, Expand;
    ExpandTb();
    RegisterTb0();
    RegisterTb5();
    RegisterTb6();
    RegisterTb7();
    RegisterTb9();
    SixZeros(0x2318282, 0x3d5a07f2, 0x4e738b9, 0x246e3686, 0x304783c0);
    PolyConcat(1, Expand("tb"), ZeroSymbols(6));
  }

  lemma UnpackIs(word: bv32, a: Symbol, b: Symbol, c: Symbol, d: Symbol, e: Symbol, f: Symbol)
    requires word < BITS30 && Push(Push(Push(Push(Push(Push(0, a), b), c), d), e), f) == word
    ensures Unpack(word) == [a, b, c, d, e, f]
  {
    hide Push, Unpack;
    var ws := [a, b, c, d, e, f];
    ShiftInSix(a, b, c, d, e, f);
    ShiftInUnpack(word);
    if Unpack(word) != ws {
      ShiftInInjective(0, 0, Unpack(word), ws);
    }
  }

  lemma ShiftInSix(a: Symbol, b: Symbol, c: Symbol, d: Symbol, e: Symbol, f: Symbol)
    ensures ShiftIn(0, [a, b, c, d, e, f]) == Push(Push(Push(Push(Push(Push(0, a), b), c), d), e), f)
  {
    hide Push;
    var ws := [a, b, c, d, e, f];
    var p2 := Push(Push(0, a), b);
    var p4 := Push(Push(p2, c), d);
    assert ws[1..] == [b, c, d, e, f] && [b, c, d, e, f][1..] == [c, d, e, f] && [c, d, e, f][1..] == [d, e, f];
    assert ShiftIn(0, ws) == ShiftIn(p2, [c, d, e, f]);
    assert [d, e, f][1..] == [e, f] && [e, f][1..] == [f] && [f][1..] == [];
    assert ShiftIn(p2, [c, d, e, f]) == ShiftIn(p4, [e, f]);
    assert ShiftIn(p4, [e, f]) == ShiftIn(Push(p4, e), [f]);
    assert ShiftIn(Push(p4, e), [f]) == ShiftIn(Push(Push(p4, e), f), []);
  }

  lemma SumBc()
    ensures Checksum(Expand("bc"), BECH32_CONST) == [8, 27, 22, 5, 4, 28]
  {
    hide Unpack, Expand, Poly;
    PolyBc();
    UnpackIs(0x11bb149c, 8, 27, 22, 5, 4, 28);
  }

  lemma SumBcM()
    ensures Checksum(Expand("bc"), BECH32M_CONST) == [29, 7, 6, 9, 1, 30]
  {
    hide Unpack, Expand, Poly;
    PolyBc();
    UnpackIs(0x3a73243e, 29, 7, 6, 9, 1, 30);
  }

  lemma SumTb()
    ensures Checksum(Expand("tb"), BECH32_CONST) == [24, 4, 15, 0, 30, 1]
  {
    hide Unpack, Expand, Poly;
    PolyTb();
    UnpackIs(0x304783c1, 24, 4, 15, 0, 30, 1);
  }

  lemma SumTbM()
    ensures Checksum(Expand("tb"), BECH32M_CONST) == [13, 24, 31, 12, 27, 3]
  {
    hide Unpack, Expand, Poly;
    PolyTb();
    UnpackIs(0x1b8fb363, 13, 24, 31, 12, 27, 3);
  }

  const PANIC: string := "tb1dclvmr"

  lemma PanicSpelled()
    ensures DataString([13, 24, 31, 12, 27, 3]) == "dclvmr"
  {
    assert (13 as Symbol) as nat == 13 && (24 as Symbol) as nat == 24 && (31 as Symbol) as nat == 31;
    assert (12 as Symbol) as nat == 12 && (27 as Symbol) as nat == 27 && (3 as Symbol) as nat == 3;
  }

  /** A six-symbol data part is all checksum, and only one of the four has a first symbol its own constant allows. */
  lemma SixSymbols(hrp: string, data: seq<Symbol>)
    requires SupportedPrefix(hrp) && |data| == 6
    ensures DecodeData(hrp, data) == Crash <==> hrp == "tb" && data == [13, 24, 31, 12, 27, 3]
  {
    hide Poly, Checksum, Expand, Regroup;
    ConstantBound(data[0]);
    ChecksumExact(Expand(hrp), data, Constant(data[0]));
    if hrp == "bc" {
      SumBc();
      SumBcM();
    } else {
      SumTb();
      SumTbM();
    }
  }

  /** The decoder panics on exactly one address, a test-network one, in either case; never on a "bc" one. */
  lemma CrashExact(s: string)
    ensures Decode(s) == Crash <==> SingleCase(s) && Lower(s) == PANIC
  {
    hide DecodeData, HasLower, HasUpper, Printable, LastOne, SymbolChar, CharSymbol;
    var data: seq<Symbol> := [13, 24, 31, 12, 27, 3];
    PanicSpelled();
    if SingleCase(s) && Lower(s) == PANIC {
      assert PANIC == "tb" + "1" + DataString(data);
      DecodeSpelling(s, "tb", data);
      SixSymbols("tb", data);
    }
    if Decode(s) == Crash {
      var lower := Lower(s);
      var pos := LastOne(lower);
      PartsOfDecoded(lower);
      CrashHasSixSymbols(lower[..pos], DataSymbols(lower[pos + 1..]));
      SixSymbols(lower[..pos], DataSymbols(lower[pos + 1..]));
    }
  }

  lemma CrashHasSixSymbols(hrp: string, data: seq<Symbol>)
    requires SupportedPrefix(hrp) && |data| >= 6 && DecodeData(hrp, data) == Crash
    ensures |data| == 6
  {
    hide Poly, Regroup, Expand, Constant;
  }
}
