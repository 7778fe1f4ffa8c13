/**
  Addresses of four chain families: recognition, canonical form, and the two
  TRON notations. The hash functions are parameters.

  Each family is a check of shape followed by a decoder. That no string belongs
  to two of them comes from the decoders: their lengths, first characters and
  alphabets leave no room.
 */
module ChainAddress {
  import opened Wrappers
  import opened Ascii
  import opened Numerals
  import opened Base58
  import Bech32
  import BitRegroup

  datatype Family = Evm | Tron | Btc | Sol

  datatype AddressError = BadEvm | BadTron | BadBtc | BadSol | UnknownChain

  /** The canonical address, and whether its letter case fails the checksum of ERC-55. */
  datatype Parsed = Parsed(address: string, warn: bool)

  /** Hexadecimal Keccak-256 of a string; nothing but its length is used. */
  type Digest = f: string -> string | forall x :: |f(x)| == 64
    witness (x: string) => seq(64, (i: nat) => '0')

  datatype Hashes = Hashes(sum: Checksum, keccak: Digest)

  function FamilyOf(chain: string): Option<Family> {
    if chain == "eth" || chain == "arb" || chain == "op" || chain == "base" then Some(Evm)
    else if chain == "tron" then Some(Tron)
    else if chain == "btc" then Some(Btc)
    else if chain == "sol" then Some(Sol)
    else None
  }

  // ---------------------------------------------------------------- the four families

  predicate IsHex(c: char) { '0' <= c <= '9' || 'a' <= c <= 'f' || 'A' <= c <= 'F' }

  predicate EvmShape(s: string) {
    |s| == 42 && s[0] == '0' && s[1] == 'x' && forall i :: 2 <= i < 42 ==> IsHex(s[i])
  }

  /** A hex letter is upper case exactly when the digest's digit in its place is 8 or more. */
  predicate Eip55Valid(keccak: Digest, s: string)
    requires EvmShape(s)
  {
    var body := s[2..];
    var sum := keccak(Lower(body));
    forall i :: 0 <= i < |body| && !('0' <= body[i] <= '9') ==> (sum[i] >= '8' <==> 'A' <= body[i] <= 'F')
  }

  function ParseEvm(keccak: Digest, s: string): Result<Parsed, AddressError> {
    if !EvmShape(s) then Err(BadEvm)
    else
      var body := s[2..];
      var lower := Lower(body);
      var mixed := body != lower && body != Upper(body);
      Ok(Parsed("0x" + lower, mixed && !Eip55Valid(keccak, s)))
  }

  function ParseTron(sum: Checksum, s: string): Result<Parsed, AddressError> {
    if |s| != 34 || s[0] != 'T' then Err(BadTron)
    else
      match CheckDecode(sum, s)
      case Err(_) => Err(BadTron)
      case Ok((version, payload)) =>
        if version != 0x41 || |payload| != 20 then Err(BadTron) else Ok(Parsed(s, false))
  }

  predicate SegwitShape(s: string) { "bc1" <= Lower(s) }

  function ParseSegwit(s: string): Result<Parsed, AddressError> {
    match Bech32.Decode(s)
    case Rejected(_) => Err(BadBtc)
    case Crash => Err(BadBtc)
    case Decoded(hrp, version, program) =>
      if hrp != "bc" then Err(BadBtc)
      else if version == 0 then
        if |program| != 20 && |program| != 32 then Err(BadBtc) else Ok(Parsed(Lower(s), false))
      else if version == 1 then
        if |program| != 32 then Err(BadBtc) else Ok(Parsed(Lower(s), false))
      else Err(BadBtc)
  }

  function ParseBtc(sum: Checksum, s: string): Result<Parsed, AddressError> {
    if s == "" then Err(BadBtc)
    else if SegwitShape(s) then ParseSegwit(s)
    else if s[0] == '1' || s[0] == '3' then
      match CheckDecode(sum, s)
      case Err(_) => Err(BadBtc)
      case Ok((version, payload)) =>
        if |payload| != 20 then Err(BadBtc)
        else if (s[0] == '1' && version == 0x00) || (s[0] == '3' && version == 0x05) then Ok(Parsed(s, false))
        else Err(BadBtc)
    else Err(BadBtc)
  }

  function ParseSol(s: string): Result<Parsed, AddressError> {
    if |s| < 32 || |s| > 44 then Err(BadSol)
    else
      match Decode58(s)
      case Err(_) => Err(BadSol)
      case Ok(b) => if |b| != 32 then Err(BadSol) else Ok(Parsed(s, false))
  }

  function ParseFamily(h: Hashes, family: Family, raw: string): Result<Parsed, AddressError> {
    var s := Trim(raw);
    match family
    case Evm => ParseEvm(h.keccak, s)
    case Tron => ParseTron(h.sum, s)
    case Btc => ParseBtc(h.sum, s)
    case Sol => ParseSol(s)
  }

  function ParseChainAddress(h: Hashes, chain: string, raw: string): Result<Parsed, AddressError> {
    match FamilyOf(chain)
    case None => Err(UnknownChain)
    case Some(family) => ParseFamily(h, family, raw)
  }

  /** The Bitcoin branch never reaches the decoder's panic. */
  lemma ParseNeverPanics(s: string)
    requires SegwitShape(s)
    ensures Bech32.Decode(s) != Bech32.Crash
  {
    hide Bech32.Decode;
    Bech32.CrashExact(s);
    assert Lower(s)[0] == 'b';
    assert Bech32.PANIC[0] == 't';
  }

  // ---------------------------------------------------------------- what each family accepts

  /** An EVM address is 0x and forty hexadecimal digits in either case; its canonical form has them all in lower case. */
  lemma EvmExact(keccak: Digest, s: string)
    ensures ParseEvm(keccak, s).Ok? <==> |s| == 42 && s[..2] == "0x" && forall i :: 2 <= i < 42 ==> s[i] in "0123456789abcdefABCDEF"
    ensures ParseEvm(keccak, s).Ok? ==> ParseEvm(keccak, s).value.address == "0x" + Lower(s[2..])
  {
    forall c: char ensures IsHex(c) <==> c in "0123456789abcdefABCDEF" {
      HexDigits(c);
    }
  }

  lemma HexDigits(c: char)
    ensures IsHex(c) <==> c in "0123456789abcdefABCDEF"
  {
    var digits := "0123456789abcdefABCDEF";
    if IsHex(c) {
      var i := if c <= '9' then c as int - '0' as int else if 'a' <= c then c as int - 'a' as int + 10 else c as int - 'A' as int + 16;
      assert digits[i] == c;
    }
  }

  /** A Base58Check string with a 20-byte payload decodes to 25 bytes. */
  lemma CheckedLength(sum: Checksum, s: string)
    ensures CheckDecode(sum, s).Ok? && |CheckDecode(sum, s).value.1| == 20 ==>
              Decode58(s).Ok? && |Decode58(s).value| == 25 && Valid58(s) && s != ""
  {
    hide Index58;
  }

  lemma AcceptedEvm(h: Hashes, s: string)
    requires ParseEvm(h.keccak, s).Ok?
    ensures s != "" && s[0] == '0'
  {
  }

  lemma AcceptedTron(h: Hashes, s: string)
    ensures ParseTron(h.sum, s).Ok? ==> |s| == 34 && s[0] == 'T' && Decode58(s).Ok? && |Decode58(s).value| == 25
  {
    hide Decode58;
    if ParseTron(h.sum, s).Ok? {
      CheckedLength(h.sum, s);
    }
  }

  lemma AcceptedBtc(h: Hashes, s: string)
    ensures ParseBtc(h.sum, s).Ok? ==> s != ""
    ensures ParseBtc(h.sum, s).Ok? && SegwitShape(s) ==> (s[0] == 'b' || s[0] == 'B') && (|s| == 42 || |s| == 62)
    ensures ParseBtc(h.sum, s).Ok? && !SegwitShape(s) ==> (s[0] == '1' || s[0] == '3') && Decode58(s).Ok? && |Decode58(s).value| == 25
  {
    hide Decode58, Bech32.Decode;
    if ParseBtc(h.sum, s).Ok? {
      if SegwitShape(s) {
        SegwitLength(s);
        assert Lower(s)[0] == LowerChar(s[0]) == 'b';
      } else {
        CheckedLength(h.sum, s);
      }
    }
  }

  lemma SegwitLength(s: string)
    ensures ParseSegwit(s).Ok? ==> |s| == 42 || |s| == 62
  {
    hide Bech32.Decode, Bech32.EncodeData;
    if ParseSegwit(s).Ok? {
      var d := Bech32.Decode(s);
      Bech32.DecodeExact(s, d.hrp, d.version, d.program);
      Bech32.EncodeDataLength(d.hrp, d.version, d.program);
      assert |Lower(s)| == 3 + |Bech32.EncodeData(d.hrp, d.version, d.program)|;
    }
  }

  lemma AcceptedSol(s: string)
    requires ParseSol(s).Ok?
    ensures 32 <= |s| <= 44 && Decode58(s).Ok? && |Decode58(s).value| == 32 && Valid58(s)
  {
  }

  /** 42 base-58 digits, the first of them not zero, are worth fewer than 32 bytes. */
  lemma ShortBase58(s: string)
    requires |s| == 42 && s[0] != '1' && Decode58(s).Ok?
    ensures |Decode58(s).value| < 32
  {
    hide Index58, FromNat, ToNat, Pow;
    var vs := Values58(s);
    var n := ToNat(58, vs);
    CharOfIndex(s[0]);
    assert Char58(0) == '1';
    LeadingZerosUnique(vs, 0);
    ToNatBound(58, vs);
    PowersInterleave();
    FromNatBound(256, n, 31);
  }

  // ---------------------------------------------------------------- nothing else is accepted, and nothing valid refused

  /** ERC-55: letters of the body in both cases, and not the casing the digest asks for. */
  lemma EvmWarnsExact(keccak: Digest, s: string)
    requires ParseEvm(keccak, s).Ok?
    ensures ParseEvm(keccak, s).value.warn <==> HasLower(s[2..]) && HasUpper(s[2..]) && !Eip55Valid(keccak, s)
  {
    hide Eip55Valid;
    CaseChanges(s[2..]);
  }

  lemma CaseChanges(s: string)
    ensures s != Lower(s) <==> HasUpper(s)
    ensures s != Upper(s) <==> HasLower(s)
  {
    if !HasLower(s) {
      assert Upper(s) == s;
    }
    if i :| 0 <= i < |s| && IsLower(s[i]) {
      assert Upper(s)[i] != s[i];
    }
    if i :| 0 <= i < |s| && IsUpper(s[i]) {
      assert Lower(s)[i] != s[i];
    } else {
      LowerOfLower(s);
    }
  }

  /** Each address has one casing that passes the checksum. */
  lemma ChecksumCasingUnique(keccak: Digest, s: string, t: string)
    requires EvmShape(s) && EvmShape(t) && Lower(s[2..]) == Lower(t[2..])
    requires Eip55Valid(keccak, s) && Eip55Valid(keccak, t)
    ensures s == t
  {
    forall i | 0 <= i < 40 ensures s[2..][i] == t[2..][i] {
      assert LowerChar(s[2..][i]) == Lower(s[2..])[i] == Lower(t[2..])[i] == LowerChar(t[2..][i]);
    }
    assert s == s[..2] + s[2..] && t == t[..2] + t[2..];
  }

  /** A version byte and 20-byte payload under which s is the Base58Check encoding. */
  ghost predicate Encodes(sum: Checksum, version: Byte, s: string) {
    exists payload: seq<Byte> :: |payload| == 20 && s == CheckEncode(sum, version, payload)
  }

  lemma EncodesExact(sum: Checksum, version: Byte, s: string)
    ensures Encodes(sum, version, s) <==>
            CheckDecode(sum, s).Ok? && CheckDecode(sum, s).value.0 == version && |CheckDecode(sum, s).value.1| == 20
  {
    hide CheckDecode, CheckEncode;
    if Encodes(sum, version, s) {
      var payload: seq<Byte> :| |payload| == 20 && s == CheckEncode(sum, version, payload);
      CheckDecodeExact(sum, s, version, payload);
    }
    if CheckDecode(sum, s).Ok? && CheckDecode(sum, s).value.0 == version {
      CheckDecodeExact(sum, s, version, CheckDecode(sum, s).value.1);
    }
  }

  /** 25 bytes led by a nonzero version are a 34-digit base-58 number with a fixed first digit. */
  lemma VersionShape(sum: Checksum, version: Byte, payload: seq<Byte>, d: nat)
    requires |payload| == 20 && 0 < version && 0 < d < 58
    requires d * Pow(58, 33) <= version * Pow(256, 24) && (version + 1) * Pow(256, 24) <= (d + 1) * Pow(58, 33)
    ensures var s := CheckEncode(sum, version, payload); |s| == 34 && s[0] == Char58(d)
  {
    hide ToNat, FromNat, Pow, Index58;
    var body: seq<Byte> := [version] + payload;
    var rest := payload + sum(body);
    var b := body + sum(body);
    assert b == [version] + rest;
    LeadingZerosUnique(b, 0);
    var n := ToNat(256, b);
    ToNatCons(256, version, rest);
    ToNatBound(256, rest);
    MulSucc(version, Pow(256, 24));
    LeadingDigit(58, n, d, 33);
    assert Zeros(0) + FromNat(58, n) == FromNat(58, n);
  }

  /** TRON accepts exactly the encodings of 20 bytes under version 0x41: its length and letter tests refuse none of them. */
  lemma TronExact(sum: Checksum, s: string)
    ensures ParseTron(sum, s).Ok? <==> Encodes(sum, 0x41, s)
  {
    hide CheckDecode, CheckEncode, Pow, Index58;
    EncodesExact(sum, 0x41, s);
    if Encodes(sum, 0x41, s) {
      var payload: seq<Byte> :| |payload| == 20 && s == CheckEncode(sum, 0x41, payload);
      PowersInterleave();
      VersionShape(sum, 0x41, payload, 26);
      CharNames();
    }
  }

  lemma CharNames()
    ensures Char58(0) == '1' && Char58(2) == '3' && Char58(26) == 'T'
  {
  }

  /** A version of zero shows as a leading '1'. */
  lemma ZeroVersionShape(sum: Checksum, payload: seq<Byte>)
    requires |payload| == 20
    ensures var s := CheckEncode(sum, 0, payload); s != "" && s[0] == '1'
  {
    hide ToNat, FromNat, Index58;
    var body: seq<Byte> := [0] + payload;
    var b := body + sum(body);
    assert b[0] == 0 && LeadingZeros(b) > 0;
    CharNames();
  }

  /** A witness version and program that the main network uses: 20 or 32 bytes under version 0, 32 under version 1. */
  predicate MainNetProgram(version: BitRegroup.Symbol, program: seq<BitRegroup.Octet>) {
    if version == 0 then |program| == 20 || |program| == 32 else version == 1 && |program| == 32
  }

  /** s spells the SegWit address of such a program, in one case. */
  ghost predicate SpellsSegwit(s: string) {
    Bech32.SingleCase(s) &&
    exists version, program :: MainNetProgram(version, program) && Lower(s) == Bech32.Encode("bc", version, program)
  }

  lemma MainNetIsValid(version: BitRegroup.Symbol, program: seq<BitRegroup.Octet>)
    requires MainNetProgram(version, program)
    ensures Bech32.ValidWitness("bc", version, program)
  {
  }

  lemma ParseSegwitDecoded(s: string)
    ensures ParseSegwit(s).Ok? <==>
            Bech32.Decode(s).Decoded? && Bech32.Decode(s).hrp == "bc" && MainNetProgram(Bech32.Decode(s).version, Bech32.Decode(s).program)
  {
    hide Bech32.Decode;
  }

  lemma SegwitExact(s: string)
    ensures ParseSegwit(s).Ok? <==> SpellsSegwit(s)
    ensures SpellsSegwit(s) ==> SegwitShape(s)
  {
    hide ParseSegwit, Bech32.Decode, Bech32.EncodeData, MainNetProgram, Bech32.ValidWitness, Bech32.SingleCase;
    ParseSegwitDecoded(s);
    if ParseSegwit(s).Ok? {
      var d := Bech32.Decode(s);
      Bech32.DecodeExact(s, "bc", d.version, d.program);
    }
    if SpellsSegwit(s) {
      var version, program :| MainNetProgram(version, program) && Lower(s) == Bech32.Encode("bc", version, program);
      MainNetIsValid(version, program);
      Bech32.DecodeExact(s, "bc", version, program);
    }
  }

  /** Bitcoin accepts exactly the SegWit spellings and the encodings of 20 bytes under versions 0 and 5. */
  lemma BtcExact(sum: Checksum, s: string)
    ensures ParseBtc(sum, s).Ok? <==> SpellsSegwit(s) || Encodes(sum, 0, s) || Encodes(sum, 5, s)
  {
    hide CheckDecode, CheckEncode, ParseSegwit, SegwitShape, SpellsSegwit, Encodes, Pow, Index58;
    SegwitExact(s);
    EncodesExact(sum, 0, s);
    EncodesExact(sum, 5, s);
    if Encodes(sum, 0, s) {
      VersionZeroFirst(sum, s);
    }
    if Encodes(sum, 5, s) {
      VersionFiveFirst(sum, s);
    }
    if SegwitShape(s) {
      SegwitFirst(s);
    }
  }

  lemma SegwitFirst(s: string)
    requires SegwitShape(s)
    ensures s != "" && (s[0] == 'b' || s[0] == 'B')
  {
    assert Lower(s)[0] == LowerChar(s[0]) == 'b';
  }

  lemma VersionZeroFirst(sum: Checksum, s: string)
    requires Encodes(sum, 0, s)
    ensures s != "" && s[0] == '1'
  {
    hide CheckEncode;
    var payload: seq<Byte> :| |payload| == 20 && s == CheckEncode(sum, 0, payload);
    ZeroVersionShape(sum, payload);
  }

  lemma VersionFiveFirst(sum: Checksum, s: string)
    requires Encodes(sum, 5, s)
    ensures s != "" && s[0] == '3'
  {
    hide CheckEncode, Pow;
    var payload: seq<Byte> :| |payload| == 20 && s == CheckEncode(sum, 5, payload);
    PowersOf58();
    PowersOf256();
    VersionShape(sum, 5, payload, 2);
    CharNames();
  }

  /** Solana accepts exactly the Base58 encodings of 32 bytes: its length test refuses none of them. */
  lemma SolExact(s: string)
    ensures ParseSol(s).Ok? <==> exists b: seq<Byte> :: |b| == 32 && s == Encode58(b)
  {
    hide Decode58, Encode58;
    if ParseSol(s).Ok? {
      EncodeDecode(s);
      var b: seq<Byte> := Decode58(s).value;
      assert |b| == 32 && s == Encode58(b);
    }
    if b: seq<Byte> :| |b| == 32 && s == Encode58(b) {
      DecodeEncode(b);
      EncodedLengthBound(b);
    }
  }

  /** The strings each family takes for an address. */
  ghost predicate Spells(h: Hashes, family: Family, s: string) {
    match family
    case Evm => |s| == 42 && s[..2] == "0x" && forall i :: 2 <= i < 42 ==> s[i] in "0123456789abcdefABCDEF"
    case Tron => Encodes(h.sum, 0x41, s)
    case Btc => SpellsSegwit(s) || Encodes(h.sum, 0, s) || Encodes(h.sum, 5, s)
    case Sol => exists b: seq<Byte> :: |b| == 32 && s == Encode58(b)
  }

  lemma FamilyExact(h: Hashes, family: Family, raw: string)
    ensures ParseFamily(h, family, raw).Ok? <==> Spells(h, family, Trim(raw))
  {
    hide ParseEvm, ParseTron, ParseBtc, ParseSol, Trim, Encodes, SpellsSegwit, Encode58;
    var s := Trim(raw);
    match family
    case Evm => EvmExact(h.keccak, s);
    case Tron => TronExact(h.sum, s);
    case Btc => BtcExact(h.sum, s);
    case Sol => SolExact(s);
  }

  /** What each chain name accepts, surrounding space apart: the four Ethereum chains alike, any other name nothing. */
  lemma ChainExact(h: Hashes, chain: string, raw: string)
    ensures var s := Trim(raw);
            ParseChainAddress(h, chain, raw).Ok? <==>
              || (chain in {"eth", "arb", "op", "base"} && Spells(h, Evm, s))
              || (chain == "tron" && Spells(h, Tron, s))
              || (chain == "btc" && Spells(h, Btc, s))
              || (chain == "sol" && Spells(h, Sol, s))
    ensures ParseChainAddress(h, chain, raw) == Err(UnknownChain) <==> chain !in {"eth", "arb", "op", "base", "tron", "btc", "sol"}
  {
    hide Trim, Spells, ParseEvm, ParseTron, ParseBtc, ParseSol;
    FamilyExact(h, Evm, raw);
    FamilyExact(h, Tron, raw);
    FamilyExact(h, Btc, raw);
    FamilyExact(h, Sol, raw);
    RefusalsAreOwn(h, Trim(raw));
  }

  lemma RefusalsAreOwn(h: Hashes, s: string)
    ensures ParseEvm(h.keccak, s) != Err(UnknownChain) && ParseTron(h.sum, s) != Err(UnknownChain)
    ensures ParseBtc(h.sum, s) != Err(UnknownChain) && ParseSol(s) != Err(UnknownChain)
  {
    hide Bech32.Decode, CheckDecode, Decode58, SegwitShape, EvmShape, Eip55Valid;
  }

  /** No string is an address of two families. */
  lemma FamiliesDisjoint(h: Hashes, f: Family, g: Family, raw: string)
    ensures ParseFamily(h, f, raw).Ok? && ParseFamily(h, g, raw).Ok? ==> f == g
  {
    hide ParseEvm, ParseTron, ParseBtc, ParseSol, Decode58, SegwitShape;
    if ParseFamily(h, f, raw).Ok? && ParseFamily(h, g, raw).Ok? {
      var s := Trim(raw);
      if Evm == f || Evm == g {
        AcceptedEvm(h, s);
      }
      if Tron == f || Tron == g {
        AcceptedTron(h, s);
      }
      if Btc == f || Btc == g {
        AcceptedBtc(h, s);
      }
      if Sol == f || Sol == g {
        AcceptedSol(s);
        FirstIsDigit58(s);
        if |s| == 42 && s[0] != '1' {
          ShortBase58(s);
        }
      }
    }
  }

  lemma FirstIsDigit58(s: string)
    requires s != "" && Valid58(s)
    ensures s[0] != '0'
  {
  }

  // ---------------------------------------------------------------- the canonical form

  lemma NoSpaceIn58(s: string)
    requires Valid58(s) && s != ""
    ensures Trimmed(s)
  {
  }

  lemma {:induction false} LowerTwice(s: string)
    ensures Lower(Lower(s)) == Lower(s)
  {
    LowerHasNoUpper(s);
    LowerOfLower(Lower(s));
  }

  lemma CanonicalEvm(keccak: Digest, s: string)
    requires ParseEvm(keccak, s).Ok?
    ensures var a := ParseEvm(keccak, s).value.address;
            Trimmed(a) && ParseEvm(keccak, a) == Ok(Parsed(a, false))
  {
    var a := ParseEvm(keccak, s).value.address;
    var lower := Lower(s[2..]);
    LowerTwice(s[2..]);
    assert a[2..] == lower;
    forall i | 2 <= i < 42 ensures IsHex(a[i]) {
      assert a[i] == LowerChar(s[2..][i - 2]) && s[2..][i - 2] == s[i];
    }
    assert EvmShape(a) && IsHex(a[41]);
  }

  lemma CanonicalSegwit(s: string)
    ensures SegwitShape(s) && ParseSegwit(s).Ok? ==>
              SegwitShape(Lower(s)) && ParseSegwit(Lower(s)) == Ok(Parsed(Lower(s), false)) && Trimmed(Lower(s))
  {
    hide Bech32.Decode, Bech32.Encode, Bech32.ValidWitness;
    if SegwitShape(s) && ParseSegwit(s).Ok? {
      var d := Bech32.Decode(s);
      LowerTwice(s);
      LowerHasNoUpper(s);
      Bech32.DecodeExact(s, d.hrp, d.version, d.program);
      Bech32.DecodeExact(Lower(s), d.hrp, d.version, d.program);
      SegwitTrimmed(Lower(s));
    }
  }

  lemma SegwitTrimmed(s: string)
    ensures Bech32.Decode(s).Decoded? ==> Trimmed(s)
  {
    hide Bech32.DecodeLower, HasLower, HasUpper;
    if Bech32.Decode(s).Decoded? {
      assert 33 <= s[0] as int <= 126 && 33 <= s[|s| - 1] as int <= 126;
    }
  }

  lemma CanonicalBtc(sum: Checksum, s: string)
    ensures var r := ParseBtc(sum, s);
            r.Ok? ==> Trimmed(r.value.address) && ParseBtc(sum, r.value.address) == Ok(Parsed(r.value.address, false))
  {
    hide ParseSegwit, CheckDecode, SegwitShape;
    if ParseBtc(sum, s).Ok? {
      if SegwitShape(s) {
        SegwitAddress(s);
        CanonicalSegwit(s);
      } else {
        CheckedLength(sum, s);
        NoSpaceIn58(s);
      }
    }
  }

  lemma SegwitAddress(s: string)
    ensures ParseSegwit(s).Ok? ==> ParseSegwit(s).value.address == Lower(s)
  {
    hide Bech32.Decode;
  }

  /** Parsing what parsing returned gives it back unchanged, with no warning. */
  lemma CanonicalIsFixed(h: Hashes, chain: string, raw: string)
    ensures var r := ParseChainAddress(h, chain, raw);
            r.Ok? ==> ParseChainAddress(h, chain, r.value.address) == Ok(Parsed(r.value.address, false))
  {
    hide ParseEvm, ParseBtc, CheckDecode, Decode58, Trim, FamilyOf;
    if ParseChainAddress(h, chain, raw).Ok? {
      var s := Trim(raw);
      var a := ParseChainAddress(h, chain, raw).value.address;
      var family := FamilyOf(chain).value;
      if family == Evm {
        CanonicalEvm(h.keccak, s);
      } else if family == Tron {
        CheckedLength(h.sum, s);
        NoSpaceIn58(s);
      } else if family == Btc {
        CanonicalBtc(h.sum, s);
      } else {
        AcceptedSol(s);
        NoSpaceIn58(s);
      }
      TrimOfTrimmed(a);
    }
  }

  // ---------------------------------------------------------------- first match over a list of chains

  /** The address the first accepting chain of the list gives. */
  function FirstMatch(h: Hashes, order: seq<string>, raw: string): Option<string> {
    if order == [] then None
    else
      match ParseChainAddress(h, order[0], raw)
      case Ok(p) => Some(p.address)
      case Err(_) => FirstMatch(h, order[1..], raw)
  }

  method NormalizeListAddress(h: Hashes, raw: string) returns (r: Option<string>)
    ensures r == FirstMatch(h, ["eth", "tron", "btc", "sol"], raw)
  {
    hide ParseChainAddress;
    var order := ["eth", "tron", "btc", "sol"];
    for i := 0 to |order|
      invariant FirstMatch(h, order[i..], raw) == FirstMatch(h, order, raw)
    {
      assert order[i..][1..] == order[i + 1..];
      var p := ParseChainAddress(h, order[i], raw);
      if p.Ok? {
        return Some(p.value.address);
      }
    }
    r := None;
  }

  /** The first match is the address that any chain of the list accepting the string gives. */
  lemma {:induction false} FirstMatchIsAnyMatch(h: Hashes, order: seq<string>, chain: string, raw: string)
    ensures var r := ParseChainAddress(h, chain, raw);
            chain in order && r.Ok? ==> FirstMatch(h, order, raw) == Some(r.value.address)
    decreases |order|
  {
    hide ParseFamily, FamilyOf;
    if chain in order && ParseChainAddress(h, chain, raw).Ok? {
      if ParseChainAddress(h, order[0], raw).Ok? {
        FamiliesDisjoint(h, FamilyOf(order[0]).value, FamilyOf(chain).value, raw);
      } else {
        FirstMatchIsAnyMatch(h, order[1..], chain, raw);
      }
    }
  }

  lemma {:induction false} NoMatch(h: Hashes, order: seq<string>, raw: string)
    requires forall chain :: chain in order ==> ParseChainAddress(h, chain, raw).Err?
    ensures FirstMatch(h, order, raw) == None
    decreases |order|
  {
    hide ParseChainAddress;
    if order == [] {
    } else {
      NoMatch(h, order[1..], raw);
    }
  }

  /** Trying the same chains in another order gives the same answer. */
  lemma OrderDoesNotMatter(h: Hashes, p: seq<string>, q: seq<string>, raw: string)
    requires forall chain :: chain in p <==> chain in q
    ensures FirstMatch(h, p, raw) == FirstMatch(h, q, raw)
  {
    hide ParseChainAddress;
    if chain :| chain in p && ParseChainAddress(h, chain, raw).Ok? {
      FirstMatchIsAnyMatch(h, p, chain, raw);
      FirstMatchIsAnyMatch(h, q, chain, raw);
    } else {
      NoMatch(h, p, raw);
      NoMatch(h, q, raw);
    }
  }

  // ---------------------------------------------------------------- TRON in hexadecimal

  datatype TronError = BadHexLength | BadHexDigit | BadTronBase58

  function HexValue(c: char): (v: int)
    ensures -1 <= v < 16
  {
    if '0' <= c <= '9' then c as int - '0' as int
    else if 'a' <= c <= 'f' then c as int - 'a' as int + 10
    else if 'A' <= c <= 'F' then c as int - 'A' as int + 10
    else -1
  }

  function HexDigit(v: nat): (c: char)
    requires v < 16
    ensures HexValue(c) == v && !IsUpper(c)
  {
    if v < 10 then (v + '0' as int) as char else (v - 10 + 'a' as int) as char
  }

  lemma HexDigitOfValue(c: char)
    requires HexValue(c) >= 0
    ensures HexDigit(HexValue(c)) == LowerChar(c) && !IsSpace(c) && c != 'x' && c != 'X'
  {
  }

  predicate AllHex(s: string) { forall i :: 0 <= i < |s| ==> HexValue(s[i]) >= 0 }

  /** The bytes that pairs of digits spell; None for a bad digit or an odd digit left over. */
  function DecodeHex(s: string): Option<seq<Byte>> {
    if !AllHex(s) || |s| % 2 != 0 then None
    else Some(seq(|s| / 2, i requires 0 <= i < |s| / 2 => HexByte(s[2 * i], s[2 * i + 1])))
  }

  function HexByte(hi: char, lo: char): Byte
    requires HexValue(hi) >= 0 && HexValue(lo) >= 0
  {
    HexValue(hi) * 16 + HexValue(lo)
  }

  function EncodeHex(b: seq<Byte>): (s: string)
    ensures |s| == 2 * |b|
  {
    seq(2 * |b|, i requires 0 <= i < 2 * |b| => HexDigit(if i % 2 == 0 then b[i / 2] / 16 else b[i / 2] % 16))
  }

  lemma HexPair(b: seq<Byte>, i: nat)
    requires i < |b|
    ensures EncodeHex(b)[2 * i] == HexDigit(b[i] / 16) && EncodeHex(b)[2 * i + 1] == HexDigit(b[i] % 16)
    ensures HexByte(EncodeHex(b)[2 * i], EncodeHex(b)[2 * i + 1]) == b[i]
  {
    hide HexValue, HexDigit;
    assert (2 * i) / 2 == i && (2 * i + 1) / 2 == i;
  }

  lemma EncodedAllHex(b: seq<Byte>)
    ensures AllHex(EncodeHex(b))
  {
    hide HexValue, HexDigit;
  }

  lemma HexOfBytes(b: seq<Byte>)
    ensures DecodeHex(EncodeHex(b)) == Some(b) && AllHex(EncodeHex(b))
  {
    hide HexValue, HexDigit, EncodeHex, AllHex, HexByte;
    EncodedAllHex(b);
    var s := EncodeHex(b);
    var d := DecodeHex(s).value;
    forall i | 0 <= i < |b| ensures d[i] == b[i] {
      HexPair(b, i);
    }
    assert d == b;
  }

  lemma BytesOfHex(s: string)
    requires DecodeHex(s).Some?
    ensures EncodeHex(DecodeHex(s).value) == Lower(s)
  {
    hide HexValue, HexDigit, LowerChar;
    var b := DecodeHex(s).value;
    forall i | 0 <= i < |s| ensures EncodeHex(b)[i] == LowerChar(s[i]) {
      var k := i / 2;
      assert b[k] == HexByte(s[2 * k], s[2 * k + 1]);
      assert b[k] / 16 == HexValue(s[2 * k]) && b[k] % 16 == HexValue(s[2 * k + 1]);
      HexDigitOfValue(s[2 * k]);
      HexDigitOfValue(s[2 * k + 1]);
    }
  }

  function DropPrefix(s: string, prefix: string): string {
    if prefix <= s then s[|prefix|..] else s
  }

  /** The 40 digits left of the input once spaces, "0x", "0X" and the version byte "41" are stripped. */
  function BareHex(input: string): string {
    var s := DropPrefix(DropPrefix(Trim(input), "0x"), "0X");
    if |s| == 42 && "41" <= s then s[2..] else s
  }

  function TronHexToBase58(sum: Checksum, input: string): Result<string, TronError> {
    var s := BareHex(input);
    if |s| != 40 then Err(BadHexLength)
    else
      match DecodeHex(s)
      case None => Err(BadHexDigit)
      case Some(b) => Ok(CheckEncode(sum, 0x41, b))
  }

  function TronBase58ToHex(sum: Checksum, input: string): Result<string, TronError> {
    var s := Trim(input);
    if |s| != 34 || s[0] != 'T' then Err(BadTronBase58)
    else
      match CheckDecode(sum, s)
      case Err(_) => Err(BadTronBase58)
      case Ok((version, payload)) =>
        if version != 0x41 || |payload| != 20 then Err(BadTronBase58) else Ok(EncodeHex(payload))
  }

  /** Every 20-byte payload under version 0x41 is 34 characters led by T. */
  lemma TronShape(sum: Checksum, payload: seq<Byte>)
    requires |payload| == 20
    ensures var s := CheckEncode(sum, 0x41, payload); |s| == 34 && s[0] == 'T' && Trimmed(s)
  {
    hide Pow, Index58, CheckDecode;
    PowersInterleave();
    VersionShape(sum, 0x41, payload, 26);
    CharNames();
    ValidTrimmed(sum, payload);
  }

  lemma ValidTrimmed(sum: Checksum, payload: seq<Byte>)
    requires CheckEncode(sum, 0x41, payload) != ""
    ensures Trimmed(CheckEncode(sum, 0x41, payload))
  {
    hide Encode58;
    var body: seq<Byte> := [0x41] + payload;
    NoSpaceIn58(Encode58(body + sum(body)));
  }

  lemma TronDecodesShape(sum: Checksum, payload: seq<Byte>)
    requires |payload| == 20
    ensures TronBase58ToHex(sum, CheckEncode(sum, 0x41, payload)) == Ok(EncodeHex(payload))
  {
    hide CheckEncode, CheckDecode, Trim, EncodeHex;
    TronShape(sum, payload);
    TrimOfTrimmed(CheckEncode(sum, 0x41, payload));
    CheckDecodeEncode(sum, 0x41, payload);
  }

  /** Hexadecimal to Base58 and back gives the bare digits in lower case. */
  lemma HexRoundTrip(sum: Checksum, input: string)
    ensures var r := TronHexToBase58(sum, input);
            r.Ok? ==> TronBase58ToHex(sum, r.value) == Ok(Lower(BareHex(input)))
  {
    hide CheckEncode, TronBase58ToHex, BareHex;
    if TronHexToBase58(sum, input).Ok? {
      var s := BareHex(input);
      TronDecodesShape(sum, DecodeHex(s).value);
      BytesOfHex(s);
    }
  }

  /** Forty bare digits need no stripping. */
  lemma BareDigits(s: string)
    requires |s| == 40 && AllHex(s)
    ensures BareHex(s) == s
  {
    hide HexValue, IsSpace;
    HexDigitOfValue(s[0]);
    HexDigitOfValue(s[1]);
    HexDigitOfValue(s[39]);
    TrimOfTrimmed(s);
  }

  /** Forty digits read the same bare and behind every prefix; of two prefixes only "0x" before "0X" goes. */
  lemma PrefixesAgree(prefix: string, digits: string)
    requires prefix in {"", "0x", "0X", "0x0X"} && |digits| == 40 && AllHex(digits)
    ensures BareHex(prefix + digits) == digits && BareHex(prefix + "41" + digits) == digits
    ensures |BareHex("0X0x" + digits)| == 42
  {
    hide IsSpace, Trim, BareHex;
    BareAfter(prefix, digits);
    assert prefix + "41" + digits == prefix + ("41" + digits);
    BareAfter(prefix, "41" + digits);
    BareAfterBoth(digits);
  }

  lemma BareAfterBoth(digits: string)
    requires |digits| == 40 && AllHex(digits)
    ensures BareHex("0X0x" + digits) == "0x" + digits
  {
    hide HexValue, IsSpace, Trim;
    assert "0X0x" + digits == "0X" + ("0x" + digits);
    StaysWhole("0X", "0x" + digits);
    var s := "0X0x" + digits;
    assert s[1] == 'X' && ("0x" + digits)[0] == '0';
  }

  /** One prefix goes, and after it the version byte when 42 digits begin with it. */
  lemma BareAfter(prefix: string, digits: string)
    requires prefix in {"", "0x", "0X", "0x0X"} && |digits| >= 2 && AllHex(digits)
    ensures BareHex(prefix + digits) == if |digits| == 42 && "41" <= digits then digits[2..] else digits
  {
    hide HexValue, IsSpace, Trim;
    HexDigitOfValue(digits[0]);
    HexDigitOfValue(digits[1]);
    HexDigitOfValue(digits[|digits| - 1]);
    if prefix == "" {
      TrimOfTrimmed(digits);
      assert prefix + digits == digits;
    } else if prefix == "0x0X" {
      assert prefix + digits == "0x" + ("0X" + digits);
      StaysWhole("0x", "0X" + digits);
      StaysWhole("0X", digits);
    } else {
      StaysWhole(prefix, digits);
    }
  }

  /** A prefix before hexadecimal digits is not trimmed away, and is dropped once. */
  lemma StaysWhole(prefix: string, rest: string)
    requires prefix != "" && rest != "" && prefix[0] in {'0', '4'} && HexValue(rest[|rest| - 1]) >= 0
    ensures Trim(prefix + rest) == prefix + rest && DropPrefix(prefix + rest, prefix) == rest
  {
    hide Trim;
    TrimOfTrimmed(prefix + rest);
  }

  /** Base58 to hexadecimal and back gives the address, less surrounding space. */
  lemma TronRoundTrip(sum: Checksum, input: string)
    ensures var r := TronBase58ToHex(sum, input);
            r.Ok? ==> TronHexToBase58(sum, r.value) == Ok(Trim(input))
  {
    hide CheckEncode, CheckDecode, Trim, EncodeHex, BareHex;
    if TronBase58ToHex(sum, input).Ok? {
      var s := Trim(input);
      var payload := CheckDecode(sum, s).value.1;
      HexOfBytes(payload);
      BareDigits(EncodeHex(payload));
      CheckEncodeDecode(sum, s);
    }
  }

  // ---------------------------------------------------------------- the shape hint

  predicate Alphanumeric(c: char) { '0' <= c <= '9' || 'a' <= c <= 'z' || 'A' <= c <= 'Z' }

  predicate BtcSegwitShape(s: string) {
    SegwitShape(s) && 9 <= |s| <= 90 && forall i :: 3 <= i < |s| ==> Alphanumeric(s[i])
  }

  predicate BtcShape(s: string) {
    BtcSegwitShape(s) || (25 <= |s| <= 34 && (s[0] == '1' || s[0] == '3') && Valid58(s[1..]))
  }

  predicate TronShaped(s: string) { |s| == 34 && s[0] == 'T' && Valid58(s[1..]) }

  predicate SolShape(s: string) { 32 <= |s| <= 44 && Valid58(s) }

  function DetectByLength(s: string): Option<Family> {
    if 25 <= |s| <= 44 && Decode58(s).Ok? then
      var n := |Decode58(s).value|;
      if n == 32 && |s| >= 32 then Some(Sol)
      else if n == 25 && s[0] == 'T' then Some(Tron)
      else if n == 25 && (s[0] == '1' || s[0] == '3') then Some(Btc)
      else None
    else None
  }

  function DetectFamily(raw: string): Option<Family> {
    var s := Trim(raw);
    if s == "" then None
    else if EvmShape(s) then Some(Evm)
    else if SegwitShape(s) && BtcShape(s) then Some(Btc)
    else if DetectByLength(s).Some? then DetectByLength(s)
    else if TronShaped(s) then Some(Tron)
    else if BtcShape(s) then Some(Btc)
    else if SolShape(s) then Some(Sol)
    else None
  }

  lemma TwentyFiveBytes(s: string)
    requires Decode58(s).Ok? && |Decode58(s).value| == 25
    ensures 25 <= |s| <= 35 && Valid58(s)
  {
    hide Index58, Encode58;
    DecodedLengthBound(s);
    EncodeDecode(s);
    EncodedLengthBound(Decode58(s).value);
  }

  lemma SegwitAlphanumeric(s: string)
    ensures SegwitShape(s) && Bech32.Decode(s).Decoded? ==> forall i :: 3 <= i < |s| ==> Alphanumeric(s[i])
  {
    hide Bech32.Decode, Bech32.EncodeData, Bech32.SymbolChar;
    if SegwitShape(s) && Bech32.Decode(s).Decoded? {
      var d := Bech32.Decode(s);
      Bech32.DecodeExact(s, d.hrp, d.version, d.program);
      var data := Bech32.EncodeData(d.hrp, d.version, d.program);
      forall i | 3 <= i < |s| ensures Alphanumeric(s[i]) {
        Bech32.SymbolOfChar(data[i - 3]);
        assert Lower(s)[i] == LowerChar(s[i]) == Bech32.SymbolChar(data[i - 3]);
      }
    }
  }

  lemma Valid58IsAlphanumeric(s: string)
    requires Valid58(s)
    ensures forall i :: 0 <= i < |s| ==> Alphanumeric(s[i])
  {
  }

  lemma NotSegwitOrEvm(s: string)
    ensures SegwitShape(s) ==> s != "" && (s[0] == 'b' || s[0] == 'B')
    ensures EvmShape(s) ==> s[0] == '0'
  {
    if SegwitShape(s) {
      SegwitFirst(s);
    }
  }

  /**
    The hint names the family of every acceptable address except a Solana one
    that begins like a Bitcoin SegWit address, which it calls Bitcoin.
   */
  lemma DetectExact(h: Hashes, family: Family, raw: string)
    ensures ParseFamily(h, family, raw).Ok? ==> (DetectFamily(raw) == Some(family) <==> !(family == Sol && SegwitShape(Trim(raw))))
    ensures ParseFamily(h, family, raw).Ok? && family == Sol && SegwitShape(Trim(raw)) ==> DetectFamily(raw) == Some(Btc)
  {
    hide ParseEvm, ParseBtc, ParseTron, ParseSol, ParseSegwit, Decode58, SegwitShape, EvmShape, Valid58, Trim, TronShaped, SolShape;
    if ParseFamily(h, family, raw).Ok? {
      var s := Trim(raw);
      if family == Evm {
        AcceptedEvm(h, s);
        AcceptedEvmShape(h, s);
      } else if family == Tron {
        AcceptedTron(h, s);
        NotSegwitOrEvm(s);
      } else if family == Sol {
        AcceptedSol(s);
        FirstIsDigit58(s);
        NotSegwitOrEvm(s);
        Valid58IsAlphanumeric(s);
      } else {
        AcceptedBtc(h, s);
        NotSegwitOrEvm(s);
        if SegwitShape(s) {
          AcceptedSegwit(h, s);
        } else {
          TwentyFiveBytes(s);
        }
      }
    }
  }

  lemma AcceptedEvmShape(h: Hashes, s: string)
    requires ParseEvm(h.keccak, s).Ok?
    ensures EvmShape(s)
  {
  }

  lemma AcceptedSegwit(h: Hashes, s: string)
    ensures ParseBtc(h.sum, s).Ok? && SegwitShape(s) ==> BtcSegwitShape(s)
  {
    hide Bech32.Decode, CheckDecode;
    if ParseBtc(h.sum, s).Ok? && SegwitShape(s) {
      SegwitLength(s);
      SegwitAlphanumeric(s);
    }
  }

  /** The 43 base-58 digits "bc1" and forty '1's are a 32-byte number. */
  lemma ThirtyTwoBytes()
    ensures |FromNat(256, ToNat(58, [34, 35] + Zeros(41)))| == 32
  {
    hide ToNat, FromNat;
    var z := Zeros(41);
    ToNatDropZeros(58, z, 41);
    assert z[41..] == [];
    NoDigits(58);
    ToNatCons(58, 35, z);
    ToNatCons(58, 34, [35] + z);
    assert [34] + ([35] + z) == [34, 35] + z;
    assert Pow(58, 42) == Pow(58, 41) * 58;
    PowersOf58();
    PowersOf256();
    LeadingDigit(256, ToNat(58, [34, 35] + z), 8, 31);
  }

  lemma NoDigits(base: nat)
    ensures ToNat(base, []) == 0
  {
  }

  function LookAlike(): (s: string)
    ensures |s| == 43 && s[0] == 'b' && s[1] == 'c' && forall i :: 2 <= i < 43 ==> s[i] == '1'
  {
    "bc" + seq(41, i => '1')
  }

  lemma LookAlikeDecodes()
    ensures Decode58(LookAlike()).Ok? && |Decode58(LookAlike()).value| == 32
  {
    hide ToNat, FromNat, LookAlike;
    var s := LookAlike();
    assert Valid58(s);
    var vs := Values58(s);
    assert vs == [34, 35] + Zeros(41);
    LeadingZerosUnique(vs, 0);
    ThirtyTwoBytes();
  }

  /** A Solana address of that kind, taken for Bitcoin. */
  lemma SolanaTakenForBitcoin(h: Hashes)
    ensures ParseFamily(h, Sol, LookAlike()) == Ok(Parsed(LookAlike(), false)) && DetectFamily(LookAlike()) == Some(Btc)
  {
    hide Decode58, DetectFamily, Trim, LookAlike;
    var s := LookAlike();
    LookAlikeDecodes();
    assert Lower(s)[..3] == "bc1";
    TrimOfTrimmed(s);
    DetectExact(h, Sol, s);
  }
}
