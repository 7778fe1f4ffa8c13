/** Base58 and Base58Check, as the address code computes them. */
module Base58 {
  import opened Wrappers
  import opened Numerals

  type Byte = b: nat | b < 256

  datatype Base58Error = EmptyInput | InvalidCharacter | TooShort | ChecksumMismatch

  const ALPHABET: string := "123456789" + "ABCDEFGHJKLMN" + "PQRSTUVWXYZ" + "abcdefghijk" + "mnopqrstuvwxyz"

  /** The alphabet position of c, -1 for a character outside it. */
  function Index58(c: char): (d: int)
    ensures -1 <= d < 58
  {
    if '1' <= c <= '9' then c as int - '1' as int
    else if 'A' <= c <= 'H' then c as int - 'A' as int + 9
    else if 'J' <= c <= 'N' then c as int - 'J' as int + 17
    else if 'P' <= c <= 'Z' then c as int - 'P' as int + 22
    else if 'a' <= c <= 'k' then c as int - 'a' as int + 33
    else if 'm' <= c <= 'z' then c as int - 'm' as int + 44
    else -1
  }

  /** The character at alphabet position d. */
  function Char58(d: nat): (c: char)
    requires d < 58
    ensures Index58(c) == d
  {
    if d < 9 then (d + '1' as int) as char
    else if d < 17 then (d - 9 + 'A' as int) as char
    else if d < 22 then (d - 17 + 'J' as int) as char
    else if d < 33 then (d - 22 + 'P' as int) as char
    else if d < 44 then (d - 33 + 'a' as int) as char
    else (d - 44 + 'm' as int) as char
  }

  lemma CharOfIndex(c: char)
    requires Index58(c) >= 0
    ensures Char58(Index58(c)) == c
  {
  }

  /** The ranges above spell out the alphabet literal. */
  lemma AlphabetSpelled()
    ensures |ALPHABET| == 58 && forall d :: 0 <= d < 58 ==> ALPHABET[d] == Char58(d)
  {
    var a, b, c := "123456789", "ABCDEFGHJKLMN", "PQRSTUVWXYZ";
    var e, f := "abcdefghijk", "mnopqrstuvwxyz";
    assert forall d :: 0 <= d < 9 ==> a[d] == Char58(d);
    assert forall d :: 0 <= d < 13 ==> b[d] == Char58(d + 9);
    assert forall d :: 0 <= d < 11 ==> c[d] == Char58(d + 22);
    assert forall d :: 0 <= d < 11 ==> e[d] == Char58(d + 33);
    assert forall d :: 0 <= d < 14 ==> f[d] == Char58(d + 44);
  }

  // ---------------------------------------------------------------- encode and decode as functions

  predicate Valid58(s: string) {
    forall i :: 0 <= i < |s| ==> Index58(s[i]) >= 0
  }

  function Values58(s: string): (ds: seq<nat>)
    requires Valid58(s)
    ensures |ds| == |s| && Below(58, ds) && forall i :: 0 <= i < |s| ==> ds[i] == Index58(s[i])
  {
    seq(|s|, i requires 0 <= i < |s| => Index58(s[i]))
  }

  function Chars58(ds: seq<nat>): (s: string)
    requires Below(58, ds)
    ensures |s| == |ds| && Valid58(s) && forall i :: 0 <= i < |ds| ==> s[i] == Char58(ds[i])
  {
    seq(|ds|, i requires 0 <= i < |ds| => Char58(ds[i]))
  }

  lemma ValuesOfChars(ds: seq<nat>)
    requires Below(58, ds)
    ensures Values58(Chars58(ds)) == ds
  {
  }

  lemma CharsOfValues(s: string)
    requires Valid58(s)
    ensures Chars58(Values58(s)) == s
  {
    forall i | 0 <= i < |s| ensures Chars58(Values58(s))[i] == s[i] {
      CharOfIndex(s[i]);
    }
  }

  /** The bytes a nonempty valid string denotes: one zero byte per leading '1', then the shortest base-256 numeral. */
  function Decode58(s: string): Result<seq<Byte>, Base58Error> {
    if s == "" then Err(EmptyInput)
    else if !Valid58(s) then Err(InvalidCharacter)
    else Ok(Zeros(LeadingZeros(Values58(s))) + FromNat(256, ToNat(58, Values58(s))))
  }

  function Encode58(b: seq<Byte>): (s: string)
    ensures Valid58(s)
  {
    Chars58(Zeros(LeadingZeros(b)) + FromNat(58, ToNat(256, b)))
  }

  // ---------------------------------------------------------------- the two loops

  lemma ValuesSnoc(s: string, i: nat)
    requires i < |s| && Valid58(s[..i]) && Index58(s[i]) >= 0
    ensures Valid58(s[..i + 1]) && ToNat(58, Values58(s[..i + 1])) == ToNat(58, Values58(s[..i])) * 58 + Index58(s[i])
  {
    hide Index58;
    assert s[..i + 1] == s[..i] + [s[i]];
    assert Values58(s[..i + 1]) == Values58(s[..i]) + [Index58(s[i])];
    ToNatSnoc(58, Values58(s[..i]), Index58(s[i]));
  }

  /** The leading '1's are the leading zeros. */
  lemma OnesAreZeros(s: string, k: nat)
    requires Valid58(s) && k <= |s| && (forall i :: 0 <= i < k ==> s[i] == '1') && (k < |s| ==> s[k] != '1')
    ensures LeadingZeros(Values58(s)) == k
  {
    if k < |s| {
      CharOfIndex(s[k]);
    }
    LeadingZerosUnique(Values58(s), k);
  }

  method Base58Decode(s: string) returns (r: Result<seq<Byte>, Base58Error>)
    ensures r == Decode58(s)
  {
    hide Index58, FromNat;
    if s == "" {
      return Err(EmptyInput);
    }
    var zeros := 0;
    while zeros < |s| && s[zeros] == '1'
      invariant 0 <= zeros <= |s|
      invariant forall i :: 0 <= i < zeros ==> s[i] == '1'
    {
      zeros := zeros + 1;
    }
    var n: nat := 0;
    for i := 0 to |s|
      invariant Valid58(s[..i]) && n == ToNat(58, Values58(s[..i]))
    {
      var digit := Index58(s[i]);
      if digit < 0 {
        return Err(InvalidCharacter);
      }
      ValuesSnoc(s, i);
      n := n * 58 + digit;
    }
    assert s[..|s|] == s;
    OnesAreZeros(s, zeros);
    r := Ok(Zeros(zeros) + FromNat(256, n));
  }

  function Reversed<T>(s: seq<T>): (r: seq<T>)
    ensures |r| == |s| && forall i :: 0 <= i < |s| ==> r[i] == s[|s| - 1 - i]
  {
    seq(|s|, i requires 0 <= i < |s| => s[|s| - 1 - i])
  }

  /** Digits come out least significant first, the leading ones are appended, and the whole is reversed in place. */
  method Base58Encode(b: seq<Byte>) returns (s: string)
    ensures s == Encode58(b)
  {
    hide Index58, Char58, FromNat, ToNat, LeadingZeros;
    var zeros := CountZeros(b);
    ghost var digits := FromNat(58, ToNat(256, b));
    var chars := DigitChars(ToNat(256, b));
    for i := 0 to zeros
      invariant |chars| == |digits| + i
      invariant forall j :: 0 <= j < |digits| ==> chars[j] == Char58(digits[|digits| - 1 - j])
      invariant forall j :: |digits| <= j < |chars| ==> chars[j] == '1'
    {
      chars := chars + ['1'];
    }
    ReversedDigits(chars, digits, zeros);
    s := ReverseInPlace(chars);
  }

  method CountZeros(b: seq<Byte>) returns (zeros: nat)
    ensures zeros == LeadingZeros(b)
  {
    zeros := 0;
    while zeros < |b| && b[zeros] == 0
      invariant 0 <= zeros <= |b|
      invariant forall i :: 0 <= i < zeros ==> b[i] == 0
    {
      zeros := zeros + 1;
    }
    LeadingZerosUnique(b, zeros);
  }

  /** The base-58 digits of value as characters, least significant first. */
  method DigitChars(value: nat) returns (chars: string)
    ensures |chars| == |FromNat(58, value)|
    ensures forall i :: 0 <= i < |chars| ==> chars[i] == Char58(FromNat(58, value)[|chars| - 1 - i])
  {
    hide Index58, Char58, FromNat;
    ghost var digits := FromNat(58, value);
    var n := value;
    chars := [];
    LastDigit(58, n);
    while n > 0
      invariant |chars| <= |digits| && FromNat(58, n) == digits[..|digits| - |chars|]
      invariant forall i :: 0 <= i < |chars| ==> chars[i] == Char58(digits[|digits| - 1 - i])
      invariant n == 0 ==> |chars| == |digits|
      decreases n
    {
      DivShrinks(58, n);
      LastDigit(58, n);
      LastDigit(58, n / 58);
      var mod := n % 58;
      assert digits[..|digits| - |chars|] == FromNat(58, n / 58) + [mod];
      n := n / 58;
      chars := chars + [Char58(mod)];
    }
  }

  lemma ReversedDigits(chars: string, digits: seq<nat>, zeros: nat)
    requires Below(58, digits) && |chars| == |digits| + zeros
    requires forall j :: 0 <= j < |digits| ==> chars[j] == Char58(digits[|digits| - 1 - j])
    requires forall j :: |digits| <= j < |chars| ==> chars[j] == '1'
    ensures Reversed(chars) == Chars58(Zeros(zeros) + digits)
  {
    hide Index58;
  }

  method ReverseInPlace(s: string) returns (r: string)
    ensures r == Reversed(s)
  {
    var chars := new char[|s|](i requires 0 <= i < |s| => s[i]);
    var i, j := 0, |s| - 1;
    while i < j
      invariant 0 <= i <= |s| && i + j == |s| - 1 && i <= j + 1
      invariant forall k :: 0 <= k < i || j < k < |s| ==> chars[k] == s[|s| - 1 - k]
      invariant forall k :: i <= k <= j ==> chars[k] == s[k]
    {
      chars[i], chars[j] := chars[j], chars[i];
      i, j := i + 1, j - 1;
    }
    r := chars[..];
  }

  // ---------------------------------------------------------------- Base58 is a bijection

  /** Decoding what was encoded gives the bytes back, leading zeros included. */
  lemma DecodeEncode(b: seq<Byte>)
    requires b != []
    ensures Encode58(b) != "" && Decode58(Encode58(b)) == Ok(b)
  {
    hide ToNat, FromNat, LeadingZeros, Values58, Chars58;
    var n := ToNat(256, b);
    var k := LeadingZeros(b);
    var ds := Zeros(k) + FromNat(58, n);
    ValuesOfChars(ds);
    LeadingZerosUnique(ds, k);
    ToNatDropZeros(58, ds, k);
    assert ds[k..] == FromNat(58, n);
    ToNatFromNat(58, n);
    ToNatDropZeros(256, b, k);
    FromNatToNat(256, b[k..]);
    assert b == Zeros(k) + FromNat(256, n);
  }

  /** Encoding what was decoded gives the string back, leading '1's included. */
  lemma EncodeDecode(s: string)
    requires Decode58(s).Ok?
    ensures Decode58(s).value != [] && Encode58(Decode58(s).value) == s
  {
    hide ToNat, FromNat, LeadingZeros, Values58, Chars58;
    var vs := Values58(s);
    var n := ToNat(58, vs);
    var k := LeadingZeros(vs);
    var raw := Zeros(k) + FromNat(256, n);
    LeadingZerosUnique(raw, k);
    ToNatDropZeros(256, raw, k);
    assert raw[k..] == FromNat(256, n);
    ToNatFromNat(256, n);
    ToNatDropZeros(58, vs, k);
    FromNatToNat(58, vs[k..]);
    CharsOfValues(s);
  }

  // ---------------------------------------------------------------- lengths

  /** Every byte takes at least one character. */
  lemma DecodedLengthBound(s: string)
    requires Decode58(s).Ok?
    ensures |Decode58(s).value| <= |s|
  {
    hide Index58, FromNat, ToNat;
    var vs := Values58(s);
    var k := LeadingZeros(vs);
    ToNatDropZeros(58, vs, k);
    ToNatBound(58, vs[k..]);
    PowMonotone(58, 256, |vs| - k);
    FromNatBound(256, ToNat(58, vs), |vs| - k);
  }

  /** Eight bytes take at most eleven characters. */
  lemma EncodedLengthBound(b: seq<Byte>)
    requires b != []
    ensures |b| <= |Encode58(b)| <= (11 * |b| + 7) / 8
  {
    hide Index58, FromNat, ToNat, Pow;
    var z := LeadingZeros(b);
    var k := |b| - z;
    ToNatDropZeros(256, b, z);
    ToNatBound(256, b[z..]);
    PowElevenEighths(k);
    FromNatBound(58, ToNat(256, b), (11 * k + 7) / 8);
    DecodeEncode(b);
    DecodedLengthBound(Encode58(b));
  }

  // ---------------------------------------------------------------- Base58Check

  /** The first four bytes of a double hash; nothing but its length is used. */
  type Checksum = f: seq<Byte> -> seq<Byte> | forall x :: |f(x)| == 4 witness (x: seq<Byte>) => [0, 0, 0, 0]

  function CheckEncode(sum: Checksum, version: Byte, payload: seq<Byte>): string {
    var body := [version] + payload;
    Encode58(body + sum(body))
  }

  function CheckDecode(sum: Checksum, s: string): Result<(Byte, seq<Byte>), Base58Error> {
    match Decode58(s)
    case Err(e) => Err(e)
    case Ok(raw) =>
      if |raw| < 5 then Err(TooShort)
      else
        var body, cksum := raw[..|raw| - 4], raw[|raw| - 4..];
        if cksum != sum(body) then Err(ChecksumMismatch) else Ok((body[0], body[1..]))
  }

  lemma CheckDecodeEncode(sum: Checksum, version: Byte, payload: seq<Byte>)
    ensures CheckDecode(sum, CheckEncode(sum, version, payload)) == Ok((version, payload))
  {
    hide Decode58, Encode58;
    var body := [version] + payload;
    var raw := body + sum(body);
    DecodeEncode(raw);
    assert raw[..|raw| - 4] == body && raw[|raw| - 4..] == sum(body);
  }

  lemma CheckEncodeDecode(sum: Checksum, s: string)
    requires CheckDecode(sum, s).Ok?
    ensures CheckEncode(sum, CheckDecode(sum, s).value.0, CheckDecode(sum, s).value.1) == s
  {
    hide Encode58, Decode58;
    var raw := Decode58(s).value;
    EncodeDecode(s);
    var (version, payload) := CheckDecode(sum, s).value;
    var body := [version] + payload;
    assert body == raw[..|raw| - 4];
    assert raw == body + sum(body);
  }

  /** Base58Check accepts exactly the strings it encodes, each for exactly one version and payload. */
  lemma CheckDecodeExact(sum: Checksum, s: string, version: Byte, payload: seq<Byte>)
    ensures CheckDecode(sum, s) == Ok((version, payload)) <==> s == CheckEncode(sum, version, payload)
  {
    hide CheckDecode, CheckEncode;
    CheckDecodeEncode(sum, version, payload);
    if CheckDecode(sum, s) == Ok((version, payload)) {
      CheckEncodeDecode(sum, s);
    }
  }
}
