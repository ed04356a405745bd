/** The two base58 codecs built on BigInt: wallet-sdk/src/core/utils.ts and the agent wallet's
    encoder (wallet-sdk/src/wallet/AgentWallet.ts). */
module BigIntBase58 {
  import opened Base58Alphabet
  import opened Hex
  import opened JsText
  import opened Outcomes
  import opened Positional

  /** `BigInt` of a hexadecimal literal; "0x" alone is a syntax error. */
  function BigIntOfHex(hex: string): Outcome<nat> {
    if |hex| > 2 && hex[..2] == "0x" && IsHex(hex[2..]) then Ok(Value(HexDigits(hex[2..]), 16))
    else Err(SyntaxError)
  }

  lemma BigIntOfBytes(bytes: seq<Byte>)
    ensures BigIntOfHex(HexOf(bytes)) == if bytes == [] then Err(SyntaxError) else Ok(Value(bytes, 256))
  {
    HexDigitsOfText(Nibbles(bytes));
    PairUpNibbles(bytes);
    PairUpValue(Nibbles(bytes));
    assert HexOf(bytes)[2..] == HexText(Nibbles(bytes));
  }

  /** The digit loop of both encoders: the least significant digit moves to the front of what
      has been converted. */
  method ConvertDown(n: nat) returns (converted: seq<nat>)
    ensures converted == Canonical(n, 58)
  {
    converted := [];
    var num := n;
    while num > 0
      invariant Canonical(num, 58) + converted == Canonical(n, 58)
    {
      CanonicalStep(num, 58, converted);
      converted := [num % 58] + converted;
      num := num / 58;
    }
  }

  method BytesToBase58(bytes: seq<Byte>) returns (r: Outcome<string>)
    ensures r == if bytes == [] then Err(SyntaxError) else Ok(Encode(bytes))
  {
    var zeros := 0;
    while zeros < |bytes| && bytes[zeros] == 0
      invariant 0 <= zeros <= |bytes|
      invariant forall i :: 0 <= i < zeros ==> bytes[i] == 0
    {
      zeros := zeros + 1;
    }
    LeadingCountUnique(bytes, 0, zeros);
    var hex := BytesToHex(bytes);
    BigIntOfBytes(bytes);
    var num := BigIntOfHex(hex);
    if num.Err? {
      return Err(num.error);
    }
    var converted := ConvertDown(num.value);
    EncodeShape(bytes);
    r := Ok(Repeat('1', zeros) + Glyphs(converted));
  }

  function HexNumeral(n: nat): (ds: seq<nat>)
    ensures AllDigits(ds, 16) && ds != []
  {
    CanonicalDenotes(n, 16);
    if n == 0 then [0] else Canonical(n, 16)
  }

  /** `num.toString(16)`. */
  function ToHexString(n: nat): string {
    HexText(HexNumeral(n))
  }

  function PadToEven(s: string): string {
    var hex := PadStart(s, 2, '0');
    if |hex| % 2 != 0 then ['0'] + hex else hex
  }

  lemma PadToEvenShape(t: string)
    requires t != ""
    ensures PadToEven(t) == Repeat('0', |t| % 2) + t
  {}

  lemma HexTextPadded(k: nat, ds: seq<nat>)
    requires AllDigits(ds, 16)
    ensures AllDigits(Repeat<nat>(0, k) + ds, 16) && HexText(Repeat<nat>(0, k) + ds) == Repeat('0', k) + HexText(ds)
  {}

  /** Whole bytes of hex digits decode to the bytes of the number, if the first byte is nonzero. */
  lemma HexBytesOfDigits(ds: seq<nat>)
    requires AllDigits(ds, 16) && |ds| % 2 == 0 && |ds| >= 2
    requires ds[0] > 0 || ds[1] > 0
    ensures HexBytes(HexText(ds)) == Ok(Canonical(Value(ds, 16), 256))
  {
    HexDigitsOfText(ds);
    HexTextUnprefixed(HexText(ds));
    ParsePairsOfHex(HexText(ds));
    PairUpValue(ds);
    CanonicalUnique(PairUp(ds), 256);
  }

  lemma PaddedText(c: seq<nat>)
    requires AllDigits(c, 16) && c != []
    ensures var ds := Repeat<nat>(0, |c| % 2) + c;
            AllDigits(ds, 16) && PadToEven(HexText(c)) == HexText(ds)
  {
    PadToEvenShape(HexText(c));
    HexTextPadded(|c| % 2, c);
  }

  lemma PaddedFirstByte(c: seq<nat>)
    requires AllDigits(c, 16) && c != [] && c[0] != 0
    ensures var ds := Repeat<nat>(0, |c| % 2) + c;
            && AllDigits(ds, 16) && |ds| % 2 == 0 && |ds| >= 2 && (ds[0] > 0 || ds[1] > 0)
  {
    var ds := Repeat<nat>(0, |c| % 2) + c;
    assert |ds| == |c| % 2 + |c|;
    assert ds[|c| % 2] == c[0];
  }

  lemma PaddedHexBytes(c: seq<nat>)
    requires AllDigits(c, 16) && c != [] && c[0] != 0
    ensures HexBytes(PadToEven(HexText(c))) == Ok(Canonical(Value(c, 16), 256))
  {
    PaddedText(c);
    PaddedFirstByte(c);
    ValueAfterZeros(|c| % 2, c, 16);
    HexBytesOfDigits(Repeat<nat>(0, |c| % 2) + c);
  }

  lemma ZeroHexBytes()
    ensures HexBytes(PadToEven(HexText([0]))) == Ok([0])
  {
    PadToEvenShape(HexText([0]));
    HexTextPadded(1, [0]);
    var ds := Repeat<nat>(0, 1) + [0];
    HexDigitsOfText(ds);
    HexTextUnprefixed(HexText(ds));
    ParsePairsOfHex(HexText(ds));
    assert PairUp(ds) == [0];
  }

  /** Through `toString(16)`, the padding and the hex decoder a number becomes its bytes, and
      zero becomes one zero byte. */
  lemma NumberThroughHex(n: nat)
    ensures HexBytes(PadToEven(ToHexString(n))) == Ok(if n == 0 then [0] else Canonical(n, 256))
  {
    if n == 0 {
      ZeroHexBytes();
    } else {
      CanonicalDenotes(n, 16);
      PaddedHexBytes(Canonical(n, 16));
    }
  }

  lemma DecodeResultParts(s: string)
    requires IsBase58(s)
    ensures var n := Value(Digits(s), 58);
            DecodeResult(s) == Ok(Repeat<nat>(0, LeadingCount(s, '1')) + if n == 0 then [0] else Canonical(n, 256))
  {
    OnesAreZeroDigits(s);
    NormalForm(Digits(s), 58);
    if !HasOther(s, '1') {
      LeadingCountUnique(s, '1', |s|);
      assert Repeat<nat>(0, |s|) + [0] == Repeat<Byte>(0, |s| + 1);
    }
  }

  /** The fold over the characters after the leading '1's. */
  method ParseTail(str: string, zeros: nat) returns (r: Outcome<nat>)
    requires zeros <= |str| && forall i :: 0 <= i < zeros ==> str[i] == '1'
    ensures r == if IsBase58(str) then Ok(Value(Digits(str), 58)) else Err(InvalidBase58)
  {
    var num: nat := 0;
    assert Digits(str[..zeros]) == Repeat<nat>(0, zeros);
    ValueOfZeros(zeros, 58);
    for k := zeros to |str|
      invariant IsBase58(str[..k])
      invariant num == Value(Digits(str[..k]), 58)
    {
      var index := IndexInAlphabet(str[k]);
      if index == -1 {
        return Err(InvalidBase58);
      }
      DigitsSnoc(str, k);
      ValueSnoc(Digits(str[..k]), index, 58);
      num := num * 58 + index;
    }
    assert str[..|str|] == str;
    r := Ok(num);
  }

  /** `result.set(bytes, zeros)` on a zeroed buffer. */
  method PlaceAfterZeros(zeros: nat, bytes: seq<Byte>) returns (result: array<Byte>)
    ensures fresh(result) && result[..] == Repeat<nat>(0, zeros) + bytes
  {
    result := new Byte[zeros + |bytes|](_ => 0);
    forall i | zeros <= i < result.Length {
      result[i] := bytes[i - zeros];
    }
  }

  method Base58ToBytes(str: string) returns (r: Outcome<seq<Byte>>)
    ensures r == DecodeResult(str)
  {
    var zeros := 0;
    while zeros < |str| && str[zeros] == '1'
      invariant 0 <= zeros <= |str|
      invariant forall i :: 0 <= i < zeros ==> str[i] == '1'
    {
      zeros := zeros + 1;
    }
    LeadingCountUnique(str, '1', zeros);

    var num := ParseTail(str, zeros);
    if num.Err? {
      return Err(num.error);
    }
    NumberThroughHex(num.value);
    DecodeResultParts(str);
    var bytes := HexToBytes(PadToEven(ToHexString(num.value)));
    var result := PlaceAfterZeros(zeros, bytes.value);
    r := Ok(result[..]);
  }

  /** The agent wallet's digit loop, which prepends characters. */
  method ConvertToText(n: nat) returns (str: string)
    ensures AllDigits(Canonical(n, 58), 58) && str == Glyphs(Canonical(n, 58))
  {
    CanonicalDenotes(n, 58);
    str := "";
    var num := n;
    ghost var converted: seq<nat> := [];
    while num > 0
      invariant AllDigits(converted, 58) && str == Glyphs(converted)
      invariant Canonical(num, 58) + converted == Canonical(n, 58)
    {
      CanonicalStep(num, 58, converted);
      var c := GlyphAt(num % 58);
      GlyphsCons(num % 58, converted);
      converted := [num % 58] + converted;
      str := [c] + str;
      num := num / 58;
    }
  }

  /** The agent wallet's private encoder. */
  method Base58Encode(bytes: seq<Byte>) returns (str: string)
    ensures str == Encode(bytes)
  {
    var num: nat := 0;
    for k := 0 to |bytes|
      invariant num == Value(bytes[..k], 256)
    {
      ValueSnoc(bytes[..k], bytes[k], 256);
      assert bytes[..k + 1] == bytes[..k] + [bytes[k]];
      num := num * 256 + bytes[k];
    }
    assert bytes[..|bytes|] == bytes;

    str := ConvertToText(num);
    ghost var tail := str;
    var z := 0;
    while z < |bytes| && bytes[z] == 0
      invariant 0 <= z <= |bytes|
      invariant forall i :: 0 <= i < z ==> bytes[i] == 0
      invariant str == Repeat('1', z) + tail
    {
      str := ['1'] + str;
      z := z + 1;
    }
    LeadingCountUnique(bytes, 0, z);
    EncodeShape(bytes);
  }

  /** Encodes with `bytesToBase58` and decodes with `base58ToBytes`: the bytes come back exactly when
      one is nonzero, n zero bytes come back as n + 1, and no bytes at all make the encoder throw. */
  method RoundTrip(bytes: seq<Byte>) returns (r: Outcome<seq<Byte>>)
    ensures r == Ok(bytes) <==> HasOther(bytes, 0)
    ensures !HasOther(bytes, 0) ==>
              r == if bytes == [] then Err(SyntaxError) else Ok(Repeat<Byte>(0, |bytes| + 1))
  {
    DecodeOfEncode(bytes);
    var text := BytesToBase58(bytes);
    if text.Err? {
      return Err(text.error);
    }
    r := Base58ToBytes(text.value);
  }
}
