/** Universal addresses (wallet-sdk/src/core/utils.ts, wallet-sdk/src/tokens/types.ts). */
module Addresses {
  import opened Base58Alphabet
  import opened BigIntBase58
  import opened Hex
  import opened JsText
  import opened Outcomes
  import opened Positional

  datatype ChainType = Evm | Svm

  datatype UniversalAddress = UniversalAddress(raw: seq<Byte>, display: string, chainType: ChainType)

  /** The address of raw bytes; the base58 display of no bytes at all throws. */
  function AddressOf(raw: seq<Byte>, chainType: ChainType): Outcome<UniversalAddress> {
    if chainType == Evm then Ok(UniversalAddress(raw, HexOf(raw), Evm))
    else if raw == [] then Err(SyntaxError)
    else Ok(UniversalAddress(raw, Encode(raw), Svm))
  }

  method CreateAddress(raw: seq<Byte>, chainType: ChainType) returns (r: Outcome<UniversalAddress>)
    ensures r == AddressOf(raw, chainType)
  {
    if chainType == Evm {
      var hex := BytesToHex(raw);
      r := Ok(UniversalAddress(raw, hex, Evm));
    } else {
      var text := BytesToBase58(raw);
      r := match text
        case Ok(display) => Ok(UniversalAddress(raw, display, Svm))
        case Err(e) => Err(e);
    }
  }

  /** The pattern `/^0x[0-9a-f]{40}$/`. */
  predicate IsEvmShape(s: string) {
    |s| == 42 && s[..2] == "0x" && forall i :: 2 <= i < 42 ==> '0' <= s[i] <= '9' || 'a' <= s[i] <= 'f'
  }

  function ParseResult(input: string, chainType: ChainType): Outcome<UniversalAddress> {
    if chainType == Evm then
      if !IsEvmShape(Lower(input)) then Err(InvalidAddress)
      else
        match HexBytes(Lower(input))
        case Err(e) => Err(e)
        case Ok(bytes) => AddressOf(bytes, Evm)
    else
      match DecodeResult(input)
      case Err(e) => Err(e)
      case Ok(bytes) => if |bytes| != 32 then Err(InvalidAddress) else AddressOf(bytes, Svm)
  }

  method ParseAddress(input: string, chainType: ChainType) returns (r: Outcome<UniversalAddress>)
    ensures r == ParseResult(input, chainType)
  {
    var bytes;
    if chainType == Evm {
      var normalized := Lower(input);
      if !IsEvmShape(normalized) {
        return Err(InvalidAddress);
      }
      bytes := HexToBytes(normalized);
    } else {
      bytes := Base58ToBytes(input);
      if bytes.Ok? && |bytes.value| != 32 {
        return Err(InvalidAddress);
      }
    }
    if bytes.Err? {
      return Err(bytes.error);
    }
    r := CreateAddress(bytes.value, chainType);
  }

  /** The pattern `/^[1-9A-HJ-NP-Za-km-z]{32,44}$/`. */
  predicate IsSolanaAddress(s: string) {
    32 <= |s| <= 44 && IsBase58(s)
  }

  /** 0x and forty hex digits, each character in either case. */
  predicate IsEvmText(s: string) {
    |s| == 42 && Lower(s[..2]) == "0x" && IsHex(s[2..])
  }

  lemma LowerHexDigit(c: char)
    ensures HexOrdinal(c) >= 0 <==> '0' <= LowerChar(c) <= '9' || 'a' <= LowerChar(c) <= 'f'
  {}

  lemma EvmShapeOfLower(s: string)
    ensures IsEvmShape(Lower(s)) <==> IsEvmText(s)
  {
    if |s| == 42 {
      assert Lower(s)[..2] == Lower(s[..2]);
      forall i | 2 <= i < 42
        ensures HexOrdinal(s[2..][i - 2]) >= 0 <==> '0' <= Lower(s)[i] <= '9' || 'a' <= Lower(s)[i] <= 'f'
      {
        LowerHexDigit(s[i]);
      }
    }
  }

  /** Parsing an EVM address accepts exactly 0x and forty hex digits in either case (the prefix
      too), and displays them in lower case. */
  lemma ParseEvm(input: string)
    ensures ParseResult(input, Evm).Ok? <==> |input| == 42 && Lower(input[..2]) == "0x" && IsHex(input[2..])
    ensures var r := ParseResult(input, Evm);
            r.Ok? ==> (|r.value.raw| == 20 && r.value.display == Lower(input) && r == AddressOf(r.value.raw, Evm))
  {
    EvmShapeOfLower(input);
    var n := Lower(input);
    if IsEvmShape(n) {
      var s := n[2..];
      assert n == "0x" + s;
      HexTextRoundTrip(s);
      assert Lower(s) == s;
      HexTextUnprefixed(s);
    }
  }

  lemma HexOfIsLower(raw: seq<Byte>)
    ensures var s := HexOf(raw); |s| == 2 + 2 * |raw| && IsHex(s[2..]) && Lower(s) == s
  {
    var text := HexText(Nibbles(raw));
    HexDigitsOfText(Nibbles(raw));
    HexTextOfDigits(text);
    assert HexOf(raw)[2..] == text;
    assert Lower("0x" + text) == Lower("0x") + Lower(text);
    assert Lower("0x") == "0x";
  }

  /** Displaying 20 bytes and parsing the display gives the same address back. */
  lemma ParseDisplayEvm(raw: seq<Byte>)
    requires |raw| == 20
    ensures ParseResult(HexOf(raw), Evm) == AddressOf(raw, Evm)
  {
    HexRoundTrip(raw);
    HexOfIsLower(raw);
    assert IsEvmShape(HexOf(raw));
  }

  /** For 32 raw bytes the same trip on base58 fails for the all-zero address and no other. */
  lemma ParseDisplaySvm(raw: seq<Byte>)
    requires |raw| == 32
    ensures ParseResult(Encode(raw), Svm) == AddressOf(raw, Svm) <==> HasOther(raw, 0)
    ensures !HasOther(raw, 0) ==> ParseResult(Encode(raw), Svm) == Err(InvalidAddress)
  {
    DecodeOfEncode(raw);
  }

  /** A parsed base58 address displays as it was written, except that thirty-one '1's parse as
      the all-zero address. */
  lemma ParseThenDisplaySvm(input: string)
    requires ParseResult(input, Svm).Ok?
    ensures var a := ParseResult(input, Svm).value;
            && |a.raw| == 32 && AddressOf(a.raw, Svm) == Ok(a)
            && (a.display == input <==> input != Repeat('1', 31))
  {
    EncodeOfDecode(input);
    if !HasOther(input, '1') {
      assert input == Repeat('1', |input|);
    } else {
      assert HasOther(input, '1') ==> input != Repeat('1', 31);
    }
  }

  lemma SquareBoth(a: nat, b: nat, x: nat, y: nat)
    requires Pow(a, x) <= Pow(b, y)
    ensures Pow(a, x + x) <= Pow(b, y + y)
  {
    PowAdd(a, x, x);
    PowAdd(b, y, y);
    MulBoth(Pow(a, x), Pow(b, y), Pow(a, x), Pow(b, y));
  }

  /** 44 base58 digits hold 32 bytes, and dropping one digit per leading zero byte keeps that so. */
  lemma {:induction false} Base58Room(z: nat)
    requires z <= 32
    ensures Pow(256, 32 - z) <= Pow(58, 44 - z)
  {
    if z == 0 {
      assert Pow(256, 8) <= Pow(58, 11);
      SquareBoth(256, 58, 8, 11);
      SquareBoth(256, 58, 16, 22);
    } else {
      Base58Room(z - 1);
      var p, q := Pow(256, 32 - z), Pow(58, 44 - z);
      assert 256 * p <= 58 * q;
    }
  }

  lemma LeadingBytePower(s: seq<nat>)
    requires s != [] && s[0] != 0
    ensures Value(s, 256) >= Pow(256, |s| - 1)
    decreases s
  {
    if |s| > 1 {
      LeadingBytePower(s[..|s| - 1]);
      MulBoth(Pow(256, |s| - 2), Value(s[..|s| - 1], 256), 256, 256);
    } else {
      assert s[..0] == [];
    }
  }

  lemma DigitsOf32Bytes(z: nat, rest: seq<Byte>)
    requires z + |rest| == 32 && (rest != [] ==> rest[0] != 0)
    ensures |rest| <= |Canonical(Value(rest, 256), 58)| <= 44 - z
  {
    var n := Value(rest, 256);
    ValueBelowPow(rest, 256);
    Base58Room(z);
    CanonicalLength(n, 58, 44 - z);
    if rest != [] {
      LeadingBytePower(rest);
      PowBaseMonotone(58, 256, |rest| - 1);
      CanonicalLength(n, 58, |rest| - 1);
    }
  }

  /** Every 32-byte array displays as a well-formed Solana address. */
  lemma SolanaDisplay(raw: seq<Byte>)
    requires |raw| == 32
    ensures IsSolanaAddress(Encode(raw))
  {
    var z := LeadingCount(raw, 0);
    var rest := raw[z..];
    EncodeShape(raw);
    EncodeDigits(raw);
    assert raw == Repeat<nat>(0, z) + rest;
    ValueAfterZeros(z, rest, 256);
    DigitsOf32Bytes(z, rest);
  }
}
