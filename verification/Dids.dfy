/** did:key identifiers: the identity manager (wallet-sdk/src/identity/AgentIdentity.ts), the
    multi-chain manager (wallet-sdk/src/wallet/AgentIdentityManager.ts) and the agent wallet. */
module Dids {
  import opened Addresses
  import opened ArrayBase58
  import opened Base58Alphabet
  import opened BigIntBase58
  import opened Hex
  import opened JsText
  import opened Outcomes
  import opened Positional

  const DID_PREFIX := "did:key:z"
  const SECP256K1: seq<Byte> := [0xe7, 0x01]
  const ED25519: seq<Byte> := [0xed, 0x01]

  function Multicodec(chainType: ChainType): seq<Byte> {
    if chainType == Evm then SECP256K1 else ED25519
  }

  /** The identifier of raw key bytes: multicodec prefix, base58, multibase 'z'. */
  function DidOf(raw: seq<Byte>, chainType: ChainType): string {
    DID_PREFIX + Encode(Multicodec(chainType) + raw)
  }

  predicate IsLineTerminator(c: char) {
    c == '\n' || c == '\r' || c as int == 0x2028 || c as int == 0x2029
  }

  /** The bytes of `s.match(/.{2}/g)`, where '.' skips line terminators. */
  function MatchedPairs(s: string): seq<Byte> {
    if |s| < 2 then []
    else if IsLineTerminator(s[0]) || IsLineTerminator(s[1]) then MatchedPairs(s[1..])
    else [ParsePair(s[0], s[1])] + MatchedPairs(s[2..])
  }

  function AddressBytes(address: string): seq<Byte> {
    MatchedPairs(if |address| < 2 then "" else address[2..])
  }

  lemma PairUpFront(ds: seq<nat>)
    requires AllDigits(ds, 16) && |ds| % 2 == 0 && ds != []
    ensures PairUp(ds) == [ds[0] * 16 + ds[1]] + PairUp(ds[2..])
  {}

  lemma HexPair(a: char, b: char)
    requires HexOrdinal(a) >= 0 && HexOrdinal(b) >= 0
    ensures !IsLineTerminator(a) && !IsLineTerminator(b) && ParsePair(a, b) == HexOrdinal(a) * 16 + HexOrdinal(b)
  {}

  lemma {:induction false} MatchedPairsOfHex(s: string)
    requires IsHex(s) && |s| % 2 == 0
    ensures MatchedPairs(s) == PairUp(HexDigits(s))
  {
    if s != "" {
      MatchedPairsOfHex(s[2..]);
      assert HexDigits(s[2..]) == HexDigits(s)[2..];
      PairUpFront(HexDigits(s));
      HexPair(s[0], s[1]);
    }
  }

  /** `new Uint8Array` filled with a prefix and then the key bytes. */
  method Prefixed(prefix: seq<Byte>, bytes: seq<Byte>) returns (key: array<Byte>)
    ensures fresh(key) && key[..] == prefix + bytes
  {
    key := new Byte[|prefix| + |bytes|](_ => 0);
    forall i | 0 <= i < |prefix| {
      key[i] := prefix[i];
    }
    forall i | |prefix| <= i < key.Length {
      key[i] := bytes[i - |prefix|];
    }
    assert key[..] == prefix + bytes;
  }

  /** Identity manager: `generateDID`. */
  method GenerateFromAddress(address: string) returns (did: string)
    ensures did == DidOf(AddressBytes(address), Evm)
  {
    var addressBytes := AddressBytes(address);
    var prefixedKey := Prefixed([0xe7, 0x01], addressBytes);
    var encoded := EncodeBase58(prefixedKey[..]);
    PrefixIsNonzero(addressBytes, Evm);
    did := DID_PREFIX + encoded;
  }

  lemma PrefixIsNonzero(raw: seq<Byte>, chainType: ChainType)
    ensures HasOther(Multicodec(chainType) + raw, 0)
  {
    assert (Multicodec(chainType) + raw)[0] != 0;
  }

  lemma ByteNumeral(b: Byte, ds: seq<nat>)
    requires ds == if b >= 16 then [b / 16, b % 16] else [b]
    ensures AllDigits(ds, 16) && HexNumeral(b) == ds
  {
    var front := ds[..|ds| - 1];
    assert front == if b >= 16 then [b / 16] else [];
    assert Value([], 16) == 0;
    ValueSnoc([], b / 16, 16);
    assert [] + [b / 16] == [b / 16];
    ValueSnoc(front, b % 16, 16);
    assert ds == front + [b % 16];
    if b > 0 { CanonicalUnique(ds, 16); }
  }

  lemma PaddedDigits(b: Byte, ds: seq<nat>)
    requires ds == if b >= 16 then [b / 16, b % 16] else [b]
    ensures AllDigits(ds, 16) && PadStart(HexText(ds), 2, '0') == [HexDigit(b / 16), HexDigit(b % 16)]
  {
    if b < 16 { assert PadStart(HexText(ds), 2, '0') == Repeat('0', 1) + [HexDigit(b)]; }
  }

  /** `b.toString(16).padStart(2, '0')` */
  lemma ByteText(b: Byte)
    ensures PadStart(ToHexString(b), 2, '0') == [HexDigit(b / 16), HexDigit(b % 16)]
  {
    var ds: seq<nat> := if b >= 16 then [b / 16, b % 16] else [b];
    ByteNumeral(b, ds);
    PaddedDigits(b, ds);
  }

  lemma NibblesSnoc(bytes: seq<Byte>, k: nat)
    requires k < |bytes|
    ensures HexText(Nibbles(bytes[..k + 1])) == HexText(Nibbles(bytes[..k])) + PadStart(ToHexString(bytes[k]), 2, '0')
  {
    ByteText(bytes[k]);
    assert Nibbles(bytes[..k + 1]) == Nibbles(bytes[..k]) + [bytes[k] / 16, bytes[k] % 16];
  }

  method ByteTexts(bytes: seq<Byte>) returns (s: string)
    ensures s == HexText(Nibbles(bytes))
  {
    s := "";
    for k := 0 to |bytes|
      invariant s == HexText(Nibbles(bytes[..k]))
    {
      NibblesSnoc(bytes, k);
      s := s + PadStart(ToHexString(bytes[k]), 2, '0');
    }
    assert bytes[..|bytes|] == bytes;
  }

  predicate IsDid(did: string) {
    |did| >= 9 && did[..9] == DID_PREFIX
  }

  /** The key bytes behind one multicodec prefix, if the identifier carries it. */
  function KeyBytes(did: string, prefix: seq<Byte>): Option<seq<Byte>> {
    if !IsDid(did) then None
    else
      match DecodeResult(did[9..])
      case Err(_) => None
      case Ok(decoded) => if prefix <= decoded then Some(decoded[|prefix|..]) else None
  }

  /** Identity manager: `extractAddressFromDID`. */
  method ExtractAddress(did: string) returns (address: Option<string>)
    ensures address == match KeyBytes(did, SECP256K1) case None => None case Some(raw) => Some(HexOf(raw))
  {
    if !IsDid(did) {
      return None;
    }
    var decoded := DecodeBase58(did[9..]);
    if decoded.Err? {
      return None;
    }
    var bytes := decoded.value;
    if |bytes| < 1 || bytes[0] != 0xe7 || |bytes| < 2 || bytes[1] != 0x01 {
      return None;
    }
    var text := ByteTexts(bytes[2..]);
    address := Some("0x" + text);
  }

  /** Multi-chain manager: `generateDID`. */
  method GenerateFromUniversal(address: UniversalAddress) returns (did: string)
    ensures did == DidOf(address.raw, address.chainType)
  {
    var prefix := if address.chainType == Evm then SECP256K1 else ED25519;
    var combined := Prefixed(prefix, address.raw);
    var encoded := BytesToBase58(combined[..]);
    did := DID_PREFIX + encoded.value;
  }

  /** Agent wallet: `getDID`. */
  method GetWalletDid(raw: seq<Byte>, chainType: ChainType) returns (did: string)
    ensures did == DidOf(raw, chainType)
  {
    var combined := Prefixed(if chainType == Evm then SECP256K1 else ED25519, raw);
    var encoded := Base58Encode(combined[..]);
    did := DID_PREFIX + encoded;
  }

  function ParsedDid(did: string): Option<UniversalAddress> {
    match KeyBytes(did, SECP256K1)
    case Some(raw) => Some(UniversalAddress(raw, HexOf(raw), Evm))
    case None =>
      match KeyBytes(did, ED25519)
      case Some(raw) => if raw == [] then None else Some(UniversalAddress(raw, Encode(raw), Svm))
      case None => None
  }

  /** Multi-chain manager: `parseDID`; anything thrown becomes null. */
  method ParseDid(did: string) returns (r: Option<UniversalAddress>)
    ensures r == ParsedDid(did)
  {
    if !IsDid(did) {
      return None;
    }
    var decoded := Base58ToBytes(did[9..]);
    if decoded.Err? {
      return None;
    }
    var bytes := decoded.value;
    var chainType;
    if |bytes| >= 2 && bytes[0] == 0xe7 && bytes[1] == 0x01 {
      chainType := Evm;
    } else if |bytes| >= 2 && bytes[0] == 0xed && bytes[1] == 0x01 {
      chainType := Svm;
    } else {
      return None;
    }
    var address := CreateAddress(bytes[2..], chainType);
    r := if address.Ok? then Some(address.value) else None;
  }

  lemma KeyBytesOfDid(raw: seq<Byte>, chainType: ChainType)
    ensures KeyBytes(DidOf(raw, chainType), Multicodec(chainType)) == Some(raw)
    ensures chainType == Svm ==> KeyBytes(DidOf(raw, chainType), SECP256K1) == None
  {
    var bytes := Multicodec(chainType) + raw;
    PrefixIsNonzero(raw, chainType);
    DecodeOfEncode(bytes);
    assert DidOf(raw, chainType)[9..] == Encode(bytes);
    assert bytes[2..] == raw && bytes[0] == Multicodec(chainType)[0];
  }

  /** The form of an identifier in the did:key method: the multibase prefix of base58btc, then the
      encoding of the multicodec of the key type and the key. */
  lemma DidForm(raw: seq<Byte>, chainType: ChainType)
    ensures var did := DidOf(raw, chainType);
      && |did| >= 9 && did[..8] == "did:key:" && did[8] == 'z'
      && DecodeResult(did[9..]) == Ok((if chainType == Evm then [0xe7, 0x01] else [0xed, 0x01]) + raw)
  {
    PrefixIsNonzero(raw, chainType);
    DecodeOfEncode(Multicodec(chainType) + raw);
  }

  /** Parsing a generated identifier restores the address, whatever its length or bytes, except
      that no identifier of an empty Solana key parses. */
  lemma ParseUndoesGenerate(raw: seq<Byte>, chainType: ChainType)
    ensures ParsedDid(DidOf(raw, chainType))
         == match AddressOf(raw, chainType) case Ok(a) => Some(a) case Err(_) => None
  {
    KeyBytesOfDid(raw, chainType);
  }

  /** Extracting from the identifier of any 0x-address of whole bytes gives it in lower case. */
  lemma ExtractUndoesGenerate(address: string)
    requires |address| >= 2 && IsHex(address[2..]) && |address| % 2 == 0
    ensures var did := DidOf(AddressBytes(address), Evm);
            KeyBytes(did, SECP256K1).Some? && HexOf(KeyBytes(did, SECP256K1).value) == "0x" + Lower(address[2..])
  {
    var s := address[2..];
    MatchedPairsOfHex(s);
    KeyBytesOfDid(AddressBytes(address), Evm);
    NibblesPairUp(HexDigits(s));
    HexTextOfDigits(s);
  }

  /** Identifiers are unique: the chain type and the key can be read off. */
  lemma DidInjective(raw1: seq<Byte>, chain1: ChainType, raw2: seq<Byte>, chain2: ChainType)
    requires DidOf(raw1, chain1) == DidOf(raw2, chain2)
    ensures raw1 == raw2 && chain1 == chain2
  {
    KeyBytesOfDid(raw1, chain1);
    KeyBytesOfDid(raw2, chain2);
  }

  /** Every identifier that parses is the generated one of what it parses to. */
  lemma GenerateUndoesParse(did: string)
    requires ParsedDid(did).Some?
    ensures var a := ParsedDid(did).value; DidOf(a.raw, a.chainType) == did && AddressOf(a.raw, a.chainType) == Ok(a)
  {
    var text := did[9..];
    var bytes := DecodeResult(text).value;
    EncodeOfDecode(text);
    assert bytes[0] != 0;
    assert HasOther(text, '1');
    assert did == DID_PREFIX + text;
    var a := ParsedDid(did).value;
    assert bytes == Multicodec(a.chainType) + a.raw;
  }

  /** The three generators agree on every EVM address, given as hex text or as bytes. */
  method CompareEvmDids(raw: seq<Byte>) returns (identity: string, multi: string, wallet: string)
    ensures identity == multi == wallet == DidOf(raw, Evm)
  {
    var hex := BytesToHex(raw);
    var text := HexText(Nibbles(raw));
    assert hex[2..] == text;
    HexDigitsOfText(Nibbles(raw));
    MatchedPairsOfHex(text);
    PairUpNibbles(raw);
    identity := GenerateFromAddress(hex);
    multi := GenerateFromUniversal(UniversalAddress(raw, hex, Evm));
    wallet := GetWalletDid(raw, Evm);
  }
}
