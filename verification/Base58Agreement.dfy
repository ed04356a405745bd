/** The repository's three encoders and two decoders compared. */
module Base58Agreement {
  import opened ArrayBase58
  import opened Base58Alphabet
  import opened BigIntBase58
  import opened Outcomes
  import opened Positional

  /** Runs all three encoders on the same bytes. They return one string exactly when some byte
      is nonzero; on n zero bytes the BigInt forms give n '1's (the utility encoder refusing
      n = 0) and the array form n + 1. */
  method CompareEncoders(bytes: seq<Byte>) returns (arrayForm: string, utilForm: Outcome<string>, walletForm: string)
    ensures arrayForm == walletForm && utilForm == Ok(walletForm) <==> HasOther(bytes, 0)
    ensures bytes != [] ==> utilForm == Ok(walletForm)
    ensures !HasOther(bytes, 0) ==> walletForm == Repeat('1', |bytes|) && arrayForm == Repeat('1', |bytes| + 1)
    ensures utilForm == Err(SyntaxError) <==> bytes == []
  {
    arrayForm := EncodeBase58(bytes);
    utilForm := BytesToBase58(bytes);
    walletForm := Base58Encode(bytes);
    EncodingOfZeros(bytes);
  }

  lemma EncodingOfZeros(bytes: seq<Byte>)
    ensures !HasOther(bytes, 0) ==> Encode(bytes) == Repeat('1', |bytes|)
  {
    if !HasOther(bytes, 0) {
      EncodeShape(bytes);
      NormalForm(bytes, 256);
      LeadingCountUnique(bytes, 0, |bytes|);
    }
  }

  /** Encodes with each of the three encoders and decodes with each of the two decoders: every
      combination restores the bytes exactly when one of them is nonzero. Of n zero bytes the array
      form makes n + 2 and the BigInt forms n + 1, except that the utility encoder throws on none. */
  method CrossRoundTrip(bytes: seq<Byte>)
    returns (arrayThenArray: Outcome<seq<Byte>>, arrayThenUtil: Outcome<seq<Byte>>,
             walletThenArray: Outcome<seq<Byte>>, walletThenUtil: Outcome<seq<Byte>>,
             utilThenArray: Outcome<seq<Byte>>, utilThenUtil: Outcome<seq<Byte>>)
    ensures arrayThenArray == Ok(bytes) <==> HasOther(bytes, 0)
    ensures walletThenArray == Ok(bytes) <==> HasOther(bytes, 0)
    ensures utilThenArray == Ok(bytes) <==> HasOther(bytes, 0)
    ensures arrayThenUtil == arrayThenArray && walletThenUtil == walletThenArray && utilThenUtil == utilThenArray
    ensures !HasOther(bytes, 0) ==>
      && arrayThenArray == Ok(Repeat<Byte>(0, |bytes| + 2)) && walletThenArray == Ok(Repeat<Byte>(0, |bytes| + 1))
      && utilThenArray == if bytes == [] then Err(SyntaxError) else Ok(Repeat<Byte>(0, |bytes| + 1))
  {
    ArrayRoundTrip(bytes);
    DecodeOfEncode(bytes);
    var text := EncodeBase58(bytes);
    arrayThenArray := DecodeBase58(text);
    arrayThenUtil := Base58ToBytes(text);
    text := Base58Encode(bytes);
    walletThenArray := DecodeBase58(text);
    walletThenUtil := Base58ToBytes(text);
    utilThenUtil := RoundTrip(bytes);
    var utilText := BytesToBase58(bytes);
    if utilText.Err? {
      utilThenArray := Err(utilText.error);
    } else {
      utilThenArray := DecodeBase58(utilText.value);
    }
  }

  /** Distinct byte arrays never share an encoding: the encoders without the extra digit are
      injective on all arrays. */
  lemma EncodeInjective(a: seq<Byte>, b: seq<Byte>)
    requires Encode(a) == Encode(b)
    ensures a == b
  {
    EncodeDigits(a);
    EncodeDigits(b);
  }
}
