/** The Bitcoin-style base58 alphabet and the reference encoding every encoder is compared with. */
module Base58Alphabet {
  import opened JsText
  import opened Outcomes
  import opened Positional

  const ALPHABET := "123456789" + "ABCDEFGHJKLMNPQRSTUVWXYZ" + "abcdefghijkmnopqrstuvwxyz"

  /** The alphabet by character ranges, which skip 0, I, O and l; `GlyphAt` ties it to ALPHABET. */
  function Glyph(d: nat): char
    requires d < 58
  {
    if d < 9 then '1' + d as char
    else if d < 17 then 'A' + (d - 9) as char
    else if d < 22 then 'J' + (d - 17) as char
    else if d < 33 then 'P' + (d - 22) as char
    else if d < 44 then 'a' + (d - 33) as char
    else 'm' + (d - 44) as char
  }

  /** The digit of a character, or -1; `IndexInAlphabet` ties it to `indexOf`. */
  function Ordinal(c: char): (i: int)
    ensures -1 <= i < 58
  {
    if '1' <= c <= '9' then c as int - '1' as int
    else if 'A' <= c <= 'H' then c as int - 'A' as int + 9
    else if 'J' <= c <= 'N' then c as int - 'J' as int + 17
    else if 'P' <= c <= 'Z' then c as int - 'P' as int + 22
    else if 'a' <= c <= 'k' then c as int - 'a' as int + 33
    else if 'm' <= c <= 'z' then c as int - 'm' as int + 44
    else -1
  }

  method GlyphAt(d: nat) returns (c: char)
    requires d < 58
    ensures c == Glyph(d)
  {
    AlphabetGlyphs(d);
    c := ALPHABET[d];
  }

  method IndexInAlphabet(c: char) returns (i: int)
    ensures i == Ordinal(c)
  {
    i := IndexOf(ALPHABET, c);
    AlphabetPositions(c);
  }

  lemma LowGlyphs(d: nat)
    requires d < 29
    ensures ALPHABET[d] == Glyph(d)
  {}

  lemma HighGlyphs(d: nat)
    requires 29 <= d < 58
    ensures ALPHABET[d] == Glyph(d)
  {}

  lemma AlphabetGlyphs(d: nat)
    requires d < 58
    ensures ALPHABET[d] == Glyph(d)
  {
    if d < 29 { LowGlyphs(d); } else { HighGlyphs(d); }
  }

  lemma PositionsFromGlyphs(s: string, c: char)
    requires |s| == 58 && forall d :: 0 <= d < 58 ==> s[d] == Glyph(d)
    ensures IndexOf(s, c) == Ordinal(c)
  {
    var o := Ordinal(c);
    if o >= 0 { assert s[o] == c; }
  }

  /** `indexOf` in the alphabet is the range formula, for every character. */
  lemma AlphabetPositions(c: char)
    ensures IndexOf(ALPHABET, c) == Ordinal(c)
  {
    forall d | 0 <= d < 58 ensures ALPHABET[d] == Glyph(d) {
      AlphabetGlyphs(d);
    }
    PositionsFromGlyphs(ALPHABET, c);
  }

  function Glyphs(ds: seq<nat>): (s: string)
    requires AllDigits(ds, 58)
    ensures |s| == |ds| && forall i :: 0 <= i < |ds| ==> s[i] == Glyph(ds[i])
  {
    seq(|ds|, i requires 0 <= i < |ds| => Glyph(ds[i]))
  }

  lemma GlyphsCons(d: nat, ds: seq<nat>)
    requires d < 58 && AllDigits(ds, 58)
    ensures AllDigits([d] + ds, 58) && Glyphs([d] + ds) == [Glyph(d)] + Glyphs(ds)
  {}

  predicate IsBase58(s: string) {
    forall i :: 0 <= i < |s| ==> Ordinal(s[i]) >= 0
  }

  function Digits(s: string): (ds: seq<nat>)
    requires IsBase58(s)
    ensures |ds| == |s| && forall i :: 0 <= i < |s| ==> ds[i] == Ordinal(s[i])
  {
    seq(|s|, i requires 0 <= i < |s| => Ordinal(s[i]))
  }

  lemma DigitsOfGlyphs(ds: seq<nat>)
    requires AllDigits(ds, 58)
    ensures IsBase58(Glyphs(ds)) && Digits(Glyphs(ds)) == ds
  {}

  lemma GlyphsOfDigits(s: string)
    requires IsBase58(s)
    ensures AllDigits(Digits(s), 58) && Glyphs(Digits(s)) == s
  {}

  lemma DigitsSnoc(s: string, k: nat)
    requires k < |s| && IsBase58(s[..k]) && Ordinal(s[k]) >= 0
    ensures IsBase58(s[..k + 1]) && Digits(s[..k + 1]) == Digits(s[..k]) + [Ordinal(s[k]) as nat]
  {}

  /** Section 3 of draft-msporny-base58: one '1' per leading zero byte, then the base58
      numeral of the remaining big-endian number. */
  function Encode(bytes: seq<Byte>): string {
    TranscodeKeeps(bytes, 256, 58);
    Glyphs(Transcode(bytes, 256, 58))
  }

  /** Section 4: one zero byte per leading '1', then the big-endian bytes of the numeral. */
  function Decode(s: string): seq<Byte>
    requires IsBase58(s)
  {
    GlyphsOfDigits(s);
    TranscodeKeeps(Digits(s), 58, 256);
    Transcode(Digits(s), 58, 256)
  }

  /** What both decoders of the repository return: a string of only '1's (the empty one
      included) gains a zero byte. */
  function DecodeResult(s: string): Outcome<seq<Byte>> {
    if !IsBase58(s) then Err(InvalidBase58)
    else if HasOther(s, '1') then Ok(Decode(s))
    else Ok(Repeat(0, |s| + 1))
  }

  lemma EncodeShape(bytes: seq<Byte>)
    ensures var c := Canonical(Value(bytes, 256), 58);
            AllDigits(c, 58) && Encode(bytes) == Repeat('1', LeadingCount(bytes, 0)) + Glyphs(c)
  {
    CanonicalDenotes(Value(bytes, 256), 58);
  }

  lemma OnesAreZeroDigits(s: string)
    requires IsBase58(s)
    ensures HasOther(s, '1') <==> HasOther(Digits(s), 0)
    ensures LeadingCount(s, '1') == LeadingCount(Digits(s), 0)
  {
    var ds := Digits(s);
    assert forall i :: 0 <= i < |s| ==> (s[i] == '1' <==> ds[i] == 0);
    LeadingCountUnique(ds, 0, LeadingCount(s, '1'));
    if HasOther(s, '1') {
      var i :| 0 <= i < |s| && s[i] != '1';
      assert ds[i] != 0;
    }
    if HasOther(ds, 0) {
      var i :| 0 <= i < |ds| && ds[i] != 0;
      assert s[i] != '1';
    }
  }

  lemma EncodeDigits(bytes: seq<Byte>)
    ensures var e := Encode(bytes);
            && IsBase58(e) && Digits(e) == Transcode(bytes, 256, 58) && Decode(e) == bytes
            && (HasOther(e, '1') <==> HasOther(bytes, 0)) && (!HasOther(bytes, 0) ==> |e| == |bytes|)
  {
    TranscodeKeeps(bytes, 256, 58);
    TranscodeBack(bytes, 256, 58);
    DigitsOfGlyphs(Transcode(bytes, 256, 58));
    OnesAreZeroDigits(Encode(bytes));
    NormalForm(bytes, 256);
  }

  /** The round trip from bytes: it holds exactly when some byte is nonzero. */
  lemma DecodeOfEncode(bytes: seq<Byte>)
    ensures DecodeResult(Encode(bytes)) == Ok(bytes) <==> HasOther(bytes, 0)
    ensures !HasOther(bytes, 0) ==> DecodeResult(Encode(bytes)) == Ok(Repeat<Byte>(0, |bytes| + 1))
  {
    EncodeDigits(bytes);
  }

  /** The round trip from text: on base58 strings it holds exactly when some character is not '1'. */
  lemma EncodeOfDecode(s: string)
    requires IsBase58(s)
    ensures var bytes := DecodeResult(s).value;
            (Encode(bytes) == s <==> HasOther(s, '1'))
  {
    GlyphsOfDigits(s);
    OnesAreZeroDigits(s);
    TranscodeKeeps(Digits(s), 58, 256);
    TranscodeBack(Digits(s), 58, 256);
    if !HasOther(s, '1') {
      EncodeDigits(Repeat<nat>(0, |s| + 1));
    }
  }
}
