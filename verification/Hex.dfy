/** Hexadecimal text and JavaScript's reading of it (wallet-sdk/src/core/utils.ts). */
module Hex {
  import opened JsText
  import opened Outcomes
  import opened Positional

  const HEX_CHARS := "0123456789abcdef"

  function HexDigit(d: nat): char
    requires d < 16
  {
    if d < 10 then '0' + d as char else 'a' + (d - 10) as char
  }

  method HexCharAt(d: nat) returns (c: char)
    requires d < 16
    ensures c == HexDigit(d)
  {
    c := HEX_CHARS[d];
  }

  /** The value of a hex digit in either case, or -1. */
  function HexOrdinal(c: char): (v: int)
    ensures -1 <= v < 16
  {
    if '0' <= c <= '9' then c as int - '0' as int
    else if 'a' <= c <= 'f' then c as int - 'a' as int + 10
    else if 'A' <= c <= 'F' then c as int - 'A' as int + 10
    else -1
  }

  predicate IsHex(s: string) {
    forall i :: 0 <= i < |s| ==> HexOrdinal(s[i]) >= 0
  }

  function HexDigits(s: string): (ds: seq<nat>)
    requires IsHex(s)
    ensures |ds| == |s| && AllDigits(ds, 16) && forall i :: 0 <= i < |s| ==> ds[i] == HexOrdinal(s[i])
  {
    seq(|s|, i requires 0 <= i < |s| => HexOrdinal(s[i]))
  }

  function HexText(ds: seq<nat>): (s: string)
    requires AllDigits(ds, 16)
    ensures |s| == |ds| && forall i :: 0 <= i < |ds| ==> s[i] == HexDigit(ds[i])
  {
    seq(|ds|, i requires 0 <= i < |ds| => HexDigit(ds[i]))
  }

  lemma HexDigitsOfText(ds: seq<nat>)
    requires AllDigits(ds, 16)
    ensures IsHex(HexText(ds)) && HexDigits(HexText(ds)) == ds
  {}

  lemma HexTextOfDigits(s: string)
    requires IsHex(s)
    ensures HexText(HexDigits(s)) == Lower(s)
  {}

  /** The two hex digits of every byte. */
  function Nibbles(bytes: seq<Byte>): (ds: seq<nat>)
    ensures |ds| == 2 * |bytes| && AllDigits(ds, 16)
  {
    seq(2 * |bytes|, i requires 0 <= i < 2 * |bytes| =>
      if i % 2 == 0 then bytes[i / 2] / 16 else bytes[i / 2] % 16)
  }

  function PairUp(ds: seq<nat>): (bytes: seq<Byte>)
    requires AllDigits(ds, 16)
    ensures |bytes| == |ds| / 2
  {
    seq(|ds| / 2, i requires 0 <= i < |ds| / 2 => ds[2 * i] * 16 + ds[2 * i + 1])
  }

  lemma PairUpNibbles(bytes: seq<Byte>)
    ensures PairUp(Nibbles(bytes)) == bytes
  {}

  lemma NibblesPairUp(ds: seq<nat>)
    requires AllDigits(ds, 16) && |ds| % 2 == 0
    ensures Nibbles(PairUp(ds)) == ds
  {}

  lemma ValueTwoMore(front: seq<nat>, x: nat, y: nat)
    ensures Value(front + [x] + [y], 16) == Value(front, 16) * 256 + (x * 16 + y)
  {
    ValueSnoc(front, x, 16);
    ValueSnoc(front + [x], y, 16);
  }

  lemma PairUpSnoc(front: seq<nat>, x: nat, y: nat)
    requires AllDigits(front, 16) && |front| % 2 == 0 && x < 16 && y < 16
    ensures PairUp(front + [x] + [y]) == PairUp(front) + [x * 16 + y]
  {}

  /** Pairing digits changes the base, not the number. */
  lemma {:induction false} PairUpValue(ds: seq<nat>)
    requires AllDigits(ds, 16) && |ds| % 2 == 0
    ensures Value(PairUp(ds), 256) == Value(ds, 16)
  {
    if ds != [] {
      var front, x, y := ds[..|ds| - 2], ds[|ds| - 2], ds[|ds| - 1];
      assert ds == front + [x] + [y];
      PairUpValue(front);
      PairUpSnoc(front, x, y);
      ValueSnoc(PairUp(front), x * 16 + y, 256);
      ValueTwoMore(front, x, y);
    }
  }

  /** `bytesToHex`. */
  function HexOf(bytes: seq<Byte>): string {
    "0x" + HexText(Nibbles(bytes))
  }

  method BytesToHex(bytes: seq<Byte>) returns (hex: string)
    ensures hex == HexOf(bytes)
  {
    hex := "0x";
    for k := 0 to |bytes|
      invariant hex == HexOf(bytes[..k])
    {
      var high := HexCharAt(bytes[k] / 16);
      var low := HexCharAt(bytes[k] % 16);
      assert Nibbles(bytes[..k + 1]) == Nibbles(bytes[..k]) + [bytes[k] / 16, bytes[k] % 16];
      hex := hex + ([high] + [low]);
    }
    assert bytes[..|bytes|] == bytes;
  }

  /** `parseInt` of two characters in base 16, stored into a `Uint8Array`: a sign or a blank
      may precede one digit, text after a digit is ignored, and NaN is stored as 0. */
  function ParsePair(a: char, b: char): Byte {
    var x, y := HexOrdinal(a), HexOrdinal(b);
    if x >= 0 then (if y >= 0 then x * 16 + y else x)
    else if y < 0 then 0
    else if a == '-' then (256 - y) % 256
    else if a == '+' || IsJsSpace(a) then y
    else 0
  }

  function Unprefixed(hex: string): string {
    if |hex| >= 2 && hex[..2] == "0x" then hex[2..] else hex
  }

  function ParsePairs(s: string): (bytes: seq<Byte>)
    ensures |bytes| == |s| / 2
  {
    seq(|s| / 2, i requires 0 <= i < |s| / 2 => ParsePair(s[2 * i], s[2 * i + 1]))
  }

  function HexBytes(hex: string): Outcome<seq<Byte>> {
    if |Unprefixed(hex)| % 2 != 0 then Err(OddHexLength) else Ok(ParsePairs(Unprefixed(hex)))
  }

  method HexToBytes(hex: string) returns (r: Outcome<seq<Byte>>)
    ensures r == HexBytes(hex)
  {
    var normalized := if |hex| >= 2 && hex[..2] == "0x" then hex[2..] else hex;
    if |normalized| % 2 != 0 {
      return Err(OddHexLength);
    }
    var bytes := new Byte[|normalized| / 2](_ => 0);
    var i := 0;
    while i < |normalized|
      invariant 0 <= i <= |normalized| && i % 2 == 0
      invariant bytes[..i / 2] == ParsePairs(normalized)[..i / 2]
    {
      bytes[i / 2] := ParsePair(normalized[i], normalized[i + 1]);
      assert bytes[..i / 2 + 1] == bytes[..i / 2] + [ParsePairs(normalized)[i / 2]];
      i := i + 2;
    }
    assert bytes[..] == bytes[..i / 2] && ParsePairs(normalized)[..i / 2] == ParsePairs(normalized);
    r := Ok(bytes[..]);
  }

  lemma ParsePairsOfHex(s: string)
    requires IsHex(s)
    ensures ParsePairs(s) == PairUp(HexDigits(s))
  {}

  lemma HexTextUnprefixed(s: string)
    requires IsHex(s)
    ensures Unprefixed(s) == s && Unprefixed("0x" + s) == s
  {
    assert |s| >= 2 ==> s[..2][1] == s[1];
  }

  /** `hexToBytes` undoes `bytesToHex` on every array. */
  lemma HexRoundTrip(bytes: seq<Byte>)
    ensures HexBytes(HexOf(bytes)) == Ok(bytes)
  {
    var text := HexText(Nibbles(bytes));
    HexDigitsOfText(Nibbles(bytes));
    HexTextUnprefixed(text);
    ParsePairsOfHex(text);
    PairUpNibbles(bytes);
  }

  /** On hex digits of even length the reverse trip restores the text in lower case. */
  lemma HexTextRoundTrip(s: string)
    requires IsHex(s) && |s| % 2 == 0
    ensures HexBytes("0x" + s) == HexBytes(s) && HexBytes(s).Ok?
    ensures HexOf(HexBytes(s).value) == "0x" + Lower(s)
  {
    HexTextUnprefixed(s);
    ParsePairsOfHex(s);
    NibblesPairUp(HexDigits(s));
    HexTextOfDigits(s);
  }
}
