/** The base58 codec of the identity manager: digit arrays updated in place with a carry
    (wallet-sdk/src/identity/AgentIdentity.ts). */
module ArrayBase58 {
  import opened Positional
  import opened Base58Alphabet
  import opened Outcomes

  /** Wrap-around of JavaScript's 32-bit operators. */
  function Int32(x: int): int {
    var m := x % 0x1_0000_0000;
    if m >= 0x8000_0000 then m - 0x1_0000_0000 else m
  }

  // The encoder's and the decoder's 32-bit steps; their preconditions are where truncation
  // is ruled out.

  method ShiftLeft8(x: nat) returns (r: nat)
    requires x < 58
    ensures r == x * 256
  {
    r := Int32(x * 256);
  }

  method DivMod58(carry: nat) returns (digit: nat, rest: nat)
    requires carry < 58 * 256
    ensures digit == Rem(carry, 58) && rest == Quot(carry, 58) && rest < 256
  {
    QuotRemIsDivMod(carry, 58);
    digit := carry % 58;
    rest := Int32(carry / 58);
  }

  method LowByteAndRest(carry: nat) returns (byte: nat, rest: nat)
    requires carry < 58 * 256
    ensures byte == Rem(carry, 256) && rest == Quot(carry, 256) && rest < 58
  {
    QuotRemIsDivMod(carry, 256);
    byte := Int32(carry) % 256;
    rest := Int32(carry) / 256;
  }

  /** `ds * mul + carry` on least-significant-first digits, one digit per step. */
  function MulAdd(ds: seq<nat>, mul: nat, carry: nat, b: nat): seq<nat>
    requires b >= 2
  {
    if ds == [] then LittleDigits(carry, b)
    else
      var c := carry + ds[0] * mul;
      [Rem(c, b)] + MulAdd(ds[1..], mul, Quot(c, b), b)
  }

  /** What the array holds once the value `n` has been consumed: a single 0 stands for zero. */
  function ArrayDigits(n: nat, b: nat): seq<nat>
    requires b >= 2
  {
    if n == 0 then [0] else LittleDigits(n, b)
  }

  lemma RegroupStep(n: nat, q: nat, r: nat, mul: nat, carry: nat, b: nat)
    requires n == q * b + r
    ensures n * mul + carry == (q * mul) * b + (carry + r * mul)
  {
    assert n * mul == (q * b) * mul + r * mul;
  }

  lemma QuotRemOf(m: nat, x: nat, y: nat, b: nat)
    requires b >= 2 && m == x * b + y
    ensures Quot(m, b) == x + Quot(y, b) && Rem(m, b) == Rem(y, b)
  {
    QuotRemShift(x, y, b);
  }

  lemma QuotRemParts(n: nat, q: nat, r: nat, mul: nat, carry: nat, b: nat)
    requires b >= 2 && n == q * b + r
    ensures var c := carry + r * mul;
            Quot(n * mul + carry, b) == q * mul + Quot(c, b) && Rem(n * mul + carry, b) == Rem(c, b)
  {
    var m, x, y := n * mul + carry, q * mul, carry + r * mul;
    assert m == x * b + y by { RegroupStep(n, q, r, mul, carry, b); }
    QuotRemOf(m, x, y, b);
  }

  lemma QuotRemStep(n: nat, mul: nat, carry: nat, b: nat)
    requires b >= 2
    ensures var c := carry + Rem(n, b) * mul;
            Quot(n * mul + carry, b) == Quot(n, b) * mul + Quot(c, b) && Rem(n * mul + carry, b) == Rem(c, b)
  {
    QuotRem(n, b);
    QuotRemParts(n, Quot(n, b), Rem(n, b), mul, carry, b);
  }

  /** The pass over the digits of `n` yields exactly the digits of `n * mul + carry`. */
  lemma {:induction false} MulAddLittle(n: nat, mul: nat, carry: nat, b: nat)
    requires b >= 2 && mul > 0
    ensures MulAdd(LittleDigits(n, b), mul, carry, b) == LittleDigits(n * mul + carry, b)
  {
    if n > 0 {
      QuotRem(n, b);
      MulAddLittle(Quot(n, b), mul, Quot(carry + Rem(n, b) * mul, b), b);
      QuotRemStep(n, mul, carry, b);
      MulGrows(n, mul);
      assert LittleDigits(n, b)[1..] == LittleDigits(Quot(n, b), b);
    }
  }

  /** One byte (or one character) consumed turns the array of `n` into the array of `n * mul + add`. */
  lemma MulAddArray(n: nat, mul: nat, add: nat, b: nat)
    requires b >= 2 && mul > 0
    ensures MulAdd(ArrayDigits(n, b), mul, add, b) == ArrayDigits(n * mul + add, b)
  {
    if n == 0 {
      assert MulAdd([0], mul, add, b) == [Rem(add, b)] + LittleDigits(Quot(add, b), b);
    } else {
      MulAddLittle(n, mul, add, b);
      MulGrows(n, mul);
    }
  }

  lemma ArrayDigitsBounded(n: nat, b: nat)
    requires b >= 2
    ensures AllDigits(ArrayDigits(n, b), b) && ArrayDigits(n, b) != []
  {
    LittleDigitsBounded(n, b);
  }

  /** One turn of either inner loop: digit j is settled and its carry handed on. */
  lemma PassStep(ds: seq<nat>, ds0: seq<nat>, j: nat, mul: nat, carry: nat, b: nat)
    requires b >= 2 && j < |ds| == |ds0| && ds[j..] == ds0[j..]
    ensures var c := carry + ds[j] * mul;
            var ds' := ds[j := Rem(c, b)];
            && ds'[j + 1..] == ds0[j + 1..]
            && ds'[..j + 1] + MulAdd(ds0[j + 1..], mul, Quot(c, b), b) == ds[..j] + MulAdd(ds0[j..], mul, carry, b)
  {
    var c := carry + ds[j] * mul;
    var ds' := ds[j := Rem(c, b)];
    assert ds0[j..][1..] == ds0[j + 1..] && ds0[j..][0] == ds[j];
    assert ds'[..j + 1] == ds[..j] + [Rem(c, b)];
    assert ds'[j + 1..] == ds[j..][1..];
  }

  lemma CarryStep(ds: seq<nat>, carry: nat, b: nat)
    requires b >= 2 && carry > 0
    ensures ds + [Rem(carry, b)] + LittleDigits(Quot(carry, b), b) == ds + LittleDigits(carry, b)
    ensures Quot(carry, b) < carry
  {
    QuotRem(carry, b);
  }

  /** What the array encoder returns: the reference encoding, except that input without a
      nonzero byte leaves the initial digit 0 behind. */
  function ArrayEncode(bytes: seq<Byte>): string {
    if HasOther(bytes, 0) then Encode(bytes) else Repeat('1', |bytes| + 1)
  }

  /** The body of the encoder's outer loop. */
  method ConsumeByte(digits0: seq<nat>, byte: Byte) returns (digits: seq<nat>)
    requires AllDigits(digits0, 58)
    ensures digits == MulAdd(digits0, 256, byte, 58)
  {
    digits := digits0;
    var carry: nat := byte;
    var j := 0;
    while j < |digits|
      invariant 0 <= j <= |digits| == |digits0|
      invariant carry < 256 && digits[j..] == digits0[j..]
      invariant digits[..j] + MulAdd(digits0[j..], 256, carry, 58) == MulAdd(digits0, 256, byte, 58)
    {
      assert digits[j] == digits[j..][0] == digits0[j];
      PassStep(digits, digits0, j, 256, carry, 58);
      var shifted := ShiftLeft8(digits[j]);
      var d, rest := DivMod58(carry + shifted);
      digits := digits[j := d];
      carry := rest;
      j := j + 1;
    }
    assert digits[..j] == digits && digits0[j..] == [];
    while carry > 0
      invariant carry < 256
      invariant digits + LittleDigits(carry, 58) == MulAdd(digits0, 256, byte, 58)
    {
      CarryStep(digits, carry, 58);
      var d, rest := DivMod58(carry);
      digits := digits + [d];
      carry := rest;
    }
  }

  /** The encoder's first loop: the array denotes the bytes consumed so far. */
  method ConsumeBytes(bytes: seq<Byte>) returns (digits: seq<nat>)
    ensures digits == ArrayDigits(Value(bytes, 256), 58)
  {
    digits := [0];
    for k := 0 to |bytes|
      invariant digits == ArrayDigits(Value(bytes[..k], 256), 58)
    {
      ghost var n := Value(bytes[..k], 256);
      ArrayDigitsBounded(n, 58);
      digits := ConsumeByte(digits, bytes[k]);
      MulAddArray(n, 256, bytes[k], 58);
      ValueSnoc(bytes[..k], bytes[k], 256);
      assert bytes[..k + 1] == bytes[..k] + [bytes[k]];
    }
    assert bytes[..|bytes|] == bytes;
  }

  /** The encoder's last loop: the array read from its most significant digit. */
  method EmitReversed(digits: seq<nat>) returns (output: string)
    requires AllDigits(digits, 58)
    ensures output == Glyphs(Reverse(digits))
  {
    output := "";
    var i := |digits| - 1;
    while i >= 0
      invariant -1 <= i < |digits|
      invariant output == Glyphs(Reverse(digits[i + 1..]))
    {
      assert Reverse(digits[i..]) == Reverse(digits[i + 1..]) + [digits[i]];
      var c := GlyphAt(digits[i]);
      output := output + [c];
      i := i - 1;
    }
    assert digits[0..] == digits;
  }

  lemma ArrayEncodeReversed(bytes: seq<Byte>)
    ensures AllDigits(ArrayDigits(Value(bytes, 256), 58), 58)
    ensures ArrayEncode(bytes)
         == Repeat('1', LeadingCount(bytes, 0)) + Glyphs(Reverse(ArrayDigits(Value(bytes, 256), 58)))
  {
    var n := Value(bytes, 256);
    ArrayDigitsBounded(n, 58);
    ReverseLittle(n, 58);
    NormalForm(bytes, 256);
    EncodeShape(bytes);
    if !HasOther(bytes, 0) {
      LeadingCountUnique(bytes, 0, |bytes|);
    }
  }

  method EncodeBase58(bytes: seq<Byte>) returns (output: string)
    ensures output == ArrayEncode(bytes)
  {
    var digits := ConsumeBytes(bytes);
    output := "";
    var z := 0;
    while z < |bytes| && bytes[z] == 0
      invariant 0 <= z <= |bytes| && output == Repeat('1', z)
      invariant forall i :: 0 <= i < z ==> bytes[i] == 0
    {
      var one := GlyphAt(0);
      output := output + [one];
      z := z + 1;
    }
    LeadingCountUnique(bytes, 0, z);
    ArrayEncodeReversed(bytes);
    var rest := EmitReversed(digits);
    output := output + rest;
  }

  /** The body of the decoder's outer loop. */
  method ConsumeDigit(bytes0: seq<nat>, value: nat) returns (bytes: seq<nat>)
    requires AllDigits(bytes0, 256) && value < 58
    ensures bytes == MulAdd(bytes0, 58, value, 256)
  {
    bytes := bytes0;
    var carry := value;
    var j := 0;
    while j < |bytes|
      invariant 0 <= j <= |bytes| == |bytes0|
      invariant carry < 58 && bytes[j..] == bytes0[j..]
      invariant bytes[..j] + MulAdd(bytes0[j..], 58, carry, 256) == MulAdd(bytes0, 58, value, 256)
    {
      assert bytes[j] == bytes[j..][0] == bytes0[j];
      PassStep(bytes, bytes0, j, 58, carry, 256);
      var d, rest := LowByteAndRest(carry + bytes[j] * 58);
      bytes := bytes[j := d];
      carry := rest;
      j := j + 1;
    }
    assert bytes[..j] == bytes && bytes0[j..] == [];
    while carry > 0
      invariant carry < 58
      invariant bytes + LittleDigits(carry, 256) == MulAdd(bytes0, 58, value, 256)
    {
      CarryStep(bytes, carry, 256);
      var d, rest := LowByteAndRest(carry);
      bytes := bytes + [d];
      carry := rest;
    }
  }

  /** The decoder's result buffer: zeros, then the digit array from its far end. */
  method LayOut(leadingZeros: nat, bytes: seq<Byte>) returns (result: array<Byte>)
    ensures fresh(result) && result[..] == Repeat<nat>(0, leadingZeros) + Reverse<nat>(bytes)
  {
    result := new Byte[leadingZeros + |bytes|](_ => 0);
    for i := 0 to |bytes|
      invariant result[..leadingZeros + i] == Repeat<nat>(0, leadingZeros) + Reverse<nat>(bytes)[..i]
    {
      result[leadingZeros + i] := bytes[|bytes| - 1 - i];
      assert result[..leadingZeros + i + 1] == result[..leadingZeros + i] + [bytes[|bytes| - 1 - i]];
    }
  }

  /** The decoder's first loop. */
  method ConsumeChars(str: string) returns (r: Outcome<seq<nat>>)
    ensures r.Ok? ==> AllDigits(r.value, 256)
    ensures r == if IsBase58(str) then Ok(ArrayDigits(Value(Digits(str), 58), 256)) else Err(InvalidBase58)
  {
    var bytes: seq<nat> := [0];
    for k := 0 to |str|
      invariant IsBase58(str[..k])
      invariant bytes == ArrayDigits(Value(Digits(str[..k]), 58), 256)
    {
      var value := IndexInAlphabet(str[k]);
      if value == -1 {
        return Err(InvalidBase58);
      }
      ghost var ds := Digits(str[..k]);
      ArrayDigitsBounded(Value(ds, 58), 256);
      bytes := ConsumeDigit(bytes, value);
      MulAddArray(Value(ds, 58), 58, value, 256);
      DigitsSnoc(str, k);
      ValueSnoc(ds, value, 58);
    }
    assert str[..|str|] == str;
    ArrayDigitsBounded(Value(Digits(str), 58), 256);
    r := Ok(bytes);
  }

  lemma DecodeResultReversed(s: string)
    requires IsBase58(s)
    ensures DecodeResult(s)
         == Ok(Repeat(0, LeadingCount(s, '1')) + Reverse(ArrayDigits(Value(Digits(s), 58), 256)))
  {
    OnesAreZeroDigits(s);
    GlyphsOfDigits(s);
    NormalForm(Digits(s), 58);
    ReverseLittle(Value(Digits(s), 58), 256);
    if !HasOther(s, '1') {
      LeadingCountUnique(s, '1', |s|);
      assert Reverse<nat>([0]) == [0];
      assert Repeat<nat>(0, |s|) + [0] == Repeat<Byte>(0, |s| + 1);
    }
  }

  method DecodeBase58(str: string) returns (r: Outcome<seq<Byte>>)
    ensures r == DecodeResult(str)
  {
    var bytes := ConsumeChars(str);
    if bytes.Err? {
      return Err(bytes.error);
    }
    var one := GlyphAt(0);
    var leadingZeros := 0;
    while leadingZeros < |str| && str[leadingZeros] == one
      invariant 0 <= leadingZeros <= |str|
      invariant forall i :: 0 <= i < leadingZeros ==> str[i] == '1'
    {
      leadingZeros := leadingZeros + 1;
    }
    LeadingCountUnique(str, '1', leadingZeros);
    DecodeResultReversed(str);
    var result := LayOut(leadingZeros, bytes.value);
    r := Ok(result[..]);
  }

  /** `decodeBase58` undoes `encodeBase58` exactly on arrays with a nonzero byte; n zero bytes
      come back as n + 2. */
  lemma ArrayRoundTrip(bytes: seq<Byte>)
    ensures DecodeResult(ArrayEncode(bytes)) == Ok(bytes) <==> HasOther(bytes, 0)
    ensures !HasOther(bytes, 0) ==> DecodeResult(ArrayEncode(bytes)) == Ok(Repeat<Byte>(0, |bytes| + 2))
  {
    DecodeOfEncode(bytes);
  }
}
