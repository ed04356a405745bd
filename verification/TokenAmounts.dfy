/** Decimal token amounts: `formatTokenAmount` and `parseTokenAmount` (wallet-sdk/src/core/utils.ts). */
module TokenAmounts {
  import opened JsText
  import opened Outcomes
  import opened Positional

  // BigInt division truncates toward zero.

  function TruncDiv(x: int, b: nat): int
    requires b > 0
  {
    if x >= 0 then Quot(x, b) else 0 - Quot(-x, b)
  }

  function TruncMod(x: int, b: nat): int
    requires b > 0
  {
    if x >= 0 then Rem(x, b) else 0 - Rem(-x, b)
  }

  lemma TruncIsTruncating(x: int, b: nat)
    requires b > 0
    ensures TruncDiv(x, b) == if x >= 0 then x / b else -(-x / b)
    ensures TruncMod(x, b) == if x >= 0 then x % b else -(-x % b)
  {
    QuotRemIsDivMod(if x >= 0 then x else -x, b);
  }

  function DecDigit(d: nat): char
    requires d < 10
  {
    '0' + d as char
  }

  predicate IsDecDigit(c: char) { '0' <= c <= '9' }

  predicate IsDecimal(s: string) {
    forall i :: 0 <= i < |s| ==> IsDecDigit(s[i])
  }

  function DecDigits(s: string): (ds: seq<nat>)
    requires IsDecimal(s)
    ensures |ds| == |s| && AllDigits(ds, 10) && forall i :: 0 <= i < |s| ==> ds[i] == s[i] as int - '0' as int
  {
    seq(|s|, i requires 0 <= i < |s| => s[i] as int - '0' as int)
  }

  function DecText(ds: seq<nat>): (s: string)
    requires AllDigits(ds, 10)
    ensures |s| == |ds| && IsDecimal(s) && DecDigits(s) == ds
  {
    var s := seq(|ds|, i requires 0 <= i < |ds| => DecDigit(ds[i]));
    assert forall i :: 0 <= i < |ds| ==> s[i] as int - '0' as int == ds[i];
    s
  }

  function NatText(n: nat): (s: string)
    ensures IsDecimal(s) && s != ""
  {
    CanonicalDenotes(n, 10);
    if n == 0 then "0" else DecText(Canonical(n, 10))
  }

  /** `x.toString()` */
  function IntText(x: int): string {
    if x < 0 then ['-'] + NatText(-x) else NatText(x)
  }

  function Number(s: string): nat
    requires IsDecimal(s)
  {
    Value(DecDigits(s), 10)
  }

  /** `s.replace(/0+$/, '')` */
  function StripZeros(s: string): string {
    if s != "" && s[|s| - 1] == '0' then StripZeros(s[..|s| - 1]) else s
  }

  function Format(amount: int, decimals: nat): string {
    PowPositive(10, decimals);
    var divisor := Pow(10, decimals);
    var whole, fraction := TruncDiv(amount, divisor), TruncMod(amount, divisor);
    if fraction == 0 then IntText(whole)
    else IntText(whole) + ['.'] + StripZeros(PadStart(IntText(fraction), decimals, '0'))
  }

  function TrimStart(s: string): (t: string)
    ensures |t| <= |s|
  {
    if s != "" && IsJsSpace(s[0]) then TrimStart(s[1..]) else s
  }

  function TrimEnd(s: string): (t: string)
    ensures |t| <= |s|
  {
    if s != "" && IsJsSpace(s[|s| - 1]) then TrimEnd(s[..|s| - 1]) else s
  }

  /** The value of a digit in a prefixed literal, or 36. */
  function RadixDigit(c: char): nat {
    if IsDecDigit(c) then c as int - '0' as int
    else if 'a' <= c <= 'z' then c as int - 'a' as int + 10
    else if 'A' <= c <= 'Z' then c as int - 'A' as int + 10
    else 36
  }

  function RadixNumber(s: string, radix: nat): Outcome<nat> {
    var ds := seq(|s|, i requires 0 <= i < |s| => RadixDigit(s[i]));
    if s == "" || !AllDigits(ds, radix) then Err(SyntaxError) else Ok(Value(ds, radix))
  }

  function DecimalNumber(s: string): Outcome<nat> {
    if s == "" || !IsDecimal(s) then Err(SyntaxError) else Ok(Number(s))
  }

  function Scaled(r: Outcome<int>, sign: int): Outcome<int> {
    match r
    case Ok(n) => Ok(sign * n)
    case Err(e) => Err(e)
  }

  /** `BigInt(s)`: blanks around the literal are skipped, nothing at all is zero, a sign is
      allowed on decimal literals only. */
  function ParseBigInt(s: string): Outcome<int> {
    var t := TrimEnd(TrimStart(s));
    if t == "" then Ok(0)
    else if t[0] == '-' then
      Scaled(DecimalNumber(t[1..]), -1)
    else if t[0] == '+' then
      DecimalNumber(t[1..])
    else if |t| >= 2 && t[0] == '0' && !IsDecDigit(t[1]) then
      var radix :=
        if t[1] in ['x', 'X'] then 16
        else if t[1] in ['o', 'O'] then 8
        else if t[1] in ['b', 'B'] then 2
        else 0;
      RadixNumber(t[2..], radix)
    else
      DecimalNumber(t)
  }

  /** `s.split('.')` */
  function Split(s: string): (parts: seq<string>)
    ensures parts != []
  {
    var i := IndexOf(s, '.');
    if i == -1 then [s] else [s[..i]] + Split(s[i + 1..])
  }

  function OrZero(s: string): string {
    if s == "" then "0" else s
  }

  /** The fraction digits that count: padded with zeros, then cut to `decimals` places. */
  function Places(fraction: string, decimals: nat): (s: string)
    ensures |s| == decimals
  {
    PadEnd(fraction, decimals, '0')[..decimals]
  }

  function Parse(amount: string, decimals: nat): Outcome<int> {
    var parts := Split(amount);
    var fraction := if |parts| > 1 then parts[1] else "";
    Combine(ParseBigInt(OrZero(parts[0])), ParseBigInt(OrZero(Places(fraction, decimals))), decimals)
  }

  function Combine(whole: Outcome<int>, fraction: Outcome<int>, decimals: nat): Outcome<int> {
    if whole.Err? then whole
    else if fraction.Err? then fraction
    else Ok(whole.value * Pow(10, decimals) + fraction.value)
  }

  // Reading digits back.

  lemma TrimKeeps(s: string)
    requires s != "" && !IsJsSpace(s[0]) && !IsJsSpace(s[|s| - 1])
    ensures TrimEnd(TrimStart(s)) == s
  {}

  lemma ParseDigits(s: string)
    requires IsDecimal(s) && s != ""
    ensures ParseBigInt(s) == Ok(Number(s))
  {
    TrimKeeps(s);
  }

  lemma ParseNegative(s: string)
    requires IsDecimal(s) && s != ""
    ensures ParseBigInt(['-'] + s) == Scaled(Ok(Number(s)), -1)
  {
    var t := ['-'] + s;
    assert t[|t| - 1] == s[|s| - 1];
    TrimKeeps(t);
    assert t[1..] == s;
  }

  lemma NumberOfNatText(n: nat)
    ensures Number(NatText(n)) == n
    ensures n > 0 ==> |NatText(n)| == |Canonical(n, 10)| && NatText(n)[0] != '0'
  {
    CanonicalDenotes(n, 10);
    if n == 0 {
      assert DecDigits("0") == [0];
      assert Value([0], 10) == 0 by { assert [0][..0] == []; }
    }
  }

  lemma ParseIntText(x: int)
    ensures ParseBigInt(IntText(x)) == Ok(x)
  {
    NumberOfNatText(if x < 0 then -x else x);
    if x < 0 { ParseNegative(NatText(-x)); } else { ParseDigits(NatText(x)); }
  }

  lemma ParseZeros(n: nat)
    ensures ParseBigInt(OrZero(Repeat('0', n))) == Ok(0)
  {
    var k := if n == 0 then 1 else n;
    var s := Repeat('0', k);
    assert OrZero(Repeat('0', n)) == s;
    ParseDigits(s);
    assert DecDigits(s) == Repeat<nat>(0, k);
    ValueOfZeros(k, 10);
  }

  lemma {:induction false} PlacesIgnoresStripping(s: string, d: nat)
    ensures Places(StripZeros(s), d) == Places(s, d)
  {
    if s != "" && s[|s| - 1] == '0' {
      PlacesIgnoresStripping(s[..|s| - 1], d);
      assert Places(s[..|s| - 1], d) == Places(s, d);
    }
  }

  lemma SplitWhole(w: string)
    requires '.' !in w
    ensures Split(w) == [w]
  {}

  lemma SplitTwo(w: string, f: string)
    requires '.' !in w && '.' !in f
    ensures Split(w + ['.'] + f) == [w, f]
  {
    var s := w + ['.'] + f;
    assert s[|w|] == '.' && s[..|w|] == w && s[|w| + 1..] == f;
    IndexOfFirst(s, '.', |w|);
    SplitWhole(f);
  }

  lemma {:induction false} StripKeepsChars(s: string, c: char)
    requires c !in s
    ensures c !in StripZeros(s)
  {
    if s != "" && s[|s| - 1] == '0' {
      StripKeepsChars(s[..|s| - 1], c);
    }
  }

  lemma NoDotInNumbers(x: int, d: nat)
    ensures '.' !in IntText(x) && '.' !in PadStart(IntText(x), d, '0')
  {
    var n := if x < 0 then -x else x;
    assert forall i :: 0 <= i < |NatText(n)| ==> IsDecDigit(NatText(n)[i]);
  }

  /** The text of the fraction before its zeros are stripped. */
  function FractionText(amount: int, d: nat): string {
    PowPositive(10, d);
    PadStart(IntText(TruncMod(amount, Pow(10, d))), d, '0')
  }

  lemma ParseTwoParts(w: string, f: string, d: nat)
    requires '.' !in w && '.' !in f && w != ""
    ensures Parse(w + ['.'] + f, d) == Combine(ParseBigInt(w), ParseBigInt(OrZero(Places(f, d))), d)
  {
    SplitTwo(w, f);
  }

  lemma ParseOnePart(w: string, d: nat)
    requires '.' !in w && w != ""
    ensures Parse(w, d) == Combine(ParseBigInt(w), Ok(0), d)
  {
    SplitWhole(w);
    assert Places("", d) == Repeat('0', d);
    ParseZeros(d);
  }

  /** Formatting and parsing back comes down to reading the first d characters of the padded
      fraction: stripping the zeros loses nothing. */
  lemma ParseOfFormat(x: int, d: nat)
    requires Pow(10, d) > 0 && TruncMod(x, Pow(10, d)) != 0
    ensures d > 0 && |FractionText(x, d)| >= d
    ensures Parse(Format(x, d), d)
         == Combine(Ok(TruncDiv(x, Pow(10, d))), ParseBigInt(FractionText(x, d)[..d]), d)
  {
    var p := Pow(10, d);
    var whole, t := TruncDiv(x, p), FractionText(x, d);
    TruncModBounds(x, p);
    assert d == 0 ==> p == 1;
    NoDotInNumbers(whole, 0);
    NoDotInNumbers(TruncMod(x, p), d);
    StripKeepsChars(t, '.');
    ParseTwoParts(IntText(whole), StripZeros(t), d);
    ParseIntText(whole);
    PlacesIgnoresStripping(t, d);
  }

  lemma ParseOfFormatWhole(x: int, d: nat)
    requires Pow(10, d) > 0 && TruncMod(x, Pow(10, d)) == 0
    ensures Parse(Format(x, d), d) == Combine(Ok(TruncDiv(x, Pow(10, d))), Ok(0), d)
  {
    var whole := TruncDiv(x, Pow(10, d));
    NoDotInNumbers(whole, 0);
    ParseOnePart(IntText(whole), d);
    ParseIntText(whole);
  }

  /** The parts of a number put it together again exactly when the fraction was read right. */
  lemma CombineExact(x: int, fraction: Outcome<int>, d: nat)
    requires Pow(10, d) > 0
    ensures Combine(Ok(TruncDiv(x, Pow(10, d))), fraction, d) == Ok(x) <==> fraction == Ok(TruncMod(x, Pow(10, d)))
  {
    TruncDivMod(x, Pow(10, d));
  }

  lemma TruncDivMod(x: int, p: nat)
    requires p > 0
    ensures x == TruncDiv(x, p) * p + TruncMod(x, p)
  {
    QuotRem(if x >= 0 then x else -x, p);
  }

  lemma TruncModBounds(x: int, p: nat)
    requires p > 0
    ensures -(p as int) < TruncMod(x, p) < p && (x >= 0 ==> TruncMod(x, p) >= 0) && (x <= 0 ==> TruncMod(x, p) <= 0)
  {}

  lemma NumberPadded(k: nat, s: string)
    requires IsDecimal(s)
    ensures IsDecimal(Repeat('0', k) + s) && Number(Repeat('0', k) + s) == Number(s)
  {
    assert DecDigits(Repeat('0', k) + s) == Repeat<nat>(0, k) + DecDigits(s);
    ValueAfterZeros(k, DecDigits(s), 10);
  }

  lemma NatTextFits(n: nat, d: nat)
    requires 0 < n < Pow(10, d)
    ensures |NatText(n)| <= d
  {
    NumberOfNatText(n);
    CanonicalLength(n, 10, d);
  }

  lemma PaddedFraction(f: nat, d: nat)
    requires 0 < f < Pow(10, d)
    ensures |NatText(f)| <= d
    ensures PadStart(NatText(f), d, '0') == Repeat('0', d - |NatText(f)|) + NatText(f)
  {
    NatTextFits(f, d);
  }

  lemma ReadFraction(f: nat, d: nat)
    requires 0 < f < Pow(10, d)
    ensures var t := PadStart(NatText(f), d, '0'); |t| == d && IsDecimal(t) && ParseBigInt(t) == Ok(f)
  {
    PaddedFraction(f, d);
    NumberOfNatText(f);
    NumberPadded(d - |NatText(f)|, NatText(f));
    ParseDigits(Repeat('0', d - |NatText(f)|) + NatText(f));
  }

  lemma SignInsideIsNoNumber(k: nat, s: string)
    requires k > 0 && IsDecimal(s) && s != ""
    ensures ParseBigInt(Repeat('0', k) + (['-'] + s)).Err?
  {
    var t := Repeat('0', k) + (['-'] + s);
    assert t[|t| - 1] == s[|s| - 1] && t[k] == '-';
    TrimKeeps(t);
    assert !IsDecimal(t);
    if k == 1 {
      var ds := seq(|t[2..]|, i requires 0 <= i < |t[2..]| => RadixDigit(t[2..][i]));
      assert !AllDigits(ds, 0) by { assert ds[0] >= 0; }
    }
  }

  lemma CutIsSmaller(m: nat)
    requires m > 0
    ensures NatText(m) != "" && IsDecimal(NatText(m)[..|NatText(m)| - 1]) && Number(NatText(m)[..|NatText(m)| - 1]) < m
  {
    var text := NatText(m);
    NumberOfNatText(m);
    var front, d := text[..|text| - 1], DecDigits(text)[|text| - 1];
    assert DecDigits(text) == DecDigits(front) + [d];
    ValueSnoc(DecDigits(front), d, 10);
  }

  lemma ReadCutNegative(m: nat)
    requires m > 0
    ensures ParseBigInt(['-'] + NatText(m)[..|NatText(m)| - 1]) != Scaled(Ok(m), -1)
  {
    CutIsSmaller(m);
    var front := NatText(m)[..|NatText(m)| - 1];
    if front == "" {
      TrimKeeps(['-']);
      assert ['-'] + front == ['-'];
      assert ['-'][1..] == "";
    } else {
      ParseNegative(front);
    }
  }

  /** A negative fraction of m units is read back only if m has d - 1 digits: fewer put the sign
      behind padding zeros, d of them push the last one out. */
  lemma ReadNegativeFraction(m: nat, d: nat)
    requires 0 < m < Pow(10, d)
    ensures var t := PadStart(['-'] + NatText(m), d, '0');
            |t| >= d && (ParseBigInt(t[..d]) == Scaled(Ok(m), -1) <==> |NatText(m)| + 1 == d)
  {
    NatTextFits(m, d);
    NumberOfNatText(m);
    var text, t := NatText(m), PadStart(['-'] + NatText(m), d, '0');
    var k := |text|;
    if k + 1 < d {
      assert t == Repeat('0', d - k - 1) + (['-'] + text);
      assert t[..d] == t;
      SignInsideIsNoNumber(d - k - 1, text);
    } else if k + 1 == d {
      assert t[..d] == ['-'] + text;
      ParseNegative(text);
    } else {
      assert t[..d] == ['-'] + text[..k - 1];
      ReadCutNegative(m);
    }
  }

  lemma PositiveFraction(x: int, d: nat)
    requires Pow(10, d) > 0 && x >= 0 && TruncMod(x, Pow(10, d)) != 0
    ensures Parse(Format(x, d), d) == Ok(x)
  {
    var f := TruncMod(x, Pow(10, d));
    TruncModBounds(x, Pow(10, d));
    ReadFraction(f, d);
    var t := FractionText(x, d);
    assert t == PadStart(NatText(f), d, '0') && t[..d] == t;
    CombineExact(x, ParseBigInt(t), d);
    ParseOfFormat(x, d);
  }

  lemma NegativeFraction(x: int, d: nat)
    requires Pow(10, d) > 0 && x < 0 && TruncMod(x, Pow(10, d)) != 0
    ensures Parse(Format(x, d), d) == Ok(x) <==> |NatText(-TruncMod(x, Pow(10, d)))| + 1 == d
  {
    var m := -TruncMod(x, Pow(10, d));
    TruncModBounds(x, Pow(10, d));
    ReadNegativeFraction(m, d);
    var t := FractionText(x, d);
    assert t == PadStart(['-'] + NatText(m), d, '0');
    assert Scaled(Ok(m), -1) == Ok(TruncMod(x, Pow(10, d)));
    CombineExact(x, ParseBigInt(t[..d]), d);
    ParseOfFormat(x, d);
  }

  /** `parseTokenAmount` undoes `formatTokenAmount`: on every amount that is not negative, and
      on exactly these negative ones. */
  lemma FormatRoundTrip(x: int, d: nat)
    ensures Pow(10, d) > 0
    ensures var m := if x >= 0 then 0 else -TruncMod(x, Pow(10, d));
            Parse(Format(x, d), d) == Ok(x) <==> m == 0 || |NatText(m)| + 1 == d
  {
    PowPositive(10, d);
    var f := TruncMod(x, Pow(10, d));
    if f == 0 {
      ParseOfFormatWhole(x, d);
      CombineExact(x, Ok(0), d);
    } else if x >= 0 {
      PositiveFraction(x, d);
    } else {
      TruncModBounds(x, Pow(10, d));
      NegativeFraction(x, d);
    }
  }

  lemma {:induction false} StripEndsNonzero(s: string)
    ensures var t := StripZeros(s);
            && |t| <= |s| && t == s[..|t|] && (t != "" ==> t[|t| - 1] != '0')
            && forall i :: |t| <= i < |s| ==> s[i] == '0'
  {
    if s != "" && s[|s| - 1] == '0' {
      StripEndsNonzero(s[..|s| - 1]);
    }
  }

  predicate IsFraction(f: string, d: nat) {
    IsDecimal(f) && 0 < |f| <= d && f[|f| - 1] != '0'
  }

  lemma StrippedText(t: string, k: nat, d: nat)
    requires IsDecimal(t) && |t| == d && k < d && t[k] != '0'
    ensures IsFraction(StripZeros(t), d)
  {
    StripEndsNonzero(t);
  }

  lemma StrippedFraction(n: nat, d: nat)
    requires 0 < n < Pow(10, d)
    ensures IsFraction(StripZeros(PadStart(NatText(n), d, '0')), d)
  {
    ReadFraction(n, d);
    PaddedFraction(n, d);
    NumberOfNatText(n);
    var k := d - |NatText(n)|;
    var t := Repeat('0', k) + NatText(n);
    assert t[k] == NatText(n)[0];
    StrippedText(t, k, d);
  }

  /** The printed form is canonical: without a fraction there is no point; with one it has at
      most d digits after the point, at least one, and the last is not 0. */
  lemma {:induction false} FormatCanonical(x: nat, d: nat)
    ensures Pow(10, d) > 0
    ensures var whole := NatText(x / Pow(10, d));
            if x % Pow(10, d) == 0 then Format(x, d) == whole
            else exists f :: IsFraction(f, d) && Format(x, d) == whole + ['.'] + f
  {
    PowPositive(10, d);
    var p := Pow(10, d);
    TruncIsTruncating(x, p);
    var n := TruncMod(x, p);
    if n != 0 {
      TruncModBounds(x, p);
      StrippedFraction(n, d);
      var f := StripZeros(PadStart(NatText(n), d, '0'));
      assert IsFraction(f, d) && Format(x, d) == NatText(x / p) + ['.'] + f;
    }
  }

  // Parsing at fewer decimals.

  /** Digits with any number of points; only the first two parts are read. */
  predicate IsDecimalText(s: string) {
    forall i :: 0 <= i < |s| ==> IsDecDigit(s[i]) || s[i] == '.'
  }

  predicate AllDecimal(parts: seq<string>) {
    forall i :: 0 <= i < |parts| ==> IsDecimal(parts[i])
  }

  lemma FirstPart(s: string)
    requires IsDecimalText(s)
    ensures var i := IndexOf(s, '.');
      if i == -1 then IsDecimal(s) else IsDecimal(s[..i]) && IsDecimalText(s[i + 1..])
  {
    var i := IndexOf(s, '.');
    if i != -1 {
      assert forall k :: 0 <= k < i ==> s[..i][k] == s[k] && s[..i][k] != '.';
    }
  }

  lemma AllDecimalCons(first: string, rest: seq<string>)
    requires IsDecimal(first) && AllDecimal(rest)
    ensures AllDecimal([first] + rest)
  {}

  lemma {:induction false} PartsAreDecimal(s: string)
    requires IsDecimalText(s)
    ensures AllDecimal(Split(s))
  {
    FirstPart(s);
    var i := IndexOf(s, '.');
    if i != -1 {
      PartsAreDecimal(s[i + 1..]);
      AllDecimalCons(s[..i], Split(s[i + 1..]));
    }
  }

  lemma ParseOrZero(s: string)
    requires IsDecimal(s)
    ensures ParseBigInt(OrZero(s)) == Ok(Number(s))
  {
    if s == "" { ParseZeros(0); assert Repeat('0', 0) == ""; } else { ParseDigits(s); }
  }

  lemma PlacesDecimal(f: string, d: nat)
    requires IsDecimal(f)
    ensures IsDecimal(Places(f, d))
  {}

  lemma PlacesExtend(f: string, d: nat, k: nat)
    ensures Places(f, d + k)[..d] == Places(f, d)
  {}

  lemma NumberSplit(s: string, d: nat)
    requires IsDecimal(s) && d <= |s|
    ensures IsDecimal(s[..d]) && IsDecimal(s[d..])
    ensures Number(s) == Number(s[..d]) * Pow(10, |s| - d) + Number(s[d..]) && Number(s[d..]) < Pow(10, |s| - d)
  {
    assert DecDigits(s) == DecDigits(s[..d]) + DecDigits(s[d..]);
    ValueConcat(DecDigits(s[..d]), DecDigits(s[d..]), 10);
    ValueBelowPow(DecDigits(s[d..]), 10);
  }

  function FractionPart(s: string): string {
    var parts := Split(s);
    if |parts| > 1 then parts[1] else ""
  }

  lemma ParseDecimalText(s: string, d: nat)
    requires IsDecimalText(s)
    ensures IsDecimal(Split(s)[0]) && IsDecimal(Places(FractionPart(s), d))
    ensures Parse(s, d) == Combine(Ok(Number(Split(s)[0])), Ok(Number(Places(FractionPart(s), d))), d)
  {
    PartsAreDecimal(s);
    PlacesDecimal(FractionPart(s), d);
    ParseOrZero(Split(s)[0]);
    ParseOrZero(Places(FractionPart(s), d));
  }

  lemma FloorOfParts(w: nat, p: nat, q: nat, front: nat, rest: nat)
    requires rest < q
    ensures (w * (p * q) + (front * q + rest)) / q == w * p + front
  {
    MulAssociates(w, p, q);
    var v := w * p + front;
    assert w * (p * q) + (front * q + rest) == v * q + rest;
    QuotRemUnique(v, rest, q);
    QuotRemIsDivMod(v * q + rest, q);
  }

  lemma CombineFloor(w: nat, front: nat, rest: nat, number: nat, d: nat, k: nat)
    requires number == front * Pow(10, k) + rest && rest < Pow(10, k)
    ensures Combine(Ok(w), Ok(front), d).value >= 0
    ensures Combine(Ok(w), Ok(front), d).value == Combine(Ok(w), Ok(number), d + k).value / Pow(10, k)
  {
    PowAdd(10, d, k);
    FloorOfParts(w, Pow(10, d), Pow(10, k), front, rest);
  }

  lemma FloorOfText(w: nat, f: string, d: nat, k: nat)
    requires IsDecimal(f) && |f| == d + k
    ensures IsDecimal(f[..d]) && Pow(10, k) > 0
    ensures Combine(Ok(w), Ok(Number(f[..d])), d).value >= 0
    ensures Combine(Ok(w), Ok(Number(f[..d])), d).value == Combine(Ok(w), Ok(Number(f)), d + k).value / Pow(10, k)
  {
    PowPositive(10, k);
    NumberSplit(f, d);
    CombineFloor(w, Number(f[..d]), Number(f[d..]), Number(f), d, k);
  }

  /** Fewer decimals round down: on digits and points, parsing at d is parsing at d + k divided
      by 10 to the k, rounded toward zero. */
  lemma ParseAtFewerDecimals(s: string, d: nat, k: nat)
    requires IsDecimalText(s)
    ensures Pow(10, k) > 0 && Parse(s, d).Ok? && Parse(s, d + k).Ok?
    ensures Parse(s, d).value >= 0 && Parse(s, d).value == Parse(s, d + k).value / Pow(10, k)
  {
    ParseDecimalText(s, d);
    ParseDecimalText(s, d + k);
    var w, places := Number(Split(s)[0]), Places(FractionPart(s), d + k);
    PlacesExtend(FractionPart(s), d, k);
    FloorOfText(w, places, d, k);
    assert Parse(s, d) == Combine(Ok(w), Ok(Number(places[..d])), d);
    assert Parse(s, d + k) == Combine(Ok(w), Ok(Number(places)), d + k);
  }
}
