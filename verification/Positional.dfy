/** Positional numerals: the arithmetic shared by every codec of the wallet SDK. */
module Positional {

  type Byte = n: nat | n < 256

  const TWO_64: nat := 0x1_0000_0000_0000_0000

  // Quotient and remainder by repeated subtraction; `QuotRemIsDivMod` equates them with `/` and `%`.
  // Keeping division out of the proofs below keeps their arithmetic linear.
  function Quot(n: nat, b: nat): nat
    requires b > 0
  {
    if n < b then 0 else 1 + Quot(n - b, b)
  }

  function Rem(n: nat, b: nat): (r: nat)
    requires b > 0
    ensures r < b
  {
    if n < b then n else Rem(n - b, b)
  }

  lemma {:induction false} QuotRem(n: nat, b: nat)
    requires b > 0
    ensures n == Quot(n, b) * b + Rem(n, b)
    ensures b >= 2 && n > 0 ==> Quot(n, b) < n
  {
    if n >= b {
      QuotRem(n - b, b);
      assert Quot(n, b) * b == Quot(n - b, b) * b + b;
    }
  }

  lemma {:induction false} QuotRemShift(q: nat, n: nat, b: nat)
    requires b > 0
    ensures Quot(q * b + n, b) == q + Quot(n, b) && Rem(q * b + n, b) == Rem(n, b)
  {
    if q > 0 {
      QuotRemShift(q - 1, n, b);
      assert q * b + n == (q - 1) * b + n + b;
      assert (q - 1) * b >= 0;
    }
  }

  lemma QuotRemUnique(q: nat, r: nat, b: nat)
    requires r < b
    ensures Quot(q * b + r, b) == q && Rem(q * b + r, b) == r
  {
    QuotRemShift(q, r, b);
  }

  lemma QuotRemIsDivMod(n: nat, b: nat)
    requires b > 0
    ensures Quot(n, b) == n / b && Rem(n, b) == n % b
  {
    assert n == (n / b) * b + n % b;
    QuotRemUnique(n / b, n % b, b);
  }

  function Pow(b: nat, e: nat): nat {
    if e == 0 then 1 else b * Pow(b, e - 1)
  }

  /** The number a digit string denotes, most significant digit first. */
  function Value(s: seq<nat>, b: nat): nat {
    if s == [] then 0 else Value(s[..|s| - 1], b) * b + s[|s| - 1]
  }

  predicate AllDigits(s: seq<nat>, b: nat) {
    forall i :: 0 <= i < |s| ==> s[i] < b
  }

  /** The digits of `n`, most significant first, without a leading zero; zero has no digits. */
  function Canonical(n: nat, b: nat): seq<nat>
    requires b >= 2
  {
    if n == 0 then []
    else
      QuotRem(n, b);
      Canonical(Quot(n, b), b) + [Rem(n, b)]
  }

  /** The digits of `n`, least significant first. */
  function LittleDigits(n: nat, b: nat): seq<nat>
    requires b >= 2
  {
    if n == 0 then []
    else
      QuotRem(n, b);
      [Rem(n, b)] + LittleDigits(Quot(n, b), b)
  }

  function Repeat<T>(x: T, n: nat): (s: seq<T>)
    ensures |s| == n && forall i :: 0 <= i < n ==> s[i] == x
  {
    seq(n, _ => x)
  }

  function Reverse<T>(s: seq<T>): (r: seq<T>)
    ensures |r| == |s| && forall i :: 0 <= i < |s| ==> r[i] == s[|s| - 1 - i]
  {
    seq(|s|, i requires 0 <= i < |s| => s[|s| - 1 - i])
  }

  /** How many elements at the front of `s` equal `x`. */
  function LeadingCount<T(==)>(s: seq<T>, x: T): (n: nat)
    ensures n <= |s| && (forall i :: 0 <= i < n ==> s[i] == x) && (n < |s| ==> s[n] != x)
  {
    if s != [] && s[0] == x then 1 + LeadingCount(s[1..], x) else 0
  }

  predicate HasOther<T(==)>(s: seq<T>, x: T) {
    exists i :: 0 <= i < |s| && s[i] != x
  }

  lemma LeadingCountUnique<T>(s: seq<T>, x: T, n: nat)
    requires n <= |s| && (forall i :: 0 <= i < n ==> s[i] == x) && (n < |s| ==> s[n] != x)
    ensures LeadingCount(s, x) == n
  {}

  lemma {:induction false} PowPositive(b: nat, e: nat)
    requires b > 0
    ensures Pow(b, e) > 0
  {
    if e > 0 { PowPositive(b, e - 1); }
  }

  lemma MulAssociates(x: nat, y: nat, z: nat)
    ensures x * (y * z) == (x * y) * z
  {}

  lemma {:induction false} PowAdd(b: nat, x: nat, y: nat)
    ensures Pow(b, x + y) == Pow(b, x) * Pow(b, y)
  {
    if x > 0 {
      PowAdd(b, x - 1, y);
      MulAssociates(b, Pow(b, x - 1), Pow(b, y));
    }
  }

  lemma MulGrows(x: nat, y: nat)
    requires y > 0
    ensures x <= x * y
  {}

  lemma {:induction false} PowBaseMonotone(a: nat, b: nat, e: nat)
    requires a <= b
    ensures Pow(a, e) <= Pow(b, e)
  {
    if e > 0 {
      PowBaseMonotone(a, b, e - 1);
      MulBoth(a, b, Pow(a, e - 1), Pow(b, e - 1));
    }
  }

  lemma MulBoth(a: nat, b: nat, c: nat, d: nat)
    requires a <= b && c <= d
    ensures a * c <= b * d
  {
    assert a * c <= b * c by { assert (b - a) * c >= 0; }
    assert b * c <= b * d by { assert b * (d - c) >= 0; }
  }

  lemma ScaleSum(v: nat, p: nat, w: nat, b: nat)
    ensures (v * p + w) * b == v * (b * p) + w * b
  {
    assert v * p * b == v * (b * p);
  }

  /** Splitting a numeral. */
  lemma {:induction false} ValueConcat(s: seq<nat>, t: seq<nat>, b: nat)
    ensures Value(s + t, b) == Value(s, b) * Pow(b, |t|) + Value(t, b)
  {
    if t == [] {
      assert s + t == s;
    } else {
      var t' := t[..|t| - 1];
      assert (s + t)[..|s + t| - 1] == s + t';
      ValueConcat(s, t', b);
      ScaleSum(Value(s, b), Pow(b, |t'|), Value(t', b), b);
    }
  }

  lemma {:induction false} ValueOfZeros(n: nat, b: nat)
    ensures Value(Repeat<nat>(0, n), b) == 0
  {
    if n > 0 {
      ValueOfZeros(n - 1, b);
      assert Repeat<nat>(0, n)[..n - 1] == Repeat<nat>(0, n - 1);
    }
  }

  lemma {:induction false} ValueBelowPow(s: seq<nat>, b: nat)
    requires AllDigits(s, b)
    ensures Value(s, b) < Pow(b, |s|)
  {
    if s != [] {
      var s' := s[..|s| - 1];
      ValueBelowPow(s', b);
      MulBoth(Value(s', b) + 1, Pow(b, |s'|), b, b);
      assert (Value(s', b) + 1) * b == Value(s', b) * b + b;
    }
  }

  lemma ValueSnoc(s: seq<nat>, d: nat, b: nat)
    ensures Value(s + [d], b) == Value(s, b) * b + d
  {
    assert (s + [d])[..|s|] == s;
  }

  lemma {:induction false} CanonicalDenotes(n: nat, b: nat)
    requires b >= 2
    ensures Value(Canonical(n, b), b) == n
    ensures AllDigits(Canonical(n, b), b)
    ensures n > 0 ==> Canonical(n, b) != [] && Canonical(n, b)[0] != 0
  {
    if n > 0 {
      var q, r := Quot(n, b), Rem(n, b);
      QuotRem(n, b);
      CanonicalDenotes(q, b);
      ValueSnoc(Canonical(q, b), r, b);
      assert Canonical(n, b) == Canonical(q, b) + [r];
      if q == 0 { assert q * b == 0; }
    }
  }

  /** One turn of a digit loop written with `/` and `%`. */
  lemma CanonicalStep(n: nat, b: nat, tail: seq<nat>)
    requires b >= 2 && n > 0
    ensures n / b < n && n % b < b
    ensures Canonical(n / b, b) + ([n % b] + tail) == Canonical(n, b) + tail
  {
    QuotRem(n, b);
    QuotRemIsDivMod(n, b);
    assert Canonical(n, b) == Canonical(n / b, b) + [n % b];
  }

  /** Uniqueness: a numeral without a leading zero is the canonical one of its value. */
  lemma {:induction false} CanonicalUnique(s: seq<nat>, b: nat)
    requires b >= 2 && AllDigits(s, b)
    requires s != [] ==> s[0] != 0
    ensures Canonical(Value(s, b), b) == s
  {
    if s != [] {
      var s', d := s[..|s| - 1], s[|s| - 1];
      CanonicalUnique(s', b);
      QuotRemUnique(Value(s', b), d, b);
      if Value(s', b) == 0 {
        assert Canonical(0, b) == [];
        assert s == [d];
      } else {
        MulGrows(Value(s', b), b);
      }
      assert s == s' + [d];
    }
  }

  /** Every digit string is its leading zeros followed by the canonical numeral of its value. */
  lemma NormalForm(s: seq<nat>, b: nat)
    requires b >= 2 && AllDigits(s, b)
    ensures s == Repeat(0, LeadingCount(s, 0)) + Canonical(Value(s, b), b)
    ensures HasOther(s, 0) <==> Value(s, b) > 0
  {
    var z := LeadingCount(s, 0);
    assert s == Repeat(0, z) + s[z..];
    ValueConcat(Repeat(0, z), s[z..], b);
    ValueOfZeros(z, b);
    CanonicalUnique(s[z..], b);
    assert s[z..] == [] ==> Value(s[z..], b) == 0;
    if HasOther(s, 0) {
      assert z < |s|;
      assert Canonical(Value(s, b), b) != [];
    }
  }

  lemma ReverseConcat<T>(s: seq<T>, t: seq<T>)
    ensures Reverse(s + t) == Reverse(t) + Reverse(s)
  {}

  lemma {:induction false} ReverseLittle(n: nat, b: nat)
    requires b >= 2
    ensures Reverse(LittleDigits(n, b)) == Canonical(n, b)
  {
    if n > 0 {
      QuotRem(n, b);
      ReverseLittle(Quot(n, b), b);
      ReverseConcat([Rem(n, b)], LittleDigits(Quot(n, b), b));
    }
  }

  lemma {:induction false} LittleDigitsBounded(n: nat, b: nat)
    requires b >= 2
    ensures AllDigits(LittleDigits(n, b), b)
  {
    if n > 0 {
      QuotRem(n, b);
      LittleDigitsBounded(Quot(n, b), b);
    }
  }

  lemma QuotientBelow(n: nat, q: nat, r: nat, b: nat, p: nat)
    requires n == q * b + r && r < b
    ensures q < p <==> n < b * p
  {
    if q < p {
      MulBoth(q + 1, p, b, b);
      assert (q + 1) * b == q * b + b;
    } else {
      MulBoth(p, q, b, b);
    }
  }

  /** A numeral has at most k digits exactly when its value is below b to the k. */
  lemma {:induction false} CanonicalLength(n: nat, b: nat, k: nat)
    requires b >= 2
    ensures |Canonical(n, b)| <= k <==> n < Pow(b, k)
  {
    if n > 0 && k > 0 {
      QuotRem(n, b);
      CanonicalLength(Quot(n, b), b, k - 1);
      QuotientBelow(n, Quot(n, b), Rem(n, b), b, Pow(b, k - 1));
    } else if n == 0 {
      PowPositive(b, k);
    }
  }

  lemma ValueAfterZeros(z: nat, s: seq<nat>, b: nat)
    ensures Value(Repeat<nat>(0, z) + s, b) == Value(s, b)
  {
    ValueConcat(Repeat(0, z), s, b);
    ValueOfZeros(z, b);
  }

  /** Change of base that keeps the number of leading zero digits: sections 3 and 4 of
      draft-msporny-base58 are its two directions. */
  function Transcode(ds: seq<nat>, a: nat, b: nat): seq<nat>
    requires b >= 2
  {
    Repeat(0, LeadingCount(ds, 0)) + Canonical(Value(ds, a), b)
  }

  lemma TranscodeShape(ds: seq<nat>, a: nat, b: nat)
    requires b >= 2
    ensures AllDigits(Transcode(ds, a, b), b) && LeadingCount(Transcode(ds, a, b), 0) == LeadingCount(ds, 0)
  {
    CanonicalDenotes(Value(ds, a), b);
    LeadingCountUnique(Transcode(ds, a, b), 0, LeadingCount(ds, 0));
  }

  lemma TranscodeKeeps(ds: seq<nat>, a: nat, b: nat)
    requires a >= 2 && b >= 2 && AllDigits(ds, a)
    ensures var t := Transcode(ds, a, b);
            && AllDigits(t, b) && Value(t, b) == Value(ds, a)
            && LeadingCount(t, 0) == LeadingCount(ds, 0) && (HasOther(t, 0) <==> HasOther(ds, 0))
  {
    TranscodeShape(ds, a, b);
    CanonicalDenotes(Value(ds, a), b);
    ValueAfterZeros(LeadingCount(ds, 0), Canonical(Value(ds, a), b), b);
    NormalForm(ds, a);
    NormalForm(Transcode(ds, a, b), b);
  }

  /** The reference codec is a bijection: changing the base back restores every digit string. */
  lemma TranscodeBack(ds: seq<nat>, a: nat, b: nat)
    requires a >= 2 && b >= 2 && AllDigits(ds, a)
    ensures Transcode(Transcode(ds, a, b), b, a) == ds
  {
    TranscodeKeeps(ds, a, b);
    NormalForm(ds, a);
  }
}
