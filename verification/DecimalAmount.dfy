/** Decimal money strings to integer minor units, rounded half to even without floating point. */
module DecimalAmount {
  import opened Arithmetic
  import opened Common
  import opened Digits

  const MAX_DECIMAL_AMOUNT_LENGTH := 40
  const MAX_SAFE_INTEGER := 9_007_199_254_740_991

  datatype DecimalAmountError = NotACurrency | NotAPlainDecimal | BeyondExactRange

  datatype MinorUnitAmount = MinorUnitAmount(minor: int, rounded: bool)

  predicate IsCurrencyCode(c: string) {
    |c| == 3 && forall i :: 0 <= i < 3 ==> 'A' <= c[i] <= 'Z'
  }

  /** ISO 4217 minor-unit exponents; two unless listed. */
  function CurrencyExponent(c: string): nat {
    if c in {"BIF", "CLP", "DJF", "GNF", "ISK", "JPY", "KMF", "KRW", "PYG", "RWF", "UGX", "UYI", "VND", "VUV",
             "XAF", "XOF", "XPF"} then 0
    else if c in {"BHD", "IQD", "JOD", "KWD", "LYD", "OMR", "TND"} then 3
    else if c in {"CLF", "UYW"} then 4
    else 2
  }

  function Kept(fraction: string, exponent: nat): (kept: string)
    ensures AllDigits(fraction) ==> AllDigits(kept)
  {
    if |fraction| <= exponent then fraction + Zeros(exponent - |fraction|) else fraction[..exponent]
  }

  function Dropped(fraction: string, exponent: nat): string {
    if |fraction| <= exponent then "" else fraction[exponent..]
  }

  predicate HasNonZeroDigit(s: string) { exists i :: 0 <= i < |s| && s[i] != '0' }

  /** The digits of exactly one half. */
  function HalfDigits(length: nat): (h: string)
    requires length > 0
    ensures |h| == length && AllDigits(h)
  {
    "5" + Zeros(length - 1)
  }

  function RoundedMagnitude(whole: string, fraction: string, exponent: nat): nat
    requires AllDigits(whole) && AllDigits(fraction)
  {
    var digits := whole + Kept(fraction, exponent);
    var dropped := Dropped(fraction, exponent);
    if !HasNonZeroDigit(dropped) then Number(digits)
    else
      var half := HalfDigits(|dropped|);
      if LexLess(half, dropped) || (dropped == half && Number(digits) % 2 == 1) then Number(digits) + 1
      else Number(digits)
  }

  function ParseDecimalAmount(amount: string, currency: string): Result<MinorUnitAmount, DecimalAmountError> {
    if !IsCurrencyCode(currency) then Err(NotACurrency)
    else if |amount| > MAX_DECIMAL_AMOUNT_LENGTH || !IsPlainDecimal(amount) then Err(NotAPlainDecimal)
    else
      var exponent := CurrencyExponent(currency);
      var magnitude := RoundedMagnitude(Whole(amount), Fraction(amount), exponent);
      if magnitude > MAX_SAFE_INTEGER then Err(BeyondExactRange)
      else
        Ok(MinorUnitAmount(Signed(IsNegative(amount), magnitude),
                           HasNonZeroDigit(Dropped(Fraction(amount), exponent))))
  }

  // ---- The exact value and half-even rounding, independent of the digits above ----

  /** The amount in minor units is `Numerator / Denominator`. */
  function Numerator(amount: string, exponent: nat): int
    requires IsPlainDecimal(amount)
  {
    Signed(IsNegative(amount), Number(Whole(amount) + Fraction(amount)) * Pow10(exponent))
  }

  function Denominator(amount: string): (d: int)
    ensures d > 0
  {
    Pow10(|Fraction(amount)|)
  }

  /** `m` is the integer nearest to `n / d`, the even one of two equally near. */
  predicate HalfEven(n: int, d: int, m: int)
    requires d > 0
  {
    NearestEven(n - m * d, d, m)
  }

  /** The distance `r` from `m`, in `d`ths, is at most one half; exactly one half only from an even number. */
  predicate NearestEven(r: int, d: int, m: int) {
    -d <= 2 * r <= d && (2 * r == d || 2 * r == -d ==> m % 2 == 0)
  }

  /** Half-even rounding is monotone in the rational, so it is also a function of it. */
  lemma HalfEvenMonotone(n1: int, d1: int, m1: int, n2: int, d2: int, m2: int)
    requires d1 > 0 && d2 > 0 && HalfEven(n1, d1, m1) && HalfEven(n2, d2, m2)
    requires n1 * d2 <= n2 * d1
    ensures m1 <= m2
  {
    var r1, r2, p := n1 - m1 * d1, n2 - m2 * d2, d1 * d2;
    Distribute(m1 * d1, r1, d2);
    Distribute(m2 * d2, r2, d1);
    Associate(m1, d1, d2);
    Associate(m2, d2, d1);
    assert r1 * d2 + m1 * p <= r2 * d1 + m2 * p;
    ResidueScales(r1, d1, d2);
    ResidueScales(r2, d2, d1);
    MulOrder(0, d1, d2);
    MulOrder(m2, m1, p);
    MulOrder(m1, m2 + 1, p);
    Distribute(m2, 1, p);
  }

  /** A residue of at most half of `d` stays within half of `d * k` when both are scaled by `k`. */
  lemma ResidueScales(r: int, d: int, k: int)
    requires k > 0 && -d <= 2 * r <= d
    ensures -(d * k) <= 2 * (r * k) <= d * k
    ensures 2 * (r * k) == d * k ==> 2 * r == d
    ensures 2 * (r * k) == -(d * k) ==> 2 * r == -d
  {
    assert 2 * r * k == 2 * (r * k) && -d * k == -(d * k);
    MulOrder(-d, 2 * r, k);
    MulOrder(2 * r, d, k);
  }

  lemma HalfDigitsIsHalf(length: nat)
    requires length > 0
    ensures 2 * Number(HalfDigits(length)) == Pow10(length)
  {
    var h := HalfDigits(length);
    NumberZeros(length - 1);
    assert h[1..] == Zeros(length - 1);
    assert DigitValue(h[0]) == 5;
    assert Number(h) == 5 * Pow10(length - 1);
  }

  /** The digit-wise rounding is half-even rounding of the exact quotient. */
  lemma RoundedMagnitudeIsHalfEven(whole: string, fraction: string, exponent: nat)
    requires AllDigits(whole) && AllDigits(fraction)
    ensures AllDigits(whole + fraction)
    ensures var n := Number(whole + fraction) * Pow10(exponent); var d := Pow10(|fraction|);
      && HalfEven(n, d, RoundedMagnitude(whole, fraction, exponent))
      && (HasNonZeroDigit(Dropped(fraction, exponent)) <==> n % d != 0)
  {
    if |fraction| <= exponent {
      NothingDropped(whole, fraction, exponent);
    } else {
      SomethingDropped(whole, fraction, exponent);
    }
  }

  lemma NothingDropped(whole: string, fraction: string, exponent: nat)
    requires AllDigits(whole) && AllDigits(fraction) && |fraction| <= exponent
    ensures var n := Number(whole + fraction) * Pow10(exponent); var d := Pow10(|fraction|);
      HalfEven(n, d, RoundedMagnitude(whole, fraction, exponent)) && n % d == 0
  {
    var u, d, pad := Number(whole + fraction), Pow10(|fraction|), exponent - |fraction|;
    NumberAppend(whole + fraction, Zeros(pad));
    NumberZeros(pad);
    assert whole + Kept(fraction, exponent) == (whole + fraction) + Zeros(pad);
    Pow10Add(pad, |fraction|);
    Associate(u, Pow10(pad), d);
    RemainderIs(u * Pow10(exponent), u * Pow10(pad), d, 0);
  }

  lemma SomethingDropped(whole: string, fraction: string, exponent: nat)
    requires AllDigits(whole) && AllDigits(fraction) && |fraction| > exponent
    ensures var n := Number(whole + fraction) * Pow10(exponent); var d := Pow10(|fraction|);
      && HalfEven(n, d, RoundedMagnitude(whole, fraction, exponent))
      && (HasNonZeroDigit(Dropped(fraction, exponent)) <==> n % d != 0)
  {
    var base, dropped := Number(whole + Kept(fraction, exponent)), Dropped(fraction, exponent);
    RoundedByHalf(whole, fraction, exponent);
    DigitsSplit(whole, fraction, exponent);
    SplitQuotient(Number(whole + fraction), Pow10(|fraction|), base, Number(dropped), Pow10(|dropped|), Pow10(exponent));
  }

  lemma DigitsSplit(whole: string, fraction: string, exponent: nat)
    requires AllDigits(whole) && AllDigits(fraction) && |fraction| > exponent
    ensures var kept, dropped := Kept(fraction, exponent), Dropped(fraction, exponent);
      && AllDigits(dropped)
      && Number(whole + fraction) == Number(whole + kept) * Pow10(|dropped|) + Number(dropped)
      && Pow10(|fraction|) == Pow10(exponent) * Pow10(|dropped|)
  {
    var kept, dropped := Kept(fraction, exponent), Dropped(fraction, exponent);
    assert whole + fraction == (whole + kept) + dropped;
    NumberAppend(whole + kept, dropped);
    Pow10Add(exponent, |dropped|);
  }

  /** The comparison of the dropped digits with one half, in numbers. */
  lemma RoundedByHalf(whole: string, fraction: string, exponent: nat)
    requires AllDigits(whole) && AllDigits(fraction) && |fraction| > exponent
    ensures var base, dropped := Number(whole + Kept(fraction, exponent)), Dropped(fraction, exponent);
      && AllDigits(dropped)
      && var rest, p := Number(dropped), Pow10(|dropped|);
      && rest < p
      && (HasNonZeroDigit(dropped) <==> rest != 0)
      && RoundedMagnitude(whole, fraction, exponent) ==
         if 2 * rest > p || (2 * rest == p && base % 2 == 1) then base + 1 else base
  {
    var dropped := Dropped(fraction, exponent);
    NumberBound(dropped);
    NumberIsZero(dropped);
    HalfDigitsIsHalf(|dropped|);
    LexIsNumeric(HalfDigits(|dropped|), dropped);
  }

  /** `u * unit / d`, where `u` splits into `base` and a `rest` that is compared with half of `p`. */
  lemma SplitQuotient(u: nat, d: int, base: nat, rest: nat, p: nat, unit: nat)
    requires rest < p && unit >= 1 && p >= 1
    requires u == base * p + rest && d == unit * p
    ensures d > 0
    ensures 2 * rest < p ==> HalfEven(u * unit, d, base)
    ensures 2 * rest == p ==> HalfEven(u * unit, d, if base % 2 == 1 then base + 1 else base)
    ensures 2 * rest > p ==> HalfEven(u * unit, d, base + 1)
    ensures u * unit % d != 0 <==> rest != 0
  {
    var r := rest * unit;
    MulAtLeast(p, unit);
    assert u * unit == base * d + r by {
      Distribute(base * p, rest, unit);
      Associate(base, p, unit);
    }
    assert (base + 1) * d == base * d + d by { Distribute(base, 1, d); }
    assert (2 * rest) * unit == 2 * r;
    MulOrder(0, rest, unit);
    MulOrder(rest, p, unit);
    MulOrder(2 * rest, p, unit);
    MulOrder(p, 2 * rest, unit);
    RemainderIs(u * unit, base, d, r);
  }

  lemma NegationRounds(n: int, d: int, m: int)
    requires d > 0 && HalfEven(n, d, m)
    ensures HalfEven(-n, d, -m)
    ensures n % d == 0 <==> (-n) % d == 0
  {
    assert -n - (-m) * d == -(n - m * d) by { assert (-m) * d == -(m * d); }
    var q, r := n / d, n % d;
    assert (-q) * d == -(q * d) && (-q - 1) * d == -(q * d) - d;
    if r == 0 {
      RemainderIs(-n, -q, d, 0);
    } else {
      RemainderIs(-n, -q - 1, d, d - r);
    }
  }

  /**
   * An accepted amount is the half-even rounding of its exact value, flagged as rounded exactly when that value is
   * not an integer; a well-formed amount is refused exactly when its rounding leaves the exact integer range.
   */
  lemma ParseRoundsHalfEven(amount: string, currency: string, m: int)
    requires IsCurrencyCode(currency) && |amount| <= MAX_DECIMAL_AMOUNT_LENGTH && IsPlainDecimal(amount)
    requires HalfEven(Numerator(amount, CurrencyExponent(currency)), Denominator(amount), m)
    ensures var n := Numerator(amount, CurrencyExponent(currency));
      ParseDecimalAmount(amount, currency) ==
        if -MAX_SAFE_INTEGER <= m <= MAX_SAFE_INTEGER then Ok(MinorUnitAmount(m, n % Denominator(amount) != 0))
        else Err(BeyondExactRange)
  {
    var e := CurrencyExponent(currency);
    var n, d := Numerator(amount, e), Denominator(amount);
    var r := RoundingExists(amount, currency);
    assert n * d <= n * d;
    HalfEvenMonotone(n, d, r, n, d, m);
    HalfEvenMonotone(n, d, m, n, d, r);
  }

  /** Every well-formed amount has a half-even rounding, so the lemma above covers every one. */
  lemma RoundingExists(amount: string, currency: string) returns (m: int)
    requires IsPlainDecimal(amount)
    ensures var e := CurrencyExponent(currency); var n := Numerator(amount, e);
      && m == Signed(IsNegative(amount), RoundedMagnitude(Whole(amount), Fraction(amount), e))
      && HalfEven(n, Denominator(amount), m)
      && (HasNonZeroDigit(Dropped(Fraction(amount), e)) <==> n % Denominator(amount) != 0)
  {
    var e := CurrencyExponent(currency);
    RoundedMagnitudeIsHalfEven(Whole(amount), Fraction(amount), e);
    m := RoundedMagnitude(Whole(amount), Fraction(amount), e);
    if IsNegative(amount) {
      NegationRounds(-Numerator(amount, e), Denominator(amount), m);
      m := -m;
    }
  }

  /** A minus sign changes nothing but the sign. */
  lemma NegatedParts(amount: string)
    requires !IsNegative(amount)
    ensures IsNegative("-" + amount) && (IsPlainDecimal("-" + amount) <==> IsPlainDecimal(amount))
    ensures Whole("-" + amount) == Whole(amount) && Fraction("-" + amount) == Fraction(amount)
  {
    assert Unsigned("-" + amount) == amount == Unsigned(amount);
  }

  /** A credit rounds like the charge it reverses. */
  lemma ParseIsOdd(amount: string, currency: string)
    requires !IsNegative(amount) && |amount| < MAX_DECIMAL_AMOUNT_LENGTH
    ensures ParseDecimalAmount("-" + amount, currency) ==
      match ParseDecimalAmount(amount, currency)
      case Ok(v) => Ok(MinorUnitAmount(-v.minor, v.rounded))
      case Err(e) => Err(e)
  {
    NegatedParts(amount);
  }

  /** A larger amount never becomes fewer minor units, however the two are written. */
  lemma ParseIsMonotone(a: string, b: string, currency: string)
    requires ParseDecimalAmount(a, currency).Ok? && ParseDecimalAmount(b, currency).Ok?
    requires var e := CurrencyExponent(currency); Numerator(a, e) * Denominator(b) <= Numerator(b, e) * Denominator(a)
    ensures ParseDecimalAmount(a, currency).value.minor <= ParseDecimalAmount(b, currency).value.minor
  {
    var e := CurrencyExponent(currency);
    var m := RoundingExists(a, currency);
    var k := RoundingExists(b, currency);
    ParseRoundsHalfEven(a, currency, m);
    ParseRoundsHalfEven(b, currency, k);
    HalfEvenMonotone(Numerator(a, e), Denominator(a), m, Numerator(b, e), Denominator(b), k);
  }
}
