/** Which texts are amounts, and what an amount is worth, told from its sign and digits. */
module AmountMeaning {
  import opened Arithmetic
  import opened Common
  import opened Digits
  import opened DecimalAmount
  import RecordKeys

  /** An optional minus sign, digits, and optionally a point followed by digits. */
  predicate IsAmountText(s: string, negative: bool, whole: string, fraction: string) {
    && whole != "" && AllDigits(whole) && AllDigits(fraction)
    && s == (if negative then "-" else "") + whole + (if fraction == "" then "" else "." + fraction)
  }

  lemma UnsignedIs(s: string, negative: bool, whole: string, rest: string)
    requires s == (if negative then "-" else "") + whole + rest && whole != "" && IsDigit(whole[0])
    ensures IsNegative(s) == negative && Unsigned(s) == whole + rest
  {
    if negative { assert s == "-" + (whole + rest); } else { assert s == whole + rest && s[0] == whole[0]; }
  }

  lemma AmountTextReads(s: string, negative: bool, whole: string, fraction: string)
    requires IsAmountText(s, negative, whole, fraction)
    ensures IsPlainDecimal(s) && IsNegative(s) == negative && Whole(s) == whole && Fraction(s) == fraction
  {
    var rest := if fraction == "" then "" else "." + fraction;
    UnsignedIs(s, negative, whole, rest);
    RecordKeys.PointAfterDigits(whole, rest);
    RecordKeys.PartsReadBack(s, whole, fraction);
  }

  lemma PlainDecimalIff(s: string)
    ensures IsPlainDecimal(s) <==> exists negative, whole, fraction :: IsAmountText(s, negative, whole, fraction)
  {
    if IsPlainDecimal(s) {
      RecordKeys.PartsRender(s);
      assert IsAmountText(s, IsNegative(s), Whole(s), Fraction(s));
    }
    if negative, whole, fraction :| IsAmountText(s, negative, whole, fraction) {
      AmountTextReads(s, negative, whole, fraction);
    }
  }

  /** Before its value is looked at, an amount is refused exactly for its currency, its length or its form. */
  lemma RefusedIff(amount: string, currency: string)
    ensures ParseDecimalAmount(amount, currency) == Err(NotACurrency) <==> !IsCurrencyCode(currency)
    ensures ParseDecimalAmount(amount, currency) == Err(NotAPlainDecimal) <==>
      IsCurrencyCode(currency)
      && (|amount| > 40 || !exists negative, whole, fraction :: IsAmountText(amount, negative, whole, fraction))
  {
    PlainDecimalIff(amount);
  }

  // ---- Rounding ----

  function Distance(a: int, b: int): nat { if a < b then b - a else a - b }

  /** No integer is nearer to `n / d`, and of two equally near the even one is meant. */
  ghost predicate IsNearest(n: int, d: int, m: int) {
    forall k: int {:trigger k * d} :: k != m ==>
      Distance(n, m * d) < Distance(n, k * d) || (Distance(n, m * d) == Distance(n, k * d) && m % 2 == 0)
  }

  lemma OtherMultiple(n: int, d: int, m: int, k: int)
    requires d > 0 && k != m
    ensures k > m ==> k * d >= m * d + d
    ensures k < m ==> k * d <= m * d - d
  {
    if k > m { MulOrder(m + 1, k, d); Distribute(m, 1, d); } else { MulOrder(k, m - 1, d); Distribute(m, -1, d); }
  }

  /** Rounding half to even is choosing the nearest integer, or the even one of two. */
  lemma HalfEvenIsNearest(n: int, d: int, m: int)
    requires d > 0
    ensures HalfEven(n, d, m) <==> IsNearest(n, d, m)
  {
    if HalfEven(n, d, m) {
      forall k: int | k != m
        ensures Distance(n, m * d) < Distance(n, k * d) || (Distance(n, m * d) == Distance(n, k * d) && m % 2 == 0)
      {
        OtherMultiple(n, d, m, k);
      }
    }
    if IsNearest(n, d, m) {
      Distribute(m, 1, d);
      Distribute(m, -1, d);
      assert (m + 1) * d == m * d + d && (m - 1) * d == m * d - d;
    }
  }

  /** The amount in its smallest written unit, times ten to the places of its currency. */
  function Units(negative: bool, whole: string, fraction: string, places: nat): int
    requires AllDigits(whole) && AllDigits(fraction)
  {
    NumberAppend(whole, fraction);
    if negative then -(Number(whole + fraction) * Pow10(places)) else Number(whole + fraction) * Pow10(places)
  }

  lemma NumeratorIs(amount: string, negative: bool, whole: string, fraction: string, places: nat)
    requires IsAmountText(amount, negative, whole, fraction)
    ensures IsPlainDecimal(amount) && Numerator(amount, places) == Units(negative, whole, fraction, places)
    ensures Denominator(amount) == Pow10(|fraction|)
  {
    AmountTextReads(amount, negative, whole, fraction);
  }

  /**
   * An amount is the integer nearest to its digits times ten to the places of its currency over ten to its own places,
   * the even one of two; it is flagged when that is not exact, and refused when it is too large to be exact as a double.
   */
  lemma AmountIs(amount: string, currency: string, negative: bool, whole: string, fraction: string, m: int)
    requires IsCurrencyCode(currency) && |amount| <= 40 && IsAmountText(amount, negative, whole, fraction)
    requires IsNearest(Units(negative, whole, fraction, CurrencyExponent(currency)), Pow10(|fraction|), m)
    ensures ParseDecimalAmount(amount, currency) ==
      if -9_007_199_254_740_991 <= m <= 9_007_199_254_740_991
      then Ok(MinorUnitAmount(m, Units(negative, whole, fraction, CurrencyExponent(currency)) % Pow10(|fraction|) != 0))
      else Err(BeyondExactRange)
  {
    NumeratorIs(amount, negative, whole, fraction, CurrencyExponent(currency));
    HalfEvenIsNearest(Units(negative, whole, fraction, CurrencyExponent(currency)), Pow10(|fraction|), m);
    ParseRoundsHalfEven(amount, currency, m);
  }

  // ---- Amounts that both implementations are checked on ----

  /** The places of some currencies. */
  lemma KnownCurrencies()
    ensures CurrencyExponent("EUR") == CurrencyExponent("USD") == CurrencyExponent("GBP") == 2
    ensures CurrencyExponent("JPY") == CurrencyExponent("KRW") == 0
    ensures CurrencyExponent("KWD") == CurrencyExponent("BHD") == CurrencyExponent("IQD") == 3
    ensures CurrencyExponent("CLF") == 4
  {
  }

  lemma CodesAreLetters(c: string)
    ensures IsCurrencyCode(c) <==> |c| == 3 && 'A' <= c[0] <= 'Z' && 'A' <= c[1] <= 'Z' && 'A' <= c[2] <= 'Z'
  {
  }

  lemma NumberNext(s: string, c: char)
    requires AllDigits(s) && IsDigit(c)
    ensures AllDigits(s + [c]) && Number(s + [c]) == 10 * Number(s) + DigitValue(c)
  {
    NumberAppend(s, [c]);
    assert Number([c]) == DigitValue(c) * Pow10(0) + Number("") by { assert [c][1..] == ""; }
    assert Pow10(1) == 10 * Pow10(0);
  }

  lemma FourDigits(a: char, b: char, c: char, d: char)
    requires IsDigit(a) && IsDigit(b) && IsDigit(c) && IsDigit(d)
    ensures Number([a, b, c, d]) == 1_000 * DigitValue(a) + 100 * DigitValue(b) + 10 * DigitValue(c) + DigitValue(d)
  {
    NumberNext("", a);
    NumberNext([a], b);
    NumberNext([a, b], c);
    NumberNext([a, b, c], d);
    assert "" + [a] == [a] && [a] + [b] == [a, b] && [a, b] + [c] == [a, b, c] && [a, b, c] + [d] == [a, b, c, d];
  }

  /** Two digits, a point and two digits, in a currency with two places. */
  lemma ExactAmount()
    ensures ParseDecimalAmount("12.34", "EUR") == Ok(MinorUnitAmount(1_234, false))
  {
    KnownCurrencies();
    CodesAreLetters("EUR");
    FourDigits('1', '2', '3', '4');
    assert "12" + "34" == ['1', '2', '3', '4'] && "12.34" == "" + "12" + ("." + "34");
    assert Pow10(2) == 100 by { assert Pow10(1) == 10; }
    HalfEvenIsNearest(123_400, 100, 1_234);
    AmountIs("12.34", "EUR", false, "12", "34", 1_234);
  }

  /** Exactly between two minor units, the even one. */
  lemma TiedAmount()
    ensures ParseDecimalAmount("0.125", "EUR") == Ok(MinorUnitAmount(12, true))
  {
    KnownCurrencies();
    CodesAreLetters("EUR");
    FourDigits('0', '1', '2', '5');
    assert "0" + "125" == ['0', '1', '2', '5'] && "0.125" == "" + "0" + ("." + "125");
    assert Pow10(2) == 100 && Pow10(3) == 1_000 by { assert Pow10(1) == 10; }
    HalfEvenIsNearest(12_500, 1_000, 12);
    AmountIs("0.125", "EUR", false, "0", "125", 12);
  }

  lemma TiedCredit()
    ensures ParseDecimalAmount("-0.135", "EUR") == Ok(MinorUnitAmount(-14, true))
  {
    KnownCurrencies();
    CodesAreLetters("EUR");
    FourDigits('0', '1', '3', '5');
    assert "0" + "135" == ['0', '1', '3', '5'] && "-0.135" == "-" + "0" + ("." + "135");
    assert Pow10(2) == 100 && Pow10(3) == 1_000 by { assert Pow10(1) == 10; }
    HalfEvenIsNearest(-13_500, 1_000, -14);
    AmountIs("-0.135", "EUR", true, "0", "135", -14);
  }
}
