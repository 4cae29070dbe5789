/** Canonical forms of decimals and UTC timestamps, as record keys and window bounds compare them. */
module RecordKeys {
  import opened Arithmetic
  import opened Common
  import opened Digits

  // ---- Decimals ----

  /** A plain decimal whose whole part has no leading zero. */
  predicate IsDecimal(s: string) {
    IsPlainDecimal(s) && (Whole(s) == "0" || Whole(s)[0] != '0')
  }

  function StripZeros(s: string): string {
    if s != "" && s[|s| - 1] == '0' then StripZeros(s[..|s| - 1]) else s
  }

  /** `t` is `s` without its trailing zeros. */
  predicate Stripped(s: string, t: string) {
    |t| <= |s| && s == t + Zeros(|s| - |t|) && (t != "" ==> t[|t| - 1] != '0')
  }

  lemma {:induction false} StripZerosStrips(s: string)
    ensures Stripped(s, StripZeros(s))
  {
    if s != "" && s[|s| - 1] == '0' {
      var init := s[..|s| - 1];
      StripZerosStrips(init);
      assert s == init + "0";
      ZerosAppendOne(|init| - |StripZeros(init)|);
    }
  }

  lemma {:induction false} StrippedIsUnique(s: string, t: string)
    requires Stripped(s, t)
    ensures StripZeros(s) == t
  {
    var n := |s| - |t|;
    if n > 0 {
      ZerosAppendOne(n - 1);
      assert s[..|s| - 1] == t + Zeros(n - 1);
      StrippedIsUnique(s[..|s| - 1], t);
    }
  }

  lemma {:induction false} ZerosAppendOne(n: nat)
    ensures Zeros(n) + "0" == Zeros(n + 1)
  {
    if n > 0 { ZerosAppendOne(n - 1); }
  }

  function StripPoint(s: string): string {
    if s != "" && s[|s| - 1] == '.' then s[..|s| - 1] else s
  }

  function CanonicalDecimal(s: string): string {
    var stripped := if '.' in s then StripPoint(StripZeros(s)) else s;
    if stripped == "-0" then "0" else stripped
  }

  /** Digits of the exact value without its point; the value is `Units / 10^|Fraction|`. */
  function Units(s: string): int
    requires IsPlainDecimal(s)
  {
    Signed(IsNegative(s), Number(Whole(s) + Fraction(s)))
  }

  predicate SameRational(a: string, b: string)
    requires IsPlainDecimal(a) && IsPlainDecimal(b)
  {
    Units(a) * Pow10(|Fraction(b)|) == Units(b) * Pow10(|Fraction(a)|)
  }

  /** A decimal from its parts. */
  function Render(negative: bool, whole: string, fraction: string): string {
    (if negative then "-" else "") + whole + (if fraction == "" then "" else "." + fraction)
  }

  predicate IsZeroText(s: string)
    requires IsPlainDecimal(s)
  {
    Whole(s) == "0" && StripZeros(Fraction(s)) == ""
  }

  lemma SplitAt(u: string, p: nat)
    requires p < |u|
    ensures u == u[..p] + ([u[p]] + u[p + 1..])
  {
  }

  lemma UnsignedRenders(u: string)
    ensures u == u[..PointAt(u)] + if PointAt(u) == |u| then "" else "." + u[PointAt(u) + 1..]
  {
    if PointAt(u) < |u| { SplitAt(u, PointAt(u)); } else { assert u[..|u|] == u; }
  }

  lemma PartsRender(s: string)
    requires IsPlainDecimal(s)
    ensures s == Render(IsNegative(s), Whole(s), Fraction(s))
    ensures '.' in s <==> Fraction(s) != ""
  {
    SignedRenders(s);
    PointIsInside(s);
  }

  lemma SignedRenders(s: string)
    requires IsPlainDecimal(s)
    ensures s == Render(IsNegative(s), Whole(s), Fraction(s))
  {
    var u := Unsigned(s);
    UnsignedRenders(u);
    assert (PointAt(u) == |u|) <==> Fraction(s) == "";
    Regroup(if IsNegative(s) then "-" else "", Whole(s), if Fraction(s) == "" then "" else "." + Fraction(s));
    SignAndRest(s);
  }

  lemma SignAndRest(s: string)
    ensures s == (if IsNegative(s) then "-" else "") + Unsigned(s)
  {
  }

  lemma PointIsInside(s: string)
    requires IsPlainDecimal(s)
    ensures '.' in s <==> Fraction(s) != ""
  {
    var u := Unsigned(s);
    assert '.' in s <==> '.' in u by { SignAndRest(s); }
    if PointAt(u) == |u| { assert u[..|u|] == u; } else { assert u[PointAt(u)] == '.'; }
  }

  /** Digits, and a point before what follows them, read back. */
  lemma PartsReadBack(s: string, whole: string, fraction: string)
    requires whole != "" && AllDigits(whole)
    requires Unsigned(s) == whole + if fraction == "" then "" else "." + fraction
    ensures Whole(s) == whole && Fraction(s) == fraction
  {
    PointAfterDigits(whole, if fraction == "" then "" else "." + fraction);
  }

  lemma RenderParts(negative: bool, whole: string, fraction: string)
    requires whole != "" && AllDigits(whole)
    ensures var s := Render(negative, whole, fraction);
      IsNegative(s) == negative && Whole(s) == whole && Fraction(s) == fraction
  {
    var s := Render(negative, whole, fraction);
    assert Unsigned(s) == whole + if fraction == "" then "" else "." + fraction;
    PartsReadBack(s, whole, fraction);
  }

  lemma {:induction false} PointAfterDigits(whole: string, rest: string)
    requires AllDigits(whole) && (rest == "" || rest[0] == '.')
    ensures PointAt(whole + rest) == |whole|
  {
    if whole == "" {
      assert whole + rest == rest;
    } else {
      PointAfterDigits(whole[1..], rest);
      assert (whole + rest)[1..] == whole[1..] + rest;
    }
  }

  /** The canonical text keeps the whole part, drops trailing fraction zeros, and drops the sign of zero. */
  lemma CanonicalShape(s: string)
    requires IsDecimal(s)
    ensures CanonicalDecimal(s) ==
      Render(IsNegative(s) && !IsZeroText(s), Whole(s), StripZeros(Fraction(s)))
  {
    PartsRender(s);
    var sign, w, f := if IsNegative(s) then "-" else "", Whole(s), Fraction(s);
    var t := StripZeros(f);
    SignlessZero(sign, w, t);
    if f == "" {
      assert s == sign + w;
      assert t == "";
    } else {
      StripFraction(sign + w, f, s);
    }
  }

  /** The text "-0" is exactly a negative whole part of zero without a fraction. */
  lemma SignlessZero(sign: string, w: string, t: string)
    requires (sign == "-" || sign == "") && w != "" && AllDigits(w)
    ensures sign + w == "-0" <==> sign == "-" && w == "0"
    ensures sign + w + "." + t != "-0"
  {
    assert sign == "" ==> (sign + w)[0] == w[0] != '-';
    assert sign == "-" ==> sign + w == "-" + w && (sign + w)[1..] == w;
    assert '.' in sign + w + "." + t && '.' !in "-0";
  }

  lemma StripFraction(head: string, f: string, s: string)
    requires f != "" && AllDigits(f) && s == head + ("." + f)
    ensures StripPoint(StripZeros(s)) == head + (if StripZeros(f) == "" then "" else "." + StripZeros(f))
  {
    var t := StripZeros(f);
    StripZerosStrips(f);
    var r := head + "." + t;
    assert s == r + Zeros(|f| - |t|);
    if t == "" {
      assert r == head + ".";
      StrippedIsUnique(s, r);
      assert r[..|head|] == head;
    } else {
      assert r[|r| - 1] == t[|t| - 1] == f[|t| - 1];
      StrippedIsUnique(s, r);
      assert r == head + ("." + t);
    }
  }

  function PadTo(f: string, k: nat): (p: string)
    requires |f| <= k
    ensures |p| == k
    ensures AllDigits(f) ==> AllDigits(p)
  {
    f + Zeros(k - |f|)
  }

  lemma {:induction false} ZerosAppend(m: nat, n: nat)
    ensures Zeros(m) + Zeros(n) == Zeros(m + n)
  {
    if m > 0 { ZerosAppend(m - 1, n); }
  }

  lemma Regroup(a: string, b: string, c: string)
    ensures a + b + c == a + (b + c)
  {
  }

  lemma PadStripped(f: string, t: string, k: nat)
    requires Stripped(f, t) && |f| <= k
    ensures PadTo(f, k) == t + Zeros(k - |t|)
  {
    var m, n := |f| - |t|, k - |f|;
    Regroup(t, Zeros(m), Zeros(n));
    ZerosAppend(m, n);
  }

  lemma PadIgnoresStrippedZeros(f: string, k: nat)
    requires |f| <= k
    ensures |StripZeros(f)| <= |f|
    ensures PadTo(f, k) == PadTo(StripZeros(f), k)
    ensures StripZeros(PadTo(f, k)) == StripZeros(f)
  {
    StripZerosStrips(f);
    PadStripped(f, StripZeros(f), k);
    StrippedIsUnique(PadTo(f, k), StripZeros(f));
  }

  /** Scaling the exact value by a power of ten appends zeros to its digits. */
  lemma UnitsScaled(s: string, extra: nat)
    requires IsPlainDecimal(s)
    ensures var digits := Whole(s) + PadTo(Fraction(s), |Fraction(s)| + extra);
      && AllDigits(digits)
      && Units(s) * Pow10(extra) == Signed(IsNegative(s), Number(digits))
  {
    var base := Whole(s) + Fraction(s);
    NumberAppend(base, Zeros(extra));
    NumberZeros(extra);
    assert Whole(s) + PadTo(Fraction(s), |Fraction(s)| + extra) == base + Zeros(extra);
    SignedScales(IsNegative(s), Number(base), Pow10(extra));
  }

  lemma SignedScales(negative: bool, n: int, k: int)
    ensures Signed(negative, n) * k == Signed(negative, n * k)
  {
  }

  /** Canonical forms agree exactly when the rationals do. */
  lemma CanonicalDecimalAgrees(a: string, b: string)
    requires IsDecimal(a) && IsDecimal(b)
    ensures CanonicalDecimal(a) == CanonicalDecimal(b) <==> SameRational(a, b)
  {
    CanonicalShape(a);
    CanonicalShape(b);
    var f, g := Fraction(a), Fraction(b);
    var negative, negative' := IsNegative(a) && !IsZeroText(a), IsNegative(b) && !IsZeroText(b);
    RenderParts(negative, Whole(a), StripZeros(f));
    RenderParts(negative', Whole(b), StripZeros(g));
    assert CanonicalDecimal(a) == CanonicalDecimal(b) <==>
        negative == negative' && Whole(a) == Whole(b) && StripZeros(f) == StripZeros(g);
    RationalsAgree(a, b);
  }

  /** Equal rationals have equal signs (a zero has none), whole parts and significant fractions. */
  lemma RationalsAgree(a: string, b: string)
    requires IsDecimal(a) && IsDecimal(b)
    ensures SameRational(a, b) <==>
      && (IsNegative(a) && !IsZeroText(a)) == (IsNegative(b) && !IsZeroText(b))
      && Whole(a) == Whole(b) && StripZeros(Fraction(a)) == StripZeros(Fraction(b))
  {
    var f, g := Fraction(a), Fraction(b);
    var k := |f| + |g|;
    UnitsScaled(a, |g|);
    UnitsScaled(b, |f|);
    PadIgnoresStrippedZeros(f, k);
    PadIgnoresStrippedZeros(g, k);
    assert StripZeros(f) == StripZeros(g) <==> PadTo(f, k) == PadTo(g, k);
    DigitsAgree(Whole(a), PadTo(f, k), Whole(b), PadTo(g, k));
    ZeroText(a, k);
    ZeroText(b, k);
  }

  /** The digits of a zero are zeros. */
  lemma ZeroDigits(s: string, k: nat)
    requires IsDecimal(s) && |Fraction(s)| <= k && IsZeroText(s)
    ensures Whole(s) + PadTo(Fraction(s), k) == Zeros(k + 1)
  {
    PadIgnoresStrippedZeros(Fraction(s), k);
    assert PadTo(Fraction(s), k) == Zeros(k);
  }

  /** Any other decimal has a digit that is not zero. */
  lemma NonZeroDigit(s: string, k: nat) returns (i: nat)
    requires IsDecimal(s) && |Fraction(s)| <= k && !IsZeroText(s)
    ensures var digits := Whole(s) + PadTo(Fraction(s), k); i < |digits| && digits[i] != '0'
  {
    var w, p := Whole(s), PadTo(Fraction(s), k);
    i := 0;
    if w == "0" {
      var t := StripZeros(Fraction(s));
      PadIgnoresStrippedZeros(Fraction(s), k);
      StripZerosStrips(Fraction(s));
      i := |t|;
      assert (w + p)[|t|] == t[|t| - 1];
    }
  }

  lemma ZeroText(s: string, k: nat)
    requires IsDecimal(s) && |Fraction(s)| <= k
    ensures Number(Whole(s) + PadTo(Fraction(s), k)) == 0 <==> IsZeroText(s)
  {
    NumberIsZero(Whole(s) + PadTo(Fraction(s), k));
    if IsZeroText(s) { ZeroDigits(s, k); } else { var i := NonZeroDigit(s, k); }
  }

  /** Digits without leading zeros, and equally long fractions, are determined by the number they denote. */
  lemma DigitsAgree(w: string, x: string, v: string, y: string)
    requires AllDigits(w) && AllDigits(x) && AllDigits(v) && AllDigits(y) && |x| == |y|
    requires w != "" && (w == "0" || w[0] != '0') && v != "" && (v == "0" || v[0] != '0')
    ensures AllDigits(w + x) && AllDigits(v + y)
    ensures Number(w + x) == Number(v + y) <==> w == v && x == y
  {
    NumberAppend(w, x);
    NumberAppend(v, y);
    if Number(w + x) == Number(v + y) {
      NumberBound(x);
      NumberBound(y);
      RemainderIs(Number(w + x), Number(w), Pow10(|x|), Number(x));
      RemainderIs(Number(w + x), Number(v), Pow10(|x|), Number(y));
      LexIsNumeric(x, y);
      LongerIsLarger(w, v);
      LongerIsLarger(v, w);
      LexIsNumeric(w, v) by { assert |w| == |v|; }
    }
  }

  lemma LongerIsLarger(w: string, v: string)
    requires AllDigits(w) && AllDigits(v) && w != "" && v != "" && (w == "0" || w[0] != '0')
    ensures |v| < |w| ==> Number(v) < Number(w)
  {
    if |v| < |w| {
      NumberBound(v);
      Pow10Grows(|v|, |w| - 1);
      MulAtLeast(DigitValue(w[0]), Pow10(|w| - 1));
    }
  }

  lemma {:induction false} Pow10Grows(m: nat, n: nat)
    requires m <= n
    ensures Pow10(m) <= Pow10(n)
  {
    if m < n { Pow10Grows(m, n - 1); }
  }
}
