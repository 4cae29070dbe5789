/** Digit strings and the numbers they denote. */
module Digits {
  import opened Arithmetic
  import opened Common

  predicate IsDigit(c: char) { '0' <= c <= '9' }

  predicate AllDigits(s: string) { forall i :: 0 <= i < |s| ==> IsDigit(s[i]) }

  function DigitValue(c: char): (d: nat)
    requires IsDigit(c)
    ensures d <= 9
  {
    (c - '0') as nat
  }

  /** The number a digit string denotes. */
  function Number(s: string): nat
    requires AllDigits(s)
  {
    if s == [] then 0 else DigitValue(s[0]) * Pow10(|s| - 1) + Number(s[1..])
  }

  function Zeros(n: nat): (s: string)
    ensures |s| == n && AllDigits(s)
    ensures forall i :: 0 <= i < n ==> s[i] == '0'
  {
    if n == 0 then "" else "0" + Zeros(n - 1)
  }

  lemma {:induction false} NumberBound(s: string)
    requires AllDigits(s)
    ensures Number(s) < Pow10(|s|)
  {
    if s != [] {
      NumberBound(s[1..]);
      MulOrder(DigitValue(s[0]), 9, Pow10(|s| - 1));
    }
  }

  lemma LeadingDigitShift(d: nat, p: nat, n: nat, q: nat)
    ensures d * (p * q) + n * q == (d * p + n) * q
  {
    Distribute(d * p, n, q);
    Associate(d, p, q);
  }

  /** A larger leading digit outweighs any tail. */
  lemma LeadingDigitDecides(x: nat, y: nat, p: nat, m: nat, n: nat)
    requires x < y && m < p
    ensures x * p + m < y * p + n
  {
    MulOrder(x, y, p);
  }

  lemma {:induction false} NumberAppend(a: string, b: string)
    requires AllDigits(a) && AllDigits(b)
    ensures AllDigits(a + b)
    ensures Number(a + b) == Number(a) * Pow10(|b|) + Number(b)
  {
    if a == [] {
      assert a + b == b;
    } else {
      NumberAppend(a[1..], b);
      assert (a + b)[1..] == a[1..] + b;
      Pow10Add(|a| - 1, |b|);
      LeadingDigitShift(DigitValue(a[0]), Pow10(|a| - 1), Number(a[1..]), Pow10(|b|));
    }
  }

  lemma {:induction false} NumberZeros(n: nat)
    ensures Number(Zeros(n)) == 0
  {
    if n > 0 {
      NumberZeros(n - 1);
      assert Zeros(n)[1..] == Zeros(n - 1);
    }
  }

  /** On equally long digit strings, string order is numeric order. */
  lemma {:induction false} LexIsNumeric(a: string, b: string)
    requires AllDigits(a) && AllDigits(b) && |a| == |b|
    ensures LexLess(a, b) <==> Number(a) < Number(b)
    ensures Number(a) == Number(b) <==> a == b
  {
    if a != [] {
      LexIsNumeric(a[1..], b[1..]);
      NumberBound(a[1..]);
      NumberBound(b[1..]);
      assert a == [a[0]] + a[1..] && b == [b[0]] + b[1..];
      var x, y := DigitValue(a[0]), DigitValue(b[0]);
      if x < y {
        LeadingDigitDecides(x, y, Pow10(|a| - 1), Number(a[1..]), Number(b[1..]));
      } else if y < x {
        LeadingDigitDecides(y, x, Pow10(|a| - 1), Number(b[1..]), Number(a[1..]));
      }
    }
  }

  lemma {:induction false} NumberIsZero(s: string)
    requires AllDigits(s)
    ensures Number(s) == 0 <==> forall i :: 0 <= i < |s| ==> s[i] == '0'
  {
    if s != [] {
      NumberIsZero(s[1..]);
      var p := Pow10(|s| - 1);
      if s[0] == '0' {
        assert forall i :: 0 < i < |s| ==> s[i] == s[1..][i - 1];
        assert (forall i :: 0 <= i < |s[1..]| ==> s[1..][i] == '0') ==> forall i :: 0 <= i < |s| ==> s[i] == '0';
      } else {
        MulAtLeast(DigitValue(s[0]), p);
      }
    }
  }

  // ---- Decimal strings: an optional minus, digits, and optionally a point and digits ----

  function Signed(negative: bool, magnitude: int): int {
    if negative then -magnitude else magnitude
  }

  predicate IsNegative(s: string) { s != [] && s[0] == '-' }

  function Unsigned(s: string): string {
    if IsNegative(s) then s[1..] else s
  }

  /** Index of the first point, or the length without one. */
  function PointAt(s: string): (p: nat)
    ensures p <= |s| && '.' !in s[..p] && (p < |s| ==> s[p] == '.')
  {
    if s == [] || s[0] == '.' then 0
    else
      var p := 1 + PointAt(s[1..]);
      assert s[..p] == [s[0]] + s[1..][..p - 1];
      p
  }

  function Whole(s: string): string {
    var u := Unsigned(s);
    u[..PointAt(u)]
  }

  function Fraction(s: string): string {
    var u := Unsigned(s);
    if PointAt(u) == |u| then "" else u[PointAt(u) + 1..]
  }

  /** An optional minus, digits, and optionally a point followed by digits. */
  predicate IsPlainDecimal(s: string) {
    var u := Unsigned(s);
    && Whole(s) != "" && AllDigits(Whole(s))
    && AllDigits(Fraction(s))
    && (PointAt(u) < |u| ==> Fraction(s) != "")
  }
}
