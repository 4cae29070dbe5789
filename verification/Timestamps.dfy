/** Dates and UTC timestamps as the dataset layer validates, normalises and compares them (RFC 3339). */
module Timestamps {
  import opened Arithmetic
  import opened Common
  import opened Digits

  predicate IsLeap(year: nat) { year % 4 == 0 && (year % 100 != 0 || year % 400 == 0) }

  function DaysInMonth(year: nat, month: nat): nat {
    if month == 2 then (if IsLeap(year) then 29 else 28)
    else if month in {4, 6, 9, 11} then 30 else 31
  }

  predicate DigitsAt(s: string, from: nat, to: nat) { from <= to <= |s| && AllDigits(s[from..to]) }

  function FieldAt(s: string, from: nat, to: nat): nat
    requires DigitsAt(s, from, to)
  {
    Number(s[from..to])
  }

  /** YYYY-MM-DD, a day of the calendar. */
  predicate IsDate(s: string) {
    && |s| == 10
    && DigitsAt(s, 0, 4) && s[4] == '-' && DigitsAt(s, 5, 7) && s[7] == '-' && DigitsAt(s, 8, 10)
    && 1 <= FieldAt(s, 5, 7) <= 12
    && 1 <= FieldAt(s, 8, 10) <= DaysInMonth(FieldAt(s, 0, 4), FieldAt(s, 5, 7))
  }

  predicate TwoDigitsBelow(s: string, bound: nat) { |s| == 2 && AllDigits(s) && Number(s) < bound }

  /** A UTC timestamp; the seconds, and a fraction of at most nine digits after them, are optional. */
  datatype Stamp = Stamp(date: string, hour: string, minute: string, seconds: Option<string>, fraction: string) {
    predicate Valid() {
      && IsDate(date) && TwoDigitsBelow(hour, 24) && TwoDigitsBelow(minute, 60)
      && (seconds.Some? ==> TwoDigitsBelow(seconds.value, 60))
      && (seconds.None? ==> fraction == "")
      && AllDigits(fraction) && |fraction| <= 9
    }

    function Minute(): string { date + ("T" + (hour + (":" + minute))) }

    /** The text without its fraction and "Z". */
    function Stem(): string { Minute() + if seconds.None? then "" else ":" + seconds.value }

    function Text(): string { Stem() + (if fraction == "" then "" else "." + fraction) + "Z" }
  }

  /** The parts of a text, read at the places a timestamp has them. */
  function StampOf(s: string): Stamp
    requires |s| >= 17
  {
    var rest := s[16..];
    if rest == "Z" || |rest| < 4 then Stamp(s[..10], s[11..13], s[14..16], None, "")
    else Stamp(s[..10], s[11..13], s[14..16], Some(rest[1..3]), if |rest| < 6 then "" else rest[4..|rest| - 1])
  }

  /** A text that reads as a valid stamp and is its text. */
  predicate IsTimestamp(s: string) { |s| >= 17 && StampOf(s).Valid() && StampOf(s).Text() == s }

  /** What follows the minute. */
  function Tail(t: Stamp): string {
    (if t.seconds.None? then "" else ":" + t.seconds.value) + (if t.fraction == "" then "" else "." + t.fraction) + "Z"
  }

  /** A tail reads back as the seconds and the fraction it was made of. */
  predicate ReadsAs(tail: string, t: Stamp) {
    if t.seconds.None? then tail == "Z" && t.fraction == ""
    else
      && |tail| >= 4 && tail[1..3] == t.seconds.value
      && t.fraction == (if |tail| < 6 then "" else tail[4..|tail| - 1])
  }

  lemma TailReads(t: Stamp)
    requires t.Valid()
    ensures ReadsAs(Tail(t), t)
  {
  }

  lemma PartsRead(s: string, minute: string, tail: string, t: Stamp)
    requires s == minute + tail && |minute| == 16 && ReadsAs(tail, t)
    requires minute[..10] == t.date && minute[11..13] == t.hour && minute[14..] == t.minute
    ensures |s| >= 17 && StampOf(s) == t
  {
    assert s[16..] == tail && s[..10] == minute[..10] && s[11..13] == minute[11..13] && s[14..16] == minute[14..];
  }

  lemma Regroup(a: string, b: string, c: string, d: string)
    ensures ((a + b) + c) + d == a + ((b + c) + d)
  {
  }

  lemma TextIsMinuteAndTail(t: Stamp)
    ensures t.Text() == t.Minute() + Tail(t)
  {
    Regroup(t.Minute(), if t.seconds.None? then "" else ":" + t.seconds.value,
            if t.fraction == "" then "" else "." + t.fraction, "Z");
  }

  /** The timestamps are exactly the texts of valid stamps. */
  lemma StampReadsBack(t: Stamp)
    requires t.Valid()
    ensures IsTimestamp(t.Text()) && StampOf(t.Text()) == t
  {
    MinuteParts(t);
    TailReads(t);
    TextIsMinuteAndTail(t);
    PartsRead(t.Text(), t.Minute(), Tail(t), t);
  }

  function TrailingDigits(s: string): (n: nat)
    ensures n <= |s|
  {
    if s != "" && IsDigit(s[|s| - 1]) then 1 + TrailingDigits(s[..|s| - 1]) else 0
  }

  function PadEnd(s: string, length: nat): string {
    if |s| >= length then s else s + Zeros(length - |s|)
  }

  /** The instant's canonical text: a trailing "[.digits]Z" becomes nine fraction digits. */
  function TimeKey(value: string): string {
    if value == "" || value[|value| - 1] != 'Z' then value
    else
      var t := value[..|value| - 1];
      var n := TrailingDigits(t);
      if 0 < n < |t| && t[|t| - n - 1] == '.' then t[..|t| - n - 1] + "." + PadEnd(t[|t| - n..], 9) + "Z"
      else t + "." + Zeros(9) + "Z"
  }

  // ---- The instant a timestamp denotes ----

  function LeapDaysBefore(year: nat): nat {
    (year + 3) / 4 - (year + 99) / 100 + (year + 399) / 400
  }

  function DaysBeforeMonth(year: nat, month: nat): nat
    requires 1 <= month <= 12
  {
    if month == 1 then 0 else DaysBeforeMonth(year, month - 1) + DaysInMonth(year, month - 1)
  }

  /** The number of a date of the proleptic Gregorian calendar. */
  function DayNumber(year: nat, month: nat, day: nat): int
    requires 1 <= month <= 12
  {
    365 * year + LeapDaysBefore(year) + DaysBeforeMonth(year, month) + day
  }

  function Day(date: string): int
    requires IsDate(date)
  {
    DayNumber(FieldAt(date, 0, 4), FieldAt(date, 5, 7), FieldAt(date, 8, 10))
  }

  function MinuteOfEpoch(s: Stamp): int
    requires s.Valid()
  {
    (Day(s.date) * 24 + Number(s.hour)) * 60 + Number(s.minute)
  }

  function Nanos(s: Stamp): (n: nat)
    requires s.Valid()
    ensures n < 60_000_000_000
  {
    NumberBound(PadEnd(s.fraction, 9));
    assert Pow10(9) == 1_000_000_000;
    if s.seconds.None? then 0 else Number(s.seconds.value) * 1_000_000_000 + Number(PadEnd(s.fraction, 9))
  }

  /** Nanoseconds since the first day of the proleptic Gregorian calendar. */
  function Instant(s: Stamp): int
    requires s.Valid()
  {
    MinuteOfEpoch(s) * 60_000_000_000 + Nanos(s)
  }

  // ---- Calendar order ----

  lemma {:induction false} MonthsOrder(year: nat, m: nat, n: nat)
    requires 1 <= m < n <= 12
    ensures DaysBeforeMonth(year, m) + DaysInMonth(year, m) <= DaysBeforeMonth(year, n)
  {
    if n - 1 > m { MonthsOrder(year, m, n - 1); }
  }

  lemma YearLength(year: nat)
    ensures DaysBeforeMonth(year, 12) + DaysInMonth(year, 12) == if IsLeap(year) then 366 else 365
  {
    assert DaysBeforeMonth(year, 2) == 31;
    assert DaysBeforeMonth(year, 3) == 31 + DaysInMonth(year, 2);
    assert DaysBeforeMonth(year, 5) == DaysBeforeMonth(year, 3) + 61;
    assert DaysBeforeMonth(year, 7) == DaysBeforeMonth(year, 5) + 61;
    assert DaysBeforeMonth(year, 9) == DaysBeforeMonth(year, 7) + 62;
    assert DaysBeforeMonth(year, 11) == DaysBeforeMonth(year, 9) + 61;
  }

  lemma LeapStep(year: nat)
    ensures LeapDaysBefore(year + 1) == LeapDaysBefore(year) + if IsLeap(year) then 1 else 0
  {
    CeilingStep(year, 4);
    CeilingStep(year, 100);
    CeilingStep(year, 400);
    if year % 100 == 0 { RemainderIs(year, 25 * (year / 100), 4, 0); }
    if year % 400 == 0 { RemainderIs(year, 4 * (year / 400), 100, 0); }
  }

  lemma CeilingStep(n: nat, k: nat)
    requires k > 0
    ensures (n + k) / k == (n + k - 1) / k + if n % k == 0 then 1 else 0
  {
    var q, r := n / k, n % k;
    Distribute(q, 1, k);
    RemainderIs(n + k, q + 1, k, r);
    if r == 0 {
      RemainderIs(n + k - 1, q, k, k - 1);
    } else {
      RemainderIs(n + k - 1, q + 1, k, r - 1);
    }
  }

  lemma {:induction false} LeapDaysGrow(y: nat, z: nat)
    requires y <= z
    ensures LeapDaysBefore(y) <= LeapDaysBefore(z)
  {
    if y < z {
      LeapDaysGrow(y, z - 1);
      LeapStep(z - 1);
    }
  }

  lemma DayBoundsInYear(y: nat, m: nat, d: nat)
    requires 1 <= m <= 12 && 1 <= d <= DaysInMonth(y, m)
    ensures 1 <= DaysBeforeMonth(y, m) + d <= if IsLeap(y) then 366 else 365
  {
    YearLength(y);
    if m < 12 { MonthsOrder(y, m, 12); }
  }

  lemma DayOrder(a: string, b: string)
    requires IsDate(a) && IsDate(b)
    ensures LexLess(a, b) <==> Day(a) < Day(b)
    ensures a == b <==> Day(a) == Day(b)
  {
    LexTotal(a, b);
    if LexLess(a, b) { DayGrows(a, b); }
    if LexLess(b, a) { DayGrows(b, a); }
  }

  lemma DayGrows(a: string, b: string)
    requires IsDate(a) && IsDate(b) && LexLess(a, b)
    ensures Day(a) < Day(b)
  {
    var y, m, d := FieldAt(a, 0, 4), FieldAt(a, 5, 7), FieldAt(a, 8, 10);
    var y', m', d' := FieldAt(b, 0, 4), FieldAt(b, 5, 7), FieldAt(b, 8, 10);
    DateFieldsOrder(a, b);
    DayBoundsInYear(y, m, d);
    DayBoundsInYear(y', m', d');
    if y < y' {
      LeapStep(y);
      LeapDaysGrow(y + 1, y');
    } else if m < m' {
      MonthsOrder(y, m, m');
    }
  }

  /** Equally long heads decide the order unless they agree. */
  lemma LexByHead(p: string, q: string, a: string, b: string)
    requires |p| == |q|
    ensures LexLess(p + a, q + b) <==> LexLess(p, q) || (p == q && LexLess(a, b))
  {
    LexTotal(p, p);
    if p == q { LexSharedPrefix(p, a, b); } else { LexHeadDecides(p, q, a, b); }
  }

  lemma DateFieldsOrder(a: string, b: string)
    requires IsDate(a) && IsDate(b) && LexLess(a, b)
    ensures var y, m, d := FieldAt(a, 0, 4), FieldAt(a, 5, 7), FieldAt(a, 8, 10);
      var y', m', d' := FieldAt(b, 0, 4), FieldAt(b, 5, 7), FieldAt(b, 8, 10);
      y < y' || (y == y' && (m < m' || (m == m' && d < d')))
  {
    assert a == a[0..4] + ("-" + (a[5..7] + ("-" + a[8..10])));
    assert b == b[0..4] + ("-" + (b[5..7] + ("-" + b[8..10])));
    LexByHead(a[0..4], b[0..4], "-" + (a[5..7] + ("-" + a[8..10])), "-" + (b[5..7] + ("-" + b[8..10])));
    LexSharedPrefix("-", a[5..7] + ("-" + a[8..10]), b[5..7] + ("-" + b[8..10]));
    LexByHead(a[5..7], b[5..7], "-" + a[8..10], "-" + b[8..10]);
    LexSharedPrefix("-", a[8..10], b[8..10]);
    LexIsNumeric(a[0..4], b[0..4]);
    LexIsNumeric(a[5..7], b[5..7]);
    LexIsNumeric(a[8..10], b[8..10]);
  }

  /** Days, hours and minutes compare as the minutes they make. */
  lemma MinutesCompare(d: int, h: int, m: int, e: int, i: int, n: int)
    requires 0 <= h < 24 && 0 <= i < 24 && 0 <= m < 60 && 0 <= n < 60
    ensures (d * 24 + h) * 60 + m < (e * 24 + i) * 60 + n <==> d < e || (d == e && (h < i || (h == i && m < n)))
    ensures (d * 24 + h) * 60 + m == (e * 24 + i) * 60 + n <==> d == e && h == i && m == n
  {
  }

  /** The texts of two minutes compare by date, then hour, then minute. */
  lemma MinuteTextOrder(a: Stamp, b: Stamp)
    requires a.Valid() && b.Valid()
    ensures LexLess(a.Minute(), b.Minute()) <==>
      LexLess(a.date, b.date) || (a.date == b.date && (LexLess(a.hour, b.hour) || (a.hour == b.hour && LexLess(a.minute, b.minute))))
  {
    LexByHead(a.date, b.date, "T" + (a.hour + (":" + a.minute)), "T" + (b.hour + (":" + b.minute)));
    LexSharedPrefix("T", a.hour + (":" + a.minute), b.hour + (":" + b.minute));
    LexByHead(a.hour, b.hour, ":" + a.minute, ":" + b.minute);
    LexSharedPrefix(":", a.minute, b.minute);
  }

  lemma MinuteTextsEqual(a: Stamp, b: Stamp)
    requires a.Valid() && b.Valid()
    ensures a.Minute() == b.Minute() <==> a.date == b.date && a.hour == b.hour && a.minute == b.minute
    ensures |a.Minute()| == 16
  {
    MinuteParts(a);
    MinuteParts(b);
  }

  lemma MinuteOrder(a: Stamp, b: Stamp)
    requires a.Valid() && b.Valid()
    ensures LexLess(a.Minute(), b.Minute()) <==> MinuteOfEpoch(a) < MinuteOfEpoch(b)
    ensures a.Minute() == b.Minute() <==> MinuteOfEpoch(a) == MinuteOfEpoch(b)
    ensures |a.Minute()| == 16
  {
    MinuteTextOrder(a, b);
    MinuteTextsEqual(a, b);
    DayOrder(a.date, b.date);
    LexIsNumeric(a.hour, b.hour);
    LexIsNumeric(a.minute, b.minute);
    MinutesCompare(Day(a.date), Number(a.hour), Number(a.minute), Day(b.date), Number(b.hour), Number(b.minute));
  }

  lemma MinuteParts(s: Stamp)
    requires s.Valid()
    ensures var t := s.Minute(); |t| == 16 && t[..10] == s.date && t[11..13] == s.hour && t[14..] == s.minute
  {
  }

  // ---- The key ----

  lemma {:induction false} TrailingDigitsOf(head: string, digits: string)
    requires AllDigits(digits) && head != "" && !IsDigit(head[|head| - 1])
    ensures TrailingDigits(head + digits) == |digits|
  {
    if digits == "" {
      assert head + digits == head;
    } else {
      var k := |digits| - 1;
      assert (head + digits)[..|head| + k] == head + digits[..k];
      TrailingDigitsOf(head, digits[..k]);
    }
  }

  function SecondsKey(s: Stamp): string {
    (if s.seconds.None? then "" else ":" + s.seconds.value) + "." + PadEnd(s.fraction, 9) + "Z"
  }

  lemma KeyWithFraction(stem: string, f: string)
    requires stem != "" && f != "" && AllDigits(f)
    ensures TimeKey(stem + ("." + f) + "Z") == stem + "." + PadEnd(f, 9) + "Z"
  {
    var value := stem + ("." + f) + "Z";
    var t := stem + "." + f;
    assert value[..|value| - 1] == t;
    TrailingDigitsOf(stem + ".", f);
    assert t[|t| - |f|..] == f && t[..|t| - |f| - 1] == stem;
  }

  lemma KeyWithoutFraction(head: string, last: string)
    requires head != "" && head[|head| - 1] == ':' && |last| == 2 && AllDigits(last)
    ensures TimeKey(head + last + "Z") == head + last + "." + Zeros(9) + "Z"
  {
    var t := head + last;
    var value := t + "Z";
    assert value[..|value| - 1] == t;
    TrailingDigitsOf(head, last);
    assert t[|t| - 3] == ':';
  }

  lemma KeyShape(s: Stamp)
    requires s.Valid()
    ensures TimeKey(s.Text()) == s.Minute() + SecondsKey(s)
  {
    if s.fraction != "" {
      KeyWithFraction(s.Stem(), s.fraction);
    } else {
      StemKey(s);
    }
    StemAndSeconds(s);
  }

  lemma StemKey(s: Stamp)
    requires s.Valid() && s.fraction == ""
    ensures TimeKey(s.Text()) == s.Stem() + "." + PadEnd(s.fraction, 9) + "Z"
  {
    var last := if s.seconds.None? then s.minute else s.seconds.value;
    var head := (if s.seconds.None? then s.date + ("T" + s.hour) else s.Minute()) + ":";
    assert s.Stem() == head + last;
    KeyWithoutFraction(head, last);
    assert s.Text() == head + last + "Z";
    assert PadEnd(s.fraction, 9) == Zeros(9);
  }

  lemma StemAndSeconds(s: Stamp)
    ensures s.Stem() + "." + PadEnd(s.fraction, 9) + "Z" == s.Minute() + SecondsKey(s)
  {
  }

  lemma SecondsTextOrder(x: string, y: string, f: string, g: string)
    requires |x| == |y| && |f| == |g|
    ensures LexLess(":" + (x + ("." + (f + "Z"))), ":" + (y + ("." + (g + "Z"))))
      <==> LexLess(x, y) || (x == y && LexLess(f, g))
  {
    LexSharedPrefix(":", x + ("." + (f + "Z")), y + ("." + (g + "Z")));
    LexByHead(x, y, "." + (f + "Z"), "." + (g + "Z"));
    LexSharedPrefix(".", f + "Z", g + "Z");
    LexByHead(f, g, "Z", "Z");
    LexTotal("Z", "Z");
  }

  lemma SecondsTextsEqual(x: string, y: string, f: string, g: string)
    requires |x| == |y| == 2 && |f| == |g| == 9
    ensures ":" + (x + ("." + (f + "Z"))) == ":" + (y + ("." + (g + "Z"))) <==> x == y && f == g
  {
    var k, l := ":" + (x + ("." + (f + "Z"))), ":" + (y + ("." + (g + "Z")));
    assert k[1..3] == x && l[1..3] == y && k[4..13] == f && l[4..13] == g;
  }

  /** Two keys of stamps with seconds, compared within their minute. */
  lemma BothWithSeconds(x: string, y: string, f: string, g: string)
    requires |x| == |y| == 2 && |f| == |g| == 9 && AllDigits(x) && AllDigits(y) && AllDigits(f) && AllDigits(g)
    ensures var k, l := ":" + x + "." + f + "Z", ":" + y + "." + g + "Z";
      && (LexLess(k, l) <==> Number(x) < Number(y) || (Number(x) == Number(y) && Number(f) < Number(g)))
      && (k == l <==> Number(x) == Number(y) && Number(f) == Number(g))
  {
    assert ":" + x + "." + f + "Z" == ":" + (x + ("." + (f + "Z")));
    assert ":" + y + "." + g + "Z" == ":" + (y + ("." + (g + "Z")));
    SecondsTextOrder(x, y, f, g);
    SecondsTextsEqual(x, y, f, g);
    LexIsNumeric(x, y);
    LexIsNumeric(f, g);
  }

  /** Within one minute, keys are ordered by nanosecond, and a stamp without seconds before every one with them. */
  lemma SecondsOrder(a: Stamp, b: Stamp)
    requires a.Valid() && b.Valid()
    ensures LexLess(SecondsKey(a), SecondsKey(b)) <==>
      Nanos(a) < Nanos(b) || (Nanos(a) == Nanos(b) && a.seconds.None? && b.seconds.Some?)
    ensures SecondsKey(a) == SecondsKey(b) <==> Nanos(a) == Nanos(b) && a.seconds.None? == b.seconds.None?
  {
    var f, g := PadEnd(a.fraction, 9), PadEnd(b.fraction, 9);
    if a.seconds.Some? && b.seconds.Some? {
      BothWithSeconds(a.seconds.value, b.seconds.value, f, g);
      NumberBound(f);
      NumberBound(g);
      assert Pow10(9) == 1_000_000_000;
    } else if a.seconds.None? && b.seconds.None? {
      LexTotal(SecondsKey(a), SecondsKey(b));
    } else {
      assert SecondsKey(a)[0] != SecondsKey(b)[0];
    }
  }

  /**
   * The string order on keys is chronological, except that among equal instants one written without seconds comes
   * first; two keys are equal exactly when the instants are and both or neither carry seconds.
   */
  lemma TimeKeyOrder(a: Stamp, b: Stamp)
    requires a.Valid() && b.Valid()
    ensures LexLess(TimeKey(a.Text()), TimeKey(b.Text())) <==>
      Instant(a) < Instant(b) || (Instant(a) == Instant(b) && a.seconds.None? && b.seconds.Some?)
    ensures TimeKey(a.Text()) == TimeKey(b.Text()) <==> Instant(a) == Instant(b) && a.seconds.None? == b.seconds.None?
  {
    KeyShape(a);
    KeyShape(b);
    MinuteOrder(a, b);
    MinuteOrder(b, a);
    LexByHead(a.Minute(), b.Minute(), SecondsKey(a), SecondsKey(b));
    SecondsOrder(a, b);
    assert TimeKey(a.Text())[..16] == a.Minute() && TimeKey(b.Text())[..16] == b.Minute();
    assert TimeKey(a.Text())[16..] == SecondsKey(a) && TimeKey(b.Text())[16..] == SecondsKey(b);
  }

  lemma TimeKeysAgree(a: string, b: string, s: Stamp, t: Stamp)
    requires s.Valid() && t.Valid() && s.Text() == a && t.Text() == b
    ensures TimeKey(a) == TimeKey(b) <==> SameStamp(s, t)
  {
    TimeKeyOrder(s, t);
  }

  /** The same instant, both or neither written with seconds. */
  predicate SameStamp(s: Stamp, t: Stamp)
    requires s.Valid() && t.Valid()
  {
    Instant(s) == Instant(t) && s.seconds.None? == t.seconds.None?
  }

  lemma TimestampKeysAgree(a: string, b: string)
    requires IsTimestamp(a) && IsTimestamp(b)
    ensures TimeKey(a) == TimeKey(b) <==> SameStamp(StampOf(a), StampOf(b))
  {
    TimeKeysAgree(a, b, StampOf(a), StampOf(b));
  }

  /** Without seconds the claim fails: one instant, two keys. */
  lemma OneInstantTwoKeys()
    ensures var a := Stamp("2024-01-01", "00", "00", None, ""); var b := Stamp("2024-01-01", "00", "00", Some("00"), "");
      a.Valid() && b.Valid() && Instant(a) == Instant(b) && TimeKey(a.Text()) != TimeKey(b.Text())
  {
    var a := Stamp("2024-01-01", "00", "00", None, "");
    var b := Stamp("2024-01-01", "00", "00", Some("00"), "");
    NewYearIsADate();
    ZeroSeconds(b);
    TimeKeyOrder(a, b);
  }

  lemma ZeroSeconds(s: Stamp)
    requires s.Valid() && s.seconds == Some("00") && s.fraction == "" && Number("00") == 0
    ensures Nanos(s) == 0
  {
    NumberZeros(9);
    assert PadEnd(s.fraction, 9) == Zeros(9);
  }

  lemma NewYearIsADate()
    ensures IsDate("2024-01-01") && Number("00") == 0
  {
    var s := "2024-01-01";
    assert s[0..4] == "2024";
    PairAt(s, 5, '0', '1');
    PairAt(s, 8, '0', '1');
    TwoDigitNumber("00");
    TwoDigitNumber("01");
  }

  lemma PairAt(s: string, i: nat, a: char, b: char)
    requires i + 2 <= |s| && s[i] == a && s[i + 1] == b
    ensures s[i..i + 2] == [a, b]
  {
  }

  lemma TwoDigitNumber(s: string)
    requires |s| == 2 && AllDigits(s)
    ensures Number(s) == 10 * DigitValue(s[0]) + DigitValue(s[1])
  {
    var t := s[1..];
    assert t == [s[1]] && t[1..] == "";
    assert Pow10(1) == 10 * Pow10(0);
    assert Number(t) == DigitValue(s[1]) * Pow10(0) + Number("");
    assert Number(s) == DigitValue(s[0]) * Pow10(1) + Number(t);
  }
}
