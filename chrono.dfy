/** The part of chrono's `NaiveDateTime` the organizer relies on: a proleptic Gregorian
    date and time of day, and the `%Y`, `%m`, `%d`, `%H`, `%M`, `%S` format specifiers,
    each with a parser that inverts it. */
module Chrono {
  import opened Wrappers

  predicate IsLeapYear(y: int)
  {
    y % 4 == 0 && (y % 100 != 0 || y % 400 == 0)
  }

  function DaysInMonth(y: int, m: int): (n: int)
    requires 1 <= m <= 12
    ensures 28 <= n <= 31
  {
    if m == 2 then (if IsLeapYear(y) then 29 else 28)
    else if m == 4 || m == 6 || m == 9 || m == 11 then 30
    else 31
  }

  predicate ValidDate(y: int, m: int, d: int)
  {
    1 <= m <= 12 && 1 <= d <= DaysInMonth(y, m)
  }

  /** The fields of a date and time, valid or not. */
  datatype Stamp = Stamp(year: int, month: int, day: int, hour: int, minute: int, second: int, nano: int)

  /** A valid date and time of day. As in chrono, a leap second is second 59 with a
      nanosecond count from 1_000_000_000 up to 1_999_999_999. */
  predicate ValidStamp(t: Stamp)
  {
    ValidDate(t.year, t.month, t.day) &&
    0 <= t.hour < 24 && 0 <= t.minute < 60 && 0 <= t.second < 60 &&
    0 <= t.nano < (if t.second == 59 then 2_000_000_000 else 1_000_000_000)
  }

  /** A chrono `NaiveDateTime`: a valid date, a time of day, no time zone. */
  type NaiveDateTime = t: Stamp | ValidStamp(t) witness Stamp(1970, 1, 1, 0, 0, 0, 0)

  /** The second `%S` prints: 60 during a leap second. */
  function ShownSecond(t: NaiveDateTime): (s: nat)
    ensures s <= 60 && (s == 60 <==> t.nano >= 1_000_000_000)
  {
    if t.nano >= 1_000_000_000 then 60 else t.second
  }

  /** A date-time cut to the whole second: the fraction goes, a leap second stays. */
  function WholeSecond(t: NaiveDateTime): NaiveDateTime
  {
    t.(nano := if t.nano >= 1_000_000_000 then 1_000_000_000 else 0)
  }

  // ---------------------------------------------------------------------------
  // Decimal digits

  predicate IsDigit(c: char) { '0' <= c <= '9' }

  predicate AllDigits(s: string)
  {
    forall i :: 0 <= i < |s| ==> IsDigit(s[i])
  }

  function Digit(d: nat): (c: char)
    requires d < 10
    ensures IsDigit(c) && c as int - '0' as int == d
  {
    ('0' as int + d) as char
  }

  function DigitValue(c: char): (d: nat)
    requires IsDigit(c)
    ensures d < 10 && Digit(d) == c
  {
    c as int - '0' as int
  }

  /** The number a string of decimal digits denotes (most significant digit first). */
  function DigitsValue(s: string): nat
    requires AllDigits(s)
  {
    if |s| == 0 then 0 else DigitsValue(s[..|s| - 1]) * 10 + DigitValue(s[|s| - 1])
  }

  function Pow10(k: nat): (r: nat)
    ensures r >= 1
  {
    if k == 0 then 1 else 10 * Pow10(k - 1)
  }

  lemma {:induction false} DigitsValueAppend(a: string, b: string)
    requires AllDigits(a) && AllDigits(b)
    ensures AllDigits(a + b)
    ensures DigitsValue(a + b) == DigitsValue(a) * Pow10(|b|) + DigitsValue(b)
  {
    if |b| == 0 {
      assert a + b == a;
    } else {
      var b' := b[..|b| - 1];
      var c := b[|b| - 1];
      assert a + b == (a + b') + [c];
      DigitsValueAppend(a, b');
      var x, p, u, d := DigitsValue(a), Pow10(|b'|), DigitsValue(b'), DigitValue(c);
      LastDigit(a + b', c);
      LastDigit(b', c);
      assert b' + [c] == b;
      assert Pow10(|b|) == 10 * p;
      calc {
        DigitsValue(a + b);
        DigitsValue(a + b') * 10 + d;
        (x * p + u) * 10 + d;
        { ShiftDigits(x, p, u); }
        x * (10 * p) + (u * 10 + d);
        x * Pow10(|b|) + DigitsValue(b);
      }
    }
  }

  lemma ShiftDigits(x: int, p: int, u: int)
    ensures (x * p + u) * 10 == x * (10 * p) + u * 10
  {
  }

  lemma LastDigit(s: string, c: char)
    requires AllDigits(s) && IsDigit(c)
    ensures AllDigits(s + [c])
    ensures DigitsValue(s + [c]) == DigitsValue(s) * 10 + DigitValue(c)
  {
    assert (s + [c])[..|s|] == s;
  }

  /** A number printed as at least two digits (`{:02}`), the shape of `%m`, `%d`, `%H`,
      `%M` and `%S`. */
  function Pad2(n: nat): (s: string)
    requires n < 100
    ensures |s| == 2 && AllDigits(s) && DigitsValue(s) == n
  {
    LastDigit([], Digit(n / 10));
    LastDigit([Digit(n / 10)], Digit(n % 10));
    [] + [Digit(n / 10)] + [Digit(n % 10)]
  }

  /** `{:04}`. */
  function Pad4(n: nat): (s: string)
    requires n < 10000
    ensures |s| == 4 && AllDigits(s) && DigitsValue(s) == n
  {
    DigitsValueAppend(Pad2(n / 100), Pad2(n % 100));
    Pad2(n / 100) + Pad2(n % 100)
  }

  /** The shortest decimal form of `n`. */
  function Decimal(n: nat): (s: string)
    ensures |s| >= 1 && AllDigits(s) && n < Pow10(|s|)
  {
    if n < 10 then [Digit(n)] else Decimal(n / 10) + [Digit(n % 10)]
  }

  lemma {:induction false} DecimalValue(n: nat)
    ensures DigitsValue(Decimal(n)) == n
  {
    if n >= 10 {
      DecimalValue(n / 10);
      var s := Decimal(n);
      assert s[..|s| - 1] == Decimal(n / 10);
    } else {
      assert Decimal(n)[..0] == [];
    }
  }

  /** Zero-padded to four digits, or the plain digits when there are more. */
  function ZeroPad4(n: nat): (s: string)
    ensures |s| >= 4 && AllDigits(s) && DigitsValue(s) == n
  {
    if n < 10000 then Pad4(n)
    else
      DecimalValue(n);
      Decimal(n)
  }

  /** `%Y`: four digits for the years 0 to 9999; any other year gets an explicit sign
      and at least four digits (`{:+05}`). */
  function YearString(y: int): string
  {
    if 0 <= y <= 9999 then ZeroPad4(y)
    else if y < 0 then "-" + ZeroPad4(-y)
    else "+" + ZeroPad4(y)
  }

  /** Reads back what `%Y` printed. */
  function ParseYear(s: string): Option<int>
  {
    if |s| == 4 && AllDigits(s) then Some(DigitsValue(s) as int)
    else if |s| >= 5 && (s[0] == '-' || s[0] == '+') && AllDigits(s[1..]) then
      Some(if s[0] == '-' then -(DigitsValue(s[1..]) as int) else DigitsValue(s[1..]))
    else None
  }

  /** `%Y` loses nothing: every year is read back from its printed form, and the printed
      form never starts with a letter. */
  lemma YearRoundTrip(y: int)
    ensures ParseYear(YearString(y)) == Some(y)
    ensures |YearString(y)| >= 4 && (IsDigit(YearString(y)[0]) || YearString(y)[0] in "+-")
  {
    if !(0 <= y <= 9999) {
      var n: nat := if y < 0 then -y else y;
      var s := YearString(y);
      assert s[1..] == ZeroPad4(n);
      assert Pow10(4) == 10000;
    }
  }

  // ---------------------------------------------------------------------------
  // Dates and times as text

  /** A separator followed by a two-digit field, such as `-%m` or `:%S`. */
  function Sep2(sep: char, n: nat): (s: string)
    requires n < 100
    ensures |s| == 3
  {
    [sep] + Pad2(n)
  }

  /** Reads back `Sep2(sep, n)`. */
  function ParseSep2(sep: char, s: string): Option<nat>
  {
    if |s| == 3 && s[0] == sep && AllDigits(s[1..]) then Some(DigitsValue(s[1..])) else None
  }

  lemma Sep2RoundTrip(sep: char, n: nat)
    requires n < 100
    ensures ParseSep2(sep, Sep2(sep, n)) == Some(n)
  {
    assert Sep2(sep, n)[1..] == Pad2(n);
  }

  /** `%Y-%m`. */
  function FormatYearMonth(y: int, m: int): string
    requires 1 <= m <= 12
  {
    YearString(y) + Sep2('-', m)
  }

  /** `%Y-%m-%d`. */
  function FormatDate(y: int, m: int, d: int): string
    requires ValidDate(y, m, d)
  {
    FormatYearMonth(y, m) + Sep2('-', d)
  }

  /** ` %H:%M:%S`; the second is 60 during a leap second. */
  function FormatClock(h: nat, m: nat, s: nat): (c: string)
    requires h < 24 && m < 60 && s <= 60
    ensures |c| == 9
  {
    Sep2(' ', h) + Sep2(':', m) + Sep2(':', s)
  }

  /** `%Y-%m-%d %H:%M:%S`: the fraction of a second is not printed. */
  function FormatDateTime(t: NaiveDateTime): string
  {
    FormatDate(t.year, t.month, t.day) + FormatClock(t.hour, t.minute, ShownSecond(t))
  }

  /** Reads back `%Y-%m`. */
  function ParseYearMonth(s: string): Option<(int, int)>
  {
    if |s| < 3 then None
    else
      match (ParseYear(s[..|s| - 3]), ParseSep2('-', s[|s| - 3..]))
      case (Some(y), Some(m)) => if 1 <= m <= 12 then Some((y, m as int)) else None
      case _ => None
  }

  /** Reads back `%Y-%m-%d`. */
  function ParseDate(s: string): Option<(int, int, int)>
  {
    if |s| < 3 then None
    else
      match (ParseYearMonth(s[..|s| - 3]), ParseSep2('-', s[|s| - 3..]))
      case (Some((y, m)), Some(d)) => if ValidDate(y, m, d) then Some((y, m, d as int)) else None
      case _ => None
  }

  /** Reads back ` %H:%M:%S`. */
  function ParseClock(c: string): Option<(nat, nat, nat)>
  {
    if |c| != 9 then None
    else
      match (ParseSep2(' ', c[..3]), ParseSep2(':', c[3..6]), ParseSep2(':', c[6..]))
      case (Some(h), Some(m), Some(s)) => Some((h, m, s))
      case _ => None
  }

  /** Reads back `%Y-%m-%d %H:%M:%S`, as a time on the whole second; second 60 is read
      as a leap second, as chrono's parser does. */
  function ParseDateTime(s: string): Option<NaiveDateTime>
  {
    if |s| < 9 then None
    else
      match (ParseDate(s[..|s| - 9]), ParseClock(s[|s| - 9..]))
      case (Some((y, m, d)), Some((hh, mm, ss))) =>
        var t := if ss == 60 then Stamp(y, m, d, hh, mm, 59, 1_000_000_000) else Stamp(y, m, d, hh, mm, ss, 0);
        if ValidStamp(t) then Some(t) else None
      case _ => None
  }

  lemma YearMonthRoundTrip(y: int, m: int)
    requires 1 <= m <= 12
    ensures ParseYearMonth(FormatYearMonth(y, m)) == Some((y, m))
  {
    YearRoundTrip(y);
    Sep2RoundTrip('-', m);
    var s := FormatYearMonth(y, m);
    assert s[..|s| - 3] == YearString(y);
    assert s[|s| - 3..] == Sep2('-', m);
  }

  lemma DateRoundTrip(y: int, m: int, d: int)
    requires ValidDate(y, m, d)
    ensures ParseDate(FormatDate(y, m, d)) == Some((y, m, d))
  {
    YearMonthRoundTrip(y, m);
    Sep2RoundTrip('-', d);
    var s := FormatDate(y, m, d);
    assert s[..|s| - 3] == FormatYearMonth(y, m);
    assert s[|s| - 3..] == Sep2('-', d);
  }

  lemma ClockRoundTrip(h: nat, m: nat, s: nat)
    requires h < 24 && m < 60 && s <= 60
    ensures ParseClock(FormatClock(h, m, s)) == Some((h, m, s))
  {
    Sep2RoundTrip(' ', h);
    Sep2RoundTrip(':', m);
    Sep2RoundTrip(':', s);
    var c := FormatClock(h, m, s);
    assert c[..3] == Sep2(' ', h);
    assert c[3..6] == Sep2(':', m);
    assert c[6..] == Sep2(':', s);
  }

  /** The printed date and the printed clock are read back apart. */
  lemma DateTimeParts(t: NaiveDateTime)
    ensures var s := FormatDateTime(t);
            && |s| >= 9
            && ParseDate(s[..|s| - 9]) == Some((t.year, t.month, t.day))
            && ParseClock(s[|s| - 9..]) == Some((t.hour, t.minute, ShownSecond(t)))
  {
    DateRoundTrip(t.year, t.month, t.day);
    ClockRoundTrip(t.hour, t.minute, ShownSecond(t));
    var s := FormatDateTime(t);
    assert s[..|s| - 9] == FormatDate(t.year, t.month, t.day);
    assert s[|s| - 9..] == FormatClock(t.hour, t.minute, ShownSecond(t));
  }

  /** Printing a date-time and reading it back gives the same date-time on the whole
      second: only the fraction of a second is lost, and a leap second is kept. */
  lemma DateTimeRoundTrip(t: NaiveDateTime)
    ensures ParseDateTime(FormatDateTime(t)) == Some(WholeSecond(t))
  {
    DateTimeParts(t);
    if t.nano >= 1_000_000_000 {
      assert WholeSecond(t) == Stamp(t.year, t.month, t.day, t.hour, t.minute, 59, 1_000_000_000);
    } else {
      assert WholeSecond(t) == Stamp(t.year, t.month, t.day, t.hour, t.minute, t.second, 0);
    }
  }

  /** Hence two date-times print alike exactly when they differ at most in the fraction
      of a second. */
  lemma FormatDateTimeInjective(a: NaiveDateTime, b: NaiveDateTime)
    ensures FormatDateTime(a) == FormatDateTime(b) <==> WholeSecond(a) == WholeSecond(b)
  {
    DateTimeRoundTrip(a);
    DateTimeRoundTrip(b);
  }
}
