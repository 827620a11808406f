/**
 * The `YYYY-MM-DD` key a calendar cell is matched under: the date part of
 * `Date.prototype.toISOString()`, an ISO 8601 extended calendar date
 * (ISO 8601:2004 section 4.1.2.2). Years outside 0..9999 take the expanded
 * form with a sign and six digits, as `toISOString` writes them.
 */
module IsoDate {
  import opened Wrappers
  import opened Calendar

  predicate IsDigit(c: char) {
    '0' <= c <= '9'
  }

  predicate AllDigits(s: string) {
    forall i :: 0 <= i < |s| ==> IsDigit(s[i])
  }

  function DigitChar(n: int): (c: char)
    requires 0 <= n < 10
    ensures IsDigit(c)
  {
    ('0' as int + n) as char
  }

  /** The decimal digits of `n`, left-padded with zeros to at least `width` characters. */
  function Decimal(n: nat, width: nat): (s: string)
    ensures |s| >= width
    decreases n, width
  {
    if n == 0 && width == 0 then ""
    else Decimal(n / 10, if width > 0 then width - 1 else 0) + [DigitChar(n % 10)]
  }

  /** The number a string of decimal digits denotes. */
  function DigitsValue(s: string): int
  {
    if |s| == 0 then 0
    else DigitsValue(s[..|s| - 1]) * 10 + (s[|s| - 1] as int - '0' as int)
  }

  lemma {:induction false} DecimalAllDigits(n: nat, width: nat)
    ensures AllDigits(Decimal(n, width))
    decreases n, width
  {
    if n == 0 && width == 0 {
    } else {
      DecimalAllDigits(n / 10, if width > 0 then width - 1 else 0);
    }
  }

  /** Reading back the digits `Decimal` writes gives the number again. */
  lemma {:induction false} DecimalValue(n: nat, width: nat)
    ensures DigitsValue(Decimal(n, width)) == n
    decreases n, width
  {
    if n == 0 && width == 0 {
    } else {
      var s := Decimal(n, width);
      var w' := if width > 0 then width - 1 else 0;
      DecimalValue(n / 10, w');
      assert s[..|s| - 1] == Decimal(n / 10, w');
    }
  }

  /** Month and day numbers below 100 take exactly two digits. */
  lemma TwoDigits(n: nat)
    requires n < 100
    ensures Decimal(n, 2) == [DigitChar(n / 10), DigitChar(n % 10)]
  {
    assert Decimal(n / 100, 0) == "";
  }

  /** Years 0..9999 take exactly four digits. */
  lemma FourDigits(n: nat)
    requires n < 10000
    ensures Decimal(n, 4) == [DigitChar(n / 1000), DigitChar(n / 100 % 10), DigitChar(n / 10 % 10), DigitChar(n % 10)]
  {
    TwoDigits(n / 100);
    assert n / 10 / 10 == n / 100 && n / 100 / 10 == n / 1000;
    assert Decimal(n, 4) == Decimal(n / 10, 3) + [DigitChar(n % 10)];
    assert Decimal(n / 10, 3) == Decimal(n / 100, 2) + [DigitChar(n / 10 % 10)];
  }

  function YearText(y: int): (s: string)
    ensures |s| >= 4
  {
    if 0 <= y <= 9999 then Decimal(y, 4)
    else (if y < 0 then "-" else "+") + Decimal(if y < 0 then -y else y, 6)
  }

  /** The `YYYY-MM-DD` text of a date. */
  function Format(d: Date): (s: string)
    requires ValidDate(d)
    ensures |s| >= 10 && s[|s| - 6] == '-' && s[|s| - 3] == '-'
    ensures AllDigits(s[|s| - 5..|s| - 3]) && AllDigits(s[|s| - 2..])
    ensures 0 <= d.year <= 9999 ==> |s| == 10 && AllDigits(s[..4])
    ensures !(0 <= d.year <= 9999) ==> |s| >= 13 && s[0] == (if d.year < 0 then '-' else '+')
  {
    DecimalAllDigits(if 0 <= d.year then d.year else 0, 4);
    FourDigits(if 0 <= d.year <= 9999 then d.year else 0);
    var year, month, day := YearText(d.year), Decimal(d.month, 2), Decimal(d.day, 2);
    TwoDigits(d.month);
    TwoDigits(d.day);
    DecimalAllDigits(d.month, 2);
    DecimalAllDigits(d.day, 2);
    DashFields(year, month, day);
    year + "-" + month + "-" + day
  }

  /** The three fields of a dash-joined text sit at fixed offsets from its end. */
  lemma DashFields(y: string, m: string, d: string)
    requires |m| == 2 && |d| == 2
    ensures var s := y + "-" + m + "-" + d;
      && s[|s| - 3] == '-' && s[|s| - 6] == '-'
      && s[..|s| - 6] == y && s[|s| - 5..|s| - 3] == m && s[|s| - 2..] == d
  {
  }

  function ParseYear(t: string): Option<int> {
    if |t| >= 1 && (t[0] == '+' || t[0] == '-') then
      if AllDigits(t[1..]) then
        var magnitude: int := DigitsValue(t[1..]);
        Some(if t[0] == '-' then -magnitude else magnitude)
      else None
    else if |t| >= 1 && AllDigits(t) then Some(DigitsValue(t))
    else None
  }

  /** Reads a `YYYY-MM-DD` text back into a date. */
  function Parse(s: string): Option<Date> {
    if |s| < 10 || s[|s| - 3] != '-' || s[|s| - 6] != '-' then None
    else
      var yearText, monthText, dayText := s[..|s| - 6], s[|s| - 5..|s| - 3], s[|s| - 2..];
      if !AllDigits(monthText) || !AllDigits(dayText) then None
      else
        match ParseYear(yearText)
        case None => None
        case Some(y) => Some(Date(y, DigitsValue(monthText), DigitsValue(dayText)))
  }

  lemma YearTextRoundTrip(y: int)
    ensures ParseYear(YearText(y)) == Some(y)
  {
    var t := YearText(y);
    if 0 <= y <= 9999 {
      DecimalValue(y, 4);
      DecimalAllDigits(y, 4);
      assert IsDigit(t[0]);
    } else {
      var mag := if y < 0 then -y else y;
      DecimalValue(mag, 6);
      DecimalAllDigits(mag, 6);
      assert t[1..] == Decimal(mag, 6);
    }
  }

  /** Parsing a dash-joined text reads its three fields. */
  lemma ParseFields(y: string, m: string, d: string, year: int)
    requires |y| >= 4 && |m| == 2 && |d| == 2 && AllDigits(m) && AllDigits(d)
    requires ParseYear(y) == Some(year)
    ensures Parse(y + "-" + m + "-" + d) == Some(Date(year, DigitsValue(m), DigitsValue(d)))
  {
    DashFields(y, m, d);
  }

  /** Every valid date's text reads back as that date. */
  lemma FormatRoundTrip(d: Date)
    requires ValidDate(d)
    ensures Parse(Format(d)) == Some(d)
  {
    var y, m, dd := YearText(d.year), Decimal(d.month, 2), Decimal(d.day, 2);
    TwoDigits(d.month);
    TwoDigits(d.day);
    YearTextRoundTrip(d.year);
    DecimalAllDigits(d.month, 2);
    DecimalAllDigits(d.day, 2);
    ParseFields(y, m, dd, d.year);
    DecimalValue(d.month, 2);
    DecimalValue(d.day, 2);
  }

  /** Distinct dates have distinct texts, so a text names at most one calendar cell. */
  lemma FormatInjective(a: Date, b: Date)
    requires ValidDate(a) && ValidDate(b)
    ensures Format(a) == Format(b) <==> a == b
  {
    FormatRoundTrip(a);
    FormatRoundTrip(b);
  }

  lemma FormatExample()
    ensures Format(Date(2025, 3, 15)) == "2025-03-15"
  {
    FourDigits(2025);
    TwoDigits(3);
    TwoDigits(15);
  }
}
