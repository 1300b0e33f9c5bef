/**
 * Second-precision timestamps and their text form `%Y-%m-%dT%H:%M:%S`
 * (TIME_FORMAT in both versions of the reporter).
 */
module Timestamps {
  import opened Wrappers

  /** The fields of a naive Python `datetime` down to the second. */
  datatype DateTime = DateTime(year: int, month: int, day: int, hour: int, minute: int, second: int)

  predicate IsLeapYear(year: int) {
    year % 4 == 0 && (year % 100 != 0 || year % 400 == 0)
  }

  function DaysInMonth(year: int, month: int): int {
    if month == 2 then (if IsLeapYear(year) then 29 else 28)
    else if month == 4 || month == 6 || month == 9 || month == 11 then 30
    else 31
  }

  /** The range checks the `datetime` constructor applies. */
  predicate IsValid(t: DateTime) {
    && 1 <= t.year <= 9999
    && 1 <= t.month <= 12
    && 1 <= t.day <= DaysInMonth(t.year, t.month)
    && 0 <= t.hour < 24
    && 0 <= t.minute < 60
    && 0 <= t.second < 60
  }

  type Timestamp = t: DateTime | IsValid(t) witness DateTime(1970, 1, 1, 0, 0, 0)

  /** `a < b` on datetimes: field by field, most significant first. */
  predicate Before(a: DateTime, b: DateTime) {
    if a.year != b.year then a.year < b.year
    else if a.month != b.month then a.month < b.month
    else if a.day != b.day then a.day < b.day
    else if a.hour != b.hour then a.hour < b.hour
    else if a.minute != b.minute then a.minute < b.minute
    else a.second < b.second
  }

  /** `Before` is a strict total order, so a running maximum is well defined. */
  lemma BeforeIsStrictTotalOrder(a: DateTime, b: DateTime, c: DateTime)
    ensures !Before(a, a)
    ensures Before(a, b) && Before(b, c) ==> Before(a, c)
    ensures a != b ==> Before(a, b) || Before(b, a)
    ensures Before(a, b) ==> !Before(b, a)
  {
  }

  // ---------------------------------------------------------------------
  // Decimal fields

  predicate IsDigit(c: char) {
    '0' <= c <= '9'
  }

  predicate AllDigits(s: string) {
    forall i :: 0 <= i < |s| ==> IsDigit(s[i])
  }

  function DigitChar(d: int): char
    requires 0 <= d <= 9
  {
    ('0' as int + d) as char
  }

  function DigitValue(c: char): int
    requires IsDigit(c)
  {
    c as int - '0' as int
  }

  function Pow10(n: nat): nat {
    if n == 0 then 1 else 10 * Pow10(n - 1)
  }

  /** `n` written with exactly `width` decimal digits, zero-padded on the left. */
  function Pad(n: nat, width: nat): (s: string)
    ensures |s| == width && AllDigits(s)
  {
    if width == 0 then "" else Pad(n / 10, width - 1) + [DigitChar(n % 10)]
  }

  /** The number a string of decimal digits denotes. */
  function NumberOf(s: string): nat
    requires AllDigits(s)
  {
    if s == [] then 0 else 10 * NumberOf(s[..|s| - 1]) + DigitValue(s[|s| - 1])
  }

  lemma {:induction false} NumberOfPad(n: nat, width: nat)
    requires n < Pow10(width)
    ensures NumberOf(Pad(n, width)) == n
  {
    if width > 0 {
      var s := Pad(n, width);
      assert s[..|s| - 1] == Pad(n / 10, width - 1);
      NumberOfPad(n / 10, width - 1);
    }
  }

  lemma {:induction false} PadNumberOf(s: string)
    requires AllDigits(s)
    ensures NumberOf(s) < Pow10(|s|)
    ensures Pad(NumberOf(s), |s|) == s
  {
    if s != [] {
      var p := s[..|s| - 1];
      PadNumberOf(p);
      var n := NumberOf(s);
      assert n / 10 == NumberOf(p) && n % 10 == DigitValue(s[|s| - 1]);
      assert s == p + [s[|s| - 1]];
    }
  }

  // ---------------------------------------------------------------------
  // TIME_FORMAT

  /** `t.strftime("%Y-%m-%dT%H:%M:%S")`. */
  function Format(t: Timestamp): (s: string)
    ensures |s| == 19
  {
    Pad(t.year, 4) + "-" + Pad(t.month, 2) + "-" + Pad(t.day, 2) + "T"
      + Pad(t.hour, 2) + ":" + Pad(t.minute, 2) + ":" + Pad(t.second, 2)
  }

  /** The shape of a formatted timestamp: digits with separators at fixed places. */
  predicate IsLayout(s: string) {
    && |s| == 19
    && s[4] == '-' && s[7] == '-' && s[10] == 'T' && s[13] == ':' && s[16] == ':'
    && AllDigits(s[0..4]) && AllDigits(s[5..7]) && AllDigits(s[8..10])
    && AllDigits(s[11..13]) && AllDigits(s[14..16]) && AllDigits(s[17..19])
  }

  /**
   * `datetime.strptime(s, "%Y-%m-%dT%H:%M:%S")` on zero-padded input;
   * None where it raises ValueError.
   */
  function Parse(s: string): (r: Option<Timestamp>)
    ensures r.Some? ==> Format(r.value) == s
  {
    if !IsLayout(s) then None
    else
      var t := DateTime(NumberOf(s[0..4]), NumberOf(s[5..7]), NumberOf(s[8..10]),
                        NumberOf(s[11..13]), NumberOf(s[14..16]), NumberOf(s[17..19]));
      if IsValid(t) then
        FieldsFormatBack(s, t);
        Some(t)
      else None
  }

  /** The six fields of a joined layout string sit at fixed positions. */
  lemma JoinedFields(y: string, mo: string, d: string, h: string, mi: string, se: string)
    requires |y| == 4 && |mo| == 2 && |d| == 2 && |h| == 2 && |mi| == 2 && |se| == 2
    ensures var s := y + "-" + mo + "-" + d + "T" + h + ":" + mi + ":" + se;
      && |s| == 19
      && s[4] == '-' && s[7] == '-' && s[10] == 'T' && s[13] == ':' && s[16] == ':'
      && s[0..4] == y && s[5..7] == mo && s[8..10] == d
      && s[11..13] == h && s[14..16] == mi && s[17..19] == se
  {
    var s := y + "-" + mo + "-" + d + "T" + h + ":" + mi + ":" + se;
    assert s[0..4] == y;
    assert s[5..7] == mo;
    assert s[8..10] == d;
    assert s[11..13] == h;
    assert s[14..16] == mi;
    assert s[17..19] == se;
  }

  /** Formatting a timestamp and parsing it back gives the same timestamp. */
  lemma FormatThenParse(t: Timestamp)
    ensures Parse(Format(t)) == Some(t)
  {
    JoinedFields(Pad(t.year, 4), Pad(t.month, 2), Pad(t.day, 2), Pad(t.hour, 2), Pad(t.minute, 2), Pad(t.second, 2));
    assert Pow10(2) == 100 && Pow10(4) == 10000;
    NumberOfPad(t.year, 4);
    NumberOfPad(t.month, 2);
    NumberOfPad(t.day, 2);
    NumberOfPad(t.hour, 2);
    NumberOfPad(t.minute, 2);
    NumberOfPad(t.second, 2);
  }

  /** Two strings of the layout's length agreeing on every field and separator are equal. */
  lemma SameFieldsSameString(a: string, b: string)
    requires |a| == 19 && |b| == 19
    requires a[4] == b[4] && a[7] == b[7] && a[10] == b[10] && a[13] == b[13] && a[16] == b[16]
    requires a[0..4] == b[0..4] && a[5..7] == b[5..7] && a[8..10] == b[8..10]
    requires a[11..13] == b[11..13] && a[14..16] == b[14..16] && a[17..19] == b[17..19]
    ensures a == b
  {
    forall k | 0 <= k < 19
      ensures a[k] == b[k]
    {
      if k < 4 {
        assert a[k] == a[0..4][k] && b[k] == b[0..4][k];
      } else if 5 <= k < 7 {
        assert a[k] == a[5..7][k - 5] && b[k] == b[5..7][k - 5];
      } else if 8 <= k < 10 {
        assert a[k] == a[8..10][k - 8] && b[k] == b[8..10][k - 8];
      } else if 11 <= k < 13 {
        assert a[k] == a[11..13][k - 11] && b[k] == b[11..13][k - 11];
      } else if 14 <= k < 16 {
        assert a[k] == a[14..16][k - 14] && b[k] == b[14..16][k - 14];
      } else if 17 <= k {
        assert a[k] == a[17..19][k - 17] && b[k] == b[17..19][k - 17];
      }
    }
  }

  /** A layout string whose fields read as a valid time is the formatting of that time. */
  lemma FieldsFormatBack(s: string, t: Timestamp)
    requires IsLayout(s)
    requires t == DateTime(NumberOf(s[0..4]), NumberOf(s[5..7]), NumberOf(s[8..10]),
                           NumberOf(s[11..13]), NumberOf(s[14..16]), NumberOf(s[17..19]))
    ensures Format(t) == s
  {
    PadNumberOf(s[0..4]);
    PadNumberOf(s[5..7]);
    PadNumberOf(s[8..10]);
    PadNumberOf(s[11..13]);
    PadNumberOf(s[14..16]);
    PadNumberOf(s[17..19]);
    JoinedFields(Pad(t.year, 4), Pad(t.month, 2), Pad(t.day, 2), Pad(t.hour, 2), Pad(t.minute, 2), Pad(t.second, 2));
    SameFieldsSameString(Format(t), s);
  }
}
