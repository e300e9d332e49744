/**
  The timestamps both formats carry: Python `datetime` values with minute
  precision (`Task.timestamp`, src/main.py:20-24), the proleptic Gregorian
  calendar behind them, their ordering and `min`, and the
  `'%Y-%m-%d %a %H:%M'` text form read by `strptime` and written by
  `strftime` in the C locale.
*/
module Calendar {
  import opened Wrappers
  import opened Text

  datatype Timestamp = Timestamp(year: int, month: int, day: int, hour: int, minute: int)

  predicate IsLeapYear(y: int) {
    y % 4 == 0 && (y % 100 != 0 || y % 400 == 0)
  }

  function DaysInMonth(y: int, m: int): int
    requires 1 <= m <= 12
  {
    if m == 2 then (if IsLeapYear(y) then 29 else 28)
    else if m == 4 || m == 6 || m == 9 || m == 11 then 30
    else 31
  }

  function DaysInYear(y: int): int {
    if IsLeapYear(y) then 366 else 365
  }

  /** The field ranges `datetime` enforces: years 1..9999, months 1..12,
      days within the month under the Gregorian leap rule, hours 0..23 and
      minutes 0..59. */
  predicate Valid(t: Timestamp) {
    && 1 <= t.year <= 9999
    && 1 <= t.month <= 12
    && 1 <= t.day <= DaysInMonth(t.year, t.month)
    && 0 <= t.hour <= 23
    && 0 <= t.minute <= 59
  }

  /** A `datetime` (seconds are always zero here): only valid dates exist. */
  type DateTime = t: Timestamp | Valid(t) witness Timestamp(1, 1, 1, 0, 0)

  // ----- ordering -------------------------------------------------------

  /** `a < b` on datetimes: lexicographic on (year, month, day, hour, minute). */
  predicate Before(a: Timestamp, b: Timestamp) {
    || a.year < b.year
    || (a.year == b.year && a.month < b.month)
    || (a.year == b.year && a.month == b.month && a.day < b.day)
    || (a.year == b.year && a.month == b.month && a.day == b.day && a.hour < b.hour)
    || (a.year == b.year && a.month == b.month && a.day == b.day && a.hour == b.hour && a.minute < b.minute)
  }

  /** `a <= b` on datetimes. */
  predicate NotAfter(a: Timestamp, b: Timestamp) {
    !Before(b, a)
  }

  /** `Before` is a strict total order: irreflexive, transitive, and any two
      distinct timestamps are comparable. */
  lemma BeforeIsStrictTotalOrder(a: Timestamp, b: Timestamp, c: Timestamp)
    ensures !Before(a, a)
    ensures Before(a, b) && Before(b, c) ==> Before(a, c)
    ensures a != b ==> Before(a, b) || Before(b, a)
    ensures !(Before(a, b) && Before(b, a))
  {
  }

  /** Python's `min(a, b)`: the earlier of the two, and `a` on a tie. */
  function Min(a: DateTime, b: DateTime): (r: DateTime)
    ensures r == a || r == b
    ensures NotAfter(r, a) && NotAfter(r, b)
  {
    if Before(b, a) then b else a
  }

  // ----- day numbers and weekdays ---------------------------------------

  /** Days in the years before `y` (the proleptic Gregorian count). */
  function DaysBeforeYear(y: int): int
    requires y >= 1
  {
    var p := y - 1;
    p * 365 + p / 4 - p / 100 + p / 400
  }

  /** Days in the months of year `y` before month `m`. */
  function DaysBeforeMonth(y: int, m: int): int
    requires 1 <= m <= 12
  {
    [0, 31, 59, 90, 120, 151, 181, 212, 243, 273, 304, 334][m - 1]
      + (if m > 2 && IsLeapYear(y) then 1 else 0)
  }

  /** `date.toordinal()`: 0001-01-01 is day 1. */
  function Ordinal(d: DateTime): int {
    DaysBeforeYear(d.year) + DaysBeforeMonth(d.year, d.month) + d.day
  }

  /** `date.weekday()`: 0 is Monday, 6 is Sunday. */
  function Weekday(d: DateTime): (w: int)
    ensures 0 <= w < 7
  {
    (Ordinal(d) + 6) % 7
  }

  /** The last day a `datetime` can hold. */
  predicate IsLastDay(d: DateTime) {
    d.year == 9999 && d.month == 12 && d.day == 31
  }

  /** The same time on the following calendar day. */
  function NextDay(d: DateTime): (r: DateTime)
    requires !IsLastDay(d)
    ensures Before(d, r) && r.hour == d.hour && r.minute == d.minute
  {
    if d.day < DaysInMonth(d.year, d.month) then d.(day := d.day + 1)
    else if d.month < 12 then d.(month := d.month + 1, day := 1)
    else d.(year := d.year + 1, month := 1, day := 1)
  }

  lemma DaysBeforeNextYear(y: int)
    requires y >= 1
    ensures DaysBeforeYear(y + 1) == DaysBeforeYear(y) + DaysInYear(y)
  {
    var p := y - 1;
    StepBy4(p);
    StepBy100(p);
    StepBy400(p);
  }

  /** Counting up to one more year adds one multiple of 4 exactly when the
      new year is one; likewise for 100 and 400 below. */
  lemma StepBy4(p: int)
    requires p >= 0
    ensures (p + 1) / 4 - p / 4 == (if (p + 1) % 4 == 0 then 1 else 0)
  {
    var q, r := p / 4, p % 4;
    assert p == 4 * q + r;
    if r == 3 {
      assert p + 1 == 4 * (q + 1);
    }
  }

  lemma StepBy100(p: int)
    requires p >= 0
    ensures (p + 1) / 100 - p / 100 == (if (p + 1) % 100 == 0 then 1 else 0)
  {
    var q, r := p / 100, p % 100;
    assert p == 100 * q + r;
    if r == 99 {
      assert p + 1 == 100 * (q + 1);
    }
  }

  lemma StepBy400(p: int)
    requires p >= 0
    ensures (p + 1) / 400 - p / 400 == (if (p + 1) % 400 == 0 then 1 else 0)
  {
    var q, r := p / 400, p % 400;
    assert p == 400 * q + r;
    if r == 399 {
      assert p + 1 == 400 * (q + 1);
    }
  }

  lemma DaysBeforeNextMonth(y: int, m: int)
    requires 1 <= m < 12
    ensures DaysBeforeMonth(y, m + 1) == DaysBeforeMonth(y, m) + DaysInMonth(y, m)
  {
  }

  /** Every month fits inside its year. */
  lemma MonthFitsYear(y: int, m: int)
    requires 1 <= m <= 12
    ensures 0 <= DaysBeforeMonth(y, m)
    ensures DaysBeforeMonth(y, m) + DaysInMonth(y, m) <= DaysInYear(y)
  {
  }

  /** Consecutive calendar days have consecutive day numbers. */
  lemma NextDayOrdinal(d: DateTime)
    requires !IsLastDay(d)
    ensures Ordinal(NextDay(d)) == Ordinal(d) + 1
  {
    if d.day < DaysInMonth(d.year, d.month) {
    } else if d.month < 12 {
      DaysBeforeNextMonth(d.year, d.month);
    } else {
      DaysBeforeNextYear(d.year);
    }
  }

  /** The weekday moves on by one, Sunday wrapping to Monday, from each day
      to the next. */
  lemma WeekdayAdvances(d: DateTime)
    requires !IsLastDay(d)
    ensures Weekday(NextDay(d)) == (Weekday(d) + 1) % 7
  {
    NextDayOrdinal(d);
    ModSevenStep(Ordinal(d) + 6);
  }

  lemma ModSevenStep(o: int)
    ensures (o + 1) % 7 == (o % 7 + 1) % 7
  {
    var q, r := o / 7, o % 7;
    assert o == 7 * q + r && 0 <= r < 7;
    assert o + 1 == 7 * q + (r + 1);
    if r == 6 {
      assert o + 1 == 7 * (q + 1);
    }
  }

  lemma {:induction false} DaysBeforeYearGrows(y1: int, y2: int)
    requires 1 <= y1 <= y2
    ensures DaysBeforeYear(y2) >= DaysBeforeYear(y1) + 365 * (y2 - y1)
    decreases y2 - y1
  {
    if y1 < y2 {
      DaysBeforeYearGrows(y1, y2 - 1);
      DaysBeforeNextYear(y2 - 1);
    }
  }

  lemma DaysBeforeMonthGrows(y: int, m1: int, m2: int)
    requires 1 <= m1 < m2 <= 12
    ensures DaysBeforeMonth(y, m2) >= DaysBeforeMonth(y, m1) + DaysInMonth(y, m1)
  {
  }

  /** Minutes elapsed since 0001-01-01 00:00 minus one day. */
  function Minutes(d: DateTime): int {
    (Ordinal(d) * 24 + d.hour) * 60 + d.minute
  }

  lemma OrdinalOrder(a: DateTime, b: DateTime)
    requires a.year < b.year || (a.year == b.year && a.month < b.month)
      || (a.year == b.year && a.month == b.month && a.day < b.day)
    ensures Ordinal(a) < Ordinal(b)
  {
    MonthFitsYear(a.year, a.month);
    if a.year < b.year {
      DaysBeforeNextYear(a.year);
      DaysBeforeYearGrows(a.year + 1, b.year);
      MonthFitsYear(b.year, b.month);
    } else if a.month < b.month {
      DaysBeforeMonthGrows(a.year, a.month, b.month);
    }
  }

  /** The lexicographic comparison Python applies to datetimes orders them by
      elapsed time: `a < b` exactly when fewer minutes have passed at `a`. */
  lemma BeforeIsChronological(a: DateTime, b: DateTime)
    ensures Before(a, b) <==> Minutes(a) < Minutes(b)
  {
    if a.year < b.year || (a.year == b.year && a.month < b.month)
      || (a.year == b.year && a.month == b.month && a.day < b.day) {
      OrdinalOrder(a, b);
    } else if b.year < a.year || (a.year == b.year && b.month < a.month)
      || (a.year == b.year && a.month == b.month && b.day < a.day) {
      OrdinalOrder(b, a);
    }
  }

  // ----- the '%Y-%m-%d %a %H:%M' text form --------------------------------

  /** `%a` in the C locale, indexed by `Weekday`. */
  const DayNames: seq<string> := ["Mon", "Tue", "Wed", "Thu", "Fri", "Sat", "Sun"]

  /** What `%a` accepts when parsing: the lower-cased names under
      `re.IGNORECASE`. */
  const DayTokens: seq<string> := ["mon", "tue", "wed", "thu", "fri", "sat", "sun"]

  /** A three-character token `strptime`'s `%a` accepts, in any letter case.
      It is never compared with the date. */
  predicate IsDayToken(w: string) {
    LowerString(w) in DayTokens
  }

  /** The captured group `\d{4}-\d{2}-\d{2} \w{3} \d{2}:\d{2}` both
      formats match inside their brackets. */
  predicate StampShape(s: string) {
    && |s| == 20
    && AllDigits(s[0..4]) && s[4] == '-' && AllDigits(s[5..7]) && s[7] == '-' && AllDigits(s[8..10])
    && s[10] == ' ' && IsWordChar(s[11]) && IsWordChar(s[12]) && IsWordChar(s[13]) && s[14] == ' '
    && AllDigits(s[15..17]) && s[17] == ':' && AllDigits(s[18..20])
  }

  /** A shaped stamp is a single line. */
  lemma StampHasNoNewline(s: string)
    requires StampShape(s)
    ensures '\n' !in s
  {
    forall k | 0 <= k < |s| ensures s[k] != '\n' {
      if k < 4 { assert s[0..4][k] == s[k]; }
      else if 5 <= k < 7 { assert s[5..7][k - 5] == s[k]; }
      else if 8 <= k < 10 { assert s[8..10][k - 8] == s[k]; }
      else if 15 <= k < 17 { assert s[15..17][k - 15] == s[k]; }
      else if 18 <= k { assert s[18..20][k - 18] == s[k]; }
    }
  }

  /** The numbers in the digit fields of a shaped stamp. */
  function Fields(s: string): Timestamp
    requires StampShape(s)
  {
    Timestamp(ParseDigits(s[0..4]), ParseDigits(s[5..7]), ParseDigits(s[8..10]),
              ParseDigits(s[15..17]), ParseDigits(s[18..20]))
  }

  /** `d.strftime('%Y-%m-%d %a %H:%M')`, the year written with four digits. */
  function FormatStamp(d: DateTime): (r: string)
    ensures |r| == 20
  {
    Pad4(d.year) + "-" + Pad2(d.month) + "-" + Pad2(d.day) + " " + DayNames[Weekday(d)] + " "
      + Pad2(d.hour) + ":" + Pad2(d.minute)
  }

  /** `datetime.strptime(s, '%Y-%m-%d %a %H:%M')` on text the surrounding
      regular expression has already matched: `None` stands for the
      `ValueError`. */
  function ParseStamp(s: string): (r: Option<DateTime>)
    requires StampShape(s)
  {
    var t := Fields(s);
    if Valid(t) && IsDayToken(s[11..14]) then Some(t) else None
  }

  /** `strptime` succeeds exactly when the numbers form a valid datetime and
      the weekday token is a day name, whatever day it names; and what it
      reads is what `strftime` writes back, apart from that token. */
  lemma ParseStampCanonical(s: string)
    requires StampShape(s)
    ensures ParseStamp(s).Some? <==> Valid(Fields(s)) && IsDayToken(s[11..14])
    ensures ParseStamp(s).Some? ==>
      FormatStamp(ParseStamp(s).value)[..11] == s[..11] && FormatStamp(ParseStamp(s).value)[14..] == s[14..]
  {
    if ParseStamp(s).Some? {
      var d := ParseStamp(s).value;
      Pad4OfDigits(s[0..4]);
      Pad2OfDigits(s[5..7]);
      Pad2OfDigits(s[8..10]);
      Pad2OfDigits(s[15..17]);
      Pad2OfDigits(s[18..20]);
      FormatStampParts(d);
      StampParts(s);
    }
  }

  /** The date and the time of day in a formatted stamp. */
  lemma FormatStampParts(d: DateTime)
    ensures FormatStamp(d)[..11] == Pad4(d.year) + "-" + Pad2(d.month) + "-" + Pad2(d.day) + " "
    ensures FormatStamp(d)[14..] == " " + Pad2(d.hour) + ":" + Pad2(d.minute)
  {
  }

  /** The date and the time of day in a shaped stamp. */
  lemma StampParts(s: string)
    requires StampShape(s)
    ensures s[..11] == s[0..4] + "-" + s[5..7] + "-" + s[8..10] + " "
    ensures s[14..] == " " + s[15..17] + ":" + s[18..20]
  {
  }

  lemma DayNamesAreTokens(w: int)
    requires 0 <= w < 7
    ensures |DayNames[w]| == 3 && IsDayToken(DayNames[w])
    ensures forall k :: 0 <= k < 3 ==> IsWordChar(DayNames[w][k])
  {
    var n := DayNames[w];
    assert LowerString(n) == [Lower(n[0]), Lower(n[1]), Lower(n[2])];
    assert LowerString(n) == DayTokens[w];
  }

  /** What `strftime` writes has the shape the parsers look for, and
      `strptime` reads the same datetime back. */
  lemma StampRoundTrip(d: DateTime)
    ensures StampShape(FormatStamp(d))
    ensures ParseStamp(FormatStamp(d)) == Some(d)
  {
    var f := FormatStamp(d);
    DayNamesAreTokens(Weekday(d));
    assert f[0..4] == Pad4(d.year);
    assert f[5..7] == Pad2(d.month);
    assert f[8..10] == Pad2(d.day);
    assert f[11..14] == DayNames[Weekday(d)];
    assert f[15..17] == Pad2(d.hour);
    assert f[18..20] == Pad2(d.minute);
    assert Fields(f) == d;
  }
}
