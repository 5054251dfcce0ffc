/** Publication timestamps: what `datetime.strptime` produces from a
    `pubDate` in the format "%a, %d %b %Y %H:%M:%S %z" (the date-time of
    section 5 of RFC 822), how two of them compare, and the `strftime`
    renderings the program uses. */
module Chrono {
  import opened Decimal

  /** The calendar fields as written in the feed, and the feed's UTC
      offset in seconds east of Greenwich. */
  datatype Timestamp = Timestamp(
    year: nat, month: nat, day: nat,
    hour: nat, minute: nat, second: nat,
    offsetSeconds: int)

  predicate IsLeapYear(y: nat) {
    y % 4 == 0 && (y % 100 != 0 || y % 400 == 0)
  }

  function DaysInYear(y: nat): (r: nat) {
    if IsLeapYear(y) then 366 else 365
  }

  function DaysInMonth(y: nat, m: nat): (r: nat)
    requires 1 <= m <= 12
  {
    if m == 2 then (if IsLeapYear(y) then 29 else 28)
    else if m == 4 || m == 6 || m == 9 || m == 11 then 30
    else 31
  }

  /** The field ranges of an aware `datetime`: years 1..9999, months
      1..12, days 1..31, times of day, and an offset strictly within a day.
      That the day exists in its month is the separate CalendarDay, so
      that the solver meets the leap-year rule only where it is needed. */
  predicate ValidTimestamp(t: Timestamp) {
    && 1 <= t.year <= 9999
    && 1 <= t.month <= 12
    && 1 <= t.day <= 31
    && t.hour < 24 && t.minute < 60 && t.second < 60
    && -86400 < t.offsetSeconds < 86400
  }

  /** The day exists in its month, as `datetime` checks. */
  predicate CalendarDay(t: DateTime) {
    t.day <= DaysInMonth(t.year, t.month)
  }

  type DateTime = t: Timestamp | ValidTimestamp(t) witness Timestamp(1970, 1, 1, 0, 0, 0, 0)

  /** Days from 0001-01-01 to the first of January of year y (proleptic Gregorian). */
  function DaysBeforeYear(y: nat): (r: int)
    requires y >= 1
  {
    var p := y - 1;
    365 * p + p / 4 - p / 100 + p / 400
  }

  function DaysBeforeMonth(y: nat, m: nat): (r: nat)
    requires 1 <= m <= 12
  {
    var common := [0, 31, 59, 90, 120, 151, 181, 212, 243, 273, 304, 334][m - 1];
    if m > 2 && IsLeapYear(y) then common + 1 else common
  }

  /** Days from 0001-01-01 to the local date of t. */
  function DayNumber(t: DateTime): (r: int) {
    DaysBeforeYear(t.year) + DaysBeforeMonth(t.year, t.month) + t.day - 1
  }

  function SecondOfDay(t: DateTime): (r: int) {
    t.hour * 3600 + t.minute * 60 + t.second
  }

  /** The absolute instant of t in seconds, the quantity aware datetimes
      are compared by: local wall time minus the UTC offset. */
  function Instant(t: DateTime): (r: int) {
    DayNumber(t) * 86400 + SecondOfDay(t) - t.offsetSeconds
  }

  /** `strftime('%Y-%m-%d')`: the year as glibc renders `%Y` (no padding,
      so years below 1000 have fewer than four digits), month and day
      zero-padded to two digits. */
  function OutDate(t: DateTime): (r: string) {
    NatToString(t.year) + "-" + ZeroPad(t.month, 2) + "-" + ZeroPad(t.day, 2)
  }

  /** The rendered date is digits and dashes, and its three fields can be
      read back. */
  lemma OutDateFields(t: DateTime)
    ensures var r := OutDate(t);
      && (forall i :: 0 <= i < |r| ==> IsDigit(r[i]) || r[i] == '-')
      && |r| >= 7 && r[|r| - 6] == '-' && r[|r| - 3] == '-'
      && AllDigits(r[..|r| - 6]) && ParseDigits(r[..|r| - 6]) == t.year
      && AllDigits(r[|r| - 5..|r| - 3]) && ParseDigits(r[|r| - 5..|r| - 3]) == t.month
      && AllDigits(r[|r| - 2..]) && ParseDigits(r[|r| - 2..]) == t.day
  {
    var y, m, d := NatToString(t.year), ZeroPad(t.month, 2), ZeroPad(t.day, 2);
    ParseNatToString(t.year);
    ShortNumeral(t.month);
    ShortNumeral(t.day);
    DateLayout(y, m, d);
  }

  /** Where the parts of `y-m-d` sit when m and d have two digits each. */
  lemma DateLayout(y: string, m: string, d: string)
    requires AllDigits(y) && AllDigits(m) && AllDigits(d)
    requires |y| >= 1 && |m| == 2 && |d| == 2
    ensures var r := y + "-" + m + "-" + d;
            && (forall i :: 0 <= i < |r| ==> IsDigit(r[i]) || r[i] == '-')
            && |r| >= 7 && r[|r| - 6] == '-' && r[|r| - 3] == '-'
            && r[..|r| - 6] == y && r[|r| - 5..|r| - 3] == m && r[|r| - 2..] == d
  {
    var r := y + "-" + m + "-" + d;
    forall i | 0 <= i < |r| ensures IsDigit(r[i]) || r[i] == '-' {
      if i < |y| {
        assert r[i] == y[i];
      } else if |y| < i < |y| + 3 {
        assert r[i] == m[i - |y| - 1];
      } else if |y| + 3 < i {
        assert r[i] == d[i - |y| - 4];
      }
    }
    assert r[..|r| - 6] == y;
    assert r[|r| - 5..|r| - 3] == m;
    assert r[|r| - 2..] == d;
  }

  /** `str(date.year)`, the value of the year tag. */
  function YearText(t: DateTime): (r: string)
    ensures AllDigits(r) && ParseDigits(r) == t.year
  {
    ParseNatToString(t.year);
    NatToString(t.year)
  }

  /** a's local wall-clock reading comes strictly before b's. */
  predicate LocalBefore(a: Timestamp, b: Timestamp) {
    || a.year < b.year
    || (a.year == b.year && a.month < b.month)
    || (a.year == b.year && a.month == b.month && a.day < b.day)
    || (a.year == b.year && a.month == b.month && a.day == b.day && a.hour < b.hour)
    || (a.year == b.year && a.month == b.month && a.day == b.day && a.hour == b.hour && a.minute < b.minute)
    || (a.year == b.year && a.month == b.month && a.day == b.day && a.hour == b.hour && a.minute == b.minute && a.second < b.second)
  }

  function LocalFields(t: Timestamp): (r: (nat, nat, nat, nat, nat, nat)) {
    (t.year, t.month, t.day, t.hour, t.minute, t.second)
  }

  lemma DaysBeforeYearStep(y: nat)
    requires y >= 1
    ensures DaysBeforeYear(y + 1) == DaysBeforeYear(y) + DaysInYear(y)
  {
    QuotientStep4(y);
    QuotientStep100(y);
    QuotientStep400(y);
    var gain := (y / 4 - (y - 1) / 4) - (y / 100 - (y - 1) / 100) + (y / 400 - (y - 1) / 400);
    assert DaysBeforeYear(y + 1) == DaysBeforeYear(y) + 365 + gain;
    LeapGain(y);
  }

  /** The leap rule in the form the quotient differences take. */
  lemma LeapGain(y: nat)
    ensures IsLeapYear(y) <==> (if y % 4 == 0 then 1 else 0) - (if y % 100 == 0 then 1 else 0) + (if y % 400 == 0 then 1 else 0) == 1
    ensures !IsLeapYear(y) <==> (if y % 4 == 0 then 1 else 0) - (if y % 100 == 0 then 1 else 0) + (if y % 400 == 0 then 1 else 0) == 0
  {
    if y % 100 == 0 {
      assert y % 4 == 0;
    }
    if y % 400 == 0 {
      assert y % 100 == 0;
    }
  }

  lemma QuotientStep4(y: nat)
    requires y >= 1
    ensures y / 4 - (y - 1) / 4 == if y % 4 == 0 then 1 else 0
  {
  }

  lemma QuotientStep100(y: nat)
    requires y >= 1
    ensures y / 100 - (y - 1) / 100 == if y % 100 == 0 then 1 else 0
  {
  }

  lemma QuotientStep400(y: nat)
    requires y >= 1
    ensures y / 400 - (y - 1) / 400 == if y % 400 == 0 then 1 else 0
  {
  }

  lemma {:induction false} DaysBeforeYearGrows(y: nat, z: nat)
    requires 1 <= y < z
    ensures DaysBeforeYear(y) + DaysInYear(y) <= DaysBeforeYear(z)
    decreases z - y
  {
    DaysBeforeYearStep(y);
    if y + 1 < z {
      DaysBeforeYearGrows(y + 1, z);
    }
  }

  lemma MonthFitsYear(y: nat, m: nat)
    requires 1 <= m <= 12
    ensures DaysBeforeMonth(y, m) + DaysInMonth(y, m) <= DaysInYear(y)
    ensures m < 12 ==> DaysBeforeMonth(y, m + 1) == DaysBeforeMonth(y, m) + DaysInMonth(y, m)
  {
  }

  lemma {:induction false} DaysBeforeMonthGrows(y: nat, m: nat, n: nat)
    requires 1 <= m < n <= 12
    ensures DaysBeforeMonth(y, m) + DaysInMonth(y, m) <= DaysBeforeMonth(y, n)
    decreases n - m
  {
    MonthFitsYear(y, m);
    if m + 1 < n {
      DaysBeforeMonthGrows(y, m + 1, n);
    }
  }

  /** An earlier local date has a smaller day number. */
  lemma DayNumberOrder(a: DateTime, b: DateTime)
    requires CalendarDay(a)
    requires LocalBefore(a, b)
    requires (a.year, a.month, a.day) != (b.year, b.month, b.day)
    ensures DayNumber(a) < DayNumber(b)
  {
    if a.year < b.year {
      MonthFitsYear(a.year, a.month);
      DaysBeforeYearGrows(a.year, b.year);
    } else if a.month < b.month {
      DaysBeforeMonthGrows(a.year, a.month, b.month);
    }
  }

  /** For two timestamps written with the same UTC offset, instant order
      is local wall-clock order. */
  lemma SameOffsetOrder(a: DateTime, b: DateTime)
    requires CalendarDay(a) && CalendarDay(b)
    requires a.offsetSeconds == b.offsetSeconds
    ensures Instant(a) < Instant(b) <==> LocalBefore(a, b)
    ensures Instant(a) == Instant(b) <==> LocalFields(a) == LocalFields(b)
  {
    if LocalBefore(a, b) {
      if (a.year, a.month, a.day) != (b.year, b.month, b.day) {
        DayNumberOrder(a, b);
      }
    } else if LocalBefore(b, a) {
      if (a.year, a.month, a.day) != (b.year, b.month, b.day) {
        DayNumberOrder(b, a);
      }
    }
  }

  /** The two timestamps of OffsetsReorderDates. */
  const EarlyInstant := Timestamp(2023, 1, 2, 0, 30, 0, 3600)
  const LateInstant := Timestamp(2023, 1, 1, 23, 45, 0, 0)

  lemma ExampleDates()
    ensures ValidTimestamp(EarlyInstant) && ValidTimestamp(LateInstant)
    ensures OutDate(EarlyInstant) == "2023-01-02" && OutDate(LateInstant) == "2023-01-01"
  {
    RenderedYear();
    RenderedDays();
  }

  lemma RenderedYear()
    ensures NatToString(2023) == "2023"
  {
    assert NatToString(2) == "2";
    assert NatToString(20) == "20";
    assert NatToString(202) == "202";
  }

  lemma RenderedDays()
    ensures ZeroPad(1, 2) == "01" && ZeroPad(2, 2) == "02"
  {
    assert NatToString(1) == "1" && NatToString(2) == "2";
  }

  /** With different offsets the two disagree: 2023-01-02 00:30 at +01:00
      is an earlier instant than 2023-01-01 23:45 at +00:00, so the
      episode sorted first carries the later date in its file name. */
  lemma OffsetsReorderDates()
    ensures var a, b := EarlyInstant, LateInstant;
            && ValidTimestamp(a) && ValidTimestamp(b) && CalendarDay(a) && CalendarDay(b)
            && Instant(a) < Instant(b) && LocalBefore(b, a)
            && OutDate(a) == "2023-01-02" && OutDate(b) == "2023-01-01"
  {
    ExampleDates();
    assert DaysBeforeYear(2023) == 738520;
  }
}
