/** The date interpreter: `parse_event_date` and `is_event_ongoing` (app.py:26-54), with the
    calendar arithmetic of Python's `datetime` they rely on. The clock reading `datetime.now()` is a
    parameter. */
module EventDates {
  import opened Wrappers
  import opened Text
  import Seqs

  /** A proleptic Gregorian calendar date, as Python's `date`. */
  datatype Date = Date(year: int, month: int, day: int)

  /** A naive local date-time, as `datetime.now()` gives it: a date and the microsecond within it. */
  datatype DateTime = DateTime(date: Date, micro: int)

  const MicrosPerDay: int := 86_400_000_000

  /** The message of the `OverflowError` that `datetime + timedelta` raises past 9999-12-31. */
  const OverflowMessage: string := "date value out of range"

  predicate IsLeapYear(y: int) {
    y % 4 == 0 && (y % 100 != 0 || y % 400 == 0)
  }

  function DaysInYear(y: int): int {
    if IsLeapYear(y) then 366 else 365
  }

  function DaysInMonth(y: int, m: int): int
    requires 1 <= m <= 12
  {
    if m == 2 then (if IsLeapYear(y) then 29 else 28)
    else if m == 4 || m == 6 || m == 9 || m == 11 then 30
    else 31
  }

  /** The dates `datetime` can represent: years 1 to 9999 (MINYEAR, MAXYEAR). */
  predicate ValidDate(d: Date) {
    1 <= d.year <= 9999 && 1 <= d.month <= 12 && 1 <= d.day <= DaysInMonth(d.year, d.month)
  }

  predicate ValidDateTime(t: DateTime) {
    ValidDate(t.date) && 0 <= t.micro < MicrosPerDay
  }

  // ---------------------------------------------------------------------------------------------
  // parse_event_date

  predicate NotComma(c: char) { c != ',' }

  /** `date_str.replace(',', '')`. */
  function RemoveCommas(s: string): string {
    Seqs.Filter(NotComma, s)
  }

  predicate IsDigit(c: char) { '0' <= c <= '9' }

  function DigitValue(c: char): int { c as int - '0' as int }

  /** `%A` of the C locale, matched ignoring case: the weekday's number, Monday being 0. */
  function WeekdayNumber(name: string): Option<int> {
    var n := Lower(name);
    if n == "monday" then Some(0) else if n == "tuesday" then Some(1)
    else if n == "wednesday" then Some(2) else if n == "thursday" then Some(3)
    else if n == "friday" then Some(4) else if n == "saturday" then Some(5)
    else if n == "sunday" then Some(6) else None
  }

  /** `%B` of the C locale, matched ignoring case: the month's number, January being 1. */
  function MonthNumber(name: string): (r: Option<int>)
    ensures r.Some? ==> 1 <= r.value <= 12
  {
    var n := Lower(name);
    if n == "january" then Some(1) else if n == "february" then Some(2)
    else if n == "march" then Some(3) else if n == "april" then Some(4)
    else if n == "may" then Some(5) else if n == "june" then Some(6)
    else if n == "july" then Some(7) else if n == "august" then Some(8)
    else if n == "september" then Some(9) else if n == "october" then Some(10)
    else if n == "november" then Some(11) else if n == "december" then Some(12)
    else None
  }

  /** `%d`, whose pattern is `3[01]|[12]\d|0[1-9]|[1-9]`: one or two digits worth 1 to 31. */
  function ParseDay(field: string): (r: Option<int>)
    ensures r.Some? ==> 1 <= r.value <= 31
  {
    if |field| == 1 && IsDigit(field[0]) && field[0] != '0' then Some(DigitValue(field[0]))
    else if |field| == 2 && IsDigit(field[0]) && IsDigit(field[1])
      && 1 <= 10 * DigitValue(field[0]) + DigitValue(field[1]) <= 31
    then Some(10 * DigitValue(field[0]) + DigitValue(field[1]))
    else None
  }

  /** `%Y`, whose pattern is `\d\d\d\d`: exactly four digits. */
  function ParseYear(field: string): (r: Option<int>)
    ensures r.Some? ==> 0 <= r.value <= 9999
  {
    if |field| == 4 && IsDigit(field[0]) && IsDigit(field[1]) && IsDigit(field[2]) && IsDigit(field[3])
    then Some(1000 * DigitValue(field[0]) + 100 * DigitValue(field[1]) + 10 * DigitValue(field[2]) + DigitValue(field[3]))
    else None
  }

  /** `parse_event_date`: `None` for a missing or empty date string; otherwise the commas are removed
      and the rest must read `Weekday Month Day Year`, fields separated by whitespace, giving a date
      that exists. Year 0 and days past the month's end are refused (`ValueError`, caught). The
      weekday is matched but never checked against the date, and the time string is not used. */
  function ParseEventDate(dateStr: Option<string>, timeStr: Option<string>): (r: Option<Date>)
    ensures r.Some? ==> ValidDate(r.value)
    ensures !Truthy(dateStr) ==> r.None?
  {
    if !Truthy(dateStr) then None
    else
      var fields := Split(RemoveCommas(dateStr.value));
      if |fields| != 4 then None
      else
        match (WeekdayNumber(fields[0]), MonthNumber(fields[1]), ParseDay(fields[2]), ParseYear(fields[3]))
        case (Some(_), Some(m), Some(d), Some(y)) =>
          if 1 <= y && d <= DaysInMonth(y, m) then Some(Date(y, m, d)) else None
        case _ => None
  }

  /** The time string plays no part in the result. */
  lemma ParseIgnoresTime(dateStr: Option<string>, time1: Option<string>, time2: Option<string>)
    ensures ParseEventDate(dateStr, time1) == ParseEventDate(dateStr, time2)
  {
  }

  // ---------------------------------------------------------------------------------------------
  // The site's own date format, and the round trip through parse_event_date.

  function WeekdayName(w: int): string
    requires 0 <= w < 7
  {
    if w == 0 then "Monday" else if w == 1 then "Tuesday" else if w == 2 then "Wednesday"
    else if w == 3 then "Thursday" else if w == 4 then "Friday" else if w == 5 then "Saturday"
    else "Sunday"
  }

  function MonthName(m: int): string
    requires 1 <= m <= 12
  {
    if m == 1 then "January" else if m == 2 then "February" else if m == 3 then "March"
    else if m == 4 then "April" else if m == 5 then "May" else if m == 6 then "June"
    else if m == 7 then "July" else if m == 8 then "August" else if m == 9 then "September"
    else if m == 10 then "October" else if m == 11 then "November" else "December"
  }

  function Digit(k: int): char
    requires 0 <= k <= 9
  {
    ('0' as int + k) as char
  }

  function DayDigits(d: int): string
    requires 1 <= d <= 31
  {
    if d < 10 then [Digit(d)] else [Digit(d / 10), Digit(d % 10)]
  }

  function YearDigits(y: int): string
    requires 0 <= y <= 9999
  {
    var below1000 := y % 1000;
    var below100 := below1000 % 100;
    [Digit(y / 1000), Digit(below1000 / 100), Digit(below100 / 10), Digit(below100 % 10)]
  }

  /** A start or end date as the event pages print it, e.g. "Sunday, January 4, 2026,". */
  function FormatDate(w: int, d: Date): string
    requires 0 <= w < 7 && ValidDate(d)
  {
    WeekdayName(w) + ", " + MonthName(d.month) + " " + DayDigits(d.day) + ", " + YearDigits(d.year) + ","
  }

  predicate PlainField(s: string) {
    IsWord(s) && forall i :: 0 <= i < |s| ==> s[i] != ','
  }

  lemma WeekdayNameIsField(w: int)
    requires 0 <= w < 7
    ensures PlainField(WeekdayName(w)) && WeekdayNumber(WeekdayName(w)) == Some(w)
  {
    var n := WeekdayName(w);
    if w == 0 { assert Lower(n) == "monday"; }
    else if w == 1 { assert Lower(n) == "tuesday"; }
    else if w == 2 { assert Lower(n) == "wednesday"; }
    else if w == 3 { assert Lower(n) == "thursday"; }
    else { LateWeekdayNameIsField(w); }
  }

  lemma LateWeekdayNameIsField(w: int)
    requires 4 <= w < 7
    ensures PlainField(WeekdayName(w)) && WeekdayNumber(WeekdayName(w)) == Some(w)
  {
    var n := WeekdayName(w);
    if w == 4 { assert Lower(n) == "friday"; }
    else if w == 5 { assert Lower(n) == "saturday"; }
    else { assert Lower(n) == "sunday"; }
  }

  lemma MonthNameIsField(m: int)
    requires 1 <= m <= 12
    ensures PlainField(MonthName(m)) && MonthNumber(MonthName(m)) == Some(m)
  {
    var n := MonthName(m);
    if m <= 4 {
      if m == 1 { assert Lower(n) == "january"; }
      else if m == 2 { assert Lower(n) == "february"; }
      else if m == 3 { assert Lower(n) == "march"; }
      else { assert Lower(n) == "april"; }
    } else if m <= 8 {
      LaterMonthNameIsField(m);
    } else {
      LastMonthNameIsField(m);
    }
  }

  lemma LaterMonthNameIsField(m: int)
    requires 5 <= m <= 8
    ensures PlainField(MonthName(m)) && MonthNumber(MonthName(m)) == Some(m)
  {
    var n := MonthName(m);
    if m == 5 { assert Lower(n) == "may"; }
    else if m == 6 { assert Lower(n) == "june"; }
    else if m == 7 { assert Lower(n) == "july"; }
    else { assert Lower(n) == "august"; }
  }

  lemma LastMonthNameIsField(m: int)
    requires 9 <= m <= 12
    ensures PlainField(MonthName(m)) && MonthNumber(MonthName(m)) == Some(m)
  {
    var n := MonthName(m);
    if m == 9 { assert Lower(n) == "september"; }
    else if m == 10 { assert Lower(n) == "october"; }
    else { YearEndMonthNameIsField(m); }
  }

  lemma YearEndMonthNameIsField(m: int)
    requires 11 <= m <= 12
    ensures PlainField(MonthName(m)) && MonthNumber(MonthName(m)) == Some(m)
  {
    var n := MonthName(m);
    if m == 11 { assert Lower(n) == "november"; }
    else { assert Lower(n) == "december"; }
  }

  lemma DayDigitsParse(d: int)
    requires 1 <= d <= 31
    ensures PlainField(DayDigits(d)) && ParseDay(DayDigits(d)) == Some(d)
  {
  }

  lemma YearDigitsParse(y: int)
    requires 0 <= y <= 9999
    ensures PlainField(YearDigits(y)) && ParseYear(YearDigits(y)) == Some(y)
  {
    var below1000 := y % 1000;
    var below100 := below1000 % 100;
    assert y == 1000 * (y / 1000) + below1000;
    assert below1000 == 100 * (below1000 / 100) + below100;
    assert below100 == 10 * (below100 / 10) + below100 % 10;
  }

  lemma RemoveCommasOfSeparator(sep: string)
    requires sep == ", " || sep == " " || sep == ","
    ensures RemoveCommas(sep) == if sep == "," then "" else " "
  {
    if sep == ", " {
      assert sep[..1] == ",";
      assert RemoveCommas(sep) == RemoveCommas(",") + [' '];
    }
  }

  lemma RemoveCommasOf(a: string, sep: string, rest: string)
    requires PlainField(a) && (sep == ", " || sep == " ")
    ensures RemoveCommas(a + (sep + rest)) == a + (" " + RemoveCommas(rest))
  {
    Seqs.FilterConcat(NotComma, a, sep + rest);
    Seqs.FilterConcat(NotComma, sep, rest);
    Seqs.FilterNoneOrAll(NotComma, a);
    RemoveCommasOfSeparator(sep);
  }

  lemma JoinFour(a: string, b: string, c: string, e: string)
    ensures Join([a, b, c, e]) == a + (" " + (b + (" " + (c + (" " + e)))))
  {
    assert [a, b, c, e][1..] == [b, c, e] && [b, c, e][1..] == [c, e] && [c, e][1..] == [e];
    assert Join([e]) == e;
    assert Join([c, e]) == c + " " + e;
    assert Join([b, c, e]) == b + " " + (c + " " + e);
    assert Join([a, b, c, e]) == a + " " + (b + " " + (c + " " + e));
  }

  lemma RemoveCommasLayout(a: string, b: string, c: string, e: string)
    requires PlainField(a) && PlainField(b) && PlainField(c) && PlainField(e)
    ensures RemoveCommas(a + ", " + b + " " + c + ", " + e + ",") == a + (" " + (b + (" " + (c + (" " + e)))))
  {
    assert RemoveCommas(e + ",") == e by {
      Seqs.FilterConcat(NotComma, e, ",");
      Seqs.FilterNoneOrAll(NotComma, e);
      RemoveCommasOfSeparator(",");
    }
    RemoveCommasOf(c, ", ", e + ",");
    RemoveCommasOf(b, " ", c + (", " + (e + ",")));
    RemoveCommasOf(a, ", ", b + (" " + (c + (", " + (e + ",")))));
    assert a + ", " + b + " " + c + ", " + e + "," == a + (", " + (b + (" " + (c + (", " + (e + ","))))));
  }

  /** The printed layout "A, B C, D," without its commas splits into the four fields. */
  lemma LayoutFields(a: string, b: string, c: string, e: string)
    requires PlainField(a) && PlainField(b) && PlainField(c) && PlainField(e)
    ensures Split(RemoveCommas(a + ", " + b + " " + c + ", " + e + ",")) == [a, b, c, e]
  {
    RemoveCommasLayout(a, b, c, e);
    JoinFour(a, b, c, e);
    SplitJoin([a, b, c, e]);
  }

  /** A printed date, its commas removed, splits into its four fields. */
  lemma FormattedFields(w: int, d: Date)
    requires 0 <= w < 7 && ValidDate(d)
    ensures Split(RemoveCommas(FormatDate(w, d)))
      == [WeekdayName(w), MonthName(d.month), DayDigits(d.day), YearDigits(d.year)]
  {
    WeekdayNameIsField(w);
    MonthNameIsField(d.month);
    DayDigitsParse(d.day);
    YearDigitsParse(d.year);
    LayoutFields(WeekdayName(w), MonthName(d.month), DayDigits(d.day), YearDigits(d.year));
  }

  /** Parsing a date printed in the site's format gives that date back, whatever weekday is printed
      beside it and whatever the time string says. */
  lemma ParseFormatted(w: int, d: Date, timeStr: Option<string>)
    requires 0 <= w < 7 && ValidDate(d)
    ensures ParseEventDate(Some(FormatDate(w, d)), timeStr) == Some(d)
  {
    FormattedFields(w, d);
    WeekdayNameIsField(w);
    MonthNameIsField(d.month);
    DayDigitsParse(d.day);
    YearDigitsParse(d.year);
  }

  // ---------------------------------------------------------------------------------------------
  // Calendar order, the next day, and day numbers.

  /** Python's comparison of dates: by year, then month, then day. */
  predicate DateLess(a: Date, b: Date) {
    a.year < b.year || (a.year == b.year && (a.month < b.month || (a.month == b.month && a.day < b.day)))
  }

  predicate DateLeq(a: Date, b: Date) {
    a == b || DateLess(a, b)
  }

  /** Python's comparison of naive datetimes: by date, then time of day. */
  predicate DateTimeLeq(a: DateTime, b: DateTime) {
    DateLess(a.date, b.date) || (a.date == b.date && a.micro <= b.micro)
  }

  function Midnight(d: Date): DateTime {
    DateTime(d, 0)
  }

  predicate IsMaxDate(d: Date) {
    d == Date(9999, 12, 31)
  }

  /** `d + timedelta(days=1)` for a date before 9999-12-31. */
  function NextDay(d: Date): Date
    requires ValidDate(d)
  {
    if d.day < DaysInMonth(d.year, d.month) then Date(d.year, d.month, d.day + 1)
    else if d.month < 12 then Date(d.year, d.month + 1, 1)
    else Date(d.year + 1, 1, 1)
  }

  function DaysBeforeYear(y: int): int
    requires y >= 1
    decreases y
  {
    if y == 1 then 0 else DaysBeforeYear(y - 1) + DaysInYear(y - 1)
  }

  function DaysBeforeMonth(y: int, m: int): int
    requires 1 <= m <= 12
  {
    (if m == 1 then 0 else if m == 2 then 31 else if m == 3 then 59 else if m == 4 then 90
     else if m == 5 then 120 else if m == 6 then 151 else if m == 7 then 181 else if m == 8 then 212
     else if m == 9 then 243 else if m == 10 then 273 else if m == 11 then 304 else 334)
    + (if m > 2 && IsLeapYear(y) then 1 else 0)
  }

  /** The day number `date.toordinal()`: 0001-01-01 is day 1. */
  function Ordinal(d: Date): int
    requires ValidDate(d)
  {
    DaysBeforeYear(d.year) + DaysBeforeMonth(d.year, d.month) + d.day
  }

  /** The instant as a count of microseconds on the same scale. */
  function Ticks(t: DateTime): int
    requires ValidDateTime(t)
  {
    Ordinal(t.date) * MicrosPerDay + t.micro
  }

  lemma {:induction false} YearsAdvance(y1: int, y2: int)
    requires 1 <= y1 < y2
    ensures DaysBeforeYear(y1) + DaysInYear(y1) <= DaysBeforeYear(y2)
    decreases y2
  {
    if y2 > y1 + 1 {
      YearsAdvance(y1, y2 - 1);
    }
  }

  lemma MonthsAdvance(y: int, m1: int, m2: int)
    requires 1 <= m1 < m2 <= 12
    ensures DaysBeforeMonth(y, m1) + DaysInMonth(y, m1) <= DaysBeforeMonth(y, m2)
  {
  }

  /** Day numbers grow strictly with the calendar order. */
  lemma OrdinalMonotone(a: Date, b: Date)
    requires ValidDate(a) && ValidDate(b) && DateLess(a, b)
    ensures Ordinal(a) < Ordinal(b)
  {
    if a.year < b.year {
      YearsAdvance(a.year, b.year);
      assert DaysBeforeMonth(a.year, a.month) + a.day <= DaysInYear(a.year);
    } else if a.month < b.month {
      MonthsAdvance(a.year, a.month, b.month);
    }
  }

  /** Comparing dates field by field, as Python does, is comparing their day numbers. */
  lemma OrdinalOrder(a: Date, b: Date)
    requires ValidDate(a) && ValidDate(b)
    ensures DateLeq(a, b) <==> Ordinal(a) <= Ordinal(b)
  {
    if DateLess(a, b) {
      OrdinalMonotone(a, b);
    } else if DateLess(b, a) {
      OrdinalMonotone(b, a);
    }
  }

  /** The next day is a valid date one day number later. */
  lemma NextDayOrdinal(d: Date)
    requires ValidDate(d) && !IsMaxDate(d)
    ensures ValidDate(NextDay(d)) && Ordinal(NextDay(d)) == Ordinal(d) + 1
  {
  }

  /** Comparing date-times field by field is comparing their microsecond counts. */
  lemma TicksOrder(a: DateTime, b: DateTime)
    requires ValidDateTime(a) && ValidDateTime(b)
    ensures DateTimeLeq(a, b) <==> Ticks(a) <= Ticks(b)
  {
    OrdinalOrder(a.date, b.date);
    if DateLess(a.date, b.date) {
      OrdinalMonotone(a.date, b.date);
    } else if DateLess(b.date, a.date) {
      OrdinalMonotone(b.date, a.date);
    }
  }

  // ---------------------------------------------------------------------------------------------
  // is_event_ongoing

  /** `is_event_ongoing`: both bounds must parse, otherwise the event is not ongoing; with both, it
      is ongoing when midnight of the start day <= now <= midnight of the day after the end day.
      Adding that day to 9999-12-31 raises `OverflowError`, which this function does not catch. */
  function IsEventOngoing(startDate: Option<string>, startTime: Option<string>,
                          endDate: Option<string>, endTime: Option<string>, now: DateTime): (r: Result<bool, string>)
    ensures ParseEventDate(startDate, startTime).None? || ParseEventDate(endDate, endTime).None? ==> r == Ok(false)
    ensures r.Err? ==> r.error == OverflowMessage
  {
    var start, end := ParseEventDate(startDate, startTime), ParseEventDate(endDate, endTime);
    if start.Some? && end.Some? then
      if IsMaxDate(end.value) then Err(OverflowMessage)
      else Ok(DateTimeLeq(Midnight(start.value), now) && DateTimeLeq(now, Midnight(NextDay(end.value))))
    else Ok(false)
  }

  /** With both bounds parsed, the check is `start <= now <= end + 1 day` on the day-number scale,
      or the overflow error when the end is the last representable day. */
  lemma OngoingByDayNumber(startDate: Option<string>, startTime: Option<string>,
                           endDate: Option<string>, endTime: Option<string>, now: DateTime)
    requires ValidDateTime(now)
    requires ParseEventDate(startDate, startTime).Some? && ParseEventDate(endDate, endTime).Some?
    ensures var s, e := ParseEventDate(startDate, startTime).value, ParseEventDate(endDate, endTime).value;
      IsEventOngoing(startDate, startTime, endDate, endTime, now) ==
        if IsMaxDate(e) then Err(OverflowMessage)
        else Ok(Ordinal(s) * MicrosPerDay <= Ticks(now) <= (Ordinal(e) + 1) * MicrosPerDay)
  {
    var s, e := ParseEventDate(startDate, startTime).value, ParseEventDate(endDate, endTime).value;
    if !IsMaxDate(e) {
      NextDayOrdinal(e);
      TicksOrder(Midnight(s), now);
      TicksOrder(now, Midnight(NextDay(e)));
    }
  }

  /** The same check in calendar terms: the event is ongoing from the start day through the whole
      end day, and at the single instant of midnight after it (the one-day grace). */
  lemma OngoingByCalendar(startDate: Option<string>, startTime: Option<string>,
                          endDate: Option<string>, endTime: Option<string>, now: DateTime)
    requires ValidDateTime(now)
    requires ParseEventDate(startDate, startTime).Some? && ParseEventDate(endDate, endTime).Some?
    requires !IsMaxDate(ParseEventDate(endDate, endTime).value)
    ensures var s, e := ParseEventDate(startDate, startTime).value, ParseEventDate(endDate, endTime).value;
      IsEventOngoing(startDate, startTime, endDate, endTime, now) ==
        Ok(DateLeq(s, now.date) && (DateLeq(now.date, e) || now == Midnight(NextDay(e))))
  {
    var s, e := ParseEventDate(startDate, startTime).value, ParseEventDate(endDate, endTime).value;
    NextDayOrdinal(e);
    OrdinalOrder(now.date, e);
    OrdinalOrder(now.date, NextDay(e));
    OrdinalOrder(NextDay(e), now.date);
  }
}
