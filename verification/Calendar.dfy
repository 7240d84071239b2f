/** The proleptic Gregorian calendar, as package time computes it in UTC.
    Days are counted from 0000-01-01 and instants are seconds from that midnight. */
module Calendar {
  import opened Text

  const SECONDS_PER_DAY := 86400

  datatype Civil = Civil(year: int, month: int, day: int)

  predicate IsLeap(y: int) {
    y % 4 == 0 && (y % 100 != 0 || y % 400 == 0)
  }

  /** Days from 0000-01-01 to the first of January of year y. */
  function DaysBeforeYear(y: int): int {
    365 * y + (y + 3) / 4 - (y + 99) / 100 + (y + 399) / 400
  }

  lemma YearLength(y: int)
    ensures DaysBeforeYear(y + 1) == DaysBeforeYear(y) + (if IsLeap(y) then 366 else 365)
  {
    FourthYears(y);
    Centuries(y);
    FourthCenturies(y);
  }

  lemma FourthYears(y: int)
    ensures (y + 4) / 4 == (y + 3) / 4 + if y % 4 == 0 then 1 else 0
  {
  }

  lemma Centuries(y: int)
    ensures (y + 100) / 100 == (y + 99) / 100 + if y % 100 == 0 then 1 else 0
    ensures y % 100 == 0 ==> y % 4 == 0
  {
  }

  lemma FourthCenturies(y: int)
    ensures (y + 400) / 400 == (y + 399) / 400 + if y % 400 == 0 then 1 else 0
    ensures y % 400 == 0 ==> y % 100 == 0
  {
  }

  lemma YearsAreOrdered(x: int, y: int)
    requires x < y
    ensures DaysBeforeYear(x + 1) <= DaysBeforeYear(y)
  {
  }

  /** Days before month m of a year; month 13 stands for the end of the year. */
  function DaysBeforeMonth(leap: bool, m: int): int
    requires 1 <= m <= 13
  {
    [0, 31, 59, 90, 120, 151, 181, 212, 243, 273, 304, 334, 365][m - 1] + if leap && m > 2 then 1 else 0
  }

  predicate IsDate(c: Civil) {
    && 1 <= c.month <= 12
    && 1 <= c.day <= DaysBeforeMonth(IsLeap(c.year), c.month + 1) - DaysBeforeMonth(IsLeap(c.year), c.month)
  }

  /** The day number of a date. The day of month may lie outside the month: it is simply added. */
  function DayOf(c: Civil): int
    requires 1 <= c.month <= 12
  {
    DaysBeforeYear(c.year) + DaysBeforeMonth(IsLeap(c.year), c.month) + c.day - 1
  }

  /** The year a day falls in: an estimate from the mean year length, off by at most one. */
  function YearOf(d: int): (y: int)
    ensures DaysBeforeYear(y) <= d < DaysBeforeYear(y + 1)
  {
    var q := 400 * d / 146097;
    if d < DaysBeforeYear(q) then q - 1 else if d >= DaysBeforeYear(q + 1) then q + 1 else q
  }

  function MonthOf(leap: bool, yearDay: int): (m: int)
    requires 0 <= yearDay < DaysBeforeMonth(leap, 13)
    ensures 1 <= m <= 12
    ensures DaysBeforeMonth(leap, m) <= yearDay < DaysBeforeMonth(leap, m + 1) <= DaysBeforeMonth(leap, m) + 31
  {
    if yearDay < DaysBeforeMonth(leap, 4) then
      if yearDay < 31 then 1 else if yearDay < DaysBeforeMonth(leap, 3) then 2 else 3
    else if yearDay < DaysBeforeMonth(leap, 7) then
      if yearDay < DaysBeforeMonth(leap, 5) then 4 else if yearDay < DaysBeforeMonth(leap, 6) then 5 else 6
    else if yearDay < DaysBeforeMonth(leap, 10) then
      if yearDay < DaysBeforeMonth(leap, 8) then 7 else if yearDay < DaysBeforeMonth(leap, 9) then 8 else 9
    else
      if yearDay < DaysBeforeMonth(leap, 11) then 10 else if yearDay < DaysBeforeMonth(leap, 12) then 11 else 12
  }

  /** The date of a day number: the inverse of DayOf, by DateOfDay and DayOfDate. */
  function DateOf(d: int): (c: Civil)
    ensures IsDate(c) && DayOf(c) == d
    ensures c.month <= 12 && c.day <= 31
  {
    var y := YearOf(d);
    YearLength(y);
    var yearDay := d - DaysBeforeYear(y);
    var m := MonthOf(IsLeap(y), yearDay);
    Civil(y, m, yearDay - DaysBeforeMonth(IsLeap(y), m) + 1)
  }

  lemma DateWithinYear(c: Civil)
    requires IsDate(c)
    ensures DaysBeforeYear(c.year) <= DayOf(c) < DaysBeforeYear(c.year + 1)
  {
    YearLength(c.year);
  }

  /** No two dates share a day number. */
  lemma DatesAreDistinct(a: Civil, b: Civil)
    requires IsDate(a) && IsDate(b) && DayOf(a) == DayOf(b)
    ensures a == b
  {
    DateWithinYear(a);
    DateWithinYear(b);
    if a.year < b.year {
      YearsAreOrdered(a.year, b.year);
    } else if b.year < a.year {
      YearsAreOrdered(b.year, a.year);
    } else {
      MonthsAreOrdered(IsLeap(a.year), a, b);
      MonthsAreOrdered(IsLeap(a.year), b, a);
    }
  }

  /** Going from a date to its day number and back is the identity. */
  lemma DateOfDay(c: Civil)
    requires IsDate(c)
    ensures DateOf(DayOf(c)) == c
  {
    DatesAreDistinct(DateOf(DayOf(c)), c);
  }

  /** Dates are ordered as days are: first by month, counted from year zero, then by day. */
  lemma MonthsRespectTime(d: int, e: int)
    requires d <= e
    ensures DateOf(d).year <= DateOf(e).year
    ensures 12 * DateOf(d).year + DateOf(d).month <= 12 * DateOf(e).year + DateOf(e).month
  {
    var a, b := DateOf(d), DateOf(e);
    DateWithinYear(a);
    DateWithinYear(b);
    if b.year < a.year {
      YearsAreOrdered(b.year, a.year);
      assert false;
    } else if a.year == b.year {
      MonthsAreOrdered(IsLeap(a.year), a, b);
    }
  }

  lemma MonthsAreOrdered(leap: bool, a: Civil, b: Civil)
    requires IsDate(a) && IsDate(b) && IsLeap(a.year) == IsLeap(b.year) == leap
    requires DaysBeforeMonth(leap, a.month) + a.day <= DaysBeforeMonth(leap, b.month) + b.day
    ensures a.month <= b.month
  {
  }

  // ---- ISO 8601 weeks ----

  /** Day 2 is a Monday, so this numbers the Monday-to-Sunday weeks in order. */
  function WeekOf(d: int): int {
    (d - 2) / 7
  }

  /** The Thursday of a day's week. ISO 8601:2004, 2.2.10: it decides the year the week belongs to. */
  function ThursdayOf(d: int): (t: int)
    ensures WeekOf(t) == WeekOf(d) && t % 7 == 5
  {
    7 * WeekOf(d) + 5
  }

  function IsoYear(d: int): int {
    YearOf(ThursdayOf(d))
  }

  function IsoWeek(d: int): (w: int)
    ensures 1 <= w <= 53
  {
    YearLength(IsoYear(d));
    (ThursdayOf(d) - DaysBeforeYear(IsoYear(d))) / 7 + 1
  }

  /** The week year and week number name one Monday-to-Sunday week, also across a year end. */
  lemma IsoWeekNamesOneWeek(d: int, e: int)
    ensures WeekOf(d) == WeekOf(e) <==> IsoYear(d) == IsoYear(e) && IsoWeek(d) == IsoWeek(e)
  {
    if IsoYear(d) == IsoYear(e) && IsoWeek(d) == IsoWeek(e) {
      var s, t := ThursdayOf(d), ThursdayOf(e);
      assert s / 7 == WeekOf(d) && t / 7 == WeekOf(e);
    }
  }

  // ---- instants ----

  /** time.Date in UTC: a month outside 1..12 moves the year, everything else carries upwards. */
  function InstantOf(year: int, month: int, day: int, hour: int, minute: int, second: int): int {
    var first := DayOf(Civil(year + (month - 1) / 12, (month - 1) % 12 + 1, 1));
    (first + day - 1) * SECONDS_PER_DAY + 3600 * hour + 60 * minute + second
  }

  function DayOfInstant(t: int): int {
    t / SECONDS_PER_DAY
  }

  function SecondOfDay(t: int): (s: int)
    ensures 0 <= s < SECONDS_PER_DAY
  {
    t % SECONDS_PER_DAY
  }

  /** An instant's own calendar fields denote that instant. */
  lemma FieldsDenoteInstant(t: int)
    ensures var c, s := DateOf(DayOfInstant(t)), SecondOfDay(t);
            InstantOf(c.year, c.month, c.day, s / 3600, s / 60 % 60, s % 60) == t
  {
    var c, s := DateOf(DayOfInstant(t)), SecondOfDay(t);
    ClockFields(s);
    InstantOfDate(c, s / 3600, s / 60 % 60, s % 60);
    assert DayOf(c) == DayOfInstant(t);
  }

  lemma ClockFields(s: int)
    ensures s == 3600 * (s / 3600) + 60 * (s / 60 % 60) + s % 60
  {
  }

  lemma InstantOfDate(c: Civil, hour: int, minute: int, second: int)
    requires IsDate(c)
    ensures InstantOf(c.year, c.month, c.day, hour, minute, second)
            == DayOf(c) * SECONDS_PER_DAY + 3600 * hour + 60 * minute + second
  {
    assert (c.month - 1) / 12 == 0 && (c.month - 1) % 12 == c.month - 1;
    assert DayOf(Civil(c.year, c.month, 1)) + c.day - 1 == DayOf(c);
  }

  // ---- the printed bucket keys ----

  /** The year as time.Format prints it: four digits or more, after any sign. */
  function YearField(y: int): string {
    if y >= 0 then PadInt(y, 4) else "-" + PadInt(-y, 4)
  }

  /** The year as the verb %04d prints it: the sign takes one of the four places. */
  function WeekYearField(y: int): string {
    if y >= 0 then PadInt(y, 4) else "-" + PadInt(-y, 3)
  }

  lemma SignedFieldsDiffer(x: int, y: int)
    ensures YearField(x) == YearField(y) ==> x == y
    ensures WeekYearField(x) == WeekYearField(y) ==> x == y
  {
    SignedFieldDenotes(x);
    SignedFieldDenotes(y);
  }

  /** What a signed decimal field denotes. */
  function SignedValue(s: string): int
    requires s != "" && (AllDigits(s) || (s[0] == '-' && AllDigits(s[1..])))
  {
    if s[0] == '-' then 0 - NumberOf(s[1..]) else NumberOf(s)
  }

  lemma SignedFieldDenotes(y: int)
    ensures var s := YearField(y);
            s != "" && (AllDigits(s) || (s[0] == '-' && AllDigits(s[1..]))) && SignedValue(s) == y
    ensures var s := WeekYearField(y);
            s != "" && (AllDigits(s) || (s[0] == '-' && AllDigits(s[1..]))) && SignedValue(s) == y
  {
    if y < 0 {
      assert YearField(y)[1..] == PadInt(-y, 4);
      assert WeekYearField(y)[1..] == PadInt(-y, 3);
    } else {
      assert |PadInt(y, 4)| >= 4;
      assert IsDigit(PadInt(y, 4)[0]);
    }
  }
}
