/** What is known of the calendar and of archive names otherwise: leap years, month lengths, weekdays, ISO 8601 weeks,
    the carrying of time.Date, and the names of backup/retention.go piece by piece. */
module CalendarFacts {
  import opened Wrappers
  import opened Text
  import opened Calendar
  import opened ArchiveNames

  // ---- years and months ----

  lemma KnownYears()
    ensures IsLeap(2000) && IsLeap(2024) && IsLeap(0) && !IsLeap(1900) && !IsLeap(2100) && !IsLeap(2023)
  {
  }

  /** Four centuries have 97 leap days. */
  lemma FourCenturies(y: int)
    ensures DaysBeforeYear(y + 400) == DaysBeforeYear(y) + 400 * 365 + 97
    ensures IsLeap(y + 400) == IsLeap(y)
  {
    assert (y + 400 + 3) / 4 == (y + 3) / 4 + 100;
    assert (y + 400 + 99) / 100 == (y + 99) / 100 + 4;
    assert (y + 400) % 4 == y % 4 && (y + 400) % 100 == y % 100 && (y + 400) % 400 == y % 400;
  }

  /** Thirty days have April, June, September and November; February has 28 or 29, and the rest have 31. */
  lemma MonthLengths(leap: bool, m: int)
    requires 1 <= m <= 12
    ensures DaysBeforeMonth(leap, 1) == 0
    ensures DaysBeforeMonth(leap, m + 1) - DaysBeforeMonth(leap, m)
            == if m == 2 then (if leap then 29 else 28) else if m == 4 || m == 6 || m == 9 || m == 11 then 30 else 31
  {
  }

  // ---- weeks ----

  /** The first of January 1970 was a Thursday, and weeks go on from there. */
  lemma Weekdays(d: int)
    ensures DayOf(Civil(1970, 1, 1)) == 719_528
    ensures WeekOf(d) == WeekOf(d + 1) <==> (d - 719_528) % 7 != 3
    ensures WeekOf(d + 7) == WeekOf(d) + 1
  {
  }

  lemma WeeksDivide(x: int)
    ensures (x + 7) / 7 == x / 7 + 1
  {
  }

  /** The fourth of January lies in the first week of its year. */
  lemma JanuaryFourth(y: int)
    ensures var d := DayOf(Civil(y, 1, 4)); IsoYear(d) == y && IsoWeek(d) == 1
  {
    var d, first := DayOf(Civil(y, 1, 4)), DaysBeforeYear(y);
    var t := ThursdayOf(d);
    YearLength(y);
    assert d == first + 3;
    assert first <= t <= first + 6;
    YearIs(t, y);
  }

  lemma YearIs(d: int, y: int)
    requires DaysBeforeYear(y) <= d < DaysBeforeYear(y + 1)
    ensures YearOf(d) == y
  {
    var z := YearOf(d);
    if z < y {
      YearsAreOrdered(z, y);
    } else if y < z {
      YearsAreOrdered(y, z);
    }
  }

  lemma ThursdayAWeekOn(d: int)
    ensures ThursdayOf(d + 7) == ThursdayOf(d) + 7
  {
    WeeksDivide(d - 2);
  }

  /** A week on from a day of a year that begins at first, ends at next and is followed by one that ends at last. */
  lemma AWeekOn(t: int, first: int, next: int, last: int)
    requires first <= t < next && next + 365 <= last
    ensures if t + 7 < next then first <= t + 7 else next <= t + 7 < last && (t + 7 - next) / 7 == 0
  {
  }

  lemma NextYearIsLong(y: int)
    ensures DaysBeforeYear(y + 1) + 365 <= DaysBeforeYear(y + 2)
  {
    YearLength(y + 1);
  }

  /** The year of the Thursday a week on. */
  lemma YearAWeekOn(t: int, y: int)
    requires DaysBeforeYear(y) <= t < DaysBeforeYear(y + 1)
    ensures t + 7 < DaysBeforeYear(y + 1) ==> YearOf(t + 7) == y
    ensures t + 7 >= DaysBeforeYear(y + 1) ==> YearOf(t + 7) == y + 1 && (t + 7 - DaysBeforeYear(y + 1)) / 7 == 0
  {
    var next := DaysBeforeYear(y + 1);
    NextYearIsLong(y);
    AWeekOn(t, DaysBeforeYear(y), next, DaysBeforeYear(y + 2));
    if t + 7 < next {
      YearIs(t + 7, y);
    } else {
      YearIs(t + 7, y + 1);
    }
  }

  lemma IsoWeekIs(d: int, t: int, y: int)
    requires t == ThursdayOf(d) && y == YearOf(t)
    ensures IsoYear(d) == y && IsoWeek(d) == (t - DaysBeforeYear(y)) / 7 + 1
  {
  }

  lemma NextNumber(t: int, first: int, next: int, same: bool, a: int, b: int)
    requires a == (t - first) / 7 + 1 && b == (t + 7 - if same then first else next) / 7 + 1
    requires !same ==> (t + 7 - next) / 7 == 0
    ensures b == if same then a + 1 else 1
  {
    WeeksDivide(t - first);
    assert t + 7 - first == (t - first) + 7;
  }

  /** From week to week the number goes up by one, or starts again in the next year. */
  lemma NextWeek(d: int)
    ensures if IsoYear(d + 7) == IsoYear(d) then IsoWeek(d + 7) == IsoWeek(d) + 1
            else IsoYear(d + 7) == IsoYear(d) + 1 && IsoWeek(d + 7) == 1
  {
    var t := ThursdayOf(d);
    var y, z := YearOf(t), YearOf(t + 7);
    ThursdayAWeekOn(d);
    IsoWeekIs(d, t, y);
    IsoWeekIs(d + 7, t + 7, z);
    YearAWeekOn(t, y);
    NextNumber(t, DaysBeforeYear(y), DaysBeforeYear(y + 1), z == y, IsoWeek(d), IsoWeek(d + 7));
  }

  // ---- instants ----

  /** Whatever time.Date is given carries: a second more is a second later, an hour more is an hour later, a day more is
      a day later, and twelve months more are a year. */
  lemma FieldsCarry(year: int, month: int, day: int, hour: int, minute: int, second: int)
    ensures InstantOf(year, month, day, hour, minute, second + 1)
            == InstantOf(year, month, day, hour, minute, second) + 1
    ensures InstantOf(year, month, day, hour, minute + 1, second)
         == InstantOf(year, month, day, hour, minute, second) + 60
    ensures InstantOf(year, month, day, hour + 1, minute, second)
         == InstantOf(year, month, day, hour, minute, second) + 3600
    ensures InstantOf(year, month, day + 1, hour, minute, second)
         == InstantOf(year, month, day, hour, minute, second) + 86_400
  {
  }

  lemma MonthsCarry(year: int, month: int, day: int, hour: int, minute: int, second: int)
    ensures InstantOf(year, month + 12, day, hour, minute, second)
         == InstantOf(year + 1, month, day, hour, minute, second)
  {
    assert (month + 12 - 1) / 12 == (month - 1) / 12 + 1 && (month + 12 - 1) % 12 == (month - 1) % 12;
  }

  // ---- names ----

  /** The pieces of an archive's name: prefix, date, clock and extension. */
  ghost predicate IsNamed(name: string, date: seq<string>, clock: seq<string>, zip: bool) {
    && |date| == 3 && |clock| == 3 && |date[0]| == 4 && |date[1]| == 2 && |date[2]| == 2
    && |clock[0]| == 2 && |clock[1]| == 2 && |clock[2]| == 2
    && AllDigits(date[0]) && AllDigits(date[1]) && AllDigits(date[2])
    && AllDigits(clock[0]) && AllDigits(clock[1]) && AllDigits(clock[2])
    && name == "vlessvmorectl-" + (date[0] + date[1] + date[2] + "_" + clock[0] + clock[1] + clock[2])
               + if zip then ".zip" else ".tgz"
  }

  /** A name of that shape is dated by its pieces. */
  lemma NameIsDatedByItsPieces(name: string, date: seq<string>, clock: seq<string>, zip: bool)
    requires IsNamed(name, date, clock, zip)
    ensures DateFromName(name)
            == Some(InstantOf(NumberOf(date[0]), NumberOf(date[1]), NumberOf(date[2]),
                              NumberOf(clock[0]), NumberOf(clock[1]), NumberOf(clock[2])))
  {
    PiecesOfName("vlessvmorectl-", date[0], date[1], date[2], clock[0], clock[1], clock[2],
                 if zip then ".zip" else ".tgz");
  }

  /** And no other name is dated. */
  lemma OnlySuchNamesAreDated(name: string) returns (date: seq<string>, clock: seq<string>, zip: bool)
    requires DateFromName(name).Some?
    ensures IsNamed(name, date, clock, zip)
  {
    date, clock := [name[14..18], name[18..20], name[20..22]], [name[23..25], name[25..27], name[27..29]];
    zip := name[29..] == ".zip";
    var middle := date[0] + date[1] + date[2] + "_" + clock[0] + clock[1] + clock[2];
    assert middle == name[14..29];
    assert name == name[..14] + name[14..29] + name[29..];
  }

  /** The extension tells whether the archive is encrypted. */
  lemma ExtensionTells(t: int, encrypted: bool)
    ensures var name := ArchiveName(t, encrypted);
            |name| >= 4 && name[|name| - 4..] == if encrypted then ".zip" else ".tgz"
  {
    var ext := if encrypted then ".zip" else ".tgz";
    var name := ArchiveName(t, encrypted);
    var front := name[..|name| - 4];
    assert name == front + ext;
  }
}
