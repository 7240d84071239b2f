/** Archive names and bucket keys: what backup/main.go prints and backup/retention.go reads back. */
module ArchiveNames {
  import opened Wrappers
  import opened Text
  import opened Calendar

  const PREFIX := "vlessvmorectl-"

  // ---- names ----

  /** The layout 20060102_150405, given the printed year. */
  function StampOf(year: string, fields: seq<string>): string
    requires |fields| == 5
  {
    year + fields[0] + fields[1] + "_" + fields[2] + fields[3] + fields[4]
  }

  function ClockFields(c: Civil, second: nat): (fields: seq<string>)
    requires IsDate(c) && second < SECONDS_PER_DAY
    ensures |fields| == 5
    ensures forall i :: 0 <= i < 5 ==> |fields[i]| == 2 && AllDigits(fields[i])
  {
    [TwoDigits(c.month), TwoDigits(c.day), TwoDigits(second / 3600), TwoDigits(second / 60 % 60),
      TwoDigits(second % 60)]
  }

  /** The name of the archive taken at an instant, encrypted or not. */
  function ArchiveName(t: int, encrypted: bool): string {
    var c := DateOf(DayOfInstant(t));
    PREFIX + StampOf(YearField(c.year), ClockFields(c, SecondOfDay(t))) + if encrypted then ".zip" else ".tgz"
  }

  /** The pattern that decides which files belong to this tool. */
  predicate NameMatches(name: string) {
    && |name| == 33
    && name[..14] == PREFIX
    && AllDigits(name[14..22]) && name[22] == '_' && AllDigits(name[23..29])
    && (name[29..] == ".tgz" || name[29..] == ".zip")
  }

  /** The pattern that dates a file: its six groups of digits, if the name has that shape. */
  function DateGroups(name: string): (r: Option<seq<string>>)
    ensures r.Some? ==> |r.value| == 6 && forall i :: 0 <= i < 6 ==> AllDigits(r.value[i])
  {
    if |name| != 33 || name[..14] != PREFIX || name[22] != '_' || !(name[29..] == ".tgz" || name[29..] == ".zip")
      then None
    else
      var g := [name[14..18], name[18..20], name[20..22], name[23..25], name[25..27], name[27..29]];
      if AllDigits(g[0]) && AllDigits(g[1]) && AllDigits(g[2]) && AllDigits(g[3]) && AllDigits(g[4]) && AllDigits(g[5])
      then Some(g)
      else None
  }

  /** The instant a name stands for. Fields beyond their usual range carry, as time.Date does. */
  function DateFromName(name: string): Option<int> {
    match DateGroups(name)
    case None => None
    case Some(g) =>
      Some(InstantOf(NumberOf(g[0]), NumberOf(g[1]), NumberOf(g[2]), NumberOf(g[3]), NumberOf(g[4]), NumberOf(g[5])))
  }

  method ParseDateFromName(name: string) returns (date: Option<int>)
    ensures date == DateFromName(name)
  {
    var groups := DateGroups(name);
    if groups.None? {
      return None;
    }
    var g := groups.value;
    var n: seq<nat> := [];
    for i := 0 to 6
      invariant |n| == i
      invariant forall k :: 0 <= k < i ==> n[k] == NumberOf(g[k])
    {
      var v := 0;
      for j := 0 to |g[i]|
        invariant v == NumberOf(g[i][..j])
      {
        assert g[i][..j + 1][..j] == g[i][..j];
        v := v * 10 + DigitValue(g[i][j]);
      }
      assert g[i][..|g[i]|] == g[i];
      n := n + [v];
    }
    date := Some(InstantOf(n[0], n[1], n[2], n[3], n[4], n[5]));
  }

  lemma DigitsOfParts(s: string, a: string, b: string)
    requires s == a + b
    ensures AllDigits(s) <==> AllDigits(a) && AllDigits(b)
  {
    if AllDigits(s) {
      assert forall i :: 0 <= i < |a| ==> a[i] == s[i];
      assert forall i :: 0 <= i < |b| ==> b[i] == s[|a| + i];
    }
  }

  /** The matching pattern and the dating pattern accept the same names. */
  lemma PatternsAgree(name: string)
    ensures NameMatches(name) <==> DateGroups(name).Some?
  {
    if |name| == 33 {
      DigitsOfParts(name[14..22], name[14..18], name[18..22]);
      DigitsOfParts(name[18..22], name[18..20], name[20..22]);
      DigitsOfParts(name[23..29], name[23..25], name[25..29]);
      DigitsOfParts(name[25..29], name[25..27], name[27..29]);
    }
  }

  /** Where the parts of a printed name lie. */
  lemma PiecesOfName(prefix: string, y: string, a: string, b: string, c: string, d: string, e: string, ext: string)
    requires |prefix| == 14 && |y| == 4 && |a| == |b| == |c| == |d| == |e| == 2 && |ext| == 4
    ensures var name := prefix + (y + a + b + "_" + c + d + e) + ext;
            && name[..14] == prefix && name[14..18] == y && name[18..20] == a && name[20..22] == b
            && name[22] == '_' && name[23..25] == c && name[25..27] == d && name[27..29] == e && name[29..] == ext
  {
    var date, clock := y + a + b, c + d + e;
    var name := prefix + (date + "_" + clock) + ext;
    assert y + a + b + "_" + c + d + e == date + "_" + clock;
    assert name[14..22] == date && name[23..29] == clock;
    assert date[..4] == y && date[4..6] == a && date[6..8] == b;
    assert clock[..2] == c && clock[2..4] == d && clock[4..6] == e;
  }

  lemma GroupsOfPrintedName(year: string, f: seq<string>, ext: string)
    requires |f| == 5 && forall i :: 0 <= i < 5 ==> |f[i]| == 2 && AllDigits(f[i])
    requires ext == ".tgz" || ext == ".zip"
    ensures |year| == 4 && AllDigits(year) ==> DateGroups(PREFIX + StampOf(year, f) + ext) == Some([year] + f)
    ensures |year| != 4 ==> DateGroups(PREFIX + StampOf(year, f) + ext).None?
  {
    var name := PREFIX + StampOf(year, f) + ext;
    assert |StampOf(year, f)| == |year| + 11;
    if |year| == 4 && AllDigits(year) {
      var pieces := [name[14..18], name[18..20], name[20..22], name[23..25], name[25..27], name[27..29]];
      PiecesOfName(PREFIX, year, f[0], f[1], f[2], f[3], f[4], ext);
      assert pieces == [year] + f;
    }
  }

  lemma YearFieldWidth(y: int)
    ensures 0 <= y <= 9999 ==> |YearField(y)| == 4 && AllDigits(YearField(y)) && NumberOf(YearField(y)) == y
    ensures !(0 <= y <= 9999) ==> |YearField(y)| > 4
  {
    assert Pow10(4) == 10000;
  }

  /** A name printed for an instant is recognised, and reads back as that instant, exactly in the years 0 to 9999. */
  lemma PrintedNameReadsBack(t: int, encrypted: bool)
    ensures var r := DateFromName(ArchiveName(t, encrypted));
            if 0 <= DateOf(DayOfInstant(t)).year <= 9999 then r == Some(t) else r == None
  {
    var c, s := DateOf(DayOfInstant(t)), SecondOfDay(t);
    YearFieldWidth(c.year);
    GroupsOfPrintedName(YearField(c.year), ClockFields(c, s), if encrypted then ".zip" else ".tgz");
    FieldsDenoteInstant(t);
  }

  // ---- bucket keys ----

  predicate TwoDigitFields(c: Civil) {
    0 <= c.month < 100 && 0 <= c.day < 100
  }

  function YearMonthKey(c: Civil): string
    requires TwoDigitFields(c)
  {
    YearField(c.year) + "-" + TwoDigits(c.month)
  }

  function DateKey(c: Civil): string
    requires TwoDigitFields(c)
  {
    YearMonthKey(c) + "-" + TwoDigits(c.day)
  }

  function IsoKey(year: int, week: nat): string
    requires week < 100
  {
    WeekYearField(year) + "-W" + TwoDigits(week)
  }

  function DayKey(t: int): string {
    DateKey(DateOf(DayOfInstant(t)))
  }

  function WeekKey(t: int): string {
    IsoKey(IsoYear(DayOfInstant(t)), IsoWeek(DayOfInstant(t)))
  }

  function MonthKey(t: int): string {
    YearMonthKey(DateOf(DayOfInstant(t)))
  }

  lemma SplitSuffix(a: string, x: string, b: string, y: string)
    requires a + x == b + y && |x| == |y|
    ensures a == b && x == y
  {
    assert |a| == |b|;
    assert a == (a + x)[..|a|] && b == (b + y)[..|b|];
    assert x == (a + x)[|a|..] && y == (b + y)[|b|..];
  }

  /** A separator and two digits close every key, so equal keys agree before and after it. */
  lemma SplitTail(a: string, b: string, sep: string, x: nat, y: nat)
    requires x < 100 && y < 100
    requires a + sep + TwoDigits(x) == b + sep + TwoDigits(y)
    ensures a == b && x == y
  {
    SplitSuffix(a + sep, TwoDigits(x), b + sep, TwoDigits(y));
    SplitSuffix(a, sep, b, sep);
    assert NumberOf(TwoDigits(x)) == x && NumberOf(TwoDigits(y)) == y;
  }

  /** Months counted from January of year zero. */
  function MonthNumber(c: Civil): int {
    12 * c.year + c.month
  }

  lemma YearMonthKeyNamesMonth(a: Civil, b: Civil)
    requires TwoDigitFields(a) && TwoDigitFields(b)
    ensures YearMonthKey(a) == YearMonthKey(b) ==> a.year == b.year && a.month == b.month
  {
    if YearMonthKey(a) == YearMonthKey(b) {
      SplitTail(YearField(a.year), YearField(b.year), "-", a.month, b.month);
      SignedFieldsDiffer(a.year, b.year);
    }
  }

  lemma MonthNumberNamesMonth(a: Civil, b: Civil)
    requires 1 <= a.month <= 12 && 1 <= b.month <= 12
    ensures MonthNumber(a) == MonthNumber(b) <==> a.year == b.year && a.month == b.month
  {
  }

  lemma DateKeyNamesDate(a: Civil, b: Civil)
    requires TwoDigitFields(a) && TwoDigitFields(b)
    ensures DateKey(a) == DateKey(b) ==> a == b
  {
    if DateKey(a) == DateKey(b) {
      DateKeySplits(a, b);
      YearMonthKeyNamesMonth(a, b);
    }
  }

  lemma DateKeySplits(a: Civil, b: Civil)
    requires TwoDigitFields(a) && TwoDigitFields(b) && DateKey(a) == DateKey(b)
    ensures YearMonthKey(a) == YearMonthKey(b) && a.day == b.day
  {
    SplitTail(YearMonthKey(a), YearMonthKey(b), "-", a.day, b.day);
  }

  lemma IsoKeyNamesWeek(y: int, w: nat, z: int, v: nat)
    requires w < 100 && v < 100
    ensures IsoKey(y, w) == IsoKey(z, v) ==> y == z && w == v
  {
    if IsoKey(y, w) == IsoKey(z, v) {
      SplitTail(WeekYearField(y), WeekYearField(z), "-W", w, v);
      SignedFieldsDiffer(y, z);
    }
  }

  /** Two instants share a day key exactly when they fall on one day. */
  lemma DayKeyNamesDay(t: int, u: int)
    ensures DayKey(t) == DayKey(u) <==> DayOfInstant(t) == DayOfInstant(u)
  {
    DateKeyNamesDate(DateOf(DayOfInstant(t)), DateOf(DayOfInstant(u)));
  }

  /** Two instants share a week key exactly when they fall in one Monday-to-Sunday week, also across a year end. */
  lemma WeekKeyNamesWeek(t: int, u: int)
    ensures WeekKey(t) == WeekKey(u) <==> WeekOf(DayOfInstant(t)) == WeekOf(DayOfInstant(u))
  {
    var d, e := DayOfInstant(t), DayOfInstant(u);
    IsoKeyNamesWeek(IsoYear(d), IsoWeek(d), IsoYear(e), IsoWeek(e));
    IsoWeekNamesOneWeek(d, e);
  }

  /** Two instants share a month key exactly when they fall in one month of one year. */
  lemma MonthKeyNamesMonth(t: int, u: int)
    ensures MonthKey(t) == MonthKey(u) <==> MonthNumber(DateOf(DayOfInstant(t))) == MonthNumber(DateOf(DayOfInstant(u)))
  {
    var a, b := DateOf(DayOfInstant(t)), DateOf(DayOfInstant(u));
    YearMonthKeyNamesMonth(a, b);
    MonthNumberNamesMonth(a, b);
  }

  /** If t and v share a bucket, so does every instant u between them. */
  ghost predicate Between(key: int -> string, t: int, u: int, v: int) {
    t <= u <= v && key(t) == key(v) ==> key(u) == key(t)
  }

  /** A key whose buckets are stretches of time. */
  ghost predicate RespectsTime(key: int -> string) {
    && (forall t :: key(t) != "")
    && (forall t, u, v {:trigger Between(key, t, u, v)} :: Between(key, t, u, v))
  }

  lemma DayKeyBetween(t: int, u: int, v: int)
    requires t <= u <= v && DayKey(t) == DayKey(v)
    ensures DayKey(u) == DayKey(t)
  {
    DayKeyNamesDay(t, v);
    DayKeyNamesDay(u, t);
  }

  lemma WeekKeyBetween(t: int, u: int, v: int)
    requires t <= u <= v && WeekKey(t) == WeekKey(v)
    ensures WeekKey(u) == WeekKey(t)
  {
    WeekKeyNamesWeek(t, v);
    WeekKeyNamesWeek(u, t);
  }

  lemma MonthBetween(d: int, e: int, f: int)
    requires d <= e <= f && MonthNumber(DateOf(d)) == MonthNumber(DateOf(f))
    ensures MonthNumber(DateOf(e)) == MonthNumber(DateOf(d))
  {
    MonthsRespectTime(d, e);
    MonthsRespectTime(e, f);
  }

  lemma MonthKeyBetween(t: int, u: int, v: int)
    requires t <= u <= v && MonthKey(t) == MonthKey(v)
    ensures MonthKey(u) == MonthKey(t)
  {
    MonthKeyNamesMonth(t, v);
    MonthKeyNamesMonth(u, t);
    MonthBetween(DayOfInstant(t), DayOfInstant(u), DayOfInstant(v));
  }

  lemma DayKeyRespectsTime()
    ensures RespectsTime(DayKey)
  {
    forall t, u, v
      ensures Between(DayKey, t, u, v)
    {
      if t <= u <= v && DayKey(t) == DayKey(v) {
        DayKeyBetween(t, u, v);
      }
    }
  }

  lemma WeekKeyRespectsTime()
    ensures RespectsTime(WeekKey)
  {
    forall t, u, v
      ensures Between(WeekKey, t, u, v)
    {
      if t <= u <= v && WeekKey(t) == WeekKey(v) {
        WeekKeyBetween(t, u, v);
      }
    }
  }

  lemma MonthKeyRespectsTime()
    ensures RespectsTime(MonthKey)
  {
    forall t, u, v
      ensures Between(MonthKey, t, u, v)
    {
      if t <= u <= v && MonthKey(t) == MonthKey(v) {
        MonthKeyBetween(t, u, v);
      }
    }
  }
}
