/** Which archives a prune keeps, told by the calendar's numbers and without keys: backup/retention.go. */
module KeptArchives {
  import opened Calendar
  import opened ArchiveNames
  import opened Lists
  import opened Retention

  /** The day, the Monday-to-Sunday week and the month of an instant, each counted from some first one. */
  function Day(at: int): int {
    DayOfInstant(at)
  }

  function Week(at: int): int {
    (DayOfInstant(at) - 2) / 7
  }

  function Month(at: int): int {
    12 * DateOf(DayOfInstant(at)).year + DateOf(DayOfInstant(at)).month
  }

  /** The periods of the archives newer than the i-th. */
  ghost function Newer(bs: seq<Entry>, period: int -> int, i: nat): set<int>
    requires i <= |bs|
  {
    set j | 0 <= j < i :: period(bs[j].date)
  }

  /** The archive is the newest of its period, and that is one of the n newest that have any. */
  ghost predicate Stands(bs: seq<Entry>, period: int -> int, n: nat, i: nat)
    requires i < |bs|
  {
    period(bs[i].date) !in Newer(bs, period, i) && |Newer(bs, period, i)| < n
  }

  /** Keys and periods tell the same instants apart. */
  ghost predicate SameBuckets(key: int -> string, period: int -> int) {
    forall t, u {:trigger SameBucket(key, period, t, u)} :: SameBucket(key, period, t, u)
  }

  ghost predicate SameBucket(key: int -> string, period: int -> int, t: int, u: int) {
    key(t) == key(u) <==> period(t) == period(u)
  }

  lemma NewerOneMore(bs: seq<Entry>, period: int -> int, i: nat)
    requires i < |bs|
    ensures Newer(bs, period, i + 1) == Newer(bs, period, i) + {period(bs[i].date)}
  {
  }

  lemma KeysOneMore(bs: seq<Entry>, key: int -> string, i: nat)
    requires i < |bs|
    ensures KeysBefore(bs, key, i + 1) == KeysBefore(bs, key, i) + {key(bs[i].date)}
  {
  }

  lemma KeyIsNew(bs: seq<Entry>, key: int -> string, period: int -> int, i: nat, n: nat)
    requires SameBuckets(key, period) && i <= n < |bs|
    ensures key(bs[n].date) in KeysBefore(bs, key, i) <==> period(bs[n].date) in Newer(bs, period, i)
  {
    forall j | 0 <= j < i
      ensures key(bs[j].date) == key(bs[n].date) <==> period(bs[j].date) == period(bs[n].date)
    {
      assert SameBucket(key, period, bs[j].date, bs[n].date);
    }
  }

  lemma BothOneMore(keys: set<string>, periods: set<int>, k: string, p: int)
    requires |keys| == |periods| && (k in keys <==> p in periods)
    ensures |keys + {k}| == |periods + {p}|
  {
    if k in keys {
      assert keys + {k} == keys && periods + {p} == periods;
    }
  }

  /** So there are as many keys as periods. */
  lemma {:induction false} AsManyKeysAsPeriods(bs: seq<Entry>, key: int -> string, period: int -> int, i: nat)
    requires SameBuckets(key, period) && i <= |bs|
    ensures |KeysBefore(bs, key, i)| == |Newer(bs, period, i)|
  {
    if i > 0 {
      var m := i - 1;
      AsManyKeysAsPeriods(bs, key, period, m);
      NewerOneMore(bs, period, m);
      KeysOneMore(bs, key, m);
      KeyIsNew(bs, key, period, m, m);
      BothOneMore(KeysBefore(bs, key, m), Newer(bs, period, m), key(bs[m].date), period(bs[m].date));
    }
  }

  lemma LeadsExactlyWhenStands(bs: seq<Entry>, key: int -> string, period: int -> int, n: nat, i: nat)
    requires SameBuckets(key, period) && NewestFirst(bs) && RespectsTime(key) && i < |bs|
    ensures LeadsBucket(bs, n, key, i) <==> Stands(bs, period, n, i)
  {
    NewBucket(bs, key, i);
    KeyIsNew(bs, key, period, i, i);
    AsManyKeysAsPeriods(bs, key, period, i);
  }

  lemma DayBuckets()
    ensures SameBuckets(DayKey, Day)
  {
    forall t, u
      ensures SameBucket(DayKey, Day, t, u)
    {
      DayKeyNamesDay(t, u);
    }
  }

  lemma WeekKeyTells(t: int, u: int)
    ensures WeekKey(t) == WeekKey(u) <==> Week(t) == Week(u)
  {
    WeekKeyNamesWeek(t, u);
  }

  lemma WeekBuckets()
    ensures SameBuckets(WeekKey, Week)
  {
    forall t, u
      ensures SameBucket(WeekKey, Week, t, u)
    {
      WeekKeyTells(t, u);
    }
  }

  lemma MonthBuckets()
    ensures SameBuckets(MonthKey, Month)
  {
    forall t, u
      ensures SameBucket(MonthKey, Month, t, u)
    {
      MonthKeyNamesMonth(t, u);
    }
  }

  /** An archive is kept exactly when it is one of the three newest and of the newest day, or the newest of one of the
      three newest days, of one of the two newest weeks, or of one of the two newest months. */
  lemma KeptByTheCalendar(bs: seq<Entry>, i: nat)
    requires NewestFirst(bs) && DistinctNames(bs) && i < |bs|
    ensures bs[i].name in Keep(bs, CALENDAR) <==>
            || (i < 3 && Day(bs[i].date) == Day(bs[0].date))
            || Stands(bs, Day, 3, i) || Stands(bs, Week, 2, i) || Stands(bs, Month, 2, i)
  {
    CalendarIsOrderly();
    DayBuckets();
    WeekBuckets();
    MonthBuckets();
    KeptExactlyWhen(bs, CALENDAR, i);
    DayKeyNamesDay(bs[i].date, bs[0].date);
    LeadsExactlyWhenStands(bs, DayKey, Day, 3, i);
    LeadsExactlyWhenStands(bs, WeekKey, Week, 2, i);
    LeadsExactlyWhenStands(bs, MonthKey, Month, 2, i);
  }
}
