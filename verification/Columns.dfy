/** Which buckets a grouped column of the usage chart covers, and what it shows of them:
    web/src/features/usage/series.ts. */
module Columns {
  import opened Series

  // ---- which bucket starts a column ----

  /** The hour is so many times the width of a column. */
  predicate IsTimes(hour: int, n: int, hours: int) {
    hour == n * hours
  }

  /** The first bucket starts a column, and so does one whose local hour is a multiple of the width. */
  ghost predicate Starts(points: seq<FilledPoint>, hours: int, hourOf: int -> int, i: nat)
    requires i < |points|
  {
    i == 0 || exists n :: IsTimes(hourOf(points[i].t), n, hours)
  }

  lemma MultipleMeans(hour: int, hours: int)
    requires hours > 1
    ensures hour % hours == 0 <==> exists n :: IsTimes(hour, n, hours)
  {
    if hour % hours == 0 {
      assert IsTimes(hour, hour / hours, hours);
    }
    if n :| IsTimes(hour, n, hours) {
      MultipleModulo(n, hours);
    }
  }

  /** How many of the first n buckets start a column. */
  ghost function StartsBefore(points: seq<FilledPoint>, hours: int, hourOf: int -> int, n: nat): nat
    requires n <= |points|
  {
    if n == 0 then 0
    else StartsBefore(points, hours, hourOf, n - 1) + if Starts(points, hours, hourOf, n - 1) then 1 else 0
  }

  lemma {:induction false} StartsOfPrefix(points: seq<FilledPoint>, hours: int, hourOf: int -> int, m: nat, n: nat)
    requires n <= m <= |points|
    ensures StartsBefore(points[..m], hours, hourOf, n) == StartsBefore(points, hours, hourOf, n)
  {
    if n > 0 {
      StartsOfPrefix(points, hours, hourOf, m, n - 1);
    }
  }

  /** There are as many columns as starts. */
  lemma {:induction false} ColumnsAreStarts(points: seq<FilledPoint>, hours: int, hourOf: int -> int)
    requires hours > 1
    ensures |Grouped(points, hours, hourOf)| == StartsBefore(points, hours, hourOf, |points|)
  {
    if points != [] {
      var n := |points| - 1;
      ColumnsAreStarts(points[..n], hours, hourOf);
      StartsOfPrefix(points, hours, hourOf, n, n);
      MultipleMeans(hourOf(points[n].t), hours);
    }
  }

  // ---- what a column shows ----

  /** The column of these buckets: it starts with the first, adds them up, and is accumulating if one of them is. */
  ghost predicate Shows(c: FilledPoint, points: seq<FilledPoint>, i: nat, k: nat)
    requires i < k <= |points|
  {
    && c.t == points[i].t
    && Sums(c.up, c.down, c.total, c.span) == SumOf(points[i..k])
    && (c.partial <==> exists m :: i <= m < k && points[m].partial)
  }

  /** From a start to before the next one, or to the end. */
  ghost predicate Covers(points: seq<FilledPoint>, hours: int, hourOf: int -> int, i: nat, k: nat)
    requires i < k <= |points|
  {
    && Starts(points, hours, hourOf, i) && (k < |points| ==> Starts(points, hours, hourOf, k))
    && forall m :: i < m < k ==> !Starts(points, hours, hourOf, m)
  }

  lemma ShowsOne(points: seq<FilledPoint>, i: nat)
    requires i < |points|
    ensures Shows(points[i], points, i, i + 1)
  {
    SumOfAppend([], points[i]);
    assert points[i..i + 1] == [] + [points[i]];
  }

  lemma ShowsOneMore(c: FilledPoint, points: seq<FilledPoint>, i: nat, k: nat)
    requires i < k < |points| && Shows(c, points, i, k)
    ensures Shows(Merge(c, points[k]), points, i, k + 1)
  {
    assert points[i..k + 1] == points[i..k] + [points[k]];
    SumOfAppend(points[i..k], points[k]);
  }

  lemma ShowsInLonger(c: FilledPoint, points: seq<FilledPoint>, n: nat, i: nat, k: nat)
    requires i < k <= n <= |points| && Shows(c, points[..n], i, k)
    ensures Shows(c, points, i, k)
  {
    assert points[..n][i..k] == points[i..k];
    assert forall m :: i <= m < k ==> points[..n][m] == points[m];
  }

  /** The last column shows the buckets from the last start on. */
  lemma {:induction false} LastColumn(points: seq<FilledPoint>, hours: int, hourOf: int -> int, i: nat)
    requires hours > 1 && i < |points| && Covers(points, hours, hourOf, i, |points|)
    ensures var out := Grouped(points, hours, hourOf); Shows(out[|out| - 1], points, i, |points|)
  {
    var n := |points| - 1;
    var before := points[..n];
    MultipleMeans(hourOf(points[n].t), hours);
    if i == n {
      ShowsOne(points, n);
    } else {
      assert !Starts(points, hours, hourOf, n);
      assert forall m :: i <= m < n ==> Starts(before, hours, hourOf, m) == Starts(points, hours, hourOf, m);
      LastColumn(before, hours, hourOf, i);
      var rest := Grouped(before, hours, hourOf);
      ShowsInLonger(rest[|rest| - 1], points, n, i, n);
      ShowsOneMore(rest[|rest| - 1], points, i, n);
    }
  }

  /** What comes from a start on changes no column before it. */
  lemma {:induction false} EarlierColumnsStay(points: seq<FilledPoint>, hours: int, hourOf: int -> int, k: nat)
    requires hours > 1 && 0 < k < |points| && Starts(points, hours, hourOf, k)
    ensures |Grouped(points, hours, hourOf)| > |Grouped(points[..k], hours, hourOf)|
    ensures Grouped(points[..k], hours, hourOf) <= Grouped(points, hours, hourOf)
  {
    var n := |points| - 1;
    if k == n {
      MultipleMeans(hourOf(points[n].t), hours);
    } else {
      assert points[..n][..k] == points[..k];
      assert Starts(points[..n], hours, hourOf, k);
      EarlierColumnsStay(points[..n], hours, hourOf, k);
    }
  }

  lemma StartsAtOnly(points: seq<FilledPoint>, hours: int, hourOf: int -> int, i: nat, k: nat)
    requires i < k <= |points| && Covers(points, hours, hourOf, i, k)
    ensures StartsBefore(points, hours, hourOf, k) == StartsBefore(points, hours, hourOf, i) + 1
  {
    var n := i + 1;
    while n < k
      invariant i < n <= k && StartsBefore(points, hours, hourOf, n) == StartsBefore(points, hours, hourOf, i) + 1
    {
      n := n + 1;
    }
  }

  lemma ColumnOfPrefix(points: seq<FilledPoint>, hours: int, hourOf: int -> int, i: nat, k: nat)
    requires hours > 1 && i < k <= |points| && Covers(points, hours, hourOf, i, k)
    ensures var out, j := Grouped(points[..k], hours, hourOf), StartsBefore(points, hours, hourOf, i);
            j == |out| - 1 && Shows(out[j], points, i, k)
  {
    var first := points[..k];
    forall m | 0 <= m < k
      ensures Starts(first, hours, hourOf, m) == Starts(points, hours, hourOf, m)
    {
    }
    LastColumn(first, hours, hourOf, i);
    ColumnsAreStarts(first, hours, hourOf);
    StartsOfPrefix(points, hours, hourOf, k, k);
    StartsAtOnly(points, hours, hourOf, i, k);
    var out := Grouped(first, hours, hourOf);
    ShowsInLonger(out[|out| - 1], points, k, i, k);
  }

  /** Each column shows the buckets from its start to before the next start, and nothing else. */
  lemma ColumnShowsItsBuckets(points: seq<FilledPoint>, hours: int, hourOf: int -> int, i: nat, k: nat)
    requires hours > 1 && i < k <= |points| && Covers(points, hours, hourOf, i, k)
    ensures var out, j := Grouped(points, hours, hourOf), StartsBefore(points, hours, hourOf, i);
            j < |out| && Shows(out[j], points, i, k)
  {
    ColumnOfPrefix(points, hours, hourOf, i, k);
    if k < |points| {
      EarlierColumnsStay(points, hours, hourOf, k);
    } else {
      assert points[..k] == points;
    }
  }

  lemma NextStart(points: seq<FilledPoint>, hours: int, hourOf: int -> int, i: nat) returns (k: nat)
    requires i < |points| && Starts(points, hours, hourOf, i)
    ensures i < k <= |points| && Covers(points, hours, hourOf, i, k)
  {
    k := i + 1;
    while k < |points| && !Starts(points, hours, hourOf, k)
      invariant i < k <= |points| && forall m :: i < m < k ==> !Starts(points, hours, hourOf, m)
    {
      k := k + 1;
    }
  }

  /** A bucket starts a column exactly when it is the first or its local hour is a multiple of the width. */
  lemma ColumnsStartExactlyWhen(points: seq<FilledPoint>, hours: int, hourOf: int -> int, i: nat)
    requires hours > 1 && Increasing(points) && i < |points|
    ensures (exists j ::
               0 <= j < |Grouped(points, hours, hourOf)| && Grouped(points, hours, hourOf)[j].t == points[i].t)
            <==> i == 0 || exists n :: IsTimes(hourOf(points[i].t), n, hours)
  {
    var out := Grouped(points, hours, hourOf);
    MultipleMeans(hourOf(points[i].t), hours);
    if Starts(points, hours, hourOf, i) {
      var k := NextStart(points, hours, hourOf, i);
      ColumnShowsItsBuckets(points, hours, hourOf, i, k);
    }
    if j :| 0 <= j < |out| && out[j].t == points[i].t {
      ColumnsOpen(points, hours, hourOf, j);
    }
  }

  // ---- columns of hours ----

  /** Buckets of one hour each, on a clock that is neither put forward nor back. */
  ghost predicate HourByHour(points: seq<FilledPoint>, hourOf: int -> int) {
    && (forall i :: 0 <= i < |points| ==> points[i].span == 1 && 0 <= hourOf(points[i].t) < 24)
    && forall i :: 0 < i < |points| ==> hourOf(points[i].t) == (hourOf(points[i - 1].t) + 1) % 24
  }

  /** Every column but the first and the last is full, and none is more than full. */
  ghost predicate FullColumns(out: seq<FilledPoint>, hours: int) {
    && (forall j :: 0 <= j < |out| ==> 1 <= out[j].span <= hours)
    && forall j :: 0 < j < |out| - 1 ==> out[j].span == hours
  }

  /** How far into its column the last bucket is. */
  ghost predicate LastIsAt(out: seq<FilledPoint>, hour: int, hours: int)
    requires out != [] && hours > 1
  {
    var span := out[|out| - 1].span;
    hour % hours >= span - 1 && (|out| > 1 ==> hour % hours == span - 1)
  }

  lemma NextMultipleOrNot(hour: int, hours: int)
    requires hours > 1
    ensures (hour + 1) % hours == if hour % hours == hours - 1 then 0 else hour % hours + 1
  {
    var q, m := hour / hours, hour % hours;
    assert hour == q * hours + m;
    if m == hours - 1 {
      assert (q + 1) * hours == q * hours + hours;
      QuotientIs(hour + 1, hours, q + 1, 0);
    } else {
      QuotientIs(hour + 1, hours, q, m + 1);
    }
  }

  /** Going round the clock keeps the place in a column, if the width divides the day. */
  lemma NextHour(hour: int, hours: int)
    requires 0 <= hour < 24 && hours > 1 && 24 % hours == 0
    ensures (hour + 1) % 24 % hours == if hour % hours == hours - 1 then 0 else hour % hours + 1
  {
    NextMultipleOrNot(hour, hours);
    if hour == 23 {
      QuotientIs(0, hours, 0, 0);
    } else {
      assert (hour + 1) % 24 == hour + 1;
    }
  }

  lemma {:induction false} ColumnsOfHours(points: seq<FilledPoint>, hours: int, hourOf: int -> int)
    requires hours > 1 && 24 % hours == 0 && points != [] && HourByHour(points, hourOf)
    ensures var out := Grouped(points, hours, hourOf);
            FullColumns(out, hours) && LastIsAt(out, hourOf(points[|points| - 1].t), hours)
  {
    var n := |points| - 1;
    if n > 0 {
      ColumnsOfHours(points[..n], hours, hourOf);
      NextHour(hourOf(points[n - 1].t), hours);
    }
  }

  /** Where hours follow each other round the clock and the width divides the day, every column but the first and the
      last is as wide as asked for, and none is wider. */
  lemma ColumnsAreAsWideAsAsked(points: seq<FilledPoint>, hours: int, hourOf: int -> int, j: nat)
    requires hours > 1 && 24 % hours == 0 && HourByHour(points, hourOf) && j < |Grouped(points, hours, hourOf)|
    ensures var out := Grouped(points, hours, hourOf);
            1 <= out[j].span <= hours && (0 < j < |out| - 1 ==> out[j].span == hours)
  {
    ColumnsOfHours(points, hours, hourOf);
  }
}
