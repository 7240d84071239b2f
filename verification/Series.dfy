/** The usage chart's series: snapRange of web/src/lib/range.ts and zeroFill, groupByHours and dayBoundaries of
    web/src/features/usage/series.ts. What the browser's clock and time zone say of an instant is passed in. */
module Series {
  import opened Wrappers

  // ---- the range ----

  datatype Bucket = Hour | Day

  datatype Preset = Preset(bucket: Bucket, buckets: int, group: int)

  /** Times are in milliseconds, and both ends are bucket starts. */
  datatype Range = Range(fromUnix: int, bucket: Bucket, step: int, from: int, end: int)

  const HOUR_MS := 3_600_000
  const DAY_MS := 86_400_000

  function StepMs(bucket: Bucket): (step: int)
    ensures step > 0 && step % 1000 == 0
  {
    if bucket.Hour? then HOUR_MS else DAY_MS
  }

  function SnapRange(preset: Preset, now: int): Range {
    var step := StepMs(preset.bucket);
    var end := now / step * step;
    var from := end - (preset.buckets - 1) * step;
    Range(from / 1000, preset.bucket, step, from, end)
  }

  lemma MultiplesGrow(a: int, d: int)
    requires d > 0
    ensures a >= 1 ==> a * d >= d
    ensures a <= -1 ==> a * d <= -d
  {
    if a >= 1 {
      assert (a - 1) * d >= 0;
    } else if a <= -1 {
      assert (-1 - a) * d >= 0;
    }
  }

  lemma SmallMultiple(a: int, d: int)
    requires d > 0 && -d < a * d < d
    ensures a == 0
  {
    MultiplesGrow(a, d);
  }

  /** Division with a remainder has one answer. */
  lemma QuotientIs(n: int, d: int, q: int, m: int)
    requires d > 0 && n == q * d + m && 0 <= m < d
    ensures n / d == q && n % d == m
  {
    var p, r := n / d, n % d;
    assert n == p * d + r && 0 <= r < d;
    assert (p - q) * d == m - r;
    SmallMultiple(p - q, d);
  }

  lemma MultipleModulo(k: int, d: int)
    requires d > 0
    ensures k * d % d == 0
  {
    QuotientIs(k * d, d, k, 0);
  }

  lemma FloorBelow(n: int, d: int)
    requires d > 0
    ensures n / d * d <= n < n / d * d + d
  {
    assert n == n / d * d + n % d;
  }

  lemma Distribute(a: int, b: int, d: int)
    ensures a * d - b * d == (a - b) * d
  {
  }

  /** A snapped range starts and ends on the node's grid and ends with the bucket that now is in. */
  lemma SnappedIsAligned(preset: Preset, now: int)
    ensures var r := SnapRange(preset, now);
            && r.from % r.step == 0 && r.end % r.step == 0
            && r.end <= now < r.end + r.step
            && r.end - r.from == (preset.buckets - 1) * r.step
            && r.fromUnix * 1000 == r.from
            && r.bucket == preset.bucket && r.step == (if preset.bucket == Hour then 3_600_000 else 86_400_000)
  {
    var step := StepMs(preset.bucket);
    var k, n := now / step, preset.buckets - 1;
    MultipleModulo(k, step);
    MultipleModulo(k - n, step);
    FloorBelow(now, step);
    Distribute(k, n, step);
    WholeSecondsIn((k - n) * step, step, k - n);
  }

  lemma WholeSecondsIn(t: int, step: int, k: int)
    requires t == k * step && step % 1000 == 0
    ensures t / 1000 * 1000 == t
  {
    var s := step / 1000;
    assert k * (s * 1000) == (k * s) * 1000;
    QuotientIs(t, 1000, k * s, 0);
  }

  /** The request stays the same exactly while now stays in one bucket. */
  lemma SnapChangesOncePerBucket(preset: Preset, now: int, later: int)
    ensures SnapRange(preset, now) == SnapRange(preset, later)
            <==> now / StepMs(preset.bucket) == later / StepMs(preset.bucket)
  {
    var step := StepMs(preset.bucket);
    var j, k := now / step, later / step;
    if j * step == k * step {
      Distribute(j, k, step);
      SmallMultiple(j - k, step);
    }
  }

  // ---- filling the gaps ----

  /** What the node sends for one interval; a bucket that does not parse as a date is None. */
  datatype UsagePoint = UsagePoint(bucket: Option<int>, up: int, down: int)

  datatype FilledPoint = FilledPoint(t: int, up: int, down: int, total: int, partial: bool, span: int)

  const NOTHING := UsagePoint(None, 0, 0)

  /** The latest point of each bucket; later entries of the series replace earlier ones. */
  function ByBucket(series: seq<UsagePoint>): map<int, UsagePoint> {
    if series == [] then map[]
    else if series[0].bucket.None? then ByBucket(series[1..])
    else map[series[0].bucket.value := series[0]] + ByBucket(series[1..])
  }

  /** The last bucket to show: the range's own, or a later one that the series knows of. */
  function LastBucket(series: seq<UsagePoint>, end: int): (last: int)
    ensures last >= end
    ensures forall t :: t in ByBucket(series) ==> t <= last
    ensures last == end || last in ByBucket(series)
  {
    if series == [] then end
    else
      var rest := LastBucket(series[1..], end);
      if series[0].bucket.Some? && series[0].bucket.value > rest then series[0].bucket.value else rest
  }

  function At(byBucket: map<int, UsagePoint>, t: int): UsagePoint {
    if t in byBucket then byBucket[t] else NOTHING
  }

  function Column(byBucket: map<int, UsagePoint>, t: int, last: int): FilledPoint {
    var p := At(byBucket, t);
    FilledPoint(t, p.up, p.down, p.up + p.down, t == last, 1)
  }

  /** The column of the k-th bucket from from on. */
  function ColumnOf(byBucket: map<int, UsagePoint>, from: int, step: int, last: int, k: nat): FilledPoint {
    Column(byBucket, from + k * step, last)
  }

  /** How many buckets there are from from to last. */
  function Buckets(from: int, last: int, step: int): (n: nat)
    requires step > 0
    ensures n == 0 <==> last < from
    ensures n > 0 ==> from + (n - 1) * step <= last < from + n * step
  {
    if last < from then 0
    else
      FloorBelow(last - from, step);
      (last - from) / step + 1
  }

  function Filled(series: seq<UsagePoint>, r: Range): (columns: seq<FilledPoint>)
    requires r.step > 0
    ensures |columns| == Buckets(r.from, LastBucket(series, r.end), r.step)
  {
    var last := LastBucket(series, r.end);
    seq(Buckets(r.from, last, r.step), k requires 0 <= k => ColumnOf(ByBucket(series), r.from, r.step, last, k))
  }

  lemma BucketsIs(from: int, last: int, step: int, n: nat)
    requires step > 0 && last < from + n * step && (n > 0 ==> from + (n - 1) * step <= last)
    ensures Buckets(from, last, step) == n
  {
    var m := Buckets(from, last, step);
    MultiplesGrow(m - n, step);
    Distribute(m - 1, n, step);
    Distribute(n - 1, m, step);
  }

  lemma NextMultiple(n: int, d: int)
    ensures (n + 1) * d == n * d + d && 0 * d == 0
  {
  }

  method ZeroFill(series: seq<UsagePoint>, r: Range) returns (out: seq<FilledPoint>)
    requires r.step > 0
    ensures out == Filled(series, r)
  {
    var byBucket, last := IndexSeries(series, r.end);
    out := [];
    var t := r.from;
    NextMultiple(0, r.step);
    while t <= last
      invariant t == r.from + |out| * r.step
      invariant |out| > 0 ==> r.from + (|out| - 1) * r.step <= last
      invariant forall k :: 0 <= k < |out| ==> out[k] == ColumnOf(byBucket, r.from, r.step, last, k)
      decreases last - t
    {
      NextMultiple(|out|, r.step);
      var p := if t in byBucket then Some(byBucket[t]) else None;
      var up := if p.Some? then p.value.up else 0;
      var down := if p.Some? then p.value.down else 0;
      out := out + [FilledPoint(t, up, down, up + down, t == last, 1)];
      t := t + r.step;
    }
    BucketsIs(r.from, last, r.step, |out|);
  }

  /** The first loop of zeroFill: later points replace earlier ones, and the end moves out to a later bucket. */
  method IndexSeries(series: seq<UsagePoint>, end: int) returns (byBucket: map<int, UsagePoint>, last: int)
    ensures byBucket == ByBucket(series)
    ensures last == LastBucket(series, end)
  {
    byBucket, last := map[], end;
    for i := 0 to |series|
      invariant byBucket + ByBucket(series[i..]) == ByBucket(series)
      invariant LastBucket(series[i..], last) == LastBucket(series, end)
    {
      var p := series[i];
      IndexOneMore(byBucket, series, i);
      LastOneMore(series, i, last);
      if p.bucket.Some? {
        var t := p.bucket.value;
        byBucket := byBucket[t := p];
        if t > last {
          last := t;
        }
      }
    }
    assert byBucket + map[] == byBucket;
  }

  lemma IndexOneMore(m: map<int, UsagePoint>, series: seq<UsagePoint>, i: nat)
    requires i < |series|
    ensures var p, rest := series[i], ByBucket(series[i + 1..]);
            m + ByBucket(series[i..]) == (if p.bucket.Some? then m[p.bucket.value := p] else m) + rest
  {
    assert series[i..][1..] == series[i + 1..];
  }

  lemma LastOneMore(series: seq<UsagePoint>, i: nat, last: int)
    requires i < |series|
    ensures var b := series[i].bucket;
            LastBucket(series[i..], last)
              == LastBucket(series[i + 1..], if b.Some? && b.value > last then b.value else last)
  {
    assert series[i..][1..] == series[i + 1..];
    LastIsMax(series[i + 1..], last, if series[i].bucket.Some? then series[i].bucket.value else last);
  }

  /** Raising the end raises the last bucket to at least that. */
  lemma {:induction false} LastIsMax(series: seq<UsagePoint>, end: int, t: int)
    ensures var rest := LastBucket(series, end);
            LastBucket(series, if t > end then t else end) == if t > rest then t else rest
  {
    if series != [] {
      LastIsMax(series[1..], end, t);
    }
  }

  // ---- what filling promises ----

  /** Each bucket of the range appears once, in order, and no column before the last is the accumulating one. */
  lemma EachBucketOnce(series: seq<UsagePoint>, r: Range, k: nat)
    requires r.step > 0 && k < |Filled(series, r)|
    ensures var columns := Filled(series, r);
            && columns[k].t == r.from + k * r.step && columns[k].span == 1
            && (k < |columns| - 1 ==> !columns[k].partial)
  {
    ColumnAt(series, r, k);
    EarlierBuckets(r.from, r.step, LastBucket(series, r.end), |Filled(series, r)|, k);
  }

  lemma {:induction false} LatestCounts(series: seq<UsagePoint>, i: nat, t: int)
    requires i < |series| && series[i].bucket == Some(t)
    requires forall j :: i < j < |series| ==> series[j].bucket != Some(t)
    ensures t in ByBucket(series) && ByBucket(series)[t] == series[i]
  {
    IndexedBuckets(series[1..], t);
    assert forall j :: 0 <= j < |series[1..]| ==> series[1..][j] == series[j + 1];
    if i > 0 {
      LatestCounts(series[1..], i - 1, t);
    }
  }

  /** A column shows the latest entry of its bucket. */
  lemma ColumnShowsTheLatest(series: seq<UsagePoint>, r: Range, k: nat, i: nat)
    requires r.step > 0 && k < |Filled(series, r)| && i < |series| && series[i].bucket == Some(r.from + k * r.step)
    requires forall j :: i < j < |series| ==> series[j].bucket != Some(r.from + k * r.step)
    ensures var c := Filled(series, r)[k];
            c.up == series[i].up && c.down == series[i].down && c.total == series[i].up + series[i].down
  {
    ColumnAt(series, r, k);
    LatestCounts(series, i, r.from + k * r.step);
  }

  /** And without an entry it shows no traffic. */
  lemma ColumnShowsNothing(series: seq<UsagePoint>, r: Range, k: nat)
    requires r.step > 0 && k < |Filled(series, r)|
    requires forall j :: 0 <= j < |series| ==> series[j].bucket != Some(r.from + k * r.step)
    ensures var c := Filled(series, r)[k]; c.up == 0 && c.down == 0 && c.total == 0
  {
    ColumnAt(series, r, k);
    IndexedBuckets(series, r.from + k * r.step);
  }

  /** The last column is the accumulating one exactly when the last bucket is on the range's grid. */
  lemma LastIsPartialOnGrid(series: seq<UsagePoint>, r: Range)
    requires r.step > 0 && Filled(series, r) != []
    ensures var columns := Filled(series, r);
            columns[|columns| - 1].partial <==> (LastBucket(series, r.end) - r.from) % r.step == 0
  {
    var last, m := LastBucket(series, r.end), |Filled(series, r)| - 1;
    ColumnAt(series, r, m);
    NextMultiple(m, r.step);
    LastOnGrid(last - r.from, r.step, m);
  }

  lemma ColumnAt(series: seq<UsagePoint>, r: Range, k: nat)
    requires r.step > 0 && k < |Filled(series, r)|
    ensures Filled(series, r)[k] == ColumnOf(ByBucket(series), r.from, r.step, LastBucket(series, r.end), k)
  {
  }

  lemma EarlierBuckets(from: int, step: int, last: int, n: nat, k: nat)
    requires step > 0 && k < n && n == Buckets(from, last, step)
    ensures k < n - 1 ==> from + k * step != last
  {
    Distribute(k, n - 1, step);
    MultiplesGrow(k - (n - 1), step);
  }

  lemma LastOnGrid(d: int, step: int, m: nat)
    requires step > 0 && m * step <= d < m * step + step
    ensures d % step == 0 <==> d == m * step
  {
    QuotientIs(d, step, m, d - m * step);
  }

  /** A bucket the chart can show: not before the range, and on its grid. */
  predicate Lands(t: int, from: int, step: int)
    requires step > 0
  {
    t >= from && (t - from) % step == 0
  }

  predicate NodeSeries(series: seq<UsagePoint>, r: Range)
    requires r.step > 0
  {
    forall i :: 0 <= i < |series| && series[i].bucket.Some? ==> Lands(series[i].bucket.value, r.from, r.step)
  }

  /** On the node's grid the last column, and no other, is the accumulating one. */
  lemma OnlyTheLastIsPartial(series: seq<UsagePoint>, preset: Preset, now: int, k: nat)
    requires var r := SnapRange(preset, now); NodeSeries(series, r) && k < |Filled(series, r)|
    ensures var columns := Filled(series, SnapRange(preset, now)); columns[k].partial <==> k == |columns| - 1
  {
    var r := SnapRange(preset, now);
    EachBucketOnce(series, r, k);
    LastIsPartialOnGrid(series, r);
    SnappedIsAligned(preset, now);
    MultipleModulo(preset.buckets - 1, r.step);
    LastLands(series, r);
  }

  /** Snapping to the node's grid is what makes the node's buckets land. */
  lemma NodeBucketsLand(preset: Preset, now: int, t: int)
    ensures var r := SnapRange(preset, now);
            Lands(t, r.from, r.step) <==> t >= r.from && t % r.step == 0
  {
    var r := SnapRange(preset, now);
    SnappedIsAligned(preset, now);
    SameGrid(t, r.from, r.step);
  }

  lemma SameGrid(t: int, from: int, step: int)
    requires step > 0 && from % step == 0
    ensures (t - from) % step == 0 <==> t % step == 0
  {
    var p, q, m := t / step, from / step, t % step;
    assert t == p * step + m && from == q * step;
    Distribute(p, q, step);
    QuotientIs(t - from, step, p - q, m);
  }

  lemma {:induction false} LastLands(series: seq<UsagePoint>, r: Range)
    requires r.step > 0 && NodeSeries(series, r) && (r.end - r.from) % r.step == 0
    ensures (LastBucket(series, r.end) - r.from) % r.step == 0
  {
    if series != [] {
      assert forall i :: 0 <= i < |series[1..]| ==> series[1..][i] == series[i + 1];
      LastLands(series[1..], r);
    }
  }

  // ---- sums ----

  datatype Amounts = Amounts(up: int, down: int) {
    function Plus(other: Amounts): Amounts {
      Amounts(up + other.up, down + other.down)
    }
  }

  datatype Sums = Sums(up: int, down: int, total: int, span: int)

  function SumOf(columns: seq<FilledPoint>): Sums {
    if columns == [] then Sums(0, 0, 0, 0)
    else
      var rest, c := SumOf(columns[..|columns| - 1]), columns[|columns| - 1];
      Sums(rest.up + c.up, rest.down + c.down, rest.total + c.total, rest.span + c.span)
  }

  /** What the first n buckets from from on hold. */
  function GridSum(byBucket: map<int, UsagePoint>, from: int, step: int, n: nat): Amounts {
    if n == 0 then Amounts(0, 0)
    else
      var p := At(byBucket, from + (n - 1) * step);
      GridSum(byBucket, from, step, n - 1).Plus(Amounts(p.up, p.down))
  }

  ghost predicate AreColumns(columns: seq<FilledPoint>, byBucket: map<int, UsagePoint>, from: int, step: int,
                             last: int) {
    forall k :: 0 <= k < |columns| ==> columns[k] == ColumnOf(byBucket, from, step, last, k)
  }

  lemma FewerColumns(columns: seq<FilledPoint>, byBucket: map<int, UsagePoint>, from: int, step: int, last: int)
    requires columns != [] && AreColumns(columns, byBucket, from, step, last)
    ensures AreColumns(columns[..|columns| - 1], byBucket, from, step, last)
    ensures var m := |columns| - 1; columns[m] == ColumnOf(byBucket, from, step, last, m)
  {
  }

  lemma {:induction false} SumOfGrid(columns: seq<FilledPoint>, byBucket: map<int, UsagePoint>, from: int, step: int,
                                     last: int)
    requires AreColumns(columns, byBucket, from, step, last)
    ensures var sum := GridSum(byBucket, from, step, |columns|);
            SumOf(columns) == Sums(sum.up, sum.down, sum.up + sum.down, |columns|)
  {
    if columns != [] {
      FewerColumns(columns, byBucket, from, step, last);
      SumOfGrid(columns[..|columns| - 1], byBucket, from, step, last);
    }
  }

  lemma {:induction false} EmptyGrid(from: int, step: int, n: nat)
    ensures GridSum(map[], from, step, n) == Amounts(0, 0)
  {
    if n > 0 {
      EmptyGrid(from, step, n - 1);
    }
  }

  predicate OnGrid(t: int, from: int, step: int, n: nat)
    requires step > 0
  {
    Lands(t, from, step) && (t - from) / step < n
  }

  lemma GridStep(t: int, from: int, step: int, n: nat)
    requires step > 0 && n > 0
    ensures OnGrid(t, from, step, n) <==> OnGrid(t, from, step, n - 1) || t == from + (n - 1) * step
    ensures OnGrid(t, from, step, n - 1) ==> t != from + (n - 1) * step
  {
    if t == from + (n - 1) * step {
      QuotientIs(t - from, step, n - 1, 0);
    }
  }

  /** A bucket that was not there adds its point's amounts once, if it is on the grid. */
  lemma {:induction false} GridSumWith(m: map<int, UsagePoint>, t: int, p: UsagePoint, from: int, step: int, n: nat)
    requires step > 0 && t !in m
    ensures GridSum(map[t := p] + m, from, step, n)
            == GridSum(m, from, step, n).Plus(if OnGrid(t, from, step, n) then Amounts(p.up, p.down) else Amounts(0, 0))
  {
    if n > 0 {
      GridSumWith(m, t, p, from, step, n - 1);
      GridStep(t, from, step, n);
    }
  }

  /** What a series brings to the chart: every point that lands, unless a later one has the same bucket. */
  function Kept(series: seq<UsagePoint>, from: int, step: int): Amounts
    requires step > 0
  {
    if series == [] then Amounts(0, 0)
    else
      var p, rest := series[0], Kept(series[1..], from, step);
      if p.bucket.Some? && Lands(p.bucket.value, from, step) && p.bucket.value !in ByBucket(series[1..])
      then rest.Plus(Amounts(p.up, p.down)) else rest
  }

  ghost predicate NoneAfter(byBucket: map<int, UsagePoint>, last: int) {
    forall t :: t in byBucket ==> t <= last
  }

  lemma FewerBuckets(series: seq<UsagePoint>, last: int)
    requires series != [] && NoneAfter(ByBucket(series), last)
    ensures NoneAfter(ByBucket(series[1..]), last)
  {
    forall t | t in ByBucket(series[1..])
      ensures t <= last
    {
      assert t in ByBucket(series);
    }
  }

  lemma {:induction false} GridSumIsKept(series: seq<UsagePoint>, from: int, step: int, last: int, n: nat)
    requires step > 0 && n == Buckets(from, last, step)
    requires NoneAfter(ByBucket(series), last)
    ensures GridSum(ByBucket(series), from, step, n) == Kept(series, from, step)
  {
    if series == [] {
      EmptyGrid(from, step, n);
    } else {
      var p, rest := series[0], ByBucket(series[1..]);
      FewerBuckets(series, last);
      GridSumIsKept(series[1..], from, step, last, n);
      if p.bucket.Some? {
        var t := p.bucket.value;
        assert t in ByBucket(series);
        if t in rest {
          assert map[t := p] + rest == rest;
        } else {
          GridSumWith(rest, t, p, from, step, n);
          LandsInRange(t, from, step, last, n);
        }
      }
    }
  }

  lemma LandsInRange(t: int, from: int, step: int, last: int, n: nat)
    requires step > 0 && t <= last && n == Buckets(from, last, step)
    ensures OnGrid(t, from, step, n) <==> Lands(t, from, step)
  {
    if Lands(t, from, step) {
      var q := (t - from) / step;
      FloorBelow(t - from, step);
      Distribute(q, n, step);
      MultiplesGrow(q - n, step);
    }
  }

  /** Filling neither loses nor invents traffic: the columns sum up to the points that land, each counted once. */
  lemma FillingConserves(series: seq<UsagePoint>, r: Range)
    requires r.step > 0
    ensures var columns, kept := Filled(series, r), Kept(series, r.from, r.step);
            SumOf(columns) == Sums(kept.up, kept.down, kept.up + kept.down, |columns|)
  {
    var columns, last := Filled(series, r), LastBucket(series, r.end);
    FilledAreColumns(series, r);
    SumOfGrid(columns, ByBucket(series), r.from, r.step, last);
    NoneAfterLast(series, r.end);
    GridSumIsKept(series, r.from, r.step, last, |columns|);
  }

  lemma NoneAfterLast(series: seq<UsagePoint>, end: int)
    ensures NoneAfter(ByBucket(series), LastBucket(series, end))
  {
  }

  lemma FilledAreColumns(series: seq<UsagePoint>, r: Range)
    requires r.step > 0
    ensures AreColumns(Filled(series, r), ByBucket(series), r.from, r.step, LastBucket(series, r.end))
  {
  }

  /** All the traffic of a series, without the entries whose bucket is no date. */
  function Dated(series: seq<UsagePoint>): Amounts {
    if series == [] then Amounts(0, 0)
    else
      var p, rest := series[0], Dated(series[1..]);
      if p.bucket.Some? then rest.Plus(Amounts(p.up, p.down)) else rest
  }

  predicate DistinctBuckets(series: seq<UsagePoint>) {
    forall i, j :: 0 <= i < j < |series| && series[i].bucket.Some? ==> series[i].bucket != series[j].bucket
  }

  lemma {:induction false} IndexedBuckets(series: seq<UsagePoint>, t: int)
    ensures t in ByBucket(series) <==> exists i :: 0 <= i < |series| && series[i].bucket == Some(t)
  {
    if series != [] {
      IndexedBuckets(series[1..], t);
      assert forall i :: 0 <= i < |series[1..]| ==> series[1..][i] == series[i + 1];
      if i :| 0 <= i < |series| && series[i].bucket == Some(t) {
        assert i > 0 ==> series[1..][i - 1].bucket == Some(t);
      }
    }
  }

  /** What the node sends, distinct buckets on the range's grid, arrives in full. */
  lemma {:induction false} NodeSeriesArrivesInFull(series: seq<UsagePoint>, r: Range)
    requires r.step > 0 && NodeSeries(series, r) && DistinctBuckets(series)
    ensures Kept(series, r.from, r.step) == Dated(series)
  {
    if series != [] {
      assert forall i :: 0 <= i < |series[1..]| ==> series[1..][i] == series[i + 1];
      NodeSeriesArrivesInFull(series[1..], r);
      if series[0].bucket.Some? {
        IndexedBuckets(series[1..], series[0].bucket.value);
      }
    }
  }

  // ---- grouping ----

  function Merge(open: FilledPoint, p: FilledPoint): FilledPoint {
    FilledPoint(open.t, open.up + p.up, open.down + p.down, open.total + p.total, open.partial || p.partial,
                open.span + p.span)
  }

  /** A bucket whose local hour is a multiple of hours opens a new column. */
  predicate Opens(p: FilledPoint, hours: int, hourOf: int -> int)
    requires hours > 1
  {
    hourOf(p.t) % hours == 0
  }

  function Grouped(points: seq<FilledPoint>, hours: int, hourOf: int -> int): (out: seq<FilledPoint>)
    requires hours > 1
    ensures out == [] <==> points == []
  {
    if points == [] then []
    else
      var rest, p := Grouped(points[..|points| - 1], hours, hourOf), points[|points| - 1];
      if rest == [] || Opens(p, hours, hourOf) then rest + [p]
      else rest[|rest| - 1 := Merge(rest[|rest| - 1], p)]
  }

  method GroupByHours(points: seq<FilledPoint>, hours: int, hourOf: int -> int) returns (out: seq<FilledPoint>)
    ensures out == if hours <= 1 then points else Grouped(points, hours, hourOf)
  {
    if hours <= 1 {
      return points;
    }
    out := [];
    for i := 0 to |points|
      invariant out == Grouped(points[..i], hours, hourOf)
    {
      var p := points[i];
      assert points[..i + 1][..i] == points[..i];
      if out == [] || hourOf(p.t) % hours == 0 {
        out := out + [p];
      } else {
        var open := out[|out| - 1];
        var merged := open.(up := open.up + p.up, down := open.down + p.down, total := open.total + p.total,
                            span := open.span + p.span, partial := open.partial || p.partial);
        out := out[|out| - 1 := merged];
      }
    }
    assert points[..|points|] == points;
  }

  lemma SumOfAppend(columns: seq<FilledPoint>, c: FilledPoint)
    ensures var rest := SumOf(columns);
            SumOf(columns + [c])
              == Sums(rest.up + c.up, rest.down + c.down, rest.total + c.total, rest.span + c.span)
  {
    assert (columns + [c])[..|columns|] == columns;
  }

  lemma SumOfMerge(columns: seq<FilledPoint>, p: FilledPoint)
    requires columns != []
    ensures var m := |columns| - 1; SumOf(columns[m := Merge(columns[m], p)]) == SumOf(columns + [p])
  {
    var m := |columns| - 1;
    var merged := Merge(columns[m], p);
    assert columns[m := merged] == columns[..m] + [merged];
    SumOfAppend(columns[..m], merged);
    SumOfAppend(columns, p);
  }

  /** Grouping keeps the sums of up, down, total and span. */
  lemma {:induction false} GroupingConserves(points: seq<FilledPoint>, hours: int, hourOf: int -> int)
    requires hours > 1
    ensures SumOf(Grouped(points, hours, hourOf)) == SumOf(points)
  {
    if points != [] {
      var n := |points| - 1;
      var rest := Grouped(points[..n], hours, hourOf);
      GroupingConserves(points[..n], hours, hourOf);
      SumOfAppend(rest, points[n]);
      if rest != [] {
        SumOfMerge(rest, points[n]);
      }
    }
  }

  // ---- tiling ----

  function EndOf(c: FilledPoint, step: int): int {
    c.t + c.span * step
  }

  /** Each column starts where the one before it ends. */
  ghost predicate Tiles(columns: seq<FilledPoint>, step: int) {
    forall j :: 0 < j < |columns| ==> columns[j].t == EndOf(columns[j - 1], step)
  }

  /** The columns of a filled series, and so of a grouped one, tile the range. */
  lemma FilledTiles(series: seq<UsagePoint>, r: Range)
    requires r.step > 0
    ensures Tiles(Filled(series, r), r.step)
  {
    var columns := Filled(series, r);
    forall j | 0 < j < |columns|
      ensures columns[j].t == EndOf(columns[j - 1], r.step)
    {
      EachBucketOnce(series, r, j);
      EachBucketOnce(series, r, j - 1);
      NextMultiple(j - 1, r.step);
    }
  }

  lemma {:induction false} GroupingTiles(points: seq<FilledPoint>, hours: int, hourOf: int -> int, step: int)
    requires hours > 1 && points != [] && Tiles(points, step)
    ensures var out := Grouped(points, hours, hourOf);
            && Tiles(out, step) && out[0].t == points[0].t
            && EndOf(out[|out| - 1], step) == EndOf(points[|points| - 1], step)
  {
    var n := |points| - 1;
    if n > 0 {
      var rest, p := Grouped(points[..n], hours, hourOf), points[n];
      GroupingTiles(points[..n], hours, hourOf, step);
      assert p.t == EndOf(points[n - 1], step);
      SpansAdd(rest[|rest| - 1], p, step);
    }
  }

  lemma SpansAdd(open: FilledPoint, p: FilledPoint, step: int)
    requires p.t == EndOf(open, step)
    ensures EndOf(Merge(open, p), step) == EndOf(p, step)
  {
    assert (open.span + p.span) * step == open.span * step + p.span * step;
  }

  /** The last column is the one still accumulating, and no other. */
  ghost predicate OnlyLastPartial(columns: seq<FilledPoint>) {
    forall k :: 0 <= k < |columns| ==> (columns[k].partial <==> k == |columns| - 1)
  }

  ghost predicate NonePartial(columns: seq<FilledPoint>) {
    forall k :: 0 <= k < |columns| ==> !columns[k].partial
  }

  lemma {:induction false} GroupingKeepsNonePartial(points: seq<FilledPoint>, hours: int, hourOf: int -> int)
    requires hours > 1 && NonePartial(points)
    ensures NonePartial(Grouped(points, hours, hourOf))
  {
    if points != [] {
      GroupingKeepsNonePartial(points[..|points| - 1], hours, hourOf);
    }
  }

  /** A grouped column is still accumulating exactly when it is the last. */
  lemma GroupingKeepsOnlyLastPartial(points: seq<FilledPoint>, hours: int, hourOf: int -> int)
    requires hours > 1 && OnlyLastPartial(points)
    ensures OnlyLastPartial(Grouped(points, hours, hourOf))
  {
    if points != [] {
      assert points[|points| - 1].partial;
      GroupingKeepsNonePartial(points[..|points| - 1], hours, hourOf);
    }
  }

  /** Every column but the first opens at a multiple of hours. */
  lemma {:induction false} ColumnsOpen(points: seq<FilledPoint>, hours: int, hourOf: int -> int, j: nat)
    requires hours > 1 && j < |Grouped(points, hours, hourOf)|
    ensures var c := Grouped(points, hours, hourOf)[j];
            if j == 0 then c.t == points[0].t else Opens(c, hours, hourOf)
  {
    var n := |points| - 1;
    var rest := Grouped(points[..n], hours, hourOf);
    if j < |rest| {
      ColumnsOpen(points[..n], hours, hourOf, j);
    }
  }

  // ---- day boundaries ----

  predicate Turns(points: seq<FilledPoint>, i: int, dayOf: int -> int)
    requires 0 < i < |points|
  {
    dayOf(points[i].t) != dayOf(points[i - 1].t)
  }

  /** The starts of the buckets whose local day is not that of the bucket before. */
  function Boundaries(points: seq<FilledPoint>, dayOf: int -> int): seq<int> {
    if |points| <= 1 then []
    else
      var n := |points| - 1;
      Boundaries(points[..n], dayOf) + if Turns(points, n, dayOf) then [points[n].t] else []
  }

  method DayBoundaries(points: seq<FilledPoint>, dayOf: int -> int) returns (out: seq<int>)
    ensures out == Boundaries(points, dayOf)
  {
    out := [];
    var prev: Option<int> := None;
    for i := 0 to |points|
      invariant out == Boundaries(points[..i], dayOf)
      invariant prev == if i == 0 then None else Some(dayOf(points[i - 1].t))
    {
      assert points[..i + 1][..i] == points[..i];
      var day := dayOf(points[i].t);
      if prev.Some? && day != prev.value {
        out := out + [points[i].t];
      }
      prev := Some(day);
    }
    assert points[..|points|] == points;
  }

  lemma {:induction false} BoundariesAre(points: seq<FilledPoint>, dayOf: int -> int, t: int)
    ensures t in Boundaries(points, dayOf)
            <==> exists i :: 0 < i < |points| && Turns(points, i, dayOf) && points[i].t == t
  {
    if |points| > 1 {
      var n := |points| - 1;
      var before := points[..n];
      BoundariesAre(before, dayOf, t);
      assert forall i :: 0 < i < n ==> Turns(before, i, dayOf) == Turns(points, i, dayOf) && before[i] == points[i];
      if i :| 0 < i < n && Turns(points, i, dayOf) && points[i].t == t {
        assert Turns(before, i, dayOf) && before[i].t == t;
      }
    }
  }

  /** The boundaries come in order. */
  lemma {:induction false} BoundariesRise(points: seq<FilledPoint>, dayOf: int -> int, j: nat, k: nat)
    requires Increasing(points) && j < k < |Boundaries(points, dayOf)|
    ensures Boundaries(points, dayOf)[j] < Boundaries(points, dayOf)[k]
  {
    var n := |points| - 1;
    var before := Boundaries(points[..n], dayOf);
    if k < |before| {
      BoundariesRise(points[..n], dayOf, j, k);
    } else {
      assert before[j] in before;
      BoundariesAre(points[..n], dayOf, before[j]);
    }
  }

  /** Every bucket in which the local day turns over opens a column. */
  ghost predicate DaysOpenColumns(points: seq<FilledPoint>, hours: int, hourOf: int -> int, dayOf: int -> int)
    requires hours > 1
  {
    forall i :: 0 < i < |points| && Turns(points, i, dayOf) ==> Opens(points[i], hours, hourOf)
  }

  /** The columns so far have the boundaries of their buckets and end in the day of the last bucket. */
  ghost predicate SameDays(columns: seq<FilledPoint>, points: seq<FilledPoint>, dayOf: int -> int) {
    && columns != [] && points != []
    && Boundaries(columns, dayOf) == Boundaries(points, dayOf)
    && dayOf(columns[|columns| - 1].t) == dayOf(points[|points| - 1].t)
  }

  lemma OpenedColumn(columns: seq<FilledPoint>, points: seq<FilledPoint>, p: FilledPoint, dayOf: int -> int)
    requires SameDays(columns, points, dayOf)
    ensures SameDays(columns + [p], points + [p], dayOf)
  {
    BoundariesOfAppend(columns, p, dayOf);
    BoundariesOfAppend(points, p, dayOf);
  }

  lemma MergedColumn(columns: seq<FilledPoint>, points: seq<FilledPoint>, p: FilledPoint, dayOf: int -> int)
    requires SameDays(columns, points, dayOf) && dayOf(p.t) == dayOf(points[|points| - 1].t)
    ensures var m := |columns| - 1; SameDays(columns[m := Merge(columns[m], p)], points + [p], dayOf)
  {
    BoundariesOfMerge(columns, p, dayOf);
    BoundariesOfAppend(points, p, dayOf);
  }

  lemma BoundariesOfAppend(columns: seq<FilledPoint>, p: FilledPoint, dayOf: int -> int)
    requires columns != []
    ensures Boundaries(columns + [p], dayOf)
            == Boundaries(columns, dayOf) + if dayOf(p.t) != dayOf(columns[|columns| - 1].t) then [p.t] else []
  {
    assert (columns + [p])[..|columns|] == columns;
  }

  lemma BoundariesOfMerge(columns: seq<FilledPoint>, p: FilledPoint, dayOf: int -> int)
    requires columns != []
    ensures var m := |columns| - 1; Boundaries(columns[m := Merge(columns[m], p)], dayOf) == Boundaries(columns, dayOf)
  {
    var m := |columns| - 1;
    assert columns[m := Merge(columns[m], p)][..m] == columns[..m];
  }

  lemma FewerDaysOpen(points: seq<FilledPoint>, n: nat, hours: int, hourOf: int -> int, dayOf: int -> int)
    requires hours > 1 && n <= |points| && DaysOpenColumns(points, hours, hourOf, dayOf)
    ensures DaysOpenColumns(points[..n], hours, hourOf, dayOf)
  {
    forall i | 0 < i < n && Turns(points[..n], i, dayOf)
      ensures Opens(points[..n][i], hours, hourOf)
    {
      assert Turns(points, i, dayOf);
    }
  }

  lemma GroupOneMore(before: seq<FilledPoint>, p: FilledPoint, hours: int, hourOf: int -> int)
    requires hours > 1 && before != []
    ensures var rest := Grouped(before, hours, hourOf);
            Grouped(before + [p], hours, hourOf)
            == if Opens(p, hours, hourOf) then rest + [p] else rest[|rest| - 1 := Merge(rest[|rest| - 1], p)]
  {
    assert (before + [p])[..|before|] == before;
  }

  /** The next bucket either opens a column of its own or joins the last one. */
  ghost predicate GrowsBy(next: seq<FilledPoint>, columns: seq<FilledPoint>, p: FilledPoint, opens: bool) {
    columns != [] && next == if opens then columns + [p] else columns[|columns| - 1 := Merge(columns[|columns| - 1], p)]
  }

  lemma SameDaysIfGrown(next: seq<FilledPoint>, columns: seq<FilledPoint>, points: seq<FilledPoint>, p: FilledPoint,
                        opens: bool, dayOf: int -> int)
    requires GrowsBy(next, columns, p, opens) && SameDays(columns, points, dayOf)
    requires opens || dayOf(p.t) == dayOf(points[|points| - 1].t)
    ensures SameDays(next, points + [p], dayOf)
  {
    if opens {
      OpenedColumn(columns, points, p, dayOf);
    } else {
      MergedColumn(columns, points, p, dayOf);
    }
  }

  lemma SameDaysOneMore(before: seq<FilledPoint>, p: FilledPoint, hours: int, hourOf: int -> int, dayOf: int -> int)
    requires hours > 1 && SameDays(Grouped(before, hours, hourOf), before, dayOf)
    requires Opens(p, hours, hourOf) || dayOf(p.t) == dayOf(before[|before| - 1].t)
    ensures SameDays(Grouped(before + [p], hours, hourOf), before + [p], dayOf)
  {
    GroupOneMore(before, p, hours, hourOf);
    SameDaysIfGrown(Grouped(before + [p], hours, hourOf), Grouped(before, hours, hourOf), before, p,
                    Opens(p, hours, hourOf), dayOf);
  }

  lemma SameDaysOfOne(p: FilledPoint, hours: int, hourOf: int -> int, dayOf: int -> int)
    requires hours > 1
    ensures SameDays(Grouped([p], hours, hourOf), [p], dayOf)
  {
    assert Grouped([p], hours, hourOf) == [p];
  }

  lemma {:induction false} GroupingKeepsBoundaries(points: seq<FilledPoint>, hours: int, hourOf: int -> int,
                                                   dayOf: int -> int)
    requires hours > 1 && points != [] && DaysOpenColumns(points, hours, hourOf, dayOf)
    ensures SameDays(Grouped(points, hours, hourOf), points, dayOf)
  {
    var n := |points| - 1;
    var before, p := points[..n], points[n];
    assert points == before + [p];
    if n == 0 {
      SameDaysOfOne(p, hours, hourOf, dayOf);
    } else {
      FewerDaysOpen(points, n, hours, hourOf, dayOf);
      assert Turns(points, n, dayOf) ==> Opens(p, hours, hourOf);
      GroupingKeepsBoundaries(before, hours, hourOf, dayOf);
      SameDaysOneMore(before, p, hours, hourOf, dayOf);
    }
  }

  ghost predicate Increasing(points: seq<FilledPoint>) {
    forall i, j :: 0 <= i < j < |points| ==> points[i].t < points[j].t
  }

  lemma FilledIncreases(series: seq<UsagePoint>, r: Range)
    requires r.step > 0
    ensures Increasing(Filled(series, r))
  {
    var columns := Filled(series, r);
    forall i, j | 0 <= i < j < |columns|
      ensures columns[i].t < columns[j].t
    {
      EachBucketOnce(series, r, i);
      EachBucketOnce(series, r, j);
      Distribute(j, i, r.step);
      MultiplesGrow(j - i, r.step);
    }
  }

  /** The day boundaries of the grouped series are those of the ungrouped one exactly when every bucket in which the
      local day turns over opens a column. */
  lemma BoundariesSurviveExactlyWhen(points: seq<FilledPoint>, hours: int, hourOf: int -> int, dayOf: int -> int)
    requires hours > 1 && Increasing(points)
    ensures Boundaries(Grouped(points, hours, hourOf), dayOf) == Boundaries(points, dayOf)
            <==> DaysOpenColumns(points, hours, hourOf, dayOf)
  {
    if points == [] {
    } else if DaysOpenColumns(points, hours, hourOf, dayOf) {
      GroupingKeepsBoundaries(points, hours, hourOf, dayOf);
    } else {
      var i :| 0 < i < |points| && Turns(points, i, dayOf) && !Opens(points[i], hours, hourOf);
      HiddenBoundaryIsLost(points, hours, hourOf, dayOf, i);
    }
  }

  lemma HiddenBoundaryIsLost(points: seq<FilledPoint>, hours: int, hourOf: int -> int, dayOf: int -> int, i: nat)
    requires hours > 1 && Increasing(points) && 0 < i < |points|
    requires Turns(points, i, dayOf) && !Opens(points[i], hours, hourOf)
    ensures points[i].t in Boundaries(points, dayOf)
    ensures points[i].t !in Boundaries(Grouped(points, hours, hourOf), dayOf)
  {
    var t, out := points[i].t, Grouped(points, hours, hourOf);
    BoundariesAre(points, dayOf, t);
    BoundariesAre(out, dayOf, t);
    forall j | 0 < j < |out|
      ensures out[j].t != t
    {
      ColumnsOpen(points, hours, hourOf, j);
    }
  }

  /** When the first bucket of every local day has local hour zero, no boundary is lost. */
  lemma MidnightsAreKept(points: seq<FilledPoint>, hours: int, hourOf: int -> int, dayOf: int -> int)
    requires hours > 1 && Increasing(points)
    requires forall i :: 0 < i < |points| && Turns(points, i, dayOf) ==> hourOf(points[i].t) == 0
    ensures Boundaries(Grouped(points, hours, hourOf), dayOf) == Boundaries(points, dayOf)
  {
    MidnightsOpenColumns(points, hours, hourOf, dayOf);
    BoundariesSurviveExactlyWhen(points, hours, hourOf, dayOf);
  }

  lemma MidnightsOpenColumns(points: seq<FilledPoint>, hours: int, hourOf: int -> int, dayOf: int -> int)
    requires hours > 1
    requires forall i :: 0 < i < |points| && Turns(points, i, dayOf) ==> hourOf(points[i].t) == 0
    ensures DaysOpenColumns(points, hours, hourOf, dayOf)
  {
  }

  /** Where the clocks skip the hour after midnight, the day's first bucket has local hour one, and with columns of four
      hours its boundary is lost. */
  lemma SkippedMidnightLosesABoundary()
    ensures var hourOf := (t: int) => if t < 2 * HOUR_MS then 22 + t / HOUR_MS else t / HOUR_MS - 1;
            var dayOf := (t: int) => if t < 2 * HOUR_MS then 1 else 2;
            var points := Filled([], Range(0, Hour, HOUR_MS, 0, 2 * HOUR_MS));
            && Boundaries(points, dayOf) == [2 * HOUR_MS]
            && Boundaries(Grouped(points, 4, hourOf), dayOf) == []
  {
    var hourOf := (t: int) => if t < 2 * HOUR_MS then 22 + t / HOUR_MS else t / HOUR_MS - 1;
    var dayOf := (t: int) => if t < 2 * HOUR_MS then 1 else 2;
    var r := Range(0, Hour, HOUR_MS, 0, 2 * HOUR_MS);
    var points := Filled([], r);
    assert |points| == 3;
    assert points[0].t == 0 && points[1].t == HOUR_MS && points[2].t == 2 * HOUR_MS;
    assert points[..2][..1] == points[..1];
    assert Boundaries(points[..1], dayOf) == [];
    assert !Turns(points[..2], 1, dayOf);
    assert Boundaries(points[..2], dayOf) == [];
    var first := Grouped(points[..1], 4, hourOf);
    var second := Grouped(points[..2], 4, hourOf);
    assert |first| == 1;
    assert |second| == 1;
    assert |Grouped(points, 4, hourOf)| == 1;
  }

  // ---- the whole chart ----

  /** From the node's series to grouped columns: every point that lands is counted once, the columns tile the range from
      its start to the end of its last bucket, the day boundaries survive exactly when each turning bucket opens a
      column, and for the node's buckets the last column alone is still accumulating. */
  lemma ChartOfSeries(series: seq<UsagePoint>, preset: Preset, now: int, hours: int, hourOf: int -> int,
                      dayOf: int -> int)
    requires hours > 1 && preset.buckets >= 1
    ensures var r := SnapRange(preset, now);
            var columns, kept := Filled(series, r), Kept(series, r.from, r.step);
            var out, end := Grouped(columns, hours, hourOf), r.from + |columns| * r.step;
            && SumOf(out) == Sums(kept.up, kept.down, kept.up + kept.down, |columns|)
            && out != [] && out[0].t == r.from && Tiles(out, r.step) && EndOf(out[|out| - 1], r.step) == end
            && end - r.step <= LastBucket(series, r.end) < end
            && (Boundaries(out, dayOf) == Boundaries(columns, dayOf) <==>
               DaysOpenColumns(columns, hours, hourOf, dayOf))
            && (NodeSeries(series, r) ==> OnlyLastPartial(out))
  {
    var r := SnapRange(preset, now);
    var columns := Filled(series, r);
    if NodeSeries(series, r) {
      FilledOnlyLastPartial(series, preset, now);
      GroupingKeepsOnlyLastPartial(columns, hours, hourOf);
    }
    RangeIsNotEmpty(series, preset, now);
    FillingConserves(series, r);
    GroupingConserves(columns, hours, hourOf);
    FilledTiles(series, r);
    GroupingTiles(columns, hours, hourOf, r.step);
    FilledEnds(series, r);
    FilledIncreases(series, r);
    BoundariesSurviveExactlyWhen(columns, hours, hourOf, dayOf);
  }

  lemma FilledOnlyLastPartial(series: seq<UsagePoint>, preset: Preset, now: int)
    requires NodeSeries(series, SnapRange(preset, now))
    ensures OnlyLastPartial(Filled(series, SnapRange(preset, now)))
  {
    var columns := Filled(series, SnapRange(preset, now));
    forall k | 0 <= k < |columns|
      ensures columns[k].partial <==> k == |columns| - 1
    {
      OnlyTheLastIsPartial(series, preset, now, k);
    }
  }

  lemma RangeIsNotEmpty(series: seq<UsagePoint>, preset: Preset, now: int)
    requires preset.buckets >= 1
    ensures Filled(series, SnapRange(preset, now)) != []
  {
    SnappedIsAligned(preset, now);
    assert (preset.buckets - 1) * StepMs(preset.bucket) >= 0;
  }

  lemma FilledEnds(series: seq<UsagePoint>, r: Range)
    requires r.step > 0 && Filled(series, r) != []
    ensures var columns := Filled(series, r);
            var end := r.from + |columns| * r.step;
            && columns[0].t == r.from && EndOf(columns[|columns| - 1], r.step) == end
            && end - r.step <= LastBucket(series, r.end) < end
  {
    var n := |Filled(series, r)|;
    EachBucketOnce(series, r, 0);
    EachBucketOnce(series, r, n - 1);
    NextMultiple(n - 1, r.step);
  }
}
