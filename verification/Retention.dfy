/** Which archives survive a prune: backup/retention.go and the cleanup loops of backup/main.go. */
module Retention {
  import opened ArchiveNames
  import opened Lists

  datatype Entry = Entry(name: string, date: int)

  ghost predicate NewestFirst(bs: seq<Entry>) {
    forall i, j :: 0 <= i < j < |bs| ==> bs[i].date >= bs[j].date
  }

  ghost predicate DistinctNames(bs: seq<Entry>) {
    forall i, j :: 0 <= i < j < |bs| ==> bs[i].name != bs[j].name
  }

  function Names(bs: seq<Entry>): set<string> {
    set b | b in bs :: b.name
  }

  lemma NamesOfTail(bs: seq<Entry>)
    requires bs != []
    ensures Names(bs) == {bs[0].name} + Names(bs[1..])
  {
    assert bs == [bs[0]] + bs[1..];
  }

  function ToSet(names: seq<string>): set<string> {
    set x | x in names
  }

  // ---- the policy ----

  const CURRENT_DAY_SLOTS := 3
  const DAY_SLOTS := 3
  const WEEK_SLOTS := 2
  const MONTH_SLOTS := 2

  /** The first archive of every bucket that differs from the one before it, n of them at most. */
  function Keepers(bs: seq<Entry>, n: nat, key: int -> string, seen: string): (out: seq<string>)
    ensures |out| <= n
    ensures ToSet(out) <= Names(bs)
  {
    if bs == [] || n == 0 then []
    else
      NamesOfTail(bs);
      if key(bs[0].date) == seen then Keepers(bs[1..], n, key, seen)
      else [bs[0].name] + Keepers(bs[1..], n - 1, key, key(bs[0].date))
  }

  /** The leading archives of one bucket, n of them at most. */
  function Leading(bs: seq<Entry>, n: nat, key: int -> string, bucket: string): (out: seq<string>)
    ensures |out| <= n
    ensures ToSet(out) <= Names(bs)
  {
    if bs == [] || n == 0 || key(bs[0].date) != bucket then []
    else
      NamesOfTail(bs);
      [bs[0].name] + Leading(bs[1..], n - 1, key, bucket)
  }

  /** How archives are put in daily, weekly and monthly buckets. */
  datatype Keys = Keys(day: int -> string, week: int -> string, month: int -> string)

  const CALENDAR := Keys(DayKey, WeekKey, MonthKey)

  ghost predicate Orderly(k: Keys) {
    RespectsTime(k.day) && RespectsTime(k.week) && RespectsTime(k.month)
  }

  lemma CalendarIsOrderly()
    ensures Orderly(CALENDAR)
  {
    DayKeyRespectsTime();
    WeekKeyRespectsTime();
    MonthKeyRespectsTime();
  }

  /** The names the policy keeps out of a newest-first list. */
  function Keep(bs: seq<Entry>, k: Keys): (keep: set<string>)
    ensures keep <= Names(bs)
  {
    if bs == [] then {}
    else
      ToSet(Leading(bs, CURRENT_DAY_SLOTS, k.day, k.day(bs[0].date)))
      + ToSet(Keepers(bs, DAY_SLOTS, k.day, ""))
      + ToSet(Keepers(bs, WEEK_SLOTS, k.week, ""))
      + ToSet(Keepers(bs, MONTH_SLOTS, k.month, ""))
  }

  lemma KeepersNext(bs: seq<Entry>, i: nat, n: nat, key: int -> string, seen: string)
    requires i < |bs| && n > 0
    ensures var bucket := key(bs[i].date);
            Keepers(bs[i..], n, key, seen)
            == if bucket == seen then Keepers(bs[i + 1..], n, key, seen)
               else [bs[i].name] + Keepers(bs[i + 1..], n - 1, key, bucket)
  {
    assert bs[i..][1..] == bs[i + 1..];
  }

  /** The loop's progress: what is out so far and what is still to be found make up the whole. */
  ghost predicate FoundSoFar(out: seq<string>, bs: seq<Entry>, i: nat, slots: nat, key: int -> string, seen: string) {
    && i <= |bs| && |out| <= slots
    && out + Keepers(bs[i..], slots - |out|, key, seen) == Keepers(bs, slots, key, "")
  }

  lemma FindNext(out: seq<string>, bs: seq<Entry>, i: nat, slots: nat, key: int -> string, seen: string)
    requires FoundSoFar(out, bs, i, slots, key, seen) && i < |bs| && |out| < slots
    ensures var bucket := key(bs[i].date);
            if bucket == seen then FoundSoFar(out, bs, i + 1, slots, key, seen)
            else FoundSoFar(out + [bs[i].name], bs, i + 1, slots, key, bucket)
  {
    KeepersNext(bs, i, slots - |out|, key, seen);
  }

  /** The newest archive of each of the n newest buckets. The loop stops only on reaching n, so a count of zero or less
      keeps one of every bucket. */
  method BucketKeepers(backups: seq<Entry>, n: int, key: int -> string) returns (out: seq<string>)
    ensures out == Keepers(backups, if n > 0 then n else |backups|, key, "")
  {
    out := [];
    var seen := "";
    ghost var slots := if n > 0 then n else |backups|;
    assert backups[0..] == backups;
    for i := 0 to |backups|
      invariant |out| <= i && (n > 0 ==> |out| < n)
      invariant FoundSoFar(out, backups, i, slots, key, seen)
    {
      FindNext(out, backups, i, slots, key, seen);
      var bucket := key(backups[i].date);
      if bucket == seen {
        continue;
      }
      seen := bucket;
      out := out + [backups[i].name];
      if |out| == n {
        return;
      }
    }
  }

  lemma LeadingNext(bs: seq<Entry>, i: nat, n: nat, key: int -> string, bucket: string)
    requires i <= |bs|
    ensures Leading(bs[i..], n, key, bucket)
            == if i == |bs| || n == 0 || key(bs[i].date) != bucket then []
               else [bs[i].name] + Leading(bs[i + 1..], n - 1, key, bucket)
  {
    if i < |bs| {
      assert bs[i..][1..] == bs[i + 1..];
    }
  }

  /** The first loop of selectBackupsToKeep: the newest archives of one day, n of them at most. */
  method LeadingOfDay(backups: seq<Entry>, n: nat, key: int -> string, day: string) returns (out: seq<string>)
    ensures out == Leading(backups, n, key, day)
  {
    out := [];
    var i := 0;
    assert backups[0..] == backups;
    while i < |backups|
      invariant i <= |backups| && i <= n
      invariant out + Leading(backups[i..], n - i, key, day) == Leading(backups, n, key, day)
    {
      LeadingNext(backups, i, n - i, key, day);
      if i == n || key(backups[i].date) != day {
        return;
      }
      out := out + [backups[i].name];
      i := i + 1;
    }
    LeadingNext(backups, i, n - i, key, day);
  }

  method SelectBackupsToKeep(backups: seq<Entry>, k: Keys) returns (keep: set<string>)
    ensures keep == Keep(backups, k)
  {
    keep := {};
    if |backups| == 0 {
      return;
    }
    var current := LeadingOfDay(backups, CURRENT_DAY_SLOTS, k.day, k.day(backups[0].date));
    var days := BucketKeepers(backups, DAY_SLOTS, k.day);
    var weeks := BucketKeepers(backups, WEEK_SLOTS, k.week);
    var months := BucketKeepers(backups, MONTH_SLOTS, k.month);
    keep := ToSet(current) + ToSet(days) + ToSet(weeks) + ToSet(months);
  }

  // ---- what the slots mean ----

  ghost function KeysBefore(bs: seq<Entry>, key: int -> string, i: nat): set<string>
    requires i <= |bs|
  {
    set j | 0 <= j < i :: key(bs[j].date)
  }

  /** Archive i is the newest of its bucket, and fewer than n buckets are newer. */
  ghost predicate LeadsBucket(bs: seq<Entry>, n: nat, key: int -> string, i: nat)
    requires i < |bs|
  {
    key(bs[i].date) !in KeysBefore(bs, key, i) && |KeysBefore(bs, key, i)| < n
  }

  lemma FewerBefore(bs: seq<Entry>, key: int -> string, p: nat, i: nat)
    requires p <= i <= |bs|
    ensures |KeysBefore(bs, key, p)| <= |KeysBefore(bs, key, i)|
  {
    SubsetIsNoLarger(KeysBefore(bs, key, p), KeysBefore(bs, key, i));
  }

  lemma NameOccursOnce(bs: seq<Entry>, p: nat)
    requires DistinctNames(bs) && p < |bs|
    ensures bs[p].name !in Names(bs[p + 1..])
  {
  }

  /** Does archive p open a bucket? */
  predicate OpensBucket(bs: seq<Entry>, key: int -> string, p: nat)
    requires p < |bs|
  {
    p == 0 || key(bs[p].date) != key(bs[p - 1].date)
  }

  lemma NewBucket(bs: seq<Entry>, key: int -> string, p: nat)
    requires NewestFirst(bs) && RespectsTime(key) && p < |bs|
    ensures OpensBucket(bs, key, p) <==> key(bs[p].date) !in KeysBefore(bs, key, p)
    ensures KeysBefore(bs, key, p + 1) == KeysBefore(bs, key, p) + {key(bs[p].date)}
  {
    if OpensBucket(bs, key, p) {
      forall j | 0 <= j < p
        ensures key(bs[j].date) != key(bs[p].date)
      {
        assert Between(key, bs[p].date, bs[p - 1].date, bs[j].date);
      }
    }
  }

  /** The key remembered before archive p, and the slots not yet taken. */
  function SeenBefore(bs: seq<Entry>, key: int -> string, p: nat): string
    requires p <= |bs|
  {
    if p == 0 then "" else key(bs[p - 1].date)
  }

  ghost function SlotsLeft(bs: seq<Entry>, n: nat, key: int -> string, p: nat): nat
    requires p <= |bs|
  {
    var used := |KeysBefore(bs, key, p)|;
    if used < n then n - used else 0
  }

  lemma SlotsAfter(bs: seq<Entry>, n: nat, key: int -> string, p: nat)
    requires NewestFirst(bs) && RespectsTime(key) && p < |bs|
    ensures key(bs[p].date) == SeenBefore(bs, key, p) <==> !OpensBucket(bs, key, p)
    ensures var left := SlotsLeft(bs, n, key, p);
            SlotsLeft(bs, n, key, p + 1) == if !OpensBucket(bs, key, p) || left == 0 then left else left - 1
  {
    NewBucket(bs, key, p);
    var before, k := KeysBefore(bs, key, p), key(bs[p].date);
    if !OpensBucket(bs, key, p) {
      assert before + {k} == before;
    } else {
      assert |before + {k}| == |before| + 1;
    }
  }

  lemma {:induction false} KeepersFrom(bs: seq<Entry>, n: nat, key: int -> string, p: nat, i: nat)
    requires NewestFirst(bs) && DistinctNames(bs) && RespectsTime(key) && p <= i < |bs|
    ensures bs[i].name in KeepersAt(bs, n, key, p) <==> LeadsBucket(bs, n, key, i)
    decreases |bs| - p
  {
    KeepersStep(bs, n, key, p);
    if p == i {
      KeeperHere(bs, n, key, p);
    } else {
      KeepersFrom(bs, n, key, p + 1, i);
      FewerBefore(bs, key, p, i);
      assert bs[i].name != bs[p].name;
    }
  }

  /** What bucketKeepers still finds from archive p on. */
  ghost function KeepersAt(bs: seq<Entry>, n: nat, key: int -> string, p: nat): seq<string>
    requires p <= |bs|
  {
    Keepers(bs[p..], SlotsLeft(bs, n, key, p), key, SeenBefore(bs, key, p))
  }

  lemma KeepersStep(bs: seq<Entry>, n: nat, key: int -> string, p: nat)
    requires NewestFirst(bs) && RespectsTime(key) && p < |bs|
    ensures SlotsLeft(bs, n, key, p) > 0 ==>
              KeepersAt(bs, n, key, p)
              == (if OpensBucket(bs, key, p) then [bs[p].name] else []) + KeepersAt(bs, n, key, p + 1)
    ensures SlotsLeft(bs, n, key, p) == 0 ==> KeepersAt(bs, n, key, p) == []
  {
    assert bs[p..][1..] == bs[p + 1..];
    SlotsAfter(bs, n, key, p);
  }

  lemma KeeperHere(bs: seq<Entry>, n: nat, key: int -> string, p: nat)
    requires NewestFirst(bs) && DistinctNames(bs) && RespectsTime(key) && p < |bs|
    ensures bs[p].name in KeepersAt(bs, n, key, p) <==> LeadsBucket(bs, n, key, p)
  {
    KeepersStep(bs, n, key, p);
    NewBucket(bs, key, p);
    NameOccursOnce(bs, p);
    assert bs[p].name !in ToSet(KeepersAt(bs, n, key, p + 1));
  }

  /** One remembered key is enough: the result is exactly the newest archive of each of the n newest buckets. */
  lemma KeepersLeadBuckets(bs: seq<Entry>, n: nat, key: int -> string, i: nat)
    requires NewestFirst(bs) && DistinctNames(bs) && RespectsTime(key) && i < |bs|
    ensures bs[i].name in Keepers(bs, n, key, "") <==> LeadsBucket(bs, n, key, i)
  {
    assert bs[0..] == bs;
    assert KeysBefore(bs, key, 0) == {};
    KeepersFrom(bs, n, key, 0, i);
  }

  lemma {:induction false} LeadingFrom(bs: seq<Entry>, key: int -> string, n: nat, p: nat, i: nat)
    requires NewestFirst(bs) && DistinctNames(bs) && RespectsTime(key) && p <= i < |bs| && p <= n
    ensures bs[i].name in Leading(bs[p..], n - p, key, key(bs[0].date)) <==> i < n && key(bs[i].date) == key(bs[0].date)
    decreases |bs| - p
  {
    assert bs[p..][1..] == bs[p + 1..];
    assert Between(key, bs[i].date, bs[p].date, bs[0].date);
    if p < n && key(bs[p].date) == key(bs[0].date) && p < i {
      assert bs[i].name != bs[p].name;
      LeadingFrom(bs, key, n, p + 1, i);
    }
  }

  /** Archive i is one of the three newest and of the newest day, or the newest of one of the three newest days, two
      newest weeks or two newest months. */
  ghost predicate Retained(bs: seq<Entry>, k: Keys, i: nat)
    requires i < |bs|
  {
    || (i < CURRENT_DAY_SLOTS && k.day(bs[i].date) == k.day(bs[0].date))
    || LeadsBucket(bs, DAY_SLOTS, k.day, i)
    || LeadsBucket(bs, WEEK_SLOTS, k.week, i)
    || LeadsBucket(bs, MONTH_SLOTS, k.month, i)
  }

  lemma KeptExactlyWhen(bs: seq<Entry>, k: Keys, i: nat)
    requires NewestFirst(bs) && DistinctNames(bs) && Orderly(k) && i < |bs|
    ensures bs[i].name in Keep(bs, k) <==> Retained(bs, k, i)
  {
    assert bs[0..] == bs;
    LeadingFrom(bs, k.day, CURRENT_DAY_SLOTS, 0, i);
    KeepersLeadBuckets(bs, DAY_SLOTS, k.day, i);
    KeepersLeadBuckets(bs, WEEK_SLOTS, k.week, i);
    KeepersLeadBuckets(bs, MONTH_SLOTS, k.month, i);
  }

  lemma {:induction false} SetIsNoLarger(names: seq<string>)
    ensures |ToSet(names)| <= |names|
  {
    if names != [] {
      SetIsNoLarger(names[1..]);
      assert ToSet(names) == {names[0]} + ToSet(names[1..]);
    }
  }

  lemma SharedHead(out: seq<string>, head: string, n: nat)
    requires out != [] && out[0] == head && |out| <= n
    ensures |ToSet(out) - {head}| <= n - 1
  {
    SetIsNoLarger(out[1..]);
    SubsetIsNoLarger(ToSet(out) - {head}, ToSet(out[1..]));
  }

  lemma UnionIsNoLarger(a: set<string>, b: set<string>)
    ensures |a + b| <= |a| + |b|
  {
  }

  lemma KeepersStart(bs: seq<Entry>, n: nat, key: int -> string)
    requires bs != [] && n > 0 && key(bs[0].date) != ""
    ensures var out := Keepers(bs, n, key, ""); out != [] && out[0] == bs[0].name
  {
  }

  /** At most seven archives are kept, whatever the input, and the newest is always one of them. */
  lemma AtMostSevenAreKept(bs: seq<Entry>, k: Keys)
    requires Orderly(k)
    ensures |Keep(bs, k)| <= 7
    ensures bs != [] ==> bs[0].name in Keep(bs, k)
  {
    if bs != [] {
      var head := bs[0].name;
      var l := Leading(bs, CURRENT_DAY_SLOTS, k.day, k.day(bs[0].date));
      var d, w := Keepers(bs, DAY_SLOTS, k.day, ""), Keepers(bs, WEEK_SLOTS, k.week, "");
      var m := Keepers(bs, MONTH_SLOTS, k.month, "");
      KeepersStart(bs, DAY_SLOTS, k.day);
      KeepersStart(bs, WEEK_SLOTS, k.week);
      KeepersStart(bs, MONTH_SLOTS, k.month);
      SharedHead(d, head, DAY_SLOTS);
      SharedHead(w, head, WEEK_SLOTS);
      SharedHead(m, head, MONTH_SLOTS);
      SetIsNoLarger(l);
      assert l[0] == head;
      SharedUnion(ToSet(l), ToSet(d), ToSet(w), ToSet(m), head);
    }
  }

  /** Four sets that share an element. */
  lemma SharedUnion(a: set<string>, b: set<string>, c: set<string>, d: set<string>, x: string)
    requires x in a && |a| <= 3 && |b - {x}| <= 2 && |c - {x}| <= 1 && |d - {x}| <= 1
    ensures |a + b + c + d| <= 7 && x in a + b + c + d
  {
    assert a + b + c + d == a + (b - {x}) + (c - {x}) + (d - {x});
    UnionIsNoLarger(a, b - {x});
    UnionIsNoLarger(a + (b - {x}), c - {x});
    UnionIsNoLarger(a + (b - {x}) + (c - {x}), d - {x});
  }

  // ---- path independence ----

  /** ps is bs with some archives left out. */
  ghost predicate Thinned(ps: seq<Entry>, bs: seq<Entry>) {
    if ps == [] then true
    else if bs == [] then false
    else if ps[0] == bs[0] then Thinned(ps[1..], bs[1..])
    else Thinned(ps, bs[1..])
  }

  lemma {:induction false} ThinnedNames(ps: seq<Entry>, bs: seq<Entry>)
    requires Thinned(ps, bs)
    ensures forall b :: b in ps ==> b in bs
    ensures Names(ps) <= Names(bs)
  {
    if ps == [] {
      assert Names(ps) == {};
    } else {
      NamesOfTail(bs);
      NamesOfTail(ps);
      if ps[0] == bs[0] {
        ThinnedNames(ps[1..], bs[1..]);
        assert ps == [ps[0]] + ps[1..];
      } else {
        ThinnedNames(ps, bs[1..]);
      }
    }
  }

  lemma HeadSurvives(ps: seq<Entry>, bs: seq<Entry>)
    requires bs != [] && Thinned(ps, bs) && DistinctNames(bs) && bs[0].name in Names(ps)
    ensures ps != [] && ps[0] == bs[0] && Thinned(ps[1..], bs[1..])
  {
    NameOccursOnce(bs, 0);
    if ps == [] || ps[0] != bs[0] {
      ThinnedNames(ps, bs[1..]);
      assert false;
    }
  }

  lemma TailNames(ps: seq<Entry>, bs: seq<Entry>, out: seq<string>)
    requires bs != [] && ps != [] && ps[0] == bs[0] && DistinctNames(bs)
    requires ToSet(out) <= Names(bs[1..]) && ToSet(out) <= Names(ps)
    ensures ToSet(out) <= Names(ps[1..])
  {
    NameOccursOnce(bs, 0);
    assert Names(ps) == {ps[0].name} + Names(ps[1..]);
  }

  lemma {:induction false} KeepersOfThinned(ps: seq<Entry>, bs: seq<Entry>, n: nat, key: int -> string, seen: string)
    requires Thinned(ps, bs) && DistinctNames(bs)
    requires ToSet(Keepers(bs, n, key, seen)) <= Names(ps)
    ensures Keepers(ps, n, key, seen) == Keepers(bs, n, key, seen)
  {
    if bs != [] && n > 0 {
      var bucket, out := key(bs[0].date), Keepers(bs, n, key, seen);
      if bucket != seen {
        assert out[0] == bs[0].name;
        HeadSurvives(ps, bs);
        assert out[1..] == Keepers(bs[1..], n - 1, key, bucket);
        TailNames(ps, bs, out[1..]);
        KeepersOfThinned(ps[1..], bs[1..], n - 1, key, bucket);
      } else if ps != [] && ps[0] == bs[0] {
        TailNames(ps, bs, out);
        KeepersOfThinned(ps[1..], bs[1..], n, key, seen);
      } else {
        KeepersOfThinned(ps, bs[1..], n, key, seen);
      }
    }
  }

  lemma {:induction false} LeadingOfThinned(ps: seq<Entry>, bs: seq<Entry>, n: nat, key: int -> string, bucket: string)
    requires Thinned(ps, bs) && DistinctNames(bs)
    requires forall i, j :: 0 <= i < j < |bs| && key(bs[i].date) != bucket ==> key(bs[j].date) != bucket
    requires ToSet(Leading(bs, n, key, bucket)) <= Names(ps)
    ensures Leading(ps, n, key, bucket) == Leading(bs, n, key, bucket)
  {
    if bs != [] && n > 0 {
      var out := Leading(bs, n, key, bucket);
      if key(bs[0].date) == bucket {
        assert out[0] == bs[0].name;
        HeadSurvives(ps, bs);
        assert out[1..] == Leading(bs[1..], n - 1, key, bucket);
        TailNames(ps, bs, out[1..]);
        LeadingOfThinned(ps[1..], bs[1..], n - 1, key, bucket);
      } else if ps != [] {
        ThinnedNames(ps, bs);
        assert ps[0] in bs;
      }
    }
  }

  lemma LeadingRunsOut(bs: seq<Entry>, key: int -> string, bucket: string)
    requires NewestFirst(bs) && RespectsTime(key) && bs != [] && bucket == key(bs[0].date)
    ensures forall i, j :: 0 <= i < j < |bs| && key(bs[i].date) != bucket ==> key(bs[j].date) != bucket
  {
    forall i, j | 0 <= i < j < |bs| && key(bs[i].date) != bucket
      ensures key(bs[j].date) != bucket
    {
      assert Between(key, bs[j].date, bs[i].date, bs[0].date);
    }
  }

  /** Leaving out archives the policy would drop changes nothing it keeps, whatever the order among equal timestamps. */
  lemma KeepOfThinned(ps: seq<Entry>, bs: seq<Entry>, k: Keys)
    requires Thinned(ps, bs) && DistinctNames(bs) && NewestFirst(bs) && Orderly(k)
    requires Keep(bs, k) <= Names(ps)
    ensures Keep(ps, k) == Keep(bs, k)
  {
    if bs != [] {
      AtMostSevenAreKept(bs, k);
      HeadSurvives(ps, bs);
      LeadingRunsOut(bs, k.day, k.day(bs[0].date));
      LeadingOfThinned(ps, bs, CURRENT_DAY_SLOTS, k.day, k.day(bs[0].date));
      KeepersOfThinned(ps, bs, DAY_SLOTS, k.day, "");
      KeepersOfThinned(ps, bs, WEEK_SLOTS, k.week, "");
      KeepersOfThinned(ps, bs, MONTH_SLOTS, k.month, "");
    }
  }

  ghost predicate StrictlyNewestFirst(bs: seq<Entry>) {
    forall i, j :: 0 <= i < j < |bs| ==> bs[i].date > bs[j].date
  }

  /** With distinct timestamps there is one newest-first order, so a smaller pool is a thinned one. */
  lemma {:induction false} SubsetsAreThinned(ps: seq<Entry>, bs: seq<Entry>)
    requires StrictlyNewestFirst(ps) && StrictlyNewestFirst(bs)
    requires forall b :: b in ps ==> b in bs
    ensures Thinned(ps, bs)
  {
    if ps != [] {
      assert ps[0] in bs;
      if ps[0] == bs[0] {
        forall b | b in ps[1..]
          ensures b in bs[1..]
        {
          assert b in ps && ps[0].date > b.date;
        }
        SubsetsAreThinned(ps[1..], bs[1..]);
      } else {
        forall b | b in ps
          ensures b in bs[1..]
        {
          assert b in bs && b.date <= ps[0].date < bs[0].date;
        }
        SubsetsAreThinned(ps, bs[1..]);
      }
    }
  }

  /** Path independence: for distinct timestamps, every pool P with keep(H) <= P <= H has keep(P) = keep(H). */
  lemma KeepIsPathIndependent(pool: seq<Entry>, history: seq<Entry>, k: Keys)
    requires StrictlyNewestFirst(pool) && StrictlyNewestFirst(history) && DistinctNames(history) && Orderly(k)
    requires forall b :: b in pool ==> b in history
    requires Keep(history, k) <= Names(pool)
    ensures Keep(pool, k) == Keep(history, k)
  {
    SubsetsAreThinned(pool, history);
    KeepOfThinned(pool, history, k);
  }

  // ---- whole runs of the backup loop ----

  /** One round of the loop: the archive it wrote and the names whose deletion failed. */
  datatype Round = Round(taken: Entry, failed: set<string>)

  function Surviving(bs: seq<Entry>, keep: set<string>): seq<Entry> {
    if bs == [] then []
    else if bs[0].name in keep then [bs[0]] + Surviving(bs[1..], keep)
    else Surviving(bs[1..], keep)
  }

  /** What a round finds before it prunes: its own archive and what the rounds before it left. */
  function Listed(rounds: seq<Round>, k: Keys): seq<Entry>
    requires rounds != []
    decreases |rounds|, 0
  {
    [rounds[|rounds| - 1].taken] + PoolAfter(rounds[..|rounds| - 1], k)
  }

  /** The archives left after a run of the loop, newest first. */
  function PoolAfter(rounds: seq<Round>, k: Keys): seq<Entry>
    decreases |rounds|, 1
  {
    if rounds == [] then []
    else Surviving(Listed(rounds, k), Keep(Listed(rounds, k), k) + rounds[|rounds| - 1].failed)
  }

  /** Every archive the run wrote, newest first, as if nothing had been pruned. */
  function HistoryAfter(rounds: seq<Round>): seq<Entry> {
    if rounds == [] then []
    else [rounds[|rounds| - 1].taken] + HistoryAfter(rounds[..|rounds| - 1])
  }

  lemma {:induction false} SurvivorsAreThinned(bs: seq<Entry>, keep: set<string>)
    ensures Thinned(Surviving(bs, keep), bs)
    ensures Names(Surviving(bs, keep)) == Names(bs) * keep
  {
    if bs != [] {
      var rest := Surviving(bs[1..], keep);
      SurvivorsAreThinned(bs[1..], keep);
      assert Names(bs) == {bs[0].name} + Names(bs[1..]);
      if bs[0].name in keep {
        assert Names([bs[0]] + rest) == {bs[0].name} + Names(rest);
        assert ([bs[0]] + rest)[1..] == rest;
      } else if rest != [] {
        ThinnedNames(rest, bs[1..]);
        assert rest[0].name in Names(rest);
      }
    }
  }

  lemma {:induction false} ThinnedIsTransitive(a: seq<Entry>, b: seq<Entry>, c: seq<Entry>)
    requires Thinned(a, b) && Thinned(b, c)
    requires DistinctNames(c)
    ensures Thinned(a, c)
    decreases |b| + |c|
  {
    if a != [] {
      if b[0] == c[0] {
        if a[0] == b[0] {
          ThinnedIsTransitive(a[1..], b[1..], c[1..]);
        } else {
          ThinnedIsTransitive(a, b[1..], c[1..]);
        }
      } else {
        if a[0] == c[0] {
          ThinnedNames(a, b);
          ThinnedNames(b, c[1..]);
          NameOccursOnce(c, 0);
          assert false;
        }
        ThinnedIsTransitive(a, b, c[1..]);
      }
    }
  }

  lemma LeadsShorter(x: Entry, bs: seq<Entry>, n: nat, key: int -> string, i: nat)
    requires i < |bs|
    ensures LeadsBucket([x] + bs, n, key, i + 1) ==> LeadsBucket(bs, n, key, i)
  {
    var xs := [x] + bs;
    forall j | 0 <= j < i
      ensures key(bs[j].date) in KeysBefore(xs, key, i + 1)
    {
      assert bs[j] == xs[j + 1];
    }
    SubsetIsNoLarger(KeysBefore(bs, key, i), KeysBefore(xs, key, i + 1));
  }

  /** A newer archive can only displace: whatever the longer list keeps of the old ones, the old list kept. */
  lemma KeepOfLonger(x: Entry, bs: seq<Entry>, k: Keys)
    requires NewestFirst([x] + bs) && DistinctNames([x] + bs) && Orderly(k)
    ensures Keep([x] + bs, k) <= {x.name} + Keep(bs, k)
  {
    var xs := [x] + bs;
    assert bs == xs[1..];
    forall n | n in Keep(xs, k) && n != x.name
      ensures n in Keep(bs, k)
    {
      NamesOfTail(xs);
      var b :| b in bs && b.name == n;
      var i :| 0 <= i < |bs| && bs[i] == b;
      KeptOfLonger(x, bs, k, i);
    }
  }

  lemma KeptOfLonger(x: Entry, bs: seq<Entry>, k: Keys, i: nat)
    requires NewestFirst([x] + bs) && DistinctNames([x] + bs) && Orderly(k) && i < |bs|
    requires bs[i].name in Keep([x] + bs, k)
    ensures bs[i].name in Keep(bs, k)
  {
    var xs := [x] + bs;
    TailIsOrdered(x, bs);
    KeptExactlyWhen(xs, k, i + 1);
    RetainedOfLonger(x, bs, k, i);
    KeptExactlyWhen(bs, k, i);
  }

  lemma TailIsOrdered(x: Entry, bs: seq<Entry>)
    requires NewestFirst([x] + bs) && DistinctNames([x] + bs)
    ensures NewestFirst(bs) && DistinctNames(bs)
  {
    var xs := [x] + bs;
    assert forall i :: 0 <= i < |bs| ==> xs[i + 1] == bs[i];
  }

  lemma RetainedOfLonger(x: Entry, bs: seq<Entry>, k: Keys, i: nat)
    requires NewestFirst([x] + bs) && Orderly(k) && i < |bs| && Retained([x] + bs, k, i + 1)
    ensures Retained(bs, k, i)
  {
    var xs := [x] + bs;
    assert xs[0] == x && xs[i + 1] == bs[i] && xs[1] == bs[0];
    LeadsShorter(x, bs, DAY_SLOTS, k.day, i);
    LeadsShorter(x, bs, WEEK_SLOTS, k.week, i);
    LeadsShorter(x, bs, MONTH_SLOTS, k.month, i);
    assert x.date >= bs[0].date >= bs[i].date by {
      assert xs[0].date >= xs[1].date;
      if i > 0 {
        assert xs[1].date >= xs[i + 1].date;
      }
    }
    assert Between(k.day, bs[i].date, bs[0].date, x.date);
    if i + 1 < CURRENT_DAY_SLOTS && k.day(xs[i + 1].date) == k.day(xs[0].date) {
      assert k.day(bs[i].date) == k.day(bs[0].date);
    }
  }

  /** The archives a round lists are the history thinned, and nothing the history keeps is missing. */
  lemma {:induction false} ListedIsThinned(rounds: seq<Round>, k: Keys)
    requires rounds != [] && NewestFirst(HistoryAfter(rounds)) && DistinctNames(HistoryAfter(rounds)) && Orderly(k)
    ensures Thinned(Listed(rounds, k), HistoryAfter(rounds))
    ensures Keep(HistoryAfter(rounds), k) <= Names(Listed(rounds, k))
    ensures Keep(Listed(rounds, k), k) == Keep(HistoryAfter(rounds), k)
    decreases |rounds|, 0
  {
    var init, x := rounds[..|rounds| - 1], rounds[|rounds| - 1].taken;
    var history, whole, listed := HistoryAfter(init), HistoryAfter(rounds), Listed(rounds, k);
    assert whole[1..] == history && listed[1..] == PoolAfter(init, k);
    PruningEveryRoundKeepsTheHistorysChoice(init, k);
    KeepOfLonger(x, history, k);
    NamesOfTail(listed);
    KeepOfThinned(listed, whole, k);
  }

  /** Pruning after every round, even when deletions fail, keeps exactly what one selection over the whole
      unpruned history would keep. */
  lemma {:induction false} PruningEveryRoundKeepsTheHistorysChoice(rounds: seq<Round>, k: Keys)
    requires NewestFirst(HistoryAfter(rounds)) && DistinctNames(HistoryAfter(rounds)) && Orderly(k)
    ensures Thinned(PoolAfter(rounds, k), HistoryAfter(rounds))
    ensures Keep(HistoryAfter(rounds), k) <= Names(PoolAfter(rounds, k))
    ensures Keep(PoolAfter(rounds, k), k) == Keep(HistoryAfter(rounds), k)
    decreases |rounds|, 1
  {
    if rounds != [] {
      var listed := Listed(rounds, k);
      ListedIsThinned(rounds, k);
      SurvivorsAreThinned(listed, Keep(listed, k) + rounds[|rounds| - 1].failed);
      ThinnedIsTransitive(PoolAfter(rounds, k), listed, HistoryAfter(rounds));
      KeepOfThinned(PoolAfter(rounds, k), HistoryAfter(rounds), k);
    }
  }

  lemma FullPrune(rounds: seq<Round>, k: Keys)
    requires rounds != [] && rounds[|rounds| - 1].failed == {}
    ensures Names(PoolAfter(rounds, k)) == Keep(Listed(rounds, k), k)
  {
    var listed := Listed(rounds, k);
    var keep := Keep(listed, k);
    assert keep + {} == keep;
    SurvivorsAreThinned(listed, keep);
  }

  /** Once a round deletes all it set out to, pruning again removes nothing and at most seven archives are left. */
  lemma SecondPruneRemovesNothing(rounds: seq<Round>, k: Keys)
    requires NewestFirst(HistoryAfter(rounds)) && DistinctNames(HistoryAfter(rounds)) && Orderly(k)
    requires rounds != [] && rounds[|rounds| - 1].failed == {}
    ensures Names(PoolAfter(rounds, k)) == Keep(PoolAfter(rounds, k), k)
    ensures |Names(PoolAfter(rounds, k))| <= 7
  {
    ListedIsThinned(rounds, k);
    PruningEveryRoundKeepsTheHistorysChoice(rounds, k);
    FullPrune(rounds, k);
    AtMostSevenAreKept(Listed(rounds, k), k);
  }
}
