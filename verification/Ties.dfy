/** What archives of equal timestamps leave to the unstable sort of backup/retention.go. */
module Ties {
  import opened ArchiveNames
  import opened Calendar
  import opened Lists
  import opened Prune
  import opened Retention

  /** cs is a newest-first order of the same archives. */
  ghost predicate SameArchives(bs: seq<Entry>, cs: seq<Entry>) {
    NewestFirst(cs) && multiset(cs) == multiset(bs)
  }

  ghost predicate SameDates(bs: seq<Entry>, cs: seq<Entry>) {
    |bs| == |cs| && forall i :: 0 <= i < |bs| ==> bs[i].date == cs[i].date
  }

  function Swapped(cs: seq<Entry>, i: nat, j: nat): (out: seq<Entry>)
    requires i < |cs| && j < |cs|
    ensures multiset(out) == multiset(cs)
  {
    cs[i := cs[j]][j := cs[i]]
  }

  lemma SwappedIsNewestFirst(cs: seq<Entry>, j: nat)
    requires NewestFirst(cs) && j < |cs| && cs[j].date == cs[0].date
    ensures SameDates(cs, Swapped(cs, 0, j)) && NewestFirst(Swapped(cs, 0, j))
  {
  }

  /** The newest archive of one order can be moved to the front of the other. */
  lemma HeadsMeet(bs: seq<Entry>, cs: seq<Entry>) returns (ds: seq<Entry>)
    requires NewestFirst(bs) && SameArchives(bs, cs) && bs != []
    ensures SameArchives(bs, ds) && SameDates(cs, ds) && ds != [] && ds[0] == bs[0]
  {
    assert |multiset(bs)| == |multiset(cs)|;
    assert bs[0] in multiset(cs) && cs[0] in multiset(bs);
    var j :| 0 <= j < |cs| && cs[j] == bs[0];
    var i :| 0 <= i < |bs| && bs[i] == cs[0];
    assert bs[0].date >= bs[i].date && cs[0].date >= cs[j].date;
    SwappedIsNewestFirst(cs, j);
    ds := Swapped(cs, 0, j);
  }

  lemma TailsAreSameArchives(bs: seq<Entry>, ds: seq<Entry>)
    requires NewestFirst(bs) && SameArchives(bs, ds) && bs != [] && ds != [] && ds[0] == bs[0]
    ensures NewestFirst(bs[1..]) && SameArchives(bs[1..], ds[1..])
  {
    TailAsMultiset(bs);
    TailAsMultiset(ds);
  }

  lemma LongerDates(bs: seq<Entry>, cs: seq<Entry>, ds: seq<Entry>)
    requires bs != [] && ds != [] && bs[0].date == ds[0].date
    requires SameDates(bs[1..], ds[1..]) && SameDates(cs, ds)
    ensures SameDates(bs, cs)
  {
    assert |bs[1..]| == |ds[1..]|;
    forall i | 0 <= i < |bs|
      ensures bs[i].date == cs[i].date
    {
      assert i > 0 ==> bs[i] == bs[1..][i - 1] && ds[i] == ds[1..][i - 1];
    }
  }

  /** Two newest-first orders of the same archives differ only among equal dates. */
  lemma {:induction false} OrdersAgreeOnDates(bs: seq<Entry>, cs: seq<Entry>)
    requires NewestFirst(bs) && SameArchives(bs, cs)
    ensures SameDates(bs, cs)
    decreases |bs|
  {
    if bs == [] {
      assert |multiset(cs)| == 0;
    } else {
      var ds := HeadsMeet(bs, cs);
      TailsAreSameArchives(bs, ds);
      OrdersAgreeOnDates(bs[1..], ds[1..]);
      LongerDates(bs, cs, ds);
    }
  }

  // ---- which ties decide ----

  /** Archives i and i + 1 share their instant, and only the first of them is kept: it takes the last slot of the newest
      day, or it opens a bucket that has a slot while its successor has none of the newest day's. */
  ghost predicate TieDecides(bs: seq<Entry>, k: Keys, i: nat)
    requires i + 1 < |bs|
  {
    && bs[i].date == bs[i + 1].date
    && var newestDay := k.day(bs[i].date) == k.day(bs[0].date);
       || (newestDay && i + 1 == CURRENT_DAY_SLOTS)
       || ((!newestDay || i + 1 >= CURRENT_DAY_SLOTS)
           && (LeadsBucket(bs, DAY_SLOTS, k.day, i) || LeadsBucket(bs, WEEK_SLOTS, k.week, i)
               || LeadsBucket(bs, MONTH_SLOTS, k.month, i)))
  }

  /** A tie decides exactly when one of its two archives is kept and the other is not. */
  lemma TieDecidesMeans(bs: seq<Entry>, k: Keys, i: nat)
    requires NewestFirst(bs) && Orderly(k) && i + 1 < |bs| && bs[i].date == bs[i + 1].date
    ensures TieDecides(bs, k, i) <==> Retained(bs, k, i) != Retained(bs, k, i + 1)
  {
    NewBucket(bs, k.day, i + 1);
    NewBucket(bs, k.week, i + 1);
    NewBucket(bs, k.month, i + 1);
  }

  lemma BucketsDependOnDates(bs: seq<Entry>, cs: seq<Entry>, n: nat, key: int -> string, i: nat)
    requires SameDates(bs, cs) && i < |bs|
    ensures LeadsBucket(bs, n, key, i) == LeadsBucket(cs, n, key, i)
  {
    assert KeysBefore(bs, key, i) == KeysBefore(cs, key, i);
  }

  /** What a position keeps depends on the dates alone. */
  lemma RetainedDependsOnDates(bs: seq<Entry>, cs: seq<Entry>, k: Keys, i: nat)
    requires SameDates(bs, cs) && i < |bs|
    ensures Retained(bs, k, i) == Retained(cs, k, i)
  {
    BucketsDependOnDates(bs, cs, DAY_SLOTS, k.day, i);
    BucketsDependOnDates(bs, cs, WEEK_SLOTS, k.week, i);
    BucketsDependOnDates(bs, cs, MONTH_SLOTS, k.month, i);
  }

  ghost predicate NoTieDecides(bs: seq<Entry>, k: Keys) {
    forall i :: 0 <= i < |bs| - 1 ==> !TieDecides(bs, k, i)
  }

  /** Without a deciding tie, positions of one date are all kept or all dropped. */
  lemma {:induction false} EqualDatesFareAlike(bs: seq<Entry>, k: Keys, i: nat, j: nat)
    requires NewestFirst(bs) && Orderly(k) && NoTieDecides(bs, k) && i <= j < |bs| && bs[i].date == bs[j].date
    ensures Retained(bs, k, i) == Retained(bs, k, j)
    decreases j
  {
    if i < j {
      assert bs[i].date >= bs[j - 1].date >= bs[j].date;
      TieDecidesMeans(bs, k, j - 1);
      EqualDatesFareAlike(bs, k, i, j - 1);
    }
  }

  lemma KeptInBothOrders(bs: seq<Entry>, cs: seq<Entry>, k: Keys, i: nat)
    requires NewestFirst(bs) && DistinctNames(bs) && DistinctNames(cs) && Orderly(k) && NoTieDecides(bs, k)
    requires SameArchives(bs, cs) && SameDates(bs, cs) && i < |bs| && Retained(bs, k, i)
    ensures bs[i].name in Keep(cs, k)
  {
    assert bs[i] in multiset(cs);
    var j :| 0 <= j < |cs| && cs[j] == bs[i];
    EqualDatesFareAlike(bs, k, if i <= j then i else j, if i <= j then j else i);
    RetainedDependsOnDates(bs, cs, k, j);
    KeptExactlyWhen(cs, k, j);
  }

  lemma OccursOnce(bs: seq<Entry>, p: nat)
    requires DistinctNames(bs) && p < |bs|
    ensures multiset(bs)[bs[p]] == 1
  {
    assert bs == bs[..p] + [bs[p]] + bs[p + 1..];
    assert bs[p] !in bs[..p] && bs[p] !in bs[p + 1..];
  }

  lemma OccursTwice(cs: seq<Entry>, i: nat, j: nat)
    requires i < j < |cs| && cs[i] == cs[j]
    ensures multiset(cs)[cs[i]] >= 2
  {
    assert cs == cs[..j] + cs[j..];
    assert cs[i] in cs[..j] && cs[j] in cs[j..];
  }

  lemma SameArchivesHaveDistinctNames(bs: seq<Entry>, cs: seq<Entry>)
    requires DistinctNames(bs) && multiset(cs) == multiset(bs)
    ensures DistinctNames(cs)
  {
    forall i, j | 0 <= i < j < |cs|
      ensures cs[i].name != cs[j].name
    {
      assert cs[i] in multiset(bs) && cs[j] in multiset(bs);
      var p :| 0 <= p < |bs| && bs[p] == cs[i];
      var q :| 0 <= q < |bs| && bs[q] == cs[j];
      if p == q {
        OccursOnce(bs, p);
        OccursTwice(cs, i, j);
      }
    }
  }

  lemma EveryOrderKeepsAsMuch(bs: seq<Entry>, cs: seq<Entry>, k: Keys)
    requires NewestFirst(bs) && DistinctNames(bs) && DistinctNames(cs) && Orderly(k) && NoTieDecides(bs, k)
    requires SameArchives(bs, cs) && SameDates(bs, cs)
    ensures Keep(bs, k) <= Keep(cs, k)
  {
    forall n | n in Keep(bs, k)
      ensures n in Keep(cs, k)
    {
      var b :| b in bs && b.name == n;
      var i :| 0 <= i < |bs| && bs[i] == b;
      KeptExactlyWhen(bs, k, i);
      KeptInBothOrders(bs, cs, k, i);
    }
  }

  lemma TiesDependOnDates(bs: seq<Entry>, cs: seq<Entry>, k: Keys)
    requires NewestFirst(bs) && NewestFirst(cs) && Orderly(k) && SameDates(bs, cs) && NoTieDecides(bs, k)
    ensures NoTieDecides(cs, k)
  {
    forall i | 0 <= i < |cs| - 1
      ensures !TieDecides(cs, k, i)
    {
      if cs[i].date == cs[i + 1].date {
        TieDecidesMeans(bs, k, i);
        TieDecidesMeans(cs, k, i);
        RetainedDependsOnDates(bs, cs, k, i);
        RetainedDependsOnDates(bs, cs, k, i + 1);
      }
    }
  }

  lemma EveryOrderKeepsTheSame(bs: seq<Entry>, cs: seq<Entry>, k: Keys)
    requires NewestFirst(bs) && DistinctNames(bs) && Orderly(k) && NoTieDecides(bs, k) && SameArchives(bs, cs)
    ensures Keep(cs, k) == Keep(bs, k)
  {
    OrdersAgreeOnDates(bs, cs);
    SameArchivesHaveDistinctNames(bs, cs);
    TiesDependOnDates(bs, cs, k);
    EveryOrderKeepsAsMuch(bs, cs, k);
    EveryOrderKeepsAsMuch(cs, bs, k);
  }

  lemma SwapWithinATie(bs: seq<Entry>, i: nat)
    requires NewestFirst(bs) && i + 1 < |bs| && bs[i].date == bs[i + 1].date
    ensures var cs := Swapped(bs, i, i + 1); SameArchives(bs, cs) && SameDates(bs, cs) && cs[i + 1] == bs[i]
  {
    var cs := Swapped(bs, i, i + 1);
    assert SameDates(bs, cs);
  }

  /** Exchanging the two archives of a deciding tie changes what is kept. */
  lemma ExchangeChangesKeep(bs: seq<Entry>, k: Keys, i: nat)
    requires NewestFirst(bs) && DistinctNames(bs) && Orderly(k) && i + 1 < |bs| && TieDecides(bs, k, i)
    ensures SameArchives(bs, Swapped(bs, i, i + 1)) && Keep(Swapped(bs, i, i + 1), k) != Keep(bs, k)
  {
    var cs := Swapped(bs, i, i + 1);
    SwapWithinATie(bs, i);
    SameArchivesHaveDistinctNames(bs, cs);
    TieDecidesMeans(bs, k, i);
    RetainedDependsOnDates(bs, cs, k, i + 1);
    KeptExactlyWhen(bs, k, i);
    KeptExactlyWhen(cs, k, i + 1);
  }

  /** The order among equal timestamps does not matter exactly when no tie decides: every newest-first order of the same
      archives then keeps the same, and otherwise some order keeps others. */
  lemma OrderMattersExactlyWhen(bs: seq<Entry>, k: Keys)
    requires NewestFirst(bs) && DistinctNames(bs) && Orderly(k)
    ensures (forall cs :: SameArchives(bs, cs) ==> Keep(cs, k) == Keep(bs, k)) <==> NoTieDecides(bs, k)
  {
    if NoTieDecides(bs, k) {
      forall cs | SameArchives(bs, cs)
        ensures Keep(cs, k) == Keep(bs, k)
      {
        EveryOrderKeepsTheSame(bs, cs, k);
      }
    } else {
      var i :| 0 <= i < |bs| - 1 && TieDecides(bs, k, i);
      ExchangeChangesKeep(bs, k, i);
      assert SameArchives(bs, Swapped(bs, i, i + 1));
    }
  }

  /** The same for a directory: what a prune keeps of its names is settled exactly when no tie decides. */
  lemma PruneIsSettledExactlyWhen(names: seq<string>, bs: seq<Entry>, k: Keys)
    requires IsListing(bs, names) && DistinctNames(bs) && Orderly(k)
    ensures (forall cs :: IsListing(cs, names) ==> Keep(cs, k) == Keep(bs, k)) <==> NoTieDecides(bs, k)
  {
    OrderMattersExactlyWhen(bs, k);
    assert forall cs :: IsListing(cs, names) <==> SameArchives(bs, cs);
  }

  // ---- two archives of one second ----

  predicate HasYear(t: int) {
    0 <= DateOf(DayOfInstant(t)).year <= 9999
  }

  /** An archive as the tool names it. */
  function Printed(t: int, encrypted: bool): Entry {
    Entry(ArchiveName(t, encrypted), t)
  }

  lemma ExtensionsDiffer(t: int)
    ensures ArchiveName(t, false) != ArchiveName(t, true)
  {
    var plain, locked := ArchiveName(t, false), ArchiveName(t, true);
    assert plain[|plain| - 1] == 'z' && locked[|locked| - 1] == 'p';
    assert plain[|plain| - 2] == 'g' && locked[|locked| - 2] == 'i';
  }

  /** Two archives of one instant behind a newer one of another day: only the first of them opens its day. */
  lemma TieDecidesBehindANewerDay(x: Entry, a: Entry, b: Entry, k: Keys)
    requires Orderly(k) && x.date >= a.date == b.date && k.day(x.date) != k.day(a.date)
    ensures NewestFirst([x, a, b]) && TieDecides([x, a, b], k, 1)
  {
    var bs := [x, a, b];
    assert bs[0] == x && bs[1] == a && bs[2] == b;
    assert KeysBefore(bs, k.day, 0) == {};
    NewBucket(bs, k.day, 0);
    assert KeysBefore(bs, k.day, 1) == {k.day(x.date)};
    assert LeadsBucket(bs, DAY_SLOTS, k.day, 1);
  }

  lemma TieBehindANewerDay(x: Entry, a: Entry, b: Entry, k: Keys)
    requires DistinctNames([x, a, b]) && Orderly(k)
    requires x.date >= a.date == b.date && k.day(x.date) != k.day(a.date)
    ensures NewestFirst([x, a, b]) && SameArchives([x, a, b], [x, b, a]) && Keep([x, b, a], k) != Keep([x, a, b], k)
  {
    TieDecidesBehindANewerDay(x, a, b, k);
    ExchangeChangesKeep([x, a, b], k, 1);
    assert Swapped([x, a, b], 1, 2) == [x, b, a];
  }

  lemma AllThree(x: Entry, a: Entry, b: Entry, p: Entry -> bool)
    requires p(x) && p(a) && p(b)
    ensures All([x, a, b], p)
  {
  }

  lemma ThreeNames(x: Entry, a: Entry, b: Entry)
    requires x.name != a.name && x.name != b.name && a.name != b.name
    ensures DistinctNames([x, a, b])
  {
  }

  lemma DatesTellNamesApart(x: Entry, a: Entry)
    requires Dated(x) && Dated(a) && x.date != a.date
    ensures x.name != a.name
  {
  }

  /** A directory with two archives of one instant behind a newer one of another day has two listings that keep
      different archives. */
  lemma TwoListings(x: Entry, a: Entry, b: Entry, k: Keys)
    requires Dated(x) && Dated(a) && Dated(b) && a.name != b.name && Orderly(k)
    requires x.date > a.date == b.date && k.day(x.date) != k.day(a.date)
    ensures var names := NamesInOrder([x, a, b]);
            IsListing([x, a, b], names) && IsListing([x, b, a], names) && Keep([x, a, b], k) != Keep([x, b, a], k)
  {
    var bs := [x, a, b];
    DatesTellNamesApart(x, a);
    DatesTellNamesApart(x, b);
    ThreeNames(x, a, b);
    TieBehindANewerDay(x, a, b, k);
    AllThree(x, a, b, Dated);
    DatedAreListed(bs);
    SameListing(bs, [x, b, a], NamesInOrder(bs));
  }

  lemma DatedAreListed(bs: seq<Entry>)
    requires NewestFirst(bs) && All(bs, Dated)
    ensures IsListing(bs, NamesInOrder(bs))
  {
    DatedAreRecognised(bs);
  }

  lemma SameListing(bs: seq<Entry>, cs: seq<Entry>, names: seq<string>)
    requires IsListing(bs, names) && SameArchives(bs, cs)
    ensures IsListing(cs, names)
  {
  }

  lemma PrintedIsDated(t: int, encrypted: bool)
    requires HasYear(t)
    ensures Dated(Printed(t, encrypted))
  {
    PrintedNameReadsBack(t, encrypted);
  }

  /** An encrypted and an unencrypted archive of one second, with a newer one of a later day: the sort decides which of
      the two is kept. */
  lemma EqualTimestampsAreUndecided(t: int, u: int)
    requires HasYear(t) && HasYear(u) && DayOfInstant(u) < DayOfInstant(t)
    ensures var x, a, b := Printed(t, false), Printed(u, false), Printed(u, true);
            var names := NamesInOrder([x, a, b]);
            && IsListing([x, a, b], names) && IsListing([x, b, a], names)
            && Keep([x, a, b], CALENDAR) != Keep([x, b, a], CALENDAR)
  {
    PrintedIsDated(t, false);
    PrintedIsDated(u, false);
    PrintedIsDated(u, true);
    ExtensionsDiffer(u);
    CalendarIsOrderly();
    DayKeyNamesDay(t, u);
    TwoListings(Printed(t, false), Printed(u, false), Printed(u, true), CALENDAR);
  }
}
