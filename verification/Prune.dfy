/** Dating, sorting and deleting archive files: the loops around the retention policy. */
module Prune {
  import opened Wrappers
  import opened Lists
  import opened ArchiveNames
  import opened Retention

  /** The datable names of a listing with their instants, in listing order. */
  function Recognised(names: seq<string>): (bs: seq<Entry>)
    ensures forall b :: b in bs <==> b.name in names && DateFromName(b.name) == Some(b.date)
  {
    if names == [] then []
    else
      var init, name := names[..|names| - 1], names[|names| - 1];
      assert names == init + [name];
      match DateFromName(name)
      case None => Recognised(init)
      case Some(date) => Recognised(init) + [Entry(name, date)]
  }

  function NamesInOrder(bs: seq<Entry>): (names: seq<string>)
    ensures |names| == |bs|
  {
    seq(|bs|, i requires 0 <= i < |bs| => bs[i].name)
  }

  /** An archive's name stands for its instant. */
  predicate Dated(b: Entry) {
    DateFromName(b.name) == Some(b.date)
  }

  lemma {:induction false} DatedAreRecognised(bs: seq<Entry>)
    requires forall b :: b in bs ==> Dated(b)
    ensures Recognised(NamesInOrder(bs)) == bs
  {
    if bs != [] {
      var init := bs[..|bs| - 1];
      assert NamesInOrder(bs)[..|bs| - 1] == NamesInOrder(init);
      assert bs == init + [bs[|bs| - 1]] && Dated(bs[|bs| - 1]);
      DatedAreRecognised(init);
    }
  }

  /** Some newest-first order of the recognised names: sort.Slice leaves the order of equal dates open. */
  ghost predicate IsListing(bs: seq<Entry>, names: seq<string>) {
    NewestFirst(bs) && multiset(bs) == multiset(Recognised(names))
  }

  lemma ListingMembers(bs: seq<Entry>, names: seq<string>)
    requires IsListing(bs, names)
    ensures forall b :: b in bs <==> b in Recognised(names)
    ensures Names(bs) == set n | n in names && NameMatches(n)
  {
    forall b
      ensures b in bs <==> b in Recognised(names)
    {
      assert b in bs <==> b in multiset(bs);
      assert b in Recognised(names) <==> b in multiset(Recognised(names));
    }
    forall n | n in names
      ensures NameMatches(n) <==> n in Names(bs)
    {
      PatternsAgree(n);
      if NameMatches(n) {
        var b := Entry(n, DateFromName(n).value);
        assert b in bs;
      }
    }
  }

  lemma InsertedInOrder(bs: seq<Entry>, e: Entry, j: nat)
    requires NewestFirst(bs) && j <= |bs|
    requires forall k :: 0 <= k < j ==> bs[k].date >= e.date
    requires j < |bs| ==> bs[j].date <= e.date
    ensures NewestFirst(bs[..j] + [e] + bs[j..])
    ensures multiset(bs[..j] + [e] + bs[j..]) == multiset(bs) + multiset{e}
  {
    assert bs == bs[..j] + bs[j..];
  }

  method SortNewestFirst(entries: seq<Entry>) returns (out: seq<Entry>)
    ensures NewestFirst(out) && multiset(out) == multiset(entries)
  {
    out := [];
    assert entries[..0] == [];
    for i := 0 to |entries|
      invariant NewestFirst(out) && multiset(out) == multiset(entries[..i])
    {
      var e, j := entries[i], 0;
      var afterEquals: bool := *;
      while j < |out| && (out[j].date > e.date || (afterEquals && out[j].date == e.date))
        invariant j <= |out|
        invariant forall k :: 0 <= k < j ==> out[k].date >= e.date
      {
        j := j + 1;
      }
      assert entries[..i + 1] == entries[..i] + [e];
      InsertedInOrder(out, e, j);
      out := out[..j] + [e] + out[j..];
    }
    assert entries[..|entries|] == entries;
  }

  method ParseEntries(names: seq<string>) returns (out: seq<Entry>)
    ensures IsListing(out, names)
  {
    var found: seq<Entry> := [];
    assert names[..0] == [];
    for i := 0 to |names|
      invariant found == Recognised(names[..i])
    {
      assert names[..i + 1][..i] == names[..i];
      var date := ParseDateFromName(names[i]);
      if date.Some? {
        found := found + [Entry(names[i], date.value)];
      }
    }
    assert names[..|names|] == names;
    out := SortNewestFirst(found);
  }

  // ---- sort.Strings ----

  predicate StringLe(a: string, b: string) {
    a == "" || (b != "" && (a[0] < b[0] || (a[0] == b[0] && StringLe(a[1..], b[1..]))))
  }

  predicate AgreeBefore(a: string, b: string, i: nat) {
    i <= |a| && i <= |b| && a[..i] == b[..i]
  }

  lemma AgreeAtFirst(a: string, b: string, i: nat)
    requires AgreeBefore(a, b, i) && i > 0
    ensures a[0] == b[0]
  {
    assert a[..i][0] == b[..i][0];
  }

  /** One name is before another, or the same, when it is a beginning of it or has the smaller character where they
      first differ. */
  lemma {:induction false} StringLeMeans(a: string, b: string)
    ensures StringLe(a, b) <==> exists i: nat :: AgreeBefore(a, b, i) && (i == |a| || (i < |b| && a[i] < b[i]))
  {
    assert AgreeBefore(a, b, 0);
    if a == "" || b == "" {
    } else if a[0] != b[0] {
      if i: nat :| AgreeBefore(a, b, i) && i > 0 {
        AgreeAtFirst(a, b, i);
      }
    } else {
      var x, y := a[1..], b[1..];
      StringLeMeans(x, y);
      if i: nat :| AgreeBefore(x, y, i) && (i == |x| || (i < |y| && x[i] < y[i])) {
        assert a[..i + 1] == [a[0]] + x[..i] && b[..i + 1] == [b[0]] + y[..i];
        assert AgreeBefore(a, b, i + 1);
      }
      if i: nat :| AgreeBefore(a, b, i) && (i == |a| || (i < |b| && a[i] < b[i])) {
        assert i > 0;
        assert x[..i - 1] == a[..i][1..] && y[..i - 1] == b[..i][1..];
        assert AgreeBefore(x, y, i - 1);
      }
    }
  }

  lemma {:induction false} StringLeIsTotal(a: string, b: string)
    ensures StringLe(a, b) || StringLe(b, a)
  {
    if a != "" && b != "" {
      StringLeIsTotal(a[1..], b[1..]);
    }
  }

  lemma {:induction false} StringLeIsTransitive(a: string, b: string, c: string)
    requires StringLe(a, b) && StringLe(b, c)
    ensures StringLe(a, c)
  {
    if a != "" && a[0] == b[0] == c[0] {
      StringLeIsTransitive(a[1..], b[1..], c[1..]);
    }
  }

  ghost predicate Ascending(s: seq<string>) {
    forall i, j :: 0 <= i < j < |s| ==> StringLe(s[i], s[j])
  }

  lemma NotAbove(s: seq<string>, x: string, j: nat, k: nat)
    requires Ascending(s) && j <= k < |s| && !StringLe(s[j], x)
    ensures StringLe(x, s[k])
  {
    StringLeIsTotal(s[j], x);
    if j < k {
      StringLeIsTransitive(x, s[j], s[k]);
    }
  }

  lemma InsertedAscending(s: seq<string>, x: string, j: nat)
    requires Ascending(s) && j <= |s|
    requires forall k :: 0 <= k < j ==> StringLe(s[k], x)
    requires j < |s| ==> !StringLe(s[j], x)
    ensures Ascending(s[..j] + [x] + s[j..])
    ensures multiset(s[..j] + [x] + s[j..]) == multiset(s) + multiset{x}
  {
    forall k | j <= k < |s|
      ensures StringLe(x, s[k])
    {
      NotAbove(s, x, j, k);
    }
    assert s == s[..j] + s[j..];
    SplitAscends(s[..j], x, s[j..]);
  }

  lemma SplitAscends(low: seq<string>, x: string, high: seq<string>)
    requires Ascending(low + high)
    requires (forall k :: 0 <= k < |low| ==> StringLe(low[k], x)) && forall k :: 0 <= k < |high| ==>
             StringLe(x, high[k])
    ensures Ascending(low + [x] + high)
  {
    var whole, out := low + high, low + [x] + high;
    forall i, j | 0 <= i < j < |out|
      ensures StringLe(out[i], out[j])
    {
      if i != |low| && j != |low| {
        var p, q := if i < |low| then i else i - 1, if j < |low| then j else j - 1;
        assert out[i] == whole[p] && out[j] == whole[q];
        assert StringLe(whole[p], whole[q]);
      }
    }
  }

  method SortStrings(s: seq<string>) returns (out: seq<string>)
    ensures Ascending(out) && multiset(out) == multiset(s)
  {
    out := [];
    assert s[..0] == [];
    for i := 0 to |s|
      invariant Ascending(out) && multiset(out) == multiset(s[..i])
    {
      var x, j := s[i], 0;
      while j < |out| && StringLe(out[j], x)
        invariant j <= |out|
        invariant forall k :: 0 <= k < j ==> StringLe(out[k], x)
      {
        j := j + 1;
      }
      assert s[..i + 1] == s[..i] + [x];
      InsertedAscending(out, x, j);
      out := out[..j] + [x] + out[j..];
    }
    assert s[..|s|] == s;
  }

  // ---- what is deleted ----

  /** The names of ours that no slot claimed. */
  function Unclaimed(names: seq<string>, keep: set<string>): (out: seq<string>)
    ensures ToSet(out) == set n | n in names && NameMatches(n) && n !in keep
  {
    if names == [] then []
    else
      var init, name := names[..|names| - 1], names[|names| - 1];
      assert names == init + [name];
      var rest := Unclaimed(init, keep);
      assert ToSet(rest + [name]) == ToSet(rest) + {name};
      if NameMatches(name) && name !in keep then rest + [name] else rest
  }

  method ToRemove(names: seq<string>, k: Keys) returns (out: seq<string>)
    ensures Ascending(out)
    ensures exists bs :: IsListing(bs, names) && multiset(out) == multiset(Unclaimed(names, Keep(bs, k)))
  {
    var entries := ParseEntries(names);
    var keep := SelectBackupsToKeep(entries, k);
    out := [];
    assert names[..0] == [];
    for i := 0 to |names|
      invariant out == Unclaimed(names[..i], keep)
    {
      assert names[..i + 1][..i] == names[..i];
      if NameMatches(names[i]) && names[i] !in keep {
        out := out + [names[i]];
      }
    }
    assert names[..|names|] == names;
    out := SortStrings(out);
  }

  /** What is kept and what is removed split the recognised names; foreign names are in neither. */
  lemma KeptAndRemovedPartition(names: seq<string>, bs: seq<Entry>, k: Keys)
    requires IsListing(bs, names)
    ensures Keep(bs, k) !! ToSet(Unclaimed(names, Keep(bs, k)))
    ensures Keep(bs, k) + ToSet(Unclaimed(names, Keep(bs, k))) == set n | n in names && NameMatches(n)
  {
    ListingMembers(bs, names);
  }

  function Foreign(names: seq<string>): set<string> {
    set n | n in names && !NameMatches(n)
  }

  /** The cleanup loop: a file whose deletion fails stays, and the loop goes on. */
  method DeleteEach(files: set<string>, doomed: seq<string>, failing: set<string>) returns (left: set<string>)
    ensures left == files - (ToSet(doomed) - failing)
  {
    left := files;
    for i := 0 to |doomed|
      invariant left == files - (ToSet(doomed[..i]) - failing)
    {
      assert doomed[..i + 1] == doomed[..i] + [doomed[i]];
      if doomed[i] !in failing {
        left := left - {doomed[i]};
      }
    }
    assert doomed[..|doomed|] == doomed;
  }

  /** What a cleanup leaves: foreign files, kept archives and those whose deletion failed. */
  method Cleanup(names: seq<string>, failing: set<string>, k: Keys) returns (left: set<string>)
    ensures exists bs :: IsListing(bs, names) && left == Foreign(names) + Names(Surviving(bs, Keep(bs, k) + failing))
  {
    var doomed := ToRemove(names, k);
    ghost var bs :| IsListing(bs, names) && multiset(doomed) == multiset(Unclaimed(names, Keep(bs, k)));
    left := DeleteEach(ToSet(names), doomed, failing);
    WhatCleanupLeaves(names, bs, doomed, failing, k);
  }

  lemma WhatCleanupLeaves(names: seq<string>, bs: seq<Entry>, doomed: seq<string>, failing: set<string>, k: Keys)
    requires IsListing(bs, names) && multiset(doomed) == multiset(Unclaimed(names, Keep(bs, k)))
    ensures ToSet(names) - (ToSet(doomed) - failing) == Foreign(names) + Names(Surviving(bs, Keep(bs, k) + failing))
  {
    SameMembers(doomed, Unclaimed(names, Keep(bs, k)));
    WhatDeletingLeaves(names, bs, Keep(bs, k), failing);
  }

  lemma WhatDeletingLeaves(names: seq<string>, bs: seq<Entry>, keep: set<string>, failing: set<string>)
    requires IsListing(bs, names)
    ensures ToSet(names) - (ToSet(Unclaimed(names, keep)) - failing)
            == Foreign(names) + Names(Surviving(bs, keep + failing))
  {
    SurvivorsAreThinned(bs, keep + failing);
    ListingMembers(bs, names);
  }

  lemma SameMembers(a: seq<string>, b: seq<string>)
    requires multiset(a) == multiset(b)
    ensures ToSet(a) == ToSet(b)
  {
    forall x
      ensures x in a <==> x in b
    {
      assert x in a <==> x in multiset(a);
      assert x in b <==> x in multiset(b);
    }
  }

  /** With distinct timestamps a listing has only one newest-first order, so what is kept is a function of the names. */
  lemma {:induction false} ListingIsUnique(a: seq<Entry>, b: seq<Entry>)
    requires StrictlyNewestFirst(a) && NewestFirst(b) && multiset(a) == multiset(b)
    ensures a == b
  {
    if a == [] {
      assert |multiset(b)| == 0;
    } else {
      assert |multiset(b)| == |multiset(a)| > 0;
      SameHead(a, b);
      TailAsMultiset(a);
      TailAsMultiset(b);
      ListingIsUnique(a[1..], b[1..]);
    }
  }

  lemma SameHead(a: seq<Entry>, b: seq<Entry>)
    requires StrictlyNewestFirst(a) && NewestFirst(b) && multiset(a) == multiset(b) && a != [] && b != []
    ensures a[0] == b[0]
  {
    assert a[0] in multiset(b) && b[0] in multiset(a);
    var i :| 0 <= i < |b| && b[i] == a[0];
    var j :| 0 <= j < |a| && a[j] == b[0];
    assert b[0].date >= b[i].date;
  }
}
