/** A directory over a whole run of the backup loop: the loops over file names of backup/main.go follow the choices that
    Retention makes for archives. */
module PruneRuns {
  import opened ArchiveNames
  import opened Prune
  import opened Retention

  ghost predicate NoRepeats<T>(xs: seq<T>) {
    forall i, j :: 0 <= i < j < |xs| ==> xs[i] != xs[j]
  }

  lemma OnceEach<T>(xs: seq<T>, x: T)
    requires NoRepeats(xs)
    ensures multiset(xs)[x] == if x in xs then 1 else 0
  {
    if x in xs {
      var p :| 0 <= p < |xs| && xs[p] == x;
      assert xs == xs[..p] + [x] + xs[p + 1..];
      assert x !in xs[..p] && x !in xs[p + 1..];
    }
  }

  lemma SameMembersOnce<T>(xs: seq<T>, ys: seq<T>)
    requires NoRepeats(xs) && NoRepeats(ys) && forall x :: x in xs <==> x in ys
    ensures multiset(xs) == multiset(ys)
  {
    forall x
      ensures multiset(xs)[x] == multiset(ys)[x]
    {
      OnceEach(xs, x);
      OnceEach(ys, x);
    }
  }

  lemma {:induction false} RecognisedOnce(names: seq<string>)
    requires NoRepeats(names)
    ensures NoRepeats(Recognised(names))
  {
    if names != [] {
      var init, name := names[..|names| - 1], names[|names| - 1];
      RecognisedOnce(init);
      forall b | b in Recognised(init)
        ensures b.name != name
      {
        var i :| 0 <= i < |init| && init[i] == b.name;
        assert names[i] == b.name;
      }
    }
  }

  /** One round on a directory: the archive is written, the directory is listed in some order and cleaned up. */
  ghost predicate RoundLeaves(before: set<string>, round: Round, k: Keys, after: set<string>) {
    exists names, bs ::
      && NoRepeats(names) && ToSet(names) == before + {round.taken.name} && IsListing(bs, names)
      && after == Foreign(names) + Names(Surviving(bs, Keep(bs, k) + round.failed))
  }

  /** The archives are named for their instants, and each is newer than the one before. */
  ghost predicate WrittenInOrder(rounds: seq<Round>) {
    && StrictlyNewestFirst(HistoryAfter(rounds)) && DistinctNames(HistoryAfter(rounds))
    && forall b :: b in HistoryAfter(rounds) ==> Dated(b)
  }

  lemma FewerWritten(rounds: seq<Round>)
    requires rounds != [] && WrittenInOrder(rounds)
    ensures WrittenInOrder(rounds[..|rounds| - 1])
  {
    var whole, rest := HistoryAfter(rounds), HistoryAfter(rounds[..|rounds| - 1]);
    assert whole[1..] == rest;
    assert forall i :: 0 <= i < |rest| ==> rest[i] == whole[i + 1];
  }

  lemma {:induction false} ThinnedKeepsOrder(ps: seq<Entry>, bs: seq<Entry>)
    requires Thinned(ps, bs) && StrictlyNewestFirst(bs)
    ensures StrictlyNewestFirst(ps)
  {
    if ps != [] {
      if ps[0] == bs[0] {
        ThinnedKeepsOrder(ps[1..], bs[1..]);
        ThinnedNames(ps[1..], bs[1..]);
        forall i, j | 0 <= i < j < |ps|
          ensures ps[i].date > ps[j].date
        {
          if i == 0 {
            assert ps[1..][j - 1] in bs[1..];
          } else {
            assert ps[1..][i - 1].date > ps[1..][j - 1].date;
          }
        }
      } else {
        ThinnedKeepsOrder(ps, bs[1..]);
      }
    }
  }

  lemma ListedAreWritten(rounds: seq<Round>, k: Keys)
    requires rounds != [] && WrittenInOrder(rounds) && Orderly(k)
    ensures StrictlyNewestFirst(Listed(rounds, k)) && forall b :: b in Listed(rounds, k) ==> Dated(b)
  {
    ListedIsThinned(rounds, k);
    ThinnedNames(Listed(rounds, k), HistoryAfter(rounds));
    ThinnedKeepsOrder(Listed(rounds, k), HistoryAfter(rounds));
  }

  lemma DatedMatches(b: Entry)
    requires Dated(b)
    ensures NameMatches(b.name)
  {
    PatternsAgree(b.name);
  }

  /** A directory of foreign files and the listed archives is recognised as exactly those archives. */
  lemma DirectoryIsListed(names: seq<string>, foreign: set<string>, bs: seq<Entry>)
    requires NoRepeats(names) && ToSet(names) == foreign + Names(bs)
    requires StrictlyNewestFirst(bs) && (forall b :: b in bs ==> Dated(b)) && forall n :: n in foreign ==>
             !NameMatches(n)
    ensures multiset(Recognised(names)) == multiset(bs) && Foreign(names) == foreign
  {
    RecognisedOnce(names);
    assert NoRepeats(bs);
    forall b
      ensures b in Recognised(names) <==> b in bs
    {
      RecognisedExactly(names, foreign, bs, b);
    }
    SameMembersOnce(Recognised(names), bs);
    forall n | n in names
      ensures n in foreign <==> !NameMatches(n)
    {
      if n !in foreign {
        assert n in ToSet(names);
        var b :| b in bs && b.name == n;
        DatedMatches(b);
      }
    }
    assert forall n :: n in foreign ==> n in ToSet(names);
  }

  lemma RecognisedExactly(names: seq<string>, foreign: set<string>, bs: seq<Entry>, b: Entry)
    requires ToSet(names) == foreign + Names(bs)
    requires (forall x :: x in bs ==> Dated(x)) && forall n :: n in foreign ==> !NameMatches(n)
    ensures b in Recognised(names) <==> b in bs
  {
    if b in Recognised(names) {
      assert Dated(b) && b.name in ToSet(names);
      DatedMatches(b);
      var x :| x in bs && x.name == b.name;
      assert Dated(x);
    }
    if b in bs {
      assert b.name in Names(bs);
      assert b.name in ToSet(names);
    }
  }

  lemma ListedNames(rounds: seq<Round>, k: Keys)
    requires rounds != []
    ensures Names(Listed(rounds, k)) == Names(PoolAfter(rounds[..|rounds| - 1], k)) + {rounds[|rounds| - 1].taken.name}
  {
    var listed := Listed(rounds, k);
    NamesOfTail(listed);
    assert listed[1..] == PoolAfter(rounds[..|rounds| - 1], k);
  }

  /** The last round on a directory that follows the pool so far. */
  lemma RoundFollowsThePool(foreign: set<string>, rounds: seq<Round>, k: Keys, names: seq<string>, bs: seq<Entry>)
    requires rounds != [] && WrittenInOrder(rounds) && Orderly(k) && forall n :: n in foreign ==> !NameMatches(n)
    requires NoRepeats(names) && ToSet(names) == foreign + Names(Listed(rounds, k)) && IsListing(bs, names)
    ensures bs == Listed(rounds, k) && Foreign(names) == foreign
  {
    ListedAreWritten(rounds, k);
    DirectoryIsListed(names, foreign, Listed(rounds, k));
    ListingIsUnique(Listed(rounds, k), bs);
  }

  /** Over a whole run, whatever the listing orders and failed deletions, the directory holds the foreign files it began
      with and exactly the archives of the run's pool. */
  lemma {:induction false} DirectoryFollowsThePool(foreign: set<string>, dirs: seq<set<string>>, rounds: seq<Round>,
                                                   k: Keys)
    requires WrittenInOrder(rounds) && Orderly(k) && |dirs| == |rounds| + 1
    requires dirs[0] == foreign && forall n :: n in foreign ==> !NameMatches(n)
    requires forall i :: 0 <= i < |rounds| ==> RoundLeaves(dirs[i], rounds[i], k, dirs[i + 1])
    ensures dirs[|rounds|] == foreign + Names(PoolAfter(rounds, k))
    decreases |rounds|
  {
    if rounds == [] {
      assert Names(PoolAfter(rounds, k)) == {};
    } else {
      var m := |rounds| - 1;
      FewerWritten(rounds);
      DirectoryFollowsThePool(foreign, dirs[..m + 1], rounds[..m], k);
      assert RoundLeaves(dirs[m], rounds[m], k, dirs[m + 1]);
      LastRound(foreign, dirs[m], rounds, k, dirs[m + 1]);
    }
  }

  lemma {:induction false} LastRound(foreign: set<string>, before: set<string>, rounds: seq<Round>, k: Keys,
                                     after: set<string>)
    requires rounds != [] && WrittenInOrder(rounds) && Orderly(k) && forall n :: n in foreign ==> !NameMatches(n)
    requires before == foreign + Names(PoolAfter(rounds[..|rounds| - 1], k))
    requires RoundLeaves(before, rounds[|rounds| - 1], k, after)
    ensures after == foreign + Names(PoolAfter(rounds, k))
  {
    var round := rounds[|rounds| - 1];
    var names, bs :| NoRepeats(names) && ToSet(names) == before + {round.taken.name} && IsListing(bs, names)
      && after == Foreign(names) + Names(Surviving(bs, Keep(bs, k) + round.failed));
    ListedNames(rounds, k);
    RoundFollowsThePool(foreign, rounds, k, names, bs);
  }
}
