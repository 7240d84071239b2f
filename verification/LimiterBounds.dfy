/** What the limiters bound over whole runs: admissions in any interval, and the size of their maps. */
module LimiterBounds {
  import opened Lists
  import opened Wrappers
  import opened RateLimits

  // ---- admissions ----

  predicate ChecksGlobal(e: Event) {
    e.CheckGlobal? || e.Allow?
  }

  function GlobalTimes(ts: seq<Timed>): seq<int> {
    if ts == [] then []
    else (if ChecksGlobal(ts[0].event) then [ts[0].now] else []) + GlobalTimes(ts[1..])
  }

  function KeyTimes(ts: seq<Timed>, key: string): seq<int> {
    if ts == [] then []
    else (if ts[0].event == Count(key) then [ts[0].now] else []) + KeyTimes(ts[1..], key)
  }

  /** The global checks answered yes in [lo, hi] in a run. */
  function GlobalAdmissions(l: Limiter, ts: seq<Timed>, cap: nat, lo: int, hi: int): nat
    decreases |ts|
  {
    if ts == [] then 0
    else
      var after := Step(l, ts[0], true);
      (if ChecksGlobal(ts[0].event) && after.global.count <= cap && lo <= ts[0].now <= hi then 1 else 0)
      + GlobalAdmissions(after, ts[1..], cap, lo, hi)
  }

  /** The requests for one key answered yes in [lo, hi], read off the answers of a run. */
  function KeyAdmissions(answers: seq<Answer>, ts: seq<Timed>, key: string, cap: nat, lo: int, hi: int): nat
    requires |answers| == |ts|
    decreases |ts|
  {
    if ts == [] then 0
    else
      (if ts[0].event == Count(key) && answers[0].Admission? && answers[0].keyCount <= cap && lo <= ts[0].now <= hi
       then 1 else 0)
      + KeyAdmissions(answers[1..], ts[1..], key, cap, lo, hi)
  }

  lemma {:induction false} TimesRise(ts: seq<Timed>, key: string, from: int)
    requires Ordered(ts, from)
    ensures Rising(GlobalTimes(ts)) && Rising(KeyTimes(ts, key))
    ensures forall i :: 0 <= i < |GlobalTimes(ts)| ==> GlobalTimes(ts)[i] >= from
    ensures forall i :: 0 <= i < |KeyTimes(ts, key)| ==> KeyTimes(ts, key)[i] >= from
    decreases |ts|
  {
    if ts != [] {
      TimesRise(ts[1..], key, ts[0].now);
    }
  }

  lemma {:induction false} GlobalAdmissionsAreRolls(l: Limiter, ts: seq<Timed>, cap: nat, lo: int, hi: int)
    ensures GlobalAdmissions(l, ts, cap, lo, hi) == AdmittedIn(l.global, GlobalTimes(ts), cap, lo, hi)
    decreases |ts|
  {
    if ts != [] {
      GlobalAdmissionsAreRolls(Step(l, ts[0], true), ts[1..], cap, lo, hi);
      if ChecksGlobal(ts[0].event) {
        assert GlobalTimes(ts)[1..] == GlobalTimes(ts[1..]);
      } else {
        assert GlobalTimes(ts) == GlobalTimes(ts[1..]);
      }
    }
  }

  lemma {:induction false} AnswersMatchEvents(l: Limiter, ts: seq<Timed>, reaps: bool)
    ensures |Answers(l, ts, reaps)| == |ts|
    decreases |ts|
  {
    if ts != [] {
      AnswersMatchEvents(Step(l, ts[0], reaps), ts[1..], reaps);
    }
  }

  lemma {:induction false} KeyAdmissionsAreRolls(l: Limiter, ts: seq<Timed>, key: string, cap: nat, lo: int, hi: int)
    requires forall i :: 0 <= i < |ts| ==> ts[i].event != Forget(key)
    ensures |Answers(l, ts, false)| == |ts|
    ensures KeyAdmissions(Answers(l, ts, false), ts, key, cap, lo, hi)
         == AdmittedIn(WindowOf(l, key), KeyTimes(ts, key), cap, lo, hi)
    decreases |ts|
  {
    AnswersMatchEvents(l, ts, false);
    if ts != [] {
      var after := Step(l, ts[0], false);
      assert ts[0].event != Forget(key);
      KeyAdmissionsAreRolls(after, ts[1..], key, cap, lo, hi);
      assert Answers(l, ts, false)[1..] == Answers(after, ts[1..], false);
      if ts[0].event == Count(key) {
        assert KeyTimes(ts, key)[1..] == KeyTimes(ts[1..], key);
      } else {
        assert KeyTimes(ts, key) == KeyTimes(ts[1..], key);
      }
    }
  }

  /** Any interval of one window length admits at most twice the endpoint's cap. */
  lemma TwiceTheGlobalCap(ts: seq<Timed>, cap: nat, lo: int, from: int)
    requires Ordered(ts, from) && cap > 0
    ensures GlobalAdmissions(EMPTY, ts, cap, lo, lo + LIMIT_WINDOW) <= 2 * cap
  {
    TimesRise(ts, "", from);
    GlobalAdmissionsAreRolls(EMPTY, ts, cap, lo, lo + LIMIT_WINDOW);
    IntervalBound(GlobalTimes(ts), cap, lo, lo + LIMIT_WINDOW, 1);
  }

  /** Any interval of one window length admits at most twice the cap for a key nobody clears, reaping or not. */
  lemma TwiceTheKeyCap(ts: seq<Timed>, key: string, cap: nat, lo: int, from: int)
    requires Ordered(ts, from) && cap > 0
    requires forall i :: 0 <= i < |ts| ==> ts[i].event != Forget(key)
    ensures |Answers(EMPTY, ts, true)| == |ts|
    ensures KeyAdmissions(Answers(EMPTY, ts, true), ts, key, cap, lo, lo + LIMIT_WINDOW) <= 2 * cap
  {
    ReapingIsInvisible(EMPTY, EMPTY, ts, from);
    TimesRise(ts, key, from);
    KeyAdmissionsAreRolls(EMPTY, ts, key, cap, lo, lo + LIMIT_WINDOW);
    IntervalBound(KeyTimes(ts, key), cap, lo, lo + LIMIT_WINDOW, 1);
  }

  /** The figures: 120 sign-in attempts, 400 share-link requests, and 40 requests for one link, in any minute. */
  lemma AdmissionFigures(ts: seq<Timed>, link: string, lo: int, from: int)
    requires Ordered(ts, from)
    requires forall i :: 0 <= i < |ts| ==> ts[i].event != Forget(link)
    ensures GlobalAdmissions(EMPTY, ts, GLOBAL_ATTEMPTS, lo, lo + LIMIT_WINDOW) <= 120
    ensures GlobalAdmissions(EMPTY, ts, ACCESS_GLOBAL_REQUESTS, lo, lo + LIMIT_WINDOW) <= 400
    ensures |Answers(EMPTY, ts, true)| == |ts|
    ensures KeyAdmissions(Answers(EMPTY, ts, true), ts, link, ACCESS_PER_TOKEN_REQUESTS, lo, lo + LIMIT_WINDOW) <= 40
  {
    TwiceTheGlobalCap(ts, GLOBAL_ATTEMPTS, lo, from);
    TwiceTheGlobalCap(ts, ACCESS_GLOBAL_REQUESTS, lo, from);
    TwiceTheKeyCap(ts, link, ACCESS_PER_TOKEN_REQUESTS, lo, from);
  }

  function Burst(n: nat, t: int): seq<int> {
    seq(n, _ => t)
  }

  lemma {:induction false} BurstIsAdmitted(w: Window, n: nat, t: int, rest: seq<int>, cap: nat, lo: int, hi: int)
    requires lo <= t <= hi && Within(w, t) && w.count + n <= cap
    ensures AdmittedIn(w, Burst(n, t) + rest, cap, lo, hi)
            == n + AdmittedIn(w.(count := w.count + n), rest, cap, lo, hi)
    decreases n
  {
    if n == 0 {
      assert Burst(0, t) + rest == rest;
    } else {
      assert (Burst(n, t) + rest)[1..] == Burst(n - 1, t) + rest;
      BurstIsAdmitted(Roll(w, t), n - 1, t, rest, cap, lo, hi);
    }
  }

  /** A full window that opens with the interval, and another that opens as it ends. */
  lemma TwoBurstsAreAdmitted(cap: nat, lo: int)
    requires cap > 0
    ensures var hi := lo + LIMIT_WINDOW; AdmittedIn(UNUSED, Burst(cap, lo) + Burst(cap, hi), cap, lo, hi) == 2 * cap
  {
    var hi := lo + LIMIT_WINDOW;
    var first, second := Window(1, Some(lo)), Window(1, Some(hi));
    assert (Burst(cap, lo) + Burst(cap, hi))[1..] == Burst(cap - 1, lo) + Burst(cap, hi);
    BurstIsAdmitted(first, cap - 1, lo, Burst(cap, hi), cap, lo, hi);
    assert Burst(cap, hi)[1..] == Burst(cap - 1, hi) + [];
    BurstIsAdmitted(second, cap - 1, hi, [], cap, lo, hi);
  }

  /** A run of global checks at these times. */
  function Checks(times: seq<int>): seq<Timed> {
    if times == [] then [] else [Timed(times[0], CheckGlobal)] + Checks(times[1..])
  }

  lemma {:induction false} ChecksHaveTimes(times: seq<int>)
    ensures GlobalTimes(Checks(times)) == times
  {
    if times != [] {
      assert Checks(times)[1..] == Checks(times[1..]);
      ChecksHaveTimes(times[1..]);
    }
  }

  lemma {:induction false} ChecksAreOrdered(times: seq<int>, from: int)
    requires Rising(times) && (times != [] ==> times[0] >= from)
    ensures Ordered(Checks(times), from)
    decreases |times|
  {
    if times != [] {
      assert Checks(times)[1..] == Checks(times[1..]);
      ChecksAreOrdered(times[1..], times[0]);
    }
  }

  /** The factor of two is exact: some run reaches twice the cap in one window length. */
  lemma TwiceTheCapIsReached(cap: nat, lo: int) returns (ts: seq<Timed>)
    requires cap > 0
    ensures Ordered(ts, lo) && GlobalAdmissions(EMPTY, ts, cap, lo, lo + LIMIT_WINDOW) == 2 * cap
  {
    var hi := lo + LIMIT_WINDOW;
    var times := Burst(cap, lo) + Burst(cap, hi);
    ts := Checks(times);
    TwoBurstsAreAdmitted(cap, lo);
    ChecksHaveTimes(times);
    ChecksAreOrdered(times, lo);
    GlobalAdmissionsAreRolls(EMPTY, ts, cap, lo, hi);
  }

  /** And so are the figures: 120 sign-in attempts or 400 share-link requests in one minute. */
  lemma FiguresAreReached(lo: int) returns (signIns: seq<Timed>, links: seq<Timed>)
    ensures Ordered(signIns, lo) && GlobalAdmissions(EMPTY, signIns, GLOBAL_ATTEMPTS, lo, lo + 60_000_000_000) == 120
    ensures Ordered(links, lo) && GlobalAdmissions(EMPTY, links, ACCESS_GLOBAL_REQUESTS, lo, lo + 60_000_000_000) == 400
  {
    signIns := TwiceTheCapIsReached(GLOBAL_ATTEMPTS, lo);
    links := TwiceTheCapIsReached(ACCESS_GLOBAL_REQUESTS, lo);
  }

  // ---- guessing at one name ----

  /** A password check behind the penalty box. */
  datatype Guess = Guess(now: int, key: string, right: bool)

  /** The limiter lets an attempt under this key through. */
  predicate Passes(l: Limiter, key: string, now: int) {
    var checked := CountGlobal(Reap(l, now), now);
    checked.global.count <= GLOBAL_ATTEMPTS && !Exhausted(checked, key, now)
  }

  /** A wrong password is charged to the key, a right one clears it. */
  function AfterGuess(l: Limiter, g: Guess): Limiter {
    var checked := CountGlobal(Reap(l, g.now), g.now);
    if !Passes(l, g.key, g.now) then checked
    else if g.right then Clear(checked, g.key) else Charge(checked, g.key, g.now)
  }

  /** The wrong guesses at one key that were checked at all in [lo, hi]. */
  function WrongGuesses(l: Limiter, gs: seq<Guess>, key: string, lo: int, hi: int): nat
    decreases |gs|
  {
    if gs == [] then 0
    else
      (if gs[0].key == key && !gs[0].right && Passes(l, gs[0].key, gs[0].now) && lo <= gs[0].now <= hi then 1 else 0)
      + WrongGuesses(AfterGuess(l, gs[0]), gs[1..], key, lo, hi)
  }

  ghost predicate GuessesOrdered(gs: seq<Guess>, from: int) {
    gs == [] || (gs[0].now >= from && GuessesOrdered(gs[1..], gs[0].now))
  }

  ghost predicate NeverRight(gs: seq<Guess>, key: string) {
    forall i :: 0 <= i < |gs| && gs[i].key == key ==> !gs[i].right
  }

  /** Two windows that count alike from now on: the same one, or both over. */
  predicate CountAlike(w: Window, u: Window, now: int) {
    Within(w, now) || Within(u, now) ==> w == u
  }

  /** One guess, seen from the window of one key as if nothing were ever reaped. */
  lemma GuessRollsWindow(l: Limiter, u: Window, g: Guess, key: string)
    requires CountAlike(WindowOf(l, key), u, g.now) && (g.key == key ==> !g.right)
    ensures var charged := g.key == key && Passes(l, g.key, g.now);
            && CountAlike(WindowOf(AfterGuess(l, g), key), if charged then Roll(u, g.now) else u, g.now)
            && (charged ==> Roll(u, g.now).count <= PER_USER_FAILURES)
  {
  }

  lemma {:induction false} NoGuessesPastTheEnd(l: Limiter, gs: seq<Guess>, key: string, from: int, lo: int, hi: int)
    requires GuessesOrdered(gs, from) && from > hi
    ensures WrongGuesses(l, gs, key, lo, hi) == 0
    decreases |gs|
  {
    if gs != [] {
      NoGuessesPastTheEnd(AfterGuess(l, gs[0]), gs[1..], key, gs[0].now, lo, hi);
    }
  }

  lemma {:induction false} GuessesWithinBound(l: Limiter, u: Window, gs: seq<Guess>, key: string, from: int, lo: int)
    requires GuessesOrdered(gs, from) && NeverRight(gs, key) && CountAlike(WindowOf(l, key), u, from)
    ensures WrongGuesses(l, gs, key, lo, lo + LIMIT_WINDOW)
            <= StillAdmits(u, PER_USER_FAILURES, lo, lo + LIMIT_WINDOW, 1)
    decreases |gs|
  {
    if gs != [] {
      var g, hi := gs[0], lo + LIMIT_WINDOW;
      if g.now > hi {
        NoGuessesPastTheEnd(l, gs, key, g.now, lo, hi);
      } else {
        assert NeverRight(gs[1..], key) && (g.key == key ==> !g.right);
        GuessRollsWindow(l, u, g, key);
        var charged := g.key == key && Passes(l, g.key, g.now);
        if charged {
          RollSpendsBound(u, g.now, PER_USER_FAILURES, lo, hi, 1);
        }
        GuessesWithinBound(AfterGuess(l, g), if charged then Roll(u, g.now) else u, gs[1..], key, g.now, lo);
      }
    }
  }

  /** Brute force at one name: without a success that clears it, at most twice the allowed failures are checked in any
      window length, whatever else is tried. */
  lemma TwiceTheFailures(gs: seq<Guess>, key: string, from: int, lo: int)
    requires GuessesOrdered(gs, from) && NeverRight(gs, key)
    ensures WrongGuesses(EMPTY, gs, key, lo, lo + LIMIT_WINDOW) <= 2 * PER_USER_FAILURES
  {
    GuessesWithinBound(EMPTY, UNUSED, gs, key, from, lo);
  }

  // ---- the size of the map ----

  /** A handler's use of a limiter: a global check, then, if admitted, perhaps a charge at the same time. Or a key is
      cleared. */
  datatype Round = Attempt(now: int, key: string, charged: bool) | Cleared(key: string)

  function AfterRound(l: Limiter, r: Round, cap: nat): Limiter {
    match r
    case Cleared(key) => Clear(l, key)
    case Attempt(now, key, charged) =>
      var checked := CountGlobal(Reap(l, now), now);
      if checked.global.count <= cap && charged then Charge(checked, key, now) else checked
  }

  function AfterRounds(l: Limiter, rs: seq<Round>, cap: nat): Limiter
    decreases |rs|
  {
    if rs == [] then l else AfterRounds(AfterRound(l, rs[0], cap), rs[1..], cap)
  }

  function AttemptTimes(rs: seq<Round>): seq<int> {
    if rs == [] then []
    else (if rs[0].Attempt? then [rs[0].now] else []) + AttemptTimes(rs[1..])
  }

  /** The keys whose window opened in [lo, hi]. */
  ghost function OpenedIn(l: Limiter, lo: int, hi: int): set<string> {
    set k | k in l.keys && l.keys[k].startAt.Some? && lo <= l.keys[k].startAt.value <= hi
  }

  lemma RoundOpensAtMostOne(l: Limiter, r: Round, cap: nat, lo: int, hi: int)
    ensures var after := AfterRound(l, r, cap);
            |OpenedIn(after, lo, hi)| <= |OpenedIn(l, lo, hi)|
              + if r.Attempt? && after.global.count <= cap && lo <= r.now <= hi then 1 else 0
  {
    var after := AfterRound(l, r, cap);
    var was, held := OpenedIn(l, lo, hi), OpenedIn(after, lo, hi);
    if r.Attempt? && r.charged && after.global.count <= cap && lo <= r.now <= hi {
      AtMostOneMore(held, was, r.key);
    } else {
      assert held <= was;
      SubsetIsNoLarger(held, was);
    }
  }

  lemma AtMostOneMore(a: set<string>, b: set<string>, k: string)
    requires a <= b + {k}
    ensures |a| <= |b| + 1
  {
    SubsetIsNoLarger(a, b + {k});
  }

  /** However often windows open, as many admitted checks paid for them. */
  lemma {:induction false} OpenedArePaidFor(l: Limiter, rs: seq<Round>, cap: nat, lo: int, hi: int)
    ensures |OpenedIn(AfterRounds(l, rs, cap), lo, hi)|
         <= |OpenedIn(l, lo, hi)| + AdmittedIn(l.global, AttemptTimes(rs), cap, lo, hi)
    decreases |rs|
  {
    if rs != [] {
      var after := AfterRound(l, rs[0], cap);
      RoundOpensAtMostOne(l, rs[0], cap, lo, hi);
      OpenedArePaidFor(after, rs[1..], cap, lo, hi);
      if rs[0].Attempt? {
        assert AttemptTimes(rs)[1..] == AttemptTimes(rs[1..]);
        assert after.global == Roll(l.global, rs[0].now);
      } else {
        assert AttemptTimes(rs) == AttemptTimes(rs[1..]);
      }
    }
  }

  ghost predicate RoundsOrdered(rs: seq<Round>, from: int) {
    rs == [] || (if rs[0].Attempt? then rs[0].now >= from && RoundsOrdered(rs[1..], rs[0].now)
      else RoundsOrdered(rs[1..], from))
  }

  /** Every window still held opened within one window length of the last reaping. */
  ghost predicate RecentlyReaped(l: Limiter, now: int) {
    match l.lastReapedAt
    case None => l.keys == map[]
    case Some(r) =>
      && r <= now < r + LIMIT_WINDOW
      && forall k :: k in l.keys ==> l.keys[k].startAt.Some? && r - LIMIT_WINDOW < l.keys[k].startAt.value <= now
  }

  lemma RoundKeepsRecent(l: Limiter, r: Round, cap: nat, now: int)
    requires RecentlyReaped(l, now) && (r.Attempt? ==> r.now >= now)
    ensures RecentlyReaped(AfterRound(l, r, cap), if r.Attempt? then r.now else now)
  {
  }

  lemma {:induction false} RoundsKeepRecent(l: Limiter, rs: seq<Round>, cap: nat, from: int) returns (last: int)
    requires RecentlyReaped(l, from) && RoundsOrdered(rs, from)
    ensures RecentlyReaped(AfterRounds(l, rs, cap), last)
    decreases |rs|
  {
    if rs == [] {
      last := from;
    } else {
      RoundKeepsRecent(l, rs[0], cap, from);
      last := RoundsKeepRecent(AfterRound(l, rs[0], cap), rs[1..], cap, if rs[0].Attempt? then rs[0].now else from);
    }
  }

  lemma {:induction false} AttemptTimesRise(rs: seq<Round>, from: int)
    requires RoundsOrdered(rs, from)
    ensures Rising(AttemptTimes(rs)) && forall i :: 0 <= i < |AttemptTimes(rs)| ==> AttemptTimes(rs)[i] >= from
    decreases |rs|
  {
    if rs != [] {
      AttemptTimesRise(rs[1..], if rs[0].Attempt? then rs[0].now else from);
    }
  }

  /** When every charge follows an admitted check at the same time, the map never holds more than three times the
      cap. */
  lemma MapStaysBounded(rs: seq<Round>, cap: nat, from: int)
    requires RoundsOrdered(rs, from) && cap > 0
    ensures |AfterRounds(EMPTY, rs, cap).keys| <= 3 * cap
  {
    var after := AfterRounds(EMPTY, rs, cap);
    var last := RoundsKeepRecent(EMPTY, rs, cap, from);
    if after.lastReapedAt.Some? {
      var r := after.lastReapedAt.value;
      var lo, hi := r - LIMIT_WINDOW, r + LIMIT_WINDOW;
      assert OpenedIn(after, lo, hi) == after.keys.Keys;
      OpenedArePaidFor(EMPTY, rs, cap, lo, hi);
      assert OpenedIn(EMPTY, lo, hi) == {};
      AttemptTimesRise(rs, from);
      IntervalBound(AttemptTimes(rs), cap, lo, hi, 2);
    }
  }

  /** The figures: at most 180 user windows and 600 link windows. */
  lemma MapFigures(rs: seq<Round>, from: int)
    requires RoundsOrdered(rs, from)
    ensures |AfterRounds(EMPTY, rs, GLOBAL_ATTEMPTS).keys| <= 180
    ensures |AfterRounds(EMPTY, rs, ACCESS_GLOBAL_REQUESTS).keys| <= 600
  {
    MapStaysBounded(rs, GLOBAL_ATTEMPTS, from);
    MapStaysBounded(rs, ACCESS_GLOBAL_REQUESTS, from);
  }
}
