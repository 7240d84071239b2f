/** Guessing at one name with several attempts under way at once: internal/api/api.go checks an attempt, waits for
    bcrypt, and charges a failure at the time of the check, with the limiter unlocked in between. */
module Guessing {
  import opened Wrappers
  import opened Lists
  import opened RateLimits
  import opened LimiterBounds

  /** The limiter, and when the attempts at the name that are waiting for bcrypt were let through. */
  datatype State = State(limiter: Limiter, waiting: seq<int>)

  /** An attempt under some name is checked; one that waits at the name in question turns out wrong; and whatever
      becomes of attempts under other names. */
  datatype Event =
    | Checked(now: int, key: string)
    | Failed(i: nat)
    | OtherFailed(at: int, key: string)
    | OtherCleared(key: string)

  function Step(s: State, e: Event, key: string): State {
    match e
    case Checked(now, k) =>
      State(CountGlobal(Reap(s.limiter, now), now),
            if k == key && Passes(s.limiter, k, now) then s.waiting + [now] else s.waiting)
    case Failed(i) =>
      if i < |s.waiting| then State(Charge(s.limiter, key, s.waiting[i]), Without(s.waiting, i)) else s
    case OtherFailed(at, k) => if k == key then s else s.(limiter := Charge(s.limiter, k, at))
    case OtherCleared(k) => if k == key then s else s.(limiter := Clear(s.limiter, k))
  }

  /** The attempt is at this name and is let through within one window length of lo. */
  predicate Counts(s: State, e: Event, key: string, lo: int) {
    e.Checked? && e.key == key && lo <= e.now < lo + LIMIT_WINDOW && Passes(s.limiter, key, e.now)
  }

  function LetThrough(s: State, es: seq<Event>, key: string, lo: int): nat
    decreases |es|
  {
    if es == [] then 0
    else (if Counts(s, es[0], key, lo) then 1 else 0) + LetThrough(Step(s, es[0], key), es[1..], key, lo)
  }

  /** Never more than this many attempts at the name wait at once. */
  ghost predicate AtOnce(s: State, es: seq<Event>, key: string, most: nat)
    decreases |es|
  {
    |s.waiting| <= most && (es == [] || AtOnce(Step(s, es[0], key), es[1..], key, most))
  }

  ghost predicate ChecksOrdered(es: seq<Event>, from: int) {
    es == [] ||
    if es[0].Checked? then es[0].now >= from && ChecksOrdered(es[1..], es[0].now) else ChecksOrdered(es[1..], from)
  }

  // ---- counting attempts by time ----

  function Between(times: seq<int>, lo: int, hi: int): (n: nat)
    ensures n <= |times|
  {
    if times == [] then 0
    else
      var t := times[|times| - 1];
      Between(times[..|times| - 1], lo, hi) + if lo <= t < hi then 1 else 0
  }

  lemma {:induction false} BetweenAppended(a: seq<int>, b: seq<int>, lo: int, hi: int)
    ensures Between(a + b, lo, hi) == Between(a, lo, hi) + Between(b, lo, hi)
  {
    if b == [] {
      assert a + b == a;
    } else {
      assert (a + b)[..|a + b| - 1] == a + b[..|b| - 1];
      BetweenAppended(a, b[..|b| - 1], lo, hi);
    }
  }

  lemma BetweenOneMore(times: seq<int>, t: int, lo: int, hi: int)
    ensures Between(times + [t], lo, hi) == Between(times, lo, hi) + if lo <= t < hi then 1 else 0
  {
    assert (times + [t])[..|times|] == times;
  }

  lemma BetweenWithout(times: seq<int>, i: nat, lo: int, hi: int)
    requires i < |times|
    ensures Between(times, lo, hi) == Between(Without(times, i), lo, hi) + if lo <= times[i] < hi then 1 else 0
  {
    var a, b := times[..i], times[i + 1..];
    assert times == (a + [times[i]]) + b;
    BetweenAppended(a + [times[i]], b, lo, hi);
    BetweenOneMore(a, times[i], lo, hi);
    BetweenAppended(a, b, lo, hi);
  }

  lemma {:induction false} BetweenWider(times: seq<int>, lo: int, hi: int, hi': int)
    requires hi <= hi'
    ensures Between(times, lo, hi) <= Between(times, lo, hi')
  {
    if times != [] {
      BetweenWider(times[..|times| - 1], lo, hi, hi');
    }
  }

  // ---- the room that is left ----

  /** What one window can take: the failures it allows, and those that were let through just before the last of them. */
  function Share(most: nat): int {
    PER_USER_FAILURES - 1 + most
  }

  /** The name's window and the attempts waiting, at a time: a window in force and those waiting share what it takes. */
  ghost predicate Fits(w: Window, waiting: seq<int>, now: int, most: nat) {
    && |waiting| <= most
    && (forall i :: 0 <= i < |waiting| ==> waiting[i] <= now)
    && (w.startAt.Some? ==> w.startAt.value <= now)
    && (Within(w, now) ==> w.count + |waiting| <= Share(most))
  }

  /** How many of the failures to come can still go to a window that began before lo. */
  function OldRoom(w: Window, waiting: seq<int>, now: int, lo: int, most: nat): int
    requires w.startAt.Some?
  {
    if Within(w, now) then Share(most) - w.count else Between(waiting, lo, w.startAt.value + LIMIT_WINDOW)
  }

  /** At most this many more attempts are let through until lo + LIMIT_WINDOW. Once a window has begun at lo or later it
      is the last; before that there can be one that began earlier, one more if that is reaped, and the last. */
  function Room(w: Window, waiting: seq<int>, reaped: bool, now: int, lo: int, most: nat): int {
    if w.startAt.Some? && w.startAt.value >= lo then Share(most) - w.count - |waiting|
    else
      (if w.startAt.Some? && w.startAt.value > lo - LIMIT_WINDOW then OldRoom(w, waiting, now, lo, most)
        else Share(most))
      + (if reaped then 0 else Share(most))
      + Share(most) - Between(waiting, lo, lo + LIMIT_WINDOW)
  }

  lemma RoomIsLeft(w: Window, waiting: seq<int>, reaped: bool, now: int, lo: int, most: nat)
    requires Fits(w, waiting, now, most) && lo <= now < lo + LIMIT_WINDOW
    ensures Room(w, waiting, reaped, now, lo, most) >= 0
  {
  }

  lemma RoomAtFirst(w: Window, waiting: seq<int>, reaped: bool, now: int, lo: int, most: nat)
    requires Fits(w, waiting, now, most) && (w.startAt.Some? ==> w.startAt.value < lo)
    ensures Room(w, waiting, reaped, now, lo, most) + Between(waiting, lo, lo + LIMIT_WINDOW) <= 3 * Share(most)
  {
  }

  lemma TimePasses(w: Window, waiting: seq<int>, reaped: bool, now: int, later: int, lo: int, most: nat)
    requires Fits(w, waiting, now, most) && now <= later < lo + LIMIT_WINDOW
    ensures Fits(w, waiting, later, most)
    ensures lo <= now ==> Room(w, waiting, reaped, later, lo, most) <= Room(w, waiting, reaped, now, lo, most)
  {
  }

  lemma WindowIsReaped(w: Window, waiting: seq<int>, now: int, lo: int, most: nat)
    requires Fits(w, waiting, now, most) && lo <= now < lo + LIMIT_WINDOW
    ensures Room(w, waiting, true, now, lo, most) <= Room(w, waiting, false, now, lo, most)
    ensures !Within(w, now) ==> Room(UNUSED, waiting, true, now, lo, most) <= Room(w, waiting, false, now, lo, most)
  {
  }

  lemma AttemptIsLetThrough(w: Window, waiting: seq<int>, reaped: bool, now: int, lo: int, most: nat)
    requires Fits(w, waiting, now, most) && |waiting| < most && (Within(w, now) ==> w.count < PER_USER_FAILURES)
    ensures Fits(w, waiting + [now], now, most)
    ensures lo <= now < lo + LIMIT_WINDOW ==>
              Room(w, waiting + [now], reaped, now, lo, most) == Room(w, waiting, reaped, now, lo, most) - 1
  {
    BetweenOneMore(waiting, now, lo, lo + LIMIT_WINDOW);
    if w.startAt.Some? {
      BetweenOneMore(waiting, now, lo, w.startAt.value + LIMIT_WINDOW);
    }
  }

  lemma FewerWaiting(w: Window, waiting: seq<int>, i: nat, lo: int)
    requires i < |waiting|
    ensures var rest, hi := Without(waiting, i), lo + LIMIT_WINDOW;
            && Between(waiting, lo, hi) == Between(rest, lo, hi) + (if lo <= waiting[i] < hi then 1 else 0)
            && (w.startAt.Some? ==>
                  var end := w.startAt.value + LIMIT_WINDOW;
                  Between(waiting, lo, end) == Between(rest, lo, end) + (if lo <= waiting[i] < end then 1 else 0))
  {
    BetweenWithout(waiting, i, lo, lo + LIMIT_WINDOW);
    if w.startAt.Some? {
      BetweenWithout(waiting, i, lo, w.startAt.value + LIMIT_WINDOW);
    }
  }

  lemma OldWindowIsCharged(w: Window, waiting: seq<int>, i: nat, now: int, lo: int, most: nat)
    requires Fits(w, waiting, now, most) && i < |waiting| && Within(w, waiting[i]) && lo <= now < lo + LIMIT_WINDOW
    requires w.startAt.value < lo
    ensures var rest, hi := Without(waiting, i), lo + LIMIT_WINDOW;
            OldRoom(Roll(w, waiting[i]), rest, now, lo, most) - Between(rest, lo, hi)
            <= OldRoom(w, waiting, now, lo, most) - Between(waiting, lo, hi)
  {
    var hi := w.startAt.value + LIMIT_WINDOW;
    BetweenWithout(waiting, i, lo, lo + LIMIT_WINDOW);
    BetweenWithout(waiting, i, lo, hi);
    assert Roll(w, waiting[i]).startAt == w.startAt;
  }

  lemma WindowIsCharged(w: Window, waiting: seq<int>, reaped: bool, i: nat, now: int, lo: int, most: nat)
    requires Fits(w, waiting, now, most) && i < |waiting| && Within(w, waiting[i]) && lo <= now < lo + LIMIT_WINDOW
    ensures Room(Roll(w, waiting[i]), Without(waiting, i), reaped, now, lo, most)
            <= Room(w, waiting, reaped, now, lo, most)
  {
    if w.startAt.value < lo {
      OldWindowIsCharged(w, waiting, i, now, lo, most);
      BetweenWithout(waiting, i, lo, lo + LIMIT_WINDOW);
    }
  }

  lemma WindowBegins(w: Window, waiting: seq<int>, reaped: bool, i: nat, now: int, lo: int, most: nat)
    requires Fits(w, waiting, now, most) && i < |waiting| && !Within(w, waiting[i]) && lo <= now < lo + LIMIT_WINDOW
    ensures Room(Roll(w, waiting[i]), Without(waiting, i), reaped, now, lo, most)
            <= Room(w, waiting, reaped, now, lo, most)
  {
    FewerWaiting(w, waiting, i, lo);
    BetweenWider(Without(waiting, i), lo, waiting[i] + LIMIT_WINDOW, now + LIMIT_WINDOW);
  }

  lemma AttemptFails(w: Window, waiting: seq<int>, reaped: bool, i: nat, now: int, lo: int, most: nat)
    requires Fits(w, waiting, now, most) && i < |waiting|
    ensures Fits(Roll(w, waiting[i]), Without(waiting, i), now, most)
    ensures lo <= now < lo + LIMIT_WINDOW ==>
              Room(Roll(w, waiting[i]), Without(waiting, i), reaped, now, lo, most)
                <= Room(w, waiting, reaped, now, lo, most)
  {
    if lo <= now < lo + LIMIT_WINDOW {
      if Within(w, waiting[i]) {
        WindowIsCharged(w, waiting, reaped, i, now, lo, most);
      } else {
        WindowBegins(w, waiting, reaped, i, now, lo, most);
      }
    }
  }

  // ---- whole runs ----

  predicate ReapedSince(l: Limiter, lo: int) {
    l.lastReapedAt.Some? && l.lastReapedAt.value >= lo
  }

  ghost predicate Sound(s: State, key: string, now: int, most: nat) {
    && Fits(WindowOf(s.limiter, key), s.waiting, now, most)
    && (s.limiter.lastReapedAt.Some? ==> s.limiter.lastReapedAt.value <= now)
  }

  function RoomIn(s: State, key: string, now: int, lo: int, most: nat): int {
    Room(WindowOf(s.limiter, key), s.waiting, ReapedSince(s.limiter, lo), now, lo, most)
  }

  /** What a check makes of the name's window: nothing, unless it is over and the check reaps. */
  lemma CheckedWindow(l: Limiter, key: string, now: int)
    ensures var after := CountGlobal(Reap(l, now), now);
            && WindowOf(after, key)
               == (if ReapDue(l, now) && !Within(WindowOf(l, key), now) then UNUSED else WindowOf(l, key))
            && after.lastReapedAt == (if ReapDue(l, now) then Some(now) else l.lastReapedAt)
  {
  }

  lemma LetThroughMeans(l: Limiter, key: string, now: int)
    requires Passes(l, key, now)
    ensures var w := WindowOf(CountGlobal(Reap(l, now), now), key); Within(w, now) ==> w.count < PER_USER_FAILURES
  {
  }

  /** A check before it is answered: time passes, and old windows may be reaped. */
  lemma CheckReaps(s: State, key: string, now: int, later: int, lo: int, most: nat)
    requires Sound(s, key, now, most) && now <= later < lo + LIMIT_WINDOW
    ensures var s' := State(CountGlobal(Reap(s.limiter, later), later), s.waiting);
            && Sound(s', key, later, most)
            && (lo <= now ==> RoomIn(s', key, later, lo, most) <= RoomIn(s, key, now, lo, most))
  {
    var w := WindowOf(s.limiter, key);
    CheckedWindow(s.limiter, key, later);
    TimePasses(w, s.waiting, ReapedSince(s.limiter, lo), now, later, lo, most);
    if lo <= now && ReapDue(s.limiter, later) {
      WindowIsReaped(w, s.waiting, later, lo, most);
    }
  }

  lemma CheckSpendsRoom(s: State, e: Event, key: string, now: int, lo: int, most: nat)
    requires Sound(s, key, now, most) && e.Checked? && now <= e.now < lo + LIMIT_WINDOW
    requires |Step(s, e, key).waiting| <= most
    ensures Sound(Step(s, e, key), key, e.now, most)
    ensures lo <= now ==> RoomIn(Step(s, e, key), key, e.now, lo, most) + (if Counts(s, e, key, lo) then 1 else 0)
                          <= RoomIn(s, key, now, lo, most)
    ensures now < lo <= e.now ==>
            RoomIn(Step(s, e, key), key, e.now, lo, most) + (if Counts(s, e, key, lo) then 1 else 0)
                                  <= 3 * Share(most)
  {
    var l := CountGlobal(Reap(s.limiter, e.now), e.now);
    CheckReaps(s, key, now, e.now, lo, most);
    if now < lo <= e.now {
      RoomAtFirst(WindowOf(l, key), s.waiting, ReapedSince(l, lo), e.now, lo, most);
    }
    if e.key == key && Passes(s.limiter, key, e.now) {
      LetThroughMeans(s.limiter, key, e.now);
      AttemptIsLetThrough(WindowOf(l, key), s.waiting, ReapedSince(l, lo), e.now, lo, most);
    }
  }

  lemma FailureKeepsRoom(s: State, i: nat, key: string, now: int, lo: int, most: nat)
    requires Sound(s, key, now, most) && i < |s.waiting|
    ensures Sound(Step(s, Failed(i), key), key, now, most)
    ensures lo <= now < lo + LIMIT_WINDOW ==>
            RoomIn(Step(s, Failed(i), key), key, now, lo, most) <= RoomIn(s, key, now, lo, most)
  {
    AttemptFails(WindowOf(s.limiter, key), s.waiting, ReapedSince(s.limiter, lo), i, now, lo, most);
  }

  lemma RestKeepsRoom(s: State, e: Event, key: string, now: int, lo: int, most: nat)
    requires Sound(s, key, now, most) && !e.Checked?
    ensures Sound(Step(s, e, key), key, now, most)
    ensures lo <= now < lo + LIMIT_WINDOW ==>
            RoomIn(Step(s, e, key), key, now, lo, most) <= RoomIn(s, key, now, lo, most)
  {
    if e.Failed? && e.i < |s.waiting| {
      FailureKeepsRoom(s, e.i, key, now, lo, most);
    } else {
      assert WindowOf(Step(s, e, key).limiter, key) == WindowOf(s.limiter, key);
    }
  }

  /** The bound on what is let through from a time on. */
  function RoomFrom(s: State, key: string, now: int, lo: int, most: nat): int {
    if now < lo then 3 * Share(most) else if now < lo + LIMIT_WINDOW then RoomIn(s, key, now, lo, most) else 0
  }

  lemma RoomFromIsLeft(s: State, key: string, now: int, lo: int, most: nat)
    requires Sound(s, key, now, most)
    ensures RoomFrom(s, key, now, lo, most) >= 0
  {
    if lo <= now < lo + LIMIT_WINDOW {
      RoomIsLeft(WindowOf(s.limiter, key), s.waiting, ReapedSince(s.limiter, lo), now, lo, most);
    }
  }

  lemma CheckAfterwards(s: State, e: Event, key: string, now: int, most: nat)
    requires Sound(s, key, now, most) && e.Checked? && now <= e.now && |Step(s, e, key).waiting| <= most
    ensures Sound(Step(s, e, key), key, e.now, most)
  {
    CheckSpendsRoom(s, e, key, now, e.now, most);
  }

  lemma StepSpendsRoom(s: State, e: Event, key: string, now: int, later: int, lo: int, most: nat)
    requires Sound(s, key, now, most) && |Step(s, e, key).waiting| <= most
    requires later == (if e.Checked? then e.now else now) && now <= later
    ensures Sound(Step(s, e, key), key, later, most)
    ensures RoomFrom(Step(s, e, key), key, later, lo, most) + (if Counts(s, e, key, lo) then 1 else 0)
         <= RoomFrom(s, key, now, lo, most)
  {
    RoomFromIsLeft(s, key, now, lo, most);
    if !e.Checked? {
      RestKeepsRoom(s, e, key, now, lo, most);
    } else {
      CheckAfterwards(s, e, key, now, most);
      if later < lo + LIMIT_WINDOW {
        CheckSpendsRoom(s, e, key, now, lo, most);
      }
    }
  }

  lemma {:induction false} LetThroughWithinRoom(s: State, es: seq<Event>, key: string, now: int, lo: int, most: nat)
    requires Sound(s, key, now, most) && ChecksOrdered(es, now) && AtOnce(s, es, key, most)
    ensures LetThrough(s, es, key, lo) <= RoomFrom(s, key, now, lo, most)
    decreases |es|
  {
    if es == [] {
      RoomFromIsLeft(s, key, now, lo, most);
    } else {
      var later := if es[0].Checked? then es[0].now else now;
      StepSpendsRoom(s, es[0], key, now, later, lo, most);
      LetThroughWithinRoom(Step(s, es[0], key), es[1..], key, later, lo, most);
    }
  }

  /** However attempts overlap, a name that nobody clears is checked against bcrypt within a window length at most three
      times as often as one window takes: the failures it allows, and the other attempts under way with the last of
      them. */
  lemma LetThroughAtMost(es: seq<Event>, key: string, from: int, lo: int, most: nat)
    requires ChecksOrdered(es, from) && AtOnce(State(EMPTY, []), es, key, most)
    ensures LetThrough(State(EMPTY, []), es, key, lo) <= 3 * (PER_USER_FAILURES - 1 + most)
  {
    var s := State(EMPTY, []);
    LetThroughWithinRoom(s, es, key, from, lo, most);
    if from >= lo {
      RoomAtFirst(UNUSED, [], false, from, lo, most);
    }
  }

  /** Attempts that all arrive at once. */
  function Rush(n: nat, at: int, key: string): seq<Event> {
    if n == 0 then [] else [Checked(at, key)] + Rush(n - 1, at, key)
  }

  /** The limiter once that many checks, and no charge yet, have come in at one time. */
  function Rushed(count: nat, at: int): Limiter {
    Limiter(map[], Window(count, Some(at)), Some(at))
  }

  lemma {:induction false} RushIsLetThroughFrom(count: nat, waiting: seq<int>, n: nat, at: int, key: string)
    ensures LetThrough(State(Rushed(count, at), waiting), Rush(n, at, key), key, at)
         == if count >= GLOBAL_ATTEMPTS then 0 else if n <= GLOBAL_ATTEMPTS - count then n else GLOBAL_ATTEMPTS - count
    decreases n
  {
    if n > 0 {
      var s := State(Rushed(count, at), waiting);
      var after := Step(s, Checked(at, key), key);
      assert after.limiter == Rushed(count + 1, at);
      assert Rush(n, at, key)[1..] == Rush(n - 1, at, key);
      RushIsLetThroughFrom(count + 1, after.waiting, n - 1, at, key);
    }
  }

  /** The limit per name does nothing against attempts that arrive before the first of them is charged: all are let
      through up to the endpoint's cap, and only that stops them. */
  lemma RushIsLetThrough(n: nat, at: int, key: string)
    ensures LetThrough(State(EMPTY, []), Rush(n, at, key), key, at) == if n <= GLOBAL_ATTEMPTS then n
            else GLOBAL_ATTEMPTS
  {
    if n > 0 {
      var after := Step(State(EMPTY, []), Checked(at, key), key);
      assert after.limiter == Rushed(1, at);
      assert Rush(n, at, key)[1..] == Rush(n - 1, at, key);
      RushIsLetThroughFrom(1, after.waiting, n - 1, at, key);
    }
  }
}
