/** The fixed-window limiters of internal/api/ratelimit.go. Instants are nanoseconds; None is the zero time. */
module RateLimits {
  import opened Wrappers
  import opened Text

  const LIMIT_WINDOW := 60_000_000_000
  const PER_USER_FAILURES := 5
  const GLOBAL_ATTEMPTS := 60
  const ACCESS_PER_TOKEN_REQUESTS := 20
  const ACCESS_GLOBAL_REQUESTS := 200

  datatype Window = Window(count: nat, startAt: Option<int>)

  const UNUSED := Window(0, None)

  predicate Within(w: Window, now: int) {
    w.startAt.Some? && now - w.startAt.value < LIMIT_WINDOW
  }

  function Roll(w: Window, now: int): (r: Window)
    ensures Within(r, now) && r.count > 0
  {
    if Within(w, now) then w.(count := w.count + 1) else Window(1, Some(now))
  }

  /** The state both limiters share: one window per key, one for the endpoint, and when it was last reaped. */
  datatype Limiter = Limiter(keys: map<string, Window>, global: Window, lastReapedAt: Option<int>)

  const EMPTY := Limiter(map[], UNUSED, None)

  predicate ReapDue(l: Limiter, now: int) {
    l.lastReapedAt.None? || now - l.lastReapedAt.value >= LIMIT_WINDOW
  }

  function Reap(l: Limiter, now: int): Limiter {
    if ReapDue(l, now)
    then l.(lastReapedAt := Some(now), keys := map k | k in l.keys && Within(l.keys[k], now) :: l.keys[k])
    else l
  }

  function WindowOf(l: Limiter, key: string): Window {
    if key in l.keys then l.keys[key] else UNUSED
  }

  /** Counting a request against the endpoint-wide cap. */
  function CountGlobal(l: Limiter, now: int): Limiter {
    l.(global := Roll(l.global, now))
  }

  /** Counting a request or failure against one key. */
  function Charge(l: Limiter, key: string, now: int): Limiter {
    l.(keys := l.keys[key := Roll(WindowOf(l, key), now)])
  }

  function Clear(l: Limiter, key: string): Limiter {
    l.(keys := l.keys - {key})
  }

  /** Case and surrounding space do not make another key. */
  function LimiterKey(username: string): string {
    ToLower(Trim(username))
  }

  predicate Exhausted(l: Limiter, key: string, now: int) {
    key in l.keys && Within(l.keys[key], now) && l.keys[key].count >= PER_USER_FAILURES
  }

  class LoginLimiter {
    var users: map<string, Window>
    var global: Window
    var lastReapedAt: Option<int>

    function State(): Limiter
      reads this
    {
      Limiter(users, global, lastReapedAt)
    }

    constructor ()
      ensures State() == EMPTY
    {
      users, global, lastReapedAt := map[], UNUSED, None;
    }

    method ReapWindows(now: int)
      modifies this
      ensures State() == Reap(old(State()), now)
    {
      if lastReapedAt.Some? && now - lastReapedAt.value < LIMIT_WINDOW {
        return;
      }
      lastReapedAt := Some(now);
      var rest := users.Keys;
      while rest != {}
        invariant rest <= users.Keys <= old(users).Keys
        invariant users == map k | k in old(users) && (k in rest || Within(old(users)[k], now)) :: old(users)[k]
        invariant global == old(global) && lastReapedAt == Some(now)
        decreases rest
      {
        var k :| k in rest;
        rest := rest - {k};
        if !Within(users[k], now) {
          users := users - {k};
        }
      }
    }

    method Allow(username: string, now: int) returns (ok: bool)
      modifies this
      ensures State() == CountGlobal(Reap(old(State()), now), now)
      ensures ok <==> global.count <= GLOBAL_ATTEMPTS && !Exhausted(State(), LimiterKey(username), now)
    {
      var key := LimiterKey(username);
      ReapWindows(now);
      global := Roll(global, now);
      if global.count > GLOBAL_ATTEMPTS {
        return false;
      }
      if key in users && Within(users[key], now) && users[key].count >= PER_USER_FAILURES {
        return false;
      }
      return true;
    }

    method Fail(username: string, now: int)
      modifies this
      ensures State() == Charge(old(State()), LimiterKey(username), now)
    {
      var key := LimiterKey(username);
      if key !in users {
        users := users[key := UNUSED];
      }
      users := users[key := Roll(users[key], now)];
    }

    method AllowGlobal(now: int) returns (ok: bool)
      modifies this
      ensures State() == CountGlobal(Reap(old(State()), now), now)
      ensures ok <==> global.count <= GLOBAL_ATTEMPTS
    {
      ReapWindows(now);
      global := Roll(global, now);
      ok := global.count <= GLOBAL_ATTEMPTS;
    }

    method Succeed(username: string)
      modifies this
      ensures State() == Clear(old(State()), LimiterKey(username))
    {
      users := users - {LimiterKey(username)};
    }
  }

  class AccessLimiter {
    var tokens: map<string, Window>
    var global: Window
    var lastReapedAt: Option<int>
    var loggedAt: Option<int>

    function State(): Limiter
      reads this
    {
      Limiter(tokens, global, lastReapedAt)
    }

    constructor ()
      ensures State() == EMPTY && loggedAt == None
    {
      tokens, global, lastReapedAt, loggedAt := map[], UNUSED, None, None;
    }

    method ReapWindows(now: int)
      modifies this
      ensures State() == Reap(old(State()), now) && loggedAt == old(loggedAt)
    {
      if lastReapedAt.Some? && now - lastReapedAt.value < LIMIT_WINDOW {
        return;
      }
      lastReapedAt := Some(now);
      var rest := tokens.Keys;
      while rest != {}
        invariant rest <= tokens.Keys <= old(tokens).Keys
        invariant tokens == map k | k in old(tokens) && (k in rest || Within(old(tokens)[k], now)) :: old(tokens)[k]
        invariant global == old(global) && lastReapedAt == Some(now) && loggedAt == old(loggedAt)
        decreases rest
      {
        var k :| k in rest;
        rest := rest - {k};
        if !Within(tokens[k], now) {
          tokens := tokens - {k};
        }
      }
    }

    method AllowGlobal(now: int) returns (ok: bool)
      modifies this
      ensures State() == CountGlobal(Reap(old(State()), now), now) && loggedAt == old(loggedAt)
      ensures ok <==> global.count <= ACCESS_GLOBAL_REQUESTS
    {
      ReapWindows(now);
      global := Roll(global, now);
      ok := global.count <= ACCESS_GLOBAL_REQUESTS;
    }

    method AllowToken(fingerprint: string, now: int) returns (ok: bool)
      modifies this
      ensures State() == Charge(old(State()), fingerprint, now) && loggedAt == old(loggedAt)
      ensures ok <==> tokens[fingerprint].count <= ACCESS_PER_TOKEN_REQUESTS
    {
      if fingerprint !in tokens {
        tokens := tokens[fingerprint := UNUSED];
      }
      tokens := tokens[fingerprint := Roll(tokens[fingerprint], now)];
      ok := tokens[fingerprint].count <= ACCESS_PER_TOKEN_REQUESTS;
    }

    /** True for the first refusal of a window only. */
    method ShouldLog(now: int) returns (first: bool)
      modifies this
      ensures State() == old(State())
      ensures first <==> old(loggedAt.None?) || now - old(loggedAt.value) >= LIMIT_WINDOW
      ensures loggedAt == if first then Some(now) else old(loggedAt)
    {
      if loggedAt.Some? && now - loggedAt.value < LIMIT_WINDOW {
        return false;
      }
      loggedAt := Some(now);
      return true;
    }
  }

  // ---- reaping is invisible ----

  datatype Event = CheckGlobal | Allow(key: string) | Count(key: string) | Forget(key: string)

  datatype Timed = Timed(now: int, event: Event)

  datatype Answer = NoAnswer | Admission(global: nat, keyCount: nat)

  /** One call. With `reaps` off no window is ever deleted for its age. */
  function Step(l: Limiter, t: Timed, reaps: bool): Limiter {
    match t.event
    case CheckGlobal => CountGlobal(if reaps then Reap(l, t.now) else l, t.now)
    case Allow(_) => CountGlobal(if reaps then Reap(l, t.now) else l, t.now)
    case Count(key) => Charge(l, key, t.now)
    case Forget(key) => Clear(l, key)
  }

  /** Everything a verdict can depend on: the endpoint's count, and the key's count while its window is open. */
  function AnswerOf(after: Limiter, t: Timed): Answer {
    match t.event
    case CheckGlobal => Admission(after.global.count, 0)
    case Allow(key) => Admission(after.global.count, OpenCount(after, key, t.now))
    case Count(key) => Admission(0, OpenCount(after, key, t.now))
    case Forget(_) => NoAnswer
  }

  function OpenCount(l: Limiter, key: string, now: int): nat {
    if Within(WindowOf(l, key), now) then WindowOf(l, key).count else 0
  }

  function Answers(l: Limiter, ts: seq<Timed>, reaps: bool): seq<Answer>
    decreases |ts|
  {
    if ts == [] then []
    else
      var after := Step(l, ts[0], reaps);
      [AnswerOf(after, ts[0])] + Answers(after, ts[1..], reaps)
  }

  ghost predicate Ordered(ts: seq<Timed>, from: int) {
    ts == [] || (ts[0].now >= from && Ordered(ts[1..], ts[0].now))
  }

  /** Both limiters count alike from now on: an expired window and an absent one behave alike. */
  ghost predicate Alike(a: Limiter, b: Limiter, now: int) {
    && a.global == b.global
    && forall k :: Within(WindowOf(a, k), now) || Within(WindowOf(b, k), now) ==> WindowOf(a, k) == WindowOf(b, k)
  }

  lemma StepsAlike(a: Limiter, b: Limiter, t: Timed)
    requires Alike(a, b, t.now)
    ensures Alike(Step(a, t, true), Step(b, t, false), t.now)
    ensures AnswerOf(Step(a, t, true), t) == AnswerOf(Step(b, t, false), t)
  {
    var a', b' := Step(a, t, true), Step(b, t, false);
    forall k
      ensures Within(WindowOf(a', k), t.now) || Within(WindowOf(b', k), t.now) ==> WindowOf(a', k) == WindowOf(b', k)
    {
      assert Within(WindowOf(a, k), t.now) || Within(WindowOf(b, k), t.now) ==> WindowOf(a, k) == WindowOf(b, k);
    }
  }

  /** For times that never go backwards, a limiter that reaps gives the same answer to every call as one that never
      deletes a window. */
  lemma {:induction false} ReapingIsInvisible(a: Limiter, b: Limiter, ts: seq<Timed>, from: int)
    requires Alike(a, b, from) && Ordered(ts, from)
    ensures Answers(a, ts, true) == Answers(b, ts, false)
    decreases |ts|
  {
    if ts != [] {
      StepsAlike(a, b, ts[0]);
      ReapingIsInvisible(Step(a, ts[0], true), Step(b, ts[0], false), ts[1..], ts[0].now);
    }
  }

  // ---- how much an interval admits ----

  /** The requests a window admits under a cap, of those that arrive between lo and hi. */
  function AdmittedIn(w: Window, times: seq<int>, cap: nat, lo: int, hi: int): nat
    decreases |times|
  {
    if times == [] then 0
    else
      var after := Roll(w, times[0]);
      (if after.count <= cap && lo <= times[0] <= hi then 1 else 0) + AdmittedIn(after, times[1..], cap, lo, hi)
  }

  ghost predicate Rising(times: seq<int>) {
    forall i, j :: 0 <= i < j < |times| ==> times[i] <= times[j]
  }

  /** How many windows may still open by hi after one that opened at s. */
  function LaterWindows(s: int, hi: int): nat {
    if hi < s then 0 else (hi - s) / LIMIT_WINDOW
  }

  /** An upper bound on what is still admitted in [lo, hi], given the window's state. */
  function StillAdmits(w: Window, cap: nat, lo: int, hi: int, windows: nat): nat {
    if w.startAt.None? || w.startAt.value + LIMIT_WINDOW <= lo then (windows + 1) * cap
    else (if w.count < cap then cap - w.count else 0) + cap * LaterWindows(w.startAt.value, hi)
  }

  lemma {:induction false} NothingPastTheEnd(w: Window, times: seq<int>, cap: nat, lo: int, hi: int)
    requires forall i :: 0 <= i < |times| ==> times[i] > hi
    ensures AdmittedIn(w, times, cap, lo, hi) == 0
    decreases |times|
  {
    if times != [] {
      NothingPastTheEnd(Roll(w, times[0]), times[1..], cap, lo, hi);
    }
  }

  lemma WindowsAreSpaced(s: int, t: int, hi: int)
    requires s + LIMIT_WINDOW <= t <= hi
    ensures LaterWindows(t, hi) + 1 <= LaterWindows(s, hi)
  {
  }

  lemma FewWindowsFit(t: int, lo: int, hi: int, windows: nat)
    requires hi <= lo + windows * LIMIT_WINDOW && lo - LIMIT_WINDOW < t
    ensures LaterWindows(t, hi) <= windows
  {
  }

  lemma Scaled(cap: nat, x: nat, y: nat)
    requires x <= y
    ensures cap * x <= cap * y
  {
  }

  /** One request uses up one unit of the bound when it is admitted inside the interval, and never enlarges it. */
  lemma RollSpendsBound(w: Window, t: int, cap: nat, lo: int, hi: int, windows: nat)
    requires cap > 0 && t <= hi <= lo + windows * LIMIT_WINDOW
    ensures StillAdmits(w, cap, lo, hi, windows)
         >= StillAdmits(Roll(w, t), cap, lo, hi, windows) + if Roll(w, t).count <= cap && lo <= t then 1 else 0
  {
    if !Within(w, t) && lo - LIMIT_WINDOW < t {
      FewWindowsFit(t, lo, hi, windows);
      Scaled(cap, LaterWindows(t, hi), windows);
      assert (windows + 1) * cap == cap + cap * windows;
      if w.startAt.Some? && w.startAt.value + LIMIT_WINDOW > lo {
        WindowsAreSpaced(w.startAt.value, t, hi);
        Scaled(cap, LaterWindows(t, hi) + 1, LaterWindows(w.startAt.value, hi));
        assert cap * (LaterWindows(t, hi) + 1) == cap * LaterWindows(t, hi) + cap;
      }
    }
  }

  lemma {:induction false} AdmittedWithinBound(w: Window, times: seq<int>, cap: nat, lo: int, hi: int, windows: nat)
    requires Rising(times) && cap > 0 && hi <= lo + windows * LIMIT_WINDOW
    ensures AdmittedIn(w, times, cap, lo, hi) <= StillAdmits(w, cap, lo, hi, windows)
    decreases |times|
  {
    if times != [] {
      if times[0] > hi {
        NothingPastTheEnd(w, times, cap, lo, hi);
      } else {
        RollSpendsBound(w, times[0], cap, lo, hi, windows);
        AdmittedWithinBound(Roll(w, times[0]), times[1..], cap, lo, hi, windows);
      }
    }
  }

  /** An interval of n window lengths, ends included, admits at most n + 1 times the cap. */
  lemma IntervalBound(times: seq<int>, cap: nat, lo: int, hi: int, windows: nat)
    requires Rising(times) && cap > 0 && hi <= lo + windows * LIMIT_WINDOW
    ensures AdmittedIn(UNUSED, times, cap, lo, hi) <= (windows + 1) * cap
  {
    AdmittedWithinBound(UNUSED, times, cap, lo, hi, windows);
  }
}
