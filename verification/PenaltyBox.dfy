/** Who the limiters turn away, told in seconds and counts and without windows, reaping or maps:
    internal/api/ratelimit.go. */
module PenaltyBox {
  import opened Wrappers
  import opened Lists
  import opened Text
  import opened RateLimits
  import opened LimiterBounds
  import Admins
  import SignIns

  // ---- a count that starts anew a minute after it began ----

  datatype Tally = Tally(since: int, count: nat)

  const NOTHING := Tally(0, 0)

  predicate Running(t: Tally, now: int) {
    t.count > 0 && now - t.since < 60_000_000_000
  }

  function OneMore(t: Tally, now: int): Tally {
    if Running(t, now) then Tally(t.since, t.count + 1) else Tally(now, 1)
  }

  /** What has been counted by now of the minute that is running. */
  function Counted(t: Tally, now: int): nat {
    if Running(t, now) then t.count else 0
  }

  /** A window and a tally that say the same from now on. */
  predicate Agree(w: Window, t: Tally, now: int) {
    (Within(w, now) <==> Running(t, now)) && (Within(w, now) ==> w == Window(t.count, Some(t.since)))
  }

  lemma AgreeLater(w: Window, t: Tally, now: int, later: int)
    requires Agree(w, t, now) && now <= later
    ensures Agree(w, t, later)
  {
  }

  // ---- a run of calls ----

  function After(ts: seq<Timed>): Limiter {
    if ts == [] then EMPTY else Step(After(ts[..|ts| - 1]), ts[|ts| - 1], true)
  }

  predicate InOrder(ts: seq<Timed>) {
    forall i, j :: 0 <= i < j < |ts| ==> ts[i].now <= ts[j].now
  }

  predicate By(ts: seq<Timed>, now: int) {
    forall i :: 0 <= i < |ts| ==> ts[i].now <= now
  }

  function RequestsThen(before: Tally, t: Timed): Tally {
    if t.event.CheckGlobal? || t.event.Allow? then OneMore(before, t.now) else before
  }

  /** The requests of the current minute, all callers together. */
  function Requests(ts: seq<Timed>): Tally {
    if ts == [] then NOTHING else RequestsThen(Requests(ts[..|ts| - 1]), ts[|ts| - 1])
  }

  function HeldThen(before: Tally, t: Timed, key: string): Tally {
    if t.event == Count(key) then OneMore(before, t.now) else if t.event == Forget(key) then NOTHING else before
  }

  /** What is held against a key: what was counted against it in the current minute and not forgotten. */
  function Held(ts: seq<Timed>, key: string): Tally {
    if ts == [] then NOTHING else HeldThen(Held(ts[..|ts| - 1], key), ts[|ts| - 1], key)
  }

  lemma StepAgrees(l: Limiter, t: Timed, all: Tally, own: Tally, key: string)
    requires Agree(l.global, all, t.now) && Agree(WindowOf(l, key), own, t.now)
    ensures Agree(Step(l, t, true).global, RequestsThen(all, t), t.now)
    ensures Agree(WindowOf(Step(l, t, true), key), HeldThen(own, t, key), t.now)
  {
  }

  /** At any time from the last call on, the limiter's windows are the two tallies. */
  lemma {:induction false} WindowsAreTallies(ts: seq<Timed>, key: string, now: int)
    requires InOrder(ts) && By(ts, now)
    ensures Agree(After(ts).global, Requests(ts), now) && Agree(WindowOf(After(ts), key), Held(ts, key), now)
  {
    if ts != [] {
      var init, t := ts[..|ts| - 1], ts[|ts| - 1];
      WindowsAreTallies(init, key, t.now);
      StepAgrees(After(init), t, Requests(init), Held(init, key), key);
      AgreeLater(After(ts).global, Requests(ts), t.now, now);
      AgreeLater(WindowOf(After(ts), key), Held(ts, key), t.now, now);
    }
  }

  // ---- names ----

  /** Two names share a penalty box exactly when they differ at most in surrounding white space and case, which is when
      the list of administrators takes them for one name. */
  lemma KeysAreNames(u: string, v: string)
    ensures LimiterKey(u) == LimiterKey(v) <==> SameName(u, v)
    ensures LimiterKey(u) == LimiterKey(v) <==> Admins.Normalize(u) == Admins.Normalize(v)
  {
    FoldingForgetsCase(Trim(u), Trim(v));
  }

  /** What the handlers ask of the sign-in limiter. */
  datatype Call = SignInAsked(name: string) | CeremonyAsked | Failed(name: string) | Succeeded(name: string)

  datatype TimedCall = TimedCall(now: int, call: Call)

  function EventOf(c: Call): Event {
    match c
    case SignInAsked(name) => Allow(LimiterKey(name))
    case CeremonyAsked => CheckGlobal
    case Failed(name) => Count(LimiterKey(name))
    case Succeeded(name) => Forget(LimiterKey(name))
  }

  function TimedEvent(c: TimedCall): Timed {
    Timed(c.now, EventOf(c.call))
  }

  function EventsOf(cs: seq<TimedCall>): (ts: seq<Timed>)
    ensures |ts| == |cs|
  {
    seq(|cs|, i requires 0 <= i < |cs| => TimedEvent(cs[i]))
  }

  predicate CallsInOrder(cs: seq<TimedCall>) {
    forall i, j :: 0 <= i < j < |cs| ==> cs[i].now <= cs[j].now
  }

  predicate CallsBy(cs: seq<TimedCall>, now: int) {
    forall i :: 0 <= i < |cs| ==> cs[i].now <= now
  }

  function AttemptsThen(before: Tally, c: TimedCall): Tally {
    if c.call.SignInAsked? || c.call.CeremonyAsked? then OneMore(before, c.now) else before
  }

  /** The attempts of the current minute, whoever made them. */
  function Attempts(cs: seq<TimedCall>): Tally {
    if cs == [] then NOTHING else AttemptsThen(Attempts(cs[..|cs| - 1]), cs[|cs| - 1])
  }

  function FailuresThen(before: Tally, c: TimedCall, name: string): Tally {
    if c.call.Failed? && SameName(c.call.name, name) then OneMore(before, c.now)
    else if c.call.Succeeded? && SameName(c.call.name, name) then NOTHING
    else before
  }

  /** The failures held against a name: those under any spelling of it since the last success, of the current minute. */
  function Failures(cs: seq<TimedCall>, name: string): Tally {
    if cs == [] then NOTHING else FailuresThen(Failures(cs[..|cs| - 1], name), cs[|cs| - 1], name)
  }

  /** Who is turned away: a name with five failures against it, and everybody once there were sixty attempts. */
  predicate LetIn(cs: seq<TimedCall>, name: string, now: int) {
    Counted(Attempts(cs), now) < 60 && Counted(Failures(cs, name), now) < 5
  }

  lemma HeldByKey(own: Tally, now: int, k: string, key: string, same: bool)
    requires same <==> k == key
    ensures HeldThen(own, Timed(now, Count(k)), key) == if same then OneMore(own, now) else own
    ensures HeldThen(own, Timed(now, Forget(k)), key) == if same then NOTHING else own
  {
  }

  lemma CallByName(all: Tally, own: Tally, c: TimedCall, name: string)
    ensures RequestsThen(all, TimedEvent(c)) == AttemptsThen(all, c)
    ensures HeldThen(own, TimedEvent(c), LimiterKey(name)) == FailuresThen(own, c, name)
  {
    if c.call.Failed? || c.call.Succeeded? {
      var u := c.call.name;
      KeysAreNames(u, name);
      HeldByKey(own, c.now, LimiterKey(u), LimiterKey(name), SameName(u, name));
    }
  }

  lemma EventsOfPrefix(cs: seq<TimedCall>)
    requires cs != []
    ensures var ts, n := EventsOf(cs), |cs| - 1; ts[..n] == EventsOf(cs[..n]) && ts[n] == TimedEvent(cs[n])
  {
  }

  lemma {:induction false} TalliesByName(cs: seq<TimedCall>, name: string)
    ensures Requests(EventsOf(cs)) == Attempts(cs) && Held(EventsOf(cs), LimiterKey(name)) == Failures(cs, name)
  {
    if cs != [] {
      var init, c := cs[..|cs| - 1], cs[|cs| - 1];
      EventsOfPrefix(cs);
      TalliesByName(init, name);
      CallByName(Attempts(init), Failures(init, name), c, name);
    }
  }

  /** The limiter's answer to the next attempt. */
  predicate Answer(cs: seq<TimedCall>, name: string, now: int) {
    var after := Step(After(EventsOf(cs)), Timed(now, Allow(LimiterKey(name))), true);
    after.global.count <= GLOBAL_ATTEMPTS && !Exhausted(after, LimiterKey(name), now)
  }

  /** Whatever happened before, the next attempt is answered as told. */
  lemma AnswersAreAsTold(cs: seq<TimedCall>, name: string, now: int)
    requires CallsInOrder(cs) && CallsBy(cs, now)
    ensures Answer(cs, name, now) <==> LetIn(cs, name, now)
    ensures CountGlobal(Reap(After(EventsOf(cs)), now), now).global.count <= GLOBAL_ATTEMPTS
       <==> Counted(Attempts(cs), now) < 60
  {
    var ts, key := EventsOf(cs), LimiterKey(name);
    TalliesByName(cs, name);
    WindowsAreTallies(ts, key, now);
    StepAgrees(After(ts), Timed(now, Allow(key)), Requests(ts), Held(ts, key), key);
  }

  /** The answer to a call; a failure or a success has none. */
  predicate Told(cs: seq<TimedCall>, c: TimedCall) {
    match c.call
    case SignInAsked(name) => LetIn(cs, name, c.now)
    case CeremonyAsked => Counted(Attempts(cs), c.now) < 60
    case _ => true
  }

  /** What the limiter answers in a state. */
  predicate AnswerIn(l: Limiter, c: TimedCall) {
    var after := Step(l, TimedEvent(c), true);
    match c.call
    case SignInAsked(name) => after.global.count <= GLOBAL_ATTEMPTS && !Exhausted(after, LimiterKey(name), c.now)
    case CeremonyAsked => after.global.count <= GLOBAL_ATTEMPTS
    case _ => true
  }

  method Ask(limiter: LoginLimiter, c: TimedCall) returns (ok: bool)
    modifies limiter
    ensures limiter.State() == Step(old(limiter.State()), TimedEvent(c), true)
    ensures ok == AnswerIn(old(limiter.State()), c)
  {
    ok := true;
    match c.call
    case SignInAsked(name) => ok := limiter.Allow(name, c.now);
    case CeremonyAsked => ok := limiter.AllowGlobal(c.now);
    case Failed(name) => limiter.Fail(name, c.now);
    case Succeeded(name) => limiter.Succeed(name);
  }

  lemma AnswerIsTold(cs: seq<TimedCall>, c: TimedCall)
    requires CallsInOrder(cs) && CallsBy(cs, c.now)
    ensures AnswerIn(After(EventsOf(cs)), c) == Told(cs, c)
  {
    AnswersAreAsTold(cs, if c.call.CeremonyAsked? then "" else c.call.name, c.now);
  }

  lemma OneMoreCall(cs: seq<TimedCall>, i: nat)
    requires i < |cs|
    ensures After(EventsOf(cs[..i + 1])) == Step(After(EventsOf(cs[..i])), TimedEvent(cs[i]), true)
  {
    assert EventsOf(cs[..i + 1])[..i] == EventsOf(cs[..i]);
  }

  lemma EarlierCalls(cs: seq<TimedCall>, i: nat)
    requires CallsInOrder(cs) && i < |cs|
    ensures CallsInOrder(cs[..i]) && CallsBy(cs[..i], cs[i].now)
  {
  }

  /** The program's limiter gives those answers. */
  method Serve(cs: seq<TimedCall>) returns (answers: seq<bool>)
    requires CallsInOrder(cs)
    ensures |answers| == |cs|
    ensures forall i :: 0 <= i < |cs| ==> answers[i] == Told(cs[..i], cs[i])
  {
    answers := [];
    var limiter := new LoginLimiter();
    for i := 0 to |cs|
      invariant |answers| == i && fresh(limiter) && limiter.State() == After(EventsOf(cs[..i]))
      invariant forall j :: 0 <= j < i ==> answers[j] == Told(cs[..j], cs[j])
    {
      EarlierCalls(cs, i);
      AnswerIsTold(cs[..i], cs[i]);
      OneMoreCall(cs, i);
      var ok := Ask(limiter, cs[i]);
      answers := answers + [ok];
    }
  }

  lemma AfterAppended(ts: seq<Timed>, t: Timed)
    ensures After(ts + [t]) == Step(After(ts), t, true)
  {
    assert (ts + [t])[..|ts|] == ts;
  }

  lemma CallAppended(cs: seq<TimedCall>, c: TimedCall)
    ensures After(EventsOf(cs + [c])) == Step(After(EventsOf(cs)), TimedEvent(c), true)
  {
    AfterAppended(EventsOf(cs), TimedEvent(c));
    assert EventsOf(cs + [c]) == EventsOf(cs) + [TimedEvent(c)];
  }

  /** On a limiter, an attempt is a check and, if that passes, a charge or a clearing. */
  lemma GuessIsItsEvents(l: Limiter, key: string, now: int, right: bool)
    ensures var asked := Step(l, Timed(now, Allow(key)), true);
            AfterGuess(l, Guess(now, key, right))
            == if !Passes(l, key, now) then asked
               else Step(asked, Timed(now, if right then Forget(key) else Count(key)), true)
  {
  }

  /** What an attempt whose password is checked asks of the limiter. */
  function CallsOf(name: string, now: int, letIn: bool, right: bool): seq<TimedCall> {
    [TimedCall(now, SignInAsked(name))]
    + if !letIn then [] else [TimedCall(now, if right then Succeeded(name) else Failed(name))]
  }

  lemma CallsAppended(cs: seq<TimedCall>, name: string, now: int, letIn: bool, right: bool)
    ensures var asked := Step(After(EventsOf(cs)), Timed(now, Allow(LimiterKey(name))), true);
            After(EventsOf(cs + CallsOf(name, now, letIn, right)))
            == if !letIn then asked
               else Step(asked, Timed(now, if right then Forget(LimiterKey(name)) else Count(LimiterKey(name))), true)
  {
    var first := TimedCall(now, SignInAsked(name));
    CallAppended(cs, first);
    if letIn {
      var second := TimedCall(now, if right then Succeeded(name) else Failed(name));
      CallAppended(cs + [first], second);
      assert cs + CallsOf(name, now, letIn, right) == (cs + [first]) + [second];
    } else {
      assert CallsOf(name, now, letIn, right) == [first];
    }
  }

  /** An attempt whose password is checked is a question and, if it is let in, a failure or a success. */
  lemma AttemptIsItsCalls(cs: seq<TimedCall>, name: string, now: int, right: bool)
    requires CallsInOrder(cs) && CallsBy(cs, now)
    ensures SignIns.Throttled(After(EventsOf(cs)), name, now) <==> !LetIn(cs, name, now)
    ensures SignIns.AfterAttempt(After(EventsOf(cs)), name, now, right)
         == After(EventsOf(cs + CallsOf(name, now, LetIn(cs, name, now), right)))
  {
    var l, letIn := After(EventsOf(cs)), LetIn(cs, name, now);
    AnswersAreAsTold(cs, name, now);
    PassesIsAnswer(l, LimiterKey(name), now);
    GuessIsItsEvents(l, LimiterKey(name), now, right);
    CallsAppended(cs, name, now, letIn, right);
  }

  lemma PassesIsAnswer(l: Limiter, key: string, now: int)
    ensures var after := Step(l, Timed(now, Allow(key)), true);
            Passes(l, key, now) <==> after.global.count <= GLOBAL_ATTEMPTS && !Exhausted(after, key, now)
  {
  }

  // ---- what other names do ----

  function Concerns(name: string): TimedCall -> bool {
    (c: TimedCall) => !c.call.CeremonyAsked? && SameName(c.call.name, name)
  }

  lemma {:induction false} OnlyOwnCallsCount(cs: seq<TimedCall>, name: string)
    ensures Failures(Filtered(cs, Concerns(name)), name) == Failures(cs, name)
  {
    if cs != [] {
      var init, c := cs[..|cs| - 1], cs[|cs| - 1];
      OnlyOwnCallsCount(init, name);
      if Concerns(name)(c) {
        assert (Filtered(init, Concerns(name)) + [c])[..|Filtered(init, Concerns(name))|]
               == Filtered(init, Concerns(name));
      }
    }
  }

  /** What is asked, failed or succeeded under other names changes no answer for this one, up to the endpoint's cap. */
  lemma OtherNamesChangeNothing(cs: seq<TimedCall>, ds: seq<TimedCall>, name: string, now: int)
    requires CallsInOrder(cs) && CallsBy(cs, now) && CallsInOrder(ds) && CallsBy(ds, now)
    requires Filtered(cs, Concerns(name)) == Filtered(ds, Concerns(name))
    requires Counted(Attempts(cs), now) < 60 && Counted(Attempts(ds), now) < 60
    ensures Answer(cs, name, now) <==> Answer(ds, name, now)
  {
    AnswersAreAsTold(cs, name, now);
    AnswersAreAsTold(ds, name, now);
    OnlyOwnCallsCount(cs, name);
    OnlyOwnCallsCount(ds, name);
  }

  // ---- the figures ----

  function Repeated(n: nat, at: int, call: Call): (cs: seq<TimedCall>)
    ensures |cs| == n
  {
    seq(n, _ => TimedCall(at, call))
  }

  lemma RepeatedOnceMore(n: nat, at: int, call: Call)
    requires n > 0
    ensures Repeated(n, at, call)[..n - 1] == Repeated(n - 1, at, call)
  {
  }

  function RepeatedFailures(n: nat, at: int, call: Call, name: string): Tally {
    if n > 0 && call.Failed? && SameName(call.name, name) then Tally(at, n) else NOTHING
  }

  lemma {:induction false} RepeatedTallies(n: nat, at: int, call: Call, name: string)
    ensures Failures(Repeated(n, at, call), name) == RepeatedFailures(n, at, call, name)
    ensures Attempts(Repeated(n, at, call))
            == if n > 0 && (call.SignInAsked? || call.CeremonyAsked?) then Tally(at, n) else NOTHING
  {
    if n > 0 {
      RepeatedOnceMore(n, at, call);
      RepeatedTallies(n - 1, at, call, name);
      assert Repeated(n, at, call)[n - 1] == TimedCall(at, call);
    }
  }

  lemma RepeatedInOrder(n: nat, at: int, call: Call, now: int)
    requires at <= now
    ensures CallsInOrder(Repeated(n, at, call)) && CallsBy(Repeated(n, at, call), now)
  {
  }

  lemma CallsByLater(cs: seq<TimedCall>, at: int, now: int)
    requires CallsBy(cs, at) && at <= now
    ensures CallsBy(cs, now)
  {
  }

  /** Four failures leave a name alone and five shut it out, under any spelling, for a minute; no other name is shut
      out. */
  lemma FiveFailuresShutOut(n: nat, at: int, u: string, v: string, now: int)
    requires at <= now
    ensures Answer(Repeated(n, at, Failed(u)), v, now) <==> n < 5 || now >= at + 60_000_000_000 || !SameName(u, v)
  {
    var cs := Repeated(n, at, Failed(u));
    RepeatedTallies(n, at, Failed(u), v);
    RepeatedInOrder(n, at, Failed(u), now);
    AnswersAreAsTold(cs, v, now);
  }

  /** Sixty attempts under whatever name, and nobody is let in for a minute. */
  lemma SixtyAttemptsShutOut(n: nat, at: int, u: string, v: string, now: int)
    requires at <= now
    ensures Answer(Repeated(n, at, SignInAsked(u)), v, now) <==> n < 60 || now >= at + 60_000_000_000
    ensures Answer(Repeated(n, at, CeremonyAsked), v, now) <==> n < 60 || now >= at + 60_000_000_000
  {
    RepeatedTallies(n, at, SignInAsked(u), v);
    RepeatedInOrder(n, at, SignInAsked(u), now);
    AnswersAreAsTold(Repeated(n, at, SignInAsked(u)), v, now);
    RepeatedTallies(n, at, CeremonyAsked, v);
    RepeatedInOrder(n, at, CeremonyAsked, now);
    AnswersAreAsTold(Repeated(n, at, CeremonyAsked), v, now);
  }

  lemma SuccessTallies(cs: seq<TimedCall>, at: int, u: string, v: string)
    requires CallsInOrder(cs) && CallsBy(cs, at)
    ensures var ds := cs + [TimedCall(at, Succeeded(u))];
            && CallsInOrder(ds) && CallsBy(ds, at)
            && Attempts(ds) == Attempts(cs) && Failures(ds, v) == if SameName(u, v) then NOTHING else Failures(cs, v)
  {
    assert (cs + [TimedCall(at, Succeeded(u))])[..|cs|] == cs;
  }

  /** A success under any spelling lets the name in again, up to the endpoint's cap, and no other name. */
  lemma SuccessLetsIn(cs: seq<TimedCall>, at: int, u: string, v: string, now: int)
    requires CallsInOrder(cs) && CallsBy(cs, at) && at <= now
    ensures Answer(cs + [TimedCall(at, Succeeded(u))], v, now)
       <==> if SameName(u, v) then Counted(Attempts(cs), now) < 60 else LetIn(cs, v, now)
  {
    var ds := cs + [TimedCall(at, Succeeded(u))];
    SuccessTallies(cs, at, u, v);
    CallsByLater(ds, at, now);
    AnswersAreAsTold(ds, v, now);
  }

  // ---- share links ----

  /** What the handler asks of the limiter for share links. */
  datatype LinkCall = LinkAsked | AskedFor(link: string) | RefusalSeen

  datatype TimedLinkCall = TimedLinkCall(now: int, call: LinkCall)

  predicate LinkCallsInOrder(cs: seq<TimedLinkCall>) {
    forall i, j :: 0 <= i < j < |cs| ==> cs[i].now <= cs[j].now
  }

  /** The requests of the current minute, for any link or for none. */
  function LinkRequests(cs: seq<TimedLinkCall>): Tally {
    if cs == [] then NOTHING
    else
      var before, c := LinkRequests(cs[..|cs| - 1]), cs[|cs| - 1];
      if c.call.LinkAsked? then OneMore(before, c.now) else before
  }

  /** The requests of the current minute for this link. */
  function RequestsFor(cs: seq<TimedLinkCall>, link: string): Tally {
    if cs == [] then NOTHING
    else
      var before, c := RequestsFor(cs[..|cs| - 1], link), cs[|cs| - 1];
      if c.call == AskedFor(link) then OneMore(before, c.now) else before
  }

  /** When a refusal was last worth a line in the log: the first, and then any that comes a minute or more later. */
  function LastLogged(cs: seq<TimedLinkCall>): Option<int> {
    if cs == [] then None
    else
      var before, c := LastLogged(cs[..|cs| - 1]), cs[|cs| - 1];
      if c.call.RefusalSeen? && (before.None? || c.now - before.value >= 60_000_000_000) then Some(c.now) else before
  }

  /** The answer in literal figures: two hundred requests a minute, twenty for one link, one line in the log. */
  predicate ToldOfLinks(cs: seq<TimedLinkCall>, c: TimedLinkCall) {
    match c.call
    case LinkAsked => Counted(LinkRequests(cs), c.now) < 200
    case AskedFor(link) => Counted(RequestsFor(cs, link), c.now) < 20
    case RefusalSeen => LastLogged(cs).None? || c.now - LastLogged(cs).value >= 60_000_000_000
  }

  function LinkEvents(cs: seq<TimedLinkCall>): seq<Timed> {
    if cs == [] then []
    else
      var before, c := LinkEvents(cs[..|cs| - 1]), cs[|cs| - 1];
      match c.call
      case LinkAsked => before + [Timed(c.now, CheckGlobal)]
      case AskedFor(link) => before + [Timed(c.now, Count(link))]
      case RefusalSeen => before
  }

  lemma {:induction false} LinkTallies(cs: seq<TimedLinkCall>, link: string, now: int)
    requires LinkCallsInOrder(cs) && forall i :: 0 <= i < |cs| ==> cs[i].now <= now
    ensures Agree(After(LinkEvents(cs)).global, LinkRequests(cs), now)
    ensures Agree(WindowOf(After(LinkEvents(cs)), link), RequestsFor(cs, link), now)
  {
    if cs != [] {
      var init, c := cs[..|cs| - 1], cs[|cs| - 1];
      LinkTallies(init, link, c.now);
      var ts := LinkEvents(init);
      if !c.call.RefusalSeen? {
        var t := Timed(c.now, if c.call.LinkAsked? then CheckGlobal else Count(c.call.link));
        assert (ts + [t])[..|ts|] == ts;
        StepAgrees(After(ts), t, LinkRequests(init), RequestsFor(init, link), link);
      }
      AgreeLater(After(LinkEvents(cs)).global, LinkRequests(cs), c.now, now);
      AgreeLater(WindowOf(After(LinkEvents(cs)), link), RequestsFor(cs, link), c.now, now);
    }
  }

  lemma EarlierLinkCalls(cs: seq<TimedLinkCall>, i: nat)
    requires LinkCallsInOrder(cs) && i < |cs|
    ensures LinkCallsInOrder(cs[..i]) && forall j :: 0 <= j < i ==> cs[..i][j].now <= cs[i].now
    ensures cs[..i + 1] == cs[..i] + [cs[i]]
  {
  }

  /** The program's limiter for share links gives those answers. */
  method ServeLinks(cs: seq<TimedLinkCall>) returns (answers: seq<bool>)
    requires LinkCallsInOrder(cs)
    ensures |answers| == |cs|
    ensures forall i :: 0 <= i < |cs| ==> answers[i] == ToldOfLinks(cs[..i], cs[i])
  {
    answers := [];
    var limiter := new AccessLimiter();
    for i := 0 to |cs|
      invariant |answers| == i && fresh(limiter)
      invariant limiter.State() == After(LinkEvents(cs[..i])) && limiter.loggedAt == LastLogged(cs[..i])
      invariant forall j :: 0 <= j < i ==> answers[j] == ToldOfLinks(cs[..j], cs[j])
    {
      EarlierLinkCalls(cs, i);
      var ok := AskLink(limiter, cs[..i], cs[i]);
      answers := answers + [ok];
    }
  }

  method AskLink(limiter: AccessLimiter, ghost cs: seq<TimedLinkCall>, c: TimedLinkCall) returns (ok: bool)
    requires LinkCallsInOrder(cs) && forall i :: 0 <= i < |cs| ==> cs[i].now <= c.now
    requires limiter.State() == After(LinkEvents(cs)) && limiter.loggedAt == LastLogged(cs)
    modifies limiter
    ensures limiter.State() == After(LinkEvents(cs + [c])) && limiter.loggedAt == LastLogged(cs + [c])
    ensures ok == ToldOfLinks(cs, c)
  {
    assert (cs + [c])[..|cs|] == cs;
    ghost var ts := LinkEvents(cs);
    LinkTallies(cs, if c.call.AskedFor? then c.call.link else "", c.now);
    match c.call
    case LinkAsked =>
      assert (ts + [Timed(c.now, CheckGlobal)])[..|ts|] == ts;
      ok := limiter.AllowGlobal(c.now);
    case AskedFor(link) =>
      assert (ts + [Timed(c.now, Count(link))])[..|ts|] == ts;
      ok := limiter.AllowToken(link, c.now);
    case RefusalSeen => ok := limiter.ShouldLog(c.now);
  }
}
