/** Pending WebAuthn ceremonies: internal/api/challenges.go. Instants are nanoseconds. */
module Challenges {
  import opened Lists
  import opened Wrappers

  const CHALLENGE_TTL := 180_000_000_000
  const MAX_CHALLENGES: nat := 512

  /** What the ceremony library wants back; the table only stores it. */
  type SessionData = string

  datatype Pending = Pending(session: SessionData, adminId: string, handle: string, expiresAt: int)

  type Ceremonies = map<string, Pending>

  function Reaped(m: Ceremonies, now: int): Ceremonies {
    map k | k in m && now < m[k].expiresAt :: m[k]
  }

  /** The states that expire first; a full table drops one of them. */
  function FirstToExpire(m: Ceremonies): set<string> {
    set k | k in m && forall j :: j in m ==> m[k].expiresAt <= m[j].expiresAt
  }

  function AfterIssue(m: Ceremonies, state: string, p: Pending, now: int, victim: string): Ceremonies {
    var kept := Reaped(m, now);
    if |kept| >= MAX_CHALLENGES then (kept - {victim})[state := p] else kept[state := p]
  }

  function Taken(m: Ceremonies, state: string, adminId: string, now: int): Option<Pending> {
    if state != "" && state in m && now < m[state].expiresAt && m[state].adminId == adminId then Some(m[state])
      else None
  }

  function AfterTake(m: Ceremonies, state: string): Ceremonies {
    if state == "" then m else m - {state}
  }

  class ChallengeStore {
    var m: Ceremonies

    constructor ()
      ensures m == map[]
    {
      m := map[];
    }

    method ReapExpired(now: int)
      modifies this
      ensures m == Reaped(old(m), now)
    {
      var rest := m.Keys;
      while rest != {}
        invariant rest <= m.Keys <= old(m).Keys
        invariant m == map k | k in old(m) && (k in rest || now < old(m)[k].expiresAt) :: old(m)[k]
        decreases rest
      {
        var k :| k in rest;
        rest := rest - {k};
        if !(now < m[k].expiresAt) {
          m := m - {k};
        }
      }
    }

    method EvictOldest() returns (victim: string)
      requires m != map[]
      modifies this
      ensures victim in FirstToExpire(old(m)) && m == old(m) - {victim}
    {
      var rest := m.Keys;
      victim :| victim in rest;
      rest := rest - {victim};
      while rest != {}
        invariant rest <= m.Keys && victim in m
        invariant forall k :: k in m && k !in rest ==> m[victim].expiresAt <= m[k].expiresAt
        decreases rest
      {
        var k :| k in rest;
        rest := rest - {k};
        if m[k].expiresAt < m[victim].expiresAt {
          victim := k;
        }
      }
      m := m - {victim};
    }

    /** Stores a ceremony under a random state. No entropy, no ceremony. */
    method Issue(session: SessionData, adminId: string, handle: string, now: int, entropy: Option<string>)
      returns (state: Option<string>, ghost victim: string)
      modifies this
      ensures state == entropy
      ensures entropy.None? ==> m == old(m)
      ensures entropy.Some? && |Reaped(old(m), now)| >= MAX_CHALLENGES ==> victim in FirstToExpire(Reaped(old(m), now))
      ensures entropy.Some? ==>
                m == AfterIssue(
                       old(m), entropy.value, Pending(session, adminId, handle, now + CHALLENGE_TTL), now, victim)
    {
      state, victim := entropy, "";
      if entropy.None? {
        return;
      }
      ReapExpired(now);
      if |m| >= MAX_CHALLENGES {
        victim := EvictOldest();
      }
      m := m[entropy.value := Pending(session, adminId, handle, now + CHALLENGE_TTL)];
    }

    /** Consumes a ceremony, whatever comes of it. */
    method Take(state: string, adminId: string, now: int) returns (r: Option<Pending>)
      modifies this
      ensures r == Taken(old(m), state, adminId, now)
      ensures m == AfterTake(old(m), state)
    {
      if state == "" || state !in m {
        return None;
      }
      var p := m[state];
      m := m - {state};
      if !(now < p.expiresAt) || p.adminId != adminId {
        return None;
      }
      return Some(p);
    }
  }

  // ---- whole runs ----

  datatype Event =
    | Issued(state: string, session: SessionData, adminId: string, handle: string, victim: string)
    | TakeAsked(state: string, adminId: string)

  datatype Timed = Timed(now: int, event: Event)

  function Made(t: Timed): Pending
    requires t.event.Issued?
  {
    Pending(t.event.session, t.event.adminId, t.event.handle, t.now + CHALLENGE_TTL)
  }

  function Step(m: Ceremonies, t: Timed): Ceremonies {
    match t.event
    case Issued(state, _, _, _, victim) => AfterIssue(m, state, Made(t), t.now, victim)
    case TakeAsked(state, _) => AfterTake(m, state)
  }

  function After(ts: seq<Timed>): Ceremonies {
    if ts == [] then map[] else Step(After(ts[..|ts| - 1]), ts[|ts| - 1])
  }

  /** Every eviction of the run dropped a ceremony among the first to expire. */
  ghost predicate EvictsFirstToExpire(ts: seq<Timed>) {
    forall i :: 0 <= i < |ts| && ts[i].event.Issued? ==>
      var kept := Reaped(After(ts[..i]), ts[i].now);
      |kept| >= MAX_CHALLENGES ==> ts[i].event.victim in FirstToExpire(kept)
  }

  lemma StepStaysBounded(m: Ceremonies, t: Timed)
    requires |m| <= MAX_CHALLENGES
    requires t.event.Issued? && |Reaped(m, t.now)| >= MAX_CHALLENGES ==>
             t.event.victim in FirstToExpire(Reaped(m, t.now))
    ensures |Step(m, t)| <= MAX_CHALLENGES
  {
    if t.event.Issued? {
      var kept := Reaped(m, t.now);
      SubmapIsNoLarger(kept, m);
      if |kept| >= MAX_CHALLENGES {
        assert (kept - {t.event.victim}).Keys == kept.Keys - {t.event.victim};
        assert Step(m, t).Keys == (kept.Keys - {t.event.victim}) + {t.event.state};
      } else {
        assert Step(m, t).Keys == kept.Keys + {t.event.state};
      }
    } else {
      SubmapIsNoLarger(Step(m, t), m);
    }
  }

  /** Over any run the table never exceeds its cap. */
  lemma {:induction false} TableStaysBounded(ts: seq<Timed>)
    requires EvictsFirstToExpire(ts)
    ensures |After(ts)| <= 512
  {
    if ts != [] {
      var init := ts[..|ts| - 1];
      assert forall i :: 0 <= i < |init| ==> ts[..i] == init[..i] && ts[i] == init[i];
      TableStaysBounded(init);
      StepStaysBounded(After(init), ts[|ts| - 1]);
    }
  }

  predicate Mentions(e: Event, state: string) {
    e.state == state
  }

  /** A pending ceremony was put there by one issue, and nothing has touched its state since. */
  lemma {:induction false} PendingWasIssued(ts: seq<Timed>, state: string) returns (i: nat)
    requires state in After(ts)
    ensures i < |ts| && ts[i].event.Issued? && ts[i].event.state == state && After(ts)[state] == Made(ts[i])
    ensures forall j :: i < j < |ts| ==> !Mentions(ts[j].event, state) || state == ""
  {
    var init, last := ts[..|ts| - 1], ts[|ts| - 1];
    if last.event.Issued? && last.event.state == state {
      i := |ts| - 1;
    } else {
      StepKeepsPending(After(init), last, state);
      i := PendingWasIssued(init, state);
      forall j | i < j < |ts|
        ensures !Mentions(ts[j].event, state) || state == ""
      {
        assert j < |init| ==> ts[j] == init[j];
      }
    }
  }

  /** A ceremony that a step did not issue was pending before it, and the step did not ask for it. */
  lemma StepKeepsPending(m: Ceremonies, t: Timed, state: string)
    requires state in Step(m, t) && !(t.event.Issued? && t.event.state == state)
    ensures state in m && m[state] == Step(m, t)[state]
    ensures !Mentions(t.event, state) || state == ""
  {
    if t.event.Issued? {
      assert state in Reaped(m, t.now);
    }
  }

  /** A successful take returns what the latest issue of that state stored, for the same administrator, strictly
      inside the time limit, and no take has consumed it in between. */
  lemma SuccessfulTake(ts: seq<Timed>, state: string, adminId: string, now: int) returns (i: nat)
    requires Taken(After(ts), state, adminId, now).Some?
    ensures i < |ts| && ts[i].event.Issued? && ts[i].event.state == state
    ensures ts[i].event.adminId == adminId && now < ts[i].now + CHALLENGE_TTL
    ensures Taken(After(ts), state, adminId, now) == Some(Made(ts[i]))
    ensures forall j :: i < j < |ts| ==> !Mentions(ts[j].event, state)
  {
    i := PendingWasIssued(ts, state);
  }

  predicate InOrder(ts: seq<Timed>) {
    forall i, j :: 0 <= i < j < |ts| ==> ts[i].now <= ts[j].now
  }

  predicate By(ts: seq<Timed>, now: int) {
    forall i :: 0 <= i < |ts| ==> ts[i].now <= now
  }

  /** This issue finds 512 unexpired ceremonies and drops this one. */
  ghost predicate Drops(ts: seq<Timed>, j: nat, state: string)
    requires j < |ts|
  {
    && ts[j].event.Issued? && ts[j].event.victim == state
    && |Reaped(After(ts[..j]), ts[j].now)| >= 512
  }

  /** Nobody has asked for the state, issued it anew or dropped it since the i-th event. */
  ghost predicate LeftAlone(ts: seq<Timed>, i: nat, state: string) {
    forall j :: i < j < |ts| ==> !Mentions(ts[j].event, state) && !Drops(ts, j, state)
  }

  lemma LeftAloneBefore(ts: seq<Timed>, i: nat, state: string)
    requires ts != [] && LeftAlone(ts, i, state) && InOrder(ts)
    ensures var init := ts[..|ts| - 1]; LeftAlone(init, i, state) && InOrder(init) && By(init, ts[|ts| - 1].now)
  {
    var init := ts[..|ts| - 1];
    forall j | i < j < |init|
      ensures !Mentions(init[j].event, state) && !Drops(init, j, state)
    {
      assert init[j] == ts[j] && init[..j] == ts[..j];
    }
  }

  /** The ceremony is pending as it was issued, unless it has expired. */
  ghost predicate PendingUntil(m: Ceremonies, state: string, p: Pending, now: int) {
    (state in m ==> m[state] == p) && (now < p.expiresAt ==> state in m)
  }

  lemma StepLeavesPending(m: Ceremonies, t: Timed, state: string, p: Pending)
    requires PendingUntil(m, state, p, t.now) && !Mentions(t.event, state)
    requires t.event.Issued? && |Reaped(m, t.now)| >= 512 ==> t.event.victim != state
    ensures PendingUntil(Step(m, t), state, p, t.now)
  {
    if t.event.Issued? {
      assert state in Reaped(m, t.now) <==> state in m && t.now < m[state].expiresAt;
    }
  }

  lemma AfterOneMore(ts: seq<Timed>)
    requires ts != []
    ensures After(ts) == Step(After(ts[..|ts| - 1]), ts[|ts| - 1])
  {
  }

  lemma JustIssued(m: Ceremonies, t: Timed)
    requires t.event.Issued?
    ensures t.event.state in Step(m, t) && Step(m, t)[t.event.state] == Made(t)
  {
  }

  lemma PendingLater(m: Ceremonies, state: string, p: Pending, now: int, later: int)
    requires PendingUntil(m, state, p, now) && now <= later
    ensures PendingUntil(m, state, p, later)
  {
  }

  lemma {:induction false} IssuedStaysPending(ts: seq<Timed>, i: nat, now: int)
    requires i < |ts| && ts[i].event.Issued? && InOrder(ts) && By(ts, now) && LeftAlone(ts, i, ts[i].event.state)
    ensures PendingUntil(After(ts), ts[i].event.state, Made(ts[i]), now)
  {
    var n, state := |ts| - 1, ts[i].event.state;
    AfterOneMore(ts);
    if i < n {
      LeftAloneBefore(ts, i, state);
      IssuedStaysPending(ts[..n], i, ts[n].now);
      assert !Mentions(ts[n].event, state) && !Drops(ts, n, state);
      StepLeavesPending(After(ts[..n]), ts[n], state, Made(ts[i]));
      PendingLater(After(ts), state, Made(ts[i]), ts[n].now, now);
    } else {
      JustIssued(After(ts[..n]), ts[n]);
    }
  }

  /** A ceremony that was left alone is finished by its administrator within three minutes, and by nobody else and not
      later. */
  lemma FinishedInTimeExactlyWhen(ts: seq<Timed>, i: nat, adminId: string, now: int)
    requires i < |ts| && ts[i].event.Issued? && InOrder(ts) && By(ts, now) && LeftAlone(ts, i, ts[i].event.state)
    requires ts[i].event.state != ""
    ensures Taken(After(ts), ts[i].event.state, adminId, now)
            == if adminId == ts[i].event.adminId && now < ts[i].now + 180_000_000_000 then Some(Made(ts[i])) else None
    ensures var p := Made(ts[i]);
            p.session == ts[i].event.session && p.adminId == ts[i].event.adminId && p.handle == ts[i].event.handle
  {
    IssuedStaysPending(ts, i, now);
  }

  /** Right after an issue nothing that has expired is pending. */
  lemma NothingExpiredAfterIssue(ts: seq<Timed>, state: string)
    requires ts != [] && ts[|ts| - 1].event.Issued? && state in After(ts)
    ensures ts[|ts| - 1].now < After(ts)[state].expiresAt
  {
  }

  /** Single use: once any take has asked for a state, every later take of it fails until it is issued again. */
  lemma StatesAreSingleUse(ts: seq<Timed>, k: nat, state: string, adminId: string, now: int)
    requires k < |ts| && ts[k].event.TakeAsked? && ts[k].event.state == state
    requires forall j :: k < j < |ts| ==> !(ts[j].event.Issued? && ts[j].event.state == state)
    ensures Taken(After(ts), state, adminId, now).None?
  {
    if Taken(After(ts), state, adminId, now).Some? {
      var i := SuccessfulTake(ts, state, adminId, now);
      assert Mentions(ts[k].event, state);
    }
  }

  /** An unexpired ceremony is displaced only when 511 others, expiring no sooner, are pending. */
  lemma UnexpiredIsEvictedOnlyWhenFull(m: Ceremonies, state: string, p: Pending, now: int, victim: string, k: string)
    requires |Reaped(m, now)| >= MAX_CHALLENGES ==> victim in FirstToExpire(Reaped(m, now))
    requires k in m && now < m[k].expiresAt && k !in AfterIssue(m, state, p, now, victim)
    ensures |set j | j in m && j != k && m[j].expiresAt >= m[k].expiresAt| >= MAX_CHALLENGES - 1
  {
    var kept := Reaped(m, now);
    var others := set j | j in m && j != k && m[j].expiresAt >= m[k].expiresAt;
    assert k in kept;
    assert k == victim;
    assert kept.Keys - {k} <= others;
    assert others == (kept.Keys - {k}) + (others - (kept.Keys - {k}));
  }
}
