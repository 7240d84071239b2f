/** Who a cookie signs in as: internal/api/api.go and internal/api/account.go over the session table and the
    administrator list a panel process has loaded. */
module Panel {
  import opened Wrappers
  import opened Sessions
  import opened Admins
  import SessionRuns

  /** The first eight bytes of a digest of the password hash. */
  type Digest = Hash -> Fingerprint

  function HashOf(list: seq<Admin>, id: string): Option<Hash> {
    match IndexOfID(list, id)
    case None => None
    case Some(i) => Some(list[i].hash)
  }

  // ---- one request ----

  /** The administrator still exists and has the password the session was issued under. */
  predicate Current(list: seq<Admin>, r: Record, digest: Digest) {
    IndexOfID(list, r.adminId).Some? && digest(list[IndexOfID(list, r.adminId).value].hash) == r.fingerprint
  }

  /** authenticate's verdict; the name is the one the list holds now. */
  function AuthVerdict(list: seq<Admin>, m: Records, key: Key, now: int, digest: Digest): Verdict {
    match LookupVerdict(m, key, now)
    case Refused => Refused
    case Admitted(r, renewed) =>
      if Current(list, r, digest)
      then Admitted(r.(username := list[IndexOfID(list, r.adminId).value].username), renewed)
      else Refused
  }

  /** authenticate's effect: a session whose administrator is gone or changed password is dropped. */
  function AfterAuthenticate(list: seq<Admin>, m: Records, key: Key, now: int, digest: Digest): Records {
    match LookupVerdict(m, key, now)
    case Refused => AfterLookup(m, key, now)
    case Admitted(r, _) => if Current(list, r, digest) then AfterLookup(m, key, now)
      else AfterLookup(m, key, now) - {key}
  }

  // ---- a panel process over time ----

  /** The list and the sessions in memory, and what the last successful save of the sessions wrote. A request in flight
      may hold a copy of an administrator's record, taken while the list was locked. */
  datatype Panel = Panel(admins: seq<Admin>, sessions: Records, saved: Records, inHand: map<nat, Admin>)

  /** What a panel does at one moment, whatever other requests are in the middle of. Signing in is Verified, then Issued
      under the record copied; a password change is HashSaved, Dropped, Issued; a request is LookedUp, and Deleted if
      the list then disagrees. ListLoaded is any new content of the list: an edit from a shell, a rename, a restored
      file, a start. The victim is the session a full table drops to make room, whichever it is. A restart restores the
      sessions that are on disk, or none when those cannot be read. */
  datatype Event =
    | Verified(c: nat, adminId: string)
    | HashSaved(c: nat, adminId: string, hash: Hash, at: int)
    | Dropped(adminId: string)
    | Issued(c: nat, key: Key, victim: Key)
    | LookedUp(key: Key)
    | Deleted(key: Key)
    | ListLoaded(list: seq<Admin>)
    | Sweep
    | Restart(readable: bool)

  /** An event, and whether a save of the sessions that it asks for works: one that fails is logged and forgotten. */
  datatype Timed = Timed(now: int, event: Event, works: bool)

  /** The record as SetPasswordByID leaves it. */
  function Rehashed(a: Admin, hash: Hash, at: int): Admin {
    a.(hash := hash, updatedAt := at)
  }

  function SessionsAfter(p: Panel, t: Timed, digest: Digest): Records {
    match t.event
    case Dropped(id) => AfterDeleteAdmin(p.sessions, id)
    case Issued(c, key, victim) =>
      if c !in p.inHand then p.sessions
      else
        var a := p.inHand[c];
        AfterIssue(p.sessions, key, NewRecord(a.id, a.username, digest(a.hash), t.now), victim)
    case LookedUp(key) => AfterLookup(p.sessions, key, t.now)
    case Deleted(key) => p.sessions - {key}
    case Sweep => AfterSweep(p.sessions, t.now)
    case Restart(readable) => if readable then LiveStored(p.saved, t.now) else map[]
    case _ => p.sessions
  }

  /** The event saves the sessions: a change of them asks for that, and so does every issue. */
  predicate Saves(p: Panel, t: Timed, digest: Digest) {
    t.works && !t.event.Restart?
      && ((t.event.Issued? && t.event.c in p.inHand) || SessionsAfter(p, t, digest) != p.sessions)
  }

  /** The list, and the copies requests hold, after the event. */
  function RecordsAfter(p: Panel, e: Event): (seq<Admin>, map<nat, Admin>) {
    match e
    case Verified(c, id) =>
      if c in p.inHand || IndexOfID(p.admins, id).None? then (p.admins, p.inHand)
      else (p.admins, p.inHand[c := p.admins[IndexOfID(p.admins, id).value]])
    case HashSaved(c, id, hash, at) =>
      if c in p.inHand || IndexOfID(p.admins, id).None? then (p.admins, p.inHand)
      else
        var i := IndexOfID(p.admins, id).value;
        var a := Rehashed(p.admins[i], hash, at);
        (p.admins[i := a], p.inHand[c := a])
    case Issued(c, _, _) => (p.admins, p.inHand - {c})
    case ListLoaded(list) => (list, p.inHand)
    case Restart(_) => (p.admins, map[])
    case _ => (p.admins, p.inHand)
  }

  function Step(p: Panel, t: Timed, digest: Digest): Panel {
    var records, sessions := RecordsAfter(p, t.event), SessionsAfter(p, t, digest);
    Panel(records.0, sessions, if Saves(p, t, digest) then sessions else p.saved, records.1)
  }

  /** What an event asks of the session table, if anything. */
  function TableEvent(p: Panel, e: Event, digest: Digest): Option<SessionRuns.Event> {
    match e
    case Dropped(id) => Some(SessionRuns.DeleteAdmin(id))
    case Issued(c, key, _) =>
      if c !in p.inHand then None
      else Some(SessionRuns.Issue(key, p.inHand[c].id, p.inHand[c].username, digest(p.inHand[c].hash)))
    case LookedUp(key) => Some(SessionRuns.Lookup(key))
    case Deleted(key) => Some(SessionRuns.Delete(key))
    case Sweep => Some(SessionRuns.Sweep)
    case Restart(readable) => Some(SessionRuns.Restart(readable))
    case _ => None
  }

  /** The sessions of a panel, and what is saved of them. */
  function TableOf(p: Panel): SessionRuns.Mirrored {
    SessionRuns.Mirrored(p.sessions, p.saved)
  }

  /** Issuing a session is issuing it from the session table, whichever the victim. */
  lemma IssueIsTheTables(p: Panel, t: Timed, digest: Digest)
    requires t.event.Issued?
    ensures var p', e := Step(p, t, digest), TableEvent(p, t.event, digest);
            TableOf(p') == if e.None? then TableOf(p)
            else SessionRuns.Step(TableOf(p), SessionRuns.Timed(t.now, e.value, t.works), _ => t.event.victim)
  {
    if t.event.c in p.inHand {
      var a := p.inHand[t.event.c];
      var e := TableEvent(p, t.event, digest).value;
      assert SessionRuns.TableStep(TableOf(p), SessionRuns.Timed(t.now, e, t.works), _ => t.event.victim)
          == AfterIssue(p.sessions, t.event.key, NewRecord(a.id, a.username, digest(a.hash), t.now), t.event.victim);
    }
  }

  lemma SessionsAreTheTables(p: Panel, t: Timed, e: SessionRuns.Event, digest: Digest, pick: set<Key> -> Key)
    requires !t.event.Issued? && TableEvent(p, t.event, digest) == Some(e)
    ensures SessionsAfter(p, t, digest) == SessionRuns.TableStep(TableOf(p), SessionRuns.Timed(t.now, e, t.works), pick)
  {
  }

  /** And so is every other event, or it leaves the sessions alone. */
  lemma OthersAreTheTables(p: Panel, t: Timed, digest: Digest, pick: set<Key> -> Key)
    requires !t.event.Issued?
    ensures var p', e := Step(p, t, digest), TableEvent(p, t.event, digest);
            TableOf(p') == if e.None? then TableOf(p)
            else SessionRuns.Step(TableOf(p), SessionRuns.Timed(t.now, e.value, t.works), pick)
  {
    var e := TableEvent(p, t.event, digest);
    if e.Some? {
      SessionsAreTheTables(p, t, e.value, digest, pick);
    }
  }

  /** A request is let in exactly when its session is alive and the list holds its administrator with the hash it was
      issued under. It is told that administrator's name as listed now, and of the session what the table says. */
  lemma LetInAsListed(list: seq<Admin>, m: Records, key: Key, now: int, digest: Digest, i: nat)
    requires i < |list| && forall k :: 0 <= k < i ==> list[k].id != list[i].id
    requires key in m && m[key].adminId == list[i].id
    ensures var v, found := AuthVerdict(list, m, key, now, digest), LookupVerdict(m, key, now);
            && (v.Admitted? <==> found.Admitted? && digest(list[i].hash) == m[key].fingerprint)
            && (v.Admitted? ==> v.renewed == found.renewed && v.record == found.record.(username := list[i].username))
  {
    FirstIsFound(list, i);
  }

  lemma {:induction false} FirstIsFound(list: seq<Admin>, i: nat)
    requires i < |list| && forall k :: 0 <= k < i ==> list[k].id != list[i].id
    ensures IndexOfID(list, list[i].id) == Some(i)
  {
    if i > 0 {
      FirstIsFound(list[1..], i - 1);
    }
  }

  /** And nobody who is not in the list is let in. */
  lemma NobodyUnlistedIsLetIn(list: seq<Admin>, m: Records, key: Key, now: int, digest: Digest)
    requires key in m && forall a :: a in list ==> a.id != m[key].adminId
    ensures AuthVerdict(list, m, key, now, digest).Refused?
  {
  }

  // ---- runs ----

  const NEW := Panel([], map[], map[], map[])

  /** A run of a panel from a new installation on: its events, and the states before, between and after them. */
  datatype Run = Run(digest: Digest, events: seq<Timed>, states: seq<Panel>)

  ghost predicate Follows(h: Run, n: int) {
    0 <= n < |h.events| < |h.states| ==> h.states[n + 1] == Step(h.states[n], h.events[n], h.digest)
  }

  ghost predicate IsRun(h: Run) {
    |h.states| == |h.events| + 1 && h.states[0] == NEW && forall n {:trigger Follows(h, n)} :: Follows(h, n)
  }

  /** The states that events lead through. */
  function Trace(digest: Digest, events: seq<Timed>): (states: seq<Panel>)
    ensures |states| == |events| + 1
  {
    if events == [] then [NEW]
    else
      var m := |events| - 1;
      var before := Trace(digest, events[..m]);
      before + [Step(before[m], events[m], digest)]
  }

  lemma LongerRun(h: Run, t: Timed, p: Panel)
    requires IsRun(h) && p == Step(h.states[|h.events|], t, h.digest)
    ensures IsRun(Run(h.digest, h.events + [t], h.states + [p]))
  {
    var longer := Run(h.digest, h.events + [t], h.states + [p]);
    forall n
      ensures Follows(longer, n)
    {
      assert Follows(h, n);
    }
  }

  lemma {:induction false} TraceIsARun(digest: Digest, events: seq<Timed>)
    ensures IsRun(Run(digest, events, Trace(digest, events)))
  {
    if events != [] {
      var m := |events| - 1;
      var states := Trace(digest, events[..m]);
      TraceIsARun(digest, events[..m]);
      LongerRun(Run(digest, events[..m], states), events[m], Step(states[m], events[m], digest));
      assert events == events[..m] + [events[m]];
    }
  }

  lemma RunsAgree(g: Run, h: Run, n: nat)
    requires IsRun(g) && IsRun(h) && g.digest == h.digest && g.events == h.events && n < |h.states|
    ensures g.states[n] == h.states[n]
  {
    if n > 0 {
      RunsAgree(g, h, n - 1);
      assert Follows(g, n - 1) && Follows(h, n - 1);
    }
  }

  /** Every sequence of events makes exactly one run. */
  lemma RunsAreTraces(h: Run)
    ensures IsRun(h) <==> h.states == Trace(h.digest, h.events)
  {
    var g := Run(h.digest, h.events, Trace(h.digest, h.events));
    TraceIsARun(h.digest, h.events);
    if IsRun(h) {
      forall n | 0 <= n < |h.states|
        ensures g.states[n] == h.states[n]
      {
        RunsAgree(g, h, n);
      }
    }
  }

  /** The event n of a run, at the state it meets. */
  predicate Happens(h: Run, n: nat) {
    n < |h.events| < |h.states|
  }

  /** The hash the loaded list held for an administrator before event n. */
  function HashAt(h: Run, n: nat, id: string): Option<Hash>
    requires n < |h.states|
  {
    HashOf(h.states[n].admins, id)
  }

  // ---- where a copy comes from ----

  /** The event copies this administrator's record for request c: its password was right, or has just been set. */
  predicate Takes(p: Panel, e: Event, c: nat, id: string) {
    (e.Verified? || e.HashSaved?) && e.c == c && e.adminId == id && c !in p.inHand && IndexOfID(p.admins, id).Some?
  }

  predicate TakesAt(h: Run, j: nat, c: nat, id: string) {
    Happens(h, j) && Takes(h.states[j], h.events[j].event, c, id)
  }

  /** The event hands this key to this administrator. */
  predicate Gives(p: Panel, e: Event, key: Key, id: string) {
    e.Issued? && e.key == key && e.c in p.inHand && p.inHand[e.c].id == id
  }

  predicate GivesAt(h: Run, i: nat, key: Key, id: string) {
    Happens(h, i) && Gives(h.states[i], h.events[i].event, key, id)
  }

  /** The record that event i issues a session under. */
  function GivenUnder(h: Run, i: nat): Admin
    requires Happens(h, i) && h.events[i].event.Issued? && h.events[i].event.c in h.states[i].inHand
  {
    h.states[i].inHand[h.events[i].event.c]
  }

  predicate InHand(p: Panel, c: nat, a: Admin) {
    c in p.inHand && p.inHand[c] == a
  }

  /** From event j to event n, request c holds this record. */
  ghost predicate Holds(h: Run, c: nat, a: Admin, j: nat, n: nat) {
    forall l :: j < l <= n && l < |h.states| ==> InHand(h.states[l], c, a)
  }

  /** Event j copied this record for request c from the list as loaded then, and c holds it ever since, up to event n.
      */
  ghost predicate CopiedAt(h: Run, c: nat, a: Admin, j: nat, n: nat) {
    j < n < |h.states| && TakesAt(h, j, c, a.id) && HashAt(h, j + 1, a.id) == Some(a.hash) && Holds(h, c, a, j, n)
  }

  lemma {:induction false} FirstStaysFirst(list: seq<Admin>, id: string, a: Admin)
    requires IndexOfID(list, id).Some? && a.id == id
    ensures IndexOfID(list[IndexOfID(list, id).value := a], id) == IndexOfID(list, id)
  {
    var i := IndexOfID(list, id).value;
    var updated := list[i := a];
    if list[0].id != id {
      assert updated[1..] == list[1..][i - 1 := a];
      FirstStaysFirst(list[1..], id, a);
    }
  }

  /** Taking a copy: it is the record the list then holds. */
  lemma CopyIsTheLoadedRecord(p: Panel, t: Timed, digest: Digest, c: nat, id: string)
    requires Takes(p, t.event, c, id)
    ensures var p' := Step(p, t, digest);
            && c in p'.inHand && p'.inHand[c].id == id && HashOf(p'.admins, id) == Some(p'.inHand[c].hash)
            && (t.event.HashSaved? ==> p'.inHand[c].hash == t.event.hash)
  {
    if t.event.HashSaved? {
      var i := IndexOfID(p.admins, id).value;
      FirstStaysFirst(p.admins, id, Rehashed(p.admins[i], t.event.hash, t.event.at));
    }
  }

  lemma CopyWasTakenOrHeld(p: Panel, t: Timed, digest: Digest, c: nat)
    requires c in Step(p, t, digest).inHand
    ensures var a := Step(p, t, digest).inHand[c]; InHand(p, c, a) || Takes(p, t.event, c, a.id)
  {
  }

  /** Every copy in hand was taken by one event, from the list as loaded then, and has been in hand ever since. */
  lemma {:induction false} CopyWasTaken(h: Run, c: nat, n: nat) returns (j: nat)
    requires IsRun(h) && n < |h.states| && c in h.states[n].inHand
    ensures CopiedAt(h, c, h.states[n].inHand[c], j, n)
    decreases n
  {
    assert n > 0;
    var m: nat, a := n - 1, h.states[n].inHand[c];
    var p := h.states[m];
    assert Follows(h, m);
    CopyWasTakenOrHeld(p, h.events[m], h.digest, c);
    if InHand(p, c, a) {
      j := CopyWasTaken(h, c, m);
    } else {
      j := m;
      CopyIsTheLoadedRecord(p, h.events[m], h.digest, c, a.id);
    }
  }

  /** A copy does not outlive the process: there was no restart since it was taken. */
  lemma NoRestartWhileInHand(h: Run, c: nat, a: Admin, j: nat, n: nat, q: nat)
    requires IsRun(h) && CopiedAt(h, c, a, j, n) && j < q < n
    ensures !h.events[q].event.Restart?
  {
    assert Follows(h, q);
    assert InHand(h.states[q + 1], c, a);
  }

  // ---- revocations and restarts ----

  /** The event takes this administrator's session away. */
  predicate Revokes(e: Event, key: Key, id: string) {
    e == Deleted(key) || e == Dropped(id)
  }

  /** Event q saved the sessions. */
  predicate SavesAt(h: Run, q: nat) {
    Happens(h, q) && Saves(h.states[q], h.events[q], h.digest)
  }

  /** No event from l on and before r saved the sessions. */
  ghost predicate NothingSaved(h: Run, l: nat, r: nat) {
    forall q :: l <= q < r ==> !SavesAt(h, q)
  }

  /** Event r restores what event l had taken out of memory but, like everything after it, could not save. */
  ghost predicate Undoes(h: Run, l: nat, r: nat) {
    l < r < |h.events| && h.events[r].event == Restart(true) && NothingSaved(h, l, r)
  }

  /** A restart before event n has undone event l. */
  ghost predicate Undone(h: Run, l: nat, n: nat) {
    exists r :: l < r < n && Undoes(h, l, r)
  }

  // ---- where a session comes from ----

  /** Event i issued the key to this administrator under a record that event j copied. */
  ghost predicate IssuedFrom(h: Run, key: Key, r: Record, j: nat, i: nat) {
    && j < i && GivesAt(h, i, key, r.adminId) && TakesAt(h, j, h.events[i].event.c, r.adminId)
    && r.fingerprint == h.digest(GivenUnder(h, i).hash)
    && HashAt(h, j + 1, r.adminId) == Some(GivenUnder(h, i).hash)
  }

  /** Every revocation after event i has been undone before event n. */
  ghost predicate RevocationsUndone(h: Run, key: Key, id: string, i: nat, n: nat) {
    forall l :: i < l < n && l < |h.events| && Revokes(h.events[l].event, key, id) ==> Undone(h, l, n)
  }

  /** Every revocation after event i has been undone before event n, or has not been saved so far. */
  ghost predicate RevocationsUnsaved(h: Run, key: Key, id: string, i: nat, n: nat) {
    forall l :: i < l < n && l < |h.events| && Revokes(h.events[l].event, key, id)
      ==> Undone(h, l, n) || NothingSaved(h, l, n)
  }

  /** A session in memory goes back to this copy and this issue, and to no revocation since that stands. */
  ghost predicate Origin(h: Run, key: Key, r: Record, j: nat, i: nat, n: nat) {
    i < n && IssuedFrom(h, key, r, j, i) && RevocationsUndone(h, key, r.adminId, i, n)
  }

  /** The same for a session on disk, but that revocations may not have been saved yet. */
  ghost predicate SavedOrigin(h: Run, key: Key, r: Record, j: nat, i: nat, n: nat) {
    i < n && IssuedFrom(h, key, r, j, i) && RevocationsUnsaved(h, key, r.adminId, i, n)
  }

  predicate SameSession(r: Record, q: Record) {
    r.adminId == q.adminId && r.fingerprint == q.fingerprint
  }

  lemma SurvivorKeepsIdentity(p: Panel, t: Timed, digest: Digest, key: Key)
    requires key in SessionsAfter(p, t, digest) && !t.event.Restart?
    requires !(t.event.Issued? && t.event.key == key && t.event.c in p.inHand)
    ensures key in p.sessions && !Revokes(t.event, key, p.sessions[key].adminId)
    ensures SameSession(SessionsAfter(p, t, digest)[key], p.sessions[key])
  {
  }

  lemma RestoredKeepsIdentity(p: Panel, t: Timed, digest: Digest, key: Key)
    requires t.event.Restart? && key in SessionsAfter(p, t, digest)
    ensures t.event == Restart(true) && key in p.saved && SameSession(SessionsAfter(p, t, digest)[key], p.saved[key])
  {
  }

  lemma IssuedUnder(p: Panel, t: Timed, digest: Digest)
    requires t.event.Issued? && t.event.c in p.inHand
    ensures var m, a := SessionsAfter(p, t, digest), p.inHand[t.event.c];
            t.event.key in m && m[t.event.key].adminId == a.id && m[t.event.key].fingerprint == digest(a.hash)
  {
  }

  lemma UndoneLater(h: Run, l: nat, n: nat)
    requires Undone(h, l, n)
    ensures Undone(h, l, n + 1)
  {
    var r :| l < r < n && Undoes(h, l, r);
    assert l < r < n + 1 && Undoes(h, l, r);
  }

  /** What event m makes of the sessions, in memory and on disk. */
  lemma SessionsAt(h: Run, m: nat)
    requires IsRun(h) && Happens(h, m)
    ensures h.states[m + 1].sessions == SessionsAfter(h.states[m], h.events[m], h.digest)
    ensures h.states[m + 1].saved == if SavesAt(h, m) then h.states[m + 1].sessions else h.states[m].saved
  {
    assert Follows(h, m);
  }

  lemma OriginOfIssued(h: Run, m: nat) returns (j: nat)
    requires IsRun(h) && Happens(h, m) && h.events[m].event.Issued? && h.events[m].event.c in h.states[m].inHand
    ensures var key := h.events[m].event.key;
            key in h.states[m + 1].sessions && Origin(h, key, h.states[m + 1].sessions[key], j, m, m + 1)
  {
    assert Follows(h, m);
    IssuedUnder(h.states[m], h.events[m], h.digest);
    j := CopyWasTaken(h, h.events[m].event.c, m);
  }

  lemma OriginOfSurvivor(h: Run, key: Key, r: Record, q: Record, j: nat, i: nat, m: nat)
    requires Happens(h, m) && Origin(h, key, q, j, i, m) && SameSession(r, q)
    requires !Revokes(h.events[m].event, key, q.adminId)
    ensures Origin(h, key, r, j, i, m + 1)
  {
    forall l | i < l < m + 1 && Revokes(h.events[l].event, key, r.adminId)
      ensures Undone(h, l, m + 1)
    {
      UndoneLater(h, l, m);
    }
  }

  lemma OriginOfRestored(h: Run, key: Key, r: Record, q: Record, j: nat, i: nat, m: nat)
    requires Happens(h, m) && SavedOrigin(h, key, q, j, i, m) && SameSession(r, q)
    requires h.events[m].event == Restart(true)
    ensures Origin(h, key, r, j, i, m + 1)
  {
    forall l | i < l < m + 1 && Revokes(h.events[l].event, key, r.adminId)
      ensures Undone(h, l, m + 1)
    {
      if Undone(h, l, m) {
        UndoneLater(h, l, m);
      } else {
        assert Undoes(h, l, m);
      }
    }
  }

  lemma OriginOfUnsaved(h: Run, key: Key, r: Record, j: nat, i: nat, m: nat)
    requires Happens(h, m) && SavedOrigin(h, key, r, j, i, m) && !SavesAt(h, m)
    ensures SavedOrigin(h, key, r, j, i, m + 1)
  {
    forall l | i < l < m + 1 && Revokes(h.events[l].event, key, r.adminId)
      ensures Undone(h, l, m + 1) || NothingSaved(h, l, m + 1)
    {
      if l < m && Undone(h, l, m) {
        UndoneLater(h, l, m);
      }
    }
  }

  /** Every session in memory was issued to that administrator under a copied record, and every revocation since has
      been undone by a restart, however sign-ins, password changes and everything else interleave. */
  lemma {:induction false} SessionWasIssued(h: Run, key: Key, n: nat) returns (j: nat, i: nat)
    requires IsRun(h) && n < |h.states| && key in h.states[n].sessions
    ensures Origin(h, key, h.states[n].sessions[key], j, i, n)
    decreases n, 0
  {
    assert n > 0;
    var m: nat := n - 1;
    var p, t, r := h.states[m], h.events[m], h.states[n].sessions[key];
    SessionsAt(h, m);
    if t.event.Issued? && t.event.key == key && t.event.c in p.inHand {
      i := m;
      j := OriginOfIssued(h, m);
    } else if t.event.Restart? {
      RestoredKeepsIdentity(p, t, h.digest, key);
      j, i := SavedWasIssued(h, key, m);
      OriginOfRestored(h, key, r, p.saved[key], j, i, m);
    } else {
      SurvivorKeepsIdentity(p, t, h.digest, key);
      j, i := SessionWasIssued(h, key, m);
      OriginOfSurvivor(h, key, r, p.sessions[key], j, i, m);
    }
  }

  /** And every session on disk, but that revocations may not have been saved yet. */
  lemma {:induction false} SavedWasIssued(h: Run, key: Key, n: nat) returns (j: nat, i: nat)
    requires IsRun(h) && n < |h.states| && key in h.states[n].saved
    ensures SavedOrigin(h, key, h.states[n].saved[key], j, i, n)
    decreases n, 1
  {
    assert n > 0;
    var m: nat := n - 1;
    SessionsAt(h, m);
    if SavesAt(h, m) {
      j, i := SessionWasIssued(h, key, n);
    } else {
      j, i := SavedWasIssued(h, key, m);
      OriginOfUnsaved(h, key, h.states[n].saved[key], j, i, m);
    }
  }

  // ---- undisturbed requests ----

  /** Undisturbed, signing in is a copy and an issue. */
  lemma SignInSteps(p: Panel, id: string, c: nat, key: Key, victim: Key, now: int, works: bool, digest: Digest)
    requires c !in p.inHand && IndexOfID(p.admins, id).Some?
    ensures var a := p.admins[IndexOfID(p.admins, id).value];
            var after := AfterIssue(p.sessions, key, NewRecord(a.id, a.username, digest(a.hash), now), victim);
            Step(Step(p, Timed(now, Verified(c, id), works), digest), Timed(now, Issued(c, key, victim), works), digest)
            == p.(sessions := after, saved := if works then after else p.saved)
  {
    var a := p.admins[IndexOfID(p.admins, id).value];
    assert p.inHand[c := a] - {c} == p.inHand;
  }

  /** A password change: a save of the list, a drop and an issue. */
  function PasswordChanged(
    p: Panel, id: string, hash: Hash, at: int, c: nat, key: Key, victim: Key, now: int, drops: bool, issues: bool,
    digest: Digest): Panel
  {
    var changed := Step(p, Timed(now, HashSaved(c, id, hash, at), true), digest);
    var dropped := Step(changed, Timed(now, Dropped(id), drops), digest);
    Step(dropped, Timed(now, Issued(c, key, victim), issues), digest)
  }

  lemma PasswordChangeSteps(
    p: Panel, id: string, hash: Hash, at: int, c: nat, key: Key, victim: Key, now: int, drops: bool, issues: bool,
    digest: Digest)
    requires c !in p.inHand && IndexOfID(p.admins, id).Some?
    ensures var last := PasswordChanged(p, id, hash, at, c, key, victim, now, drops, issues, digest);
            var i := IndexOfID(p.admins, id).value;
            var a := Rehashed(p.admins[i], hash, at);
            var rec := NewRecord(a.id, a.username, digest(a.hash), now);
            && last.admins == p.admins[i := a] && last.inHand == p.inHand
            && last.sessions == AfterIssue(AfterDeleteAdmin(p.sessions, id), key, rec, victim)
            && (issues ==> last.saved == last.sessions) && (!drops && !issues ==> last.saved == p.saved)
  {
    var a := Rehashed(p.admins[IndexOfID(p.admins, id).value], hash, at);
    assert p.inHand[c := a] - {c} == p.inHand;
  }

  /** A request is a lookup, and a deletion when the list disagrees with the session found. */
  lemma RequestSteps(p: Panel, key: Key, now: int, slides: bool, deletes: bool, digest: Digest)
    ensures var looked, v := Step(p, Timed(now, LookedUp(key), slides), digest), LookupVerdict(p.sessions, key, now);
            var after := if v.Admitted? && !Current(p.admins, v.record, digest)
                         then Step(looked, Timed(now, Deleted(key), deletes), digest) else looked;
            && after.admins == p.admins && after.inHand == p.inHand
            && after.sessions == AfterAuthenticate(p.admins, p.sessions, key, now, digest)
            && (slides && deletes && after.sessions != p.sessions ==> after.saved == after.sessions)
            && (after.sessions == p.sessions || (!slides && !deletes) ==> after.saved == p.saved)
  {
  }
}
