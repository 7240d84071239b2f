/** What the session table knows of one cookie, told from its history in days and hours and without the table:
    internal/session/session.go. */
module SessionHistory {
  import opened Wrappers
  import opened Lists
  import opened Hex
  import opened Sessions
  import opened SessionRuns

  // ---- one session's history ----

  /** What was issued, and when it was last seen. */
  datatype Known = Known(adminId: string, username: string, fingerprint: Fingerprint, issuedAt: int, seenAt: int)

  /** A session lives ten days from when it was last seen. */
  predicate Alive(x: Option<Known>, now: int) {
    x.Some? && now - x.value.seenAt < 10 * 24 * 3_600_000_000_000
  }

  /** Being seen counts at most once an hour. */
  predicate SeenAnew(x: Known, now: int) {
    now - x.seenAt >= 3_600_000_000_000
  }

  function Seen(x: Known, now: int): Known {
    if SeenAnew(x, now) then x.(seenAt := now) else x
  }

  function RecordOf(x: Known): Record {
    Record(x.adminId, x.username, x.fingerprint, x.issuedAt, x.seenAt, x.seenAt + 10 * 24 * 3_600_000_000_000)
  }

  /** The answer to a request with the cookie. */
  function Answer(x: Option<Known>, now: int): Verdict {
    if Alive(x, now) then Admitted(RecordOf(Seen(x.value, now)), SeenAnew(x.value, now)) else Refused
  }

  /** A full table, of 4096 sessions, drops this one for a new one. */
  predicate Displaced(s: Mirrored, t: Timed, key: Key, pick: set<Key> -> Key) {
    t.event.Issue? && t.event.key != key && |s.table| >= 4096 && pick(OldestKeys(s.table)) == key
  }

  /** What an event makes of a session in memory; `stored` is what is on disk of it. */
  function Then(x: Option<Known>, stored: Option<Known>, t: Timed, key: Key, displaced: bool): Option<Known> {
    if displaced then None
    else
      match t.event
      case Issue(k, adminId, username, fp) =>
        if k == key then Some(Known(adminId, username, fp, t.now, t.now)) else x
      case Lookup(k) => if k != key then x else if Alive(x, t.now) then Some(Seen(x.value, t.now)) else None
      case Delete(k) => if k == key then None else x
      case DeleteAdmin(adminId) => if x.Some? && x.value.adminId == adminId then None else x
      case Sweep => x
      case Restart(readable) =>
        if readable && stored.Some? && stored.value.adminId != "" then Some(stored.value.(username := "")) else None
  }

  /** The table holds of the session what its history tells, until it expires. */
  ghost predicate Tracks(m: Records, key: Key, x: Option<Known>, now: int) {
    && (Alive(x, now) ==> key in m && m[key] == RecordOf(x.value))
    && (key in m && now < m[key].expiresAt ==> Alive(x, now))
  }

  lemma TracksLater(m: Records, key: Key, x: Option<Known>, now: int, later: int)
    requires Tracks(m, key, x, now) && now <= later
    ensures Tracks(m, key, x, later)
  {
  }

  lemma AnswerIsTold(m: Records, key: Key, x: Option<Known>, now: int)
    requires Tracks(m, key, x, now)
    ensures LookupVerdict(m, key, now) == Answer(x, now)
  {
  }

  lemma LookupIsTold(m: Records, key: Key, k: Key, x: Option<Known>, now: int)
    requires Tracks(m, key, x, now)
    ensures Tracks(AfterLookup(m, k, now), key,
                   if k != key then x else if Alive(x, now) then Some(Seen(x.value, now)) else None, now)
  {
  }

  lemma IssueIsTold(m: Records, key: Key, k: Key, issued: Known, x: Option<Known>, victim: Key, now: int)
    requires Tracks(m, key, x, now) && issued.seenAt == now
    ensures Tracks(AfterIssue(m, k, RecordOf(issued), victim), key,
                   if k == key then Some(issued) else if |m| >= 4096 && victim == key then None else x, now)
  {
  }

  lemma RestartIsTold(saved: Records, key: Key, y: Option<Known>, now: int)
    requires Tracks(saved, key, y, now)
    ensures Tracks(LiveStored(saved, now), key,
                   if y.Some? && y.value.adminId != "" then Some(y.value.(username := "")) else None, now)
  {
  }

  lemma DeletionsAreTold(m: Records, key: Key, k: Key, adminId: string, x: Option<Known>, now: int)
    requires Tracks(m, key, x, now)
    ensures Tracks(m - {k}, key, if k == key then None else x, now)
    ensures Tracks(AfterDeleteAdmin(m, adminId), key, if x.Some? && x.value.adminId == adminId then None else x, now)
    ensures Tracks(AfterSweep(m, now), key, x, now)
  {
  }

  lemma StepIsTold(s: Mirrored, t: Timed, key: Key, pick: set<Key> -> Key, x: Option<Known>, y: Option<Known>)
    requires Tracks(s.table, key, x, t.now) && Tracks(s.saved, key, y, t.now)
    ensures Tracks(TableStep(s, t, pick), key, Then(x, y, t, key, Displaced(s, t, key, pick)), t.now)
  {
    var e := t.event;
    if e.Issue? {
      var issued := Known(e.adminId, e.username, e.fingerprint, t.now, t.now);
      assert NewRecord(e.adminId, e.username, e.fingerprint, t.now) == RecordOf(issued);
      IssueIsTold(s.table, key, e.key, issued, x, pick(OldestKeys(s.table)), t.now);
    } else if e.Lookup? {
      LookupIsTold(s.table, key, e.key, x, t.now);
    } else if e.Restart? {
      RestartIsTold(s.saved, key, y, t.now);
    } else {
      var k, adminId := if e.Delete? then e.key else key, if e.DeleteAdmin? then e.adminId else "";
      DeletionsAreTold(s.table, key, k, adminId, x, t.now);
    }
  }

  /** A session's history in memory and on disk. */
  datatype History = History(inMemory: Option<Known>, onDisk: Option<Known>)

  function Told(s: Mirrored, h: History, ts: seq<Timed>, key: Key, pick: set<Key> -> Key): History
    decreases |ts|
  {
    if ts == [] then h
    else
      var x := Then(h.inMemory, h.onDisk, ts[0], key, Displaced(s, ts[0], key, pick));
      Told(Step(s, ts[0], pick), History(x, if Saves(s, ts[0], pick) then x else h.onDisk), ts[1..], key, pick)
  }

  ghost predicate InOrder(ts: seq<Timed>, from: int, end: int) {
    if ts == [] then from <= end else from <= ts[0].now && InOrder(ts[1..], ts[0].now, end)
  }

  lemma {:induction false} TableIsTold(
    s: Mirrored, h: History, ts: seq<Timed>, key: Key, pick: set<Key> -> Key, from: int, now: int)
    requires Tracks(s.table, key, h.inMemory, from) && Tracks(s.saved, key, h.onDisk, from) && InOrder(ts, from, now)
    ensures Tracks(After(s, ts, pick).table, key, Told(s, h, ts, key, pick).inMemory, now)
    decreases |ts|
  {
    if ts == [] {
      TracksLater(s.table, key, h.inMemory, from, now);
    } else {
      var t := ts[0];
      TracksLater(s.table, key, h.inMemory, from, t.now);
      TracksLater(s.saved, key, h.onDisk, from, t.now);
      StepIsTold(s, t, key, pick, h.inMemory, h.onDisk);
      var x := Then(h.inMemory, h.onDisk, t, key, Displaced(s, t, key, pick));
      TableIsTold(Step(s, t, pick), History(x, if Saves(s, t, pick) then x else h.onDisk), ts[1..], key, pick, t.now,
        now);
    }
  }

  const NOBODY := History(None, None)

  /** From an empty table on, every cookie is answered from its own history. */
  lemma AnswersAreTold(ts: seq<Timed>, key: Key, pick: set<Key> -> Key, from: int, now: int)
    requires InOrder(ts, from, now)
    ensures var none := Mirrored(map[], map[]);
            LookupVerdict(After(none, ts, pick).table, key, now)
            == Answer(Told(none, NOBODY, ts, key, pick).inMemory, now)
  {
    var none := Mirrored(map[], map[]);
    TableIsTold(none, NOBODY, ts, key, pick, from, now);
    AnswerIsTold(After(none, ts, pick).table, key, Told(none, NOBODY, ts, key, pick).inMemory, now);
  }

  lemma {:induction false} StaysSound(s: Mirrored, ts: seq<Timed>, pick: set<Key> -> Key, from: int)
    requires Sound(s) && Picks(pick) && Orderly(ts, from)
    ensures Sound(After(s, ts, pick))
    decreases |ts|
  {
    if ts != [] {
      StepKeepsWellFormed(s, ts[0], pick);
      StaysSound(Step(s, ts[0], pick), ts[1..], pick, ts[0].now);
    }
  }

  /** There are never more than 4096 sessions, in memory or on disk. */
  lemma AtMost4096(ts: seq<Timed>, pick: set<Key> -> Key, from: int)
    requires Picks(pick) && Orderly(ts, from)
    ensures var s := After(Mirrored(map[], map[]), ts, pick); |s.table| <= 4096 && |s.saved| <= 4096
  {
    StaysSound(Mirrored(map[], map[]), ts, pick, from);
  }

  /** A sweep leaves in memory the sessions that are alive and no other, and so does a lookup of the one it looks up. */
  lemma OnlyTheLiveAreLeft(s: Mirrored, t: Timed, key: Key, pick: set<Key> -> Key, x: Option<Known>)
    requires Tracks(s.table, key, x, t.now) && (t.event == Sweep || t.event == Lookup(key))
    ensures key in TableStep(s, t, pick) <==> Alive(x, t.now)
  {
  }

  /** A row is restored exactly when its texts are those of 32 and 8 bytes, it has an owner, and it has not expired. */
  lemma RowIsRestoredExactlyWhen(p: PersistedSession, now: int)
    ensures RestoreRow(p, now).Some? <==>
            && |p.hash| == 64 && AllHex(p.hash) && |p.fingerprint| == 16 && AllHex(p.fingerprint)
            && p.adminId != "" && now < p.expiresAt
  {
    DecodesExactlyWhen(p.hash);
    DecodesExactlyWhen(p.fingerprint);
  }

  // ---- the methods of the table are the steps of these runs ----

  /** Issuing a session is the Issue event. */
  method ServeIssue(t: Table, id: string, a: Known, works: bool, ghost saved: Records) returns (ghost victim: Key)
    requires t.persistent && Backs(t.disk, saved) && a.seenAt == a.issuedAt
    modifies t
    ensures |old(t.byID)| >= 4096 ==> victim in OldestKeys(old(t.byID))
    ensures var s := Mirrored(old(t.byID), saved);
            var e := Timed(a.issuedAt, Issue(t.digest(id), a.adminId, a.username, a.fingerprint), works);
            t.byID == TableStep(s, e, _ => victim) && Backs(t.disk, Step(s, e, _ => victim).saved)
  {
    ghost var s, rows := Mirrored(t.byID, saved), t.disk;
    var r;
    r, victim := t.Issue(a.adminId, a.username, a.fingerprint, a.issuedAt, Some(id), works);
    SavesKeepDiskInStep(
      rows, s, t.disk, Timed(a.issuedAt, Issue(t.digest(id), a.adminId, a.username, a.fingerprint), works),
        _ => victim);
  }

  /** Resolving a cookie is the Lookup event; the empty cookie names no session. */
  method ServeLookup(t: Table, id: string, now: int, works: bool, pick: set<Key> -> Key, ghost saved: Records)
    returns (v: Verdict)
    requires t.persistent && Backs(t.disk, saved) && id != ""
    modifies t
    ensures v == LookupVerdict(old(t.byID), t.digest(id), now)
    ensures var s, e := Mirrored(old(t.byID), saved), Timed(now, Lookup(t.digest(id)), works);
            t.byID == TableStep(s, e, pick) && Backs(t.disk, Step(s, e, pick).saved)
  {
    ghost var s, rows := Mirrored(t.byID, saved), t.disk;
    v := t.Lookup(id, now, works);
    SavesKeepDiskInStep(rows, s, t.disk, Timed(now, Lookup(t.digest(id)), works), pick);
  }

  /** Signing out is the Delete event. */
  method ServeDelete(t: Table, id: string, now: int, works: bool, pick: set<Key> -> Key, ghost saved: Records)
    requires t.persistent && Backs(t.disk, saved) && id != ""
    modifies t
    ensures var s, e := Mirrored(old(t.byID), saved), Timed(now, Delete(t.digest(id)), works);
            t.byID == TableStep(s, e, pick) && Backs(t.disk, Step(s, e, pick).saved)
  {
    ghost var s, rows := Mirrored(t.byID, saved), t.disk;
    t.Delete(id, works);
    SavesKeepDiskInStep(rows, s, t.disk, Timed(now, Delete(t.digest(id)), works), pick);
  }

  /** Dropping an administrator's sessions is the DeleteAdmin event. */
  method ServeDeleteAdmin(t: Table, adminId: string, now: int, works: bool, pick: set<Key> -> Key, ghost saved: Records)
    requires t.persistent && Backs(t.disk, saved)
    modifies t
    ensures var s, e := Mirrored(old(t.byID), saved), Timed(now, DeleteAdmin(adminId), works);
            t.byID == TableStep(s, e, pick) && Backs(t.disk, Step(s, e, pick).saved)
  {
    ghost var s, rows := Mirrored(t.byID, saved), t.disk;
    var n := t.DeleteAdmin(adminId, works);
    SavesKeepDiskInStep(rows, s, t.disk, Timed(now, DeleteAdmin(adminId), works), pick);
  }

  /** And sweeping is the Sweep event. */
  method ServeSweep(t: Table, now: int, works: bool, pick: set<Key> -> Key, ghost saved: Records)
    requires t.persistent && Backs(t.disk, saved)
    modifies t
    ensures var s, e := Mirrored(old(t.byID), saved), Timed(now, Sweep, works);
            t.byID == TableStep(s, e, pick) && Backs(t.disk, Step(s, e, pick).saved)
  {
    ghost var s, rows := Mirrored(t.byID, saved), t.disk;
    var n := t.Sweep(now, works);
    SavesKeepDiskInStep(rows, s, t.disk, Timed(now, Sweep, works), pick);
  }

  /** And a new table on the same rows is the restart. */
  method ServeRestart(t: Table, readable: bool, now: int, works: bool, pick: set<Key> -> Key, ghost saved: Records)
    returns (again: Table)
    requires t.persistent && Backs(t.disk, saved)
    ensures again.digest == t.digest && again.persistent
    ensures var s, e := Mirrored(t.byID, saved), Timed(now, Restart(readable), works);
            && again.byID == TableStep(s, e, pick)
            && Backs(again.disk, Step(s, e, pick).saved)
  {
    again := new Table(true, t.disk, readable, t.digest, now);
    RestartIsTheRestartEvent(t.disk, Mirrored(t.byID, saved), readable, now, works, pick);
  }
}
