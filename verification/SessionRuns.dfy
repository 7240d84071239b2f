/** Whole runs of the session table: what sweeping, restarting and eviction can and cannot change. */
module SessionRuns {
  import opened Lists
  import opened Sessions

  /** The table, and what its last successful save wrote: two tables once a save has failed. */
  datatype Mirrored = Mirrored(table: Records, saved: Records)

  datatype Event =
    | Issue(key: Key, adminId: string, username: string, fingerprint: Fingerprint)
    | Lookup(key: Key)
    | Delete(key: Key)
    | DeleteAdmin(adminId: string)
    | Sweep
    | Restart(readable: bool)

  /** An event, and whether a save that it asks for works. */
  datatype Timed = Timed(now: int, event: Event, works: bool)

  /** What one event makes of the table. `pick` breaks ties among the least recently used records. */
  function TableStep(s: Mirrored, t: Timed, pick: set<Key> -> Key): Records {
    var m := s.table;
    match t.event
    case Issue(key, adminId, username, fp) =>
      AfterIssue(m, key, NewRecord(adminId, username, fp, t.now), pick(OldestKeys(m)))
    case Lookup(key) => AfterLookup(m, key, t.now)
    case Delete(key) => m - {key}
    case DeleteAdmin(adminId) => AfterDeleteAdmin(m, adminId)
    case Sweep => AfterSweep(m, t.now)
    case Restart(readable) => if readable then LiveStored(s.saved, t.now) else map[]
  }

  /** The event saves the table: a change of it asks for that, and so does every issue. */
  predicate Saves(s: Mirrored, t: Timed, pick: set<Key> -> Key) {
    t.works && !t.event.Restart? && (t.event.Issue? || TableStep(s, t, pick) != s.table)
  }

  function Step(s: Mirrored, t: Timed, pick: set<Key> -> Key): Mirrored {
    var after := TableStep(s, t, pick);
    Mirrored(after, if Saves(s, t, pick) then after else s.saved)
  }

  /** A verdict as the middleware passes it on: the name is filled in from the administrator list. */
  function Nameless(v: Verdict): Verdict {
    match v
    case Refused => Refused
    case Admitted(r, renewed) => Admitted(r.(username := ""), renewed)
  }

  function After(s: Mirrored, ts: seq<Timed>, pick: set<Key> -> Key): Mirrored
    decreases |ts|
  {
    if ts == [] then s else After(Step(s, ts[0], pick), ts[1..], pick)
  }

  /** The verdicts of the lookups in a run, in order. */
  function Verdicts(s: Mirrored, ts: seq<Timed>, pick: set<Key> -> Key): seq<Verdict>
    decreases |ts|
  {
    if ts == [] then []
    else
      (if ts[0].event.Lookup? then [Nameless(LookupVerdict(s.table, ts[0].event.key, ts[0].now))] else [])
      + Verdicts(Step(s, ts[0], pick), ts[1..], pick)
  }

  /** The run with its sweeps and restarts left out. */
  function Undisturbed(ts: seq<Timed>): seq<Timed> {
    if ts == [] then []
    else (if ts[0].event.Sweep? || ts[0].event.Restart? then [] else [ts[0]]) + Undisturbed(ts[1..])
  }

  ghost predicate Picks(pick: set<Key> -> Key) {
    forall s {:trigger pick(s)} :: s != {} ==> pick(s) in s
  }

  /** Times do not go backwards, and sessions are issued to administrators that have an id. */
  ghost predicate Orderly(ts: seq<Timed>, from: int) {
    ts == [] || (ts[0].now >= from && (ts[0].event.Issue? ==> ts[0].event.adminId != "") && Orderly(ts[1..], ts[0].now))
  }

  /** What every reachable table satisfies. */
  ghost predicate WellFormed(m: Records) {
    && |m| <= MAX_SESSIONS
    && forall k :: k in m ==> m[k].expiresAt == m[k].lastSeenAt + IDLE && m[k].adminId != ""
  }

  ghost predicate Sound(s: Mirrored) {
    WellFormed(s.table) && WellFormed(s.saved)
  }

  lemma IssueKeepsWellFormed(m: Records, key: Key, rec: Record, victim: Key)
    requires WellFormed(m) && (|m| >= MAX_SESSIONS ==> victim in m)
    requires rec.expiresAt == rec.lastSeenAt + IDLE && rec.adminId != ""
    ensures WellFormed(AfterIssue(m, key, rec, victim))
  {
    if |m| >= MAX_SESSIONS {
      OneFewer(m, victim);
      AtMostOneMore(m - {victim}, key, rec);
    } else {
      AtMostOneMore(m, key, rec);
    }
  }

  lemma OneFewer(m: Records, victim: Key)
    requires victim in m
    ensures |m - {victim}| == |m| - 1
  {
    assert (m - {victim}).Keys == m.Keys - {victim};
  }

  lemma AtMostOneMore(m: Records, key: Key, rec: Record)
    ensures |m[key := rec]| <= |m| + 1
  {
    assert m[key := rec].Keys == m.Keys + {key};
  }

  lemma LookupKeepsWellFormed(m: Records, key: Key, at: int)
    requires WellFormed(m)
    ensures WellFormed(AfterLookup(m, key, at))
  {
    SubmapIsNoLarger(AfterLookup(m, key, at), m);
  }

  lemma PickedFromOldest(m: Records, pick: set<Key> -> Key)
    requires Picks(pick) && m != map[]
    ensures pick(OldestKeys(m)) in m && pick(OldestKeys(m)) in OldestKeys(m)
  {
    var oldest := OldestExists(m);
  }

  lemma TableStaysWellFormed(s: Mirrored, t: Timed, pick: set<Key> -> Key)
    requires Sound(s) && Picks(pick) && (t.event.Issue? ==> t.event.adminId != "")
    ensures WellFormed(TableStep(s, t, pick))
  {
    var m := s.table;
    match t.event
    case Issue(key, adminId, username, fp) =>
      if |m| >= MAX_SESSIONS {
        PickedFromOldest(m, pick);
      }
      IssueKeepsWellFormed(m, key, NewRecord(adminId, username, fp, t.now), pick(OldestKeys(m)));
    case Lookup(key) => LookupKeepsWellFormed(m, key, t.now);
    case Restart(readable) => SubmapIsNoLarger(TableStep(s, t, pick), s.saved);
    case _ => SubmapIsNoLarger(TableStep(s, t, pick), m);
  }

  /** Every step keeps the table within its cap and every record's expiry a fixed distance from its last use, in memory
      and on disk. */
  lemma StepKeepsWellFormed(s: Mirrored, t: Timed, pick: set<Key> -> Key)
    requires Sound(s) && Picks(pick) && (t.event.Issue? ==> t.event.adminId != "")
    ensures Sound(Step(s, t, pick))
  {
    TableStaysWellFormed(s, t, pick);
  }

  // ---- eviction and expiry ----

  /** Eviction takes an expired record before a live one. */
  lemma EvictionTakesExpiredFirst(m: Records, now: int, victim: Key)
    requires WellFormed(m) && victim in OldestKeys(m)
    ensures now < m[victim].expiresAt ==> forall k :: k in m ==> now < m[k].expiresAt
  {
  }

  /** Nobody who is still live is displaced by issuing another session. */
  ghost predicate Displaces(m: Records, now: int, victim: Key) {
    |m| >= MAX_SESSIONS && victim in m && now < m[victim].expiresAt
  }

  lemma IssueWithoutDisplacing(m: Records, now: int, key: Key, rec: Record, victim: Key)
    requires WellFormed(m) && !Displaces(m, now, victim) && now < rec.expiresAt && rec.adminId != ""
    ensures LiveStored(AfterIssue(m, key, rec, victim), now) == LiveStored(m, now)[key := rec.(username := "")]
  {
  }

  lemma FullOfLive(a: Records, b: Records, now: int)
    requires WellFormed(a) && WellFormed(b) && LiveStored(a, now) == LiveStored(b, now)
    requires |a| == MAX_SESSIONS && forall k :: k in a ==> now < a[k].expiresAt
    ensures a.Keys == b.Keys && OldestKeys(a) == OldestKeys(b)
    ensures forall k :: k in a ==> a[k].(username := "") == b[k].(username := "")
  {
    assert LiveStored(a, now).Keys == a.Keys;
    SubmapIsNoLarger(LiveStored(b, now), b);
    forall k | k in a
      ensures a[k].(username := "") == b[k].(username := "") && a[k].lastSeenAt == b[k].lastSeenAt
    {
      assert LiveStored(a, now)[k] == LiveStored(b, now)[k];
    }
  }

  lemma IssueWhenFull(a: Records, b: Records, now: int, key: Key, rec: Record, pick: set<Key> -> Key)
    requires WellFormed(a) && WellFormed(b) && LiveStored(a, now) == LiveStored(b, now) && Picks(pick)
    requires Displaces(a, now, pick(OldestKeys(a)))
    ensures LiveStored(AfterIssue(a, key, rec, pick(OldestKeys(a))), now)
         == LiveStored(AfterIssue(b, key, rec, pick(OldestKeys(b))), now)
  {
    var victim := pick(OldestKeys(a));
    var oldest := OldestExists(a);
    EvictionTakesExpiredFirst(a, now, victim);
    FullOfLive(a, b, now);
    var a', b' := AfterIssue(a, key, rec, victim), AfterIssue(b, key, rec, victim);
    assert |b| == MAX_SESSIONS by {
      assert |a.Keys| == |b.Keys|;
    }
    assert a'.Keys == b'.Keys;
    assert forall k :: k in a' ==> a'[k].(username := "") == b'[k].(username := "");
    SameButForNames(a', b', now);
  }

  lemma SameButForNames(a: Records, b: Records, now: int)
    requires a.Keys == b.Keys && forall k :: k in a ==> a[k].(username := "") == b[k].(username := "")
    ensures LiveStored(a, now) == LiveStored(b, now)
  {
    assert forall k :: k in a ==> a[k].expiresAt == a[k].(username := "").expiresAt;
    assert forall k :: k in b ==> b[k].expiresAt == b[k].(username := "").expiresAt;
    assert forall k :: k in a ==> a[k].adminId == a[k].(username := "").adminId;
    assert forall k :: k in b ==> b[k].adminId == b[k].(username := "").adminId;
  }

  // ---- sweeping and restarting are invisible ----

  /** The same sessions are live in both tables, whatever expired records either still carries. */
  ghost predicate SameLive(a: Records, b: Records, now: int) {
    LiveStored(a, now) == LiveStored(b, now)
  }

  lemma LiveShrinks(m: Records, now: int, later: int)
    requires now <= later
    ensures LiveStored(m, later) == LiveStored(LiveStored(m, now), later)
  {
  }

  lemma SameLiveLater(a: Records, b: Records, now: int, later: int)
    requires SameLive(a, b, now) && now <= later
    ensures SameLive(a, b, later)
  {
    LiveShrinks(a, now, later);
    LiveShrinks(b, now, later);
  }

  /** A restart that finds every live session on disk. */
  ghost predicate FindsAll(s: Mirrored, t: Timed) {
    t.event.Restart? ==> t.event.readable && SameLive(s.saved, s.table, t.now)
  }

  ghost predicate LosesNothing(s: Mirrored, ts: seq<Timed>, pick: set<Key> -> Key)
    decreases |ts|
  {
    ts == [] || (FindsAll(s, ts[0]) && LosesNothing(Step(s, ts[0], pick), ts[1..], pick))
  }

  /** So it does as long as saves succeed. */
  lemma {:induction false} SavingLosesNothing(s: Mirrored, ts: seq<Timed>, pick: set<Key> -> Key, from: int)
    requires Orderly(ts, from) && SameLive(s.saved, s.table, from)
    requires forall i :: 0 <= i < |ts| ==> ts[i].works && ts[i].event != Restart(false)
    ensures LosesNothing(s, ts, pick)
    decreases |ts|
  {
    if ts != [] {
      SameLiveLater(s.saved, s.table, from, ts[0].now);
      if ts[0].event.Restart? {
        HousekeepingKeepsLive(s, ts[0], pick);
      }
      SavingLosesNothing(Step(s, ts[0], pick), ts[1..], pick, ts[0].now);
    }
  }

  lemma HousekeepingKeepsLive(s: Mirrored, t: Timed, pick: set<Key> -> Key)
    requires t.event.Sweep? || t.event.Restart?
    requires FindsAll(s, t)
    ensures SameLive(TableStep(s, t, pick), s.table, t.now)
  {
    LiveShrinks(s.saved, t.now, t.now);
    LiveShrinks(s.table, t.now, t.now);
  }

  lemma LookupAgrees(a: Records, b: Records, key: Key, now: int)
    requires WellFormed(a) && WellFormed(b) && SameLive(a, b, now)
    ensures Nameless(LookupVerdict(a, key, now)) == Nameless(LookupVerdict(b, key, now))
    ensures SameLive(AfterLookup(a, key, now), AfterLookup(b, key, now), now)
  {
    var live := LiveStored(a, now);
    assert key in live <==> key in a && now < a[key].expiresAt;
    assert key in live <==> key in b && now < b[key].expiresAt;
    LookupOfLive(a, key, now);
    LookupOfLive(b, key, now);
  }

  lemma LookupOfLive(m: Records, key: Key, now: int)
    requires WellFormed(m)
    ensures Nameless(LookupVerdict(m, key, now)) == LookupVerdict(LiveStored(m, now), key, now)
    ensures LiveStored(AfterLookup(m, key, now), now) == AfterLookup(LiveStored(m, now), key, now)
  {
  }

  lemma IssuesAgree(a: Records, b: Records, at: int, key: Key, rec: Record, pick: set<Key> -> Key)
    requires WellFormed(a) && WellFormed(b) && SameLive(a, b, at) && Picks(pick)
    requires at < rec.expiresAt && rec.adminId != ""
    ensures SameLive(AfterIssue(a, key, rec, pick(OldestKeys(a))), AfterIssue(b, key, rec, pick(OldestKeys(b))), at)
  {
    if Displaces(a, at, pick(OldestKeys(a))) {
      IssueWhenFull(a, b, at, key, rec, pick);
    } else if Displaces(b, at, pick(OldestKeys(b))) {
      IssueWhenFull(b, a, at, key, rec, pick);
    } else {
      IssueWithoutDisplacing(a, at, key, rec, pick(OldestKeys(a)));
      IssueWithoutDisplacing(b, at, key, rec, pick(OldestKeys(b)));
    }
  }

  lemma DeletesAgree(a: Records, b: Records, key: Key, at: int)
    requires SameLive(a, b, at)
    ensures SameLive(a - {key}, b - {key}, at)
  {
    assert LiveStored(a - {key}, at) == LiveStored(a, at) - {key};
    assert LiveStored(b - {key}, at) == LiveStored(b, at) - {key};
  }

  lemma DeleteAdminsAgree(a: Records, b: Records, adminId: string, at: int)
    requires SameLive(a, b, at)
    ensures SameLive(AfterDeleteAdmin(a, adminId), AfterDeleteAdmin(b, adminId), at)
  {
    assert LiveStored(AfterDeleteAdmin(a, adminId), at) == AfterDeleteAdmin(LiveStored(a, at), adminId);
    assert LiveStored(AfterDeleteAdmin(b, adminId), at) == AfterDeleteAdmin(LiveStored(b, at), adminId);
  }

  lemma StepsAgree(a: Mirrored, b: Mirrored, t: Timed, pick: set<Key> -> Key)
    requires WellFormed(a.table) && WellFormed(b.table) && SameLive(a.table, b.table, t.now) && Picks(pick)
    requires !t.event.Sweep? && !t.event.Restart? && (t.event.Issue? ==> t.event.adminId != "")
    ensures SameLive(TableStep(a, t, pick), TableStep(b, t, pick), t.now)
  {
    var e := t.event;
    if e.Issue? {
      IssuesAgree(a.table, b.table, t.now, e.key, NewRecord(e.adminId, e.username, e.fingerprint, t.now), pick);
    } else if e.Lookup? {
      LookupAgrees(a.table, b.table, e.key, t.now);
    } else if e.Delete? {
      DeletesAgree(a.table, b.table, e.key, t.now);
    } else {
      DeleteAdminsAgree(a.table, b.table, e.adminId, t.now);
    }
  }

  /** Sweeping and restarting are invisible as long as restarts lose nothing: with or without them every lookup gets the
      same verdict and the same sessions are live at the end, even when the table is full. */
  lemma {:induction false} HousekeepingIsInvisible(
    a: Mirrored, b: Mirrored, ts: seq<Timed>, pick: set<Key> -> Key, from: int, end: int)
    requires Sound(a) && Sound(b) && SameLive(a.table, b.table, from) && Picks(pick) && LosesNothing(a, ts, pick)
    requires Orderly(ts, from) && forall i :: 0 <= i < |ts| ==> ts[i].now <= end
    requires from <= end
    ensures Verdicts(a, ts, pick) == Verdicts(b, Undisturbed(ts), pick)
    ensures SameLive(After(a, ts, pick).table, After(b, Undisturbed(ts), pick).table, end)
    decreases |ts|
  {
    if ts == [] {
      SameLiveLater(a.table, b.table, from, end);
    } else {
      var t, rest, quiet := ts[0], ts[1..], Undisturbed(ts);
      SameLiveLater(a.table, b.table, from, t.now);
      StepKeepsWellFormed(a, t, pick);
      if t.event.Sweep? || t.event.Restart? {
        HousekeepingKeepsLive(a, t, pick);
        HousekeepingIsInvisible(Step(a, t, pick), b, rest, pick, t.now, end);
        assert quiet == Undisturbed(rest);
      } else {
        StepKeepsWellFormed(b, t, pick);
        StepsAgree(a, b, t, pick);
        if t.event.Lookup? {
          LookupAgrees(a.table, b.table, t.event.key, t.now);
        }
        HousekeepingIsInvisible(Step(a, t, pick), Step(b, t, pick), rest, pick, t.now, end);
        assert quiet[0] == t && quiet[1..] == Undisturbed(rest);
      }
    }
  }

  // ---- the disk ----

  /** A method of the table either leaves its rows alone or saves rows that mirror the table; either way they are what
      the last successful save wrote. */
  lemma SavesKeepDiskInStep(
    rows: seq<PersistedSession>, s: Mirrored, rows': seq<PersistedSession>, t: Timed, pick: set<Key> -> Key)
    requires Backs(rows, s.saved)
    requires if Saves(s, t, pick) then Mirrors(rows', TableStep(s, t, pick)) else rows' == rows
    ensures Backs(rows', Step(s, t, pick).saved)
  {
    if Saves(s, t, pick) {
      MirrorBacks(rows', TableStep(s, t, pick));
    }
  }

  /** A new table on such a disk is the table after the Restart event. */
  lemma RestartIsTheRestartEvent(
    rows: seq<PersistedSession>, s: Mirrored, readable: bool, at: int, works: bool, pick: set<Key> -> Key)
    requires Backs(rows, s.saved)
    ensures var after := Step(s, Timed(at, Restart(readable), works), pick);
            after.table == (if readable then Restore(rows, at) else map[]) && Backs(rows, after.saved)
  {
    assert Restore(rows, at) == LiveStored(s.saved, at);
  }

  /** Signing out and restarting: the session stays gone exactly when signing out could save the table. */
  method LogoutThenRestart(t: Table, id: string, works: bool, now: int) returns (again: Table)
    requires t.persistent && Mirrors(t.disk, t.byID) && id != "" && t.digest(id) in LiveStored(t.byID, now)
    modifies t
    ensures t.digest(id) !in t.byID
    ensures t.digest(id) in again.byID <==> !works
  {
    ghost var was := t.byID;
    MirrorBacks(t.disk, was);
    t.Delete(id, works);
    if works {
      MirrorBacks(t.disk, t.byID);
    }
    again := new Table(true, t.disk, true, t.digest, now);
  }

  // ---- exact idle bounds ----

  /** The disk holds the session as last used. */
  ghost predicate OnDisk(s: Mirrored, key: Key) {
    key in s.table && key in s.saved && s.saved[key].lastSeenAt == s.table[key].lastSeenAt
  }

  /** The event neither deletes nor evicts nor replaces the session; a restart finds it on disk as last used. */
  ghost predicate Spares(s: Mirrored, t: Timed, key: Key, pick: set<Key> -> Key) {
    match t.event
    case Issue(k, _, _, _) => k != key && (|s.table| >= MAX_SESSIONS ==> pick(OldestKeys(s.table)) != key)
    case Delete(k) => k != key
    case DeleteAdmin(adminId) => key in s.table ==> s.table[key].adminId != adminId
    case Restart(readable) => readable && OnDisk(s, key)
    case _ => true
  }

  ghost predicate SparesThroughout(s: Mirrored, ts: seq<Timed>, key: Key, pick: set<Key> -> Key)
    decreases |ts|
  {
    ts == [] || (Spares(s, ts[0], key, pick) && SparesThroughout(Step(s, ts[0], pick), ts[1..], key, pick))
  }

  /** Every lookup of the session comes within the gap of the one before it, the first within the gap of lastUse. */
  ghost predicate UsedWithin(ts: seq<Timed>, key: Key, lastUse: int, gap: int) {
    ts == [] ||
    if ts[0].event == Lookup(key) then ts[0].now - lastUse <= gap && UsedWithin(ts[1..], key, ts[0].now, gap)
    else UsedWithin(ts[1..], key, lastUse, gap)
  }

  ghost predicate AlwaysAdmitted(s: Mirrored, ts: seq<Timed>, key: Key, pick: set<Key> -> Key)
    decreases |ts|
  {
    ts == [] ||
    ((ts[0].event == Lookup(key) ==> LookupVerdict(s.table, key, ts[0].now).Admitted?)
     && AlwaysAdmitted(Step(s, ts[0], pick), ts[1..], key, pick))
  }

  lemma {:induction false} NoUseAfterTheGap(
    s: Mirrored, ts: seq<Timed>, key: Key, pick: set<Key> -> Key, lastUse: int, gap: int, from: int)
    requires Orderly(ts, from) && UsedWithin(ts, key, lastUse, gap) && from - lastUse > gap
    ensures AlwaysAdmitted(s, ts, key, pick)
    decreases |ts|
  {
    if ts != [] {
      NoUseAfterTheGap(Step(s, ts[0], pick), ts[1..], key, pick, lastUse, gap, ts[0].now);
    }
  }

  lemma SparedRecordStays(s: Mirrored, t: Timed, key: Key, pick: set<Key> -> Key)
    requires Sound(s) && key in s.table && Spares(s, t, key, pick) && t.event != Lookup(key)
    requires t.now < s.table[key].expiresAt
    ensures var after := TableStep(s, t, pick); key in after && after[key].lastSeenAt == s.table[key].lastSeenAt
  {
  }

  lemma UsedRecordSlides(m: Records, key: Key, at: int)
    requires WellFormed(m) && key in m && at < m[key].expiresAt
    ensures var after := AfterLookup(m, key, at);
            key in after && after[key].lastSeenAt == if at - m[key].lastSeenAt >= REFRESH then at else m[key].lastSeenAt
  {
  }

  /** A session neither deleted nor evicted, nor lost by a restart, survives any use whose gaps are at most
      IDLE - REFRESH. */
  lemma {:induction false} RegularUseKeepsSession(
    s: Mirrored, ts: seq<Timed>, key: Key, pick: set<Key> -> Key, lastUse: int, from: int)
    requires Sound(s) && Picks(pick) && Orderly(ts, from) && SparesThroughout(s, ts, key, pick)
    requires key in s.table && s.table[key].lastSeenAt <= lastUse < s.table[key].lastSeenAt + REFRESH && lastUse <= from
    requires UsedWithin(ts, key, lastUse, IDLE - REFRESH)
    ensures AlwaysAdmitted(s, ts, key, pick)
    decreases |ts|
  {
    if ts != [] {
      var t := ts[0];
      var after := Step(s, t, pick);
      StepKeepsWellFormed(s, t, pick);
      if t.event == Lookup(key) {
        UsedRecordSlides(s.table, key, t.now);
        RegularUseKeepsSession(after, ts[1..], key, pick, t.now, t.now);
      } else if t.now < s.table[key].expiresAt {
        SparedRecordStays(s, t, key, pick);
        RegularUseKeepsSession(after, ts[1..], key, pick, lastUse, t.now);
      } else {
        NoUseAfterTheGap(after, ts[1..], key, pick, lastUse, IDLE - REFRESH, t.now);
      }
    }
  }

  /** A session stays on disk as last used as long as its own renewals are saved, whatever other saves fail. */
  lemma SavedRenewalsStayOnDisk(s: Mirrored, t: Timed, key: Key, pick: set<Key> -> Key)
    requires Sound(s) && OnDisk(s, key) && Spares(s, t, key, pick) && t.now < s.table[key].expiresAt
    requires t.event == Lookup(key) ==> t.works
    ensures OnDisk(Step(s, t, pick), key)
  {
    if t.event == Lookup(key) {
      UsedRecordSlides(s.table, key, t.now);
    } else {
      SparedRecordStays(s, t, key, pick);
    }
  }

  /** A restart keeps a session exactly when the last successful save had it, unexpired; one never saved is lost. */
  lemma RestartKeepsExactlyWhen(s: Mirrored, key: Key, readable: bool, at: int, works: bool, pick: set<Key> -> Key)
    requires Sound(s)
    ensures LookupVerdict(Step(s, Timed(at, Restart(readable), works), pick).table, key, at).Admitted?
            <==> readable && key in s.saved && at - s.saved[key].lastSeenAt < IDLE
  {
  }

  /** The bound is exact: one nanosecond more between two uses can be refused. */
  lemma RegularUseBoundIsExact(key: Key, adminId: string, fp: Fingerprint)
    ensures var m := map[key := NewRecord(adminId, "", fp, 0)];
            && LookupVerdict(m, key, REFRESH - 1).Admitted?
            && LookupVerdict(AfterLookup(m, key, REFRESH - 1), key, REFRESH - 1 + (IDLE - REFRESH + 1)).Refused?
  {
  }

  ghost predicate NeverUsedAgain(ts: seq<Timed>, key: Key) {
    forall i :: 0 <= i < |ts| ==> ts[i].event != Lookup(key) && (ts[i].event.Issue? ==> ts[i].event.key != key)
  }

  lemma UntouchedRecord(s: Mirrored, t: Timed, key: Key, pick: set<Key> -> Key)
    requires t.event != Lookup(key) && (t.event.Issue? ==> t.event.key != key)
    ensures var after := TableStep(s, t, pick);
            key in after ==> if t.event.Restart? then key in s.saved && after[key].lastSeenAt == s.saved[key].lastSeenAt
                             else key in s.table && after[key].lastSeenAt == s.table[key].lastSeenAt
  {
  }

  /** Neither in memory nor on disk has the session been used later. */
  ghost predicate LastUsedBy(s: Mirrored, key: Key, lastUse: int) {
    (key in s.table ==> s.table[key].lastSeenAt <= lastUse) && (key in s.saved ==> s.saved[key].lastSeenAt <= lastUse)
  }

  /** After a gap of IDLE or more without use a session is refused, whatever else happens meanwhile and whatever saves
      fail. */
  lemma IdleSessionIsRefused(
    s: Mirrored, ts: seq<Timed>, key: Key, pick: set<Key> -> Key, lastUse: int, at: int)
    requires Sound(s) && Picks(pick) && NeverUsedAgain(ts, key) && Orderly(ts, lastUse) && LastUsedBy(s, key, lastUse)
    requires at - lastUse >= IDLE
    ensures LookupVerdict(After(s, ts, pick).table, key, at).Refused?
  {
    IdleRecordIsOld(s, ts, key, pick, lastUse, lastUse);
  }

  lemma {:induction false} IdleRecordIsOld(
    s: Mirrored, ts: seq<Timed>, key: Key, pick: set<Key> -> Key, lastUse: int, from: int)
    requires Sound(s) && Picks(pick) && NeverUsedAgain(ts, key) && Orderly(ts, from) && LastUsedBy(s, key, lastUse)
    ensures Sound(After(s, ts, pick)) && LastUsedBy(After(s, ts, pick), key, lastUse)
    decreases |ts|
  {
    if ts != [] {
      var after := Step(s, ts[0], pick);
      StepKeepsWellFormed(s, ts[0], pick);
      UntouchedRecord(s, ts[0], key, pick);
      IdleRecordIsOld(after, ts[1..], key, pick, lastUse, ts[0].now);
    }
  }

  /** No lookup of the session before the given time is answered with a renewal. */
  ghost predicate NoRenewalBefore(s: Mirrored, ts: seq<Timed>, key: Key, pick: set<Key> -> Key, until: int)
    decreases |ts|
  {
    ts == [] ||
    ((ts[0].event == Lookup(key) && ts[0].now < until ==>
        LookupVerdict(s.table, key, ts[0].now).Admitted? ==> !LookupVerdict(s.table, key, ts[0].now).renewed)
     && NoRenewalBefore(Step(s, ts[0], pick), ts[1..], key, pick, until))
  }

  /** Wherever the session is, in memory or on disk, its last use is no earlier. */
  ghost predicate LastUsedSince(s: Mirrored, key: Key, renewedAt: int) {
    (key in s.table ==> s.table[key].lastSeenAt >= renewedAt)
      && (key in s.saved ==> s.saved[key].lastSeenAt >= renewedAt)
  }

  lemma UseIsNoEarlier(s: Mirrored, t: Timed, key: Key, pick: set<Key> -> Key, renewedAt: int)
    requires LastUsedSince(s, key, renewedAt) && t.now >= renewedAt
    ensures LastUsedSince(Step(s, t, pick), key, renewedAt)
  {
    if t.event != Lookup(key) && (t.event.Issue? ==> t.event.key != key) {
      UntouchedRecord(s, t, key, pick);
    }
  }

  /** A session reports a renewal at most once per REFRESH: none follows another that was saved, or its issue, sooner,
      whatever saves fail later. */
  lemma {:induction false} RenewalsAreSpaced(
    s: Mirrored, ts: seq<Timed>, key: Key, pick: set<Key> -> Key, renewedAt: int, from: int)
    requires Sound(s) && Picks(pick) && Orderly(ts, from) && renewedAt <= from && LastUsedSince(s, key, renewedAt)
    ensures NoRenewalBefore(s, ts, key, pick, renewedAt + REFRESH)
    decreases |ts|
  {
    if ts != [] {
      StepKeepsWellFormed(s, ts[0], pick);
      UseIsNoEarlier(s, ts[0], key, pick, renewedAt);
      RenewalsAreSpaced(Step(s, ts[0], pick), ts[1..], key, pick, renewedAt, ts[0].now);
    }
  }

  /** A restart forgets a renewal that was not saved: right after it a session is renewed exactly when the last
      successful save is a REFRESH behind. */
  lemma UnsavedRenewalIsRepeatedExactlyWhen(s: Mirrored, key: Key, at: int, works: bool, pick: set<Key> -> Key)
    requires Sound(s) && key in s.saved && at - s.saved[key].lastSeenAt < IDLE
    ensures var v := LookupVerdict(Step(s, Timed(at, Restart(true), works), pick).table, key, at);
            v.Admitted? && (v.renewed <==> at - s.saved[key].lastSeenAt >= REFRESH)
  {
  }
}
