/** The session table of internal/session/session.go and its mirror on disk. Instants are nanoseconds. */
module Sessions {
  import opened Wrappers
  import opened Hex

  const HOUR := 3_600_000_000_000
  const IDLE := 10 * 24 * HOUR
  const REFRESH := HOUR
  const MAX_SESSIONS: nat := 4096

  type Key = k: seq<byte> | |k| == 32 witness seq(32, _ => 0)
  type Fingerprint = f: seq<byte> | |f| == 8 witness seq(8, _ => 0)

  datatype Record = Record(
    adminId: string, username: string, fingerprint: Fingerprint,
    createdAt: int, lastSeenAt: int, expiresAt: int)

  datatype PersistedSession = PersistedSession(
    hash: string, adminId: string, fingerprint: string,
    createdAt: int, lastSeenAt: int, expiresAt: int)

  type Records = map<Key, Record>

  // ---- one step of each operation, on values ----

  function NewRecord(adminId: string, username: string, fingerprint: Fingerprint, now: int): Record {
    Record(adminId, username, fingerprint, now, now, now + IDLE)
  }

  /** The least recently used keys; eviction drops one of them. */
  function OldestKeys(m: Records): set<Key> {
    set k | k in m && forall j :: j in m ==> m[k].lastSeenAt <= m[j].lastSeenAt
  }

  function AfterIssue(m: Records, key: Key, rec: Record, victim: Key): Records {
    if |m| >= MAX_SESSIONS then (m - {victim})[key := rec] else m[key := rec]
  }

  function Slide(r: Record, now: int): Record {
    if now - r.lastSeenAt >= REFRESH then r.(lastSeenAt := now, expiresAt := now + IDLE) else r
  }

  datatype Verdict = Refused | Admitted(record: Record, renewed: bool)

  function LookupVerdict(m: Records, key: Key, now: int): Verdict {
    if key !in m || now >= m[key].expiresAt then Refused
    else Admitted(Slide(m[key], now), now - m[key].lastSeenAt >= REFRESH)
  }

  function AfterLookup(m: Records, key: Key, now: int): Records {
    if key !in m then m
    else if now >= m[key].expiresAt then m - {key}
    else m[key := Slide(m[key], now)]
  }

  function AfterDeleteAdmin(m: Records, adminId: string): Records {
    map k | k in m && m[k].adminId != adminId :: m[k]
  }

  function AfterSweep(m: Records, now: int): Records {
    map k | k in m && now < m[k].expiresAt :: m[k]
  }

  /** A table with some keys still to look at, and the rest kept or gone. */
  function StillThere(m: Records, rest: set<Key>, gone: Record -> bool): Records {
    map k | k in m && (k in rest || !gone(m[k])) :: m[k]
  }

  lemma LookedAtOneMore(m: Records, rest: set<Key>, gone: Record -> bool, k: Key)
    requires k in rest && rest <= m.Keys
    ensures StillThere(m, rest - {k}, gone)
         == if gone(m[k]) then StillThere(m, rest, gone) - {k} else StillThere(m, rest, gone)
  {
  }

  // ---- the mirror on disk ----

  function Row(key: Key, r: Record): PersistedSession {
    PersistedSession(Encode(key), r.adminId, Encode(r.fingerprint), r.createdAt, r.lastSeenAt, r.expiresAt)
  }

  /** What New makes of one row: nothing for a malformed, expired or ownerless one. */
  function RestoreRow(p: PersistedSession, now: int): Option<(Key, Record)> {
    match (Decode(p.hash), Decode(p.fingerprint))
    case (Some(key), Some(fp)) =>
      if |key| == 32 && now < p.expiresAt && |fp| == 8 && p.adminId != ""
      then Some((key, Record(p.adminId, "", fp, p.createdAt, p.lastSeenAt, p.expiresAt)))
      else None
    case _ => None
  }

  function Restore(rows: seq<PersistedSession>, now: int): Records {
    if rows == [] then map[]
    else
      var before := Restore(rows[..|rows| - 1], now);
      match RestoreRow(rows[|rows| - 1], now)
      case None => before
      case Some((key, rec)) => before[key := rec]
  }

  /** What a restart at that time leaves of a table: the live records, without the name filled in at login. */
  function LiveStored(m: Records, now: int): Records {
    map k | k in m && now < m[k].expiresAt && m[k].adminId != "" :: m[k].(username := "")
  }

  function RowsOf(m: Records, keys: seq<Key>): seq<PersistedSession>
    requires forall k :: k in keys ==> k in m
  {
    seq(|keys|, i requires 0 <= i < |keys| => Row(keys[i], m[keys[i]]))
  }

  /** The rows are the records of the table, once each, in some order. */
  ghost predicate Mirrors(rows: seq<PersistedSession>, m: Records) {
    exists keys: seq<Key> ::
      && (forall k :: k in keys <==> k in m)
      && (forall i, j :: 0 <= i < j < |keys| ==> keys[i] != keys[j])
      && rows == RowsOf(m, keys)
  }

  lemma RowComesBack(key: Key, r: Record, now: int)
    ensures RestoreRow(Row(key, r), now) ==
            if now < r.expiresAt && r.adminId != "" then Some((key, r.(username := ""))) else None
  {
    DecodeEncoded(key);
    DecodeEncoded(r.fingerprint);
  }

  /** LiveStored of the records under these keys. */
  function LiveAmong(m: Records, keys: seq<Key>, now: int): Records
    requires forall k :: k in keys ==> k in m
  {
    map k | k in keys && now < m[k].expiresAt && m[k].adminId != "" :: m[k].(username := "")
  }

  lemma LiveAmongLonger(m: Records, keys: seq<Key>, k: Key, now: int)
    requires k in m && forall j :: j in keys ==> j in m
    ensures LiveAmong(m, keys + [k], now)
         == if now < m[k].expiresAt && m[k].adminId != "" then LiveAmong(m, keys, now)[k := m[k].(username := "")]
            else LiveAmong(m, keys, now)
  {
  }

  lemma RowsOfLonger(m: Records, keys: seq<Key>, k: Key)
    requires k in m && forall j :: j in keys ==> j in m
    ensures RowsOf(m, keys + [k]) == RowsOf(m, keys) + [Row(k, m[k])]
  {
  }

  lemma RestoreOneMore(rows: seq<PersistedSession>, key: Key, r: Record, now: int)
    ensures Restore(rows + [Row(key, r)], now)
         == if now < r.expiresAt && r.adminId != "" then Restore(rows, now)[key := r.(username := "")]
           else Restore(rows, now)
  {
    assert (rows + [Row(key, r)])[..|rows|] == rows;
    RowComesBack(key, r, now);
  }

  lemma {:induction false} RestoreRowsOf(m: Records, keys: seq<Key>, now: int)
    requires forall k :: k in keys ==> k in m
    ensures Restore(RowsOf(m, keys), now) == LiveAmong(m, keys, now)
  {
    if keys != [] {
      var init, last := keys[..|keys| - 1], keys[|keys| - 1];
      assert keys == init + [last];
      RestoreRowsOf(m, init, now);
      RowsOfLonger(m, init, last);
      RestoreOneMore(RowsOf(m, init), last, m[last], now);
      LiveAmongLonger(m, init, last, now);
    }
  }

  /** Save then restore, at any later time, gives back exactly the live records. */
  lemma RestartRestoresLive(rows: seq<PersistedSession>, m: Records, now: int)
    requires Mirrors(rows, m)
    ensures Restore(rows, now) == LiveStored(m, now)
  {
    var keys: seq<Key> :| (forall k :: k in keys <==> k in m) && rows == RowsOf(m, keys);
    RestoreRowsOf(m, keys, now);
  }

  /** The rows are what a table saved some time ago left on disk: a restart, whenever it comes, restores that. */
  ghost predicate Backs(rows: seq<PersistedSession>, saved: Records) {
    forall now {:trigger Restore(rows, now)} :: Restore(rows, now) == LiveStored(saved, now)
  }

  lemma MirrorBacks(rows: seq<PersistedSession>, m: Records)
    requires Mirrors(rows, m)
    ensures Backs(rows, m)
  {
    forall now
      ensures Restore(rows, now) == LiveStored(m, now)
    {
      RestartRestoresLive(rows, m, now);
    }
  }

  /** The table. A persistent one mirrors every change to disk; a write that fails leaves the old rows. */
  class Table {
    var byID: Records
    var disk: seq<PersistedSession>
    const persistent: bool
    const digest: string -> Key

    /** New: restores whatever the disk holds, or nothing when it cannot be read. */
    constructor (persistent: bool, rows: seq<PersistedSession>, readable: bool, digest: string -> Key, now: int)
      ensures this.persistent == persistent && this.digest == digest && disk == rows
      ensures byID == if persistent && readable then Restore(rows, now) else map[]
    {
      this.persistent, this.digest := persistent, digest;
      byID, disk := map[], rows;
      new;
      if persistent && readable {
        assert rows[..0] == [];
        for i := 0 to |rows|
          invariant byID == Restore(rows[..i], now) && disk == rows
        {
          assert rows[..i + 1][..i] == rows[..i];
          var restored := RestoreRow(rows[i], now);
          if restored.Some? {
            byID := byID[restored.value.0 := restored.value.1];
          }
        }
        assert rows[..|rows|] == rows;
      }
    }

    /** The rows after a change that had to be flushed. */
    ghost predicate Flushed(before: seq<PersistedSession>, works: bool)
      reads this
    {
      if persistent && works then Mirrors(disk, byID) else disk == before
    }

    method Flush(works: bool)
      modifies this`disk
      ensures Flushed(old(disk), works)
    {
      if !persistent {
        return;
      }
      var keys: seq<Key> := [];
      var rest := byID.Keys;
      while rest != {}
        invariant rest <= byID.Keys
        invariant forall k :: k in keys <==> k in byID && k !in rest
        invariant forall i, j :: 0 <= i < j < |keys| ==> keys[i] != keys[j]
        decreases rest
      {
        var key :| key in rest;
        keys, rest := keys + [key], rest - {key};
      }
      if works {
        disk := RowsOf(byID, keys);
      }
    }

    /** Mints a session for a fresh id. No entropy, no session. */
    method Issue(adminId: string, username: string, fingerprint: Fingerprint, now: int, id: Option<string>, works: bool)
      returns (r: Option<Record>, ghost victim: Key)
      modifies this
      ensures id.None? ==> r.None? && byID == old(byID) && disk == old(disk)
      ensures id.Some? ==> r == Some(NewRecord(adminId, username, fingerprint, now))
      ensures |old(byID)| >= MAX_SESSIONS ==> victim in OldestKeys(old(byID))
      ensures id.Some? ==> byID == AfterIssue(old(byID), digest(id.value), r.value, victim) && Flushed(old(disk), works)
    {
      victim := seq(32, _ => 0);
      if |byID| >= MAX_SESSIONS {
        victim := OldestExists(byID);
      }
      if id.None? {
        return None, victim;
      }
      var rec := NewRecord(adminId, username, fingerprint, now);
      if |byID| >= MAX_SESSIONS {
        victim := EvictOldest();
      }
      byID := byID[digest(id.value) := rec];
      Flush(works);
      r := Some(rec);
    }

    /** Drops the least recently used record, whatever order the map is walked in. */
    method EvictOldest() returns (victim: Key)
      requires byID != map[]
      modifies this`byID
      ensures victim in OldestKeys(old(byID)) && byID == old(byID) - {victim}
    {
      var rest := byID.Keys;
      victim :| victim in rest;
      rest := rest - {victim};
      while rest != {}
        invariant rest <= byID.Keys && victim in byID
        invariant forall k :: k in byID && k !in rest ==> byID[victim].lastSeenAt <= byID[k].lastSeenAt
        decreases rest
      {
        var k :| k in rest;
        rest := rest - {k};
        if byID[k].lastSeenAt < byID[victim].lastSeenAt {
          victim := k;
        }
      }
      byID := byID - {victim};
    }

    /** Resolves a cookie, sliding its expiry at most once per REFRESH. The empty cookie names no session. */
    method Lookup(id: string, now: int, works: bool) returns (v: Verdict)
      modifies this
      ensures v == if id == "" then Refused else LookupVerdict(old(byID), digest(id), now)
      ensures byID == if id == "" then old(byID) else AfterLookup(old(byID), digest(id), now)
      ensures if byID == old(byID) then disk == old(disk) else Flushed(old(disk), works)
    {
      if id == "" {
        return Refused;
      }
      var key := digest(id);
      if key !in byID {
        return Refused;
      }
      var r := byID[key];
      if !(now < r.expiresAt) {
        byID := byID - {key};
        Flush(works);
        return Refused;
      }
      var renewed := false;
      if now - r.lastSeenAt >= REFRESH {
        r := r.(lastSeenAt := now, expiresAt := now + IDLE);
        byID := byID[key := r];
        renewed := true;
        Flush(works);
      }
      v := Admitted(r, renewed);
    }

    method Delete(id: string, works: bool)
      modifies this
      ensures byID == if id == "" then old(byID) else old(byID) - {digest(id)}
      ensures if byID == old(byID) then disk == old(disk) else Flushed(old(disk), works)
    {
      if id == "" {
        return;
      }
      if digest(id) in byID {
        byID := byID - {digest(id)};
        Flush(works);
      }
    }

    method DeleteAdmin(adminId: string, works: bool) returns (n: nat)
      modifies this
      ensures byID == AfterDeleteAdmin(old(byID), adminId)
      ensures n + |byID| == |old(byID)|
      ensures if byID == old(byID) then disk == old(disk) else Flushed(old(disk), works)
    {
      n := 0;
      var rest := byID.Keys;
      ghost var gone := (r: Record) => r.adminId == adminId;
      while rest != {}
        invariant rest <= byID.Keys && byID == StillThere(old(byID), rest, gone)
        invariant n + |byID| == |old(byID)| && disk == old(disk)
        invariant n == 0 ==> byID == old(byID)
        decreases rest
      {
        var k :| k in rest;
        LookedAtOneMore(old(byID), rest, gone, k);
        rest := rest - {k};
        if byID[k].adminId == adminId {
          byID := byID - {k};
          n := n + 1;
        }
      }
      if n > 0 {
        Flush(works);
      }
    }

    method Sweep(now: int, works: bool) returns (n: nat)
      modifies this
      ensures byID == AfterSweep(old(byID), now)
      ensures n + |byID| == |old(byID)|
      ensures if byID == old(byID) then disk == old(disk) else Flushed(old(disk), works)
    {
      n := 0;
      var rest := byID.Keys;
      ghost var gone := (r: Record) => !(now < r.expiresAt);
      while rest != {}
        invariant rest <= byID.Keys && byID == StillThere(old(byID), rest, gone)
        invariant n + |byID| == |old(byID)| && disk == old(disk)
        invariant n == 0 ==> byID == old(byID)
        decreases rest
      {
        var k :| k in rest;
        LookedAtOneMore(old(byID), rest, gone, k);
        rest := rest - {k};
        if !(now < byID[k].expiresAt) {
          byID := byID - {k};
          n := n + 1;
        }
      }
      if n > 0 {
        Flush(works);
      }
    }
  }

  lemma {:induction false} OldestExists(m: Records) returns (k: Key)
    requires m != map[]
    ensures k in OldestKeys(m)
    decreases |m|
  {
    assert m.Keys != {};
    var x :| x in m;
    var rest := m - {x};
    if rest == map[] {
      assert forall j :: j in m && j != x ==> j in rest;
      k := x;
    } else {
      assert |rest| < |m|;
      var y := OldestExists(rest);
      assert forall j :: j in m && j != x ==> j in rest;
      k := if m[x].lastSeenAt < m[y].lastSeenAt then x else y;
    }
  }
}
