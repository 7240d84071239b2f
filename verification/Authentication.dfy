/** Who a cookie signs in as, over every run of a panel: internal/api/api.go. */
module Authentication {
  import opened Wrappers
  import opened Sessions
  import opened Admins
  import opened Panel

  /** A request for this key whose lookup met state m is let in by the list as it is in state n: it is the session of
      this administrator. */
  ghost predicate LetIn(h: Run, m: nat, n: nat, key: Key, now: int, id: string)
    requires m < |h.states| && n < |h.states|
  {
    var v := LookupVerdict(h.states[m].sessions, key, now);
    v.Admitted? && v.record.adminId == id && Current(h.states[n].admins, v.record, h.digest)
  }

  /** Two hashes this administrator had in the loaded list are told apart by their digests. */
  ghost predicate DigestTellsApart(h: Run, id: string) {
    forall l, n :: 0 <= l < |h.states| && 0 <= n < |h.states| && SameDigest(h, id, l, n) ==>
      HashAt(h, l, id) == HashAt(h, n, id)
  }

  predicate SameDigest(h: Run, id: string, l: nat, n: nat)
    requires l < |h.states| && n < |h.states|
  {
    var g, k := HashAt(h, l, id), HashAt(h, n, id);
    g.Some? && k.Some? && h.digest(g.value) == h.digest(k.value)
  }

  lemma CurrentMeans(list: seq<Admin>, r: Record, digest: Digest)
    ensures Current(list, r, digest)
            <==> HashOf(list, r.adminId).Some? && digest(HashOf(list, r.adminId).value) == r.fingerprint
  {
  }

  lemma LookedUpRecord(m: Records, key: Key, now: int)
    requires LookupVerdict(m, key, now).Admitted?
    ensures key in m && SameSession(LookupVerdict(m, key, now).record, m[key])
  {
  }

  /** A session found alive in memory is let in exactly when the list holds the hash that was checked, or set, when the
      session's request copied its record. */
  lemma LetInExactlyWhen(h: Run, m: nat, n: nat, key: Key, now: int) returns (j: nat, i: nat)
    requires IsRun(h) && m <= n < |h.states| && LookupVerdict(h.states[m].sessions, key, now).Admitted?
    requires DigestTellsApart(h, h.states[m].sessions[key].adminId)
    ensures var id := h.states[m].sessions[key].adminId;
            && j < i < m && GivesAt(h, i, key, id) && TakesAt(h, j, h.events[i].event.c, id)
            && (LetIn(h, m, n, key, now, id) <==> HashAt(h, j + 1, id) == HashAt(h, n, id))
  {
    var r := h.states[m].sessions[key];
    j, i := SessionWasIssued(h, key, m);
    LookedUpRecord(h.states[m].sessions, key, now);
    CurrentMeans(h.states[n].admins, LookupVerdict(h.states[m].sessions, key, now).record, h.digest);
    assert SameDigest(h, r.adminId, j + 1, n) ==> HashAt(h, j + 1, r.adminId) == HashAt(h, n, r.adminId);
  }

  /** Authentication is safe over whole runs: a cookie signs in only as the administrator it was issued to, who exists,
      under a password that was right when the session's request checked it and is the loaded one now; and if anything
      revoked the session before it was looked up, no save worked from then until a restart that brought it back. */
  lemma AuthenticationIsSafe(h: Run, m: nat, n: nat, key: Key, now: int, id: string) returns (j: nat, i: nat)
    requires IsRun(h) && m <= n < |h.states| && LetIn(h, m, n, key, now, id) && DigestTellsApart(h, id)
    ensures j < i < m && GivesAt(h, i, key, id) && TakesAt(h, j, h.events[i].event.c, id)
    ensures HashAt(h, n, id).Some? && HashAt(h, j + 1, id) == HashAt(h, n, id)
    ensures forall l :: i < l < m && Revokes(h.events[l].event, key, id) ==> Undone(h, l, m)
  {
    j, i := SessionWasIssued(h, key, m);
    LookedUpRecord(h.states[m].sessions, key, now);
    CurrentMeans(h.states[n].admins, LookupVerdict(h.states[m].sessions, key, now).record, h.digest);
    assert SameDigest(h, id, j + 1, n);
  }

  // ---- hashes that come back ----

  /** Up to state n, a hash that has been replaced in the loaded list does not come back. bcrypt salts every hash, so a
      password change never brings one back; a list restored from a backup can. */
  ghost predicate HashNeverReturns(h: Run, id: string, n: nat)
    requires n < |h.states|
  {
    forall l :: 0 <= l <= n && SameHash(h, id, l, n) ==> SameThroughout(h, id, l, n)
  }

  predicate SameHash(h: Run, id: string, l: nat, n: nat)
    requires l <= n < |h.states|
  {
    HashAt(h, l, id).Some? && HashAt(h, n, id) == HashAt(h, l, id)
  }

  ghost predicate SameThroughout(h: Run, id: string, l: nat, n: nat)
    requires l <= n < |h.states|
  {
    forall k :: l <= k <= n && HashAt(h, k, id).Some? ==> HashAt(h, k, id) == HashAt(h, l, id)
  }

  /** As long as no replaced hash comes back, the password has not changed at all since the session's request checked
      it. */
  lemma PasswordUnchangedSince(h: Run, m: nat, n: nat, key: Key, now: int, id: string) returns (j: nat, i: nat)
    requires IsRun(h) && m <= n < |h.states| && LetIn(h, m, n, key, now, id)
    requires DigestTellsApart(h, id) && HashNeverReturns(h, id, n)
    ensures j < i < m && GivesAt(h, i, key, id) && TakesAt(h, j, h.events[i].event.c, id)
    ensures SameThroughout(h, id, j + 1, n)
  {
    j, i := AuthenticationIsSafe(h, m, n, key, now, id);
    assert SameHash(h, id, j + 1, n);
  }

  /** The first sign-in of a new installation. */
  function FirstSignIn(a: Admin, key: Key, victim: Key): seq<Timed> {
    [Timed(0, ListLoaded([a]), true), Timed(0, Verified(0, a.id), true), Timed(0, Issued(0, key, victim), true)]
  }

  lemma FirstSignInLeaves(h: Run, a: Admin, key: Key, victim: Key)
    requires IsRun(h) && FirstSignIn(a, key, victim) <= h.events
    ensures var m := map[key := NewRecord(a.id, a.username, h.digest(a.hash), 0)];
            h.states[3] == Panel([a], m, m, map[])
    ensures IndexOfID([a], a.id) == Some(0)
  {
    assert h.events[0].event == ListLoaded([a]) && h.events[1].event == Verified(0, a.id);
    assert h.events[2] == Timed(0, Issued(0, key, victim), true);
    assert Follows(h, 0);
    assert h.states[1] == Panel([a], map[], map[], map[]);
    assert Follows(h, 1);
    assert h.states[2] == Panel([a], map[], map[], map[0 := a]);
    assert Follows(h, 2);
  }

  /** Without that it can have changed: restoring an earlier list revives a session that the list in between refused. */
  lemma RestoredListRevivesASession(h: Run, a: Admin, hash: Hash, key: Key, victim: Key)
    requires IsRun(h) && h.digest(hash) != h.digest(a.hash)
    requires h.events == FirstSignIn(a, key, victim)
                         + [Timed(0, ListLoaded([a.(hash := hash)]), true), Timed(0, ListLoaded([a]), true)]
    ensures !LetIn(h, 4, 4, key, 0, a.id) && LetIn(h, 5, 5, key, 0, a.id)
  {
    FirstSignInLeaves(h, a, key, victim);
    assert h.events[3].event == ListLoaded([a.(hash := hash)]) && h.events[4].event == ListLoaded([a]);
    assert Follows(h, 3) && Follows(h, 4);
    assert IndexOfID([a.(hash := hash)], a.id) == Some(0);
  }

  // ---- what restarts bring back ----

  /** Event r is the first restart after event l, and nobody is issued the key in between. */
  ghost predicate FirstRestart(h: Run, l: nat, r: nat, key: Key) {
    && l < r && Happens(h, r) && h.events[r].event.Restart?
    && forall q :: l < q < r ==>
       !h.events[q].event.Restart? && !(h.events[q].event.Issued? && h.events[q].event.key == key)
  }

  /** The session is out of memory, and on disk only as long as nothing has been saved. */
  ghost predicate Away(p: Panel, key: Key, was: Records, quiet: bool) {
    key !in p.sessions && if quiet then p.saved == was else key !in p.saved
  }

  lemma StaysGone(p: Panel, t: Timed, digest: Digest, key: Key)
    requires key !in p.sessions && !t.event.Restart? && !(t.event.Issued? && t.event.key == key)
    ensures key !in SessionsAfter(p, t, digest)
  {
  }

  lemma SavedOneMore(h: Run, l: nat, n: nat)
    requires l <= n
    ensures NothingSaved(h, l, n + 1) == (NothingSaved(h, l, n) && !SavesAt(h, n))
  {
  }

  /** Up to that restart a session that event l took out of memory stays out, and it leaves the disk with the first save
      that works. */
  lemma {:induction false} GoneUntilRestart(h: Run, l: nat, r: nat, key: Key, n: nat)
    requires IsRun(h) && FirstRestart(h, l, r, key) && l <= n < r && key !in h.states[l + 1].sessions
    ensures Away(h.states[n + 1], key, h.states[l].saved, NothingSaved(h, l, n + 1))
    decreases n
  {
    SessionsAt(h, n);
    SavedOneMore(h, l, n);
    if n > l {
      GoneUntilRestart(h, l, r, key, n - 1);
      StaysGone(h.states[n], h.events[n], h.digest, key);
    }
  }

  /** A row that a restart at this time restores. */
  predicate Restorable(saved: Records, key: Key, now: int) {
    key in saved && now < saved[key].expiresAt && saved[key].adminId != ""
  }

  lemma RestartRestores(p: Panel, t: Timed, digest: Digest, key: Key)
    requires t.event.Restart?
    ensures key in SessionsAfter(p, t, digest) <==> t.event.readable && Restorable(p.saved, key, t.now)
  {
  }

  /** Signing out, or whatever else took a session out of memory, is undone by the next restart exactly when no save has
      worked since and the session is still on disk, unexpired. */
  lemma RevokedSessionReturnsExactlyWhen(h: Run, l: nat, r: nat, key: Key)
    requires IsRun(h) && FirstRestart(h, l, r, key) && key !in h.states[l + 1].sessions
    ensures key in h.states[r + 1].sessions <==>
            && h.events[r].event.readable && NothingSaved(h, l, r)
            && Restorable(h.states[l].saved, key, h.events[r].now)
  {
    GoneUntilRestart(h, l, r, key, r - 1);
    SessionsAt(h, r);
    RestartRestores(h.states[r], h.events[r], h.digest, key);
  }

  lemma RestartAfterLogout(p: Panel, key: Key, r: Record, works: bool, digest: Digest)
    requires p.sessions == p.saved == map[key := r] && r.expiresAt > 0 && r.adminId != ""
    ensures var out := Step(p, Timed(0, Deleted(key), works), digest);
            var again := Step(out, Timed(0, Restart(true), true), digest);
            && out.admins == again.admins == p.admins && out.sessions == map[]
            && again.sessions == if works then map[] else map[key := r.(username := "")]
  {
    assert map[key := r] - {key} == map[];
  }

  /** A sign-out whose save fails: until a restart the cookie is refused, and after it the cookie is good again. */
  lemma FailedLogoutIsUndone(h: Run, a: Admin, key: Key, victim: Key, works: bool)
    requires IsRun(h) && a.id != ""
    requires h.events == FirstSignIn(a, key, victim) + [Timed(0, Deleted(key), works), Timed(0, Restart(true), true)]
    ensures !LetIn(h, 4, 4, key, 0, a.id)
    ensures LetIn(h, 5, 5, key, 0, a.id) <==> !works
  {
    FirstSignInLeaves(h, a, key, victim);
    assert h.events[3] == Timed(0, Deleted(key), works) && h.events[4] == Timed(0, Restart(true), true);
    RestartAfterLogout(h.states[3], key, NewRecord(a.id, a.username, h.digest(a.hash), 0), works, h.digest);
    assert Follows(h, 3) && Follows(h, 4);
  }
}
