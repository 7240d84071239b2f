/** What a change of an administrator's password, or of anything else about them, does to their sessions:
    internal/api/account.go and internal/api/api.go. */
module PasswordChanges {
  import opened Wrappers
  import opened Sessions
  import opened Admins
  import opened Panel
  import opened Authentication
  import SR = SessionRuns

  /** Event s saves a hash this administrator never had before, and request c takes the new record. */
  ghost predicate Changes(h: Run, s: nat, c: nat, id: string, hash: Hash) {
    && TakesAt(h, s, c, id) && h.events[s].event.HashSaved? && h.events[s].event.hash == hash
    && forall l :: 0 <= l <= s && l < |h.states| ==> HashAt(h, l, id) != Some(hash)
  }

  /** While the list holds the new hash, every session let in was issued for a password checked no earlier than the
      change: a sign-in under way during the change, or a session that a restart brings back, is worth nothing. */
  lemma PasswordChangeEndsEarlierSignIns(
    h: Run, s: nat, c: nat, id: string, hash: Hash, m: nat, n: nat, key: Key, now: int) returns (j: nat, i: nat)
    requires IsRun(h) && m <= n < |h.states| && Changes(h, s, c, id, hash) && HashAt(h, n, id) == Some(hash)
    requires LetIn(h, m, n, key, now, id) && DigestTellsApart(h, id)
    ensures s <= j < i < m && GivesAt(h, i, key, id) && TakesAt(h, j, h.events[i].event.c, id)
  {
    j, i := AuthenticationIsSafe(h, m, n, key, now, id);
  }

  /** Nobody else's request copies this administrator's record after event s. */
  ghost predicate NoOtherCopies(h: Run, s: nat, id: string) {
    forall l :: s < l < |h.events| ==> !Copies(h.events[l].event, id)
  }

  predicate Copies(e: Event, id: string) {
    (e.Verified? || e.HashSaved?) && e.adminId == id
  }

  /** The copy that request c holds of this administrator's record is the one that event s took. */
  lemma CopyIsTheChangedRecord(h: Run, s: nat, c: nat, id: string, hash: Hash, n: nat)
    requires IsRun(h) && Changes(h, s, c, id, hash) && NoOtherCopies(h, s, id) && s < n < |h.states|
    requires c in h.states[n].inHand && h.states[n].inHand[c].id == id
    ensures h.states[n].inHand[c].hash == hash && Holds(h, c, h.states[n].inHand[c], s, n)
  {
    var a := h.states[n].inHand[c];
    var j := CopyWasTaken(h, c, n);
    assert j < s ==> InHand(h.states[s], c, a);
    assert j > s ==> Copies(h.events[j].event, id);
    assert Follows(h, s) && InHand(h.states[s + 1], c, a);
    CopyIsTheLoadedRecord(h.states[s], h.events[s], h.digest, c, id);
  }

  lemma GivenIsGone(p: Panel, t: Timed, digest: Digest)
    requires t.event.Issued?
    ensures t.event.c !in Step(p, t, digest).inHand
  {
  }

  /** A copy is good for one session. */
  lemma IssuedOnce(h: Run, s: nat, c: nat, id: string, hash: Hash, e: nat, key: Key, i: nat, other: Key)
    requires IsRun(h) && Changes(h, s, c, id, hash) && NoOtherCopies(h, s, id) && s < e && s < i
    requires GivesAt(h, e, key, id) && h.events[e].event.c == c
    requires GivesAt(h, i, other, id) && h.events[i].event.c == c
    ensures i == e && other == key
  {
    CopyIsTheChangedRecord(h, s, c, id, hash, e);
    CopyIsTheChangedRecord(h, s, c, id, hash, i);
    var k := if e < i then e else i;
    assert e < i ==> InHand(h.states[e + 1], c, h.states[i].inHand[c]);
    assert i < e ==> InHand(h.states[i + 1], c, h.states[e].inHand[c]);
    assert Follows(h, k);
    GivenIsGone(h.states[k], h.events[k], h.digest);
  }

  /** After a password change from the panel no session of that administrator is let in but the one the change issued,
      whatever else interleaves, as long as nobody has signed in with the new password. */
  lemma OnlyTheNewSessionIsLetIn(
    h: Run, s: nat, e: nat, c: nat, id: string, hash: Hash, key: Key, m: nat, n: nat, other: Key, now: int)
    requires IsRun(h) && m <= n < |h.states| && Changes(h, s, c, id, hash) && HashAt(h, n, id) == Some(hash)
    requires NoOtherCopies(h, s, id) && DigestTellsApart(h, id)
    requires s < e && GivesAt(h, e, key, id) && h.events[e].event.c == c
    requires LetIn(h, m, n, other, now, id)
    ensures other == key
  {
    var j, i := PasswordChangeEndsEarlierSignIns(h, s, c, id, hash, m, n, other, now);
    assert j > s ==> Copies(h.events[j].event, id);
    IssuedOnce(h, s, c, id, hash, e, key, i, other);
  }

  /** And that one is: whenever a lookup finds it alive, a list that holds the new hash lets it in. */
  lemma TheNewSessionIsLetIn(
    h: Run, s: nat, e: nat, c: nat, id: string, hash: Hash, key: Key, m: nat, n: nat, now: int)
    requires IsRun(h) && m <= n < |h.states| && Changes(h, s, c, id, hash) && HashAt(h, n, id) == Some(hash)
    requires NoOtherCopies(h, s, id) && s < e && GivesAt(h, e, key, id) && h.events[e].event.c == c
    requires forall l :: 0 <= l < |h.events| && h.events[l].event.Issued? && h.events[l].event.key == key ==> l == e
    requires LookupVerdict(h.states[m].sessions, key, now).Admitted?
    ensures LetIn(h, m, n, key, now, id)
  {
    var j, i := SessionWasIssued(h, key, m);
    assert i == e;
    CopyIsTheChangedRecord(h, s, c, id, hash, e);
    LookedUpRecord(h.states[m].sessions, key, now);
    CurrentMeans(h.states[n].admins, LookupVerdict(h.states[m].sessions, key, now).record, h.digest);
  }

  /** Undisturbed, the change leaves exactly one session of that administrator in the table. */
  lemma PasswordChangeLeavesOneSession(
    p: Panel, now: int, c: nat, key: Key, victim: Key, drops: bool, issues: bool, digest: Digest)
    requires c in p.inHand
    ensures var id := p.inHand[c].id;
            var dropped := Step(p, Timed(now, Dropped(id), drops), digest);
            var m := Step(dropped, Timed(now, Issued(c, key, victim), issues), digest).sessions;
            (set k | k in m && m[k].adminId == id) == {key}
  {
  }

  /** And it is good: while the list holds the hash it was issued under, a lookup with it within the idle time is let
      in. */
  lemma PasswordChangeKeepsThisTab(
    p: Panel, now: int, later: int, c: nat, key: Key, victim: Key, works: bool, list: seq<Admin>,
    digest: Digest)
    requires c in p.inHand && later < now + IDLE && HashOf(list, p.inHand[c].id) == Some(p.inHand[c].hash)
    ensures var m := Step(p, Timed(now, Issued(c, key, victim), works), digest).sessions;
            var v := AuthVerdict(list, m, key, later, digest);
            v.Admitted? && v.record.adminId == p.inHand[c].id
  {
  }

  /** A session outlives neither its administrator nor a password change made elsewhere, once the list shows it. */
  lemma ChangedElsewhereIsRefused(p: Panel, list: seq<Admin>, key: Key, now: int, digest: Digest)
    requires key in p.sessions
    requires var h := HashOf(list, p.sessions[key].adminId); h.None? || digest(h.value) != p.sessions[key].fingerprint
    ensures AuthVerdict(list, p.sessions, key, now, digest).Refused?
    ensures key !in AfterAuthenticate(list, p.sessions, key, now, digest)
  {
  }

  /** A verdict but for the name it reports. */
  function Unnamed(v: Verdict): Verdict {
    SR.Nameless(v)
  }

  lemma {:induction false} RenameKeepsHashes(list: seq<Admin>, i: nat, a: Admin, id: string)
    requires i < |list| && a.id == list[i].id && a.hash == list[i].hash
    ensures IndexOfID(list[i := a], id) == IndexOfID(list, id)
    ensures HashOf(list[i := a], id) == HashOf(list, id)
  {
    if list[0].id != id && i > 0 {
      assert list[i := a][1..] == list[1..][i - 1 := a];
      RenameKeepsHashes(list[1..], i - 1, a, id);
    } else if list[0].id != id {
      assert list[i := a][1..] == list[1..];
    }
  }

  /** A rename changes no verdict and no session; only the reported name moves. */
  lemma RenameChangesNoVerdict(
    list: seq<Admin>, id: string, username: string, at: int, m: Records, key: Key, now: int, digest: Digest)
    requires Renamed(list, id, username, at).Ok?
    ensures var list' := Renamed(list, id, username, at).value;
            && Unnamed(AuthVerdict(list', m, key, now, digest)) == Unnamed(AuthVerdict(list, m, key, now, digest))
            && AfterAuthenticate(list', m, key, now, digest) == AfterAuthenticate(list, m, key, now, digest)
  {
    var i, list' := IndexOfID(list, id).value, Renamed(list, id, username, at).value;
    if LookupVerdict(m, key, now).Admitted? {
      RenameKeepsHashes(list, i, list'[i], LookupVerdict(m, key, now).record.adminId);
      VerdictNeedsOnlyTheHash(list, list', m, key, now, digest);
    }
  }

  lemma VerdictNeedsOnlyTheHash(
    list: seq<Admin>, list': seq<Admin>, m: Records, key: Key, now: int, digest: Digest)
    requires LookupVerdict(m, key, now).Admitted?
    requires var id := LookupVerdict(m, key, now).record.adminId; HashOf(list', id) == HashOf(list, id)
    ensures Unnamed(AuthVerdict(list', m, key, now, digest)) == Unnamed(AuthVerdict(list, m, key, now, digest))
    ensures AfterAuthenticate(list', m, key, now, digest) == AfterAuthenticate(list, m, key, now, digest)
  {
  }
}
