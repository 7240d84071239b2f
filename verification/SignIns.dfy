/** What signing in and changing a password come to, on values: internal/api/api.go and internal/api/account.go. */
module SignIns {
  import opened Wrappers
  import opened Files
  import opened Text
  import opened Sessions
  import opened RateLimits
  import opened LimiterBounds
  import opened Admins
  import AdminStore
  import P = Panel

  datatype Reply<+T> =
    | Done(value: T) | NotAuthenticated | WrongPassword | TooManyAttempts | Unreadable | NoSession
    | Refused'(error: StoreError)

  ghost function SessionsOf(m: Records, id: string): set<Key> {
    set k | k in m && m[k].adminId == id
  }

  /** The limiter refuses an attempt under this name. */
  predicate Throttled(l: Limiter, name: string, now: int) {
    !Passes(l, LimiterKey(name), now)
  }

  function AfterAttempt(l: Limiter, name: string, now: int, right: bool): Limiter {
    AfterGuess(l, Guess(now, LimiterKey(name), right))
  }

  /** A session for this administrator was started, and a full table made room for it. */
  ghost predicate Started(before: Records, after: Records, key: Key, a: Admin, now: int, digest: P.Digest) {
    exists victim: Key ::
      && (|before| >= MAX_SESSIONS ==> victim in OldestKeys(before))
      && after == AfterIssue(before, key, NewRecord(a.id, a.username, digest(a.hash), now), victim)
  }

  function Found(list: seq<Admin>, i: Option<nat>): Option<Admin>
    requires i.Some? ==> i.value < |list|
  {
    match i
    case None => None
    case Some(k) => Some(list[k])
  }

  /** What signing in replies, and what it makes of the limiter and the sessions. */
  ghost predicate SignedIn(
    r: Reply<string>, username: string, known: Option<Admin>, passwordIsRight: bool, now: int, id: Option<string>,
    box: Limiter, boxAfter: Limiter, before: Records, after: Records, keyOf: string -> Key, digest: P.Digest)
  {
    var right := known.Some? && passwordIsRight;
    && boxAfter == AfterAttempt(box, username, now, right)
    && if Throttled(box, username, now) then r.TooManyAttempts? && after == before
       else if !right then r.WrongPassword? && after == before
       else if id.None? then r.NoSession? && after == before
       else r == Done(id.value) && Started(before, after, keyOf(id.value), known.value, now, digest)
  }

  /** Why a save right after reading is refused: for the edit, or because the write fails. */
  function SaveRefusal(edited: Result<seq<Admin>, StoreError>, works: bool): Option<StoreError> {
    if edited.Err? then Some(edited.error) else if works then None else Some(WriteFailed)
  }

  /** What saving a hash and replacing the sessions comes to, right after the list has been read: a refusal changes
      nothing; otherwise the file holds the list with the new hash, and of the administrator's sessions there is none,
      or only a new one. */
  ghost predicate Rekeyed(
    r: Reply<string>, edited: Result<seq<Admin>, StoreError>, listAfter: seq<Admin>, d: AdminStore.Disk,
    diskAfter: AdminStore.Disk, adminId: string, now: int, saves: bool, id: Option<string>, before: Records,
    after: Records, keyOf: string -> Key, digest: P.Digest)
  {
    var refused := SaveRefusal(edited, saves);
    if refused.Some? then r == Refused'(refused.value) && diskAfter == d && after == before
    else
      && edited == Ok(listAfter) && diskAfter.content == Holds(Doc(ADMINS_VERSION, listAfter))
      && IndexOfID(listAfter, adminId).Some?
      && var a := listAfter[IndexOfID(listAfter, adminId).value];
         if id.None? then r.NoSession? && after == AfterDeleteAdmin(before, adminId)
         else r == Done(id.value) && Started(AfterDeleteAdmin(before, adminId), after, keyOf(id.value), a, now, digest)
  }

  /** What a password change comes to, once the list has been read and the administrator found in it. */
  ghost predicate PasswordChange(
    r: Reply<string>, list: seq<Admin>, listAfter: seq<Admin>, d: AdminStore.Disk, diskAfter: AdminStore.Disk,
    adminId: string, passwordIsRight: bool, hash: Option<string>, now: int, saves: bool, id: Option<string>,
    box: Limiter, boxAfter: Limiter, before: Records, after: Records, keyOf: string -> Key, digest: P.Digest)
  {
    && boxAfter == AfterAttempt(box, adminId, now, passwordIsRight)
    && if Throttled(box, adminId, now) then r.TooManyAttempts? && diskAfter == d && after == before
       else if !passwordIsRight then r.WrongPassword? && diskAfter == d && after == before
       else
         Rekeyed(r, Edited(list, SetPasswordByID(adminId, hash, now)), listAfter, d, diskAfter, adminId, now, saves, id,
                 before, after, keyOf, digest)
  }

  /** After a password change that succeeds the list has the new hash, and the administrator has exactly one session,
      under its fingerprint. */
  lemma PasswordChangeLeavesOne(
    r: Reply<string>, list: seq<Admin>, listAfter: seq<Admin>, d: AdminStore.Disk, diskAfter: AdminStore.Disk,
    adminId: string, passwordIsRight: bool, hash: Option<string>, now: int, saves: bool, id: Option<string>,
    box: Limiter, boxAfter: Limiter, before: Records, after: Records, keyOf: string -> Key, digest: P.Digest)
    requires PasswordChange(r, list, listAfter, d, diskAfter, adminId, passwordIsRight, hash, now, saves, id, box,
                            boxAfter, before, after, keyOf, digest)
    requires r.Done?
    ensures hash.Some? && P.HashOf(listAfter, adminId) == Some(Bcrypt(hash.value))
    ensures id == Some(r.value) && SessionsOf(after, adminId) == {keyOf(r.value)}
    ensures after[keyOf(r.value)].fingerprint == digest(Bcrypt(hash.value))
  {
    ChangedHash(list, adminId, hash, now);
    OneSessionLeft(before, after, keyOf(r.value), listAfter[IndexOfID(listAfter, adminId).value], now, digest);
  }

  /** Why a request about an account goes no further: the list cannot be read, or the caller is not in it. */
  ghost function WhyNotFound(content: Content<Doc>, adminId: string): Option<Reply<string>> {
    match LoadOf(content)
    case None => Some(Unreadable)
    case Some(l) => if IndexOfID(l.list, adminId).None? then Some(NotAuthenticated) else None
  }

  /** What a rename replies. */
  ghost function NameReply(content: Content<Doc>, adminId: string, username: string, now: int, saves: bool)
    : Reply<string>
  {
    var missing := WhyNotFound(content, adminId);
    if missing.Some? then missing.value
    else
      var refused := SaveRefusal(Renamed(LoadOf(content).value.list, adminId, username, now), saves);
      if refused.Some? then Refused'(refused.value) else Done(Trim(username))
  }

  /** A password change is refused in the store only for the new password's length or a failed write. */
  lemma HashIsRefusedExactlyWhen(list: seq<Admin>, adminId: string, hash: Option<string>, now: int, saves: bool)
    requires IndexOfID(list, adminId).Some?
    ensures SaveRefusal(Edited(list, SetPasswordByID(adminId, hash, now)), saves)
         == if hash.None? then Some(Invalid) else if saves then None else Some(WriteFailed)
  {
  }

  lemma FreshSave(p: AdminStore.Process, d: AdminStore.Disk, req: Request, works: bool)
    requires p.loaded == AdminStore.StatOf(d) && !req.Migrate?
    ensures AdminStore.Performed(p, d, req, works).error == SaveRefusal(Edited(p.list, req), works)
  {
  }

  /** What an operation leaves in memory and file, and why it may be refused. */
  lemma SavedList(p: AdminStore.Process, d: AdminStore.Disk, req: Request, works: bool)
    requires !req.Migrate?
    ensures var o, edited := AdminStore.Performed(p, d, req, works), Edited(p.list, req);
            && (o.error.None? ==> edited == Ok(o.process.list)
                                  && o.disk.content == Holds(Doc(ADMINS_VERSION, o.process.list)))
            && (o.error.Some? ==> o.disk == d)
            && (p.loaded == AdminStore.StatOf(d) ==> o.error == SaveRefusal(edited, works))
  {
  }

  /** Starting a session once an administrator's others are gone leaves exactly the new one. */
  lemma OneSessionLeft(before: Records, after: Records, key: Key, a: Admin, now: int, digest: P.Digest)
    requires Started(AfterDeleteAdmin(before, a.id), after, key, a, now, digest)
    ensures SessionsOf(after, a.id) == {key} && after[key].fingerprint == digest(a.hash)
  {
  }

  lemma ChangedHash(list: seq<Admin>, id: string, hash: Option<string>, now: int)
    requires WithHash(list, IndexOfID(list, id), hash, now).Ok?
    ensures var list' := WithHash(list, IndexOfID(list, id), hash, now).value;
            && IndexOfID(list', id) == IndexOfID(list, id)
            && P.HashOf(list', id) == Some(Bcrypt(hash.value))
  {
    P.FirstStaysFirst(list, id, WithHash(list, IndexOfID(list, id), hash, now).value[IndexOfID(list, id).value]);
  }

  /** Once a request about an account has read the list while its file was gone, every session is refused and dropped as
      soon as it is used. */
  lemma MissingFileSignsEverybodyOut(
    p: AdminStore.Process, d: AdminStore.Disk, m: Records, key: Key, now: int, digest: P.Digest)
    requires d.content.Missing?
    ensures var list := AdminStore.Reloaded(p, d).list;
            P.AuthVerdict(list, m, key, now, digest).Refused? && key !in P.AfterAuthenticate(list, m, key, now, digest)
  {
    AdminStore.MissingFileIsReadAsEmpty(p, d, None, now);
    assert IndexOfID([], if key in m then m[key].adminId else "").None?;
  }

  /** Undisturbed, what signing in does to the sessions is two steps of the panel that the safety of authentication is
      about. */
  lemma SignInIsPanelSteps(
    p: P.Panel, after: Records, id: string, c: nat, key: Key, now: int, works: bool, digest: P.Digest)
    requires c !in p.inHand && IndexOfID(p.admins, id).Some?
    requires Started(p.sessions, after, key, p.admins[IndexOfID(p.admins, id).value], now, digest)
    ensures exists victim ::
              P.Step(P.Step(p, P.Timed(now, P.Verified(c, id), works), digest),
                     P.Timed(now, P.Issued(c, key, victim), works), digest)
              == p.(sessions := after, saved := if works then after else p.saved)
  {
    var a := p.admins[IndexOfID(p.admins, id).value];
    var victim :| after == AfterIssue(p.sessions, key, NewRecord(a.id, a.username, digest(a.hash), now), victim);
    P.SignInSteps(p, id, c, key, victim, now, works, digest);
  }

  /** And what a password change does to list and sessions is three, from the list just read to the one it saved. */
  lemma PasswordChangeIsPanelSteps(
    p: P.Panel, written: seq<Admin>, after: Records, id: string, hash: Option<string>, c: nat, key: Key, now: int,
    drops: bool, issues: bool, digest: P.Digest)
    requires c !in p.inHand && Edited(p.admins, SetPasswordByID(id, hash, now)) == Ok(written)
    requires IndexOfID(written, id).Some?
    requires Started(AfterDeleteAdmin(p.sessions, id), after, key, written[IndexOfID(written, id).value], now, digest)
    ensures exists victim ::
              var last := P.PasswordChanged(
                            p, id, Bcrypt(hash.value), WholeSeconds(now), c, key, victim, now, drops, issues, digest);
              && last.admins == written && last.sessions == after && last.inHand == p.inHand
              && (issues ==> last.saved == after)
  {
    ChangedHash(p.admins, id, hash, now);
    var a := written[IndexOfID(written, id).value];
    var rec := NewRecord(a.id, a.username, digest(a.hash), now);
    var victim :| after == AfterIssue(AfterDeleteAdmin(p.sessions, id), key, rec, victim);
    P.PasswordChangeSteps(
      p, id, Bcrypt(hash.value), WholeSeconds(now), c, key, victim, now, drops, issues, digest);
  }
}
