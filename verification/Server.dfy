/** The handlers that sign administrators in and out and change their credentials: internal/api/api.go and
    internal/api/account.go. What bcrypt says of a password is a parameter. */
module Server {
  import opened Wrappers
  import opened Text
  import opened Files
  import opened Sessions
  import opened RateLimits
  import opened Admins
  import opened AdminStore
  import opened SignIns

  class Server {
    const admins: Store
    const sessions: Table
    const limiter: LoginLimiter
    const digest: P.Digest

    constructor (admins: Store, sessions: Table, limiter: LoginLimiter, digest: P.Digest)
      ensures this.admins == admins && this.sessions == sessions && this.limiter == limiter && this.digest == digest
    {
      this.admins, this.sessions, this.limiter, this.digest := admins, sessions, limiter, digest;
    }

    /** Resolves a cookie against the list as it is after the throttled reload. */
    method Authenticate(cookie: string, now: int, works: bool) returns (v: Verdict)
      modifies admins, sessions
      ensures old(admins.Valid()) ==> admins.Valid()
      ensures cookie == "" ==>
              v == Refused && sessions.byID == old(sessions.byID) && admins.State() == old(admins.State())
      ensures cookie != "" ==>
                admins.State() == CheckedReload(old(admins.State()), admins.OnDisk(), old(admins.lastChecked), now)
      ensures cookie != "" ==>
                var key := sessions.digest(cookie);
                && v == P.AuthVerdict(admins.list, old(sessions.byID), key, now, digest)
                && sessions.byID == P.AfterAuthenticate(admins.list, old(sessions.byID), key, now, digest)
    {
      if cookie == "" {
        return Refused;
      }
      var reloaded := admins.ReloadIfChanged(now);
      v := sessions.Lookup(cookie, now, works);
      if v.Refused? {
        return;
      }
      var i := IndexOfID(admins.list, v.record.adminId);
      if i.None? || digest(admins.list[i.value].hash) != v.record.fingerprint {
        sessions.Delete(cookie, works);
        return Refused;
      }
      v := Admitted(v.record.(username := admins.list[i.value].username), v.renewed);
    }

    /** One password check behind the penalty box, which signing in keys on the name and an account change on the id. */
    method Attempt(name: string, passwordIsRight: bool, now: int) returns (r: Reply<string>)
      modifies limiter
      ensures limiter.State() == AfterAttempt(old(limiter.State()), name, now, passwordIsRight)
      ensures if Throttled(old(limiter.State()), name, now) then r.TooManyAttempts?
              else if passwordIsRight then r.Done? else r.WrongPassword?
    {
      var ok := limiter.Allow(name, now);
      if !ok {
        return TooManyAttempts;
      }
      if !passwordIsRight {
        limiter.Fail(name, now);
        return WrongPassword;
      }
      limiter.Succeed(name);
      r := Done(name);
    }

    /** A session under the administrator's current hash, unless there is no entropy for its id. */
    method StartSession(a: Admin, now: int, id: Option<string>, works: bool) returns (r: Reply<string>)
      modifies sessions
      ensures id.None? ==> r.NoSession? && sessions.byID == old(sessions.byID)
      ensures id.Some? ==>
                && r == Done(id.value)
                && Started(old(sessions.byID), sessions.byID, sessions.digest(id.value), a, now, digest)
    {
      var issued, victim := sessions.Issue(a.id, a.username, digest(a.hash), now, id, works);
      r := if issued.None? then NoSession else Done(id.value);
    }

    method SignIn(
      username: string, known: Option<nat>, passwordIsRight: bool, now: int, id: Option<string>, works: bool)
      returns (r: Reply<string>)
      requires known.Some? ==> known.value < |admins.list|
      modifies sessions, limiter
      ensures SignedIn(r, username, Found(admins.list, known), passwordIsRight, now, id,
                       old(limiter.State()), limiter.State(), old(sessions.byID), sessions.byID,
                       sessions.digest, digest)
    {
      r := Attempt(username, known.Some? && passwordIsRight, now);
      if r.Done? {
        r := StartSession(admins.list[known.value], now, id, works);
      }
    }

    /** A right password earns a session for that administrator and clears the penalty box; a wrong one, or an unknown
        name, is charged to it and changes no session. */
    method Login(name: string, passwordIsRight: bool, now: int, id: Option<string>, works: bool)
      returns (r: Reply<string>)
      modifies sessions, limiter
      ensures SignedIn(r, Trim(name), Found(admins.list, IndexOf(admins.list, Normalize(Trim(name)))),
                       passwordIsRight, now, id,
                       old(limiter.State()), limiter.State(), old(sessions.byID), sessions.byID,
                       sessions.digest, digest)
    {
      var known := IndexOf(admins.list, Normalize(Trim(name)));
      r := SignIn(Trim(name), known, passwordIsRight, now, id, works);
    }

    method Logout(cookie: Option<string>, works: bool)
      modifies sessions
      ensures sessions.byID == if cookie.None? || cookie.value == "" then old(sessions.byID)
                               else old(sessions.byID) - {sessions.digest(cookie.value)}
    {
      if cookie.Some? {
        sessions.Delete(cookie.value, works);
      }
    }

    /** The caller against a freshly read list: nobody writes over a list that could not be read. */
    method CurrentAdmin(adminId: string) returns (r: Reply<nat>)
      modifies admins
      ensures old(admins.Valid()) ==> admins.Valid()
      ensures LoadOf(admins.file.content).None? ==> r.Unreadable? && admins.State() == old(admins.State())
      ensures LoadOf(admins.file.content).Some? ==>
                && admins.State() == Reloaded(old(admins.State()), admins.OnDisk())
                && r == (match IndexOfID(admins.list, adminId) case None => NotAuthenticated case Some(i) => Done(i))
      ensures LoadOf(admins.file.content).Some? ==>
                admins.loaded == admins.file.Stat() && admins.list == LoadOf(admins.file.content).value.list
      ensures admins.file.content.Missing? ==> r.NotAuthenticated? && admins.list == []
    {
      var readable := admins.Load();
      if !readable {
        return Unreadable;
      }
      var i := IndexOfID(admins.list, adminId);
      if i.None? {
        return NotAuthenticated;
      }
      r := Done(i.value);
    }

    /** What the account requests need of that. */
    method FindAdmin(adminId: string) returns (refused: Option<Reply<string>>)
      modifies admins
      ensures old(admins.Valid()) ==> admins.Valid()
      ensures refused == WhyNotFound(admins.file.content, adminId)
      ensures refused.None? ==>
                admins.loaded == admins.file.Stat() && admins.list == LoadOf(admins.file.content).value.list
    {
      var current := CurrentAdmin(adminId);
      refused := if current.Done? then None
                 else if current.Unreadable? then Some(Unreadable) else Some(NotAuthenticated);
    }

    /** Drops every session of an administrator, then starts one. */
    method ReplaceSessions(a: Admin, now: int, id: Option<string>, works: bool) returns (r: Reply<string>)
      modifies sessions
      ensures id.None? ==> r.NoSession? && sessions.byID == AfterDeleteAdmin(old(sessions.byID), a.id)
      ensures id.Some? ==>
                && r == Done(id.value)
                && Started(AfterDeleteAdmin(old(sessions.byID), a.id), sessions.byID, sessions.digest(id.value),
                           a, now, digest)
    {
      var n := sessions.DeleteAdmin(a.id, works);
      r := StartSession(a, now, id, works);
    }

    /** Memory and file hold this list with the new hash. */
    ghost predicate HashIsSaved(was: seq<Admin>, adminId: string, hash: Option<string>, now: int)
      reads this, admins, admins.file
    {
      && hash.Some? && IndexOfID(admins.list, adminId).Some?
      && P.HashOf(admins.list, adminId) == Some(Bcrypt(hash.value))
      && admins.file.content == Holds(Doc(ADMINS_VERSION, admins.list))
      && Ok(admins.list) == Edited(was, SetPasswordByID(adminId, hash, now))
    }

    /** Writes the new hash to the list just read. */
    method SaveHash(adminId: string, hash: Option<string>, now: int, saves: bool) returns (refused: Option<StoreError>)
      requires admins.loaded == admins.file.Stat()
      modifies admins, admins.file
      ensures old(admins.Valid()) ==> admins.Valid()
      ensures var edited := Edited(old(admins.list), SetPasswordByID(adminId, hash, now));
              && refused == SaveRefusal(edited, saves)
              && if refused.Some? then admins.OnDisk() == old(admins.OnDisk())
                 else edited == Ok(admins.list)
                      && admins.file.content == Holds(Doc(ADMINS_VERSION, admins.list))
                      && IndexOfID(admins.list, adminId).Some?
    {
      ghost var p, d := admins.State(), admins.OnDisk();
      refused := admins.ChangePasswordByID(adminId, hash, now, saves);
      SavedList(p, d, SetPasswordByID(adminId, hash, now), saves);
      if refused.None? {
        ChangedHash(p.list, adminId, hash, now);
      }
    }

    /** Saves the new hash, then replaces the administrator's sessions by one under it. */
    method Rekey(adminId: string, hash: Option<string>, now: int, id: Option<string>, saves: bool, works: bool)
      returns (r: Reply<string>)
      requires admins.loaded == admins.file.Stat()
      modifies admins, admins.file, sessions
      ensures old(admins.Valid()) ==> admins.Valid()
      ensures Rekeyed(r, Edited(old(admins.list), SetPasswordByID(adminId, hash, now)), admins.list,
                      old(admins.OnDisk()), admins.OnDisk(), adminId, now, saves, id,
                      old(sessions.byID), sessions.byID, sessions.digest, digest)
    {
      var refused := SaveHash(adminId, hash, now, saves);
      if refused.Some? {
        return Refused'(refused.value);
      }
      r := ReplaceSessions(admins.list[IndexOfID(admins.list, adminId).value], now, id, works);
    }

    /** A password change once the administrator has been found. */
    method CheckAndRekey(
      adminId: string, passwordIsRight: bool, hash: Option<string>, now: int, id: Option<string>, saves: bool,
      works: bool)
      returns (r: Reply<string>)
      requires admins.loaded == admins.file.Stat()
      modifies admins, admins.file, sessions, limiter
      ensures old(admins.Valid()) ==> admins.Valid()
      ensures PasswordChange(r, old(admins.list), admins.list, old(admins.OnDisk()), admins.OnDisk(), adminId,
                             passwordIsRight, hash, now, saves, id, old(limiter.State()), limiter.State(),
                             old(sessions.byID), sessions.byID, sessions.digest, digest)
    {
      r := Attempt(adminId, passwordIsRight, now);
      if r.Done? {
        r := Rekey(adminId, hash, now, id, saves, works);
      }
    }

    /** Signs the administrator out everywhere and this tab in again, or leaves every session as it was. */
    method ChangePassword(
      adminId: string, passwordIsRight: bool, hash: Option<string>, now: int, id: Option<string>, saves: bool,
      works: bool)
      returns (r: Reply<string>)
      modifies admins, admins.file, sessions, limiter
      ensures old(admins.Valid()) ==> admins.Valid()
      ensures var missing := WhyNotFound(old(admins.file.content), adminId);
              if missing.Some? then
                && r == missing.value && admins.OnDisk() == old(admins.OnDisk())
                && limiter.State() == old(limiter.State()) && sessions.byID == old(sessions.byID)
              else
                PasswordChange(r, LoadOf(old(admins.file.content)).value.list, admins.list, old(admins.OnDisk()),
                               admins.OnDisk(), adminId, passwordIsRight, hash, now, saves, id, old(limiter.State()),
                               limiter.State(), old(sessions.byID), sessions.byID, sessions.digest, digest)
    {
      var missing := FindAdmin(adminId);
      if missing.Some? {
        return missing.value;
      }
      r := CheckAndRekey(adminId, passwordIsRight, hash, now, id, saves, works);
    }

    /** Writes the new name to the list just read. */
    method SaveName(adminId: string, username: string, now: int, saves: bool) returns (refused: Option<StoreError>)
      requires admins.loaded == admins.file.Stat()
      modifies admins, admins.file
      ensures old(admins.Valid()) ==> admins.Valid()
      ensures refused.None? ==>
                && admins.file.content == Holds(Doc(ADMINS_VERSION, admins.list))
                && Ok(admins.list) == Renamed(old(admins.list), adminId, username, now)
      ensures refused.Some? ==> admins.OnDisk() == old(admins.OnDisk())
      ensures refused == SaveRefusal(Renamed(old(admins.list), adminId, username, now), saves)
    {
      ghost var p, d := admins.State(), admins.OnDisk();
      refused := admins.ChangeUsername(adminId, username, now, saves);
      SavedList(p, d, SetUsername(adminId, username, now), saves);
      EditIsRename(p.list, SetUsername(adminId, username, now));
    }

    /** No session work: the id does not move and neither does the hash. */
    method ChangeUsername(adminId: string, username: string, now: int, saves: bool) returns (r: Reply<string>)
      modifies admins, admins.file
      ensures old(admins.Valid()) ==> admins.Valid()
      ensures r.Done? ==> r.value == Trim(username)
                          && LoadOf(old(admins.file.content)).Some?
                          && Ok(admins.list)
                             == Renamed(LoadOf(old(admins.file.content)).value.list, adminId, username, now)
                          && admins.file.content == Holds(Doc(ADMINS_VERSION, admins.list))
      ensures !r.Done? ==> admins.OnDisk() == old(admins.OnDisk())
      ensures r == NameReply(old(admins.file.content), adminId, username, now, saves)
    {
      var missing := FindAdmin(adminId);
      if missing.Some? {
        return missing.value;
      }
      var refused := SaveName(adminId, username, now, saves);
      if refused.Some? {
        return Refused'(refused.value);
      }
      r := Done(Trim(username));
    }
  }
}
