/** What each operation on the administrator list does, record by record, told without the functions that compute it:
    internal/store/admins.go. */
module AdminEffects {
  import opened Wrappers
  import opened Text
  import opened Lists
  import opened Files
  import opened Admins

  // ---- which record is meant ----

  /** Two usernames share a key exactly when they differ at most in surrounding white space and case. */
  lemma KeysAreNames(u: string, v: string)
    ensures Normalize(u) == Normalize(v) <==> SameName(u, v)
  {
    FoldingForgetsCase(Trim(u), Trim(v));
  }

  function HasName(username: string): Admin -> bool {
    (a: Admin) => SameName(a.username, username)
  }

  function HasId(id: string): Admin -> bool {
    (a: Admin) => a.id == id
  }

  lemma NameFindsOne(list: seq<Admin>, username: string)
    requires WellFormed(list)
    ensures Finds(list, IndexOf(list, Normalize(username)), HasName(username))
  {
    var i := IndexOf(list, Normalize(username));
    forall k | 0 <= k < |list|
      ensures HasName(username)(list[k]) <==> i == Some(k)
    {
      KeysAreNames(list[k].username, username);
      assert list[k] in list;
      if i.Some? && k != i.value {
        DistinctAt(list, KeyOf, k, i.value);
      }
    }
  }

  lemma IdFindsOne(list: seq<Admin>, id: string)
    requires WellFormed(list)
    ensures Finds(list, IndexOfID(list, id), HasId(id))
  {
    var i := IndexOfID(list, id);
    forall k | 0 <= k < |list|
      ensures HasId(id)(list[k]) <==> i == Some(k)
    {
      assert list[k] in list;
      if i.Some? && k != i.value {
        DistinctAt(list, IdOf, k, i.value);
      }
    }
  }

  // ---- deleting ----

  /** Deleting takes out the named administrator, and leaves everybody else in order. */
  lemma DeleteTakesOutTheNamed(list: seq<Admin>, username: string)
    requires WellFormed(list)
    ensures var r := Edited(list, Delete(username));
            if !Has(list, HasName(username)) then r == Err(NotFound)
            else && r == Ok(Filtered(list, HasNot(HasName(username))))
                 && (forall a :: a in r.value <==> a in list && !SameName(a.username, username))
                 && |r.value| == |list| - 1
  {
    var i := IndexOf(list, Normalize(username));
    NameFindsOne(list, username);
    FoundMeansHas(list, i, HasName(username));
    if i.Some? {
      WithoutTheFound(list, i.value, HasName(username));
    }
  }

  // ---- changing a record ----

  /** What a new hash makes of a record. */
  function Rehashes(hash: string, now: int): (Admin, Admin) -> bool {
    (a: Admin, b: Admin) =>
      && b.id == a.id && b.username == a.username && b.createdAt == a.createdAt
      && b.hash == Bcrypt(hash) && InSeconds(b.updatedAt, now)
  }

  lemma NewHashReaches(list: seq<Admin>, i: Option<nat>, hash: Option<string>, now: int, p: Admin -> bool)
    requires Finds(list, i, p)
    ensures var r := WithHash(list, i, hash, now);
            if hash.None? then r == Err(Invalid)
            else if !Has(list, p) then r == Err(NotFound)
            else r.Ok? && OnlyChanged(list, r.value, p, Rehashes(hash.value, now))
  {
    FoundMeansHas(list, i, p);
    SecondsAreWhole(now);
    if hash.Some? && i.Some? {
      var a := WithHash(list, i, hash, now).value[i.value];
      OneIsChanged(list, i.value, a, p, Rehashes(hash.value, now));
    }
  }

  /** A new password reaches the named administrator and nobody else. */
  lemma SetPasswordReachesTheNamed(list: seq<Admin>, username: string, hash: Option<string>, now: int)
    requires WellFormed(list)
    ensures var r := Edited(list, SetPassword(username, hash, now));
            if hash.None? then r == Err(Invalid)
            else if !Has(list, HasName(username)) then r == Err(NotFound)
            else r.Ok? && OnlyChanged(list, r.value, HasName(username), Rehashes(hash.value, now))
  {
    NameFindsOne(list, username);
    NewHashReaches(list, IndexOf(list, Normalize(username)), hash, now, HasName(username));
  }

  lemma SetPasswordByIDReachesTheId(list: seq<Admin>, id: string, hash: Option<string>, now: int)
    requires WellFormed(list)
    ensures var r := Edited(list, SetPasswordByID(id, hash, now));
            if hash.None? then r == Err(Invalid)
            else if !Has(list, HasId(id)) then r == Err(NotFound)
            else r.Ok? && OnlyChanged(list, r.value, HasId(id), Rehashes(hash.value, now))
  {
    IdFindsOne(list, id);
    NewHashReaches(list, IndexOfID(list, id), hash, now, HasId(id));
  }

  // ---- names ----

  /** What the panel accepts as a username. */
  predicate Acceptable(name: string) {
    1 <= |name| <= 64 && forall i :: 0 <= i < |name| ==> name[i] > ' ' && name[i] != '\U{7f}'
  }

  lemma AcceptableNames(name: string)
    ensures ValidUsername(name) <==> Acceptable(name)
  {
    if ValidUsername(name) {
      assert forall i :: 0 <= i < |name| ==> name[i] in name;
    }
  }

  lemma NameOfTrimmed(list: seq<Admin>, i: Option<nat>, username: string)
    requires Finds(list, i, HasName(Trim(username)))
    ensures Finds(list, i, HasName(username))
  {
    TrimIsIdempotent(username);
  }

  /** What a rename makes of a record. */
  function Renames(name: string, now: int): (Admin, Admin) -> bool {
    (a: Admin, b: Admin) =>
      b.id == a.id && b.hash == a.hash && b.createdAt == a.createdAt && b.username == name
        && InSeconds(b.updatedAt, now)
  }

  /** Another record than the one meant has the name. */
  function AnotherHas(id: string, username: string): Admin -> bool {
    (a: Admin) => a.id != id && SameName(a.username, username)
  }

  lemma ClashMeansTaken(list: seq<Admin>, i: nat, j: Option<nat>, id: string, username: string)
    requires Finds(list, Some(i), HasId(id)) && Finds(list, j, HasName(username))
    ensures j.Some? && j != Some(i) <==> Has(list, AnotherHas(id, username))
  {
    if j.Some? && j != Some(i) {
      assert list[j.value] in list && AnotherHas(id, username)(list[j.value]);
    }
  }

  lemma RenamedRecord(list: seq<Admin>, i: nat, id: string, name: string, now: int)
    requires Finds(list, Some(i), HasId(id))
    ensures OnlyChanged(list, WithName(list, i, name, now), HasId(id), Renames(name, now))
  {
    SecondsAreWhole(now);
    OneIsChanged(list, i, list[i].(username := name, updatedAt := WholeSeconds(now)), HasId(id), Renames(name, now));
  }

  lemma RenameIsRefused(list: seq<Admin>, id: string, username: string, now: int)
    ensures var r, name := Renamed(list, id, username, now), Trim(username);
            && (!ValidUsername(name) ==> r == Err(Invalid))
            && (ValidUsername(name) && IndexOfID(list, id).None? ==> r == Err(NotFound))
  {
  }

  lemma RenameIsDone(list: seq<Admin>, id: string, username: string, now: int)
    requires ValidUsername(Trim(username)) && IndexOfID(list, id).Some?
    ensures var name, i := Trim(username), IndexOfID(list, id);
            var j := IndexOf(list, Normalize(name));
            Renamed(list, id, username, now)
            == if j.Some? && j != i then Err(Conflict) else Ok(WithName(list, i.value, name, now))
  {
  }

  function WithName(list: seq<Admin>, i: nat, name: string, now: int): seq<Admin>
    requires i < |list|
  {
    list[i := list[i].(username := name, updatedAt := WholeSeconds(now))]
  }

  lemma RenameMeans(list: seq<Admin>, id: string, username: string, now: int)
    requires WellFormed(list)
    ensures var name, i := Trim(username), IndexOfID(list, id);
            var j := IndexOf(list, Normalize(name));
            && (i.Some? <==> Has(list, HasId(id)))
            && (i.Some? ==>
                  && (j.Some? && j != i <==> Has(list, AnotherHas(id, username)))
                  && OnlyChanged(list, WithName(list, i.value, name, now), HasId(id), Renames(name, now)))
  {
    var i, j := IndexOfID(list, id), IndexOf(list, Normalize(Trim(username)));
    IdFindsOne(list, id);
    FoundMeansHas(list, i, HasId(id));
    NameFindsOne(list, Trim(username));
    NameOfTrimmed(list, j, username);
    if i.Some? {
      ClashMeansTaken(list, i.value, j, id, username);
      RenamedRecord(list, i.value, id, Trim(username), now);
    }
  }

  /** A rename gives the trimmed name to the record with that id, unless another record has it. */
  lemma SetUsernameRenamesTheId(list: seq<Admin>, id: string, username: string, now: int)
    requires WellFormed(list)
    ensures var r := Edited(list, SetUsername(id, username, now));
            if !Acceptable(Trim(username)) then r == Err(Invalid)
            else if !Has(list, HasId(id)) then r == Err(NotFound)
            else if Has(list, AnotherHas(id, username)) then r == Err(Conflict)
            else r.Ok? && OnlyChanged(list, r.value, HasId(id), Renames(Trim(username), now))
  {
    EditIsRename(list, SetUsername(id, username, now));
    AcceptableNames(Trim(username));
    RenameIsRefused(list, id, username, now);
    RenameMeans(list, id, username, now);
    if ValidUsername(Trim(username)) && IndexOfID(list, id).Some? {
      RenameIsDone(list, id, username, now);
    }
  }

  // ---- creating ----

  /** A record as Create makes it. */
  predicate IsNew(a: Admin, username: string, hash: string, now: int) {
    && a.username == Trim(username) && a.hash == Bcrypt(hash)
    && InSeconds(a.createdAt, now) && a.updatedAt == a.createdAt
  }

  ghost predicate DrawnFresh(list: seq<Admin>, id: string, draw: Draws) {
    !Has(list, HasId(id)) && exists i :: 0 <= i < 8 && draw(i) == Some(id)
  }

  lemma CreateOutcome(list: seq<Admin>, username: string, hash: Option<string>, draw: Draws, now: int)
    ensures var name, id := Trim(username), FirstFresh(draw, Ids(list), 0, 8);
            Edited(list, Create(username, hash, draw, now))
            == if !ValidUsername(name) || hash.None? then Err(Invalid)
               else if IndexOf(list, Normalize(name)).Some? then Err(Conflict)
               else if id.None? then Err(NoFreshValue)
               else Ok(list + [Admin(id.value, name, Bcrypt(hash.value), WholeSeconds(now), WholeSeconds(now))])
  {
  }

  lemma CreateMeans(list: seq<Admin>, username: string, draw: Draws)
    requires WellFormed(list)
    ensures IndexOf(list, Normalize(Trim(username))).Some? <==> Has(list, HasName(username))
    ensures var id := FirstFresh(draw, Ids(list), 0, 8); id.Some? ==> DrawnFresh(list, id.value, draw)
  {
    var j := IndexOf(list, Normalize(Trim(username)));
    NameFindsOne(list, Trim(username));
    NameOfTrimmed(list, j, username);
    FoundMeansHas(list, j, HasName(username));
    assert forall a :: a in list ==> IdOf(a) in Ids(list);
  }

  /** A new administrator is added at the end, under the trimmed name and a drawn id that nobody has, unless the name is
      taken. */
  lemma CreateAddsOne(list: seq<Admin>, username: string, hash: Option<string>, draw: Draws, now: int)
    requires WellFormed(list)
    ensures var r := Edited(list, Create(username, hash, draw, now));
            if !Acceptable(Trim(username)) || hash.None? then r == Err(Invalid)
            else if Has(list, HasName(username)) then r == Err(Conflict)
            else if FirstFresh(draw, Ids(list), 0, 8).None? then r == Err(NoFreshValue)
            else && r.Ok? && |r.value| == |list| + 1 && r.value[..|list|] == list
                 && IsNew(r.value[|list|], username, hash.value, now) && DrawnFresh(list, r.value[|list|].id, draw)
  {
    AcceptableNames(Trim(username));
    CreateOutcome(list, username, hash, draw, now);
    CreateMeans(list, username, draw);
    SecondsAreWhole(now);
  }
}
