/** The administrator list and its file, which two processes write. internal/store/admins.go. */
module Admins {
  import opened Wrappers
  import opened Text
  import opened Lists
  import opened Files

  const ADMINS_VERSION := 2
  const MAX_USERNAME := 64
  const RELOAD_RESOLUTION := SECOND

  /** A stored password hash, by whether bcrypt recognises it. */
  datatype Hash = NoHash | Bcrypt(text: string) | NotBcrypt(text: string)

  datatype Admin = Admin(id: string, username: string, hash: Hash, createdAt: int, updatedAt: int)

  datatype Doc = Doc(version: int, admins: seq<Admin>)

  function Normalize(username: string): string {
    ToLower(Trim(username))
  }

  function IdOf(a: Admin): string { a.id }

  function KeyOf(a: Admin): string { Normalize(a.username) }

  predicate ValidAdmin(a: Admin) {
    Trim(a.username) != "" && a.id != "" && a.hash.Bcrypt?
  }

  /** Unique ids and unique case-folded usernames, among other things: what every loaded list satisfies. */
  ghost predicate WellFormed(list: seq<Admin>) {
    All(list, ValidAdmin) && Distinct(list, IdOf) && Distinct(list, KeyOf)
  }

  // ---- reading the file ----

  datatype Loaded = Loaded(list: seq<Admin>, legacy: bool, filledIDs: nat)

  /** A version 1 record without an id keeps the key it already had. */
  function Filled(a: Admin): Admin {
    if a.id == "" then a.(id := KeyOf(a)) else a
  }

  function FilledList(list: seq<Admin>): (r: seq<Admin>)
    ensures |r| == |list|
  {
    seq(|list|, i requires 0 <= i < |list| => Filled(list[i]))
  }

  function MissingIds(list: seq<Admin>): nat {
    if list == [] then 0 else MissingIds(list[..|list| - 1]) + if list[|list| - 1].id == "" then 1 else 0
  }

  /** What a file loads as, or nothing when load refuses it. */
  ghost function LoadOf(content: Content<Doc>): Option<Loaded> {
    match content
    case Missing => Some(Loaded([], false, 0))
    case Garbled => None
    case Holds(doc) =>
      if doc.version == ADMINS_VERSION && WellFormed(doc.admins) then Some(Loaded(doc.admins, false, 0))
      else if doc.version == 1 && WellFormed(FilledList(doc.admins))
      then Some(Loaded(FilledList(doc.admins), true, MissingIds(doc.admins)))
      else None
  }

  // ---- the edits ----

  predicate ValidUsername(username: string) {
    username != "" && |username| <= MAX_USERNAME && forall c :: c in username ==> c > ' ' && c != '\U{7f}'
  }

  /** The first record with a key. */
  function IndexOf(list: seq<Admin>, key: string): (r: Option<nat>)
    ensures r.Some? ==> r.value < |list| && KeyOf(list[r.value]) == key
    ensures r.None? ==> forall a :: a in list ==> KeyOf(a) != key
  {
    FirstWith(list, KeyOf, key)
  }

  /** The first record with an id. */
  function IndexOfID(list: seq<Admin>, id: string): (r: Option<nat>)
    ensures r.Some? ==> r.value < |list| && list[r.value].id == id
    ensures r.None? ==> forall a :: a in list ==> a.id != id
  {
    if list == [] then None
    else if list[0].id == id then Some(0)
    else
      match IndexOfID(list[1..], id)
      case None => None
      case Some(i) => Some(i + 1)
  }

  function Ids(list: seq<Admin>): set<string> {
    Images(list, IdOf)
  }

  /** What a process may ask for. A hash is what bcrypt made of the password, or None when its length was refused. */
  datatype Request =
    | Create(username: string, hash: Option<string>, draw: Draws, now: int)
    | SetPassword(username: string, hash: Option<string>, now: int)
    | SetPasswordByID(id: string, hash: Option<string>, now: int)
    | SetUsername(id: string, username: string, now: int)
    | Delete(username: string)
    | Migrate

  function WithHash(list: seq<Admin>, i: Option<nat>, hash: Option<string>, now: int): Result<seq<Admin>, StoreError>
    requires i.Some? ==> i.value < |list|
  {
    if hash.None? then Err(Invalid)
    else if i.None? then Err(NotFound)
    else Ok(list[i.value := list[i.value].(hash := Bcrypt(hash.value), updatedAt := WholeSeconds(now))])
  }

  function Created(list: seq<Admin>, username: string, hash: Option<string>, draw: Draws, now: int)
    : Result<seq<Admin>, StoreError>
  {
    var name, at := Trim(username), WholeSeconds(now);
    if !ValidUsername(name) || hash.None? then Err(Invalid)
    else if IndexOf(list, Normalize(name)).Some? then Err(Conflict)
    else
      match FirstFresh(draw, Ids(list), 0, 8)
      case None => Err(NoFreshValue)
      case Some(id) => Ok(list + [Admin(id, name, Bcrypt(hash.value), at, at)])
  }

  /** A name taken by this same record is no conflict. */
  function Renamed(list: seq<Admin>, id: string, username: string, now: int): Result<seq<Admin>, StoreError> {
    var name, i := Trim(username), IndexOfID(list, id);
    if !ValidUsername(name) then Err(Invalid)
    else if i.None? then Err(NotFound)
    else
      var j := IndexOf(list, Normalize(name));
      if j.Some? && j != i then Err(Conflict)
      else Ok(list[i.value := list[i.value].(username := name, updatedAt := WholeSeconds(now))])
  }

  function Dropped(list: seq<Admin>, username: string): Result<seq<Admin>, StoreError> {
    match IndexOf(list, Normalize(username))
    case None => Err(NotFound)
    case Some(i) => Ok(Without(list, i))
  }

  /** One operation applied to a list. */
  function Edited(list: seq<Admin>, req: Request): Result<seq<Admin>, StoreError> {
    match req
    case Create(username, hash, draw, now) => Created(list, username, hash, draw, now)
    case SetPassword(username, hash, now) => WithHash(list, IndexOf(list, Normalize(username)), hash, now)
    case SetPasswordByID(id, hash, now) => WithHash(list, IndexOfID(list, id), hash, now)
    case SetUsername(id, username, now) => Renamed(list, id, username, now)
    case Delete(username) => Dropped(list, username)
    case Migrate => Ok(list)
  }

  lemma EditIsRename(list: seq<Admin>, req: Request)
    requires req.SetUsername?
    ensures Edited(list, req) == Renamed(list, req.id, req.username, req.now)
  {
  }

  ghost predicate WellDrawn(req: Request) {
    req.Create? ==> DrawsIds(req.draw)
  }

  // ---- edits keep the list well formed ----

  lemma ReplacedAdmin(list: seq<Admin>, i: nat, a: Admin)
    requires WellFormed(list) && i < |list| && a.id == list[i].id && ValidAdmin(a)
    requires forall k :: 0 <= k < |list| && k != i ==> KeyOf(list[k]) != KeyOf(a)
    ensures WellFormed(list[i := a])
  {
    AllAfterUpdate(list, ValidAdmin, i, a);
    DistinctAfterUpdate(list, IdOf, i, a);
    DistinctAfterUpdate(list, KeyOf, i, a);
  }

  lemma ReplacedHash(list: seq<Admin>, i: nat, a: Admin)
    requires WellFormed(list) && i < |list| && a.id == list[i].id && a.username == list[i].username && a.hash.Bcrypt?
    ensures WellFormed(list[i := a])
  {
    assert list[i] in list;
    forall k | 0 <= k < |list| && k != i
      ensures KeyOf(list[k]) != KeyOf(a)
    {
      DistinctAt(list, KeyOf, k, i);
    }
    ReplacedAdmin(list, i, a);
  }

  lemma UsernameIsNotBlank(name: string)
    requires ValidUsername(name)
    ensures Trim(name) == name
  {
    assert name[0] in name && name[|name| - 1] in name;
    TrimKeeps(name);
  }

  lemma AddedAdmin(list: seq<Admin>, a: Admin)
    requires WellFormed(list) && ValidAdmin(a)
    requires forall x :: x in list ==> x.id != a.id && KeyOf(x) != KeyOf(a)
    ensures WellFormed(list + [a])
  {
    AllAfterAppend(list, ValidAdmin, a);
    DistinctAfterAppend(list, IdOf, a);
    DistinctAfterAppend(list, KeyOf, a);
  }

  lemma RemovedAdmin(list: seq<Admin>, i: nat)
    requires WellFormed(list) && i < |list|
    ensures WellFormed(Without(list, i))
  {
    AllAfterRemove(list, ValidAdmin, i);
    DistinctAfterRemove(list, IdOf, i);
    DistinctAfterRemove(list, KeyOf, i);
  }

  lemma RenamedAdmin(list: seq<Admin>, i: nat, name: string, at: int)
    requires WellFormed(list) && i < |list| && ValidUsername(name)
    requires IndexOf(list, Normalize(name)).None? || IndexOf(list, Normalize(name)) == Some(i)
    ensures WellFormed(list[i := list[i].(username := name, updatedAt := at)])
  {
    UsernameIsNotBlank(name);
    var a := list[i].(username := name, updatedAt := at);
    assert list[i] in list && ValidAdmin(list[i]);
    forall k | 0 <= k < |list| && k != i
      ensures KeyOf(list[k]) != KeyOf(a)
    {
      assert list[k] in list;
      DistinctAt(list, KeyOf, k, i);
    }
    ReplacedAdmin(list, i, a);
  }

  lemma CreateKeepsWellFormed(list: seq<Admin>, username: string, hash: Option<string>, draw: Draws, now: int)
    requires WellFormed(list) && DrawsIds(draw) && Created(list, username, hash, draw, now).Ok?
    ensures WellFormed(Created(list, username, hash, draw, now).value)
  {
    var name, at := Trim(username), WholeSeconds(now);
    UsernameIsNotBlank(name);
    var id := FirstFresh(draw, Ids(list), 0, 8).value;
    AddedAdmin(list, Admin(id, name, Bcrypt(hash.value), at, at));
  }

  lemma HashKeepsWellFormed(list: seq<Admin>, i: Option<nat>, hash: Option<string>, now: int)
    requires WellFormed(list) && (i.Some? ==> i.value < |list|) && WithHash(list, i, hash, now).Ok?
    ensures WellFormed(WithHash(list, i, hash, now).value)
  {
    ReplacedHash(list, i.value, WithHash(list, i, hash, now).value[i.value]);
  }

  /** Every operation keeps ids and case-folded usernames unique. */
  lemma EditsKeepWellFormed(list: seq<Admin>, req: Request)
    requires WellFormed(list) && WellDrawn(req) && Edited(list, req).Ok?
    ensures WellFormed(Edited(list, req).value)
  {
    if req.Create? {
      CreateKeepsWellFormed(list, req.username, req.hash, req.draw, req.now);
    } else if req.SetPassword? {
      HashKeepsWellFormed(list, IndexOf(list, Normalize(req.username)), req.hash, req.now);
    } else if req.SetPasswordByID? {
      HashKeepsWellFormed(list, IndexOfID(list, req.id), req.hash, req.now);
    } else if req.SetUsername? {
      RenamedAdmin(list, IndexOfID(list, req.id).value, Trim(req.username), WholeSeconds(req.now));
    } else if req.Delete? {
      RemovedAdmin(list, IndexOf(list, Normalize(req.username)).value);
    }
  }
}
