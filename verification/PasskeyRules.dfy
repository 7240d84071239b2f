/** Passkey records: what the file may hold and how each edit changes it. internal/store/passkeys.go. */
module PasskeyRules {
  import opened Wrappers
  import opened Text
  import opened Lists
  import opened Files

  const JSON_VERSION := 1
  const MAX_PASSKEYS := 8
  const MAX_LABEL := 64
  const HANDLE_BYTES := 32
  const MAX_CREDENTIAL_ID := 1023
  const MAX_PUBLIC_KEY := 1024

  /** createdAt and lastUsedAt are None for the zero time. The extras are stored and never looked at. */
  datatype Credential = Credential(
    id: string, credentialId: string, caption: string, publicKey: string, algorithm: int, extras: string,
    signCount: nat, backupState: bool, createdAt: Option<int>, lastUsedAt: Option<int>)

  datatype Owner = Owner(adminId: string, handle: string, credentials: seq<Credential>)

  datatype Doc = Doc(version: int, owners: seq<Owner>)

  // ---- base64url ----

  predicate IsBase64Url(c: char) {
    'A' <= c <= 'Z' || 'a' <= c <= 'z' || '0' <= c <= '9' || c == '-' || c == '_'
  }

  /** Line breaks are skipped when decoding. */
  function WithoutBreaks(s: string): string {
    if s == "" then "" else (if s[0] == '\r' || s[0] == '\n' then "" else [s[0]]) + WithoutBreaks(s[1..])
  }

  /** How many bytes an unpadded base64url string decodes to. */
  function DecodedLength(s: string): Option<nat> {
    var t := WithoutBreaks(s);
    if (forall c :: c in t ==> IsBase64Url(c)) && |t| % 4 != 1 then Some(|t| * 6 / 8) else None
  }

  predicate CheckBase64Len(s: string, min: nat, max: nat) {
    s != "" && DecodedLength(s).Some? && min <= DecodedLength(s).value <= max
  }

  // ---- what load accepts ----

  predicate ValidLabel(caption: string) {
    |Trim(caption)| <= MAX_LABEL && NoControl(Trim(caption))
  }

  /** What load asks of the parts the authenticator supplied. */
  predicate WellFormed(c: Credential) {
    && CheckBase64Len(c.credentialId, 1, MAX_CREDENTIAL_ID)
    && CheckBase64Len(c.publicKey, 1, MAX_PUBLIC_KEY)
    && c.algorithm != 0
  }

  predicate ValidCredential(c: Credential) {
    c.id != "" && WellFormed(c) && ValidLabel(c.caption) && c.createdAt.Some?
  }

  function PanelId(c: Credential): string { c.id }

  function CredId(c: Credential): string { c.credentialId }

  predicate ValidHandle(handle: string) {
    CheckBase64Len(handle, HANDLE_BYTES, HANDLE_BYTES)
  }

  ghost predicate ValidCredentials(cs: seq<Credential>) {
    |cs| <= MAX_PASSKEYS && All(cs, ValidCredential) && Distinct(cs, PanelId) && Distinct(cs, CredId)
  }

  ghost predicate ValidOwner(o: Owner) {
    o.adminId != "" && ValidHandle(o.handle) && ValidCredentials(o.credentials)
  }

  function PanelIds(o: Owner): set<string> {
    Images(o.credentials, PanelId)
  }

  function CredIds(o: Owner): set<string> {
    Images(o.credentials, CredId)
  }

  /** Two owners share no id, handle or credential. */
  predicate Apart(o: Owner, p: Owner) {
    o.adminId != p.adminId && o.handle != p.handle && PanelIds(o) !! PanelIds(p) && CredIds(o) !! CredIds(p)
  }

  ghost predicate ValidList(list: seq<Owner>) {
    All(list, ValidOwner) && Pairwise(list, Apart)
  }

  /** The list a file loads as, or nothing when load refuses it. */
  ghost function LoadOf(content: Content<Doc>): Option<seq<Owner>> {
    match content
    case Missing => Some([])
    case Garbled => None
    case Holds(doc) => if doc.version == JSON_VERSION && ValidList(doc.owners) then Some(doc.owners) else None
  }

  /** A list that a restart reads back unchanged once it is saved. */
  ghost predicate Loadable(list: seq<Owner>) {
    LoadOf(Holds(Doc(JSON_VERSION, list))) == Some(list)
  }

  // ---- linear scans, from the end as the indexes are built ----

  function OwnerAt(list: seq<Owner>, adminId: string): (r: Option<nat>)
    ensures r.Some? ==> r.value < |list| && list[r.value].adminId == adminId
    ensures r.None? ==> forall o :: o in list ==> o.adminId != adminId
  {
    if list == [] then None
    else if list[|list| - 1].adminId == adminId then Some(|list| - 1)
    else OwnerAt(list[..|list| - 1], adminId)
  }

  function HandleAt(list: seq<Owner>, handle: string): (r: Option<nat>)
    ensures r.Some? ==> r.value < |list| && list[r.value].handle == handle
    ensures r.None? ==> forall o :: o in list ==> o.handle != handle
  {
    if list == [] then None
    else if list[|list| - 1].handle == handle then Some(|list| - 1)
    else HandleAt(list[..|list| - 1], handle)
  }

  function CredentialIn(cs: seq<Credential>, credentialId: string): (r: Option<nat>)
    ensures r.Some? ==> r.value < |cs| && cs[r.value].credentialId == credentialId
    ensures r.None? ==> forall c :: c in cs ==> c.credentialId != credentialId
  {
    if cs == [] then None
    else if cs[|cs| - 1].credentialId == credentialId then Some(|cs| - 1)
    else CredentialIn(cs[..|cs| - 1], credentialId)
  }

  function CredentialAt(list: seq<Owner>, credentialId: string): (r: Option<(nat, nat)>)
    ensures r.Some? ==> r.value.0 < |list| && r.value.1 < |list[r.value.0].credentials|
                        && list[r.value.0].credentials[r.value.1].credentialId == credentialId
    ensures r.Some? ==> credentialId in CredIds(list[r.value.0])
    ensures r.None? ==> forall o :: o in list ==> credentialId !in CredIds(o)
  {
    if list == [] then None
    else
      var last := |list| - 1;
      match CredentialIn(list[last].credentials, credentialId)
      case Some(j) =>
        assert list[last].credentials[j] in list[last].credentials;
        assert CredId(list[last].credentials[j]) in CredIds(list[last]);
        Some((last, j))
      case None => CredentialAt(list[..last], credentialId)
  }

  /** The position of the first credential with a panel id. */
  function PanelIdAt(cs: seq<Credential>, id: string): (r: Option<nat>)
    ensures r.Some? ==> r.value < |cs| && cs[r.value].id == id
    ensures r.None? ==> forall c :: c in cs ==> c.id != id
  {
    if cs == [] then None
    else if cs[0].id == id then Some(0)
    else
      match PanelIdAt(cs[1..], id)
      case None => None
      case Some(i) => Some(i + 1)
  }

  function AllPanelIds(list: seq<Owner>): (ids: set<string>)
    ensures forall o :: o in list ==> PanelIds(o) <= ids
  {
    if list == [] then {}
    else
      assert list == list[..|list| - 1] + [list[|list| - 1]];
      AllPanelIds(list[..|list| - 1]) + PanelIds(list[|list| - 1])
  }

  // ---- the edits ----

  function Enrolled(cred: Credential, id: string, now: int): Credential {
    cred.(id := id, createdAt := Some(WholeSeconds(now)), lastUsedAt := None)
  }

  function WithPasskey(list: seq<Owner>, adminId: string, handle: string, added: Credential)
    : Result<seq<Owner>, StoreError>
  {
    match OwnerAt(list, adminId)
    case Some(i) =>
      if list[i].handle != handle then Err(Conflict)
      else if |list[i].credentials| >= MAX_PASSKEYS then Err(Invalid)
      else Ok(list[i := list[i].(credentials := list[i].credentials + [added])])
    case None =>
      if !ValidHandle(handle) then Err(Invalid) else Ok(list + [Owner(adminId, handle, [added])])
  }

  /** Add, with so many tries at an id: a first credential brings its owner, a later one must come with the owner's
      handle. */
  function AddedWithin(
    list: seq<Owner>, adminId: string, handle: string, cred: Credential, now: int, draw: Draws, tries: nat)
    : Result<seq<Owner>, StoreError>
  {
    if !ValidLabel(cred.caption) then Err(Invalid)
    else if CredentialAt(list, cred.credentialId).Some? then Err(Conflict)
    else
      match FirstFresh(draw, AllPanelIds(list), 0, tries)
      case None => Err(NoFreshValue)
      case Some(id) =>
        WithPasskey(list, adminId, handle, Enrolled(cred, id, now))
  }

  function Added(list: seq<Owner>, adminId: string, handle: string, cred: Credential, now: int, draw: Draws)
    : Result<seq<Owner>, StoreError>
  {
    AddedWithin(list, adminId, handle, cred, now, draw, 8)
  }

  function WithCredential(o: Owner, j: nat, c: Credential): Owner
    requires j < |o.credentials|
  {
    o.(credentials := o.credentials[j := c])
  }

  /** Rename, given a label that was checked. */
  function Renamed(list: seq<Owner>, adminId: string, id: string, caption: string): Result<seq<Owner>, StoreError> {
    match OwnerAt(list, adminId)
    case None => Err(NotFound)
    case Some(i) =>
      match PanelIdAt(list[i].credentials, id)
      case None => Err(NotFound)
      case Some(j) => Ok(list[i := WithCredential(list[i], j, list[i].credentials[j].(caption := Trim(caption)))])
  }

  function Removed(list: seq<Owner>, adminId: string, id: string): Result<seq<Owner>, StoreError> {
    match OwnerAt(list, adminId)
    case None => Err(NotFound)
    case Some(i) =>
      match PanelIdAt(list[i].credentials, id)
      case None => Err(NotFound)
      case Some(j) =>
        if |list[i].credentials| == 1 then Ok(Without(list, i))
        else Ok(list[i := list[i].(credentials := Without(list[i].credentials, j))])
  }

  function Used(list: seq<Owner>, credentialId: string, signCount: nat, backupState: bool, now: int)
    : Result<seq<Owner>, StoreError>
  {
    match CredentialAt(list, credentialId)
    case None => Err(NotFound)
    case Some((i, j)) =>
      Ok(list[i := WithCredential(list[i], j, list[i].credentials[j].(
        signCount := signCount, backupState := backupState, lastUsedAt := Some(WholeSeconds(now))))])
  }

  /** The credentials held by owners that do not pass. */
  function Orphaned(list: seq<Owner>, known: string -> bool): nat {
    if list == [] then 0
    else
      Orphaned(list[..|list| - 1], known)
      + if known(list[|list| - 1].adminId) then 0 else |list[|list| - 1].credentials|
  }

  // ---- whatever is saved can be loaded ----

  lemma LoadableMeans(list: seq<Owner>)
    ensures Loadable(list) <==> ValidList(list)
  {
  }

  lemma ApartIsSymmetric(o: Owner, p: Owner)
    ensures Apart(o, p) == Apart(p, o)
  {
  }

  /** An owner that keeps its name and handle, and holds nothing another owner holds, can take its place. */
  lemma ReplacingOwner(list: seq<Owner>, i: nat, o: Owner)
    requires ValidList(list) && i < |list| && o.adminId == list[i].adminId && o.handle == list[i].handle
    requires forall x :: x in list && x != list[i] ==> Apart(x, o)
    ensures ValidList(list[i := o]) <==> ValidCredentials(o.credentials)
  {
    assert list[i] in list && ValidOwner(list[i]);
    AllAfterUpdate(list, ValidOwner, i, o);
    forall k | 0 <= k < |list| && k != i
      ensures Apart(list[k], o) && Apart(o, list[k])
    {
      PairwiseAt(list, Apart, if k < i then k else i, if k < i then i else k);
      assert list[k] in list;
      ApartIsSymmetric(list[k], o);
    }
    PairwiseAfterUpdate(list, Apart, i, o);
  }

  /** In particular one that holds no new ids. */
  lemma ShrinkingOwner(list: seq<Owner>, i: nat, o: Owner)
    requires ValidList(list) && i < |list| && o.adminId == list[i].adminId && o.handle == list[i].handle
    requires PanelIds(o) <= PanelIds(list[i]) && CredIds(o) <= CredIds(list[i])
    ensures ValidList(list[i := o]) <==> ValidCredentials(o.credentials)
  {
    forall x | x in list && x != list[i]
      ensures Apart(x, o)
    {
      var k :| 0 <= k < |list| && list[k] == x;
      PairwiseAt(list, Apart, if k < i then k else i, if k < i then i else k);
      ApartIsSymmetric(x, list[i]);
    }
    ReplacingOwner(list, i, o);
  }

  lemma SameIds(o: Owner, p: Owner)
    requires |o.credentials| == |p.credentials|
    requires forall k :: 0 <= k < |o.credentials| ==>
               o.credentials[k].id == p.credentials[k].id
                 && o.credentials[k].credentialId == p.credentials[k].credentialId
    ensures PanelIds(o) <= PanelIds(p) && CredIds(o) <= CredIds(p)
  {
    forall c | c in o.credentials
      ensures c.id in PanelIds(p) && c.credentialId in CredIds(p)
    {
      var k :| 0 <= k < |o.credentials| && o.credentials[k] == c;
      assert p.credentials[k] in p.credentials;
    }
  }

  lemma UpdatedCredential(o: Owner, j: nat, c: Credential)
    requires ValidCredentials(o.credentials) && j < |o.credentials|
    requires c.id == o.credentials[j].id && c.credentialId == o.credentials[j].credentialId
    ensures PanelIds(WithCredential(o, j, c)) <= PanelIds(o) && CredIds(WithCredential(o, j, c)) <= CredIds(o)
    ensures ValidCredentials(WithCredential(o, j, c).credentials) <==> ValidCredential(c)
  {
    SameIds(WithCredential(o, j, c), o);
    AllAfterUpdate(o.credentials, ValidCredential, j, c);
    DistinctAfterUpdate(o.credentials, PanelId, j, c);
    DistinctAfterUpdate(o.credentials, CredId, j, c);
  }

  lemma RelabelledIsValid(c: Credential, caption: string)
    requires ValidCredential(c) && ValidLabel(caption)
    ensures ValidCredential(c.(caption := Trim(caption)))
  {
    TrimIsIdempotent(caption);
  }

  lemma RenameKeepsLoadable(list: seq<Owner>, adminId: string, id: string, caption: string)
    requires Loadable(list) && ValidLabel(caption) && Renamed(list, adminId, id, caption).Ok?
    ensures Loadable(Renamed(list, adminId, id, caption).value)
  {
    var i := OwnerAt(list, adminId).value;
    var j := PanelIdAt(list[i].credentials, id).value;
    var c := list[i].credentials[j].(caption := Trim(caption));
    OwnersCredentialIsValid(list, i, j);
    RelabelledIsValid(list[i].credentials[j], caption);
    UpdatedCredential(list[i], j, c);
    ShrinkingOwner(list, i, WithCredential(list[i], j, c));
  }

  lemma OwnersCredentialIsValid(list: seq<Owner>, i: nat, j: nat)
    requires ValidList(list) && i < |list| && j < |list[i].credentials|
    ensures ValidOwner(list[i]) && ValidCredential(list[i].credentials[j])
  {
    assert list[i] in list && ValidOwner(list[i]);
    assert list[i].credentials[j] in list[i].credentials;
  }

  lemma UseKeepsLoadable(list: seq<Owner>, credentialId: string, signCount: nat, backupState: bool, now: int)
    requires Loadable(list) && Used(list, credentialId, signCount, backupState, now).Ok?
    ensures Loadable(Used(list, credentialId, signCount, backupState, now).value)
  {
    var (i, j) := CredentialAt(list, credentialId).value;
    var c := list[i].credentials[j].(signCount := signCount, backupState := backupState,
      lastUsedAt := Some(WholeSeconds(now)));
    OwnersCredentialIsValid(list, i, j);
    UpdatedCredential(list[i], j, c);
    ShrinkingOwner(list, i, WithCredential(list[i], j, c));
  }

  lemma RemoveKeepsLoadable(list: seq<Owner>, adminId: string, id: string)
    requires Loadable(list) && Removed(list, adminId, id).Ok?
    ensures Loadable(Removed(list, adminId, id).value)
  {
    var i := OwnerAt(list, adminId).value;
    var cs := list[i].credentials;
    var j := PanelIdAt(cs, id).value;
    if |cs| == 1 {
      AllAfterRemove(list, ValidOwner, i);
      PairwiseAfterRemove(list, Apart, i);
    } else {
      OwnersCredentialIsValid(list, i, j);
      AllAfterRemove(cs, ValidCredential, j);
      DistinctAfterRemove(cs, PanelId, j);
      DistinctAfterRemove(cs, CredId, j);
      ShrinkingOwner(list, i, list[i].(credentials := Without(cs, j)));
    }
  }

  lemma PruneKeepsLoadable(list: seq<Owner>, keep: Owner -> bool)
    requires Loadable(list)
    ensures Loadable(Filtered(list, keep))
  {
    AllAfterFilter(list, ValidOwner, keep);
    PairwiseAfterFilter(list, Apart, keep);
  }

  lemma GrownCredentials(cs: seq<Credential>, c: Credential)
    requires ValidCredentials(cs) && |cs| < MAX_PASSKEYS
    ensures ValidCredentials(cs + [c]) <==>
            ValidCredential(c) && c.id !in Images(cs, PanelId) && c.credentialId !in Images(cs, CredId)
  {
    AllAfterAppend(cs, ValidCredential, c);
    DistinctAfterAppend(cs, PanelId, c);
    DistinctAfterAppend(cs, CredId, c);
  }

  lemma GrowingOwner(list: seq<Owner>, i: nat, c: Credential)
    requires ValidList(list) && i < |list| && |list[i].credentials| < MAX_PASSKEYS
    requires forall o :: o in list ==> c.id !in PanelIds(o) && c.credentialId !in CredIds(o)
    ensures ValidList(list[i := list[i].(credentials := list[i].credentials + [c])]) <==> ValidCredential(c)
  {
    var o := list[i].(credentials := list[i].credentials + [c]);
    assert list[i] in list && ValidOwner(list[i]);
    forall x | x in list && x != list[i]
      ensures Apart(x, o)
    {
      OtherOwner(list, i, x);
      ApartFromGrown(x, list[i], c);
    }
    GrownCredentials(list[i].credentials, c);
    ReplacingOwner(list, i, o);
  }

  lemma OtherOwner(list: seq<Owner>, i: nat, x: Owner)
    requires ValidList(list) && i < |list| && x in list && x != list[i]
    ensures Apart(x, list[i])
  {
    var k :| 0 <= k < |list| && list[k] == x;
    PairwiseAt(list, Apart, if k < i then k else i, if k < i then i else k);
    ApartIsSymmetric(x, list[i]);
  }

  lemma ApartFromGrown(x: Owner, o: Owner, c: Credential)
    requires Apart(x, o) && c.id !in PanelIds(x) && c.credentialId !in CredIds(x)
    ensures Apart(x, o.(credentials := o.credentials + [c]))
  {
    ImagesOfLonger(o.credentials, PanelId, c);
    ImagesOfLonger(o.credentials, CredId, c);
  }

  lemma OwnerOfOne(x: Owner, o: Owner, c: Credential)
    requires o.credentials == [c] && x.adminId != o.adminId && c.id !in PanelIds(x) && c.credentialId !in CredIds(x)
    ensures Apart(x, o) <==> x.handle != o.handle
  {
    assert [c] == [] + [c];
    ImagesOfLonger([], PanelId, c);
    ImagesOfLonger([], CredId, c);
  }

  lemma OneCredential(c: Credential)
    ensures ValidCredentials([c]) <==> ValidCredential(c)
  {
    GrownCredentials([], c);
    assert [c] == [] + [c];
  }

  lemma NewOwner(list: seq<Owner>, o: Owner, c: Credential)
    requires ValidList(list) && o.credentials == [c] && ValidHandle(o.handle)
    requires forall x :: x in list ==> x.adminId != o.adminId && c.id !in PanelIds(x) && c.credentialId !in CredIds(x)
    ensures ValidList(list + [o]) <==>
            ValidCredential(c) && o.adminId != "" && forall x :: x in list ==> x.handle != o.handle
  {
    AllAfterAppend(list, ValidOwner, o);
    PairwiseAfterAppend(list, Apart, o);
    OneCredential(c);
    forall x | x in list
      ensures Apart(x, o) <==> x.handle != o.handle
    {
      OwnerOfOne(x, o, c);
    }
  }

  lemma AddWithinKeepsLoadable(
    list: seq<Owner>, adminId: string, handle: string, cred: Credential, now: int, draw: Draws, tries: nat)
    requires Loadable(list) && DrawsIds(draw) && AddedWithin(list, adminId, handle, cred, now, draw, tries).Ok?
    ensures Loadable(AddedWithin(list, adminId, handle, cred, now, draw, tries).value) <==>
            WellFormed(cred) && (OwnerAt(list, adminId).Some? || (adminId != "" && HandleAt(list, handle).None?))
  {
    var c := Enrolled(cred, FirstFresh(draw, AllPanelIds(list), 0, tries).value, now);
    assert ValidCredential(c) <==> WellFormed(cred);
    forall o | o in list
      ensures c.id !in PanelIds(o) && c.credentialId !in CredIds(o)
    {
      assert PanelIds(o) <= AllPanelIds(list);
    }
    match OwnerAt(list, adminId)
    case Some(i) => GrowingOwner(list, i, c);
    case None =>
      NewOwner(list, Owner(adminId, handle, [c]), c);
      assert HandleAt(list, handle).None? <==> forall x :: x in list ==> x.handle != handle;
  }

  /** Add checks the label and, for a new owner, the handle's shape, but neither the credential nor whether somebody
      else holds the handle: what it saves loads again exactly when those hold too. */
  lemma AddKeepsLoadableExactlyWhen(
    list: seq<Owner>, adminId: string, handle: string, cred: Credential, now: int, draw: Draws)
    requires Loadable(list) && DrawsIds(draw) && Added(list, adminId, handle, cred, now, draw).Ok?
    ensures Loadable(Added(list, adminId, handle, cred, now, draw).value) <==>
            WellFormed(cred) && (OwnerAt(list, adminId).Some? || (adminId != "" && HandleAt(list, handle).None?))
  {
    AddWithinKeepsLoadable(list, adminId, handle, cred, now, draw, 8);
  }

  /** The base64url text of zero bits: n characters. */
  function Zeros(n: nat): string {
    if n == 0 then "" else ['A'] + Zeros(n - 1)
  }

  lemma {:induction false} ZerosDecode(n: nat)
    ensures |Zeros(n)| == n && WithoutBreaks(Zeros(n)) == Zeros(n) && forall c :: c in Zeros(n) ==> c == 'A'
  {
    if n > 0 {
      ZerosDecode(n - 1);
      assert Zeros(n)[1..] == Zeros(n - 1);
    }
  }

  /** A credential the library could have verified, with public key and handle texts of these lengths. */
  function LongKeyed(h: nat, n: nat): Credential {
    Credential("", Zeros(h), "", Zeros(n), -7, "", 0, false, None, None)
  }

  /** Enrolments Add accepts and the next load refuses: any public key longer than load takes, from 1368 characters for
      1026 bytes on, at a handle of 43 characters for 32 bytes. */
  lemma AddCanSaveWhatLoadRefuses(adminId: string, h: nat, n: nat, now: int, draw: Draws)
    requires h == 43 && n >= 1368 && n % 4 != 1 && DrawsIds(draw) && draw(0).Some?
    ensures var r := Added([], adminId, Zeros(h), LongKeyed(h, n), now, draw);
            DecodedLength(Zeros(n)) == Some(n * 6 / 8) && n * 6 / 8 > MAX_PUBLIC_KEY && r.Ok? && !Loadable(r.value)
  {
    ZerosDecode(h);
    ZerosDecode(n);
    MalformedIsSaved(adminId, Zeros(h), LongKeyed(h, n), now, draw);
  }

  lemma MalformedIsSaved(adminId: string, handle: string, cred: Credential, now: int, draw: Draws)
    requires ValidHandle(handle) && cred.caption == "" && !WellFormed(cred) && DrawsIds(draw) && draw(0).Some?
    ensures var r := Added([], adminId, handle, cred, now, draw); r.Ok? && !Loadable(r.value)
  {
    EmptyFile();
    AddKeepsLoadableExactlyWhen([], adminId, handle, cred, now, draw);
  }

  lemma EmptyFile()
    ensures Loadable([]) && ValidLabel("") && AllPanelIds([]) == {}
  {
  }

  lemma LoneOwner(o: Owner, adminId: string, credentialId: string)
    requires adminId != o.adminId && credentialId !in CredIds(o)
    ensures OwnerAt([o], adminId).None? && CredentialAt([o], credentialId).None? && HandleAt([o], o.handle).Some?
  {
    assert [o][0] == o;
  }

  lemma HeldHandleIsValid(list: seq<Owner>, i: nat)
    requires Loadable(list) && i < |list|
    ensures ValidHandle(list[i].handle)
  {
    assert ValidOwner(list[i]);
  }

  lemma SharedHandleIsSaved(list: seq<Owner>, adminId: string, handle: string, cred: Credential, now: int, draw: Draws)
    requires Loadable(list) && OwnerAt(list, adminId).None? && HandleAt(list, handle).Some?
    requires ValidLabel(cred.caption) && CredentialAt(list, cred.credentialId).None?
    requires DrawsIds(draw) && FirstFresh(draw, AllPanelIds(list), 0, 8).Some?
    ensures var r := Added(list, adminId, handle, cred, now, draw); r.Ok? && !Loadable(r.value)
  {
    HeldHandleIsValid(list, HandleAt(list, handle).value);
    AddKeepsLoadableExactlyWhen(list, adminId, handle, cred, now, draw);
  }

  /** Another: a second owner under a handle the first already holds. */
  lemma AddCanShareAHandle(o: Owner, adminId: string, cred: Credential, now: int, draw: Draws)
    requires Loadable([o]) && adminId != o.adminId && ValidLabel(cred.caption) && cred.credentialId !in CredIds(o)
    requires DrawsIds(draw) && FirstFresh(draw, AllPanelIds([o]), 0, 8).Some?
    ensures var r := Added([o], adminId, o.handle, cred, now, draw); r.Ok? && !Loadable(r.value)
  {
    LoneOwner(o, adminId, cred.credentialId);
    SharedHandleIsSaved([o], adminId, o.handle, cred, now, draw);
  }
}
