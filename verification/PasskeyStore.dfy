/** The in-memory passkey list, its three indexes and its file. internal/store/passkeys.go. */
module PasskeyStore {
  import opened Wrappers
  import opened Text
  import opened Lists
  import opened Files
  import opened PasskeyRules

  // ---- indexes ----

  function AdminIndex(list: seq<Owner>): map<string, nat> {
    if list == [] then map[] else AdminIndex(list[..|list| - 1])[list[|list| - 1].adminId := |list| - 1]
  }

  function HandleIndex(list: seq<Owner>): map<string, nat> {
    if list == [] then map[] else HandleIndex(list[..|list| - 1])[list[|list| - 1].handle := |list| - 1]
  }

  function CredIndexOf(cs: seq<Credential>, owner: nat): map<string, (nat, nat)> {
    if cs == [] then map[]
    else CredIndexOf(cs[..|cs| - 1], owner)[cs[|cs| - 1].credentialId := (owner, |cs| - 1)]
  }

  function CredIndex(list: seq<Owner>): map<string, (nat, nat)> {
    if list == [] then map[]
    else CredIndex(list[..|list| - 1]) + CredIndexOf(list[|list| - 1].credentials, |list| - 1)
  }

  lemma {:induction false} OwnerIndexesAreScans(list: seq<Owner>, key: string)
    ensures key in AdminIndex(list) <==> OwnerAt(list, key).Some?
    ensures key in AdminIndex(list) ==> Some(AdminIndex(list)[key]) == OwnerAt(list, key)
    ensures key in HandleIndex(list) <==> HandleAt(list, key).Some?
    ensures key in HandleIndex(list) ==> Some(HandleIndex(list)[key]) == HandleAt(list, key)
  {
    if list != [] {
      OwnerIndexesAreScans(list[..|list| - 1], key);
    }
  }

  lemma {:induction false} CredIndexOfIsScan(cs: seq<Credential>, owner: nat, key: string)
    ensures key in CredIndexOf(cs, owner) <==> CredentialIn(cs, key).Some?
    ensures key in CredIndexOf(cs, owner) ==> CredIndexOf(cs, owner)[key] == (owner, CredentialIn(cs, key).value)
  {
    if cs != [] {
      CredIndexOfIsScan(cs[..|cs| - 1], owner, key);
    }
  }

  lemma {:induction false} CredIndexIsScan(list: seq<Owner>, key: string)
    ensures key in CredIndex(list) <==> CredentialAt(list, key).Some?
    ensures key in CredIndex(list) ==> Some(CredIndex(list)[key]) == CredentialAt(list, key)
  {
    if list != [] {
      CredIndexIsScan(list[..|list| - 1], key);
      CredIndexOfIsScan(list[|list| - 1].credentials, |list| - 1, key);
    }
  }

  // ---- the checks load makes ----

  function AllCredIds(list: seq<Owner>): set<string> {
    if list == [] then {} else AllCredIds(list[..|list| - 1]) + CredIds(list[|list| - 1])
  }

  lemma {:induction false} IdsAreAllIds(list: seq<Owner>, o: Owner)
    ensures PanelIds(o) !! AllPanelIds(list) <==> forall x :: x in list ==> PanelIds(x) !! PanelIds(o)
    ensures CredIds(o) !! AllCredIds(list) <==> forall x :: x in list ==> CredIds(x) !! CredIds(o)
  {
    if list != [] {
      var init, last := list[..|list| - 1], list[|list| - 1];
      assert list == init + [last];
      IdsAreAllIds(init, o);
    }
  }

  /** The credentials are fine, and none repeats an id seen before. */
  ghost predicate FineBeside(cs: seq<Credential>, panelIDs: set<string>, credIDs: set<string>) {
    ValidCredentials(cs) && Images(cs, PanelId) !! panelIDs && Images(cs, CredId) !! credIDs
  }

  lemma FineWithOneMore(cs: seq<Credential>, c: Credential, panelIDs: set<string>, credIDs: set<string>)
    requires FineBeside(cs, panelIDs, credIDs) && |cs| < MAX_PASSKEYS
    ensures FineBeside(cs + [c], panelIDs, credIDs) <==>
            && ValidCredential(c)
            && c.id !in panelIDs + Images(cs, PanelId) && c.credentialId !in credIDs + Images(cs, CredId)
  {
    GrownCredentials(cs, c);
    NewImageIsFree(cs, PanelId, c, panelIDs);
    NewImageIsFree(cs, CredId, c, credIDs);
  }

  lemma NewImageIsFree(cs: seq<Credential>, key: Credential -> string, c: Credential, used: set<string>)
    requires Images(cs, key) !! used
    ensures Images(cs + [c], key) !! used <==> key(c) !in used
  {
    ImagesOfLonger(cs, key, c);
  }

  lemma FinePrefix(cs: seq<Credential>, i: nat, panelIDs: set<string>, credIDs: set<string>)
    requires i <= |cs|
    ensures FineBeside(cs, panelIDs, credIDs) ==> FineBeside(cs[..i], panelIDs, credIDs)
  {
    if FineBeside(cs, panelIDs, credIDs) {
      assert forall c :: c in cs[..i] ==> c in cs;
      DistinctPrefix(cs, PanelId, i);
      DistinctPrefix(cs, CredId, i);
    }
  }

  lemma LongerCredentials(cs: seq<Credential>, i: nat, panelIDs: set<string>, credIDs: set<string>)
    requires i < |cs| <= MAX_PASSKEYS && FineBeside(cs[..i], panelIDs, credIDs)
    ensures cs[..i + 1] == cs[..i] + [cs[i]]
    ensures FineBeside(cs[..i + 1], panelIDs, credIDs) <==>
            && ValidCredential(cs[i])
            && cs[i].id !in panelIDs + Images(cs[..i], PanelId)
               && cs[i].credentialId !in credIDs + Images(cs[..i], CredId)
  {
    var init := cs[..i];
    assert cs[..i + 1] == init + [cs[i]];
    FineWithOneMore(init, cs[i], panelIDs, credIDs);
  }

  method CheckCredentials(cs: seq<Credential>, panelIDs: set<string>, credIDs: set<string>)
    returns (ok: bool, panelAfter: set<string>, credAfter: set<string>)
    ensures ok <==> FineBeside(cs, panelIDs, credIDs)
    ensures ok ==> panelAfter == panelIDs + Images(cs, PanelId) && credAfter == credIDs + Images(cs, CredId)
  {
    ok, panelAfter, credAfter := false, panelIDs, credIDs;
    if |cs| > MAX_PASSKEYS {
      return;
    }
    for i := 0 to |cs|
      invariant FineBeside(cs[..i], panelIDs, credIDs)
      invariant panelAfter == panelIDs + Images(cs[..i], PanelId) && credAfter == credIDs + Images(cs[..i], CredId)
    {
      var c := cs[i];
      LongerCredentials(cs, i, panelIDs, credIDs);
      FinePrefix(cs, i + 1, panelIDs, credIDs);
      ImagesOfLonger(cs[..i], PanelId, c);
      ImagesOfLonger(cs[..i], CredId, c);
      if c.id in panelAfter || c.credentialId in credAfter || !ValidCredential(c) {
        return;
      }
      panelAfter, credAfter := panelAfter + {c.id}, credAfter + {c.credentialId};
    }
    assert cs[..|cs|] == cs;
    ok := true;
  }

  lemma ValidPrefix(list: seq<Owner>, i: nat)
    requires i <= |list|
    ensures ValidList(list) ==> ValidList(list[..i])
  {
    if ValidList(list) {
      assert forall o :: o in list[..i] ==> o in list;
      PairwisePrefix(list, Apart, i);
    }
  }

  /** Load's step: one more owner is fine when it is valid and shares nothing with the ones before it. */
  lemma LongerPrefix(list: seq<Owner>, o: Owner)
    requires ValidList(list)
    ensures ValidList(list + [o]) <==>
            && o.adminId != "" && ValidHandle(o.handle)
            && (forall x :: x in list ==> x.adminId != o.adminId && x.handle != o.handle)
            && FineBeside(o.credentials, AllPanelIds(list), AllCredIds(list))
  {
    AllAfterAppend(list, ValidOwner, o);
    PairwiseAfterAppend(list, Apart, o);
    IdsAreAllIds(list, o);
  }

  function AdminIdOf(o: Owner): string { o.adminId }

  function HandleOf(o: Owner): string { o.handle }

  lemma CheckStep(list: seq<Owner>, i: nat)
    requires i < |list| && ValidList(list[..i])
    ensures list[..i + 1] == list[..i] + [list[i]]
    ensures ValidList(list[..i + 1]) <==>
            && AdminIdOf(list[i]) != "" && ValidHandle(list[i].handle)
            && AdminIdOf(list[i]) !in Images(list[..i], AdminIdOf) && HandleOf(list[i]) !in Images(list[..i], HandleOf)
            && FineBeside(list[i].credentials, AllPanelIds(list[..i]), AllCredIds(list[..i]))
    ensures ValidList(list) ==> ValidList(list[..i + 1])
  {
    var init := list[..i];
    assert list[..i + 1] == init + [list[i]];
    LongerPrefix(init, list[i]);
    ValidPrefix(list, i + 1);
  }

  lemma IdsOfLonger(list: seq<Owner>, o: Owner)
    ensures AllPanelIds(list + [o]) == AllPanelIds(list) + PanelIds(o)
    ensures AllCredIds(list + [o]) == AllCredIds(list) + CredIds(o)
  {
    assert (list + [o])[..|list|] == list;
  }

  method CheckList(list: seq<Owner>) returns (ok: bool)
    ensures ok <==> ValidList(list)
  {
    var admins: set<string>, handles: set<string> := {}, {};
    var panelIDs: set<string>, credIDs: set<string> := {}, {};
    assert list[..0] == [];
    for i := 0 to |list|
      invariant ValidList(list[..i])
      invariant admins == Images(list[..i], AdminIdOf) && handles == Images(list[..i], HandleOf)
      invariant panelIDs == AllPanelIds(list[..i]) && credIDs == AllCredIds(list[..i])
    {
      var o := list[i];
      CheckStep(list, i);
      ImagesOfLonger(list[..i], AdminIdOf, o);
      ImagesOfLonger(list[..i], HandleOf, o);
      IdsOfLonger(list[..i], o);
      if o.adminId == "" || o.adminId in admins || !ValidHandle(o.handle) || o.handle in handles {
        return false;
      }
      var fine;
      fine, panelIDs, credIDs := CheckCredentials(o.credentials, panelIDs, credIDs);
      if !fine {
        return false;
      }
      admins, handles := admins + {o.adminId}, handles + {o.handle};
    }
    assert list[..|list|] == list;
    return true;
  }

  method IndexCredentials(before: map<string, (nat, nat)>, cs: seq<Credential>, owner: nat)
    returns (index: map<string, (nat, nat)>)
    ensures index == before + CredIndexOf(cs, owner)
  {
    index := before;
    assert cs[..0] == [];
    for j := 0 to |cs|
      invariant index == before + CredIndexOf(cs[..j], owner)
    {
      assert cs[..j + 1][..j] == cs[..j];
      index := index[cs[j].credentialId := (owner, j)];
    }
    assert cs[..|cs|] == cs;
  }

  /** The passkeys of one panel process. */
  class Passkeys {
    const file: DocFile<Doc>
    const writable: bool
    var list: seq<Owner>
    var byAdminID: map<string, nat>
    var byHandle: map<string, nat>
    var byCredID: map<string, (nat, nat)>
    var loaded: Option<nat>

    ghost predicate Indexed()
      reads this
    {
      byAdminID == AdminIndex(list) && byHandle == HandleIndex(list) && byCredID == CredIndex(list)
    }

    /** Memory and file hold the same owners. */
    ghost predicate InStep()
      reads this, file
    {
      match file.content
      case Missing => list == []
      case Garbled => false
      case Holds(doc) => doc.owners == list
    }

    /** The indexes agree with the list, and memory is in step with the file unless somebody else moved it. */
    ghost predicate Valid()
      reads this, file
    {
      && Indexed()
      && (loaded.Some? ==> loaded.value <= file.stamp)
      && (loaded == file.Stat() ==> InStep())
    }

    twostate predicate Untouched()
      reads this, file
    {
      && list == old(list) && loaded == old(loaded)
      && byAdminID == old(byAdminID) && byHandle == old(byHandle) && byCredID == old(byCredID)
      && file.content == old(file.content) && file.stamp == old(file.stamp)
    }

    ghost predicate Saved()
      reads this, file
    {
      file.content == Holds(Doc(JSON_VERSION, list)) && loaded == file.Stat()
    }

    predicate CanSave(works: bool)
      reads this, file
    {
      MayWrite(file.Stat(), loaded) && works
    }

    /** And if not, why not. */
    function WhySaveFails(works: bool): StoreError
      reads this, file
    {
      var e := SaveError(MayWrite(file.Stat(), loaded), works);
      if e.Some? then e.value else WriteFailed
    }

    constructor (file: DocFile<Doc>, writable: bool)
      ensures this.file == file && this.writable == writable
      ensures Valid() && list == []
    {
      this.file, this.writable := file, writable;
      list, byAdminID, byHandle, byCredID, loaded := [], map[], map[], map[], None;
    }

    /** Reads and checks the whole file before swapping it in. */
    method Load() returns (ok: bool)
      modifies this
      ensures ok <==> LoadOf(file.content).Some?
      ensures ok ==> Valid() && Some(list) == LoadOf(file.content) && loaded == file.Stat() && Loadable(list)
      ensures ok ==> CanSave(true)
      ensures !ok ==> Untouched()
    {
      var owners: seq<Owner> := [];
      match file.content {
        case Missing =>
        case Garbled => return false;
        case Holds(doc) =>
          if doc.version != JSON_VERSION {
            return false;
          }
          owners := doc.owners;
      }
      ok := CheckList(owners);
      if !ok {
        return;
      }
      list := owners;
      Reindex();
      loaded := file.Stat();
    }

    method Reindex()
      modifies this`byAdminID, this`byHandle, this`byCredID
      ensures Indexed()
    {
      byAdminID, byHandle, byCredID := map[], map[], map[];
      assert list[..0] == [];
      for i := 0 to |list|
        invariant byAdminID == AdminIndex(list[..i]) && byHandle == HandleIndex(list[..i])
        invariant byCredID == CredIndex(list[..i])
      {
        assert list[..i + 1][..i] == list[..i];
        var o := list[i];
        byAdminID := byAdminID[o.adminId := i];
        byHandle := byHandle[o.handle := i];
        byCredID := IndexCredentials(byCredID, o.credentials, i);
      }
      assert list[..|list|] == list;
    }

    /** The owner of a user handle: what a linear scan would find. */
    method ByHandle(handle: string) returns (r: Option<Owner>)
      requires Valid()
      ensures r == match HandleAt(list, handle) case None => None case Some(i) => Some(list[i])
    {
      OwnerIndexesAreScans(list, handle);
      if handle !in byHandle {
        return None;
      }
      r := Some(list[byHandle[handle]]);
    }

    /** The owner and credential of a credential id: what a linear scan would find. */
    method ByCredentialID(credentialId: string) returns (r: Option<(Owner, Credential)>)
      requires Valid()
      ensures r == match CredentialAt(list, credentialId)
                   case None => None
                   case Some((i, j)) => Some((list[i], list[i].credentials[j]))
    {
      CredIndexIsScan(list, credentialId);
      if credentialId !in byCredID {
        return None;
      }
      var (i, j) := byCredID[credentialId];
      r := Some((list[i], list[i].credentials[j]));
    }

    /** A user handle nobody holds, when some try finds one. */
    method NewHandle(draw: Draws) returns (r: Option<string>)
      requires Valid()
      ensures r == FirstFresh(draw, byHandle.Keys, 0, 8)
      ensures r.Some? ==> HandleAt(list, r.value).None?
    {
      r := Mint(draw, byHandle.Keys, 8);
      if r.Some? {
        OwnerIndexesAreScans(list, r.value);
      }
    }

    /** Swaps a list in, reindexes and writes; a save that fails puts the old list back. */
    method SwapIn(next: seq<Owner>, works: bool) returns (e: Option<StoreError>)
      requires Valid()
      modifies this, file
      ensures Valid()
      ensures e.None? <==> old(CanSave(works))
      ensures e.None? ==> list == next && Saved()
      ensures e.Some? ==> Untouched()
      ensures e.Some? ==> e.value == old(WhySaveFails(works))
    {
      var before := list;
      list := next;
      Reindex();
      var stat := file.Stat();
      if stat.Some? && stat != loaded {
        e := Some(ChangedOnDisk);
      } else if !works {
        e := Some(WriteFailed);
      } else {
        file.Replace(Doc(JSON_VERSION, list));
        loaded := file.Stat();
        return None;
      }
      list := before;
      Reindex();
    }

    method TakenIds() returns (taken: set<string>)
      ensures taken == AllPanelIds(list)
    {
      taken := {};
      assert list[..0] == [];
      for i := 0 to |list|
        invariant taken == AllPanelIds(list[..i])
      {
        assert list[..i + 1][..i] == list[..i];
        taken := taken + PanelIds(list[i]);
      }
      assert list[..|list|] == list;
    }

    /** The list with a credential more, under its owner. */
    method Attach(adminId: string, handle: string, added: Credential) returns (next: Result<seq<Owner>, StoreError>)
      requires Valid()
      ensures next == WithPasskey(list, adminId, handle, added)
    {
      OwnerIndexesAreScans(list, adminId);
      if adminId in byAdminID {
        var i := byAdminID[adminId];
        if list[i].handle != handle {
          return Err(Conflict);
        }
        if |list[i].credentials| >= MAX_PASSKEYS {
          return Err(Invalid);
        }
        return Ok(list[i := list[i].(credentials := list[i].credentials + [added])]);
      }
      if !ValidHandle(handle) {
        return Err(Invalid);
      }
      return Ok(list + [Owner(adminId, handle, [added])]);
    }

    /** The end of Add: the list with the new record, unless the owner has no place for it. */
    method Enrol(adminId: string, handle: string, added: Credential, works: bool) returns (e: Option<StoreError>)
      requires Valid()
      modifies this, file
      ensures Valid()
      ensures var next := WithPasskey(old(list), adminId, handle, added);
              && (e.None? <==> next.Ok? && old(CanSave(works)))
              && (e.None? ==> Ok(list) == next && Saved())
              && (e.Some? ==> e.value == if next.Err? then next.error else old(WhySaveFails(works)))
      ensures e.Some? ==> Untouched()
    {
      var next := Attach(adminId, handle, added);
      if next.Err? {
        return Some(next.error);
      }
      e := SwapIn(next.value, works);
    }

    /** Add, with so many tries at an id. */
    method AddWithin(
      adminId: string, handle: string, cred: Credential, now: int, draw: Draws, tries: nat, works: bool)
      returns (e: Option<StoreError>)
      requires Valid() && DrawsIds(draw)
      modifies this, file
      ensures Valid()
      ensures var next := AddedWithin(old(list), adminId, handle, cred, now, draw, tries);
              && (e.None? <==> writable && next.Ok? && old(CanSave(works)))
              && (e.None? ==> Ok(list) == next && Saved())
              && (e.Some? ==>
                    e.value == if !writable then ReadOnly
                               else if next.Err? then next.error else old(WhySaveFails(works)))
      ensures e.Some? ==> Untouched()
    {
      if !writable {
        return Some(ReadOnly);
      }
      if !ValidLabel(cred.caption) {
        return Some(Invalid);
      }
      CredIndexIsScan(list, cred.credentialId);
      if cred.credentialId in byCredID {
        return Some(Conflict);
      }
      var taken := TakenIds();
      var id := Mint(draw, taken, tries);
      if id.None? {
        return Some(NoFreshValue);
      }
      var added := cred.(id := id.value, createdAt := Some(WholeSeconds(now)), lastUsedAt := None);
      e := Enrol(adminId, handle, added, works);
    }

    /** Enrolls a credential. It loads again exactly when the credential is well formed and, for a new owner, the id
        is not empty and nobody else holds the handle. */
    method Add(adminId: string, handle: string, cred: Credential, now: int, draw: Draws, works: bool)
      returns (e: Option<StoreError>)
      requires Valid() && DrawsIds(draw)
      modifies this, file
      ensures Valid()
      ensures var next := Added(old(list), adminId, handle, cred, now, draw);
              && (e.None? <==> writable && next.Ok? && old(CanSave(works)))
              && (e.None? ==> Ok(list) == next && Saved())
              && (e.Some? ==>
                    e.value == if !writable then ReadOnly
                               else if next.Err? then next.error else old(WhySaveFails(works)))
      ensures e.None? && old(Loadable(list)) ==>
                (Loadable(list) <==>
                 WellFormed(cred)
                   && (OwnerAt(old(list), adminId).Some? || (adminId != "" && HandleAt(old(list), handle).None?)))
      ensures e.Some? ==> Untouched()
    {
      ghost var was := list;
      e := AddWithin(adminId, handle, cred, now, draw, 8, works);
      if e.None? && Loadable(was) {
        AddKeepsLoadableExactlyWhen(was, adminId, handle, cred, now, draw);
      }
    }

    method Rename(adminId: string, id: string, caption: string, works: bool) returns (e: Option<StoreError>)
      requires Valid()
      modifies this, file
      ensures Valid()
      ensures e.None? <==>
              writable && ValidLabel(caption) && Renamed(old(list), adminId, id, caption).Ok? && old(CanSave(works))
      ensures e.None? ==> Ok(list) == Renamed(old(list), adminId, id, caption) && Saved()
      ensures e.None? && old(Loadable(list)) ==> Loadable(list)
      ensures e.Some? ==> Untouched()
      ensures e.Some? ==>
                e.value == if !writable then ReadOnly
                           else if !ValidLabel(caption) then Invalid
                           else if Renamed(old(list), adminId, id, caption).Err? then NotFound
                           else old(WhySaveFails(works))
    {
      if !writable {
        return Some(ReadOnly);
      }
      if !ValidLabel(caption) {
        return Some(Invalid);
      }
      ghost var was := list;
      OwnerIndexesAreScans(list, adminId);
      if adminId !in byAdminID {
        return Some(NotFound);
      }
      var i := byAdminID[adminId];
      var j := PanelIdAt(list[i].credentials, id);
      if j.None? {
        return Some(NotFound);
      }
      var c := list[i].credentials[j.value].(caption := Trim(caption));
      e := SwapIn(list[i := WithCredential(list[i], j.value, c)], works);
      if e.None? && Loadable(was) {
        RenameKeepsLoadable(was, adminId, id, caption);
      }
    }

    /** Drops a credential, and the owner with its last one. */
    method Remove(adminId: string, id: string, works: bool) returns (e: Option<StoreError>)
      requires Valid()
      modifies this, file
      ensures Valid()
      ensures e.None? <==> writable && Removed(old(list), adminId, id).Ok? && old(CanSave(works))
      ensures e.None? ==> Ok(list) == Removed(old(list), adminId, id) && Saved()
      ensures e.None? && old(Loadable(list)) ==> Loadable(list)
      ensures e.Some? ==> Untouched()
      ensures e.Some? ==>
                e.value == if !writable then ReadOnly
                           else if Removed(old(list), adminId, id).Err? then NotFound else old(WhySaveFails(works))
    {
      if !writable {
        return Some(ReadOnly);
      }
      ghost var was := list;
      OwnerIndexesAreScans(list, adminId);
      if adminId !in byAdminID {
        return Some(NotFound);
      }
      var i := byAdminID[adminId];
      var j := PanelIdAt(list[i].credentials, id);
      if j.None? {
        return Some(NotFound);
      }
      var creds := Without(list[i].credentials, j.value);
      var next := if |creds| == 0 then Without(list, i) else list[i := list[i].(credentials := creds)];
      e := SwapIn(next, works);
      if e.None? && Loadable(was) {
        RemoveKeepsLoadable(was, adminId, id);
      }
    }

    method RecordUse(credentialId: string, signCount: nat, backupState: bool, now: int, works: bool)
      returns (e: Option<StoreError>)
      requires Valid()
      modifies this, file
      ensures Valid()
      ensures e.None? <==>
              writable && Used(old(list), credentialId, signCount, backupState, now).Ok? && old(CanSave(works))
      ensures e.None? ==> Ok(list) == Used(old(list), credentialId, signCount, backupState, now) && Saved()
      ensures e.None? && old(Loadable(list)) ==> Loadable(list)
      ensures e.Some? ==> Untouched()
      ensures e.Some? ==>
                e.value == if !writable then ReadOnly
                           else if Used(old(list), credentialId, signCount, backupState, now).Err? then NotFound
                           else old(WhySaveFails(works))
    {
      if !writable {
        return Some(ReadOnly);
      }
      ghost var was := list;
      CredIndexIsScan(list, credentialId);
      if credentialId !in byCredID {
        return Some(NotFound);
      }
      var (i, j) := byCredID[credentialId];
      var c := list[i].credentials[j].(
        signCount := signCount, backupState := backupState, lastUsedAt := Some(WholeSeconds(now)));
      e := SwapIn(list[i := WithCredential(list[i], j, c)], works);
      if e.None? && Loadable(was) {
        UseKeepsLoadable(was, credentialId, signCount, backupState, now);
      }
    }

    /** Drops the owners whose administrator is gone. Nothing is written when that would drop no credential. */
    method PruneOrphans(known: string -> bool, works: bool) returns (r: Result<nat, StoreError>)
      requires Valid()
      modifies this, file
      ensures Valid()
      ensures r.Ok? <==> writable && (Orphaned(old(list), known) == 0 || old(CanSave(works)))
      ensures r.Ok? ==> r.value == Orphaned(old(list), known)
      ensures r.Ok? && r.value > 0 ==> list == Filtered(old(list), (o: Owner) => known(o.adminId)) && Saved()
      ensures r.Ok? && old(Loadable(list)) ==> Loadable(list)
      ensures r.Err? || r.value == 0 ==> Untouched()
      ensures r.Err? ==> r.error == if !writable then ReadOnly else old(WhySaveFails(works))
    {
      if !writable {
        return Err(ReadOnly);
      }
      var keep := (o: Owner) => known(o.adminId);
      var kept: seq<Owner> := [];
      var dropped := 0;
      assert list[..0] == [];
      for i := 0 to |list|
        invariant kept == Filtered(list[..i], keep) && dropped == Orphaned(list[..i], known)
      {
        assert list[..i + 1][..i] == list[..i];
        if known(list[i].adminId) {
          kept := kept + [list[i]];
        } else {
          dropped := dropped + |list[i].credentials|;
        }
      }
      assert list[..|list|] == list;
      if dropped == 0 {
        return Ok(0);
      }
      ghost var was := list;
      var e := SwapIn(kept, works);
      if e.Some? {
        return Err(e.value);
      }
      if Loadable(was) {
        PruneKeepsLoadable(was, keep);
      }
      r := Ok(dropped);
    }
  }
}
