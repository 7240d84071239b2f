/** The in-memory subscriber list, its indexes and its file. internal/store/subscribers.go. */
module SubscriberStore {
  import opened Wrappers
  import opened Text
  import opened Lists
  import opened Files
  import opened SubscriberRules
  import SubscriberEffects

  // ---- indexes and scans ----

  function IdIndex(list: seq<Subscriber>): map<string, nat> {
    if list == [] then map[] else IdIndex(list[..|list| - 1])[list[|list| - 1].id := |list| - 1]
  }

  function TokenIndex(list: seq<Subscriber>): map<string, string> {
    if list == [] then map[] else TokenIndex(list[..|list| - 1])[list[|list| - 1].token := list[|list| - 1].id]
  }

  /** A linear scan for an id. */
  function PositionOf(list: seq<Subscriber>, id: string): (r: Option<nat>)
    ensures r.Some? ==> r.value < |list| && list[r.value].id == id
    ensures r.None? ==> forall s :: s in list ==> s.id != id
  {
    if list == [] then None
    else if list[|list| - 1].id == id then Some(|list| - 1)
    else PositionOf(list[..|list| - 1], id)
  }

  /** A linear scan for a token. */
  function HolderOf(list: seq<Subscriber>, token: string): (r: Option<Subscriber>)
    ensures r.Some? ==> r.value in list && r.value.token == token
    ensures r.None? ==> forall s :: s in list ==> s.token != token
  {
    if list == [] then None
    else if list[|list| - 1].token == token then Some(list[|list| - 1])
    else HolderOf(list[..|list| - 1], token)
  }

  lemma {:induction false} IdIndexIsScan(list: seq<Subscriber>, id: string)
    ensures id in IdIndex(list) <==> PositionOf(list, id).Some?
    ensures id in IdIndex(list) ==> IdIndex(list)[id] == PositionOf(list, id).value
  {
    if list != [] {
      IdIndexIsScan(list[..|list| - 1], id);
    }
  }

  lemma {:induction false} TokenIndexIsScan(list: seq<Subscriber>, token: string)
    ensures token in TokenIndex(list) <==> HolderOf(list, token).Some?
    ensures token in TokenIndex(list) ==> TokenIndex(list)[token] == HolderOf(list, token).value.id
  {
    if list != [] {
      TokenIndexIsScan(list[..|list| - 1], token);
    }
  }

  /** Through both indexes a token leads to the record that carries it, never to another. */
  lemma TokenLeadsToHolder(list: seq<Subscriber>, token: string)
    requires Keyed(list) && token in TokenIndex(list)
    ensures TokenIndex(list)[token] in IdIndex(list)
    ensures IdIndex(list)[TokenIndex(list)[token]] < |list|
    ensures HolderOf(list, token) == Some(list[IdIndex(list)[TokenIndex(list)[token]]])
  {
    TokenIndexIsScan(list, token);
    var s := HolderOf(list, token).value;
    IdIndexIsScan(list, s.id);
    var i :| 0 <= i < |list| && list[i] == s;
    var p := PositionOf(list, s.id).value;
    if i != p {
      DistinctAt(list, IdOf, i, p);
    }
  }

  // ---- the checks load makes ----

  lemma LongerEntries(es: seq<Entry>, i: nat)
    requires i < |es| <= MAX_ENTRIES && ValidEntries(es[..i])
    ensures es[..i + 1] == es[..i] + [es[i]]
    ensures ValidEntries(es[..i + 1]) <==>
            ValidStoredEntry(es[i]) && EntryId(es[i]) !in Images(es[..i], EntryId)
              && PairKey(es[i]) !in Images(es[..i], PairKey)
    ensures ValidEntries(es) ==> ValidEntries(es[..i + 1])
  {
    assert es[..i + 1] == es[..i] + [es[i]];
    AllAfterAppend(es[..i], ValidStoredEntry, es[i]);
    DistinctAfterAppend(es[..i], EntryId, es[i]);
    DistinctAfterAppend(es[..i], PairKey, es[i]);
    if ValidEntries(es) {
      assert forall e :: e in es[..i + 1] ==> e in es;
      DistinctPrefix(es, EntryId, i + 1);
      DistinctPrefix(es, PairKey, i + 1);
    }
  }

  method CheckEntries(es: seq<Entry>) returns (ok: bool)
    ensures ok <==> ValidEntries(es)
  {
    if |es| > MAX_ENTRIES {
      return false;
    }
    var seenEntry: set<string>, seenPair: set<string> := {}, {};
    for i := 0 to |es|
      invariant ValidEntries(es[..i])
      invariant seenEntry == Images(es[..i], EntryId) && seenPair == Images(es[..i], PairKey)
    {
      var e := es[i];
      LongerEntries(es, i);
      ImagesOfLonger(es[..i], EntryId, e);
      ImagesOfLonger(es[..i], PairKey, e);
      if Trim(e.id) == "" || e.id in seenEntry {
        return false;
      }
      seenEntry := seenEntry + {e.id};
      if !ValidEntry(e) {
        return false;
      }
      var pair := PairKey(e);
      if pair in seenPair {
        return false;
      }
      seenPair := seenPair + {pair};
    }
    assert es[..|es|] == es;
    return true;
  }

  lemma ValidPrefix(list: seq<Subscriber>, i: nat)
    requires i <= |list|
    ensures ValidList(list) ==> ValidList(list[..i])
  {
    if ValidList(list) {
      assert forall s :: s in list[..i] ==> s in list;
      DistinctPrefix(list, IdOf, i);
      DistinctPrefix(list, UpperTokenOf, i);
    }
  }

  /** Load's step: one more record is fine when it is valid and repeats neither an id nor a token. */
  lemma LongerPrefix(list: seq<Subscriber>, s: Subscriber)
    requires ValidList(list)
    ensures ValidList(list + [s]) <==>
            ValidSubscriber(s) && IdOf(s) !in Images(list, IdOf) && UpperTokenOf(s) !in Images(list, UpperTokenOf)
  {
    AllAfterAppend(list, ValidSubscriber, s);
    DistinctAfterAppend(list, IdOf, s);
    DistinctAfterAppend(list, UpperTokenOf, s);
  }

  lemma CheckStep(list: seq<Subscriber>, i: nat)
    requires i < |list| && ValidList(list[..i])
    ensures ValidList(list[..i + 1]) <==>
            && ValidSubscriber(list[i])
            && IdOf(list[i]) !in Images(list[..i], IdOf) && UpperTokenOf(list[i]) !in Images(list[..i], UpperTokenOf)
    ensures Images(list[..i + 1], IdOf) == Images(list[..i], IdOf) + {IdOf(list[i])}
    ensures Images(list[..i + 1], UpperTokenOf) == Images(list[..i], UpperTokenOf) + {UpperTokenOf(list[i])}
  {
    assert list[..i + 1] == list[..i] + [list[i]];
    LongerPrefix(list[..i], list[i]);
    ImagesOfLonger(list[..i], IdOf, list[i]);
    ImagesOfLonger(list[..i], UpperTokenOf, list[i]);
  }

  method CheckList(list: seq<Subscriber>) returns (ok: bool)
    ensures ok <==> ValidList(list)
  {
    var seenID: set<string>, seenToken: set<string> := {}, {};
    for i := 0 to |list|
      invariant ValidList(list[..i])
      invariant seenID == Images(list[..i], IdOf) && seenToken == Images(list[..i], UpperTokenOf)
    {
      var s := list[i];
      CheckStep(list, i);
      var fine := CheckRecord(s, seenID, seenToken);
      ValidPrefix(list, i + 1);
      if !fine {
        return false;
      }
      seenID, seenToken := seenID + {s.id}, seenToken + {ToUpper(s.token)};
    }
    assert list[..|list|] == list;
    return true;
  }

  method CheckRecord(s: Subscriber, seenID: set<string>, seenToken: set<string>) returns (ok: bool)
    ensures ok <==> ValidSubscriber(s) && IdOf(s) !in seenID && UpperTokenOf(s) !in seenToken
  {
    if !ValidHeader(s) || s.id in seenID || ToUpper(s.token) in seenToken {
      return false;
    }
    ok := CheckEntries(s.entries);
  }

  /** Hand-edited lower-case tokens are brought to the canonical case. */
  method Normalise(subscribers: seq<Subscriber>) returns (list: seq<Subscriber>)
    ensures list == Normalised(subscribers)
  {
    list := subscribers;
    for i := 0 to |list|
      invariant |list| == |subscribers|
      invariant forall k :: 0 <= k < i ==> list[k] == Canonical(subscribers[k])
      invariant forall k :: i <= k < |list| ==> list[k] == subscribers[k]
    {
      list := list[i := list[i].(token := ToUpper(list[i].token))];
    }
  }

  // ---- edits of the list ----

  type Edit = Subscriber -> Result<Subscriber, StoreError>

  ghost predicate KeepsIdentity(edit: Edit) {
    forall s :: edit(s).Ok? ==> edit(s).value.id == s.id && edit(s).value.token == s.token
  }

  function Stamped(r: Result<Subscriber, StoreError>, now: int): Result<Subscriber, StoreError> {
    if r.Ok? then Ok(r.value.(updatedAt := WholeSeconds(now))) else r
  }

  /** The record an edit makes of the subscriber with that id. */
  function Edited(list: seq<Subscriber>, id: string, edit: Edit, now: int): Result<Subscriber, StoreError> {
    match PositionOf(list, id)
    case None => Err(NotFound)
    case Some(i) => Stamped(edit(list[i]), now)
  }

  /** An edit reaches the one record with that id, and stamps what it makes of it with the current second. */
  lemma EditReachesTheRecord(list: seq<Subscriber>, id: string, edit: Edit, now: int, i: nat)
    requires i < |list| && forall k :: 0 <= k < |list| ==> (list[k].id == id <==> k == i)
    ensures PositionOf(list, id) == Some(i)
    ensures if edit(list[i]).Err? then Edited(list, id, edit, now) == edit(list[i])
            else && Edited(list, id, edit, now).Ok?
                 && var s, t := edit(list[i]).value, Edited(list, id, edit, now).value;
                    t == s.(updatedAt := t.updatedAt) && InSeconds(t.updatedAt, now)
  {
    SecondsAreWhole(now);
    assert list[i] in list;
  }

  lemma UnknownIsNotFound(list: seq<Subscriber>, id: string, edit: Edit, now: int)
    requires forall s :: s in list ==> s.id != id
    ensures Edited(list, id, edit, now) == Err(NotFound)
  {
  }

  /** The edit Attach makes. */
  function Attaching(e: Entry, draw: Draws): Edit {
    s => WithEntry(s, e, draw)
  }

  lemma AttachingKeepsIdentity(e: Entry, draw: Draws)
    ensures KeepsIdentity(Attaching(e, draw))
  {
  }

  lemma StampKeepsValid(s: Subscriber, at: int)
    ensures ValidSubscriber(s.(updatedAt := at)) == ValidSubscriber(s)
  {
  }

  lemma LoadedRecordIsValid(list: seq<Subscriber>, i: nat)
    requires Loadable(list) && i < |list|
    ensures ValidSubscriber(list[i])
  {
    LoadableMeans(list);
    assert list[i] in list;
  }

  /** An edited record leaves the list loadable exactly when it is itself valid. */
  lemma EditKeepsLoadableExactlyWhen(list: seq<Subscriber>, i: nat, s: Subscriber, at: int)
    requires Loadable(list) && i < |list| && s.id == list[i].id && s.token == list[i].token
    ensures Loadable(list[i := s.(updatedAt := at)]) <==> ValidSubscriber(s)
  {
    StampKeepsValid(s, at);
    ReplacingKeepsLoadable(list, i, s.(updatedAt := at));
  }

  lemma PatchingKeepsLoadable(list: seq<Subscriber>, i: nat, upd: Patch, at: int)
    requires Loadable(list) && i < |list| && Patched(list[i], upd).Ok?
    ensures Loadable(list[i := Patched(list[i], upd).value.(updatedAt := at)])
  {
    LoadedRecordIsValid(list, i);
    PatchKeepsValid(list[i], upd);
    EditKeepsLoadableExactlyWhen(list, i, Patched(list[i], upd).value, at);
  }

  lemma AttachingKeepsLoadable(list: seq<Subscriber>, i: nat, e: Entry, draw: Draws, at: int)
    requires Loadable(list) && i < |list| && ValidEntry(e) && DrawsIds(draw) && WithEntry(list[i], e, draw).Ok?
    ensures Loadable(list[i := WithEntry(list[i], e, draw).value.(updatedAt := at)])
  {
    LoadedRecordIsValid(list, i);
    AttachKeepsValid(list[i], e, draw);
    AttachingKeepsIdentity(e, draw);
    EditKeepsLoadableExactlyWhen(list, i, Attaching(e, draw)(list[i]).value, at);
  }

  lemma DetachingKeepsLoadable(list: seq<Subscriber>, i: nat, entryId: string, at: int)
    requires Loadable(list) && i < |list| && WithoutEntry(list[i], entryId).Ok?
    ensures Loadable(list[i := WithoutEntry(list[i], entryId).value.(updatedAt := at)])
  {
    LoadedRecordIsValid(list, i);
    DetachKeepsValid(list[i], entryId);
    EditKeepsLoadableExactlyWhen(list, i, WithoutEntry(list[i], entryId).value, at);
  }

  lemma RelabellingKeepsLoadableExactlyWhen(list: seq<Subscriber>, i: nat, entryId: string, caption: string, at: int)
    requires Loadable(list) && i < |list| && |caption| <= MAX_LABEL && Relabelled(list[i], entryId, caption).Ok?
    ensures Loadable(list[i := Relabelled(list[i], entryId, caption).value.(updatedAt := at)]) <==> NoControl(caption)
  {
    LoadedRecordIsValid(list, i);
    RelabelKeepsValidExactlyWhen(list[i], entryId, caption);
    EditKeepsLoadableExactlyWhen(list, i, Relabelled(list[i], entryId, caption).value, at);
  }

  /** What Create sees to, but for the keys being new. */
  predicate FitsAsNew(s: Subscriber) {
    IsRandomId(s.id) && IsNewToken(s.token) && ValidName(s.name) && |s.note| <= MAX_NOTE && s.entries == []
  }

  lemma NewRecordFits(id: string, name: string, note: string, token: string, now: int)
    requires IsRandomId(id) && IsNewToken(token) && ValidName(name) && |note| <= MAX_NOTE
    ensures FitsAsNew(NewSubscriber(id, name, note, token, now))
  {
  }

  /** The subscribers of one panel process. */
  class Subscribers {
    const file: DocFile<Doc>
    const writable: bool
    var list: seq<Subscriber>
    var byID: map<string, nat>
    var byToken: map<string, string>
    var loaded: Option<nat>

    /** Memory and file hold the same subscribers. */
    ghost predicate InStep()
      reads this, file
    {
      match file.content
      case Missing => list == []
      case Garbled => false
      case Holds(doc) => Normalised(doc.subscribers) == list
    }

    /** The indexes agree with the list, and memory is in step with the file unless somebody else moved it. */
    ghost predicate Valid()
      reads this, file
    {
      && Keyed(list)
      && byID == IdIndex(list) && byToken == TokenIndex(list)
      && (loaded.Some? ==> loaded.value <= file.stamp)
      && (loaded == file.Stat() ==> InStep())
    }

    twostate predicate Untouched()
      reads this, file
    {
      && list == old(list) && byID == old(byID) && byToken == old(byToken) && loaded == old(loaded)
      && file.content == old(file.content) && file.stamp == old(file.stamp)
    }

    ghost predicate Saved()
      reads this, file
    {
      file.content == Holds(Doc(JSON_VERSION, list)) && loaded == file.Stat()
    }

    /** Whether saving goes through: the file has not moved, and the write succeeds. */
    predicate CanSave(works: bool)
      reads this, file
    {
      MayWrite(file.Stat(), loaded) && works
    }

    /** And if not, why not. */
    function WhySaveFails(works: bool): StoreError
      reads this, file
    {
      var e := SaveError(MayWrite(file.Stat(), loaded), works);
      if e.Some? then e.value else WriteFailed
    }

    constructor (file: DocFile<Doc>, writable: bool)
      ensures this.file == file && this.writable == writable
      ensures Valid() && list == []
    {
      this.file, this.writable := file, writable;
      list, byID, byToken, loaded := [], map[], map[], None;
    }

    /** Reads and checks the whole file before swapping it in. */
    method Load() returns (ok: bool)
      modifies this
      ensures ok <==> LoadOf(file.content).Some?
      ensures ok ==> Valid() && Some(list) == LoadOf(file.content) && loaded == file.Stat() && Loadable(list)
      ensures ok ==> CanSave(true)
      ensures !ok ==> Untouched()
    {
      var subscribers: seq<Subscriber> := [];
      match file.content {
        case Missing =>
        case Garbled => return false;
        case Holds(doc) =>
          if doc.version != JSON_VERSION {
            return false;
          }
          subscribers := doc.subscribers;
      }
      ok := CheckList(subscribers);
      if !ok {
        return;
      }
      list := Normalise(subscribers);
      LoadedIsLoadable(subscribers);
      LoadableIsKeyed(list);
      Reindex();
      loaded := file.Stat();
    }

    method Reindex()
      modifies this`byID, this`byToken
      ensures byID == IdIndex(list) && byToken == TokenIndex(list)
    {
      byID, byToken := map[], map[];
      assert list[..0] == [];
      for i := 0 to |list|
        invariant byID == IdIndex(list[..i]) && byToken == TokenIndex(list[..i])
      {
        assert list[..i + 1][..i] == list[..i];
        byID := byID[list[i].id := i];
        byToken := byToken[list[i].token := list[i].id];
      }
      assert list[..|list|] == list;
    }

    /** Resolves a share token: what a linear scan over the tokens would find. */
    method GetByToken(token: string) returns (r: Option<Subscriber>)
      requires Valid()
      ensures r == HolderOf(list, ToUpper(Trim(token)))
    {
      var upper := ToUpper(Trim(token));
      if HolderOf(list, upper).Some? {
        assert IsCanonical(HolderOf(list, upper).value);
      }
      if token == "" {
        return None;
      }
      if !ValidToken(upper) {
        return None;
      }
      TokenIndexIsScan(list, upper);
      if upper !in byToken {
        return None;
      }
      TokenLeadsToHolder(list, upper);
      r := Some(list[byID[byToken[upper]]]);
    }

    method Get(id: string) returns (r: Option<Subscriber>)
      requires Valid()
      ensures r == match PositionOf(list, id) case None => None case Some(i) => Some(list[i])
    {
      IdIndexIsScan(list, id);
      if id !in byID {
        return None;
      }
      r := Some(list[byID[id]]);
    }

    /** Reindexes and writes; refuses when the file moved underneath. */
    method Commit(works: bool) returns (e: Option<StoreError>)
      requires loaded.Some? ==> loaded.value <= file.stamp
      modifies this`byID, this`byToken, this`loaded, file
      ensures byID == IdIndex(list) && byToken == TokenIndex(list)
      ensures e.None? <==> old(CanSave(works))
      ensures e.None? ==> Saved() && loaded.value <= file.stamp
      ensures e.Some? ==> loaded == old(loaded) && file.content == old(file.content) && file.stamp == old(file.stamp)
      ensures e.Some? ==> e.value == old(WhySaveFails(works))
    {
      Reindex();
      var stat := file.Stat();
      if stat.Some? && stat != loaded {
        return Some(ChangedOnDisk);
      }
      if !works {
        return Some(WriteFailed);
      }
      file.Replace(Doc(JSON_VERSION, list));
      loaded := file.Stat();
      return None;
    }

    method Create(name: string, note: string, now: int, ids: Draws, tokens: Draws, works: bool)
      returns (r: Result<Subscriber, StoreError>)
      requires Valid() && DrawsIds(ids) && DrawsTokens(tokens)
      modifies this, file
      ensures Valid()
      ensures r.Ok? <==> writable && ValidName(Trim(name)) && |note| <= MAX_NOTE
                         && FirstFresh(ids, old(byID).Keys, 0, 4).Some?
                            && FirstFresh(tokens, old(byToken).Keys, 0, 4).Some?
                         && old(CanSave(works))
      ensures r.Ok? ==> list == old(list) + [r.value] && Saved()
      ensures r.Ok? ==> r.value == NewSubscriber(FirstFresh(ids, old(byID).Keys, 0, 4).value, Trim(name), note,
                                                 FirstFresh(tokens, old(byToken).Keys, 0, 4).value, now)
      ensures r.Ok? && old(Loadable(list)) ==> Loadable(list)
      ensures r.Err? ==> Untouched()
      ensures r.Err? ==>
                r.error == if !writable then ReadOnly
                           else if !ValidName(Trim(name)) || |note| > MAX_NOTE then Invalid
                           else if FirstFresh(ids, old(byID).Keys, 0, 4).None?
                                   || FirstFresh(tokens, old(byToken).Keys, 0, 4).None? then NoFreshValue
                           else old(WhySaveFails(works))
    {
      if !writable {
        return Err(ReadOnly);
      }
      if !ValidName(Trim(name)) || |note| > MAX_NOTE {
        return Err(Invalid);
      }
      r := MakeNew(Trim(name), note, now, ids, tokens, 4, works);
    }

    /** Create, once the fields have been checked. */
    method MakeNew(name: string, note: string, now: int, ids: Draws, tokens: Draws, tries: nat, works: bool)
      returns (r: Result<Subscriber, StoreError>)
      requires Valid() && DrawsIds(ids) && DrawsTokens(tokens) && ValidName(name) && |note| <= MAX_NOTE
      modifies this, file
      ensures Valid()
      ensures var id, token :=
                FirstFresh(ids, old(byID).Keys, 0, tries), FirstFresh(tokens, old(byToken).Keys, 0, tries);
              && (r.Ok? <==> id.Some? && token.Some? && old(CanSave(works)))
              && (r.Ok? ==> r.value == NewSubscriber(id.value, name, note, token.value, now))
              && (r.Err? ==> r.error == if id.None? || token.None? then NoFreshValue else old(WhySaveFails(works)))
      ensures r.Ok? ==> list == old(list) + [r.value] && Saved()
      ensures r.Ok? && old(Loadable(list)) ==> Loadable(list)
      ensures r.Err? ==> Untouched()
    {
      var id := Mint(ids, byID.Keys, tries);
      if id.None? {
        return Err(NoFreshValue);
      }
      var token := Mint(tokens, byToken.Keys, tries);
      if token.None? {
        return Err(NoFreshValue);
      }
      var s := NewSubscriber(id.value, name, note, token.value, now);
      NewRecordFits(id.value, name, note, token.value, now);
      var e := AddNew(s, works);
      r := if e.Some? then Err(e.value) else Ok(s);
    }

    /** Create, once the record is made. */
    method AddNew(s: Subscriber, works: bool) returns (e: Option<StoreError>)
      requires Valid() && FitsAsNew(s) && s.id !in byID && s.token !in byToken
      modifies this, file
      ensures Valid()
      ensures e.None? <==> old(CanSave(works))
      ensures e.None? ==> list == old(list) + [s] && Saved()
      ensures e.None? && old(Loadable(list)) ==> Loadable(list)
      ensures e.Some? ==> Untouched() && e.value == old(WhySaveFails(works))
    {
      NewcomerFits(list, s);
      e := Append(s, works);
    }

    /** The last step of Create: a save that fails takes the record out again. */
    method Append(s: Subscriber, works: bool) returns (e: Option<StoreError>)
      requires Valid() && Keyed(list + [s])
      modifies this, file
      ensures Valid()
      ensures e.None? <==> old(CanSave(works))
      ensures e.None? ==> list == old(list) + [s] && Saved()
      ensures e.Some? ==> Untouched() && e.value == old(WhySaveFails(works))
    {
      ghost var was := list;
      list := list + [s];
      e := Commit(works);
      if e.Some? {
        list := list[..|list| - 1];
        assert list == was;
        Reindex();
      } else {
        SavedIsInStep();
      }
    }

    lemma SavedIsInStep()
      requires Keyed(list) && Saved()
      ensures InStep()
    {
      NormalisedKeepsCanonical(list);
      forall s | s in list
        ensures Canonical(s) == s
      {
        assert IsCanonical(s);
      }
    }

    /** Applies an edit to a copy, and swaps it in only if both the edit and the save succeed. */
    method Mutate(id: string, now: int, edit: Edit, works: bool) returns (r: Result<Subscriber, StoreError>)
      requires Valid() && KeepsIdentity(edit)
      modifies this, file
      ensures Valid()
      ensures r.Ok? <==> writable && Edited(old(list), id, edit, now).Ok? && old(CanSave(works))
      ensures r.Ok? ==> r == Edited(old(list), id, edit, now) && Saved()
      ensures r.Ok? ==> list == old(list)[PositionOf(old(list), id).value := r.value]
      ensures r.Err? ==> Untouched()
      ensures r.Err? ==>
                r.error == if !writable then ReadOnly
                           else if Edited(old(list), id, edit, now).Err? then Edited(old(list), id, edit, now).error
                           else old(WhySaveFails(works))
    {
      if !writable {
        return Err(ReadOnly);
      }
      IdIndexIsScan(list, id);
      if id !in byID {
        return Err(NotFound);
      }
      var i := byID[id];
      var before := list[i];
      var edited := edit(before);
      if edited.Err? {
        return edited;
      }
      var working := edited.value.(updatedAt := WholeSeconds(now));
      ReplacingKeepsKeyed(list, i, working);
      ghost var was := list;
      list := list[i := working];
      var e := Commit(works);
      if e.Some? {
        list := list[i := before];
        assert list == was;
        Reindex();
        return Err(e.value);
      }
      SavedIsInStep();
      r := Ok(working);
    }

    method Update(id: string, upd: Patch, now: int, works: bool) returns (r: Result<Subscriber, StoreError>)
      requires Valid()
      modifies this, file
      ensures Valid()
      ensures r.Ok? <==> writable && Edited(old(list), id, s => Patched(s, upd), now).Ok? && old(CanSave(works))
      ensures r.Ok? ==> r == Edited(old(list), id, s => Patched(s, upd), now) && Saved()
      ensures r.Ok? ==> list == old(list)[PositionOf(old(list), id).value := r.value]
      ensures r.Ok? ==> SubscriberEffects.Follows(old(list)[PositionOf(old(list), id).value], r.value, upd, now)
      ensures r.Ok? && old(Loadable(list)) ==> Loadable(list)
      ensures r.Err? ==> Untouched()
      ensures r.Err? ==>
                r.error == if !writable then ReadOnly
                           else if Edited(old(list), id, s => Patched(s, upd), now).Err?
                             then Edited(old(list), id, s => Patched(s, upd), now).error
                           else old(WhySaveFails(works))
    {
      ghost var was := list;
      r := Mutate(id, now, s => Patched(s, upd), works);
      if r.Ok? {
        SubscriberEffects.PatchedFollows(was[PositionOf(was, id).value], upd, now);
      }
      if r.Ok? && Loadable(was) {
        var i := PositionOf(was, id).value;
        PatchingKeepsLoadable(was, i, upd, WholeSeconds(now));
      }
    }

    method Delete(id: string, works: bool) returns (e: Option<StoreError>)
      requires Valid()
      modifies this, file
      ensures Valid()
      ensures e.None? <==> writable && PositionOf(old(list), id).Some? && old(CanSave(works))
      ensures e.None? ==> list == Without(old(list), PositionOf(old(list), id).value) && Saved()
      ensures e.None? && old(Loadable(list)) ==> Loadable(list)
      ensures e.Some? ==> Untouched()
      ensures e.Some? ==>
                e.value == if !writable then ReadOnly
                           else if PositionOf(old(list), id).None? then NotFound else old(WhySaveFails(works))
    {
      if !writable {
        return Some(ReadOnly);
      }
      IdIndexIsScan(list, id);
      if id !in byID {
        return Some(NotFound);
      }
      ghost var was := list;
      var i := byID[id];
      var removed := list[i];
      RemovingKeepsKeyed(list, i);
      list := Without(list, i);
      e := Commit(works);
      if e.Some? {
        list := list[..i] + [removed] + list[i..];
        assert list == was;
        Reindex();
        return;
      }
      SavedIsInStep();
      if Loadable(was) {
        RemovingKeepsLoadable(was, i);
      }
    }

    method Attach(id: string, serverId: string, vlessUserId: string, caption: string, now: int, ids: Draws, works: bool)
      returns (r: Result<Subscriber, StoreError>)
      requires Valid() && DrawsIds(ids)
      modifies this, file
      ensures Valid()
      ensures var e := Entry("", Trim(serverId), Trim(vlessUserId), Trim(caption), WholeSeconds(now));
              && (r.Ok? <==> ValidEntry(e) && writable
                             && Edited(old(list), id, Attaching(e, ids), now).Ok? && old(CanSave(works)))
              && (r.Ok? ==> r == Edited(old(list), id, Attaching(e, ids), now))
      ensures r.Ok? ==> list == old(list)[PositionOf(old(list), id).value := r.value] && Saved()
      ensures r.Ok? && old(Loadable(list)) ==> Loadable(list)
      ensures r.Err? ==> Untouched()
      ensures var e := Entry("", Trim(serverId), Trim(vlessUserId), Trim(caption), WholeSeconds(now));
              r.Err? ==>
                r.error == if !ValidEntry(e) then Invalid
                           else if !writable then ReadOnly
                           else if Edited(old(list), id, Attaching(e, ids), now).Err?
                           then Edited(old(list), id, Attaching(e, ids), now).error
                           else old(WhySaveFails(works))
    {
      var e := Entry("", Trim(serverId), Trim(vlessUserId), Trim(caption), WholeSeconds(now));
      if !ValidEntry(e) {
        return Err(Invalid);
      }
      r := AttachEntry(id, e, now, ids, works);
    }

    /** Attach, once the entry has been checked. */
    method AttachEntry(id: string, e: Entry, now: int, ids: Draws, works: bool)
      returns (r: Result<Subscriber, StoreError>)
      requires Valid() && DrawsIds(ids) && ValidEntry(e)
      modifies this, file
      ensures Valid()
      ensures r.Ok? <==> writable && Edited(old(list), id, Attaching(e, ids), now).Ok? && old(CanSave(works))
      ensures r.Ok? ==> r == Edited(old(list), id, Attaching(e, ids), now) && Saved()
      ensures r.Ok? ==> list == old(list)[PositionOf(old(list), id).value := r.value]
      ensures r.Ok? && old(Loadable(list)) ==> Loadable(list)
      ensures r.Err? ==> Untouched()
      ensures r.Err? ==>
                r.error == if !writable then ReadOnly
                           else if Edited(old(list), id, Attaching(e, ids), now).Err?
                             then Edited(old(list), id, Attaching(e, ids), now).error
                           else old(WhySaveFails(works))
    {
      ghost var was := list;
      AttachingKeepsIdentity(e, ids);
      r := Mutate(id, now, Attaching(e, ids), works);
      if r.Ok? && Loadable(was) {
        AttachingKeepsLoadable(was, PositionOf(was, id).value, e, ids, WholeSeconds(now));
      }
    }

    /** Relabels an attachment. Only the length is checked, so what it saves loads again exactly when the label has
        no control character. */
    method UpdateEntry(id: string, entryId: string, caption: string, now: int, works: bool)
      returns (r: Result<Subscriber, StoreError>)
      requires Valid()
      modifies this, file
      ensures Valid()
      ensures r.Ok? <==> |Trim(caption)| <= MAX_LABEL && writable
                         && Edited(old(list), id, s => Relabelled(s, entryId, Trim(caption)), now).Ok?
                            && old(CanSave(works))
      ensures r.Ok? ==> r == Edited(old(list), id, s => Relabelled(s, entryId, Trim(caption)), now) && Saved()
      ensures r.Ok? ==> list == old(list)[PositionOf(old(list), id).value := r.value]
      ensures r.Ok? && old(Loadable(list)) ==> (Loadable(list) <==> NoControl(Trim(caption)))
      ensures r.Err? ==> Untouched()
      ensures r.Err? ==>
                r.error == if |Trim(caption)| > MAX_LABEL then Invalid
                           else if !writable then ReadOnly
                           else if Edited(old(list), id, s => Relabelled(s, entryId, Trim(caption)), now).Err?
                           then Edited(old(list), id, s => Relabelled(s, entryId, Trim(caption)), now).error
                           else old(WhySaveFails(works))
    {
      ghost var was := list;
      var trimmed := Trim(caption);
      if |trimmed| > MAX_LABEL {
        return Err(Invalid);
      }
      r := Mutate(id, now, s => Relabelled(s, entryId, trimmed), works);
      if r.Ok? && Loadable(was) {
        var i := PositionOf(was, id).value;
        RelabellingKeepsLoadableExactlyWhen(was, i, entryId, trimmed, WholeSeconds(now));
      }
    }

    method Detach(id: string, entryId: string, now: int, works: bool) returns (r: Result<Subscriber, StoreError>)
      requires Valid()
      modifies this, file
      ensures Valid()
      ensures r.Ok? <==>
              writable && Edited(old(list), id, s => WithoutEntry(s, entryId), now).Ok? && old(CanSave(works))
      ensures r.Ok? ==> r == Edited(old(list), id, s => WithoutEntry(s, entryId), now) && Saved()
      ensures r.Ok? ==> list == old(list)[PositionOf(old(list), id).value := r.value]
      ensures r.Ok? && old(Loadable(list)) ==> Loadable(list)
      ensures r.Err? ==> Untouched()
      ensures r.Err? ==>
                r.error == if !writable then ReadOnly
                           else if Edited(old(list), id, s => WithoutEntry(s, entryId), now).Err?
                             then Edited(old(list), id, s => WithoutEntry(s, entryId), now).error
                           else old(WhySaveFails(works))
    {
      ghost var was := list;
      r := Mutate(id, now, s => WithoutEntry(s, entryId), works);
      if r.Ok? && Loadable(was) {
        var i := PositionOf(was, id).value;
        DetachingKeepsLoadable(was, i, entryId, WholeSeconds(now));
      }
    }
  }

  lemma TokenIsFolded(token: string)
    requires ToUpper(token) == token && ValidToken(token)
    ensures ToUpper(Trim(token)) == token
  {
    SubscriberEffects.TokensFit(token);
    TrimKeeps(token);
  }

  lemma HolderIsUnique(list: seq<Subscriber>, i: nat)
    requires Distinct(list, TokenOf) && i < |list|
    ensures HolderOf(list, list[i].token) == Some(list[i])
  {
    var h := HolderOf(list, list[i].token).value;
    var k :| 0 <= k < |list| && list[k] == h;
    if k != i {
      DistinctAt(list, TokenOf, k, i);
    }
  }

  lemma TokenHolder(list: seq<Subscriber>, i: nat)
    requires Keyed(list) && i < |list|
    ensures ToUpper(Trim(list[i].token)) == list[i].token && HolderOf(list, list[i].token) == Some(list[i])
  {
    assert list[i] in list && IsCanonical(list[i]);
    TokenIsFolded(list[i].token);
    HolderIsUnique(list, i);
  }

  /** Switching a subscriber off or on is what their share link then finds. */
  method Switch(s: Subscribers, id: string, off: bool, now: int, works: bool)
    returns (r: Result<Subscriber, StoreError>, found: Option<Subscriber>)
    requires s.Valid()
    modifies s, s.file
    ensures s.Valid()
    ensures r.Ok? ==> r.value.id == id && r.value.disabled == off && found == Some(r.value)
  {
    found := None;
    ghost var was := s.list;
    r := s.Update(id, Patch(None, None, Some(off)), now, works);
    if r.Ok? {
      TokenHolder(s.list, PositionOf(was, id).value);
      found := s.GetByToken(r.value.token);
    }
  }

  /** Somebody else writes the file: the indexes still hold, and from then on nothing is saved over that edit. */
  method OutsideEdit(s: Subscribers, doc: Doc)
    requires s.Valid()
    modifies s.file
    ensures s.Valid() && s.list == old(s.list)
    ensures !s.CanSave(true) && s.WhySaveFails(true) == ChangedOnDisk && s.file.content == Holds(doc)
  {
    s.file.Replace(doc);
  }

  lemma NewSubscriberIsValid(s: Subscriber)
    requires FitsAsNew(s)
    ensures ValidSubscriber(s) && ValidToken(s.token)
  {
    RandomIdIsNotBlank(s.id);
    CrockfordIsUpper(s.token);
  }

  /** A record with a fresh id and a fresh token joins a list without upsetting it. */
  lemma NewcomerFits(list: seq<Subscriber>, s: Subscriber)
    requires Keyed(list) && s.id !in IdIndex(list) && s.token !in TokenIndex(list) && FitsAsNew(s)
    ensures Keyed(list + [s])
    ensures Loadable(list) ==> Loadable(list + [s])
  {
    IdIndexIsScan(list, s.id);
    TokenIndexIsScan(list, s.token);
    NewSubscriberIsValid(s);
    AddingKeepsKeyed(list, s);
    if Loadable(list) {
      AddingKeepsLoadable(list, s);
    }
  }
}
