/** Subscriber records: what the file may hold and how each edit changes a record. internal/store/subscribers.go. */
module SubscriberRules {
  import opened Wrappers
  import opened Text
  import opened Lists
  import opened Files

  const JSON_VERSION := 1
  const MAX_ENTRIES := 32
  const MIN_TOKEN := 26
  const MAX_TOKEN := 64
  const MAX_NAME := 128
  const MAX_NOTE := 4096
  const MAX_LABEL := 128
  const MAX_USER_ID := 128
  const MAX_SERVER_ID := 64

  datatype Entry = Entry(id: string, serverId: string, vlessUserId: string, caption: string, addedAt: int)

  datatype Subscriber = Subscriber(
    id: string, name: string, note: string, token: string, disabled: bool,
    entries: seq<Entry>, createdAt: int, updatedAt: int)

  datatype Doc = Doc(version: int, subscribers: seq<Subscriber>)

  // ---- what load accepts ----

  predicate ValidName(name: string) {
    var n := Trim(name);
    n != "" && |n| <= MAX_NAME && NoControl(n)
  }

  predicate ValidToken(token: string) {
    MIN_TOKEN <= |token| <= MAX_TOKEN && IsCrockford(token)
  }

  predicate ValidReference(id: string, max: nat) {
    id != "" && |id| <= max && forall c :: c in id ==> c > ' ' && c !in "\U{7f}/?#"
  }

  predicate ValidEntry(e: Entry) {
    && ValidReference(e.serverId, MAX_SERVER_ID)
    && ValidReference(e.vlessUserId, MAX_USER_ID)
    && |e.caption| <= MAX_LABEL && NoControl(e.caption)
  }

  predicate ValidStoredEntry(e: Entry) {
    Trim(e.id) != "" && ValidEntry(e)
  }

  /** The two references joined by a NUL, as load compares them. */
  function PairKey(e: Entry): string {
    e.serverId + "\0" + e.vlessUserId
  }

  function EntryId(e: Entry): string { e.id }

  ghost predicate ValidEntries(es: seq<Entry>) {
    |es| <= MAX_ENTRIES && All(es, ValidStoredEntry) && Distinct(es, EntryId) && Distinct(es, PairKey)
  }

  predicate ValidHeader(s: Subscriber) {
    Trim(s.id) != "" && ValidName(s.name) && |s.note| <= MAX_NOTE && ValidToken(ToUpper(s.token))
  }

  ghost predicate ValidSubscriber(s: Subscriber) {
    ValidHeader(s) && ValidEntries(s.entries)
  }

  function IdOf(s: Subscriber): string { s.id }

  function TokenOf(s: Subscriber): string { s.token }

  function UpperTokenOf(s: Subscriber): string { ToUpper(s.token) }

  ghost predicate ValidList(list: seq<Subscriber>) {
    All(list, ValidSubscriber) && Distinct(list, IdOf) && Distinct(list, UpperTokenOf)
  }

  function Canonical(s: Subscriber): Subscriber {
    s.(token := ToUpper(s.token))
  }

  function Normalised(list: seq<Subscriber>): (r: seq<Subscriber>)
    ensures |r| == |list|
  {
    seq(|list|, i requires 0 <= i < |list| => Canonical(list[i]))
  }

  /** The list a file loads as, or nothing when load refuses it. */
  ghost function LoadOf(content: Content<Doc>): Option<seq<Subscriber>> {
    match content
    case Missing => Some([])
    case Garbled => None
    case Holds(doc) =>
      if doc.version == JSON_VERSION && ValidList(doc.subscribers) then Some(Normalised(doc.subscribers)) else None
  }

  /** A list that a restart reads back unchanged once it is saved. */
  ghost predicate Loadable(list: seq<Subscriber>) {
    LoadOf(Holds(Doc(JSON_VERSION, list))) == Some(list)
  }

  predicate IsCanonical(s: Subscriber) {
    ToUpper(s.token) == s.token && ValidToken(s.token)
  }

  /** What the indexes rely on; every reachable list has it. */
  ghost predicate Keyed(list: seq<Subscriber>) {
    Distinct(list, IdOf) && Distinct(list, TokenOf) && All(list, IsCanonical)
  }

  // ---- the edits ----

  datatype Patch = Patch(name: Option<string>, note: Option<string>, disabled: Option<bool>)

  function Patched(s: Subscriber, upd: Patch): Result<Subscriber, StoreError> {
    if upd.name.Some? && !ValidName(Trim(upd.name.value)) then Err(Invalid)
    else if upd.note.Some? && |upd.note.value| > MAX_NOTE then Err(Invalid)
    else
      Ok(s.(name := if upd.name.Some? then Trim(upd.name.value) else s.name,
            note := if upd.note.Some? then upd.note.value else s.note,
            disabled := if upd.disabled.Some? then upd.disabled.value else s.disabled))
  }

  function EntryIds(es: seq<Entry>): set<string> {
    set e | e in es :: e.id
  }

  predicate Attached(es: seq<Entry>, e: Entry) {
    exists x :: x in es && x.serverId == e.serverId && x.vlessUserId == e.vlessUserId
  }

  function WithEntry(s: Subscriber, e: Entry, draw: Draws): Result<Subscriber, StoreError> {
    if |s.entries| >= MAX_ENTRIES then Err(Invalid)
    else if Attached(s.entries, e) then Err(Conflict)
    else
      match FirstFresh(draw, EntryIds(s.entries), 0, 4)
      case None => Err(NoFreshValue)
      case Some(id) => Ok(s.(entries := s.entries + [e.(id := id)]))
  }

  /** The position of the first entry with an id. */
  function EntryAt(es: seq<Entry>, id: string): (r: Option<nat>)
    ensures r.Some? ==> r.value < |es| && es[r.value].id == id
    ensures r.None? ==> forall e :: e in es ==> e.id != id
  {
    if es == [] then None
    else if es[0].id == id then Some(0)
    else
      match EntryAt(es[1..], id)
      case None => None
      case Some(i) => Some(i + 1)
  }

  function Relabelled(s: Subscriber, entryId: string, caption: string): Result<Subscriber, StoreError> {
    match EntryAt(s.entries, entryId)
    case None => Err(NotFound)
    case Some(i) => Ok(s.(entries := s.entries[i := s.entries[i].(caption := caption)]))
  }

  function WithoutEntry(s: Subscriber, entryId: string): Result<Subscriber, StoreError> {
    match EntryAt(s.entries, entryId)
    case None => Err(NotFound)
    case Some(i) => Ok(s.(entries := Without(s.entries, i)))
  }

  function NewSubscriber(id: string, name: string, note: string, token: string, now: int): Subscriber {
    Subscriber(id, name, note, token, false, [], WholeSeconds(now), WholeSeconds(now))
  }

  predicate IsNewToken(token: string) {
    |token| == 32 && IsCrockford(token)
  }

  ghost predicate DrawsTokens(draw: Draws) {
    forall i :: draw(i).Some? ==> IsNewToken(draw(i).value)
  }

  // ---- whatever is saved can be loaded ----

  lemma RandomIdIsNotBlank(id: string)
    requires IsRandomId(id)
    ensures Trim(id) != ""
  {
    assert id[0] in id && id[|id| - 1] in id;
    TrimKeeps(id);
  }

  lemma CrockfordIsUpper(token: string)
    requires IsCrockford(token)
    ensures ToUpper(token) == token
  {
    forall i | 0 <= i < |token|
      ensures UpperChar(token[i]) == token[i]
    {
      assert token[i] in token;
    }
  }

  lemma NormalisedKeepsCanonical(list: seq<Subscriber>)
    ensures Normalised(list) == list <==> forall s :: s in list ==> Canonical(s) == s
  {
    if Normalised(list) == list {
      forall s | s in list
        ensures Canonical(s) == s
      {
        var i :| 0 <= i < |list| && list[i] == s;
        assert Normalised(list)[i] == s;
      }
    }
  }

  /** Loadable, spelled out: a valid list whose tokens are already in the canonical case. */
  lemma LoadableMeans(list: seq<Subscriber>)
    ensures Loadable(list) <==> ValidList(list) && All(list, IsCanonical)
  {
    NormalisedKeepsCanonical(list);
    forall s | s in list && ValidHeader(s)
      ensures Canonical(s) == s <==> IsCanonical(s)
    {
    }
    if ValidList(list) {
      forall s | s in list
        ensures ValidHeader(s)
      {
        assert ValidSubscriber(s);
      }
    }
  }

  lemma CanonicalTokensAgree(list: seq<Subscriber>)
    requires All(list, IsCanonical)
    ensures Distinct(list, UpperTokenOf) <==> Distinct(list, TokenOf)
  {
    forall s | s in list
      ensures UpperTokenOf(s) == TokenOf(s)
    {
      assert IsCanonical(s);
    }
    if Distinct(list, TokenOf) {
      DistinctUnderEqualKeys(list, TokenOf, UpperTokenOf);
    } else if Distinct(list, UpperTokenOf) {
      DistinctUnderEqualKeys(list, UpperTokenOf, TokenOf);
    }
  }

  /** A loadable list is one the indexes can rely on. */
  lemma LoadableIsKeyed(list: seq<Subscriber>)
    requires Loadable(list)
    ensures Keyed(list)
  {
    LoadableMeans(list);
    CanonicalTokensAgree(list);
  }

  /** What load puts in memory, it would load again unchanged. */
  lemma LoadedIsLoadable(list: seq<Subscriber>)
    requires ValidList(list)
    ensures Loadable(Normalised(list))
  {
    var r := Normalised(list);
    forall s | s in r
      ensures ValidSubscriber(s) && IsCanonical(s)
    {
      var i :| 0 <= i < |r| && r[i] == s;
      assert list[i] in list;
      assert ValidSubscriber(list[i]);
      ToUpperIsIdempotent(list[i].token);
    }
    forall i, j
      ensures Differ(r, IdOf, i, j) && Differ(r, UpperTokenOf, i, j)
    {
      assert Differ(list, IdOf, i, j) && Differ(list, UpperTokenOf, i, j);
      if 0 <= i < j < |r| {
        ToUpperIsIdempotent(list[i].token);
        ToUpperIsIdempotent(list[j].token);
      }
    }
    LoadableMeans(r);
  }

  /** Replacing one record by another of the same id and token. */
  lemma ReplacingKeepsLoadable(list: seq<Subscriber>, i: nat, s: Subscriber)
    requires Loadable(list) && i < |list| && s.id == list[i].id && s.token == list[i].token
    ensures Loadable(list[i := s]) <==> ValidSubscriber(s)
  {
    LoadableMeans(list);
    LoadableMeans(list[i := s]);
    assert list[i] in list && IsCanonical(list[i]);
    AllAfterUpdate(list, ValidSubscriber, i, s);
    AllAfterUpdate(list, IsCanonical, i, s);
    DistinctAfterUpdate(list, IdOf, i, s);
    DistinctAfterUpdate(list, UpperTokenOf, i, s);
  }

  lemma ReplacingKeepsKeyed(list: seq<Subscriber>, i: nat, s: Subscriber)
    requires Keyed(list) && i < |list| && s.id == list[i].id && s.token == list[i].token
    ensures Keyed(list[i := s])
  {
    assert list[i] in list && IsCanonical(list[i]);
    AllAfterUpdate(list, IsCanonical, i, s);
    DistinctAfterUpdate(list, IdOf, i, s);
    DistinctAfterUpdate(list, TokenOf, i, s);
  }

  lemma AddingKeepsKeyed(list: seq<Subscriber>, s: Subscriber)
    requires Keyed(list) && ValidToken(s.token)
    requires forall x :: x in list ==> x.id != s.id && x.token != s.token
    ensures Keyed(list + [s])
    ensures IsCanonical(s)
  {
    CrockfordIsUpper(s.token);
    AllAfterAppend(list, IsCanonical, s);
    DistinctAfterAppend(list, IdOf, s);
    DistinctAfterAppend(list, TokenOf, s);
  }

  lemma AddingKeepsLoadable(list: seq<Subscriber>, s: Subscriber)
    requires Loadable(list) && ValidSubscriber(s) && ValidToken(s.token)
    requires forall x :: x in list ==> x.id != s.id && x.token != s.token
    ensures Loadable(list + [s])
  {
    LoadableMeans(list);
    LoadableMeans(list + [s]);
    LoadableIsKeyed(list);
    AddingKeepsKeyed(list, s);
    AllAfterAppend(list, ValidSubscriber, s);
    CanonicalTokensAgree(list + [s]);
  }

  lemma RemovingKeepsKeyed(list: seq<Subscriber>, i: nat)
    requires Keyed(list) && i < |list|
    ensures Keyed(Without(list, i))
  {
    AllAfterRemove(list, IsCanonical, i);
    DistinctAfterRemove(list, IdOf, i);
    DistinctAfterRemove(list, TokenOf, i);
  }

  lemma RemovingKeepsLoadable(list: seq<Subscriber>, i: nat)
    requires Loadable(list) && i < |list|
    ensures Loadable(Without(list, i))
  {
    LoadableMeans(list);
    LoadableMeans(Without(list, i));
    AllAfterRemove(list, IsCanonical, i);
    AllAfterRemove(list, ValidSubscriber, i);
    DistinctAfterRemove(list, IdOf, i);
    DistinctAfterRemove(list, UpperTokenOf, i);
  }

  /** The joined key tells pairs of valid references apart: a NUL cannot occur in either half. */
  lemma PairKeyIsInjective(a: Entry, b: Entry)
    requires '\0' !in a.serverId && '\0' !in b.serverId
    ensures PairKey(a) == PairKey(b) <==> a.serverId == b.serverId && a.vlessUserId == b.vlessUserId
  {
    var x, y, m, n := PairKey(a), PairKey(b), |a.serverId|, |b.serverId|;
    assert x[m] == '\0' && y[n] == '\0';
    assert forall k :: 0 <= k < m ==> x[k] == a.serverId[k];
    assert forall k :: 0 <= k < n ==> y[k] == b.serverId[k];
    if x == y {
      assert m == n;
      assert a.serverId == x[..m] && b.serverId == y[..n];
      assert a.vlessUserId == x[m + 1..] && b.vlessUserId == y[n + 1..];
    }
  }

  /** Without that, the joined key would confuse two different pairs. */
  lemma PairKeyNeedsValidHalves()
    ensures var a, b := Entry("", "x", "y\0z", "", 0), Entry("", "x\0y", "z", "", 0);
            PairKey(a) == PairKey(b) && a.serverId != b.serverId
  {
    assert "x" + "\0" + "y\0z" == "x\0y" + "\0" + "z";
  }

  lemma ReferenceHasNoNul(id: string, max: nat)
    requires ValidReference(id, max)
    ensures '\0' !in id
  {
  }

  lemma PatchedHeader(s: Subscriber, upd: Patch)
    requires ValidHeader(s) && Patched(s, upd).Ok?
    ensures ValidHeader(Patched(s, upd).value)
  {
    var p := Patched(s, upd).value;
    assert ValidName(p.name) && |p.note| <= MAX_NOTE;
    SameIdentity(s, p);
  }

  lemma SameIdentity(s: Subscriber, p: Subscriber)
    requires ValidHeader(s) && p.id == s.id && p.token == s.token && ValidName(p.name) && |p.note| <= MAX_NOTE
    ensures ValidHeader(p)
  {
  }

  lemma PatchKeepsValid(s: Subscriber, upd: Patch)
    requires ValidSubscriber(s) && Patched(s, upd).Ok?
    ensures ValidSubscriber(Patched(s, upd).value)
  {
    PatchedHeader(s, upd);
    assert Patched(s, upd).value.entries == s.entries;
  }

  lemma SameHeader(s: Subscriber, es: seq<Entry>)
    ensures ValidHeader(s.(entries := es)) == ValidHeader(s)
  {
  }

  lemma AttachedEntriesStayValid(es: seq<Entry>, e: Entry, id: string)
    requires ValidEntries(es) && |es| < MAX_ENTRIES && ValidEntry(e) && IsRandomId(id)
    requires !Attached(es, e) && id !in EntryIds(es)
    ensures ValidEntries(es + [e.(id := id)])
  {
    var added := e.(id := id);
    RandomIdIsNotBlank(id);
    assert ValidStoredEntry(added);
    AllAfterAppend(es, ValidStoredEntry, added);
    ReferenceHasNoNul(e.serverId, MAX_SERVER_ID);
    forall x | x in es
      ensures EntryId(x) != EntryId(added) && PairKey(x) != PairKey(added)
    {
      assert ValidStoredEntry(x);
      ReferenceHasNoNul(x.serverId, MAX_SERVER_ID);
      PairKeyIsInjective(x, added);
    }
    DistinctAfterAppend(es, EntryId, added);
    DistinctAfterAppend(es, PairKey, added);
  }

  lemma AttachKeepsValid(s: Subscriber, e: Entry, draw: Draws)
    requires ValidSubscriber(s) && ValidEntry(e) && DrawsIds(draw) && WithEntry(s, e, draw).Ok?
    ensures ValidSubscriber(WithEntry(s, e, draw).value)
  {
    var id := FirstFresh(draw, EntryIds(s.entries), 0, 4).value;
    AttachedEntriesStayValid(s.entries, e, id);
    SameHeader(s, s.entries + [e.(id := id)]);
  }

  lemma DetachKeepsValid(s: Subscriber, entryId: string)
    requires ValidSubscriber(s) && WithoutEntry(s, entryId).Ok?
    ensures ValidSubscriber(WithoutEntry(s, entryId).value)
  {
    var i := EntryAt(s.entries, entryId).value;
    AllAfterRemove(s.entries, ValidStoredEntry, i);
    DistinctAfterRemove(s.entries, EntryId, i);
    DistinctAfterRemove(s.entries, PairKey, i);
    SameHeader(s, Without(s.entries, i));
  }

  /** Relabelling checks only the length, so it keeps a record loadable exactly when the label has no control
      character. */
  lemma RelabelKeepsValidExactlyWhen(s: Subscriber, entryId: string, caption: string)
    requires ValidSubscriber(s) && |caption| <= MAX_LABEL && Relabelled(s, entryId, caption).Ok?
    ensures ValidSubscriber(Relabelled(s, entryId, caption).value) <==> NoControl(caption)
  {
    var i := EntryAt(s.entries, entryId).value;
    var e := s.entries[i].(caption := caption);
    assert s.entries[i] in s.entries && ValidStoredEntry(s.entries[i]);
    assert ValidStoredEntry(e) <==> NoControl(caption);
    AllAfterUpdate(s.entries, ValidStoredEntry, i, e);
    DistinctAfterUpdate(s.entries, EntryId, i, e);
    DistinctAfterUpdate(s.entries, PairKey, i, e);
    SameHeader(s, s.entries[i := e]);
  }

  /** A tab between two letters. */
  const TABBED := "a\tb"

  lemma TabbedHasControl()
    ensures Trim(TABBED) == TABBED && |TABBED| <= MAX_LABEL && !NoControl(TABBED)
  {
    assert TABBED[0] == 'a' && TABBED[1] == '\t' && TABBED[2] == 'b';
    TrimKeeps(TABBED);
    assert TABBED[1] in TABBED;
  }

  /** One label the relabelling accepts and the next load refuses. */
  lemma RelabelCanSaveWhatLoadRefuses(s: Subscriber, entryId: string, caption: string)
    requires ValidSubscriber(s) && EntryAt(s.entries, entryId).Some? && caption == TABBED
    ensures Trim(caption) == caption && |caption| <= MAX_LABEL
    ensures Relabelled(s, entryId, caption).Ok? && !ValidSubscriber(Relabelled(s, entryId, caption).value)
  {
    TabbedHasControl();
    RelabelKeepsValidExactlyWhen(s, entryId, caption);
  }
}
