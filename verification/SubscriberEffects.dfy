/** What each edit of a subscriber does, field by field, told without the functions that compute it:
    internal/store/subscribers.go. */
module SubscriberEffects {
  import opened Wrappers
  import opened Text
  import opened Lists
  import opened Files
  import opened SubscriberRules

  // ---- what the fields may hold ----

  predicate NameFits(name: string) {
    1 <= |Trim(name)| <= 128 && Printable(Trim(name))
  }

  /** Crockford's digits: all but I, L, O and U of the capitals, and the decimal digits. */
  predicate CrockfordDigit(c: char) {
    '0' <= c <= '9' || ('A' <= c <= 'Z' && c != 'I' && c != 'L' && c != 'O' && c != 'U')
  }

  predicate TokenFits(token: string) {
    26 <= |token| <= 64 && forall i :: 0 <= i < |token| ==> CrockfordDigit(token[i])
  }

  lemma NamesFit(name: string)
    ensures ValidName(name) <==> NameFits(name)
  {
    PrintableMeans(Trim(name));
  }

  lemma TokensFit(token: string)
    ensures ValidToken(token) <==> TokenFits(token)
  {
    if IsCrockford(token) {
      assert forall i :: 0 <= i < |token| ==> token[i] in token;
    }
  }

  /** A reference to a node or an account: nothing that would end or split a path. */
  predicate ReferenceFits(id: string, max: nat) {
    && 1 <= |id| <= max
    && forall i :: 0 <= i < |id| ==>
         ' ' < id[i] && id[i] != '\U{7f}' && id[i] != '/' && id[i] != '?' && id[i] != '#'
  }

  predicate EntryFits(e: Entry) {
    && ReferenceFits(e.serverId, 64) && ReferenceFits(e.vlessUserId, 128)
    && |e.caption| <= 128 && Printable(e.caption)
  }

  lemma ReferencesFit(id: string, max: nat)
    ensures ValidReference(id, max) <==> ReferenceFits(id, max)
  {
    if ValidReference(id, max) {
      assert forall i :: 0 <= i < |id| ==> id[i] in id;
    }
  }

  lemma EntriesFit(e: Entry)
    ensures ValidEntry(e) <==> EntryFits(e)
  {
    ReferencesFit(e.serverId, 64);
    ReferencesFit(e.vlessUserId, 128);
    PrintableMeans(e.caption);
  }

  // ---- patching ----

  /** A field takes the value given, or keeps its own. */
  predicate Takes<T(==)>(given: Option<T>, was: T, now: T) {
    match given
    case None => now == was
    case Some(v) => now == v
  }

  /** The record holds every value the patch gives, its name trimmed, and the rest is as it was. */
  predicate Follows(s: Subscriber, t: Subscriber, upd: Patch, now: int) {
    && (upd.name.None? ==> t.name == s.name) && (upd.name.Some? ==> t.name == Trim(upd.name.value))
    && Takes(upd.note, s.note, t.note) && Takes(upd.disabled, s.disabled, t.disabled)
    && t.id == s.id && t.token == s.token && t.entries == s.entries && t.createdAt == s.createdAt
    && InSeconds(t.updatedAt, now)
  }

  predicate PatchFits(upd: Patch) {
    (upd.name.Some? ==> NameFits(upd.name.value)) && (upd.note.Some? ==> |upd.note.value| <= 4096)
  }

  lemma PatchedFollows(s: Subscriber, upd: Patch, now: int)
    ensures var r := Patched(s, upd);
            if PatchFits(upd) then r.Ok? && Follows(s, r.value.(updatedAt := WholeSeconds(now)), upd, now)
            else r == Err(Invalid)
  {
    SecondsAreWhole(now);
    if upd.name.Some? {
      NamesFit(Trim(upd.name.value));
      TrimIsIdempotent(upd.name.value);
    }
  }

  // ---- entries ----

  function HasEntryId(id: string): Entry -> bool {
    (e: Entry) => e.id == id
  }

  lemma IdFindsOne(es: seq<Entry>, id: string)
    requires ValidEntries(es)
    ensures Finds(es, EntryAt(es, id), HasEntryId(id))
  {
    var i := EntryAt(es, id);
    forall k | 0 <= k < |es|
      ensures HasEntryId(id)(es[k]) <==> i == Some(k)
    {
      assert es[k] in es;
      if i.Some? && k != i.value {
        DistinctAt(es, EntryId, k, i.value);
      }
    }
  }

  /** Everything but the entries is as it was. */
  predicate SameButEntries(s: Subscriber, t: Subscriber) {
    t == s.(entries := t.entries)
  }

  /** A label is the only thing a relabelling changes. */
  function Captions(caption: string): (Entry, Entry) -> bool {
    (e: Entry, f: Entry) =>
      f.caption == caption && f.id == e.id && f.serverId == e.serverId && f.vlessUserId == e.vlessUserId
        && f.addedAt == e.addedAt
  }

  /** Relabelling gives the label to the entry with that id, and touches no other. */
  lemma RelabelReachesTheEntry(s: Subscriber, entryId: string, caption: string)
    requires ValidEntries(s.entries)
    ensures var r := Relabelled(s, entryId, caption);
            if !Has(s.entries, HasEntryId(entryId)) then r == Err(NotFound)
            else && r.Ok? && SameButEntries(s, r.value)
                 && OnlyChanged(s.entries, r.value.entries, HasEntryId(entryId), Captions(caption))
  {
    var i := EntryAt(s.entries, entryId);
    IdFindsOne(s.entries, entryId);
    FoundMeansHas(s.entries, i, HasEntryId(entryId));
    if i.Some? {
      OneIsChanged(s.entries, i.value, s.entries[i.value].(caption := caption), HasEntryId(entryId), Captions(caption));
    }
  }

  /** Detaching takes out the entry with that id, and leaves the others in order. */
  lemma DetachTakesOutTheEntry(s: Subscriber, entryId: string)
    requires ValidEntries(s.entries)
    ensures var r := WithoutEntry(s, entryId);
            if !Has(s.entries, HasEntryId(entryId)) then r == Err(NotFound)
            else && r.Ok? && SameButEntries(s, r.value)
                 && r.value.entries == Filtered(s.entries, HasNot(HasEntryId(entryId)))
                 && (forall e :: e in r.value.entries <==> e in s.entries && e.id != entryId)
  {
    var i := EntryAt(s.entries, entryId);
    IdFindsOne(s.entries, entryId);
    FoundMeansHas(s.entries, i, HasEntryId(entryId));
    if i.Some? {
      WithoutTheFound(s.entries, i.value, HasEntryId(entryId));
    }
  }

  /** The same account is attached already. */
  function SameAccount(e: Entry): Entry -> bool {
    (x: Entry) => x.serverId == e.serverId && x.vlessUserId == e.vlessUserId
  }

  /** Attaching adds the entry at the end, under a drawn id that no other has, unless there are 32 already or the
      account is one of them. */
  lemma AttachAddsTheEntry(s: Subscriber, e: Entry, draw: Draws)
    ensures var r := WithEntry(s, e, draw);
            if |s.entries| >= 32 then r == Err(Invalid)
            else if Has(s.entries, SameAccount(e)) then r == Err(Conflict)
            else if FirstFresh(draw, EntryIds(s.entries), 0, 4).None? then r == Err(NoFreshValue)
            else && r.Ok? && SameButEntries(s, r.value)
                 && |r.value.entries| == |s.entries| + 1 && r.value.entries[..|s.entries|] == s.entries
                 && var f := r.value.entries[|s.entries|];
                    && f == e.(id := f.id) && !Has(s.entries, HasEntryId(f.id))
                    && exists i :: 0 <= i < 4 && draw(i) == Some(f.id)
  {
    assert Attached(s.entries, e) <==> Has(s.entries, SameAccount(e));
    assert forall x :: x in s.entries ==> x.id in EntryIds(s.entries);
  }

  // ---- creating ----

  /** A new subscriber is enabled and has no accounts. */
  lemma NewSubscriberIsEnabled(id: string, name: string, note: string, token: string, now: int)
    ensures var s := NewSubscriber(id, name, note, token, now);
            && s.id == id && s.name == name && s.note == note && s.token == token
            && !s.disabled && s.entries == [] && InSeconds(s.createdAt, now) && s.updatedAt == s.createdAt
  {
    SecondsAreWhole(now);
  }
}
