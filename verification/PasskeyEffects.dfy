/** What each edit of the passkey list does, record by record, told without the functions that compute it:
    internal/store/passkeys.go. */
module PasskeyEffects {
  import opened Wrappers
  import opened Text
  import opened Lists
  import opened Files
  import opened PasskeyRules

  // ---- which record is meant ----

  /** The one owner of that name is at i. */
  ghost predicate OwnerIs(list: seq<Owner>, adminId: string, i: nat) {
    i < |list| && forall k :: 0 <= k < |list| ==> (list[k].adminId == adminId <==> k == i)
  }

  /** The one credential of that id is at j. */
  ghost predicate PasskeyIs(cs: seq<Credential>, id: string, j: nat) {
    j < |cs| && forall k :: 0 <= k < |cs| ==> (cs[k].id == id <==> k == j)
  }

  lemma OwnerIsFound(list: seq<Owner>, adminId: string, i: nat)
    requires OwnerIs(list, adminId, i)
    ensures OwnerAt(list, adminId) == Some(i)
  {
    assert list[i] in list;
  }

  lemma PasskeyIsFound(cs: seq<Credential>, id: string, j: nat)
    requires PasskeyIs(cs, id, j)
    ensures PanelIdAt(cs, id) == Some(j)
  {
    assert cs[j] in cs;
  }

  /** In a list that loads nobody is there twice. */
  lemma OwnersAreUnique(list: seq<Owner>, i: nat)
    requires Loadable(list) && i < |list|
    ensures OwnerIs(list, list[i].adminId, i)
  {
    forall k | 0 <= k < |list| && k != i
      ensures list[k].adminId != list[i].adminId
    {
      PairwiseAt(list, Apart, if k < i then k else i, if k < i then i else k);
    }
  }

  lemma PasskeysAreUnique(list: seq<Owner>, i: nat, j: nat)
    requires Loadable(list) && i < |list| && j < |list[i].credentials|
    ensures PasskeyIs(list[i].credentials, list[i].credentials[j].id, j)
  {
    var cs := list[i].credentials;
    assert list[i] in list && ValidOwner(list[i]);
    forall k | 0 <= k < |cs| && k != j
      ensures cs[k].id != cs[j].id
    {
      DistinctAt(cs, PanelId, k, j);
    }
  }

  /** Only the credential at i and j differs, and it is this one. */
  ghost predicate OnlyCredential(list: seq<Owner>, list': seq<Owner>, i: nat, j: nat, c: Credential)
    requires i < |list| && j < |list[i].credentials|
  {
    && |list'| == |list| && (forall k :: 0 <= k < |list| && k != i ==> list'[k] == list[k])
    && list'[i].adminId == list[i].adminId && list'[i].handle == list[i].handle
    && |list'[i].credentials| == |list[i].credentials|
    && (forall k :: 0 <= k < |list[i].credentials| && k != j ==> list'[i].credentials[k] == list[i].credentials[k])
    && list'[i].credentials[j] == c
  }

  lemma OneCredentialDiffers(list: seq<Owner>, i: nat, j: nat, c: Credential)
    requires i < |list| && j < |list[i].credentials|
    ensures OnlyCredential(list, list[i := WithCredential(list[i], j, c)], i, j, c)
  {
  }

  // ---- renaming, removing, using ----

  /** A rename gives the trimmed label to the one credential, and touches nothing else. */
  lemma RenameRelabels(list: seq<Owner>, adminId: string, i: nat, id: string, j: nat, caption: string)
    requires OwnerIs(list, adminId, i) && PasskeyIs(list[i].credentials, id, j)
    ensures var r := Renamed(list, adminId, id, caption);
            r.Ok? && OnlyCredential(list, r.value, i, j, list[i].credentials[j].(caption := Trim(caption)))
  {
    OwnerIsFound(list, adminId, i);
    PasskeyIsFound(list[i].credentials, id, j);
    OneCredentialDiffers(list, i, j, list[i].credentials[j].(caption := Trim(caption)));
  }

  /** Removing takes out the one credential; with the last one goes its owner. */
  lemma RemoveTakesOut(list: seq<Owner>, adminId: string, i: nat, id: string, j: nat)
    requires OwnerIs(list, adminId, i) && PasskeyIs(list[i].credentials, id, j)
    ensures var r, cs := Removed(list, adminId, id), list[i].credentials;
            r == Ok(if |cs| == 1 then list[..i] + list[i + 1..]
                    else list[..i] + [Owner(adminId, list[i].handle, cs[..j] + cs[j + 1..])] + list[i + 1..])
  {
    OwnerIsFound(list, adminId, i);
    PasskeyIsFound(list[i].credentials, id, j);
    var cs := list[i].credentials;
    if |cs| > 1 {
      assert list[i := list[i].(credentials := Without(cs, j))]
          == list[..i] + [Owner(adminId, list[i].handle, cs[..j] + cs[j + 1..])] + list[i + 1..];
    }
  }

  lemma PanelIdIsThere(cs: seq<Credential>, id: string)
    ensures PanelIdAt(cs, id).Some? ==> exists c :: c in cs && c.id == id
  {
    var j := PanelIdAt(cs, id);
    if j.Some? {
      assert cs[j.value] in cs;
    }
  }

  /** An owner that is not there, or has no such credential, is not found. */
  lemma AbsentIsNotFound(list: seq<Owner>, adminId: string, id: string, caption: string)
    requires forall o, c :: o in list && c in o.credentials ==> o.adminId != adminId || c.id != id
    ensures Renamed(list, adminId, id, caption) == Err(NotFound) && Removed(list, adminId, id) == Err(NotFound)
  {
    var i := OwnerAt(list, adminId);
    if i.Some? {
      assert list[i.value] in list;
      PanelIdIsThere(list[i.value].credentials, id);
    }
  }

  /** The one credential with that credential id, over all owners, is at i and j. */
  ghost predicate CredentialIs(list: seq<Owner>, credentialId: string, i: nat, j: nat) {
    && i < |list| && j < |list[i].credentials|
    && forall k, l :: 0 <= k < |list| && 0 <= l < |list[k].credentials| ==>
         (list[k].credentials[l].credentialId == credentialId <==> k == i && l == j)
  }

  lemma CredentialIsFound(list: seq<Owner>, credentialId: string, i: nat, j: nat)
    requires CredentialIs(list, credentialId, i, j)
    ensures CredentialAt(list, credentialId) == Some((i, j))
  {
    assert list[i] in list && list[i].credentials[j] in list[i].credentials;
    assert CredId(list[i].credentials[j]) in CredIds(list[i]);
  }

  /** A use stores the counter and the backup state as they are given, and when it was. */
  lemma UseIsRecorded(
    list: seq<Owner>, credentialId: string, i: nat, j: nat, signCount: nat, backupState: bool, now: int)
    requires CredentialIs(list, credentialId, i, j)
    ensures var r, c := Used(list, credentialId, signCount, backupState, now), list[i].credentials[j];
            && r.Ok? && |r.value| == |list| && |r.value[i].credentials| == |list[i].credentials|
            && var d := r.value[i].credentials[j];
               && OnlyCredential(list, r.value, i, j, d)
               && d.signCount == signCount && d.backupState == backupState
               && d.lastUsedAt.Some? && InSeconds(d.lastUsedAt.value, now)
               && c == d.(signCount := c.signCount, backupState := c.backupState, lastUsedAt := c.lastUsedAt)
  {
    CredentialIsFound(list, credentialId, i, j);
    SecondsAreWhole(now);
    OneCredentialDiffers(list, i, j, list[i].credentials[j].(
      signCount := signCount, backupState := backupState, lastUsedAt := Some(WholeSeconds(now))));
  }

  lemma UnknownCredential(list: seq<Owner>, credentialId: string)
    ensures CredentialAt(list, credentialId).None?
       <==> forall o, c :: o in list && c in o.credentials ==> c.credentialId != credentialId
  {
    var at := CredentialAt(list, credentialId);
    if at.Some? {
      var o := list[at.value.0];
      assert o in list && o.credentials[at.value.1] in o.credentials;
    } else {
      forall o, c | o in list && c in o.credentials
        ensures c.credentialId != credentialId
      {
        assert credentialId !in CredIds(o);
        assert CredId(c) in CredIds(o);
      }
    }
  }

  lemma UnknownIsNotFound(list: seq<Owner>, credentialId: string, signCount: nat, backupState: bool, now: int)
    requires forall o, c :: o in list && c in o.credentials ==> c.credentialId != credentialId
    ensures Used(list, credentialId, signCount, backupState, now) == Err(NotFound)
  {
    UnknownCredential(list, credentialId);
  }

  // ---- enrolling ----

  /** The record of a new credential: as given, under a drawn id, made now and never used. */
  predicate IsEnrolled(c: Credential, cred: Credential, now: int) {
    && c == cred.(id := c.id, createdAt := c.createdAt, lastUsedAt := None)
    && c.createdAt.Some? && InSeconds(c.createdAt.value, now)
  }

  ghost predicate DrawnFresh(list: seq<Owner>, id: string, draw: Draws) {
    && (forall o, c :: o in list && c in o.credentials ==> c.id != id)
    && exists i :: 0 <= i < 8 && draw(i) == Some(id)
  }

  lemma FreshIsUnused(list: seq<Owner>, draw: Draws)
    ensures var id := FirstFresh(draw, AllPanelIds(list), 0, 8); id.Some? ==> DrawnFresh(list, id.value, draw)
  {
    var id := FirstFresh(draw, AllPanelIds(list), 0, 8);
    if id.Some? {
      forall o, c | o in list && c in o.credentials
        ensures c.id != id.value
      {
        assert PanelIds(o) <= AllPanelIds(list);
        assert PanelId(c) in PanelIds(o);
      }
    }
  }

  /** What Add checks before it looks at the owner. */
  ghost predicate MayEnrol(list: seq<Owner>, cred: Credential, draw: Draws) {
    && ValidLabel(cred.caption) && FirstFresh(draw, AllPanelIds(list), 0, 8).Some?
    && forall o, c :: o in list && c in o.credentials ==> c.credentialId != cred.credentialId
  }

  lemma AddOutcome(list: seq<Owner>, adminId: string, handle: string, cred: Credential, now: int, draw: Draws)
    requires MayEnrol(list, cred, draw)
    ensures var c := Enrolled(cred, FirstFresh(draw, AllPanelIds(list), 0, 8).value, now);
            && Added(list, adminId, handle, cred, now, draw) == WithPasskey(list, adminId, handle, c)
            && IsEnrolled(c, cred, now) && DrawnFresh(list, c.id, draw)
  {
    UnknownCredential(list, cred.credentialId);
    FreshIsUnused(list, draw);
    SecondsAreWhole(now);
  }

  /** For an owner that is there the new credential comes last, if the handle is the owner's and there are not yet
      eight. */
  lemma AddToOwner(
    list: seq<Owner>, adminId: string, i: nat, handle: string, cred: Credential, now: int, draw: Draws)
    requires MayEnrol(list, cred, draw) && OwnerIs(list, adminId, i)
    ensures var r, cs := Added(list, adminId, handle, cred, now, draw), list[i].credentials;
            if handle != list[i].handle then r == Err(Conflict)
            else if |cs| >= 8 then r == Err(Invalid)
            else exists c ::
                   IsEnrolled(c, cred, now) && DrawnFresh(list, c.id, draw)
                   && r == Ok(list[i := Owner(adminId, handle, cs + [c])])
  {
    AddOutcome(list, adminId, handle, cred, now, draw);
    OwnerIsFound(list, adminId, i);
  }

  /** Somebody's first credential brings the owner along, if the handle is the text of 32 bytes. */
  lemma AddNewOwner(list: seq<Owner>, adminId: string, handle: string, cred: Credential, now: int, draw: Draws)
    requires MayEnrol(list, cred, draw) && forall o :: o in list ==> o.adminId != adminId
    ensures var r := Added(list, adminId, handle, cred, now, draw);
            if !BytesFit(handle, 32, 32) then r == Err(Invalid)
            else exists c ::
                   IsEnrolled(c, cred, now) && DrawnFresh(list, c.id, draw)
                   && r == Ok(list + [Owner(adminId, handle, [c])])
  {
    AddOutcome(list, adminId, handle, cred, now, draw);
    TextsFit(handle, 32, 32);
  }

  /** What is refused before the owner is looked at. */
  lemma AddIsRefused(list: seq<Owner>, adminId: string, handle: string, cred: Credential, now: int, draw: Draws)
    ensures var r := Added(list, adminId, handle, cred, now, draw);
            && (!LabelFits(cred.caption) ==> r == Err(Invalid))
            && (LabelFits(cred.caption)
                && !(forall o, c :: o in list && c in o.credentials ==> c.credentialId != cred.credentialId) ==>
                  r == Err(Conflict))
  {
    LabelsFit(cred.caption);
    UnknownCredential(list, cred.credentialId);
  }

  // ---- pruning ----

  function CountOf(list: seq<Owner>): nat {
    if list == [] then 0 else CountOf(list[..|list| - 1]) + |list[|list| - 1].credentials|
  }

  /** Pruning loses as many credentials as it reports. */
  lemma {:induction false} PruneCounts(list: seq<Owner>, known: string -> bool)
    ensures CountOf(list) == CountOf(Filtered(list, (o: Owner) => known(o.adminId))) + Orphaned(list, known)
  {
    if list != [] {
      var init, last := list[..|list| - 1], list[|list| - 1];
      var keep := (o: Owner) => known(o.adminId);
      assert list == init + [last];
      PruneCounts(init, known);
      if keep(last) {
        assert (Filtered(init, keep) + [last])[..|Filtered(init, keep)|] == Filtered(init, keep);
      }
    }
  }

  // ---- what the fields may hold ----

  predicate LabelFits(caption: string) {
    |Trim(caption)| <= 64 && Printable(Trim(caption))
  }

  lemma LabelsFit(caption: string)
    ensures ValidLabel(caption) <==> LabelFits(caption)
  {
    PrintableMeans(Trim(caption));
  }

  predicate IsBreak(c: char) {
    c == '\r' || c == '\n'
  }

  function NotBreak(): char -> bool {
    (c: char) => !IsBreak(c)
  }

  /** The 64 digits of base64url stand for the numbers from 0 on. */
  function DigitOf(v: nat): char
    requires v < 64
  {
    if v < 26 then ('A' as int + v) as char
    else if v < 52 then ('a' as int + (v - 26)) as char
    else if v < 62 then ('0' as int + (v - 52)) as char
    else if v == 62 then '-' else '_'
  }

  lemma DigitsAre(c: char)
    ensures IsBase64Url(c) <==> exists v: nat :: v < 64 && DigitOf(v) == c
  {
    if IsBase64Url(c) {
      var v: nat := if 'A' <= c <= 'Z' then c as int - 'A' as int
           else if 'a' <= c <= 'z' then 26 + (c as int - 'a' as int)
           else if '0' <= c <= '9' then 52 + (c as int - '0' as int) else if c == '-' then 62 else 63;
      assert v < 64 && DigitOf(v) == c;
    }
  }

  /** The text, line breaks aside, is base64url for that many bytes: six bits a digit, and less than one left over. */
  ghost predicate BytesFit(s: string, min: nat, max: nat) {
    var t := Filtered(s, NotBreak());
    && s != "" && (forall c :: c in t ==> IsBase64Url(c))
    && exists n: nat :: min <= n <= max && IsTextOf(|t|, n)
  }

  /** So many digits hold so many bytes: enough bits, and fewer than eight to spare. */
  predicate IsTextOf(digits: nat, bytes: nat) {
    8 * bytes <= 6 * digits < 8 * bytes + 6
  }

  function Kept(c: char): string {
    if IsBreak(c) then "" else [c]
  }

  lemma FirstIsKept(s: string)
    requires s != ""
    ensures WithoutBreaks(s) == Kept(s[0]) + WithoutBreaks(s[1..])
  {
  }

  lemma Associative(a: string, b: string, c: string)
    ensures (a + b) + c == a + (b + c)
  {
  }

  lemma {:induction false} BreaksOfLonger(s: string, c: char)
    ensures WithoutBreaks(s + [c]) == WithoutBreaks(s) + Kept(c)
  {
    if s == "" {
      assert s + [c] == [c];
      FirstIsKept([c]);
    } else {
      var rest := s[1..];
      assert (s + [c])[0] == s[0] && (s + [c])[1..] == rest + [c];
      FirstIsKept(s);
      FirstIsKept(s + [c]);
      BreaksOfLonger(rest, c);
      Associative(Kept(s[0]), WithoutBreaks(rest), Kept(c));
    }
  }

  lemma {:induction false} BreaksAreDropped(s: string)
    ensures WithoutBreaks(s) == Filtered(s, NotBreak())
  {
    if s != "" {
      var init, last := s[..|s| - 1], s[|s| - 1];
      assert s == init + [last];
      BreaksOfLonger(init, last);
      BreaksAreDropped(init);
    }
  }

  lemma DigitsForBytes(digits: nat, bytes: nat)
    ensures IsTextOf(digits, bytes) <==> digits % 4 != 1 && bytes == digits * 6 / 8
  {
  }

  lemma TextsFit(s: string, min: nat, max: nat)
    ensures CheckBase64Len(s, min, max) <==> BytesFit(s, min, max)
  {
    var t := WithoutBreaks(s);
    BreaksAreDropped(s);
    if CheckBase64Len(s, min, max) {
      DigitsForBytes(|t|, |t| * 6 / 8);
      assert IsTextOf(|t|, |t| * 6 / 8);
    }
    if BytesFit(s, min, max) {
      var n: nat :| min <= n <= max && IsTextOf(|t|, n);
      DigitsForBytes(|t|, n);
    }
  }

  /** A credential load accepts has an id of up to 1023 bytes, a public key of up to 1024, and an algorithm. */
  lemma CredentialsFit(c: Credential)
    ensures WellFormed(c) <==>
            BytesFit(c.credentialId, 1, 1023) && BytesFit(c.publicKey, 1, 1024) && c.algorithm != 0
  {
    TextsFit(c.credentialId, 1, 1023);
    TextsFit(c.publicKey, 1, 1024);
  }
}
