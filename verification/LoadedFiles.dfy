/** Which files the three stores accept at startup, told field by field: the load functions of
    internal/store/admins.go, internal/store/subscribers.go and internal/store/passkeys.go. */
module LoadedFiles {
  import opened Wrappers
  import opened Text
  import opened Lists
  import opened Files
  import A = Admins
  import S = SubscriberRules
  import SE = SubscriberEffects
  import P = PasskeyRules
  import PE = PasskeyEffects

  /** No two elements are the same in this respect. */
  ghost predicate NoTwo<T>(xs: seq<T>, same: (T, T) -> bool) {
    forall i, j :: 0 <= i < j < |xs| ==> !same(xs[i], xs[j])
  }

  ghost predicate Tells<T(!new), K>(key: T -> K, same: (T, T) -> bool) {
    forall x, y {:trigger same(x, y)} :: key(x) == key(y) <==> same(x, y)
  }

  lemma DistinctMeans<T(!new), K>(xs: seq<T>, key: T -> K, same: (T, T) -> bool)
    requires Tells(key, same)
    ensures Distinct(xs, key) <==> NoTwo(xs, same)
  {
    if NoTwo(xs, same) {
      forall i, j
        ensures Differ(xs, key, i, j)
      {
        if 0 <= i < j < |xs| {
          assert !same(xs[i], xs[j]);
        }
      }
    }
    if Distinct(xs, key) {
      forall i, j | 0 <= i < j < |xs|
        ensures !same(xs[i], xs[j])
      {
        assert Differ(xs, key, i, j);
      }
    }
  }

  // ---- administrators ----

  predicate GoodAdmin(a: A.Admin) {
    Trim(a.username) != "" && a.id != "" && a.hash.Bcrypt?
  }

  predicate SameAdminId(a: A.Admin, b: A.Admin) {
    a.id == b.id
  }

  predicate SameUsername(a: A.Admin, b: A.Admin) {
    SameName(a.username, b.username)
  }

  ghost predicate GoodAdmins(list: seq<A.Admin>) {
    (forall a :: a in list ==> GoodAdmin(a)) && NoTwo(list, SameAdminId) && NoTwo(list, SameUsername)
  }

  lemma UsernamesTell()
    ensures Tells(A.KeyOf, SameUsername) && Tells(A.IdOf, SameAdminId)
  {
    forall a: A.Admin, b: A.Admin
      ensures A.KeyOf(a) == A.KeyOf(b) <==> SameUsername(a, b)
    {
      FoldingForgetsCase(Trim(a.username), Trim(b.username));
    }
  }

  lemma AdminsAreGood(list: seq<A.Admin>)
    ensures A.WellFormed(list) <==> GoodAdmins(list)
  {
    UsernamesTell();
    DistinctMeans(list, A.IdOf, SameAdminId);
    DistinctMeans(list, A.KeyOf, SameUsername);
    assert forall a: A.Admin :: A.ValidAdmin(a) == GoodAdmin(a);
  }

  /** The administrators load exactly from a version 2 file of good records, or from a version 1 file whose records are
      good once the missing ids are filled in. A missing file is an empty list. */
  lemma AdminsLoadExactlyWhen(doc: A.Doc)
    ensures A.LoadOf(Missing).Some? && A.LoadOf(Missing).value.list == [] && A.LoadOf(Garbled).None?
    ensures A.LoadOf(Holds(doc)).Some? <==>
            || (doc.version == 2 && GoodAdmins(doc.admins))
            || (doc.version == 1 && GoodAdmins(A.FilledList(doc.admins)))
    ensures doc.version == 2 && GoodAdmins(doc.admins) ==> A.LoadOf(Holds(doc)).value.list == doc.admins
  {
    AdminsAreGood(doc.admins);
    AdminsAreGood(A.FilledList(doc.admins));
  }

  /** The records that have no id yet. */
  function WithoutId(list: seq<A.Admin>): set<nat> {
    set i: nat | i < |list| && list[i].id == ""
  }

  /** A migration reports as many ids as there were records without one. */
  lemma {:induction false} MissingIdsAreCounted(list: seq<A.Admin>)
    ensures A.MissingIds(list) == |WithoutId(list)|
  {
    if list == [] {
      assert WithoutId(list) == {};
    } else {
      var n := |list| - 1;
      MissingIdsAreCounted(list[..n]);
      assert WithoutId(list) == WithoutId(list[..n]) + if list[n].id == "" then {n} else {};
    }
  }

  // ---- subscribers ----

  predicate GoodEntry(e: S.Entry) {
    Trim(e.id) != "" && SE.EntryFits(e)
  }

  predicate SameEntryId(e: S.Entry, f: S.Entry) {
    e.id == f.id
  }

  predicate SameAccount(e: S.Entry, f: S.Entry) {
    e.serverId == f.serverId && e.vlessUserId == f.vlessUserId
  }

  ghost predicate GoodEntries(es: seq<S.Entry>) {
    && |es| <= 32 && (forall e :: e in es ==> GoodEntry(e))
    && NoTwo(es, SameEntryId) && NoTwo(es, SameAccount)
  }

  ghost predicate GoodSubscriber(s: S.Subscriber) {
    && Trim(s.id) != "" && SE.NameFits(s.name) && |s.note| <= 4096 && SE.TokenFits(ToUpper(s.token))
    && GoodEntries(s.entries)
  }

  lemma NoNul(e: S.Entry)
    requires GoodEntry(e)
    ensures '\0' !in e.serverId
  {
    SE.EntriesFit(e);
    S.ReferenceHasNoNul(e.serverId, S.MAX_SERVER_ID);
  }

  lemma PairsDiffer(es: seq<S.Entry>)
    requires forall e :: e in es ==> GoodEntry(e)
    ensures Distinct(es, S.PairKey) <==> NoTwo(es, SameAccount)
  {
    forall i, j | 0 <= i < j < |es|
      ensures S.PairKey(es[i]) == S.PairKey(es[j]) <==> SameAccount(es[i], es[j])
    {
      NoNul(es[i]);
      NoNul(es[j]);
      S.PairKeyIsInjective(es[i], es[j]);
    }
    if NoTwo(es, SameAccount) {
      forall i, j
        ensures Differ(es, S.PairKey, i, j)
      {
        if 0 <= i < j < |es| {
          assert !SameAccount(es[i], es[j]);
        }
      }
    }
    if Distinct(es, S.PairKey) {
      forall i, j | 0 <= i < j < |es|
        ensures !SameAccount(es[i], es[j])
      {
        assert Differ(es, S.PairKey, i, j);
      }
    }
  }

  lemma EntriesAreGood(es: seq<S.Entry>)
    ensures S.ValidEntries(es) <==> GoodEntries(es)
  {
    forall e: S.Entry
      ensures S.ValidStoredEntry(e) <==> GoodEntry(e)
    {
      SE.EntriesFit(e);
    }
    DistinctMeans(es, S.EntryId, SameEntryId);
    if forall e :: e in es ==> GoodEntry(e) {
      PairsDiffer(es);
    }
  }

  lemma SubscriberIsGood(s: S.Subscriber)
    ensures S.ValidSubscriber(s) <==> GoodSubscriber(s)
  {
    SE.NamesFit(s.name);
    SE.TokensFit(ToUpper(s.token));
    EntriesAreGood(s.entries);
  }

  predicate SameId(s: S.Subscriber, t: S.Subscriber) {
    s.id == t.id
  }

  predicate SameToken(s: S.Subscriber, t: S.Subscriber) {
    SameButForCase(s.token, t.token)
  }

  ghost predicate GoodSubscribers(list: seq<S.Subscriber>) {
    (forall s :: s in list ==> GoodSubscriber(s)) && NoTwo(list, SameId) && NoTwo(list, SameToken)
  }

  lemma TokensTell()
    ensures Tells(S.UpperTokenOf, SameToken) && Tells(S.IdOf, SameId)
  {
    forall s: S.Subscriber, t: S.Subscriber
      ensures S.UpperTokenOf(s) == S.UpperTokenOf(t) <==> SameToken(s, t)
    {
      FoldingForgetsCase(s.token, t.token);
    }
  }

  lemma SubscribersAreGood(list: seq<S.Subscriber>)
    ensures S.ValidList(list) <==> GoodSubscribers(list)
  {
    TokensTell();
    DistinctMeans(list, S.IdOf, SameId);
    DistinctMeans(list, S.UpperTokenOf, SameToken);
    forall s: S.Subscriber
      ensures S.ValidSubscriber(s) <==> GoodSubscriber(s)
    {
      SubscriberIsGood(s);
    }
  }

  /** The subscribers load exactly from a version 1 file of good records, with their tokens in capitals. */
  lemma SubscribersLoadExactlyWhen(doc: S.Doc)
    ensures S.LoadOf(Missing) == Some([]) && S.LoadOf(Garbled).None?
    ensures S.LoadOf(Holds(doc)).Some? <==> doc.version == 1 && GoodSubscribers(doc.subscribers)
    ensures S.LoadOf(Holds(doc)).Some? ==>
              var list := S.LoadOf(Holds(doc)).value;
              |list| == |doc.subscribers| && forall i :: 0 <= i < |list| ==>
                list[i] == doc.subscribers[i].(token := ToUpper(doc.subscribers[i].token))
  {
    SubscribersAreGood(doc.subscribers);
  }

  // ---- passkeys ----

  ghost predicate GoodPasskey(c: P.Credential) {
    && c.id != "" && PE.BytesFit(c.credentialId, 1, 1023) && PE.BytesFit(c.publicKey, 1, 1024)
    && c.algorithm != 0 && PE.LabelFits(c.caption) && c.createdAt.Some?
  }

  predicate SamePasskeyId(c: P.Credential, d: P.Credential) {
    c.id == d.id
  }

  predicate SameCredential(c: P.Credential, d: P.Credential) {
    c.credentialId == d.credentialId
  }

  ghost predicate GoodOwner(o: P.Owner) {
    && o.adminId != "" && PE.BytesFit(o.handle, 32, 32) && |o.credentials| <= 8
    && (forall c :: c in o.credentials ==> GoodPasskey(c))
    && NoTwo(o.credentials, SamePasskeyId) && NoTwo(o.credentials, SameCredential)
  }

  lemma PasskeyIsGood(c: P.Credential)
    ensures P.ValidCredential(c) <==> GoodPasskey(c)
  {
    PE.CredentialsFit(c);
    PE.LabelsFit(c.caption);
  }

  lemma OwnerIsGood(o: P.Owner)
    ensures P.ValidOwner(o) <==> GoodOwner(o)
  {
    PE.TextsFit(o.handle, 32, 32);
    DistinctMeans(o.credentials, P.PanelId, SamePasskeyId);
    DistinctMeans(o.credentials, P.CredId, SameCredential);
    forall c | c in o.credentials
      ensures P.ValidCredential(c) <==> GoodPasskey(c)
    {
      PasskeyIsGood(c);
    }
  }

  /** Two owners have something in common that nobody may share. */
  ghost predicate Share(o: P.Owner, p: P.Owner) {
    || o.adminId == p.adminId || o.handle == p.handle
    || exists c, d :: c in o.credentials && d in p.credentials && (c.id == d.id || c.credentialId == d.credentialId)
  }

  lemma ApartMeans(o: P.Owner, p: P.Owner)
    ensures P.Apart(o, p) <==> !Share(o, p)
  {
    assert forall c :: c in o.credentials ==> P.PanelId(c) in P.PanelIds(o) && P.CredId(c) in P.CredIds(o);
    assert forall c :: c in p.credentials ==> P.PanelId(c) in P.PanelIds(p) && P.CredId(c) in P.CredIds(p);
  }

  ghost predicate GoodOwners(list: seq<P.Owner>) {
    (forall o :: o in list ==> GoodOwner(o)) && forall i, j :: 0 <= i < j < |list| ==> !Share(list[i], list[j])
  }

  lemma OwnersAreGood(list: seq<P.Owner>)
    ensures P.ValidList(list) <==> GoodOwners(list)
  {
    forall o | o in list
      ensures P.ValidOwner(o) <==> GoodOwner(o)
    {
      OwnerIsGood(o);
    }
    forall i, j | 0 <= i < j < |list|
      ensures P.Apart(list[i], list[j]) <==> !Share(list[i], list[j])
    {
      ApartMeans(list[i], list[j]);
    }
    if P.ValidList(list) {
      forall i, j | 0 <= i < j < |list|
        ensures !Share(list[i], list[j])
      {
        PairwiseAt(list, P.Apart, i, j);
      }
    }
    if GoodOwners(list) {
      forall i, j
        ensures Related(list, P.Apart, i, j)
      {
      }
    }
  }

  /** The passkeys load exactly from a version 1 file of good owners, no two of which share anything. */
  lemma PasskeysLoadExactlyWhen(doc: P.Doc)
    ensures P.LoadOf(Missing) == Some([]) && P.LoadOf(Garbled).None?
    ensures P.LoadOf(Holds(doc)) == if doc.version == 1 && GoodOwners(doc.owners) then Some(doc.owners) else None
  {
    OwnersAreGood(doc.owners);
  }
}
