/** What the OAuth triggers keep true through every sequence of statements. */
module OAuthLifecycle {
  import opened Wrappers
  import opened OAuthTables

  // ----- the invariant -----

  /** One consent per grantee, and every reference points at a row. */
  ghost predicate Referential(t: Tables) {
    && (forall c, d :: c in t.consents && d in t.consents && t.consents[c].grantee == t.consents[d].grantee ==> c == d)
    && (forall f :: f in t.families && t.families[f].consent.Some? ==> t.families[f].consent.value in t.consents)
    && (forall c :: c in t.consents ==> t.consents[c].grantee.client in t.clients)
    && (forall f :: f in t.families ==> t.families[f].client in t.clients)
    && (forall a :: a in t.accesses ==> t.accesses[a].client in t.clients)
    && (forall r :: r in t.refreshes ==> t.refreshes[r].family in t.families)
    && (forall a :: a in t.accesses && t.accesses[a].refresh.Some? ==> t.accesses[a].refresh.value in t.refreshes)
  }

  /**
   * A linked consent is the family owner's, a family of a client that needs consent is linked, and it has rotated no
   * more often than allowed.
   */
  ghost predicate FamilyOk(t: Tables, f: Family) {
    && 0 <= f.currentGeneration <= MAX_GENERATION
    && (f.consent.Some? ==> f.consent.value in t.consents && t.consents[f.consent.value].grantee == GranteeOf(f))
    && (SkipsConsent(t, f.client) || f.consent.Some?)
  }

  /** A refresh token belongs to its family, is no newer than it, and does not outlive it. */
  ghost predicate Belongs(r: Refresh, f: Family) {
    && r.client == f.client && r.user == f.user && r.session == f.session && r.reference == f.reference
    && 0 <= r.generation <= f.currentGeneration && r.expiresAt <= f.expiresAt
  }

  /** A current refresh token asks for no more than its family's consent grants. */
  ghost predicate RefreshOk(t: Tables, r: Refresh) {
    && r.family in t.families && Belongs(r, t.families[r.family])
    && var f := t.families[r.family];
       (r.generation == f.currentGeneration && !SkipsConsent(t, f.client) ==>
          f.consent.Some? && f.consent.value in t.consents && Within(r.scopes, t.consents[f.consent.value].scopes))
  }

  /** An access token of a client that needs consent is within its grantee's consent. */
  ghost predicate AccessOk(t: Tables, a: Access) {
    HasActiveConsent(t, AccessGrantee(a), a.scopes)
  }

  ghost predicate OneTokenPerGeneration(t: Tables) {
    forall q, r :: (q in t.refreshes && r in t.refreshes && t.refreshes[q].family == t.refreshes[r].family
                    && t.refreshes[q].generation == t.refreshes[r].generation) ==> q == r
  }

  ghost predicate FamiliesOk(t: Tables) {
    forall f :: f in t.families ==> FamilyOk(t, t.families[f])
  }

  ghost predicate RefreshesOk(t: Tables) {
    forall r :: r in t.refreshes ==> RefreshOk(t, t.refreshes[r])
  }

  ghost predicate AccessesOk(t: Tables) {
    forall a :: a in t.accesses ==> AccessOk(t, t.accesses[a])
  }

  ghost predicate Inv(t: Tables) {
    Referential(t) && OneTokenPerGeneration(t) && FamiliesOk(t) && RefreshesOk(t) && AccessesOk(t)
  }

  /** Grants depend only on clients and consents, and a refresh token only on those and its family. */
  lemma SameGrants(t: Tables, t': Tables)
    requires t'.clients == t.clients && t'.consents == t.consents
    ensures forall a: Access :: AccessOk(t', a) <==> AccessOk(t, a)
    ensures forall f: Family :: FamilyOk(t', f) <==> FamilyOk(t, f)
    ensures forall r: Refresh :: r.family in t.families && r.family in t'.families && t'.families[r.family] == t.families[r.family]
              ==> (RefreshOk(t', r) <==> RefreshOk(t, r))
  {
  }

  /** Families and refresh tokens that lost only rows are as good as before. */
  lemma TokensKept(t: Tables, t': Tables)
    requires FamiliesOk(t) && RefreshesOk(t) && OneTokenPerGeneration(t)
    requires t'.clients == t.clients && t'.consents == t.consents
    requires forall f :: f in t'.families ==> f in t.families && t'.families[f] == t.families[f]
    requires forall r :: r in t'.refreshes ==> r in t.refreshes && t'.refreshes[r] == t.refreshes[r] && t'.refreshes[r].family in t'.families
    ensures FamiliesOk(t') && RefreshesOk(t') && OneTokenPerGeneration(t')
  {
    SameGrants(t, t');
    hide AccessOk, FamilyOk, RefreshOk;
  }

  /** Access tokens that lost only rows are as good as before. */
  lemma AccessesKept(t: Tables, t': Tables)
    requires AccessesOk(t) && t'.clients == t.clients && t'.consents == t.consents
    requires forall a :: a in t'.accesses ==> a in t.accesses && t'.accesses[a] == t.accesses[a]
    ensures AccessesOk(t')
  {
    SameGrants(t, t');
    hide AccessOk;
  }

  // ----- deletions -----

  lemma DeleteRefreshesKeepsInv(t: Tables, gone: set<Id>)
    requires Inv(t)
    ensures Inv(DeleteRefreshes(t, gone))
  {
    hide AccessesOk, FamiliesOk, RefreshesOk, OneTokenPerGeneration;
    TokensKept(t, DeleteRefreshes(t, gone));
    AccessesKept(t, DeleteRefreshes(t, gone));
  }

  lemma DeleteFamiliesKeepsInv(t: Tables, gone: set<Id>)
    requires Inv(t)
    ensures Inv(DeleteFamilies(t, gone))
  {
    hide AccessesOk, FamiliesOk, RefreshesOk, OneTokenPerGeneration;
    TokensKept(t, DeleteFamilies(t, gone));
    AccessesKept(t, DeleteFamilies(t, gone));
  }

  lemma DeleteAccessesKeepsInv(t: Tables, gone: set<Id>)
    requires Inv(t)
    ensures Inv(DeleteAccessesOf(t, gone))
  {
    hide AccessesOk, FamiliesOk, RefreshesOk, OneTokenPerGeneration;
    TokensKept(t, DeleteAccessesOf(t, gone));
    AccessesKept(t, DeleteAccessesOf(t, gone));
  }

  lemma ReferentialWithoutConsents(t: Tables, gone: set<Id>)
    requires Referential(t)
    ensures Referential(DeleteConsents(t, gone))
  {
  }

  lemma ConsentDeletionKeepsAccesses(t: Tables, gone: set<Id>)
    requires AccessesOk(t)
    ensures AccessesOk(DeleteConsents(t, gone))
  {
    var t' := DeleteConsents(t, gone);
    forall a | a in t'.accesses ensures AccessOk(t', t'.accesses[a]) {
      assert AccessOk(t, t.accesses[a]);
      if !SkipsConsent(t, t.accesses[a].client) {
        var c :| c in t.consents && t.consents[c].grantee == AccessGrantee(t.accesses[a]) && Within(t.accesses[a].scopes, t.consents[c].scopes);
        assert c in t'.consents;
      }
    }
  }

  lemma ConsentDeletionKeepsTokens(t: Tables, gone: set<Id>)
    requires Referential(t) && FamiliesOk(t) && RefreshesOk(t) && OneTokenPerGeneration(t)
    ensures var t' := DeleteConsents(t, gone); FamiliesOk(t') && RefreshesOk(t') && OneTokenPerGeneration(t')
  {
    var t' := DeleteConsents(t, gone);
    forall f | f in t'.families ensures FamilyOk(t', t'.families[f]) { assert FamilyOk(t, t.families[f]); }
    forall r | r in t'.refreshes ensures RefreshOk(t', t'.refreshes[r]) { assert RefreshOk(t, t.refreshes[r]); }
  }

  /** Revoking consents takes every family and access token that rested on them. */
  lemma DeleteConsentsKeepsInv(t: Tables, gone: set<Id>)
    requires Inv(t)
    ensures Inv(DeleteConsents(t, gone))
  {
    hide Referential, AccessesOk, FamiliesOk, RefreshesOk, OneTokenPerGeneration, DeleteConsents;
    ReferentialWithoutConsents(t, gone);
    ConsentDeletionKeepsAccesses(t, gone);
    ConsentDeletionKeepsTokens(t, gone);
  }

  lemma DeleteUserKeepsInv(t: Tables, user: Id)
    requires Inv(t)
    ensures Inv(UserDeleted(t, user))
  {
    hide Inv, DeleteConsents, DeleteFamilies, DeleteRefreshes, DeleteAccessesOf;
    var t1 := DeleteConsents(t, set c | c in t.consents && t.consents[c].grantee.user == Some(user));
    DeleteConsentsKeepsInv(t, set c | c in t.consents && t.consents[c].grantee.user == Some(user));
    var t2 := DeleteFamilies(t1, set f | f in t1.families && t1.families[f].user == user);
    DeleteFamiliesKeepsInv(t1, set f | f in t1.families && t1.families[f].user == user);
    var t3 := DeleteRefreshes(t2, set r | r in t2.refreshes && t2.refreshes[r].user == user);
    DeleteRefreshesKeepsInv(t2, set r | r in t2.refreshes && t2.refreshes[r].user == user);
    DeleteAccessesKeepsInv(t3, set a | a in t3.accesses && t3.accesses[a].user == Some(user));
  }

  lemma DeleteSessionKeepsInv(t: Tables, session: Id)
    requires Inv(t)
    ensures Inv(SessionDeleted(t, session))
  {
    hide Referential, AccessesOk, FamiliesOk, RefreshesOk, OneTokenPerGeneration, SessionDeleted;
    SessionDeletionKeepsReferences(t, session);
    SessionDeletionKeepsGrants(t, session);
    SessionDeletionKeepsRefreshes(t, session);
  }

  lemma SessionDeletionKeepsGrants(t: Tables, session: Id)
    requires FamiliesOk(t) && AccessesOk(t)
    ensures FamiliesOk(SessionDeleted(t, session)) && AccessesOk(SessionDeleted(t, session))
  {
    var t' := SessionDeleted(t, session);
    SameGrants(t, t');
    hide HasActiveConsent, RefreshOk;
    forall a | a in t'.accesses ensures AccessOk(t', t'.accesses[a]) { assert AccessOk(t, t.accesses[a]); }
    forall f | f in t'.families ensures FamilyOk(t', t'.families[f]) { assert FamilyOk(t, t.families[f]); }
  }

  lemma SessionDeletionKeepsRefreshes(t: Tables, session: Id)
    requires RefreshesOk(t)
    ensures RefreshesOk(SessionDeleted(t, session))
  {
    var t' := SessionDeleted(t, session);
    forall r | r in t'.refreshes ensures RefreshOk(t', t'.refreshes[r]) { assert RefreshOk(t, t.refreshes[r]); }
  }

  lemma SessionDeletionKeepsReferences(t: Tables, session: Id)
    requires Referential(t) && OneTokenPerGeneration(t)
    ensures Referential(SessionDeleted(t, session)) && OneTokenPerGeneration(SessionDeleted(t, session))
  {
  }

  // ----- insertions -----

  /** A new client or consent leaves every grant already made in force. */
  lemma MoreGrants(t: Tables, t': Tables)
    requires FamiliesOk(t) && RefreshesOk(t) && AccessesOk(t) && OneTokenPerGeneration(t)
    requires t'.families == t.families && t'.refreshes == t.refreshes && t'.accesses == t.accesses
    requires forall c :: c in t.consents ==> c in t'.consents && t'.consents[c] == t.consents[c]
    requires forall f :: f in t.families ==> SkipsConsent(t', t.families[f].client) == SkipsConsent(t, t.families[f].client)
    requires forall a :: a in t.accesses ==> SkipsConsent(t', t.accesses[a].client) == SkipsConsent(t, t.accesses[a].client)
    ensures FamiliesOk(t') && RefreshesOk(t') && AccessesOk(t') && OneTokenPerGeneration(t')
  {
    hide SkipsConsent;
    forall a | a in t'.accesses ensures AccessOk(t', t'.accesses[a]) {
      assert AccessOk(t, t.accesses[a]);
      if !SkipsConsent(t, t.accesses[a].client) {
        var c :| c in t.consents && t.consents[c].grantee == AccessGrantee(t.accesses[a]) && Within(t.accesses[a].scopes, t.consents[c].scopes);
        assert c in t'.consents;
      }
    }
    forall f | f in t'.families ensures FamilyOk(t', t'.families[f]) { assert FamilyOk(t, t.families[f]); }
    forall r | r in t'.refreshes ensures RefreshOk(t', t'.refreshes[r]) { assert RefreshOk(t, t.refreshes[r]); }
  }

  lemma InsertClientKeepsInv(t: Tables, id: Id, skip: bool)
    requires Inv(t) && id !in t.clients
    ensures Inv(t.(clients := t.clients[id := skip]))
  {
    hide AccessesOk, FamiliesOk, RefreshesOk, OneTokenPerGeneration;
    MoreGrants(t, t.(clients := t.clients[id := skip]));
  }

  lemma InsertConsentKeepsInv(t: Tables, id: Id, consent: Consent)
    requires Inv(t) && id !in t.consents && ConsentIds(t, consent.grantee) == {} && consent.grantee.client in t.clients
    ensures Inv(t.(consents := t.consents[id := consent]))
  {
    hide AccessesOk, FamiliesOk, RefreshesOk, OneTokenPerGeneration;
    MoreGrants(t, t.(consents := t.consents[id := consent]));
    forall c | c in t.consents ensures t.consents[c].grantee != consent.grantee {
      assert c !in ConsentIds(t, consent.grantee);
    }
  }

  lemma InsertAccessKeepsInv(t: Tables, id: Id, a: Access)
    requires Inv(t) && CanInsertAccess(t, id, a)
    ensures Inv(t.(accesses := t.accesses[id := a]))
  {
    hide AccessesOk, FamiliesOk, RefreshesOk, OneTokenPerGeneration, HasActiveConsent;
    TokensKept(t, t.(accesses := t.accesses[id := a]));
    InsertAccessKeepsAccesses(t, id, a);
  }

  lemma InsertAccessKeepsAccesses(t: Tables, id: Id, a: Access)
    requires AccessesOk(t) && CanInsertAccess(t, id, a)
    ensures AccessesOk(t.(accesses := t.accesses[id := a]))
  {
    SameGrants(t, t.(accesses := t.accesses[id := a]));
    assert AccessOk(t, a);
    hide AccessOk, HasActiveConsent;
  }

  /** The consent the first trigger links a family to is the one the second trigger checks scopes against. */
  lemma LinkedConsentCovers(t: Tables, grantee: Grantee, scopes: seq<Scope>, consent: Option<Id>)
    requires Referential(t) && HasActiveConsent(t, grantee, scopes) && !SkipsConsent(t, grantee.client)
    requires AnyConsent(t, grantee, consent)
    ensures consent.Some? && consent.value in t.consents && t.consents[consent.value].grantee == grantee
    ensures Within(scopes, t.consents[consent.value].scopes)
  {
    var c :| c in t.consents && t.consents[c].grantee == grantee && Within(scopes, t.consents[c].scopes);
    assert c in ConsentIds(t, grantee);
  }

  /** A token that founds a family leaves the family linked and itself within the consent. */
  lemma FoundingRefreshOk(t: Tables, id: Id, new_: NewRefresh, consent: Option<Id>)
    requires Inv(t) && CanInsertRefresh(t, id, new_) && new_.family.None?
    requires AnyConsent(t, Grantee(new_.client, Some(new_.user), new_.reference), consent)
    ensures var t' := RefreshInserted(t, id, new_, consent);
            FamilyOk(t', t'.families[id]) && RefreshOk(t', t'.refreshes[id])
            && (t'.families[id].consent.Some? ==> t'.families[id].consent.value in t'.consents)
  {
    if !SkipsConsent(t, new_.client) {
      LinkedConsentCovers(t, Grantee(new_.client, Some(new_.user), new_.reference), new_.scopes, consent);
    }
    if consent.Some? { assert consent.value in ConsentIds(t, Grantee(new_.client, Some(new_.user), new_.reference)); }
  }

  /** A token that joins a family is within the consent its family is linked to. */
  lemma JoiningRefreshOk(t: Tables, id: Id, new_: NewRefresh, consent: Option<Id>)
    requires Inv(t) && CanInsertRefresh(t, id, new_) && new_.family.Some?
    ensures var t' := RefreshInserted(t, id, new_, consent);
            t'.families == t.families && RefreshOk(t', t'.refreshes[id])
  {
    var f := t.families[new_.family.value];
    assert FamilyOk(t, f);
    if !SkipsConsent(t, f.client) {
      var c :| c in t.consents && t.consents[c].grantee == GranteeOf(f) && Within(new_.scopes, t.consents[c].scopes);
      assert c == f.consent.value;
    }
  }

  lemma InsertRefreshKeepsInv(t: Tables, id: Id, new_: NewRefresh, consent: Option<Id>)
    requires Inv(t) && CanInsertRefresh(t, id, new_)
    requires AnyConsent(t, Grantee(new_.client, Some(new_.user), new_.reference), consent)
    ensures Inv(RefreshInserted(t, id, new_, consent))
  {
    var t' := RefreshInserted(t, id, new_, consent);
    if new_.family.None? { FoundingRefreshOk(t, id, new_, consent); } else { JoiningRefreshOk(t, id, new_, consent); }
    InsertRefreshKeepsOthers(t, id, new_, consent);
  }

  lemma InsertRefreshKeepsOthers(t: Tables, id: Id, new_: NewRefresh, consent: Option<Id>)
    requires Inv(t) && CanInsertRefresh(t, id, new_)
    ensures var t' := RefreshInserted(t, id, new_, consent);
            && (forall r :: r in t.refreshes ==> RefreshOk(t', t'.refreshes[r]))
            && (forall f :: f in t.families ==> FamilyOk(t', t'.families[f]))
            && (forall a :: a in t.accesses ==> AccessOk(t', t'.accesses[a]))
            && OneTokenPerGeneration(t')
  {
    var t' := RefreshInserted(t, id, new_, consent);
    SameGrants(t, t');
    InsertRefreshKeepsRefreshes(t, id, new_, consent);
    hide AccessOk, FamilyOk, HasActiveConsent, RefreshOk;
  }

  lemma InsertRefreshKeepsRefreshes(t: Tables, id: Id, new_: NewRefresh, consent: Option<Id>)
    requires RefreshesOk(t) && CanInsertRefresh(t, id, new_)
    ensures var t' := RefreshInserted(t, id, new_, consent); forall r :: r in t.refreshes ==> RefreshOk(t', t'.refreshes[r])
  {
    var t' := RefreshInserted(t, id, new_, consent);
    hide AccessOk, FamilyOk, HasActiveConsent;
    forall r | r in t.refreshes ensures RefreshOk(t', t'.refreshes[r]) {
      assert RefreshOk(t, t.refreshes[r]);
    }
  }

  // ----- updates -----

  lemma BumpKeepsInv(t: Tables, id: Id)
    requires Inv(t) && id in t.families && t.families[id].currentGeneration < MAX_GENERATION
    ensures Inv(t.(families := t.families[id := t.families[id].(currentGeneration := t.families[id].currentGeneration + 1)]))
  {
    var f := t.families[id].(currentGeneration := t.families[id].currentGeneration + 1);
    var t' := t.(families := t.families[id := f]);
    hide AccessesOk, FamiliesOk, RefreshesOk;
    BumpKeepsTokens(t, id, t');
    AccessesKept(t, t');
  }

  lemma BumpKeepsTokens(t: Tables, id: Id, t': Tables)
    requires FamiliesOk(t) && RefreshesOk(t) && id in t.families && t.families[id].currentGeneration < MAX_GENERATION
    requires t' == t.(families := t.families[id := t.families[id].(currentGeneration := t.families[id].currentGeneration + 1)])
    ensures FamiliesOk(t') && RefreshesOk(t')
  {
    forall f | f in t'.families ensures FamilyOk(t', t'.families[f]) { assert FamilyOk(t, t.families[f]); }
    forall r | r in t'.refreshes ensures RefreshOk(t', t'.refreshes[r]) { assert RefreshOk(t, t.refreshes[r]); }
  }

  lemma RevokeKeepsInv(t: Tables, id: Id)
    requires Inv(t) && id in t.refreshes
    ensures Inv(t.(refreshes := t.refreshes[id := t.refreshes[id].(revoked := true)]))
  {
    var t' := t.(refreshes := t.refreshes[id := t.refreshes[id].(revoked := true)]);
    hide AccessesOk, FamiliesOk, RefreshesOk;
    RevokeKeepsTokens(t, id, t');
    AccessesKept(t, t');
  }

  lemma RevokeKeepsTokens(t: Tables, id: Id, t': Tables)
    requires FamiliesOk(t) && RefreshesOk(t) && id in t.refreshes
    requires t' == t.(refreshes := t.refreshes[id := t.refreshes[id].(revoked := true)])
    ensures FamiliesOk(t') && RefreshesOk(t')
  {
    forall f | f in t'.families ensures FamilyOk(t', t'.families[f]) { assert FamilyOk(t, t.families[f]); }
    forall r | r in t'.refreshes ensures RefreshOk(t', t'.refreshes[r]) { assert RefreshOk(t, t.refreshes[r]); }
  }

  /** Changing what a consent grants keeps everything that does not rest on it. */
  lemma ScopesElsewhere(t: Tables, c: Id, scopes: seq<Scope>)
    requires Inv(t) && c in t.consents
    ensures var t1 := t.(consents := t.consents[c := t.consents[c].(scopes := scopes)]);
            && Referential(t1) && OneTokenPerGeneration(t1) && FamiliesOk(t1)
            && (forall r :: r in t1.refreshes && t1.families[t1.refreshes[r].family].consent != Some(c) ==> RefreshOk(t1, t1.refreshes[r]))
            && (forall a :: a in t1.accesses && AccessGrantee(t1.accesses[a]) != t.consents[c].grantee ==> AccessOk(t1, t1.accesses[a]))
  {
    var t1 := t.(consents := t.consents[c := t.consents[c].(scopes := scopes)]);
    forall f | f in t1.families ensures FamilyOk(t1, t1.families[f]) { assert FamilyOk(t, t.families[f]); }
    forall r | r in t1.refreshes && t1.families[t1.refreshes[r].family].consent != Some(c) ensures RefreshOk(t1, t1.refreshes[r]) {
      assert RefreshOk(t, t.refreshes[r]);
    }
    forall a | a in t1.accesses && AccessGrantee(t1.accesses[a]) != t.consents[c].grantee ensures AccessOk(t1, t1.accesses[a]) {
      assert AccessOk(t, t.accesses[a]);
      if !SkipsConsent(t, t.accesses[a].client) {
        var d :| d in t.consents && t.consents[d].grantee == AccessGrantee(t.accesses[a]) && Within(t.accesses[a].scopes, t.consents[d].scopes);
        assert d in t1.consents && t1.consents[d] == t.consents[d];
      }
    }
  }

  /** The narrowing trigger deletes exactly what the consent no longer covers, so what is left is covered. */
  lemma UpdateScopesKeepsInv(t: Tables, c: Id, scopes: seq<Scope>)
    requires Inv(t) && c in t.consents
    ensures Inv(ScopesUpdated(t, c, scopes))
  {
    var t1 := t.(consents := t.consents[c := t.consents[c].(scopes := scopes)]);
    if scopes == t.consents[c].scopes {
      assert t1 == t;
    } else {
      ScopesElsewhere(t, c, scopes);
      var gone := UncoveredFamilies(t1, c, scopes);
      hide AccessesOk, RefreshesOk, FamiliesOk, FamilyOk, RefreshOk, AccessOk, UncoveredFamilies, UncoveredAccesses, Referential;
      NarrowedTokensOk(t, t1, c, scopes, gone);
      NarrowedAccessesOk(t1, DeleteFamilies(t1, gone), c);
      NarrowedReferencesOk(t1, c);
    }
  }

  lemma NarrowedReferencesOk(t1: Tables, c: Id)
    requires Referential(t1) && OneTokenPerGeneration(t1) && FamiliesOk(t1) && c in t1.consents
    ensures var t' := Narrowed(t1, c); Referential(t') && OneTokenPerGeneration(t') && FamiliesOk(t')
  {
    hide UncoveredFamilies, UncoveredAccesses, FamilyOk;
    SameGrants(t1, Narrowed(t1, c));
  }

  lemma NarrowedTokensOk(t: Tables, t1: Tables, c: Id, scopes: seq<Scope>, gone: set<Id>)
    requires Inv(t) && c in t.consents && t1 == t.(consents := t.consents[c := t.consents[c].(scopes := scopes)])
    requires gone == UncoveredFamilies(t1, c, scopes)
    requires forall r :: r in t1.refreshes && t1.families[t1.refreshes[r].family].consent != Some(c) ==> RefreshOk(t1, t1.refreshes[r])
    ensures RefreshesOk(Narrowed(t1, c))
  {
    var t' := Narrowed(t1, c);
    forall r | r in t'.refreshes ensures RefreshOk(t', t'.refreshes[r]) {
      NarrowedRefreshOk(t, t1, c, scopes, gone, r);
    }
  }

  lemma NarrowedAccessesOk(t1: Tables, t2: Tables, c: Id)
    requires c in t1.consents && t2.clients == t1.clients && t2.consents == t1.consents
    requires forall a :: a in t2.accesses ==> a in t1.accesses && t2.accesses[a] == t1.accesses[a]
    requires forall a :: a in t1.accesses && AccessGrantee(t1.accesses[a]) != t1.consents[c].grantee ==> AccessOk(t1, t1.accesses[a])
    ensures AccessesOk(DeleteAccessesOf(t2, UncoveredAccesses(t2, t1.consents[c].grantee, t1.consents[c].scopes)))
  {
    var grantee, scopes := t1.consents[c].grantee, t1.consents[c].scopes;
    var t' := DeleteAccessesOf(t2, UncoveredAccesses(t2, grantee, scopes));
    forall a | a in t'.accesses ensures AccessOk(t', t'.accesses[a]) {
      if AccessGrantee(t1.accesses[a]) == grantee {
        assert a in AccessesFor(t2, grantee) && a !in UncoveredAccesses(t2, grantee, scopes);
        assert t'.consents[c].grantee == AccessGrantee(t'.accesses[a]) && Within(t'.accesses[a].scopes, t'.consents[c].scopes);
      } else {
        assert AccessOk(t1, t1.accesses[a]);
      }
    }
  }

  lemma NarrowedRefreshOk(t: Tables, t1: Tables, c: Id, scopes: seq<Scope>, gone: set<Id>, r: Id)
    requires Inv(t) && c in t.consents && t1 == t.(consents := t.consents[c := t.consents[c].(scopes := scopes)])
    requires gone == UncoveredFamilies(t1, c, scopes) && r in t1.refreshes && t1.refreshes[r].family !in gone
    requires t1.families[t1.refreshes[r].family].consent != Some(c) ==> RefreshOk(t1, t1.refreshes[r])
    ensures RefreshOk(t1, t1.refreshes[r])
  {
    assert RefreshOk(t, t.refreshes[r]);
    if t1.families[t1.refreshes[r].family].consent == Some(c) {
      assert t1.refreshes[r].family in FamiliesUnder(t1, {c});
    }
  }

  // ----- every sequence of statements -----

  lemma StepKeepsInv(t: Tables, step: Step)
    requires Inv(t)
    ensures Inv(Next(t, step))
  {
    hide Inv, CanInsertRefresh, CanInsertAccess, RefreshInserted, ScopesUpdated, DeleteConsents, UserDeleted, SessionDeleted;
    if Accepts(t, step) {
      match step
      case InsertClient(id, skip) => InsertClientKeepsInv(t, id, skip);
      case InsertConsent(id, consent) => InsertConsentKeepsInv(t, id, consent);
      case UpdateScopes(id, scopes) => UpdateScopesKeepsInv(t, id, scopes);
      case DeleteConsent(id) => DeleteConsentsKeepsInv(t, {id});
      case InsertRefresh(id, new_, consent) => InsertRefreshKeepsInv(t, id, new_, consent);
      case InsertAccess(id, a) => InsertAccessKeepsInv(t, id, a);
      case BumpGeneration(id) => BumpKeepsInv(t, id);
      case Revoke(id) => RevokeKeepsInv(t, id);
      case DeleteFamily(id) => DeleteFamiliesKeepsInv(t, {id});
      case DeleteRefresh(id) => DeleteRefreshesKeepsInv(t, {id});
      case DeleteAccess(id) => DeleteAccessesKeepsInv(t, {id});
      case DeleteSession(id) => DeleteSessionKeepsInv(t, id);
      case DeleteUser(id) => DeleteUserKeepsInv(t, id);
    }
  }

  ghost predicate Trace(states: seq<Tables>, steps: seq<Step>) {
    && |states| == |steps| + 1 && states[0] == Tables(map[], map[], map[], map[], map[])
    && forall k :: 0 <= k < |steps| ==> states[k + 1] == Next(states[k], steps[k])
  }

  lemma {:induction false} TraceKeepsInv(states: seq<Tables>, steps: seq<Step>, k: nat)
    requires Trace(states, steps) && k < |states|
    ensures Inv(states[k])
  {
    if k > 0 {
      hide Inv, Next;
      TraceKeepsInv(states, steps, k - 1);
      StepKeepsInv(states[k - 1], steps[k - 1]);
    } else {
      assert Inv(Tables(map[], map[], map[], map[], map[]));
    }
  }

  /** After every statement each access token is within its grantee's consent, unless its client skips consent. */
  lemma AccessWithinConsent(states: seq<Tables>, steps: seq<Step>, k: nat, a: Id)
    requires Trace(states, steps) && k < |states| && a in states[k].accesses
    requires !SkipsConsent(states[k], states[k].accesses[a].client)
    ensures var t := states[k];
            exists c :: c in t.consents && t.consents[c].grantee == AccessGrantee(t.accesses[a])
                        && Within(t.accesses[a].scopes, t.consents[c].scopes)
  {
    TraceKeepsInv(states, steps, k);
    assert AccessOk(states[k], states[k].accesses[a]);
  }

  /** And so is the refresh token its family would next redeem, within the very consent the family is linked to. */
  lemma CurrentRefreshWithinConsent(states: seq<Tables>, steps: seq<Step>, k: nat, r: Id)
    requires Trace(states, steps) && k < |states| && r in states[k].refreshes
    ensures var t := states[k];
            var row := t.refreshes[r];
            row.family in t.families
            && (row.generation == t.families[row.family].currentGeneration && !SkipsConsent(t, row.client) ==>
                  exists c :: c in t.consents && t.families[row.family].consent == Some(c)
                              && t.consents[c].grantee == Grantee(row.client, Some(row.user), row.reference)
                              && Within(row.scopes, t.consents[c].scopes))
  {
    TraceKeepsInv(states, steps, k);
    var t := states[k];
    assert RefreshOk(t, t.refreshes[r]) && FamilyOk(t, t.families[t.refreshes[r].family]);
  }

  /** No refresh token is newer than its family or outlives it, and no family rotates more than a thousand times. */
  lemma RefreshWithinFamily(states: seq<Tables>, steps: seq<Step>, k: nat, r: Id)
    requires Trace(states, steps) && k < |states| && r in states[k].refreshes
    ensures var t := states[k];
            var row := t.refreshes[r];
            row.family in t.families && 0 <= row.generation <= t.families[row.family].currentGeneration <= 1000
            && row.expiresAt <= t.families[row.family].expiresAt
  {
    TraceKeepsInv(states, steps, k);
    assert RefreshOk(states[k], states[k].refreshes[r]) && FamilyOk(states[k], states[k].families[states[k].refreshes[r].family]);
  }

  // ----- what never comes back -----

  /** A token and its family as one statement leaves them: nothing but a rise of the family's generation. */
  ghost predicate Ages(t: Tables, t': Tables, r: Id) {
    && r in t.refreshes && r in t'.refreshes
    && t'.refreshes[r].family == t.refreshes[r].family && t'.refreshes[r].generation == t.refreshes[r].generation
    && t'.refreshes[r].scopes == t.refreshes[r].scopes && t'.refreshes[r].expiresAt == t.refreshes[r].expiresAt
    && t.refreshes[r].family in t.families && t.refreshes[r].family in t'.families
    && t.families[t.refreshes[r].family].currentGeneration <= t'.families[t.refreshes[r].family].currentGeneration
    && t.families[t.refreshes[r].family].expiresAt == t'.families[t.refreshes[r].family].expiresAt
    && (t.refreshes[r].revoked ==> t'.refreshes[r].revoked)
  }

  /** Rows that survive a statement keep everything but what ages them. */
  ghost predicate RowsKept(t: Tables, t': Tables) {
    && (forall r :: r in t.refreshes && r in t'.refreshes ==>
          && t'.refreshes[r].family == t.refreshes[r].family && t'.refreshes[r].generation == t.refreshes[r].generation
          && t'.refreshes[r].scopes == t.refreshes[r].scopes && t'.refreshes[r].expiresAt == t.refreshes[r].expiresAt
          && (t.refreshes[r].revoked ==> t'.refreshes[r].revoked))
    && (forall f :: f in t.families && f in t'.families ==>
          && t.families[f].currentGeneration <= t'.families[f].currentGeneration
          && t.families[f].expiresAt == t'.families[f].expiresAt)
    && (forall a :: a in t.accesses && a in t'.accesses ==>
          t'.accesses[a].refresh == t.accesses[a].refresh && t'.accesses[a].expiresAt == t.accesses[a].expiresAt)
  }

  /** Only rows have gone. */
  ghost predicate OnlyDeletes(t: Tables, t': Tables) {
    && (forall r :: r in t'.refreshes ==> r in t.refreshes && t'.refreshes[r] == t.refreshes[r])
    && (forall f :: f in t'.families ==> f in t.families && t'.families[f] == t.families[f])
    && (forall a :: a in t'.accesses ==> a in t.accesses && t'.accesses[a] == t.accesses[a])
  }

  lemma DeletionsOnlyDelete(t: Tables, gone: set<Id>)
    ensures OnlyDeletes(t, DeleteRefreshes(t, gone)) && OnlyDeletes(t, DeleteFamilies(t, gone))
    ensures OnlyDeletes(t, DeleteAccessesOf(t, gone)) && OnlyDeletes(t, DeleteConsents(t, gone))
  {
  }

  lemma OnlyDeletesTransitive(a: Tables, b: Tables, c: Tables)
    requires OnlyDeletes(a, b) && OnlyDeletes(b, c)
    ensures OnlyDeletes(a, c)
  {
  }

  lemma UserDeletionOnlyDeletes(t: Tables, user: Id)
    ensures OnlyDeletes(t, UserDeleted(t, user))
  {
    hide DeleteConsents, DeleteFamilies, DeleteRefreshes, DeleteAccessesOf, OnlyDeletes;
    var c := set c | c in t.consents && t.consents[c].grantee.user == Some(user);
    var t1 := DeleteConsents(t, c);
    DeletionsOnlyDelete(t, c);
    var f := set f | f in t1.families && t1.families[f].user == user;
    var t2 := DeleteFamilies(t1, f);
    DeletionsOnlyDelete(t1, f);
    OnlyDeletesTransitive(t, t1, t2);
    var r := set r | r in t2.refreshes && t2.refreshes[r].user == user;
    DeletionsOnlyDelete(t2, r);
    var t3 := DeleteRefreshes(t2, r);
    OnlyDeletesTransitive(t, t2, t3);
    var a := set a | a in t3.accesses && t3.accesses[a].user == Some(user);
    DeletionsOnlyDelete(t3, a);
    OnlyDeletesTransitive(t, t3, DeleteAccessesOf(t3, a));
  }

  /** An access token of the user, or issued from a refresh token of theirs. */
  ghost predicate AccessOf(t: Tables, a: Access, user: Id) {
    || a.user == Some(user)
    || (a.refresh.Some? && a.refresh.value in t.refreshes && t.refreshes[a.refresh.value].user == user)
  }

  /** Whatever is gone was the user's, and whatever is left is as it was. */
  ghost predicate OnlyUsers(t: Tables, user: Id, t': Tables) {
    && t'.clients == t.clients && OnlyDeletes(t, t')
    && (forall c :: c in t'.consents ==> c in t.consents && t'.consents[c] == t.consents[c])
    && (forall c :: c in t.consents && t.consents[c].grantee.user != Some(user) ==> c in t'.consents)
    && (forall f :: f in t.families && t.families[f].user != user ==> f in t'.families)
    && (forall r :: r in t.refreshes && t.refreshes[r].user != user ==> r in t'.refreshes)
    && (forall a :: a in t.accesses && !AccessOf(t, t.accesses[a], user) ==> a in t'.accesses)
  }

  lemma UsersRefreshes(t: Tables, user: Id, s: Tables, gone: set<Id>)
    requires OnlyUsers(t, user, s) && gone <= s.refreshes.Keys && forall r :: r in gone ==> s.refreshes[r].user == user
    ensures OnlyUsers(t, user, DeleteRefreshes(s, gone))
  {
  }

  lemma UsersFamilies(t: Tables, user: Id, s: Tables, gone: set<Id>)
    requires RefreshesOk(t) && OnlyUsers(t, user, s) && gone <= s.families.Keys && forall f :: f in gone ==> s.families[f].user == user
    ensures OnlyUsers(t, user, DeleteFamilies(s, gone))
  {
    var members := MembersOf(s, gone);
    forall r | r in members ensures s.refreshes[r].user == user { assert RefreshOk(t, t.refreshes[r]); }
    UsersRefreshes(t, user, s, members);
    hide RefreshOk, AccessOf;
  }

  lemma UsersAccesses(t: Tables, user: Id, s: Tables, gone: set<Id>)
    requires OnlyUsers(t, user, s) && forall a :: a in gone && a in s.accesses ==> s.accesses[a].user == Some(user)
    ensures OnlyUsers(t, user, DeleteAccessesOf(s, gone))
  {
  }

  lemma UsersConsents(t: Tables, user: Id, gone: set<Id>)
    requires FamiliesOk(t) && RefreshesOk(t)
    requires gone <= t.consents.Keys && forall c :: c in gone ==> t.consents[c].grantee.user == Some(user)
    ensures OnlyUsers(t, user, DeleteConsents(t, gone))
  {
    var under := FamiliesUnder(t, gone);
    forall f | f in under ensures t.families[f].user == user { assert FamilyOk(t, t.families[f]); }
    var t0 := t.(consents := t.consents - gone);
    hide AccessOf, RefreshesOk, FamilyOk, DeleteFamilies;
    assert OnlyUsers(t, user, t0);
    UsersFamilies(t, user, t0, under);
    var t1 := DeleteFamilies(t0, under);
    UsersAccesses(t, user, t1, set a | a in t1.accesses && exists c :: c in gone && c in t.consents && t.consents[c].grantee == AccessGrantee(t1.accesses[a]));
  }

  lemma UserDeletionTakesOnlyTheirs(t: Tables, user: Id)
    requires Inv(t)
    ensures OnlyUsers(t, user, UserDeleted(t, user))
  {
    hide DeleteConsents, DeleteFamilies, DeleteRefreshes, DeleteAccessesOf, OneTokenPerGeneration, FamiliesOk, RefreshesOk, AccessesOk, Referential;
    hide OnlyUsers, AccessOf;
    var c := set c | c in t.consents && t.consents[c].grantee.user == Some(user);
    UsersConsents(t, user, c);
    var t1 := DeleteConsents(t, c);
    var f := set f | f in t1.families && t1.families[f].user == user;
    UsersFamilies(t, user, t1, f);
    var t2 := DeleteFamilies(t1, f);
    var r := set r | r in t2.refreshes && t2.refreshes[r].user == user;
    UsersRefreshes(t, user, t2, r);
    var t3 := DeleteRefreshes(t2, r);
    UsersAccesses(t, user, t3, set a | a in t3.accesses && t3.accesses[a].user == Some(user));
  }

  lemma NothingOfTheirsIsLeft(t: Tables, user: Id)
    ensures var t' := UserDeleted(t, user);
            && (forall c :: c in t'.consents ==> t'.consents[c].grantee.user != Some(user))
            && (forall f :: f in t'.families ==> t'.families[f].user != user)
            && (forall r :: r in t'.refreshes ==> t'.refreshes[r].user != user)
            && (forall a :: a in t'.accesses ==> t'.accesses[a].user != Some(user))
  {
    var gone := set c | c in t.consents && t.consents[c].grantee.user == Some(user);
    forall c | c in UserDeleted(t, user).consents ensures c in t.consents && c !in gone && UserDeleted(t, user).consents[c] == t.consents[c] {}
  }

  /**
   * A user's deletion takes exactly what was granted to them or issued for them, tokens issued from their refresh
   * tokens included, and leaves every other row as it was.
   */
  lemma UserLeavesNothing(t: Tables, user: Id)
    requires Inv(t)
    ensures var t' := UserDeleted(t, user);
            && (forall c :: c in t'.consents <==> c in t.consents && t.consents[c].grantee.user != Some(user))
            && (forall f :: f in t'.families <==> f in t.families && t.families[f].user != user)
            && (forall r :: r in t'.refreshes <==> r in t.refreshes && t.refreshes[r].user != user)
            && (forall a :: a in t'.accesses <==> a in t.accesses && !AccessOf(t, t.accesses[a], user))
            && (forall c :: c in t'.consents ==> t'.consents[c] == t.consents[c])
            && OnlyDeletes(t, t') && t'.clients == t.clients
  {
    var t' := UserDeleted(t, user);
    UserDeletionTakesOnlyTheirs(t, user);
    NothingOfTheirsIsLeft(t, user);
    DeleteUserKeepsInv(t, user);
    hide UserDeleted, OneTokenPerGeneration, FamiliesOk, RefreshesOk, AccessesOk;
  }

  /** A session as rows record it, once one is gone. */
  ghost predicate Forgets(before: Option<Id>, session: Id, after: Option<Id>) {
    (before == Some(session) ==> after == None) && (before != Some(session) ==> after == before)
  }

  /** A session's deletion takes no row, and from each only that session. */
  lemma SessionIsForgotten(t: Tables, session: Id)
    ensures var t' := SessionDeleted(t, session);
            && t'.clients == t.clients && t'.consents == t.consents
            && t'.families.Keys == t.families.Keys && t'.refreshes.Keys == t.refreshes.Keys && t'.accesses.Keys == t.accesses.Keys
            && (forall f :: f in t.families ==>
                  Forgets(t.families[f].session, session, t'.families[f].session)
                  && t'.families[f] == t.families[f].(session := t'.families[f].session))
            && (forall r :: r in t.refreshes ==>
                  Forgets(t.refreshes[r].session, session, t'.refreshes[r].session)
                  && t'.refreshes[r] == t.refreshes[r].(session := t'.refreshes[r].session))
            && (forall a :: a in t.accesses ==>
                  Forgets(t.accesses[a].session, session, t'.accesses[a].session)
                  && t'.accesses[a] == t.accesses[a].(session := t'.accesses[a].session))
  {
  }

  /**
   * A consent's deletion takes the families linked to it with every token descended from them, every access token of its
   * grantee, and nothing else.
   */
  ghost predicate ConsentEnded(t: Tables, c: Id, t': Tables)
    requires c in t.consents
  {
    && t'.clients == t.clients
    && (forall d :: d in t'.consents <==> d in t.consents && d != c)
    && (forall d :: d in t'.consents ==> t'.consents[d] == t.consents[d])
    && (forall f :: f in t'.families <==> f in t.families && t.families[f].consent != Some(c))
    && (forall r :: r in t'.refreshes <==>
          r in t.refreshes && !(t.refreshes[r].family in t.families && t.families[t.refreshes[r].family].consent == Some(c)))
    && (forall a :: a in t'.accesses <==>
          a in t.accesses && AccessGrantee(t.accesses[a]) != t.consents[c].grantee
          && !exists r :: t.accesses[a].refresh == Some(r) && r in t.refreshes && t.refreshes[r].family in t.families
                          && t.families[t.refreshes[r].family].consent == Some(c))
    && OnlyDeletes(t, t')
  }

  lemma DeletingAConsentEndsIt(t: Tables, c: Id)
    requires c in t.consents
    ensures ConsentEnded(t, c, DeleteConsents(t, {c}))
  {
    DeletionsOnlyDelete(t, {c});
    var t' := DeleteConsents(t, {c});
    hide OnlyDeletes;
    forall f ensures f in FamiliesUnder(t, {c}) <==> f in t.families && t.families[f].consent == Some(c) {}
    forall a ensures a in t'.accesses <==>
          a in t.accesses && AccessGrantee(t.accesses[a]) != t.consents[c].grantee
          && !exists r :: t.accesses[a].refresh == Some(r) && r in t.refreshes && t.refreshes[r].family in t.families
                          && t.families[t.refreshes[r].family].consent == Some(c)
    {
      AccessAfterConsent(t, c, a);
    }
  }

  lemma AccessAfterConsent(t: Tables, c: Id, a: Id)
    requires c in t.consents
    ensures a in DeleteConsents(t, {c}).accesses <==>
          a in t.accesses && AccessGrantee(t.accesses[a]) != t.consents[c].grantee
          && !exists r :: t.accesses[a].refresh == Some(r) && r in t.refreshes && t.refreshes[r].family in t.families
                          && t.families[t.refreshes[r].family].consent == Some(c)
  {
    if a in t.accesses && t.accesses[a].refresh.Some? {
      var r := t.accesses[a].refresh.value;
      assert r in MembersOf(t, FamiliesUnder(t, {c})) <==>
             r in t.refreshes && t.refreshes[r].family in t.families && t.families[t.refreshes[r].family].consent == Some(c);
    }
  }

  lemma ScopesUpdateOnlyDeletes(t: Tables, c: Id, scopes: seq<Scope>)
    requires c in t.consents
    ensures OnlyDeletes(t, ScopesUpdated(t, c, scopes))
  {
    hide UncoveredFamilies, UncoveredAccesses;
  }

  lemma DeletingKeepsRows(t: Tables, t': Tables)
    requires OnlyDeletes(t, t')
    ensures RowsKept(t, t')
  {
  }

  lemma RewritingKeepsRows(t: Tables, step: Step)
    requires Accepts(t, step) && (step.InsertRefresh? || step.BumpGeneration? || step.Revoke? || step.DeleteSession? || step.InsertAccess?)
    ensures RowsKept(t, Next(t, step))
  {
    hide HasActiveConsent, AnyConsent;
  }

  lemma StepKeepsRows(t: Tables, step: Step)
    ensures RowsKept(t, Next(t, step))
  {
    if Accepts(t, step) {
      match step
      case InsertRefresh(_, _, _) => RewritingKeepsRows(t, step);
      case BumpGeneration(_) => RewritingKeepsRows(t, step);
      case Revoke(_) => RewritingKeepsRows(t, step);
      case DeleteSession(_) => RewritingKeepsRows(t, step);
      case UpdateScopes(id, scopes) => ScopesUpdateOnlyDeletes(t, id, scopes); DeletingStepKeepsRows(t, step);
      case DeleteConsent(id) => DeletionsOnlyDelete(t, {id}); DeletingStepKeepsRows(t, step);
      case DeleteFamily(id) => DeletionsOnlyDelete(t, {id}); DeletingStepKeepsRows(t, step);
      case DeleteRefresh(id) => DeletionsOnlyDelete(t, {id}); DeletingStepKeepsRows(t, step);
      case DeleteAccess(id) => DeletionsOnlyDelete(t, {id}); DeletingStepKeepsRows(t, step);
      case DeleteUser(id) => UserDeletionOnlyDeletes(t, id); DeletingStepKeepsRows(t, step);
      case InsertClient(_, _) => DeletingStepKeepsRows(t, step);
      case InsertConsent(_, _) => DeletingStepKeepsRows(t, step);
      case InsertAccess(_, _) => RewritingKeepsRows(t, step);
    }
  }

  lemma DeletingStepKeepsRows(t: Tables, step: Step)
    requires OnlyDeletes(t, Next(t, step))
    ensures RowsKept(t, Next(t, step))
  {
    hide Next;
    DeletingKeepsRows(t, Next(t, step));
  }

  lemma StepAges(t: Tables, step: Step, r: Id)
    requires Inv(t) && r in t.refreshes && r in Next(t, step).refreshes
    ensures Ages(t, Next(t, step), r)
  {
    hide Next, RefreshOk, FamilyOk, AccessOk, OneTokenPerGeneration;
    StepKeepsInv(t, step);
    StepKeepsRows(t, step);
  }

  /** A refresh token whose family has moved past it. */
  ghost predicate Superseded(t: Tables, r: Id) {
    r in t.refreshes && t.refreshes[r].family in t.families
    && t.refreshes[r].generation < t.families[t.refreshes[r].family].currentGeneration
  }

  lemma AgingKeepsSuperseded(t: Tables, t': Tables, r: Id)
    requires Ages(t, t', r) && Superseded(t, r)
    ensures Superseded(t', r)
  {
  }

  lemma TraceLength(states: seq<Tables>, steps: seq<Step>)
    requires Trace(states, steps)
    ensures |states| == |steps| + 1
  {
  }

  lemma TraceStep(states: seq<Tables>, steps: seq<Step>, k: nat)
    requires Trace(states, steps) && k + 1 < |states|
    ensures k < |steps| && states[k + 1] == Next(states[k], steps[k])
  {
  }

  /** Once superseded, a refresh token is never current again for as long as its row exists. */
  lemma {:induction false} SupersededStaysSuperseded(states: seq<Tables>, steps: seq<Step>, j: nat, k: nat, r: Id)
    requires Trace(states, steps) && j <= k < |states| && Superseded(states[j], r)
    requires forall i :: j <= i <= k ==> r in states[i].refreshes
    ensures Superseded(states[k], r)
    decreases k
  {
    hide *;
    TraceLength(states, steps);
    if j < k {
      SupersededStaysSuperseded(states, steps, j, k - 1, r);
      TraceKeepsInv(states, steps, k - 1);
      TraceStep(states, steps, k - 1);
      assert r in states[k - 1].refreshes && r in states[k].refreshes;
      StepAges(states[k - 1], steps[k - 1], r);
      AgingKeepsSuperseded(states[k - 1], states[k], r);
    }
  }
}
