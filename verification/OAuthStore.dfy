/** The OAuth tables updated in place: the four trigger functions, the statements that fire them, and refresh rotation. */
module OAuthStore {
  import opened Wrappers
  import opened OAuthTables
  import opened OAuthLifecycle
  import opened OAuthRotation

  /** A family linked to the consent whose current refresh token holds a scope the consent does not grant. */
  ghost predicate Uncovered(t: Tables, c: Id, f: Id)
    requires c in t.consents
  {
    && f in t.families && t.families[f].consent == Some(c)
    && exists r :: r in t.refreshes && t.refreshes[r].family == f && t.refreshes[r].generation == t.families[f].currentGeneration
                   && !Within(t.refreshes[r].scopes, t.consents[c].scopes)
  }

  /** Of what was issued under a consent, only what it covers is left; nothing else has changed. */
  ghost predicate OnlyCoveredRemain(t: Tables, c: Id, t': Tables)
    requires c in t.consents
  {
    var consent := t.consents[c];
    && t'.clients == t.clients && t'.consents == t.consents
    && (forall f :: f in t'.families <==> f in t.families && !Uncovered(t, c, f))
    && (forall f :: f in t'.families ==> t'.families[f] == t.families[f])
    && (forall r :: r in t'.refreshes <==> r in t.refreshes && !Uncovered(t, c, t.refreshes[r].family))
    && (forall r :: r in t'.refreshes ==> t'.refreshes[r] == t.refreshes[r])
    && (forall a :: a in t'.accesses <==>
          a in t.accesses
          && !(AccessGrantee(t.accesses[a]) == consent.grantee && !Within(t.accesses[a].scopes, consent.scopes))
          && !exists r :: t.accesses[a].refresh == Some(r) && r in t.refreshes && Uncovered(t, c, t.refreshes[r].family))
    && (forall a :: a in t'.accesses ==> t'.accesses[a] == t.accesses[a])
  }

  /** The row a refresh token is stored as: all it was given, and the founder of a family is its generation 0. */
  predicate IsRowOf(id: Id, new_: NewRefresh, row: Refresh) {
    && (row.client, row.session, row.user, row.reference) == (new_.client, new_.session, new_.user, new_.reference)
    && row.scopes == new_.scopes && row.expiresAt == new_.expiresAt && !row.revoked
    && match new_.family
       case None => row.family == id && row.generation == 0
       case Some(family) => row.family == family && new_.generation == Some(row.generation)
  }

  /** The family a refresh token founds: its owner's, linked to their consent, good as long as the token. */
  predicate IsFounded(new_: NewRefresh, consent: Option<Id>, family: Family) {
    && (family.client, family.session, family.user, family.reference) == (new_.client, new_.session, new_.user, new_.reference)
    && family.consent == consent && family.currentGeneration == 0 && family.expiresAt == new_.expiresAt
  }

  lemma UncoveredAreTheTriggers(t: Tables, c: Id, f: Id)
    requires c in t.consents
    ensures f in UncoveredFamilies(t, c, t.consents[c].scopes) <==> Uncovered(t, c, f)
  {
    if Uncovered(t, c, f) {
      assert f in FamiliesUnder(t, {c});
    }
  }

  lemma NarrowingLeavesTheCovered(t: Tables, c: Id)
    requires c in t.consents
    ensures OnlyCoveredRemain(t, c, Narrowed(t, c))
  {
    forall f ensures f in UncoveredFamilies(t, c, t.consents[c].scopes) <==> Uncovered(t, c, f) {
      UncoveredAreTheTriggers(t, c, f);
    }
    hide Uncovered, UncoveredFamilies, Within;
  }

  class Store {
    var clients: map<Id, bool>
    var consents: map<Id, Consent>
    var families: map<Id, Family>
    var refreshes: map<Id, Refresh>
    var accesses: map<Id, Access>

    constructor ()
      ensures View() == Tables(map[], map[], map[], map[], map[])
    {
      clients, consents, families, refreshes, accesses := map[], map[], map[], map[], map[];
    }

    function View(): Tables
      reads this
    {
      Tables(clients, consents, families, refreshes, accesses)
    }

    // ----- the trigger functions -----

    /** Before a refresh token is inserted: found its family, or insist that it matches the one it names. */
    method PrepareFamily(id: Id, new_: NewRefresh) returns (row: Result<Refresh, Error>, consent: Option<Id>)
      modifies `families
      ensures AnyConsent(old(View()), NewGrantee(new_), consent) || new_.family.Some?
      ensures row.Ok? <==> (if new_.family.None? then id !in old(families) else MatchesFamily(old(View()), new_))
      ensures row.Ok? ==> row.value == Prepared(id, new_, consent).0
      ensures row.Ok? ==> IsRowOf(id, new_, row.value)
      ensures row.Ok? && new_.family.None? ==> families.Keys == old(families).Keys + {id} && IsFounded(new_, consent, families[id])
      ensures families == (if row.Ok? && new_.family.None? then old(families)[id := Prepared(id, new_, consent).1.value] else old(families))
    {
      consent := None;
      if new_.family.None? {
        var found := ConsentIds(View(), NewGrantee(new_));
        if found != {} {
          var c := Pick(found);
          consent := Some(c);
        }
        if id in families {
          return Err(UniqueViolation), consent;
        }
        families := families[id := Family(new_.client, new_.session, new_.user, new_.reference, consent, 0, new_.expiresAt)];
        row := Ok(Refresh(new_.client, new_.session, new_.user, new_.reference, id, 0, new_.scopes, new_.expiresAt, false));
      } else {
        if !MatchesFamily(View(), new_) {
          return Err(ForeignKeyViolation), consent;
        }
        row := Ok(Refresh(new_.client, new_.session, new_.user, new_.reference, new_.family.value, new_.generation.value,
                          new_.scopes, new_.expiresAt, false));
      }
    }

    /** Before any token is inserted: the client skips consent, or a consent of the same grantee covers the scopes. */
    method RequireActiveConsent(grantee: Grantee, scopes: seq<Scope>) returns (active: bool)
      ensures active <==> HasActiveConsent(View(), grantee, scopes)
    {
      if grantee.client in clients && clients[grantee.client] {
        return true;
      }
      var found := set c | c in consents && consents[c].grantee == grantee && Within(scopes, consents[c].scopes);
      active := found != {};
      if active {
        ghost var c := Element(found);
      } else {
        forall c | c in consents ensures !(consents[c].grantee == grantee && Within(scopes, consents[c].scopes)) {
          assert c !in found;
        }
      }
    }

    /**
     * After a consent's scopes change: a family goes exactly when it was linked to the consent and its current token
     * holds a scope the consent lost; every token descended from it goes with it, and otherwise only the grantee's
     * access tokens holding such a scope.
     */
    method NarrowTokens(c: Id, before: seq<Scope>)
      requires c in consents
      modifies `families, `refreshes, `accesses
      ensures old(consents[c].scopes) == before ==> View() == old(View())
      ensures old(consents[c].scopes) != before ==> OnlyCoveredRemain(old(View()), c, View())
      ensures var t := old(View());
              View() == (if t.consents[c].scopes == before then t else Narrowed(t, c))
    {
      if consents[c].scopes == before {
        return;
      }
      NarrowingLeavesTheCovered(View(), c);
      var gone := UncoveredFamilies(View(), c, consents[c].scopes);
      DropFamilies(gone);
      accesses := accesses - UncoveredAccesses(View(), consents[c].grantee, consents[c].scopes);
    }

    /** After a consent is deleted: no access token of its grantee is left, linked to a family or not, and every other one is. */
    method DeleteUnlinkedAccessTokens(grantee: Grantee)
      modifies `accesses
      ensures forall a :: a in accesses ==> AccessGrantee(accesses[a]) != grantee
      ensures forall a :: a in old(accesses) && AccessGrantee(old(accesses)[a]) != grantee ==> a in accesses
      ensures forall a :: a in accesses ==> a in old(accesses) && accesses[a] == old(accesses)[a]
      ensures View() == DeleteAccessesOf(old(View()), AccessesFor(old(View()), grantee))
    {
      accesses := accesses - AccessesFor(View(), grantee);
    }

    // ----- the statements -----

    /** Deletes families; the foreign keys take their refresh tokens and those tokens' access tokens. */
    method DropFamilies(gone: set<Id>)
      modifies `families, `refreshes, `accesses
      ensures View() == DeleteFamilies(old(View()), gone)
    {
      var members := MembersOf(View(), gone);
      families := families - gone;
      refreshes := refreshes - members;
      accesses := map a | a in accesses && !(accesses[a].refresh.Some? && accesses[a].refresh.value in members) :: accesses[a];
    }

    method UpdateConsentScopes(c: Id, scopes: seq<Scope>)
      modifies this
      ensures View() == Next(old(View()), UpdateScopes(c, scopes))
      ensures c !in old(consents) || old(consents)[c].scopes == scopes ==> View() == old(View())
      ensures c in old(consents) && old(consents)[c].scopes != scopes ==>
                var t := old(View());
                OnlyCoveredRemain(t.(consents := t.consents[c := t.consents[c].(scopes := scopes)]), c, View())
    {
      hide OnlyCoveredRemain;
      if c in consents {
        var before := consents[c].scopes;
        consents := consents[c := consents[c].(scopes := scopes)];
        NarrowTokens(c, before);
      }
    }

    method DropConsent(c: Id)
      modifies this
      ensures View() == Next(old(View()), DeleteConsent(c))
      ensures if c in old(consents) then ConsentEnded(old(View()), c, View()) else View() == old(View())
    {
      if c in consents {
        DeletingAConsentEndsIt(View(), c);
        hide ConsentEnded;
        ghost var t := View();
        var grantee := consents[c].grantee;
        var under := FamiliesUnder(View(), {c});
        consents := consents - {c};
        DropFamilies(under);
        ghost var t1 := View();
        DeleteUnlinkedAccessTokens(grantee);
        OneGranteesAccesses(t, c, t1);
      }
    }

    /** Inserts a refresh token through both triggers and the constraints, or leaves every table as it was. */
    method InsertRefreshToken(id: Id, new_: NewRefresh) returns (ok: bool, consent: Option<Id>)
      modifies this
      ensures ok <==> CanInsertRefresh(old(View()), id, new_)
      ensures ok ==> AnyConsent(old(View()), NewGrantee(new_), consent) || new_.family.Some?
      ensures View() == (if ok then RefreshInserted(old(View()), id, new_, consent) else old(View()))
      ensures ok ==> refreshes.Keys == old(refreshes).Keys + {id} && IsRowOf(id, new_, refreshes[id])
      ensures ok && new_.family.None? ==> families.Keys == old(families).Keys + {id} && IsFounded(new_, consent, families[id])
    {
      consent := None;
      var saved := families;
      ghost var t := View();
      var row;
      row, consent := PrepareFamily(id, new_);
      if row.Err? {
        return false, consent;
      }
      var active := RequireActiveConsent(NewGrantee(new_), new_.scopes);
      assert active <==> HasActiveConsent(t, NewGrantee(new_), new_.scopes);
      var taken := exists r :: r in refreshes && refreshes[r].family == row.value.family && refreshes[r].generation == row.value.generation;
      ok := active && new_.client in clients && id !in refreshes && !taken && 0 <= row.value.generation <= MAX_GENERATION;
      if ok {
        refreshes := refreshes[id := row.value];
      } else {
        families := saved;
      }
    }

    /** Inserts an access token through the consent trigger and the constraints, or leaves every table as it was. */
    method InsertAccessToken(id: Id, a: Access) returns (ok: bool)
      modifies this
      ensures ok <==> CanInsertAccess(old(View()), id, a)
      ensures View() == Next(old(View()), InsertAccess(id, a))
    {
      ok := RequireActiveConsent(AccessGrantee(a), a.scopes);
      ok := ok && a.client in clients && id !in accesses && (a.refresh.Some? ==> a.refresh.value in refreshes);
      if ok {
        accesses := accesses[id := a];
      }
    }

    // ----- rotation -----

    /** One presentation of a refresh token, under the locks the transaction takes. */
    method Rotate(p: Presented, request: Request) returns (outcome: Outcome)
      modifies this
      ensures Outcomes(old(View()), p, request, outcome, View())
    {
      if p.client !in clients || (!clients[p.client] && (p.consent.None? || p.consent.value !in consents)) || p.family !in families {
        return Refused;
      }
      ghost var t := View();
      var family := families[p.family];
      if !Redeemable(View(), p, request.now) || !StillGranted(View(), p, request) || family.currentGeneration >= MAX_GENERATION {
        DropFamilies({p.family});
        return FamilyEnded;
      }
      if !request.permitted || !ScopesAllowed(refreshes[p.token].scopes, request) {
        return Refused;
      }
      var saved, savedFamilies, savedAccesses := refreshes, families, accesses;
      var current := refreshes[p.token];
      var scopes := if request.requested.Some? then request.requested.value else current.scopes;
      refreshes := refreshes[p.token := current.(revoked := true)];
      families := families[p.family := family.(currentGeneration := family.currentGeneration + 1)];
      assert View() == Consumed(t, p);
      var ok, _ := InsertRefreshToken(
        request.nextRefresh,
        NewRefresh(current.client, current.session, current.user, current.reference, Some(p.family),
                   Some(family.currentGeneration + 1), current.scopes, family.expiresAt));
      if ok {
        ok := InsertAccessToken(
          request.nextAccess,
          Access(current.client, current.session, Some(current.user), current.reference, Some(request.nextRefresh), scopes,
                 request.now + ACCESS_TOKEN_TTL));
      }
      if ok {
        outcome := Rotated;
      } else {
        refreshes, families, accesses := saved, savedFamilies, savedAccesses;
        outcome := Aborted;
      }
    }
  }
}
