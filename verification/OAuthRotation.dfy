/** Refresh-token rotation: what one presentation may do, and that replay ends the whole login. */
module OAuthRotation {
  import opened Wrappers
  import opened OAuthTables
  import opened OAuthLifecycle

  /** What was read about the presented token before its family was locked. */
  datatype Presented = Presented(token: Id, client: Id, family: Id, consent: Option<Id>)

  /** `clientScopes` is what the client is registered for, if limited; `permitted` is the organization's policy. */
  datatype Request = Request(clientScopes: Option<seq<Scope>>, requested: Option<seq<Scope>>, permitted: bool, now: Time,
                             nextRefresh: Id, nextAccess: Id)

  /** How long an access token issued by a rotation is good for: an hour. */
  const ACCESS_TOKEN_TTL: Time := 3600 * 1000

  datatype Outcome = Refused | FamilyEnded | Rotated | Aborted

  function NewGrantee(new_: NewRefresh): Grantee {
    Grantee(new_.client, Some(new_.user), new_.reference)
  }

  /** The presentation gets as far as its family: the client's consent and the family are still there. */
  predicate Reaches(t: Tables, p: Presented) {
    && p.client in t.clients
    && (t.clients[p.client] || (p.consent.Some? && p.consent.value in t.consents))
    && p.family in t.families
  }

  /** The token is its family's current one, unused and unexpired. */
  predicate Redeemable(t: Tables, p: Presented, now: Time)
    requires p.family in t.families
  {
    && p.token in t.refreshes
    && var r := t.refreshes[p.token];
       var f := t.families[p.family];
       && r.family == p.family && r.client == f.client && r.user == f.user && r.session == f.session && r.reference == f.reference
       && !r.revoked && now < r.expiresAt && now < f.expiresAt && r.generation == f.currentGeneration
  }

  /** What the token was granted is still registered for the client and still consented to. */
  predicate StillGranted(t: Tables, p: Presented, request: Request)
    requires Reaches(t, p) && p.token in t.refreshes
  {
    && (request.clientScopes.Some? ==> Within(t.refreshes[p.token].scopes, request.clientScopes.value))
    && (t.clients[p.client] || Within(t.refreshes[p.token].scopes, t.consents[p.consent.value].scopes))
  }

  predicate ScopesAllowed(granted: seq<Scope>, request: Request) {
    var asked := if request.requested.Some? then request.requested.value else granted;
    Within(asked, granted) && (request.clientScopes.Some? ==> Within(asked, request.clientScopes.value))
  }

  /** The tables once the presented token is consumed and the family's generation has moved on. */
  function Consumed(t: Tables, p: Presented): Tables
    requires p.family in t.families && p.token in t.refreshes
  {
    var f := t.families[p.family];
    t.(refreshes := t.refreshes[p.token := t.refreshes[p.token].(revoked := true)],
       families := t.families[p.family := f.(currentGeneration := f.currentGeneration + 1)])
  }

  function NextRefresh(t: Tables, p: Presented): NewRefresh
    requires p.family in t.families && p.token in t.refreshes
  {
    var r := t.refreshes[p.token];
    var f := t.families[p.family];
    NewRefresh(r.client, r.session, r.user, r.reference, Some(p.family), Some(f.currentGeneration + 1), r.scopes, f.expiresAt)
  }

  function NextAccess(t: Tables, p: Presented, request: Request): Access
    requires p.token in t.refreshes
  {
    var r := t.refreshes[p.token];
    Access(r.client, r.session, Some(r.user), r.reference, Some(request.nextRefresh),
           if request.requested.Some? then request.requested.value else r.scopes, request.now + ACCESS_TOKEN_TTL)
  }

  /** The tables after a rotation. */
  function AfterRotation(t: Tables, p: Presented, request: Request): Tables
    requires p.family in t.families && p.token in t.refreshes
  {
    var t1 := RefreshInserted(Consumed(t, p), request.nextRefresh, NextRefresh(t, p), None);
    t1.(accesses := t1.accesses[request.nextAccess := NextAccess(t, p, request)])
  }

  /** The checks a presentation must pass to be rotated. */
  predicate Passes(t: Tables, p: Presented, request: Request) {
    && Reaches(t, p) && Redeemable(t, p, request.now) && StillGranted(t, p, request)
    && t.families[p.family].currentGeneration < MAX_GENERATION
  }

  /** What each outcome means and leaves behind. */
  ghost predicate Outcomes(t: Tables, p: Presented, request: Request, outcome: Outcome, t': Tables) {
    if !Reaches(t, p) then outcome == Refused && t' == t
    else if !Passes(t, p, request) then outcome == FamilyEnded && t' == DeleteFamilies(t, {p.family})
    else if !request.permitted || !ScopesAllowed(t.refreshes[p.token].scopes, request) then outcome == Refused && t' == t
    else
      var inserted := RefreshInserted(Consumed(t, p), request.nextRefresh, NextRefresh(t, p), None);
      if (CanInsertRefresh(Consumed(t, p), request.nextRefresh, NextRefresh(t, p))
          && CanInsertAccess(inserted, request.nextAccess, NextAccess(t, p, request)))
      then outcome == Rotated && t' == AfterRotation(t, p, request)
      else outcome == Aborted && t' == t
  }

  // ----- what rotation promises -----

  /** The presentation was read of this token and this family: a token's client and a family's consent never change. */
  ghost predicate ReadFrom(t: Tables, p: Presented) {
    && (p.token in t.refreshes ==> t.refreshes[p.token].client == p.client)
    && (p.family in t.families ==> t.families[p.family].consent == p.consent)
  }

  /** The triggers accept the next refresh token whenever the checks before it passed and its id is new. */
  lemma NextRefreshAccepted(t: Tables, p: Presented, request: Request)
    requires Inv(t) && ReadFrom(t, p) && Passes(t, p, request)
    ensures CanInsertRefresh(Consumed(t, p), request.nextRefresh, NextRefresh(t, p)) <==> request.nextRefresh !in t.refreshes
  {
    var t1 := Consumed(t, p);
    var f := t.families[p.family];
    var r := t.refreshes[p.token];
    assert FamilyOk(t, f) && RefreshOk(t, r);
    if !t.clients[p.client] {
      var c := p.consent.value;
      assert c in t1.consents && t1.consents[c].grantee == NewGrantee(NextRefresh(t, p)) && Within(r.scopes, t1.consents[c].scopes);
    }
    forall q | q in t1.refreshes && t1.refreshes[q].family == p.family ensures t1.refreshes[q].generation <= f.currentGeneration {
      assert RefreshOk(t, t.refreshes[q]);
    }
  }

  /** And the next access token, which asks for no more than the refresh token holds. */
  lemma NextAccessAccepted(t: Tables, p: Presented, request: Request)
    requires Inv(t) && ReadFrom(t, p) && Passes(t, p, request)
    requires ScopesAllowed(t.refreshes[p.token].scopes, request)
    ensures var t1 := RefreshInserted(Consumed(t, p), request.nextRefresh, NextRefresh(t, p), None);
            CanInsertAccess(t1, request.nextAccess, NextAccess(t, p, request)) <==> request.nextAccess !in t.accesses
  {
    var t1 := RefreshInserted(Consumed(t, p), request.nextRefresh, NextRefresh(t, p), None);
    var f := t.families[p.family];
    var a := NextAccess(t, p, request);
    assert FamilyOk(t, f) && RefreshOk(t, t.refreshes[p.token]);
    if !t.clients[p.client] {
      var c := p.consent.value;
      var granted := t.refreshes[p.token].scopes;
      forall k | 0 <= k < |a.scopes| ensures a.scopes[k] in t1.consents[c].scopes {
        assert a.scopes[k] in granted;
        var i :| 0 <= i < |granted| && granted[i] == a.scopes[k];
        assert granted[i] in t.consents[c].scopes;
      }
      assert c in t1.consents && t1.consents[c].grantee == AccessGrantee(a) && Within(a.scopes, t1.consents[c].scopes);
    }
  }

  /** The client, its consent if it needs one, and the family are there. */
  ghost predicate Present(t: Tables, p: Presented) {
    && p.client in t.clients && p.family in t.families
    && (!t.clients[p.client] ==> exists c :: p.consent == Some(c) && c in t.consents)
  }

  /**
   * What a token must be to be worth redeeming: the family's current one, its owner's, unused, in time, and every scope
   * it holds still registered for the client and still consented to, in a family that may rotate again.
   */
  ghost predicate Sound(t: Tables, p: Presented, request: Request)
    requires Present(t, p)
  {
    && p.token in t.refreshes
    && var r, f := t.refreshes[p.token], t.families[p.family];
       && r.family == p.family && r.generation == f.currentGeneration < 1000
       && (r.client, r.user, r.session, r.reference) == (f.client, f.user, f.session, f.reference)
       && !r.revoked && request.now < r.expiresAt && request.now < f.expiresAt
       && (forall s :: s in r.scopes && request.clientScopes.Some? ==> s in request.clientScopes.value)
       && (forall s :: s in r.scopes && !t.clients[p.client] ==> s in t.consents[p.consent.value].scopes)
  }

  /** The scopes a rotation issues: those requested, or all the token holds. */
  function Asked(t: Tables, p: Presented, request: Request): seq<Scope>
    requires p.token in t.refreshes
  {
    match request.requested
    case Some(scopes) => scopes
    case None => t.refreshes[p.token].scopes
  }

  /** The request is for scopes the token holds and the client is registered for, and the organization permits it. */
  ghost predicate MayAsk(t: Tables, p: Presented, request: Request)
    requires p.token in t.refreshes
  {
    && request.permitted
    && forall s :: s in Asked(t, p, request) ==>
         s in t.refreshes[p.token].scopes && (request.clientScopes.Some? ==> s in request.clientScopes.value)
  }

  lemma WithinIs(a: seq<Scope>, b: seq<Scope>)
    ensures Within(a, b) <==> forall s :: s in a ==> s in b
  {
    if Within(a, b) {
      forall s | s in a ensures s in b {
        var k :| 0 <= k < |a| && a[k] == s;
      }
    }
    if forall s :: s in a ==> s in b {
      forall k | 0 <= k < |a| ensures a[k] in b {
        assert a[k] in a;
      }
    }
  }

  /** The checks come to soundness and to asking for no more than may be asked. */
  lemma ChecksAre(t: Tables, p: Presented, request: Request)
    ensures Reaches(t, p) <==> Present(t, p)
    ensures Passes(t, p, request) <==> Present(t, p) && Sound(t, p, request)
    ensures p.token in t.refreshes ==>
              (request.permitted && ScopesAllowed(t.refreshes[p.token].scopes, request) <==> MayAsk(t, p, request))
  {
    if p.token in t.refreshes {
      var r := t.refreshes[p.token];
      if request.clientScopes.Some? {
        WithinIs(r.scopes, request.clientScopes.value);
        WithinIs(Asked(t, p, request), request.clientScopes.value);
      }
      WithinIs(Asked(t, p, request), r.scopes);
      if p.consent.Some? && p.consent.value in t.consents { WithinIs(r.scopes, t.consents[p.consent.value].scopes); }
    }
    hide Within;
  }

  /**
   * What a presentation comes to: without client, consent or family it is refused; a token that is not sound ends its
   * family; one that asks for too much is refused; and otherwise it is rotated exactly when the two new ids are unused,
   * for no trigger refuses it.
   */
  lemma RotatesWhenChecked(t: Tables, p: Presented, request: Request, outcome: Outcome, t': Tables)
    requires Inv(t) && ReadFrom(t, p) && Outcomes(t, p, request, outcome, t')
    ensures !Present(t, p) ==> outcome == Refused
    ensures Present(t, p) && !Sound(t, p, request) ==> outcome == FamilyEnded
    ensures Present(t, p) && Sound(t, p, request) && !MayAsk(t, p, request) ==> outcome == Refused
    ensures Present(t, p) && Sound(t, p, request) && MayAsk(t, p, request) ==>
              outcome == if request.nextRefresh !in t.refreshes && request.nextAccess !in t.accesses then Rotated else Aborted
  {
    hide Inv, ReadFrom, ScopesAllowed, StillGranted, CanInsertRefresh, CanInsertAccess, RefreshInserted, AfterRotation, Passes, Reaches;
    hide MayAsk, NextAccess, NextRefresh;
    ChecksAre(t, p, request);
    if Present(t, p) && Sound(t, p, request) && MayAsk(t, p, request) {
      NextRefreshAccepted(t, p, request);
      NextAccessAccepted(t, p, request);
    }
  }

  lemma SomeConsent(t: Tables, grantee: Grantee) returns (consent: Option<Id>)
    ensures AnyConsent(t, grantee, consent)
  {
    if ConsentIds(t, grantee) == {} {
      consent := None;
    } else {
      var c := Element(ConsentIds(t, grantee));
      consent := Some(c);
    }
  }

  /** A rotation is four statements, so whatever every statement keeps, rotation keeps. */
  lemma RotationIsFourStatements(t: Tables, p: Presented, request: Request, t': Tables) returns (consent: Option<Id>)
    requires Inv(t) && Outcomes(t, p, request, Rotated, t')
    ensures t' == Next(Next(Next(Next(t, Revoke(p.token)), BumpGeneration(p.family)),
                            InsertRefresh(request.nextRefresh, NextRefresh(t, p), consent)),
                       InsertAccess(request.nextAccess, NextAccess(t, p, request)))
  {
    hide Inv, ScopesAllowed, StillGranted, CanInsertRefresh, CanInsertAccess, AnyConsent;
    consent := SomeConsent(Consumed(t, p), NewGrantee(NextRefresh(t, p)));
    assert Next(Next(t, Revoke(p.token)), BumpGeneration(p.family)) == Consumed(t, p);
    assert Next(Consumed(t, p), InsertRefresh(request.nextRefresh, NextRefresh(t, p), consent)) ==
           RefreshInserted(Consumed(t, p), request.nextRefresh, NextRefresh(t, p), None);
  }

  /** Whatever a presentation leads to, the tables stay consistent. */
  lemma RotationKeepsInv(t: Tables, p: Presented, request: Request, outcome: Outcome, t': Tables)
    requires Inv(t) && Outcomes(t, p, request, outcome, t')
    ensures Inv(t')
  {
    if outcome == Rotated {
      var consent := RotationIsFourStatements(t, p, request, t');
      hide *;
      var t1 := Next(t, Revoke(p.token));
      StepKeepsInv(t, Revoke(p.token));
      var t2 := Next(t1, BumpGeneration(p.family));
      StepKeepsInv(t1, BumpGeneration(p.family));
      var t3 := Next(t2, InsertRefresh(request.nextRefresh, NextRefresh(t, p), consent));
      StepKeepsInv(t2, InsertRefresh(request.nextRefresh, NextRefresh(t, p), consent));
      StepKeepsInv(t3, InsertAccess(request.nextAccess, NextAccess(t, p, request)));
    } else {
      hide Inv, Passes, ScopesAllowed, CanInsertRefresh, CanInsertAccess, RefreshInserted, AfterRotation;
      DeleteFamiliesKeepsInv(t, {p.family});
    }
  }

  /**
   * Rotation supersedes the presented token with one of the same owner, scopes and family, good as long as the family,
   * issues an access token of that owner for the scopes asked for, or for all of them, and changes no other row.
   */
  lemma RotationMovesOn(t: Tables, p: Presented, request: Request, t': Tables)
    requires Inv(t) && Outcomes(t, p, request, Rotated, t')
    ensures p.token in t.refreshes && p.family in t.families
    ensures Superseded(t', p.token) && t'.refreshes[p.token] == t.refreshes[p.token].(revoked := true)
    ensures var f := t.families[p.family];
            p.family in t'.families && t'.families[p.family] == f.(currentGeneration := f.currentGeneration + 1)
    ensures t'.refreshes.Keys == t.refreshes.Keys + {request.nextRefresh} && t'.accesses.Keys == t.accesses.Keys + {request.nextAccess}
    ensures request.nextRefresh !in t.refreshes && request.nextAccess !in t.accesses
    ensures var was, next := t.refreshes[p.token], t'.refreshes[request.nextRefresh];
            && (next.client, next.user, next.session, next.reference) == (was.client, was.user, was.session, was.reference)
            && next.family == p.family && next.generation == t.families[p.family].currentGeneration + 1 && !next.revoked
            && next.scopes == was.scopes && next.expiresAt == t.families[p.family].expiresAt
    ensures var was, access := t.refreshes[p.token], t'.accesses[request.nextAccess];
            && access.client == was.client && access.user == Some(was.user) && access.session == was.session
            && access.reference == was.reference && access.refresh == Some(request.nextRefresh)
            && access.scopes == (match request.requested case Some(scopes) => scopes case None => was.scopes)
            && Within(access.scopes, was.scopes)
            && access.expiresAt == request.now + ACCESS_TOKEN_TTL
            && access.expiresAt < t.families[p.family].expiresAt + ACCESS_TOKEN_TTL
    ensures forall r :: r in t.refreshes && r != p.token ==> t'.refreshes[r] == t.refreshes[r]
    ensures t'.families.Keys == t.families.Keys && forall f :: f in t.families && f != p.family ==> t'.families[f] == t.families[f]
    ensures forall a :: a in t.accesses ==> t'.accesses[a] == t.accesses[a]
    ensures t'.clients == t.clients && t'.consents == t.consents
  {
    hide Inv, StillGranted, HasActiveConsent, MatchesFamily;
  }

  // ----- how long what is issued lasts -----

  /** The family an access token descends from, through the refresh token it was issued with. */
  function FamilyOfAccess(t: Tables, a: Id): Option<Family> {
    if a in t.accesses && t.accesses[a].refresh.Some? && t.accesses[a].refresh.value in t.refreshes
       && t.refreshes[t.accesses[a].refresh.value].family in t.families
    then Some(t.families[t.refreshes[t.accesses[a].refresh.value].family])
    else None
  }

  /** Access token `a` is good until `until`, and its family until `end`. */
  predicate Lasts(t: Tables, a: Id, until: Time, end: Time) {
    && a in t.accesses && t.accesses[a].expiresAt == until
    && FamilyOfAccess(t, a).Some? && FamilyOfAccess(t, a).value.expiresAt == end
  }

  /**
   * An access token a rotation issues ends with its family exactly when the family had a whole lifetime of one left;
   * otherwise it outlives the family, by less than that lifetime.
   */
  lemma IssuedWithinFamily(t: Tables, p: Presented, request: Request, t': Tables)
    requires Inv(t) && Outcomes(t, p, request, Rotated, t')
    ensures Lasts(t', request.nextAccess, request.now + ACCESS_TOKEN_TTL, t.families[p.family].expiresAt)
    ensures (t'.accesses[request.nextAccess].expiresAt <= FamilyOfAccess(t', request.nextAccess).value.expiresAt)
            <==> request.now + ACCESS_TOKEN_TTL <= t.families[p.family].expiresAt
    ensures t'.accesses[request.nextAccess].expiresAt < FamilyOfAccess(t', request.nextAccess).value.expiresAt + ACCESS_TOKEN_TTL
  {
    hide Inv, StillGranted, HasActiveConsent, MatchesFamily;
  }

  /** While its row exists an access token keeps its end and its family's. */
  lemma LastsStep(t: Tables, step: Step, a: Id, until: Time, end: Time)
    requires Inv(t) && Lasts(t, a, until, end) && a in Next(t, step).accesses
    ensures Lasts(Next(t, step), a, until, end)
  {
    hide Next, RefreshOk, FamilyOk, AccessOk, OneTokenPerGeneration;
    StepKeepsInv(t, step);
    StepKeepsRows(t, step);
  }

  /** However the tables go on, the token a rotation issued overruns its family by as much as at its issue, or not at all. */
  lemma {:induction false} OverrunIsBounded(t: Tables, p: Presented, request: Request, states: seq<Tables>, steps: seq<Step>, j: nat, k: nat)
    requires Trace(states, steps) && j <= k < |states| && Inv(t) && Outcomes(t, p, request, Rotated, states[j])
    requires forall i :: j <= i <= k ==> request.nextAccess in states[i].accesses
    ensures Lasts(states[k], request.nextAccess, request.now + ACCESS_TOKEN_TTL, t.families[p.family].expiresAt)
    ensures var end := t.families[p.family].expiresAt;
            request.now < end && states[k].accesses[request.nextAccess].expiresAt < end + ACCESS_TOKEN_TTL
    decreases k
  {
    hide Inv, Next, Lasts, Outcomes;
    IssuedWithinFamily(t, p, request, states[j]);
    RotatedBeforeTheEnd(t, p, request, states[j]);
    if j < k {
      OverrunIsBounded(t, p, request, states, steps, j, k - 1);
      TraceKeepsInv(states, steps, k - 1);
      assert states[k - 1 + 1] == Next(states[k - 1], steps[k - 1]);
      LastsStep(states[k - 1], steps[k - 1], request.nextAccess, request.now + ACCESS_TOKEN_TTL, t.families[p.family].expiresAt);
    }
    assert Lasts(states[k], request.nextAccess, request.now + ACCESS_TOKEN_TTL, t.families[p.family].expiresAt);
    LastsUntil(states[k], request.nextAccess, request.now + ACCESS_TOKEN_TTL, t.families[p.family].expiresAt);
  }

  lemma LastsUntil(t: Tables, a: Id, until: Time, end: Time)
    requires Lasts(t, a, until, end)
    ensures a in t.accesses && t.accesses[a].expiresAt == until
  {
  }

  lemma RotatedBeforeTheEnd(t: Tables, p: Presented, request: Request, t': Tables)
    requires Outcomes(t, p, request, Rotated, t')
    ensures p.family in t.families && request.now < t.families[p.family].expiresAt
  {
    hide StillGranted, AfterRotation, CanInsertRefresh, CanInsertAccess;
  }

  const EMPTY: Tables := Tables(map[], map[], map[], map[], map[])

  /** A client that skips consent has just founded a family, which ends at time 1. */
  const FOUNDED: Tables :=
    Tables(map[Id(0) := true], map[], map[Id(0) := Family(Id(0), None, Id(0), None, None, 0, 1)],
           map[Id(0) := Refresh(Id(0), None, Id(0), None, Id(0), 0, [], 1, false)], map[])

  function Founding(): seq<Step> {
    [InsertClient(Id(0), true), InsertRefresh(Id(0), NewRefresh(Id(0), None, Id(0), None, None, None, [], 1), None)]
  }

  lemma FoundedByStatements()
    ensures Trace([EMPTY, EMPTY.(clients := map[Id(0) := true]), FOUNDED], Founding())
  {
    var t1 := EMPTY.(clients := map[Id(0) := true]);
    assert t1 == Next(EMPTY, Founding()[0]);
    var grantee := Grantee(Id(0), Some(Id(0)), None);
    assert SkipsConsent(t1, Id(0)) && ConsentIds(t1, grantee) == {} && Accepts(t1, Founding()[1]);
    assert FOUNDED == Next(t1, Founding()[1]);
    hide Next;
  }

  lemma RotatesAtTheStart(p: Presented, request: Request)
    requires p == Presented(Id(0), Id(0), Id(0), None) && request == Request(None, None, true, 0, Id(1), Id(0)) && Inv(FOUNDED)
    ensures Outcomes(FOUNDED, p, request, Rotated, AfterRotation(FOUNDED, p, request))
  {
    assert Passes(FOUNDED, p, request) && ScopesAllowed(FOUNDED.refreshes[p.token].scopes, request);
    NextRefreshAccepted(FOUNDED, p, request);
    NextAccessAccepted(FOUNDED, p, request);
    hide Inv, Passes, ScopesAllowed, CanInsertRefresh, CanInsertAccess, RefreshInserted, AfterRotation;
  }

  /** A login near its end: two statements on empty tables, and a rotation whose access token outlives the family. */
  lemma TokenOutlivesItsFamily() returns (states: seq<Tables>, steps: seq<Step>, p: Presented, request: Request, t': Tables)
    ensures Trace(states, steps) && Outcomes(states[|steps|], p, request, Rotated, t')
    ensures request.nextAccess in t'.accesses && FamilyOfAccess(t', request.nextAccess).Some?
    ensures t'.accesses[request.nextAccess].expiresAt > FamilyOfAccess(t', request.nextAccess).value.expiresAt
  {
    states, steps := [EMPTY, EMPTY.(clients := map[Id(0) := true]), FOUNDED], Founding();
    FoundedByStatements();
    TraceKeepsInv(states, steps, 2);
    p, request := Presented(Id(0), Id(0), Id(0), None), Request(None, None, true, 0, Id(1), Id(0));
    RotatesAtTheStart(p, request);
    hide Trace, Inv, Outcomes, AfterRotation, FamilyOfAccess;
    t' := AfterRotation(FOUNDED, p, request);
    IssuedWithinFamily(FOUNDED, p, request, t');
    assert p.family in FOUNDED.families && FOUNDED.families[p.family].expiresAt == 1;
  }

  /** Everything descended from one family is gone, and everything else is as it was. */
  ghost predicate LoginEnded(t: Tables, family: Id, t': Tables) {
    && family !in t'.families && t'.clients == t.clients && t'.consents == t.consents
    && (forall f :: f in t'.families ==> f in t.families)
    && (forall r :: r in t'.refreshes ==> r in t.refreshes)
    && (forall r :: r in t'.refreshes ==> t'.refreshes[r].family != family)
    && (forall r :: r in t.refreshes && t.refreshes[r].family != family ==> r in t'.refreshes && t'.refreshes[r] == t.refreshes[r])
    && (forall a :: a in t.accesses ==>
          (a !in t'.accesses <==> exists r :: r in t.refreshes && t.refreshes[r].family == family && t.accesses[a].refresh == Some(r)))
    && (forall a :: a in t'.accesses ==> a in t.accesses && t'.accesses[a] == t.accesses[a])
    && (forall f :: f in t.families && f != family ==> f in t'.families && t'.families[f] == t.families[f])
  }

  lemma DeletingAFamilyEndsTheLogin(t: Tables, family: Id)
    ensures LoginEnded(t, family, DeleteFamilies(t, {family}))
  {
    var t' := DeleteFamilies(t, {family});
    forall a | a in t.accesses
      ensures a !in t'.accesses <==> exists r :: r in t.refreshes && t.refreshes[r].family == family && t.accesses[a].refresh == Some(r)
    {
      if a !in t'.accesses {
        var r := t.accesses[a].refresh.value;
        assert r in t.refreshes && t.refreshes[r].family == family && t.accesses[a].refresh == Some(r);
      }
    }
  }

  /** Replay is fail-closed: presenting a token its family has moved past, or one already used, ends that login and no other. */
  lemma ReplayEndsTheLogin(t: Tables, p: Presented, request: Request, outcome: Outcome, t': Tables)
    requires Outcomes(t, p, request, outcome, t') && Reaches(t, p)
    requires p.token in t.refreshes && t.refreshes[p.token].family == p.family
    requires Superseded(t, p.token) || t.refreshes[p.token].revoked
    ensures outcome == FamilyEnded && LoginEnded(t, p.family, t')
  {
    hide LoginEnded, DeleteFamilies, StillGranted, ScopesAllowed;
    DeletingAFamilyEndsTheLogin(t, p.family);
  }

  /** No run redeems a refresh token twice: once superseded, every later presentation that reaches its family ends it. */
  lemma RedeemedAtMostOnce(states: seq<Tables>, steps: seq<Step>, j: nat, k: nat, p: Presented, request: Request, outcome: Outcome, t': Tables)
    requires Trace(states, steps) && j <= k < |states| && Superseded(states[j], p.token)
    requires forall i :: j <= i <= k ==> p.token in states[i].refreshes
    requires Outcomes(states[k], p, request, outcome, t')
    ensures outcome != Rotated
    ensures Reaches(states[k], p) && states[k].refreshes[p.token].family == p.family ==> LoginEnded(states[k], p.family, t')
  {
    SupersededStaysSuperseded(states, steps, j, k, p.token);
    hide Trace, LoginEnded;
    var t := states[k];
    if Reaches(t, p) && t.refreshes[p.token].family == p.family {
      ReplayEndsTheLogin(t, p, request, outcome, t');
    }
  }
}
