/** The OAuth provider's tables and what each statement, with its triggers and cascades, does to them. */
module OAuthTables {
  import opened Wrappers

  datatype Id = Id(n: int)
  type Scope = int
  /** In milliseconds. */
  type Time = int

  /** The client, user and reference a grant is for; nulls compare equal. */
  datatype Grantee = Grantee(client: Id, user: Option<Id>, reference: Option<Id>)

  datatype Consent = Consent(grantee: Grantee, scopes: seq<Scope>)

  datatype Family = Family(client: Id, session: Option<Id>, user: Id, reference: Option<Id>, consent: Option<Id>,
                           currentGeneration: int, expiresAt: Time)

  datatype Refresh = Refresh(client: Id, session: Option<Id>, user: Id, reference: Option<Id>, family: Id, generation: int,
                             scopes: seq<Scope>, expiresAt: Time, revoked: bool)

  /** A refresh token as inserted: the family may be absent, and with it the generation. */
  datatype NewRefresh = NewRefresh(client: Id, session: Option<Id>, user: Id, reference: Option<Id>, family: Option<Id>,
                                   generation: Option<int>, scopes: seq<Scope>, expiresAt: Time)

  datatype Access = Access(client: Id, session: Option<Id>, user: Option<Id>, reference: Option<Id>, refresh: Option<Id>,
                           scopes: seq<Scope>, expiresAt: Time)

  /** `clients` maps each client to whether it skips consent. */
  datatype Tables = Tables(clients: map<Id, bool>, consents: map<Id, Consent>, families: map<Id, Family>,
                           refreshes: map<Id, Refresh>, accesses: map<Id, Access>)

  datatype Error = ForeignKeyViolation | UniqueViolation | CheckViolation

  const MAX_GENERATION: int := 1000

  /** SQL array containment: every element of `a` occurs in `b`. */
  predicate Within(a: seq<Scope>, b: seq<Scope>) {
    forall k :: 0 <= k < |a| ==> a[k] in b
  }

  function GranteeOf(f: Family): Grantee {
    Grantee(f.client, Some(f.user), f.reference)
  }

  function AccessGrantee(a: Access): Grantee {
    Grantee(a.client, a.user, a.reference)
  }

  predicate SkipsConsent(t: Tables, client: Id) {
    client in t.clients && t.clients[client]
  }

  // ----- deletions and their cascades -----

  /** Deletes refresh tokens, and the access tokens issued from them. */
  function DeleteRefreshes(t: Tables, gone: set<Id>): Tables {
    t.(refreshes := t.refreshes - gone,
       accesses := map a | a in t.accesses && !(t.accesses[a].refresh.Some? && t.accesses[a].refresh.value in gone) :: t.accesses[a])
  }

  function MembersOf(t: Tables, families: set<Id>): set<Id> {
    set r | r in t.refreshes && t.refreshes[r].family in families
  }

  /** Deletes families, with every token that descends from them. */
  function DeleteFamilies(t: Tables, gone: set<Id>): Tables {
    DeleteRefreshes(t, MembersOf(t, gone)).(families := t.families - gone)
  }

  function DeleteAccessesOf(t: Tables, gone: set<Id>): Tables {
    t.(accesses := t.accesses - gone)
  }

  function FamiliesUnder(t: Tables, consents: set<Id>): set<Id> {
    set f | f in t.families && t.families[f].consent.Some? && t.families[f].consent.value in consents
  }

  function AccessesFor(t: Tables, grantee: Grantee): set<Id> {
    set a | a in t.accesses && AccessGrantee(t.accesses[a]) == grantee
  }

  // ----- statements -----

  /** The consent recorded for a grantee, if any. */
  function ConsentIds(t: Tables, grantee: Grantee): set<Id> {
    set c | c in t.consents && t.consents[c].grantee == grantee
  }

  /** The consent trigger on tokens: the client skips consent, or the grantee's consent covers the scopes. */
  predicate HasActiveConsent(t: Tables, grantee: Grantee, scopes: seq<Scope>) {
    SkipsConsent(t, grantee.client) || exists c :: c in t.consents && t.consents[c].grantee == grantee && Within(scopes, t.consents[c].scopes)
  }

  /** The family a token must join: same owner, its generation current, and not outliving it. */
  predicate MatchesFamily(t: Tables, new_: NewRefresh) {
    && new_.family.Some? && new_.family.value in t.families
    && var f := t.families[new_.family.value];
       && f.client == new_.client && f.user == new_.user && f.session == new_.session && f.reference == new_.reference
       && new_.generation == Some(f.currentGeneration) && new_.expiresAt <= f.expiresAt
  }

  ghost predicate AnyConsent(t: Tables, grantee: Grantee, c: Option<Id>) {
    match c
    case None => ConsentIds(t, grantee) == {}
    case Some(id) => id in ConsentIds(t, grantee)
  }

  /** The row and the family a refresh token gets; `consent` is the grantee's, if there is one. */
  function Prepared(id: Id, new_: NewRefresh, consent: Option<Id>): (Refresh, Option<Family>) {
    if new_.family.None? then
      (Refresh(new_.client, new_.session, new_.user, new_.reference, id, 0, new_.scopes, new_.expiresAt, false),
       Some(Family(new_.client, new_.session, new_.user, new_.reference, consent, 0, new_.expiresAt)))
    else
      (Refresh(new_.client, new_.session, new_.user, new_.reference, new_.family.value,
               if new_.generation.Some? then new_.generation.value else 0, new_.scopes, new_.expiresAt, false), None)
  }

  /** Whether a refresh token can be inserted, by both triggers and every constraint. */
  predicate CanInsertRefresh(t: Tables, id: Id, new_: NewRefresh) {
    && new_.client in t.clients && id !in t.refreshes
    && (if new_.family.None? then id !in t.families else
          MatchesFamily(t, new_) && 0 <= new_.generation.value <= MAX_GENERATION
          && forall r :: r in t.refreshes ==> !(t.refreshes[r].family == new_.family.value && t.refreshes[r].generation == new_.generation.value))
    && (new_.family.None? ==> forall r :: r in t.refreshes ==> !(t.refreshes[r].family == id && t.refreshes[r].generation == 0))
    && HasActiveConsent(t, Grantee(new_.client, Some(new_.user), new_.reference), new_.scopes)
  }

  function RefreshInserted(t: Tables, id: Id, new_: NewRefresh, consent: Option<Id>): Tables {
    var (row, family) := Prepared(id, new_, consent);
    t.(families := if family.Some? then t.families[id := family.value] else t.families, refreshes := t.refreshes[id := row])
  }

  predicate CanInsertAccess(t: Tables, id: Id, a: Access) {
    && a.client in t.clients && id !in t.accesses
    && (a.refresh.Some? ==> a.refresh.value in t.refreshes)
    && HasActiveConsent(t, AccessGrantee(a), a.scopes)
  }

  /** The families a narrowed consent no longer covers: those whose current token holds a scope it lost. */
  function UncoveredFamilies(t: Tables, c: Id, scopes: seq<Scope>): set<Id> {
    set r | r in t.refreshes && t.refreshes[r].family in FamiliesUnder(t, {c}) &&
            t.refreshes[r].generation == t.families[t.refreshes[r].family].currentGeneration &&
            !Within(t.refreshes[r].scopes, scopes) :: t.refreshes[r].family
  }

  function UncoveredAccesses(t: Tables, grantee: Grantee, scopes: seq<Scope>): set<Id> {
    set a | a in AccessesFor(t, grantee) && !Within(t.accesses[a].scopes, scopes)
  }

  /** What the narrowing trigger leaves of the tokens issued under a consent. */
  function Narrowed(t: Tables, c: Id): Tables
    requires c in t.consents
  {
    var t1 := DeleteFamilies(t, UncoveredFamilies(t, c, t.consents[c].scopes));
    DeleteAccessesOf(t1, UncoveredAccesses(t1, t.consents[c].grantee, t.consents[c].scopes))
  }

  /** An update of a consent's scopes, with the trigger that narrows what was issued under it. */
  function ScopesUpdated(t: Tables, c: Id, scopes: seq<Scope>): Tables
    requires c in t.consents
  {
    var t1 := t.(consents := t.consents[c := t.consents[c].(scopes := scopes)]);
    if scopes == t.consents[c].scopes then t1 else Narrowed(t1, c)
  }

  /** Deleting one consent ends exactly its grantee's access tokens. */
  lemma OneGranteesAccesses(t: Tables, c: Id, t1: Tables)
    requires c in t.consents && t1 == DeleteFamilies(t.(consents := t.consents - {c}), FamiliesUnder(t, {c}))
    ensures DeleteAccessesOf(t1, AccessesFor(t1, t.consents[c].grantee)) == DeleteConsents(t, {c})
  {
    hide DeleteFamilies, FamiliesUnder;
    SameSet(AccessesFor(t1, t.consents[c].grantee),
            set a | a in t1.accesses && exists d :: d in {c} && d in t.consents && t.consents[d].grantee == AccessGrantee(t1.accesses[a]));
  }

  /** Deletion of consents: their families go with them, and every access token of their grantees. */
  function DeleteConsents(t: Tables, gone: set<Id>): Tables {
    var t1 := DeleteFamilies(t.(consents := t.consents - gone), FamiliesUnder(t, gone));
    DeleteAccessesOf(t1, set a | a in t1.accesses && exists c :: c in gone && c in t.consents && t.consents[c].grantee == AccessGrantee(t1.accesses[a]))
  }

  /** A user's deletion cascades to everything granted to or issued for them. */
  function UserDeleted(t: Tables, user: Id): Tables {
    var t1 := DeleteConsents(t, set c | c in t.consents && t.consents[c].grantee.user == Some(user));
    var t2 := DeleteFamilies(t1, set f | f in t1.families && t1.families[f].user == user);
    var t3 := DeleteRefreshes(t2, set r | r in t2.refreshes && t2.refreshes[r].user == user);
    DeleteAccessesOf(t3, set a | a in t3.accesses && t3.accesses[a].user == Some(user))
  }

  /** A session's deletion nulls it wherever it is recorded. */
  function SessionDeleted(t: Tables, session: Id): Tables {
    var forget := (s: Option<Id>) => if s == Some(session) then None else s;
    t.(families := map f | f in t.families :: t.families[f].(session := forget(t.families[f].session)),
       refreshes := map r | r in t.refreshes :: t.refreshes[r].(session := forget(t.refreshes[r].session)),
       accesses := map a | a in t.accesses :: t.accesses[a].(session := forget(t.accesses[a].session)))
  }

  // ----- steps -----

  datatype Step =
    | InsertClient(id: Id, skipConsent: bool)
    | InsertConsent(id: Id, consent: Consent)
    | UpdateScopes(id: Id, scopes: seq<Scope>)
    | DeleteConsent(id: Id)
    | InsertRefresh(id: Id, newRefresh: NewRefresh, consentId: Option<Id>)
    | InsertAccess(id: Id, access: Access)
    | BumpGeneration(id: Id)
    | Revoke(id: Id)
    | DeleteFamily(id: Id)
    | DeleteRefresh(id: Id)
    | DeleteAccess(id: Id)
    | DeleteSession(id: Id)
    | DeleteUser(id: Id)

  /** Whether the database accepts a statement. A refused one leaves the tables as they were. */
  ghost predicate Accepts(t: Tables, step: Step) {
    match step
    case InsertClient(id, _) => id !in t.clients
    case InsertConsent(id, consent) => id !in t.consents && consent.grantee.client in t.clients && ConsentIds(t, consent.grantee) == {}
    case UpdateScopes(id, _) => id in t.consents
    case DeleteConsent(id) => id in t.consents
    case InsertRefresh(id, new_, consent) =>
      CanInsertRefresh(t, id, new_) && AnyConsent(t, Grantee(new_.client, Some(new_.user), new_.reference), consent)
    case InsertAccess(id, a) => CanInsertAccess(t, id, a)
    case BumpGeneration(id) => id in t.families && t.families[id].currentGeneration < MAX_GENERATION
    case Revoke(id) => id in t.refreshes
    case DeleteFamily(_) => true
    case DeleteRefresh(_) => true
    case DeleteAccess(_) => true
    case DeleteSession(_) => true
    case DeleteUser(_) => true
  }

  ghost function Next(t: Tables, step: Step): Tables {
    if !Accepts(t, step) then t
    else match step
      case InsertClient(id, skip) => t.(clients := t.clients[id := skip])
      case InsertConsent(id, consent) => t.(consents := t.consents[id := consent])
      case UpdateScopes(id, scopes) => ScopesUpdated(t, id, scopes)
      case DeleteConsent(id) => DeleteConsents(t, {id})
      case InsertRefresh(id, new_, consent) => RefreshInserted(t, id, new_, consent)
      case InsertAccess(id, a) => t.(accesses := t.accesses[id := a])
      case BumpGeneration(id) =>
        t.(families := t.families[id := t.families[id].(currentGeneration := t.families[id].currentGeneration + 1)])
      case Revoke(id) => t.(refreshes := t.refreshes[id := t.refreshes[id].(revoked := true)])
      case DeleteFamily(id) => DeleteFamilies(t, {id})
      case DeleteRefresh(id) => DeleteRefreshes(t, {id})
      case DeleteAccess(id) => DeleteAccessesOf(t, {id})
      case DeleteSession(id) => SessionDeleted(t, id)
      case DeleteUser(id) => UserDeleted(t, id)
  }
}
