/** The workspace-sharing documents of organization accounts: the validator's loops, and exactly what they accept. */
module OrganizationPolicies {
  import opened Wrappers
  import opened PolicyDocuments

  const WORKSPACE_SID := "WorkspaceCredentialAccess"
  const CREDENTIAL_TYPE := "credential_group:CredentialType"
  const STATEMENT_LIMIT: nat := 128
  const WORKSPACE_LIMIT: nat := 1000

  /** What one statement grants: some workspaces, for one credential type or for all. */
  datatype Grant = Grant(credentialType: Option<string>, workspaces: seq<string>)

  // ----- grants as documents -----

  predicate IsTypeName(s: string) {
    s != "" && 'a' <= s[0] <= 'z' && forall k :: 0 <= k < |s| ==> 'a' <= s[k] <= 'z' || '0' <= s[k] <= '9' || s[k] == '-'
  }

  /** A credential type: a known family, a colon, and a name. */
  predicate IsCredentialType(s: string) {
    || ("oauth:" <= s && IsTypeName(s[|"oauth:"|..]))
    || ("mcp:" <= s && IsTypeName(s[|"mcp:"|..]))
    || ("personal_token:" <= s && IsTypeName(s[|"personal_token:"|..]))
  }

  function SidOf(credentialType: Option<string>): string {
    if credentialType.Some? then WORKSPACE_SID + ":" + credentialType.value else WORKSPACE_SID
  }

  function WorkspacePrincipal(id: string): Json {
    Obj(map["type" := Str("workspace"), "workspaceId" := Str(id)])
  }

  function WorkspacePrincipals(ids: seq<string>): (r: seq<Json>)
    ensures |r| == |ids|
  {
    if ids == [] then [] else WorkspacePrincipals(ids[..|ids| - 1]) + [WorkspacePrincipal(ids[|ids| - 1])]
  }

  /** A workspace statement for a credential type, or for all of them. */
  function Headed(credentialType: Option<string>, principals: Json): Json {
    if credentialType.Some? then
      UseStatement(SidOf(credentialType), principals, Condition("StringEquals", CREDENTIAL_TYPE, Str(credentialType.value)))
    else
      Obj(map["sid" := Str(WORKSPACE_SID), "effect" := Str("allow"), "actions" := Arr([Str(CREDENTIAL_USE_ACTION)]),
              "principals" := principals])
  }

  function GrantStatement(g: Grant): Json {
    Headed(g.credentialType, Arr(WorkspacePrincipals(g.workspaces)))
  }

  /** Workspaces are canonical ids, each after the one before; the first is after the empty string. */
  predicate AscendingIds(ids: seq<string>) {
    ids == [] || (AscendingIds(ids[..|ids| - 1]) && IsCanonicalId(ids[|ids| - 1]) && Less(Previous(ids[..|ids| - 1]), ids[|ids| - 1]))
  }

  function Previous(ids: seq<string>): string {
    if ids == [] then "" else ids[|ids| - 1]
  }

  predicate ValidGrant(g: Grant) {
    && (g.credentialType.Some? ==> IsCanonicalId(g.credentialType.value) && IsCredentialType(g.credentialType.value))
    && 1 <= |g.workspaces| <= WORKSPACE_LIMIT && AscendingIds(g.workspaces)
  }

  function GrantStatements(grants: seq<Grant>): (r: seq<Json>)
    ensures |r| == |grants|
  {
    if grants == [] then [] else GrantStatements(grants[..|grants| - 1]) + [GrantStatement(grants[|grants| - 1])]
  }

  function OrganizationDocument(id: string, grants: seq<Grant>): Json {
    Envelope(id, GrantStatements(grants))
  }

  function Envelope(id: string, statements: seq<Json>): Json {
    Obj(map["version" := Num(2), "resource" := Obj(map["type" := Str("credential_group"), "id" := Str(id)]),
            "statements" := Arr(statements)])
  }

  /** The workspaces granted for all credential types, or for selected ones. */
  function Workspaces(grants: seq<Grant>, selected: bool): set<string> {
    set k, j | 0 <= k < |grants| && grants[k].credentialType.Some? == selected && 0 <= j < |grants[k].workspaces| :: grants[k].workspaces[j]
  }

  /** One grant a credential type, and no workspace granted both all and selected types. */
  ghost predicate IsOrganizationPolicy(value: Json, id: string, grants: seq<Grant>) {
    && IsCanonicalId(id) && value == OrganizationDocument(id, grants) && |grants| <= STATEMENT_LIMIT
    && (forall k :: 0 <= k < |grants| ==> ValidGrant(grants[k]))
    && (forall j, k :: 0 <= j < k < |grants| ==> grants[j].credentialType != grants[k].credentialType)
    && Workspaces(grants, false) * Workspaces(grants, true) == {}
    && |Workspaces(grants, false) + Workspaces(grants, true)| <= WORKSPACE_LIMIT
  }

  // ----- the checks -----

  function CheckEnvelope(value: Json, expected: string): Result<seq<Json>, string> {
    var document :- RequireRecord(Some(value), "Organization account policy");
    var _ :- RequireExactKeys(document, {"version", "resource", "statements"}, "Organization account policy");
    var _ :- Require(Get(document, "version") == Some(Num(2)), "Organization account policy version must be 2");
    var resource :- RequireRecord(Get(document, "resource"), "Organization account resource");
    var _ :- RequireExactKeys(resource, {"type", "id"}, "Organization account resource");
    var _ :- Require(Get(resource, "type") == Some(Str("credential_group")), "resource does not match");
    var id :- RequireCanonicalId(Get(resource, "id"), "Organization account resource ID");
    var _ :- Require(id == expected, "resource does not match");
    var statements := Get(document, "statements");
    var _ :- Require(statements.Some? && statements.value.Arr? && |statements.value.items| <= STATEMENT_LIMIT, "too many statements");
    Ok(statements.value.items)
  }

  function CheckTypeCondition(value: Json): Result<string, string> {
    var condition :- RequireRecord(Some(value), "Credential type condition");
    var _ :- RequireExactKeys(condition, {"StringEquals"}, "Credential type condition");
    var equals :- RequireRecord(Get(condition, "StringEquals"), "Credential type StringEquals");
    var _ :- RequireExactKeys(equals, {CREDENTIAL_TYPE}, "Credential type StringEquals");
    var credentialType :- RequireCanonicalId(Get(equals, CREDENTIAL_TYPE), "Credential type");
    var _ :- Require(IsCredentialType(credentialType), "Invalid credential type");
    Ok(credentialType)
  }

  function CheckWorkspace(value: Json, previous: string): Result<string, string> {
    var principal :- RequireRecord(Some(value), "Organization account workspace principal");
    var _ :- RequireExactKeys(principal, {"type", "workspaceId"}, "Organization account workspace principal");
    var id :- RequireCanonicalId(Get(principal, "workspaceId"), "Organization account workspace ID");
    var _ :- Require(Get(principal, "type") == Some(Str("workspace")) && Less(previous, id), "must be unique and sorted");
    Ok(id)
  }

  function CheckWorkspaces(principals: seq<Json>): Result<seq<string>, string> {
    if principals == [] then Ok([])
    else
      var ids :- CheckWorkspaces(principals[..|principals| - 1]);
      var id :- CheckWorkspace(principals[|principals| - 1], Previous(ids));
      Ok(ids + [id])
  }

  /** Everything about a statement but its principals. */
  function CheckHeader(statement: map<string, Json>): Result<Option<string>, string> {
    var fields := {"sid", "effect", "actions", "principals"} + (if "condition" in statement then {"condition"} else {});
    var _ :- RequireExactKeys(statement, fields, "Organization account workspace statement");
    var credentialType :- if "condition" in statement then TypeOf(CheckTypeCondition(statement["condition"])) else Ok(None);
    var _ :- Require(Get(statement, "sid") == Some(Str(SidOf(credentialType))), "statement is invalid");
    var _ :- Require(Get(statement, "effect") == Some(Str("allow")), "statement is invalid");
    var _ :- Require(Get(statement, "actions") == Some(Arr([Str(CREDENTIAL_USE_ACTION)])), "statement is invalid");
    Ok(credentialType)
  }

  function TypeOf(r: Result<string, string>): Result<Option<string>, string> {
    if r.Ok? then Ok(Some(r.value)) else Err(r.error)
  }

  function CheckGrant(value: Json): Result<Grant, string> {
    var statement :- RequireRecord(Some(value), "Organization account workspace statement");
    var credentialType :- CheckHeader(statement);
    var principals := Get(statement, "principals");
    var _ :- Require(principals.Some? && principals.value.Arr? && 1 <= |principals.value.items| <= WORKSPACE_LIMIT, "supports 1-1000 workspaces");
    var ids :- CheckWorkspaces(principals.value.items);
    Ok(Grant(credentialType, ids))
  }

  // ----- the checks and the documents agree -----

  lemma EnvelopeIs(value: Json, id: string, statements: seq<Json>)
    ensures CheckEnvelope(value, id) == Ok(statements) <==>
            IsCanonicalId(id) && |statements| <= STATEMENT_LIMIT && value == Envelope(id, statements)
  {
    hide IsCanonicalId;
    if CheckEnvelope(value, id).Ok? {
      var document := value.fields;
      assert document == map["version" := document["version"], "resource" := document["resource"], "statements" := document["statements"]];
      var resource := document["resource"].fields;
      assert resource == map["type" := resource["type"], "id" := resource["id"]];
    }
  }

  lemma TypeConditionIs(value: Json, credentialType: string)
    ensures CheckTypeCondition(value) == Ok(credentialType) <==>
            IsCanonicalId(credentialType) && IsCredentialType(credentialType)
            && value == Condition("StringEquals", CREDENTIAL_TYPE, Str(credentialType))
  {
    hide IsCanonicalId, IsCredentialType;
    if CheckTypeCondition(value).Ok? {
      var condition := value.fields;
      assert condition == map["StringEquals" := condition["StringEquals"]];
      var equals := condition["StringEquals"].fields;
      assert equals == map[CREDENTIAL_TYPE := equals[CREDENTIAL_TYPE]];
    }
  }

  lemma WorkspaceIs(value: Json, previous: string, id: string)
    ensures CheckWorkspace(value, previous) == Ok(id) <==> IsCanonicalId(id) && Less(previous, id) && value == WorkspacePrincipal(id)
  {
    hide IsCanonicalId, Less;
    if CheckWorkspace(value, previous).Ok? {
      assert value.fields == map["type" := value.fields["type"], "workspaceId" := value.fields["workspaceId"]];
    }
  }

  lemma {:induction false} WorkspacesAre(principals: seq<Json>, ids: seq<string>)
    ensures CheckWorkspaces(principals) == Ok(ids) <==> AscendingIds(ids) && principals == WorkspacePrincipals(ids)
    decreases |principals| + |ids|
  {
    hide CheckWorkspace, WorkspacePrincipal, IsCanonicalId, Less;
    if principals != [] && ids != [] {
      var p, q := principals[..|principals| - 1], ids[..|ids| - 1];
      var last, id := principals[|principals| - 1], ids[|ids| - 1];
      WorkspacesAre(p, q);
      WorkspaceIs(last, Previous(q), id);
      LastOf(principals, p, last);
      LastOf(ids, q, id);
      if CheckWorkspaces(principals) == Ok(ids) {
        assert CheckWorkspaces(p).value == q by { assert ids == CheckWorkspaces(p).value + [ids[|ids| - 1]]; }
      }
      if principals == WorkspacePrincipals(ids) {
        assert WorkspacePrincipals(ids)[..|ids| - 1] == WorkspacePrincipals(q);
      }
    }
  }

  predicate ValidType(credentialType: Option<string>) {
    credentialType.Some? ==> IsCanonicalId(credentialType.value) && IsCredentialType(credentialType.value)
  }

  lemma HeaderIs(statement: map<string, Json>, credentialType: Option<string>)
    ensures CheckHeader(statement) == Ok(credentialType) ==>
              "principals" in statement && ValidType(credentialType) && Obj(statement) == Headed(credentialType, statement["principals"])
  {
    hide CheckTypeCondition, IsCanonicalId, IsCredentialType, Condition, SidOf;
    if CheckHeader(statement) == Ok(credentialType) {
      if "condition" in statement {
        TypeConditionIs(statement["condition"], credentialType.value);
        assert statement == map["sid" := statement["sid"], "effect" := statement["effect"], "actions" := statement["actions"],
                                "principals" := statement["principals"], "condition" := statement["condition"]];
      } else {
        assert SidOf(None) == WORKSPACE_SID by { SidOfAll(); }
        assert statement == map["sid" := statement["sid"], "effect" := statement["effect"], "actions" := statement["actions"],
                                "principals" := statement["principals"]];
      }
    }
  }

  lemma SidOfAll()
    ensures SidOf(None) == WORKSPACE_SID
  {
  }

  lemma HeaderOf(credentialType: Option<string>, principals: Json)
    requires ValidType(credentialType)
    ensures var statement := Headed(credentialType, principals);
            statement.Obj? && CheckHeader(statement.fields) == Ok(credentialType) && Get(statement.fields, "principals") == Some(principals)
  {
    hide CheckTypeCondition, IsCanonicalId, IsCredentialType, Condition, SidOf;
    var fields := Headed(credentialType, principals).fields;
    if credentialType.Some? {
      TypeConditionIs(Condition("StringEquals", CREDENTIAL_TYPE, Str(credentialType.value)), credentialType.value);
      assert fields.Keys == {"sid", "effect", "actions", "principals", "condition"};
    } else {
      SidOfAll();
      assert fields.Keys == {"sid", "effect", "actions", "principals"};
    }
  }

  lemma GrantIs(value: Json, g: Grant)
    ensures CheckGrant(value) == Ok(g) <==> ValidGrant(g) && value == GrantStatement(g)
  {
    hide CheckHeader, Headed, CheckWorkspaces, WorkspacePrincipals, AscendingIds, IsCanonicalId, IsCredentialType, Get;
    if ValidGrant(g) && value == GrantStatement(g) {
      HeaderOf(g.credentialType, Arr(WorkspacePrincipals(g.workspaces)));
      WorkspacesAre(WorkspacePrincipals(g.workspaces), g.workspaces);
    }
    if CheckGrant(value) == Ok(g) {
      var statement := value.fields;
      HeaderIs(statement, g.credentialType);
      GetIs(statement, "principals");
      WorkspacesAre(Get(statement, "principals").value.items, g.workspaces);
    }
  }

  lemma GetIs(fields: map<string, Json>, key: string)
    ensures Get(fields, key) == if key in fields then Some(fields[key]) else None
  {
  }

  // ----- the loops -----

  /** The loop over a statement's principals. */
  method ReadWorkspaces(principals: seq<Json>) returns (r: Result<seq<string>, string>)
    ensures r == CheckWorkspaces(principals)
  {
    hide CheckWorkspace;
    var ids: seq<string> := [];
    var previous := "";
    for k := 0 to |principals|
      invariant CheckWorkspaces(principals[..k]) == Ok(ids) && previous == Previous(ids)
    {
      assert principals[..k + 1][..k] == principals[..k];
      WorkspacesFail(principals, k + 1);
      var id :- CheckWorkspace(principals[k], previous);
      ids := ids + [id];
      previous := id;
    }
    assert principals[..|principals|] == principals;
    r := Ok(ids);
  }

  lemma {:induction false} WorkspacesFail(principals: seq<Json>, k: nat)
    requires k <= |principals|
    ensures CheckWorkspaces(principals[..k]).Err? ==> CheckWorkspaces(principals) == CheckWorkspaces(principals[..k])
    decreases |principals|
  {
    hide CheckWorkspace;
    if k < |principals| {
      var fewer := principals[..|principals| - 1];
      WorkspacesFail(fewer, k);
      assert fewer[..k] == principals[..k];
    } else {
      assert principals[..k] == principals;
    }
  }

  method ReadGrant(value: Json) returns (r: Result<Grant, string>)
    ensures r == CheckGrant(value)
  {
    hide CheckHeader, CheckWorkspaces;
    var statement :- RequireRecord(Some(value), "Organization account workspace statement");
    var credentialType :- CheckHeader(statement);
    var principals := Get(statement, "principals");
    var _ :- Require(principals.Some? && principals.value.Arr? && 1 <= |principals.value.items| <= WORKSPACE_LIMIT, "supports 1-1000 workspaces");
    var ids :- ReadWorkspaces(principals.value.items);
    r := Ok(Grant(credentialType, ids));
  }

  /** What the loop over statements has read. */
  ghost predicate Read(statements: seq<Json>, k: nat, grants: seq<Grant>, seen: set<string>, all: set<string>, selected: set<string>) {
    && k <= |statements| && |grants| == k
    && (forall j :: 0 <= j < k ==> CheckGrant(statements[j]) == Ok(grants[j]))
    && (forall i, j :: 0 <= i < j < k ==> grants[i].credentialType != grants[j].credentialType)
    && (forall sid :: sid in seen <==> exists j :: 0 <= j < k && SidOf(grants[j].credentialType) == sid)
    && all == Workspaces(grants, false) && selected == Workspaces(grants, true)
  }

  lemma {:induction false} StatementsOf(grants: seq<Grant>, j: nat)
    requires j < |grants|
    ensures GrantStatements(grants)[j] == GrantStatement(grants[j])
    decreases |grants|
  {
    hide GrantStatement;
    if j < |grants| - 1 {
      StatementsOf(grants[..|grants| - 1], j);
    }
  }

  lemma {:induction false} StatementsFrom(statements: seq<Json>, grants: seq<Grant>)
    requires |statements| == |grants| && forall j :: 0 <= j < |grants| ==> statements[j] == GrantStatement(grants[j])
    ensures statements == GrantStatements(grants)
  {
    hide GrantStatement, GrantStatements;
    forall j | 0 <= j < |grants| ensures statements[j] == GrantStatements(grants)[j] {
      StatementsOf(grants, j);
    }
  }

  lemma EnvelopeInjective(id: string, a: seq<Json>, b: seq<Json>)
    requires Envelope(id, a) == Envelope(id, b)
    ensures a == b
  {
    assert Envelope(id, a).fields["statements"] == Arr(a);
    assert Envelope(id, b).fields["statements"] == Arr(b);
  }

  /** A policy's grants are the ones its statements read as. */
  lemma PolicyGrants(value: Json, id: string, statements: seq<Json>, grants: seq<Grant>, j: nat)
    requires IsOrganizationPolicy(value, id, grants) && value == Envelope(id, statements)
    ensures |grants| == |statements|
    ensures j < |statements| ==> CheckGrant(statements[j]) == Ok(grants[j])
  {
    hide ValidGrant, Workspaces, IsCanonicalId, CheckGrant, Envelope, GrantStatements;
    EnvelopeInjective(id, statements, GrantStatements(grants));
    if j < |statements| {
      StatementsOf(grants, j);
      GrantIs(statements[j], grants[j]);
    }
  }

  lemma SidInjective(a: Option<string>, b: Option<string>)
    ensures SidOf(a) == SidOf(b) <==> a == b
  {
    if a.Some? && b.Some? && SidOf(a) == SidOf(b) {
      assert SidOf(a)[|WORKSPACE_SID + ":"|..] == a.value;
      assert SidOf(b)[|WORKSPACE_SID + ":"|..] == b.value;
    }
  }

  lemma WorkspacesGrow(grants: seq<Grant>, g: Grant, selected: bool)
    ensures Workspaces(grants + [g], selected) ==
            if g.credentialType.Some? == selected then Workspaces(grants, selected) + set id | id in g.workspaces else Workspaces(grants, selected)
  {
    var after := grants + [g];
    forall id ensures id in Workspaces(after, selected) <==>
                      id in Workspaces(grants, selected) || (g.credentialType.Some? == selected && id in g.workspaces)
    {
      if id in Workspaces(after, selected) {
        var k, j :| 0 <= k < |after| && after[k].credentialType.Some? == selected && 0 <= j < |after[k].workspaces| && after[k].workspaces[j] == id;
        if k < |grants| { assert grants[k].workspaces[j] in Workspaces(grants, selected); }
      }
      if id in Workspaces(grants, selected) {
        var k, j :| 0 <= k < |grants| && grants[k].credentialType.Some? == selected && 0 <= j < |grants[k].workspaces| && grants[k].workspaces[j] == id;
        assert after[k].workspaces[j] == id;
      }
      if g.credentialType.Some? == selected && id in g.workspaces {
        var j :| 0 <= j < |g.workspaces| && g.workspaces[j] == id;
        assert after[|grants|].workspaces[j] == id;
      }
    }
    SameSet(Workspaces(after, selected),
            if g.credentialType.Some? == selected then Workspaces(grants, selected) + set id | id in g.workspaces else Workspaces(grants, selected));
  }

  lemma ReadMore(statements: seq<Json>, k: nat, grants: seq<Grant>, seen: set<string>, all: set<string>, selected: set<string>, g: Grant)
    requires Read(statements, k, grants, seen, all, selected) && k < |statements| && CheckGrant(statements[k]) == Ok(g)
    requires SidOf(g.credentialType) !in seen
    ensures var ids := set id | id in g.workspaces;
            Read(statements, k + 1, grants + [g], seen + {SidOf(g.credentialType)},
                 if g.credentialType.Some? then all else all + ids, if g.credentialType.Some? then selected + ids else selected)
  {
    hide CheckGrant, SidOf;
    WorkspacesGrow(grants, g, false);
    WorkspacesGrow(grants, g, true);
    hide Workspaces;
    var after := grants + [g];
    forall i | 0 <= i < k ensures grants[i].credentialType != g.credentialType {
      assert SidOf(grants[i].credentialType) in seen;
    }
    forall sid ensures sid in seen + {SidOf(g.credentialType)} <==> exists j :: 0 <= j < k + 1 && SidOf(after[j].credentialType) == sid {
      if sid == SidOf(g.credentialType) { assert SidOf(after[k].credentialType) == sid; }
      if sid in seen {
        var j :| 0 <= j < k && SidOf(grants[j].credentialType) == sid;
        assert SidOf(after[j].credentialType) == sid;
      }
    }
  }

  /** A second statement for a credential type rules the document out. */
  lemma RepeatedType(value: Json, id: string, statements: seq<Json>, k: nat, grants: seq<Grant>, seen: set<string>, all: set<string>,
                     selected: set<string>, g: Grant)
    requires Read(statements, k, grants, seen, all, selected) && k < |statements| && CheckGrant(statements[k]) == Ok(g)
    requires SidOf(g.credentialType) in seen && value == Envelope(id, statements)
    ensures forall policy :: !IsOrganizationPolicy(value, id, policy)
  {
    hide CheckGrant, SidOf, Workspaces, Envelope, ValidGrant, GrantStatements, IsCanonicalId;
    var j :| 0 <= j < k && SidOf(grants[j].credentialType) == SidOf(g.credentialType);
    SidInjective(grants[j].credentialType, g.credentialType);
    forall policy | IsOrganizationPolicy(value, id, policy) ensures false {
      PolicyGrants(value, id, statements, policy, j);
      PolicyGrants(value, id, statements, policy, k);
    }
  }

  lemma ReadAll(value: Json, id: string, statements: seq<Json>, grants: seq<Grant>, seen: set<string>, all: set<string>, selected: set<string>)
    requires Read(statements, |statements|, grants, seen, all, selected) && CheckEnvelope(value, id) == Ok(statements)
    ensures all * selected == {} && |all + selected| <= WORKSPACE_LIMIT <==> exists policy :: IsOrganizationPolicy(value, id, policy)
  {
    hide CheckGrant, SidOf, Workspaces, Envelope, ValidGrant, GrantStatements, GrantStatement, IsCanonicalId, CheckEnvelope;
    EnvelopeIs(value, id, statements);
    forall j | 0 <= j < |grants| ensures ValidGrant(grants[j]) && statements[j] == GrantStatement(grants[j]) {
      GrantIs(statements[j], grants[j]);
    }
    StatementsFrom(statements, grants);
    if all * selected == {} && |all + selected| <= WORKSPACE_LIMIT {
      assert IsOrganizationPolicy(value, id, grants);
    }
    if policy :| IsOrganizationPolicy(value, id, policy) {
      PolicyGrants(value, id, statements, policy, 0);
      forall j | 0 <= j < |grants| ensures policy[j] == grants[j] {
        PolicyGrants(value, id, statements, policy, j);
      }
      assert policy == grants;
    }
  }

  /** Accepts exactly the organization policies. */
  method ValidateOrganizationAccountPolicyDocument(value: Json, expected: string) returns (r: Result<(), string>)
    ensures r.Ok? <==> exists grants :: IsOrganizationPolicy(value, expected, grants)
  {
    hide CheckEnvelope, CheckGrant, Read, IsOrganizationPolicy, Envelope;
    var checked := CheckEnvelope(value, expected);
    if checked.Err? {
      NoEnvelope(value, expected);
      return Err(checked.error);
    }
    var statements := checked.value;
    EnvelopeIs(value, expected, statements);
    var seenStatements: set<string>, allWorkspaces: set<string>, selectedWorkspaces: set<string> := {}, {}, {};
    ghost var grants: seq<Grant> := [];
    NothingRead(statements);
    for k := 0 to |statements|
      invariant Read(statements, k, grants, seenStatements, allWorkspaces, selectedWorkspaces)
    {
      var grant := ReadGrant(statements[k]);
      if grant.Err? {
        NoGrant(value, expected, statements, k);
        return Err(grant.error);
      }
      var g := grant.value;
      var sid := SidOf(g.credentialType);
      if sid in seenStatements {
        RepeatedType(value, expected, statements, k, grants, seenStatements, allWorkspaces, selectedWorkspaces, g);
        return Err("Organization account workspace statement is invalid");
      }
      ReadMore(statements, k, grants, seenStatements, allWorkspaces, selectedWorkspaces, g);
      seenStatements := seenStatements + {sid};
      if g.credentialType.Some? {
        selectedWorkspaces := selectedWorkspaces + set id | id in g.workspaces;
      } else {
        allWorkspaces := allWorkspaces + set id | id in g.workspaces;
      }
      grants := grants + [g];
    }
    ReadAll(value, expected, statements, grants, seenStatements, allWorkspaces, selectedWorkspaces);
    if allWorkspaces * selectedWorkspaces != {} {
      return Err("Workspace has overlapping all and selected grants");
    }
    if |allWorkspaces + selectedWorkspaces| > WORKSPACE_LIMIT {
      return Err("Organization account policy supports at most 1000 workspaces");
    }
    r := Ok(());
  }

  lemma NothingRead(statements: seq<Json>)
    ensures Read(statements, 0, [], {}, {}, {})
  {
    EmptySet(Workspaces([], false));
    EmptySet(Workspaces([], true));
  }

  lemma NoEnvelope(value: Json, id: string)
    requires CheckEnvelope(value, id).Err?
    ensures forall grants :: !IsOrganizationPolicy(value, id, grants)
  {
    hide CheckEnvelope, Envelope, IsCanonicalId, ValidGrant, GrantStatements, Workspaces;
    forall grants ensures !IsOrganizationPolicy(value, id, grants) {
      EnvelopeIs(value, id, GrantStatements(grants));
    }
  }

  lemma NoGrant(value: Json, id: string, statements: seq<Json>, k: nat)
    requires value == Envelope(id, statements) && k < |statements| && CheckGrant(statements[k]).Err?
    ensures forall grants :: !IsOrganizationPolicy(value, id, grants)
  {
    hide CheckGrant, Envelope, IsOrganizationPolicy;
    forall grants | IsOrganizationPolicy(value, id, grants) ensures false {
      PolicyGrants(value, id, statements, grants, k);
    }
  }
}
