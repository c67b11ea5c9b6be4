/** Credential-group policy documents: what is accepted, and the canonical form it is given. */
module PolicyDocuments {
  import opened Wrappers
  import opened Whitespace

  datatype Json = Null | Bool(b: bool) | Num(n: int) | Str(s: string) | Arr(items: seq<Json>) | Obj(fields: map<string, Json>)

  const ACTOR_ACCESS_SID := "CredentialGroupActorCredentialAccess"
  const WORKFLOW_ACCESS_SID := "WorkflowCredentialAccess"
  const KNOWLEDGE_SID_PREFIX := "KnowledgeConnectorCredentialAccess:"
  const CREDENTIAL_USE_ACTION := "credential_groups.credentials.use"
  const ACTOR_OWNS_CREDENTIAL := "credential_group:ActorOwnsCredential"
  const DEPLOYMENT_MODE := "execution:WorkflowMode"
  const WORKFLOW_ACCESS_LIMIT: nat := 50

  /** String order, one character at a time; the empty string comes first. */
  predicate Less(a: string, b: string) {
    b != "" && (a == "" || a[0] < b[0] || (a[0] == b[0] && Less(a[1..], b[1..])))
  }

  predicate IsCanonicalId(s: string) {
    0 < |s| <= 128 && Trim(s) == s
  }

  // ----- requirements -----

  function Get(fields: map<string, Json>, key: string): Option<Json> {
    if key in fields then Some(fields[key]) else None
  }

  function RequireRecord(value: Option<Json>, what: string): (r: Result<map<string, Json>, string>)
    ensures r.Ok? <==> value.Some? && value.value.Obj?
    ensures r.Ok? ==> value == Some(Obj(r.value))
  {
    if value.Some? && value.value.Obj? then Ok(value.value.fields) else Err(what + " must be an object")
  }

  function RequireExactKeys(fields: map<string, Json>, expected: set<string>, what: string): (r: Result<(), string>)
    ensures r.Ok? <==> fields.Keys == expected
  {
    if fields.Keys == expected then Ok(()) else Err(what + " has an invalid shape")
  }

  function RequireCanonicalId(value: Option<Json>, what: string): (r: Result<string, string>)
    ensures r.Ok? <==> value.Some? && value.value.Str? && IsCanonicalId(value.value.s)
    ensures r.Ok? ==> value == Some(Str(r.value))
  {
    if value.Some? && value.value.Str? && IsCanonicalId(value.value.s) then Ok(value.value.s)
    else Err(what + " must be a canonical identifier")
  }

  function Require(condition: bool, message: string): (r: Result<(), string>)
    ensures r.Ok? <==> condition
  {
    if condition then Ok(()) else Err(message)
  }

  // ----- canonical statements -----

  /** A statement that allows using credentials. */
  function UseStatement(sid: string, principals: Json, condition: Json): Json {
    Obj(map["sid" := Str(sid), "effect" := Str("allow"), "actions" := Arr([Str(CREDENTIAL_USE_ACTION)]),
            "principals" := principals, "condition" := condition])
  }

  function Condition(operator: string, key: string, value: Json): Json {
    Obj(map[operator := Obj(map[key := value])])
  }

  function ActorPrincipal(): Json {
    Obj(map["type" := Str("credential_group_actor")])
  }

  function ActorStatement(): Json {
    UseStatement(ACTOR_ACCESS_SID, Arr([ActorPrincipal()]), Condition("Bool", ACTOR_OWNS_CREDENTIAL, Bool(true)))
  }

  function WorkflowPrincipal(id: string): Json {
    Obj(map["type" := Str("workflow"), "workflowId" := Str(id)])
  }

  function WorkflowPrincipals(ids: seq<string>): (r: seq<Json>)
    ensures |r| == |ids|
    ensures forall k :: 0 <= k < |ids| ==> r[k] == WorkflowPrincipal(ids[k])
  {
    if ids == [] then [] else WorkflowPrincipals(ids[..|ids| - 1]) + [WorkflowPrincipal(ids[|ids| - 1])]
  }

  function WorkflowStatement(ids: seq<string>): Json {
    UseStatement(WORKFLOW_ACCESS_SID, Arr(WorkflowPrincipals(ids)), Condition("StringEquals", DEPLOYMENT_MODE, Str("deployment")))
  }

  function Document(id: string, statements: seq<Json>): Json {
    Obj(map["version" := Num(1), "resource" := Obj(map["type" := Str("credential_group"), "id" := Str(id)]),
            "statements" := Arr(statements)])
  }

  function CreateDefault(id: string): Result<Json, string> {
    var canonicalId :- RequireCanonicalId(Some(Str(id)), "Credential Group ID");
    Ok(Document(canonicalId, [ActorStatement()]))
  }

  // ----- parsing -----

  /** A knowledge connector's statement, owned and validated elsewhere. */
  predicate IsKnowledge(statement: Json) {
    statement.Obj? && "sid" in statement.fields && statement.fields["sid"].Str? && KNOWLEDGE_SID_PREFIX <= statement.fields["sid"].s
  }

  /** The group's own statements and the knowledge connectors', each in order. */
  function Split(statements: seq<Json>): Result<(seq<Json>, seq<Json>), string> {
    if statements == [] then Ok(([], []))
    else
      var last := statements[|statements| - 1];
      var (own, knowledge) :- Split(statements[..|statements| - 1]);
      var _ :- RequireRecord(Some(last), "Credential Group statement");
      Ok(if IsKnowledge(last) then (own, knowledge + [last]) else (own + [last], knowledge))
  }

  function CheckUse(statement: map<string, Json>, sid: string, what: string): Result<(), string> {
    var _ :- RequireExactKeys(statement, {"sid", "effect", "actions", "principals", "condition"}, what);
    var _ :- Require(Get(statement, "sid") == Some(Str(sid)), what + " SID must be " + sid);
    var _ :- Require(Get(statement, "effect") == Some(Str("allow")), what + " effect must be allow");
    Require(Get(statement, "actions") == Some(Arr([Str(CREDENTIAL_USE_ACTION)])), what + " action must be " + CREDENTIAL_USE_ACTION)
  }

  /** A condition of one operator, over one key, with one value. */
  function CheckCondition(condition: Option<Json>, operator: string, key: string, value: Json, what: string): Result<(), string> {
    var record :- RequireRecord(condition, what + " condition");
    var _ :- RequireExactKeys(record, {operator}, what + " condition");
    var inner :- RequireRecord(Get(record, operator), what + " operator");
    var _ :- RequireExactKeys(inner, {key}, what + " operator");
    Require(Get(inner, key) == Some(value), what + " condition is not the required one")
  }

  function CheckActorPrincipal(principals: Option<Json>): Result<(), string> {
    var _ :- Require(principals.Some? && principals.value.Arr? && |principals.value.items| == 1, "must contain its actor principal");
    var principal :- RequireRecord(Some(principals.value.items[0]), "Credential Group actor principal");
    var _ :- RequireExactKeys(principal, {"type"}, "Credential Group actor principal");
    Require(Get(principal, "type") == Some(Str("credential_group_actor")), "must target the Credential Group actor")
  }

  function CheckActor(value: Option<Json>): Result<(), string> {
    var statement :- RequireRecord(value, "Credential Group actor statement");
    var _ :- CheckUse(statement, ACTOR_ACCESS_SID, "Credential Group actor statement");
    var _ :- CheckActorPrincipal(Get(statement, "principals"));
    CheckCondition(Get(statement, "condition"), "Bool", ACTOR_OWNS_CREDENTIAL, Bool(true), "Credential Group actor")
  }

  /** One workflow principal's id. */
  function WorkflowId(value: Json): Result<string, string> {
    var principal :- RequireRecord(Some(value), "Credential Group workflow principal");
    var _ :- RequireExactKeys(principal, {"type", "workflowId"}, "Credential Group workflow principal");
    var _ :- Require(Get(principal, "type") == Some(Str("workflow")), "principal must target a workflow");
    RequireCanonicalId(Get(principal, "workflowId"), "Credential Group workflow principal workflow ID")
  }

  function WorkflowIds(principals: seq<Json>): Result<seq<string>, string> {
    if principals == [] then Ok([])
    else
      var ids :- WorkflowIds(principals[..|principals| - 1]);
      var id :- WorkflowId(principals[|principals| - 1]);
      Ok(ids + [id])
  }

  /** Each id comes before the next. */
  predicate IsSorted(ids: seq<string>) {
    forall k :: 1 <= k < |ids| ==> Ascends(ids, k)
  }

  predicate Ascends(ids: seq<string>, k: nat)
    requires 1 <= k < |ids|
  {
    Less(ids[k - 1], ids[k])
  }

  function CheckWorkflowPrincipals(principals: Option<Json>): Result<seq<string>, string> {
    var _ :- Require(principals.Some? && principals.value.Arr? && 0 < |principals.value.items| <= WORKFLOW_ACCESS_LIMIT,
                     "must contain 1-50 principals");
    var ids :- WorkflowIds(principals.value.items);
    var _ :- Require(IsSorted(ids), "Credential Group workflow principals must be unique and sorted");
    Ok(ids)
  }

  /** The workflows a workflow statement grants. */
  function CheckWorkflow(value: Json): Result<seq<string>, string> {
    var statement :- RequireRecord(Some(value), "Credential Group workflow statement");
    var _ :- CheckUse(statement, WORKFLOW_ACCESS_SID, "Credential Group workflow statement");
    var ids :- CheckWorkflowPrincipals(Get(statement, "principals"));
    var _ :- CheckCondition(Get(statement, "condition"), "StringEquals", DEPLOYMENT_MODE, Str("deployment"), "Credential Group workflow");
    Ok(ids)
  }

  /** The checks on everything but the statements, and the statements. */
  function CheckEnvelope(value: Json, expected: string): Result<seq<Json>, string> {
    var canonicalId :- RequireCanonicalId(Some(Str(expected)), "Expected Credential Group ID");
    var document :- RequireRecord(Some(value), "Credential Group policy document");
    var _ :- RequireExactKeys(document, {"version", "resource", "statements"}, "Credential Group policy document");
    var _ :- Require(Get(document, "version") == Some(Num(1)), "Credential Group policy version must be 1");
    var resource :- RequireRecord(Get(document, "resource"), "Credential Group policy resource");
    var _ :- RequireExactKeys(resource, {"type", "id"}, "Credential Group policy resource");
    var _ :- Require(Get(resource, "type") == Some(Str("credential_group")), "resource does not match");
    var id :- RequireCanonicalId(Get(resource, "id"), "Credential Group policy resource ID");
    var _ :- Require(id == canonicalId, "resource does not match");
    var statements := Get(document, "statements");
    var _ :- Require(statements.Some? && statements.value.Arr? && |statements.value.items| >= 1, "must contain its actor statement");
    Ok(statements.value.items)
  }

  /** The group's own statements are an actor statement and at most one more. */
  function CheckOwn(own: seq<Json>): Result<(), string> {
    var _ :- Require(|own| <= 2, "must contain its actor statement and optional workflow statement");
    CheckActor(if |own| > 0 then Some(own[0]) else None)
  }

  lemma OwnCount(own: seq<Json>)
    requires CheckOwn(own).Ok?
    ensures 1 <= |own| <= 2
  {
    ActorIs(if |own| > 0 then Some(own[0]) else None);
  }

  /** The checks on the group's own statements, and the canonical document. */
  function Assembled(own: seq<Json>, knowledge: seq<Json>, id: string): Result<Json, string> {
    var _ :- CheckOwn(own);
    OwnCount(own);
    if |own| == 1 then Ok(Document(id, [ActorStatement()] + knowledge))
    else
      var ids :- CheckWorkflow(own[1]);
      Ok(Document(id, [ActorStatement(), WorkflowStatement(ids)] + knowledge))
  }

  function Parsed(value: Json, expected: string): Result<Json, string> {
    var statements :- CheckEnvelope(value, expected);
    var (own, knowledge) :- Split(statements);
    Assembled(own, knowledge, expected)
  }

  // ----- the loops -----

  /** The loop that sets knowledge statements apart. */
  method SplitStatements(statements: seq<Json>) returns (r: Result<(seq<Json>, seq<Json>), string>)
    ensures r == Split(statements)
  {
    var own: seq<Json>, knowledge: seq<Json> := [], [];
    for k := 0 to |statements|
      invariant Split(statements[..k]) == Ok((own, knowledge))
    {
      assert statements[..k + 1][..k] == statements[..k];
      SplitFails(statements, k + 1);
      if !statements[k].Obj? {
        return Err("Credential Group statement" + " must be an object");
      }
      if IsKnowledge(statements[k]) {
        knowledge := knowledge + [statements[k]];
      } else {
        own := own + [statements[k]];
      }
    }
    assert statements[..|statements|] == statements;
    r := Ok((own, knowledge));
  }

  lemma {:induction false} SplitFails(statements: seq<Json>, k: nat)
    requires k <= |statements|
    ensures Split(statements[..k]).Err? ==> Split(statements) == Split(statements[..k])
    decreases |statements|
  {
    if k < |statements| {
      var fewer := statements[..|statements| - 1];
      SplitFails(fewer, k);
      assert fewer[..k] == statements[..k];
    } else {
      assert statements[..k] == statements;
    }
  }

  /** The loop that finds the first workflow out of order. */
  method CheckSorted(ids: seq<string>) returns (sorted: bool)
    ensures sorted <==> IsSorted(ids)
  {
    var k := 1;
    while k < |ids|
      invariant 1 <= k
      invariant forall j :: 1 <= j < k && j < |ids| ==> Ascends(ids, j)
    {
      if !Less(ids[k - 1], ids[k]) {
        assert !Ascends(ids, k);
        return false;
      }
      assert Ascends(ids, k);
      k := k + 1;
    }
    sorted := true;
  }

  lemma {:induction false} WorkflowIdsFail(principals: seq<Json>, k: nat)
    requires k <= |principals|
    ensures WorkflowIds(principals[..k]).Err? ==> WorkflowIds(principals) == WorkflowIds(principals[..k])
    decreases |principals|
  {
    if k < |principals| {
      var fewer := principals[..|principals| - 1];
      WorkflowIdsFail(fewer, k);
      assert fewer[..k] == principals[..k];
    } else {
      assert principals[..k] == principals;
    }
  }

  /** The loop that reads the workflow principals, up to the first that is not one. */
  method ReadWorkflowIds(principals: seq<Json>) returns (r: Result<seq<string>, string>)
    ensures r == WorkflowIds(principals)
  {
    hide WorkflowId;
    var ids: seq<string> := [];
    for k := 0 to |principals|
      invariant WorkflowIds(principals[..k]) == Ok(ids)
    {
      assert principals[..k + 1][..k] == principals[..k];
      WorkflowIdsFail(principals, k + 1);
      var id :- WorkflowId(principals[k]);
      ids := ids + [id];
    }
    assert principals[..|principals|] == principals;
    r := Ok(ids);
  }

  /** The workflow statement's checks, with the loops over its principals. */
  method ParseWorkflowStatement(value: Json) returns (r: Result<seq<string>, string>)
    ensures r == CheckWorkflow(value)
    ensures forall ids :: r == Ok(ids) <==> ValidIds(ids) && value == WorkflowStatement(ids)
  {
    forall ids ensures CheckWorkflow(value) == Ok(ids) <==> ValidIds(ids) && value == WorkflowStatement(ids) {
      WorkflowIs(value, ids);
    }
    hide CheckUse, CheckCondition, WorkflowIds, IsSorted, WorkflowStatement, ValidIds, Get;
    var statement :- RequireRecord(Some(value), "Credential Group workflow statement");
    var _ :- CheckUse(statement, WORKFLOW_ACCESS_SID, "Credential Group workflow statement");
    var principals := Get(statement, "principals");
    var _ :- Require(principals.Some? && principals.value.Arr? && 0 < |principals.value.items| <= WORKFLOW_ACCESS_LIMIT,
                     "must contain 1-50 principals");
    var ids :- ReadWorkflowIds(principals.value.items);
    var sorted := CheckSorted(ids);
    var _ :- Require(sorted, "Credential Group workflow principals must be unique and sorted");
    var _ :- CheckCondition(Get(statement, "condition"), "StringEquals", DEPLOYMENT_MODE, Str("deployment"), "Credential Group workflow");
    r := Ok(ids);
  }

  // ----- what is accepted -----

  predicate ValidIds(ids: seq<string>) {
    0 < |ids| <= WORKFLOW_ACCESS_LIMIT && IsSorted(ids) && forall k :: 0 <= k < |ids| ==> IsCanonicalId(ids[k])
  }

  function Own(statements: seq<Json>): seq<Json> {
    if statements == [] then []
    else if IsKnowledge(statements[|statements| - 1]) then Own(statements[..|statements| - 1])
    else Own(statements[..|statements| - 1]) + [statements[|statements| - 1]]
  }

  function Knowledge(statements: seq<Json>): seq<Json> {
    if statements == [] then []
    else if IsKnowledge(statements[|statements| - 1]) then Knowledge(statements[..|statements| - 1]) + [statements[|statements| - 1]]
    else Knowledge(statements[..|statements| - 1])
  }

  /** The actor statement, alone or with a workflow statement after it, both exactly as this package writes them. */
  ghost predicate OwnOk(own: seq<Json>) {
    own == [ActorStatement()] || exists ids :: ValidIds(ids) && own == [ActorStatement(), WorkflowStatement(ids)]
  }

  /** An acceptable policy, whatever the place of its knowledge statements. */
  ghost predicate IsPolicy(value: Json, id: string, statements: seq<Json>) {
    && IsCanonicalId(id) && value == Document(id, statements)
    && (forall k :: 0 <= k < |statements| ==> statements[k].Obj?)
    && OwnOk(Own(statements))
  }

  lemma {:induction false} SplitIs(statements: seq<Json>)
    ensures Split(statements).Ok? <==> forall k :: 0 <= k < |statements| ==> statements[k].Obj?
    ensures Split(statements).Ok? ==> Split(statements).value == (Own(statements), Knowledge(statements))
    decreases |statements|
  {
    if statements != [] {
      SplitIs(statements[..|statements| - 1]);
    }
  }

  lemma ConditionIs(condition: Option<Json>, operator: string, key: string, value: Json, what: string)
    ensures CheckCondition(condition, operator, key, value, what).Ok? <==> condition == Some(Condition(operator, key, value))
  {
    if CheckCondition(condition, operator, key, value, what).Ok? {
      var record := condition.value.fields;
      assert record == map[operator := record[operator]];
      var inner := record[operator].fields;
      assert inner == map[key := inner[key]];
    }
  }

  lemma UseIs(statement: map<string, Json>, sid: string, what: string)
    requires CheckUse(statement, sid, what).Ok?
    ensures exists principals, condition ::
              Get(statement, "principals") == Some(principals) && Get(statement, "condition") == Some(condition)
              && Obj(statement) == UseStatement(sid, principals, condition)
  {
    assert statement == map["sid" := statement["sid"], "effect" := statement["effect"], "actions" := statement["actions"],
                            "principals" := statement["principals"], "condition" := statement["condition"]];
    assert Get(statement, "principals") == Some(statement["principals"]);
  }

  lemma UseOf(sid: string, principals: Json, condition: Json, what: string)
    ensures var statement := UseStatement(sid, principals, condition);
            statement.Obj? && CheckUse(statement.fields, sid, what).Ok?
            && Get(statement.fields, "principals") == Some(principals) && Get(statement.fields, "condition") == Some(condition)
  {
    var fields := UseStatement(sid, principals, condition).fields;
    assert fields.Keys == {"sid", "effect", "actions", "principals", "condition"};
  }

  lemma ActorPrincipalIs(principals: Option<Json>)
    ensures CheckActorPrincipal(principals).Ok? <==> principals == Some(Arr([ActorPrincipal()]))
  {
    if CheckActorPrincipal(principals).Ok? {
      var principal := principals.value.items[0].fields;
      assert principal == map["type" := principal["type"]];
      assert principals.value.items == [principals.value.items[0]];
    }
  }

  lemma ActorIs(value: Option<Json>)
    ensures CheckActor(value).Ok? <==> value == Some(ActorStatement())
  {
    hide CheckUse, UseStatement, CheckActorPrincipal, ActorPrincipal, CheckCondition, Condition, Get;
    UseOf(ACTOR_ACCESS_SID, Arr([ActorPrincipal()]), Condition("Bool", ACTOR_OWNS_CREDENTIAL, Bool(true)), "Credential Group actor statement");
    if value.Some? && value.value.Obj? {
      var statement := value.value.fields;
      ActorPrincipalIs(Get(statement, "principals"));
      ConditionIs(Get(statement, "condition"), "Bool", ACTOR_OWNS_CREDENTIAL, Bool(true), "Credential Group actor");
      if CheckActor(value).Ok? { UseIs(statement, ACTOR_ACCESS_SID, "Credential Group actor statement"); }
    }
  }

  lemma WorkflowIdIs(value: Json, id: string)
    ensures WorkflowId(value) == Ok(id) <==> IsCanonicalId(id) && value == WorkflowPrincipal(id)
  {
    hide IsCanonicalId;
    if WorkflowId(value).Ok? {
      assert value.fields == map["type" := value.fields["type"], "workflowId" := value.fields["workflowId"]];
    }
  }

  lemma {:induction false} WorkflowIdsAre(principals: seq<Json>, ids: seq<string>)
    ensures WorkflowIds(principals) == Ok(ids) <==>
            principals == WorkflowPrincipals(ids) && forall k :: 0 <= k < |ids| ==> IsCanonicalId(ids[k])
    decreases |principals| + |ids|
  {
    hide WorkflowId, WorkflowPrincipal, IsCanonicalId;
    if principals != [] && ids != [] {
      var p, q := principals[..|principals| - 1], ids[..|ids| - 1];
      var last, id := principals[|principals| - 1], ids[|ids| - 1];
      WorkflowIdsAre(p, q);
      WorkflowIdIs(last, id);
      LastOf(principals, p, last);
      LastOf(ids, q, id);
      if WorkflowIds(principals) == Ok(ids) {
        assert WorkflowIds(p).value == q by { assert ids == WorkflowIds(p).value + [WorkflowId(last).value]; }
      }
      if principals == WorkflowPrincipals(ids) {
        assert WorkflowPrincipals(ids)[..|ids| - 1] == WorkflowPrincipals(q);
      }
    }
  }

  lemma LastOf<T>(s: seq<T>, front: seq<T>, last: T)
    requires s != [] && front == s[..|s| - 1] && last == s[|s| - 1]
    ensures s == front + [last]
  {
  }

  lemma WorkflowPrincipalsAre(principals: Option<Json>, ids: seq<string>)
    ensures CheckWorkflowPrincipals(principals) == Ok(ids) <==> ValidIds(ids) && principals == Some(Arr(WorkflowPrincipals(ids)))
  {
    hide IsSorted, IsCanonicalId, WorkflowIds;
    if principals.Some? && principals.value.Arr? {
      WorkflowIdsAre(principals.value.items, ids);
    }
  }

  lemma WorkflowIs(value: Json, ids: seq<string>)
    ensures CheckWorkflow(value) == Ok(ids) <==> ValidIds(ids) && value == WorkflowStatement(ids)
  {
    hide CheckUse, UseStatement, CheckWorkflowPrincipals, WorkflowPrincipals, CheckCondition, Condition, Get, ValidIds;
    var condition := Condition("StringEquals", DEPLOYMENT_MODE, Str("deployment"));
    UseOf(WORKFLOW_ACCESS_SID, Arr(WorkflowPrincipals(ids)), condition, "Credential Group workflow statement");
    if value.Obj? {
      var statement := value.fields;
      WorkflowPrincipalsAre(Get(statement, "principals"), ids);
      ConditionIs(Get(statement, "condition"), "StringEquals", DEPLOYMENT_MODE, Str("deployment"), "Credential Group workflow");
      if CheckWorkflow(value).Ok? { UseIs(statement, WORKFLOW_ACCESS_SID, "Credential Group workflow statement"); }
    }
  }

  lemma EnvelopeIs(value: Json, id: string)
    ensures CheckEnvelope(value, id).Ok? ==> IsCanonicalId(id) && value == Document(id, CheckEnvelope(value, id).value)
  {
    hide IsCanonicalId;
    if CheckEnvelope(value, id).Ok? {
      var document := value.fields;
      assert document == map["version" := document["version"], "resource" := document["resource"], "statements" := document["statements"]];
      var resource := document["resource"].fields;
      assert resource == map["type" := resource["type"], "id" := resource["id"]];
    }
  }

  lemma EnvelopeOf(id: string, statements: seq<Json>)
    requires IsCanonicalId(id) && |statements| >= 1
    ensures CheckEnvelope(Document(id, statements), id) == Ok(statements)
  {
    hide IsCanonicalId;
  }

  /** A document is accepted exactly when it is a policy, and then only its knowledge statements move, to the end. */
  lemma AcceptsExactlyPolicies(value: Json, id: string)
    ensures Parsed(value, id).Ok? <==> exists statements :: IsPolicy(value, id, statements)
    ensures forall statements :: IsPolicy(value, id, statements) ==>
              Parsed(value, id) == Ok(Document(id, Own(statements) + Knowledge(statements)))
  {
    if Parsed(value, id).Ok? {
      AcceptedIsPolicy(value, id);
    }
    forall statements | IsPolicy(value, id, statements)
      ensures Parsed(value, id) == Ok(Document(id, Own(statements) + Knowledge(statements)))
    {
      PolicyIsAccepted(value, id, statements);
    }
  }

  lemma AcceptedIsPolicy(value: Json, id: string)
    requires Parsed(value, id).Ok?
    ensures exists statements :: IsPolicy(value, id, statements)
  {
    hide CheckEnvelope, Split, CheckActor, CheckWorkflow, Document, ActorStatement, WorkflowStatement, ValidIds, Own, Knowledge, IsCanonicalId;
    var statements := CheckEnvelope(value, id).value;
    EnvelopeIs(value, id);
    SplitIs(statements);
    var own := Own(statements);
    ActorIs(if |own| > 0 then Some(own[0]) else None);
    if |own| == 2 { WorkflowIs(own[1], CheckWorkflow(own[1]).value); }
    assert OwnOk(own);
    assert IsPolicy(value, id, statements);
  }

  lemma PolicyIsAccepted(value: Json, id: string, statements: seq<Json>)
    requires IsPolicy(value, id, statements)
    ensures Parsed(value, id) == Ok(Document(id, Own(statements) + Knowledge(statements)))
  {
    var own := Own(statements);
    hide CheckEnvelope, Split, CheckActor, CheckWorkflow, Document, ActorStatement, WorkflowStatement, ValidIds, Knowledge, IsCanonicalId, IsKnowledge, Parsed;
    EnvelopeOf(id, statements);
    SplitIs(statements);
    ActorIs(Some(own[0]));
    if own == [ActorStatement()] {
      ParsedAlone(value, id, statements, own, Knowledge(statements));
    } else {
      var ids :| ValidIds(ids) && own == [ActorStatement(), WorkflowStatement(ids)];
      WorkflowIs(own[1], ids);
      ParsedWithWorkflow(value, id, statements, own, ids, Knowledge(statements));
    }
  }

  lemma ParsedAlone(value: Json, id: string, statements: seq<Json>, own: seq<Json>, knowledge: seq<Json>)
    requires CheckEnvelope(value, id) == Ok(statements) && Split(statements) == Ok((own, knowledge))
    requires own == [ActorStatement()] && CheckActor(Some(own[0])).Ok?
    ensures Parsed(value, id) == Ok(Document(id, own + knowledge))
  {
    hide CheckEnvelope, Split, CheckActor, CheckWorkflow, Document, ActorStatement, WorkflowStatement;
  }

  lemma ParsedWithWorkflow(value: Json, id: string, statements: seq<Json>, own: seq<Json>, ids: seq<string>, knowledge: seq<Json>)
    requires CheckEnvelope(value, id) == Ok(statements) && Split(statements) == Ok((own, knowledge))
    requires own == [ActorStatement(), WorkflowStatement(ids)] && CheckActor(Some(own[0])).Ok? && CheckWorkflow(own[1]) == Ok(ids)
    ensures Parsed(value, id) == Ok(Document(id, own + knowledge))
  {
    hide CheckEnvelope, Split, CheckActor, CheckWorkflow, Document, ActorStatement, WorkflowStatement;
  }

  // ----- the parser -----

  /**
   * The parser: it accepts exactly the policies, and returns their own statements first and their knowledge
   * statements after them.
   */
  method ParseCredentialGroupPolicyDocument(value: Json, expected: string) returns (r: Result<Json, string>)
    ensures r == Parsed(value, expected)
    ensures r.Ok? <==> exists statements :: IsPolicy(value, expected, statements)
    ensures forall statements :: IsPolicy(value, expected, statements) ==>
              r == Ok(Document(expected, Own(statements) + Knowledge(statements)))
  {
    AcceptsExactlyPolicies(value, expected);
    hide CheckEnvelope, Split, CheckOwn, CheckWorkflow, IsPolicy, Own, Knowledge, Document, ActorStatement, WorkflowStatement, ValidIds;
    var statements :- CheckEnvelope(value, expected);
    var parts :- SplitStatements(statements);
    var (own, knowledge) := parts;
    var _ :- CheckOwn(own);
    OwnCount(own);
    if |own| == 1 {
      return Ok(Document(expected, [ActorStatement()] + knowledge));
    }
    var ids :- ParseWorkflowStatement(own[1]);
    r := Ok(Document(expected, [ActorStatement(), WorkflowStatement(ids)] + knowledge));
  }

  // ----- canonical documents -----

  lemma {:induction false} KnowledgeIsKnowledge(statements: seq<Json>)
    ensures forall k :: 0 <= k < |Knowledge(statements)| ==> IsKnowledge(Knowledge(statements)[k])
    ensures forall k :: 0 <= k < |Own(statements)| ==> !IsKnowledge(Own(statements)[k])
    decreases |statements|
  {
    hide IsKnowledge;
    if statements != [] {
      KnowledgeIsKnowledge(statements[..|statements| - 1]);
    }
  }

  lemma OneMore(statements: seq<Json>, last: Json)
    ensures Own(statements + [last]) == if IsKnowledge(last) then Own(statements) else Own(statements) + [last]
    ensures Knowledge(statements + [last]) == if IsKnowledge(last) then Knowledge(statements) + [last] else Knowledge(statements)
  {
    hide IsKnowledge;
    assert (statements + [last])[..|statements|] == statements;
  }

  lemma {:induction false} OwnAlone(own: seq<Json>)
    requires forall k :: 0 <= k < |own| ==> !IsKnowledge(own[k])
    ensures Own(own) == own && Knowledge(own) == []
    decreases |own|
  {
    if own != [] {
      hide IsKnowledge, Own, Knowledge;
      var front, last := own[..|own| - 1], own[|own| - 1];
      OwnAlone(front);
      OneMore(front, last);
      LastOf(own, front, last);
    }
  }

  lemma {:induction false} OwnThenKnowledge(own: seq<Json>, knowledge: seq<Json>)
    requires forall k :: 0 <= k < |own| ==> !IsKnowledge(own[k])
    requires forall k :: 0 <= k < |knowledge| ==> IsKnowledge(knowledge[k])
    ensures Own(own + knowledge) == own && Knowledge(own + knowledge) == knowledge
    decreases |knowledge|
  {
    hide IsKnowledge, Own, Knowledge;
    if knowledge != [] {
      var front, last := knowledge[..|knowledge| - 1], knowledge[|knowledge| - 1];
      OwnThenKnowledge(own, front);
      OneMore(own + front, last);
      LastOf(knowledge, front, last);
      assert own + knowledge == own + front + [last];
    } else {
      OwnAlone(own);
      assert own + knowledge == own;
    }
  }

  lemma {:induction false} SplitRecords(statements: seq<Json>)
    requires forall k :: 0 <= k < |statements| ==> statements[k].Obj?
    ensures forall k :: 0 <= k < |Own(statements)| ==> Own(statements)[k].Obj?
    ensures forall k :: 0 <= k < |Knowledge(statements)| ==> Knowledge(statements)[k].Obj?
    ensures multiset(Own(statements)) + multiset(Knowledge(statements)) == multiset(statements)
    decreases |statements|
  {
    hide IsKnowledge;
    if statements != [] {
      var front := statements[..|statements| - 1];
      SplitRecords(front);
      assert statements == front + [statements[|statements| - 1]];
    }
  }

  /** Canonicalising a policy keeps every statement and leaves the knowledge statements in order after the group's own. */
  lemma CanonicalKeepsStatements(id: string, before: seq<Json>)
    requires IsPolicy(Document(id, before), id, before)
    ensures var after := Own(before) + Knowledge(before);
            && multiset(after) == multiset(before)
            && Own(after) == Own(before) && Knowledge(after) == Knowledge(before)
            && IsPolicy(Document(id, after), id, after)
  {
    hide Own, Knowledge, IsKnowledge, ActorStatement, WorkflowStatement, ValidIds, IsCanonicalId, OwnOk, Document;
    var own, knowledge := Own(before), Knowledge(before);
    KnowledgeIsKnowledge(before);
    OwnThenKnowledge(own, knowledge);
    SplitRecords(before);
    assert multiset(own + knowledge) == multiset(own) + multiset(knowledge);
  }

  /** Canonicalising twice is canonicalising once. */
  lemma CanonicalIsIdempotent(value: Json, id: string)
    requires Parsed(value, id).Ok?
    ensures Parsed(Parsed(value, id).value, id) == Ok(Parsed(value, id).value)
  {
    hide Parsed, Own, Knowledge, OwnOk, IsCanonicalId;
    AcceptsExactlyPolicies(value, id);
    var before :| IsPolicy(value, id, before);
    var after := Own(before) + Knowledge(before);
    hide Document;
    CanonicalKeepsStatements(id, before);
    PolicyIsAccepted(Document(id, after), id, after);
  }

  lemma ActorIsOwn()
    ensures !IsKnowledge(ActorStatement())
  {
    assert ACTOR_ACCESS_SID[0] == 'C' && KNOWLEDGE_SID_PREFIX[0] == 'K';
    assert ActorStatement().fields["sid"] == Str(ACTOR_ACCESS_SID);
  }

  /** The default document is accepted unchanged. */
  lemma DefaultIsCanonical(id: string)
    ensures CreateDefault(id).Ok? <==> IsCanonicalId(id)
    ensures CreateDefault(id).Ok? ==> Parsed(CreateDefault(id).value, id) == Ok(CreateDefault(id).value)
  {
    hide IsCanonicalId, Parsed, ActorStatement, IsKnowledge, Document, Own, Knowledge;
    if CreateDefault(id).Ok? {
      var statements := [ActorStatement()];
      ActorIsOwn();
      OwnThenKnowledge(statements, []);
      assert statements + [] == statements;
      ActorIs(Some(ActorStatement()));
      assert OwnOk(Own(statements));
      ActorIsRecord();
      assert IsPolicy(Document(id, statements), id, statements);
      PolicyIsAccepted(Document(id, statements), id, statements);
    }
  }

  lemma ActorIsRecord()
    ensures ActorStatement().Obj?
  {
  }
}
