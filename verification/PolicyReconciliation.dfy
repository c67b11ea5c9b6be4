/** Reconciliation of credential-group policies: fill in what is missing, check the relations, validate every policy. */
module PolicyReconciliation {
  import opened Wrappers
  import opened PolicyDocuments
  import opened OrganizationPolicies
  import opened PolicyStore

  datatype Failure =
    | BatchSizeOutOfRange
    | OversizedPage
    | NonAdvancingPage
    | InvariantFailed(violation: Violation)
    | InvalidRevision(id: string)
    | TooLarge(id: string)
    | OwnedTwice(id: string)
    | NoOwner(id: string)
    | InvalidDocument(id: string)

  datatype Summary = Summary(scannedMissing: nat, inserted: nat, validated: nat)

  // ----- pages -----

  /** Where to go on after a page: nowhere after an empty one. */
  method AssertPage(ids: seq<string>, after: string, batchSize: nat) returns (r: Result<Option<string>, Failure>)
    ensures ids == [] ==> r == Ok(None)
    ensures r.Ok? && ids != [] ==> r.value == Some(ids[|ids| - 1]) && Less(after, ids[|ids| - 1]) && |ids| <= batchSize
    ensures r.Err? <==> ids != [] && (|ids| > batchSize || !Less(after, ids[|ids| - 1]))
    ensures r.Err? ==> r.error == if |ids| > batchSize then OversizedPage else NonAdvancingPage
  {
    if ids == [] {
      return Ok(None);
    }
    if |ids| > batchSize {
      return Err(OversizedPage);
    }
    var last := ids[|ids| - 1];
    LessIsTotal(after, last);
    if last == "" || last == after || Less(last, after) {
      if Less(last, after) { LessIsStrict(last, after); }
      return Err(NonAdvancingPage);
    }
    r := Ok(Some(last));
  }

  // ----- rows -----

  /** JavaScript's truth of an optional string. */
  predicate Owned(owner: Option<string>) {
    owner.Some? && owner.value != ""
  }

  function MaxBytes(row: Row): nat {
    if Owned(row.organizationId) then ORGANIZATION_DOCUMENT_MAX_BYTES else DOCUMENT_MAX_BYTES
  }

  /** A stored policy with one owner, a real revision, a bounded size and a document of its owner's kind. */
  ghost predicate RowOk(row: Row) {
    && row.revision >= 1 && row.documentBytes <= MaxBytes(row)
    && if Owned(row.organizationId) then
         !Owned(row.workspaceId) && exists grants :: IsOrganizationPolicy(row.document, row.resourceId, grants)
       else
         Owned(row.workspaceId) && exists statements :: IsPolicy(row.document, row.resourceId, statements)
  }

  /** Why a row is not sound; the first of these that it fails is reported. */
  ghost predicate Blames(row: Row, failure: Failure) {
    var organization, workspace := Owned(row.organizationId), Owned(row.workspaceId);
    if row.revision < 1 then failure == InvalidRevision(row.id)
    else if row.documentBytes > (if organization then 262144 else 32768) then failure == TooLarge(row.id)
    else if organization && workspace then failure == OwnedTwice(row.id)
    else if !organization && !workspace then failure == NoOwner(row.id)
    else
      && failure == InvalidDocument(row.id)
      && if organization then !exists grants :: IsOrganizationPolicy(row.document, row.resourceId, grants)
         else !exists statements :: IsPolicy(row.document, row.resourceId, statements)
  }

  method ValidateRow(row: Row) returns (failure: Option<Failure>)
    ensures failure.None? <==> RowOk(row)
    ensures failure.Some? ==> Blames(row, failure.value)
    ensures failure.Some? ==> failure.value != OversizedPage && failure.value != NonAdvancingPage && !failure.value.InvariantFailed?
  {
    hide IsOrganizationPolicy, IsPolicy, Parsed;
    if row.revision < 1 {
      return Some(InvalidRevision(row.id));
    }
    if row.documentBytes > MaxBytes(row) {
      return Some(TooLarge(row.id));
    }
    if Owned(row.organizationId) {
      if Owned(row.workspaceId) {
        return Some(OwnedTwice(row.id));
      }
      var valid := ValidateOrganizationAccountPolicyDocument(row.document, row.resourceId);
      if valid.Err? {
        return Some(InvalidDocument(row.id));
      }
    } else {
      if !Owned(row.workspaceId) {
        return Some(NoOwner(row.id));
      }
      AcceptsExactlyPolicies(row.document, row.resourceId);
      var parsed := ParseCredentialGroupPolicyDocument(row.document, row.resourceId);
      if parsed.Err? {
        return Some(InvalidDocument(row.id));
      }
    }
    failure := None;
  }

  // ----- the two loops -----

  /** Whatever is still missing was missing before, and lies ahead: an empty id is never ahead. */
  ghost predicate Filling(before: Tables, now: Tables, after: string, filled: nat) {
    && OnePolicyEach(now) && Filled(before, now)
    && MissingPolicies(now) <= MissingPolicies(before)
    && (forall g :: g in MissingPolicies(now) ==> g == "" || Less(after, g))
    && ("" in MissingPolicies(before) ==> "" in MissingPolicies(now))
    && filled + |MissingPolicies(now)| == |MissingPolicies(before)|
  }

  lemma PageFills(before: Tables, now: Tables, next: Tables, after: string, last: string, filled: nat, rows: seq<string>, limit: nat)
    requires Filling(before, now, after, filled) && IsPage(rows, MissingPolicies(now), after, limit) && rows != [] && last == rows[|rows| - 1]
    requires OnePolicyEach(next) && Filled(now, next) && MissingPolicies(next) == MissingPolicies(now) - IdSet(rows)
    ensures Filling(before, next, last, filled + |rows|) && |MissingPolicies(next)| < |MissingPolicies(now)|
    ensures |MissingPolicies(now) * IdSet(rows)| == |rows|
  {
    PageIsDistinct(rows, MissingPolicies(now), after, limit);
    Distinct(rows);
    hide OnePolicyEach, MissingPolicies, Less;
    FillingTwice(before, now, next);
    var missing := MissingPolicies(now);
    SameSet(missing * IdSet(rows), IdSet(rows));
    forall g | g in MissingPolicies(next) ensures g == "" || Less(last, g) {
      assert g !in rows;
    }
    assert |missing - IdSet(rows)| == |missing| - |IdSet(rows)|;
  }

  lemma PageIsDistinct(rows: seq<string>, all: set<string>, after: string, limit: nat)
    requires IsPage(rows, all, after, limit)
    ensures forall j, k :: 0 <= j < k < |rows| ==> rows[j] != rows[k]
  {
    hide Less;
    forall j, k | 0 <= j < k < |rows| ensures rows[j] != rows[k] {
      LessIsStrict(rows[j], rows[k]);
    }
  }

  lemma {:induction false} Distinct(rows: seq<string>)
    requires forall j, k :: 0 <= j < k < |rows| ==> rows[j] != rows[k]
    ensures |IdSet(rows)| == |rows|
    decreases |rows|
  {
    if rows == [] {
      EmptySet(IdSet(rows));
    } else {
      var front, last := rows[..|rows| - 1], rows[|rows| - 1];
      Distinct(front);
      assert rows == front + [last];
      SameSet(IdSet(rows), IdSet(front) + {last});
      assert last !in IdSet(front);
    }
  }

  lemma FillingTwice(a: Tables, b: Tables, c: Tables)
    requires Filled(a, b) && Filled(b, c)
    ensures Filled(a, c)
  {
    forall p | p in c.policies && p !in a.policies
      ensures c.policies[p].resourceId in MissingPolicies(a)
      ensures c.policies[p] == DefaultPolicy(c.policies[p].resourceId, a.groups[c.policies[p].resourceId])
    {
      var g := c.policies[p].resourceId;
      if p !in b.policies {
        assert g in MissingPolicies(b);
        FillingKeepsPolicies(a, b, g);
      }
    }
  }

  /** The first loop: inserts a default policy for every workspace group without one. */
  method FillMissing(store: Store, batchSize: nat) returns (r: Result<(nat, nat), Failure>)
    requires OnePolicyEach(store.View()) && 1 <= batchSize <= BATCH_SIZE
    modifies store`policies
    ensures r == Ok((|MissingPolicies(old(store.View())) - {""}|, |MissingPolicies(old(store.View())) - {""}|))
    ensures OnePolicyEach(store.View()) && Filled(old(store.View()), store.View())
    ensures MissingPolicies(store.View()) == MissingPolicies(old(store.View())) * {""}
  {
    hide OnePolicyEach, Filled, MissingPolicies, IsPage, Filling, Less, WorkspaceGroup, NoPolicy, IsDefault;
    var scanned: nat, inserted: nat := 0, 0;
    var after := "";
    ghost var before := store.View();
    FillingStarts(before);
    while true
      invariant scanned == inserted && Filling(before, store.View(), after, inserted)
      decreases |MissingPolicies(store.View())|
    {
      ghost var now := store.View();
      var rows := store.ListMissingPolicies(after, batchSize);
      PageAdvances(rows, MissingPolicies(now), after, batchSize);
      var page := AssertPage(rows, after, batchSize);
      var lastId := page.value;
      if lastId.None? {
        FillingEnds(before, now, after, inserted, batchSize);
        return Ok((scanned, inserted));
      }
      scanned := scanned + |rows|;
      FillingIsUnique(before, now, after, inserted);
      var count := store.InsertDefaultPolicies(rows);
      PageFills(before, now, store.View(), after, lastId.value, inserted, rows, batchSize);
      inserted := inserted + count.value;
      after := lastId.value;
    }
  }

  lemma FillingStarts(t: Tables)
    requires OnePolicyEach(t)
    ensures Filling(t, t, "", 0)
  {
    forall g: string | g != "" ensures Less("", g) {}
  }

  lemma FillingIsUnique(before: Tables, now: Tables, after: string, filled: nat)
    requires Filling(before, now, after, filled)
    ensures OnePolicyEach(now)
  {
  }

  lemma PageAdvances(rows: seq<string>, all: set<string>, after: string, limit: nat)
    requires IsPage(rows, all, after, limit)
    ensures |rows| <= limit && (rows != [] ==> Less(after, rows[|rows| - 1]))
  {
  }

  lemma FillingEnds(before: Tables, now: Tables, after: string, filled: nat, limit: nat)
    requires Filling(before, now, after, filled) && IsPage([], MissingPolicies(now), after, limit) && limit > 0
    ensures OnePolicyEach(now) && Filled(before, now)
    ensures MissingPolicies(now) == MissingPolicies(before) * {""}
    ensures filled == |MissingPolicies(before) - {""}|
  {
    hide Less, OnePolicyEach;
    hide Filled, MissingPolicies;
    var was := MissingPolicies(before);
    SameSet(MissingPolicies(now), was * {""});
    SameSet(was, (was - {""}) + was * {""});
    assert |was| == |was - {""}| + |was * {""}|;
  }

  /** The policies the second loop has read, each once and each sound. */
  ghost predicate Validating(t: Tables, rows: map<string, Row>, after: string, validated: seq<string>) {
    && rows.Keys == t.policies.Keys
    && (forall j, k :: 0 <= j < k < |validated| ==> validated[j] != validated[k])
    && (forall k :: 0 <= k < |validated| ==> validated[k] in rows && RowOk(rows[validated[k]]) && !Less(after, validated[k]))
    && (forall id :: id in t.policies && id != "" && !Less(after, id) ==> id in validated)
    && "" !in validated
  }

  function Ahead(t: Tables, after: string): set<string> {
    set id | id in t.policies && Less(after, id)
  }

  lemma ValidatingStarts(t: Tables, rows: map<string, Row>)
    requires rows.Keys == t.policies.Keys
    ensures Validating(t, rows, "", [])
  {
  }

  lemma PageValidates(t: Tables, rows: map<string, Row>, after: string, last: string, validated: seq<string>, ids: seq<string>, limit: nat)
    requires Validating(t, rows, after, validated) && IsPage(ids, t.policies.Keys, after, limit) && ids != [] && last == ids[|ids| - 1]
    requires forall k :: 0 <= k < |ids| ==> ids[k] in rows && RowOk(rows[ids[k]])
    ensures Validating(t, rows, last, validated + ids) && |Ahead(t, last)| < |Ahead(t, after)|
  {
    hide RowOk, Less;
    PageIsDistinct(ids, t.policies.Keys, after, limit);
    NothingBeforeEmpty(after, ids);
    assert Less(after, last);
    forall k | 0 <= k < |validated| ensures !Less(last, validated[k]) {
      if Less(last, validated[k]) { LessIsTransitive(after, last, validated[k]); }
    }
    forall k | 0 <= k < |ids| ensures !Less(last, ids[k]) {
      if k < |ids| - 1 { LessIsStrict(ids[k], last); } else { NotBelowItself(last); }
    }
    assert forall id :: id in t.policies && Less(after, id) && id !in ids ==> Less(last, id);
    FewerAhead(t, after, last);
  }

  lemma NothingBeforeEmpty(after: string, ids: seq<string>)
    requires forall k :: 0 <= k < |ids| ==> Less(after, ids[k])
    ensures "" !in ids
  {
  }

  lemma NotBelowItself(s: string)
    ensures !Less(s, s)
  {
    if Less(s, s) { LessIsStrict(s, s); }
  }

  lemma FewerAhead(t: Tables, after: string, last: string)
    requires Less(after, last) && last in t.policies
    ensures |Ahead(t, last)| < |Ahead(t, after)|
  {
    hide Less;
    NotBelowItself(last);
    forall id | id in Ahead(t, last) ensures id in Ahead(t, after) - {last} {
      LessIsTransitive(after, last, id);
    }
    Subset(Ahead(t, last), Ahead(t, after) - {last});
  }

  lemma {:induction false} Subset(a: set<string>, b: set<string>)
    requires a <= b
    ensures |a| <= |b|
    decreases a
  {
    if a != {} {
      var x := Element(a);
      Subset(a - {x}, b - {x});
    }
  }

  /** The rows the store reads of its policies. */
  ghost function RowsOf(store: Store): (r: map<string, Row>)
    reads store
    ensures r.Keys == store.policies.Keys
  {
    map id | id in store.policies :: store.RowOf(id)
  }

  ghost predicate AllRowsOk(rows: map<string, Row>) {
    forall id :: id in rows && id != "" ==> RowOk(rows[id])
  }

  /** Validates the rows of a page in turn. */
  method ValidateRows(rows: seq<Row>) returns (failure: Option<Failure>, ghost at: nat)
    ensures failure.None? ==> forall k :: 0 <= k < |rows| ==> RowOk(rows[k])
    ensures failure.Some? ==> at < |rows| && !RowOk(rows[at]) && Blames(rows[at], failure.value)
    ensures failure.Some? ==> forall k :: 0 <= k < at ==> RowOk(rows[k])
    ensures failure.Some? ==> failure.value != OversizedPage && failure.value != NonAdvancingPage && !failure.value.InvariantFailed?
  {
    hide RowOk, Blames;
    for k := 0 to |rows|
      invariant forall j :: 0 <= j < k ==> RowOk(rows[j])
    {
      failure := ValidateRow(rows[k]);
      if failure.Some? {
        return failure, k;
      }
    }
    return None, 0;
  }

  /** The second loop: validates every stored policy once, or stops at one that is not sound. */
  method ValidateAll(store: Store, batchSize: nat) returns (r: Result<nat, Failure>, ghost validated: seq<string>)
    requires 1 <= batchSize <= BATCH_SIZE
    ensures r.Ok? <==> AllRowsOk(RowsOf(store))
    ensures r.Ok? ==> r.value == |validated| && (forall j, k :: 0 <= j < k < |validated| ==> validated[j] != validated[k])
    ensures r.Ok? ==> forall id :: id in validated <==> id in store.policies && id != ""
    ensures r.Err? ==> r.error != OversizedPage && r.error != NonAdvancingPage && !r.error.InvariantFailed?
    ensures r.Err? ==> FirstUnsound(RowsOf(store), r.error)
  {
    hide Blames, FirstUnsound;
    hide IsPage, Validating, RowOk, Less, AllRowsOk, Ahead, IsRowOf;
    ghost var t := store.View();
    ghost var all := RowsOf(store);
    ValidatingStarts(t, all);
    var after := "";
    var count: nat := 0;
    validated := [];
    while true
      invariant Validating(t, all, after, validated) && count == |validated|
      decreases |Ahead(t, after)|
    {
      var rows := store.ListPolicies(after, batchSize);
      var ids := RowIds(rows);
      PageAdvances(ids, t.policies.Keys, after, batchSize);
      var page := AssertPage(ids, after, batchSize);
      if page.value.None? {
        ValidatingEnds(t, all, after, validated, batchSize);
        return Ok(count), validated;
      }
      var failure, at := ValidateRows(rows);
      if failure.Some? {
        PageHasNoEmptyId(ids, t.policies.Keys, after, batchSize, at);
        UnsoundRow(all, rows[at].id);
        UnsoundIsFirst(t, all, after, validated, ids, batchSize, rows, at, failure.value);
        return Err(failure.value), validated;
      }
      PageValidates(t, all, after, page.value.value, validated, ids, batchSize);
      count := count + |rows|;
      validated := validated + ids;
      after := page.value.value;
    }
  }

  lemma PageHasNoEmptyId(ids: seq<string>, all: set<string>, after: string, limit: nat, k: nat)
    requires IsPage(ids, all, after, limit) && k < |ids|
    ensures ids[k] != ""
  {
  }

  /** The failure is of the first row, in id order, that is not sound. */
  ghost predicate FirstUnsound(rows: map<string, Row>, failure: Failure) {
    exists id :: id in rows && id != "" && !RowOk(rows[id]) && Blames(rows[id], failure)
                 && forall other :: other in rows && other != "" && Less(other, id) ==> RowOk(rows[other])
  }

  lemma UnsoundIsFirst(t: Tables, all: map<string, Row>, after: string, validated: seq<string>, ids: seq<string>, limit: nat,
                       rows: seq<Row>, at: nat, failure: Failure)
    requires Validating(t, all, after, validated) && IsPage(ids, t.policies.Keys, after, limit) && at < |rows| && ids == RowIds(rows)
    requires forall k :: 0 <= k < |rows| ==> rows[k].id in all && rows[k] == all[rows[k].id]
    requires !RowOk(rows[at]) && Blames(rows[at], failure) && forall k :: 0 <= k < at ==> RowOk(rows[k])
    ensures FirstUnsound(all, failure)
  {
    hide RowOk, Blames, Less;
    var id := rows[at].id;
    assert ids[at] == id;
    NothingBeforeEmpty(after, ids);
    forall other | other in all && other != "" && Less(other, id) ensures RowOk(all[other]) {
      if Less(after, other) {
        EarlierInPage(ids, t.policies.Keys, after, limit, at, other);
      } else {
        assert other in validated;
      }
    }
  }

  /** What comes before a row of a page, past the cursor, is an earlier row of it. */
  lemma EarlierInPage(ids: seq<string>, all: set<string>, after: string, limit: nat, at: nat, other: string)
    requires IsPage(ids, all, after, limit) && at < |ids| && other in all && Less(after, other) && Less(other, ids[at])
    ensures exists k :: 0 <= k < at && ids[k] == other
  {
    hide Less;
    LessIsStrict(other, ids[at]);
    forall j | at < j < |ids| ensures ids[j] != other {
      LessIsTransitive(other, ids[at], ids[j]);
      LessIsStrict(other, ids[j]);
    }
    var k :| 0 <= k < |ids| && ids[k] == other;
  }

  lemma UnsoundRow(rows: map<string, Row>, id: string)
    requires id in rows && id != "" && !RowOk(rows[id])
    ensures !AllRowsOk(rows)
  {
  }

  lemma ValidatingEnds(t: Tables, rows: map<string, Row>, after: string, validated: seq<string>, limit: nat)
    requires Validating(t, rows, after, validated) && IsPage([], t.policies.Keys, after, limit) && limit > 0
    ensures AllRowsOk(rows)
    ensures forall j, k :: 0 <= j < k < |validated| ==> validated[j] != validated[k]
    ensures forall id :: id in validated <==> id in t.policies && id != ""
  {
    hide RowOk, Less;
  }

  // ----- reconciliation -----

  /** The group has one policy, with its owner. */
  ghost predicate HasItsPolicy(t: Tables, g: string)
    requires g in t.groups
  {
    exists p :: p in t.policies && t.policies[p].resourceId == g && SameOwner(t.policies[p], t.groups[g])
                && forall q :: q in t.policies && t.policies[q].resourceId == g ==> q == p
  }

  method Reconcile(store: Store, batchSize: nat) returns (r: Result<Summary, Failure>, ghost validated: seq<string>)
    requires OnePolicyEach(store.View())
    modifies store`policies
    ensures OnePolicyEach(store.View()) && Filled(old(store.View()), store.View())
    ensures !(1 <= batchSize <= BATCH_SIZE) ==> r == Err(BatchSizeOutOfRange) && store.View() == old(store.View())
    ensures 1 <= batchSize <= BATCH_SIZE ==> MissingPolicies(store.View()) == MissingPolicies(old(store.View())) * {""}
    ensures r.Ok? <==> 1 <= batchSize <= BATCH_SIZE && Consistent(store.View()) && AllRowsOk(RowsOf(store))
    ensures r.Ok? ==> r.value == Summary(|MissingPolicies(old(store.View()))|, |MissingPolicies(old(store.View()))|, |validated|)
    ensures r.Ok? ==> (forall j, k :: 0 <= j < k < |validated| ==> validated[j] != validated[k])
                      && forall id :: id in validated <==> id in store.policies && id != ""
    ensures r.Ok? ==> forall g :: g in store.groups ==> HasItsPolicy(store.View(), g)
    ensures r.Err? ==> r.error != OversizedPage && r.error != NonAdvancingPage
    ensures r.Err? && r.error.InvariantFailed? ==> Violates(store.View(), r.error.violation)
    ensures r.Err? && 1 <= batchSize <= BATCH_SIZE && !r.error.InvariantFailed? ==>
              Consistent(store.View()) && FirstUnsound(RowsOf(store), r.error)
  {
    hide HasItsPolicy, FirstUnsound;
    hide OnePolicyEach, Filled, MissingPolicies, Consistent, AllRowsOk, Violates;
    validated := [];
    if batchSize == 0 || batchSize > BATCH_SIZE {
      NothingFilled(store.View());
      return Err(BatchSizeOutOfRange), validated;
    }
    ghost var before := store.View();
    var filled := FillMissing(store, batchSize);
    var violation := store.FindRelationalInvariantViolation();
    if violation.Some? {
      return Err(InvariantFailed(violation.value)), validated;
    }
    var checked;
    checked, validated := ValidateAll(store, batchSize);
    if checked.Err? {
      return Err(checked.error), validated;
    }
    ConsistentIsNotMissing(before, store.View());
    forall g | g in store.groups ensures HasItsPolicy(store.View(), g) {
      EachGroupHasItsPolicy(store.View(), g);
    }
    r := Ok(Summary(filled.value.0, filled.value.1, checked.value));
  }

  /** When the relations hold, no group with an empty id was left out. */
  lemma ConsistentIsNotMissing(before: Tables, now: Tables)
    requires Consistent(now) && MissingPolicies(now) == MissingPolicies(before) * {""}
    ensures MissingPolicies(before) - {""} == MissingPolicies(before)
  {
    assert "" !in MissingPolicies(now) && "" !in MissingPolicies(before);
    SameSet(MissingPolicies(before) - {""}, MissingPolicies(before));
  }

  lemma EachGroupHasItsPolicy(t: Tables, g: string)
    requires Consistent(t) && OnePolicyEach(t) && g in t.groups
    ensures HasItsPolicy(t, g)
  {
    assert HasPolicy(t, g);
    var p :| p in t.policies && t.policies[p].resourceId == g;
    assert SameOwner(t.policies[p], t.groups[g]);
  }

  /** A policy the first loop inserts passes the second exactly when its group's id and owner are usable and it is small. */
  lemma DefaultPolicyIsSound(id: string, resource: string, g: Group, bytes: nat, document: Json)
    requires g.workspaceId.Some? && document == DefaultPolicy(resource, g).document
    ensures RowOk(Row(id, g.workspaceId, None, resource, 1, bytes, document)) <==>
            IsCanonicalId(resource) && Owned(g.workspaceId) && bytes <= DOCUMENT_MAX_BYTES
  {
    hide IsCanonicalId, Parsed, IsPolicy, ActorStatement;
    AcceptsExactlyPolicies(document, resource);
    DefaultIsCanonical(resource);
    AcceptedIsCanonical(document, resource);
  }

  lemma AcceptedIsCanonical(document: Json, resource: string)
    ensures (exists statements :: IsPolicy(document, resource, statements)) ==> IsCanonicalId(resource)
  {
  }
}
