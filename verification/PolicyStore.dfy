/** The tables behind credential-group policies, and what each query of the Postgres store reads and writes. */
module PolicyStore {
  import opened Wrappers
  import opened PolicyDocuments

  datatype Group = Group(workspaceId: Option<string>, organizationId: Option<string>)

  datatype Policy = Policy(workspaceId: Option<string>, organizationId: Option<string>, resourceId: string, revision: int, document: Json)

  datatype Row = Row(id: string, workspaceId: Option<string>, organizationId: Option<string>, resourceId: string, revision: int,
                     documentBytes: nat, document: Json)

  datatype Violation = Missing(resourceId: string) | OwnerMismatch(resourceId: string) | Orphan(resourceId: string)

  const BATCH_SIZE: nat := 500
  const DOCUMENT_MAX_BYTES: nat := 32 * 1024
  const ORGANIZATION_DOCUMENT_MAX_BYTES: nat := 256 * 1024

  // ----- the order of ids -----

  lemma {:induction false} LessIsTransitive(a: string, b: string, c: string)
    requires Less(a, b) && Less(b, c)
    ensures Less(a, c)
    decreases a
  {
    if a != "" && a[0] == b[0] && b[0] == c[0] {
      LessIsTransitive(a[1..], b[1..], c[1..]);
    }
  }

  lemma {:induction false} LessIsTotal(a: string, b: string)
    ensures a == b || Less(a, b) || Less(b, a)
    decreases a
  {
    if a != "" && b != "" && a[0] == b[0] {
      LessIsTotal(a[1..], b[1..]);
      if a[1..] == b[1..] {
        assert a == [a[0]] + a[1..] && b == [b[0]] + b[1..];
      }
    }
  }

  lemma {:induction false} LessIsStrict(a: string, b: string)
    requires Less(a, b)
    ensures !Less(b, a) && a != b
    decreases a
  {
    if a != "" && a[0] == b[0] {
      LessIsStrict(a[1..], b[1..]);
    }
  }

  // ----- pages -----

  /** The ids after one, in order, up to a limit. */
  ghost predicate IsPage(rows: seq<string>, all: set<string>, after: string, limit: nat) {
    && |rows| <= limit
    && (forall j, k :: 0 <= j < k < |rows| ==> Less(rows[j], rows[k]))
    && (forall k :: 0 <= k < |rows| ==> rows[k] in all && Less(after, rows[k]))
    && (forall id :: id in all && Less(after, id) && id !in rows ==> |rows| == limit && forall k :: 0 <= k < |rows| ==> Less(rows[k], id))
  }

  method Smallest(ids: set<string>) returns (least: string)
    requires ids != {}
    ensures least in ids && forall id :: id in ids && id != least ==> Less(least, id)
  {
    hide Less;
    least := Pick(ids);
    var rest := ids - {least};
    while rest != {}
      invariant rest <= ids && least in ids && least !in rest
      invariant forall id :: id in ids && id !in rest && id != least ==> Less(least, id)
    {
      var id := Pick(rest);
      rest := rest - {id};
      LessIsTotal(least, id);
      if Less(id, least) {
        ghost var was := least;
        forall other | other in ids && other !in rest && other != id ensures Less(id, other) {
          if other != was { LessIsTransitive(id, was, other); }
        }
        least := id;
      }
    }
  }

  /** `SELECT … WHERE id > after ORDER BY id LIMIT limit`. */
  method TakePage(all: set<string>, after: string, limit: nat) returns (rows: seq<string>)
    ensures IsPage(rows, all, after, limit)
  {
    hide Less;
    rows := [];
    var rest := set id | id in all && Less(after, id);
    while |rows| < limit && rest != {}
      invariant |rows| <= limit
      invariant rest <= set id | id in all && Less(after, id)
      invariant forall j, k :: 0 <= j < k < |rows| ==> Less(rows[j], rows[k])
      invariant forall k :: 0 <= k < |rows| ==> rows[k] in all && Less(after, rows[k])
      invariant forall id :: id in all && Less(after, id) ==> id in rows || id in rest
      invariant forall k, id :: 0 <= k < |rows| && id in rest ==> Less(rows[k], id)
      decreases |rest|
    {
      var next := Smallest(rest);
      rest := rest - {next};
      rows := rows + [next];
    }
    forall id | id in all && Less(after, id) && id !in rows ensures |rows| == limit {
      NotEmpty(id, rest);
    }
  }

  function RowIds(rows: seq<Row>): (ids: seq<string>)
    ensures |ids| == |rows| && forall k :: 0 <= k < |rows| ==> ids[k] == rows[k].id
  {
    if rows == [] then [] else [rows[0].id] + RowIds(rows[1..])
  }

  // ----- the tables -----

  datatype Tables = Tables(groups: map<string, Group>, policies: map<string, Policy>)

  function IdSet(rows: seq<string>): set<string> {
    set id | id in rows
  }

  predicate HasPolicy(t: Tables, resource: string) {
    exists p :: p in t.policies && t.policies[p].resourceId == resource
  }

  /** Workspace groups without a policy. */
  function MissingPolicies(t: Tables): set<string> {
    set g | g in t.groups && t.groups[g].workspaceId.Some? && !HasPolicy(t, g)
  }

  /** The unique index on the resource. */
  ghost predicate OnePolicyEach(t: Tables) {
    forall p, q :: p in t.policies && q in t.policies && t.policies[p].resourceId == t.policies[q].resourceId ==> p == q
  }

  predicate SameOwner(p: Policy, g: Group) {
    p.workspaceId == g.workspaceId && p.organizationId == g.organizationId
  }

  /** Every group has a policy, every policy a group, and owners agree. */
  ghost predicate Consistent(t: Tables) {
    && (forall g :: g in t.groups ==> HasPolicy(t, g))
    && (forall p :: p in t.policies ==> t.policies[p].resourceId in t.groups && SameOwner(t.policies[p], t.groups[t.policies[p].resourceId]))
  }

  ghost predicate Violates(t: Tables, v: Violation) {
    match v
    case Missing(g) => g in t.groups && !HasPolicy(t, g)
    case OwnerMismatch(g) =>
      g in t.groups && exists p :: p in t.policies && t.policies[p].resourceId == g && !SameOwner(t.policies[p], t.groups[g])
    case Orphan(g) => g !in t.groups && HasPolicy(t, g)
  }

  function DefaultPolicy(resource: string, g: Group): Policy {
    Policy(g.workspaceId, None, resource, 1, Document(resource, [ActorStatement()]))
  }

  /** The tables after default policies are inserted for some of the groups that lacked one. */
  ghost predicate Filled(before: Tables, after: Tables) {
    && after.groups == before.groups
    && (forall p :: p in before.policies ==> p in after.policies && after.policies[p] == before.policies[p])
    && (forall p :: p in after.policies && p !in before.policies ==>
          && after.policies[p].resourceId in MissingPolicies(before)
          && after.policies[p] == DefaultPolicy(after.policies[p].resourceId, before.groups[after.policies[p].resourceId]))
  }

  // ----- the queries' conditions, spelled out -----

  /** A group owned by a workspace. */
  predicate WorkspaceGroup(groups: map<string, Group>, g: string) {
    g in groups && groups[g].workspaceId.Some?
  }

  ghost predicate NoPolicy(policies: map<string, Policy>, g: string) {
    forall p :: p in policies ==> policies[p].resourceId != g
  }

  /** The policy a workspace group starts with: its workspace's, at revision 1, of the actor statement alone. */
  predicate IsDefault(groups: map<string, Group>, p: Policy) {
    && p.resourceId in groups && groups[p.resourceId].workspaceId.Some? && p.workspaceId == groups[p.resourceId].workspaceId
    && p.organizationId == None && p.revision == 1 && p.document == Document(p.resourceId, [ActorStatement()])
  }

  /** A policy as a page shows it: its columns, its size, and its document unless that is larger than its owner's kind may have. */
  predicate IsRowOf(bytesOf: Json -> nat, p: Policy, row: Row) {
    && (row.workspaceId, row.organizationId, row.resourceId, row.revision) == (p.workspaceId, p.organizationId, p.resourceId, p.revision)
    && row.documentBytes == bytesOf(p.document)
    && row.document == if row.documentBytes <= (if p.organizationId.Some? then 262144 else 32768) then p.document else Null
  }

  lemma MissingAre(t: Tables)
    ensures forall g :: g in MissingPolicies(t) <==> WorkspaceGroup(t.groups, g) && NoPolicy(t.policies, g)
  {
  }

  lemma InsertedAre(before: Tables, after: Tables, rows: seq<string>)
    requires Filled(before, after) && MissingPolicies(after) == MissingPolicies(before) - IdSet(rows)
    ensures after.groups == before.groups && forall p :: p in before.policies ==> p in after.policies && after.policies[p] == before.policies[p]
    ensures forall k :: 0 <= k < |rows| && WorkspaceGroup(after.groups, rows[k]) ==> !NoPolicy(after.policies, rows[k])
    ensures forall p :: p in after.policies && p !in before.policies ==>
              && after.policies[p].resourceId in rows && NoPolicy(before.policies, after.policies[p].resourceId)
              && IsDefault(after.groups, after.policies[p])
  {
    MissingAre(before);
    MissingAre(after);
    forall k | 0 <= k < |rows| && WorkspaceGroup(after.groups, rows[k]) ensures !NoPolicy(after.policies, rows[k]) {
      assert rows[k] in IdSet(rows) && rows[k] !in MissingPolicies(after);
    }
    forall p | p in after.policies && p !in before.policies ensures after.policies[p].resourceId in rows {
      var g := after.policies[p].resourceId;
      assert g in MissingPolicies(before) && g !in MissingPolicies(after);
    }
  }

  class Store {
    const bytesOf: Json -> nat
    var groups: map<string, Group>
    var policies: map<string, Policy>

    constructor (groups: map<string, Group>, policies: map<string, Policy>, bytesOf: Json -> nat)
      ensures View() == Tables(groups, policies) && this.bytesOf == bytesOf
    {
      this.groups, this.policies, this.bytesOf := groups, policies, bytesOf;
    }

    function View(): Tables
      reads this
    {
      Tables(groups, policies)
    }

    function RowOf(id: string): Row
      requires id in policies
      reads this
    {
      var p := policies[id];
      var bytes := bytesOf(p.document);
      var limit := if p.organizationId.None? then DOCUMENT_MAX_BYTES else ORGANIZATION_DOCUMENT_MAX_BYTES;
      Row(id, p.workspaceId, p.organizationId, p.resourceId, p.revision, bytes, if bytes <= limit then p.document else Null)
    }

    method ListMissingPolicies(after: string, limit: nat) returns (rows: seq<string>)
      ensures IsPage(rows, MissingPolicies(View()), after, limit)
      ensures forall k :: 0 <= k < |rows| ==> WorkspaceGroup(groups, rows[k]) && NoPolicy(policies, rows[k])
      ensures forall g :: WorkspaceGroup(groups, g) && NoPolicy(policies, g) && Less(after, g) && g !in rows ==> |rows| == limit
    {
      MissingAre(View());
      rows := TakePage(MissingPolicies(View()), after, limit);
    }

    /** An id no policy has; a random one in the store. */
    method FreshId() returns (id: string)
      ensures id !in policies && id != ""
    {
      var rest := policies.Keys;
      var n := 1;
      while rest != {}
        invariant n >= 1 && rest <= policies.Keys
        invariant forall p :: p in policies && p !in rest ==> |p| < n
      {
        var p := Pick(rest);
        rest := rest - {p};
        if |p| >= n { n := |p| + 1; }
      }
      id := seq(n, _ => 'x');
    }

    /** Inserts the default policy of each workspace group listed that has none; an oversized list is refused. */
    method InsertDefaultPolicies(rows: seq<string>) returns (inserted: Option<nat>)
      requires OnePolicyEach(View())
      modifies `policies
      ensures inserted.None? <==> |rows| > BATCH_SIZE
      ensures inserted.None? ==> View() == old(View())
      ensures inserted.Some? ==> OnePolicyEach(View()) && Filled(old(View()), View())
      ensures inserted.Some? ==> MissingPolicies(View()) == MissingPolicies(old(View())) - IdSet(rows)
      ensures inserted.Some? ==> inserted.value == |MissingPolicies(old(View())) * IdSet(rows)|
      ensures inserted.Some? ==> forall k :: 0 <= k < |rows| && WorkspaceGroup(groups, rows[k]) ==> !NoPolicy(policies, rows[k])
      ensures inserted.Some? ==> forall p :: p in policies && p !in old(policies) ==>
                policies[p].resourceId in rows && NoPolicy(old(policies), policies[p].resourceId) && IsDefault(groups, policies[p])
      ensures groups == old(groups) && forall p :: p in old(policies) ==> p in policies && policies[p] == old(policies)[p]
    {
      hide OnePolicyEach, Filled, MissingPolicies, DefaultPolicy, IdSet, WorkspaceGroup, NoPolicy, IsDefault;
      if |rows| > BATCH_SIZE {
        return None;
      }
      var count := 0;
      ghost var before := View();
      NothingFilled(before);
      for k := 0 to |rows|
        invariant groups == before.groups && count == |MissingPolicies(before) * IdSet(rows[..k])|
        invariant OnePolicyEach(View()) && Filled(before, View())
        invariant MissingPolicies(View()) == MissingPolicies(before) - IdSet(rows[..k])
      {
        ghost var now := View();
        OneMoreRow(MissingPolicies(before), rows, k);
        if rows[k] in MissingPolicies(View()) {
          MissingIsGroup(now, rows[k]);
          var id := FreshId();
          policies := policies[id := DefaultPolicy(rows[k], groups[rows[k]])];
          count := count + 1;
          InsertFills(before, now, id, rows[k], View());
        }
      }
      assert rows[..|rows|] == rows;
      InsertedAre(before, View(), rows);
      inserted := Some(count);
    }

    /** The first group or policy the relational invariant fails for, in id order. */
    method FindRelationalInvariantViolation() returns (v: Option<Violation>)
      ensures v.None? <==> Consistent(View())
      ensures v.Some? ==> Violates(View(), v.value)
      ensures v.Some? ==> forall w :: Violates(View(), w) ==> !Less(w.resourceId, v.value.resourceId)
    {
      hide Less;
      var missing := set g | g in groups && !HasPolicy(View(), g);
      var mismatched := set p | p in policies && policies[p].resourceId in groups && !SameOwner(policies[p], groups[policies[p].resourceId])
                              :: policies[p].resourceId;
      var orphans := set p | p in policies && policies[p].resourceId !in groups :: policies[p].resourceId;
      var all := missing + mismatched + orphans;
      ViolatingIs(View(), missing, mismatched, orphans);
      if all == {} {
        forall w: Violation ensures !Violates(View(), w) { assert w.resourceId !in all; }
        NoViolationIsConsistent(View());
        return None;
      }
      var first := Smallest(all);
      forall w | Violates(View(), w) ensures !Less(w.resourceId, first) {
        assert w.resourceId in all;
        if Less(w.resourceId, first) { LessIsStrict(w.resourceId, first); }
      }
      v := Some(if first in missing then Missing(first) else if first in mismatched then OwnerMismatch(first) else Orphan(first));
      ViolationIsInconsistent(View(), v.value);
    }

    method ListPolicies(after: string, limit: nat) returns (rows: seq<Row>)
      ensures IsPage(RowIds(rows), policies.Keys, after, limit)
      ensures forall k :: 0 <= k < |rows| ==> rows[k].id in policies && rows[k] == RowOf(rows[k].id)
      ensures forall k :: 0 <= k < |rows| ==> IsRowOf(bytesOf, policies[rows[k].id], rows[k])
    {
      var page := TakePage(policies.Keys, after, limit);
      rows := [];
      for k := 0 to |page|
        invariant |rows| == k && forall j :: 0 <= j < k ==> rows[j] == RowOf(page[j])
      {
        rows := rows + [RowOf(page[k])];
      }
      assert RowIds(rows) == page;
    }
  }

  // ----- inserting -----

  lemma NothingFilled(t: Tables)
    ensures Filled(t, t)
    ensures MissingPolicies(t) == MissingPolicies(t) - IdSet([]) && |MissingPolicies(t) * IdSet([])| == 0
  {
    EmptySet(MissingPolicies(t) * IdSet([]));
  }

  lemma MissingIsGroup(t: Tables, resource: string)
    requires resource in MissingPolicies(t)
    ensures resource in t.groups
  {
  }

  lemma InsertFills(before: Tables, now: Tables, id: string, resource: string, after: Tables)
    requires Filled(before, now) && OnePolicyEach(now) && resource in MissingPolicies(now) && id !in now.policies
    requires resource in now.groups
    requires after == now.(policies := now.policies[id := DefaultPolicy(resource, now.groups[resource])])
    ensures Filled(before, after) && OnePolicyEach(after)
    ensures MissingPolicies(after) == MissingPolicies(now) - {resource}
  {
    hide DefaultPolicy;
    assert DefaultPolicy(resource, now.groups[resource]).resourceId == resource by { DefaultIsFor(resource, now.groups[resource]); }
    FillingKeepsPolicies(before, now, resource);
    forall g ensures HasPolicy(after, g) <==> HasPolicy(now, g) || g == resource {
      if g == resource { assert after.policies[id].resourceId == resource; }
      if HasPolicy(now, g) {
        var p :| p in now.policies && now.policies[p].resourceId == g;
        assert p in after.policies && after.policies[p].resourceId == g;
      }
    }
    SameSet(MissingPolicies(after), MissingPolicies(now) - {resource});
  }

  lemma FillingKeepsPolicies(before: Tables, now: Tables, resource: string)
    requires Filled(before, now)
    ensures HasPolicy(before, resource) ==> HasPolicy(now, resource)
  {
    if HasPolicy(before, resource) {
      var p :| p in before.policies && before.policies[p].resourceId == resource;
      assert p in now.policies && now.policies[p].resourceId == resource;
    }
  }

  lemma DefaultIsFor(resource: string, g: Group)
    ensures DefaultPolicy(resource, g).resourceId == resource
  {
  }

  lemma OneMoreRow(missing: set<string>, rows: seq<string>, k: nat)
    requires k < |rows|
    ensures missing - IdSet(rows[..k + 1]) == missing - IdSet(rows[..k]) - {rows[k]}
    ensures |missing * IdSet(rows[..k + 1])| ==
            |missing * IdSet(rows[..k])| + if rows[k] in missing - IdSet(rows[..k]) then 1 else 0
  {
    var a, b := IdSet(rows[..k]), IdSet(rows[..k + 1]);
    assert rows[..k + 1] == rows[..k] + [rows[k]];
    SameSet(missing - b, missing - a - {rows[k]});
    if rows[k] in missing - a {
      SameSet(missing * b, missing * a + {rows[k]});
    } else {
      SameSet(missing * b, missing * a);
    }
  }

  // ----- the relational invariant -----

  lemma ViolatingIs(t: Tables, missing: set<string>, mismatched: set<string>, orphans: set<string>)
    requires missing == set g | g in t.groups && !HasPolicy(t, g)
    requires mismatched == set p | p in t.policies && t.policies[p].resourceId in t.groups
                                   && !SameOwner(t.policies[p], t.groups[t.policies[p].resourceId]) :: t.policies[p].resourceId
    requires orphans == set p | p in t.policies && t.policies[p].resourceId !in t.groups :: t.policies[p].resourceId
    ensures forall w :: Violates(t, w) ==> w.resourceId in missing + mismatched + orphans
    ensures forall g :: g in missing ==> Violates(t, Missing(g))
    ensures forall g :: g in mismatched ==> Violates(t, OwnerMismatch(g))
    ensures forall g :: g in orphans ==> Violates(t, Orphan(g))
  {
  }

  lemma NoViolationIsConsistent(t: Tables)
    requires forall v :: !Violates(t, v)
    ensures Consistent(t)
  {
    forall g | g in t.groups ensures HasPolicy(t, g) { assert !Violates(t, Missing(g)); }
    forall p | p in t.policies
      ensures t.policies[p].resourceId in t.groups && SameOwner(t.policies[p], t.groups[t.policies[p].resourceId])
    {
      assert !Violates(t, Orphan(t.policies[p].resourceId)) && !Violates(t, OwnerMismatch(t.policies[p].resourceId));
    }
  }

  lemma ViolationIsInconsistent(t: Tables, v: Violation)
    requires Violates(t, v)
    ensures !Consistent(t)
  {
  }
}
