/** When resolution says it is complete, evaluation can yield nothing but what it returned. */
module SpreadSoundness {
  import opened Wrappers
  import opened ObjectExpressions
  import opened SpreadResolution

  // Throughout, `numeric` says which names JavaScript's numbers print as.

  /** A name lookups are right about: neither a numeric key's nor the prototype's. */
  predicate Tracked(numeric: string -> bool, name: string) {
    !numeric(name) && name != PROTO
  }

  /** Numeric keys have numeric names, and every static member access is to a tracked name. */
  predicate WellNamed(numeric: string -> bool, e: Expr)
    decreases Size(e), 0
  {
    match e
    case Obj(_, props) => forall i :: 0 <= i < |props| ==> (PropSmaller(props, i); WellNamedProp(numeric, props[i]))
    case Wrapped(inner) => WellNamed(numeric, inner)
    case Conditional(test, yes, no) => WellNamed(numeric, test) && WellNamed(numeric, yes) && WellNamed(numeric, no)
    case Logical(_, left, right) => WellNamed(numeric, left) && WellNamed(numeric, right)
    case Member(target, access) => WellNamed(numeric, target) && (access.StaticName? ==> Tracked(numeric, access.name))
    case Opaque(_) => true
  }

  predicate WellNamedProp(numeric: string -> bool, p: Prop)
    decreases PropSize(p), 1
  {
    match p
    case Property(key, value) => (key.Numeric? ==> numeric(key.name)) && WellNamed(numeric, value)
    case Method(key) => key.Numeric? ==> numeric(key.name)
    case Spread(_, argument) => WellNamed(numeric, argument)
  }

  predicate AllWellNamed(numeric: string -> bool, requests: seq<Expr>) {
    forall k :: 0 <= k < |requests| ==> WellNamed(numeric, requests[k])
  }

  predicate FoundWellNamed(numeric: string -> bool, properties: seq<Option<Found>>) {
    forall k :: 0 <= k < |properties| && properties[k].Some? ==> WellNamedProp(numeric, properties[k].value.property)
  }

  // ----- what is returned is part of what was given -----

  lemma {:induction false} UnwrapKeeps(numeric: string -> bool, w: World, e: Expr)
    requires WellNamed(numeric, e)
    ensures WellNamed(numeric, Unwrap(e)) && Eval(w, Unwrap(e)) == Eval(w, e)
    decreases e
  {
    if e.Wrapped? {
      UnwrapKeeps(numeric, w, e.inner);
    }
  }

  // ----- soundness -----

  /** The value an expression has is the value of one of these literals. */
  ghost predicate Yields(w: World, v: Value, requests: seq<Expr>) {
    exists k :: 0 <= k < |requests| && Eval(w, requests[k]) == v
  }

  function ValueOf(w: World, p: Prop): Value
    requires !p.Spread?
  {
    if p.Property? then Eval(w, p.value) else w.methodOf(p)
  }

  /** The own property a name has is one of these definitions with that definition's value; absence is listed too. */
  ghost predicate Accounts(w: World, slots: map<string, Slot>, name: string, properties: seq<Option<Found>>) {
    if name in slots then
      exists k :: 0 <= k < |properties| && properties[k].Some? && !properties[k].value.property.Spread? &&
                  slots[name] == Slot(properties[k].value, ValueOf(w, properties[k].value.property))
    else None in properties
  }

  lemma YieldsMore(w: World, v: Value, a: seq<Expr>, b: seq<Expr>)
    requires Yields(w, v, a) || Yields(w, v, b)
    ensures Yields(w, v, a + b)
  {
    if Yields(w, v, a) {
      var k :| 0 <= k < |a| && Eval(w, a[k]) == v;
      assert (a + b)[k] == a[k];
    } else {
      var k :| 0 <= k < |b| && Eval(w, b[k]) == v;
      assert (a + b)[|a| + k] == b[k];
    }
  }

  lemma AccountsMore(w: World, slots: map<string, Slot>, name: string, a: seq<Option<Found>>, b: seq<Option<Found>>)
    requires Accounts(w, slots, name, a) || Accounts(w, slots, name, b)
    ensures Accounts(w, slots, name, a + b)
  {
    if name in slots {
      if Accounts(w, slots, name, a) {
        var k :| 0 <= k < |a| && a[k].Some? && !a[k].value.property.Spread? && slots[name] == Slot(a[k].value, ValueOf(w, a[k].value.property));
        assert (a + b)[k] == a[k];
      } else {
        var k :| 0 <= k < |b| && b[k].Some? && !b[k].value.property.Spread? && slots[name] == Slot(b[k].value, ValueOf(w, b[k].value.property));
        assert (a + b)[|a| + k] == b[k];
      }
    }
  }

  lemma AccountsSplit(w: World, slots: map<string, Slot>, name: string, properties: seq<Option<Found>>)
    requires properties != [] && Accounts(w, slots, name, properties)
    ensures Accounts(w, slots, name, properties[..|properties| - 1]) || Accounts(w, slots, name, [properties[|properties| - 1]])
  {
    var rest := properties[..|properties| - 1];
    var last := properties[|properties| - 1];
    if name in slots {
      var k :| 0 <= k < |properties| && properties[k].Some? && !properties[k].value.property.Spread? &&
               slots[name] == Slot(properties[k].value, ValueOf(w, properties[k].value.property));
      assert k < |rest| ==> rest[k] == properties[k];
      assert k == |rest| ==> [last][0] == properties[k];
    } else {
      assert properties == rest + [last];
    }
  }

  /** When resolution is complete, the expression's value is the value of one of the literals it returned. */
  lemma {:induction false} ResolveSound(numeric: string -> bool, w: World, e: Expr, seen: set<(nat, string)>)
    requires WellNamed(numeric, e)
    ensures AllWellNamed(numeric, Resolve(e, seen).requests)
    ensures Resolve(e, seen).complete ==> Yields(w, Eval(w, e), Resolve(e, seen).requests)
    decreases Size(e), 0, 0
  {
    var current := Unwrap(e);
    UnwrapKeeps(numeric, w, e);
    match current
    case Obj(_, _) => assert [current][0] == current;
    case Conditional(_, yes, no) =>
      ResolveSound(numeric, w, yes, seen);
      ResolveSound(numeric, w, no, seen);
      CombineSound(numeric, w, Eval(w, current), Resolve(yes, seen), Resolve(no, seen), Eval(w, yes), Eval(w, no));
    case Logical(_, left, right) =>
      ResolveSound(numeric, w, left, seen);
      ResolveSound(numeric, w, right, seen);
      CombineSound(numeric, w, Eval(w, current), Resolve(left, seen), Resolve(right, seen), Eval(w, left), Eval(w, right));
    case Member(target, access) =>
      if access.StaticName? {
        ResolveSound(numeric, w, target, seen);
        MembersSound(numeric, w, Eval(w, target), Resolve(target, seen).requests, access.name, seen, Size(target));
      }
    case Opaque(_) =>
  }

  lemma CombineSound(numeric: string -> bool, w: World, v: Value, a: Resolution, b: Resolution, va: Value, vb: Value)
    requires v == va || v == vb
    requires AllWellNamed(numeric, a.requests) && AllWellNamed(numeric, b.requests)
    requires a.complete ==> Yields(w, va, a.requests)
    requires b.complete ==> Yields(w, vb, b.requests)
    ensures AllWellNamed(numeric, Combine(a, b).requests)
    ensures Combine(a, b).complete ==> Yields(w, v, Combine(a, b).requests)
  {
    if a.complete && b.complete {
      YieldsMore(w, v, a.requests, b.requests);
    }
  }

  /** If the target is one of these literals, its member is one of what they resolve to. */
  lemma {:induction false} MembersSound(numeric: string -> bool, w: World, v: Value, targets: seq<Expr>, name: string,
                                       seen: set<(nat, string)>, bound: nat)
    requires Literals(targets, bound) && AllWellNamed(numeric, targets) && Tracked(numeric, name)
    ensures var r := MembersOf(targets, name, seen, bound);
            AllWellNamed(numeric, r.requests) &&
            (r.complete && Yields(w, v, targets) ==> v.ObjectValue? && name in v.slots && Yields(w, v.slots[name].value, r.requests))
    decreases bound, 3, |targets|
  {
    if targets != [] {
      var last := targets[|targets| - 1];
      var rest := targets[..|targets| - 1];
      var before := MembersOf(rest, name, seen, bound);
      MembersSound(numeric, w, v, rest, name, seen, bound);
      LookupSound(numeric, w, last, name, seen, |last.props|);
      var found := Lookup(last, name, seen, |last.props|);
      ValuesSound(numeric, w, Eval(w, last), name, found.properties, seen, bound);
      var values := ValuesOf(found.properties, seen, bound);
      var r := MembersOf(targets, name, seen, bound);
      if r.complete && Yields(w, v, targets) {
        var k :| 0 <= k < |targets| && Eval(w, targets[k]) == v;
        if k < |rest| {
          assert rest[k] == targets[k];
          assert Yields(w, v, rest);
        }
        YieldsMore(w, v.slots[name].value, before.requests, values.requests);
      }
    }
  }

  /** If a literal's property is accounted for by these definitions, its value is one of what they resolve to. */
  lemma {:induction false} ValuesSound(numeric: string -> bool, w: World, v: Value, name: string, properties: seq<Option<Found>>,
                                       seen: set<(nat, string)>, bound: nat)
    requires Definitions(properties, bound) && FoundWellNamed(numeric, properties) && v.ObjectValue?
    ensures var r := ValuesOf(properties, seen, bound);
            AllWellNamed(numeric, r.requests) &&
            (r.complete && Accounts(w, v.slots, name, properties) ==> name in v.slots && Yields(w, v.slots[name].value, r.requests))
    decreases bound, 2, |properties|
  {
    if properties != [] {
      var last := properties[|properties| - 1];
      var rest := properties[..|properties| - 1];
      var before := ValuesOf(rest, seen, bound);
      ValuesSound(numeric, w, v, name, rest, seen, bound);
      if last.Some? && last.value.property.Property? {
        var value := last.value.property.value;
        ResolveSound(numeric, w, value, seen);
        if ValuesOf(properties, seen, bound).complete && Accounts(w, v.slots, name, properties) {
          AccountsSplit(w, v.slots, name, properties);
          YieldsMore(w, v.slots[name].value, before.requests, Resolve(value, seen).requests);
        }
      }
    }
  }

  /** A complete lookup accounts for the property the literal's first entries define last. */
  lemma {:induction false} LookupSound(numeric: string -> bool, w: World, literal: Expr, name: string, seen: set<(nat, string)>, end: nat)
    requires literal.Obj? && end <= |literal.props| && WellNamed(numeric, literal) && Tracked(numeric, name)
    ensures var r := Lookup(literal, name, seen, end);
            FoundWellNamed(numeric, r.properties) && (r.complete ==> Accounts(w, Own(w, literal, end), name, r.properties))
    decreases Size(literal), 1, end
  {
    if end > 0 {
      var p := literal.props[end - 1];
      PropSmaller(literal.props, end - 1);
      assert WellNamedProp(numeric, p);
      if !p.Spread? {
        if StaticKey(p) == Some(name) {
          assert [Some(Found(p, literal))][0].value == Found(p, literal);
        } else {
          LookupSound(numeric, w, literal, name, seen, end - 1);
        }
      } else if (p.start, name) !in seen {
        SpreadLookupSound(numeric, w, literal, name, seen, end);
      }
    }
  }

  lemma {:induction false} SpreadLookupSound(numeric: string -> bool, w: World, literal: Expr, name: string, seen: set<(nat, string)>,
                                             end: nat)
    requires literal.Obj? && 0 < end <= |literal.props| && WellNamed(numeric, literal) && Tracked(numeric, name)
    requires literal.props[end - 1].Spread? && (literal.props[end - 1].start, name) !in seen
    ensures var r := Lookup(literal, name, seen, end);
            FoundWellNamed(numeric, r.properties) && (r.complete ==> Accounts(w, Own(w, literal, end), name, r.properties))
    decreases Size(literal), 1, end, 0
  {
    var p := literal.props[end - 1];
    PropSmaller(literal.props, end - 1);
    assert WellNamedProp(numeric, p);
    var nextSeen := seen + {(p.start, name)};
    var spread := Resolve(p.argument, nextSeen);
    ResolveSound(numeric, w, p.argument, nextSeen);
    LookupSound(numeric, w, literal, name, nextSeen, end - 1);
    var earlier := Lookup(literal, name, nextSeen, end - 1);
    var before := Own(w, literal, end - 1);
    if spread.requests != [] {
      HitsSound(numeric, w, Eval(w, p.argument), before, spread.requests, name, nextSeen, earlier, Size(p.argument), Size(literal));
    }
  }

  /** If the spread value is one of these literals, the hits account for the name after the spread. */
  lemma {:induction false} HitsSound(numeric: string -> bool, w: World, v: Value, before: map<string, Slot>, requests: seq<Expr>, name: string,
                                     seen: set<(nat, string)>, earlier: Properties, bound: nat, limit: nat)
    requires Literals(requests, bound) && bound <= limit && Definitions(earlier.properties, limit)
    requires AllWellNamed(numeric, requests) && FoundWellNamed(numeric, earlier.properties) && Tracked(numeric, name)
    requires earlier.complete ==> Accounts(w, before, name, earlier.properties)
    ensures var r := SpreadHits(requests, name, seen, earlier, bound, limit);
            FoundWellNamed(numeric, r.properties) &&
            (r.complete && Yields(w, v, requests) ==> Accounts(w, before + OwnOf(w, v), name, r.properties))
    decreases bound, 3, |requests|
  {
    if requests != [] {
      var last := requests[|requests| - 1];
      var rest := requests[..|requests| - 1];
      HitsSound(numeric, w, v, before, rest, name, seen, earlier, bound, limit);
      LookupSound(numeric, w, last, name, seen, |last.props|);
      var found := Lookup(last, name, seen, |last.props|);
      var slots := Own(w, last, |last.props|);
      FillSound(numeric, w, before, slots, name, found.properties, earlier, limit);
      var filled := FillAbsent(found.properties, earlier, limit);
      var prior := SpreadHits(rest, name, seen, earlier, bound, limit);
      if SpreadHits(requests, name, seen, earlier, bound, limit).complete && Yields(w, v, requests) {
        var k :| 0 <= k < |requests| && Eval(w, requests[k]) == v;
        if k < |rest| {
          assert rest[k] == requests[k];
          assert Yields(w, v, rest);
        }
        AccountsMore(w, before + OwnOf(w, v), name, prior.properties, filled.properties);
      }
    }
  }

  lemma {:induction false} FillSound(numeric: string -> bool, w: World, before: map<string, Slot>, slots: map<string, Slot>, name: string,
                                     properties: seq<Option<Found>>, earlier: Properties, limit: nat)
    requires Definitions(properties, limit) && Definitions(earlier.properties, limit)
    requires FoundWellNamed(numeric, properties) && FoundWellNamed(numeric, earlier.properties)
    requires earlier.complete ==> Accounts(w, before, name, earlier.properties)
    ensures var r := FillAbsent(properties, earlier, limit);
            FoundWellNamed(numeric, r.properties) &&
            (r.complete && Accounts(w, slots, name, properties) ==> Accounts(w, before + slots, name, r.properties))
    decreases |properties|
  {
    if properties != [] {
      var last := properties[|properties| - 1];
      var rest := properties[..|properties| - 1];
      FillSound(numeric, w, before, slots, name, rest, earlier, limit);
      var filled := FillAbsent(rest, earlier, limit);
      if FillAbsent(properties, earlier, limit).complete && Accounts(w, slots, name, properties) {
        var tail := if last.Some? then [last] else earlier.properties;
        AccountsSplit(w, slots, name, properties);
        AccountsMore(w, before + slots, name, filled.properties, tail);
      }
    }
  }

  // ----- exactly which names -----

  ghost predicate LookupRight(w: World, literal: Expr, name: string, seen: set<(nat, string)>, end: nat)
    requires literal.Obj? && end <= |literal.props|
  {
    var r := Lookup(literal, name, seen, end);
    r.complete ==> Accounts(w, Own(w, literal, end), name, r.properties)
  }

  ghost predicate RightFor(numeric: string -> bool, name: string) {
    forall w: World, literal: Expr, seen, end: nat ::
      literal.Obj? && end <= |literal.props| && WellNamed(numeric, literal) ==> LookupRight(w, literal, name, seen, end)
  }

  /** Complete lookups of a name are right on every literal exactly when the name is neither numeric nor the prototype's. */
  lemma RightExactlyForTracked(numeric: string -> bool, name: string)
    ensures RightFor(numeric, name) <==> Tracked(numeric, name)
  {
    if Tracked(numeric, name) {
      forall w: World, literal: Expr, seen, end: nat | literal.Obj? && end <= |literal.props| && WellNamed(numeric, literal)
        ensures LookupRight(w, literal, name, seen, end)
      {
        LookupSound(numeric, w, literal, name, seen, end);
      }
    } else {
      UntrackedNameFails(numeric, name);
    }
  }

  /** `{ 1: x }` has a property `1` the lookup calls absent; `{ __proto__: x }` has none the lookup finds. */
  lemma UntrackedNameFails(numeric: string -> bool, name: string)
    requires !Tracked(numeric, name)
    ensures exists w: World, literal: Expr, seen ::
              literal.Obj? && WellNamed(numeric, literal) && !LookupRight(w, literal, name, seen, |literal.props|)
    ensures !RightFor(numeric, name)
  {
    var w := World(_ => Foreign(0), _ => "", _ => Foreign(0), _ => true, _ => false, _ => map[], (_, _) => Foreign(0));
    var key := if numeric(name) then Numeric(name) else Plain(name);
    var p := Property(key, Opaque(1));
    var literal := Obj(0, [p]);
    var r := Lookup(literal, name, {}, 1);
    assert Lookup(literal, name, {}, 0) == Properties([None], true);
    assert WellNamedProp(numeric, p) && WellNamed(numeric, literal);
    assert Own(w, literal, 0) == map[];
    if numeric(name) {
      assert r == Properties([None], true);
      assert name in Own(w, literal, 1);
    } else {
      assert r == Properties([Some(Found(p, literal))], true);
      assert name !in Own(w, literal, 1);
    }
    assert !LookupRight(w, literal, name, {}, |literal.props|);
  }

  ghost predicate MemberRight(w: World, target: Expr, name: string, seen: set<(nat, string)>) {
    var e := Member(target, StaticName(name));
    Resolve(e, seen).complete ==> Yields(w, Eval(w, e), Resolve(e, seen).requests)
  }

  ghost predicate MemberRightFor(numeric: string -> bool, name: string) {
    forall w: World, target: Expr, seen :: WellNamed(numeric, target) ==> MemberRight(w, target, name, seen)
  }

  /** The same names decide member accesses: complete resolutions of `target.name` are right exactly for tracked names. */
  lemma MemberRightExactlyForTracked(numeric: string -> bool, name: string)
    ensures MemberRightFor(numeric, name) <==> Tracked(numeric, name)
  {
    if Tracked(numeric, name) {
      forall w: World, target: Expr, seen | WellNamed(numeric, target) ensures MemberRight(w, target, name, seen) {
        ResolveSound(numeric, w, Member(target, StaticName(name)), seen);
      }
    } else {
      UntrackedMemberFails(numeric, name);
    }
  }

  /** `({ ["1"]: a, 1: b })["1"]` is b but resolves to a; `({ ["__proto__"]: a, __proto__: b }).__proto__` is a but resolves to b. */
  lemma UntrackedMemberFails(numeric: string -> bool, name: string)
    requires !Tracked(numeric, name)
    ensures !MemberRightFor(numeric, name)
  {
    var w := World(_ => Foreign(0), _ => "", _ => Foreign(0), _ => true, _ => false, _ => map[], (_, _) => Foreign(0));
    var a, b := Obj(1, []), Obj(2, []);
    var first, second := Property(ComputedText(name), a), Property(if numeric(name) then Numeric(name) else Plain(name), b);
    var target := Obj(0, [first, second]);
    assert WellNamed(numeric, target) by {
      assert WellNamed(numeric, a) && WellNamed(numeric, b) && WellNamedProp(numeric, first) && WellNamedProp(numeric, second);
    }
    UntrackedMemberValue(numeric, w, name, a, b, first, second, target);
    UntrackedMemberResolution(numeric, name, a, b, first, second, target);
    var e := Member(target, StaticName(name));
    var r := Resolve(e, {});
    assert Eval(w, r.requests[0]) != Eval(w, e);
    assert !MemberRight(w, target, name, {});
  }

  lemma UntrackedMemberValue(numeric: string -> bool, w: World, name: string, a: Expr, b: Expr, first: Prop, second: Prop, target: Expr)
    requires !Tracked(numeric, name) && target == Obj(0, [first, second]) && first == Property(ComputedText(name), a)
    requires second == Property(if numeric(name) then Numeric(name) else Plain(name), b)
    ensures Eval(w, Member(target, StaticName(name))) == Eval(w, if numeric(name) then b else a)
  {
    assert Own(w, target, 0) == map[];
    assert Own(w, target, 1) == map[name := Slot(Found(first, target), Eval(w, a))];
    assert Own(w, target, 2) == if numeric(name) then map[name := Slot(Found(second, target), Eval(w, b))] else Own(w, target, 1);
  }

  lemma UntrackedMemberResolution(numeric: string -> bool, name: string, a: Expr, b: Expr, first: Prop, second: Prop, target: Expr)
    requires !Tracked(numeric, name) && target == Obj(0, [first, second]) && first == Property(ComputedText(name), a)
    requires second == Property(if numeric(name) then Numeric(name) else Plain(name), b) && a.Obj? && b.Obj?
    ensures Resolve(Member(target, StaticName(name)), {}) == Resolution([if numeric(name) then a else b], true)
  {
    var hit := if numeric(name) then first else second;
    assert Lookup(target, name, {}, 1) == Properties([Some(Found(first, target))], true);
    assert Lookup(target, name, {}, 2) == Properties([Some(Found(hit, target))], true);
    var bound := Size(target);
    assert Resolve(hit.value, {}) == Resolution([hit.value], true);
    assert ValuesOf([], {}, bound) == Resolution([], true);
    assert ValuesOf([Some(Found(hit, target))], {}, bound) == Resolution([hit.value], true);
    assert MembersOf([], name, {}, bound) == Resolution([], true);
    assert MembersOf([target], name, {}, bound) == Resolution([hit.value], true);
    assert Resolve(target, {}) == Resolution([target], true);
  }
}
