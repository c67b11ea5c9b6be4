/** The resolver's loops, each computing what the resolution functions say. */
module SpreadResolver {
  import opened Wrappers
  import opened ObjectExpressions
  import opened SpreadResolution

  method UnwrapExpression(e: Expr) returns (current: Expr)
    ensures current == Unwrap(e)
  {
    current := e;
    while current.Wrapped?
      invariant Unwrap(current) == Unwrap(e)
      decreases current
    {
      current := current.inner;
    }
  }

  method ResolveRequestObjects(e: Expr, seen: set<(nat, string)>) returns (r: Resolution)
    ensures r == Resolve(e, seen)
    decreases Size(e), 0, 0, 0
  {
    var current := UnwrapExpression(e);
    match current
    case Obj(_, _) => r := Resolution([current], true);
    case Conditional(_, yes, no) =>
      var a := ResolveRequestObjects(yes, seen);
      var b := ResolveRequestObjects(no, seen);
      r := Combine(a, b);
    case Logical(_, left, right) =>
      var a := ResolveRequestObjects(left, seen);
      var b := ResolveRequestObjects(right, seen);
      r := Combine(a, b);
    case Opaque(_) => r := Resolution([], false);
    case Member(target, access) =>
      if access.Dynamic? {
        return Resolution([], false);
      }
      var targets := ResolveRequestObjects(target, seen);
      var members := ResolveMembers(targets.requests, access.name, seen, Size(target));
      r := Resolution(members.requests, targets.complete && members.complete);
  }

  /** The member branch's loop over targets. */
  method ResolveMembers(targets: seq<Expr>, name: string, seen: set<(nat, string)>, ghost bound: nat) returns (r: Resolution)
    requires Literals(targets, bound)
    ensures r == MembersOf(targets, name, seen, bound)
    decreases bound, 3, 0, 0
  {
    var requests: seq<Expr> := [];
    var complete := true;
    for i := 0 to |targets|
      invariant Resolution(requests, complete) == MembersOf(targets[..i], name, seen, bound)
    {
      var literal := targets[i];
      var found := GetResolvedObjectProperties(literal, name, seen, |literal.props|);
      var values := ResolveValues(found.properties, seen, bound);
      requests := requests + values.requests;
      complete := complete && found.complete && values.complete;
      assert targets[..i + 1][..i] == targets[..i];
    }
    assert targets[..|targets|] == targets;
    r := Resolution(requests, complete);
  }

  /** The member branch's inner loop over what the name can hit. */
  method ResolveValues(properties: seq<Option<Found>>, seen: set<(nat, string)>, ghost bound: nat) returns (r: Resolution)
    requires Definitions(properties, bound)
    ensures r == ValuesOf(properties, seen, bound)
    decreases bound, 2, 0, 0
  {
    r := Resolution([], true);
    for j := 0 to |properties|
      invariant r == ValuesOf(properties[..j], seen, bound)
    {
      assert properties[..j + 1][..j] == properties[..j];
      if properties[j].None? || properties[j].value.property.Method? {
        r := r.(complete := false);
      } else {
        var value := ResolveRequestObjects(properties[j].value.property.value, seen);
        r := Combine(r, value);
      }
    }
    assert properties[..|properties|] == properties;
  }

  method GetResolvedObjectProperties(literal: Expr, name: string, seen: set<(nat, string)>, end: nat) returns (r: Properties)
    requires literal.Obj? && end <= |literal.props|
    ensures r == Lookup(literal, name, seen, end)
    decreases Size(literal), 1, end, 0
  {
    var index: nat := end;
    while index > 0
      invariant index <= end
      invariant Lookup(literal, name, seen, index) == Lookup(literal, name, seen, end)
    {
      index := index - 1;
      var p := literal.props[index];
      PropSmaller(literal.props, index);
      if !p.Spread? {
        if StaticKey(p) == Some(name) {
          return Properties([Some(Found(p, literal))], true);
        }
        if p.key.ComputedOther? {
          var earlier := GetResolvedObjectProperties(literal, name, seen, index);
          return Properties(earlier.properties, false);
        }
      } else {
        if (p.start, name) in seen {
          return Properties([], false);
        }
        r := ThroughSpread(literal, name, seen, index);
        return r;
      }
    }
    r := Properties([None], true);
  }

  /** The spread branch of the lookup: `index` is the spread's place. */
  method ThroughSpread(literal: Expr, name: string, seen: set<(nat, string)>, index: nat) returns (r: Properties)
    requires literal.Obj? && index < |literal.props| && literal.props[index].Spread? && (literal.props[index].start, name) !in seen
    ensures r == Lookup(literal, name, seen, index + 1)
    decreases Size(literal), 1, index, 2
  {
    var p := literal.props[index];
    PropSmaller(literal.props, index);
    var nextSeen := seen + {(p.start, name)};
    var spread := ResolveRequestObjects(p.argument, nextSeen);
    if |spread.requests| == 0 {
      var earlier := GetResolvedObjectProperties(literal, name, nextSeen, index);
      return Properties(earlier.properties, false);
    }
    var hits := CollectHits(literal, name, nextSeen, index, spread.requests, Size(p.argument));
    r := Properties(hits.properties, spread.complete && hits.complete);
  }

  /** The spread branch's loop over the literals spread in, falling back to the entries before `index`. */
  method CollectHits(literal: Expr, name: string, seen: set<(nat, string)>, index: nat, requests: seq<Expr>, ghost bound: nat)
    returns (r: Properties)
    requires literal.Obj? && index < |literal.props| && Literals(requests, bound) && bound < Size(literal)
    ensures r == SpreadHits(requests, name, seen, Lookup(literal, name, seen, index), bound, Size(literal))
    decreases Size(literal), 1, index, 1
  {
    ghost var fallback := Lookup(literal, name, seen, index);
    r := Properties([], true);
    for i := 0 to |requests|
      invariant r == SpreadHits(requests[..i], name, seen, fallback, bound, Size(literal))
    {
      var request := requests[i];
      var found := GetResolvedObjectProperties(request, name, seen, |request.props|);
      ghost var before := r;
      var resolved: seq<Option<Found>> := [];
      var complete := true;
      for j := 0 to |found.properties|
        invariant Properties(resolved, complete) == FillAbsent(found.properties[..j], fallback, Size(literal))
      {
        assert found.properties[..j + 1][..j] == found.properties[..j];
        if found.properties[j].Some? {
          resolved := resolved + [found.properties[j]];
        } else {
          var earlier := GetResolvedObjectProperties(literal, name, seen, index);
          resolved := resolved + earlier.properties;
          complete := complete && earlier.complete;
        }
      }
      assert found.properties[..|found.properties|] == found.properties;
      assert requests[..i + 1][..i] == requests[..i];
      r := Properties(r.properties + resolved, r.complete && found.complete && complete);
    }
    assert requests[..|requests|] == requests;
  }
}
