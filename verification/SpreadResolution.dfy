/** Static resolution of object expressions: which literals an expression can yield, and which definition a name can hit. */
module SpreadResolution {
  import opened Wrappers
  import opened ObjectExpressions

  datatype Resolution = Resolution(requests: seq<Expr>, complete: bool)

  datatype Properties = Properties(properties: seq<Option<Found>>, complete: bool)

  function StaticKey(p: Prop): Option<string>
    requires !p.Spread?
  {
    match p.key
    case Plain(name) => Some(name)
    case Shorthand(name) => Some(name)
    case ComputedText(name) => Some(name)
    case Numeric(_) => None
    case ComputedOther(_) => None
  }

  function Combine(a: Resolution, b: Resolution): Resolution {
    Resolution(a.requests + b.requests, a.complete && b.complete)
  }

  /** Object literals no larger than `bound`. */
  predicate Literals(requests: seq<Expr>, bound: nat) {
    forall k :: 0 <= k < |requests| ==> requests[k].Obj? && Size(requests[k]) <= bound
  }

  /** Definitions whose values are smaller than `bound`. */
  predicate Definitions(properties: seq<Option<Found>>, bound: nat) {
    forall k :: 0 <= k < |properties| && properties[k].Some? ==>
      !properties[k].value.property.Spread? && PropSize(properties[k].value.property) < bound
  }

  /** The literals an expression can yield. */
  function Resolve(e: Expr, seen: set<(nat, string)>): (r: Resolution)
    ensures Literals(r.requests, Size(e))
    decreases Size(e), 0, 0
  {
    var current := Unwrap(e);
    match current
    case Obj(_, _) => Resolution([current], true)
    case Conditional(_, yes, no) => Combine(Resolve(yes, seen), Resolve(no, seen))
    case Logical(_, left, right) => Combine(Resolve(left, seen), Resolve(right, seen))
    case Member(target, access) =>
      if access.Dynamic? then Resolution([], false)
      else
        var targets := Resolve(target, seen);
        var members := MembersOf(targets.requests, access.name, seen, Size(target));
        Resolution(members.requests, targets.complete && members.complete)
    case Opaque(_) => Resolution([], false)
  }

  /** What a named member of each target can yield, in order. */
  function MembersOf(targets: seq<Expr>, name: string, seen: set<(nat, string)>, bound: nat): (r: Resolution)
    requires Literals(targets, bound)
    ensures Literals(r.requests, bound)
    decreases bound, 3, |targets|
  {
    if targets == [] then Resolution([], true)
    else
      var last := targets[|targets| - 1];
      var before := MembersOf(targets[..|targets| - 1], name, seen, bound);
      var found := Lookup(last, name, seen, |last.props|);
      var values := ValuesOf(found.properties, seen, bound);
      Resolution(before.requests + values.requests, before.complete && found.complete && values.complete)
  }

  /** What the values of definitions can yield; an absent property or a method yields nothing known. */
  function ValuesOf(properties: seq<Option<Found>>, seen: set<(nat, string)>, bound: nat): (r: Resolution)
    requires Definitions(properties, bound)
    ensures Literals(r.requests, bound)
    decreases bound, 2, |properties|
  {
    if properties == [] then Resolution([], true)
    else
      var last := properties[|properties| - 1];
      var before := ValuesOf(properties[..|properties| - 1], seen, bound);
      if last.None? || last.value.property.Method? then Resolution(before.requests, false)
      else Combine(before, Resolve(last.value.property.value, seen))
  }

  /** The definitions a name can hit among the first `end` entries of a literal. */
  function Lookup(literal: Expr, name: string, seen: set<(nat, string)>, end: nat): (r: Properties)
    requires literal.Obj? && end <= |literal.props|
    ensures Definitions(r.properties, Size(literal))
    decreases Size(literal), 1, end
  {
    if end == 0 then Properties([None], true)
    else
      var p := literal.props[end - 1];
      PropSmaller(literal.props, end - 1);
      if !p.Spread? then
        if StaticKey(p) == Some(name) then Properties([Some(Found(p, literal))], true)
        else if p.key.ComputedOther? then Properties(Lookup(literal, name, seen, end - 1).properties, false)
        else Lookup(literal, name, seen, end - 1)
      else if (p.start, name) in seen then Properties([], false)
      else
        var nextSeen := seen + {(p.start, name)};
        var spread := Resolve(p.argument, nextSeen);
        var earlier := Lookup(literal, name, nextSeen, end - 1);
        if spread.requests == [] then Properties(earlier.properties, false)
        else
          var found := SpreadHits(spread.requests, name, nextSeen, earlier, Size(p.argument), Size(literal));
          Properties(found.properties, spread.complete && found.complete)
  }

  /** The definitions a name can hit through any of the literals spread in, or before the spread where one lacks it. */
  function SpreadHits(requests: seq<Expr>, name: string, seen: set<(nat, string)>, earlier: Properties, bound: nat, limit: nat): (r: Properties)
    requires Literals(requests, bound) && bound <= limit && Definitions(earlier.properties, limit)
    ensures Definitions(r.properties, limit)
    decreases bound, 3, |requests|
  {
    if requests == [] then Properties([], true)
    else
      var last := requests[|requests| - 1];
      var before := SpreadHits(requests[..|requests| - 1], name, seen, earlier, bound, limit);
      var found := Lookup(last, name, seen, |last.props|);
      var filled := FillAbsent(found.properties, earlier, limit);
      Properties(before.properties + filled.properties, before.complete && found.complete && filled.complete)
  }

  /** Each absent hit stands for whatever the name hit earlier. */
  function FillAbsent(properties: seq<Option<Found>>, earlier: Properties, limit: nat): (r: Properties)
    requires Definitions(properties, limit) && Definitions(earlier.properties, limit)
    ensures Definitions(r.properties, limit)
  {
    if properties == [] then Properties([], true)
    else
      var last := properties[|properties| - 1];
      var before := FillAbsent(properties[..|properties| - 1], earlier, limit);
      if last.Some? then Properties(before.properties + [last], before.complete)
      else Properties(before.properties + earlier.properties, before.complete && earlier.complete)
  }
}
