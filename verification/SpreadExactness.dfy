/**
 * Exactly what resolution returns, complete or not, on expressions whose spreads stand at different positions.
 *
 * The relations below say what an expression can yield and what a name can hit, with no lists and no guard against
 * revisiting a spread.
 */
module SpreadExactness {
  import opened Wrappers
  import opened ObjectExpressions
  import opened SpreadResolution

  // ----- what can be reached -----

  /** Some choice of branches, and of what members and spreads hit, makes the value of `e` the literal `l`. */
  ghost predicate CanYield(e: Expr, l: Expr)
    decreases Size(e), 0
  {
    match e
    case Obj(_, _) => l == e
    case Wrapped(inner) => CanYield(inner, l)
    case Conditional(_, yes, no) => CanYield(yes, l) || CanYield(no, l)
    case Logical(_, left, right) => CanYield(left, l) || CanYield(right, l)
    case Member(target, access) =>
      access.StaticName? && MemberYields(target, access.name, l)
    case Opaque(_) => false
  }

  ghost predicate MemberYields(target: Expr, name: string, l: Expr)
    decreases Size(target), 4
  {
    exists t: Expr, f: Found :: MemberVia(target, name, t, f) && CanYield(f.property.value, l)
  }

  /** The target can be `t`, whose member the name can hit at the definition `f` of a value. */
  ghost predicate MemberVia(target: Expr, name: string, t: Expr, f: Found)
    ensures MemberVia(target, name, t, f) ==> f.property.Property? && Size(f.property.value) < Size(target)
    decreases Size(target), 3
  {
    && t.Obj? && Size(t) <= Size(target) && f.property.Property? && Size(f.property.value) < Size(target)
    && CanYield(target, t) && CanHit(t, name, |t.props|, Some(f))
  }

  /** Reading the first `end` entries of a literal, the name can be defined last by `hit`, or by none of them. */
  ghost predicate CanHit(literal: Expr, name: string, end: nat, hit: Option<Found>)
    requires literal.Obj? && end <= |literal.props|
    decreases Size(literal), 1, end
  {
    if end == 0 then hit == None
    else
      var p := literal.props[end - 1];
      PropSmaller(literal.props, end - 1);
      if !p.Spread? then
        if StaticKey(p) == Some(name) then hit == Some(Found(p, literal)) else CanHit(literal, name, end - 1, hit)
      else if exists l :: SpreadsIn(p, l) then
        exists l, inner :: SpreadsIn(p, l) && CanHit(l, name, |l.props|, inner)
                           && if inner.Some? then hit == inner else CanHit(literal, name, end - 1, hit)
      else CanHit(literal, name, end - 1, hit)
  }

  /** The spread's argument can be this literal. */
  ghost predicate SpreadsIn(p: Prop, l: Expr)
    requires p.Spread?
    ensures SpreadsIn(p, l) ==> l.Obj? && Size(l) <= PropSize(p)
    decreases PropSize(p), 1
  {
    l.Obj? && Size(l) <= Size(p.argument) && CanYield(p.argument, l)
  }

  // ----- what is all that can be reached -----

  /** Nothing but literals can come of `e`. */
  ghost predicate Sure(e: Expr)
    decreases Size(e), 0
  {
    match e
    case Obj(_, _) => true
    case Wrapped(inner) => Sure(inner)
    case Conditional(_, yes, no) => Sure(yes) && Sure(no)
    case Logical(_, left, right) => Sure(left) && Sure(right)
    case Member(target, access) =>
      access.StaticName? && Sure(target)
      && forall t: Expr :: t.Obj? && Size(t) <= Size(target) && CanYield(target, t) ==> SureMember(t, access.name)
    case Opaque(_) => false
  }

  /** Every definition of the name in `t` is of a value, and a sure one. */
  ghost predicate SureMember(t: Expr, name: string)
    requires t.Obj?
    decreases Size(t), 2
  {
    && SureHit(t, name, |t.props|)
    && forall hit :: CanHit(t, name, |t.props|, hit) ==>
         hit.Some? && hit.value.property.Property? && Size(hit.value.property.value) < Size(t) && Sure(hit.value.property.value)
  }

  /** No computed key or spread among the first `end` entries hides a definition of the name. */
  ghost predicate SureHit(literal: Expr, name: string, end: nat)
    requires literal.Obj? && end <= |literal.props|
    decreases Size(literal), 1, end
  {
    if end == 0 then true
    else
      var p := literal.props[end - 1];
      PropSmaller(literal.props, end - 1);
      if !p.Spread? then StaticKey(p) == Some(name) || (!p.key.ComputedOther? && SureHit(literal, name, end - 1))
      else
        && (exists l :: SpreadsIn(p, l)) && Sure(p.argument)
        && (forall l :: SpreadsIn(p, l) ==> SureHit(l, name, |l.props|))
        && ((exists l :: SpreadsIn(p, l) && CanHit(l, name, |l.props|, None)) ==> SureHit(literal, name, end - 1))
  }

  // ----- spreads at different positions -----

  /** The positions of the spreads anywhere in an expression but in tests. */
  function Positions(e: Expr): set<nat>
    decreases Size(e), 1
  {
    match e
    case Obj(_, props) => set i, s | 0 <= i < |props| && s in PositionsAt(e, i) :: s
    case Wrapped(inner) => Positions(inner)
    case Conditional(_, yes, no) => Positions(yes) + Positions(no)
    case Logical(_, left, right) => Positions(left) + Positions(right)
    case Member(target, _) => Positions(target)
    case Opaque(_) => {}
  }

  function PositionsAt(literal: Expr, i: nat): set<nat>
    requires literal.Obj? && i < |literal.props|
    decreases Size(literal), 0
  {
    PropSmaller(literal.props, i);
    match literal.props[i]
    case Property(_, value) => Positions(value)
    case Method(_) => {}
    case Spread(start, argument) => {start} + Positions(argument)
  }

  /** Every spread stands at a position of its own: none of those in its argument, nor of an entry before it. */
  ghost predicate Placed(e: Expr)
    decreases Size(e), 1
  {
    match e
    case Obj(_, props) =>
      && (forall i :: 0 <= i < |props| ==> PlacedAt(e, i))
      && (forall i, j :: 0 <= i < j < |props| && props[j].Spread? ==> props[j].start !in PositionsAt(e, i))
    case Wrapped(inner) => Placed(inner)
    case Conditional(_, yes, no) => Placed(yes) && Placed(no)
    case Logical(_, left, right) => Placed(left) && Placed(right)
    case Member(target, _) => Placed(target)
    case Opaque(_) => true
  }

  ghost predicate PlacedAt(literal: Expr, i: nat)
    requires literal.Obj? && i < |literal.props|
    decreases Size(literal), 0
  {
    PropSmaller(literal.props, i);
    match literal.props[i]
    case Property(_, value) => Placed(value)
    case Method(_) => true
    case Spread(start, argument) => Placed(argument) && start !in Positions(argument)
  }

  /** `part` is a placed expression whose spreads are among these. */
  ghost predicate Part(part: Expr, positions: set<nat>) {
    Placed(part) && Positions(part) <= positions
  }

  lemma EntryIsPart(literal: Expr, i: nat)
    requires literal.Obj? && i < |literal.props| && Placed(literal)
    ensures PositionsAt(literal, i) <= Positions(literal) && PlacedAt(literal, i)
  {
    forall s | s in PositionsAt(literal, i) ensures s in Positions(literal) {}
  }

  /** What an expression yields is a literal in it. */
  lemma {:induction false} YieldIsPart(e: Expr, l: Expr)
    requires Placed(e) && CanYield(e, l)
    ensures l.Obj? && Size(l) <= Size(e) && Part(l, Positions(e))
    decreases Size(e), 0
  {
    match e
    case Obj(_, _) =>
    case Wrapped(inner) => YieldIsPart(inner, l);
    case Conditional(_, yes, no) => if CanYield(yes, l) { YieldIsPart(yes, l); } else { YieldIsPart(no, l); }
    case Logical(_, left, right) => if CanYield(left, l) { YieldIsPart(left, l); } else { YieldIsPart(right, l); }
    case Member(target, access) =>
      assert MemberYields(target, access.name, l);
      var t: Expr, f: Found :| MemberVia(target, access.name, t, f) && CanYield(f.property.value, l);
      YieldIsPart(target, t);
      HitIsPart(t, access.name, |t.props|, f);
      YieldIsPart(f.property.value, l);
    case Opaque(_) =>
  }

  /** What a name hits in a literal is a definition in it. */
  lemma {:induction false} HitIsPart(literal: Expr, name: string, end: nat, f: Found)
    requires literal.Obj? && end <= |literal.props| && Placed(literal) && CanHit(literal, name, end, Some(f))
    ensures f.property.Property? ==> Part(f.property.value, Positions(literal)) && Size(f.property.value) < Size(literal)
    decreases Size(literal), 1, end
  {
    var p := literal.props[end - 1];
    PropSmaller(literal.props, end - 1);
    EntryIsPart(literal, end - 1);
    if !p.Spread? {
      if StaticKey(p) != Some(name) { HitIsPart(literal, name, end - 1, f); }
    } else if exists l :: SpreadsIn(p, l) {
      var l, inner :| SpreadsIn(p, l) && CanHit(l, name, |l.props|, inner)
                      && if inner.Some? then Some(f) == inner else CanHit(literal, name, end - 1, Some(f));
      if inner.Some? {
        YieldIsPart(p.argument, l);
        HitIsPart(l, name, |l.props|, f);
      } else {
        HitIsPart(literal, name, end - 1, f);
      }
    } else {
      HitIsPart(literal, name, end - 1, f);
    }
  }

  ghost predicate Unseen(seen: set<(nat, string)>, positions: set<nat>) {
    forall s :: s in seen ==> s.0 !in positions
  }

  /** The spreads of the first `end` entries have not been seen. */
  ghost predicate UnseenTo(seen: set<(nat, string)>, literal: Expr, end: nat)
    requires literal.Obj? && end <= |literal.props|
  {
    forall i :: 0 <= i < end ==> Unseen(seen, PositionsAt(literal, i))
  }

  lemma UnseenAll(seen: set<(nat, string)>, literal: Expr, positions: set<nat>)
    requires literal.Obj? && Part(literal, positions) && Unseen(seen, positions)
    ensures UnseenTo(seen, literal, |literal.props|)
  {
    forall i | 0 <= i < |literal.props| ensures Unseen(seen, PositionsAt(literal, i)) { EntryIsPart(literal, i); }
  }

  lemma {:induction false} UnwrapPlaced(e: Expr)
    requires Placed(e)
    ensures Placed(Unwrap(e)) && Positions(Unwrap(e)) == Positions(e)
    ensures forall l :: CanYield(Unwrap(e), l) <==> CanYield(e, l)
    ensures Sure(Unwrap(e)) <==> Sure(e)
    decreases e
  {
    if e.Wrapped? {
      UnwrapPlaced(e.inner);
    }
  }

  // ----- exactly that is returned -----

  /** The literals resolved are those that can be yielded, and resolution is complete just when they are all there is. */
  ghost predicate YieldsExactly(e: Expr, r: Resolution) {
    && (forall l :: l in r.requests <==> CanYield(e, l))
    && (r.complete <==> Sure(e))
  }

  /** The definitions found are those the name can hit, absence among them, and the lookup is complete just when none is hidden. */
  ghost predicate HitsExactly(literal: Expr, name: string, end: nat, r: Properties)
    requires literal.Obj? && end <= |literal.props|
  {
    && (forall hit :: hit in r.properties <==> CanHit(literal, name, end, hit))
    && (r.complete <==> SureHit(literal, name, end))
  }

  ghost predicate Parts(requests: seq<Expr>, positions: set<nat>) {
    forall k :: 0 <= k < |requests| ==> Part(requests[k], positions)
  }

  ghost predicate ValueParts(properties: seq<Option<Found>>, positions: set<nat>) {
    forall k :: 0 <= k < |properties| && properties[k].Some? && properties[k].value.property.Property? ==>
      Part(properties[k].value.property.value, positions)
  }

  lemma InFrontOrLast<T(!new)>(s: seq<T>, x: T)
    requires s != []
    ensures x in s <==> x in s[..|s| - 1] || x == s[|s| - 1]
  {
    assert s == s[..|s| - 1] + [s[|s| - 1]];
  }

  lemma {:induction false} ResolveExact(e: Expr, seen: set<(nat, string)>)
    requires Placed(e) && Unseen(seen, Positions(e))
    ensures YieldsExactly(e, Resolve(e, seen))
    decreases Size(e), 0, 0
  {
    var current := Unwrap(e);
    UnwrapPlaced(e);
    match current
    case Obj(_, _) =>
    case Conditional(_, yes, no) =>
      ResolveExact(yes, seen);
      ResolveExact(no, seen);
    case Logical(_, left, right) =>
      ResolveExact(left, seen);
      ResolveExact(right, seen);
    case Member(target, access) =>
      if access.StaticName? {
        MemberExact(current, seen);
      }
    case Opaque(_) =>
  }

  lemma {:induction false} MemberExact(e: Expr, seen: set<(nat, string)>)
    requires e.Member? && e.access.StaticName? && Placed(e) && Unseen(seen, Positions(e))
    ensures YieldsExactly(e, Resolve(e, seen))
    decreases Size(e), 0, 0, 0
  {
    var target, name := e.target, e.access.name;
    ResolveExact(target, seen);
    var targets := Resolve(target, seen);
    forall k | 0 <= k < |targets.requests| ensures Part(targets.requests[k], Positions(target)) {
      assert targets.requests[k] in targets.requests;
      YieldIsPart(target, targets.requests[k]);
    }
    MembersExact(targets.requests, name, seen, Size(target), Positions(target));
    var members := MembersOf(targets.requests, name, seen, Size(target));
    hide Placed, Positions, MembersOf, SureMember;
    forall l ensures l in members.requests <==> CanYield(e, l) {
      MemberYieldsIs(e, targets.requests, l);
    }
    assert members.complete && targets.complete <==> Sure(e) by {
      forall t: Expr | CanYield(target, t) ensures t.Obj? && Size(t) <= Size(target) { YieldIsPart(target, t); }
    }
  }

  /** Some member of these literals yields `l`. */
  ghost predicate MembersYield(targets: seq<Expr>, name: string, l: Expr)
    requires forall t :: t in targets ==> t.Obj?
  {
    exists t, f :: t in targets && CanHit(t, name, |t.props|, Some(f)) && f.property.Property? && CanYield(f.property.value, l)
  }

  lemma MemberYieldsIs(e: Expr, targets: seq<Expr>, l: Expr)
    requires e.Member? && e.access.StaticName? && Placed(e) && (forall t :: t in targets <==> CanYield(e.target, t))
    requires forall t :: t in targets ==> t.Obj?
    ensures MembersYield(targets, e.access.name, l) <==> CanYield(e, l)
  {
    if MembersYield(targets, e.access.name, l) {
      var t, f :| t in targets && CanHit(t, e.access.name, |t.props|, Some(f)) && f.property.Property? && CanYield(f.property.value, l);
      YieldIsPart(e.target, t);
      HitIsPart(t, e.access.name, |t.props|, f);
      assert MemberVia(e.target, e.access.name, t, f);
    }
    assert CanYield(e, l) <==> MemberYields(e.target, e.access.name, l);
    if CanYield(e, l) {
      var t: Expr, f: Found :| MemberVia(e.target, e.access.name, t, f) && CanYield(f.property.value, l);
      assert t in targets && CanHit(t, e.access.name, |t.props|, Some(f));
    }
  }

  lemma {:induction false} MembersExact(targets: seq<Expr>, name: string, seen: set<(nat, string)>, bound: nat, positions: set<nat>)
    requires Literals(targets, bound) && Parts(targets, positions) && Unseen(seen, positions)
    ensures var r := MembersOf(targets, name, seen, bound);
            && (forall l :: l in r.requests <==> MembersYield(targets, name, l))
            && (r.complete <==> forall t :: t in targets ==> SureMember(t, name))
    decreases bound, 3, |targets|
  {
    if targets != [] {
      var last := targets[|targets| - 1];
      var rest := targets[..|targets| - 1];
      MembersExact(rest, name, seen, bound, positions);
      UnseenAll(seen, last, positions);
      LookupExact(last, name, seen, |last.props|);
      var found := Lookup(last, name, seen, |last.props|);
      forall k | 0 <= k < |found.properties| && found.properties[k].Some? && found.properties[k].value.property.Property?
        ensures Part(found.properties[k].value.property.value, positions)
      {
        assert found.properties[k] in found.properties;
        HitIsPart(last, name, |last.props|, found.properties[k].value);
      }
      ValuesExact(found.properties, seen, bound, positions);
      var values := ValuesOf(found.properties, seen, bound);
      forall l ensures l in MembersOf(targets, name, seen, bound).requests <==> MembersYield(targets, name, l) {
        OneMoreTarget(targets, name, found.properties, l);
      }
      SureMemberIs(last, name, found);
      hide SureMember, Lookup, ValuesOf, Part;
      forall t ensures t in targets <==> t in rest || t == last { InFrontOrLast(targets, t); }
    }
  }

  lemma OneMoreTarget(targets: seq<Expr>, name: string, properties: seq<Option<Found>>, l: Expr)
    requires targets != [] && forall t :: t in targets ==> t.Obj?
    requires var last := targets[|targets| - 1]; forall hit :: hit in properties <==> CanHit(last, name, |last.props|, hit)
    ensures forall t :: t in targets[..|targets| - 1] ==> t.Obj?
    ensures MembersYield(targets, name, l) <==> MembersYield(targets[..|targets| - 1], name, l) || ValueYields(properties, l)
  {
    var last, rest := targets[|targets| - 1], targets[..|targets| - 1];
    forall t ensures t in targets <==> t in rest || t == last { InFrontOrLast(targets, t); }
    if ValueYields(properties, l) {
      var f :| Some(f) in properties && f.property.Property? && CanYield(f.property.value, l);
      assert last in targets && CanHit(last, name, |last.props|, Some(f));
    }
    if MembersYield(targets, name, l) {
      var t, f :| t in targets && CanHit(t, name, |t.props|, Some(f)) && f.property.Property? && CanYield(f.property.value, l);
      if t == last { assert Some(f) in properties; } else { assert t in rest; }
    }
  }

  lemma SureMemberIs(t: Expr, name: string, found: Properties)
    requires t.Obj? && Placed(t) && HitsExactly(t, name, |t.props|, found)
    ensures SureMember(t, name) <==> found.complete && SureValues(found.properties)
  {
    forall hit | hit in found.properties && hit.Some? && hit.value.property.Property? ensures Size(hit.value.property.value) < Size(t) {
      HitIsPart(t, name, |t.props|, hit.value);
    }
  }

  /** One of these definitions yields `l`. */
  ghost predicate ValueYields(properties: seq<Option<Found>>, l: Expr) {
    exists f :: Some(f) in properties && f.property.Property? && CanYield(f.property.value, l)
  }

  ghost predicate SureValues(properties: seq<Option<Found>>) {
    forall hit :: hit in properties ==> hit.Some? && hit.value.property.Property? && Sure(hit.value.property.value)
  }

  lemma {:induction false} ValuesExact(properties: seq<Option<Found>>, seen: set<(nat, string)>, bound: nat, positions: set<nat>)
    requires Definitions(properties, bound) && ValueParts(properties, positions) && Unseen(seen, positions)
    ensures var r := ValuesOf(properties, seen, bound);
            && (forall l :: l in r.requests <==> ValueYields(properties, l))
            && (r.complete <==> SureValues(properties))
    decreases bound, 2, |properties|
  {
    if properties != [] {
      var last := properties[|properties| - 1];
      var rest := properties[..|properties| - 1];
      ValuesExact(rest, seen, bound, positions);
      if last.Some? && last.value.property.Property? {
        assert Part(properties[|properties| - 1].value.property.value, positions);
        ResolveExact(last.value.property.value, seen);
      }
      forall hit ensures hit in properties <==> hit in rest || hit == last { InFrontOrLast(properties, hit); }
      forall l ensures ValueYields(properties, l) <==>
                       ValueYields(rest, l) || (last.Some? && last.value.property.Property? && CanYield(last.value.property.value, l))
      {
        OneMoreValue(properties, l);
      }
    }
  }

  lemma OneMoreValue(properties: seq<Option<Found>>, l: Expr)
    requires properties != []
    ensures var last := properties[|properties| - 1];
            ValueYields(properties, l) <==>
            ValueYields(properties[..|properties| - 1], l)
            || (last.Some? && last.value.property.Property? && CanYield(last.value.property.value, l))
  {
    var last, rest := properties[|properties| - 1], properties[..|properties| - 1];
    forall hit ensures hit in properties <==> hit in rest || hit == last { InFrontOrLast(properties, hit); }
    hide CanYield;
    if last.Some? && last.value.property.Property? && CanYield(last.value.property.value, l) {
      assert Some(last.value) in properties;
    }
  }

  lemma {:induction false} LookupExact(literal: Expr, name: string, seen: set<(nat, string)>, end: nat)
    requires literal.Obj? && end <= |literal.props| && Placed(literal) && UnseenTo(seen, literal, end)
    ensures HitsExactly(literal, name, end, Lookup(literal, name, seen, end))
    decreases Size(literal), 1, end
  {
    if end > 0 {
      var p := literal.props[end - 1];
      PropSmaller(literal.props, end - 1);
      if !p.Spread? {
        if StaticKey(p) != Some(name) { LookupExact(literal, name, seen, end - 1); }
      } else {
        SpreadExact(literal, name, seen, end);
      }
    }
  }

  lemma {:induction false} SpreadExact(literal: Expr, name: string, seen: set<(nat, string)>, end: nat)
    requires literal.Obj? && 0 < end <= |literal.props| && literal.props[end - 1].Spread?
    requires Placed(literal) && UnseenTo(seen, literal, end)
    ensures HitsExactly(literal, name, end, Lookup(literal, name, seen, end))
    decreases Size(literal), 1, end, 0
  {
    var p := literal.props[end - 1];
    PropSmaller(literal.props, end - 1);
    EntryIsPart(literal, end - 1);
    assert p.start in PositionsAt(literal, end - 1);
    assert Unseen(seen, PositionsAt(literal, end - 1));
    var nextSeen := seen + {(p.start, name)};
    forall i | 0 <= i < end - 1 ensures Unseen(nextSeen, PositionsAt(literal, i)) {
      assert Unseen(seen, PositionsAt(literal, i));
    }
    ResolveExact(p.argument, nextSeen);
    LookupExact(literal, name, nextSeen, end - 1);
    var spread, earlier := Resolve(p.argument, nextSeen), Lookup(literal, name, nextSeen, end - 1);
    forall k | 0 <= k < |spread.requests| ensures Part(spread.requests[k], Positions(p.argument)) {
      assert spread.requests[k] in spread.requests;
      YieldIsPart(p.argument, spread.requests[k]);
    }
    forall l ensures l in spread.requests <==> SpreadsIn(p, l) {
      if CanYield(p.argument, l) { YieldIsPart(p.argument, l); }
    }
    if spread.requests != [] {
      assert spread.requests[0] in spread.requests;
      HitsExact(spread.requests, name, nextSeen, earlier, Size(p.argument), Size(literal), Positions(p.argument));
      SpreadIs(literal, name, end, spread, earlier,
               SpreadHits(spread.requests, name, nextSeen, earlier, Size(p.argument), Size(literal)), Lookup(literal, name, seen, end));
    }
  }

  /** What the hits through a spread come to in the relations. */
  lemma SpreadIs(literal: Expr, name: string, end: nat, spread: Resolution, earlier: Properties, hits: Properties, r: Properties)
    requires literal.Obj? && 0 < end <= |literal.props| && literal.props[end - 1].Spread? && spread.requests != []
    requires var p := literal.props[end - 1];
             YieldsExactly(p.argument, spread) && forall l :: l in spread.requests <==> SpreadsIn(p, l)
    requires HitsExactly(literal, name, end - 1, earlier)
    requires forall hit :: hit in hits.properties <==> HitVia(spread.requests, name, earlier.properties, hit)
    requires hits.complete <==> forall l :: l in spread.requests ==> SureVia(l, name, earlier.complete)
    requires r == Properties(hits.properties, spread.complete && hits.complete)
    ensures HitsExactly(literal, name, end, r)
  {
    var p := literal.props[end - 1];
    assert spread.requests[0] in spread.requests;
    forall hit ensures hit in hits.properties <==> CanHit(literal, name, end, hit) {
      if hit in hits.properties {
        var l, inner :| l in spread.requests && CanHit(l, name, |l.props|, inner) && if inner.Some? then hit == inner else hit in earlier.properties;
        assert SpreadsIn(p, l);
      }
      if CanHit(literal, name, end, hit) {
        var l, inner :| SpreadsIn(p, l) && CanHit(l, name, |l.props|, inner)
                        && if inner.Some? then hit == inner else CanHit(literal, name, end - 1, hit);
        assert l in spread.requests;
      }
    }
  }

  ghost predicate HitVia(requests: seq<Expr>, name: string, earlier: seq<Option<Found>>, hit: Option<Found>)
    requires forall l :: l in requests ==> l.Obj?
  {
    exists l, inner :: l in requests && CanHit(l, name, |l.props|, inner) && if inner.Some? then hit == inner else hit in earlier
  }

  ghost predicate SureVia(l: Expr, name: string, earlier: bool)
    requires l.Obj?
  {
    SureHit(l, name, |l.props|) && (CanHit(l, name, |l.props|, None) ==> earlier)
  }

  lemma {:induction false} HitsExact(requests: seq<Expr>, name: string, seen: set<(nat, string)>, earlier: Properties, bound: nat,
                                     limit: nat, positions: set<nat>)
    requires Literals(requests, bound) && bound <= limit && Definitions(earlier.properties, limit)
    requires Parts(requests, positions) && Unseen(seen, positions)
    ensures var r := SpreadHits(requests, name, seen, earlier, bound, limit);
            && (forall hit :: hit in r.properties <==> HitVia(requests, name, earlier.properties, hit))
            && (r.complete <==> forall l :: l in requests ==> SureVia(l, name, earlier.complete))
    decreases bound, 3, |requests|
  {
    if requests != [] {
      var last := requests[|requests| - 1];
      var rest := requests[..|requests| - 1];
      HitsExact(rest, name, seen, earlier, bound, limit, positions);
      UnseenAll(seen, last, positions);
      LookupExact(last, name, seen, |last.props|);
      var found := Lookup(last, name, seen, |last.props|);
      FillExact(found.properties, earlier, limit);
      assert SureVia(last, name, earlier.complete) <==> found.complete && (None in found.properties ==> earlier.complete);
      hide Lookup, FillAbsent, Part;
      forall l ensures l in requests <==> l in rest || l == last { InFrontOrLast(requests, l); }
      forall hit ensures HitVia(requests, name, earlier.properties, hit) <==>
                         HitVia(rest, name, earlier.properties, hit) || Filled(found.properties, earlier.properties, hit)
      {
        OneMoreRequest(requests, name, found.properties, earlier.properties, hit);
      }
    }
  }

  lemma OneMoreRequest(requests: seq<Expr>, name: string, found: seq<Option<Found>>, earlier: seq<Option<Found>>, hit: Option<Found>)
    requires requests != [] && forall l :: l in requests ==> l.Obj?
    requires var last := requests[|requests| - 1]; forall h :: h in found <==> CanHit(last, name, |last.props|, h)
    ensures forall l :: l in requests[..|requests| - 1] ==> l.Obj?
    ensures HitVia(requests, name, earlier, hit) <==> HitVia(requests[..|requests| - 1], name, earlier, hit) || Filled(found, earlier, hit)
  {
    var last, rest := requests[|requests| - 1], requests[..|requests| - 1];
    forall l ensures l in requests <==> l in rest || l == last { InFrontOrLast(requests, l); }
    if Filled(found, earlier, hit) {
      var inner :| inner in found && if inner.Some? then hit == inner else hit in earlier;
      assert last in requests && CanHit(last, name, |last.props|, inner);
    }
    if HitVia(requests, name, earlier, hit) {
      var l, inner :| l in requests && CanHit(l, name, |l.props|, inner) && if inner.Some? then hit == inner else hit in earlier;
      if l == last { assert inner in found; } else { assert l in rest; }
    }
  }

  /** One of these hits, or an earlier one where they are absent. */
  ghost predicate Filled(properties: seq<Option<Found>>, earlier: seq<Option<Found>>, hit: Option<Found>) {
    exists inner :: inner in properties && if inner.Some? then hit == inner else hit in earlier
  }

  lemma {:induction false} FillExact(properties: seq<Option<Found>>, earlier: Properties, limit: nat)
    requires Definitions(properties, limit) && Definitions(earlier.properties, limit)
    ensures var r := FillAbsent(properties, earlier, limit);
            && (forall hit :: hit in r.properties <==> Filled(properties, earlier.properties, hit))
            && (r.complete <==> (None in properties ==> earlier.complete))
    decreases |properties|
  {
    if properties != [] {
      var last := properties[|properties| - 1];
      var rest := properties[..|properties| - 1];
      FillExact(rest, earlier, limit);
      forall inner ensures inner in properties <==> inner in rest || inner == last { InFrontOrLast(properties, inner); }
    }
  }

  // ----- a definition with other entries after it -----

  /** An expression resolution can make nothing of, whichever branch is taken. */
  predicate Unreadable(e: Expr) {
    match e
    case Obj(_, _) => false
    case Wrapped(inner) => Unreadable(inner)
    case Conditional(_, yes, no) => Unreadable(yes) && Unreadable(no)
    case Logical(_, left, right) => Unreadable(left) && Unreadable(right)
    case Member(_, access) => access.Dynamic?
    case Opaque(_) => true
  }

  lemma {:induction false} UnreadableYieldsNothing(e: Expr, seen: set<(nat, string)>)
    requires Unreadable(e)
    ensures Resolve(e, seen) == Resolution([], false)
    decreases Size(e)
  {
    match e
    case Obj(_, _) =>
    case Wrapped(inner) => UnreadableYieldsNothing(inner, seen);
    case Conditional(_, yes, no) =>
      UnreadableYieldsNothing(yes, seen);
      UnreadableYieldsNothing(no, seen);
    case Logical(_, left, right) =>
      UnreadableYieldsNothing(left, seen);
      UnreadableYieldsNothing(right, seen);
    case Member(_, _) =>
    case Opaque(_) =>
  }

  /** An entry whose own name is known not to be this one. */
  predicate OtherName(p: Prop, name: string) {
    !p.Spread? && StaticKey(p) != Some(name) && !p.key.ComputedOther?
  }

  /** An entry that may or may not define the name. */
  predicate MayHide(p: Prop) {
    if p.Spread? then Unreadable(p.argument) else p.key.ComputedOther?
  }

  /**
   * A definition followed only by other names, computed keys and spreads nothing is known of is still what a lookup finds,
   * and surely so exactly when nothing after it may hide it.
   */
  lemma {:induction false} LaterEntriesKeepIt(literal: Expr, name: string, seen: set<(nat, string)>, k: nat, end: nat)
    requires literal.Obj? && k < end <= |literal.props|
    requires !literal.props[k].Spread? && StaticKey(literal.props[k]) == Some(name)
    requires forall j :: k < j < end ==> OtherName(literal.props[j], name) || MayHide(literal.props[j])
    requires forall j :: k < j < end && literal.props[j].Spread? ==> (literal.props[j].start, name) !in seen
    requires forall i, j :: k < i < j < end && literal.props[i].Spread? && literal.props[j].Spread? ==>
               literal.props[i].start != literal.props[j].start
    ensures Lookup(literal, name, seen, end).properties == [Some(Found(literal.props[k], literal))]
    ensures Lookup(literal, name, seen, end).complete <==> forall j :: k < j < end ==> OtherName(literal.props[j], name)
    decreases end
  {
    if end > k + 1 {
      var p := literal.props[end - 1];
      PropSmaller(literal.props, end - 1);
      if p.Spread? {
        var nextSeen := seen + {(p.start, name)};
        LaterEntriesKeepIt(literal, name, nextSeen, k, end - 1);
        UnreadableYieldsNothing(p.argument, nextSeen);
      } else {
        LaterEntriesKeepIt(literal, name, seen, k, end - 1);
      }
    }
  }
}
