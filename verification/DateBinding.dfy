/** Which names are Dates: the scoped fixpoint over declarations, and that it is the least one. */
module DateBinding {
  import opened Wrappers

  type Name = string

  datatype TypeNode = Annotation(inner: TypeNode) | Union(types: seq<TypeNode>) | Reference(name: Name) | OtherType

  datatype Expr =
    | New(callee: Name)
    | Identifier(name: Name)
    | Conditional(test: Expr, consequent: Expr, alternate: Expr)
    | Logical(left: Expr, right: Expr)
    | Wrapped(inner: Expr)
    | Other

  /** A scope knows every name it binds; `dateNames`, kept beside it, says which of them are Dates. */
  datatype Scope = Scope(parent: Option<nat>, localNames: set<Name>)

  datatype Candidate = Candidate(scope: nat, name: Name, annotation: TypeNode, init: Expr)

  datatype Program = Program(scopes: seq<Scope>, candidates: seq<Candidate>)

  /** What the visitor builds: scopes after their parents, and every candidate among its scope's local names. */
  ghost predicate Built(p: Program) {
    && (forall s :: 0 <= s < |p.scopes| ==> p.scopes[s].parent.Some? ==> p.scopes[s].parent.value < s)
    && (forall c :: c in p.candidates ==> c.scope < |p.scopes| && c.name in p.scopes[c.scope].localNames)
  }

  type Dates = seq<set<Name>>

  // ----- the predicates the fixpoint is built from -----

  function IsDateAnnotation(t: TypeNode): bool {
    match t
    case Annotation(inner) => IsDateAnnotation(inner)
    case Union(types) => exists k :: 0 <= k < |types| && IsDateAnnotation(types[k])
    case Reference(name) => name == "Date"
    case OtherType => false
  }

  /** The nearest scope that binds the name decides; a name not yet proven a Date blocks the walk. */
  predicate IsDateName(p: Program, dates: Dates, scope: nat, name: Name)
    requires Built(p) && |dates| == |p.scopes| && scope < |p.scopes|
    decreases scope
  {
    name in dates[scope]
    || (name !in p.scopes[scope].localNames && p.scopes[scope].parent.Some?
        && IsDateName(p, dates, p.scopes[scope].parent.value, name))
  }

  predicate IsDateExpression(p: Program, dates: Dates, scope: nat, e: Expr)
    requires Built(p) && |dates| == |p.scopes| && scope < |p.scopes|
  {
    match e
    case New(callee) => callee == "Date"
    case Identifier(name) => IsDateName(p, dates, scope, name)
    case Conditional(_, yes, no) => IsDateExpression(p, dates, scope, yes) || IsDateExpression(p, dates, scope, no)
    case Logical(left, right) => IsDateExpression(p, dates, scope, left) || IsDateExpression(p, dates, scope, right)
    case Wrapped(inner) => IsDateExpression(p, dates, scope, inner)
    case Other => false
  }

  predicate IsDateCandidate(p: Program, dates: Dates, c: Candidate)
    requires Built(p) && |dates| == |p.scopes| && c.scope < |p.scopes|
  {
    IsDateAnnotation(c.annotation) || IsDateExpression(p, dates, c.scope, c.init)
  }

  method HasDateName(p: Program, dates: array<set<Name>>, scope: nat, name: Name) returns (found: bool)
    requires Built(p) && dates.Length == |p.scopes| && scope < |p.scopes|
    ensures found <==> IsDateName(p, dates[..], scope, name)
  {
    var current: Option<nat> := Some(scope);
    while current.Some?
      invariant current.Some? ==> current.value < |p.scopes|
      invariant IsDateName(p, dates[..], scope, name) <==> current.Some? && IsDateName(p, dates[..], current.value, name)
      decreases if current.Some? then current.value + 1 else 0
    {
      if name in dates[current.value] {
        return true;
      }
      if name in p.scopes[current.value].localNames {
        return false;
      }
      current := p.scopes[current.value].parent;
    }
    found := false;
  }

  method CheckExpression(p: Program, dates: array<set<Name>>, scope: nat, e: Expr) returns (isDate: bool)
    requires Built(p) && dates.Length == |p.scopes| && scope < |p.scopes|
    ensures isDate <==> IsDateExpression(p, dates[..], scope, e)
    decreases e
  {
    match e
    case New(callee) => isDate := callee == "Date";
    case Identifier(name) => isDate := HasDateName(p, dates, scope, name);
    case Conditional(_, yes, no) =>
      isDate := CheckExpression(p, dates, scope, yes);
      if !isDate { isDate := CheckExpression(p, dates, scope, no); }
    case Logical(left, right) =>
      isDate := CheckExpression(p, dates, scope, left);
      if !isDate { isDate := CheckExpression(p, dates, scope, right); }
    case Wrapped(inner) => isDate := CheckExpression(p, dates, scope, inner);
    case Other => isDate := false;
  }

  // ----- what the loop computes -----

  ghost predicate Below(a: Dates, b: Dates) {
    |a| == |b| && forall s :: 0 <= s < |a| ==> a[s] <= b[s]
  }

  /** Closed under the declaration rules: whatever a declaration proves is recorded. */
  ghost predicate IsClosed(p: Program, dates: Dates)
    requires Built(p) && |dates| == |p.scopes|
  {
    forall c :: c in p.candidates && IsDateCandidate(p, dates, c) ==> c.name in dates[c.scope]
  }

  /** The least closed extension of what parameters and patterns already bound. */
  ghost predicate IsLeast(p: Program, initial: Dates, dates: Dates)
    requires Built(p) && |initial| == |p.scopes|
  {
    && Below(initial, dates) && IsClosed(p, dates)
    && forall other: Dates :: Below(initial, other) && IsClosed(p, other) ==> Below(dates, other)
  }

  /** More known Dates never make a name less of a Date, blocked lookups and all. */
  lemma {:induction false} NamesGrow(p: Program, a: Dates, b: Dates, scope: nat, name: Name)
    requires Built(p) && |a| == |p.scopes| && Below(a, b) && scope < |p.scopes| && IsDateName(p, a, scope, name)
    ensures IsDateName(p, b, scope, name)
    decreases scope
  {
    if name !in a[scope] {
      NamesGrow(p, a, b, p.scopes[scope].parent.value, name);
    }
  }

  lemma {:induction false} ExpressionsGrow(p: Program, a: Dates, b: Dates, scope: nat, e: Expr)
    requires Built(p) && |a| == |p.scopes| && Below(a, b) && scope < |p.scopes| && IsDateExpression(p, a, scope, e)
    ensures IsDateExpression(p, b, scope, e)
    decreases e
  {
    match e
    case New(_) =>
    case Identifier(name) => NamesGrow(p, a, b, scope, name);
    case Conditional(_, yes, no) =>
      if IsDateExpression(p, a, scope, yes) { ExpressionsGrow(p, a, b, scope, yes); } else { ExpressionsGrow(p, a, b, scope, no); }
    case Logical(left, right) =>
      if IsDateExpression(p, a, scope, left) { ExpressionsGrow(p, a, b, scope, left); } else { ExpressionsGrow(p, a, b, scope, right); }
    case Wrapped(inner) => ExpressionsGrow(p, a, b, scope, inner);
    case Other =>
  }

  /** A rule that fires below a closed set fires in it, so what it adds stays below. */
  lemma AdditionStaysBelow(p: Program, dates: Dates, other: Dates, c: Candidate)
    requires Built(p) && c in p.candidates && |dates| == |p.scopes| && Below(dates, other) && IsClosed(p, other)
    requires IsDateCandidate(p, dates, c)
    ensures Below(dates[c.scope := dates[c.scope] + {c.name}], other)
  {
    if !IsDateAnnotation(c.annotation) {
      ExpressionsGrow(p, dates, other, c.scope, c.init);
    }
    assert IsDateCandidate(p, other, c);
  }

  /** The candidates not yet recorded. */
  ghost function Unproven(p: Program, dates: Dates, k: nat): nat
    requires Built(p) && |dates| == |p.scopes| && k <= |p.candidates|
  {
    if k == 0 then 0
    else Unproven(p, dates, k - 1) + (if p.candidates[k - 1].name in dates[p.candidates[k - 1].scope] then 0 else 1)
  }

  lemma {:induction false} RecordingProves(p: Program, a: Dates, b: Dates, k: nat, c: Candidate)
    requires Built(p) && |a| == |p.scopes| && Below(a, b) && k <= |p.candidates|
    ensures Unproven(p, b, k) <= Unproven(p, a, k)
    ensures c in p.candidates[..k] && c.name !in a[c.scope] && c.name in b[c.scope] ==> Unproven(p, b, k) < Unproven(p, a, k)
  {
    if k > 0 {
      RecordingProves(p, a, b, k - 1, c);
      assert p.candidates[..k] == p.candidates[..k - 1] + [p.candidates[k - 1]];
    }
  }

  /** Re-runs every declaration until a pass proves nothing new. */
  method ResolveDates(p: Program, dateNames: array<set<Name>>)
    requires Built(p) && dateNames.Length == |p.scopes|
    modifies dateNames
    ensures IsLeast(p, old(dateNames[..]), dateNames[..])
    ensures Below(old(dateNames[..]), Locals(p)) ==> AreTheDates(p, old(dateNames[..]), dateNames[..])
  {
    hide AreTheDates;
    ghost var initial := dateNames[..];
    var changed := true;
    while changed
      invariant Below(initial, dateNames[..])
      invariant forall other: Dates :: Below(initial, other) && IsClosed(p, other) ==> Below(dateNames[..], other)
      invariant !changed ==> IsClosed(p, dateNames[..])
      decreases Unproven(p, dateNames[..], |p.candidates|), changed
    {
      changed := false;
      ghost var before := dateNames[..];
      for k := 0 to |p.candidates|
        invariant Below(initial, dateNames[..]) && Below(before, dateNames[..])
        invariant forall other: Dates :: Below(initial, other) && IsClosed(p, other) ==> Below(dateNames[..], other)
        invariant !changed ==> dateNames[..] == before
        invariant !changed ==> forall c :: c in p.candidates[..k] && IsDateCandidate(p, before, c) ==> c.name in before[c.scope]
        invariant changed ==> Unproven(p, dateNames[..], |p.candidates|) < Unproven(p, before, |p.candidates|)
      {
        var c := p.candidates[k];
        assert p.candidates[..k + 1] == p.candidates[..k] + [c];
        var known := HasDateName(p, dateNames, c.scope, c.name);
        if known {
          continue;
        }
        var isDate := IsDateAnnotation(c.annotation);
        if !isDate { isDate := CheckExpression(p, dateNames, c.scope, c.init); }
        if isDate {
          Record(p, initial, dateNames, c);
          changed := true;
        }
      }
      assert p.candidates[..|p.candidates|] == p.candidates;
    }
    if Below(initial, Locals(p)) { LeastAreTheDates(p, initial, dateNames[..]); }
  }

  /** Records a candidate that a rule proves. */
  method Record(p: Program, ghost initial: Dates, dateNames: array<set<Name>>, c: Candidate)
    requires Built(p) && dateNames.Length == |p.scopes| && |initial| == |p.scopes| && c in p.candidates
    requires IsDateCandidate(p, dateNames[..], c) && c.name !in dateNames[c.scope]
    requires forall other: Dates :: Below(initial, other) && IsClosed(p, other) ==> Below(dateNames[..], other)
    modifies dateNames
    ensures dateNames[..] == old(dateNames[..])[c.scope := old(dateNames[..])[c.scope] + {c.name}]
    ensures Below(old(dateNames[..]), dateNames[..])
    ensures forall other: Dates :: Below(initial, other) && IsClosed(p, other) ==> Below(dateNames[..], other)
    ensures Unproven(p, dateNames[..], |p.candidates|) < Unproven(p, old(dateNames[..]), |p.candidates|)
  {
    ghost var before := dateNames[..];
    dateNames[c.scope] := dateNames[c.scope] + {c.name};
    assert dateNames[..] == before[c.scope := before[c.scope] + {c.name}];
    assert p.candidates[..|p.candidates|] == p.candidates;
    RecordingProves(p, before, dateNames[..], |p.candidates|, c);
    forall other: Dates | Below(initial, other) && IsClosed(p, other) ensures Below(dateNames[..], other) {
      AdditionStaysBelow(p, before, other, c);
    }
  }

  // ----- what the least set means -----

  /** Nothing is a Date without a reason: it was bound as one, or a declaration proves it from the final set. */
  lemma EveryDateIsProven(p: Program, initial: Dates, dates: Dates, scope: nat, name: Name)
    requires Built(p) && |initial| == |p.scopes| && IsLeast(p, initial, dates) && scope < |dates| && name in dates[scope]
    ensures name in initial[scope] ||
            exists c :: c in p.candidates && c.scope == scope && c.name == name && IsDateCandidate(p, dates, c)
  {
    if name !in initial[scope] && forall c :: c in p.candidates && c.scope == scope && c.name == name ==> !IsDateCandidate(p, dates, c) {
      var fewer := dates[scope := dates[scope] - {name}];
      forall c | c in p.candidates && IsDateCandidate(p, fewer, c) ensures c.name in fewer[c.scope] {
        if !IsDateAnnotation(c.annotation) {
          ExpressionsGrow(p, fewer, dates, c.scope, c.init);
        }
        assert IsDateCandidate(p, dates, c);
      }
      assert Below(initial, fewer) && IsClosed(p, fewer);
      assert Below(dates, fewer);
    }
  }

  /** The nearest scope, from this one out, that binds a name. */
  function Binder(p: Program, scope: nat, name: Name): Option<nat>
    requires Built(p) && scope < |p.scopes|
    decreases scope
  {
    if name in p.scopes[scope].localNames then Some(scope)
    else if p.scopes[scope].parent.None? then None
    else Binder(p, p.scopes[scope].parent.value, name)
  }

  ghost function Locals(p: Program): Dates {
    seq(|p.scopes|, s requires 0 <= s < |p.scopes| => p.scopes[s].localNames)
  }

  /** Shadowing is respected: a name is a Date exactly when its nearest binder says so. */
  lemma {:induction false} NearestBinderDecides(p: Program, dates: Dates, scope: nat, name: Name)
    requires Built(p) && Below(dates, Locals(p)) && scope < |p.scopes|
    ensures IsDateName(p, dates, scope, name) <==>
            Binder(p, scope, name).Some? && Binder(p, scope, name).value < |dates| && name in dates[Binder(p, scope, name).value]
    decreases scope
  {
    assert dates[scope] <= Locals(p)[scope];
    if name !in p.scopes[scope].localNames && p.scopes[scope].parent.Some? {
      NearestBinderDecides(p, dates, p.scopes[scope].parent.value, name);
    }
  }

  /** The fixpoint only ever marks names their scopes bind, so its answers follow lexical scoping. */
  lemma LeastFollowsScoping(p: Program, initial: Dates, dates: Dates, scope: nat, name: Name)
    requires Built(p) && Below(initial, Locals(p)) && IsLeast(p, initial, dates) && scope < |p.scopes|
    ensures Below(dates, Locals(p))
    ensures IsDateName(p, dates, scope, name) <==>
            Binder(p, scope, name).Some? && Binder(p, scope, name).value < |dates| && name in dates[Binder(p, scope, name).value]
  {
    assert IsClosed(p, Locals(p));
    NearestBinderDecides(p, dates, scope, name);
  }

  // ----- what a declaration proves, said without the rules -----

  /** The value of `e` may be that of `v`: the inside of a wrapper, a branch of a conditional, an operand of a logical. */
  predicate Forwards(e: Expr, v: Expr) {
    || (e.Wrapped? && v == e.inner)
    || (e.Conditional? && (v == e.consequent || v == e.alternate))
    || (e.Logical? && (v == e.left || v == e.right))
  }

  ghost predicate IsForwarding(chain: seq<Expr>) {
    |chain| > 0 && forall k: nat :: k + 1 < |chain| ==> Forwards(chain[k], chain[k + 1])
  }

  /** Whatever `e` may come to, through any number of such forms. */
  ghost predicate MayBe(e: Expr, v: Expr) {
    exists chain :: IsForwarding(chain) && chain[0] == e && chain[|chain| - 1] == v
  }

  /** A type holds another: an annotation its type, a union each of its members. */
  predicate Holds(t: TypeNode, u: TypeNode) {
    (t.Annotation? && u == t.inner) || (t.Union? && u in t.types)
  }

  ghost predicate IsHolding(chain: seq<TypeNode>) {
    |chain| > 0 && forall k: nat :: k + 1 < |chain| ==> Holds(chain[k], chain[k + 1])
  }

  ghost predicate Mentions(t: TypeNode, u: TypeNode) {
    exists chain :: IsHolding(chain) && chain[0] == t && chain[|chain| - 1] == u
  }

  /** A new Date, or a name whose nearest binder has it as one. */
  ghost predicate IsDateValue(p: Program, dates: Dates, scope: nat, v: Expr)
    requires Built(p) && |dates| == |p.scopes| && scope < |p.scopes|
  {
    || v == New("Date")
    || (v.Identifier? && exists s :: Binder(p, scope, v.name) == Some(s) && s < |dates| && v.name in dates[s])
  }

  /** A declaration proves its name a Date: its type mentions Date, or its value may be one. */
  ghost predicate Proves(p: Program, dates: Dates, c: Candidate)
    requires Built(p) && |dates| == |p.scopes| && c.scope < |p.scopes|
  {
    Mentions(c.annotation, Reference("Date")) || exists v :: MayBe(c.init, v) && IsDateValue(p, dates, c.scope, v)
  }

  lemma MayBeItself(e: Expr)
    ensures MayBe(e, e)
  {
    assert IsForwarding([e]) && [e][0] == e && [e][|[e]| - 1] == e;
  }

  lemma MayBeFurther(e: Expr, inner: Expr, v: Expr)
    requires Forwards(e, inner) && MayBe(inner, v)
    ensures MayBe(e, v)
  {
    var chain :| IsForwarding(chain) && chain[0] == inner && chain[|chain| - 1] == v;
    var longer := [e] + chain;
    forall k: nat | k + 1 < |longer| ensures Forwards(longer[k], longer[k + 1]) {
      if k > 0 { assert Forwards(chain[k - 1], chain[k - 1 + 1]); }
    }
    assert longer[|longer| - 1] == v;
  }

  lemma {:induction false} ForwardedDate(p: Program, dates: Dates, scope: nat, e: Expr) returns (v: Expr)
    requires Built(p) && Below(dates, Locals(p)) && scope < |p.scopes| && IsDateExpression(p, dates, scope, e)
    ensures MayBe(e, v) && IsDateValue(p, dates, scope, v)
    decreases e
  {
    match e
    case New(_) => v := e; MayBeItself(e);
    case Identifier(name) =>
      v := e;
      MayBeItself(e);
      NearestBinderDecides(p, dates, scope, name);
    case Conditional(_, yes, no) =>
      var inner := if IsDateExpression(p, dates, scope, yes) then yes else no;
      v := ForwardedDate(p, dates, scope, inner);
      MayBeFurther(e, inner, v);
    case Logical(left, right) =>
      var inner := if IsDateExpression(p, dates, scope, left) then left else right;
      v := ForwardedDate(p, dates, scope, inner);
      MayBeFurther(e, inner, v);
    case Wrapped(inner) =>
      v := ForwardedDate(p, dates, scope, inner);
      MayBeFurther(e, inner, v);
  }

  lemma {:induction false} ForwardingIsDate(p: Program, dates: Dates, scope: nat, chain: seq<Expr>)
    requires Built(p) && Below(dates, Locals(p)) && scope < |p.scopes|
    requires IsForwarding(chain) && IsDateValue(p, dates, scope, chain[|chain| - 1])
    ensures IsDateExpression(p, dates, scope, chain[0])
    decreases |chain|
  {
    if |chain| == 1 {
      if chain[0].Identifier? { NearestBinderDecides(p, dates, scope, chain[0].name); }
    } else {
      var rest := chain[1..];
      forall k: nat | k + 1 < |rest| ensures Forwards(rest[k], rest[k + 1]) {
        assert Forwards(chain[k + 1], chain[k + 1 + 1]);
      }
      assert Forwards(chain[0], chain[0 + 1]);
      ForwardingIsDate(p, dates, scope, rest);
    }
  }

  lemma MentionsItself(t: TypeNode)
    ensures Mentions(t, t)
  {
    assert IsHolding([t]) && [t][0] == t && [t][|[t]| - 1] == t;
  }

  lemma MentionsFurther(t: TypeNode, inner: TypeNode, u: TypeNode)
    requires Holds(t, inner) && Mentions(inner, u)
    ensures Mentions(t, u)
  {
    var chain :| IsHolding(chain) && chain[0] == inner && chain[|chain| - 1] == u;
    var longer := [t] + chain;
    forall k: nat | k + 1 < |longer| ensures Holds(longer[k], longer[k + 1]) {
      if k > 0 { assert Holds(chain[k - 1], chain[k - 1 + 1]); }
    }
    assert longer[|longer| - 1] == u;
  }

  lemma {:induction false} MentionedDate(t: TypeNode)
    requires IsDateAnnotation(t)
    ensures Mentions(t, Reference("Date"))
    decreases t
  {
    match t
    case Annotation(inner) =>
      MentionedDate(inner);
      MentionsFurther(t, inner, Reference("Date"));
    case Union(types) =>
      var k :| 0 <= k < |types| && IsDateAnnotation(types[k]);
      MentionedDate(types[k]);
      MentionsFurther(t, types[k], Reference("Date"));
    case Reference(_) => MentionsItself(t);
  }

  lemma {:induction false} HoldingIsDate(chain: seq<TypeNode>)
    requires IsHolding(chain) && chain[|chain| - 1] == Reference("Date")
    ensures IsDateAnnotation(chain[0])
    decreases |chain|
  {
    if |chain| > 1 {
      var rest := chain[1..];
      forall k: nat | k + 1 < |rest| ensures Holds(rest[k], rest[k + 1]) {
        assert Holds(chain[k + 1], chain[k + 1 + 1]);
      }
      assert Holds(chain[0], chain[0 + 1]);
      HoldingIsDate(rest);
    }
  }

  /** The rules prove exactly the declarations whose type mentions Date or whose value may be one. */
  lemma RulesAreProofs(p: Program, dates: Dates, c: Candidate)
    requires Built(p) && Below(dates, Locals(p)) && c.scope < |p.scopes|
    ensures IsDateCandidate(p, dates, c) <==> Proves(p, dates, c)
  {
    hide Forwards, Holds, IsDateValue, Binder;
    if IsDateAnnotation(c.annotation) {
      MentionedDate(c.annotation);
    } else if IsDateExpression(p, dates, c.scope, c.init) {
      var v := ForwardedDate(p, dates, c.scope, c.init);
    }
    if Mentions(c.annotation, Reference("Date")) {
      var chain :| IsHolding(chain) && chain[0] == c.annotation && chain[|chain| - 1] == Reference("Date");
      HoldingIsDate(chain);
    } else if v :| MayBe(c.init, v) && IsDateValue(p, dates, c.scope, v) {
      var chain :| IsForwarding(chain) && chain[0] == c.init && chain[|chain| - 1] == v;
      ForwardingIsDate(p, dates, c.scope, chain);
    }
  }

  /** Every declared name that a declaration proves, from these Dates, is among them. */
  ghost predicate HoldsWhatIsProved(p: Program, dates: Dates)
    requires Built(p) && |dates| == |p.scopes|
  {
    forall c :: c in p.candidates && Proves(p, dates, c) ==> c.name in dates[c.scope]
  }

  /** The Dates are those bound at the start and those declarations prove, and no fewer would do. */
  ghost predicate AreTheDates(p: Program, initial: Dates, dates: Dates)
    requires Built(p) && |initial| == |p.scopes|
  {
    && |dates| == |p.scopes|
    && (forall s, name :: 0 <= s < |dates| ==>
          (name in dates[s] <==>
             name in initial[s] || exists c :: c in p.candidates && c.scope == s && c.name == name && Proves(p, dates, c)))
    && (forall other: Dates :: Below(initial, other) && Below(other, Locals(p)) && HoldsWhatIsProved(p, other) ==> Below(dates, other))
  }

  lemma LeastAreTheDates(p: Program, initial: Dates, dates: Dates)
    requires Built(p) && Below(initial, Locals(p)) && IsLeast(p, initial, dates)
    ensures AreTheDates(p, initial, dates)
  {
    assert IsClosed(p, Locals(p));
    forall other: Dates, c | Below(other, Locals(p)) && c in p.candidates ensures IsDateCandidate(p, other, c) <==> Proves(p, other, c) {
      RulesAreProofs(p, other, c);
    }
    hide IsDateCandidate, Proves, Locals;
    forall s, name | 0 <= s < |dates|
      ensures name in dates[s] <==>
                name in initial[s] || exists c :: c in p.candidates && c.scope == s && c.name == name && Proves(p, dates, c)
    {
      if name in dates[s] { EveryDateIsProven(p, initial, dates, s, name); }
    }
  }

  // ----- the order of declarations does not matter -----

  lemma OrderDoesNotMatter(p: Program, q: Program, initial: Dates, a: Dates, b: Dates)
    requires Built(p) && Built(q) && p.scopes == q.scopes && (forall c :: c in p.candidates <==> c in q.candidates)
    requires |initial| == |p.scopes| && IsLeast(p, initial, a) && IsLeast(q, initial, b)
    ensures a == b
  {
    SameRules(p, q, a);
    SameRules(q, p, b);
    assert Below(a, b) && Below(b, a);
    forall s | 0 <= s < |a| ensures a[s] == b[s] {
      SameSet(a[s], b[s]);
    }
  }

  lemma {:induction false} SameNames(p: Program, q: Program, dates: Dates, scope: nat, name: Name)
    requires Built(p) && Built(q) && p.scopes == q.scopes && |dates| == |p.scopes| && scope < |p.scopes|
    ensures IsDateName(p, dates, scope, name) == IsDateName(q, dates, scope, name)
    decreases scope
  {
    if p.scopes[scope].parent.Some? {
      SameNames(p, q, dates, p.scopes[scope].parent.value, name);
    }
  }

  lemma {:induction false} SameExpressions(p: Program, q: Program, dates: Dates, scope: nat, e: Expr)
    requires Built(p) && Built(q) && p.scopes == q.scopes && |dates| == |p.scopes| && scope < |p.scopes|
    ensures IsDateExpression(p, dates, scope, e) == IsDateExpression(q, dates, scope, e)
    decreases e
  {
    match e
    case New(_) =>
    case Identifier(name) => SameNames(p, q, dates, scope, name);
    case Conditional(_, yes, no) => SameExpressions(p, q, dates, scope, yes); SameExpressions(p, q, dates, scope, no);
    case Logical(left, right) => SameExpressions(p, q, dates, scope, left); SameExpressions(p, q, dates, scope, right);
    case Wrapped(inner) => SameExpressions(p, q, dates, scope, inner);
    case Other =>
  }

  lemma SameRules(p: Program, q: Program, dates: Dates)
    requires Built(p) && Built(q) && p.scopes == q.scopes && (forall c :: c in p.candidates <==> c in q.candidates)
    requires |dates| == |p.scopes| && IsClosed(p, dates)
    ensures IsClosed(q, dates)
  {
    forall c | c in q.candidates && IsDateCandidate(q, dates, c) ensures c.name in dates[c.scope] {
      SameExpressions(p, q, dates, c.scope, c.init);
    }
  }
}
