/** The name-free fragment of JavaScript expressions that can yield objects, and what they evaluate to. */
module ObjectExpressions {
  import opened Wrappers

  // ----- syntax -----

  /** A property key: identifier or string, shorthand, numeric as its number prints, computed from static text or anything else. */
  datatype Key = Plain(name: string) | Shorthand(name: string) | Numeric(name: string) | ComputedText(name: string) | ComputedOther(at: nat)

  datatype Prop = Property(key: Key, value: Expr) | Method(key: Key) | Spread(start: nat, argument: Expr)

  datatype Operator = Or | And | Coalesce

  /** A member access whose name is static text, or computed from anything else. */
  datatype Access = StaticName(name: string) | Dynamic(at: nat)

  /** `Wrapped` is parentheses or a type assertion; `Opaque` is any node the fragment leaves out, at its own position. */
  datatype Expr =
    | Obj(at: nat, props: seq<Prop>)
    | Wrapped(inner: Expr)
    | Conditional(test: Expr, consequent: Expr, alternate: Expr)
    | Logical(operator: Operator, left: Expr, right: Expr)
    | Member(target: Expr, access: Access)
    | Opaque(at: nat)

  function Size(e: Expr): (n: nat)
    ensures n > 0
  {
    match e
    case Obj(_, props) => 1 + PropsSize(props)
    case Wrapped(inner) => 1 + Size(inner)
    case Conditional(test, yes, no) => 1 + Size(test) + Size(yes) + Size(no)
    case Logical(_, left, right) => 1 + Size(left) + Size(right)
    case Member(target, _) => 1 + Size(target)
    case Opaque(_) => 1
  }

  function PropsSize(props: seq<Prop>): nat {
    if props == [] then 0 else PropSize(props[0]) + PropsSize(props[1..])
  }

  function PropSize(p: Prop): nat {
    match p
    case Property(_, value) => Size(value)
    case Method(_) => 0
    case Spread(_, argument) => Size(argument)
  }

  lemma {:induction false} PropSmaller(props: seq<Prop>, i: nat)
    requires i < |props|
    ensures PropSize(props[i]) <= PropsSize(props)
  {
    if i > 0 {
      PropSmaller(props[1..], i - 1);
    }
  }

  function Unwrap(e: Expr): (r: Expr)
    ensures !r.Wrapped? && Size(r) <= Size(e)
  {
    if e.Wrapped? then Unwrap(e.inner) else e
  }

  // ----- evaluation -----

  /** A property of an object: the definition it came from, or one copied out of a value the fragment does not describe. */
  datatype Slot = Slot(definition: Found, value: Value) | ForeignSlot(value: Value)

  /** A property definition, with the literal it stands in. */
  datatype Found = Found(property: Prop, owner: Expr)

  datatype Value = ObjectValue(literal: Expr, slots: map<string, Slot>) | Foreign(id: int)

  /** Everything an evaluation depends on that the syntax does not say, by position. */
  datatype World = World(
    opaque_: nat -> Value,
    keyAt: nat -> string,
    methodOf: Prop -> Value,
    truthy: int -> bool,
    nullish: int -> bool,
    ownOf: int -> map<string, Slot>,
    inherited: (Value, string) -> Value)

  const PROTO := "__proto__"

  function KeyName(w: World, key: Key): string {
    match key
    case Plain(name) => name
    case Shorthand(name) => name
    case Numeric(name) => name
    case ComputedText(name) => name
    case ComputedOther(at) => w.keyAt(at)
  }

  predicate Truthy(w: World, v: Value) {
    v.ObjectValue? || w.truthy(v.id)
  }

  predicate Nullish(w: World, v: Value) {
    v.Foreign? && w.nullish(v.id)
  }

  function OwnOf(w: World, v: Value): map<string, Slot> {
    if v.ObjectValue? then v.slots else w.ownOf(v.id)
  }

  function Eval(w: World, e: Expr): Value
    decreases Size(e), 0
  {
    match e
    case Obj(_, props) => ObjectValue(e, Own(w, e, |props|))
    case Wrapped(inner) => Eval(w, inner)
    case Conditional(test, yes, no) => if Truthy(w, Eval(w, test)) then Eval(w, yes) else Eval(w, no)
    case Logical(op, left, right) =>
      var v := Eval(w, left);
      var keeps := match op case Or => Truthy(w, v) case And => !Truthy(w, v) case Coalesce => !Nullish(w, v);
      if keeps then v else Eval(w, right)
    case Member(target, access) =>
      var v := Eval(w, target);
      var name := if access.StaticName? then access.name else w.keyAt(access.at);
      if v.ObjectValue? && name in v.slots then v.slots[name].value else w.inherited(v, name)
    case Opaque(at) => w.opaque_(at)
  }

  /** The own properties an object literal has once its first `end` entries are evaluated: the last definition wins. */
  function Own(w: World, literal: Expr, end: nat): map<string, Slot>
    requires literal.Obj? && end <= |literal.props|
    decreases Size(literal), 0, end
  {
    if end == 0 then map[]
    else
      var before := Own(w, literal, end - 1);
      var p := literal.props[end - 1];
      PropSmaller(literal.props, end - 1);
      match p
      case Property(key, value) =>
        if key == Plain(PROTO) then before  // sets the prototype instead
        else before[KeyName(w, key) := Slot(Found(p, literal), Eval(w, value))]
      case Method(key) => before[KeyName(w, key) := Slot(Found(p, literal), w.methodOf(p))]
      case Spread(_, argument) => before + OwnOf(w, Eval(w, argument))
  }
}
