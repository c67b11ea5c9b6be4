/** The other direction: on expressions built only from literals, resolution is never unsure. */
module SpreadCompleteness {
  import opened Wrappers
  import opened ObjectExpressions
  import opened SpreadResolution

  /** The positions of the spreads resolution can walk through. */
  function Starts(e: Expr): set<nat>
    decreases Size(e), 1
  {
    match e
    case Obj(_, props) => set i, s | 0 <= i < |props| && s in StartsAt(e, i) :: s
    case Wrapped(inner) => Starts(inner)
    case Conditional(_, yes, no) => Starts(yes) + Starts(no)
    case Logical(_, left, right) => Starts(left) + Starts(right)
    case Member(_, _) => {}
    case Opaque(_) => {}
  }

  function StartsAt(literal: Expr, i: nat): set<nat>
    requires literal.Obj? && i < |literal.props|
    decreases Size(literal), 0
  {
    PropSmaller(literal.props, i);
    if literal.props[i].Spread? then {literal.props[i].start} + Starts(literal.props[i].argument) else {}
  }

  /** Choices between literals whose keys and spreads are known in the same way, each spread at its own position. */
  ghost predicate Known(e: Expr)
    decreases Size(e), 1
  {
    match e
    case Obj(_, props) =>
      && (forall i :: 0 <= i < |props| ==> KnownEntry(e, i))
      && (forall i, j :: 0 <= i < j < |props| && props[j].Spread? ==> props[j].start !in StartsAt(e, i))
    case Wrapped(inner) => Known(inner)
    case Conditional(_, yes, no) => Known(yes) && Known(no)
    case Logical(_, left, right) => Known(left) && Known(right)
    case Member(_, _) => false
    case Opaque(_) => false
  }

  ghost predicate KnownEntry(literal: Expr, i: nat)
    requires literal.Obj? && i < |literal.props|
    decreases Size(literal), 0
  {
    var p := literal.props[i];
    PropSmaller(literal.props, i);
    if p.Spread? then Known(p.argument) && p.start !in Starts(p.argument) else !p.key.ComputedOther?
  }

  lemma {:induction false} UnwrapKnown(e: Expr)
    requires Known(e)
    ensures Known(Unwrap(e)) && Starts(Unwrap(e)) == Starts(e)
    decreases e
  {
    if e.Wrapped? {
      UnwrapKnown(e.inner);
    }
  }

  ghost predicate KnownWithin(requests: seq<Expr>, starts: set<nat>) {
    forall k :: 0 <= k < |requests| ==> Known(requests[k]) && Starts(requests[k]) <= starts
  }

  /** Such an expression resolves completely, to literals of the same kind that are part of it. */
  lemma {:induction false} KnownResolves(e: Expr, seen: set<(nat, string)>)
    requires Known(e)
    ensures var r := Resolve(e, seen);
            r.complete && r.requests != [] && KnownWithin(r.requests, Starts(e))
    decreases Size(e)
  {
    var current := Unwrap(e);
    UnwrapKnown(e);
    match current
    case Obj(_, _) =>
    case Conditional(_, yes, no) =>
      KnownResolves(yes, seen);
      KnownResolves(no, seen);
    case Logical(_, left, right) =>
      KnownResolves(left, seen);
      KnownResolves(right, seen);
    case Member(_, _) =>
    case Opaque(_) =>
  }

  ghost predicate Unseen(seen: set<(nat, string)>, name: string, starts: set<nat>) {
    forall s :: s in starts ==> (s, name) !in seen
  }

  /** Every lookup in such a literal is complete: the guard against revisiting a spread never stops it. */
  lemma {:induction false} KnownLookupComplete(literal: Expr, name: string, seen: set<(nat, string)>, end: nat)
    requires literal.Obj? && Known(literal) && end <= |literal.props|
    requires forall i :: 0 <= i < end ==> Unseen(seen, name, StartsAt(literal, i))
    ensures Lookup(literal, name, seen, end).complete
    decreases Size(literal), 1, end
  {
    if end > 0 {
      var p := literal.props[end - 1];
      assert KnownEntry(literal, end - 1);
      PropSmaller(literal.props, end - 1);
      if !p.Spread? {
        if StaticKey(p) != Some(name) {
          KnownLookupComplete(literal, name, seen, end - 1);
        }
      } else {
        assert p.start in StartsAt(literal, end - 1);
        assert (p.start, name) !in seen;
        var nextSeen := seen + {(p.start, name)};
        KnownResolves(p.argument, nextSeen);
        KnownLookupComplete(literal, name, nextSeen, end - 1);
        var spread := Resolve(p.argument, nextSeen);
        KnownHits(spread.requests, name, nextSeen, Lookup(literal, name, nextSeen, end - 1), Size(p.argument), Size(literal), Starts(p.argument));
      }
    }
  }

  lemma {:induction false} KnownHits(requests: seq<Expr>, name: string, seen: set<(nat, string)>, earlier: Properties,
                                     bound: nat, limit: nat, starts: set<nat>)
    requires Literals(requests, bound) && bound <= limit && Definitions(earlier.properties, limit) && earlier.complete
    requires KnownWithin(requests, starts) && Unseen(seen, name, starts)
    ensures SpreadHits(requests, name, seen, earlier, bound, limit).complete
    decreases bound, 3, |requests|
  {
    if requests != [] {
      var last := requests[|requests| - 1];
      var rest := requests[..|requests| - 1];
      KnownHits(rest, name, seen, earlier, bound, limit, starts);
      forall i | 0 <= i < |last.props| ensures Unseen(seen, name, StartsAt(last, i)) {
        forall s | s in StartsAt(last, i) ensures (s, name) !in seen {
          assert s in Starts(last);
        }
      }
      KnownLookupComplete(last, name, seen, |last.props|);
      FillComplete(Lookup(last, name, seen, |last.props|).properties, earlier, limit);
    }
  }

  lemma {:induction false} FillComplete(properties: seq<Option<Found>>, earlier: Properties, limit: nat)
    requires Definitions(properties, limit) && Definitions(earlier.properties, limit) && earlier.complete
    ensures FillAbsent(properties, earlier, limit).complete
    decreases |properties|
  {
    if properties != [] {
      FillComplete(properties[..|properties| - 1], earlier, limit);
    }
  }
}
