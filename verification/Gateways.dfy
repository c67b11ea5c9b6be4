/** What the dominator analysis reports: exclusive cost, gateways, and dominator chains. */
module Gateways {
  import opened ImportGraph
  import opened DominatorTree
  import opened Dominators
  import Walk
  import Wrappers

  const GATEWAY_MIN_MODULES: nat := 30
  const GATEWAY_LIMIT: nat := 8
  const CHAIN_GUARD: nat := 10_000

  // ----- exclusive cost -----

  function FilterOut(deps: seq<Module>, m: Module): (kept: seq<Module>)
    ensures forall d :: d in kept <==> d in deps && d != m
  {
    if deps == [] then []
    else if deps[0] != m then [deps[0]] + FilterOut(deps[1..], m)
    else FilterOut(deps[1..], m)
  }

  /** The import graph with module `m` deleted. */
  function Without(g: Graph, m: Module): Graph {
    map file | file in g && file != m :: FilterOut(g[file], m)
  }

  lemma {:induction false} AvoidingPath(g: Graph, entry: Module, m: Module, p: seq<Module>, n: Module)
    requires entry != m
    ensures IsPath(Without(g, m), p, entry, n) <==> IsPath(g, p, entry, n) && m !in p
    decreases |p|
  {
    if |p| > 1 {
      var q, u := p[..|p| - 1], p[|p| - 2];
      AvoidingPath(g, entry, m, q, u);
      assert p == q + [p[|p| - 1]];
      if IsPath(Without(g, m), p, entry, n) {
        PathInit(Without(g, m), p, entry, n);
        PathStep(g, q, entry, u, n);
      }
      if IsPath(g, p, entry, n) && m !in p {
        PathInit(g, p, entry, n);
        PathStep(Without(g, m), q, entry, u, n);
      }
    }
  }

  /**
   * What a module gates is exactly what the entry can no longer reach once the module is deleted;
   * the entry gates the whole graph.
   */
  lemma GatedIsExclusiveCost(g: Graph, entry: Module, reachable: set<Module>, m: Module, left: set<Module>)
    requires IsReachableSet(g, entry, reachable) && m in reachable
    requires m != entry ==> IsReachableSet(Without(g, m), entry, left)
    ensures m == entry ==> Gated(g, entry, reachable, m) == reachable
    ensures m != entry ==> left <= reachable && Gated(g, entry, reachable, m) == reachable - left
    ensures m != entry ==> |Gated(g, entry, reachable, m)| == |reachable| - |left|
  {
    if m == entry {
      assert forall p, n :: IsPath(g, p, entry, n) ==> p[0] == entry;
    } else {
      forall n ensures n in left <==> exists p :: IsPath(g, p, entry, n) && m !in p {
        forall p ensures IsPath(Without(g, m), p, entry, n) <==> IsPath(g, p, entry, n) && m !in p {
          AvoidingPath(g, entry, m, p, n);
        }
      }
      assert forall n :: n in left ==> Reaches(g, entry, n);
      assert reachable - left + left == reachable;
    }
  }

  // ----- dominator chains -----

  ghost predicate Hangs(idom: map<Module, Module>, entry: Module, up: seq<Module>, k: int)
    requires 1 <= k < |up|
  {
    up[k - 1] in idom && up[k - 1] != entry && up[k] == idom[up[k - 1]]
  }

  ghost predicate Precedes(g: Graph, entry: Module, chain: seq<Module>, k: int)
    requires 1 <= k < |chain|
  {
    ImmediatelyDominates(g, entry, chain[k - 1], chain[k])
  }

  /** Each module of the list immediately dominates the next. */
  ghost predicate Descends(idom: map<Module, Module>, entry: Module, up: seq<Module>) {
    forall k :: 1 <= k < |up| ==> Hangs(idom, entry, up, k)
  }

  lemma {:induction false} UpwardOnChain(f: Numbering, idom: map<Module, Module>, up: seq<Module>)
    requires Rooted(f, idom) && |up| > 0 && up[0] in idom && Descends(idom, f.entry, up)
    ensures forall k :: 0 <= k < |up| ==> up[k] in idom && up[k] in Chain(f, idom, up[0])
    ensures Chain(f, idom, up[|up| - 1]) <= Chain(f, idom, up[0])
    ensures forall x :: x in Chain(f, idom, up[0]) ==> x in up || x in Chain(f, idom, up[|up| - 1])
    ensures f.idx[up[|up| - 1]] + |up| <= f.idx[up[0]] + 1
    decreases |up|
  {
    ChainDescends(f, idom, up[0]);
    if |up| > 1 {
      var tail := up[1..];
      assert Hangs(idom, f.entry, up, 1);
      forall k | 1 <= k < |tail| ensures Hangs(idom, f.entry, tail, k) {
        assert Hangs(idom, f.entry, up, k + 1);
      }
      UpwardOnChain(f, idom, tail);
      forall k | 0 <= k < |up| ensures up[k] in idom && up[k] in Chain(f, idom, up[0]) {
        if k > 0 { assert tail[k - 1] == up[k]; }
      }
    }
  }

  /**
   * The dominator-tree ancestry of a module, from the entry. Unless the guard cuts it short it
   * lists exactly the modules every import path to `target` goes through, in the order they are met.
   */
  method DominatorChain(ghost f: Numbering, g: Graph, entry: Module, ghost reachable: set<Module>,
                        idom: map<Module, Module>, target: Module)
    returns (chain: seq<Module>)
    requires DominatorTreeOf(f, g, entry, reachable, idom)
    ensures |chain| > 0 && chain[|chain| - 1] == target
    ensures target !in reachable ==> chain == [target]
    ensures target in reachable ==> forall k :: 0 <= k < |chain| ==> Dominates(g, entry, chain[k], target)
    ensures target in reachable && |reachable| <= CHAIN_GUARD ==> chain[0] == entry
    ensures target in reachable ==> chain[0] == entry || |chain| == CHAIN_GUARD
    ensures target in reachable && chain[0] == entry ==> forall m :: Dominates(g, entry, m, target) ==> m in chain
    ensures forall k :: 1 <= k < |chain| ==> Precedes(g, entry, chain, k)
  {
    var upward := [target];
    var current := target;
    var guard := 1;
    while guard < CHAIN_GUARD && current != entry && current in idom && idom[current] != current
      invariant |upward| == guard <= CHAIN_GUARD && upward[0] == target && upward[guard - 1] == current
      invariant target !in reachable ==> upward == [target]
      invariant Descends(idom, entry, upward)
    {
      DescendsFurther(idom, entry, upward);
      current := idom[current];
      upward := upward + [current];
      guard := guard + 1;
    }
    chain := Walk.Reverse(upward);
    if target in reachable {
      UpwardFacts(f, g, entry, reachable, idom, upward);
    }
    ReversedFacts(f, g, entry, reachable, idom, upward, chain);
  }

  lemma ReversedFacts(f: Numbering, g: Graph, entry: Module, reachable: set<Module>, idom: map<Module, Module>,
                      up: seq<Module>, chain: seq<Module>)
    requires DominatorTreeOf(f, g, entry, reachable, idom) && |up| > 0 && chain == Walk.Reversed(up) && Descends(idom, entry, up)
    ensures up[0] in reachable ==> forall k :: 0 <= k < |chain| ==> Dominates(g, entry, chain[k], up[0])
    ensures up[0] in reachable && chain[0] == entry ==> forall m :: Dominates(g, entry, m, up[0]) ==> m in chain
    ensures forall k :: 1 <= k < |chain| ==> Precedes(g, entry, chain, k)
  {
    hide DominatorTreeOf, Dominates, Descends, Walk.Reversed, Precedes;
    if up[0] in reachable {
      ReversedDominators(f, g, entry, reachable, idom, up, chain);
    }
    forall k | 1 <= k < |chain| ensures Precedes(g, entry, chain, k) {
      LinkPrecedes(f, g, entry, reachable, idom, up, chain, k);
    }
  }

  lemma ReversedDominators(f: Numbering, g: Graph, entry: Module, reachable: set<Module>, idom: map<Module, Module>,
                           up: seq<Module>, chain: seq<Module>)
    requires DominatorTreeOf(f, g, entry, reachable, idom) && |up| > 0 && chain == Walk.Reversed(up) && Descends(idom, entry, up)
    requires up[0] in reachable
    ensures forall k :: 0 <= k < |chain| ==> Dominates(g, entry, chain[k], up[0])
    ensures chain[0] == entry ==> forall m :: Dominates(g, entry, m, up[0]) ==> m in chain
  {
    hide DominatorTreeOf, Dominates, Descends, Walk.Reversed;
    UpwardFacts(f, g, entry, reachable, idom, up);
    forall k | 0 <= k < |chain| ensures Dominates(g, entry, chain[k], up[0]) {
      assert chain[k] == up[|up| - 1 - k];
    }
    forall m | chain[0] == entry && Dominates(g, entry, m, up[0]) ensures m in chain {
      assert m in up;
      var k :| 0 <= k < |up| && up[k] == m;
      assert chain[|up| - 1 - k] == m;
    }
  }

  lemma LinkPrecedes(f: Numbering, g: Graph, entry: Module, reachable: set<Module>, idom: map<Module, Module>,
                     up: seq<Module>, chain: seq<Module>, k: int)
    requires DominatorTreeOf(f, g, entry, reachable, idom) && chain == Walk.Reversed(up) && Descends(idom, entry, up)
    requires 1 <= k < |chain|
    ensures Precedes(g, entry, chain, k)
  {
    hide DominatorTreeOf, ImmediatelyDominates, Walk.Reversed;
    var j := |up| - k;
    assert Hangs(idom, entry, up, j);
    assert chain[k] == up[j - 1] && chain[k - 1] == up[j];
    ParentIsImmediate(f, g, entry, reachable, idom, up[j - 1]);
  }

  lemma ParentIsImmediate(f: Numbering, g: Graph, entry: Module, reachable: set<Module>, idom: map<Module, Module>, n: Module)
    requires DominatorTreeOf(f, g, entry, reachable, idom) && n in idom && n != entry
    ensures ImmediatelyDominates(g, entry, idom[n], n)
  {
    ParentImmediatelyDominates(f, g, entry, reachable, idom, n);
  }

  lemma UpwardFacts(f: Numbering, g: Graph, entry: Module, reachable: set<Module>, idom: map<Module, Module>, up: seq<Module>)
    requires DominatorTreeOf(f, g, entry, reachable, idom) && |up| > 0 && up[0] in reachable && Descends(idom, entry, up)
    ensures forall k :: 0 <= k < |up| ==> up[k] in reachable && Dominates(g, entry, up[k], up[0])
    ensures up[|up| - 1] == entry ==> forall m :: Dominates(g, entry, m, up[0]) ==> m in up
    ensures up[|up| - 1] in idom && (up[|up| - 1] != entry ==> idom[up[|up| - 1]] != up[|up| - 1])
    ensures up[|up| - 1] != entry ==> |up| < |reachable|
  {
    UpwardOnChain(f, idom, up);
    var last := up[|up| - 1];
    if last != entry {
      NumberBound(f, idom, up);
    }
  }

  lemma DescendsFurther(idom: map<Module, Module>, entry: Module, up: seq<Module>)
    requires |up| > 0 && Descends(idom, entry, up) && up[|up| - 1] in idom && up[|up| - 1] != entry
    ensures Descends(idom, entry, up + [idom[up[|up| - 1]]])
  {
    var up' := up + [idom[up[|up| - 1]]];
    forall k | 1 <= k < |up'| ensures Hangs(idom, entry, up', k) {
      if k < |up| { assert Hangs(idom, entry, up, k); }
    }
  }

  lemma DescendsSlice(idom: map<Module, Module>, entry: Module, up: seq<Module>, j: nat, k: nat)
    requires Descends(idom, entry, up) && j <= k <= |up|
    ensures Descends(idom, entry, up[j..k])
  {
    forall i | 1 <= i < k - j ensures Hangs(idom, entry, up[j..k], i) {
      assert Hangs(idom, entry, up, j + i);
    }
  }

  lemma UpwardIsDistinct(f: Numbering, idom: map<Module, Module>, up: seq<Module>, j: nat, k: nat)
    requires Numbered(f) && Rooted(f, idom) && |up| > 0 && up[0] in idom && Descends(idom, f.entry, up)
    requires j < k < |up|
    ensures up[j] != up[k] && up[j] != f.entry
  {
    UpwardOnChain(f, idom, up);
    DescendsSlice(idom, f.entry, up, j, k + 1);
    UpwardOnChain(f, idom, up[j..k + 1]);
    assert Hangs(idom, f.entry, up, j + 1);
  }

  /** A chain that stops short of the entry is shorter than the number of modules. */
  lemma NumberBound(f: Numbering, idom: map<Module, Module>, up: seq<Module>)
    requires Numbered(f) && Rooted(f, idom) && |up| > 0 && up[0] in idom && Descends(idom, f.entry, up)
    requires up[|up| - 1] != f.entry
    ensures |up| < |f.idx|
  {
    UpwardOnChain(f, idom, up);
    forall j, k | 0 <= j < k < |up| ensures up[j] != up[k] && up[j] != f.entry {
      UpwardIsDistinct(f, idom, up, j, k);
    }
    hide Numbered, Descends, Chain;
    forall k | 0 <= k < |up| ensures up[k] in f.idx && up[k] != f.entry {
      if k < |up| - 1 { assert up[k] != up[k + 1]; }
    }
    DistinctBound(up, f.idx.Keys, f.entry);
  }

  lemma DistinctBound(s: seq<Module>, all: set<Module>, left: Module)
    requires forall j, k :: 0 <= j < k < |s| ==> s[j] != s[k]
    requires forall k :: 0 <= k < |s| ==> s[k] in all && s[k] != left
    requires left in all
    ensures |s| < |all|
  {
    ListSize(s);
    Walk.SubsetSize(Elements(s), all - {left});
  }

  // ----- gateways -----

  /**
   * A gateway gates enough modules to be worth naming and hangs from the entry or from a module
   * that gates more than a pass-through link would.
   */
  predicate IsGateway(entry: Module, idom: map<Module, Module>, weight: map<Module, nat>, node: Module)
    requires node in weight && (node in idom ==> idom[node] in weight)
  {
    && node != entry && weight[node] >= GATEWAY_MIN_MODULES
    && node in idom && idom[node] != node
    && (idom[node] == entry || weight[idom[node]] > weight[node] + 1)
  }

  /** The modules that dominate `n`. */
  ghost function DominatorsOf(g: Graph, entry: Module, reachable: set<Module>, n: Module): set<Module> {
    set m | m in reachable && Dominates(g, entry, m, n)
  }

  ghost predicate Analysed(f: Numbering, g: Graph, entry: Module, reachable: set<Module>, idom: map<Module, Module>,
                           weight: map<Module, nat>)
  {
    && DominatorTreeOf(f, g, entry, reachable, idom)
    && weight.Keys == reachable
    && forall m :: m in reachable ==> weight[m] == |Gated(g, entry, reachable, m)|
  }

  /** A module gates itself and whatever the modules hanging from it gate. */
  lemma ParentGates(f: Numbering, g: Graph, entry: Module, reachable: set<Module>, idom: map<Module, Module>, n: Module)
    requires DominatorTreeOf(f, g, entry, reachable, idom) && n in reachable && n != entry
    ensures Gated(g, entry, reachable, n) + {idom[n]} <= Gated(g, entry, reachable, idom[n])
    ensures idom[n] !in Gated(g, entry, reachable, n)
    ensures f.idx[idom[n]] < f.idx[n]
  {
    var p := idom[n];
    ChainDescends(f, idom, p);
    forall w | w in Gated(g, entry, reachable, n) ensures w in Gated(g, entry, reachable, p) {
      assert n in Chain(f, idom, w);
      ChainSuffix(f, idom, n, w);
      assert p in Chain(f, idom, n);
    }
    assert p in Chain(f, idom, p);
    assert n !in Chain(f, idom, p);
  }

  /** A link whose parent weighs one more is all its parent gates. */
  lemma PassThroughLink(f: Numbering, g: Graph, entry: Module, reachable: set<Module>, idom: map<Module, Module>,
                        weight: map<Module, nat>, n: Module)
    requires Analysed(f, g, entry, reachable, idom, weight) && n in reachable && n != entry
    ensures weight[idom[n]] >= weight[n] + 1
    ensures weight[idom[n]] <= weight[n] + 1 <==>
              Gated(g, entry, reachable, idom[n]) == Gated(g, entry, reachable, n) + {idom[n]}
  {
    ParentGates(f, g, entry, reachable, idom, n);
    var big, small := Gated(g, entry, reachable, idom[n]), Gated(g, entry, reachable, n) + {idom[n]};
    hide *;
    assert big == small + (big - small);
    assert |big| == |small| + |big - small|;
  }

  /**
   * Every module heavy enough to report is reported through a gateway above it: what the gateway
   * gates beyond the module is only the pass-through chain between the two.
   */
  lemma {:induction false} GatewayAbove(f: Numbering, g: Graph, entry: Module, reachable: set<Module>, idom: map<Module, Module>,
                                        weight: map<Module, nat>, n: Module) returns (gate: Module)
    requires Analysed(f, g, entry, reachable, idom, weight)
    requires n in reachable && n != entry && weight[n] >= GATEWAY_MIN_MODULES
    ensures gate in reachable && IsGateway(entry, idom, weight, gate)
    ensures Dominates(g, entry, gate, n)
    ensures Gated(g, entry, reachable, gate) <= Gated(g, entry, reachable, n) + DominatorsOf(g, entry, reachable, n)
    decreases f.idx[n]
  {
    var p := idom[n];
    ParentGates(f, g, entry, reachable, idom, n);
    if IsGateway(entry, idom, weight, n) {
      gate := n;
      ChainDescends(f, idom, n);
    } else {
      PassThroughLink(f, g, entry, reachable, idom, weight, n);
      gate := GatewayAbove(f, g, entry, reachable, idom, weight, p);
      ParentImmediatelyDominates(f, g, entry, reachable, idom, n);
      assert Dominates(g, entry, p, n);
      forall m | Dominates(g, entry, m, p) ensures Dominates(g, entry, m, n) {
        DominatesTransitively(f, g, entry, reachable, idom, m, p, n);
      }
    }
  }

  lemma DominatesTransitively(f: Numbering, g: Graph, entry: Module, reachable: set<Module>, idom: map<Module, Module>,
                              a: Module, b: Module, c: Module)
    requires DominatorTreeOf(f, g, entry, reachable, idom) && c in reachable
    requires Dominates(g, entry, a, b) && Dominates(g, entry, b, c)
    ensures b in reachable && Dominates(g, entry, a, c)
  {
    assert b in Chain(f, idom, c);
    ChainSuffix(f, idom, b, c);
    assert a in Chain(f, idom, b);
  }

  /** No two gateways report the same modules: only one above `n` adds nothing but its own chain. */
  lemma GatewayIsUnique(f: Numbering, g: Graph, entry: Module, reachable: set<Module>, idom: map<Module, Module>,
                        weight: map<Module, nat>, n: Module, a: Module, b: Module)
    requires Analysed(f, g, entry, reachable, idom, weight) && n in reachable
    requires a in reachable && IsGateway(entry, idom, weight, a) && Dominates(g, entry, a, n)
    requires b in reachable && IsGateway(entry, idom, weight, b) && Dominates(g, entry, b, n)
    requires Gated(g, entry, reachable, a) <= Gated(g, entry, reachable, n) + DominatorsOf(g, entry, reachable, n)
    requires Gated(g, entry, reachable, b) <= Gated(g, entry, reachable, n) + DominatorsOf(g, entry, reachable, n)
    ensures a == b
  {
    if a != b {
      var (hi, lo) := if f.idx[a] < f.idx[b] then (a, b) else (b, a);
      GatewayHasNoneBelow(f, g, entry, reachable, idom, weight, n, hi, lo);
    }
  }

  /** A gateway that does not hang from the entry has a sibling branch its parent gates and it does not. */
  lemma SiblingBranch(f: Numbering, g: Graph, entry: Module, reachable: set<Module>, idom: map<Module, Module>,
                      weight: map<Module, nat>, lo: Module) returns (x: Module)
    requires Analysed(f, g, entry, reachable, idom, weight)
    requires lo in reachable && IsGateway(entry, idom, weight, lo) && idom[lo] != entry
    ensures x in Gated(g, entry, reachable, idom[lo]) && x !in Gated(g, entry, reachable, lo) && x != idom[lo]
  {
    PassThroughLink(f, g, entry, reachable, idom, weight, lo);
    ParentGates(f, g, entry, reachable, idom, lo);
    hide *;
    var extra := Gated(g, entry, reachable, idom[lo]) - (Gated(g, entry, reachable, lo) + {idom[lo]});
    assert extra != {};
    x :| x in extra;
  }

  lemma GatewayHasNoneBelow(f: Numbering, g: Graph, entry: Module, reachable: set<Module>, idom: map<Module, Module>,
                            weight: map<Module, nat>, n: Module, hi: Module, lo: Module)
    requires Analysed(f, g, entry, reachable, idom, weight) && n in reachable
    requires hi in reachable && hi != entry && Dominates(g, entry, hi, n)
    requires lo in reachable && IsGateway(entry, idom, weight, lo) && Dominates(g, entry, lo, n)
    requires f.idx[hi] < f.idx[lo]
    ensures !(Gated(g, entry, reachable, hi) <= Gated(g, entry, reachable, n) + DominatorsOf(g, entry, reachable, n))
  {
    hide DominatorTreeOf, Dominates, IsGateway;
    ParentIsBelow(f, g, entry, reachable, idom, n, hi, lo);
    var x := SiblingBranch(f, g, entry, reachable, idom, weight, lo);
    SiblingIsElsewhere(f, g, entry, reachable, idom, n, lo, x);
    DominatesTransitively(f, g, entry, reachable, idom, hi, idom[lo], x);
    assert x in Gated(g, entry, reachable, hi);
  }

  lemma ParentIsBelow(f: Numbering, g: Graph, entry: Module, reachable: set<Module>, idom: map<Module, Module>,
                      n: Module, hi: Module, lo: Module)
    requires DominatorTreeOf(f, g, entry, reachable, idom) && n in reachable
    requires hi in reachable && hi != entry && Dominates(g, entry, hi, n)
    requires lo in reachable && Dominates(g, entry, lo, n) && f.idx[hi] < f.idx[lo]
    ensures lo in idom && lo != entry && idom[lo] != entry && Dominates(g, entry, hi, idom[lo])
  {
    hide Dominates;
    assert hi in Chain(f, idom, n) && lo in Chain(f, idom, n);
    ChainLinear(f, idom, hi, lo, n);
    assert hi in Chain(f, idom, idom[lo]);
    ChainDescends(f, idom, idom[lo]);
  }

  lemma SiblingIsElsewhere(f: Numbering, g: Graph, entry: Module, reachable: set<Module>, idom: map<Module, Module>,
                           n: Module, lo: Module, x: Module)
    requires DominatorTreeOf(f, g, entry, reachable, idom) && n in reachable
    requires lo in reachable && lo != entry && Dominates(g, entry, lo, n)
    requires x in Gated(g, entry, reachable, idom[lo]) && x !in Gated(g, entry, reachable, lo) && x != idom[lo]
    ensures x !in Gated(g, entry, reachable, n) && x !in DominatorsOf(g, entry, reachable, n)
  {
    if Dominates(g, entry, n, x) {
      DominatesTransitively(f, g, entry, reachable, idom, lo, n, x);
    }
    if Dominates(g, entry, x, n) {
      hide Dominates;
      assert lo in Chain(f, idom, n) && x in Chain(f, idom, n) && idom[lo] in Chain(f, idom, x);
      BelowParentIsBelow(f, idom, lo, x, n);
    }
  }

  /** On one chain, whatever is below the parent of `lo` is below `lo`. */
  lemma BelowParentIsBelow(f: Numbering, idom: map<Module, Module>, lo: Module, x: Module, n: Module)
    requires Numbered(f) && Rooted(f, idom) && n in idom && lo in Chain(f, idom, n) && x in Chain(f, idom, n)
    requires lo in idom && x in idom && lo != f.entry && idom[lo] in Chain(f, idom, x) && x != idom[lo]
    ensures lo in Chain(f, idom, x)
  {
    if f.idx[x] < f.idx[lo] {
      ChainLinear(f, idom, x, lo, n);
      ChainDescends(f, idom, idom[lo]);
      ChainDescends(f, idom, x);
    } else {
      ChainLinear(f, idom, lo, x, n);
    }
  }

  // ----- the report, heaviest first -----

  /** Heavier first; among equals by path name, which `rank` stands for. */
  predicate Before(rank: Module -> int, a: (Module, nat), b: (Module, nat)) {
    a.1 > b.1 || (a.1 == b.1 && rank(a.0) < rank(b.0))
  }

  ghost predicate Sorted(rank: Module -> int, rows: seq<(Module, nat)>) {
    forall j, k :: 0 <= j < k < |rows| ==> !Before(rank, rows[k], rows[j])
  }

  method Insert(rank: Module -> int, rows: seq<(Module, nat)>, row: (Module, nat)) returns (r: seq<(Module, nat)>)
    requires Sorted(rank, rows)
    ensures Sorted(rank, r) && multiset(r) == multiset(rows) + multiset{row}
  {
    var k := |rows|;
    while k > 0 && Before(rank, row, rows[k - 1])
      invariant 0 <= k <= |rows| && forall j :: k <= j < |rows| ==> Before(rank, row, rows[j])
    {
      k := k - 1;
    }
    r := rows[..k] + [row] + rows[k..];
    InsertKeepsSorted(rank, rows, k, row);
    assert rows == rows[..k] + rows[k..];
    assert multiset(r) == multiset(rows[..k]) + multiset{row} + multiset(rows[k..]);
  }

  lemma InsertKeepsSorted(rank: Module -> int, rows: seq<(Module, nat)>, k: nat, row: (Module, nat))
    requires Sorted(rank, rows) && k <= |rows|
    requires forall j :: k <= j < |rows| ==> Before(rank, row, rows[j])
    requires k > 0 ==> !Before(rank, row, rows[k - 1])
    ensures Sorted(rank, rows[..k] + [row] + rows[k..])
  {
    var r := rows[..k] + [row] + rows[k..];
    forall i, j | 0 <= i < j < |r| ensures !Before(rank, r[j], r[i]) {
      var a, b := if i < k then i else i - 1, if j < k then j else j - 1;
      if i != k && j != k {
        assert r[i] == rows[a] && r[j] == rows[b];
      } else if j == k && i < k - 1 {
        assert !Before(rank, rows[k - 1], rows[i]);
      }
    }
  }

  method Sort(rank: Module -> int, rows: seq<(Module, nat)>) returns (r: seq<(Module, nat)>)
    ensures Sorted(rank, r) && multiset(r) == multiset(rows)
  {
    r := [];
    for k := 0 to |rows|
      invariant Sorted(rank, r) && multiset(r) == multiset(rows[..k])
    {
      r := Insert(rank, r, rows[k]);
      assert rows[..k + 1] == rows[..k] + [rows[k]];
    }
    assert rows[..|rows|] == rows;
  }

  /**
   * What deserves a report: a module other than the entry that gates enough, and whose immediate dominator is the entry
   * or gates something besides itself and what the module gates.
   */
  ghost predicate WorthReporting(g: Graph, entry: Module, reachable: set<Module>, n: Module) {
    && n in reachable && n != entry && |Gated(g, entry, reachable, n)| >= GATEWAY_MIN_MODULES
    && exists p :: ImmediatelyDominates(g, entry, p, n)
                   && (p == entry || !(Gated(g, entry, reachable, p) <= Gated(g, entry, reachable, n) + {p}))
  }

  /** Heaviest first, equals by path name; every row is a module worth reporting with what it gates, once. */
  ghost predicate ReportsHeaviest(g: Graph, entry: Module, reachable: set<Module>, rank: Module -> int, report: seq<(Module, nat)>) {
    && (forall k :: 0 <= k < |report| ==>
          WorthReporting(g, entry, reachable, report[k].0) && report[k].1 == |Gated(g, entry, reachable, report[k].0)|)
    && (forall j, k :: 0 <= j < k < |report| ==>
          && report[j].0 != report[k].0
          && (report[j].1 > report[k].1 || (report[j].1 == report[k].1 && rank(report[j].0) <= rank(report[k].0))))
  }

  /** What is worth reporting and not in the report is no heavier than its rows, and comes no sooner among equals. */
  ghost predicate LeavesOutLighter(g: Graph, entry: Module, reachable: set<Module>, rank: Module -> int, report: seq<(Module, nat)>) {
    forall n :: WorthReporting(g, entry, reachable, n) && (forall k :: 0 <= k < |report| ==> report[k].0 != n) ==>
      && |report| == GATEWAY_LIMIT
      && forall k :: 0 <= k < |report| ==>
           var size := |Gated(g, entry, reachable, n)|;
           report[k].1 > size || (report[k].1 == size && rank(report[k].0) <= rank(n))
  }

  /** The test made on the dominator tree picks exactly the modules worth reporting. */
  lemma GatewayIsWorthReporting(f: Numbering, g: Graph, entry: Module, reachable: set<Module>, idom: map<Module, Module>,
                                weight: map<Module, nat>, n: Module)
    requires Analysed(f, g, entry, reachable, idom, weight)
    ensures n in weight && IsGateway(entry, idom, weight, n) <==> WorthReporting(g, entry, reachable, n)
  {
    if n in reachable && n != entry {
      var p := idom[n];
      ParentImmediatelyDominates(f, g, entry, reachable, idom, n);
      PassThroughLink(f, g, entry, reachable, idom, weight, n);
      ParentGates(f, g, entry, reachable, idom, n);
      hide DominatorTreeOf, Gated, Dominates;
      forall q | ImmediatelyDominates(g, entry, q, n) ensures q == p {
        ImmediateDominatorIsUnique(f, g, entry, reachable, idom, p, q, n);
      }
    }
  }

  lemma ImmediateDominatorIsUnique(f: Numbering, g: Graph, entry: Module, reachable: set<Module>, idom: map<Module, Module>,
                                   p: Module, q: Module, n: Module)
    requires DominatorTreeOf(f, g, entry, reachable, idom) && n in reachable
    requires ImmediatelyDominates(g, entry, p, n) && ImmediatelyDominates(g, entry, q, n)
    ensures p == q
  {
    hide Dominates;
    assert p in Chain(f, idom, n) && q in Chain(f, idom, n);
    ChainDescends(f, idom, n);
    ChainDescends(f, idom, p);
    ChainDescends(f, idom, q);
    assert p in Chain(f, idom, q) && q in Chain(f, idom, p);
  }

  /**
   * The heaviest gateways: each one reported with its weight, in order, and none left out that
   * belongs ahead of one reported.
   */
  method GatewaysFor(ghost f: Numbering, ghost g: Graph, entry: Module, ghost reachable: set<Module>, idom: map<Module, Module>,
                     weight: map<Module, nat>, rank: Module -> int)
    returns (report: seq<(Module, nat)>)
    requires forall n :: n in weight && n in idom ==> idom[n] in weight
    ensures |report| <= GATEWAY_LIMIT && Sorted(rank, report)
    ensures forall row :: row in report ==> row.0 in weight && IsGateway(entry, idom, weight, row.0) && row.1 == weight[row.0]
    ensures forall n :: n in weight && IsGateway(entry, idom, weight, n) && (n, weight[n]) !in report ==>
              |report| == GATEWAY_LIMIT && forall row :: row in report ==> !Before(rank, (n, weight[n]), row)
    ensures Analysed(f, g, entry, reachable, idom, weight) ==>
              ReportsHeaviest(g, entry, reachable, rank, report) && LeavesOutLighter(g, entry, reachable, rank, report)
  {
    var gateways: seq<(Module, nat)> := [];
    var nodes := weight.Keys;
    hide Analysed, ReportsHeaviest, LeavesOutLighter;
    while nodes != {}
      invariant nodes <= weight.Keys
      invariant forall row :: row in gateways ==> row.0 in weight && row.0 !in nodes
      invariant forall row :: row in gateways ==> row.0 in weight && IsGateway(entry, idom, weight, row.0) && row.1 == weight[row.0]
      invariant forall n :: n in weight && n !in nodes && IsGateway(entry, idom, weight, n) ==> (n, weight[n]) in gateways
      invariant DistinctRows(gateways)
      decreases nodes
    {
      var node := Wrappers.Pick(nodes);
      nodes := nodes - {node};
      if IsGateway(entry, idom, weight, node) {
        gateways := gateways + [(node, weight[node])];
      }
    }
    var sorted := Sort(rank, gateways);
    SameElements(sorted, gateways);
    SameDistinct(sorted, gateways);
    report := if |sorted| <= GATEWAY_LIMIT then sorted else sorted[..GATEWAY_LIMIT];
    LeftOutOfPrefix(entry, idom, weight, rank, sorted, report);
    if Analysed(f, g, entry, reachable, idom, weight) {
      ReportIsExact(f, g, entry, reachable, idom, weight, rank, report);
    }
  }

  ghost predicate DistinctRows(rows: seq<(Module, nat)>) {
    forall j, k :: 0 <= j < k < |rows| ==> rows[j].0 != rows[k].0
  }

  lemma LeftOutOfPrefix(entry: Module, idom: map<Module, Module>, weight: map<Module, nat>, rank: Module -> int,
                        sorted: seq<(Module, nat)>, report: seq<(Module, nat)>)
    requires (forall n :: n in weight && n in idom ==> idom[n] in weight) && Sorted(rank, sorted)
    requires forall n :: n in weight && IsGateway(entry, idom, weight, n) ==> (n, weight[n]) in sorted
    requires report == if |sorted| <= GATEWAY_LIMIT then sorted else sorted[..GATEWAY_LIMIT]
    ensures forall n :: n in weight && IsGateway(entry, idom, weight, n) && (n, weight[n]) !in report ==>
              |report| == GATEWAY_LIMIT && forall row :: row in report ==> !Before(rank, (n, weight[n]), row)
  {
    hide IsGateway;
    forall n | n in weight && IsGateway(entry, idom, weight, n) && (n, weight[n]) !in report
      ensures |report| == GATEWAY_LIMIT && forall row :: row in report ==> !Before(rank, (n, weight[n]), row)
    {
      var k :| 0 <= k < |sorted| && sorted[k] == (n, weight[n]);
    }
  }

  /** Rows that name different modules still do in any order. */
  lemma SameDistinct(a: seq<(Module, nat)>, b: seq<(Module, nat)>)
    requires multiset(a) == multiset(b) && DistinctRows(b)
    ensures DistinctRows(a)
  {
    forall j, k | 0 <= j < k < |a| ensures a[j].0 != a[k].0 {
      SameElements(a, b);
      assert a[j] in b && a[k] in b;
      OnceInDistinct(b, a[j]);
      if a[j] == a[k] { TwiceInSeq(a, j, k); }
      var x :| 0 <= x < |b| && b[x] == a[j];
      var y :| 0 <= y < |b| && b[y] == a[k];
    }
  }

  lemma {:induction false} OnceInDistinct(b: seq<(Module, nat)>, row: (Module, nat))
    requires DistinctRows(b)
    ensures multiset(b)[row] <= 1
    decreases |b|
  {
    if b != [] {
      var front, last := b[..|b| - 1], b[|b| - 1];
      assert b == front + [last];
      OnceInDistinct(front, row);
      if last == row {
        assert row !in front;
        assert multiset(front)[row] == 0;
      }
    }
  }

  lemma TwiceInSeq<T>(a: seq<T>, j: nat, k: nat)
    requires j < k < |a| && a[j] == a[k]
    ensures multiset(a)[a[j]] >= 2
  {
    assert a == a[..k] + [a[k]] + a[k + 1..];
    assert a[..k][j] == a[j];
    assert a[j] in a[..k];
  }

  lemma ReportIsExact(f: Numbering, g: Graph, entry: Module, reachable: set<Module>, idom: map<Module, Module>,
                      weight: map<Module, nat>, rank: Module -> int, report: seq<(Module, nat)>)
    requires Analysed(f, g, entry, reachable, idom, weight)
    requires (forall n :: n in weight && n in idom ==> idom[n] in weight) && Sorted(rank, report) && DistinctRows(report)
    requires forall row :: row in report ==> row.0 in weight && IsGateway(entry, idom, weight, row.0) && row.1 == weight[row.0]
    requires forall n :: n in weight && IsGateway(entry, idom, weight, n) && (n, weight[n]) !in report ==>
               |report| == GATEWAY_LIMIT && forall row :: row in report ==> !Before(rank, (n, weight[n]), row)
    ensures ReportsHeaviest(g, entry, reachable, rank, report) && LeavesOutLighter(g, entry, reachable, rank, report)
  {
    forall n ensures n in weight && IsGateway(entry, idom, weight, n) <==> WorthReporting(g, entry, reachable, n) {
      GatewayIsWorthReporting(f, g, entry, reachable, idom, weight, n);
    }
    hide IsGateway, WorthReporting, Gated, DominatorTreeOf;
    forall k | 0 <= k < |report| ensures report[k] in report {}
  }

  lemma SameElements<T>(a: seq<T>, b: seq<T>)
    requires multiset(a) == multiset(b)
    ensures forall x :: x in a <==> x in b
  {
    forall x ensures x in a <==> x in b {
      assert x in a <==> x in multiset(a);
      assert x in b <==> x in multiset(b);
    }
  }
}
