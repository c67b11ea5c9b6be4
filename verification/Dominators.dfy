/** The dominator tree of an entry's import graph, and what its subtree sizes mean. */
module Dominators {
  import opened ImportGraph
  import opened DominatorTree
  import opened DominatorPass
  import opened DominatorWeight
  import opened DominatorFixpoint
  import DepthFirst
  import Wrappers
  import Walk

  // ----- what the result means -----

  /** `d` is the dominator of `n`, other than `n`, that every other dominator of `n` also dominates. */
  ghost predicate ImmediatelyDominates(g: Graph, entry: Module, d: Module, n: Module) {
    && d != n && Dominates(g, entry, d, n)
    && forall m :: Dominates(g, entry, m, n) && m != n ==> Dominates(g, entry, m, d)
  }

  /** The modules `m` gates: every import path from the entry to them goes through `m`. */
  ghost function Gated(g: Graph, entry: Module, reachable: set<Module>, m: Module): set<Module> {
    set n | n in reachable && Dominates(g, entry, m, n)
  }

  ghost predicate IsReachableSet(g: Graph, entry: Module, reachable: set<Module>) {
    forall m :: m in reachable <==> Reaches(g, entry, m)
  }

  /** A numbering of the reachable part of `g` whose chains under `idom` are exactly the dominators. */
  ghost predicate DominatorTreeOf(f: Numbering, g: Graph, entry: Module, reachable: set<Module>, idom: map<Module, Module>) {
    && Numbered(f) && f.entry == entry && f.idx.Keys == reachable
    && Rooted(f, idom) && idom.Keys == f.idx.Keys
    && forall m, n :: n in reachable ==> (m in Chain(f, idom, n) <==> Dominates(g, entry, m, n))
  }

  // ----- restriction to the reachable modules -----

  function FilterIn(deps: seq<Module>, keep: set<Module>): (kept: seq<Module>)
    ensures forall d :: d in kept <==> d in deps && d in keep
  {
    if deps == [] then []
    else if deps[0] in keep then [deps[0]] + FilterIn(deps[1..], keep)
    else FilterIn(deps[1..], keep)
  }

  function Restrict(g: Graph, reachable: set<Module>): Graph {
    map file | file in reachable :: FilterIn(DepsOf(g, file), reachable)
  }

  lemma {:induction false} ReachableIsClosed(g: Graph, entry: Module, reachable: set<Module>)
    requires IsReachableSet(g, entry, reachable)
    ensures entry in reachable
    ensures forall m, d :: m in reachable && d in DepsOf(g, m) ==> d in reachable
  {
    assert IsPath(g, [entry], entry, entry);
    forall m, d | m in reachable && d in DepsOf(g, m) ensures d in reachable {
      var p :| IsPath(g, p, entry, m);
      PathStep(g, p, entry, m, d);
    }
  }

  /** A path of more than one module is a path to the one before its last, and one import more. */
  lemma LastImport(g: Graph, p: seq<Module>, a: Module, b: Module)
    requires |p| > 1
    ensures IsPath(g, p, a, b) <==> p[|p| - 1] == b && IsPath(g, p[..|p| - 1], a, p[|p| - 2]) && b in DepsOf(g, p[|p| - 2])
  {
    var q := p[..|p| - 1];
    if p[|p| - 1] == b && IsPath(g, q, a, p[|p| - 2]) && b in DepsOf(g, p[|p| - 2]) {
      PathStep(g, q, a, p[|p| - 2], b);
      assert p == q + [b];
    }
  }

  lemma {:induction false} RestrictKeepsPath(g: Graph, entry: Module, reachable: set<Module>, p: seq<Module>, n: Module)
    requires entry in reachable && forall m, d :: m in reachable && d in DepsOf(g, m) ==> d in reachable
    ensures IsPath(Restrict(g, reachable), p, entry, n) <==> IsPath(g, p, entry, n)
    ensures IsPath(g, p, entry, n) ==> n in reachable
    decreases |p|
  {
    if |p| > 1 {
      RestrictKeepsPath(g, entry, reachable, p[..|p| - 1], p[|p| - 2]);
      LastImport(g, p, entry, n);
      LastImport(Restrict(g, reachable), p, entry, n);
      hide IsPath;
    }
  }

  lemma RestrictKeepsDominators(g: Graph, entry: Module, reachable: set<Module>, m: Module, n: Module)
    requires entry in reachable && forall m, d :: m in reachable && d in DepsOf(g, m) ==> d in reachable
    ensures Dominates(Restrict(g, reachable), entry, m, n) <==> Dominates(g, entry, m, n)
  {
    forall p ensures IsPath(Restrict(g, reachable), p, entry, n) <==> IsPath(g, p, entry, n) {
      RestrictKeepsPath(g, entry, reachable, p, n);
    }
  }

  // ----- preparing the fixpoint -----

  method IndexOf(rpo: seq<Module>) returns (rpoIndex: map<Module, nat>)
    requires DepthFirst.Distinct(rpo)
    ensures forall n :: n in rpoIndex <==> n in rpo
    ensures forall k :: 0 <= k < |rpo| ==> rpo[k] in rpoIndex && rpoIndex[rpo[k]] == k
  {
    rpoIndex := map[];
    for index := 0 to |rpo|
      invariant forall n :: n in rpoIndex <==> n in rpo[..index]
      invariant forall k :: 0 <= k < index ==> rpo[k] in rpoIndex && rpoIndex[rpo[k]] == k
    {
      rpoIndex := rpoIndex[rpo[index] := index];
    }
    assert rpo[..|rpo|] == rpo;
  }

  /** The importers of each module, gathered from the successor lists in whatever order they are met. */
  method Importers(succ: Graph, rpoIndex: map<Module, nat>) returns (preds: map<Module, seq<Module>>)
    requires forall u, n :: u in succ && n in succ[u] ==> u in rpoIndex && n in rpoIndex
    ensures forall n, u :: n in preds && u in preds[n] ==> u in succ && n in succ[u]
    ensures forall n, u :: u in succ && n in succ[u] ==> n in preds && u in preds[n]
  {
    preds := map[];
    var files := succ.Keys;
    while files != {}
      invariant files <= succ.Keys
      invariant forall n, u :: n in preds && u in preds[n] ==> u in succ && n in succ[u]
      invariant forall n, u :: u in succ && u !in files && n in succ[u] ==> n in preds && u in preds[n]
      decreases files
    {
      var file := Wrappers.Pick(files);
      files := files - {file};
      if file in rpoIndex {
        var children := succ[file];
        for j := 0 to |children|
          invariant forall n, u :: n in preds && u in preds[n] ==> u in succ && n in succ[u]
          invariant forall n, u :: u in succ && u !in files && u != file && n in succ[u] ==> n in preds && u in preds[n]
          invariant forall k :: 0 <= k < j ==> children[k] in preds && file in preds[children[k]]
        {
          var child := children[j];
          if child in rpoIndex {
            preds := preds[child := (if child in preds then preds[child] else []) + [file]];
          }
        }
      }
    }
  }

  function TreeOf(entry: Module, idx: map<Module, nat>, parent: map<Module, Module>): map<Module, Module>
    requires forall m :: m in idx && m != entry ==> m in parent
  {
    map m | m in idx :: if m == entry then entry else parent[m]
  }

  lemma SearchParent(s: Graph, entry: Module, postorder: seq<Module>, parent: map<Module, Module>, rpo: seq<Module>,
                     idx: map<Module, nat>, m: Module)
    requires DepthFirst.FinishingOrder(s, entry, postorder, parent)
    requires |rpo| == |postorder| && forall k :: 0 <= k < |rpo| ==> rpo[k] == postorder[|rpo| - 1 - k]
    requires forall n :: n in idx <==> n in rpo
    requires forall k :: 0 <= k < |rpo| ==> rpo[k] in idx && idx[rpo[k]] == k
    requires m in idx
    ensures rpo[0] == entry && idx[entry] == 0
    ensures m != entry ==> m in parent && m in DepsOf(s, parent[m]) && parent[m] in idx && idx[parent[m]] < idx[m]
  {
    hide DepthFirst.Distinct;
    var n := |rpo|;
    var i :| 0 <= i < n && rpo[i] == m;
    var k := n - 1 - i;
    assert postorder[k] == m;
    if m != entry {
      assert DepthFirst.OccursAfter(postorder, k, parent[m]);
      var j :| k < j < n && postorder[j] == parent[m];
      assert rpo[n - 1 - j] == parent[m];
    }
  }

  lemma SearchIsClosed(s: Graph, postorder: seq<Module>, rpo: seq<Module>, m: Module, d: Module)
    requires forall k, d :: 0 <= k < |postorder| && d in DepsOf(s, postorder[k]) ==> d in postorder
    requires |rpo| == |postorder| && forall k :: 0 <= k < |rpo| ==> rpo[k] == postorder[|rpo| - 1 - k]
    requires m in rpo && d in DepsOf(s, m)
    ensures d in rpo
  {
    var i :| 0 <= i < |rpo| && rpo[i] == m;
    assert postorder[|rpo| - 1 - i] == m;
    assert d in postorder;
    var j :| 0 <= j < |postorder| && postorder[j] == d;
    assert rpo[|rpo| - 1 - j] == d;
  }

  lemma IndexIsInverse(rpo: seq<Module>, idx: map<Module, nat>, n: Module)
    requires n in idx ==> n in rpo
    requires forall k :: 0 <= k < |rpo| ==> rpo[k] in idx && idx[rpo[k]] == k
    ensures n in idx ==> idx[n] < |rpo| && rpo[idx[n]] == n
  {
    if n in idx {
      var k :| 0 <= k < |rpo| && rpo[k] == n;
    }
  }

  ghost predicate Inverse(rpo: seq<Module>, idx: map<Module, nat>) {
    && (forall n :: n in idx ==> idx[n] < |rpo| && rpo[idx[n]] == n)
    && (forall k :: 0 <= k < |rpo| ==> rpo[k] in idx && idx[rpo[k]] == k)
  }

  lemma InverseIsInjective(rpo: seq<Module>, idx: map<Module, nat>, m: Module, n: Module)
    requires Inverse(rpo, idx) && m in idx && n in idx && idx[m] == idx[n]
    ensures m == n
  {
  }

  lemma NumbersFrom(s: Graph, entry: Module, idx: map<Module, nat>, tree: map<Module, Module>, rpo: seq<Module>)
    requires Inverse(rpo, idx) && |rpo| > 0 && rpo[0] == entry
    requires tree.Keys == idx.Keys && entry in tree && tree[entry] == entry
    requires forall m :: m in idx && m != entry ==> m in DepsOf(s, tree[m]) && tree[m] in idx && idx[tree[m]] < idx[m]
    requires forall m, d :: m in idx && d in DepsOf(s, m) ==> d in idx
    ensures Numbered(Numbering(s, entry, idx, tree)) && InOrder(Numbering(s, entry, idx, tree), rpo)
  {
    var f := Numbering(s, entry, idx, tree);
    assert idx[entry] == 0;
    assert InOrder(f, rpo);
    assert Rooted(f, tree);
    forall m, n | m in idx && n in idx && idx[m] == idx[n] ensures m == n {
      InverseIsInjective(rpo, idx, m, n);
    }
    assert forall n :: n in f.tree && n != f.entry ==> n in DepsOf(f.g, f.tree[n]);
  }

  lemma {:induction false} InOrderSize(f: Numbering, rpo: seq<Module>)
    requires InOrder(f, rpo)
    ensures |rpo| == |f.idx|
  {
    ListSize(rpo);
    forall m ensures m in f.idx <==> m in rpo {
      if m in f.idx { assert rpo[f.idx[m]] == m; }
    }
    assert f.idx.Keys == Elements(rpo);
  }

  ghost function Elements(s: seq<Module>): set<Module> {
    set m | m in s
  }

  lemma {:induction false} ListSize(s: seq<Module>)
    requires forall j, k :: 0 <= j < k < |s| ==> s[j] != s[k]
    ensures |Elements(s)| == |s|
  {
    if s != [] {
      var init, last := s[..|s| - 1], s[|s| - 1];
      ListSize(init);
      assert s == init + [last];
      assert Elements(s) == Elements(init) + {last};
      assert last !in Elements(init);
    }
  }

  /** What the search and the numbering leave, before they are put together. */
  ghost predicate SearchResult(s: Graph, entry: Module, postorder: seq<Module>, parent: map<Module, Module>,
                               rpo: seq<Module>, idx: map<Module, nat>)
  {
    && DepthFirst.FinishingOrder(s, entry, postorder, parent)
    && (forall k, d :: 0 <= k < |postorder| && d in DepsOf(s, postorder[k]) ==> d in postorder)
    && |rpo| == |postorder| && (forall k :: 0 <= k < |rpo| ==> rpo[k] == postorder[|rpo| - 1 - k])
    && (forall n :: n in idx <==> n in rpo)
    && (forall k :: 0 <= k < |rpo| ==> rpo[k] in idx && idx[rpo[k]] == k)
  }

  lemma SearchInverse(s: Graph, entry: Module, postorder: seq<Module>, parent: map<Module, Module>,
                      rpo: seq<Module>, idx: map<Module, nat>)
    requires SearchResult(s, entry, postorder, parent, rpo, idx)
    ensures Inverse(rpo, idx) && |rpo| > 0 && rpo[0] == entry && entry in idx
  {
    assert rpo[0] in idx;
    SearchParent(s, entry, postorder, parent, rpo, idx, rpo[0]);
    forall m | m in idx ensures idx[m] < |rpo| && rpo[idx[m]] == m {
      IndexIsInverse(rpo, idx, m);
    }
  }

  lemma SearchTree(s: Graph, entry: Module, postorder: seq<Module>, parent: map<Module, Module>,
                   rpo: seq<Module>, idx: map<Module, nat>)
    requires SearchResult(s, entry, postorder, parent, rpo, idx)
    ensures forall m :: m in idx && m != entry ==>
              m in parent && m in DepsOf(s, parent[m]) && parent[m] in idx && idx[parent[m]] < idx[m]
    ensures forall m, d :: m in idx && d in DepsOf(s, m) ==> d in idx
  {
    forall m | m in idx && m != entry
      ensures m in parent && m in DepsOf(s, parent[m]) && parent[m] in idx && idx[parent[m]] < idx[m]
    {
      SearchParent(s, entry, postorder, parent, rpo, idx, m);
    }
    forall m, d | m in idx && d in DepsOf(s, m) ensures d in idx {
      SearchIsClosed(s, postorder, rpo, m, d);
    }
  }

  /** The search's finishing order, reversed, numbers a closed set of modules from the entry. */
  lemma SearchNumbers(s: Graph, entry: Module, postorder: seq<Module>, parent: map<Module, Module>, rpo: seq<Module>,
                      idx: map<Module, nat>)
    requires SearchResult(s, entry, postorder, parent, rpo, idx)
    ensures forall m :: m in idx && m != entry ==> m in parent
    ensures Numbered(Numbering(s, entry, idx, TreeOf(entry, idx, parent)))
    ensures InOrder(Numbering(s, entry, idx, TreeOf(entry, idx, parent)), rpo)
  {
    hide SearchResult, Inverse, Numbered, InOrder;
    SearchInverse(s, entry, postorder, parent, rpo, idx);
    SearchTree(s, entry, postorder, parent, rpo, idx);
    NumbersFrom(s, entry, idx, TreeOf(entry, idx, parent), rpo);
  }

  /** The numbered modules are exactly the keys of a graph whose every module is reachable. */
  lemma NumbersReachable(g: Graph, entry: Module, reachable: set<Module>, f: Numbering)
    requires IsReachableSet(g, entry, reachable) && f.g == Restrict(g, reachable) && f.entry == entry && Numbered(f)
    ensures f.idx.Keys == reachable
  {
    ReachableIsClosed(g, entry, reachable);
    forall n | n in reachable ensures n in f.idx {
      var p :| IsPath(g, p, entry, n);
      RestrictKeepsPath(g, entry, reachable, p, n);
      PathInduction(f.g, p, entry, n, f.idx.Keys);
    }
    forall n | n in f.idx ensures n in reachable {
      var p := TreePath(f, n);
      RestrictKeepsPath(g, entry, reachable, p, n);
    }
  }

  lemma TreeIsDominatorTree(g: Graph, entry: Module, reachable: set<Module>, f: Numbering, idom: map<Module, Module>)
    requires IsReachableSet(g, entry, reachable) && f.g == Restrict(g, reachable) && f.entry == entry && Numbered(f)
    requires Rooted(f, idom) && idom.Keys == f.idx.Keys && MeetsImporters(f, idom) && KeepsDominators(f, idom)
    ensures DominatorTreeOf(f, g, entry, reachable, idom)
  {
    NumbersReachable(g, entry, reachable, f);
    ReachableIsClosed(g, entry, reachable);
    forall m, n | n in reachable ensures m in Chain(f, idom, n) <==> Dominates(g, entry, m, n) {
      ChainIsDominators(f, idom, m, n);
      RestrictKeepsDominators(g, entry, reachable, m, n);
    }
  }

  lemma ParentImmediatelyDominates(f: Numbering, g: Graph, entry: Module, reachable: set<Module>, idom: map<Module, Module>, n: Module)
    requires DominatorTreeOf(f, g, entry, reachable, idom) && n in reachable && n != entry
    ensures ImmediatelyDominates(g, entry, idom[n], n)
  {
    ChainDescends(f, idom, idom[n]);
    assert idom[n] in Chain(f, idom, n);
    forall m | Dominates(g, entry, m, n) && m != n ensures Dominates(g, entry, m, idom[n]) {
      assert m in Chain(f, idom, n);
    }
  }

  lemma SubtreeIsGated(f: Numbering, g: Graph, entry: Module, reachable: set<Module>, idom: map<Module, Module>, m: Module)
    requires DominatorTreeOf(f, g, entry, reachable, idom) && m in reachable
    ensures Subtree(f, idom, m) == Gated(g, entry, reachable, m)
  {
    hide Numbered, Rooted, Chain;
  }

  lemma ReverseIsDistinct(order: seq<Module>)
    requires DepthFirst.Distinct(order)
    ensures DepthFirst.Distinct(Walk.Reversed(order))
  {
    var r := Walk.Reversed(order);
    hide Walk.Reversed;
    forall j, k | 0 <= j < k < |r| ensures r[j] != r[k] {
      assert r[j] == order[|r| - 1 - j] && r[k] == order[|r| - 1 - k];
    }
  }

  lemma FinishingIsDistinct(s: Graph, entry: Module, order: seq<Module>, parent: map<Module, Module>)
    requires DepthFirst.FinishingOrder(s, entry, order, parent)
    ensures DepthFirst.Distinct(order)
  {
  }

  /** Numbers a closed graph by the reverse postorder of a depth-first search. */
  method Number(succ: Graph, entry: Module) returns (rpo: seq<Module>, rpoIndex: map<Module, nat>, ghost f: Numbering)
    requires DepthFirst.Closed(succ, entry)
    ensures Numbered(f) && InOrder(f, rpo) && |rpo| == |f.idx|
    ensures f.g == succ && f.entry == entry && f.idx == rpoIndex
  {
    hide DepthFirst.FinishingOrder, DepthFirst.Distinct, DepthFirst.Closed, Walk.Reversed, Numbered, InOrder;
    var postorder, parent := DepthFirst.Postorder(succ, entry);
    rpo := Walk.Reverse(postorder);
    FinishingIsDistinct(succ, entry, postorder, parent);
    ReverseIsDistinct(postorder);
    assert forall k :: 0 <= k < |rpo| ==> rpo[k] == postorder[|rpo| - 1 - k];
    rpoIndex := IndexOf(rpo);
    SearchNumbers(succ, entry, postorder, parent, rpo, rpoIndex);
    f := Numbering(succ, entry, rpoIndex, TreeOf(entry, rpoIndex, parent));
    InOrderSize(f, rpo);
  }

  lemma RestrictIsClosed(g: Graph, entry: Module, reachable: set<Module>)
    requires IsReachableSet(g, entry, reachable)
    ensures DepthFirst.Closed(Restrict(g, reachable), entry)
    ensures Restrict(g, reachable).Keys == reachable
    ensures forall u, n :: u in Restrict(g, reachable) && n in Restrict(g, reachable)[u] ==> n in reachable
  {
    ReachableIsClosed(g, entry, reachable);
  }

  /**
   * The dominator analysis of one walked entry. `idom` is exactly the immediate dominator of
   * every module, and `weight` is how many modules each one gates.
   */
  method Compute(g: Graph, entry: Module, reachable: set<Module>)
    returns (idom: map<Module, Module>, weight: map<Module, nat>, ghost f: Numbering)
    requires IsReachableSet(g, entry, reachable)
    ensures DominatorTreeOf(f, g, entry, reachable, idom)
    ensures idom.Keys == weight.Keys == reachable && entry in idom && idom[entry] == entry
    ensures forall n :: n in reachable && n != entry ==> ImmediatelyDominates(g, entry, idom[n], n)
    ensures forall m :: m in reachable ==> weight[m] == |Gated(g, entry, reachable, m)|
  {
    hide *;
    var succ := Restrict(g, reachable);
    RestrictIsClosed(g, entry, reachable);
    var rpo, rpoIndex;
    rpo, rpoIndex, f := Number(succ, entry);
    NumbersReachable(g, entry, reachable, f);
    var preds := Importers(succ, rpoIndex);
    ReadyForFixpoint(f, rpo, preds);
    idom := Fixpoint(f, rpo, rpoIndex, preds);
    weight := FoldSizes(f, rpo, idom);
    TreeIsDominatorTree(g, entry, reachable, f, idom);
    ReadOff(f, g, entry, reachable, idom);
  }

  lemma ReadyForFixpoint(f: Numbering, rpo: seq<Module>, preds: map<Module, seq<Module>>)
    requires Numbered(f) && InOrder(f, rpo) && |rpo| == |f.idx| && f.g.Keys == f.idx.Keys
    requires forall n, u :: n in preds && u in preds[n] ==> u in f.g && n in f.g[u]
    requires forall n, u :: u in f.g && n in f.g[u] ==> n in preds && u in preds[n]
    ensures Prepared(f, rpo, f.idx, preds)
  {
    hide Numbered, InOrder;
  }

  lemma ReadOff(f: Numbering, g: Graph, entry: Module, reachable: set<Module>, idom: map<Module, Module>)
    requires DominatorTreeOf(f, g, entry, reachable, idom)
    ensures entry in idom && idom[entry] == entry
    ensures forall n :: n in reachable && n != entry ==> ImmediatelyDominates(g, entry, idom[n], n)
    ensures forall m :: m in reachable ==> Subtree(f, idom, m) == Gated(g, entry, reachable, m)
  {
    forall n | n in reachable && n != entry ensures ImmediatelyDominates(g, entry, idom[n], n) {
      ParentImmediatelyDominates(f, g, entry, reachable, idom, n);
    }
    forall m | m in reachable ensures Subtree(f, idom, m) == Gated(g, entry, reachable, m) {
      SubtreeIsGated(f, g, entry, reachable, idom, m);
    }
  }
}
