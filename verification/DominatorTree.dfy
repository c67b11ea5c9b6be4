/**
 * Trees given by parent pointers that decrease a numbering, the chains from a module up to the
 * entry, and what an immediate-dominator tree says about import paths.
 */
module DominatorTree {
  import opened ImportGraph

  /**
   * A graph whose modules are numbered from the entry, with a spanning tree in which every module
   * comes after the module it hangs from.
   */
  datatype Numbering = Numbering(g: Graph, entry: Module, idx: map<Module, nat>, tree: map<Module, Module>)

  ghost predicate Numbered(f: Numbering) {
    && Rooted(f, f.tree) && f.tree.Keys == f.idx.Keys
    && (forall m, n :: m in f.idx && n in f.idx && f.idx[m] == f.idx[n] ==> m == n)
    && (forall n :: n in f.tree && n != f.entry ==> n in DepsOf(f.g, f.tree[n]))
    && (forall m, d :: m in f.idx && d in DepsOf(f.g, m) ==> d in f.idx)
  }

  /** Parent pointers defined on some numbered modules, all leading down the numbering to the entry. */
  ghost predicate Rooted(f: Numbering, up: map<Module, Module>) {
    && f.entry in f.idx && f.idx[f.entry] == 0
    && f.entry in up && up[f.entry] == f.entry
    && forall n :: n in up ==> n in f.idx && up[n] in up && up[n] in f.idx && (n != f.entry ==> f.idx[up[n]] < f.idx[n])
  }

  /** The modules from `n` up to the entry. */
  ghost function Chain(f: Numbering, up: map<Module, Module>, n: Module): set<Module>
    requires Rooted(f, up) && n in up
    decreases f.idx[n]
  {
    if n == f.entry then {n} else {n} + Chain(f, up, up[n])
  }

  lemma {:induction false} ChainDescends(f: Numbering, up: map<Module, Module>, n: Module)
    requires Rooted(f, up) && n in up
    ensures n in Chain(f, up, n) && f.entry in Chain(f, up, n)
    ensures forall x :: x in Chain(f, up, n) ==> x in up && (x == n || f.idx[x] < f.idx[n])
    decreases f.idx[n]
  {
    if n != f.entry {
      ChainDescends(f, up, up[n]);
    }
  }

  lemma {:induction false} ChainSuffix(f: Numbering, up: map<Module, Module>, x: Module, n: Module)
    requires Rooted(f, up) && n in up && x in Chain(f, up, n)
    ensures x in up && Chain(f, up, x) <= Chain(f, up, n)
    decreases f.idx[n]
  {
    if x != n {
      ChainSuffix(f, up, x, up[n]);
    }
  }

  /** Of two modules on one chain, the lower-numbered is on the chain of the other. */
  lemma {:induction false} ChainLinear(f: Numbering, up: map<Module, Module>, x: Module, y: Module, n: Module)
    requires Rooted(f, up) && n in up && x in Chain(f, up, n) && y in Chain(f, up, n)
    requires x in f.idx && y in f.idx && f.idx[x] <= f.idx[y]
    ensures y in up && x in Chain(f, up, y)
    decreases f.idx[n]
  {
    ChainDescends(f, up, n);
    if y != n {
      if x == n { assert false; }
      ChainLinear(f, up, x, y, up[n]);
    }
  }

  /** Pointers that agree below a number give the same chains below it. */
  lemma {:induction false} ChainAgrees(f: Numbering, a: map<Module, Module>, b: map<Module, Module>, n: Module, k: nat)
    requires Rooted(f, a) && Rooted(f, b) && n in a && f.idx[n] < k
    requires forall m :: m in a && f.idx[m] < k ==> m in b && b[m] == a[m]
    ensures n in b && Chain(f, b, n) == Chain(f, a, n)
    decreases f.idx[n]
  {
    if n != f.entry {
      ChainAgrees(f, a, b, a[n], k);
    }
  }

  /** Every pointer goes to a spanning-tree ancestor. */
  ghost predicate WithinTree(f: Numbering, up: map<Module, Module>)
    requires Numbered(f) && Rooted(f, up)
  {
    forall n :: n in up ==> up[n] in Chain(f, f.tree, n)
  }

  lemma {:induction false} ChainWithinTree(f: Numbering, up: map<Module, Module>, n: Module)
    requires Numbered(f) && Rooted(f, up) && WithinTree(f, up) && n in up
    ensures Chain(f, up, n) <= Chain(f, f.tree, n)
    decreases f.idx[n]
  {
    ChainDescends(f, f.tree, n);
    if n != f.entry {
      ChainWithinTree(f, up, up[n]);
      ChainSuffix(f, f.tree, up[n], n);
    }
  }

  /** A path that avoids `m` extends down the spanning tree without meeting `m`. */
  lemma {:induction false} TreePathAvoids(f: Numbering, m: Module, n: Module, w: Module, p: seq<Module>)
    returns (q: seq<Module>)
    requires Numbered(f) && w in f.idx && n in Chain(f, f.tree, w)
    requires m in f.idx && n in f.idx && f.idx[m] < f.idx[n]
    requires IsPath(f.g, p, f.entry, n) && m !in p
    ensures IsPath(f.g, q, f.entry, w) && m !in q
    decreases f.idx[w]
  {
    if w == n {
      q := p;
    } else {
      ChainDescends(f, f.tree, f.tree[w]);
      var r := TreePathAvoids(f, m, n, f.tree[w], p);
      PathStep(f.g, r, f.entry, f.tree[w], w);
      q := r + [w];
    }
  }

  /** A dominator of `w` numbered below a tree ancestor of `w` dominates that ancestor too. */
  lemma DominatesAncestor(f: Numbering, m: Module, n: Module, w: Module)
    requires Numbered(f) && w in f.idx && n in Chain(f, f.tree, w)
    requires m in f.idx && n in f.idx && f.idx[m] < f.idx[n]
    requires Dominates(f.g, f.entry, m, w)
    ensures Dominates(f.g, f.entry, m, n)
  {
    forall p | IsPath(f.g, p, f.entry, n) ensures m in p {
      if m !in p {
        var q := TreePathAvoids(f, m, n, w, p);
        assert false;
      }
    }
  }

  /** The spanning-tree path to a module. */
  lemma {:induction false} TreePath(f: Numbering, n: Module) returns (p: seq<Module>)
    requires Numbered(f) && n in f.idx
    ensures IsPath(f.g, p, f.entry, n)
    ensures forall k :: 0 <= k < |p| ==> p[k] in f.idx
    decreases f.idx[n]
  {
    if n == f.entry {
      p := [n];
    } else {
      var q := TreePath(f, f.tree[n]);
      PathStep(f.g, q, f.entry, f.tree[n], n);
      p := q + [n];
    }
  }

  lemma DominatorIsNumbered(f: Numbering, m: Module, n: Module)
    requires Numbered(f) && n in f.idx && Dominates(f.g, f.entry, m, n)
    ensures m in f.idx
  {
    var p := TreePath(f, n);
    assert m in p;
  }

  /** No true dominator has fallen off a chain. */
  ghost predicate KeepsDominators(f: Numbering, up: map<Module, Module>)
    requires Rooted(f, up)
  {
    forall m, n :: n in up && Dominates(f.g, f.entry, m, n) ==> m in Chain(f, up, n)
  }

  /** Every module hangs from a module on the chain of each of its importers. */
  ghost predicate MeetsImporters(f: Numbering, up: map<Module, Module>)
    requires Rooted(f, up)
  {
    && up.Keys == f.idx.Keys
    && forall u, n :: u in up && n in DepsOf(f.g, u) && n in up && n != f.entry ==> up[n] in Chain(f, up, u)
  }

  lemma {:induction false} ChainMembersDominate(f: Numbering, up: map<Module, Module>, p: seq<Module>, m: Module, n: Module)
    requires Numbered(f) && Rooted(f, up) && MeetsImporters(f, up)
    requires n in up && m in Chain(f, up, n) && IsPath(f.g, p, f.entry, n)
    ensures m in p
    decreases |p|
  {
    assert p[|p| - 1] == n;
    if m != n && n != f.entry {
      var q, u := p[..|p| - 1], p[|p| - 2];
      PathInit(f.g, p, f.entry, n);
      assert u in f.idx by { PathInduction(f.g, q, f.entry, u, f.idx.Keys); }
      ChainSuffix(f, up, up[n], u);
      ChainMembersDominate(f, up, q, m, u);
    }
  }

  /**
   * Pointers that meet every importer and have kept every true dominator are the dominator tree:
   * the chain of a module is exactly the set of modules every import path to it goes through.
   */
  lemma ChainIsDominators(f: Numbering, up: map<Module, Module>, m: Module, n: Module)
    requires Numbered(f) && Rooted(f, up) && MeetsImporters(f, up) && KeepsDominators(f, up)
    requires n in f.idx
    ensures m in Chain(f, up, n) <==> Dominates(f.g, f.entry, m, n)
  {
    if m in Chain(f, up, n) {
      forall p | IsPath(f.g, p, f.entry, n) ensures m in p {
        ChainMembersDominate(f, up, p, m, n);
      }
    }
  }
}
