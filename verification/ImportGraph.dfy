/** Import graphs: a module, the modules it imports, and the paths those imports make. */
module ImportGraph {

  /** A resolved source file, named by a number. */
  type Module = int

  /** The resolved value imports of every readable file; a file that cannot be read has no row. */
  type Graph = map<Module, seq<Module>>

  function DepsOf(g: Graph, file: Module): seq<Module> {
    if file in g then g[file] else []
  }

  /** Every module a walk from `entry` can possibly meet. */
  function Universe(g: Graph, entry: Module): set<Module> {
    {entry} + set file, k | file in g.Keys && 0 <= k < |g[file]| :: g[file][k]
  }

  /** A path is a nonempty sequence of modules, each importing the next. */
  ghost predicate IsPath(g: Graph, p: seq<Module>, a: Module, b: Module) {
    && |p| > 0 && p[0] == a && p[|p| - 1] == b
    && forall k :: 0 < k < |p| ==> p[k] in DepsOf(g, p[k - 1])
  }

  ghost predicate Reaches(g: Graph, a: Module, b: Module) {
    exists p :: IsPath(g, p, a, b)
  }

  /** `m` lies on every import path from `entry` to `n`. */
  ghost predicate Dominates(g: Graph, entry: Module, m: Module, n: Module) {
    forall p :: IsPath(g, p, entry, n) ==> m in p
  }

  lemma PathStep(g: Graph, p: seq<Module>, a: Module, b: Module, c: Module)
    requires IsPath(g, p, a, b) && c in DepsOf(g, b)
    ensures IsPath(g, p + [c], a, c)
  {
  }

  lemma PathInit(g: Graph, p: seq<Module>, a: Module, b: Module)
    requires IsPath(g, p, a, b) && |p| > 1
    ensures IsPath(g, p[..|p| - 1], a, p[|p| - 2])
    ensures b in DepsOf(g, p[|p| - 2])
  {
  }

  /** A property of the entry that every import preserves holds of everything reachable. */
  lemma {:induction false} PathInduction(g: Graph, p: seq<Module>, a: Module, b: Module, closed: set<Module>)
    requires IsPath(g, p, a, b) && a in closed
    requires forall m, d :: m in closed && d in DepsOf(g, m) ==> d in closed
    ensures b in closed
    decreases |p|
  {
    if |p| > 1 {
      PathInit(g, p, a, b);
      PathInduction(g, p[..|p| - 1], a, p[|p| - 2], closed);
    }
  }

  /** A dominator of `n` other than `n` dominates every module that imports `n`. */
  lemma DominatesImporter(g: Graph, entry: Module, m: Module, u: Module, n: Module)
    requires Dominates(g, entry, m, n) && n in DepsOf(g, u) && m != n
    ensures Dominates(g, entry, m, u)
  {
    forall p | IsPath(g, p, entry, u) ensures m in p {
      PathStep(g, p, entry, u, n);
      assert m in p + [n];
    }
  }
}
