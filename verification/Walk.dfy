/** The breadth-first walk of one entry's import graph, and the chain it explains. */
module Walk {
  import opened ImportGraph

  /** `depth` is the number of imports on the parent chain of each module back to the entry. */
  ghost predicate WalkTree(g: Graph, entry: Module, reachable: set<Module>, importedBy: map<Module, Module>,
                           depth: map<Module, nat>)
  {
    && entry in reachable && depth.Keys == reachable && depth[entry] == 0
    && importedBy.Keys == reachable - {entry}
    && forall m :: m in importedBy ==>
         importedBy[m] in reachable && m in DepsOf(g, importedBy[m]) && depth[m] == depth[importedBy[m]] + 1
  }

  /** No edge out of `m` reaches a module that is missing or more than one deeper. */
  ghost predicate Expanded(g: Graph, m: Module, depth: map<Module, nat>)
    requires m in depth
  {
    forall d :: d in DepsOf(g, m) ==> d in depth && depth[d] <= depth[m] + 1
  }

  ghost predicate AllExpanded(g: Graph, depth: map<Module, nat>) {
    forall m :: m in depth ==> Expanded(g, m, depth)
  }

  lemma {:induction false} DepthIsLowerBound(g: Graph, entry: Module, depth: map<Module, nat>, p: seq<Module>, m: Module)
    requires entry in depth && depth[entry] == 0 && AllExpanded(g, depth)
    requires IsPath(g, p, entry, m)
    ensures m in depth && depth[m] < |p|
    decreases |p|
  {
    if |p| > 1 {
      PathInit(g, p, entry, m);
      DepthIsLowerBound(g, entry, depth, p[..|p| - 1], p[|p| - 2]);
      assert Expanded(g, p[|p| - 2], depth);
    }
  }

  /** The parent chain of `m`, from the entry. */
  ghost function ParentChain(g: Graph, entry: Module, reachable: set<Module>, importedBy: map<Module, Module>,
                             depth: map<Module, nat>, m: Module): (p: seq<Module>)
    requires WalkTree(g, entry, reachable, importedBy, depth) && m in reachable
    ensures IsPath(g, p, entry, m) && |p| == depth[m] + 1
    decreases depth[m]
  {
    if m == entry then [entry]
    else ParentChain(g, entry, reachable, importedBy, depth, importedBy[m]) + [m]
  }

  /** Queue order is depth order, and the modules from `head` on span at most two depths. */
  ghost predicate QueueOrdered(queue: seq<Module>, head: nat, depth: map<Module, nat>)
    requires forall k :: 0 <= k < |queue| ==> queue[k] in depth
  {
    && (forall j, k :: 0 <= j < k < |queue| ==> depth[queue[j]] <= depth[queue[k]])
    && (head < |queue| ==> depth[queue[|queue| - 1]] <= depth[queue[head]] + 1)
  }

  /** What the walk keeps: the queue lists the reachable modules once each, nearest first. */
  ghost predicate Walking(g: Graph, entry: Module, queue: seq<Module>, head: nat, reachable: set<Module>,
                          importedBy: map<Module, Module>, depth: map<Module, nat>)
  {
    && head <= |queue| == |reachable|
    && reachable <= Universe(g, entry)
    && WalkTree(g, entry, reachable, importedBy, depth)
    && (forall k :: 0 <= k < |queue| ==> queue[k] in reachable)
    && (forall m :: m in reachable ==> m in queue)
    && QueueOrdered(queue, head, depth)
    && (forall k :: 0 <= k < head ==> Expanded(g, queue[k], depth))
  }

  lemma KnownModuleIsNear(g: Graph, entry: Module, queue: seq<Module>, head: nat, reachable: set<Module>,
                          importedBy: map<Module, Module>, depth: map<Module, nat>, known: Module)
    requires Walking(g, entry, queue, head, reachable, importedBy, depth)
    requires head < |queue| && known in reachable
    ensures depth[known] <= depth[queue[head]] + 1
  {
    var k :| 0 <= k < |queue| && queue[k] == known;
  }

  lemma WalkStarts(g: Graph, entry: Module)
    ensures Walking(g, entry, [entry], 0, {entry}, map[], map[entry := 0])
  {
  }

  lemma WalkingFacts(g: Graph, entry: Module, queue: seq<Module>, head: nat, reachable: set<Module>,
                     importedBy: map<Module, Module>, depth: map<Module, nat>)
    requires Walking(g, entry, queue, head, reachable, importedBy, depth)
    ensures head <= |queue| <= |Universe(g, entry)| && depth.Keys == reachable
    ensures head < |queue| ==> queue[head] in depth
    ensures WalkTree(g, entry, reachable, importedBy, depth)
  {
    SubsetSize(reachable, Universe(g, entry));
  }

  lemma DiscoveryGrowsTree(g: Graph, entry: Module, reachable: set<Module>, importedBy: map<Module, Module>,
                           depth: map<Module, nat>, file: Module, found: Module)
    requires WalkTree(g, entry, reachable, importedBy, depth)
    requires file in reachable && found !in reachable && found in DepsOf(g, file)
    ensures WalkTree(g, entry, reachable + {found}, importedBy[found := file], depth[found := depth[file] + 1])
  {
  }

  lemma DiscoveryKeepsOrder(queue: seq<Module>, head: nat, depth: map<Module, nat>, found: Module)
    requires forall k :: 0 <= k < |queue| ==> queue[k] in depth
    requires head < |queue| && found !in depth && QueueOrdered(queue, head, depth)
    ensures forall k :: 0 <= k < |queue + [found]| ==> (queue + [found])[k] in depth[found := depth[queue[head]] + 1]
    ensures QueueOrdered(queue + [found], head, depth[found := depth[queue[head]] + 1])
  {
    assert forall k :: 0 <= k < |queue| ==> depth[queue[k]] <= depth[queue[|queue| - 1]];
  }

  lemma DiscoveryKeepsExpanded(g: Graph, m: Module, depth: map<Module, nat>, found: Module, d: nat)
    requires m in depth && found !in depth && Expanded(g, m, depth)
    ensures Expanded(g, m, depth[found := d])
  {
  }

  lemma DiscoveryKeepsListing(queue: seq<Module>, reachable: set<Module>, found: Module)
    requires forall m :: m in reachable ==> m in queue
    ensures forall m :: m in reachable + {found} ==> m in queue + [found]
  {
  }

  lemma DepIsInUniverse(g: Graph, entry: Module, file: Module, dep: Module)
    requires dep in DepsOf(g, file)
    ensures dep in Universe(g, entry)
  {
    var k :| 0 <= k < |g[file]| && g[file][k] == dep;
  }

  lemma DiscoveryKeepsWalking(g: Graph, entry: Module, queue: seq<Module>, head: nat, reachable: set<Module>,
                              importedBy: map<Module, Module>, depth: map<Module, nat>, found: Module)
    requires Walking(g, entry, queue, head, reachable, importedBy, depth)
    requires head < |queue| && found !in reachable && found in DepsOf(g, queue[head])
    ensures Walking(g, entry, queue + [found], head, reachable + {found}, importedBy[found := queue[head]],
                    depth[found := depth[queue[head]] + 1])
  {
    var file := queue[head];
    DepIsInUniverse(g, entry, file, found);
    DiscoveryGrowsTree(g, entry, reachable, importedBy, depth, file, found);
    DiscoveryKeepsOrder(queue, head, depth, found);
    DiscoveryKeepsListing(queue, reachable, found);
    forall k | 0 <= k < head
      ensures (queue + [found])[k] in reachable && Expanded(g, (queue + [found])[k], depth[found := depth[file] + 1])
    {
      DiscoveryKeepsExpanded(g, queue[k], depth, found, depth[file] + 1);
    }
  }

  lemma AdvanceKeepsWalking(g: Graph, entry: Module, queue: seq<Module>, head: nat, reachable: set<Module>,
                            importedBy: map<Module, Module>, depth: map<Module, nat>)
    requires Walking(g, entry, queue, head, reachable, importedBy, depth)
    requires head < |queue| && Expanded(g, queue[head], depth)
    ensures Walking(g, entry, queue, head + 1, reachable, importedBy, depth)
    ensures |queue| <= |Universe(g, entry)|
  {
    SubsetSize(reachable, Universe(g, entry));
  }

  /**
   * Walks everything `entry` imports, breadth first, so that `importedBy` records a shortest
   * route to each module.
   */
  method Run(g: Graph, entry: Module)
    returns (reachable: set<Module>, importedBy: map<Module, Module>, ghost depth: map<Module, nat>)
    ensures forall m :: m in reachable <==> Reaches(g, entry, m)
    ensures WalkTree(g, entry, reachable, importedBy, depth)
    ensures forall m, p :: m in reachable && IsPath(g, p, entry, m) ==> depth[m] < |p|
  {
    hide Walking;
    reachable := {entry};
    importedBy := map[];
    depth := map[entry := 0];
    var queue := [entry];
    var head := 0;
    WalkStarts(g, entry);
    while head < |queue|
      invariant Walking(g, entry, queue, head, reachable, importedBy, depth)
      decreases |Universe(g, entry)| - head
    {
      var file := queue[head];
      var deps := DepsOf(g, file);
      WalkingFacts(g, entry, queue, head, reachable, importedBy, depth);
      for j := 0 to |deps|
        invariant head < |queue| && queue[head] == file && depth.Keys == reachable && file in depth
        invariant Walking(g, entry, queue, head, reachable, importedBy, depth)
        invariant forall k :: 0 <= k < j ==> deps[k] in depth && depth[deps[k]] <= depth[file] + 1
      {
        var resolved := deps[j];
        if resolved in reachable {
          KnownModuleIsNear(g, entry, queue, head, reachable, importedBy, depth, resolved);
        } else {
          DiscoveryKeepsWalking(g, entry, queue, head, reachable, importedBy, depth, resolved);
          reachable := reachable + {resolved};
          importedBy := importedBy[resolved := file];
          queue := queue + [resolved];
          depth := depth[resolved := depth[file] + 1];
        }
      }
      AdvanceKeepsWalking(g, entry, queue, head, reachable, importedBy, depth);
      head := head + 1;
    }
    WalkingFacts(g, entry, queue, head, reachable, importedBy, depth);
    WalkIsComplete(g, entry, queue, head, reachable, importedBy, depth);
  }

  lemma WalkIsComplete(g: Graph, entry: Module, queue: seq<Module>, head: nat, reachable: set<Module>,
                       importedBy: map<Module, Module>, depth: map<Module, nat>)
    requires Walking(g, entry, queue, head, reachable, importedBy, depth) && head >= |queue|
    ensures forall m :: m in reachable <==> Reaches(g, entry, m)
    ensures forall m, p :: m in reachable && IsPath(g, p, entry, m) ==> depth[m] < |p|
  {
    forall m | m in depth ensures Expanded(g, m, depth) {
      var k :| 0 <= k < |queue| && queue[k] == m;
    }
    forall p, m | IsPath(g, p, entry, m) ensures m in depth && depth[m] < |p| {
      DepthIsLowerBound(g, entry, depth, p, m);
    }
    forall m | m in reachable ensures Reaches(g, entry, m) {
      var p := ParentChain(g, entry, reachable, importedBy, depth, m);
    }
  }

  lemma {:induction false} SubsetSize<T>(a: set<T>, b: set<T>)
    requires a <= b
    ensures |a| <= |b|
  {
    if a != {} {
      var x :| x in a;
      SubsetSize(a - {x}, b - {x});
    }
  }

  ghost function Reversed<T>(s: seq<T>): (r: seq<T>)
    ensures |r| == |s|
    ensures forall k :: 0 <= k < |s| ==> r[k] == s[|s| - 1 - k]
  {
    if s == [] then [] else Reversed(s[1..]) + [s[0]]
  }

  /** In-order reversal, as `Array.prototype.reverse` does it. */
  method Reverse<T>(s: seq<T>) returns (r: seq<T>)
    ensures r == Reversed(s)
  {
    r := [];
    for k := 0 to |s|
      invariant r == Reversed(s[..k])
    {
      r := [s[k]] + r;
      var t := s[..k + 1];
      assert forall j :: 0 <= j < |t| ==> Reversed(t)[j] == t[|t| - 1 - j];
      assert r == Reversed(t);
    }
    assert s[..|s|] == s;
  }

  /**
   * Follows the recorded importers of `target` back to the entry. For a module the walk reached,
   * the chain is an import path and no import path is shorter.
   */
  method ExplainChain(g: Graph, entry: Module, ghost reachable: set<Module>, importedBy: map<Module, Module>,
                      ghost depth: map<Module, nat>, target: Module)
    returns (chain: seq<Module>)
    requires WalkTree(g, entry, reachable, importedBy, depth)
    requires forall m, p :: m in reachable && IsPath(g, p, entry, m) ==> depth[m] < |p|
    ensures target in reachable ==> IsPath(g, chain, entry, target)
    ensures target in reachable ==> forall p :: IsPath(g, p, entry, target) ==> |chain| <= |p|
    ensures target !in reachable ==> chain == [target]
  {
    var upward := [target];
    var current := target;
    while current in importedBy
      invariant |upward| > 0 && upward[0] == target && upward[|upward| - 1] == current
      invariant target in reachable ==> current in reachable && |upward| + depth[current] == depth[target] + 1
      invariant target !in reachable ==> upward == [target]
      invariant forall k :: 0 < k < |upward| ==> upward[k - 1] in DepsOf(g, upward[k])
      decreases if current in depth then depth[current] else 0
    {
      current := importedBy[current];
      upward := upward + [current];
    }
    chain := Reverse(upward);
    if target in reachable {
      assert current == entry;
      forall k | 0 < k < |chain| ensures chain[k] in DepsOf(g, chain[k - 1]) {
        var j := |upward| - k;
        assert upward[j - 1] in DepsOf(g, upward[j]);
      }
    }
  }
}
