/** The guarded-graph check: the walk from a guarded root that reports the import chains into forbidden modules. */
module GuardedGraph {
  import opened Wrappers
  import opened ImportGraph
  import opened Walk

  type Prefix = int

  /** Imports at module evaluation, imports deferred to a call, and the forbidden prefix each forbidden module has. */
  datatype Program = Program(runtime: Graph, deferred: Graph, forbidden: map<Module, Prefix>)

  datatype Violation = Violation(prefix: Prefix, target: Module, deferred: bool, path: seq<Module>)

  function Permitted(deps: seq<Module>, forbidden: map<Module, Prefix>): (r: seq<Module>)
    ensures forall m :: m in r <==> m in deps && m !in forbidden
  {
    if deps == [] then []
    else if deps[0] in forbidden then Permitted(deps[1..], forbidden)
    else [deps[0]] + Permitted(deps[1..], forbidden)
  }

  /** The run-time imports of modules that are not forbidden. */
  function Allowed(p: Program): (g: Graph)
    ensures forall u, m :: m in DepsOf(g, u) <==> m in DepsOf(p.runtime, u) && m !in p.forbidden
  {
    map u | u in p.runtime :: Permitted(p.runtime[u], p.forbidden)
  }

  /** Loading `u` hits the forbidden module `m`: by a deferred import, or by importing it unless it is the root itself. */
  predicate Hits(p: Program, start: Module, u: Module, m: Module) {
    m in p.forbidden && (m in DepsOf(p.deferred, u) || (m in DepsOf(p.runtime, u) && m != start))
  }

  /** A reported chain is an import path through modules that are not forbidden, and one last edge into one that is. */
  ghost predicate Real(p: Program, start: Module, v: Violation) {
    && |v.path| >= 2 && v.path[|v.path| - 1] == v.target
    && v.target in p.forbidden && p.forbidden[v.target] == v.prefix
    && IsPath(Allowed(p), v.path[..|v.path| - 1], start, v.path[|v.path| - 2])
    && v.target in DepsOf(if v.deferred then p.deferred else p.runtime, v.path[|v.path| - 2]) && (v.target == start ==> v.deferred)
  }

  /** Some report names this prefix by a chain no longer than `length`. */
  ghost predicate Covered(violations: seq<Violation>, prefix: Prefix, length: nat) {
    exists k :: 0 <= k < |violations| && violations[k].prefix == prefix && |violations[k].path| <= length
  }

  /** The reports are real, one a prefix, and none longer than `bound`. */
  ghost predicate Sound(p: Program, start: Module, violations: seq<Violation>, reported: set<Prefix>, bound: nat) {
    && (forall k :: 0 <= k < |violations| ==> Real(p, start, violations[k]) && |violations[k].path| <= bound)
    && (forall j, k :: 0 <= j < k < |violations| ==> violations[j].prefix != violations[k].prefix)
    && (forall prefix :: prefix in reported <==> exists k :: 0 <= k < |violations| && violations[k].prefix == prefix)
  }

  /** Every hit of a scanned module is covered within one import of it. */
  ghost predicate Scanned(p: Program, start: Module, violations: seq<Violation>, u: Module, depth: nat) {
    forall m :: Hits(p, start, u, m) ==> Covered(violations, p.forbidden[m], depth + 2)
  }

  ghost predicate AllScanned(p: Program, start: Module, violations: seq<Violation>, order: seq<Module>, head: nat, depth: map<Module, nat>) {
    head <= |order| && forall k :: 0 <= k < head ==> order[k] in depth && Scanned(p, start, violations, order[k], depth[order[k]])
  }

  lemma ReportKeepsSound(p: Program, start: Module, violations: seq<Violation>, reported: set<Prefix>, bound: nat, v: Violation)
    requires Sound(p, start, violations, reported, bound) && Real(p, start, v) && v.prefix !in reported && |v.path| <= bound
    ensures Sound(p, start, violations + [v], reported + {v.prefix}, bound)
  {
    hide Real;
    var after := violations + [v];
    forall prefix ensures prefix in reported + {v.prefix} <==> exists k :: 0 <= k < |after| && after[k].prefix == prefix {
      if prefix == v.prefix {
        assert after[|violations|].prefix == prefix;
      } else if prefix in reported {
        var k :| 0 <= k < |violations| && violations[k].prefix == prefix;
        assert after[k].prefix == prefix;
      }
    }
  }

  lemma CoveredKept(violations: seq<Violation>, v: Violation, prefix: Prefix, length: nat)
    requires Covered(violations, prefix, length)
    ensures Covered(violations + [v], prefix, length)
  {
    var k :| 0 <= k < |violations| && violations[k].prefix == prefix && |violations[k].path| <= length;
    assert (violations + [v])[k] == violations[k];
  }

  lemma ReportKeepsScanned(p: Program, start: Module, violations: seq<Violation>, order: seq<Module>, head: nat,
                           depth: map<Module, nat>, v: Violation)
    requires AllScanned(p, start, violations, order, head, depth)
    ensures AllScanned(p, start, violations + [v], order, head, depth)
  {
    forall k, m | 0 <= k < head && Hits(p, start, order[k], m) ensures Covered(violations + [v], p.forbidden[m], depth[order[k]] + 2) {
      assert Scanned(p, start, violations, order[k], depth[order[k]]);
      CoveredKept(violations, v, p.forbidden[m], depth[order[k]] + 2);
    }
  }

  lemma ReportedIsCovered(p: Program, start: Module, violations: seq<Violation>, reported: set<Prefix>, bound: nat, prefix: Prefix)
    requires Sound(p, start, violations, reported, bound) && prefix in reported
    ensures Covered(violations, prefix, bound)
  {
  }

  /** Reports the forbidden modules `file` defers to, other than those whose prefix is already reported. */
  method ScanDeferred(p: Program, start: Module, file: Module, path: seq<Module>, violations: seq<Violation>, reported: set<Prefix>)
    returns (violations': seq<Violation>, reported': set<Prefix>)
    requires IsPath(Allowed(p), path, start, file) && Sound(p, start, violations, reported, |path| + 1)
    ensures Sound(p, start, violations', reported', |path| + 1) && violations <= violations'
    ensures forall m :: m in DepsOf(p.deferred, file) && m in p.forbidden ==> p.forbidden[m] in reported'
  {
    hide Sound, Real;
    var deps := DepsOf(p.deferred, file);
    violations', reported' := violations, reported;
    for j := 0 to |deps|
      invariant Sound(p, start, violations', reported', |path| + 1) && violations <= violations'
      invariant forall m :: m in deps[..j] && m in p.forbidden ==> p.forbidden[m] in reported'
    {
      var next := deps[j];
      if next in p.forbidden && p.forbidden[next] !in reported' {
        violations', reported' := Report(p, start, file, path, next, true, violations', reported');
      }
    }
  }

  method Report(p: Program, start: Module, file: Module, path: seq<Module>, next: Module, deferred: bool,
                violations: seq<Violation>, reported: set<Prefix>)
    returns (violations': seq<Violation>, reported': set<Prefix>)
    requires IsPath(Allowed(p), path, start, file) && Sound(p, start, violations, reported, |path| + 1)
    requires next in p.forbidden && p.forbidden[next] !in reported
    requires next in DepsOf(if deferred then p.deferred else p.runtime, file) && (next == start ==> deferred)
    ensures Sound(p, start, violations', reported', |path| + 1) && violations <= violations'
    ensures reported' == reported + {p.forbidden[next]}
  {
    var v := Violation(p.forbidden[next], next, deferred, path + [next]);
    assert v.path[..|v.path| - 1] == path;
    assert Real(p, start, v);
    ReportKeepsSound(p, start, violations, reported, |path| + 1, v);
    reported' := reported + {p.forbidden[next]};
    violations' := violations + [v];
  }

  /** The queue holds what is left of the walk's order, each file with a path of its depth. */
  ghost predicate Queued(p: Program, start: Module, queue: seq<(Module, seq<Module>)>, order: seq<Module>, head: nat, depth: map<Module, nat>) {
    && head <= |order| && |queue| == |order| - head
    && forall k :: 0 <= k < |queue| ==>
         && queue[k].0 == order[head + k] && queue[k].0 in depth
         && IsPath(Allowed(p), queue[k].1, start, queue[k].0) && |queue[k].1| == depth[queue[k].0] + 1
  }

  lemma PrefixKeepsScanned(p: Program, start: Module, before: seq<Violation>, after: seq<Violation>, order: seq<Module>, head: nat,
                           depth: map<Module, nat>)
    requires AllScanned(p, start, before, order, head, depth) && before <= after
    ensures AllScanned(p, start, after, order, head, depth)
    decreases |after| - |before|
  {
    if |before| < |after| {
      hide AllScanned;
      ReportKeepsScanned(p, start, before, order, head, depth, after[|before|]);
      PrefixKeepsScanned(p, start, before + [after[|before|]], after, order, head, depth);
    } else {
      assert before == after;
    }
  }

  lemma DiscoveryKeepsScanned(p: Program, start: Module, violations: seq<Violation>, order: seq<Module>, head: nat,
                              depth: map<Module, nat>, found: Module, d: nat)
    requires AllScanned(p, start, violations, order, head, depth) && found !in depth
    ensures AllScanned(p, start, violations, order + [found], head, depth[found := d])
  {
    hide Scanned;
  }

  lemma DiscoveryKeepsQueued(p: Program, start: Module, queue: seq<(Module, seq<Module>)>, order: seq<Module>, head: nat,
                             depth: map<Module, nat>, found: Module, path: seq<Module>, d: nat)
    requires Queued(p, start, queue, order, head, depth) && found !in depth
    requires IsPath(Allowed(p), path, start, found) && |path| == d + 1
    ensures Queued(p, start, queue + [(found, path)], order + [found], head, depth[found := d])
  {
    hide IsPath;
  }

  /** Once every edge of a module is scanned, its hits are covered. */
  lemma FileIsScanned(p: Program, start: Module, violations: seq<Violation>, reported: set<Prefix>, file: Module, depth: nat)
    requires Sound(p, start, violations, reported, depth + 2)
    requires forall m :: Hits(p, start, file, m) ==> p.forbidden[m] in reported
    ensures Scanned(p, start, violations, file, depth)
  {
    hide Sound;
    forall m | Hits(p, start, file, m) ensures Covered(violations, p.forbidden[m], depth + 2) {
      ReportedIsCovered(p, start, violations, reported, depth + 2, p.forbidden[m]);
    }
  }

  lemma SeenIsPermitted(p: Program, start: Module, order: seq<Module>, head: nat, seen: set<Module>,
                        importedBy: map<Module, Module>, depth: map<Module, nat>, m: Module)
    requires Walking(Allowed(p), start, order, head, seen, importedBy, depth) && m in seen && m != start
    ensures m !in p.forbidden
  {
    hide QueueOrdered;
    assert m in importedBy && m in DepsOf(Allowed(p), importedBy[m]);
  }

  lemma SoundWithin(p: Program, start: Module, violations: seq<Violation>, reported: set<Prefix>, bound: nat, wider: nat)
    requires Sound(p, start, violations, reported, bound) && bound <= wider
    ensures Sound(p, start, violations, reported, wider)
  {
    hide Real;
  }

  lemma NextIsDeeper(p: Program, start: Module, order: seq<Module>, head: nat, seen: set<Module>,
                     importedBy: map<Module, Module>, depth: map<Module, nat>)
    requires Walking(Allowed(p), start, order, head, seen, importedBy, depth) && head + 1 < |order|
    ensures order[head] in depth && order[head + 1] in depth && depth[order[head]] <= depth[order[head + 1]]
  {
  }

  lemma ScanningAdvances(p: Program, start: Module, violations: seq<Violation>, order: seq<Module>, head: nat, depth: map<Module, nat>)
    requires AllScanned(p, start, violations, order, head, depth) && head < |order| && order[head] in depth
    requires Scanned(p, start, violations, order[head], depth[order[head]])
    ensures AllScanned(p, start, violations, order, head + 1, depth)
  {
    hide Scanned;
  }

  /** Every hit of a module the walk can load is reported, by a chain no longer than any chain to that hit. */
  ghost predicate Complete(p: Program, start: Module, violations: seq<Violation>) {
    forall q, u, m :: IsPath(Allowed(p), q, start, u) && Hits(p, start, u, m) ==> Covered(violations, p.forbidden[m], |q| + 1)
  }

  lemma WalkedIsComplete(p: Program, start: Module, violations: seq<Violation>, order: seq<Module>, seen: set<Module>,
                         importedBy: map<Module, Module>, depth: map<Module, nat>)
    requires Walking(Allowed(p), start, order, |order|, seen, importedBy, depth)
    requires AllScanned(p, start, violations, order, |order|, depth)
    ensures Complete(p, start, violations)
  {
    WalkIsComplete(Allowed(p), start, order, |order|, seen, importedBy, depth);
    WalkingFacts(Allowed(p), start, order, |order|, seen, importedBy, depth);
    forall q, u, m | IsPath(Allowed(p), q, start, u) && Hits(p, start, u, m) ensures Covered(violations, p.forbidden[m], |q| + 1) {
      PathIsCovered(p, start, violations, order, seen, importedBy, depth, q, u, m);
    }
  }

  lemma PathIsCovered(p: Program, start: Module, violations: seq<Violation>, order: seq<Module>, seen: set<Module>,
                      importedBy: map<Module, Module>, depth: map<Module, nat>, q: seq<Module>, u: Module, m: Module)
    requires Walking(Allowed(p), start, order, |order|, seen, importedBy, depth)
    requires AllScanned(p, start, violations, order, |order|, depth)
    requires forall m, q :: m in seen && IsPath(Allowed(p), q, start, m) ==> depth[m] < |q|
    requires forall m :: m in seen <==> Reaches(Allowed(p), start, m)
    requires IsPath(Allowed(p), q, start, u) && Hits(p, start, u, m)
    ensures Covered(violations, p.forbidden[m], |q| + 1)
  {
    hide WalkTree, QueueOrdered, Expanded, IsPath;
    assert u in seen;
    var k :| 0 <= k < |order| && order[k] == u;
    assert Scanned(p, start, violations, u, depth[u]);
    var prefix := p.forbidden[m];
    assert Covered(violations, prefix, depth[u] + 2);
    var i :| 0 <= i < |violations| && violations[i].prefix == prefix && |violations[i].path| <= depth[u] + 2;
    assert |violations[i].path| <= |q| + 1;
  }

  /** Between two files of the walk. */
  ghost predicate Walked(p: Program, start: Module, violations: seq<Violation>, reported: set<Prefix>, seen: set<Module>,
                         queue: seq<(Module, seq<Module>)>, order: seq<Module>, head: nat, importedBy: map<Module, Module>,
                         depth: map<Module, nat>, bound: nat)
  {
    && Walking(Allowed(p), start, order, head, seen, importedBy, depth)
    && Queued(p, start, queue, order, head, depth)
    && AllScanned(p, start, violations, order, head, depth)
    && Sound(p, start, violations, reported, bound)
    && (head < |order| ==> order[head] in depth && bound <= depth[order[head]] + 2)
  }

  /** While `file`, taken off the queue with its path, is scanned. */
  ghost predicate Scanning(p: Program, start: Module, violations: seq<Violation>, reported: set<Prefix>, seen: set<Module>,
                           queue: seq<(Module, seq<Module>)>, order: seq<Module>, head: nat, importedBy: map<Module, Module>,
                           depth: map<Module, nat>, file: Module, path: seq<Module>)
  {
    && head < |order| && order[head] == file && file in depth && depth.Keys == seen && |path| == depth[file] + 1
    && IsPath(Allowed(p), path, start, file)
    && Walking(Allowed(p), start, order, head, seen, importedBy, depth)
    && Queued(p, start, queue, order, head + 1, depth)
    && AllScanned(p, start, violations, order, head, depth)
    && Sound(p, start, violations, reported, |path| + 1)
    && (forall m :: m in DepsOf(p.deferred, file) && m in p.forbidden ==> p.forbidden[m] in reported)
  }

  /** An import of `file` that has been dealt with. */
  ghost predicate Handled(p: Program, start: Module, reported: set<Prefix>, depth: map<Module, nat>, file: Module, next: Module) {
    if next in p.forbidden then next != start ==> p.forbidden[next] in reported
    else next in depth && file in depth && depth[next] <= depth[file] + 1
  }

  lemma ScanningStarts(p: Program, start: Module, violations: seq<Violation>, reported: set<Prefix>, seen: set<Module>,
                       queue: seq<(Module, seq<Module>)>, order: seq<Module>, head: nat, importedBy: map<Module, Module>,
                       depth: map<Module, nat>, bound: nat)
    requires Walked(p, start, violations, reported, seen, queue, order, head, importedBy, depth, bound) && |queue| > 0
    ensures head < |order| <= |Universe(Allowed(p), start)|
    ensures IsPath(Allowed(p), queue[0].1, start, queue[0].0)
    ensures Sound(p, start, violations, reported, |queue[0].1| + 1)
    ensures forall violations', reported' ::
              violations <= violations' && Sound(p, start, violations', reported', |queue[0].1| + 1)
              && (forall m :: m in DepsOf(p.deferred, queue[0].0) && m in p.forbidden ==> p.forbidden[m] in reported')
              ==> Scanning(p, start, violations', reported', seen, queue[1..], order, head, importedBy, depth, queue[0].0, queue[0].1)
  {
    hide Walking, Queued, AllScanned, Sound, IsPath;
    HeadIsQueued(p, start, queue, order, head, depth);
    WalkingFacts(Allowed(p), start, order, head, seen, importedBy, depth);
    SoundWithin(p, start, violations, reported, bound, |queue[0].1| + 1);
    forall violations' | violations <= violations' ensures AllScanned(p, start, violations', order, head, depth) {
      PrefixKeepsScanned(p, start, violations, violations', order, head, depth);
    }
  }

  lemma SeenIsHandled(p: Program, start: Module, violations: seq<Violation>, reported: set<Prefix>, seen: set<Module>,
                      queue: seq<(Module, seq<Module>)>, order: seq<Module>, head: nat, importedBy: map<Module, Module>,
                      depth: map<Module, nat>, file: Module, path: seq<Module>, next: Module)
    requires Scanning(p, start, violations, reported, seen, queue, order, head, importedBy, depth, file, path) && next in seen
    ensures Handled(p, start, reported, depth, file, next)
  {
    hide Walking, Queued, AllScanned, Sound, IsPath;
    KnownModuleIsNear(Allowed(p), start, order, head, seen, importedBy, depth, next);
    if next != start { SeenIsPermitted(p, start, order, head, seen, importedBy, depth, next); }
  }

  lemma ScanningReports(p: Program, start: Module, violations: seq<Violation>, reported: set<Prefix>, seen: set<Module>,
                        queue: seq<(Module, seq<Module>)>, order: seq<Module>, head: nat, importedBy: map<Module, Module>,
                        depth: map<Module, nat>, file: Module, path: seq<Module>, violations': seq<Violation>, reported': set<Prefix>)
    requires Scanning(p, start, violations, reported, seen, queue, order, head, importedBy, depth, file, path)
    requires Sound(p, start, violations', reported', |path| + 1) && violations <= violations' && reported <= reported'
    ensures Scanning(p, start, violations', reported', seen, queue, order, head, importedBy, depth, file, path)
  {
    hide Walking, Queued, AllScanned, Sound, IsPath;
    PrefixKeepsScanned(p, start, violations, violations', order, head, depth);
  }

  lemma ScanningDiscovers(p: Program, start: Module, violations: seq<Violation>, reported: set<Prefix>, seen: set<Module>,
                          queue: seq<(Module, seq<Module>)>, order: seq<Module>, head: nat, importedBy: map<Module, Module>,
                          depth: map<Module, nat>, file: Module, path: seq<Module>, next: Module)
    requires Scanning(p, start, violations, reported, seen, queue, order, head, importedBy, depth, file, path)
    requires next !in seen && next !in p.forbidden && next in DepsOf(p.runtime, file)
    ensures file in depth
    ensures Scanning(p, start, violations, reported, seen + {next}, queue + [(next, path + [next])], order + [next], head,
                     importedBy[next := file], depth[next := depth[file] + 1], file, path)
    ensures Handled(p, start, reported, depth[next := depth[file] + 1], file, next)
    ensures forall m :: Handled(p, start, reported, depth, file, m) ==> Handled(p, start, reported, depth[next := depth[file] + 1], file, m)
  {
    hide Walking, Queued, AllScanned, Sound, IsPath;
    assert next in DepsOf(Allowed(p), file);
    DiscoveryKeepsWalking(Allowed(p), start, order, head, seen, importedBy, depth, next);
    PathStep(Allowed(p), path, start, file, next);
    DiscoveryKeepsQueued(p, start, queue, order, head + 1, depth, next, path + [next], depth[file] + 1);
    DiscoveryKeepsScanned(p, start, violations, order, head, depth, next, depth[file] + 1);
  }

  lemma ScanningEnds(p: Program, start: Module, violations: seq<Violation>, reported: set<Prefix>, seen: set<Module>,
                     queue: seq<(Module, seq<Module>)>, order: seq<Module>, head: nat, importedBy: map<Module, Module>,
                     depth: map<Module, nat>, file: Module, path: seq<Module>)
    requires Scanning(p, start, violations, reported, seen, queue, order, head, importedBy, depth, file, path)
    requires forall m :: m in DepsOf(p.runtime, file) ==> Handled(p, start, reported, depth, file, m)
    ensures Walked(p, start, violations, reported, seen, queue, order, head + 1, importedBy, depth, |path| + 1)
  {
    hide Walking, Queued, AllScanned, Sound, IsPath;
    FileIsScanned(p, start, violations, reported, file, depth[file]);
    ScanningAdvances(p, start, violations, order, head, depth);
    assert Expanded(Allowed(p), file, depth);
    AdvanceKeepsWalking(Allowed(p), start, order, head, seen, importedBy, depth);
    if head + 1 < |order| { NextIsDeeper(p, start, order, head, seen, importedBy, depth); }
  }

  lemma WalkedEnds(p: Program, start: Module, violations: seq<Violation>, reported: set<Prefix>, seen: set<Module>,
                   queue: seq<(Module, seq<Module>)>, order: seq<Module>, head: nat, importedBy: map<Module, Module>,
                   depth: map<Module, nat>, bound: nat)
    requires Walked(p, start, violations, reported, seen, queue, order, head, importedBy, depth, bound) && |queue| == 0
    ensures forall k :: 0 <= k < |violations| ==> Real(p, start, violations[k])
    ensures forall j, k :: 0 <= j < k < |violations| ==> violations[j].prefix != violations[k].prefix
    ensures Complete(p, start, violations)
  {
    hide Walking, Queued, AllScanned, Sound, Complete, Real;
    QueueEmpties(p, start, queue, order, head, depth);
    WalkedIsComplete(p, start, violations, order, seen, importedBy, depth);
    SoundMeans(p, start, violations, reported, bound);
  }

  /**
   * Walks the root's run-time imports breadth first, not entering forbidden modules, and reports for each forbidden
   * prefix the first chain into it.
   */
  method FindViolations(p: Program, start: Module) returns (violations: seq<Violation>)
    ensures forall k :: 0 <= k < |violations| ==> Real(p, start, violations[k])
    ensures forall j, k :: 0 <= j < k < |violations| ==> violations[j].prefix != violations[k].prefix
    ensures Complete(p, start, violations)
    ensures violations == [] <==> !Depends(p, start)
  {
    hide Walked, Depends, Scanning, Handled, Sound, Real, Complete, IsPath, Allowed;
    violations := [];
    var reported: set<Prefix> := {};
    var seen := {start};
    var queue := [(start, [start])];
    ghost var order := [start];
    ghost var head: nat := 0;
    ghost var importedBy: map<Module, Module> := map[];
    ghost var depth: map<Module, nat> := map[start := 0];
    ghost var bound: nat := 0;
    SearchStarts(p, start);
    while |queue| > 0
      invariant Walked(p, start, violations, reported, seen, queue, order, head, importedBy, depth, bound)
      decreases |Universe(Allowed(p), start)| - head
    {
      ScanningStarts(p, start, violations, reported, seen, queue, order, head, importedBy, depth, bound);
      var (file, path) := queue[0];
      queue := queue[1..];
      violations, reported := ScanDeferred(p, start, file, path, violations, reported);
      var deps := DepsOf(p.runtime, file);
      for j := 0 to |deps|
        invariant Scanning(p, start, violations, reported, seen, queue, order, head, importedBy, depth, file, path)
        invariant forall k :: 0 <= k < j ==> Handled(p, start, reported, depth, file, deps[k])
      {
        var next := deps[j];
        if next in seen {
          SeenIsHandled(p, start, violations, reported, seen, queue, order, head, importedBy, depth, file, path, next);
        } else if next in p.forbidden {
          violations, reported := ScanForbidden(
            p, start, violations, reported, seen, queue, order, head, importedBy, depth, file, path, next);
        } else {
          ScanningDiscovers(p, start, violations, reported, seen, queue, order, head, importedBy, depth, file, path, next);
          seen := seen + {next};
          queue := queue + [(next, path + [next])];
          order := order + [next];
          importedBy := importedBy[next := file];
          depth := depth[next := depth[file] + 1];
        }
      }
      ScanningEnds(p, start, violations, reported, seen, queue, order, head, importedBy, depth, file, path);
      bound := |path| + 1;
      head := head + 1;
    }
    WalkedEnds(p, start, violations, reported, seen, queue, order, head, importedBy, depth, bound);
    SilentExactlyWhenClean(p, start, violations);
  }

  /** A run-time import of a forbidden module: reported unless its prefix already is. */
  method ScanForbidden(p: Program, start: Module, violations: seq<Violation>, reported: set<Prefix>, ghost seen: set<Module>,
                       ghost queue: seq<(Module, seq<Module>)>, ghost order: seq<Module>, ghost head: nat,
                       ghost importedBy: map<Module, Module>, ghost depth: map<Module, nat>, file: Module, path: seq<Module>, next: Module)
    returns (violations': seq<Violation>, reported': set<Prefix>)
    requires Scanning(p, start, violations, reported, seen, queue, order, head, importedBy, depth, file, path)
    requires next in p.forbidden && next !in seen && next in DepsOf(p.runtime, file)
    ensures Scanning(p, start, violations', reported', seen, queue, order, head, importedBy, depth, file, path)
    ensures Handled(p, start, reported', depth, file, next)
    ensures forall m :: Handled(p, start, reported, depth, file, m) ==> Handled(p, start, reported', depth, file, m)
  {
    hide Queued, AllScanned, Sound, QueueOrdered, Expanded;
    violations', reported' := violations, reported;
    if p.forbidden[next] !in reported {
      violations', reported' := Report(p, start, file, path, next, false, violations, reported);
      ScanningReports(p, start, violations, reported, seen, queue, order, head, importedBy, depth, file, path, violations', reported');
    }
  }

  lemma SearchStarts(p: Program, start: Module)
    ensures Walked(p, start, [], {}, {start}, [(start, [start])], [start], 0, map[], map[start := 0], 0)
  {
    WalkStarts(Allowed(p), start);
  }

  lemma HeadIsQueued(p: Program, start: Module, queue: seq<(Module, seq<Module>)>, order: seq<Module>, head: nat, depth: map<Module, nat>)
    requires Queued(p, start, queue, order, head, depth) && |queue| > 0
    ensures head < |order| && queue[0].0 == order[head] && order[head] in depth && |queue[0].1| == depth[order[head]] + 1
    ensures IsPath(Allowed(p), queue[0].1, start, queue[0].0)
    ensures Queued(p, start, queue[1..], order, head + 1, depth)
  {
    hide IsPath;
    assert order[head + 0] == queue[0].0;
    forall k | 0 <= k < |queue| - 1 ensures queue[1..][k] == queue[k + 1] && queue[1..][k].0 == order[head + 1 + k] {
      assert queue[k + 1].0 == order[head + (k + 1)];
    }
  }

  lemma QueueEmpties(p: Program, start: Module, queue: seq<(Module, seq<Module>)>, order: seq<Module>, head: nat, depth: map<Module, nat>)
    requires Queued(p, start, queue, order, head, depth) && |queue| == 0
    ensures head == |order|
  {
  }

  lemma SoundMeans(p: Program, start: Module, violations: seq<Violation>, reported: set<Prefix>, bound: nat)
    requires Sound(p, start, violations, reported, bound)
    ensures forall k :: 0 <= k < |violations| ==> Real(p, start, violations[k])
    ensures forall j, k :: 0 <= j < k < |violations| ==> violations[j].prefix != violations[k].prefix
  {
  }

  // ----- what a report, and no report, means -----

  /** Some module loaded from the root, directly or through others, is forbidden, or is deferred to and forbidden. */
  ghost predicate Depends(p: Program, start: Module) {
    || (exists m :: m != start && m in p.forbidden && Reaches(p.runtime, start, m))
    || (exists u, m :: m in p.forbidden && Reaches(p.runtime, start, u) && m in DepsOf(p.deferred, u))
  }

  /** If nothing permitted hits a forbidden module, every module the root loads is permitted. */
  lemma {:induction false} LoadsOnlyPermitted(p: Program, start: Module, q: seq<Module>, u: Module)
    requires forall w, m :: Reaches(Allowed(p), start, w) ==> !Hits(p, start, w, m)
    requires IsPath(p.runtime, q, start, u)
    ensures Reaches(Allowed(p), start, u)
    decreases |q|
  {
    if u == start {
      assert IsPath(Allowed(p), [start], start, start);
    } else {
      PathInit(p.runtime, q, start, u);
      var w := q[|q| - 2];
      LoadsOnlyPermitted(p, start, q[..|q| - 1], w);
      var r :| IsPath(Allowed(p), r, start, w);
      assert !Hits(p, start, w, u);
      PathStep(Allowed(p), r, start, w, u);
    }
  }

  lemma PermittedIsLoaded(p: Program, q: seq<Module>, a: Module, b: Module)
    requires IsPath(Allowed(p), q, a, b)
    ensures IsPath(p.runtime, q, a, b)
  {
    forall k | 0 < k < |q| ensures q[k] in DepsOf(p.runtime, q[k - 1]) {
      assert q[k] in DepsOf(Allowed(p), q[k - 1]);
    }
  }

  /** Nothing is reported exactly when no forbidden module is loaded from the root or deferred to by what is. */
  lemma SilentExactlyWhenClean(p: Program, start: Module, violations: seq<Violation>)
    requires forall k :: 0 <= k < |violations| ==> Real(p, start, violations[k])
    requires Complete(p, start, violations)
    ensures violations == [] <==> !Depends(p, start)
  {
    if violations == [] {
      forall w, m | Reaches(Allowed(p), start, w) ensures !Hits(p, start, w, m) {
        var q :| IsPath(Allowed(p), q, start, w);
        assert !Covered(violations, if m in p.forbidden then p.forbidden[m] else 0, |q| + 1);
      }
      CleanDependsOnNothing(p, start);
    } else {
      ReportedDepends(p, start, violations[0]);
    }
  }

  lemma CleanDependsOnNothing(p: Program, start: Module)
    requires forall w, m :: Reaches(Allowed(p), start, w) ==> !Hits(p, start, w, m)
    ensures !Depends(p, start)
  {
    forall u | Reaches(p.runtime, start, u) ensures Reaches(Allowed(p), start, u) {
      var q :| IsPath(p.runtime, q, start, u);
      LoadsOnlyPermitted(p, start, q, u);
    }
    forall m | m != start && Reaches(p.runtime, start, m) ensures m !in p.forbidden {
      var r :| IsPath(Allowed(p), r, start, m);
      PathInit(Allowed(p), r, start, m);
      assert m in DepsOf(Allowed(p), r[|r| - 2]);
    }
    forall u, m | Reaches(p.runtime, start, u) && m in DepsOf(p.deferred, u) ensures m !in p.forbidden {
      assert !Hits(p, start, u, m);
    }
  }

  lemma ReportedDepends(p: Program, start: Module, v: Violation)
    requires Real(p, start, v)
    ensures Depends(p, start)
  {
    var q := v.path[..|v.path| - 1];
    var u := v.path[|v.path| - 2];
    PermittedIsLoaded(p, q, start, u);
    assert Reaches(p.runtime, start, u);
    if !v.deferred {
      PathStep(p.runtime, q, start, u, v.target);
      assert Reaches(p.runtime, start, v.target);
    }
  }
}
