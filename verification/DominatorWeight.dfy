/** Subtree sizes of a parent-pointer tree, and the one backward sweep that adds them up. */
module DominatorWeight {
  import opened ImportGraph
  import opened DominatorTree

  /** The modules whose chain goes through `v`. */
  ghost function Subtree(f: Numbering, up: map<Module, Module>, v: Module): set<Module>
    requires Rooted(f, up) && up.Keys == f.idx.Keys
  {
    set w | w in f.idx && v in Chain(f, up, w)
  }

  /** `c` hangs directly from `v`, is numbered `k` or more, and is on the chain of `w`. */
  ghost predicate ArrivesBy(f: Numbering, up: map<Module, Module>, v: Module, k: nat, w: Module, c: Module)
    requires Rooted(f, up) && up.Keys == f.idx.Keys && w in f.idx
  {
    c in Chain(f, up, w) && c in up && c != f.entry && up[c] == v && f.idx[c] >= k
  }

  /** The part of the subtree of `v` that lies under its children numbered `k` or more, and `v` itself. */
  ghost function Gathered(f: Numbering, up: map<Module, Module>, v: Module, k: nat): set<Module>
    requires Rooted(f, up) && up.Keys == f.idx.Keys
  {
    set w | w in f.idx && (w == v || exists c :: ArrivesBy(f, up, v, k, w, c))
  }

  lemma {:induction false} ChildOnTheWay(f: Numbering, up: map<Module, Module>, v: Module, w: Module) returns (c: Module)
    requires Rooted(f, up) && up.Keys == f.idx.Keys && w in f.idx && v in Chain(f, up, w) && v != w
    ensures c in f.idx && ArrivesBy(f, up, v, f.idx[c], w, c)
    decreases f.idx[w]
  {
    if up[w] == v {
      ChainDescends(f, up, w);
      c := w;
    } else {
      c := ChildOnTheWay(f, up, v, up[w]);
    }
  }

  /** Once every child of `v` is numbered `k` or more, what is gathered is the whole subtree. */
  lemma GatheredIsSubtree(f: Numbering, up: map<Module, Module>, v: Module, k: nat)
    requires Rooted(f, up) && up.Keys == f.idx.Keys && v in f.idx
    requires forall c :: c in up && c != f.entry && up[c] == v ==> f.idx[c] >= k
    ensures Gathered(f, up, v, k) == Subtree(f, up, v)
  {
    forall w | w in f.idx ensures w in Gathered(f, up, v, k) <==> v in Chain(f, up, w) {
      ChainDescends(f, up, w);
      if v in Chain(f, up, w) && w != v {
        var c := ChildOnTheWay(f, up, v, w);
        assert ArrivesBy(f, up, v, k, w, c);
      }
      if w in Gathered(f, up, v, k) && w != v {
        var c :| ArrivesBy(f, up, v, k, w, c);
        ChainSuffix(f, up, c, w);
        ChainDescends(f, up, v);
      }
    }
  }

  lemma NothingGatheredAbove(f: Numbering, up: map<Module, Module>, v: Module, k: nat)
    requires Rooted(f, up) && up.Keys == f.idx.Keys && v in f.idx
    requires forall n :: n in f.idx ==> f.idx[n] < k
    ensures Gathered(f, up, v, k) == {v}
  {
  }

  /** Two children of `v` never lie on one chain. */
  lemma OneChildOnChain(f: Numbering, up: map<Module, Module>, w: Module, c: Module, d: Module)
    requires Numbered(f) && Rooted(f, up) && up.Keys == f.idx.Keys && w in f.idx
    requires c in Chain(f, up, w) && d in Chain(f, up, w) && c in up && d in up
    requires c != f.entry && d != f.entry && up[c] == up[d]
    ensures c == d
  {
    var (lo, hi) := if f.idx[c] <= f.idx[d] then (c, d) else (d, c);
    ChainLinear(f, up, lo, hi, w);
    ChainDescends(f, up, up[hi]);
  }

  lemma ArrivalsAt(f: Numbering, up: map<Module, Module>, c: Module, v: Module, w: Module)
    requires Numbered(f) && Rooted(f, up) && up.Keys == f.idx.Keys && c in f.idx && c != f.entry
    requires w in f.idx && v in f.idx
    ensures w in Gathered(f, up, v, f.idx[c]) <==>
              w in Gathered(f, up, v, f.idx[c] + 1) || (v == up[c] && c in Chain(f, up, w))
  {
    var k := f.idx[c];
    var k' := k + 1;
    forall d ensures ArrivesBy(f, up, v, k, w, d) <==> ArrivesBy(f, up, v, k', w, d) || (d == c && ArrivesBy(f, up, v, k, w, c)) {
      hide Chain, Rooted;
    }
    assert v == up[c] && c in Chain(f, up, w) <==> ArrivesBy(f, up, v, k, w, c);
  }

  lemma ArrivalsAreNew(f: Numbering, up: map<Module, Module>, c: Module, w: Module)
    requires Numbered(f) && Rooted(f, up) && up.Keys == f.idx.Keys && c in f.idx && c != f.entry
    requires w in f.idx && c in Chain(f, up, w)
    ensures w !in Gathered(f, up, up[c], f.idx[c] + 1)
  {
    var k' := f.idx[c] + 1;
    ChainDescends(f, up, w);
    if d :| ArrivesBy(f, up, up[c], k', w, d) {
      OneChildOnChain(f, up, w, c, d);
    }
  }

  /** The child numbered `k` adds its whole subtree to its parent, none of which was there before. */
  lemma GatherChild(f: Numbering, up: map<Module, Module>, c: Module)
    requires Numbered(f) && Rooted(f, up) && up.Keys == f.idx.Keys && c in f.idx && c != f.entry
    ensures Gathered(f, up, up[c], f.idx[c]) == Gathered(f, up, up[c], f.idx[c] + 1) + Subtree(f, up, c)
    ensures Gathered(f, up, up[c], f.idx[c] + 1) !! Subtree(f, up, c)
  {
    hide Numbered, Chain, ArrivesBy;
    forall w | w in f.idx
      ensures w in Gathered(f, up, up[c], f.idx[c]) <==>
                w in Gathered(f, up, up[c], f.idx[c] + 1) || c in Chain(f, up, w)
    {
      ArrivalsAt(f, up, c, up[c], w);
    }
    forall w | w in f.idx && c in Chain(f, up, w) ensures w !in Gathered(f, up, up[c], f.idx[c] + 1) {
      ArrivalsAreNew(f, up, c, w);
    }
  }

  lemma GatherElsewhere(f: Numbering, up: map<Module, Module>, c: Module, v: Module)
    requires Numbered(f) && Rooted(f, up) && up.Keys == f.idx.Keys && c in f.idx && c != f.entry
    requires v in f.idx && v != up[c]
    ensures Gathered(f, up, v, f.idx[c]) == Gathered(f, up, v, f.idx[c] + 1)
  {
    hide Numbered, Chain, ArrivesBy;
    forall w | w in f.idx ensures w in Gathered(f, up, v, f.idx[c]) <==> w in Gathered(f, up, v, f.idx[c] + 1) {
      ArrivalsAt(f, up, c, v, w);
    }
  }

  lemma OwnSubtreeGathered(f: Numbering, up: map<Module, Module>, c: Module)
    requires Rooted(f, up) && up.Keys == f.idx.Keys && c in f.idx
    ensures Gathered(f, up, c, f.idx[c] + 1) == Subtree(f, up, c)
  {
    hide Gathered, Subtree, Chain;
    GatheredIsSubtree(f, up, c, f.idx[c] + 1);
  }

  lemma SubtreeSizes<T>(a: set<T>, b: set<T>)
    requires a !! b
    ensures |a + b| == |a| + |b|
  {
  }

  /** Every weight is the size of what has been gathered from the children numbered `i` or more. */
  ghost predicate Weighs(f: Numbering, up: map<Module, Module>, weight: map<Module, nat>, i: nat)
    requires Rooted(f, up) && up.Keys == f.idx.Keys
  {
    weight.Keys == f.idx.Keys && forall v :: v in f.idx ==> weight[v] == |Gathered(f, up, v, i)|
  }

  /** Adding the size of the child numbered `i` to its parent moves every size on from `i + 1` to `i`. */
  lemma SweepStep(f: Numbering, up: map<Module, Module>, node: Module, weight: map<Module, nat>)
    requires Numbered(f) && Rooted(f, up) && up.Keys == f.idx.Keys && node in f.idx && node != f.entry
    requires Weighs(f, up, weight, f.idx[node] + 1)
    ensures Weighs(f, up, weight[up[node] := weight[up[node]] + weight[node]], f.idx[node])
  {
    var parent := up[node];
    hide Numbered, Rooted, Gathered;
    forall v | v in f.idx
      ensures weight[parent := weight[parent] + weight[node]][v] == |Gathered(f, up, v, f.idx[node])|
    {
      SizeStep(f, up, node, v);
    }
  }

  lemma SizeStep(f: Numbering, up: map<Module, Module>, node: Module, v: Module)
    requires Numbered(f) && Rooted(f, up) && up.Keys == f.idx.Keys && node in f.idx && node != f.entry && v in f.idx
    ensures |Gathered(f, up, v, f.idx[node])| == |Gathered(f, up, v, f.idx[node] + 1)|
              + if v == up[node] then |Gathered(f, up, node, f.idx[node] + 1)| else 0
  {
    hide *;
    if v == up[node] {
      GatherChild(f, up, node);
      OwnSubtreeGathered(f, up, node);
      SubtreeSizes(Gathered(f, up, v, f.idx[node] + 1), Subtree(f, up, node));
    } else {
      GatherElsewhere(f, up, node, v);
    }
  }

  /** Numbers `rpo` as `f` does. */
  ghost predicate InOrder(f: Numbering, rpo: seq<Module>) {
    && |rpo| > 0 && rpo[0] == f.entry
    && (forall k :: 0 <= k < |rpo| ==> rpo[k] in f.idx && f.idx[rpo[k]] == k)
    && (forall n :: n in f.idx ==> f.idx[n] < |rpo| && rpo[f.idx[n]] == n)
  }

  /** Folds subtree sizes from the last-numbered module to the first. */
  method FoldSizes(ghost f: Numbering, rpo: seq<Module>, idom: map<Module, Module>) returns (weight: map<Module, nat>)
    requires Numbered(f) && InOrder(f, rpo) && Rooted(f, idom) && idom.Keys == f.idx.Keys
    ensures weight.Keys == idom.Keys
    ensures forall v :: v in idom ==> weight[v] == |Subtree(f, idom, v)|
  {
    weight := map[];
    for k := 0 to |rpo|
      invariant forall v :: v in weight <==> v in f.idx && f.idx[v] < k
      invariant forall v :: v in weight ==> weight[v] == 1
    {
      weight := weight[rpo[k] := 1];
    }
    StartWeighs(f, rpo, idom, weight);
    hide Weighs, Numbered, Rooted;
    for i := |rpo| downto 1
      invariant Weighs(f, idom, weight, i)
    {
      var node := rpo[i];
      SweepTurn(f, rpo, idom, weight, i);
      if node in idom && idom[node] != node {
        var parent := idom[node];
        weight := weight[parent := weight[parent] + weight[node]];
      }
    }
    SweepEnds(f, idom, weight);
  }

  lemma StartWeighs(f: Numbering, rpo: seq<Module>, up: map<Module, Module>, weight: map<Module, nat>)
    requires Numbered(f) && InOrder(f, rpo) && Rooted(f, up) && up.Keys == f.idx.Keys
    requires forall v :: v in weight <==> v in f.idx && f.idx[v] < |rpo|
    requires forall v :: v in weight ==> weight[v] == 1
    ensures Weighs(f, up, weight, |rpo|)
  {
    hide Numbered, Rooted;
    assert forall v :: v in weight <==> v in f.idx;
    forall v | v in f.idx ensures |Gathered(f, up, v, |rpo|)| == 1 {
      NothingGatheredAbove(f, up, v, |rpo|);
    }
  }

  lemma SweepTurn(f: Numbering, rpo: seq<Module>, up: map<Module, Module>, weight: map<Module, nat>, i: nat)
    requires Numbered(f) && InOrder(f, rpo) && Rooted(f, up) && up.Keys == f.idx.Keys
    requires 1 <= i < |rpo| && Weighs(f, up, weight, i + 1)
    ensures rpo[i] in up && up[rpo[i]] != rpo[i] && rpo[i] in weight && up[rpo[i]] in weight
    ensures Weighs(f, up, weight[up[rpo[i]] := weight[up[rpo[i]]] + weight[rpo[i]]], i)
  {
    SweepStep(f, up, rpo[i], weight);
  }

  lemma SweepEnds(f: Numbering, up: map<Module, Module>, weight: map<Module, nat>)
    requires Numbered(f) && Rooted(f, up) && up.Keys == f.idx.Keys && Weighs(f, up, weight, 1)
    ensures weight.Keys == up.Keys
    ensures forall v :: v in up ==> weight[v] == |Subtree(f, up, v)|
  {
    hide Gathered, Subtree;
    forall v | v in up ensures weight[v] == |Subtree(f, up, v)| {
      GatheredIsSubtree(f, up, v, 1);
    }
  }
}
