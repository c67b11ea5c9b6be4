/**
 * One pass of the dominator fixpoint: what each in-place update keeps, and why no chain ever
 * grows from the end of one pass to the end of the next.
 */
module DominatorPass {
  import opened ImportGraph
  import opened DominatorTree

  ghost predicate Imports(f: Numbering, u: Module, n: Module) {
    u in f.idx && n in DepsOf(f.g, u)
  }

  /** `c` is where the chains of the importers of `n` that have one meet. */
  ghost predicate Meets(f: Numbering, up: map<Module, Module>, n: Module, c: Module)
    requires Rooted(f, up)
  {
    && c in up
    && (forall u :: Imports(f, u, n) && u in up ==> c in Chain(f, up, u))
    && forall x :: (forall u :: Imports(f, u, n) && u in up ==> x in Chain(f, up, u)) ==> x in Chain(f, up, c)
  }

  /** What holds between passes: whatever lies on the chain of every importer of `n` is on the chain of `n`. */
  ghost predicate Settled(f: Numbering, up: map<Module, Module>) {
    && Numbered(f) && Rooted(f, up) && WithinTree(f, up) && KeepsDominators(f, up)
    && forall n, x :: n in up && n != f.entry && (forall u :: Imports(f, u, n) && u in up ==> x in Chain(f, up, u))
         ==> x in Chain(f, up, n)
  }

  /**
   * `x` was on the chain of importer `u` when a pass that started from `was` reached number `k`:
   * an importer numbered below `k` already had its new chain; any other had its old chain down to
   * `k` and a new one from there.
   */
  ghost predicate Persists(f: Numbering, was: map<Module, Module>, cur: map<Module, Module>, k: nat, u: Module, x: Module)
    requires Rooted(f, was) && Rooted(f, cur) && u in f.idx
    requires f.idx[u] < k ==> u in cur
    requires f.idx[u] >= k ==> u in was
  {
    if f.idx[u] < k then x in Chain(f, cur, u)
    else
      && x in Chain(f, was, u) && x in f.idx
      && forall y :: y in Chain(f, was, u) && y in f.idx && y in cur && f.idx[x] <= f.idx[y] < k ==> x in Chain(f, cur, y)
  }

  /** The pass left on the chain of `n` whatever was on the chain of every importer at its turn. */
  ghost predicate MetAtTurn(f: Numbering, was: map<Module, Module>, cur: map<Module, Module>, n: Module)
    requires Rooted(f, was) && Rooted(f, cur) && n in f.idx && n in cur
    requires forall m :: m in f.idx && f.idx[m] < f.idx[n] ==> m in cur
  {
    forall x :: (forall u :: Imports(f, u, n) && (f.idx[u] < f.idx[n] || u in was) ==> Persists(f, was, cur, f.idx[n], u, x))
      ==> x in Chain(f, cur, n)
  }

  /** A pass that started from `was` and has updated every module numbered below `k`. */
  ghost predicate InPass(f: Numbering, was: map<Module, Module>, cur: map<Module, Module>, k: nat) {
    && Settled(f, was) && Rooted(f, cur) && WithinTree(f, cur) && KeepsDominators(f, cur)
    && was.Keys <= cur.Keys
    && (forall n :: n in f.idx && f.idx[n] < k ==> n in cur)
    && (forall n :: n in cur && f.idx[n] >= k ==> n in was && cur[n] == was[n])
    && (forall n :: n in was && f.idx[n] < k ==> Chain(f, cur, n) <= Chain(f, was, n))
    && (forall n :: n in cur && f.idx[n] < k && n != f.entry ==> Chain(f, cur, n) <= {n} + Chain(f, cur, f.tree[n]))
    && (forall n :: n in cur && f.idx[n] < k && n != f.entry ==> MetAtTurn(f, was, cur, n))
  }

  // ----- one update -----

  ghost predicate Turn(f: Numbering, cur: map<Module, Module>, n: Module, c: Module) {
    && Numbered(f) && Rooted(f, cur) && WithinTree(f, cur)
    && n in f.idx && n != f.entry && f.tree[n] in cur && Meets(f, cur, n, c)
  }

  lemma MeetsParent(f: Numbering, cur: map<Module, Module>, n: Module, c: Module)
    requires Turn(f, cur, n, c)
    ensures c in Chain(f, cur, f.tree[n])
  {
    hide WithinTree;
    assert Imports(f, f.tree[n], n);
  }

  lemma RedirectKeepsRooted(f: Numbering, cur: map<Module, Module>, n: Module, c: Module)
    requires Rooted(f, cur) && n in f.idx && n != f.entry && c in cur && f.idx[c] < f.idx[n]
    ensures Rooted(f, cur[n := c])
  {
  }

  lemma TurnDescends(f: Numbering, cur: map<Module, Module>, n: Module, c: Module)
    requires Turn(f, cur, n, c)
    ensures c in cur && c in f.idx && f.idx[c] < f.idx[n]
    ensures c in Chain(f, cur, f.tree[n]) && Chain(f, cur, c) <= Chain(f, cur, f.tree[n])
    ensures Rooted(f, cur[n := c])
  {
    var parent := f.tree[n];
    MeetsParent(f, cur, n, c);
    hide Meets, WithinTree;
    ChainDescends(f, cur, parent);
    ChainSuffix(f, cur, c, parent);
    RedirectKeepsRooted(f, cur, n, c);
  }

  lemma UpdateBelow(f: Numbering, cur: map<Module, Module>, n: Module, c: Module, v: Module)
    requires Turn(f, cur, n, c) && v in cur && f.idx[v] < f.idx[n]
    ensures Rooted(f, cur[n := c]) && Chain(f, cur[n := c], v) == Chain(f, cur, v)
  {
    TurnDescends(f, cur, n, c);
    ChainAgrees(f, cur, cur[n := c], v, f.idx[n]);
  }

  lemma UpdateAt(f: Numbering, cur: map<Module, Module>, n: Module, c: Module)
    requires Turn(f, cur, n, c)
    ensures Rooted(f, cur[n := c]) && Chain(f, cur[n := c], n) == {n} + Chain(f, cur, c)
  {
    TurnDescends(f, cur, n, c);
    UpdateBelow(f, cur, n, c, c);
  }

  /** Where an update leaves the chain of any other module. */
  lemma {:induction false} UpdateAbove(f: Numbering, cur: map<Module, Module>, n: Module, c: Module, w: Module)
    requires Turn(f, cur, n, c) && w in cur
    ensures Rooted(f, cur[n := c])
    ensures n !in Chain(f, cur, w) ==> Chain(f, cur[n := c], w) == Chain(f, cur, w)
    ensures n in Chain(f, cur, w) ==> Chain(f, cur[n := c], n) <= Chain(f, cur[n := c], w)
    ensures n in Chain(f, cur, w) ==>
              forall x :: x in Chain(f, cur, w) && x in f.idx && f.idx[x] >= f.idx[n] ==> x in Chain(f, cur[n := c], w)
    decreases f.idx[w]
  {
    TurnDescends(f, cur, n, c);
    ChainDescends(f, cur, w);
    if w != n && w != f.entry {
      UpdateAbove(f, cur, n, c, cur[w]);
    } else if w == n {
      ChainDescends(f, cur[n := c], n);
    }
  }

  lemma UpdateWithinTree(f: Numbering, cur: map<Module, Module>, n: Module, c: Module)
    requires Turn(f, cur, n, c)
    ensures Rooted(f, cur[n := c]) && WithinTree(f, cur[n := c])
  {
    TurnDescends(f, cur, n, c);
    ChainWithinTree(f, cur, f.tree[n]);
    ChainSuffix(f, f.tree, f.tree[n], n);
  }

  lemma UpdateKeepsDominators(f: Numbering, cur: map<Module, Module>, n: Module, c: Module)
    requires Turn(f, cur, n, c) && KeepsDominators(f, cur)
    ensures Rooted(f, cur[n := c]) && KeepsDominators(f, cur[n := c])
  {
    TurnDescends(f, cur, n, c);
    forall m, w | w in cur[n := c] && Dominates(f.g, f.entry, m, w) ensures m in Chain(f, cur[n := c], w) {
      UpdateAt(f, cur, n, c);
      if w == n {
        DominatorAtTurn(f, cur, n, c, m);
      } else {
        UpdateAbove(f, cur, n, c, w);
        if n in Chain(f, cur, w) {
          DominatorIsNumbered(f, m, w);
          if f.idx[m] < f.idx[n] {
            ChainWithinTree(f, cur, w);
            DominatesAncestor(f, m, n, w);
            DominatorAtTurn(f, cur, n, c, m);
          }
        }
      }
    }
  }

  lemma DominatorAtTurn(f: Numbering, cur: map<Module, Module>, n: Module, c: Module, m: Module)
    requires Turn(f, cur, n, c) && KeepsDominators(f, cur) && Dominates(f.g, f.entry, m, n)
    ensures m == n || m in Chain(f, cur, c)
  {
    if m != n {
      forall u | Imports(f, u, n) && u in cur ensures m in Chain(f, cur, u) {
        DominatesImporter(f.g, f.entry, m, u, n);
      }
    }
  }

  /** In the middle of a pass every chain is within its chain at the start of the pass. */
  lemma {:induction false} ChainsShrinkDuring(f: Numbering, was: map<Module, Module>, cur: map<Module, Module>, k: nat, u: Module)
    requires InPass(f, was, cur, k) && u in was
    ensures Chain(f, cur, u) <= Chain(f, was, u)
    decreases f.idx[u]
  {
    if f.idx[u] >= k && u != f.entry {
      ChainsShrinkDuring(f, was, cur, k, was[u]);
    }
  }

  lemma UpdateShrinks(f: Numbering, was: map<Module, Module>, cur: map<Module, Module>, n: Module, c: Module)
    requires Turn(f, cur, n, c) && InPass(f, was, cur, f.idx[n]) && n in was
    ensures Rooted(f, cur[n := c]) && Chain(f, cur[n := c], n) <= Chain(f, was, n)
  {
    UpdateAt(f, cur, n, c);
    ChainDescends(f, was, n);
    forall x | x in Chain(f, cur, c) ensures x in Chain(f, was, n) {
      forall u | Imports(f, u, n) && u in was ensures x in Chain(f, was, u) {
        ChainSuffix(f, cur, c, u);
        ChainsShrinkDuring(f, was, cur, f.idx[n], u);
      }
    }
  }

  lemma {:induction false} PersistsMeansOnChain(f: Numbering, was: map<Module, Module>, cur: map<Module, Module>, k: nat, u: Module, x: Module)
    requires InPass(f, was, cur, k) && u in was && f.idx[u] >= k && Persists(f, was, cur, k, u, x)
    ensures x in Chain(f, cur, u)
    decreases f.idx[u]
  {
    if x != u && u != f.entry {
      var y := was[u];
      ChainDescends(f, was, y);
      ChainSuffix(f, was, y, u);
      if f.idx[y] >= k {
        PersistsMeansOnChain(f, was, cur, k, y, x);
      }
    } else {
      ChainDescends(f, cur, u);
    }
  }

  lemma UpdateMeets(f: Numbering, was: map<Module, Module>, cur: map<Module, Module>, n: Module, c: Module)
    requires Turn(f, cur, n, c) && InPass(f, was, cur, f.idx[n])
    ensures Rooted(f, cur[n := c]) && MetAtTurn(f, was, cur[n := c], n)
  {
    var k, cur' := f.idx[n], cur[n := c];
    UpdateAt(f, cur, n, c);
    forall x | forall u :: Imports(f, u, n) && (f.idx[u] < k || u in was) ==> Persists(f, was, cur', k, u, x)
      ensures x in Chain(f, cur', n)
    {
      forall u | Imports(f, u, n) && u in cur ensures x in Chain(f, cur, u) {
        assert Persists(f, was, cur', k, u, x);
        PersistsBefore(f, was, cur, n, c, k, u, x);
        if f.idx[u] >= k {
          PersistsMeansOnChain(f, was, cur, k, u, x);
        }
      }
    }
  }

  /** An update at `n` changes nothing that `Persists` reads at or below the number of `n`. */
  lemma PersistsBefore(f: Numbering, was: map<Module, Module>, cur: map<Module, Module>, n: Module, c: Module,
                       k: nat, u: Module, x: Module)
    requires Turn(f, cur, n, c) && Rooted(f, was) && k <= f.idx[n] && u in f.idx
    requires f.idx[u] < k ==> u in cur
    requires f.idx[u] >= k ==> u in was
    ensures Rooted(f, cur[n := c])
    ensures Persists(f, was, cur[n := c], k, u, x) <==> Persists(f, was, cur, k, u, x)
  {
    TurnDescends(f, cur, n, c);
    forall v | v in cur && f.idx[v] < f.idx[n] ensures Chain(f, cur[n := c], v) == Chain(f, cur, v) {
      UpdateBelow(f, cur, n, c, v);
    }
  }

  lemma UpdateKeepsMet(f: Numbering, was: map<Module, Module>, cur: map<Module, Module>, n: Module, c: Module, v: Module)
    requires Turn(f, cur, n, c) && InPass(f, was, cur, f.idx[n])
    requires v in cur && f.idx[v] < f.idx[n] && v != f.entry
    ensures Rooted(f, cur[n := c]) && MetAtTurn(f, was, cur[n := c], v)
  {
    var k, cur' := f.idx[v], cur[n := c];
    UpdateBelow(f, cur, n, c, v);
    assert MetAtTurn(f, was, cur, v);
    forall x | forall u :: Imports(f, u, v) && (f.idx[u] < k || u in was) ==> Persists(f, was, cur', k, u, x)
      ensures x in Chain(f, cur', v)
    {
      forall u | Imports(f, u, v) && (f.idx[u] < k || u in was) ensures Persists(f, was, cur, k, u, x) {
        PersistsBefore(f, was, cur, n, c, k, u, x);
      }
    }
  }

  lemma UpdateKeepsTreeBound(f: Numbering, was: map<Module, Module>, cur: map<Module, Module>, n: Module, c: Module, v: Module)
    requires Turn(f, cur, n, c) && InPass(f, was, cur, f.idx[n])
    requires v in cur[n := c] && f.idx[v] <= f.idx[n] && v != f.entry
    ensures Rooted(f, cur[n := c]) && f.tree[v] in cur
    ensures Chain(f, cur[n := c], v) <= {v} + Chain(f, cur[n := c], f.tree[v])
  {
    hide Meets, MetAtTurn, Settled, WithinTree, KeepsDominators;
    TurnDescends(f, cur, n, c);
    var t := f.tree[v];
    assert f.idx[t] < f.idx[v];
    UpdateBelow(f, cur, n, c, t);
    if v == n {
      UpdateAt(f, cur, n, c);
    } else {
      UpdateBelow(f, cur, n, c, v);
    }
  }

  /** The chains of a pass, module by module, after an update at `n`. */
  lemma UpdateKeepsChains(f: Numbering, was: map<Module, Module>, cur: map<Module, Module>, n: Module, c: Module, v: Module)
    requires Turn(f, cur, n, c) && InPass(f, was, cur, f.idx[n]) && v in cur[n := c] && f.idx[v] <= f.idx[n]
    ensures Rooted(f, cur[n := c])
    ensures v in was ==> Chain(f, cur[n := c], v) <= Chain(f, was, v)
    ensures v != f.entry ==> f.tree[v] in cur && Chain(f, cur[n := c], v) <= {v} + Chain(f, cur[n := c], f.tree[v])
    ensures v != f.entry ==> MetAtTurn(f, was, cur[n := c], v)
  {
    TurnDescends(f, cur, n, c);
    if v in was {
      if v == n { UpdateShrinks(f, was, cur, n, c); } else { UpdateBelow(f, cur, n, c, v); }
    }
    if v != f.entry {
      UpdateKeepsTreeBound(f, was, cur, n, c, v);
      if v == n { UpdateMeets(f, was, cur, n, c); } else { UpdateKeepsMet(f, was, cur, n, c, v); }
    }
  }

  /** Setting `n` to the meeting point of its importers' chains keeps everything a pass keeps. */
  lemma UpdateKeepsPass(f: Numbering, was: map<Module, Module>, cur: map<Module, Module>, n: Module, c: Module)
    requires Turn(f, cur, n, c) && InPass(f, was, cur, f.idx[n])
    ensures InPass(f, was, cur[n := c], f.idx[n] + 1)
  {
    var cur' := cur[n := c];
    UpdateKeepsOrder(f, was, cur, n, c);
    TurnDescends(f, cur, n, c);
    UpdateWithinTree(f, cur, n, c);
    UpdateKeepsDominators(f, cur, n, c);
    forall v | v in cur' && f.idx[v] < f.idx[n] + 1
      ensures v in was ==> Chain(f, cur', v) <= Chain(f, was, v)
      ensures v != f.entry ==> f.tree[v] in cur && Chain(f, cur', v) <= {v} + Chain(f, cur', f.tree[v])
      ensures v != f.entry ==> MetAtTurn(f, was, cur', v)
    {
      UpdateKeepsChains(f, was, cur, n, c, v);
    }
    hide Turn, Meets, MetAtTurn, Settled, WithinTree, KeepsDominators, Chain, Numbered, Imports;
  }

  /** After an update at `n` the modules up to its number are set and the later ones are as they were. */
  lemma UpdateKeepsOrder(f: Numbering, was: map<Module, Module>, cur: map<Module, Module>, n: Module, c: Module)
    requires Turn(f, cur, n, c) && InPass(f, was, cur, f.idx[n])
    ensures var cur' := cur[n := c];
            && was.Keys <= cur'.Keys
            && (forall m :: m in f.idx && f.idx[m] < f.idx[n] + 1 ==> m in cur')
            && (forall m :: m in cur' && f.idx[m] >= f.idx[n] + 1 ==> m in was && cur'[m] == was[m])
  {
    hide Meets, MetAtTurn, Settled, WithinTree, KeepsDominators, Chain;
  }

  // ----- the end of a pass -----

  /** A tree ancestor that survives on a chain survives on the chain of every tree ancestor above it. */
  lemma {:induction false} SurvivesUpTree(f: Numbering, was: map<Module, Module>, cur: map<Module, Module>, k: nat,
                                          u: Module, y: Module, x: Module)
    requires InPass(f, was, cur, k) && forall n :: n in f.idx ==> f.idx[n] < k
    requires u in f.idx && y in Chain(f, f.tree, u) && x in Chain(f, cur, u)
    requires x in f.idx && y in f.idx && f.idx[x] <= f.idx[y]
    ensures y in cur && x in Chain(f, cur, y)
    decreases f.idx[u]
  {
    ChainDescends(f, f.tree, u);
    if u != y {
      ChainDescends(f, f.tree, f.tree[u]);
      SurvivesUpTree(f, was, cur, k, f.tree[u], y, x);
    }
  }

  lemma PassPersists(f: Numbering, was: map<Module, Module>, cur: map<Module, Module>, k: nat, j: nat, u: Module, x: Module)
    requires InPass(f, was, cur, k) && forall n :: n in f.idx ==> f.idx[n] < k
    requires u in f.idx && x in Chain(f, cur, u) && (f.idx[u] >= j ==> u in was)
    ensures Persists(f, was, cur, j, u, x)
  {
    ChainDescends(f, cur, u);
    if f.idx[u] >= j {
      ChainsShrinkDuring(f, was, cur, k, u);
      forall y | y in Chain(f, was, u) && y in f.idx && f.idx[x] <= f.idx[y] < j ensures x in Chain(f, cur, y) {
        ChainWithinTree(f, was, u);
        SurvivesUpTree(f, was, cur, k, u, y, x);
      }
    }
  }

  /** A finished pass is settled again, and no chain is larger than it was when the pass began. */
  lemma PassSettles(f: Numbering, was: map<Module, Module>, cur: map<Module, Module>, k: nat)
    requires InPass(f, was, cur, k) && forall n :: n in f.idx ==> f.idx[n] < k
    ensures Settled(f, cur) && cur.Keys == f.idx.Keys
    ensures forall n :: n in was ==> Chain(f, cur, n) <= Chain(f, was, n)
  {
    assert forall n :: n in f.idx <==> n in cur;
    forall n, x | n in cur && n != f.entry && (forall u :: Imports(f, u, n) && u in cur ==> x in Chain(f, cur, u))
      ensures x in Chain(f, cur, n)
    {
      forall u | Imports(f, u, n) && (f.idx[u] < f.idx[n] || u in was)
        ensures Persists(f, was, cur, f.idx[n], u, x)
      {
        PassPersists(f, was, cur, k, f.idx[n], u, x);
      }
      assert MetAtTurn(f, was, cur, n);
    }
  }

  lemma PassStarts(f: Numbering, up: map<Module, Module>)
    requires Settled(f, up)
    ensures InPass(f, up, up, 1)
  {
  }

  lemma FixpointStarts(f: Numbering)
    requires Numbered(f)
    ensures Settled(f, map[f.entry := f.entry])
  {
    var up := map[f.entry := f.entry];
    forall m | Dominates(f.g, f.entry, m, f.entry) ensures m == f.entry {
      assert IsPath(f.g, [f.entry], f.entry, f.entry);
    }
  }
}
