/** The in-place fixpoint that computes immediate dominators, with its termination argument. */
module DominatorFixpoint {
  import opened Wrappers
  import opened ImportGraph
  import opened DominatorTree
  import opened DominatorPass
  import opened DominatorWeight

  // ----- the finger walk of two modules up their chains -----

  lemma DropFromMeeting(x: Module, a: set<Module>, b: set<Module>)
    requires x !in b
    ensures ({x} + a) * b == a * b && b * ({x} + a) == b * a
  {
  }

  lemma StepUpKeepsMeeting(f: Numbering, up: map<Module, Module>, hi: Module, lo: Module)
    requires Rooted(f, up) && hi in up && lo in up && f.idx[hi] > f.idx[lo]
    ensures hi != f.entry
    ensures Chain(f, up, hi) * Chain(f, up, lo) == Chain(f, up, up[hi]) * Chain(f, up, lo)
    ensures Chain(f, up, lo) * Chain(f, up, hi) == Chain(f, up, lo) * Chain(f, up, up[hi])
  {
    ChainDescends(f, up, lo);
    DropFromMeeting(hi, Chain(f, up, up[hi]), Chain(f, up, lo));
  }

  /** Walks `a` and `b` up to where their chains meet. */
  method Intersect(ghost f: Numbering, rpoIndex: map<Module, nat>, idom: map<Module, Module>, a: Module, b: Module)
    returns (meet: Module)
    requires Numbered(f) && rpoIndex == f.idx && Rooted(f, idom) && a in idom && b in idom
    ensures meet in idom && Chain(f, idom, meet) == Chain(f, idom, a) * Chain(f, idom, b)
  {
    hide Chain;
    var left, right := a, b;
    while left != right
      invariant left in idom && right in idom
      invariant Chain(f, idom, left) * Chain(f, idom, right) == Chain(f, idom, a) * Chain(f, idom, b)
      decreases rpoIndex[left] + rpoIndex[right]
    {
      ghost var before := rpoIndex[left] + rpoIndex[right];
      while rpoIndex[left] > rpoIndex[right]
        invariant left in idom && right in idom && rpoIndex[left] + rpoIndex[right] <= before
        invariant rpoIndex[left] + rpoIndex[right] == before ==> rpoIndex[left] != rpoIndex[right]
        invariant Chain(f, idom, left) * Chain(f, idom, right) == Chain(f, idom, a) * Chain(f, idom, b)
        decreases rpoIndex[left]
      {
        StepUpKeepsMeeting(f, idom, left, right);
        left := idom[left];
      }
      while rpoIndex[right] > rpoIndex[left]
        invariant left in idom && right in idom && rpoIndex[left] + rpoIndex[right] <= before
        invariant rpoIndex[left] + rpoIndex[right] == before ==> rpoIndex[right] > rpoIndex[left]
        invariant Chain(f, idom, left) * Chain(f, idom, right) == Chain(f, idom, a) * Chain(f, idom, b)
        decreases rpoIndex[right]
      {
        StepUpKeepsMeeting(f, idom, right, left);
        right := idom[right];
      }
    }
    meet := left;
  }

  // ----- the fixpoint -----

  lemma MeetOfOne(f: Numbering, up: map<Module, Module>, x: Module, c: Module)
    requires Rooted(f, up) && c in up && x in up && x in Chain(f, up, c)
    ensures Chain(f, up, x) <= Chain(f, up, c)
  {
    ChainSuffix(f, up, x, c);
  }

  /** Where the chains of the importers seen so far meet, if any of them has a chain. */
  ghost predicate MeetsSome(f: Numbering, up: map<Module, Module>, us: seq<Module>, c: Option<Module>)
    requires Rooted(f, up)
  {
    match c
    case None => forall u :: u in us ==> u !in up
    case Some(v) =>
      && v in up
      && (forall u :: u in us && u in up ==> v in Chain(f, up, u))
      && forall x :: (forall u :: u in us && u in up ==> x in Chain(f, up, u)) ==> x in Chain(f, up, v)
  }

  lemma MeetFirst(f: Numbering, up: map<Module, Module>, us: seq<Module>, u: Module)
    requires Rooted(f, up) && MeetsSome(f, up, us, None) && u in up
    ensures MeetsSome(f, up, us + [u], Some(u))
  {
    ChainDescends(f, up, u);
    forall x | forall v :: v in us + [u] && v in up ==> x in Chain(f, up, v) ensures x in Chain(f, up, u) {
      assert u in us + [u];
    }
  }

  lemma MeetNext(f: Numbering, up: map<Module, Module>, us: seq<Module>, v: Module, u: Module, c: Module)
    requires Rooted(f, up) && MeetsSome(f, up, us, Some(v)) && u in up
    requires c in up && Chain(f, up, c) == Chain(f, up, v) * Chain(f, up, u)
    ensures MeetsSome(f, up, us + [u], Some(c))
  {
    ChainDescends(f, up, c);
    forall w | w in us + [u] && w in up ensures c in Chain(f, up, w) {
      if w != u {
        MeetOfOne(f, up, v, w);
      }
    }
    forall x | forall w :: w in us + [u] && w in up ==> x in Chain(f, up, w) ensures x in Chain(f, up, c) {
      assert u in us + [u];
      forall w | w in us && w in up ensures x in Chain(f, up, w) { assert w in us + [u]; }
    }
  }

  lemma MeetSkips(f: Numbering, up: map<Module, Module>, us: seq<Module>, u: Module, c: Option<Module>)
    requires Rooted(f, up) && MeetsSome(f, up, us, c) && u !in up
    ensures MeetsSome(f, up, us + [u], c)
  {
    if c.Some? {
      forall x | forall w :: w in us + [u] && w in up ==> x in Chain(f, up, w) ensures x in Chain(f, up, c.value) {
        forall w | w in us && w in up ensures x in Chain(f, up, w) { assert w in us + [u]; }
      }
    }
  }

  /** The candidate dominator of `node`: its importers that have a dominator, intersected in turn. */
  method Candidate(ghost f: Numbering, rpoIndex: map<Module, nat>, idom: map<Module, Module>, importers: seq<Module>)
    returns (candidate: Option<Module>)
    requires Numbered(f) && rpoIndex == f.idx && Rooted(f, idom)
    ensures MeetsSome(f, idom, importers, candidate)
  {
    candidate := None;
    hide Chain, Numbered, Rooted;
    for j := 0 to |importers|
      invariant MeetsSome(f, idom, importers[..j], candidate)
    {
      var pred := importers[j];
      assert importers[..j + 1] == importers[..j] + [pred];
      if pred !in idom {
        MeetSkips(f, idom, importers[..j], pred, candidate);
      } else if candidate == None {
        MeetFirst(f, idom, importers[..j], pred);
        candidate := Some(pred);
      } else {
        var meet := Intersect(f, rpoIndex, idom, candidate.value, pred);
        MeetNext(f, idom, importers[..j], candidate.value, pred, meet);
        candidate := Some(meet);
      }
    }
    assert importers[..|importers|] == importers;
  }

  /** What each module adds to the fixpoint's progress: its dominator's number, or more if it has none. */
  ghost function Cost(f: Numbering, rpo: seq<Module>, up: map<Module, Module>): nat {
    if rpo == [] then 0
    else
      var n := rpo[0];
      (if n in up && up[n] in f.idx then f.idx[up[n]] else |f.idx|) + Cost(f, rpo[1..], up)
  }

  /** `n` has a dominator now, numbered no higher than the one it had. */
  ghost predicate Lowers(f: Numbering, was: map<Module, Module>, cur: map<Module, Module>, n: Module) {
    n in cur && cur[n] in f.idx && f.idx[cur[n]] < |f.idx| && (n in was ==> was[n] in f.idx && f.idx[cur[n]] <= f.idx[was[n]])
  }

  ghost predicate Differs(was: map<Module, Module>, cur: map<Module, Module>, n: Module) {
    n in cur && (n !in was || cur[n] != was[n])
  }

  lemma {:induction false} CostFalls(f: Numbering, rpo: seq<Module>, was: map<Module, Module>, cur: map<Module, Module>)
    requires Numbered(f) && forall n :: n in rpo ==> Lowers(f, was, cur, n)
    ensures Cost(f, rpo, cur) <= Cost(f, rpo, was)
    ensures (exists n :: n in rpo && Differs(was, cur, n)) ==> Cost(f, rpo, cur) < Cost(f, rpo, was)
  {
    if rpo != [] {
      assert Lowers(f, was, cur, rpo[0]);
      forall n | n in rpo[1..] ensures Lowers(f, was, cur, n) { assert n in rpo; }
      CostFalls(f, rpo[1..], was, cur);
      forall n | n in rpo && n != rpo[0] ensures n in rpo[1..] {
        var k :| 0 <= k < |rpo| && rpo[k] == n;
        assert rpo[1..][k - 1] == n;
      }
    }
  }

  lemma ShorterChainLowers(f: Numbering, rpo: seq<Module>, was: map<Module, Module>, cur: map<Module, Module>, n: Module)
    requires Numbered(f) && InOrder(f, rpo) && |rpo| == |f.idx| && Rooted(f, was) && Rooted(f, cur) && n in cur
    requires n in was ==> Chain(f, cur, n) <= Chain(f, was, n)
    ensures Lowers(f, was, cur, n)
  {
    if n in was && n != f.entry {
      ChainDescends(f, cur, cur[n]);
      ChainDescends(f, was, was[n]);
      assert cur[n] in Chain(f, cur, n);
    }
  }

  /** A pass that changed anything has made progress. */
  lemma PassLowersCost(f: Numbering, rpo: seq<Module>, was: map<Module, Module>, cur: map<Module, Module>)
    requires InOrder(f, rpo) && |rpo| == |f.idx| && InPass(f, was, cur, |rpo|)
    ensures Cost(f, rpo, cur) <= Cost(f, rpo, was)
    ensures (exists n :: Differs(was, cur, n)) ==> Cost(f, rpo, cur) < Cost(f, rpo, was)
  {
    PassSettles(f, was, cur, |rpo|);
    forall n | n in rpo ensures Lowers(f, was, cur, n) {
      ShorterChainLowers(f, rpo, was, cur, n);
    }
    forall n | Differs(was, cur, n) ensures n in rpo {
      assert rpo[f.idx[n]] == n;
    }
    CostFalls(f, rpo, was, cur);
  }

  /** `n` hangs from a module on the chain of each of its importers that has one. */
  ghost predicate Stable(f: Numbering, up: map<Module, Module>, n: Module)
    requires Rooted(f, up)
  {
    n in up && forall u :: Imports(f, u, n) && u in up ==> up[n] in Chain(f, up, u)
  }

  ghost predicate ListsImporters(f: Numbering, preds: map<Module, seq<Module>>) {
    && (forall n, u :: n in preds && u in preds[n] ==> Imports(f, u, n))
    && (forall u, n :: Imports(f, u, n) ==> n in preds && u in preds[n])
  }

  lemma CandidateIsTurn(f: Numbering, rpo: seq<Module>, was: map<Module, Module>, idom: map<Module, Module>, i: nat,
                        preds: map<Module, seq<Module>>, importers: seq<Module>, c: Option<Module>)
    requires InOrder(f, rpo) && ListsImporters(f, preds) && 1 <= i < |rpo| && InPass(f, was, idom, i)
    requires importers == if rpo[i] in preds then preds[rpo[i]] else []
    requires MeetsSome(f, idom, importers, c)
    ensures c.Some? && Turn(f, idom, rpo[i], c.value)
  {
    var n := rpo[i];
    hide KeepsDominators, WithinTree, MetAtTurn, Settled;
    assert Imports(f, f.tree[n], n);
    assert f.tree[n] in importers && f.tree[n] in idom;
    assert forall u :: Imports(f, u, n) <==> u in importers;
  }

  /** What the fixpoint reads: a numbering, the order it numbers, and the importers of each module. */
  ghost predicate Prepared(f: Numbering, rpo: seq<Module>, rpoIndex: map<Module, nat>, preds: map<Module, seq<Module>>) {
    Numbered(f) && rpoIndex == f.idx && InOrder(f, rpo) && |rpo| == |f.idx| && ListsImporters(f, preds)
  }

  /** While a pass has changed nothing, every module it has updated is stable. */
  ghost predicate Unchanged(f: Numbering, was: map<Module, Module>, cur: map<Module, Module>, k: nat)
    requires Rooted(f, cur)
  {
    cur == was && forall n :: n in f.idx && f.idx[n] < k && n != f.entry ==> Stable(f, cur, n)
  }

  ghost predicate PassSoFar(f: Numbering, was: map<Module, Module>, cur: map<Module, Module>, changed: bool, k: nat) {
    && InPass(f, was, cur, k)
    && (!changed ==> Unchanged(f, was, cur, k))
    && (changed ==> exists n :: Differs(was, cur, n))
  }

  lemma PassBegins(f: Numbering, up: map<Module, Module>)
    requires Settled(f, up)
    ensures PassSoFar(f, up, up, false, 1)
  {
    PassStarts(f, up);
    assert forall n :: n in f.idx && f.idx[n] < 1 ==> n == f.entry;
  }

  lemma PassSoFarIsRooted(f: Numbering, rpo: seq<Module>, rpoIndex: map<Module, nat>, preds: map<Module, seq<Module>>,
                          was: map<Module, Module>, cur: map<Module, Module>, changed: bool, k: nat)
    requires Prepared(f, rpo, rpoIndex, preds) && PassSoFar(f, was, cur, changed, k)
    ensures Numbered(f) && Rooted(f, cur) && rpoIndex == f.idx
  {
  }

  /** One turn of a pass: the candidate is never absent, and storing it carries the pass on. */
  lemma TurnOfPass(f: Numbering, rpo: seq<Module>, rpoIndex: map<Module, nat>, preds: map<Module, seq<Module>>,
                   was: map<Module, Module>, cur: map<Module, Module>, changed: bool, i: nat, c: Option<Module>)
    requires Prepared(f, rpo, rpoIndex, preds) && 1 <= i < |rpo| && PassSoFar(f, was, cur, changed, i)
    requires MeetsSome(f, cur, if rpo[i] in preds then preds[rpo[i]] else [], c)
    ensures c.Some?
    ensures rpo[i] in cur && cur[rpo[i]] == c.value ==> PassSoFar(f, was, cur, changed, i + 1)
    ensures rpo[i] !in cur || cur[rpo[i]] != c.value ==> PassSoFar(f, was, cur[rpo[i] := c.value], true, i + 1)
  {
    hide InPass, Turn;
    var n := rpo[i];
    CandidateIsTurn(f, rpo, was, cur, i, preds, if n in preds then preds[n] else [], c);
    UpdateKeepsPass(f, was, cur, n, c.value);
    if n in cur && cur[n] == c.value {
      assert cur[n := c.value] == cur;
      TurnLeavesUnchanged(f, was, cur, changed, n, c.value);
    } else {
      TurnChanges(f, was, cur, n, c.value);
    }
  }

  lemma TurnLeavesUnchanged(f: Numbering, was: map<Module, Module>, cur: map<Module, Module>, changed: bool, n: Module, c: Module)
    requires Turn(f, cur, n, c) && InPass(f, was, cur, f.idx[n]) && n in cur && cur[n] == c
    requires !changed ==> Unchanged(f, was, cur, f.idx[n])
    ensures !changed ==> Unchanged(f, was, cur, f.idx[n] + 1)
  {
    hide WithinTree, InPass;
    assert Stable(f, cur, n);
  }

  lemma TurnChanges(f: Numbering, was: map<Module, Module>, cur: map<Module, Module>, n: Module, c: Module)
    requires Turn(f, cur, n, c) && InPass(f, was, cur, f.idx[n]) && (n !in cur || cur[n] != c)
    ensures Differs(was, cur[n := c], n)
  {
  }

  /** A finished pass is settled again; it either stabilised the tree or made progress. */
  lemma PassEnds(f: Numbering, rpo: seq<Module>, rpoIndex: map<Module, nat>, preds: map<Module, seq<Module>>,
                 was: map<Module, Module>, cur: map<Module, Module>, changed: bool)
    requires Prepared(f, rpo, rpoIndex, preds) && PassSoFar(f, was, cur, changed, |rpo|)
    ensures Settled(f, cur)
    ensures changed ==> Cost(f, rpo, cur) < Cost(f, rpo, was)
    ensures !changed ==> cur == was && cur.Keys == f.idx.Keys && MeetsImporters(f, cur)
  {
    PassSettles(f, was, cur, |rpo|);
    PassLowersCost(f, rpo, was, cur);
  }

  /** One pass over the modules in reverse postorder, updating each dominator in place. */
  method Pass(ghost f: Numbering, rpo: seq<Module>, rpoIndex: map<Module, nat>, preds: map<Module, seq<Module>>,
              before: map<Module, Module>)
    returns (idom: map<Module, Module>, changed: bool)
    requires Prepared(f, rpo, rpoIndex, preds) && Settled(f, before)
    ensures Settled(f, idom)
    ensures changed ==> Cost(f, rpo, idom) < Cost(f, rpo, before)
    ensures !changed ==> idom == before && idom.Keys == f.idx.Keys && MeetsImporters(f, idom)
  {
    idom := before;
    changed := false;
    PassBegins(f, before);
    hide *;
    for i := 1 to |rpo|
      invariant PassSoFar(f, before, idom, changed, i)
    {
      var node := rpo[i];
      PassSoFarIsRooted(f, rpo, rpoIndex, preds, before, idom, changed, i);
      var candidate := Candidate(f, rpoIndex, idom, if node in preds then preds[node] else []);
      TurnOfPass(f, rpo, rpoIndex, preds, before, idom, changed, i, candidate);
      if candidate != None && (node !in idom || idom[node] != candidate.value) {
        idom := idom[node := candidate.value];
        changed := true;
      }
    }
    PassEnds(f, rpo, rpoIndex, preds, before, idom, changed);
  }

  /**
   * Repeats passes until one changes nothing. It terminates, and what it leaves is the
   * dominator tree.
   */
  method Fixpoint(ghost f: Numbering, rpo: seq<Module>, rpoIndex: map<Module, nat>, preds: map<Module, seq<Module>>)
    returns (idom: map<Module, Module>)
    requires Prepared(f, rpo, rpoIndex, preds)
    ensures Rooted(f, idom) && idom.Keys == f.idx.Keys && MeetsImporters(f, idom) && KeepsDominators(f, idom)
  {
    var entry := rpo[0];
    idom := map[entry := entry];
    FixpointStarts(f);
    hide InOrder, ListsImporters, Numbered, Cost;
    var changed := true;
    while changed
      invariant Settled(f, idom)
      invariant !changed ==> idom.Keys == f.idx.Keys && MeetsImporters(f, idom)
      decreases Cost(f, rpo, idom), changed
    {
      idom, changed := Pass(f, rpo, rpoIndex, preds, idom);
    }
  }
}
