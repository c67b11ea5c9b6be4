/** Flattening of one-hop block successors to terminal ones, and when the flattened map is closed. */
module BlockSuccessors {
  import opened Wrappers

  type Block = string

  /** The one-hop edges, and which ids the registry knows. An empty successor is no successor. */
  datatype Registry = Registry(direct: map<Block, Block>, registered: Block -> bool)

  function Step(g: Registry, b: Block): Option<Block> {
    if b in g.direct && g.direct[b] != "" && g.registered(g.direct[b]) then Some(g.direct[b]) else None
  }

  /** A walk along registered edges that never repeats an id. */
  ghost predicate IsWalk(g: Registry, path: seq<Block>, from: Block, to: Block) {
    && |path| > 0 && path[0] == from && path[|path| - 1] == to
    && (forall k :: 0 < k < |path| ==> Step(g, path[k - 1]) == Some(path[k]))
    && (forall j, k :: 0 <= j < k < |path| ==> path[j] != path[k])
  }

  /** A walk stops where no edge leads on, or where the edge leads back to an id already visited. */
  ghost predicate Stops(g: Registry, path: seq<Block>, at: Block) {
    Step(g, at).None? || Step(g, at).value in path
  }

  ghost predicate IsTerminal(g: Registry, b: Block, t: Block) {
    exists path :: IsWalk(g, path, b, t) && Stops(g, path, t)
  }

  /** A retired id maps to its terminal successor, and has an entry only if that is another id. */
  ghost predicate IsFlattened(g: Registry, successors: map<Block, Block>) {
    && (forall b :: b in successors ==> b in g.direct && successors[b] != b && IsTerminal(g, b, successors[b]))
    && (forall b :: b in g.direct && b !in successors ==> IsTerminal(g, b, b))
  }

  method Terminal(g: Registry, b: Block) returns (current: Block)
    ensures IsTerminal(g, b, current)
  {
    var seen := {b};
    current := b;
    ghost var path := [b];
    while true
      invariant IsWalk(g, path, b, current)
      invariant forall x :: x in seen <==> x in path
      invariant forall k :: 0 <= k < |path| - 1 ==> path[k] in g.direct
      invariant |path| - 1 <= |g.direct|
      decreases |g.direct| - |path|
    {
      var successor := if current in g.direct then g.direct[current] else "";
      if successor == "" || successor in seen || !g.registered(successor) {
        return;
      }
      assert Step(g, current) == Some(successor);
      WalkIsShort(g.direct.Keys, path);
      path := path + [successor];
      seen := seen + {successor};
      current := successor;
    }
  }

  lemma WalkIsShort(keys: set<Block>, path: seq<Block>)
    requires forall k :: 0 <= k < |path| ==> path[k] in keys
    requires forall j, k :: 0 <= j < k < |path| ==> path[j] != path[k]
    ensures |path| <= |keys|
    decreases |path|
  {
    if |path| > 0 {
      WalkIsShort(keys - {path[|path| - 1]}, path[..|path| - 1]);
    }
  }

  method FlattenSuccessors(g: Registry, keys: seq<Block>) returns (successors: map<Block, Block>)
    requires (forall b :: b in keys <==> b in g.direct) && forall j, k :: 0 <= j < k < |keys| ==> keys[j] != keys[k]
    ensures IsFlattened(g, successors)
    ensures forall b :: b in successors ==> successors[b] != "" && g.registered(successors[b])
  {
    hide IsTerminal;
    successors := map[];
    for k := 0 to |keys|
      invariant forall b :: b in successors ==> b in keys[..k] && successors[b] != b && IsTerminal(g, b, successors[b])
      invariant forall b :: b in keys[..k] && b !in successors ==> IsTerminal(g, b, b)
    {
      var resolved := Terminal(g, keys[k]);
      if resolved != keys[k] {
        successors := successors[keys[k] := resolved];
      }
    }
    assert keys[..|keys|] == keys;
    forall b | b in successors ensures successors[b] != "" && g.registered(successors[b]) {
      TerminalIsRegistered(g, b, successors[b]);
    }
  }

  /** A successor is one the registry knows. */
  lemma TerminalIsRegistered(g: Registry, b: Block, t: Block)
    requires IsTerminal(g, b, t) && t != b
    ensures t != "" && g.registered(t)
  {
    var path :| IsWalk(g, path, b, t) && Stops(g, path, t);
    assert Step(g, path[|path| - 1 - 1]) == Some(path[|path| - 1]);
  }

  // ----- one answer an id -----

  lemma WalksAgree(g: Registry, p: seq<Block>, q: seq<Block>, b: Block, s: Block, t: Block, k: nat)
    requires IsWalk(g, p, b, s) && IsWalk(g, q, b, t) && k < |p| && k < |q|
    ensures p[k] == q[k]
  {
    if k > 0 {
      WalksAgree(g, p, q, b, s, t, k - 1);
      assert Step(g, p[k - 1]) == Some(p[k]) && Step(g, q[k - 1]) == Some(q[k]);
    }
  }

  lemma LongerWalkWouldRepeat(g: Registry, p: seq<Block>, q: seq<Block>, b: Block, s: Block, t: Block)
    requires IsWalk(g, p, b, s) && Stops(g, p, s) && IsWalk(g, q, b, t)
    ensures |q| <= |p|
  {
    if |p| < |q| {
      WalksAgree(g, p, q, b, s, t, |p| - 1);
      assert Step(g, q[|p| - 1]) == Some(q[|p|]);
      var j :| 0 <= j < |p| && p[j] == q[|p|];
      WalksAgree(g, p, q, b, s, t, j);
    }
  }

  lemma TerminalIsUnique(g: Registry, b: Block, s: Block, t: Block)
    requires IsTerminal(g, b, s) && IsTerminal(g, b, t)
    ensures s == t
  {
    var p :| IsWalk(g, p, b, s) && Stops(g, p, s);
    var q :| IsWalk(g, q, b, t) && Stops(g, q, t);
    LongerWalkWouldRepeat(g, p, q, b, s, t);
    LongerWalkWouldRepeat(g, q, p, b, t, s);
    WalksAgree(g, p, q, b, s, t, |p| - 1);
  }

  // ----- closedness -----

  /** No value is a key, so one lookup is enough. */
  ghost predicate IsClosed(successors: map<Block, Block>) {
    forall b :: b in successors ==> successors[b] !in successors
  }

  /** The generator's check of its own output: no successor is itself retired. */
  method CheckFlattened(successors: map<Block, Block>) returns (ok: bool)
    ensures ok <==> IsClosed(successors)
  {
    var rest := successors.Keys;
    while rest != {}
      invariant rest <= successors.Keys
      invariant forall b :: b in successors && b !in rest ==> successors[b] !in successors
    {
      var b := Pick(rest);
      if successors[b] in successors {
        return false;
      }
      rest := rest - {b};
    }
    ok := true;
  }

  /** Registered edges lead from `b`, through at least one other id, back to `b`. */
  ghost predicate OnLongCycle(g: Registry, b: Block) {
    exists path, last :: IsWalk(g, path, b, last) && |path| >= 2 && Step(g, last) == Some(b)
  }

  /** Where a walk stops at an id that is not its own answer, that id is on a cycle of two or more. */
  lemma RestlessEndIsOnCycle(g: Registry, b: Block, t: Block)
    requires IsTerminal(g, b, t) && !IsTerminal(g, t, t)
    ensures OnLongCycle(g, t)
  {
    var path :| IsWalk(g, path, b, t) && Stops(g, path, t);
    assert IsWalk(g, [t], t, t);
    assert !Stops(g, [t], t);
    var next := Step(g, t).value;
    assert next != t by { assert t in [t]; }
    var j :| 0 <= j < |path| && path[j] == next;
    CycleFrom(g, path, b, t, j);
  }

  lemma CycleFrom(g: Registry, path: seq<Block>, b: Block, t: Block, j: nat)
    requires IsWalk(g, path, b, t) && j < |path| - 1 && Step(g, t) == Some(path[j])
    ensures OnLongCycle(g, t)
  {
    var round := [t] + path[j..|path| - 1];
    var last := path[|path| - 2];
    forall k | 0 < k < |round| ensures Step(g, round[k - 1]) == Some(round[k]) {
      if k > 1 {
        assert round[k - 1] == path[j + k - 2] && round[k] == path[j + k - 1];
        assert Step(g, path[j + k - 1 - 1]) == Some(path[j + k - 1]);
      }
    }
    forall i, k | 0 <= i < k < |round| ensures round[i] != round[k] {
      assert round[k] == path[j + k - 1];
      if i > 0 { assert round[i] == path[j + i - 1]; }
    }
    assert IsWalk(g, round, t, last);
    assert Step(g, path[|path| - 1 - 1]) == Some(path[|path| - 1]);
  }

  /** On a cycle of two or more every id is answered by the one before it. */
  lemma CycleAnswersBefore(g: Registry, path: seq<Block>, b: Block, last: Block)
    requires IsWalk(g, path, b, last) && |path| >= 2 && Step(g, last) == Some(b)
    ensures IsTerminal(g, b, last) && IsTerminal(g, last, path[|path| - 2])
  {
    assert Stops(g, path, last) by { assert path[0] in path; }
    var round := [last] + path[..|path| - 1];
    var end := path[|path| - 2];
    forall k | 0 < k < |round| ensures Step(g, round[k - 1]) == Some(round[k]) {
      if k > 1 {
        assert round[k - 1] == path[k - 2] && round[k] == path[k - 1];
        assert Step(g, path[k - 1 - 1]) == Some(path[k - 1]);
      }
    }
    assert IsWalk(g, round, last, end);
    assert Step(g, path[|path| - 1 - 1]) == Some(path[|path| - 1]);
    assert Stops(g, round, end) by { assert round[0] in round; }
  }

  /** Flattening closes the map exactly when no registered edges form a cycle of two or more. */
  lemma ClosedExactlyWithoutLongCycles(g: Registry, successors: map<Block, Block>)
    requires IsFlattened(g, successors)
    ensures IsClosed(successors) <==> forall b :: !OnLongCycle(g, b)
  {
    if b :| OnLongCycle(g, b) {
      var path, last :| IsWalk(g, path, b, last) && |path| >= 2 && Step(g, last) == Some(b);
      CycleAnswersBefore(g, path, b, last);
      assert Step(g, path[1 - 1]) == Some(path[1]);
      AnswerIsRecorded(g, successors, b, last);
      AnswerIsRecorded(g, successors, last, path[|path| - 2]);
      assert successors[b] in successors;
    } else {
      forall b | b in successors ensures successors[b] !in successors {
        var t := successors[b];
        if t in successors {
          if IsTerminal(g, t, t) { TerminalIsUnique(g, t, t, successors[t]); }
          RestlessEndIsOnCycle(g, b, t);
        }
      }
    }
  }

  lemma AnswerIsRecorded(g: Registry, successors: map<Block, Block>, b: Block, t: Block)
    requires IsFlattened(g, successors) && IsTerminal(g, b, t) && b != t && b in g.direct
    ensures b in successors && successors[b] == t
  {
    if b in successors {
      TerminalIsUnique(g, b, t, successors[b]);
    } else {
      TerminalIsUnique(g, b, t, b);
    }
  }

  /** Two blocks that replace each other: each is answered by the other, so the map is not closed and its check fails. */
  lemma MutualSuccessorsAreNotClosed(g: Registry, successors: map<Block, Block>)
    requires g.direct == map["a" := "b", "b" := "a"] && g.registered("a") && g.registered("b")
    requires IsFlattened(g, successors)
    ensures successors == map["a" := "b", "b" := "a"] && !IsClosed(successors)
  {
    CycleAnswersBefore(g, ["a", "b"], "a", "b");
    AnswerIsRecorded(g, successors, "a", "b");
    AnswerIsRecorded(g, successors, "b", "a");
    hide IsTerminal;
    assert forall b :: b in successors ==> b in g.direct;
    assert successors == map["a" := "b", "b" := "a"];
  }

  /** The run time's single lookup. */
  function Lookup(successors: map<Block, Block>, b: Block): Block {
    if b in successors then successors[b] else b
  }

  /** A closed map answers in one lookup what following it to the end would: no edge leads on, except a block naming itself. */
  lemma OneLookupIsEnough(g: Registry, successors: map<Block, Block>, b: Block)
    requires IsFlattened(g, successors)
    requires IsClosed(successors)
    ensures Lookup(successors, Lookup(successors, b)) == Lookup(successors, b)
    ensures IsTerminal(g, b, Lookup(successors, b))
    ensures var t := Lookup(successors, b);
            t in g.direct && g.direct[t] != "" && g.registered(g.direct[t]) ==> g.direct[t] == t
  {
    var t := Lookup(successors, b);
    if b !in g.direct {
      assert IsWalk(g, [b], b, b) && Stops(g, [b], b);
    }
    if t in g.direct {
      assert IsTerminal(g, t, t);
      var p :| IsWalk(g, p, t, t) && Stops(g, p, t);
      assert |p| == 1;
    }
  }
}
