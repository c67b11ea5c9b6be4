/** The explicit-stack depth-first search that numbers a module graph. */
module DepthFirst {
  import opened ImportGraph

  datatype Frame = Frame(node: Module, next: nat)

  ghost predicate Distinct(s: seq<Module>) {
    forall j, k :: 0 <= j < k < |s| ==> s[j] != s[k]
  }

  /** Every module of the graph has a row and imports only modules of the graph. */
  ghost predicate Closed(s: Graph, entry: Module) {
    entry in s && forall m, d :: m in s && d in s[m] ==> d in s
  }

  ghost predicate OccursAfter(order: seq<Module>, k: int, m: Module) {
    exists j :: k < j < |order| && 0 <= j && order[j] == m
  }

  /**
   * An order of finishing: the entry is last, and every other module has a spanning-tree parent
   * that imports it and comes later.
   */
  ghost predicate FinishingOrder(s: Graph, entry: Module, order: seq<Module>, parent: map<Module, Module>) {
    && |order| > 0 && order[|order| - 1] == entry && Distinct(order)
    && forall k :: 0 <= k < |order| - 1 ==>
         order[k] in parent && order[k] in DepsOf(s, parent[order[k]]) && OccursAfter(order, k, parent[order[k]])
  }

  /** `order` is what has finished, then the stack from its top down. */
  ghost predicate Ahead(order: seq<Module>, postorder: seq<Module>, stack: seq<Frame>) {
    && |order| == |postorder| + |stack| && order[..|postorder|] == postorder
    && forall k :: 0 <= k < |stack| ==> order[|order| - 1 - k] == stack[k].node
  }

  ghost predicate Seen(s: Graph, postorder: seq<Module>, stack: seq<Frame>, visited: set<Module>) {
    && (forall k, d :: 0 <= k < |postorder| && d in DepsOf(s, postorder[k]) ==> d in visited)
    && (forall k :: 0 <= k < |stack| ==> stack[k].node in s && stack[k].next <= |s[stack[k].node]|)
    && (forall k, j :: 0 <= k < |stack| && 0 <= j < stack[k].next ==> s[stack[k].node][j] in visited)
  }

  ghost predicate Lists(visited: set<Module>, order: seq<Module>) {
    && (forall k :: 0 <= k < |order| ==> order[k] in visited)
    && (forall m :: m in visited ==> m in order)
  }

  /** What the search keeps while it runs. */
  ghost predicate Searching(s: Graph, entry: Module, postorder: seq<Module>, stack: seq<Frame>, visited: set<Module>,
                            order: seq<Module>, parent: map<Module, Module>)
  {
    && Closed(s, entry) && visited <= s.Keys
    && Lists(visited, order)
    && FinishingOrder(s, entry, order, parent)
    && Ahead(order, postorder, stack)
    && Seen(s, postorder, stack, visited)
  }

  function InsertAt(order: seq<Module>, p: nat, child: Module): (r: seq<Module>)
    requires p <= |order|
    ensures |r| == |order| + 1 && r[p] == child
    ensures forall k :: 0 <= k < p ==> r[k] == order[k]
    ensures forall k :: p <= k < |order| ==> r[k + 1] == order[k]
    ensures forall k :: p < k < |r| ==> r[k] == order[k - 1]
  {
    order[..p] + [child] + order[p..]
  }

  lemma InsertKeepsDistinct(order: seq<Module>, p: nat, child: Module)
    requires p <= |order| && Distinct(order) && child !in order
    ensures Distinct(InsertAt(order, p, child))
  {
    hide InsertAt;
  }

  lemma InsertKeepsParent(s: Graph, order: seq<Module>, parent: map<Module, Module>, p: nat, child: Module, k: nat)
    requires p < |order| && child !in order && child in DepsOf(s, order[p]) && k < |order|
    requires k != p
    requires var i := if k < p then k else k - 1;
             order[i] in parent && order[i] in DepsOf(s, parent[order[i]]) && OccursAfter(order, i, parent[order[i]])
    ensures var order', parent' := InsertAt(order, p, child), parent[child := order[p]];
            order'[k] in parent' && order'[k] in DepsOf(s, parent'[order'[k]]) && OccursAfter(order', k, parent'[order'[k]])
  {
    hide InsertAt;
    var order' := InsertAt(order, p, child);
    var i := if k < p then k else k - 1;
    assert order'[k] == order[i] != child;
    var j :| i < j < |order| && order[j] == parent[order[i]];
    assert order'[if j < p then j else j + 1] == order[j];
  }

  lemma InsertKeepsOrder(s: Graph, entry: Module, order: seq<Module>, parent: map<Module, Module>, p: nat, child: Module)
    requires FinishingOrder(s, entry, order, parent)
    requires p < |order| && child !in order && child in DepsOf(s, order[p])
    ensures FinishingOrder(s, entry, InsertAt(order, p, child), parent[child := order[p]])
  {
    hide InsertAt;
    var order', parent' := InsertAt(order, p, child), parent[child := order[p]];
    InsertKeepsDistinct(order, p, child);
    forall k | 0 <= k < |order'| - 1
      ensures order'[k] in parent' && order'[k] in DepsOf(s, parent'[order'[k]]) && OccursAfter(order', k, parent'[order'[k]])
    {
      if k == p {
        assert order'[p + 1] == order[p];
      } else {
        InsertKeepsParent(s, order, parent, p, child, k);
      }
    }
  }

  lemma SearchStarts(s: Graph, entry: Module)
    requires Closed(s, entry)
    ensures Searching(s, entry, [], [Frame(entry, 0)], {entry}, [entry], map[])
  {
  }

  lemma SearchingTop(s: Graph, entry: Module, postorder: seq<Module>, stack: seq<Frame>, visited: set<Module>,
                     order: seq<Module>, parent: map<Module, Module>)
    requires Searching(s, entry, postorder, stack, visited, order, parent) && |stack| > 0
    ensures |postorder| <= |order|
    ensures stack[|stack| - 1].node in s && stack[|stack| - 1].next <= |s[stack[|stack| - 1].node]|
  {
  }

  /** A frame steps past its next child, which has been seen. */
  lemma StepKeepsSearching(s: Graph, entry: Module, postorder: seq<Module>, stack: seq<Frame>, visited: set<Module>,
                           order: seq<Module>, parent: map<Module, Module>, top: nat, frame: Frame)
    requires Searching(s, entry, postorder, stack, visited, order, parent)
    requires top < |stack| && stack[top] == frame && frame.node in s && frame.next < |s[frame.node]|
    requires s[frame.node][frame.next] in visited
    ensures Searching(s, entry, postorder, stack[top := Frame(frame.node, frame.next + 1)], visited, order, parent)
  {
  }

  /** A child seen for the first time joins the order just before the module it was seen from. */
  lemma PushKeepsSearching(s: Graph, entry: Module, postorder: seq<Module>, stack: seq<Frame>, visited: set<Module>,
                           order: seq<Module>, parent: map<Module, Module>, frame: Frame, child: Module)
    requires Searching(s, entry, postorder, stack, visited, order, parent)
    requires |stack| > 0 && stack[|stack| - 1] == frame && child in DepsOf(s, frame.node) && child !in visited
    ensures child in s && |postorder| <= |order|
    ensures Searching(s, entry, postorder, stack + [Frame(child, 0)], visited + {child},
                      InsertAt(order, |postorder|, child), parent[child := frame.node])
  {
    hide FinishingOrder;
    assert order[|postorder|] == frame.node;
    InsertKeepsOrder(s, entry, order, parent, |postorder|, child);
    InsertKeepsLists(visited, order, |postorder|, child);
    hide Lists;
  }

  lemma InsertKeepsLists(visited: set<Module>, order: seq<Module>, p: nat, child: Module)
    requires Lists(visited, order) && p <= |order|
    ensures Lists(visited + {child}, InsertAt(order, p, child))
  {
    var order' := InsertAt(order, p, child);
    forall m | m in visited + {child} ensures m in order' {
      if m != child {
        var k :| 0 <= k < |order| && order[k] == m;
        assert order'[if k < p then k else k + 1] == m;
      }
    }
    forall k | 0 <= k < |order'| ensures order'[k] in visited + {child} {
      if k != p { assert order'[k] == order[if k < p then k else k - 1]; }
    }
  }

  /** The two updates a first sight makes, in the order the search makes them. */
  lemma DiscoverKeepsSearching(s: Graph, entry: Module, postorder: seq<Module>, stack: seq<Frame>, visited: set<Module>,
                               order: seq<Module>, parent: map<Module, Module>, top: nat, frame: Frame, child: Module)
    requires Searching(s, entry, postorder, stack, visited, order, parent)
    requires top == |stack| - 1 && stack[top] == frame && frame.node in s && frame.next < |s[frame.node]|
    requires s[frame.node][frame.next] == child && child !in visited
    ensures child in s && |postorder| <= |order|
    ensures Searching(s, entry, postorder, stack[top := Frame(frame.node, frame.next + 1)] + [Frame(child, 0)],
                      visited + {child}, InsertAt(order, |postorder|, child), parent[child := frame.node])
  {
    hide Searching;
    PushKeepsSearching(s, entry, postorder, stack, visited, order, parent, frame, child);
    var pushed := stack + [Frame(child, 0)];
    StepKeepsSearching(s, entry, postorder, pushed, visited + {child}, InsertAt(order, |postorder|, child),
                       parent[child := frame.node], top, frame);
    assert pushed[top := Frame(frame.node, frame.next + 1)]
        == stack[top := Frame(frame.node, frame.next + 1)] + [Frame(child, 0)];
  }

  lemma SearchEnds(s: Graph, entry: Module, postorder: seq<Module>, stack: seq<Frame>, visited: set<Module>,
                   order: seq<Module>, parent: map<Module, Module>)
    requires Searching(s, entry, postorder, stack, visited, order, parent) && |stack| == 0
    ensures FinishingOrder(s, entry, postorder, parent)
    ensures forall k, d :: 0 <= k < |postorder| && d in DepsOf(s, postorder[k]) ==> d in postorder
  {
    assert order == postorder;
  }

  /** A frame with no children left finishes its module; the order already had it there. */
  lemma PopKeepsSearching(s: Graph, entry: Module, postorder: seq<Module>, stack: seq<Frame>, visited: set<Module>,
                          order: seq<Module>, parent: map<Module, Module>, frame: Frame)
    requires Searching(s, entry, postorder, stack, visited, order, parent)
    requires |stack| > 0 && stack[|stack| - 1] == frame && frame.node in s && frame.next >= |s[frame.node]|
    ensures Searching(s, entry, postorder + [frame.node], stack[..|stack| - 1], visited, order, parent)
  {
    hide FinishingOrder;
    assert order[|postorder|] == frame.node;
    assert order[..|postorder| + 1] == postorder + [frame.node];
    assert forall d :: d in s[frame.node] ==> d in visited;
  }

  /**
   * Finishes every module reachable from `entry`, each after the modules first seen from it.
   * The spanning tree it walked is returned for the proof only.
   */
  method Postorder(s: Graph, entry: Module) returns (postorder: seq<Module>, ghost parent: map<Module, Module>)
    requires Closed(s, entry)
    ensures FinishingOrder(s, entry, postorder, parent)
    ensures forall k, d :: 0 <= k < |postorder| && d in DepsOf(s, postorder[k]) ==> d in postorder
  {
    postorder := [];
    parent := map[];
    var visited := {entry};
    var stack := [Frame(entry, 0)];
    ghost var order := [entry];
    SearchStarts(s, entry);
    hide Searching;
    while |stack| > 0
      invariant visited <= s.Keys
      invariant Searching(s, entry, postorder, stack, visited, order, parent)
      decreases s.Keys - visited, |stack|,
                if |stack| > 0 then |DepsOf(s, stack[|stack| - 1].node)| - stack[|stack| - 1].next else 0
    {
      SearchingTop(s, entry, postorder, stack, visited, order, parent);
      var top := |stack| - 1;
      var frame := stack[top];
      var children := s[frame.node];
      if frame.next < |children| {
        var child := children[frame.next];
        if child !in visited {
          DiscoverKeepsSearching(s, entry, postorder, stack, visited, order, parent, top, frame, child);
        } else {
          StepKeepsSearching(s, entry, postorder, stack, visited, order, parent, top, frame);
        }
        stack := stack[top := Frame(frame.node, frame.next + 1)];
        if child !in visited {
          parent := parent[child := frame.node];
          order := InsertAt(order, |postorder|, child);
          visited := visited + {child};
          stack := stack + [Frame(child, 0)];
        }
      } else {
        PopKeepsSearching(s, entry, postorder, stack, visited, order, parent, frame);
        postorder := postorder + [frame.node];
        stack := stack[..top];
      }
    }
    SearchEnds(s, entry, postorder, stack, visited, order, parent);
  }
}
