/** The bounded search for a descendant: an explicit stack, a seen set, a node budget and a depth limit. */
module BoundedSearch {
  import opened Options

  /** Children by node, in order; cycles and shared nodes are allowed. */
  type Graph = map<nat, seq<nat>>

  function Children(g: Graph, node: nat): seq<nat> {
    if node in g then g[node] else []
  }

  /** An entry of the stack. */
  datatype Frame = Frame(node: nat, depth: nat)

  function AtDepth(nodes: seq<nat>, depth: nat): seq<Frame> {
    seq(|nodes|, i requires 0 <= i < |nodes| => Frame(nodes[i], depth))
  }

  function Reversed(s: seq<Frame>): seq<Frame> {
    if s == [] then [] else Reversed(s[1..]) + [s[0]]
  }

  /** The search from a stack, top first: what it finds, and the nodes it tests. */
  function Search(
    g: Graph, test: nat -> bool, stack: seq<Frame>, seen: set<nat>, budget: nat, maxDepth: nat)
    : (r: (Option<nat>, seq<nat>))
    decreases budget, |stack|
  {
    if stack == [] || budget == 0 then (None, [])
    else
      var Frame(node, depth) := stack[0];
      if node in seen then Search(g, test, stack[1..], seen, budget, maxDepth)
      else if test(node) then (Some(node), [node])
      else
        var pushed := if depth >= maxDepth then [] else AtDepth(Children(g, node), depth + 1);
        var r := Search(g, test, pushed + stack[1..], seen + {node}, budget - 1, maxDepth);
        (r.0, [node] + r.1)
  }

  lemma SearchUnfolded(
    g: Graph, test: nat -> bool, stack: seq<Frame>, seen: set<nat>, budget: nat, maxDepth: nat)
    ensures var r := Search(g, test, stack, seen, budget, maxDepth);
            if stack == [] || budget == 0 then r == (None, [])
            else
              var Frame(node, depth) := stack[0];
              if node in seen then r == Search(g, test, stack[1..], seen, budget, maxDepth)
              else if test(node) then r == (Some(node), [node])
              else
                var pushed := if depth >= maxDepth then [] else AtDepth(Children(g, node), depth + 1);
                var next := Search(g, test, pushed + stack[1..], seen + {node}, budget - 1, maxDepth);
                r == (next.0, [node] + next.1)
  {
  }

  lemma {:induction false} ReversedConcat(a: seq<Frame>, b: seq<Frame>)
    ensures Reversed(a + b) == Reversed(b) + Reversed(a)
    decreases |a|
  {
    if a == [] {
      assert a + b == b;
    } else {
      assert (a + b)[1..] == a[1..] + b;
      ReversedConcat(a[1..], b);
    }
  }

  lemma {:induction false} ReversedTwice(s: seq<Frame>)
    ensures Reversed(Reversed(s)) == s && |Reversed(s)| == |s|
    decreases |s|
  {
    if s != [] {
      ReversedTwice(s[1..]);
      ReversedConcat(Reversed(s[1..]), [s[0]]);
      assert Reversed([s[0]]) == [s[0]];
    }
  }

  lemma ReversedLast(s: seq<Frame>)
    requires s != []
    ensures Reversed(s) == [s[|s| - 1]] + Reversed(s[..|s| - 1])
  {
    assert s == s[..|s| - 1] + [s[|s| - 1]];
    ReversedConcat(s[..|s| - 1], [s[|s| - 1]]);
    assert Reversed([s[|s| - 1]]) == [s[|s| - 1]];
  }

  /** One round of the search on the stack as the loop keeps it, its top at the end. */
  lemma SearchFromTop(
    g: Graph, test: nat -> bool, stack: seq<Frame>, seen: set<nat>, budget: nat, maxDepth: nat)
    requires stack != [] && budget > 0
    ensures var Frame(node, depth) := stack[|stack| - 1];
            var below := stack[..|stack| - 1];
            var r := Search(g, test, Reversed(stack), seen, budget, maxDepth);
            if node in seen then r == Search(g, test, Reversed(below), seen, budget, maxDepth)
            else if test(node) then r == (Some(node), [node])
            else
              var items := if depth >= maxDepth then [] else Reversed(AtDepth(Children(g, node), depth + 1));
              var next := Search(g, test, Reversed(below + items), seen + {node}, budget - 1, maxDepth);
              r == (next.0, [node] + next.1)
  {
    hide *;
    var Frame(node, depth) := stack[|stack| - 1];
    var below := stack[..|stack| - 1];
    ReversedLast(stack);
    SearchUnfolded(g, test, Reversed(stack), seen, budget, maxDepth);
    assert Reversed(stack)[1..] == Reversed(below);
    if depth >= maxDepth {
      ReversedOne(stack[0]);
      PushedFromTop(below, []);
    } else {
      PushedFromTop(below, AtDepth(Children(g, node), depth + 1));
    }
  }

  lemma PushedFromTop(below: seq<Frame>, pushed: seq<Frame>)
    ensures Reversed(below + Reversed(pushed)) == pushed + Reversed(below)
  {
    hide *;
    ReversedConcat(below, Reversed(pushed));
    ReversedTwice(pushed);
  }

  lemma ReversedOne(frame: Frame)
    ensures Reversed([frame]) == [frame] && Reversed([]) == []
  {
  }

  method FirstDescendant(g: Graph, root: nat, test: nat -> bool, maxNodes: nat, maxDepth: nat)
    returns (found: Option<nat>, tested: seq<nat>)
    ensures (found, tested) == Search(g, test, [Frame(root, 0)], {}, maxNodes, maxDepth)
  {
    hide *;
    var visitedCount := 0;
    var stack := [Frame(root, 0)];
    var seen: set<nat> := {};
    tested := [];
    ghost var (match0, rest) := Search(g, test, [Frame(root, 0)], {}, maxNodes, maxDepth);
    ghost var all := rest;
    ReversedOne(stack[0]);
    assert tested + rest == rest;
    while stack != [] && visitedCount < maxNodes
      invariant visitedCount <= maxNodes
      invariant (match0, rest) == Search(g, test, Reversed(stack), seen, maxNodes - visitedCount, maxDepth)
      invariant all == tested + rest
      decreases maxNodes - visitedCount, |stack|
    {
      SearchFromTop(g, test, stack, seen, maxNodes - visitedCount, maxDepth);
      var Frame(node, depth) := stack[|stack| - 1];
      stack := stack[..|stack| - 1];
      if node in seen {
        continue;
      }
      seen := seen + {node};
      visitedCount := visitedCount + 1;
      assert rest[0] == node && tested + rest == tested + [node] + rest[1..];
      rest := rest[1..];
      tested := tested + [node];
      if test(node) {
        assert tested + rest == tested;
        return Some(node), tested;
      }
      if depth >= maxDepth {
        assert stack + [] == stack;
        continue;
      }
      stack := stack + Reversed(AtDepth(Children(g, node), depth + 1));
    }
    SearchUnfolded(g, test, Reversed(stack), seen, maxNodes - visitedCount, maxDepth);
    ReversedTwice(stack);
    assert tested + rest == tested;
    found := None;
  }

  predicate Distinct(s: seq<nat>) {
    forall i, j :: 0 <= i < j < |s| ==> s[i] != s[j]
  }

  /**
   On any graph: each node is tested at most once and at most `budget` in all, only the last
   test can succeed, and the search finds exactly the node whose test did.
   */
  lemma {:induction false} SearchTestsOnce(
    g: Graph, test: nat -> bool, stack: seq<Frame>, seen: set<nat>, budget: nat, maxDepth: nat)
    ensures var (found, tested) := Search(g, test, stack, seen, budget, maxDepth);
            && |tested| <= budget && Distinct(tested) && (forall n <- tested :: n !in seen)
            && (found.Some? ==> tested != [] && tested[|tested| - 1] == found.value && test(found.value))
            && (forall i :: 0 <= i < |tested| && test(tested[i]) ==> found == Some(tested[i]) && i == |tested| - 1)
    decreases budget, |stack|
  {
    if stack != [] && budget > 0 {
      var Frame(node, depth) := stack[0];
      if node in seen {
        SearchTestsOnce(g, test, stack[1..], seen, budget, maxDepth);
      } else if !test(node) {
        var pushed := if depth >= maxDepth then [] else AtDepth(Children(g, node), depth + 1);
        SearchTestsOnce(g, test, pushed + stack[1..], seen + {node}, budget - 1, maxDepth);
        var rest := Search(g, test, pushed + stack[1..], seen + {node}, budget - 1, maxDepth).1;
        assert forall i :: 0 <= i < |rest| ==> rest[i] in rest;
      }
    }
  }

  // On a tree.

  datatype Tree = Tree(id: nat, children: seq<Tree>)

  function Ids(trees: seq<Tree>): seq<nat> {
    seq(|trees|, i requires 0 <= i < |trees| => trees[i].id)
  }

  /** The graph has the tree's children under every node of the tree. */
  ghost predicate Represents(g: Graph, t: Tree) {
    Children(g, t.id) == Ids(t.children) && forall c <- t.children :: Represents(g, c)
  }

  /** Nodes in pre-order down to the depth limit. */
  function Preorder(t: Tree, depth: nat, maxDepth: nat): seq<nat>
    decreases t, 0
  {
    [t.id] + if depth >= maxDepth then [] else PreorderAll(t.children, depth + 1, maxDepth)
  }

  function PreorderAll(trees: seq<Tree>, depth: nat, maxDepth: nat): seq<nat>
    decreases trees, |trees|
  {
    if trees == [] then [] else Preorder(trees[0], depth, maxDepth) + PreorderAll(trees[1..], depth, maxDepth)
  }

  /** The pre-order of a stack of trees, each with its depth. */
  function PreorderStack(stack: seq<(Tree, nat)>, maxDepth: nat): seq<nat> {
    if stack == [] then []
    else Preorder(stack[0].0, stack[0].1, maxDepth) + PreorderStack(stack[1..], maxDepth)
  }

  function Roots(stack: seq<(Tree, nat)>): seq<Frame> {
    seq(|stack|, i requires 0 <= i < |stack| => Frame(stack[i].0.id, stack[i].1))
  }

  function Stacked(trees: seq<Tree>, depth: nat): seq<(Tree, nat)> {
    seq(|trees|, i requires 0 <= i < |trees| => (trees[i], depth))
  }

  /** The first match among the first `n`. */
  function FirstMatch(s: seq<nat>, n: nat, test: nat -> bool): Option<nat> {
    if s == [] || n == 0 then None
    else if test(s[0]) then Some(s[0])
    else FirstMatch(s[1..], n - 1, test)
  }

  lemma {:induction false} PreorderStackConcat(trees: seq<Tree>, depth: nat, rest: seq<(Tree, nat)>, maxDepth: nat)
    ensures PreorderStack(Stacked(trees, depth) + rest, maxDepth)
         == PreorderAll(trees, depth, maxDepth) + PreorderStack(rest, maxDepth)
    decreases |trees|
  {
    if trees == [] {
      assert Stacked(trees, depth) + rest == rest;
    } else {
      assert (Stacked(trees, depth) + rest)[1..] == Stacked(trees[1..], depth) + rest;
      PreorderStackConcat(trees[1..], depth, rest, maxDepth);
    }
  }

  /** The stack after its first tree has been taken off and its children put on. */
  function Popped(stack: seq<(Tree, nat)>, maxDepth: nat): seq<(Tree, nat)>
    requires stack != []
  {
    var (t, depth) := stack[0];
    (if depth >= maxDepth then [] else Stacked(t.children, depth + 1)) + stack[1..]
  }

  lemma PreorderUnfolded(t: Tree, depth: nat, maxDepth: nat)
    ensures Preorder(t, depth, maxDepth)
         == [t.id] + if depth >= maxDepth then [] else PreorderAll(t.children, depth + 1, maxDepth)
  {
  }

  lemma PreorderStackUnfolded(stack: seq<(Tree, nat)>, maxDepth: nat)
    requires stack != []
    ensures PreorderStack(stack, maxDepth)
         == Preorder(stack[0].0, stack[0].1, maxDepth) + PreorderStack(stack[1..], maxDepth)
  {
    hide Preorder;
  }

  lemma PoppedUnfolded(stack: seq<(Tree, nat)>, maxDepth: nat)
    requires stack != []
    ensures Popped(stack, maxDepth)
         == (if stack[0].1 >= maxDepth then [] else Stacked(stack[0].0.children, stack[0].1 + 1)) + stack[1..]
  {
    hide Stacked;
  }

  lemma PoppedPreorder(stack: seq<(Tree, nat)>, maxDepth: nat)
    requires stack != []
    ensures PreorderStack(stack, maxDepth) == [stack[0].0.id] + PreorderStack(Popped(stack, maxDepth), maxDepth)
  {
    hide *;
    var t, depth := stack[0].0, stack[0].1;
    PreorderStackUnfolded(stack, maxDepth);
    PreorderUnfolded(t, depth, maxDepth);
    PoppedUnfolded(stack, maxDepth);
    if depth >= maxDepth {
      assert Popped(stack, maxDepth) == stack[1..];
    } else {
      PreorderStackConcat(t.children, depth + 1, stack[1..], maxDepth);
    }
  }

  lemma PoppedRoots(g: Graph, stack: seq<(Tree, nat)>, maxDepth: nat)
    requires stack != [] && Represents(g, stack[0].0)
    ensures var (t, depth) := stack[0];
            && Roots(Popped(stack, maxDepth))
            == (if depth >= maxDepth then [] else AtDepth(Children(g, t.id), depth + 1)) + Roots(stack)[1..]
            && Roots(stack)[0] == Frame(t.id, depth) && Roots(stack)[1..] == Roots(stack[1..])
  {
  }

  lemma PoppedFacts(g: Graph, stack: seq<(Tree, nat)>, maxDepth: nat)
    requires stack != [] && forall i :: 0 <= i < |stack| ==> Represents(g, stack[i].0)
    ensures forall i :: 0 <= i < |Popped(stack, maxDepth)| ==> Represents(g, Popped(stack, maxDepth)[i].0)
  {
    var (t, depth) := stack[0];
    var popped := Popped(stack, maxDepth);
    forall i | 0 <= i < |popped| ensures Represents(g, popped[i].0) {
      if depth < maxDepth && i < |t.children| { assert popped[i].0 in t.children; }
    }
  }

  lemma {:induction false} SearchOnTrees(
    g: Graph, test: nat -> bool, stack: seq<(Tree, nat)>, seen: set<nat>, budget: nat, maxDepth: nat)
    requires forall i :: 0 <= i < |stack| ==> Represents(g, stack[i].0)
    requires Distinct(PreorderStack(stack, maxDepth))
    requires forall n <- PreorderStack(stack, maxDepth) :: n !in seen
    ensures Search(g, test, Roots(stack), seen, budget, maxDepth).0
         == FirstMatch(PreorderStack(stack, maxDepth), budget, test)
    decreases budget
  {
    hide *;
    var all := PreorderStack(stack, maxDepth);
    EmptyStack(stack, maxDepth);
    SearchUnfolded(g, test, Roots(stack), seen, budget, maxDepth);
    FirstMatchUnfolded(all, budget, test);
    if stack != [] && budget > 0 {
      PoppedFacts(g, stack, maxDepth);
      PoppedPreorder(stack, maxDepth);
      PoppedRoots(g, stack, maxDepth);
      var t, popped := stack[0].0, Popped(stack, maxDepth);
      assert all[0] == t.id && all[1..] == PreorderStack(popped, maxDepth) && t.id in all;
      if !test(t.id) {
        DistinctTail(all);
        forall n <- all[1..] ensures n !in seen + {t.id} { assert n in all; }
        SearchOnTrees(g, test, popped, seen + {t.id}, budget - 1, maxDepth);
      }
    }
  }

  lemma EmptyStack(stack: seq<(Tree, nat)>, maxDepth: nat)
    ensures |Roots(stack)| == |stack|
    ensures stack == [] ==> PreorderStack(stack, maxDepth) == []
  {
  }

  lemma FirstMatchUnfolded(s: seq<nat>, n: nat, test: nat -> bool)
    ensures FirstMatch(s, n, test) == if s == [] || n == 0 then None
                                      else if test(s[0]) then Some(s[0]) else FirstMatch(s[1..], n - 1, test)
  {
  }

  lemma DistinctTail(s: seq<nat>)
    requires s != [] && Distinct(s)
    ensures Distinct(s[1..]) && s[0] !in s[1..]
  {
  }

  /**
   On a tree without repeated nodes the search returns the first match among the first
   `maxNodes` nodes of the depth-limited pre-order.
   */
  lemma SearchOnTree(g: Graph, test: nat -> bool, t: Tree, maxNodes: nat, maxDepth: nat)
    requires Represents(g, t) && Distinct(Preorder(t, 0, maxDepth))
    ensures Search(g, test, [Frame(t.id, 0)], {}, maxNodes, maxDepth).0
         == FirstMatch(Preorder(t, 0, maxDepth), maxNodes, test)
  {
    var stack := [(t, 0)];
    assert stack[1..] == [];
    assert PreorderStack(stack, maxDepth) == Preorder(t, 0, maxDepth);
    assert Roots(stack) == [Frame(t.id, 0)];
    SearchOnTrees(g, test, stack, {}, maxNodes, maxDepth);
  }

  /** What the first match means. */
  lemma {:induction false} FirstMatchMeans(s: seq<nat>, n: nat, test: nat -> bool)
    ensures match FirstMatch(s, n, test)
            case None => forall i :: 0 <= i < |s| && i < n ==> !test(s[i])
            case Some(x) => exists k :: 0 <= k < |s| && k < n && s[k] == x && test(x) && forall i :: 0 <= i < k ==> !test(s[i])
    decreases |s|
  {
    if s != [] && n > 0 && !test(s[0]) {
      FirstMatchMeans(s[1..], n - 1, test);
      var r := FirstMatch(s[1..], n - 1, test);
      assert forall i :: 1 <= i < |s| ==> s[i] == s[1..][i - 1];
      if r.Some? {
        var k :| 0 <= k < |s[1..]| && k < n - 1 && s[1..][k] == r.value && forall i :: 0 <= i < k ==> !test(s[1..][i]);
        assert s[k + 1] == r.value;
      }
    }
  }

  // On any graph.

  /** The frames whose nodes are tested. */
  function Visits(
    g: Graph, test: nat -> bool, stack: seq<Frame>, seen: set<nat>, budget: nat, maxDepth: nat): seq<Frame>
    decreases budget, |stack|
  {
    if stack == [] || budget == 0 then []
    else
      var Frame(node, depth) := stack[0];
      if node in seen then Visits(g, test, stack[1..], seen, budget, maxDepth)
      else if test(node) then [stack[0]]
      else
        var pushed := if depth >= maxDepth then [] else AtDepth(Children(g, node), depth + 1);
        [stack[0]] + Visits(g, test, pushed + stack[1..], seen + {node}, budget - 1, maxDepth)
  }

  /** The node was seen before, or is one of those visited. */
  ghost predicate Covered(visits: seq<Frame>, seen: set<nat>, node: nat) {
    node in seen || exists k :: 0 <= k < |visits| && visits[k].node == node
  }

  lemma CoveredCons(head: Frame, rest: seq<Frame>, seen: set<nat>, node: nat)
    ensures Covered([head] + rest, seen, node) <==> Covered(rest, seen + {head.node}, node)
  {
    if Covered(rest, seen + {head.node}, node) && node != head.node && node !in seen {
      var k :| 0 <= k < |rest| && rest[k].node == node;
      assert ([head] + rest)[k + 1].node == node;
    }
    if node == head.node { assert ([head] + rest)[0].node == node; }
  }

  /** Every visited node fails the test, and its children are covered unless it was met at the depth limit. */
  ghost predicate Explored(g: Graph, test: nat -> bool, visits: seq<Frame>, seen: set<nat>, maxDepth: nat) {
    forall k :: 0 <= k < |visits| ==>
      && !test(visits[k].node)
      && (visits[k].depth < maxDepth ==> forall child <- Children(g, visits[k].node) :: Covered(visits, seen, child))
  }

  lemma ExploredCons(g: Graph, test: nat -> bool, head: Frame, rest: seq<Frame>, seen: set<nat>, maxDepth: nat)
    requires !test(head.node) && Explored(g, test, rest, seen + {head.node}, maxDepth)
    requires head.depth < maxDepth ==> forall child <- Children(g, head.node) :: Covered(rest, seen + {head.node}, child)
    ensures Explored(g, test, [head] + rest, seen, maxDepth)
  {
    hide Covered;
    forall node ensures Covered([head] + rest, seen, node) <==> Covered(rest, seen + {head.node}, node) {
      CoveredCons(head, rest, seen, node);
    }
    forall k | 0 <= k < |[head] + rest|
      ensures !test(([head] + rest)[k].node)
      ensures ([head] + rest)[k].depth < maxDepth ==>
        forall child <- Children(g, ([head] + rest)[k].node) :: Covered([head] + rest, seen, child)
    {
      if k > 0 { assert ([head] + rest)[k] == rest[k - 1]; }
    }
  }

  /** When the search ends without a match and with budget left, all that was pushed is covered and explored. */
  lemma {:induction false} SearchExhausts(
    g: Graph, test: nat -> bool, stack: seq<Frame>, seen: set<nat>, budget: nat, maxDepth: nat)
    requires Search(g, test, stack, seen, budget, maxDepth).0.None?
    requires |Search(g, test, stack, seen, budget, maxDepth).1| < budget
    ensures var visits := Visits(g, test, stack, seen, budget, maxDepth);
      && |visits| == |Search(g, test, stack, seen, budget, maxDepth).1|
      && (forall f <- stack :: Covered(visits, seen, f.node))
      && Explored(g, test, visits, seen, maxDepth)
    decreases budget, |stack|
  {
    hide Covered, Explored;
    if stack == [] {
      NothingExplored(g, test, seen, maxDepth);
    } else {
      var head, visits := stack[0], Visits(g, test, stack, seen, budget, maxDepth);
      if head.node in seen {
        SearchExhausts(g, test, stack[1..], seen, budget, maxDepth);
        SeenIsCovered(visits, seen, head.node);
        assert forall f <- stack :: f == head || f in stack[1..];
      } else {
        var pushed := if head.depth >= maxDepth then [] else AtDepth(Children(g, head.node), head.depth + 1);
        SearchExhausts(g, test, pushed + stack[1..], seen + {head.node}, budget - 1, maxDepth);
        var rest := Visits(g, test, pushed + stack[1..], seen + {head.node}, budget - 1, maxDepth);
        forall node ensures Covered([head] + rest, seen, node) <==> Covered(rest, seen + {head.node}, node) {
          CoveredCons(head, rest, seen, node);
        }
        SeenIsCovered(rest, seen + {head.node}, head.node);
        forall f <- stack ensures Covered(visits, seen, f.node) {
          if f != head { assert f in stack[1..] && f in pushed + stack[1..]; }
        }
        if head.depth < maxDepth { PushedAreCovered(g, head, stack[1..], rest, seen + {head.node}); }
        ExploredCons(g, test, head, rest, seen, maxDepth);
      }
    }
  }

  lemma PushedAreCovered(g: Graph, head: Frame, below: seq<Frame>, rest: seq<Frame>, seen: set<nat>)
    requires forall f <- AtDepth(Children(g, head.node), head.depth + 1) + below :: Covered(rest, seen, f.node)
    ensures forall child <- Children(g, head.node) :: Covered(rest, seen, child)
  {
    hide Covered;
    var children := Children(g, head.node);
    var pushed := AtDepth(children, head.depth + 1);
    forall child <- children ensures Covered(rest, seen, child) {
      var i :| 0 <= i < |children| && children[i] == child;
      assert pushed[i] in pushed + below && pushed[i].node == child;
    }
  }

  lemma NothingExplored(g: Graph, test: nat -> bool, seen: set<nat>, maxDepth: nat)
    ensures Explored(g, test, [], seen, maxDepth)
  {
  }

  lemma SeenIsCovered(visits: seq<Frame>, seen: set<nat>, node: nat)
    requires node in seen
    ensures Covered(visits, seen, node)
  {
  }

  predicate IsPath(g: Graph, path: seq<nat>) {
    path != [] && forall i :: 0 < i < |path| ==> path[i] in Children(g, path[i - 1])
  }

  lemma {:induction false} PathIsCovered(g: Graph, test: nat -> bool, visits: seq<Frame>, maxDepth: nat, path: seq<nat>)
    requires Explored(g, test, visits, {}, maxDepth) && IsPath(g, path) && Covered(visits, {}, path[0])
    requires forall k :: 0 <= k < |visits| && visits[k].depth >= maxDepth ==> Children(g, visits[k].node) == []
    ensures Covered(visits, {}, path[|path| - 1])
    decreases |path|
  {
    if |path| > 1 {
      var k :| 0 <= k < |visits| && visits[k].node == path[0];
      assert path[1] in Children(g, path[0]);
      assert forall i :: 0 < i < |path[1..]| ==> path[1..][i] == path[i + 1] && path[1..][i - 1] == path[i];
      PathIsCovered(g, test, visits, maxDepth, path[1..]);
    }
  }

  /**
   On any graph: when the search finds nothing and has budget left, and no node with children was met at
   the depth limit, then no node that can be reached from the root matches.
   */
  lemma NothingReachableMatches(g: Graph, test: nat -> bool, root: nat, maxNodes: nat, maxDepth: nat, path: seq<nat>)
    requires Search(g, test, [Frame(root, 0)], {}, maxNodes, maxDepth).0.None?
    requires |Search(g, test, [Frame(root, 0)], {}, maxNodes, maxDepth).1| < maxNodes
    requires forall f <- Visits(g, test, [Frame(root, 0)], {}, maxNodes, maxDepth) :: f.depth >= maxDepth ==> Children(g, f.node) == []
    requires IsPath(g, path) && path[0] == root
    ensures !test(path[|path| - 1])
  {
    var visits := Visits(g, test, [Frame(root, 0)], {}, maxNodes, maxDepth);
    SearchExhausts(g, test, [Frame(root, 0)], {}, maxNodes, maxDepth);
    assert Frame(root, 0) in [Frame(root, 0)];
    hide Search, Visits;
    PathIsCovered(g, test, visits, maxDepth, path);
  }

  predicate IsThree(node: nat) {
    node == 3
  }

  const DIAMOND: Graph := map[0 := [1, 2], 1 := [2], 2 := [3]]

  lemma DiamondChildren()
    ensures Children(DIAMOND, 0) == [1, 2] && Children(DIAMOND, 1) == [2] && Children(DIAMOND, 2) == [3]
    ensures AtDepth([1, 2], 1) == [Frame(1, 1), Frame(2, 1)] && AtDepth([2], 2) == [Frame(2, 2)]
  {
  }

  /** The depth limit can hide a match that lies within it: a node met first at the limit is not expanded later. */
  lemma LimitCanHideMatch()
    ensures IsPath(DIAMOND, [0, 2, 3]) && IsThree(3)
    ensures Search(DIAMOND, IsThree, [Frame(0, 0)], {}, 10, 2).0.None?
  {
    DiamondChildren();
    hide Search, AtDepth, Children, DIAMOND;
    var a, b, c, d := Frame(1, 1), Frame(2, 1), Frame(2, 2), Frame(0, 0);
    assert [a, b] + [d][1..] == [a, b];
    assert [c] + [a, b][1..] == [c, b];
    assert [] + [c, b][1..] == [b] && [b][1..] == [];
    SearchUnfolded(DIAMOND, IsThree, [d], {}, 10, 2);
    SearchUnfolded(DIAMOND, IsThree, [a, b], {} + {0}, 9, 2);
    SearchUnfolded(DIAMOND, IsThree, [c, b], {} + {0} + {1}, 8, 2);
    SearchUnfolded(DIAMOND, IsThree, [b], {} + {0} + {1} + {2}, 7, 2);
    SearchUnfolded(DIAMOND, IsThree, [], {} + {0} + {1} + {2}, 7, 2);
  }
}
