// Finite directed graphs over named nodes: walks, cycles, and the two ways
// of recognising that a graph has none.
module Digraph {

  /** The predecessors of each node. */
  type Graph = map<string, set<string>>

  /** x comes directly before y. */
  predicate Edge(graph: Graph, x: string, y: string) {
    y in graph && x in graph[y]
  }

  ghost predicate Walk(graph: Graph, path: seq<string>) {
    forall i, j :: 0 <= i && j == i + 1 && j < |path| ==> Edge(graph, path[i], path[j])
  }

  ghost predicate Cyclic(graph: Graph) {
    exists path: seq<string> :: |path| >= 2 && Walk(graph, path) && path[0] == path[|path| - 1]
  }

  /** Every node of `stuck` has a predecessor inside it. */
  ghost predicate Stuck(graph: Graph, stuck: set<string>) {
    stuck != {} && forall y {:trigger Fed(graph, stuck, y)} :: y in stuck ==> Fed(graph, stuck, y)
  }

  ghost predicate Fed(graph: Graph, nodes: set<string>, y: string) {
    exists x :: x in nodes && Edge(graph, x, y)
  }

  /** number grows along every edge. */
  ghost predicate Numbered(graph: Graph, number: string -> int) {
    forall x, y :: Edge(graph, x, y) ==> number(x) < number(y)
  }

  lemma {:induction false} NumberingGrows(graph: Graph, number: string -> int, path: seq<string>, last: nat)
    requires Numbered(graph, number)
    requires Walk(graph, path) && 1 <= last < |path|
    ensures number(path[0]) < number(path[last])
  {
    assert Edge(graph, path[last - 1], path[last]);
    if last > 1 {
      NumberingGrows(graph, number, path, last - 1);
    }
  }

  /** A numbering that grows along every edge rules out cycles. */
  lemma NumberedIsAcyclic(graph: Graph, number: string -> int)
    requires Numbered(graph, number)
    ensures !Cyclic(graph)
  {
    if Cyclic(graph) {
      var path: seq<string> :| |path| >= 2 && Walk(graph, path) && path[0] == path[|path| - 1];
      NumberingGrows(graph, number, path, |path| - 1);
    }
  }

  /** Walking backwards inside a stuck set never has to stop. */
  lemma {:induction false} BackwardWalk(graph: Graph, stuck: set<string>, length: nat) returns (path: seq<string>)
    requires Stuck(graph, stuck)
    ensures |path| == length + 1 && Walk(graph, path)
    ensures forall i :: 0 <= i < |path| ==> path[i] in stuck
  {
    if length == 0 {
      var x :| x in stuck;
      path := [x];
    } else {
      var rest := BackwardWalk(graph, stuck, length - 1);
      assert rest[0] in stuck && Fed(graph, stuck, rest[0]);
      var x :| x in stuck && Edge(graph, x, rest[0]);
      path := [x] + rest;
      forall i, j | 0 <= i && j == i + 1 && j < |path| ensures Edge(graph, path[i], path[j]) {
        assert path[j] == rest[i];
        if i > 0 {
          assert path[i] == rest[i - 1];
        }
      }
    }
  }

  /** More positions than values: two positions share one. */
  lemma {:induction false} Pigeonhole(path: seq<string>, nodes: set<string>) returns (i: nat, j: nat)
    requires |path| > |nodes|
    requires forall k :: 0 <= k < |path| ==> path[k] in nodes
    ensures i < j < |path| && path[i] == path[j]
    decreases |path|
  {
    var x := path[0];
    if k :| 1 <= k < |path| && path[k] == x {
      i, j := 0, k;
    } else {
      var i', j' := Pigeonhole(path[1..], nodes - {x});
      i, j := i' + 1, j' + 1;
    }
  }

  /** A part of a walk is a walk. */
  lemma PartOfWalk(graph: Graph, path: seq<string>, part: seq<string>, i: nat)
    requires Walk(graph, path) && i + |part| <= |path| && forall k :: 0 <= k < |part| ==> part[k] == path[i + k]
    ensures Walk(graph, part)
  {
    forall k, l | 0 <= k && l == k + 1 && l < |part| ensures Edge(graph, part[k], part[l]) {
      assert part[k] == path[i + k] && part[l] == path[i + l];
    }
  }

  /** A walk that comes back to a node contains a cycle. */
  lemma LoopIsCyclic(graph: Graph, path: seq<string>, i: nat, j: nat)
    requires Walk(graph, path) && i < j < |path| && path[i] == path[j]
    ensures Cyclic(graph)
  {
    var loop := path[i..j + 1];
    PartOfWalk(graph, path, loop, i);
    assert |loop| >= 2 && loop[0] == loop[|loop| - 1];
  }

  lemma StuckIsCyclic(graph: Graph, stuck: set<string>)
    requires Stuck(graph, stuck)
    ensures Cyclic(graph)
  {
    var path := BackwardWalk(graph, stuck, |stuck|);
    var i, j := Pigeonhole(path, stuck);
    LoopIsCyclic(graph, path, i, j);
  }
}
