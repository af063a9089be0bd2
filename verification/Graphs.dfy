/**
 Directed graphs as adjacency lists, their walks and cycles. Both the dependency check of computed
 fields and the session graph reject cycles; the first searches a finished graph, the second adds
 one edge at a time, and for it a new edge closes a cycle exactly when its target already leads back
 to its source.
 */
module Graphs {

  type Graph = seq<seq<nat>>

  predicate EdgesInRange(edges: Graph, i: nat) {
    i < |edges| ==> forall k :: 0 <= k < |edges[i]| ==> edges[i][k] < |edges|
  }

  ghost predicate GraphOk(edges: Graph) {
    forall i: nat :: EdgesInRange(edges, i)
  }

  predicate Edge(edges: Graph, a: nat, b: nat) {
    a < |edges| && b in edges[a]
  }

  /** A walk along edges. */
  ghost predicate IsWalk(edges: Graph, walk: seq<nat>) {
    |walk| > 0 && forall k :: 0 <= k < |walk| - 1 ==> Edge(edges, walk[k], walk[k + 1])
  }

  ghost predicate HasCycle(edges: Graph) {
    exists walk :: IsWalk(edges, walk) && |walk| > 1 && walk[0] == walk[|walk| - 1]
  }

  lemma {:induction false} ExtendWalk(edges: Graph, walk: seq<nat>, next: nat)
    requires IsWalk(edges, walk) && Edge(edges, walk[|walk| - 1], next)
    ensures IsWalk(edges, walk + [next])
  {
    var longer := walk + [next];
    forall k | 0 <= k < |longer| - 1 ensures Edge(edges, longer[k], longer[k + 1]) {
      assert k < |walk| - 1 ==> Edge(edges, walk[k], walk[k + 1]);
    }
  }

  /** There is a walk from `a` to `b`. */
  ghost predicate Leads(edges: Graph, a: nat, b: nat) {
    exists walk :: IsWalk(edges, walk) && walk[0] == a && walk[|walk| - 1] == b
  }

  lemma {:induction false} LeadsToSelf(edges: Graph, a: nat)
    ensures Leads(edges, a, a)
  {
    assert IsWalk(edges, [a]) && [a][0] == a;
  }

  lemma {:induction false} LeadsOneMore(edges: Graph, a: nat, b: nat, c: nat)
    requires Leads(edges, a, b) && Edge(edges, b, c)
    ensures Leads(edges, a, c)
  {
    var walk :| IsWalk(edges, walk) && walk[0] == a && walk[|walk| - 1] == b;
    ExtendWalk(edges, walk, c);
    assert (walk + [c])[0] == a && (walk + [c])[|walk + [c]| - 1] == c;
  }

  lemma {:induction false} PrefixWalk(edges: Graph, walk: seq<nat>, n: nat)
    requires IsWalk(edges, walk) && 0 < n <= |walk|
    ensures IsWalk(edges, walk[..n])
  {
    forall k | 0 <= k < n - 1 ensures Edge(edges, walk[..n][k], walk[..n][k + 1]) {
      assert Edge(edges, walk[k], walk[k + 1]);
    }
  }

  lemma {:induction false} SuffixWalk(edges: Graph, walk: seq<nat>, n: nat)
    requires IsWalk(edges, walk) && n < |walk|
    ensures IsWalk(edges, walk[n..])
  {
    forall k | 0 <= k < |walk[n..]| - 1 ensures Edge(edges, walk[n..][k], walk[n..][k + 1]) {
      assert Edge(edges, walk[n + k], walk[n + k + 1]);
    }
  }

  lemma {:induction false} WalkLeads(edges: Graph, a: nat, b: nat, walk: seq<nat>)
    requires Leads(edges, a, b) && IsWalk(edges, walk) && walk[0] == b
    ensures Leads(edges, a, walk[|walk| - 1])
    decreases |walk|
  {
    if |walk| > 1 {
      var front := walk[..|walk| - 1];
      PrefixWalk(edges, walk, |walk| - 1);
      WalkLeads(edges, a, b, front);
      assert Edge(edges, walk[|walk| - 2], walk[|walk| - 1]);
      LeadsOneMore(edges, a, front[|front| - 1], walk[|walk| - 1]);
    }
  }

  lemma {:induction false} LeadsTransitive(edges: Graph, a: nat, b: nat, c: nat)
    requires Leads(edges, a, b) && Leads(edges, b, c)
    ensures Leads(edges, a, c)
  {
    var walk :| IsWalk(edges, walk) && walk[0] == b && walk[|walk| - 1] == c;
    WalkLeads(edges, a, b, walk);
  }

  /** A set that contains the start of a walk and is closed under edges contains its end. */
  lemma {:induction false} ClosedUnderWalks(edges: Graph, closed: set<nat>, walk: seq<nat>)
    requires IsWalk(edges, walk) && walk[0] in closed
    requires forall v, w :: v in closed && Edge(edges, v, w) ==> w in closed
    ensures walk[|walk| - 1] in closed
    decreases |walk|
  {
    if |walk| > 1 {
      PrefixWalk(edges, walk, |walk| - 1);
      ClosedUnderWalks(edges, closed, walk[..|walk| - 1]);
      assert Edge(edges, walk[|walk| - 2], walk[|walk| - 1]);
    }
  }

  // ----- adding an edge -----

  function WithEdge(edges: Graph, source: nat, target: nat): Graph
    requires source < |edges|
  {
    edges[source := edges[source] + [target]]
  }

  lemma {:induction false} NewEdge(edges: Graph, source: nat, target: nat, a: nat, b: nat)
    requires source < |edges|
    ensures Edge(WithEdge(edges, source, target), a, b) <==> Edge(edges, a, b) || (a == source && b == target)
  {
  }

  /** A walk that uses the new edge goes to its source and from its target along old edges. */
  lemma {:induction false} SplitWalk(edges: Graph, source: nat, target: nat, walk: seq<nat>)
    requires source < |edges| && IsWalk(WithEdge(edges, source, target), walk)
    ensures IsWalk(edges, walk)
         || (Leads(edges, walk[0], source) && Leads(edges, target, walk[|walk| - 1]))
    decreases |walk|
  {
    if |walk| > 1 {
      var more := WithEdge(edges, source, target);
      var front, last := walk[..|walk| - 1], walk[|walk| - 1];
      PrefixWalk(more, walk, |walk| - 1);
      SplitWalk(edges, source, target, front);
      assert Edge(more, walk[|walk| - 2], walk[|walk| - 1]);
      assert walk == front + [last] && front[|front| - 1] == walk[|walk| - 2];
      NewEdge(edges, source, target, front[|front| - 1], last);
      if Edge(edges, front[|front| - 1], last) {
        if IsWalk(edges, front) {
          ExtendWalk(edges, front, last);
        } else {
          LeadsOneMore(edges, target, front[|front| - 1], last);
        }
      } else {
        LeadsToSelf(edges, target);
        assert IsWalk(edges, front) ==> Leads(edges, walk[0], source);
      }
    }
  }

  /** Adding an edge whose target does not lead back to its source creates no cycle. */
  lemma {:induction false} StaysAcyclic(edges: Graph, source: nat, target: nat)
    requires source < |edges| && !HasCycle(edges) && !Leads(edges, target, source)
    ensures !HasCycle(WithEdge(edges, source, target))
  {
    var more := WithEdge(edges, source, target);
    if HasCycle(more) {
      var walk :| IsWalk(more, walk) && |walk| > 1 && walk[0] == walk[|walk| - 1];
      SplitWalk(edges, source, target, walk);
      if !IsWalk(edges, walk) {
        LeadsTransitive(edges, target, walk[0], source);
      }
      assert false;
    }
  }

  /** Adding an edge whose target leads back to its source closes a cycle. */
  lemma {:induction false} ClosesCycle(edges: Graph, source: nat, target: nat)
    requires source < |edges| && Leads(edges, target, source)
    ensures HasCycle(WithEdge(edges, source, target))
  {
    var more := WithEdge(edges, source, target);
    var walk :| IsWalk(edges, walk) && walk[0] == target && walk[|walk| - 1] == source;
    forall k | 0 <= k < |walk| - 1 ensures Edge(more, walk[k], walk[k + 1]) {
      assert Edge(edges, walk[k], walk[k + 1]);
      NewEdge(edges, source, target, walk[k], walk[k + 1]);
    }
    NewEdge(edges, source, target, source, target);
    ExtendWalk(more, walk, target);
    var cycle := walk + [target];
    assert IsWalk(more, cycle) && |cycle| > 1 && cycle[0] == cycle[|cycle| - 1];
  }
}
