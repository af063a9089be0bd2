/**
 The depth-first searches that collect the computed fields of a block and reject cyclic
 dependencies between them.
 */
module DependencyCheck {
  import opened Wrappers
  import opened Graphs
  import opened Model
  import opened Rendering
  import opened Dependencies

  // ----- three-colour search -----

  const UNSEEN := 0
  const OPEN := 1
  const DONE := 2

  ghost predicate HasLongWalk(edges: Graph) {
    exists walk :: IsWalk(edges, walk) && |walk| > 257
  }

  /** Every edge lowers the rank. */
  ghost predicate Lowers(edges: Graph, rank: seq<nat>, a: nat, b: nat) {
    a < |rank| && b < |rank| && Edge(edges, a, b) ==> rank[b] < rank[a]
  }

  ghost predicate IsRank(edges: Graph, rank: seq<nat>) {
    |rank| == |edges| && forall a: nat, b: nat :: Lowers(edges, rank, a, b)
  }

  /** A rank excludes cycles. */
  lemma {:induction false} RankExcludesCycles(edges: Graph, rank: seq<nat>)
    requires GraphOk(edges) && IsRank(edges, rank)
    ensures !HasCycle(edges)
  {
    if HasCycle(edges) {
      var walk :| IsWalk(edges, walk) && |walk| > 1 && walk[0] == walk[|walk| - 1];
      WalkDescends(edges, rank, walk, |walk| - 1);
      assert false;
    }
  }

  lemma {:induction false} WalkDescends(edges: Graph, rank: seq<nat>, walk: seq<nat>, k: nat)
    requires GraphOk(edges) && IsRank(edges, rank)
    requires IsWalk(edges, walk) && 0 < k < |walk|
    ensures walk[0] < |edges| && walk[k] < |edges| && rank[walk[k]] < rank[walk[0]]
    decreases k
  {
    assert Edge(edges, walk[k - 1], walk[k]) && EdgesInRange(edges, walk[k - 1]);
    assert Lowers(edges, rank, walk[k - 1], walk[k]);
    if k > 1 {
      WalkDescends(edges, rank, walk, k - 1);
    }
  }

  /** Finished nodes in finishing order: each only points at nodes finished before it. */
  predicate FinishedAfterTargets(edges: Graph, finished: seq<nat>, k: nat) {
    k < |finished| && finished[k] < |edges| ==> forall b <- edges[finished[k]] :: b in finished[..k]
  }

  ghost predicate Finished(edges: Graph, states: seq<int>, finished: seq<nat>) {
    && |states| == |edges|
    && (forall v: nat :: v < |states| ==> (states[v] == DONE <==> v in finished))
    && (forall k :: 0 <= k < |finished| ==> finished[k] < |edges|)
    && (forall j, k :: 0 <= j < k < |finished| ==> finished[j] != finished[k])
    && (forall k: nat :: FinishedAfterTargets(edges, finished, k))
  }

  /** The nodes being visited form a walk that ends in an edge to the next node. */
  ghost predicate Trail(edges: Graph, states: seq<int>, trail: seq<nat>, next: nat) {
    && |states| == |edges|
    && (forall v: nat :: v < |states| ==> (states[v] == OPEN <==> v in trail))
    && IsWalk(edges, trail + [next])
  }

  /**
   Visit a node. Success finishes it and everything it points at; a rejection is backed by a real
   cycle or by a walk that is too long.
   */
  method VisitDependencies(index: nat, edges: Graph, states: array<int>, depth: nat,
                           ghost finished: seq<nat>, ghost trail: seq<nat>)
    returns (r: Result<()>, ghost after: seq<nat>)
    requires GraphOk(edges) && index < |edges|
    requires Finished(edges, states[..], finished) && Trail(edges, states[..], trail, index) && depth == |trail|
    requires forall v <- trail :: v < |edges|
    modifies states
    ensures r.Ok? ==>
      && Finished(edges, states[..], after) && finished <= after && index in after
      && (forall v: nat :: v < |edges| ==> (states[v] == OPEN <==> v in trail))
    ensures r.Err? ==>
      || (r.error == Invalid(DependencyCycle) && HasCycle(edges))
      || (r.error == Invalid(DependencyDepth) && HasLongWalk(edges))
    decreases 257 - depth, 1
  {
    after := finished;
    if depth > 256 {
      assert |trail + [index]| > 257;
      return Err(Invalid(DependencyDepth)), after;
    }
    if states[index] == DONE {
      return Ok(()), after;
    }
    if states[index] == OPEN {
      ClosingWalk(edges, trail, index);
      return Err(Invalid(DependencyCycle)), after;
    }
    states[index] := OPEN;
    ghost var longer := trail + [index];
    for k := 0 to |edges[index]|
      invariant Finished(edges, states[..], after) && finished <= after && index !in after
      invariant forall v: nat :: v < |edges| ==> (states[v] == OPEN <==> v in longer)
      invariant forall n :: 0 <= n < k ==> edges[index][n] in after
    {
      assert EdgesInRange(edges, index);
      ExtendWalk(edges, longer, edges[index][k]);
      ghost var before := after;
      r, after := VisitDependencies(edges[index][k], edges, states, depth + 1, after, longer);
      if r.Err? {
        return;
      }
      assert states[index] == OPEN;
    }
    states[index] := DONE;
    FinishOne(edges, after, index);
    after := after + [index];
    return Ok(()), after;
  }

  lemma {:induction false} ClosingWalk(edges: Graph, trail: seq<nat>, index: nat)
    requires IsWalk(edges, trail + [index]) && index in trail
    ensures HasCycle(edges)
  {
    var k :| 0 <= k < |trail| && trail[k] == index;
    var all := trail + [index];
    var walk := all[k..];
    forall n | 0 <= n < |walk| - 1 ensures Edge(edges, walk[n], walk[n + 1]) {
      assert Edge(edges, all[k + n], all[k + n + 1]);
    }
    assert IsWalk(edges, walk) && |walk| > 1 && walk[0] == walk[|walk| - 1];
  }

  lemma {:induction false} FinishOne(edges: Graph, finished: seq<nat>, index: nat)
    requires index < |edges| && forall k: nat :: FinishedAfterTargets(edges, finished, k)
    requires forall n :: 0 <= n < |edges[index]| ==> edges[index][n] in finished
    ensures forall k: nat :: FinishedAfterTargets(edges, finished + [index], k)
  {
    var all := finished + [index];
    forall k: nat ensures FinishedAfterTargets(edges, all, k) {
      assert FinishedAfterTargets(edges, finished, k);
      if k < |finished| {
        assert all[..k] == finished[..k];
      } else if k == |finished| {
        assert all[..k] == finished;
      }
    }
  }

  ghost function Position(finished: seq<nat>, v: nat): nat
    requires v in finished
  {
    var k :| 0 <= k < |finished| && finished[k] == v;
    k
  }

  /** Finishing order is a rank. */
  lemma {:induction false} FinishingOrderIsRank(edges: Graph, finished: seq<nat>) returns (rank: seq<nat>)
    requires forall v: nat :: v < |edges| ==> v in finished
    requires forall j, k :: 0 <= j < k < |finished| ==> finished[j] != finished[k]
    requires forall k: nat :: FinishedAfterTargets(edges, finished, k)
    ensures IsRank(edges, rank)
  {
    rank := seq(|edges|, v requires 0 <= v < |edges| => Position(finished, v));
    forall a: nat, b: nat ensures Lowers(edges, rank, a, b) {
      if a < |rank| && b < |rank| && Edge(edges, a, b) {
        assert FinishedAfterTargets(edges, finished, rank[a]);
        var k :| 0 <= k < rank[a] && finished[..rank[a]][k] == b;
        assert finished[k] == finished[rank[b]];
      }
    }
  }

  /** Search every node: success means the edges have a rank, a rejection is backed by a witness. */
  method RejectCycles(edges: Graph) returns (r: Result<()>)
    requires GraphOk(edges)
    ensures r.Ok? ==> exists rank :: IsRank(edges, rank)
    ensures r.Ok? ==> !HasCycle(edges)
    ensures r.Err? ==>
      || (r.error == Invalid(DependencyCycle) && HasCycle(edges))
      || (r.error == Invalid(DependencyDepth) && HasLongWalk(edges))
  {
    var states := new int[|edges|](_ => UNSEEN);
    ghost var finished: seq<nat> := [];
    for i := 0 to |edges|
      invariant Finished(edges, states[..], finished)
      invariant forall v: nat :: v < |edges| ==> states[v] != OPEN
      invariant forall v: nat :: v < i ==> v in finished
    {
      assert [] + [i] == [i];
      r, finished := VisitDependencies(i, edges, states, 0, finished, []);
      if r.Err? {
        return;
      }
    }
    ghost var rank := FinishingOrderIsRank(edges, finished);
    RankExcludesCycles(edges, rank);
    return Ok(());
  }

  // ----- collecting the computed fields of a block -----

  /** Every repetition's target is a path of the table. */
  ghost predicate RepeatsResolve(request: CompiledRequest) {
    forall i: nat :: RepeatResolves(request, i)
  }

  predicate RepeatResolves(request: CompiledRequest, i: nat) {
    i < |request.entries| && request.entries[i].kind.Repetition? ==> request.entries[i].kind.target in request.paths
  }

  /** Visited entries at or below a rank have all their fields collected. */
  ghost predicate CollectedAt(request: CompiledRequest, derived: Derived, visited: seq<bool>, output: seq<nat>,
                              bound: nat, v: nat)
    requires Structured(request)
  {
    v < |visited| && v < |request.entries| && visited[v] && StructuralRank(request)[v] <= bound ==>
      forall d: nat :: Reaches(request, derived, v, d) ==> d in output
  }

  ghost predicate Collected(
      request: CompiledRequest, derived: Derived, visited: seq<bool>, output: seq<nat>, bound: nat)
    requires Structured(request)
  {
    forall v: nat :: CollectedAt(request, derived, visited, output, bound, v)
  }

  ghost predicate OnlyReached(
      request: CompiledRequest, derived: Derived, index: nat, before: seq<nat>, output: seq<nat>)
    requires Structured(request) && index < |request.entries|
  {
    forall d: nat :: d in output ==> d in before || Reaches(request, derived, index, d)
  }

  /** Collect the fields an entry contains, each visited entry once. */
  method CollectDependencies(
      request: CompiledRequest, derived: Derived, index: nat, output: seq<nat>, visited: array<bool>)
    returns (found: seq<nat>)
    requires Structured(request) && RepeatsResolve(request)
    requires index < |request.entries| && visited.Length == |request.entries|
    requires Collected(request, derived, visited[..], output, StructuralRank(request)[index])
    modifies visited
    ensures
      && output <= found
      && OnlyReached(request, derived, index, output, found)
      && (forall d: nat :: Reaches(request, derived, index, d) ==> d in found)
      && Collected(request, derived, visited[..], found, StructuralRank(request)[index])
      && (forall v :: 0 <= v < visited.Length && visited[v] ==>
            old(visited[v]) || StructuralRank(request)[v] <= StructuralRank(request)[index])
    decreases StructuralRank(request)[index], 1
  {
    ghost var rank := StructuralRank(request);
    if visited[index] {
      assert CollectedAt(request, derived, visited[..], output, rank[index], index);
      return output;
    }
    visited[index] := true;
    if Wanted(request, derived, index) {
      FieldCollected(request, derived, old(visited[..]), visited[..], index, output);
      return output + [index];
    }
    match request.entries[index].kind
    case Container(_) => found := CollectChildren(request, derived, index, output, visited, old(visited[..]));
    case Repetition(path, _, _, _, _) =>
      assert RepeatResolves(request, index);
      var target := request.paths[path];
      assert Descends(request, rank, index, target);
      Lower(request, derived, old(visited[..]), visited[..], index, rank[target], output);
      found := CollectDependencies(request, derived, target, output, visited);
      Raise(request, derived, old(visited[..]), visited[..], index, rank[target], output, found);
    case _ =>
      forall v: nat ensures CollectedAt(request, derived, visited[..], output, rank[index], v) {
        assert CollectedAt(request, derived, old(visited[..]), output, rank[index], v);
      }
      return output;
  }

  method CollectChildren(request: CompiledRequest, derived: Derived, index: nat, output: seq<nat>, visited: array<bool>,
                         ghost before: seq<bool>)
    returns (found: seq<nat>)
    requires Structured(request) && RepeatsResolve(request) && index < |request.entries|
    requires visited.Length == |request.entries| == |before| && visited[..] == before[index := true]
    requires request.entries[index].kind.Container? && !Wanted(request, derived, index)
    requires Collected(request, derived, before, output, StructuralRank(request)[index])
    modifies visited
    ensures
      && output <= found
      && OnlyReached(request, derived, index, output, found)
      && (forall d: nat :: Reaches(request, derived, index, d) ==> d in found)
      && Collected(request, derived, visited[..], found, StructuralRank(request)[index])
      && (forall v :: 0 <= v < visited.Length && visited[v] ==>
            before[v] || StructuralRank(request)[v] <= StructuralRank(request)[index])
    decreases StructuralRank(request)[index], 0
  {
    ghost var rank := StructuralRank(request);
    var children, out := request.entries[index].kind.children, output;
    assert EntryOk(request, index);
    if rank[index] > 0 {
      Lower(request, derived, before, visited[..], index, rank[index] - 1, output);
    }
    for k := 0 to |children|
      invariant output <= out && OnlyReached(request, derived, index, output, out)
      invariant forall n :: 0 <= n < k ==> ChildCollected(request, derived, children[n], out)
      invariant rank[index] > 0 ==> Collected(request, derived, visited[..], out, rank[index] - 1)
      invariant forall v :: 0 <= v < visited.Length && visited[v] ==> before[v] || v == index || rank[v] < rank[index]
    {
      var child := children[k];
      assert Descends(request, rank, index, child);
      Weaken(request, derived, visited[..], out, rank[index] - 1, rank[child]);
      ghost var was, had := visited[..], out;
      out := CollectDependencies(request, derived, child, out, visited);
      Combine(request, derived, was, visited[..], rank[index] - 1, rank[child], had, out);
      ChildReached(request, derived, index, k, output, had, out);
    }
    ContainerCollected(request, derived, index, out);
    Raise(request, derived, before, visited[..], index, if rank[index] > 0 then rank[index] - 1 else 0, output, out);
    return out;
  }

  ghost predicate ChildCollected(request: CompiledRequest, derived: Derived, child: nat, output: seq<nat>)
    requires Structured(request)
  {
    child < |request.entries| && forall d: nat :: Reaches(request, derived, child, d) ==> d in output
  }

  lemma {:induction false} ChildReached(
      request: CompiledRequest, derived: Derived, index: nat, k: nat, output: seq<nat>, had: seq<nat>, out: seq<nat>)
    requires Structured(request) && index < |request.entries|
    requires request.entries[index].kind.Container? && k < |request.entries[index].kind.children|
    requires request.entries[index].kind.children[k] < |request.entries|
    requires OnlyReached(request, derived, index, output, had)
    requires OnlyReached(request, derived, request.entries[index].kind.children[k], had, out)
    ensures OnlyReached(request, derived, index, output, out)
  {
    forall d: nat | d in out ensures d in output || Reaches(request, derived, index, d) {
      if d !in had {
        assert Reaches(request, derived, request.entries[index].kind.children[k], d);
      }
    }
  }

  lemma {:induction false} ContainerCollected(request: CompiledRequest, derived: Derived, index: nat, out: seq<nat>)
    requires Structured(request) && index < |request.entries| && !Wanted(request, derived, index)
    requires request.entries[index].kind.Container?
    requires forall n :: 0 <= n < |request.entries[index].kind.children| ==>
      ChildCollected(request, derived, request.entries[index].kind.children[n], out)
    ensures forall d: nat :: Reaches(request, derived, index, d) ==> d in out
  {
  }

  /** A bound can be lowered. */
  lemma {:induction false} Weaken(
      request: CompiledRequest, derived: Derived, visited: seq<bool>, output: seq<nat>, high: nat, low: nat)
    requires Structured(request) && low <= high
    requires Collected(request, derived, visited, output, high)
    ensures Collected(request, derived, visited, output, low)
  {
    forall v: nat ensures CollectedAt(request, derived, visited, output, low, v) {
      assert CollectedAt(request, derived, visited, output, high, v);
    }
  }

  /** Entries visited below a lower bound join those collected up to a higher one. */
  lemma {:induction false} Combine(
      request: CompiledRequest, derived: Derived, before: seq<bool>, now: seq<bool>, high: nat, low: nat,
                output: seq<nat>, grown: seq<nat>)
    requires Structured(request) && |before| == |now| == |request.entries|
    requires output <= grown
    requires Collected(request, derived, before, output, high) && Collected(request, derived, now, grown, low)
    requires forall v :: 0 <= v < |now| && now[v] ==> before[v] || StructuralRank(request)[v] <= low
    ensures Collected(request, derived, now, grown, high)
  {
    forall v: nat ensures CollectedAt(request, derived, now, grown, high, v) {
      assert CollectedAt(request, derived, before, output, high, v);
      assert CollectedAt(request, derived, now, grown, low, v);
    }
  }

  /** Marking a computed field and listing it collects it. */
  lemma {:induction false} FieldCollected(
      request: CompiledRequest, derived: Derived, before: seq<bool>, now: seq<bool>, index: nat, output: seq<nat>)
    requires Structured(request) && index < |request.entries| && |before| == |request.entries|
    requires Wanted(request, derived, index) && now == before[index := true]
    requires Collected(request, derived, before, output, StructuralRank(request)[index])
    ensures Collected(request, derived, now, output + [index], StructuralRank(request)[index])
  {
    forall v: nat ensures CollectedAt(request, derived, now, output + [index], StructuralRank(request)[index], v) {
      assert CollectedAt(request, derived, before, output, StructuralRank(request)[index], v);
    }
  }

  /** What was collected at a rank stays collected at a lower one, with `index` marked above it. */
  lemma {:induction false} Lower(
      request: CompiledRequest, derived: Derived, before: seq<bool>, now: seq<bool>, index: nat, low: nat,
      output: seq<nat>)
    requires Structured(request) && index < |request.entries| && |before| == |request.entries|
    requires now == before[index := true]
    requires low < StructuralRank(request)[index]
    requires Collected(request, derived, before, output, StructuralRank(request)[index])
    ensures Collected(request, derived, now, output, low)
  {
    forall v: nat ensures CollectedAt(request, derived, now, output, low, v) {
      assert CollectedAt(request, derived, before, output, StructuralRank(request)[index], v);
    }
  }

  /** Once `index` itself is collected, everything visited up to its rank is. */
  lemma {:induction false} Raise(
      request: CompiledRequest, derived: Derived, before: seq<bool>, now: seq<bool>, index: nat, low: nat,
              output: seq<nat>, grown: seq<nat>)
    requires Structured(request) && index < |request.entries| && |before| == |now| == |request.entries|
    requires output <= grown
    requires Collected(request, derived, before, output, StructuralRank(request)[index])
    requires StructuralRank(request)[index] > 0 ==> Collected(request, derived, now, grown, low)
    requires forall v :: 0 <= v < |now| && now[v] ==>
      before[v] || v == index || (StructuralRank(request)[index] > 0 && StructuralRank(request)[v] <= low)
    requires forall d: nat :: Reaches(request, derived, index, d) ==> d in grown
    ensures Collected(request, derived, now, grown, StructuralRank(request)[index])
  {
    forall v: nat ensures CollectedAt(request, derived, now, grown, StructuralRank(request)[index], v) {
      assert CollectedAt(request, derived, before, output, StructuralRank(request)[index], v);
      assert StructuralRank(request)[index] > 0 ==> CollectedAt(request, derived, now, grown, low, v);
    }
  }
}
