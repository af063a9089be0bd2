/** The session graph: requests connected without cycles, and the enumeration of its paths. */
module SessionGraphs {
  import opened Wrappers
  import opened Graphs
  import opened SessionPaths

  // ----- what a listed path shows -----

  function Transition<C>(callbacks: map<(nat, nat), C>, p: seq<nat>, k: nat): Option<C>
    requires k < |p|
  {
    if k > 0 && (p[k - 1], p[k]) in callbacks then Some(callbacks[(p[k - 1], p[k])]) else None
  }

  /** The path shows the requests of the walk, each with the callback on the edge into it. */
  ghost predicate Shows<C(!new)>(
      requests: seq<Request>, callbacks: map<(nat, nat), C>, p: seq<nat>, path: SessionPath<C>) {
    && |path.requests| == |p| == |path.transitions|
    && (forall k: nat :: RequestAt(requests, p, path.requests, k))
    && (forall k: nat :: TransitionAt(callbacks, p, path.transitions, k))
  }

  predicate RequestAt(requests: seq<Request>, p: seq<nat>, shown: seq<Request>, k: nat) {
    k < |p| && k < |shown| ==> p[k] < |requests| && shown[k] == requests[p[k]]
  }

  ghost predicate TransitionAt<C(!new)>(
      callbacks: map<(nat, nat), C>, p: seq<nat>, transitions: seq<Option<C>>, k: nat) {
    k < |p| && k < |transitions| ==> transitions[k] == Transition(callbacks, p, k)
  }

  ghost predicate ShowsAll<C(!new)>(
      requests: seq<Request>, callbacks: map<(nat, nat), C>, listing: seq<seq<nat>>, paths: seq<SessionPath<C>>) {
    && |paths| == |listing|
    && forall i :: 0 <= i < |listing| ==> Shows(requests, callbacks, listing[i], paths[i])
  }

  /** All root paths to wanted nodes, each once, in depth-first order. */
  ghost predicate Lists(edges: Graph, wanted: set<nat>, listing: seq<seq<nat>>) {
    && (forall p :: p in listing <==> RootPath(edges, wanted, p))
    && (forall i, j :: 0 <= i < j < |listing| ==> listing[i] != listing[j])
    && DfsSorted(edges, listing)
  }

  ghost predicate NamesOk(requests: seq<Request>, names: map<string, nat>) {
    && (forall name <- names :: names[name] < |requests| && requests[names[name]].name == name)
    && (forall i :: 0 <= i < |requests| ==> requests[i].name in names && names[requests[i].name] == i)
  }

  ghost function Nodes(count: nat): (nodes: set<nat>)
    ensures forall v: nat :: v in nodes <==> v < count
  {
    if count == 0 then {} else Nodes(count - 1) + {count - 1}
  }

  /** The nodes that the chosen names stand for; all nodes when none are chosen. */
  ghost function Selected(names: map<string, nat>, count: nat, targets: Option<seq<string>>): set<nat> {
    match targets
    case None => Nodes(count)
    case Some(chosen) => set name | name in chosen && name in names :: names[name]
  }

  ghost function Members(indices: seq<nat>): set<nat> {
    set v | v in indices
  }

  ghost predicate Known(names: map<string, nat>, targets: Option<seq<string>>) {
    targets.Some? ==> forall name <- targets.value :: name in names
  }

  function After(front: seq<seq<nat>>, r: Result<seq<seq<nat>>>): Result<seq<seq<nat>>> {
    if r.Ok? then Ok(front + r.value) else r
  }

  lemma {:induction false} AfterTwo(front: seq<seq<nat>>, a: Result<seq<seq<nat>>>, b: Result<seq<seq<nat>>>)
    ensures a.Ok? && b.Ok? ==> After(front, Ok(a.value + b.value)) == After(front + a.value, b)
  {
    assert a.Ok? && b.Ok? ==> front + (a.value + b.value) == front + a.value + b.value;
  }

  lemma {:induction false} AfterNothing(front: seq<seq<nat>>, r: Result<seq<seq<nat>>>)
    ensures After([], r) == r && After(front, Ok([])) == Ok(front)
  {
    assert r.Ok? ==> [] + r.value == r.value;
    assert front + [] == front;
  }

  // ----- searching -----

  /** The marks are those of the finished nodes. */
  ghost predicate Tracks(marks: seq<bool>, done: set<nat>) {
    forall v: nat :: v in done <==> v < |marks| && marks[v]
  }

  lemma {:induction false} Mark(marks: seq<bool>, done: set<nat>, index: nat)
    requires Tracks(marks, done) && index < |marks| && !marks[index]
    ensures Tracks(marks[index := true], done + {index})
    ensures Nodes(|marks|) - (done + {index}) < Nodes(|marks|) - done
  {
    assert index in Nodes(|marks|) - done;
  }

  ghost predicate AllLead(edges: Graph, target: nat, pending: seq<nat>) {
    forall v: nat <- pending :: v < |edges| && Leads(edges, target, v)
  }

  ghost predicate AllUseful(edges: Graph, wanted: set<nat>, pending: seq<nat>) {
    forall v: nat <- pending :: v < |edges| && SomeWanted(edges, wanted, v)
  }

  ghost predicate WantedMet(wanted: set<nat>, done: set<nat>, pending: seq<nat>) {
    forall v <- wanted :: v in done || v in pending
  }

  /** All successors of finished nodes are finished or pending. */
  ghost predicate ForwardClosed(edges: Graph, done: set<nat>, pending: seq<nat>) {
    forall v, w :: v in done && Edge(edges, v, w) ==> w in done || w in pending
  }

  /** All predecessors of finished nodes are finished or pending. */
  ghost predicate BackwardClosed(edges: Graph, done: set<nat>, pending: seq<nat>) {
    forall v, w :: w in done && Edge(edges, v, w) ==> v in done || v in pending
  }

  lemma {:induction false} BackwardSearch(edges: Graph, done: set<nat>, walk: seq<nat>)
    requires BackwardClosed(edges, done, []) && IsWalk(edges, walk) && walk[|walk| - 1] in done
    ensures walk[0] in done
    decreases |walk|
  {
    if |walk| > 1 {
      SuffixWalk(edges, walk, 1);
      BackwardSearch(edges, done, walk[1..]);
      assert Edge(edges, walk[0], walk[0 + 1]);
    }
  }

  lemma {:induction false} StepBack(edges: Graph, v: nat, w: nat, t: nat)
    requires Edge(edges, v, w) && Leads(edges, w, t)
    ensures Leads(edges, v, t)
  {
    LeadsToSelf(edges, v);
    LeadsOneMore(edges, v, v, w);
    LeadsTransitive(edges, v, w, t);
  }

  ghost predicate SomeWanted(edges: Graph, wanted: set<nat>, v: nat) {
    exists t <- wanted :: Leads(edges, v, t)
  }

  class SessionGraph<C(!new)> {
    var requests: seq<Request>
    var edges: Graph
    var names: map<string, nat>
    var callbacks: map<(nat, nat), C>

    ghost predicate Valid()
      reads this
    {
      && |edges| == |requests|
      && GraphOk(edges) && DistinctEdges(edges) && !HasCycle(edges)
      && NamesOk(requests, names)
      && forall e <- callbacks :: Edge(edges, e.0, e.1)
    }

    constructor ()
      ensures Valid() && requests == [] && edges == [] && callbacks == map[]
    {
      requests, edges, names, callbacks := [], [], map[], map[];
      new;
      EmptyGraph();
    }

    method Add(request: Request) returns (r: Result<()>)
      requires Valid()
      modifies this
      ensures Valid()
      ensures r == if exists q <- old(requests) :: q.name == request.name
                   then Err(Invalid(DuplicateRequest)) else Ok(())
      ensures callbacks == old(callbacks)
      ensures r.Err? ==> requests == old(requests) && edges == old(edges) && names == old(names)
      ensures r.Ok? ==> requests == old(requests) + [request] && edges == old(edges) + [[]]
    {
      if request.name in names {
        assert requests[names[request.name]] in requests;
        return Err(Invalid(DuplicateRequest));
      }
      IsolatedNode(edges);
      OneMoreName(requests, names, request);
      names := names[request.name := |requests|];
      requests := requests + [request];
      edges := edges + [[]];
      return Ok(());
    }

    method Resolve(name: string) returns (r: Result<nat>)
      requires Valid()
      ensures r == if name in names then Ok(names[name]) else Err(Invalid(UnknownRequest))
    {
      if name in names {
        return Ok(names[name]);
      }
      return Err(Invalid(UnknownRequest));
    }

    /** Whether `source` can be reached from `target`: the depth-first search before a new edge. */
    method Search(source: nat, target: nat) returns (met: bool)
      requires Valid() && target < |requests|
      ensures met <==> Leads(edges, target, source)
    {
      var pending: seq<nat> := [target];
      var seen := seq(|requests|, _ => false);
      ghost var done: set<nat> := {};
      LeadsToSelf(edges, target);
      while pending != []
        invariant |seen| == |requests| && Tracks(seen, done)
        invariant source !in done && (target in done || target in pending)
        invariant AllLead(edges, target, pending)
        invariant ForwardClosed(edges, done, pending)
        decreases Nodes(|seen|) - done, |pending|
      {
        var index := pending[|pending| - 1];
        var rest := pending[..|pending| - 1];
        assert pending == rest + [index];
        PoppedLeads(edges, target, rest, index);
        pending := rest;
        if index == source {
          return true;
        }
        if !seen[index] {
          Mark(seen, done, index);
          SuccessorsLead(edges, target, index, pending);
          seen := seen[index := true];
          done := done + {index};
          pending := pending + edges[index];
        }
      }
      if Leads(edges, target, source) {
        ghost var walk :| IsWalk(edges, walk) && walk[0] == target && walk[|walk| - 1] == source;
        ClosedUnderWalks(edges, done, walk);
      }
      return false;
    }

    /** Connecting keeps the graph acyclic; a rejected edge is a duplicate or would close a cycle. */
    method Connect(source: string, target: string, callback: Option<C>) returns (r: Result<()>)
      requires Valid()
      modifies this
      ensures Valid() && requests == old(requests) && names == old(names)
      ensures r.Err? ==> edges == old(edges) && callbacks == old(callbacks)
      ensures source !in names || target !in names ==> r == Err(Invalid(UnknownRequest))
      ensures source in names && target in names ==>
                var a, b := names[source], names[target];
                && (r == Err(Invalid(DuplicateEdge)) <==> Edge(old(edges), a, b))
                && (r == Err(Invalid(GraphCycle)) <==> !Edge(old(edges), a, b) && HasCycle(WithEdge(old(edges), a, b)))
                && (r.Ok? <==> !Edge(old(edges), a, b) && !HasCycle(WithEdge(old(edges), a, b)))
                && (r.Ok? ==> edges == WithEdge(old(edges), a, b))
                && (r.Ok? ==> callbacks == if callback.Some? then old(callbacks)[(a, b) := callback.value]
                  else old(callbacks))
    {
      var a :- Resolve(source);
      var b :- Resolve(target);
      if b in edges[a] {
        return Err(Invalid(DuplicateEdge));
      }
      var met := Search(a, b);
      if met {
        ClosesCycle(edges, a, b);
        return Err(Invalid(GraphCycle));
      }
      StaysAcyclic(edges, a, b);
      KeepsShape(edges, a, b);
      edges := WithEdge(edges, a, b);
      if callback.Some? {
        callbacks := callbacks[(a, b) := callback.value];
      }
      return Ok(());
    }

    // ----- enumerating paths -----

    method SelectTargets(targets: Option<seq<string>>) returns (r: Result<Option<seq<nat>>>)
      requires Valid()
      ensures r.Err? ==> r == Err(Invalid(UnknownRequest))
      ensures r.Ok? <==> Known(names, targets)
      ensures r.Ok? ==> (r.value.Some? <==> targets.Some?)
      ensures r.Ok? && targets.Some? ==> forall v <- r.value.value :: v < |requests|
      ensures r.Ok? && targets.Some? ==> Members(r.value.value) == Selected(names, |requests|, targets)
    {
      if targets.None? {
        return Ok(None);
      }
      var indices: seq<nat> := [];
      for i := 0 to |targets.value|
        invariant forall name <- targets.value[..i] :: name in names
        invariant forall v <- indices :: v < |requests|
        invariant forall v: nat ::
          v in indices <==> exists name :: name in targets.value[..i] && name in names && names[name] == v
      {
        var index :- Resolve(targets.value[i]);
        assert targets.value[..i + 1] == targets.value[..i] + [targets.value[i]];
        indices := indices + [index];
      }
      assert targets.value[..|targets.value|] == targets.value;
      return Ok(Some(indices));
    }

    /** Marks every node from which a chosen node can be reached. */
    method Reachable(selected: Option<seq<nat>>) returns (reachable: seq<bool>)
      requires Valid()
      requires selected.Some? ==> forall v <- selected.value :: v < |requests|
      ensures |reachable| == |requests|
      ensures selected.None? ==> forall v :: 0 <= v < |requests| ==> reachable[v]
      ensures selected.Some? ==>
        forall v: nat :: v < |requests| ==> (reachable[v] <==> SomeWanted(edges, Members(selected.value), v))
    {
      if selected.None? {
        return seq(|requests|, _ => true);
      }
      reachable := SearchBackward(selected.value);
    }

    method SearchBackward(chosen: seq<nat>) returns (reachable: seq<bool>)
      requires Valid() && forall v <- chosen :: v < |requests|
      ensures |reachable| == |requests|
      ensures forall v: nat :: v < |requests| ==> (reachable[v] <==> SomeWanted(edges, Members(chosen), v))
    {
      reachable := seq(|requests|, _ => false);
      var pending: seq<nat> := chosen;
      ghost var wanted, done: set<nat> := Members(chosen), {};
      ChosenAreUseful(edges, pending);
      while pending != []
        invariant |reachable| == |requests| && Tracks(reachable, done)
        invariant Searching(edges, wanted, done, pending)
        decreases Nodes(|reachable|) - done, |pending|
      {
        pending, reachable, done := SearchStep(pending, reachable, wanted, done);
      }
      AllUsefulFound(edges, wanted, done);
    }

    method SearchStep(pending: seq<nat>, reachable: seq<bool>, ghost wanted: set<nat>, ghost done: set<nat>)
      returns (pending': seq<nat>, reachable': seq<bool>, ghost done': set<nat>)
      requires Valid() && pending != [] && |reachable| == |requests| && Tracks(reachable, done)
      requires Searching(edges, wanted, done, pending)
      ensures |reachable'| == |requests| && Tracks(reachable', done')
      ensures Searching(edges, wanted, done', pending')
      ensures Nodes(|requests|) - done' < Nodes(|requests|) - done || (done' == done && |pending'| < |pending|)
    {
      var index := pending[|pending| - 1];
      var rest := pending[..|pending| - 1];
      assert pending == rest + [index];
      PoppedUseful(edges, wanted, rest, index);
      if reachable[index] {
        SearchSkips(edges, wanted, done, rest, index);
        return rest, reachable, done;
      }
      var more := PushSources(index, wanted, rest);
      SearchMarks(edges, wanted, done, rest, index, more);
      Mark(reachable, done, index);
      return more, reachable[index := true], done + {index};
    }

    method PushSources(index: nat, ghost wanted: set<nat>, before: seq<nat>) returns (pending: seq<nat>)
      requires Valid() && index < |requests| && SomeWanted(edges, wanted, index)
      requires AllUseful(edges, wanted, before)
      ensures Pushed(edges, index, before, pending)
      ensures AllUseful(edges, wanted, pending)
    {
      pending := before;
      for source := 0 to |edges|
        invariant forall v <- before :: v in pending
        invariant forall v: nat :: v < source && Edge(edges, v, index) ==> v in pending
        invariant AllUseful(edges, wanted, pending)
      {
        if index in edges[source] {
          ghost var t :| t in wanted && Leads(edges, index, t);
          StepBack(edges, source, index, t);
          pending := pending + [source];
        }
      }
    }

    method Incoming() returns (incoming: seq<bool>)
      requires Valid()
      ensures |incoming| == |requests|
      ensures forall v: nat :: v < |requests| ==> (incoming[v] <==> !IsRoot(edges, v))
    {
      incoming := seq(|requests|, _ => false);
      for u := 0 to |edges|
        invariant |incoming| == |requests|
        invariant forall v: nat :: v < |requests| ==> (incoming[v] <==> exists w :: 0 <= w < u && v in edges[w])
      {
        assert EdgesInRange(edges, u);
        for k := 0 to |edges[u]|
          invariant |incoming| == |requests|
          invariant forall v: nat ::
            v < |requests| ==> (incoming[v] <==> (exists w :: 0 <= w < u && v in edges[w]) || v in edges[u][..k])
        {
          incoming := incoming[edges[u][k] := true];
        }
        assert edges[u][..|edges[u]|] == edges[u];
      }
    }

    /** The marks and targets that a walk consults agree with the scope. */
    ghost predicate Consults(scope: Scope, targets: Option<seq<nat>>, reachable: seq<bool>)
      reads this
    {
      && scope.edges == edges && |reachable| == |requests| == |edges|
      && (forall v: nat :: v < |requests| ==> (reachable[v] <==> v in scope.useful))
      && (forall v: nat :: v < |requests| ==> (v in scope.wanted <==> targets.Some? ==> v in targets.value))
    }

    method Walk(index: nat, prefix: seq<Request>, transitions: seq<Option<C>>, targets: Option<seq<nat>>,
                reachable: seq<bool>, maxPaths: nat, output: seq<SessionPath<C>>,
                ghost scope: Scope, ghost path: seq<nat>, ghost listing: seq<seq<nat>>)
      returns (r: Result<seq<SessionPath<C>>>)
      requires Valid() && Consults(scope, targets, reachable) && index < |requests| && |output| <= maxPaths
      requires Arrives(requests, callbacks, path, index, prefix, transitions) && |prefix| <= MAX_LENGTH
      requires ShowsAll(requests, callbacks, listing, output)
      ensures r.Ok? <==> Listed(scope, path).Ok? && |output| + |Listed(scope, path).value| <= maxPaths
      ensures r.Err? ==> r == Err(Limit)
      ensures r.Ok? ==> ShowsAll(requests, callbacks, listing + Listed(scope, path).value, r.value)
      decreases MAX_LENGTH + 1 - |path|, 1
    {
      if |prefix| >= MAX_LENGTH {
        return Err(Limit);
      }
      var requestsHere := prefix + [requests[index]];
      var pathTransitions := transitions;
      if pathTransitions == [] {
        pathTransitions := [None];
      }
      var here := SessionPath(requestsHere, pathTransitions);
      Arrived(requests, callbacks, path, index, prefix, transitions, here);
      var out := output;
      ghost var listed := listing;
      if targets.None? || index in targets.value {
        if |out| >= maxPaths {
          return Err(Limit);
        }
        out := out + [here];
        listed := listed + [path];
      }
      ghost var own := if Last(path) in scope.wanted then [path] else [];
      assert listed == listing + own;
      AfterTwo(listing, Ok(own), ListedBelow(scope, path, 0));
      r := WalkChildren(index, here, targets, reachable, maxPaths, out, scope, path, listed);
    }

    method WalkChildren(index: nat, here: SessionPath<C>, targets: Option<seq<nat>>,
                        reachable: seq<bool>, maxPaths: nat, output: seq<SessionPath<C>>,
                        ghost scope: Scope, ghost path: seq<nat>, ghost listing: seq<seq<nat>>)
      returns (r: Result<seq<SessionPath<C>>>)
      requires Valid() && Consults(scope, targets, reachable) && index < |requests| && |output| <= maxPaths
      requires path != [] && |path| <= MAX_LENGTH && Last(path) == index && Shows(requests, callbacks, path, here)
      requires ShowsAll(requests, callbacks, listing, output)
      ensures r.Ok? <==> ListedBelow(scope, path, 0).Ok? && |output| + |ListedBelow(scope, path, 0).value| <= maxPaths
      ensures r.Err? ==> r == Err(Limit)
      ensures r.Ok? ==> ShowsAll(requests, callbacks, listing + ListedBelow(scope, path, 0).value, r.value)
      decreases MAX_LENGTH + 1 - |path|, 0
    {
      var out := output;
      ghost var listed := listing;
      for k := 0 to |edges[index]|
        invariant |out| <= maxPaths && ShowsAll(requests, callbacks, listed, out)
        invariant After(listing, ListedBelow(scope, path, 0)) == After(listed, ListedBelow(scope, path, k))
      {
        var child := edges[index][k];
        assert EdgesInRange(edges, index);
        if reachable[child] {
          var callback := if (index, child) in callbacks then Some(callbacks[(index, child)]) else None;
          ghost var longer := path + [child];
          Descends(requests, callbacks, path, child, here, callback);
          AfterTwo(listed, Listed(scope, longer), ListedBelow(scope, path, k + 1));
          out :- Walk(child, here.requests, here.transitions + [callback],
                      targets, reachable, maxPaths, out, scope, longer, listed);
          listed := listed + Listed(scope, longer).value;
        }
      }
      assert listed + [] == listed;
      return Ok(out);
    }

    /**
      * All root paths to the chosen requests, each once, in depth-first order with aligned transitions.
      * The only limits are the path count and the length of a root path to a chosen request.
      */
    method Paths(targets: Option<seq<string>>, maxPaths: int) returns (r: Result<seq<SessionPath<C>>>)
      requires Valid()
      ensures maxPaths < 0 ==> r == Err(Invalid(NegativeArgument))
      ensures maxPaths >= 0 && !Known(names, targets) ==> r == Err(Invalid(UnknownRequest))
      ensures maxPaths >= 0 && Known(names, targets) ==>
                PathsListed(requests, edges, callbacks, Selected(names, |requests|, targets), maxPaths, r)
    {
      if maxPaths < 0 {
        return Err(Invalid(NegativeArgument));
      }
      var selected :- SelectTargets(targets);
      var reachable := Reachable(selected);
      var incoming := Incoming();
      ghost var scope := ScopeOf(targets, selected, reachable);
      r := WalkRoots(selected, reachable, incoming, maxPaths, scope);
    }

    method WalkRoots(
        selected: Option<seq<nat>>, reachable: seq<bool>, incoming: seq<bool>, maxPaths: nat, ghost scope: Scope)
      returns (r: Result<seq<SessionPath<C>>>)
      requires Valid() && Consults(scope, selected, reachable) && ScopeOk(scope) && |incoming| == |requests|
      requires forall v: nat :: v < |requests| ==> (incoming[v] <==> !IsRoot(edges, v))
      ensures PathsListed(requests, edges, callbacks, scope.wanted, maxPaths, r)
    {
      var output: seq<SessionPath<C>> := [];
      ghost var listing: seq<seq<nat>> := [];
      assert After([], ListedRoots(scope, 0)) == After(listing, ListedRoots(scope, 0));
      for index := 0 to |requests|
        invariant |output| <= maxPaths && ShowsAll(requests, callbacks, listing, output)
        invariant After([], ListedRoots(scope, 0)) == After(listing, ListedRoots(scope, index))
      {
        if !incoming[index] && reachable[index] {
          AfterTwo(listing, Listed(scope, [index]), ListedRoots(scope, index + 1));
          var step := Walk(index, [], [], selected, reachable, maxPaths, output, scope, [index], listing);
          if step.Err? {
            RootsOverrun(scope, maxPaths, listing, index);
            return step;
          }
          output := step.value;
          listing := listing + Listed(scope, [index]).value;
        }
      }
      AfterNothing(listing, ListedRoots(scope, 0));
      RootsListed(scope, listing);
      return Ok(output);
    }

    ghost method ScopeOf(
        targets: Option<seq<string>>, selected: Option<seq<nat>>, reachable: seq<bool>) returns (scope: Scope)
      requires Valid() && |reachable| == |requests|
      requires selected.Some? <==> targets.Some?
      requires selected.Some? ==> Members(selected.value) == Selected(names, |requests|, targets)
      requires selected.None? ==> forall v :: 0 <= v < |requests| ==> reachable[v]
      requires selected.Some? ==>
        forall v: nat :: v < |requests| ==> (reachable[v] <==> SomeWanted(edges, Members(selected.value), v))
      ensures ScopeOk(scope) && Consults(scope, selected, reachable)
      ensures scope.edges == edges && scope.wanted == Selected(names, |requests|, targets)
    {
      scope := Scope(edges, Selected(names, |requests|, targets), set v <- Nodes(|requests|) | reachable[v]);
      forall v: nat ensures UsefulAt(scope, v) {
        if v < |edges| {
          assert reachable[v] <==> SomeWanted(edges, scope.wanted, v) by {
            LeadsToSelf(edges, v);
          }
        }
      }
    }
  }

  /** The result of listing the paths to `wanted`: complete, or stopped by a limit that is really exceeded. */
  ghost predicate PathsListed<C(!new)>(
      requests: seq<Request>, edges: Graph, callbacks: map<(nat, nat), C>, wanted: set<nat>,
                                       maxPaths: nat, r: Result<seq<SessionPath<C>>>) {
    match r
    case Ok(paths) =>
      && (forall p :: RootPath(edges, wanted, p) ==> |p| <= MAX_LENGTH)
      && exists listing ::
        Lists(edges, wanted, listing) && |listing| <= maxPaths && ShowsAll(requests, callbacks, listing, paths)
    case Err(error) =>
      && error == Limit
      && (|| (exists p :: RootPath(edges, wanted, p) && |p| > MAX_LENGTH)
          || exists listing :: Lists(edges, wanted, listing) && |listing| > maxPaths)
  }

  lemma {:induction false} RootsListed(scope: Scope, listing: seq<seq<nat>>)
    requires ScopeOk(scope) && DistinctEdges(scope.edges)
    requires ListedRoots(scope, 0) == Ok(listing)
    ensures Lists(scope.edges, scope.wanted, listing)
    ensures forall p :: RootPath(scope.edges, scope.wanted, p) ==> |p| <= MAX_LENGTH
  {
    RootsExact(scope, 0);
    RootsFail(scope, 0);
    SortedIsDistinct(scope.edges, ListedRoots(scope, 0).value);
  }

  /** A walk that stops at a root has met a root path that is too long, or more paths than allowed. */
  lemma {:induction false} RootsOverrun(scope: Scope, maxPaths: nat, listing: seq<seq<nat>>, index: nat)
    requires ScopeOk(scope) && DistinctEdges(scope.edges)
    requires index < |scope.edges| && IsRoot(scope.edges, index) && index in scope.useful
    requires !(Listed(scope, [index]).Ok? && |listing| + |Listed(scope, [index]).value| <= maxPaths)
    requires After([], ListedRoots(scope, 0)) == After(listing, ListedRoots(scope, index))
    ensures (exists p :: RootPath(scope.edges, scope.wanted, p) && |p| > MAX_LENGTH)
         || exists all :: Lists(scope.edges, scope.wanted, all) && |all| > maxPaths
  {
    RootsFail(scope, 0);
    if ListedRoots(scope, 0).Ok? {
      RootsListed(scope, ListedRoots(scope, 0).value);
      var all, rest := ListedRoots(scope, 0).value, ListedRoots(scope, index).value;
      assert [] + all == all == listing + rest && |rest| >= |Listed(scope, [index]).value|;
      assert |all| == |listing| + |rest|;
      assert |all| > maxPaths;
    }
  }


  /** What a walk holds when it comes to the last node of a path. */
  ghost predicate Arrives<C(!new)>(requests: seq<Request>, callbacks: map<(nat, nat), C>, path: seq<nat>, index: nat,
                                   prefix: seq<Request>, transitions: seq<Option<C>>) {
    && path != [] && Last(path) == index && |prefix| == |path| - 1
    && |transitions| == (if prefix == [] then 0 else |path|)
    && (forall k: nat :: RequestAt(requests, path, prefix, k))
    && (forall k: nat :: TransitionAt(callbacks, path, transitions, k))
  }

  lemma {:induction false} Arrived<C(!new)>(
      requests: seq<Request>, callbacks: map<(nat, nat), C>, path: seq<nat>, index: nat,
                          prefix: seq<Request>, transitions: seq<Option<C>>, here: SessionPath<C>)
    requires Arrives(requests, callbacks, path, index, prefix, transitions) && index < |requests|
    requires here.requests == prefix + [requests[index]]
    requires here.transitions == if transitions == [] then [None] else transitions
    ensures Shows(requests, callbacks, path, here)
  {
    forall k: nat ensures RequestAt(requests, path, here.requests, k) {
      assert RequestAt(requests, path, prefix, k);
    }
    forall k: nat ensures TransitionAt(callbacks, path, here.transitions, k) {
      assert TransitionAt(callbacks, path, transitions, k);
    }
  }

  lemma {:induction false} Descends<C(!new)>(
      requests: seq<Request>, callbacks: map<(nat, nat), C>, path: seq<nat>, child: nat,
                           here: SessionPath<C>, callback: Option<C>)
    requires path != [] && Shows(requests, callbacks, path, here)
    requires callback == Transition(callbacks, [Last(path), child], 1)
    ensures Arrives(requests, callbacks, path + [child], child, here.requests, here.transitions + [callback])
  {
    var longer := path + [child];
    forall k: nat ensures RequestAt(requests, longer, here.requests, k) {
      assert RequestAt(requests, path, here.requests, k);
    }
    forall k: nat ensures TransitionAt(callbacks, longer, here.transitions + [callback], k) {
      assert TransitionAt(callbacks, path, here.transitions, k);
      assert k == |path| ==> longer[k - 1] == Last(path) && longer[k] == child;
    }
  }

  lemma {:induction false} PoppedLeads(edges: Graph, target: nat, rest: seq<nat>, index: nat)
    requires AllLead(edges, target, rest + [index])
    ensures AllLead(edges, target, rest) && index < |edges| && Leads(edges, target, index)
  {
    assert index in rest + [index];
  }

  lemma {:induction false} PoppedUseful(edges: Graph, wanted: set<nat>, rest: seq<nat>, index: nat)
    requires AllUseful(edges, wanted, rest + [index])
    ensures AllUseful(edges, wanted, rest) && index < |edges| && SomeWanted(edges, wanted, index)
  {
    assert index in rest + [index];
  }

  /** What holds between two steps of the backward search. */
  ghost predicate Searching(edges: Graph, wanted: set<nat>, done: set<nat>, pending: seq<nat>) {
    && WantedMet(wanted, done, pending) && AllUseful(edges, wanted, pending) && BackwardClosed(edges, done, pending)
    && forall v: nat <- done :: SomeWanted(edges, wanted, v)
  }

  /** The sources of all edges into a node were added. */
  ghost predicate Pushed(edges: Graph, index: nat, rest: seq<nat>, more: seq<nat>) {
    && (forall v <- rest :: v in more)
    && (forall v: nat :: Edge(edges, v, index) ==> v in more)
  }

  lemma {:induction false} SearchSkips(edges: Graph, wanted: set<nat>, done: set<nat>, rest: seq<nat>, index: nat)
    requires Searching(edges, wanted, done, rest + [index]) && index in done
    ensures Searching(edges, wanted, done, rest)
  {
    PoppedUseful(edges, wanted, rest, index);
    assert WantedMet(wanted, done, rest);
    assert BackwardClosed(edges, done, rest);
  }

  lemma {:induction false} SearchMarks(
      edges: Graph, wanted: set<nat>, done: set<nat>, rest: seq<nat>, index: nat, more: seq<nat>)
    requires Searching(edges, wanted, done, rest + [index])
    requires AllUseful(edges, wanted, more)
    requires Pushed(edges, index, rest, more)
    ensures Searching(edges, wanted, done + {index}, more)
  {
    PoppedUseful(edges, wanted, rest, index);
    assert WantedMet(wanted, done + {index}, more);
    assert BackwardClosed(edges, done + {index}, more);
  }

  lemma {:induction false} SuccessorsLead(edges: Graph, target: nat, index: nat, pending: seq<nat>)
    requires GraphOk(edges) && index < |edges| && Leads(edges, target, index) && AllLead(edges, target, pending)
    ensures AllLead(edges, target, pending + edges[index])
  {
    assert EdgesInRange(edges, index);
    forall w <- edges[index] ensures w < |edges| && Leads(edges, target, w) {
      LeadsOneMore(edges, target, index, w);
    }
  }

  lemma {:induction false} ChosenAreUseful(edges: Graph, chosen: seq<nat>)
    requires forall v <- chosen :: v < |edges|
    ensures AllUseful(edges, Members(chosen), chosen)
  {
    forall v <- chosen ensures SomeWanted(edges, Members(chosen), v) {
      LeadsToSelf(edges, v);
    }
  }

  lemma {:induction false} AllUsefulFound(edges: Graph, wanted: set<nat>, done: set<nat>)
    requires BackwardClosed(edges, done, []) && WantedMet(wanted, done, [])
    ensures forall v: nat :: SomeWanted(edges, wanted, v) ==> v in done
  {
    forall v: nat | SomeWanted(edges, wanted, v) ensures v in done {
      var t :| t in wanted && Leads(edges, v, t);
      var walk :| IsWalk(edges, walk) && walk[0] == v && walk[|walk| - 1] == t;
      BackwardSearch(edges, done, walk);
    }
  }

  lemma {:induction false} OneMoreName(requests: seq<Request>, names: map<string, nat>, request: Request)
    requires NamesOk(requests, names) && request.name !in names
    ensures NamesOk(requests + [request], names[request.name := |requests|])
    ensures forall q <- requests :: q.name != request.name
  {
  }

  lemma {:induction false} EmptyGraph()
    ensures !HasCycle([])
  {
    forall walk | IsWalk([], walk) ensures |walk| <= 1 {
      assert |walk| > 1 ==> Edge([], walk[0], walk[0 + 1]);
    }
  }

  lemma {:induction false} IsolatedNode(edges: Graph)
    requires GraphOk(edges) && DistinctEdges(edges) && !HasCycle(edges)
    ensures GraphOk(edges + [[]]) && DistinctEdges(edges + [[]]) && !HasCycle(edges + [[]])
    ensures forall a: nat, b: nat :: Edge(edges, a, b) ==> Edge(edges + [[]], a, b)
  {
    var more := edges + [[]];
    forall v: nat ensures EdgesInRange(more, v) && DistinctAt(more, v) {
      assert EdgesInRange(edges, v) && DistinctAt(edges, v);
    }
    forall walk | IsWalk(more, walk) && |walk| > 1 ensures IsWalk(edges, walk) {
      forall k | 0 <= k < |walk| - 1 ensures Edge(edges, walk[k], walk[k + 1]) {
        assert Edge(more, walk[k], walk[k + 1]);
      }
    }
  }

  lemma {:induction false} KeepsShape(edges: Graph, a: nat, b: nat)
    requires GraphOk(edges) && DistinctEdges(edges) && a < |edges| && b < |edges| && b !in edges[a]
    ensures GraphOk(WithEdge(edges, a, b)) && DistinctEdges(WithEdge(edges, a, b))
    ensures forall v: nat, w: nat :: Edge(edges, v, w) ==> Edge(WithEdge(edges, a, b), v, w)
    ensures Edge(WithEdge(edges, a, b), a, b)
  {
    forall v: nat ensures EdgesInRange(WithEdge(edges, a, b), v) && DistinctAt(WithEdge(edges, a, b), v) {
      assert EdgesInRange(edges, v) && DistinctAt(edges, v);
    }
    forall v: nat, w: nat ensures Edge(edges, v, w) ==> Edge(WithEdge(edges, a, b), v, w) {
      NewEdge(edges, a, b, v, w);
    }
    NewEdge(edges, a, b, a, b);
  }
}
