/** Root-to-target paths of an acyclic graph: the depth-first listing with pruning, and what it lists. */
module SessionPaths {
  import opened Wrappers
  import opened Graphs

  import Model

  type Request = Model.CompiledRequest

  /** One callback, or none, for each request of the path. */
  datatype SessionPath<C> = SessionPath(requests: seq<Request>, transitions: seq<Option<C>>)

  const MAX_LENGTH: nat := 256

  // ----- the paths below a node, as index walks in depth-first order -----

  /** The graph with the nodes to list and the nodes worth visiting. */
  datatype Scope = Scope(edges: Graph, wanted: set<nat>, useful: set<nat>)

  /** Every walk to a wanted node runs through useful nodes only, and every useful node leads to a wanted one. */
  ghost predicate ScopeOk(scope: Scope) {
    GraphOk(scope.edges) && forall v: nat :: UsefulAt(scope, v)
  }

  ghost predicate UsefulAt(scope: Scope, v: nat) {
    v < |scope.edges| ==> (v in scope.useful <==> exists t <- scope.wanted :: Leads(scope.edges, v, t))
  }

  function Last(path: seq<nat>): nat
    requires path != []
  {
    path[|path| - 1]
  }

  /** The listed paths that extend `path`, itself included; too long a path is an error. */
  function Listed(scope: Scope, path: seq<nat>): Result<seq<seq<nat>>>
    requires path != [] && Last(path) < |scope.edges| && GraphOk(scope.edges)
    decreases MAX_LENGTH + 1 - |path|, 1, 0
  {
    if |path| > MAX_LENGTH then Err(Limit)
    else
      var below :- ListedBelow(scope, path, 0);
      Ok((if Last(path) in scope.wanted then [path] else []) + below)
  }

  function ListedBelow(scope: Scope, path: seq<nat>, k: nat): Result<seq<seq<nat>>>
    requires path != [] && |path| <= MAX_LENGTH && Last(path) < |scope.edges| && GraphOk(scope.edges)
    requires k <= |scope.edges[Last(path)]|
    decreases MAX_LENGTH + 1 - |path|, 0, |scope.edges[Last(path)]| - k
  {
    var children := scope.edges[Last(path)];
    if k == |children| then Ok([])
    else if children[k] !in scope.useful then ListedBelow(scope, path, k + 1)
    else
      assert EdgesInRange(scope.edges, Last(path));
      var first :- Listed(scope, path + [children[k]]);
      var rest :- ListedBelow(scope, path, k + 1);
      Ok(first + rest)
  }

  /** Listed paths extend their prefix along edges and end in a wanted node. */
  ghost predicate Genuine(scope: Scope, path: seq<nat>, p: seq<nat>)
    requires path != []
  {
    path <= p && IsWalk(scope.edges, p) && Last(p) in scope.wanted
  }

  lemma {:induction false} ListedAreGenuine(scope: Scope, path: seq<nat>, p: seq<nat>)
    requires path != [] && Last(path) < |scope.edges| && GraphOk(scope.edges) && IsWalk(scope.edges, path)
    requires Listed(scope, path).Ok? && p in Listed(scope, path).value
    ensures Genuine(scope, path, p)
    decreases MAX_LENGTH + 1 - |path|, 1, 0
  {
    if !(Last(path) in scope.wanted && p == path) {
      BelowAreGenuine(scope, path, 0, p);
    }
  }

  lemma {:induction false} BelowAreGenuine(scope: Scope, path: seq<nat>, k: nat, p: seq<nat>)
    requires path != [] && |path| <= MAX_LENGTH && Last(path) < |scope.edges| && GraphOk(scope.edges)
    requires IsWalk(scope.edges, path) && k <= |scope.edges[Last(path)]|
    requires ListedBelow(scope, path, k).Ok? && p in ListedBelow(scope, path, k).value
    ensures Genuine(scope, path, p)
    ensures exists n :: k <= n < |scope.edges[Last(path)]| && path + [scope.edges[Last(path)][n]] <= p
    decreases MAX_LENGTH + 1 - |path|, 0, |scope.edges[Last(path)]| - k
  {
    var children := scope.edges[Last(path)];
    var child := children[k];
    assert EdgesInRange(scope.edges, Last(path));
    if child in scope.useful && p in Listed(scope, path + [child]).value {
      ExtendWalk(scope.edges, path, child);
      ListedAreGenuine(scope, path + [child], p);
      assert path + [children[k]] <= p;
    } else {
      BelowAreGenuine(scope, path, k + 1, p);
    }
  }

  /** No walk to a wanted node is missed: pruning by usefulness loses none. */
  lemma {:induction false} AllAreListed(scope: Scope, path: seq<nat>, p: seq<nat>)
    requires path != [] && Last(path) < |scope.edges| && ScopeOk(scope)
    requires Listed(scope, path).Ok? && Genuine(scope, path, p)
    ensures p in Listed(scope, path).value
    decreases |p| - |path|
  {
    if p != path {
      var children, next := scope.edges[Last(path)], p[|path|];
      assert Edge(scope.edges, p[|path| - 1], p[|path| - 1 + 1]);
      assert EdgesInRange(scope.edges, Last(path));
      var k :| 0 <= k < |children| && children[k] == next;
      SuffixWalk(scope.edges, p, |path|);
      assert p[|path|..][0] == next && p[|path|..][|p| - |path| - 1] == Last(p);
      assert Leads(scope.edges, next, Last(p));
      assert UsefulAt(scope, next);
      assert path + [next] <= p;
      ListedBelowHas(scope, path, 0, k);
      AllAreListed(scope, path + [next], p);
    }
  }

  /** What a useful child lists is part of what its parent lists. */
  lemma {:induction false} ListedBelowHas(scope: Scope, path: seq<nat>, from: nat, k: nat)
    requires path != [] && |path| <= MAX_LENGTH && Last(path) < |scope.edges| && GraphOk(scope.edges)
    requires from <= k < |scope.edges[Last(path)]| && scope.edges[Last(path)][k] in scope.useful
    requires scope.edges[Last(path)][k] < |scope.edges|
    requires ListedBelow(scope, path, from).Ok?
    ensures Listed(scope, path + [scope.edges[Last(path)][k]]).Ok?
    ensures forall p <- Listed(scope, path + [scope.edges[Last(path)][k]]).value ::
      p in ListedBelow(scope, path, from).value
    decreases k - from
  {
    if from < k {
      ListedBelowHas(scope, path, from + 1, k);
    }
  }

  // ----- order -----

  /** Where two walks part, the first takes an earlier edge; a walk comes before its extensions. */
  ghost predicate DfsBefore(edges: Graph, p: seq<nat>, q: seq<nat>) {
    (p < q) || exists k: nat :: PartsAt(edges, p, q, k)
  }

  ghost predicate PartsAt(edges: Graph, p: seq<nat>, q: seq<nat>, k: nat) {
    && k < |p| && k < |q| && p[..k] == q[..k]
    && if k == 0 then p[0] < q[0]
       else p[k - 1] < |edges| && ListedEarlier(edges[p[k - 1]], p[k], q[k])
  }

  ghost predicate ListedEarlier(targets: seq<nat>, a: nat, b: nat) {
    exists i: nat, j: nat :: EarlierEdge(targets, i, j, a, b)
  }

  predicate EarlierEdge(targets: seq<nat>, i: nat, j: nat, a: nat, b: nat) {
    i < j < |targets| && targets[i] == a && targets[j] == b
  }

  ghost predicate DfsSorted(edges: Graph, paths: seq<seq<nat>>) {
    forall i, j :: 0 <= i < j < |paths| ==> DfsBefore(edges, paths[i], paths[j])
  }

  predicate DistinctAt(edges: Graph, v: nat) {
    v < |edges| ==> forall i, j :: 0 <= i < j < |edges[v]| ==> edges[v][i] != edges[v][j]
  }

  /** No edge is listed twice. */
  ghost predicate DistinctEdges(edges: Graph) {
    forall v: nat :: DistinctAt(edges, v)
  }

  /** In depth-first order with distinct edges, no path is listed twice. */
  lemma {:induction false} SortedIsDistinct(edges: Graph, paths: seq<seq<nat>>)
    requires DistinctEdges(edges) && DfsSorted(edges, paths)
    ensures forall i, j :: 0 <= i < j < |paths| ==> paths[i] != paths[j]
  {
    forall i, j | 0 <= i < j < |paths| ensures paths[i] != paths[j] {
      var p, q := paths[i], paths[j];
      assert DfsBefore(edges, p, q);
      if k: nat :| PartsAt(edges, p, q, k) {
        assert k > 0 ==> DistinctAt(edges, p[k - 1]);
      }
    }
  }

  lemma {:induction false} ListedSorted(scope: Scope, path: seq<nat>)
    requires path != [] && Last(path) < |scope.edges| && GraphOk(scope.edges) && IsWalk(scope.edges, path)
    requires Listed(scope, path).Ok?
    ensures DfsSorted(scope.edges, Listed(scope, path).value)
    decreases MAX_LENGTH + 1 - |path|, 1, 0
  {
    BelowSorted(scope, path, 0);
    var below := ListedBelow(scope, path, 0).value;
    forall j | 0 <= j < |below| ensures DfsBefore(scope.edges, path, below[j]) {
      BelowAreGenuine(scope, path, 0, below[j]);
    }
  }

  lemma {:induction false} BelowSorted(scope: Scope, path: seq<nat>, k: nat)
    requires path != [] && |path| <= MAX_LENGTH && Last(path) < |scope.edges| && GraphOk(scope.edges)
    requires IsWalk(scope.edges, path) && k <= |scope.edges[Last(path)]|
    requires ListedBelow(scope, path, k).Ok?
    ensures DfsSorted(scope.edges, ListedBelow(scope, path, k).value)
    decreases MAX_LENGTH + 1 - |path|, 0, |scope.edges[Last(path)]| - k
  {
    var children := scope.edges[Last(path)];
    if k < |children| {
      BelowSorted(scope, path, k + 1);
      if children[k] in scope.useful {
        assert EdgesInRange(scope.edges, Last(path));
        ExtendWalk(scope.edges, path, children[k]);
        ListedSorted(scope, path + [children[k]]);
        var first, rest := Listed(scope, path + [children[k]]).value, ListedBelow(scope, path, k + 1).value;
        forall i, j | 0 <= i < |first| && 0 <= j < |rest| ensures DfsBefore(scope.edges, first[i], rest[j]) {
          ListedAreGenuine(scope, path + [children[k]], first[i]);
          BelowAreGenuine(scope, path, k + 1, rest[j]);
          var n :| k + 1 <= n < |children| && path + [children[n]] <= rest[j];
          PartHere(scope.edges, path, k, n, first[i], rest[j]);
        }
      }
    }
  }

  lemma {:induction false} PartHere(edges: Graph, path: seq<nat>, k: nat, n: nat, p: seq<nat>, q: seq<nat>)
    requires path != [] && Last(path) < |edges| && k < n < |edges[Last(path)]|
    requires path + [edges[Last(path)][k]] <= p && path + [edges[Last(path)][n]] <= q
    ensures DfsBefore(edges, p, q)
  {
    var m := |path|;
    assert p[..m] == path && q[..m] == path;
    assert p[m - 1] == Last(path) && p[m] == edges[Last(path)][k] && q[m] == edges[Last(path)][n];
    assert EarlierEdge(edges[p[m - 1]], k, n, p[m], q[m]);
    assert PartsAt(edges, p, q, m);
  }

  // ----- all roots -----

  predicate IsRoot(edges: Graph, v: nat) {
    v < |edges| && forall u :: 0 <= u < |edges| ==> v !in edges[u]
  }

  /** The listed paths of all useful roots from `from` on, in node order. */
  function ListedRoots(scope: Scope, from: nat): Result<seq<seq<nat>>>
    requires GraphOk(scope.edges)
    decreases |scope.edges| - from
  {
    if from >= |scope.edges| then Ok([])
    else if !IsRoot(scope.edges, from) || from !in scope.useful then ListedRoots(scope, from + 1)
    else
      var first :- Listed(scope, [from]);
      var rest :- ListedRoots(scope, from + 1);
      Ok(first + rest)
  }

  /** A walk from a root to a wanted node. */
  ghost predicate RootPath(edges: Graph, wanted: set<nat>, p: seq<nat>) {
    IsWalk(edges, p) && IsRoot(edges, p[0]) && Last(p) in wanted
  }

  /** Whenever listing succeeds, it lists exactly the root paths to wanted nodes, in depth-first order. */
  lemma {:induction false} RootsExact(scope: Scope, from: nat)
    requires ScopeOk(scope) && ListedRoots(scope, from).Ok?
    ensures forall p :: p in ListedRoots(scope, from).value <==> RootPath(scope.edges, scope.wanted, p) && p[0] >= from
    ensures DfsSorted(scope.edges, ListedRoots(scope, from).value)
    decreases |scope.edges| - from
  {
    if from < |scope.edges| {
      RootsExact(scope, from + 1);
      if !IsRoot(scope.edges, from) {
      } else if from !in scope.useful {
        assert UsefulAt(scope, from);
        forall p | RootPath(scope.edges, scope.wanted, p) ensures p[0] != from {
          assert Leads(scope.edges, p[0], Last(p));
        }
      } else {
        OneRoot(scope, from);
        var first, rest := Listed(scope, [from]).value, ListedRoots(scope, from + 1).value;
        ListedSorted(scope, [from]);
        forall i, j | 0 <= i < |first| && 0 <= j < |rest| ensures DfsBefore(scope.edges, first[i], rest[j]) {
          assert first[i] in first && rest[j] in rest;
          assert PartsAt(scope.edges, first[i], rest[j], 0);
        }
      }
    }
  }

  lemma {:induction false} OneRoot(scope: Scope, root: nat)
    requires ScopeOk(scope) && root < |scope.edges| && IsRoot(scope.edges, root) && Listed(scope, [root]).Ok?
    ensures IsWalk(scope.edges, [root])
    ensures forall p :: p in Listed(scope, [root]).value <==> RootPath(scope.edges, scope.wanted, p) && p[0] == root
  {
    assert IsWalk(scope.edges, [root]);
    forall p ensures p in Listed(scope, [root]).value <==> RootPath(scope.edges, scope.wanted, p) && p[0] == root {
      if p in Listed(scope, [root]).value {
        ListedAreGenuine(scope, [root], p);
      }
      if RootPath(scope.edges, scope.wanted, p) && p[0] == root {
        assert [root] <= p;
        AllAreListed(scope, [root], p);
      }
    }
  }

  // ----- paths that are too long -----

  lemma {:induction false} ListedAreShort(scope: Scope, path: seq<nat>, p: seq<nat>)
    requires path != [] && Last(path) < |scope.edges| && GraphOk(scope.edges)
    requires Listed(scope, path).Ok? && p in Listed(scope, path).value
    ensures |p| <= MAX_LENGTH
    decreases MAX_LENGTH + 1 - |path|, 1, 0
  {
    if !(Last(path) in scope.wanted && p == path) {
      BelowAreShort(scope, path, 0, p);
    }
  }

  lemma {:induction false} BelowAreShort(scope: Scope, path: seq<nat>, k: nat, p: seq<nat>)
    requires path != [] && |path| <= MAX_LENGTH && Last(path) < |scope.edges| && GraphOk(scope.edges)
    requires k <= |scope.edges[Last(path)]|
    requires ListedBelow(scope, path, k).Ok? && p in ListedBelow(scope, path, k).value
    ensures |p| <= MAX_LENGTH
    decreases MAX_LENGTH + 1 - |path|, 0, |scope.edges[Last(path)]| - k
  {
    assert EdgesInRange(scope.edges, Last(path));
    var child := scope.edges[Last(path)][k];
    if child in scope.useful && p in Listed(scope, path + [child]).value {
      ListedAreShort(scope, path + [child], p);
    } else {
      BelowAreShort(scope, path, k + 1, p);
    }
  }

  /** A listing that stops for length has met a walk to a wanted node that is too long. */
  lemma {:induction false} TooLong(scope: Scope, path: seq<nat>) returns (p: seq<nat>)
    requires path != [] && Last(path) < |scope.edges| && ScopeOk(scope) && IsWalk(scope.edges, path)
    requires Listed(scope, path).Err? && Last(path) in scope.useful
    ensures Genuine(scope, path, p) && |p| > MAX_LENGTH && Listed(scope, path) == Err(Limit)
    decreases MAX_LENGTH + 1 - |path|, 1, 0
  {
    if |path| > MAX_LENGTH {
      assert UsefulAt(scope, Last(path));
      var t :| t in scope.wanted && Leads(scope.edges, Last(path), t);
      p := Joined(scope.edges, path, t);
    } else {
      p := TooLongBelow(scope, path, 0);
    }
  }

  lemma {:induction false} TooLongBelow(scope: Scope, path: seq<nat>, k: nat) returns (p: seq<nat>)
    requires path != [] && |path| <= MAX_LENGTH && Last(path) < |scope.edges| && ScopeOk(scope)
    requires IsWalk(scope.edges, path) && k <= |scope.edges[Last(path)]|
    requires ListedBelow(scope, path, k).Err?
    ensures Genuine(scope, path, p) && |p| > MAX_LENGTH && ListedBelow(scope, path, k) == Err(Limit)
    decreases MAX_LENGTH + 1 - |path|, 0, |scope.edges[Last(path)]| - k
  {
    assert EdgesInRange(scope.edges, Last(path));
    var child := scope.edges[Last(path)][k];
    if child in scope.useful && Listed(scope, path + [child]).Err? {
      ExtendWalk(scope.edges, path, child);
      p := TooLong(scope, path + [child]);
    } else {
      p := TooLongBelow(scope, path, k + 1);
    }
  }

  lemma {:induction false} Joined(edges: Graph, path: seq<nat>, t: nat) returns (p: seq<nat>)
    requires IsWalk(edges, path) && Leads(edges, Last(path), t)
    ensures path <= p && IsWalk(edges, p) && Last(p) == t
  {
    var walk :| IsWalk(edges, walk) && walk[0] == Last(path) && walk[|walk| - 1] == t;
    p := path + walk[1..];
    forall k | 0 <= k < |p| - 1 ensures Edge(edges, p[k], p[k + 1]) {
      if k < |path| - 1 {
        assert Edge(edges, path[k], path[k + 1]);
      } else {
        assert Edge(edges, walk[k - (|path| - 1)], walk[k - (|path| - 1) + 1]);
      }
    }
  }

  /** Listing all roots fails exactly when some root path to a wanted node is too long. */
  lemma {:induction false} RootsFail(scope: Scope, from: nat)
    requires ScopeOk(scope)
    ensures ListedRoots(scope, from).Err? ==> ListedRoots(scope, from) == Err(Limit)
    ensures ListedRoots(scope, from).Err? <==>
      exists p :: RootPath(scope.edges, scope.wanted, p) && p[0] >= from && |p| > MAX_LENGTH
    decreases |scope.edges| - from
  {
    if ListedRoots(scope, from).Ok? {
      RootsExact(scope, from);
      forall p | RootPath(scope.edges, scope.wanted, p) && p[0] >= from ensures |p| <= MAX_LENGTH {
        RootListedIsShort(scope, from, p);
      }
    } else {
      RootsFail(scope, from + 1);
      if IsRoot(scope.edges, from) && from in scope.useful && Listed(scope, [from]).Err? {
        var p := TooLong(scope, [from]);
        assert RootPath(scope.edges, scope.wanted, p) && p[0] >= from;
      }
    }
  }

  lemma {:induction false} RootListedIsShort(scope: Scope, from: nat, p: seq<nat>)
    requires GraphOk(scope.edges) && ListedRoots(scope, from).Ok? && p in ListedRoots(scope, from).value
    ensures |p| <= MAX_LENGTH
    decreases |scope.edges| - from
  {
    if IsRoot(scope.edges, from) && from in scope.useful && p in Listed(scope, [from]).value {
      ListedAreShort(scope, [from], p);
    } else {
      RootListedIsShort(scope, from + 1, p);
    }
  }
}
