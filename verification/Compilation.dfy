/** Compiling a definition: assembly, reference checks, dependency checks, and what they establish. */
module Compilation {
  import opened Wrappers
  import opened Graphs
  import opened CaseSequences
  import opened Model
  import opened Layout
  import opened Assembly
  import opened Rendering
  import opened Dependencies
  import opened DependencyCheck

  // ----- groups -----

  /** Grouped blocks and the field entries whose candidates multiply them. */
  ghost predicate GroupsMatch(request: CompiledRequest, groups: map<nat, nat>) {
    && (forall i <- groups :: i < |request.entries| && request.entries[i].group.Some?
                              && request.Resolves(request.entries[i].group.value, groups[i])
                              && groups[i] < |request.entries| && request.entries[groups[i]].kind.Atom?)
    && (forall i :: 0 <= i < |request.entries| && request.entries[i].group.Some? ==> i in groups)
  }

  /** A group names a plain field. */
  predicate GroupOk(request: CompiledRequest, i: nat) {
    i < |request.entries| && request.entries[i].group.Some? ==>
      var name := request.entries[i].group.value;
      name in request.paths && request.paths[name] < |request.entries| &&
        request.entries[request.paths[name]].kind.Atom?
  }

  method ResolveGroups(request: CompiledRequest) returns (r: Result<map<nat, nat>>)
    requires Indexed(request.entries, request.paths)
    ensures r.Ok? <==> forall i: nat :: GroupOk(request, i)
    ensures r.Ok? ==> GroupsMatch(request, r.value)
  {
    var groups: map<nat, nat> := map[];
    for i := 0 to |request.entries|
      invariant forall k <- groups :: k < i && request.entries[k].group.Some?
                                      && request.Resolves(request.entries[k].group.value, groups[k])
                                      && groups[k] < |request.entries| && request.entries[groups[k]].kind.Atom?
      invariant forall k :: 0 <= k < i && request.entries[k].group.Some? ==> k in groups
      invariant forall k: nat :: k < i ==> GroupOk(request, k)
    {
      assert GroupOk(request, i) || request.entries[i].group.Some?;
      if request.entries[i].group.Some? {
        var target :- request.Resolve(request.entries[i].group.value);
        if !request.entries[target].kind.Atom? {
          return Err(Invalid(BadTarget));
        }
        groups := groups[i := target];
      }
    }
    return Ok(groups);
  }

  // ----- reference checks -----

  /** Entry `j` is `target` or lies inside it. */
  ghost predicate Inside(request: CompiledRequest, j: nat, target: nat)
    requires WellFormed(request) && j < |request.entries|
    decreases j
  {
    assert EntryOk(request, j);
    j == target || (request.entries[j].parent.Some? && Inside(request, request.entries[j].parent.value, target))
  }

  /** What the reference checks guarantee of an entry. */
  ghost predicate ReferencesOk(request: CompiledRequest, i: nat)
    requires WellFormed(request)
  {
    i < |request.entries| ==>
      var entry := request.entries[i];
      && (entry.kind.Repetition? ==>
            && entry.kind.target in request.paths
            && request.entries[request.paths[entry.kind.target]].kind.Container?
            && request.paths[entry.kind.target] < i
            && !(entry.kind.target + "." <= entry.path))
      && (entry.condition.Some? ==>
            && entry.condition.value.path in request.paths
            && var kind := request.entries[request.paths[entry.condition.value.path]].kind; kind.Atom? || kind.Dynamic?)
      && (entry.kind.Mirror? ==>
            && entry.kind.target in request.paths
            && (entry.parent.Some? ==>
                  entry.parent.value < |request.entries|
                  && !Inside(request, entry.parent.value, request.paths[entry.kind.target])))
  }

  method CheckReferences(request: CompiledRequest, i: nat) returns (r: Result<()>)
    requires WellFormed(request) && i < |request.entries|
    requires Indexed(request.entries, request.paths)
    ensures r.Ok? <==> ReferencesOk(request, i)
  {
    var entry := request.entries[i];
    assert EntryOk(request, i);
    if entry.kind.Repetition? {
      var path := entry.kind.target;
      var target :- request.Resolve(path);
      var current := request.paths[entry.path];
      if !request.entries[target].kind.Container? || target >= current || path + "." <= entry.path {
        return Err(Invalid(BadTarget));
      }
    }
    if entry.condition.Some? {
      var target :- request.Resolve(entry.condition.value.path);
      if !request.entries[target].kind.Atom? && !request.entries[target].kind.Dynamic? {
        return Err(Invalid(BadTarget));
      }
    }
    if entry.kind.Mirror? {
      var target :- request.Resolve(entry.kind.target);
      var parent: Option<nat> := entry.parent;
      while parent.Some?
        invariant parent.Some? ==> parent.value < |request.entries|
        invariant entry.parent.Some? ==>
          (Inside(request, entry.parent.value, target) <==> parent.Some? && Inside(request, parent.value, target))
        decreases parent.Some?, if parent.Some? then parent.value else 0
      {
        assert EntryOk(request, parent.value);
        if parent.value == target {
          return Err(Invalid(BadTarget));
        }
        parent := request.entries[parent.value].parent;
      }
    }
    return Ok(());
  }

  // ----- what assembly establishes -----

  ghost predicate Assembled(request: CompiledRequest, root: Block) {
    && request.name == root.name
    && IsTable(request.entries, Nested(root))
    && Indexed(request.entries, request.paths)
    && Clean(request.entries)
    && WellFormed(request) && Forward(request.entries)
    && (forall i: nat :: ReferencesOk(request, i))
    && exists groups :: GroupsMatch(request, groups) && request.caseSeq == BuildCaseSeq(request.entries, groups, 0)
  }

  lemma {:induction false} TableWellFormed(request: CompiledRequest, root: Node)
    requires IsTable(request.entries, root) && Indexed(request.entries, request.paths)
    ensures WellFormed(request) && Forward(request.entries)
  {
    forall i: nat ensures EntryOk(request, i) && ForwardAt(request.entries, i) {
      if i < |request.entries| {
        ParentBefore(request.entries, root, i);
        if request.entries[i].kind.Container? {
          forall n | 0 <= n < |request.entries[i].kind.children|
            ensures i < request.entries[i].kind.children[n] < |request.entries|
          {
            ChildRange(request.entries, root, i, n);
          }
        }
      }
    }
  }

  /** The entries and paths of a definition, whatever else the request holds. */
  ghost predicate TableFor(request: CompiledRequest, root: Block) {
    IsTable(request.entries, Nested(root)) && Indexed(request.entries, request.paths) && WellFormed(request)
  }

  /** All groups and references of a table resolve as they must. */
  ghost predicate ReferencesHold(request: CompiledRequest)
    requires WellFormed(request)
  {
    (forall i: nat :: GroupOk(request, i)) && (forall i: nat :: ReferencesOk(request, i))
  }

  /** A definition has only one table. */
  lemma {:induction false} TableIsUnique(a: CompiledRequest, b: CompiledRequest, root: Block)
    requires TableFor(a, root) && TableFor(b, root)
    ensures a.entries == b.entries && a.paths == b.paths
  {
    forall j | 0 <= j < |a.entries| ensures a.entries[j] == b.entries[j] {
      Located(a.entries, Nested(root), "", None, 0, j);
      Located(b.entries, Nested(root), "", None, 0, j);
    }
    assert a.entries == b.entries;
    assert a.paths.Keys == b.paths.Keys;
  }

  /** Build the table, resolve groups, and check all references; a rejection is backed by what is wrong. */
  method Assemble(root: Block, maxBytes: Int32) returns (r: Result<CompiledRequest>)
    ensures r.Ok? ==> Assembled(r.value, root) && r.value.maxBytes == maxBytes && Formed(Nested(root), "", 0, {})
    ensures r.Ok? ==> ReferencesHold(r.value)
    ensures r.Err? ==>
      || maxBytes < 0
      || !Formed(Nested(root), "", 0, {})
      || exists bare :: TableFor(bare, root) && !ReferencesHold(bare)
  {
    if maxBytes < 0 {
      return Err(Invalid(NegativeArgument));
    }
    var table := new Table();
    var added := table.AddNode(Nested(root), "", None, 0);
    if added.Err? {
      return Err(added.error);
    }
    var bare := CompiledRequest(root.name, table.entries, table.paths, maxBytes, Sequence([]));
    TableWellFormed(bare, Nested(root));
    assert TableFor(bare, root);
    var groups :- ResolveGroups(bare);
    var request := bare.(caseSeq := BuildCaseSeq(bare.entries, groups, 0));
    TableWellFormed(request, Nested(root));
    assert GroupsMatch(request, groups);
    assert TableFor(request, root);
    assert forall i: nat :: GroupOk(request, i) by {
      forall i: nat ensures GroupOk(request, i) {
        assert GroupOk(bare, i);
      }
    }
    var checked := CheckAllReferences(request);
    if checked.Err? {
      return Err(checked.error);
    }
    return Ok(request);
  }

  method CheckAllReferences(request: CompiledRequest) returns (r: Result<()>)
    requires WellFormed(request) && Indexed(request.entries, request.paths)
    ensures r.Ok? <==> forall i: nat :: ReferencesOk(request, i)
  {
    for i := 0 to |request.entries|
      invariant forall k: nat :: k < i ==> ReferencesOk(request, k)
    {
      r := CheckReferences(request, i);
      if r.Err? {
        return;
      }
    }
    return Ok(());
  }

  /** Preorder position turned into a rank: the subtree's end first, then its size. */
  ghost function LayoutRank(root: Node, j: nat): nat
    requires j < NodeSize(root)
  {
    EndOf(root, j) * (NodeSize(root) + 1) + NodeSize(Locate(root, "", None, 0, j).node)
  }

  lemma {:induction false} RankOrder(a: nat, x: nat, b: nat, y: nat, n: nat)
    requires x <= n && y <= n
    requires a < b || (a == b && x < y)
    ensures a * (n + 1) + x < b * (n + 1) + y
  {
    if a < b {
      assert (a + 1) * (n + 1) <= b * (n + 1);
    }
  }

  /** A child's subtree ends no later than its block's and is smaller; a repeated block ends before its repetition. */
  lemma {:induction false} EdgeOrder(request: CompiledRequest, root: Block, i: nat, j: nat)
    requires Assembled(request, root)
    requires i < |request.entries| && j < |request.entries| && StructuralEdge(request, i, j)
    ensures EndOf(Nested(root), j) < EndOf(Nested(root), i)
         || (EndOf(Nested(root), j) == EndOf(Nested(root), i) && i < j)
  {
    var node, entries := Nested(root), request.entries;
    match entries[i].kind
    case Container(children) =>
      var n :| 0 <= n < |children| && children[n] == j;
      ChildRange(entries, node, i, n);
      SubtreeRange(entries, node, i, j);
    case Repetition(path, _, _, _, _) =>
      assert ReferencesOk(request, i);
      if i < EndOf(node, j) {
        SubtreeRange(entries, node, j, i);
      }
  }

  lemma {:induction false} LayoutRankDescends(request: CompiledRequest, root: Block, i: nat, j: nat)
    requires Assembled(request, root)
    requires i < |request.entries| && j < |request.entries| && StructuralEdge(request, i, j)
    ensures LayoutRank(Nested(root), j) < LayoutRank(Nested(root), i)
  {
    var node := Nested(root);
    EdgeOrder(request, root, i, j);
    LocateFits(node, "", None, 0, i);
    LocateFits(node, "", None, 0, j);
    RankOrder(EndOf(node, j), NodeSize(Locate(node, "", None, 0, j).node),
              EndOf(node, i), NodeSize(Locate(node, "", None, 0, i).node), NodeSize(node));
  }

  /** In every assembled table, containment and repetition are well-founded, so rendering ends. */
  lemma {:induction false} AssembledIsStructured(request: CompiledRequest, root: Block)
    requires Assembled(request, root)
    ensures Structured(request)
  {
    var node := Nested(root);
    var rank := seq(|request.entries|, j requires 0 <= j < |request.entries| => LayoutRank(node, j));
    forall i: nat, j: nat ensures Descends(request, rank, i, j) {
      if i < |rank| && j < |rank| && StructuralEdge(request, i, j) {
        LayoutRankDescends(request, root, i, j);
      }
    }
    assert IsStructuralRank(request, rank);
  }

  // ----- dependency checks -----

  ghost predicate EdgesExact(request: CompiledRequest, derived: Derived, edges: Graph, c: nat)
    requires Structured(request)
  {
    c < |edges| ==> forall d: nat :: d in edges[c] <==> DependsOn(request, derived, c, d)
  }

  /** An ascii size is not contained in its own target. */
  ghost predicate NoSelfAscii(request: CompiledRequest, i: nat)
    requires Structured(request)
  {
    Wanted(request, SizeFields, i) && request.entries[i].kind.size.ascii &&
      request.entries[i].kind.size.target in request.paths ==>
      !Reaches(request, SizeFields, request.paths[request.entries[i].kind.size.target], i)
  }

  /**
   A computed field targets a block; it lies inside that block if the block's content contains it, and is then
   not an ascii size.
   */
  ghost predicate FieldOk(request: CompiledRequest, derived: Derived, i: nat)
    requires Structured(request)
  {
    Wanted(request, derived, i) ==>
      var path := TargetOf(request, derived, i);
      && path in request.paths
      && request.entries[request.paths[path]].kind.Container?
      && (Reaches(request, derived, request.paths[path], i) ==>
            path + "." <= request.entries[i].path && (derived.SizeFields? ==> !request.entries[i].kind.size.ascii))
  }

  /** The dependencies of one computed field, with the self-containment rules. */
  method FieldEdges(request: CompiledRequest, derived: Derived, i: nat) returns (r: Result<seq<nat>>)
    requires Structured(request) && RepeatsResolve(request) && Wanted(request, derived, i)
    ensures r.Ok? <==> FieldOk(request, derived, i)
    ensures r.Ok? ==>
      && (forall d: nat :: d in r.value <==> DependsOn(request, derived, i, d))
      && (derived.SizeFields? ==> NoSelfAscii(request, i))
    ensures r.Err? ==> r.error != Invalid(DependencyCycle)
  {
    var path := TargetOf(request, derived, i);
    var target :- request.Resolve(path);
    if !request.entries[target].kind.Container? {
      return Err(Invalid(BadTarget));
    }
    var visited := new bool[|request.entries|](_ => false);
    assert forall v: nat :: CollectedAt(request, derived, visited[..], [], StructuralRank(request)[target], v);
    var dependencies := CollectDependencies(request, derived, target, [], visited);
    var edges: seq<nat> := [];
    for k := 0 to |dependencies|
      invariant forall d :: d in edges <==> d in dependencies[..k] && d != i
      invariant i in dependencies[..k] ==>
        path + "." <= request.entries[i].path && (derived.SizeFields? ==> !request.entries[i].kind.size.ascii)
    {
      assert dependencies[..k + 1] == dependencies[..k] + [dependencies[k]];
      if dependencies[k] != i {
        edges := edges + [dependencies[k]];
      } else {
        if derived.SizeFields? && request.entries[i].kind.size.ascii {
          return Err(Invalid(IndirectSelf));
        }
        if !(path + "." <= request.entries[i].path) {
          return Err(Invalid(IndirectSelf));
        }
      }
    }
    assert dependencies[..|dependencies|] == dependencies;
    return Ok(edges);
  }

  lemma {:induction false} EdgesAreDependencies(request: CompiledRequest, derived: Derived, edges: Graph)
    requires Structured(request) && |edges| == |request.entries|
    requires forall c: nat :: EdgesExact(request, derived, edges, c)
    ensures GraphOk(edges)
    ensures forall rank: seq<nat> :: IsRank(edges, rank) <==> IsDependencyRank(request, derived, rank)
  {
    forall c: nat ensures EdgesInRange(edges, c) {
      if c < |edges| {
        forall k | 0 <= k < |edges[c]| ensures edges[c][k] < |edges| {
          assert EdgesExact(request, derived, edges, c) && edges[c][k] in edges[c];
          ReachedIsWanted(request, derived, request.paths[TargetOf(request, derived, c)], edges[c][k]);
        }
      }
    }
    forall c: nat, d: nat ensures Edge(edges, c, d) <==> DependsOn(request, derived, c, d) {
      assert EdgesExact(request, derived, edges, c);
    }
    forall rank: seq<nat> ensures IsRank(edges, rank) <==> IsDependencyRank(request, derived, rank) {
      if IsRank(edges, rank) {
        forall c: nat, d: nat ensures DependencyDescends(request, derived, rank, c, d) {
          assert Lowers(edges, rank, c, d);
        }
      }
      if IsDependencyRank(request, derived, rank) {
        forall c: nat, d: nat ensures Lowers(edges, rank, c, d) {
          assert DependencyDescends(request, derived, rank, c, d);
        }
      }
    }
  }

  /** More than 257 computed fields, each depending on the next. */
  ghost predicate LongChain(request: CompiledRequest, derived: Derived)
    requires Structured(request)
  {
    exists chain: seq<nat> :: |chain| > 257 && IsChain(request, derived, chain)
  }

  /** The reasons to reject the dependencies of a table. */
  ghost predicate DependenciesFaulty(request: CompiledRequest, derived: Derived)
    requires Structured(request)
  {
    || !AcyclicDependencies(request, derived)
    || LongChain(request, derived)
    || exists i: nat :: !FieldOk(request, derived, i)
  }

  ghost predicate IsChain(request: CompiledRequest, derived: Derived, chain: seq<nat>)
    requires Structured(request)
  {
    forall k :: 0 <= k < |chain| - 1 ==> DependsOn(request, derived, chain[k], chain[k + 1])
  }

  lemma {:induction false} LongWalkIsChain(request: CompiledRequest, derived: Derived, edges: Graph)
    requires Structured(request) && |edges| == |request.entries| && HasLongWalk(edges)
    requires forall c: nat :: EdgesExact(request, derived, edges, c)
    ensures LongChain(request, derived)
  {
    var walk :| IsWalk(edges, walk) && |walk| > 257;
    forall k | 0 <= k < |walk| - 1 ensures DependsOn(request, derived, walk[k], walk[k + 1]) {
      assert Edge(edges, walk[k], walk[k + 1]) && EdgesExact(request, derived, edges, walk[k]);
    }
    assert IsChain(request, derived, walk);
  }

  /** Accepted dependencies are acyclic, and a rejection for a cycle means they are not. */
  method ValidateDependencies(request: CompiledRequest, derived: Derived) returns (r: Result<()>)
    requires Structured(request) && RepeatsResolve(request)
    ensures r.Ok? ==> AcyclicDependencies(request, derived) && forall i: nat :: FieldOk(request, derived, i)
    ensures r.Err? ==> DependenciesFaulty(request, derived)
    ensures r.Ok? && derived.SizeFields? ==> forall i: nat :: NoSelfAscii(request, i)
    ensures r == Err(Invalid(DependencyCycle)) ==> !AcyclicDependencies(request, derived)
  {
    var edges: Graph := [];
    for i := 0 to |request.entries|
      invariant |edges| == i
      invariant forall c: nat :: EdgesExact(request, derived, edges, c)
      invariant derived.SizeFields? ==> forall k: nat :: k < i ==> NoSelfAscii(request, k)
      invariant forall k: nat :: k < i ==> FieldOk(request, derived, k)
    {
      var own: seq<nat> := [];
      if Wanted(request, derived, i) {
        var found := FieldEdges(request, derived, i);
        if found.Err? {
          assert !FieldOk(request, derived, i);
          return Err(found.error);
        }
        own := found.value;
      }
      ghost var before := edges;
      edges := edges + [own];
      forall c: nat ensures EdgesExact(request, derived, edges, c) {
        assert EdgesExact(request, derived, before, c);
      }
    }
    EdgesAreDependencies(request, derived, edges);
    r := RejectCycles(edges);
    if r.Ok? {
      ghost var rank :| IsRank(edges, rank);
      assert IsDependencyRank(request, derived, rank);
    } else if AcyclicDependencies(request, derived) {
      ghost var rank :| IsDependencyRank(request, derived, rank);
      RankExcludesCycles(edges, rank);
      LongWalkIsChain(request, derived, edges);
    }
  }
}
