/** The full compiler, its termination without mirrors, and what holds of every compiled request. */
module CompiledRequests {
  import opened Wrappers
  import opened CaseSequences
  import opened Combinations
  import opened Model
  import opened Layout
  import opened Assembly
  import opened Rendering
  import opened Measuring
  import opened Dependencies
  import opened DependencyCheck
  import opened Compilation

  // ----- definitions without mirrors -----

  predicate NoMirrors(node: Node)
    decreases node, 1
  {
    match node
    case Mirrored(_, _) => false
    case Nested(block) => NoMirrorsIn(block.children)
    case _ => true
  }

  predicate NoMirrorsIn(nodes: seq<Node>)
    decreases nodes, 0
  {
    nodes != [] ==> NoMirrors(nodes[0]) && NoMirrorsIn(nodes[1..])
  }

  lemma {:induction false} LocatedNoMirror(node: Node, prefix: string, parent: Option<nat>, base: nat, j: nat)
    requires NoMirrors(node) && base <= j < base + NodeSize(node)
    ensures NoMirrors(Locate(node, prefix, parent, base, j).node)
    decreases node, 1
  {
    if j > base {
      LocatedNoMirrorIn(node.block.children, PathOf(prefix, node.block.name), base, base + 1, j);
    }
  }

  lemma {:induction false} LocatedNoMirrorIn(nodes: seq<Node>, path: string, parent: nat, base: nat, j: nat)
    requires NoMirrorsIn(nodes) && base <= j < base + NodesSize(nodes)
    ensures NoMirrors(LocateAmong(nodes, path, parent, base, j).node)
    decreases nodes, 0
  {
    if j < base + NodeSize(nodes[0]) {
      LocatedNoMirror(nodes[0], path, Some(parent), base, j);
    } else {
      LocatedNoMirrorIn(nodes[1..], path, parent, base + NodeSize(nodes[0]), j);
    }
  }

  lemma {:induction false} NoMirrorsMeansMirrorFree(request: CompiledRequest, root: Node)
    requires IsTable(request.entries, root) && NoMirrors(root)
    ensures MirrorFree(request)
  {
    forall i: nat ensures !IsMirror(request, i) {
      if i < |request.entries| {
        Located(request.entries, root, "", None, 0, i);
        LocatedNoMirror(root, "", None, 0, i);
      }
    }
  }

  // ----- measuring ends on every compiled request without mirrors -----

  /** One more than the highest rank of a size field that `i` contains. */
  ghost function Level(request: CompiledRequest, sizes: seq<nat>, i: nat): nat
    requires Structured(request) && |sizes| == |request.entries| && i < |request.entries|
    decreases StructuralRank(request)[i], 1, 0
  {
    match request.entries[i].kind
    case ComputedSize(_) => sizes[i] + 1
    case Container(children) =>
      assert EntryOk(request, i);
      LevelOfChildren(request, sizes, i, 0)
    case Repetition(path, _, _, _, _) =>
      if path in request.paths then
        assert Descends(request, StructuralRank(request), i, request.paths[path]);
        Level(request, sizes, request.paths[path])
      else 0
    case _ => 0
  }

  ghost function LevelOfChildren(request: CompiledRequest, sizes: seq<nat>, i: nat, k: nat): nat
    requires Structured(request) && |sizes| == |request.entries| && i < |request.entries|
    requires request.entries[i].kind.Container? && k <= |request.entries[i].kind.children|
    decreases StructuralRank(request)[i], 0, |request.entries[i].kind.children| - k
  {
    var children := request.entries[i].kind.children;
    if k == |children| then 0
    else
      assert EntryOk(request, i);
      assert Descends(request, StructuralRank(request), i, children[k]);
      var here, rest := Level(request, sizes, children[k]), LevelOfChildren(request, sizes, i, k + 1);
      if here > rest then here else rest
  }

  lemma {:induction false} ChildLevel(request: CompiledRequest, sizes: seq<nat>, i: nat, k: nat, n: nat)
    requires Structured(request) && |sizes| == |request.entries| && i < |request.entries|
    requires request.entries[i].kind.Container? && k <= n < |request.entries[i].kind.children|
    requires request.entries[i].kind.children[n] < |request.entries|
    ensures Level(request, sizes, request.entries[i].kind.children[n]) <= LevelOfChildren(request, sizes, i, k)
    decreases n - k
  {
    if k < n {
      ChildLevel(request, sizes, i, k + 1, n);
    }
  }

  /** The level is bounded by any bound on the contained size fields. */
  lemma {:induction false} LevelBound(request: CompiledRequest, sizes: seq<nat>, i: nat, bound: nat)
    requires Structured(request) && |sizes| == |request.entries| && i < |request.entries|
    requires forall d: nat {:trigger Reaches(request, SizeFields, i, d)} ::
      d < |sizes| && Reaches(request, SizeFields, i, d) ==> sizes[d] < bound
    ensures Level(request, sizes, i) <= bound
    decreases StructuralRank(request)[i], 1, 0
  {
    match request.entries[i].kind
    case ComputedSize(_) => assert Reaches(request, SizeFields, i, i);
    case Container(children) => LevelBoundChildren(request, sizes, i, 0, bound);
    case Repetition(path, _, _, _, _) =>
      if path in request.paths {
        var target := request.paths[path];
        assert Descends(request, StructuralRank(request), i, target);
        forall d: nat | d < |sizes| && Reaches(request, SizeFields, target, d) ensures sizes[d] < bound {
          assert Reaches(request, SizeFields, i, d);
        }
        LevelBound(request, sizes, target, bound);
      }
    case _ =>
  }

  lemma {:induction false} LevelBoundChildren(request: CompiledRequest, sizes: seq<nat>, i: nat, k: nat, bound: nat)
    requires Structured(request) && |sizes| == |request.entries| && i < |request.entries|
    requires request.entries[i].kind.Container? && k <= |request.entries[i].kind.children|
    requires forall d: nat {:trigger Reaches(request, SizeFields, i, d)} ::
      d < |sizes| && Reaches(request, SizeFields, i, d) ==> sizes[d] < bound
    ensures LevelOfChildren(request, sizes, i, k) <= bound
    decreases StructuralRank(request)[i], 0, |request.entries[i].kind.children| - k
  {
    var children := request.entries[i].kind.children;
    if k < |children| {
      assert EntryOk(request, i);
      assert Descends(request, StructuralRank(request), i, children[k]);
      forall d: nat | d < |sizes| && Reaches(request, SizeFields, children[k], d) ensures sizes[d] < bound {
        assert Reaches(request, SizeFields, i, d);
      }
      LevelBound(request, sizes, children[k], bound);
      LevelBoundChildren(request, sizes, i, k + 1, bound);
    }
  }

  function MaxOf(ranks: seq<nat>): (r: nat)
    ensures forall i :: 0 <= i < |ranks| ==> ranks[i] <= r
  {
    if ranks == [] then 0
    else
      var rest := MaxOf(ranks[..|ranks| - 1]);
      var last := ranks[|ranks| - 1];
      if last > rest then last else rest
  }

  /** An edge keeps the level and lowers the structural rank, or lowers the level. */
  lemma {:induction false} MeasureEdgeOrder(request: CompiledRequest, sizes: seq<nat>, i: nat, j: nat)
    requires Structured(request) && MirrorFree(request)
    requires IsDependencyRank(request, SizeFields, sizes) && NoSelfAscii(request, i)
    requires i < |request.entries| && j < |request.entries| && MeasureEdge(request, i, j)
    ensures Level(request, sizes, j) < Level(request, sizes, i)
         || (Level(request, sizes, j) <= Level(request, sizes, i) &&
           StructuralRank(request)[j] < StructuralRank(request)[i])
  {
    assert !IsMirror(request, i);
    assert Descends(request, StructuralRank(request), i, j);
    match request.entries[i].kind
    case Container(children) =>
      var n :| 0 <= n < |children| && children[n] == j;
      ChildLevel(request, sizes, i, 0, n);
    case Repetition(_, _, _, _, _) =>
    case ComputedSize(spec) =>
      forall d: nat | d < |sizes| && Reaches(request, SizeFields, j, d) ensures sizes[d] < sizes[i] {
        assert DependsOn(request, SizeFields, i, d);
        assert DependencyDescends(request, SizeFields, sizes, i, d);
      }
      LevelBound(request, sizes, j, sizes[i]);
  }

  /** Without mirrors, accepted size dependencies make measuring well-founded. */
  lemma {:induction false} GroundedWithoutMirrors(request: CompiledRequest)
    requires Structured(request) && MirrorFree(request)
    requires AcyclicDependencies(request, SizeFields)
    requires forall i: nat :: NoSelfAscii(request, i)
    ensures Grounded(request)
  {
    var sizes :| IsDependencyRank(request, SizeFields, sizes);
    var structural := StructuralRank(request);
    var top, n := MaxOf(structural), |request.entries|;
    var rank := seq(n, i requires 0 <= i < n => Level(request, sizes, i) * (top + 1) + structural[i]);
    forall i: nat, j: nat ensures MeasureDescends(request, rank, i, j) {
      if i < n && j < n && MeasureEdge(request, i, j) {
        assert NoSelfAscii(request, i);
        MeasureEdgeOrder(request, sizes, i, j);
        var a, b := Level(request, sizes, j), Level(request, sizes, i);
        if a < b {
          RankOrder(a, structural[j], b, structural[i], top);
        } else {
          RankOrder(a, structural[j], a, structural[i], top);
        }
      }
    }
    assert IsMeasureRank(request, rank);
  }

  // ----- the compiler -----

  ghost function DefaultScene(request: CompiledRequest, digest: Digest): Scene {
    Scene(request, digest, [], None)
  }

  /** The default value of a size field can be computed. */
  ghost predicate DefaultSizeOk(request: CompiledRequest, digest: Digest, i: nat)
    requires Sound(DefaultScene(request, digest))
  {
    i < |request.entries| && request.entries[i].kind.ComputedSize? ==>
      SizeValue(DefaultScene(request, digest), request.entries[i].kind.size).Ok?
  }

  ghost predicate DefaultsOk(request: CompiledRequest, digest: Digest)
    requires Sound(DefaultScene(request, digest))
  {
    var scene := DefaultScene(request, digest);
    (forall i: nat :: DefaultSizeOk(request, digest, i)) && Render(scene, Sizes(scene), 0, {}).Ok?
  }

  /** Everything compilation guarantees. */
  ghost predicate Compiled(request: CompiledRequest, root: Block, digest: Digest) {
    && Assembled(request, root)
    && Grounded(request)
    && AcyclicDependencies(request, SizeFields)
    && AcyclicDependencies(request, ChecksumFields)
    && (forall i: nat :: FieldOk(request, SizeFields, i) && FieldOk(request, ChecksumFields, i))
    && Sound(DefaultScene(request, digest)) && DefaultsOk(request, digest)
  }

  /** What is wrong with an assembled request that is rejected. */
  ghost predicate Faulty(request: CompiledRequest, digest: Digest) {
    && Structured(request)
    && (|| DependenciesFaulty(request, SizeFields)
        || DependenciesFaulty(request, ChecksumFields)
        || (Sound(DefaultScene(request, digest)) && !DefaultsOk(request, digest)))
  }

  /**
   Measuring the assembled table ends whenever its size dependencies are accepted; otherwise the program
   itself may not return.
   */
  ghost predicate Measurable(root: Block) {
    forall request :: Assembled(request, root) && Structured(request) && SizesAccepted(request) ==> Grounded(request)
  }

  ghost predicate SizesAccepted(request: CompiledRequest)
    requires Structured(request)
  {
    AcyclicDependencies(request, SizeFields) && forall i: nat :: NoSelfAscii(request, i)
  }

  /** Every definition without mirrors is measurable. */
  lemma {:induction false} NoMirrorsMeasurable(root: Block)
    requires NoMirrors(Nested(root))
    ensures Measurable(root)
  {
    forall request | Assembled(request, root) && Structured(request) && SizesAccepted(request)
      ensures Grounded(request)
    {
      NoMirrorsMeansMirrorFree(request, Nested(root));
      GroundedWithoutMirrors(request);
    }
  }

  /** Validate and snapshot a definition; the default sizes and the default payload must render. */
  method Compile(root: Block, maxBytes: Int32, digest: Digest) returns (r: Result<CompiledRequest>)
    requires Measurable(root)
    ensures r.Ok? ==> Compiled(r.value, root, digest) && r.value.maxBytes == maxBytes && Formed(Nested(root), "", 0, {})
    ensures r.Ok? && NoMirrors(Nested(root)) ==> MirrorFree(r.value)
    ensures r.Err? ==>
      || maxBytes < 0
      || !Formed(Nested(root), "", 0, {})
      || (exists bare :: TableFor(bare, root) && !ReferencesHold(bare))
      || (exists request :: Assembled(request, root) && request.maxBytes == maxBytes && Faulty(request, digest))
  {
    var request :- Assemble(root, maxBytes);
    AssembledIsStructured(request, root);
    if NoMirrors(Nested(root)) {
      NoMirrorsMeansMirrorFree(request, Nested(root));
    }
    assert RepeatsResolve(request) by {
      forall i: nat ensures RepeatResolves(request, i) {
        assert ReferencesOk(request, i);
      }
    }
    var checked := CheckFields(request, digest);
    if checked.Err? {
      assert Faulty(request, digest);
      return Err(checked.error);
    }
    return Ok(request);
  }

  /** The checks on computed fields and defaults, after assembly. */
  method CheckFields(request: CompiledRequest, digest: Digest) returns (r: Result<()>)
    requires Structured(request) && RepeatsResolve(request)
    requires SizesAccepted(request) ==> Grounded(request)
    ensures r.Err? ==> Faulty(request, digest)
    ensures r.Ok? ==>
      && Grounded(request) && AcyclicDependencies(request, SizeFields) && AcyclicDependencies(request, ChecksumFields)
      && (forall i: nat :: FieldOk(request, SizeFields, i) && FieldOk(request, ChecksumFields, i))
      && Sound(DefaultScene(request, digest)) && DefaultsOk(request, digest)
  {
    var sizes := ValidateDependencies(request, SizeFields);
    if sizes.Err? {
      return Err(sizes.error);
    }
    var scene := Scene(request, digest, [], None);
    assert forall i: nat :: RepeatReplaced(scene, i);
    for i := 0 to |request.entries|
      invariant forall k: nat :: k < i ==> DefaultSizeOk(request, digest, k)
    {
      if request.entries[i].kind.ComputedSize? {
        var value := ComputeSize(scene, request.entries[i].kind.size);
        if value.Err? {
          assert !DefaultSizeOk(request, digest, i);
          return Err(value.error);
        }
      }
    }
    var checksums := ValidateDependencies(request, ChecksumFields);
    if checksums.Err? {
      return Err(checksums.error);
    }
    var payload := RenderNode(scene, Sizes(scene), 0, {});
    if payload.Err? {
      return Err(payload.error);
    }
    return Ok(());
  }

  /** A table without fields of a kind has nothing to check about them. */
  lemma {:induction false} NothingWanted(request: CompiledRequest, derived: Derived)
    requires Structured(request) && forall i: nat :: !Wanted(request, derived, i)
    ensures AcyclicDependencies(request, derived) && !LongChain(request, derived)
    ensures forall i: nat :: FieldOk(request, derived, i)
  {
    var rank := seq(|request.entries|, _ => 0);
    forall c: nat, d: nat ensures DependencyDescends(request, derived, rank, c, d) {
      assert !Wanted(request, derived, c);
    }
    assert IsDependencyRank(request, derived, rank);
    forall chain: seq<nat> | |chain| > 257 ensures !IsChain(request, derived, chain) {
      assert !Wanted(request, derived, chain[0]);
      assert !DependsOn(request, derived, chain[0], chain[0 + 1]);
    }
  }

  // ----- consequences for the case sequence -----

  /** For every assembled request, the raw position of an entry is found by the prefix walk. */
  lemma {:induction false} AssembledReplays(request: CompiledRequest, root: Block)
    requires Assembled(request, root)
    ensures Replays(Counts(request), request.caseSeq)
  {
    var groups :| GroupsMatch(request, groups) && request.caseSeq == BuildCaseSeq(request.entries, groups, 0);
    BuiltSeqReplays(request.entries, groups, 0);
  }

  ghost predicate NoGroups(request: CompiledRequest) {
    forall i :: 0 <= i < |request.entries| ==> request.entries[i].group.None?
  }

  /** Without grouped blocks, the units of an assembled request are its mutating entries in table order. */
  lemma {:induction false} AssembledUngrouped(request: CompiledRequest, root: Block)
    requires Assembled(request, root) && NoGroups(request)
    ensures Ungrouped(Units(Counts(request), request.caseSeq, []), Counts(request),
                      Mutating(request.entries, 0, |request.entries|))
  {
    var groups :| GroupsMatch(request, groups) && request.caseSeq == BuildCaseSeq(request.entries, groups, 0);
    assert groups == map[] by {
      assert forall i :: i !in groups;
    }
    PlacedIsShaped(request.entries, Nested(root), "", None, 0);
    SubtreePlains(request.entries, Nested(root), 0);
    UngroupedUnits(request.entries, request.caseSeq);
  }

  /**
   In every assembled request without grouped blocks, the combinatorial walk at depth d emits exactly the
   increasing d-tuples of mutating entries with all candidates and unrelated paths, in lexicographic order.
   */
  lemma {:induction false} UngroupedCombinations(request: CompiledRequest, root: Block, depth: nat)
    requires Assembled(request, root) && NoGroups(request) && depth > 0
    ensures var mutating := Mutating(request.entries, 0, |request.entries|);
            var emitted := AtDepth(Units(Counts(request), request.caseSeq, []), PathsOf(request), depth);
            && LexSorted(emitted)
            && forall x :: x in emitted <==>
              IsTuple(Counts(request), mutating, depth, x) && Unrelated(PathsOf(request), x)
  {
    AssembledUngrouped(request, root);
    UngroupedWalk(Units(Counts(request), request.caseSeq, []), PathsOf(request), Counts(request),
                  Mutating(request.entries, 0, |request.entries|), depth);
  }
}
