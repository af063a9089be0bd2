/**
 Definitions on which the program does not do what one might expect, with the tables they assemble to:
 two nested blocks that share a group lying inside both of them, whose cases repeat and are replayed
 with another payload, and a size field that is wrong after a mutation.
 */
module Witnesses {
  import opened Wrappers
  import opened Integers
  import opened CaseSequences
  import opened Combinations
  import opened Model
  import opened Layout
  import opened Assembly
  import opened Rendering
  import opened Measuring
  import opened Dependencies
  import opened Compilation
  import opened CompiledRequests
  import opened CaseBuilding
  import opened CaseStreams
  import opened RequestStreams
  import opened Replay
  import opened DistinctCases
  import opened GroupedParts

  // ----- two nested blocks that share a group inside them -----

  const TWIN_FIELD := Field([0], [[1], [2]])

  function InnerBlock(): Block {
    Block("b", [Leaf("e", TWIN_FIELD)], None, None, Some("a.b.e"))
  }

  function TwinBlock(): Block {
    Block("a", [Nested(InnerBlock())], None, None, Some("a.b.e"))
  }

  function TwinEntries(): (entries: seq<Entry>)
    ensures |entries| == 3
  {
    [Entry("a", None, Container([1]), None, None, Some("a.b.e")),
     Entry("a.b", Some(0), Container([2]), None, None, Some("a.b.e")),
     Entry("a.b.e", Some(1), Atom(TWIN_FIELD), None, None, None)]
  }

  function TwinInner(): CaseSeq {
    Sequence([Sequence([Plain(2)]), Product(2, Sequence([Plain(2)]))])
  }

  function TwinSeq(): CaseSeq {
    Sequence([Sequence([TwinInner()]), Product(2, Sequence([TwinInner()]))])
  }

  function TwinRequest(): CompiledRequest {
    CompiledRequest("a", TwinEntries(), map["a" := 0, "a.b" := 1, "a.b.e" := 2], 1048576, TwinSeq())
  }

  lemma {:induction false} TwinPlaced()
    ensures IsTable(TwinEntries(), Nested(TwinBlock()))
  {
    var leaf, inner, entries := Leaf("e", TWIN_FIELD), Nested(InnerBlock()), TwinEntries();
    assert NodesSize([leaf]) == NodeSize(leaf) + NodesSize([leaf][1..]) == 1;
    assert NodeSize(inner) == 2;
    assert NodesSize([inner]) == NodeSize(inner) + NodesSize([inner][1..]) == 2;
    assert PathOf("a", "b") == "a.b" && PathOf("a.b", "e") == "a.b.e";
    assert Indices([leaf], 2) == [2] + Indices([leaf][1..], 3) == [2];
    assert Indices([inner], 1) == [1] + Indices([inner][1..], 3) == [1];
    assert Placed(entries, leaf, "a.b", Some(1), 2);
    assert PlacedAll(entries, [leaf], "a.b", 1, 2);
    assert Placed(entries, inner, "a", Some(0), 1);
    assert PlacedAll(entries, [inner], "a", 0, 1);
  }

  lemma {:induction false} TwinIndexed()
    ensures Indexed(TwinEntries(), TwinRequest().paths) && Clean(TwinEntries())
    ensures WellFormed(TwinRequest()) && Forward(TwinEntries())
  {
    TwinPlaced();
    var entries, paths := TwinEntries(), TwinRequest().paths;
    assert entries[0].path == "a" && entries[1].path == "a.b" && entries[2].path == "a.b.e";
    forall path <- paths ensures paths[path] < 3 && entries[paths[path]].path == path {
    }
    TableWellFormed(TwinRequest(), Nested(TwinBlock()));
  }

  /** The table is what the definition assembles to. */
  lemma {:induction false} TwinAssembled()
    ensures Assembled(TwinRequest(), TwinBlock())
  {
    TwinPlaced();
    TwinIndexed();
    var request, groups := TwinRequest(), map[0 := 2, 1 := 2];
    forall i: nat ensures ReferencesOk(request, i) {
    }
    assert GroupsMatch(request, groups);
    TwinBuilt();
  }

  lemma {:induction false} TwinBuilt()
    requires Forward(TwinEntries())
    ensures BuildCaseSeq(TwinEntries(), map[0 := 2, 1 := 2], 0) == TwinSeq()
  {
    var entries, groups := TwinEntries(), map[0 := 2, 1 := 2];
    assert ForwardAt(entries, 0) && ForwardAt(entries, 1);
    assert BuildCaseSeq(entries, groups, 2) == Plain(2);
    assert BuildAll(entries, groups, 1, [2]) == [Plain(2)] + BuildAll(entries, groups, 1, [2][1..]) == [Plain(2)];
    assert BuildCaseSeq(entries, groups, 1) == TwinInner();
    assert BuildAll(entries, groups, 0, [1]) == [TwinInner()] + BuildAll(entries, groups, 0, [1][1..]) == [TwinInner()];
  }

  lemma {:induction false} TwinRanked()
    ensures IsMeasureRank(TwinRequest(), [2, 1, 0])
  {
    var request, rank := TwinRequest(), [2, 1, 0];
    forall i: nat, j: nat ensures MeasureDescends(request, rank, i, j) {
      if i < 3 && MeasureEdge(request, i, j) {
        assert i == 0 ==> j == 1;
        assert i == 1 ==> j == 2;
      }
    }
  }

  lemma {:induction false} TwinGrounded()
    ensures Grounded(TwinRequest())
  {
    TwinAssembled();
    AssembledIsStructured(TwinRequest(), TwinBlock());
    TwinRanked();
  }

  /** Two nested blocks with one group: the ids of the sequential stream are not distinct. */
  lemma {:induction false} TwinIdsRepeat()
    ensures Assembled(TwinRequest(), TwinBlock()) && !IdsDistinct(TwinRequest())
  {
    TwinAssembled();
    SequentialIds(TwinRequest(), TwinBlock());
    TwinShared();
  }

  lemma {:induction false} TwinShared()
    ensures !Unshared(Counts(TwinRequest()), TwinSeq())
  {
    var counts := Counts(TwinRequest());
    var plain: CaseSeq := Plain(2);
    var inner := Sequence([plain]);
    assert CountAt(counts, 2) == 2;
    assert ListsOfAll(counts, [plain]) == Lists(counts, plain) + ListsOfAll(counts, [plain][1..]);
    assert Lists(counts, inner) == ListsOfAll(counts, [plain]) && Lists(counts, plain) != [];
    PairLists(counts, [inner, Product(2, inner)]);
    assert 2 in Live(counts, TwinInner());
    assert LiveOfAll(counts, [TwinInner()]) == Live(counts, TwinInner()) + LiveOfAll(counts, [TwinInner()][1..]);
    assert Live(counts, Sequence([TwinInner()])) == LiveOfAll(counts, [TwinInner()]);
  }

  // ----- a case that is replayed differently -----

  /** The outer pass with candidate 0, the inner pass with candidate 1, and the field itself at candidate 0. */
  function TwinParts(): Parts {
    [(2, 0), (2, 1), (2, 0)]
  }

  lemma {:induction false} TwinEnumerated()
    ensures TwinParts() in SequentialParts(TwinRequest())
  {
    var counts := Counts(TwinRequest());
    var plain: CaseSeq := Plain(2);
    var inner, body := Sequence([plain]), Sequence([TwinInner()]);
    assert CountAt(counts, 2) == 2;
    assert Singles(2, 0, 2)[0] == [(2, 0)];
    assert ListsOfAll(counts, [plain]) == Lists(counts, plain) + ListsOfAll(counts, [plain][1..]);
    assert [(2, 0)] in Lists(counts, inner);
    PairLists(counts, [inner, Product(2, inner)]);
    assert [(2, 1), (2, 0)][1..] == [(2, 0)];
    HeadedMembers(2, 0, 2, Lists(counts, inner), [(2, 1), (2, 0)]);
    assert [(2, 1), (2, 0)] in Lists(counts, TwinInner());
    assert ListsOfAll(counts, [TwinInner()]) == Lists(counts, TwinInner()) + ListsOfAll(counts, [TwinInner()][1..]);
    assert [(2, 1), (2, 0)] in Lists(counts, body);
    PairLists(counts, [body, Product(2, body)]);
    assert TwinParts()[1..] == [(2, 1), (2, 0)];
    HeadedMembers(2, 0, 2, Lists(counts, body), TwinParts());
    UnitsCarryLists(counts, TwinSeq(), []);
    BehindNothing(Lists(counts, TwinSeq()));
  }

  /** What the twin table renders to. */
  lemma {:induction false} TwinRenders(scene: Scene, size: SizeRenderer, value: Bytes)
    requires Ready(scene) && scene.request == TwinRequest() && |value| <= 1048576
    requires Lookup(scene.replacements, 0).None? && Lookup(scene.replacements, 1).None?
    requires value == match Lookup(scene.replacements, 2) case Some(replaced) => replaced case None => TWIN_FIELD.value
    ensures Render(scene, size, 0, {}) == Ok(value)
  {
    assert Visible(scene, 0) == Ok(true) && Visible(scene, 1) == Ok(true) && Visible(scene, 2) == Ok(true);
    var token := Token(2, value);
    FlattenOne(token);
    assert [] + [token] == [token] && Flatten([]) == [];
    assert Emit(scene, size, 2, {}) == Ok([token]);
    assert EmitChildren(scene, size, 1, 1, {}, [token]) == Ok([token]);
    assert EmitChildren(scene, size, 1, 0, {}, []) == EmitChildren(scene, size, 1, 1, {}, [token]);
    assert Emit(scene, size, 1, {}) == Ok([token]);
    assert EmitChildren(scene, size, 0, 1, {}, [token]) == Ok([token]);
    assert EmitChildren(scene, size, 0, 0, {}, []) == EmitChildren(scene, size, 0, 1, {}, [token]);
  }

  /** The definition compiles to the table. */
  lemma {:induction false} TwinCompiled(digest: Digest)
    ensures Compiled(TwinRequest(), TwinBlock(), digest)
  {
    var request := TwinRequest();
    TwinAssembled();
    TwinGrounded();
    TwinWantsNothing(SizeFields);
    TwinWantsNothing(ChecksumFields);
    TwinDefaults(digest);
  }

  lemma {:induction false} TwinWantsNothing(derived: Derived)
    requires Structured(TwinRequest())
    ensures AcyclicDependencies(TwinRequest(), derived) && forall i: nat :: FieldOk(TwinRequest(), derived, i)
  {
    assert forall i: nat :: !Wanted(TwinRequest(), derived, i);
    NothingWanted(TwinRequest(), derived);
  }

  lemma {:induction false} TwinDefaults(digest: Digest)
    requires Grounded(TwinRequest())
    ensures Sound(DefaultScene(TwinRequest(), digest)) && DefaultsOk(TwinRequest(), digest)
  {
    var scene := DefaultScene(TwinRequest(), digest);
    assert forall i: nat :: RepeatReplaced(scene, i);
    TwinRenders(scene, Sizes(scene), TWIN_FIELD.value);
    assert forall i: nat :: DefaultSizeOk(TwinRequest(), digest, i);
  }

  function TwinPlan(digest: Digest): Plan {
    Plan(TwinRequest(), digest, None)
  }

  lemma {:induction false} TwinPlanOk(digest: Digest)
    ensures PlanOk(TwinPlan(digest)) && Indexed(TwinRequest().entries, TwinRequest().paths)
    ensures PartsOk(TwinRequest(), TwinParts()) && PartsOk(TwinRequest(), [(2, 1), (2, 0)])
  {
    TwinGrounded();
    TwinIndexed();
  }

  /** The scene of parts that all name the field renders to the candidate of the first. */
  lemma {:induction false} TwinScene(digest: Digest, parts: Parts)
    requires PlanOk(TwinPlan(digest)) && PartsOk(TwinRequest(), parts) && forall part <- parts :: part.0 == 2
    ensures Render(SceneOf(TwinPlan(digest), parts), Sizes(SceneOf(TwinPlan(digest), parts)), 0, {})
         == Ok(TWIN_FIELD.candidates[parts[0].1])
  {
    var scene := SceneOf(TwinPlan(digest), parts);
    assert AllOk(TwinRequest(), parts);
    LookupTwin(TwinRequest(), parts);
    assert PartOk(TwinRequest(), parts[0]) && parts[0] in parts;
    TwinRenders(scene, Sizes(scene), TWIN_FIELD.candidates[parts[0].1]);
  }

  lemma {:induction false} TwinEmitted(digest: Digest, ordinal: nat)
    requires PlanOk(TwinPlan(digest)) && PartsOk(TwinRequest(), TwinParts())
    ensures CaseAt(TwinPlan(digest), TwinParts(), ordinal).Ok?
    ensures CaseAt(TwinPlan(digest), TwinParts(), ordinal).value.payload == [1]
  {
    TwinScene(digest, TwinParts());
  }

  lemma {:induction false} TwinReplayed(digest: Digest, pairs: seq<(string, nat)>)
    requires PlanOk(TwinPlan(digest)) && PartsOk(TwinRequest(), [(2, 1), (2, 0)])
    requires PairsOk(TwinRequest(), pairs) && ResolvePairs(TwinRequest(), pairs) == Ok([(2, 1), (2, 0)])
    ensures ReplayPayload(TwinPlan(digest), pairs) == Ok([2])
  {
    TwinScene(digest, [(2, 1), (2, 0)]);
  }

  /**
   The definition compiles; the case is enumerated, emitted with the first candidate, and replayed with the
   second.
   */
  lemma {:induction false} TwinReplayDiffers(digest: Digest, ordinal: nat)
    ensures Compiled(TwinRequest(), TwinBlock(), digest) && TwinParts() in SequentialParts(TwinRequest())
    ensures PlanOk(TwinPlan(digest)) && PartsOk(TwinRequest(), TwinParts()) &&
      CaseAt(TwinPlan(digest), TwinParts(), ordinal).Ok?
    ensures var found := CaseAt(TwinPlan(digest), TwinParts(), ordinal).value;
            && found.payload == [1]
            && PairsOk(TwinRequest(), found.Parts())
            && ReplayPayload(TwinPlan(digest), found.Parts()) == Ok([2])
  {
    TwinCompiled(digest);
    TwinEnumerated();
    TwinPlanOk(digest);
    TwinEmitted(digest, ordinal);
    CasePairsResolve(TwinPlan(digest), TwinParts(), ordinal);
    TwinDropped();
    TwinReplayed(digest, CaseAt(TwinPlan(digest), TwinParts(), ordinal).value.Parts());
  }

  lemma {:induction false} TwinDropped()
    ensures TwinParts()[..2] == [(2, 0), (2, 1)] && Without([(2, 0), (2, 1)], (2, 0)) + [(2, 0)] == [(2, 1), (2, 0)]
  {
    var leaf: Part := (2, 0);
    var one: Parts := [(2, 1)];
    assert one[1..] == [] && Without(one, leaf) == one + Without([], leaf) == one;
    var front: Parts := [(2, 0), (2, 1)];
    assert front[1..] == one && Without(front, leaf) == [] + Without(one, leaf);
  }

  lemma {:induction false} LookupTwin(request: CompiledRequest, parts: Parts)
    requires AllOk(request, parts) && parts != [] && forall part <- parts :: part.0 == 2
    ensures Lookup(ReplacementsOf(request, parts), 0).None? && Lookup(ReplacementsOf(request, parts), 1).None?
    ensures Lookup(ReplacementsOf(request, parts), 2) == Some(CandidateOf(request, parts[0]))
  {
    assert parts[0] in parts;
    LookupFirst(request, parts, 0);
    LookupFirst(request, parts, 1);
    LookupFirst(request, parts, 2);
  }

  // ----- a block multiplied by its own field -----

  function SelfBlock(): Block {
    Block("a", [Leaf("e", TWIN_FIELD)], None, None, Some("a.e"))
  }

  function SelfEntries(): (entries: seq<Entry>)
    ensures |entries| == 2
  {
    [Entry("a", None, Container([1]), None, None, Some("a.e")),
     Entry("a.e", Some(0), Atom(TWIN_FIELD), None, None, None)]
  }

  function SelfSeq(): CaseSeq {
    Sequence([Sequence([Plain(1)]), Product(1, Sequence([Plain(1)]))])
  }

  function SelfRequest(): CompiledRequest {
    CompiledRequest("a", SelfEntries(), map["a" := 0, "a.e" := 1], 1048576, SelfSeq())
  }

  lemma {:induction false} SelfPlaced()
    ensures IsTable(SelfEntries(), Nested(SelfBlock())) && Indexed(SelfEntries(), SelfRequest().paths)
    ensures Clean(SelfEntries()) && WellFormed(SelfRequest()) && Forward(SelfEntries())
  {
    var leaf, entries := Leaf("e", TWIN_FIELD), SelfEntries();
    assert [leaf][1..] == [] && NodesSize([leaf]) == NodeSize(leaf) + NodesSize([]) == 1;
    assert PathOf("a", "e") == "a.e";
    assert Indices([leaf], 1) == [1] + Indices([], 2) == [1];
    assert Placed(entries, leaf, "a", Some(0), 1);
    assert PlacedAll(entries, [leaf], "a", 0, 1);
    assert entries[0].path == "a" && entries[1].path == "a.e";
    TableWellFormed(SelfRequest(), Nested(SelfBlock()));
  }

  lemma {:induction false} SelfAssembled()
    ensures Assembled(SelfRequest(), SelfBlock())
  {
    SelfPlaced();
    var request, entries, groups := SelfRequest(), SelfEntries(), map[0 := 1];
    forall i: nat ensures ReferencesOk(request, i) {
    }
    assert GroupsMatch(request, groups);
    assert ForwardAt(entries, 0) && [1][1..] == [];
    assert BuildAll(entries, groups, 0, [1]) == [Plain(1)] + BuildAll(entries, groups, 0, []) == [Plain(1)];
    assert BuildCaseSeq(entries, groups, 0) == SelfSeq();
  }

  lemma {:induction false} SelfRanked()
    ensures IsMeasureRank(SelfRequest(), [1, 0])
  {
    var request, rank := SelfRequest(), [1, 0];
    forall i: nat, j: nat ensures MeasureDescends(request, rank, i, j) {
      assert i < 2 && MeasureEdge(request, i, j) ==> i == 0 && j == 1;
    }
  }

  lemma {:induction false} SelfGrounded()
    ensures Grounded(SelfRequest())
  {
    SelfAssembled();
    AssembledIsStructured(SelfRequest(), SelfBlock());
    SelfRanked();
  }

  lemma {:induction false} SelfRenders(scene: Scene, size: SizeRenderer, value: Bytes)
    requires Ready(scene) && scene.request == SelfRequest() && |value| <= 1048576
    requires Lookup(scene.replacements, 0).None?
    requires value == match Lookup(scene.replacements, 1) case Some(replaced) => replaced case None => TWIN_FIELD.value
    ensures Render(scene, size, 0, {}) == Ok(value)
  {
    assert Visible(scene, 0) == Ok(true) && Visible(scene, 1) == Ok(true);
    var token := Token(1, value);
    FlattenOne(token);
    assert [] + [token] == [token] && Flatten([]) == [];
    assert Emit(scene, size, 1, {}) == Ok([token]);
    assert EmitChildren(scene, size, 0, 1, {}, [token]) == Ok([token]);
    assert EmitChildren(scene, size, 0, 0, {}, []) == EmitChildren(scene, size, 0, 1, {}, [token]);
  }

  lemma {:induction false} SelfCompiled(digest: Digest)
    ensures Compiled(SelfRequest(), SelfBlock(), digest)
  {
    SelfAssembled();
    SelfGrounded();
    SelfWantsNothing(SizeFields);
    SelfWantsNothing(ChecksumFields);
    SelfDefaults(digest);
  }

  lemma {:induction false} SelfWantsNothing(derived: Derived)
    requires Structured(SelfRequest())
    ensures AcyclicDependencies(SelfRequest(), derived) && forall i: nat :: FieldOk(SelfRequest(), derived, i)
  {
    assert forall i: nat :: !Wanted(SelfRequest(), derived, i);
    NothingWanted(SelfRequest(), derived);
  }

  lemma {:induction false} SelfDefaults(digest: Digest)
    requires Grounded(SelfRequest())
    ensures Sound(DefaultScene(SelfRequest(), digest)) && DefaultsOk(SelfRequest(), digest)
  {
    var scene := DefaultScene(SelfRequest(), digest);
    assert forall i: nat :: RepeatReplaced(scene, i);
    SelfRenders(scene, Sizes(scene), TWIN_FIELD.value);
    assert forall i: nat :: DefaultSizeOk(SelfRequest(), digest, i);
  }

  lemma {:induction false} SelfEnumerated()
    ensures [(1, 0), (1, 1)] in SequentialParts(SelfRequest())
    ensures Unshared(Counts(SelfRequest()), SelfSeq())
  {
    var counts := Counts(SelfRequest());
    var plain: CaseSeq := Plain(1);
    var inner := Sequence([plain]);
    SelfAssembled();
    SequentialLists(SelfRequest(), SelfBlock());
    assert CountAt(counts, 1) == 2;
    PairLists(counts, [inner, Product(1, inner)]);
    assert Separate(inner) by {
      assert [plain][1..] == [];
    }
    assert 1 in Leaves(inner);
    LeafAlone(counts, inner, 1, 1);
    InPass(1, Lists(counts, inner), 2, 0, [(1, 1)]);
    FirstOfPair(1, 0, 1);
    assert Live(counts, inner) == {};
  }

  lemma {:induction false} SelfUnnested()
    ensures NoNestedShare(Nested(SelfBlock()))
  {
    var children := SelfBlock().children;
    assert children[1..] == [] && GroupNamesIn(children) == GroupNames(children[0]) + GroupNamesIn([]) == {};
    assert NoNestedShareIn(children);
  }

  function SelfParts(): Parts {
    [(1, 0), (1, 1)]
  }

  function SelfPlan(digest: Digest): Plan {
    Plan(SelfRequest(), digest, None)
  }

  lemma {:induction false} SelfEmitted(digest: Digest, ordinal: nat)
    requires PlanOk(SelfPlan(digest)) && PartsOk(SelfRequest(), SelfParts())
    ensures var built := CaseAt(SelfPlan(digest), SelfParts(), ordinal);
            built.Ok? && built.value.fieldPath == "a.e" && built.value.mutationIndex == 1 && built.value.payload == [1]
  {
    SelfLookups(SelfRequest());
    var scene := SceneOf(SelfPlan(digest), SelfParts());
    SelfRenders(scene, Sizes(scene), [1]);
  }

  /**
   A block multiplied by a field inside it, without any nested block: a case that replaces the field twice, and does
   not contain the mutation it is named after.
   */
  lemma {:induction false} SelfGroupMisnames(digest: Digest, ordinal: nat)
    ensures Compiled(SelfRequest(), SelfBlock(), digest) && NoNestedShare(Nested(SelfBlock()))
    ensures SelfParts() in SequentialParts(SelfRequest()) && !AllDistinct(SequentialParts(SelfRequest()))
    ensures !AllCarryOwn(SelfRequest(), SequentialParts(SelfRequest()))
    ensures PlanOk(SelfPlan(digest)) && PartsOk(SelfRequest(), SelfParts()) && CandidateOf(SelfRequest(), (1, 1)) == [2]
    ensures var built := CaseAt(SelfPlan(digest), SelfParts(), ordinal);
            built.Ok? && built.value.fieldPath == "a.e" && built.value.mutationIndex == 1 && built.value.payload == [1]
  {
    SelfCompiled(digest);
    SelfUnnested();
    SelfEnumerated();
    SelfLookups(SelfRequest());
    SelfEmitted(digest, ordinal);
    TwiceIsNotDistinct(SelfParts(), SequentialParts(SelfRequest()));
    assert !CarriesOwn(SelfRequest(), SelfParts());
  }

  lemma {:induction false} SelfLookups(request: CompiledRequest)
    requires request == SelfRequest()
    ensures PartsOk(request, [(1, 0), (1, 1)])
    ensures Lookup(ReplacementsOf(request, [(1, 0), (1, 1)]), 0).None?
    ensures Lookup(ReplacementsOf(request, [(1, 0), (1, 1)]), 1) == Some([1])
  {
    var parts: Parts := [(1, 0), (1, 1)];
    assert AllOk(request, parts);
    LookupFirst(request, parts, 0);
    LookupFirst(request, parts, 1);
    FirstOfPair(1, 0, 1);
    assert parts[1..] == [(1, 1)] && [(1, 1)][1..] == [];
    assert FirstOf(parts, 0) == FirstOf([(1, 1)], 0) == FirstOf([], 0) == None;
  }

  // ----- a combination that occurs at two depths -----

  const ONE_FIELD := Field([0], [[1]])

  function BodyBlock(): Block {
    Block("body", [Leaf("x", ONE_FIELD)], None, None, Some("r.op"))
  }

  function GroupBlock(): Block {
    Block("r", [Leaf("op", ONE_FIELD), Nested(BodyBlock())], None, None, None)
  }

  function GroupEntries(): (entries: seq<Entry>)
    ensures |entries| == 4
  {
    [Entry("r", None, Container([1, 2]), None, None, None),
     Entry("r.op", Some(0), Atom(ONE_FIELD), None, None, None),
     Entry("r.body", Some(0), Container([3]), None, None, Some("r.op")),
     Entry("r.body.x", Some(2), Atom(ONE_FIELD), None, None, None)]
  }

  function GroupSeq(): CaseSeq {
    Sequence([Plain(1), Sequence([Sequence([Plain(3)]), Product(1, Sequence([Plain(3)]))])])
  }

  function GroupRequest(): CompiledRequest {
    CompiledRequest("r", GroupEntries(), map["r" := 0, "r.op" := 1, "r.body" := 2, "r.body.x" := 3], 1048576,
      GroupSeq())
  }

  lemma {:induction false} BodyPlaced()
    ensures NodeSize(Nested(BodyBlock())) == 2 && Placed(GroupEntries(), Nested(BodyBlock()), "r", Some(0), 2)
  {
    var leaf, entries := Leaf("x", ONE_FIELD), GroupEntries();
    assert [leaf][1..] == [] && NodesSize([leaf]) == NodeSize(leaf) + NodesSize([]) == 1;
    assert PathOf("r", "body") == "r.body";
    assert PathOf("r.body", "x") == "r.body.x";
    assert Indices([leaf], 3) == [3] + Indices([], 4) == [3];
    assert Placed(entries, leaf, "r.body", Some(2), 3);
    assert PlacedAll(entries, [leaf], "r.body", 2, 3);
  }

  lemma {:induction false} GroupPlaced()
    ensures IsTable(GroupEntries(), Nested(GroupBlock()))
  {
    BodyPlaced();
    var children, entries := GroupBlock().children, GroupEntries();
    var last := children[1..];
    assert last[1..] == [] && PathOf("r", "op") == "r.op";
    assert NodesSize(last) == 2 && NodesSize(children) == 3;
    assert Indices(last, 2) == [2] + Indices(last[1..], 4) == [2];
    assert Indices(children, 1) == [1] + Indices(last, 2) == [1, 2];
    assert PlacedAll(entries, last, "r", 0, 2);
    assert PlacedAll(entries, children, "r", 0, 1);
  }

  lemma {:induction false} GroupIndexed()
    ensures Indexed(GroupEntries(), GroupRequest().paths)
    ensures Clean(GroupEntries()) && WellFormed(GroupRequest()) && Forward(GroupEntries())
  {
    GroupPlaced();
    var entries, paths := GroupEntries(), GroupRequest().paths;
    forall i | 0 <= i < 4 ensures entries[i].path in paths && paths[entries[i].path] == i && EntryClean(entries[i]) {
      assert i == 0 || i == 1 || i == 2 || i == 3;
    }
    forall path <- paths ensures paths[path] < 4 && entries[paths[path]].path == path {
      assert path in {"r", "r.op", "r.body", "r.body.x"};
    }
    TableWellFormed(GroupRequest(), Nested(GroupBlock()));
  }

  lemma {:induction false} GroupBuilt()
    requires Forward(GroupEntries())
    ensures BuildCaseSeq(GroupEntries(), map[2 := 1], 0) == GroupSeq()
  {
    var entries, groups := GroupEntries(), map[2 := 1];
    assert ForwardAt(entries, 0) && ForwardAt(entries, 2);
    assert [3][1..] == [] &&
      BuildAll(entries, groups, 2, [3]) == [Plain(3)] + BuildAll(entries, groups, 2, []) == [Plain(3)];
    assert [1, 2][1..] == [2] && [2][1..] == [];
    var body := BuildCaseSeq(entries, groups, 2);
    assert BuildAll(entries, groups, 0, [2]) == [body] + BuildAll(entries, groups, 0, []) == [body];
    assert BuildAll(entries, groups, 0, [1, 2]) == [Plain(1)] + BuildAll(entries, groups, 0, [2]);
  }

  lemma {:induction false} GroupAssembled()
    ensures Assembled(GroupRequest(), GroupBlock())
  {
    GroupPlaced();
    GroupIndexed();
    GroupReferences();
    assert GroupsMatch(GroupRequest(), map[2 := 1]);
    GroupBuilt();
  }

  lemma {:induction false} GroupReferences()
    requires WellFormed(GroupRequest())
    ensures forall i: nat :: ReferencesOk(GroupRequest(), i)
  {
    forall i: nat ensures ReferencesOk(GroupRequest(), i) {
      var entries := GroupEntries();
      assert i < 4 ==> entries[i].condition.None? && !entries[i].kind.Repetition? && !entries[i].kind.Mirror?;
    }
  }

  lemma {:induction false} BodyUnits(counts: seq<nat>, prefix: Parts)
    requires CountAt(counts, 3) == 1
    ensures Units(counts, Sequence([Plain(3)]), prefix) == [StreamUnit(prefix + [(3, 0)], 3)]
  {
    var plain: CaseSeq := Plain(3);
    assert [plain][1..] == [];
    LeafUnitsShape(3, prefix, 0, 1);
    assert UnitsOfAll(counts, [plain], prefix) == LeafUnits(3, prefix, 0, 1) + UnitsOfAll(counts, [], prefix);
  }

  lemma {:induction false} PairUnits(counts: seq<nat>)
    requires CountAt(counts, 1) == 1 && CountAt(counts, 3) == 1
    ensures var inner := Sequence([Plain(3)]);
            UnitsOfAll(counts, [inner, Product(1, inner)], []) ==
              [StreamUnit([(3, 0)], 3), StreamUnit([(1, 0), (3, 0)], 3)]
  {
    var inner := Sequence([Plain(3)]);
    var pair := [inner, Product(1, inner)];
    assert pair[1..] == [Product(1, inner)] && pair[1..][1..] == [];
    BodyUnits(counts, []);
    BodyUnits(counts, [(1, 0)]);
    assert [] + [(1, 0)] == [(1, 0)] && [] + [(3, 0)] == [(3, 0)] && [(1, 0)] + [(3, 0)] == [(1, 0), (3, 0)];
    assert UnitsOfPasses(counts, 1, inner, [], 0) ==
      Units(counts, inner, [(1, 0)]) + UnitsOfPasses(counts, 1, inner, [], 1);
    assert UnitsOfAll(counts, pair[1..], []) == Units(counts, pair[1], []) + UnitsOfAll(counts, [], []);
    assert UnitsOfAll(counts, pair, []) == Units(counts, inner, []) + UnitsOfAll(counts, pair[1..], []);
  }

  lemma {:induction false} GroupUnits()
    ensures Units(Counts(GroupRequest()), GroupSeq(), [])
         == [StreamUnit([(1, 0)], 1), StreamUnit([(3, 0)], 3), StreamUnit([(1, 0), (3, 0)], 3)]
  {
    var counts, op: CaseSeq, inner := Counts(GroupRequest()), Plain(1), Sequence([Plain(3)]);
    var block := Sequence([inner, Product(1, inner)]);
    assert CountAt(counts, 1) == 1 && CountAt(counts, 3) == 1;
    PairUnits(counts);
    LeafUnitsShape(1, [], 0, 1);
    assert [] + [(1, 0)] == [(1, 0)];
    assert [op, block][1..] == [block] && [block][1..] == [];
    assert UnitsOfAll(counts, [block], []) == Units(counts, block, []) + UnitsOfAll(counts, [], []);
    assert UnitsOfAll(counts, [op, block], []) == LeafUnits(1, [], 0, 1) + UnitsOfAll(counts, [block], []);
  }

  lemma {:induction false} GroupPathsUnrelated()
    ensures !RelatedPaths("r.op", "r.body.x")
  {
    var text := "r.body.x";
    forall i: nat ensures !OccursAt(text, "r.op", i) {
      assert i <= 4 ==> text[i..i + 4][0] == text[i] && text[i..i + 4][2] == text[i + 2];
    }
  }

  lemma {:induction false} GroupUnrelated(paths: seq<string>)
    requires paths == PathsOf(GroupRequest())
    ensures Unrelated(paths, [(1, 0), (3, 0)])
  {
    GroupPathsUnrelated();
    assert PathAt(paths, 1) == "r.op" && PathAt(paths, 3) == "r.body.x";
    var parts: Parts := [(1, 0), (3, 0)];
    forall i, j | 0 <= i < j < |parts| ensures !RelatedPaths(PathAt(paths, parts[i].0), PathAt(paths, parts[j].0)) {
    }
  }

  /** The product unit alone at depth 1, and the two plain units together at depth 2. */
  lemma {:induction false} GroupLevels(units: seq<StreamUnit>, paths: seq<string>)
    requires units == [StreamUnit([(1, 0)], 1), StreamUnit([(3, 0)], 3), StreamUnit([(1, 0), (3, 0)], 3)]
    requires Unrelated(paths, [(1, 0), (3, 0)])
    ensures [(1, 0), (3, 0)] in AtDepth(units, paths, 1) && [(1, 0), (3, 0)] in AtDepth(units, paths, 2)
  {
    var x: Parts := [(1, 0), (3, 0)];
    assert [] + units[2].parts == x;
    assert x in Combinations.Level(units, paths, {}, {}, [], 1, 2);
    assert x in Combinations.Level(units, paths, {}, {}, [], 1, 1);
    assert x in Combinations.Level(units, paths, {}, {}, [], 1, 0);
    var grown, first: Parts := {} + EntriesOf([(1, 0)]), [] + [(1, 0)];
    assert grown == {1} by {
      assert (1, 0) in units[0].parts;
    }
    assert first + [(3, 0)] == x;
    assert x in Combinations.Level(units, paths, grown, grown, first, 1, 1);
    assert x in Combinations.Level(units, paths, grown, grown, first, 1, 0);
  }

  lemma {:induction false} TwoDepthsRepeat(units: seq<StreamUnit>, paths: seq<string>, x: Parts)
    requires LeafInParts(units) && x in AtDepth(units, paths, 1) && x in AtDepth(units, paths, 2)
    ensures !Distinct(FromDepth(units, paths, None, 1))
  {
    var deeper := FromDepth(units, paths, None, 2);
    assert x in deeper;
    DistinctAppend(AtDepth(units, paths, 1), deeper);
  }

  lemma {:induction false} GroupRepeats()
    ensures !Distinct(CombinedParts(GroupRequest(), None))
  {
    var request := GroupRequest();
    var units, paths := Units(Counts(request), request.caseSeq, []), PathsOf(request);
    GroupUnits();
    GroupUnrelated(paths);
    GroupLevels(units, paths);
    UnitsLeafInParts(Counts(request), request.caseSeq);
    TwoDepthsRepeat(units, paths, [(1, 0), (3, 0)]);
  }

  /** With a group outside its block, the combinatorial stream emits one id at two depths. */
  lemma {:induction false} GroupIdsRepeat()
    ensures Assembled(GroupRequest(), GroupBlock()) && GroupsOutside(Nested(GroupBlock()), "")
    ensures PendingOk(GroupRequest(), CombinedParts(GroupRequest(), None))
    ensures !(forall i: nat, j: nat :: IdsDiffer(GroupRequest(), CombinedParts(GroupRequest(), None), i, j))
  {
    GroupAssembled();
    GroupOutside();
    GroupRepeats();
    EnumerationsOk(GroupRequest(), None);
    DistinctIds(GroupRequest(), CombinedParts(GroupRequest(), None));
  }

  lemma {:induction false} GroupOutside()
    ensures GroupsOutside(Nested(GroupBlock()), "")
  {
    var children, body := GroupBlock().children, BodyBlock().children;
    var last := children[1..];
    assert last[1..] == [] && body[1..] == [];
    assert GroupNamesIn(body) == GroupNames(body[0]) + GroupNamesIn([]) == {};
    assert PathOf("r", "body") == "r.body";
    assert !("r.body" + "." <= "r.op") by {
      assert |"r.body."| > |"r.op"|;
    }
    assert GroupsOutsideIn(body, "r.body");
    assert GroupsOutside(children[1], "r");
    assert GroupsOutsideIn(last, "r");
    assert GroupsOutsideIn(children, "r");
  }
}
