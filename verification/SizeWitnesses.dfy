/**
 Definitions whose size fields are wrong, with the tables they compile to: a size over a block that holds
 a mutated ascii size, and a size over a block that holds a repetition with a negative session count.
 */
module SizeWitnesses {
  import opened Wrappers
  import opened Integers
  import opened CaseSequences
  import opened Model
  import opened Layout
  import opened Assembly
  import opened Rendering
  import opened Measuring
  import opened Dependencies
  import opened Compilation
  import opened CompiledRequests
  import opened CaseBuilding
  import opened RequestStreams
  import opened DistinctCases
  import opened GroupedParts

  // ----- a mutated ascii size -----

  const COUNTED: SizeSpec := SizeSpec("r.b", 1, Little, 0, false, false, [])
  const WRITTEN: SizeSpec := SizeSpec("r.e", 1, Little, 0, false, true, [[57, 57]])

  function TextBlock(): Block {
    Block("b", [Sized("a", WRITTEN)], None, None, None)
  }

  /** A binary size over a block that holds the decimal length of an empty block. */
  function SizedBlock(): Block {
    Block("r", [Sized("n", COUNTED), Nested(Block("e", [], None, None, None)), Nested(TextBlock())], None, None, None)
  }

  function SizedEntries(): (entries: seq<Entry>)
    ensures |entries| == 5
  {
    [Entry("r", None, Container([1, 2, 3]), None, None, None),
     Entry("r.n", Some(0), ComputedSize(COUNTED), None, None, None),
     Entry("r.e", Some(0), Container([]), None, None, None),
     Entry("r.b", Some(0), Container([4]), None, None, None),
     Entry("r.b.a", Some(3), ComputedSize(WRITTEN), None, None, None)]
  }

  function SizedRequest(): CompiledRequest {
    CompiledRequest("r", SizedEntries(), map["r" := 0, "r.n" := 1, "r.e" := 2, "r.b" := 3, "r.b.a" := 4], 1048576,
                    Sequence([Sequence([]), Sequence([]), Sequence([Plain(4)])]))
  }

  function SizedChildren(): seq<Node> {
    [Sized("n", COUNTED), Nested(Block("e", [], None, None, None)), Nested(TextBlock())]
  }

  lemma {:induction false} TextPlaced()
    ensures NodeSize(Nested(TextBlock())) == 2
    ensures Placed(SizedEntries(), Nested(TextBlock()), "r", Some(0), 3)
  {
    var a, entries := Sized("a", WRITTEN), SizedEntries();
    assert [a][1..] == [] && NodesSize([a]) == NodeSize(a) + NodesSize([]) == 1;
    assert PathOf("r", "b") == "r.b";
    assert PathOf("r.b", "a") == "r.b.a";
    assert Indices([a], 4) == [4] + Indices([], 5) == [4];
    assert Placed(entries, a, "r.b", Some(3), 4);
    assert PlacedAll(entries, [a], "r.b", 3, 4);
  }

  lemma {:induction false} SizedLayout()
    requires NodeSize(Nested(TextBlock())) == 2
    ensures NodesSize(SizedChildren()) == 4 && Indices(SizedChildren(), 1) == [1, 2, 3]
  {
    var children := SizedChildren();
    var later, last := children[1..], children[2..];
    assert later[1..] == last && last[1..] == [];
    assert Indices(last, 3) == [3] + Indices(last[1..], 5) == [3];
    assert Indices(later, 2) == [2] + Indices(last, 3) == [2, 3];
    assert Indices(children, 1) == [1] + Indices(later, 2);
    assert NodesSize(last) == 2 && NodesSize(later) == 3;
  }

  lemma {:induction false} SizedSiblings()
    requires NodeSize(Nested(TextBlock())) == 2 && Placed(SizedEntries(), Nested(TextBlock()), "r", Some(0), 3)
    ensures PlacedAll(SizedEntries(), SizedChildren(), "r", 0, 1)
  {
    var entries, children := SizedEntries(), SizedChildren();
    var later, last := children[1..], children[2..];
    assert later[1..] == last && last[1..] == [];
    assert PathOf("r", "n") == "r.n" && PathOf("r", "e") == "r.e";
    assert PlacedAll(entries, last, "r", 0, 3);
    EmptyPlaced();
    assert PlacedAll(entries, later, "r", 0, 2);
  }

  lemma {:induction false} EmptyPlaced()
    ensures var empty := Nested(Block("e", [], None, None, None));
            NodeSize(empty) == 1 && Placed(SizedEntries(), empty, "r", Some(0), 2)
  {
    var entries, empty := SizedEntries(), Nested(Block("e", [], None, None, None));
    assert PathOf("r", "e") == "r.e" && Indices(empty.block.children, 3) == [];
    assert PlacedAll(entries, empty.block.children, "r.e", 2, 3);
    assert entries[2] == HeadEntry(empty, "r", Some(0), 2);
  }

  lemma {:induction false} SizedPlaced()
    ensures IsTable(SizedEntries(), Nested(SizedBlock()))
  {
    TextPlaced();
    SizedLayout();
    SizedSiblings();
    assert SizedBlock().children == SizedChildren();
  }

  lemma {:induction false} SizedNames()
    ensures "r.n" != "r.e" && "r.n" != "r.b" && "r.e" != "r.b"
    ensures var paths := SizedRequest().paths;
            && paths.Keys == {"r", "r.n", "r.e", "r.b", "r.b.a"}
            && paths["r"] == 0 && paths["r.n"] == 1 && paths["r.e"] == 2 && paths["r.b"] == 3 && paths["r.b.a"] == 4
  {
    assert "r.n"[2] == 'n' && "r.e"[2] == 'e' && "r.b"[2] == 'b';
  }

  lemma {:induction false} SizedIndexed()
    ensures Indexed(SizedEntries(), SizedRequest().paths)
  {
    SizedNames();
    var entries, paths := SizedEntries(), SizedRequest().paths;
    forall i | 0 <= i < 5 ensures entries[i].path in paths && paths[entries[i].path] == i {
      assert i == 0 || i == 1 || i == 2 || i == 3 || i == 4;
    }
    forall path <- paths ensures paths[path] < 5 && entries[paths[path]].path == path {
      assert path in {"r", "r.n", "r.e", "r.b", "r.b.a"};
    }
  }

  lemma {:induction false} SizedClean()
    ensures Clean(SizedEntries())
  {
    var entries := SizedEntries();
    forall i | 0 <= i < 5 ensures EntryClean(entries[i]) {
      assert i == 0 || i == 1 || i == 2 || i == 3 || i == 4;
    }
  }

  lemma {:induction false} SizedWellFormed()
    ensures WellFormed(SizedRequest()) && Forward(SizedEntries())
  {
    SizedPlaced();
    SizedIndexed();
    TableWellFormed(SizedRequest(), Nested(SizedBlock()));
  }

  lemma {:induction false} SizedBuilt()
    requires Forward(SizedEntries())
    ensures BuildCaseSeq(SizedEntries(), map[], 0) == SizedRequest().caseSeq
  {
    var entries := SizedEntries();
    TextBuilt();
    assert ForwardAt(entries, 0) && ForwardAt(entries, 2);
    assert [1, 2, 3][1..] == [2, 3] && [2, 3][1..] == [3] && [3][1..] == [];
    assert BuildAll(entries, map[], 0, [3]) == [Sequence([Plain(4)])] + BuildAll(entries, map[], 0, []);
    assert BuildAll(entries, map[], 0, [2, 3]) == [Sequence([])] + BuildAll(entries, map[], 0, [3]);
    assert BuildAll(entries, map[], 0, [1, 2, 3]) == [Sequence([])] + BuildAll(entries, map[], 0, [2, 3]);
  }

  lemma {:induction false} TextBuilt()
    requires Forward(SizedEntries())
    ensures BuildCaseSeq(SizedEntries(), map[], 3) == Sequence([Plain(4)])
  {
    var entries := SizedEntries();
    assert ForwardAt(entries, 3);
    assert [4][1..] == [] &&
      BuildAll(entries, map[], 3, [4]) == [Plain(4)] + BuildAll(entries, map[], 3, []) == [Plain(4)];
  }

  lemma {:induction false} SizedAssembled()
    ensures Assembled(SizedRequest(), SizedBlock())
  {
    SizedPlaced();
    SizedIndexed();
    SizedClean();
    SizedWellFormed();
    SizedReferences();
    SizedGroups();
    SizedBuilt();
  }

  lemma {:induction false} SizedReferences()
    requires WellFormed(SizedRequest())
    ensures forall i: nat :: ReferencesOk(SizedRequest(), i)
  {
    forall i: nat ensures ReferencesOk(SizedRequest(), i) {
      assert i < 5 ==> SizedEntries()[i].condition.None?;
      assert i < 5 ==> !SizedEntries()[i].kind.Repetition? && !SizedEntries()[i].kind.Mirror?;
    }
  }

  lemma {:induction false} SizedGroups()
    ensures GroupsMatch(SizedRequest(), map[])
  {
    forall i | 0 <= i < 5 ensures SizedEntries()[i].group.None? {
    }
  }

  lemma {:induction false} SizedRanked()
    ensures IsMeasureRank(SizedRequest(), [3, 0, 0, 2, 1])
  {
    var request, rank := SizedRequest(), [3, 0, 0, 2, 1];
    forall i: nat, j: nat ensures MeasureDescends(request, rank, i, j) {
      if i < 5 && MeasureEdge(request, i, j) {
        assert i == 0 ==> j in [1, 2, 3];
        assert i == 3 ==> j == 4;
        assert i == 4 ==> j == 2;
      }
    }
  }

  lemma {:induction false} SizedGrounded()
    ensures Grounded(SizedRequest())
  {
    SizedAssembled();
    AssembledIsStructured(SizedRequest(), SizedBlock());
    SizedRanked();
  }

  // ----- what the table measures and renders to -----

  /** A scene that replaces at most the ascii size; its text is what the block renders to. */
  ghost predicate SizedBy(scene: Scene, text: Bytes) {
    && scene.request == SizedRequest() && scene.vars == None && Sound(scene) && |text| < 1000
    && (forall i: nat :: i != 4 ==> Lookup(scene.replacements, i).None?)
    && text == match Lookup(scene.replacements, 4) case Some(value) => value case None => [48]
  }

  lemma {:induction false} SizedVisible(scene: Scene, i: nat)
    requires scene.request == SizedRequest() && WellFormed(scene.request) && i < 5
    ensures Visible(scene, i) == Ok(true)
  {
    assert Visible(scene, 0) == Ok(true);
    assert Visible(scene, 3) == Ok(true);
  }

  /** Measuring does not look at the replacement: the empty block's length is one digit. */
  lemma {:induction false} SizedMeasures(scene: Scene, text: Bytes)
    requires SizedBy(scene, text)
    ensures SizeValue(scene, WRITTEN) == Ok([48]) && Measure(scene, 3, {}) == Ok(1)
  {
    SizedNames();
    SizedVisible(scene, 2);
    SizedVisible(scene, 3);
    SizedVisible(scene, 4);
    assert MeasureChildren(scene, 2, 0, 0) == Ok(0);
    assert Measure(scene, 2, {}) == Ok(0);
    assert Decimal(0) == "0" && AsciiBytes("0") == [48];
    assert IntegerMax(1) == 255 by {
      assert Power(256, 1) == 256;
    }
    assert SizeValue(scene, WRITTEN) == Ok([48]);
    assert Measure(scene, 4, {}) == Ok(1);
    assert MeasureChildren(scene, 3, 1, 1) == Ok(1);
    assert MeasureChildren(scene, 3, 0, 0) == Ok(1);
  }

  lemma {:induction false} SizedNumber(scene: Scene, text: Bytes)
    requires SizedBy(scene, text)
    ensures SizeValue(scene, COUNTED) == Ok([1])
  {
    SizedNames();
    SizedMeasures(scene, text);
    assert IntegerMax(1) == 255 by {
      assert Power(256, 1) == 256;
    }
    assert LittleBytes(1, 1) == [1] + LittleBytes(1 / 256, 0) == [1];
  }

  lemma {:induction false} SizedTextRenders(scene: Scene, text: Bytes)
    requires SizedBy(scene, text)
    ensures Emit(scene, Sizes(scene), 3, {}) == Ok([Token(4, text)])
    ensures Render(scene, Sizes(scene), 3, {}) == Ok(text)
  {
    SizedMeasures(scene, text);
    SizedVisible(scene, 3);
    SizedVisible(scene, 4);
    var size, token := Sizes(scene), Token(4, text);
    FlattenOne(token);
    assert [] + [token] == [token] && Flatten([]) == [];
    assert Emit(scene, size, 4, {}) == Ok([token]);
    assert EmitChildren(scene, size, 3, 1, {}, [token]) == Ok([token]);
    assert EmitChildren(scene, size, 3, 0, {}, []) == Ok([token]);
  }

  lemma {:induction false} SizedLeaders(scene: Scene, text: Bytes)
    requires SizedBy(scene, text)
    ensures Emit(scene, Sizes(scene), 1, {}) == Ok([Token(1, [1])]) && Emit(scene, Sizes(scene), 2, {}) == Ok([])
  {
    SizedNumber(scene, text);
    SizedVisible(scene, 1);
    SizedVisible(scene, 2);
    assert EmitChildren(scene, Sizes(scene), 2, 0, {}, []) == Ok([]);
  }

  lemma {:induction false} SizedEmits(scene: Scene, text: Bytes)
    requires SizedBy(scene, text)
    ensures Emit(scene, Sizes(scene), 0, {}) == Ok([Token(1, [1]), Token(4, text)])
  {
    SizedTextRenders(scene, text);
    SizedLeaders(scene, text);
    SizedVisible(scene, 0);
    var size, first, second := Sizes(scene), Token(1, [1]), Token(4, text);
    FlattenOne(first);
    FlattenOne(second);
    assert Flatten([]) == [] && [] + [first] == [first] && [first] + [] == [first];
    assert [first] + [second] == [first, second];
    assert EmitChildren(scene, size, 0, 3, {}, [first, second]) == Ok([first, second]);
    assert EmitChildren(scene, size, 0, 2, {}, [first]) == Ok([first, second]);
    assert EmitChildren(scene, size, 0, 1, {}, [first]) == EmitChildren(scene, size, 0, 2, {}, [first] + []);
    assert EmitChildren(scene, size, 0, 0, {}, []) == EmitChildren(scene, size, 0, 1, {}, [first]);
  }

  lemma {:induction false} SizedRenders(scene: Scene, text: Bytes)
    requires SizedBy(scene, text)
    ensures Render(scene, Sizes(scene), 0, {}) == Ok([1] + text)
  {
    SizedEmits(scene, text);
    var first, second := Token(1, [1]), Token(4, text);
    FlattenOne(first);
    FlattenOne(second);
    FlattenAppend([first], [second]);
    assert [first] + [second] == [first, second];
  }

  // ----- it compiles -----

  lemma {:induction false} SizedReaches(d: nat)
    requires Structured(SizedRequest())
    ensures !Reaches(SizedRequest(), SizeFields, 2, d)
    ensures Reaches(SizedRequest(), SizeFields, 3, d) <==> d == 4
  {
    var request := SizedRequest();
    assert EntryOk(request, 3) && Descends(request, StructuralRank(request), 3, 4);
    assert Reaches(request, SizeFields, 4, d) <==> d == 4;
    assert request.entries[3].kind.children[0] == 4;
  }

  lemma {:induction false} SizedFields()
    requires Structured(SizedRequest())
    ensures AcyclicDependencies(SizedRequest(), SizeFields)
    ensures forall i: nat :: FieldOk(SizedRequest(), SizeFields, i)
  {
    var request, rank := SizedRequest(), [0, 1, 0, 0, 0];
    SizedNames();
    forall c: nat, d: nat ensures DependencyDescends(request, SizeFields, rank, c, d) {
      SizedReaches(d);
      assert Wanted(request, SizeFields, c) ==> c == 1 || c == 4;
    }
    assert IsDependencyRank(request, SizeFields, rank);
    forall i: nat ensures FieldOk(request, SizeFields, i) {
      SizedReaches(i);
      assert Wanted(request, SizeFields, i) ==> i == 1 || i == 4;
    }
  }

  lemma {:induction false} SizedDefaults(digest: Digest)
    requires Grounded(SizedRequest())
    ensures Sound(DefaultScene(SizedRequest(), digest)) && DefaultsOk(SizedRequest(), digest)
  {
    var request, scene := SizedRequest(), DefaultScene(SizedRequest(), digest);
    assert forall i: nat :: RepeatReplaced(scene, i);
    SizedMeasures(scene, [48]);
    SizedNumber(scene, [48]);
    SizedRenders(scene, [48]);
    forall i: nat ensures DefaultSizeOk(request, digest, i) {
      assert i < 5 && request.entries[i].kind.ComputedSize? ==> i == 1 || i == 4;
    }
  }

  lemma {:induction false} SizedCompiled(digest: Digest)
    ensures Compiled(SizedRequest(), SizedBlock(), digest)
  {
    SizedAssembled();
    SizedGrounded();
    SizedFields();
    SizedSums();
    SizedDefaults(digest);
  }

  lemma {:induction false} SizedSums()
    requires Structured(SizedRequest())
    ensures AcyclicDependencies(SizedRequest(), ChecksumFields)
    ensures forall i: nat :: FieldOk(SizedRequest(), ChecksumFields, i)
  {
    assert forall i: nat :: !Wanted(SizedRequest(), ChecksumFields, i);
    NothingWanted(SizedRequest(), ChecksumFields);
  }

  // ----- the emitted case -----

  function SizedPlan(digest: Digest): Plan {
    Plan(SizedRequest(), digest, None)
  }

  lemma {:induction false} SizedListed()
    ensures [(4, 0)] in SequentialParts(SizedRequest())
  {
    SizedLeaves();
    SizedCount();
    SizedAssembled();
    LeafEnumerated(SizedRequest(), SizedBlock(), 4, 0);
  }

  lemma {:induction false} SizedCount()
    ensures CountAt(Counts(SizedRequest()), 4) == 1
  {
    assert SizedEntries()[4].kind.Count() == 1;
  }

  lemma {:induction false} SizedCase(digest: Digest)
    requires PlanOk(SizedPlan(digest))
    ensures PartsOk(SizedRequest(), [(4, 0)]) && SizedBy(SceneOf(SizedPlan(digest), [(4, 0)]), [57, 57])
  {
    var parts: Parts := [(4, 0)];
    assert PartsOk(SizedRequest(), parts);
    var scene := SceneOf(SizedPlan(digest), parts);
    assert scene.replacements == [(4, [57, 57])];
    forall i: nat ensures Lookup(scene.replacements, i) == if i == 4 then Some([57, 57]) else None {
      LookupSingle(4, [57, 57], i);
    }
  }

  lemma {:induction false} SizedLeaves()
    ensures 4 in Leaves(SizedRequest().caseSeq)
  {
    var plain: CaseSeq, empty: CaseSeq := Plain(4), Sequence([]);
    var last := Sequence([plain]);
    LeafFirst(plain, [], 4);
    LeafFirst(last, [], 4);
    LeafLater(empty, [last], 4);
    LeafLater(empty, [empty, last], 4);
    assert [empty] + [last] == [empty, last] && [empty] + [empty, last] == [empty, empty, last];
  }

  lemma {:induction false} LeafFirst(first: CaseSeq, rest: seq<CaseSeq>, e: nat)
    requires e in Leaves(first)
    ensures e in LeavesOfAll([first] + rest)
  {
    assert ([first] + rest)[1..] == rest;
  }

  lemma {:induction false} LeafLater(first: CaseSeq, rest: seq<CaseSeq>, e: nat)
    requires e in LeavesOfAll(rest)
    ensures e in LeavesOfAll([first] + rest)
  {
    assert ([first] + rest)[1..] == rest;
  }

  lemma {:induction false} SizedMisled()
    ensures !TellsSize(COUNTED, [1], [57, 57])
  {
    assert [1][1..] == [] && LittleValue([1]) == 1;
  }

  lemma {:induction false} SizedUnfaithful(scene: Scene)
    requires SizedBy(scene, [57, 57])
    ensures Proper(scene) && !Faithful(scene)
  {
    SizedMeasures(scene, [57, 57]);
    SizedVisible(scene, 4);
    forall i: nat ensures CandidateLike(scene, i) {
    }
    assert !AsciiAgrees(scene, 4);
  }

  lemma {:induction false} SizedEmitted(digest: Digest, ordinal: nat)
    requires PlanOk(SizedPlan(digest)) && PartsOk(SizedRequest(), [(4, 0)])
    requires SizedBy(SceneOf(SizedPlan(digest), [(4, 0)]), [57, 57])
    ensures var built := CaseAt(SizedPlan(digest), [(4, 0)], ordinal); built.Ok? && built.value.payload == [1, 57, 57]
  {
    SizedRenders(SceneOf(SizedPlan(digest), [(4, 0)]), [57, 57]);
    assert [1] + [57, 57] == [1, 57, 57];
  }

  /**
   The definition compiles. With the ascii size mutated to two digits, a case is emitted in which the binary size in
   front of its block says one byte where two follow.
   */
  lemma {:induction false} MutatedTextMisleads(digest: Digest, ordinal: nat)
    ensures Compiled(SizedRequest(), SizedBlock(), digest) && [(4, 0)] in SequentialParts(SizedRequest())
    ensures PlanOk(SizedPlan(digest)) && PartsOk(SizedRequest(), [(4, 0)])
    ensures var built := CaseAt(SizedPlan(digest), [(4, 0)], ordinal); built.Ok? && built.value.payload == [1, 57, 57]
    ensures var scene := SceneOf(SizedPlan(digest), [(4, 0)]);
            && Proper(scene) && !Faithful(scene)
            && Emit(scene, Sizes(scene), 0, {}) == Ok([Token(1, [1]), Token(4, [57, 57])])
            && Render(scene, Sizes(scene), 3, {}) == Ok([57, 57])
            && !TellsSize(COUNTED, [1], [57, 57])
  {
    SizedCompiled(digest);
    SizedListed();
    SizedCase(digest);
    var scene := SceneOf(SizedPlan(digest), [(4, 0)]);
    SizedEmitted(digest, ordinal);
    SizedUnfaithful(scene);
    SizedEmits(scene, [57, 57]);
    SizedTextRenders(scene, [57, 57]);
    SizedMisled();
  }

  // ----- a negative session count -----

  const WHOLE: SizeSpec := SizeSpec("r.w", 1, Little, 0, false, false, [])

  function UnitBlock(): Block {
    Block("b", [Leaf("x", Field([7], [[9]]))], None, None, None)
  }

  function CopiesBlock(): Block {
    Block("w", [Nested(UnitBlock()), Repeat("k", "r.w.b", 0, 1, 1, Some("v"))], None, None, None)
  }

  /** A binary size over a block with one byte and copies of it, as many as a session variable says. */
  function RepeatBlock(): Block {
    Block("r", [Sized("n", WHOLE), Nested(CopiesBlock())], None, None, None)
  }

  function RepeatEntries(): (entries: seq<Entry>)
    ensures |entries| == 6
  {
    [Entry("r", None, Container([1, 2]), None, None, None),
     Entry("r.n", Some(0), ComputedSize(WHOLE), None, None, None),
     Entry("r.w", Some(0), Container([3, 5]), None, None, None),
     Entry("r.w.b", Some(2), Container([4]), None, None, None),
     Entry("r.w.b.x", Some(3), Atom(Field([7], [[9]])), None, None, None),
     Entry("r.w.k", Some(2), Repetition("r.w.b", 0, 1, 1, Some("v")), None, None, None)]
  }

  function RepeatSeq(): CaseSeq {
    Sequence([Sequence([]), Sequence([Sequence([Plain(4)]), Plain(5)])])
  }

  function RepeatRequest(): CompiledRequest {
    CompiledRequest("r", RepeatEntries(),
                    map["r" := 0, "r.n" := 1, "r.w" := 2, "r.w.b" := 3, "r.w.b.x" := 4, "r.w.k" := 5],
                    1048576, RepeatSeq())
  }

  lemma {:induction false} RepeatNames()
    ensures var paths := RepeatRequest().paths;
            && paths.Keys == {"r", "r.n", "r.w", "r.w.b", "r.w.b.x", "r.w.k"}
            && paths["r"] == 0 && paths["r.n"] == 1 && paths["r.w"] == 2
            && paths["r.w.b"] == 3 && paths["r.w.b.x"] == 4 && paths["r.w.k"] == 5
  {
    assert "r.n"[2] == 'n' && "r.w"[2] == 'w' && "r.w.b"[4] == 'b' && "r.w.k"[4] == 'k';
  }

  lemma {:induction false} RepeatIndexed()
    ensures Indexed(RepeatEntries(), RepeatRequest().paths)
  {
    RepeatNames();
    var entries, paths := RepeatEntries(), RepeatRequest().paths;
    forall i | 0 <= i < 6 ensures entries[i].path in paths && paths[entries[i].path] == i {
      assert i == 0 || i == 1 || i == 2 || i == 3 || i == 4 || i == 5;
    }
    forall path <- paths ensures paths[path] < 6 && entries[paths[path]].path == path {
      assert path in {"r", "r.n", "r.w", "r.w.b", "r.w.b.x", "r.w.k"};
    }
  }

  lemma {:induction false} RepeatClean()
    ensures Clean(RepeatEntries())
  {
    var entries := RepeatEntries();
    forall i | 0 <= i < 6 ensures EntryClean(entries[i]) {
      assert i == 0 || i == 1 || i == 2 || i == 3 || i == 4 || i == 5;
    }
  }

  lemma {:induction false} UnitPlaced()
    ensures NodeSize(Nested(UnitBlock())) == 2 && Placed(RepeatEntries(), Nested(UnitBlock()), "r.w", Some(2), 3)
  {
    var leaf, entries := Leaf("x", Field([7], [[9]])), RepeatEntries();
    assert [leaf][1..] == [] && NodesSize([leaf]) == NodeSize(leaf) + NodesSize([]) == 1;
    assert PathOf("r.w", "b") == "r.w.b";
    assert PathOf("r.w.b", "x") == "r.w.b.x";
    assert Indices([leaf], 4) == [4] + Indices([], 5) == [4];
    assert Placed(entries, leaf, "r.w.b", Some(3), 4);
    assert PlacedAll(entries, [leaf], "r.w.b", 3, 4);
  }

  lemma {:induction false} CopiesPlaced()
    ensures NodeSize(Nested(CopiesBlock())) == 4 && Placed(RepeatEntries(), Nested(CopiesBlock()), "r", Some(0), 2)
  {
    UnitPlaced();
    var children, entries := CopiesBlock().children, RepeatEntries();
    var last := children[1..];
    assert last[1..] == [] && NodesSize(last) == 1 && NodesSize(children) == 3;
    assert PathOf("r", "w") == "r.w";
    assert PathOf("r.w", "k") == "r.w.k";
    assert Indices(last, 5) == [5] + Indices(last[1..], 6) == [5];
    assert Indices(children, 3) == [3] + Indices(last, 5) == [3, 5];
    assert PlacedAll(entries, last, "r.w", 2, 5);
    assert PlacedAll(entries, children, "r.w", 2, 3);
  }

  lemma {:induction false} RepeatPlaced()
    ensures IsTable(RepeatEntries(), Nested(RepeatBlock()))
  {
    CopiesPlaced();
    var children, entries := RepeatBlock().children, RepeatEntries();
    var last := children[1..];
    assert last[1..] == [] && NodesSize(last) == 4 && NodesSize(children) == 5;
    assert PathOf("r", "n") == "r.n";
    assert Indices(last, 2) == [2] + Indices(last[1..], 6) == [2];
    assert Indices(children, 1) == [1] + Indices(last, 2) == [1, 2];
    assert PlacedAll(entries, last, "r", 0, 2);
    assert PlacedAll(entries, children, "r", 0, 1);
  }

  lemma {:induction false} RepeatWellFormed()
    ensures WellFormed(RepeatRequest()) && Forward(RepeatEntries())
  {
    RepeatPlaced();
    RepeatIndexed();
    TableWellFormed(RepeatRequest(), Nested(RepeatBlock()));
  }

  lemma {:induction false} RepeatReferences()
    requires WellFormed(RepeatRequest())
    ensures forall i: nat :: ReferencesOk(RepeatRequest(), i)
  {
    RepeatNames();
    var entries := RepeatEntries();
    assert !("r.w.b" + "." <= "r.w.k") by {
      assert |"r.w.b."| > |"r.w.k"|;
    }
    forall i: nat ensures ReferencesOk(RepeatRequest(), i) {
      assert i < 6 ==> entries[i].condition.None? && !entries[i].kind.Mirror?;
      assert i < 6 && entries[i].kind.Repetition? ==> i == 5;
    }
  }

  lemma {:induction false} RepeatBuilt()
    requires Forward(RepeatEntries())
    ensures BuildCaseSeq(RepeatEntries(), map[], 0) == RepeatSeq()
  {
    var entries := RepeatEntries();
    assert ForwardAt(entries, 0);
    CopiesBuilt();
    var copies := Sequence([Sequence([Plain(4)]), Plain(5)]);
    assert [1, 2][1..] == [2] && [2][1..] == [];
    assert BuildAll(entries, map[], 0, [2]) == [copies] + BuildAll(entries, map[], 0, []) == [copies];
    assert BuildAll(entries, map[], 0, [1, 2]) == [Sequence([])] + BuildAll(entries, map[], 0, [2]);
  }

  lemma {:induction false} CopiesBuilt()
    requires Forward(RepeatEntries())
    ensures BuildCaseSeq(RepeatEntries(), map[], 2) == Sequence([Sequence([Plain(4)]), Plain(5)])
  {
    var entries := RepeatEntries();
    assert ForwardAt(entries, 2) && ForwardAt(entries, 3);
    assert [4][1..] == [] &&
      BuildAll(entries, map[], 3, [4]) == [Plain(4)] + BuildAll(entries, map[], 3, []) == [Plain(4)];
    var unit := Sequence([Plain(4)]);
    assert BuildCaseSeq(entries, map[], 3) == unit && BuildCaseSeq(entries, map[], 5) == Plain(5);
    assert [3, 5][1..] == [5] && [5][1..] == [];
    assert BuildAll(entries, map[], 2, [5]) == [Plain(5)] + BuildAll(entries, map[], 2, []) == [Plain(5)];
    assert BuildAll(entries, map[], 2, [3, 5]) == [unit] + BuildAll(entries, map[], 2, [5]);
  }

  lemma {:induction false} RepeatGroups()
    ensures GroupsMatch(RepeatRequest(), map[])
  {
    forall i | 0 <= i < 6 ensures RepeatEntries()[i].group.None? {
    }
  }

  lemma {:induction false} RepeatAssembled()
    ensures Assembled(RepeatRequest(), RepeatBlock())
  {
    RepeatPlaced();
    RepeatIndexed();
    RepeatClean();
    RepeatWellFormed();
    RepeatReferences();
    RepeatGroups();
    RepeatBuilt();
  }

  lemma {:induction false} RepeatRanked()
    ensures IsMeasureRank(RepeatRequest(), [4, 0, 3, 1, 0, 2])
  {
    var request, rank := RepeatRequest(), [4, 0, 3, 1, 0, 2];
    RepeatNames();
    forall i: nat, j: nat ensures MeasureDescends(request, rank, i, j) {
      if i < 6 && MeasureEdge(request, i, j) {
        assert i == 0 ==> j in [1, 2];
        assert i == 2 ==> j in [3, 5];
        assert i == 3 ==> j == 4;
        assert i == 5 ==> j == 3;
      }
    }
  }

  lemma {:induction false} RepeatGrounded()
    ensures Grounded(RepeatRequest())
  {
    RepeatAssembled();
    AssembledIsStructured(RepeatRequest(), RepeatBlock());
    RepeatRanked();
  }

  // ----- what the table measures and renders to -----

  /** A scene that replaces at most the byte, with a repeat count from the session. */
  ghost predicate RepeatedBy(scene: Scene, byte: Byte, count: int) {
    && scene.request == RepeatRequest() && Sound(scene)
    && (forall i: nat :: i != 4 ==> Lookup(scene.replacements, i).None?)
    && [byte] == (match Lookup(scene.replacements, 4) case Some(value) => value case None => [7])
    && RepeatReplaced(scene, 5) && RepeatCount(scene, 5) == Ok(count)
  }

  lemma {:induction false} RepeatVisible(scene: Scene, i: nat)
    requires scene.request == RepeatRequest() && WellFormed(scene.request) && i < 6
    ensures Visible(scene, i) == Ok(true)
  {
    assert Visible(scene, 0) == Ok(true);
    assert Visible(scene, 2) == Ok(true);
    assert Visible(scene, 3) == Ok(true);
  }

  lemma {:induction false} UnitMeasures(scene: Scene, byte: Byte, count: int)
    requires RepeatedBy(scene, byte, count)
    ensures Measure(scene, 3, {}) == Ok(1) && Emit(scene, Sizes(scene), 3, {}) == Ok([Token(4, [byte])])
  {
    RepeatVisible(scene, 3);
    RepeatVisible(scene, 4);
    var token := Token(4, [byte]);
    FlattenOne(token);
    assert [] + [token] == [token] && Flatten([]) == [];
    assert Measure(scene, 4, {}) == Ok(1);
    assert MeasureChildren(scene, 3, 1, 1) == Ok(1);
    assert MeasureChildren(scene, 3, 0, 0) == Ok(1);
    assert Emit(scene, Sizes(scene), 4, {}) == Ok([token]);
    assert EmitChildren(scene, Sizes(scene), 3, 1, {}, [token]) == Ok([token]);
    assert EmitChildren(scene, Sizes(scene), 3, 0, {}, []) == Ok([token]);
  }

  /** A repetition of one byte is measured as its count. */
  lemma {:induction false} CountMeasures(scene: Scene, i: nat, target: nat, count: int)
    requires Sound(scene) && i < |scene.request.entries| && target < |scene.request.entries|
    requires scene.request.entries[i].kind.Repetition? && Visible(scene, i) == Ok(true)
    requires scene.request.Resolve(scene.request.entries[i].kind.target) == Ok(target)
    requires RepeatReplaced(scene, i) && RepeatCount(scene, i) == Ok(count) && -1 <= count <= 0
    requires Measure(scene, target, {}) == Ok(1)
    ensures Measure(scene, i, {}) == Ok(count)
  {
    assert TruncatedDiv(scene.request.maxBytes, 1) == scene.request.maxBytes && ToInt32(1 * count) == count;
  }

  lemma {:induction false} CopyMeasures(scene: Scene, byte: Byte, count: int)
    requires RepeatedBy(scene, byte, count) && -1 <= count <= 0
    ensures Measure(scene, 5, {}) == Ok(count)
  {
    RepeatNames();
    UnitMeasures(scene, byte, count);
    RepeatVisible(scene, 5);
    CountMeasures(scene, 5, 3, count);
  }

  /** Copies that are not positive in number are none. */
  lemma {:induction false} NoCopies(scene: Scene, size: SizeRenderer, i: nat, target: nat, tokens: seq<Token>)
    requires Ready(scene) && i < |scene.request.entries| && target < |scene.request.entries|
    requires scene.request.entries[i].kind.Repetition? && Visible(scene, i) == Ok(true)
    requires scene.request.Resolve(scene.request.entries[i].kind.target) == Ok(target)
    requires RepeatReplaced(scene, i) && RepeatCount(scene, i).Ok? && RepeatCount(scene, i).value <= 0
    requires Emit(scene, size, target, {}) == Ok(tokens) && |Flatten(tokens)| == 1 <= scene.request.maxBytes
    ensures Emit(scene, size, i, {}) == Ok([])
  {
    var count := RepeatCount(scene, i).value;
    assert Times(tokens, count) == [] && scene.request.maxBytes / 1 >= 1 > count;
  }

  lemma {:induction false} CopyEmits(scene: Scene, byte: Byte, count: int)
    requires RepeatedBy(scene, byte, count) && -1 <= count <= 0
    ensures Emit(scene, Sizes(scene), 5, {}) == Ok([])
  {
    RepeatNames();
    UnitMeasures(scene, byte, count);
    RepeatVisible(scene, 5);
    FlattenOne(Token(4, [byte]));
    NoCopies(scene, Sizes(scene), 5, 3, [Token(4, [byte])]);
  }

  lemma {:induction false} CopiesMeasure(scene: Scene, byte: Byte, count: int)
    requires RepeatedBy(scene, byte, count) && -1 <= count <= 0
    ensures Measure(scene, 2, {}) == Ok(1 + count)
  {
    UnitMeasures(scene, byte, count);
    CopyMeasures(scene, byte, count);
    RepeatVisible(scene, 2);
    assert MeasureChildren(scene, 2, 2, 1 + count) == Ok(1 + count);
    assert MeasureChildren(scene, 2, 1, 1) == Ok(1 + count);
    assert MeasureChildren(scene, 2, 0, 0) == Ok(1 + count);
  }

  lemma {:induction false} CopiesEmit(scene: Scene, byte: Byte, count: int)
    requires RepeatedBy(scene, byte, count) && -1 <= count <= 0
    ensures Emit(scene, Sizes(scene), 2, {}) == Ok([Token(4, [byte])])
    ensures Render(scene, Sizes(scene), 2, {}) == Ok([byte])
  {
    UnitMeasures(scene, byte, count);
    CopyEmits(scene, byte, count);
    RepeatVisible(scene, 2);
    var size, token := Sizes(scene), Token(4, [byte]);
    FlattenOne(token);
    assert [] + [token] == [token] && [token] + [] == [token] && Flatten([]) == [];
    assert EmitChildren(scene, size, 2, 2, {}, [token]) == Ok([token]);
    assert EmitChildren(scene, size, 2, 1, {}, [token]) == Ok([token]);
    assert EmitChildren(scene, size, 2, 0, {}, []) == Ok([token]);
  }

  lemma {:induction false} RepeatNumber(scene: Scene, byte: Byte, count: int)
    requires RepeatedBy(scene, byte, count) && -1 <= count <= 0
    ensures SizeValue(scene, WHOLE) == Ok([1 + count])
  {
    RepeatNames();
    CopiesMeasure(scene, byte, count);
    assert IntegerMax(1) == 255 by {
      assert Power(256, 1) == 256;
    }
    var value := 1 + count;
    assert LittleBytes(value, 1) == [value] + LittleBytes(value / 256, 0) == [value];
  }

  lemma {:induction false} LengthEmits(scene: Scene, byte: Byte, count: int)
    requires RepeatedBy(scene, byte, count) && -1 <= count <= 0
    ensures Emit(scene, Sizes(scene), 1, {}) == Ok([Token(1, [1 + count])])
  {
    RepeatNumber(scene, byte, count);
    RepeatVisible(scene, 1);
  }

  lemma {:induction false} RepeatEmits(scene: Scene, byte: Byte, count: int)
    requires RepeatedBy(scene, byte, count) && -1 <= count <= 0
    ensures Emit(scene, Sizes(scene), 0, {}) == Ok([Token(1, [1 + count]), Token(4, [byte])])
  {
    LengthEmits(scene, byte, count);
    CopiesEmit(scene, byte, count);
    RepeatVisible(scene, 0);
    var size, first, second := Sizes(scene), Token(1, [1 + count]), Token(4, [byte]);
    FlattenOne(first);
    FlattenOne(second);
    assert Flatten([]) == [] && [] + [first] == [first] && [first] + [second] == [first, second];
    assert EmitChildren(scene, size, 0, 2, {}, [first, second]) == Ok([first, second]);
    assert EmitChildren(scene, size, 0, 1, {}, [first]) == Ok([first, second]);
    assert EmitChildren(scene, size, 0, 0, {}, []) == EmitChildren(scene, size, 0, 1, {}, [first]);
  }

  lemma {:induction false} RepeatRenders(scene: Scene, byte: Byte, count: int)
    requires RepeatedBy(scene, byte, count) && -1 <= count <= 0
    ensures Render(scene, Sizes(scene), 0, {}) == Ok([1 + count, byte])
  {
    RepeatEmits(scene, byte, count);
    var first, second := Token(1, [1 + count]), Token(4, [byte]);
    FlattenOne(first);
    FlattenOne(second);
    FlattenAppend([first], [second]);
    assert [first] + [second] == [first, second] && [1 + count] + [byte] == [1 + count, byte];
  }

  // ----- it compiles -----

  lemma {:induction false} RepeatReaches(d: nat)
    requires Structured(RepeatRequest())
    ensures !Reaches(RepeatRequest(), SizeFields, 2, d)
  {
    var request := RepeatRequest();
    RepeatNames();
    assert EntryOk(request, 2) && EntryOk(request, 3);
    assert Descends(request, StructuralRank(request), 2, 3) && Descends(request, StructuralRank(request), 2, 5);
    assert Descends(request, StructuralRank(request), 3, 4) && Descends(request, StructuralRank(request), 5, 3);
    assert !Reaches(request, SizeFields, 4, d);
    assert !Reaches(request, SizeFields, 3, d);
    assert !Reaches(request, SizeFields, 5, d);
  }

  lemma {:induction false} RepeatFields()
    requires Structured(RepeatRequest())
    ensures AcyclicDependencies(RepeatRequest(), SizeFields)
    ensures forall i: nat :: FieldOk(RepeatRequest(), SizeFields, i)
  {
    var request, rank := RepeatRequest(), [0, 0, 0, 0, 0, 0];
    RepeatNames();
    forall c: nat, d: nat ensures DependencyDescends(request, SizeFields, rank, c, d) {
      RepeatReaches(d);
      assert Wanted(request, SizeFields, c) ==> c == 1;
    }
    assert IsDependencyRank(request, SizeFields, rank);
    forall i: nat ensures FieldOk(request, SizeFields, i) {
      RepeatReaches(i);
      assert Wanted(request, SizeFields, i) ==> i == 1;
    }
  }

  lemma {:induction false} RepeatSums()
    requires Structured(RepeatRequest())
    ensures AcyclicDependencies(RepeatRequest(), ChecksumFields)
    ensures forall i: nat :: FieldOk(RepeatRequest(), ChecksumFields, i)
  {
    assert forall i: nat :: !Wanted(RepeatRequest(), ChecksumFields, i);
    NothingWanted(RepeatRequest(), ChecksumFields);
  }

  lemma {:induction false} RepeatDefaults(digest: Digest)
    requires Grounded(RepeatRequest())
    ensures Sound(DefaultScene(RepeatRequest(), digest)) && DefaultsOk(RepeatRequest(), digest)
  {
    var request, scene := RepeatRequest(), DefaultScene(RepeatRequest(), digest);
    assert forall i: nat :: RepeatReplaced(scene, i);
    RepeatNumber(scene, 7, 0);
    RepeatRenders(scene, 7, 0);
    forall i: nat ensures DefaultSizeOk(request, digest, i) {
      assert i < 6 && request.entries[i].kind.ComputedSize? ==> i == 1;
    }
  }

  lemma {:induction false} RepeatCompiled(digest: Digest)
    ensures Compiled(RepeatRequest(), RepeatBlock(), digest)
  {
    RepeatAssembled();
    RepeatGrounded();
    RepeatFields();
    RepeatSums();
    RepeatDefaults(digest);
  }

  // ----- the emitted case -----

  /** The session variable is a count with its top bit set. */
  function RepeatPlan(digest: Digest): Plan {
    Plan(RepeatRequest(), digest, Some(map["v" := [255, 255, 255, 255]]))
  }

  lemma {:induction false} TopBitCount()
    ensures DecodeRepeat([255, 255, 255, 255]) == -1
  {
    assert [255, 255, 255, 255][..4] == [255, 255, 255, 255];
    assert [255, 255, 255, 255][1..] == [255, 255, 255] && [255, 255, 255][1..] == [255, 255];
    assert [255, 255][1..] == [255] && [255][1..] == [];
    assert LittleValue([255]) == 255 && LittleValue([255, 255]) == 65535 && LittleValue([255, 255, 255]) == 16777215;
    assert LittleValue([255, 255, 255, 255]) == 4294967295;
  }

  lemma {:induction false} RepeatListed()
    ensures [(4, 0)] in SequentialParts(RepeatRequest())
  {
    RepeatLeaves();
    assert CountAt(Counts(RepeatRequest()), 4) == 1 by {
      assert RepeatEntries()[4].kind.Count() == 1;
    }
    RepeatAssembled();
    LeafEnumerated(RepeatRequest(), RepeatBlock(), 4, 0);
  }

  lemma {:induction false} RepeatLeaves()
    ensures 4 in Leaves(RepeatSeq())
  {
    var plain: CaseSeq, empty: CaseSeq := Plain(4), Sequence([]);
    var unit := Sequence([plain]);
    var copies := Sequence([unit, Plain(5)]);
    LeafFirst(plain, [], 4);
    LeafFirst(unit, [Plain(5)], 4);
    assert [unit] + [Plain(5)] == [unit, Plain(5)] && 4 in Leaves(copies);
    LeafFirst(copies, [], 4);
    LeafLater(empty, [copies], 4);
    assert [empty] + [copies] == [empty, copies];
  }

  lemma {:induction false} RepeatCase(digest: Digest)
    requires PlanOk(RepeatPlan(digest))
    ensures PartsOk(RepeatRequest(), [(4, 0)]) && RepeatedBy(SceneOf(RepeatPlan(digest), [(4, 0)]), 9, -1)
  {
    var parts: Parts := [(4, 0)];
    assert PartsOk(RepeatRequest(), parts);
    var scene := SceneOf(RepeatPlan(digest), parts);
    assert scene.replacements == [(4, [9])];
    forall i: nat ensures Lookup(scene.replacements, i) == if i == 4 then Some([9]) else None {
      LookupSingle(4, [9], i);
    }
    TopBitCount();
  }

  lemma {:induction false} RepeatUnfaithful(scene: Scene)
    requires RepeatedBy(scene, 9, -1)
    ensures Proper(scene) && !Faithful(scene)
  {
    RepeatNames();
    UnitMeasures(scene, 9, -1);
    CopyMeasures(scene, 9, -1);
    CopyEmits(scene, 9, -1);
    RepeatVisible(scene, 5);
    forall i: nat ensures CandidateLike(scene, i) {
    }
    assert NoActiveMirror(scene.request, 5, {});
    assert !NegativeAgrees(scene, 5, {});
  }

  lemma {:induction false} RepeatMisled()
    ensures !TellsSize(WHOLE, [0], [9])
  {
    assert [0][1..] == [] && LittleValue([0]) == 0;
  }

  lemma {:induction false} RepeatEmitted(digest: Digest, ordinal: nat)
    requires PlanOk(RepeatPlan(digest)) && PartsOk(RepeatRequest(), [(4, 0)])
    requires RepeatedBy(SceneOf(RepeatPlan(digest), [(4, 0)]), 9, -1)
    ensures var built := CaseAt(RepeatPlan(digest), [(4, 0)], ordinal); built.Ok? && built.value.payload == [0, 9]
  {
    RepeatRenders(SceneOf(RepeatPlan(digest), [(4, 0)]), 9, -1);
  }

  /**
   The definition compiles. In a session whose repeat count has its top bit set, a case is emitted in which the
   size in front of the block says that nothing follows where one byte does: the copies are measured as minus one.
   */
  lemma {:induction false} NegativeCountMisleads(digest: Digest, ordinal: nat)
    ensures Compiled(RepeatRequest(), RepeatBlock(), digest) && [(4, 0)] in SequentialParts(RepeatRequest())
    ensures PlanOk(RepeatPlan(digest)) && PartsOk(RepeatRequest(), [(4, 0)])
    ensures var built := CaseAt(RepeatPlan(digest), [(4, 0)], ordinal); built.Ok? && built.value.payload == [0, 9]
    ensures var scene := SceneOf(RepeatPlan(digest), [(4, 0)]);
            && Proper(scene) && !Faithful(scene)
            && Emit(scene, Sizes(scene), 0, {}) == Ok([Token(1, [0]), Token(4, [9])])
            && Measure(scene, 2, {}) == Ok(0) && Render(scene, Sizes(scene), 2, {}) == Ok([9])
            && !TellsSize(WHOLE, [0], [9])
  {
    RepeatCompiled(digest);
    RepeatListed();
    RepeatCase(digest);
    var scene := SceneOf(RepeatPlan(digest), [(4, 0)]);
    RepeatEmitted(digest, ordinal);
    RepeatUnfaithful(scene);
    RepeatEmits(scene, 9, -1);
    CopiesMeasure(scene, 9, -1);
    CopiesEmit(scene, 9, -1);
    RepeatMisled();
  }
}
