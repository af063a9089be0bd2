/** What the sizes and checksums in the payload of an emitted case say. */
module CasePayloads {
  import opened Wrappers
  import opened Arithmetic
  import opened Integers
  import opened CaseSequences
  import opened Model
  import opened Assembly
  import opened Rendering
  import opened Measuring
  import opened Dependencies
  import opened Checksums
  import opened Compilation
  import opened CompiledRequests
  import opened CaseBuilding
  import opened Definitions
  import opened NodeMeanings

  // ----- repeat candidates -----

  lemma {:induction false} CandidateInRange(min: int, max: int, step: int, index: nat)
    requires 0 <= min <= max && step > 0 && index < (max - min) / step + 1
    ensures step * index == index * step && min <= min + index * step <= max
    ensures max < min + ((max - min) / step + 1) * step
  {
    var q, r := QuotientRemainder(max - min, step);
    Distribute(q, 1, step);
    MulLe(index, q, step);
  }

  lemma {:induction false} CountRoundTrip(value: nat)
    requires value < 0x8000_0000
    ensures DecodeRepeat(EncodeInteger(ToUInt64(value), 4, Little)) == value
  {
    var bytes := LittleBytes(value, 4);
    assert ToUInt64(value) == value && bytes[..4] == bytes;
    assert value <= IntegerMax(4) by {
      assert Power(256, 4) == 0x1_0000_0000;
    }
    LittleRoundTrip(value, 4);
  }

  /** Candidate k decodes to the k-th count of the range, which is used up to the last one not above its maximum. */
  lemma {:induction false} RepeatCandidate(request: CompiledRequest, part: Part)
    requires Clean(request.entries) && PartOk(request, part) && request.entries[part.0].kind.Repetition?
    ensures |CandidateOf(request, part)| == 4
    ensures var kind := request.entries[part.0].kind;
            && DecodeRepeat(CandidateOf(request, part)) == kind.min + part.1 * kind.step
            && 0 <= kind.min <= DecodeRepeat(CandidateOf(request, part)) <= kind.max
            && kind.max < kind.min + kind.Count() * kind.step
  {
    var kind := request.entries[part.0].kind;
    assert EntryClean(request.entries[part.0]);
    CandidateInRange(kind.min, kind.max, kind.step, part.1);
    CountRoundTrip(kind.min + kind.step * part.1);
  }

  /** What the candidates of a node of the definition are. */
  ghost predicate CandidateMeans(node: Node, k: nat, bytes: Bytes) {
    match node
    case Leaf(_, field) => k < |field.candidates| && bytes == field.candidates[k]
    case Bound(_, _, field) => k < |field.candidates| && bytes == field.candidates[k]
    case Sized(_, spec) => k < |spec.mutations| && bytes == spec.mutations[k]
    case Checksummed(_, spec) => k < |spec.mutations| && bytes == spec.mutations[k]
    case Repeat(_, _, min, max, step, _) =>
      |bytes| == 4 && DecodeRepeat(bytes) == min + k * step && min <= DecodeRepeat(bytes) <= max
    case _ => false
  }

  /** How many candidates a node has: blocks and mirrors none, a repetition one for each count of its range. */
  ghost predicate CountMeansFor(node: Node, n: nat) {
    match node
    case Leaf(_, field) => n == |field.candidates|
    case Bound(_, _, field) => n == |field.candidates|
    case Sized(_, spec) => n == |spec.mutations|
    case Checksummed(_, spec) => n == |spec.mutations|
    case Repeat(_, _, min, max, step, _) => min + (n - 1) * step <= max < min + n * step
    case _ => n == 0
  }

  /** The candidates that cases take are those of the nodes of the definition, by number and in number. */
  lemma {:induction false} CandidateOfNode(request: CompiledRequest, root: Block, part: Part)
    requires Assembled(request, root) && part.0 < |request.entries|
    ensures CountMeansFor(NodeAt(root, part.0), request.entries[part.0].kind.Count())
    ensures PartOk(request, part) ==> CandidateMeans(NodeAt(root, part.0), part.1, CandidateOf(request, part))
  {
    EntryOfNode(request.entries, root, part.0);
    var kind := request.entries[part.0].kind;
    if kind.Repetition? {
      assert EntryClean(request.entries[part.0]);
      RangeCount(kind.min, kind.max, kind.step);
      if PartOk(request, part) {
        RepeatCandidate(request, part);
      }
    }
  }

  lemma {:induction false} RangeCount(min: int, max: int, step: int)
    requires 0 <= min <= max && step > 0
    ensures var n := (max - min) / step + 1; n > 0 && min + (n - 1) * step <= max < min + n * step
  {
    CandidateInRange(min, max, step, (max - min) / step);
  }

  // ----- the scenes of cases -----

  /** Every scene that a case is built in meets the conditions of the agreement theorem. */
  lemma {:induction false} CaseIsProper(plan: Plan, parts: Parts)
    requires PlanOk(plan) && PartsOk(plan.request, parts)
    ensures Proper(SceneOf(plan, parts))
  {
    var scene := SceneOf(plan, parts);
    forall i: nat ensures CandidateLike(scene, i) {
      if i < |plan.request.entries| && Lookup(scene.replacements, i).Some? {
        ReplacedByCandidate(plan, parts, i);
      }
    }
  }

  /** What replaces an entry in a case is a candidate of that entry. */
  lemma {:induction false} ReplacedByCandidate(plan: Plan, parts: Parts, i: nat)
    requires PlanOk(plan) && PartsOk(plan.request, parts)
    requires Lookup(ReplacementsOf(plan.request, parts), i).Some?
    ensures exists k :: 0 <= k < |parts| && parts[k].0 == i && PartOk(plan.request, parts[k])
                        && Lookup(ReplacementsOf(plan.request, parts), i).value == CandidateOf(plan.request, parts[k])
  {
    var replacements := ReplacementsOf(plan.request, parts);
    LookupIsMember(replacements, i);
    var k :| 0 <= k < |replacements| && replacements[k] == (i, Lookup(replacements, i).value);
    assert PartOk(plan.request, parts[k]);
  }

  predicate IsAsciiPart(request: CompiledRequest, part: Part) {
    && part.0 < |request.entries|
    && request.entries[part.0].kind.ComputedSize? && request.entries[part.0].kind.size.ascii
  }

  /** The session variable of a repetition holds no negative count. */
  predicate VariableCounts(request: CompiledRequest, vars: Variables, i: nat) {
    i < |request.entries| && request.entries[i].kind.Repetition? && request.entries[i].kind.variable.Some? &&
      vars.Some? ==>
      var name := request.entries[i].kind.variable.value;
      name in vars.value && |vars.value[name]| >= 4 ==> DecodeRepeat(vars.value[name]) >= 0
  }

  /** Without mutated ascii sizes and negative session counts, measuring agrees with rendering in every case. */
  lemma {:induction false} CaseIsFaithful(plan: Plan, parts: Parts)
    requires PlanOk(plan) && PartsOk(plan.request, parts)
    requires Clean(plan.request.entries)
    requires forall part <- parts :: !IsAsciiPart(plan.request, part)
    requires forall i: nat :: VariableCounts(plan.request, plan.vars, i)
    ensures Faithful(SceneOf(plan, parts))
  {
    CaseIsProper(plan, parts);
    var scene := SceneOf(plan, parts);
    forall i: nat ensures AsciiAgrees(scene, i) {
      if i < |plan.request.entries| && Lookup(scene.replacements, i).Some? {
        ReplacedByCandidate(plan, parts, i);
        var k :| 0 <= k < |parts| && parts[k].0 == i;
        assert parts[k] in parts && !IsAsciiPart(plan.request, parts[k]);
      }
    }
    forall i: nat, active: set<nat> ensures NegativeAgrees(scene, i, active) {
      if i < |plan.request.entries| && plan.request.entries[i].kind.Repetition? {
        CaseCounts(plan, parts, i);
      }
    }
  }

  /** No repeat count of a case is negative. */
  lemma {:induction false} CaseCounts(plan: Plan, parts: Parts, i: nat)
    requires PlanOk(plan) && PartsOk(plan.request, parts) && Clean(plan.request.entries)
    requires i < |plan.request.entries| && plan.request.entries[i].kind.Repetition?
    requires VariableCounts(plan.request, plan.vars, i)
    ensures RepeatReplaced(SceneOf(plan, parts), i)
    ensures RepeatCount(SceneOf(plan, parts), i).Ok? ==> RepeatCount(SceneOf(plan, parts), i).value >= 0
  {
    var scene := SceneOf(plan, parts);
    assert RepeatReplaced(scene, i);
    if Lookup(scene.replacements, i).Some? {
      ReplacedByCandidate(plan, parts, i);
      var k :| 0 <= k < |parts| && parts[k].0 == i && PartOk(plan.request, parts[k])
               && Lookup(ReplacementsOf(plan.request, parts), i).value == CandidateOf(plan.request, parts[k]);
      RepeatCandidate(plan.request, parts[k]);
    }
  }

  // ----- payloads -----

  /** The payload of a case is made of the tokens of its scene. */
  lemma {:induction false} PayloadTokens(plan: Plan, parts: Parts, ordinal: nat)
    requires PlanOk(plan) && PartsOk(plan.request, parts) && CaseAt(plan, parts, ordinal).Ok?
    ensures var tokens := Emit(SceneOf(plan, parts), Sizes(SceneOf(plan, parts)), 0, {});
            tokens.Ok? && CaseAt(plan, parts, ordinal).value.payload == Flatten(tokens.value)
  {
  }

  /**
   A case exists exactly when the definition renders with its replacements and the candidate of its own plain field
   fits the byte budget, and its payload fits too.
   */
  lemma {:induction false} CaseFits(plan: Plan, root: Block, parts: Parts, ordinal: nat)
    requires PlanOk(plan) && Assembled(plan.request, root) && PartsOk(plan.request, parts)
    ensures var scene, leaf := SceneOf(plan, parts), parts[|parts| - 1];
            && PartOk(plan.request, leaf)
            && (CaseAt(plan, parts, ordinal).Ok? <==>
                  && Render(scene, Sizes(scene), 0, {}).Ok?
                  && (NodeAt(root, leaf.0).Leaf? ==>
                        |NodeAt(root, leaf.0).field.candidates| > leaf.1
                        && |NodeAt(root, leaf.0).field.candidates[leaf.1]| <= plan.request.maxBytes))
    ensures CaseAt(plan, parts, ordinal).Ok? ==>
              |CaseAt(plan, parts, ordinal).value.payload| <= plan.request.maxBytes
  {
    var scene, leaf := SceneOf(plan, parts), parts[|parts| - 1];
    assert PartOk(plan.request, leaf);
    EntryOfNode(plan.request.entries, root, leaf.0);
    if CaseAt(plan, parts, ordinal).Ok? {
      RootFits(scene, root, Sizes(scene));
    }
  }

  /** Whatever a whole definition renders to fits the byte budget. */
  lemma {:induction false} RootFits(scene: Scene, root: Block, size: SizeRenderer)
    requires Assembled(scene.request, root) && Ready(scene)
    ensures var r := Render(scene, size, 0, {}); r.Ok? ==> |r.value| <= scene.request.maxBytes
  {
    var r := Render(scene, size, 0, {});
    NodeRenders(scene, root, size, 0, {});
    EntryOfNode(scene.request.entries, root, 0);
    if r.Ok? && Visible(scene, 0) == Ok(true) && Lookup(scene.replacements, 0).None? {
      var children := scene.request.entries[0].kind.children;
      var pieces :| RenderTo(scene, size, children, {}, pieces);
      assert PiecesMean(root, pieces, scene.request.maxBytes, r);
    }
  }

  /** An unreplaced checksum is the digest of its target as emitted with only its own occurrences zeroed. */
  ghost predicate ChecksumTold(scene: Scene, token: Token)
    requires Sound(scene)
  {
    Wanted(scene.request, ChecksumFields, token.entry) && Lookup(scene.replacements, token.entry).None? ==>
      var target := scene.request.Resolve(TargetOf(scene.request, ChecksumFields, token.entry));
      var spec := scene.request.entries[token.entry].kind.checksum;
      && target.Ok? && Emit(scene, Sizes(scene), target.value, {}).Ok?
      && CarriesDigest(spec, token.bytes, scene.digest(spec.algorithm, Flatten(
                         ZeroField(token.entry, Emit(scene, Sizes(scene), target.value, {}).value))))
  }

  /** An unreplaced size tells the rendered length of its target, wherever that renders. */
  ghost predicate SizeTold(scene: Scene, token: Token)
    requires Sound(scene)
  {
    Wanted(scene.request, SizeFields, token.entry) && Lookup(scene.replacements, token.entry).None? ==>
      var target := scene.request.Resolve(TargetOf(scene.request, SizeFields, token.entry));
      && target.Ok?
      && (Render(scene, Sizes(scene), target.value, {}).Ok? ==>
            TellsSize(scene.request.entries[token.entry].kind.size, token.bytes,
              Render(scene, Sizes(scene), target.value, {}).value))
  }

  /** Every checksum in the payload of every case of a compiled request without mirrors. */
  lemma {:induction false} CaseChecksums(plan: Plan, root: Block, parts: Parts, ordinal: nat)
    requires Compiled(plan.request, root, plan.digest) && MirrorFree(plan.request)
    requires PartsOk(plan.request, parts) && CaseAt(plan, parts, ordinal).Ok?
    ensures var tokens := Emit(SceneOf(plan, parts), Sizes(SceneOf(plan, parts)), 0, {});
            && tokens.Ok? && CaseAt(plan, parts, ordinal).value.payload == Flatten(tokens.value)
            && forall token <- tokens.value :: ChecksumTold(SceneOf(plan, parts), token)
  {
    var scene := SceneOf(plan, parts);
    var size := Sizes(scene);
    PayloadTokens(plan, parts, ordinal);
    var tokens := Emit(scene, size, 0, {}).value;
    forall token <- tokens ensures ChecksumTold(scene, token) {
      if Wanted(scene.request, ChecksumFields, token.entry) && Lookup(scene.replacements, token.entry).None? {
        var n :| 0 <= n < |tokens| && tokens[n] == token;
        assert FieldOk(plan.request, ChecksumFields, token.entry);
        PayloadChecksums(scene, size, 0, n,
          scene.request.Resolve(TargetOf(scene.request, ChecksumFields, token.entry)).value);
      }
    }
  }

  /** Every size in the payload of every case of a compiled request without mirrors, as far as measuring agrees. */
  lemma {:induction false} CaseSizes(plan: Plan, root: Block, parts: Parts, ordinal: nat)
    requires Compiled(plan.request, root, plan.digest) && MirrorFree(plan.request)
    requires PartsOk(plan.request, parts) && CaseAt(plan, parts, ordinal).Ok? && Faithful(SceneOf(plan, parts))
    ensures var tokens := Emit(SceneOf(plan, parts), Sizes(SceneOf(plan, parts)), 0, {});
            && tokens.Ok? && CaseAt(plan, parts, ordinal).value.payload == Flatten(tokens.value)
            && forall token <- tokens.value :: SizeTold(SceneOf(plan, parts), token)
  {
    var scene := SceneOf(plan, parts);
    PayloadTokens(plan, parts, ordinal);
    var tokens := Emit(scene, Sizes(scene), 0, {}).value;
    forall token <- tokens ensures SizeTold(scene, token) {
      if Wanted(scene.request, SizeFields, token.entry) && Lookup(scene.replacements, token.entry).None? {
        var n :| 0 <= n < |tokens| && tokens[n] == token;
        assert FieldOk(plan.request, SizeFields, token.entry);
        var target := scene.request.Resolve(TargetOf(scene.request, SizeFields, token.entry)).value;
        if Render(scene, Sizes(scene), target, {}).Ok? {
          PayloadSizes(scene, 0, n, target, Render(scene, Sizes(scene), target, {}).value);
        }
      }
    }
  }

  /** The same from the definition: no mirrors, no mutated ascii size, no negative session count. */
  lemma {:induction false} EmittedSizes(plan: Plan, root: Block, parts: Parts, ordinal: nat)
    requires Compiled(plan.request, root, plan.digest) && NoMirrors(Nested(root))
    requires PartsOk(plan.request, parts) && CaseAt(plan, parts, ordinal).Ok?
    requires forall part <- parts :: !IsAsciiPart(plan.request, part)
    requires forall i: nat :: VariableCounts(plan.request, plan.vars, i)
    ensures var tokens := Emit(SceneOf(plan, parts), Sizes(SceneOf(plan, parts)), 0, {});
            && tokens.Ok? && CaseAt(plan, parts, ordinal).value.payload == Flatten(tokens.value)
            && forall token <- tokens.value ::
              SizeTold(SceneOf(plan, parts), token) && ChecksumTold(SceneOf(plan, parts), token)
  {
    NoMirrorsMeansMirrorFree(plan.request, Nested(root));
    CaseIsFaithful(plan, parts);
    CaseChecksums(plan, root, parts, ordinal);
    CaseSizes(plan, root, parts, ordinal);
  }
}
