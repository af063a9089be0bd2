/** Building one mutation case from its parts. */
module CaseBuilding {
  import opened Wrappers
  import opened Integers
  import opened CaseSequences
  import opened Model
  import opened Rendering
  import opened Measuring
  import opened StreamSpec

  /** What a stream builds its cases from. */
  datatype Plan = Plan(request: CompiledRequest, digest: Digest, vars: Variables)

  ghost predicate PlanOk(plan: Plan) {
    Grounded(plan.request)
  }

  /** The part names a candidate of an entry of the table. */
  predicate PartOk(request: CompiledRequest, part: Part) {
    part.0 < |request.entries| && part.1 < request.entries[part.0].kind.Count()
  }

  predicate PartsOk(request: CompiledRequest, parts: Parts) {
    |parts| > 0 && forall k :: 0 <= k < |parts| ==> PartOk(request, parts[k])
  }

  ghost predicate PendingOk(request: CompiledRequest, pending: seq<Parts>) {
    forall n :: 0 <= n < |pending| ==> PartsOk(request, pending[n])
  }

  // ----- building a case -----

  function CandidateOf(request: CompiledRequest, part: Part): Bytes
    requires PartOk(request, part)
  {
    request.entries[part.0].kind.Candidate(part.1)
  }

  function ReplacementsOf(request: CompiledRequest, parts: Parts): (r: Replacements)
    requires forall k :: 0 <= k < |parts| ==> PartOk(request, parts[k])
    ensures |r| == |parts|
    ensures forall k :: 0 <= k < |r| ==> r[k] == (parts[k].0, CandidateOf(request, parts[k]))
  {
    seq(|parts|, k requires 0 <= k < |parts| => (parts[k].0, CandidateOf(request, parts[k])))
  }

  lemma {:induction false} LookupIsMember(replacements: Replacements, i: nat)
    requires Lookup(replacements, i).Some?
    ensures exists k :: 0 <= k < |replacements| && replacements[k] == (i, Lookup(replacements, i).value)
  {
    if replacements[0].0 != i {
      LookupIsMember(replacements[1..], i);
      var k :| 0 <= k < |replacements[1..]| && replacements[1..][k] == (i, Lookup(replacements, i).value);
      assert replacements[k + 1] == (i, Lookup(replacements, i).value);
    } else {
      assert replacements[0] == (i, Lookup(replacements, i).value);
    }
  }

  lemma {:induction false} LookupSingle(e: nat, value: Bytes, i: nat)
    ensures Lookup([(e, value)], i) == if i == e then Some(value) else None
  {
    assert [(e, value)][1..] == [];
  }

  /** Replacements by candidates can always be rendered. */
  lemma {:induction false} CandidatesRenderable(request: CompiledRequest, digest: Digest, parts: Parts, vars: Variables)
    requires WellFormed(request)
    requires forall k :: 0 <= k < |parts| ==> PartOk(request, parts[k])
    ensures Renderable(Scene(request, digest, ReplacementsOf(request, parts), vars))
  {
    var scene := Scene(request, digest, ReplacementsOf(request, parts), vars);
    forall i: nat ensures RepeatReplaced(scene, i) {
      if i < |request.entries| && request.entries[i].kind.Repetition? && Lookup(scene.replacements, i).Some? {
        LookupIsMember(scene.replacements, i);
      }
    }
  }

  function SceneOf(plan: Plan, parts: Parts): (scene: Scene)
    requires PlanOk(plan) && PartsOk(plan.request, parts)
    ensures Sound(scene)
  {
    CandidatesRenderable(plan.request, plan.digest, parts, plan.vars);
    Scene(plan.request, plan.digest, ReplacementsOf(plan.request, parts), plan.vars)
  }

  /** What a part adds to the extra pairs: nothing if it is the leaf's own. */
  function ExtraOf(request: CompiledRequest, part: Part, leaf: Part): seq<(string, nat)>
    requires PartOk(request, part)
  {
    if part != leaf then [(request.entries[part.0].path, part.1)] else []
  }

  /** The parts other than the leaf's own, as (path, mutation) pairs. */
  function Extra(request: CompiledRequest, parts: Parts, leaf: Part): seq<(string, nat)>
    requires forall k :: 0 <= k < |parts| ==> PartOk(request, parts[k])
  {
    if parts == [] then [] else ExtraOf(request, parts[0], leaf) + Extra(request, parts[1..], leaf)
  }

  lemma {:induction false} ExtraPush(
      request: CompiledRequest, parts: Parts, leaf: Part, k: nat, extra: seq<(string, nat)>)
    requires forall i :: 0 <= i < |parts| ==> PartOk(request, parts[i])
    requires k < |parts|
    ensures PartOk(request, parts[k])
    ensures extra + Extra(request, parts[k..], leaf)
            == (extra + ExtraOf(request, parts[k], leaf)) + Extra(request, parts[k + 1..], leaf)
  {
    assert parts[k..][1..] == parts[k + 1..];
    var one, rest := ExtraOf(request, parts[k], leaf), Extra(request, parts[k + 1..], leaf);
    assert extra + (one + rest) == (extra + one) + rest;
  }

  /** The replacements, pushed part by part. */
  method GatherReplacements(request: CompiledRequest, parts: Parts) returns (replacements: Replacements)
    requires forall k :: 0 <= k < |parts| ==> PartOk(request, parts[k])
    ensures replacements == ReplacementsOf(request, parts)
  {
    replacements := [];
    for k := 0 to |parts|
      invariant |replacements| == k && forall i :: 0 <= i < k ==> replacements[i] == ReplacementsOf(request, parts)[i]
    {
      assert PartOk(request, parts[k]);
      replacements := replacements + [(parts[k].0, CandidateOf(request, parts[k]))];
    }
  }

  /** The pairs other than the leaf's own, pushed part by part. */
  method GatherExtra(request: CompiledRequest, parts: Parts, leaf: Part) returns (extra: seq<(string, nat)>)
    requires forall k :: 0 <= k < |parts| ==> PartOk(request, parts[k])
    ensures extra == Extra(request, parts, leaf)
  {
    extra := [];
    for k := 0 to |parts|
      invariant extra + Extra(request, parts[k..], leaf) == Extra(request, parts, leaf)
    {
      ExtraPush(request, parts, leaf, k, extra);
      extra := extra + ExtraOf(request, parts[k], leaf);
    }
    assert parts[|parts|..] == [];
  }

  function PartId(request: CompiledRequest, part: Part): string
    requires PartOk(request, part)
  {
    request.entries[part.0].path + ":" + Decimal(part.1)
  }

  function JoinIds(request: CompiledRequest, parts: Parts): string
    requires PartsOk(request, parts)
    decreases |parts|
  {
    if |parts| == 1 then PartId(request, parts[0])
    else PartId(request, parts[0]) + "+" + JoinIds(request, parts[1..])
  }

  function CaseId(request: CompiledRequest, parts: Parts): string
    requires PartsOk(request, parts)
  {
    "v1:" + JoinIds(request, parts)
  }

  /** The case at a raw position, or why it cannot exist. */
  function CaseAt(plan: Plan, parts: Parts, ordinal: nat): Result<MutationCase>
    requires PlanOk(plan) && PartsOk(plan.request, parts)
  {
    var request, leaf := plan.request, parts[|parts| - 1];
    assert PartOk(request, leaf);
    var kind := request.entries[leaf.0].kind;
    if kind.Atom? && |kind.Candidate(leaf.1)| > request.maxBytes then Err(Limit)
    else
      var scene := SceneOf(plan, parts);
      var payload :- Render(scene, Sizes(scene), 0, {});
      Ok(MutationCase(CaseId(request, parts), request.name, request.entries[leaf.0].path, leaf.1, ordinal, payload,
                      Extra(request, parts, leaf)))
  }

  /** The builder of a plan. */
  function BuilderOf(plan: Plan): (build: Builder)
    requires PlanOk(plan)
    ensures Positional(build)
  {
    (parts: Parts, ordinal: nat) => if PartsOk(plan.request, parts) then CaseAt(plan, parts, ordinal) else Err(Limit)
  }

  /** The builder gives the case of every part list that names candidates; streams produce no others. */
  ghost predicate IsBuilder(plan: Plan, build: Builder) {
    forall parts: Parts, ordinal: nat :: BuildsLike(plan, build, parts, ordinal)
  }

  ghost predicate BuildsLike(plan: Plan, build: Builder, parts: Parts, ordinal: nat) {
    PlanOk(plan) && build(parts, ordinal) == if PartsOk(plan.request, parts) then CaseAt(plan, parts, ordinal)
      else Err(Limit)
  }

  lemma {:induction false} PlanBuilds(plan: Plan)
    requires PlanOk(plan)
    ensures IsBuilder(plan, BuilderOf(plan))
  {
    forall parts: Parts, ordinal: nat ensures BuildsLike(plan, BuilderOf(plan), parts, ordinal) {
    }
  }

  /**
   Building a case in the source's form: the leaf's own size first, then the replacements, the pairs and the
   payload.
   */
  method BuildCase(plan: Plan, parts: Parts, ordinal: nat, ghost build: Builder) returns (r: Result<MutationCase>)
    requires IsBuilder(plan, build)
    ensures r == build(parts, ordinal)
  {
    assert BuildsLike(plan, build, parts, ordinal);
    if !PartsOk(plan.request, parts) {
      return Err(Limit);
    }
    r := BuildOk(plan, parts, ordinal);
  }

  method BuildOk(plan: Plan, parts: Parts, ordinal: nat) returns (r: Result<MutationCase>)
    requires PlanOk(plan) && PartsOk(plan.request, parts)
    ensures r == CaseAt(plan, parts, ordinal)
  {
    var request, leaf := plan.request, parts[|parts| - 1];
    assert PartOk(request, leaf);
    var kind := request.entries[leaf.0].kind;
    if kind.Atom? && |kind.Candidate(leaf.1)| > request.maxBytes {
      return Err(Limit);
    }
    var replacements := GatherReplacements(request, parts);
    var extra := GatherExtra(request, parts, leaf);
    var scene := SceneOf(plan, parts);
    assert replacements == scene.replacements;
    var payload :- RenderNode(scene, Sizes(scene), 0, {});
    return Ok(MutationCase(CaseId(request, parts), request.name, request.entries[leaf.0].path, leaf.1, ordinal,
      payload, extra));
  }
}
