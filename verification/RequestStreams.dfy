/** Streams of compiled requests: their enumerations, and the cases built from them. */
module RequestStreams {
  import opened Wrappers
  import opened CaseSequences
  import opened Combinations
  import opened Model
  import opened StreamSpec
  import opened CaseBuilding
  import opened CaseStreams
  import opened Assembly
  import opened Compilation
  import opened CompiledRequests

  /** Every part of every unit names a candidate. */
  lemma {:induction false} UnitPartsOk(request: CompiledRequest, s: CaseSeq, prefix: Parts)
    requires forall k :: 0 <= k < |prefix| ==> PartOk(request, prefix[k])
    ensures forall n :: 0 <= n < |Units(Counts(request), s, prefix)| ==>
      PartsOk(request, Units(Counts(request), s, prefix)[n].parts)
    decreases s, 0
  {
    var counts := Counts(request);
    match s
    case Plain(entry) => LeafUnitsShape(entry, prefix, 0, CountAt(counts, entry));
    case Sequence(children) => UnitPartsOkAll(request, children, prefix);
    case Product(group, inner) => UnitPartsOkPasses(request, group, inner, prefix, 0);
  }

  lemma {:induction false} UnitPartsOkAll(request: CompiledRequest, children: seq<CaseSeq>, prefix: Parts)
    requires forall k :: 0 <= k < |prefix| ==> PartOk(request, prefix[k])
    ensures forall n :: 0 <= n < |UnitsOfAll(Counts(request), children, prefix)| ==>
      PartsOk(request, UnitsOfAll(Counts(request), children, prefix)[n].parts)
    decreases children, 0
  {
    if children != [] {
      UnitPartsOk(request, children[0], prefix);
      UnitPartsOkAll(request, children[1..], prefix);
    }
  }

  lemma {:induction false} UnitPartsOkPasses(
      request: CompiledRequest, group: nat, inner: CaseSeq, prefix: Parts, pass: nat)
    requires forall k :: 0 <= k < |prefix| ==> PartOk(request, prefix[k])
    ensures forall n :: 0 <= n < |UnitsOfPasses(Counts(request), group, inner, prefix, pass)| ==>
      PartsOk(request, UnitsOfPasses(Counts(request), group, inner, prefix, pass)[n].parts)
    decreases inner, 1, CountAt(Counts(request), group) - pass
  {
    if pass < CountAt(Counts(request), group) {
      UnitPartsOk(request, inner, prefix + [(group, pass)]);
      UnitPartsOkPasses(request, group, inner, prefix, pass + 1);
    }
  }

  ghost predicate UnitsOk(request: CompiledRequest, units: seq<StreamUnit>) {
    LeafInParts(units) && forall n :: 0 <= n < |units| ==> PartsOk(request, units[n].parts)
  }

  lemma {:induction false} JoinOk(request: CompiledRequest, units: seq<StreamUnit>, chosen: seq<nat>)
    requires UnitsOk(request, units) && InRange(units, chosen)
    ensures forall k :: 0 <= k < |Join(units, chosen)| ==> PartOk(request, Join(units, chosen)[k])
    ensures chosen != [] ==> |Join(units, chosen)| > 0
  {
    if chosen != [] {
      JoinOk(request, units, chosen[1..]);
      assert PartsOk(request, units[chosen[0]].parts);
    }
  }

  /** Every combination names candidates only. */
  lemma {:induction false} CombinationsOk(
      request: CompiledRequest, units: seq<StreamUnit>, paths: seq<string>, maxDepth: Option<int>, depth: nat)
    requires UnitsOk(request, units) && depth > 0
    ensures PendingOk(request, FromDepth(units, paths, maxDepth, depth))
    decreases |Children(units)| + 1 - depth
  {
    var here := AtDepth(units, paths, depth);
    forall n | 0 <= n < |here| ensures PartsOk(request, here[n]) {
      AtDepthJoins(units, paths, depth, here[n]);
      var chosen :| JoinedBy(units, here[n], [], depth, {}, chosen);
      JoinOk(request, units, chosen);
    }
    DepthBounded(units, paths, depth);
    if here != [] && !LastDepth(maxDepth, depth) {
      CombinationsOk(request, units, paths, maxDepth, depth + 1);
    }
  }

  lemma {:induction false} RequestUnitsOk(request: CompiledRequest)
    ensures UnitsOk(request, Units(Counts(request), request.caseSeq, []))
  {
    UnitsLeafInParts(Counts(request), request.caseSeq);
    UnitPartsOk(request, request.caseSeq, []);
  }

  /** The raw sequential part lists of a request. */
  function SequentialParts(request: CompiledRequest): seq<Parts> {
    PartsOf(Units(Counts(request), request.caseSeq, []))
  }

  /** The raw combinatorial part lists of a request. */
  function CombinedParts(request: CompiledRequest, maxDepth: Option<int>): seq<Parts> {
    UnitsLeafInParts(Counts(request), request.caseSeq);
    FromDepth(Units(Counts(request), request.caseSeq, []), PathsOf(request), maxDepth, 1)
  }

  /** Every raw position of either enumeration names candidates of the table. */
  lemma {:induction false} EnumerationsOk(request: CompiledRequest, maxDepth: Option<int>)
    ensures PendingOk(request, SequentialParts(request))
    ensures PendingOk(request, CombinedParts(request, maxDepth))
  {
    RequestUnitsOk(request);
    CombinationsOk(request, Units(Counts(request), request.caseSeq, []), PathsOf(request), maxDepth, 1);
  }

  method Cases(plan: Plan, start: int, limit: int) returns (r: Result<CaseStream>)
    requires PlanOk(plan)
    ensures start < 0 || limit < 0 ==> r == Err(Invalid(NegativeArgument))
    ensures start >= 0 && limit >= 0 ==>
      && r.Ok? && fresh(r.value) && r.value.Valid() && r.value.build == BuilderOf(plan) && r.value.limit == limit
      && r.value.View() == Fresh(SequentialParts(plan.request), start)
  {
    if start < 0 || limit < 0 {
      return Err(Invalid(NegativeArgument));
    }
    var stream := new CaseStream.Sequential(plan, start, limit);
    return Ok(stream);
  }

  method CombinatorialCases(plan: Plan, start: int, limit: int, maxDepth: Option<int>) returns (r: Result<CaseStream>)
    requires PlanOk(plan)
    ensures start < 0 || limit < 0 ==> r == Err(Invalid(NegativeArgument))
    ensures start >= 0 && limit >= 0 ==>
      && r.Ok? && fresh(r.value) && r.value.Valid() && r.value.build == BuilderOf(plan) && r.value.limit == limit
      && r.value.View() == Fresh(CombinedParts(plan.request, maxDepth), start)
  {
    if start < 0 || limit < 0 {
      return Err(Invalid(NegativeArgument));
    }
    var stream := new CaseStream.Combinatorial(plan, start, limit, maxDepth);
    return Ok(stream);
  }

  /** A sequential case ends in the entry. */
  predicate EndsIn(parts: Parts, entry: nat) {
    parts != [] && parts[|parts| - 1].0 == entry
  }

  lemma {:induction false} SequentialEnds(request: CompiledRequest, n: nat, entry: nat)
    requires n < |SequentialParts(request)|
    ensures EndsIn(SequentialParts(request)[n], entry) <==>
      Units(Counts(request), request.caseSeq, [])[n].child == entry
  {
    UnitsExtendPrefix(Counts(request), request.caseSeq, []);
    assert Units(Counts(request), request.caseSeq, [])[n] in Units(Counts(request), request.caseSeq, []);
  }

  /** Case `k` from the position on is the plain case of candidate `k`. */
  ghost predicate PlainCaseAt(all: seq<Parts>, entry: nat, count: nat, position: nat, k: nat) {
    k < count ==> position + k < |all| && all[position + k] == [(entry, k)]
  }

  /**
   The raw position before the entry of a path: there its plain cases follow, candidate by candidate, and no earlier
   case ends in it; -1 if no case ends in it.
   */
  method RawPrefixAt(request: CompiledRequest, ghost root: Block, path: string) returns (r: Result<int>)
    requires Assembled(request, root)
    ensures path !in request.paths ==> r == Err(Invalid(UnknownPath))
    ensures path in request.paths ==>
              var entry, all := request.paths[path], SequentialParts(request);
              && r.Ok?
              && (r.value == -1 <==> forall n :: 0 <= n < |all| ==> !EndsIn(all[n], entry))
              && (r.value != -1 ==>
                    && 0 <= r.value < |all| && all[r.value] == [(entry, 0)]
                    && (forall k: nat :: PlainCaseAt(all, entry, request.entries[entry].kind.Count(), r.value, k))
                    && forall n :: 0 <= n < r.value ==> !EndsIn(all[n], entry))
  {
    var target :- request.Resolve(path);
    AssembledReplays(request, root);
    var position := RawPrefixBefore(Counts(request), request.caseSeq, target);
    forall n | 0 <= n < |SequentialParts(request)|
      ensures EndsIn(SequentialParts(request)[n], target) <==>
        Units(Counts(request), request.caseSeq, [])[n].child == target
    {
      SequentialEnds(request, n, target);
    }
    if position != -1 {
      var units, count := Units(Counts(request), request.caseSeq, []), CountAt(Counts(request), target);
      forall k: nat ensures PlainCaseAt(SequentialParts(request), target, count, position, k) {
        assert FollowsAt(units, [], target, count, position, k);
        assert [] + [(target, k)] == [(target, k)];
      }
      assert PlainCaseAt(SequentialParts(request), target, count, position, 0);
    }
    return Ok(position);
  }

  /**
   On every assembled request without groups and without a maximum depth, the combinatorial enumeration is
   exactly the nonempty increasing tuples of mutating entries, of every size, with all candidates and unrelated paths.
   */
  lemma {:induction false} UngroupedExhaustive(request: CompiledRequest, root: Block, x: Parts)
    requires Assembled(request, root) && NoGroups(request)
    ensures x in CombinedParts(request, None) <==>
              x != [] && IsTuple(Counts(request), Mutating(request.entries, 0, |request.entries|), |x|, x) &&
                Unrelated(PathsOf(request), x)
  {
    var units, mutating := Units(Counts(request), request.caseSeq, []), Mutating(request.entries, 0, |request.entries|);
    UnitsLeafInParts(Counts(request), request.caseSeq);
    AssembledUngrouped(request, root);
    if x in CombinedParts(request, None) {
      FromDepthIsBounded(units, PathsOf(request), None, 1, x);
      var d :| 1 <= d && x in AtDepth(units, PathsOf(request), d);
      UngroupedWalk(units, PathsOf(request), Counts(request), mutating, d);
    }
    if x != [] && IsTuple(Counts(request), mutating, |x|, x) && Unrelated(PathsOf(request), x) {
      UngroupedWalkIsExhaustive(units, PathsOf(request), Counts(request), mutating, 1, |x|, x);
    }
  }
}
