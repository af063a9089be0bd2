/** Replaying an emitted case by its (path, mutation) pairs, and what a case id identifies. */
module Replay {
  import opened Wrappers
  import opened Integers
  import opened CaseSequences
  import opened Combinations
  import opened Model
  import opened Assembly
  import opened Rendering
  import opened Measuring
  import opened CaseBuilding
  import opened CaseStreams
  import opened RequestStreams
  import opened EffectiveReplacements

  /** The pair names a candidate of an entry, if its path resolves at all. */
  predicate PairOk(request: CompiledRequest, pair: (string, nat)) {
    pair.0 in request.paths ==> PartOk(request, (request.paths[pair.0], pair.1))
  }

  predicate PairsOk(request: CompiledRequest, pairs: seq<(string, nat)>) {
    forall k :: 0 <= k < |pairs| ==> PairOk(request, pairs[k])
  }

  /** The parts that pairs name. */
  function ResolvePairs(request: CompiledRequest, pairs: seq<(string, nat)>): Result<Parts> {
    if pairs == [] then Ok([])
    else
      var index :- request.Resolve(pairs[0].0);
      var rest :- ResolvePairs(request, pairs[1..]);
      Ok([(index, pairs[0].1)] + rest)
  }

  lemma {:induction false} ResolvedOk(request: CompiledRequest, pairs: seq<(string, nat)>)
    requires PairsOk(request, pairs) && ResolvePairs(request, pairs).Ok?
    ensures var parts := ResolvePairs(request, pairs).value;
      |parts| == |pairs| && forall k :: 0 <= k < |parts| ==> PartOk(request, parts[k])
  {
    if pairs != [] {
      assert PairOk(request, pairs[0]);
      ResolvedOk(request, pairs[1..]);
    }
  }

  /** Rendering a saved case again: resolve its pairs, replace, render. */
  function ReplayPayload(plan: Plan, pairs: seq<(string, nat)>): Result<Bytes>
    requires PlanOk(plan) && PairsOk(plan.request, pairs)
  {
    var parts :- ResolvePairs(plan.request, pairs);
    ResolvedOk(plan.request, pairs);
    CandidatesRenderable(plan.request, plan.digest, parts, plan.vars);
    var scene := Scene(plan.request, plan.digest, ReplacementsOf(plan.request, parts), plan.vars);
    Render(scene, Sizes(scene), 0, {})
  }

  /** The same as the loop of the source. */
  method RenderCase(plan: Plan, pairs: seq<(string, nat)>) returns (r: Result<Bytes>)
    requires PlanOk(plan) && PairsOk(plan.request, pairs)
    ensures r == ReplayPayload(plan, pairs)
  {
    var parts: Parts := [];
    PrefixedByNothing(ResolvePairs(plan.request, pairs));
    assert pairs[0..] == pairs;
    for k := 0 to |pairs|
      invariant |parts| == k
      invariant ResolvePairs(plan.request, pairs) == Prefixed(parts, ResolvePairs(plan.request, pairs[k..]))
    {
      assert pairs[k..][1..] == pairs[k + 1..];
      var index :- plan.request.Resolve(pairs[k].0);
      PrefixedStep(plan.request, parts, pairs[k..], index);
      parts := parts + [(index, pairs[k].1)];
    }
    assert pairs[|pairs|..] == [] && parts + [] == parts;
    ResolvedOk(plan.request, pairs);
    CandidatesRenderable(plan.request, plan.digest, parts, plan.vars);
    var scene := Scene(plan.request, plan.digest, ReplacementsOf(plan.request, parts), plan.vars);
    r := RenderNode(scene, Sizes(scene), 0, {});
  }

  function Prefixed(parts: Parts, rest: Result<Parts>): Result<Parts> {
    match rest
    case Ok(more) => Ok(parts + more)
    case Err(error) => Err(error)
  }

  lemma {:induction false} PrefixedByNothing(rest: Result<Parts>)
    ensures Prefixed([], rest) == rest
  {
    if rest.Ok? {
      assert [] + rest.value == rest.value;
    }
  }

  lemma {:induction false} PrefixedStep(request: CompiledRequest, parts: Parts, pairs: seq<(string, nat)>, index: nat)
    requires pairs != [] && request.Resolve(pairs[0].0) == Ok(index)
    ensures Prefixed(parts, ResolvePairs(request, pairs))
            == Prefixed(parts + [(index, pairs[0].1)], ResolvePairs(request, pairs[1..]))
  {
    var rest := ResolvePairs(request, pairs[1..]);
    if rest.Ok? {
      assert parts + ([(index, pairs[0].1)] + rest.value) == parts + [(index, pairs[0].1)] + rest.value;
    }
  }

  // ----- replay round trip -----

  function Without(parts: Parts, leaf: Part): (r: Parts)
    ensures |r| <= |parts|
    ensures |r| == |parts| ==> r == parts && leaf !in parts
  {
    if parts == [] then []
    else (if parts[0] != leaf then [parts[0]] else []) + Without(parts[1..], leaf)
  }

  lemma {:induction false} ExtraResolves(request: CompiledRequest, parts: Parts, leaf: Part)
    requires Indexed(request.entries, request.paths)
    requires forall k :: 0 <= k < |parts| ==> PartOk(request, parts[k])
    ensures ResolvePairs(request, Extra(request, parts, leaf)) == Ok(Without(parts, leaf))
    ensures PairsOk(request, Extra(request, parts, leaf))
  {
    if parts != [] {
      assert PartOk(request, parts[0]);
      ExtraResolves(request, parts[1..], leaf);
      var rest := Extra(request, parts[1..], leaf);
      if parts[0] != leaf {
        var pair := (request.entries[parts[0].0].path, parts[0].1);
        assert Extra(request, parts, leaf) == [pair] + rest && ([pair] + rest)[1..] == rest;
        assert PairOk(request, pair);
        assert request.Resolve(pair.0) == Ok(parts[0].0);
      } else {
        assert Extra(request, parts, leaf) == rest;
        assert Without(parts, leaf) == Without(parts[1..], leaf);
      }
    }
  }

  lemma {:induction false} ResolveAppend(request: CompiledRequest, a: seq<(string, nat)>, b: seq<(string, nat)>)
    requires ResolvePairs(request, a).Ok? && ResolvePairs(request, b).Ok?
    ensures ResolvePairs(request, a + b) == Ok(ResolvePairs(request, a).value + ResolvePairs(request, b).value)
  {
    if a == [] {
      assert a + b == b;
      var none: Parts := [];
      assert none + ResolvePairs(request, b).value == ResolvePairs(request, b).value;
    } else {
      assert (a + b)[1..] == a[1..] + b && (a + b)[0] == a[0];
      ResolveAppend(request, a[1..], b);
      var first := [(request.Resolve(a[0].0).value, a[0].1)];
      var x, y := ResolvePairs(request, a[1..]).value, ResolvePairs(request, b).value;
      assert first + (x + y) == first + x + y;
    }
  }

  lemma {:induction false} WithoutLast(parts: Parts, leaf: Part)
    ensures Without(parts + [leaf], leaf) == Without(parts, leaf)
  {
    if parts == [] {
      assert ([] + [leaf])[1..] == [];
    } else {
      assert (parts + [leaf])[1..] == parts[1..] + [leaf];
      WithoutLast(parts[1..], leaf);
    }
  }

  /** The pairs of an emitted case resolve to its parts, with repetitions of the leaf's own part dropped. */
  lemma {:induction false} CasePairsResolve(plan: Plan, parts: Parts, ordinal: nat)
    requires PlanOk(plan) && PartsOk(plan.request, parts) && Indexed(plan.request.entries, plan.request.paths)
    requires CaseAt(plan, parts, ordinal).Ok?
    ensures PairsOk(plan.request, CaseAt(plan, parts, ordinal).value.Parts())
    ensures ResolvePairs(plan.request, CaseAt(plan, parts, ordinal).value.Parts()) == Ok(Replayed(parts))
  {
    var request, leaf := plan.request, parts[|parts| - 1];
    assert PartOk(request, leaf);
    PairsOfParts(request, parts);
    assert CaseAt(plan, parts, ordinal).value.Parts()
        == Extra(request, parts, leaf) + [(request.entries[leaf.0].path, leaf.1)];
  }

  lemma {:induction false} PairsOfParts(request: CompiledRequest, parts: Parts)
    requires PartsOk(request, parts) && Indexed(request.entries, request.paths)
    ensures var front, leaf := parts[..|parts| - 1], parts[|parts| - 1];
      && PartOk(request, leaf)
      && var pairs := Extra(request, parts, leaf) + [(request.entries[leaf.0].path, leaf.1)];
         PairsOk(request, pairs) && ResolvePairs(request, pairs) == Ok(Without(front, leaf) + [leaf])
  {
    var front, leaf := parts[..|parts| - 1], parts[|parts| - 1];
    assert PartOk(request, leaf);
    var extra, last := Extra(request, parts, leaf), [(request.entries[leaf.0].path, leaf.1)];
    ExtraResolves(request, parts, leaf);
    assert parts == front + [leaf];
    WithoutLast(front, leaf);
    ResolveOne(request, last[0], leaf.0);
    ResolveAppend(request, extra, last);
    assert PairOk(request, last[0]);
  }

  lemma {:induction false} ResolveOne(request: CompiledRequest, pair: (string, nat), index: nat)
    requires request.Resolve(pair.0) == Ok(index)
    ensures ResolvePairs(request, [pair]) == Ok([(index, pair.1)])
  {
    assert [pair][1..] == [];
    assert ResolvePairs(request, []) == Ok([]);
    assert [(index, pair.1)] + [] == [(index, pair.1)];
  }

  /** The first part that names an entry; it is the one whose candidate replaces the entry. */
  function FirstOf(parts: Parts, e: nat): (r: Option<Part>)
    ensures r.Some? ==> r.value in parts && r.value.0 == e
  {
    if parts == [] then None
    else if parts[0].0 == e then Some(parts[0])
    else FirstOf(parts[1..], e)
  }

  function CandidateIn(request: CompiledRequest, part: Option<Part>): Option<Bytes>
    requires part.Some? ==> PartOk(request, part.value)
  {
    if part.Some? then Some(CandidateOf(request, part.value)) else None
  }

  ghost predicate AllOk(request: CompiledRequest, parts: Parts) {
    forall part <- parts :: PartOk(request, part)
  }

  lemma {:induction false} LookupFirst(request: CompiledRequest, parts: Parts, e: nat)
    requires AllOk(request, parts)
    ensures Lookup(ReplacementsOf(request, parts), e) == CandidateIn(request, FirstOf(parts, e))
  {
    if parts != [] {
      assert parts[0] in parts && ReplacementsOf(request, parts)[1..] == ReplacementsOf(request, parts[1..]);
      LookupFirst(request, parts[1..], e);
    }
  }

  lemma {:induction false} FirstOfAppend(a: Parts, b: Parts, e: nat)
    ensures FirstOf(a + b, e) == if FirstOf(a, e).Some? then FirstOf(a, e) else FirstOf(b, e)
  {
    if a == [] {
      assert a + b == b;
    } else {
      assert (a + b)[1..] == a[1..] + b;
      FirstOfAppend(a[1..], b, e);
    }
  }

  /** Dropping a part only matters to its entry, and only where it comes first. */
  lemma {:induction false} FirstOfWithout(parts: Parts, leaf: Part, e: nat)
    ensures FirstOf(parts, e) != Some(leaf) ==> FirstOf(Without(parts, leaf), e) == FirstOf(parts, e)
    ensures forall part <- Without(parts, leaf) :: part in parts
  {
    if parts != [] {
      FirstOfWithout(parts[1..], leaf, e);
      var rest := Without(parts[1..], leaf);
      if parts[0] != leaf {
        assert Without(parts, leaf) == [parts[0]] + rest && ([parts[0]] + rest)[1..] == rest;
      } else {
        assert Without(parts, leaf) == [] + rest == rest;
      }
    }
  }

  /** The first part of the leaf's entry that is not the leaf's own. */
  function NextOther(front: Parts, leaf: Part): Option<Part> {
    FirstOf(Without(front, leaf), leaf.0)
  }

  /**
   The leaf's own part also comes first among the earlier parts of its entry, and the next part of that
   entry that differs from it carries another candidate.
   */
  predicate Shadowing(request: CompiledRequest, front: Parts, leaf: Part)
    requires PartOk(request, leaf) && (NextOther(front, leaf).Some? ==> PartOk(request, NextOther(front, leaf).value))
  {
    && FirstOf(front, leaf.0) == Some(leaf)
    && NextOther(front, leaf).Some?
    && CandidateOf(request, NextOther(front, leaf).value) != CandidateOf(request, leaf)
  }

  /** Dropping the leaf's repetitions keeps the effective replacements exactly when nothing was shadowed. */
  lemma {:induction false} EffectKept(request: CompiledRequest, front: Parts, leaf: Part)
    requires AllOk(request, front) && PartOk(request, leaf)
    ensures AllOk(request, front + [leaf]) && AllOk(request, Without(front, leaf) + [leaf])
    ensures SameEffect(ReplacementsOf(request, front + [leaf]), ReplacementsOf(request, Without(front, leaf) + [leaf]))
       <==> !Shadowing(request, front, leaf)
  {
    var before, after := front + [leaf], Without(front, leaf) + [leaf];
    FirstOfWithout(front, leaf, leaf.0);
    var a, b := ReplacementsOf(request, before), ReplacementsOf(request, after);
    forall e: nat
      ensures SameLookup(a, b, e) <==>
        CandidateIn(request, FirstOf(before, e)) == CandidateIn(request, FirstOf(after, e))
    {
      LookupFirst(request, before, e);
      LookupFirst(request, after, e);
    }
    forall e: nat
      ensures CandidateIn(request, FirstOf(before, e)) == CandidateIn(request, FirstOf(after, e)) <==>
        e != leaf.0 || !Shadowing(request, front, leaf)
    {
      FirstOfWithout(front, leaf, e);
      FirstOfAppend(front, [leaf], e);
      FirstOfAppend(Without(front, leaf), [leaf], e);
      assert [leaf][1..] == [];
      assert FirstOf([leaf], e) == if e == leaf.0 then Some(leaf) else None;
    }
    if Shadowing(request, front, leaf) {
      assert !SameLookup(a, b, leaf.0);
    }
  }

  /** The parts that the pairs of a case name: repetitions of the leaf's own part are gone. */
  function Replayed(parts: Parts): Parts
    requires parts != []
  {
    Without(parts[..|parts| - 1], parts[|parts| - 1]) + [parts[|parts| - 1]]
  }

  predicate Shadows(request: CompiledRequest, parts: Parts)
    requires PartsOk(request, parts)
  {
    var front, leaf := parts[..|parts| - 1], parts[|parts| - 1];
    FirstOfWithout(front, leaf, leaf.0);
    assert PartOk(request, leaf);
    Shadowing(request, front, leaf)
  }

  /** Dropping the repetitions puts the same replacements into effect exactly when nothing is shadowed. */
  lemma {:induction false} SameEffectIff(request: CompiledRequest, parts: Parts)
    requires PartsOk(request, parts)
    ensures AllOk(request, parts) && AllOk(request, Replayed(parts))
    ensures SameEffect(ReplacementsOf(request, parts), ReplacementsOf(request, Replayed(parts))) <==>
      !Shadows(request, parts)
  {
    var front, leaf := parts[..|parts| - 1], parts[|parts| - 1];
    assert parts == front + [leaf] && PartOk(request, leaf);
    EffectKept(request, front, leaf);
  }

  /**
   Replaying an emitted case by its pairs puts the same replacements into effect exactly when the leaf's
   own part shadows no other part of its entry, and then reproduces the payload.
   */
  lemma {:induction false} ReplayRoundTrip(plan: Plan, parts: Parts, ordinal: nat)
    requires PlanOk(plan) && PartsOk(plan.request, parts) && Indexed(plan.request.entries, plan.request.paths)
    requires CaseAt(plan, parts, ordinal).Ok?
    ensures PairsOk(plan.request, CaseAt(plan, parts, ordinal).value.Parts())
    ensures ResolvePairs(plan.request, CaseAt(plan, parts, ordinal).value.Parts()) == Ok(Replayed(parts))
    ensures AllOk(plan.request, parts) && AllOk(plan.request, Replayed(parts))
    ensures SameEffect(ReplacementsOf(plan.request, parts), ReplacementsOf(plan.request, Replayed(parts))) <==>
      !Shadows(plan.request, parts)
    ensures !Shadows(plan.request, parts) ==>
              ReplayPayload(plan, CaseAt(plan, parts, ordinal).value.Parts()) ==
                Ok(CaseAt(plan, parts, ordinal).value.payload)
  {
    CasePairsResolve(plan, parts, ordinal);
    SameEffectIff(plan.request, parts);
    if !Shadows(plan.request, parts) {
      ReplaysEffect(plan, parts, ordinal, CaseAt(plan, parts, ordinal).value.Parts(), Replayed(parts));
    }
  }

  /** Pairs that resolve to parts with the same effect reproduce the payload. */
  lemma {:induction false} ReplaysEffect(
      plan: Plan, parts: Parts, ordinal: nat, pairs: seq<(string, nat)>, resolved: Parts)
    requires PlanOk(plan) && PartsOk(plan.request, parts) && CaseAt(plan, parts, ordinal).Ok?
    requires PairsOk(plan.request, pairs) && ResolvePairs(plan.request, pairs) == Ok(resolved)
    requires AllOk(plan.request, resolved)
    requires SameEffect(ReplacementsOf(plan.request, parts), ReplacementsOf(plan.request, resolved))
    ensures ReplayPayload(plan, pairs) == Ok(CaseAt(plan, parts, ordinal).value.payload)
  {
    var first := SceneOf(plan, parts);
    CandidatesRenderable(plan.request, plan.digest, resolved, plan.vars);
    var second := Scene(plan.request, plan.digest, ReplacementsOf(plan.request, resolved), plan.vars);
    SameEffectRenders(first, second, 0);
  }

  // ----- combinatorial cases -----

  lemma {:induction false} UnrelatedAreDistinct(paths: seq<string>, parts: Parts)
    requires Unrelated(paths, parts)
    ensures forall i, j :: 0 <= i < j < |parts| ==> parts[i].0 != parts[j].0
  {
    forall i, j | 0 <= i < j < |parts| ensures parts[i].0 != parts[j].0 {
      var path := PathAt(paths, parts[i].0);
      assert OccursAt(path, path, 0);
      assert RelatedPaths(path, path);
    }
  }

  lemma {:induction false} CombinedUnrelated(request: CompiledRequest, maxDepth: Option<int>, n: nat)
    requires n < |CombinedParts(request, maxDepth)|
    ensures PartsOk(request, CombinedParts(request, maxDepth)[n]) &&
      Unrelated(PathsOf(request), CombinedParts(request, maxDepth)[n])
  {
    var units, parts := Units(Counts(request), request.caseSeq, []), CombinedParts(request, maxDepth)[n];
    EnumerationsOk(request, maxDepth);
    UnitsLeafInParts(Counts(request), request.caseSeq);
    FromDepthIsBounded(units, PathsOf(request), maxDepth, 1, parts);
    var d :| 1 <= d && parts in AtDepth(units, PathsOf(request), d);
    AtDepthJoins(units, PathsOf(request), d, parts);
  }

  /** Unrelated parts name distinct entries, so nothing is shadowed. */
  lemma {:induction false} UnrelatedShadowsNothing(request: CompiledRequest, parts: Parts)
    requires PartsOk(request, parts) && Unrelated(PathsOf(request), parts)
    ensures !Shadows(request, parts)
  {
    UnrelatedAreDistinct(PathsOf(request), parts);
    assert parts[|parts| - 1] !in parts[..|parts| - 1];
  }

  /** Every combinatorial case replays to its own payload. */
  lemma {:induction false} CombinatorialReplays(plan: Plan, maxDepth: Option<int>, n: nat, ordinal: nat)
    requires PlanOk(plan) && Indexed(plan.request.entries, plan.request.paths) &&
      n < |CombinedParts(plan.request, maxDepth)|
    ensures PartsOk(plan.request, CombinedParts(plan.request, maxDepth)[n])
    ensures var built := CaseAt(plan, CombinedParts(plan.request, maxDepth)[n], ordinal);
      built.Ok? ==>
        && PairsOk(plan.request, built.value.Parts())
        && ReplayPayload(plan, built.value.Parts()) == Ok(built.value.payload)
  {
    var parts := CombinedParts(plan.request, maxDepth)[n];
    CombinedUnrelated(plan.request, maxDepth, n);
    UnrelatedShadowsNothing(plan.request, parts);
    if CaseAt(plan, parts, ordinal).Ok? {
      ReplayRoundTrip(plan, parts, ordinal);
    }
  }

  // ----- case ids -----

  lemma {:induction false} NoPlusInPartId(request: CompiledRequest, part: Part)
    requires Clean(request.entries) && PartOk(request, part)
    ensures '+' !in PartId(request, part)
  {
    DecimalDenotes(part.1);
    assert EntryClean(request.entries[part.0]);
    forall c | c in Decimal(part.1) ensures c != '+' {
      assert IsDigit(c);
    }
  }

  /** A separator that does not occur in the first pieces fixes where they end. */
  lemma {:induction false} SplitAtFirst(a: string, b: string, x: string, y: string, separator: char)
    requires separator !in a && separator !in b
    requires a + [separator] + x == b + [separator] + y
    ensures a == b && x == y
  {
    var left, right := a + [separator] + x, b + [separator] + y;
    assert left[|a|] == separator && right[|b|] == separator;
    assert |a| == |b|;
    assert a == left[..|a|] && b == right[..|b|];
    assert x == left[|a| + 1..] && y == right[|b| + 1..];
  }

  /** A separator that does not occur in the last pieces fixes where they start. */
  lemma {:induction false} SplitAtLast(a: string, b: string, x: string, y: string, separator: char)
    requires separator !in x && separator !in y
    requires a + [separator] + x == b + [separator] + y
    ensures a == b && x == y
  {
    var left, right := a + [separator] + x, b + [separator] + y;
    assert left[|a|] == separator && right[|b|] == separator;
    assert |a| == |b|;
    assert a == left[..|a|] && b == right[..|b|];
    assert x == left[|a| + 1..] && y == right[|b| + 1..];
  }

  lemma {:induction false} PartIdInjective(request: CompiledRequest, a: Part, b: Part)
    requires Indexed(request.entries, request.paths)
    requires PartOk(request, a) && PartOk(request, b) && PartId(request, a) == PartId(request, b)
    ensures a == b
  {
    DecimalDenotes(a.1);
    DecimalDenotes(b.1);
    assert ":" == [':'];
    forall c | c in Decimal(a.1) || c in Decimal(b.1) ensures c != ':' {
      assert IsDigit(c);
    }
    SplitAtLast(request.entries[a.0].path, request.entries[b.0].path, Decimal(a.1), Decimal(b.1), ':');
    DecimalInjective(a.1, b.1);
    assert request.paths[request.entries[a.0].path] == a.0 && request.paths[request.entries[b.0].path] == b.0;
  }

  lemma {:induction false} JoinIdsInjective(request: CompiledRequest, a: Parts, b: Parts)
    requires Clean(request.entries) && Indexed(request.entries, request.paths)
    requires PartsOk(request, a) && PartsOk(request, b) && JoinIds(request, a) == JoinIds(request, b)
    ensures a == b
    decreases |a|
  {
    var x, y := PartId(request, a[0]), PartId(request, b[0]);
    NoPlusInPartId(request, a[0]);
    NoPlusInPartId(request, b[0]);
    assert "+" == ['+'];
    assert |a| > 1 ==> JoinIds(request, a)[|x|] == '+';
    assert |b| > 1 ==> JoinIds(request, b)[|y|] == '+';
    if |a| == 1 {
      PartIdInjective(request, a[0], b[0]);
    } else {
      SplitAtFirst(x, y, JoinIds(request, a[1..]), JoinIds(request, b[1..]), '+');
      PartIdInjective(request, a[0], b[0]);
      JoinIdsInjective(request, a[1..], b[1..]);
      assert a == [a[0]] + a[1..] && b == [b[0]] + b[1..];
    }
  }

  /** A case id identifies its part list. */
  lemma {:induction false} CaseIdInjective(request: CompiledRequest, a: Parts, b: Parts)
    requires Clean(request.entries) && Indexed(request.entries, request.paths)
    requires PartsOk(request, a) && PartsOk(request, b) && CaseId(request, a) == CaseId(request, b)
    ensures a == b
  {
    assert JoinIds(request, a) == CaseId(request, a)[3..] && JoinIds(request, b) == CaseId(request, b)[3..];
    JoinIdsInjective(request, a, b);
  }
}
