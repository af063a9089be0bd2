/** The entries that a case replaces more than once, and what follows. */
module GroupedParts {
  import opened Wrappers
  import opened CaseSequences
  import opened Combinations
  import opened Model
  import opened Layout
  import opened Assembly
  import opened Compilation
  import opened CaseBuilding
  import opened RequestStreams
  import opened Replay
  import opened DistinctCases

  // ----- lists that are always there -----

  lemma {:induction false} SingleListed(entry: nat, from: nat, bound: nat, j: nat)
    requires from <= j < bound
    ensures [(entry, j)] in Singles(entry, from, bound)
    decreases bound - from
  {
    if from < j {
      SingleListed(entry, from + 1, bound, j);
    }
  }

  /** Every candidate of a leaf is a list of its own. */
  lemma {:induction false} LeafAlone(counts: seq<nat>, s: CaseSeq, e: nat, j: nat)
    requires Separate(s) && e in Leaves(s) && j < CountAt(counts, e)
    ensures [(e, j)] in Lists(counts, s)
    decreases s, 0
  {
    match s
    case Plain(entry) => SingleListed(entry, 0, CountAt(counts, entry), j);
    case Sequence(children) =>
      if IsPair(children) {
        PairLists(counts, children);
        PairLeaves(children);
        LeafAlone(counts, children[0], e, j);
      } else {
        LeafAloneAmong(counts, children, e, j);
      }
  }

  lemma {:induction false} LeafAloneAmong(counts: seq<nat>, children: seq<CaseSeq>, e: nat, j: nat)
    requires SeparateAll(children) && e in LeavesOfAll(children) && j < CountAt(counts, e)
    ensures [(e, j)] in ListsOfAll(counts, children)
    decreases children, 0
  {
    if e in Leaves(children[0]) {
      LeafAlone(counts, children[0], e, j);
    } else {
      LeafAloneAmong(counts, children[1..], e, j);
    }
  }

  lemma {:induction false} PairLeaves(children: seq<CaseSeq>)
    requires IsPair(children)
    ensures LeavesOfAll(children) == Leaves(children[0])
  {
    assert children[1..] == [children[1]] && children[1..][1..] == [];
    assert LeavesOfAll(children[1..]) == Leaves(children[1]) + LeavesOfAll([]);
  }

  /** A pass puts its part in front of every list. */
  lemma {:induction false} InPass(group: nat, lists: seq<Parts>, bound: nat, k: nat, q: Parts)
    requires q in lists && k < bound
    ensures [(group, k)] + q in Headed(group, 0, bound, lists)
  {
    var x := [(group, k)] + q;
    assert x[1..] == q;
    HeadedMembers(group, 0, bound, lists, x);
  }

  // ----- when no list names an entry twice -----

  ghost predicate EntriesDistinct(p: Parts) {
    forall i, j :: 0 <= i < j < |p| ==> p[i].0 != p[j].0
  }

  /** The product has candidates to multiply by and something to multiply. */
  predicate Multiplies(counts: seq<nat>, group: nat, inner: CaseSeq) {
    CountAt(counts, group) > 0 && Lists(counts, inner) != []
  }

  /** No product multiplies by a group that is a leaf or a live group inside it. */
  predicate SelfFree(counts: seq<nat>, s: CaseSeq)
    decreases s, 0
  {
    match s
    case Plain(_) => true
    case Sequence(children) =>
      if IsPair(children) then
        && SelfFree(counts, children[0])
        && (Multiplies(counts, children[1].group, children[0]) ==>
              children[1].group !in Live(counts, children[0]) + Leaves(children[0]))
      else SelfFreeAll(counts, children)
    case Product(_, _) => true
  }

  predicate SelfFreeAll(counts: seq<nat>, children: seq<CaseSeq>)
    decreases children, 0
  {
    children != [] ==> SelfFree(counts, children[0]) && SelfFreeAll(counts, children[1..])
  }

  ghost predicate AllDistinct(lists: seq<Parts>) {
    forall p <- lists :: EntriesDistinct(p)
  }

  /** All part lists name distinct entries exactly when no product multiplies by a group inside it. */
  lemma {:induction false} UniqueIffSelfFree(counts: seq<nat>, s: CaseSeq)
    requires Separate(s)
    ensures AllDistinct(Lists(counts, s)) <==> SelfFree(counts, s)
    decreases s, 0
  {
    match s
    case Plain(entry) => DistinctSingles(entry, 0, CountAt(counts, entry));
    case Sequence(children) =>
      if IsPair(children) {
        UniqueIffSelfFree(counts, children[0]);
        PairLists(counts, children);
        UniquePair(counts, children[0], children[1].group);
      } else {
        UniqueIffSelfFreeAll(counts, children);
      }
  }

  lemma {:induction false} UniqueIffSelfFreeAll(counts: seq<nat>, children: seq<CaseSeq>)
    requires SeparateAll(children)
    ensures AllDistinct(ListsOfAll(counts, children)) <==> SelfFreeAll(counts, children)
    decreases children, 0
  {
    if children != [] {
      UniqueIffSelfFree(counts, children[0]);
      UniqueIffSelfFreeAll(counts, children[1..]);
    }
  }

  lemma {:induction false} UniquePair(counts: seq<nat>, inner: CaseSeq, group: nat)
    requires Separate(inner)
    ensures var lists := Lists(counts, inner);
            AllDistinct(lists + Headed(group, 0, CountAt(counts, group), lists)) <==>
              AllDistinct(lists) && (Multiplies(counts, group, inner) ==> group !in Live(counts, inner) + Leaves(inner))
  {
    var lists, bound := Lists(counts, inner), CountAt(counts, group);
    var passes := Headed(group, 0, bound, lists);
    if AllDistinct(lists) && (Multiplies(counts, group, inner) ==> group !in Live(counts, inner) + Leaves(inner)) {
      forall p <- passes ensures EntriesDistinct(p) {
        HeadedMembers(group, 0, bound, lists, p);
        ListShape(counts, inner, p[1..]);
        DistinctBehind(p, Live(counts, inner), Leaves(inner));
      }
    }
    if Multiplies(counts, group, inner) && group in Live(counts, inner) {
      var q := LiveTwice(counts, inner, group);
      InPass(group, lists, bound, 0, [(group, 0)] + q);
      TwiceIsNotDistinct([(group, 0)] + ([(group, 0)] + q), passes);
    }
    if Multiplies(counts, group, inner) && group in Leaves(inner) {
      LeafAlone(counts, inner, group, 0);
      InPass(group, lists, bound, 0, [(group, 0)]);
      TwiceIsNotDistinct([(group, 0)] + [(group, 0)], passes);
    }
    assert forall p <- lists + passes :: p in lists || p in passes;
  }

  lemma {:induction false} DistinctBehind(p: Parts, live: set<nat>, leaves: set<nat>)
    requires |p| > 0 && p[0].0 !in live + leaves && EntriesDistinct(p[1..]) && ShapedList(leaves, live, p[1..])
    ensures EntriesDistinct(p)
  {
    forall i, j | 0 <= i < j < |p| ensures p[i].0 != p[j].0 {
      assert p[j] == p[1..][j - 1];
      assert i > 0 ==> p[i] == p[1..][i - 1];
    }
  }

  lemma {:induction false} TwiceIsNotDistinct(p: Parts, lists: seq<Parts>)
    requires p in lists && |p| > 1 && p[0].0 == p[1].0
    ensures !AllDistinct(lists)
  {
    assert !EntriesDistinct(p);
  }

  // ----- when a case carries the candidate it is named after -----

  predicate SameCandidate(request: CompiledRequest, e: nat, j: nat, k: nat) {
    PartOk(request, (e, j)) && PartOk(request, (e, k)) ==> CandidateOf(request, (e, j)) == CandidateOf(request, (e, k))
  }

  /** All candidates of the entry are the same bytes. */
  ghost predicate Uniform(request: CompiledRequest, e: nat) {
    forall j: nat, k: nat :: SameCandidate(request, e, j, k)
  }

  lemma {:induction false} FirstOfHas(parts: Parts, e: nat)
    requires exists part <- parts :: part.0 == e
    ensures FirstOf(parts, e).Some?
  {
    if parts[0].0 != e {
      var part :| part in parts && part.0 == e;
      assert part in parts[1..];
      FirstOfHas(parts[1..], e);
    }
  }

  /** The first part of the leaf's entry carries the leaf's candidate. */
  ghost predicate InEffect(request: CompiledRequest, parts: Parts)
    requires PartsOk(request, parts)
  {
    var leaf := parts[|parts| - 1];
    && FirstOf(parts, leaf.0).Some? && PartOk(request, FirstOf(parts, leaf.0).value) && PartOk(request, leaf)
    && CandidateOf(request, FirstOf(parts, leaf.0).value) == CandidateOf(request, leaf)
  }

  /** That is exactly when the case replaces its field by the mutation it is named after. */
  lemma {:induction false} OwnCandidate(request: CompiledRequest, parts: Parts)
    requires PartsOk(request, parts)
    ensures PartOk(request, parts[|parts| - 1])
    ensures var leaf := parts[|parts| - 1];
            Lookup(ReplacementsOf(request, parts), leaf.0) == Some(CandidateOf(request, leaf)) <==>
              InEffect(request, parts)
  {
    var leaf := parts[|parts| - 1];
    assert AllOk(request, parts) && leaf in parts;
    FirstOfHas(parts, leaf.0);
    LookupFirst(request, parts, leaf.0);
  }

  lemma {:induction false} ListsOk(request: CompiledRequest, s: CaseSeq, p: Parts)
    requires p in Lists(Counts(request), s)
    ensures PartsOk(request, p)
  {
    UnitPartsOk(request, s, []);
    UnitsCarryLists(Counts(request), s, []);
    BehindNothing(Lists(Counts(request), s));
    var n :| 0 <= n < |Lists(Counts(request), s)| && Lists(Counts(request), s)[n] == p;
    assert PartsOf(Units(Counts(request), s, []))[n] == p;
  }

  /** Where a product multiplies by a leaf inside it, all candidates of that leaf are the same. */
  ghost predicate OwnSafe(request: CompiledRequest, s: CaseSeq)
    decreases s, 0
  {
    match s
    case Plain(_) => true
    case Sequence(children) =>
      if IsPair(children) then
        && OwnSafe(request, children[0])
        && (children[1].group in Leaves(children[0]) ==> Uniform(request, children[1].group))
      else OwnSafeAll(request, children)
    case Product(_, _) => true
  }

  ghost predicate OwnSafeAll(request: CompiledRequest, children: seq<CaseSeq>)
    decreases children, 0
  {
    children != [] ==> OwnSafe(request, children[0]) && OwnSafeAll(request, children[1..])
  }

  ghost predicate AllInEffect(request: CompiledRequest, lists: seq<Parts>) {
    forall p <- lists :: PartsOk(request, p) && InEffect(request, p)
  }

  /** An earlier part of the leaf's entry comes from a product over a leaf inside it. */
  lemma {:induction false} LeafRepeated(request: CompiledRequest, s: CaseSeq, p: Parts, i: nat)
    requires Separate(s) && OwnSafe(request, s) && p in Lists(Counts(request), s)
    requires i < |p| - 1 && p[i].0 == p[|p| - 1].0
    ensures Uniform(request, p[i].0)
    decreases s, 0
  {
    var counts := Counts(request);
    match s
    case Plain(entry) => DistinctSingles(entry, 0, CountAt(counts, entry));
    case Sequence(children) =>
      if IsPair(children) {
        PairLists(counts, children);
        if p in Lists(counts, children[0]) {
          LeafRepeated(request, children[0], p, i);
        } else {
          var group, lists := children[1].group, Lists(counts, children[0]);
          HeadedMembers(group, 0, CountAt(counts, group), lists, p);
          ListShape(counts, children[0], p[1..]);
          if i > 0 {
            LeafRepeated(request, children[0], p[1..], i - 1);
          }
        }
      } else {
        LeafRepeatedAmong(request, children, p, i);
      }
  }

  lemma {:induction false} LeafRepeatedAmong(request: CompiledRequest, children: seq<CaseSeq>, p: Parts, i: nat)
    requires SeparateAll(children) && OwnSafeAll(request, children) && p in ListsOfAll(Counts(request), children)
    requires i < |p| - 1 && p[i].0 == p[|p| - 1].0
    ensures Uniform(request, p[i].0)
    decreases children, 0
  {
    if p in Lists(Counts(request), children[0]) {
      LeafRepeated(request, children[0], p, i);
    } else {
      LeafRepeatedAmong(request, children[1..], p, i);
    }
  }

  lemma {:induction false} SafeIsInEffect(request: CompiledRequest, s: CaseSeq, p: Parts)
    requires Separate(s) && OwnSafe(request, s) && p in Lists(Counts(request), s)
    ensures PartsOk(request, p) && InEffect(request, p)
  {
    ListsOk(request, s, p);
    var leaf := p[|p| - 1];
    assert leaf in p && PartOk(request, leaf);
    FirstOfHas(p, leaf.0);
    var first := FirstOf(p, leaf.0).value;
    var i :| 0 <= i < |p| && p[i] == first;
    assert PartOk(request, p[i]);
    if i < |p| - 1 {
      LeafRepeated(request, s, p, i);
      assert SameCandidate(request, leaf.0, first.1, leaf.1);
    }
  }

  /** Every case of a tree carries its own candidate exactly when the tree is safe. */
  lemma {:induction false} InEffectIffSafe(request: CompiledRequest, s: CaseSeq)
    requires Separate(s)
    ensures AllInEffect(request, Lists(Counts(request), s)) <==> OwnSafe(request, s)
    decreases s, 0
  {
    if OwnSafe(request, s) {
      forall p <- Lists(Counts(request), s) ensures PartsOk(request, p) && InEffect(request, p) {
        SafeIsInEffect(request, s, p);
      }
    }
    if AllInEffect(request, Lists(Counts(request), s)) {
      InEffectIsSafe(request, s);
    }
  }

  lemma {:induction false} InEffectIsSafe(request: CompiledRequest, s: CaseSeq)
    requires Separate(s) && AllInEffect(request, Lists(Counts(request), s))
    ensures OwnSafe(request, s)
    decreases s, 0
  {
    match s
    case Plain(_) =>
    case Sequence(children) =>
      if IsPair(children) {
        var counts, group := Counts(request), children[1].group;
        PairLists(counts, children);
        InEffectIsSafe(request, children[0]);
        if group in Leaves(children[0]) {
          forall j: nat, k: nat ensures SameCandidate(request, group, j, k) {
            if PartOk(request, (group, j)) && PartOk(request, (group, k)) {
              LeafAlone(counts, children[0], group, k);
              InPass(group, Lists(counts, children[0]), CountAt(counts, group), j, [(group, k)]);
              FirstOfPair(group, j, k);
              assert [(group, j)] + [(group, k)] in Lists(counts, s);
              assert InEffect(request, [(group, j), (group, k)]);
            }
          }
        }
      } else {
        InEffectIsSafeAll(request, children);
      }
  }

  lemma {:induction false} InEffectIsSafeAll(request: CompiledRequest, children: seq<CaseSeq>)
    requires SeparateAll(children) && AllInEffect(request, ListsOfAll(Counts(request), children))
    ensures OwnSafeAll(request, children)
    decreases children, 0
  {
    if children != [] {
      InEffectIsSafe(request, children[0]);
      InEffectIsSafeAll(request, children[1..]);
    }
  }

  lemma {:induction false} FirstOfPair(e: nat, j: nat, k: nat)
    ensures [(e, j)] + [(e, k)] == [(e, j), (e, k)] && FirstOf([(e, j), (e, k)], e) == Some((e, j))
  {
  }

  // ----- when a case replays -----

  /** The entries that are leaves inside a product of their own. */
  function Covered(counts: seq<nat>, s: CaseSeq): set<nat>
    decreases s, 0
  {
    match s
    case Plain(_) => {}
    case Sequence(children) => CoveredOfAll(counts, children)
    case Product(group, inner) =>
      Covered(counts, inner) + if group in Leaves(inner) && CountAt(counts, group) > 0 then {group} else {}
  }

  function CoveredOfAll(counts: seq<nat>, children: seq<CaseSeq>): set<nat>
    decreases children, 0
  {
    if children == [] then {} else Covered(counts, children[0]) + CoveredOfAll(counts, children[1..])
  }

  lemma {:induction false} PairCovered(counts: seq<nat>, children: seq<CaseSeq>)
    requires IsPair(children)
    ensures CoveredOfAll(counts, children) == Covered(counts, children[1])
  {
    assert children[1..] == [children[1]] && children[1..][1..] == [];
    assert CoveredOfAll(counts, children[1..]) == Covered(counts, children[1]) + CoveredOfAll(counts, []);
  }

  /** Where a leaf lies inside two products of its own entry, all its candidates are the same. */
  ghost predicate ReplaySafe(request: CompiledRequest, s: CaseSeq)
    decreases s, 0
  {
    match s
    case Plain(_) => true
    case Sequence(children) =>
      if IsPair(children) then
        && ReplaySafe(request, children[0])
        && (children[1].group in Covered(Counts(request), children[0]) ==> Uniform(request, children[1].group))
      else ReplaySafeAll(request, children)
    case Product(_, _) => true
  }

  ghost predicate ReplaySafeAll(request: CompiledRequest, children: seq<CaseSeq>)
    decreases children, 0
  {
    children != [] ==> ReplaySafe(request, children[0]) && ReplaySafeAll(request, children[1..])
  }

  /** Any two candidates of a covered leaf make a list. */
  lemma {:induction false} CoveredListed(counts: seq<nat>, s: CaseSeq, e: nat, j: nat, k: nat)
    requires Separate(s) && e in Covered(counts, s) && j < CountAt(counts, e) && k < CountAt(counts, e)
    ensures [(e, j), (e, k)] in Lists(counts, s)
    decreases s, 0
  {
    var children := s.children;
    if IsPair(children) {
      PairLists(counts, children);
      PairCovered(counts, children);
      if e in Covered(counts, children[0]) {
        CoveredListed(counts, children[0], e, j, k);
      } else {
        LeafAlone(counts, children[0], e, k);
        InPass(e, Lists(counts, children[0]), CountAt(counts, e), j, [(e, k)]);
        FirstOfPair(e, j, k);
      }
    } else {
      CoveredListedAmong(counts, children, e, j, k);
    }
  }

  lemma {:induction false} CoveredListedAmong(counts: seq<nat>, children: seq<CaseSeq>, e: nat, j: nat, k: nat)
    requires SeparateAll(children) && e in CoveredOfAll(counts, children) && j < CountAt(counts, e) &&
      k < CountAt(counts, e)
    ensures [(e, j), (e, k)] in ListsOfAll(counts, children)
    decreases children, 0
  {
    if e in Covered(counts, children[0]) {
      CoveredListed(counts, children[0], e, j, k);
    } else {
      CoveredListedAmong(counts, children[1..], e, j, k);
    }
  }

  /** An earlier part of the leaf's entry means that the leaf is covered. */
  lemma {:induction false} RepeatedIsCovered(counts: seq<nat>, s: CaseSeq, p: Parts, i: nat)
    requires Separate(s) && p in Lists(counts, s) && i < |p| - 1 && p[i].0 == p[|p| - 1].0
    ensures p[i].0 in Covered(counts, s)
    decreases s, 0
  {
    match s
    case Plain(entry) => DistinctSingles(entry, 0, CountAt(counts, entry));
    case Sequence(children) =>
      if IsPair(children) {
        PairLists(counts, children);
        PairCovered(counts, children);
        if p in Lists(counts, children[0]) {
          RepeatedIsCovered(counts, children[0], p, i);
        } else {
          var group, lists := children[1].group, Lists(counts, children[0]);
          HeadedMembers(group, 0, CountAt(counts, group), lists, p);
          ListShape(counts, children[0], p[1..]);
          if i > 0 {
            RepeatedIsCovered(counts, children[0], p[1..], i - 1);
          }
        }
      } else {
        RepeatedIsCoveredAmong(counts, children, p, i);
      }
  }

  lemma {:induction false} RepeatedIsCoveredAmong(counts: seq<nat>, children: seq<CaseSeq>, p: Parts, i: nat)
    requires SeparateAll(children) && p in ListsOfAll(counts, children) && i < |p| - 1 && p[i].0 == p[|p| - 1].0
    ensures p[i].0 in CoveredOfAll(counts, children)
    decreases children, 0
  {
    if p in Lists(counts, children[0]) {
      RepeatedIsCovered(counts, children[0], p, i);
    } else {
      RepeatedIsCoveredAmong(counts, children[1..], p, i);
    }
  }

  /** Two earlier parts of the leaf's entry mean that it lies inside two products of its own. */
  lemma {:induction false} RepeatedTwice(request: CompiledRequest, s: CaseSeq, p: Parts, a: nat, b: nat)
    requires Separate(s) && ReplaySafe(request, s) && p in Lists(Counts(request), s)
    requires a < b < |p| - 1 && p[a].0 == p[b].0 == p[|p| - 1].0
    ensures Uniform(request, p[a].0)
    decreases s, 0
  {
    var counts := Counts(request);
    match s
    case Plain(entry) => DistinctSingles(entry, 0, CountAt(counts, entry));
    case Sequence(children) =>
      if IsPair(children) {
        PairLists(counts, children);
        if p in Lists(counts, children[0]) {
          RepeatedTwice(request, children[0], p, a, b);
        } else {
          var group, lists := children[1].group, Lists(counts, children[0]);
          HeadedMembers(group, 0, CountAt(counts, group), lists, p);
          RepeatedInPass(request, children[0], p, a, b);
        }
      } else {
        RepeatedTwiceAmong(request, children, p, a, b);
      }
  }

  lemma {:induction false} RepeatedInPass(request: CompiledRequest, inner: CaseSeq, p: Parts, a: nat, b: nat)
    requires Separate(inner) && ReplaySafe(request, inner) && p != [] && p[1..] in Lists(Counts(request), inner)
    requires p[0].0 in Covered(Counts(request), inner) ==> Uniform(request, p[0].0)
    requires a < b < |p| - 1 && p[a].0 == p[b].0 == p[|p| - 1].0
    ensures Uniform(request, p[a].0)
    decreases inner, 1
  {
    if a > 0 {
      RepeatedTwice(request, inner, p[1..], a - 1, b - 1);
    } else {
      RepeatedIsCovered(Counts(request), inner, p[1..], b - 1);
    }
  }

  lemma {:induction false} RepeatedTwiceAmong(
      request: CompiledRequest, children: seq<CaseSeq>, p: Parts, a: nat, b: nat)
    requires SeparateAll(children) && ReplaySafeAll(request, children) && p in ListsOfAll(Counts(request), children)
    requires a < b < |p| - 1 && p[a].0 == p[b].0 == p[|p| - 1].0
    ensures Uniform(request, p[a].0)
    decreases children, 0
  {
    if p in Lists(Counts(request), children[0]) {
      RepeatedTwice(request, children[0], p, a, b);
    } else {
      RepeatedTwiceAmong(request, children[1..], p, a, b);
    }
  }

  ghost predicate NoneShadowed(request: CompiledRequest, lists: seq<Parts>) {
    forall p <- lists :: PartsOk(request, p) && !Shadows(request, p)
  }

  lemma {:induction false} SafeIsUnshadowed(request: CompiledRequest, s: CaseSeq, p: Parts)
    requires Separate(s) && ReplaySafe(request, s) && p in Lists(Counts(request), s)
    ensures PartsOk(request, p) && !Shadows(request, p)
  {
    ListsOk(request, s, p);
    var front, leaf := p[..|p| - 1], p[|p| - 1];
    FirstOfWithout(front, leaf, leaf.0);
    if Shadows(request, p) {
      var other := NextOther(front, leaf).value;
      var i :| 0 <= i < |front| && front[i] == leaf;
      var j :| 0 <= j < |front| && front[j] == other;
      assert p[i] == leaf && p[j] == other && i != j;
      assert PartOk(request, leaf) && PartOk(request, p[j]);
      assert !SameCandidate(request, leaf.0, other.1, leaf.1);
      RepeatedTwice(request, s, p, if i < j then i else j, if i < j then j else i);
      assert false;
    }
  }

  /** A front that starts with the leaf and goes on with another candidate of its entry is shadowed. */
  lemma {:induction false} TripleShadows(request: CompiledRequest, e: nat, k: nat, j: nat)
    requires PartsOk(request, [(e, k), (e, j), (e, k)])
    requires PartOk(request, (e, j)) && PartOk(request, (e, k)) &&
      CandidateOf(request, (e, j)) != CandidateOf(request, (e, k))
    ensures Shadows(request, [(e, k), (e, j), (e, k)])
  {
    var p: Parts := [(e, k), (e, j), (e, k)];
    var front, leaf, one: Parts := p[..2], p[2], [(e, j)];
    assert front == [(e, k), (e, j)] && front[1..] == one && one[1..] == [];
    assert Without(one, leaf) == one + Without([], leaf) == one;
    assert Without(front, leaf) == [] + Without(one, leaf) == one;
  }

  lemma {:induction false} UnshadowedIsSafe(request: CompiledRequest, s: CaseSeq)
    requires Separate(s) && NoneShadowed(request, Lists(Counts(request), s))
    ensures ReplaySafe(request, s)
    decreases s, 0
  {
    match s
    case Plain(_) =>
    case Sequence(children) =>
      if IsPair(children) {
        var counts, group := Counts(request), children[1].group;
        PairLists(counts, children);
        UnshadowedIsSafe(request, children[0]);
        if group in Covered(counts, children[0]) {
          forall j: nat, k: nat ensures SameCandidate(request, group, j, k) {
            if PartOk(request, (group, j)) && PartOk(request, (group, k)) {
              CoveredListed(counts, children[0], group, j, k);
              InPass(group, Lists(counts, children[0]), CountAt(counts, group), k, [(group, j), (group, k)]);
              var p: Parts := [(group, k), (group, j), (group, k)];
              assert [(group, k)] + [(group, j), (group, k)] == p;
              assert p in Lists(counts, s);
              if CandidateOf(request, (group, j)) != CandidateOf(request, (group, k)) {
                TripleShadows(request, group, k, j);
              }
            }
          }
        }
      } else {
        UnshadowedIsSafeAll(request, children);
      }
  }

  lemma {:induction false} UnshadowedIsSafeAll(request: CompiledRequest, children: seq<CaseSeq>)
    requires SeparateAll(children) && NoneShadowed(request, ListsOfAll(Counts(request), children))
    ensures ReplaySafeAll(request, children)
    decreases children, 0
  {
    if children != [] {
      UnshadowedIsSafe(request, children[0]);
      UnshadowedIsSafeAll(request, children[1..]);
    }
  }

  /** No case of a tree is shadowed exactly when the tree is safe to replay. */
  lemma {:induction false} UnshadowedIffSafe(request: CompiledRequest, s: CaseSeq)
    requires Separate(s)
    ensures NoneShadowed(request, Lists(Counts(request), s)) <==> ReplaySafe(request, s)
  {
    if ReplaySafe(request, s) {
      forall p <- Lists(Counts(request), s) ensures PartsOk(request, p) && !Shadows(request, p) {
        SafeIsUnshadowed(request, s, p);
      }
    }
    if NoneShadowed(request, Lists(Counts(request), s)) {
      UnshadowedIsSafe(request, s);
    }
  }

  /** A covered leaf makes its group live, so distinct ids are enough for replaying. */
  lemma {:induction false} CoveredIsLive(counts: seq<nat>, s: CaseSeq)
    requires Separate(s)
    ensures Covered(counts, s) <= Live(counts, s)
    decreases s, 0
  {
    match s
    case Plain(_) =>
    case Sequence(children) =>
      if IsPair(children) {
        PairCovered(counts, children);
        PairLists(counts, children);
        CoveredIsLive(counts, children[0]);
        var group := children[1].group;
        if group in Leaves(children[0]) && CountAt(counts, group) > 0 {
          LeafAlone(counts, children[0], group, 0);
        }
      } else {
        CoveredIsLiveAll(counts, children);
      }
  }

  lemma {:induction false} CoveredIsLiveAll(counts: seq<nat>, children: seq<CaseSeq>)
    requires SeparateAll(children)
    ensures CoveredOfAll(counts, children) <= LiveOfAll(counts, children)
    decreases children, 0
  {
    if children != [] {
      CoveredIsLive(counts, children[0]);
      CoveredIsLiveAll(counts, children[1..]);
    }
  }

  lemma {:induction false} UnsharedIsReplaySafe(request: CompiledRequest, s: CaseSeq)
    requires Separate(s) && Unshared(Counts(request), s)
    ensures ReplaySafe(request, s)
    decreases s, 0
  {
    match s
    case Plain(_) =>
    case Sequence(children) =>
      if IsPair(children) {
        CoveredIsLive(Counts(request), children[0]);
        UnsharedIsReplaySafe(request, children[0]);
      } else {
        UnsharedIsReplaySafeAll(request, children);
      }
  }

  lemma {:induction false} UnsharedIsReplaySafeAll(request: CompiledRequest, children: seq<CaseSeq>)
    requires SeparateAll(children) && UnsharedAll(Counts(request), children)
    ensures ReplaySafeAll(request, children)
    decreases children, 0
  {
    if children != [] {
      UnsharedIsReplaySafe(request, children[0]);
      UnsharedIsReplaySafeAll(request, children[1..]);
    }
  }

  // ----- definitions whose groups lie outside the blocks they multiply -----

  /** No block is multiplied by a field inside it or by the group of a block inside it. */
  predicate GroupsOutside(node: Node, prefix: string)
    decreases node, 1
  {
    match node
    case Nested(block) =>
      var path := PathOf(prefix, block.name);
      && GroupsOutsideIn(block.children, path)
      && (block.group.Some? ==>
        block.group.value !in GroupNamesIn(block.children) && !(path + "." <= block.group.value))
    case _ => true
  }

  predicate GroupsOutsideIn(nodes: seq<Node>, path: string)
    decreases nodes, 0
  {
    nodes != [] ==> GroupsOutside(nodes[0], path) && GroupsOutsideIn(nodes[1..], path)
  }

  lemma {:induction false} OutsideIsSelfFree(
      request: CompiledRequest, groups: map<nat, nat>, node: Node, prefix: string, parent: Option<nat>, base: nat)
    requires TableOk(request, groups) && Placed(request.entries, node, prefix, parent, base)
    requires PathOf(prefix, NodeName(node)) != "" && GroupsOutside(node, prefix)
    ensures SelfFree(Counts(request), BuildCaseSeq(request.entries, groups, base))
    decreases node, 1
  {
    if node.Nested? {
      var children, path := request.entries[base].kind.children, PathOf(prefix, node.block.name);
      assert ForwardAt(request.entries, base);
      OutsideIsSelfFreeAll(request, groups, node.block.children, path, base, children, base + 1);
      NoProductAt(request.entries, groups, base, children);
      if base in groups {
        GroupedIsSelfFree(request, groups, node, prefix, parent, base, children);
      }
    }
  }

  lemma {:induction false} GroupedIsSelfFree(
      request: CompiledRequest, groups: map<nat, nat>, node: Node, prefix: string, parent: Option<nat>, base: nat,
      children: seq<nat>)
    requires TableOk(request, groups) && Placed(request.entries, node, prefix, parent, base) && node.Nested?
    requires PathOf(prefix, NodeName(node)) != "" && GroupsOutside(node, prefix) && base in groups
    requires children == request.entries[base].kind.children && ChildrenForward(request.entries, base, children)
    requires SelfFree(Counts(request), Sequence(BuildAll(request.entries, groups, base, children)))
    ensures SelfFree(Counts(request), BuildCaseSeq(request.entries, groups, base))
  {
    var path := PathOf(prefix, node.block.name);
    BuiltSeparateAll(request, groups, node.block.children, path, base, children, base + 1);
    var group, name := groups[base], node.block.group.value;
    var inner := Sequence(BuildAll(request.entries, groups, base, children));
    assert request.Resolves(name, group) && request.entries[group].path == name;
    GroupIsNoLeaf(request, node, prefix, parent, base, group);
    GroupIsNotLive(request, Live(Counts(request), inner), GroupNamesIn(node.block.children), name, group);
    PairIsSelfFree(Counts(request), inner, group);
  }

  lemma {:induction false} OutsideIsSelfFreeAll(
      request: CompiledRequest, groups: map<nat, nat>, nodes: seq<Node>, path: string, parent: nat,
      children: seq<nat>, base: nat)
    requires TableOk(request, groups) && PlacedAll(request.entries, nodes, path, parent, base) && path != ""
    requires parent < |request.entries| && children == Indices(nodes, base)
    requires ChildrenForward(request.entries, parent, children) && GroupsOutsideIn(nodes, path)
    ensures SelfFreeAll(Counts(request), BuildAll(request.entries, groups, parent, children))
    decreases nodes, 0
  {
    if nodes != [] {
      IndicesTail(nodes, base);
      assert |PathOf(path, NodeName(nodes[0]))| > |path| > 0;
      OutsideIsSelfFree(request, groups, nodes[0], path, Some(parent), base);
      OutsideIsSelfFreeAll(request, groups, nodes[1..], path, parent, children[1..], base + NodeSize(nodes[0]));
      var built := BuildAll(request.entries, groups, parent, children);
      assert built[1..] == BuildAll(request.entries, groups, parent, children[1..]);
    }
  }

  /** The field of an outside group is not a leaf of its block. */
  lemma {:induction false} GroupIsNoLeaf(
      request: CompiledRequest, node: Node, prefix: string, parent: Option<nat>, base: nat, group: nat)
    requires Placed(request.entries, node, prefix, parent, base) && PathOf(prefix, NodeName(node)) != ""
    requires group < |request.entries| && !(PathOf(prefix, NodeName(node)) + "." <= request.entries[group].path)
    ensures !(base < group < base + NodeSize(node))
  {
    if base < group < base + NodeSize(node) {
      Located(request.entries, node, prefix, parent, base, group);
    }
  }

  /** The field of a group whose name no inner block uses is not a live group of the block. */
  lemma {:induction false} GroupIsNotLive(
      request: CompiledRequest, live: set<nat>, names: set<string>, name: string, group: nat)
    requires Indexed(request.entries, request.paths) && LiveNamed(request, live, names)
    requires request.Resolves(name, group) && name !in names
    ensures group !in live
  {
  }

  lemma {:induction false} PairIsSelfFree(counts: seq<nat>, inner: CaseSeq, group: nat)
    requires SelfFree(counts, inner) && group !in Live(counts, inner) + Leaves(inner)
    ensures SelfFree(counts, Sequence([inner, Product(group, inner)]))
  {
  }

  // ----- requests -----

  lemma {:induction false} SequentialLists(request: CompiledRequest, root: Block)
    requires Assembled(request, root)
    ensures Separate(request.caseSeq) && SequentialParts(request) == Lists(Counts(request), request.caseSeq)
    ensures NoNestedShare(Nested(root)) ==> Unshared(Counts(request), request.caseSeq)
    ensures GroupsOutside(Nested(root), "") ==> SelfFree(Counts(request), request.caseSeq)
  {
    var counts, s := Counts(request), request.caseSeq;
    var groups :| GroupsMatch(request, groups) && s == BuildCaseSeq(request.entries, groups, 0);
    BuiltSeparate(request, groups, Nested(root), "", None, 0);
    UnitsCarryLists(counts, s, []);
    BehindNothing(Lists(counts, s));
    if GroupsOutside(Nested(root), "") {
      OutsideIsSelfFree(request, groups, Nested(root), "", None, 0);
    }
  }

  /** Every candidate of a leaf of the tree is a sequential case of its own. */
  lemma {:induction false} LeafEnumerated(request: CompiledRequest, root: Block, e: nat, j: nat)
    requires Assembled(request, root) && e in Leaves(request.caseSeq) && j < CountAt(Counts(request), e)
    ensures [(e, j)] in SequentialParts(request)
  {
    SequentialLists(request, root);
    LeafAlone(Counts(request), request.caseSeq, e, j);
  }

  /**
   The entries replaced in each sequential case are unique exactly when no block is multiplied by a field or a live
   group inside it; so they are when every group lies outside the block it multiplies.
   */
  lemma {:induction false} UniqueReplacements(request: CompiledRequest, root: Block)
    requires Assembled(request, root)
    ensures AllDistinct(SequentialParts(request)) <==> SelfFree(Counts(request), request.caseSeq)
    ensures GroupsOutside(Nested(root), "") ==> AllDistinct(SequentialParts(request))
  {
    SequentialLists(request, root);
    UniqueIffSelfFree(Counts(request), request.caseSeq);
  }

  /** The entries replaced in each combinatorial case are always unique. */
  lemma {:induction false} CombinedReplacements(request: CompiledRequest, maxDepth: Option<int>)
    ensures AllDistinct(CombinedParts(request, maxDepth))
  {
    forall p <- CombinedParts(request, maxDepth) ensures EntriesDistinct(p) {
      var n :| 0 <= n < |CombinedParts(request, maxDepth)| && CombinedParts(request, maxDepth)[n] == p;
      CombinedUnrelated(request, maxDepth, n);
      UnrelatedAreDistinct(PathsOf(request), p);
    }
  }

  /** The case replaces the field it names by the candidate it names. */
  ghost predicate CarriesOwn(request: CompiledRequest, parts: Parts) {
    && PartsOk(request, parts) && PartOk(request, parts[|parts| - 1])
    && Lookup(ReplacementsOf(request, parts), parts[|parts| - 1].0) == Some(CandidateOf(request, parts[|parts| - 1]))
  }

  ghost predicate AllCarryOwn(request: CompiledRequest, all: seq<Parts>) {
    forall p <- all :: CarriesOwn(request, p)
  }

  lemma {:induction false} CarryIsInEffect(request: CompiledRequest, all: seq<Parts>)
    requires forall p <- all :: PartsOk(request, p)
    ensures AllCarryOwn(request, all) <==> AllInEffect(request, all)
  {
    forall p <- all ensures CarriesOwn(request, p) <==> InEffect(request, p) {
      OwnCandidate(request, p);
    }
  }

  /**
   Every sequential case carries the mutation it is named after exactly when each field that multiplies a block it lies
   in has only one candidate value, so when every group lies outside the block it multiplies; every combinatorial case
   does.
   */
  lemma {:induction false} OwnMutations(request: CompiledRequest, root: Block, maxDepth: Option<int>)
    requires Assembled(request, root)
    ensures AllCarryOwn(request, SequentialParts(request)) <==> OwnSafe(request, request.caseSeq)
    ensures GroupsOutside(Nested(root), "") ==> AllCarryOwn(request, SequentialParts(request))
    ensures AllCarryOwn(request, CombinedParts(request, maxDepth))
  {
    var sequential, combined := SequentialParts(request), CombinedParts(request, maxDepth);
    EnumerationsOk(request, maxDepth);
    forall p <- sequential ensures PartsOk(request, p) {
      var n :| 0 <= n < |sequential| && sequential[n] == p;
    }
    SequentialLists(request, root);
    CarryIsInEffect(request, sequential);
    InEffectIffSafe(request, request.caseSeq);
    CombinedReplacements(request, maxDepth);
    forall p <- combined ensures PartsOk(request, p) {
      var n :| 0 <= n < |combined| && combined[n] == p;
    }
    DistinctCarryOwn(request, combined);
    UniqueReplacements(request, root);
    if AllDistinct(sequential) {
      DistinctCarryOwn(request, sequential);
    }
  }

  lemma {:induction false} DistinctCarryOwn(request: CompiledRequest, all: seq<Parts>)
    requires AllDistinct(all) && forall p <- all :: PartsOk(request, p)
    ensures AllCarryOwn(request, all)
  {
    forall p <- all ensures CarriesOwn(request, p) {
      DistinctIsInEffect(request, p);
      OwnCandidate(request, p);
    }
  }

  lemma {:induction false} DistinctIsInEffect(request: CompiledRequest, p: Parts)
    requires PartsOk(request, p) && EntriesDistinct(p)
    ensures InEffect(request, p)
  {
    var leaf := p[|p| - 1];
    assert leaf in p && PartOk(request, leaf);
    FirstOfHas(p, leaf.0);
    assert forall k :: 0 <= k < |p| - 1 ==> p[k].0 != p[|p| - 1].0;
    assert FirstOf(p, leaf.0).value == leaf;
  }

  /**
   Every sequential case puts its replacements into effect again when it is replayed exactly when no field lies inside
   two blocks that it multiplies, unless all its candidates are the same; then it replays to its own payload.
   */
  lemma {:induction false} SequentialReplays(plan: Plan, root: Block)
    requires PlanOk(plan) && Assembled(plan.request, root)
    ensures NoneShadowed(plan.request, SequentialParts(plan.request)) <==>
      ReplaySafe(plan.request, plan.request.caseSeq)
    ensures NoNestedShare(Nested(root)) ==> ReplaySafe(plan.request, plan.request.caseSeq)
    ensures ReplaySafe(plan.request, plan.request.caseSeq) ==>
              forall parts: Parts, ordinal: nat ::
                parts in SequentialParts(plan.request) ==> ReplaysAt(plan, parts, ordinal)
  {
    var request := plan.request;
    SequentialLists(request, root);
    UnshadowedIffSafe(request, request.caseSeq);
    if Unshared(Counts(request), request.caseSeq) {
      UnsharedIsReplaySafe(request, request.caseSeq);
    }
    if ReplaySafe(request, request.caseSeq) {
      forall parts: Parts, ordinal: nat | parts in SequentialParts(request) ensures ReplaysAt(plan, parts, ordinal) {
        if CaseAt(plan, parts, ordinal).Ok? {
          ReplayRoundTrip(plan, parts, ordinal);
        }
      }
    }
  }

  /** If the case exists, rendering its pairs gives its payload. */
  ghost predicate ReplaysAt(plan: Plan, parts: Parts, ordinal: nat)
    requires PlanOk(plan)
  {
    && PartsOk(plan.request, parts)
    && var built := CaseAt(plan, parts, ordinal);
       built.Ok? ==>
         PairsOk(plan.request, built.value.Parts()) &&
           ReplayPayload(plan, built.value.Parts()) == Ok(built.value.payload)
  }
}
