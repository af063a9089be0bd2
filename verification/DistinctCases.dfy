/** When the sequential enumeration names no case twice. */
module DistinctCases {
  import opened Wrappers
  import opened CaseSequences
  import opened Combinations
  import opened Model
  import opened Layout
  import opened Assembly
  import opened Compilation
  import opened CompiledRequests
  import opened CaseStreams
  import opened CaseBuilding
  import opened RequestStreams
  import opened Replay

  // ----- part lists without prefixes -----

  function Singles(entry: nat, from: nat, bound: nat): seq<Parts>
    decreases bound - from
  {
    if from >= bound then [] else [[(entry, from)]] + Singles(entry, from + 1, bound)
  }

  function Lists(counts: seq<nat>, s: CaseSeq): seq<Parts>
    decreases s, 0
  {
    match s
    case Plain(entry) => Singles(entry, 0, CountAt(counts, entry))
    case Sequence(children) => ListsOfAll(counts, children)
    case Product(group, inner) => Headed(group, 0, CountAt(counts, group), Lists(counts, inner))
  }

  function ListsOfAll(counts: seq<nat>, children: seq<CaseSeq>): seq<Parts>
    decreases children, 0
  {
    if children == [] then [] else Lists(counts, children[0]) + ListsOfAll(counts, children[1..])
  }

  lemma {:induction false} BehindNothing(lists: seq<Parts>)
    ensures Behind([], lists) == lists
  {
    forall i | 0 <= i < |lists| ensures Behind([], lists)[i] == lists[i] {
      assert [] + lists[i] == lists[i];
    }
  }

  lemma {:induction false} UnitsBehindAppend(
      prefix: Parts, a: seq<Parts>, b: seq<Parts>, us: seq<StreamUnit>, vs: seq<StreamUnit>)
    requires PartsOf(us) == Behind(prefix, a) && PartsOf(vs) == Behind(prefix, b)
    ensures PartsOf(us + vs) == Behind(prefix, a + b)
  {
    forall i | 0 <= i < |us + vs| ensures PartsOf(us + vs)[i] == prefix + (a + b)[i] {
      if i < |us| {
        assert PartsOf(us)[i] == Behind(prefix, a)[i];
      } else {
        assert PartsOf(vs)[i - |us|] == Behind(prefix, b)[i - |us|];
      }
    }
  }

  /** The units carry these lists after their prefix. */
  lemma {:induction false} UnitsCarryLists(counts: seq<nat>, s: CaseSeq, prefix: Parts)
    ensures PartsOf(Units(counts, s, prefix)) == Behind(prefix, Lists(counts, s))
    decreases s, 0
  {
    match s
    case Plain(entry) => SinglesShape(entry, 0, CountAt(counts, entry), prefix);
    case Sequence(children) => UnitsCarryListsAll(counts, children, prefix);
    case Product(group, inner) => UnitsCarryPasses(counts, group, inner, prefix, 0);
  }

  lemma {:induction false} SinglesShape(entry: nat, from: nat, bound: nat, prefix: Parts)
    ensures PartsOf(LeafUnits(entry, prefix, from, bound)) == Behind(prefix, Singles(entry, from, bound))
    decreases bound - from
  {
    if from < bound {
      SinglesShape(entry, from + 1, bound, prefix);
      UnitsBehindAppend(prefix, [[(entry, from)]], Singles(entry, from + 1, bound),
                   [StreamUnit(prefix + [(entry, from)], entry)], LeafUnits(entry, prefix, from + 1, bound));
    }
  }

  lemma {:induction false} UnitsCarryListsAll(counts: seq<nat>, children: seq<CaseSeq>, prefix: Parts)
    ensures PartsOf(UnitsOfAll(counts, children, prefix)) == Behind(prefix, ListsOfAll(counts, children))
    decreases children, 0
  {
    if children != [] {
      UnitsCarryLists(counts, children[0], prefix);
      UnitsCarryListsAll(counts, children[1..], prefix);
      UnitsBehindAppend(prefix, Lists(counts, children[0]), ListsOfAll(counts, children[1..]),
                   Units(counts, children[0], prefix), UnitsOfAll(counts, children[1..], prefix));
    }
  }

  lemma {:induction false} UnitsCarryPasses(counts: seq<nat>, group: nat, inner: CaseSeq, prefix: Parts, pass: nat)
    ensures PartsOf(UnitsOfPasses(counts, group, inner, prefix, pass))
         == Behind(prefix, Headed(group, pass, CountAt(counts, group), Lists(counts, inner)))
    decreases inner, 1, CountAt(counts, group) - pass
  {
    if pass < CountAt(counts, group) {
      var lists, longer := Lists(counts, inner), prefix + [(group, pass)];
      UnitsCarryLists(counts, inner, longer);
      UnitsCarryPasses(counts, group, inner, prefix, pass + 1);
      forall i | 0 <= i < |lists| ensures Behind(longer, lists)[i] == Behind(prefix, Prepend((group, pass), lists))[i] {
        assert longer + lists[i] == prefix + ([(group, pass)] + lists[i]);
      }
      UnitsBehindAppend(prefix, Prepend((group, pass), lists), Headed(group, pass + 1, CountAt(counts, group), lists),
                   Units(counts, inner, longer), UnitsOfPasses(counts, group, inner, prefix, pass + 1));
    }
  }

  // ----- distinctness -----

  ghost predicate Distinct(lists: seq<Parts>) {
    forall i, j :: 0 <= i < j < |lists| ==> lists[i] != lists[j]
  }

  ghost predicate Disjoint(a: seq<Parts>, b: seq<Parts>) {
    forall p <- a :: p !in b
  }

  lemma {:induction false} DistinctAppend(a: seq<Parts>, b: seq<Parts>)
    ensures Distinct(a + b) <==> Distinct(a) && Distinct(b) && Disjoint(a, b)
  {
    var both := a + b;
    if Distinct(both) {
      forall i, j | 0 <= i < j < |a| ensures a[i] != a[j] {
        assert both[i] != both[j];
      }
      forall i, j | 0 <= i < j < |b| ensures b[i] != b[j] {
        assert both[|a| + i] != both[|a| + j];
      }
      forall p <- a ensures p !in b {
        var i :| 0 <= i < |a| && a[i] == p;
        forall j | 0 <= j < |b| ensures b[j] != p {
          assert both[i] != both[|a| + j];
        }
      }
    }
    if Distinct(a) && Distinct(b) && Disjoint(a, b) {
      forall i, j | 0 <= i < j < |both| ensures both[i] != both[j] {
        if i < |a| && j >= |a| {
          assert both[i] in a && both[j] in b;
        }
      }
    }
  }

  lemma {:induction false} DistinctSingles(entry: nat, from: nat, bound: nat)
    ensures Distinct(Singles(entry, from, bound))
    ensures forall p: Parts <- Singles(entry, from, bound) :: |p| == 1 && p[0].0 == entry && p[0].1 >= from
    decreases bound - from
  {
    if from < bound {
      DistinctSingles(entry, from + 1, bound);
      DistinctAppend([[(entry, from)]], Singles(entry, from + 1, bound));
    }
  }

  lemma {:induction false} DistinctPrepend(part: Part, lists: seq<Parts>)
    requires Distinct(lists)
    ensures Distinct(Prepend(part, lists))
  {
    forall i, j | 0 <= i < j < |lists| ensures Prepend(part, lists)[i] != Prepend(part, lists)[j] {
      assert ([part] + lists[i])[1..] == lists[i] && ([part] + lists[j])[1..] == lists[j];
    }
  }

  ghost predicate StartsWith(group: nat, lists: seq<Parts>, pass: nat, p: Parts) {
    |p| > 0 && p[0].0 == group && p[0].1 >= pass && p[1..] in lists
  }

  lemma {:induction false} PassesHeaded(group: nat, lists: seq<Parts>, pass: nat, bound: nat)
    ensures forall p <- Headed(group, pass, bound, lists) :: StartsWith(group, lists, pass, p)
  {
    forall p <- Headed(group, pass, bound, lists) ensures StartsWith(group, lists, pass, p) {
      HeadedMembers(group, pass, bound, lists, p);
    }
  }

  lemma {:induction false} DistinctPasses(group: nat, lists: seq<Parts>, pass: nat, bound: nat)
    requires Distinct(lists)
    ensures Distinct(Headed(group, pass, bound, lists))
    decreases bound - pass
  {
    if pass < bound {
      DistinctPrepend((group, pass), lists);
      DistinctPasses(group, lists, pass + 1, bound);
      PassesHeaded(group, lists, pass + 1, bound);
      var here, later := Prepend((group, pass), lists), Headed(group, pass + 1, bound, lists);
      forall p <- here ensures p !in later {
        var i :| 0 <= i < |lists| && here[i] == p;
        assert p[0] == (group, pass);
        assert p in later ==> StartsWith(group, lists, pass + 1, p);
      }
      DistinctAppend(here, later);
    }
  }

  // ----- leaves and live groups of a case sequence -----

  function Leaves(s: CaseSeq): set<nat>
    decreases s, 0
  {
    match s
    case Plain(entry) => {entry}
    case Sequence(children) => LeavesOfAll(children)
    case Product(_, inner) => Leaves(inner)
  }

  function LeavesOfAll(children: seq<CaseSeq>): set<nat>
    decreases children, 0
  {
    if children == [] then {} else Leaves(children[0]) + LeavesOfAll(children[1..])
  }

  /** The groups whose candidates multiply something. */
  function Live(counts: seq<nat>, s: CaseSeq): set<nat>
    decreases s, 0
  {
    match s
    case Plain(_) => {}
    case Sequence(children) => LiveOfAll(counts, children)
    case Product(group, inner) =>
      Live(counts, inner) + if CountAt(counts, group) > 0 && Lists(counts, inner) != [] then {group} else {}
  }

  function LiveOfAll(counts: seq<nat>, children: seq<CaseSeq>): set<nat>
    decreases children, 0
  {
    if children == [] then {} else Live(counts, children[0]) + LiveOfAll(counts, children[1..])
  }

  predicate IsPair(children: seq<CaseSeq>) {
    |children| == 2 && children[1].Product? && children[1].inner == children[0]
  }

  /** Siblings have no leaf in common, and a product only repeats its preceding sibling. */
  predicate Separate(s: CaseSeq)
    decreases s, 0
  {
    match s
    case Plain(_) => true
    case Sequence(children) => if IsPair(children) then Separate(children[0]) else SeparateAll(children)
    case Product(_, _) => false
  }

  predicate SeparateAll(children: seq<CaseSeq>)
    decreases children, 0
  {
    children != [] ==>
      Separate(children[0]) && SeparateAll(children[1..]) && Leaves(children[0]) !! LeavesOfAll(children[1..])
  }

  /** No product multiplies by a group that is already live inside it. */
  predicate Unshared(counts: seq<nat>, s: CaseSeq)
    decreases s, 0
  {
    match s
    case Plain(_) => true
    case Sequence(children) =>
      if IsPair(children) then Unshared(counts, children[0]) && children[1].group !in Live(counts, children[0])
      else UnsharedAll(counts, children)
    case Product(_, _) => true
  }

  predicate UnsharedAll(counts: seq<nat>, children: seq<CaseSeq>)
    decreases children, 0
  {
    children != [] ==> Unshared(counts, children[0]) && UnsharedAll(counts, children[1..])
  }

  /** A list ends in a leaf, and what precedes the leaf are live groups. */
  ghost predicate ShapedList(leaves: set<nat>, live: set<nat>, p: Parts) {
    |p| > 0 && p[|p| - 1].0 in leaves && forall k :: 0 <= k < |p| - 1 ==> p[k].0 in live
  }

  lemma {:induction false} ListShape(counts: seq<nat>, s: CaseSeq, p: Parts)
    requires p in Lists(counts, s)
    ensures ShapedList(Leaves(s), Live(counts, s), p)
    decreases s, 0
  {
    match s
    case Plain(entry) => DistinctSingles(entry, 0, CountAt(counts, entry));
    case Sequence(children) => ListShapeAll(counts, children, p);
    case Product(group, inner) =>
      PassesHeaded(group, Lists(counts, inner), 0, CountAt(counts, group));
      assert StartsWith(group, Lists(counts, inner), 0, p);
      PassesNeedCount(group, Lists(counts, inner), 0, CountAt(counts, group), p);
      ListShape(counts, inner, p[1..]);
      assert p == [p[0]] + p[1..];
  }

  lemma {:induction false} ListShapeAll(counts: seq<nat>, children: seq<CaseSeq>, p: Parts)
    requires p in ListsOfAll(counts, children)
    ensures ShapedList(LeavesOfAll(children), LiveOfAll(counts, children), p)
    decreases children, 0
  {
    if p in Lists(counts, children[0]) {
      ListShape(counts, children[0], p);
    } else {
      ListShapeAll(counts, children[1..], p);
    }
  }

  lemma {:induction false} PassesNeedCount(group: nat, lists: seq<Parts>, pass: nat, bound: nat, p: Parts)
    requires p in Headed(group, pass, bound, lists)
    ensures bound > pass && lists != []
    decreases bound - pass
  {
    if p !in Prepend((group, pass), lists) {
      PassesNeedCount(group, lists, pass + 1, bound, p);
    }
  }

  /** A live group occurs in front of a list that also occurs without it. */
  lemma {:induction false} LiveTwice(counts: seq<nat>, s: CaseSeq, group: nat) returns (q: Parts)
    requires Separate(s) && group in Live(counts, s)
    ensures CountAt(counts, group) > 0 && q in Lists(counts, s) && [(group, 0)] + q in Lists(counts, s)
    decreases s, 0
  {
    var children := s.children;
    if IsPair(children) {
      PairLists(counts, children);
      if group in Live(counts, children[0]) {
        q := LiveTwice(counts, children[0], group);
      } else {
        q := Lists(counts, children[0])[0];
        FirstPass(group, Lists(counts, children[0]), CountAt(counts, group), q);
      }
    } else {
      q := LiveTwiceAll(counts, children, group);
    }
  }

  lemma {:induction false} LiveTwiceAll(counts: seq<nat>, children: seq<CaseSeq>, group: nat) returns (q: Parts)
    requires SeparateAll(children) && group in LiveOfAll(counts, children)
    ensures CountAt(counts, group) > 0 && q in ListsOfAll(counts, children) &&
      [(group, 0)] + q in ListsOfAll(counts, children)
    decreases children, 0
  {
    if group in Live(counts, children[0]) {
      q := LiveTwice(counts, children[0], group);
    } else {
      q := LiveTwiceAll(counts, children[1..], group);
    }
  }

  lemma {:induction false} PairLists(counts: seq<nat>, children: seq<CaseSeq>)
    requires IsPair(children)
    ensures Lists(counts, Sequence(children))
         == Lists(counts, children[0]) +
           Headed(children[1].group, 0, CountAt(counts, children[1].group), Lists(counts, children[0]))
    ensures Live(counts, Sequence(children)) == Live(counts, children[1])
  {
    assert children[1..] == [children[1]] && children[1..][1..] == [];
    var later := Lists(counts, children[1]);
    assert ListsOfAll(counts, children[1..]) == later + ListsOfAll(counts, []) == later;
    assert LiveOfAll(counts, children[1..]) == Live(counts, children[1]) + LiveOfAll(counts, []);
  }

  lemma {:induction false} FirstPass(group: nat, lists: seq<Parts>, bound: nat, q: Parts)
    requires q in lists && bound > 0
    ensures [(group, 0)] + q in Headed(group, 0, bound, lists)
  {
    var i :| 0 <= i < |lists| && lists[i] == q;
    assert Prepend((group, 0), lists)[i] == [(group, 0)] + q;
  }

  // ----- exactly when no list occurs twice -----

  lemma {:induction false} DistinctIffUnshared(counts: seq<nat>, s: CaseSeq)
    requires Separate(s)
    ensures Distinct(Lists(counts, s)) <==> Unshared(counts, s)
    decreases s, 0
  {
    match s
    case Plain(entry) => DistinctSingles(entry, 0, CountAt(counts, entry));
    case Sequence(children) =>
      if IsPair(children) {
        DistinctIffUnshared(counts, children[0]);
        DistinctPair(counts, children);
      } else {
        DistinctIffUnsharedAll(counts, children);
      }
  }

  lemma {:induction false} DistinctIffUnsharedAll(counts: seq<nat>, children: seq<CaseSeq>)
    requires SeparateAll(children)
    ensures Distinct(ListsOfAll(counts, children)) <==> UnsharedAll(counts, children)
    decreases children, 0
  {
    if children != [] {
      DistinctIffUnshared(counts, children[0]);
      DistinctIffUnsharedAll(counts, children[1..]);
      var first, rest := Lists(counts, children[0]), ListsOfAll(counts, children[1..]);
      forall p <- first ensures p !in rest {
        ListShape(counts, children[0], p);
        if p in rest {
          ListShapeAll(counts, children[1..], p);
        }
      }
      DistinctAppend(first, rest);
    }
  }

  lemma {:induction false} DistinctPair(counts: seq<nat>, children: seq<CaseSeq>)
    requires IsPair(children) && Separate(children[0])
    ensures Distinct(Lists(counts, Sequence(children))) <==>
            Distinct(Lists(counts, children[0])) && children[1].group !in Live(counts, children[0])
  {
    var group, lists := children[1].group, Lists(counts, children[0]);
    var passes := Headed(group, 0, CountAt(counts, group), lists);
    PairLists(counts, children);
    DistinctAppend(lists, passes);
    if Distinct(lists) {
      DistinctPasses(group, lists, 0, CountAt(counts, group));
    }
    if group in Live(counts, children[0]) {
      var q := LiveTwice(counts, children[0], group);
      FirstPass(group, lists, CountAt(counts, group), q);
    } else {
      PassesApart(counts, children[0], group);
    }
  }

  lemma {:induction false} PassesApart(counts: seq<nat>, inner: CaseSeq, group: nat)
    requires group !in Live(counts, inner)
    ensures Disjoint(Lists(counts, inner), Headed(group, 0, CountAt(counts, group), Lists(counts, inner)))
  {
    var lists := Lists(counts, inner);
    PassesHeaded(group, lists, 0, CountAt(counts, group));
    forall p <- lists ensures p !in Headed(group, 0, CountAt(counts, group), lists) {
      ListShape(counts, inner, p);
      if StartsWith(group, lists, 0, p) {
        ListShape(counts, inner, p[1..]);
      }
    }
  }

  // ----- definitions whose nested blocks do not share a group -----

  function GroupNames(node: Node): set<string>
    decreases node, 1
  {
    match node
    case Nested(block) => GroupNamesIn(block.children) + if block.group.Some? then {block.group.value} else {}
    case _ => {}
  }

  function GroupNamesIn(nodes: seq<Node>): set<string>
    decreases nodes, 0
  {
    if nodes == [] then {} else GroupNames(nodes[0]) + GroupNamesIn(nodes[1..])
  }

  predicate NoNestedShare(node: Node)
    decreases node, 1
  {
    match node
    case Nested(block) =>
      NoNestedShareIn(block.children) && (block.group.Some? ==> block.group.value !in GroupNamesIn(block.children))
    case _ => true
  }

  predicate NoNestedShareIn(nodes: seq<Node>)
    decreases nodes, 0
  {
    nodes != [] ==> NoNestedShare(nodes[0]) && NoNestedShareIn(nodes[1..])
  }

  predicate LeavesWithin(leaves: set<nat>, from: nat, until: nat) {
    forall leaf <- leaves :: from <= leaf < until
  }

  /** Every live group is the field some group name stands for. */
  ghost predicate LiveNamed(request: CompiledRequest, live: set<nat>, names: set<string>) {
    forall group <- live :: exists name <- names :: request.Resolves(name, group)
  }

  ghost predicate TableOk(request: CompiledRequest, groups: map<nat, nat>) {
    Forward(request.entries) && Indexed(request.entries, request.paths) && GroupsMatch(request, groups)
  }

  lemma {:induction false} BuiltSeparate(
      request: CompiledRequest, groups: map<nat, nat>, node: Node, prefix: string, parent: Option<nat>, base: nat)
    requires TableOk(request, groups) && Placed(request.entries, node, prefix, parent, base)
    ensures var s := BuildCaseSeq(request.entries, groups, base);
            && Separate(s) && !s.Product?
            && LeavesWithin(Leaves(s), base, base + NodeSize(node))
            && LiveNamed(request, Live(Counts(request), s), GroupNames(node))
            && (NoNestedShare(node) ==> Unshared(Counts(request), s))
    decreases node, 1
  {
    if node.Nested? {
      var children := request.entries[base].kind.children;
      assert ForwardAt(request.entries, base);
      BuiltSeparateAll(request, groups, node.block.children, PathOf(prefix, node.block.name), base, children, base + 1);
      var built := BuildAll(request.entries, groups, base, children);
      if base in groups {
        GroupedSeparate(request, groups, node, base, Sequence(built));
      } else {
        assert !IsPair(built);
      }
    }
  }

  lemma {:induction false} BuiltSeparateAll(
      request: CompiledRequest, groups: map<nat, nat>, nodes: seq<Node>, path: string, parent: nat,
      children: seq<nat>, base: nat)
    requires TableOk(request, groups) && PlacedAll(request.entries, nodes, path, parent, base)
    requires parent < |request.entries| && children == Indices(nodes, base) &&
      ChildrenForward(request.entries, parent, children)
    ensures var built := BuildAll(request.entries, groups, parent, children);
            && SeparateAll(built) && !IsPair(built)
            && LeavesWithin(LeavesOfAll(built), base, base + NodesSize(nodes))
            && LiveNamed(request, LiveOfAll(Counts(request), built), GroupNamesIn(nodes))
            && (NoNestedShareIn(nodes) ==> UnsharedAll(Counts(request), built))
    decreases nodes, 0
  {
    if nodes != [] {
      var middle := base + NodeSize(nodes[0]);
      IndicesTail(nodes, base);
      BuiltSeparate(request, groups, nodes[0], path, Some(parent), base);
      BuiltSeparateAll(request, groups, nodes[1..], path, parent, children[1..], middle);
      var built := BuildAll(request.entries, groups, parent, children);
      assert built[1..] == BuildAll(request.entries, groups, parent, children[1..]);
      NoProductAt(request.entries, groups, parent, children);
    }
  }

  lemma {:induction false} NoProductAt(entries: seq<Entry>, groups: map<nat, nat>, parent: nat, children: seq<nat>)
    requires Forward(entries) && parent < |entries| && ChildrenForward(entries, parent, children)
    ensures !IsPair(BuildAll(entries, groups, parent, children))
  {
    if |children| == 2 {
      var built := BuildAll(entries, groups, parent, children);
      assert built[1] == BuildAll(entries, groups, parent, children[1..])[0] ==
        BuildCaseSeq(entries, groups, children[1]);
    }
  }

  lemma {:induction false} GroupedSeparate(
      request: CompiledRequest, groups: map<nat, nat>, node: Node, base: nat, inner: CaseSeq)
    requires TableOk(request, groups) && base in groups && node.Nested? &&
      request.entries[base].group == node.block.group
    requires Separate(inner) && LiveNamed(request, Live(Counts(request), inner), GroupNamesIn(node.block.children))
    ensures var s := Sequence([inner, Product(groups[base], inner)]);
            && Separate(s) && Leaves(s) == Leaves(inner)
            && LiveNamed(request, Live(Counts(request), s), GroupNames(node))
            && (NoNestedShare(node) && Unshared(Counts(request), inner) ==> Unshared(Counts(request), s))
  {
    var pair := [inner, Product(groups[base], inner)];
    PairLists(Counts(request), pair);
    assert pair[1..] == [pair[1]] && pair[1..][1..] == [];
    assert LeavesOfAll(pair[1..]) == Leaves(inner) + LeavesOfAll([]);
    var name := node.block.group.value;
    assert request.Resolves(name, groups[base]);
    if groups[base] in Live(Counts(request), inner) {
      var other :| other in GroupNamesIn(node.block.children) && request.Resolves(other, groups[base]);
      assert other == name;
    }
  }

  // ----- ids of the sequential stream -----

  ghost predicate IdsDistinct(request: CompiledRequest) {
    && PendingOk(request, SequentialParts(request))
    && forall i: nat, j: nat :: IdsDiffer(request, SequentialParts(request), i, j)
  }

  ghost predicate IdsDiffer(request: CompiledRequest, all: seq<Parts>, i: nat, j: nat)
    requires PendingOk(request, all)
  {
    i < j < |all| ==> CaseId(request, all[i]) != CaseId(request, all[j])
  }

  /**
    * The ids of the sequential stream are pairwise distinct exactly when no block multiplies by a group that is live
    * inside it; so they are when no two nested blocks of the definition share a group.
    */
  lemma {:induction false} SequentialIds(request: CompiledRequest, root: Block)
    requires Assembled(request, root)
    ensures IdsDistinct(request) <==> Unshared(Counts(request), request.caseSeq)
    ensures NoNestedShare(Nested(root)) ==> IdsDistinct(request)
  {
    var counts, s, all := Counts(request), request.caseSeq, SequentialParts(request);
    var groups :| GroupsMatch(request, groups) && s == BuildCaseSeq(request.entries, groups, 0);
    BuiltSeparate(request, groups, Nested(root), "", None, 0);
    DistinctIffUnshared(counts, s);
    UnitsCarryLists(counts, s, []);
    BehindNothing(Lists(counts, s));
    EnumerationsOk(request, None);
    DistinctIds(request, all);
  }

  lemma {:induction false} DistinctIds(request: CompiledRequest, all: seq<Parts>)
    requires Clean(request.entries) && Indexed(request.entries, request.paths) && PendingOk(request, all)
    ensures Distinct(all) <==> forall i: nat, j: nat :: IdsDiffer(request, all, i, j)
  {
    forall i: nat, j: nat | i < j < |all|
      ensures CaseId(request, all[i]) == CaseId(request, all[j]) <==> all[i] == all[j]
    {
      if CaseId(request, all[i]) == CaseId(request, all[j]) {
        CaseIdInjective(request, all[i], all[j]);
      }
    }
    if forall i: nat, j: nat :: IdsDiffer(request, all, i, j) {
      forall i, j | 0 <= i < j < |all| ensures all[i] != all[j] {
        assert IdsDiffer(request, all, i, j);
      }
    }
  }

  // ----- ids of the combinatorial stream -----

  lemma {:induction false} SortedTuplesDistinct(tuples: seq<Parts>)
    requires LexSorted(tuples)
    ensures Distinct(tuples)
  {
    forall i, j | 0 <= i < j < |tuples| ensures tuples[i] != tuples[j] {
      assert LexLess(tuples[i], tuples[j]);
    }
  }

  /** Without groups, no combination occurs twice, in the same depth or in two. */
  lemma {:induction false} UngroupedDistinct(units: seq<StreamUnit>, paths: seq<string>, counts: seq<nat>,
                                             entries: seq<nat>, maxDepth: Option<int>, depth: nat)
    requires LeafInParts(units) && Ungrouped(units, counts, entries) && depth > 0
    ensures Distinct(FromDepth(units, paths, maxDepth, depth))
    decreases |Children(units)| + 1 - depth
  {
    var here := AtDepth(units, paths, depth);
    UngroupedWalk(units, paths, counts, entries, depth);
    SortedTuplesDistinct(here);
    DepthBounded(units, paths, depth);
    if here != [] && !LastDepth(maxDepth, depth) {
      var deeper := FromDepth(units, paths, maxDepth, depth + 1);
      UngroupedDistinct(units, paths, counts, entries, maxDepth, depth + 1);
      forall p <- here ensures p !in deeper {
        FromDepthIsBounded(units, paths, maxDepth, depth + 1, p);
        if d :| depth + 1 <= d && p in AtDepth(units, paths, d) {
          UngroupedWalk(units, paths, counts, entries, d);
        }
      }
      DistinctAppend(here, deeper);
    }
  }

  /** Without groups, the ids of the combinatorial stream are pairwise distinct over all depths. */
  lemma {:induction false} CombinedIds(request: CompiledRequest, root: Block, maxDepth: Option<int>)
    requires Assembled(request, root) && NoGroups(request)
    ensures PendingOk(request, CombinedParts(request, maxDepth))
    ensures forall i: nat, j: nat :: IdsDiffer(request, CombinedParts(request, maxDepth), i, j)
  {
    UnitsLeafInParts(Counts(request), request.caseSeq);
    AssembledUngrouped(request, root);
    UngroupedDistinct(Units(Counts(request), request.caseSeq, []), PathsOf(request), Counts(request),
                      Mutating(request.entries, 0, |request.entries|), maxDepth, 1);
    EnumerationsOk(request, maxDepth);
    DistinctIds(request, CombinedParts(request, maxDepth));
  }
}
