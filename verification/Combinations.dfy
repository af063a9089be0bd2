/** What the combinatorial walk emits at each depth, why it ends, and what that is without groups. */
module Combinations {
  import opened Wrappers
  import opened CaseSequences

  // ----- path relatedness -----

  predicate OccursAt(text: string, piece: string, i: nat) {
    i + |piece| <= |text| && text[i..i + |piece|] == piece
  }

  predicate Contains(text: string, piece: string) {
    exists i :: 0 <= i <= |text| && OccursAt(text, piece, i)
  }

  function PathAt(paths: seq<string>, entry: nat): string {
    if entry < |paths| then paths[entry] else []
  }

  predicate RelatedPaths(a: string, b: string) {
    Contains(a, b) || Contains(b, a)
  }

  predicate IsAround(text: string, front: string, piece: string, back: string) {
    text == front + piece + back
  }

  /** Paths are related when one of them is a piece of the other. */
  lemma {:induction false} RelatedMeaning(a: string, b: string)
    ensures RelatedPaths(a, b) <==> exists front, back :: IsAround(a, front, b, back) || IsAround(b, front, a, back)
  {
    ContainsMeaning(a, b);
    ContainsMeaning(b, a);
  }

  lemma {:induction false} ContainsMeaning(text: string, piece: string)
    ensures Contains(text, piece) <==> exists front, back :: IsAround(text, front, piece, back)
  {
    if Contains(text, piece) {
      var i :| 0 <= i <= |text| && OccursAt(text, piece, i);
      assert IsAround(text, text[..i], piece, text[i + |piece|..]);
    }
    if front, back :| IsAround(text, front, piece, back) {
      assert OccursAt(text, piece, |front|);
    }
  }

  /** No two parts name substring-related paths. */
  predicate Unrelated(paths: seq<string>, parts: Parts) {
    forall i, j :: 0 <= i < j < |parts| ==> !RelatedPaths(PathAt(paths, parts[i].0), PathAt(paths, parts[j].0))
  }

  /** The pairwise test, as the early-returning double loop. */
  method ContainsDuplicatePaths(paths: seq<string>, parts: Parts) returns (duplicate: bool)
    ensures duplicate <==> !Unrelated(paths, parts)
  {
    for i := 0 to |parts|
      invariant forall k, j :: 0 <= k < i && k < j < |parts| ==>
        !RelatedPaths(PathAt(paths, parts[k].0), PathAt(paths, parts[j].0))
    {
      for j := i + 1 to |parts|
        invariant forall m :: i < m < j ==> !RelatedPaths(PathAt(paths, parts[i].0), PathAt(paths, parts[m].0))
      {
        if RelatedPaths(PathAt(paths, parts[i].0), PathAt(paths, parts[j].0)) {
          return true;
        }
      }
    }
    return false;
  }

  // ----- the recursive walk -----

  function EntriesOf(parts: Parts): (r: set<nat>)
    ensures forall p <- parts :: p.0 in r
  {
    set p <- parts :: p.0
  }

  function Children(units: seq<StreamUnit>): set<nat> {
    set u <- units :: u.child
  }

  /** Every unit's leaf entry is one of the entries it mutates. */
  predicate LeafInParts(units: seq<StreamUnit>) {
    forall u <- units :: u.child in EntriesOf(u.parts)
  }

  /** What a level emits for one unit that completes a combination. */
  function Completed(paths: seq<string>, parts: Parts): seq<Parts> {
    if Unrelated(paths, parts) then [parts] else []
  }

  /**
   The combinations a level still owes: `more` units are to be joined to `parts`, units from index
   `at` on are untried, `incoming` is the fixed skip set of the level and `acc` its growing one.
   */
  function Level(units: seq<StreamUnit>, paths: seq<string>, incoming: set<nat>, acc: set<nat>,
                 parts: Parts, more: nat, at: nat): seq<Parts>
    decreases more, |units| - at
  {
    if more == 0 || at >= |units| then []
    else
      var unit := units[at];
      if unit.child in incoming then Level(units, paths, incoming, acc, parts, more, at + 1)
      else if more > 1 then
        var grown := acc + EntriesOf(unit.parts);
        Level(units, paths, grown, grown, parts + unit.parts, more - 1, 0)
        + Level(units, paths, incoming, grown, parts, more, at + 1)
      else
        Completed(paths, parts + unit.parts) + Level(units, paths, incoming, acc, parts, more, at + 1)
  }

  /** All combinations of exactly `depth` units, in walking order. */
  function AtDepth(units: seq<StreamUnit>, paths: seq<string>, depth: nat): seq<Parts> {
    Level(units, paths, {}, {}, [], depth, 0)
  }

  // ----- the search for deeper combinations ends -----

  /** Each further unit needs a leaf entry outside the skip set. */
  lemma {:induction false} LevelNeedsChildren(units: seq<StreamUnit>, paths: seq<string>, incoming: set<nat>,
                                              acc: set<nat>, parts: Parts, more: nat, at: nat)
    requires LeafInParts(units)
    requires incoming <= acc
    ensures Level(units, paths, incoming, acc, parts, more, at) != [] ==>
      more + |incoming * Children(units)| <= |Children(units)|
    decreases more, |units| - at
  {
    if more > 0 && at < |units| {
      var unit, all := units[at], Children(units);
      if unit.child in incoming {
        LevelNeedsChildren(units, paths, incoming, acc, parts, more, at + 1);
      } else {
        var grown := acc + EntriesOf(unit.parts);
        OneMoreChild(incoming, grown, unit.child, all);
        if more > 1 {
          LevelNeedsChildren(units, paths, grown, grown, parts + unit.parts, more - 1, 0);
          LevelNeedsChildren(units, paths, incoming, grown, parts, more, at + 1);
        } else {
          LevelNeedsChildren(units, paths, incoming, acc, parts, more, at + 1);
        }
      }
    }
  }

  lemma {:induction false} OneMoreChild(incoming: set<nat>, grown: set<nat>, child: nat, all: set<nat>)
    requires incoming <= grown && child in grown && child !in incoming && child in all
    ensures |incoming * all| + 1 <= |grown * all| <= |all|
  {
    assert (incoming * all) + {child} <= grown * all;
    Subset((incoming * all) + {child}, grown * all);
    Subset(grown * all, all);
  }

  lemma {:induction false} Subset(a: set<nat>, b: set<nat>)
    requires a <= b
    ensures |a| <= |b|
  {
    if x :| x in a {
      Subset(a - {x}, b - {x});
    }
  }

  /** No combination is deeper than the number of mutating entries. */
  lemma {:induction false} DepthBounded(units: seq<StreamUnit>, paths: seq<string>, depth: nat)
    requires LeafInParts(units)
    ensures AtDepth(units, paths, depth) != [] ==> depth <= |Children(units)|
  {
    LevelNeedsChildren(units, paths, {}, {}, [], depth, 0);
  }

  predicate LastDepth(maxDepth: Option<int>, depth: nat) {
    maxDepth.Some? && depth >= maxDepth.value
  }

  /** All combinations from `depth` on: deeper depths follow until one is empty or the maximum is reached. */
  function FromDepth(units: seq<StreamUnit>, paths: seq<string>, maxDepth: Option<int>, depth: nat): seq<Parts>
    requires LeafInParts(units)
    decreases |Children(units)| + 1 - depth
  {
    var here := AtDepth(units, paths, depth);
    DepthBounded(units, paths, depth);
    if here == [] || LastDepth(maxDepth, depth) then here
    else here + FromDepth(units, paths, maxDepth, depth + 1)
  }

  /** The walk gets to depth `d`: no depth before it is empty, and a maximum is only passed by the first depth. */
  ghost predicate Visits(units: seq<StreamUnit>, paths: seq<string>, maxDepth: Option<int>, depth: nat, d: nat) {
    && depth <= d && (maxDepth.Some? ==> d == depth || d <= maxDepth.value)
    && forall e: nat :: !EmptyBefore(units, paths, depth, d, e)
  }

  ghost predicate EmptyBefore(units: seq<StreamUnit>, paths: seq<string>, depth: nat, d: nat, e: nat) {
    depth <= e < d && AtDepth(units, paths, e) == []
  }

  /** The walk emits exactly the combinations of the depths it gets to. */
  lemma {:induction false} FromDepthExactly(
      units: seq<StreamUnit>, paths: seq<string>, maxDepth: Option<int>, depth: nat, x: Parts)
    requires LeafInParts(units)
    ensures x in FromDepth(units, paths, maxDepth, depth) <==>
      exists d: nat :: Visits(units, paths, maxDepth, depth, d) && x in AtDepth(units, paths, d)
    decreases |Children(units)| + 1 - depth
  {
    var here := AtDepth(units, paths, depth);
    DepthBounded(units, paths, depth);
    assert Visits(units, paths, maxDepth, depth, depth);
    if here == [] || LastDepth(maxDepth, depth) {
      forall d: nat | Visits(units, paths, maxDepth, depth, d) ensures d == depth {
        assert here == [] && d > depth ==> EmptyBefore(units, paths, depth, d, depth);
      }
    } else {
      var next := depth + 1;
      FromDepthExactly(units, paths, maxDepth, next, x);
      forall d: nat | d > depth
        ensures Visits(units, paths, maxDepth, depth, d) <==> Visits(units, paths, maxDepth, next, d)
      {
        VisitsNext(units, paths, maxDepth, depth, next, d);
      }
    }
  }

  lemma {:induction false} VisitsNext(
      units: seq<StreamUnit>, paths: seq<string>, maxDepth: Option<int>, depth: nat, next: nat, d: nat)
    requires AtDepth(units, paths, depth) != [] && !LastDepth(maxDepth, depth) && d > depth && next == depth + 1
    ensures Visits(units, paths, maxDepth, depth, d) <==> Visits(units, paths, maxDepth, next, d)
  {
    if Visits(units, paths, maxDepth, depth, d) {
      forall e: nat ensures !EmptyBefore(units, paths, next, d, e) {
        assert !EmptyBefore(units, paths, depth, d, e);
      }
    }
    if Visits(units, paths, maxDepth, next, d) {
      forall e: nat ensures !EmptyBefore(units, paths, depth, d, e) {
        assert !EmptyBefore(units, paths, next, d, e);
      }
    }
  }

  /** Every case of the walk belongs to a depth within the bound, with or without a maximum depth. */
  lemma {:induction false} FromDepthIsBounded(
      units: seq<StreamUnit>, paths: seq<string>, maxDepth: Option<int>, depth: nat, x: Parts)
    requires LeafInParts(units)
    ensures x in FromDepth(units, paths, maxDepth, depth) ==>
      exists d :: depth <= d <= |Children(units)| && x in AtDepth(units, paths, d)
    decreases |Children(units)| + 1 - depth
  {
    var here := AtDepth(units, paths, depth);
    DepthBounded(units, paths, depth);
    if here != [] && !LastDepth(maxDepth, depth) {
      FromDepthIsBounded(units, paths, maxDepth, depth + 1, x);
    }
  }

  // ----- what an emitted combination is -----

  predicate InRange(units: seq<StreamUnit>, chosen: seq<nat>) {
    forall i :: 0 <= i < |chosen| ==> chosen[i] < |units|
  }

  function Join(units: seq<StreamUnit>, chosen: seq<nat>): Parts
    requires InRange(units, chosen)
  {
    if chosen == [] then [] else units[chosen[0]].parts + Join(units, chosen[1..])
  }

  /** `x` joins `depth` units, with distinct leaf entries avoiding `skip`, onto `parts`. */
  ghost predicate Joins(units: seq<StreamUnit>, x: Parts, parts: Parts, depth: nat, skip: set<nat>) {
    exists chosen: seq<nat> :: JoinedBy(units, x, parts, depth, skip, chosen)
  }

  ghost predicate JoinedBy(units: seq<StreamUnit>, x: Parts, parts: Parts, depth: nat, skip: set<nat>,
                           chosen: seq<nat>) {
    && |chosen| == depth
    && InRange(units, chosen)
    && (forall i :: 0 <= i < |chosen| ==> units[chosen[i]].child !in skip)
    && (forall i, j :: 0 <= i < j < |chosen| ==> units[chosen[i]].child != units[chosen[j]].child)
    && x == parts + Join(units, chosen)
  }

  lemma {:induction false} LevelJoins(units: seq<StreamUnit>, paths: seq<string>, incoming: set<nat>,
                                      acc: set<nat>, parts: Parts, more: nat, at: nat, x: Parts)
    requires LeafInParts(units)
    requires incoming <= acc
    requires x in Level(units, paths, incoming, acc, parts, more, at)
    ensures Joins(units, x, parts, more, incoming) && Unrelated(paths, x)
    decreases more, |units| - at
  {
    var unit := units[at];
    if unit.child in incoming {
      LevelJoins(units, paths, incoming, acc, parts, more, at + 1, x);
    } else if more > 1 {
      var grown := acc + EntriesOf(unit.parts);
      if x in Level(units, paths, grown, grown, parts + unit.parts, more - 1, 0) {
        LevelJoins(units, paths, grown, grown, parts + unit.parts, more - 1, 0, x);
        var rest :| JoinedBy(units, x, parts + unit.parts, more - 1, grown, rest);
        ExtendJoin(units, x, parts, more - 1, incoming, grown, at, rest);
      } else {
        LevelJoins(units, paths, incoming, grown, parts, more, at + 1, x);
      }
    } else if x in Level(units, paths, incoming, acc, parts, more, at + 1) {
      LevelJoins(units, paths, incoming, acc, parts, more, at + 1, x);
    } else {
      assert Join(units, []) == [];
      assert JoinedBy(units, x, parts + unit.parts, 0, incoming + {unit.child}, []);
      ExtendJoin(units, x, parts, 0, incoming, incoming + {unit.child}, at, []);
    }
  }

  lemma {:induction false} ExtendJoin(units: seq<StreamUnit>, x: Parts, parts: Parts, depth: nat, incoming: set<nat>,
                   grown: set<nat>, at: nat, rest: seq<nat>)
    requires at < |units| && units[at].child !in incoming
    requires incoming <= grown && units[at].child in grown
    requires JoinedBy(units, x, parts + units[at].parts, depth, grown, rest)
    ensures JoinedBy(units, x, parts, depth + 1, incoming, [at] + rest)
  {
    var chosen := [at] + rest;
    assert chosen[1..] == rest;
    assert parts + Join(units, chosen) == parts + units[at].parts + Join(units, rest);
  }

  /** Every case emitted at depth d joins exactly d units with distinct leaves and unrelated paths. */
  lemma {:induction false} AtDepthJoins(units: seq<StreamUnit>, paths: seq<string>, depth: nat, x: Parts)
    requires LeafInParts(units)
    requires x in AtDepth(units, paths, depth)
    ensures Joins(units, x, [], depth, {}) && Unrelated(paths, x)
  {
    LevelJoins(units, paths, {}, {}, [], depth, 0, x);
  }

  // ----- the walk without groups: strictly increasing tuples in lexicographic order -----

  function Prepend(part: Part, tuples: seq<Parts>): (r: seq<Parts>)
    ensures |r| == |tuples|
    ensures forall i :: 0 <= i < |r| ==> r[i] == [part] + tuples[i]
  {
    seq(|tuples|, i requires 0 <= i < |tuples| => [part] + tuples[i])
  }

  /** Tuples whose first part is (entry, i) for i >= from, completed by `rest`. */
  function Headed(entry: nat, from: nat, count: nat, rest: seq<Parts>): seq<Parts>
    decreases count - from
  {
    if from >= count then [] else Prepend((entry, from), rest) + Headed(entry, from + 1, count, rest)
  }

  /** All increasing `size`-tuples over `entries` with every choice of candidates, in lexicographic order. */
  function Tuples(counts: seq<nat>, entries: seq<nat>, size: nat): seq<Parts>
    decreases |entries|
  {
    if size == 0 then [[]]
    else if entries == [] then []
    else
      Headed(entries[0], 0, CountAt(counts, entries[0]), Tuples(counts, entries[1..], size - 1))
      + Tuples(counts, entries[1..], size)
  }

  function Keep(paths: seq<string>, tuples: seq<Parts>): seq<Parts> {
    if tuples == [] then [] else Completed(paths, tuples[0]) + Keep(paths, tuples[1..])
  }

  lemma {:induction false} KeepAppend(paths: seq<string>, a: seq<Parts>, b: seq<Parts>)
    ensures Keep(paths, a + b) == Keep(paths, a) + Keep(paths, b)
  {
    if a == [] {
      assert a + b == b;
    } else {
      assert (a + b)[1..] == a[1..] + b;
      KeepAppend(paths, a[1..], b);
    }
  }

  /** `tuples`, each put behind `parts`. */
  function Behind(parts: Parts, tuples: seq<Parts>): (r: seq<Parts>)
    ensures |r| == |tuples|
    ensures forall i :: 0 <= i < |r| ==> r[i] == parts + tuples[i]
  {
    seq(|tuples|, i requires 0 <= i < |tuples| => parts + tuples[i])
  }

  lemma {:induction false} BehindPrepend(parts: Parts, part: Part, tuples: seq<Parts>)
    ensures Behind(parts, Prepend(part, tuples)) == Behind(parts + [part], tuples)
  {
    forall i | 0 <= i < |tuples|
      ensures Behind(parts, Prepend(part, tuples))[i] == Behind(parts + [part], tuples)[i]
    {
      assert parts + ([part] + tuples[i]) == parts + [part] + tuples[i];
    }
  }

  lemma {:induction false} BehindAppend(parts: Parts, a: seq<Parts>, b: seq<Parts>)
    ensures Behind(parts, a + b) == Behind(parts, a) + Behind(parts, b)
  {
  }

  /** The units of an ungrouped request: every mutating entry in order, with every candidate. */
  function FlatUnits(counts: seq<nat>, entries: seq<nat>): seq<StreamUnit> {
    if entries == [] then []
    else LeafUnits(entries[0], [], 0, CountAt(counts, entries[0])) + FlatUnits(counts, entries[1..])
  }

  /** The plain entries of a case sequence, in order. */
  function Plains(s: CaseSeq): seq<nat>
    decreases s, 0
  {
    match s
    case Plain(entry) => [entry]
    case Sequence(children) => PlainsOfAll(children)
    case Product(_, _) => []
  }

  function PlainsOfAll(children: seq<CaseSeq>): seq<nat>
    decreases children, 0
  {
    if children == [] then [] else Plains(children[0]) + PlainsOfAll(children[1..])
  }

  predicate NoProducts(s: CaseSeq)
    decreases s, 0
  {
    match s
    case Plain(_) => true
    case Sequence(children) => NoProductsIn(children)
    case Product(_, _) => false
  }

  predicate NoProductsIn(children: seq<CaseSeq>)
    decreases children, 0
  {
    children != [] ==> NoProducts(children[0]) && NoProductsIn(children[1..])
  }

  /** A sequence without products has the units of its plain entries. */
  lemma {:induction false} PlainUnits(counts: seq<nat>, s: CaseSeq)
    requires NoProducts(s)
    ensures Units(counts, s, []) == FlatUnits(counts, Plains(s))
    decreases s, 0
  {
    match s
    case Plain(entry) =>
      assert [entry][1..] == [];
      assert FlatUnits(counts, [entry]) == LeafUnits(entry, [], 0, CountAt(counts, entry)) + FlatUnits(counts, []);
    case Sequence(children) => PlainUnitsOfAll(counts, children);
  }

  lemma {:induction false} PlainUnitsOfAll(counts: seq<nat>, children: seq<CaseSeq>)
    requires NoProductsIn(children)
    ensures UnitsOfAll(counts, children, []) == FlatUnits(counts, PlainsOfAll(children))
    decreases children, 0
  {
    if children != [] {
      PlainUnits(counts, children[0]);
      PlainUnitsOfAll(counts, children[1..]);
      FlatUnitsAppend(counts, Plains(children[0]), PlainsOfAll(children[1..]));
    }
  }

  predicate Below(entries: seq<nat>, i: nat, j: nat) {
    i < j < |entries| ==> entries[i] < entries[j]
  }

  ghost predicate StrictlyIncreasing(entries: seq<nat>) {
    forall i: nat, j: nat :: Below(entries, i, j)
  }

  predicate MutatesAt(counts: seq<nat>, entries: seq<nat>, i: nat) {
    i < |entries| ==> CountAt(counts, entries[i]) > 0
  }

  function SetOf(entries: seq<nat>): set<nat> {
    set e <- entries
  }

  lemma {:induction false} FlatUnitsChildren(counts: seq<nat>, entries: seq<nat>)
    ensures forall u <- FlatUnits(counts, entries) :: u.child in entries
  {
    if entries != [] {
      LeafUnitsShape(entries[0], [], 0, CountAt(counts, entries[0]));
      FlatUnitsChildren(counts, entries[1..]);
    }
  }

  lemma {:induction false} FlatUnitsAppend(counts: seq<nat>, a: seq<nat>, b: seq<nat>)
    ensures FlatUnits(counts, a + b) == FlatUnits(counts, a) + FlatUnits(counts, b)
  {
    if a == [] {
      assert a + b == b;
    } else {
      assert (a + b)[1..] == a[1..] + b;
      FlatUnitsAppend(counts, a[1..], b);
    }
  }

  /** A run of units that the level skips contributes nothing. */
  lemma {:induction false} LevelSkips(units: seq<StreamUnit>, paths: seq<string>, incoming: set<nat>,
                                      acc: set<nat>, parts: Parts, more: nat, at: nat, upto: nat)
    requires at <= upto <= |units|
    requires forall i :: at <= i < upto ==> units[i].child in incoming
    ensures Level(units, paths, incoming, acc, parts, more, at)
            == Level(units, paths, incoming, acc, parts, more, upto)
    decreases upto - at
  {
    if at < upto && more > 0 {
      LevelSkips(units, paths, incoming, acc, parts, more, at + 1, upto);
    }
  }

  /** The walker looks at the units of `entries` in order; `units[at..]` are what remains. */
  ghost predicate Ungrouped(units: seq<StreamUnit>, counts: seq<nat>, entries: seq<nat>) {
    forall key: nat :: UngroupedAt(units, counts, entries, key)
  }

  /** The key does not matter; asking for any key brings the facts into a proof that needs them. */
  ghost predicate UngroupedAt(units: seq<StreamUnit>, counts: seq<nat>, entries: seq<nat>, key: nat) {
    && units == FlatUnits(counts, entries)
    && StrictlyIncreasing(entries)
    && forall i: nat :: MutatesAt(counts, entries, i)
  }

  /** Index of the first unit of entry number b. */
  function Start(counts: seq<nat>, entries: seq<nat>, b: nat): nat
    requires b <= |entries|
  {
    if b == 0 then 0 else Start(counts, entries, b - 1) + CountAt(counts, entries[b - 1])
  }

  lemma {:induction false} FlatPrefix(counts: seq<nat>, entries: seq<nat>, b: nat)
    requires b <= |entries|
    ensures |FlatUnits(counts, entries[..b])| == Start(counts, entries, b)
    ensures FlatUnits(counts, entries) == FlatUnits(counts, entries[..b]) + FlatUnits(counts, entries[b..])
    decreases b
  {
    assert entries == entries[..b] + entries[b..];
    FlatUnitsAppend(counts, entries[..b], entries[b..]);
    if b > 0 {
      FlatPrefix(counts, entries, b - 1);
      assert entries[..b] == entries[..b - 1] + [entries[b - 1]];
      FlatUnitsAppend(counts, entries[..b - 1], [entries[b - 1]]);
      LeafUnitsShape(entries[b - 1], [], 0, CountAt(counts, entries[b - 1]));
    } else {
      assert entries[..0] == [];
    }
  }

  lemma {:induction false} UnitAt(counts: seq<nat>, entries: seq<nat>, b: nat, from: nat)
    requires b < |entries| && from < CountAt(counts, entries[b])
    ensures Start(counts, entries, b) + from < |FlatUnits(counts, entries)|
    ensures FlatUnits(counts, entries)[Start(counts, entries, b) + from] == StreamUnit([(entries[b], from)], entries[b])
  {
    FlatPrefix(counts, entries, b);
    LeafUnitsShape(entries[b], [], 0, CountAt(counts, entries[b]));
    assert entries[b..][0] == entries[b];
    assert [] + [(entries[b], from)] == [(entries[b], from)];
  }

  lemma {:induction false} UnitsEnd(counts: seq<nat>, entries: seq<nat>)
    ensures |FlatUnits(counts, entries)| == Start(counts, entries, |entries|)
  {
    assert entries[..|entries|] == entries;
    FlatPrefix(counts, entries, |entries|);
  }

  /**
   Standing at the first candidate of entry number b, with only earlier entries skipped, the level
   owes all tuples over the entries from b on.
   */
  lemma {:induction false} LevelIsTuples(
      units: seq<StreamUnit>, paths: seq<string>, counts: seq<nat>, entries: seq<nat>,
      incoming: set<nat>, acc: set<nat>, parts: Parts, more: nat, b: nat)
    requires more > 0 && b <= |entries|
    requires Ungrouped(units, counts, entries)
    requires incoming <= SetOf(entries[..b])
    requires more > 1 ==> acc == SetOf(entries[..b])
    ensures Level(units, paths, incoming, acc, parts, more, Start(counts, entries, b))
            == Keep(paths, Behind(parts, Tuples(counts, entries[b..], more)))
    decreases more, |entries| - b, 1, 0
  {
    assert UngroupedAt(units, counts, entries, 0);
    if b < |entries| {
      assert entries[b..][1..] == entries[b + 1..];
      assert MutatesAt(counts, entries, b);
      LevelIsHeaded(units, paths, counts, entries, incoming, acc, parts, more, b, 0, Start(counts, entries, b),
                    Keep(paths, Behind(parts, Tuples(counts, entries[b..], more))));
    } else {
      UnitsEnd(counts, entries);
      assert entries[b..] == [];
    }
  }

  /** What is owed at candidate `from` of entry number b: the tuples it heads, and those of later entries. */
  function Owed(counts: seq<nat>, entries: seq<nat>, more: nat, b: nat, from: nat): seq<Parts>
    requires more > 0 && b < |entries|
  {
    Headed(entries[b], from, CountAt(counts, entries[b]), Tuples(counts, entries[b + 1..], more - 1))
    + Tuples(counts, entries[b + 1..], more)
  }

  /** What the candidates of one entry from `from` on owe, and all later entries. */
  lemma {:induction false} LevelIsHeaded(
      units: seq<StreamUnit>, paths: seq<string>, counts: seq<nat>, entries: seq<nat>,
      incoming: set<nat>, acc: set<nat>, parts: Parts, more: nat, b: nat, from: nat, at: nat, kept: seq<Parts>)
    requires more > 0 && b < |entries|
    requires Ungrouped(units, counts, entries)
    requires from <= CountAt(counts, entries[b])
    requires incoming <= SetOf(entries[..b])
    requires more > 1 ==> acc == SetOf(entries[..if from == 0 then b else b + 1])
    requires at == Start(counts, entries, b) + from
    requires kept == Keep(paths, Behind(parts, Owed(counts, entries, more, b, from)))
    ensures Level(units, paths, incoming, acc, parts, more, at) == kept
    decreases more, |entries| - b, 0, CountAt(counts, entries[b]) - from
  {
    if from == CountAt(counts, entries[b]) {
      assert UngroupedAt(units, counts, entries, 0) && MutatesAt(counts, entries, b);
      NoCandidateLeft(units, paths, counts, entries, incoming, acc, parts, more, b, at, kept);
    } else {
      CandidateStep(units, paths, counts, entries, incoming, acc, parts, more, b, from, at, kept);
    }
  }

  lemma {:induction false} NoCandidateLeft(
      units: seq<StreamUnit>, paths: seq<string>, counts: seq<nat>, entries: seq<nat>,
      incoming: set<nat>, acc: set<nat>, parts: Parts, more: nat, b: nat, at: nat, kept: seq<Parts>)
    requires more > 0 && b < |entries|
    requires Ungrouped(units, counts, entries)
    requires incoming <= SetOf(entries[..b])
    requires more > 1 ==> acc == SetOf(entries[..b + 1])
    requires at == Start(counts, entries, b) + CountAt(counts, entries[b])
    requires kept == Keep(paths, Behind(parts, Owed(counts, entries, more, b, CountAt(counts, entries[b]))))
    ensures Level(units, paths, incoming, acc, parts, more, at) == kept
    decreases more, |entries| - b - 1, 2
  {
    assert UngroupedAt(units, counts, entries, 0);
    SetOfNext(entries, b);
    assert Owed(counts, entries, more, b, CountAt(counts, entries[b])) == Tuples(counts, entries[b + 1..], more);
    assert Start(counts, entries, b + 1) == at;
    LevelIsTuples(units, paths, counts, entries, incoming, acc, parts, more, b + 1);
  }

  lemma {:induction false} CandidateStep(
      units: seq<StreamUnit>, paths: seq<string>, counts: seq<nat>, entries: seq<nat>,
      incoming: set<nat>, acc: set<nat>, parts: Parts, more: nat, b: nat, from: nat, at: nat, kept: seq<Parts>)
    requires more > 0 && b < |entries|
    requires Ungrouped(units, counts, entries)
    requires from < CountAt(counts, entries[b])
    requires incoming <= SetOf(entries[..b])
    requires more > 1 ==> acc == SetOf(entries[..if from == 0 then b else b + 1])
    requires at == Start(counts, entries, b) + from
    requires kept == Keep(paths, Behind(parts, Owed(counts, entries, more, b, from)))
    ensures Level(units, paths, incoming, acc, parts, more, at) == kept
    decreases more, |entries| - b, 0, CountAt(counts, entries[b]) - from, 0
  {
    var grown := SetOf(entries[..b + 1]);
    var nextAcc := if more > 1 then grown else acc;
    var chosen := Chosen(units, paths, grown, parts + [(entries[b], from)], more);
    var next := Keep(paths, Behind(parts, Owed(counts, entries, more, b, from + 1)));
    assert chosen + next == kept by {
      ChosenThenNext(units, paths, counts, entries, parts, more, b, from, next);
    }
    LevelIsHeaded(units, paths, counts, entries, incoming, nextAcc, parts, more, b, from + 1, at + 1, next);
    TakeCandidate(units, paths, counts, entries, incoming, acc, parts, more, b, from, at);
  }

  /** What a candidate contributes and what the later ones owe are what was owed at the candidate. */
  lemma {:induction false} ChosenThenNext(
      units: seq<StreamUnit>, paths: seq<string>, counts: seq<nat>, entries: seq<nat>,
      parts: Parts, more: nat, b: nat, from: nat, next: seq<Parts>)
    requires more > 0 && b < |entries|
    requires Ungrouped(units, counts, entries)
    requires from < CountAt(counts, entries[b])
    requires next == Keep(paths, Behind(parts, Owed(counts, entries, more, b, from + 1)))
    ensures Chosen(units, paths, SetOf(entries[..b + 1]), parts + [(entries[b], from)], more) + next
            == Keep(paths, Behind(parts, Owed(counts, entries, more, b, from)))
    decreases more, 0, 0, 0, 0
  {
    CandidateOwes(units, paths, counts, entries, parts, more, b, from);
    var chosen := Chosen(units, paths, SetOf(entries[..b + 1]), parts + [(entries[b], from)], more);
    OneHead(paths, parts, counts, entries, more, b, from, chosen + next, chosen, next);
  }

  /** What one candidate contributes to its level. */
  function Chosen(units: seq<StreamUnit>, paths: seq<string>, grown: set<nat>, longer: Parts, more: nat): seq<Parts> {
    if more > 1 then Level(units, paths, grown, grown, longer, more - 1, 0) else Completed(paths, longer)
  }

  /** One unfolding of the level at an untried candidate. */
  lemma {:induction false} TakeCandidate(
      units: seq<StreamUnit>, paths: seq<string>, counts: seq<nat>, entries: seq<nat>,
      incoming: set<nat>, acc: set<nat>, parts: Parts, more: nat, b: nat, from: nat, at: nat)
    requires more > 0 && b < |entries|
    requires Ungrouped(units, counts, entries)
    requires from < CountAt(counts, entries[b])
    requires incoming <= SetOf(entries[..b])
    requires more > 1 ==> acc == SetOf(entries[..if from == 0 then b else b + 1])
    requires at == Start(counts, entries, b) + from
    ensures var grown := SetOf(entries[..b + 1]);
      Level(units, paths, incoming, acc, parts, more, at)
      == Chosen(units, paths, grown, parts + [(entries[b], from)], more)
         + Level(units, paths, incoming, if more > 1 then grown else acc, parts, more, at + 1)
  {
    assert UngroupedAt(units, counts, entries, 0);
    var part := (entries[b], from);
    UnitAt(counts, entries, b, from);
    SetOfNext(entries, b);
    assert EntriesOf([part]) == {entries[b]} by {
      assert part in [part];
    }
  }

  /** What choosing candidate `from` of entry number b contributes, as tuples. */
  lemma {:induction false} CandidateOwes(
      units: seq<StreamUnit>, paths: seq<string>, counts: seq<nat>, entries: seq<nat>,
      parts: Parts, more: nat, b: nat, from: nat)
    requires more > 0 && b < |entries|
    requires Ungrouped(units, counts, entries)
    ensures Chosen(units, paths, SetOf(entries[..b + 1]), parts + [(entries[b], from)], more)
            == Keep(paths, Behind(parts + [(entries[b], from)], Tuples(counts, entries[b + 1..], more - 1)))
    decreases more - 1, |entries| - b, 2, 0
  {
    assert UngroupedAt(units, counts, entries, 0);
    var grown, longer := SetOf(entries[..b + 1]), parts + [(entries[b], from)];
    if more > 1 {
      var done := entries[..b + 1];
      FlatPrefix(counts, entries, b + 1);
      FlatUnitsChildren(counts, done);
      var upto := Start(counts, entries, b + 1);
      forall i | 0 <= i < upto ensures units[i].child in grown {
        assert units[i] == FlatUnits(counts, done)[i];
      }
      LevelSkips(units, paths, grown, grown, longer, more - 1, 0, upto);
      LevelIsTuples(units, paths, counts, entries, grown, grown, longer, more - 1, b + 1);
    } else {
      assert longer + [] == longer;
      assert Behind(longer, [[]]) == [longer];
    }
  }

  lemma {:induction false} SetOfNext(entries: seq<nat>, b: nat)
    requires b < |entries| && StrictlyIncreasing(entries)
    ensures SetOf(entries[..b + 1]) == SetOf(entries[..b]) + {entries[b]}
    ensures entries[b] !in SetOf(entries[..b])
  {
    assert entries[..b + 1] == entries[..b] + [entries[b]];
    forall e | e in entries[..b] ensures e < entries[b] {
      var i :| 0 <= i < b && entries[..b][i] == e;
      assert Below(entries, i, b);
    }
  }

  lemma {:induction false} TailIncreasing(entries: seq<nat>)
    requires StrictlyIncreasing(entries) && entries != []
    ensures StrictlyIncreasing(entries[1..])
    ensures forall y <- entries[1..] :: entries[0] < y
  {
    forall i: nat, j: nat ensures Below(entries[1..], i, j) {
      assert Below(entries, i + 1, j + 1);
    }
    forall y | y in entries[1..] ensures entries[0] < y {
      var i :| 0 <= i < |entries[1..]| && entries[1..][i] == y;
      assert Below(entries, 0, i + 1);
    }
  }

  /** The tuples headed by one candidate, followed by those of the next ones, are what is owed. */
  lemma {:induction false} OneHead(
      paths: seq<string>, parts: Parts, counts: seq<nat>, entries: seq<nat>, more: nat, b: nat, from: nat,
      level: seq<Parts>, chosen: seq<Parts>, next: seq<Parts>)
    requires more > 0 && b < |entries|
    requires from < CountAt(counts, entries[b])
    requires level == chosen + next
    requires chosen == Keep(paths, Behind(parts + [(entries[b], from)], Tuples(counts, entries[b + 1..], more - 1)))
    requires next == Keep(paths, Behind(parts, Owed(counts, entries, more, b, from + 1)))
    ensures level == Keep(paths, Behind(parts, Owed(counts, entries, more, b, from)))
  {
    var part, rest := (entries[b], from), Tuples(counts, entries[b + 1..], more - 1);
    var first, tail := Prepend(part, rest), Owed(counts, entries, more, b, from + 1);
    assert Owed(counts, entries, more, b, from) == first + tail;
    BehindAppend(parts, first, tail);
    BehindPrepend(parts, part, rest);
    KeepAppend(paths, Behind(parts, first), Behind(parts, tail));
  }

  /** Without groups, depth d emits the d-tuples of mutating entries, filtered, in lexicographic order. */
  lemma {:induction false} AtDepthIsTuples(
      units: seq<StreamUnit>, paths: seq<string>, counts: seq<nat>, entries: seq<nat>, depth: nat)
    requires depth > 0
    requires Ungrouped(units, counts, entries)
    ensures AtDepth(units, paths, depth) == Keep(paths, Tuples(counts, entries, depth))
  {
    assert entries[0..] == entries;
    LevelIsTuples(units, paths, counts, entries, {}, {}, [], depth, 0);
    var tuples := Tuples(counts, entries, depth);
    forall i | 0 <= i < |tuples| ensures Behind([], tuples)[i] == tuples[i] {
      assert [] + tuples[i] == tuples[i];
    }
    assert Behind([], tuples) == tuples;
  }

  // ----- what the tuples are, without naming the recursion -----

  /** An increasing choice of `size` entries with one candidate of each. */
  ghost predicate IsTuple(counts: seq<nat>, entries: seq<nat>, size: nat, x: Parts) {
    && |x| == size
    && (forall i: nat :: TuplePart(counts, entries, x, i))
    && (forall i: nat, j: nat :: PartsIncrease(x, i, j))
  }

  /** The part names a candidate of one of the entries. */
  predicate TuplePart(counts: seq<nat>, entries: seq<nat>, x: Parts, i: nat) {
    i < |x| ==> x[i].0 in entries && x[i].1 < CountAt(counts, x[i].0)
  }

  predicate PartsIncrease(x: Parts, i: nat, j: nat) {
    i < j < |x| ==> x[i].0 < x[j].0
  }

  predicate PartLess(a: Part, b: Part) {
    a.0 < b.0 || (a.0 == b.0 && a.1 < b.1)
  }

  /** Lexicographic order on part lists of one length. */
  ghost predicate LexLess(x: Parts, y: Parts) {
    exists k :: 0 <= k < |x| && k < |y| && x[..k] == y[..k] && PartLess(x[k], y[k])
  }

  lemma {:induction false} LexLessPrepend(part: Part, x: Parts, y: Parts)
    requires LexLess(x, y)
    ensures LexLess([part] + x, [part] + y)
  {
    var k :| 0 <= k < |x| && k < |y| && x[..k] == y[..k] && PartLess(x[k], y[k]);
    var px, py := [part] + x, [part] + y;
    assert px[..k + 1] == [part] + x[..k] && py[..k + 1] == [part] + y[..k];
    assert PartLess(px[k + 1], py[k + 1]);
  }

  lemma {:induction false} LexLessHead(x: Parts, y: Parts)
    requires |x| > 0 && |y| > 0 && PartLess(x[0], y[0])
    ensures LexLess(x, y)
  {
    assert x[..0] == y[..0];
  }

  ghost predicate LexSorted(tuples: seq<Parts>) {
    forall i, j :: 0 <= i < j < |tuples| ==> LexLess(tuples[i], tuples[j])
  }

  lemma {:induction false} HeadedMembers(entry: nat, from: nat, count: nat, rest: seq<Parts>, x: Parts)
    ensures x in Headed(entry, from, count, rest) <==>
      |x| > 0 && x[0].0 == entry && from <= x[0].1 < count && x[1..] in rest
    decreases count - from
  {
    if from < count {
      HeadedMembers(entry, from + 1, count, rest, x);
      var first := Prepend((entry, from), rest);
      if |x| > 0 && x[0] == (entry, from) && x[1..] in rest {
        var i :| 0 <= i < |rest| && rest[i] == x[1..];
        assert x == first[i];
      }
    }
  }

  lemma {:induction false} HeadedSorted(entry: nat, from: nat, count: nat, rest: seq<Parts>)
    requires LexSorted(rest)
    ensures LexSorted(Headed(entry, from, count, rest))
    decreases count - from
  {
    if from < count {
      HeadedSorted(entry, from + 1, count, rest);
      var first, tail := Prepend((entry, from), rest), Headed(entry, from + 1, count, rest);
      forall x | x in tail ensures |x| > 0 && PartLess((entry, from), x[0]) {
        HeadedMembers(entry, from + 1, count, rest, x);
      }
      assert forall i :: 0 <= i < |first| ==> first[i][1..] == rest[i];
      AppendSorted(first, tail, entry, from);
    }
  }

  lemma {:induction false} AppendSorted(first: seq<Parts>, tail: seq<Parts>, entry: nat, from: nat)
    requires forall x <- first :: |x| > 0 && x[0] == (entry, from)
    requires forall i, j :: 0 <= i < j < |first| ==> LexLess(first[i][1..], first[j][1..])
    requires LexSorted(tail)
    requires forall x <- tail :: |x| > 0 && PartLess((entry, from), x[0])
    ensures LexSorted(first + tail)
  {
    var all := first + tail;
    forall i, j | 0 <= i < j < |all| ensures LexLess(all[i], all[j]) {
      if j < |first| {
        assert all[i] in first && all[j] in first;
        LexLessPrepend((entry, from), first[i][1..], first[j][1..]);
        assert first[i] == [(entry, from)] + first[i][1..] && first[j] == [(entry, from)] + first[j][1..];
      } else if i < |first| {
        assert all[i] in first && all[j] in tail;
        LexLessHead(all[i], all[j]);
      }
    }
  }

  lemma {:induction false} TuplesStep(counts: seq<nat>, entries: seq<nat>, size: nat, x: Parts)
    requires StrictlyIncreasing(entries) && entries != [] && size > 0
    requires |x| > 0 ==>
      (x[1..] in Tuples(counts, entries[1..], size - 1) <==> IsTuple(counts, entries[1..], size - 1, x[1..]))
    requires x in Tuples(counts, entries[1..], size) <==> IsTuple(counts, entries[1..], size, x)
    ensures x in Tuples(counts, entries, size) <==> IsTuple(counts, entries, size, x)
  {
    assert Tuples(counts, entries, size)
        == Headed(entries[0], 0, CountAt(counts, entries[0]), Tuples(counts, entries[1..], size - 1)) +
          Tuples(counts, entries[1..], size);
    HeadedMembers(entries[0], 0, CountAt(counts, entries[0]), Tuples(counts, entries[1..], size - 1), x);
    SplitTuple(counts, entries, size, x);
  }

  /** `Tuples` lists exactly the increasing tuples. */
  lemma {:induction false} TuplesMembers(counts: seq<nat>, entries: seq<nat>, size: nat, x: Parts)
    requires StrictlyIncreasing(entries)
    ensures x in Tuples(counts, entries, size) <==> IsTuple(counts, entries, size, x)
    decreases |entries|
  {
    if size > 0 && entries != [] {
      var later := entries[1..];
      TailIncreasing(entries);
      if |x| > 0 {
        TuplesMembers(counts, later, size - 1, x[1..]);
      }
      TuplesMembers(counts, later, size, x);
      TuplesStep(counts, entries, size, x);
    } else {
      TuplesBase(counts, entries, size, x);
    }
  }

  lemma {:induction false} TuplesBase(counts: seq<nat>, entries: seq<nat>, size: nat, x: Parts)
    requires size == 0 || entries == []
    ensures x in Tuples(counts, entries, size) <==> IsTuple(counts, entries, size, x)
  {
    if size > 0 && |x| == size {
      assert !TuplePart(counts, entries, x, 0);
    }
  }

  /** `Tuples` is in lexicographic order, hence free of repetitions. */
  lemma {:induction false} TuplesSorted(counts: seq<nat>, entries: seq<nat>, size: nat)
    requires StrictlyIncreasing(entries)
    ensures LexSorted(Tuples(counts, entries, size))
    decreases |entries|
  {
    if size > 0 && entries != [] {
      var e, later := entries[0], entries[1..];
      TailIncreasing(entries);
      TuplesSorted(counts, later, size - 1);
      TuplesSorted(counts, later, size);
      var rest := Tuples(counts, later, size - 1);
      var first, tail := Headed(e, 0, CountAt(counts, e), rest), Tuples(counts, later, size);
      HeadedSorted(e, 0, CountAt(counts, e), rest);
      forall i, j | 0 <= i < |first| && 0 <= j < |tail| ensures LexLess(first[i], tail[j]) {
        HeadedMembers(e, 0, CountAt(counts, e), rest, first[i]);
        TuplesMembers(counts, later, size, tail[j]);
        assert first[i] in first && tail[j] in tail;
        assert TuplePart(counts, later, tail[j], 0);
        LexLessHead(first[i], tail[j]);
      }
    }
  }

  lemma {:induction false} SplitTuple(counts: seq<nat>, entries: seq<nat>, size: nat, x: Parts)
    requires StrictlyIncreasing(entries) && entries != [] && size > 0
    ensures IsTuple(counts, entries, size, x) <==>
      || (|x| > 0 && x[0].0 == entries[0] && x[0].1 < CountAt(counts, entries[0])
          && IsTuple(counts, entries[1..], size - 1, x[1..]))
      || IsTuple(counts, entries[1..], size, x)
  {
    var later := entries[1..];
    assert entries == [entries[0]] + later;
    TailIncreasing(entries);
    if IsTuple(counts, entries, size, x) {
      TupleSplits(counts, entries, size, x);
    }
    if |x| > 0 && x[0].0 == entries[0] && x[0].1 < CountAt(counts, entries[0]) &&
       IsTuple(counts, later, size - 1, x[1..]) {
      TupleJoins(counts, entries, size, x);
    }
    if IsTuple(counts, later, size, x) {
      forall i: nat ensures TuplePart(counts, entries, x, i) {
        assert TuplePart(counts, later, x, i);
      }
    }
  }

  lemma {:induction false} HeadIsLeast(entries: seq<nat>, e: nat)
    requires StrictlyIncreasing(entries) && entries != [] && e in entries
    ensures e >= entries[0] && (e > entries[0] ==> e in entries[1..])
  {
    var k :| 0 <= k < |entries| && entries[k] == e;
    assert k > 0 ==> Below(entries, 0, k) && entries[1..][k - 1] == e;
  }

  lemma {:induction false} TupleSplits(counts: seq<nat>, entries: seq<nat>, size: nat, x: Parts)
    requires StrictlyIncreasing(entries) && entries != [] && size > 0 && IsTuple(counts, entries, size, x)
    ensures x[0].0 == entries[0] ==>
      x[0].1 < CountAt(counts, entries[0]) && IsTuple(counts, entries[1..], size - 1, x[1..])
    ensures x[0].0 != entries[0] ==> IsTuple(counts, entries[1..], size, x)
  {
    var later := entries[1..];
    assert TuplePart(counts, entries, x, 0);
    HeadIsLeast(entries, x[0].0);
    if x[0].0 == entries[0] {
      forall i: nat ensures TuplePart(counts, later, x[1..], i) {
        assert TuplePart(counts, entries, x, i + 1) && PartsIncrease(x, 0, i + 1);
        if i + 1 < |x| {
          HeadIsLeast(entries, x[i + 1].0);
        }
      }
      forall i: nat, j: nat ensures PartsIncrease(x[1..], i, j) {
        assert PartsIncrease(x, i + 1, j + 1);
      }
    } else {
      forall i: nat ensures TuplePart(counts, later, x, i) {
        assert TuplePart(counts, entries, x, i) && PartsIncrease(x, 0, i);
        if i < |x| {
          HeadIsLeast(entries, x[i].0);
        }
      }
    }
  }

  lemma {:induction false} TupleJoins(counts: seq<nat>, entries: seq<nat>, size: nat, x: Parts)
    requires StrictlyIncreasing(entries) && entries != [] && size > 0 && |x| > 0
    requires x[0].0 == entries[0] && x[0].1 < CountAt(counts, entries[0]) &&
      IsTuple(counts, entries[1..], size - 1, x[1..])
    ensures IsTuple(counts, entries, size, x)
  {
    var later, rest := entries[1..], x[1..];
    forall i: nat ensures TuplePart(counts, entries, x, i) {
      assert i > 0 ==> TuplePart(counts, later, rest, i - 1);
    }
    forall i: nat, j: nat ensures PartsIncrease(x, i, j) {
      if 0 < i < j < |x| {
        assert PartsIncrease(rest, i - 1, j - 1);
      } else if i < j < |x| {
        assert TuplePart(counts, later, rest, j - 1);
        var k :| 0 <= k < |later| && later[k] == x[j].0;
        assert Below(entries, 0, k + 1);
      }
    }
  }

  lemma {:induction false} KeepFilters(paths: seq<string>, tuples: seq<Parts>)
    requires LexSorted(tuples)
    ensures LexSorted(Keep(paths, tuples))
    ensures forall x :: x in Keep(paths, tuples) <==> x in tuples && Unrelated(paths, x)
  {
    if tuples != [] {
      KeepFilters(paths, tuples[1..]);
      var rest := Keep(paths, tuples[1..]);
      forall i | 0 <= i < |rest| ensures LexLess(tuples[0], rest[i]) {
        assert rest[i] in rest;
      }
    }
  }

  /**
   Without groups, depth d emits exactly the strictly increasing d-tuples of mutating entries with
   all candidate indices and pairwise unrelated paths, each once, in lexicographic order.
   */
  lemma {:induction false} UngroupedWalk(
      units: seq<StreamUnit>, paths: seq<string>, counts: seq<nat>, entries: seq<nat>, depth: nat)
    requires depth > 0
    requires Ungrouped(units, counts, entries)
    ensures LexSorted(AtDepth(units, paths, depth))
    ensures forall x :: x in AtDepth(units, paths, depth) <==>
      IsTuple(counts, entries, depth, x) && Unrelated(paths, x)
  {
    assert UngroupedAt(units, counts, entries, 0);
    AtDepthIsTuples(units, paths, counts, entries, depth);
    TuplesSorted(counts, entries, depth);
    KeepFilters(paths, Tuples(counts, entries, depth));
    forall x ensures x in Tuples(counts, entries, depth) <==> IsTuple(counts, entries, depth, x) {
      TuplesMembers(counts, entries, depth, x);
    }
  }

  lemma {:induction false} ShorterTuple(
      paths: seq<string>, counts: seq<nat>, entries: seq<nat>, d: nat, size: nat, x: Parts)
    requires IsTuple(counts, entries, d, x) && Unrelated(paths, x) && size <= d
    ensures IsTuple(counts, entries, size, x[..size]) && Unrelated(paths, x[..size])
  {
    forall i: nat ensures TuplePart(counts, entries, x[..size], i) {
      assert TuplePart(counts, entries, x, i);
    }
    forall i: nat, j: nat ensures PartsIncrease(x[..size], i, j) {
      assert PartsIncrease(x, i, j);
    }
  }

  /** Without groups and without a maximum depth, no combination of any depth is missed. */
  lemma {:induction false} UngroupedWalkIsExhaustive(
      units: seq<StreamUnit>, paths: seq<string>, counts: seq<nat>, entries: seq<nat>, depth: nat, d: nat, x: Parts)
    requires LeafInParts(units) && Ungrouped(units, counts, entries) && 0 < depth <= d
    requires IsTuple(counts, entries, d, x) && Unrelated(paths, x)
    ensures x in FromDepth(units, paths, None, depth)
    decreases d - depth
  {
    UngroupedWalk(units, paths, counts, entries, depth);
    ShorterTuple(paths, counts, entries, d, depth, x);
    assert x[..depth] in AtDepth(units, paths, depth);
    if depth < d {
      UngroupedWalkIsExhaustive(units, paths, counts, entries, depth + 1, d, x);
    } else {
      assert x[..depth] == x;
    }
  }
}
