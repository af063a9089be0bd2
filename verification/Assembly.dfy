/** Building the entry table and its case sequence from a definition tree. */
module Assembly {
  import opened Wrappers
  import opened CaseSequences
  import opened Combinations
  import opened Model
  import opened Layout

  predicate ValidName(name: string) {
    name != "" && '.' !in name && '/' !in name && '+' !in name
  }

  predicate RangeOk(min: Int32, max: Int32, step: Int32) {
    0 <= min <= max && step > 0 && (max - min) / step < 2147483647
  }

  /** What the checks on a single node establish for its entry. */
  predicate EntryClean(entry: Entry) {
    && entry.path != ""
    && '+' !in entry.path
    && (entry.kind.Repetition? ==> RangeOk(entry.kind.min, entry.kind.max, entry.kind.step))
  }

  ghost predicate Clean(entries: seq<Entry>) {
    forall i :: 0 <= i < |entries| ==> EntryClean(entries[i])
  }

  /** Paths and entries name each other one to one. */
  ghost predicate Indexed(entries: seq<Entry>, paths: map<string, nat>) {
    && (forall i :: 0 <= i < |entries| ==> entries[i].path in paths && paths[entries[i].path] == i)
    && (forall path <- paths :: paths[path] < |entries| && entries[paths[path]].path == path)
  }

  lemma {:induction false} PathClean(prefix: string, name: string)
    requires ValidName(name) && '+' !in prefix
    ensures PathOf(prefix, name) != "" && '+' !in PathOf(prefix, name)
  {
  }

  /** Appending a fresh path keeps the tables consistent. */
  lemma {:induction false} AppendEntry(entries: seq<Entry>, paths: map<string, nat>, entry: Entry)
    requires Indexed(entries, paths) && Clean(entries)
    requires entry.path !in paths && EntryClean(entry)
    ensures Indexed(entries + [entry], paths[entry.path := |entries|]) && Clean(entries + [entry])
  {
  }

  /** Filling in the child indices of a block completes its placement. */
  lemma {:induction false} PatchBlock(
      entries: seq<Entry>, paths: map<string, nat>, node: Node, prefix: string, parent: Option<nat>, index: nat)
    requires Indexed(entries, paths) && Clean(entries)
    requires node.Nested? && index + NodeSize(node) <= |entries|
    requires entries[index].path == PathOf(prefix, NodeName(node))
    requires PlacedAll(entries, node.block.children, PathOf(prefix, NodeName(node)), index, index + 1)
    ensures var patched := entries[index := HeadEntry(node, prefix, parent, index)];
      Indexed(patched, paths) && Clean(patched) && Placed(patched, node, prefix, parent, index)
  {
    var patched := entries[index := HeadEntry(node, prefix, parent, index)];
    PlacedAllFrame(entries, patched, node.block.children, PathOf(prefix, node.block.name), index, index + 1);
  }

  // ----- which definitions form a table -----

  /** Names are valid, repeat ranges are sound, and nesting stays within its bound. */
  predicate NodeOk(node: Node, depth: nat)
    decreases node, 1
  {
    && depth <= 256
    && ValidName(NodeName(node))
    && match node
       case Nested(block) => NodesOk(block.children, depth + 1)
       case Repeat(_, _, min, max, step, _) => RangeOk(min, max, step)
       case _ => true
  }

  predicate NodesOk(nodes: seq<Node>, depth: nat)
    decreases nodes, 0
  {
    nodes != [] ==> NodeOk(nodes[0], depth) && NodesOk(nodes[1..], depth)
  }

  /** The paths of a subtree in preorder. */
  function NodePaths(node: Node, prefix: string): seq<string>
    decreases node, 1
  {
    var path := PathOf(prefix, NodeName(node));
    match node
    case Nested(block) => [path] + PathsOfAll(block.children, path)
    case _ => [path]
  }

  function PathsOfAll(nodes: seq<Node>, path: string): seq<string>
    decreases nodes, 0
  {
    if nodes == [] then [] else NodePaths(nodes[0], path) + PathsOfAll(nodes[1..], path)
  }

  function Members(list: seq<string>): set<string> {
    set path | path in list
  }

  predicate FreshPath(taken: set<string>, list: seq<string>, i: nat) {
    i < |list| ==> list[i] !in taken
  }

  predicate PathsDiffer(list: seq<string>, i: nat, j: nat) {
    i < j < |list| ==> list[i] != list[j]
  }

  /** The paths are new and pairwise distinct. */
  ghost predicate Unused(taken: set<string>, list: seq<string>) {
    (forall i: nat :: FreshPath(taken, list, i)) && (forall i: nat, j: nat :: PathsDiffer(list, i, j))
  }

  lemma {:induction false} UnusedAppend(taken: set<string>, a: seq<string>, b: seq<string>)
    ensures Unused(taken, a + b) <==> Unused(taken, a) && Unused(taken + Members(a), b)
  {
    if Unused(taken, a + b) {
      UnusedParts(taken, a, b);
    }
    if Unused(taken, a) && Unused(taken + Members(a), b) {
      UnusedWhole(taken, a, b);
    }
  }

  lemma {:induction false} UnusedParts(taken: set<string>, a: seq<string>, b: seq<string>)
    requires Unused(taken, a + b)
    ensures Unused(taken, a) && Unused(taken + Members(a), b)
  {
    var both := a + b;
    forall i: nat ensures FreshPath(taken, a, i) {
      assert FreshPath(taken, both, i);
    }
    forall i: nat, j: nat ensures PathsDiffer(a, i, j) {
      assert PathsDiffer(both, i, j);
    }
    forall i: nat, j: nat ensures PathsDiffer(b, i, j) {
      assert PathsDiffer(both, |a| + i, |a| + j);
    }
    forall j: nat ensures FreshPath(taken + Members(a), b, j) {
      assert FreshPath(taken, both, |a| + j);
      forall i: nat | i < |a| && j < |b| ensures a[i] != b[j] {
        assert PathsDiffer(both, i, |a| + j);
      }
    }
  }

  lemma {:induction false} UnusedWhole(taken: set<string>, a: seq<string>, b: seq<string>)
    requires Unused(taken, a) && Unused(taken + Members(a), b)
    ensures Unused(taken, a + b)
  {
    var both := a + b;
    forall i: nat ensures FreshPath(taken, both, i) {
      assert FreshPath(taken, a, i);
      assert i >= |a| ==> FreshPath(taken + Members(a), b, i - |a|);
    }
    forall i: nat, j: nat ensures PathsDiffer(both, i, j) {
      if i < j < |both| {
        if j < |a| {
          assert PathsDiffer(a, i, j);
        } else if i >= |a| {
          assert PathsDiffer(b, i - |a|, j - |a|);
        } else {
          assert FreshPath(taken + Members(a), b, j - |a|) && both[i] in a;
        }
      }
    }
  }

  lemma {:induction false} UnusedOne(taken: set<string>, path: string)
    ensures Unused(taken, [path]) <==> path !in taken
    ensures Members([path]) == {path}
  {
    assert FreshPath(taken, [path], 0) <==> path !in taken;
  }

  /** A definition whose table can be built. */
  ghost predicate Formed(node: Node, prefix: string, depth: nat, taken: set<string>) {
    NodeOk(node, depth) && Unused(taken, NodePaths(node, prefix))
  }

  ghost predicate FormedAll(nodes: seq<Node>, path: string, depth: nat, taken: set<string>) {
    NodesOk(nodes, depth) && Unused(taken, PathsOfAll(nodes, path))
  }

  lemma {:induction false} FormedBlock(node: Node, prefix: string, depth: nat, taken: set<string>)
    requires node.Nested?
    ensures var path := PathOf(prefix, NodeName(node));
            Formed(node, prefix, depth, taken) <==>
              && depth <= 256 && ValidName(NodeName(node)) && path !in taken
              && FormedAll(node.block.children, path, depth + 1, taken + {path})
  {
    var path := PathOf(prefix, NodeName(node));
    UnusedOne(taken, path);
    UnusedAppend(taken, [path], PathsOfAll(node.block.children, path));
  }

  lemma {:induction false} FormedCons(nodes: seq<Node>, path: string, depth: nat, taken: set<string>)
    requires nodes != []
    ensures FormedAll(nodes, path, depth, taken) <==>
              Formed(nodes[0], path, depth, taken) &&
                FormedAll(nodes[1..], path, depth, taken + Members(NodePaths(nodes[0], path)))
  {
    UnusedAppend(taken, NodePaths(nodes[0], path), PathsOfAll(nodes[1..], path));
  }

  // ----- growing the table -----

  /** The subtree of `node` was placed at the end of `before`. */
  ghost predicate Added(before: seq<Entry>, entries: seq<Entry>, node: Node, prefix: string, parent: Option<nat>) {
    && before <= entries
    && |entries| == |before| + NodeSize(node)
    && Placed(entries, node, prefix, parent, |before|)
  }

  ghost predicate AddedAll(before: seq<Entry>, entries: seq<Entry>, nodes: seq<Node>, path: string, parent: nat) {
    && before <= entries
    && |entries| == |before| + NodesSize(nodes)
    && PlacedAll(entries, nodes, path, parent, |before|)
  }

  /** Both tables together, after a subtree was added to those from before. */
  ghost predicate Grown(before: seq<Entry>, taken: set<string>, entries: seq<Entry>, paths: map<string, nat>,
                        node: Node, prefix: string, parent: Option<nat>) {
    && Indexed(entries, paths) && Clean(entries)
    && Added(before, entries, node, prefix, parent)
    && paths.Keys == taken + Members(NodePaths(node, prefix))
  }

  ghost predicate GrownAll(before: seq<Entry>, taken: set<string>, entries: seq<Entry>, paths: map<string, nat>,
                           nodes: seq<Node>, path: string, parent: nat) {
    && Indexed(entries, paths) && Clean(entries)
    && AddedAll(before, entries, nodes, path, parent)
    && paths.Keys == taken + Members(PathsOfAll(nodes, path))
  }

  lemma {:induction false} GrownCons(
      before: seq<Entry>, taken: set<string>, middle: seq<Entry>, among: map<string, nat>, entries: seq<Entry>,
      paths: map<string, nat>,
      nodes: seq<Node>, path: string, parent: nat)
    requires nodes != [] && Grown(before, taken, middle, among, nodes[0], path, Some(parent))
    requires GrownAll(middle, among.Keys, entries, paths, nodes[1..], path, parent)
    ensures GrownAll(before, taken, entries, paths, nodes, path, parent)
  {
    AddedCons(before, middle, entries, nodes, path, parent);
    ConsMembers(nodes, path, taken);
  }

  lemma {:induction false} GrownBlock(
      before: seq<Entry>, taken: set<string>, entries: seq<Entry>, paths: map<string, nat>, node: Node, prefix: string,
      parent: Option<nat>, head: Entry)
    requires node.Nested? && head.path == PathOf(prefix, NodeName(node))
    requires GrownAll(before + [head], taken + {head.path}, entries, paths, node.block.children, head.path, |before|)
    ensures |before| < |entries|
    ensures var patched := entries[|before| := HeadEntry(node, prefix, parent, |before|)];
            Grown(before, taken, patched, paths, node, prefix, parent)
  {
    AddedBlock(before, entries, paths, node, prefix, parent, head);
    BlockMembers(node, prefix, taken);
  }

  lemma {:induction false} AddedCons(
      before: seq<Entry>, middle: seq<Entry>, entries: seq<Entry>, nodes: seq<Node>, path: string, parent: nat)
    requires nodes != [] && Added(before, middle, nodes[0], path, Some(parent)) &&
      AddedAll(middle, entries, nodes[1..], path, parent)
    ensures AddedAll(before, entries, nodes, path, parent)
  {
    PlacedFrame(middle, entries, nodes[0], path, Some(parent), |before|);
  }

  lemma {:induction false} AddedBlock(
      before: seq<Entry>, entries: seq<Entry>, paths: map<string, nat>, node: Node, prefix: string, parent: Option<nat>,
      head: Entry)
    requires node.Nested? && Indexed(entries, paths) && Clean(entries)
    requires head.path == PathOf(prefix, NodeName(node))
    requires AddedAll(before + [head], entries, node.block.children, head.path, |before|)
    ensures var patched := entries[|before| := HeadEntry(node, prefix, parent, |before|)];
            Indexed(patched, paths) && Clean(patched) && Added(before, patched, node, prefix, parent)
  {
    assert entries[|before|] == (before + [head])[|before|] == head;
    PatchBlock(entries, paths, node, prefix, parent, |before|);
    var patched := entries[|before| := HeadEntry(node, prefix, parent, |before|)];
    assert before <= patched;
  }

  /** The two tables that compilation grows. */
  class Table {
    var entries: seq<Entry>
    var paths: map<string, nat>

    constructor ()
      ensures entries == [] && paths == map[]
    {
      entries, paths := [], map[];
    }

    ghost predicate Valid()
      reads this
    {
      Indexed(entries, paths) && Clean(entries)
    }

    method Append(head: Entry)
      requires Valid() && head.path !in paths && EntryClean(head)
      modifies this
      ensures Valid() && entries == old(entries) + [head] && paths.Keys == old(paths.Keys) + {head.path}
    {
      AppendEntry(entries, paths, head);
      paths := paths[head.path := |entries|];
      entries := entries + [head];
    }

    /** Append a node and its subtree in preorder; fails exactly when the definition is not well formed. */
    method AddNode(node: Node, prefix: string, parent: Option<nat>, depth: nat) returns (r: Result<nat>)
      requires Valid() && '+' !in prefix
      modifies this
      ensures r.Ok? <==> Formed(node, prefix, depth, old(paths.Keys))
      ensures r.Ok? ==>
        r.value == |old(entries)| && Grown(old(entries), old(paths.Keys), entries, paths, node, prefix, parent)
      decreases node
    {
      if depth > 256 {
        return Err(Invalid(NestingDepth));
      }
      var name := NodeName(node);
      if !ValidName(name) {
        return Err(Invalid(InvalidName));
      }
      var path := PathOf(prefix, name);
      UnusedOne(paths.Keys, path);
      if node.Nested? {
        FormedBlock(node, prefix, depth, paths.Keys);
      }
      if path in paths {
        return Err(Invalid(DuplicatePath));
      }
      var index := |entries|;
      if node.Repeat? && !RangeOk(node.min, node.max, node.step) {
        return Err(Invalid(RepeatRange));
      }
      if node.Nested? {
        r := AddBlock(node, path, prefix, parent, depth);
      } else {
        var kind := match node
          case Leaf(_, field) => Atom(field)
          case Bound(_, variable, field) => Dynamic(field, variable)
          case Sized(_, spec) => ComputedSize(spec)
          case Checksummed(_, spec) => ComputedChecksum(spec)
          case Mirrored(_, target) => Mirror(target)
          case Repeat(_, target, min, max, step, variable) => Repetition(target, min, max, step, variable);
        var head := Entry(path, parent, kind, None, None, None);
        assert head == HeadEntry(node, prefix, parent, index);
        PathClean(prefix, name);
        Append(head);
        return Ok(index);
      }
    }

    /** A block: a placeholder entry, then its children, then the entry with the child indices. */
    method AddBlock(node: Node, path: string, prefix: string, parent: Option<nat>, depth: nat) returns (r: Result<nat>)
      requires Valid() && '+' !in prefix
      requires node.Nested? && ValidName(NodeName(node))
      requires path == PathOf(prefix, NodeName(node)) && path !in paths
      modifies this
      ensures r.Ok? <==> FormedAll(node.block.children, path, depth + 1, old(paths.Keys) + {path})
      ensures r.Ok? ==>
        r.value == |old(entries)| && Grown(old(entries), old(paths.Keys), entries, paths, node, prefix, parent)
      decreases node, 0
    {
      var index, block := |entries|, node.block;
      var placeholder := Entry(path, parent, Container([]), block.condition, block.alignment, block.group);
      PathClean(prefix, NodeName(node));
      Append(placeholder);
      var children := AddChildren(block.children, path, index, depth);
      if children.Err? {
        return Err(children.error);
      }
      GrownBlock(old(entries), old(paths.Keys), entries, paths, node, prefix, parent, placeholder);
      var filled := placeholder.(kind := Container(children.value));
      assert filled == HeadEntry(node, prefix, parent, index);
      entries := entries[index := filled];
      return Ok(index);
    }

    method AddChildren(nodes: seq<Node>, path: string, parent: nat, depth: nat) returns (r: Result<seq<nat>>)
      requires Valid() && '+' !in path
      modifies this
      ensures r.Ok? <==> FormedAll(nodes, path, depth + 1, old(paths.Keys))
      ensures r.Ok? ==>
        r.value == Indices(nodes, |old(entries)|) &&
          GrownAll(old(entries), old(paths.Keys), entries, paths, nodes, path, parent)
      decreases nodes, 1
    {
      if nodes == [] {
        return Ok([]);
      }
      FormedCons(nodes, path, depth + 1, paths.Keys);
      var first := AddNode(nodes[0], path, Some(parent), depth + 1);
      if first.Err? {
        return Err(first.error);
      }
      r := AddSiblings(nodes, path, parent, depth, first.value, old(entries), old(paths.Keys));
    }

    /** The siblings after the first, which is already in place. */
    method AddSiblings(
        nodes: seq<Node>, path: string, parent: nat, depth: nat, first: nat, ghost before: seq<Entry>,
        ghost taken: set<string>)
      returns (r: Result<seq<nat>>)
      requires nodes != [] && first == |before| && '+' !in path
      requires Grown(before, taken, entries, paths, nodes[0], path, Some(parent))
      modifies this
      ensures r.Ok? <==> FormedAll(nodes[1..], path, depth + 1, old(paths.Keys))
      ensures r.Ok? ==>
        r.value == Indices(nodes, |before|) && GrownAll(before, taken, entries, paths, nodes, path, parent)
      decreases nodes, 0
    {
      var rest := AddChildren(nodes[1..], path, parent, depth);
      if rest.Err? {
        return Err(rest.error);
      }
      GrownCons(before, taken, old(entries), old(paths), entries, paths, nodes, path, parent);
      IndicesCons(nodes, first, |old(entries)|);
      return Ok([first] + rest.value);
    }
  }

  lemma {:induction false} IndicesCons(nodes: seq<Node>, base: nat, next: nat)
    requires nodes != [] && next == base + NodeSize(nodes[0])
    ensures Indices(nodes, base) == [base] + Indices(nodes[1..], next)
  {
  }

  lemma {:induction false} BlockMembers(node: Node, prefix: string, taken: set<string>)
    requires node.Nested?
    ensures var path := PathOf(prefix, NodeName(node));
            taken + {path} + Members(PathsOfAll(node.block.children, path)) == taken + Members(NodePaths(node, prefix))
  {
  }

  lemma {:induction false} ConsMembers(nodes: seq<Node>, path: string, taken: set<string>)
    requires nodes != []
    ensures taken + Members(NodePaths(nodes[0], path)) + Members(PathsOfAll(nodes[1..], path)) ==
      taken + Members(PathsOfAll(nodes, path))
  {
  }

  // ----- the case sequence -----

  /** The case tree below an entry: a block with a group field is followed by its product with that field. */
  function BuildCaseSeq(entries: seq<Entry>, groups: map<nat, nat>, index: nat): CaseSeq
    requires Forward(entries) && index < |entries|
    decreases |entries| - index, 1, 0
  {
    match entries[index].kind
    case Container(children) =>
      assert ForwardAt(entries, index);
      var inner := Sequence(BuildAll(entries, groups, index, children));
      if index in groups then Sequence([inner, Product(groups[index], inner)]) else inner
    case Mirror(_) => Sequence([])
    case kind => if kind.Count() > 0 then Plain(index) else Sequence([])
  }

  function BuildAll(entries: seq<Entry>, groups: map<nat, nat>, parent: nat, children: seq<nat>): (r: seq<CaseSeq>)
    requires Forward(entries) && parent < |entries| && ChildrenForward(entries, parent, children)
    ensures |r| == |children|
    decreases |entries| - parent, 0, |children|
  {
    if children == [] then []
    else [BuildCaseSeq(entries, groups, children[0])] + BuildAll(entries, groups, parent, children[1..])
  }

  /** Every product of a built sequence replays the sequence just before it. */
  lemma {:induction false} BuiltSeqReplays(entries: seq<Entry>, groups: map<nat, nat>, index: nat)
    requires Forward(entries) && index < |entries|
    ensures Replays(CountsOf(entries), BuildCaseSeq(entries, groups, index))
    decreases |entries| - index, 1, 0
  {
    if entries[index].kind.Container? {
      assert ForwardAt(entries, index);
      var children := entries[index].kind.children;
      BuiltAllReplays(entries, groups, index, children);
      var inner := Sequence(BuildAll(entries, groups, index, children));
      assert Replays(CountsOf(entries), inner);
      if index in groups {
        assert IsReplayPair(CountsOf(entries), [inner, Product(groups[index], inner)]);
      }
    }
  }

  lemma {:induction false} BuiltAllReplays(entries: seq<Entry>, groups: map<nat, nat>, parent: nat, children: seq<nat>)
    requires Forward(entries) && parent < |entries| && ChildrenForward(entries, parent, children)
    ensures ReplaysAll(CountsOf(entries), BuildAll(entries, groups, parent, children))
    decreases |entries| - parent, 0, |children|
  {
    if children != [] {
      BuiltSeqReplays(entries, groups, children[0]);
      BuiltAllReplays(entries, groups, parent, children[1..]);
    }
  }

  // ----- without groups, the units are the mutating entries in table order -----

  /** Entries of the range that have candidates, in order. */
  function Mutating(entries: seq<Entry>, from: nat, until: nat): seq<nat>
    decreases until - from
  {
    if from >= until then []
    else
      (if from < |entries| && entries[from].kind.Count() > 0 then [from] else []) + Mutating(entries, from + 1, until)
  }

  lemma {:induction false} MutatingSplit(entries: seq<Entry>, from: nat, middle: nat, until: nat)
    requires from <= middle <= until
    ensures Mutating(entries, from, until) == Mutating(entries, from, middle) + Mutating(entries, middle, until)
    decreases middle - from
  {
    if from < middle {
      MutatingSplit(entries, from + 1, middle, until);
    }
  }

  lemma {:induction false} MutatingMembers(entries: seq<Entry>, from: nat, until: nat, e: nat)
    ensures e in Mutating(entries, from, until) <==>
      from <= e < until && e < |entries| && entries[e].kind.Count() > 0
    decreases until - from
  {
    if from < until {
      MutatingMembers(entries, from + 1, until, e);
    }
  }

  lemma {:induction false} MutatingIncreases(entries: seq<Entry>, from: nat, until: nat)
    ensures StrictlyIncreasing(Mutating(entries, from, until))
    decreases until - from
  {
    if from < until {
      MutatingIncreases(entries, from + 1, until);
      var rest, all := Mutating(entries, from + 1, until), Mutating(entries, from, until);
      if all != rest {
        assert all == [from] + rest;
        forall i: nat, j: nat ensures Below(all, i, j) {
          if i < j < |all| {
            MutatingMembers(entries, from + 1, until, all[j]);
            assert all[j] == rest[j - 1];
            assert i > 0 ==> Below(rest, i - 1, j - 1);
          }
        }
      }
    }
  }

  /** Blocks are placed where their nodes say, with their children's indices; nothing about paths. */
  ghost predicate Shaped(entries: seq<Entry>, node: Node, base: nat)
    decreases node, 1
  {
    && base < |entries|
    && match node
       case Nested(block) =>
         entries[base].kind == Container(Indices(block.children, base + 1)) &&
           ShapedAll(entries, block.children, base + 1)
       case _ => !entries[base].kind.Container?
  }

  ghost predicate ShapedAll(entries: seq<Entry>, nodes: seq<Node>, base: nat)
    decreases nodes, 0
  {
    nodes != [] ==> Shaped(entries, nodes[0], base) && ShapedAll(entries, nodes[1..], base + NodeSize(nodes[0]))
  }

  lemma {:induction false} PlacedIsShaped(
      entries: seq<Entry>, node: Node, prefix: string, parent: Option<nat>, base: nat)
    requires Placed(entries, node, prefix, parent, base)
    ensures Shaped(entries, node, base)
    decreases node, 1
  {
    if node.Nested? {
      PlacedAllShaped(entries, node.block.children, PathOf(prefix, node.block.name), base, base + 1);
    }
  }

  lemma {:induction false} PlacedAllShaped(entries: seq<Entry>, nodes: seq<Node>, path: string, parent: nat, base: nat)
    requires PlacedAll(entries, nodes, path, parent, base)
    ensures ShapedAll(entries, nodes, base)
    decreases nodes, 0
  {
    if nodes != [] {
      PlacedIsShaped(entries, nodes[0], path, Some(parent), base);
      PlacedAllShaped(entries, nodes[1..], path, parent, base + NodeSize(nodes[0]));
    }
  }

  /** The plain entries of a subtree when nothing is grouped: its mutating entries in table order. */
  lemma {:induction false} SubtreePlains(entries: seq<Entry>, node: Node, base: nat)
    requires Forward(entries) && Shaped(entries, node, base)
    ensures NoProducts(BuildCaseSeq(entries, map[], base))
    ensures Plains(BuildCaseSeq(entries, map[], base)) == Mutating(entries, base, base + NodeSize(node))
    decreases node, 1
  {
    if node.Nested? {
      assert ForwardAt(entries, base);
      SiblingPlains(entries, node.block.children, entries[base].kind.children, base, base + 1);
    } else {
      assert Mutating(entries, base + 1, base + 1) == [];
    }
  }

  lemma {:induction false} SiblingPlains(
      entries: seq<Entry>, nodes: seq<Node>, children: seq<nat>, owner: nat, base: nat)
    requires Forward(entries) && owner < |entries|
    requires ShapedAll(entries, nodes, base)
    requires children == Indices(nodes, base) && ChildrenForward(entries, owner, children)
    ensures NoProductsIn(BuildAll(entries, map[], owner, children))
    ensures PlainsOfAll(BuildAll(entries, map[], owner, children)) == Mutating(entries, base, base + NodesSize(nodes))
    decreases nodes, 0
  {
    if nodes != [] {
      var middle := base + NodeSize(nodes[0]);
      IndicesTail(nodes, base);
      SubtreePlains(entries, nodes[0], base);
      SiblingPlains(entries, nodes[1..], children[1..], owner, middle);
      BuiltPlains(entries, owner, children, base, middle, base + NodesSize(nodes));
    }
  }

  lemma {:induction false} IndicesTail(nodes: seq<Node>, base: nat)
    requires nodes != []
    ensures Indices(nodes, base)[0] == base
    ensures Indices(nodes, base)[1..] == Indices(nodes[1..], base + NodeSize(nodes[0]))
  {
  }

  /** The plain entries of siblings are those of the first followed by those of the others. */
  lemma {:induction false} BuiltPlains(
      entries: seq<Entry>, owner: nat, children: seq<nat>, from: nat, middle: nat, until: nat)
    requires Forward(entries) && owner < |entries| && ChildrenForward(entries, owner, children) && children != []
    requires from <= middle <= until
    requires NoProducts(BuildCaseSeq(entries, map[], children[0]))
    requires NoProductsIn(BuildAll(entries, map[], owner, children[1..]))
    requires Plains(BuildCaseSeq(entries, map[], children[0])) == Mutating(entries, from, middle)
    requires PlainsOfAll(BuildAll(entries, map[], owner, children[1..])) == Mutating(entries, middle, until)
    ensures NoProductsIn(BuildAll(entries, map[], owner, children))
    ensures PlainsOfAll(BuildAll(entries, map[], owner, children)) == Mutating(entries, from, until)
  {
    var built := BuildAll(entries, map[], owner, children);
    assert built[1..] == BuildAll(entries, map[], owner, children[1..]);
    MutatingSplit(entries, from, middle, until);
  }

  /** Without groups, the units of a table are its mutating entries in order, with every candidate. */
  lemma {:induction false} UngroupedUnits(entries: seq<Entry>, s: CaseSeq)
    requires NoProducts(s) && Plains(s) == Mutating(entries, 0, |entries|)
    ensures Ungrouped(Units(CountsOf(entries), s, []), CountsOf(entries), Mutating(entries, 0, |entries|))
  {
    PlainUnits(CountsOf(entries), s);
    MutatingEntries(entries);
  }

  lemma {:induction false} MutatingEntries(entries: seq<Entry>)
    ensures StrictlyIncreasing(Mutating(entries, 0, |entries|))
    ensures forall i: nat :: MutatesAt(CountsOf(entries), Mutating(entries, 0, |entries|), i)
  {
    MutatingIncreases(entries, 0, |entries|);
    var all := Mutating(entries, 0, |entries|);
    forall i: nat ensures MutatesAt(CountsOf(entries), all, i) {
      if i < |all| {
        MutatingMembers(entries, 0, |entries|, all[i]);
      }
    }
  }
}
