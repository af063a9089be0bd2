/** What each entry of a compiled table takes from its node of the definition. */
module Definitions {
  import opened Wrappers
  import opened Arithmetic
  import opened Model
  import opened Layout
  import opened Assembly
  import opened Compilation

  // ----- nodes and entries -----

  /** The node of the definition behind an entry. */
  ghost function NodeAt(root: Block, j: nat): Node
    requires j < NodeSize(Nested(root))
  {
    Locate(Nested(root), "", None, 0, j).node
  }

  predicate IsNamed(node: Node, name: string) {
    match node
    case Leaf(own, _) => own == name
    case Nested(block) => block.name == name
    case Repeat(own, _, _, _, _, _) => own == name
    case Sized(own, _) => own == name
    case Checksummed(own, _) => own == name
    case Mirrored(own, _) => own == name
    case Bound(own, _, _) => own == name
  }

  predicate Bare(entry: Entry) {
    entry.condition == None && entry.alignment == None && entry.group == None
  }

  /** The entry says what the node says; blocks bring their own condition, alignment and group. */
  predicate Describes(entry: Entry, node: Node) {
    match node
    case Leaf(_, field) => entry.kind == Atom(field) && Bare(entry)
    case Bound(_, source, field) => entry.kind == Dynamic(field, source) && Bare(entry)
    case Sized(_, spec) => entry.kind == ComputedSize(spec) && Bare(entry)
    case Checksummed(_, spec) => entry.kind == ComputedChecksum(spec) && Bare(entry)
    case Mirrored(_, target) => entry.kind == Mirror(target) && Bare(entry)
    case Repeat(_, target, min, max, step, variable) =>
      entry.kind == Repetition(target, min, max, step, variable) && Bare(entry)
    case Nested(block) =>
      && entry.kind.Container? && |entry.kind.children| == |block.children|
      && entry.condition == block.condition && entry.alignment == block.alignment && entry.group == block.group
  }

  /** The n-th child of a block has the entry that the block lists for it, which names the block as its parent. */
  ghost predicate ChildAt(entries: seq<Entry>, root: Block, j: nat, n: nat)
    requires |entries| == NodeSize(Nested(root)) && j < |entries|
  {
    entries[j].kind.Container? && n < |entries[j].kind.children| ==>
      var child := entries[j].kind.children[n];
      && j < child < |entries| && entries[child].parent == Some(j)
      && NodeAt(root, j).Nested? && n < |NodeAt(root, j).block.children|
      && NodeAt(root, child) == NodeAt(root, j).block.children[n]
  }

  /** The path of an entry is the path of its parent and its own name. */
  ghost predicate PathAt(entries: seq<Entry>, j: nat, name: string) {
    && j < |entries|
    && match entries[j].parent
       case None => j == 0 && entries[j].path == name
       case Some(p) => p < j && entries[j].path == entries[p].path + "." + name
  }

  /** A child is placed below its block. */
  lemma {:induction false} ChildLocated(entries: seq<Entry>, root: Block, j: nat, n: nat)
    requires IsTable(entries, Nested(root)) && j < |entries|
    ensures ChildAt(entries, root, j, n)
  {
    if entries[j].kind.Container? && n < |entries[j].kind.children| {
      Located(entries, Nested(root), "", None, 0, j);
      ChildSpot(Nested(root), j, n);
      Located(entries, Nested(root), "", None, 0, entries[j].kind.children[n]);
    }
  }

  lemma {:induction false} ChildSpot(root: Node, j: nat, n: nat)
    requires j < NodeSize(root)
    requires var node := Locate(root, "", None, 0, j).node; node.Nested? && n < |node.block.children|
    ensures var spot := Locate(root, "", None, 0, j);
            var child := Indices(spot.node.block.children, j + 1)[n];
            && j < child < NodeSize(root)
            && Locate(root, "", None, 0, child) == Spot(spot.node.block.children[n], SpotPath(spot), Some(j))
  {
    var spot := Locate(root, "", None, 0, j);
    var child := Indices(spot.node.block.children, j + 1)[n];
    LocateFits(root, "", None, 0, j);
    IndicesLocated(spot.node.block.children, SpotPath(spot), j, j + 1, n);
    LocateNested(root, "", None, 0, j, child);
  }

  /** The parent of an entry carries the path that the entry extends, and lists it. */
  lemma {:induction false} ParentLists(
      entries: seq<Entry>, node: Node, prefix: string, parent: Option<nat>, base: nat, j: nat)
    requires base < j < base + NodeSize(node) && Placed(entries, node, prefix, parent, base)
    ensures ListedBy(entries, Locate(node, prefix, parent, base, j), j)
    decreases node, 1
  {
    ParentListsAmong(entries, node.block.children, PathOf(prefix, node.block.name), base, base + 1, j);
  }

  ghost predicate ListedBy(entries: seq<Entry>, spot: Spot, j: nat) {
    && spot.parent.Some? && spot.parent.value < |entries|
    && entries[spot.parent.value].path == spot.prefix
    && entries[spot.parent.value].kind.Container? && j in entries[spot.parent.value].kind.children
  }

  lemma {:induction false} ParentListsAmong(
      entries: seq<Entry>, nodes: seq<Node>, path: string, parent: nat, base: nat, j: nat)
    requires base <= j < base + NodesSize(nodes) && PlacedAll(entries, nodes, path, parent, base)
    requires parent < |entries| && entries[parent].path == path && entries[parent].kind.Container?
    requires forall i <- Indices(nodes, base) :: i in entries[parent].kind.children
    ensures ListedBy(entries, LocateAmong(nodes, path, parent, base, j), j)
    decreases nodes, 0
  {
    if j == base {
      assert Indices(nodes, base)[0] == base;
    } else if j < base + NodeSize(nodes[0]) {
      ParentLists(entries, nodes[0], path, Some(parent), base, j);
    } else {
      var next := base + NodeSize(nodes[0]);
      assert Indices(nodes, base) == [base] + Indices(nodes[1..], next);
      ParentListsAmong(entries, nodes[1..], path, parent, next, j);
    }
  }

  /** Every entry describes its node, under the path of its parent and the node's own name. */
  lemma {:induction false} EntryOfNode(entries: seq<Entry>, root: Block, j: nat)
    requires IsTable(entries, Nested(root)) && j < |entries|
    ensures Describes(entries[j], NodeAt(root, j))
    ensures j == 0 ==> NodeAt(root, j) == Nested(root)
    ensures forall n: nat :: ChildAt(entries, root, j, n)
    ensures exists name :: IsNamed(NodeAt(root, j), name) && PathAt(entries, j, name)
  {
    Located(entries, Nested(root), "", None, 0, j);
    forall n: nat ensures ChildAt(entries, root, j, n) {
      ChildLocated(entries, root, j, n);
    }
    var name := NodeName(NodeAt(root, j));
    assert IsNamed(NodeAt(root, j), name);
    assert PathAt(entries, j, name) by {
      EntryPath(entries, root, j);
    }
  }

  lemma {:induction false} EntryPath(entries: seq<Entry>, root: Block, j: nat)
    requires IsTable(entries, Nested(root)) && j < |entries|
    ensures PathAt(entries, j, NodeName(NodeAt(root, j)))
  {
    Located(entries, Nested(root), "", None, 0, j);
    if j > 0 {
      ParentLists(entries, Nested(root), "", None, 0, j);
      var p := entries[j].parent.value;
      Located(entries, Nested(root), "", None, 0, p);
      assert p > 0 ==> root.name + "." <= entries[p].path;
      assert entries[p].path != "";
    }
  }

  // ----- enclosing blocks -----

  /** Entry `k` is `j` or a block around it. */
  ghost predicate Encloses(root: Block, k: nat, j: nat)
    requires j < NodeSize(Nested(root))
  {
    k <= j < EndOf(Nested(root), k)
  }

  /** The entries around an entry are itself and those around its parent. */
  lemma {:induction false} EnclosedByParent(entries: seq<Entry>, root: Block, k: nat, j: nat)
    requires IsTable(entries, Nested(root)) && j < |entries| && entries[j].parent.Some?
    ensures var p := entries[j].parent.value; p < j && (Encloses(root, k, j) <==> k == j || Encloses(root, k, p))
  {
    var whole := Nested(root);
    Located(entries, whole, "", None, 0, j);
    var p := entries[j].parent.value;
    ParentLists(entries, whole, "", None, 0, j);
    ParentCovers(entries, root, j);
    if Encloses(root, k, p) {
      SubtreeRange(entries, whole, k, p);
    }
    if Encloses(root, k, j) && k < j {
      var spot := Locate(whole, "", None, 0, k);
      Located(entries, whole, "", None, 0, k);
      LocateNested(whole, "", None, 0, k, j);
      assert k > 0 ==> root.name + "." <= SpotPath(spot);
      Located(entries, spot.node, spot.prefix, spot.parent, k, j);
    }
  }

  lemma {:induction false} ParentCovers(entries: seq<Entry>, root: Block, j: nat)
    requires IsTable(entries, Nested(root)) && j < |entries| && entries[j].parent.Some?
    ensures var p := entries[j].parent.value; p < j && Encloses(root, p, j)
  {
    Located(entries, Nested(root), "", None, 0, j);
    ParentLists(entries, Nested(root), "", None, 0, j);
    var p := entries[j].parent.value;
    var n :| 0 <= n < |entries[p].kind.children| && entries[p].kind.children[n] == j;
    ChildRange(entries, Nested(root), p, n);
  }

  /** Around the root is only the root. */
  lemma {:induction false} RootIsOutermost(entries: seq<Entry>, root: Block, j: nat)
    requires IsTable(entries, Nested(root)) && j < |entries|
    ensures entries[j].parent.None? <==> j == 0
    ensures Encloses(root, j, j)
  {
    Located(entries, Nested(root), "", None, 0, j);
  }

  // ----- references -----

  /** The walk over the parents finds exactly the enclosing entries. */
  lemma {:induction false} InsideIsEnclosed(request: CompiledRequest, root: Block, j: nat, target: nat)
    requires TableFor(request, root) && j < |request.entries|
    ensures Inside(request, j, target) <==> Encloses(root, target, j)
    decreases j
  {
    assert EntryOk(request, j);
    RootIsOutermost(request.entries, root, j);
    if request.entries[j].parent.Some? {
      EnclosedByParent(request.entries, root, target, j);
      InsideIsEnclosed(request, root, request.entries[j].parent.value, target);
    }
  }

  /**
   What a node may refer to: a repetition names a block before it that is not around it, a mirror nothing around it, a
   condition a plain or bound field, a group a plain field.
   */
  ghost predicate NodeReferences(request: CompiledRequest, root: Block, j: nat)
    requires TableFor(request, root)
  {
    var paths := request.paths;
    j < |request.entries| ==>
      match NodeAt(root, j)
      case Repeat(_, target, _, _, _, _) =>
        && target in paths && NodeAt(root, paths[target]).Nested? && paths[target] < j
        && !(target + "." <= request.entries[j].path)
      case Mirrored(_, target) => target in paths && (paths[target] == j || !Encloses(root, paths[target], j))
      case Nested(block) =>
        && (block.group.Some? ==> block.group.value in paths && NodeAt(root, paths[block.group.value]).Leaf?)
        && (block.condition.Some? ==>
              && block.condition.value.path in paths
              && var field := NodeAt(root, paths[block.condition.value.path]); field.Leaf? || field.Bound?)
      case _ => true
  }

  lemma {:induction false} ReferencesOfNode(request: CompiledRequest, root: Block, j: nat)
    requires TableFor(request, root)
    ensures GroupOk(request, j) && ReferencesOk(request, j) <==> NodeReferences(request, root, j)
  {
    if j < |request.entries| {
      EntryOfNode(request.entries, root, j);
      if NodeAt(root, j).Mirrored? {
        MirrorOfNode(request, root, j);
      } else {
        forall path <- request.paths
          ensures Describes(request.entries[request.paths[path]], NodeAt(root, request.paths[path]))
        {
          EntryOfNode(request.entries, root, request.paths[path]);
        }
      }
    }
  }

  lemma {:induction false} MirrorOfNode(request: CompiledRequest, root: Block, j: nat)
    requires TableFor(request, root) && j < |request.entries| && NodeAt(root, j).Mirrored?
    requires Describes(request.entries[j], NodeAt(root, j))
    ensures GroupOk(request, j) && ReferencesOk(request, j) <==> NodeReferences(request, root, j)
  {
    var entries, paths, node := request.entries, request.paths, NodeAt(root, j);
    RootIsOutermost(entries, root, j);
    if node.target in paths && entries[j].parent.Some? {
      EnclosedByParent(entries, root, paths[node.target], j);
      InsideIsEnclosed(request, root, entries[j].parent.value, paths[node.target]);
    }
  }

  /** The checks on the table pass exactly when every node of the definition refers to what it may. */
  lemma {:induction false} ReferencesByNodes(request: CompiledRequest, root: Block)
    requires TableFor(request, root)
    ensures ReferencesHold(request) <==> forall j: nat :: NodeReferences(request, root, j)
  {
    forall j: nat ensures GroupOk(request, j) && ReferencesOk(request, j) <==> NodeReferences(request, root, j) {
      ReferencesOfNode(request, root, j);
    }
  }

  /** A repeated block is not around its repetition. */
  lemma {:induction false} RepeatedOutside(request: CompiledRequest, root: Block, j: nat)
    requires TableFor(request, root) && j < |request.entries| && NodeReferences(request, root, j)
    requires NodeAt(root, j).Repeat?
    ensures !Encloses(root, request.paths[NodeAt(root, j).target], j)
  {
    var target := request.paths[NodeAt(root, j).target];
    if Encloses(root, target, j) {
      SubtreeRange(request.entries, Nested(root), target, j);
    }
  }

  // ----- which definitions have a table -----

  /** How many blocks are around the node at entry `j` of a subtree. */
  ghost function LevelOf(node: Node, base: nat, j: nat): nat
    requires base <= j < base + NodeSize(node)
    decreases node, 1
  {
    if j == base then 0 else 1 + LevelAmong(node.block.children, base + 1, j)
  }

  ghost function LevelAmong(nodes: seq<Node>, base: nat, j: nat): nat
    requires base <= j < base + NodesSize(nodes)
    decreases nodes, 0
  {
    if j < base + NodeSize(nodes[0]) then LevelOf(nodes[0], base, j)
    else LevelAmong(nodes[1..], base + NodeSize(nodes[0]), j)
  }

  predicate PlainName(name: string) {
    name != "" && forall c <- name :: c != '.' && c != '/' && c != '+'
  }

  /** A name without separators, at most 256 blocks around it, and a range whose counts can be numbered. */
  ghost predicate Fine(node: Node, level: nat) {
    && level <= 256
    && (exists name :: IsNamed(node, name) && PlainName(name))
    && (node.Repeat? ==>
          0 <= node.min <= node.max && 0 < node.step && node.max - node.min < node.step * 0x7fff_ffff)
  }

  ghost predicate FineAt(node: Node, prefix: string, parent: Option<nat>, base: nat, level: nat, j: nat) {
    base <= j < base + NodeSize(node) ==>
      Fine(Locate(node, prefix, parent, base, j).node, level + LevelOf(node, base, j))
  }

  ghost predicate FineAmong(nodes: seq<Node>, path: string, parent: nat, base: nat, level: nat, j: nat) {
    base <= j < base + NodesSize(nodes) ==>
      Fine(LocateAmong(nodes, path, parent, base, j).node, level + LevelAmong(nodes, base, j))
  }

  lemma {:induction false} AllFine(node: Node, prefix: string, parent: Option<nat>, base: nat, level: nat)
    ensures NodeOk(node, level) <==> forall j: nat :: FineAt(node, prefix, parent, base, level, j)
    decreases node, 1
  {
    FineHead(node, level);
    assert FineAt(node, prefix, parent, base, level, base) <==> Fine(node, level);
    if node.Nested? {
      var children, path := node.block.children, PathOf(prefix, node.block.name);
      var first, inner := base + 1, level + 1;
      AllFineAmong(children, path, base, first, inner);
      if forall j: nat :: FineAt(node, prefix, parent, base, level, j) {
        forall j: nat ensures FineAmong(children, path, base, first, inner, j) {
          assert FineAt(node, prefix, parent, base, level, j);
        }
      }
      if Fine(node, level) && forall j: nat :: FineAmong(children, path, base, first, inner, j) {
        forall j: nat ensures FineAt(node, prefix, parent, base, level, j) {
          assert FineAmong(children, path, base, first, inner, j);
        }
      }
    }
  }

  lemma {:induction false} AllFineAmong(nodes: seq<Node>, path: string, parent: nat, base: nat, level: nat)
    ensures NodesOk(nodes, level) <==> forall j: nat :: FineAmong(nodes, path, parent, base, level, j)
    decreases nodes, 0
  {
    if nodes != [] {
      var next := base + NodeSize(nodes[0]);
      AllFine(nodes[0], path, Some(parent), base, level);
      AllFineAmong(nodes[1..], path, parent, next, level);
      forall j: nat
        ensures FineAmong(nodes, path, parent, base, level, j) <==>
          FineAt(nodes[0], path, Some(parent), base, level, j) && FineAmong(nodes[1..], path, parent, next, level, j)
      {
      }
    }
  }

  /** The node at entry `j` of a definition is fine where it stands. */
  ghost predicate FineNode(root: Block, j: nat) {
    j < NodeSize(Nested(root)) ==> Fine(NodeAt(root, j), LevelOf(Nested(root), 0, j))
  }

  ghost predicate AllFineNodes(root: Block) {
    forall j: nat :: FineNode(root, j)
  }

  ghost predicate AllPathsDiffer(paths: seq<string>) {
    forall i: nat, j: nat :: PathsDiffer(paths, i, j)
  }

  /** A definition has a table exactly when every node is fine where it stands and no two nodes have the same path. */
  lemma {:induction false} FormedByNodes(root: Block)
    ensures Formed(Nested(root), "", 0, {}) <==> AllFineNodes(root) && AllPathsDiffer(NodePaths(Nested(root), ""))
  {
    NodesAreFine(root);
    NothingTaken(NodePaths(Nested(root), ""));
  }

  lemma {:induction false} NothingTaken(paths: seq<string>)
    ensures Unused({}, paths) <==> AllPathsDiffer(paths)
  {
    assert forall i: nat :: FreshPath({}, paths, i);
  }

  lemma {:induction false} NodesAreFine(root: Block)
    ensures NodeOk(Nested(root), 0) <==> AllFineNodes(root)
  {
    var whole := Nested(root);
    AllFine(whole, "", None, 0, 0);
    if forall j: nat :: FineAt(whole, "", None, 0, 0, j) {
      forall j: nat ensures FineNode(root, j) {
        assert FineAt(whole, "", None, 0, 0, j);
      }
    }
    if AllFineNodes(root) {
      forall j: nat ensures FineAt(whole, "", None, 0, 0, j) {
        assert FineNode(root, j);
      }
    }
  }

  lemma {:induction false} FineHead(node: Node, level: nat)
    ensures Fine(node, level) <==>
      level <= 256 && ValidName(NodeName(node)) && (node.Repeat? ==> RangeOk(node.min, node.max, node.step))
  {
    assert forall name :: IsNamed(node, name) <==> name == NodeName(node);
    assert PlainName(NodeName(node)) <==> ValidName(NodeName(node));
    if node.Repeat? && 0 <= node.min <= node.max && 0 < node.step {
      var span: nat, step: nat := node.max - node.min, node.step;
      RangeBound(span, step, 0x7fff_ffff);
      assert RangeOk(node.min, node.max, node.step) <==> span / step < 0x7fff_ffff;
    }
  }

  lemma {:induction false} RangeBound(span: nat, step: nat, bound: nat)
    requires step > 0
    ensures span / step < bound <==> span < step * bound
  {
    var q, r := QuotientRemainder(span, step);
    if q < bound {
      MulLe(q + 1, bound, step);
      Distribute(q, 1, step);
    } else {
      MulLe(bound, q, step);
    }
    assert bound * step == step * bound;
  }
}
