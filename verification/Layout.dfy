/**
 The preorder layout of a compiled table: where each node of the definition tree is placed, and
 what that implies about subtree ranges, paths and parents.
 */
module Layout {
  import opened Wrappers
  import opened Model

  function NodeName(node: Node): string {
    match node
    case Nested(block) => block.name
    case Leaf(name, _) => name
    case Repeat(name, _, _, _, _, _) => name
    case Sized(name, _) => name
    case Checksummed(name, _) => name
    case Mirrored(name, _) => name
    case Bound(name, _, _) => name
  }

  function PathOf(prefix: string, name: string): string {
    if prefix == "" then name else prefix + "." + name
  }

  /** Number of table entries a node takes. */
  function NodeSize(node: Node): (r: nat)
    ensures r > 0
    decreases node, 1
  {
    match node
    case Nested(block) => 1 + NodesSize(block.children)
    case _ => 1
  }

  function NodesSize(nodes: seq<Node>): nat
    decreases nodes, 0
  {
    if nodes == [] then 0 else NodeSize(nodes[0]) + NodesSize(nodes[1..])
  }

  /** The table indices of sibling nodes placed from `base` on. */
  function Indices(nodes: seq<Node>, base: nat): (r: seq<nat>)
    ensures |r| == |nodes|
    decreases nodes
  {
    if nodes == [] then [] else [base] + Indices(nodes[1..], base + NodeSize(nodes[0]))
  }

  /** The entry of a node placed at `base`. */
  function HeadEntry(node: Node, prefix: string, parent: Option<nat>, base: nat): Entry {
    var path := PathOf(prefix, NodeName(node));
    match node
    case Leaf(_, field) => Entry(path, parent, Atom(field), None, None, None)
    case Bound(_, source, field) => Entry(path, parent, Dynamic(field, source), None, None, None)
    case Sized(_, spec) => Entry(path, parent, ComputedSize(spec), None, None, None)
    case Checksummed(_, spec) => Entry(path, parent, ComputedChecksum(spec), None, None, None)
    case Mirrored(_, target) => Entry(path, parent, Mirror(target), None, None, None)
    case Repeat(_, target, min, max, step, variable) =>
      Entry(path, parent, Repetition(target, min, max, step, variable), None, None, None)
    case Nested(block) =>
      Entry(path, parent, Container(Indices(block.children, base + 1)), block.condition, block.alignment, block.group)
  }

  /** The subtree of `node` occupies the entries from `base` on, in preorder. */
  ghost predicate Placed(entries: seq<Entry>, node: Node, prefix: string, parent: Option<nat>, base: nat)
    decreases node, 1
  {
    && base + NodeSize(node) <= |entries|
    && entries[base] == HeadEntry(node, prefix, parent, base)
    && match node
       case Nested(block) => PlacedAll(entries, block.children, PathOf(prefix, block.name), base, base + 1)
       case _ => true
  }

  ghost predicate PlacedAll(entries: seq<Entry>, nodes: seq<Node>, path: string, parent: nat, base: nat)
    decreases nodes, 0
  {
    nodes != [] ==>
      && Placed(entries, nodes[0], path, Some(parent), base)
      && PlacedAll(entries, nodes[1..], path, parent, base + NodeSize(nodes[0]))
  }

  /** Placement only depends on the subtree's own range. */
  lemma {:induction false} PlacedFrame(
      a: seq<Entry>, b: seq<Entry>, node: Node, prefix: string, parent: Option<nat>, base: nat)
    requires Placed(a, node, prefix, parent, base)
    requires base + NodeSize(node) <= |b|
    requires forall i :: base <= i < base + NodeSize(node) ==> a[i] == b[i]
    ensures Placed(b, node, prefix, parent, base)
    decreases node, 1
  {
    if node.Nested? {
      PlacedAllFrame(a, b, node.block.children, PathOf(prefix, node.block.name), base, base + 1);
    }
  }

  lemma {:induction false} PlacedAllFrame(
      a: seq<Entry>, b: seq<Entry>, nodes: seq<Node>, path: string, parent: nat, base: nat)
    requires PlacedAll(a, nodes, path, parent, base)
    requires base + NodesSize(nodes) <= |a| && base + NodesSize(nodes) <= |b|
    requires forall i :: base <= i < base + NodesSize(nodes) ==> a[i] == b[i]
    ensures PlacedAll(b, nodes, path, parent, base)
    decreases nodes, 0
  {
    if nodes != [] {
      PlacedFrame(a, b, nodes[0], path, Some(parent), base);
      PlacedAllFrame(a, b, nodes[1..], path, parent, base + NodeSize(nodes[0]));
    }
  }

  // ----- finding the node behind an entry -----

  datatype Spot = Spot(node: Node, prefix: string, parent: Option<nat>)

  /** The node placed at entry `j` of the subtree of `node` at `base`. */
  ghost function Locate(node: Node, prefix: string, parent: Option<nat>, base: nat, j: nat): Spot
    requires base <= j < base + NodeSize(node)
    decreases node, 1
  {
    if j == base then Spot(node, prefix, parent)
    else LocateAmong(node.block.children, PathOf(prefix, node.block.name), base, base + 1, j)
  }

  ghost function LocateAmong(nodes: seq<Node>, path: string, parent: nat, base: nat, j: nat): Spot
    requires base <= j < base + NodesSize(nodes)
    decreases nodes, 0
  {
    if j < base + NodeSize(nodes[0]) then Locate(nodes[0], path, Some(parent), base, j)
    else LocateAmong(nodes[1..], path, parent, base + NodeSize(nodes[0]), j)
  }

  function SpotPath(spot: Spot): string {
    PathOf(spot.prefix, NodeName(spot.node))
  }

  /** The located node is placed there, inside the subtree, below a path of the subtree. */
  lemma {:induction false} Located(
      entries: seq<Entry>, node: Node, prefix: string, parent: Option<nat>, base: nat, j: nat)
    requires base <= j < base + NodeSize(node)
    requires Placed(entries, node, prefix, parent, base)
    requires PathOf(prefix, NodeName(node)) != ""
    ensures var spot := Locate(node, prefix, parent, base, j);
      && Placed(entries, spot.node, spot.prefix, spot.parent, j)
      && j + NodeSize(spot.node) <= base + NodeSize(node)
      && (j > base ==> PathOf(prefix, NodeName(node)) + "." <= SpotPath(spot))
      && (j > base ==> spot.parent.Some? && base <= spot.parent.value < j)
      && (j == base ==> spot == Spot(node, prefix, parent))
    decreases node, 1
  {
    if j > base {
      LocatedAmong(entries, node.block.children, PathOf(prefix, node.block.name), base, base + 1, j);
    }
  }

  lemma {:induction false} LocatedAmong(
      entries: seq<Entry>, nodes: seq<Node>, path: string, parent: nat, base: nat, j: nat)
    requires base <= j < base + NodesSize(nodes) && parent < base
    requires PlacedAll(entries, nodes, path, parent, base)
    requires path != ""
    ensures var spot := LocateAmong(nodes, path, parent, base, j);
      && Placed(entries, spot.node, spot.prefix, spot.parent, j)
      && j + NodeSize(spot.node) <= base + NodesSize(nodes)
      && path + "." <= SpotPath(spot)
      && spot.parent.Some? && parent <= spot.parent.value < j
    decreases nodes, 0
  {
    var child := PathOf(path, NodeName(nodes[0]));
    assert path + "." <= child;
    if j < base + NodeSize(nodes[0]) {
      Located(entries, nodes[0], path, Some(parent), base, j);
      var spot := Locate(nodes[0], path, Some(parent), base, j);
      if j > base {
        assert path + "." <= child <= child + "." <= SpotPath(spot);
      }
    } else {
      LocatedAmong(entries, nodes[1..], path, parent, base + NodeSize(nodes[0]), j);
    }
  }

  /** Locating inside a located subtree is the same as locating in the whole. */
  lemma {:induction false} LocateNested(node: Node, prefix: string, parent: Option<nat>, base: nat, j: nat, k: nat)
    requires base <= j < base + NodeSize(node)
    requires var spot := Locate(node, prefix, parent, base, j);
      j <= k < j + NodeSize(spot.node) && k < base + NodeSize(node)
    ensures var spot := Locate(node, prefix, parent, base, j);
      Locate(node, prefix, parent, base, k) == Locate(spot.node, spot.prefix, spot.parent, j, k)
    decreases node, 1
  {
    if j > base {
      LocateNestedAmong(node.block.children, PathOf(prefix, node.block.name), base, base + 1, j, k);
    }
  }

  lemma {:induction false} LocateNestedAmong(nodes: seq<Node>, path: string, parent: nat, base: nat, j: nat, k: nat)
    requires base <= j < base + NodesSize(nodes)
    requires var spot := LocateAmong(nodes, path, parent, base, j);
      j <= k < j + NodeSize(spot.node) && k < base + NodesSize(nodes)
    ensures var spot := LocateAmong(nodes, path, parent, base, j);
      LocateAmong(nodes, path, parent, base, k) == Locate(spot.node, spot.prefix, spot.parent, j, k)
    decreases nodes, 0
  {
    if j < base + NodeSize(nodes[0]) {
      LocateFits(nodes[0], path, Some(parent), base, j);
      LocateNested(nodes[0], path, Some(parent), base, j, k);
    } else {
      LocateNestedAmong(nodes[1..], path, parent, base + NodeSize(nodes[0]), j, k);
    }
  }

  lemma {:induction false} LocateFits(node: Node, prefix: string, parent: Option<nat>, base: nat, j: nat)
    requires base <= j < base + NodeSize(node)
    ensures j + NodeSize(Locate(node, prefix, parent, base, j).node) <= base + NodeSize(node)
    decreases node, 1
  {
    if j > base {
      LocateFitsAmong(node.block.children, PathOf(prefix, node.block.name), base, base + 1, j);
    }
  }

  lemma {:induction false} LocateFitsAmong(nodes: seq<Node>, path: string, parent: nat, base: nat, j: nat)
    requires base <= j < base + NodesSize(nodes)
    ensures j + NodeSize(LocateAmong(nodes, path, parent, base, j).node) <= base + NodesSize(nodes)
    decreases nodes, 0
  {
    if j < base + NodeSize(nodes[0]) {
      LocateFits(nodes[0], path, Some(parent), base, j);
    } else {
      LocateFitsAmong(nodes[1..], path, parent, base + NodeSize(nodes[0]), j);
    }
  }

  /** The children of a block are located at their listed indices. */
  lemma {:induction false} IndicesLocated(nodes: seq<Node>, path: string, parent: nat, base: nat, n: nat)
    requires n < |nodes|
    ensures base <= Indices(nodes, base)[n] < base + NodesSize(nodes)
    ensures LocateAmong(nodes, path, parent, base, Indices(nodes, base)[n]) == Spot(nodes[n], path, Some(parent))
    decreases nodes
  {
    if n > 0 {
      IndicesLocated(nodes[1..], path, parent, base + NodeSize(nodes[0]), n - 1);
    }
  }

  // ----- the layout of a whole table -----

  /** Where the subtree of entry `j` ends. */
  ghost function EndOf(root: Node, j: nat): nat
    requires j < NodeSize(root)
  {
    j + NodeSize(Locate(root, "", None, 0, j).node)
  }

  ghost predicate IsTable(entries: seq<Entry>, root: Node) {
    Placed(entries, root, "", None, 0) && |entries| == NodeSize(root) && NodeName(root) != ""
  }

  /** Subtrees are nested ranges, and entries inside a range have paths below the range's entry. */
  lemma {:induction false} SubtreeRange(entries: seq<Entry>, root: Node, j: nat, k: nat)
    requires IsTable(entries, root)
    requires j < |entries| && j <= k < EndOf(root, j)
    ensures k < |entries| && EndOf(root, k) <= EndOf(root, j) <= |entries|
    ensures k > j ==> entries[j].path + "." <= entries[k].path
  {
    Located(entries, root, "", None, 0, j);
    var spot := Locate(root, "", None, 0, j);
    LocateNested(root, "", None, 0, j, k);
    Located(entries, root, "", None, 0, k);
    if j > 0 {
      assert NodeName(root) + "." <= SpotPath(spot);
    }
    Located(entries, spot.node, spot.prefix, spot.parent, j, k);
  }

  /** Children of a block lie inside its range, and know it as their parent. */
  lemma {:induction false} ChildRange(entries: seq<Entry>, root: Node, j: nat, n: nat)
    requires IsTable(entries, root) && j < |entries|
    requires entries[j].kind.Container? && n < |entries[j].kind.children|
    ensures j < entries[j].kind.children[n] < EndOf(root, j) <= |entries|
  {
    Located(entries, root, "", None, 0, j);
    var spot := Locate(root, "", None, 0, j);
    IndicesLocated(spot.node.block.children, SpotPath(spot), j, j + 1, n);
  }

  lemma {:induction false} ParentBefore(entries: seq<Entry>, root: Node, j: nat)
    requires IsTable(entries, root) && j < |entries|
    ensures entries[j].parent.Some? ==> entries[j].parent.value < j
    ensures j > 0 ==> entries[j].parent.Some?
  {
    Located(entries, root, "", None, 0, j);
  }
}
