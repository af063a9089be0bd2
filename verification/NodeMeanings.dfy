/** What each node of a definition renders to, in terms of the definition alone. */
module NodeMeanings {
  import opened Wrappers
  import opened Arithmetic
  import opened Integers
  import opened Model
  import opened Rendering
  import opened Checksums
  import opened Compilation
  import opened Definitions

  // ----- blocks -----

  function Concat(pieces: seq<Bytes>): Bytes {
    if pieces == [] then [] else pieces[0] + Concat(pieces[1..])
  }

  lemma {:induction false} ConcatPush(pieces: seq<Bytes>, piece: Bytes)
    ensures Concat(pieces + [piece]) == Concat(pieces) + piece
  {
    if pieces == [] {
      assert [piece][1..] == [] && Concat([piece]) == piece + Concat([]);
    } else {
      assert (pieces + [piece])[1..] == pieces[1..] + [piece];
      ConcatPush(pieces[1..], piece);
    }
  }

  /** The children of a block render to these pieces, in order. */
  ghost predicate PieceAt(
      scene: Scene, size: SizeRenderer, children: seq<nat>, active: set<nat>, pieces: seq<Bytes>, n: nat)
    requires Ready(scene)
  {
    n < |children| && n < |pieces| ==>
      children[n] < |scene.request.entries| && Render(scene, size, children[n], active) == Ok(pieces[n])
  }

  ghost predicate RenderTo(
      scene: Scene, size: SizeRenderer, children: seq<nat>, active: set<nat>, pieces: seq<Bytes>)
    requires Ready(scene)
  {
    |pieces| == |children| && forall n: nat :: PieceAt(scene, size, children, active, pieces, n)
  }

  predicate PatternAt(pattern: Bytes, pad: Bytes, i: nat) {
    && (i < |pad| && i < |pattern| ==> pad[i] == pattern[i])
    && (|pattern| <= i < |pad| ==> pad[i] == pad[i - |pattern|])
  }

  /** Between one byte and a full modulus of the pattern, over and over, which makes the block a multiple of it. */
  ghost predicate Pads(alignment: Alignment, content: Bytes, pad: Bytes) {
    && |content + pad| % alignment.modulus == 0 && 0 < |pad| <= alignment.modulus
    && forall i: nat :: PatternAt(alignment.pattern, pad, i)
  }

  function Fitting(bytes: Bytes, budget: nat): Result<Bytes> {
    if |bytes| <= budget then Ok(bytes) else Err(Limit)
  }

  /**
   A block renders to its children's bytes in order, followed by its padding if it is aligned, within the byte budget,
   and fails when a child fails.
   */
  ghost predicate BlockMeans(
      scene: Scene, size: SizeRenderer, block: Block, children: seq<nat>, active: set<nat>, r: Result<Bytes>)
    requires Ready(scene)
  {
    && (r.Ok? ==> exists pieces :: RenderTo(scene, size, children, active, pieces))
    && forall pieces :: RenderTo(scene, size, children, active, pieces) ==>
         PiecesMean(block, pieces, scene.request.maxBytes, r)
  }

  ghost predicate PiecesMean(block: Block, pieces: seq<Bytes>, budget: nat, r: Result<Bytes>) {
    match block.alignment
    case None => r == Fitting(Concat(pieces), budget)
    case Some(alignment) =>
      && (exists pad :: Pads(alignment, Concat(pieces), pad))
      && forall pad :: Pads(alignment, Concat(pieces), pad) ==> r == Fitting(Concat(pieces) + pad, budget)
  }

  /** The padding of the program is the one padding that fits the description. */
  lemma {:induction false} PaddingPads(alignment: Alignment, content: Bytes)
    ensures Pads(alignment, content, Padding(alignment.pattern, PaddingLength(alignment.modulus, |content|)))
  {
    var m, n := alignment.modulus, |content|;
    var pattern, length := alignment.pattern, PaddingLength(m, n);
    var pad := Padding(pattern, length);
    var q := n / m;
    assert n == q * m + n % m;
    assert n + length == (q + 1) * m;
    DropMultiple(0, q + 1, m);
    forall i: nat ensures PatternAt(pattern, pad, i) {
      if i < |pattern| {
        Divides(i, |pattern|, 0, i);
      } else if i < length {
        DropMultiple(i - |pattern|, 1, |pattern|);
      }
    }
  }

  lemma {:induction false} PaddingIsUnique(alignment: Alignment, content: Bytes, a: Bytes, b: Bytes)
    requires Pads(alignment, content, a) && Pads(alignment, content, b)
    ensures a == b
  {
    SameResidue(|content|, |a|, |b|, alignment.modulus);
    forall i: nat | i < |a| ensures a[i] == b[i] {
      SamePattern(alignment.pattern, a, b, i);
    }
  }

  lemma {:induction false} SameResidue(n: nat, a: nat, b: nat, m: nat)
    requires 0 < a <= m && 0 < b <= m && (n + a) % m == 0 && (n + b) % m == 0
    ensures a == b
  {
    if a < b {
      var p, _ := QuotientRemainder(n + a, m);
      Divides(n + b, m, p, b - a);
    } else if b < a {
      var p, _ := QuotientRemainder(n + b, m);
      Divides(n + a, m, p, a - b);
    }
  }

  lemma {:induction false} SamePattern(pattern: Bytes, a: Bytes, b: Bytes, i: nat)
    requires |pattern| > 0 && |a| == |b| && i < |a|
    requires forall k: nat :: PatternAt(pattern, a, k)
    requires forall k: nat :: PatternAt(pattern, b, k)
    ensures a[i] == b[i]
    decreases i
  {
    assert PatternAt(pattern, a, i) && PatternAt(pattern, b, i);
    if i >= |pattern| {
      SamePattern(pattern, a, b, i - |pattern|);
    }
  }

  /** The children rendered so far and those still ahead. */
  lemma {:induction false} ChildrenMean(
      scene: Scene, size: SizeRenderer, i: nat, active: set<nat>, k: nat, done: seq<Token>, pieces: seq<Bytes>)
    requires Ready(scene) && i < |scene.request.entries| && scene.request.entries[i].kind.Container?
    requires k <= |scene.request.entries[i].kind.children| == |pieces|
    requires RenderTo(scene, size, scene.request.entries[i].kind.children, active, pieces)
    requires Flatten(done) == Concat(pieces[..k]) && |Flatten(done)| <= scene.request.maxBytes
    ensures var r := EmitChildren(scene, size, i, k, active, done);
            && (r.Ok? <==> |Concat(pieces)| <= scene.request.maxBytes) && (r.Err? ==> r.error == Limit)
            && (r.Ok? ==> Flatten(r.value) == Concat(pieces))
    decreases |pieces| - k
  {
    var request, children := scene.request, scene.request.entries[i].kind.children;
    if k == |children| {
      assert pieces[..k] == pieces;
    } else {
      assert EntryOk(request, i) && Descends(request, StructuralRank(request), i, children[k]);
      assert PieceAt(scene, size, children, active, pieces, k);
      var tokens := Emit(scene, size, children[k], active).value;
      assert pieces[..k + 1] == pieces[..k] + [pieces[k]];
      ConcatPush(pieces[..k], pieces[k]);
      ConcatGrows(pieces, k + 1);
      if |Flatten(tokens)| <= request.maxBytes - |Flatten(done)| {
        FlattenAppend(done, tokens);
        ChildrenMean(scene, size, i, active, k + 1, done + tokens, pieces);
      }
    }
  }

  lemma {:induction false} ConcatGrows(pieces: seq<Bytes>, k: nat)
    requires k <= |pieces|
    ensures |Concat(pieces[..k])| <= |Concat(pieces)|
    decreases |pieces| - k
  {
    if k == |pieces| {
      assert pieces[..k] == pieces;
    } else {
      assert pieces[..k + 1] == pieces[..k] + [pieces[k]];
      ConcatPush(pieces[..k], pieces[k]);
      ConcatGrows(pieces, k + 1);
    }
  }

  /** A block that renders has children that render. */
  lemma {:induction false} ChildrenRendered(
      scene: Scene, size: SizeRenderer, i: nat, active: set<nat>, k: nat, done: seq<Token>) returns (pieces: seq<Bytes>)
    requires Ready(scene) && i < |scene.request.entries| && scene.request.entries[i].kind.Container?
    requires k <= |scene.request.entries[i].kind.children|
    requires EmitChildren(scene, size, i, k, active, done).Ok?
    ensures RenderTo(scene, size, scene.request.entries[i].kind.children[k..], active, pieces)
    decreases |scene.request.entries[i].kind.children| - k
  {
    var request, children := scene.request, scene.request.entries[i].kind.children;
    if k == |children| {
      return [];
    }
    assert EntryOk(request, i) && Descends(request, StructuralRank(request), i, children[k]);
    var tokens := Emit(scene, size, children[k], active).value;
    var rest := ChildrenRendered(scene, size, i, active, k + 1, done + tokens);
    pieces := [Flatten(tokens)] + rest;
    forall n: nat ensures PieceAt(scene, size, children[k..], active, pieces, n) {
      if 0 < n < |pieces| {
        assert PieceAt(scene, size, children[k + 1..], active, rest, n - 1);
        assert children[k..][n] == children[k + 1..][n - 1];
      }
    }
  }

  /** A visible block that is not replaced means its children and its padding. */
  lemma {:induction false} BlockRenders(scene: Scene, size: SizeRenderer, block: Block, i: nat, active: set<nat>)
    requires Ready(scene) && i < |scene.request.entries| && scene.request.entries[i].kind.Container?
    requires scene.request.entries[i].alignment == block.alignment
    requires Visible(scene, i) == Ok(true) && Lookup(scene.replacements, i).None?
    ensures var children := scene.request.entries[i].kind.children;
            BlockMeans(scene, size, block, children, active, Render(scene, size, i, active))
  {
    var children, r := scene.request.entries[i].kind.children, Render(scene, size, i, active);
    if r.Ok? {
      var pieces := ChildrenRendered(scene, size, i, active, 0, []);
      assert children[0..] == children;
    }
    forall pieces | RenderTo(scene, size, children, active, pieces)
      ensures PiecesMean(block, pieces, scene.request.maxBytes, r)
    {
      assert Flatten([]) == [] && pieces[..0] == [];
      ChildrenMean(scene, size, i, active, 0, [], pieces);
      if block.alignment.Some? {
        AlignedMeans(scene, size, block, i, active, pieces);
      }
    }
  }

  lemma {:induction false} AlignedMeans(
      scene: Scene, size: SizeRenderer, block: Block, i: nat, active: set<nat>, pieces: seq<Bytes>)
    requires Ready(scene) && i < |scene.request.entries| && scene.request.entries[i].kind.Container?
    requires scene.request.entries[i].alignment == block.alignment && block.alignment.Some?
    requires Visible(scene, i) == Ok(true) && Lookup(scene.replacements, i).None?
    requires var r := EmitChildren(scene, size, i, 0, active, []);
             && (r.Ok? <==> |Concat(pieces)| <= scene.request.maxBytes) && (r.Err? ==> r.error == Limit)
             && (r.Ok? ==> Flatten(r.value) == Concat(pieces))
    ensures PiecesMean(block, pieces, scene.request.maxBytes, Render(scene, size, i, active))
  {
    var alignment, content := block.alignment.value, Concat(pieces);
    var own := Padding(alignment.pattern, PaddingLength(alignment.modulus, |content|));
    PaddingPads(alignment, content);
    forall pad | Pads(alignment, content, pad)
      ensures Render(scene, size, i, active) == Fitting(content + pad, scene.request.maxBytes)
    {
      PaddingIsUnique(alignment, content, pad, own);
      var tokens := EmitChildren(scene, size, i, 0, active, []);
      if tokens.Ok? {
        FlattenAppend(tokens.value, [Token(i, own)]);
        FlattenOne(Token(i, own));
      }
    }
  }

  // ----- repetitions -----

  /** The signed 32-bit number that the first four bytes are in little-endian order. */
  predicate IsCount(bytes: Bytes, n: int) {
    |bytes| >= 4 && -0x8000_0000 <= n < 0x8000_0000 && n % 0x1_0000_0000 == DecodeInteger(bytes[..4], Little)
  }

  /** The count of a repetition: its replacement, else its session variable in a session, else nothing. */
  ghost predicate CountMeans(scene: Scene, j: nat, variable: Option<string>, count: Result<int>) {
    var replaced, vars := Lookup(scene.replacements, j), scene.vars;
    if replaced.Some? then count.Ok? && IsCount(replaced.value, count.value)
    else if variable.None? || vars.None? then count == Ok(0)
    else if variable.value !in vars.value then count == Err(Invalid(MissingVariable))
    else if |vars.value[variable.value]| < 4 then count == Err(Invalid(ShortVariable))
    else count.Ok? && IsCount(vars.value[variable.value], count.value)
  }

  predicate CopyAt(block: Bytes, bytes: Bytes, i: nat) {
    block != [] && i < |bytes| ==> bytes[i] == block[i % |block|]
  }

  /** That many copies, one after the other; none for a count that is not positive. */
  ghost predicate IsCopies(block: Bytes, n: int, bytes: Bytes) {
    && |bytes| == (if n > 0 then |block| * n else 0)
    && forall i: nat :: CopyAt(block, bytes, i)
  }

  ghost predicate RepeatMeans(scene: Scene, j: nat, variable: Option<string>, block: Result<Bytes>, r: Result<Bytes>) {
    && (exists count :: CountMeans(scene, j, variable, count))
    && forall count :: CountMeans(scene, j, variable, count) ==> CopiesMean(count, block, scene.request.maxBytes, r)
  }

  /** The copies within the byte budget; a count or a block that fails makes the repetition fail. */
  ghost predicate CopiesMean(count: Result<int>, block: Result<Bytes>, budget: nat, r: Result<Bytes>) {
    if count.Err? then r == Err(count.error)
    else if block.Err? then r == Err(block.error)
    else if count.value > 0 && |block.value| * count.value > budget then r == Err(Limit)
    else r.Ok? && IsCopies(block.value, count.value, r.value)
  }

  lemma {:induction false} LittleBounded(bytes: Bytes)
    ensures LittleValue(bytes) < Power(256, |bytes|)
  {
    if bytes != [] {
      LittleBounded(bytes[1..]);
    }
  }

  lemma {:induction false} CountIsSigned(bytes: Bytes, n: int)
    requires |bytes| >= 4
    ensures IsCount(bytes, n) <==> n == DecodeRepeat(bytes)
  {
    var value: int := LittleValue(bytes[..4]);
    LittleBounded(bytes[..4]);
    assert Power(256, 4) == 0x1_0000_0000;
    assert DecodeRepeat(bytes) == if value < 0x8000_0000 then value else value - 0x1_0000_0000;
  }

  lemma {:induction false} CountIsUnique(scene: Scene, j: nat, count: Result<int>)
    requires j < |scene.request.entries| && scene.request.entries[j].kind.Repetition? && RepeatReplaced(scene, j)
    ensures CountMeans(scene, j, scene.request.entries[j].kind.variable, count) <==> count == RepeatCount(scene, j)
  {
    var replaced, variable := Lookup(scene.replacements, j), scene.request.entries[j].kind.variable;
    if replaced.Some? {
      CountIsSigned(replaced.value, if count.Ok? then count.value else 0);
      CountIsSigned(replaced.value, DecodeRepeat(replaced.value));
    } else if variable.Some? && scene.vars.Some? && variable.value in scene.vars.value
              && |scene.vars.value[variable.value]| >= 4 {
      CountIsSigned(scene.vars.value[variable.value], if count.Ok? then count.value else 0);
    }
  }

  lemma {:induction false} TimesAreCopies(block: Bytes, n: int)
    ensures IsCopies(block, n, BytesTimes(block, n))
    decreases if n < 0 then 0 else n
  {
    if n > 0 {
      var rest := BytesTimes(block, n - 1);
      TimesAreCopies(block, n - 1);
      BytesTimesLength(block, n);
      forall i: nat ensures CopyAt(block, BytesTimes(block, n), i) {
        if block != [] && i < |block| {
          Divides(i, |block|, 0, i);
        } else if block != [] && i < |block| + |rest| {
          DropMultiple(i - |block|, 1, |block|);
          assert CopyAt(block, rest, i - |block|);
        }
      }
    }
  }

  lemma {:induction false} BudgetProduct(length: nat, count: int, budget: nat)
    requires length > 0
    ensures count > budget / length <==> length * count > budget
  {
    var q, r := QuotientRemainder(budget, length);
    if count > q {
      MulLe(q + 1, count, length);
      Distribute(q, 1, length);
    } else {
      MulLe(count, q, length);
    }
    assert count * length == length * count;
  }

  /** A visible repetition means copies of its target. */
  lemma {:induction false} RepeatRenders(scene: Scene, size: SizeRenderer, j: nat, target: nat, active: set<nat>)
    requires Ready(scene) && j < |scene.request.entries| && scene.request.entries[j].kind.Repetition?
    requires Visible(scene, j) == Ok(true) && target < |scene.request.entries|
    requires scene.request.Resolve(scene.request.entries[j].kind.target) == Ok(target)
    ensures RepeatMeans(scene, j, scene.request.entries[j].kind.variable, Render(scene, size, target, active),
                        Render(scene, size, j, active))
  {
    assert RepeatReplaced(scene, j);
    var count := RepeatCount(scene, j);
    forall other ensures CountMeans(scene, j, scene.request.entries[j].kind.variable, other) <==> other == count {
      CountIsUnique(scene, j, other);
    }
    assert CountMeans(scene, j, scene.request.entries[j].kind.variable, count);
    CopiesRender(scene, size, j, target, active);
  }

  lemma {:induction false} CopiesRender(scene: Scene, size: SizeRenderer, j: nat, target: nat, active: set<nat>)
    requires Ready(scene) && j < |scene.request.entries| && scene.request.entries[j].kind.Repetition?
    requires Visible(scene, j) == Ok(true) && target < |scene.request.entries| && RepeatReplaced(scene, j)
    requires scene.request.Resolve(scene.request.entries[j].kind.target) == Ok(target)
    ensures CopiesMean(RepeatCount(scene, j), Render(scene, size, target, active), scene.request.maxBytes,
                       Render(scene, size, j, active))
  {
    assert Descends(scene.request, StructuralRank(scene.request), j, target);
    var count, tokens := RepeatCount(scene, j), Emit(scene, size, target, active);
    if count.Ok? && tokens.Ok? {
      var block := Flatten(tokens.value);
      FlattenTimes(tokens.value, count.value);
      TimesAreCopies(block, count.value);
      if block != [] {
        BudgetProduct(|block|, count.value, scene.request.maxBytes);
      }
    }
  }

  // ----- all nodes -----

  /** What a visible node that is not replaced renders to. */
  ghost predicate NodeMeans(
      scene: Scene, size: SizeRenderer, node: Node, j: nat, active: set<nat>, r: Result<Bytes>)
    requires Ready(scene) && j < |scene.request.entries|
  {
    match node
    case Leaf(_, field) => r == Fitting(field.value, scene.request.maxBytes)
    case Bound(_, source, field) =>
      && (scene.vars.None? ==> r == Ok(field.value))
      && (scene.vars.Some? && source in scene.vars.value ==> r == Ok(scene.vars.value[source]))
      && (scene.vars.Some? && source !in scene.vars.value ==> r == Err(Invalid(MissingVariable)))
    case Sized(_, spec) => r == size(spec)
    case Checksummed(_, spec) => TargetMeans(scene, size, node, j, active, r)
    case Mirrored(_, target) => TargetMeans(scene, size, node, j, active, r)
    case Repeat(_, target, _, _, _, variable) =>
      && target in scene.request.paths
      && RepeatMeans(scene, j, variable, Render(scene, size, scene.request.paths[target], active), r)
    case Nested(block) => BlockMeans(scene, size, block, scene.request.entries[j].kind.Children(), active, r)
  }

  /**
   A checksum carries the digest of its target, rendered with the checksum under way, and is zero where it is itself
   under way; a mirror is its target, and nothing where it is under way.
   */
  ghost predicate TargetMeans(
      scene: Scene, size: SizeRenderer, node: Node, j: nat, active: set<nat>, r: Result<Bytes>)
    requires Ready(scene) && (node.Checksummed? || node.Mirrored?)
  {
    var path := if node.Checksummed? then node.checksum.target else node.target;
    if j in active then
      r.Ok? && |r.value| == (if node.Checksummed? then node.checksum.algorithm.Length() else 0) && AllZero(r.value)
    else if path !in scene.request.paths then r == Err(Invalid(UnknownPath))
    else
      var target := Render(scene, size, scene.request.paths[path], active + {j});
      match node
      case Checksummed(_, spec) =>
        && (target.Err? ==> r == target)
        && (target.Ok? ==> r.Ok? && CarriesDigest(spec, r.value, scene.digest(spec.algorithm, target.value)))
      case _ => r == target
  }

  predicate AllZero(bytes: Bytes) {
    forall b <- bytes :: b == 0
  }

  lemma {:induction false} ChecksumRenders(scene: Scene, size: SizeRenderer, node: Node, j: nat, active: set<nat>)
    requires Ready(scene) && j < |scene.request.entries| && node.Checksummed?
    requires scene.request.entries[j].kind == ComputedChecksum(node.checksum)
    requires Visible(scene, j) == Ok(true) && Lookup(scene.replacements, j).None?
    ensures TargetMeans(scene, size, node, j, active, Render(scene, size, j, active))
  {
    var spec, request := node.checksum, scene.request;
    if j in active {
      FlattenOne(Token(j, Zeros(spec.algorithm.Length())));
    } else if spec.target in request.paths {
      var tokens := Emit(scene, size, request.paths[spec.target], active + {j});
      if tokens.Ok? {
        FlattenOne(Token(j, RenderChecksum(scene.digest, spec, Flatten(tokens.value))));
        ChecksumCarriesDigest(scene.digest, spec, Flatten(tokens.value));
      }
    }
  }

  lemma {:induction false} FieldRenders(scene: Scene, size: SizeRenderer, node: Node, j: nat, active: set<nat>)
    requires Ready(scene) && j < |scene.request.entries| && Describes(scene.request.entries[j], node)
    requires node.Leaf? || node.Bound? || node.Sized? || node.Mirrored?
    requires Visible(scene, j) == Ok(true) && Lookup(scene.replacements, j).None?
    ensures NodeMeans(scene, size, node, j, active, Render(scene, size, j, active))
  {
    var tokens := Emit(scene, size, j, active);
    if tokens.Ok? && !node.Mirrored? {
      FlattenOne(tokens.value[0]);
    }
  }

  /**
   From the definition to the bytes: what every node renders to, in every scene and whatever is under way. A hidden
   node renders to nothing, and what replaces a node other than a repetition stands for it.
   */
  lemma {:induction false} NodeRenders(scene: Scene, root: Block, size: SizeRenderer, j: nat, active: set<nat>)
    requires Assembled(scene.request, root) && Ready(scene) && j < |scene.request.entries|
    ensures var r, visible := Render(scene, size, j, active), Visible(scene, j);
            var replaced, node := Lookup(scene.replacements, j), NodeAt(root, j);
            && (visible.Err? ==> r == Err(visible.error))
            && (visible == Ok(false) ==> r == Ok([]))
            && (visible == Ok(true) && replaced.Some? && !node.Repeat? ==>
                  r == Fitting(replaced.value, scene.request.maxBytes))
            && (visible == Ok(true) && (replaced.None? || node.Repeat?) ==>
                  NodeMeans(scene, size, node, j, active, r))
  {
    var entry, node := scene.request.entries[j], NodeAt(root, j);
    EntryOfNode(scene.request.entries, root, j);
    if Visible(scene, j) == Ok(true) {
      if node.Repeat? {
        assert ReferencesOk(scene.request, j);
        RepeatRenders(scene, size, j, scene.request.paths[node.target], active);
      } else if Lookup(scene.replacements, j).Some? {
        FlattenOne(Token(j, Lookup(scene.replacements, j).value));
      } else if node.Nested? {
        BlockRenders(scene, size, node.block, j, active);
      } else if node.Checksummed? {
        ChecksumRenders(scene, size, node, j, active);
      } else {
        FieldRenders(scene, size, node, j, active);
      }
    }
  }
}
