/** Rendering an entry, as tokens that remember their entries and as the buffer-filling recursion. */
module Rendering {
  import opened Wrappers
  import opened Integers
  import opened Model

  // ----- why rendering ends -----

  /** Containers render their children, and a repetition its target block. */
  predicate StructuralEdge(request: CompiledRequest, i: nat, j: nat) {
    && i < |request.entries|
    && match request.entries[i].kind
       case Container(children) => j in children
       case Repetition(target, _, _, _, _) => request.Resolves(target, j)
       case _ => false
  }

  ghost predicate Descends(request: CompiledRequest, rank: seq<nat>, i: nat, j: nat) {
    i < |rank| && j < |rank| && StructuralEdge(request, i, j) ==> rank[j] < rank[i]
  }

  ghost predicate IsStructuralRank(request: CompiledRequest, rank: seq<nat>) {
    |rank| == |request.entries| && forall i: nat, j: nat :: Descends(request, rank, i, j)
  }

  /** The containment and repetition edges are well-founded; every assembled table is structured. */
  ghost predicate Structured(request: CompiledRequest) {
    WellFormed(request) && exists rank :: IsStructuralRank(request, rank)
  }

  ghost function StructuralRank(request: CompiledRequest): (rank: seq<nat>)
    requires Structured(request)
    ensures IsStructuralRank(request, rank)
  {
    var rank :| IsStructuralRank(request, rank);
    rank
  }

  ghost predicate Ready(scene: Scene) {
    Renderable(scene) && Structured(scene.request)
  }

  /** Entries whose rendering is not under way; checksums and mirrors become active before recursing. */
  ghost function Idle(request: CompiledRequest, active: set<nat>): set<nat> {
    set i | 0 <= i < |request.entries| && i !in active
  }

  // ----- tokens -----

  /** A run of output bytes and the entry that produced it. */
  datatype Token = Token(entry: nat, bytes: Bytes)

  function Flatten(tokens: seq<Token>): Bytes {
    if tokens == [] then [] else tokens[0].bytes + Flatten(tokens[1..])
  }

  function Times(tokens: seq<Token>, count: int): seq<Token>
    decreases if count < 0 then 0 else count
  {
    if count <= 0 then [] else tokens + Times(tokens, count - 1)
  }

  function BytesTimes(bytes: Bytes, count: int): Bytes
    decreases if count < 0 then 0 else count
  {
    if count <= 0 then [] else bytes + BytesTimes(bytes, count - 1)
  }

  function Padding(pattern: Bytes, n: nat): (r: Bytes)
    requires |pattern| > 0
    ensures |r| == n
  {
    seq(n, i requires 0 <= i < n => pattern[i % |pattern|])
  }

  /** A full modulus is appended even to an already aligned block. */
  function PaddingLength(modulus: nat, length: int): nat
    requires modulus > 0
  {
    modulus - TruncatedMod(length, modulus)
  }

  type SizeRenderer = SizeSpec -> Result<Bytes>

  /** The tokens of an entry, with `size` rendering the computed sizes. */
  function Emit(scene: Scene, size: SizeRenderer, i: nat, active: set<nat>): Result<seq<Token>>
    requires Ready(scene) && i < |scene.request.entries|
    decreases Idle(scene.request, active), StructuralRank(scene.request)[i], 1, 0
  {
    var request := scene.request;
    var visible :- Visible(scene, i);
    if !visible then Ok([])
    else if !request.entries[i].kind.Repetition? && Lookup(scene.replacements, i).Some? then
      var value := Lookup(scene.replacements, i).value;
      if |value| > request.maxBytes then Err(Limit) else Ok([Token(i, value)])
    else
      match request.entries[i].kind
      case ComputedChecksum(spec) =>
        if i in active then Ok([Token(i, Zeros(spec.algorithm.Length()))])
        else
          var target :- request.Resolve(spec.target);
          assert i in Idle(request, active);
          var tokens :- Emit(scene, size, target, active + {i});
          Ok([Token(i, RenderChecksum(scene.digest, spec, Flatten(tokens)))])
      case ComputedSize(spec) =>
        var bytes :- size(spec);
        Ok([Token(i, bytes)])
      case Mirror(path) =>
        if i in active then Ok([])
        else
          var target :- request.Resolve(path);
          assert i in Idle(request, active);
          Emit(scene, size, target, active + {i})
      case Repetition(path, _, _, _, _) =>
        assert RepeatReplaced(scene, i);
        var count :- RepeatCount(scene, i);
        var target :- request.Resolve(path);
        assert Descends(request, StructuralRank(request), i, target);
        var tokens :- Emit(scene, size, target, active);
        var length := |Flatten(tokens)|;
        if length != 0 && count > request.maxBytes / length then Err(Limit) else Ok(Times(tokens, count))
      case Dynamic(field, source) =>
        var bytes :- BoundValue(field, source, scene.vars);
        Ok([Token(i, bytes)])
      case Atom(field) =>
        if |field.value| > request.maxBytes then Err(Limit) else Ok([Token(i, field.value)])
      case Container(_) =>
        var tokens :- EmitChildren(scene, size, i, 0, active, []);
        match request.entries[i].alignment
        case None => Ok(tokens)
        case Some(alignment) =>
          var length := |Flatten(tokens)|;
          var padding := PaddingLength(alignment.modulus, length);
          if padding > request.maxBytes - length then Err(Limit)
          else Ok(tokens + [Token(i, Padding(alignment.pattern, padding))])
  }

  /** The children of container `i` from number `k` on, after `done`, within the byte budget. */
  function EmitChildren(scene: Scene, size: SizeRenderer, i: nat, k: nat, active: set<nat>, done: seq<Token>)
      : Result<seq<Token>>
    requires Ready(scene) && i < |scene.request.entries|
    requires scene.request.entries[i].kind.Container? && k <= |scene.request.entries[i].kind.children|
    decreases Idle(scene.request, active), StructuralRank(scene.request)[i], 0,
      |scene.request.entries[i].kind.children| - k
  {
    var request := scene.request;
    var children := request.entries[i].kind.children;
    if k == |children| then Ok(done)
    else
      assert EntryOk(request, i);
      assert Descends(request, StructuralRank(request), i, children[k]);
      var tokens :- Emit(scene, size, children[k], active);
      if |Flatten(tokens)| > request.maxBytes - |Flatten(done)| then Err(Limit)
      else EmitChildren(scene, size, i, k + 1, active, done + tokens)
  }

  /** The rendered bytes of an entry. */
  function Render(scene: Scene, size: SizeRenderer, i: nat, active: set<nat>): Result<Bytes>
    requires Ready(scene) && i < |scene.request.entries|
  {
    var tokens :- Emit(scene, size, i, active);
    Ok(Flatten(tokens))
  }

  lemma {:induction false} FlattenAppend(a: seq<Token>, b: seq<Token>)
    ensures Flatten(a + b) == Flatten(a) + Flatten(b)
  {
    if a == [] {
      assert a + b == b;
    } else {
      assert (a + b)[1..] == a[1..] + b;
      FlattenAppend(a[1..], b);
    }
  }

  lemma {:induction false} FlattenTimes(tokens: seq<Token>, count: int)
    ensures Flatten(Times(tokens, count)) == BytesTimes(Flatten(tokens), count)
    decreases if count < 0 then 0 else count
  {
    if count > 0 {
      FlattenTimes(tokens, count - 1);
      FlattenAppend(tokens, Times(tokens, count - 1));
    }
  }

  lemma {:induction false} BytesTimesLength(bytes: Bytes, count: nat)
    ensures |BytesTimes(bytes, count)| == |bytes| * count
  {
    if count > 0 {
      BytesTimesLength(bytes, count - 1);
      assert |bytes| * count == |bytes| + |bytes| * (count - 1);
    }
  }

  lemma {:induction false} FlattenOne(token: Token)
    ensures Flatten([token]) == token.bytes
  {
    assert [token][1..] == [];
    assert Flatten([token]) == token.bytes + Flatten([]);
  }

  /** Rendering in the source's form: one recursion that fills an output buffer. */
  method RenderNode(scene: Scene, size: SizeRenderer, i: nat, active: set<nat>) returns (r: Result<Bytes>)
    requires Ready(scene) && i < |scene.request.entries|
    ensures r == Render(scene, size, i, active)
    decreases Idle(scene.request, active), StructuralRank(scene.request)[i]
  {
    var request := scene.request;
    var visible := IsVisible(scene, i);
    if visible.Err? {
      return Err(visible.error);
    }
    if !visible.value {
      return Ok([]);
    }
    if !request.entries[i].kind.Repetition? && Lookup(scene.replacements, i).Some? {
      var value := Lookup(scene.replacements, i).value;
      FlattenOne(Token(i, value));
      return if |value| > request.maxBytes then Err(Limit) else Ok(value);
    }
    match request.entries[i].kind
    case ComputedChecksum(spec) =>
      r := RenderChecksumNode(scene, size, i, active);
    case ComputedSize(spec) =>
      r := size(spec);
      if r.Ok? {
        FlattenOne(Token(i, r.value));
      }
    case Mirror(path) =>
      if i in active {
        return Ok([]);
      }
      var target :- request.Resolve(path);
      assert i in Idle(request, active);
      r := RenderNode(scene, size, target, active + {i});
    case Repetition(path, _, _, _, _) =>
      assert RepeatReplaced(scene, i);
      var count :- RepeatCount(scene, i);
      var target :- request.Resolve(path);
      assert Descends(request, StructuralRank(request), i, target);
      var bytes :- RenderNode(scene, size, target, active);
      if |bytes| != 0 && count > request.maxBytes / |bytes| {
        return Err(Limit);
      }
      FlattenTimes(Emit(scene, size, target, active).value, count);
      r := Ok(BytesTimes(bytes, count));
    case Dynamic(field, source) =>
      r := BoundValue(field, source, scene.vars);
      if r.Ok? {
        FlattenOne(Token(i, r.value));
      }
    case Atom(field) =>
      FlattenOne(Token(i, field.value));
      r := if |field.value| > request.maxBytes then Err(Limit) else Ok(field.value);
    case Container(_) =>
      r := RenderContainer(scene, size, i, active);
  }

  method RenderChecksumNode(scene: Scene, size: SizeRenderer, i: nat, active: set<nat>) returns (r: Result<Bytes>)
    requires Ready(scene) && i < |scene.request.entries|
    requires scene.request.entries[i].kind.ComputedChecksum?
    requires Visible(scene, i) == Ok(true) && Lookup(scene.replacements, i).None?
    ensures r == Render(scene, size, i, active)
    decreases Idle(scene.request, active), StructuralRank(scene.request)[i], 0
  {
    var request, spec := scene.request, scene.request.entries[i].kind.checksum;
    if i in active {
      FlattenOne(Token(i, Zeros(spec.algorithm.Length())));
      return Ok(Zeros(spec.algorithm.Length()));
    }
    var target :- request.Resolve(spec.target);
    assert i in Idle(request, active);
    var bytes :- RenderNode(scene, size, target, active + {i});
    FlattenOne(Token(i, RenderChecksum(scene.digest, spec, bytes)));
    var field := RenderDigest(scene.digest, spec, bytes);
    return Ok(field);
  }

  /** The digest as the node shows it; a big-endian field swaps its words. */
  method RenderDigest(digest: Digest, spec: ChecksumSpec, bytes: Bytes) returns (field: Bytes)
    ensures field == RenderChecksum(digest, spec, bytes)
  {
    field := digest(spec.algorithm, bytes);
    if spec.endian.Big? {
      field := SwapAll(field);
    }
    field := field[..spec.algorithm.Length()];
  }

  method SwapAll(standard: Bytes) returns (swapped: Bytes)
    ensures swapped == SwapWords(standard)
  {
    swapped := [];
    for w := 0 to |standard| / 4
      invariant SwapWords(standard) == swapped + SwapWords(standard[4 * w..])
    {
      SwapNext(standard, w);
      ghost var before, word, rest := swapped, standard[4 * w..], SwapWords(standard[4 * (w + 1)..]);
      swapped := SwapWord(swapped, standard, w);
      assert before + ([word[3], word[2], word[1], word[0]] + rest) == swapped + rest;
    }
  }

  lemma {:induction false} SwapNext(standard: Bytes, w: nat)
    requires 4 * w + 3 < |standard|
    ensures var word := standard[4 * w..];
            SwapWords(word) == [word[3], word[2], word[1], word[0]] + SwapWords(standard[4 * (w + 1)..])
  {
    assert standard[4 * w..][4..] == standard[4 * (w + 1)..];
  }

  /** Push the bytes of one word from its end. */
  method SwapWord(before: Bytes, standard: Bytes, w: nat) returns (swapped: Bytes)
    requires 4 * w + 3 < |standard|
    ensures var word := standard[4 * w..]; swapped == before + [word[3], word[2], word[1], word[0]]
  {
    ghost var word := standard[4 * w..];
    ghost var reversed := [word[3], word[2], word[1], word[0]];
    swapped := before;
    for b := 0 to 4
      invariant swapped == before + reversed[..b]
    {
      assert standard[w * 4 + (3 - b)] == word[3 - b] == reversed[b];
      swapped := swapped + [standard[w * 4 + (3 - b)]];
    }
  }

  /** The padding loop: the pattern over and over. */
  method AppendPadding(output: Bytes, pattern: Bytes, n: nat) returns (padded: Bytes)
    requires |pattern| > 0
    ensures padded == output + Padding(pattern, n)
  {
    padded := output;
    for i := 0 to n
      invariant padded == output + Padding(pattern, n)[..i]
    {
      padded := padded + [pattern[i % |pattern|]];
    }
  }

  method RenderContainer(scene: Scene, size: SizeRenderer, i: nat, active: set<nat>) returns (r: Result<Bytes>)
    requires Ready(scene) && i < |scene.request.entries|
    requires scene.request.entries[i].kind.Container?
    requires Visible(scene, i) == Ok(true) && Lookup(scene.replacements, i).None?
    ensures r == Render(scene, size, i, active)
    decreases Idle(scene.request, active), StructuralRank(scene.request)[i], 0
  {
    var request, children := scene.request, scene.request.entries[i].kind.children;
    var output: Bytes := [];
    ghost var done: seq<Token> := [];
    for k := 0 to |children|
      invariant output == Flatten(done)
      invariant EmitChildren(scene, size, i, 0, active, []) == EmitChildren(scene, size, i, k, active, done)
    {
      assert EntryOk(request, i);
      assert Descends(request, StructuralRank(request), i, children[k]);
      var bytes :- RenderNode(scene, size, children[k], active);
      if |bytes| > request.maxBytes - |output| {
        return Err(Limit);
      }
      FlattenAppend(done, Emit(scene, size, children[k], active).value);
      output := output + bytes;
      done := done + Emit(scene, size, children[k], active).value;
    }
    if request.entries[i].alignment.Some? {
      var alignment := request.entries[i].alignment.value;
      var padding := PaddingLength(alignment.modulus, |output|);
      if padding > request.maxBytes - |output| {
        return Err(Limit);
      }
      FlattenAppend(done, [Token(i, Padding(alignment.pattern, padding))]);
      FlattenOne(Token(i, Padding(alignment.pattern, padding)));
      output := AppendPadding(output, alignment.pattern, padding);
    }
    return Ok(output);
  }
}
