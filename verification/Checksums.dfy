/** Each checksum in a payload is the digest of its target with only its own occurrences zeroed. */
module Checksums {
  import opened Wrappers
  import opened Integers
  import opened Model
  import opened Rendering
  import opened Dependencies
  import Measuring

  /** The tokens with the bytes of entry `c` zeroed. */
  function ZeroField(c: nat, tokens: seq<Token>): (r: seq<Token>)
    ensures |r| == |tokens|
  {
    if tokens == [] then []
    else [if tokens[0].entry == c then Token(c, Zeros(|tokens[0].bytes|)) else tokens[0]] + ZeroField(c, tokens[1..])
  }

  function ZeroResult(c: nat, r: Result<seq<Token>>): Result<seq<Token>> {
    match r
    case Ok(tokens) => Ok(ZeroField(c, tokens))
    case Err(error) => Err(error)
  }

  lemma {:induction false} ZeroAppend(c: nat, a: seq<Token>, b: seq<Token>)
    ensures ZeroField(c, a + b) == ZeroField(c, a) + ZeroField(c, b)
  {
    if a == [] {
      assert a + b == b;
    } else {
      assert (a + b)[1..] == a[1..] + b;
      ZeroAppend(c, a[1..], b);
    }
  }

  lemma {:induction false} ZeroTimes(c: nat, tokens: seq<Token>, count: int)
    ensures ZeroField(c, Times(tokens, count)) == Times(ZeroField(c, tokens), count)
    decreases if count < 0 then 0 else count
  {
    if count > 0 {
      ZeroTimes(c, tokens, count - 1);
      ZeroAppend(c, tokens, Times(tokens, count - 1));
    }
  }

  lemma {:induction false} ZeroKeepsLength(c: nat, tokens: seq<Token>)
    ensures |Flatten(ZeroField(c, tokens))| == |Flatten(tokens)|
  {
    if tokens != [] {
      ZeroKeepsLength(c, tokens[1..]);
      assert ZeroField(c, tokens)[1..] == ZeroField(c, tokens[1..]);
    }
  }

  lemma {:induction false} ZeroOne(c: nat, token: Token)
    ensures ZeroField(c, [token]) == [if token.entry == c then Token(c, Zeros(|token.bytes|)) else token]
  {
    assert [token][1..] == [];
    assert ZeroField(c, []) == [];
  }

  // ----- checksums below a rank do not see what is active above it -----

  /** Every checksum that `i` contains has rank below `k`. */
  ghost predicate ReachesBelow(request: CompiledRequest, rank: seq<nat>, i: nat, k: nat)
    requires Structured(request) && i < |request.entries| && |rank| == |request.entries|
  {
    forall d: nat {:trigger Reaches(request, ChecksumFields, i, d)} ::
      d < |rank| && Reaches(request, ChecksumFields, i, d) ==> rank[d] < k
  }

  predicate SameBelow(request: CompiledRequest, rank: seq<nat>, k: nat, a: set<nat>, b: set<nat>, d: nat) {
    d < |rank| && Wanted(request, ChecksumFields, d) && rank[d] < k ==> (d in a <==> d in b)
  }

  ghost predicate AgreeBelow(request: CompiledRequest, rank: seq<nat>, k: nat, a: set<nat>, b: set<nat>) {
    forall d: nat :: SameBelow(request, rank, k, a, b, d)
  }

  lemma {:induction false} ChildReachesBelow(request: CompiledRequest, rank: seq<nat>, i: nat, n: nat, k: nat)
    requires Structured(request) && i < |request.entries| && |rank| == |request.entries|
    requires request.entries[i].kind.Container? && n < |request.entries[i].kind.children|
    requires request.entries[i].kind.children[n] < |request.entries|
    requires ReachesBelow(request, rank, i, k)
    ensures ReachesBelow(request, rank, request.entries[i].kind.children[n], k)
  {
    var child := request.entries[i].kind.children[n];
    forall d: nat | d < |rank| && Reaches(request, ChecksumFields, child, d) ensures rank[d] < k {
      assert Reaches(request, ChecksumFields, i, d);
    }
  }

  /** The target of a checksum contains, besides the checksum itself, only checksums of lower rank. */
  lemma {:induction false} TargetReachesBelow(request: CompiledRequest, rank: seq<nat>, c: nat, target: nat)
    requires Structured(request) && IsDependencyRank(request, ChecksumFields, rank)
    requires Wanted(request, ChecksumFields, c)
    requires request.Resolve(TargetOf(request, ChecksumFields, c)) == Ok(target)
    ensures ReachesBelow(request, rank, target, rank[c] + 1)
    ensures forall d: nat {:trigger Reaches(request, ChecksumFields, target, d)} ::
      d < |rank| && d != c && Reaches(request, ChecksumFields, target, d) ==> rank[d] < rank[c]
  {
    forall d: nat | d < |rank| && d != c && Reaches(request, ChecksumFields, target, d) ensures rank[d] < rank[c] {
      assert DependsOn(request, ChecksumFields, c, d);
      assert DependencyDescends(request, ChecksumFields, rank, c, d);
    }
  }

  /** Rendering below rank `k` only depends on the active checksums below rank `k`. */
  lemma {:induction false} EmitIgnoresHigher(
      scene: Scene, size: SizeRenderer, rank: seq<nat>, k: nat, i: nat, a: set<nat>, b: set<nat>)
    requires Ready(scene) && i < |scene.request.entries| && MirrorFree(scene.request)
    requires IsDependencyRank(scene.request, ChecksumFields, rank)
    requires ReachesBelow(scene.request, rank, i, k) && AgreeBelow(scene.request, rank, k, a, b)
    ensures Emit(scene, size, i, a) == Emit(scene, size, i, b)
    decreases Idle(scene.request, a), StructuralRank(scene.request)[i], 1, 0
  {
    var request := scene.request;
    assert !IsMirror(request, i);
    match request.entries[i].kind
    case ComputedChecksum(spec) =>
      assert Reaches(request, ChecksumFields, i, i);
      assert SameBelow(request, rank, k, a, b, i);
      if i !in a && spec.target in request.paths {
        var target := request.paths[spec.target];
        TargetReachesBelow(request, rank, i, target);
        assert i in Idle(request, a);
        forall d: nat ensures SameBelow(request, rank, k, a + {i}, b + {i}, d) {
          assert SameBelow(request, rank, k, a, b, d);
        }
        EmitIgnoresHigher(scene, size, rank, k, target, a + {i}, b + {i});
      }
    case Repetition(path, _, _, _, _) =>
      if path in request.paths {
        var target := request.paths[path];
        assert Descends(request, StructuralRank(request), i, target);
        forall d: nat | d < |rank| && Reaches(request, ChecksumFields, target, d) ensures rank[d] < k {
          assert Reaches(request, ChecksumFields, i, d);
        }
        EmitIgnoresHigher(scene, size, rank, k, target, a, b);
      }
    case Container(_) => ChildrenIgnoreHigher(scene, size, rank, k, i, 0, a, b, []);
    case _ =>
  }

  lemma {:induction false} ChildrenIgnoreHigher(
      scene: Scene, size: SizeRenderer, rank: seq<nat>, k: nat, i: nat, n: nat, a: set<nat>, b: set<nat>,
      done: seq<Token>)
    requires Ready(scene) && i < |scene.request.entries| && MirrorFree(scene.request)
    requires scene.request.entries[i].kind.Container? && n <= |scene.request.entries[i].kind.children|
    requires IsDependencyRank(scene.request, ChecksumFields, rank)
    requires ReachesBelow(scene.request, rank, i, k) && AgreeBelow(scene.request, rank, k, a, b)
    ensures EmitChildren(scene, size, i, n, a, done) == EmitChildren(scene, size, i, n, b, done)
    decreases Idle(scene.request, a), StructuralRank(scene.request)[i], 0, |scene.request.entries[i].kind.children| - n
  {
    var request, children := scene.request, scene.request.entries[i].kind.children;
    if n < |children| {
      assert EntryOk(request, i);
      assert Descends(request, StructuralRank(request), i, children[n]);
      ChildReachesBelow(request, rank, i, n, k);
      EmitIgnoresHigher(scene, size, rank, k, children[n], a, b);
      var tokens := Emit(scene, size, children[n], a);
      if tokens.Ok? {
        ChildrenIgnoreHigher(scene, size, rank, k, i, n + 1, a, b, done + tokens.value);
      }
    }
  }

  // ----- rendering with `c` active is rendering with `c` zeroed -----

  /** Besides `c` itself, `i` only contains checksums ranked below `c`. */
  ghost predicate WithinReach(request: CompiledRequest, rank: seq<nat>, c: nat, i: nat)
    requires Structured(request) && i < |request.entries| && |rank| == |request.entries| && c < |rank|
  {
    forall d: nat {:trigger Reaches(request, ChecksumFields, i, d)} ::
      d < |rank| && d != c && Reaches(request, ChecksumFields, i, d) ==> rank[d] < rank[c]
  }

  /** An unreplaced checksum field that renders. */
  ghost predicate Computes(scene: Scene, size: SizeRenderer, c: nat)
    requires Ready(scene)
  {
    && Wanted(scene.request, ChecksumFields, c)
    && Lookup(scene.replacements, c).None?
    && Emit(scene, size, c, {}).Ok?
  }

  lemma {:induction false} ActiveMeansZeroed(scene: Scene, size: SizeRenderer, rank: seq<nat>, c: nat, i: nat)
    requires Ready(scene) && i < |scene.request.entries| && MirrorFree(scene.request)
    requires IsDependencyRank(scene.request, ChecksumFields, rank)
    requires Computes(scene, size, c) && WithinReach(scene.request, rank, c, i)
    ensures Emit(scene, size, i, {c}) == ZeroResult(c, Emit(scene, size, i, {}))
    decreases StructuralRank(scene.request)[i], 1, 0
  {
    var request := scene.request;
    assert !IsMirror(request, i);
    var plain := Emit(scene, size, i, {});
    if plain.Ok? && |plain.value| == 1 {
      ZeroOne(c, plain.value[0]);
    }
    if Visible(scene, i) == Ok(true) && (request.entries[i].kind.Repetition? || Lookup(scene.replacements, i).None?) {
      match request.entries[i].kind
      case ComputedChecksum(spec) =>
        if i != c {
          OtherChecksum(scene, size, rank, c, i);
        }
      case Repetition(path, _, _, _, _) => RepetitionZeroed(scene, size, rank, c, i);
      case Container(_) => ContainerZeroed(scene, size, rank, c, i);
      case _ =>
    }
  }

  /** A checksum ranked below `c` does not change when `c` is active. */
  lemma {:induction false} OtherChecksum(scene: Scene, size: SizeRenderer, rank: seq<nat>, c: nat, i: nat)
    requires Ready(scene) && i < |scene.request.entries| && MirrorFree(scene.request)
    requires IsDependencyRank(scene.request, ChecksumFields, rank)
    requires Wanted(scene.request, ChecksumFields, c) && Wanted(scene.request, ChecksumFields, i) && i != c
    requires WithinReach(scene.request, rank, c, i)
    ensures Emit(scene, size, i, {c}) == Emit(scene, size, i, {})
  {
    var request, spec := scene.request, scene.request.entries[i].kind.checksum;
    assert Reaches(request, ChecksumFields, i, i);
    if spec.target in request.paths {
      var target := request.paths[spec.target];
      TargetReachesBelow(request, rank, i, target);
      var with, without := {c} + {i}, {} + {i};
      assert AgreeBelow(request, rank, rank[i] + 1, with, without);
      EmitIgnoresHigher(scene, size, rank, rank[i] + 1, target, with, without);
    }
  }

  lemma {:induction false} RepeatedWithinReach(request: CompiledRequest, rank: seq<nat>, c: nat, i: nat, target: nat)
    requires Structured(request) && i < |request.entries| && |rank| == |request.entries| && c < |rank|
    requires request.entries[i].kind.Repetition? && request.Resolves(request.entries[i].kind.target, target)
    requires WithinReach(request, rank, c, i)
    ensures target < |request.entries| && WithinReach(request, rank, c, target)
  {
    forall d: nat | d < |rank| && d != c && Reaches(request, ChecksumFields, target, d) ensures rank[d] < rank[c] {
      assert Reaches(request, ChecksumFields, i, d);
    }
  }

  /** Repeating a zeroed block zeroes the repeated block. */
  lemma {:induction false} RepetitionLifts(scene: Scene, size: SizeRenderer, c: nat, i: nat, target: nat)
    requires Ready(scene) && i < |scene.request.entries| && scene.request.entries[i].kind.Repetition?
    requires scene.request.Resolve(scene.request.entries[i].kind.target) == Ok(target)
    requires Emit(scene, size, target, {c}) == ZeroResult(c, Emit(scene, size, target, {}))
    ensures Emit(scene, size, i, {c}) == ZeroResult(c, Emit(scene, size, i, {}))
  {
    assert RepeatReplaced(scene, i);
    var tokens := Emit(scene, size, target, {});
    if tokens.Ok? && RepeatCount(scene, i).Ok? {
      ZeroKeepsLength(c, tokens.value);
      ZeroTimes(c, tokens.value, RepeatCount(scene, i).value);
    }
  }

  lemma {:induction false} RepetitionZeroed(scene: Scene, size: SizeRenderer, rank: seq<nat>, c: nat, i: nat)
    requires Ready(scene) && i < |scene.request.entries| && MirrorFree(scene.request)
    requires IsDependencyRank(scene.request, ChecksumFields, rank)
    requires Computes(scene, size, c) && WithinReach(scene.request, rank, c, i)
    requires scene.request.entries[i].kind.Repetition?
    ensures Emit(scene, size, i, {c}) == ZeroResult(c, Emit(scene, size, i, {}))
    decreases StructuralRank(scene.request)[i], 0, 0
  {
    var request, path := scene.request, scene.request.entries[i].kind.target;
    if path in request.paths {
      var target := request.paths[path];
      assert Descends(request, StructuralRank(request), i, target);
      RepeatedWithinReach(request, rank, c, i, target);
      ActiveMeansZeroed(scene, size, rank, c, target);
      RepetitionLifts(scene, size, c, i, target);
    }
  }

  lemma {:induction false} ContainerZeroed(scene: Scene, size: SizeRenderer, rank: seq<nat>, c: nat, i: nat)
    requires Ready(scene) && i < |scene.request.entries| && MirrorFree(scene.request)
    requires IsDependencyRank(scene.request, ChecksumFields, rank)
    requires Computes(scene, size, c) && WithinReach(scene.request, rank, c, i)
    requires scene.request.entries[i].kind.Container?
    requires Visible(scene, i) == Ok(true) && Lookup(scene.replacements, i).None?
    ensures Emit(scene, size, i, {c}) == ZeroResult(c, Emit(scene, size, i, {}))
    decreases StructuralRank(scene.request)[i], 0, |scene.request.entries[i].kind.children| + 1
  {
    var request := scene.request;
    ChildrenZeroed(scene, size, rank, c, i, 0, []);
    var tokens := EmitChildren(scene, size, i, 0, {}, []);
    if tokens.Ok? && request.entries[i].alignment.Some? {
      var alignment := request.entries[i].alignment.value;
      ZeroKeepsLength(c, tokens.value);
      var padding := Token(i, Padding(alignment.pattern, PaddingLength(alignment.modulus, |Flatten(tokens.value)|)));
      ZeroAppend(c, tokens.value, [padding]);
      ZeroOne(c, padding);
    }
  }

  lemma {:induction false} ChildrenZeroed(
      scene: Scene, size: SizeRenderer, rank: seq<nat>, c: nat, i: nat, n: nat, done: seq<Token>)
    requires Ready(scene) && i < |scene.request.entries| && MirrorFree(scene.request)
    requires IsDependencyRank(scene.request, ChecksumFields, rank)
    requires Computes(scene, size, c) && WithinReach(scene.request, rank, c, i)
    requires scene.request.entries[i].kind.Container? && n <= |scene.request.entries[i].kind.children|
    ensures EmitChildren(scene, size, i, n, {c}, ZeroField(c, done))
            == ZeroResult(c, EmitChildren(scene, size, i, n, {}, done))
    decreases StructuralRank(scene.request)[i], 0, |scene.request.entries[i].kind.children| - n
  {
    var request, children := scene.request, scene.request.entries[i].kind.children;
    if n < |children| {
      assert EntryOk(request, i);
      assert Descends(request, StructuralRank(request), i, children[n]);
      forall d: nat | d < |rank| && d != c && Reaches(request, ChecksumFields, children[n], d)
        ensures rank[d] < rank[c]
      {
        assert Reaches(request, ChecksumFields, i, d);
      }
      ActiveMeansZeroed(scene, size, rank, c, children[n]);
      var tokens := Emit(scene, size, children[n], {});
      if tokens.Ok? {
        ZeroKeepsLength(c, tokens.value);
        ZeroKeepsLength(c, done);
        ZeroAppend(c, done, tokens.value);
        ChildrenZeroed(scene, size, rank, c, i, n + 1, done + tokens.value);
      }
    }
  }

  /** Byte `b` of word `w` is taken from the other end of that word. */
  predicate SwappedAt(field: Bytes, standard: Bytes, w: nat, b: nat) {
    4 * w + 3 < |standard| && 4 * w + 3 < |field| && b < 4 ==> field[4 * w + b] == standard[4 * w + 3 - b]
  }

  /** The field is the digest itself, or the digest with the bytes of each word reversed when big-endian. */
  ghost predicate CarriesDigest(spec: ChecksumSpec, field: Bytes, standard: Bytes) {
    && |field| == |standard|
    && match spec.endian
       case Little => field == standard
       case Big => forall w: nat, b: nat :: SwappedAt(field, standard, w, b)
  }

  lemma {:induction false} SwapWordsAt(bytes: Bytes, w: nat, b: nat)
    requires |bytes| % 4 == 0
    ensures SwappedAt(SwapWords(bytes), bytes, w, b)
    decreases w
  {
    if 4 * w + 3 < |bytes| && b < 4 {
      var rest := SwapWords(bytes[4..]);
      if w == 0 {
        assert SwapWords(bytes)[b] == [bytes[3], bytes[2], bytes[1], bytes[0]][b];
      } else {
        SwapWordsAt(bytes[4..], w - 1, b);
        assert SwapWords(bytes)[4 * w + b] == rest[4 * (w - 1) + b];
      }
    }
  }

  lemma {:induction false} ChecksumCarriesDigest(digest: Digest, spec: ChecksumSpec, bytes: Bytes)
    ensures CarriesDigest(spec, RenderChecksum(digest, spec, bytes), digest(spec.algorithm, bytes))
  {
    var standard := digest(spec.algorithm, bytes);
    assert |standard| == spec.algorithm.Length() && |standard| % 4 == 0;
    if spec.endian.Big? {
      forall w: nat, b: nat ensures SwappedAt(RenderChecksum(digest, spec, bytes), standard, w, b) {
        SwapWordsAt(standard, w, b);
      }
    }
  }

  /**
   A computed checksum carries the digest of its target block as emitted, with only its own
   occurrences zeroed. Other checksums inside the block appear with their emitted values.
   */
  lemma {:induction false} ChecksumIsHonest(scene: Scene, size: SizeRenderer, c: nat, target: nat)
    requires Ready(scene) && MirrorFree(scene.request)
    requires AcyclicDependencies(scene.request, ChecksumFields)
    requires Computes(scene, size, c) && Visible(scene, c) == Ok(true)
    requires scene.request.Resolve(TargetOf(scene.request, ChecksumFields, c)) == Ok(target)
    ensures Emit(scene, size, target, {}).Ok?
    ensures var tokens, spec := Emit(scene, size, c, {}).value, scene.request.entries[c].kind.checksum;
            && |tokens| == 1 && tokens[0].entry == c
            && CarriesDigest(spec, tokens[0].bytes, scene.digest(spec.algorithm, Flatten(
                               ZeroField(c, Emit(scene, size, target, {}).value))))
  {
    var rank :| IsDependencyRank(scene.request, ChecksumFields, rank);
    TargetReachesBelow(scene.request, rank, c, target);
    ActiveMeansZeroed(scene, size, rank, c, target);
    assert {} + {c} == {c};
    ChecksumCarriesDigest(scene.digest, scene.request.entries[c].kind.checksum,
                          Flatten(ZeroField(c, Emit(scene, size, target, {}).value)));
  }

  // ----- where the tokens of a payload come from -----

  /** A token of a field is exactly what that field renders to. */
  ghost predicate Genuine(scene: Scene, size: SizeRenderer, active: set<nat>, token: Token)
    requires Ready(scene)
  {
    && token.entry < |scene.request.entries|
    && (!scene.request.entries[token.entry].kind.Container? ==>
          Visible(scene, token.entry) == Ok(true) && Emit(scene, size, token.entry, active) == Ok([token]))
  }

  ghost predicate AllGenuine(scene: Scene, size: SizeRenderer, active: set<nat>, tokens: seq<Token>)
    requires Ready(scene)
  {
    forall n :: 0 <= n < |tokens| ==> Genuine(scene, size, active, tokens[n])
  }

  lemma {:induction false} TokensAreGenuine(scene: Scene, size: SizeRenderer, i: nat, active: set<nat>)
    requires Ready(scene) && i < |scene.request.entries| && MirrorFree(scene.request)
    requires Emit(scene, size, i, active).Ok?
    ensures AllGenuine(scene, size, active, Emit(scene, size, i, active).value)
    decreases StructuralRank(scene.request)[i], 1, 0
  {
    var request := scene.request;
    assert !IsMirror(request, i);
    if Visible(scene, i).value && (request.entries[i].kind.Repetition? || Lookup(scene.replacements, i).None?) {
      match request.entries[i].kind
      case Repetition(path, _, _, _, _) =>
        assert RepeatReplaced(scene, i);
        var target := request.paths[path];
        assert Descends(request, StructuralRank(request), i, target);
        TokensAreGenuine(scene, size, target, active);
        TimesGenuine(scene, size, active, Emit(scene, size, target, active).value, RepeatCount(scene, i).value);
      case Container(_) => ChildrenGenuine(scene, size, i, 0, active, []);
      case _ =>
    }
  }

  lemma {:induction false} ChildrenGenuine(
      scene: Scene, size: SizeRenderer, i: nat, n: nat, active: set<nat>, done: seq<Token>)
    requires Ready(scene) && i < |scene.request.entries| && MirrorFree(scene.request)
    requires scene.request.entries[i].kind.Container? && n <= |scene.request.entries[i].kind.children|
    requires EmitChildren(scene, size, i, n, active, done).Ok? && AllGenuine(scene, size, active, done)
    ensures AllGenuine(scene, size, active, EmitChildren(scene, size, i, n, active, done).value)
    decreases StructuralRank(scene.request)[i], 0, |scene.request.entries[i].kind.children| - n
  {
    var request, children := scene.request, scene.request.entries[i].kind.children;
    if n < |children| {
      assert EntryOk(request, i);
      assert Descends(request, StructuralRank(request), i, children[n]);
      TokensAreGenuine(scene, size, children[n], active);
      ChildrenGenuine(scene, size, i, n + 1, active, done + Emit(scene, size, children[n], active).value);
    }
  }

  lemma {:induction false} TimesGenuine(
      scene: Scene, size: SizeRenderer, active: set<nat>, tokens: seq<Token>, count: int)
    requires Ready(scene) && AllGenuine(scene, size, active, tokens)
    ensures AllGenuine(scene, size, active, Times(tokens, count))
    decreases if count < 0 then 0 else count
  {
    if count > 0 {
      TimesGenuine(scene, size, active, tokens, count - 1);
    }
  }

  /** In a payload, every checksum field that was not replaced is honest about its emitted target. */
  lemma {:induction false} PayloadChecksums(scene: Scene, size: SizeRenderer, root: nat, n: nat, target: nat)
    requires Ready(scene) && MirrorFree(scene.request) && root < |scene.request.entries|
    requires AcyclicDependencies(scene.request, ChecksumFields)
    requires Emit(scene, size, root, {}).Ok? && n < |Emit(scene, size, root, {}).value|
    requires var token := Emit(scene, size, root, {}).value[n];
      && Wanted(scene.request, ChecksumFields, token.entry)
      && Lookup(scene.replacements, token.entry).None?
      && scene.request.Resolve(TargetOf(scene.request, ChecksumFields, token.entry)) == Ok(target)
    ensures var token := Emit(scene, size, root, {}).value[n];
      var spec := scene.request.entries[token.entry].kind.checksum;
      && Emit(scene, size, target, {}).Ok?
      && CarriesDigest(spec, token.bytes, scene.digest(spec.algorithm, Flatten(
                         ZeroField(token.entry, Emit(scene, size, target, {}).value))))
  {
    TokensAreGenuine(scene, size, root, {});
    var token := Emit(scene, size, root, {}).value[n];
    assert Genuine(scene, size, {}, token);
    ChecksumIsHonest(scene, size, token.entry, target);
  }

  /** In a payload, every size field that was not replaced is honest about its rendered target. */
  lemma {:induction false} PayloadSizes(scene: Scene, root: nat, n: nat, target: nat, block: Bytes)
    requires Measuring.Faithful(scene) && MirrorFree(scene.request) && root < |scene.request.entries|
    requires var tokens := Emit(scene, Measuring.Sizes(scene), root, {}); tokens.Ok? && n < |tokens.value|
    requires var token := Emit(scene, Measuring.Sizes(scene), root, {}).value[n];
      && Wanted(scene.request, SizeFields, token.entry)
      && Lookup(scene.replacements, token.entry).None?
      && scene.request.Resolve(TargetOf(scene.request, SizeFields, token.entry)) == Ok(target)
    requires Render(scene, Measuring.Sizes(scene), target, {}) == Ok(block)
    ensures var token := Emit(scene, Measuring.Sizes(scene), root, {}).value[n];
      Measuring.TellsSize(scene.request.entries[token.entry].kind.size, token.bytes, block)
  {
    var size := Measuring.Sizes(scene);
    TokensAreGenuine(scene, size, root, {});
    var token := Emit(scene, size, root, {}).value[n];
    assert Genuine(scene, size, {}, token);
    FlattenOne(token);
    Measuring.SizeFieldIsHonest(scene, token.entry, target, token.bytes, block);
  }
}
