/** The length of an entry without rendering it, and when it agrees with rendering. */
module Measuring {
  import opened Wrappers
  import opened Integers
  import opened Model
  import opened Rendering

  // ----- why measuring ends -----

  /** Measuring also follows mirrors and the targets of ascii sizes; binary sizes have a fixed width. */
  predicate MeasureEdge(request: CompiledRequest, i: nat, j: nat) {
    && i < |request.entries|
    && match request.entries[i].kind
       case Mirror(target) => request.Resolves(target, j)
       case ComputedSize(spec) => spec.ascii && request.Resolves(spec.target, j)
       case _ => StructuralEdge(request, i, j)
  }

  ghost predicate MeasureDescends(request: CompiledRequest, rank: seq<nat>, i: nat, j: nat) {
    i < |rank| && j < |rank| && MeasureEdge(request, i, j) ==> rank[j] < rank[i]
  }

  ghost predicate IsMeasureRank(request: CompiledRequest, rank: seq<nat>) {
    |rank| == |request.entries| && forall i: nat, j: nat :: MeasureDescends(request, rank, i, j)
  }

  /** The measuring edges are well-founded; every assembled table without mirrors is grounded. */
  ghost predicate Grounded(request: CompiledRequest) {
    Structured(request) && exists rank :: IsMeasureRank(request, rank)
  }

  ghost function MeasureRank(request: CompiledRequest): (rank: seq<nat>)
    requires Grounded(request)
    ensures IsMeasureRank(request, rank)
  {
    var rank :| IsMeasureRank(request, rank);
    rank
  }

  ghost predicate Sound(scene: Scene) {
    Renderable(scene) && Grounded(scene.request)
  }

  // ----- measure and the size fields -----

  /** The measured length of an entry; `active` only guards mirrors of mirrors. */
  function Measure(scene: Scene, i: nat, active: set<nat>): Result<int>
    requires Sound(scene) && i < |scene.request.entries|
    decreases MeasureRank(scene.request)[i], 1, 0
  {
    var visible :- Visible(scene, i);
    if !visible then Ok(0)
    else if scene.request.entries[i].kind.Mirror? && i in active then Ok(0)
    else
      var length :- MeasureVisible(scene, i, active);
      if length > scene.request.maxBytes then Err(Limit) else Ok(length)
  }

  function MeasureVisible(scene: Scene, i: nat, active: set<nat>): Result<int>
    requires Sound(scene) && i < |scene.request.entries|
    decreases MeasureRank(scene.request)[i], 0, |scene.request.entries[i].kind.Children()| + 1
  {
    var request := scene.request;
    match request.entries[i].kind
    case Atom(field) =>
      (match Lookup(scene.replacements, i)
       case Some(value) => Ok(|value|)
       case None => Ok(|field.value|))
    case Dynamic(field, source) =>
      (match Lookup(scene.replacements, i)
       case Some(value) => Ok(|value|)
       case None =>
         var bytes :- BoundValue(field, source, scene.vars);
         Ok(|bytes|))
    case ComputedSize(spec) =>
      if spec.ascii then
        var target :- request.Resolve(spec.target);
        assert MeasureDescends(request, MeasureRank(request), i, target);
        var bytes :- SizeValue(scene, spec);
        Ok(|bytes|)
      else Ok(spec.length)
    case ComputedChecksum(spec) => Ok(spec.algorithm.Length())
    case Mirror(path) =>
      var target :- request.Resolve(path);
      assert MeasureDescends(request, MeasureRank(request), i, target);
      Measure(scene, target, active + {i})
    case Repetition(path, _, _, _, _) =>
      assert RepeatReplaced(scene, i);
      var count :- RepeatCount(scene, i);
      var target :- request.Resolve(path);
      assert MeasureDescends(request, MeasureRank(request), i, target);
      var length :- Measure(scene, target, {});
      if length != 0 && count > TruncatedDiv(request.maxBytes, length) then Err(Limit)
      else Ok(ToInt32(length * count))
    case Container(_) =>
      var total :- MeasureChildren(scene, i, 0, 0);
      match request.entries[i].alignment
      case None => Ok(total)
      case Some(alignment) =>
        var padding := PaddingLength(alignment.modulus, total);
        if padding > request.maxBytes - total then Err(Limit) else Ok(total + padding)
  }

  function MeasureChildren(scene: Scene, i: nat, k: nat, total: int): Result<int>
    requires Sound(scene) && i < |scene.request.entries|
    requires scene.request.entries[i].kind.Container? && k <= |scene.request.entries[i].kind.children|
    decreases MeasureRank(scene.request)[i], 0, |scene.request.entries[i].kind.children| - k
  {
    var request := scene.request;
    var children := request.entries[i].kind.children;
    if k == |children| then Ok(total)
    else
      assert EntryOk(request, i);
      assert MeasureDescends(request, MeasureRank(request), i, children[k]);
      var length :- Measure(scene, children[k], {});
      if length > request.maxBytes - total then Err(Limit)
      else MeasureChildren(scene, i, k + 1, total + length)
  }

  ghost function TargetRank(request: CompiledRequest, path: string): nat
    requires Grounded(request)
  {
    if path in request.paths then MeasureRank(request)[request.paths[path]] else 0
  }

  /** The number a size field carries. */
  function SizeNumber(spec: SizeSpec, length: int): int {
    length + spec.offset + if spec.inclusive then spec.length else 0
  }

  /** The computed bytes of a size field. */
  function SizeValue(scene: Scene, spec: SizeSpec): Result<Bytes>
    requires Sound(scene)
    decreases TargetRank(scene.request, spec.target), 2, 0
  {
    var target :- scene.request.Resolve(spec.target);
    var length :- Measure(scene, target, {});
    var number := SizeNumber(spec, length);
    if number < 0 then Err(Invalid(NegativeSize))
    else if number > IntegerMax(spec.length) then Err(Invalid(SizeOverflow))
    else if spec.ascii then Ok(AsciiBytes(Decimal(number)))
    else Ok(EncodeInteger(number, spec.length, spec.endian))
  }

  /** The size renderer the program uses: every size field computes its value by measuring. */
  function Sizes(scene: Scene): SizeRenderer
    requires Sound(scene)
  {
    (spec: SizeSpec) => SizeValue(scene, spec)
  }

  // ----- measuring in the source's form -----

  method MeasureNode(scene: Scene, i: nat, active: set<nat>) returns (r: Result<int>)
    requires Sound(scene) && i < |scene.request.entries|
    ensures r == Measure(scene, i, active)
    decreases MeasureRank(scene.request)[i], 1
  {
    var request := scene.request;
    var visible :- IsVisible(scene, i);
    if !visible {
      return Ok(0);
    }
    var length: int;
    match request.entries[i].kind {
      case ComputedSize(spec) =>
        if spec.ascii {
          var target :- request.Resolve(spec.target);
          assert MeasureDescends(request, MeasureRank(request), i, target);
          var bytes :- ComputeSize(scene, spec);
          length := |bytes|;
        } else {
          length := spec.length;
        }
      case Mirror(path) =>
        if i in active {
          return Ok(0);
        }
        var target :- request.Resolve(path);
        assert MeasureDescends(request, MeasureRank(request), i, target);
        length :- MeasureNode(scene, target, active + {i});
      case Repetition(path, _, _, _, _) =>
        assert RepeatReplaced(scene, i);
        var count :- RepeatCount(scene, i);
        var target :- request.Resolve(path);
        assert MeasureDescends(request, MeasureRank(request), i, target);
        var child :- MeasureNode(scene, target, {});
        if child != 0 && count > TruncatedDiv(request.maxBytes, child) {
          return Err(Limit);
        }
        length := ToInt32(child * count);
      case Container(_) => length :- MeasureContainer(scene, i);
      case Atom(field) =>
        var replaced := Lookup(scene.replacements, i);
        length := if replaced.Some? then |replaced.value| else |field.value|;
      case Dynamic(field, source) =>
        if Lookup(scene.replacements, i).Some? {
          length := |Lookup(scene.replacements, i).value|;
        } else {
          var bytes :- BoundValue(field, source, scene.vars);
          length := |bytes|;
        }
      case ComputedChecksum(spec) => length := spec.algorithm.Length();
    }
    return if length > request.maxBytes then Err(Limit) else Ok(length);
  }

  /** A block: the loop with its running total. */
  method MeasureContainer(scene: Scene, i: nat) returns (r: Result<int>)
    requires Sound(scene) && i < |scene.request.entries| && scene.request.entries[i].kind.Container?
    ensures r == MeasureVisible(scene, i, {})
    decreases MeasureRank(scene.request)[i], 0
  {
    var request, children := scene.request, scene.request.entries[i].kind.children;
    var total := 0;
    for k := 0 to |children|
      invariant MeasureChildren(scene, i, 0, 0) == MeasureChildren(scene, i, k, total)
    {
      assert EntryOk(request, i);
      assert MeasureDescends(request, MeasureRank(request), i, children[k]);
      var length :- MeasureNode(scene, children[k], {});
      if length > request.maxBytes - total {
        return Err(Limit);
      }
      total := total + length;
    }
    if request.entries[i].alignment.Some? {
      var padding := PaddingLength(request.entries[i].alignment.value.modulus, total);
      if padding > request.maxBytes - total {
        return Err(Limit);
      }
      total := total + padding;
    }
    return Ok(total);
  }

  method ComputeSize(scene: Scene, spec: SizeSpec) returns (r: Result<Bytes>)
    requires Sound(scene)
    ensures r == SizeValue(scene, spec)
    decreases TargetRank(scene.request, spec.target), 2
  {
    var target :- scene.request.Resolve(spec.target);
    var length :- MeasureNode(scene, target, {});
    var number := length + spec.offset;
    if spec.inclusive {
      number := number + spec.length;
    }
    if number < 0 {
      return Err(Invalid(NegativeSize));
    }
    if number > IntegerMax(spec.length) {
      return Err(Invalid(SizeOverflow));
    }
    return Ok(if spec.ascii then AsciiBytes(Decimal(number)) else EncodeInteger(number, spec.length, spec.endian));
  }

  // ----- agreement with rendering -----

  /**
   The replacements that candidates make: any value of a field, a repeat count or an ascii size, and a
   value of their own width for binary sizes and checksums. Blocks and mirrors have no candidates.
   */
  predicate CandidateLike(scene: Scene, i: nat) {
    i < |scene.request.entries| && Lookup(scene.replacements, i).Some? ==>
      match scene.request.entries[i].kind
      case Atom(_) => true
      case Dynamic(_, _) => true
      case Repetition(_, _, _, _, _) => true
      case ComputedSize(spec) => spec.ascii || |Lookup(scene.replacements, i).value| == spec.length
      case ComputedChecksum(spec) => |Lookup(scene.replacements, i).value| == spec.algorithm.Length()
      case Mirror(_) => false
      case Container(_) => false
  }

  /** A scene as streams make it: it measures and its replacements are candidates. */
  ghost predicate Proper(scene: Scene) {
    && Sound(scene)
    && (forall i: nat :: CandidateLike(scene, i))
  }

  /** Measuring ignores the replacement of an ascii size, so it must have the length of the computed text. */
  ghost predicate AsciiAgrees(scene: Scene, i: nat)
    requires Sound(scene)
  {
    && i < |scene.request.entries|
    && scene.request.entries[i].kind.ComputedSize? && scene.request.entries[i].kind.size.ascii
    && Visible(scene, i) == Ok(true)
    && Lookup(scene.replacements, i).Some? && |Lookup(scene.replacements, i).value| <= scene.request.maxBytes
    ==>
      var computed := SizeValue(scene, scene.request.entries[i].kind.size);
      computed.Ok? && |computed.value| <= scene.request.maxBytes ==>
        |Lookup(scene.replacements, i).value| == |computed.value|
  }

  /** A negative count renders nothing but is measured as a factor, so the 32-bit product must be zero. */
  ghost predicate NegativeAgrees(scene: Scene, i: nat, active: set<nat>)
    requires Sound(scene)
  {
    && i < |scene.request.entries| && NoActiveMirror(scene.request, i, active)
    && scene.request.entries[i].kind.Repetition? && scene.request.entries[i].kind.target in scene.request.paths
    && Visible(scene, i) == Ok(true)
    && RepeatReplaced(scene, i) && RepeatCount(scene, i).Ok? && RepeatCount(scene, i).value < 0
    && Measure(scene, i, {}).Ok? && Emit(scene, Sizes(scene), i, active).Ok?
    ==>
      var length := Measure(scene, scene.request.paths[scene.request.entries[i].kind.target], {});
      length.Ok? && ToInt32(length.value * RepeatCount(scene, i).value) == 0
  }

  /** The exact condition for measuring to tell rendered lengths, entry by entry. */
  ghost predicate Faithful(scene: Scene) {
    && Proper(scene)
    && (forall i: nat :: AsciiAgrees(scene, i))
    && (forall i: nat, active: set<nat> :: NegativeAgrees(scene, i, active))
  }

  /** No mirror that measuring may still meet below `i` is under way. */
  ghost predicate NoActiveMirror(request: CompiledRequest, i: nat, active: set<nat>)
    requires Grounded(request) && i < |request.entries|
  {
    forall m <- active :: m < |request.entries| && request.entries[m].kind.Mirror? ==>
      MeasureRank(request)[i] < MeasureRank(request)[m]
  }

  /**
   Measuring an entry gives the length of what rendering it produces, whenever both succeed, for any
   checksums under way.
   */
  lemma {:induction false} MeasureIsRenderedLength(scene: Scene, i: nat, active: set<nat>, mirrors: set<nat>)
    requires Faithful(scene) && i < |scene.request.entries|
    requires NoActiveMirror(scene.request, i, active) && NoActiveMirror(scene.request, i, mirrors)
    requires Measure(scene, i, mirrors).Ok? && Emit(scene, Sizes(scene), i, active).Ok?
    ensures Measure(scene, i, mirrors).value == |Flatten(Emit(scene, Sizes(scene), i, active).value)|
    decreases MeasureRank(scene.request)[i], 1
  {
    var request := scene.request;
    if Visible(scene, i).value {
      assert CandidateLike(scene, i) && AsciiAgrees(scene, i);
      if !request.entries[i].kind.Repetition? && Lookup(scene.replacements, i).Some? {
        FlattenOne(Token(i, Lookup(scene.replacements, i).value));
      } else {
        match request.entries[i].kind
        case Atom(field) => FlattenOne(Token(i, field.value));
        case Dynamic(field, source) => FlattenOne(Token(i, BoundValue(field, source, scene.vars).value));
        case ComputedSize(spec) => FlattenOne(Token(i, SizeValue(scene, spec).value));
        case ComputedChecksum(spec) => FlattenOne(Emit(scene, Sizes(scene), i, active).value[0]);
        case Mirror(path) => MirrorAgrees(scene, i, active, mirrors);
        case Repetition(path, _, _, _, _) => RepetitionAgrees(scene, i, active, mirrors);
        case Container(_) => ContainerAgrees(scene, i, active, mirrors);
      }
    }
  }

  lemma {:induction false} MirrorAgrees(scene: Scene, i: nat, active: set<nat>, mirrors: set<nat>)
    requires Faithful(scene) && i < |scene.request.entries|
    requires NoActiveMirror(scene.request, i, active) && NoActiveMirror(scene.request, i, mirrors)
    requires Measure(scene, i, mirrors).Ok? && Emit(scene, Sizes(scene), i, active).Ok?
    requires Visible(scene, i) == Ok(true) && scene.request.entries[i].kind.Mirror?
    ensures Measure(scene, i, mirrors).value == |Flatten(Emit(scene, Sizes(scene), i, active).value)|
    decreases MeasureRank(scene.request)[i], 0
  {
    var request := scene.request;
    assert CandidateLike(scene, i);
    assert i !in active && i !in mirrors;
    var target := request.Resolve(request.entries[i].kind.target).value;
    assert MeasureDescends(request, MeasureRank(request), i, target);
    MeasureIsRenderedLength(scene, target, active + {i}, mirrors + {i});
  }

  lemma {:induction false} RepetitionAgrees(scene: Scene, i: nat, active: set<nat>, mirrors: set<nat>)
    requires Faithful(scene) && i < |scene.request.entries|
    requires NoActiveMirror(scene.request, i, active)
    requires Measure(scene, i, mirrors).Ok? && Emit(scene, Sizes(scene), i, active).Ok?
    requires Visible(scene, i) == Ok(true) && scene.request.entries[i].kind.Repetition?
    ensures Measure(scene, i, mirrors).value == |Flatten(Emit(scene, Sizes(scene), i, active).value)|
    decreases MeasureRank(scene.request)[i], 0
  {
    var request := scene.request;
    assert RepeatReplaced(scene, i) && NegativeAgrees(scene, i, active);
    var count := RepeatCount(scene, i).value;
    var target := request.Resolve(request.entries[i].kind.target).value;
    if count < 0 {
      NegativeRepetition(scene, i, active, mirrors);
      return;
    }
    assert MeasureDescends(request, MeasureRank(request), i, target);
    MeasureIsRenderedLength(scene, target, active, {});
    var tokens := Emit(scene, Sizes(scene), target, active).value;
    FlattenTimes(tokens, count);
    BytesTimesLength(Flatten(tokens), count);
    WithinBudget(|Flatten(tokens)|, count, request.maxBytes);
  }

  lemma {:induction false} WithinBudget(length: nat, count: nat, budget: nat)
    requires length == 0 || count <= budget / length
    requires budget < 0x8000_0000
    ensures ToInt32(length * count) == length * count
  {
    if length > 0 {
      assert length * count <= length * (budget / length) <= budget;
    }
  }

  lemma {:induction false} ContainerAgrees(scene: Scene, i: nat, active: set<nat>, mirrors: set<nat>)
    requires Faithful(scene) && i < |scene.request.entries|
    requires NoActiveMirror(scene.request, i, active)
    requires Measure(scene, i, mirrors).Ok? && Emit(scene, Sizes(scene), i, active).Ok?
    requires Visible(scene, i) == Ok(true) && scene.request.entries[i].kind.Container?
    ensures Measure(scene, i, mirrors).value == |Flatten(Emit(scene, Sizes(scene), i, active).value)|
    decreases MeasureRank(scene.request)[i], 0, |scene.request.entries[i].kind.children| + 1
  {
    var request := scene.request;
    assert CandidateLike(scene, i);
    ChildrenAgree(scene, i, 0, active, [], 0);
    var tokens := EmitChildren(scene, Sizes(scene), i, 0, active, []).value;
    if request.entries[i].alignment.Some? {
      var alignment := request.entries[i].alignment.value;
      var padding := Token(i, Padding(alignment.pattern, PaddingLength(alignment.modulus, |Flatten(tokens)|)));
      FlattenAppend(tokens, [padding]);
      FlattenOne(padding);
    }
  }

  lemma {:induction false} ChildrenAgree(scene: Scene, i: nat, k: nat, active: set<nat>, done: seq<Token>, total: int)
    requires Faithful(scene) && i < |scene.request.entries|
    requires NoActiveMirror(scene.request, i, active)
    requires scene.request.entries[i].kind.Container? && k <= |scene.request.entries[i].kind.children|
    requires total == |Flatten(done)|
    requires MeasureChildren(scene, i, k, total).Ok? && EmitChildren(scene, Sizes(scene), i, k, active, done).Ok?
    ensures MeasureChildren(scene, i, k, total).value
            == |Flatten(EmitChildren(scene, Sizes(scene), i, k, active, done).value)|
    decreases MeasureRank(scene.request)[i], 0, |scene.request.entries[i].kind.children| - k
  {
    var request, children := scene.request, scene.request.entries[i].kind.children;
    if k < |children| {
      assert EntryOk(request, i);
      assert MeasureDescends(request, MeasureRank(request), i, children[k]);
      MeasureIsRenderedLength(scene, children[k], active, {});
      var tokens := Emit(scene, Sizes(scene), children[k], active).value;
      FlattenAppend(done, tokens);
      ChildrenAgree(scene, i, k + 1, active, done + tokens, total + |Flatten(tokens)|);
    }
  }

  /**
   A size field tells the truth about its target as rendered: less its offset it is the length of the
   target, together with the field itself when inclusive. An ascii field is decimal text.
   */
  ghost predicate TellsSize(spec: SizeSpec, field: Bytes, target: Bytes) {
    if spec.ascii then DigitsTell(field, |target| + spec.offset)
    else
      && |field| == spec.length
      && DecodeInteger(field, spec.endian) - spec.offset == if spec.inclusive then |target + field| else |target|
  }

  /** The computed bytes of a size field tell the measured length; they fail exactly out of the range of the width. */
  lemma {:induction false} SizeValueTells(scene: Scene, spec: SizeSpec, target: nat, block: Bytes)
    requires Sound(scene) && scene.request.Resolve(spec.target) == Ok(target)
    requires Measure(scene, target, {}) == Ok(|block|)
    ensures var size := SizeValue(scene, spec);
            var number := |block| + spec.offset + if spec.inclusive then spec.length else 0;
            && (size == Err(Invalid(NegativeSize)) <==> number < 0)
            && (size == Err(Invalid(SizeOverflow)) <==> number >= Power(256, spec.length))
            && (size.Ok? <==> 0 <= number < Power(256, spec.length))
            && (size.Ok? ==> TellsSize(spec, size.value, block))
  {
    var number := SizeNumber(spec, |block|);
    if 0 <= number <= IntegerMax(spec.length) {
      if spec.ascii {
        AsciiDenotes(number);
      } else {
        EncodeRoundTrip(number, spec.length, spec.endian);
      }
    }
  }

  /** Every visible size field that was not replaced tells the length its target block is rendered with. */
  lemma {:induction false} SizeFieldIsHonest(scene: Scene, i: nat, target: nat, field: Bytes, block: Bytes)
    requires Faithful(scene) && i < |scene.request.entries|
    requires scene.request.entries[i].kind.ComputedSize?
    requires scene.request.Resolve(scene.request.entries[i].kind.size.target) == Ok(target)
    requires Visible(scene, i) == Ok(true) && Lookup(scene.replacements, i).None?
    requires Render(scene, Sizes(scene), i, {}) == Ok(field)
    requires Render(scene, Sizes(scene), target, {}) == Ok(block)
    ensures TellsSize(scene.request.entries[i].kind.size, field, block)
  {
    var spec := scene.request.entries[i].kind.size;
    FlattenOne(Token(i, SizeValue(scene, spec).value));
    MeasureIsRenderedLength(scene, target, {}, {});
    SizeValueTells(scene, spec, target, block);
  }

  // ----- exactly when the two interpreters agree -----

  /** Whenever both succeed on an entry, the measured length is the rendered one. */
  ghost predicate AgreesAt(scene: Scene, i: nat, active: set<nat>)
    requires Sound(scene)
  {
    && i < |scene.request.entries| && NoActiveMirror(scene.request, i, active)
    && Measure(scene, i, {}).Ok? && Emit(scene, Sizes(scene), i, active).Ok?
    ==> Measure(scene, i, {}).value == |Flatten(Emit(scene, Sizes(scene), i, active).value)|
  }

  /** Agreement at a replaced ascii size means that the replacement has the computed length. */
  lemma {:induction false} AgreeingAscii(scene: Scene, i: nat)
    requires Sound(scene) && AgreesAt(scene, i, {})
    ensures AsciiAgrees(scene, i)
  {
    if i < |scene.request.entries| && scene.request.entries[i].kind.ComputedSize? &&
       scene.request.entries[i].kind.size.ascii
       && Visible(scene, i) == Ok(true)
       && Lookup(scene.replacements, i).Some? && |Lookup(scene.replacements, i).value| <= scene.request.maxBytes {
      var value, computed := Lookup(scene.replacements, i).value, SizeValue(scene, scene.request.entries[i].kind.size);
      if computed.Ok? && |computed.value| <= scene.request.maxBytes {
        assert Measure(scene, i, {}) == Ok(|computed.value|);
        assert Emit(scene, Sizes(scene), i, {}) == Ok([Token(i, value)]);
        FlattenOne(Token(i, value));
      }
    }
  }

  /** Agreement at a negative repetition means that the measured product is zero. */
  lemma {:induction false} AgreeingNegative(scene: Scene, i: nat, active: set<nat>)
    requires Sound(scene) && AgreesAt(scene, i, active)
    ensures NegativeAgrees(scene, i, active)
  {
    var request := scene.request;
    if i < |request.entries| && request.entries[i].kind.Repetition? && request.entries[i].kind.target in request.paths
       && Visible(scene, i) == Ok(true)
       && RepeatReplaced(scene, i) && RepeatCount(scene, i).Ok? && RepeatCount(scene, i).value < 0
       && Measure(scene, i, {}).Ok? && Emit(scene, Sizes(scene), i, active).Ok? {
      NegativeRepetition(scene, i, active, {});
    }
  }

  /** A negative repetition renders nothing and is measured as the wrapped product. */
  lemma {:induction false} NegativeRepetition(scene: Scene, i: nat, active: set<nat>, mirrors: set<nat>)
    requires Sound(scene) && i < |scene.request.entries|
    requires scene.request.entries[i].kind.Repetition? && scene.request.entries[i].kind.target in scene.request.paths
    requires Visible(scene, i) == Ok(true)
    requires RepeatReplaced(scene, i) && RepeatCount(scene, i).Ok? && RepeatCount(scene, i).value < 0
    requires Measure(scene, i, mirrors).Ok? && Emit(scene, Sizes(scene), i, active).Ok?
    ensures var length := Measure(scene, scene.request.paths[scene.request.entries[i].kind.target], {});
            && length.Ok? && Measure(scene, i, mirrors) == Measure(scene, i, {})
            && Measure(scene, i, {}).value == ToInt32(length.value * RepeatCount(scene, i).value)
    ensures Flatten(Emit(scene, Sizes(scene), i, active).value) == []
  {
    var request := scene.request;
    var target := request.paths[request.entries[i].kind.target];
    assert MeasureDescends(request, MeasureRank(request), i, target);
    assert request.Resolve(request.entries[i].kind.target) == Ok(target);
    var count, tokens := RepeatCount(scene, i).value, Emit(scene, Sizes(scene), target, active).value;
    assert Times(tokens, count) == [];
    assert Emit(scene, Sizes(scene), i, active).value == [];
  }

  /**
   For every scene that streams make, measuring tells the rendered length of every entry, whatever
   checksums are under way, exactly when every visible replaced ascii size has the computed length and
   every visible negative repetition measures as zero.
   */
  lemma {:induction false} AgreeExactlyWhenFaithful(scene: Scene)
    requires Proper(scene)
    ensures Faithful(scene) <==> forall i: nat, active: set<nat> :: AgreesAt(scene, i, active)
  {
    if Faithful(scene) {
      forall i: nat, active: set<nat> ensures AgreesAt(scene, i, active) {
        if i < |scene.request.entries| && NoActiveMirror(scene.request, i, active)
           && Measure(scene, i, {}).Ok? && Emit(scene, Sizes(scene), i, active).Ok? {
          MeasureIsRenderedLength(scene, i, active, {});
        }
      }
    }
    if forall i: nat, active: set<nat> :: AgreesAt(scene, i, active) {
      forall i: nat ensures AsciiAgrees(scene, i) {
        assert AgreesAt(scene, i, {});
        AgreeingAscii(scene, i);
      }
      forall i: nat, active: set<nat> ensures NegativeAgrees(scene, i, active) {
        assert AgreesAt(scene, i, active);
        AgreeingNegative(scene, i, active);
      }
    }
  }
}
