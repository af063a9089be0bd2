/** Flat requests: the eager list of mutations, and the compiled stream that refines it. */
module FlatRequests {
  import opened Wrappers
  import opened Integers
  import opened CaseSequences
  import opened Combinations
  import opened Model
  import opened Layout
  import opened Assembly
  import opened Rendering
  import opened Measuring
  import opened Dependencies
  import opened Compilation
  import opened CompiledRequests
  import opened StreamSpec
  import opened CaseBuilding
  import opened RequestStreams

  datatype Primitive = Static(value: Bytes) | Choice(value: Bytes, alternatives: seq<Bytes>) {
    function Mutations(): seq<Bytes> {
      if Choice? then alternatives else []
    }
  }

  datatype Request = Request(fields: seq<Primitive>) {

    method Render() returns (output: Bytes)
      ensures output == Joined(Defaults(fields), 0)
    {
      output := [];
      for i := 0 to |fields|
        invariant output + Joined(Defaults(fields), i) == Joined(Defaults(fields), 0)
      {
        JoinPush(output, Defaults(fields), i);
        output := output + fields[i].value;
      }
    }

    method Mutations() returns (cases: seq<Bytes>)
      ensures cases == MutationsFrom(fields, 0)
    {
      cases := [];
      for f := 0 to |fields|
        invariant cases + MutationsFrom(fields, f) == MutationsFrom(fields, 0)
      {
        var here := MutateField(fields, f);
        FieldPush(cases, here, fields, f);
        cases := cases + here;
      }
    }
  }

  // ----- the eager list -----

  function Joined(values: seq<Bytes>, from: nat): Bytes
    decreases |values| - from
  {
    if from >= |values| then [] else values[from] + Joined(values, from + 1)
  }

  function Defaults(fields: seq<Primitive>): (r: seq<Bytes>)
    ensures |r| == |fields| && forall i :: 0 <= i < |r| ==> r[i] == fields[i].value
  {
    seq(|fields|, i requires 0 <= i < |fields| => fields[i].value)
  }

  /** One field replaced, all others at their defaults. */
  function Replaced(fields: seq<Primitive>, f: nat, value: Bytes): (r: seq<Bytes>)
    ensures |r| == |fields| && forall i :: 0 <= i < |r| ==> r[i] == if i == f then value else fields[i].value
  {
    seq(|fields|, i requires 0 <= i < |fields| => if i == f then value else fields[i].value)
  }

  /** The payload with field `f` at its alternative `a`. */
  function Variant(fields: seq<Primitive>, f: nat, a: nat): Bytes
    requires f < |fields| && a < |fields[f].Mutations()|
  {
    Joined(Replaced(fields, f, fields[f].Mutations()[a]), 0)
  }

  /** The payloads of one field's alternatives from number `a` on. */
  function Varied(fields: seq<Primitive>, f: nat, a: nat): seq<Bytes>
    requires f < |fields|
    decreases |fields[f].Mutations()| - a
  {
    if a >= |fields[f].Mutations()| then []
    else [Variant(fields, f, a)] + Varied(fields, f, a + 1)
  }

  /** All payloads that replace one field, from field `f` on. */
  function MutationsFrom(fields: seq<Primitive>, f: nat): seq<Bytes>
    decreases |fields| - f
  {
    if f >= |fields| then [] else Varied(fields, f, 0) + MutationsFrom(fields, f + 1)
  }

  lemma {:induction false} JoinPush(output: Bytes, values: seq<Bytes>, i: nat)
    requires i < |values|
    ensures output + Joined(values, i) == (output + values[i]) + Joined(values, i + 1)
  {
    assert output + (values[i] + Joined(values, i + 1)) == (output + values[i]) + Joined(values, i + 1);
  }

  lemma {:induction false} FieldPush(cases: seq<Bytes>, here: seq<Bytes>, fields: seq<Primitive>, f: nat)
    requires f < |fields| && here == Varied(fields, f, 0)
    ensures cases + MutationsFrom(fields, f) == (cases + here) + MutationsFrom(fields, f + 1)
  {
    assert cases + (here + MutationsFrom(fields, f + 1)) == (cases + here) + MutationsFrom(fields, f + 1);
  }

  lemma {:induction false} VariedPush(cases: seq<Bytes>, fields: seq<Primitive>, f: nat, a: nat)
    requires f < |fields| && a < |fields[f].Mutations()|
    ensures cases + Varied(fields, f, a)
         == (cases + [Variant(fields, f, a)]) + Varied(fields, f, a + 1)
  {
  }

  method MutateField(fields: seq<Primitive>, f: nat) returns (cases: seq<Bytes>)
    requires f < |fields|
    ensures cases == Varied(fields, f, 0)
  {
    cases := [];
    var alternatives := fields[f].Mutations();
    for a := 0 to |alternatives|
      invariant cases + Varied(fields, f, a) == Varied(fields, f, 0)
    {
      var output := RenderVaried(fields, f, alternatives[a]);
      VariedPush(cases, fields, f, a);
      cases := cases + [output];
    }
  }

  method RenderVaried(fields: seq<Primitive>, f: nat, alternative: Bytes) returns (output: Bytes)
    ensures output == Joined(Replaced(fields, f, alternative), 0)
  {
    output := [];
    ghost var values := Replaced(fields, f, alternative);
    for i := 0 to |fields|
      invariant output + Joined(values, i) == Joined(values, 0)
    {
      var value := if i == f then alternative else fields[i].value;
      JoinPush(output, values, i);
      output := output + value;
    }
  }

  // ----- the compiled form -----

  /** Fields receive the names field0, field1, and so on. */
  function FlatNodes(fields: seq<Primitive>, from: nat): (r: seq<Node>)
    decreases |fields| - from
  {
    if from >= |fields| then []
    else
      var leaf := Leaf("field" + Decimal(from), Field(fields[from].value, fields[from].Mutations()));
      [leaf] + FlatNodes(fields, from + 1)
  }

  function FlatBlock(name: string, fields: seq<Primitive>): Block {
    Block(name, FlatNodes(fields, 0), None, None, None)
  }

  lemma {:induction false} FlatHasNoMirrors(fields: seq<Primitive>, from: nat)
    ensures NoMirrorsIn(FlatNodes(fields, from))
    decreases |fields| - from
  {
    if from < |fields| {
      FlatHasNoMirrors(fields, from + 1);
    }
  }

  // ----- its table -----

  /** Entry `i + 1` is the atom of field `i`. */
  predicate FieldAt(entries: seq<Entry>, fields: seq<Primitive>, i: nat) {
    i < |fields| && i + 1 < |entries| ==>
      && entries[i + 1].kind == Atom(Field(fields[i].value, fields[i].Mutations()))
      && entries[i + 1].condition.None? && entries[i + 1].parent == Some(0) && entries[i + 1].group.None?
  }

  predicate ChildAt(children: seq<nat>, k: nat) {
    k < |children| ==> children[k] == k + 1
  }

  /** A block over the atoms of all fields, in order, and nothing else. */
  ghost predicate FlatTable(entries: seq<Entry>, fields: seq<Primitive>) {
    && |entries| == |fields| + 1
    && entries[0].kind.Container? && |entries[0].kind.children| == |fields|
    && entries[0].condition.None? && entries[0].alignment.None? && entries[0].parent.None? && entries[0].group.None?
    && (forall k: nat :: ChildAt(entries[0].kind.children, k))
    && (forall i: nat :: FieldAt(entries, fields, i))
  }

  lemma {:induction false} FlatIndices(fields: seq<Primitive>, from: nat, k: nat)
    requires from <= |fields|
    ensures NodesSize(FlatNodes(fields, from)) == |FlatNodes(fields, from)| == |fields| - from
    ensures from + k < |fields| ==> Indices(FlatNodes(fields, from), from + 1)[k] == from + k + 1
    decreases |fields| - from
  {
    if from < |fields| {
      FlatIndices(fields, from + 1, if k > 0 then k - 1 else 0);
    }
  }

  lemma {:induction false} FlatPlaced(entries: seq<Entry>, fields: seq<Primitive>, path: string, from: nat, i: nat)
    requires from <= i < |fields| && PlacedAll(entries, FlatNodes(fields, from), path, 0, from + 1)
    ensures FieldAt(entries, fields, i)
    decreases |fields| - from
  {
    if from < i {
      assert FlatNodes(fields, from)[1..] == FlatNodes(fields, from + 1);
      FlatPlaced(entries, fields, path, from + 1, i);
    }
  }

  lemma {:induction false} FlatIsTable(entries: seq<Entry>, name: string, fields: seq<Primitive>)
    requires IsTable(entries, Nested(FlatBlock(name, fields)))
    ensures FlatTable(entries, fields)
  {
    FlatIndices(fields, 0, 0);
    forall k: nat ensures ChildAt(entries[0].kind.children, k) {
      FlatIndices(fields, 0, k);
    }
    forall i: nat ensures FieldAt(entries, fields, i) {
      if i < |fields| {
        FlatPlaced(entries, fields, PathOf("", name), 0, i);
      }
    }
  }

  // ----- rendering it -----

  /** The byte strings a scene puts in place of the fields. */
  ghost predicate Filled(scene: Scene, fields: seq<Primitive>, values: seq<Bytes>) {
    && FlatTable(scene.request.entries, fields) && |values| == |fields|
    && Lookup(scene.replacements, 0).None?
    && forall i: nat :: FilledAt(scene, fields, values, i)
  }

  ghost predicate FilledAt(scene: Scene, fields: seq<Primitive>, values: seq<Bytes>, i: nat) {
    i < |fields| && i < |values| ==>
      values[i] == match Lookup(scene.replacements, i + 1) case Some(value) => value case None => fields[i].value
  }

  lemma {:induction false} FlatVisible(scene: Scene, fields: seq<Primitive>, e: nat)
    requires WellFormed(scene.request) && FlatTable(scene.request.entries, fields) && e <= |fields|
    ensures Visible(scene, e) == Ok(true)
  {
    assert Visible(scene, 0) == Ok(true);
    if e > 0 {
      assert FieldAt(scene.request.entries, fields, e - 1);
    }
  }

  lemma {:induction false} FieldEmits(
      scene: Scene, size: SizeRenderer, fields: seq<Primitive>, values: seq<Bytes>, i: nat)
    requires Ready(scene) && Filled(scene, fields, values) && i < |fields|
    ensures Emit(scene, size, i + 1, {}) == if |values[i]| > scene.request.maxBytes then Err(Limit)
      else Ok([Token(i + 1, values[i])])
  {
    assert FieldAt(scene.request.entries, fields, i) && FilledAt(scene, fields, values, i);
    FlatVisible(scene, fields, i + 1);
  }

  /** The children from number `k` on add their values, or exceed the budget. */
  lemma {:induction false} FlatChildren(
      scene: Scene, size: SizeRenderer, fields: seq<Primitive>, values: seq<Bytes>, k: nat, done: seq<Token>)
    requires Ready(scene) && Filled(scene, fields, values) && k <= |fields|
    requires |Flatten(done)| <= scene.request.maxBytes
    ensures var r := EmitChildren(scene, size, 0, k, {}, done);
            if |Flatten(done) + Joined(values, k)| <= scene.request.maxBytes
            then r.Ok? && Flatten(r.value) == Flatten(done) + Joined(values, k)
            else r == Err(Limit)
    decreases |fields| - k
  {
    if k < |fields| {
      assert ChildAt(scene.request.entries[0].kind.children, k);
      FieldEmits(scene, size, fields, values, k);
      JoinPush(Flatten(done), values, k);
      if |values[k]| <= scene.request.maxBytes - |Flatten(done)| {
        FlattenOne(Token(k + 1, values[k]));
        FlattenAppend(done, [Token(k + 1, values[k])]);
        FlatChildren(scene, size, fields, values, k + 1, done + [Token(k + 1, values[k])]);
      }
    }
  }

  /** A flat request renders to its values in order, or exceeds the budget. */
  lemma {:induction false} FlatRenders(scene: Scene, size: SizeRenderer, fields: seq<Primitive>, values: seq<Bytes>)
    requires Ready(scene) && Filled(scene, fields, values)
    ensures Render(scene, size, 0, {}) == if |Joined(values, 0)| <= scene.request.maxBytes
      then Ok(Joined(values, 0)) else Err(Limit)
  {
    FlatVisible(scene, fields, 0);
    FlatChildren(scene, size, fields, values, 0, []);
    assert Flatten([]) + Joined(values, 0) == Joined(values, 0);
  }

  // ----- exactly when it compiles -----

  lemma {:induction false} FlatNodesOk(fields: seq<Primitive>, from: nat)
    ensures NodesOk(FlatNodes(fields, from), 1)
    decreases |fields| - from
  {
    if from < |fields| {
      FlatNodesOk(fields, from + 1);
      DecimalDenotes(from);
      assert NodesOk(FlatNodes(fields, from)[1..], 1);
      DigitsAreNames(Decimal(from));
    }
  }

  lemma {:induction false} DigitsAreNames(digits: string)
    requires forall c <- digits :: IsDigit(c)
    ensures ValidName("field" + digits)
  {
    var name := "field" + digits;
    forall c <- name ensures c != '.' && c != '/' && c != '+' {
      if c !in digits {
        assert c in "field";
      }
    }
  }

  predicate PathAt(list: seq<string>, path: string, from: nat, k: nat) {
    k < |list| ==> list[k] == path + "." + ("field" + Decimal(from + k))
  }

  lemma {:induction false} FlatPaths(fields: seq<Primitive>, path: string, from: nat)
    requires path != ""
    ensures forall k: nat :: PathAt(PathsOfAll(FlatNodes(fields, from), path), path, from, k)
    decreases |fields| - from
  {
    if from < |fields| {
      FlatPaths(fields, path, from + 1);
      var nodes := FlatNodes(fields, from);
      var rest := PathsOfAll(FlatNodes(fields, from + 1), path);
      assert nodes[1..] == FlatNodes(fields, from + 1);
      assert PathsOfAll(nodes, path) == [path + "." + ("field" + Decimal(from))] + rest;
      forall k: nat ensures PathAt(PathsOfAll(nodes, path), path, from, k) {
        assert k > 0 ==> PathAt(rest, path, from + 1, k - 1);
      }
    }
  }

  /** A flat definition is well formed exactly when its name is valid: the generated names never clash. */
  lemma {:induction false} FlatFormed(name: string, fields: seq<Primitive>)
    ensures Formed(Nested(FlatBlock(name, fields)), "", 0, {}) <==> ValidName(name)
  {
    var node := Nested(FlatBlock(name, fields));
    FlatNodesOk(fields, 0);
    assert PathOf("", name) == name;
    FormedBlock(node, "", 0, {});
    if ValidName(name) {
      FlatPaths(fields, name, 0);
      var list := PathsOfAll(FlatNodes(fields, 0), name);
      forall i: nat ensures FreshPath({} + {name}, list, i) {
        assert PathAt(list, name, 0, i);
        assert i < |list| ==> |list[i]| > |name|;
      }
      forall i: nat, j: nat ensures PathsDiffer(list, i, j) {
        if i < j < |list| {
          assert PathAt(list, name, 0, i) && PathAt(list, name, 0, j);
          NamesDiffer(name, i, j);
        }
      }
    }
  }

  lemma {:induction false} NamesDiffer(name: string, i: nat, j: nat)
    requires i != j
    ensures name + "." + ("field" + Decimal(i)) != name + "." + ("field" + Decimal(j))
  {
    var a, b := name + "." + ("field" + Decimal(i)), name + "." + ("field" + Decimal(j));
    var n := |name| + 6;
    assert a[n..] == Decimal(i) && b[n..] == Decimal(j);
    if a == b {
      DecimalInjective(i, j);
    }
  }

  lemma {:induction false} FlatReferences(bare: CompiledRequest, name: string, fields: seq<Primitive>)
    requires TableFor(bare, FlatBlock(name, fields))
    ensures ReferencesHold(bare)
  {
    FlatIsTable(bare.entries, name, fields);
    forall i: nat ensures GroupOk(bare, i) && ReferencesOk(bare, i) {
      assert i > 0 ==> FieldAt(bare.entries, fields, i - 1);
    }
  }

  lemma {:induction false} FlatWantsNothing(request: CompiledRequest, fields: seq<Primitive>, derived: Derived)
    requires Structured(request) && FlatTable(request.entries, fields)
    ensures !DependenciesFaulty(request, derived)
  {
    forall i: nat ensures !Wanted(request, derived, i) {
      assert i > 0 ==> FieldAt(request.entries, fields, i - 1);
    }
    NothingWanted(request, derived);
  }

  /** The default payload renders exactly when it fits the budget. */
  lemma {:induction false} FlatDefaults(request: CompiledRequest, fields: seq<Primitive>, digest: Digest)
    requires Sound(DefaultScene(request, digest)) && FlatTable(request.entries, fields)
    ensures DefaultsOk(request, digest) <==> |Joined(Defaults(fields), 0)| <= request.maxBytes
  {
    var scene := DefaultScene(request, digest);
    forall i: nat ensures FilledAt(scene, fields, Defaults(fields), i) {
    }
    FlatRenders(scene, Sizes(scene), fields, Defaults(fields));
    forall i: nat ensures DefaultSizeOk(request, digest, i) {
      assert i > 0 ==> FieldAt(request.entries, fields, i - 1);
    }
  }

  lemma {:induction false} FlatNotFaulty(request: CompiledRequest, name: string, fields: seq<Primitive>, digest: Digest)
    requires Assembled(request, FlatBlock(name, fields)) && |Joined(Defaults(fields), 0)| <= request.maxBytes
    ensures !Faulty(request, digest)
  {
    FlatIsTable(request.entries, name, fields);
    if Structured(request) {
      FlatWantsNothing(request, fields, SizeFields);
      FlatWantsNothing(request, fields, ChecksumFields);
      if Sound(DefaultScene(request, digest)) {
        FlatDefaults(request, fields, digest);
      }
    }
  }

  /** A flat request compiles exactly when its name is valid and its default payload fits the budget. */
  method FromRequest(name: string, request: Request, maxBytes: Int32, digest: Digest)
      returns (r: Result<CompiledRequest>)
    ensures r.Ok? <==> maxBytes >= 0 && ValidName(name) && |Joined(Defaults(request.fields), 0)| <= maxBytes
    ensures r.Ok? ==> Compiled(r.value, FlatBlock(name, request.fields), digest) && r.value.maxBytes == maxBytes
  {
    var root := FlatBlock(name, request.fields);
    FlatHasNoMirrors(request.fields, 0);
    NoMirrorsMeasurable(root);
    r := Compile(root, maxBytes, digest);
    FlatFormed(name, request.fields);
    if r.Ok? {
      FlatIsTable(r.value.entries, name, request.fields);
      FlatDefaults(r.value, request.fields, digest);
    } else if maxBytes >= 0 && ValidName(name) && |Joined(Defaults(request.fields), 0)| <= maxBytes {
      forall bare | TableFor(bare, root) ensures ReferencesHold(bare) {
        FlatReferences(bare, name, request.fields);
      }
      forall made | Assembled(made, root) && made.maxBytes == maxBytes ensures !Faulty(made, digest) {
        FlatNotFaulty(made, name, request.fields, digest);
      }
    }
  }

  // ----- its stream -----

  /** The single part of a case, and the payload that replaces that field. */
  ghost predicate Describes(fields: seq<Primitive>, parts: Parts, bytes: Bytes) {
    && |parts| == 1 && 0 < parts[0].0 <= |fields|
    && parts[0].1 < |fields[parts[0].0 - 1].Mutations()|
    && bytes == Variant(fields, parts[0].0 - 1, parts[0].1)
  }

  ghost predicate DescribesAll(fields: seq<Primitive>, all: seq<Parts>, payloads: seq<Bytes>) {
    |all| == |payloads| && forall k: nat :: DescribesAt(fields, all, payloads, k)
  }

  ghost predicate DescribesAt(fields: seq<Primitive>, all: seq<Parts>, payloads: seq<Bytes>, k: nat) {
    k < |all| && k < |payloads| ==> Describes(fields, all[k], payloads[k])
  }

  ghost predicate VariantAt(list: seq<Bytes>, fields: seq<Primitive>, f: nat, a: nat, k: nat)
    requires f < |fields|
  {
    k < |list| && a + k < |fields[f].Mutations()| ==> list[k] == Variant(fields, f, a + k)
  }

  lemma {:induction false} VariedShape(fields: seq<Primitive>, f: nat, a: nat)
    requires f < |fields| && a <= |fields[f].Mutations()|
    ensures |Varied(fields, f, a)| == |fields[f].Mutations()| - a
    ensures forall k: nat :: VariantAt(Varied(fields, f, a), fields, f, a, k)
    decreases |fields[f].Mutations()| - a
  {
    if a < |fields[f].Mutations()| {
      VariedShape(fields, f, a + 1);
      forall k: nat ensures VariantAt(Varied(fields, f, a), fields, f, a, k) {
        assert k > 0 ==> VariantAt(Varied(fields, f, a + 1), fields, f, a + 1, k - 1);
      }
    }
  }

  /** The units of one field describe its alternatives. */
  lemma {:induction false} FieldDescribed(fields: seq<Primitive>, f: nat)
    requires f < |fields|
    ensures DescribesAll(fields, PartsOf(LeafUnits(f + 1, [], 0, |fields[f].Mutations()|)), Varied(fields, f, 0))
  {
    LeafUnitsShape(f + 1, [], 0, |fields[f].Mutations()|);
    VariedShape(fields, f, 0);
    var units, payloads := LeafUnits(f + 1, [], 0, |fields[f].Mutations()|), Varied(fields, f, 0);
    forall k: nat ensures DescribesAt(fields, PartsOf(units), payloads, k) {
      assert VariantAt(payloads, fields, f, 0, k);
    }
  }

  lemma {:induction false} DescribedTogether(
      fields: seq<Primitive>, a: seq<StreamUnit>, b: seq<StreamUnit>, p: seq<Bytes>, q: seq<Bytes>)
    requires DescribesAll(fields, PartsOf(a), p) && DescribesAll(fields, PartsOf(b), q)
    ensures DescribesAll(fields, PartsOf(a + b), p + q)
  {
    forall k: nat ensures DescribesAt(fields, PartsOf(a + b), p + q, k) {
      if k < |a| {
        assert DescribesAt(fields, PartsOf(a), p, k);
      } else {
        assert DescribesAt(fields, PartsOf(b), q, k - |a|);
      }
    }
  }

  lemma {:induction false} FieldUnits(entries: seq<Entry>, fields: seq<Primitive>, f: nat)
    requires f < |fields| && |entries| == |fields| + 1 && FieldAt(entries, fields, f)
    ensures FlatUnits(CountsOf(entries), Mutating(entries, f + 1, |entries|))
         == LeafUnits(f + 1, [], 0, |fields[f].Mutations()|) +
           FlatUnits(CountsOf(entries), Mutating(entries, f + 2, |entries|))
  {
    var counts, rest := CountsOf(entries), Mutating(entries, f + 2, |entries|);
    assert CountAt(counts, f + 1) == |fields[f].Mutations()|;
    if fields[f].Mutations() == [] {
      assert Mutating(entries, f + 1, |entries|) == [] + rest == rest;
    } else {
      assert Mutating(entries, f + 1, |entries|) == [f + 1] + rest && ([f + 1] + rest)[1..] == rest;
    }
  }

  /** Position by position, the sequential enumeration describes the eager list. */
  lemma {:induction false} UnitsDescribe(entries: seq<Entry>, fields: seq<Primitive>, f: nat)
    requires FlatTable(entries, fields) && f <= |fields|
    ensures DescribesAll(fields, PartsOf(FlatUnits(CountsOf(entries), Mutating(entries, f + 1, |entries|))),
      MutationsFrom(fields, f))
    decreases |fields| - f
  {
    if f < |fields| {
      assert FieldAt(entries, fields, f);
      UnitsDescribe(entries, fields, f + 1);
      FieldUnits(entries, fields, f);
      FieldThenRest(fields, f, LeafUnits(f + 1, [], 0, |fields[f].Mutations()|),
                    FlatUnits(CountsOf(entries), Mutating(entries, f + 2, |entries|)),
                    FlatUnits(CountsOf(entries), Mutating(entries, f + 1, |entries|)));
    } else {
      assert Mutating(entries, f + 1, |entries|) == [];
    }
  }

  lemma {:induction false} FieldThenRest(
      fields: seq<Primitive>, f: nat, here: seq<StreamUnit>, rest: seq<StreamUnit>, all: seq<StreamUnit>)
    requires f < |fields| && here == LeafUnits(f + 1, [], 0, |fields[f].Mutations()|) && all == here + rest
    requires DescribesAll(fields, PartsOf(rest), MutationsFrom(fields, f + 1))
    ensures DescribesAll(fields, PartsOf(all), MutationsFrom(fields, f))
  {
    FieldDescribed(fields, f);
    DescribedTogether(fields, here, rest, Varied(fields, f, 0), MutationsFrom(fields, f + 1));
  }

  lemma {:induction false} StreamDescribes(request: CompiledRequest, name: string, fields: seq<Primitive>)
    requires Assembled(request, FlatBlock(name, fields))
    ensures FlatTable(request.entries, fields)
    ensures DescribesAll(fields, SequentialParts(request), MutationsFrom(fields, 0))
  {
    FlatIsTable(request.entries, name, fields);
    forall i | 0 <= i < |request.entries| ensures request.entries[i].group.None? {
      assert i > 0 ==> FieldAt(request.entries, fields, i - 1);
    }
    AssembledUngrouped(request, FlatBlock(name, fields));
    assert UngroupedAt(Units(Counts(request), request.caseSeq, []), Counts(request),
      Mutating(request.entries, 0, |request.entries|), 0);
    UnitsDescribe(request.entries, fields, 0);
    var all := Mutating(request.entries, 1, |request.entries|);
    assert Mutating(request.entries, 0, |request.entries|) == [] + all == all;
  }

  /** Building a described case gives its payload, unless that is over the budget. */
  lemma {:induction false} DescribedBuilds(plan: Plan, fields: seq<Primitive>, parts: Parts, bytes: Bytes, ordinal: nat)
    requires PlanOk(plan) && FlatTable(plan.request.entries, fields) && Describes(fields, parts, bytes)
    ensures var built := BuilderOf(plan)(parts, ordinal);
            if |bytes| <= plan.request.maxBytes
            then built.Ok? && built.value.payload == bytes && built.value.ordinal == ordinal
            else built == Err(Limit)
  {
    var f, request := parts[0].0 - 1, plan.request;
    assert FieldAt(request.entries, fields, f);
    assert PartsOk(request, parts);
    var scene := SceneOf(plan, parts);
    var value := fields[f].Mutations()[parts[0].1];
    var values := Replaced(fields, f, value);
    assert scene.replacements == [(f + 1, value)];
    forall i: nat ensures FilledAt(scene, fields, values, i) {
      LookupSingle(f + 1, value, i + 1);
    }
    LookupSingle(f + 1, value, 0);
    FlatRenders(scene, Sizes(scene), fields, values);
    JoinedCovers(values, 0, f);
  }

  lemma {:induction false} JoinedCovers(values: seq<Bytes>, from: nat, i: nat)
    requires from <= i < |values|
    ensures |values[i]| <= |Joined(values, from)|
    decreases |values| - from
  {
    if from < i {
      JoinedCovers(values, from + 1, i);
    }
  }

  /** The members of a list that fit the budget, each with its index. */
  function Fitting(payloads: seq<Bytes>, maxBytes: nat, from: nat): seq<(nat, Bytes)>
    decreases |payloads| - from
  {
    if from >= |payloads| then []
    else (if |payloads[from]| <= maxBytes then [(from, payloads[from])] else []) + Fitting(payloads, maxBytes, from + 1)
  }

  function Positions(cases: seq<MutationCase>): (r: seq<(nat, Bytes)>)
    ensures |r| == |cases| && forall k :: 0 <= k < |r| ==> r[k] == (cases[k].ordinal, cases[k].payload)
  {
    seq(|cases|, k requires 0 <= k < |cases| => (cases[k].ordinal, cases[k].payload))
  }

  /** Position `k` builds its payload, unless that is over the budget. */
  ghost predicate BuildsAt(build: Builder, all: seq<Parts>, payloads: seq<Bytes>, maxBytes: nat, k: nat) {
    k < |all| && k < |payloads| ==>
      if |payloads[k]| <= maxBytes
      then build(all[k], k).Ok? && build(all[k], k).value.payload == payloads[k] && build(all[k], k).value.ordinal == k
      else build(all[k], k) == Err(Limit)
  }

  lemma {:induction false} SurvivorsFit(build: Builder, all: seq<Parts>, payloads: seq<Bytes>, maxBytes: nat, from: nat)
    requires |all| == |payloads| <= MAX_ORDINAL
    requires forall k: nat :: BuildsAt(build, all, payloads, maxBytes, k)
    ensures Positions(Survivors(build, all, from)) == Fitting(payloads, maxBytes, from)
    decreases |all| - from
  {
    if from < |all| {
      SurvivorsFit(build, all, payloads, maxBytes, from + 1);
      assert BuildsAt(build, all, payloads, maxBytes, from);
    }
  }

  lemma {:induction false} AllBuild(plan: Plan, fields: seq<Primitive>, all: seq<Parts>, payloads: seq<Bytes>)
    requires PlanOk(plan) && FlatTable(plan.request.entries, fields) && DescribesAll(fields, all, payloads)
    ensures forall k: nat :: BuildsAt(BuilderOf(plan), all, payloads, plan.request.maxBytes, k)
  {
    forall k: nat ensures BuildsAt(BuilderOf(plan), all, payloads, plan.request.maxBytes, k) {
      if k < |all| {
        assert DescribesAt(fields, all, payloads, k);
        DescribedBuilds(plan, fields, all[k], payloads[k], k);
      }
    }
  }

  /**
    * The compiled sequential stream, from any start and given enough calls and room, emits exactly the members of the
    * eager list that fit the budget, in order, each with its index as its ordinal.
    */
  lemma {:induction false} FlatStreamRefines(plan: Plan, name: string, request: Request, start: nat, limit: nat, n: nat)
    requires Compiled(plan.request, FlatBlock(name, request.fields), plan.digest)
    requires |MutationsFrom(request.fields, 0)| <= MAX_ORDINAL
    requires limit >= |MutationsFrom(request.fields, 0)| && n > limit
    ensures Positions(Run(BuilderOf(plan), limit, Fresh(SequentialParts(plan.request), start), n).1)
         == Fitting(MutationsFrom(request.fields, 0), plan.request.maxBytes, start)
  {
    var all, payloads := SequentialParts(plan.request), MutationsFrom(request.fields, 0);
    StreamDescribes(plan.request, name, request.fields);
    AllBuild(plan, request.fields, all, payloads);
    SurvivorsFit(BuilderOf(plan), all, payloads, plan.request.maxBytes, start);
    FittingCount(payloads, plan.request.maxBytes, start);
    RunCompletes(BuilderOf(plan), limit, all, Fresh(all, start), n);
  }

  lemma {:induction false} FittingCount(payloads: seq<Bytes>, maxBytes: nat, from: nat)
    ensures |Fitting(payloads, maxBytes, from)| <= |payloads|
    ensures from <= |payloads| ==> |Fitting(payloads, maxBytes, from)| <= |payloads| - from
    decreases |payloads| - from
  {
    if from < |payloads| {
      FittingCount(payloads, maxBytes, from + 1);
    }
  }
}
