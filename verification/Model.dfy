/** Protocol definitions, the compiled entry table, and the parts of it that need no recursion. */
module Model {
  import opened Wrappers
  import opened Integers
  import opened CaseSequences

  // ----- definitions -----

  /** The source's `Int`. */
  type Int32 = n: int | -0x8000_0000 <= n < 0x8000_0000

  /** A byte limit: an `Int` that is not negative. */
  type Budget = n: nat | n < 0x8000_0000

  /** A field with its default bytes and its candidate values, in mutation order. */
  datatype Field = Field(value: Bytes, candidates: seq<Bytes>)

  datatype Condition =
    | Equal(path: string, expected: Bytes)
    | NotEqual(path: string, expected: Bytes)
    | OneOf(path: string, choices: seq<Bytes>)
    | NotOneOf(path: string, choices: seq<Bytes>)
    | Greater(path: string, expected: Bytes)
    | GreaterEqual(path: string, expected: Bytes)
    | Less(path: string, expected: Bytes)
    | LessEqual(path: string, expected: Bytes)

  datatype RawAlignment = Alignment(modulus: nat, pattern: Bytes)
  /** Blocks are only aligned to a positive modulus with a nonempty pattern. */
  type Alignment = a: RawAlignment | a.modulus > 0 && |a.pattern| > 0 witness Alignment(1, [0])

  datatype RawSizeSpec = SizeSpec(
    target: string, length: nat, endian: Endian, offset: int, inclusive: bool, ascii: bool, mutations: seq<Bytes>)
  /** What the size constructor guarantees: a binary field's candidates have its width. */
  type SizeSpec = s: RawSizeSpec |
    && s.length in {1, 2, 4, 8}
    && !(s.ascii && s.inclusive)
    && (!s.ascii ==> forall m <- s.mutations :: |m| == s.length)
    witness SizeSpec("", 1, Little, 0, false, false, [])

  datatype Algorithm = Crc32 | Crc32c | Adler32 | Md5 | Sha1 {
    function Length(): nat {
      match this
      case Crc32 => 4
      case Crc32c => 4
      case Adler32 => 4
      case Md5 => 16
      case Sha1 => 20
    }
  }

  datatype RawChecksumSpec = ChecksumSpec(target: string, endian: Endian, mutations: seq<Bytes>, algorithm: Algorithm)
  type ChecksumSpec = s: RawChecksumSpec | forall m <- s.mutations :: |m| == s.algorithm.Length()
    witness ChecksumSpec("", Little, [], Crc32)

  datatype Node =
    | Leaf(name: string, field: Field)
    | Nested(block: Block)
    | Repeat(name: string, target: string, min: Int32, max: Int32, step: Int32, variable: Option<string>)
    | Sized(name: string, size: SizeSpec)
    | Checksummed(name: string, checksum: ChecksumSpec)
    | Mirrored(name: string, target: string)
    | Bound(name: string, source: string, field: Field)

  datatype Block = Block(
    name: string, children: seq<Node>, condition: Option<Condition>,
    alignment: Option<Alignment>, group: Option<string>)

  // ----- the compiled table -----

  datatype EntryKind =
    | Atom(field: Field)
    | Dynamic(field: Field, source: string)
    | Container(children: seq<nat>)
    | Repetition(target: string, min: Int32, max: Int32, step: Int32, variable: Option<string>)
    | ComputedSize(size: SizeSpec)
    | ComputedChecksum(checksum: ChecksumSpec)
    | Mirror(target: string)
  {
    function Count(): nat {
      match this
      case Atom(field) => |field.candidates|
      case Dynamic(field, _) => |field.candidates|
      case ComputedSize(size) => |size.mutations|
      case ComputedChecksum(checksum) => |checksum.mutations|
      case Repetition(_, min, max, step, _) => if step > 0 && max >= min then (max - min) / step + 1 else 0
      case Mirror(_) => 0
      case Container(_) => 0
    }

    function Children(): seq<nat> {
      if Container? then children else []
    }

    /** The bytes of a candidate; an index at or past the count is not a candidate of a mutating entry. */
    function Candidate(index: nat): Bytes
      requires index < Count() || Mirror? || Container?
    {
      match this
      case Atom(field) => field.candidates[index]
      case Dynamic(field, _) => field.candidates[index]
      case ComputedSize(size) => size.mutations[index]
      case ComputedChecksum(checksum) => checksum.mutations[index]
      case Repetition(_, min, _, step, _) => EncodeInteger(ToUInt64(min + step * index), 4, Little)
      case Mirror(_) => []
      case Container(_) => []
    }
  }

  datatype Entry = Entry(
    path: string, parent: Option<nat>, kind: EntryKind, condition: Option<Condition>,
    alignment: Option<Alignment>, group: Option<string>)

  datatype CompiledRequest = CompiledRequest(
    name: string, entries: seq<Entry>, paths: map<string, nat>, maxBytes: Budget, caseSeq: CaseSeq)
  {
    function Resolve(path: string): Result<nat> {
      if path in paths then Ok(paths[path]) else Err(Invalid(UnknownPath))
    }

    predicate Resolves(path: string, index: nat) {
      path in paths && paths[path] == index
    }
  }

  function ToUInt64(x: int): nat {
    x % 0x1_0000_0000_0000_0000
  }

  function ToInt32(x: int): (r: int)
    ensures -0x8000_0000 <= x < 0x8000_0000 ==> r == x
  {
    (x + 0x8000_0000) % 0x1_0000_0000 - 0x8000_0000
  }

  /** Division and remainder that truncate toward zero. */
  function TruncatedDiv(a: nat, b: int): int
    requires b != 0
  {
    if b > 0 then a / b else -(a / -b)
  }

  function TruncatedMod(a: int, b: nat): int
    requires b > 0
  {
    if a >= 0 then a % b else -(-a % b)
  }

  function CountsOf(entries: seq<Entry>): (r: seq<nat>)
    ensures |r| == |entries|
    ensures forall i :: 0 <= i < |r| ==> r[i] == entries[i].kind.Count()
  {
    seq(|entries|, i requires 0 <= i < |entries| => entries[i].kind.Count())
  }

  function Counts(request: CompiledRequest): (r: seq<nat>) {
    CountsOf(request.entries)
  }

  function PathsOf(request: CompiledRequest): (r: seq<string>)
    ensures |r| == |request.entries|
    ensures forall i :: 0 <= i < |r| ==> r[i] == request.entries[i].path
  {
    seq(|request.entries|, i requires 0 <= i < |request.entries| => request.entries[i].path)
  }

  // ----- replacements and session variables -----

  type Replacements = seq<(nat, Bytes)>
  type Variables = Option<map<string, Bytes>>

  /** The first replacement of an entry wins. */
  function Lookup(replacements: Replacements, index: nat): Option<Bytes> {
    if replacements == [] then None
    else if replacements[0].0 == index then Some(replacements[0].1)
    else Lookup(replacements[1..], index)
  }

  /** Signed 32-bit value of the first four bytes. */
  function DecodeRepeat(bytes: Bytes): int
    requires |bytes| >= 4
  {
    ToInt32(LittleValue(bytes[..4]))
  }

  /** A checksum digest: any function with the algorithm's output length. */
  type Digest = f: (Algorithm, Bytes) -> Bytes | forall a, b :: |f(a, b)| == a.Length()
    witness (a: Algorithm, b: Bytes) => Zeros(a.Length())

  function Zeros(n: nat): (r: Bytes)
    ensures |r| == n
    ensures forall i :: 0 <= i < n ==> r[i] == 0
  {
    seq(n, _ => 0)
  }

  /** Swap the bytes of each 32-bit word. */
  function SwapWords(bytes: Bytes): (r: Bytes)
    ensures |r| == |bytes| - |bytes| % 4
  {
    if |bytes| < 4 then [] else [bytes[3], bytes[2], bytes[1], bytes[0]] + SwapWords(bytes[4..])
  }

  /** A big-endian checksum field swaps each word of the standard digest. */
  function RenderChecksum(digest: Digest, spec: ChecksumSpec, bytes: Bytes): (r: Bytes)
    ensures |r| == spec.algorithm.Length()
  {
    var standard := digest(spec.algorithm, bytes);
    if spec.endian.Big? then SwapWords(standard) else standard
  }

  /** Everything a rendering depends on besides the node: request, digest, replacements and variables. */
  datatype Scene = Scene(request: CompiledRequest, digest: Digest, replacements: Replacements, vars: Variables)

  // ----- well-formed tables -----

  predicate EntryOk(request: CompiledRequest, i: nat) {
    i < |request.entries| ==>
      && (request.entries[i].parent.Some? ==> request.entries[i].parent.value < i)
      && ForwardAt(request.entries, i)
  }

  predicate ForwardAt(entries: seq<Entry>, i: nat) {
    i < |entries| && entries[i].kind.Container? ==> ChildrenForward(entries, i, entries[i].kind.children)
  }

  predicate ChildrenForward(entries: seq<Entry>, i: nat, children: seq<nat>) {
    forall k :: 0 <= k < |children| ==> i < children[k] < |entries|
  }

  /** Children follow their blocks in the table. */
  ghost predicate Forward(entries: seq<Entry>) {
    forall i: nat :: ForwardAt(entries, i)
  }

  /** Parents precede their entries, children follow them, and paths name entries. */
  ghost predicate WellFormed(request: CompiledRequest) {
    && |request.entries| > 0
    && (forall i: nat :: EntryOk(request, i))
    && (forall path <- request.paths :: request.paths[path] < |request.entries|)
  }

  /** Replacements of repeat counts are four bytes, as every repeat candidate is. */
  predicate RepeatReplaced(scene: Scene, i: nat) {
    i < |scene.request.entries| && scene.request.entries[i].kind.Repetition? && Lookup(scene.replacements, i).Some? ==>
      |Lookup(scene.replacements, i).value| >= 4
  }

  ghost predicate Renderable(scene: Scene) {
    WellFormed(scene.request) && forall i: nat :: RepeatReplaced(scene, i)
  }

  // ----- conditions -----

  /** Byte-wise lexicographic comparison: negative, zero or positive. */
  function Compare(left: Bytes, right: Bytes): int {
    if left == [] && right == [] then 0
    else if left == [] then -1
    else if right == [] then 1
    else if left[0] != right[0] then (if left[0] < right[0] then -1 else 1)
    else Compare(left[1..], right[1..])
  }

  /** The comparison as the source's early-returning loop over the shared length. */
  method BytesLexicographic(left: Bytes, right: Bytes) returns (r: int)
    ensures r == Compare(left, right)
  {
    var shared := if |left| < |right| then |left| else |right|;
    for i := 0 to shared
      invariant Compare(left, right) == Compare(left[i..], right[i..])
    {
      assert left[i..][1..] == left[i + 1..] && right[i..][1..] == right[i + 1..];
      if left[i] != right[i] {
        return if left[i] < right[i] then -1 else 1;
      }
    }
    return if |left| < |right| then -1 else if |left| > |right| then 1 else 0;
  }

  /** The comparison orders byte strings by their first difference, a proper prefix coming first. */
  lemma {:induction false} CompareMeaning(left: Bytes, right: Bytes)
    ensures Compare(left, right) == 0 <==> left == right
    ensures Compare(left, right) == -Compare(right, left)
    ensures Compare(left, right) < 0 <==>
      exists k :: 0 <= k <= |left| && k < |right| && left[..k] == right[..k] && (k == |left| || left[k] < right[k])
  {
    if left != [] && right != [] && left[0] == right[0] {
      var l, r := left[1..], right[1..];
      CompareMeaning(l, r);
      assert left == [left[0]] + l && right == [left[0]] + r;
      if Compare(l, r) < 0 {
        var k :| 0 <= k <= |l| && k < |r| && l[..k] == r[..k] && (k == |l| || l[k] < r[k]);
        assert left[..k + 1] == [left[0]] + l[..k] && right[..k + 1] == [left[0]] + r[..k];
      }
      if k :| 0 <= k <= |left| && k < |right| && left[..k] == right[..k] && (k == |left| || left[k] < right[k]) {
        assert k > 0;
        assert l[..k - 1] == left[..k][1..] && r[..k - 1] == right[..k][1..];
      }
    } else if |right| > 0 {
      assert left[..0] == right[..0];
    }
  }

  /** The configured bytes stand on the left of an ordering test, so `Greater` asks for a smaller value. */
  predicate Matches(condition: Condition, value: Bytes) {
    match condition
    case Equal(_, expected) => value == expected
    case NotEqual(_, expected) => value != expected
    case OneOf(_, choices) => value in choices
    case NotOneOf(_, choices) => value !in choices
    case Greater(_, expected) => Compare(expected, value) > 0
    case GreaterEqual(_, expected) => Compare(expected, value) >= 0
    case Less(_, expected) => Compare(expected, value) < 0
    case LessEqual(_, expected) => Compare(expected, value) <= 0
  }

  /** The value of a field bound to a session variable. */
  function BoundValue(field: Field, source: string, vars: Variables): Result<Bytes> {
    match vars
    case Some(values) => if source in values then Ok(values[source]) else Err(Invalid(MissingVariable))
    case None => Ok(field.value)
  }

  function ConditionValue(scene: Scene, target: nat): Result<Bytes>
    requires target < |scene.request.entries|
  {
    match Lookup(scene.replacements, target)
    case Some(value) => Ok(value)
    case None =>
      match scene.request.entries[target].kind
      case Atom(field) => Ok(field.value)
      case Dynamic(field, source) => BoundValue(field, source, scene.vars)
      case _ => Err(Invalid(BadTarget))
  }

  function ConditionHolds(scene: Scene, condition: Condition): Result<bool>
    requires WellFormed(scene.request)
  {
    var target :- scene.request.Resolve(condition.path);
    var value :- ConditionValue(scene, target);
    Ok(Matches(condition, value))
  }

  /** The condition in the source's form, with the comparison loop for the ordering tests. */
  method CheckCondition(scene: Scene, condition: Condition) returns (r: Result<bool>)
    requires WellFormed(scene.request)
    ensures r == ConditionHolds(scene, condition)
  {
    var target :- scene.request.Resolve(condition.path);
    var value :- ConditionValue(scene, target);
    match condition
    case Equal(_, expected) => return Ok(value == expected);
    case NotEqual(_, expected) => return Ok(value != expected);
    case OneOf(_, choices) => return Ok(value in choices);
    case NotOneOf(_, choices) => return Ok(value !in choices);
    case Greater(_, expected) =>
      var order := BytesLexicographic(expected, value);
      return Ok(order > 0);
    case GreaterEqual(_, expected) =>
      var order := BytesLexicographic(expected, value);
      return Ok(order >= 0);
    case Less(_, expected) =>
      var order := BytesLexicographic(expected, value);
      return Ok(order < 0);
    case LessEqual(_, expected) =>
      var order := BytesLexicographic(expected, value);
      return Ok(order <= 0);
  }

  /** An entry is visible when the conditions on it and on all enclosing blocks hold. */
  function Visible(scene: Scene, i: nat): Result<bool>
    requires WellFormed(scene.request) && i < |scene.request.entries|
    decreases i
  {
    assert EntryOk(scene.request, i);
    var entry := scene.request.entries[i];
    var holds :- if entry.condition.Some? then ConditionHolds(scene, entry.condition.value) else Ok(true);
    if !holds then Ok(false)
    else if entry.parent.Some? then Visible(scene, entry.parent.value)
    else Ok(true)
  }

  /** The upward walk over the enclosing blocks, as a loop with early return. */
  method IsVisible(scene: Scene, i: nat) returns (r: Result<bool>)
    requires WellFormed(scene.request) && i < |scene.request.entries|
    ensures r == Visible(scene, i)
  {
    var current: Option<nat> := Some(i);
    while current.Some?
      invariant current.Some? ==> current.value < |scene.request.entries|
      invariant Visible(scene, i) == if current.Some? then Visible(scene, current.value) else Ok(true)
      decreases current.Some?, if current.Some? then current.value else 0
    {
      assert EntryOk(scene.request, current.value);
      var entry := scene.request.entries[current.value];
      if entry.condition.Some? {
        var holds := CheckCondition(scene, entry.condition.value);
        if holds.Err? {
          return Err(holds.error);
        }
        if !holds.value {
          return Ok(false);
        }
      }
      current := entry.parent;
    }
    return Ok(true);
  }

  /** The repeat count of an entry: a replacement, else the session variable, else zero. */
  function RepeatCount(scene: Scene, i: nat): Result<int>
    requires i < |scene.request.entries| && scene.request.entries[i].kind.Repetition?
    requires RepeatReplaced(scene, i)
  {
    match Lookup(scene.replacements, i)
    case Some(value) => Ok(DecodeRepeat(value))
    case None =>
      match scene.request.entries[i].kind.variable
      case None => Ok(0)
      case Some(name) =>
        match scene.vars
        case None => Ok(0)
        case Some(values) =>
          if name !in values then Err(Invalid(MissingVariable))
          else if |values[name]| < 4 then Err(Invalid(ShortVariable))
          else Ok(DecodeRepeat(values[name]))
  }
}
