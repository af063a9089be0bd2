/** What conditions decide, and which blocks decide whether an entry is visible. */
module Visibility {
  import opened Wrappers
  import opened Integers
  import opened Model
  import opened Layout
  import opened Rendering
  import opened Compilation
  import opened Definitions

  // ----- single conditions -----

  /** The order of byte strings: the first difference decides, and a proper prefix comes first. */
  ghost predicate Before(a: Bytes, b: Bytes) {
    exists k :: 0 <= k <= |a| && k < |b| && a[..k] == b[..k] && (k == |a| || a[k] < b[k])
  }

  /** The value that conditions on a path compare. */
  ghost predicate Sees(scene: Scene, path: string, value: Bytes)
    requires WellFormed(scene.request)
  {
    path in scene.request.paths && ConditionValue(scene, scene.request.paths[path]) == Ok(value)
  }

  /**
   What the eight tests decide about the value they see. The configured bytes stand on the left of an ordering test:
   `Greater` asks for a value that comes before them.
   */
  lemma {:induction false} ConditionMeaning(
      scene: Scene, path: string, value: Bytes, expected: Bytes, choices: seq<Bytes>)
    requires WellFormed(scene.request) && Sees(scene, path, value)
    ensures ConditionHolds(scene, Equal(path, expected)) == Ok(value == expected)
    ensures ConditionHolds(scene, OneOf(path, choices)) == Ok(exists k :: 0 <= k < |choices| && choices[k] == value)
    ensures ConditionHolds(scene, Greater(path, expected)) == Ok(Before(value, expected))
    ensures ConditionHolds(scene, Less(path, expected)) == Ok(Before(expected, value))
    ensures ConditionHolds(scene, GreaterEqual(path, expected)) == Ok(!Before(expected, value))
    ensures ConditionHolds(scene, LessEqual(path, expected)) == Ok(!Before(value, expected))
    ensures ConditionHolds(scene, NotEqual(path, expected)) == Ok(Before(value, expected) || Before(expected, value))
    ensures ConditionHolds(scene, NotOneOf(path, choices)) == Ok(forall choice <- choices :: choice != value)
  {
    CompareMeaning(expected, value);
    CompareMeaning(value, expected);
  }

  /** Tests against one value and against a list of one agree, and the negative forms are complements. */
  lemma {:induction false} ConditionLaws(scene: Scene, path: string, expected: Bytes, choices: seq<Bytes>)
    requires WellFormed(scene.request)
    ensures ConditionHolds(scene, Equal(path, expected)) == ConditionHolds(scene, OneOf(path, [expected]))
    ensures ConditionHolds(scene, NotEqual(path, expected)) == Negated(ConditionHolds(scene, Equal(path, expected)))
    ensures ConditionHolds(scene, NotOneOf(path, choices)) == Negated(ConditionHolds(scene, OneOf(path, choices)))
    ensures ConditionHolds(scene, LessEqual(path, expected)) == Negated(ConditionHolds(scene, Greater(path, expected)))
    ensures ConditionHolds(scene, GreaterEqual(path, expected)) == Negated(ConditionHolds(scene, Less(path, expected)))
  {
    if path in scene.request.paths && ConditionValue(scene, scene.request.paths[path]).Ok? {
      var value := ConditionValue(scene, scene.request.paths[path]).value;
      ConditionMeaning(scene, path, value, expected, choices);
      ConditionMeaning(scene, path, value, expected, [expected]);
      assert value == expected ==> [expected][0] == value;
    }
  }

  function Negated(r: Result<bool>): Result<bool> {
    match r
    case Ok(b) => Ok(!b)
    case Err(e) => Err(e)
  }

  /** A condition fails exactly when its path is unknown or its field has no value. */
  lemma {:induction false} ConditionFails(scene: Scene, condition: Condition)
    requires WellFormed(scene.request)
    ensures condition.path !in scene.request.paths ==> ConditionHolds(scene, condition) == Err(Invalid(UnknownPath))
    ensures condition.path in scene.request.paths ==>
      var value := ConditionValue(scene, scene.request.paths[condition.path]);
      && (value.Ok? <==> ConditionHolds(scene, condition).Ok?)
      && (value.Err? ==> ConditionHolds(scene, condition) == Err(value.error))
  {
  }

  // ----- the value a condition sees -----

  /**
   The value of a field of the definition: what replaces it, else the session variable of a bound field in a session,
   else its default.
   */
  ghost predicate FieldValue(scene: Scene, node: Node, j: nat, value: Result<Bytes>) {
    match Lookup(scene.replacements, j)
    case Some(bytes) => value == Ok(bytes)
    case None =>
      match node
      case Leaf(_, field) => value == Ok(field.value)
      case Bound(_, source, field) =>
        && (scene.vars.None? ==> value == Ok(field.value))
        && (scene.vars.Some? && source in scene.vars.value ==> value == Ok(scene.vars.value[source]))
        && (scene.vars.Some? && source !in scene.vars.value ==> value == Err(Invalid(MissingVariable)))
      case _ => value == Err(Invalid(BadTarget))
  }

  /** Conditions see the value of the field of the definition, and where the field is visible it renders to that. */
  lemma {:induction false} ConditionSees(scene: Scene, root: Block, size: SizeRenderer, j: nat)
    requires Assembled(scene.request, root) && Ready(scene) && j < |scene.request.entries|
    ensures FieldValue(scene, NodeAt(root, j), j, ConditionValue(scene, j))
    ensures var value := ConditionValue(scene, j);
            && value.Ok? && |value.value| <= scene.request.maxBytes
            && Visible(scene, j) == Ok(true) && !NodeAt(root, j).Repeat?
            ==> Render(scene, size, j, {}) == value
  {
    EntryOfNode(scene.request.entries, root, j);
    if ConditionValue(scene, j).Ok? {
      FlattenOne(Token(j, ConditionValue(scene, j).value));
    }
  }

  // ----- enclosing blocks -----

  /** The condition of the block of the definition behind entry `k`, if it has one, holds. */
  ghost predicate Admits(scene: Scene, root: Block, k: nat)
    requires WellFormed(scene.request) && k < NodeSize(Nested(root))
  {
    match NodeAt(root, k)
    case Nested(block) => block.condition.Some? ==> ConditionHolds(scene, block.condition.value) == Ok(true)
    case _ => true
  }

  ghost predicate AllAdmit(scene: Scene, root: Block, i: nat)
    requires WellFormed(scene.request) && i < NodeSize(Nested(root))
  {
    forall k: nat :: AdmitsFor(scene, root, i, k)
  }

  ghost predicate AdmitsFor(scene: Scene, root: Block, i: nat, k: nat)
    requires WellFormed(scene.request) && i < NodeSize(Nested(root))
  {
    Encloses(root, k, i) ==> Admits(scene, root, k)
  }

  /** If `k` is the innermost block around `i` whose condition does not hold, its condition is the answer. */
  ghost predicate Decides(scene: Scene, root: Block, i: nat, k: nat)
    requires WellFormed(scene.request) && i < |scene.request.entries| == NodeSize(Nested(root))
  {
    Encloses(root, k, i) && !Admits(scene, root, k) && (forall m: nat :: m > k ==> AdmitsFor(scene, root, i, m)) ==>
      Visible(scene, i) == ConditionHolds(scene, NodeAt(root, k).block.condition.value)
  }

  /**
   An entry is visible exactly when the condition of every block whose range contains it holds; otherwise the
   innermost condition that does not hold decides, as hidden or as an error.
   */
  lemma {:induction false} VisibleInBlocks(scene: Scene, root: Block, i: nat)
    requires Assembled(scene.request, root) && i < |scene.request.entries|
    ensures Visible(scene, i) == Ok(true) <==> AllAdmit(scene, root, i)
    ensures forall k: nat :: Decides(scene, root, i, k)
    decreases i
  {
    var entries := scene.request.entries;
    EntryOfNode(entries, root, i);
    RootIsOutermost(entries, root, i);
    if entries[i].parent.Some? {
      var p := entries[i].parent.value;
      forall k: nat ensures Encloses(root, k, i) <==> k == i || Encloses(root, k, p) {
        EnclosedByParent(entries, root, k, i);
      }
      EnclosedByParent(entries, root, i, i);
      VisibleInBlocks(scene, root, p);
      VisibleFromParent(scene, root, i, p);
    } else {
      VisibleAtRoot(scene, root);
    }
  }

  lemma {:induction false} VisibleAtRoot(scene: Scene, root: Block)
    requires Assembled(scene.request, root) && scene.request.entries[0].parent.None? && Encloses(root, 0, 0)
    requires Describes(scene.request.entries[0], NodeAt(root, 0))
    ensures Visible(scene, 0) == Ok(true) <==> AllAdmit(scene, root, 0)
    ensures forall k: nat :: Decides(scene, root, 0, k)
  {
    assert AdmitsFor(scene, root, 0, 0) <==> Admits(scene, root, 0);
    assert forall k: nat :: Encloses(root, k, 0) ==> k == 0;
  }

  lemma {:induction false} VisibleFromParent(scene: Scene, root: Block, i: nat, p: nat)
    requires Assembled(scene.request, root) && p < i < |scene.request.entries|
    requires scene.request.entries[i].parent == Some(p) && Describes(scene.request.entries[i], NodeAt(root, i))
    requires Visible(scene, p) == Ok(true) <==> AllAdmit(scene, root, p)
    requires forall k: nat :: Decides(scene, root, p, k)
    requires forall k: nat :: Encloses(root, k, i) <==> k == i || Encloses(root, k, p)
    ensures Visible(scene, i) == Ok(true) <==> AllAdmit(scene, root, i)
    ensures forall k: nat :: Decides(scene, root, i, k)
  {
    assert AdmitsFor(scene, root, i, i) <==> Admits(scene, root, i);
    if Admits(scene, root, i) {
      assert Visible(scene, i) == Visible(scene, p);
      assert forall k: nat :: AdmitsFor(scene, root, i, k) <==> AdmitsFor(scene, root, p, k);
      forall k: nat ensures Decides(scene, root, i, k) {
        assert Decides(scene, root, p, k);
      }
    } else {
      forall k: nat ensures Decides(scene, root, i, k) {
        assert k < i ==> !AdmitsFor(scene, root, i, i);
      }
    }
  }
}
