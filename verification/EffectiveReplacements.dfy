/** Rendering and measuring look only at the first replacement of each entry. */
module EffectiveReplacements {
  import opened Model
  import opened Rendering
  import opened Measuring

  predicate SameLookup(a: Replacements, b: Replacements, i: nat) {
    Lookup(a, i) == Lookup(b, i)
  }

  /** The same replacement is in effect at every entry. */
  ghost predicate SameEffect(a: Replacements, b: Replacements) {
    forall i: nat :: SameLookup(a, b, i)
  }

  /** Two scenes that differ at most in replacements without effect. */
  ghost predicate Alike(s: Scene, t: Scene) {
    && s.request == t.request && s.digest == t.digest && s.vars == t.vars
    && Sound(s) && Sound(t) && SameEffect(s.replacements, t.replacements)
  }

  lemma {:induction false} AlikeConditions(s: Scene, t: Scene, condition: Condition)
    requires Alike(s, t)
    ensures ConditionHolds(s, condition) == ConditionHolds(t, condition)
  {
    if condition.path in s.request.paths {
      assert SameLookup(s.replacements, t.replacements, s.request.paths[condition.path]);
    }
  }

  lemma {:induction false} AlikeVisible(s: Scene, t: Scene, i: nat)
    requires Alike(s, t) && i < |s.request.entries|
    ensures Visible(s, i) == Visible(t, i)
    decreases i
  {
    assert EntryOk(s.request, i);
    var entry := s.request.entries[i];
    if entry.condition.Some? {
      AlikeConditions(s, t, entry.condition.value);
    }
    if entry.parent.Some? {
      AlikeVisible(s, t, entry.parent.value);
    }
  }

  lemma {:induction false} AlikeMeasures(s: Scene, t: Scene, i: nat, active: set<nat>)
    requires Alike(s, t) && i < |s.request.entries|
    ensures Measure(s, i, active) == Measure(t, i, active)
    decreases MeasureRank(s.request)[i], 1, 0
  {
    AlikeVisible(s, t, i);
    AlikeMeasuresVisible(s, t, i, active);
  }

  lemma {:induction false} AlikeMeasuresVisible(s: Scene, t: Scene, i: nat, active: set<nat>)
    requires Alike(s, t) && i < |s.request.entries|
    ensures MeasureVisible(s, i, active) == MeasureVisible(t, i, active)
    decreases MeasureRank(s.request)[i], 0, |s.request.entries[i].kind.Children()| + 1
  {
    var request := s.request;
    assert SameLookup(s.replacements, t.replacements, i);
    match request.entries[i].kind
    case ComputedSize(spec) =>
      if spec.ascii && spec.target in request.paths {
        assert MeasureDescends(request, MeasureRank(request), i, request.paths[spec.target]);
        AlikeSizes(s, t, spec);
      }
    case Mirror(path) =>
      if path in request.paths {
        assert MeasureDescends(request, MeasureRank(request), i, request.paths[path]);
        AlikeMeasures(s, t, request.paths[path], active + {i});
      }
    case Repetition(path, _, _, _, _) =>
      assert RepeatReplaced(s, i) && RepeatReplaced(t, i);
      if path in request.paths {
        assert MeasureDescends(request, MeasureRank(request), i, request.paths[path]);
        AlikeMeasures(s, t, request.paths[path], {});
      }
    case Container(_) => AlikeMeasuresChildren(s, t, i, 0, 0);
    case _ =>
  }

  lemma {:induction false} AlikeMeasuresChildren(s: Scene, t: Scene, i: nat, k: nat, total: int)
    requires Alike(s, t) && i < |s.request.entries|
    requires s.request.entries[i].kind.Container? && k <= |s.request.entries[i].kind.children|
    ensures MeasureChildren(s, i, k, total) == MeasureChildren(t, i, k, total)
    decreases MeasureRank(s.request)[i], 0, |s.request.entries[i].kind.children| - k
  {
    var children := s.request.entries[i].kind.children;
    if k < |children| {
      assert EntryOk(s.request, i);
      assert MeasureDescends(s.request, MeasureRank(s.request), i, children[k]);
      AlikeMeasures(s, t, children[k], {});
      if Measure(s, children[k], {}).Ok? {
        AlikeMeasuresChildren(s, t, i, k + 1, total + Measure(s, children[k], {}).value);
      }
    }
  }

  lemma {:induction false} AlikeSizes(s: Scene, t: Scene, spec: SizeSpec)
    requires Alike(s, t)
    ensures SizeValue(s, spec) == SizeValue(t, spec)
    decreases TargetRank(s.request, spec.target), 2, 0
  {
    if spec.target in s.request.paths {
      AlikeMeasures(s, t, s.request.paths[spec.target], {});
    }
  }

  lemma {:induction false} AlikeEmits(s: Scene, t: Scene, i: nat, active: set<nat>)
    requires Alike(s, t) && i < |s.request.entries|
    ensures Emit(s, Sizes(s), i, active) == Emit(t, Sizes(t), i, active)
    decreases Idle(s.request, active), StructuralRank(s.request)[i], 1, 0
  {
    var request := s.request;
    AlikeVisible(s, t, i);
    assert SameLookup(s.replacements, t.replacements, i);
    match request.entries[i].kind
    case ComputedChecksum(spec) =>
      if i !in active && spec.target in request.paths {
        assert i in Idle(request, active);
        AlikeEmits(s, t, request.paths[spec.target], active + {i});
      }
    case ComputedSize(spec) => AlikeSizes(s, t, spec);
    case Mirror(path) =>
      if i !in active && path in request.paths {
        assert i in Idle(request, active);
        AlikeEmits(s, t, request.paths[path], active + {i});
      }
    case Repetition(path, _, _, _, _) =>
      assert RepeatReplaced(s, i) && RepeatReplaced(t, i);
      if path in request.paths {
        assert Descends(request, StructuralRank(request), i, request.paths[path]);
        AlikeEmits(s, t, request.paths[path], active);
      }
    case Container(_) => AlikeEmitsChildren(s, t, i, 0, active, []);
    case _ =>
  }

  lemma {:induction false} AlikeEmitsChildren(s: Scene, t: Scene, i: nat, k: nat, active: set<nat>, done: seq<Token>)
    requires Alike(s, t) && i < |s.request.entries|
    requires s.request.entries[i].kind.Container? && k <= |s.request.entries[i].kind.children|
    ensures EmitChildren(s, Sizes(s), i, k, active, done) == EmitChildren(t, Sizes(t), i, k, active, done)
    decreases Idle(s.request, active), StructuralRank(s.request)[i], 0, |s.request.entries[i].kind.children| - k
  {
    var children := s.request.entries[i].kind.children;
    if k < |children| {
      assert EntryOk(s.request, i);
      assert Descends(s.request, StructuralRank(s.request), i, children[k]);
      AlikeEmits(s, t, children[k], active);
      if Emit(s, Sizes(s), children[k], active).Ok? {
        AlikeEmitsChildren(s, t, i, k + 1, active, done + Emit(s, Sizes(s), children[k], active).value);
      }
    }
  }

  /** Replacements with the same effect give the same bytes. */
  lemma {:induction false} SameEffectRenders(s: Scene, t: Scene, i: nat)
    requires Alike(s, t) && i < |s.request.entries|
    ensures Render(s, Sizes(s), i, {}) == Render(t, Sizes(t), i, {})
  {
    AlikeEmits(s, t, i, {});
  }
}
