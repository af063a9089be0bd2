/** The resumable stream of mutation cases, sequential or combinatorial. */
module CaseStreams {
  import opened Wrappers
  import opened CaseSequences
  import opened Combinations
  import CW = CombinationWalk
  import opened Model
  import opened StreamSpec
  import opened CaseBuilding

  /** The units of a request end in their leaf entries. */
  lemma {:induction false} UnitsLeafInParts(counts: seq<nat>, s: CaseSeq)
    ensures LeafInParts(Units(counts, s, []))
  {
    UnitsExtendPrefix(counts, s, []);
    forall u | u in Units(counts, s, []) ensures u.child in EntriesOf(u.parts) {
      assert u.parts[|u.parts| - 1] in u.parts;
    }
  }

  lemma {:induction false} FreshStack(counts: seq<nat>, s: CaseSeq)
    ensures StackRest(counts, Push(Empty, CaseSequences.FreshFrame(s))) == Units(counts, s, [])
  {
    FreshFrameOwesUnits(counts, s, []);
    var none: seq<StreamUnit> := [];
    assert Units(counts, s, []) + none == Units(counts, s, []);
  }

  /** A fresh walk over the units of a sequence owes all their combinations. */
  lemma {:induction false} FreshCombinations(
      counts: seq<nat>, paths: seq<string>, caseSeq: CaseSeq, maxDepth: Option<int>)
    ensures var ground := CW.Ground([] + Units(counts, caseSeq, []), paths);
      && ground.units == Units(counts, caseSeq, []) && LeafInParts(ground.units)
      && CW.WalkOk(ground, Push(Empty, CW.FreshFrame()), 1, 0)
      && CW.WalkOwes(ground, maxDepth, Push(Empty, CW.FreshFrame()), 1, 0) ==
        FromDepth(ground.units, paths, maxDepth, 1)
  {
    UnitsLeafInParts(counts, caseSeq);
    assert [] + Units(counts, caseSeq, []) == Units(counts, caseSeq, []);
    var ground := CW.Ground(Units(counts, caseSeq, []), paths);
    CW.FreshWalkOk(ground, 1);
    CW.FreshWalkOwes(ground, maxDepth, 1);
  }

  /** A call once the start offset is behind it, or cannot be reached. */
  lemma {:induction false} StepAfterSkip(build: Builder, limit: nat, before: Cursor, after: Cursor, reached: bool)
    requires before.state == Running
    requires reached <==> before.skip <= |before.pending|
    requires reached ==> after == before.(pending := before.pending[before.skip..], skip := 0)
    requires !reached ==> after == before.(pending := [], skip := before.skip - |before.pending|)
    ensures Step(build, limit, before)
            == if !reached then (after.(state := Exhausted), Ok(None))
               else if after.emitted >= limit then (after.(state := Limited), Ok(None))
               else Scan(build, after)
  {
  }

  lemma {:induction false} DropOneMore(all: seq<Parts>, k: nat)
    requires k <= |all|
    ensures all[k..] != [] <==> k < |all|
    ensures k < |all| ==> all[k..][1..] == all[k + 1..]
  {
  }

  class CaseStream {
    const plan: Plan
    ghost const build: Builder
    const counts: seq<nat>
    const paths: seq<string>
    const limit: nat
    const combinatorial: bool
    const units: seq<StreamUnit>
    const maxDepth: Option<int>
    var skip: nat
    var ordinal: nat
    var emitted: nat
    var state: EnumerationState
    var stack: Stack<StreamFrame>
    var depth: nat
    var depthEmitted: nat
    var frames: Stack<CW.CombFrame>

    ghost predicate Valid()
      reads this
    {
      IsBuilder(plan, build) && (combinatorial ==> CW.WalkOk(Ground(), frames, depth, depthEmitted))
    }

    function Ground(): CW.Ground {
      CW.Ground(units, paths)
    }

    /** The raw part lists the walker has not produced yet. */
    ghost function Pending(): seq<Parts>
      requires Valid()
      reads this
    {
      if combinatorial then CW.WalkOwes(Ground(), maxDepth, frames, depth, depthEmitted)
      else PartsOf(StackRest(counts, stack))
    }

    ghost function View(): Cursor
      requires Valid()
      reads this
    {
      Cursor(Pending(), skip, ordinal, emitted, state)
    }

    /** One-field-at-a-time cases, group products included, from raw position `start`. */
    constructor Sequential(plan: Plan, start: nat, limit: nat)
      requires PlanOk(plan)
      ensures Valid() && build == BuilderOf(plan) && this.limit == limit && !combinatorial
      ensures View() == Fresh(PartsOf(Units(Counts(plan.request), plan.request.caseSeq, [])), start)
    {
      this.plan, build := plan, BuilderOf(plan);
      counts, paths, this.limit, combinatorial := Counts(plan.request), [], limit, false;
      units, maxDepth := [], None;
      skip, ordinal, emitted, state := start, start, 0, Running;
      stack := Push(Empty, CaseSequences.FreshFrame(plan.request.caseSeq));
      depth, depthEmitted, frames := 0, 0, Empty;
      new;
      PlanBuilds(plan);
      FreshStack(counts, plan.request.caseSeq);
    }

    /** Combinations of 1, 2, ... units, until a depth is empty or the maximum is reached. */
    constructor Combinatorial(plan: Plan, start: nat, limit: nat, maxDepth: Option<int>)
      requires PlanOk(plan)
      ensures Valid() && build == BuilderOf(plan) && this.limit == limit && combinatorial
      ensures units == Units(Counts(plan.request), plan.request.caseSeq, []) && LeafInParts(units)
      ensures View() == Fresh(FromDepth(units, PathsOf(plan.request), maxDepth, 1), start)
    {
      this.plan, build := plan, BuilderOf(plan);
      counts, paths, this.limit, combinatorial := Counts(plan.request), PathsOf(plan.request), limit, true;
      var collected := CollectUnits(Counts(plan.request), plan.request.caseSeq, [], []);
      units, this.maxDepth := collected, maxDepth;
      skip, ordinal, emitted, state := start, start, 0, Running;
      stack := Empty;
      depth, depthEmitted, frames := 1, 0, Push(Empty, CW.FreshFrame());
      new;
      PlanBuilds(plan);
      FreshCombinations(counts, paths, plan.request.caseSeq, maxDepth);
    }

    /** The sequential walker: the next part list, outermost group first. */
    method Find() returns (r: Option<Parts>)
      requires Valid() && !combinatorial
      modifies this`stack
      ensures Valid()
      ensures old(Pending()) == [] ==> r.None? && Pending() == []
      ensures old(Pending()) != [] ==> r == Some(old(Pending())[0]) && Pending() == old(Pending())[1..]
    {
      while stack.Push?
        invariant Valid() && StackRest(counts, stack) == old(StackRest(counts, stack))
        decreases StackWork(counts, stack)
      {
        var below, top := stack.below, stack.top;
        if top.s.Plain? && top.child < CountAt(counts, top.s.entry) {
          var parts := StackPrefix(below) + [(top.s.entry, top.child)];
          EmitStep(counts, below, top);
          stack := Push(below, top.(child := top.child + 1));
          PartsOfCons(StreamUnit(parts, top.s.entry), StackRest(counts, stack));
          assert old(Pending()) == [parts] + Pending();
          return Some(parts);
        }
        SilentStepKeepsRest(counts, below, top);
        stack := SilentStep(counts, below, top);
      }
      return None;
    }

    /** Finish the current depth: go one deeper, or end the walk. */
    method NextDepth() returns (more: bool)
      requires Valid() && combinatorial && frames.Empty?
      modifies this`frames, this`depth, this`depthEmitted
      ensures Valid()
      ensures Pending() == CW.DeeperOwes(Ground(), maxDepth, old(depth), old(depthEmitted))
      ensures more ==> depth == old(depth) + 1 <= |Children(units)| + 1 && depthEmitted == 0
      ensures !more ==> Pending() == []
    {
      if depthEmitted == 0 || LastDepth(maxDepth, depth) {
        return false;
      }
      depth := depth + 1;
      depthEmitted := 0;
      frames := Push(Empty, CW.FreshFrame());
      CW.FreshWalkOwes(Ground(), maxDepth, depth);
      return true;
    }

    /** The combinatorial walker: the next combination with unrelated paths. */
    method CombStep() returns (r: Option<Parts>)
      requires Valid() && combinatorial
      modifies this`frames, this`depth, this`depthEmitted
      ensures Valid()
      ensures old(Pending()) == [] ==> r.None? && Pending() == []
      ensures old(Pending()) != [] ==> r == Some(old(Pending())[0]) && Pending() == old(Pending())[1..]
    {
      while frames.Push?
        invariant Valid() && Pending() == old(Pending())
        decreases CW.Minus(|Children(units)| + 2, depth), CW.FramesWork(|units|, frames, depth)
      {
        var descended, found := TryUnits();
        if found.Some? {
          return found;
        }
        if !descended {
          CW.WalkPops(Ground(), maxDepth, frames.below, frames.top, depth, depthEmitted);
          frames := frames.below;
          if frames.Empty? {
            var more := NextDepth();
            if !more {
              return None;
            }
          }
        }
      }
      return None;
    }

    /** Try the untried units of the top frame, until one descends or completes a combination. */
    method TryUnits() returns (descended: bool, found: Option<Parts>)
      requires Valid() && combinatorial && frames.Push?
      modifies this`frames, this`depthEmitted
      ensures Valid() && frames.Push?
      ensures found.Some? ==>
        old(Pending()) != [] && found == Some(old(Pending())[0]) && Pending() == old(Pending())[1..]
      ensures found.None? ==> Pending() == old(Pending())
      ensures found.None? && descended ==>
        CW.FramesWork(|units|, frames, depth) < CW.FramesWork(|units|, old(frames), depth)
      ensures found.None? && !descended ==>
        && frames.top.unitIndex >= |units|
        && CW.FramesWork(|units|, frames, depth) <= CW.FramesWork(|units|, old(frames), depth)
    {
      while frames.top.unitIndex < |units|
        invariant Valid() && frames.Push?
        invariant Pending() == old(Pending())
        invariant CW.FramesWork(|units|, frames, depth) <= CW.FramesWork(|units|, old(frames), depth)
        decreases |units| - frames.top.unitIndex
      {
        descended, found := TryUnit();
        if descended || found.Some? {
          return;
        }
      }
      return false, None;
    }

    /** Pass over the next untried unit, descend to it, or complete a combination with it. */
    method TryUnit() returns (descended: bool, found: Option<Parts>)
      requires Valid() && combinatorial && frames.Push? && frames.top.unitIndex < |units|
      modifies this`frames, this`depthEmitted
      ensures Valid() && frames.Push? && !(descended && found.Some?)
      ensures found.Some? ==>
        old(Pending()) != [] && found == Some(old(Pending())[0]) && Pending() == old(Pending())[1..]
      ensures found.None? ==> Pending() == old(Pending())
      ensures descended ==> CW.FramesWork(|units|, frames, depth) < CW.FramesWork(|units|, old(frames), depth)
      ensures !descended ==>
        && frames.top.unitIndex == old(frames).top.unitIndex + 1
        && CW.FramesWork(|units|, frames, depth) <= CW.FramesWork(|units|, old(frames), depth)
    {
      var below, frame := frames.below, frames.top;
      CW.MoveWork(|units|, below, frame, depth);
      if units[frame.unitIndex].child in frame.incoming {
        CW.WalkSkips(Ground(), maxDepth, below, frame, depth, depthEmitted);
        frames := Push(below, frame.(unitIndex := frame.unitIndex + 1));
        return false, None;
      }
      if CW.Height(frames) < depth {
        Descend();
        return true, None;
      }
      found := Complete();
      return false, found;
    }

    /** The untried unit below full depth opens a frame of its own. */
    method Descend()
      requires Valid() && combinatorial && frames.Push? && frames.top.unitIndex < |units|
      requires units[frames.top.unitIndex].child !in frames.top.incoming && CW.Height(frames) < depth
      modifies this`frames
      ensures Valid() && frames.Push? && Pending() == old(Pending())
      ensures CW.FramesWork(|units|, frames, depth) < CW.FramesWork(|units|, old(frames), depth)
    {
      var below, frame := frames.below, frames.top;
      CW.WalkDescends(Ground(), maxDepth, below, frame, depth, depthEmitted);
      var split := CW.Descended(frame, units[frame.unitIndex]);
      frames := Push(Push(below, split.0), split.1);
    }

    /** The untried unit at full depth completes a combination, which is emitted unless two of its paths are related. */
    method Complete() returns (found: Option<Parts>)
      requires Valid() && combinatorial && frames.Push? && frames.top.unitIndex < |units|
      requires units[frames.top.unitIndex].child !in frames.top.incoming && CW.Height(frames) >= depth
      modifies this`frames, this`depthEmitted
      ensures Valid() && frames == Push(old(frames).below, old(frames).top.(unitIndex := old(frames).top.unitIndex + 1))
      ensures found.Some? ==>
        old(Pending()) != [] && found == Some(old(Pending())[0]) && Pending() == old(Pending())[1..]
      ensures found.None? ==> Pending() == old(Pending())
    {
      var below, frame := frames.below, frames.top;
      var all := frame.parts + units[frame.unitIndex].parts;
      var duplicate := ContainsDuplicatePaths(Ground().paths, all);
      ghost var ahead := Pending();
      frames := Push(below, frame.(unitIndex := frame.unitIndex + 1));
      if !duplicate {
        CW.WalkEmits(Ground(), maxDepth, below, frame, frames, depth, depthEmitted, all);
        depthEmitted := depthEmitted + 1;
        assert ahead == [all] + Pending();
        return Some(all);
      }
      CW.WalkDrops(Ground(), maxDepth, below, frame, frames, depth, depthEmitted);
      return None;
    }

    /** The next part list of either walker. */
    method Advance() returns (r: Option<Parts>)
      requires Valid()
      modifies this`stack, this`frames, this`depth, this`depthEmitted
      ensures Valid()
      ensures old(Pending()) == [] ==> r.None? && Pending() == []
      ensures old(Pending()) != [] ==> r == Some(old(Pending())[0]) && Pending() == old(Pending())[1..]
    {
      if combinatorial {
        r := CombStep();
      } else {
        r := Find();
      }
    }

    /** Pass the start offset. */
    method SkipStart() returns (reached: bool)
      requires Valid()
      modifies this`stack, this`frames, this`depth, this`depthEmitted, this`skip
      ensures Valid()
      ensures reached <==> old(skip) <= |old(Pending())|
      ensures reached ==> skip == 0 && Pending() == old(Pending())[old(skip)..]
      ensures !reached ==> skip == old(skip) - |old(Pending())| && Pending() == []
    {
      ghost var all, passed := Pending(), 0;
      while skip > 0
        invariant Valid() && skip + passed == old(skip) && 0 <= passed <= |all|
        invariant Pending() == all[passed..]
      {
        DropOneMore(all, passed);
        var found := Advance();
        if found.None? {
          return false;
        }
        skip := skip - 1;
        passed := passed + 1;
      }
      return true;
    }

    /** Try the next raw position: build its case and move past it. */
    method TryPosition() returns (found: Option<Result<MutationCase>>)
      requires Valid() && state == Running
      modifies this
      ensures Valid()
      ensures old(Pending()) == [] ==> found.None? && View() == old(View())
      ensures old(Pending()) != [] ==>
        found == Some(build(old(Pending())[0], old(ordinal))) && View() == Tried(old(View()), found.value)
    {
      var parts := Advance();
      if parts.None? {
        return None;
      }
      var built := BuildCase(plan, parts.value, ordinal, build);
      Record(built);
      return Some(built);
    }

    /** Every case that exists or is oversized uses up its position; only the first kind is emitted. */
    method Record(built: Result<MutationCase>)
      requires Valid()
      modifies this`ordinal, this`emitted, this`state
      ensures Valid() && Pending() == old(Pending())
      ensures ordinal == old(ordinal) + if built.Ok? || built.error == Limit then 1 else 0
      ensures emitted == old(emitted) + if built.Ok? then 1 else 0
      ensures state == if built.Ok? || built.error == Limit then old(state) else Stopped
    {
      if built.Ok? {
        ordinal, emitted := ordinal + 1, emitted + 1;
      } else if built.error == Limit {
        ordinal := ordinal + 1;
      } else {
        state := Stopped;
      }
    }

    /** Try positions until a case exists; oversized ones consume a position without output. */
    method ScanCases() returns (r: Result<Option<MutationCase>>)
      requires Valid() && state == Running
      modifies this
      ensures Valid()
      ensures (View(), r) == Scan(build, old(View()))
    {
      while true
        invariant Valid() && state == Running
        invariant Scan(build, View()) == Scan(build, old(View()))
        decreases |Pending()|
      {
        if ordinal >= MAX_ORDINAL {
          state := Stopped;
          return Err(Limit);
        }
        ghost var before := View();
        var found := TryPosition();
        if found.None? {
          state := Exhausted;
          return Ok(None);
        }
        ScanUnfolds(build, before, found.value);
        if found.value.Ok? {
          return Ok(Some(found.value.value));
        }
        if found.value.error != Limit {
          return Err(found.value.error);
        }
      }
    }

    /** The next case, or none once the stream is exhausted, limited or stopped. */
    method Next() returns (r: Result<Option<MutationCase>>)
      requires Valid()
      modifies this
      ensures Valid()
      ensures (View(), r) == Step(build, limit, old(View()))
    {
      if state != Running {
        return Ok(None);
      }
      ghost var before := View();
      var reached := SkipStart();
      StepAfterSkip(build, limit, before, View(), reached);
      if !reached {
        state := Exhausted;
        return Ok(None);
      }
      if emitted >= limit {
        state := Limited;
        return Ok(None);
      }
      r := ScanCases();
    }

    method Stop()
      requires Valid()
      modifies this`state
      ensures Valid() && View() == old(View()).(state := Stopped)
    {
      state := Stopped;
    }

    /** The next raw position, oversized ones included. */
    method Position() returns (position: nat)
      requires Valid()
      ensures position == View().ordinal
    {
      return ordinal;
    }
  }
}
