/**
 The frames of the combinatorial walker: what they still owe, and why walking them ends. Each move
 of the walker, passing a unit, descending to a deeper frame, emitting or dropping a combination and
 leaving a frame, is shown to keep the list of combinations still to come, apart from the one it
 emits, and to use up work.
 */
module CombinationWalk {
  import opened Wrappers
  import opened CaseSequences
  import opened Combinations

  datatype CombFrame = CombFrame(unitIndex: nat, incoming: set<nat>, acc: set<nat>, parts: Parts)

  function FreshFrame(): CombFrame {
    CombFrame(0, {}, {}, [])
  }

  function Height<T>(stack: Stack<T>): nat {
    match stack
    case Empty => 0
    case Push(below, _) => Height(below) + 1
  }

  function Minus(a: nat, b: nat): nat {
    if a > b then a - b else 0
  }

  /** The units and entry paths the walker combines. */
  datatype Ground = Ground(units: seq<StreamUnit>, paths: seq<string>)

  ghost function FrameOwes(ground: Ground, frame: CombFrame, more: nat): seq<Parts> {
    Level(ground.units, ground.paths, frame.incoming, frame.acc, frame.parts, more, frame.unitIndex)
  }

  /** What the frames owe at the current depth, top frame first. */
  ghost function FramesOwe(ground: Ground, frames: Stack<CombFrame>, depth: nat): seq<Parts> {
    match frames
    case Empty => []
    case Push(below, top) => FrameOwes(ground, top, Minus(depth, Height(below))) + FramesOwe(ground, below, depth)
  }

  /** What follows the current depth, given whether it produces anything. */
  ghost function DeeperOwes(ground: Ground, maxDepth: Option<int>, depth: nat, produced: nat): seq<Parts>
    requires LeafInParts(ground.units)
  {
    if produced == 0 || LastDepth(maxDepth, depth) then []
    else FromDepth(ground.units, ground.paths, maxDepth, depth + 1)
  }

  /** Everything the walker still owes. */
  ghost function WalkOwes(
      ground: Ground, maxDepth: Option<int>, frames: Stack<CombFrame>, depth: nat, emitted: nat): seq<Parts>
    requires LeafInParts(ground.units)
  {
    if frames.Empty? then []
    else
      var here := FramesOwe(ground, frames, depth);
      here + DeeperOwes(ground, maxDepth, depth, emitted + |here|)
  }

  /** A fresh frame at some depth owes everything from that depth on. */
  lemma {:induction false} FreshWalkOwes(ground: Ground, maxDepth: Option<int>, depth: nat)
    requires LeafInParts(ground.units)
    ensures WalkOwes(ground, maxDepth, Push(Empty, FreshFrame()), depth, 0)
            == FromDepth(ground.units, ground.paths, maxDepth, depth)
  {
    var here := AtDepth(ground.units, ground.paths, depth);
    assert FramesOwe(ground, Push(Empty, FreshFrame()), depth) == here + [];
  }

  // ----- invariant -----

  /** Each level's skip set holds a leaf entry for every unit already chosen. */
  ghost predicate FramesOk(ground: Ground, frames: Stack<CombFrame>) {
    match frames
    case Empty => true
    case Push(below, top) =>
      && top.incoming <= top.acc
      && Height(below) <= |top.incoming * Children(ground.units)|
      && FramesOk(ground, below)
  }

  ghost predicate WalkOk(ground: Ground, frames: Stack<CombFrame>, depth: nat, emitted: nat) {
    && LeafInParts(ground.units)
    && FramesOk(ground, frames)
    && Height(frames) <= depth
    && depth > 0
    && (emitted > 0 ==> depth <= |Children(ground.units)|)
  }

  lemma {:induction false} FreshWalkOk(ground: Ground, depth: nat)
    requires LeafInParts(ground.units) && depth > 0
    ensures WalkOk(ground, Push(Empty, FreshFrame()), depth, 0)
  {
  }

  // ----- termination -----

  ghost function FreshWork(n: nat, more: nat): nat {
    if more == 0 then 0 else 1 + n * (1 + FreshWork(n, more - 1))
  }

  ghost function FrameWork(n: nat, more: nat, at: nat): nat {
    if more == 0 then 1 else 1 + Minus(n, at) * (1 + FreshWork(n, more - 1))
  }

  ghost function FramesWork(n: nat, frames: Stack<CombFrame>, depth: nat): nat {
    match frames
    case Empty => 0
    case Push(below, top) => FrameWork(n, Minus(depth, Height(below)), top.unitIndex) + FramesWork(n, below, depth)
  }

  /** Moving past at least one unit pays for a fresh frame one level down. */
  lemma {:induction false} DescendWork(n: nat, more: nat, before: nat, after: nat)
    requires more > 1 && before < after <= n
    ensures FrameWork(n, more - 1, 0) + FrameWork(n, more, after) < FrameWork(n, more, before)
  {
    var w := 1 + FreshWork(n, more - 1);
    assert (n - before) * w >= (n - after + 1) * w == (n - after) * w + w;
  }

  lemma {:induction false} MoveWork(n: nat, below: Stack<CombFrame>, frame: CombFrame, depth: nat)
    requires frame.unitIndex < n
    ensures FramesWork(n, Push(below, frame.(unitIndex := frame.unitIndex + 1)), depth) <=
      FramesWork(n, Push(below, frame), depth)
  {
    var more := Minus(depth, Height(below));
    if more > 0 {
      var w := 1 + FreshWork(n, more - 1);
      assert (n - frame.unitIndex) * w == (n - frame.unitIndex - 1) * w + w;
    }
  }

  // ----- steps on the top frame -----

  /** The current unit is skipped: its leaf entry is already taken. */
  lemma {:induction false} SkipUnit(ground: Ground, frame: CombFrame, more: nat)
    requires frame.unitIndex < |ground.units| && ground.units[frame.unitIndex].child in frame.incoming
    ensures FrameOwes(ground, frame.(unitIndex := frame.unitIndex + 1), more) == FrameOwes(ground, frame, more)
  {
  }

  function Descended(frame: CombFrame, unit: StreamUnit): (CombFrame, CombFrame) {
    var grown := frame.acc + EntriesOf(unit.parts);
    (frame.(unitIndex := frame.unitIndex + 1, acc := grown), CombFrame(0, grown, grown, frame.parts + unit.parts))
  }

  /** Descending splits what the frame owes between the new frame and the rest of the old one. */
  lemma {:induction false} DescendUnit(ground: Ground, frame: CombFrame, more: nat)
    requires more > 1
    requires frame.unitIndex < |ground.units| && ground.units[frame.unitIndex].child !in frame.incoming
    ensures var (moved, pushed) := Descended(frame, ground.units[frame.unitIndex]);
      FrameOwes(ground, frame, more) == FrameOwes(ground, pushed, more - 1) + FrameOwes(ground, moved, more)
  {
  }

  /** At full depth a unit completes a combination or is dropped as related. */
  lemma {:induction false} CompleteUnit(ground: Ground, frame: CombFrame)
    requires frame.unitIndex < |ground.units| && ground.units[frame.unitIndex].child !in frame.incoming
    ensures FrameOwes(ground, frame, 1)
            == Completed(ground.paths, frame.parts + ground.units[frame.unitIndex].parts)
               + FrameOwes(ground, frame.(unitIndex := frame.unitIndex + 1), 1)
  {
  }

  /** A completed combination uses a leaf entry the skip set did not hold. */
  lemma {:induction false} CompletionDepth(ground: Ground, below: Stack<CombFrame>, frame: CombFrame)
    requires LeafInParts(ground.units) && FramesOk(ground, Push(below, frame))
    requires frame.unitIndex < |ground.units| && ground.units[frame.unitIndex].child !in frame.incoming
    ensures Height(below) + 1 <= |Children(ground.units)|
  {
    var unit := ground.units[frame.unitIndex];
    OneMoreChild(frame.incoming, frame.incoming + {unit.child}, unit.child, Children(ground.units));
  }

  lemma {:induction false} DescendedOk(ground: Ground, below: Stack<CombFrame>, frame: CombFrame)
    requires LeafInParts(ground.units) && FramesOk(ground, Push(below, frame))
    requires frame.unitIndex < |ground.units| && ground.units[frame.unitIndex].child !in frame.incoming
    ensures var (moved, pushed) := Descended(frame, ground.units[frame.unitIndex]);
      FramesOk(ground, Push(Push(below, moved), pushed))
  {
    var unit := ground.units[frame.unitIndex];
    var grown := frame.acc + EntriesOf(unit.parts);
    OneMoreChild(frame.incoming, grown, unit.child, Children(ground.units));
  }

  /** An exhausted frame owes nothing. */
  lemma {:induction false} ExhaustedFrame(ground: Ground, frame: CombFrame, more: nat)
    requires frame.unitIndex >= |ground.units|
    ensures FrameOwes(ground, frame, more) == []
  {
  }

  // ----- the same steps on the whole walk -----

  lemma {:induction false} WalkSkips(
      ground: Ground, maxDepth: Option<int>, below: Stack<CombFrame>, frame: CombFrame, depth: nat, emitted: nat)
    requires WalkOk(ground, Push(below, frame), depth, emitted)
    requires frame.unitIndex < |ground.units| && ground.units[frame.unitIndex].child in frame.incoming
    ensures var frames := Push(below, frame.(unitIndex := frame.unitIndex + 1));
      && WalkOk(ground, frames, depth, emitted)
      && WalkOwes(ground, maxDepth, frames, depth, emitted) ==
        WalkOwes(ground, maxDepth, Push(below, frame), depth, emitted)
  {
    SkipUnit(ground, frame, Minus(depth, Height(below)));
  }

  lemma {:induction false} FramesDescend(ground: Ground, below: Stack<CombFrame>, frame: CombFrame, depth: nat)
    requires Height(below) + 1 < depth
    requires frame.unitIndex < |ground.units| && ground.units[frame.unitIndex].child !in frame.incoming
    ensures var split := Descended(frame, ground.units[frame.unitIndex]);
      FramesOwe(ground, Push(Push(below, split.0), split.1), depth) == FramesOwe(ground, Push(below, frame), depth)
  {
    var split, more := Descended(frame, ground.units[frame.unitIndex]), Minus(depth, Height(below));
    var rest := FramesOwe(ground, below, depth);
    DescendUnit(ground, frame, more);
    var first, second := FrameOwes(ground, split.1, more - 1), FrameOwes(ground, split.0, more);
    assert Minus(depth, Height(Push(below, split.0))) == more - 1;
    assert FramesOwe(ground, Push(below, split.0), depth) == second + rest;
    assert (first + second) + rest == first + (second + rest);
  }

  lemma {:induction false} WalkDescends(
      ground: Ground, maxDepth: Option<int>, below: Stack<CombFrame>, frame: CombFrame, depth: nat, emitted: nat)
    requires WalkOk(ground, Push(below, frame), depth, emitted) && Height(below) + 1 < depth
    requires frame.unitIndex < |ground.units| && ground.units[frame.unitIndex].child !in frame.incoming
    ensures var split := Descended(frame, ground.units[frame.unitIndex]);
      var frames := Push(Push(below, split.0), split.1);
      && WalkOk(ground, frames, depth, emitted)
      && WalkOwes(ground, maxDepth, frames, depth, emitted) ==
        WalkOwes(ground, maxDepth, Push(below, frame), depth, emitted)
      && FramesWork(|ground.units|, frames, depth) < FramesWork(|ground.units|, Push(below, frame), depth)
  {
    FramesDescend(ground, below, frame, depth);
    DescendedOk(ground, below, frame);
    DescendWork(|ground.units|, Minus(depth, Height(below)), frame.unitIndex, frame.unitIndex + 1);
  }

  lemma {:induction false} FramesComplete(ground: Ground, below: Stack<CombFrame>, frame: CombFrame, depth: nat)
    requires Height(below) + 1 == depth
    requires frame.unitIndex < |ground.units| && ground.units[frame.unitIndex].child !in frame.incoming
    ensures FramesOwe(ground, Push(below, frame), depth)
            == Completed(ground.paths, frame.parts + ground.units[frame.unitIndex].parts)
               + FramesOwe(ground, Push(below, frame.(unitIndex := frame.unitIndex + 1)), depth)
  {
    var next, all := frame.(unitIndex := frame.unitIndex + 1), frame.parts + ground.units[frame.unitIndex].parts;
    CompleteUnit(ground, frame);
    var rest, here := FramesOwe(ground, below, depth), FrameOwes(ground, next, 1);
    assert Completed(ground.paths, all) + here + rest == Completed(ground.paths, all) + (here + rest);
  }

  /** Emitting the first owed combination leaves the others owed. */
  lemma {:induction false} OwesAfterEmit(
      ground: Ground, maxDepth: Option<int>, before: Stack<CombFrame>, after: Stack<CombFrame>,
                      depth: nat, emitted: nat, all: Parts)
    requires LeafInParts(ground.units) && before.Push? && after.Push?
    requires FramesOwe(ground, before, depth) == [all] + FramesOwe(ground, after, depth)
    ensures WalkOwes(ground, maxDepth, before, depth, emitted)
            == [all] + WalkOwes(ground, maxDepth, after, depth, emitted + 1)
  {
    var here := FramesOwe(ground, after, depth);
    var deeper := DeeperOwes(ground, maxDepth, depth, emitted + 1 + |here|);
    assert [all] + here + deeper == [all] + (here + deeper);
  }

  /** At full depth, a unit with unrelated paths is the next owed combination. */
  lemma {:induction false} WalkEmits(ground: Ground, maxDepth: Option<int>, below: Stack<CombFrame>, frame: CombFrame,
                  frames: Stack<CombFrame>, depth: nat, emitted: nat, all: Parts)
    requires WalkOk(ground, Push(below, frame), depth, emitted) && Height(below) + 1 == depth
    requires frame.unitIndex < |ground.units| && ground.units[frame.unitIndex].child !in frame.incoming
    requires frames == Push(below, frame.(unitIndex := frame.unitIndex + 1))
    requires all == frame.parts + ground.units[frame.unitIndex].parts && Unrelated(ground.paths, all)
    ensures WalkOk(ground, frames, depth, emitted + 1)
    ensures WalkOwes(ground, maxDepth, Push(below, frame), depth, emitted)
            == [all] + WalkOwes(ground, maxDepth, frames, depth, emitted + 1)
  {
    FramesComplete(ground, below, frame, depth);
    CompletionDepth(ground, below, frame);
    OwesAfterEmit(ground, maxDepth, Push(below, frame), frames, depth, emitted, all);
  }

  /** At full depth, a unit with related paths is dropped. */
  lemma {:induction false} WalkDrops(ground: Ground, maxDepth: Option<int>, below: Stack<CombFrame>, frame: CombFrame,
                  frames: Stack<CombFrame>, depth: nat, emitted: nat)
    requires WalkOk(ground, Push(below, frame), depth, emitted) && Height(below) + 1 == depth
    requires frame.unitIndex < |ground.units| && ground.units[frame.unitIndex].child !in frame.incoming
    requires frames == Push(below, frame.(unitIndex := frame.unitIndex + 1))
    requires !Unrelated(ground.paths, frame.parts + ground.units[frame.unitIndex].parts)
    ensures WalkOk(ground, frames, depth, emitted)
    ensures WalkOwes(ground, maxDepth, Push(below, frame), depth, emitted) ==
      WalkOwes(ground, maxDepth, frames, depth, emitted)
  {
    FramesComplete(ground, below, frame, depth);
    assert [] + FramesOwe(ground, frames, depth) == FramesOwe(ground, frames, depth);
  }

  lemma {:induction false} WalkPops(
      ground: Ground, maxDepth: Option<int>, below: Stack<CombFrame>, frame: CombFrame, depth: nat, emitted: nat)
    requires WalkOk(ground, Push(below, frame), depth, emitted)
    requires frame.unitIndex >= |ground.units|
    ensures WalkOk(ground, below, depth, emitted)
    ensures WalkOwes(ground, maxDepth, Push(below, frame), depth, emitted)
            == if below.Empty? then DeeperOwes(ground, maxDepth, depth, emitted)
               else WalkOwes(ground, maxDepth, below, depth, emitted)
    ensures FramesWork(|ground.units|, below, depth) < FramesWork(|ground.units|, Push(below, frame), depth)
  {
    ExhaustedFrame(ground, frame, Minus(depth, Height(below)));
    assert [] + FramesOwe(ground, below, depth) == FramesOwe(ground, below, depth);
  }
}
