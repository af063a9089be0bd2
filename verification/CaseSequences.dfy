/** The lazy case tree, its recursive enumeration, and the stack walker over it. */
module CaseSequences {

  /** One mutated entry: (entry index, mutation index). */
  type Part = (nat, nat)
  type Parts = seq<Part>

  datatype CaseSeq =
    | Plain(entry: nat)
    | Sequence(children: seq<CaseSeq>)
    | Product(group: nat, inner: CaseSeq)

  /** A unit of the base case sequence; `child` is its leaf entry. */
  datatype StreamUnit = StreamUnit(parts: Parts, child: nat)

  /** Candidate count of an entry; a compiled case sequence only names entries of the table. */
  function CountAt(counts: seq<nat>, entry: nat): nat {
    if entry < |counts| then counts[entry] else 0
  }

  // ----- the recursive enumeration -----

  function LeafUnits(entry: nat, prefix: Parts, from: nat, bound: nat): (r: seq<StreamUnit>)
    decreases bound - from
  {
    if from >= bound then []
    else [StreamUnit(prefix + [(entry, from)], entry)] + LeafUnits(entry, prefix, from + 1, bound)
  }

  function Units(counts: seq<nat>, s: CaseSeq, prefix: Parts): seq<StreamUnit>
    decreases s, 0
  {
    match s
    case Plain(entry) => LeafUnits(entry, prefix, 0, CountAt(counts, entry))
    case Sequence(children) => UnitsOfAll(counts, children, prefix)
    case Product(group, inner) => UnitsOfPasses(counts, group, inner, prefix, 0)
  }

  function UnitsOfAll(counts: seq<nat>, children: seq<CaseSeq>, prefix: Parts): seq<StreamUnit>
    decreases children, 0
  {
    if children == [] then []
    else Units(counts, children[0], prefix) + UnitsOfAll(counts, children[1..], prefix)
  }

  function UnitsOfPasses(counts: seq<nat>, group: nat, inner: CaseSeq, prefix: Parts, pass: nat): seq<StreamUnit>
    decreases inner, 1, CountAt(counts, group) - pass
  {
    if pass >= CountAt(counts, group) then []
    else Units(counts, inner, prefix + [(group, pass)])
         + UnitsOfPasses(counts, group, inner, prefix, pass + 1)
  }

  function PartsOf(units: seq<StreamUnit>): (r: seq<Parts>)
    ensures |r| == |units|
    ensures forall i :: 0 <= i < |r| ==> r[i] == units[i].parts
  {
    seq(|units|, i requires 0 <= i < |units| => units[i].parts)
  }

  lemma {:induction false} PartsOfCons(first: StreamUnit, rest: seq<StreamUnit>)
    ensures PartsOf([first] + rest) == [first.parts] + PartsOf(rest)
  {
  }

  /** Number of cases, computed without enumerating them. */
  function SeqCount(counts: seq<nat>, s: CaseSeq): nat
    decreases s, 0
  {
    match s
    case Plain(entry) => CountAt(counts, entry)
    case Sequence(children) => SeqCountAll(counts, children)
    case Product(group, inner) => CountAt(counts, group) * SeqCount(counts, inner)
  }

  function SeqCountAll(counts: seq<nat>, children: seq<CaseSeq>): nat
    decreases children, 0
  {
    if children == [] then 0
    else SeqCount(counts, children[0]) + SeqCountAll(counts, children[1..])
  }

  lemma {:induction false} LeafUnitsShape(entry: nat, prefix: Parts, from: nat, bound: nat)
    ensures |LeafUnits(entry, prefix, from, bound)| == if from < bound then bound - from else 0
    ensures forall i :: 0 <= i < |LeafUnits(entry, prefix, from, bound)| ==>
      LeafUnits(entry, prefix, from, bound)[i] == StreamUnit(prefix + [(entry, from + i)], entry)
    decreases bound - from
  {
    if from < bound {
      LeafUnitsShape(entry, prefix, from + 1, bound);
    }
  }

  /** The counting recursion agrees with the enumeration. */
  lemma {:induction false} UnitsCount(counts: seq<nat>, s: CaseSeq, prefix: Parts)
    ensures |Units(counts, s, prefix)| == SeqCount(counts, s)
    decreases s, 0
  {
    match s
    case Plain(entry) => LeafUnitsShape(entry, prefix, 0, CountAt(counts, entry));
    case Sequence(children) => UnitsCountAll(counts, children, prefix);
    case Product(group, inner) => UnitsCountPasses(counts, group, inner, prefix, 0);
  }

  lemma {:induction false} UnitsCountAll(counts: seq<nat>, children: seq<CaseSeq>, prefix: Parts)
    ensures |UnitsOfAll(counts, children, prefix)| == SeqCountAll(counts, children)
    decreases children, 0
  {
    if children != [] {
      UnitsCount(counts, children[0], prefix);
      UnitsCountAll(counts, children[1..], prefix);
    }
  }

  lemma {:induction false} UnitsCountPasses(counts: seq<nat>, group: nat, inner: CaseSeq, prefix: Parts, pass: nat)
    requires pass <= CountAt(counts, group)
    ensures |UnitsOfPasses(counts, group, inner, prefix, pass)|
            == (CountAt(counts, group) - pass) * SeqCount(counts, inner)
    decreases inner, 1, CountAt(counts, group) - pass
  {
    if pass < CountAt(counts, group) {
      UnitsCount(counts, inner, prefix + [(group, pass)]);
      UnitsCountPasses(counts, group, inner, prefix, pass + 1);
      var n, c := CountAt(counts, group) - pass, SeqCount(counts, inner);
      assert n * c == c + (n - 1) * c;
    }
  }

  /** Every unit extends its prefix and ends in its own leaf entry. */
  lemma {:induction false} UnitsExtendPrefix(counts: seq<nat>, s: CaseSeq, prefix: Parts)
    ensures forall u <- Units(counts, s, prefix) ::
      |u.parts| > |prefix| && u.parts[..|prefix|] == prefix && u.parts[|u.parts| - 1].0 == u.child
    decreases s, 0
  {
    match s
    case Plain(entry) => LeafUnitsShape(entry, prefix, 0, CountAt(counts, entry));
    case Sequence(children) => UnitsExtendPrefixAll(counts, children, prefix);
    case Product(group, inner) => UnitsExtendPrefixPasses(counts, group, inner, prefix, 0);
  }

  lemma {:induction false} UnitsExtendPrefixAll(counts: seq<nat>, children: seq<CaseSeq>, prefix: Parts)
    ensures forall u <- UnitsOfAll(counts, children, prefix) ::
      |u.parts| > |prefix| && u.parts[..|prefix|] == prefix && u.parts[|u.parts| - 1].0 == u.child
    decreases children, 0
  {
    if children != [] {
      UnitsExtendPrefix(counts, children[0], prefix);
      UnitsExtendPrefixAll(counts, children[1..], prefix);
    }
  }

  lemma {:induction false} UnitsExtendPrefixPasses(
      counts: seq<nat>, group: nat, inner: CaseSeq, prefix: Parts, pass: nat)
    ensures forall u <- UnitsOfPasses(counts, group, inner, prefix, pass) ::
      |u.parts| > |prefix| && u.parts[..|prefix|] == prefix && u.parts[|u.parts| - 1].0 == u.child
    decreases inner, 1, CountAt(counts, group) - pass
  {
    if pass < CountAt(counts, group) {
      var longer := prefix + [(group, pass)];
      UnitsExtendPrefix(counts, inner, longer);
      forall u | u in Units(counts, inner, longer)
        ensures |u.parts| > |prefix| && u.parts[..|prefix|] == prefix
      {
        assert u.parts[..|prefix|] == u.parts[..|longer|][..|prefix|];
      }
      UnitsExtendPrefixPasses(counts, group, inner, prefix, pass + 1);
    }
  }

  /** The recursive collector, in the form that pushes onto an output list. */
  method CollectUnits(counts: seq<nat>, s: CaseSeq, prefix: Parts, out: seq<StreamUnit>)
    returns (r: seq<StreamUnit>)
    ensures r == out + Units(counts, s, prefix)
    decreases s
  {
    r := out;
    match s
    case Plain(entry) =>
      var count := CountAt(counts, entry);
      LeafUnitsShape(entry, prefix, 0, count);
      for i := 0 to count
        invariant r == out + LeafUnits(entry, prefix, 0, count)[..i]
      {
        r := r + [StreamUnit(prefix + [(entry, i)], entry)];
      }
    case Sequence(children) =>
      for i := 0 to |children|
        invariant r + UnitsOfAll(counts, children[i..], prefix) == out + UnitsOfAll(counts, children, prefix)
      {
        assert children[i..][1..] == children[i + 1..];
        r := CollectUnits(counts, children[i], prefix, r);
      }
      assert children[|children|..] == [];
    case Product(group, inner) =>
      var passes := CountAt(counts, group);
      for pass := 0 to passes
        invariant r + UnitsOfPasses(counts, group, inner, prefix, pass)
                  == out + UnitsOfPasses(counts, group, inner, prefix, 0)
      {
        r := CollectUnits(counts, inner, prefix + [(group, pass)], r);
      }
  }

  // ----- the explicit-stack walker -----

  /** A stack frame: next child or mutation index, current group pass, and whether that pass is under way. */
  datatype StreamFrame = StreamFrame(s: CaseSeq, child: nat, pass: nat, walking: bool)

  /** Both walkers only push, pop and update the top of their frame arrays. */
  datatype Stack<T> = Empty | Push(below: Stack<T>, top: T)

  function FreshFrame(s: CaseSeq): StreamFrame {
    StreamFrame(s, 0, 0, false)
  }

  /** Group parts contributed by the frames that are inside a product pass, outermost first. */
  function StackPrefix(stack: Stack<StreamFrame>): Parts {
    match stack
    case Empty => []
    case Push(below, top) =>
      if top.s.Product? && top.walking then StackPrefix(below) + [(top.s.group, top.pass)] else StackPrefix(below)
  }

  /** The cases a frame still owes, given the group parts below it. */
  ghost function FrameRest(counts: seq<nat>, frame: StreamFrame, prefix: Parts): seq<StreamUnit> {
    match frame.s
    case Plain(entry) => LeafUnits(entry, prefix, frame.child, CountAt(counts, entry))
    case Sequence(children) =>
      if frame.child <= |children| then UnitsOfAll(counts, children[frame.child..], prefix) else []
    case Product(group, inner) =>
      UnitsOfPasses(counts, group, inner, prefix, if frame.walking then frame.pass + 1 else frame.pass)
  }

  /** The cases the whole stack still owes, in the order it will visit them. */
  ghost function StackRest(counts: seq<nat>, stack: Stack<StreamFrame>): seq<StreamUnit> {
    match stack
    case Empty => []
    case Push(below, top) => FrameRest(counts, top, StackPrefix(below)) + StackRest(counts, below)
  }

  /** A fresh frame owes exactly the recursive enumeration of its sequence. */
  lemma {:induction false} FreshFrameOwesUnits(counts: seq<nat>, s: CaseSeq, prefix: Parts)
    ensures FrameRest(counts, FreshFrame(s), prefix) == Units(counts, s, prefix)
  {
    if s.Sequence? {
      assert s.children[0..] == s.children;
    }
  }

  // Steps the walker can take without producing a case.

  ghost function Work(counts: seq<nat>, s: CaseSeq): nat
    decreases s, 0
  {
    match s
    case Plain(_) => 1
    case Sequence(children) => 1 + WorkOfAll(counts, children)
    case Product(group, inner) => 1 + CountAt(counts, group) * (2 + Work(counts, inner))
  }

  ghost function WorkOfAll(counts: seq<nat>, children: seq<CaseSeq>): nat
    decreases children, 0
  {
    if children == [] then 0 else 1 + Work(counts, children[0]) + WorkOfAll(counts, children[1..])
  }

  ghost function FrameWork(counts: seq<nat>, frame: StreamFrame): nat {
    match frame.s
    case Plain(_) => 1
    case Sequence(children) => 1 + if frame.child <= |children| then WorkOfAll(counts, children[frame.child..]) else 0
    case Product(group, inner) =>
      1 + (if frame.walking then 1 else 0)
      + Remaining(CountAt(counts, group), if frame.walking then frame.pass + 1 else frame.pass)
        * (2 + Work(counts, inner))
  }

  ghost function Remaining(count: nat, pass: nat): nat {
    if pass <= count then count - pass else 0
  }

  ghost function StackWork(counts: seq<nat>, stack: Stack<StreamFrame>): nat {
    match stack
    case Empty => 0
    case Push(below, top) => FrameWork(counts, top) + StackWork(counts, below)
  }

  lemma {:induction false} FreshFrameWork(counts: seq<nat>, s: CaseSeq)
    ensures FrameWork(counts, FreshFrame(s)) == Work(counts, s)
  {
    if s.Sequence? {
      assert s.children[0..] == s.children;
    }
  }

  /** One silent step of the walker on its top frame: push a child, start or end a pass, or pop. */
  function SilentStep(counts: seq<nat>, below: Stack<StreamFrame>, top: StreamFrame): Stack<StreamFrame> {
    match top.s
    case Plain(_) => below
    case Sequence(children) =>
      if top.child < |children|
      then Push(Push(below, top.(child := top.child + 1)), FreshFrame(children[top.child]))
      else below
    case Product(group, inner) =>
      if top.walking then Push(below, top.(walking := false, pass := top.pass + 1))
      else if top.pass < CountAt(counts, group) then Push(Push(below, top.(walking := true)), FreshFrame(inner))
      else below
  }

  /** A silent step neither loses nor reorders a case, and it makes progress. */
  lemma {:induction false} SilentStepKeepsRest(counts: seq<nat>, below: Stack<StreamFrame>, top: StreamFrame)
    requires top.s.Plain? ==> top.child >= CountAt(counts, top.s.entry)
    ensures StackRest(counts, SilentStep(counts, below, top)) == StackRest(counts, Push(below, top))
    ensures StackWork(counts, SilentStep(counts, below, top)) < StackWork(counts, Push(below, top))
  {
    if top.s.Sequence? && top.child < |top.s.children| {
      SequenceStep(counts, below, top);
    } else if top.s.Product? && !top.walking && top.pass < CountAt(counts, top.s.group) {
      ProductStep(counts, below, top);
      ProductWork(counts, below, top);
    }
  }

  lemma {:induction false} SequenceStep(counts: seq<nat>, below: Stack<StreamFrame>, top: StreamFrame)
    requires top.s.Sequence? && top.child < |top.s.children|
    ensures StackRest(counts, SilentStep(counts, below, top)) == StackRest(counts, Push(below, top))
    ensures StackWork(counts, SilentStep(counts, below, top)) < StackWork(counts, Push(below, top))
  {
    var first := top.s.children[top.child];
    var owed := top.s.children[top.child..];
    assert owed[1..] == top.s.children[top.child + 1..];
    FreshFrameOwesUnits(counts, first, StackPrefix(below));
    FreshFrameWork(counts, first);
  }

  lemma {:induction false} ProductStep(counts: seq<nat>, below: Stack<StreamFrame>, top: StreamFrame)
    requires top.s.Product? && !top.walking && top.pass < CountAt(counts, top.s.group)
    ensures StackRest(counts, SilentStep(counts, below, top)) == StackRest(counts, Push(below, top))
  {
    FreshFrameOwesUnits(counts, top.s.inner, StackPrefix(below) + [(top.s.group, top.pass)]);
  }

  lemma {:induction false} ProductWork(counts: seq<nat>, below: Stack<StreamFrame>, top: StreamFrame)
    requires top.s.Product? && !top.walking && top.pass < CountAt(counts, top.s.group)
    ensures StackWork(counts, SilentStep(counts, below, top)) < StackWork(counts, Push(below, top))
  {
    var inner := top.s.inner;
    FreshFrameWork(counts, inner);
    var n, w := CountAt(counts, top.s.group) - top.pass, 2 + Work(counts, inner);
    assert n * w == w + (n - 1) * w;
  }

  /** Producing a case from a plain top frame takes exactly the first owed case. */
  lemma {:induction false} EmitStep(counts: seq<nat>, below: Stack<StreamFrame>, top: StreamFrame)
    requires top.s.Plain? && top.child < CountAt(counts, top.s.entry)
    ensures StackRest(counts, Push(below, top))
            == [StreamUnit(StackPrefix(below) + [(top.s.entry, top.child)], top.s.entry)]
               + StackRest(counts, Push(below, top.(child := top.child + 1)))
  {
  }

  // ----- the position of an entry's first plain case -----

  /** Every product replays the sequence that runs immediately before it, and plain entries mutate. */
  predicate Replays(counts: seq<nat>, s: CaseSeq)
    decreases s, 0
  {
    match s
    case Plain(entry) => CountAt(counts, entry) > 0
    case Sequence(children) => ReplaysAll(counts, children) || IsReplayPair(counts, children)
    case Product(_, _) => false
  }

  predicate IsReplayPair(counts: seq<nat>, children: seq<CaseSeq>)
    decreases children, 1
  {
    |children| == 2 && Replays(counts, children[0]) && children[1].Product? && children[1].inner == children[0]
  }

  predicate ReplaysAll(counts: seq<nat>, children: seq<CaseSeq>)
    decreases children, 0
  {
    children == [] || (Replays(counts, children[0]) && ReplaysAll(counts, children[1..]))
  }

  /** The walk with its found flag threaded through: (cases passed, found). */
  function PrefixWalk(counts: seq<nat>, s: CaseSeq, target: nat, found: bool): (nat, bool)
    decreases s, 0
  {
    if found then (0, true)
    else
      match s
      case Plain(entry) => if entry == target then (0, true) else (CountAt(counts, entry), false)
      case Sequence(children) => PrefixWalkAll(counts, children, target, false)
      case Product(group, inner) => (CountAt(counts, group) * SeqCount(counts, inner), false)
  }

  function PrefixWalkAll(counts: seq<nat>, children: seq<CaseSeq>, target: nat, found: bool): (nat, bool)
    decreases children, 0
  {
    if children == [] then (0, found)
    else
      var first := PrefixWalk(counts, children[0], target, found);
      var rest := PrefixWalkAll(counts, children[1..], target, first.1);
      (first.0 + rest.0, rest.1)
  }

  lemma {:induction false} FoundAddsNothing(counts: seq<nat>, children: seq<CaseSeq>, target: nat)
    ensures PrefixWalkAll(counts, children, target, true) == (0, true)
  {
    if children != [] {
      FoundAddsNothing(counts, children[1..], target);
    }
  }

  /** The walk's answer is right for `units`, enumerated under `prefix`; all candidates of the target follow there. */
  ghost predicate Locates(units: seq<StreamUnit>, prefix: Parts, target: nat, count: nat, answer: (nat, bool)) {
    if answer.1
    then
      && 0 < count <= |units| - answer.0
      && (forall k: nat :: FollowsAt(units, prefix, target, count, answer.0, k))
      && forall i :: 0 <= i < answer.0 ==> units[i].child != target
    else
      && answer.0 == |units|
      && forall u <- units :: u.child != target
  }

  ghost predicate FollowsAt(
      units: seq<StreamUnit>, prefix: Parts, target: nat, count: nat, position: nat, k: nat)
  {
    k < count && position + k < |units| ==> units[position + k] == StreamUnit(prefix + [(target, k)], target)
  }

  lemma {:induction false} LocatesLonger(
      a: seq<StreamUnit>, b: seq<StreamUnit>, prefix: Parts, target: nat, count: nat, answer: (nat, bool))
    requires answer.1 && Locates(a, prefix, target, count, answer)
    ensures Locates(a + b, prefix, target, count, answer)
  {
    forall k: nat ensures FollowsAt(a + b, prefix, target, count, answer.0, k) {
      assert FollowsAt(a, prefix, target, count, answer.0, k);
    }
  }

  lemma {:induction false} LocatesLater(
      a: seq<StreamUnit>, b: seq<StreamUnit>, prefix: Parts, target: nat, count: nat, answer: (nat, bool))
    requires (forall u <- a :: u.child != target) && Locates(b, prefix, target, count, answer)
    ensures Locates(a + b, prefix, target, count, (|a| + answer.0, answer.1))
  {
    var position := |a| + answer.0;
    if answer.1 {
      forall k: nat ensures FollowsAt(a + b, prefix, target, count, position, k) {
        assert FollowsAt(b, prefix, target, count, answer.0, k);
      }
    }
  }

  lemma {:induction false} PlainLocates(counts: seq<nat>, entry: nat, prefix: Parts, target: nat)
    requires CountAt(counts, entry) > 0
    ensures Locates(Units(counts, Plain(entry), prefix), prefix, target, CountAt(counts, target),
                    PrefixWalk(counts, Plain(entry), target, false))
  {
    LeafUnitsShape(entry, prefix, 0, CountAt(counts, entry));
  }

  lemma {:induction false} PrefixWalkLocates(counts: seq<nat>, s: CaseSeq, prefix: Parts, target: nat)
    requires Replays(counts, s)
    ensures Locates(Units(counts, s, prefix), prefix, target, CountAt(counts, target),
                    PrefixWalk(counts, s, target, false))
    decreases s, 1
  {
    match s
    case Plain(entry) => PlainLocates(counts, entry, prefix, target);
    case Sequence(children) =>
      if IsReplayPair(counts, children) {
        ReplayPairLocates(counts, children, prefix, target);
      } else {
        PrefixWalkAllLocates(counts, children, prefix, target);
      }
  }

  lemma {:induction false} PrefixWalkAllLocates(counts: seq<nat>, children: seq<CaseSeq>, prefix: Parts, target: nat)
    requires ReplaysAll(counts, children)
    ensures Locates(UnitsOfAll(counts, children, prefix), prefix, target, CountAt(counts, target),
                    PrefixWalkAll(counts, children, target, false))
    decreases children, 0
  {
    if children != [] {
      PrefixWalkLocates(counts, children[0], prefix, target);
      var first, count := PrefixWalk(counts, children[0], target, false), CountAt(counts, target);
      var here, rest := Units(counts, children[0], prefix), UnitsOfAll(counts, children[1..], prefix);
      if first.1 {
        FoundAddsNothing(counts, children[1..], target);
        LocatesLonger(here, rest, prefix, target, count, first);
      } else {
        PrefixWalkAllLocates(counts, children[1..], prefix, target);
        LocatesLater(here, rest, prefix, target, count, PrefixWalkAll(counts, children[1..], target, false));
      }
    }
  }

  lemma {:induction false} ReplayPairLocates(counts: seq<nat>, children: seq<CaseSeq>, prefix: Parts, target: nat)
    requires IsReplayPair(counts, children)
    ensures Locates(UnitsOfAll(counts, children, prefix), prefix, target, CountAt(counts, target),
                    PrefixWalkAll(counts, children, target, false))
    decreases children, 0
  {
    var inner, product := children[0], children[1];
    PrefixWalkLocates(counts, inner, prefix, target);
    assert children[1..] == [product] && [product][1..] == [];
    assert UnitsOfAll(counts, [product], prefix) == Units(counts, product, prefix) + [];
    if PrefixWalk(counts, inner, target, false).1 {
      FoundAddsNothing(counts, children[1..], target);
      assert UnitsOfAll(counts, children, prefix) == Units(counts, inner, prefix) + Units(counts, product, prefix);
      LocatesLonger(Units(counts, inner, prefix), Units(counts, product, prefix), prefix, target,
                    CountAt(counts, target), PrefixWalk(counts, inner, target, false));
    } else {
      UnitsCount(counts, product, prefix);
      assert PrefixWalkAll(counts, [product], target, false)
          == (PrefixWalk(counts, product, target, false).0 + PrefixWalkAll(counts, [], target, false).0, false);
      PassesAvoid(counts, product.group, inner, prefix, target, 0);
    }
  }

  /** If no case of a sequence ends in `target`, no case of any replay of it does. */
  lemma {:induction false} PassesAvoid(
      counts: seq<nat>, group: nat, inner: CaseSeq, prefix: Parts, target: nat, pass: nat)
    requires Replays(counts, inner)
    requires !PrefixWalk(counts, inner, target, false).1
    ensures forall u <- UnitsOfPasses(counts, group, inner, prefix, pass) :: u.child != target
    decreases inner, 2, CountAt(counts, group) - pass
  {
    if pass < CountAt(counts, group) {
      PrefixWalkLocates(counts, inner, prefix + [(group, pass)], target);
      PassesAvoid(counts, group, inner, prefix, target, pass + 1);
    }
  }

  /** The walk in the source's form, with the found flag as an updated variable. */
  method RawPrefixWalk(counts: seq<nat>, s: CaseSeq, target: nat, found: bool) returns (total: nat, nowFound: bool)
    ensures (total, nowFound) == PrefixWalk(counts, s, target, found)
    decreases s
  {
    if found {
      return 0, true;
    }
    match s
    case Plain(entry) =>
      if entry == target {
        return 0, true;
      }
      return CountAt(counts, entry), false;
    case Sequence(children) =>
      total, nowFound := 0, false;
      for i := 0 to |children|
        invariant var rest := PrefixWalkAll(counts, children[i..], target, nowFound);
          PrefixWalkAll(counts, children, target, false) == (total + rest.0, rest.1)
      {
        assert children[i..][1..] == children[i + 1..];
        var n: nat;
        n, nowFound := RawPrefixWalk(counts, children[i], target, nowFound);
        total := total + n;
      }
      assert children[|children|..] == [];
    case Product(group, inner) =>
      return CountAt(counts, group) * SeqCount(counts, inner), false;
  }

  /**
   The raw position of an entry's first plain case: the first case that ends in the entry. All its plain cases
   follow there in order; -1 exactly when no case of the stream ends in it.
   */
  method RawPrefixBefore(counts: seq<nat>, s: CaseSeq, target: nat) returns (position: int)
    requires Replays(counts, s)
    ensures position == -1 <==> forall u <- Units(counts, s, []) :: u.child != target
    ensures position != -1 ==>
      && 0 < CountAt(counts, target) <= |Units(counts, s, [])| - position && 0 <= position
      && (forall k: nat :: FollowsAt(Units(counts, s, []), [], target, CountAt(counts, target), position, k))
      && forall i :: 0 <= i < position ==> Units(counts, s, [])[i].child != target
  {
    var total, found := RawPrefixWalk(counts, s, target, false);
    PrefixWalkLocates(counts, s, [], target);
    position := if found then total else -1;
    if found {
      assert FollowsAt(Units(counts, s, []), [], target, CountAt(counts, target), total, 0);
      assert Units(counts, s, [])[total] in Units(counts, s, []);
    }
  }
}
