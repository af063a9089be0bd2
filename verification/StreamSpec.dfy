/** One call of `next` as a step on the raw positions ahead, and what holds of every run of calls. */
module StreamSpec {
  import opened Wrappers
  import opened Integers
  import opened CaseSequences

  datatype EnumerationState = Running | Exhausted | Limited | Stopped

  datatype MutationCase = MutationCase(
    id: string, requestName: string, fieldPath: string, mutationIndex: nat, ordinal: nat, payload: Bytes,
    extra: seq<(string, nat)>)
  {
    /** All mutated (path, mutation) pairs, the primary field last. */
    function Parts(): seq<(string, nat)> {
      extra + [(fieldPath, mutationIndex)]
    }
  }

  const MAX_ORDINAL: nat := 2147483647

  /** Builds the case of a part list at a raw position, or says why it cannot exist. */
  type Builder = (Parts, nat) -> Result<MutationCase>

  /** A built case records the position it was built for. */
  ghost predicate Positional(build: Builder) {
    forall parts: Parts, ordinal: nat :: build(parts, ordinal).Ok? ==> build(parts, ordinal).value.ordinal == ordinal
  }

  // ----- one call of next -----

  /** Where a stream stands: the raw part lists ahead, positions still to skip, and its counters. */
  datatype Cursor = Cursor(pending: seq<Parts>, skip: nat, ordinal: nat, emitted: nat, state: EnumerationState)

  function Scan(build: Builder, c: Cursor): (Cursor, Result<Option<MutationCase>>)
    decreases |c.pending|
  {
    if c.ordinal >= MAX_ORDINAL then (c.(state := Stopped), Err(Limit))
    else if c.pending == [] then (c.(state := Exhausted), Ok(None))
    else
      var rest := c.pending[1..];
      match build(c.pending[0], c.ordinal)
      case Ok(found) => (c.(pending := rest, ordinal := c.ordinal + 1, emitted := c.emitted + 1), Ok(Some(found)))
      case Err(Limit) => Scan(build, c.(pending := rest, ordinal := c.ordinal + 1))
      case Err(error) => (c.(pending := rest, state := Stopped), Err(error))
  }

  function Step(build: Builder, limit: nat, c: Cursor): (Cursor, Result<Option<MutationCase>>)
  {
    if c.state != Running then (c, Ok(None))
    else if c.skip > |c.pending| then
      (c.(pending := [], skip := c.skip - |c.pending|, state := Exhausted), Ok(None))
    else
      var started := c.(pending := c.pending[c.skip..], skip := 0);
      if c.emitted >= limit then (started.(state := Limited), Ok(None))
      else Scan(build, started)
  }

  /** Where a scan goes after trying its next position. */
  function Tried(c: Cursor, built: Result<MutationCase>): Cursor
    requires c.pending != []
  {
    var rest := c.pending[1..];
    match built
    case Ok(_) => c.(pending := rest, ordinal := c.ordinal + 1, emitted := c.emitted + 1)
    case Err(Limit) => c.(pending := rest, ordinal := c.ordinal + 1)
    case Err(_) => c.(pending := rest, state := Stopped)
  }

  lemma {:induction false} ScanUnfolds(build: Builder, c: Cursor, built: Result<MutationCase>)
    requires c.ordinal < MAX_ORDINAL && c.pending != [] && built == build(c.pending[0], c.ordinal)
    ensures Scan(build, c) ==
      match built
      case Ok(found) => (Tried(c, built), Ok(Some(found)))
      case Err(Limit) => Scan(build, Tried(c, built))
      case Err(error) => (Tried(c, built), Err(error))
  {
  }

  // ----- runs -----

  /** The cases that exist from a raw position on, up to the first failure other than an oversized case. */
  function Survivors(build: Builder, all: seq<Parts>, from: nat): seq<MutationCase>
    decreases |all| - from
  {
    if from >= |all| || from >= MAX_ORDINAL then []
    else
      match build(all[from], from)
      case Ok(found) => [found] + Survivors(build, all, from + 1)
      case Err(Limit) => Survivors(build, all, from + 1)
      case Err(_) => []
  }

  function Fresh(all: seq<Parts>, start: nat): Cursor {
    Cursor(all, start, start, 0, Running)
  }

  /** The cursor is somewhere in the enumeration `all`. */
  ghost predicate Within(all: seq<Parts>, c: Cursor) {
    c.state == Running ==>
      c.skip <= c.ordinal && c.ordinal - c.skip <= |all| && c.pending == all[c.ordinal - c.skip..]
  }

  function Emitted(result: Result<Option<MutationCase>>): seq<MutationCase> {
    if result.Ok? && result.value.Some? then [result.value.value] else []
  }

  /** The cases emitted by `n` calls, and where they leave the stream. */
  function Run(build: Builder, limit: nat, c: Cursor, n: nat): (Cursor, seq<MutationCase>)
    decreases n
  {
    if n == 0 then (c, [])
    else
      var later := Run(build, limit, Step(build, limit, c).0, n - 1);
      (later.0, Emitted(Step(build, limit, c).1) + later.1)
  }

  /** A scan emits the first survivor and leaves exactly the others ahead. */
  lemma {:induction false} ScanTakesFirst(build: Builder, all: seq<Parts>, c: Cursor)
    requires c.state == Running && c.skip == 0 && c.ordinal <= |all| && c.pending == all[c.ordinal..]
    ensures var next, result := Scan(build, c).0, Scan(build, c).1;
      && Within(all, next)
      && Emitted(result) + Survivors(build, all, next.ordinal) == Survivors(build, all, c.ordinal)
      && next.emitted == c.emitted + |Emitted(result)|
      && next.ordinal >= c.ordinal
      && (Emitted(result) == [] ==> next.state != Running && Survivors(build, all, c.ordinal) == [])
      && (Emitted(result) != [] ==> next.state == Running)
      && next.state != Limited
    decreases |c.pending|
  {
    if c.ordinal < MAX_ORDINAL && c.pending != [] {
      assert c.pending[0] == all[c.ordinal] && c.pending[1..] == all[c.ordinal + 1..];
      if build(all[c.ordinal], c.ordinal) == Err(Limit) {
        ScanTakesFirst(build, all, c.(pending := c.pending[1..], ordinal := c.ordinal + 1));
      }
    }
  }

  /** One call: what it emits and what is left ahead together are what was ahead before. */
  lemma {:induction false} StepConserves(build: Builder, limit: nat, all: seq<Parts>, c: Cursor)
    requires Within(all, c)
    ensures var next, result := Step(build, limit, c).0, Step(build, limit, c).1;
      && Within(all, next)
      && Emitted(result) + Survivors(build, all, next.ordinal) == Survivors(build, all, c.ordinal)
      && next.emitted == c.emitted + |Emitted(result)|
      && (c.emitted <= limit ==> next.emitted <= limit)
      && (c.state == Running && Emitted(result) == [] ==> next.state != Running)
      && (c.state == Running && next.state == Running ==> Emitted(result) != [])
      && (c.state == Running && next.state == Limited ==> next.emitted >= limit)
      && (c.state == Running && next.state in {Exhausted, Stopped} ==> Survivors(build, all, c.ordinal) == [])
  {
    if c.state == Running && c.skip <= |c.pending| {
      var started := c.(pending := c.pending[c.skip..], skip := 0);
      assert started.pending == all[c.ordinal..];
      if c.emitted < limit {
        ScanTakesFirst(build, all, started);
      }
    }
  }

  lemma {:induction false} Regroup(first: seq<MutationCase>, rest: seq<MutationCase>, tail: seq<MutationCase>,
                                   middle: seq<MutationCase>, whole: seq<MutationCase>)
    requires rest + tail == middle && first + middle == whole
    ensures (first + rest) + tail == whole
  {
    assert (first + rest) + tail == first + (rest + tail);
  }

  /**
   Over any number of calls, the emitted cases followed by the cases that exist from the stream's
   position on are the cases that existed from its starting position on; the limit is respected.
   */
  lemma {:induction false} RunConserves(build: Builder, limit: nat, all: seq<Parts>, c: Cursor, n: nat)
    requires Within(all, c) && c.emitted <= limit
    ensures var last, cases := Run(build, limit, c, n).0, Run(build, limit, c, n).1;
      && Within(all, last)
      && cases + Survivors(build, all, last.ordinal) == Survivors(build, all, c.ordinal)
      && last.emitted == c.emitted + |cases| <= limit
    decreases n
  {
    if n > 0 {
      StepConserves(build, limit, all, c);
      var next, first := Step(build, limit, c).0, Emitted(Step(build, limit, c).1);
      RunConserves(build, limit, all, next, n - 1);
      var later := Run(build, limit, next, n - 1);
      Regroup(first, later.1, Survivors(build, all, later.0.ordinal), Survivors(build, all, next.ordinal),
              Survivors(build, all, c.ordinal));
    }
  }

  /** A stream that is no longer running stays where it is and emits nothing. */
  lemma {:induction false} TerminalIsFinal(build: Builder, limit: nat, c: Cursor, n: nat)
    requires c.state != Running
    ensures Run(build, limit, c, n) == (c, [])
    decreases n
  {
    if n > 0 {
      TerminalIsFinal(build, limit, c, n - 1);
      var none: seq<MutationCase> := [];
      assert Emitted(Step(build, limit, c).1) + none == none;
    }
  }

  /** At most `room` cases. */
  function Take(cases: seq<MutationCase>, room: nat): seq<MutationCase> {
    if |cases| <= room then cases else cases[..room]
  }

  lemma {:induction false} TakeAfterFirst(
      first: seq<MutationCase>, rest: seq<MutationCase>, whole: seq<MutationCase>, room: nat)
    requires |first| == 1 && room > 0 && first + rest == whole
    ensures first + Take(rest, room - 1) == Take(whole, room)
  {
  }

  /** A call that leaves the stream running emits one case and keeps room for the others. */
  lemma {:induction false} CallRuns(build: Builder, limit: nat, all: seq<Parts>, c: Cursor, later: seq<MutationCase>)
    requires Within(all, c) && c.state == Running && c.emitted <= limit
    requires var next := Step(build, limit, c).0;
      next.state == Running && later == Take(Survivors(build, all, next.ordinal), limit - c.emitted - 1)
    ensures Emitted(Step(build, limit, c).1) + later == Take(Survivors(build, all, c.ordinal), limit - c.emitted)
  {
    StepConserves(build, limit, all, c);
    TakeAfterFirst(Emitted(Step(build, limit, c).1), Survivors(build, all, Step(build, limit, c).0.ordinal),
                   Survivors(build, all, c.ordinal), limit - c.emitted);
  }

  /** The call that ends a running stream emits nothing, because nothing or no room is left. */
  lemma {:induction false} CallEnds(build: Builder, limit: nat, all: seq<Parts>, c: Cursor)
    requires Within(all, c) && c.state == Running && c.emitted <= limit
    requires Step(build, limit, c).0.state != Running
    ensures Emitted(Step(build, limit, c).1) + [] == Take(Survivors(build, all, c.ordinal), limit - c.emitted)
  {
    StepConserves(build, limit, all, c);
  }

  /** A running stream has room, and the next call uses one survivor of it. */
  lemma {:induction false} CallCounts(build: Builder, limit: nat, all: seq<Parts>, c: Cursor)
    requires Within(all, c) && c.state == Running && c.emitted <= limit
    requires Step(build, limit, c).0.state == Running
    ensures var next := Step(build, limit, c).0;
      && Within(all, next) && next.emitted == c.emitted + 1 <= limit
      && |Survivors(build, all, c.ordinal)| == |Survivors(build, all, next.ordinal)| + 1
  {
    StepConserves(build, limit, all, c);
  }

  /** Enough calls emit every surviving case, or as many as the limit allows. */
  lemma {:induction false} RunCompletes(build: Builder, limit: nat, all: seq<Parts>, c: Cursor, n: nat)
    requires Within(all, c) && c.state == Running && c.emitted <= limit
    requires n > |Survivors(build, all, c.ordinal)|
    ensures Run(build, limit, c, n).1 == Take(Survivors(build, all, c.ordinal), limit - c.emitted)
    decreases n, 1
  {
    RunUnfolds(build, limit, c, n);
    if Step(build, limit, c).0.state == Running {
      CallCounts(build, limit, all, c);
      RunGoesOn(build, limit, all, Step(build, limit, c).0, n);
      CallRuns(build, limit, all, c, Run(build, limit, Step(build, limit, c).0, n - 1).1);
    } else {
      TerminalIsFinal(build, limit, Step(build, limit, c).0, n - 1);
      CallEnds(build, limit, all, c);
    }
  }

  lemma {:induction false} RunUnfolds(build: Builder, limit: nat, c: Cursor, n: nat)
    requires n > 0
    ensures Run(build, limit, c, n).1 ==
      Emitted(Step(build, limit, c).1) + Run(build, limit, Step(build, limit, c).0, n - 1).1
  {
  }

  lemma {:induction false} RunGoesOn(build: Builder, limit: nat, all: seq<Parts>, next: Cursor, n: nat)
    requires Within(all, next) && next.state == Running && 0 < next.emitted <= limit
    requires n > |Survivors(build, all, next.ordinal)| + 1
    ensures Run(build, limit, next, n - 1).1 ==
      Take(Survivors(build, all, next.ordinal), limit - (next.emitted - 1) - 1)
    decreases n, 0
  {
    RunCompletes(build, limit, all, next, n - 1);
  }

  /**
   Resuming: a new stream started at the position where another stopped emits exactly the cases
   the first had not emitted, with the same ordinals.
   */
  lemma {:induction false} ResumeContinues(
      build: Builder, limit: nat, newLimit: nat, all: seq<Parts>, start: nat, n: nat, m: nat)
    requires var ahead := Survivors(build, all, Run(build, limit, Fresh(all, start), n).0.ordinal);
      m > |ahead| && newLimit >= |ahead|
    ensures var stopped := Run(build, limit, Fresh(all, start), n);
      stopped.1 + Run(build, newLimit, Fresh(all, stopped.0.ordinal), m).1 == Survivors(build, all, start)
  {
    RunConserves(build, limit, all, Fresh(all, start), n);
    RunCompletes(build, newLimit, all, Fresh(all, Run(build, limit, Fresh(all, start), n).0.ordinal), m);
  }

  /** Survivors carry their raw positions: each is the case of its own ordinal, and ordinals increase. */
  lemma {:induction false} SurvivorsCarryPositions(build: Builder, all: seq<Parts>, from: nat)
    requires Positional(build)
    ensures forall k :: 0 <= k < |Survivors(build, all, from)| ==>
      var found := Survivors(build, all, from)[k];
      from <= found.ordinal < |all| && build(all[found.ordinal], found.ordinal) == Ok(found)
    ensures forall j, k :: 0 <= j < k < |Survivors(build, all, from)| ==>
      Survivors(build, all, from)[j].ordinal < Survivors(build, all, from)[k].ordinal
    decreases |all| - from
  {
    if from < |all| && from < MAX_ORDINAL {
      SurvivorsCarryPositions(build, all, from + 1);
    }
  }

  /** Only oversized positions are skipped: a position that builds survives unless an earlier one fails outright. */
  lemma {:induction false} OnlyOversizedSkipped(build: Builder, all: seq<Parts>, from: nat, position: nat)
    requires from <= position < |all| && position < MAX_ORDINAL
    requires build(all[position], position).Ok?
    requires forall p :: from <= p < position ==>
      build(all[p], p).Ok? || build(all[p], p) == Err(Limit)
    ensures build(all[position], position).value in Survivors(build, all, from)
    decreases position - from
  {
    if from < position {
      OnlyOversizedSkipped(build, all, from + 1, position);
    }
  }
}
