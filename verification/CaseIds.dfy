/** Case ids back to positions of the sequential streams. */
module CaseIds {
  import opened Wrappers
  import opened Integers
  import opened CaseSequences
  import opened Model
  import opened Assembly
  import opened Compilation
  import opened CompiledRequests
  import opened CaseBuilding
  import opened RequestStreams
  import opened Replay

  const TOP: nat := 0x7fff_ffff

  // ----- reading an id -----

  ghost predicate AllDigits(text: string) {
    forall c <- text :: IsDigit(c)
  }

  /** An unsigned decimal number below 2^64, as a loop over the digits. */
  method DecimalU64(text: string) returns (r: Result<nat>)
    ensures r.Ok? <==> text != [] && AllDigits(text) && DigitsValue(text) <= 0xffff_ffff_ffff_ffff
    ensures r.Ok? ==> r.value == DigitsValue(text)
  {
    if text == [] {
      return Err(Invalid(BadLiteral));
    }
    var value: nat := 0;
    for i := 0 to |text|
      invariant AllDigits(text[..i]) && DigitsValue(text[..i]) == value <= 0xffff_ffff_ffff_ffff
    {
      if !('0' <= text[i] <= '9') {
        assert text[i] in text;
        return Err(Invalid(BadLiteral));
      }
      var digit := text[i] as nat - 48;
      assert text[..i + 1][..i] == text[..i];
      if value > (0xffff_ffff_ffff_ffff - digit) / 10 {
        if AllDigits(text) {
          PrefixBelow(text, i + 1);
        }
        return Err(Invalid(BadLiteral));
      }
      value := value * 10 + digit;
    }
    assert text[..|text|] == text;
    return Ok(value);
  }

  lemma {:induction false} PrefixBelow(text: string, n: nat)
    requires AllDigits(text) && n <= |text|
    ensures AllDigits(text[..n]) && DigitsValue(text[..n]) <= DigitsValue(text)
    decreases |text|
  {
    if n < |text| {
      PrefixBelow(text[..|text| - 1], n);
      assert text[..|text| - 1][..n] == text[..n];
    } else {
      assert text[..n] == text;
    }
  }

  /** The id is that of the path and the digits. */
  ghost predicate Names(id: string, path: string, text: string) {
    id == "v1:" + path + ":" + text && '+' !in path && '+' !in text && ':' !in text
  }

  ghost predicate IndexText(text: string) {
    text != [] && AllDigits(text) && DigitsValue(text) <= TOP
  }

  lemma {:induction false} NamedBody(id: string, path: string, text: string)
    requires Names(id, path, text)
    ensures "v1:" <= id && id[3..] == path + [':'] + text && ':' in id[3..] && '+' !in id[3..]
  {
    assert id[3..] == path + [':'] + text && id[3..][|path|] == ':';
  }

  /** Where the last colon stands. */
  method LastColon(body: string) returns (cut: nat)
    requires ':' in body
    ensures cut < |body| && body[cut] == ':' && ':' !in body[cut + 1..]
  {
    cut := |body| - 1;
    while cut > 0 && body[cut] != ':'
      invariant cut < |body| && ':' !in body[cut + 1..]
    {
      assert body[cut..] == [body[cut]] + body[cut + 1..];
      cut := cut - 1;
    }
    assert body == body[..cut] + [body[cut]] + body[cut + 1..];
    assert cut == 0 ==> body[..cut] == [];
  }

  /** Split an id at its last colon; only ids of a single part have a position of their own. */
  method SplitId(id: string) returns (r: Result<(string, nat)>)
    ensures r.Err? ==> forall path, text :: Names(id, path, text) ==> !IndexText(text)
    ensures r.Ok? ==>
      exists text :: Names(id, r.value.0, text) && IndexText(text) && DigitsValue(text) == r.value.1
  {
    forall path, text | Names(id, path, text)
      ensures "v1:" <= id && id[3..] == path + [':'] + text && ':' in id[3..] && '+' !in id[3..]
    {
      NamedBody(id, path, text);
    }
    if !("v1:" <= id) || ':' !in id[3..] || '+' in id[3..] {
      return Err(Invalid(BadLiteral));
    }
    var body := id[3..];
    var cut := LastColon(body);
    var path, text := body[..cut], body[cut + 1..];
    assert body == path + [':'] + text && id == "v1:" + path + ":" + text;
    assert Names(id, path, text);
    forall other, digits | Names(id, other, digits) ensures digits == text {
      OneSplit(id, other, digits, path, text);
    }
    var index :- DecimalU64(text);
    if index > TOP {
      return Err(Invalid(BadLiteral));
    }
    assert IndexText(text);
    return Ok((path, index));
  }

  // ----- all streams one after the other -----

  ghost function IdOf(request: CompiledRequest, parts: Parts): string {
    if PartsOk(request, parts) then CaseId(request, parts) else ""
  }

  ghost predicate IdAt(request: CompiledRequest, ids: seq<string>, n: nat) {
    n < |ids| && n < |SequentialParts(request)| ==> ids[n] == IdOf(request, SequentialParts(request)[n])
  }

  /** The ids of the sequential stream of a request, oversized cases included. */
  ghost predicate IsStream(request: CompiledRequest, ids: seq<string>) {
    |ids| == |SequentialParts(request)| && forall n: nat :: IdAt(request, ids, n)
  }

  /** The first streams one after the other. */
  function JoinedUpTo(streams: seq<seq<string>>, i: nat): seq<string>
    requires i <= |streams|
  {
    if i == 0 then [] else JoinedUpTo(streams, i - 1) + streams[i - 1]
  }

  lemma {:induction false} JoinedPrefix(streams: seq<seq<string>>, i: nat, j: nat)
    requires i <= j <= |streams|
    ensures JoinedUpTo(streams, i) <= JoinedUpTo(streams, j)
    decreases j
  {
    if i < j {
      JoinedPrefix(streams, i, j - 1);
    }
  }

  /** Where an id lands, as a 32-bit number. */
  lemma {:induction false} Lands(streams: seq<seq<string>>, i: nat, n: nat, position: int)
    requires i < |streams| && n < |streams[i]| && |JoinedUpTo(streams, i + 1)| <= TOP
    requires position == ToInt32(|JoinedUpTo(streams, i)| + n)
    ensures 0 <= position < |JoinedUpTo(streams, |streams|)|
    ensures JoinedUpTo(streams, |streams|)[position] == streams[i][n]
  {
    JoinedPrefix(streams, i + 1, |streams|);
    assert position == |JoinedUpTo(streams, i)| + n;
  }

  // ----- the position of an id -----

  /** Requests with their definitions and the ids of their streams. */
  datatype Protocol = Protocol(requests: seq<CompiledRequest>, roots: seq<Block>, streams: seq<seq<string>>) {
    ghost predicate Valid() {
      && |roots| == |requests| == |streams|
      && forall i: nat :: ValidAt(i)
    }

    ghost predicate ValidAt(i: nat)
      requires |roots| == |requests| == |streams|
    {
      i < |requests| ==> Assembled(requests[i], roots[i]) && IsStream(requests[i], streams[i])
    }

    /** The ids of all requests in order. */
    function Ids(): seq<string> {
      JoinedUpTo(streams, |streams|)
    }

    /** The number of raw cases of the requests before `i`. */
    function Offset(i: nat): nat
      requires i <= |streams|
    {
      |JoinedUpTo(streams, i)|
    }

    /** The same as a 32-bit number. */
    predicate OffsetIs(i: nat, offset: int) {
      i <= |streams| && offset == ToInt32(Offset(i))
    }

    /** Request `i` is the first that knows the path. */
    ghost predicate FirstWith(i: nat, path: string) {
      i < |requests| && path in requests[i].paths && forall j :: 0 <= j < i ==> path !in requests[j].paths
    }

    /** How a position comes about: the first request with the path, the start of its entry and the index. */
    ghost predicate PositionOf(id: string, position: int, i: nat, path: string, text: string, start: nat)
      requires |requests| == |streams|
    {
      && Names(id, path, text) && IndexText(text) && FirstWith(i, path)
      && StartsAt(requests[i], requests[i].paths[path], start)
      && var n := start + DigitsValue(text); position == ToInt32(Offset(i) + n)
    }

    /** The id of a plain case of a request, whose stream ends at a position that fits 32 bits. */
    ghost predicate Resumable(id: string, i: nat, part: Part)
      requires |requests| == |streams|
    {
      && i < |requests| && PartOk(requests[i], part) && id == CaseId(requests[i], [part])
      && [part] in SequentialParts(requests[i]) && FirstWith(i, requests[i].entries[part.0].path)
      && Offset(i + 1) <= TOP
    }

    ghost predicate NotResumable(id: string)
      requires |requests| == |streams|
    {
      forall i: nat, part: Part :: !Resumable(id, i, part)
    }
  }

  /** The plain cases of the entry follow from there. */
  ghost predicate StartsAt(request: CompiledRequest, entry: nat, start: nat) {
    && entry < |request.entries| && start < |SequentialParts(request)|
    && forall k: nat :: PlainCaseAt(SequentialParts(request), entry, request.entries[entry].kind.Count(), start, k)
  }

  lemma {:induction false} SingleId(request: CompiledRequest, part: Part)
    requires Clean(request.entries) && PartOk(request, part)
    ensures Names(CaseId(request, [part]), request.entries[part.0].path, Decimal(part.1))
    ensures AllDigits(Decimal(part.1)) && DigitsValue(Decimal(part.1)) == part.1
  {
    assert EntryClean(request.entries[part.0]);
    DecimalDenotes(part.1);
    forall c <- Decimal(part.1) ensures c != '+' && c != ':' {
      assert IsDigit(c);
    }
    assert "v1:" + (request.entries[part.0].path + ":" + Decimal(part.1))
        == "v1:" + request.entries[part.0].path + ":" + Decimal(part.1);
  }

  lemma {:induction false} OneSplit(id: string, a: string, x: string, b: string, y: string)
    requires Names(id, a, x) && Names(id, b, y)
    ensures a == b && x == y
  {
    NamedBody(id, a, x);
    NamedBody(id, b, y);
    SplitAtLast(a, b, x, y, ':');
  }

  /** A product id is split nowhere: it has a plus. */
  lemma {:induction false} ProductIsNotNamed(request: CompiledRequest, parts: Parts, path: string, text: string)
    requires PartsOk(request, parts) && |parts| > 1
    ensures !Names(CaseId(request, parts), path, text)
  {
    var id, first := CaseId(request, parts), PartId(request, parts[0]);
    assert id[3..] == first + "+" + JoinIds(request, parts[1..]) && id[3..][|first|] == '+';
    if Names(id, path, text) {
      NamedBody(id, path, text);
    }
  }

  lemma {:induction false} PlainId(request: CompiledRequest, ids: seq<string>, part: Part, start: nat, n: nat)
    requires PartOk(request, part) && StartsAt(request, part.0, start) && n == start + part.1
    requires IsStream(request, ids)
    ensures n < |ids| && ids[n] == CaseId(request, [part])
  {
    assert PlainCaseAt(SequentialParts(request), part.0, request.entries[part.0].kind.Count(), start, part.1);
    assert PartsOk(request, [part]) && IdAt(request, ids, n);
  }

  /** What a resumable id says about the search for its path. */
  lemma {:induction false} ResumableIsFound(p: Protocol, id: string, path: string, text: string, i: nat, part: Part)
    requires p.Valid() && p.Resumable(id, i, part) && Names(id, path, text)
    ensures p.FirstWith(i, path) && p.requests[i].paths[path] == part.0
    ensures AllDigits(text) && text != [] && DigitsValue(text) == part.1
  {
    assert p.ValidAt(i);
    SingleId(p.requests[i], part);
    OneSplit(id, path, text, p.requests[i].entries[part.0].path, Decimal(part.1));
  }

  lemma {:induction false} SameRequest(p: Protocol, i: nat, j: nat, path: string)
    requires p.FirstWith(i, path) && p.FirstWith(j, path)
    ensures i == j
  {
  }

  /** The position of a resumable id is where the id stands among all ids. */
  lemma {:induction false} ResumesThere(
      p: Protocol, id: string, i: nat, part: Part, position: int, at: nat, path: string, text: string, start: nat)
    requires p.Valid() && p.Resumable(id, i, part) && p.PositionOf(id, position, at, path, text, start)
    ensures 0 <= position < |p.Ids()| && p.Ids()[position] == id
  {
    ResumableIsFound(p, id, path, text, i, part);
    SameRequest(p, i, at, path);
    PlainStands(p, i, part, start, start + DigitsValue(text), position);
  }

  lemma {:induction false} PlainStands(p: Protocol, i: nat, part: Part, start: nat, n: nat, position: int)
    requires p.Valid() && i < |p.requests| && PartOk(p.requests[i], part) && p.Offset(i + 1) <= TOP
    requires StartsAt(p.requests[i], part.0, start) && n == start + part.1 && position == ToInt32(p.Offset(i) + n)
    ensures 0 <= position < |p.Ids()| && p.Ids()[position] == CaseId(p.requests[i], [part])
  {
    assert p.ValidAt(i);
    PlainId(p.requests[i], p.streams[i], part, start, n);
    Lands(p.streams, i, n, position);
  }

  // ----- ids without a position -----

  /** An entry that has a plain case has all of them, within the stream. */
  lemma {:induction false} PlainStart(request: CompiledRequest, root: Block, part: Part)
    requires Assembled(request, root) && PartOk(request, part) && [part] in SequentialParts(request)
    ensures part.1 < |SequentialParts(request)|
  {
    var counts, target := Counts(request), part.0;
    var units := Units(counts, request.caseSeq, []);
    AssembledReplays(request, root);
    PrefixWalkLocates(counts, request.caseSeq, [], target);
    var n :| 0 <= n < |SequentialParts(request)| && SequentialParts(request)[n] == [part];
    SequentialEnds(request, n, target);
    assert units[n] in units;
  }

  /** The stream of a request lies within the streams up to it and up to any later one. */
  lemma {:induction false} WithinStreams(p: Protocol, i: nat, j: nat)
    requires p.Valid() && i <= j < |p.requests|
    ensures |SequentialParts(p.requests[i])| <= p.Offset(j + 1)
  {
    assert p.ValidAt(i);
    JoinedPrefix(p.streams, i + 1, j + 1);
  }

  lemma {:induction false} UnreadableIsNotResumable(p: Protocol, id: string)
    requires p.Valid() && forall path, text :: Names(id, path, text) ==> !IndexText(text)
    ensures p.NotResumable(id)
  {
    forall i: nat, part: Part ensures !p.Resumable(id, i, part) {
      if p.Resumable(id, i, part) {
        assert p.ValidAt(i);
        SingleId(p.requests[i], part);
        PlainStart(p.requests[i], p.roots[i], part);
        WithinStreams(p, i, i);
        assert IndexText(Decimal(part.1));
        assert false;
      }
    }
  }

  lemma {:induction false} NotInAny(p: Protocol, id: string, path: string, text: string)
    requires p.Valid() && Names(id, path, text)
    requires forall j :: 0 <= j < |p.requests| ==> path !in p.requests[j].paths
    ensures p.NotResumable(id)
  {
    forall i: nat, part: Part ensures !p.Resumable(id, i, part) {
      if p.Resumable(id, i, part) {
        ResumableIsFound(p, id, path, text, i, part);
        assert false;
      }
    }
  }

  lemma {:induction false} NoRoomBefore(p: Protocol, id: string, path: string, text: string, i: nat)
    requires p.Valid() && Names(id, path, text) && i < |p.requests|
    requires forall j :: 0 <= j <= i ==> path !in p.requests[j].paths
    requires |SequentialParts(p.requests[i])| > TOP
    ensures p.NotResumable(id)
  {
    forall k: nat, part: Part ensures !p.Resumable(id, k, part) {
      if p.Resumable(id, k, part) {
        ResumableIsFound(p, id, path, text, k, part);
        WithinStreams(p, i, k);
        assert false;
      }
    }
  }

  lemma {:induction false} NoRoomWithin(p: Protocol, id: string, path: string, text: string, i: nat, start: nat)
    requires p.Valid() && Names(id, path, text) && IndexText(text) && p.FirstWith(i, path)
    requires start + DigitsValue(text) > TOP && StartsAt(p.requests[i], p.requests[i].paths[path], start)
    ensures p.NotResumable(id)
  {
    forall k: nat, part: Part ensures !p.Resumable(id, k, part) {
      if p.Resumable(id, k, part) {
        ResumableIsFound(p, id, path, text, k, part);
        SameRequest(p, i, k, path);
        assert p.ValidAt(i);
        PlainId(p.requests[i], p.streams[i], part, start, start + part.1);
        WithinStreams(p, i, i);
        assert false;
      }
    }
  }

  lemma {:induction false} NoCaseWithin(p: Protocol, id: string, path: string, text: string, i: nat)
    requires p.Valid() && Names(id, path, text) && p.FirstWith(i, path)
    requires var all := SequentialParts(p.requests[i]);
             forall n :: 0 <= n < |all| ==> !EndsIn(all[n], p.requests[i].paths[path])
    ensures p.NotResumable(id)
  {
    forall k: nat, part: Part ensures !p.Resumable(id, k, part) {
      if p.Resumable(id, k, part) {
        ResumableIsFound(p, id, path, text, k, part);
        SameRequest(p, i, k, path);
        assert false;
      }
    }
  }

  // ----- resolving an id -----

  /** The index of the entry with the path, as a scan of all paths. */
  method EntryWith(request: CompiledRequest, path: string) returns (entry: int)
    requires Indexed(request.entries, request.paths)
    ensures entry == -1 <==> path !in request.paths
    ensures entry != -1 ==> path in request.paths && entry == request.paths[path]
  {
    entry := -1;
    for i := 0 to |request.entries|
      invariant entry == -1 ==> forall k :: 0 <= k < i ==> request.entries[k].path != path
      invariant entry != -1 ==> 0 <= entry < i && request.entries[entry].path == path
    {
      if request.entries[i].path == path {
        entry := i;
      }
    }
    assert path in request.paths ==> request.entries[request.paths[path]].path == path;
  }

  /**
   The position of an id among the sequential cases of all requests, one after the other: the first request with
   the path, the raw cases before it, and the start of the entry in its own stream. The id of every plain case is
   found where it stands, as long as positions fit 32 bits; the ids of products are refused.
   */
  method PositionOfId(requests: seq<CompiledRequest>, ghost p: Protocol, id: string) returns (r: Result<int>)
    requires p.Valid() && p.requests == requests
    ensures r.Ok? ==> exists i: nat, path, text, start: nat :: p.PositionOf(id, r.value, i, path, text, start)
    ensures r.Err? ==> p.NotResumable(id)
    ensures r.Ok? ==>
      forall i: nat, part: Part :: p.Resumable(id, i, part) ==> 0 <= r.value < |p.Ids()| && p.Ids()[r.value] == id
  {
    var split := SplitId(id);
    if split.Err? {
      UnreadableIsNotResumable(p, id);
      return Err(split.error);
    }
    ghost var path := split.value.0;
    ghost var text :| Names(id, path, text) && IndexText(text) && DigitsValue(text) == split.value.1;
    r := Search(requests, p, id, split.value.0, split.value.1, text);
    if r.Ok? {
      ghost var at: nat, start: nat :| p.PositionOf(id, r.value, at, path, text, start);
      forall i: nat, part: Part | p.Resumable(id, i, part)
        ensures 0 <= r.value < |p.Ids()| && p.Ids()[r.value] == id
      {
        ResumesThere(p, id, i, part, r.value, at, path, text, start);
      }
    }
  }

  /** The loop over the requests, with the 32-bit offset. */
  method Search(
      requests: seq<CompiledRequest>, ghost p: Protocol, id: string, path: string, index: nat, ghost text: string)
      returns (r: Result<int>)
    requires p.Valid() && p.requests == requests
    requires Names(id, path, text) && IndexText(text) && DigitsValue(text) == index
    ensures r.Ok? ==> exists i: nat, start: nat :: p.PositionOf(id, r.value, i, path, text, start)
    ensures r.Err? ==> p.NotResumable(id)
  {
    var offset := 0;
    for i := 0 to |requests|
      invariant forall j :: 0 <= j < i ==> path !in requests[j].paths
      invariant p.OffsetIs(i, offset)
    {
      assert p.ValidAt(i);
      var entry := EntryWith(requests[i], path);
      if entry != -1 {
        r := Within(requests[i], p, id, path, index, text, i, offset);
        return;
      }
      var total := RawCount(requests[i]);
      if total > TOP {
        NoRoomBefore(p, id, path, text, i);
        return Err(Invalid(BadLiteral));
      }
      NextOffset(p, i, total, offset);
      offset := ToInt32(offset + total);
    }
    NotInAny(p, id, path, text);
    return Err(Invalid(BadLiteral));
  }

  /** The number of raw sequential cases of a request. */
  function RawCount(request: CompiledRequest): (n: nat)
    ensures n == |SequentialParts(request)|
  {
    UnitsCount(Counts(request), request.caseSeq, []);
    SeqCount(Counts(request), request.caseSeq)
  }

  /** The request with the path: its cases before the entry, then the index. */
  method Within(
      request: CompiledRequest, ghost p: Protocol, id: string, path: string, index: nat, ghost text: string,
      ghost i: nat, offset: int)
      returns (r: Result<int>)
    requires p.Valid() && p.FirstWith(i, path) && p.requests[i] == request
    requires Names(id, path, text) && IndexText(text) && DigitsValue(text) == index
    requires p.OffsetIs(i, offset)
    ensures r.Ok? ==> exists start: nat :: p.PositionOf(id, r.value, i, path, text, start)
    ensures r.Err? ==> p.NotResumable(id)
  {
    assert p.ValidAt(i);
    var found := RawPrefixAt(request, p.roots[i], path);
    var prefix := found.value;
    if prefix < 0 {
      NoCaseWithin(p, id, path, text, i);
      return Err(Invalid(BadLiteral));
    }
    assert StartsAt(request, request.paths[path], prefix);
    if prefix + index > TOP {
      NoRoomWithin(p, id, path, text, i, prefix);
      return Err(Invalid(BadLiteral));
    }
    WrapTwice(p.Offset(i), prefix + index);
    r := Ok(ToInt32(offset + (prefix + index)));
    assert p.PositionOf(id, r.value, i, path, text, prefix);
  }

  lemma {:induction false} NextOffset(p: Protocol, i: nat, total: nat, offset: int)
    requires p.Valid() && i < |p.requests| && total == |SequentialParts(p.requests[i])|
    requires p.OffsetIs(i, offset)
    ensures p.OffsetIs(i + 1, ToInt32(offset + total))
  {
    assert p.ValidAt(i);
    WrapTwice(p.Offset(i), total);
  }

  lemma {:induction false} WrapTwice(a: int, b: int)
    ensures ToInt32(ToInt32(a) + b) == ToInt32(a + b)
  {
  }
}
