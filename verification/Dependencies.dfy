/** Which computed fields a block contains, and what it means for their dependencies to be acyclic. */
module Dependencies {
  import opened Model
  import opened Rendering

  /** The two kinds of computed field whose dependencies are checked. */
  datatype Derived = SizeFields | ChecksumFields

  predicate Wanted(request: CompiledRequest, derived: Derived, i: nat) {
    && i < |request.entries|
    && match derived
       case SizeFields => request.entries[i].kind.ComputedSize?
       case ChecksumFields => request.entries[i].kind.ComputedChecksum?
  }

  /** The target path of a computed field. */
  function TargetOf(request: CompiledRequest, derived: Derived, i: nat): string
    requires Wanted(request, derived, i)
  {
    match derived
    case SizeFields => request.entries[i].kind.size.target
    case ChecksumFields => request.entries[i].kind.checksum.target
  }

  /** Entry `i` contains computed field `d`, through blocks and repetitions. */
  ghost predicate Reaches(request: CompiledRequest, derived: Derived, i: nat, d: nat)
    requires Structured(request) && i < |request.entries|
    decreases StructuralRank(request)[i]
  {
    || (Wanted(request, derived, i) && d == i)
    || match request.entries[i].kind
       case Container(children) =>
         assert EntryOk(request, i);
         exists k :: 0 <= k < |children|
           && (assert Descends(request, StructuralRank(request), i, children[k]);
               Reaches(request, derived, children[k], d))
       case Repetition(path, _, _, _, _) =>
         && path in request.paths
         && (assert Descends(request, StructuralRank(request), i, request.paths[path]);
             Reaches(request, derived, request.paths[path], d))
       case _ => false
  }

  /** Field `c` depends on field `d` when its target contains `d`; containing itself does not count. */
  ghost predicate DependsOn(request: CompiledRequest, derived: Derived, c: nat, d: nat)
    requires Structured(request)
  {
    && Wanted(request, derived, c)
    && TargetOf(request, derived, c) in request.paths
    && Reaches(request, derived, request.paths[TargetOf(request, derived, c)], d)
    && d != c
  }

  ghost predicate DependencyDescends(request: CompiledRequest, derived: Derived, rank: seq<nat>, c: nat, d: nat)
    requires Structured(request)
  {
    c < |rank| && d < |rank| && DependsOn(request, derived, c, d) ==> rank[d] < rank[c]
  }

  ghost predicate IsDependencyRank(request: CompiledRequest, derived: Derived, rank: seq<nat>)
    requires Structured(request)
  {
    |rank| == |request.entries| && forall c: nat, d: nat :: DependencyDescends(request, derived, rank, c, d)
  }

  ghost predicate AcyclicDependencies(request: CompiledRequest, derived: Derived)
    requires Structured(request)
  {
    exists rank :: IsDependencyRank(request, derived, rank)
  }

  /** What is reached is a computed field of the table. */
  lemma {:induction false} ReachedIsWanted(request: CompiledRequest, derived: Derived, i: nat, d: nat)
    requires Structured(request) && i < |request.entries|
    requires Reaches(request, derived, i, d)
    ensures Wanted(request, derived, d)
    decreases StructuralRank(request)[i]
  {
    if !(Wanted(request, derived, i) && d == i) {
      match request.entries[i].kind
      case Container(children) =>
        assert EntryOk(request, i);
        var k :| 0 <= k < |children| && Reaches(request, derived, children[k], d);
        assert Descends(request, StructuralRank(request), i, children[k]);
        ReachedIsWanted(request, derived, children[k], d);
      case Repetition(path, _, _, _, _) =>
        assert Descends(request, StructuralRank(request), i, request.paths[path]);
        ReachedIsWanted(request, derived, request.paths[path], d);
    }
  }

  predicate IsMirror(request: CompiledRequest, i: nat) {
    i < |request.entries| && request.entries[i].kind.Mirror?
  }

  ghost predicate MirrorFree(request: CompiledRequest) {
    forall i: nat :: !IsMirror(request, i)
  }
}
