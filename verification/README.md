# A verified model of a protocol fuzzer's core

The program describes a protocol message as a tree of named blocks and fields, compiles the tree to a flat
preorder table, renders the table to bytes with computed sizes, checksums, repetitions and conditions, and
enumerates all mutations of it lazily. This project models that core in Dafny and proves what its parts promise
about each other. `dafny verify dfyconfig.toml` checks everything.

## How the model is laid out

Enumeration

- `CaseSequences` holds the case tree (plain entries, sequences, products over a group), its recursive meaning
  `Units`, the stack frames of the lazy walker with what each stack still owes, and the raw position of an entry.
- `Combinations` defines what the combinatorial walker emits at each depth and proves what that is;
  `CombinationWalk` holds the walker's frames and the invariant of every move.
- `StreamSpec` is one call of `next` as a pure step on the raw positions ahead, with the theorems about all runs.
  `CaseStreams` is the stream object itself: its methods update the stack, the frames and the counters in place
  and are proved to do exactly that step. `CaseBuilding`, `RequestStreams`, `Replay` and `DistinctCases` build
  cases from a table, connect both enumerations to compiled requests, replay cases and identify them;
  `GroupedParts` says which cases replace an entry more than once, `EffectiveReplacements` shows that rendering
  looks only at the first replacement of each entry, and `CaseIds` resolves a case id to its position.
- `FlatRequests` is the eager form that the compiled stream refines. `Witnesses` and `SizeWitnesses` hold the
  definitions behind the negative results below.

Compiling and rendering

- `Model` has the definition tree, the compiled table, replacements, conditions and repeat counts; `Integers` has
  the byte encodings and decimal text.
- `Layout`, `Assembly`, `Graphs`, `Dependencies`, `DependencyCheck`, `Compilation` and `CompiledRequests` build the
  table and check it. Subtrees are contiguous index ranges; accepted computed fields have acyclic dependencies.
- `Definitions`, `Visibility` and `NodeMeanings` go back from the table to the definition: which node an entry
  describes, which blocks decide whether it is visible, and what each kind of node renders to, without the helpers that
  compiling and rendering share.
- `Rendering` produces tokens, runs of bytes that remember their entry, so that a theorem can speak about one field
  of a payload. The buffer-filling methods are proved to produce the same bytes. `Measuring` is the second
  interpreter, which only counts, and `Checksums` explains the checksums found in a payload. `CasePayloads` carries
  both to the payloads of emitted cases of compiled requests.

Numbers and sessions

- `Arithmetic`, `Limbs`, `Decimals`, `BigNumbers`, `FixedPoint` and `Binary32` cover exact formatting and packing
  of doubles, which are modelled by sign, biased exponent and fraction.
- `OnesComplement`, `Boundaries` and `MersenneTwister` are the arithmetic kernels.
- `SessionPaths` and `SessionGraphs` are the session graph, its incremental construction and its paths.

Errors are values of `Result`. `Limit` stands for an exceeded budget, which a stream passes over; `Invalid` carries
the reason, one constant for each kind of message.

## Where the code does not do what one might expect

- `measure` ignores a replacement of an ascii size (size.mbt:102-103), and takes a negative repeat count as a factor
  where rendering repeats nothing. `AgreeExactlyWhenFaithful` says that these are the only ways for the two
  interpreters to part: they agree on every entry exactly when each visible replaced ascii size has the computed
  length and each visible negative repetition measures as zero. `MutatedTextMisleads` and `NegativeCountMisleads` are
  compiled definitions, one for each way, with an emitted case in which a size field is wrong. That a negative count
  repeats nothing is an assumption about the library's `Bytes::repeat`, which is not part of the repository.
- The carry test of the binary32 packer compares with 2^23 instead of 2^24 (float.mbt:443). `EncodeFloat` is proved
  correct exactly outside of `CarriesOut`; `CarryWitness` shows a double just below 2 that packs as 1.
- A comment on the replacements of a case says that their entries are unique (model.mbt:274-276). `UniqueReplacements`
  gives the exact condition: they are unique in every sequential case if and only if no block is multiplied by a field
  inside it or by a group that is live inside it, for instance when every group lies outside the block it multiplies.
  They are always unique in combinatorial cases (`CombinedReplacements`). `SelfGroupMisnames` is a compiled definition
  with a single block, grouped by a field of its own.
- When an entry is replaced twice the first replacement wins, so that a case need not contain the mutation it is named
  after, as in `SelfGroupMisnames`. `OwnMutations` says when all cases do: in the sequential stream if and only if each
  field that multiplies a block it lies in has only one candidate value, in the combinatorial stream always.
- The pairs of a case drop the repetitions of its last part. `ReplayRoundTrip` gives the exact condition for a replay to
  put the same replacements into effect, `SequentialReplays` and `CombinatorialReplays` the streams for which it always
  holds, and `TwinReplayDiffers` a compiled definition with a case that is replayed with another payload.
- Two nested blocks with the same group also emit the same part list twice; `SequentialIds` gives the exact condition
  and `TwinIdsRepeat` a definition. In the combinatorial stream ids are distinct without groups (`CombinedIds`); a group
  makes them repeat at two depths even when it lies outside its block (`GroupIdsRepeat`).
- A position that an id resolves to is a sum of 32-bit counts that may wrap around (definition/definition.mbt:145);
  `PositionOfId` says exactly what the sum is, and that it is right whenever the streams up to the request fit.
- Fixed-point text is read back by `parse_decimal` exactly when its digits are below the mantissa bound
  (float.mbt:382); the texts "-inf" and "-nan" are written but not accepted (`NegativeSpecialsUnread`).

## Model

| member | source | states |
|---|---|---|
| `CaseSequences.UnitsCount` | mutation.mbt:502-515 | the count computed without enumerating is the number of enumerated cases |
| `CaseSequences.CollectUnits` | mutation.mbt:115-143 | the collector appends exactly the units of the case tree, in order |
| `CaseSequences.SilentStepKeepsRest` | mutation.mbt:263-310 | a move of the lazy walker that emits nothing leaves what the stack still owes unchanged and uses up work |
| `CaseSequences.EmitStep` | mutation.mbt:263-310 | a move that emits takes exactly the first part list that the stack owes |
| `CaseSequences.RawPrefixWalk` | mutation.mbt:555-585 | the recursion with a found flag agrees with its functional form |
| `CaseSequences.RawPrefixBefore` | mutation.mbt:545-551 | of a resolved entry: the first raw position ending in it, from which its plain cases follow candidate by candidate; -1 means that no case ends there |
| `RequestStreams.RawPrefixAt` | mutation.mbt:540-552 | the same for a path of any assembled request, with the error for an unknown path |
| `Combinations.RelatedMeaning` | mutation.mbt:146-161 | paths are related exactly when one is a piece of the other |
| `Combinations.ContainsDuplicatePaths` | mutation.mbt:146-161 | the test finds a duplicate exactly when two parts have related paths |
| `Combinations.AtDepthJoins` | mutation.mbt:315-382 | with or without groups, each part list at depth d joins d units and its paths are pairwise unrelated |
| `Combinations.DepthBounded` | mutation.mbt:315-382 | nothing is emitted deeper than the number of leaf entries |
| `Combinations.FromDepthIsBounded` | mutation.mbt:315-382 | with or without a maximum depth, each case of the walk belongs to a depth within that bound |
| `Combinations.FromDepthExactly` | mutation.mbt:163-167 | the walk emits exactly the combinations of the depths up to the maximum, as long as no depth before is empty |
| `Combinations.UngroupedWalk` | mutation.mbt:315-382 | without groups, depth d emits exactly the increasing d-tuples of mutating entries with all candidates and unrelated paths, once each, in lexicographic order |
| `Combinations.UngroupedWalkIsExhaustive` | mutation.mbt:315-382 | without groups and without a maximum depth, tuples of no depth are missed |
| `CombinationWalk.WalkDescends` | mutation.mbt:325-347 | pushing a frame for a deeper unit keeps what the frames owe |
| `CombinationWalk.WalkPops` | mutation.mbt:357-380 | leaving an exhausted frame keeps what the frames owe |
| `StreamSpec.StepConserves` | mutation.mbt:424-468 | what one call emits and what is left ahead are together what was ahead; the limit is kept and terminal states are explained |
| `StreamSpec.RunConserves` | mutation.mbt:424-468 | the same over any number of calls |
| `StreamSpec.TerminalIsFinal` | mutation.mbt:424-425 | a stream that is not running stays as it is and emits nothing |
| `StreamSpec.RunCompletes` | mutation.mbt:424-468 | enough calls emit every existing case, or as many as the limit allows |
| `StreamSpec.ResumeContinues` | mutation.mbt:488-497 | a new stream started at the position of another emits exactly the cases that one had not emitted, with the same ordinals |
| `StreamSpec.SurvivorsCarryPositions` | mutation.mbt:424-468 | ordinals are raw positions and increase |
| `StreamSpec.OnlyOversizedSkipped` | mutation.mbt:441-467 | a position that builds is emitted unless an earlier one fails for another reason than size |
| `CaseStreams.CaseStream.Find` | mutation.mbt:263-310 | the stack walker returns the first owed part list and then owes the others |
| `CaseStreams.CaseStream.CombStep` | mutation.mbt:315-382 | the combinatorial walker returns the first owed part list and then owes the others, deepening as needed |
| `CaseStreams.CaseStream.Next` | mutation.mbt:424-468 | one call is exactly one step of the specification, in either mode |
| `CaseBuilding.GatherReplacements` | mutation.mbt:385-421 | every part replaces its entry by its candidate, in order |
| `CaseBuilding.GatherExtra` | mutation.mbt:385-421 | the extra pairs are all parts other than the leaf's own |
| `CaseBuilding.BuildCase` | mutation.mbt:385-421 | the loop form, as the stream calls it, builds the case that the specification of the stream expects |
| `RequestStreams.EnumerationsOk` | mutation.mbt:115-143 | every raw position of either enumeration names candidates of the table |
| `RequestStreams.Cases` | mutation.mbt:87-112 | a sequential stream stands before all part lists of the request at its start offset; negative arguments are rejected |
| `RequestStreams.CombinatorialCases` | mutation.mbt:196-224 | a combinatorial stream stands before all combinations of the request at its start offset |
| `Replay.RenderCase` | model.mbt:441-452 | rendering a saved case resolves its pairs in order and renders with their candidates |
| `EffectiveReplacements.SameEffectRenders` | model.mbt:286-294 | replacements with the same first value for every entry give the same bytes, through conditions, sizes, checksums and repetitions |
| `Replay.EffectKept` | mutation.mbt:385-421 | dropping the repetitions of the last part keeps all effective replacements exactly when it does not come first among the earlier parts of its entry before one with another candidate |
| `Replay.ReplayRoundTrip` | mutation.mbt:472-476 | the pairs of an emitted case resolve to its parts without those repetitions; the same replacements are in effect exactly under that condition, and then rendering the pairs gives the payload |
| `Replay.CombinatorialReplays` | mutation.mbt:472-476 | every combinatorial case replays to its own payload |
| `GroupedParts.UniqueIffSelfFree` | model.mbt:84-103 | all part lists of a separated case tree name pairwise distinct entries exactly when no product with something to multiply multiplies by a leaf or a live group inside it |
| `GroupedParts.UniqueReplacements` | model.mbt:274-276 | the entries replaced in each sequential case of an assembled request are unique exactly under that condition, and whenever every group of the definition lies outside the block it multiplies |
| `GroupedParts.CombinedReplacements` | model.mbt:274-276 | the entries replaced in each combinatorial case are unique, for every request and every maximum depth |
| `GroupedParts.OwnCandidate` | model.mbt:286-294 | a case replaces its own field by the candidate it is named after exactly when the first part of that field carries this candidate |
| `GroupedParts.InEffectIffSafe` | mutation.mbt:385-421 | that holds of all lists of a separated case tree exactly when every leaf that multiplies a block around it has one candidate value only |
| `GroupedParts.OwnMutations` | mutation.mbt:385-421 | the same for whole streams: the sequential one exactly under that condition, and whenever every group lies outside its block; the combinatorial one always |
| `Witnesses.SelfGroupMisnames` | mutation.mbt:397-404 | a compiled definition with one block, grouped by its own field: an enumerated case replaces the field twice and is emitted without the mutation in its field path and mutation index |
| `GroupedParts.UnshadowedIffSafe` | mutation.mbt:397-404 | no list of a separated case tree shadows its last part exactly when each leaf that two enclosing products multiply by has one candidate value only |
| `GroupedParts.SequentialReplays` | mutation.mbt:472-476 | every sequential case puts the same replacements into effect again exactly under that condition, and then replays to its own payload; so whenever no nested blocks share a group |
| `Witnesses.TwinReplayDiffers` | mutation.mbt:397-404 | a compiled definition with an enumerated case that is emitted with one payload and replayed with another |
| `CaseIds.SplitId` | definition/definition.mbt:93-113 | an id is read as a path and an index exactly when it has the form of a single part, split at its last colon |
| `CaseIds.DecimalU64` | definition/json_helpers.mbt:59-73 | an index is a nonempty string of digits that denotes a number below 2^64 |
| `CaseIds.PositionOfId` | definition/definition.mbt:93-149 | the id of every plain case of every request resolves to the position where it stands among the ids of all streams, as long as positions fit 32 bits; no such id is refused |
| `CaseIds.ResumesThere` | definition/definition.mbt:91-149 | what the offsets, the start of the entry and the index add up to is the position of the id |
| `CaseIds.ProductIsNotNamed` | definition/definition.mbt:102-106 | the id of a product has no such form |
| `Replay.CaseIdInjective` | mutation.mbt:385-421 | a case id determines its part list |
| `DistinctCases.UnitsCarryLists` | mutation.mbt:115-143 | the units of any prefix carry the prefix-free part lists behind it |
| `DistinctCases.DistinctIffUnshared` | model.mbt:84-103 | a separated case tree lists no case twice exactly when no product multiplies by a group that is live inside it |
| `DistinctCases.SequentialIds` | model.mbt:84-103 | sequential ids are pairwise distinct exactly under that condition, and whenever no nested blocks of the definition share a group |
| `DistinctCases.CombinedIds` | mutation.mbt:315-382 | without groups, the ids of the combinatorial stream are pairwise distinct over all depths |
| `Witnesses.GroupIdsRepeat` | mutation.mbt:315-382 | an assembled definition with a group outside its block whose combinatorial ids repeat at two depths |
| `Witnesses.TwinIdsRepeat` | model.mbt:84-103 | an assembled definition with two nested blocks of one group whose sequential ids repeat |
| `FlatRequests.Request.Render` | request.mbt:22-30 | the default values in field order |
| `FlatRequests.Request.Mutations` | request.mbt:35-54 | all payloads that replace one field by one alternative, in field and alternative order |
| `FlatRequests.FromRequest` | model.mbt:464-473 | a flat request compiles exactly when its name is valid and its default payload fits; generated names never clash |
| `FlatRequests.FlatRenders` | model.mbt:390-417 | a flat table renders to its values in order, or exceeds the budget |
| `FlatRequests.FlatStreamRefines` | model.mbt:464-473 | from any start, the compiled stream emits exactly the members of the eager list that fit, in order, with their indices as ordinals |
| `Integers.EncodeRoundTrip` | integer.mbt:29-37 | a value that fits its width decodes to itself in both byte orders |
| `Integers.EncodedByte` | integer.mbt:29-37 | byte i from the least significant end, which is the front in little-endian order, is the value shifted by i bytes |
| `Integers.DecimalDenotes` | size.mbt:185-186 | decimal text denotes its number without superfluous zeros |
| `Model.BytesLexicographic` | condition.mbt:35-55 | the early-returning loop computes the comparison |
| `Model.CheckCondition` | condition.mbt:77-105 | a condition evaluated with that loop holds as specified, errors included |
| `Model.CompareMeaning` | condition.mbt:35-55 | the comparison orders by the first difference, prefixes first, and is antisymmetric |
| `Visibility.ConditionMeaning` | condition.mbt:97-106 | what each of the eight tests decides about the value it sees, the ordering tests by the first difference with the configured bytes on the left |
| `Visibility.ConditionLaws` | condition.mbt:97-106 | a test for one value is a test for a list of one, and the negative and the weak tests are complements, errors included |
| `Visibility.ConditionSees` | condition.mbt:79-96 | conditions see the replacement, the session variable or the default of the field of the definition, which is what the field renders to where it is visible |
| `Visibility.VisibleInBlocks` | condition.mbt:68-113 | an entry is visible exactly when the condition of every block of the definition whose index range contains it holds; otherwise the innermost that does not hold decides |
| `Model.IsVisible` | condition.mbt:68-113 | the upward walk finds whether the conditions of the entry and of all enclosing blocks hold |
| `Rendering.RenderNode` | model.mbt:297-419 | the buffer-filling recursion produces the bytes of the emitted tokens, with the same failures, and ends for every well-founded table |
| `Rendering.RenderContainer` | model.mbt:396-417 | children in order within the byte budget, then the alignment padding |
| `Rendering.RenderDigest` | checksum.mbt:251-270 | the loops over words and bytes give the digest with each word reversed in a big-endian field |
| `Rendering.AppendPadding` | model.mbt:411-413 | the loop appends the pattern over and over |
| `NodeMeanings.NodeRenders` | model.mbt:297-419 | what every node of the definition renders to, in every scene: a leaf its default, a bound field its session variable or the error, a checksum the digest of its target, a mirror its target, a repetition copies, a block its children |
| `NodeMeanings.BlockRenders` | model.mbt:396-417 | a block renders to its children's bytes in order and its padding exactly when all children render and the whole fits the budget |
| `NodeMeanings.PaddingPads` | model.mbt:407-414 | the padding has between one byte and a full modulus, makes the block a multiple of it, and repeats the pattern |
| `NodeMeanings.PaddingIsUnique` | model.mbt:407-414 | only one padding does |
| `NodeMeanings.RepeatRenders` | model.mbt:342-377 | a repetition renders to as many copies of its target as the signed 32-bit count of its replacement or session variable says, or fails |
| `Measuring.MeasureNode` | size.mbt:71-165 | the recursion over all kinds of entries computes the measured length, with the same failures |
| `Measuring.MeasureContainer` | size.mbt:142-159 | the loop with a running total computes the measured length of a block |
| `Measuring.ComputeSize` | size.mbt:168-190 | the bytes of a size field, as compilation evaluates them |
| `Measuring.MeasureIsRenderedLength` | size.mbt:71-165 | measuring an entry gives the length of its rendering whenever both succeed, under the exact condition of the next row |
| `Measuring.AgreeExactlyWhenFaithful` | size.mbt:98-141 | for every scene with candidates as replacements, the interpreters agree on every entry, whatever checksums are under way, exactly when every visible replaced ascii size has the computed length and every visible negative repetition measures as zero |
| `SizeWitnesses.MutatedTextMisleads` | size.mbt:98-106 | a compiled definition with a mutated ascii size: an emitted case in which a size field does not tell the length of its block |
| `SizeWitnesses.NegativeCountMisleads` | size.mbt:114-141 | a compiled definition and a session variable with its top bit set: an emitted case in which a size field says 0 before a block of one byte |
| `Measuring.SizeValueTells` | size.mbt:168-190 | a size is computed exactly when length, offset and own width add up to a number that fits the field, with the error for either side otherwise, and then tells the length |
| `Measuring.SizeFieldIsHonest` | size.mbt:168-190 | a visible unreplaced binary size less its offset is the rendered length of its target, or of target and field together when inclusive; an ascii size is that number in digits |
| `Checksums.EmitIgnoresHigher` | model.mbt:317-332 | the active chain has no influence on checksums that do not depend on it |
| `Checksums.ActiveMeansZeroed` | model.mbt:317-332 | rendering with a checksum active is rendering with that field's occurrences zeroed |
| `Checksums.ChecksumCarriesDigest` | checksum.mbt:251-270 | a little-endian field is the digest; in a big-endian field byte b of word w is byte 3 - b of that word of the digest |
| `Checksums.ChecksumIsHonest` | checksum.mbt:251-270 | a checksum carries, in that sense, the digest of its target as emitted with only its own occurrences zeroed |
| `Checksums.PayloadChecksums` | checksum.mbt:80-111 | the same for every unreplaced checksum anywhere in a payload |
| `Checksums.PayloadSizes` | size.mbt:168-190 | every unreplaced size field anywhere in a payload tells the length of its target |
| `CasePayloads.RepeatCandidate` | repeat.mbt:36-47 | candidate k of a repetition decodes to min + k * step; the candidates stay within the range and reach its end |
| `CasePayloads.CandidateOfNode` | repeat.mbt:23-47 | the candidates that cases take are those of the nodes of the definition, by number and in number |
| `CasePayloads.CaseFits` | mutation.mbt:385-421 | a case exists exactly when the definition renders with its replacements and the candidate of its own plain field fits the byte limit, and its payload fits too |
| `CasePayloads.CaseIsProper` | mutation.mbt:385-421 | every case is rendered in a scene that the agreement theorem speaks about |
| `CasePayloads.CaseIsFaithful` | mutation.mbt:385-421 | without mutated ascii sizes and negative session counts, the interpreters agree in every case |
| `CasePayloads.CaseChecksums` | checksum.mbt:80-111 | every unreplaced checksum in the payload of every case of a compiled mirror-free request is the digest of its target with only its own occurrences zeroed |
| `CasePayloads.CaseSizes` | size.mbt:168-190 | every unreplaced size in the payload of every case of a compiled mirror-free request tells the length of its target, whenever the interpreters agree |
| `CasePayloads.EmittedSizes` | size.mbt:239-281 | both, from a definition without mirrors and a case without mutated ascii sizes |
| `Layout.SubtreeRange` | model.mbt:114-181 | subtrees are nested index ranges, and paths inside a range extend its path |
| `Layout.ChildRange` | model.mbt:114-181 | children lie inside the range of their block |
| `Assembly.Table.AddNode` | model.mbt:114-181 | adding succeeds exactly when names, nesting and repeat ranges are valid and all paths are new and distinct; the subtree is then placed in preorder at the old end |
| `Definitions.EntryOfNode` | model.mbt:114-181 | every entry describes its node of the definition: kind, bound variable, and for blocks their own condition, alignment and group, under the path of its parent and its own name, with the children of a block at the entries it lists |
| `Definitions.ReferencesByNodes` | model.mbt:195-238 | the checks on the table pass exactly when every node refers to what it may: repetitions to earlier blocks not around them, mirrors to nothing around them, conditions to plain or bound fields, groups to plain fields |
| `Definitions.FormedByNodes` | model.mbt:105-181 | a definition is accepted by `AddNode` exactly when every node has a nonempty name without separators, at most 256 blocks around it and a countable repeat range, and all paths differ |
| `Definitions.EnclosedByParent` | model.mbt:114-181 | the ranges around an entry are its own and those around its parent |
| `Assembly.BuiltSeqReplays` | model.mbt:84-103 | every product of a built case tree repeats its preceding sibling |
| `Assembly.SubtreePlains` | model.mbt:84-103 | without groups the plain entries of a subtree are its mutating entries in table order |
| `Graphs.StaysAcyclic` | session.mbt:60-72 | an edge whose target does not lead back to its source closes no cycle |
| `Graphs.ClosesCycle` | session.mbt:60-72 | an edge whose target leads back to its source closes one |
| `DependencyCheck.VisitDependencies` | size.mbt:216-236 | success finishes a node after all it points at; a rejection is backed by a real cycle or a real walk that is too long |
| `DependencyCheck.RejectCycles` | size.mbt:272-275 | acceptance means that a rank exists and no cycle does |
| `DependencyCheck.CollectDependencies` | size.mbt:193-213 | the marking search collects exactly the computed fields that an entry contains |
| `Compilation.CheckReferences` | model.mbt:209-238 | the checks on repeat, condition and mirror targets pass exactly when those references are sound |
| `Compilation.ResolveGroups` | model.mbt:195-206 | groups resolve exactly when each names a plain field |
| `Compilation.Assemble` | model.mbt:185-238 | an accepted table is laid out, indexed and referenced as required; a rejection is backed by a defect of the definition |
| `Compilation.TableIsUnique` | model.mbt:114-181 | a definition has only one table |
| `Compilation.AssembledIsStructured` | model.mbt:209-238 | containment and repetition of every assembled table are well-founded, so rendering ends even with mirror cycles |
| `Compilation.FieldEdges` | size.mbt:243-271 | a computed field is accepted exactly when it targets a block and contains itself only directly, never as ascii; its edges are its dependencies |
| `Compilation.ValidateDependencies` | checksum.mbt:80-111 | accepted dependencies are acyclic; a rejection is backed by a bad field, a cycle or a long chain |
| `CompiledRequests.GroundedWithoutMirrors` | size.mbt:239-281 | without mirrors, accepted size dependencies make measuring well-founded |
| `CompiledRequests.NoMirrorsMeasurable` | size.mbt:239-281 | every definition without mirrors can be compiled without the default sizes recursing forever |
| `CompiledRequests.Compile` | model.mbt:185-243 | success establishes everything the other theorems need, including default sizes and payload; failure is backed by a defect |
| `CompiledRequests.AssembledReplays` | model.mbt:84-103 | the raw position walk is exact on every assembled request |
| `CompiledRequests.UngroupedCombinations` | mutation.mbt:315-382 | on every assembled request without groups, the combinatorial walk emits exactly the unrelated increasing tuples |
| `RequestStreams.UngroupedExhaustive` | mutation.mbt:315-382 | on every assembled request without groups, the whole unbounded enumeration is exactly the nonempty unrelated increasing tuples of every size |
| `Limbs.AtBit` | float.mbt:222-246 | quotient and remainder by a power of two look only at the limb it falls into |
| `Limbs.ShrValue` | float.mbt:281-307 | shifting every limb right divides the number |
| `Limbs.ShlValue` | float.mbt:249-278 | shifting every limb left multiplies the number |
| `BigNumbers.Big.constructor` | float.mbt:204-206 | the limbs of a 64-bit value have that value |
| `BigNumbers.Big.MulSmall` | float.mbt:209-219 | in-place multiplication by a limb |
| `BigNumbers.Big.Bit` | float.mbt:222-228 | the bit of the number at a position |
| `BigNumbers.Big.AnyBitBelow` | float.mbt:232-246 | whether the number has a remainder by that power of two |
| `BigNumbers.Big.Shl` | float.mbt:249-278 | in-place multiplication by a power of two |
| `BigNumbers.Big.Shr` | float.mbt:281-307 | in-place division by a power of two |
| `BigNumbers.Big.AddOne` | float.mbt:310-319 | in-place increment |
| `BigNumbers.Big.ToDecimal` | float.mbt:323-349 | repeated division by 10^9 writes the decimal digits of the number |
| `Decimals.DecimalJoin` | float.mbt:343-348 | padded groups after the leading group are the digits of the whole |
| `FixedPoint.NearestIsUnique` | float.mbt:131-137 | round-half-to-even has one result |
| `FixedPoint.RoundedUp` | float.mbt:169-179 | tie bit, lower bits and lowest kept bit decide round-half-to-even |
| `FixedPoint.FormatFixedPoint` | float.mbt:138-198 | the sign and the digits of the round-half-to-even integer of the exact magnitude times 10^N, with the point N places from the right; inf and nan |
| `FixedPoint.ParseDecimal` | float.mbt:357-390 | the scan yields sign, integer mantissa and number of fraction digits, or the first error |
| `FixedPoint.FormatThenRead` | float.mbt:357-390 | fixed-point text reads back as its units and precision exactly when they are below the mantissa bound |
| `FixedPoint.NegativeSpecialsUnread` | float.mbt:357-381 | the text of a negative infinity or nan is rejected |
| `Binary32.RoundingIsUnique` | float.mbt:415-416 | roundTiesToEven, section 4.3.1 of IEEE 754-2008, has one result |
| `Binary32.NormalNarrows` | float.mbt:436-448 | rounding the 53-bit significand to 24 bits rounds the magnitude, including the carry into the next exponent |
| `Binary32.SubnormalNarrows` | float.mbt:449-467 | the shifted significand rounds the magnitude to a multiple of the least single |
| `Binary32.CarryIsWrong` | float.mbt:440-448 | when the significand carries out, the packed code is not the rounding |
| `Binary32.CarryWitness` | float.mbt:440-448 | the largest double below 2 rounds to 2 and is packed as 1 |
| `Binary32.EncodeFloat` | float.mbt:417-471 | the bytes hold the sign and the roundTiesToEven code exactly when no carry out occurs, and what they hold otherwise; zeros, subnormals, overflow, inf and nan |
| `SessionPaths.RootsExact` | session.mbt:149-224 | the pruned depth-first listing is exactly the root paths to wanted nodes, in depth-first order |
| `SessionPaths.RootsFail` | session.mbt:149-185 | listing fails exactly when such a path has more than 256 requests |
| `SessionPaths.SortedIsDistinct` | session.mbt:149-185 | no path is listed twice |
| `SessionGraphs.SessionGraph.Add` | session.mbt:26-36 | a new name appends an isolated node; a known one is rejected without change |
| `SessionGraphs.SessionGraph.Connect` | session.mbt:49-77 | an edge is accepted exactly when it is new and closes no cycle; a rejection changes nothing |
| `SessionGraphs.SessionGraph.SearchBackward` | session.mbt:197-210 | the marks are exactly the nodes that lead to a chosen one |
| `SessionGraphs.SessionGraph.Walk` | session.mbt:149-185 | the recursion appends the listed paths with aligned transitions, or stops at a limit |
| `SessionGraphs.SessionGraph.Paths` | session.mbt:189-224 | all root-to-target paths, each once, in depth-first order, one transition for each request; limits are reported only when exceeded |
| `OnesComplement.OnesComplementSum` | checksum.mbt:142-157 | the word sum is folded to 16 bits, for odd lengths too, and the fold ends |
| `OnesComplement.Ipv4Verifies` | checksum.mbt:162-165 | storing the checksum in a zeroed even field makes the ones' complement sum 0xffff, section 1 of RFC 1071 |
| `OnesComplement.UdpChecksum` | checksum.mbt:173-204 | the complemented sum over pseudo-header and datagram, with zero sent as 0xffff |
| `OnesComplement.UdpSum` | checksum.mbt:173-204 | the sum is that of the addresses, 17, the length and the datagram |
| `OnesComplement.UdpVerifies` | checksum.mbt:173-204 | storing it makes the sum with the pseudo-header 0xffff, RFC 768 |
| `Boundaries.FractionIsExact` | integer.mbt:46-50 | the fractions of maximum + 1 are exact although it is never represented |
| `Boundaries.IntegerBoundaries` | integer.mbt:43-78 | strictly increasing and exactly the values near 0, the maximum and its fractions |
| `MersenneTwister.TwistUndone` | mt19937.mbt:80-87 | a new term and the middle term give back the top bit and the low bits that it was made of |
| `MersenneTwister.TemperInjective` | mt19937.mbt:90-95 | the tempering can be undone |
| `MersenneTwister.Generator.Next` | mt19937.mbt:78-96 | the n-th call returns the tempered n-th term of the infinite recurrence |
| `MersenneTwister.Generator.GetRandBits` | mt19937.mbt:99-115 | k bits drawn from one or two words: the high bits of one, or a whole word below the high bits of the next |
| `MersenneTwister.IntBitLength` | mt19937.mbt:132-140 | the number of bits of a positive value |
| `MersenneTwister.Generator.RandInt` | mt19937.mbt:145-158 | the first draw below the width, of as many bits as the width has, added to the low end; an error exactly for an empty range or a width that overflows |

## Left out

- CompiledRequests.Compile: requires that measuring the table ends, because the program evaluates default sizes while compiling and does not return on some cyclic mirrors; all definitions without mirrors meet this.
- Checksums.PayloadChecksums: states checksums for tables without mirrors, as do the theorems built on it; rendering with mirrors is only shown to end.
- MersenneTwister.Generator.RandInt: takes a bound on the number of redraws, because termination of the rejection loop depends on the random words.
- Binary32.EncodeFloat: writes the disjoint bitwise `|` and the masks of the packer as sums and remainders, as the limb routines do.
- FixedPoint.ParseDecimal: stops before the final floating division, which depends on native double arithmetic.
- DependencyCheck.CollectDependencies: one member stands for the two identical searches for sizes and checksums (size.mbt:193-213, checksum.mbt:57-77).
- CaseBuilding.BuildCase: answers a part list that names no candidate with an error; no stream produces one (`EnumerationsOk`).
- Replay.ReplayRoundTrip: under the shadowing condition the payload may still coincide, for instance when the entry is not visible; only the effective replacements are characterised both ways.
- Fields are their default bytes and the list of their candidates; the candidate generators, their laziness and the string tables are not modelled.
- Digests are any function with the algorithm's output length; CRC, Adler, MD5 and SHA-1 are not modelled.
- Error messages are reduced to reasons; the order of several simultaneous errors is not part of most contracts.
- CaseIds.PositionOfId: takes the requests in order with their streams, not the session paths that a protocol file lists, and one reason for all unreadable ids.
- Callbacks on session edges are opaque values; only their alignment with the path is stated.
- `Mt19937::make`, seeding, `random` and `uniform`, and `python_str_double` with the `float` field constructor.
- The database, process, record, transport and web parts, which talk to the operating system.
