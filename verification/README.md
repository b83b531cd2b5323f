# Subscript: verified models of the boundary, the scheduler and the layout

Subscript compiles a typed script language to C-compatible code and binds it to
C headers. This project models the parts of it whose correctness rests on
reasoning over whole tables, whole runs or whole programs, and proves what they
promise.

**Passing structs to C.** A header is a finite, possibly cyclic, table of
structs. `StructPasses` says declaratively which structs a call copies as bytes,
which it builds as a scratch copy and which no call can build. `PassDecision`
holds the worklists, the retain loop and the path-keeping walk that decide it,
for one struct, for a whole view and from kept results. `PointerPasses` derives
the passes of pointers and pairs, and `PassShapes` says what all of this means
in terms of member shapes and trails alone. `MemberReads`, `ReadWalk`, `ReadCauses` and
`ReadLowering` model the walk that decides whether what C writes can be read
back, what its findings name, and what code generation may rely on for an
accepted parameter; `ReadShapes` says which parameters and results these are by
the shapes of the members on each trail. `Graphs` holds the path theory that all walks share: a
depth-first walk that cuts only on its current path finds a node exactly when a
path leads to it, and reports a loop exactly when there is one.

**Running coroutines.** `SchedulerSteps` gives the effect of each operation on the
queues, waiters, owner counts and completions, and `SchedulerRuns` the events of
a run, with the stack of frames that start each other. `SchedulerInvariant` and
`SchedulerCounts` say what is kept; `SchedulerPlaces` proves, event by event and
for any owner counts, that every frame and registration is in one place, and
`SchedulerSafety` that the counts stay exact. `SchedulerTheorems` states what
holds in every run, `SchedulerSaturation` a run that loses a count and meets a
defect, and `SchedulerOutcomes` what frames and aggregates complete with. `SchedulerMachine` runs every event in place on the fields of the
interpreter. `Teardown` models the release of everything the scheduler owns.

**Laying out values.** `Layouts` gives the platform layout over unbounded
numbers and the checked 32-bit arithmetic; `LayoutBuilder` the memoised builder
with its cycle marks; `LayoutAlignment` what a layout is in terms of its fields
and leaves; `LayoutPieces` and `LayoutBools` the walks that list
padding and bools, against a byte-by-byte definition of what holds data, and
`LayoutGaps` the padding that they do not report.

**Smaller parts.** `EmbeddedPairs`, `HeaderWalks` and `StringOwners` model the
header validators; `TranslationPhases`, `HostTokens` and `HostMain` the scanner
that finds the body of a C main function; `StringLiterals` the printer of C
string literals, against a reader of the C escapes; `Watching` the file watcher
under arbitrary interleavings.

## Reading guide

- A view keeps `structs()` as a sequence that lists every defined struct;
  `members(s)` has the shapes of `fields(s)`, where a member may read as bytes
  what the field does not lower (`Coherent`). That C can write a pointer target
  exactly when the pointer is not `const` (`MutableAgrees`) is used only where
  the two write-back searches are compared.
- A frame run is a source of events: return, raise, park, call, create, await.
  Events that the original answers with a trap are not enabled, and a defect
  ends the run. An aggregate is built input by input; no other event can occur
  in between.
- A script retains, releases and awaits only handles of which it holds a count;
  the compiler inserts these operations. All results on counts rest on it.
- Owner counts stop at the largest 32-bit value. Only a retain, an await without
  a count of its own and an aggregate input add a count. A run in which none of
  them is lost is safe (`RunIsSafe`); the event that loses one breaks the exact
  counts (`StepKeepsInv`), and some such run meets a defect
  (`LostCountMeetsDefect`), though not every one does (`LostCountMayPass`). The
  places of frames, the order of continuations and the wait cycle
  do not depend on counts.
- The file watcher is modelled with every stamp and read as one event, and
  writes between any two. Which files a load reads is left open, but a file is
  read only while it is there.
- A completion is dropped when a completed handle loses its last owner, so
  "a completion never changes" holds in the form of `CompletionIsImmutable`.
- Where documentation and code differ, the model follows the code:
  - the comment on `scratch_members` (boundary/src/pass.rs:263-267) says that a
    struct on its own embedding path can have no such member; the code always
    lists one, since the next struct on that path does not copy either;
  - `padding_ranges` is said to return each padding range; it reports none
    inside an iterator result, which the walk treats as a leaf
    (`UnreportedPadding`, `ReportedIsTrue`).

## Model

| member | source | states |
|---|---|---|
| StructPasses.CopyingIsGreatest | boundary/src/pass.rs:206-261 | the structs that copy their bytes are the greatest set that is closed under `member_copies` and holds no struct on its own embedding path |
| StructPasses.CopyingIsLocal | boundary/src/pass.rs:143-184 | deciding on any set closed under nesting gives each of its structs the answer of the whole table |
| StructPasses.LoopsIsLocal | boundary/src/pass.rs:143-165 | the cycle check with the copying structs of a closed set agrees with the check with all of them |
| StructPasses.BytesNestsBytes | boundary/src/pass.rs:290-312 | a struct that copies its bytes nests only such structs, and by value or by pointer |
| StructPasses.ScratchNestsNoCycle | boundary/src/pass.rs:319-339 | a scratch struct never nests a struct that no call can build |
| StructPasses.ScratchBuildRank | boundary/src/pass.rs:319-339 | scratch builds form a DAG: each build step lowers the number of structs still to build, and stays in scratch structs |
| StructPasses.CycleIsReachedCycle | boundary/src/pass.rs:319-339 | a struct that does not copy is a cycle exactly when its build reaches a struct that builds itself |
| StructPasses.UndefinedIsScratch | boundary/src/pass.rs:143-165 | a struct that the view does not define is built, never copied and never a cycle |
| StructPasses.BytesWhenEveryMemberCopies | boundary/src/pass.rs:228-250 | a defined struct copies its bytes exactly when all its members copy, also when it is on its own embedding path |
| PassDecision.ReachableStructs | boundary/src/pass.rs:169-184 | the stack worklist returns each struct that nesting reaches, once, and no other |
| PassDecision.PushNested | boundary/src/pass.rs:169-184 | one expansion pushes exactly the structs that the fields nest |
| PassDecision.EmbedsItself | boundary/src/pass.rs:228-245 | the worklist with its early exit answers whether embedding leads from the struct back to it |
| PassDecision.PushEmbedded | boundary/src/pass.rs:228-245 | one expansion reports the struct itself or marks and pushes exactly the embedded structs not yet seen |
| PassDecision.Retained | boundary/src/pass.rs:251-260 | one round keeps exactly the structs whose members all copy with respect to the set before it |
| PassDecision.LargestCopyingSet | boundary/src/pass.rs:215-261 | the retain loop ends with the greatest fixpoint over the candidates |
| PassDecision.BuildsCycle | boundary/src/pass.rs:319-339 | the walk that keeps only its path answers whether a build path closes on itself or on the path, and restores the path |
| PassDecision.BytesStructs | boundary/src/pass.rs:206-212 | what the decision for one struct uses is the whole-table answer cut to a closed set that holds the struct |
| PassDecision.StructPassOf | boundary/src/pass.rs:143-165 | the per-struct decision equals the declarative pass for every struct, whatever the view keeps |
| PassDecision.CopyingStructs | boundary/src/pass.rs:192-194 | the whole-view list holds exactly the copying structs, and keeping it leaves the view valid |
| PassDecision.CycleStructs | boundary/src/pass.rs:199-204 | the whole-view list holds exactly the structs that no call can build, and keeping it leaves the view valid |
| PassDecision.KeepDecisions | bindgen/src/read_lowering/view.rs:101-102 | a view that keeps both lists is valid, so with `StructPassOf` it decides every struct as a view that keeps nothing |
| PassDecision.ScratchMembers | boundary/src/pass.rs:269-288 | ascending indices of exactly the members that do not copy; for a defined struct the list is empty exactly when its pass is bytes |
| PointerPasses.WriteBackPathsVisitOnce | boundary/src/pass.rs:445-479 | no path of the write-back walk repeats a struct, so its `active` guard never fires |
| PointerPasses.WritesBackFrom | boundary/src/pass.rs:449-479 | the walk succeeds exactly when a path off its active structs ends at a struct with a non-const pointer to a scratch target |
| PointerPasses.BuildWritesBack | boundary/src/pass.rs:441-447 | the build writes back exactly when embedded, const-pointer and pair steps into scratch structs reach such a pointer |
| PointerPasses.BuildsScratchFrom | boundary/src/pass.rs:490-517 | the walk over scratch embeddings finds exactly the structs that allocate a scratch target or array |
| PointerPasses.BuildAllocates | boundary/src/pass.rs:486-488 | a build allocates exactly when a struct that it holds by embedding has a pointer or pair to a scratch struct |
| PointerPasses.WritesBackBuildsScratch | boundary/src/pass.rs:445-517 | a build that writes a target back has allocated one, so its call opens a scratch scope |
| PassShapes.NestedEdges | boundary/src/pass.rs:60-76 | a struct nests exactly what it embeds, points to or holds a pair of, and builds exactly what of that does not copy |
| PassShapes.BytesByShape | boundary/src/pass.rs:143-312 | a call passes the bytes of a struct exactly when every struct that nesting reaches is defined, is on no embedding cycle and holds only bytes, userdata, embedded structs and pointers that are `const` or to an embedded header |
| PassShapes.WritesBackByTrail | boundary/src/pass.rs:449-479 | a build writes back exactly when a trail of embedded, `const`-pointer and pair members through scratch structs ends at a non-`const` pointer to one |
| PassShapes.BuildsScratchByTrail | boundary/src/pass.rs:490-517 | a build allocates exactly when a trail of embedded scratch structs ends at a pointer or pair to one |
| MemberReads.ClassPassOf | boundary/src/pass.rs:352-359 | the executable pointer pass has the pass of its target, and is written back exactly when the target is scratch and the pointer writable |
| MemberReads.ElementPassOf | boundary/src/pass.rs:430-439 | the pass of pair elements, written back exactly when the element is scratch and the pair is writable or its build writes back |
| MemberReads.ClassifyMember | boundary/src/read.rs:64-95 | the member kind carries the passes of its own struct, target and elements; in a struct that is not built, pointer and embedded members have its pass |
| ReadWalk.Walk.constructor | boundary/src/read.rs:550-562 | a walk starts with an empty path |
| ReadWalk.Walk.Structure | boundary/src/read.rs:572-603 | the walk over one struct with its mutable path equals the recursive walk over sets of states, and restores the path |
| ReadWalk.Walk.MemberOf | boundary/src/read.rs:605-652 | one member is read inside its struct first, then by itself, with the first crossing recorded |
| ReadWalk.FirstUnreadableOf | boundary/src/read.rs:550-562 | the executable walk returns the first finding of the recursive one |
| ReadWalk.WalkStructFinds | boundary/src/read.rs:564-652 | a walk cut only on its own path finds something exactly when some path off it ends at a state with an unreadable member |
| ReadWalk.FirstUnreadableIsComplete | boundary/src/read.rs:550-652 | for every finite view, cyclic or not, no finding means exactly that no reachable state has a member without read lowering |
| ReadWalk.FindingNamesItsCause | boundary/src/read.rs:550-652 | a finding is an unreadable member at the end of a real trail; `through` is the first input-to-fill crossing and a mutable member; with no crossing from an input only a validated or written-back pair can be found |
| ReadCauses.SameLoops | boundary/src/read.rs:686-719 | the cycle walk over members loops exactly when the build over fields does |
| ReadCauses.CycleWalkDecidesPass | boundary/src/read.rs:686-719 | for a defined struct the member walk loops exactly when the pass is a cycle |
| ReadCauses.NoCycleBelow | boundary/src/read.rs:686-719 | below a struct without a cycle no member nests a struct that no call can build |
| ReadCauses.CycleMember | boundary/src/read.rs:690-719 | a member is named exactly when the build loops, and that member is an edge of a cycle that the struct reaches |
| ReadCauses.FirstCycle | boundary/src/read.rs:686-688 | a member is named exactly when `struct_pass` is a cycle |
| ReadCauses.WrittenBackMember | boundary/src/read.rs:464-494 | a member is named exactly when `writes_back` holds, and it is a writable pointer to a scratch target that the build reaches |
| ReadCauses.WrittenBackCause | boundary/src/read.rs:425-434 | the cause of a written-back pair exists exactly when the element build writes back |
| ReadLowering.ValidateParameter | bindgen/src/read_lowering.rs:326-388 | accepted exactly when the build has no cycle, the root can be filled and the walk finds nothing; refused for a cycle exactly when there is one, before any read refusal; a refusal carries the cycle member or the first finding |
| ReadLowering.AcceptedParameter | bindgen/src/read_lowering.rs:326-388 | for an accepted parameter the walk visits exactly the structs it nests, each with its own `struct_pass`, none a cycle, and no pair among them has scratch elements that are writable or whose build writes back |
| ReadLowering.NestedAgrees | boundary/src/pass.rs:381-439 | a nested read goes on with the pass that `struct_pass` gives the nested struct |
| ReadShapes.AcceptedByShape | bindgen/src/read_lowering.rs:326-388 | a parameter is accepted exactly when its build has no loop, a written root is no descriptor aggregate and no string view, and every trail of members is clean: what C fills holds nothing that a copy-back cannot write, and no pair on it is written back |
| ReadShapes.WritablePairIsFound | boundary/src/read.rs:283-357 | a pair of scratch elements that is writable, or whose build writes back, is found wherever the walk reaches it |
| ReadShapes.ValueByShape | boundary/src/read.rs:262-281 | a returned struct is readable exactly when every struct on a trail of embedded and pointer members has only bytes, embedded and pointer members |
| ReadShapes.FindingKind | boundary/src/read.rs:550-652 | a finding names a member of the shape that its kind says |
| SchedulerMachine.Interpreter.ReleaseCoroutine | codegen/src/interpreter/counted.rs:63-122 | one owner less; the last release of a completed handle with nothing left to read drops its completion |
| SchedulerMachine.Interpreter.BeginResume | codegen/src/interpreter.rs:821-843 | a resume fails exactly when the awaited handle has no completion; otherwise the wait is taken and its count given back |
| SchedulerMachine.Interpreter.AsyncAllReact | codegen/src/interpreter/async_all.rs:143-217 | a reaction runs exactly when its input is unread and completed; it reads the input, and completes its aggregate with the first exception or after the last input |
| SchedulerMachine.Interpreter.MoveParked | codegen/src/interpreter/checkpoint.rs:20-33 | a checkpoint starts with the parked frames behind the ready jobs, in order |
| SchedulerMachine.Interpreter.DispatchReady | codegen/src/interpreter/checkpoint.rs:34-57 | the head of the ready queue runs in place, with the effect that the runs give it, or the defect is met |
| SchedulerMachine.Interpreter.Do | codegen/src/interpreter.rs:773-1084 | every event, run in place on the fields, has the effect that the runs give it and keeps every frame in its place; from exact counts it meets no defect, and the counts stay exact exactly when the event has room |
| SchedulerRuns.InitialInv | codegen/src/interpreter.rs:526-528 | the empty scheduler meets the invariant |
| SchedulerPlaces.PlacesFinish | codegen/src/interpreter.rs:972-1005 | a frame that returns or raises leaves the stack, and its waiters become ready, each still in one place |
| SchedulerPlaces.PlacesPark | codegen/src/interpreter.rs:1006-1016 | a parked frame is in the parked list only |
| SchedulerPlaces.PlacesAwait | codegen/src/interpreter.rs:1037-1084 | a frame that awaits, itself included, is at the awaited handle only |
| SchedulerPlaces.PlacesUnwindCalled | codegen/src/interpreter.rs:1017-1036 | a caller waits at the child that it started, and nowhere else |
| SchedulerPlaces.PlacesDispatchReact | codegen/src/interpreter/async_all.rs:143-217 | a reaction takes its own registration away and makes the waiters of a completed aggregate ready |
| SchedulerPlaces.PlacesStep | codegen/src/interpreter.rs:773-1084 | every event that meets no defect keeps every frame and registration in its one place, whatever the owner counts are |
| SchedulerSafety.CountsAwait | codegen/src/interpreter.rs:1055-1084 | an await is counted exactly when it brings its own count or the count is below its largest value |
| SchedulerSafety.CountsRetain | codegen/src/interpreter/instruction.rs:552-573 | a retain is counted exactly when the count is below its largest value |
| SchedulerSafety.CountsAddOne | codegen/src/interpreter/async_all.rs:49-141 | an aggregate input is counted exactly when the count is below its largest value |
| SchedulerSafety.CountsDispatchResume | codegen/src/interpreter.rs:821-843 | from exact counts a resume meets no defect and keeps them exact |
| SchedulerSafety.CountsDispatchReact | codegen/src/interpreter/async_all.rs:143-217 | from exact counts a reaction meets no defect and keeps them exact |
| SchedulerSafety.StepKeepsInv | codegen/src/interpreter.rs:773-1084 | an event keeps the invariant exactly when the one count that it adds is below its largest value; no event from exact counts meets a defect |
| SchedulerTheorems.RunKeepsPlaces | codegen/src/interpreter.rs:773-1084 | in every run, whatever its counts, each state before a defect has every frame and registration in its one place |
| SchedulerSaturation.AwaitLosesCount | codegen/src/interpreter.rs:1055-1084 | an await of a handle whose count is at its largest value leaves the count as it is |
| SchedulerSaturation.LostCountMeetsDefect | codegen/src/interpreter.rs:821-843 | some run that loses a count does meet the defect: the count is retained to its largest value, awaited, and released to zero before the handle completes |
| SchedulerTheorems.RunIsSafe | codegen/src/interpreter.rs:773-1084 | a run in which no event loses a count meets no protocol defect, and every count in it is exact |
| SchedulerSafety.ResumeHasCompletion | codegen/src/interpreter.rs:821-843 | a ready frame always finds the completion that it waited for |
| SchedulerSafety.ReactionHasCompletion | codegen/src/interpreter/async_all.rs:143-217 | a ready reaction always has an unread input with a completion |
| SchedulerSaturation.LostCountMayPass | codegen/src/interpreter.rs:1055-1084 | some run that loses a count meets no defect |
| SchedulerTheorems.OnePlace | codegen/src/interpreter.rs:967-1084 | a suspended unfinished frame is in exactly one of the ready queue, the parked list and the waiters of the handle it awaits; a completed handle has no waiters |
| SchedulerTheorems.RunOnePlace | codegen/src/interpreter.rs:967-1084 | the same at every state of every run before a defect |
| SchedulerTheorems.BlockedByCycle | codegen/src/interpreter.rs:526-528 | with no pending work, every uncompleted coroutine is on, or waits into, a cycle of coroutines that wait for each other |
| SchedulerTheorems.RunBlockedByCycle | codegen/src/interpreter.rs:526-528 | the same at every quiescent state of every run before a defect |
| SchedulerTheorems.QuiescentWithoutCycle | codegen/src/interpreter.rs:767-769 | with no pending work and no such cycle every coroutine has completed; none is lost |
| SchedulerTheorems.QueuedStep | codegen/src/interpreter.rs:1055-1084 | an event keeps the order of two queued jobs unless it runs the first |
| SchedulerTheorems.QueuedSettle | codegen/src/interpreter.rs:972-986 | completion keeps the registration order of the waiters that it makes ready |
| SchedulerTheorems.RegistrationOrder | codegen/src/interpreter.rs:972-986 | of two jobs registered on one handle, parked, or ready, the earlier is dispatched first, in every run |
| SchedulerTheorems.CompletionIsImmutable | codegen/src/interpreter.rs:972-986 | a stored completion is later the same, up to its observed mark, or gone; in a run that loses no count it is gone only when no owner was left |
| SchedulerOutcomes.FrameCompletes | codegen/src/interpreter.rs:972-1005 | a frame that returns or raises is completed with that value or exception, which stays exactly while the handle is owned |
| SchedulerOutcomes.ResumeObserves | codegen/src/interpreter.rs:821-913 | an exception that a resumed frame has read does not trap when its handle is released |
| SchedulerOutcomes.ReactionObserves | codegen/src/interpreter/async_all.rs:143-217 | nor does one that an aggregate has read |
| SchedulerOutcomes.ReactionOutcome | codegen/src/interpreter/async_all.rs:143-217 | an exception completes an open aggregate with it, a value completes it once no other input is unread, and a completed aggregate keeps its completion while it is owned or has inputs to read |
| SchedulerOutcomes.AggregateOutcome | codegen/src/interpreter/async_all.rs:143-217 | in every run an aggregate that has raised has raised the first exception that it read, and one that has returned has read every input and no exception; an open one has read no exception |
| Teardown.CollectCoroutines | codegen/src/interpreter.rs:175-186 | pushes exactly the coroutines that a value owns through handles, captures and iteration subjects |
| Teardown.OwnedInside | codegen/src/interpreter.rs:175-186 | a value owns a coroutine exactly when the handle is the value, or inside it through captures and iteration subjects at any depth |
| Teardown.OwnsByPart | codegen/src/interpreter.rs:704-763 | a coroutine owns exactly what its waiters name, what it awaits, its completion, the parts of its saved frame, its inputs and the inputs and join of its group |
| Teardown.Storage.ReleaseOne | codegen/src/interpreter.rs:704-763 | pushes what one coroutine owns, group inputs included, and clears its own edges and the group that it joins |
| Teardown.Storage.DrainRoots | codegen/src/interpreter.rs:679-702 | empties the queues and tables and lists what they and the globals own |
| Teardown.Storage.ReleaseSchedulerStorage | codegen/src/interpreter.rs:679-763 | terminates, clears each coroutine that the storage reaches once, and no other, and every group that a released coroutine joins; what is parked, stopped, listed, ready to resume or held by a global is released |
| Teardown.NoRingSurvives | codegen/src/interpreter.rs:679-763 | afterwards no released coroutine owns any coroutine, directly or through a group, so no ring is left |
| Teardown.ReleasesAllOwned | codegen/src/interpreter.rs:679-763 | where the handle tables list what the groups own, everything that the storage owns is released, groups included |
| Layouts.CheckedAdd | codegen/src/layout.rs:211-216 | the sum, exactly when it is supported |
| Layouts.CheckedMul | codegen/src/layout.rs:218-223 | the product, exactly when it is supported |
| Layouts.UpIsLeast | codegen/src/layout.rs:229-240 | rounding gives the least multiple of the alignment at or after the value |
| Layouts.MaskRoundsDown | codegen/src/layout.rs:237-239 | clearing the bits of the mask of a power of two rounds down to its multiples |
| Layouts.RoundUpOf | codegen/src/layout.rs:229-240 | for a power of two and a supported value the masked sum is the rounded value, and it fails only when that is not supported; the 32-bit sum never overflows |
| Layouts.SizeIsAligned | codegen/src/layout.rs:301-330 | the size of every type is a multiple of its alignment |
| Layouts.StrideIsSize | codegen/src/layout.rs:494-497 | array elements touch |
| Layouts.SoundSize | codegen/src/layout.rs:260-330 | a supported type has a power-of-two alignment and a supported size |
| Layouts.FieldOffsets | codegen/src/layout.rs:260-299 | each field is at the least aligned offset at or after the end of the field before it |
| LayoutAlignment.ClassAlignment | codegen/src/layout.rs:260-299 | the alignment of a class is the largest of one, its override and the alignments of its fields |
| LayoutAlignment.ClassSize | codegen/src/layout.rs:286-289 | the size of a class is the least positive multiple of its alignment that holds all its fields |
| LayoutAlignment.ResultSize | codegen/src/layout.rs:321-327 | an iterator result has the alignment of its value, and one alignment unit more than its size |
| LayoutAlignment.KnownSizes | codegen/src/layout.rs:301-330 | a bool takes one byte and a reference eight, aligned to as many; an array is its count times its element |
| LayoutAlignment.LeafIsAligned | codegen/src/layout.rs:260-330 | every leaf, at any depth of classes, arrays and iterator results, lies at a multiple of its own alignment |
| LayoutBuilder.ArraySizeOf | codegen/src/layout.rs:316-320 | the checked array size succeeds exactly when the array is supported, with the platform size |
| LayoutBuilder.IterResultSizeOf | codegen/src/layout.rs:321-327 | the checked iterator-result size succeeds exactly when it is supported, with the platform size |
| LayoutBuilder.FiniteFromFields | codegen/src/layout.rs:260-299 | a class whose fields are finite holds no containment cycle |
| LayoutBuilder.CloseOf | codegen/src/layout.rs:286-289 | after all fields the checked close succeeds exactly when the overridden alignment is a power of two and the size is supported |
| LayoutBuilder.Builder.constructor | codegen/src/layout.rs:376-382 | no layout is kept and no class is in progress |
| LayoutBuilder.Builder.Layout | codegen/src/layout.rs:260-299 | the memoised builder succeeds exactly when the class is finite and supported, then gives the platform layout; every kept layout is right, and a reported containment cycle is one |
| LayoutBuilder.Builder.SizeAlign | codegen/src/layout.rs:301-330 | the same for every type |
| LayoutBuilder.BuildShapes | codegen/src/layout.rs:376-389 | all layouts are built exactly when every class is finite and supported; no class is left without a layout |
| LayoutBuilder.TableIsExact | codegen/src/layout.rs:467-491 | the size and alignment read from the table equal the recursive ones for every type |
| LayoutPieces.CoversInside | codegen/src/layout.rs:550-590 | data bytes lie inside the value |
| LayoutPieces.OnlyPart | codegen/src/layout.rs:550-590 | between the ends of two successive parts only the second holds data, so parts do not overlap |
| LayoutPieces.CollectPaddingRanges | codegen/src/layout.rs:550-590 | where the value fits the walk cannot fail and appends exactly its padding, in order |
| LayoutPieces.CollectClassPadding | codegen/src/layout.rs:557-577 | gaps before fields, padding inside them and the tail |
| LayoutPieces.CollectArrayPadding | codegen/src/layout.rs:578-585 | the padding of each element at its stride |
| LayoutPieces.PaddingRanges | codegen/src/layout.rs:544-548 | non-empty, ascending, disjoint ranges; a byte is in a range exactly when no leaf covers it |
| LayoutBools.CollectBoolOffsets | codegen/src/layout.rs:506-541 | where the value fits the walk cannot fail and appends exactly its bools, in order |
| LayoutBools.BoolOffsets | codegen/src/layout.rs:500-504 | strictly increasing offsets, exactly those of the bool leaves |
| LayoutBools.BoolsAreNotPadding | codegen/src/layout.rs:500-590 | no reported bool lies in a reported padding range |
| LayoutGaps.GaplessIsWhole | codegen/src/layout.rs:301-330 | a type has no padding, iterator results opened, exactly when its parts touch, fill it and have none |
| LayoutGaps.IterResultWhole | codegen/src/layout.rs:321-327 | an iterator result has no padding exactly when its value is aligned to one byte and has none |
| LayoutGaps.ReportedIsTrue | codegen/src/layout.rs:544-590 | the reported ranges are the whole padding exactly when no iterator result in the type has a gap |
| LayoutGaps.UnreportedPadding | codegen/src/layout.rs:544-590 | an iterator result of an eight-byte value has the padding bytes 1 to 7, and no range is reported |
| EmbeddedPairs.ElementNameInverts | bindgen/src/emit.rs:1323-1328 | a count name implies a pointer name exactly when it is that name with `Count` or `_count` |
| EmbeddedPairs.EmbeddedArrayPairs | bindgen/src/emit.rs:1250-1320 | succeeds exactly when no half of a pair is left over, and then lists exactly the pairs |
| EmbeddedPairs.PairsAreDisjoint | bindgen/src/emit.rs:1231-1320 | every pair is an adjacent `size_t` count and pointer, and pairs share no field |
| EmbeddedPairs.ElementSpelling | bindgen/src/emit.rs:1298-1314 | the elements with a lowering are the mapped scalars, enums, aliased enums, boundary structs, and `const` handles and external types, each with its spelling |
| EmbeddedPairs.NothingLeftOver | bindgen/src/emit.rs:1250-1320 | in an accepted struct a count that names a pointer, or stands just before one, is the count of a pair with the pointer after it |
| HeaderWalks.CheckStepOf | bindgen/src/emit.rs:673-736 | the branch taken for a field enters, refuses or passes as the declarative edges and defects say |
| HeaderWalks.Check | bindgen/src/emit.rs:652-740 | terminates on cyclic headers; refuses exactly when a path off the active aggregates ends at one without lowering |
| HeaderWalks.CheckRoot | bindgen/src/emit.rs:652-740 | accepts exactly when every aggregate reached by embedding, pairs and pointers is declared, well paired, and holds no array of aggregates and no by-value descriptor; a refusal names a reachable defect |
| HeaderWalks.LoweredByKind | bindgen/src/emit.rs:673-736 | the edges and defects by kind: boundary structs are entered; arrays of boundary structs, string views, descriptors and function pointers, and descriptors by value, have no lowering |
| StringOwners.Collect | bindgen/src/emit.rs:756-803 | adds exactly the owners on paths off the active aggregates; fails exactly at a pair defect on such a path |
| StringOwners.CollectFrom | bindgen/src/emit.rs:756-803 | adds exactly the owners in its reachable set |
| StringOwners.SameEdges | bindgen/src/emit.rs:676-798 | the check and the collection follow the same edges exactly when no aggregate has a count whose type is itself entered only as that count |
| StringOwners.EdgesDiffer | bindgen/src/emit.rs:676-798 | a header where the two walks differ |
| StringOwners.AcceptedIsCollected | bindgen/src/emit.rs:652-803 | below an accepted root the collection can fail only behind a `size_t` that is registered as a boundary struct and reached as a count |
| TranslationPhases.Replace | codegen/src/host_source.rs:9-37 | the loop is trigraph replacement with end offsets |
| TranslationPhases.Splice | codegen/src/host_source.rs:38-54 | the loop is line splicing |
| TranslationPhases.PhasedRises | codegen/src/host_source.rs:9-54 | after both phases end offsets rise strictly inside the source, and each character is spelled just before its offset |
| TranslationPhases.ReplacedIsShorter | codegen/src/host_source.rs:12-37 | replacement leaves a text as it is exactly when it has no trigraph |
| TranslationPhases.TrigraphSpellings | codegen/src/host_source.rs:12-37 | the nine trigraphs of section 5.2.1.1 of C11 are replaced by their characters, and no other three characters are |
| TranslationPhases.SplicedKeeps | codegen/src/host_source.rs:38-54 | splicing keeps a character exactly when it is not part of a backslash and a newline, or of a backslash, a return and a newline |
| HostTokens.LineEnd | codegen/src/host_source.rs:60-63 | a line comment ends at the first newline or the end of the source |
| HostTokens.BlockEnd | codegen/src/host_source.rs:64-69 | a block comment ends after its first closing mark or with the source |
| HostTokens.LiteralEnd | codegen/src/host_source.rs:70-87 | a literal ends at its first quote that is not escaped, or with the source |
| HostTokens.Scan | codegen/src/host_source.rs:55-118 | tokens cover the source with only white space and comments between them; words are longest runs |
| HostTokens.TokensAreUnique | codegen/src/host_source.rs:55-118 | a source has one sequence of tokens that meets this description |
| HostTokens.Tokens | codegen/src/host_source.rs:9-119 | token ends rise strictly and stay inside the source |
| HostTokens.BraceToken | codegen/src/host_source.rs:88-116 | an opening-brace token ends just after the character, its trigraph or its digraph |
| HostTokens.DigraphSpellings | codegen/src/host_source.rs:88-116 | the five digraphs are tokens of the characters that they stand for, and there is no other |
| HostMain.GroupIsUnique | codegen/src/host_source.rs:126-143 | a bracket has at most one group |
| HostMain.GroupEnd | codegen/src/host_source.rs:126-143 | returns an end exactly when the token starts a kind-matched balanced group, and returns that end |
| HostMain.FindDeclarator | codegen/src/host_source.rs:153-168 | grows the declarator around the name until it cannot grow |
| HostMain.StuckIsLongest | codegen/src/host_source.rs:153-168 | a declarator that cannot grow is the longest one of its name |
| HostMain.SkipAttributes | codegen/src/host_source.rs:182-187 | skips exactly the attributes that have their groups |
| HostMain.DeclarationEnd | codegen/src/host_source.rs:197-207 | the longest run of tokens and groups without an end of a declaration |
| HostMain.SkipParameters | codegen/src/host_source.rs:188-214 | returns the brace behind zero or more old-style parameter declarations exactly when there is one |
| HostMain.BodyOf | codegen/src/host_source.rs:149-215 | returns a body exactly when the token is the name of a definition, and then its brace |
| HostMain.PlainLeads | codegen/src/host_source.rs:149-215 | after the parameters, the name is that of a definition exactly when no control keyword stands before it and attributes and old-style parameters lead to a body |
| HostMain.PlainDefines | codegen/src/host_source.rs:170-190 | a name with its parameters and a brace is a definition exactly when none of the seven keywords stands before it |
| HostMain.AttributedDefines | codegen/src/host_source.rs:182-190 | an attribute with its group between the two changes nothing |
| HostMain.OldStyleDefines | codegen/src/host_source.rs:191-214 | a run of tokens before the brace is an old-style declaration exactly when it starts with a letter or underscore and ends at a semicolon; a prototype and an initialiser define nothing |
| HostMain.MainBodyStart | codegen/src/host_source.rs:147-218 | the end of the brace of the first main definition, exactly when there is one; it follows a source spelling of the brace |
| StringLiterals.CStringLiteral | codegen/src/cemit.rs:480-497 | the loop prints the quoted text with a split at every 4000th byte |
| StringLiterals.RoundTrip | codegen/src/cemit.rs:480-497 | reading the printed pieces gives back exactly the bytes; all pieces but the last hold 4000 bytes, the last no more |
| StringLiterals.ByteReads | codegen/src/cemit.rs:486-493 | one printed byte reads back as itself whatever follows it |
| StringLiterals.SurvivesReplacement | codegen/src/cemit.rs:480-497 | the text survives trigraph replacement exactly when the bytes hold no trigraph inside one piece |
| StringLiterals.ReadsBackUnlessTrigraph | codegen/src/cemit.rs:480-497 | an implementation that replaces trigraphs reads the bytes back exactly when they hold no trigraph inside one piece |
| StringLiterals.TrigraphIsLost | codegen/src/cemit.rs:480-497 | the bytes of a trigraph are printed raw and read as one other byte |
| Watching.WatchedFiles.constructor | cli/src/lib.rs:758-761 | the paths with the stamps seen for them |
| Watching.WatchedFiles.Changed | cli/src/lib.rs:763-768 | true exactly when some seen stamp differs from the kept one |
| Watching.WatchedFiles.AfterLoad | cli/src/lib.rs:776-788 | each new path carries the stamp of before the load, or the placeholder |
| Watching.StepInv | cli/src/lib.rs:816-892 | every event, with writes between any two stamps and reads, keeps that each file was read after its stamp was taken |
| Watching.MissedUpdate | cli/src/lib.rs:763-788 | where a poll sees nothing, each file shows the stamp of before its load, was there before it and for the load |
| Watching.FreshLosesNothing | cli/src/lib.rs:816-892 | where no readable file shows an earlier stamp again, after a load every file is up to date or a poll sees a change |
| Watching.LosesNothingWhenFresh | cli/src/lib.rs:741-892 | no update is lost in any run exactly when no file that was there before shows, after a version that can be read, a stamp of before that version again |
| Watching.ChangingStampsCanLose | cli/src/lib.rs:741-788 | that each write changes the stamp is not enough: gone when stamped, there when read, and gone again |

## Left out

- LayoutBuilder.Builder.Layout: apart from containment cycles a failure is tied to the absence of a supported layout, not to one particular fault, since the first fault met depends on field order.
- Watching.StepInv: a poll may start a refresh at any time, and the paths of a finished load are taken without resolving them again; both allow more runs than the original.
- Diagnostic texts, names and positions: findings keep owner, member, kind and crossing only.
- Task groups in runs of the scheduler (teardown has them), generators, traps and the budgeted checkpoint of the interpreter, and every instruction other than the scheduler operations.
- The order in which teardown pushes work, and what clearing a frame does besides its owning edges.
- `copy_back`, callbacks, and the emission of C, TypeScript and machine code.
- The managed-handle classification of layouts, worker message slots, and the scalar size table, which enters as scalars whose size is a multiple of a power-of-two alignment of at most 16.
- Function parameter pairs, completion types and the other recognisers of the binder, which would add members of the same kind.
- Hexadecimal and universal escapes of the literal reader: the printer emits neither.
- The two lookups of `loaded_file_paths` and path canonicalisation: a path is an identity.
- The parser, type checker and optimiser of the language, the Cranelift tier, the command line and the runtime library.
