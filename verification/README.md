# Verified models of the compiler, runtime and build logic

This project models the parts of a TinyGo-based WebAssembly code base whose
correctness is hard to see from the code, and proves what they promise:

- **Defer lowering** (`Graphs`, `LoopAnalysis`, `DeferEmission`, `DeferMachine`,
  `DeferHazards`, `DeferPanics`). The code the compiler emits for `defer` is a small machine:
  control flow, records in stack slots or heap cells, a list head, drains with a
  switch over callback numbers, and a landing pad. It is compared with the Go
  semantics of `defer`, over all runs.
- **Fibers over asyncify** (`Fibers`, `FiberMachine`, `FiberTraces`, `Workload`,
  `FiberProgram`, `DriverRun`). The entry function of a fiber is run again to
  rewind to its yield. The flag-driven runtime is compared with direct-style
  coroutines, the hand-written state machine of the connection benchmark with the
  fiber worker, and both with the flag-driven runtime, up to the count the
  benchmark's driver returns.
- **Parallel job runner** (`JobGraph`, `Scheduler`, `SchedulerProofs`,
  `JobRunner`). Starts and completions interleave arbitrarily.
- **Type layout and calls** (`LlvmTypes`, `PointerBitmap`, `ObjectLayout`,
  `GoSizes`, `CallExpansion`, `BoundsChecks`). Pointer maps for the garbage
  collector, Go sizes and offsets, parameter flattening, and unsigned bounds
  checks on operands of mixed width.
- **C object cache** (`CObjectCache`, `CacheHits`). Two cache levels over every
  history of edits and builds.
- **Sweeps, parsers and images** (`SectionSizes`, `ConstSyntax`, `ConstParser`,
  `ConstScan`, `ConstTokenizer`, `RomImage`, `Uf2`, `Firmware`, `Bitfields`,
  `BitfieldGroups`).

`Arithmetic`, `Bits`, `Options` and `Sequences` hold facts about division and bit
strings and small definitions that several modules share. Code that changes state step by step is a class or a method with
loops, proved against a function or predicate on values; theorems over whole runs
are lemmas about those values.

## Where the code falls short of what one would expect

Each of these is stated exactly: a condition on the input under which the code
does what it should, proved in both directions, and a concrete input that fails.

- A drain is emitted in place while blocks are compiled in dominator order, so its
  switch only has the callbacks registered so far. Only direct calls set a
  checkpoint, so a panic before the first one jumps to a checkpoint never made: in
  a deferred closure, function value or interface call, or while an interface
  value is printed. `DeferHazards.UndefinedAlongIffHazard` gives the exact paths on
  which the emitted code is undefined. Two that fail are
  `DeferHazards.EarlyReturnLoopIsHazardous` and
  `DeferHazards.PrintBeforeCheckpointIsHazardous`.
- A dependency listed twice can make a job ready, and then start, twice.
  `SchedulerProofs.StartedOnceIffClean`: exactly when some repeated dependency is
  not needed by another dependency of the same job.
  `SchedulerProofs.RepeatedDependencyReleasesTwice` is a run that does it.
- The bespoke state machine and the fiber worker part ways at the third resume of
  one allocation, and on keys without a worker, which only the state machine
  tolerates. `Workload.SameAnswersIffDisciplined`, with
  `Workload.ThirdResumeDiffers` and `Workload.DeadResumeDiffers`.
- A cached object can be stale when the compiler also looks for files that do not
  exist, as an include search does. `CObjectCache.AlwaysFreshIffDetermined` and
  `CObjectCache.AddedHeaderIsMissed`.
- Objects with and without ThinLTO share one list of dependencies, so building one
  can make the cache forget the other. `CacheHits.StoreServesIffSameReads`: exactly
  when the two compilations read different files.
  `CacheHits.AlternatingBuildsMiss` is such a compiler.
- With pointers narrower than ints, a negative narrow length passes the check of
  `make`. `BoundsChecks.MakeExact` gives the types of length and capacity for which
  it is wrong, and `BoundsChecks.NarrowLengthSlips` an example.
- The constant parser overwrites an operand's error when an operator follows.
  `ConstScan.RightIffNoRecovery` and `ConstScan.ErrorIsOverwritten`.
- The Go struct can give a bitfield other bits than the C compiler does.
  `BitfieldGroups.ExactIffFilled`: every bitfield has exactly its bits if and only if
  each storage unit begins with its field, no bits are skipped, and the last
  bitfield of every field ends where the field ends. Failing structs are
  `BitfieldGroups.LastRunsOn`, where the last of two 4-bit fields gets 28 bits,
  `BitfieldGroups.LoneBitfieldIsWhole`, where a bitfield alone in its unit becomes a
  field of full width, and `BitfieldGroups.MixedTypesMisplaced`, where a char
  bitfield shares a unit with an int bitfield.
- A getter extends the sign only of the last bitfield of a signed field.
  `BitfieldGroups.ReadsCValue` says when it gives the value C gives, and
  `BitfieldGroups.SignIsLost` reads -1 as 15.
- The visit of a struct fails when a bitfield in the middle of a unit has no field
  before it, as after an unnamed bitfield. `BitfieldGroups.VisitStruct` and
  `BitfieldGroups.UnnamedFirstFails`.
- The address of an image is cut to 32 bits on the way into UF2 blocks.
  `Firmware.HeldIffFits`: for a given address and length the device gets every image
  right exactly when it ends at or below 2^32. `Firmware.TooHighIsLost` constructs
  the file that fails.

Where comments and code disagree, the model follows the code: `isInLoop` calls
itself breadth-first but pops from the end of its queue; the comment on the
bitfield setter shows an exclusive or where the code emits an and-not.

## Model

| member | source | states |
|---|---|---|
| `LoopAnalysis.IsInLoop` | tinygo/compiler/defer.go:214-245 | The search ends on every finite graph and answers true exactly when a non-empty walk leads from the block back to itself. |
| `Graphs.OffCycleVisitedOnce` | tinygo/compiler/defer.go:384-396 | A block on no cycle occurs at most once on any path, which is why it may own one stack slot. |
| `DeferEmission.DispatchRestoresCall` | tinygo/compiler/defer.go:456-609 | For all five kinds of deferred call, the switch case rebuilds from the stored fields exactly the call that was deferred, argument by argument. |
| `DeferEmission.Builder.CallbackNumber` | tinygo/compiler/defer.go:256-374 | A callee keeps one number; a new one is appended to the table, and the number always indexes its callee. Interface calls are told apart by method, direct calls and closures by function, builtins and other function values by the value in the program. |
| `DeferEmission.Builder.CompileBlock` | tinygo/compiler/defer.go:249-405 | Each drain of a block gets one case per callee registered before it, and each defer stores the number the callee has in the final table. |
| `DeferEmission.Builder.CompileBlocks` | tinygo/compiler/compiler.go:1204-1253 | The same for all blocks in compilation order. |
| `DeferEmission.NumberIsFinal` | tinygo/compiler/defer.go:256-374 | A number handed out while compiling is the callee's number in the complete table. |
| `DeferEmission.TableAtPrefix` | tinygo/compiler/defer.go:454-460 | The cases known at a drain are a prefix of the complete table. |
| `DeferMachine.SpecStepLifo` | tinygo/compiler/defer.go:407-422 | In the reference semantics, calls started and calls pending always make up the defers of the current segment, last first. |
| `DeferMachine.CellIsNew` | tinygo/compiler/defer.go:384-404 | On every path, a defer statement writes a cell no existing record occupies, whether stack slot or heap cell. |
| `DeferMachine.LinkedPush` | tinygo/compiler/defer.go:402-404 | Pushing a new cell keeps the list acyclic with pairwise different cells and adds exactly the new record. |
| `DeferMachine.PopStartsTop` | tinygo/compiler/defer.go:438-454 | One turn of a drain pops the head before the call and starts the newest pending call, or is undefined exactly when its number has no case. |
| `DeferMachine.SimulateStep` | tinygo/compiler/defer.go:376-454 | Every step of the emitted code that stays defined is the corresponding step of the Go semantics, whether a call, a print, a defer, a drain or a panic in any of them. |
| `DeferMachine.Refinement` | tinygo/compiler/defer.go:89-104 | Over every run, with panics in calls, deferred calls and prints of interface values, the emitted code has the control flow and call log of the Go semantics and an acyclic list of exactly the pending calls. |
| `DeferMachine.DrainStartsAll` | tinygo/compiler/defer.go:407-454 | When a drain ends, it has started every defer since the previous drain exactly once in reverse order, however often calls panicked. |
| `DeferPanics.PanicRunsDefers` | tinygo/compiler/defer.go:85-104 | On every run of a function with a defer frame, a panic raised at a call, a print or in a deferred call, with a checkpoint set, starts exactly the pending calls, newest first, in two steps each whatever those calls do, then continues at the recover block with an empty list, and returns without starting anything else. |
| `DeferPanics.PanicAborts` | tinygo/compiler/defer.go:60-83 | Without a defer frame a panic ends the program and starts nothing. |
| `DeferPanics.PanicExample` | tinygo/compiler/defer.go:202-209 | In `func f() { defer g(); h() }`, when h panics, g is started and f returns. |
| `DeferPanics.HeapCellsCount` | tinygo/compiler/defer.go:384-396 | On every run, heap cells are allocated for exactly the defers executed in blocks on a cycle, one each. |
| `DeferHazards.RunTracks` | tinygo/compiler/defer.go:106-211 | On every run, pending calls and the checkpoint flag are those computed from the path taken. |
| `DeferHazards.WildNeedsHazard` | tinygo/compiler/defer.go:419-426 | A run that becomes undefined has followed, up to that step, a path with a hazard: a drain without a case for a pending call or, before any checkpoint, a drain that starts a call that can panic and sets none, or the print of an interface value. |
| `DeferHazards.HazardReached` | tinygo/compiler/compiler.go:1402-1403 | For every path with a hazard there is a run that follows it, or a part of it from the entry, and becomes undefined there. |
| `DeferHazards.UndefinedAlongIffHazard` | tinygo/compiler/defer.go:419-460 | Path by path: some run along a path becomes undefined on the way if and only if the path, or a path it begins with, has a hazard. |
| `DeferHazards.UndefinedIffHazard` | tinygo/compiler/defer.go:454-460 | The emitted code of a function can become undefined if and only if some path from its entry has a hazard, which is a condition on the instructions along the path. |
| `DeferHazards.EarlyReturnLoopIsHazardous` | tinygo/compiler/compiler.go:1204-1253 | The function `for { if x { return }; defer f() }` has a hazard. |
| `DeferHazards.OneCallHazard` | tinygo/compiler/defer.go:456-609 | A function with one deferred call and its drain has a hazard if and only if the call is of an interface method, a closure or a function value, or prints an interface value. |
| `DeferHazards.PrintBeforeCheckpointIsHazardous` | tinygo/compiler/compiler.go:1558-1559 | A function that defers a call and prints an interface value before any checkpoint has a hazard: the value's method may panic. |
| `DeferHazards.DeferredCloseIsSafe` | tinygo/testdata/calls.go:134-137 | The function `defer close(i)` has no hazard on any path: `close` fails by aborting, not by a panic that is recovered. |
| `Fibers.FiberRuntime.FiberAlloc` | benchmarks/c10m/fiber_asyncify.c:94-102 | A new fiber is active, without argument or captured stack; all others are unchanged. |
| `Fibers.FiberRuntime.FiberYield` | benchmarks/c10m/fiber_asyncify.c:119-132 | Whole new state of a yield: it ends a rewind and returns the argument, or stores the value and starts an unwind. |
| `Fibers.FiberRuntime.ResumeEnter` | benchmarks/c10m/fiber_asyncify.c:149-168 | Whole new state before the entry function is called, and the early error on a finished fiber. |
| `Fibers.FiberRuntime.ResumeLeave` | benchmarks/c10m/fiber_asyncify.c:172-186 | Whole new state, status and result after the entry function has returned. |
| `FiberMachine.StepRefines` | benchmarks/c10m/fiber_asyncify.c:119-186 | Every step keeps the invariant and is either internal, bringing the next visible step closer, or one coroutine step. |
| `FiberMachine.Soundness` | benchmarks/c10m/fiber_asyncify.c:119-186 | After any number of steps of any program with nested resumes, the flag-driven state stands for a state of the direct-style coroutine run with the same events. |
| `FiberMachine.Completeness` | benchmarks/c10m/fiber_asyncify.c:119-186 | Every state of the coroutine run is reached by the flag-driven code. |
| `FiberMachine.LeaveInv` | benchmarks/c10m/fiber_asyncify.c:172-186 | On every return to a resumer asyncify is in normal mode and `active_fiber` is what it was before. |
| `FiberMachine.UserCodeSeesOwnFiber` | benchmarks/c10m/fiber_asyncify.c:156-159 | In every reachable state `active_fiber` is the fiber whose code runs, and asyncify is in normal mode or the code is at the yield that ends a rewind. |
| `FiberTraces.FlagsGiveTrace` | benchmarks/c10m/fiber_asyncify.c:146-186 | For every body that does not itself resume or allocate fibers, and all resume arguments, resuming again and again logs the yields in order with FIBER_YIELD, each yield receiving the next argument, then the result with FIBER_OK, then errors. The log is final: it is the same at every later step. |
| `FiberTraces.FinishedStaysFinished` | benchmarks/c10m/fiber_asyncify.c:150-154 | A finished fiber answers FIBER_ERROR and NULL to every further resume. |
| `Workload.Bespoke.AsyncWorkerYield` | benchmarks/c10m/c10m_bespoke.c:19-29 | Effect on the active worker only, and the value returned, in both states. |
| `Workload.Bespoke.AsyncWorkerBody` | benchmarks/c10m/c10m_bespoke.c:72-89 | First run stores the argument and suspends; the second uses the stack with the resume value and returns 1. |
| `Workload.Bespoke.ResumeAsyncWorker` | benchmarks/c10m/c10m_bespoke.c:35-44 | Answer, new worker and stack use of one resume; other workers are unchanged. |
| `Workload.FiberStore.ResumeAsyncWorker` | benchmarks/c10m/asyncify.c:21-26 | The same for a slot of the fiber table that holds a fiber: its answer is the yield's value, the result, or 0 once finished. |
| `Workload.ResumeAgrees` | benchmarks/c10m/c10m_bespoke.c:35-44 | The n-th resume of an allocation gives equal answers exactly when n is the first or second, or the third with value 0. |
| `Workload.SameAnswersIffDisciplined` | benchmarks/c10m/c10m_bespoke.c:72-89 | Over every sequence of allocations, resumes and frees on any keys, both implementations do the same operation by operation if and only if each resume and free finds a worker and no allocation is resumed beyond that. |
| `Workload.ThirdResumeDiffers` | benchmarks/c10m/c10m_bespoke.c:72-89 | Three resumes with 5: the third answers 5 in the state machine and 0 in the fiber. |
| `Workload.DeadResumeDiffers` | benchmarks/c10m/asyncify.c:21-26 | A resume of a key without a worker answers in the state machine and is undefined with fibers. |
| `FiberProgram.FlagsGiveAnswers` | benchmarks/c10m/asyncify.c:15-38 | For every sequence of operations on live keys, the flag-driven runtime, run on the program that issues them, ends with a log that shows exactly the answers and stack uses of the fiber worker. |
| `FiberProgram.BespokeMatchesFlags` | benchmarks/c10m/c10m_bespoke.c:35-46 | For every disciplined sequence, that log shows exactly the answers and stack uses of the bespoke state machine. |
| `Workload.BespokeWorkload` | benchmarks/c10m/c10m_bespoke.c:91-114 | For all parameters the workload issues the operations of the driver in order, returns total plus active connections modulo 2^32 and uses the stack once per connection with the given size. |
| `Workload.FiberWorkload` | benchmarks/c10m/c10m.c:57-82 | The same for the fiber workload. |
| `Workload.ReferenceCounts` | benchmarks/c10m/parameters.h:6-22 | With the benchmark's parameters both workloads return its reference count. |
| `DriverRun.DriverIsDisciplined` | benchmarks/c10m/c10m.c:60-76 | For all parameters the operations of the driver keep to the discipline, leave no worker allocated, and are answered with one pair per connection. |
| `DriverRun.DriverSchedule` | benchmarks/c10m/c10m.c:60-76 | Every operation by position: connection i uses slot i modulo the number of slots and allocates it again, before and after which all slots are allocated and then used and freed in order. |
| `DriverRun.DriverOnFlags` | benchmarks/c10m/c10m.c:57-82 | For all parameters the flag-driven runtime, run on the driver's program, ends with a log from which the driver counts total plus active connections modulo 2^32, as both workloads do. |
| `JobGraph.JobList.AddJobs` | tinygo/builder/jobs.go:70-79 | Appends the job and what it needs, dependencies first, never twice, and nothing else; it ends on every acyclic graph. |
| `JobGraph.ListJobs` | tinygo/builder/jobs.go:66-80 | The list is a duplicate-free topological order of exactly the jobs the root needs. |
| `Scheduler.DependentsCount` | tinygo/builder/jobs.go:98-102 | A job is listed under a dependency as often as its dependency list repeats it. |
| `Scheduler.CompleteEffect` | tinygo/builder/jobs.go:153-162 | What one completion does to every job: it stays waiting with one dependency less, or becomes ready as often as the dependency was listed. |
| `Scheduler.InitInv` | tinygo/builder/jobs.go:82-103 | The invariant holds before the loop. |
| `Scheduler.CompleteInv` | tinygo/builder/jobs.go:134-162 | A completion that releases no job twice keeps the invariant: each job is in one place, waiting sets are the unfinished dependencies, tokens equal running jobs. |
| `SchedulerProofs.EveryRunKeepsInv` | tinygo/builder/jobs.go:113-163 | In every interleaving with clean dependencies and without failure, the invariant holds throughout, so no job starts before its dependencies completed and at most the semaphore's capacity run. |
| `SchedulerProofs.OnceIffClean` | tinygo/builder/jobs.go:153-162 | Every run releases each job at most once if and only if each repeated dependency is needed by another dependency of the same job. |
| `SchedulerProofs.StartedOnceIffClean` | tinygo/builder/jobs.go:113-162 | Every run starts each job at most once under the same condition and no other: a job released twice is started twice by some continuation, for any capacity of the semaphore. |
| `SchedulerProofs.RepeatedDependencyReleasesTwice` | tinygo/builder/jobs.go:153-162 | A job that lists its one dependency twice is ready twice after that dependency completes. |
| `SchedulerProofs.NoDeadlock` | tinygo/builder/jobs.go:113-133 | While anything is ready or running, some step is possible, as long as other builds leave one token of the shared semaphore. |
| `SchedulerProofs.EndMeansAllDone` | tinygo/builder/jobs.go:164-167 | When nothing is ready or running, nothing waits, all jobs are done and all tokens are back: the cycle error is unreachable. |
| `SchedulerProofs.FailureKeepsTokens` | tinygo/builder/jobs.go:139-148 | After a failure the tokens of the other running jobs stay taken. |
| `JobRunner.SetUp` | tinygo/builder/jobs.go:82-103 | The set-up loop builds the waiting sets, dependents, indices and ready list of the model. |
| `JobRunner.Runner.StartJob` | tinygo/builder/jobs.go:115-125 | Takes a token and moves one ready job to running. |
| `JobRunner.Runner.ReceiveDone` | tinygo/builder/jobs.go:127-135 | Removes a running job and returns its token. |
| `JobRunner.Runner.UpdateDependents` | tinygo/builder/jobs.go:153-162 | Visits the dependents in order with the effect of the model. |
| `JobRunner.LoopStep` | tinygo/builder/jobs.go:113-162 | One turn of the loop is an enabled start or completion. |
| `JobRunner.RunJobs` | tinygo/builder/jobs.go:56-181 | A successful run starts every needed job exactly once in two steps per job and returns all tokens; a failing one stops with a failed job and leaks the tokens of the rest; the cycle error never occurs. |
| `LlvmTypes.FieldsDisjoint` | tinygo/compiler/llvm.go:234-248 | The element offsets the pointer scan asks for lay struct fields out in order without overlap. |
| `LlvmTypes.SizeIsAligned` | tinygo/compiler/llvm.go:257-263 | The size of every type is a multiple of its alignment. |
| `LlvmTypes.StructIsTight` | tinygo/compiler/llvm.go:234-248 | Each field begins at the least multiple of its alignment after the one before, and the size is the least multiple of the struct's alignment after the last. |
| `LlvmTypes.OthersAreTight` | tinygo/compiler/llvm.go:218-233 | Scalars and pointers are padded to their alignment only, a function value is two pointers and an array its elements. |
| `PointerBitmap.GetPointerBitmap` | tinygo/compiler/llvm.go:218-273 | The recursive scan with its shift-or loops computes the specified bitmap. |
| `PointerBitmap.RepeatedBit` | tinygo/compiler/llvm.go:264-268 | The array loop is the union of the element's bits shifted to every element. |
| `PointerBitmap.BitmapMarks` | tinygo/compiler/llvm.go:218-273 | Bit k is set exactly when a pointer starts at word k, and no pointer starts between words. |
| `PointerBitmap.BitmapFits` | tinygo/compiler/llvm.go:218-273 | No bit is set at or beyond the number of whole words of the type. |
| `PointerBitmap.ScanSucceeds` | tinygo/compiler/llvm.go:239-263 | Where the ABI aligns pointers to whole words, the scan of every type succeeds. |
| `ObjectLayout.StripLoop` | tinygo/compiler/llvm.go:87-103 | The loop that strips arrays and one-field structs. |
| `ObjectLayout.StripIsBare` | tinygo/compiler/llvm.go:87-103 | What is left is neither an array nor a struct of one field. |
| `ObjectLayout.StripRepeats` | tinygo/compiler/llvm.go:87-103 | A pointer starts at an offset of a type exactly when one starts at that offset modulo the stripped size in the stripped type. |
| `ObjectLayout.PackReadsBack` | tinygo/compiler/llvm.go:131-153 | The fields of the inline layout word do not overlap: both read back. |
| `ObjectLayout.PackFits` | tinygo/compiler/llvm.go:143-153 | The inline word fits in a pointer whenever the inline form is chosen. |
| `ObjectLayout.BytesReadBack` | tinygo/compiler/llvm.go:166-176 | The bytes of the bitmap global read back as the bitmap. |
| `ObjectLayout.EncodeReadsBack` | tinygo/interp/memory.go:1225-1280 | Reading an encoded layout, inline or global, with the reader's own field widths gives back its size and bitmap. |
| `ObjectLayout.LayoutIs` | tinygo/compiler/llvm.go:131-176 | The layout in numbers: with 16, 32 and 64-bit pointers it is inline exactly below 11, 26 and 57 words, and then the bitmap times 32, 64 or 128 plus twice the words plus one; otherwise the bitmap is in the fewest bytes that hold a bit per word. |
| `ObjectLayout.LayoutMarksPointers` | tinygo/compiler/llvm.go:87-176 | Decoding the layout of any type and repeating it over the object marks exactly the words where a pointer starts. |
| `ObjectLayout.PointersOnWords` | tinygo/compiler/llvm.go:239-243 | In every type that has a layout, all pointers start at whole words, so the layout misses none. |
| `ObjectLayout.EveryTypeHasLayout` | tinygo/compiler/llvm.go:105-176 | On targets that align pointers to whole words every type gets a layout. |
| `GoSizes.AllAligned` | tinygo/compiler/sizes.go:19-66 | Every alignment is a power of two and divides the size. |
| `GoSizes.Offsetsof` | tinygo/compiler/sizes.go:68-78 | The loop gives each field the least multiple of its alignment at or after the end of the field before it. |
| `GoSizes.StructIsTight` | tinygo/compiler/sizes.go:131-152 | The size of a struct is the least multiple of its alignment at or after the end of its last field, and its alignment the largest of its fields'. |
| `GoSizes.LeafSizes` | tinygo/compiler/sizes.go:80-125 | The size of every kind that is not an array or struct, as a number of bytes, ints or words. |
| `GoSizes.LeafAligns` | tinygo/compiler/sizes.go:40-65 | Their alignments: a word, or the size (half of it for complex numbers) up to the target's maximum. |
| `GoSizes.ArrayIsDense` | tinygo/compiler/sizes.go:118-127 | An array is its elements one after the other. |
| `GoSizes.LeavesPlaced` | tinygo/compiler/sizes.go:96-169 | Every part at any depth has an absolute offset that is a multiple of its alignment, inside the size, disjoint from and ordered with all others. |
| `CallExpansion.SameLength` | tinygo/compiler/calls.go:88-150 | Types, values and offsets of an expanded parameter have equal length. |
| `CallExpansion.ExpandsToPieces` | tinygo/compiler/calls.go:86-201 | A struct with at most three parts that take up space, however deep, becomes those parts, in order and at their offsets; everything else is passed whole. No part is a struct or empty. |
| `CallExpansion.ExpandsToTyped` | tinygo/compiler/calls.go:129-150 | The pieces of a value are values of the pieces of its type. |
| `CallExpansion.SliceIsThree` | tinygo/compiler/calls.go:12-16 | A slice is passed as three parameters. |
| `CallExpansion.FuncValueIsTwo` | tinygo/compiler/calls.go:154-201 | A function value is passed as its context pointer and, one word later, its id. |
| `CallExpansion.FieldSplits` | tinygo/compiler/calls.go:154-201 | If a struct is split, so are its struct fields: the field limit is monotone under nesting. |
| `CallExpansion.CollapseFront` | tinygo/compiler/calls.go:302-324 | Collapsing consumes exactly the flattened values of the type and leaves the rest. |
| `CallExpansion.CollapseParam` | tinygo/compiler/calls.go:302-324 | The loop over fields that threads the remaining values. |
| `CallExpansion.RoundTrip` | tinygo/compiler/calls.go:292-324 | For every type and value, collapsing the expansion gives back the value without reaching a panic. |
| `CallExpansion.ExpandOffsetsInOrder` | tinygo/compiler/calls.go:112-150 | The offsets are increasing, do not overlap and lie inside the value. |
| `BoundsChecks.PassesIffInBounds` | tinygo/compiler/asserts.go:44-78 | With a capacity below half the range of the widest operand, the unsigned checks pass exactly when 0 <= low <= high <= max <= capacity as integers. |
| `BoundsChecks.ExtendRange` | tinygo/compiler/asserts.go:264-275 | Extension keeps non-negative operands and sends negative ones to the top of the range. |
| `BoundsChecks.CheckExact` | tinygo/compiler/asserts.go:44-78 | For given operand types and capacity the check is wrong on some operands if and only if a signed type can slip below the capacity while all later operands span the full unsigned range. |
| `BoundsChecks.MakeExact` | tinygo/compiler/compiler.go:2028-2067 | For given types of length and capacity, `make` accepts or rejects some operands wrongly if and only if a negative capacity can be below the largest slice, or a negative length can and the capacity spans the full unsigned range. |
| `BoundsChecks.WideIsSound` | tinygo/compiler/compiler.go:2028-2067 | This never happens when pointers, the length or the capacity are at least as wide as an int. |
| `BoundsChecks.MakeIsSafe` | tinygo/compiler/compiler.go:2028-2067 | For types that are not unsound, the check of `make` passes exactly when 0 <= length <= capacity <= the largest slice, and then the byte size does not wrap and conversions lose nothing. |
| `BoundsChecks.MaxSliceBounds` | tinygo/compiler/compiler.go:1778-1802 | The largest slice fits in memory and in an int. |
| `BoundsChecks.MaxSliceIsLargest` | tinygo/compiler/compiler.go:1778-1802 | A length is at most the largest slice if and only if that many elements fit in memory and in an int, so `make` rejects nothing that fits. |
| `BoundsChecks.NarrowLengthSlips` | tinygo/compiler/compiler.go:2028-2067 | With 16-bit pointers and 32-bit ints, an 8-bit length of -1 is accepted. |
| `CObjectCache.Cache.HashFiles` | tinygo/builder/cc.go:207-234 | The key holds the contents of all files, or there is none when one is missing. |
| `CObjectCache.Cache.CollectDependencies` | tinygo/builder/cc.go:151-166 | The stored dependency list is the list of the reported files and the source file with repetitions dropped, then sorted. |
| `CObjectCache.SliceIsSortedSet` | tinygo/builder/cc.go:151-166 | That list is strictly increasing and holds exactly the reported files and the source file. |
| `CObjectCache.Cache.CompileAndCacheCFile` | tinygo/builder/cc.go:59-202 | Whole new cache and result of a build, hit or miss. |
| `CObjectCache.AfterInv` | tinygo/builder/cc.go:59-202 | Over every history, each stored object was compiled from files with the contents in its key. |
| `CObjectCache.HitIsFresh` | tinygo/builder/cc.go:93-118 | If compilation depends only on the files it reports, a hit is what compiling now would give. |
| `CObjectCache.AlwaysFreshIffDetermined` | tinygo/builder/cc.go:59-202 | Every build of every history returns the fresh object if and only if the compiler's result is determined by the files it reports. |
| `CacheHits.RepeatedBuildHits` | tinygo/builder/cc.go:93-118 | After a successful build, any edits and builds, and a return of the listed files to their contents, the build is answered from the store with the same object, unless a build in between replaced its list of dependencies. |
| `CacheHits.StoreServesIffSameReads` | tinygo/builder/cc.go:72-118 | With the files left alone, every later build of a request is answered from the store, whatever is built in between, if and only if compiling with and without ThinLTO reads the same files. |
| `CacheHits.AlternatingBuildsMiss` | tinygo/builder/cc.go:72-118 | A compiler that reads one more file with ThinLTO makes alternating builds miss. |
| `CObjectCache.AddedHeaderIsMissed` | tinygo/builder/cc.go:49-58 | A compiler that searches for a header that appears later is served a stale object. |
| `SectionSizes.ReadSection` | tinygo/builder/sizes.go:775-823 | For each label, the bytes reported are the bytes whose first covering chunk inside the section has that label, unknown where there is none, and all reports sum to the section size. |
| `SectionSizes.OwnerOfClaimed` | tinygo/builder/sizes.go:783-815 | The owner of a byte is determined by the first chunk in sort order that lies in the section and covers it. |
| `SectionSizes.ClaimedHasFirst` | tinygo/builder/sizes.go:783-815 | A byte that some chunk in the section covers has a first such chunk, so it is never left unknown. |
| `SectionSizes.TileLinearMemory` | tinygo/builder/sizes.go:677-702 | Fails exactly when a data section begins before its predecessor ends; otherwise the given data sections and gap sections tile linear memory. |
| `SectionSizes.TiledOnce` | tinygo/builder/sizes.go:677-702 | In a tiling every address is in exactly one section. |
| `ConstParser.RoundTrip` | tinygo/cgo/const.go:47-144 | Parsing the tokens of any tree of the grammar (a sum of terms, a term of factors, both grouped to the left, a factor with prefix minus or parentheses) gives back that tree. |
| `ConstParser.AcceptsExactlyTrees` | tinygo/cgo/const.go:47-144 | A complete tree is returned without error exactly for the tokens of that tree, which is one of the grammar, and nothing after them. |
| `ConstParser.GrammarIsLevels` | tinygo/cgo/const.go:16-30 | The grammar, which has no precedence numbers, and the precedence table give the same trees. |
| `ConstParser.Unambiguous` | tinygo/cgo/const.go:60-86 | A sequence of tokens has at most one derivation. |
| `ConstParser.TighterOnBothSides` | tinygo/cgo/const.go:16-30 | For all operands, `a + b * c` is the sum of a and a product and `a * b + c` the sum of a product and c, for every additive and multiplicative operator. |
| `ConstScan.AcceptedIffScanned` | tinygo/cgo/const.go:60-86 | No error is returned exactly when a one-pass scan with a parenthesis counter accepts, and the tree has a missing part exactly when the scan recovered. |
| `ConstScan.RightIffNoRecovery` | tinygo/cgo/const.go:75-83 | The parser accepts exactly the inputs of the grammar among those, and only those, on which the scan does not recover. |
| `ConstScan.ErrorIsOverwritten` | tinygo/cgo/const.go:75-83 | The input `()+1` is accepted with a missing operand. |
| `ConstTokenizer.Tokenizer.Next` | tinygo/cgo/const.go:179-192 | Moves one token on, keeping one token of lookahead; at the end it stays there. |
| `ConstTokenizer.Tokenizer.ParseConstExpr` | tinygo/cgo/const.go:60-86 | The operator loop over the tokenizer gives tree, error and position of the parser function, on every token stream. |
| `ConstTokenizer.Tokenizer.ParseOperand` | tinygo/cgo/const.go:88-144 | The same for the prefix functions. |
| `ConstTokenizer.ParseConstant` | tinygo/cgo/const.go:46-58 | The same for the whole input, which must be consumed; a complete tree without error is a tree of the grammar and the input its tokens. |
| `RomImage.WrappedGap` | tinygo/builder/objcopy.go:82-88 | The wrapped 64-bit difference is within the padding limit exactly when the segment begins at most that far after the image. |
| `RomImage.SelectsExactly` | tinygo/builder/objcopy.go:62-68 | The segments used are exactly the load segments with data and a non-zero offset, each once and in the order of the file. |
| `RomImage.BuildRom` | tinygo/builder/objcopy.go:74-95 | Succeeds exactly when each sorted segment begins at most 4095 bytes after the previous one ends, and then the image is the memory the segments load. |
| `RomImage.LoadSegment` | tinygo/builder/objcopy.go:90-94 | In that memory every byte of every segment is at its address. |
| `RomImage.LoadBeyond` | tinygo/builder/objcopy.go:74-95 | Outside the image nothing is loaded. |
| `RomImage.OverlapIsRejected` | tinygo/builder/objcopy.go:82-86 | Segments that share an address are rejected. |
| `RomImage.LowestIsMinimum` | tinygo/builder/objcopy.go:51-60 | The start address is the least address of an allocated section, or all ones. |
| `RomImage.ExtractRom` | tinygo/builder/objcopy.go:51-106 | Exactly when each of the four outcomes happens, and what base and image a success returns. |
| `Uf2.WordReadsBack` | tinygo/builder/uf2.go:102-116 | Little-endian words read back. |
| `Uf2.Split` | tinygo/builder/uf2.go:139-153 | The parts concatenate to the input, all but the last are full and none is empty. |
| `Uf2.BlockWriter.Bytes` | tinygo/builder/uf2.go:101-116 | 512 bytes that a reader of the format decodes to the block's fields. |
| `Uf2.BlockWriter.SetData` | tinygo/builder/uf2.go:123-127 | The payload is the data padded with zeros. |
| `Uf2.BlockWriter.IncrementAddress` | tinygo/builder/uf2.go:118-121 | The address advances by the payload size modulo 2^32. |
| `Uf2.ConvertBinToUf2` | tinygo/builder/uf2.go:32-52 | Fails exactly for an unreadable family; otherwise an independent reader finds blocks 0 to n-1 at addresses rising by 256 whose payloads are the image padded with zeros to whole blocks. |
| `Firmware.FittingIsHeld` | tinygo/builder/uf2.go:32-52 | A device that stores every payload at its address holds an image that ends at or below 2^32 at its address, and zeros elsewhere. |
| `Firmware.HeldIffFits` | tinygo/builder/uf2.go:18-29 | For a given address and length, it does so for every image and every conversion of it if and only if the image ends at or below 2^32 or is empty. |
| `Firmware.TooHighIsLost` | tinygo/builder/uf2.go:25 | For every address and length beyond that there is an image and a file of it that the device gets wrong. |
| `Firmware.ConvertElfToUf2` | tinygo/builder/uf2.go:18-29 | The errors of extraction and conversion, and for segments that end at or below 2^32 a file from which the device holds, from the start of the image on, exactly the memory the segments load. |
| `Bitfields.CreateGetter` | tinygo/cgo/cgo.go:644-672 | The expression built reads exactly the field's bits, for every width of a signed or unsigned base field; the last field of a signed one is sign-extended. |
| `Bitfields.CreateSetter` | tinygo/cgo/cgo.go:767-825 | The expression built replaces exactly the field's bits by the low bits of the value, for every width of a signed or unsigned base field. |
| `Bitfields.GetIsArithmetic` | tinygo/cgo/cgo.go:644-672 | Reading is dividing by the start and taking the remainder by the width. |
| `Bitfields.PutGet` | tinygo/cgo/cgo.go:767-825 | Reading after writing gives the value modulo the field's width, shown with its sign where the shift is arithmetic. |
| `Bitfields.GetPut` | tinygo/cgo/cgo.go:767-825 | Writing back what was read changes nothing. |
| `Bitfields.PutPut` | tinygo/cgo/cgo.go:767-825 | The last of two writes counts. |
| `Bitfields.OthersUnchanged` | tinygo/cgo/cgo.go:767-825 | Writing one field of a group leaves every other field unchanged, the last one with no recorded end included. |
| `BitfieldGroups.StructVisitor.Visit` | tinygo/cgo/libclang.go:1015-1065 | Visiting one member keeps what the lists mean, records errors, and fails exactly for a bitfield without a field to share. |
| `BitfieldGroups.VisitStruct` | tinygo/cgo/libclang.go:1015-1065 | After all members every one is recorded, groups are numbered and have at least two bitfields, and within a group each bitfield ends where the next begins; the visit fails exactly when some bitfield has no field before it. |
| `BitfieldGroups.RunIsGroup` | tinygo/cgo/libclang.go:1041-1048 | The recorded fields of one base field meet the premise of the lens laws exactly when the members' offsets in their units increase and lie in the base field. |
| `BitfieldGroups.PlacedIffWellLaid` | tinygo/cgo/libclang.go:1015-1065 | Every recorded bitfield begins where its member does, and ends where it does or, the last of a field, runs over it to the end of the field, if and only if the declarations are well laid: each storage unit begins with its field, each bitfield begins where the one before ends, and the last ends inside the field. |
| `BitfieldGroups.ExactIffFilled` | tinygo/cgo/libclang.go:1015-1065 | Every bitfield of the struct, recorded or made a plain field, has exactly the bits of its member if and only if the declarations are well laid and the last bitfield of every field ends where the field ends. |
| `BitfieldGroups.WellLaidRunIsGroup` | tinygo/cgo/libclang.go:1041-1065 | The bitfields recorded for one field of well laid declarations meet the premise of the lens laws. |
| `BitfieldGroups.ReadsTrueMember` | tinygo/cgo/cgo.go:644-672 | For well laid declarations, the expression the getter builds gives the bits at the member's own offset, on signed and unsigned fields; the last one of a field also gives the bits above, which are none exactly when its entry is exact. |
| `BitfieldGroups.WritesTrueMember` | tinygo/cgo/cgo.go:767-825 | For well laid declarations, the expression the setter builds replaces the member's bits, and above the last one of a field the rest of it, and keeps all other bits. |
| `BitfieldGroups.ReadsCValue` | tinygo/cgo/cgo.go:644-672 | With exact bits, a getter gives the value C gives if and only if both treat the sign alike or the sign bit is clear. |
| `BitfieldGroups.LastRunsOn` | tinygo/cgo/libclang.go:1041-1048 | `int a:4; int b:4;` is well laid, and b is recorded up to bit 32. |
| `BitfieldGroups.ForeignBitIsRead` | tinygo/cgo/cgo.go:658-672 | The getter of that b reads bit 8. |
| `BitfieldGroups.SignIsLost` | tinygo/cgo/cgo.go:658-672 | The getter of a signed 4-bit field before another gives 15 where C gives -1. |
| `BitfieldGroups.LoneBitfieldIsWhole` | tinygo/cgo/libclang.go:1050-1063 | `int a:4;` alone is no entry but a field of 32 bits. |
| `BitfieldGroups.UnnamedFirstFails` | tinygo/cgo/libclang.go:1006-1028 | `int :4; int b:4;` makes the visit of b look for a field that is not there. |
| `BitfieldGroups.MixedTypesMisplaced` | tinygo/cgo/libclang.go:1015-1018 | An int bitfield of 20 bits followed by a char bitfield of 4 in the same unit: both are recorded at wrong bits. |

## Left out

- Run-time errors in the defer machine, such as a deferred call of a nil function
  value: they abort the program and are never recovered.
- LLVM, clang, libclang and lld: only the meaning of the few instructions a
  property needs is modelled; debug information and assembly text are not.
- The asyncify tool, malloc and stack memory: its four primitives are taken by
  their stated contract, and stack use is an observable number.
- The file system, hashing, locks and JSON of the object cache: a key is the tuple
  of contents and a store is atomic.
- Sorting routines of the standard library: sorted inputs, or an insertion sort in
  the image builder; the order among equal addresses is not modelled.
- Lexing of literals, source positions and message texts in the constant parser;
  the tokenizer's stream of tokens is the input.
- Readers of ELF, Mach-O, PE and DWARF, and the guess of a package from a path,
  which is a parameter of the sweep.
- The sum of package sizes over all sections; each section's reports are summed.
- SectionSizes.ReadSection: addresses that wrap at 64 bits are excluded.
- RomImage.ExtractRom: images of 2^63 bytes or more, which no slice can hold, are
  excluded, and so are read errors.
- Firmware.ConvertElfToUf2: the same images and errors are excluded; the device is
  one that begins with zeroed memory and stores payloads in the order of the file.
- Sizes and offsets of Go types are unbounded; overflow of 64-bit sizes is not
  modelled.
- FiberTraces.FlagsGiveTrace: the trace is spelt out for bodies that yield, use the
  stack and return; bodies that allocate or resume other fibers are covered by
  `FiberMachine.Soundness` and `FiberMachine.Completeness`.
- Timing, logging and heap order in the job runner; any ready job may start next.
- Names and flags of expanded parameters, and reuse of layout globals by name.
