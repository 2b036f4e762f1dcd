# AcePS verification

A Dafny model of the hard algorithms of AcePS and proofs about them. Every
component below is modelled from its C++ source, branch by branch, and each
main result is a statement over all inputs, all runs or all interleavings.

`dafny verify dfyconfig.toml` checks the whole project.

## What is modelled

| component | files | form |
|---|---|---|
| GCN to SPIR-V translator | `SpirvModule`, `SpirvMachine`, `GcnShader`, `GcnEncoding`, `ShaderEmission`, `ShaderSteps`, `ShaderSimulation`, `ShaderTranslation`, `ShaderTheorems`, `ShaderStructure`, `ShaderReader`, `ShaderExample`, `ShaderTranslator` | an encoder for the bytecode, an emitter class proved against a functional emission, an interpreter for the emitted stream, a reference register machine, and the view of a reader of the standard |
| Trap request slots | `TrapSlots`, `TrapProgress` | interleaved step system: one compare-exchange, one captured register at a time; a budget of steps for each trap; and a class with the loops as they run without interference |
| Patch log and syscall scan | `PatchLog` | a patcher class over bytes and page protections, proved against functions |
| Bounded scheduler | `WorkScheduler` | interleaved step system with sleepers, woken threads and notifications in transit; and a class whose critical sections are steps of it |
| GPU fences | `GpuQueue` | a class for the critical sections, and a step system that uses the same table functions |
| Audio ring | `AudioRing` | a class with the copying loops, and a step system that copies one sample at a time |
| Chunk cache | `LruCache` | a class with a node list and an index, refining a recency list |
| Page accounting | `MemoryManager` | a step system for mapping outside the lock, and a class as one caller sees it |
| ELF plan and mapper | `ElfPlan`, `ElfLayout`, `ElfMapper` | the loader on raw bytes, a writer of the same layout, and a mapper class over the memory manager |
| Modules and registry | `Modules`, `ElfSymbols`, `ElfExports` | registry and loader classes, the export scan, histories of operations, a writer of symbol tables, and the exports of any image described by offsets |
| PM4 | `Pm4` | the parsing loop, nested dispatch, and a processor class |
| Context registers | `ContextTracker` | a tracker class over arrays, proved against per-write functions |
| Configuration | `Config` | loading and saving loops over text |

`Arithmetic` and `Common` hold facts and types that several of these share.

Parameters stand for what the sources leave to the outside: the arithmetic of
shader operations and the initial contents of variables (`Alu`, `init`), the
syscall registry (`Registry` in `TrapSlots`), the success of each memory
protection change, mapping and release, the device behind Vulkan (`Device` in
`Pm4`), the words of guest memory during one submission, the files below the
service root, and whether a module's file resolves and maps.

## Results worth knowing

Some of what one might expect of the code is false of it. The models keep the
code as it is; each case has an exact condition, or a lemma with a concrete input
or run, and most have both.

* The translator recognises no program end. An instruction of that format has bit
  23 set, which is the top bit of the opcode field as the code reads it, so the
  opcodes 1 and 2 it tests for never occur (`NoEnd`); the word of s_endpgm reads as
  opcode 0x81 (`EndWordIsNotRecognised`). What stands behind it is translated and
  executed (`EndIsRunThrough`), and every module returns behind its last
  instruction and nowhere else (`ReturnsOnlyAtTheEnd`). No word decodes as a vector
  comparison either (`NoEnd`), so what is proved of that format holds of no program.
* A module gets stuck on an id that is never defined exactly when its program has a
  scalar memory read anywhere, or an export the stage has no output for; otherwise
  it returns (`OutcomeOf`, `StuckExactlyWhenUnsupported`, `ModuleIsWellFormed`;
  `EndIsRunThrough` has the input).
* Read by the standard, the entry point of a vertex or fragment module is not called
  main, the name the pipeline asks for: the output variable's id stands where the
  name should begin (`EntryPointIsMainIff`). So the bound word is above every id
  that occurs, and none is 0, exactly in compute modules without a scalar memory
  read (`IdsInRangeIff`).
* More than 64 threads in the trap handler can lose a trap, at most 64 cannot
  (`DropsIffTooManyThreads`).
* A trap whose thread is still capturing when the worker has made its last pass never
  resumes; once the worker has stopped, exactly those traps resume whose answer
  already stands in their slot (`LastPassMayStrand`, `ResumesAloneIff`).
* A patch at address 0 is not undone, as the restore loop skips its entry; every
  other is (`AddressZeroIsNotRestored`, `UninstallRestoresIff`).
* A patch that finds the log full is taken back after the page protection has been
  restored, so on a code page that is not writable the write faults
  (`FullLogExact`).
* A second call of the scheduler's shutdown can return while accepted tasks have
  not run, although the header promises deterministic shutdown; of the two ways a
  call returns only that of the call that set the flag promises it
  (`SecondShutdownMayReturnEarly`, `ShutdownDrainsIff`).
* Waiting for a fence can succeed before the watermark reaches it, and waiting a
  second time can then fail (`SecondWaitMayBeFalse`, `ForgottenWaitExact`).
* A failed submission stops the watermark for good, and with it every later wait
  that finds no future (`FailureStopsWatermark`); a run shows it, with the command
  behind the failed one done and a wait for it answered false
  (`FailureBlocksLaterFences`).
* The fill level of the audio ring, read by two loads, is right at the later load
  exactly when the counter read first has not changed; in the order in which the
  two are written it can come out as 2^64 - 1 (`AvailableExactIff`,
  `AvailableCanBeHuge`).
* Stub initialisation is not transactional, although the loader describes itself
  as such. A call fails half way exactly when a module of the second stub's name is
  loaded and the first name is free, and then no later call ever succeeds, whatever
  is unloaded (`FailedStubs`, `PartialIsFinal`, `NeverInitialisesIff`;
  `PartialInitialisationRun` has the history).
* The opcode field of a scalar instruction shares two bits with source 1 and six
  with the destination, so most combinations of fields have no encoding
  (`ScalarWordIff`).
* A blend factor is decoded as packed exactly when the field to its left is even, as
  its field is masked with five bits and has four; the usual transparency gets the
  source factor One (`BlendUnpacks`, `TransparencyIsLost`). The integer colour
  format is never found (`ColorUnpacks`).
* The colour operation of a blend register is lost as soon as any alpha field is
  set, because its field is not masked (`ColorOpExact`).
* A configuration with a newline in a path does not load back (`RoundTripIff`). The
  resolution scale is cut to 32 bits before it is checked, so numbers out of range
  and negative ones can be accepted (`ScaleWraps`).

## Model

| member | source | states |
|---|---|---|
| SpirvModule.ParseFlatten | src/shader/ShaderTranslator.cpp:122-135 | Reading back a stream that begins with the words of emitted instructions yields those instructions and goes on with the rest, so a reader that only trusts the length half-words finds every boundary. |
| SpirvModule.ParseRoundTrip | src/shader/ShaderTranslator.cpp:122-135 | Flattening code to words and parsing the words by their own lengths gives the same code, for all code whose lengths fit a half-word. |
| GcnEncoding.WordDecodes | src/shader/ShaderTranslator.cpp:80-111 | Every word of every format but export, put together from bit fields as a sum of powers of two, decodes to that format and to those fields: opcode, sources, and the destination where its format has it. |
| GcnEncoding.ExportDecodes | src/shader/ShaderTranslator.cpp:98-104 | An export word decodes to its enabled components and its four sources in their order, whatever stands in the bits between. |
| GcnEncoding.ProgramDecodes | src/shader/ShaderTranslator.cpp:147-172 | Decoding inverts encoding: a program put together instruction by instruction, with the second word of wide ones, decodes to those instructions, the third source and the export target included, in front of whatever follows. |
| GcnEncoding.TruncatedDecodes | src/shader/ShaderTranslator.cpp:148-163 | A wide instruction at the very end is decoded without its second word. |
| GcnEncoding.SamplesIff | src/shader/ShaderTranslator.cpp:167-170 | A memory instruction samples exactly when bit 22 of its second word is set. |
| GcnEncoding.ProgramEnds | src/shader/ShaderTranslator.cpp:445-452 | An instruction would be taken for a program end exactly with opcode 1, or with opcode 2 and a 16-bit offset that is zero or negative. |
| GcnEncoding.ColourExport | src/shader/ShaderTranslator.cpp:98-104 | The words of an export of v0 to v3 to the first colour decode to the sources 0, 1, 2, 3. |
| GcnEncoding.ScalarWordIff | src/shader/ShaderTranslator.cpp:84-97 | A word for a scalar instruction with given opcode, sources and destination exists if and only if opcode and source 1 agree in two bits and opcode and destination in six. |
| ShaderExample.SmallestModule | src/shader/ShaderTranslator.cpp:122-285 | The whole module for a lone s_endpgm in a compute shader, in the numbers of the standard. |
| ShaderSimulation.Sop2Translates | src/shader/ShaderTranslator.cpp:345-364 | The code emitted for a scalar two-operand instruction, lazy variables and aliased registers included, takes register variables that match the reference registers to ones that match the registers after the reference step. |
| ShaderSimulation.Vop2Translates | src/shader/ShaderTranslator.cpp:365-407 | The same for the vector two-operand formats, with the multiply-accumulate that reads its destination and the shifts that read scalar registers. |
| ShaderSimulation.Vop3Translates | src/shader/ShaderTranslator.cpp:287-319 | The same for three-operand instructions, whose sources may name either bank. |
| ShaderSimulation.Vop1Translates | src/shader/ShaderTranslator.cpp:411-434 | The same for one-operand instructions, including the conversions that write a scalar register. |
| ShaderSimulation.ExportTranslates | src/shader/ShaderTranslator.cpp:454-471 | The same for exports: the output variable gets the enabled components with the code's defaults for the rest, or an undefined id is stored to when the stage has no such output. |
| ShaderSimulation.SmemTranslates | src/shader/ShaderTranslator.cpp:472-484 | A scalar memory read leaves the interpreter stuck on an undefined id, as the reference faults. |
| ShaderSimulation.VmemTranslates | src/shader/ShaderTranslator.cpp:321-341 | The same simulation for texture samples, four components written to consecutive wrapped registers, and for plain vector copies. |
| ShaderSimulation.InstructionTranslates | src/shader/ShaderTranslator.cpp:343-495 | Every decoded instruction, of every format, keeps the simulation and the well-formedness of the unit under construction. |
| ShaderTranslation.HeaderReady | src/shader/ShaderTranslator.cpp:183-252 | After the header the unit defines all fixed ids once, uses none that is undefined, and the interpreter runs with the types, constants, buffer and image variables the body relies on. |
| ShaderTheorems.TranslationPreservesMeaning | src/shader/ShaderTranslator.cpp:142-178 | For every bytecode, stage hint, arithmetic and register file: the module read back from its words, interpreted to its first return, ends like the reference run, with every register variable and the output variable holding the reference's values. |
| ShaderTheorems.EveryRegisterFileIsRealised | src/shader/ShaderTranslator.cpp:254-270 | No two registers share a variable, so every register file is the initial content of some assignment of variables; the premise of the meaning theorem shuts out nothing. |
| ShaderTheorems.ModuleIsWellFormed | src/shader/ShaderTranslator.cpp:142-252 | For every bytecode below 2^28 - 2 words: five header words, then a stream that tiles exactly into instructions; no id defined twice; the bound above every defined id and at most 32 + 16 n; and every consumed id defined before, exactly when the program has no scalar memory read and only exports its stage has an output for. |
| ShaderTheorems.StuckExactlyWhenUnsupported | src/shader/ShaderTranslator.cpp:454-484 | Interpreting a module consumes an undefined id if and only if an unsupported instruction comes before the first program end; as no decoded word is a program end, if and only if there is an unsupported instruction anywhere, and otherwise it returns. |
| ShaderTheorems.OutcomeOf | src/shader/ShaderTranslator.cpp:472-484 | The same without a word about registers: whatever the variables hold at first, a module returns if all instructions of its program are supported and gets stuck if not. |
| GcnShader.NoEnd | src/shader/ShaderTranslator.cpp:445-453 | No program decodes to an instruction that the tests for opcode 1 or 2 take for a program end, and none to a vector comparison. |
| GcnShader.EndWordIsNotRecognised | src/shader/ShaderTranslator.cpp:80-97 | The word of s_endpgm decodes to the right format with opcode 0x81. |
| ShaderTheorems.EndIsRunThrough | src/shader/ShaderTranslator.cpp:445-453 | A scalar memory read behind the word of s_endpgm gets the module stuck, while the module of that word alone returns. |
| ShaderReader.ReturnsOnlyAtTheEnd | src/shader/ShaderTranslator.cpp:277-285 | Every module, whatever its program, has the mode instructions of its stage, one return and one function end in this order, and the return comes right behind the code of the last instruction. |
| ShaderReader.EntryPointIsMainIff | src/shader/ShaderTranslator.cpp:245-252 | Every module has one entry point; read in the standard's operand order its name is main if and only if the module is a compute module, and otherwise the words of main are its interface. |
| ShaderReader.IdsInRangeIff | src/shader/ShaderTranslator.cpp:181-285 | Every id that an instruction of any module defines or consumes is below the bound word; all ids that occur, entry point and execution mode included, lie between 1 and the bound if and only if the module is a compute module without a scalar memory read. |
| ShaderTranslator.Emitter.DecodePass | src/shader/ShaderTranslator.cpp:147-172 | The decoding loop collects the instructions, the stage and the sampling flag that the reference decoding defines. |
| ShaderTranslator.Emitter.InstructionOf | src/shader/ShaderTranslator.cpp:343-495 | Appending in place, with lazily filled register tables and the id counter, produces what the functional emission of the instruction produces. |
| ShaderTranslator.TranslateShader | src/shader/ShaderTranslator.cpp:142-178 | Succeeds exactly on non-empty bytecode, and its words are then the module the theorems are about; the error text otherwise. |
| TrapSlots.NoTrapDropped | src/os/platform/TrapDispatcherLinux.cpp:93-102 | With at most 64 threads in the handler no reachable state has a dropped trap, although the scan tests one slot at a time; a scanning thread always has a free slot at or after its position. |
| TrapSlots.DropsIffTooManyThreads | src/os/platform/TrapDispatcherLinux.cpp:163-170 | A state with a dropped trap is reachable if and only if more than 64 threads may be inside; the other half builds the run that loses one. |
| TrapSlots.ReturnsOwnResult | src/os/platform/TrapDispatcherLinux.cpp:104-110 | Over all interleavings every resumed trap was dispatched exactly once, on its own captured registers, and got that dispatch's result in rax. |
| TrapSlots.BusySlotHasOneOwner | src/os/platform/TrapDispatcherLinux.cpp:172-204 | In every reachable state each slot that is not free is held by exactly one thread. |
| TrapSlots.FrameDiscipline | src/os/platform/TrapDispatcherLinux.cpp:172-192 | A slot's frame changes only in its owner's capture while Filling or in the worker's dispatch while Pending. |
| TrapSlots.StepKeeps | src/os/platform/TrapDispatcherLinux.cpp:93-126 | Every step of every thread and of the worker keeps ownership, the fit of each frame to its thread's progress, and the dispatch log. |
| TrapProgress.ServiceIsBounded | src/os/platform/TrapDispatcherLinux.cpp:93-126 | From every reachable state on and in every interleaving, a thread that is still in the handler has taken at most 278 steps, its own and those of the worker while its request was pending. |
| TrapProgress.SomethingCounts | src/os/platform/TrapDispatcherLinux.cpp:190-197 | For every thread in the handler one of these steps is always possible, so with a running worker no trap waits for ever. |
| TrapProgress.ResumesAloneIff | src/os/platform/TrapDispatcherLinux.cpp:112-126 | Once the worker takes no more steps, a trap in the handler can resume with a result if and only if its answer already stands in its slot. |
| TrapProgress.LastPassMayStrand | src/os/platform/TrapDispatcherLinux.cpp:112-126 | A run in which the worker's last pass over all slots finds nothing while a thread is filling its slot, and that trap can never resume after it. |
| TrapSlots.TrapTable.AcquireRequest | src/os/platform/TrapDispatcherLinux.cpp:93-102 | Run alone, the scan takes the first free slot and touches nothing else, or reports that all are busy. |
| TrapSlots.TrapTable.CaptureAndSubmit | src/os/platform/TrapDispatcherLinux.cpp:172-192 | Run alone, the capture leaves the trapped registers in the slot and hands it over. |
| TrapSlots.TrapTable.DispatchPending | src/os/platform/TrapDispatcherLinux.cpp:104-110 | Run alone, one pass of the worker dispatches every pending slot once, in slot order, and leaves the others. |
| TrapSlots.PassIsTurns | src/os/platform/TrapDispatcherLinux.cpp:104-110 | The pass that the loop makes is what the worker's steps of the interleaved system make when nobody interferes, slot by slot, with the same results in rax. |
| PatchLog.Scan | src/os/SyscallPatcher.cpp:13-27 | The scan returns exactly the addresses of the two-byte instruction, in increasing order and not overlapping; nothing for a null, short or wrapping range. |
| PatchLog.UndoInvertsPatch | src/os/platform/TrapDispatcherLinux.cpp:249-297 | For any memory and site, undoing the entry a patch has just logged gives back the memory before it, whether or not the patch could restore its protection. |
| PatchLog.UninstallRestoresIff | src/os/platform/TrapDispatcherLinux.cpp:299-314 | After any sequence of patch requests, whichever patch-time protection changes failed, undoing the log newest first gives back every byte and every page protection if and only if no site at address 0 was patched. |
| PatchLog.AddressZeroIsNotRestored | src/os/platform/TrapDispatcherLinux.cpp:303 | A patched site at address 0 stays patched after the restore. |
| PatchLog.SitePages | src/os/platform/TrapDispatcherLinux.cpp:260-267 | A site's page range runs from the page of its first byte to the page of its second, one or two pages, unless the end wrapped and the patch is refused. |
| PatchLog.PatchingIsLocal | src/os/platform/TrapDispatcherLinux.cpp:273-291 | Recorded sites never overlap, each holds the trap, and no byte outside them has changed. |
| PatchLog.ScanThenPatchLeavesNone | src/os/SyscallPatcher.cpp:20-24 | Scanning an executable range and patching all its sites leaves no syscall instruction in it, records exactly those sites, and changes no protection. |
| PatchLog.FullLogExact | src/os/platform/TrapDispatcherLinux.cpp:278-287 | A patch that finds 65536 sites recorded leaves the log alone and faults exactly when its pages have been locked again and are not writable, with the trap in place; otherwise the memory is what it was exactly when one of the last two protection changes works or the pages were open before. |
| PatchLog.TrapPatcher.PatchMemory | src/os/platform/TrapDispatcherLinux.cpp:231-297 | The patcher's memory, log and outcome after any request are those of the function the theorems are about, in every branch, a full log included. |
| PatchLog.TrapPatcher.RestorePatchedSites | src/os/platform/TrapDispatcherLinux.cpp:299-314 | The restore loop empties the log and leaves the memory that undoing the entries last to first gives, for any failures. |
| PatchLog.TrapPatcher.HasPatchedSite | src/os/platform/TrapDispatcherLinux.cpp:85-91 | True exactly for recorded addresses. |
| WorkScheduler.NoLostWakeup | include/aceps/core/WorkScheduler.h:36-44 | In every reachable state that is not stopping: if a worker sleeps, queued tasks are at most the notifications owed plus the woken workers; if a submitter sleeps, free places are at most the notifications owed plus the woken submitters. |
| WorkScheduler.EverythingSettles | src/core/WorkScheduler.cpp:22-35 | From every reachable state, whatever order the threads move in and without new arrivals, they reach within a bounded number of steps a state where all accepted tasks have run, no submitter or shutdown call hangs, and the workers sleep or are gone. |
| WorkScheduler.QuietMeansSettled | src/core/WorkScheduler.cpp:22-35 | A state in which no thread can move by itself has an empty queue and nothing left undone. |
| WorkScheduler.InternalStepDecreases | src/core/WorkScheduler.cpp:22-48 | Every step of the scheduler's own threads lowers a measure of the work left, wakeups and notify-all calls included. |
| WorkScheduler.BoundedFifo | include/aceps/core/WorkScheduler.h:36-43 | The queue stays within its capacity, accepted tasks are those popped followed by those queued, none runs twice, and one worker finishes them in order of acceptance. |
| WorkScheduler.ShutdownDrains | src/core/WorkScheduler.cpp:37-48 | When the shutdown call that set the flag returns, every accepted task has run exactly once and every worker has left. |
| WorkScheduler.SecondShutdownMayReturnEarly | src/core/WorkScheduler.cpp:38-40 | For every number of workers and every capacity, a run in which a second shutdown call has returned while an accepted task has not run. |
| WorkScheduler.ShutdownDrainsIff | src/core/WorkScheduler.cpp:37-48 | In every configuration, a way of returning from shutdown promises in all runs that the accepted tasks have run and the workers left if and only if it is that of the call that set the flag. |
| WorkScheduler.Scheduler.SubmitSection | include/aceps/core/WorkScheduler.h:36-43 | One pass through the locked part of a submission changes queue and outcome as the step system's step does: waits when full, rejects when stopping, else appends. |
| WorkScheduler.Scheduler.WorkerSection | src/core/WorkScheduler.cpp:25-32 | One pass of a worker through its locked part is the step system's step: waits when idle, leaves when stopping with an empty queue, else takes the oldest task. |
| WorkScheduler.Scheduler.ShutdownSection | src/core/WorkScheduler.cpp:38-42 | The first shutdown call sets the flag, every later one is ignored. |
| GpuQueue.DrainExact | src/gpu/GpuQueue.cpp:36-40 | Draining the out-of-order set keeps which fences count as completed, never lowers the watermark, and stops before the first one that is not. |
| GpuQueue.FenceQueue.Complete | src/gpu/GpuQueue.cpp:35-40 | The completion block's loop leaves the tables that inserting the fence and draining define. |
| GpuQueue.WatermarkExact | src/gpu/GpuQueue.cpp:28-41 | In every reachable state the finished fences are those up to the watermark together with the out-of-order set, the fence after the watermark is unfinished, and a fence is at or below it exactly when all fences up to it are finished. |
| GpuQueue.WatermarkNeverFalls | src/gpu/GpuQueue.cpp:37-40 | The watermark never decreases along a run. |
| GpuQueue.WatermarkAtRest | src/gpu/GpuQueue.cpp:42-46 | With nothing under way the watermark is the last fence, or stands right before the first fence whose submission failed: it has reached exactly the fences with no failed submission up to them. |
| GpuQueue.FailureStopsWatermark | src/gpu/GpuQueue.cpp:42-46 | Once a submission has failed, in no continuation of the run does the watermark reach its fence, and no wait that finds no future answers true for that fence or a later one. |
| GpuQueue.FailureBlocksLaterFences | src/gpu/GpuQueue.cpp:28-46 | A reachable state at rest with a failed submission, a finished command behind it, one wait for that command true and the next one false. |
| GpuQueue.VerdictMeans | src/gpu/GpuQueue.cpp:63-76 | A wait that returned true for a fence from 1 on has seen its command run; one that threw has seen it throw, or its submission fail. |
| GpuQueue.WaitExact | src/gpu/GpuQueue.cpp:50-76 | Over all runs, a wait that is over answered: if it ever found a future, true exactly when its command ran without throwing and a throw otherwise; if not, from its one look, true exactly when all fences up to its own had finished and false otherwise. |
| GpuQueue.ForgottenWaitExact | src/gpu/GpuQueue.cpp:52-62 | A wait that finds no future answers true exactly when every fence up to its own has finished. |
| GpuQueue.SecondWaitMayBeFalse | src/gpu/GpuQueue.cpp:28-41 | A reachable state in which a wait has returned true ahead of the watermark and a second wait for that fence has returned false. |
| AudioRing.RingIsFifo | include/aceps/audio/AudioSystem.h:30-61 | With producer and consumer interleaved sample by sample on stale counters: frames popped are a prefix of frames accepted, at most a ring apart, the counter difference is exact across 64-bit wrap, and a pop under way is copying the very next frames. |
| AudioRing.NoSharedPlace | include/aceps/audio/AudioSystem.h:39-55 | The sample being written is never the sample being read. |
| AudioRing.WriteMissesLive | include/aceps/audio/AudioSystem.h:37-41 | A write never hits a frame still queued nor a sample this push has written. |
| AudioRing.SnapshotsExact | include/aceps/audio/AudioSystem.h:33-52 | A push accepts exactly as many frames as fit when it reads the tail, a pop takes exactly those present when it reads the head, despite wrapped counters. |
| AudioRing.CountsExact | include/aceps/audio/AudioSystem.h:33-60 | In every run a push takes exactly as many frames as there is room for when it loads the tail and a pop as many as there are when it loads the head; a push that ends has added those frames, and a pop that ends has returned the oldest ones and counts an underrun exactly when there were too few. |
| AudioRing.WrapsSafelyIff | include/aceps/audio/AudioSystem.h:39 | Wrapped counters step through the slots in order if and only if the capacity divides 2^64. |
| AudioRing.AvailableExactIff | include/aceps/audio/AudioSystem.h:63-65 | In every run, two loads in either order give the content of the ring at the later one if and only if the counter loaded first still has its value then. |
| AudioRing.AvailableCanBeHuge | include/aceps/audio/AudioSystem.h:63-65 | A run, for every sound capacity, in which a frame pushed and popped between the two loads makes the answer 2^64 - 1. |
| AudioRing.RunInBounds | include/aceps/audio/AudioSystem.h:69 | No access of any run with one or two channels leaves the storage. |
| AudioRing.AudioRingBuffer.Push | include/aceps/audio/AudioSystem.h:30-44 | Appends to the queued frames exactly the first frames of the source that fit. |
| AudioRing.AudioRingBuffer.Pop | include/aceps/audio/AudioSystem.h:46-61 | Copies out and removes exactly the oldest frames, touches nothing beyond them, and counts an underrun exactly when there were too few. |
| LruCache.ChunkCache.LookUp | src/filesystem/AsyncFileService.cpp:28-39 | The splice through the index moves exactly the found entry to the front of the recency list, and a miss changes nothing; list and index stay in agreement. |
| LruCache.ChunkCache.Store | src/filesystem/AsyncFileService.cpp:75-88 | Erase, insert and evict leave the recency list with the entry in front, no second entry of its key, and the oldest cut at the capacity; list and index stay in agreement. |
| LruCache.CacheIsRecency | src/filesystem/AsyncFileService.cpp:24-97 | After any history of lookups, racing completions and clears, the cached keys are the distinct touched keys by last touch, cut at the capacity. |
| LruCache.CachedIff | src/filesystem/AsyncFileService.cpp:84-87 | A chunk is cached exactly when it was touched since the last clear and fewer other chunks than the capacity were touched after that. |
| LruCache.ReadExact | src/filesystem/AsyncFileService.cpp:41-74 | A read gives exactly the bytes of the file from the offset on, as many as asked for, if and only if the path stays inside and all of them are there; each error has its exact condition, in the order of the checks. |
| LruCache.HitsAreFileBytes | src/filesystem/AsyncFileService.cpp:28-39 | After any history with unchanging files, a hit answers with the bytes of the file from the asked offset on. |
| LruCache.HitsAreUncached | src/filesystem/AsyncFileService.cpp:41-74 | With unchanging files every cached chunk, and so every hit, is what reading the file would return. |
| MemoryManager.RoundedIsLeast | src/memory/VirtualMemoryManager.cpp:65-68 | A size that can be rounded becomes the least whole number of pages that holds it. |
| MemoryManager.InsertionIsFresh | src/memory/VirtualMemoryManager.cpp:87-89 | In every run, recording a block never meets an existing record, so the insertion takes effect, although its address may just have been unmapped by another thread. |
| MemoryManager.AccountingHolds | src/memory/VirtualMemoryManager.cpp:118-141 | Over all interleavings recorded blocks are whole pages and disjoint, the byte count is exactly the sum of their sizes, and with the lock free no unrecorded block touches them. |
| MemoryManager.ReleaseGivesBack | src/memory/VirtualMemoryManager.cpp:118-141 | In every run a release removes its record and lowers the count by the whole pages of the size asked for. |
| MemoryManager.ApartFit | src/memory/VirtualMemoryManager.cpp:88-89 | Disjoint blocks fit the address space, so the byte count cannot wrap. |
| MemoryManager.VirtualMemoryManager.Allocate | src/memory/VirtualMemoryManager.cpp:70-92 | A block beside all others with the asked protection and nothing else changed, or no change at all. |
| MemoryManager.VirtualMemoryManager.Release | src/memory/VirtualMemoryManager.cpp:118-141 | Removes exactly one whole owned block, and succeeds exactly when the size rounds to the recorded one and the unmapping works. |
| ElfPlan.MaskTest | src/loader/SelfLoader.cpp:101 | The alignment mask test passes exactly for zero and powers of two. |
| ElfPlan.AcceptedIff | src/loader/SelfLoader.cpp:60-125 | An image is accepted exactly when its header is in order, every load header is sound and there is one; the plan's segments are then sound. |
| ElfPlan.CollectExact | src/loader/SelfLoader.cpp:90-117 | The plan holds one segment for each load header, in table order, and collecting fails exactly when one is unsound. |
| ElfPlan.Inspect | src/loader/SelfLoader.cpp:60-125 | The loop returns the plan or the first error, reading only inside the image. |
| ElfLayout.WrittenPlansAreRead | src/loader/SelfLoader.cpp:15-46 | The loader inverts a writer that lays out the header and the program header table of the System V generic ABI field by field: every plan of sound segments is read back as it was written. |
| ElfPlan.SegmentFlags | src/loader/SelfLoader.cpp:111-114 | The lowest three bits of the flag word are the execute, write and read flags, whatever stands above them. |
| ElfMapper.AcceptedPlansFit | src/loader/ElfMapper.cpp:43-58 | For every segment of an accepted plan the mapper's own size checks fail only on a memory size of 0. |
| ElfMapper.ReleaseUndoes | src/loader/ElfMapper.cpp:108-122 | Releasing mappings last to first undoes their allocation exactly. |
| ElfMapper.Mapper.Map | src/loader/ElfMapper.cpp:34-106 | On success every segment holds its file bytes, then zeros; every page of it can be read, can be executed exactly when the segment is executable, and written exactly when it is writable and not executable; and the entry point is the host image of the guest entry in the last executable segment that covers it; on failure the allocation table is what the initial unmapping left, given the releases work. The error names the first failing check, or that nothing executable covers the entry. |
| ElfMapper.Mapper.ReleaseMappings | src/loader/ElfMapper.cpp:108-122 | Whatever releases fail, the mapper forgets its mappings, and the table loses exactly those whose release worked. |
| Modules.TablesConsistent | src/loader/ModuleLoader.cpp:257-303 | Over all histories the two handle tables agree, loaded names are distinct and registered, and each name's exports are those of the image its handle was loaded from. |
| Modules.HandleResolves | src/loader/ModuleLoader.cpp:314-326 | A handle resolves a symbol to the address of the first eligible symbol of that name in its image, at any later time while loaded. |
| ElfSymbols.WrittenSymbolsAreExported | src/loader/ModuleLoader.cpp:78-157 | The export scan inverts a writer of section headers, symbol table and string table by the System V generic ABI: for every list of symbols the exports of the written image are those with a value and a section index, the first of each name, and there are none if one of these has an empty name. |
| ElfSymbols.WrittenSymbolsResolve | src/loader/ModuleLoader.cpp:314-326 | A module loaded from a written image resolves, at any later time while it is loaded and over all histories, each name to the value written for the first symbol of that name that counts, and no other name. |
| ElfExports.ExportsExact | src/loader/ModuleLoader.cpp:78-157 | For every image with a header: there are no exports exactly when the section table, a section with symbols or its strings lie outside the image, or a symbol with a value and a section has an empty name; otherwise a name is exported exactly when some entry has a value, a section and that name before the end of its strings, with the value of the first such entry. |
| Modules.FirstWinsHas | src/loader/ModuleLoader.cpp:151-152 | The exports of a symbol list are exactly its names, each with the address of its first occurrence. |
| Modules.RegisterElfExports | src/loader/ModuleLoader.cpp:78-157 | The scan succeeds exactly when no table is broken and no eligible symbol has an empty name, and the module then has the first-wins exports; other modules are never touched. |
| Modules.HandlesNeverRepeat | src/loader/ModuleLoader.cpp:281 | A later successful load gets a larger handle. |
| Modules.UnloadUndoesLoad | src/loader/ModuleLoader.cpp:289-303 | Unloading what was just loaded restores the registry and all tables; only the counter has moved. |
| Modules.ModuleLoader.LoadModule | src/loader/ModuleLoader.cpp:257-287 | A load either adds exactly one module with its exports or, at whichever step it fails, changes neither registry nor tables. |
| Modules.ModuleLoader.UnloadModule | src/loader/ModuleLoader.cpp:289-303 | Fails only for a handle that is not loaded: the branch for an unknown name in the registry is never taken. |
| Modules.ModuleLoader.RegisterStubModule | src/loader/ModuleLoader.cpp:189-202 | All exports or none, for any list of symbols. |
| Modules.FailedStubs | src/loader/ModuleLoader.cpp:204-230 | After any history, a stub initialisation fails half way if and only if a module of the second stub's name is loaded and the first stub's name is free, and fails without a change if and only if the first name is taken. |
| Modules.NeverInitialisesIff | src/loader/ModuleLoader.cpp:206-226 | After a history no continuation ever gets the stubs initialised if and only if the kernel stub is registered without the flag; otherwise unloading what took the two names helps. |
| Modules.PartialIsFinal | src/loader/ModuleLoader.cpp:204-230 | In any history where it could still have succeeded, a call that fails half way makes all later ones fail. |
| Modules.PartialInitialisationRun | src/loader/ModuleLoader.cpp:204-230 | Such a history: a module that is called like the second stub, from an image the loader accepts, is loaded and then the stubs are initialised. |
| Modules.StubsStayStuck | src/loader/ModuleLoader.cpp:206-226 | A kernel stub registered without the flag stays so through every history. |
| Modules.Registry.RegisterExport | src/loader/ModuleRegistry.cpp:33-50 | Adds an export exactly when the module is known, name and address are valid and the name is new; never replaces one. |
| Pm4.ParseViews | src/gpu/Pm4Parser.cpp:21-53 | The loop returns the packets of the buffer or the first error. |
| Pm4.ParseAppend | src/gpu/Pm4Parser.cpp:26-50 | Behind a buffer that parses, the rest parses as it would alone, errors included. |
| Pm4.WrittenParses | src/gpu/Pm4Parser.cpp:27-49 | Any list of packets with payloads of 1 to 16384 words, written with its headers, parses back to itself. |
| Pm4.ParsedTiles | src/gpu/Pm4Parser.cpp:26-50 | The packets of a buffer account for all of its words. |
| Pm4.SubmissionIsFlat | src/gpu/CommandProcessor.cpp:566-609 | A submission with indirect buffers ends in the state and with the outcome of submitting the buffer with all of them expanded in place; if the expansion does not exist the submission fails. |
| Pm4.JumpDispatches | src/gpu/CommandProcessor.cpp:579-590 | For every address below 2^64 and every buffer that lies there in memory, dispatching the packet with opcode 0x3F and the two halves of the address and the length does what dispatching the packets of the buffer one level deeper does, or gives the buffer's parse error. |
| Pm4.BadJumps | src/gpu/CommandProcessor.cpp:579-587 | A jump without its address, without a length, with length 0 or to address 0 is refused with nothing done. |
| Pm4.DepthLimit | src/gpu/CommandProcessor.cpp:567-570 | Below 32 levels of nesting no packet is dispatched. |
| Pm4.ContextWriteActs | src/gpu/CommandProcessor.cpp:594-599 | A packet with opcode 0x69 gives every register it names the value of the last pair for it, in the register map and in the tracker, keeps all others, and leaves out a last odd word. |
| Pm4.ShaderWriteActs | src/gpu/CommandProcessor.cpp:600-610 | A packet with opcode 0x76 and at least three words records its register and goes to the device; a shorter one does nothing. |
| Pm4.DrawsAct | src/gpu/CommandProcessor.cpp:611-700 | A draw that the device carries out leaves the context clean, one that fails does not and ends the submission; packets that are too short are refused. |
| Pm4.SelfReferenceStops | src/gpu/CommandProcessor.cpp:567-570 | A buffer that begins by jumping to itself is refused by the depth limit with nothing done. |
| Pm4.CommandProcessor.DispatchPacket | src/gpu/CommandProcessor.cpp:566-609 | The recursion terminates on any memory, by depth left and then packets left, and does what the dispatch function says. |
| Pm4.CommandProcessor.Submit | src/gpu/CommandProcessor.cpp:510-518 | Parsing first, then dispatch in order up to the first error, with the state reached by then kept. |
| ContextTracker.IncrementalIsBatch | src/gpu/ContextTracker.cpp:86-120 | After any writes, every unit is untouched or decoded from the final registers; only the size of viewport 0 also depends on the last scissor written after it. |
| ContextTracker.HistoryIsIrrelevant | src/gpu/ContextTracker.cpp:59-120 | Without scissor writes, two write sequences over the same units that end with the same registers end with the same state. |
| ContextTracker.RegistersAfter | src/gpu/ContextTracker.cpp:86-89 | A register holds the value last written to it. |
| ContextTracker.ColorUnpacks | src/gpu/ContextTracker.cpp:59-71 | A colour target's address, pitch, extent and format, packed into registers 0xA318 to 0xA31C with any bits around them, are what decoding finds, the format by a table of codes; the integer format is never found. |
| ContextTracker.DepthUnpacks | src/gpu/ContextTracker.cpp:94-101 | Depth test, write and comparison, the stencil flag and the address packed into registers 0xA010 to 0xA012 are what decoding finds, and the format tells whether its low bits are all clear. |
| ContextTracker.ScissorActs | src/gpu/ContextTracker.cpp:114-119 | A scissor write of a packed size replaces width and height of viewport 0, each unless it is zero, and nothing else. |
| ContextTracker.BlendUnpacks | src/gpu/ContextTracker.cpp:102-113 | From a packed blend control each factor is decoded as packed exactly when the field to its left is even, and as One otherwise; each operation exactly when nothing is set to its left. |
| ContextTracker.TransparencyIsLost | src/gpu/ContextTracker.cpp:34-52 | Source alpha with one minus source alpha is decoded with source factor One. |
| ContextTracker.ViewportUnpacks | src/gpu/ContextTracker.cpp:73-84 | Each viewport is made of its six registers from 0xA2A1 on: size, corner and depth range, in which a far end of zero becomes 1. |
| ContextTracker.ColorOpExact | src/gpu/ContextTracker.cpp:54-57 | The colour operation of a blend control is found exactly when no higher bit of the control is set. |
| ContextTracker.RegisterTracker.SetContext | src/gpu/ContextTracker.cpp:86-120 | The in-place write and decode of one unit is the write function of the theorems. |
| Config.RoundTripIff | src/config/ApplicationConfig.cpp:86-153 | Valid settings load back from their saved text unchanged if and only if no path contains a newline. |
| Config.ReloadIsStable | src/config/ApplicationConfig.cpp:110-153 | For any accepted text, saving its settings and loading them gives the same settings. |
| Config.PathsAlone | include/aceps/config/ApplicationConfig.h:17-31 | A file with only the three paths loads with the default of every other setting. |
| Config.FlagLines | src/config/ApplicationConfig.cpp:16-26 | A line of a flag sets that flag and nothing else for true, 1, false and 0, and is refused for anything else. |
| Config.IgnoredLine | src/config/ApplicationConfig.cpp:122 | Comments and empty lines can stand anywhere. |
| Config.NumberRead | src/config/ApplicationConfig.cpp:135 | A number is read behind white space and a sign up to the first character that is no digit, a minus negates modulo 2^64, and only numbers from 2^64 on are refused. |
| Config.ScaleWraps | src/config/ApplicationConfig.cpp:135 | The scale that a line sets is its number modulo 2^32, or the negated number modulo 2^32. |
| Config.SavesIff | src/config/ApplicationConfig.cpp:73-87 | Settings are saved exactly when the scale is from 1 to 4 and no path is empty. |
| Config.Load | src/config/ApplicationConfig.cpp:120-152 | The line loop returns the settings or the first error that reading the lines in order defines. |
| Config.Save | src/config/ApplicationConfig.cpp:86-108 | Writes the nine entries in order, and nothing for invalid settings. |

## Left out

- TranslationPreservesMeaning: states meaning with operations as a parameter, every scalar a 32-bit word and types ignored, so it says nothing about floating point or about the standard's typing and layout rules.
- ModuleIsWellFormed: covers bytecode below 2^28 - 2 words; beyond that the 32-bit id counter can wrap.
- InstructionTranslates: the branches for a program end and for a vector comparison are modelled as the code has them, but no decoded program takes them; control flow of the real processor is not modelled, nor is the content of the uniform buffer.
- EntryPointIsMainIff: of the standard's rules on mode instructions only the order of the operands of an entry point and the end of a literal string are modelled.
- ParseRoundTrip: instructions are limited to the lengths a half-word can hold, which all emitted ones have.
- UninstallRestoresIff: the protection changes of the undo itself are taken to succeed; RestorePatchedSites covers those that fail. The request sequences record at most 65536 sites, as those of PatchingIsLocal; FullLogExact says what a request beyond that does.
- TrapTable: the class runs each loop without interference, and the step system is what covers concurrent threads; that the worker stops appears as a path without its steps; the wake pipe, polling and the forwarding of foreign signals are not modelled, and memory is sequentially consistent.
- Scheduler: waiting and notifying exist only in the step system; the mutex appears as the atomicity of each critical section, and tasks are assumed to end.
- GpuQueue: fences are unbounded, so the wrap of the 64-bit counter is not modelled; an empty command is refused before anything happens and is not a step.
- AudioRing: channel counts above 2 are excluded, as the storage holds two samples a frame; the underrun counter does not wrap; null and empty calls are not steps. The port manager around the ring is not modelled.
- LruCache: the list is a sequence of node names, so pointers between nodes and their order of allocation are not modelled; path normalisation and read errors of the file system are not either.
- HitsAreUncached: files do not change; with changing files a hit returns what was read first.
- MemoryManager: one mapping of an anonymous block succeeds or fails as a whole; the destructor and the Windows calls are left out.
- Map: runs without interference from other users of the memory manager; a failed release leaves its block in the table, about which nothing is promised.
- Inspect: the unsigned mask is modelled by a bitwise conjunction on naturals.
- LoadModule: the mapper's effect on memory is a success flag here, ElfMapper models it; unloading does not show the release of the mapped memory. Error texts are not modelled.
- HandlesNeverRepeat: the handle counter is unbounded.
- DispatchPacket: draws, compute dispatches, shader translation and cache invalidation are one parameter, and guest memory does not change during a submission; beginning a frame is left out.
- RegisterTracker: colour targets 1 to 7 and the fields of the depth target that nothing writes are left out.
- Load: reads text, not a file, so failures to open or write a file are left out; characters are not decoded.
- Vulkan objects, the pipeline and texture caches, presentation, audio backends, the virtual file system, package loading, the GUI, logging and the kernel's host calls are not part of this model.
