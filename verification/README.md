# Verified core of the Edgine kernel

This project models the parts of the kernel whose correctness rests on an
argument longer than one function, and proves those arguments in Dafny 4.11.
`dafny verify dfyconfig.toml` checks everything.

**Device tree** (`Dtb*.dfy`). `DtbFormat` reads and writes words, cells and
NUL-separated lists. `DtbEvents` gives begin/end/property events their meaning
as state changes and proves what every run of them keeps. `DtbParser` specifies
parsing as lexing followed by folding; `DtbLoop` is the stateful parser, proved
to compute that specification on every byte string. `DtbPrinter` is the blob
builder of the test module with the proof that parser and printer are inverse;
`DtbBoard` derives what single device nodes and the whole test board yield, for
all addresses. The format is that of sections 5.2 and 5.4 to 5.6 of the
Devicetree Specification v0.4.

**eBPF** (`Bpf*.dfy`). `BpfIsa` is the interpreter's step, `BpfVerifier` the
one-pass verifier (the array-updating loop and the transfer function it
implements), `BpfSoundness` the simulation between the two for programs without
jumps, `BpfJumps` the one for programs whose jumps agree with the text, `BpfFlow`
the condition under which accepted programs terminate, `BpfReads` the one under
which they use unwritten registers or assign the frame pointer, and `BpfLimits`
the exact condition for soundness with the accepted programs that fail it.
`BpfRules` reads acceptance off the program text, without the verifier's running
state; `BpfAlu` says what the interpreter's operations compute.

**Ownership** (`KernelHeap`, `IoMem`, `Frames`, `Dma`). The tagged allocator,
the MMIO alias registry and its handles, counted page frames with their leaf
mappings, and the DMA sync automaton: each has its operations in place, as
functions of the state, and invariants over whole histories.

**Tables and text** (`Decimal`, `Sysctl`, `SysctlTable`, `Render`,
`RenderFields`). Decimal
writing and parsing, the 32-slot table as a bounded map, and renderers that
equal the unbounded text cut to the buffer.

**Fault recovery** (`FaultTier`, `Cascade`). The failure-tier ladder and the
domain topology with its recovery queue.

Conventions: `usize` is 64 bits; fixed-width integers are ranges of `int` with
wrap-around, saturation or checked arithmetic written out. `&str` and `[u8]`
text is a sequence of characters, one per byte. Locks are not modelled:
protected operations are single steps. `hide` statements only withhold
definitions from individual proofs.

## Findings

Where the code does not do what its comments or names promise, the model
follows the code and a lemma shows the case.

- `device_type` is compared without its NUL, so a terminated value never marks a
  memory node (`DtbBoard.TerminatedDeviceTypeIgnored`); `DtbBoard.DeviceTypeIff`
  says which value does. The depths of `/cpus` and `/psci` are remembered after
  they close, so a cpu node, an `#address-cells` or a `method` under any other node
  of the root acts as if it stood there (`DtbBoard.StrayCpuListed`,
  `StrayCellsUsed`, `StrayMethodTaken`); `DtbEvents.CpuListedIff`,
  `DtbBoard.CpuCellsSetIff` and `DtbBoard.MethodSetsIff` give the exact conditions.
- The verifier's rule against infinite loops only limits the number of strictly
  backward jumps: a jump to itself and a single backward jump are accepted and run
  forever (`BpfFlow.SelfLoopAccepted`, `BpfFlow.BackLoopAccepted`).
  `BpfFlow.RunsForeverIff` says exactly which accepted programs have unbounded runs
  when conditional jumps may go either way.
- Four things break the register tracking: a 32-bit move of a negative number or
  of more than 32 bits (`BpfLimits.NarrowMoveMistracked`, `NarrowPointerLoads`), a
  32-bit operation on an unwritten register (`NarrowAddReadsUnwritten`), a load
  that delivers nothing because the interpreter does not know its opcode or its
  address is null (`EmptyLoadReadsUnwritten`, `NullLoadReadsUnwritten`), and a call
  while R0 is tracked or whose helper looks at an unwritten register
  (`CallResultMistracked`, `TraceCallReadsUnwritten`; `HelperArgsIff`). For programs
  without jumps `BpfLimits.SoundIff` shows, for any entry pointers, that there is no
  other, memory and helpers returning any value.
- With jumps, a write that is jumped over counts as done
  (`BpfLimits.SkippedWriteReadsUnwritten`), and EXIT may return an unwritten R0
  (`BareExitReturnsUnwritten`). `BpfReads.UnwrittenUseIff` says exactly which accepted
  programs use an unwritten register, loads from null aside; `BpfJumps.JumpsSound` gives a condition on the
  jumps that suffices for the tracked values.
- The rule that R10 is read-only looks at stores only (`BpfReads.FrameMoveAccepted`);
  `BpfReads.FrameRuleIff` says which programs keep it. Accesses through the context
  pointer have no bound (`BpfReads.ContextAccessAccepted`).
- The stack rule checks where a load starts, not where it ends, and not stores at
  all (`BpfLimits.LoadPastStack`, `StoreAnywhereAccepted`);
  `BpfLimits.StackAccessIff` says which accesses stay inside.
- `alloc` turns page exhaustion into a non-null pointer that no allocator gave it
  (`KernelHeap.ExhaustionIsNotReported`). `KernelHeap.HistoriesKeepIff`: the heap
  is sound throughout a history exactly when memory never ran out in it.
- `IoMem::new` leaves a region registered when its translation is null
  (`IoMem.NullTranslationLeaks`); `IoMem.LeakStepIff` and `IoMem.LeakedIff` say
  exactly when. The address in question is reached by wrapping, so only in builds
  without overflow checks. The saturating bounds check accepts anything for a
  region of the largest length (`IoMem.WholeSpaceHandle`);
  `IoMem.CheckOffsetExact` gives the exact condition.
- `map` ignores a refused count and checks neither alignment nor occupancy: the
  256th holder is not counted (`Frames.SaturatedMapIsUncounted`), and mapping again
  within one virtual page counts one entry twice (`Frames.RemapCountsTwice`).
  `protect` of an address that was never mapped, documented as skipped, maps
  physical page zero (`Frames.ProtectInventsEntry`); `Frames.ProtectSkipsIff` and
  `Frames.ProtectIdleIff` say exactly when it is skipped. For the counters
  `Frames.MapKeepsIff`, `Frames.ProtectKeepsIff` and, over runs,
  `Frames.HistoriesKeepIff` are exact.
- A frame of order 64 or more has, in builds without overflow checks, the size of
  the order modulo 64 (`Dma.CheckedSizeIff`).
- The configuration report prints `0x` before decimal digits; `Decimal.HexPrefixIff`
  says when that names the value.
- The number of dependents, documented as raising the tier, never changes it
  (`FaultTier.DependentsIgnored`).
- Writing a boolean reports one byte even into an empty buffer
  (`Sysctl.WriteBool`).
- A domain registered as its own parent is queued twice
  (`Cascade.OwnParentQueuedTwice`), unless it is the last of 16 that all name it
  and falls off the queue; `Cascade.QueueDistinctIff` and `Cascade.QueueLengthIff`
  are exact. Isolation, documented as recovering the dependents only, queues nothing
  (`Cascade.OtherFaults`, `Cascade.IsolationRecoversIff`). The bottom-up queue, documented as children first, puts the failed
  domain first (`Cascade.BottomUpIsTopDown`).

## Model

| member | source | states |
|---|---|---|
| DtbFormat.ReadBe32Printed | src/kernel/privileged/dtb.rs:431-435 | reading a big-endian word that was printed returns it modulo 2^32 |
| DtbFormat.CstrListContainsIff | src/kernel/privileged/dtb.rs:464-477 | the list scan is true exactly when some NUL-delimited entry is the needle |
| DtbFormat.NodeNameIff | src/kernel/privileged/dtb.rs:480-486 | a node name matches exactly when all of it before the first @ is the target |
| DtbFormat.ScanCstrList | src/kernel/privileged/dtb.rs:464-477 | the loop over the rest of the list decides that same membership |
| DtbFormat.ReadCells | src/kernel/privileged/dtb.rs:489-497 | the shifting loop returns the cells' value, or nothing as soon as one cell is out of range |
| DtbFormat.ReadBeCellsPrinted | src/kernel/privileged/dtb.rs:489-497 | printed cells read back as the number they can hold, reduced to 64 bits |
| DtbFormat.ReadBeCellsDefined | src/kernel/privileged/dtb.rs:489-497 | a cell read succeeds exactly when all its bytes are inside the buffer |
| DtbFormat.DecodeRegPrinted | src/kernel/privileged/dtb.rs:502-512 | for any printed entry list and any index, decoding gives that entry modulo 2^64, and nothing past the end |
| DtbFormat.HeldExact | src/kernel/privileged/dtb.rs:489-512 | a u64 survives encoding unchanged exactly when it has two cells or fits one |
| DtbFormat.DecodeRegDownward | src/kernel/privileged/dtb.rs:502-512 | success at one index implies success at every smaller index |
| DtbFormat.DecodeRegIff | src/kernel/privileged/dtb.rs:502-512 | an entry decodes exactly when both widths are one to four cells and its bytes are there |
| DtbEvents.NopsChangeNothing | src/kernel/privileged/dtb.rs:238-248 | NOP events anywhere leave every fold unchanged |
| DtbEvents.ApplyKeeps | src/kernel/privileged/dtb.rs:290-427 | each event keeps the bounds, moves the depth by begins minus ends, and revises nothing already found |
| DtbEvents.RunsKeep | src/kernel/privileged/dtb.rs:238-427 | over every accepted event list: depth is begins minus ends and at most 16, at most 8 CPUs, discovered resources frozen |
| DtbEvents.DiscoveredOnce | src/kernel/privileged/dtb.rs:360-427 | between any two points of one parse the UART, GIC pair, PSCI method, non-empty memory range and CPU prefix do not change |
| DtbEvents.NestingIff | src/kernel/privileged/dtb.rs:290-293 | nodes nest to a depth of sixteen and no further |
| DtbEvents.OutsideRejected | src/kernel/privileged/dtb.rs:314-317 | outside every node an end or a property is rejected |
| DtbEvents.MemoryFromOneEntry | src/kernel/privileged/dtb.rs:400-408 | the reported memory base and size are unset or come together from entry 0 of one closed node |
| DtbEvents.DepthsAre | src/kernel/privileged/dtb.rs:296-302 | the remembered depths say exactly that a root cpus or psci node began earlier, open or not |
| DtbEvents.CpuListedIff | src/kernel/privileged/dtb.rs:385-398 | a closing node is listed as a CPU exactly when a root cpus node began earlier, two nodes stay open, it is named cpu and fewer than 8 are listed |
| DtbParser.ParseIsMeaningOfTokens | src/kernel/privileged/dtb.rs:108-111 | on every byte string parsing equals the meaning of its token sequence, and malformed bytes have none |
| DtbParser.ParseInvariants | src/kernel/privileged/dtb.rs:238-322 | every prefix of an accepted blob's events is accepted, depth-counted, bounded and never revised |
| DtbParser.HeaderIff | src/kernel/privileged/dtb.rs:188-235 | a header is taken exactly when whole, with the magic number, and with its size and both blocks inside the blob |
| DtbParser.HeaderPrefixIff | src/kernel/privileged/dtb.rs:117-126 | which prefixes declare a size, and which |
| DtbParser.BadTokenRejects | src/kernel/privileged/dtb.rs:238-247 | a cut-off or unknown token rejects the blob whatever came before |
| DtbParser.ParseIgnoresTrailingBytes | src/kernel/privileged/dtb.rs:188-235 | blobs that agree on the declared size parse alike |
| DtbParser.ParseOfPrefix | src/kernel/privileged/dtb.rs:117-126 | cutting a blob to the size its header prefix declares does not change the result |
| DtbPrinter.TokensOfPrinted | src/kernel/privileged/dtb.rs:519-603 | lexing a printed blob returns exactly the printed events |
| DtbPrinter.ParsePrinted | src/kernel/privileged/dtb.rs:579-602 | parsing a printed blob equals folding its events, accepted or rejected alike |
| DtbPrinter.ParseIgnoresNops | src/kernel/privileged/dtb.rs:238-248 | a printed blob parses the same with all its NOP tokens removed |
| DtbPrinter.PrintedHeader | src/kernel/privileged/dtb.rs:188-235 | the printed header decodes to the printed blocks, and its prefix to the blob's length |
| DtbPrinter.BlobBuilder.PadBlock | src/kernel/privileged/dtb.rs:541-543 | the padding loop appends zeros up to the next multiple of four and nothing else |
| DtbPrinter.BlobBuilder.BeginNode | src/kernel/privileged/dtb.rs:537-544 | appends exactly one begin event to what the builder holds |
| DtbPrinter.BlobBuilder.AddProp | src/kernel/privileged/dtb.rs:550-564 | appends exactly one property event, its name to the strings and its offset to the block |
| DtbPrinter.BlobBuilder.Finish | src/kernel/privileged/dtb.rs:579-602 | yields the blob of the calls made, whose parse is their meaning |
| DtbLoop.Parse | src/kernel/privileged/dtb.rs:108-111 | the stateful parser terminates on every byte string and returns the specified result |
| DtbLoop.Parser.Run | src/kernel/privileged/dtb.rs:238-257 | the token loop, with the unread structure bytes as measure, computes the specified run |
| DtbLoop.Parser.ReadStructU32 | src/kernel/privileged/dtb.rs:260-268 | reads one word inside the structure block and moves the cursor, or moves nothing |
| DtbLoop.Parser.ReadCstrStruct | src/kernel/privileged/dtb.rs:271-287 | finds the first NUL in the block and aligns the cursor past it |
| DtbLoop.Parser.BeginNode | src/kernel/privileged/dtb.rs:290-311 | succeeds and changes the open stack exactly as the begin effect |
| DtbLoop.Parser.EndNode | src/kernel/privileged/dtb.rs:314-322 | pops and records exactly as the end effect |
| DtbLoop.Parser.ReadProperty | src/kernel/privileged/dtb.rs:325-378 | reads a property and applies exactly the property effect |
| DtbLoop.Parser.RecordNode | src/kernel/privileged/dtb.rs:381-427 | records a node in place exactly as specified |
| DtbBoard.DeviceNode | src/kernel/privileged/dtb.rs:290-378 | opening, describing and closing a device node records exactly that node |
| DtbBoard.MemoryNode | src/kernel/privileged/dtb.rs:400-408 | a memory node yields the base and size of its first printed entry, if any, and changes nothing else |
| DtbBoard.UartNode | src/kernel/privileged/dtb.rs:410-415 | the first pl011 node yields the base of its first printed entry, if any, and changes nothing else |
| DtbBoard.GicNode | src/kernel/privileged/dtb.rs:417-426 | the first GICv3 node yields the bases of its first and second printed entries, as far as it has them, and changes nothing else |
| DtbBoard.PsciNode | src/kernel/privileged/dtb.rs:360-366 | the root's psci node yields the conduit its method names, unless one is known |
| DtbBoard.ConduitIff | src/kernel/privileged/dtb.rs:452-462 | which method values name a conduit, and which |
| DtbBoard.CpuNode | src/kernel/privileged/dtb.rs:385-398 | a cpu node at the right depth appends the first declared cells of its reg, or its index if none are declared |
| DtbBoard.CpuNodeShort | src/kernel/privileged/dtb.rs:390-394 | a reg shorter than the declared cells gives the CPU its index |
| DtbBoard.StrayCpuListed | src/kernel/privileged/dtb.rs:296-299 | a cpu node under another root child, after /cpus has closed, is reported as a CPU of the board |
| DtbBoard.StrayCellsUsed | src/kernel/privileged/dtb.rs:354-358 | an #address-cells on that other child replaces the width /cpus declared |
| DtbBoard.CpuCellsSetIff | src/kernel/privileged/dtb.rs:354-358 | below the root, #address-cells sets the CPU width exactly when a root cpus node began earlier and two nodes are open |
| DtbBoard.StrayMethodTaken | src/kernel/privileged/dtb.rs:300-302 | a method on another root child, after /psci has closed, sets the board's conduit |
| DtbBoard.MethodSetsIff | src/kernel/privileged/dtb.rs:360-366 | a method sets the conduit exactly when a root psci node began earlier, two nodes are open and none is known |
| DtbBoard.DeviceTypeIff | src/kernel/privileged/dtb.rs:400-408 | on a node not named memory, device_type sets the range exactly when its value is the bare word and entry 0 decodes |
| DtbBoard.TerminatedDeviceTypeIgnored | src/kernel/privileged/dtb.rs:400-402 | a NUL-terminated device_type never makes a node a memory node |
| DtbBoard.RootOpens | src/kernel/privileged/dtb.rs:343-352 | the root's two cell properties set the address and the size width, each its own |
| DtbBoard.BoardParses | src/kernel/privileged/dtb.rs:606-648 | the test board parses to its own numbers as its widths hold them, for all widths, addresses and conduits |
| DtbBoard.BoardParsesExactly | src/kernel/privileged/dtb.rs:606-648 | and unchanged when they fit their widths |
| BpfVerifier.Verify | src/kernel/functions/debug/ebpf_verifier.rs:198-493 | the in-place pass accepts exactly the programs whose every instruction passes the transfer function |
| BpfVerifier.VisitInsn | src/kernel/functions/debug/ebpf_verifier.rs:234-489 | the loop body computes the transfer function on the register array |
| BpfVerifier.VisitJump | src/kernel/functions/debug/ebpf_verifier.rs:260-347 | jump, call and exit checks, with the path depth and R1 update |
| BpfVerifier.VisitAlu | src/kernel/functions/debug/ebpf_verifier.rs:350-405 | ALU checks and the new state of the destination |
| BpfVerifier.ArgsInitialised | src/kernel/functions/debug/ebpf_verifier.rs:300-310 | the argument loop succeeds exactly when R1 to Rn are initialised |
| BpfRules.PassIff | src/kernel/functions/debug/ebpf_verifier.rs:228-489 | the pass gets past n instructions exactly when each keeps the rules, and its state is the last-writer analysis of the text |
| BpfRules.AcceptedIff | src/kernel/functions/debug/ebpf_verifier.rs:198-493 | acceptance stated over the text alone: sizes, EXIT, and every rule on jumps, calls, ALU operations, loads and stores |
| BpfRules.AcceptedCalls | src/kernel/functions/debug/ebpf_verifier.rs:282-287 | accepted programs call the six known helpers only |
| BpfRules.CallProgramIff | src/kernel/functions/debug/ebpf_verifier.rs:139-146 | with R1 to Rn written, exactly which helpers may be called |
| BpfAlu.LogicMeaning | src/kernel/privileged/debug/ebpf.rs:739-751 | AND, OR and XOR by the laws that determine them |
| BpfAlu.ArithmeticMeaning | src/kernel/privileged/debug/ebpf.rs:729-752 | sums, differences, products and negation up to multiples of 2^64 |
| BpfAlu.DivisionMeaning | src/kernel/privileged/debug/ebpf.rs:732-750 | quotient and remainder belong together, and are zero for a zero divisor |
| BpfAlu.ShiftMeaning | src/kernel/privileged/debug/ebpf.rs:741-742 | shifts as division and product by the power the low six bits name |
| BpfAlu.ArithmeticShiftMeaning | src/kernel/privileged/debug/ebpf.rs:753-760 | arithmetic shifts divide the signed value, rounding down |
| BpfAlu.ConversionMeaning | src/kernel/privileged/debug/ebpf.rs:761-769 | a conversion keeps the low bits its immediate names |
| BpfAlu.WideImmediateMeaning | src/kernel/privileged/debug/ebpf.rs:784-793 | a wide immediate is its two fields, the other register loads zero |
| BpfSoundness.PcStaysInside | src/kernel/functions/debug/ebpf_verifier.rs:259-329 | in every run of an accepted program the program counter stays in range until EXIT |
| BpfSoundness.FewBackJumps | src/kernel/functions/debug/ebpf_verifier.rs:271-279 | at most eight instructions of an accepted program jump strictly backward |
| BpfSoundness.DepthCountsBackJumps | src/kernel/functions/debug/ebpf_verifier.rs:321-328 | the path depth is the number of strictly backward jumps so far |
| BpfSoundness.CheckedRangeIsValue | src/kernel/functions/debug/ebpf_verifier.rs:153-184 | a tracked constant result is the value the interpreter computes, and the operation does not wrap |
| BpfSoundness.NarrowValue | src/kernel/functions/debug/ebpf_verifier.rs:361-403 | a 32-bit operation that meets the condition leaves the value the verifier records |
| BpfSoundness.LoadTracked | src/kernel/privileged/debug/ebpf.rs:780-828 | in a described state the load condition holds exactly when the load writes its register or finds it written |
| BpfSoundness.CallStep | src/kernel/functions/debug/ebpf_verifier.rs:280-311 | a call with an untracked R0 keeps concrete and abstract state related |
| BpfSoundness.StepKeeps | src/kernel/privileged/debug/ebpf.rs:663-707 | one interpreter step and one transfer keep concrete and abstract state related |
| BpfSoundness.SafeInsn | src/kernel/functions/debug/ebpf_verifier.rs:407-489 | a passed instruction reads written registers, loads and stores through the entry pointers, and does not wrap constants |
| BpfSoundness.VerifierSound | src/kernel/functions/debug/ebpf_verifier.rs:198-493 | along every run of an accepted jump-free program whose instructions are tracked, each state is described and each instruction safe |
| BpfLimits.SoundIff | src/kernel/functions/debug/ebpf_verifier.rs:198-493 | for accepted jump-free programs and any entry pointers, soundness in all runs holds exactly when every instruction up to the first EXIT is tracked |
| BpfLimits.UntrackedBreaks | src/kernel/functions/debug/ebpf_verifier.rs:361-458 | each reached instruction that is not tracked breaks soundness in some run from the same entry pointers |
| BpfLimits.StackAccessIff | src/kernel/functions/debug/ebpf_verifier.rs:426-440 | exactly which loads and stores through the stack pointer stay in the 512 bytes |
| BpfLimits.LoadPastStack | src/kernel/functions/debug/ebpf_verifier.rs:427-431 | a load at offset zero is accepted and reads past the stack |
| BpfLimits.StoreAnywhereAccepted | src/kernel/functions/debug/ebpf_verifier.rs:468-472 | a store through a copy of R10 is accepted at every offset |
| BpfLimits.NarrowMoveMistracked | src/kernel/functions/debug/ebpf_verifier.rs:371-374 | a 32-bit move of -1 is tracked as a value the interpreter does not produce |
| BpfLimits.NarrowPointerLoads | src/kernel/functions/debug/ebpf_verifier.rs:370-370 | a 32-bit move of the context pointer is accepted as a load base although it equals neither entry pointer |
| BpfLimits.NarrowAddReadsUnwritten | src/kernel/functions/debug/ebpf_verifier.rs:400-403 | a 32-bit register operation may read an unwritten register |
| BpfLimits.EmptyLoadReadsUnwritten | src/kernel/privileged/debug/ebpf.rs:780-828 | a load opcode without an effect is accepted as a write |
| BpfLimits.NullLoadReadsUnwritten | src/kernel/privileged/debug/ebpf.rs:796-804 | for every offset some context address makes an accepted load write nothing |
| BpfLimits.TraceCallReadsUnwritten | src/kernel/functions/debug/ebpf_verifier.rs:139-146 | the trace helper may be called with the registers it looks at unwritten |
| BpfLimits.HelperArgsIff | src/kernel/functions/debug/ebpf_verifier.rs:139-146 | the registers the verifier asks for cover what the helper looks at exactly for the other helpers |
| BpfLimits.SkippedWriteReadsUnwritten | src/kernel/functions/debug/ebpf_verifier.rs:228-232 | a write that is jumped over still counts as done |
| BpfLimits.CallResultMistracked | src/kernel/functions/debug/ebpf_verifier.rs:280-311 | a call changes R0 under a constant the verifier still believes |
| BpfLimits.BareExitReturnsUnwritten | src/kernel/privileged/debug/ebpf.rs:706-707 | EXIT may return an R0 nothing wrote |
| BpfLimits.ExitResultWritten | src/kernel/privileged/debug/ebpf.rs:706-707 | where soundness holds, R0 is written exactly when the verifier's state says so or a helper returned |
| BpfJumps.JumpsSound | src/kernel/functions/debug/ebpf_verifier.rs:228-347 | with jumps, soundness holds in every run if each jump lands where the verifier assumes no more than it knew at the jump |
| BpfReads.RunWrites | src/kernel/privileged/debug/ebpf.rs:663-707 | along any run the written registers are those the path writes, up to loads from null |
| BpfReads.UnwrittenUseIff | src/kernel/functions/debug/ebpf_verifier.rs:228-493 | a path that reads ahead of its writes gives a run that uses an unwritten register, and unless a run loads from null there is no other way |
| BpfReads.UnwrittenUseExact | src/kernel/functions/debug/ebpf_verifier.rs:228-493 | for programs that read no memory, some run uses an unwritten register exactly when some path reads ahead of its writes |
| BpfReads.RunsToIff | src/kernel/privileged/debug/ebpf.rs:663-707 | runs get exactly to the instructions that paths get to |
| BpfReads.FrameRuleIff | src/kernel/functions/debug/ebpf_verifier.rs:243-255 | runs assign R10 exactly when a reachable instruction names it as destination; otherwise it is the frame pointer throughout |
| BpfReads.FrameMoveAccepted | src/kernel/functions/debug/ebpf_verifier.rs:243-255 | a move into R10 is accepted |
| BpfReads.ContextAccessAccepted | src/kernel/functions/debug/ebpf_verifier.rs:441-472 | loads and stores through the context pointer are accepted at every offset |
| BpfFlow.RunsForeverIff | src/kernel/functions/debug/ebpf_verifier.rs:271-279 | an accepted program has runs of every length exactly when an instruction reachable from the first can reach itself; else no run is longer than the program |
| BpfFlow.BranchesOf | src/kernel/privileged/debug/ebpf.rs:962-994 | a jump may be taken on the eleven known conditions and falls through on any other |
| BpfFlow.ForwardTerminates | src/kernel/functions/debug/ebpf_verifier.rs:271-279 | if all jumps go forward every run ends within the program's length |
| BpfFlow.SelfLoopAccepted | src/kernel/functions/debug/ebpf_verifier.rs:271-279 | a jump to itself is accepted and has runs of every length |
| BpfFlow.BackLoopAccepted | src/kernel/functions/debug/ebpf_verifier.rs:271-279 | one strictly backward jump is accepted and has runs of every length |
| KernelHeap.RouteIsOrigin | src/kernel/memory_allocator.rs:78-115 | a live block freed with its own layout goes back to the allocator, base and page count it came from |
| KernelHeap.AllocKeeps | src/kernel/memory_allocator.rs:28-72 | a supplied allocation returns a fresh pointer and keeps the heap invariant |
| KernelHeap.AllocOrigin | src/kernel/memory_allocator.rs:28-72 | where each size comes from, with which pointer, tag room and page count |
| KernelHeap.DeallocIsInverse | src/kernel/memory_allocator.rs:78-115 | freeing removes the client block and exactly its backing block |
| KernelHeap.DeallocKeeps | src/kernel/memory_allocator.rs:78-115 | freeing keeps the invariant: nothing leaked, shared or overlapping |
| KernelHeap.WritesKeep | src/kernel/memory_allocator.rs:34-40 | writes inside live blocks never reach a tag |
| KernelHeap.HistoriesKeep | src/kernel/memory_allocator.rs:27-116 | the invariant holds after every history of supplied allocations, frees and client writes |
| KernelHeap.HistoriesKeepIff | src/kernel/memory_allocator.rs:27-116 | over every history, memory running out included, the heap is sound throughout exactly when every allocation was supplied |
| KernelHeap.FreesAreRoutedHome | src/kernel/memory_allocator.rs:84-113 | over every history in which memory did not run out each free is routed home and the unknown and multi-page tags never occur |
| KernelHeap.ClientBlocksApart | src/kernel/memory_allocator.rs:28-72 | live client blocks never overlap |
| KernelHeap.AllocKeepsIff | src/kernel/memory_allocator.rs:28-72 | whatever the allocators answer the pointer is non-null, and it is a fresh block of a sound heap exactly when the consulted answer was not null |
| KernelHeap.ExhaustionIsNotReported | src/kernel/memory_allocator.rs:50-70 | a null answer of the page allocator becomes a pointer that nothing backs |
| KernelHeap.KernelAllocator.Alloc | src/kernel/memory_allocator.rs:28-72 | the allocator's state and pointer for any answers, sound and fresh exactly when supplied |
| KernelHeap.KernelAllocator.AllocPages | src/kernel/memory_allocator.rs:43-70 | the page path of an allocation |
| KernelHeap.KernelAllocator.Dealloc | src/kernel/memory_allocator.rs:78-115 | frees only blocks that are still held, and removes exactly one |
| KernelHeap.KernelAllocator.FreeTagged | src/kernel/memory_allocator.rs:85-104 | a small block goes back by its tag; the multi-page and unknown arms are dead |
| KernelHeap.KernelAllocator.FreeUntagged | src/kernel/memory_allocator.rs:105-113 | a large block goes back with its page count |
| IoMem.ConflictIsOverlap | src/kernel/privileged/iomem.rs:43-55 | the conflict test is overlap for regions that do not wrap |
| IoMem.DropRemovesOwn | src/kernel/privileged/iomem.rs:509-514 | dropping a handle removes exactly its own region |
| IoMem.NewKeeps | src/kernel/privileged/iomem.rs:125-160 | creating a handle, whatever the outcome, keeps the registry exclusive |
| IoMem.CreateIff | src/kernel/privileged/iomem.rs:125-160 | exactly which creations succeed, and the handle they give |
| IoMem.CreateRefusals | src/kernel/privileged/iomem.rs:125-160 | which error the others report, and which of them leaves the registry changed |
| IoMem.HandleAddress | src/kernel/privileged/iomem.rs:151-159 | below the wrap a handle's address is the direct-map address of its base |
| IoMem.HistoriesKeep | src/kernel/privileged/iomem.rs:125-160 | after every history the registry is the live regions plus those lost to a null translation |
| IoMem.RegistryIsLiveSet | src/kernel/privileged/iomem.rs:43-85 | live regions are disjoint and do not wrap, and the registry is their set exactly as long as nothing leaked |
| IoMem.NullTranslationLeaks | src/kernel/privileged/iomem.rs:144-152 | a null translation leaves its region registered |
| IoMem.LeakStepIff | src/kernel/privileged/iomem.rs:125-160 | a step loses a region exactly when it creates a well-formed, unclaimed one at the address with the null translation |
| IoMem.LeakedIff | src/kernel/privileged/iomem.rs:125-160 | over every history something is lost exactly when such a creation occurred |
| IoMem.CheckOffsetExact | src/kernel/privileged/iomem.rs:316-321 | the bounds check is exact for all accesses exactly when the length is not the largest |
| IoMem.WholeSpaceHandle | src/kernel/privileged/iomem.rs:125-160 | a base-zero handle of the largest length is accepted and checks nothing |
| IoMem.DeviceHandlesExact | src/kernel/privileged/iomem.rs:173-224 | handles made for devices are checked exactly |
| IoMem.AccessLands | src/kernel/privileged/iomem.rs:316-321 | every byte of a checked access is the translation of a byte of the handle's own region |
| IoMem.AccessesApart | src/kernel/privileged/iomem.rs:316-321 | checked accesses through two live handles touch no common byte, as physical and as kernel addresses |
| IoMem.AliasRegistry.CheckConflict | src/kernel/privileged/iomem.rs:43-55 | the scan finds a conflict exactly when one entry conflicts |
| IoMem.AliasRegistry.RegisterChecked | src/kernel/privileged/iomem.rs:57-74 | appends the region or reports why not, changing nothing |
| IoMem.AliasRegistry.UnregisterBase | src/kernel/privileged/iomem.rs:76-84 | swap-removes the first entry with that base |
| IoMem.AliasRegistry.NewHandle | src/kernel/privileged/iomem.rs:125-160 | the handle or error, and the registry it leaves |
| Frames.ClonePossible | src/kernel/privileged/frame.rs:153-163 | a single page can be cloned exactly below the counter's limit, a block never |
| Frames.DropKeeps | src/kernel/privileged/frame.rs:168-190 | dropping a handle keeps counters, holders and ledger in balance |
| Frames.CloneEffects | src/kernel/privileged/frame.rs:153-163 | a clone adds one holder to its own page and nothing else |
| Frames.DropEffects | src/kernel/privileged/frame.rs:168-190 | a drop gives up exactly its handle; the page goes back with the last hold, a buddy block always, a larger one never |
| Frames.UnmapEffects | src/kernel/privileged/vmspace.rs:136-146 | an unmap clears the entry of the address's page and gives up exactly the hold it had |
| Frames.MapEffects | src/kernel/privileged/vmspace.rs:86-102 | a map writes the entry of the address's page and no other, and touches no handle and no ledger |
| Frames.ProtectEffects | src/kernel/privileged/vmspace.rs:153-164 | a protect changes the flags of that entry and nothing else |
| Frames.UnmapKeeps | src/kernel/privileged/vmspace.rs:136-146 | unmapping any address of a page keeps them in balance |
| Frames.MapKeepsIff | src/kernel/privileged/vmspace.rs:86-102 | mapping keeps them exactly when it adds one counted entry over none, or, once the counter refuses, moves no hold |
| Frames.ProtectKeepsIff | src/kernel/privileged/vmspace.rs:153-164 | reprotecting keeps them exactly when the entry is present and user after it if and only if it was before |
| Frames.HistoriesKeep | src/kernel/privileged/frame.rs:148-191 | over every run of balanced steps each counter is live handles plus holding entries and the ledger balances |
| Frames.HistoriesKeepIff | src/kernel/privileged/vmspace.rs:86-164 | over every run the books stay right throughout exactly when every map and protect balances |
| Frames.ReturnedExactlyAtZero | src/kernel/privileged/frame.rs:168-179 | at every step a page is returned exactly when its last holder lets go |
| Frames.BlocksReturnedOnce | src/kernel/privileged/frame.rs:180-184 | a block has one handle, cannot be cloned and is returned once |
| Frames.EverythingReturned | src/kernel/privileged/frame.rs:168-190 | once nobody holds it, every page and buddy block handed out has been returned |
| Frames.SaturatedMapIsUncounted | src/kernel/privileged/mm/pmm.rs:991-1011 | at a full counter a further mapping is accepted but not counted |
| Frames.RemapCountsTwice | src/kernel/privileged/mm/mod.rs:386-388 | mapping again through any address of the same virtual page rewrites one entry and counts twice |
| Frames.ProtectSkipsIff | src/kernel/privileged/mm/vmm_x86_64.rs:414-498 | an absent page stays absent exactly when protect is refused, finds no table or is not asked for presence |
| Frames.ProtectIdleIff | src/kernel/privileged/mm/vmm_x86_64.rs:492-498 | protect changes one entry at most, and leaves it alone exactly when refused, without a table or asked for the flags it has |
| Frames.ProtectInventsEntry | src/kernel/privileged/mm/vmm_x86_64.rs:492-498 | protecting an unmapped address of an existing table with presence maps page zero; the counters notice exactly if for user code |
| Frames.FrameSystem.IncCount | src/kernel/privileged/mm/pmm.rs:991-1011 | adds one holder, or refuses unmanaged, uncounted and full pages |
| Frames.FrameSystem.DecCount | src/kernel/privileged/mm/pmm.rs:1019-1041 | removes one holder and reports the last |
| Frames.FrameSystem.CloneHandle | src/kernel/privileged/frame.rs:153-163 | succeeds exactly for a single page below the limit and keeps the balance |
| Frames.FrameSystem.DropHandle | src/kernel/privileged/frame.rs:168-190 | gives up one hold, returning the page or block when due |
| Frames.FrameSystem.MapPage | src/kernel/privileged/vmspace.rs:86-102 | writes the entry of the address's page and counts it, in balance exactly under the stated condition |
| Frames.FrameSystem.UnmapPage | src/kernel/privileged/vmspace.rs:136-146 | clears the entry of the address's page and gives up its hold |
| Frames.FrameSystem.ProtectPage | src/kernel/privileged/vmspace.rs:153-164 | rewrites one entry's flags and no counter, in balance exactly under the stated condition |
| Dma.AcceptedFrames | src/kernel/privileged/dma_buf.rs:105-128 | a frame is accepted exactly when its translation is not null and it is aligned, at most 256 MiB by its shifted size and inside the address space |
| Dma.RefusedFrames | src/kernel/privileged/dma_buf.rs:105-128 | which error a refused frame gets |
| Dma.CheckedSizeIff | src/kernel/privileged/frame.rs:72-74 | the size checked is the frame's own exactly below order 52 |
| Dma.SyncLanguage | src/kernel/privileged/dma_buf.rs:200-282 | which calls succeed, read off the call sequence alone; the intermediate state is never reached |
| Dma.SuccessesAlternate | src/kernel/privileged/dma_buf.rs:200-282 | consecutive successes of a two-way stream are for opposite sides |
| Dma.DmaStream.DoSyncForDevice | src/kernel/privileged/dma_buf.rs:200-236 | changes the state or fails leaving it unchanged |
| Dma.DmaStream.DoSyncForCpu | src/kernel/privileged/dma_buf.rs:244-282 | changes the state or fails leaving it unchanged |
| Decimal.FillDigits | src/kernel/functions/config/sysctl.rs:275-283 | the scratch buffer ends with the decimal digits of any non-zero u64 |
| Decimal.AccumulateIsValue | src/kernel/functions/config/sysctl.rs:57-68 | stepwise overflow checks reject exactly the out-of-range numbers |
| Decimal.HexPrefixIff | src/kernel/functions/config/procfs.rs:107-108 | the decimal digits printed after 0x name the value exactly when it is below ten |
| Sysctl.WriteU64 | src/kernel/functions/config/sysctl.rs:267-287 | writes the longest prefix of the digits that fits, and nothing else |
| Sysctl.WriteI64 | src/kernel/functions/config/sysctl.rs:289-301 | the same for signed numbers, extremes included |
| Sysctl.WriteBool | src/kernel/functions/config/sysctl.rs:303-315 | writes 1 or 0 if there is room and always reports one byte |
| Sysctl.WriteTo | src/kernel/functions/config/sysctl.rs:44-50 | a buffer of 20 bytes receives text that parses back to the value |
| Sysctl.RoundTrip | src/kernel/functions/config/sysctl.rs:57-75 | parsing the text of any value under its kind returns the value |
| Sysctl.ParseNumberIff | src/kernel/functions/config/sysctl.rs:57-68 | exactly which texts parse as a number, and to what |
| Sysctl.TrimPadded | src/kernel/functions/config/sysctl.rs:57-69 | trimming takes away exactly the white space at both ends |
| Sysctl.TrimIsCore | src/kernel/functions/config/sysctl.rs:57-69 | every text is its trimmed form between white space |
| Sysctl.ParseBoolIff | src/kernel/functions/config/sysctl.rs:69-73 | exactly which words parse as true and as false, between any white space |
| Sysctl.ParseNumberPadded | src/kernel/functions/config/sysctl.rs:57-68 | numbers are read between any white space, within the range of their kind |
| SysctlTable.StepIsMapStep | src/kernel/functions/config/sysctl.rs:178-236 | each call acts on the table as on a bounded map, with the same verdict; failures change nothing |
| SysctlTable.RegisterEffects | src/kernel/functions/config/sysctl.rs:178-202 | when a registration fails and how, and what a new node reads as |
| SysctlTable.WriteEffects | src/kernel/functions/config/sysctl.rs:226-236 | when a write fails and how, and that it replaces one value alone |
| SysctlTable.TableIsMap | src/kernel/functions/config/sysctl.rs:161-165 | after any calls names are unique, at most 32, and the table stands for the map |
| SysctlTable.ReadsLastCorrect | src/kernel/functions/config/sysctl.rs:134-158 | a registered name reads as its last type-correct value and never changes kind |
| SysctlTable.Table.DoRegister | src/kernel/functions/config/sysctl.rs:178-202 | registration in the first free slot, as the map step says |
| SysctlTable.Table.DoWrite | src/kernel/functions/config/sysctl.rs:226-236 | a typed write in place, as the map step says |
| SysctlTable.Table.DoRead | src/kernel/functions/config/sysctl.rs:207-217 | the value the map holds, or nothing |
| SysctlTable.Table.List | src/kernel/functions/config/sysctl.rs:241-261 | the longest run of leading whole lines that fits, the rest of the buffer untouched |
| Render.Writer.PushStr | src/kernel/functions/config/procfs.rs:60-66 | appends a string to the unbounded text and keeps the buffer its truncation |
| Render.Writer.PushU64 | src/kernel/functions/config/procfs.rs:67-85 | appends the decimal digits under the same truncation |
| Render.WriteText | src/kernel/functions/config/procfs.rs:55-127 | the buffer holds the first min(length, room) bytes of the full text and is untouched beyond |
| Render.WriteJson | src/kernel/functions/config/procfs.rs:133-223 | the same for the full JSON |
| Render.ListNames | src/kernel/functions/klog.rs:89-99 | stores the names of the first four registered sinks; an empty slot and the rest keep what the buffer held |
| Render.RenderText | src/kernel/functions/klog.rs:116-167 | the sink listing, truncated to the buffer |
| Render.RenderJson | src/kernel/functions/klog.rs:173-225 | the sink JSON, truncated to the buffer |
| Render.TruncationsAgree | src/kernel/functions/klog.rs:115-116 | renderings into different buffers agree as far as the shorter goes |
| RenderFields.TextFields | src/kernel/functions/config/procfs.rs:91-127 | in the text report each label is followed by its own setting |
| RenderFields.JsonFields | src/kernel/functions/config/procfs.rs:180-223 | in the JSON report each key holds its own setting |
| RenderFields.SinkTextFields | src/kernel/functions/klog.rs:116-167 | the sink listing has each sink's number with its name |
| RenderFields.SinkJsonFields | src/kernel/functions/klog.rs:173-225 | the sink JSON has each name in quotes |
| FaultTier.LadderHolds | src/kernel/functions/freg/attribution.rs:252-277 | over every run: tier in 0..2, downgrade counter equals tier plus recoveries, streaks force tiers |
| FaultTier.OneStepAtATime | src/kernel/functions/freg/attribution.rs:252-277 | each event moves the tier by at most one, and each rise is counted |
| FaultTier.QuarantinedIff | src/kernel/functions/freg/attribution.rs:252-277 | the tier is two exactly while the last five events, or more, were failures |
| FaultTier.DegradedIff | src/kernel/functions/freg/attribution.rs:252-277 | the exact histories after which the tier is at least one |
| FaultTier.SuggestedTierIff | src/kernel/functions/freg/attribution.rs:257-261 | what a failure is rated |
| FaultTier.DependentsIgnored | src/kernel/functions/freg/attribution.rs:259-261 | the number of dependents changes nothing |
| FaultTier.TotalsHold | src/kernel/functions/freg/attribution.rs:252-256 | the total and the last tick over every run |
| FaultTier.QuarantineNeedsFive | src/kernel/functions/freg/attribution.rs:257-266 | tier two is entered exactly by the fifth failure in a row |
| FaultTier.DomainFailureRecord.Failure | src/kernel/functions/freg/attribution.rs:252-268 | the record after a failure, its tier the larger of old and suggested |
| FaultTier.DomainFailureRecord.Recover | src/kernel/functions/freg/attribution.rs:271-277 | the record after a success |
| Cascade.AddKeeps | src/kernel/functions/freg/cascade.rs:75-102 | adding keeps ids distinct and every cached count equal to the later nodes naming it |
| Cascade.AddEffects | src/kernel/functions/freg/cascade.rs:75-102 | when a node is added, what it is, and what changes in the others |
| Cascade.BuildKeeps | src/kernel/functions/freg/cascade.rs:75-102 | the same after every sequence of adds |
| Cascade.BuildParentsFirst | src/kernel/functions/freg/cascade.rs:75-102 | requests that name parents after requesting them register parents first, whatever was refused |
| Cascade.ReachesRoot | src/kernel/functions/freg/cascade.rs:86-99 | with parents first, climbing parents always ends at a root |
| Cascade.BuiltForest | src/kernel/functions/freg/cascade.rs:75-102 | every topology built by such requests is a forest |
| Cascade.RecoveryQueue | src/kernel/functions/freg/cascade.rs:171-220 | with parents first, the queue of a recoverable fault: the failed node, then each child once, never cut off, or nothing |
| Cascade.BuiltRecoveryQueue | src/kernel/functions/freg/cascade.rs:171-220 | the same for every sequence of requests that names parents first |
| Cascade.QueueDistinctIff | src/kernel/functions/freg/cascade.rs:110-160 | in every topology the queue is duplicate-free exactly when the node is not its own parent or is the last of 16 that all name it |
| Cascade.QueueLengthIff | src/kernel/functions/freg/cascade.rs:110-160 | in every topology the queue is as long as the cache says exactly when no node up to the failed one names it, or it is the first of 16 that all do |
| Cascade.AbsentQueue | src/kernel/functions/freg/cascade.rs:110-123 | a fault in an unregistered domain queues exactly the nodes that name it |
| Cascade.DirectionIff | src/kernel/functions/freg/cascade.rs:171-199 | a recoverable fault goes top-down exactly when its node is registered and a later one names it |
| Cascade.OtherFaults | src/kernel/functions/freg/cascade.rs:176-199 | TCB, cross-layer and unrecoverable faults queue nothing; an unknown one is taken for domain zero |
| Cascade.IsolationRecoversIff | src/kernel/functions/freg/cascade.rs:176-187 | isolation recovers the dependents exactly when there are none |
| Cascade.BottomUpIsTopDown | src/kernel/functions/freg/cascade.rs:110-137 | both orders of a registered domain agree with it in front, so children come first exactly when there are none |
| Cascade.OwnParentQueuedTwice | src/kernel/functions/freg/cascade.rs:110-123 | a self-parented node is queued twice and its cache misses it |
| Cascade.DomainTopology.AddNode | src/kernel/functions/freg/cascade.rs:75-102 | the in-place add, refused exactly when full or taken |
| Cascade.DomainTopology.CollectChildren | src/kernel/functions/freg/cascade.rs:117-121 | the pushes of the children loop, cut at 16 |
| Cascade.DomainTopology.BottomUpQueue | src/kernel/functions/freg/cascade.rs:110-123 | the bottom-up queue |
| Cascade.DomainTopology.TopDownQueue | src/kernel/functions/freg/cascade.rs:126-137 | the top-down queue |

## Left out

- Boot, panic handling, user-mode entry, port I/O and inline assembly: hardware effects with no result to state.
- The page, slab and virtual memory managers below the operations above: they appear as answers the environment gives (fresh memory, a leaf installed or not), and `VmSpace::destroy`, `map_huge` and page-table pages are not modelled.
- Addresses in `KernelHeap` are unbounded integers, so a physical address so high that adding the kernel base wraps is not modelled; layout alignment is not modelled either.
- eBPF memory contents, helper effects beyond R0, and the verifier's error texts: loads and helpers leave any value, and a rejection is only a rejection.
- Which way a conditional jump goes: one with a known condition may go either way.
- BpfJumps.JumpsSound: sufficient only; whether a jump that does not agree breaks a tracked value depends on concrete values the verifier does not track. For reads before writes `BpfReads.UnwrittenUseIff` is exact, apart from loads from null, whose base may be such a value.
- Page frames made by `Frame::from_raw` from addresses the page allocator never handed out, and the aarch64 page-table walk, are not modelled; nor is the release of page-table pages that become empty.
- `RecoveryPolicy::decide`, fault attribution by address, `HealthMonitor` and `CrossLayerHandler`: classification tables, and glue around bodies that are not part of this model.
- Concurrent interleavings of the atomics in the failure record and the sysctl entries: each call is one step.
- UTF-8: text is modelled byte by byte, which is what the copies and length checks see; `trim` is modelled on characters.
- Error codes, thin proxies, benches and scripts.
