# Patchouly in Dafny

A model of Patchouly, a copy-and-patch just-in-time compiler, with machine-checked proofs of what it is for. Machine
code itself is not modelled: a stencil is a string of bytes with relocation records, and what it does is an abstract
step.

Four systems are modelled, from source text to linked memory.

**The brainf\*\*k compiler** (`Bf*.dfy`). `BfSource` is the reference: a bracket-matching machine over characters,
which knows nothing about trees or stencils. `BfParser` is the parser, with its merging of runs and its two loop
rewrites; `BfMeaning` and `BfShape` say what its trees mean and look like. `BfTarget` is the machine of the stencils,
`BfCodegen` the graph of blocks, `BfNotes` and `BfSimulation` relate the two, and `BfCorrectness` draws the
conclusions, also for runs that do not end. `BfRegisters` runs the same blocks on a machine that has registers and
memory and knows of no tape: each stencil reads and writes the locations that it was emitted with. `BfCounts` bounds
the counts and says where the pointer is checked. `BfLinking` adds what the linker says of the compiled blocks.
`BfCompile` runs the code generator against the function builder. The tape has a cell at every integer, and cells are
bytes that wrap around; the end of the input reads as zero.

**The linker** (`Patch*.dfy`, `Emissions`, `Layouts`, `LinkedBlocks`, `LinkedFields`, `Finalizing`, `Programs`,
`LinkerFacts`, `Relocations`, `Buffers`, `Words`). A `PatchBlock` has the fields of the original, and a ghost log of
what has been emitted, from which all fields follow. `LinkedBlocks` states what a finished block holds, in terms of
that log only, and `LinkedFields` what that means for each field, slot and trampoline, in terms of the operands of the
emissions.

**The function builder** (`Managed`, `ScopeSafety`, `Regs`, `Slab`). Blocks, scopes and values, over all runs. The
slabs are lists of entries with a last-in-first-out list of free keys, and the register slab has capacity for exactly
the registers.

**The stencil table** (`Permutations`, `Names`, `Extraction`, `Stencils`, `Pipeline`, `Wiring`). From the enumeration
of register assignments in the macro, over symbol names and extraction, to selection at run time; and what the
generated functions do with registers and stack.

## What is assumed of stencils

`PatchBlocks.WellFormed` is what the linker needs of an emitted stencil: its relocations are sorted by offset, do not
overlap, hold whole bytes (at most 8) inside the code, and refer to operands that exist; jumps to the next stencil are
relative, and stack fields and narrow holes absolute; and if the patched code ends with the bytes of the empty
stencil, the last jump to the next stencil is the only field there. The empty stencil is not longer than a stencil
that jumps to the next one. A block has at most 65536 constants, counting those of its trampolines.

`NarrowIsLossless`, `WidthExactly` and `SupportsExactly` ask for an addend of zero. `RejectsLargest` says which
long-jump holes refuse the largest word, on which the choice of the wide long jump depends: a sign-extended absolute
hole does not.

Runs of the builder use values that it has handed out, and enter a block only if it is not a scope and no value was
handed out for it before its scope was left. `ReentryExactly` proves that such a stale value always breaks the safety
of the accepted values, and `ReentryReached` gives calls that show it. `Compile` asks that all stencils it may use
exist for register operands, and that all blocks have 16-bit numbers.

The register machine asks that the padded tape and the source are no longer than an allocation can be, which is less
than 2^63 bytes: then no index wraps around into the tape.

## Where code and documentation differ

The comment on `AddTo` says that it stands for `[->>>+<<<]`. In the code a loop that is closed in the text has a
`Node` as its body, and `is_add_to` asks for a `Leaf`; so the rewrite fires only for a loop that the end of the input
closes. The model follows the code. The bound on tape accesses depends on it, because `movement` counts the offset of
a transfer although the pointer does not move.

The macro accepts family names that end with an underscore, but the parser of symbol names does not find their
stencils again: it skips their symbols, except that the wide stencil without operands is taken for the narrow one of
the family without that underscore. `NameRoundTrip` gives the exact condition, `TrailingName` the outcome, and
`GroupIsFamily` what it means for another family. If there is no such other family, the whole extraction fails, for
want of its metadata; `MetadataFound` says exactly when.

The macro also accepts a body whose name is that of a variable in its own wrappers, such as `stack` or `in0`, which
then captures it; `CalleeReached` gives the exact condition.

## Model

| member | source | states |
|---|---|---|
| BfCorrectness.CompilerCorrect | examples/bf/src/main.rs:63-250 | for every source whose run stays on the tape, the compiled blocks return 0 in a state exactly if the source run ends in that state (same tape, pointer, input and output), and they never return anything else |
| BfCorrectness.ZeroMeansDone | examples/bf/src/main.rs:229-236 | for every source: if the compiled blocks return 0, the source run terminates in the same state, with the pointer on the tape |
| BfCorrectness.PanicMeansAstray | examples/bf/src/main.rs:238-239 | every other result is -1, and then the source pointer has really been outside `[0, len)` |
| BfCorrectness.DoneMeansReturned | examples/bf/src/main.rs:172-226 | if the source run terminates, so does the run of the compiled blocks: no endless run of checks and jumps |
| BfCorrectness.DoneInsideMeansZero | examples/bf/src/main.rs:229-236 | a source run that terminates without leaving the tape yields 0 and the same state |
| BfCorrectness.DoneOutsideMeansPanic | examples/bf/src/main.rs:229-239 | a source run that terminates with the pointer off the tape yields -1 |
| BfCorrectness.AccessesStayNear | examples/bf/src/main.rs:160-169 | in every run the compiled code is never stuck, and every cell it touches is strictly between -2048 and len + 2048, hence inside the padding of 4096 bytes |
| BfCorrectness.DivergingFollowed | examples/bf/src/main.rs:172-226 | if the source run stays on the tape and never ends, the compiled run never returns, and for every step of the source it reaches a state that the source has then or later |
| BfCorrectness.SameOutput | examples/bf/src/main.rs:63-250 | for every source run that stays on the tape, ending or not, whatever one machine has written at some step, the other has written at some step |
| BfRegisters.MachineFollows | examples/bf/src/main.rs:84-169 | on a machine with registers and memory, whose stencils read and write where they were emitted to, every run of the compiled code goes step by step as on the tape: nothing that is not allocated is accessed, the third register holds the pointer, the padded tape is in memory, and no other register and no other memory changes |
| BfRegisters.DoneOnMachine | examples/bf/src/main.rs:252-265 | if the source run terminates without leaving the tape, calling the compiled code with base, length and 0 returns 0 and leaves tape, input and output as the source does |
| BfRegisters.ResultOnMachine | examples/bf/src/main.rs:229-265 | if that call returns 0, the source run ends in the state that it leaves, with the pointer on the tape; if it returns anything else, that is -1, and the source pointer has left the tape |
| BfRegisters.DataAgrees | examples/bf-stencils/src/lib.rs:31-135 | the body of each stencil that computes has, on registers and memory, the effect that it has on the tape; the index and the cells wrap around |
| BfCounts.GeneratedCounts | examples/bf/src/main.rs:98-149 | in the code of every source, a count is at least two and at most the length of the source |
| BfCounts.LeafChecks | examples/bf/src/main.rs:94-171 | whatever a leaf does, its code has a check exactly where the pointer and the transfers have gone more than 1024 cells since the last one |
| BfParser.ParseLeaf | examples/bf/src/main.rs:363-396 | the loop that merges runs of commands returns the operations and the rest that the recursive specification gives |
| BfParser.PushMerged | examples/bf/src/main.rs:369-379 | `try_merge`: two moves or two increments in a row become one, everything else is appended |
| BfParser.ParseLoop | examples/bf/src/main.rs:397-408 | reads up to the matching bracket, or to the end of the input, which closes the loop |
| BfParser.ParseInner | examples/bf/src/main.rs:322-362 | the loop over nodes, with both rewrites and the joining of leaves, returns the tree and the rest of the specification |
| BfParser.Parse | examples/bf/src/main.rs:410-415 | the tree of a source file; text after a stray closing bracket is dropped |
| BfMeaning.LeafRepresents | examples/bf/src/main.rs:363-396 | merging keeps meaning: the merged operations of a leaf, one after the other, do what the characters do, for all states |
| BfMeaning.ZeroLoopPerforms | examples/bf/src/main.rs:331-335 | `[-]` does what setting the cell to zero does, for every cell value |
| BfMeaning.TransferPerforms | examples/bf/src/main.rs:298-321 | a loop that `is_add_to` accepts does what `AddTo` does, for all tapes and with bytes that wrap around |
| BfMeaning.ParsedRepresents | examples/bf/src/main.rs:297-415 | the tree of every source file stands for its effective text: unclosed loops closed, text after a stray bracket ignored, all rewrites preserving meaning |
| BfShape.ParsedShape | examples/bf/src/main.rs:322-362 | in every tree the parser returns, a transfer only ends a leaf, moves by less than 1024, and counts are bounded by the length of the source |
| BfShape.ParsedMerged | examples/bf/src/main.rs:363-396 | no leaf of a parsed tree has two moves or two increments in a row |
| BfShape.ZeroLoopRecognised | examples/bf/src/main.rs:331-335 | a loop becomes a clearing exactly if the text has `[-]` there |
| BfShape.TransferRecognised | examples/bf/src/main.rs:298-321 | the rewrite to `AddTo` fires exactly for a loop whose body is a leaf of the four operations, and how far it moves |
| BfShape.ClosedTransferIsALoop | examples/bf/src/main.rs:336-340 | a transfer loop that is closed in the text is never rewritten, whatever the documentation of `AddTo` says: its body is a node |
| BfTarget.ReturnsOnce | examples/bf-stencils/src/lib.rs:27-135 | the machine of the stencils is deterministic: a run returns at most one value in one state |
| BfSimulation.StepMatches | examples/bf-stencils/src/lib.rs:45-135 | one stencil of a program keeps the machine in step with the source, or goes to the panic block because the pointer is off the tape |
| BfSimulation.RunMatches | examples/bf/src/main.rs:92-236 | the same for every number of steps from the entry |
| BfNotes.LeafNoted | examples/bf/src/main.rs:94-171 | between two checks the distance of the pointer from the tape is what `movement` says, except after a transfer, which ends the leaf |
| BfNotes.GeneratedProgram | examples/bf/src/main.rs:63-250 | the generated blocks of every source are a program for its effective text: each stencil is justified by a place in the text |
| BfCodegen.VisitReady | examples/bf/src/main.rs:172-226 | for every tree the slice of blocks and the stack of loops never run out, and each loop takes two blocks |
| BfCorrectness.CompiledLinkable | examples/bf/src/main.rs:63-250 | for every source, in the generated graph the last stencil of a block never goes on with a next one, and every jump target is one of the blocks |
| BfCompile.Compile | examples/bf/src/main.rs:63-250 | driving the builder, no call fails: every block is entered exactly once and ended, parameters stay in scope, no value is on the stack, and the blocks hold the generated stencils, with the operands that `MachineFollows` finds to be right and jumps that are all linkable (`CompiledLinkable`) |
| BfLinking.CompiledVerdict | examples/bf/src/main.rs:238-250 | the linker accepts every block that is built from these stencils, except that it reports `StencilNotFound` if the block needs a trampoline and there is no long jump to make one of |
| BfLinking.CompiledLinks | examples/bf/src/main.rs:241-241 | so linking a compiled program fails in no other way |
| Regs.AllocateSound | src/regs.rs:49-64 | an allocation fails only with 65535 values in use; otherwise the location was free and is within bounds, no cast loses bits, and nothing in use changes |
| Regs.DropSound | src/regs.rs:37-47 | dropping frees one value and its location, and nothing else |
| Regs.AllocatorKeepsTrack | src/regs.rs:37-64 | neither operation leaks a location |
| Regs.DropThenAllocate | src/regs.rs:37-64 | the slot freed last is the next one handed out |
| Regs.Allocator.constructor | src/regs.rs:12-27 | filling the register slab and emptying it from the top makes registers come out in order, all of them free |
| Regs.Allocator.Allocate | src/regs.rs:49-64 | the new fields of the allocator and the value, as the specification gives them |
| Regs.Allocator.Drop | src/regs.rs:37-47 | the new fields of the allocator |
| ScopeSafety.AcceptedValues | src/managed.rs:61-92 | in every run, where no block is entered while it is a scope or while values that were handed out for it are stale, the values that pass the scope test are live, are looked up at the location they were given, and no two share one |
| ScopeSafety.PlaySafe | src/managed.rs:34-304 | every allowed sequence of calls keeps the safety invariant |
| ScopeSafety.PlayNoLeak | src/managed.rs:61-92 | after every run the slots in use are exactly those of the variable lists of the blocks |
| ScopeSafety.PlayAccounted | src/managed.rs:61-92 | after every run each variable of a block is a value that was handed out and is not stale |
| ScopeSafety.ReentryExactly | src/managed.rs:61-92 | after every run, entering a block that is not a scope keeps the accepted values live, in place and different, exactly if no value was handed out for the block before its scope was left |
| ScopeSafety.SiblingReuses | src/managed.rs:77-84 | leaving a block for its sibling makes the next variable reuse the slot of the dropped one |
| ScopeSafety.ReentryAliases | src/managed.rs:294-304 | entering a block again makes a stale value pass the scope test, at the location of another live value |
| ScopeSafety.ReentryReached | src/managed.rs:61-92 | a sequence of nine calls on a new builder, all of them allowed, after which entering a block with a stale value succeeds and two different values that were handed out pass the scope test at one location |
| Managed.ExitedValid | src/managed.rs:77-85 | leaving scopes drops exactly their variables and keeps everything else in order |
| Managed.NewVariableValid | src/managed.rs:167-177 | a new variable is different from all live ones |
| Managed.NeverBadRegister | src/managed.rs:38-38 | locations of live values never trip the register check of the linker |
| Managed.FunctionBuilder.SwitchToBlock | src/managed.rs:61-92 | finds the parent among the scopes, drops the variables of the scopes that are left, and enters the block; or the error |
| Managed.SwitchSpec | src/managed.rs:61-92 | entering a block keeps the scopes up to its parent and adds the block, and drops the variables of exactly the scopes behind; the entry is always entered; both errors exactly when they should occur, without change |
| Managed.LeftLast | src/managed.rs:77-85 | the slot handed out next after leaving scopes is that of the last variable of the outermost one that had any: scopes are left from the innermost, and each drops its variables in order |
| Managed.EmitRecorded | src/managed.rs:179-198 | a stencil that is emitted is recorded at the locations of its values, in its block only, and goes on to the next stencil; the errors for values out of scope and for blocks that have ended |
| Managed.RetRecorded | src/managed.rs:272-288 | a return is recorded without outputs and jumps; it ends the block as soon as its values are in scope, also if it fails then |
| Managed.BranchRecorded | src/managed.rs:217-270 | a branch that succeeds is recorded at the locations of its values, in its block only, and each jump goes to the block that it names, or to the next stencil |
| Managed.EndBranchRecorded | src/managed.rs:200-215 | the same for a branch that ends its block and enters another one |
| Managed.BranchParents | src/managed.rs:230-270 | a branch to different blocks makes the branching block the parent of a child, its own parent (or the entry) that of a sibling, and the given block that of a jump out of scopes; no other parent changes |
| Managed.BranchErrors | src/managed.rs:230-270 | a branch fails for a value or a parent out of scope exactly if there is one; the first leaves everything as it was |
| Managed.FunctionBuilder.NewVariable | src/managed.rs:167-177 | the new state of the builder, or the error |
| Managed.FunctionBuilder.BranchPrep | src/managed.rs:230-270 | parents of jump targets are set one after the other; locations and jumps, or the error, as the specification gives them that `BranchRecorded`, `BranchParents` and `BranchErrors` are about |
| Managed.FunctionBuilder.Locate | src/managed.rs:294-304 | the locations of values that are all in scope, or the error |
| Managed.FunctionBuilder.EndBranch | src/managed.rs:200-215 | emits, ends the block and enters the next one |
| Relocations.FitsSignedIsRange | crates/patchouly-core/src/relocation.rs:146-155 | the test by shifting left and right is the range test of two's complement, for every width |
| Relocations.ShiftsExtend | crates/patchouly-core/src/relocation.rs:146-155 | shifting left and arithmetically right again sign-extends the low bits |
| Relocations.SupportsExactly | crates/patchouly-core/src/relocation.rs:109-135 | an absolute field without addend supports exactly the values that it gives back by zero or sign extension |
| Relocations.ResolveIsFormula | crates/patchouly-core/src/relocation.rs:260-270 | resolving and applying a delayed relocation writes S + A, or S + A - P if it is relative, as in section 4.4 of the System V ABI AMD64 supplement |
| Words.DecodeBytes | crates/patchouly-core/src/relocation.rs:120-135 | the little-endian bytes of a field decode to the low bits of the value |
| Words.ByteAt | crates/patchouly-core/src/relocation.rs:120-135 | byte k of a field is the one of weight 2^(8k) |
| Stencils.IoToIndex | crates/patchouly-core/src/stencils.rs:125-144 | the accumulating loop computes the number whose digits are the locations, plus the offset of the wide half |
| Stencils.ProcessIndex | crates/patchouly-core/src/stencils.rs:153-164 | fills the locations from the low digits, last to first, and returns what is left |
| Stencils.IndexToIoLossy | crates/patchouly-core/src/stencils.rs:147-170 | fills inputs and outputs and finds the width; the assertion on what is left holds |
| Stencils.LossyRoundTrip | crates/patchouly-core/src/stencils.rs:125-170 | locations to index and back lose the numbers of stack slots only; the wide half is told from the narrow one |
| Stencils.IndexRoundTrip | crates/patchouly-core/src/stencils.rs:125-170 | index to locations and back, in both halves of the table |
| Stencils.IndexInjective | crates/patchouly-core/src/stencils.rs:125-144 | operands with the same index are the same up to slot numbers, and have the same width |
| Stencils.IndexOrder | crates/patchouly-core/src/stencils.rs:125-144 | the table is in the order of the operands: at the first one that differs, the stack comes before the registers, and these in order |
| Stencils.Select | crates/patchouly-core/src/stencils.rs:99-121 | scanning the pool up to the sentinel selects the narrow entry if all holes fit, and the wide one otherwise |
| LinkerFacts.NarrowIsLossless | crates/patchouly-core/src/stencils.rs:99-121 | if the narrow stencil is selected, every hole field gives back the whole value of its hole |
| LinkerFacts.WidthExactly | crates/patchouly-core/src/stencils.rs:99-121 | the wide stencil is selected exactly if some hole field of the narrow one would not give back its hole, from the entry of the same operands; none exactly if that entry is empty |
| PatchBlocks.SettleFinishes | src/patch.rs:210-223 | before the next stencil is emitted, all pending jumps are patched to go to the end of the code, the trailing jump is removed exactly if it does nothing and no other deferred field comes later, no other field is lost, and nothing before the last stencil changes |
| PatchBlocks.PrunedEnd | src/patch.rs:211-219 | pruning removes the last jump and nothing else: all other fields end before the cut |
| PatchBlocks.LocationTellsOrder | src/patch.rs:213-215 | the location of the last pending jump is larger than that of the last deferred relocation exactly if no deferred relocation of its stencil comes later |
| Patch.TryApply | crates/patchouly-core/src/relocation.rs:180-222 | writes the field at once, with its place subtracted if it is relative, or returns what it waits for; what that means for finished blocks is `FieldsRight` |
| Patch.PatchBlock.CopyAndPatch | src/patch.rs:236-283 | appends the stencil with all known fields patched, and queues exactly the others: constants for wide holes, jumps to the next stencil, blocks and runtime symbols |
| Patch.PatchBlock.Settle | src/patch.rs:210-223 | the pop, the truncation and the loop that drains the rest compute the settled code that `SettleFinishes` and `EndsRight` are about |
| Patch.PatchBlock.EmitOne | src/patch.rs:192-234 | the error for a bad register or a missing stencil, without change, or one more stencil in the log; the code, the queues and the constants always follow from the log |
| Patch.PatchBlock.Emit | src/patch.rs:70-81 | refused after the end of the block, otherwise as `emit_one` with one jump to the next stencil |
| Patch.PatchBlock.Ret | src/patch.rs:116-124 | ends the block even if the emission fails |
| Patch.PatchBlock.EndBranch | src/patch.rs:136-146 | ends the block even if the emission fails |
| PatchLogs.AppendKeeps | src/patch.rs:192-283 | emission keeps the invariant of a block: all stencils but the last are finished, the last is patched, each starts where the one before ends |
| Patch.PendingMeans | src/patch.rs:318-321 | jumps are pending at the end exactly if the last stencil jumps to a next one; they never belong to an earlier stencil |
| Layouts.SymbolsSpec | src/patch.rs:417-428 | each runtime symbol that a relocation waits for gets one trampoline, and no other symbol does |
| Patch.PatchBlock.RuntimeTrampolineSymbols | src/patch.rs:417-428 | the loop collects these symbols in order |
| Patch.PatchBlock.FinalLen | src/patch.rs:293-306 | the length is that of the code, the trampolines, the padding to a word and the pool, as `PoolRight` spells them out |
| Patch.PatchBlock.Measure | src/patch.rs:285-291 | that length, and only once the block has ended |
| Finalizing.LayTrampolines | src/patch.rs:331-356 | copies the long jump once per symbol, remembers where, and queues its hole for the slot of that symbol |
| Finalizing.LayPool | src/patch.rs:358-376 | aligns, and writes the constants and then the addresses of the symbols |
| Finalizing.ResolveAll | src/patch.rs:378-393 | writes every deferred field, or stops at a block that does not exist |
| Patch.PatchBlock.FinalizeInto | src/patch.rs:308-396 | each error exactly when it should occur; on success the memory of the block is linked; nothing outside the measured length is ever written |
| LinkedBlocks.LinkingCorrect | src/patch.rs:323-393 | in a finished block every field holds S + A or S + A - P for the block, pool slot, trampoline, next stencil or hole value it refers to, every other byte is that of its stencil, every wide hole refers to a slot with its value, and every trampoline to a slot with the address of its symbol |
| LinkedFields.FieldsRight | crates/patchouly-core/src/relocation.rs:180-222 | in a finished block, for every stencil: a narrow hole field holds the formula for its hole, and a wide one that for an aligned address where eight bytes decode to it; stack field n the one for the n-th stack slot among the operands; a target field the one for the first byte of the block, or for the end of the stencil; a runtime field the one for its symbol, or for the trampoline of that symbol |
| LinkedFields.EndsRight | src/patch.rs:210-223 | a stencil of a finished block ends with its bytes, except that the jump at its end is removed exactly if the filled bytes end with the non-empty no-op stencil and no later field waits for an address; the first stencil starts at 0 |
| LinkedFields.PoolRight | src/patch.rs:293-306 | the pool starts at the first multiple of eight behind code and trampolines, and has eight bytes for each value; the block ends with it |
| LinkedFields.TrampolinesRight | src/patch.rs:331-376 | trampoline t is a copy of the long jump, behind the code and the trampolines before it, whose hole refers to eight bytes that decode to the address of its symbol |
| LinkedFields.LongJumpRight | src/patch.rs:430-435 | the long jump of the trampolines is the code of the second table entry exactly if a hole of the first one refuses 2^64 - 1, and otherwise that of the first |
| LinkerFacts.NextJumpLands | src/patch.rs:210-231 | every jump to the next stencil lands on the first byte of the following stencil exactly if its field can hold the distance, or has been removed because the stencil ended with it and it did nothing |
| LinkerFacts.BlockJumpLands | src/patch.rs:378-393 | every jump to a block lands on the first byte of that block exactly if its field can hold the distance or, if it is absolute, the address |
| Patch.ResolvableMeans | src/patch.rs:378-393 | all deferred fields can be resolved exactly if all jumps go to blocks that exist |
| Patch.JumpsLink | src/patch.rs:318-321 | a block whose last stencil is given no jump to a next one, and whose jumps are all to existing blocks, has nothing pending and nothing unresolvable |
| LinkerFacts.WideJumpLands | src/patch.rs:210-231 | a jump field of more than 16 bits can always hold the distance to the following stencil, by the widths of the records: 16 bits for the length of the code of a stencil, 12 bits for an addend |
| LinkerFacts.NearJumpIsNoOp | src/patch.rs:213-219 | an example: a near jump is well-formed, and one to the next stencil may be cut off as a whole if the empty stencil is such a jump |
| LinkerFacts.RejectsLargest | crates/patchouly-core/src/relocation.rs:109-118 | a field refuses the largest word exactly if it is relative or zero-extended from less than a word; a sign-extended field of any width takes it, as -1 |
| LinkerFacts.LongJumpIsWide | src/patch.rs:430-435 | the wide long jump is the one that is selected exactly if the narrow one has such a refusing hole |
| Programs.FromLens | src/patch.rs:19-32 | the loop turns lengths into offsets in place, and returns the sum: the first is 0, each other one is where the block before ends, and the total is where the last one ends |
| Programs.OffsetsAdjacent | src/patch.rs:19-32 | the offsets of any lengths: the first is 0, each block starts where the one before ends, and the total is the end of the last |
| Programs.RangesDisjoint | src/patch.rs:19-32 | the ranges of different blocks are disjoint and within the total |
| Programs.FinalizeAll | src/managed.rs:94-114 | fails with the error of the first block that has one; otherwise all blocks are linked at once, in memory of exactly the measured total, so that no block has disturbed another; the entry block is at its first byte |
| Permutations.RegPermutation.Next | crates/patchouly-macros/src/perm.rs:28-58 | returns the current assignment and goes to its least successor, or stops if there is none; the loops terminate |
| Permutations.Enumerate | crates/patchouly-macros/src/perm.rs:11-59 | the iterator returns exactly the assignments whose outputs share no register, each once, in increasing lexicographic order, and then stops |
| Permutations.Raised | crates/patchouly-macros/src/perm.rs:35-55 | raising a digit to its first value that is not taken, and resetting what follows, gives the least later assignment |
| Permutations.DigitExhausted | crates/patchouly-macros/src/perm.rs:38-43 | if all larger values of a digit are taken, no later assignment shares the digits before it |
| Names.NameRoundTrip | crates/patchouly-build/src/extract.rs:379-410 | parsing the symbol of a generated stencil gives back family, operand locations and width, exactly if the family name has no double underscore after its first character, also not together with the separator |
| Names.AcceptedNames | crates/patchouly-macros/src/stencil.rs:54-72 | the names that the macro accepts meet that condition exactly if they do not end with an underscore |
| Names.TrailingName | crates/patchouly-build/src/extract.rs:379-410 | what becomes of a name that ends with an underscore: its symbols are not parsed, except that the wide stencil without operands is taken for the narrow stencil of the name without that underscore |
| Names.WideRetIsTakenForNarrow | crates/patchouly-build/src/extract.rs:379-410 | the input that shows it: the wide stencil of `ret_` reads as the narrow one of `ret` |
| Names.OrdinaryNames | crates/patchouly-macros/src/stencil.rs:54-72 | names without double underscore that do not end with an underscore meet that condition |
| Names.BuiltinNames | crates/patchouly-macros/src/stencil.rs:45-45 | so do the built-in names |
| Names.JoinRoundTrip | crates/patchouly-build/src/structs.rs:18-34 | a list of operand numbers is parsed back to its locations |
| Names.ParseArgs | crates/patchouly-build/src/structs.rs:18-34 | the loop over the pieces returns all locations, or none if a piece is not a number |
| Names.SplitIter.Next | crates/patchouly-build/src/extract.rs:384-400 | the piece up to the next double underscore, of which one at the very start does not count |
| Names.ParseName | crates/patchouly-build/src/extract.rs:379-410 | the parsed name of any symbol |
| Extraction.PoolGrows | crates/patchouly-build/src/extract.rs:145-155 | lists that are in the pool stay what they are when another one is appended |
| Extraction.StencilFamilyBuilder.PoolIndex | crates/patchouly-build/src/extract.rs:145-155 | reading from the returned index up to the sentinel gives the list itself, whether or not it was in the pool before |
| Extraction.StencilFamilyBuilder.AddStencil | crates/patchouly-build/src/extract.rs:92-166 | the entry of the function is set and all others stay; the errors and what they leave unchanged |
| Extraction.BuildFamily | crates/patchouly-build/src/extract.rs:92-171 | succeeds exactly if every function has the counts of the family and its table entry has room for where its code and its relocations are, and otherwise gives the error of the first that is refused; then every table entry stands for the function with that index, and reads its own relocations despite sharing |
| Extraction.GeneratedDistinct | crates/patchouly-macros/src/stencil.rs:244-265 | no table entry is written twice |
| Extraction.SelectionAgrees | crates/patchouly-core/src/stencils.rs:99-121 | in a family built from all generated functions, selection gives the function for exactly these locations, in the width the holes need, and none exactly if two outputs share a register |
| Pipeline.Expand | crates/patchouly-macros/src/stencil.rs:233-275 | the symbols of an expansion, for every family name: one per assignment, and a wide one if there are holes, all different |
| Pipeline.TestedNames | crates/patchouly-build/src/extract.rs:500-519 | the five names that the tests of the extraction go through, with the families, widths and table indices that they expect |
| Pipeline.ExtractionComplete | crates/patchouly-build/src/extract.rs:212-221 | from the symbols of one macro, in any order, the extractor recovers all its functions |
| Pipeline.GroupIsFamily | crates/patchouly-build/src/extract.rs:212-288 | among the symbols of several macros with different names, those grouped under a family name are the symbols of that family, exactly if no other macro has the name with one more underscore, holes and no operands |
| Pipeline.PipelineAgrees | crates/patchouly-core/src/stencils.rs:99-144 | end to end: the selected stencil has the code and the relocations of the object whose symbol the macro made for the locations of the operands |
| Pipeline.MetadataFound | crates/patchouly-build/src/extract.rs:262-270 | every parsed function belongs to a family that there is a macro for, so that its metadata is found, exactly if every macro with holes and no operands whose name ends with an underscore has a macro with the shorter name beside it |
| Pipeline.ProgramAgrees | crates/patchouly-build/src/extract.rs:212-288 | the same among the objects of several macros, for every family that no other macro shadows in this way |
| Wiring.IdentifiersDiffer | crates/patchouly-macros/src/stencil.rs:546-581 | no two variables of a wrapper have the same identifier |
| Wiring.TestedIdentifiers | crates/patchouly-macros/src/stencil.rs:656-977 | the identifiers that the tests of the macro expect |
| Wiring.CalleeReached | crates/patchouly-macros/src/stencil.rs:365-405 | some wrapper of a family binds the name of the body before calling it exactly if that name is the identifier of a parameter, a stack field, a hole or a target that the family can have |
| Wiring.StackIsReserved | crates/patchouly-macros/src/stencil.rs:365-405 | a body called `stack` is captured in every family; `target` and `__next` never are, because the call itself binds them |
| Wiring.FromArgs | crates/patchouly-macros/src/stencil.rs:610-628 | each register is marked with the last operand that is in it, or as passed through |
| Wiring.NewSignature | crates/patchouly-macros/src/stencil.rs:546-587 | stack operands are numbered in order, registers are named by their use |
| Wiring.RegisterNamed | crates/patchouly-macros/src/stencil.rs:546-628 | a register is named after the last input and the last output that the assignment puts in it, and by its number from one if there is none |
| Wiring.RegisterNamesDiffer | crates/patchouly-macros/src/stencil.rs:567-579 | the names of the register parameters are pairwise different, also when inputs share a register |
| Wiring.SlotOfOperand | src/patch.rs:245-250 | the field numbered for a stack operand gets, from the linker, the slot of that very operand |
| Wiring.WiringRefines | crates/patchouly-macros/src/stencil.rs:323-527 | running the generated wrapper reads each input from its location, calls the body, writes each output to its location, and passes on every other register |

## Left out

- Saturating mode of the brainf**k compiler: merged moves do not commute with clamping after each step.
- Overflow checks of debug builds in the bodies of the brainf**k stencils: cells, the index and addresses wrap around.
- Counts of merged commands are mathematical integers; in the original they are 32-bit, which a source of less than two gigabytes cannot exceed.
- Offsets, lengths and addresses are mathematical integers; only resolved values wrap around at 2^64. Registers and slots are below 65535.
- The function builder keeps, for each block, the list of stencils emitted into it instead of a `PatchBlock`; whether a stencil exists for given operands is a parameter.
- Block handles: a call names its block; handles that outlive a switch are not told apart from current ones.
- Mapping memory, making it executable, entry point types and calling compiled code.
- Reading archives and object files, demangling and runtime symbol lists: compiled functions are given by their symbol, code range and relocations.
- The generation of tokens: wrappers are lists of bindings. How identifiers are printed is modelled, so that capture can be ruled out.
- A stencil body is any function of its arguments and the stack; its machine code is not related to the wrapper.
- Bit layouts of relocation and stencil records, which are records here.
- Relocations of unknown kind or encoding, which the extractor never makes.
- Family signatures in the metadata symbol, and the documentation generated from them.
- Fields that are relative and hold a hole or a stack slot: subtracting the place wraps around, where a debug build of the original panics if the result is negative.
- Alignment of constants is relative to the start of the block, as in the original.
- The calculator example and the book.
