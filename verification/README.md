# EVMJIT, modelled and verified

EVMJIT compiles Ethereum bytecode, one basic block at a time, to code that replaces the checks of an
interpreter by block-level ones: one stack check per block, one gas check per cost block, stack items kept in
virtual registers, jumps resolved to edges. This project models the block compiler, the code it emits, and the
arithmetic, memory and hashing functions that the code relies on, and proves that compiled programs do what the
Ethereum Yellow Paper defines.

## How it is built

Every module is a file of the same name.

- `Words`, `Instructions`, `Machine`: integer types, instruction set and costs, and the reference interpreter,
  which checks stack and gas at every instruction. What the instructions compute is a parameter of it.
- `Opcodes`: the instruction set and fee schedule of the Yellow Paper as tables, against the compiler's switch.
- `OpcodeMachine`: the Yellow Paper's machine opcode by opcode, without the compiler's switch and its kinds of
  instructions. This is what compiled programs are compared with in the end. `OpcodeRefinement`: the interpreter
  takes every step as that machine does.
- `Ir`, `LocalStacks`, `BlockCompiler`, `BlockCutter`, `Program`: the emitted operations and what running them
  does, the compile-time stack, the translation of a block, the cutting of the code, jump resolution, and runs of
  whole compiled programs.
- `CompilerObjects`, `PushData`, `Compilers`: the compiler as the objects and loops that it is, each method proved
  to compute the function of the same step.
- `BlockSimulation`, `ProgramCorrect`, `StackSafety`: compiled programs and the interpreter have the same outcome.
- `Jit`, `YellowPaper`, `Hosts`: the instructions as the emitted code computes them (64-bit sizes, clamps,
  truncations, penalties) and as the Yellow Paper defines them; the host as a record of arbitrary functions.
- `MemoryPrice`, `MemoryLaws`: memory requests on every machine: exactly when they are handled as defined, and what
  runs of them cost.
- `Refinement`, `CallRefinement`, `ArithRefinement`, `Correctness`: both meanings of an instruction agree wherever
  its memory requests are handled rightly, and so the main theorem.
- `MessageCalls`: what calls and creations leave, in terms of what the host answers.
- `Threshold`: the exact amount of gas below which no run can go wrong. `EndToEnd`: the main theorem for what the
  compiler's own loops return.
- `MemoryObjects`: memory as a reallocated byte buffer, in wrapping 64-bit arithmetic.
- `Bits`: numbers bit by bit. `Arith`, `LoweredArith`: division and exponentiation loops; the division
  instructions built on them.
- `Passes`: the passes that replace wide divisions by calls, and aborts in the main function by edges to its exit.
- `Keccak`, `Lanes`, `Sponge`: the permutation in place for any lanes, the lanes of the code and their bytes, and the
  streaming hash, in place. `Fips202`, `RoundConstants`: the hash as FIPS 202 defines it, on bits. `KeccakBits`,
  `SpongeBits`: bit by bit the one is the other.

The main theorem is `Correctness.CompiledRunsAsDefined`: with any gas, a compiled program has the outcome that
`OpcodeMachine.RunOf` gives the code, if the instructions of the defined run are right, that is, if their memory
requests pass `MemoryLaws.ClampIsRight` and their counters cannot pay the penalties. It is the composition of
`ProgramCorrect.CompiledRunsLikeInterpreter` (for any meaning of the instructions, any gas),
`Correctness.RunsAgree` (the emitted instructions against the Yellow Paper's) and `OpcodeRefinement.SameRun` (the
interpreter against the opcodes). `Threshold.LimitIsExact` says when
nothing has to be known about the run: all codes in all hosts run as defined if and only if the gas at the start is
less than 140738293661703, which is `C_mem(2^28) + 7`. Failed runs report neither gas nor state
(`libevmjit/JIT.cpp:469-484`), so where in a block a run fails cannot be observed.

## Where the code and expectations differ

- `libevmjit/Memory.cpp:59` says that the clamp at 2^33 avoids overflow. The clamp also limits what a request can
  ask for: with exactly 2^33 bytes of memory any larger size at offset 0 is granted for nothing
  (`MemoryLaws.ClampGrantsTooMuch`). `MemoryLaws.RequireExact` says for every machine when a request is handled
  rightly. The code CALLVALUE GASLIMIT MLOAD RETURN gets there with the least gas, in a host whose gas limit is
  2^33 - 32 and whose call value is 2^33 + 1: compiled, its RETURN succeeds with the memory it finds, where
  the definition fails or grows memory (`Threshold.CompiledRunDiffers`).
- A penalty of INT64_MAX is paid by the counter INT64_MAX (`MemoryLaws.PenaltyIsFinal`). The penalty of
  RETURNDATACOPY is tripled, becomes 2^63 - 3, and is paid by the two counters below as well
  (`MemoryLaws.TripledPenalty`). Runs in which an instruction that can charge such a penalty meets such a counter are
  not right in the sense of the main theorem.
- BLOCKHASH costs 800 from Constantinople on (`libevmjit/GasMeter.cpp:251-252`), where the fee schedule has 20.
  All other static costs are those of the schedule (`Opcodes.CostsAreSchedule`).
- `libevmjit/Arith256.cpp:41` says that division handles a divisor of 0. It counts the leading zeroes of the
  divisor with an undefined result for 0 (`libevmjit/Arith256.cpp:72`). The division core is proved for divisors
  other than 0; DIV, SDIV, MOD and SMOD never pass 0, and for ADDMOD and MULMOD the result of that call is arbitrary.

## Model

| member | source | states |
|---|---|---|
| Correctness.CompiledRunsAsDefined | libevmjit/Compiler.cpp:166-227 | For every code, host, revision, gas, content of stack memory and value of the undefined remainder: if the instructions of the defined run are right, the compiled program has the outcome of the Yellow Paper's machine, given opcode by opcode and from empty memory, buffers and stack |
| Threshold.LimitIsExact | libevmjit/Memory.cpp:56-87 | Without that condition: all codes in all hosts run as defined if and only if the starting gas is below C_mem(2^28) + 7 |
| Threshold.PoorRunsAsDefined | libevmjit/Memory.cpp:56-87 | Below that gas the compiled run of every code in every host is as defined |
| Threshold.BelowLimit | libevmjit/Memory.cpp:56-87 | Every instruction of a defined run that starts below that gas is right, because gas, price of memory and items on the stack, weighted together, never grow |
| Threshold.CompiledRunDiffers | libevmjit/Memory.cpp:59-70 | From that gas on, a code of four bytes whose compiled run is not as defined, in any revision and any host that gives it two operands |
| Correctness.CompiledRunsAsInterpreted | libevmjit/Compiler.cpp:166-227 | For every code and any gas, the compiled program has the outcome of the interpreter on the emitted code of the instructions |
| OpcodeRefinement.SameStep | libevmjit/Compiler.cpp:239-1006 | For every code, position, machine and stack: one step of the interpreter with the Yellow Paper's meaning fails, changes stack and machine, and goes on as is said of the opcode byte there |
| OpcodeRefinement.SameRun | libevmjit/Compiler.cpp:239-1006 | Every run of that interpreter, from any position and state, is the run by opcodes |
| OpcodeRefinement.SwitchIsRight | libevmjit/Compiler.cpp:239-1006 | Every usable opcode is classified as its instruction, with its constant, depth, item, call kind or end |
| OpcodeRefinement.CommitsAre | libevmjit/Compiler.cpp:634-853 | The cost block is committed before GAS, CREATE and the four calls, and before no other instruction |
| EndToEnd.CompileCorrectly | libevmjit/Compiler.cpp:166-227 | The compiler's loops, run on any code, return a program whose runs are those by opcodes, with any gas below the limit, and with any gas at all where the defined run is right |
| Correctness.RunsAgree | libevmjit/Compiler.cpp:230-1013 | Two meanings of the instructions that agree wherever an instruction is right give the same outcome for every code and state whose run is right |
| Correctness.StepAgrees | libevmjit/Compiler.cpp:230-1013 | One right instruction agrees, and leaves memory in whole words that has not shrunk, and gas plus the price of memory that have not grown |
| Correctness.ActAgrees | libevmjit/Compiler.cpp:513-1000 | Every instruction with a run-time effect agrees with the Yellow Paper where it is right, failure included |
| ProgramCorrect.CompiledRunsLikeInterpreter | libevmjit/Compiler.cpp:166-227 | For any meaning of the instructions with sane gas behaviour, any code and every gas counter: compiled program and per-instruction interpreter have the same outcome: same stack, memory and gas, and failure exactly when the interpreter fails |
| ProgramCorrect.BlocksSimulate | libevmjit/Compiler.cpp:121-164 | The same from matching states at the beginning of any block |
| ProgramCorrect.BlockCorrect | libevmjit/Compiler.cpp:230-1013 | A compiled block fails iff the interpreter fails somewhere in it, and otherwise leaves the same machine and stack and goes the same way |
| ProgramCorrect.StackCheckExact | libevmjit/BasicBlock.cpp:178-190 | The one check of a block passes iff no instruction up to the first invalid one, where compilation of the block stops, underflows or overflows the stack (section 9.4.2 of the Yellow Paper) |
| ProgramCorrect.WholeBlockChecked | libevmjit/BasicBlock.cpp:178-190 | In a block without invalid instructions that is every instruction of the block |
| ProgramCorrect.RecordedExtremes | libevmjit/BasicBlock.cpp:43-101 | The recorded minimum and maximum are the extremes over all instructions, although they are updated only on first fetches, pops and pushes |
| ProgramCorrect.HeightsByExtremes | libevmjit/BasicBlock.cpp:183-190 | Checking every instruction is checking the two extremes |
| ProgramCorrect.CompiledRunsEnd | libevmjit/Compiler.cpp:137-152 | Every block of a compiled program that can lead backwards charges gas, so all runs end by (gas, blocks left) |
| ProgramCorrect.BranchingBlockCosts | libevmjit/GasMeter.cpp:56-65 | A block that ends in a jump charges at least one unit of static gas |
| ProgramCorrect.ArrivesWhereAsked | libevmjit/Compiler.cpp:121-164 | After jump resolution a block goes where its terminator asked: a direct edge reaches the block the switch would choose, an untaken branch or missing terminator the next block |
| ProgramCorrect.DestFound | libevmjit/Compiler.cpp:618-625 | The switch leads every valid destination to the block that begins there and everything else to Abort |
| ProgramCorrect.TableCases | libevmjit/Compiler.cpp:618-625 | The keys of the jump table are exactly the first positions of blocks that begin with a JUMPDEST |
| ProgramCorrect.RunThrough | libevmjit/Compiler.cpp:56-118 | The interpreter started in a block runs to its end, leaves it, or fails, and a jump costs it gas |
| ProgramCorrect.ContinuesAt | libevmjit/Compiler.cpp:131-152 | Where a block ends, the interpreter goes on at the beginning of the next block, or of the one that the table gives for a valid destination, or ends |
| BlockSimulation.InstrsAgree | libevmjit/GasMeter.cpp:56-78 | Charging static gas at the front of each cost block agrees with charging each instruction, at every point where gas is looked at, for all instruction sequences |
| BlockSimulation.CountAgrees | libevmjit/GasMeter.cpp:56-65 | Counting an instruction keeps the agreement, whatever the pending check will finally charge |
| BlockSimulation.CommitAgrees | libevmjit/GasMeter.cpp:135-152 | GAS, CREATE and calls, which commit first, see the interpreter's gas counter |
| BlockSimulation.PlainAgrees | libevmjit/Compiler.cpp:239-244 | All other instructions may run with the gas of later instructions already charged |
| LocalStacks.GetStands | libevmjit/BasicBlock.cpp:82-101 | Fetching an item, for the first time or again, gives the item at that depth and leaves the represented stack |
| LocalStacks.PopStands | libevmjit/BasicBlock.cpp:50-62 | Pop gives the top, and the rest of the stack remains, also below the entry top |
| LocalStacks.PushStands | libevmjit/BasicBlock.cpp:43-48 | Push puts the value on top |
| LocalStacks.SwapStands | libevmjit/BasicBlock.cpp:72-80 | Swap exchanges the top and the item at a depth, fetching at most both |
| LocalStacks.SetStands | libevmjit/BasicBlock.cpp:103-114 | Overwriting an item, local or fetched, changes just that item |
| LocalStacks.WriteBack | libevmjit/BasicBlock.cpp:117-143 | After the stores of finalize the run-time stack holds exactly the represented stack, skipped and overwritten inputs included |
| LocalStacks.GetBounds | libevmjit/BasicBlock.cpp:82-101 | A get needs exactly its depth, whether or not the item was fetched before, and keeps the invariant on fetched and popped items |
| LocalStacks.SwapBounds | libevmjit/BasicBlock.cpp:72-80 | The same for swap |
| LocalStacks.PopsBounds | libevmjit/BasicBlock.cpp:50-62 | The same for any number of pops |
| StackSafety.AccessesInside | libevmjit/BasicBlock.cpp:117-143 | Where the one stack check passes, every fetch reads an item that is there and every store stays below the limit |
| StackSafety.FetchedOnce | libevmjit/BasicBlock.cpp:82-101 | No item of the entry stack is fetched twice in a block |
| BlockCompiler.CompileIns | libevmjit/Compiler.cpp:239-244 | Compiling an instruction keeps the invariants of compile-time stack and gas meter |
| BlockCompiler.ConstantsFold | libevmjit/Compiler.cpp:239-244 | Operations on constants emit nothing and give the constant |
| CompilerObjects.LocalStack.Push | libevmjit/BasicBlock.cpp:43-48 | In place, the effect of the function that PushStands is about |
| CompilerObjects.LocalStack.Pop | libevmjit/BasicBlock.cpp:50-62 | In place, the effect of the function that PopStands is about |
| CompilerObjects.LocalStack.Dup | libevmjit/BasicBlock.cpp:65-69 | In place, a fetch and a push |
| CompilerObjects.LocalStack.Swap | libevmjit/BasicBlock.cpp:72-80 | In place, the effect of the function that SwapStands is about |
| CompilerObjects.LocalStack.Get | libevmjit/BasicBlock.cpp:82-101 | In place, the effect of the function that GetStands is about |
| CompilerObjects.LocalStack.Set | libevmjit/BasicBlock.cpp:103-114 | In place, the effect of the function that SetStands is about |
| CompilerObjects.LocalStack.Finalize | libevmjit/BasicBlock.cpp:117-143 | The loop with its two iterators emits the stores that WriteBack is about |
| CompilerObjects.GasMeter.Count | libevmjit/GasMeter.cpp:56-65 | In place, the counting that CountAgrees is about |
| CompilerObjects.GasMeter.CommitCostBlock | libevmjit/GasMeter.cpp:135-152 | Fills in the cost of the pending check, or erases a check of nothing |
| Compilers.Compiler.CompileInstruction | libevmjit/Compiler.cpp:243-1006 | The switch over the instructions, in place, computes the translation that BlockCorrect is about |
| Compilers.Compiler.CompileBasicBlock | libevmjit/Compiler.cpp:230-1013 | The instruction loop with its cursor compiles the block, adds its case to the jump table, and leaves the gas meter clear |
| Compilers.Compiler.ResolveJumps | libevmjit/Compiler.cpp:121-164 | Rewriting terminators and phi in place gives the resolved program that ArrivesWhereAsked is about |
| Compilers.Compile | libevmjit/Compiler.cpp:166-227 | The whole compiler: a good cut of the code, and the program that the main theorem is about |
| Compilers.RestOfBlock | libevmjit/Compiler.cpp:1002-1006 | Going on behind an instruction, or ending the block at an invalid one, compiles the rest of the block |
| BlockCutter.CreateBasicBlocks | libevmjit/Compiler.cpp:56-118 | The cutting loop gives maximal chains of instructions, in order, leaving out exactly the dead code; JUMPDEST only begins blocks |
| BlockCutter.SkipPushDataAndGetNext | libevmjit/Compiler.cpp:59-67 | The cursor moves to the next instruction, or to the end of truncated push data |
| BlockCutter.CutIsUnique | libevmjit/Compiler.cpp:56-118 | Only one cut of a code is good |
| BlockCutter.BlocksInOrder | libevmjit/Compiler.cpp:111-116 | Blocks are disjoint and ordered |
| BlockCutter.LeftOutIsDead | libevmjit/Compiler.cpp:77-86 | What is left out follows a terminator and holds no JUMPDEST |
| BlockCutter.DestBeginsBlock | libevmjit/Compiler.cpp:108-109 | Every valid destination begins a block |
| BlockCutter.ValidJumpsAreStarts | libevmjit/Compiler.cpp:59-67 | The valid destinations of section 9.4.3 of the Yellow Paper are the JUMPDEST bytes that the cutting cursor stops at |
| PushData.ReadPushData | libevmjit/Instruction.cpp:12-27 | The shifting loop gives the constant, zeroes standing for missing bytes, and its cursor agrees with the cutting cursor |
| PushData.SkipPushData | libevmjit/Instruction.cpp:29-36 | The skipping cursor agrees with both |
| PushData.BlockEndSuffices | libevmjit/Compiler.cpp:530-535 | Reading only up to the end of the block loses nothing |
| Opcodes.SwitchIsComplete | libevmjit/Compiler.cpp:239-1006 | For every revision and opcode, an instruction is invalid iff its opcode is not in use, or changes state in a static call |
| Opcodes.StackEffects | libevmjit/Compiler.cpp:239-1006 | Every valid instruction needs, removes and places the items of appendix H.2 of the Yellow Paper |
| Opcodes.CostsAreSchedule | libevmjit/GasMeter.cpp:166-288 | For every revision and opcode in use, the static cost is that of the fee schedule, except exactly for BLOCKHASH from Constantinople on |
| Jit.JitIsSane | libevmjit/Compiler.cpp:634-639 | No instruction returns more gas than it was given, and only the committing instructions look at the counter |
| Jit.ActShift | libevmjit/GasMeter.cpp:67-78 | With k gas less an instruction that does not commit does the same with k gas less, or fails |
| MemoryLaws.RequireAgrees | libevmjit/Memory.cpp:25-94 | Where a request is right, mem.require does what the unbounded definition asks for; what returns normally covers the requested range |
| MemoryLaws.UseLeaves | libevmjit/Memory.cpp:56-87 | Memory use as defined, with numbers only: the words that cover the range, zeroes in new bytes, and 3 w + w^2 / 512 as the price of w words |
| Refinement.PaddedAgrees | libevmjit/Memory.cpp:221-244 | memcpy and memset leave the source slice, zero-extended, and change nothing else, for every index and request |
| Refinement.CopyAgrees | libevmjit/Memory.cpp:209-245 | copyBytes with its charges agrees with the padded copy, where its request is right |
| Refinement.CopyReturnedAgrees | libevmjit/Memory.cpp:247-272 | Where its request is right and the penalty cannot be paid, RETURNDATACOPY fails exactly on an overrun or lack of gas, and copies otherwise |
| Refinement.OverrunExact | libevmjit/Memory.cpp:257-260 | The wrapped sum shows an overrun exactly when the true sum does |
| MemoryLaws.TripledPenalty | libevmjit/GasMeter.cpp:160-164 | Three times the penalty, modulo 2^64, fails iff the counter is below 2^63 - 3 |
| Refinement.LoadCallDataAgrees | libevmjit/Ext.cpp:420-441 | CALLDATALOAD is the 32-byte padded read |
| MemoryLaws.RequireExact | libevmjit/Memory.cpp:56-87 | For every machine and gas: a request is handled as defined iff it is in range, already covered, or beyond memory when clamped and payable neither as defined nor by the penalty |
| MemoryLaws.ClampGrantsTooMuch | libevmjit/Memory.cpp:59-70 | A request that is granted although memory does not cover it |
| MemoryLaws.GasTelescopes | libevmjit/Memory.cpp:72-87 | Over any run of granted requests the charges sum to the price of the final size less that of the first; the size is the largest rounded request, a multiple of 32, and new bytes are zero |
| MemoryLaws.OrderIsFree | libevmjit/Memory.cpp:72-87 | Requests in range are all granted iff the price of the largest can be paid |
| MemoryLaws.PenaltyIsFinal | libevmjit/GasMeter.cpp:40-48 | The penalty fails iff the counter is not INT64_MAX |
| MemoryObjects.Runtime.GasCheck | libevmjit/GasMeter.cpp:40-53 | The counter is stored only if it does not become negative |
| MemoryObjects.Runtime.Require | libevmjit/Memory.cpp:54-92 | On the buffer, in wrapping 64-bit arithmetic, for every request: grants, charges and grows as the function that RequireExact is about |
| MemoryObjects.PriceFits | libevmjit/Memory.cpp:75-82 | No product or sum of the price wraps for memory up to 2^34 bytes |
| MemoryObjects.Runtime.Extend | libevmjit/Array.cpp:187-214 | Reallocation keeps the bytes and zeroes the new ones |
| MemoryObjects.Runtime.LoadWord | libevmjit/Memory.cpp:162-166 | MLOAD on the buffer is the Yellow Paper's, and reads inside it, where its request is right |
| MemoryObjects.Runtime.StoreBytes | libevmjit/Memory.cpp:168-179 | MSTORE and MSTORE8 on the buffer are the Yellow Paper's, and write inside it, where the request is right |
| MemoryObjects.Runtime.CopyBytes | libevmjit/Memory.cpp:209-245 | Padded copies on the buffer are the Yellow Paper's, where the request is right |
| MemoryObjects.Runtime.CopyBytesNoPadding | libevmjit/Memory.cpp:247-272 | RETURNDATACOPY on the buffer is the Yellow Paper's, where the request is right and the penalty cannot be paid |
| MemoryObjects.LoadCallData | libevmjit/Ext.cpp:420-441 | CALLDATALOAD through its 32-byte buffer |
| CallRefinement.GasRoundTrip | libevmjit/JIT.cpp:216-217 | The top-bit encoding decodes to the same gas on success and on failure |
| CallRefinement.WrapperAgrees | libevmjit/Ext.cpp:279-313 | The wrapper's encoded result stands for the end of the message, executed or not, as defined |
| CallRefinement.WrapperReturns | libevmjit/Ext.cpp:279-313 | The wrapper calls exactly if depth and balance allow it, and gives back the gas less what the callee used; otherwise it gives all the gas back |
| CallRefinement.CreateAgrees | libevmjit/Compiler.cpp:793-829 | CREATE with its encoded result is the Yellow Paper's, for any callee, where its request is right |
| CallRefinement.CallAgrees | libevmjit/Compiler.cpp:831-928 | Calls, charged piece by piece, cost the one-shot price and leave the same machine, for any callee, where both requests are right |
| MessageCalls.CallLeaves | libevmjit/Compiler.cpp:886-926 | A call fails only for want of gas. If the host executes it, the counter goes down by the gas used less the stipend, 1 is pushed on success and 0 on failure, output and return buffer are the host's; if not, 0 is pushed and all gas stays |
| MessageCalls.CreateLeaves | libevmjit/Compiler.cpp:803-829 | A creation costs the gas used and pushes the address, or 0 on failure; if it is not executed all gas stays |
| CallRefinement.CallWithholds | libevmjit/Compiler.cpp:886-925 | From Tangerine Whistle on a call keeps at least a 64th of the gas, and never ends with more than it had and the stipend |
| CallRefinement.CreateWithholds | libevmjit/Compiler.cpp:803-821 | CREATE keeps at least a 64th, and gas never grows |
| Arith.UDivRem | libevmjit/Arith256.cpp:63-114 | For every width, dividend and divisor but 0 the loop ends with quotient and remainder, nothing shifted out and no subtraction below 0 |
| Arith.Exp | libevmjit/Arith256.cpp:340-403 | Square and multiply, emitted or at compile time, gives base^exponent modulo 2^256 |
| LoweredArith.SDivRem256 | libevmjit/Arith256.cpp:207-253 | Signed division on the unsigned loop rounds toward zero, the remainder with the dividend's sign |
| LoweredArith.Unsigned | libevmjit/Compiler.cpp:272-309 | DIV and MOD on the loop meet their definition on every input |
| LoweredArith.Signed | libevmjit/Compiler.cpp:284-323 | SDIV and SMOD on the loop meet their definition on every input |
| LoweredArith.AddModulo | libevmjit/Compiler.cpp:325-341 | ADDMOD is the unbounded sum modulo m, by a 512-bit remainder that may be arbitrary for 0 |
| LoweredArith.MulModulo | libevmjit/Compiler.cpp:343-359 | MULMOD is the unbounded product modulo m |
| ArithRefinement.TruncSpec | libevmjit/Compiler.cpp:284-323 | Quotient and remainder are those with a remainder of the dividend's sign and smaller than the divisor |
| ArithRefinement.MinByMinusOne | libevmjit/Compiler.cpp:293-295 | -2^255 by -1 gives -2^255 and 0 |
| ArithRefinement.SignExtendAgrees | libevmjit/Compiler.cpp:483-511 | SIGNEXTEND by masks extends the sign bit |
| ArithRefinement.ByteAgrees | libevmjit/Compiler.cpp:465-481 | BYTE by a swapped vector gives the byte counted from the top |
| ArithRefinement.PureAgrees | libevmjit/Compiler.cpp:245-511 | All instructions without effect agree with the Yellow Paper, whatever the undefined remainder is |
| Bits.AndBit | libevmjit/Compiler.cpp:438-445 | Bit by bit, the operation of AND is conjunction |
| Bits.OrBit | libevmjit/Compiler.cpp:447-454 | Bit by bit, the operation of OR is disjunction |
| Bits.XorBit | libevmjit/Compiler.cpp:456-463 | Bit by bit, the operation of XOR is inequality |
| Bits.BytesRoundTrip | libevmjit/Memory.cpp:162-171 | The bytes that MSTORE writes are read by MLOAD as the same number |
| ArithRefinement.ExpBytes | libevmjit/GasMeter.cpp:81-95 | The leading-zero formula counts the significant bytes of the exponent |
| Passes.LowerBlock | libevmjit/Optimizer.cpp:106-148 | Walking over a block in place replaces exactly the four divisions of width 256 and the unsigned remainder of width 512 by calls of their own functions on the same operands, and reports whether there was one |
| Passes.LoweringPreserves | libevmjit/Optimizer.cpp:106-148 | Wherever a block is defined, the lowered block computes the same values, whatever the 512-bit remainder by zero is |
| Passes.LoweringIsComplete | libevmjit/Optimizer.cpp:106-148 | None of those divisions is left, each has become the call of its function, nothing else has changed, and lowering again changes nothing |
| Passes.EliminateLongJmps | libevmjit/Optimizer.cpp:38-69 | Walking over the main function in place replaces every abort by an edge to the exit, with -1 for it in the phi, and reports whether there was one |
| Passes.EliminationPreserves | libevmjit/Optimizer.cpp:38-69 | Every run of the main function, of any length, from any block and state, is the same afterwards |
| Passes.AbortReturns | libevmjit/Optimizer.cpp:38-69 | A block that aborts makes the function return -1, before the pass and after it |
| Keccak.KeccakF | libevmjit/Utils.cpp:66-103 | The rounds in place are iota after chi after pi after rho after theta, for every state |
| Keccak.RhoPi | libevmjit/Utils.cpp:84-91 | Following the cycle in place is rho and then pi on all lanes at once |
| Keccak.CycleIsRhoPi | libevmjit/Utils.cpp:43-50 | A cycle that used every table entry has done both mappings |
| Keccak.RhoIsRho | libevmjit/Utils.cpp:43-46 | The table of rotations is the walk of section 3.2.2 of FIPS 202 with its triangular offsets |
| Keccak.PiIsCycle | libevmjit/Utils.cpp:47-50 | The table pi visits every lane but lane 0 once and ends at lane 1 |
| RoundConstants.RcIsRegister | libevmjit/Utils.cpp:51-57 | Every bit of every round constant is that of the shift register of section 3.2.5 of FIPS 202 |
| Keccak.ThetaInPlace | libevmjit/Utils.cpp:76-82 | Theta in place is theta of section 3.2.1 |
| Keccak.ChiInPlace | libevmjit/Utils.cpp:92-99 | Chi, row by row over a saved copy, is chi of section 3.2.4 |
| Lanes.PermuteBytes | libevmjit/Utils.cpp:66-70 | The permutation in place on the 200 bytes of the state is the function that PermutationIsKeccakF is about |
| Lanes.RolBit | libevmjit/Utils.cpp:62 | The macro rol moves bit k of a lane to bit k + s modulo 64, for all rotations by 1 to 63 |
| Lanes.MixLaneBit | libevmjit/Utils.cpp:99 | The operation of chi on lanes, by its truth table |
| KeccakBits.PermutationIsKeccakF | libevmjit/Utils.cpp:66-103 | On the bits of any 200 bytes the permutation is Keccak-f[1600] of section 3.4, defined on strings of bits |
| KeccakBits.OffsetsFollowWalk | libevmjit/Utils.cpp:43-46 | The offsets of rho in that definition are those of the walk of section 3.2.2 |
| Sponge.Hash | libevmjit/Utils.cpp:141-162 | For every message, output length, rate and permutation of 200 bytes: the streaming hash is the sponge over the padded message, or -1 and no change |
| Sponge.AbsorbBlock | libevmjit/Utils.cpp:132-138 | Absorbing a whole block leaves a message with the same padding |
| Sponge.FillInPlace | libevmjit/Utils.cpp:150-154 | Xoring delimiter, last bit and tail one after the other is xoring the padded last block, also when delimiter and last bit share a byte |
| Sponge.PadIsWholeBlocks | libevmjit/Utils.cpp:150-154 | The padded message extends the message to whole blocks |
| Sponge.SqueezeOut | libevmjit/Utils.cpp:157-159 | Squeezing writes the output from successive states |
| SpongeBits.PadIsPad101 | libevmjit/Utils.cpp:150-154 | With delimiter 1 the padding is, as bits, a 1, as few zeroes as make whole blocks, and a 1 (section 5.1) |
| SpongeBits.HashIsSponge | libevmjit/Utils.cpp:141-162 | For every message, rate and output length the bits of the hash with delimiter 1 are SPONGE[Keccak-f[1600], pad10*1, r] of section 4 |
| SpongeBits.Keccak256 | libevmjit/Utils.cpp:165-180 | keccak_256 writes at most 32 bytes, whose bits are that sponge with r = 1088 over the bits of the message, or returns -1 and changes nothing |

## Left out

- LLVM itself: the builder's own folding beyond the instructions without effect, passes, code generation, and
  poison: emitted operations are total and do what their names say.
- The mechanics of setjmp and longjmp: an abort ends the run with the outcome `Failed`. In `Passes` a long jump
  returns the abort code, as the Entry and Abort blocks do together.
- The passes of `Passes` are proved on their own representation of a function; the emitted operations of `Ir` are
  modelled with their final meaning, and not run through them.
- Correctness.CompiledRunsAsDefined: says nothing of runs with a request or penalty that is handled wrongly. There
  the property is false in general; no run below `Threshold.LIMIT` is like that, and from it on some are
  (Threshold.LimitIsExact).
- Arith.UDivRem: a divisor of 0 is excluded, because the code passes it to an operation that is undefined for it.
- Overflow of the block cost counter: no code is long enough for its int64 sum of costs up to 32000 to overflow.
- EXP of two constants: both loops are proved to give the same result, but the model computes EXP at run time, so
  a jump destination that is such a constant goes through the jump table.
- Simplifying the phi of the jump table if it has no or one constant input.
- The host (storage, balances, logs, code, block hashes, calls): arbitrary functions of an abstract world. What the
  host's call does with its arguments, and the layout of its structures, are not part of this model; of the
  revisions only the order is used.
- The price of BLOCKHASH from Constantinople on, and the lack of the opcodes introduced with it, are the code's also in
  `OpcodeMachine`; all other static costs there are those of the fee schedule.
- SHA3 as an instruction hashes with an arbitrary function of the bytes, which stands for the hash of `Sponge`.
- Lanes.PermuteBytes: lanes are loaded from and stored to the byte buffer, lowest byte first, where the code casts
  the pointer on a little-endian machine.
- Failure of realloc, which the code does not check, and the unused operations of `Array`.
- `libevmjit/Cache.cpp`, the life cycle of the engine and its code map, statistics, logging and options.
