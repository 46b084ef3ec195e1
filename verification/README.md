# Collapse OS: a verified model of its virtual machine, drivers and tools

Dafny models of the most intricate parts of Collapse OS and proofs about them. Check the whole project with
`dafny verify dfyconfig.toml`.

Parts that change things step by step are classes and methods in the form of the program. Each method equates the
state it leaves with a function of the state before (modules with `Spec` in their name, or the module named in the
contract). The lemmas then prove what those functions mean, by comparing them with something simpler: abstract stacks,
a source semantics, an array of blocks, a matrix of cells, a plain copy, a prefix order on byte streams.

| part of the system | object form | functions and proofs |
|---|---|---|
| virtual machine (`cvm/vm.c`) | Vm | Bits, Words, VmSpec, Stacks, MachineWords |
| Forth compiler and dictionary (`blk.fs`) | ForthSystem | Forth, Meaning, Simulation, Marks, Divergence, CompilerSpec, Definitions, Copying, Dictionary, Loops, Kernel |
| block cache over the port protocol (`blk.fs`, `cvm/cvm.fs`) | Blk | BlkSpec |
| CRC in three forms (`tools/csum.c`, `emul/z80/sdc.c`, `blk.fs`) | methods of Crc, CrcBits | Crc, CrcBits |
| SD card and its driver (`emul/z80/sdc.c`, `emul/z80/rc2014_spi.c`, `blk.fs`) | SdCard, SdDriver | SdSpec, SdSafety, SdWire, SdDriverSpec, SdProtocol, SdStart, SdPolls, SdTransfer |
| block files as text (`tools/blkpack.c`, `tools/blkunpack.c`) | BlkTools | Decimals, BlkText, BlkRoundTrip, BlkGrammar, BlkCompose |
| LDIR of the Z80 (`emul/z80/z80.c`, `emul/z80/opcodes_impl.c`) | Ldir | Copying, LdirSpec |
| REPNE and REPE SCASB of the 8086 (`emul/8086/cpu.c`) | Scasb | ScasbSpec, RepScan |
| serial handshake (`emul/z80/acia.c`, `emul/z80/rc2014.c`) | Acia | AciaSpec |
| LCD controller (`emul/z80/t6a04.c`) | Lcd | LcdSpec, LcdScreen |
| number literals (`blk.fs`) | NumberWords | Decimals, Numbers |

## How the main results fit together

- **Compiler.** `Forth` gives structured programs a big-step meaning on two stacks and a memory. `CompileCorrect` says
  which bytes the compiling words produce, and exactly when they abort. `Simulate` says that those bytes, run by the
  machine whose stacks lie in the same memory, reach what the meaning gives, and `ProgramInBounds` that both stacks
  and the code are as they should be after every single instruction on the way. `RunsForEver` is the same for a meaning
  that never answers: the machine never stops and never leaves C. `DefineKeepsImage` and `CompiledWordRuns` join
  compiling and running for whole definitions, recursion included; `BootImage` and `ProgramRuns` do so from nothing, on
  the native words that `cvm/cvm.fs` lays down. A step that leaves C (a cell at 0xffff, an empty opcode slot, a zero
  divisor, a transfer past memory) sets `trapped`; the stack invariant `Rep` excludes it.
- **Block cache.** `Protocol` reduces five port writes to one transfer. `CacheRefinesArray` says that every session is
  a session on an array of blocks.
- **SD card.** `SafeRun` speaks about every byte stream, whoever sends it. `StartIff`, `CardIsArray` and
  `PowerUpSession` speak about driver and card together; `SDC$` is shown to end on every card, and `StartIff` says when
  it succeeds on a card that it may find in the middle of a frame or an answer.
- **Meaning in numbers.** Machine and source language, driver and card, writer and reader share their vocabulary. So
  that no theorem holds only of a vocabulary that is wrong on both sides, `Meaning` and `MachineWords` say what every
  word answers in numbers, `SdWire` what the card puts on its wire byte for byte, `BlkGrammar` what the text of a block
  file is byte by byte, and laws like `ReadLaws`, `FlagsMean`, `FiveBytes` or `HexDigits` do so elsewhere.
- **Block files.** `UnpackAfterPack` and `PackAfterUnpack` are the two round trips, `PackMeans` says which texts
  pack and to what, and `PackAppend` is the law of concatenation.
- **Repeat instructions.** `LdirRun` and `RepScasb` are inductions over fetch, decode and execute.
- **Devices.** `Handshake`, `PrintDrains` and `ReceiveReported` hold for every interleaving of guest and host steps,
  `RunRefines` for every run of the LCD in any mixture of its modes.

## Where the code falls short of what one would expect

- `SDC$` fails on a card that is already initialized: such a card answers CMD0 with 0, so the word ends in `_err`
  (`SdStart.StartIff` gives both directions).
- `BLK@` of block $ffff after `FLUSH` reads nothing, because $ffff marks the empty buffer (`BlkSpec.LoadDelivers`, with
  a machine state that shows it).
- `SDC@` and `SDC!` double the block number into a cell, so block 32768 is block 0 (`SdTransfer.ReadBlockIff`,
  `SdTransfer.WriteBlockIff`, `SdTransfer.BlockNumbersWrap`).
- Two texts that pack alone need not pack together: a first marker line of more than 65 bytes is refused after a block
  of fewer than 16 rows (`BlkCompose.PackAppend` gives both directions, `BlkCompose.LongFirstLineRefused` an example).
- A transfer by the guest without looking at the status bits loses or repeats a byte (`AciaSpec.StepConserves`).
- LDIR onto an overlapping destination repeats the first bytes of the source (`Copying.BlockCopyIff` and
  `Copying.CopyAt`).
- A data read on the ACIA takes away a transmit interrupt that was not reported yet (`AciaSpec.TransmitRaised`).
- `PARSE` sets bit 5 of a character before it looks for it among the hexadecimal digits, so behind a dollar sign the
  control characters from 16 to 25 count as digits (`Numbers.HexDigits`).
- A NUL in a line makes `blkpack` print fewer than 64 bytes for its row, which shifts the rest of the image
  (`BlkGrammar.RowPacks`).
- The comment in `tools/blkunpack.c` speaks of trimming white space. The code trims every byte that is not greater than
  a space as a signed `char`, so control characters and bytes from 0x80 on count as blank. The model follows the code.
- The comment before `SDC$` in `blk.fs` says that CMD55 and CMD41 are repeated until the card leaves its idle mode. The
  emulated card leaves it in the first round (`SdStart.OneRound`).

## Model

| member | source | states |
|---|---|---|
| Vm.Init | cvm/vm.c:184-230 | no machine if and only if the boot image or the block file is missing or the block file has less than 100 KiB; otherwise a machine with memory, stacks, port and registers as after a start |
| Vm.VM.constructor | cvm/vm.c:193-229 | what is set up once both files are there: both stacks empty at their bases, the port idle, memory is the boot image followed by bytes that may be anything |
| Vm.VM.Gw | cvm/vm.c:63 | the little-endian cell at an address; an access at 0xffff is recorded as leaving C |
| Vm.VM.Sw | cvm/vm.c:64-67 | the two bytes of a cell change and no other; 0xffff is recorded as leaving C |
| Words.SetWordAt | cvm/vm.c:63-67 | a stored cell reads back, its low byte lies first, and every other byte keeps its value |
| Words.LogicBits | cvm/vm.c:131-133 | each of the 16 bits of AND, OR and XOR comes from the two bits in its place |
| Vm.VM.Peek | cvm/vm.c:68 | the cell that SP points to, and no change |
| Vm.VM.Pop | cvm/vm.c:70 | the cell at SP, SP up by two modulo 2^16 |
| Vm.VM.Push | cvm/vm.c:74-78 | SP down by two, the cell stored there, minSP lowered if needed |
| Vm.VM.PopRS | cvm/vm.c:81-83 | the cell at RS, RS down by two |
| Vm.VM.PushRS | cvm/vm.c:85-89 | RS up by two, the cell stored there, maxRS raised if needed |
| Vm.VM.Pc16 | cvm/vm.c:91 | the cell at PC, PC behind it |
| Vm.VM.IowrBlk | cvm/vm.c:43-60 | four bytes are shifted in; with the last one non-zero the fifth triggers a transfer of 1024 bytes to or from the file and resets the port |
| Vm.VM.Fread | cvm/vm.c:54 | what the file holds at the offset, at most 1024 bytes, replaces memory there and nothing else |
| Vm.VM.IoWrite | cvm/vm.c:29-38 | port number modulo 256; only the block port has an effect |
| Vm.VM.LblNext | cvm/vm.c:95 | PC is the cell at IP, IP behind it (the whole new machine state) |
| Vm.VM.LblXt | cvm/vm.c:96 | IP saved on the return stack and replaced by the popped address, then the inner interpreter (the whole new machine state) |
| Vm.VM.LblDoes | cvm/vm.c:97 | PC through the popped cell, the address behind it pushed (the whole new machine state) |
| Vm.VM.LblVal | cvm/vm.c:98-108 | a store into the cell when the TO flag is set, which it clears, and a fetch otherwise (the whole new machine state) |
| Vm.VM.Dup | cvm/vm.c:109 | a second copy of the top (the whole new machine state) |
| Vm.VM.Swap | cvm/vm.c:111 | the two top cells exchanged (the whole new machine state) |
| Vm.VM.Over | cvm/vm.c:112 | the second cell on top of the first (the whole new machine state) |
| Vm.VM.Rot | cvm/vm.c:113-115 | the third cell comes to the top (the whole new machine state) |
| Vm.VM.Rs2Ps | cvm/vm.c:116 | top of the return stack moves to the parameter stack (the whole new machine state) |
| Vm.VM.Ps2Rs | cvm/vm.c:117 | top of the parameter stack moves to the return stack (the whole new machine state) |
| Vm.VM.RFetch | cvm/vm.c:118 | top of the return stack copied (the whole new machine state) |
| Vm.VM.PushI | cvm/vm.c:120 | the cell after the opcode pushed (the whole new machine state) |
| Vm.VM.PushII | cvm/vm.c:121 | the cell that the next cell points to pushed (the whole new machine state) |
| Vm.VM.CFetch | cvm/vm.c:122 | the byte at the popped address (the whole new machine state) |
| Vm.VM.Fetch | cvm/vm.c:123 | the cell at the popped address (the whole new machine state) |
| Vm.VM.CStore | cvm/vm.c:124 | low byte of the second cell stored at the first (the whole new machine state) |
| Vm.VM.Store | cvm/vm.c:125 | the second cell stored at the first (the whole new machine state) |
| Vm.VM.Execute | cvm/vm.c:126 | PC is the popped address (the whole new machine state) |
| Vm.VM.JmpI | cvm/vm.c:127 | PC is the next cell (the whole new machine state) |
| Vm.VM.JmpII | cvm/vm.c:128 | PC is the cell that the next cell points to (the whole new machine state) |
| Vm.VM.CallI | cvm/vm.c:129 | address behind the operand pushed, then a jump (the whole new machine state) |
| Vm.VM.Not | cvm/vm.c:130 | 1 for zero, 0 for anything else (the whole new machine state) |
| Vm.VM.Binary | cvm/vm.c:131-135 | a word of two operands takes its right operand from the top (the whole new machine state) |
| Vm.VM.Branch | cvm/vm.c:136-137 | IP moves by the signed byte at IP, modulo 2^16 (the whole new machine state) |
| Vm.VM.CBranch | cvm/vm.c:138 | branches on zero and steps over the byte otherwise (the whole new machine state) |
| Vm.VM.Next | cvm/vm.c:139-143 | counts the return stack top down; zero drops it and falls through, anything else goes back (the whole new machine state) |
| Vm.VM.PcStore | cvm/vm.c:144-147 | low byte of the second cell written to the port on top (the whole new machine state) |
| Vm.VM.PcFetch | cvm/vm.c:148 | a port without handler reads as zero (the whole new machine state) |
| Vm.VM.DivMod | cvm/vm.c:150-153 | remainder below quotient; a zero divisor is recorded as leaving C (the whole new machine state) |
| Vm.VM.RCnt | cvm/vm.c:156 | half the distance of RS from its base (the whole new machine state) |
| Vm.VM.SCnt | cvm/vm.c:157 | half the distance of SP from its base (the whole new machine state) |
| Vm.VM.Exit | cvm/vm.c:159 | IP is the popped return address (the whole new machine state) |
| Vm.VM.CDup | cvm/vm.c:160 | a copy of the top unless it is zero (the whole new machine state) |
| Vm.VM.Lit8 | cvm/vm.c:161 | the byte at IP pushed, IP behind it (the whole new machine state) |
| Vm.VM.Lit16 | cvm/vm.c:162 | the cell at IP pushed, IP behind it (the whole new machine state) |
| Vm.VM.OpExec | cvm/vm.c:165-182 | each of the 67 slots runs its word, an empty slot is recorded as leaving C, an opcode past the table halts the machine |
| Vm.VM.ExecLow | cvm/vm.c:165-168 | the slots below 30 |
| Vm.VM.ExecHigh | cvm/vm.c:168-182 | the slots from 30 on and the opcodes past the table |
| Vm.VM.Step | cvm/vm.c:243 | PC is advanced before the opcode acts |
| Vm.VM.Steps | cvm/vm.c:237-247 | n instructions or fewer if the machine halts; answers whether it still runs |
| VmSpec.RunAdd | cvm/vm.c:237-247 | a run can be cut into two runs anywhere |
| Stacks.RepPush | cvm/vm.c:74-78 | while the two stacks do not meet, a push in memory is an append to the abstract parameter stack and leaves the return stack and low memory alone |
| Stacks.RepPop | cvm/vm.c:68-70 | a pop in memory removes and returns the last element of the abstract parameter stack |
| Stacks.RepPushRS | cvm/vm.c:85-89 | a return stack push in memory is an append to the abstract return stack and leaves the parameter stack alone |
| Stacks.RepPopRS | cvm/vm.c:81-83 | a return stack pop removes and returns the last element |
| Stacks.RepSwap | cvm/vm.c:111 | SWAP on memory exchanges the last two elements of the abstract stack |
| Stacks.RepOver | cvm/vm.c:112 | OVER on memory appends the last element but one |
| Stacks.RepRot | cvm/vm.c:113-115 | ROT on memory rotates the last three elements |
| Stacks.RepDivMod | cvm/vm.c:150-153 | /MOD on memory leaves remainder and quotient in that order |
| Stacks.RepStore | cvm/vm.c:125 | a store below the stacks changes the low memory and neither stack |
| Stacks.RepCounts | cvm/vm.c:156-157 | SCNT and RCNT push the depths of the abstract stacks |
| Stacks.PrimStep | cvm/vm.c:109-163 | every native word of the source language does on the machine what its meaning says on two abstract stacks and a memory |
| Meaning.Sums | cvm/vm.c:134-135 | + and - answer the sum and the difference modulo 2^16, * (line 149) the product modulo 2^16; the rest of both stacks stays |
| Meaning.Comparison | cvm/vm.c:163 | < answers 1 if and only if the left operand, the one below, is less than the right one, and 0 otherwise |
| Meaning.Logic | cvm/vm.c:131-133 | AND, OR and XOR bit by bit, in numbers |
| Meaning.Division | cvm/vm.c:150-153 | /MOD leaves r under q with q*b+r = a and r < b; a zero divisor has no meaning |
| Meaning.Shuffles | cvm/vm.c:111-115 | a b to b a, a b to a b a, a b c to b c a |
| Meaning.Tops | cvm/vm.c:109-110 | DUP, DROP, ?DUP and NOT (lines 130 and 160) on the top of the stack |
| Meaning.Frames | cvm/vm.c:116-119 | >R, R>, R@ and R~ between the two stacks |
| Meaning.Depths | cvm/vm.c:156-157 | SCNT and RCNT answer the two depths |
| Meaning.CellFetch | cvm/vm.c:123 | @ answers the two bytes at the address, the first one low |
| Meaning.ByteFetch | cvm/vm.c:122 | C@ answers the byte at the address |
| Meaning.Stores | cvm/vm.c:124-125 | ! and C! change the two bytes or the byte at the address, low byte first, and nothing else |
| Meaning.Underflow | cvm/vm.c:109-163 | a word without enough on its stacks has no meaning |
| MachineWords.FirstCells | cvm/vm.c:74-89 | the first cell pushed lies at 0xfff8, the first one on the return stack at 0xff02 |
| MachineWords.FromMeaning | cvm/vm.c:165-173 | what Meaning says of a word, its slot does on the machine |
| MachineWords.SumSlots | cvm/vm.c:165-173 | slots 28, 29, 53 and 33: sum, difference and product modulo 2^16, and 1 for a left operand below the right one |
| MachineWords.LogicSlots | cvm/vm.c:165-173 | slots 39, 40 and 41: AND, OR and XOR of each bit |
| MachineWords.DivideSlot | cvm/vm.c:165-173 | slot 54: remainder r and quotient q with q*b+r = a and r < b |
| MachineWords.ShuffleSlots | cvm/vm.c:165-173 | slots 4, 5 and 6: exchange, copy of the second, rotation of three |
| MachineWords.TopSlots | cvm/vm.c:165-173 | slots 1, 38, 0 and 14: DROP, NOT, DUP and ?DUP |
| MachineWords.ReturnSlots | cvm/vm.c:165-173 | slots 62, 61, 60 and 26 between the two stacks, 58 and 57 the two depths |
| MachineWords.Distances | cvm/vm.c:156-157 | in every state, beyond the bases too: the distance in whole cells, rounded toward zero, modulo 2^16 |
| MachineWords.MemorySlots | cvm/vm.c:165-173 | slots 64, 63, 65 and 66: cells and bytes, low byte first |
| MachineWords.Executes | cvm/vm.c:126 | slot 21 goes on at the popped address |
| MachineWords.Jumps | cvm/vm.c:127-128 | slot 11 goes to the operand, slot 17 to the cell it points to; nothing else changes |
| MachineWords.Calls | cvm/vm.c:129 | slot 10 pushes the address behind its operand and goes to the operand |
| MachineWords.Constants | cvm/vm.c:120-121 | slot 2 pushes the operand and slot 3 the cell it points to; PC is behind it |
| MachineWords.Does | cvm/vm.c:97 | slot 18 replaces the address of a pair by that of its second part and goes on at the first |
| MachineWords.ValueFetch | cvm/vm.c:98-108 | slot 19 without TO: the value instead of its address, then the inner interpreter |
| MachineWords.ValueStore | cvm/vm.c:98-108 | slot 19 with TO: the value under the address is stored there, the flag is cleared, then the inner interpreter |
| MachineWords.Ports | cvm/vm.c:144-148 | slot 51 reaches the block port if and only if the low byte of the port is 3, with the low byte of the value; slot 52 answers 0 |
| MachineWords.Resets | cvm/vm.c:154-158 | QUIT empties the return stack and ABORT the parameter stack; BYE and the opcodes from 67 on stop the machine; nothing else changes |
| MachineWords.EmptySlot | cvm/vm.c:165-173 | an instruction at one of the 21 empty slots leaves C |
| MachineWords.LeavesC | cvm/vm.c:63-67 | @ and ! leave C if and only if the address is 0xffff, /MOD if and only if the divisor is zero |
| MachineWords.StacksMeet | cvm/vm.c:74-89 | with 124 cells on both stacks the next push lands on the top of the return stack: there is room for no more |
| Marks.ExecWider | cvm/vm.c:165-182 | no instruction at all pulls minSP up or maxRS down |
| Marks.MarksBoundRun | cvm/vm.c:77-89 | for a run whose every moment is held, which Simulate supplies, SP and RS lie within the marks read at its end at every moment, the stacks do not meet and the code is as compiled |
| Marks.ProgramInBounds | cvm/vm.c:68-89 | for every program with an outcome, with no assumption about the moments in between: at every instruction until its end both memory stacks stay between their bases and the final marks, apart from each other, and every byte of code keeps its value |
| Forth.EvalMoreFuel | blk.fs:831-834 | the meaning of a program does not depend on the fuel once it has an outcome |
| Simulation.FetchCell | cvm/vm.c:95 | the inner interpreter enters the word whose cell IP points to |
| Simulation.NativeWord | cvm/cvm.fs:13-47 | a native word takes three instructions: fetch the cell, act, jump back to the inner interpreter |
| Simulation.SimPrim | cvm/cvm.fs:25-47 | the cell of a native word, executed, has the effect of its meaning and goes on at the next cell |
| Simulation.SimLit | blk.fs:665 | a compiled number pushes itself and goes on behind its operand, in both its byte and its cell form |
| Simulation.SimExit | cvm/vm.c:159 | EXIT resumes at the address on top of the return stack |
| Simulation.SimBranch | cvm/vm.c:136-137 | (br) lands on its target, in either direction |
| Simulation.SimCBranch | cvm/vm.c:138 | (?br) falls through on a true flag and lands on its target on zero |
| Simulation.SimNext | cvm/vm.c:139-143 | (next) falls through when the counter was one and otherwise goes back with it decremented |
| Simulation.EnterWord | cvm/vm.c:95-96 | the cell of a colon word leads to its body with the address of the next cell on the return stack |
| Simulation.SimLeave | blk.fs:627 | LEAVE, run from its own compiled body, replaces the caller's counter by one and returns |
| Simulation.Simulate | blk.fs:806-834 | compiler correctness, execution half: for every structured program, calls nested to any depth included, whenever the meaning gives an outcome the machine reaches the cell behind the code (or has returned) with exactly those stacks and that memory; at every moment on the way the memory stacks represent two sequences and the code is intact |
| Divergence.Diverge | blk.fs:806-834 | a program that runs out of fuel keeps the machine going in proportion to the fuel, in every state as it should be |
| Divergence.RunsForEver | blk.fs:806-834 | a program whose meaning never answers runs for ever on the machine: at every moment inside C with both stacks and the code as they should be, and after every moment another cell is fetched |
| Simulation.SimCall | cvm/vm.c:95-96 | a call resumes at the cell after it with the return stack restored, whether its body ends or exits early |
| Simulation.SimIfElse | blk.fs:815-821 | both arms of IF ELSE THEN end behind THEN |
| Simulation.SimUntil | blk.fs:831-833 | BEGIN UNTIL repeats until the flag is true |
| Simulation.SimNextLoop | blk.fs:831-834 | BEGIN NEXT repeats until the counter has run down |
| ForthSystem.System.constructor | blk.fs:794-803 | memory, HERE and CURRENT as given, no open branch |
| ForthSystem.System.Comma | blk.fs:638 | a cell at HERE, HERE up by two |
| ForthSystem.System.CComma | blk.fs:638 | a byte at HERE, HERE up by one |
| ForthSystem.System.Allot | blk.fs:633 | HERE moved modulo 2^16 |
| ForthSystem.System.LitN | blk.fs:665 | (n) and a cell for a number above 255, (b) and a byte otherwise |
| ForthSystem.System.IfWord | blk.fs:815-816 | (?br), a byte left open, its address kept |
| ForthSystem.System.ThenWord | blk.fs:817-818 | the open byte patched with the distance to HERE, or an abort when it does not fit |
| ForthSystem.System.ElseWord | blk.fs:819-821 | (br) with an open byte, and the IF byte patched to lead behind it |
| ForthSystem.System.BeginWord | blk.fs:831 | HERE kept |
| ForthSystem.System.LoopWord | blk.fs:832-834 | the branch word and the distance back to BEGIN, or an abort |
| ForthSystem.System.CompileToken | blk.fs:808-809 | numbers are compiled as literals, words as cells, immediate words are executed |
| ForthSystem.System.CompileTokens | blk.fs:806-811 | the loop of XTCOMP over everything up to the semicolon, ended by an abort |
| ForthSystem.System.Colon | blk.fs:806-812 | a header, a call to the xt routine, the compiled body and EXIT |
| CompilerSpec.CommaEffect | blk.fs:638 | the cell stands where HERE was and no other byte changed |
| CompilerSpec.LitBytes | blk.fs:665 | the bytes of a compiled number: (b) and one byte below 256, (n) and a cell, low byte first, from 256 on; no other byte changes |
| CompilerSpec.IfEffect | blk.fs:815-816 | what IF leaves open is the byte in front of HERE |
| CompilerSpec.ThenEffect | blk.fs:817-818 | the patched byte leads exactly to HERE; it aborts if and only if HERE is more than 127 bytes away |
| CompilerSpec.ElseEffect | blk.fs:819-821 | the IF byte leads behind the new branch; it aborts if and only if that is more than 127 bytes away; only those bytes change |
| CompilerSpec.LoopEffect | blk.fs:832-834 | the byte leads exactly to BEGIN; it aborts if and only if that is more than 128 bytes back |
| CompilerSpec.NothingOpen | blk.fs:817-834 | with nothing open THEN, ELSE and the loop words end the compilation |
| CompilerSpec.EmittedKept | blk.fs:815-834 | compiled code depends on its own bytes only |
| CompilerSpec.CompileCorrect | blk.fs:806-834 | compiler correctness, compiling half: reading the source of any structured program puts exactly its compiled form at HERE, leaves no address behind and touches no other byte; it aborts if and only if some branch is out of reach |
| Definitions.ColonEffect | blk.fs:806-812 | every byte that a definition leaves behind, and that it completes if and only if its branches fit |
| Definitions.DefineKeepsImage | blk.fs:806-812 | after a definition the dictionary image still holds: every old word runs as before and the new one, recursion included, as its source says |
| Definitions.CompiledWordRuns | blk.fs:806-812 | end to end: compile a word, execute a cell that refers to it, and the machine comes back to the next cell with exactly the stacks and memory that its source means |
| Kernel.NativeBody | cvm/cvm.fs:13-47 | every native word of the kernel is found, at the place the ones before it leave it, as its opcode and a jump to the inner interpreter |
| Kernel.BodiesLaid | blk.fs:746-748 | after any definitions every body stands at the place that the names and bodies before it determine, whole |
| Kernel.KernelChain | cvm/cvm.fs:13-47 | following the links from CURRENT finds the native words of cvm.fs and LEAVE under their names, newest first |
| Kernel.BootImage | cvm/cvm.fs:12-47 | the dictionary image that the theorems ask for exists: the label stubs, then every native word in its order as CODE lays it down, header included, then LEAVE |
| Kernel.ProgramRuns | blk.fs:806-812 | from nothing: any program that fits, compiled on that kernel and called from a second compiled word, runs from empty stacks to the result that its source means |
| Loops.CountedLoop | blk.fs:834 | `n >R BEGIN body NEXT` makes exactly n passes for a body that leaves the return stack alone, and 65536 for n = 0 |
| Loops.LoopStops | cvm/vm.c:139-143 | a pass that hands back the counter one is the last |
| Loops.LeaveEndsLoop | blk.fs:627 | LEAVE makes the current pass the last, whatever the counter still was |
| Dictionary.Lookup | blk.fs:732-737 | a hit has the name asked for; a miss means that no entry has it |
| Dictionary.LookupNewest | blk.fs:732-737 | the answer is the first match: every newer entry has another name |
| ForthSystem.System.Find | blk.fs:732-737 | FIND terminates, because links strictly decrease, and answers the newest entry with the name, or that there is none |
| ForthSystem.System.BytesEqual | blk.fs:651-654 | []= answers whether two ranges hold the same bytes |
| ForthSystem.System.Cell | blk.fs:737 | the link field as a cell |
| ForthSystem.System.MoveIn | blk.fs:640-642 | MOVE, copies a range to HERE one byte after another, overlapping or not, addresses modulo 2^16, and moves HERE |
| Dictionary.CopyIsMoveIn | blk.fs:640-642 | it appends the range as it was unless the range starts below HERE and reaches past it |
| ForthSystem.System.Header | blk.fs:746-748 | CODE lays down name, link and length, and CURRENT moves behind them |
| ForthSystem.System.Immediate | blk.fs:637 | bit 7 of the newest length byte is set and nothing else changes |
| ForthSystem.System.Forget | blk.fs:751-757 | HERE at the start of the header, CURRENT at the linked entry |
| Dictionary.ChainImmediate | blk.fs:637 | setting an immediate bit changes no entry of the dictionary |
| Dictionary.ImmediateSets | blk.fs:637 | IMMEDIATE sets bit 7 of the byte in front of CURRENT, keeps its other bits, and changes nothing else |
| Dictionary.HeaderBytes | blk.fs:746-748 | the bytes that CODE lays down: the name, the link, low byte first, and the length |
| Dictionary.DefineFlag | blk.fs:637 | the length byte of a defined word has bit 7 set if and only if IMMEDIATE followed |
| Dictionary.HeaderChains | blk.fs:746-748 | CODE puts a new entry in front of the dictionary and changes no other |
| Dictionary.DefineAllChains | blk.fs:746-748 | after any definitions, immediate or not, the dictionary is the old one with their entries in front in reverse order |
| Dictionary.ForgetUndoes | blk.fs:751-757 | define a word and then any others: FIND answers that word, and FORGET restores HERE, CURRENT and the dictionary from before it |
| Blk.BlkSystem.constructor | blk.fs:842-849 | the buffer and its variables lie at the given address of the machine |
| Blk.BlkSystem.SendCommand | cvm/cvm.fs:60-64 | a command is five writes to port 3: code, block number and address, high bytes first |
| Blk.BlkSystem.Store | blk.fs:851 | the buffer written to the current block, the dirty flag cleared |
| Blk.BlkSystem.Flush | blk.fs:852 | a dirty buffer written, then no current block |
| Blk.BlkSystem.Load | blk.fs:853-855 | nothing for the current block, otherwise FLUSH, the new number and a read |
| Blk.BlkSystem.Wipe | blk.fs:857 | the buffer filled with spaces byte by byte and marked dirty |
| Blk.BlkSystem.Copy | blk.fs:858 | FLUSH, read the source, write it under the other number |
| Blk.BlkSystem.SetCur | blk.fs:845 | the BLK> cell |
| Blk.BlkSystem.SetDirty | blk.fs:847 | the BLKDTY cell |
| Blk.BlkSystem.Begin | blk.fs:849 | BLK$: no block, not dirty, and the mark behind the buffer |
| BlkSpec.Protocol | cvm/vm.c:43-60 | the five port writes of a command make exactly one block transfer and leave the port idle again |
| BlkSpec.FiveBytes | cvm/vm.c:43-60 | what the C handler makes of any five bytes on an idle port: operation, block number and address, high bytes first; without an operation nothing, past the end of memory it leaves C |
| BlkSpec.FreadAt | cvm/vm.c:54 | each byte of memory after a read: the file where it reaches, and as before elsewhere |
| BlkSpec.FwriteAt | cvm/vm.c:52 | each byte and the length of the file after a write, with zeros in a gap behind its old end |
| BlkSpec.VarsPlace | blk.fs:842-848 | the number of the block lies 0x403 and the dirty flag 0x405 bytes behind the buffer, low byte first |
| BlkSpec.StepKeeps | blk.fs:842-875 | no word of the subsystem changes memory outside its buffer and variables, or a register |
| BlkSpec.StoreRefines | blk.fs:851 | BLK! makes the file agree with the buffer and changes nothing that a user sees |
| BlkSpec.FlushRefines | blk.fs:852 | FLUSH leaves the file equal to what a user saw, block for block |
| BlkSpec.LoadRefines | blk.fs:853-855 | BLK@ brings the block, edits included, into the buffer; no block changes for a user |
| BlkSpec.EditRefines | blk.fs:856 | a change of the buffer followed by BLK!! changes the current block and no other |
| BlkSpec.CopyRefines | blk.fs:858 | COPY makes one block equal to another, on disk too |
| BlkSpec.CacheRefinesArray | blk.fs:851-858 | over every session within bounds the cached disk is an array of blocks, and a final FLUSH makes the file equal to it |
| BlkSpec.BeginRefines | blk.fs:849 | BLK$ makes any buffer agree with any file of whole blocks and shows what the file holds |
| BlkSpec.SessionFromStart | blk.fs:849-858 | from BLK$ on, any session within bounds and a FLUSH: the file is the array that the session makes of its blocks |
| BlkSpec.LoadDelivers | blk.fs:853-855 | after FLUSH, BLK@ delivers block n in every state if and only if n is not $ffff, the mark for an empty buffer |
| Crc.Checksum | tools/csum.c:8-25 | size and sum modulo 2^32 and CRC of the whole input; the low 16 bits of the register, which never is masked, are the CRC of the card |
| Crc.WideByte | tools/csum.c:14-20 | eight turns of the inner loop |
| CrcBits.WideStep | tools/csum.c:15-19 | one turn, whichever branch is taken |
| CrcBits.TurnStep | blk.fs:657 | one turn of CRC16, whichever branch is taken |
| Crc.Crc16 | blk.fs:655-657 | the Forth word gives the value of the shift form of the card |
| Crc.FormsAgree | emul/z80/sdc.c:6-12 | on every byte sequence and from every start the three forms of the CRC agree |
| Crc.CheckValue | tools/csum.c:14-20 | the CRC of the digits 1 to 9 is 0x31c3 |
| Crc.ResidueIsZero | emul/z80/sdc.c:6-12 | a message followed by its CRC, high byte first, folds to zero |
| Crc.FoldInjective | emul/z80/sdc.c:6-12 | different registers stay different over equal data |
| Crc.BurstDetected | emul/z80/sdc.c:6-12 | messages that can differ only in two adjacent bytes have equal CRCs if and only if they are equal |
| Crc.CrcsAgree | emul/z80/sdc.c:6-12 | the CRC of the card and of the driver agree on integers |
| SdCard.SDC.constructor | emul/z80/sdc.c:14-22 | a sleeping card, indices at their start, no transfer |
| SdCard.SDC.Spix | emul/z80/sdc.c:24-184 | one exchange: the reply byte and the whole new card state |
| SdCard.SDC.ReadByte | emul/z80/sdc.c:39-52 | the next byte of the file, or 0xff past its end; after 512 of them the CRC is queued |
| SdCard.SDC.WriteByte | emul/z80/sdc.c:67-93 | 512 bytes go to the file, two CRC bytes are taken, the data response is queued |
| SdCard.SDC.Command | emul/z80/sdc.c:103-184 | a complete frame moves the initialization on or back, or starts a transfer |
| SdSpec.Spix | emul/z80/sdc.c:24-184 | every exchange keeps the four indices in their buffers, never has a read and a write active together, and nothing else going on while a frame comes in |
| SdSafety.HistoryStep | emul/z80/sdc.c:94-157 | what the card state says about the bytes so far stays true over every exchange |
| SdSafety.SafeRun | emul/z80/sdc.c:24-184 | over every byte stream from power-up: indices in range, one transfer at most; the card is initialized, and its file touched, only after CMD0, CMD8 with 0x1aa, CMD55 and CMD41 with 0x4000 as consecutive frames |
| SdSafety.NeverLeft | emul/z80/sdc.c:157-184 | an initialized card stays initialized whatever it is sent |
| SdWire.FrameHeard | emul/z80/sdc.c:94-110 | six bytes from 0x40 to 0x7f on go unanswered while they come in and are then obeyed |
| SdWire.InitOnWire | emul/z80/sdc.c:111-156 | byte for byte: CMD0 is answered 01, CMD8 01 00 00 01 aa, CMD55 01, CMD41 00, and the card is initialized |
| SdWire.ReadOnWire | emul/z80/sdc.c:39-169 | byte for byte: CMD17 is answered 00 fe, the 512 bytes of the sector (ff behind the end of the file) and their CRC16 from 0, high byte first |
| SdWire.WriteOnWire | emul/z80/sdc.c:56-179 | byte for byte: CMD24 is answered 00, then come ff until the data response 05; the file has the sector in its place and nothing else changed |
| SdDriver.Driver.constructor | emul/z80/rc2014_spi.c:3-8 | deselected, 0xff as the last answer |
| SdDriver.Driver.Spie | emul/z80/rc2014_spi.c:13-16 | any non-zero value selects the card |
| SdDriver.Driver.Spix | emul/z80/rc2014_spi.c:18-28 | a selected card exchanges a byte; otherwise the card sees nothing and 0xff comes back |
| SdDriver.Driver.Idle | blk.fs:1000 | one exchange of 0xff |
| SdDriver.Driver.Wait | blk.fs:1004-1006 | idles until something else than 0xff comes back, 20 times at most |
| SdDriver.Driver.Ready | blk.fs:1020 | idles until 0xff comes back, and terminates because the card's backlog shrinks |
| SdDriver.Driver.Crc7 | blk.fs:1025-1030 | eight turns of the CRC of commands |
| SdDriverSpec.Crc7IsSerial | blk.fs:1025-1030 | on every byte the word keeps the 7-bit register of x^7+x^3+1, fed bit by bit, one bit to the left |
| SdDriver.Driver.SendCrc | blk.fs:1032 | bytes sent in order while the CRC runs over them |
| SdDriver.Driver.Cmd | blk.fs:1039-1048 | wait, five bytes and their CRC, wait for the answer |
| SdDriver.Driver.CmdR1 | blk.fs:1052 | a command with the card selected around it |
| SdDriver.Driver.IdleWord | blk.fs:1061 | two bytes, high byte first |
| SdDriver.Driver.CmdR7 | blk.fs:1058-1063 | a command and the four bytes behind its answer |
| SdDriver.Driver.TenIdles | blk.fs:1085 | ten idle exchanges |
| SdDriver.Driver.Reset | blk.fs:1086-1089 | CMD0 until the answer is 1, ten times at most |
| SdDriver.Driver.Activate | blk.fs:1094-1099 | CMD55 and CMD41 until the card is out of idle mode, or an answer that ends in _err; it ends on every card |
| SdDriver.Driver.Start | blk.fs:1084-1099 | SDC$ on a card in any state: it ends; relay, card and SDC_SDHC afterwards, and whether it ended in _err |
| SdDriver.Driver.ReadSector | blk.fs:1101-1108 | 512 bytes stored in order, accepted if their CRC is the one sent |
| Words.OverlayAt | blk.fs:1105-1106 | bytes stored one after another from any address on, past 0xffff too, are found there |
| Words.OverlayElse | blk.fs:1105-1106 | and no other byte changes |
| SdDriver.Driver.Receive | blk.fs:1105-1106 | the bytes land at consecutive addresses and nothing else changes |
| SdDriver.Driver.Crc16 | blk.fs:655-657 | the CRC word of the kernel |
| SdDriver.Driver.WriteSector | blk.fs:1113-1120 | token, 512 bytes, their CRC, the data response, and waiting for the card |
| SdDriver.Driver.SendData | blk.fs:1117-1118 | 512 bytes sent in order while the CRC runs over them |
| SdDriver.Driver.ReadBlock | blk.fs:1109-1111 | two sectors into 1024 bytes of memory |
| SdDriver.Driver.WriteBlock | blk.fs:1121-1123 | two sectors from 1024 bytes of memory |
| SdDriverSpec.BacklogShrinks | blk.fs:1020 | a card that answers an idle byte with something else has less left to say |
| SdProtocol.WaitRest | blk.fs:1004-1006 | waiting on a resting card wakes it and ends without an answer |
| SdProtocol.CmdReaches | blk.fs:1034-1048 | a command reaches a resting card whole, with its arguments in place |
| SdProtocol.Cmd0 | emul/z80/sdc.c:111-119 | CMD0 in every stage: what the card answers and where it goes |
| SdProtocol.ResetWorks | blk.fs:1086-1089 | CMD0 repeated brings every card but an initialized one to the next stage |
| SdProtocol.Cmd8 | blk.fs:1090-1093 | CMD8 is answered with its own argument |
| SdProtocol.Cmd55 | emul/z80/sdc.c:135-144 | CMD55 in every stage: what the card answers and where it goes |
| SdProtocol.Cmd41 | emul/z80/sdc.c:146-156 | CMD41 at stage 11 initializes the card and is answered with 0 |
| SdProtocol.Cmd58 | blk.fs:1064-1065 | the card reads as SDHC |
| SdStart.WaitSettles | blk.fs:1004-1006 | whatever an uninitialized card was doing, in the middle of a frame or of an answer, the wait in front of a command brings it between frames |
| SdStart.FirstCmd0 | blk.fs:1086-1089 | the first CMD0 brings such a card to rest, heard or not; an answer of 1 means stage 9 |
| SdStart.AgainShrinks | blk.fs:1094-1099 | a round of CMD55 and CMD41 that asks for another one uses up answers that the card has left, so the loop ends on every card |
| SdStart.ResetMeans | blk.fs:1086-1089 | CMD0 got by only on an answer of 1 |
| SdStart.ActivateMeans | blk.fs:1094-1099 | the loop ends well only on an answer of 0 to CMD41 right behind an answer of 1 to CMD55 |
| SdStart.AnotherRound | blk.fs:1094-1099 | an answer of 1 to both begins another round |
| SdStart.StartMeans | blk.fs:1084-1099 | on any card: an end in _err leaves it deselected and SDC_SDHC alone; any other end means that CMD0, CMD8 and CMD41 were answered as they should be |
| SdStart.OneRound | blk.fs:1094-1099 | CMD55 and CMD41 activate a card behind CMD8 in one round |
| SdStart.EarlySettles | emul/z80/sdc.c:24-94 | every uninitialized card is one that StartIff speaks about |
| SdStart.StartIff | blk.fs:1084-1099 | on every card that is not initialized, in the middle of anything, and on an initialized one at rest, SDC$ succeeds if and only if the card is neither initialized nor has received a CMD41 that the idle bytes complete; in any case it is then initialized and at rest, its file untouched |
| SdPolls.SilentCommand | blk.fs:1039-1052 | a command that nobody answers clocks 46 bytes |
| SdPolls.StartPolls | blk.fs:1084-1089 | on a card that answers 0xff for long enough SDC$ clocks ten idle bytes and ten CMD0, 470 bytes, and ends in _err |
| SdTransfer.ReceiveRun | emul/z80/sdc.c:39-52 | the sector comes out byte for byte and the queued CRC is the driver's |
| SdTransfer.SendRun | emul/z80/sdc.c:67-72 | the bytes overwrite the file in place and nothing else |
| SdTransfer.ReadSectorWorks | blk.fs:1101-1108 | reading a sector succeeds, delivers it, and leaves the card at rest with its image unchanged |
| SdTransfer.WriteSectorWorks | blk.fs:1113-1120 | writing a sector succeeds and changes that sector of the image and nothing else |
| SdTransfer.NotReady | blk.fs:1101-1120 | on a card that is not initialized both end in _err, with the card deselected and its file untouched |
| SdTransfer.ReadBlockWorks | blk.fs:1109-1111 | SDC@ delivers the block |
| SdTransfer.WriteBlockWorks | blk.fs:1121-1123 | SDC! replaces the block |
| SdTransfer.BlockNumbersWrap | blk.fs:1109-1123 | SDC@ and SDC! take a block number from 32768 on for the one 32768 below |
| SdTransfer.ReadBlockIff | blk.fs:1109-1111 | SDC@ delivers block n of every image that has it if and only if n is below 32768 |
| SdTransfer.WriteBlockIff | blk.fs:1121-1123 | SDC! replaces block n, and nothing else, of every image that has it if and only if n is below 32768 |
| SdTransfer.CardIsArray | blk.fs:1101-1123 | every sequence of SDC@ and SDC! in range terminates without _err, answers what an array of blocks answers, and leaves the image equal to it |
| SdTransfer.PowerUpSession | blk.fs:1084-1123 | the same from power-up: SDC$ and then any session |
| BlkTools.Packer.constructor | tools/blkpack.c:44-49 | nothing read and nothing printed |
| BlkTools.Packer.GetLine | tools/blkpack.c:56 | one line off the input; 0 only at its end |
| BlkTools.Packer.EmptyLines | tools/blkpack.c:13-16 | 64 spaces for each line |
| BlkTools.Packer.PutRow | tools/blkpack.c:89-92 | the line without its newline, cut at a NUL, and spaces up to column 64 |
| BlkTools.Packer.PutRows | tools/blkpack.c:79-93 | as many rows as come before a marker, a long line, the end of input or the 17th line |
| BlkTools.Packer.PutBlock | tools/blkpack.c:61-102 | one block: its number, blank blocks in front, its rows, blank rows behind; whether and where the loop goes on |
| BlkTools.Packer.Pack | tools/blkpack.c:44-103 | the program prints and returns what Pack says of its input |
| BlkText.Taken | tools/blkpack.c:79-89 | rows taken for a block are at most 16, not too long and no markers |
| BlkText.TrimmedLen | tools/blkunpack.c:42-46 | everything behind the length is invisible and the last byte before it is visible |
| BlkText.Normal | tools/blkunpack.c:48-52 | NULs become spaces and nothing else changes |
| BlkTools.Unpacker.constructor | tools/blkunpack.c:16-19 | nothing read and nothing printed |
| BlkTools.Unpacker.ReadBlock | tools/blkunpack.c:27 | the next 1024 bytes of the image, or the end |
| BlkTools.Unpacker.LastVisible | tools/blkunpack.c:29-34 | one past the last visible byte of a range |
| BlkTools.Unpacker.ClearNuls | tools/blkunpack.c:48-52 | the NULs of a row turned to spaces in the buffer |
| BlkTools.Unpacker.PutLine | tools/blkunpack.c:38-57 | a row trimmed on the right, NULs turned to spaces in the buffer, a newline |
| BlkTools.Unpacker.PutLines | tools/blkunpack.c:37-58 | the rows up to the last visible one |
| BlkTools.Unpacker.PutBlock | tools/blkunpack.c:28-59 | nothing for a blank block, a marker and its rows otherwise |
| BlkTools.Unpacker.Unpack | tools/blkunpack.c:16-63 | the program prints what Unpack says of its input |
| BlkRoundTrip.MarkerReads | tools/blkpack.c:18-27 | blkpack reads from a marker the number that blkunpack wrote |
| BlkRoundTrip.LinesOfJoined | tools/blkpack.c:82 | complete lines written one after another are read back as they were |
| BlkRoundTrip.PackCanon | tools/blkpack.c:61-102 | canonical text packs to the image of its sections |
| BlkRoundTrip.UnpackCanon | tools/blkunpack.c:27-62 | the image of canonical sections unpacks to their lines |
| BlkRoundTrip.UnpackAfterPack | tools/blkpack.c:61-102 | unpacking what canonical text packs to returns the text byte for byte |
| Decimals.DecimalSpells | tools/blkunpack.c:37 | the decimal digits of a number spell it, without a zero in front |
| BlkGrammar.MarkerIs | tools/blkunpack.c:37 | blkunpack prints for a block exactly the line made of an opening parenthesis, a space, five dashes, a space, the number with three digits or, from 1000 on, as many as it has, a space, a closing parenthesis and a newline |
| BlkGrammar.ThreeDigits | tools/blkunpack.c:37 | the 14 bytes of the marker of a block below 1000, digit by digit |
| BlkGrammar.NegativeMarker | tools/blkunpack.c:37 | the marker of a negative block number |
| BlkGrammar.MarkerGrammar | tools/blkpack.c:18-27 | a line is read as the marker of a block if and only if it is an opening parenthesis, five dashes and a number with an optional sign, white space in between and anything behind |
| BlkGrammar.TextComesBack | tools/blkpack.c:61-102 | unpack after pack on a text given byte by byte, markers included |
| BlkGrammar.RowPacks | tools/blkpack.c:89-92 | the bytes of a packed row: the line and spaces up to 64; a NUL cuts off what is printed but not the count of spaces |
| BlkGrammar.LinesCut | tools/blkpack.c:82 | lines are the text cut behind each newline |
| BlkGrammar.PackMeans | tools/blkpack.c:44-103 | on any input: it packs if and only if its lines can be divided into blocks of a marker and up to 16 rows of at most 65 bytes, with ascending numbers (block 0 starting over at the next ten), and then to the image of those blocks |
| BlkGrammar.RowPrinted | tools/blkunpack.c:38-57 | a row is printed up to its last byte from 33 to 127, its NULs as spaces, and a newline |
| BlkGrammar.BlockPrinted | tools/blkunpack.c:28-59 | nothing for a block without such a byte, else its marker and its rows up to the last row with one |
| BlkGrammar.UnpackPrints | tools/blkunpack.c:16-63 | what is printed of an image is the text of its sections, byte by byte |
| BlkRoundTrip.SectionsText | tools/blkunpack.c:27-62 | what blkunpack prints are the lines of canonical sections |
| BlkRoundTrip.PackAfterUnpack | tools/blkunpack.c:27-62 | for every image without newlines or marker-like lines: its text packs if and only if some block is visible, and then gives startat blank blocks and the clean image |
| BlkRoundTrip.CleanPrintableImage | tools/blkunpack.c:40-56 | a clean image of NULs and printable bytes is the image with NULs turned to spaces and trailing blank blocks dropped |
| BlkRoundTrip.PackAfterUnpackPrintable | tools/blkunpack.c:27-62 | pack after unpack, for images of NULs and printable 7-bit bytes |
| BlkCompose.LinesAppend | tools/blkpack.c:82 | the lines of two texts are the lines of one after the lines of the other |
| BlkCompose.AppendFrom | tools/blkpack.c:61-102 | packing goes through the first text unchanged and on with the state it leaves |
| BlkCompose.ShiftBlocks | tools/blkpack.c:64-70 | adding a multiple of ten to the block numbers changes nothing, further block 0 markers included |
| BlkCompose.ZeroFirst | tools/blkpack.c:64-78 | a text that starts with block 0 continues at the next multiple of ten, with blank blocks up to it |
| BlkCompose.PackedSize | tools/blkpack.c:78-102 | every block up to the last is printed as 1024 bytes |
| BlkCompose.PackAppend | tools/blkpack.c:61-102 | packing is compositional: A, blank blocks up to the next multiple of ten, then B alone; the joined text is refused if and only if B is, or its first line is over 65 bytes behind a block of fewer than 16 rows |
| BlkCompose.LongFirstLineRefused | tools/blkpack.c:84-87 | two texts that pack alone but not one after the other |
| Decimals.ScanDec | tools/blkpack.c:21 | reading the decimal digits of a number gives the number |
| Ldir.Z80.constructor | emul/z80/z80.h:75-127 | a machine with the given memory and program counter and no interrupt |
| Ldir.Z80.Read8 | emul/z80/z80.c:148-152 | the byte at the address; three ticks |
| Ldir.Z80.Write8 | emul/z80/z80.c:134-138 | one byte changes; three ticks |
| Ldir.Z80.Ldi | emul/z80/opcodes_impl.c:6248-6260 | one byte copied, pointers up, BC down, flags and ticks |
| Ldir.Z80.Ldir | emul/z80/opcodes_impl.c:6263-6271 | LDI, and while BC is not zero five ticks and the program counter back by two |
| Ldir.Z80.DoExecute | emul/z80/z80.c:663-709 | opcode bytes are fetched until one has a function; for the prefix ED and LDIR that is two fetches |
| Ldir.Z80.Execute | emul/z80/z80.c:762-773 | with no interrupt due, one instruction |
| Ldir.Z80.ExecuteTStates | emul/z80/z80.c:776-782 | the tick count starts at zero and instructions are executed until it reaches the limit; answers the ticks spent |
| Ldir.Z80.Executes | emul/z80/z80.c:762-773 | a host that executes n instructions one after another |
| Copying.CopyAt | emul/z80/opcodes_impl.c:6248-6271 | every byte of the destination after a forward copy: the source byte, or with an overlap the first bytes repeated |
| Copying.CopyElse | emul/z80/opcodes_impl.c:6248-6271 | every byte outside the destination keeps its value |
| Copying.BlockCopyIff | emul/z80/opcodes_impl.c:6263-6271 | LDIR copies every memory as a block if and only if the destination does not start inside the source behind its first byte |
| LdirSpec.ExecuteLdir | emul/z80/z80.c:663-709 | one execution with the instruction in place: 16 ticks when it is the last and 21 otherwise |
| LdirSpec.RunLdir | emul/z80/opcodes_impl.c:6263-6271 | the complete state after any number of executions up to the last |
| LdirSpec.LdirRun | emul/z80/opcodes_impl.c:6263-6271 | the whole run: BC executions (65536 for 0), the forward copy, pointers past it, BC 0, PC behind the instruction, 21n-5 ticks, and not before |
| LdirSpec.LdirFlags | emul/z80/opcodes_impl.c:6255-6260 | after any number of executions: H and N clear, P/V set until the last, F5 and F3 bits 1 and 3 of A plus the byte copied last, the other flags as before |
| LdirSpec.TicksAreRuns | emul/z80/z80.c:776-782 | the tick loop makes exactly the instructions needed to reach its limit |
| LdirSpec.LdirTicks | emul/z80/z80.c:776-782 | LDIR under a limit it does not outlast stops after one execution for every 21 ticks begun, in the middle of the copy or at its end |
| LdirSpec.TicksWrap | emul/z80/z80.c:776-782 | the tick count is the sum of the ticks modulo 2^32 |
| LdirSpec.RCounts | emul/z80/z80.c:89 | the low seven bits of R count the fetches and bit 7 stays |
| LdirSpec.ClearOfCode | emul/z80/opcodes_impl.c:6263-6271 | a destination clear of the instruction keeps it in place for the whole run |
| Scasb.Cpu.constructor | emul/8086/cpu.c:51-61 | the given memory, not halted |
| Scasb.Cpu.Read86 | emul/8086/cpu.c:78-81 | segment times 16 plus offset in 20 bits |
| Scasb.Cpu.Fetch | emul/8086/cpu.c:1188-1226 | prefixes are skipped, the last repeat prefix counts |
| Scasb.Cpu.Scasb | emul/8086/cpu.c:2783-2815 | one comparison: flags, DI by the direction flag, CX under a repeat prefix; a repeat goes back to the first prefix and counts twice |
| Scasb.Cpu.Turn | emul/8086/cpu.c:1178-1226 | one turn of the loop of exec86 |
| Scasb.Cpu.Exec86 | emul/8086/cpu.c:1172-1228 | turns while the budget lasts and the machine is not halted; answers 0 when it finds the machine halted with budget left and 1 otherwise |
| ScasbSpec.ReturnsHalted | emul/8086/cpu.c:1172-1228 | a call that answers 0 leaves the machine halted, and every later call answers 0 and changes nothing |
| ScasbSpec.ReturnsWhen | emul/8086/cpu.c:1172-1228 | a call answers 0 if and only if one with a budget less by one halts |
| ScasbSpec.OtherTurns | emul/8086/cpu.c:1178-1226 | HLT halts the machine and counts once |
| ScasbSpec.ExecTurns | emul/8086/cpu.c:1172-1228 | a call makes whole turns, at least half its budget of them unless the machine halts |
| ScasbSpec.CallsTurns | emul/8086/cpu.c:1172-1228 | any sequence of calls makes whole turns, at least half its budget of them unless the machine halts |
| ScasbSpec.SplitIrrelevant | emul/8086/cpu.c:1172-1228 | how a budget is split over calls of exec86 does not matter |
| ScasbSpec.ReadLaws | emul/8086/cpu.h:35-36 | segment 0 is the start of memory, one segment more is 16 bytes more, and behind the last byte of the 20-bit space comes the first |
| ScasbSpec.FlagsMean | emul/8086/cpu.c:308-335 | after a comparison: ZF for equal, CF for less as unsigned, SF for the sign of the difference, OF for a difference outside -128 to 127 as signed, AF for less in the low four bits |
| ScasbSpec.ParityMeans | emul/8086/cpu.c:88-103 | PF says whether the difference has an even number of ones |
| RepScan.DecodeRep | emul/8086/cpu.c:1188-1226 | behind any string of prefixes the last repeat prefix is the one in force |
| RepScan.OneTurn | emul/8086/cpu.c:2783-2815 | a turn of SCASB under a repeat prefix: the end at an empty count, the comparison that ends it, or one more byte |
| RepScan.ScanMany | emul/8086/cpu.c:2783-2815 | the complete state after any number of comparisons that do not end it, up or down |
| RepScan.BudgetScan | emul/8086/cpu.c:1172-1228 | a repetition counts twice: a budget of b makes half as many comparisons, rounded up |
| RepScan.LeavesAtEnd | emul/8086/cpu.c:2783-2815 | whatever code follows, the instruction pointer stays for as many turns as comparisons that do not end it, and leaves at the next |
| RepScan.EndExists | emul/8086/cpu.c:2783-2815 | there is always a place where the scan ends |
| RepScan.RunEnds | emul/8086/cpu.c:2783-2815 | the run ends in the stated state after exactly the turns needed |
| RepScan.RepScasb | emul/8086/cpu.c:2783-2815 | REPNE and REPE SCASB, behind any prefixes and followed by HLT, up or down, over any calls of exec86: it stops at the first byte of memory that equals AL (or differs from it) within CX bytes, with CX less by the comparisons made, DI past the last byte and the flags of the last comparison |
| RepScan.PlainScasb | emul/8086/cpu.c:2783-2815 | without a prefix: one comparison, CX untouched |
| Acia.ACIA.constructor | emul/z80/acia.c:16-23 | transmit register empty and nothing else |
| Acia.ACIA.CheckIrq | emul/z80/acia.c:4-14 | the interrupt bit is set for a full receive or an empty transmit register if that is enabled, and never cleared here |
| Acia.ACIA.HasIrq | emul/z80/acia.c:25-32 | reports a pending interrupt once until it is served |
| Acia.ACIA.Read | emul/z80/acia.c:45-50 | the byte sent, and the transmit register empty again |
| Acia.ACIA.Write | emul/z80/acia.c:52-61 | with RTS high nothing; otherwise the receive register full |
| Acia.ACIA.CtlRd | emul/z80/acia.c:63-66 | the status byte: interrupt, transmit register empty, receive register full |
| AciaSpec.CtlRdTells | emul/z80/acia.c:63-66 | bits 0 and 1 of the status byte tell whether a read and a write lose nothing, bit 7 whether an interrupt waits |
| Acia.ACIA.CtlWr | emul/z80/acia.c:68-72 | the control byte, and an interrupt if it enables one |
| Acia.ACIA.DataRd | emul/z80/acia.c:74-79 | the byte received; receive register and interrupt cleared |
| Acia.ACIA.DataWr | emul/z80/acia.c:81-87 | the byte to send; transmit register full and interrupt cleared |
| Acia.Board.constructor | emul/z80/rc2014.c:214 | nothing held back |
| Acia.Board.GuestRead | emul/z80/acia.c:74-79 | a guest read of the data port |
| Acia.Board.GuestWrite | emul/z80/acia.c:81-87 | a guest write to the data port |
| Acia.Board.GuestPoll | emul/z80/acia.c:63-79 | a guest that looks at the status byte first reads if and only if that loses nothing |
| Acia.Board.GuestControl | emul/z80/acia.c:68-72 | a guest write to the control port |
| Acia.Board.HostTurn | emul/z80/rc2014.c:215-248 | one pass of the main loop is a poll, a print, a keyboard read and a send, in this order; it stops on byte 4 or at the end of piped input |
| AciaSpec.StepConserves | emul/z80/acia.c:45-87 | a step keeps the account of both directions if and only if the guest keeps to the status bits |
| AciaSpec.RunConserves | emul/z80/rc2014.c:215-248 | the account holds over every interleaving |
| AciaSpec.Handshake | emul/z80/rc2014.c:215-248 | over every interleaving delivered bytes are a prefix of sent ones in both directions, with at most two on their way to the guest and one to the host |
| AciaSpec.Drained | emul/z80/rc2014.c:244-247 | from every state reached, one send between two reads delivers everything typed while RTS is low |
| AciaSpec.PrintDrains | emul/z80/rc2014.c:222-225 | from every state reached, the next look at the device prints everything that the guest has sent, and the guest may write again |
| AciaSpec.PassPrints | emul/z80/rc2014.c:216-247 | after every pass of the loop everything that the guest had sent is printed |
| AciaSpec.PassTakes | emul/z80/rc2014.c:227-247 | a pass takes a key that is not 0, 4 or 5 if none is held back, and gives it to the guest at once if the register is free and RTS low |
| AciaSpec.PassHolds | emul/z80/rc2014.c:227-247 | a key held back goes out in the first pass that finds the register free and RTS low, and no other is taken before |
| AciaSpec.ControlHolds | emul/z80/acia.c:68-72 | the control byte written last is in force |
| AciaSpec.ReceiveReported | emul/z80/acia.c:4-32 | from every state reached: with receive interrupts enabled a waiting byte is reported by the next poll unless an earlier report is under service |
| AciaSpec.TransmitRaised | emul/z80/acia.c:45-87 | the transmit interrupt is raised when the host takes a byte or the guest enables it, and lasts until a data access; a data read takes it away |
| AciaSpec.RaisedFor | emul/z80/acia.c:4-14 | no interrupt is raised for any other reason |
| AciaSpec.UnderService | emul/z80/acia.c:25-32 | over every run: under service is exactly what was reported and not answered by a data access since |
| AciaSpec.OneReportPerAccess | emul/z80/acia.c:25-32 | between two reported interrupts there is a data read or write |
| Lcd.T6A04.constructor | emul/z80/t6a04.c:4-14 | blank memory, cursor at the origin, counting rows up |
| Lcd.T6A04.CmdWr | emul/z80/t6a04.c:30-51 | each command byte sets one register; contrast and unused commands do nothing |
| Lcd.T6A04.Advance | emul/z80/t6a04.c:54-79 | the cursor moves by the current mode and wraps |
| Lcd.T6A04.DataRd | emul/z80/t6a04.c:81-113 | nothing after a move; otherwise the byte, or the six bits that may span two bytes, and the cursor moves |
| Lcd.T6A04.DataWr | emul/z80/t6a04.c:115-135 | the byte, or six bits inside two bytes, replaced, and the cursor moves |
| Lcd.T6A04.Pixel | emul/z80/t6a04.c:137-142 | the bit of the scrolled row, and from y = 120 on of the rows behind it |
| LcdSpec.PutGet | emul/z80/t6a04.c:115-135 | of the four cells in three bytes a write changes its own |
| LcdSpec.CellWritten | emul/z80/t6a04.c:115-135 | a written cell reads back and every other of the 1280 keeps its value |
| LcdSpec.DotIsCellBit | emul/z80/t6a04.c:81-142 | a dot of a row is bit 7-(y mod 8) of byte y/8 and also bit 5-(y mod 6) of cell y/6 |
| LcdScreen.StoredDots | emul/z80/t6a04.c:115-135 | a write at the cursor is 8 or 6 dots, the highest bit first, and no other dot changes |
| LcdScreen.ReadDots | emul/z80/t6a04.c:81-113 | a read at the cursor is the number that 8 or 6 dots spell |
| LcdScreen.StepRefines | emul/z80/t6a04.c:30-135 | every command, read and write, in 8-bit and in 6-bit mode, is the same operation on a screen of 64 rows of 120 dots; a change of mode keeps them |
| LcdScreen.RunRefines | emul/z80/t6a04.c:30-135 | over every run, whatever the mixture of modes, the numbers read and the dots are those of the screen |
| LcdScreen.PixelsShow | emul/z80/t6a04.c:137-142 | after any run pixel (y, x) is dot y of row (x+offset) mod 64 |
| LcdScreen.StartsBlank | emul/z80/t6a04.c:4-14 | after a start the screen is blank, in 6-bit mode, with the cursor at the origin |
| NumberWords.Kernel.constructor | blk.fs:622-626 | memory as given |
| NumberWords.Kernel.Digits | blk.fs:683-686 | the digit loop from A on; a count of 0 runs 65536 times |
| NumberWords.Kernel.Parse | blk.fs:687-695 | character, hexadecimal and decimal forms |
| NumberWords.Kernel.PutBefore | blk.fs:670 | one character in front of what is written so far |
| NumberWords.Kernel.PutDigits | blk.fs:668-671 | the digit loop leaves the decimal digits in front of the end, and changes no byte outside |
| NumberWords.Kernel.Fmtd | blk.fs:668-671 | the signed decimal text of the cell, ending at a+6, and no other byte of memory changed |
| NumberWords.Kernel.Fmtx | blk.fs:672-676 | two or four hexadecimal digits of the cell from a on, and no other byte of memory changed |
| Numbers.LoopValue | blk.fs:683-686 | although cells wrap, the result is the number modulo 2^16 for a string of any length, in base 10 and 16 |
| Numbers.ParseDecimal | blk.fs:687-695 | a decimal word is accepted if and only if it is digits behind an optional minus sign, and its value is the number modulo 2^16 |
| Numbers.HexDigits | blk.fs:691-693 | which characters count as hexadecimal digits and what they are worth: 0 to 9, a to f, A to F, and, since bit 5 is set before the look-up, the control characters from 16 to 25 |
| Numbers.ParseHex | blk.fs:691-693 | a word behind a dollar sign is accepted if and only if characters follow and all are such digits; its value is the number they spell, by places, modulo 2^16; a dollar sign alone is refused |
| Numbers.ParseChar | blk.fs:688-690 | a character between quotes gives its code; anything else behind a quote is refused |
| Numbers.ParseText | blk.fs:668-695 | PARSE of FMTD of n is n for every cell, $8000 included, in at most six characters |
| Numbers.TextMeans | blk.fs:668-671 | the text of a cell: a minus sign if it is negative, and the digits of its size without a zero in front |
| Numbers.HexTextSpells | blk.fs:672-676 | the last k hexadecimal digits, in small letters, spell the number modulo 16^k |
| Numbers.ParseHexText | blk.fs:672-693 | PARSE of a dollar sign and FMTX of n is n; of FMTx it is the low byte |

## Left out

- Terminal, curses, X11 and serial plumbing, and all port handlers of the virtual machine except the block port.
- Vm.VM.IoWrite: write handlers that a front end installs for its own ports (terminal, screen) are missing.
- Vm.VM.PcFetch: likewise for read handlers, so every port reads as zero.
- Vm.Init: a boot image of more than 65536 bytes, with which the program writes past its memory.
- Standard I/O: files and streams are byte sequences, `printf` and `fprintf` of diagnostics are dropped, a read past the end of a file delivers the bytes that are there, and the end of file reads as 0xff on the SD card.
- Behaviour that C leaves undefined is not predicted: the virtual machine records it in `trapped`. The product in `MULT` is taken modulo 2^16 although it can overflow an `int`.
- ForthSystem.System.constructor: what BOOT does before the first definition; HERE and CURRENT are parameters.
- ForthSystem.System.CompileToken: the input parser (`WORD`, comments, strings, `[ ]`); words arrive already looked up, and immediate words other than the control-flow words are missing.
- ForthSystem.System.CompileTokens: a definition is given as the list of numbers and words that `XTCOMP` meets, not as text.
- ForthSystem.System.Colon: likewise, with the name where `WORD` left it.
- ForthSystem.System.Header: a name that starts below HERE and reaches past it; `WORD` never leaves one there.
- ForthSystem.System.ThenWord: without an open branch it ends a compilation; the program would use whatever lies on the stack.
- ForthSystem.System.ElseWord: the same.
- ForthSystem.System.LoopWord: the same.
- `S"`, `."`, `DOES>`, `VALUE`, `TO` and the words that execute during compilation, apart from the control-flow words; the native words behind `DOES>` and `VALUE` are part of the machine but not of the source language.
- HERE, CURRENT, the A register and the data stack of compiling words are fields of the objects, not memory cells.
- Programs that underflow, store into code, divide by zero, or whose two stacks together hold more than 124 cells and would meet: their meaning is `Stuck`, about which `Simulate` and `RunsForEver` say nothing.
- Kernel.BootImage: the core words that `blk.fs` defines between the native words and LEAVE, and the routine that the boot jump leads to.
- The cross compiler's variants of `UNTIL`, `AGAIN` and `NEXT`, which lack the branch check.
- Blk.BlkSystem.SendCommand: the stack traffic of this Forth word and with it minSP and maxRS; its port writes are modelled as calls of the port handler.
- Blk.BlkSystem.Store: the stack traffic of this word, as for SendCommand.
- Blk.BlkSystem.Flush: the stack traffic of this word, as for SendCommand.
- Blk.BlkSystem.Load: the stack traffic of this word, as for SendCommand.
- Blk.BlkSystem.Wipe: the stack traffic of this word, as for SendCommand.
- Blk.BlkSystem.Copy: the stack traffic of this word, as for SendCommand.
- Blk.BlkSystem.SetCur: the stack traffic of this word, as for SendCommand.
- Blk.BlkSystem.SetDirty: the stack traffic of this word, as for SendCommand.
- Blk.BlkSystem.Begin: the same; the three bytes that its MOVE copies are given as numbers.
- SdStart.StartIff: initialized cards in the middle of a frame or a transfer, whose data bytes can look like any answer; that `SDC$` ends on them is proved, with the outcome that `Start` computes.
- Cards other than the emulated one; write protection; the CRC bytes of a written sector are only reported on by the card.
- Block numbers and offsets of `tools/blkpack.c` and `tools/blkunpack.c` are integers without overflow, and numbers that do not fit an `int` in a marker.
- BlkRoundTrip.UnpackAfterPack: the text is given as sections with numbers up to 2^31-1, whose markers are written as blkunpack writes them.
- Ldir.Z80.DoExecute: opcodes other than LDIR, which only set `unknown`.
- Ldir.Z80.Execute: the same, and interrupts.
- Ldir.Z80.ExecuteTStates: limits above 2^32 - 21, for which the tick counter could wrap around before it gets there.
- Scasb.Cpu.Turn: opcodes other than SCASB and HLT, segment registers DS and SS and what a segment override does; any other opcode, and a code segment of prefixes only, sets `unknown`.
- Scasb.Cpu.Exec86: the same.
- Receiver overrun, parity and framing bits of the ACIA, which the emulator never sets; the SIO chip that `emul/z80/rc2014.c` can use instead; the guest's instructions between its port accesses.
- Lcd.T6A04.DataWr: data above 63 in 6-bit mode, and cells outside the display memory. One byte behind that memory stands for the byte that the last cell's access touches.
- Lcd.T6A04.DataRd: cells outside the display memory.
- Lcd.T6A04.Pixel: pixels whose byte lies outside the display memory.
- LcdScreen.RunRefines: reads and writes with the cursor on a column that the mode in force does not have.
- Numbers.ParseDecimal: words that are empty or start with a quote or a dollar sign, which PARSE reads in its other forms.
- Editors, fonts, keyboards, XMODEM, the AVR programmer, video, game pads and the other device models: input and output or tables.
