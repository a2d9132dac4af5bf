# Sysdarft: a verified model

Sysdarft is a virtual machine with its own instruction set, an assembler and linker for it, a
disassembler, and a debugger. This project models its core in Dafny and proves what the parts
promise each other.

* **Toolchain.** `Assembler` turns classified source lines into one byte buffer per line, `Linker`
  unifies symbols and patches buffers in place. `LinkedProgram` proves the result right: every label
  is where it says, and every buffer of the image means what its line says with addresses for
  symbols; `BuildConditions` says from the source alone which programs build, `BuildErrors` that a
  failed build names a true fault. `Encoder`, `Disassembler` and `RoundTrip` treat the instruction
  format, `Acceptance` says which instructions there are and `Formats` shows some byte by byte.
  `TwoDecoders` relates the disassembler to the CPU's own fetch, `FetchFaults` says how a fetch
  fails, and `LinkedProgramRuns` follows a label to the instruction the CPU fetches there. `Listing`
  is the disassembly of a byte area, and `SymbolTable` the table stored in executables.
* **Machine.** `Memory` (4096-byte blocks behind a flat address space), `Registers` (overlapping
  views of one 256-byte area), `OperandAccess` and `StackContents` (what operands and stack
  instructions move), `Machine`, `Interrupts`, `StackRuns` and `Handlers` (state transitions and
  whole runs), `ExternalInterrupts` and `DrainRefinement` (device threads and CPU
  loop interleaved, and what their locked sections amount to), and `Cpu`, the object whose
  methods change memory and registers in place and are proved against those transitions.
* **Arithmetic.** `Arithmetic` and `AluInstructions` (numbers of any length computed word by word
  through the carry), `Rotation` and `RotateInstructions` (rotations as rotations of bit strings).
* **Smaller cores.** `Sha1` with the standard's first example, `Conditions` with their meaning and
  their blanks, `Screen`.

Each stateful part comes as a specification on values, the methods proved equal to it, and theorems
about the specification. Verify everything with `dafny verify dfyconfig.toml`.

Where the code departs from what its documentation or names suggest, the model follows the code,
and a theorem says exactly when the expected law holds:

* `%FER` followed by any digits is accepted; only `%FER0` to `%FER15` without leading zeros come back
  from the decoder (`RoundTrip.RegisterRoundTrip`; `%FER16` in `RoundTrip.SixteenIsNotReadBack`).
* The width check of 16-bit operations reads the second letter of a register only, so the 64-bit
  registers `%EB` and `%EP` pass it, and no other operand of a wrong width does
  (`Encoder.WidthCheckExact`; a push in `Encoder.NarrowPushOfWideRegister`).
* An instruction without operands ignores any that are written behind it (`Encoder.OperandsIgnored`),
  but a declared symbol among them keeps the program from linking (`BuildConditions.LineBuildsExactly`).
* A listed symbol must be defined even if nothing refers to it, and a line with operands that
  mentions two symbols, or one symbol twice, does not build (`BuildConditions.BuildsExactly`,
  `BuildConditions.TwoSymbolsDoNotBuild`). Neither does one that mentions a symbol next to the 64-bit
  constant of all ones, which is the linker's placeholder (`Placeholders.OnePlaceholderExactly`).
* Bad data at the very end of a disassembled area is collected but never printed
  (`Listing.DisassembleCode`; one byte in `ListingFacts.TrailingByteIsNotListed`).
* A stack instruction that faults is not always undone (`StackRuns.FaultUndoneExactly`; a call in
  `StackRuns.CallOverflowIsNotUndone`).
* The vector of an interrupt is read before the frame is pushed, so a stack that overlaps the vector
  table does not affect the interrupt in progress (`Cpu.SysdarftCPU.DispatchWithFrame`).
* A drain of external requests that aborts leaves the request flag up over an empty queue
  (`ExternalInterrupts.AbortCondition`; one in `DrainRefinement.AbortedDrainKeepsFlag`).
* At 64 bits, addition and subtraction never set the carry (`Arithmetic.WideWordsCombined`; one sum in
  `Arithmetic.WideCarryLost`), and `rcl` clears the upper half of the value whenever it shifts in a
  clear carry (`Rotation.WideRunLeft`; one value in `Rotation.WideRunLeftFails`).
* SHA-1 writes the low 32 bits of the message length only (`Sha1.PaddingMeetsStandard`).
* An operand of a condition is read back as written only when it has no angle brackets of its own
  (`ConditionMeaning.ConditionRoundTrip`).

## Model

| member | source | states |
|---|---|---|
| `Memory.RangeCheckIsExact` | src/cpu/SysdarftMemory.cpp:45-62 | The range check passes exactly accesses that start and end in memory, wrapped ends included; those it passes find every block they look up if and only if they do not wrap and touch a byte below the end (or are empty and not at the very end) |
| `Memory.PagedMemory.constructor` | src/cpu/SysdarftMemory.cpp:26-43 | A new memory of a given size reads as zero everywhere |
| `Memory.PagedMemory.ReadMemory` | src/cpu/SysdarftMemory.cpp:45-88 | For any alignment and number of blocks a read delivers the flat slice; refused exactly when the range check says so, and then the buffer is untouched |
| `Memory.PagedMemory.WriteMemory` | src/cpu/SysdarftMemory.cpp:90-145 | For any alignment and number of blocks a write is a flat splice; a refused write changes nothing |
| `Memory.PageSplit` | src/cpu/SysdarftMemory.cpp:64-87 | First page, full pages and last page add up to the size and all lie in memory |
| `Registers.NestedOrDisjoint` | src/include/SysdarftRegister.h:42-121 | Any two registers either share no byte or one lies inside the other |
| `Registers.LoadDisjoint` | src/include/SysdarftRegister.h:426-515 | A store leaves every register that shares no byte with it unchanged |
| `Registers.LoadEnclosing` | src/include/SysdarftRegister.h:426-515 | A wider register changes by the difference of old and new value, shifted to the field's place, and in nothing else |
| `Registers.LoadInside` | src/include/SysdarftRegister.h:267-368 | A narrower register inside the stored one reads its own little-endian bytes of the new value |
| `Registers.LoadStored` | src/include/SysdarftRegister.h:267-515 | A stored register reads back as the value truncated to its width |
| `Registers.StoreLoaded` | src/include/SysdarftRegister.h:267-515 | Storing what was loaded changes no byte |
| `Registers.StoresCommute` | src/include/SysdarftRegister.h:426-515 | Stores to registers without a common byte commute |
| `Registers.ROffset` | src/include/SysdarftRegister.h:42-96 | 8-bit register i sits at byte i, although the struct nests it three levels deep |
| `Registers.RegisterLayout` | src/include/SysdarftRegister.h:42-131 | Where each register lies in the struct, in bytes |
| `Registers.SysdarftRegister.constructor` | src/include/SysdarftRegister.h:557-560 | The instruction pointer starts at the BIOS, and every other register reads zero |
| `Registers.SysdarftRegister.StoreRegister` | src/include/SysdarftRegister.h:426-515 | The in-place store: the file becomes the specified one, and the register reads back truncated |
| `InstructionSet.OpcodesAreUnique` | src/include/InstructionSet.h:97-514 | No two instructions share an opcode |
| `InstructionTable.TableEntry` | src/include/InstructionSet.h:97-514 | Opcode, number of operands and need of a width of all 57 instructions, row by row |
| `InstructionSet.FindEntry` | src/coding/DecodeInstruction.cpp:31-36 | The table scan finds the one instruction with the opcode, in whatever order the table is walked |
| `Operands.ExtractTrailingNumber` | src/coding/EncodeTarget.cpp:161-192 | The digit scan from the end of a name yields the number its longest digit suffix denotes, or nothing without digits or beyond 32 bits |
| `Operands.TrailingDigitsUnique` | src/coding/EncodeTarget.cpp:161-192 | Any digit suffix preceded by a non-digit is the longest one |
| `Operands.WidthOf` | src/coding/DecodeTarget.cpp:25-53 | A byte is a width code exactly when some width is written with it |
| `Operands.WidthCodes` | src/coding/DecodeTarget.cpp:25-53 | A width code is the number of bits with its decimal digits written in hexadecimal, and no other byte is one |
| `Operands.RatioCodes` | src/cpu/SysdarftCPUDecoder.cpp:212-318 | A ratio's code is its factor, written the same way |
| `Encoder.CodeBuffer.PushLe` | src/include/EncodingDecoding.h:326-350 | Appends a number's bytes lowest first |
| `Encoder.CodeBuffer.PopLe` | src/include/EncodingDecoding.h:427-442 | Takes a little-endian number off the front; running dry loses the bytes already taken |
| `Encoder.EncodeRegister` | src/coding/EncodeTarget.cpp:194-250 | Appends the three register bytes, or fails exactly for names without an encoding |
| `Encoder.EncodeConstant` | src/coding/EncodeTarget.cpp:252-300 | Appends prefix, width and the value truncated to the width |
| `Encoder.EncodeMemory` | src/coding/EncodeTarget.cpp:311-379 | Appends the whole memory operand, or fails exactly when a parameter is not a wide register or constant |
| `Encoder.EncodeTarget` | src/coding/EncodeTarget.cpp:381-397 | Dispatches on the operand form and appends its encoding |
| `Encoder.EncodeInstruction` | src/coding/EncodeInstruction.cpp:75-211 | Appends an accepted instruction's encoding, and fails exactly for the others |
| `Acceptance.AcceptsExactly` | src/coding/EncodeInstruction.cpp:75-211 | An instruction is accepted if and only if it has the operands its mnemonic takes, a width where and only where that takes one, registers that exist, operands of its width (%EB and %EP also at 16 bits), and operands that make sense |
| `Acceptance.SanityExact` | src/coding/OperandSanity.cpp:53-127 | The sanity check refuses exactly: a constant where the instruction writes, anything but memory behind LEA and a place of less than 64 bits before it, and branches to operands that are neither constants nor 64 bits wide |
| `Encoder.OperandWidthExact` | src/coding/EncodeInstruction.cpp:154-203 | The width check passes an operand if and only if it has that width, or is %EB or %EP at 16 bits |
| `Encoder.EncodedIndex` | src/coding/EncodeTarget.cpp:161-250 | A register's index byte is its number's low byte, or zero for a number beyond 32 bits |
| `Formats.MoveConstant` | src/coding/EncodeInstruction.cpp:75-211 | One register-and-constant move, byte by byte |
| `Formats.MoveToMemory` | src/coding/EncodeTarget.cpp:311-379 | One move to memory, byte by byte |
| `Encoder.WidthCheckExact` | src/coding/EncodeInstruction.cpp:154-203 | All operands of an accepted instruction with a width have that width, exactly unless it is 16 bits and one of them is %EB or %EP |
| `Encoder.NarrowPushOfWideRegister` | src/coding/EncodeInstruction.cpp:154-203 | A 16-bit push of the 64-bit register %EB is accepted |
| `Encoder.OperandsIgnored` | src/coding/EncodeInstruction.cpp:105-128 | Operands written behind an instruction that takes none change neither acceptance nor encoding |
| `Disassembler.PopConstant` | src/coding/DecodeTarget.cpp:25-53 | The popping constant decoder meets its functional form, malformed and truncated input included |
| `Disassembler.PopRegister` | src/coding/DecodeTarget.cpp:55-98 | The popping register decoder meets its functional form, unknown registers included |
| `Disassembler.PopMemory` | src/coding/DecodeTarget.cpp:100-150 | The popping memory decoder meets its functional form, every early exit included |
| `Disassembler.PopTarget` | src/coding/DecodeTarget.cpp:152-161 | The popping operand decoder meets its functional form |
| `Disassembler.PopInstruction` | src/coding/DecodeInstruction.cpp:25-89 | The popping instruction decoder meets its functional form on every input |
| `RoundTrip.RegisterRoundTrip` | src/coding/DecodeTarget.cpp:55-98 | A register decodes to itself exactly when it is not a %FER beyond 15 or one written with leading zeros |
| `RoundTrip.SixteenIsNotReadBack` | src/coding/DecodeTarget.cpp:55-98 | %FER16 is encoded and does not come back |
| `RoundTrip.MemoryRoundTrip` | src/coding/DecodeTarget.cpp:100-150 | A memory operand decodes consuming its own bytes, to itself exactly when its parameters are canonical |
| `RoundTrip.InstructionRoundTrip` | src/coding/DecodeInstruction.cpp:25-84 | Decoding consumes exactly the encoding whatever follows, and shows the instruction written if and only if it is canonical |
| `RoundTrip.ProgramRoundTrip` | src/coding/DecodeInstruction.cpp:25-84 | Sweeping over a whole program's bytes finds every instruction boundary and every canonical instruction |
| `RoundTrip.DecodingMakesProgress` | src/coding/DecodeInstruction.cpp:25-89 | On any non-empty input, malformed or truncated, decoding removes a non-empty prefix and nothing else |
| `MalformedCode.InstructionCut` | src/coding/DecodeInstruction.cpp:25-89 | A proper beginning of any encoding decodes to data only, never to a line, and nothing of it is left |
| `MalformedCode.UnknownStart` | src/coding/DecodeInstruction.cpp:25-60 | A byte that is no opcode, and an opcode with a width code that is none, are shown as data and decoding goes on right behind them |
| `MalformedCode.UnknownOperand` | src/coding/DecodeTarget.cpp:25-98 | A byte that begins no operand, a constant of no width and a register code without a name are shown byte by byte |
| `MalformedCode.UnknownMemory` | src/coding/DecodeTarget.cpp:100-150 | A memory operand of no width shows that byte; one whose first part is neither register nor constant is given up behind that byte and shows nothing |
| `MalformedCode.UnknownRatio` | src/coding/DecodeTarget.cpp:100-150 | A memory operand with a ratio that is none shows that byte only |
| `RoundTrip.SweepCoversInput` | src/SysdarftConsole/DisassembleAnArea.cpp:101-116 | The slices recorded while sweeping concatenate to the whole input |
| `Listing.DisassembleCode` | src/SysdarftConsole/DisassembleAnArea.cpp:62-201 | The listing is exactly the rendering of the sweep: a maximal run of bad data is one dump of its bytes, unless nothing good follows it; a maximal run of NOPs is up to three lines and its full count; every other instruction is one line with the bytes it was decoded from |
| `Listing.Printer.TakeGood` | src/SysdarftConsole/DisassembleAnArea.cpp:140-194 | Dumps exactly the held-back data; prints the line, or of a NOP counts it and prints it up to the third of its run; anything else first reports the run before it |
| `Listing.Printer.TakeBad` | src/SysdarftConsole/DisassembleAnArea.cpp:119-138 | Holds the slice back under the address its run began at, and reports a run of NOPs in front of it |
| `ListingFacts.ListingStands` | src/SysdarftConsole/DisassembleAnArea.cpp:101-201 | Every line is what the bytes at its position decode to and shows the bytes the decoder took; every dump shows the bytes at its position; every count covers that many NOPs |
| `ListingFacts.ListedExactly` | src/SysdarftConsole/DisassembleAnArea.cpp:119-131 | What decodes to a single line without data notation in any operand is listed as a line; everything else is dumped |
| `ListingFacts.ListingAccountsForAll` | src/SysdarftConsole/DisassembleAnArea.cpp:101-201 | Lines, dumps and counts together are the whole area, byte for byte and in order, except bad data at its very end |
| `ListingFacts.TrailingByteIsNotListed` | src/SysdarftConsole/DisassembleAnArea.cpp:101-201 | A single byte that starts no instruction gives an empty listing |
| `CpuDecoder.SecondOffsetIsTwosComplement` | src/cpu/SysdarftCPUDecoder.cpp:176-210 | Filling the upper bits with ones when the top bit is set is the two's-complement reading |
| `CpuDecoder.SelectionIsExact` | src/cpu/SysdarftCPUDecoder.cpp:27-95 | Width code and index select a register exactly when they are that register's code; flags, IP and the control registers have none |
| `TwoDecoders.FetchPopsWindow` | src/include/SysdarftCPUDecoder.h:84-93 | Fetching through CB:IP takes the little-endian number at the front of the code bytes and moves IP past it, or fails where memory ends |
| `TwoDecoders.MemoryAgrees` | src/cpu/SysdarftCPUDecoder.cpp:212-318 | A fetched memory operand has the address (base + offset1 + signed offset2) * ratio mod 2^64 of the operand the disassembler shows |
| `TwoDecoders.AddressIsModular` | src/cpu/SysdarftCPUDecoder.cpp:292-292 | Reducing before scaling gives the same address as reducing once at the end |
| `TwoDecoders.DecodersAgree` | src/cpu/SysdarftCPUDecoder.cpp:452-517 | For every memory content: the CPU accepts exactly what the disassembler shows as one line of meaningful operands, consumes as many bytes, and gets that operation, width and operands |
| `TwoDecoders.CpuRunsEncoding` | src/cpu/SysdarftCPUDecoder.cpp:452-517 | A canonical instruction placed at CB:IP is fetched as itself, with every operand evaluated in the current registers |
| `FetchFaults.FetchEnds` | src/cpu/SysdarftCPUDecoder.cpp:452-517 | A fetch succeeds, overflows or is illegal exactly as reading the fields at CB:IP one by one does, with IP in front of the field that is cut short or behind the one that is illegal |
| `FetchFaults.FetchFaultKinds` | src/cpu/SysdarftCPUDecoder.cpp:452-517 | A fetch raises a stack overflow or an illegal instruction, never an illegal memory access |
| `FetchFaults.UnknownOpcode` | src/cpu/SysdarftCPUDecoder.cpp:452-517 | A byte that is no opcode is an illegal instruction, with IP behind it |
| `FetchFaults.UnknownWidth` | src/cpu/SysdarftCPUDecoder.cpp:452-480 | A width code that is none is an illegal instruction, with IP behind it |
| `FetchFaults.CutShort` | src/cpu/SysdarftCPUDecoder.cpp:452-480 | With memory ending at CB:IP, or behind an opcode that needs a width, the fetch overflows and IP stays there |
| `Cpu.SysdarftCPU.PopCodeAndIncIp` | src/include/SysdarftCPUDecoder.h:84-93 | The fetch through the paged memory meets its functional form |
| `Cpu.SysdarftCPU.DecodeMemory` | src/cpu/SysdarftCPUDecoder.cpp:212-318 | The memory operand decoder meets its functional form, faults included |
| `Cpu.SysdarftCPU.DecodeOperand` | src/cpu/SysdarftCPUDecoder.cpp:320-339 | The operand decoder meets its functional form |
| `Cpu.SysdarftCPU.PopInstruction` | src/cpu/SysdarftCPUDecoder.cpp:452-517 | The instruction fetch meets its functional form, including how far IP got when it faults |
| `Cpu.SysdarftCPU.GetVal` | src/cpu/SysdarftCPUDecoder.cpp:341-349 | Operand reads: register, constant or memory, with the faults of each |
| `Cpu.SysdarftCPU.SetVal` | src/cpu/SysdarftCPUDecoder.cpp:351-450 | Operand writes change the one register or the bytes of the one memory word, or nothing when they fault |
| `OperandAccess.ReadConstant` | src/cpu/SysdarftCPUDecoder.cpp:341-349 | A constant operand reads as its value and cannot be written |
| `OperandAccess.ReadRegister` | src/cpu/SysdarftCPUDecoder.cpp:27-95 | A register operand reads the register its code selects |
| `OperandAccess.NoSuchRegister` | src/cpu/SysdarftCPUDecoder.cpp:27-95 | A code of no register is an illegal instruction, read or written |
| `OperandAccess.ReadMemoryOperand` | src/include/SysdarftCPUDecoder.h:147-164 | A memory operand reads its bytes lowest first; beyond memory a read is a stack overflow and a write an illegal access; a width code that is none is illegal before that |
| `OperandAccess.WriteRegister` | src/cpu/SysdarftCPUDecoder.cpp:351-450 | The register holds the truncated value; memory and registers without a common byte are as before |
| `OperandAccess.WriteMemoryOperand` | src/cpu/SysdarftCPUDecoder.cpp:434-450 | The bytes hold the truncated value lowest first; every other byte and all registers are as before |
| `Machine.PushGoesBelowTop` | src/include/SysdarftInstructionExec.h:43-63 | A successful push stores directly below the stack top, although base and pointer are added modulo 2^64 |
| `Machine.PopUndoesPush` | src/include/SysdarftInstructionExec.h:65-80 | Popping what was pushed returns it and restores the register file |
| `Machine.FlagsAreMasked` | src/cpu/SysdarftCPUInterruption.cpp:92-109 | Masking again behind the stack overflow handler changes nothing |
| `Interrupts.JumpFacts` | src/cpu/SysdarftCPUInterruption.cpp:274-278 | Masking and jumping set mask, CB and IP and leave the stack registers alone |
| `Interrupts.DispatchOnce` | src/cpu/SysdarftCPUInterruption.cpp:70-233 | A code without its own handler pushes at most one frame: exactly one for codes up to 0x1F, one or none for higher codes by the mask; without room, memory and SP stay, the mask is set and control is at vector 7 |
| `Interrupts.ServicesExactly` | src/cpu/SysdarftCPUInterruption.cpp:208-227 | The codes 0x10 to 0x19 and no others are services, and these leave the modelled state alone |
| `Interrupts.LookupStaysInTable` | src/cpu/SysdarftCPUInterruption.cpp:253-264 | The table lookup rejects exactly the codes beyond the table and reads within it for all others |
| `Interrupts.EntryKeepsFrames` | src/cpu/SysdarftCPUInterruption.cpp:266-272 | An interrupt entry saves its frame without touching the live ones |
| `Interrupts.FramesSurvive` | src/cpu/SysdarftCPUInterruption.cpp:266-286 | At every point of a well-behaved run every live frame still holds the register file it saved |
| `Interrupts.ReturnRestoresEntry` | src/cpu/SysdarftCPUInterruption.cpp:280-286 | At any nesting depth an iret restores the whole register file of its matching entry |
| `Handlers.InterruptRestores` | src/cpu/SysdarftCPUInterruption.cpp:266-286 | Whatever its handler does in balanced stack instructions, with further interrupts anywhere between them and nested to any depth: when an interrupt has returned the whole register file and memory from the stack top up are as before it |
| `Handlers.InterruptReturns` | src/cpu/SysdarftCPUInterruption.cpp:266-286 | An interrupt entered with a frame returns if and only if its handler runs through: the iret itself cannot fail |
| `Handlers.HandlerKeepsStack` | src/cpu/SysdarftCPUInterruption.cpp:266-286 | A handler body keeps SB, SP and memory from the stack top up, nested interrupts included |
| `Cpu.SysdarftCPU.DoInterruptionLookup` | src/cpu/SysdarftCPUInterruption.cpp:253-264 | Reads the two words of a code's vector, or refuses the code |
| `Cpu.SysdarftCPU.DispatchWithFrame` | src/cpu/SysdarftCPUInterruption.cpp:85-117 | Looks the target up, saves the registers, masks and jumps, or diverts to the overflow handler; the captured flag word comes back masked |
| `Cpu.SysdarftCPU.DoInterruption` | src/cpu/SysdarftCPUInterruption.cpp:70-233 | The dispatcher with its fall-through into the maskable test meets the one-dispatch specification |
| `Cpu.SysdarftCPU.DoIret` | src/cpu/SysdarftCPUInterruption.cpp:280-286 | The popped frame replaces every register; without one nothing changes |
| `Cpu.SysdarftCPU.PushStack` | src/include/SysdarftInstructionExec.h:43-63 | Memory and SP change together or not at all |
| `Cpu.SysdarftCPU.PopStack` | src/include/SysdarftInstructionExec.h:65-80 | Reads at the stack top and moves SP, or changes nothing |
| `Cpu.SysdarftCPU.Movs` | src/cpu/Operations/DataTransfer.cpp:194-203 | The string move copies the source as it was before, overlapping or not; when either range is refused memory is unchanged |
| `StackOperations.RestoreUndoesSave` | src/cpu/Operations/DataTransfer.cpp:93-176 | Restoring a saved frame gives each of its 24 registers its value back, whatever the registers held |
| `StackRuns.PushIsPushed` | src/include/SysdarftInstructionExec.h:43-63 | After a push the data lies between new and old top, and nothing above changed |
| `StackRuns.PopAfterKept` | src/include/SysdarftInstructionExec.h:65-80 | A pop that finds the stack kept succeeds, returns the pushed data and restores the stack |
| `StackRuns.CloseKeep` | src/cpu/Operations/DataTransfer.cpp:39-63 | A matching pop succeeds and its register gets the pushed value truncated to the width |
| `StackRuns.ClosePreserve` | src/cpu/Operations/DataTransfer.cpp:93-176 | A matching popall succeeds and all saved registers are as they were at the pushall |
| `StackRuns.CloseInvoke` | src/cpu/Operations/ControlFlow.cpp:31-51 | A matching ret succeeds and continues just after its call |
| `StackRuns.BlockRun` | src/cpu/Operations/ControlFlow.cpp:31-51 | A balanced block faults only where its opening or its body does, keeps the stack, and has the effect above |
| `StackRuns.BalancedRun` | src/cpu/Operations/DataTransfer.cpp:39-176 | Any balanced program that runs through leaves SB and SP as they were and no byte at or above the stack top changed |
| `StackRuns.PushOverflows` | src/include/SysdarftInstructionExec.h:49-60 | A push fails exactly when SP is too small or the bytes would leave memory, and then changes nothing |
| `StackRuns.FaultUndoneExactly` | src/cpu/Operations/ControlFlow.cpp:31-51 | A stack instruction that faults leaves the state unchanged if and only if its first stack access is what failed: always for pushes and popall; never for a pop whose target cannot be written, a call that fails after its first push, a ret that fails after its first pop |
| `StackRuns.CallOverflowIsNotUndone` | src/cpu/Operations/ControlFlow.cpp:31-43 | One such call: its second push overflows, SP has moved by eight and the code base is stored |
| `StackContents.PushStores` | src/cpu/Operations/DataTransfer.cpp:39-49 | The operand's low bytes, lowest first, lie right below (SB + SP) mod 2^64; no other byte of memory and no register but SP changed |
| `StackContents.PopDelivers` | src/cpu/Operations/DataTransfer.cpp:51-63 | The number at the top, lowest byte first, is what is written to the target, after SP has moved |
| `StackContents.PushAllStores` | src/cpu/Operations/DataTransfer.cpp:93-123 | Each of the 24 registers lies in its place below the old top |
| `StackContents.PopAllDelivers` | src/cpu/Operations/DataTransfer.cpp:125-176 | Each of the 24 registers, SP included, is loaded from its place above the top |
| `StackContents.CallGoes` | src/cpu/Operations/ControlFlow.cpp:31-43 | CB and IP are pushed, CB above IP, and execution continues at the two operand values as read after both pushes; nothing else changes |
| `StackContents.CallToConstants` | src/cpu/Operations/ControlFlow.cpp:31-43 | A call to constants continues at those constants |
| `StackContents.RetGoes` | src/cpu/Operations/ControlFlow.cpp:45-51 | A return takes IP from the top and CB from the word above it |
| `Cpu.SysdarftCPU.PushInstruction` | src/cpu/Operations/DataTransfer.cpp:39-49 | The push instruction meets its specification, faults included |
| `Cpu.SysdarftCPU.PopInstructionInto` | src/cpu/Operations/DataTransfer.cpp:51-63 | The pop instruction meets its specification: SP has moved even when the target cannot be written |
| `Cpu.SysdarftCPU.PushAll` | src/cpu/Operations/DataTransfer.cpp:93-123 | The pushall instruction meets its specification |
| `Cpu.SysdarftCPU.PopAll` | src/cpu/Operations/DataTransfer.cpp:125-176 | The popall instruction meets its specification |
| `Cpu.SysdarftCPU.CallInstruction` | src/cpu/Operations/ControlFlow.cpp:31-43 | The call instruction meets its specification: operands are read after both pushes |
| `Cpu.SysdarftCPU.RetInstruction` | src/cpu/Operations/ControlFlow.cpp:45-51 | The ret instruction meets its specification |
| `ExternalInterrupts.DrainDispatchesOnce` | src/cpu/SysdarftCPU.cpp:107-125 | A drain dispatches its first request at most; it aborts exactly when unmasked without room for the frame, and only then does the flag survive |
| `ExternalInterrupts.RequestsOfferedOnce` | src/cpu/SysdarftCPUInterruption.cpp:235-251 | In every interleaving: at most one frame a drain; without aborts, accepted requests are offered once, in order, then removed, and with the lock free the flag is up exactly when the queue is not empty |
| `ExternalInterrupts.FlagOnFreeLock` | src/cpu/SysdarftCPU.cpp:107-125 | With aborts: the flag is up with the lock free exactly when requests wait or the last drain was aborted |
| `ExternalInterrupts.QueueFrozenDuringDrain` | src/cpu/SysdarftCPUInterruption.cpp:239-247 | Nothing joins the queue while the CPU holds the lock |
| `ExternalInterrupts.AbortCondition` | src/cpu/SysdarftCPU.cpp:110-122 | An offer aborts exactly when it is the drain's first, unmasked, and the frame does not fit |
| `DrainRefinement.DrainIsAtomic` | src/cpu/SysdarftCPU.cpp:107-125 | In every interleaving, from the CPU's lock to its unlock machine and flag go through exactly the drain of the queue found at the lock, and the queue ends empty |
| `DrainRefinement.DrainCompletes` | src/cpu/SysdarftCPU.cpp:107-125 | From a free lock the CPU's own steps carry the whole drain out, aborted or not |
| `DrainRefinement.RequestIsAtomic` | src/cpu/SysdarftCPUInterruption.cpp:235-251 | In every interleaving, from a device's lock to its unlock the queue grows by its one request and the flag is raised |
| `DrainRefinement.RequestCompletes` | src/cpu/SysdarftCPUInterruption.cpp:235-251 | From a free lock a device's own steps queue any code from 0x20 to 0xFF and raise the flag; any other code, or a taken lock, changes nothing |
| `DrainRefinement.AbortedDrainKeepsFlag` | src/cpu/SysdarftCPU.cpp:110-122 | With nothing in the registers the drain of one request aborts and leaves the flag up over an empty queue |
| `ExternalInterrupts.InterruptBus.DoExtDevInterruption` | src/cpu/SysdarftCPUInterruption.cpp:235-251 | Queued, ignored or rejected, with the queue and flag each leaves |
| `ExternalInterrupts.InterruptBus.DrainRequests` | src/cpu/SysdarftCPU.cpp:107-125 | The locked drain meets its specification and leaves the queue empty |
| `Assembler.SysdarftAssemble` | src/coding/Assembler.cpp:194-369 | The line loop meets its specification: buffers, symbol table, data sites, the end origin, and the first error |
| `Assembler.EmplaceMarker` | src/coding/Assembler.cpp:208-231 | Defines the first entry of that name, appends one, or reports a second definition |
| `Assembler.AddMarkerReference` | src/coding/Assembler.cpp:233-250 | Records a site with the first entry of that name |
| `Assembler.MatchMarker` | src/coding/Assembler.cpp:327-342 | Picks the first symbol in table order that the line mentions |
| `ObjectLayout.FileTableMatches` | src/coding/Assembler.cpp:194-369 | Each symbol of an assembled file is listed once, with exactly the buffers that refer to it, counted without the dropped head entry |
| `ObjectLayout.LabelInFile` | src/coding/Assembler.cpp:277-285 | A label's symbol is defined at the origin plus the bytes emitted before it in the file |
| `ObjectLayout.LineInFile` | src/coding/Assembler.cpp:287-350 | The buffer of a line stands behind those of the emitting lines before it |
| `Linker.CountSequence` | src/coding/Linker.cpp:37-56 | The non-overlapping left-to-right count |
| `Linker.ReplaceSequence` | src/coding/Linker.cpp:58-78 | Erase and insert replace the first occurrence only |
| `Linker.CountOneIsUnique` | src/coding/Linker.cpp:135-141 | The count is one exactly when the placeholder occurs at one place, which is then the place replaced |
| `Linker.SysdarftLink` | src/coding/Linker.cpp:80-216 | Linking in place over all objects meets its specification, errors in the order the code finds them |
| `Linker.RegisterSymbols` | src/coding/Linker.cpp:91-117 | The unified symbol table, or the second definition that stops it |
| `Linker.PatchReferences` | src/coding/Linker.cpp:135-142 | Overwrites the placeholder of each recorded buffer of one object and touches no other object |
| `LinkFacts.AddTableFacts` | src/coding/Linker.cpp:91-117 | Unification fails exactly on a second definition; otherwise each defined name has the position of its definition |
| `LinkFacts.PatchTablePointwise` | src/coding/Linker.cpp:122-143 | Patching succeeds exactly when all listed symbols are defined and each recorded buffer holds one placeholder, and changes those buffers only |
| `LinkFacts.FillDataPointwise` | src/coding/Linker.cpp:145-177 | Data buffers get as many bytes as their width, which read lowest first are the evaluated number modulo the width; other buffers stay |
| `Linker.DataBytesValue` | src/coding/Linker.cpp:163-176 | The bytes of any number, negative ones included, read lowest first are that number modulo the width |
| `BuildErrors.DataLineMeans` | src/coding/Linker.cpp:145-177 | In a built image a data line is its expression's number with the address of every declared symbol at hand, in its width, lowest byte first |
| `LinkFacts.LinkObjectPointwise` | src/coding/Linker.cpp:119-178 | What becomes of each buffer of an object at link time, and when linking it succeeds |
| `Patching.PatchedStatement` | src/coding/Linker.cpp:135-142 | Patching a statement's only placeholder gives the encoding of the statement with the address as operand |
| `Patching.PlaceholderIsConstant` | src/coding/Linker.cpp:33-35 | The searched bytes are the encoding of the all-ones 64-bit constant the assembler substitutes |
| `LinkedProgram.ImageLengths` | src/coding/Linker.cpp:119-184 | No link step changes any buffer's length |
| `LinkedProgram.LabelLayout` | src/SysdarftConsole/MainCompile.cpp:148-161 | In any program that builds, every label's address is the origin plus everything before it in the final image, across files |
| `LinkedProgram.LinkedImage` | src/coding/Linker.cpp:119-184 | Every buffer of the image is its source line's meaning with all symbols replaced by their addresses |
| `LinkedProgram.LinkedInstructionDecodes` | src/coding/DecodeInstruction.cpp:25-84 | Each linked instruction disassembles to its source line with addresses for symbols, exactly when canonical |
| `LinkedProgram.BuildSucceeds` | src/coding/Linker.cpp:91-143 | A program that assembles links exactly when no symbol is defined twice, every listed symbol is defined, and every referring line holds one placeholder |
| `Placeholders.OnePlaceholderExactly` | src/coding/Linker.cpp:135-141 | The code of a line with a symbol operand holds the placeholder once exactly when no other operand is a symbol or holds the 64-bit constant of all ones |
| `BuildConditions.AcceptanceIgnoresAddresses` | src/coding/Assembler.cpp:327-350 | Whether a line can be encoded does not depend on the addresses its symbols get |
| `BuildConditions.LineBuildsExactly` | src/coding/Assembler.cpp:327-350 | Assembler and linker take exactly the lines that, with addresses for symbols, can be encoded and refer to at most one declared address; lines without operands must mention none |
| `BuildConditions.FileAssembles` | src/coding/Assembler.cpp:194-369 | A file assembles exactly when no label is defined twice and each instruction can be drafted with the first declared symbol it mentions |
| `BuildConditions.BuildsExactly` | src/SysdarftConsole/MainCompile.cpp:148-174 | A program builds if and only if its source says so: no label twice in all files, every declared name a label of some file, every instruction line one that builds; origin and data make no difference |
| `BuildConditions.TwoSymbolsDoNotBuild` | src/coding/Linker.cpp:135-141 | No program with an instruction that mentions two symbols, or one twice, builds |
| `BuildErrors.BuildErrorIsTrue` | src/coding/Linker.cpp:91-143 | A failed build names a true fault: a label defined twice, a line that cannot be encoded, a declared symbol that is no label, a reference whose line holds its placeholder not once |
| `LinkedProgramRuns.LineIsFetched` | src/cpu/SysdarftCPUDecoder.cpp:452-517 | With the linked image in memory at its origin and CB:IP at a line's code, the CPU fetches that line with addresses for symbols, if canonical, and CB:IP then stands at the next line's code |
| `LinkedProgramRuns.LabelIsEntered` | src/cpu/SysdarftCPUDecoder.cpp:452-517 | With CB:IP at a label's address the CPU fetches the first instruction behind the label, across files |
| `LinkedProgram.BuildProgram` | src/SysdarftConsole/MainCompile.cpp:148-174 | Assembling file after file with the origin carried on, then linking |
| `SymbolTable.GenerateSymbolTable` | src/SysdarftConsole/MainCompile.cpp:28-56 | The serialized symbol table |
| `SymbolTable.ReadSymbolTable` | src/SysdarftConsole/MainCompile.cpp:293-317 | The reading loop meets its functional form and stops at short input |
| `SymbolTable.TableRoundTrip` | src/SysdarftConsole/MainCompile.cpp:28-56 | A written table reads back, leaving the code behind it, exactly when every name is shorter than 2^16 bytes |
| `SymbolTable.TableCut` | src/SysdarftConsole/MainCompile.cpp:293-317 | A written table cut short anywhere is not read |
| `Formats.OneSymbol` | src/SysdarftConsole/MainCompile.cpp:28-56 | A symbol table of one symbol, byte by byte |
| `Arithmetic.WordsCombined` | src/cpu/Operations/Arithmetic.cpp:23-55 | At 8, 16 and 32 bits and any word count, ADD and ADCs (SUB and SBBs) compute the sum (difference) of the whole numbers with the final carry (borrow) as the missing digit |
| `Arithmetic.SubtractionUndoesAddition` | src/cpu/Operations/Arithmetic.cpp:23-55 | Subtracting what was added restores memory, and the borrow equals the carry |
| `Arithmetic.NoCarryAt64` | src/cpu/Operations/Arithmetic.cpp:27-27 | At 64 bits the carry is never set |
| `Arithmetic.WideWordsCombined` | src/cpu/Operations/Arithmetic.cpp:23-55 | At 64 bits the words come out as sum or difference exactly when no word leaves its 64 bits |
| `Arithmetic.WideCarryLost` | src/cpu/Operations/Arithmetic.cpp:23-29 | The largest 64-bit word plus one is zero without a carry |
| `AluInstructions.AluResult` | src/cpu/Operations/Arithmetic.cpp:23-55 | The target, whatever its form, receives sum or difference modulo its width; the carry says whether the 64-bit result exceeded that width; overflow and order flags are cleared and the others kept |
| `AluInstructions.AluOnConstant` | src/cpu/Operations/Arithmetic.cpp:23-55 | With a constant for a target the instruction is illegal, its flags already changed and nothing else |
| `Arithmetic.WithArithmeticFlags` | src/cpu/Operations/Helper.cpp:35-51 | Sets or clears the carry, clears the other arithmetic flags, keeps every bit above, the interrupt mask included |
| `Arithmetic.FlagLayout` | src/include/SysdarftRegister.h:99-111 | Which bit of the flag word is carry, larger, less, equal and mask |
| `Arithmetic.MaskSetsOneBit` | src/cpu/SysdarftCPUInterruption.cpp:78-82 | Masking sets bit 5 and no other |
| `Cpu.SysdarftCPU.CheckOverflow` | src/cpu/Operations/Helper.cpp:23-54 | Truncates to the width and records in the carry whether anything was lost |
| `Cpu.SysdarftCPU.AddInstruction` | src/cpu/Operations/Arithmetic.cpp:23-29 | The add instruction meets its specification |
| `Cpu.SysdarftCPU.AdcInstruction` | src/cpu/Operations/Arithmetic.cpp:31-38 | The adc instruction meets its specification |
| `Cpu.SysdarftCPU.SubInstruction` | src/cpu/Operations/Arithmetic.cpp:40-46 | The sub instruction meets its specification |
| `Cpu.SysdarftCPU.SbbInstruction` | src/cpu/Operations/Arithmetic.cpp:48-55 | The sbb instruction meets its specification |
| `Cpu.SysdarftCPU.CmpInstruction` | src/cpu/Operations/Arithmetic.cpp:227-250 | The cmp instruction meets its specification |
| `Rotation.RotateLeftBits` | src/cpu/Operations/LogicalAndBitwise.cpp:96-104 | The two shifts of rotate_left move every bit up by the count modulo the width |
| `Rotation.RotateRightBits` | src/cpu/Operations/LogicalAndBitwise.cpp:107-115 | The two shifts of rotate_right move every bit down by the count modulo the width |
| `Rotation.RotationsMoveBits` | src/cpu/Operations/LogicalAndBitwise.cpp:96-115 | Bit i of the value becomes bit i + n (left) or i - n (right) of the result, counted round the width |
| `Rotation.RotationsInverse` | src/cpu/Operations/LogicalAndBitwise.cpp:96-115 | At every width rotate_left and rotate_right undo each other |
| `Rotation.RotationsAdd` | src/cpu/Operations/LogicalAndBitwise.cpp:96-115 | Counts of successive rotations add up, also when their 64-bit sum wraps |
| `Rotation.Rcl` | src/cpu/Operations/LogicalAndBitwise.cpp:155-195 | The loop runs its single step count modulo (width + 1) times |
| `Rotation.Rcr` | src/cpu/Operations/LogicalAndBitwise.cpp:203-244 | The loop runs its single step count modulo (width + 1) times |
| `Rotation.RunLeftIsRotation` | src/cpu/Operations/LogicalAndBitwise.cpp:155-195 | At 8, 16 and 32 bits the bit-by-bit rcl is one rotation of value and carry together |
| `Rotation.RunRightIsRotation` | src/cpu/Operations/LogicalAndBitwise.cpp:203-244 | At every width the bit-by-bit rcr is one rotation of value and carry together |
| `Rotation.CarryRotationsInverse` | src/cpu/Operations/LogicalAndBitwise.cpp:155-244 | At 8, 16 and 32 bits rcl and rcr undo each other on value and carry |
| `Rotation.WideRunLeft` | src/cpu/Operations/LogicalAndBitwise.cpp:178-182 | At 64 bits rcl is the rotation exactly when no step finds the carry clear while a bit is about to enter the upper half |
| `Rotation.WideRunLeftFails` | src/cpu/Operations/LogicalAndBitwise.cpp:178-182 | A 64-bit value for which rcl by one loses its only bit |
| `RotateInstructions.RotateResult` | src/cpu/Operations/LogicalAndBitwise.cpp:117-283 | What each rotate instruction does to target and carry, as a rotation of their bits by the count reduced as the code reduces it, with the exact condition for 64-bit rcl; every other flag is kept |
| `Cpu.SysdarftCPU.RolInstruction` | src/cpu/Operations/LogicalAndBitwise.cpp:117-131 | The rol instruction meets its specification |
| `Cpu.SysdarftCPU.RorInstruction` | src/cpu/Operations/LogicalAndBitwise.cpp:133-147 | The ror instruction meets its specification |
| `Cpu.SysdarftCPU.RclInstruction` | src/cpu/Operations/LogicalAndBitwise.cpp:245-263 | The rcl instruction meets its specification, its count cut to 32 bits first |
| `Cpu.SysdarftCPU.RcrInstruction` | src/cpu/Operations/LogicalAndBitwise.cpp:265-283 | The rcr instruction meets its specification, its count cut to 32 bits first |
| `Sha1.SHA1.ProcessByte` | src/include/crow/TinySHA1.hpp:75-83 | Keeps the state equal to the hash of all full blocks, with the rest of the message in the block |
| `Sha1.SHA1.ProcessBytes` | src/include/crow/TinySHA1.hpp:84-97 | Appends the data to the message hashed so far |
| `Sha1.SHA1.CompressBlock` | src/include/crow/TinySHA1.hpp:157-205 | Block compression is that of section 6.1.2 of FIPS 180-4 |
| `Sha1.InclusiveForms` | src/include/crow/TinySHA1.hpp:179-191 | The inclusive-or forms of choice and majority equal the standard's exclusive-or forms |
| `Sha1.SHA1.PadWithZeros` | src/include/crow/TinySHA1.hpp:100-112 | The three padding loops append the standard's number of zero bytes in every case |
| `Sha1.SHA1.GetDigest` | src/include/crow/TinySHA1.hpp:98-124 | The digest is the hash of the message padded with the low 32 bits of its length |
| `Sha1.LengthField` | src/include/crow/TinySHA1.hpp:99-120 | The four length bytes are those of the true bit count although the byte counter wraps at 2^64 |
| `Sha1.PaddingMeetsStandard` | src/include/crow/TinySHA1.hpp:98-124 | The padding is that of section 5.1.1 of FIPS 180-4 exactly for messages under 2^32 bits |
| `Sha1.DigestOf` | src/include/crow/TinySHA1.hpp:75-124 | However a message is split into calls the digest is that of the whole; under 2^32 bits it is the FIPS 180-4 digest |
| `Sha1.SHA1.GetDigestBytes` | src/include/crow/TinySHA1.hpp:125-154 | The digest of the padded message as bytes |
| `Sha1.DigestBytesBack` | src/include/crow/TinySHA1.hpp:125-154 | The twenty digest bytes, read as five big-endian words in order, are the digest |
| `Sha1Example.DigestOfAbc` | src/include/crow/TinySHA1.hpp:75-124 | The digest of "abc" is the one FIPS 180-4's examples give, round by round |
| `Conditions.Parser.Parse` | src/SysdarftConsole/ConditionalExpression.cpp:31-45 | The recursive parser meets its functional form and terminates by the text that remains, on every input |
| `Conditions.Parser.ParseUntil` | src/SysdarftConsole/ConditionalExpression.cpp:122-165 | The operand scan stops at the first separator outside angle brackets |
| `Conditions.Parser.ParseLogicalNode` | src/SysdarftConsole/ConditionalExpression.cpp:92-110 | One or two sub-conditions with optional comma and closing parenthesis |
| `ConditionMeaning.ConditionRoundTrip` | src/SysdarftConsole/ConditionalExpression.cpp:31-165 | Parsing the canonical text of a condition tree gives that tree and stops right behind it, exactly when no operand has angle brackets of its own; commas and parentheses in operands are welcome |
| `ConditionMeaning.UnplainOperand` | src/SysdarftConsole/ConditionalExpression.cpp:122-165 | An operand with angle brackets of its own is never read back as written |
| `ConditionBlanks.BlanksDoNotMatter` | src/SysdarftConsole/ConditionalExpression.cpp:31-165 | However blanks are spread in front of keywords, operands, commas and parentheses, a condition parses to the same tree |
| `ConditionBlanks.SkipsBlanks` | src/SysdarftConsole/ConditionalExpression.cpp:47-60 | The six blank characters are skipped, and no others |
| `ConditionMeaning.EvaluationIsTruth` | src/SysdarftConsole/ConditionalExpression.cpp:167-200 | The evaluator gives conditions of any depth, one-argument not included, their ordinary truth value |
| `ConditionMeaning.WrittenConditionMeansWhatItSays` | src/SysdarftConsole/ConditionalExpression.cpp:202-211 | A condition written canonically, parsed and evaluated, is met exactly when it is true |
| `ConditionMeaning.MissingArgument` | src/SysdarftConsole/ConditionalExpression.cpp:167-200 | A missing condition counts as true: with one argument a conjunction is that argument and a disjunction is true |
| `ConditionMeaning.IsConditionMet` | src/SysdarftConsole/ConditionalExpression.cpp:202-211 | The empty condition is met; any other is parsed and evaluated |
| `Screen.SysdarftCursesUI.Play` | src/SysdarftCursesUI.cpp:198-237 | After any sequence of characters and new lines from a blank screen the buffer is the last 25 rows of the wrapped transcript and the cursor is in bounds |
| `Screen.SysdarftCursesUI.Teletype` | src/SysdarftCursesUI.cpp:198-215 | A character extends the transcript; the eightieth of a row starts a new one |
| `Screen.SysdarftCursesUI.Newline` | src/SysdarftCursesUI.cpp:217-237 | A new line moves the cursor or scrolls, and the screen stays the end of the transcript |
| `Screen.SysdarftCursesUI.SetCursor` | src/SysdarftCursesUI.cpp:174-190 | Each coordinate goes to the nearest place on the screen |
| `Screen.TranscriptHoldsText` | src/SysdarftCursesUI.cpp:198-237 | Wrapping loses and reorders no character |
| `Screen.TextWraps` | src/SysdarftCursesUI.cpp:198-237 | From the start of a row a text of any length fills rows of exactly 80 characters, and a new line ends the row there |
| `Screen.ScreenShowsLastRows` | src/SysdarftCursesUI.cpp:198-237 | The screen is the last 25 rows of the transcript, each from column 0 and blank behind its end, with the cursor on the row being written |
| `Interrupts.DedicatedHandlers` | src/cpu/SysdarftCPUInterruption.cpp:289-313 | Fatal error and stack overflow jump without touching the stack; the debug interrupt pushes one frame or, without room, changes nothing |
| `Interrupts.DispatchKeepsRegisters` | src/cpu/SysdarftCPUInterruption.cpp:85-117 | Dispatch changes the mask bit, CB, IP and SP and no other register or flag |
| `StackRuns.OtherRegistersKept` | src/cpu/Operations/DataTransfer.cpp:39-176 | Every stack instruction leaves all registers alone but those it is about |
| `Arithmetic.CompareOrders` | src/cpu/Operations/Arithmetic.cpp:227-250 | A comparison sets exactly the flag of the operands' order, and leaves the carry as it was although it clears the flags on the way |
| `Arithmetic.WordsKeepRegisters` | src/cpu/Operations/Arithmetic.cpp:23-55 | Of the registers only the flags change, at any width and word count |
| `RotateInstructions.RotationUndone` | src/cpu/Operations/LogicalAndBitwise.cpp:117-283 | A register rotated and rotated back by the same constant: the whole state is as before, flags included; through the carry at 8, 16 and 32 bits |

## Left out

- Regular-expression parsing of source lines and operands, and the spelling of blanks inside angle brackets: lines arrive classified, operands parsed.
- The preprocessor (`.equ`, `.lab`, includes, conditionals) and the substitution of `@`, `@@` and quoted characters in a line: they are text rewriting. That declared symbols have distinct names and include the file's labels, which the preprocessor sees to, are preconditions of a build and of the conditions for one.
- The external calculator `bc`: constants arrive evaluated, and data expressions are evaluated by a function parameter that also sees the addresses of the symbols.
- The symbol listing attached to the linked object, and the header in front of executables beyond the symbol table itself.
- The text layout of disassembled lines, hex dumps and symbol headings: pieces of a literal are values here.
- Cpu.SysdarftCPU.DoInterruption: the services 0x10 to 0x19 leave the modelled state alone, while in the program some of them write their results to registers (input, cursor, hardware information).
- Interrupts.DispatchOnce: does not cover the codes 0x10 to 0x19, whose services (teletype, cursor, input, hardware information, bell, refresh) act on the screen and keyboard; dispatching them leaves the modelled state alone.
- The debugger's trap flag beyond its being set by interrupt 3, breakpoints, and the execute loop that maps each fault to an interrupt code.
- Instructions that add only easy cases: mov, xchg, lea, jumps, loop, enter, leave, logic and shifts, inc, dec, neg, mul and div; and imul and idiv, which force high bits on at the narrow widths. JC, JNC, JO and JNO decode but have no executor.
- Port input and output, disks, the real-time clock, sound, fonts, terminal rendering, dynamic modules and command-line handling.
- `Boot` outside the drain: the keyboard interrupt raised before the lock is taken, the shutdown request, and wall-clock timing.
- ExternalInterrupts.InterruptBus.DoExtDevInterruption: runs the locked section as one step; the step-by-step interleavings are in `Next`, and `DrainRefinement.RequestIsAtomic` shows that they come to the same.
- StackRuns.BalancedRun: pops into registers other than SP and SB; a pop into memory writes memory by design, so no law about unchanged memory is claimed for it.
- Interrupts.ReturnRestoresEntry: handlers are assumed to come back with the stack where their entry left it and to leave live frames alone, and a new frame to lie clear of the live ones; `Handlers.InterruptRestores` proves this of handlers made of balanced stack programs and nested interrupts.
- Memory accesses that pass the range check although they wrap or end exactly at the top are undefined in the source; `Memory.RangeCheckIsExact` characterises them, and the accessors require their absence.
- The selector registers of protected mode are plain registers here; nothing in the program acts on them. Access to the register file as a whole is the frame of an interrupt.
- Debug-build checks and log output, and locks around single memory accesses.
- The debugger's own operand reader, whose wide pops and added data base differ from the CPU's decoder; reading an operand is a function parameter of the condition evaluator.
- The rest of the bundled web framework.
