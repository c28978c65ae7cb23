# A verified model of the bit-packed virtual machine in emulator_001.c

`emulator_001.c` runs a tiny eight-instruction machine. Its `main` is one sequential
pipeline over a 256-byte `RAM`:

1. **Bit reader** (`read_bits`). It reads a field of 1 to 8 bits, moving a bit
   cursor backwards through the program image.
2. **Loader.** It decodes the image function by function.
   - Each function has a 5-bit size, then one 3-bit opcode and its mode/value
     operands per instruction, then a 3-bit label.
   - Fixed-width byte code is written downwards from `RAM[255]`.
   - The function table `RAM[0..7]` maps labels to entry addresses.
   - The loader also computes the code segment boundary `CS`.
3. **Semantic pass.** It walks each function from its entry to its first RET. It
   renames raw stack slots of SYMBL/PNTR operands to ids drawn from a program-wide
   counter. It flags reads of slots no earlier destination named, and calls of
   empty labels.
4. **Disassembler.** A read-only walk of the same code, with `print_args` rendering
   each operand.
5. **Interpreter.** A step machine over `reg_bank[8]` (general registers 0 to 4, then
   SP, SZ and PC) and `RAM`, using `read_val` and `write_val`.

The Dafny project follows that structure, one module per part:

- `isa.dfy` (`Isa`): constants, instruction lengths, the mnemonic and letter tables,
  and `Wrap` for unsigned-char arithmetic.
- `bits.dfy` (`Bits`): `ReadBits` and the value of a bit field.
- `loader.dfy` (`Loader`) and `loader_facts.dfy` (`LoaderFacts`).
- `code.dfy` (`Code`): the walk from a function entry to its first RET, shared by
  the semantic pass and the disassembler.
- `resolver.dfy` (`Resolver`) and `resolver_facts.dfy` (`ResolverFacts`).
- `disassembler.dfy` (`Disassembler`) and `disassembler_facts.dfy` (`DisassemblerFacts`).
- `vm.dfy` (`Vm`) and `vm_facts.dfy` (`VmFacts`).
- `emulator.dfy` (`Emulator`): `main` from the mapped image on.

Each phase has two parts:

- a pure specification function of the input: `ReadField`, `LoadSpec`,
  `ResolveSpec`, `DisassemblySpec`, `RunSpec`;
- a method shaped like the C: loops over a `RAM: array<byte>` and a register
  `array<byte>`, with the same branches, order of reads and writes, and constants.

Each method's `ensures` ties its result and new state to the specification
function. The `*_facts` modules prove what the source promises about those
functions.

Kept as written, not corrected:

- EQU reads a 3-bit mode field.
- NOT stores three bytes but does not move `RAM_ptr`.
- PRINT never advances PC.
- REF ignores its operand modes at run time.
- `read_bits` reports a bad width or position with `err = 1`, which the loader
  loop does not stop on.
- A loader operand whose mode has no case keeps the previous value of `arg1v` or
  `arg2v`.
- `RAM_ptr + 1` is stored into an unsigned char.
- The overflow test `RAM_ptr <= 8` lets a five-byte instruction be stored at
  `RAM_ptr` 9 to 11. Its bytes then overwrite the table entries of labels 5 to 7
  (`LoaderFacts.TableReached`).
- The semantic pass's error flag is never consulted before the machine runs:
  `Emulator.Session.Ran` carries it next to the run's result.

## Model

| member | source | states |
|---|---|---|
| Bits.ReadBits | emulator_001.c:135-162 | A width above 8, or a cursor below width-1, returns 0, sets err to 1 and leaves the cursor unchanged. Otherwise the result is below 2^w and its bit i is the image bit at cursor-i (bit 7-p%8 of byte p/8). The cursor drops by exactly w and err is unchanged, so the `page == 0` failure is never taken. |
| Bits.CursorWraps | emulator_001.c:148-156 | When the bit mask runs out, the page is above 0 and the cursor moves onto bit 0 of the page below. No byte before `map[0]` is read. |
| Bits.FieldValueExtend | emulator_001.c:157 | Reading one more bit adds the image bit at cursor-i, weighted by 2^i, to the accumulated value. |
| Bits.FieldValueBits | emulator_001.c:146-159 | A w-bit field is below 2^w, and its bit i is the image bit at cursor-i. |
| Bits.FieldValueToBits | emulator_001.c:146-160 | The image bits a field read consumes are the w-bit string of the value it returns. |
| Bits.FieldValueOfBits | emulator_001.c:146-160 | Round trip: a w-bit string of v at the cursor reads back as v. |
| Bits.ReadFieldOfBits | emulator_001.c:135-162 | A 1..8-bit read over the encoding of v returns v, moves the cursor by w and keeps err. |
| Bits.ReadFieldBits | emulator_001.c:135-162 | Converse: the bits any in-range read consumes encode the value it returns. |
| Bits.ReadField | emulator_001.c:135-162 | The read's value is below 2^w and its cursor never rises. |
| Loader.ReadModeValue | emulator_001.c:319-347 | The value field is read with the width the mode calls for. When the mode has no case, the previous value is kept. |
| Loader.MovOperand | emulator_001.c:314-347 | One MOV operand read in the C order equals the operand grammar `ReadOperand`. That grammar sets err to -1 on a CNST destination. |
| Loader.RefOperand | emulator_001.c:391-416 | One REF operand equals `ReadOperand`: SYMBL destination with a 5-bit value, and a non-CNST source. |
| Loader.AddOperand | emulator_001.c:430-444 | One ADD operand equals `ReadOperand`: RGSTR mode, 3-bit register. |
| Loader.StoreFive | emulator_001.c:349-353 | The five stores of a two-operand instruction produce `Store(ram, RAM_ptr, latch)`. |
| Loader.LoadMov | emulator_001.c:313-356 | The MOV case leaves RAM, cursor, RAM_ptr, err and latch as the decoding function `Decode` says. |
| Loader.LoadCal | emulator_001.c:359-380 | The CAL case agrees with `Decode`: CNST mode, 8-bit label, and err -1 on a label above 7. |
| Loader.LoadRef | emulator_001.c:389-425 | The REF case agrees with `Decode`. |
| Loader.LoadAdd | emulator_001.c:428-454 | The ADD case agrees with `Decode`. |
| Loader.LoadPrint | emulator_001.c:457-480 | The PRINT case agrees with `Decode`. |
| Loader.LoadUnary | emulator_001.c:483-515 | The NOT and EQU cases agree with `Decode`: EQU reads a 3-bit mode, and NOT does not move RAM_ptr. |
| Loader.LoadInstruction | emulator_001.c:308-519 | Reading the opcode and running its case agrees with `Decode` from phase 0. |
| Loader.LoadTurn | emulator_001.c:301-519 | One turn of the `for` loop agrees with `BodyTurn`. The overflow test fires exactly when RAM_ptr <= 8, and it then sets err to -1 and moves nothing. |
| Loader.LoadBody | emulator_001.c:299-520 | The `for` loop with its `break` equals `BodySpec` for `func_size` turns. |
| Loader.LoadFunction | emulator_001.c:292-532 | One pass of the outer loop equals `FunctionSpec`: a 5-bit size (0 ends loading), the body, then the label. |
| Loader.Load | emulator_001.c:281-542 | The whole loader over zeroed RAM yields the RAM and err of `LoadSpec`, and CS = RAM_ptr + 1 as an unsigned char. |
| Loader.Register | emulator_001.c:521-532 | A new label's entry becomes RAM_ptr + 1 mod 256 with err kept. A label whose entry is already set sets err to -1 and stops loading. Its first entry is kept. No other cell changes. |
| Loader.LoadSpec | emulator_001.c:535-542 | An empty `RAM[0]` after loading means err = -1. CS lies in 5..256 before the unsigned-char cast. |
| Loader.BodyStuck | emulator_001.c:301-307 | Once the overflow test has fired, no further instruction is decoded. |
| LoaderFacts.StoreLayout | emulator_001.c:349-353 | A stored instruction occupies the Length(op) cells ending at RAM_ptr. The opcode is lowest, then mode 1, value 1, mode 2, value 2 ascending. Every other cell is unchanged. |
| LoaderFacts.DecodeDrop | emulator_001.c:308-519 | After an instruction, RAM_ptr drops by 5 for MOV/REF/ADD, 3 for CAL/PRINT/EQU, 1 for RET and 0 for NOT. |
| LoaderFacts.DecodeFacts | emulator_001.c:308-519 | Decoding consumes exactly the instruction's bits and stores it ending at RAM_ptr. err becomes -1 exactly when a mode is illegal or a CAL label exceeds 7. Operands the opcode lacks keep their stale latch values. |
| LoaderFacts.DecodeEncoding | emulator_001.c:308-519 | Round trip: an instruction whose fields fit their widths, encoded at the cursor, decodes to itself. The cursor moves past its bits, err is -1 exactly when it is illegal, and it is stored at RAM_ptr. |
| LoaderFacts.LoadKeepsEntry | emulator_001.c:521-531 | Once a label 0..4 has an entry, the rest of the load never changes it. |
| LoaderFacts.TableReached | emulator_001.c:301-353 | At RAM_ptr = 9 a two-operand instruction passes the overflow test and writes its opcode over `RAM[5]` and a value over `RAM[7]`. |
| Code.Walked | emulator_001.c:586-712 | The walk from an entry starts there, and each address follows the previous by its instruction's length. It stays in RAM and ends at a RET, at a byte that is no opcode (a spin), or at an instruction reaching past `RAM[255]`. |
| Code.WalkedAbove | emulator_001.c:586-712 | A walk from p depends only on RAM from p upwards. |
| Code.RewritesAbove | emulator_001.c:608-678 | The value cells a walk may rewrite lie at least two bytes above its entry. |
| Resolver.Fresh | emulator_001.c:581-584 | Reference definition, not a property: the seen-table with every slot NO_SYMBOL, which the reset loop in `Resolver.Resolve` is proved to produce. |
| Resolver.CheckInstruction | emulator_001.c:588-706 | The `switch` on one opcode, in place over RAM and the seen-table, agrees with the per-instruction check `Check`. |
| Resolver.WalkFunction | emulator_001.c:586-712 | The `while(1)` walk of one function agrees with `Walk`: finished, spinning or out of bounds. |
| Resolver.Resolve | emulator_001.c:558-713 | The whole pass agrees with `ResolveSpec`: the same RAM and the same error flag. |
| ResolverFacts.CheckFacts | emulator_001.c:591-681 | One instruction's check has these effects. Only the +2 and +4 value cells of MOV/REF are rewritten. Ids are given only to unseen slots. A destination draws the counter, or gets its slot's id when seen. err becomes -1 exactly when a named source slot is unseen or a CAL label's entry is 0. |
| ResolverFacts.WalkCells | emulator_001.c:586-712 | A finished walk changes only MOV/REF value cells of the instructions it visits. Nothing below its entry + 2 changes. |
| ResolverFacts.WalkKeepsTrace | emulator_001.c:586-712 | A finished walk stopped at a RET. The rewritten code walks through exactly the same addresses. |
| ResolverFacts.WalkKeeps | emulator_001.c:606-705 | After a finished walk, every byte of every visited instruction is as before, except MOV and REF value bytes. ADD, PRINT, NOT and EQU are untouched. |
| ResolverFacts.WalkMonotone | emulator_001.c:601-678 | A slot's id, once given, is never changed within the walk. err only ever becomes -1. |
| ResolverFacts.WalkEnds | emulator_001.c:586-712 | The pass spins only where the walk meets a byte that is no opcode. A walk reaching past `RAM[255]` is out of bounds. A walk reaching RET never spins. |
| ResolverFacts.WalkNames | emulator_001.c:601-678 | After a finished walk, a MOV/REF destination naming slot x holds x's id if x had one when it was reached. Otherwise it holds the counter it drew, which is x's id for the rest of the walk unless it was NO_SYMBOL. A source naming slot y holds y's id if an earlier destination (or the walk's start) gave y one, and otherwise keeps y. This holds whatever the error flag says. |
| ResolverFacts.WalkFlags | emulator_001.c:601-663 | A finished walk ends with err = -1 exactly when err was already -1, some source reads a slot no earlier destination named, or some CAL names an empty label. |
| ResolverFacts.WalkFreshIds | emulator_001.c:611-616 | Ids a walk gives to unseen slots come from the counter range it consumed. The counter never decreases. Distinct slots get distinct ids. |
| ResolverFacts.ResolveForgetsSeen | emulator_001.c:572-584 | The pass's result does not depend on the seen-table left from before, because each function resets it. |
| ResolverFacts.ResolveKeepsTable | emulator_001.c:572-713 | When every table entry points at or above `RAM[8]`, the pass leaves the table unchanged, and err only ever becomes -1. |
| Disassembler.GlyphOf | emulator_001.c:48-53 | A stack id shows a letter exactly when it is below 32, the size of the letter table. |
| Disassembler.Decoded | emulator_001.c:745-800 | A listed line carries the opcode and exactly as many shown operands as the opcode has. |
| Disassembler.ListFunction | emulator_001.c:738-802 | The listing loop of one function returns the lines of `FunctionListing`: complete at RET, cut off on a spin, overrun past `RAM[255]`. |
| Disassembler.Disassemble | emulator_001.c:719-803 | The loop over table entries returns the functions of `DisassemblySpec`. |
| DisassemblerFacts.ListingEnds | emulator_001.c:738-802 | A listing is complete exactly when the walk ends at RET, and then has one line per walked instruction. It is cut off exactly when the walk spins, and overruns exactly when it runs off RAM. |
| DisassemblerFacts.ListingLines | emulator_001.c:738-802 | Line k of a listing is the instruction at the k-th address of the walk. |
| DisassemblerFacts.ArgShowsBytes | emulator_001.c:165-182 | The mode byte can always be recovered from a shown operand, and so can the value byte for modes 0..3. |
| DisassemblerFacts.GlyphsDistinct | emulator_001.c:48-53 | Distinct stack ids below 32 show distinct letters. |
| DisassemblerFacts.LettersAscend | emulator_001.c:48-53 | The letter table is strictly ascending, hence without repeats. |
| DisassemblerFacts.ListFromEntries | emulator_001.c:721-736 | A complete disassembly lists exactly the non-empty table entries, in label order, each with its entry and its complete listing. |
| DisassemblerFacts.ListFromHung | emulator_001.c:721-802 | A cut-off disassembly ends with a function whose listing spins. |
| DisassemblerFacts.ResolvedListing | emulator_001.c:586-802 | After a finished semantic walk, the function's listing has the same lines, opcodes and modes as before. Only MOV and REF values may differ. |
| Vm.Boot | emulator_001.c:830 | Reference definition, not a property: SP = 8, SZ = 0, PC = `RAM[0]`, registers 0..4 at 0, and RAM as loaded, which the register setup in `Emulator.Execute` is proved to produce. |
| Vm.ReadVal | emulator_001.c:201-218 | `read_val` is defined exactly for CNST, RGSTR below 8, and SYMBL/PNTR with SP + value inside RAM. CNST yields the value itself. |
| Vm.Written | emulator_001.c:185-199 | `write_val` in CNST mode changes nothing. |
| Vm.Next | emulator_001.c:842-926 | A pass halts only with -1 or 1. It is -1 exactly when SP + SZ >= CS, and 1 exactly when the guard passes, the opcode at PC is RET and SP = 8. |
| Vm.WriteVal | emulator_001.c:185-199 | In place, it does what `Written` says, and reports the undefined indices. |
| Vm.ExecMove | emulator_001.c:850-858 | The MOV case agrees with `Move`. |
| Vm.ExecCall | emulator_001.c:860-869 | The CAL case agrees with `Call`. |
| Vm.ExecReturn | emulator_001.c:871-880 | The RET case agrees with `Return`. |
| Vm.ExecReference | emulator_001.c:883-891 | The REF case agrees with `Reference`. |
| Vm.ExecAdd | emulator_001.c:893-902 | The ADD case agrees with `Add`. |
| Vm.ExecUnary | emulator_001.c:910-924 | The NOT and EQU cases agree with `Unary`. |
| Vm.Step | emulator_001.c:842-926 | One pass of the loop in place agrees with `Next`, including the guard and an opcode with no case. |
| Vm.Run | emulator_001.c:839-927 | The loop for at most `fuel` passes agrees with `RunSpec`: exit code and final state, out of fuel, or undefined. |
| VmFacts.WriteThenRead | emulator_001.c:185-218 | Reading an operand just written yields the written byte, unless a pointer points at its own slot. |
| VmFacts.WriteTouchesOnlyTarget | emulator_001.c:185-199 | `write_val` changes only the target register or RAM cell. CNST and modes above 3 change nothing. |
| VmFacts.MoveCopies | emulator_001.c:850-858 | After MOV the destination reads as the source did, and PC advances by 5. A register destination leaves every other register and all of RAM unchanged. A SYMBL or PNTR destination leaves every register but PC, and every RAM cell but its target, unchanged. |
| VmFacts.AddSums | emulator_001.c:893-902 | ADD makes reg[d] = reg[d] + reg[s] mod 256. Other registers and RAM are kept, and PC advances by 5. |
| VmFacts.ComplementBit | emulator_001.c:914 | Bit k of 2^n - 1 - x is the complement of bit k of x. |
| VmFacts.NotComplements | emulator_001.c:910-916 | NOT flips all eight bits of reg[d]. Other registers and RAM are kept, and PC advances by 3. |
| VmFacts.EquTestsZero | emulator_001.c:918-924 | EQU sets reg[d] to 1 exactly when it was 0, and to 0 otherwise. Other registers and RAM are kept, and PC advances by 3. |
| VmFacts.RefMakesPointer | emulator_001.c:883-891 | REF stores SP + src into `RAM[SP + dest]`, so the destination read as a pointer denotes the source slot. No other RAM cell and no register but PC changes, and PC advances by 5. |
| VmFacts.PrintStalls | emulator_001.c:904-908 | PRINT changes no register or RAM cell, PC included. |
| VmFacts.StallSpins | emulator_001.c:840-908 | A machine stalled on PRINT, or on a byte that is no opcode, uses up any budget without changing. |
| VmFacts.CallThenReturn | emulator_001.c:860-880 | A CAL pushes the frame trailer and moves SP up by SZ + 2. A RET with SP and the trailer intact restores SP and SZ and resumes at the CAL's address + 3. |
| VmFacts.RunExit | emulator_001.c:839-928 | A run that exits does so with code -1 or 1, from the machine on which that pass halts. |
| VmFacts.RunMonotone | emulator_001.c:839-927 | A run that ended within a budget ends the same way with any larger budget. |
| VmFacts.RunSplit | emulator_001.c:839-927 | A budget of a + b passes is a passes, then b more from where they stopped. |
| VmFacts.BootGuard | emulator_001.c:830-847 | The first pass halts with -1 exactly when CS <= 8, and then the run exits with -1 at once. |
| Emulator.EmulateSpec | emulator_001.c:221-928 | Composition of main. Its own ensures only carries over the exit codes -1 and 1 from `VmFacts.RunExit`; `Emulator.RunsResolvedCode` states what main composes. |
| Emulator.AfterLoad | emulator_001.c:556-928 | Composition after a load without error; its ensures carries over the exit codes only. |
| Emulator.AfterResolve | emulator_001.c:719-928 | Composition after a semantic pass that finished; its ensures carries over the exit codes only. |
| Emulator.RunsResolvedCode | emulator_001.c:221-928 | main runs the machine exactly when the load has no error, the semantic pass finishes and the disassembly completes. The run then starts from the RAM as the semantic pass rewrote it, with CS = RAM_ptr + 1 as an unsigned char, and the session carries the pass's flag. |
| Emulator.FlagIgnored | emulator_001.c:556-928 | Two sessions that differ only in the semantic pass's flag list and run the program identically. The flag is reported but never stops the run. |
| Emulator.Emulate | emulator_001.c:221-927 | `main` over zeroed RAM: it is rejected when the load's err < 0, and otherwise agrees with `EmulateSpec`. |
| Emulator.Continue | emulator_001.c:556-927 | Semantic pass, disassembly and run in place, agreeing with `AfterLoad`. |
| Emulator.Execute | emulator_001.c:824-927 | A fresh register bank and the run agree with `RunSpec` from `Boot`. |

## Left out

- File mapping (`map_file`, `unmap_file`), the byte dump and every `printf`: the image is an immutable `seq<byte>` parameter. The disassembly is a list of decoded records, not text. PRINT's output value is not returned.
- The optimisation pass is a comment with no code.
- `Gilbert-Johnson-Keerthi.cpp` and `rrt_viz.py` are not part of this model. They are floating-point geometry and pygame drawing, unrelated to the machine.
- Non-termination. The run loop has no step bound and PRINT never moves PC, so `Run` and `RunSpec` take a `fuel` budget and report `Exhausted`. The semantic pass and the disassembler spin forever on a byte above 7; that is reported as `Hangs` or `Spinning` instead of looping.
- Undefined behaviour in the C is an explicit outcome (`Undefined`, `Crashed`, `OutOfBounds`, `Overrun`, `PastTable`), never ruled out by a precondition:
  - a RAM index past 255 or below 0;
  - a register index past 7;
  - a seen-table index past 31;
  - a letter-table index past 31;
  - `read_val` with a mode above 3.
- The loader reads `err` before initialising it. The model starts it at 0.
- LoaderFacts.LoadKeepsEntry: states the property only for labels 0 to 4. Labels 5 to 7 can really be overwritten by code stored at RAM_ptr 9 to 11 (`LoaderFacts.TableReached`).
- ResolverFacts.WalkFlags: requires every CAL on the walk names a label below 8. The loader sets err to -1 on a larger label, but a later failed `read_bits` in the same load can reset err to 1, and such a CAL then reaches the semantic pass. It also requires that the counter cannot reach NO_SYMBOL (64) within the walk. Otherwise a fresh id equal to NO_SYMBOL would make a named slot look unseen.
- ResolverFacts.WalkFreshIds: requires the same bound on the counter. Past it, the unsigned-char counter wraps and ids repeat.
- ResolverFacts.ResolveKeepsTable: requires table entries at or above `RAM[8]`. An entry pointing into the table lets the pass rewrite it.
- VmFacts.MoveCopies: excludes a PC destination register, which is then advanced again, and a pointer that points at its own slot.
- VmFacts.WriteThenRead: excludes a pointer that points at its own slot.
- VmFacts.AddSums: excludes d = PC, where the sum is then advanced by 5.
- VmFacts.NotComplements: excludes d = PC, for the same reason.
- VmFacts.EquTestsZero: excludes d = PC, for the same reason.
- VmFacts.RefMakesPointer: requires both SP + dest and SP + src inside RAM. Past 255, the store is undefined and the value wraps.
- VmFacts.CallThenReturn: requires SP >= 8 and a frame trailer below `RAM[255]`. With SP + SZ + 2 wrapping past 255, the stack pointer arithmetic does not round-trip.
- The semantic pass's error flag does not stop the run, exactly as in the C. The model exposes it but proves nothing that depends on it blocking execution.
