# CHIP-8 interpreter core, modelled in Dafny

This project models the core of a CHIP-8 interpreter written in C++. The core covers:

- the `CPU` state record;
- the machine constants and the 34 opcode keys;
- the font copy and the constructor's state setup;
- opcode fetch and field decoding;
- the masked table dispatch of `call_opcodes`;
- the fetch-decode-execute `cycle`;
- all 34 instruction handlers.

The model is functional. A `Machine` value stands for the interpreter object. Each handler is a pure function from a machine to a machine, or to a fault for the handlers that can index out of bounds. The cycle threads a machine through fetch, dispatch and execute.

The C++ widths are written out explicitly:
- `uint8_t` registers wrap modulo 256 (`ToByte`);
- `uint16_t` pc and I wrap modulo 65536 (`ToWord`);
- display cells are `uint32_t` values that are either 0 or 0xFFFFFFFF.

Bitwise AND, OR and XOR are defined by recursion on the binary digits of naturals (module `Bits`).

Where the C++ indexes an array out of bounds, its behaviour is undefined. The model returns `Err(fault)` instead, and the handler's contract states exactly which inputs reach that fault. The faults are:
- an oversized ROM;
- a fetch, sprite row or Fx33/Fx55/Fx65 access past the end of memory;
- a sprite bit past the end of the display;
- a key number past the keypad;
- a return with an empty stack;
- a call with a full stack.

Modules, one per source component:

- `Bits`: machine-width arithmetic and the bitwise operators.
- `Outcomes`: `Option`, `Result` and the fault kinds.
- `Cpu`: the state record (`cpu.hpp`), the constants (`chip8.hpp`) and the state invariant `Valid`.
- `Opcodes`: the 34 instruction keys and their table, field decoding and fetch.
- `Flow`: pc, the stack and the skips (00EE, 1nnn, 2nnn, 3xkk, 4xkk, 5xy0, 9xy0, Bnnn).
- `Alu`: register loads and arithmetic (6xkk, 7xkk, the 8xy family, Cxkk).
- `MemoryOps`: I and the memory transfers (Annn, Fx1E, Fx29, Fx33, Fx55, Fx65).
- `Sprites` and `Graphics`: 00E0 and the Dxyn sprite drawing loop.
- `Keypad`: Ex9E, ExA1, and Fx0A both as written and corrected.
- `Timers`: the delay timer, Fx07, Fx15 and Fx18.
- `Dispatcher`: the masking and table lookup of `call_opcodes`, and `Execute`.
- `Init`: the font and the state after construction (`Load`).
- `Interpreter`: `Cycle` and runs of cycles.

Behaviour as written, which differs from what a CHIP-8 description would lead one to expect:

- **Fetch order.** `cycle` adds 2 to pc before it fetches. The first instruction executed after loading is therefore the one at 0x202, and a jump to nnn executes the instruction at nnn + 2 next. A ROM `60 0A 00 EE` returns with an empty stack on its very first cycle; its `6xkk` is never run (`Interpreter.ReturnFirstUnderflows`). A CHIP-8 machine as usually described would start at 0x200: it would run the `6xkk` first, leaving V0 = 10 and pc = 0x202 after the first cycle, and fault only on the second. The model follows the code.
- **Dxyn does not wrap.** The linear index `(Vy + row) * 64 + (Vx + col)` is used unreduced. A sprite set bit past the last cell is an out-of-bounds write, and the model reports it as a fault. A sprite crossing the right edge lands on the next row.
- **The draw clears VF before reading Vx and Vy.** With x or y equal to F, the sprite is therefore drawn at coordinate 0 on that axis.
- **Ex9E and ExA1 are unreachable.** Family E is masked with 0xF00F, so 0xE09E and 0xE0A1 are never looked up. Every E opcode runs nothing (`Dispatcher.KeyTestsUnreachable`). The handlers are still modelled.
- **Flag ordering in the 8xy family.** VF is written before Vx is computed in 8xy5, 8xy6, 8xy7 and 8xyE. 8xy4 computes its sum before writing VF. These orders matter when x or y is F.
- **No timer rate.** The delay timer counts down once per cycle, not at 60 Hz, and a value set by Fx15 is decremented in the same cycle.
- **No sound timer.** Fx18 does nothing, because the state record has no sound timer.
- **Fields with no initialiser.** `pc`, `I`, `opcode`, `sp` and `dt` have no initialiser in the state record (cpu.hpp:21-27), and the constructor sets only pc. The model takes I, opcode, sp and dt as zero after construction.
- **The cycle runs the corrected Fx0A.** `Dispatcher.Execute`, and therefore `Interpreter.Cycle` and `Interpreter.Run`, run `Keypad.ExecFx0A`, which stores the pressed key's number and continues. The code at chip8.cpp:512-528 behaves differently (see Findings); it is modelled separately as `Keypad.ExecFx0AAsWritten`. This is the one place where the cycle departs from the code as written.

## Model

| member | source | states |
|---|---|---|
| `Cpu.Valid` | cpu.hpp:15-24 | the state invariant, sp within the 16-entry stack and every display cell off or on; it is a definition, and `Init.Load`, `Dispatcher.Execute`, `Interpreter.Cycle` and `Interpreter.Run` state that it holds and is kept |
| `Cpu.Flip` | chip8.cpp:481 | XOR with the on value turns an off cell on and an on cell off |
| `Cpu.FlipTwice` | chip8.cpp:481 | toggling a cell twice restores it |
| `Bits.ToByte` | chip8.cpp:352 | a uint8_t result: equal to the value when it fits, and congruent to it modulo 256 |
| `Bits.ToWord` | chip8.cpp:543 | a uint16_t result: equal to the value when it fits, and congruent to it modulo 65536 |
| `Bits.LowByteOf` | chip8.cpp:391 | `sum & 0xFF`: the sum modulo 256 |
| `Bits.TopBitOf` | chip8.cpp:422 | `(Vx & 0x80) >> 7`: Vx / 128, which is 0 or 1 |
| `Bits.ShiftLeftByte` | chip8.cpp:423 | `<<= 1` on a uint8_t: twice the value modulo 256, even, and half of it is the value without its top bit |
| `Opcodes.Key` | chip8.hpp:104-137 | the 34 opcode constants; none has a bit in the x nibble, and those of families 0 and 8 have none in the y nibble |
| `Opcodes.TableLookup` | chip8.cpp:40-73 | the opcode table; any key it holds has a zero x nibble, and in families 0 and 8 a zero y nibble |
| `Opcodes.LookupSound` | chip8.cpp:40-73 | whatever the table returns for a key is the instruction registered under that key |
| `Opcodes.LookupOfKey` | chip8.cpp:40-73 | every one of the 34 keys finds its own handler |
| `Opcodes.KeysDistinct` | chip8.hpp:104-137 | the 34 opcode constants are pairwise distinct, so the table maps each key to one handler |
| `Opcodes.DecodeFields` | chip8.cpp:147-159 | nnn, n, x, y and kk are bits 0-11, bits 0-3, bits 8-11, bits 4-7 and bits 0-7 of the opcode; they fit their widths and recompose the opcode |
| `Opcodes.FetchOpcode` | chip8.cpp:139-145 | the opcode's high byte is memory[pc] and its low byte memory[pc + 1]; a fetch past the end of memory is a fault |
| `Dispatcher.Masked` | chip8.cpp:231-274 | families 1-7, 9 and A-D keep the high nibble only, F keeps the nibble and the low byte, 0, 8 and E keep the nibble and the low nibble |
| `Dispatcher.Dispatch` | chip8.cpp:243-270 | the handler run is the one whose key equals the masked opcode; it is in the opcode's family |
| `Dispatcher.ReachableKeysAreFixedPoints` | chip8.cpp:231-274 | every key except Ex9E and ExA1 survives its family's mask, so its opcode reaches its handler |
| `Dispatcher.KeyTestsUnreachable` | chip8.cpp:262-272 | no opcode reaches Ex9E or ExA1; every E opcode runs nothing |
| `Dispatcher.ZeroFamily` | chip8.cpp:262-272 | in family 0, an opcode ending in 0 clears the screen, one ending in E returns, any other runs nothing |
| `Dispatcher.EightFamily` | chip8.cpp:262-272 | in family 8 the low nibble alone selects the handler; nibbles 8-D and F run nothing |
| `Dispatcher.FFamily` | chip8.cpp:250-260 | in family F the low byte alone selects the handler, and only the nine defined low bytes run one |
| `Dispatcher.NibbleFamilies` | chip8.cpp:236-247 | in families 1-7, 9 and A-D every opcode runs the family's handler |
| `Dispatcher.Execute` | chip8.cpp:231-274 | an unknown opcode changes nothing; no handler touches the keypad or the opcode register; only Fx15 sets the timer; the handlers that do not branch keep pc; every handler keeps the state invariant |
| `Flow.Advance` | chip8.cpp:215 | pc moves on by one instruction length, wrapping at 16 bits |
| `Flow.SkipIf` | chip8.cpp:319-322 | pc moves on exactly when the condition holds, and nothing else changes |
| `Flow.Exec00EE` | chip8.cpp:296-300 | the return pops the saved address into pc; an empty stack is a fault |
| `Flow.Exec1nnn` | chip8.cpp:303-306 | pc becomes nnn and nothing else changes |
| `Flow.Exec2nnn` | chip8.cpp:309-314 | the call pushes pc and jumps to nnn, leaving the rest of the stack; a full stack is a fault |
| `Flow.Exec3xkk` | chip8.cpp:317-323 | skips exactly when Vx equals kk: pc gains 2 (mod 65536) when they are equal and is unchanged otherwise |
| `Flow.Exec4xkk` | chip8.cpp:326-332 | skips exactly when Vx differs from kk: pc gains 2 (mod 65536) when they differ and is unchanged otherwise |
| `Flow.Exec5xy0` | chip8.cpp:335-341 | skips exactly when Vx equals Vy: pc gains 2 (mod 65536) when they are equal and is unchanged otherwise |
| `Flow.Exec9xy0` | chip8.cpp:427-433 | skips exactly when Vx differs from Vy: pc gains 2 (mod 65536) when they differ and is unchanged otherwise |
| `Flow.ExecBnnn` | chip8.cpp:442-445 | pc becomes V0 + nnn without reduction |
| `Flow.CallThenReturn` | chip8.cpp:296-314 | a call followed by a return restores pc and sp; only the saved stack slot differs |
| `Flow.StackBounds` | chip8.cpp:296-314 | a return on an empty stack and a call on a full stack are faults |
| `Flow.BnnnLeavesMemory` | chip8.cpp:442-445 | V0 = 0xFF with nnn = 0xFFF jumps to 0x10FE, past the end of memory |
| `Alu.Exec6xkk` | chip8.cpp:344-347 | Vx becomes kk and nothing else changes |
| `Alu.Exec7xkk` | chip8.cpp:350-353 | Vx becomes Vx + kk modulo 256; the result is smaller exactly when the sum overflowed; VF is not a carry |
| `Alu.Exec8xy0` | chip8.cpp:356-359 | Vx becomes Vy |
| `Alu.Exec8xy1` | chip8.cpp:363-366 | Vx becomes Vx OR Vy, which is at least each operand |
| `Alu.Exec8xy2` | chip8.cpp:370-373 | Vx becomes Vx AND Vy, which is at most each operand |
| `Alu.Exec8xy3` | chip8.cpp:377-380 | Vx becomes Vx XOR Vy |
| `Alu.Exec8xy4` | chip8.cpp:384-392 | VF is 1 exactly when the sum exceeds 255, and 256 * VF + Vx equals the sum; with x = F, VF holds the low byte of the sum |
| `Alu.Exec8xy5` | chip8.cpp:395-401 | VF is 1 exactly when Vx > Vy; Vx becomes Vx - Vy modulo 256 |
| `Alu.Exec8xy6` | chip8.cpp:404-408 | VF is the bit shifted out and 2 * Vx' + VF = Vx; with x = F the result is 0 |
| `Alu.Exec8xy7` | chip8.cpp:411-417 | VF is 1 exactly when Vy > Vx; Vx becomes Vy - Vx modulo 256 |
| `Alu.Exec8xyE` | chip8.cpp:420-424 | VF is the top bit shifted out, 128 * VF + Vx' / 2 = Vx, and Vx' is even; with x = F, VF ends as twice the old top bit of VF |
| `Alu.ExecCxkk` | chip8.cpp:448-451 | Vx becomes the random byte AND kk, which has no bit outside kk or outside the random byte; only Vx changes |
| `Alu.OrAndIdempotent` | chip8.cpp:363-373 | repeating 8xy1 or 8xy2 changes nothing more |
| `Alu.XorTwice` | chip8.cpp:377-380 | 8xy3 twice restores the machine |
| `Alu.SubThenAdd` | chip8.cpp:384-401 | 8xy5 followed by 8xy4 restores Vx |
| `MemoryOps.ExecAnnn` | chip8.cpp:436-439 | I becomes nnn |
| `MemoryOps.ExecFx1E` | chip8.cpp:541-544 | I becomes I + Vx modulo 65536 |
| `MemoryOps.ExecFx29` | chip8.cpp:547-550 | I becomes 5 * Vx, inside the font for a digit Vx |
| `MemoryOps.ExecFx33` | chip8.cpp:553-564 | the three cells at I hold decimal digits whose value is Vx; no other cell changes; a write past memory is a fault |
| `MemoryOps.Fx33Of157` | chip8.cpp:553-564 | Vx = 157 writes 1, 5 and 7 |
| `MemoryOps.StoreRegisters` | chip8.cpp:569-572 | the loop from i stores V[j] at I + j for i <= j <= x and leaves every other cell |
| `MemoryOps.LoadRegisters` | chip8.cpp:578-581 | the loop from i loads V[j] from I + j for i <= j <= x and leaves every other register |
| `MemoryOps.ExecFx55` | chip8.cpp:567-573 | V0 through Vx land at I through I + x, nothing else changes, and a write past memory is a fault |
| `MemoryOps.ExecFx65` | chip8.cpp:576-582 | V0 through Vx are read from I through I + x, nothing else changes, and a read past memory is a fault |
| `MemoryOps.StoreThenLoad` | chip8.cpp:567-582 | loading back what was just stored changes nothing |
| `MemoryOps.LoadThenStore` | chip8.cpp:567-582 | storing back what was just loaded leaves memory as it was |
| `Sprites.DrawRow` | chip8.cpp:469-483 | the row loop succeeds exactly when every set bit lands on the display; it toggles exactly the covered cells; it keeps a collision already seen |
| `Sprites.DrawRows` | chip8.cpp:465-484 | the sprite loop succeeds exactly when every row is in memory and every set bit on the display, and toggles exactly the cells the sprite covers |
| `Sprites.DrawRowCollision` | chip8.cpp:474-479 | the row reports a collision exactly when it had one already or toggled a cell that was on |
| `Sprites.DrawRowsCollision` | chip8.cpp:465-484 | the sprite reports a collision exactly when it toggled some cell that was on |
| `Sprites.CoversIsSourceIndex` | chip8.cpp:471-472 | a cell is covered exactly when it is `(Vy + row) * 64 + (Vx + col)` for a set sprite bit |
| `Graphics.Exec00E0` | chip8.cpp:290-293 | every display cell is off afterwards, and nothing else changes |
| `Graphics.DrawRegisters` | chip8.cpp:460-463 | the draw reads its coordinates after VF is cleared |
| `Graphics.ExecDxyn` | chip8.cpp:457-485 | the draw succeeds exactly when the sprite fits; it toggles exactly the covered cells; VF is 0 or 1; only the display and VF change |
| `Graphics.DxynCollision` | chip8.cpp:474-479 | VF is 1 exactly when some toggled cell was on |
| `Graphics.DxynTwice` | chip8.cpp:457-485 | drawing the same sprite twice restores the display |
| `Graphics.DxynEmpty` | chip8.cpp:465 | a zero-row sprite draws nothing and clears VF |
| `Graphics.DisplayKeepsPixels` | chip8.cpp:457-485 | clearing and drawing keep every cell off or on |
| `Keypad.LastPressed` | chip8.cpp:515-522 | the scan meets last the highest pressed key, and finds none exactly when no key is pressed |
| `Keypad.ExecEx9E` | chip8.cpp:488-494 | skips exactly when key Vx is pressed: pc gains 2 (mod 65536) when it is and is unchanged otherwise; Vx past the keypad is a fault |
| `Keypad.ExecExA1` | chip8.cpp:497-503 | skips exactly when key Vx is not pressed: pc gains 2 (mod 65536) when it is not and is unchanged otherwise; Vx past the keypad is a fault |
| `Keypad.Rewind` | chip8.cpp:526 | pc moves back by one instruction length, wrapping at 16 bits |
| `Keypad.ExecFx0A` | chip8.cpp:512-528 | with a key down, Vx holds a pressed key's number and pc stays; with none, pc moves back and nothing else changes |
| `Keypad.ExecFx0AAsWritten` | chip8.cpp:512-528 | pc always moves back, and with no key down the registers are unchanged |
| `Keypad.Fx0AAsWrittenDiverges` | chip8.cpp:517-520 | for the decoded fields of F00A with only key 3 down, the code as written stores 1 in V0 and waits again, while the corrected handler stores 3 and moves on |
| `Timers.DecayTimer` | chip8.cpp:224-228 | the timer drops by one when positive and stays at zero |
| `Timers.ExecFx07` | chip8.cpp:506-509 | Vx becomes the timer |
| `Timers.ExecFx15` | chip8.cpp:531-534 | the timer becomes Vx |
| `Timers.ExecFx18` | chip8.cpp:538 | nothing changes |
| `Timers.SetThenReadTimer` | chip8.cpp:506-534 | reading the timer right after setting it returns the value set |
| `Timers.DecayN` | chip8.cpp:224-228 | after k decrements the timer is dt - k, or zero once k reaches dt |
| `Init.Glyph` | chip8.cpp:84-99 | each glyph is five rows, and they are the cells 5 * d through 5 * d + 4 of any memory the font has been copied into |
| `Init.CopyFontsToMemory` | chip8.cpp:81-104 | the first 80 cells hold the font and the rest are unchanged |
| `Init.RomImage` | chip8.cpp:28 | the ROM occupies the cells from 0x200 on and every other cell is zero |
| `Init.Load` | chip8.cpp:15-36 | a ROM over 0xDFF bytes is a fault; otherwise memory holds the font and the ROM, pc is 0x200, all else is zero, and the invariant holds |
| `Init.Fx29PointsAtGlyph` | chip8.cpp:547-550 | with the font loaded, Fx29 for a digit points I at that digit's glyph |
| `Init.GlyphOfA` | chip8.cpp:94 | Fx29 with Vx = 0xA sets I to 50, where the glyph of A starts |
| `Interpreter.NextOpcode` | chip8.cpp:215-217 | the next fetch reads the two bytes two past pc |
| `Interpreter.Cycle` | chip8.cpp:206-229 | a cycle fetches after advancing pc, takes the new keypad, decrements the timer unless Fx15 ran, and keeps the invariant; a handler that does not branch leaves pc one instruction on, an opcode with no handler changes nothing else, 3xkk leaves pc two instructions on exactly when Vx equals kk, and 1nnn leaves pc at nnn |
| `Interpreter.UnknownOpcodeOnlyAdvances` | chip8.cpp:262-272 | an opcode with no handler only advances pc, records the opcode, and updates the keypad and timer |
| `Interpreter.StraightLineAdvances` | chip8.cpp:214-219 | an instruction that does not branch leaves pc one instruction on |
| `Interpreter.JumpSkipsTarget` | chip8.cpp:303-306 | after a jump to nnn the next fetch is at nnn + 2 |
| `Interpreter.RewindAdvance` | chip8.cpp:526 | moving pc back undoes moving it on |
| `Interpreter.AwaitKeyRepeats` | chip8.cpp:524-527 | Fx0A with no key down returns pc to where the cycle found it, so the same Fx0A is fetched again |
| `Interpreter.DelaySetThisCycle` | chip8.cpp:224-228 | a timer value set by Fx15 is decremented in the same cycle |
| `Interpreter.FirstFetchSkipsFirstInstruction` | chip8.cpp:215-217 | the first opcode fetched after loading is the ROM's second instruction |
| `Interpreter.ReturnFirstUnderflows` | chip8.cpp:296-300 | the ROM `60 0A 00 EE` faults with an empty-stack return on its first cycle |
| `Interpreter.Run` | chip8.cpp:206-229 | a run of cycles keeps the invariant and ends with the last keypad supplied |
| `Interpreter.RunAppend` | chip8.cpp:206-229 | a run over two stretches of input is the first run followed by the second |
| `Interpreter.RunDecays` | chip8.cpp:224-228 | a run whose cycles set no timer with Fx15 leaves the delay timer at the closed form `Timers.DecayN` of the run's length |

## Left out

- Rendering (`render`, the window and its texture) is not modelled: it only reads the display.
- Key handling is not modelled. The host's keypad state is an input to each cycle (`Interpreter.Input`). As written, `key_handling` indexes the 16-entry keypad by SDL key code, and that code is not part of this model.
- `random_byte` is not modelled; the byte Cxkk uses is a parameter, supplied per cycle.
- Opening and reading the ROM file is not modelled. The ROM is given as a byte sequence. An unreadable path, which throws, is not modelled.
- The debug helpers (`get_memory_as_string`, `clear_terminal`), `main.cpp` and the window code are not modelled.
- 0nnn (a call to a native routine) is not modelled, because its handler is commented out. A family-0 opcode ending in 0 or E therefore reaches 00E0 or 00EE (0x0120 clears the screen, 0x012E returns), and any other family-0 opcode runs nothing (`Dispatcher.ZeroFamily`).
- Timing and sound are not modelled. The 60 Hz rate in the comment of cpu.hpp is not implemented by the code, which decrements the delay timer once per cycle (modelled); the state record keeps no sound timer, and nothing plays sound.
- Undefined behaviour (out-of-bounds accesses, an sp underflow) is modelled as a fault, not as whatever the compiled code would do.
- Alu.XorTwice: requires x ≠ y. With x = y, 8xy3 clears Vx, and a second application does not restore it.
- Alu.SubThenAdd: requires x, y and F to be distinct, because both handlers write VF.
- Alu.Exec8xy5: states the difference only when neither x nor y is F, and the flag only when x is not F; otherwise the flag write comes before the operand read.
- Alu.Exec8xy7: states the difference only when neither x nor y is F, and the flag only when x is not F, for the same reason.
- Alu.Exec8xy6: with x = F it states only that the result is 0, not which bit was shifted out.
- Keypad.ExecFx0AAsWritten: states only the pc effect and the no-key case; which pressed key's entry ends in Vx is shown for one keypad by Keypad.Fx0AAsWrittenDiverges.

## Findings

| source | as written | input that shows it | evidently intended | confidence | as-written member | corrected member |
|---|---|---|---|---|---|---|
| chip8.cpp:520 | `key_pressed == true;` compares and discards, so the flag stays false; pc always moves back and Vx receives the key's entry (1), not its number | keypad with only key 3 pressed: V0 becomes 1 and Fx0A runs again forever | `key_pressed = true;` and `registers[x] = i`: store the pressed key's number and continue | not executed | `Keypad.ExecFx0AAsWritten` (with `Keypad.Fx0AAsWrittenDiverges`) | `Keypad.ExecFx0A` |
