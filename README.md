# CHIP-8 interpreter core in Dafny

This project models the engine of a small CHIP-8 interpreter and proves properties of it. It covers four parts.

- **Machine state.** The machine has sixteen byte registers V0..VF (VF doubles as the flag register) and the address register I. It has a program counter, the delay and sound timers, a call stack and a sixteen-key keypad. Memory is 4096 bytes and the screen is a flat 64x32 list of pixels, with pixel (x, y) at index y * 64 + x. A fresh machine has the hexadecimal font at address 0 and the program at 0x200.
- **Decoding and stepping.** A 16-bit opcode is split into X, Y, NN and NNN. It is also indexed digit by digit through its four-digit hexadecimal string. One interpreter step fetches a big-endian word at the program counter, advances the counter by 2, and dispatches on the first digit. It uses a top-level table and secondary tables for the 0x8 and 0xF families.
- **Instructions.** Each of the 35 instructions is a handler that changes the state in place.
- **Key bindings.** The input layer normalises bindings such as `Ctrl+Shift+A`. It lower-cases the binding and splits it on `+`. The last part must be a key, after the keypad spellings and synonyms are applied. The other parts must be modifiers; they come out sorted in front of the key.

The model has two layers.

- **Values.** `Machine.MachineState` is a value snapshot of the machine. The functions of `Instructions` (one per handler) and `Cycle` (fetch and step) give each operation's effect as a pure function from the state before to the state after plus a `Status`. `Status` is either `Running` or `Halted(fault)`.
- **The object.** `Machine.State` is a class whose fields the operations reassign. The handlers in `Opcodes` and the steps in `Interpreter` are methods with `modifies s`. Each is proved to leave `s.Value()` equal to its function applied to the old value. The loops of the source stay loops: `load_data`, the DXYN drawing loop, FX33, FX55, FX65, the search for the first key down, and the modifier loop of the key-binding normaliser.

The facts modules prove what the source promises about those functions. `CycleFacts`, `InstructionFacts`, `DrawFacts` and `KeyCodeFacts` cover fetch and step, the instructions, drawing and key bindings.

The errors Python would raise become faults.
- `sys.exit` for 0NNN is `MachineCodeUnsupported`.
- Popping an empty stack is `StackUnderflow`.
- A missing key in a dispatch table is `MissingHandler(key)`.
- A list index past the end, or a fetch that gets fewer than two bytes, is `IndexOutOfRange`.

The random byte of CXNN is a parameter `rand` of `Execute`, `Step` and `Run`. Integers are unbounded, so every wrap-around of the source (`% 0x100`, `% 0x1000`, `& 0xFF`) is written out. Bitwise `&`, `|`, `^`, `<<` and `>>` are recursive functions on natural numbers in module `Bits`.

The dispatch follows the source as written, including five places where the code does not do what its comments describe (BNNN, EX9E/EXA1, FX55, 8XYE and DXYN). Each of these has a corrected function beside the as-written one; see "## Findings".

## Model

| member | source | states |
|---|---|---|
| Machine.Loaded | chip8_core.py:41-44 | After loading, cell start + i holds data[i] for every i that falls inside memory. Every other cell keeps its value, and the length is unchanged. |
| Machine.State.LoadData | chip8_core.py:41-44 | The bytes are written in order. Memory becomes `Loaded(old memory, data, start)` and no other field changes. It reports an index fault exactly when some position falls past the end; the bytes before that position stay written. |
| Machine.LoadedStep | chip8_core.py:43-44 | Writing data[i] at start + i extends the image of the first i bytes to that of the first i + 1 bytes. |
| Machine.LoadedPastEnd | chip8_core.py:43-44 | Once a position falls past the end, the rest of the data writes nothing. |
| CycleFacts.LoadedReadsBack | chip8_core.py:41-44 | Within memory, the window [start, start + len) reads back exactly the data. Loading the same data again changes nothing. |
| Machine.InitialMemory | chip8_core.py:46-49 | Memory has 4096 cells. When the program is at most 0xE00 bytes, the font is at 0, the program at 0x200, and every other cell is 0. |
| Machine.State.InitMemory | chip8_core.py:46-49 | Memory becomes `InitialMemory(program)` and nothing else changes. The index fault happens exactly when the program is longer than 0xE00 bytes. |
| Machine.State.InitScreen | chip8_core.py:55-56 | All 2048 pixels are 0 and no other field changes. |
| Machine.State.Blank | chip8_core.py:26-37 | The field initialisations: zero registers, I = 0, pc = 0x200, stopped timers, an empty stack, and no key down. |
| Machine.State.New | chip8_core.py:26-39 | Construction succeeds exactly when the program is at most 0xE00 bytes. On success it is a fresh, well-formed object whose value is `Initial(program)`; otherwise it reports an index fault. |
| Machine.Initial | chip8_core.py:26-49 | A fresh machine exists exactly for programs of at most 0xE00 bytes, and its lists have the fixed sizes. |
| CycleFacts.InitialState | chip8_core.py:8-56 | A fresh machine has zero registers, I = 0, pc = 0x200, zero timers, an empty stack, 16 released keys and 2048 dark pixels. Memory holds the FONT at 0 and the program at 0x200, and is zero elsewhere. |
| Decoder.Opcode.MaskedFields | chip8_core.py:79-82 | X = (v & 0x0F00) >> 8, Y = (v & 0x00F0) >> 4, NN = v & 0xFF and NNN = v & 0xFFF. Each is computed with the bitwise operations of `Bits`. |
| Decoder.Opcode.FieldsCompose | chip8_core.py:79-82 | NNN = X * 0x100 + NN, and v = (v >> 12) * 0x1000 + NNN. |
| Decoder.NibblesCompose | chip8_core.py:79-83 | A word is the base-16 number made of its four digits. |
| Decoder.Opcode.Hex | chip8_core.py:83 | `format(v, '04X')` gives four upper-case digits, most significant first, and parses back to v. |
| Decoder.HexDigitRoundTrip | chip8_core.py:83-90 | Parsing a digit written by `format` gives the digit back. |
| Decoder.ParseHex | chip8_core.py:90 | `int(s, 16)` is defined exactly for non-empty strings of hexadecimal digits. |
| Decoder.ParseHexAppend | chip8_core.py:90 | Appending a digit to a hexadecimal string multiplies its value by 16 and adds the digit. |
| Decoder.Opcode.Item | chip8_core.py:89-90 | `opcode[i]` is defined exactly for i in -4..3, where it is the digit at Python index i of the hex string. Any other index is an index fault. |
| Decoder.Opcode.Suffix | chip8_core.py:89-90 | `opcode[start:]` parses exactly when the slice is non-empty. |
| Decoder.Opcode.ItemFields | chip8_core.py:89-90 | opcode[0] is the top digit, opcode[1] is X, opcode[2] is Y, and opcode[3] is the low digit. |
| Decoder.Opcode.SuffixIsLowByte | chip8_core.py:89-90 | `opcode[2:]` equals NN. |
| Cycle.Fetch | chip8_core.py:60-66 | pc grows by exactly 2 when advancing; otherwise the state is untouched. With p = pc + 2 * offset taken before the advance, the word is `(memory[p] << 8) + memory[p + 1]`, and for -4096 <= p <= -3 it is read at p + 4096, as the Python slice does. The fetch succeeds exactly when the Python slice holds two bytes. |
| Interpreter.ReadOpcode | chip8_core.py:60-66 | The method changes the object and returns the word exactly as `Cycle.Fetch` says. |
| CycleFacts.StepPastEnd | chip8_core.py:60-66 | A step at the last memory cell gets one byte only. It stops with an index fault, with pc already advanced. |
| CycleFacts.OpcodeAtFields | chip8_core.py:66 | The fetched word's first digit, X, NN and NNN come straight from the two memory bytes. |
| Interpreter.ExecuteOpcode | chip8_core.py:68-70 | Dispatch through the tables leaves the object and status exactly as `Instructions.Execute` says. |
| CycleFacts.StepSeesAdvancedPc | chip8_core.py:72-73 | A step runs the handler for the word at pc on the state whose pc is already pc + 2. |
| Interpreter.Step | chip8_core.py:72-73 | One advancing fetch then one dispatch; the object and status are exactly as `Cycle.Step` says. |
| CycleFacts.StepWaitKey | opcodes.py:171-175 | A step on FX0A runs the wait on the advanced state, with X the low digit of the first byte. |
| CycleFacts.WaitKeyRepeats | opcodes.py:171-175 | With no key down, a step on FX0A leaves the whole machine as it was, so the instruction runs again. |
| CycleFacts.WaitKeyProceeds | opcodes.py:171-175 | With a key down, a step on FX0A stores the lowest key down in VX and moves past the instruction. |
| CycleFacts.StepCall | opcodes.py:26-28 | A step on 2NNN pushes the address after the call and jumps to NNN. |
| CycleFacts.CallReturnSteps | opcodes.py:13-28 | A step on 2NNN whose target holds 00EE, then one more step, continues after the call with the stack as before. |
| CycleFacts.SkipProgramRuns | opcodes.py:13-47 | Running 6005 3005 1300 00E0 from a fresh machine for three steps gives V0 = 5, skips the jump, clears the screen and stops at 0x208, still running. |
| Instructions.System | opcodes.py:13-19 | Running exactly for 00E0, and for 00EE with a non-empty stack. |
| Opcodes.System | opcodes.py:13-19 | 00E0 clears the screen. 00EE pops the return address into pc, or reports stack underflow. Any other 0NNN stops with `MachineCodeUnsupported`. The object and status are exactly as `Instructions.System` says. |
| InstructionFacts.ClearScreen | opcodes.py:14-15 | 00E0 leaves every pixel 0 and changes nothing else. |
| InstructionFacts.CallThenReturn | opcodes.py:16-28 | 2NNN jumps to NNN. A following 00EE restores both pc and the stack. |
| InstructionFacts.ReturnUnderflow | opcodes.py:16-17 | 00EE on an empty stack stops with `StackUnderflow` and changes nothing. |
| Opcodes.Jump | opcodes.py:22-23 | pc := NNN. |
| Opcodes.Call | opcodes.py:26-28 | The current pc is pushed and pc := NNN. |
| Opcodes.SkipIfEqualImmediate | opcodes.py:31-33 | 3XNN: the new state is `Instructions.SkipIfEqualImmediate` of the old one. |
| Opcodes.SkipIfNotEqualImmediate | opcodes.py:36-38 | 4XNN: the new state is `Instructions.SkipIfNotEqualImmediate` of the old one. |
| Opcodes.SkipIfEqualRegisters | opcodes.py:41-43 | 5XY0: the new state is `Instructions.SkipIfEqualRegisters` of the old one. |
| Opcodes.SkipIfNotEqualRegisters | opcodes.py:117-119 | 9XY0: the new state is `Instructions.SkipIfNotEqualRegisters` of the old one. |
| InstructionFacts.ImmediateSkips | opcodes.py:31-38 | For any pc, including 0x1000 after a fetch at 0xFFE: 3XNN and 4XNN each either change nothing or set pc := (pc + 2) % 0x1000 and nothing else. 3XNN skips exactly when VX = NN, and 4XNN does exactly the other thing. |
| InstructionFacts.RegisterSkips | opcodes.py:41-43 | For any pc: 5XY0 and 9XY0 each either change nothing or only skip. 5XY0 skips exactly when VX = VY, and 9XY0 does the opposite. |
| InstructionFacts.LoadThenSkip | opcodes.py:31-47 | 6XNN followed by 3XNN with the same X and NN always skips. |
| Opcodes.LoadImmediate | opcodes.py:46-47 | VX := NN, as `Instructions.LoadImmediate`. |
| Opcodes.AddImmediate | opcodes.py:50-51 | VX := (VX + NN) % 0x100, as `Instructions.AddImmediate`. |
| InstructionFacts.AddImmediateUndo | opcodes.py:50-51 | 7XNN then 7XMM with NN + MM = 0 modulo 0x100 gives the machine back. |
| Opcodes.Move | opcodes.py:54-55 | VX := VY, as `Instructions.Move`. |
| InstructionFacts.MoveThenSkip | opcodes.py:41-55 | After 8XY0, the 5XY0 with the same X and Y always skips. |
| Opcodes.OrRegisters | opcodes.py:58-59 | VX := VX \| VY, as `Instructions.OrRegisters`. |
| Opcodes.AndRegisters | opcodes.py:62-63 | VX := VX & VY, as `Instructions.AndRegisters`. |
| Opcodes.XorRegisters | opcodes.py:66-67 | VX := VX ^ VY, as `Instructions.XorRegisters`. |
| InstructionFacts.XorTwice | opcodes.py:66-67 | 8XY3 twice with X different from Y gives the machine back. |
| InstructionFacts.SelfLogic | opcodes.py:58-67 | With X = Y, 8XY1 and 8XY2 change nothing and 8XY3 clears VX. |
| Opcodes.AddRegisters | opcodes.py:70-72 | VF is written first, then VX; the result is `Instructions.AddRegisters`. |
| InstructionFacts.AddRegistersCarry | opcodes.py:70-72 | With X and Y other than F: VF is 0 or 1 and VX + 0x100 * VF is the old VX + VY. No other register changes. |
| Opcodes.Subtract | opcodes.py:75-81 | 8XY5 in the source's order of writes; the result is `Instructions.Subtract`. |
| InstructionFacts.SubtractBorrow | opcodes.py:75-81 | With X and Y other than F: without a borrow, VF = 1 and VX + VY is the old VX. With a borrow, VF = 0 and VX = 0, a clamp rather than a wrap. |
| Opcodes.SubtractReversed | opcodes.py:89-95 | 8XY7 in the source's order of writes; the result is `Instructions.SubtractReversed`. |
| InstructionFacts.SubtractReversedBorrow | opcodes.py:89-95 | With X and Y other than F: without a borrow, VF = 1 and VX + the old VX is VY. With a borrow, VF = 0 and VX = 0. |
| InstructionFacts.SubtractHaltsOnlyOnFlag | opcodes.py:75-95 | 8XY5 and 8XY7 can produce a negative register only when X or Y is F. |
| InstructionFacts.SubtractIntoFlag | opcodes.py:75-81 | 8F05 with V0 = 5 and VF = 10 would store -4, because VF is set to 1 before VX - VY is taken. |
| Opcodes.ShiftRegisterRight | opcodes.py:84-86 | VF := VY & 1, then VX := VY >> 1, as `Instructions.ShiftRegisterRight`. |
| InstructionFacts.ShiftRightSplits | opcodes.py:84-86 | With X and Y other than F: VF is the bit shifted out, and 2 * VX + VF is the old VY. |
| Opcodes.ShiftRegisterLeft | opcodes.py:98-100 | VF := VY & 0x80, then VX := (VY << 1) & 0xFF, as `Instructions.ShiftRegisterLeft`. |
| InstructionFacts.ShiftLeftAsWritten | opcodes.py:98-100 | VX is twice VY modulo 0x100, and VF is 0x80 or 0 according to the top bit of VY. |
| InstructionFacts.ShiftLeftFlagNotBit | opcodes.py:98-100 | With VY = 0x80 the flag is 0x80, so VX + 0x100 * VF is not twice VY. |
| InstructionFacts.ShiftLeftIntendedSplits | opcodes.py:98-100 | With the corrected flag, VF is 0 or 1 and VX + 0x100 * VF is twice the old VY. |
| Instructions.Arithmetic | opcodes.py:103-114 | The 0x8 table stops with `MissingHandler(n)` exactly for a last digit n of 8..D or F. |
| Opcodes.Arithmetic | opcodes.py:103-114 | Dispatch on the last digit leaves the object and status exactly as `Instructions.Arithmetic` says. |
| InstructionFacts.ArithmeticUnhandled | opcodes.py:103-114 | The 0x8 table lacks a handler exactly for 8XY8..8XYD and 8XYF. |
| Opcodes.LoadIndex | opcodes.py:122-123 | I := NNN. |
| Opcodes.JumpOffset | opcodes.py:126-127 | I := (NNN + V0) % 0x1000, as written. |
| InstructionFacts.JumpOffsetDoesNotJump | opcodes.py:126-127 | As written, BNNN leaves pc alone and sets I: it does not jump where 1NNN would. |
| InstructionFacts.JumpOffsetIntendedJumps | opcodes.py:126-127 | The corrected BNNN sets pc := (NNN + V0) % 0x1000, and with V0 = 0 it is 1NNN. |
| Opcodes.Random | opcodes.py:130-131 | VX := rand & NN for the byte rand that is passed in. |
| InstructionFacts.RandomMasked | opcodes.py:130-131 | The new VX is at most NN, equals rand when NN = 0xFF, and nothing but the registers changes. |
| Instructions.ReadSprite | opcodes.py:142 | The sprite can be read exactly when N = 0 or I + N <= 4096. Row y is then the eight bits of memory[I + y], most significant first. |
| Opcodes.ReadSprite | opcodes.py:142 | The sprite rows built in a loop are `Instructions.ReadSprite`. |
| Opcodes.DrawRow | opcodes.py:149-156 | One row of the inner loop, including its break at a flat index of 2048 or more. It does what `Instructions.DrawFrom` does for that row. |
| Opcodes.DrawRows | opcodes.py:146-156 | The nested loops leave VF and the screen as `Instructions.DrawFrom` says, and nothing else changes. |
| Opcodes.Draw | opcodes.py:135-156 | DXYN reads the sprite, clears VF, then draws; the result is `Instructions.Draw`. |
| DrawFacts.DrawFromClosed | opcodes.py:146-156 | The drawing loop from any point equals its closed form: every pending pixel under the sprite is XORed with its bit, and VF records a collision. |
| DrawFacts.DrawEffect | opcodes.py:135-156 | With X and Y other than F: VF = 1 exactly when a set sprite bit lands on a lit pixel. Every pixel under the sprite is XORed with its bit, and nothing else changes. A sprite that cannot be read is an index fault that changes nothing. |
| DrawFacts.DrawTwiceRestores | opcodes.py:135-156 | Drawing the same sprite twice at the same place gives back the screen. |
| DrawFacts.RedrawOnDark | opcodes.py:153-154 | On a dark screen nothing collides. Drawing the sprite's own image collides exactly when some set bit is on screen. |
| DrawFacts.DrawTwiceCollides | opcodes.py:135-156 | On a dark screen the first draw leaves VF = 0. The second draw leaves VF = 1 exactly when some set bit of the sprite is on screen. |
| DrawFacts.DrawFromFlag | opcodes.py:144-156 | VF ends 0 or 1 and V0..VE keep their values, for any X and Y. |
| DrawFacts.DrawFrame | opcodes.py:135-156 | DXYN changes only VF and the screen, and VF ends 0 or 1. |
| DrawFacts.DrawWrapsAsWritten | opcodes.py:150-154 | As written, a sprite at VX = 62 lights pixel 64, the first pixel of the next screen row. |
| DrawFacts.ClippedDrawAtEdge | opcodes.py:150-154 | The corrected draw leaves pixel 64 dark in the same situation. |
| DrawFacts.ClippedDrawStaysInBox | opcodes.py:135-156 | The corrected draw changes only pixels in screen columns VX..VX+7 and rows VY..VY+N-1. |
| Opcodes.SkipOnKey | opcodes.py:160-164 | pc := (pc + 2 * keypad[X]) % 0x1000 for 9E and (pc + 2 * (not keypad[X])) % 0x1000 otherwise, as `Instructions.SkipOnKey`. |
| InstructionFacts.SkipOnKeyForm | opcodes.py:160-164 | For pc below 0x1000, EX.. skips exactly when "the low byte is 9E" agrees with "key X is down", and otherwise changes nothing. |
| InstructionFacts.KeySkips | opcodes.py:160-164 | For pc below 0x1000, EX9E and EXA1 each either skip or change nothing. EX9E skips exactly when key X is down, and the two never agree. |
| InstructionFacts.OtherKeySuffix | opcodes.py:160-164 | For pc below 0x1000, any low byte other than 9E behaves as EXA1. |
| InstructionFacts.SkipOnKeyReadsWrongKey | opcodes.py:162 | With pc below 0x1000, X = 0, V0 = 5 and key 5 down but key 0 up, EX9E as written does not skip, while the corrected one does. |
| Instructions.SkipOnKeyIntended | opcodes.py:160-164 | The corrected EX.. runs exactly when VX names a key (VX < 16). |
| InstructionFacts.SkipOnKeyIntendedTestsVX | opcodes.py:160-164 | For pc below 0x1000, the corrected EX9E stops with an index fault when VX >= 16, and otherwise skips exactly when key VX is down. |
| Opcodes.ReadDelay | opcodes.py:167-168 | VX := delay. |
| InstructionFacts.DelayRoundTrip | opcodes.py:167-179 | FX15 then FY07 puts the old VX into VY. |
| Instructions.FirstPressed | opcodes.py:173 | `keypad.index(1)`: a key that is down, with every lower key up. |
| Opcodes.IndexOfPressed | opcodes.py:173 | The search loop returns `Instructions.FirstPressed`. |
| Opcodes.FirstPressedUnique | opcodes.py:173 | The first key down is the only index with a 1 and no 1 before it. |
| Opcodes.WaitKey | opcodes.py:171-175 | The new state is `Instructions.WaitKey` of the old one. |
| InstructionFacts.WaitKeyPicksLowest | opcodes.py:171-175 | With a key down, VX is the lowest key down and only registers change. With none, pc := pc - 2 and nothing else changes. |
| Opcodes.SetDelay | opcodes.py:178-179 | delay := VX. |
| Opcodes.SetSound | opcodes.py:182-183 | sound := VX. |
| Opcodes.AddIndex | opcodes.py:186-188 | VF := (I + VX > 0xFFF), then I := (I + VX) % 0x1000, as `Instructions.AddIndex`. |
| InstructionFacts.AddIndexCarry | opcodes.py:186-188 | With X other than F: VF is 0 or 1, I < 0x1000, and I + 0x1000 * VF is the old I + VX. Only registers and I change. |
| Opcodes.FontGlyph | opcodes.py:191-192 | I := VX * 5. |
| InstructionFacts.FontGlyphAddressesGlyph | opcodes.py:191-192 | With the font in place and VX < 16, I addresses the five font bytes of digit VX, which a draw can read. |
| Instructions.DecimalDigits | opcodes.py:196 | `format(v, '03d')` gives three digits, each below 10. |
| InstructionFacts.DecimalDigitsValue | opcodes.py:196-198 | The three digits spell the byte back in decimal. |
| Instructions.StoreBcd | opcodes.py:195-198 | FX33 runs to the end exactly when I + 3 <= 4096. |
| Opcodes.StoreBcd | opcodes.py:195-198 | The loop writes the digits one by one. The object and status are as `Instructions.StoreBcd` says, including the partial write before an index fault. |
| InstructionFacts.StoreBcdEffect | opcodes.py:195-198 | Within memory, memory[I..I+3) holds the decimal digits of VX and nothing else changes. Past the end, it stops with an index fault. |
| Opcodes.StoreRegisters | opcodes.py:201-204 | The loop writes VX into memory[I..I+X] and then sets I := I + X + 1, as `Instructions.StoreRegisters`. A cell past the end stops with an index fault. |
| InstructionFacts.StoreAsWrittenThenLoad | opcodes.py:201-210 | As written, FX55 then FX65 from the same I brings back the old VX into every one of V0..VX. |
| InstructionFacts.StoreThenLoad | opcodes.py:201-210 | The corrected FX55 stores V0..VX. An FX65 from the same I then reads them back and changes nothing, and I ends at I + X + 1, unmasked. |
| Instructions.Readable | opcodes.py:208-209 | The number of registers FX65 loads before it reaches the end of memory. |
| Instructions.LoadRegisters | opcodes.py:207-210 | FX65 runs to the end exactly when I + X + 1 <= 4096. |
| Opcodes.LoadRegisters | opcodes.py:207-210 | The loop loads V0..VX from memory[I..I+X] and then sets I := I + X + 1, as `Instructions.LoadRegisters`. |
| Opcodes.LoadStep | opcodes.py:208-209 | One pass of the loop extends the loaded prefix of the registers by one. |
| InstructionFacts.LoadRegistersPartial | opcodes.py:207-210 | Past the end of memory, the registers up to the last cell are loaded. The rest and I keep their values, and it stops with an index fault. |
| Instructions.Misc | opcodes.py:213-223 | The 0xF table stops with `MissingHandler(NN)` exactly for NN outside 07, 0A, 15, 18, 1E, 29, 33, 55 and 65. |
| Opcodes.Misc | opcodes.py:213-223 | Dispatch on `opcode[2:]` leaves the object and status exactly as `Instructions.Misc` says. |
| InstructionFacts.MiscUnhandled | opcodes.py:213-223 | The 0xF table lacks a handler exactly for the low bytes outside its nine keys. |
| InstructionFacts.MissingHandlers | opcodes.py:225-240 | A step ends in a missing-handler fault exactly for 8XY8..8XYD, 8XYF and the unlisted FX.. codes. The top-level table covers every first digit. |
| InstructionFacts.HaltingFamilies | opcodes.py:225-240 | Only the 0x0, 0x8, 0xD and 0xF families can stop the machine. |
| KeyCodes.TablesWf | chip8_input.py:196-216 | Each modifier is lower-case and free of '+'. It is shorter than a keypad_ spelling and does not start with the 'k' of a kp_ name. Every synonym stands for a modifier or a key; that target is lower-case, free of '+', and no keypad_ or numpad_ spelling. |
| KeyCodes.LowerChar | chip8_input.py:227 | A character changes exactly when it is one of the modelled capitals (A to Z, the Latin-1 capitals, the Kelvin sign), and the result is never a capital. |
| KeyCodes.LowerFixes | chip8_input.py:227 | Lower-casing yields a lower-case string, is idempotent, and fixes exactly the lower-case strings. |
| KeyCodes.Split | chip8_input.py:230 | `split('+')` gives at least one part, none holding '+', and joining them gives the string back. |
| KeyCodes.SplitJoin | chip8_input.py:230-274 | Splitting the join of '+'-free parts gives the parts back. |
| KeyCodes.JoinLower | chip8_input.py:274 | A join is lower-case exactly when all its parts are. |
| KeyCodes.SortSpec | chip8_input.py:266 | `sorted` gives an ordered permutation of the modifier names. |
| KeyCodes.SortedUnique | chip8_input.py:266 | Two ordered permutations of the same names are equal. |
| KeyCodes.KeypadAlias | chip8_input.py:237-240 | After the rewrite the part starts with neither keypad_ nor numpad_. A part that was free of '+' or lower-case stays so. |
| KeyCodes.NormalizeKey | chip8_input.py:234-235 | A modifier as the last part is refused with "Can't bind modifier directly". |
| KeyCodes.StrictKey | chip8_input.py:234-250 | With synonyms checked, an accepted last part is a key and not a modifier. |
| KeyCodes.NormalizeModifiers | chip8_input.py:252-264 | The modifier parts are accepted exactly when each is a modifier or a synonym. Each is then replaced by its name. |
| KeyCodes.ModifiersRejected | chip8_input.py:254-264 | A rejected list is refused with "Unknown modifier: " and its first unknown part. |
| KeyCodes.NormalizeLastPart | chip8_input.py:234-250 | The in-place checks and rewrites of the last part give `NormalizeKey`. |
| KeyCodes.NormalizeModifierParts | chip8_input.py:252-264 | The loop that rewrites the modifier parts in place gives `NormalizeModifiers`. |
| KeyCodes.NormalizeKeycode | chip8_input.py:226-274 | `normalize_keycode` as a method over a list it rewrites gives `Normalize`. |
| KeyCodeFacts.CaseInsensitive | chip8_input.py:227 | Bindings that differ only in letter case normalise alike, and alike to their lower-case form. |
| KeyCodeFacts.ModifierAsKey | chip8_input.py:234-235 | "Can't bind modifier directly" is raised exactly when the last part is ctrl, shift, alt or super. |
| KeyCodeFacts.KeypadSpelling | chip8_input.py:237-240 | keypad_N and numpad_N as the last part normalise as kp_N does. |
| KeyCodeFacts.UnknownKey | chip8_input.py:242-250 | A last part that is no modifier, and after the keypad rewrite neither a key nor a synonym, raises "Unknown key: " with the rewritten part. |
| KeyCodeFacts.EmptyBindings | chip8_input.py:230-272 | "" and "+" raise "Unknown key: ", because `split` never returns an empty list. |
| KeyCodeFacts.UnknownModifier | chip8_input.py:252-264 | With a valid key, the error names the first part that is neither a modifier nor a synonym. |
| KeyCodeFacts.FirstUnknown | chip8_input.py:254-264 | A rejected modifier list has a first unknown part. |
| KeyCodeFacts.TwoParts | chip8_input.py:242-274 | For a two-part binding the key is checked first, then the modifier, and the result is the two names joined. |
| KeyCodeFacts.OutputStructure | chip8_input.py:266-274 | The output has as many parts as the input and they are lower-case. The key is last and the modifier names come sorted in front of it. |
| KeyCodeFacts.LowercaseResult | chip8_input.py:226-274 | A normalised binding is lower-case. |
| KeyCodeFacts.CanonicalUnchanged | chip8_input.py:226-274 | A binding that is already canonical is returned unchanged. Canonical means lower-case, sorted modifiers, and a last part that is a key, not a modifier, and not a keypad_/numpad_ spelling. |
| KeyCodeFacts.StrictCanonical | chip8_input.py:226-274 | With synonyms checked, every output is canonical. |
| KeyCodeFacts.StrictAgrees | chip8_input.py:242-264 | Where the checked normalisation succeeds, the as-written one gives the same result. |
| KeyCodeFacts.IntendedIdempotent | chip8_input.py:226-274 | The checked normalisation is idempotent, and the as-written one leaves the checked output alone. |
| KeyCodeFacts.KelvinSign | chip8_input.py:227-264 | The Kelvin sign U+212A lower-cases to `k`, so "\u212A" binds `k` and "ctrl+\u212A" binds `ctrl+k`. |
| KeyCodeFacts.SynonymBecomesModifier | chip8_input.py:242-250 | As written, "control" normalises to "ctrl", which is then refused as a key. The checked normalisation refuses "control" directly. |
| KeyCodeFacts.SynonymBecomesKeyName | chip8_input.py:252-264 | As written, "esc+a" normalises to "escape+a", which is then refused as a modifier. The checked normalisation refuses "esc+a". |

## Left out

- The SDL platform layer, the main loop with its wall-clock timers and audio, the older SDL loop and debugging helpers, and the sound tests are not part of this model. They are I/O and foreign calls. The main loop also decrements the delay timer without a floor, so it can go negative; this model does not check that.
- `State.init_state` (chip8_core.py:51-53) is not modelled. It refers to `self.state`, which does not exist, so it cannot complete.
- `random.randint` in CXNN is not modelled. The random byte is the parameter `rand`, and the model states only that VX becomes `rand & NN`.
- `sys.exit` for 0NNN is modelled as the fault `MachineCodeUnsupported` rather than a process exit.
- Instructions.Subtract: when X or Y is F, VF is written before VX - VY (or VY - VX) is taken, and Python would then store a negative number in a register. The model stops with `RegisterOutOfRange` there instead of carrying a negative register. `InstructionFacts.SubtractIntoFlag` shows such an input, and `InstructionFacts.SubtractHaltsOnlyOnFlag` shows it happens only then.
- Instructions.SubtractReversed: the same as for `Subtract`, with VY - VX.
- Python's dynamic typing is not modelled: registers, timers, keypad and screen hold the integer values the handlers produce. The stack holds the program counters that 2NNN pushes.
- Decoder.ParseHex: `int(s, 16)` also accepts surrounding whitespace, underscores and a 0x prefix. The model parses digit strings only, which is all that `format(v, '04X')` produces.
- KeyCodes.Lower: `str.lower` is modelled on A to Z, the Latin-1 capitals U+00C0 to U+00DE except U+00D7, and the Kelvin sign U+212A, which becomes `k`. The Kelvin sign is the only capital whose lower case is in the ASCII-only tables, so acceptance is modelled exactly. Other capitals (Greek, Cyrillic, U+0130 `İ`, which lowers to two characters, and the rest) are kept as they are, so the text of an "Unknown key" or "Unknown modifier" error that names such a part keeps the capital where the source would print its lower case.
- The `KeyCodeError` exception is the `KeyCodeError(message)` case of `KeyCodes.KeyResult`. The exception class itself carries nothing more.
- The "Empty key string" branch (chip8_input.py:270-272) has no counterpart, because `split('+')` always returns at least one part (`KeyCodes.Split`).
- Cycle.Run repeats steps with one random byte each. It stands in for the main loop's repeated stepping, without its timing.
- The dispatch (`Instructions.Execute`, `Interpreter.Step`) uses the handlers as written. The corrected handlers of "## Findings" are proved beside them but are not wired into the dispatch.

## Findings

| source | as written | input that shows it | evidently intended | confidence | as-written member | corrected member |
|---|---|---|---|---|---|---|
| opcodes.py:126-127 | BNNN sets I := (NNN + V0) % 0x1000 and leaves pc alone | V0 = 0, pc different from NNN: pc does not change | jump: pc := NNN + V0 | high; not executed | Instructions.JumpOffset, InstructionFacts.JumpOffsetDoesNotJump | Instructions.JumpOffsetIntended, InstructionFacts.JumpOffsetIntendedJumps |
| opcodes.py:160-164 | EX9E/EXA1 test keypad[X], the register number | X = 0, V0 = 5, key 5 down, key 0 up: EX9E does not skip | test the key named by VX | high; not executed | Instructions.SkipOnKey, InstructionFacts.SkipOnKeyReadsWrongKey | Instructions.SkipOnKeyIntended, InstructionFacts.SkipOnKeyIntendedTestsVX |
| opcodes.py:201-204 | FX55 writes VX into every cell I..I+X | X = 1, V0 = 1, V1 = 2: memory[I..I+2) = [2, 2], so FX65 loads V0 = 2 | store V0..VX | high; not executed | Instructions.StoreRegisters, InstructionFacts.StoreAsWrittenThenLoad | Instructions.StoreRegistersIntended, InstructionFacts.StoreThenLoad |
| opcodes.py:98-100 | 8XYE sets VF := VY & 0x80 | VY = 0x80: VF = 0x80 | VF := top bit of VY (0 or 1) | high; not executed | Instructions.ShiftRegisterLeft, InstructionFacts.ShiftLeftFlagNotBit | Instructions.ShiftRegisterLeftIntended, InstructionFacts.ShiftLeftIntendedSplits |
| opcodes.py:150-156 | DXYN does not clip at the right edge: column 64 and beyond lands on the next screen row | V0 = 62, V1 = 0, I = 0, memory[0] = 0xFF, D011: pixel 64 is lit | pixels past column 63 are not drawn | medium; not executed | Instructions.Draw, DrawFacts.DrawWrapsAsWritten | Instructions.DrawIntended, DrawFacts.ClippedDrawAtEdge, DrawFacts.ClippedDrawStaysInBox |
| chip8_input.py:242-264 | synonyms are applied after the checks, so a synonym of a modifier becomes the key and a synonym of a key becomes a modifier | "control" gives "ctrl", which is refused as a key; "esc+a" gives "escape+a", which is refused as a modifier | a binding's normal form is accepted again | medium; not executed | KeyCodes.Normalize, KeyCodeFacts.SynonymBecomesModifier, KeyCodeFacts.SynonymBecomesKeyName | KeyCodes.NormalizeIntended, KeyCodeFacts.IntendedIdempotent |
