/** What each instruction handler of opcodes.py does to the machine, as a
    function from the state before to the state after and a status. The
    handlers read and write the registers in the order the source does: where
    VF is written before the operands are read (8XY4, 8XY5, 8XY6, 8XY7, 8XYE,
    FX1E), an operand that is VF is read after the write.

    The dispatch `Execute` uses the handlers as the source has them; the
    members whose names end in `Intended` are the corrected readings of five
    handlers, kept beside them and used by nothing in the dispatch. */
module Instructions {
  import opened Bits
  import opened Decoder
  import opened Machine

  function Continue(m: MachineState): Outcome { Outcome(m, Running) }

  function Halt(m: MachineState, f: Fault): Outcome { Outcome(m, Halted(f)) }

  function SetRegister(m: MachineState, i: nat, v: Byte): (r: MachineState)
    requires m.Wf() && i < REGISTER_COUNT
    ensures r.Wf() && r.register[i] == v
    ensures forall j :: 0 <= j < REGISTER_COUNT && j != i ==> r.register[j] == m.register[j]
  {
    m.(register := m.register[i := v])
  }

  /** `pc := (pc + 2) % 0x1000` when the condition holds. */
  function SkipIf(m: MachineState, condition: bool): MachineState
  {
    if condition then m.(pc := (m.pc + 2) % 0x1000) else m
  }

  // ---------------------------------------------------------------- 0x0

  /** 00E0 clears the screen, 00EE returns from a subroutine; any other
      0NNN (a call to native machine code) stops the interpreter. */
  function System(m: MachineState, op: Opcode): (r: Outcome)
    requires m.Wf()
    ensures r.state.Wf()
    ensures r.status.Running? <==> op.value == 0x00E0 || (op.value == 0x00EE && |m.stack| > 0)
  {
    if op.value == 0x00E0 then Continue(m.(screen := Dark()))
    else if op.value == 0x00EE then
      if |m.stack| == 0 then Halt(m, StackUnderflow)
      else Continue(m.(pc := m.stack[|m.stack| - 1], stack := m.stack[..|m.stack| - 1]))
    else Halt(m, MachineCodeUnsupported)
  }

  // ---------------------------------------------------------------- 0x1..0x7

  /** 1NNN */
  function Jump(m: MachineState, op: Opcode): MachineState
  {
    m.(pc := op.NNN())
  }

  /** 2NNN: push the program counter, then jump. */
  function Call(m: MachineState, op: Opcode): MachineState
  {
    m.(stack := m.stack + [m.pc], pc := op.NNN())
  }

  /** 3XNN */
  function SkipIfEqualImmediate(m: MachineState, op: Opcode): MachineState
    requires m.Wf()
  {
    SkipIf(m, m.register[op.X()] == op.NN())
  }

  /** 4XNN */
  function SkipIfNotEqualImmediate(m: MachineState, op: Opcode): MachineState
    requires m.Wf()
  {
    SkipIf(m, m.register[op.X()] != op.NN())
  }

  /** 5XY0 (the low nibble is not looked at) */
  function SkipIfEqualRegisters(m: MachineState, op: Opcode): MachineState
    requires m.Wf()
  {
    SkipIf(m, m.register[op.X()] == m.register[op.Y()])
  }

  /** 6XNN */
  function LoadImmediate(m: MachineState, op: Opcode): (r: MachineState)
    requires m.Wf()
    ensures r.Wf()
  {
    SetRegister(m, op.X(), op.NN())
  }

  /** 7XNN: add without touching VF, wrapping at 0x100. */
  function AddImmediate(m: MachineState, op: Opcode): (r: MachineState)
    requires m.Wf()
    ensures r.Wf()
  {
    SetRegister(m, op.X(), ((m.register[op.X()] as int) + op.NN()) % 0x100)
  }

  // ---------------------------------------------------------------- 0x8

  /** 8XY0 */
  function Move(m: MachineState, op: Opcode): (r: MachineState)
    requires m.Wf()
    ensures r.Wf()
  {
    SetRegister(m, op.X(), m.register[op.Y()])
  }

  /** 8XY1 */
  function OrRegisters(m: MachineState, op: Opcode): (r: MachineState)
    requires m.Wf()
    ensures r.Wf()
  {
    SetRegister(m, op.X(), Or8(m.register[op.X()], m.register[op.Y()]))
  }

  /** 8XY2 */
  function AndRegisters(m: MachineState, op: Opcode): (r: MachineState)
    requires m.Wf()
    ensures r.Wf()
  {
    SetRegister(m, op.X(), And8(m.register[op.X()], m.register[op.Y()]))
  }

  /** 8XY3 */
  function XorRegisters(m: MachineState, op: Opcode): (r: MachineState)
    requires m.Wf()
    ensures r.Wf()
  {
    SetRegister(m, op.X(), Xor8(m.register[op.X()], m.register[op.Y()]))
  }

  /** 8XY4: VF := carry of VX + VY, then VX := (VX + VY) % 0x100 with the
      registers read again. */
  function AddRegisters(m: MachineState, op: Opcode): (r: MachineState)
    requires m.Wf()
    ensures r.Wf()
  {
    var x, y := op.X(), op.Y();
    var m1 := SetRegister(m, FLAG, if (m.register[x] as int) + m.register[y] > 0xFF then 1 else 0);
    SetRegister(m1, x, ((m1.register[x] as int) + m1.register[y]) % 0x100)
  }

  /** 8XY5: with a borrow (VY > VX) VF and VX both become 0; otherwise VF
      := 1 and then VX := VX - VY, read again. When X or Y is F that
      difference can be negative, which no byte register holds. */
  function Subtract(m: MachineState, op: Opcode): (r: Outcome)
    requires m.Wf()
    ensures r.state.Wf()
  {
    var x, y := op.X(), op.Y();
    if m.register[y] > m.register[x] then
      Continue(SetRegister(SetRegister(m, FLAG, 0), x, 0))
    else
      var m1 := SetRegister(m, FLAG, 1);
      var d := (m1.register[x] as int) - m1.register[y];
      if d < 0 then Halt(m1, RegisterOutOfRange) else Continue(SetRegister(m1, x, d))
  }

  /** 8XY6: VF := VY & 1, then VX := VY >> 1 with VY read again. */
  function ShiftRegisterRight(m: MachineState, op: Opcode): (r: MachineState)
    requires m.Wf()
    ensures r.Wf()
  {
    var x, y := op.X(), op.Y();
    var m1 := SetRegister(m, FLAG, BitAnd(m.register[y], 1));
    HalveByte(m1.register[y]);
    SetRegister(m1, x, ShiftRight(m1.register[y], 1))
  }

  /** 8XY7: with a borrow (VX > VY) VF and VX both become 0; otherwise VF
      := 1 and then VX := VY - VX, read again. */
  function SubtractReversed(m: MachineState, op: Opcode): (r: Outcome)
    requires m.Wf()
    ensures r.state.Wf()
  {
    var x, y := op.X(), op.Y();
    if m.register[x] > m.register[y] then
      Continue(SetRegister(SetRegister(m, FLAG, 0), x, 0))
    else
      var m1 := SetRegister(m, FLAG, 1);
      var d := (m1.register[y] as int) - m1.register[x];
      if d < 0 then Halt(m1, RegisterOutOfRange) else Continue(SetRegister(m1, x, d))
  }

  /** 8XYE as written: VF := VY & 0x80 (0 or 0x80, not 0 or 1), then
      VX := (VY << 1) & 0xFF with VY read again. */
  function ShiftRegisterLeft(m: MachineState, op: Opcode): (r: MachineState)
    requires m.Wf()
    ensures r.Wf()
  {
    var x, y := op.X(), op.Y();
    var m1 := SetRegister(m, FLAG, BitAnd(m.register[y], 0x80));
    SetRegister(m1, x, BitAnd(ShiftLeft(m1.register[y], 1), 0xFF))
  }

  /** 8XYE as its comment describes it: VF := the most significant bit of
      VY, 0 or 1. */
  function ShiftRegisterLeftIntended(m: MachineState, op: Opcode): (r: MachineState)
    requires m.Wf()
    ensures r.Wf()
  {
    var x, y := op.X(), op.Y();
    HalveByte(m.register[y]);
    var m1 := SetRegister(m, FLAG, ShiftRight(m.register[y], 7));
    SetRegister(m1, x, BitAnd(ShiftLeft(m1.register[y], 1), 0xFF))
  }

  /** The 0x8 family, dispatched on the last hexadecimal digit; the digits
      8..D and F have no handler. */
  function Arithmetic(m: MachineState, op: Opcode): (r: Outcome)
    requires m.Wf()
    ensures r.state.Wf()
    ensures r.status == Halted(MissingHandler(op.value % 0x10)) <==> op.value % 0x10 in {8, 9, 0xA, 0xB, 0xC, 0xD, 0xF}
  {
    var n := op.Item(3).value;
    if n == 0x0 then Continue(Move(m, op))
    else if n == 0x1 then Continue(OrRegisters(m, op))
    else if n == 0x2 then Continue(AndRegisters(m, op))
    else if n == 0x3 then Continue(XorRegisters(m, op))
    else if n == 0x4 then Continue(AddRegisters(m, op))
    else if n == 0x5 then Subtract(m, op)
    else if n == 0x6 then Continue(ShiftRegisterRight(m, op))
    else if n == 0x7 then SubtractReversed(m, op)
    else if n == 0xE then Continue(ShiftRegisterLeft(m, op))
    else Halt(m, MissingHandler(n))
  }

  // ---------------------------------------------------------------- 0x9..0xC

  /** 9XY0 (the low nibble is not looked at) */
  function SkipIfNotEqualRegisters(m: MachineState, op: Opcode): MachineState
    requires m.Wf()
  {
    SkipIf(m, m.register[op.X()] != m.register[op.Y()])
  }

  /** ANNN */
  function LoadIndex(m: MachineState, op: Opcode): MachineState
  {
    m.(I := op.NNN())
  }

  /** BNNN as written: the sum NNN + V0 goes to I, not to the program counter. */
  function JumpOffset(m: MachineState, op: Opcode): MachineState
    requires m.Wf()
  {
    m.(I := (op.NNN() + m.register[0]) % 0x1000)
  }

  /** BNNN as its comment describes it: jump to NNN + V0. */
  function JumpOffsetIntended(m: MachineState, op: Opcode): MachineState
    requires m.Wf()
  {
    m.(pc := (op.NNN() + m.register[0]) % 0x1000)
  }

  /** CXNN, with `rand` the byte drawn by the random source. */
  function Random(m: MachineState, op: Opcode, rand: Byte): (r: MachineState)
    requires m.Wf()
    ensures r.Wf()
  {
    SetRegister(m, op.X(), And8(rand, op.NN()))
  }

  // ---------------------------------------------------------------- 0xD

  /** The bits of a byte, most significant first, as `format(b, '08b')`
      spells them. */
  function SpriteRow(b: Byte): (r: seq<Bit>)
    ensures |r| == 8
  {
    [b / 0x80, (b / 0x40) % 2, (b / 0x20) % 2, (b / 0x10) % 2,
     (b / 0x8) % 2, (b / 0x4) % 2, (b / 0x2) % 2, b % 2]
  }

  predicate IsSprite(sprite: seq<seq<Bit>>)
  {
    forall y :: 0 <= y < |sprite| ==> |sprite[y]| == 8
  }

  /** The n sprite rows at memory[I..I+n], read in order; a row past the end
      of memory is an index fault. */
  function ReadSprite(memory: seq<Byte>, I: nat, n: nat): (r: Result<seq<seq<Bit>>>)
    ensures r.Ok? <==> n == 0 || I + n <= |memory|
    ensures r.Ok? ==> |r.value| == n && IsSprite(r.value)
    ensures r.Ok? ==> forall y :: 0 <= y < n ==> r.value[y] == SpriteRow(memory[I + y])
  {
    if n == 0 || I + n <= |memory| then
      var rows := seq(n, y requires 0 <= y < n => SpriteRow(memory[I + y]));
      assert forall y :: 0 <= y < n ==> rows[y] == SpriteRow(memory[I + y]);
      Ok(rows)
    else Err(IndexOutOfRange)
  }

  /** The drawing loop from row y, column x on. At each step the pixel index
      is computed from VX and VY as they are now; VF, once non-zero, stays,
      and otherwise becomes `pixel & bit`; the pixel is XORed with the bit. An
      index past the end of the screen ends the current row. With `clip`, a
      column past the right edge ends the row too. */
  function DrawFrom(register: seq<Byte>, screen: seq<Bit>, sprite: seq<seq<Bit>>,
                    rx: nat, ry: nat, y: nat, x: nat, clip: bool): (r: (seq<Byte>, seq<Bit>))
    requires |register| == REGISTER_COUNT && |screen| == SCREEN_SIZE && IsSprite(sprite)
    requires rx < REGISTER_COUNT && ry < REGISTER_COUNT && x <= 8
    ensures |r.0| == REGISTER_COUNT && |r.1| == SCREEN_SIZE
    decreases |sprite| - y, 8 - x
  {
    if y >= |sprite| then (register, screen)
    else if x == 8 then DrawFrom(register, screen, sprite, rx, ry, y + 1, 0, clip)
    else
      var column := register[rx] + x;
      var index := (register[ry] + y) * SCREEN_WIDTH + column;
      if index >= SCREEN_SIZE || (clip && column >= SCREEN_WIDTH) then
        DrawFrom(register, screen, sprite, rx, ry, y + 1, 0, clip)
      else
        var bit := sprite[y][x];
        var flag := if register[FLAG] != 0 then register[FLAG] else AndBit(screen[index], bit);
        DrawFrom(register[FLAG := flag], screen[index := XorBit(screen[index], bit)],
                 sprite, rx, ry, y, x + 1, clip)
  }

  function DrawWith(m: MachineState, op: Opcode, clip: bool): (r: Outcome)
    requires m.Wf()
    ensures r.state.Wf()
  {
    match ReadSprite(m.memory, m.I, op.Item(3).value)
    case Err(f) => Halt(m, f)
    case Ok(sprite) =>
      var (register, screen) := DrawFrom(m.register[FLAG := 0], m.screen, sprite, op.X(), op.Y(), 0, 0, clip);
      Continue(m.(register := register, screen := screen))
  }

  /** DXYN as written: no clipping at the right edge, so a column past 63
      lands in the next screen row. */
  function Draw(m: MachineState, op: Opcode): (r: Outcome)
    requires m.Wf()
    ensures r.state.Wf()
  {
    DrawWith(m, op, false)
  }

  /** DXYN with the sprite clipped at the right edge of the screen. */
  function DrawIntended(m: MachineState, op: Opcode): (r: Outcome)
    requires m.Wf()
    ensures r.state.Wf()
  {
    DrawWith(m, op, true)
  }

  // ---------------------------------------------------------------- 0xE

  /** EX9E / EXA1 as written: the key tested is key X, not key VX; any low
      byte other than 0x9E acts as EXA1. */
  function SkipOnKey(m: MachineState, op: Opcode): MachineState
    requires m.Wf()
  {
    var key: int := m.keypad[op.X()];
    op.SuffixIsLowByte();
    if op.Suffix(2) == Some(0x9E) then m.(pc := (m.pc + 2 * key) % 0x1000)
    else m.(pc := (m.pc + 2 * (1 - key)) % 0x1000)
  }

  /** EX9E / EXA1 as the comments describe them: the key tested is the one
      whose number is held in VX; a number past the keypad is an index
      fault. */
  function SkipOnKeyIntended(m: MachineState, op: Opcode): (r: Outcome)
    requires m.Wf()
    ensures r.status.Running? <==> m.register[op.X()] < KEY_COUNT
  {
    var k := m.register[op.X()];
    if k >= KEY_COUNT then Halt(m, IndexOutOfRange)
    else
      var key: int := m.keypad[k];
      op.SuffixIsLowByte();
      if op.Suffix(2) == Some(0x9E) then Continue(m.(pc := (m.pc + 2 * key) % 0x1000))
      else Continue(m.(pc := (m.pc + 2 * (1 - key)) % 0x1000))
  }

  // ---------------------------------------------------------------- 0xF

  /** FX07 */
  function ReadDelay(m: MachineState, op: Opcode): (r: MachineState)
    requires m.Wf()
    ensures r.Wf()
  {
    SetRegister(m, op.X(), m.delay)
  }

  /** The lowest index of a pressed key. */
  function FirstPressed(keypad: seq<Bit>): (r: nat)
    requires 1 in keypad
    ensures r < |keypad| && keypad[r] == 1
    ensures forall i :: 0 <= i < r ==> keypad[i] == 0
  {
    if keypad[0] == 1 then 0 else 1 + FirstPressed(keypad[1..])
  }

  /** FX0A: VX := the lowest pressed key; with no key down the program
      counter steps back over this instruction. */
  function WaitKey(m: MachineState, op: Opcode): (r: MachineState)
    requires m.Wf()
    ensures r.Wf()
  {
    if 1 in m.keypad then SetRegister(m, op.X(), FirstPressed(m.keypad))
    else m.(pc := m.pc - 2)
  }

  /** FX15 */
  function SetDelay(m: MachineState, op: Opcode): MachineState
    requires m.Wf()
  {
    m.(delay := m.register[op.X()])
  }

  /** FX18 */
  function SetSound(m: MachineState, op: Opcode): MachineState
    requires m.Wf()
  {
    m.(sound := m.register[op.X()])
  }

  /** FX1E: VF := whether I + VX passes 0xFFF, then I := (I + VX) % 0x1000
      with VX read again. */
  function AddIndex(m: MachineState, op: Opcode): (r: MachineState)
    requires m.Wf()
    ensures r.Wf()
  {
    var m1 := SetRegister(m, FLAG, if m.I + m.register[op.X()] > 0xFFF then 1 else 0);
    m1.(I := (m1.I + m1.register[op.X()]) % 0x1000)
  }

  /** FX29: the glyph of digit VX is five bytes long, at 5 * VX. */
  function FontGlyph(m: MachineState, op: Opcode): MachineState
    requires m.Wf()
  {
    m.(I := (m.register[op.X()] as int) * 5)
  }

  /** The three characters of `format(v, '03d')` as digits. */
  function DecimalDigits(v: Byte): (r: seq<Byte>)
    ensures |r| == 3 && forall i :: 0 <= i < 3 ==> r[i] < 10
  {
    [v / 100, (v / 10) % 10, v % 10]
  }

  /** FX33: the decimal digits of VX to memory[I..I+3], stopping with an
      index fault at the end of memory. */
  function StoreBcd(m: MachineState, op: Opcode): (r: Outcome)
    requires m.Wf()
    ensures r.state.Wf()
    ensures r.status.Running? <==> m.I + 3 <= MEMORY_SIZE
  {
    var digits := DecimalDigits(m.register[op.X()]);
    var m1 := m.(memory := Loaded(m.memory, digits, m.I));
    if Fits(m.memory, digits, m.I) then Continue(m1) else Halt(m1, IndexOutOfRange)
  }

  /** The bytes FX55 as written stores: X + 1 copies of VX. */
  function StoredAsWritten(m: MachineState, op: Opcode): (r: seq<Byte>)
    requires m.Wf()
    ensures |r| == op.X() + 1
  {
    seq(op.X() + 1, _ => m.register[op.X()])
  }

  /** The bytes FX55 is documented to store: V0..VX. */
  function StoredIntended(m: MachineState, op: Opcode): (r: seq<Byte>)
    requires m.Wf()
    ensures |r| == op.X() + 1
  {
    m.register[..op.X() + 1]
  }

  function StoreWith(m: MachineState, op: Opcode, values: seq<Byte>): (r: Outcome)
    requires m.Wf() && |values| == op.X() + 1
    ensures r.state.Wf()
  {
    var m1 := m.(memory := Loaded(m.memory, values, m.I));
    if Fits(m.memory, values, m.I) then Continue(m1.(I := m.I + op.X() + 1))
    else Halt(m1, IndexOutOfRange)
  }

  /** FX55 as written: VX (not V0..VX) into memory[I..I+X], then
      I := I + X + 1. */
  function StoreRegisters(m: MachineState, op: Opcode): (r: Outcome)
    requires m.Wf()
    ensures r.state.Wf()
  {
    StoreWith(m, op, StoredAsWritten(m, op))
  }

  /** FX55 as its comment describes it: V0..VX into memory[I..I+X]. */
  function StoreRegistersIntended(m: MachineState, op: Opcode): (r: Outcome)
    requires m.Wf()
    ensures r.state.Wf()
  {
    StoreWith(m, op, StoredIntended(m, op))
  }

  /** How many of the X + 1 reads from memory[I..] succeed. */
  function Readable(m: MachineState, op: Opcode): (k: nat)
    requires m.Wf()
    ensures k <= op.X() + 1
    ensures k == op.X() + 1 <==> m.I + op.X() + 1 <= MEMORY_SIZE
  {
    if m.I >= MEMORY_SIZE then 0
    else if m.I + op.X() + 1 <= MEMORY_SIZE then op.X() + 1
    else MEMORY_SIZE - m.I
  }

  /** FX65: V0..VX from memory[I..I+X], then I := I + X + 1; a read past the
      end of memory stops the copy with an index fault. */
  function LoadRegisters(m: MachineState, op: Opcode): (r: Outcome)
    requires m.Wf()
    ensures r.state.Wf()
    ensures r.status.Running? <==> m.I + op.X() + 1 <= MEMORY_SIZE
  {
    var k := Readable(m, op);
    var m1 := if k == 0 then m else m.(register := m.memory[m.I..m.I + k] + m.register[k..]);
    if k == op.X() + 1 then Continue(m1.(I := m.I + op.X() + 1))
    else Halt(m1, IndexOutOfRange)
  }

  /** The 0xF family, dispatched on the low byte. */
  function Misc(m: MachineState, op: Opcode): (r: Outcome)
    requires m.Wf()
    ensures r.state.Wf()
    ensures r.status == Halted(MissingHandler(op.NN())) <==>
      op.NN() !in {0x07, 0x0A, 0x15, 0x18, 0x1E, 0x29, 0x33, 0x55, 0x65}
  {
    op.SuffixIsLowByte();
    var n := op.Suffix(2).value;
    if n == 0x07 then Continue(ReadDelay(m, op))
    else if n == 0x0A then Continue(WaitKey(m, op))
    else if n == 0x15 then Continue(SetDelay(m, op))
    else if n == 0x18 then Continue(SetSound(m, op))
    else if n == 0x1E then Continue(AddIndex(m, op))
    else if n == 0x29 then Continue(FontGlyph(m, op))
    else if n == 0x33 then StoreBcd(m, op)
    else if n == 0x55 then StoreRegisters(m, op)
    else if n == 0x65 then LoadRegisters(m, op)
    else Halt(m, MissingHandler(n))
  }

  // ---------------------------------------------------------------- dispatch

  /** The top-level table, keyed on the first hexadecimal digit; every
      digit has a handler. */
  function Execute(m: MachineState, op: Opcode, rand: Byte): (r: Outcome)
    requires m.Wf()
    ensures r.state.Wf()
  {
    var d := op.Item(0).value;
    if d == 0x0 then System(m, op)
    else if d == 0x1 then Continue(Jump(m, op))
    else if d == 0x2 then Continue(Call(m, op))
    else if d == 0x3 then Continue(SkipIfEqualImmediate(m, op))
    else if d == 0x4 then Continue(SkipIfNotEqualImmediate(m, op))
    else if d == 0x5 then Continue(SkipIfEqualRegisters(m, op))
    else if d == 0x6 then Continue(LoadImmediate(m, op))
    else if d == 0x7 then Continue(AddImmediate(m, op))
    else if d == 0x8 then Arithmetic(m, op)
    else if d == 0x9 then Continue(SkipIfNotEqualRegisters(m, op))
    else if d == 0xA then Continue(LoadIndex(m, op))
    else if d == 0xB then Continue(JumpOffset(m, op))
    else if d == 0xC then Continue(Random(m, op, rand))
    else if d == 0xD then Draw(m, op)
    else if d == 0xE then Continue(SkipOnKey(m, op))
    else Misc(m, op)
  }
}
