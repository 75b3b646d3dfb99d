/** Properties of the instruction handlers other than DXYN: what each one
    promises about the registers, the program counter, the stack and memory,
    the pairs of instructions that undo or complement each other, and where
    the handlers as written part from their documented meaning. */
module InstructionFacts {
  import opened Bits
  import opened Decoder
  import opened Machine
  import opened Instructions

  /** The state with the next instruction skipped. */
  function Skipped(m: MachineState): MachineState
  {
    m.(pc := (m.pc + 2) % 0x1000)
  }

  /** The program counter is a 12-bit address. */
  predicate PcInRange(m: MachineState)
  {
    0 <= m.pc < MEMORY_SIZE
  }

  // ---------------------------------------------------------------- 0x0..0x2

  /** 00E0 darkens every pixel and changes nothing else. */
  lemma ClearScreen(m: MachineState, op: Opcode)
    requires m.Wf() && op.value == 0x00E0
    ensures System(m, op) == Continue(m.(screen := Dark()))
    ensures forall p :: 0 <= p < SCREEN_SIZE ==> System(m, op).state.screen[p] == 0
  {
  }

  /** 2NNN followed by 00EE gives back the state before the call. */
  lemma CallThenReturn(m: MachineState, call: Opcode, ret: Opcode)
    requires m.Wf() && ret.value == 0x00EE
    ensures Call(m, call).pc == call.value % 0x1000
    ensures System(Call(m, call), ret) == Continue(m)
  {
    var m1 := Call(m, call);
    assert m1.stack[..|m1.stack| - 1] == m.stack;
  }

  /** 00EE with an empty stack stops with a stack underflow and changes
      nothing. */
  lemma ReturnUnderflow(m: MachineState, op: Opcode)
    requires m.Wf() && op.value == 0x00EE && |m.stack| == 0
    ensures System(m, op) == Halt(m, StackUnderflow)
  {
  }

  // ---------------------------------------------------------------- skips

  /** 3XNN and 4XNN with the same X and NN: each skips or not and changes
      nothing else, 3XNN skips exactly when VX == NN, and exactly one of the
      two skips. This holds for every program counter, including 0x1000
      after a fetch at 0xFFE. */
  lemma ImmediateSkips(m: MachineState, op: Opcode)
    requires m.Wf()
    ensures SkipIfEqualImmediate(m, op) in {m, Skipped(m)}
    ensures SkipIfNotEqualImmediate(m, op) in {m, Skipped(m)}
    ensures SkipIfEqualImmediate(m, op) == Skipped(m) <==> m.register[op.X()] == op.NN()
    ensures SkipIfEqualImmediate(m, op) != SkipIfNotEqualImmediate(m, op)
  {
    assert Skipped(m).pc != m.pc;
  }

  /** 5XY0 and 9XY0 with the same X and Y: 5XY0 skips exactly when VX ==
      VY, and exactly one of the two skips, for every program counter. */
  lemma RegisterSkips(m: MachineState, op: Opcode)
    requires m.Wf()
    ensures SkipIfEqualRegisters(m, op) in {m, Skipped(m)}
    ensures SkipIfNotEqualRegisters(m, op) in {m, Skipped(m)}
    ensures SkipIfEqualRegisters(m, op) == Skipped(m) <==> m.register[op.X()] == m.register[op.Y()]
    ensures SkipIfEqualRegisters(m, op) != SkipIfNotEqualRegisters(m, op)
  {
    assert Skipped(m).pc != m.pc;
  }

  /** 6XNN then 3XNN with the same X and NN always skips. */
  lemma LoadThenSkip(m: MachineState, load: Opcode, skip: Opcode)
    requires m.Wf() && load.X() == skip.X() && load.NN() == skip.NN()
    ensures SkipIfEqualImmediate(LoadImmediate(m, load), skip) == Skipped(LoadImmediate(m, load))
  {
  }

  // ---------------------------------------------------------------- 0x7, 0x8

  /** 7XNN then 7XMM with NN + MM a multiple of 0x100 gives the state back:
      the add wraps and touches nothing but VX. */
  lemma AddImmediateUndo(m: MachineState, op: Opcode, back: Opcode)
    requires m.Wf() && back.X() == op.X() && (op.NN() + back.NN()) % 0x100 == 0
    ensures AddImmediate(AddImmediate(m, op), back) == m
  {
    var x, v := op.X(), m.register[op.X()];
    var m1 := AddImmediate(m, op);
    var w := ((v as int) + op.NN()) % 0x100;
    assert m1.register[x] == w;
    assert (w + back.NN()) % 0x100 == (v + op.NN() + back.NN()) % 0x100 == v;
    assert m.register[x := w][x := v] == m.register;
  }

  /** 8XY0, then 5XY0 with the same X and Y always skips. */
  lemma MoveThenSkip(m: MachineState, op: Opcode, skip: Opcode)
    requires m.Wf() && skip.X() == op.X() && skip.Y() == op.Y()
    ensures SkipIfEqualRegisters(Move(m, op), skip) == Skipped(Move(m, op))
  {
  }

  /** 8XY3 twice with X and Y different gives the state back. */
  lemma XorTwice(m: MachineState, op: Opcode)
    requires m.Wf() && op.X() != op.Y()
    ensures XorRegisters(XorRegisters(m, op), op) == m
  {
    var x, y := op.X(), op.Y();
    var m1 := XorRegisters(m, op);
    XorCancels(m.register[x], m.register[y]);
    assert m1.register[y] == m.register[y];
    assert m.register[x := m1.register[x]][x := m.register[x]] == m.register;
  }

  /** With X == Y, 8XX1 and 8XX2 change nothing and 8XX3 clears VX. */
  lemma SelfLogic(m: MachineState, op: Opcode)
    requires m.Wf() && op.X() == op.Y()
    ensures OrRegisters(m, op) == m && AndRegisters(m, op) == m
    ensures XorRegisters(m, op).register[op.X()] == 0
  {
    var x := op.X();
    SelfOps(m.register[x]);
    XorSelf(m.register[x]);
    assert m.register[x := m.register[x]] == m.register;
  }

  /** The registers other than VX and VF keep their values. */
  predicate OthersKept(m: MachineState, r: MachineState, x: nat)
    requires m.Wf() && r.Wf()
  {
    (forall j :: 0 <= j < REGISTER_COUNT && j != x && j != FLAG ==> r.register[j] == m.register[j]) &&
    r == m.(register := r.register)
  }

  /** 8XY4 with X and Y other than F: VF is the carry out of VX + VY and VX
      the low byte, so VX + 0x100 * VF is the whole sum. */
  lemma AddRegistersCarry(m: MachineState, op: Opcode)
    requires m.Wf() && op.X() != FLAG && op.Y() != FLAG
    ensures var r := AddRegisters(m, op);
      r.register[FLAG] <= 1 &&
      (r.register[op.X()] as int) + 0x100 * (r.register[FLAG] as int) == (m.register[op.X()] as int) + m.register[op.Y()] &&
      OthersKept(m, r, op.X())
  {
  }

  /** 8XY5 with X and Y other than F: without a borrow VF is 1 and VX + VY
      gives the old VX back; with a borrow VF and VX are both 0. */
  lemma SubtractBorrow(m: MachineState, op: Opcode)
    requires m.Wf() && op.X() != FLAG && op.Y() != FLAG
    ensures var o := Subtract(m, op);
      var vx, vy := m.register[op.X()], m.register[op.Y()];
      o.status.Running? && OthersKept(m, o.state, op.X()) &&
      (vy <= vx ==> o.state.register[FLAG] == 1 && (o.state.register[op.X()] as int) + vy == vx) &&
      (vy > vx ==> o.state.register[FLAG] == 0 && o.state.register[op.X()] == 0)
  {
  }

  /** 8XY7 with X and Y other than F: without a borrow VF is 1 and VX + old
      VX is VY; with a borrow VF and VX are both 0. */
  lemma SubtractReversedBorrow(m: MachineState, op: Opcode)
    requires m.Wf() && op.X() != FLAG && op.Y() != FLAG
    ensures var o := SubtractReversed(m, op);
      var vx, vy := m.register[op.X()], m.register[op.Y()];
      o.status.Running? && OthersKept(m, o.state, op.X()) &&
      (vx <= vy ==> o.state.register[FLAG] == 1 && (o.state.register[op.X()] as int) + vx == vy) &&
      (vx > vy ==> o.state.register[FLAG] == 0 && o.state.register[op.X()] == 0)
  {
  }

  /** 8XY5 and 8XY7 can leave a register negative only when X or Y is F,
      because the flag is written before the difference is taken. */
  lemma SubtractHaltsOnlyOnFlag(m: MachineState, op: Opcode)
    requires m.Wf()
    ensures Subtract(m, op).status.Halted? ==> op.X() == FLAG || op.Y() == FLAG
    ensures SubtractReversed(m, op).status.Halted? ==> op.X() == FLAG || op.Y() == FLAG
  {
  }

  /** 8F05 with V0 = 5 and VF = 10: there is no borrow, so VF becomes 1 and
      then VF - V0 is -4. */
  lemma SubtractIntoFlag(m: MachineState, op: Opcode)
    requires m.Wf() && op.X() == FLAG && op.Y() == 0 && m.register[0] == 5 && m.register[FLAG] == 10
    ensures Subtract(m, op).status == Halted(RegisterOutOfRange)
  {
  }

  /** `(v << 1) & 0xFF` is twice v modulo 0x100. */
  lemma DoubleByte(v: nat)
    ensures BitAnd(ShiftLeft(v, 1), 0xFF) == (2 * v) % 0x100
  {
    MaskByte(ShiftLeft(v, 1));
  }

  /** 8XY6 with X and Y other than F: VF is the bit shifted out and VX the
      rest, so 2 * VX + VF is the old VY. */
  lemma ShiftRightSplits(m: MachineState, op: Opcode)
    requires m.Wf() && op.X() != FLAG && op.Y() != FLAG
    ensures var r := ShiftRegisterRight(m, op);
      r.register[FLAG] <= 1 &&
      2 * (r.register[op.X()] as int) + r.register[FLAG] == m.register[op.Y()] &&
      OthersKept(m, r, op.X())
  {
    MaskLowestBit(m.register[op.Y()]);
    HalveByte(m.register[op.Y()]);
  }

  /** 8XYE as written, X and Y other than F: VX is twice VY modulo 0x100,
      but VF is VY & 0x80, which is 0x80 (not 1) when the top bit is set. */
  lemma ShiftLeftAsWritten(m: MachineState, op: Opcode)
    requires m.Wf() && op.X() != FLAG && op.Y() != FLAG
    ensures var r := ShiftRegisterLeft(m, op);
      var vy: int := m.register[op.Y()];
      r.register[op.X()] == (2 * vy) % 0x100 &&
      r.register[FLAG] == (if vy >= 0x80 then 0x80 else 0) &&
      OthersKept(m, r, op.X())
  {
    MaskTopBit(m.register[op.Y()]);
    DoubleByte(m.register[op.Y()]);
  }

  /** With VY = 0x80, 8XYE as written leaves 0x80 in VF: the flag is not a
      bit, so VX + 0x100 * VF is not twice VY. */
  lemma ShiftLeftFlagNotBit(m: MachineState, op: Opcode)
    requires m.Wf() && op.X() != FLAG && op.Y() != FLAG && m.register[op.Y()] == 0x80
    ensures ShiftRegisterLeft(m, op).register[FLAG] == 0x80
    ensures var r := ShiftRegisterLeft(m, op);
      (r.register[op.X()] as int) + 0x100 * (r.register[FLAG] as int) != 2 * (m.register[op.Y()] as int)
  {
    ShiftLeftAsWritten(m, op);
  }

  /** 8XYE corrected, X and Y other than F: VF is the bit shifted out, so
      VX + 0x100 * VF is twice the old VY. */
  lemma ShiftLeftIntendedSplits(m: MachineState, op: Opcode)
    requires m.Wf() && op.X() != FLAG && op.Y() != FLAG
    ensures var r := ShiftRegisterLeftIntended(m, op);
      r.register[FLAG] <= 1 &&
      (r.register[op.X()] as int) + 0x100 * (r.register[FLAG] as int) == 2 * (m.register[op.Y()] as int) &&
      OthersKept(m, r, op.X())
  {
    var v: int := m.register[op.Y()];
    HalveByte(v);
    DoubleByte(v);
    TopBitSplit(v);
  }

  /** Twice a byte is its doubled low byte plus 0x100 times its top bit. */
  lemma TopBitSplit(v: Byte)
    ensures (2 * v) % 0x100 + 0x100 * (v / 0x80) == 2 * v
  {
    assert v == 0x80 * (v / 0x80) + v % 0x80;
    assert (2 * v) % 0x100 == 2 * (v % 0x80);
  }

  // ---------------------------------------------------------------- 0xB, 0xC

  /** BNNN as written never moves the program counter: with V0 = 0 it
      differs from the jump 1NNN whenever the program counter is not NNN
      already, and it overwrites I. */
  lemma JumpOffsetDoesNotJump(m: MachineState, op: Opcode)
    requires m.Wf() && m.register[0] == 0 && m.pc != op.NNN()
    ensures JumpOffset(m, op).pc == m.pc
    ensures JumpOffset(m, op).pc != Jump(m, op).pc
    ensures JumpOffset(m, op).I == op.NNN()
  {
  }

  /** BNNN corrected: a jump to NNN + V0 (within the 12-bit address space),
      which is 1NNN when V0 is 0. */
  lemma JumpOffsetIntendedJumps(m: MachineState, op: Opcode)
    requires m.Wf()
    ensures JumpOffsetIntended(m, op).pc == (op.NNN() + m.register[0]) % MEMORY_SIZE
    ensures m.register[0] == 0 ==> JumpOffsetIntended(m, op) == Jump(m, op)
  {
  }

  /** CXNN: VX is the random byte masked by NN, so never more than NN; the
      mask 0xFF passes the byte through and the mask 0 clears it. */
  lemma RandomMasked(m: MachineState, op: Opcode, rand: Byte)
    requires m.Wf()
    ensures var r := Random(m, op, rand);
      r.register[op.X()] <= op.NN() &&
      (op.NN() == 0xFF ==> r.register[op.X()] == rand) &&
      r == m.(register := r.register)
  {
    MaskByte(rand);
  }

  // ---------------------------------------------------------------- 0xE

  /** EX9E / EXA1 as written skips exactly when "key X is down" agrees
      with "the low byte is 0x9E". */
  lemma SkipOnKeyForm(m: MachineState, op: Opcode)
    requires m.Wf() && PcInRange(m)
    ensures SkipOnKey(m, op) == if (op.NN() == 0x9E) == (m.keypad[op.X()] == 1) then Skipped(m) else m
  {
    op.SuffixIsLowByte();
    KeyStep(m.pc, m.keypad[op.X()], op.NN() == 0x9E);
  }

  /** EX9E / EXA1 corrected, with VX a key number: the same rule on key
      VX. */
  lemma SkipOnKeyIntendedForm(m: MachineState, op: Opcode)
    requires m.Wf() && PcInRange(m) && m.register[op.X()] < KEY_COUNT
    ensures SkipOnKeyIntended(m, op) ==
      Continue(if (op.NN() == 0x9E) == (m.keypad[m.register[op.X()]] == 1) then Skipped(m) else m)
  {
    op.SuffixIsLowByte();
    KeyStep(m.pc, m.keypad[m.register[op.X()]], op.NN() == 0x9E);
  }

  /** The program counter after EX9E (press) or EXA1 with the key state as
      a 0/1 count: two more exactly when the test holds. */
  lemma KeyStep(pc: int, key: int, press: bool)
    requires 0 <= pc < 0x1000 && (key == 0 || key == 1)
    ensures (if press then (pc + 2 * key) % 0x1000 else (pc + 2 * (1 - key)) % 0x1000) ==
      if press == (key == 1) then (pc + 2) % 0x1000 else pc
  {
  }

  /** EX9E and EXA1 as written, with the same X: each skips or not, EX9E
      skips exactly when key X (not key VX) is down, and exactly one of the
      two skips. */
  lemma KeySkips(m: MachineState, press: Opcode, release: Opcode)
    requires m.Wf() && PcInRange(m)
    requires press.X() == release.X() && press.NN() == 0x9E && release.NN() == 0xA1
    ensures SkipOnKey(m, press) in {m, Skipped(m)} && SkipOnKey(m, release) in {m, Skipped(m)}
    ensures SkipOnKey(m, press) == Skipped(m) <==> m.keypad[press.X()] == 1
    ensures SkipOnKey(m, press) != SkipOnKey(m, release)
  {
    SkipOnKeyForm(m, press);
    SkipOnKeyForm(m, release);
    assert Skipped(m).pc != m.pc;
  }

  /** Any EX.. other than EX9E behaves as EXA1. */
  lemma OtherKeySuffix(m: MachineState, op: Opcode, release: Opcode)
    requires m.Wf() && PcInRange(m) && op.NN() != 0x9E && release.X() == op.X() && release.NN() == 0xA1
    ensures SkipOnKey(m, op) == SkipOnKey(m, release)
  {
    SkipOnKeyForm(m, op);
    SkipOnKeyForm(m, release);
  }

  /** EX9E corrected: the key tested is key VX; a VX past the keypad is an
      index fault. */
  lemma SkipOnKeyIntendedTestsVX(m: MachineState, op: Opcode)
    requires m.Wf() && PcInRange(m) && op.NN() == 0x9E
    ensures m.register[op.X()] >= KEY_COUNT ==> SkipOnKeyIntended(m, op) == Halt(m, IndexOutOfRange)
    ensures m.register[op.X()] < KEY_COUNT ==>
      var o := SkipOnKeyIntended(m, op);
      o.status.Running? && o.state in {m, Skipped(m)} &&
      (o.state == Skipped(m) <==> m.keypad[m.register[op.X()]] == 1)
  {
    if m.register[op.X()] < KEY_COUNT {
      SkipOnKeyIntendedForm(m, op);
      assert Skipped(m).pc != m.pc;
    }
  }

  /** E09E with V0 = 5, key 5 down and key 0 up: as written it does not
      skip; corrected, it does. */
  lemma SkipOnKeyReadsWrongKey(m: MachineState, op: Opcode)
    requires m.Wf() && PcInRange(m) && op.X() == 0 && op.NN() == 0x9E
    requires m.register[0] == 5 && m.keypad[5] == 1 && m.keypad[0] == 0
    ensures SkipOnKey(m, op) == m
    ensures SkipOnKeyIntended(m, op) == Continue(Skipped(m))
  {
    SkipOnKeyForm(m, op);
    SkipOnKeyIntendedForm(m, op);
  }

  // ---------------------------------------------------------------- 0xF

  /** FX15 then FY07 copies VX into VY through the delay timer. */
  lemma DelayRoundTrip(m: MachineState, store: Opcode, read: Opcode)
    requires m.Wf()
    ensures ReadDelay(SetDelay(m, store), read).register[read.X()] == m.register[store.X()]
  {
  }

  /** FX0A with a key down: VX is the lowest key that is down; with none,
      the program counter steps back and nothing else changes. */
  lemma WaitKeyPicksLowest(m: MachineState, op: Opcode)
    requires m.Wf()
    ensures var r := WaitKey(m, op);
      (1 in m.keypad ==>
        r.register[op.X()] < KEY_COUNT && m.keypad[r.register[op.X()]] == 1 &&
        (forall k :: 0 <= k < r.register[op.X()] ==> m.keypad[k] == 0) &&
        r == m.(register := r.register)) &&
      (1 !in m.keypad ==> r == m.(pc := m.pc - 2))
  {
  }

  /** FX1E with X other than F and I within memory: VF is the carry out of
      the 12-bit address, so I + 0x1000 * VF is the old I + VX. */
  lemma AddIndexCarry(m: MachineState, op: Opcode)
    requires m.Wf() && op.X() != FLAG && m.I <= MEMORY_SIZE
    ensures var r := AddIndex(m, op);
      r.register[FLAG] <= 1 && r.I < MEMORY_SIZE &&
      r.I + MEMORY_SIZE * r.register[FLAG] == m.I + m.register[op.X()] &&
      r == m.(register := r.register, I := r.I)
  {
  }

  /** FX29 on a machine with the font in place: I addresses the five font
      bytes of digit VX, which DXY5 can read. */
  lemma FontGlyphAddressesGlyph(m: MachineState, op: Opcode)
    requires m.Wf() && m.memory[..|FONT|] == FONT && m.register[op.X()] < 16
    ensures var r := FontGlyph(m, op);
      var d := m.register[op.X()];
      r.I + 5 <= |FONT| && r.memory[r.I..r.I + 5] == FONT[5 * d..5 * d + 5] &&
      ReadSprite(r.memory, r.I, 5).Ok?
  {
    var d := m.register[op.X()];
    assert m.memory[5 * d..5 * d + 5] == m.memory[..|FONT|][5 * d..5 * d + 5];
  }

  /** The three digits FX33 stores spell the byte back in decimal. */
  lemma DecimalDigitsValue(v: Byte)
    ensures var d := DecimalDigits(v); 100 * d[0] + 10 * d[1] + d[2] == v
  {
  }

  /** FX33 within memory: memory[I..I+3] holds the decimal digits of VX,
      which give VX back, and no other cell or field changes. Past the end
      of memory the digits that fit are written and it stops with an index
      fault. */
  lemma StoreBcdEffect(m: MachineState, op: Opcode)
    requires m.Wf()
    ensures var o := StoreBcd(m, op);
      m.I + 3 <= MEMORY_SIZE ==>
        var d := o.state.memory[m.I..m.I + 3];
        o.status.Running? && 100 * d[0] + 10 * d[1] + d[2] == m.register[op.X()] &&
        (forall j :: 0 <= j < MEMORY_SIZE && !(m.I <= j < m.I + 3) ==> o.state.memory[j] == m.memory[j]) &&
        o.state == m.(memory := o.state.memory)
    ensures m.I + 3 > MEMORY_SIZE ==> StoreBcd(m, op).status == Halted(IndexOutOfRange)
  {
    DecimalDigitsValue(m.register[op.X()]);
  }

  /** FX55 corrected, then FX65 with the same X from the same I: the load
      reads back exactly the registers that were stored, so it changes
      nothing and leaves I where the store left it. */
  lemma StoreThenLoad(m: MachineState, store: Opcode, load: Opcode)
    requires m.Wf() && store.X() == load.X() && m.I + store.X() + 1 <= MEMORY_SIZE
    ensures var o := StoreRegistersIntended(m, store);
      o.status.Running? && o.state.I == m.I + store.X() + 1 &&
      o.state.register == m.register &&
      LoadRegisters(o.state.(I := m.I), load) == Continue(o.state)
  {
    var k := store.X() + 1;
    var m1 := StoreRegistersIntended(m, store).state;
    assert m1.memory[m.I..m.I + k] == m.register[..k];
    assert m1.memory[m.I..m.I + k] + m1.register[k..] == m1.register;
  }

  /** FX55 as written, then FX65 with the same X from the same I: every one
      of V0..VX comes back as the old VX, so V0 is lost whenever it differed
      from VX. */
  lemma StoreAsWrittenThenLoad(m: MachineState, store: Opcode, load: Opcode)
    requires m.Wf() && store.X() == load.X() && m.I + store.X() + 1 <= MEMORY_SIZE
    ensures var o := StoreRegisters(m, store);
      o.status.Running? &&
      var l := LoadRegisters(o.state.(I := m.I), load);
      l.status.Running? &&
      forall j :: 0 <= j <= store.X() ==> l.state.register[j] == m.register[store.X()]
  {
  }

  /** FX65 past the end of memory: the registers up to the last cell are
      loaded, the rest and I keep their values, and it stops with an index
      fault. */
  lemma LoadRegistersPartial(m: MachineState, op: Opcode)
    requires m.Wf() && m.I + op.X() + 1 > MEMORY_SIZE
    ensures var o := LoadRegisters(m, op);
      o.status == Halted(IndexOutOfRange) && o.state.I == m.I &&
      (forall j :: 0 <= j < REGISTER_COUNT ==>
        o.state.register[j] == if m.I + j < MEMORY_SIZE then m.memory[m.I + j] else m.register[j]) &&
      o.state == m.(register := o.state.register)
  {
  }

  // ---------------------------------------------------------------- dispatch

  /** The status is a missing-handler fault. */
  predicate Unhandled(s: Status)
  {
    s.Halted? && s.fault.MissingHandler?
  }

  /** The 0x8 table has no handler exactly for the last digits 8..D and F. */
  lemma ArithmeticUnhandled(m: MachineState, op: Opcode)
    requires m.Wf()
    ensures Unhandled(Arithmetic(m, op).status) <==> op.value % 0x10 in {0x8, 0x9, 0xA, 0xB, 0xC, 0xD, 0xF}
  {
    op.ItemFields();
    assert !Unhandled(Subtract(m, op).status) && !Unhandled(SubtractReversed(m, op).status);
  }

  /** The 0xF table has no handler exactly for the low bytes outside 07, 0A,
      15, 18, 1E, 29, 33, 55, 65. */
  lemma MiscUnhandled(m: MachineState, op: Opcode)
    requires m.Wf()
    ensures Unhandled(Misc(m, op).status) <==> op.NN() !in {0x07, 0x0A, 0x15, 0x18, 0x1E, 0x29, 0x33, 0x55, 0x65}
  {
    op.SuffixIsLowByte();
    assert !Unhandled(StoreBcd(m, op).status);
    assert !Unhandled(StoreRegisters(m, op).status);
    assert !Unhandled(LoadRegisters(m, op).status);
  }

  /** A dispatch table has no handler exactly for 8XY8..8XYD, 8XYF and the
      FX.. codes outside 07, 0A, 15, 18, 1E, 29, 33, 55, 65; the top-level
      table has one for every first digit. */
  lemma MissingHandlers(m: MachineState, op: Opcode, rand: Byte)
    requires m.Wf()
    ensures Unhandled(Execute(m, op, rand).status) <==>
      (op.value / 0x1000 == 0x8 && op.value % 0x10 in {0x8, 0x9, 0xA, 0xB, 0xC, 0xD, 0xF}) ||
      (op.value / 0x1000 == 0xF && op.NN() !in {0x07, 0x0A, 0x15, 0x18, 0x1E, 0x29, 0x33, 0x55, 0x65})
  {
    op.ItemFields();
    var d := op.value / 0x1000;
    if d == 0x8 {
      ArithmeticUnhandled(m, op);
    } else if d == 0xF {
      MiscUnhandled(m, op);
    } else if d == 0x0 {
      assert !Unhandled(System(m, op).status);
    } else if d == 0xD {
      assert !Unhandled(Draw(m, op).status);
    }
  }

  /** Only the 0x0, 0x8, 0xD and 0xF families can stop the machine. */
  lemma HaltingFamilies(m: MachineState, op: Opcode, rand: Byte)
    requires m.Wf()
    ensures Execute(m, op, rand).status.Halted? ==> op.value / 0x1000 in {0x0, 0x8, 0xD, 0xF}
  {
    op.ItemFields();
  }
}
