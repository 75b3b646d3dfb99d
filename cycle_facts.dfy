/** Properties of a fresh machine and of whole interpreter steps: the layout
    construction produces, what a step fetches and whom it hands the
    advanced program counter, instructions seen through a step (FX0A
    waiting, a call and its return), and a short program run to its end. */
module CycleFacts {
  import opened Bits
  import opened Decoder
  import opened Machine
  import opened Instructions
  import opened Cycle

  /** A fresh machine: zero registers, I = 0, the program counter at 0x200,
      stopped timers, an empty stack, no key down, a dark screen, the font
      at address 0, the program at 0x200 and zeros everywhere else. */
  lemma InitialState(program: seq<Byte>)
    requires |program| <= MAX_PROGRAM
    ensures Initial(program).Ok?
    ensures var m := Initial(program).value;
      (forall i :: 0 <= i < REGISTER_COUNT ==> m.register[i] == 0) &&
      m.I == 0 && m.pc == PROGRAM_START && m.delay == 0 && m.sound == 0 && m.stack == [] &&
      (forall k :: 0 <= k < KEY_COUNT ==> m.keypad[k] == 0) &&
      (forall p :: 0 <= p < SCREEN_SIZE ==> m.screen[p] == 0) &&
      m.memory[..|FONT|] == FONT &&
      (forall i :: 0 <= i < |program| ==> m.memory[PROGRAM_START + i] == program[i]) &&
      (forall j :: |FONT| <= j < PROGRAM_START || PROGRAM_START + |program| <= j < MEMORY_SIZE ==> m.memory[j] == 0)
  {
    var m := Initial(program).value;
    forall i | 0 <= i < |program|
      ensures m.memory[PROGRAM_START + i] == program[i]
    {
      assert m.memory[PROGRAM_START + i] == m.memory[PROGRAM_START..PROGRAM_START + |program|][i];
    }
  }

  /** What `load_data` wrote can be read back from the window, and a second
      load of the same data changes nothing. */
  lemma LoadedReadsBack(memory: seq<Byte>, data: seq<Byte>, start: nat)
    requires start + |data| <= |memory|
    ensures var r := Loaded(memory, data, start);
      r[start..start + |data|] == data && Loaded(r, data, start) == r
  {
    var r := Loaded(memory, data, start);
    forall i | 0 <= i < |data|
      ensures r[start..start + |data|][i] == data[i]
    {
      assert r[start + i] == data[i];
    }
  }

  /** The opcode at address p: the big-endian word of memory[p] and
      memory[p + 1]. */
  function OpcodeAt(m: MachineState, p: nat): Opcode
    requires m.Wf() && p <= MEMORY_SIZE - 2
  {
    Opcode((m.memory[p] as int) * 0x100 + m.memory[p + 1])
  }

  /** A step at an address with two bytes left runs the handler for the
      word there, on the state with the program counter already 2 further. */
  lemma StepSeesAdvancedPc(m: MachineState, rand: Byte)
    requires m.Wf() && 0 <= m.pc <= MEMORY_SIZE - 2
    ensures Step(m, rand) == Execute(m.(pc := m.pc + 2), OpcodeAt(m, m.pc), rand)
  {
    var fetched := Fetch(m, 0, true);
    assert fetched.0 == m.(pc := m.pc + 2) && fetched.1 == Ok(OpcodeAt(m, m.pc));
  }

  /** A step at the last memory cell fetches one byte only: an index fault,
      with the program counter already advanced. */
  lemma StepPastEnd(m: MachineState, rand: Byte)
    requires m.Wf() && m.pc == MEMORY_SIZE - 1
    ensures Step(m, rand) == Halt(m.(pc := m.pc + 2), IndexOutOfRange)
  {
  }

  /** The first digit and low byte of the word at p. */
  lemma OpcodeAtFields(m: MachineState, p: nat)
    requires m.Wf() && p <= MEMORY_SIZE - 2
    ensures var op := OpcodeAt(m, p);
      op.Item(0) == Some(m.memory[p] / 0x10) && op.NN() == m.memory[p + 1] &&
      op.X() == m.memory[p] % 0x10 && op.NNN() == ((m.memory[p] as int) % 0x10) * 0x100 + m.memory[p + 1]
  {
    var op := OpcodeAt(m, p);
    op.ItemFields();
    var hi: int := m.memory[p];
    assert op.value == hi * 0x100 + m.memory[p + 1];
    assert op.value / 0x1000 == hi / 0x10;
    assert op.value / 0x100 == hi;
    assert op.value % 0x1000 == (hi % 0x10) * 0x100 + m.memory[p + 1];
  }

  /** A step on FX0A runs WaitKey on the advanced state, with X the low
      digit of the first byte. */
  lemma StepWaitKey(m: MachineState, rand: Byte)
    requires m.Wf() && 0 <= m.pc <= MEMORY_SIZE - 2
    requires m.memory[m.pc] / 0x10 == 0xF && m.memory[m.pc + 1] == 0x0A
    ensures OpcodeAt(m, m.pc).X() == m.memory[m.pc] % 0x10
    ensures Step(m, rand) == Continue(WaitKey(m.(pc := m.pc + 2), OpcodeAt(m, m.pc)))
  {
    var op := OpcodeAt(m, m.pc);
    var m1 := m.(pc := m.pc + 2);
    StepSeesAdvancedPc(m, rand);
    OpcodeAtFields(m, m.pc);
    ExecuteMisc(m1, op, rand);
    MiscWaitKey(m1, op);
  }

  /** The top-level table sends first digit F to the F table. */
  lemma ExecuteMisc(m: MachineState, op: Opcode, rand: Byte)
    requires m.Wf() && op.Item(0) == Some(0xF)
    ensures Execute(m, op, rand) == Misc(m, op)
  {
  }

  /** The F table sends low byte 0A to WaitKey. */
  lemma MiscWaitKey(m: MachineState, op: Opcode)
    requires m.Wf() && op.NN() == 0x0A
    ensures Misc(m, op) == Continue(WaitKey(m, op))
  {
    op.SuffixIsLowByte();
  }

  /** FX0A with no key down leaves the machine exactly as it was, so the
      next step fetches it again: the interpreter waits. */
  lemma WaitKeyRepeats(m: MachineState, rand: Byte)
    requires m.Wf() && 0 <= m.pc <= MEMORY_SIZE - 2
    requires m.memory[m.pc] / 0x10 == 0xF && m.memory[m.pc + 1] == 0x0A && 1 !in m.keypad
    ensures Step(m, rand) == Continue(m)
  {
    StepWaitKey(m, rand);
  }

  /** FX0A with a key down stores the lowest such key in VX and goes on to
      the next instruction. */
  lemma WaitKeyProceeds(m: MachineState, rand: Byte)
    requires m.Wf() && 0 <= m.pc <= MEMORY_SIZE - 2
    requires m.memory[m.pc] / 0x10 == 0xF && m.memory[m.pc + 1] == 0x0A && 1 in m.keypad
    ensures Step(m, rand) ==
      Continue(m.(pc := m.pc + 2, register := m.register[m.memory[m.pc] % 0x10 := FirstPressed(m.keypad)]))
  {
    StepWaitKey(m, rand);
  }

  /** A step on 2NNN pushes the address of the next instruction and jumps
      to NNN. */
  lemma StepCall(m: MachineState, rand: Byte)
    requires m.Wf() && 0 <= m.pc <= MEMORY_SIZE - 2 && m.memory[m.pc] / 0x10 == 0x2
    ensures Step(m, rand) ==
      Continue(m.(pc := ((m.memory[m.pc] as int) % 0x10) * 0x100 + m.memory[m.pc + 1], stack := m.stack + [m.pc + 2]))
  {
    StepSeesAdvancedPc(m, rand);
    OpcodeAtFields(m, m.pc);
    ExecuteCall(m.(pc := m.pc + 2), OpcodeAt(m, m.pc), rand);
  }

  /** The top-level table sends first digit 2 to Call. */
  lemma ExecuteCall(m: MachineState, op: Opcode, rand: Byte)
    requires m.Wf() && op.Item(0) == Some(0x2)
    ensures Execute(m, op, rand) == Continue(Call(m, op))
  {
  }

  /** The top-level table sends first digit 0 to System. */
  lemma ExecuteSystem(m: MachineState, op: Opcode, rand: Byte)
    requires m.Wf() && op.Item(0) == Some(0x0)
    ensures Execute(m, op, rand) == System(m, op)
  {
  }

  /** A step on 2NNN whose target holds 00EE, then a step there, continues
      after the call with the stack as it was. */
  lemma CallReturnSteps(m: MachineState, rand: Byte, rand': Byte)
    requires m.Wf() && 0 <= m.pc <= MEMORY_SIZE - 2 && m.memory[m.pc] / 0x10 == 0x2
    requires var target := ((m.memory[m.pc] as int) % 0x10) * 0x100 + m.memory[m.pc + 1];
      target <= MEMORY_SIZE - 2 && m.memory[target] == 0x00 && m.memory[target + 1] == 0xEE
    ensures Step(m, rand).state.Wf()
    ensures Step(Step(m, rand).state, rand') == Continue(m.(pc := m.pc + 2))
  {
    StepCall(m, rand);
    var m1 := Step(m, rand).state;
    StepSeesAdvancedPc(m1, rand');
    OpcodeAtFields(m1, m1.pc);
    var ret := OpcodeAt(m1, m1.pc);
    assert ret.value == 0x00EE;
    ExecuteSystem(m1.(pc := m1.pc + 2), ret, rand');
    assert m1.stack[..|m1.stack| - 1] == m.stack;
  }

  // ------------------------------------------------------------ a program

  /** 6005 (V0 := 5), 3005 (skip if V0 == 5), 1300 (jump, skipped), 00E0
      (clear the screen). */
  const SKIP_PROGRAM: seq<Byte> := [0x60, 0x05, 0x30, 0x05, 0x13, 0x00, 0x00, 0xE0]

  /** The words of SKIP_PROGRAM in a fresh machine. */
  lemma SkipProgramLoaded()
    ensures Initial(SKIP_PROGRAM).Ok?
    ensures var m := Initial(SKIP_PROGRAM).value;
      m.pc == 0x200 && m.screen == Dark() &&
      m.memory[0x200] == 0x60 && m.memory[0x201] == 0x05 &&
      m.memory[0x202] == 0x30 && m.memory[0x203] == 0x05 &&
      m.memory[0x206] == 0x00 && m.memory[0x207] == 0xE0
  {
    InitialState(SKIP_PROGRAM);
  }

  /** Three running steps make a run of three. */
  lemma RunThree(m: MachineState, rands: seq<Byte>, m1: MachineState, m2: MachineState, m3: MachineState)
    requires m.Wf() && |rands| == 3
    requires Step(m, rands[0]) == Continue(m1) && m1.Wf()
    requires Step(m1, rands[1]) == Continue(m2) && m2.Wf()
    requires Step(m2, rands[2]) == Continue(m3)
    ensures Run(m, rands) == Continue(m3)
  {
    assert Run(m2, rands[2..]) == Continue(m3);
    assert Run(m1, rands[1..]) == Continue(m3);
  }

  /** Running SKIP_PROGRAM for three steps sets V0 to 5, skips the jump,
      clears the screen and stops at 0x208, still running. */
  lemma SkipProgramRuns(rands: seq<Byte>)
    requires |rands| == 3
    ensures Initial(SKIP_PROGRAM).Ok?
    ensures var o := Run(Initial(SKIP_PROGRAM).value, rands);
      o.status.Running? && o.state.register[0] == 5 && o.state.pc == 0x208 && o.state.screen == Dark()
  {
    SkipProgramLoaded();
    var m0 := Initial(SKIP_PROGRAM).value;
    var m1 := FirstStep(m0, rands[0]);
    var m2 := SecondStep(m1, rands[1]);
    var m3 := ThirdStep(m2, rands[2]);
    RunThree(m0, rands, m1, m2, m3);
  }

  /** 6005 at 0x200. */
  lemma FirstStep(m: MachineState, rand: Byte) returns (m1: MachineState)
    requires m.Wf() && m.pc == 0x200 && m.memory[0x200] == 0x60 && m.memory[0x201] == 0x05
    ensures Step(m, rand) == Continue(m1)
    ensures m1 == m.(pc := 0x202, register := m.register[0 := 5])
  {
    OpcodeAtFields(m, m.pc);
    m1 := m.(pc := 0x202, register := m.register[0 := 5]);
  }

  /** 3005 at 0x202 with V0 = 5: skips to 0x206. */
  lemma SecondStep(m: MachineState, rand: Byte) returns (m1: MachineState)
    requires m.Wf() && m.pc == 0x202 && m.register[0] == 5
    requires m.memory[0x202] == 0x30 && m.memory[0x203] == 0x05
    ensures Step(m, rand) == Continue(m1)
    ensures m1 == m.(pc := 0x206)
  {
    OpcodeAtFields(m, m.pc);
    m1 := m.(pc := 0x206);
  }

  /** 00E0 at 0x206. */
  lemma ThirdStep(m: MachineState, rand: Byte) returns (m1: MachineState)
    requires m.Wf() && m.pc == 0x206 && m.memory[0x206] == 0x00 && m.memory[0x207] == 0xE0
    ensures Step(m, rand) == Continue(m1)
    ensures m1 == m.(pc := 0x208, screen := Dark())
  {
    OpcodeAtFields(m, m.pc);
    m1 := m.(pc := 0x208, screen := Dark());
  }
}
