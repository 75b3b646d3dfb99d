/** The machine state of chip8_core.py: sixteen byte registers, the address
    register I, the program counter, the two timers, the call stack, the
    sixteen-key keypad, 4096 bytes of memory and a flat 64x32 screen, together
    with the built-in font and the way a fresh state is laid out.

    `State` is the object the interpreter mutates; `MachineState` is a value
    snapshot of it, on which the instruction semantics are specified. */
module Machine {
  import opened Bits

  const SCREEN_WIDTH: nat := 64
  const SCREEN_HEIGHT: nat := 32
  const SCREEN_SIZE: nat := 2048
  const MEMORY_SIZE: nat := 0x1000
  const PROGRAM_START: nat := 0x200
  /** The largest program that fits between PROGRAM_START and the end of memory. */
  const MAX_PROGRAM: nat := 0xE00
  const REGISTER_COUNT: nat := 16
  const KEY_COUNT: nat := 16
  /** VF, the flag register. */
  const FLAG: nat := 0xF

  /** Glyphs for the hexadecimal digits 0..F, five rows of four pixels each
      (the high nibble of each byte). */
  const FONT: seq<Byte> := [
    0xF0, 0x90, 0x90, 0x90, 0xF0, // 0
    0x20, 0x60, 0x20, 0x20, 0x70, // 1
    0xF0, 0x10, 0xF0, 0x80, 0xF0, // 2
    0xF0, 0x10, 0xF0, 0x10, 0xF0, // 3
    0x90, 0x90, 0xF0, 0x10, 0x10, // 4
    0xF0, 0x80, 0xF0, 0x10, 0xF0, // 5
    0xF0, 0x80, 0xF0, 0x90, 0xF0, // 6
    0xF0, 0x10, 0x20, 0x40, 0x40, // 7
    0xF0, 0x90, 0xF0, 0x90, 0xF0, // 8
    0xF0, 0x90, 0xF0, 0x10, 0xF0, // 9
    0xF0, 0x90, 0xF0, 0x90, 0x90, // A
    0xE0, 0x90, 0xE0, 0x90, 0xE0, // B
    0xF0, 0x80, 0x80, 0x80, 0xF0, // C
    0xE0, 0x90, 0x90, 0x90, 0xE0, // D
    0xF0, 0x80, 0xF0, 0x80, 0xF0, // E
    0xF0, 0x80, 0xF0, 0x80, 0x80  // F
  ]

  /** The ways execution stops. */
  datatype Fault =
    | MachineCodeUnsupported  // 0NNN: the interpreter exits
    | StackUnderflow          // 00EE with an empty call stack
    | MissingHandler(key: nat) // no entry for this key in a dispatch table
    | IndexOutOfRange         // a list index past the end, or a short fetch
    | RegisterOutOfRange      // a register would receive a negative value

  datatype Status = Running | Halted(fault: Fault)

  datatype Result<T> = Ok(value: T) | Err(fault: Fault)

  datatype MachineState = MachineState(
    register: seq<Byte>,
    I: nat,
    pc: int,
    delay: Byte,
    sound: Byte,
    stack: seq<int>,
    keypad: seq<Bit>,
    memory: seq<Byte>,
    screen: seq<Bit>)
  {
    /** The fixed sizes of the lists. */
    predicate Wf()
    {
      |register| == REGISTER_COUNT && |keypad| == KEY_COUNT &&
      |memory| == MEMORY_SIZE && |screen| == SCREEN_SIZE
    }
  }

  /** A state after an instruction, and whether execution goes on. */
  datatype Outcome = Outcome(state: MachineState, status: Status)

  function Zeros(n: nat): (r: seq<Byte>)
    ensures |r| == n && forall i :: 0 <= i < n ==> r[i] == 0
  {
    seq(n, _ => 0)
  }

  function Dark(): (r: seq<Bit>)
    ensures |r| == SCREEN_SIZE && forall i :: 0 <= i < SCREEN_SIZE ==> r[i] == 0
  {
    seq(SCREEN_SIZE, _ => 0)
  }

  function Released(): (r: seq<Bit>)
    ensures |r| == KEY_COUNT && forall i :: 0 <= i < KEY_COUNT ==> r[i] == 0
  {
    seq(KEY_COUNT, _ => 0)
  }

  /** Copying `data` cell by cell to `memory[start..]` succeeds when it
      fits (an empty copy always does). */
  predicate Fits(memory: seq<Byte>, data: seq<Byte>, start: nat)
  {
    |data| == 0 || start + |data| <= |memory|
  }

  /** Memory after writing data[i] to start+i for i = 0, 1, ... up to the
      first position past the end: every cell in the window takes the data
      byte, every other cell keeps its old value. */
  function Loaded(memory: seq<Byte>, data: seq<Byte>, start: nat): (r: seq<Byte>)
    ensures |r| == |memory|
    ensures forall j :: 0 <= j < |memory| ==>
      r[j] == if start <= j < start + |data| then data[j - start] else memory[j]
  {
    if start >= |memory| then memory
    else
      var n := if |data| <= |memory| - start then |data| else |memory| - start;
      memory[..start] + data[..n] + memory[start + n..]
  }
  /** Writing the next byte of the data extends the loaded prefix by one. */
  lemma LoadedStep(memory: seq<Byte>, data: seq<Byte>, start: nat, i: nat)
    requires start + i < |memory| && i < |data|
    ensures Loaded(memory, data[..i], start)[start + i := data[i]] == Loaded(memory, data[..i + 1], start)
  {
    var a := Loaded(memory, data[..i], start)[start + i := data[i]];
    var b := Loaded(memory, data[..i + 1], start);
    forall j | 0 <= j < |memory|
      ensures a[j] == b[j]
    {
    }
  }

  /** Once the prefix reaches the end of memory, the rest of the data is
      never written. */
  lemma LoadedPastEnd(memory: seq<Byte>, data: seq<Byte>, start: nat, i: nat)
    requires start + i >= |memory| && i <= |data|
    ensures Loaded(memory, data[..i], start) == Loaded(memory, data, start)
  {
    var a := Loaded(memory, data[..i], start);
    var b := Loaded(memory, data, start);
    forall j | 0 <= j < |memory|
      ensures a[j] == b[j]
    {
    }
  }


  /** Memory of a fresh machine: zeros, the program from PROGRAM_START,
      then the font from 0. A program too long for memory stops the copy at
      the last cell, and the font is not copied. */
  function InitialMemory(program: seq<Byte>): (r: seq<Byte>)
    ensures |r| == MEMORY_SIZE
    ensures |program| <= MAX_PROGRAM ==>
      r[..|FONT|] == FONT &&
      r[PROGRAM_START..PROGRAM_START + |program|] == program &&
      forall j :: |FONT| <= j < PROGRAM_START || PROGRAM_START + |program| <= j < MEMORY_SIZE ==> r[j] == 0
  {
    var image := Loaded(Zeros(MEMORY_SIZE), program, PROGRAM_START);
    if Fits(image, program, PROGRAM_START) then Loaded(image, FONT, 0) else image
  }

  /** A fresh machine, or the fault raised while building it. */
  function Initial(program: seq<Byte>): (r: Result<MachineState>)
    ensures r.Ok? <==> |program| <= MAX_PROGRAM
    ensures r.Ok? ==> r.value.Wf()
  {
    if |program| <= MAX_PROGRAM then
      Ok(MachineState(Zeros(REGISTER_COUNT), 0, PROGRAM_START, 0, 0, [], Released(),
                      InitialMemory(program), Dark()))
    else Err(IndexOutOfRange)
  }

  /** The interpreter's state object. Its lists are fields that the
      operations reassign. */
  class State {
    var register: seq<Byte>
    var I: nat
    var pc: int
    var delay: Byte
    var sound: Byte
    var stack: seq<int>
    var keypad: seq<Bit>
    var memory: seq<Byte>
    var screen: seq<Bit>

    function Value(): MachineState
      reads this
    {
      MachineState(register, I, pc, delay, sound, stack, keypad, memory, screen)
    }

    predicate Valid()
      reads this
    {
      Value().Wf()
    }

    /** The field initialisations that precede the memory and screen set-up. */
    constructor Blank()
      ensures register == Zeros(REGISTER_COUNT) && I == 0 && pc == PROGRAM_START
      ensures delay == 0 && sound == 0 && stack == [] && keypad == Released()
      ensures memory == [] && screen == []
    {
      register := Zeros(REGISTER_COUNT);
      I := 0;
      pc := PROGRAM_START;
      delay := 0;
      sound := 0;
      stack := [];
      keypad := Released();
      memory := [];
      screen := [];
    }

    /** Writes data[i] to memory[dataStart + i] in order; a position past the
        end of memory stops the copy with an index fault. */
    method LoadData(data: seq<Byte>, dataStart: nat) returns (status: Status)
      modifies this
      ensures Value() == old(Value()).(memory := Loaded(old(memory), data, dataStart))
      ensures status == if Fits(old(memory), data, dataStart) then Running else Halted(IndexOutOfRange)
    {
      var i := 0;
      while i < |data|
        invariant 0 <= i <= |data|
        invariant i > 0 ==> dataStart + i <= |memory|
        invariant memory == Loaded(old(memory), data[..i], dataStart)
        invariant Value() == old(Value()).(memory := memory)
      {
        if dataStart + i >= |memory| {
          LoadedPastEnd(old(memory), data, dataStart, i);
          return Halted(IndexOutOfRange);
        }
        LoadedStep(old(memory), data, dataStart, i);
        memory := memory[dataStart + i := data[i]];
        i := i + 1;
      }
      assert data[..i] == data;
      return Running;
    }

    /** Fresh zeroed memory, the program at PROGRAM_START, the font at 0. */
    method InitMemory(program: seq<Byte>) returns (status: Status)
      modifies this
      ensures Value() == old(Value()).(memory := InitialMemory(program))
      ensures status == if |program| <= MAX_PROGRAM then Running else Halted(IndexOutOfRange)
    {
      memory := Zeros(MEMORY_SIZE);
      status := LoadData(program, PROGRAM_START);
      if status.Halted? {
        return;
      }
      status := LoadData(FONT, 0);
    }

    /** Every pixel off; nothing else changes. */
    method InitScreen()
      modifies this
      ensures Value() == old(Value()).(screen := Dark())
    {
      screen := Dark();
    }

    /** A fresh machine for a program: the constructor runs the field
        initialisations, then the memory and screen set-up. A program longer
        than MAX_PROGRAM bytes makes the memory set-up raise, and no machine
        is produced. */
    static method New(program: seq<Byte>) returns (r: Result<State>)
      ensures r.Ok? <==> |program| <= MAX_PROGRAM
      ensures r.Ok? ==> fresh(r.value) && r.value.Valid() && r.value.Value() == Initial(program).value
      ensures r.Err? ==> r.fault == IndexOutOfRange
    {
      var s := new State.Blank();
      var status := s.InitMemory(program);
      if status.Halted? {
        return Err(status.fault);
      }
      s.InitScreen();
      return Ok(s);
    }
  }
}
