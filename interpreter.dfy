/** `Interpreter` of chip8_core.py: fetch an opcode at the program counter,
    dispatch it on its first hexadecimal digit, and one step of both. The
    methods update the `State` object and are proved to agree with the
    functions of `Cycle` and `Instructions`. */
module Interpreter {
  import opened Bits
  import opened Decoder
  import opened Machine
  import Spec = Instructions
  import Cycle
  import Opcodes

  /** `read_opcode`: the program counter advances (when asked) before the two
      bytes are sliced out of memory, so it has advanced even when the slice
      comes up short. */
  method ReadOpcode(s: State, offset: int, advance: bool) returns (r: Result<Opcode>)
    requires s.Valid()
    modifies s
    ensures s.Valid() && (s.Value(), r) == Cycle.Fetch(old(s.Value()), offset, advance)
  {
    var p := s.pc + offset * 2;
    if advance {
      s.pc := s.pc + 2;
    }
    var bytes := Cycle.Slice(s.memory, p, p + 2);
    if |bytes| < 2 {
      return Err(IndexOutOfRange);
    }
    Shifts8(bytes[0]);
    return Ok(Opcode(ShiftLeft(bytes[0], 8) + bytes[1]));
  }

  /** `execute_opcode`: the handler the top-level table holds for `opcode[0]`. */
  method ExecuteOpcode(op: Opcode, s: State, rand: Byte) returns (status: Status)
    requires s.Valid()
    modifies s
    ensures s.Valid() && Outcome(s.Value(), status) == Spec.Execute(old(s.Value()), op, rand)
  {
    var d := op.Item(0).value;
    status := Running;
    if d == 0x0 {
      status := Opcodes.System(s, op);
    } else if d == 0x1 {
      Opcodes.Jump(s, op);
    } else if d == 0x2 {
      Opcodes.Call(s, op);
    } else if d == 0x3 {
      Opcodes.SkipIfEqualImmediate(s, op);
    } else if d == 0x4 {
      Opcodes.SkipIfNotEqualImmediate(s, op);
    } else if d == 0x5 {
      Opcodes.SkipIfEqualRegisters(s, op);
    } else if d == 0x6 {
      Opcodes.LoadImmediate(s, op);
    } else if d == 0x7 {
      Opcodes.AddImmediate(s, op);
    } else if d == 0x8 {
      status := Opcodes.Arithmetic(s, op);
    } else if d == 0x9 {
      Opcodes.SkipIfNotEqualRegisters(s, op);
    } else if d == 0xA {
      Opcodes.LoadIndex(s, op);
    } else if d == 0xB {
      Opcodes.JumpOffset(s, op);
    } else if d == 0xC {
      Opcodes.Random(s, op, rand);
    } else if d == 0xD {
      status := Opcodes.Draw(s, op);
    } else if d == 0xE {
      Opcodes.SkipOnKey(s, op);
    } else {
      status := Opcodes.Misc(s, op);
    }
  }

  /** `step`: one advancing fetch, then the handler. */
  method Step(s: State, rand: Byte) returns (status: Status)
    requires s.Valid()
    modifies s
    ensures s.Valid() && Outcome(s.Value(), status) == Cycle.Step(old(s.Value()), rand)
  {
    var fetched := ReadOpcode(s, 0, true);
    if fetched.Err? {
      return Halted(fetched.fault);
    }
    status := ExecuteOpcode(fetched.value, s, rand);
  }
}
