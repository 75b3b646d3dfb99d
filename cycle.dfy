/** The fetch-decode-execute cycle of `Interpreter` in chip8_core.py, as
    functions on machine values: the big-endian fetch through a list slice,
    the program-counter advance, and one step. */
module Cycle {
  import opened Bits
  import opened Decoder
  import opened Machine
  import opened Instructions

  /** Where a slice bound lands in a list of length len: a negative bound
      counts from the end, and the result is clamped to 0..len. */
  function SliceBound(i: int, len: nat): (r: nat)
    ensures r <= len
    ensures 0 <= i <= len ==> r == i
    ensures -(len as int) <= i < 0 ==> r == i + len
  {
    if i < 0 then (if i + len < 0 then 0 else i + len)
    else if i > len then len
    else i
  }

  /** `s[start:end]` */
  function Slice<T>(s: seq<T>, start: int, end: int): (r: seq<T>)
    ensures |r| <= |s|
  {
    var a, b := SliceBound(start, |s|), SliceBound(end, |s|);
    if a < b then s[a..b] else []
  }

  /** `read_opcode`: the two bytes `memory[p:p+2]` at p = pc + 2 * offset,
      taken after the program counter has advanced by 2 (when advance is
      set). Fewer than two bytes in the slice is an index fault. */
  function Fetch(m: MachineState, offset: int, advance: bool): (r: (MachineState, Result<Opcode>))
    requires m.Wf()
    ensures r.0 == if advance then m.(pc := m.pc + 2) else m
    ensures var p := m.pc + 2 * offset;
      r.1.Ok? <==> (0 <= p <= MEMORY_SIZE - 2 || -(MEMORY_SIZE as int) <= p <= -3)
    ensures var p := m.pc + 2 * offset;
      0 <= p <= MEMORY_SIZE - 2 ==> r.1 == Ok(Opcode((m.memory[p] as int) * 0x100 + m.memory[p + 1]))
    ensures var p := m.pc + 2 * offset;
      -(MEMORY_SIZE as int) <= p <= -3 ==>
        r.1 == Ok(Opcode((m.memory[p + MEMORY_SIZE] as int) * 0x100 + m.memory[p + MEMORY_SIZE + 1]))
  {
    var p := m.pc + offset * 2;
    var m1 := if advance then m.(pc := m.pc + 2) else m;
    var bytes := Slice(m1.memory, p, p + 2);
    if |bytes| < 2 then (m1, Err(IndexOutOfRange))
    else (m1, Ok(Opcode((bytes[0] as int) * 0x100 + bytes[1])))
  }

  /** `step`: an advancing fetch at the program counter, then the handler
      for the opcode, which sees the advanced program counter. */
  function Step(m: MachineState, rand: Byte): (r: Outcome)
    requires m.Wf()
    ensures r.state.Wf()
  {
    var (m1, fetched) := Fetch(m, 0, true);
    match fetched
    case Err(f) => Halt(m1, f)
    case Ok(op) => Execute(m1, op, rand)
  }

  /** Runs steps while the machine keeps running, with one random byte per
      step. */
  function Run(m: MachineState, rands: seq<Byte>): (r: Outcome)
    requires m.Wf()
    ensures r.state.Wf()
    decreases |rands|
  {
    if |rands| == 0 then Continue(m)
    else
      var o := Step(m, rands[0]);
      if o.status.Halted? then o else Run(o.state, rands[1..])
  }
}
