/** The instruction handlers of opcodes.py, each a method that updates the
    interpreter's `State` in place, step by step as the source does, and is
    proved to end in the state the corresponding function of `Instructions`
    describes. A handler that can raise returns the status; the others
    always leave the machine running. */
module Opcodes {
  import opened Bits
  import opened Decoder
  import opened Machine
  import Spec = Instructions

  // ---------------------------------------------------------------- 0x0

  /** 00E0 / 00EE / 0NNN */
  method System(s: State, op: Opcode) returns (status: Status)
    requires s.Valid()
    modifies s
    ensures s.Valid() && Outcome(s.Value(), status) == Spec.System(old(s.Value()), op)
  {
    if op.value == 0x00E0 {
      s.InitScreen();
      status := Running;
    } else if op.value == 0x00EE {
      if |s.stack| == 0 {
        return Halted(StackUnderflow);
      }
      s.pc := s.stack[|s.stack| - 1];
      s.stack := s.stack[..|s.stack| - 1];
      status := Running;
    } else {
      status := Halted(MachineCodeUnsupported);
    }
  }

  // ---------------------------------------------------------------- 0x1..0x7

  /** 1NNN */
  method Jump(s: State, op: Opcode)
    requires s.Valid()
    modifies s
    ensures s.Valid() && s.Value() == Spec.Jump(old(s.Value()), op)
  {
    s.pc := op.NNN();
  }

  /** 2NNN */
  method Call(s: State, op: Opcode)
    requires s.Valid()
    modifies s
    ensures s.Valid() && s.Value() == Spec.Call(old(s.Value()), op)
  {
    s.stack := s.stack + [s.pc];
    s.pc := op.NNN();
  }

  /** 3XNN */
  method SkipIfEqualImmediate(s: State, op: Opcode)
    requires s.Valid()
    modifies s
    ensures s.Valid() && s.Value() == Spec.SkipIfEqualImmediate(old(s.Value()), op)
  {
    if s.register[op.X()] == op.NN() {
      s.pc := (s.pc + 2) % 0x1000;
    }
  }

  /** 4XNN */
  method SkipIfNotEqualImmediate(s: State, op: Opcode)
    requires s.Valid()
    modifies s
    ensures s.Valid() && s.Value() == Spec.SkipIfNotEqualImmediate(old(s.Value()), op)
  {
    if s.register[op.X()] != op.NN() {
      s.pc := (s.pc + 2) % 0x1000;
    }
  }

  /** 5XY0 */
  method SkipIfEqualRegisters(s: State, op: Opcode)
    requires s.Valid()
    modifies s
    ensures s.Valid() && s.Value() == Spec.SkipIfEqualRegisters(old(s.Value()), op)
  {
    if s.register[op.X()] == s.register[op.Y()] {
      s.pc := (s.pc + 2) % 0x1000;
    }
  }

  /** 6XNN */
  method LoadImmediate(s: State, op: Opcode)
    requires s.Valid()
    modifies s
    ensures s.Valid() && s.Value() == Spec.LoadImmediate(old(s.Value()), op)
  {
    s.register := s.register[op.X() := op.NN()];
  }

  /** 7XNN */
  method AddImmediate(s: State, op: Opcode)
    requires s.Valid()
    modifies s
    ensures s.Valid() && s.Value() == Spec.AddImmediate(old(s.Value()), op)
  {
    s.register := s.register[op.X() := ((s.register[op.X()] as int) + op.NN()) % 0x100];
  }

  // ---------------------------------------------------------------- 0x8

  /** 8XY0 */
  method Move(s: State, op: Opcode)
    requires s.Valid()
    modifies s
    ensures s.Valid() && s.Value() == Spec.Move(old(s.Value()), op)
  {
    s.register := s.register[op.X() := s.register[op.Y()]];
  }

  /** 8XY1 */
  method OrRegisters(s: State, op: Opcode)
    requires s.Valid()
    modifies s
    ensures s.Valid() && s.Value() == Spec.OrRegisters(old(s.Value()), op)
  {
    s.register := s.register[op.X() := Or8(s.register[op.X()], s.register[op.Y()])];
  }

  /** 8XY2 */
  method AndRegisters(s: State, op: Opcode)
    requires s.Valid()
    modifies s
    ensures s.Valid() && s.Value() == Spec.AndRegisters(old(s.Value()), op)
  {
    s.register := s.register[op.X() := And8(s.register[op.X()], s.register[op.Y()])];
  }

  /** 8XY3 */
  method XorRegisters(s: State, op: Opcode)
    requires s.Valid()
    modifies s
    ensures s.Valid() && s.Value() == Spec.XorRegisters(old(s.Value()), op)
  {
    s.register := s.register[op.X() := Xor8(s.register[op.X()], s.register[op.Y()])];
  }

  /** 8XY4: the flag first, then the sum. */
  method AddRegisters(s: State, op: Opcode)
    requires s.Valid()
    modifies s
    ensures s.Valid() && s.Value() == Spec.AddRegisters(old(s.Value()), op)
  {
    var x, y := op.X(), op.Y();
    s.register := s.register[FLAG := if (s.register[x] as int) + s.register[y] > 0xFF then 1 else 0];
    s.register := s.register[x := ((s.register[x] as int) + s.register[y]) % 0x100];
  }

  /** 8XY5 */
  method Subtract(s: State, op: Opcode) returns (status: Status)
    requires s.Valid()
    modifies s
    ensures s.Valid() && Outcome(s.Value(), status) == Spec.Subtract(old(s.Value()), op)
  {
    var x, y := op.X(), op.Y();
    if s.register[y] > s.register[x] {
      s.register := s.register[FLAG := 0];
      s.register := s.register[x := 0];
    } else {
      s.register := s.register[FLAG := 1];
      var d := (s.register[x] as int) - s.register[y];
      if d < 0 {
        return Halted(RegisterOutOfRange);
      }
      s.register := s.register[x := d];
    }
    status := Running;
  }

  /** 8XY6 */
  method ShiftRegisterRight(s: State, op: Opcode)
    requires s.Valid()
    modifies s
    ensures s.Valid() && s.Value() == Spec.ShiftRegisterRight(old(s.Value()), op)
  {
    var x, y := op.X(), op.Y();
    s.register := s.register[FLAG := BitAnd(s.register[y], 1)];
    HalveByte(s.register[y]);
    s.register := s.register[x := ShiftRight(s.register[y], 1)];
  }

  /** 8XY7 */
  method SubtractReversed(s: State, op: Opcode) returns (status: Status)
    requires s.Valid()
    modifies s
    ensures s.Valid() && Outcome(s.Value(), status) == Spec.SubtractReversed(old(s.Value()), op)
  {
    var x, y := op.X(), op.Y();
    if s.register[x] > s.register[y] {
      s.register := s.register[FLAG := 0];
      s.register := s.register[x := 0];
    } else {
      s.register := s.register[FLAG := 1];
      var d := (s.register[y] as int) - s.register[x];
      if d < 0 {
        return Halted(RegisterOutOfRange);
      }
      s.register := s.register[x := d];
    }
    status := Running;
  }

  /** 8XYE */
  method ShiftRegisterLeft(s: State, op: Opcode)
    requires s.Valid()
    modifies s
    ensures s.Valid() && s.Value() == Spec.ShiftRegisterLeft(old(s.Value()), op)
  {
    var x, y := op.X(), op.Y();
    s.register := s.register[FLAG := BitAnd(s.register[y], 0x80)];
    s.register := s.register[x := BitAnd(ShiftLeft(s.register[y], 1), 0xFF)];
  }

  /** The 0x8 table, keyed on `opcode[3]`. */
  method Arithmetic(s: State, op: Opcode) returns (status: Status)
    requires s.Valid()
    modifies s
    ensures s.Valid() && Outcome(s.Value(), status) == Spec.Arithmetic(old(s.Value()), op)
  {
    var n := op.Item(3).value;
    status := Running;
    if n == 0x0 {
      Move(s, op);
    } else if n == 0x1 {
      OrRegisters(s, op);
    } else if n == 0x2 {
      AndRegisters(s, op);
    } else if n == 0x3 {
      XorRegisters(s, op);
    } else if n == 0x4 {
      AddRegisters(s, op);
    } else if n == 0x5 {
      status := Subtract(s, op);
    } else if n == 0x6 {
      ShiftRegisterRight(s, op);
    } else if n == 0x7 {
      status := SubtractReversed(s, op);
    } else if n == 0xE {
      ShiftRegisterLeft(s, op);
    } else {
      status := Halted(MissingHandler(n));
    }
  }

  // ---------------------------------------------------------------- 0x9..0xC

  /** 9XY0 */
  method SkipIfNotEqualRegisters(s: State, op: Opcode)
    requires s.Valid()
    modifies s
    ensures s.Valid() && s.Value() == Spec.SkipIfNotEqualRegisters(old(s.Value()), op)
  {
    if s.register[op.X()] != s.register[op.Y()] {
      s.pc := (s.pc + 2) % 0x1000;
    }
  }

  /** ANNN */
  method LoadIndex(s: State, op: Opcode)
    requires s.Valid()
    modifies s
    ensures s.Valid() && s.Value() == Spec.LoadIndex(old(s.Value()), op)
  {
    s.I := op.NNN();
  }

  /** BNNN, as written */
  method JumpOffset(s: State, op: Opcode)
    requires s.Valid()
    modifies s
    ensures s.Valid() && s.Value() == Spec.JumpOffset(old(s.Value()), op)
  {
    s.I := (op.NNN() + s.register[0]) % 0x1000;
  }

  /** CXNN, with the random byte as a parameter. */
  method Random(s: State, op: Opcode, rand: Byte)
    requires s.Valid()
    modifies s
    ensures s.Valid() && s.Value() == Spec.Random(old(s.Value()), op, rand)
  {
    s.register := s.register[op.X() := And8(rand, op.NN())];
  }

  // ---------------------------------------------------------------- 0xD

  /** The sprite rows `format(memory[I + y], '08b')` for y = 0..n-1, read
      in order. */
  method ReadSprite(s: State, n: nat) returns (r: Result<seq<seq<Bit>>>)
    requires s.Valid()
    ensures r == Spec.ReadSprite(s.memory, s.I, n)
  {
    var sprite: seq<seq<Bit>> := [];
    var row := 0;
    while row < n
      invariant 0 <= row <= n
      invariant |sprite| == row
      invariant forall k :: 0 <= k < row ==> s.I + k < |s.memory| && sprite[k] == Spec.SpriteRow(s.memory[s.I + k])
    {
      if s.I + row >= |s.memory| {
        return Err(IndexOutOfRange);
      }
      sprite := sprite + [Spec.SpriteRow(s.memory[s.I + row])];
      row := row + 1;
    }
    if n > 0 {
      ghost var last := sprite[n - 1];
      assert s.I + (n - 1) < |s.memory|;
    }
    ghost var read := Spec.ReadSprite(s.memory, s.I, n);
    assert read.Ok? && read.value == sprite;
    return Ok(sprite);
  }

  /** The drawing loops of DXYN: row by row, pixel by pixel, with VX and VY
      read afresh at each pixel; an index past the screen ends the row. */
  method DrawRows(s: State, sprite: seq<seq<Bit>>, rx: nat, ry: nat)
    requires s.Valid() && Spec.IsSprite(sprite) && rx < REGISTER_COUNT && ry < REGISTER_COUNT
    modifies s
    ensures s.Valid()
    ensures (s.register, s.screen) == Spec.DrawFrom(old(s.register), old(s.screen), sprite, rx, ry, 0, 0, false)
    ensures s.Value() == old(s.Value()).(register := s.register, screen := s.screen)
  {
    ghost var target := Spec.DrawFrom(s.register, s.screen, sprite, rx, ry, 0, 0, false);
    ghost var before := s.Value();
    var y := 0;
    while y < |sprite|
      invariant 0 <= y <= |sprite|
      invariant s.Valid() && s.Value() == before.(register := s.register, screen := s.screen)
      invariant Spec.DrawFrom(s.register, s.screen, sprite, rx, ry, y, 0, false) == target
    {
      DrawRow(s, sprite, rx, ry, y);
      y := y + 1;
    }
  }

  /** The inner loop of DXYN: one sprite row, pixel by pixel. */
  method DrawRow(s: State, sprite: seq<seq<Bit>>, rx: nat, ry: nat, y: nat)
    requires s.Valid() && Spec.IsSprite(sprite) && rx < REGISTER_COUNT && ry < REGISTER_COUNT && y < |sprite|
    modifies s
    ensures s.Valid() && s.Value() == old(s.Value()).(register := s.register, screen := s.screen)
    ensures Spec.DrawFrom(s.register, s.screen, sprite, rx, ry, y + 1, 0, false) ==
      Spec.DrawFrom(old(s.register), old(s.screen), sprite, rx, ry, y, 0, false)
  {
    ghost var target := Spec.DrawFrom(s.register, s.screen, sprite, rx, ry, y, 0, false);
    ghost var before := s.Value();
    var x := 0;
    while x < |sprite[0]|
      invariant 0 <= x <= 8
      invariant s.Valid() && s.Value() == before.(register := s.register, screen := s.screen)
      invariant Spec.DrawFrom(s.register, s.screen, sprite, rx, ry, y, x, false) == target
    {
      var screenY := s.register[ry] + y;
      var screenX := s.register[rx] + x;
      var index := screenY * SCREEN_WIDTH + screenX;
      if index >= |s.screen| {
        break;
      }
      var bit := sprite[y][x];
      s.register := s.register[FLAG := if s.register[FLAG] != 0 then s.register[FLAG] else AndBit(s.screen[index], bit)];
      s.screen := s.screen[index := XorBit(s.screen[index], bit)];
      x := x + 1;
    }
  }

  /** DXYN: the sprite rows are read first (a row past memory raises before
      anything changes), VF is cleared, then the rows are drawn. */
  method Draw(s: State, op: Opcode) returns (status: Status)
    requires s.Valid()
    modifies s
    ensures s.Valid() && Outcome(s.Value(), status) == Spec.Draw(old(s.Value()), op)
  {
    var read := ReadSprite(s, op.Item(3).value);
    if read.Err? {
      return Halted(read.fault);
    }
    s.register := s.register[FLAG := 0];
    DrawRows(s, read.value, op.X(), op.Y());
    status := Running;
  }

  // ---------------------------------------------------------------- 0xE

  /** EX9E / EXA1, as written */
  method SkipOnKey(s: State, op: Opcode)
    requires s.Valid()
    modifies s
    ensures s.Valid() && s.Value() == Spec.SkipOnKey(old(s.Value()), op)
  {
    var key: int := s.keypad[op.X()];
    op.SuffixIsLowByte();
    if op.Suffix(2) == Some(0x9E) {
      s.pc := (s.pc + 2 * key) % 0x1000;
    } else {
      s.pc := (s.pc + 2 * (1 - key)) % 0x1000;
    }
  }

  // ---------------------------------------------------------------- 0xF

  /** FX07 */
  method ReadDelay(s: State, op: Opcode)
    requires s.Valid()
    modifies s
    ensures s.Valid() && s.Value() == Spec.ReadDelay(old(s.Value()), op)
  {
    s.register := s.register[op.X() := s.delay];
  }

  /** The lowest pressed key, found by a scan from key 0 (`keypad.index(1)`). */
  method IndexOfPressed(keypad: seq<Bit>) returns (k: nat)
    requires 1 in keypad
    ensures k == Spec.FirstPressed(keypad)
  {
    k := 0;
    while keypad[k] != 1
      invariant k < |keypad|
      invariant forall i :: 0 <= i < k ==> keypad[i] == 0
      invariant 1 in keypad[k..]
      decreases |keypad| - k
    {
      assert keypad[k..] == [keypad[k]] + keypad[k + 1..];
      k := k + 1;
    }
    FirstPressedUnique(keypad, k);
  }

  lemma {:induction false} FirstPressedUnique(keypad: seq<Bit>, k: nat)
    requires k < |keypad| && keypad[k] == 1
    requires forall i :: 0 <= i < k ==> keypad[i] == 0
    ensures Spec.FirstPressed(keypad) == k
  {
    if k > 0 {
      FirstPressedUnique(keypad[1..], k - 1);
    }
  }

  /** FX0A */
  method WaitKey(s: State, op: Opcode)
    requires s.Valid()
    modifies s
    ensures s.Valid() && s.Value() == Spec.WaitKey(old(s.Value()), op)
  {
    if 1 in s.keypad {
      var k := IndexOfPressed(s.keypad);
      s.register := s.register[op.X() := k];
    } else {
      s.pc := s.pc - 2;
    }
  }

  /** FX15 */
  method SetDelay(s: State, op: Opcode)
    requires s.Valid()
    modifies s
    ensures s.Valid() && s.Value() == Spec.SetDelay(old(s.Value()), op)
  {
    s.delay := s.register[op.X()];
  }

  /** FX18 */
  method SetSound(s: State, op: Opcode)
    requires s.Valid()
    modifies s
    ensures s.Valid() && s.Value() == Spec.SetSound(old(s.Value()), op)
  {
    s.sound := s.register[op.X()];
  }

  /** FX1E: the flag first, then the sum. */
  method AddIndex(s: State, op: Opcode)
    requires s.Valid()
    modifies s
    ensures s.Valid() && s.Value() == Spec.AddIndex(old(s.Value()), op)
  {
    s.register := s.register[FLAG := if s.I + s.register[op.X()] > 0xFFF then 1 else 0];
    s.I := (s.I + s.register[op.X()]) % 0x1000;
  }

  /** FX29 */
  method FontGlyph(s: State, op: Opcode)
    requires s.Valid()
    modifies s
    ensures s.Valid() && s.Value() == Spec.FontGlyph(old(s.Value()), op)
  {
    s.I := (s.register[op.X()] as int) * 5;
  }

  /** FX33: three cell writes, in order. */
  method StoreBcd(s: State, op: Opcode) returns (status: Status)
    requires s.Valid()
    modifies s
    ensures s.Valid() && Outcome(s.Value(), status) == Spec.StoreBcd(old(s.Value()), op)
  {
    var digits := Spec.DecimalDigits(s.register[op.X()]);
    ghost var before := s.Value();
    for i := 0 to 3
      invariant i > 0 ==> s.I + i <= |s.memory|
      invariant s.Value() == before.(memory := Loaded(before.memory, digits[..i], s.I))
    {
      if s.I + i >= |s.memory| {
        LoadedPastEnd(before.memory, digits, s.I, i);
        return Halted(IndexOutOfRange);
      }
      LoadedStep(before.memory, digits, s.I, i);
      s.memory := s.memory[s.I + i := digits[i]];
    }
    assert digits[..3] == digits;
    status := Running;
  }

  /** FX55, as written: VX into each of the X + 1 cells from I, then I
      moves past them. */
  method StoreRegisters(s: State, op: Opcode) returns (status: Status)
    requires s.Valid()
    modifies s
    ensures s.Valid() && Outcome(s.Value(), status) == Spec.StoreRegisters(old(s.Value()), op)
  {
    var x := op.X();
    ghost var before := s.Value();
    ghost var values := Spec.StoredAsWritten(before, op);
    for r := 0 to x + 1
      invariant r > 0 ==> s.I + r <= |s.memory|
      invariant s.Value() == before.(memory := Loaded(before.memory, values[..r], s.I))
    {
      if s.I + r >= |s.memory| {
        LoadedPastEnd(before.memory, values, s.I, r);
        return Halted(IndexOutOfRange);
      }
      LoadedStep(before.memory, values, s.I, r);
      s.memory := s.memory[s.I + r := s.register[x]];
    }
    assert values[..x + 1] == values;
    s.I := s.I + x + 1;
    status := Running;
  }

  /** FX65: V0..VX from the cells from I, then I moves past them. */
  method LoadRegisters(s: State, op: Opcode) returns (status: Status)
    requires s.Valid()
    modifies s
    ensures s.Valid() && Outcome(s.Value(), status) == Spec.LoadRegisters(old(s.Value()), op)
  {
    var x := op.X();
    ghost var before := s.Value();
    for r := 0 to x + 1
      invariant s.memory == before.memory && s.I == before.I
      invariant r > 0 ==> s.I + r <= |s.memory|
      invariant r == 0 ==> s.Value() == before
      invariant r > 0 ==> s.Value() == before.(register := before.memory[s.I..s.I + r] + before.register[r..])
    {
      if s.I + r >= |s.memory| {
        assert r == Spec.Readable(before, op);
        return Halted(IndexOutOfRange);
      }
      LoadStep(before.memory, before.register, s.I, r);
      s.register := s.register[r := s.memory[s.I + r]];
    }
    s.I := s.I + x + 1;
    status := Running;
  }

  /** One more register loaded: cell i + r goes into register r. */
  lemma LoadStep(memory: seq<Byte>, register: seq<Byte>, i: nat, r: nat)
    requires i + r < |memory| && r < |register|
    ensures (if r == 0 then register else memory[i..i + r] + register[r..])[r := memory[i + r]] ==
      memory[i..i + r + 1] + register[r + 1..]
  {
    var a := if r == 0 then register else memory[i..i + r] + register[r..];
    var b := memory[i..i + r + 1] + register[r + 1..];
    assert |a| == |b|;
    forall j | 0 <= j < |b|
      ensures a[r := memory[i + r]][j] == b[j]
    {
    }
  }

  /** The 0xF table, keyed on `opcode[2:]`. */
  method Misc(s: State, op: Opcode) returns (status: Status)
    requires s.Valid()
    modifies s
    ensures s.Valid() && Outcome(s.Value(), status) == Spec.Misc(old(s.Value()), op)
  {
    op.SuffixIsLowByte();
    var n := op.Suffix(2).value;
    status := Running;
    if n == 0x07 {
      ReadDelay(s, op);
    } else if n == 0x0A {
      WaitKey(s, op);
    } else if n == 0x15 {
      SetDelay(s, op);
    } else if n == 0x18 {
      SetSound(s, op);
    } else if n == 0x1E {
      AddIndex(s, op);
    } else if n == 0x29 {
      FontGlyph(s, op);
    } else if n == 0x33 {
      status := StoreBcd(s, op);
    } else if n == 0x55 {
      status := StoreRegisters(s, op);
    } else if n == 0x65 {
      status := LoadRegisters(s, op);
    } else {
      status := Halted(MissingHandler(n));
    }
  }
}
