/** Properties of the DXYN drawing loop. When neither X nor Y is F (so that
    VX and VY do not change while drawing), the loop has a closed form: the
    pixels under the sprite are XORed with its bits, and VF ends as 1 exactly
    when a set sprite bit lands on a lit pixel. From it follow that drawing
    twice restores the screen, and the behaviour at the right edge. */
module DrawFacts {
  import opened Bits
  import opened Decoder
  import opened Machine
  import opened Instructions

  /** The sprite row and column that land on pixel p, for a sprite whose top
      left corner is at flat index base. */
  function Row(base: int, p: int): int { (p - base) / SCREEN_WIDTH }

  function Col(base: int, p: int): int { (p - base) % SCREEN_WIDTH }

  /** Pixel p lies under the sprite drawn at base = VY * 64 + VX; with clip,
      only while the column is still on the same screen row. */
  predicate Covers(sprite: seq<seq<Bit>>, vx: nat, base: int, clip: bool, p: int)
  {
    base <= p && Row(base, p) < |sprite| && Col(base, p) < 8 &&
    (clip ==> vx + Col(base, p) < SCREEN_WIDTH)
  }

  /** Pixel p is covered at sprite position (y, x) or later. */
  predicate Pending(sprite: seq<seq<Bit>>, vx: nat, base: int, clip: bool, p: int, y: nat, x: nat)
  {
    Covers(sprite, vx, base, clip, p) &&
    (Row(base, p) > y || (Row(base, p) == y && Col(base, p) >= x))
  }

  /** The sprite bit that lands on a covered pixel. */
  function BitAt(sprite: seq<seq<Bit>>, vx: nat, base: int, clip: bool, p: int): Bit
    requires IsSprite(sprite) && Covers(sprite, vx, base, clip, p)
  {
    sprite[Row(base, p)][Col(base, p)]
  }

  /** The screen with every pixel still pending XORed with its sprite bit. */
  function OverlayFrom(screen: seq<Bit>, sprite: seq<seq<Bit>>, vx: nat, base: int, clip: bool,
                       y: nat, x: nat): (r: seq<Bit>)
    requires |screen| == SCREEN_SIZE && IsSprite(sprite)
    ensures |r| == SCREEN_SIZE
  {
    seq(SCREEN_SIZE, p requires 0 <= p < SCREEN_SIZE =>
      if Pending(sprite, vx, base, clip, p, y, x) then XorBit(screen[p], BitAt(sprite, vx, base, clip, p))
      else screen[p])
  }

  /** Some pending pixel is lit and has a set sprite bit. */
  predicate CollisionFrom(screen: seq<Bit>, sprite: seq<seq<Bit>>, vx: nat, base: int, clip: bool,
                          y: nat, x: nat)
    requires |screen| == SCREEN_SIZE && IsSprite(sprite)
  {
    exists p :: 0 <= p < SCREEN_SIZE && Pending(sprite, vx, base, clip, p, y, x) &&
      BitAt(sprite, vx, base, clip, p) == 1 && screen[p] == 1
  }

  /** Every pixel's position relative to base splits into row and column. */
  lemma Decompose(base: int, p: int)
    ensures p == base + Row(base, p) * SCREEN_WIDTH + Col(base, p)
    ensures 0 <= Col(base, p) < SCREEN_WIDTH
  {
  }

  /** Only one pixel sits at row y, column x. */
  lemma UniquePosition(base: int, p: int, y: int, x: int)
    requires Row(base, p) == y && Col(base, p) == x
    ensures p == base + y * SCREEN_WIDTH + x
  {
    Decompose(base, p);
  }

  /** Position base + 64y + x is at row y, column x. */
  lemma PositionOf(base: int, y: nat, x: nat)
    requires x < SCREEN_WIDTH
    ensures Row(base, base + y * SCREEN_WIDTH + x) == y && Col(base, base + y * SCREEN_WIDTH + x) == x
  {
  }

  /** With nothing pending, the overlay is the screen and there is no
      collision. */
  lemma NothingPending(screen: seq<Bit>, sprite: seq<seq<Bit>>, vx: nat, base: int, clip: bool, y: nat, x: nat)
    requires |screen| == SCREEN_SIZE && IsSprite(sprite)
    requires forall p :: 0 <= p < SCREEN_SIZE ==> !Pending(sprite, vx, base, clip, p, y, x)
    ensures OverlayFrom(screen, sprite, vx, base, clip, y, x) == screen
    ensures !CollisionFrom(screen, sprite, vx, base, clip, y, x)
  {
  }

  /** Two starting positions with the same pending pixels give the same
      overlay and the same collision. */
  lemma SamePending(screen: seq<Bit>, sprite: seq<seq<Bit>>, vx: nat, base: int, clip: bool,
                    y: nat, x: nat, y': nat, x': nat)
    requires |screen| == SCREEN_SIZE && IsSprite(sprite)
    requires forall p :: 0 <= p < SCREEN_SIZE ==>
      (Pending(sprite, vx, base, clip, p, y, x) <==> Pending(sprite, vx, base, clip, p, y', x'))
    ensures OverlayFrom(screen, sprite, vx, base, clip, y, x) == OverlayFrom(screen, sprite, vx, base, clip, y', x')
    ensures CollisionFrom(screen, sprite, vx, base, clip, y, x) <==> CollisionFrom(screen, sprite, vx, base, clip, y', x')
  {
    if CollisionFrom(screen, sprite, vx, base, clip, y, x) {
      var p :| 0 <= p < SCREEN_SIZE && Pending(sprite, vx, base, clip, p, y, x) &&
        BitAt(sprite, vx, base, clip, p) == 1 && screen[p] == 1;
      assert Pending(sprite, vx, base, clip, p, y', x');
    }
    if CollisionFrom(screen, sprite, vx, base, clip, y', x') {
      var p :| 0 <= p < SCREEN_SIZE && Pending(sprite, vx, base, clip, p, y', x') &&
        BitAt(sprite, vx, base, clip, p) == 1 && screen[p] == 1;
      assert Pending(sprite, vx, base, clip, p, y, x);
    }
  }

  /** When position (y, x) is past the screen, or past its right edge with
      clip, no pixel of the rest of row y is pending. */
  lemma RowEnds(sprite: seq<seq<Bit>>, vx: nat, base: int, clip: bool, y: nat, x: nat)
    requires x <= 8
    requires x == 8 || base + y * SCREEN_WIDTH + x >= SCREEN_SIZE || (clip && vx + x >= SCREEN_WIDTH)
    ensures forall p :: 0 <= p < SCREEN_SIZE ==>
      (Pending(sprite, vx, base, clip, p, y, x) <==> Pending(sprite, vx, base, clip, p, y + 1, 0))
  {
    forall p | 0 <= p < SCREEN_SIZE && Pending(sprite, vx, base, clip, p, y, x)
      ensures Row(base, p) > y
    {
      if Row(base, p) == y {
        Decompose(base, p);
      }
    }
  }

  /** The pixel at position (y, x) is pending from (y, x) and no longer from
      (y, x + 1); every other pixel is pending from both or from neither. */
  lemma StepPending(sprite: seq<seq<Bit>>, vx: nat, base: int, clip: bool, y: nat, x: nat)
    requires IsSprite(sprite) && y < |sprite| && x < 8 && base >= 0
    requires base + y * SCREEN_WIDTH + x < SCREEN_SIZE && (clip ==> vx + x < SCREEN_WIDTH)
    ensures var index := base + y * SCREEN_WIDTH + x;
      Pending(sprite, vx, base, clip, index, y, x) && !Pending(sprite, vx, base, clip, index, y, x + 1) &&
      BitAt(sprite, vx, base, clip, index) == sprite[y][x]
    ensures var index := base + y * SCREEN_WIDTH + x;
      forall p :: 0 <= p < SCREEN_SIZE && p != index ==>
        (Pending(sprite, vx, base, clip, p, y, x) <==> Pending(sprite, vx, base, clip, p, y, x + 1))
  {
    var index := base + y * SCREEN_WIDTH + x;
    PositionOf(base, y, x);
    forall p | 0 <= p < SCREEN_SIZE && p != index && Pending(sprite, vx, base, clip, p, y, x)
      ensures Pending(sprite, vx, base, clip, p, y, x + 1)
    {
      if Row(base, p) == y && Col(base, p) == x {
        UniquePosition(base, p, y, x);
      }
    }
  }

  /** What the drawing loop from (y, x) on leaves, when VX and VY stay put:
      the pending pixels XORed with their bits, and VF set to 1 if it was 1 or
      a pending lit pixel meets a set bit, else 0. */
  function ClosedForm(register: seq<Byte>, screen: seq<Bit>, sprite: seq<seq<Bit>>,
                      rx: nat, ry: nat, y: nat, x: nat, clip: bool): (r: (seq<Byte>, seq<Bit>))
    requires |register| == REGISTER_COUNT && |screen| == SCREEN_SIZE && IsSprite(sprite)
    requires rx < REGISTER_COUNT && ry < REGISTER_COUNT
  {
    var vx := register[rx];
    var base := register[ry] * SCREEN_WIDTH + vx;
    (register[FLAG := if register[FLAG] == 1 || CollisionFrom(screen, sprite, vx, base, clip, y, x) then 1 else 0],
     OverlayFrom(screen, sprite, vx, base, clip, y, x))
  }

  /** Past the last sprite row nothing is pending. */
  lemma ClosedFormDone(register: seq<Byte>, screen: seq<Bit>, sprite: seq<seq<Bit>>,
                       rx: nat, ry: nat, y: nat, x: nat, clip: bool)
    requires |register| == REGISTER_COUNT && |screen| == SCREEN_SIZE && IsSprite(sprite)
    requires rx < REGISTER_COUNT && ry < REGISTER_COUNT && register[FLAG] <= 1 && y >= |sprite|
    ensures ClosedForm(register, screen, sprite, rx, ry, y, x, clip) == (register, screen)
  {
    var vx := register[rx];
    var base := register[ry] * SCREEN_WIDTH + vx;
    NothingPending(screen, sprite, vx, base, clip, y, x);
    assert register[FLAG := register[FLAG]] == register;
  }

  /** At the end of a row, or where the row leaves the screen (or its right
      edge, with clip), the rest of the row is skipped. */
  lemma ClosedFormRowEnd(register: seq<Byte>, screen: seq<Bit>, sprite: seq<seq<Bit>>,
                         rx: nat, ry: nat, y: nat, x: nat, clip: bool)
    requires |register| == REGISTER_COUNT && |screen| == SCREEN_SIZE && IsSprite(sprite)
    requires rx < REGISTER_COUNT && ry < REGISTER_COUNT && x <= 8
    requires var vx := register[rx];
      x == 8 || (register[ry] + y) * SCREEN_WIDTH + vx + x >= SCREEN_SIZE || (clip && vx + x >= SCREEN_WIDTH)
    ensures ClosedForm(register, screen, sprite, rx, ry, y, x, clip) ==
      ClosedForm(register, screen, sprite, rx, ry, y + 1, 0, clip)
  {
    var vx := register[rx];
    var base := register[ry] * SCREEN_WIDTH + vx;
    RowEnds(sprite, vx, base, clip, y, x);
    SamePending(screen, sprite, vx, base, clip, y, x, y + 1, 0);
  }

  /** Drawing the pixel of (y, x) and carrying on from (y, x + 1) gives the
      closed form from (y, x). */
  lemma ClosedFormStep(register: seq<Byte>, screen: seq<Bit>, sprite: seq<seq<Bit>>,
                       rx: nat, ry: nat, y: nat, x: nat, clip: bool)
    requires |register| == REGISTER_COUNT && |screen| == SCREEN_SIZE && IsSprite(sprite)
    requires rx < FLAG && ry < FLAG && register[FLAG] <= 1 && y < |sprite| && x < 8
    requires var vx := register[rx];
      (register[ry] + y) * SCREEN_WIDTH + vx + x < SCREEN_SIZE && (clip ==> vx + x < SCREEN_WIDTH)
    ensures var index := (register[ry] + y) * SCREEN_WIDTH + register[rx] + x;
      var bit := sprite[y][x];
      var flag := if register[FLAG] != 0 then register[FLAG] else AndBit(screen[index], bit);
      ClosedForm(register[FLAG := flag], screen[index := XorBit(screen[index], bit)], sprite, rx, ry, y, x + 1, clip) ==
        ClosedForm(register, screen, sprite, rx, ry, y, x, clip)
  {
    var vx := register[rx];
    var base := register[ry] * SCREEN_WIDTH + vx;
    var index := (register[ry] + y) * SCREEN_WIDTH + vx + x;
    assert index == base + y * SCREEN_WIDTH + x;
    var bit := sprite[y][x];
    var flag := if register[FLAG] != 0 then register[FLAG] else AndBit(screen[index], bit);
    var register' := register[FLAG := flag];
    var screen' := screen[index := XorBit(screen[index], bit)];
    assert register'[rx] == vx && register'[ry] == register[ry];
    StepOverlay(screen, sprite, vx, base, clip, y, x);
    StepCollision(screen, sprite, vx, base, clip, y, x);
    var hit := CollisionFrom(screen', sprite, vx, base, clip, y, x + 1);
    assert (flag == 1 || hit) <==> (register[FLAG] == 1 || CollisionFrom(screen, sprite, vx, base, clip, y, x));
    var c := if flag == 1 || hit then 1 else 0;
    assert register'[FLAG := c] == register[FLAG := c];
  }

  /** The drawing loop from (y, x) on, when VX and VY stay put and VF holds 0
      or 1, is its closed form. */
  lemma {:induction false} DrawFromClosed(register: seq<Byte>, screen: seq<Bit>, sprite: seq<seq<Bit>>,
                                          rx: nat, ry: nat, y: nat, x: nat, clip: bool)
    requires |register| == REGISTER_COUNT && |screen| == SCREEN_SIZE && IsSprite(sprite)
    requires rx < FLAG && ry < FLAG && x <= 8 && register[FLAG] <= 1
    ensures DrawFrom(register, screen, sprite, rx, ry, y, x, clip) == ClosedForm(register, screen, sprite, rx, ry, y, x, clip)
    decreases |sprite| - y, 8 - x
  {
    if y >= |sprite| {
      ClosedFormDone(register, screen, sprite, rx, ry, y, x, clip);
    } else if x == 8 {
      ClosedFormRowEnd(register, screen, sprite, rx, ry, y, x, clip);
      DrawFromClosed(register, screen, sprite, rx, ry, y + 1, 0, clip);
    } else {
      var vx := register[rx];
      if (register[ry] + y) * SCREEN_WIDTH + vx + x >= SCREEN_SIZE || (clip && vx + x >= SCREEN_WIDTH) {
        ClosedFormRowEnd(register, screen, sprite, rx, ry, y, x, clip);
        DrawFromClosed(register, screen, sprite, rx, ry, y + 1, 0, clip);
      } else {
        var index := (register[ry] + y) * SCREEN_WIDTH + vx + x;
        var bit := sprite[y][x];
        var flag := if register[FLAG] != 0 then register[FLAG] else AndBit(screen[index], bit);
        DrawFromClosed(register[FLAG := flag], screen[index := XorBit(screen[index], bit)], sprite, rx, ry, y, x + 1, clip);
        ClosedFormStep(register, screen, sprite, rx, ry, y, x, clip);
      }
    }
  }

  /** Flipping the pixel of (y, x) and carrying on from (y, x + 1) gives the
      overlay from (y, x). */
  lemma StepOverlay(screen: seq<Bit>, sprite: seq<seq<Bit>>, vx: nat, base: int, clip: bool, y: nat, x: nat)
    requires |screen| == SCREEN_SIZE && IsSprite(sprite) && y < |sprite| && x < 8 && base >= 0
    requires base + y * SCREEN_WIDTH + x < SCREEN_SIZE && (clip ==> vx + x < SCREEN_WIDTH)
    ensures var index := base + y * SCREEN_WIDTH + x;
      var screen' := screen[index := XorBit(screen[index], sprite[y][x])];
      OverlayFrom(screen', sprite, vx, base, clip, y, x + 1) == OverlayFrom(screen, sprite, vx, base, clip, y, x)
  {
    var index := base + y * SCREEN_WIDTH + x;
    var screen' := screen[index := XorBit(screen[index], sprite[y][x])];
    StepPending(sprite, vx, base, clip, y, x);
    var a := OverlayFrom(screen', sprite, vx, base, clip, y, x + 1);
    var b := OverlayFrom(screen, sprite, vx, base, clip, y, x);
    forall p | 0 <= p < SCREEN_SIZE
      ensures a[p] == b[p]
    {
      if p == index {
      } else {
      }
    }
  }

  /** A collision from (y, x) is one at the pixel of (y, x) or one from
      (y, x + 1); flipping that pixel does not affect the latter. */
  lemma StepCollision(screen: seq<Bit>, sprite: seq<seq<Bit>>, vx: nat, base: int, clip: bool, y: nat, x: nat)
    requires |screen| == SCREEN_SIZE && IsSprite(sprite) && y < |sprite| && x < 8 && base >= 0
    requires base + y * SCREEN_WIDTH + x < SCREEN_SIZE && (clip ==> vx + x < SCREEN_WIDTH)
    ensures var index := base + y * SCREEN_WIDTH + x;
      var screen' := screen[index := XorBit(screen[index], sprite[y][x])];
      CollisionFrom(screen, sprite, vx, base, clip, y, x) <==>
        (sprite[y][x] == 1 && screen[index] == 1) || CollisionFrom(screen', sprite, vx, base, clip, y, x + 1)
  {
    var index := base + y * SCREEN_WIDTH + x;
    var screen' := screen[index := XorBit(screen[index], sprite[y][x])];
    StepPending(sprite, vx, base, clip, y, x);
    if CollisionFrom(screen, sprite, vx, base, clip, y, x) {
      var p :| 0 <= p < SCREEN_SIZE && Pending(sprite, vx, base, clip, p, y, x) &&
        BitAt(sprite, vx, base, clip, p) == 1 && screen[p] == 1;
      if p != index {
        assert Pending(sprite, vx, base, clip, p, y, x + 1) && screen'[p] == 1;
      }
    }
    if CollisionFrom(screen', sprite, vx, base, clip, y, x + 1) {
      var p :| 0 <= p < SCREEN_SIZE && Pending(sprite, vx, base, clip, p, y, x + 1) &&
        BitAt(sprite, vx, base, clip, p) == 1 && screen'[p] == 1;
      assert p != index && Pending(sprite, vx, base, clip, p, y, x) && screen[p] == 1;
    }
  }

  // ---------------------------------------------------------------- DXYN

  /** The sprite DXYN draws, when its rows can be read. */
  function SpriteOf(m: MachineState, op: Opcode): (sprite: seq<seq<Bit>>)
    requires m.Wf() && ReadSprite(m.memory, m.I, op.Item(3).value).Ok?
    ensures IsSprite(sprite) && |sprite| == op.value % 0x10
  {
    ReadSprite(m.memory, m.I, op.Item(3).value).value
  }

  function Origin(m: MachineState, op: Opcode): nat
    requires m.Wf()
  {
    m.register[op.Y()] * SCREEN_WIDTH + m.register[op.X()]
  }

  /** DXYN with X and Y other than F: VF is 1 exactly when a set sprite bit
      lands on a lit pixel, every pixel under the sprite is XORed with its
      bit, and nothing else changes. A sprite row past the end of memory is
      an index fault that changes nothing. */
  lemma DrawEffect(m: MachineState, op: Opcode, clip: bool)
    requires m.Wf() && op.X() != FLAG && op.Y() != FLAG
    ensures ReadSprite(m.memory, m.I, op.Item(3).value).Err? ==> DrawWith(m, op, clip) == Halt(m, IndexOutOfRange)
    ensures ReadSprite(m.memory, m.I, op.Item(3).value).Ok? ==>
      var sprite, vx, base := SpriteOf(m, op), m.register[op.X()], Origin(m, op);
      DrawWith(m, op, clip) == Continue(m.(
        register := m.register[FLAG := if CollisionFrom(m.screen, sprite, vx, base, clip, 0, 0) then 1 else 0],
        screen := OverlayFrom(m.screen, sprite, vx, base, clip, 0, 0)))
  {
    var read := ReadSprite(m.memory, m.I, op.Item(3).value);
    if read.Ok? {
      var register := m.register[FLAG := 0];
      DrawFromClosed(register, m.screen, read.value, op.X(), op.Y(), 0, 0, clip);
      assert register[FLAG := 0] == m.register[FLAG := 0];
    }
  }

  /** Drawing the same sprite twice at the same place (X, Y other than F)
      gives back the screen, whatever VF the first draw left. */
  lemma DrawTwiceRestores(m: MachineState, op: Opcode, clip: bool)
    requires m.Wf() && op.X() != FLAG && op.Y() != FLAG
    requires DrawWith(m, op, clip).status.Running?
    ensures DrawWith(m, op, clip).state.Wf()
    ensures DrawWith(DrawWith(m, op, clip).state, op, clip).state.screen == m.screen
  {
    DrawEffect(m, op, clip);
    var m1 := DrawWith(m, op, clip).state;
    DrawEffect(m1, op, clip);
    assert m1.memory == m.memory && m1.I == m.I;
    assert m1.register[op.X()] == m.register[op.X()] && m1.register[op.Y()] == m.register[op.Y()];
    var sprite, vx, base := SpriteOf(m, op), m.register[op.X()], Origin(m, op);
    var s1 := OverlayFrom(m.screen, sprite, vx, base, clip, 0, 0);
    var s2 := OverlayFrom(s1, sprite, vx, base, clip, 0, 0);
    assert s2 == m.screen;
  }

  /** Some set bit of the sprite lands on the screen. */
  predicate Visible(sprite: seq<seq<Bit>>, vx: nat, base: int, clip: bool)
    requires IsSprite(sprite)
  {
    exists p :: 0 <= p < SCREEN_SIZE && Covers(sprite, vx, base, clip, p) && BitAt(sprite, vx, base, clip, p) == 1
  }

  /** A dark screen has nothing to collide with; the image of a sprite on a
      dark screen collides with the same sprite exactly when it is visible. */
  lemma RedrawOnDark(sprite: seq<seq<Bit>>, vx: nat, base: int, clip: bool)
    requires IsSprite(sprite)
    ensures !CollisionFrom(Dark(), sprite, vx, base, clip, 0, 0)
    ensures CollisionFrom(OverlayFrom(Dark(), sprite, vx, base, clip, 0, 0), sprite, vx, base, clip, 0, 0) <==>
      Visible(sprite, vx, base, clip)
  {
    var image := OverlayFrom(Dark(), sprite, vx, base, clip, 0, 0);
    if Visible(sprite, vx, base, clip) {
      var p :| 0 <= p < SCREEN_SIZE && Covers(sprite, vx, base, clip, p) && BitAt(sprite, vx, base, clip, p) == 1;
      assert Pending(sprite, vx, base, clip, p, 0, 0) && image[p] == 1;
    }
  }

  /** On a dark screen a draw reports no collision; drawing the same sprite
      again reports one exactly when some set bit of the sprite is on the
      screen. */
  lemma DrawTwiceCollides(m: MachineState, op: Opcode, clip: bool)
    requires m.Wf() && op.X() != FLAG && op.Y() != FLAG && m.screen == Dark()
    requires DrawWith(m, op, clip).status.Running?
    ensures DrawWith(m, op, clip).state.register[FLAG] == 0
    ensures var m1 := DrawWith(m, op, clip).state;
      m1.Wf() && DrawWith(m1, op, clip).status.Running? &&
      (DrawWith(m1, op, clip).state.register[FLAG] == 1 <==>
        Visible(SpriteOf(m, op), m.register[op.X()], Origin(m, op), clip))
  {
    DrawEffect(m, op, clip);
    var m1 := DrawWith(m, op, clip).state;
    DrawEffect(m1, op, clip);
    RedrawOnDark(SpriteOf(m, op), m.register[op.X()], Origin(m, op), clip);
    assert m1.memory == m.memory && m1.I == m.I;
    assert m1.register[op.X()] == m.register[op.X()] && m1.register[op.Y()] == m.register[op.Y()];
  }

  /** VF after any draw is 0 or 1, even when X or Y is F, and the other
      registers keep their values. */
  lemma {:induction false} DrawFromFlag(register: seq<Byte>, screen: seq<Bit>, sprite: seq<seq<Bit>>,
                                        rx: nat, ry: nat, y: nat, x: nat, clip: bool)
    requires |register| == REGISTER_COUNT && |screen| == SCREEN_SIZE && IsSprite(sprite)
    requires rx < REGISTER_COUNT && ry < REGISTER_COUNT && x <= 8 && register[FLAG] <= 1
    ensures var r := DrawFrom(register, screen, sprite, rx, ry, y, x, clip).0;
      r[FLAG] <= 1 && forall j :: 0 <= j < FLAG ==> r[j] == register[j]
    decreases |sprite| - y, 8 - x
  {
    if y >= |sprite| {
    } else if x == 8 {
      DrawFromFlag(register, screen, sprite, rx, ry, y + 1, 0, clip);
    } else {
      var column := register[rx] + x;
      var index := (register[ry] + y) * SCREEN_WIDTH + column;
      if index >= SCREEN_SIZE || (clip && column >= SCREEN_WIDTH) {
        DrawFromFlag(register, screen, sprite, rx, ry, y + 1, 0, clip);
      } else {
        var bit := sprite[y][x];
        var flag := if register[FLAG] != 0 then register[FLAG] else AndBit(screen[index], bit);
        DrawFromFlag(register[FLAG := flag], screen[index := XorBit(screen[index], bit)], sprite, rx, ry, y, x + 1, clip);
      }
    }
  }

  /** DXYN for any X and Y: VF ends 0 or 1; only VF and the screen change. */
  lemma DrawFrame(m: MachineState, op: Opcode)
    requires m.Wf() && Draw(m, op).status.Running?
    ensures var m1 := Draw(m, op).state;
      m1.register[FLAG] <= 1 &&
      (forall j :: 0 <= j < FLAG ==> m1.register[j] == m.register[j]) &&
      m1 == m.(register := m1.register, screen := m1.screen)
  {
    var read := ReadSprite(m.memory, m.I, op.Item(3).value);
    DrawFromFlag(m.register[FLAG := 0], m.screen, read.value, op.X(), op.Y(), 0, 0, false);
  }

  // ------------------------------------------------ the right screen edge

  /** With clip, a covered pixel is on the screen row of its sprite row, in
      the screen column VX plus its sprite column. */
  lemma ClippedPosition(sprite: seq<seq<Bit>>, vx: nat, vy: nat, p: int)
    requires Covers(sprite, vx, vy * SCREEN_WIDTH + vx, true, p)
    ensures var base := vy * SCREEN_WIDTH + vx;
      p / SCREEN_WIDTH == vy + Row(base, p) && p % SCREEN_WIDTH == vx + Col(base, p)
  {
    var base := vy * SCREEN_WIDTH + vx;
    Decompose(base, p);
    assert p == (vy + Row(base, p)) * SCREEN_WIDTH + (vx + Col(base, p));
  }

  /** DXYN with clipping (X, Y other than F) changes only pixels in the
      sprite's box: screen columns VX to VX + 7 and rows VY to VY + N - 1. */
  lemma ClippedDrawStaysInBox(m: MachineState, op: Opcode)
    requires m.Wf() && op.X() != FLAG && op.Y() != FLAG
    requires DrawIntended(m, op).status.Running?
    ensures var m1 := DrawIntended(m, op).state;
      var vx, vy := m.register[op.X()], m.register[op.Y()];
      forall p :: 0 <= p < SCREEN_SIZE && m1.screen[p] != m.screen[p] ==>
        vx <= p % SCREEN_WIDTH < vx + 8 && vy <= p / SCREEN_WIDTH < vy + op.value % 0x10
  {
    DrawEffect(m, op, true);
    var m1 := DrawIntended(m, op).state;
    var vx, vy := m.register[op.X()], m.register[op.Y()];
    forall p | 0 <= p < SCREEN_SIZE && m1.screen[p] != m.screen[p]
      ensures vx <= p % SCREEN_WIDTH < vx + 8 && vy <= p / SCREEN_WIDTH < vy + op.value % 0x10
    {
      var sprite := SpriteOf(m, op);
      assert Pending(sprite, vx, Origin(m, op), true, p, 0, 0);
      ClippedPosition(sprite, vx, vy, p);
    }
  }

  /** A machine with V0 = 62, I = 0 and a byte 0xFF at address 0, on a dark
      screen. */
  function EdgeMachine(): (m: MachineState)
    ensures m.Wf() && m.register[0] == 62 && m.register[1] == 0 && m.I == 0
    ensures m.memory[0] == 0xFF && m.screen == Dark()
  {
    MachineState(Zeros(REGISTER_COUNT)[0 := 62], 0, PROGRAM_START, 0, 0, [], Released(),
                 Zeros(MEMORY_SIZE)[0 := 0xFF], Dark())
  }

  /** The fields of D011: X = 0, Y = 1, N = 1. */
  lemma EdgeOpcode(op: Opcode)
    requires op.value == 0xD011
    ensures op.X() == 0 && op.Y() == 1 && op.Item(3) == Some(1)
  {
    var v := op.value;
    assert v / 0x100 == 0xD0 && v / 0x10 == 0xD01 && v % 0x10 == 1;
    op.ItemFields();
  }

  /** The sprite D011 reads on EdgeMachine: one row of eight set bits. */
  lemma EdgeSprite(m: MachineState)
    requires m.Wf() && m.I == 0 && m.memory[0] == 0xFF
    ensures ReadSprite(m.memory, m.I, 1) == Ok([SpriteRow(0xFF)])
    ensures SpriteRow(0xFF)[2] == 1
  {
    var r := ReadSprite(m.memory, m.I, 1);
    assert r.value == [SpriteRow(0xFF)];
  }

  /** D011 draws the row 0xFF at column 62 of row 0. As written, its third
      pixel lands on pixel 64, which is column 0 of row 1, outside the
      sprite's box. */
  lemma DrawWrapsAsWritten()
    ensures Draw(EdgeMachine(), Opcode(0xD011)).status.Running?
    ensures Draw(EdgeMachine(), Opcode(0xD011)).state.screen[64] == 1
  {
    var m, op := EdgeMachine(), Opcode(0xD011);
    EdgeOpcode(op);
    EdgeSprite(m);
    DrawEffect(m, op, false);
    var sprite := SpriteOf(m, op);
    assert Covers(sprite, 62, 62, false, 64);
  }

  /** With clipping, the same draw leaves pixel 64 dark. */
  lemma ClippedDrawAtEdge()
    ensures DrawIntended(EdgeMachine(), Opcode(0xD011)).status.Running?
    ensures DrawIntended(EdgeMachine(), Opcode(0xD011)).state.screen[64] == 0
  {
    var m, op := EdgeMachine(), Opcode(0xD011);
    EdgeOpcode(op);
    EdgeSprite(m);
    DrawEffect(m, op, true);
    var sprite := SpriteOf(m, op);
    assert !Covers(sprite, 62, 62, true, 64);
  }
}
