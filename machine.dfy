/**
 * The CHIP-8 virtual machine of Emu.cpp as a value, with each entry of the `gVM` handler
 * table, the cycle, the timer update, the input poll and initialisation as functions on it.
 * This is the specification the imperative model in module Emu is proved against.
 */
module Machine {
  import opened EmuTypes
  import opened Decode
  import opened Alu
  import opened Bits
  import Cadence

  const MemorySize := 0x1000
  const RegisterCount := 16
  const FlagRegister := 0xF
  const StackDepth := 16
  const GfxWidth := 64
  const GfxHeight := 32
  const GfxSize := 2048
  /** Bits in one sprite row; the draw loop runs `j <= kByteMinOne` with kByteMinOne = 7. */
  const SpriteRowBits := 8
  const PcStart: Word := 0x200
  const FontBase := 0x50
  const FontHeight := 5
  /** kTimerUpdateRateMS: (1/60)*1000 truncated to an integer. */
  const TimerPeriod: U32 := 16
  /** kCycleUpdateRateBase: (1/60)*100 truncated to an integer. */
  const CycleRateBase: U32 := 1
  /** kCycleUpdateRateDelta: (1/60)*100 truncated to an integer. */
  const CycleRateDelta: U32 := 1

  /** gFontSet: sixteen 4x5 glyphs, five bytes each, for the hexadecimal digits 0-F. */
  const FontSet: seq<Byte> := [
    0xF0, 0x90, 0x90, 0x90, 0xF0, 0x20, 0x60, 0x20, 0x20, 0x70,
    0xF0, 0x10, 0xF0, 0x80, 0xF0, 0xF0, 0x10, 0xF0, 0x10, 0xF0,
    0x90, 0x90, 0xF0, 0x10, 0x10, 0xF0, 0x80, 0xF0, 0x10, 0xF0,
    0xF0, 0x80, 0xF0, 0x90, 0xF0, 0xF0, 0x10, 0x20, 0x40, 0x40,
    0xF0, 0x90, 0xF0, 0x90, 0xF0, 0xF0, 0x90, 0xF0, 0x10, 0xF0,
    0xF0, 0x90, 0xF0, 0x90, 0x90, 0xE0, 0x90, 0xE0, 0x90, 0xE0,
    0xF0, 0x80, 0x80, 0x80, 0xF0, 0xE0, 0x90, 0x90, 0x90, 0xE0,
    0xF0, 0x80, 0xF0, 0x80, 0xF0, 0xF0, 0x80, 0xF0, 0x80, 0x80]

  /** The emulator's globals: memory, registers, stack, framebuffer, timers, key, draw flag, cadence state. */
  datatype State = State(
    memory: seq<Byte>,
    v: seq<Byte>,
    i: Word,
    pc: Word,
    sp: Word,
    stack: seq<Word>,
    gfx: seq<Byte>,
    delayTimer: Byte,
    soundTimer: Byte,
    key: Byte,
    drawFlag: bool,
    timerMarker: U32,
    cycleMarker: U32,
    rateModifier: U32)

  /** Every framebuffer byte is a whole pixel: 0x00 (unset) or 0xFF (set). */
  predicate Monochrome(g: seq<Byte>) {
    forall k :: 0 <= k < |g| ==> g[k] == 0 || g[k] == 0xFF
  }

  /** The shape of the globals, the stack bound and the one-byte-per-pixel framebuffer. */
  predicate Wf(s: State) {
    && |s.memory| == MemorySize
    && |s.v| == RegisterCount
    && |s.stack| == StackDepth
    && |s.gfx| == GfxSize
    && s.sp <= StackDepth
    && Monochrome(s.gfx)
  }

  /** EIncrementPC: whether emulateCycle adds 2 to PC after the handler returns. */
  datatype IncrementPC = Yes | No

  /** The state a handler leaves and what it returns. */
  datatype Outcome = Outcome(s: State, inc: IncrementPC)

  function SetV(s: State, r: int, b: Byte): State
    requires 0 <= r < |s.v|
  {
    s.(v := s.v[r := b])
  }

  /** incrementPC: `gPC += sizeof(UShort)` on a 16-bit PC. */
  function NextInstruction(pc: Word): Word {
    (pc + 2) % 0x1_0000
  }

  /** isKeyPressed: false while no key is held, otherwise whether the held key is `k`; so 0xFF is never reported pressed, even when asked about. */
  function IsKeyPressed(key: Byte, k: Byte): (pressed: bool)
    ensures pressed ==> k != InvalidKey
    ensures pressed <==> key == k && k != InvalidKey
  {
    if key != InvalidKey then key == k else false
  }

  /* ---------------- the sprite blit of DXYN ---------------- */

  /** The sprite and pixel bit test of the draw loop, `(b & (1 << shift)) >> shift`: binary digit `shift` of `b` (MaskedDigit). */
  function BitOf(b: Byte, shift: nat): (bit: Byte)
    requires shift < 8
    ensures bit == 0 || bit == 1
  {
    Bit(b, shift)
  }

  /** `(b & (1 << shift)) >> shift` computed on the byte is the binary digit BitOf reads. */
  lemma MaskedDigit(b: Byte, shift: nat)
    requires shift < 8
    ensures ShiftDown(Bitwise(And, b, Pow2(shift), 8), shift) == BitOf(b, shift)
  {
    MaskOneDigit(b, shift, 8);
    ShiftDownPower(shift);
  }

  /** `pixel ^ (bitToSet ? 0xFF : 0x00)` as the draw loop applies it: complemented when the sprite bit is set, kept otherwise (XorPixelIsXor). */
  function XorPixel(pixel: Byte, bitToSet: Byte): Byte {
    if bitToSet != 0 then 0xFF - pixel else pixel
  }

  /** XorPixel is the byte XOR with 0xFF or 0x00. */
  lemma XorPixelIsXor(pixel: Byte, bitToSet: Byte)
    ensures XorPixel(pixel, bitToSet) == ByteLogic(Xor, pixel, if bitToSet != 0 then 0xFF else 0x00)
  {
    ByteWidth();
    XorAllOnes(pixel, 8);
    XorZero(pixel, 8);
  }

  /** The framebuffer index of the sprite's top-left pixel: `vx + vy * 64`. */
  function Origin(vx: Byte, vy: Byte): int {
    vx as int + vy as int * 64
  }

  /**
   * Whether the draw loop has reached framebuffer byte `k` once rows `0..row-1` and then
   * columns `0..col-1` of row `row` are done. Row r, column c is byte `origin + r * 64 + c`,
   * so columns past the right edge spill into the next line.
   */
  predicate Visited(origin: int, row: int, col: int, k: int) {
    var d := k - origin;
    d >= 0 && ((d / 64 < row && d % 64 < SpriteRowBits) || (d / 64 == row && d % 64 < col))
  }

  /** Byte `origin + row * 64 + col` of a column inside the line sits at that row and column from the origin. */
  lemma PixelPosition(origin: int, row: int, col: int)
    requires 0 <= row && 0 <= col < GfxWidth
    ensures (origin + row * 64 + col - origin) / 64 == row
    ensures (origin + row * 64 + col - origin) % 64 == col
  {
  }

  /** Whether byte `k` has been reached and the sprite bit for it (bit `7 - c` of `memory[i + r]`) is set. */
  predicate Flips(memory: seq<Byte>, i: Word, origin: int, row: int, col: int, k: int) {
    && Visited(origin, row, col, k)
    && (k - origin) % 64 < SpriteRowBits
    && i + (k - origin) / 64 < |memory|
    && BitOf(memory[i + (k - origin) / 64], SpriteRowBits - 1 - (k - origin) % 64) == 1
  }

  /** The sprite loop's accesses stay inside gGfx and gMemory (the source does not check this). */
  predicate SpriteInBounds(i: Word, vx: Byte, vy: Byte, n: int) {
    n == 0 || (Origin(vx, vy) + (n - 1) * 64 + SpriteRowBits - 1 < GfxSize && i + n - 1 < MemorySize)
  }

  /**
   * The framebuffer after an `n`-row sprite at `origin` is XOR-blitted: each byte with a set
   * sprite bit is complemented (XorPixel with a set bit), the others are kept.
   */
  function Blit(gfx: seq<Byte>, memory: seq<Byte>, i: Word, origin: int, n: int): (g: seq<Byte>)
    ensures |g| == |gfx|
  {
    seq(|gfx|, k requires 0 <= k < |gfx| => if Flips(memory, i, origin, n, 0, k) then 0xFF - gfx[k] else gfx[k])
  }

  /** XOR with 0xFF maps a whole pixel to the other whole pixel, so a blit keeps the framebuffer monochrome. */
  lemma BlitKeepsMonochrome(gfx: seq<Byte>, memory: seq<Byte>, i: Word, origin: int, n: int)
    requires Monochrome(gfx)
    ensures Monochrome(Blit(gfx, memory, i, origin, n))
  {
    var g := Blit(gfx, memory, i, origin, n);
    forall k | 0 <= k < |g|
      ensures g[k] == 0 || g[k] == 0xFF
    {
      assert gfx[k] == 0 || gfx[k] == 0xFF;
    }
  }

  /** The collision test of the draw loop: some flipped byte had its own bit `7 - c` set beforehand. */
  predicate Collides(gfx: seq<Byte>, memory: seq<Byte>, i: Word, origin: int, n: int) {
    exists k :: 0 <= k < |gfx| && Flips(memory, i, origin, n, 0, k)
      && BitOf(gfx[k], SpriteRowBits - 1 - (k - origin) % 64) == 1
  }

  /* ---------------- the sixteen handler families of gVM ---------------- */

  /** 00E0 clears the screen and sets the draw flag; 00EE pops PC; any other 0NNN is reported and skipped. */
  function SystemFamily(s: State, op: Opcode): (o: Outcome)
    requires Wf(s)
    requires op == 0x00EE ==> s.sp > 0
    ensures Wf(o.s)
  {
    if op == 0x00E0 then
      Outcome(s.(gfx := seq(GfxSize, _ => 0), drawFlag := true), Yes)
    else if op == 0x00EE then
      Outcome(s.(sp := s.sp - 1, pc := s.stack[s.sp - 1]), Yes)
    else
      Outcome(s, Yes)
  }

  /** 1NNN: PC := NNN. */
  function Jump(s: State, op: Opcode): (o: Outcome)
    requires Wf(s)
    ensures Wf(o.s)
  {
    Outcome(s.(pc := NNN(op)), No)
  }

  /** 2NNN: push PC, then PC := NNN. */
  function Call(s: State, op: Opcode): (o: Outcome)
    requires Wf(s) && s.sp < StackDepth
    ensures Wf(o.s)
  {
    Outcome(s.(stack := s.stack[s.sp := s.pc], sp := s.sp + 1, pc := NNN(op)), No)
  }

  /** 3XNN: skip the next instruction if VX == NN. */
  function SkipIfEqual(s: State, op: Opcode): (o: Outcome)
    requires Wf(s)
    ensures Wf(o.s)
  {
    if s.v[X(op)] as int == NN(op) then Outcome(s.(pc := NextInstruction(s.pc)), Yes) else Outcome(s, Yes)
  }

  /** 4XNN: skip the next instruction if VX != NN. */
  function SkipIfNotEqual(s: State, op: Opcode): (o: Outcome)
    requires Wf(s)
    ensures Wf(o.s)
  {
    if s.v[X(op)] as int != NN(op) then Outcome(s.(pc := NextInstruction(s.pc)), Yes) else Outcome(s, Yes)
  }

  /** 5XY0 (the low nibble is not examined): skip the next instruction if VX == VY. */
  function SkipIfRegistersEqual(s: State, op: Opcode): (o: Outcome)
    requires Wf(s)
    ensures Wf(o.s)
  {
    if s.v[X(op)] == s.v[Y(op)] then Outcome(s.(pc := NextInstruction(s.pc)), Yes) else Outcome(s, Yes)
  }

  /** 6XNN: VX := NN. */
  function SetRegister(s: State, op: Opcode): (o: Outcome)
    requires Wf(s)
    ensures Wf(o.s)
  {
    Outcome(SetV(s, X(op), Truncate(NN(op))), Yes)
  }

  /** 7XNN: VX := VX + NN modulo 256, flag register untouched. */
  function AddImmediate(s: State, op: Opcode): (o: Outcome)
    requires Wf(s)
    ensures Wf(o.s)
  {
    Outcome(SetV(s, X(op), AddResult(s.v[X(op)], Truncate(NN(op)))), Yes)
  }

  /** 8XY6's two writes: VX := VY >> 1 (halving), then VY := VY & 0x01, reading VY after the first write. */
  function ShiftRightWrites(v: seq<Byte>, x: int, y: int): (w: seq<Byte>)
    requires 0 <= x < |v| && 0 <= y < |v|
    ensures |w| == |v|
  {
    var shifted := v[x := v[y] / 2];
    shifted[y := ByteLogic(And, shifted[y], 0x01)]
  }

  /** 8XYE's two writes: VX := VY << 1 (doubling, truncated to a byte), then VY := VY & 0x80, reading VY after the first write. */
  function ShiftLeftWrites(v: seq<Byte>, x: int, y: int): (w: seq<Byte>)
    requires 0 <= x < |v| && 0 <= y < |v|
    ensures |w| == |v|
  {
    var shifted := v[x := (v[y] as int * 2) % 0x100];
    shifted[y := ByteLogic(And, shifted[y], 0x80)]
  }

  /** The low nibbles 8XYN implements: 0-7 and E. */
  predicate KnownAluOp(n: int) {
    0x0 <= n <= 0x7 || n == 0xE
  }

  /** The value 8XY0-8XY3 write to VX: VY, VX | VY, VX & VY or VX ^ VY. */
  function LogicResult(vx: Byte, vy: Byte, n: int): Byte
    requires 0 <= n <= 3
  {
    if n == 0 then vy else if n == 1 then ByteLogic(Or, vx, vy) else if n == 2 then ByteLogic(And, vx, vy) else ByteLogic(Xor, vx, vy)
  }

  /**
   * The register file after 8XYN. Add and subtract write VF first and the destination
   * second, so with X = F the result wins. The shifts write VX and then mutate VY, reading
   * VY again, and never write VF.
   */
  function AluWrites(v: seq<Byte>, x: int, y: int, n: int): (w: seq<Byte>)
    requires |v| == RegisterCount && 0 <= x < RegisterCount && 0 <= y < RegisterCount
    ensures |w| == |v|
  {
    var vx, vy := v[x], v[y];
    if 0 <= n <= 3 then v[x := LogicResult(vx, vy, n)] else
    match n
    case 0x4 => v[FlagRegister := AddFlag(vx, vy)][x := AddResult(vx, vy)]
    case 0x5 => v[FlagRegister := SubtractFlag(vx, vy)][x := SubtractResult(vx, vy)]
    case 0x6 => ShiftRightWrites(v, x, y)
    case 0x7 => v[FlagRegister := SubtractFlag(vy, vx)][x := SubtractResult(vy, vx)]
    case 0xE => ShiftLeftWrites(v, x, y)
    case _ => v
  }

  /** 8XYN, the register ALU. An unknown N is reported and leaves PC where it is. */
  function ArithmeticFamily(s: State, op: Opcode): (o: Outcome)
    requires Wf(s)
    ensures Wf(o.s)
  {
    if KnownAluOp(N(op)) then Outcome(s.(v := AluWrites(s.v, X(op), Y(op), N(op))), Yes) else Outcome(s, No)
  }

  /** 9XY0 (the low nibble is not examined): skip the next instruction if VX != VY. */
  function SkipIfRegistersDiffer(s: State, op: Opcode): (o: Outcome)
    requires Wf(s)
    ensures Wf(o.s)
  {
    if s.v[X(op)] != s.v[Y(op)] then Outcome(s.(pc := NextInstruction(s.pc)), Yes) else Outcome(s, Yes)
  }

  /** ANNN: I := NNN. */
  function SetIndex(s: State, op: Opcode): (o: Outcome)
    requires Wf(s)
    ensures Wf(o.s)
  {
    Outcome(s.(i := NNN(op)), Yes)
  }

  /** BNNN: PC := V0 + NNN, and the handler still asks for the automatic advance. */
  function JumpOffset(s: State, op: Opcode): (o: Outcome)
    requires Wf(s)
    ensures Wf(o.s)
  {
    Outcome(s.(pc := s.v[0] as int + NNN(op)), Yes)
  }

  /** CXNN: VX := the platform's random byte, drawn from 0..NN. */
  function RandomMasked(s: State, op: Opcode, rand: Byte): (o: Outcome)
    requires Wf(s) && rand as int <= NN(op)
    ensures Wf(o.s)
  {
    Outcome(SetV(s, X(op), rand), Yes)
  }

  /** DXYN: XOR-blit N sprite rows from memory[I..] at (VX, VY); VF := collision; set the draw flag. */
  function DrawSprite(s: State, op: Opcode): (o: Outcome)
    requires Wf(s)
    ensures Wf(o.s)
  {
    BlitKeepsMonochrome(s.gfx, s.memory, s.i, Origin(s.v[X(op)], s.v[Y(op)]), N(op));
    var origin := Origin(s.v[X(op)], s.v[Y(op)]);
    var collision := Collides(s.gfx, s.memory, s.i, origin, N(op));
    Outcome(s.(gfx := Blit(s.gfx, s.memory, s.i, origin, N(op)),
               v := s.v[FlagRegister := if collision then 1 else 0],
               drawFlag := true), Yes)
  }

  /** EX9E / EXA1: skip if the key in VX is / is not held; any other low byte leaves PC where it is. */
  function KeyFamily(s: State, op: Opcode): (o: Outcome)
    requires Wf(s)
    ensures Wf(o.s)
  {
    var pressed := IsKeyPressed(s.key, s.v[X(op)]);
    match NN(op)
    case 0x9E => if pressed then Outcome(s.(pc := NextInstruction(s.pc)), Yes) else Outcome(s, Yes)
    case 0xA1 => if !pressed then Outcome(s.(pc := NextInstruction(s.pc)), Yes) else Outcome(s, Yes)
    case _ => Outcome(s, No)
  }

  /** FX55: memory[I + k] := Vk for k in 0..X. */
  function StoreRegisters(memory: seq<Byte>, i: Word, v: seq<Byte>, x: int): (m: seq<Byte>)
    requires 0 <= x < |v|
    ensures |m| == |memory|
  {
    seq(|memory|, a requires 0 <= a < |memory| => if i <= a <= i + x then v[a - i] else memory[a])
  }

  /** FX65: Vk := memory[I + k] for k in 0..X. */
  function LoadRegisters(v: seq<Byte>, memory: seq<Byte>, i: Word, x: int): (r: seq<Byte>)
    requires i + x < |memory|
    ensures |r| == |v|
  {
    seq(|v|, k requires 0 <= k < |v| => if k <= x then memory[i + k] else v[k])
  }

  /**
   * FX33's three bytes: `vx / 100`, `(vx / 10) % 10` and `(vx % 10) % 10`, computed on the
   * promoted int and stored as bytes. They are the decimal digits of VX, most significant first.
   */
  function Digits(vx: Byte): (d: seq<Byte>)
    ensures |d| == 3 && d[0] as int < 10 && d[1] as int < 10 && d[2] as int < 10
    ensures d[0] as int * 100 + d[1] as int * 10 + d[2] as int == vx as int
  {
    var n := vx as int;
    var hundreds, tens, units := n / 100, (n / 10) % 10, (n % 10) % 10;
    DecimalDigits(n, hundreds, tens, units);
    [hundreds, tens, units]
  }

  /** Hundreds, tens and units of a number below 256 are decimal digits that recompose it. */
  lemma DecimalDigits(n: int, hundreds: int, tens: int, units: int)
    requires 0 <= n < 0x100
    requires hundreds == n / 100 && tens == (n / 10) % 10 && units == (n % 10) % 10
    ensures 0 <= hundreds < 10 && 0 <= tens < 10 && 0 <= units < 10
    ensures hundreds * 100 + tens * 10 + units == n
  {
    var q := n / 10;
    assert n == 10 * q + n % 10;
    assert q == 10 * (q / 10) + q % 10;
    assert q / 10 == n / 100;
  }

  /** FX07, FX0A, FX15, FX18, FX1E, FX29, FX33, FX55, FX65; any other low byte leaves PC where it is. */
  function MiscFamily(s: State, op: Opcode): (o: Outcome)
    requires Wf(s)
    requires NN(op) == 0x33 ==> s.i + 2 < MemorySize
    requires NN(op) == 0x55 || NN(op) == 0x65 ==> s.i + X(op) < MemorySize
    ensures Wf(o.s)
  {
    var x := X(op);
    var vx := s.v[x];
    match NN(op)
    case 0x07 => Outcome(SetV(s, x, s.delayTimer), Yes)
    case 0x0A => if s.key != InvalidKey then Outcome(SetV(s, x, s.key), Yes) else Outcome(s, No)
    case 0x15 => Outcome(s.(delayTimer := vx), Yes)
    case 0x18 => Outcome(s.(soundTimer := vx), Yes)
    case 0x1E => Outcome(s.(i := (s.i + vx as int) % 0x1_0000), Yes)
    case 0x29 => Outcome(s.(i := FontBase + vx as int * 5), Yes)
    case 0x33 =>
      var d := Digits(vx);
      Outcome(s.(memory := s.memory[s.i := d[0]][s.i + 1 := d[1]][s.i + 2 := d[2]]), Yes)
    case 0x55 => Outcome(s.(memory := StoreRegisters(s.memory, s.i, s.v, x)), Yes)
    case 0x65 => Outcome(s.(v := LoadRegisters(s.v, s.memory, s.i, x)), Yes)
    case _ => Outcome(s, No)
  }

  /* ---------------- dispatch, cycle, timers, input, initialisation ---------------- */

  /** The accesses the source leaves unchecked stay in range, and the random byte is one CXNN can get. */
  predicate Safe(s: State, op: Opcode, rand: Byte)
    requires Wf(s)
  {
    match Family(op)
    case 0x0 => op == 0x00EE ==> s.sp > 0
    case 0x2 => s.sp < StackDepth
    case 0xC => rand as int <= NN(op)
    case 0xD => SpriteInBounds(s.i, s.v[X(op)], s.v[Y(op)], N(op))
    case 0xF =>
      && (NN(op) == 0x33 ==> s.i + 2 < MemorySize)
      && (NN(op) == 0x55 || NN(op) == 0x65 ==> s.i + X(op) < MemorySize)
    case _ => true
  }

  /** `gVM[maskShiftF000(op)](op)`: the handler selected by the top nibble. */
  function Handle(s: State, op: Opcode, rand: Byte): (o: Outcome)
    requires Wf(s) && Safe(s, op, rand)
    ensures Wf(o.s)
  {
    match Family(op)
    case 0x0 => SystemFamily(s, op)
    case 0x1 => Jump(s, op)
    case 0x2 => Call(s, op)
    case 0x3 => SkipIfEqual(s, op)
    case 0x4 => SkipIfNotEqual(s, op)
    case 0x5 => SkipIfRegistersEqual(s, op)
    case 0x6 => SetRegister(s, op)
    case 0x7 => AddImmediate(s, op)
    case 0x8 => ArithmeticFamily(s, op)
    case 0x9 => SkipIfRegistersDiffer(s, op)
    case 0xA => SetIndex(s, op)
    case 0xB => JumpOffset(s, op)
    case 0xC => RandomMasked(s, op, rand)
    case 0xD => DrawSprite(s, op)
    case 0xE => KeyFamily(s, op)
    case _ => MiscFamily(s, op)
  }

  /** Decode and execute one instruction word, then advance PC by 2 if the handler returned Yes. */
  function Execute(s: State, op: Opcode, rand: Byte): (t: State)
    requires Wf(s) && Safe(s, op, rand)
    ensures Wf(t)
  {
    var o := Handle(s, op, rand);
    if o.inc == Yes then o.s.(pc := NextInstruction(o.s.pc)) else o.s
  }

  /** The instruction cadence's period: kCycleUpdateRateBase + gCycleUpdateRateModifierMS as a UInt32. */
  function CyclePeriod(s: State): U32 {
    (CycleRateBase + s.rateModifier) % 0x1_0000_0000
  }

  /** The instruction cadence's answer at tick reading `ticks`. */
  function CyclePoll(s: State, ticks: U32): Cadence.Poll {
    Cadence.Next(s.cycleMarker, ticks, CyclePeriod(s))
  }

  /** When the cadence lets a cycle run, the fetch and the fetched instruction stay in range. */
  predicate CycleSafe(s: State, ticks: U32, rand: Byte)
    requires Wf(s)
  {
    var p := CyclePoll(s, ticks);
    p.ready ==> s.pc + 1 < MemorySize && Safe(s.(cycleMarker := p.marker), Fetch(s.memory, s.pc), rand)
  }

  /** emulateCycle: ask the instruction cadence; if it is ready, fetch at PC and execute. */
  function EmulateCycle(s: State, ticks: U32, rand: Byte): (t: State)
    requires Wf(s) && CycleSafe(s, ticks, rand)
    ensures Wf(t)
  {
    var p := CyclePoll(s, ticks);
    var s1 := s.(cycleMarker := p.marker);
    if p.ready then Execute(s1, Fetch(s1.memory, s1.pc), rand) else s1
  }

  /** The result of updateTimers: the new state and the audio gate (platformPlaySound when true). */
  datatype TimerUpdate = TimerUpdate(s: State, soundOn: bool)

  /** One 60 Hz step of a timer: down by one, stopping at zero. */
  function TimerStep(t: Byte): (r: Byte)
    ensures r <= t && t - r <= 1
    ensures r == t <==> t == 0
  {
    if t > 0 then t - 1 else t
  }

  /** updateTimers: gate the sound on the current sound timer, then count both timers down on a 60 Hz tick. */
  function UpdateTimers(s: State, ticks: U32): (u: TimerUpdate)
    ensures Wf(s) ==> Wf(u.s)
  {
    var soundOn := s.soundTimer > 0;
    var p := Cadence.Next(s.timerMarker, ticks, TimerPeriod);
    var s1 := s.(timerMarker := p.marker);
    if p.ready then
      TimerUpdate(s1.(delayTimer := TimerStep(s.delayTimer), soundTimer := TimerStep(s.soundTimer)), soundOn)
    else
      TimerUpdate(s1, soundOn)
  }

  /** The modifier update of pollInput: slower on a negative hint, faster (never below one delta) on a positive one. */
  function AdjustRate(modifier: U32, hint: int): U32 {
    if hint < 0 then
      (modifier + CycleRateDelta) % 0x1_0000_0000
    else if hint > 0 then
      (if modifier > CycleRateDelta then modifier - CycleRateDelta else modifier)
    else
      modifier
  }

  /** pollInput after the platform answered with the key slot's new value and a rate hint. */
  function PollInput(s: State, key: Byte, hint: int): (t: State)
    ensures Wf(s) ==> Wf(t)
  {
    s.(key := key, rateModifier := AdjustRate(s.rateModifier, hint))
  }

  /** The globals as the program starts: static storage is zero. */
  function PowerOn(): (s: State)
    ensures Wf(s)
  {
    State(seq(MemorySize, _ => 0), seq(RegisterCount, _ => 0), 0, 0, 0, seq(StackDepth, _ => 0),
          seq(GfxSize, _ => 0), 0, 0, 0, false, 0, 0, 0)
  }

  /** initialise: PC = 0x200, I = SP = 0, no key, the font at 0x50, cadences unarmed, modifier 0. */
  function Initialise(s: State): (t: State)
    requires Wf(s)
    ensures Wf(t)
  {
    s.(pc := PcStart, i := 0, sp := 0, key := InvalidKey,
       memory := s.memory[..FontBase] + FontSet + s.memory[FontBase + |FontSet|..],
       timerMarker := 0, cycleMarker := 0, drawFlag := false, rateModifier := 0)
  }
}
