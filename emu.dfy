/**
 * The emulator of Emu.cpp as it runs: the globals gMemory, gV, gStack and gGfx are arrays
 * updated in place, the scalar globals are fields, and each handler of the gVM table is a
 * method whose effect is proved equal to the corresponding function of module Machine.
 */
module Emu {
  import opened EmuTypes
  import opened Decode
  import opened Alu
  import opened Bits
  import opened Machine
  import Cadence

  class Chip8 {
    const memory: array<Byte>
    const v: array<Byte>
    const stack: array<Word>
    const gfx: array<Byte>
    var i: Word
    var pc: Word
    var sp: Word
    var delayTimer: Byte
    var soundTimer: Byte
    var key: Byte
    var drawFlag: bool
    var timerMarker: U32
    var cycleMarker: U32
    var rateModifier: U32

    /** The array sizes of the globals, four distinct arrays, the stack bound and whole pixels. */
    ghost predicate Valid()
      reads this, gfx
    {
      && memory.Length == MemorySize && v.Length == RegisterCount
      && stack.Length == StackDepth && gfx.Length == GfxSize
      && memory != v && memory != gfx && v != gfx
      && stack as object != memory && stack as object != v && stack as object != gfx
      && sp <= StackDepth
      && Monochrome(gfx[..])
    }

    /** The globals as a Machine.State. */
    ghost function Abs(): (s: State)
      reads this, memory, v, stack, gfx
      requires Valid()
      ensures Wf(s)
    {
      State(memory[..], v[..], i, pc, sp, stack[..], gfx[..], delayTimer, soundTimer, key, drawFlag,
            timerMarker, cycleMarker, rateModifier)
    }

    /** Static storage at program start: everything zero. */
    constructor ()
      ensures Valid() && Abs() == PowerOn()
      ensures fresh(memory) && fresh(v) && fresh(stack) && fresh(gfx)
    {
      memory := new Byte[MemorySize](_ => 0);
      v := new Byte[RegisterCount](_ => 0);
      stack := new Word[StackDepth](_ => 0);
      gfx := new Byte[GfxSize](_ => 0);
      i, pc, sp := 0, 0, 0;
      delayTimer, soundTimer, key := 0, 0, 0;
      drawFlag := false;
      timerMarker, cycleMarker, rateModifier := 0, 0, 0;
    }

    /** 00E0 (cls, draw flag), 00EE (popStack) and 0NNN (reported, skipped). */
    method SystemOp(op: Opcode) returns (inc: IncrementPC)
      requires Valid() && (op == 0x00EE ==> sp > 0)
      modifies this, gfx
      ensures Valid() && Outcome(Abs(), inc) == SystemFamily(old(Abs()), op)
    {
      if op == 0x00E0 {
        forall k | 0 <= k < gfx.Length {
          gfx[k] := 0;
        }
        drawFlag := true;
        return Yes;
      } else if op == 0x00EE {
        sp := sp - 1;
        pc := stack[sp];
        return Yes;
      }
      return Yes;
    }

    /** 1NNN. */
    method JumpOp(op: Opcode) returns (inc: IncrementPC)
      requires Valid()
      modifies this
      ensures Valid() && Outcome(Abs(), inc) == Jump(old(Abs()), op)
    {
      pc := NNN(op);
      return No;
    }

    /** 2NNN: pushStack, then PC := NNN. */
    method CallOp(op: Opcode) returns (inc: IncrementPC)
      requires Valid() && sp < StackDepth
      modifies this, stack
      ensures Valid() && Outcome(Abs(), inc) == Call(old(Abs()), op)
    {
      stack[sp] := pc;
      assert stack[..] == old(stack[..])[sp := pc];
      sp := sp + 1;
      pc := NNN(op);
      return No;
    }

    /** incrementPC. */
    method IncrementPc()
      requires Valid()
      modifies this
      ensures Valid() && Abs() == old(Abs()).(pc := NextInstruction(old(pc)))
    {
      pc := (pc + 2) % 0x1_0000;
    }

    /** 3XNN. */
    method SkipIfEqualOp(op: Opcode) returns (inc: IncrementPC)
      requires Valid()
      modifies this
      ensures Valid() && Outcome(Abs(), inc) == SkipIfEqual(old(Abs()), op)
    {
      var vx := v[X(op)];
      if vx as int == NN(op) {
        IncrementPc();
      }
      return Yes;
    }

    /** 4XNN. */
    method SkipIfNotEqualOp(op: Opcode) returns (inc: IncrementPC)
      requires Valid()
      modifies this
      ensures Valid() && Outcome(Abs(), inc) == SkipIfNotEqual(old(Abs()), op)
    {
      var vx := v[X(op)];
      if vx as int != NN(op) {
        IncrementPc();
      }
      return Yes;
    }

    /** 5XY0. */
    method SkipIfRegistersEqualOp(op: Opcode) returns (inc: IncrementPC)
      requires Valid()
      modifies this
      ensures Valid() && Outcome(Abs(), inc) == SkipIfRegistersEqual(old(Abs()), op)
    {
      var vx, vy := v[X(op)], v[Y(op)];
      if vx == vy {
        IncrementPc();
      }
      return Yes;
    }

    /** 6XNN. */
    method SetRegisterOp(op: Opcode) returns (inc: IncrementPC)
      requires Valid()
      modifies v
      ensures Valid() && Outcome(Abs(), inc) == SetRegister(old(Abs()), op)
    {
      v[X(op)] := Truncate(NN(op));
      assert v[..] == old(v[..])[X(op) := Truncate(NN(op))];
      return Yes;
    }

    /** 7XNN: addToRegister without the flag. */
    method AddImmediateOp(op: Opcode) returns (inc: IncrementPC)
      requires Valid()
      modifies v
      ensures Valid() && Outcome(Abs(), inc) == AddImmediate(old(Abs()), op)
    {
      var x := X(op);
      var r := AddResult(v[x], Truncate(NN(op)));
      v[x] := r;
      assert v[..] == old(v[..])[x := r];
      return Yes;
    }

    /** 8XY0-8XY3: VX := VY, VX | VY, VX & VY or VX ^ VY. */
    method LogicWrite(x: int, y: int, n: int)
      requires v.Length == RegisterCount && 0 <= x < RegisterCount && 0 <= y < RegisterCount && 0 <= n <= 3
      modifies v
      ensures v[..] == AluWrites(old(v[..]), x, y, n)
    {
      v[x] := LogicResult(v[x], v[y], n);
    }

    /** 8XY4, 8XY5, 8XY7: VF := the flag, then VX := the wrapped result. */
    method FlagWrite(x: int, y: int, n: int)
      requires v.Length == RegisterCount && 0 <= x < RegisterCount && 0 <= y < RegisterCount
      requires n == 4 || n == 5 || n == 7
      modifies v
      ensures v[..] == AluWrites(old(v[..]), x, y, n)
    {
      var vx, vy := v[x], v[y];
      var flag, r;
      if n == 4 {
        flag, r := AddFlag(vx, vy), AddResult(vx, vy);
      } else if n == 5 {
        flag, r := SubtractFlag(vx, vy), SubtractResult(vx, vy);
      } else {
        var yCopy, xCopy := vy, vx;
        flag, r := SubtractFlag(yCopy, xCopy), SubtractResult(yCopy, xCopy);
      }
      v[FlagRegister] := flag;
      v[x] := r;
      assert v[..] == old(v[..])[FlagRegister := flag][x := r];
    }

    /** 8XY6 and 8XYE: VX := VY shifted, then VY := VY masked (VY read again after the first write). */
    method ShiftWrite(x: int, y: int, n: int)
      requires v.Length == RegisterCount && 0 <= x < RegisterCount && 0 <= y < RegisterCount
      requires n == 6 || n == 0xE
      modifies v
      ensures v[..] == AluWrites(old(v[..]), x, y, n)
    {
      if n == 6 {
        v[x] := v[y] / 2;
        v[y] := ByteLogic(And, v[y], 0x01);
        assert v[..] == ShiftRightWrites(old(v[..]), x, y);
      } else {
        v[x] := (v[y] as int * 2) % 0x100;
        v[y] := ByteLogic(And, v[y], 0x80);
        assert v[..] == ShiftLeftWrites(old(v[..]), x, y);
      }
    }

    /** 8XYN: a known N writes the registers; any other is reported and leaves PC where it is. */
    method ArithmeticOp(op: Opcode) returns (inc: IncrementPC)
      requires Valid()
      modifies v
      ensures Valid() && Outcome(Abs(), inc) == ArithmeticFamily(old(Abs()), op)
    {
      var n := N(op);
      if n <= 3 {
        LogicWrite(X(op), Y(op), n);
      } else if n == 4 || n == 5 || n == 7 {
        FlagWrite(X(op), Y(op), n);
      } else if n == 6 || n == 0xE {
        ShiftWrite(X(op), Y(op), n);
      } else {
        return No;
      }
      return Yes;
    }

    /** 9XY0. */
    method SkipIfRegistersDifferOp(op: Opcode) returns (inc: IncrementPC)
      requires Valid()
      modifies this
      ensures Valid() && Outcome(Abs(), inc) == SkipIfRegistersDiffer(old(Abs()), op)
    {
      var vx, vy := v[X(op)], v[Y(op)];
      if vx != vy {
        IncrementPc();
      }
      return Yes;
    }

    /** ANNN. */
    method SetIndexOp(op: Opcode) returns (inc: IncrementPC)
      requires Valid()
      modifies this
      ensures Valid() && Outcome(Abs(), inc) == SetIndex(old(Abs()), op)
    {
      i := NNN(op);
      return Yes;
    }

    /** BNNN: the sum of V0 and NNN is below 2^16, so the 16-bit PC holds it as is. */
    method JumpOffsetOp(op: Opcode) returns (inc: IncrementPC)
      requires Valid()
      modifies this
      ensures Valid() && Outcome(Abs(), inc) == JumpOffset(old(Abs()), op)
    {
      pc := v[0] as int + NNN(op);
      return Yes;
    }

    /** CXNN, with the draw of the uniform distribution on 0..NN passed in as `rand`. */
    method RandomOp(op: Opcode, rand: Byte) returns (inc: IncrementPC)
      requires Valid() && rand as int <= NN(op)
      modifies v
      ensures Valid() && Outcome(Abs(), inc) == RandomMasked(old(Abs()), op, rand)
    {
      v[X(op)] := rand;
      assert v[..] == old(v[..])[X(op) := rand];
      return Yes;
    }

    /**
     * One row of DXYN: for each of the 8 columns, XOR the byte at `origin + row * 64 + col`
     * with 0xFF when bit `7 - col` of memory[I + row] is set, noting a collision when that
     * byte's own bit `7 - col` was set too.
     */
    method DrawRow(origin: int, row: int, ghost before: seq<Byte>, ghost n: int, collision: bool) returns (flagCollision: bool)
      requires memory.Length == MemorySize && gfx.Length == GfxSize && memory != gfx
      requires SpriteFits(before, memory[..], i, origin, n) && 0 <= row < n && |before| == GfxSize
      requires gfx[..] == SweepTo(before, memory[..], i, origin, n, row, 0).gfx
      requires collision == SweepTo(before, memory[..], i, origin, n, row, 0).collision
      modifies gfx
      ensures gfx[..] == SweepTo(before, memory[..], i, origin, n, row + 1, 0).gfx
      ensures flagCollision == SweepTo(before, memory[..], i, origin, n, row + 1, 0).collision
    {
      var gfxIndex := origin + row * 64;
      var byteToSet := memory[i + row];
      ghost var mem := memory[..];
      flagCollision := collision;
      var col := 0;
      while col < SpriteRowBits
        invariant 0 <= col <= SpriteRowBits
        invariant gfx[..] == SweepTo(before, mem, i, origin, n, row, col).gfx
        invariant flagCollision == SweepTo(before, mem, i, origin, n, row, col).collision
      {
        var shift := SpriteRowBits - 1 - col;
        SweepNext(before, mem, i, origin, n, row, col);
        ghost var prev := gfx[..];
        var bit := BitOf(byteToSet, shift);
        var hit := FlipPixel(gfxIndex + col, bit, shift);
        assert hit <==> BitOf(prev[gfxIndex + col], shift) != 0 && bit != 0;
        assert gfx[..] == prev[gfxIndex + col := XorPixel(prev[gfxIndex + col], bit)];
        if hit {
          flagCollision := true;
        }
        col := col + 1;
      }
    }

    /** The innermost step of DXYN: test the byte's own bit `shift` against the sprite bit, then XOR the byte with 0xFF if the sprite bit is set. */
    method FlipPixel(index: int, bitToSet: Byte, shift: nat) returns (hit: bool)
      requires 0 <= index < gfx.Length && shift < 8
      modifies gfx
      ensures gfx[..] == old(gfx[..])[index := XorPixel(old(gfx[index]), bitToSet)]
      ensures hit <==> BitOf(old(gfx[index]), shift) != 0 && bitToSet != 0
    {
      var existingBit := BitOf(gfx[index], shift);
      hit := existingBit != 0 && bitToSet != 0;
      gfx[index] := XorPixel(gfx[index], bitToSet);
    }

    /** The row loop of DXYN: the framebuffer becomes the blit of the sprite and the result says whether it collided. */
    method DrawRows(origin: int, height: int) returns (flagCollision: bool)
      requires memory.Length == MemorySize && gfx.Length == GfxSize && memory != gfx
      requires SpriteFits(gfx[..], memory[..], i, origin, height)
      modifies gfx
      ensures gfx[..] == Blit(old(gfx[..]), memory[..], i, origin, height)
      ensures flagCollision == Collides(old(gfx[..]), memory[..], i, origin, height)
    {
      ghost var before := gfx[..];
      flagCollision := false;
      var row := 0;
      while row < height
        invariant 0 <= row <= height
        invariant gfx[..] == SweepTo(before, memory[..], i, origin, height, row, 0).gfx
        invariant flagCollision == SweepTo(before, memory[..], i, origin, height, row, 0).collision
      {
        flagCollision := DrawRow(origin, row, before, height, flagCollision);
        row := row + 1;
      }
      SweepDraws(before, memory[..], i, origin, height);
    }

    /** DXYN: XOR-blit N sprite rows at (VX, VY), then VF := whether any set pixel was cleared, and set the draw flag. */
    method DrawOp(op: Opcode) returns (inc: IncrementPC)
      requires Valid() && SpriteInBounds(i, v[X(op)], v[Y(op)], N(op))
      modifies this, v, gfx
      ensures Valid() && Outcome(Abs(), inc) == DrawSprite(old(Abs()), op)
    {
      var vx, vy := v[X(op)], v[Y(op)];
      var origin := Origin(vx, vy);
      BlitKeepsMonochrome(gfx[..], memory[..], i, origin, N(op));
      var flagCollision := DrawRows(origin, N(op));
      v[FlagRegister] := if flagCollision then 1 else 0;
      drawFlag := true;
      return Yes;
    }

    /** EX9E / EXA1. */
    method KeyOp(op: Opcode) returns (inc: IncrementPC)
      requires Valid()
      modifies this
      ensures Valid() && Outcome(Abs(), inc) == KeyFamily(old(Abs()), op)
    {
      var vx := v[X(op)];
      match NN(op)
      case 0x9E =>
        if IsKeyPressed(key, vx) {
          IncrementPc();
        }
        return Yes;
      case 0xA1 =>
        if !IsKeyPressed(key, vx) {
          IncrementPc();
        }
        return Yes;
      case _ =>
        return No;
    }

    /** FX33: the hundreds, tens and units of VX at I, I + 1 and I + 2. */
    method StoreDigitsOp(x: int)
      requires Valid() && 0 <= x < RegisterCount && i + 2 < MemorySize
      modifies memory
      ensures Valid()
      ensures memory[..] == old(memory[..])[i := Digits(v[x])[0]][i + 1 := Digits(v[x])[1]][i + 2 := Digits(v[x])[2]]
    {
      var digits := Digits(v[x]);
      memory[i] := digits[0];
      memory[i + 1] := digits[1];
      memory[i + 2] := digits[2];
    }

    /** FX55: memory[I + k] := Vk for k = 0 .. X. */
    method StoreRegistersOp(x: int)
      requires Valid() && 0 <= x < RegisterCount && i + x < MemorySize
      modifies memory
      ensures Valid() && memory[..] == StoreRegisters(old(memory[..]), i, v[..], x)
    {
      var k := 0;
      while k <= x
        invariant 0 <= k <= x + 1
        invariant forall a :: 0 <= a < MemorySize ==> memory[a] == if i <= a < i + k then v[a - i] else old(memory[a])
      {
        memory[i + k] := v[k];
        k := k + 1;
      }
    }

    /** FX65: Vk := memory[I + k] for k = 0 .. X. */
    method LoadRegistersOp(x: int)
      requires Valid() && 0 <= x < RegisterCount && i + x < MemorySize
      modifies v
      ensures Valid() && v[..] == LoadRegisters(old(v[..]), memory[..], i, x)
    {
      var k := 0;
      while k <= x
        invariant 0 <= k <= x + 1
        invariant forall r :: 0 <= r < RegisterCount ==> v[r] == if r < k then memory[i + r] else old(v[r])
      {
        v[k] := memory[i + k];
        k := k + 1;
      }
    }

    /** FX07 .. FX65. */
    method MiscOp(op: Opcode) returns (inc: IncrementPC)
      requires Valid()
      requires NN(op) == 0x33 ==> i + 2 < MemorySize
      requires NN(op) == 0x55 || NN(op) == 0x65 ==> i + X(op) < MemorySize
      modifies this, v, memory
      ensures Valid() && Outcome(Abs(), inc) == MiscFamily(old(Abs()), op)
    {
      var x := X(op);
      inc := Yes;
      match NN(op)
      case 0x07 =>
        v[x] := delayTimer;
        assert v[..] == old(v[..])[x := delayTimer];
      case 0x0A =>
        if key != InvalidKey {
          v[x] := key;
          assert v[..] == old(v[..])[x := key];
        } else {
          inc := No;
        }
      case 0x15 =>
        delayTimer := v[x];
      case 0x18 =>
        soundTimer := v[x];
      case 0x1E =>
        i := (i + v[x] as int) % 0x1_0000;
      case 0x29 =>
        i := FontBase + v[x] as int * 5;
      case 0x33 =>
        StoreDigitsOp(x);
      case 0x55 =>
        StoreRegistersOp(x);
      case 0x65 =>
        LoadRegistersOp(x);
      case _ =>
        inc := No;
    }

    /** `gVM[maskShiftF000(op)](op)`: the handler selected by the top nibble. */
    method HandleOp(op: Opcode, rand: Byte) returns (inc: IncrementPC)
      requires Valid() && Safe(Abs(), op, rand)
      modifies this, memory, v, stack, gfx
      ensures Valid() && Outcome(Abs(), inc) == Handle(old(Abs()), op, rand)
    {
      match Family(op)
      case 0x0 => inc := SystemOp(op);
      case 0x1 => inc := JumpOp(op);
      case 0x2 => inc := CallOp(op);
      case 0x3 => inc := SkipIfEqualOp(op);
      case 0x4 => inc := SkipIfNotEqualOp(op);
      case 0x5 => inc := SkipIfRegistersEqualOp(op);
      case 0x6 => inc := SetRegisterOp(op);
      case 0x7 => inc := AddImmediateOp(op);
      case 0x8 => inc := ArithmeticOp(op);
      case 0x9 => inc := SkipIfRegistersDifferOp(op);
      case 0xA => inc := SetIndexOp(op);
      case 0xB => inc := JumpOffsetOp(op);
      case 0xC => inc := RandomOp(op, rand);
      case 0xD => inc := DrawOp(op);
      case 0xE => inc := KeyOp(op);
      case 0xF => inc := MiscOp(op);
    }

    /** A decoded instruction: its handler, then incrementPC when the handler asks for it. */
    method ExecuteOp(op: Opcode, rand: Byte)
      requires Valid() && Safe(Abs(), op, rand)
      modifies this, memory, v, stack, gfx
      ensures Valid() && Abs() == Execute(old(Abs()), op, rand)
    {
      var inc := HandleOp(op, rand);
      if inc == Yes {
        IncrementPc();
      }
    }

    /**
     * emulateCycle: when the instruction cadence (period 1 + modifier, as a UInt32) is ready,
     * fetch the big-endian word at PC and execute it.
     */
    method EmulateCycle(ticks: U32, rand: Byte)
      requires Valid() && CycleSafe(Abs(), ticks, rand)
      modifies this, memory, v, stack, gfx
      ensures Valid() && Abs() == Machine.EmulateCycle(old(Abs()), ticks, rand)
    {
      var ready, marker := Cadence.CanUpdate(cycleMarker, ticks, (CycleRateBase + rateModifier) % 0x1_0000_0000);
      cycleMarker := marker;
      if !ready {
        return;
      }
      var op := ShortSwap(LoadNative(memory[pc], memory[pc + 1]));
      assert op == Fetch(memory[..], pc);
      ExecuteOp(op, rand);
    }

    /**
     * updateTimers: the sound is on exactly while the sound timer is nonzero; on a ready
     * 60 Hz tick both timers count down, stopping at zero.
     */
    method UpdateTimers(ticks: U32) returns (soundOn: bool)
      requires Valid()
      modifies this
      ensures Valid()
      ensures Abs() == Machine.UpdateTimers(old(Abs()), ticks).s
      ensures soundOn == Machine.UpdateTimers(old(Abs()), ticks).soundOn
    {
      soundOn := soundTimer > 0;
      var ready, marker := Cadence.CanUpdate(timerMarker, ticks, TimerPeriod);
      timerMarker := marker;
      if ready {
        delayTimer, soundTimer := TimerStep(delayTimer), TimerStep(soundTimer);
      }
    }

    /**
     * pollInput, after the platform has written the key slot (`newKey`) and a rate hint:
     * a negative hint adds one delta to the modifier, a positive one removes a delta only
     * while the modifier exceeds it; the platform's quit answer is passed through.
     */
    method PollInput(platformQuit: bool, newKey: Byte, hint: int) returns (quit: bool)
      requires Valid()
      modifies this
      ensures Valid() && Abs() == Machine.PollInput(old(Abs()), newKey, hint) && quit == platformQuit
    {
      key := newKey;
      if hint < 0 {
        rateModifier := (rateModifier + CycleRateDelta) % 0x1_0000_0000;
      } else if hint > 0 {
        if rateModifier > CycleRateDelta {
          rateModifier := rateModifier - CycleRateDelta;
        }
      }
      return platformQuit;
    }

    /** `memcpy(&gMemory[base], bytes, |bytes|)`: the bytes land at `base`, every other cell is kept. */
    method CopyToMemory(base: int, bytes: seq<Byte>)
      requires 0 <= base && base + |bytes| <= memory.Length
      modifies memory
      ensures memory[..] == old(memory[..])[..base] + bytes + old(memory[..])[base + |bytes|..]
    {
      var k := 0;
      while k < |bytes|
        invariant 0 <= k <= |bytes|
        invariant forall a :: 0 <= a < memory.Length ==> memory[a] == if base <= a < base + k then bytes[a - base] else old(memory[a])
      {
        memory[base + k] := bytes[k];
        k := k + 1;
      }
      assert memory[..] == old(memory[..])[..base] + bytes + old(memory[..])[base + |bytes|..];
    }

    /** initialise: registers to their start values, then the font copied to memory[0x50 .. 0xA0). */
    method Initialise()
      requires Valid()
      modifies this, memory
      ensures Valid() && Abs() == Machine.Initialise(old(Abs()))
    {
      ghost var s0 := Abs();
      pc := PcStart;
      i := 0;
      sp := 0;
      key := InvalidKey;
      CopyToMemory(FontBase, FontSet);
      timerMarker := 0;
      cycleMarker := 0;
      drawFlag := false;
      rateModifier := 0;
      assert v[..] == s0.v && stack[..] == s0.stack && gfx[..] == s0.gfx;
    }
  }

  /** The framebuffer after the draw loop has covered rows `0..row-1` and columns `0..col-1` of row `row`. */
  ghost function BlitSoFar(before: seq<Byte>, mem: seq<Byte>, index: Word, origin: int, row: int, col: int): (g: seq<Byte>)
    ensures |g| == |before|
  {
    seq(|before|, k requires 0 <= k < |before| => if Flips(mem, index, origin, row, col, k) then 0xFF - before[k] else before[k])
  }

  /** The collision flag once the draw loop has covered rows `0..row-1` and columns `0..col-1` of row `row`. */
  ghost predicate CollidesSoFar(before: seq<Byte>, mem: seq<Byte>, index: Word, origin: int, row: int, col: int) {
    exists k :: 0 <= k < |before| && Flips(mem, index, origin, row, col, k)
      && BitOf(before[k], SpriteRowBits - 1 - (k - origin) % 64) == 1
  }

  /** One column of the draw loop adds exactly byte `origin + row * 64 + col` (when its sprite bit is set) to the flipped bytes. */
  lemma FlipsColumnStep(mem: seq<Byte>, index: Word, origin: int, row: int, col: int, k: int)
    requires 0 <= row && 0 <= col < SpriteRowBits && index + row < |mem|
    ensures var p := origin + row * 64 + col;
      && !Visited(origin, row, col, p)
      && (Flips(mem, index, origin, row, col + 1, k)
          <==> Flips(mem, index, origin, row, col, k)
               || (k == p && BitOf(mem[index + row], SpriteRowBits - 1 - col) == 1))
  {
    PixelPosition(origin, row, col);
    var d := k - origin;
    if d >= 0 && d / 64 == row && d % 64 == col {
      assert d == 64 * (d / 64) + d % 64;
    }
  }

  /** The framebuffer and the collision flag after one more column of the draw loop. */
  lemma ColumnStep(before: seq<Byte>, mem: seq<Byte>, index: Word, origin: int, row: int, col: int)
    requires 0 <= row && 0 <= col < SpriteRowBits && index + row < |mem|
    requires 0 <= origin + row * 64 + col < |before|
    ensures var g, p, shift := BlitSoFar(before, mem, index, origin, row, col), origin + row * 64 + col, SpriteRowBits - 1 - col;
      var bit := BitOf(mem[index + row], shift);
      && g[p] == before[p]
      && g[p := XorPixel(g[p], bit)] == BlitSoFar(before, mem, index, origin, row, col + 1)
      && (CollidesSoFar(before, mem, index, origin, row, col) || (BitOf(g[p], shift) != 0 && bit != 0)
          <==> CollidesSoFar(before, mem, index, origin, row, col + 1))
  {
    var g := BlitSoFar(before, mem, index, origin, row, col);
    var p, shift := origin + row * 64 + col, SpriteRowBits - 1 - col;
    PixelPosition(origin, row, col);
    FlipsColumnStep(mem, index, origin, row, col, p);
    forall k | 0 <= k < |before|
      ensures Flips(mem, index, origin, row, col + 1, k)
        <==> Flips(mem, index, origin, row, col, k) || (k == p && BitOf(mem[index + row], shift) == 1)
    {
      FlipsColumnStep(mem, index, origin, row, col, k);
    }
    if CollidesSoFar(before, mem, index, origin, row, col + 1) && !CollidesSoFar(before, mem, index, origin, row, col) {
      var k :| 0 <= k < |before| && Flips(mem, index, origin, row, col + 1, k)
        && BitOf(before[k], SpriteRowBits - 1 - (k - origin) % 64) == 1;
      assert k == p;
    }
    if BitOf(g[p], shift) != 0 && BitOf(mem[index + row], shift) != 0 {
      assert Flips(mem, index, origin, row, col + 1, p);
    }
  }

  /** Finishing the eighth column of a row is starting the next row. */
  lemma RowStep(before: seq<Byte>, mem: seq<Byte>, index: Word, origin: int, row: int)
    requires 0 <= row
    ensures BlitSoFar(before, mem, index, origin, row, SpriteRowBits) == BlitSoFar(before, mem, index, origin, row + 1, 0)
    ensures CollidesSoFar(before, mem, index, origin, row, SpriteRowBits) == CollidesSoFar(before, mem, index, origin, row + 1, 0)
  {
    forall k
      ensures Flips(mem, index, origin, row, SpriteRowBits, k) == Flips(mem, index, origin, row + 1, 0, k)
    {
      assert Visited(origin, row, SpriteRowBits, k) == Visited(origin, row + 1, 0, k);
    }

  }

  /** The draw loop's state: the framebuffer so far and whether a collision has been seen. */
  datatype Sweep = Sweep(gfx: seq<Byte>, collision: bool)

  /** An `n`-row sprite at `origin` stays inside the framebuffer and its rows inside memory. */
  predicate SpriteFits(before: seq<Byte>, mem: seq<Byte>, index: Word, origin: int, n: int) {
    origin >= 0 && 0 <= n
    && (n > 0 ==> origin + (n - 1) * 64 + SpriteRowBits - 1 < |before| && index + n - 1 < |mem|)
  }

  /**
   * The draw loop one pixel at a time, up to row `row`, column `col`: each pixel XORs its
   * byte with 0xFF when its sprite bit is set, and sets the collision when the byte's own
   * bit was set as well.
   */
  function SweepTo(before: seq<Byte>, mem: seq<Byte>, index: Word, origin: int, n: int, row: int, col: int): (w: Sweep)
    requires SpriteFits(before, mem, index, origin, n)
    requires 0 <= row <= n && 0 <= col <= SpriteRowBits && (row == n ==> col == 0)
    ensures |w.gfx| == |before|
    decreases row, col
  {
    if col == 0 then
      if row == 0 then Sweep(before, false) else SweepTo(before, mem, index, origin, n, row - 1, SpriteRowBits)
    else
      var prev := SweepTo(before, mem, index, origin, n, row, col - 1);
      var p, shift := origin + row * 64 + col - 1, SpriteRowBits - col;
      var bit := BitOf(mem[index + row], shift);
      Sweep(prev.gfx[p := XorPixel(prev.gfx[p], bit)],
            prev.collision || (BitOf(prev.gfx[p], shift) != 0 && bit != 0))
  }

  /** One more pixel of the draw loop: byte `origin + row * 64 + col` XORed by its sprite bit, and the collision test for it. */
  lemma SweepNext(before: seq<Byte>, mem: seq<Byte>, index: Word, origin: int, n: int, row: int, col: int)
    requires SpriteFits(before, mem, index, origin, n)
    requires 0 <= row < n && 0 <= col < SpriteRowBits
    ensures var prev, p, shift := SweepTo(before, mem, index, origin, n, row, col), origin + row * 64 + col, SpriteRowBits - 1 - col;
      var bit := BitOf(mem[index + row], shift);
      SweepTo(before, mem, index, origin, n, row, col + 1)
        == Sweep(prev.gfx[p := XorPixel(prev.gfx[p], bit)], prev.collision || (BitOf(prev.gfx[p], shift) != 0 && bit != 0))
  {
  }

  /** Pixel by pixel, the draw loop has produced the partial blit and the partial collision test. */
  lemma {:induction false} SweepIsBlit(before: seq<Byte>, mem: seq<Byte>, index: Word, origin: int, n: int, row: int, col: int)
    requires SpriteFits(before, mem, index, origin, n)
    requires 0 <= row <= n && 0 <= col <= SpriteRowBits && (row == n ==> col == 0)
    ensures SweepTo(before, mem, index, origin, n, row, col)
      == Sweep(BlitSoFar(before, mem, index, origin, row, col), CollidesSoFar(before, mem, index, origin, row, col))
    decreases row, col
  {
    if col == 0 {
      if row == 0 {
        SweepStarts(before, mem, index, origin, n);
      } else {
        SweepIsBlit(before, mem, index, origin, n, row - 1, SpriteRowBits);
        RowStep(before, mem, index, origin, row - 1);
      }
    } else {
      SweepIsBlit(before, mem, index, origin, n, row, col - 1);
      SweepColumn(before, mem, index, origin, n, row, col);
    }
  }

  /** Before the first pixel nothing is flipped and nothing has collided. */
  lemma SweepStarts(before: seq<Byte>, mem: seq<Byte>, index: Word, origin: int, n: int)
    requires SpriteFits(before, mem, index, origin, n)
    ensures SweepTo(before, mem, index, origin, n, 0, 0)
      == Sweep(BlitSoFar(before, mem, index, origin, 0, 0), CollidesSoFar(before, mem, index, origin, 0, 0))
  {
    assert BlitSoFar(before, mem, index, origin, 0, 0) == before;
  }

  /** One more pixel of the sweep is one more column of the partial blit and collision test. */
  lemma SweepColumn(before: seq<Byte>, mem: seq<Byte>, index: Word, origin: int, n: int, row: int, col: int)
    requires SpriteFits(before, mem, index, origin, n)
    requires 0 <= row < n && 0 < col <= SpriteRowBits
    requires SweepTo(before, mem, index, origin, n, row, col - 1)
      == Sweep(BlitSoFar(before, mem, index, origin, row, col - 1), CollidesSoFar(before, mem, index, origin, row, col - 1))
    ensures SweepTo(before, mem, index, origin, n, row, col)
      == Sweep(BlitSoFar(before, mem, index, origin, row, col), CollidesSoFar(before, mem, index, origin, row, col))
  {
    ColumnStep(before, mem, index, origin, row, col - 1);
  }

  /** The finished draw loop is Machine.Blit, and its collision flag Machine.Collides. */
  lemma SweepDraws(before: seq<Byte>, mem: seq<Byte>, index: Word, origin: int, n: int)
    requires SpriteFits(before, mem, index, origin, n)
    ensures SweepTo(before, mem, index, origin, n, n, 0) == Sweep(Blit(before, mem, index, origin, n), Collides(before, mem, index, origin, n))
  {
    SweepIsBlit(before, mem, index, origin, n, n, 0);
    assert BlitSoFar(before, mem, index, origin, n, 0) == Blit(before, mem, index, origin, n);
  }
}
