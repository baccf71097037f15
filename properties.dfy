/**
 * What one instruction does to the whole machine (Emu.cpp:242-641 and 696-714): how PC
 * moves, which instructions leave the machine where it was, subroutine calls, and the
 * register arithmetic, each stated as the full state after `Execute`.
 */
module InstructionProperties {
  import opened EmuTypes
  import opened Decode
  import opened Alu
  import opened Bits
  import opened Machine

  /** The six conditional skips: 3XNN, 4XNN, 5XY0, 9XY0, EX9E and EXA1. */
  predicate IsSkip(op: Opcode) {
    || Family(op) == 0x3 || Family(op) == 0x4 || Family(op) == 0x5 || Family(op) == 0x9
    || (Family(op) == 0xE && (NN(op) == 0x9E || NN(op) == 0xA1))
  }

  /** Whether a skip's condition holds: a key counts as held only when the key slot is not 0xFF. */
  predicate SkipCondition(s: State, op: Opcode)
    requires Wf(s) && IsSkip(op)
  {
    var held := s.key != InvalidKey && s.key == s.v[X(op)];
    if Family(op) == 0x3 then s.v[X(op)] as int == NN(op)
    else if Family(op) == 0x4 then s.v[X(op)] as int != NN(op)
    else if Family(op) == 0x5 then s.v[X(op)] == s.v[Y(op)]
    else if Family(op) == 0x9 then s.v[X(op)] != s.v[Y(op)]
    else if NN(op) == 0x9E then held
    else !held
  }

  /** Two automatic advances are one advance by four. */
  lemma TwoAdvances(pc: Word)
    ensures NextInstruction(NextInstruction(pc)) == (pc + 4) % 0x1_0000
  {
  }

  /** A skip moves PC on by 4 when its condition holds and by 2 otherwise, and changes nothing else. */
  lemma {:induction false} SkipAdvance(s: State, op: Opcode, rand: Byte)
    requires Wf(s) && IsSkip(op)
    ensures Safe(s, op, rand)
    ensures Execute(s, op, rand) == s.(pc := (s.pc + if SkipCondition(s, op) then 4 else 2) % 0x1_0000)
  {
    TwoAdvances(s.pc);
  }

  /**
   * The instructions that leave the whole machine, PC included, exactly as it was: an unknown
   * 8XYN, EXNN or FXNN, and FX0A while no key is held (so the same FX0A runs again next cycle).
   */
  predicate Stalls(s: State, op: Opcode) {
    || (Family(op) == 0x8 && !(N(op) <= 7 || N(op) == 0xE))
    || (Family(op) == 0xE && NN(op) != 0x9E && NN(op) != 0xA1)
    || (Family(op) == 0xF && NN(op) !in {0x07, 0x0A, 0x15, 0x18, 0x1E, 0x29, 0x33, 0x55, 0x65})
    || (Family(op) == 0xF && NN(op) == 0x0A && s.key == InvalidKey)
  }

  /** A stalling instruction changes nothing. */
  lemma {:induction false} StallKeepsState(s: State, op: Opcode, rand: Byte)
    requires Wf(s) && Stalls(s, op)
    ensures Safe(s, op, rand)
    ensures Execute(s, op, rand) == s
  {
    if Family(op) == 0x8 {
      assert ArithmeticFamily(s, op) == Outcome(s, No);
    } else if Family(op) == 0xE {
      assert KeyFamily(s, op) == Outcome(s, No);
    } else {
      assert MiscFamily(s, op) == Outcome(s, No);
    }
  }

  /** FX0A with a key held stores it in VX and moves on. */
  lemma {:induction false} WaitForKeyTakesKey(s: State, op: Opcode, rand: Byte)
    requires Wf(s) && Family(op) == 0xF && NN(op) == 0x0A && s.key != InvalidKey
    ensures Safe(s, op, rand)
    ensures Execute(s, op, rand) == s.(v := s.v[X(op) := s.key], pc := NextInstruction(s.pc))
  {
    assert MiscFamily(s, op) == Outcome(SetV(s, X(op), s.key), Yes);
  }

  /** 0NNN other than 00E0 and 00EE is reported and skipped: only PC moves, by 2. */
  lemma {:induction false} MachineCallSkipped(s: State, op: Opcode, rand: Byte)
    requires Wf(s) && Family(op) == 0x0 && op != 0x00E0 && op != 0x00EE
    ensures Safe(s, op, rand)
    ensures Execute(s, op, rand) == s.(pc := NextInstruction(s.pc))
  {
    assert SystemFamily(s, op) == Outcome(s, Yes);
  }

  /** 00E0 blanks every pixel and raises the draw flag; PC moves on by 2. */
  lemma {:induction false} ClearScreen(s: State, rand: Byte)
    requires Wf(s)
    ensures Safe(s, 0x00E0, rand)
    ensures var t := Execute(s, 0x00E0, rand);
      && (forall k :: 0 <= k < GfxSize ==> t.gfx[k] == 0)
      && t == s.(gfx := t.gfx, drawFlag := true, pc := NextInstruction(s.pc))
  {
    assert Family(0x00E0) == 0;
  }

  /** 1NNN: PC becomes NNN exactly (no advance); nothing else changes. */
  lemma {:induction false} JumpTarget(s: State, op: Opcode, rand: Byte)
    requires Wf(s) && Family(op) == 0x1
    ensures Safe(s, op, rand)
    ensures Execute(s, op, rand) == s.(pc := op as int % 0x1000)
  {
    FieldsRecompose(op);
  }

  /** BNNN: PC becomes V0 + NNN and then also takes the automatic advance. */
  lemma {:induction false} JumpOffsetAdvances(s: State, op: Opcode, rand: Byte)
    requires Wf(s) && Family(op) == 0xB
    ensures Safe(s, op, rand)
    ensures Execute(s, op, rand) == s.(pc := s.v[0] as int + op as int % 0x1000 + 2)
  {
    FieldsRecompose(op);
  }

  /** 2NNN pushes the address of the call itself and jumps to NNN. */
  lemma {:induction false} CallPushes(s: State, op: Opcode, rand: Byte)
    requires Wf(s) && Family(op) == 0x2 && s.sp < StackDepth
    ensures Safe(s, op, rand)
    ensures Execute(s, op, rand) == s.(stack := s.stack[s.sp := s.pc], sp := s.sp + 1, pc := op as int % 0x1000)
  {
    FieldsRecompose(op);
  }

  /**
   * A call followed by a return (with the callee's body leaving SP and the stack as the call
   * left them) resumes at the call site + 2 with SP restored; only the pushed stack slot differs.
   */
  lemma {:induction false} CallThenReturn(s: State, call: Opcode, body: State, rand: Byte)
    requires Wf(s) && Family(call) == 0x2 && s.sp < StackDepth
    requires Wf(body)
    requires body.sp == Execute(s, call, rand).sp && body.stack == Execute(s, call, rand).stack
    ensures Safe(body, 0x00EE, rand)
    ensures Execute(body, 0x00EE, rand) == body.(sp := s.sp, pc := NextInstruction(s.pc))
    ensures Execute(body, 0x00EE, rand).stack == s.stack[s.sp := s.pc]
  {
    CallPushes(s, call, rand);
    assert Family(0x00EE) == 0;
  }

  /** Calling and immediately returning is the same as skipping the call, apart from the used stack slot. */
  lemma {:induction false} CallReturnImmediately(s: State, call: Opcode, rand: Byte)
    requires Wf(s) && Family(call) == 0x2 && s.sp < StackDepth
    ensures Safe(Execute(s, call, rand), 0x00EE, rand)
    ensures Execute(Execute(s, call, rand), 0x00EE, rand) == s.(stack := s.stack[s.sp := s.pc], pc := NextInstruction(s.pc))
  {
    CallThenReturn(s, call, Execute(s, call, rand), rand);
  }

  /* ---------------- register arithmetic ---------------- */

  /** The registers other than `a` and `b` are equal in `v` and `w`. */
  predicate OthersKept(v: seq<Byte>, w: seq<Byte>, a: int, b: int)
    requires |v| == |w| == RegisterCount
  {
    forall r :: 0 <= r < RegisterCount && r != a && r != b ==> w[r] == v[r]
  }

  /**
   * 8XY0-8XY3: VX := VY, VX | VY, VX & VY or VX ^ VY, each bit combining the operands' bits.
   * VF is not written (only as VX when X is F); no other register changes; PC moves on by 2.
   */
  lemma {:induction false} LogicOps(s: State, op: Opcode, rand: Byte)
    requires Wf(s) && Family(op) == 0x8 && N(op) <= 0x3
    ensures Safe(s, op, rand)
    ensures var t := Execute(s, op, rand);
      var vx, vy := s.v[X(op)], s.v[Y(op)];
      && t.v[X(op)] == (if N(op) == 0x0 then vy
                        else if N(op) == 0x1 then ByteLogic(Or, vx, vy)
                        else if N(op) == 0x2 then ByteLogic(And, vx, vy)
                        else ByteLogic(Xor, vx, vy))
      && (N(op) != 0x0 ==> forall k :: 0 <= k < 8 ==> Bit(t.v[X(op)], k) == Combine(LogicOf(N(op)), Bit(vx, k), Bit(vy, k)))
      && OthersKept(s.v, t.v, X(op), X(op))
      && t == s.(v := t.v, pc := NextInstruction(s.pc))
  {
    var x, y := X(op), Y(op);
    assert ArithmeticFamily(s, op).s == SetV(s, x, LogicResult(s.v[x], s.v[y], N(op)));
  }

  /** The combination 8XY1, 8XY2 and 8XY3 apply. */
  function LogicOf(n: int): Logic
    requires 1 <= n <= 3
  {
    if n == 1 then Or else if n == 2 then And else Xor
  }

  /**
   * 8XY4: VX := (VX + VY) mod 256; VF := 1 exactly when VX + VY >= 255, unless X is VF itself,
   * in which case the sum overwrites the flag. No other register changes; PC moves on by 2.
   */
  lemma {:induction false} AddRegisters(s: State, op: Opcode, rand: Byte)
    requires Wf(s) && Family(op) == 0x8 && N(op) == 0x4
    ensures Safe(s, op, rand)
    ensures var t := Execute(s, op, rand);
      var vx, vy := s.v[X(op)] as int, s.v[Y(op)] as int;
      && t.v[X(op)] as int == (vx + vy) % 0x100
      && (X(op) != FlagRegister ==> t.v[FlagRegister] as int == if vx + vy >= 0xFF then 1 else 0)
      && OthersKept(s.v, t.v, X(op), FlagRegister)
      && t == s.(v := t.v, pc := NextInstruction(s.pc))
  {
    var x, y := X(op), Y(op);
    assert ArithmeticFamily(s, op).s == SetV(SetV(s, FlagRegister, AddFlag(s.v[x], s.v[y])), x, AddResult(s.v[x], s.v[y]));
  }

  /** One 8XY5 instruction as a state update: the flag is written first, then VX. */
  lemma SubtractRegistersStep(s: State, op: Opcode, rand: Byte)
    requires Wf(s) && Family(op) == 0x8 && N(op) == 0x5
    ensures Safe(s, op, rand)
    ensures Execute(s, op, rand)
      == s.(v := s.v[FlagRegister := SubtractFlag(s.v[X(op)], s.v[Y(op)])][X(op) := SubtractResult(s.v[X(op)], s.v[Y(op)])], pc := NextInstruction(s.pc))
  {
  }

  /**
   * 8XY5: VX := (VX - VY) mod 256; VF := 0 exactly when VX < VY or VX - VY is 255, else 1
   * (unless X is VF). No other register changes; PC moves on by 2.
   */
  lemma {:induction false} SubtractRegisters(s: State, op: Opcode, rand: Byte)
    requires Wf(s) && Family(op) == 0x8 && N(op) == 0x5
    ensures Safe(s, op, rand)
    ensures var t := Execute(s, op, rand);
      var vx, vy := s.v[X(op)] as int, s.v[Y(op)] as int;
      && t.v[X(op)] as int == (vx - vy) % 0x100
      && (X(op) != FlagRegister ==> t.v[FlagRegister] as int == if vx < vy || vx - vy == 0xFF then 0 else 1)
      && OthersKept(s.v, t.v, X(op), FlagRegister)
      && t == s.(v := t.v, pc := NextInstruction(s.pc))
  {
    SubtractRegistersStep(s, op, rand);
  }

  /** One 8XY7 instruction as a state update: the flag is written first, then VX. */
  lemma ReverseSubtractRegistersStep(s: State, op: Opcode, rand: Byte)
    requires Wf(s) && Family(op) == 0x8 && N(op) == 0x7
    ensures Safe(s, op, rand)
    ensures Execute(s, op, rand)
      == s.(v := s.v[FlagRegister := SubtractFlag(s.v[Y(op)], s.v[X(op)])][X(op) := SubtractResult(s.v[Y(op)], s.v[X(op)])], pc := NextInstruction(s.pc))
  {
  }

  /**
   * 8XY7: VX := (VY - VX) mod 256; VF := 0 exactly when VY < VX or VY - VX is 255, else 1
   * (unless X is VF). No other register changes; PC moves on by 2.
   */
  lemma {:induction false} ReverseSubtractRegisters(s: State, op: Opcode, rand: Byte)
    requires Wf(s) && Family(op) == 0x8 && N(op) == 0x7
    ensures Safe(s, op, rand)
    ensures var t := Execute(s, op, rand);
      var vx, vy := s.v[X(op)] as int, s.v[Y(op)] as int;
      && t.v[X(op)] as int == (vy - vx) % 0x100
      && (X(op) != FlagRegister ==> t.v[FlagRegister] as int == if vy < vx || vy - vx == 0xFF then 0 else 1)
      && OthersKept(s.v, t.v, X(op), FlagRegister)
      && t == s.(v := t.v, pc := NextInstruction(s.pc))
  {
    ReverseSubtractRegistersStep(s, op, rand);
  }

  /** One 7XNN instruction as a state update. */
  lemma AddImmediateStep(s: State, op: Opcode, rand: Byte)
    requires Wf(s) && Family(op) == 0x7
    ensures Safe(s, op, rand)
    ensures Execute(s, op, rand) == s.(v := s.v[X(op) := AddResult(s.v[X(op)], Truncate(NN(op)))], pc := NextInstruction(s.pc))
  {
  }

  /** 7XNN: VX := (VX + NN) mod 256 and VF is left alone; nothing else changes; PC moves on by 2. */
  lemma {:induction false} AddImmediateWraps(s: State, op: Opcode, rand: Byte)
    requires Wf(s) && Family(op) == 0x7
    ensures Safe(s, op, rand)
    ensures var t := Execute(s, op, rand);
      && t.v[X(op)] as int == (s.v[X(op)] as int + op as int % 0x100) % 0x100
      && OthersKept(s.v, t.v, X(op), X(op))
      && t == s.(v := t.v, pc := NextInstruction(s.pc))
  {
    AddImmediateStep(s, op, rand);
  }

  /** One 6XNN instruction as a state update. */
  lemma SetRegisterStep(s: State, op: Opcode, rand: Byte)
    requires Wf(s) && Family(op) == 0x6
    ensures Safe(s, op, rand)
    ensures Execute(s, op, rand) == s.(v := s.v[X(op) := Truncate(NN(op))], pc := NextInstruction(s.pc))
  {
  }

  /** 6XNN: VX := NN; nothing else changes; PC moves on by 2. */
  lemma {:induction false} SetRegisterLoads(s: State, op: Opcode, rand: Byte)
    requires Wf(s) && Family(op) == 0x6
    ensures Safe(s, op, rand)
    ensures var t := Execute(s, op, rand);
      && t.v[X(op)] as int == op as int % 0x100
      && OthersKept(s.v, t.v, X(op), X(op))
      && t == s.(v := t.v, pc := NextInstruction(s.pc))
  {
    SetRegisterStep(s, op, rand);
  }

  /** The register file after 8XY6's two writes, in terms of the old one. */
  lemma ShiftRightRegisters(v: seq<Byte>, x: int, y: int)
    requires |v| == RegisterCount && 0 <= x < RegisterCount && 0 <= y < RegisterCount
    ensures var u := ShiftRightWrites(v, x, y);
      && (x != y ==> u[x] as int == v[y] as int / 2 && u[y] as int == v[y] as int % 2)
      && (x == y ==> u[x] as int == (v[y] as int / 2) % 2)
      && OthersKept(v, u, x, y)
  {
    LowMask(v[y]);
    LowMask(v[y] / 2);
  }

  /** One 8XY6 instruction as a state update. */
  lemma ShiftRightStep(s: State, op: Opcode, rand: Byte)
    requires Wf(s) && Family(op) == 0x8 && N(op) == 0x6
    ensures Safe(s, op, rand)
    ensures Execute(s, op, rand) == s.(v := ShiftRightWrites(s.v, X(op), Y(op)), pc := NextInstruction(s.pc))
  {
  }

  /**
   * 8XY6: VX := VY / 2 and then VY := VY & 1, read after the first write, so with X == Y the
   * register ends as bit 1 of the old value. VF is not written (unless X or Y is VF).
   */
  lemma {:induction false} ShiftRight(s: State, op: Opcode, rand: Byte)
    requires Wf(s) && Family(op) == 0x8 && N(op) == 0x6
    ensures Safe(s, op, rand)
    ensures var t := Execute(s, op, rand);
      var vy := s.v[Y(op)] as int;
      && (X(op) != Y(op) ==> t.v[X(op)] as int == vy / 2 && t.v[Y(op)] as int == vy % 2)
      && (X(op) == Y(op) ==> t.v[X(op)] as int == (vy / 2) % 2)
      && OthersKept(s.v, t.v, X(op), Y(op))
      && t == s.(v := t.v, pc := NextInstruction(s.pc))
  {
    ShiftRightStep(s, op, rand);
    ShiftRightRegisters(s.v, X(op), Y(op));
  }

  /** The register file after 8XYE's two writes, in terms of the old one. */
  lemma ShiftLeftRegisters(v: seq<Byte>, x: int, y: int)
    requires |v| == RegisterCount && 0 <= x < RegisterCount && 0 <= y < RegisterCount
    ensures var u := ShiftLeftWrites(v, x, y);
      && (x != y ==> u[x] == (v[y] as int * 2) % 0x100 && u[y] == if v[y] >= 0x80 then 0x80 else 0)
      && (x == y ==> u[x] == if (v[y] / 0x40) % 2 == 1 then 0x80 else 0)
      && OthersKept(v, u, x, y)
  {
    HighMask(v[y]);
    HighMask((v[y] as int * 2) % 0x100);
    BitSixMoves(v[y]);
  }

  /** After doubling modulo 256, bit 7 is the old bit 6. */
  lemma BitSixMoves(n: int)
    requires 0 <= n < 0x100
    ensures (n * 2) % 0x100 >= 0x80 <==> (n / 0x40) % 2 == 1
  {
    if n < 0x80 {
      assert (n * 2) % 0x100 == n * 2;
    } else {
      assert (n * 2) % 0x100 == n * 2 - 0x100;
    }
  }

  /** One 8XYE instruction as a state update. */
  lemma ShiftLeftStep(s: State, op: Opcode, rand: Byte)
    requires Wf(s) && Family(op) == 0x8 && N(op) == 0xE
    ensures Safe(s, op, rand)
    ensures Execute(s, op, rand) == s.(v := ShiftLeftWrites(s.v, X(op), Y(op)), pc := NextInstruction(s.pc))
  {
  }

  /**
   * 8XYE: VX := (VY * 2) mod 256 and then VY := VY & 0x80, read after the first write, so with
   * X == Y the register ends as bit 6 of the old value moved to bit 7. VF is not written
   * (unless X or Y is VF).
   */
  lemma {:induction false} ShiftLeft(s: State, op: Opcode, rand: Byte)
    requires Wf(s) && Family(op) == 0x8 && N(op) == 0xE
    ensures Safe(s, op, rand)
    ensures var t := Execute(s, op, rand);
      var vy := s.v[Y(op)] as int;
      && (X(op) != Y(op) ==> t.v[X(op)] == (vy * 2) % 0x100 && t.v[Y(op)] == if vy >= 0x80 then 0x80 else 0)
      && (X(op) == Y(op) ==> t.v[X(op)] == if (vy / 0x40) % 2 == 1 then 0x80 else 0)
      && OthersKept(s.v, t.v, X(op), Y(op))
      && t == s.(v := t.v, pc := NextInstruction(s.pc))
  {
    ShiftLeftStep(s, op, rand);
    ShiftLeftRegisters(s.v, X(op), Y(op));
  }

  /* ---------------- index register, timers and memory ---------------- */

  /** One FXNN instruction with a known low byte as a state update. */
  lemma MiscStep(s: State, op: Opcode, rand: Byte)
    requires Wf(s) && Family(op) == 0xF && Safe(s, op, rand)
    requires MiscFamily(s, op).inc == Yes
    ensures Execute(s, op, rand) == MiscFamily(s, op).s.(pc := NextInstruction(s.pc))
  {
  }

  /** ANNN: I := NNN; nothing else changes; PC moves on by 2. */
  lemma {:induction false} SetIndexLoads(s: State, op: Opcode, rand: Byte)
    requires Wf(s) && Family(op) == 0xA
    ensures Safe(s, op, rand)
    ensures Execute(s, op, rand) == s.(i := op as int % 0x1000, pc := NextInstruction(s.pc))
  {
    assert SetIndex(s, op).s == s.(i := NNN(op));
  }

  /** CXNN: VX := the random byte, which is at most NN; nothing else changes. */
  lemma {:induction false} RandomBounded(s: State, op: Opcode, rand: Byte)
    requires Wf(s) && Family(op) == 0xC && rand as int <= NN(op)
    ensures Safe(s, op, rand)
    ensures var t := Execute(s, op, rand);
      && t.v[X(op)] as int <= op as int % 0x100
      && t == s.(v := s.v[X(op) := rand], pc := NextInstruction(s.pc))
  {
    assert RandomMasked(s, op, rand).s == SetV(s, X(op), rand);
  }

  /** FX1E: I := (I + VX) mod 2^16; VF and every register are left alone. */
  lemma {:induction false} AddToIndexWraps(s: State, op: Opcode, rand: Byte)
    requires Wf(s) && Family(op) == 0xF && NN(op) == 0x1E
    ensures Safe(s, op, rand)
    ensures var t := Execute(s, op, rand);
      && t.i == (s.i + s.v[X(op)] as int) % 0x1_0000
      && (s.i + s.v[X(op)] as int < WordModulus ==> t.i == s.i + s.v[X(op)] as int)
      && t == s.(i := t.i, pc := NextInstruction(s.pc))
  {
    MiscStep(s, op, rand);
  }

  /** FX29: I := 0x50 + 5 * VX, the address of VX's glyph when VX is a hexadecimal digit. */
  lemma {:induction false} FontAddress(s: State, op: Opcode, rand: Byte)
    requires Wf(s) && Family(op) == 0xF && NN(op) == 0x29
    ensures Safe(s, op, rand)
    ensures Execute(s, op, rand) == s.(i := FontBase + 5 * s.v[X(op)] as int, pc := NextInstruction(s.pc))
  {
    MiscStep(s, op, rand);
  }

  /** FX07, FX15, FX18: VX := delay timer, delay timer := VX, sound timer := VX. */
  lemma {:induction false} TimerTransfers(s: State, op: Opcode, rand: Byte)
    requires Wf(s) && Family(op) == 0xF && (NN(op) == 0x07 || NN(op) == 0x15 || NN(op) == 0x18)
    ensures Safe(s, op, rand)
    ensures NN(op) == 0x07 ==> Execute(s, op, rand) == s.(v := s.v[X(op) := s.delayTimer], pc := NextInstruction(s.pc))
    ensures NN(op) == 0x15 ==> Execute(s, op, rand) == s.(delayTimer := s.v[X(op)], pc := NextInstruction(s.pc))
    ensures NN(op) == 0x18 ==> Execute(s, op, rand) == s.(soundTimer := s.v[X(op)], pc := NextInstruction(s.pc))
  {
    MiscStep(s, op, rand);
  }

  /**
   * FX33: memory[I], memory[I+1], memory[I+2] := the hundreds, tens and units digits of VX.
   * Together they spell VX in decimal; no other cell and nothing else changes.
   */
  lemma {:induction false} BcdDigits(s: State, op: Opcode, rand: Byte)
    requires Wf(s) && Family(op) == 0xF && NN(op) == 0x33 && s.i + 2 < MemorySize
    ensures Safe(s, op, rand)
    ensures var t := Execute(s, op, rand); var m := t.memory;
      && m[s.i] as int < 10 && m[s.i + 1] as int < 10 && m[s.i + 2] as int < 10
      && m[s.i] as int * 100 + m[s.i + 1] as int * 10 + m[s.i + 2] as int == s.v[X(op)] as int
      && (forall a :: 0 <= a < MemorySize && !(s.i <= a <= s.i + 2) ==> m[a] == s.memory[a])
      && t == s.(memory := m, pc := NextInstruction(s.pc))
  {
    MiscStep(s, op, rand);
  }

  /** FX55: memory[I + k] := Vk for k = 0..X; no other cell, and nothing else, changes. */
  lemma {:induction false} StoreCopies(s: State, op: Opcode, rand: Byte)
    requires Wf(s) && Family(op) == 0xF && NN(op) == 0x55 && s.i + X(op) < MemorySize
    ensures Safe(s, op, rand)
    ensures var t := Execute(s, op, rand);
      && (forall k :: 0 <= k <= X(op) ==> t.memory[s.i + k] == s.v[k])
      && (forall a :: 0 <= a < MemorySize && !(s.i <= a <= s.i + X(op)) ==> t.memory[a] == s.memory[a])
      && t == s.(memory := t.memory, pc := NextInstruction(s.pc))
  {
    MiscStep(s, op, rand);
  }

  /** FX65: Vk := memory[I + k] for k = 0..X; no other register, and nothing else, changes. */
  lemma {:induction false} LoadCopies(s: State, op: Opcode, rand: Byte)
    requires Wf(s) && Family(op) == 0xF && NN(op) == 0x65 && s.i + X(op) < MemorySize
    ensures Safe(s, op, rand)
    ensures var t := Execute(s, op, rand);
      && (forall k :: 0 <= k <= X(op) ==> t.v[k] == s.memory[s.i + k])
      && (forall k :: X(op) < k < RegisterCount ==> t.v[k] == s.v[k])
      && t == s.(v := t.v, pc := NextInstruction(s.pc))
  {
    MiscStep(s, op, rand);
  }

  /** The FX65 that reads back what an FX55 stored, `(store & 0xFF00) | 0x0065`: same X, F in the top nibble. */
  function LoadOf(store: Opcode): (load: Opcode)
    requires Family(store) == 0xF && NN(store) == 0x55
    ensures Family(load) == 0xF && X(load) == X(store) && NN(load) == 0x65
  {
    var load := (store / 0x100) * 0x100 + 0x65;
    DivModUnique(load, store / 0x100, 0x65, 0x100);
    load
  }

  /** FX55 then FX65 with the same X and I: the registers come back as they were; memory keeps the copy. */
  lemma {:induction false} StoreThenLoad(s: State, store: Opcode, rand: Byte)
    requires Wf(s) && Family(store) == 0xF && NN(store) == 0x55 && s.i + X(store) < MemorySize
    ensures Safe(s, store, rand)
    ensures Safe(Execute(s, store, rand), LoadOf(store), rand)
    ensures var t := Execute(s, store, rand);
      Execute(t, LoadOf(store), rand) == t.(pc := NextInstruction(t.pc))
  {
    var load := LoadOf(store);
    var t := Execute(s, store, rand);
    StoreCopies(s, store, rand);
    LoadCopies(t, load, rand);
    var u := Execute(t, load, rand);
    assert u.v == t.v;
  }

  /** The FX55 that writes back what an FX65 loaded, `(load & 0xFF00) | 0x0055`: same X, F in the top nibble. */
  function StoreOf(load: Opcode): (store: Opcode)
    requires Family(load) == 0xF && NN(load) == 0x65
    ensures Family(store) == 0xF && X(store) == X(load) && NN(store) == 0x55
  {
    var store := (load / 0x100) * 0x100 + 0x55;
    DivModUnique(store, load / 0x100, 0x55, 0x100);
    store
  }

  /** FX65 then FX55 with the same X and I: memory comes back as it was; the registers keep the copy. */
  lemma {:induction false} LoadThenStore(s: State, load: Opcode, rand: Byte)
    requires Wf(s) && Family(load) == 0xF && NN(load) == 0x65 && s.i + X(load) < MemorySize
    ensures Safe(s, load, rand)
    ensures Safe(Execute(s, load, rand), StoreOf(load), rand)
    ensures var t := Execute(s, load, rand);
      Execute(t, StoreOf(load), rand) == t.(pc := NextInstruction(t.pc))
  {
    var store := StoreOf(load);
    var t := Execute(s, load, rand);
    LoadCopies(s, load, rand);
    StoreCopies(t, store, rand);
    var u := Execute(t, store, rand);
    assert u.memory == t.memory;
  }
}
