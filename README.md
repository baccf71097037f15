# CHIP-8 interpreter core, modelled in Dafny

This project models the interpreter core of a small C++ CHIP-8 emulator:

- **Emu.cpp**: the machine state, the sixteen opcode handlers of the `gVM` table, and the fetch-decode-execute cycle. It also covers the timers, the run-time rate adjustment of `pollInput`, and `initialise`.
- **PlatformWin.cpp** (SDL backend): the deterministic parts, namely the keyboard mapping of `platformPollInput`, the texture expansion of `platformDraw`, and the carry-forward cadence gate `platformCanUpdate`.
- **PlatformArduino.cpp**: the same gate and the input-poll stub.

The model has two layers.

- **Specification layer** (module `Machine`): the emulator's globals form one value, `State`. Every handler, the cycle, the timer update, the input poll and initialisation are functions on that value.
- **Imperative layer** (module `Emu`, class `Chip8`): the globals become array fields. Each handler, the draw loop, the font `memcpy`, `emulateCycle`, `updateTimers`, `pollInput` and `initialise` are methods. Each method's `ensures` ties the new state to the specification function applied to the old state.

The properties are stated as lemmas about the specification functions. The main groups are:

- how each instruction moves PC and what it writes;
- the `/ 0xFF` flag tests;
- the XOR blit and its collision flag;
- call/return, store/load and draw-twice round trips;
- how the cadence gate accrues time;
- timer catch-up;
- font loading.

Module overview:

| module | file | role |
|---|---|---|
| `EmuTypes` | types.dfy | `Byte`, `Opcode`, `Word`, `U32` (the C++ widths as integer ranges) and `kInvalidKey` |
| `Bits` | bits.dfy | the bitwise OR, AND, XOR and right-shift operators on unsigned values, one binary digit at a time |
| `Decode` | decode.dfy | the `maskShift*` operand fields, `ShortSwap` and the instruction fetch |
| `Alu` | alu.dfy | `modifyRegisterFlow`, `addToRegister`, `subtractFromRegister` |
| `Cadence` | cadence.dfy | `platformCanUpdate` (identical on both backends) |
| `Machine` | machine.dfy | the machine as a value and every handler as a function |
| `Emu` | emu.dfy | class `Chip8`: the globals as arrays, every handler as a method |
| `InstructionProperties` | properties.dfy | per-instruction effects on the whole state |
| `DrawProperties` | draw_properties.dfy | DXYN: blit, collision flag, draw-twice |
| `CycleProperties` | cycle_properties.dfy | fetch/decode, cycle gate, rate hint, timers, initialise |
| `PlatformWin` | platform_win.dfy | SDL key mapping and poll, `class Screen` with the texture expansion |
| `PlatformArduino` | platform_arduino.dfy | the stub input poll |

Modelling choices that follow the code:

- **Unchecked accesses.** The C++ leaves several accesses unchecked: stack push and pop, the fetch at PC, the sprite rows read at I and written into `gGfx`, and FX33/FX55/FX65 at I. In the model these become preconditions, collected in the predicate `Machine.Safe` and in `Machine.CycleSafe` for a whole cycle.
- **Random input.** The random byte of CXNN is a parameter. Its precondition `rand <= NN` is what `uniform_int_distribution(0, NN)` guarantees.
- **Time and SDL input.** Tick readings (`SDL_GetTicks`/`millis`) and the pending SDL event are parameters.
- **The 8XY4 flag.** It is `sum / 0xFF != 0`, so a sum of exactly 255 sets VF. `Alu.AddFlagVersusCarry` states where this differs from a carry.
- **The 8XY5/8XY7 flag.** It is 0 when the 16-bit difference divided by 0xFF is nonzero, that is, on a borrow or a difference of 255.
- **8XY6/8XYE.** They write VX from VY and then mask VY in place, reading it after the first write. They never write VF. The comment in the source says VF receives the shifted-out bit; the model follows the code.
- **Skipped and stalling opcodes.**
  - 0NNN other than 00E0/00EE reports and returns `Yes`, so it is skipped.
  - Unknown 8XYN, EXNN and FXNN sub-opcodes return `No`, so PC stays and the same word runs again.
- **Automatic advance.** 00EE and BNNN return `Yes`, so the automatic advance of 2 applies after them as well.
- **Timing constants.** The float constants truncate to `kTimerUpdateRateMS = 16`, `kCycleUpdateRateBase = 1` and `kCycleUpdateRateDelta = 1`.
- **Rate modifier.** A positive hint decrements it only while it is `> kCycleUpdateRateDelta`. A negative hint increments it modulo 2^32.

## Model

| member | source | states |
|---|---|---|
| `Bits.ByteLogic` | Chip8Emu/Emu.cpp:339-376 | every binary digit of the byte OR, AND and XOR of 8XY1-8XY3 is the operator applied to the operands' digits |
| `Bits.BitwiseDigits` | Chip8Emu/Emu.cpp:339-376 | digit k of a bitwise result is the operator on digit k of each operand, at any width |
| `Bits.MaskOneDigit` | Chip8Emu/Emu.cpp:494-496 | `a & (1 << k)` is `1 << k` when digit k of `a` is set and 0 otherwise |
| `Bits.LowMask` | Chip8Emu/Emu.cpp:400-412 | `b & 0x01` is the low digit `b % 2` |
| `Bits.HighMask` | Chip8Emu/Emu.cpp:426-434 | `b & 0x80` is 0x80 when `b >= 0x80`, else 0 |
| `Bits.XorAllOnes` | Chip8Emu/Emu.cpp:501 | XOR with all ones is the complement `2^w - 1 - a` |
| `Bits.XorZero` | Chip8Emu/Emu.cpp:501 | XOR with zero keeps the value |
| `Bits.ShiftDownPower` | Chip8Emu/Emu.cpp:494-496 | `(1 << s) >> s == 1` and `0 >> s == 0` |
| `Bits.TopDigit` | Chip8Emu/Emu.cpp:426-434 | the top digit of a number below `2^(k+1)` is set exactly when it reaches `2^k` |
| `Decode.Family` | Chip8Emu/Emu.cpp:88 | maskShiftF000 yields one of the sixteen handler indices |
| `Decode.X` | Chip8Emu/Emu.cpp:89 | maskShift0F00 yields a register index below 16 |
| `Decode.Y` | Chip8Emu/Emu.cpp:90 | maskShift00F0 yields a register index below 16 |
| `Decode.FieldsRecompose` | Chip8Emu/Emu.cpp:88-91 | the four nibbles recompose the opcode; NN and NNN are its low 8 and 12 bits |
| `Decode.ShortSwapInvolutive` | Chip8Emu/Emu.cpp:82-86 | ShortSwap applied twice gives back the word |
| `Decode.Fetch` | Chip8Emu/Emu.cpp:704-706 | the native load followed by ShortSwap is the big-endian word `memory[pc] * 256 + memory[pc + 1]` |
| `CycleProperties.FetchFields` | Chip8Emu/Emu.cpp:704-710 | the fetched word's family/X are the nibbles of memory[PC], Y/N those of memory[PC+1], NN is memory[PC+1], NNN is X * 256 + NN |
| `Alu.FlowFlag` | Chip8Emu/Emu.cpp:174-190 | the flag is 1 exactly when `proxy / 0xFF != 0` agrees with the detect value |
| `Alu.Sum` | Chip8Emu/Emu.cpp:192-197 | the UShort sum of two bytes is at most 0x1FE, so it never wraps, and is at least either operand |
| `Alu.Truncate` | Chip8Emu/Emu.cpp:192-204 | `% 0x100` into a UChar keeps the low byte: it differs from the proxy by a multiple of 256 and equals a proxy below 256 |
| `Alu.Difference` | Chip8Emu/Emu.cpp:199-204 | the UShort `reg - value` wraps a negative difference modulo 2^16 |
| `Alu.AddFlag` | Chip8Emu/Emu.cpp:192-197 | the add flag is 1 exactly when `reg + value >= 255` |
| `Alu.SubtractFlag` | Chip8Emu/Emu.cpp:199-204 | the subtract flag is 0 exactly on a borrow or on 255 - 0 |
| `Alu.AddResult` | Chip8Emu/Emu.cpp:192-197 | the register receives the sum modulo 256 |
| `Alu.SubtractResult` | Chip8Emu/Emu.cpp:199-204 | the register receives the difference modulo 256 |
| `Alu.AddFlagVersusCarry` | Chip8Emu/Emu.cpp:174-197 | the add flag differs from a true carry exactly at a sum of 255 |
| `Alu.SubtractFlagVersusBorrow` | Chip8Emu/Emu.cpp:174-204 | the subtract flag differs from "no borrow" exactly at 255 - 0 |
| `Alu.WrapKeepsLowByte` | Chip8Emu/Emu.cpp:192-204 | reducing modulo 2^16 before `% 0x100` keeps the low byte |
| `Machine.Digits` | Chip8Emu/Emu.cpp:603-613 | FX33's three bytes are decimal digits that recompose VX |
| `Machine.MaskedDigit` | Chip8Emu/Emu.cpp:494-496 | `(b & (1 << shift)) >> shift` is binary digit `shift` of b |
| `Machine.XorPixelIsXor` | Chip8Emu/Emu.cpp:501 | the pixel update is `pixel ^ 0xFF` for a set sprite bit and `pixel ^ 0x00` otherwise |
| `Machine.BlitKeepsMonochrome` | Chip8Emu/Emu.cpp:478-509 | the blit maps a framebuffer of whole pixels (0x00/0xFF) to one |
| `Machine.SystemFamily` | Chip8Emu/Emu.cpp:244-267 | 00E0/00EE/0NNN keep the machine well formed |
| `Machine.Handle` | Chip8Emu/Emu.cpp:242-641 | the `gVM` dispatch keeps the machine well formed for every opcode whose unchecked accesses are in range |
| `Machine.Execute` | Chip8Emu/Emu.cpp:708-713 | executing a word and the automatic advance keep the machine well formed |
| `Machine.EmulateCycle` | Chip8Emu/Emu.cpp:696-714 | a cycle keeps the machine well formed |
| `Machine.UpdateTimers` | Chip8Emu/Emu.cpp:747-772 | the timer update keeps the machine well formed |
| `Machine.TimerStep` | Chip8Emu/Emu.cpp:760-768 | one 60 Hz tick lowers a timer by at most one, and leaves it unchanged exactly when it is already 0 |
| `Machine.IsKeyPressed` | Chip8Emu/Emu.cpp:206-213 | a key counts as pressed exactly when it is the held key and not 0xFF, so the 0xFF "no key" value is never pressed |
| `Machine.PowerOn` | Chip8Emu/Emu.cpp:135-151 | the zero-initialised globals form a well-formed machine |
| `Machine.Initialise` | Chip8Emu/Emu.cpp:643-668 | initialise keeps the machine well formed |
| `InstructionProperties.SkipAdvance` | Chip8Emu/Emu.cpp:285-332 | 3XNN/4XNN/5XY0/9XY0/EX9E/EXA1 advance PC by 4 when the condition holds and by 2 otherwise; nothing else changes |
| `InstructionProperties.StallKeepsState` | Chip8Emu/Emu.cpp:435-438 | unknown 8XYN, EXNN and FXNN, and FX0A with no key held, leave the whole machine, PC included, unchanged |
| `InstructionProperties.WaitForKeyTakesKey` | Chip8Emu/Emu.cpp:558-570 | FX0A with a key held copies it into VX and advances |
| `InstructionProperties.MachineCallSkipped` | Chip8Emu/Emu.cpp:263-266 | 0NNN other than 00E0/00EE only advances PC |
| `InstructionProperties.ClearScreen` | Chip8Emu/Emu.cpp:250-256 | 00E0 zeroes every pixel, raises the draw flag and advances |
| `InstructionProperties.JumpTarget` | Chip8Emu/Emu.cpp:270-274 | 1NNN sets PC to NNN with no advance |
| `InstructionProperties.JumpOffsetAdvances` | Chip8Emu/Emu.cpp:468-474 | BNNN sets PC to V0 + NNN and then also advances by 2 |
| `InstructionProperties.CallPushes` | Chip8Emu/Emu.cpp:277-282 | 2NNN pushes the call's own address and jumps to NNN |
| `InstructionProperties.CallThenReturn` | Chip8Emu/Emu.cpp:230-282 | 00EE after a call (stack untouched by the body) resumes at the call + 2 with SP restored |
| `InstructionProperties.CallReturnImmediately` | Chip8Emu/Emu.cpp:230-282 | call then immediate return equals skipping the call, apart from the used stack slot |
| `InstructionProperties.LogicOps` | Chip8Emu/Emu.cpp:337-371 | 8XY0-8XY3: VX becomes VY, VX or VY, VX and VY, or VX xor VY, bit by bit; every other register (VF included) and the rest of the state are kept; PC advances by 2 |
| `InstructionProperties.AddRegisters` | Chip8Emu/Emu.cpp:377-388 | 8XY4: VX = (VX + VY) mod 256, VF = [sum >= 255] unless X is F, other registers kept |
| `InstructionProperties.SubtractRegisters` | Chip8Emu/Emu.cpp:389-399 | 8XY5: VX = (VX - VY) mod 256, VF = 0 exactly on borrow or 255, other registers kept |
| `InstructionProperties.ReverseSubtractRegisters` | Chip8Emu/Emu.cpp:413-425 | 8XY7: VX = (VY - VX) mod 256, VF = 0 exactly on borrow or 255, other registers kept |
| `InstructionProperties.AddImmediateWraps` | Chip8Emu/Emu.cpp:327-332 | 7XNN: VX = (VX + NN) mod 256, VF untouched |
| `InstructionProperties.SetRegisterLoads` | Chip8Emu/Emu.cpp:319-324 | 6XNN: VX = NN, other registers kept |
| `InstructionProperties.ShiftRightRegisters` | Chip8Emu/Emu.cpp:400-412 | after 8XY6's two writes VX = VY / 2 and VY = VY & 1 (X != Y), or bit 1 of the old value (X == Y) |
| `InstructionProperties.ShiftRight` | Chip8Emu/Emu.cpp:400-412 | 8XY6 on the whole machine: those two registers change, VF is not written, PC advances |
| `InstructionProperties.ShiftLeftRegisters` | Chip8Emu/Emu.cpp:426-434 | after 8XYE's two writes VX = (2 VY) mod 256 and VY = VY & 0x80 (X != Y), or old bit 6 moved to bit 7 (X == Y) |
| `InstructionProperties.BitSixMoves` | Chip8Emu/Emu.cpp:426-434 | after doubling modulo 256, bit 7 is the old bit 6 |
| `InstructionProperties.ShiftLeft` | Chip8Emu/Emu.cpp:426-434 | 8XYE on the whole machine: those two registers change, VF is not written, PC advances |
| `InstructionProperties.SetIndexLoads` | Chip8Emu/Emu.cpp:454-458 | ANNN sets I to NNN |
| `InstructionProperties.RandomBounded` | Chip8Emu/Emu.cpp:461-465 | CXNN stores a value no larger than NN in VX and changes nothing else |
| `InstructionProperties.AddToIndexWraps` | Chip8Emu/Emu.cpp:583-589 | FX1E: I = (I + VX) mod 2^16, no flag written |
| `InstructionProperties.FontAddress` | Chip8Emu/Emu.cpp:590-602 | FX29: I = 0x50 + 5 VX |
| `InstructionProperties.TimerTransfers` | Chip8Emu/Emu.cpp:549-582 | FX07/FX15/FX18 copy between VX and the delay and sound timers |
| `InstructionProperties.BcdDigits` | Chip8Emu/Emu.cpp:603-613 | FX33 writes VX's three decimal digits at I..I+2 and no other cell |
| `InstructionProperties.StoreCopies` | Chip8Emu/Emu.cpp:614-625 | FX55 copies V0..VX to memory[I..I+X] and no other cell |
| `InstructionProperties.LoadCopies` | Chip8Emu/Emu.cpp:626-635 | FX65 copies memory[I..I+X] to V0..VX, the other registers kept |
| `InstructionProperties.LoadOf` | Chip8Emu/Emu.cpp:614-635 | the FX65 matching an FX55 has the same X |
| `InstructionProperties.StoreThenLoad` | Chip8Emu/Emu.cpp:614-635 | FX55 then FX65 with the same X and I leaves the registers as they were |
| `InstructionProperties.StoreOf` | Chip8Emu/Emu.cpp:614-635 | the FX55 matching an FX65 has the same X |
| `InstructionProperties.LoadThenStore` | Chip8Emu/Emu.cpp:614-635 | FX65 then FX55 with the same X and I leaves memory as it was |
| `DrawProperties.DrawStep` | Chip8Emu/Emu.cpp:478-509 | DXYN is the blit, VF = collision, draw flag raised, PC advanced |
| `DrawProperties.DrawTogglesSpritePixel` | Chip8Emu/Emu.cpp:485-503 | byte `vx + (vy + row) * 64 + col` is complemented exactly when bit 7 - col of memory[I + row] is set |
| `DrawProperties.DrawChangesOnlySpritePixels` | Chip8Emu/Emu.cpp:485-503 | any framebuffer byte that changes lies under a set sprite bit |
| `DrawProperties.CollisionIsHit` | Chip8Emu/Emu.cpp:495-500 | a collision the loop detects is a set sprite bit over a set pixel |
| `DrawProperties.HitIsCollision` | Chip8Emu/Emu.cpp:495-500 | a set sprite bit over a set pixel is detected as a collision |
| `DrawProperties.DrawCollisionFlag` | Chip8Emu/Emu.cpp:484-507 | VF = 1 exactly when the sprite covered a set pixel |
| `DrawProperties.BlitInvolutive` | Chip8Emu/Emu.cpp:478-509 | XOR-blitting the same sprite twice restores the framebuffer |
| `DrawProperties.HitsAfterBlit` | Chip8Emu/Emu.cpp:478-509 | after a blit the sprite covers set pixels exactly where it covered clear ones |
| `DrawProperties.HitsAfterDraw` | Chip8Emu/Emu.cpp:478-509 | the same for one whole DXYN instruction |
| `DrawProperties.DrawTwiceRestores` | Chip8Emu/Emu.cpp:478-509 | drawing a sprite twice restores the screen; the second VF reports pixels that were clear before the first |
| `DrawProperties.WholePixelBit` | Chip8Emu/Emu.cpp:495-497 | for a 0x00/0xFF pixel every bit is set exactly when the pixel is set |
| `CycleProperties.CycleGate` | Chip8Emu/Emu.cpp:692-714 | an unarmed cadence arms and nothing runs; less than a period leaves the machine unchanged; otherwise the marker moves one period and the word at PC executes |
| `CycleProperties.RateHintMovesPeriod` | Chip8Emu/Emu.cpp:726-745 | in 32-bit arithmetic a negative hint lengthens the instruction period by one and a positive one shortens it only while the modifier exceeds one delta; at the top of the range the period wraps from 2^32 - 1 to 0 and back |
| `CycleProperties.RateAdjustments` | Chip8Emu/Emu.cpp:732-742 | the modifier never drops below one delta once there; slower-then-faster restores it |
| `CycleProperties.TimerCall` | Chip8Emu/Emu.cpp:747-772 | the sound gate reads the timer before the tick; both timers go down by one (not below zero) exactly on a ready tick |
| `CycleProperties.SoundStopsAfterLastTick` | Chip8Emu/Emu.cpp:747-772 | a sound timer of 1 plays once more and is silent on the next update |
| `CycleProperties.RunAtStable` | Chip8Emu/PlatformWin.cpp:324-341 | once the gate says no at a tick reading it keeps saying no and keeps its marker |
| `CycleProperties.TimersCatchUp` | Chip8Emu/Emu.cpp:747-772 | repeated updates at one tick reading apply exactly the counted periods to both timers |
| `CycleProperties.InitialiseLoadsFont` | Chip8Emu/Emu.cpp:643-668 | initialise puts the font at 0x50, sets PC/I/SP/key/cadences/modifier/draw flag and keeps everything else |
| `CycleProperties.FontGlyph` | Chip8Emu/Emu.cpp:590-602 | after initialise, FX29 on a hex digit points I at that digit's five glyph rows |
| `Cadence.Elapsed` | Chip8Emu/PlatformWin.cpp:333 | the unsigned `ticks - marker` is the difference, wrapped modulo 2^32 when the clock wrapped |
| `Cadence.Next` | Chip8Emu/PlatformArduino.cpp:189-206 | (the same code as the SDL gate, with `millis()` as the tick source) an unarmed gate arms at `ticks` and says no; an armed one is ready exactly when a period has elapsed, and a ready call leaves the overrun measured |
| `Cadence.CanUpdate` | Chip8Emu/PlatformWin.cpp:324-341 | the imperative gate computes `Next`; a ready call moves the marker by exactly one period |
| `Cadence.NoPeriodLost` | Chip8Emu/PlatformWin.cpp:333-338 | with the marker at or below the tick reading, repeated calls at one tick reading count ready periods that, with the final remainder, add up to the elapsed time |
| `Cadence.ReadyCountIsQuotient` | Chip8Emu/PlatformWin.cpp:333-338 | with the marker at or below the tick reading, the ready count is elapsed / period and the remainder elapsed % period |
| `Cadence.MarkerAfterShift` | Chip8Emu/PlatformWin.cpp:336 | one 32-bit marker advance followed by k more is k + 1 advances |
| `Cadence.SkipsZeroAfterReady` | Chip8Emu/PlatformWin.cpp:333-337 | a ready call from a marker whose advances skip 0 leaves a nonzero marker whose further advances still skip 0 |
| `Cadence.ReadyAccounts` | Chip8Emu/PlatformWin.cpp:333-337 | a ready call accounts for exactly one period: the run from the old marker balances when the run from the new one does |
| `Cadence.NoPeriodLostAcrossWrap` | Chip8Emu/PlatformWin.cpp:326-338 | across a tick-counter wrap the same accounting holds with the unsigned elapsed time, provided no ready call leaves the marker at 0 |
| `Cadence.ReadyCountIsQuotientAcrossWrap` | Chip8Emu/PlatformWin.cpp:326-338 | across such a wrap the ready count is the unsigned elapsed time / period and the remainder elapsed % period |
| `Cadence.WrapThroughZeroLosesPeriod` | Chip8Emu/PlatformWin.cpp:326-338 | a marker 16 short of the wrap, ticks 20 and period 16: 36 ms elapsed, yet the gate reports ready once, lands on 0, re-arms at 20 and keeps no remainder |
| `Emu.Chip8.constructor` | Chip8Emu/Emu.cpp:135-151 | the arrays start zeroed: the abstract state is `PowerOn()` |
| `Emu.Chip8.SystemOp` | Chip8Emu/Emu.cpp:244-267 | the in-place 0NNN handler computes `SystemFamily` |
| `Emu.Chip8.JumpOp` | Chip8Emu/Emu.cpp:270-274 | the in-place 1NNN handler computes `Jump` |
| `Emu.Chip8.CallOp` | Chip8Emu/Emu.cpp:277-282 | the in-place 2NNN handler computes `Call` |
| `Emu.Chip8.IncrementPc` | Chip8Emu/Emu.cpp:164-167 | incrementPC adds 2 to the 16-bit PC |
| `Emu.Chip8.SkipIfEqualOp` | Chip8Emu/Emu.cpp:285-293 | the in-place 3XNN handler computes `SkipIfEqual` |
| `Emu.Chip8.SkipIfNotEqualOp` | Chip8Emu/Emu.cpp:296-304 | the in-place 4XNN handler computes `SkipIfNotEqual` |
| `Emu.Chip8.SkipIfRegistersEqualOp` | Chip8Emu/Emu.cpp:307-316 | the in-place 5XY0 handler computes `SkipIfRegistersEqual` |
| `Emu.Chip8.SetRegisterOp` | Chip8Emu/Emu.cpp:319-324 | the in-place 6XNN handler computes `SetRegister` |
| `Emu.Chip8.AddImmediateOp` | Chip8Emu/Emu.cpp:327-332 | the in-place 7XNN handler computes `AddImmediate` |
| `Emu.Chip8.LogicWrite` | Chip8Emu/Emu.cpp:339-376 | 8XY0-8XY3 write the register file `AluWrites` describes |
| `Emu.Chip8.FlagWrite` | Chip8Emu/Emu.cpp:377-399 | 8XY4/8XY5/8XY7 write the flag, then VX, as `AluWrites` describes |
| `Emu.Chip8.ShiftWrite` | Chip8Emu/Emu.cpp:400-434 | 8XY6/8XYE write VX and then VY through the references, as `AluWrites` describes |
| `Emu.Chip8.ArithmeticOp` | Chip8Emu/Emu.cpp:333-439 | the in-place 8XYN handler computes `ArithmeticFamily` |
| `Emu.Chip8.SkipIfRegistersDifferOp` | Chip8Emu/Emu.cpp:442-451 | the in-place 9XY0 handler computes `SkipIfRegistersDiffer` |
| `Emu.Chip8.SetIndexOp` | Chip8Emu/Emu.cpp:454-458 | the in-place ANNN handler computes `SetIndex` |
| `Emu.Chip8.JumpOffsetOp` | Chip8Emu/Emu.cpp:468-474 | the in-place BNNN handler computes `JumpOffset` |
| `Emu.Chip8.RandomOp` | Chip8Emu/Emu.cpp:461-465 | the in-place CXNN handler computes `RandomMasked` |
| `Emu.Chip8.FlipPixel` | Chip8Emu/Emu.cpp:494-501 | one inner-loop step XORs one framebuffer byte and reports a collision exactly when its tested bit and the sprite bit are both set |
| `Emu.Chip8.DrawRow` | Chip8Emu/Emu.cpp:487-502 | the inner loop over eight columns advances the sweep by one row |
| `Emu.Chip8.DrawRows` | Chip8Emu/Emu.cpp:484-503 | the nested loops leave the framebuffer as `Blit` and the collision flag as `Collides` |
| `Emu.Chip8.DrawOp` | Chip8Emu/Emu.cpp:478-509 | the in-place DXYN handler computes `DrawSprite` |
| `Emu.Chip8.KeyOp` | Chip8Emu/Emu.cpp:510-541 | the in-place EXNN handler computes `KeyFamily` |
| `Emu.Chip8.StoreDigitsOp` | Chip8Emu/Emu.cpp:603-613 | FX33 writes the three `Digits` of VX at I..I+2 |
| `Emu.Chip8.StoreRegistersOp` | Chip8Emu/Emu.cpp:614-625 | the FX55 loop writes memory as `StoreRegisters` describes |
| `Emu.Chip8.LoadRegistersOp` | Chip8Emu/Emu.cpp:626-635 | the FX65 loop writes the registers as `LoadRegisters` describes |
| `Emu.Chip8.MiscOp` | Chip8Emu/Emu.cpp:543-640 | the in-place FXNN handler computes `MiscFamily` |
| `Emu.Chip8.HandleOp` | Chip8Emu/Emu.cpp:242-641 | the `gVM` dispatch computes `Handle` |
| `Emu.Chip8.ExecuteOp` | Chip8Emu/Emu.cpp:708-713 | dispatch plus the conditional incrementPC computes `Execute` |
| `Emu.Chip8.EmulateCycle` | Chip8Emu/Emu.cpp:696-714 | emulateCycle computes `Machine.EmulateCycle` |
| `Emu.Chip8.UpdateTimers` | Chip8Emu/Emu.cpp:747-772 | updateTimers computes `Machine.UpdateTimers` and returns the sound gate |
| `Emu.Chip8.PollInput` | Chip8Emu/Emu.cpp:726-745 | pollInput stores the platform's key, applies the hint with `AdjustRate` and passes the quit answer on |
| `Emu.Chip8.CopyToMemory` | Chip8Emu/Emu.cpp:658-659 | the `memcpy` of the font writes the copied bytes from `base` on and keeps every other cell |
| `Emu.Chip8.Initialise` | Chip8Emu/Emu.cpp:643-668 | initialise computes `Machine.Initialise` |
| `PlatformWin.IndexOf` | Chip8Emu/PlatformWin.cpp:261-268 | the first matching position in the table, or its length when none matches |
| `PlatformWin.MappingsDistinct` | Chip8Emu/PlatformWin.cpp:51-69 | no two CHIP-8 keys share a keyboard symbol |
| `PlatformWin.FindMapping` | Chip8Emu/PlatformWin.cpp:261-268 | the search loop returns `IndexOf` the symbol |
| `PlatformWin.PollInput` | Chip8Emu/PlatformWin.cpp:243-300 | platformPollInput computes `Poll` for the pending event |
| `PlatformWin.QuitOnlyOnQuit` | Chip8Emu/PlatformWin.cpp:245-299 | the result is true exactly for a quit event |
| `PlatformWin.NoEventKeepsInputs` | Chip8Emu/PlatformWin.cpp:248-252 | with no event nothing is written and the result is false |
| `PlatformWin.KeyDownSelects` | Chip8Emu/PlatformWin.cpp:260-268 | pressing key k's symbol stores k |
| `PlatformWin.KeyUpReleases` | Chip8Emu/PlatformWin.cpp:286-297 | releasing any mapped symbol stores 0xFF |
| `PlatformWin.UnmappedKeepsKey` | Chip8Emu/PlatformWin.cpp:260-297 | an unmapped symbol leaves the key slot alone |
| `PlatformWin.HintRules` | Chip8Emu/PlatformWin.cpp:270-283 | `+`/`=` give hint 1, `-`/`_` give -1, nothing else writes the hint; none of them is a CHIP-8 key |
| `PlatformWin.RateKeysAdjustModifier` | Chip8Emu/Emu.cpp:726-745 | with this backend, minus lengthens and plus shortens the instruction period without touching the key |
| `PlatformWin.ExpandTriplicates` | Chip8Emu/PlatformWin.cpp:213-219 | pixel i fills texture bytes 3i, 3i+1, 3i+2 with framebuffer byte i |
| `PlatformWin.CollapseExpand` | Chip8Emu/PlatformWin.cpp:213-219 | every third texture byte reads the framebuffer back: the expansion loses nothing |
| `PlatformWin.Screen.Draw` | Chip8Emu/PlatformWin.cpp:205-219 | with setup missing nothing is written; otherwise the texture becomes `Expand` of the framebuffer |
| `PlatformArduino.PollInput` | Chip8Emu/PlatformArduino.cpp:166-172 | the stub returns false and writes neither the key nor the hint |
| `PlatformArduino.StubPollKeepsState` | Chip8Emu/PlatformArduino.cpp:166-172 | with this backend pollInput leaves the machine unchanged |

## Left out

- SDL and Arduino I/O are not modelled: window and renderer creation (`platformInit`/`platformDeInit`), `SDL_UpdateTexture` and the render calls after the expansion loop, the Arduino TFT drawing, and audio (`platformPlaySound`/`platformStopSound`/`updateAudio`). The sound gate is returned as a boolean instead.
- `loadGame` and the file reads of both backends are not modelled: they are I/O, and the model takes memory as given.
- `mainLoop` and `main` are not modelled. They only sequence `pollInput`, `emulateCycle`, `draw` and `updateTimers`, each of which is modelled.
- `draw()` at Emu.cpp:716-719 only forwards `gGfx`, 64 and 32 to `platformDraw`, which `PlatformWin.Screen.Draw` models.
- Randomness: the `mt19937` generator and its `random_device` seed are replaced by the random byte passed to CXNN.
- `gOpCode` and `gKeyPressCoolDown` are written by `initialise` and never read, so they are left out.
- `fail()` diagnostics are not modelled. They only print; the control flow after them is modelled.
- Endianness: the fetch models a little-endian host. The `kLittleEndian` check picks ShortSwap there; on a big-endian host the same big-endian word results.
- The float expressions of the timing constants are replaced by their truncated integer values.
- `Machine.Handle`, `Machine.EmulateCycle`: the accesses the source leaves unchecked are preconditions (`Safe`, `CycleSafe`). Out-of-range behaviour (stack overflow, reads and writes past `gMemory`/`gGfx`) is undefined in C++ and not modelled.
- Cadence.NoPeriodLost, Cadence.ReadyCountIsQuotient: stated for a marker at or below the tick reading only. Across a tick-counter wrap the program keeps the accounting only while no ready call leaves the marker at exactly 0; a 0 marker is taken for "not armed" and re-arms at the current reading, dropping the remainder (`Cadence.WrapThroughZeroLosesPeriod`). `Cadence.NoPeriodLostAcrossWrap` and `Cadence.ReadyCountIsQuotientAcrossWrap` state the wrapped case under that condition.
- `PlatformWin.Screen.Draw`: the pixel format is fixed at 3 bytes per pixel (RGB24), and the framebuffer and texture are assumed not to alias, as in the program.
- `PlatformWin.PollInput`: SDL keycodes are modelled as their character codes. Only the four event kinds the switch examines are distinguished.
