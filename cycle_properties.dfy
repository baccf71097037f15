/**
 * Properties of the machine-level operations of Emu.cpp: the fetch and decode of
 * emulateCycle (696-714), the cadence gate in front of it, updateTimers (747-772),
 * the rate modifier of pollInput (726-745) and initialise (643-668).
 */
module CycleProperties {
  import opened EmuTypes
  import opened Decode
  import opened Machine
  import Cadence

  /* ---------------- fetch and decode ---------------- */

  /**
   * The word fetched at PC splits into the nibbles of the two memory bytes: the family and X
   * are the high and low nibbles of memory[PC], Y and N those of memory[PC + 1], NN is
   * memory[PC + 1] and NNN is X * 256 + NN.
   */
  lemma {:induction false} FetchFields(memory: seq<Byte>, pc: int)
    requires 0 <= pc && pc + 1 < |memory|
    ensures var op, hi, lo := Fetch(memory, pc), memory[pc] as int, memory[pc + 1] as int;
      && Family(op) == hi / 0x10 && X(op) == hi % 0x10
      && Y(op) == lo / 0x10 && N(op) == lo % 0x10
      && NN(op) == lo && NNN(op) == (hi % 0x10) * 0x100 + lo
  {
    var op, hi, lo := Fetch(memory, pc), memory[pc] as int, memory[pc + 1] as int;
    WordNibbles(op as int, hi, lo);
  }

  /** The nibble and byte fields of the word `hi * 256 + lo`, in terms of its two bytes. */
  lemma WordNibbles(w: int, hi: int, lo: int)
    requires 0 <= hi < 0x100 && 0 <= lo < 0x100 && w == hi * 0x100 + lo
    ensures w / 0x1000 == hi / 0x10 && (w / 0x100) % 16 == hi % 0x10
    ensures (w / 0x10) % 16 == lo / 0x10 && w % 16 == lo % 0x10
    ensures w % 0x100 == lo && w % 0x1000 == (hi % 0x10) * 0x100 + lo
  {
    DivModUnique(w, hi, lo, 0x100);
    DivModUnique(w, hi / 0x10, (hi % 0x10) * 0x100 + lo, 0x1000);
    DivModUnique(w, hi * 0x10 + lo / 0x10, lo % 0x10, 0x10);
    DivModUnique(hi * 0x10 + lo / 0x10, hi, lo / 0x10, 0x10);
    DivModUnique(hi, hi / 0x10, hi % 0x10, 0x10);
  }

  /* ---------------- the instruction cadence ---------------- */

  /**
   * emulateCycle runs an instruction only when the cadence is ready: an unarmed cadence is
   * armed at `ticks` and nothing runs; an armed one with less than a period elapsed changes
   * nothing; otherwise the marker moves on by one period and the word at PC is executed.
   */
  lemma {:induction false} CycleGate(s: State, ticks: U32, rand: Byte)
    requires Wf(s) && CycleSafe(s, ticks, rand)
    ensures s.cycleMarker == 0 ==> EmulateCycle(s, ticks, rand) == s.(cycleMarker := ticks)
    ensures s.cycleMarker != 0 && Cadence.Elapsed(s.cycleMarker, ticks) < CyclePeriod(s)
      ==> EmulateCycle(s, ticks, rand) == s
    ensures s.cycleMarker != 0 && Cadence.Elapsed(s.cycleMarker, ticks) >= CyclePeriod(s)
      ==> && s.pc + 1 < MemorySize
          && var s1 := s.(cycleMarker := (s.cycleMarker + CyclePeriod(s)) % 0x1_0000_0000);
             Safe(s1, Fetch(s.memory, s.pc), rand)
             && EmulateCycle(s, ticks, rand) == Execute(s1, Fetch(s.memory, s.pc), rand)
  {
    var p := CyclePoll(s, ticks);
    if s.cycleMarker != 0 && Cadence.Elapsed(s.cycleMarker, ticks) < CyclePeriod(s) {
      assert p == Cadence.Poll(false, s.cycleMarker);
      assert s.(cycleMarker := p.marker) == s;
    } else if s.cycleMarker != 0 {
      var s1 := s.(cycleMarker := (s.cycleMarker + CyclePeriod(s)) % 0x1_0000_0000);
      assert p == Cadence.Poll(true, s1.cycleMarker);
      assert s.(cycleMarker := p.marker) == s1;
    }
  }

  /**
   * pollInput's hint moves the instruction period by one delta, in 32-bit arithmetic: a negative
   * hint lengthens it, a positive one shortens it only while the modifier is above one delta,
   * and no hint leaves it alone. At the top of the range the unsigned sums wrap: a negative hint
   * at modifier 2^32 - 2 takes the period from 2^32 - 1 to 0, and a positive hint at modifier
   * 2^32 - 1 takes it from 0 to 2^32 - 1.
   */
  lemma {:induction false} RateHintMovesPeriod(s: State, key: Byte, hint: int)
    ensures var t := PollInput(s, key, hint);
      && t == s.(key := key, rateModifier := t.rateModifier)
      && (hint < 0 ==> CyclePeriod(t) == (CyclePeriod(s) + 1) % U32Modulus)
      && (hint > 0 && s.rateModifier > CycleRateDelta ==> CyclePeriod(t) == (CyclePeriod(s) + U32Modulus - 1) % U32Modulus)
      && (hint > 0 && s.rateModifier <= CycleRateDelta ==> CyclePeriod(t) == CyclePeriod(s))
      && (hint == 0 ==> CyclePeriod(t) == CyclePeriod(s))
    ensures var t := PollInput(s, key, hint);
      && (hint < 0 && s.rateModifier < U32Modulus - 2 ==> CyclePeriod(t) == CyclePeriod(s) + 1)
      && (hint < 0 && s.rateModifier == U32Modulus - 2 ==> CyclePeriod(s) == U32Modulus - 1 && CyclePeriod(t) == 0)
      && (hint > 0 && CycleRateDelta < s.rateModifier < U32Modulus - 1 ==> CyclePeriod(t) == CyclePeriod(s) - 1)
      && (hint > 0 && s.rateModifier == U32Modulus - 1 ==> CyclePeriod(s) == 0 && CyclePeriod(t) == U32Modulus - 1)
  {
    var m := s.rateModifier;
    if m < U32Modulus - 1 {
      assert CyclePeriod(s) == 1 + m;
    } else {
      assert CyclePeriod(s) == 0;
    }
    if hint < 0 && m < U32Modulus - 2 {
      assert AdjustRate(m, hint) == m + 1;
    }
  }

  /**
   * The modifier never drops below one delta once it is there, a slower-then-faster pair of
   * hints restores it (short of the 2^32 wrap), and from the initial 0 the pair ends at one delta.
   */
  lemma {:induction false} RateAdjustments(m: U32, hint: int)
    ensures hint > 0 ==> AdjustRate(m, hint) <= m && (m >= CycleRateDelta ==> AdjustRate(m, hint) >= CycleRateDelta)
    ensures 1 <= m < U32Modulus - 1 ==> AdjustRate(AdjustRate(m, -1), 1) == m
    ensures AdjustRate(AdjustRate(0, -1), 1) == CycleRateDelta
  {
    if 1 <= m < U32Modulus - 1 {
      assert AdjustRate(m, -1) == m + 1;
    }
    assert AdjustRate(0, -1) == 1;
  }

  /* ---------------- the timers ---------------- */

  /** A timer's value after `k` decrements that stop at zero. */
  function CountDown(b: Byte, k: nat): (r: int) {
    if b as int > k then b as int - k else 0
  }

  /** updateTimers' floor-at-zero decrement of one timer on a ready tick, as a number. */
  lemma TickValue(b: Byte)
    ensures Machine.TimerStep(b) as int == CountDown(b, 1)
  {
  }

  /**
   * One updateTimers call: the sound gate reports whether the sound timer was nonzero before
   * the call; each timer goes down by one, stopping at zero, exactly when the timer cadence is
   * ready, and nothing else than the timers and the timer marker changes.
   */
  lemma {:induction false} TimerCall(s: State, ticks: U32)
    ensures var u := UpdateTimers(s, ticks); var p := Cadence.Next(s.timerMarker, ticks, TimerPeriod);
      && u.soundOn == (s.soundTimer != 0)
      && u.s.delayTimer as int == CountDown(s.delayTimer, if p.ready then 1 else 0)
      && u.s.soundTimer as int == CountDown(s.soundTimer, if p.ready then 1 else 0)
      && u.s == s.(delayTimer := u.s.delayTimer, soundTimer := u.s.soundTimer, timerMarker := p.marker)
  {
    if Cadence.Next(s.timerMarker, ticks, TimerPeriod).ready {
      TickValue(s.delayTimer);
      TickValue(s.soundTimer);
    }
  }

  /** A sound timer of 1 keeps the gate on for one more update; after the tick that empties it, the gate is off. */
  lemma {:induction false} SoundStopsAfterLastTick(s: State, ticks: U32, later: U32)
    requires s.soundTimer == 1 && Cadence.Next(s.timerMarker, ticks, TimerPeriod).ready
    ensures UpdateTimers(s, ticks).soundOn
    ensures UpdateTimers(s, ticks).s.soundTimer == 0
    ensures !UpdateTimers(UpdateTimers(s, ticks).s, later).soundOn
  {
    TimerCall(s, ticks);
  }

  /** `n` back-to-back updateTimers calls at one tick reading. */
  function RepeatTimers(s: State, ticks: U32, n: nat): State
    decreases n
  {
    if n == 0 then s else RepeatTimers(UpdateTimers(s, ticks).s, ticks, n - 1)
  }

  /** Once the gate has said no at a tick reading, it keeps saying no there and keeps its marker. */
  lemma {:induction false} RunAtStable(marker: U32, ticks: U32, period: U32)
    requires period > 0
    ensures var m := Cadence.RunAt(marker, ticks, period).marker;
      !Cadence.Next(m, ticks, period).ready && Cadence.Next(m, ticks, period).marker == m
    decreases if marker == 0 then 0 else Cadence.Elapsed(marker, ticks) + 1
  {
    var p := Cadence.Next(marker, ticks, period);
    if p.ready {
      RunAtStable(p.marker, ticks, period);
    } else if marker == 0 {
      assert Cadence.RunAt(marker, ticks, period).marker == ticks;
      assert Cadence.Elapsed(ticks, ticks) == 0;
    }
  }

  /**
   * Enough back-to-back updateTimers calls at one tick reading apply exactly the periods the
   * timer cadence has counted (Cadence.NoPeriodLost: floor(elapsed / 16) of them), each timer
   * stopping at zero, and leave the cadence at its final marker.
   */
  lemma {:induction false} TimersCatchUp(s: State, ticks: U32, n: nat)
    requires n > Cadence.RunAt(s.timerMarker, ticks, TimerPeriod).readyCount
    ensures var r := Cadence.RunAt(s.timerMarker, ticks, TimerPeriod); var t := RepeatTimers(s, ticks, n);
      && t.delayTimer as int == CountDown(s.delayTimer, r.readyCount)
      && t.soundTimer as int == CountDown(s.soundTimer, r.readyCount)
      && t == s.(delayTimer := t.delayTimer, soundTimer := t.soundTimer, timerMarker := r.marker)
    decreases n
  {
    var r := Cadence.RunAt(s.timerMarker, ticks, TimerPeriod);
    var p := Cadence.Next(s.timerMarker, ticks, TimerPeriod);
    var s1 := UpdateTimers(s, ticks).s;
    TimerCall(s, ticks);
    if p.ready {
      assert r.readyCount == Cadence.RunAt(p.marker, ticks, TimerPeriod).readyCount + 1;
      TimersCatchUp(s1, ticks, n - 1);
    } else {
      assert r == Cadence.Run(0, p.marker);
      if n > 1 {
        RunAtStable(s.timerMarker, ticks, TimerPeriod);
        assert Cadence.RunAt(p.marker, ticks, TimerPeriod) == Cadence.Run(0, p.marker);
        TimersCatchUp(s1, ticks, n - 1);
      }
    }
  }

  /* ---------------- initialisation ---------------- */

  /** The font occupies memory[0x50 .. 0xA0). */
  predicate FontLoaded(s: State)
    requires Wf(s)
  {
    s.memory[FontBase..FontBase + |FontSet|] == FontSet
  }

  /**
   * initialise: PC = 0x200, I = SP = 0, no key held, both cadences unarmed, modifier 0, draw
   * flag clear, the font at 0x50; every other memory cell, the registers, the stack, the
   * framebuffer and the timers are as they were.
   */
  lemma {:induction false} InitialiseLoadsFont(s: State)
    requires Wf(s)
    ensures var t := Initialise(s);
      && FontLoaded(t)
      && (forall a :: 0 <= a < MemorySize && !(FontBase <= a < FontBase + |FontSet|) ==> t.memory[a] == s.memory[a])
      && t == s.(memory := t.memory, pc := PcStart, i := 0, sp := 0, key := InvalidKey,
                 timerMarker := 0, cycleMarker := 0, drawFlag := false, rateModifier := 0)
  {
    var t := Initialise(s);
    assert t.memory[FontBase..FontBase + |FontSet|] == FontSet;
  }

  /** With the font loaded, FX29 on a hexadecimal digit points I at that digit's five glyph rows. */
  lemma {:induction false} FontGlyph(s: State, op: Opcode, rand: Byte)
    requires Wf(s) && FontLoaded(s) && Family(op) == 0xF && NN(op) == 0x29 && s.v[X(op)] as int < 0x10
    ensures Safe(s, op, rand)
    ensures var t := Execute(s, op, rand); var d := s.v[X(op)] as int;
      t.i + FontHeight <= MemorySize && t.memory[t.i..t.i + FontHeight] == FontSet[5 * d..5 * d + FontHeight]
  {
    var t := Execute(s, op, rand);
    var d := s.v[X(op)] as int;
    assert MiscFamily(s, op) == Outcome(s.(i := FontBase + d * 5), Yes);
    assert t == s.(i := FontBase + d * 5, pc := NextInstruction(s.pc));
    var glyph := FontBase + 5 * d;
    assert t.i == glyph && glyph + FontHeight <= MemorySize;
    assert t.memory[t.i..t.i + FontHeight] == s.memory[glyph..glyph + FontHeight];
    SliceOfSlice(s.memory, FontBase, FontBase + |FontSet|, 5 * d, 5 * d + FontHeight);
    assert FontSet[5 * d..5 * d + FontHeight] == s.memory[glyph..glyph + FontHeight];
  }

  /** A slice of a slice is the slice at the shifted bounds. */
  lemma SliceOfSlice<T>(m: seq<T>, lo: int, hi: int, a: int, b: int)
    requires 0 <= lo <= hi <= |m| && 0 <= a <= b <= hi - lo
    ensures m[lo..hi][a..b] == m[lo + a..lo + b]
  {
    var x, y := m[lo..hi][a..b], m[lo + a..lo + b];
    assert |x| == |y| == b - a;
    forall k | 0 <= k < |x|
      ensures x[k] == y[k]
    {
      assert x[k] == m[lo..hi][a + k] == m[lo + a + k];
    }
  }
}
