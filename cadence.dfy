/**
 * The carry-forward cadence gate `platformCanUpdate` (identical in PlatformWin.cpp and
 * PlatformArduino.cpp; only the tick source differs, SDL_GetTicks or millis, and it is a parameter here).
 * A marker of 0 means "not armed yet".
 */
module Cadence {
  import opened EmuTypes
  import Decode

  /** `ticks - marker` as the unsigned 32-bit subtraction computes it. */
  function Elapsed(marker: U32, ticks: U32): (e: U32)
    ensures e == (ticks - marker) % 0x1_0000_0000
  {
    if marker <= ticks then ticks - marker else U32Modulus + ticks - marker
  }

  /** What one call reports, and the marker it leaves behind. */
  datatype Poll = Poll(ready: bool, marker: U32)

  /**
   * One call of the gate at tick reading `ticks`. A ready call moves the marker forward by
   * exactly one period, so the overrun stays in the elapsed time measured by the next call.
   */
  function Next(marker: U32, ticks: U32, period: U32): (p: Poll)
    ensures marker == 0 ==> !p.ready && p.marker == ticks
    ensures marker != 0 ==> (p.ready <==> Elapsed(marker, ticks) >= period)
    ensures p.ready ==> Elapsed(p.marker, ticks) == Elapsed(marker, ticks) - period
    ensures marker != 0 && !p.ready ==> p.marker == marker
  {
    if marker == 0 then
      Poll(false, ticks)
    else if Elapsed(marker, ticks) >= period then
      Poll(true, (marker + period) % 0x1_0000_0000)
    else
      Poll(false, marker)
  }

  /** platformCanUpdate: the in/out marker comes in as `marker` and goes out as `newMarker`. */
  method CanUpdate(marker: U32, ticks: U32, period: U32) returns (ready: bool, newMarker: U32)
    ensures Poll(ready, newMarker) == Next(marker, ticks, period)
    ensures marker == 0 ==> !ready && newMarker == ticks
    ensures ready ==> newMarker == (marker + period) % 0x1_0000_0000
  {
    newMarker := marker;
    if newMarker == 0 {
      newMarker := ticks;
      return false, newMarker;
    }
    if (ticks - newMarker) % 0x1_0000_0000 >= period {
      newMarker := (newMarker + period) % 0x1_0000_0000;
      return true, newMarker;
    }
    return false, newMarker;
  }

  /** The outcome of calling the gate again and again at one tick reading until it says no. */
  datatype Run = Run(readyCount: nat, marker: U32)

  function RunAt(marker: U32, ticks: U32, period: U32): Run
    requires period > 0
    decreases if marker == 0 then 0 else Elapsed(marker, ticks) + 1
  {
    var p := Next(marker, ticks, period);
    if p.ready then
      var rest := RunAt(p.marker, ticks, period);
      Run(rest.readyCount + 1, rest.marker)
    else
      Run(0, p.marker)
  }

  /**
   * No elapsed period is lost: with the tick reading held fixed, an armed gate whose marker
   * has not wrapped past the tick count reports ready exactly floor(elapsed / period) times,
   * and the remainder stays measured against the final marker.
   */
  lemma {:induction false} NoPeriodLost(marker: U32, ticks: U32, period: U32)
    requires period > 0
    requires 0 < marker <= ticks
    ensures RunAt(marker, ticks, period).readyCount * period
          + Elapsed(RunAt(marker, ticks, period).marker, ticks) == ticks - marker
    ensures Elapsed(RunAt(marker, ticks, period).marker, ticks) < period
    decreases ticks - marker
  {
    var p := Next(marker, ticks, period);
    if p.ready {
      assert p.marker == marker + period;
      NoPeriodLost(p.marker, ticks, period);
      var rest := RunAt(p.marker, ticks, period);
      assert RunAt(marker, ticks, period) == Run(rest.readyCount + 1, rest.marker);
      assert (rest.readyCount + 1) * period == rest.readyCount * period + period;
    }
  }

  /** The ready count of a run is the quotient of the elapsed time by the period, and the final elapsed time the remainder. */
  lemma {:induction false} ReadyCountIsQuotient(marker: U32, ticks: U32, period: U32)
    requires period > 0
    requires 0 < marker <= ticks
    ensures RunAt(marker, ticks, period).readyCount == (ticks - marker) / period
    ensures Elapsed(RunAt(marker, ticks, period).marker, ticks) == (ticks - marker) % period
  {
    NoPeriodLost(marker, ticks, period);
    var q, r := RunAt(marker, ticks, period).readyCount, Elapsed(RunAt(marker, ticks, period).marker, ticks);
    Decode.DivModUnique(ticks - marker, q, r, period);
  }

  /** The marker after `k` ready calls, each adding one period modulo 2^32. */
  function MarkerAfter(marker: U32, k: nat, period: U32): U32
  {
    (marker + k * period) % 0x1_0000_0000
  }

  /** None of the markers that ready calls would leave within the elapsed time is 0, the "not armed" value. */
  ghost predicate SkipsZero(marker: U32, ticks: U32, period: U32)
  {
    forall k: nat :: 1 <= k && k * period <= Elapsed(marker, ticks) ==> MarkerAfter(marker, k, period) != 0
  }

  /** Advancing the marker once and then `k` times is advancing it `k + 1` times. */
  lemma {:induction false} MarkerAfterShift(marker: U32, k: nat, period: U32)
    ensures MarkerAfter(MarkerAfter(marker, 1, period), k, period) == MarkerAfter(marker, k + 1, period)
  {
    var step := k * period;
    assert (k + 1) * period == step + period;
    ReduceFirst(marker + period, step);
  }

  /** Reducing the first addend modulo 2^32 does not change the reduced sum. */
  lemma ReduceFirst(a: int, b: int)
    ensures (a % 0x1_0000_0000 + b) % 0x1_0000_0000 == (a + b) % 0x1_0000_0000
  {
    var q := a / 0x1_0000_0000;
    assert a % 0x1_0000_0000 == a - 0x1_0000_0000 * q;
  }

  /**
   * The same accounting when the marker lies past the tick reading (a 32-bit tick counter has
   * wrapped in between, about every 49.7 days): it holds as long as no ready call leaves the
   * marker at exactly 0, because the next call would take that 0 for "not armed" and re-arm at
   * the current tick reading, dropping the elapsed remainder.
   */
  lemma {:induction false} NoPeriodLostAcrossWrap(marker: U32, ticks: U32, period: U32)
    requires period > 0 && marker != 0
    requires SkipsZero(marker, ticks, period)
    ensures RunAt(marker, ticks, period).readyCount * period
          + Elapsed(RunAt(marker, ticks, period).marker, ticks) == Elapsed(marker, ticks)
    ensures Elapsed(RunAt(marker, ticks, period).marker, ticks) < period
    decreases Elapsed(marker, ticks)
  {
    var p := Next(marker, ticks, period);
    if p.ready {
      SkipsZeroAfterReady(marker, ticks, period);
      NoPeriodLostAcrossWrap(p.marker, ticks, period);
      ReadyAccounts(marker, ticks, period);
    }
  }

  /** A ready call accounts for one period: if the run from its new marker balances, so does the run from the old one. */
  lemma ReadyAccounts(marker: U32, ticks: U32, period: U32)
    requires period > 0 && marker != 0 && Next(marker, ticks, period).ready
    requires var rest := RunAt(Next(marker, ticks, period).marker, ticks, period);
      rest.readyCount * period + Elapsed(rest.marker, ticks) == Elapsed(Next(marker, ticks, period).marker, ticks)
    ensures RunAt(marker, ticks, period).readyCount * period
          + Elapsed(RunAt(marker, ticks, period).marker, ticks) == Elapsed(marker, ticks)
  {
    var p := Next(marker, ticks, period);
    var rest := RunAt(p.marker, ticks, period);
    assert RunAt(marker, ticks, period) == Run(rest.readyCount + 1, rest.marker);
    OnePeriodMore(rest.readyCount, RunAt(marker, ticks, period).readyCount, period,
      Elapsed(rest.marker, ticks), Elapsed(marker, ticks));
  }

  /** Counting one more period accounts for one more period of elapsed time. */
  lemma OnePeriodMore(count: nat, total: nat, period: int, remainder: int, elapsed: int)
    requires total == count + 1
    requires count * period + remainder == elapsed - period
    ensures total * period + remainder == elapsed
  {
    assert total * period == count * period + period;
  }

  /** A ready call moves the marker one period on, to a marker that is not 0 and still skips 0 for the rest of the elapsed time. */
  lemma {:induction false} SkipsZeroAfterReady(marker: U32, ticks: U32, period: U32)
    requires period > 0 && marker != 0
    requires SkipsZero(marker, ticks, period)
    requires Next(marker, ticks, period).ready
    ensures Next(marker, ticks, period).marker != 0
    ensures SkipsZero(Next(marker, ticks, period).marker, ticks, period)
  {
    var m := Next(marker, ticks, period).marker;
    var e := Elapsed(m, ticks);
    assert e == Elapsed(marker, ticks) - period;
    assert MarkerAfter(marker, 1, period) == m;
    forall k: nat | 1 <= k && k * period <= e
      ensures MarkerAfter(m, k, period) != 0
    {
      MarkerAfterShift(marker, k, period);
      assert (k + 1) * period <= Elapsed(marker, ticks);
    }
  }

  /** Across a wrap that skips 0, the ready count is still the quotient of the unsigned elapsed time by the period. */
  lemma {:induction false} ReadyCountIsQuotientAcrossWrap(marker: U32, ticks: U32, period: U32)
    requires period > 0 && marker != 0
    requires SkipsZero(marker, ticks, period)
    ensures RunAt(marker, ticks, period).readyCount == Elapsed(marker, ticks) / period
    ensures Elapsed(RunAt(marker, ticks, period).marker, ticks) == Elapsed(marker, ticks) % period
  {
    NoPeriodLostAcrossWrap(marker, ticks, period);
    var q, r := RunAt(marker, ticks, period).readyCount, Elapsed(RunAt(marker, ticks, period).marker, ticks);
    Decode.DivModUnique(Elapsed(marker, ticks), q, r, period);
  }

  /**
   * A ready call that leaves the marker at exactly 0 loses time: 36 ms have elapsed since a
   * marker 16 ms short of the wrap, yet with a 16 ms period the gate reports ready once, then
   * re-arms at the tick reading, and the final marker shows nothing left over.
   */
  lemma WrapThroughZeroLosesPeriod()
    ensures Elapsed(0x1_0000_0000 - 16, 20) == 36
    ensures !SkipsZero(0x1_0000_0000 - 16, 20, 16)
    ensures RunAt(0x1_0000_0000 - 16, 20, 16) == Run(1, 20)
    ensures Elapsed(RunAt(0x1_0000_0000 - 16, 20, 16).marker, 20) == 0
    ensures RunAt(0x1_0000_0000 - 16, 20, 16).readyCount < 36 / 16
  {
    assert MarkerAfter(0x1_0000_0000 - 16, 1, 16) == 0;
    assert Next(0x1_0000_0000 - 16, 20, 16) == Poll(true, 0);
    assert Next(0, 20, 16) == Poll(false, 20);
    assert RunAt(0, 20, 16) == Run(0, 20);
  }
}
