/**
 * The Arduino backend (PlatformArduino.cpp) as far as the interpreter core depends on it: its
 * input poll is a stub that reads no pins, and its cadence gate is the same `platformCanUpdate`
 * as the SDL backend's with `millis()` as the tick source (module Cadence).
 */
module PlatformArduino {
  import opened EmuTypes
  import Machine

  /** platformPollInput: never asks to quit and writes neither the key slot nor the rate hint. */
  method PollInput(key: Byte, hint: int) returns (quit: bool, keyOut: Byte, hintOut: int)
    ensures !quit && keyOut == key && hintOut == hint
  {
    quit, keyOut, hintOut := false, key, hint;
  }

  /**
   * With this backend the emulator's pollInput (which starts the hint at 0) changes nothing:
   * the held key and the rate modifier keep their values, so the machine state is unchanged.
   */
  lemma {:induction false} StubPollKeepsState(s: Machine.State)
    ensures Machine.PollInput(s, s.key, 0) == s
  {
  }
}
