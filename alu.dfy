/** Register arithmetic with the flag register (Emu.cpp: modifyRegisterFlow, addToRegister, subtractFromRegister). */
module Alu {
  import opened EmuTypes

  /**
   * modifyRegisterFlow: the value written to VF. The detector is `proxy / 0xFF != 0`, so a
   * proxy of 255 or more "detects"; `setOnDetect` selects whether detection writes 1 (add)
   * or 0 (subtract), and the opposite value is written otherwise.
   */
  function FlowFlag(proxy: Word, setOnDetect: bool): (flag: Byte)
    ensures flag == 0 || flag == 1
    ensures flag == 1 <==> (proxy >= 0xFF) == setOnDetect
  {
    var lookup: seq<Byte> := if setOnDetect then [1, 0] else [0, 1];
    if proxy / 0xFF != 0 then lookup[0] else lookup[1]
  }

  /** The UShort `reg + value` of addToRegister: two bytes add to at most 0x1FE, so the 16-bit sum never wraps and never falls below either operand. */
  function Sum(reg: Byte, value: Byte): (s: Word)
    ensures s <= 0x1FE
    ensures reg <= s && value <= s
  {
    reg + value
  }

  /** The UShort `reg - value` of subtractFromRegister: negative differences wrap modulo 2^16. */
  function Difference(reg: Byte, value: Byte): (d: Word)
    ensures d == if reg >= value then reg - value else WordModulus + reg - value
  {
    var a, b := reg, value;
    WrapDifference(a, b);
    (a - b) % 0x1_0000
  }

  /** The difference of two values below 256, reduced modulo 2^16. */
  lemma WrapDifference(a: int, b: int)
    requires 0 <= a < 0x100 && 0 <= b < 0x100
    ensures (a - b) % 0x1_0000 == if a >= b then a - b else WordModulus + a - b
  {
  }

  /** `proxy % 0x100` stored back into an 8-bit register: the low byte, which differs from the proxy by a multiple of 256 and equals it when it fits. */
  function Truncate(proxy: Word): (b: Byte)
    ensures proxy < 0x100 ==> b == proxy
    ensures (proxy - b) % 0x100 == 0
  {
    proxy % 0x100
  }

  /** Reducing modulo 2^16 first does not change the low byte. */
  lemma WrapKeepsLowByte(z: int)
    requires -0x100 < z < 0x100
    ensures (z % 0x1_0000) % 0x100 == z % 0x100
  {
    if z < 0 {
      assert z % 0x1_0000 == z + 0xFF * 0x100 + 0x100;
    }
  }

  /** The flag 8XY4 writes: 1 exactly when the 9-bit sum reaches 255 (not 256: the `/ 0xFF` test). */
  function AddFlag(reg: Byte, value: Byte): (flag: Byte)
    ensures flag == 0 || flag == 1
    ensures flag == 1 <==> reg + value >= 0xFF
  {
    FlowFlag(Sum(reg, value), true)
  }

  /** The flag 8XY5/8XY7 write: 0 exactly when the subtraction borrows or the difference is 255. */
  function SubtractFlag(reg: Byte, value: Byte): (flag: Byte)
    ensures flag == 0 || flag == 1
    ensures flag == 0 <==> reg < value || (reg == 0xFF && value == 0)
  {
    FlowFlag(Difference(reg, value), false)
  }

  /** The result register of an add is the sum modulo 256. */
  function AddResult(reg: Byte, value: Byte): (r: Byte)
    ensures r == (reg + value) % 0x100
  {
    Truncate(Sum(reg, value))
  }

  /** The result register of a subtract is the difference modulo 256. */
  function SubtractResult(reg: Byte, value: Byte): (r: Byte)
    ensures r == (reg - value) % 0x100
  {
    var d := Difference(reg, value);
    WrapKeepsLowByte(reg - value);
    Truncate(d)
  }

  /** The add flag agrees with a true carry-out everywhere except a sum of exactly 255. */
  lemma AddFlagVersusCarry(reg: Byte, value: Byte)
    ensures (AddFlag(reg, value) == 1) != (reg + value > 0xFF)
        <==> reg + value == 0xFF
  {
  }

  /** The subtract flag agrees with "no borrow" everywhere except 255 - 0. */
  lemma SubtractFlagVersusBorrow(reg: Byte, value: Byte)
    ensures (SubtractFlag(reg, value) == 1) != (reg >= value) <==> reg == 0xFF && value == 0
  {
  }
}
