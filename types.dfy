/** The fixed-width value types of the emulator (EmuTypes.h), and the sentinel for "no key held". */
module EmuTypes {
  /** An unsigned 8-bit value (UChar): registers, memory cells, framebuffer bytes, timers, the held key. */
  type Byte = x: int | 0 <= x < 0x100

  /** A 16-bit instruction word (UShort) as it is decoded. */
  type Opcode = x: int | 0 <= x < 0x1_0000

  /** An unsigned 16-bit value (PC, I, SP, stack entries); arithmetic on it wraps explicitly modulo 2^16. */
  type Word = x: int | 0 <= x < 0x1_0000

  /** An unsigned 32-bit value (tick counts, cadence markers, periods); wraps explicitly modulo 2^32. */
  type U32 = x: int | 0 <= x < 0x1_0000_0000

  const WordModulus: int := 0x1_0000
  const U32Modulus: int := 0x1_0000_0000

  /** The value the input backends store in the key slot when no key is held. */
  const InvalidKey: Byte := 0xFF
}
