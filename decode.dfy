/** Instruction fetch and operand extraction (Emu.cpp: ShortSwap, maskShift*, the fetch in emulateCycle). */
module Decode {
  import opened EmuTypes

  /** Euclidean division has one quotient and one remainder. */
  lemma DivModUnique(a: int, q: int, r: int, d: int)
    requires d > 0 && 0 <= r < d && a == q * d + r
    ensures q == a / d && r == a % d
  {
    var q', r' := a / d, a % d;
    assert (q - q') * d == r' - r;
    MultipleAtLeast(q - q', d);
    MultipleAtLeast(q' - q, d);
  }

  /** A positive multiple of a positive number is at least that number. */
  lemma MultipleAtLeast(k: int, d: int)
    ensures k >= 1 && d > 0 ==> k * d >= d
  {
    if k >= 1 && d > 0 {
      assert k * d == (k - 1) * d + d;
    }
  }

  /** maskShiftF000, `(op & 0xF000) >> 12`: the top hexadecimal digit, which selects one of the sixteen handler families. */
  function Family(op: Opcode): (f: int)
    ensures 0 <= f < 16
  {
    op / 0x1000
  }

  /** maskShift0F00, `(op & 0x0F00) >> 8`: the register index X, the second hexadecimal digit. */
  function X(op: Opcode): (x: int)
    ensures 0 <= x < 16
  {
    (op / 0x100) % 16
  }

  /** maskShift00F0, `(op & 0x00F0) >> 4`: the register index Y, the third hexadecimal digit. */
  function Y(op: Opcode): (y: int)
    ensures 0 <= y < 16
  {
    (op / 0x10) % 16
  }

  /** maskShift000F, `op & 0x000F`: the low digit N (sprite height, family-8 sub-opcode). */
  function N(op: Opcode): (n: int)
    ensures 0 <= n < 16
  {
    op % 16
  }

  /** `opCode & 0x00FF`: the low byte NN (immediates, family E/F sub-opcodes). */
  function NN(op: Opcode): (nn: int)
    ensures 0 <= nn < 0x100
  {
    op % 0x100
  }

  /** `opCode & 0x0FFF`: the 12-bit address NNN. */
  function NNN(op: Opcode): (nnn: int)
    ensures 0 <= nnn < 0x1000
  {
    op % 0x1000
  }

  /** ShortSwap on a little-endian host, `((s & 0xFF) << 8) + ((s >> 8) & 0xFF)`: exchanges the two bytes of a 16-bit value. */
  function ShortSwap(s: Opcode): (r: Opcode)
  {
    (s % 0x100) * 0x100 + s / 0x100
  }

  /** What `memcpy(&op, &mem[pc], 2)` reads on a little-endian host: the first byte is the low one. */
  function LoadNative(lo: Byte, hi: Byte): (r: Opcode)
  {
    lo + hi * 0x100
  }

  /** The instruction fetch of emulateCycle: a native load at PC followed by ShortSwap, i.e. a big-endian read. */
  function Fetch(memory: seq<Byte>, pc: int): (op: Opcode)
    requires 0 <= pc && pc + 1 < |memory|
    ensures op == memory[pc] as int * 0x100 + memory[pc + 1] as int
  {
    var raw := LoadNative(memory[pc], memory[pc + 1]);
    DivModUnique(raw, memory[pc + 1], memory[pc], 0x100);
    ShortSwap(raw)
  }

  /** Byte-swapping twice gives back the word: the fetch is a faithful big-endian read. */
  lemma {:induction false} ShortSwapInvolutive(s: Opcode)
    ensures ShortSwap(ShortSwap(s)) == s
  {
    var t := ShortSwap(s);
    assert t == (s % 0x100) * 0x100 + s / 0x100;
    assert ShortSwap(t) == s;
  }

  /** The four nibbles partition the instruction word, and NN and NNN are its low 8 and 12 bits. */
  lemma {:induction false} FieldsRecompose(op: Opcode)
    ensures op == Family(op) * 0x1000 + X(op) * 0x100 + Y(op) * 0x10 + N(op)
    ensures NN(op) == Y(op) * 0x10 + N(op)
    ensures NNN(op) == X(op) * 0x100 + NN(op)
  {
    NibblesRecompose(op);
  }

  /** A 16-bit number is the sum of its four hexadecimal digits at their place values. */
  lemma NibblesRecompose(w: int)
    requires 0 <= w < 0x1_0000
    ensures w == w / 0x1000 * 0x1000 + (w / 0x100) % 16 * 0x100 + (w / 0x10) % 16 * 0x10 + w % 16
    ensures w % 0x100 == (w / 0x10) % 16 * 0x10 + w % 16
    ensures w % 0x1000 == (w / 0x100) % 16 * 0x100 + w % 0x100
  {
    var a, b, c := w / 0x10, w / 0x100, w / 0x1000;
    DivModUnique(w, a, w % 0x10, 0x10);
    assert b == a / 16 by { DivModUnique(w, a / 16, (a % 16) * 0x10 + w % 0x10, 0x100); }
    assert c == b / 16 by { DivModUnique(w, b / 16, (b % 16) * 0x100 + (a % 16) * 0x10 + w % 0x10, 0x1000); }
    DivModUnique(w, b, (a % 16) * 0x10 + w % 0x10, 0x100);
    DivModUnique(w, c, (b % 16) * 0x100 + (a % 16) * 0x10 + w % 0x10, 0x1000);
  }
}
