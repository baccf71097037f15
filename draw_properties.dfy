/** What the DXYN sprite blit does to the framebuffer and to VF (Emu.cpp:478-509). */
module DrawProperties {
  import opened EmuTypes
  import opened Decode
  import opened Bits
  import opened Machine

  /** The framebuffer byte the loop computes for row `row`, column `col`: `vx + (vy + row) * 64 + col`. */
  function PixelAt(vx: Byte, vy: Byte, row: int, col: int): int {
    vx as int + (vy as int + row) * 64 + col
  }

  /** Bit `7 - col` of sprite byte `row`, the bit the loop applies at column `col`. */
  predicate SpriteBitSet(memory: seq<Byte>, i: Word, row: int, col: int)
    requires 0 <= col < SpriteRowBits && 0 <= i + row < |memory|
  {
    BitOf(memory[i + row], SpriteRowBits - 1 - col) == 1
  }

  /** One DXYN instruction: the blit, the collision flag, the draw flag and the automatic advance. */
  lemma DrawStep(s: State, op: Opcode, rand: Byte)
    requires Wf(s) && Family(op) == 0xD && Safe(s, op, rand)
    ensures Execute(s, op, rand) == s.(
      gfx := Blit(s.gfx, s.memory, s.i, Origin(s.v[X(op)], s.v[Y(op)]), N(op)),
      v := s.v[FlagRegister := if Collides(s.gfx, s.memory, s.i, Origin(s.v[X(op)], s.v[Y(op)]), N(op)) then 1 else 0],
      drawFlag := true,
      pc := NextInstruction(s.pc))
  {
  }

  /** A visited byte lies at some row and column of the sprite. */
  lemma VisitedPosition(origin: int, n: int, k: int)
    requires Visited(origin, n, 0, k)
    ensures k == origin + ((k - origin) / 64) * 64 + (k - origin) % 64
    ensures 0 <= (k - origin) / 64 < n && 0 <= (k - origin) % 64 < SpriteRowBits
  {
  }

  /** For a whole pixel, its bit `shift` is set exactly when the pixel is set. */
  lemma WholePixelBit(b: Byte, shift: nat)
    requires shift < 8 && (b == 0 || b == 0xFF)
    ensures BitOf(b, shift) == 1 <==> b == 0xFF
  {
    ZeroDigit(shift);
    ByteWidth();
    AllOnesDigit(8, shift);
  }

  /**
   * Row `row`, column `col` of the sprite lands on byte `vx + (vy + row) * 64 + col`, which is
   * complemented exactly when bit `7 - col` of memory[I + row] is set.
   */
  lemma {:induction false} DrawTogglesSpritePixel(s: State, op: Opcode, rand: Byte, row: int, col: int)
    requires Wf(s) && Family(op) == 0xD && Safe(s, op, rand)
    requires 0 <= row < N(op) && 0 <= col < SpriteRowBits
    ensures 0 <= PixelAt(s.v[X(op)], s.v[Y(op)], row, col) < GfxSize && s.i + row < MemorySize
    ensures var k := PixelAt(s.v[X(op)], s.v[Y(op)], row, col);
      Execute(s, op, rand).gfx[k]
      == if SpriteBitSet(s.memory, s.i, row, col) then 0xFF - s.gfx[k] else s.gfx[k]
  {
    var origin := Origin(s.v[X(op)], s.v[Y(op)]);
    var k := origin + row * 64 + col;
    PixelPosition(origin, row, col);
    assert Visited(origin, N(op), 0, k);
    DrawStep(s, op, rand);
  }

  /** Only sprite pixels change: a byte that changes is some row < N, column < 8 whose sprite bit is set. */
  lemma {:induction false} DrawChangesOnlySpritePixels(s: State, op: Opcode, rand: Byte, k: int)
    requires Wf(s) && Family(op) == 0xD && Safe(s, op, rand)
    requires 0 <= k < GfxSize
    requires Execute(s, op, rand).gfx[k] != s.gfx[k]
    ensures exists row, col ::
      (0 <= row < N(op) && 0 <= col < SpriteRowBits && s.i + row < MemorySize
       && SpriteBitSet(s.memory, s.i, row, col) && k == PixelAt(s.v[X(op)], s.v[Y(op)], row, col))
  {
    var origin := Origin(s.v[X(op)], s.v[Y(op)]);
    DrawStep(s, op, rand);
    assert Flips(s.memory, s.i, origin, N(op), 0, k);
    VisitedPosition(origin, N(op), k);
    var row, col := (k - origin) / 64, (k - origin) % 64;
    assert SpriteBitSet(s.memory, s.i, row, col);
    assert k == PixelAt(s.v[X(op)], s.v[Y(op)], row, col);
  }

  /** Whether some set sprite bit of an n-row sprite at (vx, vy) lands on a framebuffer byte equal to `pixel`. */
  predicate SpriteHitsOn(gfx: seq<Byte>, memory: seq<Byte>, i: Word, vx: Byte, vy: Byte, n: int, pixel: Byte)
    requires |gfx| == GfxSize && |memory| == MemorySize && SpriteInBounds(i, vx, vy, n)
  {
    exists row, col :: 0 <= row < n && 0 <= col < SpriteRowBits
      && SpriteBitSet(memory, i, row, col)
      && gfx[PixelAt(vx, vy, row, col)] == pixel
  }

  /** Whether some set sprite bit of DXYN lands on a framebuffer byte equal to `pixel`. */
  predicate SpriteHits(s: State, op: Opcode, pixel: Byte)
    requires Wf(s) && SpriteInBounds(s.i, s.v[X(op)], s.v[Y(op)], N(op))
  {
    SpriteHitsOn(s.gfx, s.memory, s.i, s.v[X(op)], s.v[Y(op)], N(op), pixel)
  }

  /** A byte the blit flips lies at some row and column of the sprite whose sprite bit is set. */
  lemma FlipPosition(memory: seq<Byte>, i: Word, vx: Byte, vy: Byte, n: int, k: int) returns (row: int, col: int)
    requires Flips(memory, i, Origin(vx, vy), n, 0, k)
    ensures 0 <= row < n && 0 <= col < SpriteRowBits && i + row < |memory|
    ensures k == PixelAt(vx, vy, row, col) && SpriteBitSet(memory, i, row, col)
    ensures col == (k - Origin(vx, vy)) % 64
  {
    var origin := Origin(vx, vy);
    VisitedPosition(origin, n, k);
    row, col := (k - origin) / 64, (k - origin) % 64;
  }

  /** Row `row`, column `col` of a sprite whose bit there is set is a byte the blit flips. */
  lemma PositionFlips(memory: seq<Byte>, i: Word, vx: Byte, vy: Byte, n: int, row: int, col: int)
    requires 0 <= row < n && 0 <= col < SpriteRowBits && i + row < |memory|
    requires SpriteBitSet(memory, i, row, col)
    ensures Flips(memory, i, Origin(vx, vy), n, 0, PixelAt(vx, vy, row, col))
    ensures (PixelAt(vx, vy, row, col) - Origin(vx, vy)) % 64 == col
  {
    PixelPosition(Origin(vx, vy), row, col);
  }

  /** A collision found by the blit is a set sprite bit over a set pixel. */
  lemma {:induction false} CollisionIsHit(gfx: seq<Byte>, memory: seq<Byte>, i: Word, vx: Byte, vy: Byte, n: int)
    requires |gfx| == GfxSize && |memory| == MemorySize && SpriteInBounds(i, vx, vy, n) && Monochrome(gfx)
    requires Collides(gfx, memory, i, Origin(vx, vy), n)
    ensures SpriteHitsOn(gfx, memory, i, vx, vy, n, 0xFF)
  {
    var origin := Origin(vx, vy);
    var k :| 0 <= k < |gfx| && Flips(memory, i, origin, n, 0, k)
      && BitOf(gfx[k], SpriteRowBits - 1 - (k - origin) % 64) == 1;
    var row, col := FlipPosition(memory, i, vx, vy, n, k);
    WholePixelBit(gfx[k], SpriteRowBits - 1 - col);
    assert gfx[PixelAt(vx, vy, row, col)] == 0xFF;
  }

  /** A set sprite bit over a set pixel is a collision the blit finds. */
  lemma {:induction false} HitIsCollision(gfx: seq<Byte>, memory: seq<Byte>, i: Word, vx: Byte, vy: Byte, n: int)
    requires |gfx| == GfxSize && |memory| == MemorySize && SpriteInBounds(i, vx, vy, n) && Monochrome(gfx)
    requires SpriteHitsOn(gfx, memory, i, vx, vy, n, 0xFF)
    ensures Collides(gfx, memory, i, Origin(vx, vy), n)
  {
    var row, col :| 0 <= row < n && 0 <= col < SpriteRowBits
      && SpriteBitSet(memory, i, row, col) && gfx[PixelAt(vx, vy, row, col)] == 0xFF;
    var k := PixelAt(vx, vy, row, col);
    PositionFlips(memory, i, vx, vy, n, row, col);
    WholePixelBit(gfx[k], SpriteRowBits - 1 - col);
  }

  /** VF := 1 exactly when a set sprite bit lands on a pixel that was set, else VF := 0; the draw flag is raised. */
  lemma {:induction false} DrawCollisionFlag(s: State, op: Opcode, rand: Byte)
    requires Wf(s) && Family(op) == 0xD && Safe(s, op, rand)
    ensures Execute(s, op, rand).v[FlagRegister] == (if SpriteHits(s, op, 0xFF) then 1 else 0)
    ensures Execute(s, op, rand).drawFlag
  {
    DrawStep(s, op, rand);
    var vx, vy := s.v[X(op)], s.v[Y(op)];
    if Collides(s.gfx, s.memory, s.i, Origin(vx, vy), N(op)) {
      CollisionIsHit(s.gfx, s.memory, s.i, vx, vy, N(op));
    }
    if SpriteHits(s, op, 0xFF) {
      HitIsCollision(s.gfx, s.memory, s.i, vx, vy, N(op));
    }
  }

  /** XOR-blitting the same sprite twice gives back the framebuffer. */
  lemma {:induction false} BlitInvolutive(gfx: seq<Byte>, memory: seq<Byte>, i: Word, origin: int, n: int)
    ensures Blit(Blit(gfx, memory, i, origin, n), memory, i, origin, n) == gfx
  {
    var g := Blit(Blit(gfx, memory, i, origin, n), memory, i, origin, n);
    forall k | 0 <= k < |gfx|
      ensures g[k] == gfx[k]
    {
    }
  }

  /** Every row < n, column < 8 of an in-bounds sprite lies inside the framebuffer and reads inside memory. */
  lemma PixelInBounds(i: Word, vx: Byte, vy: Byte, n: int, row: int, col: int)
    requires SpriteInBounds(i, vx, vy, n)
    requires 0 <= row < n && 0 <= col < SpriteRowBits
    ensures 0 <= PixelAt(vx, vy, row, col) < GfxSize && i + row < MemorySize
  {
  }

  /** The blit turns the byte under a set sprite bit into its complement. */
  lemma BlitTogglesPixel(gfx: seq<Byte>, memory: seq<Byte>, i: Word, vx: Byte, vy: Byte, n: int, row: int, col: int)
    requires 0 <= row < n && 0 <= col < SpriteRowBits && i + row < |memory|
    requires 0 <= PixelAt(vx, vy, row, col) < |gfx|
    requires SpriteBitSet(memory, i, row, col)
    ensures Blit(gfx, memory, i, Origin(vx, vy), n)[PixelAt(vx, vy, row, col)] == 0xFF - gfx[PixelAt(vx, vy, row, col)]
  {
    PositionFlips(memory, i, vx, vy, n, row, col);
  }

  /** After a blit of a sprite over a whole-pixel framebuffer, it covers a set pixel exactly where it covered a clear one before. */
  lemma {:induction false} HitsAfterBlit(gfx: seq<Byte>, memory: seq<Byte>, i: Word, vx: Byte, vy: Byte, n: int)
    requires |gfx| == GfxSize && |memory| == MemorySize && SpriteInBounds(i, vx, vy, n) && Monochrome(gfx)
    ensures SpriteHitsOn(Blit(gfx, memory, i, Origin(vx, vy), n), memory, i, vx, vy, n, 0xFF)
        <==> SpriteHitsOn(gfx, memory, i, vx, vy, n, 0)
  {
    var g := Blit(gfx, memory, i, Origin(vx, vy), n);
    if SpriteHitsOn(g, memory, i, vx, vy, n, 0xFF) {
      var row, col :| 0 <= row < n && 0 <= col < SpriteRowBits
        && SpriteBitSet(memory, i, row, col) && g[PixelAt(vx, vy, row, col)] == 0xFF;
      PixelInBounds(i, vx, vy, n, row, col);
      BlitTogglesPixel(gfx, memory, i, vx, vy, n, row, col);
      assert gfx[PixelAt(vx, vy, row, col)] == 0;
    }
    if SpriteHitsOn(gfx, memory, i, vx, vy, n, 0) {
      var row, col :| 0 <= row < n && 0 <= col < SpriteRowBits
        && SpriteBitSet(memory, i, row, col) && gfx[PixelAt(vx, vy, row, col)] == 0;
      PixelInBounds(i, vx, vy, n, row, col);
      BlitTogglesPixel(gfx, memory, i, vx, vy, n, row, col);
      assert g[PixelAt(vx, vy, row, col)] == 0xFF;
    }
  }

  /**
   * After one draw of a sprite whose VX and VY are not VF, the sprite covers a set pixel
   * exactly where it covered a clear pixel before the draw.
   */
  lemma {:induction false} HitsAfterDraw(s: State, op: Opcode, rand: Byte)
    requires Wf(s) && Family(op) == 0xD && Safe(s, op, rand)
    requires X(op) != FlagRegister && Y(op) != FlagRegister
    ensures Wf(Execute(s, op, rand))
    ensures SpriteInBounds(s.i, Execute(s, op, rand).v[X(op)], Execute(s, op, rand).v[Y(op)], N(op))
    ensures SpriteHits(Execute(s, op, rand), op, 0xFF) <==> SpriteHits(s, op, 0)
  {
    DrawStep(s, op, rand);
    HitsAfterBlit(s.gfx, s.memory, s.i, s.v[X(op)], s.v[Y(op)], N(op));
  }

  /**
   * Drawing the same sprite twice (VX and VY not the flag register, so the first draw does not
   * move it) restores the framebuffer, and the second draw reports a collision exactly when
   * the sprite covers a pixel that was clear before the first.
   */
  lemma {:induction false} DrawTwiceRestores(s: State, op: Opcode, rand: Byte)
    requires Wf(s) && Family(op) == 0xD && Safe(s, op, rand)
    requires X(op) != FlagRegister && Y(op) != FlagRegister
    ensures Safe(Execute(s, op, rand), op, rand)
    ensures Execute(Execute(s, op, rand), op, rand).gfx == s.gfx
    ensures Execute(Execute(s, op, rand), op, rand).v[FlagRegister] == (if SpriteHits(s, op, 0) then 1 else 0)
  {
    var t := Execute(s, op, rand);
    DrawStep(s, op, rand);
    HitsAfterDraw(s, op, rand);
    DrawStep(t, op, rand);
    BlitInvolutive(s.gfx, s.memory, s.i, Origin(s.v[X(op)], s.v[Y(op)]), N(op));
    DrawCollisionFlag(t, op, rand);
  }
}
