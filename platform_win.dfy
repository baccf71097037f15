/**
 * The deterministic parts of the SDL backend (PlatformWin.cpp): the key-event handling of
 * platformPollInput with its kKeyMappings table, and the texture expansion of platformDraw.
 * SDL itself (the event queue, the renderer, the texture upload) stays outside: the pending
 * event is a parameter and the upload calls after the expansion loop are not modelled.
 */
module PlatformWin {
  import opened EmuTypes
  import Machine

  /** An SDL_Keycode (a signed 32-bit value); printable keys are their character codes. */
  type KeyCode = int

  /** kKeyMappings: the keyboard symbol for each CHIP-8 key 0x0-0xF (SDLK_c, SDLK_1, ..., SDLK_v). */
  const KeyMappings: seq<KeyCode> := [
    'c' as int, '1' as int, '2' as int, '3' as int, 'q' as int, 'w' as int, 'e' as int, 'a' as int,
    's' as int, 'd' as int, 'z' as int, 'x' as int, '4' as int, 'r' as int, 'f' as int, 'v' as int]

  const Plus: KeyCode := '+' as int
  const EqualsKey: KeyCode := '=' as int
  const Minus: KeyCode := '-' as int
  const Underscore: KeyCode := '_' as int

  /** SDL_RenderTexture's format, SDL_PIXELFORMAT_RGB24, stores three bytes per pixel. */
  const BytesPerPixel := 3

  /** What SDL_PollEvent hands over: nothing (it returned 0), a quit request, a key going down or up, or any other event. */
  datatype Event = NoEvent | Quit | KeyDown(sym: KeyCode) | KeyUp(sym: KeyCode) | OtherEvent

  /** The return value of platformPollInput and the final values of its two in/out references. */
  datatype PollResult = PollResult(quit: bool, key: Byte, hint: int)

  /** The position of the first `sym` in `keys`, or `|keys|` when it is absent. */
  function IndexOf(keys: seq<KeyCode>, sym: KeyCode): (r: nat)
    ensures r <= |keys|
    ensures r < |keys| ==> keys[r] == sym
    ensures forall j :: 0 <= j < r ==> keys[j] != sym
  {
    if |keys| == 0 then 0
    else if keys[0] == sym then 0
    else 1 + IndexOf(keys[1..], sym)
  }

  /** No two CHIP-8 keys share a keyboard symbol. */
  lemma MappingsDistinct()
    ensures forall i, j :: 0 <= i < j < |KeyMappings| ==> KeyMappings[i] != KeyMappings[j]
  {
  }

  /** The key slot and hint after one event, as platformPollInput leaves them. */
  function Poll(event: Event, key: Byte, hint: int): (r: PollResult)
  {
    match event
    case NoEvent => PollResult(false, key, hint)
    case Quit => PollResult(true, key, hint)
    case KeyDown(sym) =>
      var k := IndexOf(KeyMappings, sym);
      var newHint :=
        if sym == Plus || sym == EqualsKey then 1
        else if sym == Minus || sym == Underscore then -1
        else hint;
      PollResult(false, if k < |KeyMappings| then k else key, newHint)
    case KeyUp(sym) =>
      PollResult(false, if IndexOf(KeyMappings, sym) < |KeyMappings| then InvalidKey else key, hint)
    case OtherEvent => PollResult(false, key, hint)
  }

  /** The search loop over kKeyMappings that both key cases run: the index of the matching entry, or 16 when none matches. */
  method FindMapping(sym: KeyCode) returns (index: nat)
    ensures index == IndexOf(KeyMappings, sym)
  {
    index := 0;
    while index < |KeyMappings|
      invariant 0 <= index <= |KeyMappings|
      invariant forall j :: 0 <= j < index ==> KeyMappings[j] != sym
    {
      if KeyMappings[index] == sym {
        return;
      }
      index := index + 1;
    }
  }

  /** platformPollInput: the in/out key slot and rate hint come in as `key` and `hint` and go out as `keyOut` and `hintOut`. */
  method PollInput(event: Event, key: Byte, hint: int) returns (quit: bool, keyOut: Byte, hintOut: int)
    ensures PollResult(quit, keyOut, hintOut) == Poll(event, key, hint)
  {
    quit, keyOut, hintOut := false, key, hint;
    match event
    case NoEvent =>
      return false, keyOut, hintOut;
    case Quit =>
      quit := true;
    case KeyDown(sym) =>
      var index := FindMapping(sym);
      if index < |KeyMappings| {
        keyOut := index;
      }
      if sym == Plus || sym == EqualsKey {
        hintOut := 1;
      } else if sym == Minus || sym == Underscore {
        hintOut := -1;
      }
    case KeyUp(sym) =>
      var index := FindMapping(sym);
      if index < |KeyMappings| {
        keyOut := InvalidKey;
      }
    case OtherEvent =>
  }

  /** With no pending event nothing is written and the emulator does not quit. */
  lemma {:induction false} NoEventKeepsInputs(key: Byte, hint: int)
    ensures Poll(NoEvent, key, hint) == PollResult(false, key, hint)
  {
  }

  /** platformPollInput returns true for a quit event and for nothing else. */
  lemma {:induction false} QuitOnlyOnQuit(event: Event, key: Byte, hint: int)
    ensures Poll(event, key, hint).quit <==> event == Quit
  {
  }

  /** Pressing the symbol of CHIP-8 key `k` makes `k` the held key. */
  lemma {:induction false} KeyDownSelects(k: int, key: Byte, hint: int)
    requires 0 <= k < |KeyMappings|
    ensures Poll(KeyDown(KeyMappings[k]), key, hint).key == k
  {
    MappingsDistinct();
    var r := IndexOf(KeyMappings, KeyMappings[k]);
    assert r <= k;
  }

  /** Releasing any mapped symbol clears the key slot, whichever key was held. */
  lemma {:induction false} KeyUpReleases(sym: KeyCode, key: Byte, hint: int)
    requires sym in KeyMappings
    ensures Poll(KeyUp(sym), key, hint) == PollResult(false, InvalidKey, hint)
  {
    var k :| 0 <= k < |KeyMappings| && KeyMappings[k] == sym;
    assert IndexOf(KeyMappings, sym) <= k;
  }

  /** A symbol outside the table leaves the key slot as it was, on key-down and key-up alike. */
  lemma {:induction false} UnmappedKeepsKey(sym: KeyCode, key: Byte, hint: int)
    requires sym !in KeyMappings
    ensures Poll(KeyDown(sym), key, hint).key == key
    ensures Poll(KeyUp(sym), key, hint).key == key
  {
    assert IndexOf(KeyMappings, sym) == |KeyMappings|;
  }

  /**
   * The hint becomes +1 on a plus or equals key-down and -1 on a minus or underscore key-down;
   * every other event leaves it as passed in. None of the four is a CHIP-8 key.
   */
  lemma {:induction false} HintRules(event: Event, key: Byte, hint: int)
    ensures Poll(event, key, hint).hint
      == if event.KeyDown? && (event.sym == Plus || event.sym == EqualsKey) then 1
         else if event.KeyDown? && (event.sym == Minus || event.sym == Underscore) then -1
         else hint
    ensures Plus !in KeyMappings && EqualsKey !in KeyMappings && Minus !in KeyMappings && Underscore !in KeyMappings
  {
    RateKeysUnmapped();
  }

  /** The plus, equals, minus and underscore symbols are not in kKeyMappings. */
  lemma RateKeysUnmapped()
    ensures Plus !in KeyMappings && EqualsKey !in KeyMappings
    ensures Minus !in KeyMappings && Underscore !in KeyMappings
  {
  }

  /**
   * One pollInput of the emulator with this backend (the hint starts at 0): a minus key-down
   * lengthens the instruction period by one delta, a plus key-down shortens it while the
   * modifier is above one delta, and neither touches the held key.
   */
  lemma {:induction false} RateKeysAdjustModifier(s: Machine.State, sym: KeyCode)
    requires sym == Plus || sym == Minus
    ensures var r := Poll(KeyDown(sym), s.key, 0);
      var t := Machine.PollInput(s, r.key, r.hint);
      && t.key == s.key
      && (sym == Minus ==> t.rateModifier == (s.rateModifier + Machine.CycleRateDelta) % 0x1_0000_0000)
      && (sym == Plus ==> t.rateModifier == if s.rateModifier > Machine.CycleRateDelta then s.rateModifier - Machine.CycleRateDelta else s.rateModifier)
  {
    UnmappedKeepsKey(sym, s.key, 0);
  }

  /** The texture after the first `count` framebuffer bytes are each copied to three consecutive texture bytes. */
  function Expand(texture: seq<Byte>, gfx: seq<Byte>, count: int): (t: seq<Byte>)
    requires 0 <= count <= |gfx| && BytesPerPixel * count <= |texture|
    ensures |t| == |texture|
  {
    seq(|texture|, j requires 0 <= j < |texture| => if j < BytesPerPixel * count then gfx[j / 3] else texture[j])
  }

  /** Every third byte of the first `count` pixels of a texture: the framebuffer it shows. */
  function Collapse(texture: seq<Byte>, count: int): (g: seq<Byte>)
    requires 0 <= count && BytesPerPixel * count <= |texture|
    ensures |g| == count
  {
    seq(count, i requires 0 <= i < count => texture[BytesPerPixel * i])
  }

  /** Pixel `i` fills texture bytes 3i, 3i+1 and 3i+2 with framebuffer byte i; the bytes past the image are kept. */
  lemma {:induction false} ExpandTriplicates(texture: seq<Byte>, gfx: seq<Byte>, count: int, i: int)
    requires 0 <= count <= |gfx| && BytesPerPixel * count <= |texture|
    requires 0 <= i < count
    ensures var t := Expand(texture, gfx, count);
      t[3 * i] == gfx[i] && t[3 * i + 1] == gfx[i] && t[3 * i + 2] == gfx[i]
  {
    assert (3 * i + 1) / 3 == i && (3 * i + 2) / 3 == i && (3 * i) / 3 == i;
  }

  /** Reading every third byte back gives the framebuffer: the expansion loses nothing. */
  lemma {:induction false} CollapseExpand(texture: seq<Byte>, gfx: seq<Byte>, count: int)
    requires 0 <= count <= |gfx| && BytesPerPixel * count <= |texture|
    ensures Collapse(Expand(texture, gfx, count), count) == gfx[..count]
  {
    var c := Collapse(Expand(texture, gfx, count), count);
    forall i | 0 <= i < count
      ensures c[i] == gfx[i]
    {
      ExpandTriplicates(texture, gfx, count, i);
    }
  }

  /** The SDL side of the backend that platformDraw touches. */
  class Screen {
    /** gWindow, gRenderer and gTexture were all created by platformInit. */
    var windowReady: bool
    /** gRenderTexture: width * height * 3 bytes, or null when the pixel format could not be created. */
    var renderTexture: array?<Byte>

    /** A backend whose setup succeeded with a texture of `size` bytes. */
    constructor (size: nat)
      ensures windowReady && renderTexture != null && renderTexture.Length == size
      ensures fresh(renderTexture)
    {
      windowReady := true;
      renderTexture := new Byte[size](_ => 0);
    }

    /**
     * platformDraw up to the texture upload: when any setup pointer is missing nothing is
     * written; otherwise each framebuffer byte is copied to its pixel's three texture bytes.
     */
    method Draw(gfx: array<Byte>, width: int, height: int)
      requires gfx != renderTexture
      requires windowReady && renderTexture != null ==>
        && 0 <= width && 0 <= height && width * height <= gfx.Length
        && BytesPerPixel * (width * height) <= renderTexture.Length
      modifies renderTexture
      ensures renderTexture == old(renderTexture)
      ensures !windowReady || renderTexture == null ==> renderTexture == null || renderTexture[..] == old(renderTexture[..])
      ensures windowReady && renderTexture != null ==>
        renderTexture[..] == Expand(old(renderTexture[..]), gfx[..], width * height)
    {
      if !windowReady || renderTexture == null {
        return;
      }
      var texture := renderTexture;
      var count := width * height;
      var i := 0;
      while i < count
        invariant 0 <= i <= count
        invariant texture[..] == Expand(old(texture[..]), gfx[..], i)
      {
        var currentByte := gfx[i];
        texture[BytesPerPixel * i] := currentByte;
        texture[BytesPerPixel * i + 1] := currentByte;
        texture[BytesPerPixel * i + 2] := currentByte;
        i := i + 1;
      }
    }
  }
}
