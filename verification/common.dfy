/** Screen-address and keyboard helper macros shared by the whole game. */
module Common {
  import opened Words

  /** Byte offset in EGA video memory of the 8x8 tile at tile column x and
      tile row y: a tile row is 8 bytes wide, a screen row of tiles 320. */
  function XyToOffset(x: int, y: int): int
  {
    x * 8 + y * 320
  }

  /** On the 40x25 tile screen an offset determines its tile position. */
  lemma XyToOffsetDecodes(x: nat, y: nat)
    requires x < 40
    ensures XyToOffset(x, y) % 320 / 8 == x
    ensures XyToOffset(x, y) / 320 == y
    ensures XyToOffset(x, y) % 8 == 0
  {
    assert XyToOffset(x, y) == y * 320 + x * 8;
  }

  /** Tiles to pixels: `v << 3` on a word. */
  function T2px(v: word): word
  {
    Wrap16(v * 8)
  }

  /** Converting a tile count to pixels is the horizontal offset of that tile. */
  lemma T2pxIsColumnOffset(v: word)
    requires v < 0x2000
    ensures T2px(v) == XyToOffset(v, 0)
    ensures T2px(v) % 8 == 0
  {
  }

  /** The last scancode is a key press (not a release): bit 7 is clear. */
  predicate AnyKeyPressed(scancode: byte)
  {
    !HasBit(scancode, 7)
  }

  /** The key number of the last scancode, with the release bit masked off. */
  function LastScancode(scancode: byte): (k: byte)
    ensures k < 0x80
  {
    scancode % 0x80
  }

  /** A scancode is its key number plus 0x80 exactly when it reports a
      release, so the two macros together lose no information. */
  lemma ScancodeSplit(scancode: byte)
    ensures scancode == LastScancode(scancode) + (if AnyKeyPressed(scancode) then 0 else 0x80)
  {
  }

  /** A make code (release = false) or break code built from a key number is
      read back by the two macros. */
  lemma ScancodeRoundTrip(key: byte, released: bool)
    requires key < 0x80
    ensures var sc := key + (if released then 0x80 else 0);
      LastScancode(sc) == key && AnyKeyPressed(sc) == !released
  {
  }
}
