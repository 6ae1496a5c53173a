/** Level-loading helpers: deriving the map geometry from its width, decoding
    the level flag byte, and the two pixel-shift transforms that build the
    scrolled copies of a backdrop image. */
module LevelUtil {
  import opened Words
  import opened Wrappers

  // ---------------------------------------------------------------------
  // SetMapSize
  // ---------------------------------------------------------------------

  const MAP_WIDTHS: seq<word> := [32, 64, 128, 256, 512, 1024]

  /** The map geometry derived from its width. */
  datatype MapSize = MapSize(widthShift: word, bottom: word)

  /** SetMapSize(width): for one of the six supported widths the shift is
      log2(width) and the bottom row is 32768 / width - 2; any other width
      leaves both values as they were. */
  method SetMapSize(size: MapSize, width: word) returns (size': MapSize)
    ensures width in MAP_WIDTHS ==>
              Pow2(size'.widthShift) == width && size'.bottom == 32768 / width - 2
    ensures width !in MAP_WIDTHS ==> size' == size
  {
    size' := size;
    var i := 0;
    while i < 6
      invariant 0 <= i <= 6
      invariant width !in MAP_WIDTHS[..i] ==> size' == size
      invariant width in MAP_WIDTHS[..i] ==>
                  Pow2(size'.widthShift) == width && size'.bottom == 32768 / width - 2
    {
      if MAP_WIDTHS[i] == width {
        assert Pow2(i + 5) == MAP_WIDTHS[i] by { WidthIsPowerOfTwo(i); }
        size' := MapSize(i + 5, 32768 / width - 1 - 1);
        assert width in MAP_WIDTHS[..i + 1];
        return;
      }
      assert MAP_WIDTHS[..i + 1] == MAP_WIDTHS[..i] + [MAP_WIDTHS[i]];
      i := i + 1;
    }
    assert MAP_WIDTHS[..6] == MAP_WIDTHS;
  }

  lemma WidthIsPowerOfTwo(i: nat)
    requires i < 6
    ensures Pow2(i + 5) == MAP_WIDTHS[i]
  {
    assert Pow2(5) == 32 by {
      assert Pow2(1) == 2 && Pow2(2) == 4 && Pow2(3) == 8 && Pow2(4) == 16;
    }
    assert Pow2(6) == 64 && Pow2(7) == 128 && Pow2(8) == 256 && Pow2(9) == 512 && Pow2(10) == 1024;
  }

  /** For every supported width the map holds (bottom + 2) rows of `width`
      tiles, i.e. exactly the 32768-tile buffer the formula assumes. */
  lemma MapSizeFillsBuffer(w: word)
    requires w in MAP_WIDTHS
    ensures (32768 / w - 2 + 2) * w == 32768
    ensures 32768 / w - 2 >= 30
  {
  }

  // ---------------------------------------------------------------------
  // ParseLevelFlags
  // ---------------------------------------------------------------------

  /** The level flags as the game keeps them. */
  datatype LevelFlags = LevelFlags(
    parallaxBoth: bool, parallaxHorizontal: bool,
    autoScrollX: bool, autoScrollY: bool,
    earthquake: bool, reactorDestruction: bool, switchBackdropOnTeleport: bool,
    secondaryBackdrop: byte)

  /** ParseLevelFlags(flags, secondaryBackdrop, unused1, unused2): one flag
      per bit of the flag byte, bit 2 unused. */
  function ParseLevelFlags(flags: bv8, secondaryBackdrop: byte, unused1: byte, unused2: byte): (f: LevelFlags)
    ensures f.secondaryBackdrop == secondaryBackdrop
  {
    LevelFlags(flags & 0x01 != 0, flags & 0x02 != 0, flags & 0x08 != 0, flags & 0x10 != 0,
               flags & 0x20 != 0, flags & 0x40 != 0, flags & 0x80 != 0, secondaryBackdrop)
  }

  /** The flag byte a level file stores for the given flags (bit 2 clear). */
  function EncodeLevelFlags(f: LevelFlags): (flags: bv8)
    ensures flags & 0x04 == 0
  {
    (if f.parallaxBoth then 0x01 else 0) | (if f.parallaxHorizontal then 0x02 else 0) |
    (if f.autoScrollX then 0x08 else 0) | (if f.autoScrollY then 0x10 else 0) |
    (if f.earthquake then 0x20 else 0) | (if f.reactorDestruction then 0x40 else 0) |
    (if f.switchBackdropOnTeleport then 0x80 else 0)
  }

  /** Each flag comes from its own bit: decoding an encoded flag byte gives
      the flags back, whatever the two unused bytes hold. */
  lemma LevelFlagsRoundTrip(f: LevelFlags, unused1: byte, unused2: byte)
    ensures ParseLevelFlags(EncodeLevelFlags(f), f.secondaryBackdrop, unused1, unused2) == f
  {
  }

  /** Bit 2 is ignored, and a flag byte is fully determined by the flags
      it decodes to apart from that bit. */
  lemma LevelFlagsIgnoreBitTwo(flags: bv8, secondaryBackdrop: byte, unused1: byte, unused2: byte)
    ensures ParseLevelFlags(flags ^ 4, secondaryBackdrop, unused1, unused2) ==
            ParseLevelFlags(flags, secondaryBackdrop, unused1, unused2)
    ensures EncodeLevelFlags(ParseLevelFlags(flags, secondaryBackdrop, unused1, unused2)) == flags & 0xFB
  {
  }

  // ---------------------------------------------------------------------
  // Backdrop images
  // ---------------------------------------------------------------------

  /** A 320x200 image in tile order: 25 rows of 40 tiles, each tile 8 lines
      of 4 plane bytes, so a tile is 32 bytes and a row of tiles 1280. */
  const IMAGE_SIZE: nat := 32000
  const TILE_BYTES: nat := 32
  const TILE_ROW_BYTES: nat := 1280

  type Image = s: seq<bv8> | |s| == IMAGE_SIZE witness seq(IMAGE_SIZE, _ => 0)

  /** The byte holding plane `plane` of line `py % 8` of tile column `col`. */
  function ByteIndex(col: nat, py: nat, plane: nat): (i: nat)
    requires col < 40 && py < 200 && plane < 4
    ensures i < IMAGE_SIZE
  {
    (py / 8) * TILE_ROW_BYTES + col * TILE_BYTES + (py % 8) * 4 + plane
  }

  /** Bit j of a plane byte, counting from the left-most pixel (bit 7). */
  function PixelBit(b: bv8, j: nat): bv8
    requires j < 8
  {
    (b >> (7 - j)) & 1
  }

  /** Plane `plane` of pixel (px, py). */
  function Pixel(img: Image, px: nat, py: nat, plane: nat): bv8
    requires px < 320 && py < 200 && plane < 4
  {
    PixelBit(img[ByteIndex(px / 8, py, plane)], px % 8)
  }

  // ---------------------------------------------------------------------
  // ShiftPixelsVertically
  // ---------------------------------------------------------------------

  /** The destination after the two copy loops, before the temp buffer is
      written back. Row 24's lower lines are read from the 1280 bytes that
      follow the source image in memory, given here as `beyond`. */
  function VerticalCopyLoops(src: Image, beyond: seq<bv8>): (d: Image)
    requires |beyond| == TILE_ROW_BYTES
  {
    seq(IMAGE_SIZE, i requires 0 <= i < IMAGE_SIZE =>
      if i % TILE_BYTES < 16 then src[i + 16]
      else if i + TILE_ROW_BYTES - 16 < IMAGE_SIZE then src[i + TILE_ROW_BYTES - 16]
      else beyond[i + TILE_ROW_BYTES - 16 - IMAGE_SIZE])
  }

  /** ShiftPixelsVertically(srcImage, destImage): the copy loops, then the
      upper four lines of tile row 0 (saved before the loops) are written
      over the lower four lines of tile row 24. */
  function ShiftPixelsVertically(src: Image, beyond: seq<bv8>): (d: Image)
    requires |beyond| == TILE_ROW_BYTES
  {
    var loops := VerticalCopyLoops(src, beyond);
    var temp := TopLinesSaved(src);
    seq(IMAGE_SIZE, i requires 0 <= i < IMAGE_SIZE =>
      if i >= 24 * TILE_ROW_BYTES && i % TILE_BYTES >= 16
      then temp[((i - 24 * TILE_ROW_BYTES) / TILE_BYTES) * 16 + (i % TILE_BYTES - 16)]
      else loops[i])
  }

  /** The temp buffer: the upper four lines (16 bytes) of each tile of tile
      row 0. */
  function TopLinesSaved(src: Image): (temp: seq<bv8>)
    ensures |temp| == 640
  {
    seq(40 * 16, k requires 0 <= k < 640 => src[(k / 16) * TILE_BYTES + k % 16])
  }

  /** The out-of-bounds bytes read for row 24 never reach the result: they
      are all overwritten from the temp buffer. */
  lemma VerticalOverreadIsOverwritten(src: Image, beyond1: seq<bv8>, beyond2: seq<bv8>)
    requires |beyond1| == TILE_ROW_BYTES && |beyond2| == TILE_ROW_BYTES
    ensures ShiftPixelsVertically(src, beyond1) == ShiftPixelsVertically(src, beyond2)
  {
    var d1 := ShiftPixelsVertically(src, beyond1);
    var d2 := ShiftPixelsVertically(src, beyond2);
    forall i | 0 <= i < IMAGE_SIZE
      ensures d1[i] == d2[i]
    {
      if i + TILE_ROW_BYTES - 16 >= IMAGE_SIZE && i % TILE_BYTES >= 16 {
        assert i >= 24 * TILE_ROW_BYTES;
      }
    }
  }

  /** The copy loops do read past the source: the last tile row's lower
      lines come from the memory after the image. */
  lemma VerticalLoopsReadPastSource(src: Image, beyond: seq<bv8>)
    requires |beyond| == TILE_ROW_BYTES
    ensures VerticalCopyLoops(src, beyond)[IMAGE_SIZE - 1] == beyond[TILE_ROW_BYTES - 17]
  {
  }

  /** Where byte i of the result comes from in the source: the same tile's
      next four lines, the tile below's first four lines, or for the lower
      half of tile row 24 the saved upper half of tile row 0. */
  function VerticalSource(i: nat): int
  {
    if i % TILE_BYTES < 16 then i + 16
    else if i < 24 * TILE_ROW_BYTES then i + TILE_ROW_BYTES - 16
    else i - 24 * TILE_ROW_BYTES - 16
  }

  lemma ShiftedByte(src: Image, beyond: seq<bv8>, i: nat)
    requires |beyond| == TILE_ROW_BYTES && i < IMAGE_SIZE
    ensures 0 <= VerticalSource(i) < IMAGE_SIZE
    ensures ShiftPixelsVertically(src, beyond)[i] == src[VerticalSource(i)]
  {
    if i >= 24 * TILE_ROW_BYTES && i % TILE_BYTES >= 16 {
      var q := (i - 24 * TILE_ROW_BYTES) / TILE_BYTES;
      var k := q * 16 + (i % TILE_BYTES - 16);
      assert (i - 24 * TILE_ROW_BYTES) % TILE_BYTES == i % TILE_BYTES;
      assert k / 16 == q && k % 16 == i % TILE_BYTES - 16;
      assert q * TILE_BYTES + i % TILE_BYTES == i - 24 * TILE_ROW_BYTES;
      assert TopLinesSaved(src)[k] == src[VerticalSource(i)];
    }
  }

  /** The source byte of a pixel four lines further down, wrapping at the
      bottom, is the one VerticalSource names for the pixel's byte. */
  lemma {:induction false} VerticalIndex(px: nat, py: nat, plane: nat)
    requires px < 320 && py < 200 && plane < 4
    ensures ByteIndex(px / 8, (py + 4) % 200, plane) == VerticalSource(ByteIndex(px / 8, py, plane))
  {
    var col := px / 8;
    var line := py % 8;
    var r := py / 8;
    var within := line * 4 + plane;
    var i := ByteIndex(col, py, plane);
    var i' := ByteIndex(col, (py + 4) % 200, plane);
    assert i == r * TILE_ROW_BYTES + col * TILE_BYTES + within;
    assert i % TILE_BYTES == within by {
      assert i == (r * 40 + col) * TILE_BYTES + within;
    }
    if py >= 196 {
      assert r == 24 && line >= 4;
      assert (py + 4) % 200 == py - 196;
      assert i' == col * TILE_BYTES + within - 16;
    } else if line < 4 {
      assert (py + 4) % 200 == py + 4;
      assert (py + 4) / 8 == r && (py + 4) % 8 == line + 4;
      assert i' == i + 16;
    } else {
      assert (py + 4) % 200 == py + 4;
      assert (py + 4) / 8 == r + 1 && (py + 4) % 8 == line - 4;
      assert i' == i + TILE_ROW_BYTES - 16;
    }
  }

  /** Every pixel of the result is the source pixel four lines further
      down, wrapping from the bottom of the image to the top. */
  lemma ShiftPixelsVerticallyRotates(src: Image, beyond: seq<bv8>, px: nat, py: nat, plane: nat)
    requires |beyond| == TILE_ROW_BYTES
    requires px < 320 && py < 200 && plane < 4
    ensures Pixel(ShiftPixelsVertically(src, beyond), px, py, plane) == Pixel(src, px, (py + 4) % 200, plane)
  {
    VerticalIndex(px, py, plane);
    ShiftedByte(src, beyond, ByteIndex(px / 8, py, plane));
  }

  // ---------------------------------------------------------------------
  // ShiftPixelsHorizontally
  // ---------------------------------------------------------------------

  /** The right shift that extracts the next tile's left-most pixels: 6 for
      an amount of 2, otherwise the amount itself. */
  function LeftSideShift(amount: nat): nat
  {
    if amount == 2 then 6 else amount
  }

  /** One destination byte: this tile's byte shifted left (truncated to a
      byte), combined with the next tile's byte shifted right. */
  function ShiftByte(b: bv8, next: bv8, amount: nat, leftSideShift: nat): bv8
    requires amount < 8 && leftSideShift < 8
  {
    (b << amount) | (next >> leftSideShift)
  }

  /** The same plane byte of the same line in the next tile to the right;
      the last tile of a row takes the first tile's byte. */
  function NextTileByte(i: nat): (j: nat)
    requires i < IMAGE_SIZE
    ensures j < IMAGE_SIZE
  {
    (i / TILE_ROW_BYTES) * TILE_ROW_BYTES + (((i % TILE_ROW_BYTES) / TILE_BYTES + 1) % 40) * TILE_BYTES + i % TILE_BYTES
  }

  /** ShiftPixelsHorizontally(srcImage, destImage, amount). The loops give
      every tile but the last its next tile's bits, and the last tile the
      bits saved from the first tile of the line. */
  function ShiftPixelsHorizontally(src: Image, amount: byte): (d: Image)
    requires amount < 8
  {
    seq(IMAGE_SIZE, i requires 0 <= i < IMAGE_SIZE =>
      ShiftByte(src[i], src[NextTileByte(i)], amount, LeftSideShift(amount)))
  }

  /** For the amounts the game uses the byte combination is a rotation of the
      pixel bits: pixel j of the result is pixel j + amount of this byte, or
      of the next byte once that runs past the end. */
  lemma ShiftByteRotates(b: bv8, next: bv8, amount: nat, j: nat)
    requires amount == 2 || amount == 4
    requires j < 8
    ensures PixelBit(ShiftByte(b, next, amount, LeftSideShift(amount)), j) ==
            if j + amount < 8 then PixelBit(b, j + amount) else PixelBit(next, j + amount - 8)
  {
    if amount == 2 {
      if j == 0 {} else if j == 1 {} else if j == 2 {} else if j == 3 {}
      else if j == 4 {} else if j == 5 {} else if j == 6 {} else {}
    } else {
      if j == 0 {} else if j == 1 {} else if j == 2 {} else if j == 3 {}
      else if j == 4 {} else if j == 5 {} else if j == 6 {} else {}
    }
  }

  /** With an amount of 1 the right shift is 1 instead of 7, so the bits
      taken from the next tile land in the wrong pixel: a lone left-most
      pixel in the next byte shows up as pixel 1 and not as pixel 7. */
  lemma ShiftByteAmountOneIsNoRotation()
    ensures PixelBit(ShiftByte(0, 0x80, 1, LeftSideShift(1)), 7) == 0
    ensures PixelBit(0x80, 0) == 1
    ensures PixelBit(ShiftByte(0, 0x80, 1, LeftSideShift(1)), 1) == 1
  {
  }

  lemma {:induction false} HorizontalIndex(px: nat, py: nat, plane: nat, amount: nat)
    requires px < 320 && py < 200 && plane < 4 && amount < 8
    ensures var i := ByteIndex(px / 8, py, plane);
      (px % 8 + amount < 8 ==> (px + amount) % 320 / 8 == px / 8 && (px + amount) % 320 % 8 == px % 8 + amount) &&
      (px % 8 + amount >= 8 ==> NextTileByte(i) == ByteIndex((px + amount) % 320 / 8, py, plane) &&
                                (px + amount) % 320 % 8 == px % 8 + amount - 8)
  {
    var col := px / 8;
    var i := ByteIndex(col, py, plane);
    var r := py / 8;
    var within := (py % 8) * 4 + plane;
    assert within < TILE_BYTES;
    assert i == r * TILE_ROW_BYTES + (col * TILE_BYTES + within);
    assert i / TILE_ROW_BYTES == r && i % TILE_ROW_BYTES == col * TILE_BYTES + within by {
      assert col * TILE_BYTES + within < TILE_ROW_BYTES;
    }
    assert (col * TILE_BYTES + within) / TILE_BYTES == col && (col * TILE_BYTES + within) % TILE_BYTES == within;
    assert i % TILE_BYTES == within by {
      assert i == (r * 40 + col) * TILE_BYTES + within;
    }
    if px % 8 + amount >= 8 {
      var next := (col + 1) % 40;
      assert NextTileByte(i) == r * TILE_ROW_BYTES + next * TILE_BYTES + within;
      if col == 39 {
        assert (px + amount) % 320 == px + amount - 320;
        assert (px + amount) % 320 / 8 == next;
      } else {
        assert (px + amount) % 320 == px + amount;
        assert (px + amount) / 8 == col + 1 == next;
      }
      assert ByteIndex(next, py, plane) == r * TILE_ROW_BYTES + next * TILE_BYTES + within;
    } else {
      assert (px + amount) % 320 == px + amount;
    }
  }

  /** For the amounts the game uses (2 and 4), every pixel of the result is
      the source pixel `amount` columns further right on the same line,
      wrapping from the right edge to the left. */
  lemma ShiftPixelsHorizontallyRotates(src: Image, amount: byte, px: nat, py: nat, plane: nat)
    requires amount == 2 || amount == 4
    requires px < 320 && py < 200 && plane < 4
    ensures Pixel(ShiftPixelsHorizontally(src, amount), px, py, plane) == Pixel(src, (px + amount) % 320, py, plane)
  {
    var i := ByteIndex(px / 8, py, plane);
    HorizontalIndex(px, py, plane, amount);
    ShiftByteRotates(src[i], src[NextTileByte(i)], amount, px % 8);
  }
}
