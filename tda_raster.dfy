/** The Text Display Adapter's rasterizer (src/devices/tda.cpp,
    TDAtoRGBATexture and TDAtoBGRATexture with a caller-held frame
    counter).

    A 40x30 grid of 16-bit cells (glyph in bits 0-7, foreground palette
    index in bits 8-11, background in bits 12-15) is expanded into a
    320x240 texture of 32-bit colours, one 8x8 glyph per cell, most
    significant font bit leftmost. A cursor rectangle is painted over the
    text on the calls the blink counter says are due, and the BGRA variant
    swaps the red and blue bytes of every pixel afterwards.

    The specification is per pixel index i, with column i % 320 and row
    i / 320 (TextColor, Covers, Render); the methods keep the four nested
    loops of the code and are proved against it. */
module TdaRaster {
  import opened Common

  const WidthChars := 40
  const HeightChars := 30
  const Width := 320
  const Height := 240
  const Pixels := 320 * 240
  const Cells := 40 * 30
  const FontBytes := 256 * 8

  /** An 8-bit unsigned number used in address arithmetic. */
  type UInt8 = x: int | 0 <= x < 0x100

  /** The view of the adapter the rasterizer reads: the text cells, the
      user font, the cursor shape and position, and the control flags. */
  datatype Screen = Screen(txtBuffer: seq<Word>, fontBuffer: seq<Byte>,
                           curStart: UInt8, curEnd: UInt8, curRow: UInt8, curCol: UInt8, curColor: UInt8,
                           userFont: bool, cursor: bool, blink: bool)

  /** Sizes the code relies on: a full text buffer, a full user font, a
      ROM font of at least 256 glyphs and a palette of 16 colours. */
  predicate WellFormed(screen: Screen, romFont: seq<Byte>, palette: seq<DWord>)
  {
    |screen.txtBuffer| == Cells && |screen.fontBuffer| == FontBytes &&
    |romFont| >= FontBytes && |palette| == 16
  }

  /** The ROM font unless the screen selects its user font. */
  function FontOf(screen: Screen, romFont: seq<Byte>): seq<Byte>
  {
    if screen.userFont then screen.fontBuffer else romFont
  }

  // ---------------------------------------------------------------------
  // The text pass

  /** Whether pixel x of a glyph line is set: bit 7-x, so that the most
      significant bit is the leftmost pixel. */
  function GlyphBit(line: Byte, x: int): bool
    requires 0 <= x < 8
  {
    line & (1 << (7 - x)) != 0
  }

  /** The leftmost pixel of a glyph line is its most significant bit and
      the rightmost its least significant one. */
  lemma GlyphBitEnds(line: Byte)
    ensures GlyphBit(line, 0) <==> line >= 0x80
    ensures GlyphBit(line, 7) <==> line % 2 == 1
  {
  }

  /** Colour of pixel (x, y) of a cell: the foreground palette entry when
      bit 7-x of line y of the cell's glyph is set, else the background. */
  function CellColor(cell: Word, font: seq<Byte>, palette: seq<DWord>, y: int, x: int): DWord
    requires |font| >= FontBytes && |palette| == 16 && 0 <= y < 8 && 0 <= x < 8
  {
    var glyph := cell % 0x100;
    var fg := (cell / 0x100) % 0x10;
    var bg := (cell / 0x1000) % 0x10;
    if GlyphBit(font[glyph * 8 + y], x) then palette[fg] else palette[bg]
  }

  /** Colour of texture pixel i after the text pass. */
  function TextColor(txt: seq<Word>, font: seq<Byte>, palette: seq<DWord>, i: int): DWord
    requires |txt| == Cells && |font| >= FontBytes && |palette| == 16 && 0 <= i < Pixels
  {
    var px := i % Width;
    var py := i / Width;
    CellColor(txt[px / 8 + WidthChars * (py / 8)], font, palette, py % 8, px % 8)
  }

  function TextImage(txt: seq<Word>, font: seq<Byte>, palette: seq<DWord>): (t: seq<DWord>)
    requires |txt| == Cells && |font| >= FontBytes && |palette| == 16
  {
    seq(Pixels, i requires 0 <= i < Pixels => TextColor(txt, font, palette, i))
  }

  /** Texture pixel (px, py) is stored at index px + 320*py. */
  lemma PixelIndex(px: int, py: int)
    requires 0 <= px < Width && 0 <= py < Height
    ensures var i := px + Width * py; 0 <= i < Pixels && i % Width == px && i / Width == py
  {
  }

  /** Pixel (x, y) of cell (row, col) sits at x + col*8 + 320*(y + row*8),
      and every such address is a distinct pixel of the texture. */
  lemma PixelAddress(row: int, col: int, y: int, x: int)
    requires 0 <= row < HeightChars && 0 <= col < WidthChars && 0 <= y < 8 && 0 <= x < 8
    ensures var i := x + col * 8 + Width * (y + row * 8);
      0 <= i < Pixels &&
      i % Width == col * 8 + x && i / Width == row * 8 + y &&
      (col * 8 + x) / 8 == col && (col * 8 + x) % 8 == x &&
      (row * 8 + y) / 8 == row && (row * 8 + y) % 8 == y
  {
    PixelIndex(col * 8 + x, row * 8 + y);
  }

  /** The text pass, cell by cell: pixel (x, y) of cell (row, col) gets the
      foreground colour of the cell when bit 7-x of the glyph's line y is
      set and the background colour otherwise. The glyph is the cell's low
      byte, the colours its bits 8-11 and 12-15. */
  lemma TextPixel(txt: seq<Word>, font: seq<Byte>, palette: seq<DWord>, row: int, col: int, y: int, x: int)
    requires |txt| == Cells && |font| >= FontBytes && |palette| == 16
    requires 0 <= row < HeightChars && 0 <= col < WidthChars && 0 <= y < 8 && 0 <= x < 8
    ensures var cell := txt[col + WidthChars * row];
      var line := font[(cell % 0x100) * 8 + y];
      TextImage(txt, font, palette)[x + col * 8 + Width * (y + row * 8)] ==
        if GlyphBit(line, x) then palette[(cell / 0x100) % 0x10]
        else palette[(cell / 0x1000) % 0x10]
  {
    PixelAddress(row, col, y, x);
  }

  /** Texture pixel x + col*8 + 320*(y + row*8) takes its colour from pixel
      (x, y) of cell col + 40*row. */
  lemma TextColorAt(txt: seq<Word>, font: seq<Byte>, palette: seq<DWord>, row: int, col: int, y: int, x: int)
    requires |txt| == Cells && |font| >= FontBytes && |palette| == 16
    requires 0 <= row < HeightChars && 0 <= col < WidthChars && 0 <= y < 8 && 0 <= x < 8
    ensures 0 <= x + col * 8 + Width * (y + row * 8) < Pixels
    ensures TextColor(txt, font, palette, x + col * 8 + Width * (y + row * 8)) ==
            CellColor(txt[col + WidthChars * row], font, palette, y, x)
  {
    PixelAddress(row, col, y, x);
  }

  /** Pixel i is done once the text pass has reached pixel (x, y) of cell
      (row, col): its cell row is above, or it is in an earlier cell of the
      same row, or in an earlier line or column of the same cell. */
  ghost predicate TextDone(row: int, col: int, y: int, x: int, i: int)
  {
    var px := i % Width;
    var py := i / Width;
    py < row * 8 ||
    (py < row * 8 + 8 &&
      (px < col * 8 ||
       (px < col * 8 + 8 && (py < row * 8 + y || (py == row * 8 + y && px < col * 8 + x)))))
  }

  /** Painting pixel (x, y) of cell (row, col) adds exactly its index to the
      pixels done. */
  lemma TextDoneStep(row: int, col: int, y: int, x: int)
    requires 0 <= row < HeightChars && 0 <= col < WidthChars && 0 <= y < 8 && 0 <= x < 8
    ensures forall i :: 0 <= i < Pixels ==>
      (TextDone(row, col, y, x + 1, i) <==> TextDone(row, col, y, x, i) || i == x + col * 8 + Width * (y + row * 8))
  {
    PixelAddress(row, col, y, x);
  }

  /** The end of a glyph line, of a cell and of a cell row are the start of
      the next one. */
  lemma TextDoneCarry(row: int, col: int, y: int)
    ensures forall i :: 0 <= i < Pixels ==> (TextDone(row, col, y, 8, i) <==> TextDone(row, col, y + 1, 0, i))
    ensures forall i :: 0 <= i < Pixels ==> (TextDone(row, col, 8, 0, i) <==> TextDone(row, col + 1, 0, 0, i))
    ensures forall i :: 0 <= i < Pixels ==> (TextDone(row, WidthChars, 0, 0, i) <==> TextDone(row + 1, 0, 0, 0, i))
  {
  }

  /** Pixel i lies in cell (row, col): texture lines [row*8, row*8+8) and
      columns [col*8, col*8+8). */
  predicate InCell(row: int, col: int, i: int)
  {
    row * 8 <= i / Width < row * 8 + 8 && col * 8 <= i % Width < col * 8 + 8
  }

  /** The glyph of cell (row, col): its 64 pixels take their text-pass
      colours and every other pixel of the texture keeps its value. */
  method PaintCell(txt: seq<Word>, font: seq<Byte>, palette: seq<DWord>, texture: array<DWord>, row: int, col: int)
    requires |txt| == Cells && |font| >= FontBytes && |palette| == 16 && texture.Length == Pixels
    requires 0 <= row < HeightChars && 0 <= col < WidthChars
    modifies texture
    ensures forall i :: 0 <= i < Pixels ==>
      texture[i] == if InCell(row, col, i) then TextColor(txt, font, palette, i) else old(texture[i])
  {
    var addr := col + WidthChars * row;
    var c := txt[addr] % 0x100;
    var fg := (txt[addr] / 0x100) % 0x10;
    var bg := (txt[addr] / 0x1000) % 0x10;
    var y := 0;
    while y < 8
      invariant 0 <= y <= 8
      invariant forall i :: 0 <= i < Pixels ==>
        texture[i] == if InCell(row, col, i) && TextDone(row, col, y, 0, i) then TextColor(txt, font, palette, i) else old(texture[i])
    {
      var pixels := font[c * 8 + y];
      var x := 0;
      while x < 8
        invariant 0 <= x <= 8
        invariant forall i :: 0 <= i < Pixels ==>
          texture[i] == if InCell(row, col, i) && TextDone(row, col, y, x, i) then TextColor(txt, font, palette, i) else old(texture[i])
      {
        TextColorAt(txt, font, palette, row, col, y, x);
        TextDoneStep(row, col, y, x);
        var p := x + col * 8 + Width * (y + row * 8);
        if GlyphBit(pixels, x) {
          texture[p] := palette[fg];
        } else {
          texture[p] := palette[bg];
        }
        assert texture[p] == CellColor(txt[addr], font, palette, y, x);
        x := x + 1;
      }
      TextDoneCarry(row, col, y);
      y := y + 1;
    }
  }

  /** Once cell (row, col) is painted, the pixels done are those done before
      it and those of the cell. */
  lemma TextDoneCell(row: int, col: int)
    ensures forall i :: 0 <= i < Pixels ==>
      (TextDone(row, col + 1, 0, 0, i) <==> TextDone(row, col, 0, 0, i) || InCell(row, col, i))
  {
  }

  /** The text pass over all 40x30 cells, row by row. */
  method PaintText(txt: seq<Word>, font: seq<Byte>, palette: seq<DWord>, texture: array<DWord>)
    requires |txt| == Cells && |font| >= FontBytes && |palette| == 16 && texture.Length == Pixels
    modifies texture
    ensures texture[..] == TextImage(txt, font, palette)
  {
    var row := 0;
    while row < HeightChars
      invariant 0 <= row <= HeightChars
      invariant forall i :: 0 <= i < Pixels && TextDone(row, 0, 0, 0, i) ==> texture[i] == TextColor(txt, font, palette, i)
    {
      var col := 0;
      while col < WidthChars
        invariant 0 <= col <= WidthChars
        invariant forall i :: 0 <= i < Pixels && TextDone(row, col, 0, 0, i) ==> texture[i] == TextColor(txt, font, palette, i)
      {
        PaintCell(txt, font, palette, texture, row, col);
        TextDoneCell(row, col);
        col := col + 1;
      }
      TextDoneCarry(row, WidthChars, 0);
      row := row + 1;
    }
    assert forall i :: 0 <= i < Pixels ==> texture[..][i] == TextImage(txt, font, palette)[i];
  }

  // ---------------------------------------------------------------------
  // The cursor

  /** The cursor is drawn at all only when its first line is not below its
      last and its cell is on the screen. */
  predicate CursorShown(screen: Screen)
  {
    screen.curStart <= screen.curEnd && screen.curRow < HeightChars && screen.curCol < WidthChars
  }

  /** What the code does not check and the caller must ensure when the
      cursor is due: its colour is a palette index as soon as its first line
      is not below its last (the palette is read before the position test),
      and its last line is on the screen when it is drawn. */
  predicate CursorFits(screen: Screen)
  {
    (screen.curStart <= screen.curEnd ==> screen.curColor < 16) &&
    (CursorShown(screen) ==> screen.curRow * 8 + screen.curEnd < Height)
  }

  /** Pixel i lies in the cursor rectangle: columns [col*8, col*8+8) and
      rows [row*8 + start, row*8 + end] of the texture. */
  predicate Covers(screen: Screen, i: int)
  {
    var px := i % Width;
    var py := i / Width;
    CursorShown(screen) &&
    screen.curCol * 8 <= px < screen.curCol * 8 + 8 &&
    screen.curRow * 8 + screen.curStart <= py <= screen.curRow * 8 + screen.curEnd
  }

  function WithCursor(t: seq<DWord>, screen: Screen, color: DWord): seq<DWord>
    requires |t| == Pixels
  {
    seq(Pixels, i requires 0 <= i < Pixels => if Covers(screen, i) then color else t[i])
  }

  /** Pixel i is painted once the cursor loops have reached pixel x of
      texture line y. */
  ghost predicate CursorDone(screen: Screen, y: int, x: int, i: int)
  {
    var px := i % Width;
    var py := i / Width;
    screen.curCol * 8 <= px < screen.curCol * 8 + 8 &&
    screen.curRow * 8 + screen.curStart <= py &&
    (py < screen.curRow * 8 + y || (py == screen.curRow * 8 + y && px < screen.curCol * 8 + x))
  }

  method PaintCursor(screen: Screen, color: DWord, texture: array<DWord>)
    requires texture.Length == Pixels && CursorShown(screen) && CursorFits(screen)
    modifies texture
    ensures texture[..] == WithCursor(old(texture[..]), screen, color)
  {
    var col := screen.curCol;
    var row := screen.curRow;
    var y := screen.curStart;
    while y <= screen.curEnd
      invariant screen.curStart <= y <= screen.curEnd + 1
      invariant forall i :: 0 <= i < Pixels ==>
        texture[i] == if CursorDone(screen, y, 0, i) then color else old(texture[i])
    {
      var x := 0;
      while x < 8
        invariant 0 <= x <= 8
        invariant forall i :: 0 <= i < Pixels ==>
          texture[i] == if CursorDone(screen, y, x, i) then color else old(texture[i])
      {
        PixelIndex(x + col * 8, y + row * 8);
        texture[x + col * 8 + Width * (y + row * 8)] := color;
        x := x + 1;
      }
      y := y + 1;
    }
    assert forall i :: 0 <= i < Pixels ==> texture[..][i] == WithCursor(old(texture[..]), screen, color)[i];
  }

  // ---------------------------------------------------------------------
  // The blink counter

  datatype BlinkStep = BlinkStep(draw: bool, next: U32)

  /** One call's test of the counter, `frames++ < 8` and then
      `frames++ < 16` on the incremented value, with 32-bit wrap-around. */
  function Blink(frames: U32): BlinkStep
  {
    if frames < 8 then BlinkStep(true, frames + 1)
    else
      var f := Wrap(frames + 1);
      if f < 16 then BlinkStep(false, Wrap(f + 1)) else BlinkStep(false, 0)
  }

  /** The counter's transition in plain terms: below 8 it draws and counts
      one; from 8 to 14 it skips and counts two; from 15 on it skips and
      resets to 0, except at 2^32 - 1, where the first increment wraps to
      0 and the second leaves 1. */
  lemma BlinkTransition(frames: U32)
    ensures Blink(frames) ==
      if frames < 8 then BlinkStep(true, frames + 1)
      else if frames <= 14 then BlinkStep(false, frames + 2)
      else if frames < Modulus - 1 then BlinkStep(false, 0)
      else BlinkStep(false, 1)
  {
  }

  /** n consecutive calls with the cursor enabled: whether each one drew
      the cursor, and the counter afterwards. */
  function BlinkRun(frames: U32, n: nat): (seq<bool>, U32)
    decreases n
  {
    if n == 0 then ([], frames)
    else
      var s := Blink(frames);
      var rest := BlinkRun(s.next, n - 1);
      ([s.draw] + rest.0, rest.1)
  }

  /** From a zero counter the cursor is drawn on 8 calls and skipped on the
      next 5 (entry values 8, 10, 12, 14, 16), after which the counter is 0
      again: the blink period is 13 calls, not 16. */
  lemma BlinkPeriod()
    ensures BlinkRun(0, 13).0 == [true, true, true, true, true, true, true, true,
                                  false, false, false, false, false]
    ensures BlinkRun(0, 13).1 == 0
  {
    assert Blink(8) == BlinkStep(false, 10) && Blink(10) == BlinkStep(false, 12);
    assert Blink(12) == BlinkStep(false, 14) && Blink(14) == BlinkStep(false, 16);
    assert Blink(16) == BlinkStep(false, 0);
    assert BlinkRun(0, 0).0 == [] && BlinkRun(0, 0).1 == 0;
    assert BlinkRun(16, 1).0 == [false] && BlinkRun(16, 1).1 == 0;
    assert BlinkRun(14, 2).0 == [false, false] && BlinkRun(14, 2).1 == 0;
    assert BlinkRun(12, 3).0 == [false, false, false] && BlinkRun(12, 3).1 == 0;
    assert BlinkRun(10, 4).0 == [false, false, false, false] && BlinkRun(10, 4).1 == 0;
    assert BlinkRun(8, 5).0 == [false, false, false, false, false] && BlinkRun(8, 5).1 == 0;
    assert BlinkRun(7, 6).0 == [true, false, false, false, false, false];
    assert BlinkRun(6, 7).0 == [true, true, false, false, false, false, false];
    assert BlinkRun(5, 8).0 == [true, true, true, false, false, false, false, false];
    assert BlinkRun(4, 9).0 == [true, true, true, true, false, false, false, false, false];
    assert BlinkRun(3, 10).0 == [true, true, true, true, true, false, false, false, false, false];
    assert BlinkRun(2, 11).0 == [true, true, true, true, true, true, false, false, false, false, false];
    assert BlinkRun(1, 12).0 == [true, true, true, true, true, true, true, false, false, false, false, false];
  }

  /** The counter never leaves the cycle once it is in it: from at most 16
      it stays at most 16. */
  lemma BlinkStaysInCycle(frames: U32)
    requires frames <= 16
    ensures Blink(frames).next <= 16 && (Blink(frames).draw <==> frames < 8)
  {
  }

  // ---------------------------------------------------------------------
  // The whole frame

  datatype Frame = Frame(texture: seq<DWord>, frames: U32)

  /** The texture and counter after one call: the text pass, then, when the
      cursor is enabled, one blink step and the cursor overlay if it is
      due. With the cursor disabled, the counter is left alone. */
  function Render(screen: Screen, romFont: seq<Byte>, palette: seq<DWord>, frames: U32): Frame
    requires WellFormed(screen, romFont, palette)
    requires screen.cursor && frames < 8 ==> CursorFits(screen)
  {
    var text := TextImage(screen.txtBuffer, FontOf(screen, romFont), palette);
    if !screen.cursor then Frame(text, frames)
    else
      var s := Blink(frames);
      if s.draw && screen.curStart <= screen.curEnd then
        Frame(WithCursor(text, screen, palette[screen.curColor]), s.next)
      else Frame(text, s.next)
  }

  /** Each pixel of a frame is the cursor colour when the cursor is enabled,
      due and covers it, and its text-pass colour otherwise; the counter
      moves only when the cursor is enabled. */
  lemma RenderPixel(screen: Screen, romFont: seq<Byte>, palette: seq<DWord>, frames: U32, i: int)
    requires WellFormed(screen, romFont, palette)
    requires screen.cursor && frames < 8 ==> CursorFits(screen)
    requires 0 <= i < Pixels
    ensures var r := Render(screen, romFont, palette, frames);
      |r.texture| == Pixels &&
      r.texture[i] == (if screen.cursor && frames < 8 && Covers(screen, i) then palette[screen.curColor]
                       else TextColor(screen.txtBuffer, FontOf(screen, romFont), palette, i)) &&
      r.frames == (if screen.cursor then Blink(frames).next else frames)
  {
  }

  /** The cursor rectangle in cell terms: when the cursor is enabled, due
      and shown, pixel x of texture line cur_row*8 + y, for cur_start <= y
      <= cur_end, in cell column cur_col, has the cursor colour. */
  lemma CursorPixel(screen: Screen, romFont: seq<Byte>, palette: seq<DWord>, frames: U32, y: int, x: int)
    requires WellFormed(screen, romFont, palette)
    requires screen.cursor && frames < 8 && CursorShown(screen) && CursorFits(screen)
    requires screen.curStart <= y <= screen.curEnd && 0 <= x < 8
    ensures Render(screen, romFont, palette, frames).texture[x + screen.curCol * 8 + Width * (y + screen.curRow * 8)]
            == palette[screen.curColor]
  {
    var i := x + screen.curCol * 8 + Width * (y + screen.curRow * 8);
    PixelIndex(x + screen.curCol * 8, y + screen.curRow * 8);
    assert Covers(screen, i);
  }

  /** No blink flag is consulted, and the user font is read only when it is
      selected. */
  lemma RenderIgnores(screen: Screen, romFont: seq<Byte>, palette: seq<DWord>, frames: U32, blink: bool, fontBuffer: seq<Byte>)
    requires WellFormed(screen, romFont, palette) && |fontBuffer| == FontBytes
    requires screen.cursor && frames < 8 ==> CursorFits(screen)
    ensures Render(screen.(blink := blink), romFont, palette, frames) == Render(screen, romFont, palette, frames)
    ensures !screen.userFont ==>
      Render(screen.(fontBuffer := fontBuffer), romFont, palette, frames) == Render(screen, romFont, palette, frames)
  {
    var s2 := screen.(fontBuffer := fontBuffer);
    assert Covers(screen.(blink := blink), 0) == Covers(screen, 0);
    if !screen.userFont {
      assert FontOf(s2, romFont) == FontOf(screen, romFont);
      assert forall i :: Covers(s2, i) == Covers(screen, i);
    }
  }

  method TdaToRgbaTexture(screen: Screen, romFont: seq<Byte>, palette: seq<DWord>, texture: array<DWord>, frames: U32)
    returns (framesOut: U32)
    requires WellFormed(screen, romFont, palette) && texture.Length == Pixels
    requires screen.cursor && frames < 8 ==> CursorFits(screen)
    modifies texture
    ensures Frame(texture[..], framesOut) == Render(screen, romFont, palette, frames)
  {
    var font := romFont;
    if screen.userFont {
      font := screen.fontBuffer;
    }
    PaintText(screen.txtBuffer, font, palette, texture);
    ghost var text := texture[..];
    framesOut := frames;
    if screen.cursor {
      var f := framesOut;
      framesOut := Wrap(framesOut + 1);
      if f < 8 {
        if screen.curStart <= screen.curEnd {
          var color := palette[screen.curColor];
          if screen.curRow < HeightChars && screen.curCol < WidthChars {
            PaintCursor(screen, color, texture);
          } else {
            assert texture[..] == WithCursor(text, screen, color);
          }
        }
      } else {
        var g := framesOut;
        framesOut := Wrap(framesOut + 1);
        if g < 16 {
        } else {
          framesOut := 0;
        }
      }
    }
  }

  // ---------------------------------------------------------------------
  // The BGRA post-pass

  /** A colour with its red (byte 0) and blue (byte 2) bytes exchanged and
      bytes 1 and 3 kept. */
  function SwapRB(c: DWord): (r: DWord)
    ensures r & 0xFF00_FF00 == c & 0xFF00_FF00
    ensures r & 0xFF == (c >> 16) & 0xFF
    ensures (r >> 16) & 0xFF == c & 0xFF
  {
    (c & 0xFF00_FF00) | ((c & 0xFF) << 16) | ((c & 0xFF_0000) >> 16)
  }

  function Swapped(t: seq<DWord>): (r: seq<DWord>)
  {
    seq(|t|, i requires 0 <= i < |t| => SwapRB(t[i]))
  }

  /** Swapping twice gives every texture back: the two channel orders carry
      the same information. */
  lemma SwappedTwice(t: seq<DWord>)
    ensures Swapped(Swapped(t)) == t
  {
    forall i | 0 <= i < |t|
      ensures Swapped(Swapped(t))[i] == t[i]
    {
      var c := t[i];
      assert SwapRB(SwapRB(c)) == c;
    }
  }

  method TdaToBgraTexture(screen: Screen, romFont: seq<Byte>, palette: seq<DWord>, texture: array<DWord>, frames: U32)
    returns (framesOut: U32)
    requires WellFormed(screen, romFont, palette) && texture.Length == Pixels
    requires screen.cursor && frames < 8 ==> CursorFits(screen)
    modifies texture
    ensures var r := Render(screen, romFont, palette, frames);
      texture[..] == Swapped(r.texture) && framesOut == r.frames
  {
    framesOut := TdaToRgbaTexture(screen, romFont, palette, texture, frames);
    ghost var rgba := texture[..];
    for i := 0 to Pixels
      invariant forall j :: 0 <= j < i ==> texture[j] == SwapRB(rgba[j])
      invariant forall j :: i <= j < Pixels ==> texture[j] == rgba[j]
    {
      var gA := texture[i] & 0xFF00_FF00;
      var red := texture[i] & 0x0000_00FF;
      var blue := texture[i] & 0x00FF_0000;
      texture[i] := gA | (red << 16) | (blue >> 16);
    }
    assert texture[..] == Swapped(rgba);
  }
}
