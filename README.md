# Virtual-computer keyboard and text display adapter, in Dafny

This project models two peripherals of a register-driven virtual computer and
proves properties of them:

- **The generic keyboard** (`GKeyboardDev`, `src/devices/gkeyb.cpp`). It has:
  - three registers: `a` (keycode), `b` (scancode) and `c` (status);
  - a buffer of packed 32-bit key events, bounded by `BSIZE`;
  - an interrupt latch (`int_msg`, `do_int`).

  Commands push the registers onto the buffer as one event and pull events back
  into the registers. A snapshot (`GetState`/`SetState`) serialises the
  registers, the latch and the buffer.
- **The Text Display Adapter** (`TDADev`, `src/devices/tda.cpp`). It has:
  - mapping commands, which validate a 32-bit address against the RAM and ROM
    sizes using unsigned 32-bit arithmetic;
  - a vsync interrupt latch;
  - a snapshot;
  - the rasterizer `TDAtoRGBATexture`/`TDAtoBGRATexture`.

  The rasterizer expands a 40x30 grid of 16-bit cells (glyph, foreground,
  background) into a 320x240 texture of palette colours. It overlays a blinking
  cursor, driven by a frame counter the caller holds. The BGRA variant then
  swaps the red and blue bytes of every pixel.

Layout:

- `common.dfy` (module `Common`) holds the shared definitions:
  - the word widths (16-bit registers, unsigned 32-bit numbers with explicit wrap-around);
  - the answer to an interrupt poll;
  - the snapshot record: registers plus named INT/BOOL/RAW properties.
- `keyboard.dfy` (module `Keyboard`) models the keyboard. The specification is
  the value `KeyboardState` and the functions over it: `Command`, `Encode`,
  `Restore`. The class `GKeyboardDev` updates its fields in place, and every
  method is proved against those functions.
- `tda_device.dfy` (module `TdaDevice`) models the adapter's command, interrupt
  and snapshot layer the same way, with `TdaState` and the class `TDADev`.
- `tda_raster.dfy` (module `TdaRaster`) models the rasterizer:
  - a per-pixel specification (`TextColor`, `Covers`, `Blink`, `Render`, `Swapped`);
  - methods that keep the code's nested loops over a texture `array` and are proved against that specification.

Behaviours of the code that a reader might not expect, all kept as written:

- **Stack, not FIFO.** A reader might expect the key buffer to be a FIFO
  that pulls its oldest event. The code pushes with `push_front` and pulls
  with `front`/`pop_front`, so through commands the buffer is a stack.
  `LastInFirstOut` proves that events come back newest first.
- **Blink period.** A reader might expect a 16-call blink cycle, 8 calls on
  and 8 off. The code's counter draws on 8 calls and then skips 5 (entry
  values 8, 10, 12, 14, 16) before it resets, so the period is 13
  (`BlinkPeriod`). At 2^32-1 the counter wraps to 1 (`BlinkTransition`).
- **Snapshot round trip.** A TDA snapshot restored onto a reset device does
  not always reproduce the state. The code's `SetState` writes the
  `font_ptr` property into `buffer_ptr` and never sets `font_ptr`.
  `RestoreEncodeIff` proves that the round trip holds exactly when the font
  pointer is zero.
- **Wrap-around in the mapping tests.** The address tests can be passed
  through 32-bit wrap-around. `MapBufferWrapAround` shows one address for
  MAP_BUFFER's RAM test, `MapFontWrapAround` one for MAP_FONT's RAM test,
  and `MapFontBelowRomBase` one for MAP_FONT's ROM test.

## Model

| member | source | states |
|---|---|---|
| Keyboard.Pack | src/devices/gkeyb.cpp:67-70 | A key event is below 2^27, and unpacking it gives back the registers masked as a push masks them: keycode to 8 bits, status to 3. |
| Keyboard.Unpack | src/devices/gkeyb.cpp:56-60 | The keycode read back by PULL_KEY is below 256, and so is the status (the event's bits 24-31). |
| Keyboard.PackUnpack | src/devices/gkeyb.cpp:56-70 | Repacking an unpacked event gives the event back if and only if it has no bit above bit 26. |
| Keyboard.PullKey | src/devices/gkeyb.cpp:53-65 | PULL_KEY on a non-empty buffer removes the front event and spreads it over c, b and a. On an empty buffer it zeroes a, b and c and the buffer stays empty. The latch is untouched. |
| Keyboard.PushKey | src/devices/gkeyb.cpp:67-72 | PUSH_KEY below capacity prepends the packed registers. On a full buffer the state is unchanged. Registers and latch are never modified. |
| Keyboard.PushThenPull | src/devices/gkeyb.cpp:53-72 | When the buffer is not full, a push followed by a pull restores the buffer and leaves the masked registers (a & 0xFF, b, c & 7). |
| Keyboard.PullThenPush | src/devices/gkeyb.cpp:53-72 | A pull followed by a push puts the front event back, for any event a push could have made. |
| Keyboard.CommandFrame | src/devices/gkeyb.cpp:47-81 | The buffer never outgrows BSIZE, and only PULL_KEY writes registers. SET_INT sets int_msg := a. CLR_BUFFER empties the buffer and touches nothing else. Every other code changes nothing. do_int is never written. |
| Keyboard.PushAllPrepends | src/devices/gkeyb.cpp:67-72 | Pushing events that fit puts their packed forms on the front in reverse order. |
| Keyboard.PullAllTakes | src/devices/gkeyb.cpp:53-65 | Pulling n times reads the first n events front to back and leaves the rest. |
| Keyboard.LastInFirstOut | src/devices/gkeyb.cpp:53-72 | Pushing k events that fit and then pulling k times reads them back newest first, masked, and restores the buffer. |
| Keyboard.RestoreEncode | src/devices/gkeyb.cpp:88-152 | SetState applied to GetState's snapshot reproduces a, b, c, int_msg, do_int and the buffer in the same order. This holds whatever the device held before, for an empty buffer, and for a buffer longer than BSIZE. |
| Keyboard.ApplyPropertiesKeepsMissing | src/devices/gkeyb.cpp:130-148 | Properties never change the registers, and a field whose property is absent keeps its value. |
| Keyboard.ApplyPropertiesBuffer | src/devices/gkeyb.cpp:141-146 | Each keybuffer blob's words are appended, in order, to the buffer. |
| Keyboard.RestoreBuffer | src/devices/gkeyb.cpp:132-146 | The buffer after SetState is exactly the concatenated keybuffer blobs. The old buffer is cleared and nothing caps the result at BSIZE. |
| Keyboard.GKeyboardDev.Reset | src/devices/gkeyb.cpp:24-33 | Registers and int_msg are zeroed, the buffer is emptied and do_int is cleared. Afterwards no interrupt is raised. |
| Keyboard.GKeyboardDev.DoesInterrupt | src/devices/gkeyb.cpp:35-41 | It fires if and only if do_int is set and int_msg is non-zero. When it fires, msg becomes int_msg; otherwise msg is left as it was. |
| Keyboard.GKeyboardDev.SendCMD | src/devices/gkeyb.cpp:47-81 | The new state is `Command(old state, cmd, BSIZE)`. |
| Keyboard.GKeyboardDev.IACK | src/devices/gkeyb.cpp:83-85 | Only do_int is cleared (int_msg is kept), so no interrupt fires afterwards. |
| Keyboard.GKeyboardDev.GetState | src/devices/gkeyb.cpp:88-121 | The snapshot is `Encode(state)`: the registers, int_msg, do_int, and the buffer front to back as one RAW blob only when it is non-empty. |
| Keyboard.GKeyboardDev.SetState | src/devices/gkeyb.cpp:123-152 | If the base restore failed, it returns false and changes nothing. Otherwise it returns true, and the state is `Restore(old state, snapshot)`. |
| TdaDevice.Address | src/devices/tda.cpp:139 | The candidate address has b as its high half and a as its low half. |
| TdaDevice.MapBuffer | src/devices/tda.cpp:138-143 | Without wrap-around, buffer_ptr := (b<<16)\|a if and only if the address plus TXT_BUFFER_SIZE is strictly below the RAM size. Otherwise nothing changes. |
| TdaDevice.MapBufferWrapAround | src/devices/tda.cpp:138-143 | With b = 0xFFFF and a = 0xF6A0, the 32-bit sum wraps to 0, so the address is committed into any non-empty RAM. |
| TdaDevice.MapFont | src/devices/tda.cpp:145-153 | When the font's end stays below 2^32: a font that fits in RAM is committed. Otherwise, for an address at or above 0x100000, it is committed if and only if it fits in ROM. The raw address is stored, not the ROM offset, and nothing else changes. |
| TdaDevice.MapFontWrapAround | src/devices/tda.cpp:145-153 | With b = 0xFFFF and a = 0xF800, the font's end is exactly 2^32, so the 32-bit sum of the RAM test wraps to 0 and the address is committed even with no RAM and no ROM. |
| TdaDevice.MapFontBelowRomBase | src/devices/tda.cpp:145-153 | The address 0x000FF800, below 0x100000, passes the ROM test through 32-bit wrap-around and is committed whatever the ROM size. |
| TdaDevice.CommandFrame | src/devices/tda.cpp:134-162 | SET_INT sets vsync_msg := a, and codes above 2 are no-ops. No command writes a, b, d, e, do_vsync, cursor or blink. Only MAP_BUFFER and MAP_FONT move their own pointer. |
| TdaDevice.ApplyPropertiesFrame | src/devices/tda.cpp:238-260 | Properties never change the registers, and never change font_ptr. A field whose property is absent keeps its value. buffer_ptr changes only through buffer_ptr or font_ptr properties. |
| TdaDevice.RestoreFlags | src/devices/tda.cpp:240-252 | The vsync_msg, do_vsync, cursor and blink properties restore those four fields. |
| TdaDevice.RestoreEncode | src/devices/tda.cpp:176-263 | Restoring GetState's snapshot gives every field back except the pointers. A non-zero font_ptr lands in buffer_ptr, and font_ptr keeps its previous value. A zero pointer is not emitted, so when both pointers are 0, buffer_ptr keeps its previous value. |
| TdaDevice.RestoreEncodeIff | src/devices/tda.cpp:211-258 | The round trip onto the same device holds if and only if font_ptr is 0 or equals buffer_ptr. Onto a reset device it holds if and only if font_ptr is 0. |
| TdaDevice.TDADev.Reset | src/devices/tda.cpp:121-132 | Pointers, message, registers and flags are zeroed, and no interrupt is raised afterwards. |
| TdaDevice.TDADev.SendCMD | src/devices/tda.cpp:134-162 | The new state is `Command(old state, cmd, RamSize, RomSize)`. |
| TdaDevice.TDADev.DoesInterrupt | src/devices/tda.cpp:164-170 | It fires if and only if do_vsync is set and vsync_msg is non-zero. When it fires, msg becomes vsync_msg; otherwise msg is left as it was. |
| TdaDevice.TDADev.IACK | src/devices/tda.cpp:172-174 | Only do_vsync is cleared, so no interrupt fires afterwards. |
| TdaDevice.TDADev.GetState | src/devices/tda.cpp:176-226 | The snapshot is `Encode(state)`: a, b, d, e, vsync_msg, do_vsync, cursor, blink, plus buffer_ptr and font_ptr only when they are non-zero. |
| TdaDevice.TDADev.SetState | src/devices/tda.cpp:228-263 | If the base restore failed, it returns false and changes nothing. Otherwise it returns true, and the state is `Restore(old state, snapshot)`. |
| TdaDevice.TDADev.IsSyncDev | src/devices/tda.cpp:265-267 | The adapter is not a synchronous device. |
| TdaRaster.PixelAddress | src/devices/tda.cpp:57 | Pixel (x, y) of cell (row, col) is at x + col*8 + 320*(y + row*8): inside the texture, at texture column col*8+x and line row*8+y. |
| TdaRaster.TextPixel | src/devices/tda.cpp:42-69 | That pixel is PALETTE[fg] if bit 7-x of font[glyph*8+y] is set, and PALETTE[bg] otherwise. The glyph is the cell's low byte, fg its bits 8-11 and bg its bits 12-15. |
| TdaRaster.TextColorAt | src/devices/tda.cpp:42-69 | The colour of that texture pixel is the colour of pixel (x, y) of cell col + 40*row. |
| TdaRaster.GlyphBitEnds | src/devices/tda.cpp:60 | The leftmost pixel of a glyph line is its most significant bit, and the rightmost pixel is its least significant bit. |
| TdaRaster.PaintCell | src/devices/tda.cpp:44-69 | On any texture, the 64 pixels of cell (row, col) take their text-pass colours, and every other pixel keeps its value. |
| TdaRaster.PaintText | src/devices/tda.cpp:42-71 | After the text pass, the texture is exactly `TextImage` for the font it is given. |
| TdaRaster.PaintCursor | src/devices/tda.cpp:80-89 | Only pixels in columns [cur_col*8, cur_col*8+8) and lines [cur_row*8+cur_start, cur_row*8+cur_end] are set to the cursor colour. Every other pixel keeps its value. |
| TdaRaster.BlinkTransition | src/devices/tda.cpp:74-97 | Below 8 the counter draws and becomes f+1. From 8 to 14 it skips and becomes f+2. From 15 to 2^32-2 it skips and resets to 0. At 2^32-1 it skips and wraps to 1. |
| TdaRaster.BlinkPeriod | src/devices/tda.cpp:74-97 | From 0 the cursor is drawn on 8 calls and skipped on 5, then the counter is back at 0: the period is 13. |
| TdaRaster.BlinkStaysInCycle | src/devices/tda.cpp:74-97 | A counter at most 16 stays at most 16, and the cursor is drawn if and only if the counter is below 8. |
| TdaRaster.RenderPixel | src/devices/tda.cpp:73-98 | A pixel has the cursor colour if and only if the cursor is enabled, due and covers it; otherwise it has its text-pass colour. The counter moves only when the cursor is enabled. |
| TdaRaster.CursorPixel | src/devices/tda.cpp:76-91 | When the cursor is enabled, due and on screen, every pixel of its rectangle has PALETTE[cur_color]. |
| TdaRaster.RenderIgnores | src/devices/tda.cpp:33-98 | No blink flag is consulted, and the user font is read only when it is selected. |
| TdaRaster.TdaToRgbaTexture | src/devices/tda.cpp:30-100 | The texture and the new counter are exactly `Render(screen, frames)`. The text pass reads ROM_FONT unless user_font is set. |
| TdaRaster.SwapRB | src/devices/tda.cpp:107-110 | Bytes 1 and 3 are kept, byte 0 takes byte 2's value, and byte 2 takes byte 0's value. |
| TdaRaster.SwappedTwice | src/devices/tda.cpp:102-113 | Swapping red and blue twice gives back every texture. |
| TdaRaster.TdaToBgraTexture | src/devices/tda.cpp:102-113 | The texture is the RGBA frame with red and blue swapped in every pixel, and the counter advances exactly as in RGBA. |

## Left out

- The overloads without a counter argument (`src/devices/tda.cpp:20-28`) keep the counter in function-local static storage. The model takes the counter as an argument and returns its new value, like the `frames&` overloads.
- `RamSize()` and `RomSize()` are calls into the virtual computer. They are parameters of `TDADev.SendCMD`.
- The base `Device::GetState`/`SetState` and the serialisation container are not part of this model:
  - the base restore's outcome is a boolean parameter of `SetState`;
  - the base part of a snapshot is carried through unchanged;
  - the snapshot's register slots hold 16-bit values.
- RAW blobs are sequences of 32-bit words. Byte order, the pointer cast and the truncation of the byte length to a multiple of 4 are not modelled.
- `ROM_FONT`, `PALETTE` and `BSIZE` come from headers that are not part of this model:
  - the font and palette are parameters of at least 2048 bytes and exactly 16 colours;
  - `BSIZE` is a constructor argument;
  - the text and font buffer sizes are derived from the 40x30 grid and the 256 glyphs of 8 bytes.
- The code does not check the bounds below, so they are preconditions of the rasterizer methods whenever the cursor is due:
  - the cursor colour is a palette index;
  - the cursor's last line, `cur_row*8 + cur_end`, is on the texture.
- `TdaRaster.TdaToRgbaTexture`: the non-null check on the texture is a debugging assertion in the code. The model passes the texture as an array of 320*240 colours.
- Nothing shown sets `do_int`/`do_vsync` except `SetState`. The model includes no outside driver that does.
- Not modelled:
  - allocation and release of the copy buffer in `GetState`;
  - destructors;
  - presentation of the texture;
  - concurrent access.

  The constructors exist only to create objects.
- Shifts and masks on 16- and 32-bit numbers are written as multiplication, division and remainder by powers of two. Colours and font bytes remain bit-vectors.
