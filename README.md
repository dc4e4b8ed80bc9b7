# SSD1306 OLED driver (oled-js-pi) in Dafny

A model of the driver in `index.js` for a 128x32 SSD1306 OLED panel on the controller's
two-wire bus at address 0x3C. The driver keeps one module-level 512-byte framebuffer. The
drawing functions change it in place: drawPixel, drawBitmap and drawLine draw into it, and
clearDisplay replaces it with a zeroed one. The other functions talk to the controller.
writeI2C frames each byte as a two-byte write. Command bytes get control byte 0x00 and display
data gets 0x40. init, display, dimDisplay, invertDisplay, startscrollright and stopscroll send
fixed command sequences, and display also pushes the framebuffer as data.

The project has five modules:

- `Ssd1306` (`ssd1306.dfy`): the panel geometry and the opcode table.
- `Framebuffer` (`framebuffer.dfy`): how a 1-based pixel `(x, y)` becomes bit `(y-1) % 8` of
  byte `(x-1) + 128 * floor((y-1) / 8)`. It also holds the specification functions `Plot` (one
  drawPixel entry) and `PlotAll` (a list of entries, in order), and the bitmap walk. The lemmas
  cover single-bit effects, the bijection between panel pixels and buffer bits, "nothing else
  changes", idempotence and the out-of-panel cases.
- `Bresenham` (`bresenham.dfy`): the pixels drawLine plots, as the recursive function `Line`.
  The loop's invariant relates the error term to the distances left to the end point, and the
  lemmas prove termination at the end point, unit steps, and the horizontal, vertical and
  diagonal shapes. `Walk`/`Walked` describe the loop pass by pass, which is how the imperative
  loop is tied to `Line`.
- `Protocol` (`protocol.dfy`): write framing and its inverse (how the controller reads a write
  back), the fixed byte sequences, and the traces of whole operations.
- `Driver` (`driver.dfy`): `class Oled`. It holds the framebuffer as `array<bv8>` and the log of
  every write sent so far as `bus: seq<Write>`. There is one method per driver function, and each
  is proved against the specification functions above.

The colour argument of drawPixel is duck-typed in the source. It is modelled as
`Black | White | Num(n)`. `'BLACK'` or `0` clears the bit. `'WHITE'` or a positive number sets it.
Anything else (a negative number) leaves the byte alone.

A few facts about `index.js` shape the model:

- drawLine's initial error `(dx > dy ? dx : -dy) / 2` is a floating-point division. The model
  keeps the error doubled (`e == 2 * err`), so every comparison and update is exact with integers.
- The init sequence is 25 bytes: 16 opcodes, several of them followed by an argument byte.
- `MEMORY_MODE` is set to 0x00 (horizontal addressing), so a frame push fills the window column by
  column and page by page, in framebuffer order.
- The guard of drawPixel rejects only `x > 128 || y > 32`. Coordinates below 1 get through it:
  - A byte offset outside the buffer is dropped, as a Node Buffer drops such stores. This is
    what happens above the panel, and left of it on the first page.
  - For `1 - 128 * floor((y-1)/8) <= x <= 0` the offset lands inside the buffer, and `(x, y)`
    draws `(x + 128, y - 8)` (`PlotLeftAliases`). Further left the offset is negative and the
    store is dropped (`PlotFarLeft`).
  - drawLine(0, 0, 0, 0) plots `(0, 0)`, which changes nothing (`OriginLineDrawsNothing`).
- The ready handshake proceeds when `byte << 7` is non-zero. It is not part of this model (see
  below).

## Model

| member | source | states |
|---|---|---|
| Ssd1306.BufferFitsPanel | index.js:8-14 | the 512-byte buffer holds exactly one bit per pixel of the 128x32 panel: 128 * 32 / 8 == 128 * 4 == 512 |
| Framebuffer.Shift | index.js:192-195 | the shift `y - 8 * page` of the 0-based row is its row within the page: in 0..7 and equal to `(y-1) % 8` |
| Framebuffer.ByteIndex | index.js:192-198 | both arms of the `page == 0` conditional give the offset `(x-1) + 128 * floor((y-1)/8)` |
| Framebuffer.Page | index.js:194 | definition: `Math.floor(y / 8)` of the 0-based row, the page holding the row |
| Framebuffer.Mask | index.js:195 | definition: `pageShift`, the byte with only the row's bit set |
| Framebuffer.ShiftedOne | index.js:195 | the tabulated mask of bit k is `0x01 << k` for every k in 0..7 |
| Framebuffer.MaskBits | index.js:195 | the mask of a row lies in 0x01..0x80 and has exactly the row's shift bit set |
| Framebuffer.AddressInPanel | index.js:189-198 | every panel pixel addresses a byte in [0, 512) on page 0..3, with a single-bit mask |
| Framebuffer.PixelOfAddress | index.js:192-198 | the (byte, bit) location of a panel pixel maps back to that pixel |
| Framebuffer.AddressOfPixelOf | index.js:192-198 | every (byte, bit) location of the 512-byte buffer is the location of exactly one panel pixel |
| Framebuffer.AddressInjective | index.js:192-198 | two distinct panel pixels never share a bit of the buffer |
| Framebuffer.SingleBitOps | index.js:203-206 | read at a single-bit position, and-not keeps a bit only where the mask is clear, and or sets it where either byte has it set |
| Framebuffer.BitOps | index.js:203-206 | the same for bit k of a byte: the and-not store clears exactly the mask's bits and the or store sets exactly them |
| Framebuffer.PassesGuard | index.js:189 | definition: the early return fires exactly when `x > 128` or `y > 32` |
| Framebuffer.Clears | index.js:202 | definition: the first colour test, `'BLACK'` or the number 0 |
| Framebuffer.Sets | index.js:205 | definition: the second colour test, `'WHITE'` or a number greater than 0 |
| Framebuffer.Paint | index.js:202-207 | definition: the two colour tests applied in turn to one byte, the and-not store then the or store |
| Framebuffer.PaintBits | index.js:202-207 | after the two colour tests, a mask bit is set for a setting colour, cleared for a clearing one and kept otherwise; bits outside the mask are kept |
| Framebuffer.PaintBit | index.js:195-207 | the same with the row's mask: only bit `(y-1) % 8` of the byte can change |
| Framebuffer.PlotBit | index.js:185-207 | plotting one entry decides the bit it targets by its colour and keeps every other bit of every byte |
| Framebuffer.ColourTestsExclusive | index.js:202-207 | no colour passes both the clearing and the setting test |
| Framebuffer.PlotTouchesOneByte | index.js:198-207 | plotting changes no byte other than the addressed one |
| Framebuffer.PlotPixelEffect | index.js:185-207 | at panel level: the plotted pixel ends lit for a setting colour, dark for a clearing one, unchanged otherwise; every other pixel is unchanged |
| Framebuffer.PlotOffPanel | index.js:189 | past the right or bottom edge (and above the panel, or left of it on the first page) the buffer is unchanged |
| Framebuffer.PlotLeftAliases | index.js:189-198 | with `x <= 0` and `y <= 32`, `(x, y)` plots exactly what `(x + 128, y - 8)` plots, because the lower bound is unchecked |
| Framebuffer.PlotFarLeft | index.js:189-198 | left of `1 - 128 * floor((y-1)/8)` the offset is negative and the buffer is unchanged |
| Framebuffer.PlotNegativeColour | index.js:202-207 | a negative numeric colour passes neither colour test and changes nothing |
| Framebuffer.PlotIdempotent | index.js:202-207 | plotting the same entry twice is the same as plotting it once |
| Framebuffer.Plot | index.js:186-207 | drawing one entry keeps the buffer's length |
| Framebuffer.PlotAll | index.js:186 | drawing a list of entries keeps the buffer's length |
| Framebuffer.PlotAllAppend | index.js:186 | forEach over a concatenation is forEach over one list and then the other |
| Framebuffer.PlotAllSnoc | index.js:186 | drawing a list that ends in p is drawing the rest and then p |
| Framebuffer.PlotAllExtend | index.js:186 | drawing p after a list is drawing the list extended by p (PlotAllSnoc in the form the loop invariants of DrawBitmap and DrawLine use) |
| Framebuffer.PlotAllOffPanel | index.js:186-189 | a list of entries that all fail the guard leaves the buffer unchanged |
| Framebuffer.PlotAllSetting | index.js:186-207 | with only setting colours, a lit bit stays lit and every targeted bit ends lit |
| Framebuffer.Blank | index.js:8-9 | the allocated framebuffer is 512 bytes |
| Framebuffer.BlankIsDark | index.js:152-155 | a cleared framebuffer shows no lit pixel |
| Framebuffer.BitmapPixels | index.js:174-178 | entry i keeps its colour and lands on the panel exactly when i < 4096 |
| Framebuffer.BitmapEntryOf | index.js:174-178 | for a bitmap of at least 4096 entries, panel pixel (x, y) is drawn by exactly entry `(y-1) * 128 + (x-1)`, with that entry's colour |
| Framebuffer.BitmapIgnoresTail | index.js:174-179 | entries from 4096 on (derived row past 32) change nothing |
| Framebuffer.AllBitsSet | index.js:206 | a byte with all eight bits set is 0xFF |
| Framebuffer.BitmapAllOn | index.js:174-179 | a full-panel bitmap of setting colours (e.g. all 1) makes every byte 0xFF, whatever the buffer held |
| Bresenham.Segment.Dx | index.js:220 | definition: `Math.abs(x1 - x0)` |
| Bresenham.Segment.Sx | index.js:220 | definition: 1 when `x0 < x1`, otherwise -1 |
| Bresenham.Segment.Dy | index.js:221 | definition: `Math.abs(y1 - y0)` |
| Bresenham.Segment.Sy | index.js:221 | definition: 1 when `y0 < y1`, otherwise -1 |
| Bresenham.Segment.Err0 | index.js:222 | definition: twice the initial error, `dx` when `dx > dy` and `-dy` otherwise |
| Bresenham.Step | index.js:226-228 | definition: one pass after the end test fails: `e2 = err`, then x steps (err -= dy) when `e2 > -dx`, then y steps (err += dx) when `e2 < dy`, with err doubled; its properties are StepKeepsInv, StepXMajor and StepYMajor |
| Bresenham.InvProducts | index.js:220-228 | the loop invariant read with ordinary products of distances and deltas |
| Bresenham.InvInitially | index.js:220-222 | the start point and the initial (doubled) error satisfy the loop invariant |
| Bresenham.StepOf | index.js:226-228 | the loop body's updates of x, y and the error compute the next cursor |
| Bresenham.RemAfterMove | index.js:227-228 | a step of sx (sy) brings the point one column (row) nearer the end |
| Bresenham.StepKeepsInv | index.js:225-228 | a pass that does not stop keeps the invariant, moves each coordinate by 0 or one step towards the end (not both 0), and always advances the major axis |
| Bresenham.StepXMajor | index.js:225-228 | on a wide line the end column is reached only with the end row, and x steps every pass |
| Bresenham.StepYMajor | index.js:225-228 | on a tall line the end row is reached only with the end column, and y steps every pass |
| Bresenham.Trace | index.js:223-229 | from a cursor satisfying the invariant, the loop plots 1 + (major distance left) pixels with colour 1, starting at the cursor, ending at (x1, y1), never reaching (x1, y1) earlier, with unit steps in between |
| Bresenham.TraceUnfold | index.js:223-228 | the pixels from a cursor not at the end are its own pixel followed by those of the next cursor, which is nearer the end |
| Bresenham.Line | index.js:219-229 | drawLine plots max(dx, dy) + 1 pixels with colour 1: (x0, y0) first, (x1, y1) last and only there, each a unit step from the previous, all within the bounding box |
| Bresenham.Walk | index.js:223-228 | definition: the loop variables after n passes that did not stop, by n applications of Step to the start point |
| Bresenham.Walked | index.js:223-229 | n passes of the loop plot n pixels |
| Bresenham.WalkedIndex | index.js:223-229 | the k-th pixel of the first n passes is the point reached after k passes |
| Bresenham.TraceWalks | index.js:223-229 | the k-th pixel from the cursor after m passes is the point after m + k passes |
| Bresenham.LineIsWalked | index.js:223-229 | the pixels of the line are exactly those of the loop's passes up to the stopping one |
| Bresenham.WalkAtEnd | index.js:225 | the loop stops on pass number max(dx, dy) and on no earlier pass |
| Bresenham.WalkedToEnd | index.js:224-225 | the stopping pass plots the line's last pixel, completing the line |
| Bresenham.MajorAxisIndex | index.js:227-228 | along the major axis the i-th plotted pixel is i steps from the start |
| Bresenham.HorizontalLine | index.js:219-229 | a horizontal line from x0 to x1 >= x0 plots (x0 + i, y) for i = 0..x1 - x0 |
| Bresenham.VerticalLine | index.js:219-229 | a vertical line from y0 to y1 >= y0 plots (x, y0 + i) for i = 0..y1 - y0 |
| Bresenham.DiagonalBalanced | index.js:220-228 | on a 45-degree line the invariant forces both coordinates to be equally far from the end |
| Bresenham.DiagonalTrace | index.js:223-229 | on a 45-degree line every plotted pixel is equally far from the end on both axes |
| Bresenham.DiagonalLine | index.js:219-229 | drawLine(x, y, x + n, y + n) plots exactly (x + i, y + i) for i = 0..n |
| Bresenham.OriginLineDrawsNothing | index.js:189-229 | drawLine(0, 0, 0, 0) plots only (0, 0), which leaves the buffer unchanged |
| Protocol.Frame | index.js:46-57 | 'data' and 'cmd' send exactly one write, and any other type sends nothing |
| Protocol.FrameThenParse | index.js:48-56 | the controller reads a framed write back as the type and byte it was framed from |
| Protocol.ParseThenFrame | index.js:48-56 | every write the controller understands is the framing of what it reads |
| Protocol.Emit | index.js:107-110 | a writeI2C loop over known-type bytes sends one write per byte, in order, each read back as that byte of that type; an unknown type sends nothing |
| Protocol.PayloadsAppend | index.js:46-57 | reading back the bytes of one control kind distributes over concatenated logs |
| Protocol.EmitPayloads | index.js:107-110 | reading back a loop's writes gives its bytes under its own control byte and none under the other |
| Protocol.InitSequence | index.js:86-103 | the init sequence is 25 bytes, starting with display off and ending with display on, with neither in between |
| Protocol.DisplaySequence | index.js:117-120 | the window is columns 0..127 and pages 0..3, exactly the 512 bytes of the framebuffer |
| Protocol.ContrastLevel | index.js:139-146 | the contrast is 0x00 exactly when dimmed, and 0xCF otherwise |
| Protocol.ContrastSequence | index.js:148-149 | definition: the contrast command 0x81 followed by the contrast level |
| Protocol.InvertOpcode | index.js:161-167 | the command is 0xA7 exactly when inverting, and 0xA6 otherwise |
| Protocol.ScrollRightSequence | index.js:236-242 | the scroll set-up is 8 bytes, opening with 0x26, carrying start and stop at positions 2 and 4, closing with 0x2F |
| Protocol.DisplayTrace | index.js:127-134 | definition: the window loop's writes as commands, then the buffer loop's writes as data; DisplayTraceShape and DisplayTraceRoundTrip state what it contains |
| Protocol.DisplayTraceShape | index.js:117-134 | a frame push is `[0x00,0x21] [0x00,0] [0x00,127] [0x00,0x22] [0x00,0] [0x00,3]` followed by `[0x40, buf[v]]` for each v in index order |
| Protocol.DisplayTraceRoundTrip | index.js:117-134 | the controller receives the window as commands and exactly the framebuffer as data |
| Protocol.CommandTrace | index.js:46-57 | a command loop reaches the controller as `[0x00, b]` for each byte b, in order |
| Driver.Oled.constructor | index.js:8-9 | the framebuffer starts as 512 zero bytes and nothing has been sent |
| Driver.Oled.WriteI2C | index.js:46-57 | appends the framing of the byte to the log: one write, or nothing for an unknown type |
| Driver.Oled.WriteAll | index.js:107-110 | the loop appends `Emit` of the whole byte sequence to the log |
| Driver.Oled.Init | index.js:86-110 | appends the init sequence as commands |
| Driver.Oled.Display | index.js:117-134 | appends one frame push of the current framebuffer and leaves the framebuffer unchanged |
| Driver.Oled.DimDisplay | index.js:139-150 | appends `[0x81, contrast]` as commands |
| Driver.Oled.ClearDisplay | index.js:152-155 | installs a fresh buffer of 512 zero bytes and sends nothing |
| Driver.Oled.InvertDisplay | index.js:161-167 | appends the inverted or normal polarity command |
| Driver.Oled.DrawBitmap | index.js:169-179 | the buffer ends as `PlotAll` of the bitmap's walk over the old buffer |
| Driver.Oled.DrawPixel | index.js:185-216 | the buffer ends as `PlotAll` of the entries, in order, over the old buffer |
| Driver.Oled.PlotPixel | index.js:186-211 | one forEach callback leaves the buffer as `Plot` of the old buffer and the entry |
| Driver.Oled.PaintByte | index.js:202-207 | the colour tests change only the addressed byte, to `Paint` of its old value |
| Driver.Oled.DrawLine | index.js:219-230 | the loop terminates, and the buffer ends as `PlotAll` of `Line(x0, y0, x1, y1)` over the old buffer |
| Driver.Oled.StartScrollRight | index.js:236-248 | appends the right-scroll set-up and activation as commands |
| Driver.Oled.StopScroll | index.js:252-254 | appends the deactivate-scroll command |

## Left out

- waitUntilReady and readI2C (index.js:60-79) are left out. They are a timer-driven poll with unbounded retries over an asynchronous read callback. display and startscrollright are modelled as the continuation that runs once the controller reports ready, run at the point of the call. The model therefore does not capture the reordering this causes: in the source, commands issued after `display()` in program order (such as `dimDisplay(true)` at index.js:276 after `display()` at index.js:266) reach the bus before the frame push, while the model's `Display(); DimDisplay(true)` logs the frame push first.
- The johnny-five board, `sendI2CConfig` and the transport calls are left out; the write log `bus` stands for everything sent to address 0x3C. The address is a constant of every write and is not recorded per write.
- The image pipeline (pngparse, floyd-steinberg, png-to-lcd) and the callback that replaces the buffer with an external bitmap (index.js:279-282) are left out. They are foreign code with no visible contract.
- The `board.on('ready')` bootstrap, the `console.log` calls and the commented-out demo code (index.js:256-312) are left out.
- The `return this` chaining of clearDisplay, drawBitmap and drawPixel is left out, since the functions work on module state.
- Colour values other than `'BLACK'`, `'WHITE'` and integers are left out: other strings, booleans, fractions and NaN.
- Framebuffer.Plot: non-integer coordinates are left out. Pixel coordinates are integers, so the fractional offsets a JavaScript number could produce are not modelled.
- Driver.Oled.StartScrollRight: start and stop are bytes (`bv8`). The conversion of a JavaScript number outside 0..255 by the transport is not modelled.
- Driver.Oled.DrawLine: the error term is an exact integer (twice the source's float). Float rounding at magnitudes beyond 2^53 is not modelled.
