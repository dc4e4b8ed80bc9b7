/** The driver's module-level state and its public functions: the 512-byte framebuffer that
    drawing updates in place, and the log of two-byte writes sent to the controller. The
    ready handshake that precedes display and startscrollright is not part of this model: their
    methods are the continuation that runs once the controller reports ready. */
module Driver {
  import opened Ssd1306
  import opened Framebuffer
  import opened Bresenham
  import opened Protocol

  class Oled {
    /** The framebuffer, page-major and column-minor. */
    var buffer: array<bv8>
    /** Every write sent to the controller so far, oldest first. */
    var bus: seq<Write>

    ghost predicate Valid()
      reads this
    {
      buffer.Length == BUFFER_SIZE
    }

    /** A zero-filled 512-byte buffer and an empty bus. */
    constructor ()
      ensures Valid() && fresh(buffer)
      ensures buffer[..] == Blank() && bus == []
    {
      buffer := new bv8[BUFFER_SIZE](_ => 0x00);
      bus := [];
    }

    /** writeI2C(type, val): one framed write, or nothing for an unknown type. */
    method WriteI2C(kind: WriteType, val: bv8)
      modifies this`bus
      ensures bus == old(bus) + Frame(kind, val)
    {
      var control: bv8;
      if kind.Data? {
        control := CONTROL_DATA;
      } else if kind.Cmd? {
        control := CONTROL_CMD;
      } else {
        return;
      }
      bus := bus + [Write(control, val)];
    }

    /** The loop `for (i = 0; i < seq.length; i++) writeI2C(kind, seq[i])` that init, display
        and startscrollright each run over their byte sequence. */
    method WriteAll(kind: WriteType, bytes: seq<bv8>)
      modifies this`bus
      ensures bus == old(bus) + Emit(kind, bytes)
    {
      for i := 0 to |bytes|
        invariant bus == old(bus) + Emit(kind, bytes[..i])
      {
        WriteI2C(kind, bytes[i]);
        assert bytes[..i + 1][..i] == bytes[..i];
      }
      assert bytes[..|bytes|] == bytes;
    }

    /** init(): the controller set-up sequence, every byte as a command. */
    method Init()
      modifies this`bus
      ensures bus == old(bus) + Emit(Cmd, InitSequence())
    {
      WriteAll(Cmd, InitSequence());
    }

    /** The body of display() once the controller is ready: the addressing window as commands,
        then every framebuffer byte as data, in index order. The framebuffer is only read. */
    method Display()
      requires Valid()
      modifies this`bus
      ensures bus == old(bus) + DisplayTrace(buffer[..])
      ensures buffer[..] == old(buffer[..])
    {
      WriteAll(Cmd, DisplaySequence());
      WriteAll(Data, buffer[..]);
      DisplayTraceAppends(old(bus), buffer[..]);
    }

    /** dimDisplay(dim): the contrast command and its value. */
    method DimDisplay(dim: bool)
      modifies this`bus
      ensures bus == old(bus) + Emit(Cmd, ContrastSequence(dim))
    {
      var contrast: bv8;
      if dim {
        contrast := 0x00;
      } else {
        contrast := 0xCF;
      }
      WriteI2C(Cmd, SET_CONTRAST);
      WriteI2C(Cmd, contrast);
      assert [SET_CONTRAST, contrast][..1] == [SET_CONTRAST];
    }

    /** clearDisplay(): a new 512-byte buffer, filled with zeros. */
    method ClearDisplay()
      modifies this`buffer
      ensures Valid() && fresh(buffer)
      ensures buffer[..] == Blank() && bus == old(bus)
    {
      var cleared := new bv8[BUFFER_SIZE];
      for i := 0 to cleared.Length
        invariant forall k :: 0 <= k < i ==> cleared[k] == 0x00
      {
        cleared[i] := 0x00;
      }
      buffer := cleared;
    }

    /** invertDisplay(invert): inverted or normal polarity. */
    method InvertDisplay(invert: bool)
      modifies this`bus
      ensures bus == old(bus) + Emit(Cmd, [InvertOpcode(invert)])
    {
      if invert {
        WriteI2C(Cmd, INVERT_DISPLAY);
      } else {
        WriteI2C(Cmd, NORMAL_DISPLAY);
      }
    }

    /** drawBitmap(pixels): entry i of a row-major colour list is drawn at
        (i % 128 + 1, floor(i / 128) + 1). */
    method DrawBitmap(pixels: seq<Colour>)
      requires Valid()
      modifies buffer
      ensures buffer[..] == PlotAll(old(buffer[..]), BitmapPixels(pixels))
    {
      ghost var entries := BitmapPixels(pixels);
      for i := 0 to |pixels|
        invariant buffer[..] == PlotAll(old(buffer[..]), entries[..i])
      {
        var x := i % WIDTH + 1;
        var y := i / WIDTH + 1;
        assert Pixel(x, y, pixels[i]) == entries[i];
        PlotAllExtend(old(buffer[..]), entries[..i], entries[i]);
        DrawPixel([Pixel(x, y, pixels[i])]);
        assert entries[..i + 1] == entries[..i] + [entries[i]];
      }
      assert entries[..|pixels|] == entries;
    }

    /** drawPixel(pixels): each `[x, y, color]` entry in turn. */
    method DrawPixel(pixels: seq<Pixel>)
      requires Valid()
      modifies buffer
      ensures buffer[..] == PlotAll(old(buffer[..]), pixels)
    {
      for n := 0 to |pixels|
        invariant buffer[..] == PlotAll(old(buffer[..]), pixels[..n])
      {
        PlotPixel(pixels[n]);
        PlotAllSnoc(old(buffer[..]), pixels[..n], pixels[n]);
        assert pixels[..n + 1] == pixels[..n] + [pixels[n]];
      }
      assert pixels[..|pixels|] == pixels;
    }

    /** The callback drawPixel runs on each entry. Coordinates become 0-based; the byte is
        column x of page floor(y / 8) and the bit is y's row within the page. A store outside
        the buffer (coordinates below 1) is dropped, as the buffer ignores it. */
    method PlotPixel(p: Pixel)
      requires Valid()
      modifies buffer
      ensures buffer[..] == Plot(old(buffer[..]), p)
    {
      if p.x > WIDTH || p.y > HEIGHT {
        return;
      }
      var x, y := p.x - 1, p.y - 1;
      var page := y / 8;
      var pageShift := BitValue(y - 8 * page);
      var byte := if page == 0 then x else x + WIDTH * page;
      assert byte == ByteIndex(p.x, p.y) && pageShift == Mask(p.y);
      if 0 <= byte < buffer.Length {
        PaintByte(byte, pageShift, p.colour);
      }
    }

    /** The colour tests of drawPixel on the byte it addresses: black or 0 clears the masked bit,
        white or a positive number sets it, anything else leaves the byte as it was. */
    method PaintByte(byte: int, pageShift: bv8, colour: Colour)
      requires Valid() && 0 <= byte < buffer.Length
      modifies buffer
      ensures buffer[..] == old(buffer[..])[byte := Paint(old(buffer[byte]), pageShift, colour)]
    {
      if Clears(colour) {
        buffer[byte] := buffer[byte] & !pageShift;
      }
      if Sets(colour) {
        buffer[byte] := buffer[byte] | pageShift;
      }
    }

    /** drawLine(x0, y0, x1, y1): Bresenham's loop, plotting every point with colour 1. The
        error term e is kept doubled (e == 2 * err) so the source's halving stays exact. */
    method DrawLine(x0: int, y0: int, x1: int, y1: int)
      requires Valid()
      modifies buffer
      ensures buffer[..] == PlotAll(old(buffer[..]), Line(Segment(x0, y0, x1, y1)))
    {
      ghost var s := Segment(x0, y0, x1, y1);
      var dx := if x1 >= x0 then x1 - x0 else x0 - x1;
      var sx := if x0 < x1 then 1 else -1;
      var dy := if y1 >= y0 then y1 - y0 else y0 - y1;
      var sy := if y0 < y1 then 1 else -1;
      var e := if dx > dy then dx else -dy;
      var x, y := x0, y0;
      ghost var passes: nat := 0;
      while true
        invariant dx == s.Dx() && dy == s.Dy() && sx == s.Sx() && sy == s.Sy()
        invariant Cursor(x, y, e) == Walk(s, passes) && passes <= Passes(s)
        invariant buffer[..] == PlotAll(old(buffer[..]), Walked(s, passes))
        decreases Passes(s) - passes
      {
        ghost var c := Cursor(x, y, e);
        var here := Pixel(x, y, Num(1));
        PlotAllExtend(old(buffer[..]), Walked(s, passes), here);
        DrawPixel([here]);
        WalkAtEnd(s, passes);
        if x == x1 && y == y1 {
          WalkedToEnd(s);
          break;
        }
        var e2 := e;
        if e2 > -2 * dx {
          e := e - 2 * dy;
          x := x + sx;
        }
        if e2 < 2 * dy {
          e := e + 2 * dx;
          y := y + sy;
        }
        StepOf(s, c, x, y, e);
        passes := passes + 1;
      }
    }

    /** The body of startscrollright(start, stop) once the controller is ready. */
    method StartScrollRight(start: bv8, stop: bv8)
      modifies this`bus
      ensures bus == old(bus) + Emit(Cmd, ScrollRightSequence(start, stop))
    {
      WriteAll(Cmd, ScrollRightSequence(start, stop));
    }

    /** stopscroll(): deactivate scrolling. */
    method StopScroll()
      modifies this`bus
      ensures bus == old(bus) + Emit(Cmd, [DEACTIVATE_SCROLL])
    {
      WriteI2C(Cmd, DEACTIVATE_SCROLL);
    }
  }
}
