/** The packed framebuffer: how a 1-based pixel (x, y) is located as one bit of one byte,
    how drawPixel changes that bit, and how a row-major bitmap is walked into it.
    Page p (rows 8p+1 .. 8p+8) occupies bytes 128p .. 128p+127, one byte per column,
    bit k of a byte holding row 8p+k+1. */
module Framebuffer {
  import opened Ssd1306

  /** The colour argument of a pixel: the strings 'BLACK' and 'WHITE', or a number. */
  datatype Colour = Black | White | Num(n: int)

  /** One `[x, y, color]` entry of the list drawPixel takes; coordinates are 1-based. */
  datatype Pixel = Pixel(x: int, y: int, colour: Colour)

  /** The first colour test of drawPixel: `'BLACK'` or the number 0 clears the bit. */
  predicate Clears(c: Colour) { c == Black || c == Num(0) }

  /** The second colour test of drawPixel: `'WHITE'` or a positive number sets the bit. */
  predicate Sets(c: Colour) { c == White || (c.Num? && c.n > 0) }

  /** The early return of drawPixel rejects only coordinates past the right or bottom edge. */
  predicate PassesGuard(x: int, y: int) { x <= WIDTH && y <= HEIGHT }

  predicate InPanel(x: int, y: int) { 1 <= x <= WIDTH && 1 <= y <= HEIGHT }

  /** `Math.floor(y / 8)` of the 0-based row; Dafny's `/` by a positive divisor also floors. */
  function Page(y: int): int { (y - 1) / 8 }

  /** The shift `y - 8 * page` of the 0-based row: the row's bit within its page. */
  function Shift(y: int): (k: int)
    ensures 0 <= k < 8 && k == (y - 1) % 8
  {
    (y - 1) - 8 * Page(y)
  }

  /** `0x01 << shift`: the byte with only the row's bit set. */
  function Mask(y: int): bv8 { BitValue(Shift(y)) }

  /** The byte offset drawPixel computes; both arms of its conditional agree. */
  function ByteIndex(x: int, y: int): (i: int)
    ensures i == (x - 1) + WIDTH * Page(y)
  {
    if Page(y) == 0 then x - 1 else (x - 1) + WIDTH * Page(y)
  }

  /** `0x01 << k` for a bit position k (0 = least significant): the byte with only bit k set,
      tabulated; ShiftedOne relates it to the shift. */
  function BitValue(k: int): bv8
    requires 0 <= k < 8
  {
    match k
    case 0 => 0x01 case 1 => 0x02 case 2 => 0x04 case 3 => 0x08
    case 4 => 0x10 case 5 => 0x20 case 6 => 0x40 case _ => 0x80
  }

  lemma ShiftedOne(k: int)
    requires 0 <= k < 8
    ensures (0x01 as bv8) << k == BitValue(k)
  {
    if k == 0 {} else if k == 1 {} else if k == 2 {} else if k == 3 {}
    else if k == 4 {} else if k == 5 {} else if k == 6 {} else {}
  }

  /** Bit k (0 = least significant) of a byte. */
  predicate Bit(b: bv8, k: int)
    requires 0 <= k < 8
  {
    b & BitValue(k) != 0
  }

  /** The two colour tests of drawPixel applied in turn to one byte. */
  function Paint(b: bv8, mask: bv8, c: Colour): bv8 {
    var cleared := if Clears(c) then b & !mask else b;
    if Sets(c) then cleared | mask else cleared
  }

  /** drawPixel for one entry. A byte offset outside the buffer is not written (the buffer
      ignores such stores), which is what happens to coordinates below 1 that pass the guard. */
  function Plot(buf: seq<bv8>, p: Pixel): (r: seq<bv8>)
    ensures |r| == |buf|
  {
    if !PassesGuard(p.x, p.y) then buf
    else
      var i := ByteIndex(p.x, p.y);
      if 0 <= i < |buf| then buf[i := Paint(buf[i], Mask(p.y), p.colour)] else buf
  }

  /** The entries of a list plotted in order, as drawPixel's forEach does. */
  function PlotAll(buf: seq<bv8>, ps: seq<Pixel>): (r: seq<bv8>)
    ensures |r| == |buf|
    decreases |ps|
  {
    if ps == [] then buf else PlotAll(Plot(buf, ps[0]), ps[1..])
  }

  /** Whether plotting p writes bit k of byte j. */
  predicate Targets(p: Pixel, j: int, k: int) {
    PassesGuard(p.x, p.y) && ByteIndex(p.x, p.y) == j && Shift(p.y) == k
  }

  /** The pixel of the panel held by bit k of byte j: the inverse of the addressing. */
  function PixelOf(j: int, k: int): (int, int) {
    (j % WIDTH + 1, 8 * (j / WIDTH) + k + 1)
  }

  /** Whether the pixel (x, y) of the panel is lit in a framebuffer. */
  predicate Lit(buf: seq<bv8>, x: int, y: int)
    requires |buf| == BUFFER_SIZE && InPanel(x, y)
  {
    Bit(buf[ByteIndex(x, y)], Shift(y))
  }

  /** The framebuffer as allocated and as clearDisplay leaves it. */
  function Blank(): (r: seq<bv8>)
    ensures |r| == BUFFER_SIZE
  {
    seq(BUFFER_SIZE, _ => 0)
  }

  /** drawBitmap's walk: entry i of a row-major colour list becomes pixel
      (i % 128 + 1, floor(i / 128) + 1) with that colour. */
  function BitmapPixels(colours: seq<Colour>): (ps: seq<Pixel>)
    ensures |ps| == |colours|
    ensures forall i :: 0 <= i < |ps| ==>
              ps[i].colour == colours[i] && (InPanel(ps[i].x, ps[i].y) <==> i < WIDTH * HEIGHT)
  {
    seq(|colours|, i requires 0 <= i < |colours| => Pixel(i % WIDTH + 1, i / WIDTH + 1, colours[i]))
  }

  // ---------------------------------------------------------------------------------------
  // Addressing

  /** Every pixel of the panel lands inside the buffer, on a mask with exactly one bit set. */
  lemma AddressInPanel(x: int, y: int)
    requires InPanel(x, y)
    ensures 0 <= ByteIndex(x, y) < BUFFER_SIZE
    ensures 0 <= Page(y) < PAGES
    ensures 0x01 <= Mask(y) <= 0x80
    ensures forall k :: 0 <= k < 8 ==> (Bit(Mask(y), k) <==> k == Shift(y))
  {
    MaskBits(y);
  }

  /** The mask of a row has exactly the row's shift bit set. */
  lemma MaskBits(y: int)
    ensures 0x01 <= Mask(y) <= 0x80
    ensures forall k :: 0 <= k < 8 ==> (Bit(Mask(y), k) <==> k == Shift(y))
  {
    var s := Shift(y);
    if s == 0 {} else if s == 1 {} else if s == 2 {} else if s == 3 {}
    else if s == 4 {} else if s == 5 {} else if s == 6 {} else {}
  }

  /** Each bit position's byte is one of the eight single-bit bytes. */
  lemma SingleBitValue(k: int)
    requires 0 <= k < 8
    ensures var v := BitValue(k);
            v == 0x01 || v == 0x02 || v == 0x04 || v == 0x08 || v == 0x10 || v == 0x20 || v == 0x40 || v == 0x80
  {
  }

  /** Clearing and setting through a mask, read at a byte with a single bit set. */
  lemma SingleBitOps(a: bv8, m: bv8, v: bv8)
    requires v == 0x01 || v == 0x02 || v == 0x04 || v == 0x08 || v == 0x10 || v == 0x20 || v == 0x40 || v == 0x80
    ensures ((a & !m) & v != 0) == ((a & v != 0) && m & v == 0)
    ensures ((a | m) & v != 0) == ((a & v != 0) || m & v != 0)
  {
  }

  /** Clearing and setting through a mask, read at one bit position. */
  lemma BitOps(a: bv8, m: bv8, k: int)
    requires 0 <= k < 8
    ensures Bit(a & !m, k) == (Bit(a, k) && !Bit(m, k))
    ensures Bit(a | m, k) == (Bit(a, k) || Bit(m, k))
  {
    SingleBitValue(k);
    SingleBitOps(a, m, BitValue(k));
  }

  /** The addressing is a bijection between the panel's pixels and the bits of the buffer:
      a pixel's (byte, bit) location maps back to the pixel ... */
  lemma PixelOfAddress(x: int, y: int)
    requires InPanel(x, y)
    ensures PixelOf(ByteIndex(x, y), Shift(y)) == (x, y)
  {
  }

  /** ... and every (byte, bit) location of the buffer is the location of one panel pixel. */
  lemma AddressOfPixelOf(j: int, k: int)
    requires 0 <= j < BUFFER_SIZE && 0 <= k < 8
    ensures InPanel(PixelOf(j, k).0, PixelOf(j, k).1)
    ensures ByteIndex(PixelOf(j, k).0, PixelOf(j, k).1) == j
    ensures Shift(PixelOf(j, k).1) == k
  {
  }

  /** Two distinct pixels of the panel never share a bit of the buffer. */
  lemma AddressInjective(x: int, y: int, x': int, y': int)
    requires InPanel(x, y) && InPanel(x', y')
    requires ByteIndex(x, y) == ByteIndex(x', y') && Shift(y) == Shift(y')
    ensures x == x' && y == y'
  {
    PixelOfAddress(x, y);
    PixelOfAddress(x', y');
  }

  // ---------------------------------------------------------------------------------------
  // drawPixel

  /** The colour tests on one byte, bit by bit: a setting colour sets the mask's bits, a
      clearing colour clears them, and bits outside the mask are kept. */
  lemma PaintBits(b: bv8, m: bv8, c: Colour, k: int)
    requires 0 <= k < 8
    ensures Bit(Paint(b, m, c), k) ==
              if Bit(m, k) then Sets(c) || (!Clears(c) && Bit(b, k)) else Bit(b, k)
  {
    var p := Paint(b, m, c);
    if Clears(c) {
      assert p == b & !m;
      BitOps(b, m, k);
    } else if Sets(c) {
      assert p == b | m;
      BitOps(b, m, k);
    } else {
      assert p == b;
    }
  }

  lemma PaintBit(b: bv8, y: int, c: Colour, k: int)
    requires 0 <= k < 8
    ensures Bit(Paint(b, Mask(y), c), k) ==
              if k == Shift(y) then Sets(c) || (!Clears(c) && Bit(b, k)) else Bit(b, k)
  {
    MaskBits(y);
    PaintBits(b, Mask(y), c, k);
  }

  /** What plotting one entry does to any bit of the buffer: the bit it targets is set by a
      setting colour, cleared by a clearing colour and kept otherwise; every other bit is kept. */
  lemma PlotBit(b: seq<bv8>, p: Pixel, j: int, k: int)
    requires |b| == BUFFER_SIZE && 0 <= j < BUFFER_SIZE && 0 <= k < 8
    ensures Bit(Plot(b, p)[j], k) ==
              if Targets(p, j, k) then Sets(p.colour) || (!Clears(p.colour) && Bit(b[j], k))
              else Bit(b[j], k)
  {
    if PassesGuard(p.x, p.y) && ByteIndex(p.x, p.y) == j {
      PaintBit(b[j], p.y, p.colour, k);
    }
  }

  /** A colour is never both a clearing and a setting one. */
  lemma ColourTestsExclusive(c: Colour)
    ensures !(Clears(c) && Sets(c))
  {
  }

  /** Plotting changes at most the one byte it addresses. */
  lemma PlotTouchesOneByte(b: seq<bv8>, p: Pixel, j: int)
    requires 0 <= j < |b| && j != ByteIndex(p.x, p.y)
    ensures Plot(b, p)[j] == b[j]
  {
  }

  /** At the level of the panel: plotting an in-panel pixel decides that pixel by its colour
      (lit for a setting colour, dark for a clearing one, unchanged otherwise) and leaves every
      other pixel as it was. */
  lemma PlotPixelEffect(b: seq<bv8>, p: Pixel, x: int, y: int)
    requires |b| == BUFFER_SIZE && InPanel(p.x, p.y) && InPanel(x, y)
    ensures Lit(Plot(b, p), x, y) ==
              if (x, y) == (p.x, p.y) then Sets(p.colour) || (!Clears(p.colour) && Lit(b, x, y))
              else Lit(b, x, y)
  {
    AddressInPanel(x, y);
    PlotBit(b, p, ByteIndex(x, y), Shift(y));
    if Targets(p, ByteIndex(x, y), Shift(y)) {
      AddressInjective(p.x, p.y, x, y);
    }
  }

  /** Coordinates past the right or bottom edge, above the top edge, or left of the panel
      within the first page leave the buffer unchanged. */
  lemma PlotOffPanel(b: seq<bv8>, p: Pixel)
    requires |b| == BUFFER_SIZE
    requires p.x > WIDTH || p.y > HEIGHT || p.y < 1 || (p.x < 1 && p.y <= 8)
    ensures Plot(b, p) == b
  {
  }

  /** Further left than column 1 - 128 * page the offset is negative: the store is dropped. */
  lemma PlotFarLeft(b: seq<bv8>, x: int, y: int, c: Colour)
    requires |b| == BUFFER_SIZE && x < 1 - WIDTH * Page(y)
    ensures Plot(b, Pixel(x, y, c)) == b
  {
  }

  /** Left of the panel below the first page, the lower bound is not checked: the pixel
      aliases onto column x + 128 of the page above, i.e. (0, y) draws (128, y - 8). */
  lemma PlotLeftAliases(b: seq<bv8>, x: int, y: int, c: Colour)
    requires x <= 0 && y <= HEIGHT
    ensures Plot(b, Pixel(x, y, c)) == Plot(b, Pixel(x + WIDTH, y - 8, c))
  {
    assert Page(y - 8) == Page(y) - 1;
  }

  /** A negative numeric colour passes neither colour test and changes nothing. */
  lemma PlotNegativeColour(b: seq<bv8>, x: int, y: int, n: int)
    requires n < 0
    ensures Plot(b, Pixel(x, y, Num(n))) == b
  {
  }

  /** Repeating the same pixel is idempotent. */
  lemma PlotIdempotent(b: seq<bv8>, p: Pixel)
    ensures Plot(Plot(b, p), p) == Plot(b, p)
  {
    if PassesGuard(p.x, p.y) {
      var i := ByteIndex(p.x, p.y);
      if 0 <= i < |b| {
        var m := Mask(p.y);
        var v := b[i];
        assert Paint(Paint(v, m, p.colour), m, p.colour) == Paint(v, m, p.colour);
      }
    }
  }

  // ---------------------------------------------------------------------------------------
  // Lists of pixels

  /** Plotting a concatenation is plotting one list after the other. */
  lemma {:induction false} PlotAllAppend(b: seq<bv8>, ps: seq<Pixel>, qs: seq<Pixel>)
    ensures PlotAll(b, ps + qs) == PlotAll(PlotAll(b, ps), qs)
    decreases |ps|
  {
    if ps != [] {
      assert (ps + qs)[0] == ps[0] && (ps + qs)[1..] == ps[1..] + qs;
      PlotAllAppend(Plot(b, ps[0]), ps[1..], qs);
    } else {
      assert ps + qs == qs;
    }
  }

  /** Plotting a list ending in p is plotting the rest and then p. */
  lemma PlotAllSnoc(b: seq<bv8>, ps: seq<Pixel>, p: Pixel)
    ensures PlotAll(b, ps + [p]) == Plot(PlotAll(b, ps), p)
  {
    PlotAllAppend(b, ps, [p]);
  }

  /** Plotting one more pixel onto the result of a list extends the list: PlotAllSnoc with the
      one-pixel list in place of Plot, the form the drawBitmap and drawLine loop invariants use. */
  lemma PlotAllExtend(b: seq<bv8>, ps: seq<Pixel>, p: Pixel)
    ensures PlotAll(PlotAll(b, ps), [p]) == PlotAll(b, ps + [p])
  {
    PlotAllAppend(b, ps, [p]);
  }

  /** A list of pixels none of which passes the guard changes nothing. */
  lemma {:induction false} PlotAllOffPanel(b: seq<bv8>, ps: seq<Pixel>)
    requires forall i :: 0 <= i < |ps| ==> !PassesGuard(ps[i].x, ps[i].y)
    ensures PlotAll(b, ps) == b
    decreases |ps|
  {
    if ps != [] {
      PlotAllOffPanel(Plot(b, ps[0]), ps[1..]);
    }
  }

  /** With only setting colours, a lit bit stays lit and every targeted bit ends lit. */
  lemma {:induction false} PlotAllSetting(b: seq<bv8>, ps: seq<Pixel>, j: int, k: int)
    requires |b| == BUFFER_SIZE && 0 <= j < BUFFER_SIZE && 0 <= k < 8
    requires forall i :: 0 <= i < |ps| ==> Sets(ps[i].colour)
    requires Bit(b[j], k) || exists i :: 0 <= i < |ps| && Targets(ps[i], j, k)
    ensures Bit(PlotAll(b, ps)[j], k)
    decreases |ps|
  {
    if ps != [] {
      var b' := Plot(b, ps[0]);
      PlotBit(b, ps[0], j, k);
      if !Bit(b'[j], k) {
        var i :| 0 <= i < |ps| && Targets(ps[i], j, k);
        assert i != 0;
        assert Targets(ps[1..][i - 1], j, k);
      }
      PlotAllSetting(b', ps[1..], j, k);
    }
  }

  // ---------------------------------------------------------------------------------------
  // clearDisplay and drawBitmap

  /** A cleared framebuffer shows no lit pixel. */
  lemma BlankIsDark(x: int, y: int)
    requires InPanel(x, y)
    ensures !Lit(Blank(), x, y)
  {
    AddressInPanel(x, y);
  }

  /** Entries past the 4096 pixels of the panel (derived row beyond 32) change nothing. */
  lemma BitmapIgnoresTail(b: seq<bv8>, colours: seq<Colour>)
    requires |colours| >= WIDTH * HEIGHT
    ensures PlotAll(b, BitmapPixels(colours)) == PlotAll(b, BitmapPixels(colours[..WIDTH * HEIGHT]))
  {
    var ps := BitmapPixels(colours);
    var n := WIDTH * HEIGHT;
    assert ps == ps[..n] + ps[n..];
    assert ps[..n] == BitmapPixels(colours[..n]);
    forall i | 0 <= i < |ps[n..]|
      ensures !PassesGuard(ps[n..][i].x, ps[n..][i].y)
    {
      assert ps[n..][i] == ps[n + i];
    }
    PlotAllAppend(b, ps[..n], ps[n..]);
    PlotAllOffPanel(PlotAll(b, ps[..n]), ps[n..]);
  }

  /** Each pixel of the panel is reached by exactly the bitmap entry (y - 1) * 128 + (x - 1). */
  lemma BitmapEntryOf(colours: seq<Colour>, x: int, y: int)
    requires InPanel(x, y) && |colours| >= WIDTH * HEIGHT
    ensures var i := (y - 1) * WIDTH + (x - 1);
            0 <= i < WIDTH * HEIGHT && BitmapPixels(colours)[i] == Pixel(x, y, colours[i])
  {
  }

  lemma AllBitsSet(v: bv8)
    requires forall k :: 0 <= k < 8 ==> Bit(v, k)
    ensures v == 0xFF
  {
    assert Bit(v, 0) && Bit(v, 1) && Bit(v, 2) && Bit(v, 3);
    assert Bit(v, 4) && Bit(v, 5) && Bit(v, 6) && Bit(v, 7);
  }

  /** A full-panel bitmap whose every entry is a setting colour (e.g. all 1) lights every
      pixel: each byte of the buffer ends 0xFF, whatever it held before. */
  lemma BitmapAllOn(b: seq<bv8>, colours: seq<Colour>)
    requires |b| == BUFFER_SIZE && |colours| >= WIDTH * HEIGHT
    requires forall i :: 0 <= i < |colours| ==> Sets(colours[i])
    ensures PlotAll(b, BitmapPixels(colours)) == seq(BUFFER_SIZE, _ => 0xFF)
  {
    var ps := BitmapPixels(colours);
    var r := PlotAll(b, ps);
    forall j | 0 <= j < BUFFER_SIZE
      ensures r[j] == 0xFF
    {
      forall k | 0 <= k < 8
        ensures Bit(r[j], k)
      {
        var (x, y) := PixelOf(j, k);
        AddressOfPixelOf(j, k);
        BitmapEntryOf(colours, x, y);
        var i := (y - 1) * WIDTH + (x - 1);
        assert Targets(ps[i], j, k);
        PlotAllSetting(b, ps, j, k);
      }
      AllBitsSet(r[j]);
    }
  }
}
