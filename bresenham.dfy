/** The pixels drawLine plots: Bresenham's recurrence on an error term, here kept doubled
    so that the source's floating-point halving `(dx > dy ? dx : -dy) / 2` stays exact. */
module Bresenham {
  import opened Framebuffer

  /** The end points drawLine(x0, y0, x1, y1) is called with, and what it derives from them. */
  datatype Segment = Segment(x0: int, y0: int, x1: int, y1: int) {
    function Dx(): nat { if x1 >= x0 then x1 - x0 else x0 - x1 }
    function Dy(): nat { if y1 >= y0 then y1 - y0 else y0 - y1 }
    function Sx(): int { if x0 < x1 then 1 else -1 }
    function Sy(): int { if y0 < y1 then 1 else -1 }
    /** Lines wider than tall step x every time; the others step y every time. */
    predicate XMajor() { Dx() > Dy() }
    /** Twice the initial error `(dx > dy ? dx : -dy) / 2`. */
    function Err0(): int { if XMajor() then Dx() as int else -(Dy() as int) }
  }

  /** The loop variables: the current point and twice the error term. */
  datatype Cursor = Cursor(x: int, y: int, e: int)

  /** How many x steps of Sx separate column x from the end column. */
  function RemX(s: Segment, x: int): int { if s.x0 < s.x1 then s.x1 - x else x - s.x1 }

  /** How many y steps of Sy separate row y from the end row. */
  function RemY(s: Segment, y: int): int { if s.y0 < s.y1 then s.y1 - y else y - s.y1 }

  predicate AtEnd(s: Segment, c: Cursor) { c.x == s.x1 && c.y == s.y1 }

  /** The product a * b as repeated addition; InvProducts relates the invariant below to its
      reading with ordinary products. */
  function Times(a: nat, b: nat): nat
    decreases a
  {
    if a == 0 then 0 else Times(a - 1, b) + b
  }

  lemma {:induction false} TimesIsProduct(a: nat, b: nat)
    ensures Times(a, b) == a * b
    decreases a
  {
    if a > 0 {
      TimesIsProduct(a - 1, b);
      MulPred(a, b);
    }
  }

  /** What holds of the loop variables at every test of the end condition: the point has not
      passed the end point on either axis, the error term records how far the point is from the
      ideal line, and it stays in the band that makes each step land on the nearer pixel. */
  predicate Inv(s: Segment, c: Cursor) {
    var rx, ry := RemX(s, c.x), RemY(s, c.y);
    && 0 <= rx <= s.Dx() && 0 <= ry <= s.Dy()
    && c.e == s.Err0() + 2 * Times(rx, s.Dy()) - 2 * Times(ry, s.Dx())
    && if s.XMajor() then 0 <= c.e <= 2 * s.Dx() else -2 * s.Dy() <= c.e <= 0
  }

  /** The invariant, with the error term as an ordinary sum of products. */
  lemma InvProducts(s: Segment, c: Cursor)
    ensures Inv(s, c) <==>
              var rx, ry := RemX(s, c.x), RemY(s, c.y);
              && 0 <= rx <= s.Dx() && 0 <= ry <= s.Dy()
              && c.e == s.Err0() + 2 * (rx * s.Dy()) - 2 * (ry * s.Dx())
              && if s.XMajor() then 0 <= c.e <= 2 * s.Dx() else -2 * s.Dy() <= c.e <= 0
  {
    var rx, ry := RemX(s, c.x), RemY(s, c.y);
    if 0 <= rx && 0 <= ry {
      TimesIsProduct(rx, s.Dy());
      TimesIsProduct(ry, s.Dx());
    }
  }

  /** The rest of one pass of the loop once the end test fails:
      `e2 = err; if (e2 > -dx) {err -= dy; x0 += sx} if (e2 < dy) {err += dx; y0 += sy}`. */
  function Step(s: Segment, c: Cursor): Cursor {
    var e2 := c.e;
    var c1 := if e2 > -2 * s.Dx() then Cursor(c.x + s.Sx(), c.y, c.e - 2 * s.Dy()) else c;
    if e2 < 2 * s.Dy() then Cursor(c1.x, c1.y + s.Sy(), c1.e + 2 * s.Dx()) else c1
  }

  /** A cursor whose coordinates and error term are updated as the loop body updates them is
      the next cursor. */
  lemma StepOf(s: Segment, c: Cursor, x: int, y: int, e: int)
    requires x == if c.e > -2 * s.Dx() then c.x + s.Sx() else c.x
    requires y == if c.e < 2 * s.Dy() then c.y + s.Sy() else c.y
    requires e == c.e - (if c.e > -2 * s.Dx() then 2 * s.Dy() else 0) + (if c.e < 2 * s.Dy() then 2 * s.Dx() else 0)
    ensures Cursor(x, y, e) == Step(s, c)
  {
  }

  /** Consecutive plotted pixels: each coordinate moves by nothing or by one step towards the
      end point, not both stay, and the major coordinate always moves. */
  predicate IsStep(s: Segment, p: Pixel, q: Pixel) {
    && (q.x == p.x || q.x == p.x + s.Sx())
    && (q.y == p.y || q.y == p.y + s.Sy())
    && (q.x, q.y) != (p.x, p.y)
    && (if s.XMajor() then q.x == p.x + s.Sx() else q.y == p.y + s.Sy())
  }

  lemma MulAtLeast(a: int, b: int)
    requires a >= 1 && b >= 0
    ensures a * b >= b
  {
  }

  lemma MulPred(a: int, b: int)
    ensures (a - 1) * b == a * b - b
  {
  }

  lemma MulSub(a: int, b: int, c: int)
    ensures a * c - b * c == (a - b) * c
  {
  }

  /** The loop variables satisfy the invariant on entry. */
  lemma InvInitially(s: Segment)
    ensures Inv(s, Cursor(s.x0, s.y0, s.Err0()))
  {
    InvProducts(s, Cursor(s.x0, s.y0, s.Err0()));
    assert RemX(s, s.x0) == s.Dx() && RemY(s, s.y0) == s.Dy();
    assert s.Dx() * s.Dy() == s.Dy() * s.Dx();
  }

  /** How the distances to the end change when a step moves x and/or y. */
  lemma RemAfterMove(s: Segment, c: Cursor)
    ensures RemX(s, c.x + s.Sx()) == RemX(s, c.x) - 1
    ensures RemY(s, c.y + s.Sy()) == RemY(s, c.y) - 1
  {
  }

  /** One pass of the loop that does not stop keeps the invariant and moves one step, the
      major coordinate advancing by exactly one. */
  lemma StepKeepsInv(s: Segment, c: Cursor)
    requires Inv(s, c) && !AtEnd(s, c)
    ensures Inv(s, Step(s, c))
    ensures IsStep(s, Pixel(c.x, c.y, Num(1)), Pixel(Step(s, c).x, Step(s, c).y, Num(1)))
    ensures s.XMajor() ==> RemX(s, Step(s, c).x) == RemX(s, c.x) - 1
    ensures !s.XMajor() ==> RemY(s, Step(s, c).y) == RemY(s, c.y) - 1
  {
    if s.XMajor() {
      StepXMajor(s, c);
    } else {
      StepYMajor(s, c);
    }
  }

  lemma StepXMajor(s: Segment, c: Cursor)
    requires Inv(s, c) && !AtEnd(s, c) && s.XMajor()
    ensures Inv(s, Step(s, c))
    ensures Step(s, c).x == c.x + s.Sx() && (Step(s, c).y == c.y || Step(s, c).y == c.y + s.Sy())
  {
    InvProducts(s, c);
    InvProducts(s, Step(s, c));
    var dx: int, dy: int := s.Dx(), s.Dy();
    var rx, ry := RemX(s, c.x), RemY(s, c.y);
    RemAfterMove(s, c);
    MulPred(rx, dy);
    MulPred(ry, dx);
    // The end column is reached only together with the end row ...
    if rx == 0 {
      MulAtLeast(ry, dx);
      assert false;
    }
    // ... and on the end row the error is too large to step y again.
    MulAtLeast(rx, dy);
    assert ry == 0 ==> c.e >= 2 * dy;
  }

  lemma StepYMajor(s: Segment, c: Cursor)
    requires Inv(s, c) && !AtEnd(s, c) && !s.XMajor()
    ensures Inv(s, Step(s, c))
    ensures Step(s, c).y == c.y + s.Sy() && (Step(s, c).x == c.x || Step(s, c).x == c.x + s.Sx())
  {
    InvProducts(s, c);
    InvProducts(s, Step(s, c));
    var dx: int, dy: int := s.Dx(), s.Dy();
    var rx, ry := RemX(s, c.x), RemY(s, c.y);
    RemAfterMove(s, c);
    MulPred(rx, dy);
    MulPred(ry, dx);
    assert dy >= 1;
    // The end row is reached only together with the end column ...
    if ry == 0 {
      MulAtLeast(rx, dy);
      assert false;
    }
    // ... and in the end column the error is too small to step x again.
    MulAtLeast(ry, dx);
    assert rx == 0 ==> c.e <= -2 * dx;
  }

  /** The pixels plotted from cursor c on, each with colour 1. */
  function Trace(s: Segment, c: Cursor): (ps: seq<Pixel>)
    requires Inv(s, c)
    ensures |ps| == 1 + if s.XMajor() then RemX(s, c.x) else RemY(s, c.y)
    ensures ps[0] == Pixel(c.x, c.y, Num(1))
    ensures ps[|ps| - 1] == Pixel(s.x1, s.y1, Num(1))
    ensures forall i :: 0 <= i < |ps| ==> ps[i].colour == Num(1)
    ensures forall i :: 0 <= i < |ps| - 1 ==> (ps[i].x, ps[i].y) != (s.x1, s.y1)
    ensures forall i :: 0 <= i < |ps| - 1 ==> IsStep(s, ps[i], ps[i + 1])
    ensures forall i :: 0 <= i < |ps| ==>
              0 <= RemX(s, ps[i].x) <= RemX(s, c.x) && 0 <= RemY(s, ps[i].y) <= RemY(s, c.y)
    decreases RemX(s, c.x) + RemY(s, c.y)
  {
    if AtEnd(s, c) then [Pixel(c.x, c.y, Num(1))]
    else
      StepKeepsInv(s, c);
      [Pixel(c.x, c.y, Num(1))] + Trace(s, Step(s, c))
  }

  /** The pixels from a cursor that is not at the end are that cursor's pixel followed by the
      pixels from the next cursor, which is nearer the end. */
  lemma TraceUnfold(s: Segment, c: Cursor)
    requires Inv(s, c) && !AtEnd(s, c)
    ensures Inv(s, Step(s, c))
    ensures Trace(s, c) == [Pixel(c.x, c.y, Num(1))] + Trace(s, Step(s, c))
    ensures RemX(s, Step(s, c).x) + RemY(s, Step(s, c).y) < RemX(s, c.x) + RemY(s, c.y)
  {
    StepKeepsInv(s, c);
    RemAfterMove(s, c);
  }

  /** Every pixel drawLine(x0, y0, x1, y1) plots, in order. */
  function Line(s: Segment): (ps: seq<Pixel>)
    ensures |ps| == 1 + if s.XMajor() then s.Dx() else s.Dy()
    ensures ps[0] == Pixel(s.x0, s.y0, Num(1))
    ensures ps[|ps| - 1] == Pixel(s.x1, s.y1, Num(1))
    ensures forall i :: 0 <= i < |ps| - 1 ==> (ps[i].x, ps[i].y) != (s.x1, s.y1)
    ensures forall i :: 0 <= i < |ps| - 1 ==> IsStep(s, ps[i], ps[i + 1])
    ensures forall i :: 0 <= i < |ps| ==>
              ps[i].colour == Num(1) && 0 <= RemX(s, ps[i].x) <= s.Dx() && 0 <= RemY(s, ps[i].y) <= s.Dy()
  {
    InvInitially(s);
    Trace(s, Cursor(s.x0, s.y0, s.Err0()))
  }

  /** The loop variables after n passes of drawLine's loop that did not stop. */
  function Walk(s: Segment, n: nat): Cursor
    decreases n
  {
    if n == 0 then Cursor(s.x0, s.y0, s.Err0()) else Step(s, Walk(s, n - 1))
  }

  /** The pixels plotted by the first n passes of the loop. */
  function Walked(s: Segment, n: nat): (ps: seq<Pixel>)
    ensures |ps| == n
    decreases n
  {
    if n == 0 then [] else Walked(s, n - 1) + [Pixel(Walk(s, n - 1).x, Walk(s, n - 1).y, Num(1))]
  }

  lemma {:induction false} WalkedIndex(s: Segment, n: nat, k: nat)
    requires k < n
    ensures Walked(s, n)[k] == Pixel(Walk(s, k).x, Walk(s, k).y, Num(1))
    decreases n
  {
    if k < n - 1 {
      WalkedIndex(s, n - 1, k);
    }
  }

  /** The k-th pixel from the cursor reached after m passes is the pixel of pass m + k. */
  lemma {:induction false} TraceWalks(s: Segment, c: Cursor, m: nat, k: nat)
    requires Inv(s, c) && c == Walk(s, m) && k < |Trace(s, c)|
    ensures Trace(s, c)[k] == Pixel(Walk(s, m + k).x, Walk(s, m + k).y, Num(1))
    decreases k
  {
    if k > 0 {
      TraceUnfold(s, c);
      var next := Step(s, c);
      assert next == Walk(s, m + 1);
      TraceWalks(s, next, m + 1, k - 1);
      assert Trace(s, c)[k] == Trace(s, next)[k - 1];
      assert m + 1 + (k - 1) == m + k;
    } else {
      assert m + k == m;
    }
  }

  /** The pixels of the line are those of the loop's passes, up to the one that reaches the end. */
  lemma LineIsWalked(s: Segment)
    ensures Line(s) == Walked(s, |Line(s)|)
  {
    InvInitially(s);
    var c0 := Walk(s, 0);
    var ps, ws := Line(s), Walked(s, |Line(s)|);
    assert ps == Trace(s, c0);
    forall k | 0 <= k < |ps|
      ensures ps[k] == ws[k]
    {
      TraceWalks(s, c0, 0, k);
      WalkedIndex(s, |ps|, k);
    }
  }

  /** The number of passes of the loop that move the point: the distance along the major axis. */
  function Passes(s: Segment): nat {
    if s.XMajor() then s.Dx() else s.Dy()
  }

  /** The loop stops on its pass number Passes(s), and on no earlier one. */
  lemma WalkAtEnd(s: Segment, n: nat)
    requires n <= Passes(s)
    ensures AtEnd(s, Walk(s, n)) <==> n == Passes(s)
  {
    var ps := Line(s);
    LineIsWalked(s);
    WalkedIndex(s, |ps|, n);
  }

  /** The pass that stops plots the line's last pixel. */
  lemma WalkedToEnd(s: Segment)
    ensures Walked(s, Passes(s) + 1) == Line(s)
  {
    LineIsWalked(s);
  }

  /** Along the major axis the i-th pixel is i steps from the start. */
  lemma {:induction false} MajorAxisIndex(s: Segment, ps: seq<Pixel>, i: int)
    requires |ps| >= 1 && 0 <= i < |ps|
    requires forall j :: 0 <= j < |ps| - 1 ==> IsStep(s, ps[j], ps[j + 1])
    ensures s.XMajor() ==> ps[i].x == ps[0].x + i * s.Sx()
    ensures !s.XMajor() ==> ps[i].y == ps[0].y + i * s.Sy()
  {
    if i > 0 {
      MajorAxisIndex(s, ps, i - 1);
      assert IsStep(s, ps[i - 1], ps[i]);
    }
  }

  /** A horizontal line from x0 to x1 >= x0 plots x1 - x0 + 1 pixels, one per column,
      all on row y: e.g. drawLine(0, 0, 10, 0) plots the 11 columns 0..10 of row 0. */
  lemma HorizontalLine(x0: int, x1: int, y: int)
    requires x0 <= x1
    ensures Line(Segment(x0, y, x1, y)) == seq(x1 - x0 + 1, i => Pixel(x0 + i, y, Num(1)))
  {
    var s := Segment(x0, y, x1, y);
    var ps := Line(s);
    forall i | 0 <= i < |ps|
      ensures ps[i] == Pixel(x0 + i, y, Num(1))
    {
      if x0 < x1 {
        MajorAxisIndex(s, ps, i);
      }
    }
  }

  /** A vertical line from y0 to y1 >= y0 plots y1 - y0 + 1 pixels, one per row, all in
      column x. */
  lemma VerticalLine(x: int, y0: int, y1: int)
    requires y0 <= y1
    ensures Line(Segment(x, y0, x, y1)) == seq(y1 - y0 + 1, i => Pixel(x, y0 + i, Num(1)))
  {
    var s := Segment(x, y0, x, y1);
    var ps := Line(s);
    forall i | 0 <= i < |ps|
      ensures ps[i] == Pixel(x, y0 + i, Num(1))
    {
      MajorAxisIndex(s, ps, i);
    }
  }

  /** On a 45-degree line the error term pins both coordinates to the same distance from
      the end: e = d * (2 * (rx - ry) - 1) must lie in [-2d, 0]. */
  lemma DiagonalBalanced(s: Segment, c: Cursor)
    requires s.Dx() == s.Dy() && Inv(s, c)
    ensures RemX(s, c.x) == RemY(s, c.y)
  {
    InvProducts(s, c);
    var d: int, rx, ry := s.Dy(), RemX(s, c.x), RemY(s, c.y);
    if rx > ry {
      MulSub(rx, ry, d);
      MulAtLeast(rx - ry, d);
      assert false;
    } else if rx < ry {
      MulSub(ry, rx, d);
      MulAtLeast(ry - rx, d);
      assert false;
    }
  }

  /** On a 45-degree line both coordinates are equally far from the end at every step. */
  lemma {:induction false} DiagonalTrace(s: Segment, c: Cursor)
    requires s.Dx() == s.Dy() && Inv(s, c)
    ensures forall i :: 0 <= i < |Trace(s, c)| ==>
              RemX(s, Trace(s, c)[i].x) == RemY(s, Trace(s, c)[i].y)
    decreases RemX(s, c.x) + RemY(s, c.y)
  {
    DiagonalBalanced(s, c);
    if !AtEnd(s, c) {
      StepKeepsInv(s, c);
      DiagonalTrace(s, Step(s, c));
      var ps := Trace(s, c);
      assert ps[1..] == Trace(s, Step(s, c));
      forall i | 1 <= i < |ps|
        ensures RemX(s, ps[i].x) == RemY(s, ps[i].y)
      {
        assert ps[i] == ps[1..][i - 1];
      }
    }
  }

  /** A 45-degree line moves both coordinates at every step: drawLine(x, y, x + n, y + n)
      plots exactly the n + 1 pixels (x + i, y + i). */
  lemma DiagonalLine(x: int, y: int, n: nat)
    ensures Line(Segment(x, y, x + n, y + n)) == seq(n + 1, i => Pixel(x + i, y + i, Num(1)))
  {
    var s := Segment(x, y, x + n, y + n);
    InvInitially(s);
    DiagonalTrace(s, Cursor(x, y, s.Err0()));
    var ps := Line(s);
    forall i | 0 <= i < |ps|
      ensures ps[i] == Pixel(x + i, y + i, Num(1))
    {
      MajorAxisIndex(s, ps, i);
    }
  }

  /** drawLine(0, 0, 0, 0) plots the single pixel (0, 0), which lies above the panel: the
      framebuffer is left unchanged. */
  lemma OriginLineDrawsNothing(b: seq<bv8>)
    requires |b| == Ssd1306.BUFFER_SIZE
    ensures Line(Segment(0, 0, 0, 0)) == [Pixel(0, 0, Num(1))]
    ensures PlotAll(b, Line(Segment(0, 0, 0, 0))) == b
  {
    HorizontalLine(0, 0, 0);
    PlotOffPanel(b, Pixel(0, 0, Num(1)));
  }
}
