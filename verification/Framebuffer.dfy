/**
 The double-buffered framebuffer of kernel/src/drivers/fb.rs. Primitives paint into `back`
 and widen a dirty rectangle; `commit` swaps `back` with `present` and resynchronises only
 the dirty part; `present` copies that part to the scanout. The reference is a single
 picture that receives every draw.
 */
module Framebuffer {
  import opened Arithmetic

  type Color = nat

  const U32_MAX: nat := 0xFFFF_FFFF
  const BG: Color := 0x0a0a14
  const CHAR_WIDTH: nat := 8
  const CHAR_HEIGHT: nat := 16

  function Min(a: nat, b: nat): nat { if a < b then a else b }

  function Max(a: nat, b: nat): nat { if a < b then b else a }

  /** `u32::saturating_add` */
  function SatAdd(a: nat, b: nat): nat { Min(a + b, U32_MAX) }

  // ---------------------------------------------------------------------------
  // Offsets
  // ---------------------------------------------------------------------------

  function Idx(pitch: nat, x: nat, y: nat): nat { y * pitch + x }

  lemma IdxBound(pitch: nat, height: nat, x: nat, y: nat)
    requires x < pitch && y < height
    ensures Idx(pitch, x, y) < pitch * height
  {
    MulStep(y, height, pitch);
  }

  lemma IdxInjective(pitch: nat, x: nat, y: nat, x': nat, y': nat)
    requires x < pitch && x' < pitch && Idx(pitch, x, y) == Idx(pitch, x', y')
    ensures x == x' && y == y'
  {
    MulStep(y, y', pitch);
    MulStep(y', y, pitch);
  }

  // ---------------------------------------------------------------------------
  // The reference: one picture, every draw applied directly
  // ---------------------------------------------------------------------------

  type Picture = (nat, nat) -> Color

  datatype Rect = Rect(any: bool, x0: nat, y0: nat, x1: nat, y1: nat) {
    predicate Has(x: nat, y: nat) {
      any && x0 <= x < x1 && y0 <= y < y1
    }
  }

  const CLEAN: Rect := Rect(false, 0, 0, 0, 0)

  function Blank(c: Color): Picture {
    (x: nat, y: nat) => c
  }

  function Filled(p: Picture, x: nat, y: nat, w: nat, h: nat, c: Color): Picture {
    (px: nat, py: nat) => if x <= px < x + w && y <= py < y + h then c else p(px, py)
  }

  function Lit(bits: bv8, col: nat): bool
    requires col < 8
  {
    (bits >> (7 - col)) & 1 != 0
  }

  /** The leftmost dot is the highest bit, and a row shifted by one bit moves one column to the left. */
  lemma LitOrder(bits: bv8, col: nat)
    requires col < 8
    ensures Lit(0x80, col) <==> col == 0
    ensures Lit(bits << 1, col) <==> col < 7 && Lit(bits, col + 1)
  {
    if col == 0 {
    } else if col == 1 {
    } else if col == 2 {
    } else if col == 3 {
    } else if col == 4 {
    } else if col == 5 {
    } else if col == 6 {
    }
  }

  type Glyph = g: seq<bv8> | |g| == 16 witness seq(16, _ => 0)

  /** The dot of a scaled glyph that covers pixel d. */
  function Dot(d: nat, scale: nat): nat
    requires scale > 0
  {
    d / scale
  }

  lemma DotIs(q: nat, d: nat, scale: nat)
    requires q * scale <= d < q * scale + scale
    ensures Dot(d, scale) == q
  {
    MulStep(d / scale, q, scale);
    MulStep(q, d / scale, scale);
  }

  lemma DotBound(d: nat, n: nat, scale: nat)
    requires scale > 0 && d < n * scale
    ensures Dot(d, scale) < n
  {
    MulStep(n, d / scale, scale);
    assert n == d / scale ==> n * scale == (d / scale) * scale;
  }

  function DotColor(bits: bv8, scale: nat, dx: nat, fg: Color, bg: Color): Color
    requires scale > 0 && dx < CHAR_WIDTH * scale
  {
    DotBound(dx, CHAR_WIDTH, scale);
    if Lit(bits, Dot(dx, scale)) then fg else bg
  }

  /** A glyph cell of 8 x 16 dots, each dot a square of `scale` pixels. */
  function GlyphColor(glyph: Glyph, scale: nat, dx: nat, dy: nat, fg: Color, bg: Color): Color
    requires scale > 0 && dx < CHAR_WIDTH * scale && dy < CHAR_HEIGHT * scale
  {
    DotBound(dy, CHAR_HEIGHT, scale);
    DotColor(glyph[Dot(dy, scale)], scale, dx, fg, bg)
  }

  type Scale = n: nat | n > 0 witness 1

  function LetteredAt(p: Picture, x: nat, y: nat, glyph: Glyph, scale: Scale, fg: Color, bg: Color,
                      px: nat, py: nat): Color
  {
    if x <= px < x + CHAR_WIDTH * scale && y <= py < y + CHAR_HEIGHT * scale
    then GlyphColor(glyph, scale, px - x, py - y, fg, bg)
    else p(px, py)
  }

  function Lettered(p: Picture, x: nat, y: nat, glyph: Glyph, scale: Scale, fg: Color, bg: Color): Picture {
    (px: nat, py: nat) => LetteredAt(p, x, y, glyph, scale, fg, bg, px, py)
  }

  function Scrolled(p: Picture, limit: nat, n: nat, c: Color): Picture {
    (px: nat, py: nat) =>
      if py + n < limit then p(px, py + n)
      else if py < limit then c
      else p(px, py)
  }

  datatype Op =
    | Put(x: nat, y: nat, c: Color)
    | Fill(x: nat, y: nat, w: nat, h: nat, c: Color)
    | Letter(x: nat, y: nat, glyph: Glyph, fg: Color, bg: Color)
    | Scroll(maxY: nat, n: nat, c: Color)
    | Frame

  /** `scroll_up_bounded` underflows when it is asked for more lines than the screen has. */
  predicate Defined(op: Op, height: nat) {
    op.Scroll? ==> op.n < op.maxY ==> op.n <= height
  }

  function Draw(p: Picture, op: Op, scale: Scale, height: nat): Picture
  {
    match op
    case Put(x, y, c) => Filled(p, x, y, 1, 1, c)
    case Fill(x, y, w, h, c) => Filled(p, x, y, w, h, c)
    case Letter(x, y, glyph, fg, bg) => Lettered(p, x, y, glyph, scale, fg, bg)
    case Scroll(maxY, n, c) => if n == 0 || n >= maxY then p else Scrolled(p, Min(maxY, height), n, c)
    case Frame => p
  }

  /** The picture after every draw of a session. */
  function Drawn(ops: seq<Op>, scale: Scale, height: nat): Picture
  {
    if ops == [] then Blank(BG)
    else Draw(Drawn(ops[..|ops| - 1], scale, height), ops[|ops| - 1], scale, height)
  }

  /** What the viewer should see: the picture as it was at the last completed frame. */
  function Seen(ops: seq<Op>, scale: Scale, height: nat): Picture
  {
    if ops == [] then Blank(BG)
    else if ops[|ops| - 1].Frame? then Drawn(ops, scale, height)
    else Seen(ops[..|ops| - 1], scale, height)
  }

  // ---------------------------------------------------------------------------
  // The driver
  // ---------------------------------------------------------------------------

  /** The pixel of a row-major buffer. */
  ghost function At(a: array<Color>, pitch: nat, height: nat, x: nat, y: nat): Color
    requires a.Length == pitch * height && x < pitch && y < height
    reads a
  {
    IdxBound(pitch, height, x, y);
    a[Idx(pitch, x, y)]
  }

  /** One store changes one pixel. */
  method Store(a: array<Color>, pitch: nat, ghost height: nat, px: nat, py: nat, c: Color)
    requires a.Length == pitch * height && px < pitch && py < height
    modifies a
    ensures forall x: nat, y: nat :: x < pitch && y < height ==>
              At(a, pitch, height, x, y) == if x == px && y == py then c else old(At(a, pitch, height, x, y))
  {
    IdxBound(pitch, height, px, py);
    a[Idx(pitch, px, py)] := c;
    forall x: nat, y: nat | x < pitch && y < height && !(x == px && y == py)
      ensures At(a, pitch, height, x, y) == old(At(a, pitch, height, x, y))
    {
      IdxBound(pitch, height, x, y);
      if Idx(pitch, x, y) == Idx(pitch, px, py) {
        IdxInjective(pitch, x, y, px, py);
      }
    }
  }

  class Fb {
    var front: array<Color>
    var back: array<Color>
    var present: array<Color>
    const width: nat
    const height: nat
    const pitch: nat
    const textScale: Scale
    var dirty: Rect
    var frameReady: bool
    var readyDirty: Rect
    ghost var direct: Picture    // the single buffer that received every draw

    ghost predicate Shaped()
      reads this
    {
      && front != back && back != present && front != present
      && front.Length == back.Length == present.Length == pitch * height
      && width <= pitch && width <= U32_MAX && height <= U32_MAX
      && (dirty.any ==> dirty.x0 < dirty.x1 <= width && dirty.y0 < dirty.y1 <= height)
      && (frameReady ==> readyDirty.any && readyDirty.x0 < readyDirty.x1 <= width
                         && readyDirty.y0 < readyDirty.y1 <= height)
    }

    ghost predicate Shows(a: array<Color>, p: Picture)
      requires a.Length == pitch * height && width <= pitch
      reads a
    {
      forall x: nat, y: nat :: x < width && y < height ==> At(a, pitch, height, x, y) == p(x, y)
    }

    /** The buffers agree outside a rectangle. */
    ghost predicate Agree(a: array<Color>, b: array<Color>, r: Rect)
      requires a.Length == b.Length == pitch * height && width <= pitch
      reads a, b
    {
      forall x: nat, y: nat :: x < width && y < height && !r.Has(x, y) ==>
        At(a, pitch, height, x, y) == At(b, pitch, height, x, y)
    }

    /** `back` holds every draw; `present` lags behind it only inside the dirty rectangle. */
    ghost predicate Valid()
      reads this, front, back, present
    {
      && Shaped()
      && Shows(back, direct)
      && Agree(present, back, dirty)
    }

    /** The scanout lags behind `present` only inside the rectangle of the frame in flight. */
    ghost predicate Synced()
      requires Shaped()
      reads this, front, present
    {
      Agree(front, present, if frameReady then readyDirty else CLEAN)
    }

    /** `fb::init` up to its first clear: the scanout holds whatever the firmware left there. */
    constructor (scanout: array<Color>, width: nat, height: nat, pitch: nat, textScale: Scale)
      requires width <= pitch && width <= U32_MAX && height <= U32_MAX
      requires scanout.Length == pitch * height
      ensures this.width == width && this.height == height && this.pitch == pitch && this.textScale == textScale
      ensures front == scanout && fresh(back) && fresh(present)
      ensures Valid() && direct == Blank(BG) && !frameReady && !dirty.any
    {
      this.width, this.height, this.pitch, this.textScale := width, height, pitch, textScale;
      front := scanout;
      var b := new Color[pitch * height](_ => BG);
      var p := new Color[pitch * height](_ => BG);
      back, present := b, p;
      dirty, readyDirty, frameReady := CLEAN, CLEAN, false;
      direct := Blank(BG);
      new;
      forall x: nat, y: nat | x < pitch && y < height
        ensures At(back, pitch, height, x, y) == BG && At(present, pitch, height, x, y) == BG
      {
        IdxBound(pitch, height, x, y);
      }
    }

    /** `mark_dirty_rect`: clamps, ignores empty rectangles, grows to the bounding box. */
    method MarkDirty(x: nat, y: nat, w: nat, h: nat)
      requires Shaped()
      modifies this`dirty
      ensures Shaped()
      ensures forall px: nat, py: nat :: old(dirty).Has(px, py) ==> dirty.Has(px, py)
      ensures forall px: nat, py: nat ::
                px < width && py < height && x <= px < x + w && y <= py < y + h ==> dirty.Has(px, py)
      ensures dirty.any <==> old(dirty.any) || (w > 0 && h > 0 && x < width && y < height)
      ensures !old(dirty.any) && dirty.any ==> dirty == Rect(true, x, y, Min(x + w, width), Min(y + h, height))
    {
      if w == 0 || h == 0 { return; }
      var x0 := Min(x, width);
      var y0 := Min(y, height);
      var x1 := Min(SatAdd(x, w), width);
      var y1 := Min(SatAdd(y, h), height);
      if x0 >= x1 || y0 >= y1 { return; }
      if !dirty.any {
        dirty := Rect(true, x0, y0, x1, y1);
        return;
      }
      dirty := Rect(true, Min(dirty.x0, x0), Min(dirty.y0, y0), Max(dirty.x1, x1), Max(dirty.y1, y1));
    }

    method PutPixel(x: nat, y: nat, c: Color)
      requires Valid()
      modifies this`dirty, this`direct, back
      ensures Valid() && direct == Filled(old(direct), x, y, 1, 1, c)
      ensures !old(dirty.any) && x < width && y < height ==> dirty == Rect(true, x, y, x + 1, y + 1)
    {
      hide At;
      direct := Filled(direct, x, y, 1, 1, c);
      if x >= width || y >= height { return; }
      Store(back, pitch, height, x, y, c);
      MarkDirty(x, y, 1, 1);
    }

    /** `fill_rect` */
    method FillRect(x: nat, y: nat, w: nat, h: nat, c: Color)
      requires Valid()
      modifies this`dirty, this`direct, back
      ensures Valid() && direct == Filled(old(direct), x, y, w, h, c)
      ensures forall px: nat, py: nat ::
                px < width && py < height && x <= px < x + w && y <= py < y + h ==> dirty.Has(px, py)
    {
      hide At;
      FillAndMark(x, y, w, h, c);
      direct := Filled(direct, x, y, w, h, c);
    }

    method FillAndMark(x: nat, y: nat, w: nat, h: nat, c: Color)
      requires Shaped()
      modifies this`dirty, back
      ensures Shaped()
      ensures forall px: nat, py: nat :: px < width && py < height ==>
                At(back, pitch, height, px, py) ==
                if x <= px < x + w && y <= py < y + h then c else old(At(back, pitch, height, px, py))
      ensures forall px: nat, py: nat :: old(dirty).Has(px, py) ==> dirty.Has(px, py)
      ensures forall px: nat, py: nat ::
                px < width && py < height && x <= px < x + w && y <= py < y + h ==> dirty.Has(px, py)
    {
      hide At;
      var x1 := Min(x, width);
      var y1 := Min(y, height);
      var x2 := Min(SatAdd(x, w), width);
      var y2 := Min(SatAdd(y, h), height);
      PaintRect(x1, y1, x2, y2, c);
      MarkDirty(x1, y1, if x2 > x1 then x2 - x1 else 0, if y2 > y1 then y2 - y1 else 0);
    }

    /** The painting loops of `fill_rect`. */
    method PaintRect(x1: nat, y1: nat, x2: nat, y2: nat, c: Color)
      requires Shaped() && x2 <= width && y2 <= height
      modifies back
      ensures forall x: nat, y: nat :: x < width && y < height ==>
                At(back, pitch, height, x, y) ==
                if x1 <= x < x2 && y1 <= y < y2 then c else old(At(back, pitch, height, x, y))
    {
      hide At;
      var py := y1;
      while py < y2
        invariant y1 <= py
        invariant forall x: nat, y: nat :: x < pitch && y < height ==>
                    At(back, pitch, height, x, y) ==
                    if x1 <= x < x2 && y1 <= y < py && y < y2 then c else old(At(back, pitch, height, x, y))
      {
        PaintRow(x1, x2, py, c);
        py := py + 1;
      }
    }

    method PaintRow(x1: nat, x2: nat, py: nat, c: Color)
      requires Shaped() && x2 <= width && py < height
      modifies back
      ensures forall x: nat, y: nat :: x < pitch && y < height ==>
                At(back, pitch, height, x, y) ==
                if x1 <= x < x2 && y == py then c else old(At(back, pitch, height, x, y))
    {
      hide At;
      var px := x1;
      while px < x2
        invariant x1 <= px
        invariant forall x: nat, y: nat :: x < pitch && y < height ==>
                    At(back, pitch, height, x, y) ==
                    if x1 <= x < px && x < x2 && y == py then c else old(At(back, pitch, height, x, y))
      {
        Store(back, pitch, height, px, py, c);
        px := px + 1;
      }
    }

    /** `blit_char` */
    method BlitChar(x: nat, y: nat, glyph: Glyph, fg: Color, bg: Color)
      requires Valid()
      modifies this`dirty, this`direct, back
      ensures Valid() && direct == Lettered(old(direct), x, y, glyph, textScale, fg, bg)
    {
      hide GlyphColor, At;
      direct := Lettered(direct, x, y, glyph, textScale, fg, bg);
      if x >= width || y >= height { return; }
      if textScale == 1 {
        BlitFast(x, y, glyph, fg, bg);
      } else {
        BlitScaled(x, y, glyph, fg, bg);
      }
      MarkDirty(x, y, CHAR_WIDTH * textScale, CHAR_HEIGHT * textScale);
    }

    /** The unscaled path: 16 rows of up to 8 pixels. */
    method BlitFast(x0: nat, y0: nat, glyph: Glyph, fg: Color, bg: Color)
      requires Shaped() && x0 < width && y0 < height && textScale == 1
      modifies back
      ensures forall x: nat, y: nat :: x < width && y < height ==>
                At(back, pitch, height, x, y) ==
                if x0 <= x < x0 + CHAR_WIDTH && y0 <= y < y0 + CHAR_HEIGHT
                then GlyphColor(glyph, 1, x - x0, y - y0, fg, bg) else old(At(back, pitch, height, x, y))
    {
      hide Lit, At;
      var cols := Min(x0 + 8, width) - x0;
      for gy := 0 to CHAR_HEIGHT
        invariant forall x: nat, y: nat :: x < width && y < height ==>
                    At(back, pitch, height, x, y) ==
                    if x0 <= x < x0 + CHAR_WIDTH && y0 <= y < y0 + gy
                    then GlyphColor(glyph, 1, x - x0, y - y0, fg, bg) else old(At(back, pitch, height, x, y))
      {
        var py := y0 + gy;
        if py >= height { break; }
        label Row:
        for gx := 0 to cols
          invariant forall x: nat, y: nat :: x < width && y < height ==>
                      At(back, pitch, height, x, y) ==
                      if x0 <= x < x0 + gx && y == py
                      then GlyphColor(glyph, 1, x - x0, gy, fg, bg) else old@Row(At(back, pitch, height, x, y))
        {
          Store(back, pitch, height, x0 + gx, py, if Lit(glyph[gy], gx) then fg else bg);
        }
      }
    }

    /** The scaled path. */
    method BlitScaled(x0: nat, y0: nat, glyph: Glyph, fg: Color, bg: Color)
      requires Shaped() && x0 < width && y0 < height
      modifies back
      ensures forall x: nat, y: nat :: x < width && y < height ==>
                At(back, pitch, height, x, y) ==
                if x0 <= x < x0 + CHAR_WIDTH * textScale && y0 <= y < y0 + CHAR_HEIGHT * textScale
                then GlyphColor(glyph, textScale, x - x0, y - y0, fg, bg) else old(At(back, pitch, height, x, y))
    {
      hide Lit, Dot, DotColor, At;
      ghost var top := 0;
      for gy := 0 to CHAR_HEIGHT
        invariant top == gy * textScale
        invariant forall x: nat, y: nat :: x < width && y < height ==>
                    At(back, pitch, height, x, y) ==
                    if x0 <= x < x0 + CHAR_WIDTH * textScale && y0 <= y < y0 + top && y < y0 + CHAR_HEIGHT * textScale
                    then GlyphColor(glyph, textScale, x - x0, y - y0, fg, bg) else old(At(back, pitch, height, x, y))
      {
        BlitDotRow(x0, y0, gy, top, glyph, fg, bg);
        top := top + textScale;
      }
    }

    /** One row of dots: `textScale` identical scanlines. */
    method BlitDotRow(x0: nat, y0: nat, gy: nat, ghost top: nat, glyph: Glyph, fg: Color, bg: Color)
      requires Shaped() && x0 < width && y0 < height && gy < CHAR_HEIGHT && top == gy * textScale
      modifies back
      ensures forall x: nat, y: nat :: x < width && y < height ==>
                At(back, pitch, height, x, y) ==
                if x0 <= x < x0 + CHAR_WIDTH * textScale && top <= y - y0 < top + textScale
                   && y < y0 + CHAR_HEIGHT * textScale
                then GlyphColor(glyph, textScale, x - x0, y - y0, fg, bg) else old(At(back, pitch, height, x, y))
    {
      hide Lit, Dot, DotColor, At;
      MulStep(gy, CHAR_HEIGHT, textScale);
      for sy := 0 to textScale
        invariant forall x: nat, y: nat :: x < width && y < height ==>
                    At(back, pitch, height, x, y) ==
                    if x0 <= x < x0 + CHAR_WIDTH * textScale && y0 + top <= y < y0 + top + sy
                    then DotColor(glyph[gy], textScale, x - x0, fg, bg) else old(At(back, pitch, height, x, y))
      {
        var py := SatAdd(SatAdd(y0, Min(gy * textScale, U32_MAX)), sy);
        if py >= height { break; }
        BlitScanline(x0, py, glyph[gy], fg, bg);
      }
      forall d: nat | top <= d < top + textScale
        ensures Dot(d, textScale) == gy
      {
        DotIs(gy, d, textScale);
      }
    }

    /** One scanline of a scaled glyph: each dot repeated `textScale` times. */
    method BlitScanline(x0: nat, py: nat, bits: bv8, fg: Color, bg: Color)
      requires Shaped() && x0 < width && py < height
      modifies back
      ensures forall x: nat, y: nat :: x < width && y < height ==>
                At(back, pitch, height, x, y) ==
                if x0 <= x < x0 + CHAR_WIDTH * textScale && y == py
                then DotColor(bits, textScale, x - x0, fg, bg) else old(At(back, pitch, height, x, y))
    {
      hide Lit, Dot, At;
      ghost var left := 0;
      for gx := 0 to CHAR_WIDTH
        invariant left == gx * textScale
        invariant forall x: nat, y: nat :: x < width && y < height ==>
                    At(back, pitch, height, x, y) ==
                    if x0 <= x < x0 + left && x < x0 + CHAR_WIDTH * textScale && y == py
                    then DotColor(bits, textScale, x - x0, fg, bg) else old(At(back, pitch, height, x, y))
      {
        BlitDot(SatAdd(x0, Min(gx * textScale, U32_MAX)), py, if Lit(bits, gx) then fg else bg);
        forall d: nat | left <= d < left + textScale
          ensures Dot(d, textScale) == gx
        {
          DotIs(gx, d, textScale);
        }
        MulStep(gx, CHAR_WIDTH, textScale);
        left := left + textScale;
      }
    }

    /** `textScale` equal pixels, cut at the right edge. */
    method BlitDot(px0: nat, py: nat, color: Color)
      requires Shaped() && py < height
      modifies back
      ensures forall x: nat, y: nat :: x < width && y < height ==>
                At(back, pitch, height, x, y) ==
                if px0 <= x < px0 + textScale && y == py then color else old(At(back, pitch, height, x, y))
    {
      hide At;
      for sx := 0 to textScale
        invariant forall x: nat, y: nat :: x < width && y < height ==>
                    At(back, pitch, height, x, y) ==
                    if px0 <= x < px0 + sx && y == py then color else old(At(back, pitch, height, x, y))
      {
        var px := SatAdd(px0, sx);
        if px >= width { break; }
        Store(back, pitch, height, px, py, color);
      }
    }

    /** `scroll_up_bounded` */
    method ScrollUp(maxY: nat, n: nat, c: Color)
      requires Valid() && (n < maxY ==> n <= height)
      modifies this`dirty, this`direct, back
      ensures Valid()
      ensures direct == if n == 0 || n >= maxY then old(direct) else Scrolled(old(direct), Min(maxY, height), n, c)
    {
      hide At;
      if n == 0 || n >= maxY { return; }
      var yLim := Min(maxY, height);
      ScrollLines(yLim, n, c);
      direct := Scrolled(direct, yLim, n, c);
    }

    /** The buffer work of `scroll_up_bounded`. */
    method ScrollLines(yLim: nat, n: nat, c: Color)
      requires Shaped() && n <= yLim <= height
      modifies this`dirty, back
      ensures Shaped()
      ensures forall x: nat, y: nat {:trigger At(back, pitch, height, x, y)} :: x < width && y < height ==>
                At(back, pitch, height, x, y) ==
                if y + n < yLim then old(At(back, pitch, height, x, y + n))
                else if y < yLim then c else old(At(back, pitch, height, x, y))
      ensures forall px: nat, py: nat :: old(dirty).Has(px, py) ==> dirty.Has(px, py)
      ensures forall px: nat, py: nat :: px < width && py < yLim ==> dirty.Has(px, py)
    {
      hide At;
      MoveLines(n, yLim - n);
      FillAndMark(0, yLim - n, width, n, c);
      MarkDirty(0, 0, width, yLim);
    }

    /** `copy_within` over whole lines, towards the top. */
    method MoveLines(n: nat, count: nat)
      requires Shaped() && n + count <= height
      modifies back
      ensures forall x: nat, y: nat {:trigger At(back, pitch, height, x, y)} :: x < pitch && y < height ==>
                At(back, pitch, height, x, y) ==
                if y < count then old(At(back, pitch, height, x, y + n)) else old(At(back, pitch, height, x, y))
    {
      LinesFit(n, count, height, pitch);
      ghost var was := back[..];
      CopyDown(back, n * pitch, count * pitch);
      forall x: nat, y: nat | x < pitch && y < height
        ensures At(back, pitch, height, x, y) ==
                if y < count then old(At(back, pitch, height, x, y + n)) else old(At(back, pitch, height, x, y))
      {
        PixelMoved(was, back[..], pitch, height, n, count, n * pitch, count * pitch, x, y);
      }
    }

    /** Copies a rectangle between buffers, row by row. */
    method CopyRect(src: array<Color>, dst: array<Color>, r: Rect)
      requires src != dst && src.Length == dst.Length == pitch * height
      requires width <= pitch && r.any && r.x0 <= r.x1 <= width && r.y1 <= height
      modifies dst
      ensures forall x: nat, y: nat :: x < width && y < height ==>
                At(dst, pitch, height, x, y) ==
                if r.Has(x, y) then At(src, pitch, height, x, y) else old(At(dst, pitch, height, x, y))
    {
      hide At;
      var y := r.y0;
      while y < r.y1
        invariant r.y0 <= y
        invariant forall px: nat, py: nat :: px < pitch && py < height ==>
                    At(dst, pitch, height, px, py) ==
                    if r.Has(px, py) && py < y then At(src, pitch, height, px, py)
                    else old(At(dst, pitch, height, px, py))
      {
        CopyRow(src, dst, r.x0, r.x1, y);
        y := y + 1;
      }
    }

    method CopyRow(src: array<Color>, dst: array<Color>, x0: nat, x1: nat, y: nat)
      requires src != dst && src.Length == dst.Length == pitch * height && width <= pitch
      requires x0 <= x1 <= width && y < height
      modifies dst
      ensures forall px: nat, py: nat :: px < pitch && py < height ==>
                At(dst, pitch, height, px, py) ==
                if x0 <= px < x1 && py == y then At(src, pitch, height, px, py)
                else old(At(dst, pitch, height, px, py))
    {
      for x := x0 to x1
        invariant forall px: nat, py: nat :: px < pitch && py < height ==>
                    At(dst, pitch, height, px, py) ==
                    if x0 <= px < x && py == y then At(src, pitch, height, px, py)
                    else old(At(dst, pitch, height, px, py))
      {
        IdxBound(pitch, height, x, y);
        Store(dst, pitch, height, x, y, src[Idx(pitch, x, y)]);
      }
    }

    /**
     `commit`. The buffers trade places and the dirty part is copied back. A frame that was
     committed but not yet presented is forgotten unless the new dirty rectangle covers it.
     */
    method Commit()
      requires Valid()
      modifies this, back, present
      ensures Valid() && direct == old(direct) && front == old(front)
      ensures {back, present} == old({back, present})
      ensures !dirty.any && frameReady == (old(frameReady) || old(dirty.any))
      ensures Shows(present, direct)
      ensures readyDirty == if old(dirty.any) then old(dirty) else old(readyDirty)
      ensures old(Synced()) && (old(frameReady && dirty.any) ==> old(Covers(dirty, readyDirty))) ==> Synced()
    {
      hide At;
      if !dirty.any && !frameReady { return; }
      if dirty.any {
        readyDirty := dirty;
        dirty := CLEAN;
        back, present := present, back;
        CopyRect(present, back, readyDirty);
        frameReady := true;
      }
    }

    /** Between frames: no frame is in flight and the scanout shows the last one. */
    ghost predicate Ready(scanout: array<Color>, width: nat, height: nat, textScale: Scale)
      reads this, front, back, present
    {
      && Valid() && !frameReady && Synced()
      && front == scanout && this.width == width && this.height == height && this.textScale == textScale
    }

    /** One operation of a session; a frame is a commit followed by its present. */
    method Apply(ghost scanout: array<Color>, op: Op)
      requires Ready(scanout, width, height, textScale) && Defined(op, height)
      modifies this, front, back, present
      ensures Ready(scanout, width, height, textScale) && {back, present} == old({back, present})
      ensures direct == Draw(old(direct), op, textScale, height)
      ensures op.Frame? ==> Shows(front, direct)
      ensures !op.Frame? ==> forall x: nat, y: nat :: x < width && y < height ==>
                At(front, pitch, height, x, y) == old(At(front, pitch, height, x, y))
    {
      hide At;
      match op
      case Put(x, y, c) => PutPixel(x, y, c);
      case Fill(x, y, w, h, c) => FillRect(x, y, w, h, c);
      case Letter(x, y, glyph, fg, bg) => BlitChar(x, y, glyph, fg, bg);
      case Scroll(maxY, n, c) => ScrollUp(maxY, n, c);
      case Frame =>
        Commit();
        Present();
    }

    /**
     A commit followed by its present brings the scanout up to date exactly when every pixel of
     a frame still in flight that the new dirty rectangle misses is already on the scanout.
     */
    method Flush()
      requires Valid() && Synced()
      modifies this, front, back, present
      ensures Valid() && direct == old(direct)
      ensures front == old(front) && {back, present} == old({back, present})
      ensures Shows(front, direct) <==>
              old(frameReady && dirty.any ==>
                    forall x: nat, y: nat :: x < width && y < height && readyDirty.Has(x, y) && !dirty.Has(x, y) ==>
                      At(front, pitch, height, x, y) == direct(x, y))
    {
      hide At;
      Commit();
      Present();
    }

    /** `present`, with the memory-mapped scanout. */
    method Present()
      requires Valid()
      modifies this`frameReady, this`readyDirty, front
      ensures Valid() && !frameReady
      ensures old(Synced()) ==> Agree(front, present, CLEAN)
      ensures forall x: nat, y: nat :: x < width && y < height ==>
                At(front, pitch, height, x, y) ==
                if old(frameReady && readyDirty.Has(x, y)) then At(present, pitch, height, x, y)
                else old(At(front, pitch, height, x, y))
    {
      hide At;
      if !frameReady { return; }
      CopyRect(present, front, readyDirty);
      frameReady := false;
      readyDirty := CLEAN;
    }
  }

  predicate Covers(outer: Rect, inner: Rect) {
    inner.any ==> outer.any && outer.x0 <= inner.x0 && inner.x1 <= outer.x1
                  && outer.y0 <= inner.y0 && inner.y1 <= outer.y1
  }

  lemma LinesFit(n: nat, count: nat, height: nat, pitch: nat)
    requires n + count <= height
    ensures n * pitch + count * pitch <= pitch * height
  {
    assert n * pitch + count * pitch == (n + count) * pitch;
    MulStep(n + count, height, pitch);
  }

  /** `copy_within(src..src + len, 0)` */
  method CopyDown(a: array<Color>, src: nat, len: nat)
    requires src + len <= a.Length
    modifies a
    ensures forall o {:trigger a[o]} :: 0 <= o < a.Length ==> a[o] == if o < len then old(a[o + src]) else old(a[o])
  {
    forall o | 0 <= o < len {
      a[o] := a[o + src];
    }
  }

  lemma PixelMoved(was: seq<Color>, now: seq<Color>, pitch: nat, height: nat, n: nat, count: nat, src: nat, len: nat,
                   x: nat, y: nat)
    requires |was| == |now| == pitch * height && n + count <= height && x < pitch && y < height
    requires src == n * pitch && len == count * pitch && src + len <= |was|
    requires forall o {:trigger now[o]} :: 0 <= o < |now| ==> now[o] == if o < len then was[o + src] else was[o]
    ensures Idx(pitch, x, y) < pitch * height
    ensures y < count ==> Idx(pitch, x, y + n) < pitch * height && now[Idx(pitch, x, y)] == was[Idx(pitch, x, y + n)]
    ensures y >= count ==> now[Idx(pitch, x, y)] == was[Idx(pitch, x, y)]
  {
    IdxBound(pitch, height, x, y);
    if y < count {
      IdxBound(pitch, count, x, y);
      IdxDown(pitch, x, y, n);
    } else {
      MulStep(count, y, pitch);
      assert len <= Idx(pitch, x, y);
    }
  }

  lemma IdxDown(pitch: nat, x: nat, y: nat, n: nat)
    ensures Idx(pitch, x, y + n) == Idx(pitch, x, y) + n * pitch
  {
    assert (y + n) * pitch == y * pitch + n * pitch;
  }

  // ---------------------------------------------------------------------------
  // Whole sessions
  // ---------------------------------------------------------------------------

  /**
   Any session of draws in which every commit is followed by its present shows on the scanout
   exactly what a single buffer would hold, as of the last completed frame.
   */
  method Session(scanout: array<Color>, width: nat, height: nat, pitch: nat, textScale: Scale, ops: seq<Op>)
    returns (fb: Fb)
    requires width <= pitch && width <= U32_MAX && height <= U32_MAX && scanout.Length == pitch * height
    requires forall op :: op in ops ==> Defined(op, height)
    modifies scanout
    ensures fb.Valid() && fb.front == scanout && fb.width == width && fb.height == height
    ensures fb.Shows(fb.front, Seen(ops, textScale, height))
    ensures fb.Shows(fb.back, Drawn(ops, textScale, height))
  {
    hide At;
    fb := Start(scanout, width, height, pitch, textScale);
    for i := 0 to |ops|
      invariant fb.Ready(scanout, width, height, textScale) && fresh(fb) && fresh(fb.back) && fresh(fb.present)
      invariant SameOn(fb.direct, Drawn(ops[..i], textScale, height), width, height)
      invariant fb.Shows(fb.front, Seen(ops[..i], textScale, height))
    {
      assert ops[..i + 1][..i] == ops[..i];
      DrawSame(fb.direct, Drawn(ops[..i], textScale, height), ops[i], textScale, width, height);
      fb.Apply(scanout, ops[i]);
    }
    assert ops[..|ops|] == ops;
  }

  /** Two pictures look the same on a screen. */
  ghost predicate SameOn(p: Picture, q: Picture, width: nat, height: nat) {
    forall x: nat, y: nat :: x < width && y < height ==> p(x, y) == q(x, y)
  }

  lemma DrawSame(p: Picture, q: Picture, op: Op, scale: Scale, width: nat, height: nat)
    requires SameOn(p, q, width, height) && Defined(op, height)
    ensures SameOn(Draw(p, op, scale, height), Draw(q, op, scale, height), width, height)
  {
    hide GlyphColor;
    match op
    case Put(x, y, c) =>
    case Fill(x, y, w, h, c) =>
    case Letter(x, y, glyph, fg, bg) =>
    case Scroll(maxY, n, c) =>
      var p', q' := Draw(p, op, scale, height), Draw(q, op, scale, height);
      forall x: nat, y: nat | x < width && y < height ensures p'(x, y) == q'(x, y) {
        if n < maxY && y + n < Min(maxY, height) {
          assert p(x, y + n) == q(x, y + n);
        }
      }
    case Frame =>
  }

  /** `fb::init`: the first clear and its frame take over the whole scanout. */
  method Start(scanout: array<Color>, width: nat, height: nat, pitch: nat, textScale: Scale) returns (fb: Fb)
    requires width <= pitch && width <= U32_MAX && height <= U32_MAX && scanout.Length == pitch * height
    modifies scanout
    ensures fresh(fb) && fresh(fb.back) && fresh(fb.present)
    ensures fb.Ready(scanout, width, height, textScale)
    ensures fb.Shows(fb.front, Blank(BG)) && SameOn(fb.direct, Blank(BG), width, height)
  {
    hide At;
    fb := new Fb(scanout, width, height, pitch, textScale);
    fb.FillRect(0, 0, width, height, BG);
    ghost var d := fb.dirty;
    assert forall x: nat, y: nat :: x < width && y < height ==> d.Has(x, y);
    assert width > 0 && height > 0 ==> d.Has(0, 0);
    fb.Commit();
    assert width > 0 && height > 0 ==> fb.frameReady && fb.readyDirty == d;
    fb.Present();
    assert fb.Agree(fb.front, fb.present, CLEAN);
  }

  /**
   The failing case: after draw, commit, draw, commit, present the pixel of the first draw is not
   on the scanout, and no frame is due any more.
   */
  method TwoCommitsOnePresent(scanout: array<Color>) returns (fb: Fb)
    requires scanout.Length == 2
    modifies scanout
    ensures fb.Valid() && fb.front == scanout && fb.width == 2 && fb.height == 1 && !fb.frameReady && !fb.dirty.any
    ensures !fb.Shows(fb.front, fb.direct)
    ensures fb.direct(0, 0) == fb.direct(1, 0) == BG + 1
    ensures At(scanout, 2, 1, 0, 0) == BG && At(scanout, 2, 1, 1, 0) == BG + 1
  {
    hide At;
    fb := TwoCommits(scanout);
    assert At(fb.present, 2, 1, 1, 0) == BG + 1;
    fb.Present();
    assert At(fb.front, 2, 1, 0, 0) == BG && At(fb.front, 2, 1, 1, 0) == BG + 1;
  }

  /** Two pixels drawn and committed one after the other; only the second is due for the scanout. */
  method TwoCommits(scanout: array<Color>) returns (fb: Fb)
    requires scanout.Length == 2
    modifies scanout
    ensures fresh(fb) && fresh(fb.back) && fresh(fb.present) && fb.front == scanout
    ensures fb.Valid() && fb.width == 2 && fb.height == 1 && fb.pitch == 2 && !fb.dirty.any
    ensures fb.direct(0, 0) == fb.direct(1, 0) == BG + 1 && fb.Shows(fb.present, fb.direct)
    ensures fb.frameReady && fb.readyDirty == Rect(true, 1, 0, 2, 1)
    ensures At(fb.front, 2, 1, 0, 0) == BG
  {
    hide At;
    fb := OneCommit(scanout);
    fb.PutPixel(1, 0, BG + 1);
    fb.Commit();
  }

  /** A pixel drawn and committed, and not presented. */
  method OneCommit(scanout: array<Color>) returns (fb: Fb)
    requires scanout.Length == 2
    modifies scanout
    ensures fresh(fb) && fresh(fb.back) && fresh(fb.present) && fb.front == scanout
    ensures fb.Valid() && fb.width == 2 && fb.height == 1 && fb.pitch == 2
    ensures !fb.dirty.any && fb.direct(0, 0) == BG + 1
    ensures At(fb.front, 2, 1, 0, 0) == BG
  {
    hide At;
    fb := Start(scanout, 2, 1, 2, 1);
    fb.PutPixel(0, 0, BG + 1);
    fb.Commit();
  }
}
