/** Rounded rectangles: span fills where the shape is straight, coverage from the signed distance at the
    corners. Coordinates are in 1/256 pixel (kernel/gfx.c:40-80, kernel/gfx.c:242-336). */
module RoundRect {
  import opened Root

  type Color = c: int | 0 <= c < 0x1_0000_0000

  function Max(a: int, b: int): int {
    if a < b then b else a
  }

  function Min(a: int, b: int): int {
    if a < b then a else b
  }

  function Clamp(v: int, lo: int, hi: int): int {
    if v < lo then lo else if v > hi then hi else v
  }

  function Abs(x: int): nat {
    if x < 0 then -x else x
  }

  // ---------------------------------------------------------------- colours

  function Alpha(c: Color): nat { c / 0x100_0000 }
  function Red(c: Color): nat { c / 0x1_0000 % 256 }
  function Green(c: Color): nat { c / 256 % 256 }
  function Blue(c: Color): nat { c % 256 }

  function Opaque(r: nat, g: nat, b: nat): Color
    requires r < 256 && g < 256 && b < 256
  {
    0xFF00_0000 + r * 0x1_0000 + g * 256 + b
  }

  /** The division by 255 that `blend` does with shifts. */
  function Scale(x: nat): nat {
    (x + 128 + (x + 128) / 256) / 256
  }

  /** It rounds to the nearest. */
  lemma ScaleRounds(x: nat)
    requires x <= 65025
    ensures Scale(x) == (x + 127) / 255 && Scale(x) <= 255
  {
    var k, m := (x + 128) / 256, (x + 128) % 256;
    assert x + 128 == 256 * k + m && k <= 254;
    assert Scale(x) == k + (k + m) / 256;
    assert x + 127 == 255 * k + (k + m - 1);
  }

  /** A weighted sum of two channels. */
  function Weigh(s: nat, d: nat, a: nat): nat
    requires a <= 255
  {
    s * a + d * (255 - a)
  }

  lemma WeighBound(s: nat, d: nat, a: nat)
    requires s <= 255 && d <= 255 && a <= 255
    ensures Weigh(s, d, a) <= 65025
  {
    assert s * a <= 255 * a;
    assert d * (255 - a) <= 255 * (255 - a);
  }

  /** `blend`: `src` over `dst` with opacity `a`. */
  function Blend(dst: Color, src: Color, a: nat): Color {
    if a == 0 then dst
    else if a >= 255 then 0xFF00_0000 + src % 0x100_0000
    else
      WeighBound(Red(src), Red(dst), a);
      WeighBound(Green(src), Green(dst), a);
      WeighBound(Blue(src), Blue(dst), a);
      ScaleRounds(Weigh(Red(src), Red(dst), a));
      ScaleRounds(Weigh(Green(src), Green(dst), a));
      ScaleRounds(Weigh(Blue(src), Blue(dst), a));
      Opaque(Scale(Weigh(Red(src), Red(dst), a)), Scale(Weigh(Green(src), Green(dst), a)),
        Scale(Weigh(Blue(src), Blue(dst), a)))
  }

  lemma Channels(r: nat, g: nat, b: nat)
    requires r < 256 && g < 256 && b < 256
    ensures var c := Opaque(r, g, b); Alpha(c) == 255 && Red(c) == r && Green(c) == g && Blue(c) == b
  {
  }

  /** Every channel of a blend is the rounded average of the two colours' channels, at both ends too. */
  lemma BlendAverages(dst: Color, src: Color, a: nat)
    requires a <= 255 && Alpha(dst) == 255
    ensures var c := Blend(dst, src, a);
      && Alpha(c) == 255
      && Red(c) == (Weigh(Red(src), Red(dst), a) + 127) / 255
      && Green(c) == (Weigh(Green(src), Green(dst), a) + 127) / 255
      && Blue(c) == (Weigh(Blue(src), Blue(dst), a) + 127) / 255
  {
    if a == 0 {
      NoWeight(Red(src), Red(dst));
      NoWeight(Green(src), Green(dst));
      NoWeight(Blue(src), Blue(dst));
    } else if a == 255 {
      NoWeight(Red(dst), Red(src));
      NoWeight(Green(dst), Green(src));
      NoWeight(Blue(dst), Blue(src));
      Channels(Red(src), Green(src), Blue(src));
      assert Blend(dst, src, 255) == Opaque(Red(src), Green(src), Blue(src)) by {
        Rest(src);
      }
    } else {
      var r, g, b := Weigh(Red(src), Red(dst), a), Weigh(Green(src), Green(dst), a), Weigh(Blue(src), Blue(dst), a);
      assert r <= 65025 && g <= 65025 && b <= 65025 by {
        WeighBound(Red(src), Red(dst), a);
        WeighBound(Green(src), Green(dst), a);
        WeighBound(Blue(src), Blue(dst), a);
      }
      ScaledChannels(r, g, b);
    }
  }

  lemma ScaledChannels(r: nat, g: nat, b: nat)
    requires r <= 65025 && g <= 65025 && b <= 65025
    ensures Scale(r) < 256 && Scale(g) < 256 && Scale(b) < 256
    ensures var c := Opaque(Scale(r), Scale(g), Scale(b));
      Alpha(c) == 255 && Red(c) == (r + 127) / 255 && Green(c) == (g + 127) / 255 && Blue(c) == (b + 127) / 255
  {
    ScaleRounds(r);
    ScaleRounds(g);
    ScaleRounds(b);
    Channels(Scale(r), Scale(g), Scale(b));
  }

  lemma NoWeight(s: nat, d: nat)
    requires s <= 255 && d <= 255
    ensures (Weigh(s, d, 0) + 127) / 255 == d && (Weigh(d, s, 255) + 127) / 255 == d
  {
    assert Weigh(s, d, 0) == 255 * d && Weigh(d, s, 255) == 255 * d;
  }

  lemma Rest(c: Color)
    ensures c % 0x100_0000 == Red(c) * 0x1_0000 + Green(c) * 256 + Blue(c)
  {
    var a, r := Alpha(c), Red(c) * 0x1_0000 + Green(c) * 256 + Blue(c);
    assert c / 256 == c / 0x1_0000 * 256 + Green(c) && c / 0x1_0000 == a * 256 + Red(c);
    assert c == a * 0x100_0000 + r && 0 <= r < 0x100_0000;
  }

  /** One channel of `lerp_color`. */
  function Between(a: nat, b: nat, t: nat): (r: nat)
    requires a <= 255 && b <= 255 && t <= 255
    ensures r <= 255
  {
    WeighBound(b, a, t);
    Weigh(b, a, t) / 255
  }

  function Lerp(a: Color, b: Color, t: nat): Color
    requires t <= 255
  {
    Between(Alpha(a), Alpha(b), t) * 0x100_0000 + Between(Red(a), Red(b), t) * 0x1_0000 +
    Between(Green(a), Green(b), t) * 256 + Between(Blue(a), Blue(b), t)
  }

  // ---------------------------------------------------------------- geometry

  /** The signed distance of a point from the boundary of a rounded rectangle, negative inside. `rr_distance`
      is this with `guarded`: past 40 pixels it takes the longer leg for the hypotenuse. */
  function Distance(guarded: bool, px: int, py: int, cx: int, cy: int, hw: int, hh: int, r: int): int {
    Beyond(guarded, Abs(px - cx) - (hw - r), Abs(py - cy) - (hh - r)) - r
  }

  /** How far a point lies outside the inner rectangle, along each axis `qx` and `qy`. */
  function Beyond(guarded: bool, qx: int, qy: int): int {
    if qx <= 0 && qy <= 0 then Max(qx, qy) else Corner(guarded, Max(qx, 0), Max(qy, 0))
  }

  function Corner(guarded: bool, mx: nat, my: nat): nat {
    if guarded && (mx > 10240 || my > 10240) then Max(mx, my) else Sqrt(mx * mx + my * my)
  }

  /** Straight out from an edge the distance is exact. */
  lemma CornerStraight(guarded: bool, m: nat)
    ensures Corner(guarded, m, 0) == m && Corner(guarded, 0, m) == m
  {
    SqrtSquare(m);
    assert m * m + 0 * 0 == m * m && 0 * 0 + m * m == m * m;
  }

  /** The rectangle as drawn, its radius cut down to what fits. */
  datatype Shape = Shape(ax: int, ay: int, w: int, h: int, radius: int) {
    predicate Valid() {
      0 < w && 0 < h && 0 <= radius && 2 * radius <= w && 2 * radius <= h
    }

    predicate Has(px: int, py: int) {
      ax <= px < ax + w && ay <= py < ay + h
    }
  }

  function FitRadius(w: int, h: int, radius: int): int
    requires 0 < w && 0 < h
  {
    var a := if radius * 2 > w then w / 2 else radius;
    var b := if a * 2 > h then h / 2 else a;
    if b < 0 then 0 else b
  }

  /** How much of a pixel the shape covers, from the distance of its centre. */
  function Coverage(guarded: bool, s: Shape, px: int, py: int): (c: nat)
    ensures c <= 255
  {
    Clamp(128 - Distance(guarded, px * 256 + 128, py * 256 + 128, s.ax * 256 + s.w * 128, s.ay * 256 + s.h * 128,
                         s.w * 128, s.h * 128, s.radius * 256), 0, 255)
  }

  /** A coordinate between two edges: how far it reaches past the straight part. */
  lemma Reach(a: int, n: int, radius: int, p: int)
    requires 0 < n && 0 <= radius && 2 * radius <= n && a <= p < a + n
    ensures var q := Abs(p * 256 + 128 - (a * 256 + n * 128)) - (n * 128 - radius * 256);
      q <= radius * 256 - 128 && (a + radius <= p < a + n - radius ==> q <= -128)
  {
  }

  lemma BeyondStraight(guarded: bool, qx: int, qy: int, r: int)
    requires (r == 0 || r >= 256) && qx <= r - 128 && qy <= r - 128 && (qx <= -128 || qy <= -128)
    ensures Beyond(guarded, qx, qy) - r <= -128
  {
    CornerStraight(guarded, Max(qx, 0));
    CornerStraight(guarded, Max(qy, 0));
  }

  /** Where the shape is straight every pixel is fully covered. */
  lemma StraightCovered(guarded: bool, s: Shape, px: int, py: int)
    requires s.Valid() && s.Has(px, py)
    requires s.ay + s.radius <= py < s.ay + s.h - s.radius || s.ax + s.radius <= px < s.ax + s.w - s.radius
    ensures Coverage(guarded, s, px, py) == 255
  {
    Reach(s.ax, s.w, s.radius, px);
    Reach(s.ay, s.h, s.radius, py);
    BeyondStraight(guarded, Abs(px * 256 + 128 - (s.ax * 256 + s.w * 128)) - (s.w * 128 - s.radius * 256),
                   Abs(py * 256 + 128 - (s.ay * 256 + s.h * 128)) - (s.h * 128 - s.radius * 256), s.radius * 256);
  }

  /** On the pixels of a shape whose radius is at most 40 the guard never acts. */
  lemma GuardIdle(s: Shape, px: int, py: int)
    requires s.Valid() && s.Has(px, py) && s.radius <= 40
    ensures Coverage(true, s, px, py) == Coverage(false, s, px, py)
  {
    Reach(s.ax, s.w, s.radius, px);
    Reach(s.ay, s.h, s.radius, py);
  }

  /** A circle of a larger radius: the corner pixel of its square lies well outside it, and the guarded
      distance calls it covered. */
  lemma GuardWrong(r: int)
    requires r > 40
    ensures var s := Shape(0, 0, 2 * r, 2 * r, r);
      s.Valid() && s.Has(0, 0) && Coverage(true, s, 0, 0) == 255 && Coverage(false, s, 0, 0) == 0
  {
    var m: nat := 256 * r - 128;
    CircleCorner(true, r, m);
    CircleCorner(false, r, m);
    assert Corner(true, m, m) == m;
    assert Corner(false, m, m) >= m + 256 by {
      Hypotenuse(m);
    }
  }

  lemma CircleCorner(guarded: bool, r: int, m: nat)
    requires r > 0 && m == 256 * r - 128
    ensures Coverage(guarded, Shape(0, 0, 2 * r, 2 * r, r), 0, 0) ==
      Clamp(128 - (Corner(guarded, m, m) - 256 * r), 0, 255)
  {
    assert Abs(128 - 256 * r) == m;
  }

  lemma Hypotenuse(m: nat)
    requires m >= 10368
    ensures Sqrt(m * m + m * m) >= m + 256
  {
    var r := Sqrt(m * m + m * m);
    SqIs(m);
    SquareStep(m, 256);
    TimesIs(m, 256);
    SqIs(256);
    LargeSquare(m);
    if r + 1 <= m + 256 {
      if r + 1 < m + 256 {
        SqLess(r + 1, m + 256);
      }
    }
  }

  lemma LargeSquare(m: nat)
    requires m >= 10368
    ensures m * m >= 512 * m + 65536
  {
    var k := m - 10368;
    assert m * m == 10368 * m + k * m;
    assert k * m >= 0;
  }

  /** What is painted is what the signed distance asks for, on every pixel of every shape of a radius, exactly
      if the radius is at most 40. */
  lemma PaintExact(r: nat)
    ensures (forall s: Shape, px, py :: s.Valid() && s.radius == r && s.Has(px, py) ==>
               Coverage(true, s, px, py) == Coverage(false, s, px, py)) <==> r <= 40
  {
    if r <= 40 {
      forall s: Shape, px, py | s.Valid() && s.radius == r && s.Has(px, py)
        ensures Coverage(true, s, px, py) == Coverage(false, s, px, py)
      {
        GuardIdle(s, px, py);
      }
    } else {
      GuardWrong(r);
    }
  }

  /** The colour of a row, and the pixel that the distance formula asks for. */
  function RowColor(s: Shape, top: Color, bottom: Color, gradient: bool, py: int): Color
    requires s.Valid() && s.ay <= py < s.ay + s.h
  {
    if gradient then
      RowStep(py - s.ay, s.h - 1);
      Lerp(top, bottom, if s.h > 1 then (py - s.ay) * 255 / (s.h - 1) else 0)
    else top
  }

  lemma RowStep(i: nat, n: nat)
    requires i <= n
    ensures n > 0 ==> i * 255 / n <= 255
  {
    if n > 0 {
      var q := i * 255 / n;
      assert q * n <= i * 255 <= 255 * n;
      MulLess(q, n, 255);
    }
  }

  lemma MulLess(q: nat, n: nat, k: nat)
    requires 0 < n && q * n <= k * n
    ensures q <= k
  {
    assert (q - k) * n == q * n - k * n;
  }

  /** The opacity of a pixel covered by `cov` in a colour of opacity `alpha`. */
  function Faded(cov: nat, alpha: nat): (a: nat)
    ensures cov == 0 ==> a == 0
    ensures cov == 255 ==> a == alpha
  {
    assert cov * alpha >= 0;
    cov * alpha / 255
  }

  function Paint(guarded: bool, s: Shape, top: Color, bottom: Color, gradient: bool, px: int, py: int,
      dst: Color): Color
    requires s.Valid() && s.Has(px, py)
  {
    var color := RowColor(s, top, bottom, gradient, py);
    Blend(dst, color, Faded(Coverage(guarded, s, px, py), Alpha(color)))
  }

  // ---------------------------------------------------------------- drawing

  datatype Rect = Rect(x: int, y: int, w: int, h: int) {
    predicate Has(px: int, py: int) {
      x <= px < x + w && y <= py < y + h
    }
  }

  /** `rr_distance`, with the bitwise root. */
  method ComputeDistance(px: int, py: int, cx: int, cy: int, hw: int, hh: int, r: int) returns (d: int)
    ensures d == Distance(true, px, py, cx, cy, hw, hh, r)
  {
    var qx := Abs(px - cx) - (hw - r);
    var qy := Abs(py - cy) - (hh - r);
    if qx <= 0 && qy <= 0 {
      return Max(qx, qy) - r;
    }
    var mx, my := Max(qx, 0), Max(qy, 0);
    if mx > 10240 || my > 10240 {
      return Max(mx, my) - r;
    }
    SquaresFit(mx, my);
    var root := Isqrt(mx * mx + my * my);
    d := root - r;
  }

  lemma SquaresFit(mx: nat, my: nat)
    requires mx <= 10240 && my <= 10240
    ensures mx * mx + my * my < WORD
  {
    SquareBound(mx, 10241);
    SquareBound(my, 10241);
  }

  lemma SquareBound(m: nat, top: nat)
    requires m < top == 10241
    ensures m * m < 10241 * 10241
  {
    SqIs(m);
    SqIs(top);
    SqLess(m, top);
  }

  lemma FullAlpha(guarded: bool, s: Shape, top: Color, bottom: Color, gradient: bool, px: int, py: int, dst: Color)
    requires s.Valid() && s.Has(px, py)
    requires s.ay + s.radius <= py < s.ay + s.h - s.radius || s.ax + s.radius <= px < s.ax + s.w - s.radius
    ensures var color := RowColor(s, top, bottom, gradient, py);
      Blend(dst, color, Alpha(color)) == Paint(guarded, s, top, bottom, gradient, px, py, dst)
  {
    StraightCovered(guarded, s, px, py);
  }

  lemma PaintCovered(s: Shape, top: Color, bottom: Color, gradient: bool, px: int, py: int, dst: Color, cov: nat)
    requires s.Valid() && s.Has(px, py) && cov == Coverage(true, s, px, py)
    ensures var color := RowColor(s, top, bottom, gradient, py);
      && Paint(s.radius > 40, s, top, bottom, gradient, px, py, dst) == Blend(dst, color, Faded(cov, Alpha(color)))
      && (cov == 0 ==> Paint(s.radius > 40, s, top, bottom, gradient, px, py, dst) == dst)
  {
    if s.radius <= 40 {
      GuardIdle(s, px, py);
    }
  }

  /** One pixel: a plain blend where the shape is straight, the coverage elsewhere, nothing outside. */
  method PaintPixel(s: Shape, top: Color, bottom: Color, gradient: bool, px: int, py: int, dst: Color, color: Color,
      band: bool)
    returns (c: Color)
    requires s.Valid() && s.Has(px, py) && color == RowColor(s, top, bottom, gradient, py)
    requires band == (py < s.ay + s.radius || py >= s.ay + s.h - s.radius)
    ensures c == Paint(s.radius > 40, s, top, bottom, gradient, px, py, dst)
  {
    if !band || (px >= s.ax + s.radius && px < s.ax + s.w - s.radius) {
      FullAlpha(s.radius > 40, s, top, bottom, gradient, px, py, dst);
      return Blend(dst, color, Alpha(color));
    }
    var d := ComputeDistance(px * 256 + 128, py * 256 + 128, s.ax * 256 + s.w * 128, s.ay * 256 + s.h * 128, s.w * 128,
      s.h * 128, s.radius * 256);
    var cov := Clamp(128 - d, 0, 255);
    PaintCovered(s, top, bottom, gradient, px, py, dst, cov);
    if cov != 0 {
      c := Blend(dst, color, Faded(cov, Alpha(color)));
    } else {
      c := dst;
    }
  }

  /** One row of the shape, between two columns inside it. */
  method PaintRow(pixels: array2<Color>, s: Shape, top: Color, bottom: Color, gradient: bool, py: int, x0: int, x1: int)
    requires s.Valid() && s.ay <= py < s.ay + s.h && 0 <= py < pixels.Length0
    requires 0 <= x0 <= x1 <= pixels.Length1 && s.ax <= x0 && x1 <= s.ax + s.w
    modifies pixels
    ensures forall y, x :: 0 <= y < pixels.Length0 && 0 <= x < pixels.Length1 ==>
      pixels[y, x] == if y == py && x0 <= x < x1
        then Paint(s.radius > 40, s, top, bottom, gradient, x, y, old(pixels[y, x])) else old(pixels[y, x])
  {
    var color := RowColor(s, top, bottom, gradient, py);
    var band := py < s.ay + s.radius || py >= s.ay + s.h - s.radius;
    for px := x0 to x1
      invariant forall y, x :: 0 <= y < pixels.Length0 && 0 <= x < pixels.Length1 ==>
        pixels[y, x] == if y == py && x0 <= x < px
          then Paint(s.radius > 40, s, top, bottom, gradient, x, y, old(pixels[y, x])) else old(pixels[y, x])
    {
      var c := PaintPixel(s, top, bottom, gradient, px, py, pixels[py, px], color, band);
      pixels[py, px] := c;
    }
  }

  /** Coordinates small enough that none of the products of the source leaves 32 bits. */
  predicate Fine(ax: int, ay: int, w: int, h: int, radius: int) {
    && -0x40_0000 <= ax <= ax + w <= 0x40_0000 && -0x40_0000 <= ay <= ay + h <= 0x40_0000
    && -0x4000_0000 <= radius < 0x4000_0000
  }

  /** `round_rect_rows`: every pixel of the shape inside the clip is painted as the distance formula says,
      without the guard if the radius is at most 40, and no other pixel changes. */
  method RoundRectRows(pixels: array2<Color>, clip: Rect, ax: int, ay: int, w: int, h: int, radius: int, top: Color,
      bottom: Color, gradient: bool)
    requires 0 <= clip.x && 0 <= clip.y && clip.x + clip.w <= pixels.Length1 && clip.y + clip.h <= pixels.Length0
    requires w > 0 && h > 0 ==> Fine(ax, ay, w, h, radius)
    modifies pixels
    ensures w <= 0 || h <= 0 ==> forall y, x :: 0 <= y < pixels.Length0 && 0 <= x < pixels.Length1 ==>
      pixels[y, x] == old(pixels[y, x])
    ensures w > 0 && h > 0 ==>
      var s := Shape(ax, ay, w, h, FitRadius(w, h, radius));
      forall y, x :: 0 <= y < pixels.Length0 && 0 <= x < pixels.Length1 ==>
        pixels[y, x] == if clip.Has(x, y) && s.Has(x, y)
          then Paint(s.radius > 40, s, top, bottom, gradient, x, y, old(pixels[y, x])) else old(pixels[y, x])
  {
    if w <= 0 || h <= 0 {
      return;
    }
    var s := Shape(ax, ay, w, h, FitRadius(w, h, radius));
    var x0, y0 := Max(ax, clip.x), Max(ay, clip.y);
    var x1, y1 := Min(ax + w, clip.x + clip.w), Min(ay + h, clip.y + clip.h);
    if x0 >= x1 || y0 >= y1 {
      return;
    }
    for py := y0 to y1
      invariant forall y, x :: 0 <= y < pixels.Length0 && 0 <= x < pixels.Length1 ==>
        pixels[y, x] == if y0 <= y < py && x0 <= x < x1
          then Paint(s.radius > 40, s, top, bottom, gradient, x, y, old(pixels[y, x])) else old(pixels[y, x])
    {
      PaintRow(pixels, s, top, bottom, gradient, py, x0, x1);
    }
  }
}
