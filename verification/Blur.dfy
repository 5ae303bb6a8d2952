/** The sliding-window box blur (kernel/gfx.c:467-519). */
module Blur {
  import opened Quotient
  import opened Root
  import opened RoundRect

  const BLUR_MAX_SPAN: nat := 2048

  type Line = s: seq<Color> | |s| > 0 witness [0]

  datatype Channel = R | G | B

  function Part(c: Color, ch: Channel): (v: nat)
    ensures v <= 255
  {
    match ch
    case R => Red(c)
    case G => Green(c)
    case B => Blue(c)
  }

  /** The pixel at `i`, or the nearest one on the line. */
  function Tap(line: Line, i: int): Color {
    line[Clamp(i, 0, |line| - 1)]
  }

  /** One channel summed over the taps from `lo` to `hi`. */
  ghost function Window(line: Line, ch: Channel, lo: int, hi: int): nat
    decreases hi - lo
  {
    if hi <= lo then 0 else Window(line, ch, lo, hi - 1) + Part(Tap(line, hi - 1), ch)
  }

  lemma {:induction false} WindowFront(line: Line, ch: Channel, lo: int, hi: int)
    requires lo < hi
    ensures Window(line, ch, lo, hi) == Part(Tap(line, lo), ch) + Window(line, ch, lo + 1, hi)
    decreases hi - lo
  {
    if lo + 1 < hi {
      WindowFront(line, ch, lo, hi - 1);
    }
  }

  /** Moving the window by one: a pixel enters and a pixel leaves. */
  lemma Slide(line: Line, ch: Channel, lo: int, hi: int)
    requires lo < hi
    ensures Window(line, ch, lo + 1, hi + 1) + Part(Tap(line, lo), ch) ==
      Window(line, ch, lo, hi) + Part(Tap(line, hi), ch)
  {
    WindowFront(line, ch, lo, hi);
  }

  lemma {:induction false} WindowBound(line: Line, ch: Channel, lo: int, hi: int)
    requires lo <= hi
    ensures Window(line, ch, lo, hi) <= 255 * (hi - lo)
    decreases hi - lo
  {
    if lo < hi {
      WindowBound(line, ch, lo, hi - 1);
    }
  }

  /** The sum the blur is about: all taps within `r` of `i`. */
  ghost function Around(line: Line, ch: Channel, i: int, r: nat): nat {
    Window(line, ch, i - r, i + r + 1)
  }

  lemma {:induction false} QuotBound(x: nat, n: nat, k: nat)
    requires 0 < n
    ensures x <= Times(k, n) ==> Quot(x, n) <= k
    ensures x == Times(k, n) ==> Quot(x, n) == k
    ensures x < Times(k, n) ==> Quot(x, n) < k
  {
    if n <= x && k > 0 {
      QuotBound(x - n, n, k - 1);
    }
  }

  /** A quotient of at most 255. */
  lemma QuotByte(x: nat, n: nat, k: nat)
    requires 0 < n && k == 255
    ensures x <= 255 * n ==> Quot(x, n) <= 255
    ensures x == 255 * n ==> Quot(x, n) == 255
    ensures x < 255 * n ==> Quot(x, n) < 255
  {
    TimesIs(k, n);
    QuotBound(x, n, k);
  }

  /** A channel averaged, and as the code averages it, with its sum kept in 32 bits. */
  ghost function Average(line: Line, ch: Channel, i: int, r: nat): (v: nat)
    ensures v <= 255
  {
    WindowBound(line, ch, i - r, i + r + 1);
    QuotByte(Around(line, ch, i, r), 2 * r + 1, 255);
    Quot(Around(line, ch, i, r), 2 * r + 1)
  }

  ghost function Computed(line: Line, ch: Channel, i: int, r: nat): (v: nat)
    ensures v <= 255
  {
    WindowBound(line, ch, i - r, i + r + 1);
    QuotByte(Around(line, ch, i, r) % WORD, 2 * r + 1, 255);
    Quot(Around(line, ch, i, r) % WORD, 2 * r + 1)
  }

  /** What the blur is for: the average of the pixels within `r`, channel by channel. */
  ghost function Blurred(line: Line, i: int, r: nat): Color {
    Opaque(Average(line, R, i, r), Average(line, G, i, r), Average(line, B, i, r))
  }

  /** What the code writes. */
  ghost function Written(line: Line, i: int, r: nat): Color {
    Opaque(Computed(line, R, i, r), Computed(line, G, i, r), Computed(line, B, i, r))
  }

  lemma {:induction false} WindowWhite(line: Line, ch: Channel, lo: int, hi: int)
    requires line == [0xFFFF_FFFF] && lo <= hi
    ensures Window(line, ch, lo, hi) == 255 * (hi - lo)
    decreases hi - lo
  {
    if lo < hi {
      WindowWhite(line, ch, lo, hi - 1);
    }
  }

  lemma SumFits(line: Line, ch: Channel, i: int, r: nat)
    requires 255 * (2 * r + 1) < WORD
    ensures Computed(line, ch, i, r) == Average(line, ch, i, r)
  {
    WindowBound(line, ch, i - r, i + r + 1);
  }

  lemma SumsFit(line: Line, i: int, r: nat)
    requires 255 * (2 * r + 1) < WORD
    ensures Written(line, i, r) == Blurred(line, i, r)
  {
    SumFits(line, R, i, r);
    SumFits(line, G, i, r);
    SumFits(line, B, i, r);
  }

  lemma SumWraps(r: nat)
    requires 255 * (2 * r + 1) >= WORD
    ensures Computed([0xFFFF_FFFF], B, 0, r) < Average([0xFFFF_FFFF], B, 0, r)
  {
    var line: Line, n := [0xFFFF_FFFF], 2 * r + 1;
    WindowWhite(line, B, 0 - r, r + 1);
    QuotByte(255 * n, n, 255);
    QuotByte(255 * n % WORD, n, 255);
  }

  lemma SumsWrap(r: nat)
    requires 255 * (2 * r + 1) >= WORD
    ensures Written([0xFFFF_FFFF], 0, r) != Blurred([0xFFFF_FFFF], 0, r)
  {
    var line: Line := [0xFFFF_FFFF];
    SumWraps(r);
    Channels(Computed(line, R, 0, r), Computed(line, G, 0, r), Computed(line, B, 0, r));
    Channels(Average(line, R, 0, r), Average(line, G, 0, r), Average(line, B, 0, r));
  }

  /** The exact condition: the blur is the average, on every line, exactly if the largest sum fits in
      32 bits, that is for radii up to 8421503. */
  lemma BlurExact(r: nat)
    ensures (forall line: Line, i: int :: Written(line, i, r) == Blurred(line, i, r)) <==> 255 * (2 * r + 1) < WORD
  {
    if 255 * (2 * r + 1) < WORD {
      forall line: Line, i: int ensures Written(line, i, r) == Blurred(line, i, r) {
        SumsFit(line, i, r);
      }
    } else {
      SumsWrap(r);
    }
  }

  // ---------------------------------------------------------------- the passes

  /** Three running sums, as the code keeps them. */
  datatype Sums = Sums(r: nat, g: nat, b: nat)

  /** The 32-bit sums around `i`. */
  ghost predicate SumsAt(s: Sums, line: Line, i: int, r: nat) {
    s.r == Around(line, R, i, r) % WORD && s.g == Around(line, G, i, r) % WORD && s.b == Around(line, B, i, r) % WORD
  }

  /** A sum with one value added and another taken away, in unsigned 32-bit arithmetic. */
  function Shifted(s: nat, enters: nat, leaves: nat): nat
    requires leaves <= 255
  {
    (s + enters + WORD - leaves) % WORD
  }

  lemma ShiftedWraps(a: nat, enters: nat, leaves: nat, b: nat)
    requires leaves <= 255 && b + leaves == a + enters
    ensures Shifted(a % WORD, enters, leaves) == b % WORD
  {
  }

  lemma ShiftedSum(line: Line, ch: Channel, i: int, r: nat, s: nat)
    requires s == Around(line, ch, i, r) % WORD
    ensures Shifted(s, Part(Tap(line, i + r + 1), ch), Part(Tap(line, i - r), ch)) == Around(line, ch, i + 1, r) % WORD
  {
    Slide(line, ch, i - r, i + r + 1);
    ShiftedWraps(Around(line, ch, i, r), Part(Tap(line, i + r + 1), ch), Part(Tap(line, i - r), ch),
      Around(line, ch, i + 1, r));
  }

  /** The first window. */
  method FirstSums(buf: array<Color>, n: nat, r: nat) returns (s: Sums)
    requires 0 < n <= buf.Length
    ensures SumsAt(s, buf[..n], 0, r)
  {
    s := Sums(0, 0, 0);
    ghost var line: Line := buf[..n];
    for i: int := 0 - (r as int) to r + 1
      invariant s.r == Window(line, R, 0 - r, i) % WORD
      invariant s.g == Window(line, G, 0 - r, i) % WORD
      invariant s.b == Window(line, B, 0 - r, i) % WORD
    {
      var c := buf[Clamp(i, 0, n - 1)];
      assert c == Tap(line, i);
      AddWraps(Window(line, R, 0 - r, i), Red(c));
      AddWraps(Window(line, G, 0 - r, i), Green(c));
      AddWraps(Window(line, B, 0 - r, i), Blue(c));
      s := Sums((s.r + Red(c)) % WORD, (s.g + Green(c)) % WORD, (s.b + Blue(c)) % WORD);
    }
  }

  lemma AddWraps(a: nat, v: nat)
    ensures (a % WORD + v) % WORD == (a + v) % WORD
  {
  }

  /** One channel of the pixel written. */
  method Divide(sum: nat, ghost line: Line, ghost ch: Channel, ghost i: int, r: nat) returns (v: nat)
    requires sum == Around(line, ch, i, r) % WORD
    ensures v == Computed(line, ch, i, r)
  {
    var window := r * 2 + 1;
    QuotIsDiv(sum, window);
    v := sum / window;
  }

  /** The pixel written from the sums. */
  method Emit(s: Sums, ghost line: Line, ghost i: int, r: nat) returns (c: Color)
    requires SumsAt(s, line, i, r)
    ensures c == Written(line, i, r)
  {
    var red := Divide(s.r, line, R, i, r);
    var green := Divide(s.g, line, G, i, r);
    var blue := Divide(s.b, line, B, i, r);
    c := Opaque(red, green, blue);
  }

  /** The window moves on. */
  method Advance(s: Sums, buf: array<Color>, n: nat, i: nat, r: nat) returns (t: Sums)
    requires 0 < n <= buf.Length && SumsAt(s, buf[..n], i, r)
    ensures SumsAt(t, buf[..n], i + 1, r)
  {
    ghost var line: Line := buf[..n];
    var leaves := buf[Clamp(i - r, 0, n - 1)];
    var enters := buf[Clamp(i + r + 1, 0, n - 1)];
    assert leaves == Tap(line, i - r) && enters == Tap(line, i + r + 1);
    ShiftedSum(line, R, i, r, s.r);
    ShiftedSum(line, G, i, r, s.g);
    ShiftedSum(line, B, i, r, s.b);
    t := Sums(Shifted(s.r, Red(enters), Red(leaves)), Shifted(s.g, Green(enters), Green(leaves)),
      Shifted(s.b, Blue(enters), Blue(leaves)));
  }

  ghost function RowOf(pixels: array2<Color>, y: nat, x: nat, n: nat): (line: Line)
    reads pixels
    requires 0 < n && y < pixels.Length0 && x + n <= pixels.Length1
    ensures |line| == n && forall i :: 0 <= i < n ==> line[i] == pixels[y, x + i]
  {
    seq(n, i requires 0 <= i < n reads pixels => pixels[y, x + i])
  }

  ghost function ColumnOf(pixels: array2<Color>, y: nat, x: nat, n: nat): (line: Line)
    reads pixels
    requires 0 < n && y + n <= pixels.Length0 && x < pixels.Length1
    ensures |line| == n && forall i :: 0 <= i < n ==> line[i] == pixels[y + i, x]
  {
    seq(n, i requires 0 <= i < n reads pixels => pixels[y + i, x])
  }

  /** One row, blurred in place; `buf` is the copy the sums are taken from. */
  method BlurRow(pixels: array2<Color>, buf: array<Color>, y: nat, x: nat, w: nat, r: nat)
    requires 0 < w <= buf.Length && y < pixels.Length0 && x + w <= pixels.Length1 && 1 <= r
    modifies pixels, buf
    ensures forall py, px :: 0 <= py < pixels.Length0 && 0 <= px < pixels.Length1 ==>
      pixels[py, px] == if py == y && x <= px < x + w then Written(old(RowOf(pixels, y, x, w)), px - x, r)
        else old(pixels[py, px])
  {
    ghost var line := RowOf(pixels, y, x, w);
    for i := 0 to w
      invariant forall j :: 0 <= j < i ==> buf[j] == line[j]
      invariant forall py, px :: 0 <= py < pixels.Length0 && 0 <= px < pixels.Length1 ==>
        pixels[py, px] == old(pixels[py, px])
    {
      buf[i] := pixels[y, x + i];
    }
    assert buf[..w] == line;
    var s := FirstSums(buf, w, r);
    for i := 0 to w
      invariant buf[..w] == line && SumsAt(s, line, i, r)
      invariant forall py, px :: 0 <= py < pixels.Length0 && 0 <= px < pixels.Length1 ==>
        pixels[py, px] == if py == y && x <= px < x + i then Written(line, px - x, r) else old(pixels[py, px])
    {
      var c := Emit(s, line, i, r);
      pixels[y, x + i] := c;
      s := Advance(s, buf, w, i, r);
    }
  }

  /** One column, blurred in place. */
  method BlurColumn(pixels: array2<Color>, buf: array<Color>, y: nat, x: nat, h: nat, r: nat)
    requires 0 < h <= buf.Length && y + h <= pixels.Length0 && x < pixels.Length1 && 1 <= r
    modifies pixels, buf
    ensures forall py, px :: 0 <= py < pixels.Length0 && 0 <= px < pixels.Length1 ==>
      pixels[py, px] == if px == x && y <= py < y + h then Written(old(ColumnOf(pixels, y, x, h)), py - y, r)
        else old(pixels[py, px])
  {
    ghost var line := ColumnOf(pixels, y, x, h);
    for i := 0 to h
      invariant forall j :: 0 <= j < i ==> buf[j] == line[j]
      invariant forall py, px :: 0 <= py < pixels.Length0 && 0 <= px < pixels.Length1 ==>
        pixels[py, px] == old(pixels[py, px])
    {
      buf[i] := pixels[y + i, x];
    }
    assert buf[..h] == line;
    var s := FirstSums(buf, h, r);
    for i := 0 to h
      invariant buf[..h] == line && SumsAt(s, line, i, r)
      invariant forall py, px :: 0 <= py < pixels.Length0 && 0 <= px < pixels.Length1 ==>
        pixels[py, px] == if px == x && y <= py < y + i then Written(line, py - y, r) else old(pixels[py, px])
    {
      var c := Emit(s, line, i, r);
      pixels[y + i, x] := c;
      s := Advance(s, buf, h, i, r);
    }
  }

  /** `blur_pass_h`: every row of the area; too wide an area is left as it is. */
  method PassH(pixels: array2<Color>, buf: array<Color>, x: nat, y: nat, w: nat, h: nat, r: nat)
    requires 0 < w && x + w <= pixels.Length1 && y + h <= pixels.Length0 && 1 <= r && buf.Length == BLUR_MAX_SPAN
    modifies pixels, buf
    ensures forall py, px :: 0 <= py < pixels.Length0 && 0 <= px < pixels.Length1 ==>
      pixels[py, px] == if w <= BLUR_MAX_SPAN && y <= py < y + h && x <= px < x + w
        then Written(old(RowOf(pixels, py, x, w)), px - x, r) else old(pixels[py, px])
  {
    if w > BLUR_MAX_SPAN {
      return;
    }
    for row := 0 to h
      invariant forall py, px :: 0 <= py < pixels.Length0 && 0 <= px < pixels.Length1 ==>
        pixels[py, px] == if y <= py < y + row && x <= px < x + w then Written(old(RowOf(pixels, py, x, w)), px - x, r)
          else old(pixels[py, px])
    {
      assert RowOf(pixels, y + row, x, w) == old(RowOf(pixels, y + row, x, w));
      BlurRow(pixels, buf, y + row, x, w, r);
    }
  }

  /** `blur_pass_v`: every column of the area. */
  method PassV(pixels: array2<Color>, buf: array<Color>, x: nat, y: nat, w: nat, h: nat, r: nat)
    requires 0 < h && x + w <= pixels.Length1 && y + h <= pixels.Length0 && 1 <= r && buf.Length == BLUR_MAX_SPAN
    modifies pixels, buf
    ensures forall py, px :: 0 <= py < pixels.Length0 && 0 <= px < pixels.Length1 ==>
      pixels[py, px] == if h <= BLUR_MAX_SPAN && y <= py < y + h && x <= px < x + w
        then Written(old(ColumnOf(pixels, y, px, h)), py - y, r) else old(pixels[py, px])
  {
    if h > BLUR_MAX_SPAN {
      return;
    }
    for col := 0 to w
      invariant forall py, px :: 0 <= py < pixels.Length0 && 0 <= px < pixels.Length1 ==>
        pixels[py, px] == if y <= py < y + h && x <= px < x + col
          then Written(old(ColumnOf(pixels, y, px, h)), py - y, r) else old(pixels[py, px])
    {
      assert ColumnOf(pixels, y, x + col, h) == old(ColumnOf(pixels, y, x + col, h));
      BlurColumn(pixels, buf, y, x + col, h, r);
    }
  }
}
