/** What the kernel heap does, on the sequence of its blocks: first fit with splitting, growth by whole
    pages, and coalescing. The blocks lie end to end from `HEAP_START`, so a block's address is the sum
    of what stands before it (kernel/kheap.c:27-194). */
module Blocks {

  const WORD: nat := 0x1_0000_0000
  const HEAP_START: nat := 0xD000_0000
  const HEAP_INITIAL_SIZE: nat := 65536
  const HEAP_CAP: nat := 0xDC00_0000    // HEAP_START + KHEAP_MAX_SIZE
  const PAGE: nat := 4096
  const HDR: nat := 12                  // sizeof(block_header_t) on the 32-bit target

  /** The largest request that rounding and the header do not carry past 32 bits. */
  const LIMIT: nat := 0xFFFF_FFF0

  datatype Cell = Cell(size: nat, used: bool)

  /** The heap: its blocks, the first unmapped address, and the frames the machine has left. */
  datatype State = State(cells: seq<Cell>, end: nat, frames: nat)

  /** A sum of two 32-bit numbers, in 32 bits. */
  function Wrap(x: nat): (r: nat) {
    if x < 0x1_0000_0000 then x else x - 0x1_0000_0000
  }

  /** A request rounded up to four bytes, in 32-bit arithmetic. */
  function Round4(size: nat): nat {
    Wrap(size + 3) - Wrap(size + 3) % 4
  }

  function Total(cells: seq<Cell>): nat {
    if cells == [] then 0 else HDR + cells[0].size + Total(cells[1..])
  }

  function AddrOf(cells: seq<Cell>, i: nat): nat
    requires i <= |cells|
  {
    HEAP_START + Total(cells[..i])
  }

  /** The pointers handed out and not yet freed, each with the bytes it owns. */
  ghost function Live(cells: seq<Cell>, at: nat): map<nat, nat> {
    if cells == [] then map[]
    else
      var rest := Live(cells[1..], at + HDR + cells[0].size);
      if cells[0].used then rest[at + HDR := cells[0].size] else rest
  }

  predicate Serves(c: Cell, s: nat) {
    !c.used && s <= c.size
  }

  /** The first free block of at least `s` bytes, or -1. */
  function FirstFit(cells: seq<Cell>, s: nat): (i: int)
    ensures -1 <= i < |cells|
    ensures i >= 0 ==> Serves(cells[i], s) && forall j :: 0 <= j < i ==> !Serves(cells[j], s)
    ensures i < 0 ==> forall c :: c in cells ==> !Serves(c, s)
  {
    if cells == [] then -1
    else if Serves(cells[0], s) then 0
    else
      var i := FirstFit(cells[1..], s);
      if i < 0 then -1 else i + 1
  }

  /** A free block given to a request of `s` bytes: split when the rest is worth keeping. */
  function Carve(c: Cell, s: nat): seq<Cell>
    requires s <= c.size
  {
    if Wrap(s + HDR + 4) <= c.size then [Cell(s, true), Cell(Wrap(WORD + c.size - s - HDR), false)]
    else [c.(used := true)]
  }

  function Replace(cells: seq<Cell>, i: nat, put: seq<Cell>): seq<Cell>
    requires i < |cells|
  {
    cells[..i] + put + cells[i + 1..]
  }

  lemma ReplaceOne(cells: seq<Cell>, i: nat, c: Cell)
    requires i < |cells|
    ensures Replace(cells, i, [c]) == cells[i := c]
  {
  }

  /** How many pages `heap_expand` maps: those up to `newEnd`, or as many as there are frames. */
  function Pages(end: nat, newEnd: nat, frames: nat): nat
    decreases newEnd - end
  {
    if end < newEnd && frames > 0 then 1 + Pages(end + 4096, newEnd, frames - 1) else 0
  }

  /** The growth of the heap for a request no free block fits. */
  function Grow(h: State, s: nat): (State, nat) {
    var needed := Wrap(s + HDR);
    var growTo := Wrap(h.end + needed);
    if growTo > HEAP_CAP then (h, 0)
    else
      var aligned := growTo + 4095 - (growTo + 4095) % 4096;
      var pages := Pages(h.end, aligned, h.frames);
      var got := 4096 * pages;
      var g := State(h.cells, h.end + got, if pages <= h.frames then h.frames - pages else 0);
      if got < needed then
        (if got > HDR then g.(cells := h.cells + [Cell(got - HDR, false)]) else g, 0)
      else
        (g.(cells := h.cells + [Cell(Wrap(WORD + got - HDR), true)]), h.end + HDR)
  }

  /** `kmalloc`: the heap afterwards and the pointer, zero for none. */
  function Malloc(h: State, size: nat): (State, nat) {
    if size == 0 then (h, 0)
    else
      var s := Round4(size);
      var i := FirstFit(h.cells, s);
      if i >= 0 then (h.(cells := Replace(h.cells, i, Carve(h.cells[i], s))), AddrOf(h.cells, i) + HDR)
      else Grow(h, s)
  }

  /** The merging pass of `kfree`. */
  function Coalesce(cells: seq<Cell>): seq<Cell>
    decreases |cells|
  {
    if |cells| < 2 then cells
    else if !cells[0].used && !cells[1].used then
      Coalesce([Cell(cells[0].size + HDR + cells[1].size, false)] + cells[2..])
    else [cells[0]] + Coalesce(cells[1..])
  }

  // ---------------------------------------------------------------- tiling

  ghost predicate Measured(n: int) { true }

  // Folded: a proof opens these with `assert Measured(0)`.
  ghost predicate Word(n: int) {
    forall t: int :: Measured(t) ==> n % 4 == 0
  }

  ghost predicate OnPage(n: int) {
    forall t: int :: Measured(t) ==> n % 4096 == 0
  }

  /** Every block is a whole number of words. */
  ghost predicate Words(cells: seq<Cell>) {
    forall c :: c in cells ==> Word(c.size)
  }

  /** The blocks tile the mapped range exactly, and everything is word-aligned. */
  ghost predicate Good(h: State) {
    && HEAP_START <= h.end <= HEAP_CAP && OnPage(h.end)
    && h.end == HEAP_START + Total(h.cells) && Words(h.cells)
  }

  lemma WordSum(a: int, b: int)
    requires Word(a) && Word(b)
    ensures Word(a + b) && Word(a - b) && Word(a + HDR) && Word(a - HDR) && Word(HEAP_START)
  {
    assert Measured(0);
  }

  lemma PageSum(end: int, pages: int)
    requires OnPage(end)
    ensures OnPage(end + 4096 * pages) && Word(4096 * pages - HDR)
  {
    assert Measured(0);
  }

  lemma WordsReplace(cells: seq<Cell>, i: nat, put: seq<Cell>)
    requires i < |cells| && Words(cells)
    ensures Words(put) ==> Words(Replace(cells, i, put))
    ensures Word(cells[i].size)
  {
  }

  lemma WordsCons(cells: seq<Cell>, rest: seq<Cell>)
    requires cells != [] && Words(cells)
    ensures Word(cells[0].size) && Words(cells[1..])
    ensures Words(rest) ==> Words([cells[0]] + rest)
  {
  }

  lemma {:induction false} TotalSum(a: seq<Cell>, b: seq<Cell>)
    ensures Total(a + b) == Total(a) + Total(b)
  {
    if a == [] {
      assert a + b == b;
    } else {
      assert (a + b)[1..] == a[1..] + b;
      TotalSum(a[1..], b);
    }
  }

  lemma {:induction false} LiveSum(a: seq<Cell>, b: seq<Cell>, at: nat)
    ensures Live(a + b, at) == Live(b, at + Total(a)) + Live(a, at)
  {
    if a == [] {
      assert a + b == b;
      assert Live(b, at) + map[] == Live(b, at);
    } else {
      assert (a + b)[1..] == a[1..] + b;
      LiveSum(a[1..], b, at + HDR + a[0].size);
    }
  }

  /** Live payloads lie inside the blocks. */
  lemma {:induction false} LiveRange(cells: seq<Cell>, at: nat)
    ensures forall p :: p in Live(cells, at) ==> at + HDR <= p && p + Live(cells, at)[p] <= at + Total(cells)
  {
    if cells != [] {
      LiveRange(cells[1..], at + HDR + cells[0].size);
    }
  }

  /** Live payloads do not overlap: a header lies between any two. */
  lemma {:induction false} LiveDisjoint(cells: seq<Cell>, at: nat, p: nat, q: nat)
    requires p in Live(cells, at) && q in Live(cells, at) && p < q
    ensures p + Live(cells, at)[p] + HDR <= q
  {
    var next := at + HDR + cells[0].size;
    LiveRange(cells[1..], next);
    if p in Live(cells[1..], next) {
      LiveDisjoint(cells[1..], next, p, q);
    }
  }

  lemma {:induction false} LiveAligned(cells: seq<Cell>, at: nat)
    requires Word(at) && Words(cells)
    ensures forall p :: p in Live(cells, at) ==> Word(p)
  {
    if cells != [] {
      WordsCons(cells, []);
      WordSum(at, cells[0].size);
      WordSum(at + HDR, cells[0].size);
      LiveAligned(cells[1..], at + HDR + cells[0].size);
    }
  }

  // ---------------------------------------------------------------- allocation

  lemma Rounding(size: nat)
    requires 0 < size <= LIMIT
    ensures Word(Round4(size)) && size <= Round4(size) <= size + 3 && Round4(size) <= LIMIT && 0 < Round4(size)
  {
    assert Measured(0);
  }

  /** `cells` is three parts, the middle one block. */
  lemma Parts(cells: seq<Cell>, i: nat, put: seq<Cell>)
    requires i < |cells|
    ensures cells == cells[..i] + [cells[i]] + cells[i + 1..]
    ensures Total(cells) == Total(cells[..i]) + HDR + cells[i].size + Total(cells[i + 1..])
    ensures Total(Replace(cells, i, put)) == Total(cells[..i]) + Total(put) + Total(cells[i + 1..])
  {
    TotalSum(cells[..i], [cells[i]] + cells[i + 1..]);
    TotalSum([cells[i]], cells[i + 1..]);
    assert cells == cells[..i] + ([cells[i]] + cells[i + 1..]);
    TotalSum(cells[..i], put + cells[i + 1..]);
    TotalSum(put, cells[i + 1..]);
    assert Replace(cells, i, put) == cells[..i] + (put + cells[i + 1..]);
  }

  /** What is live before block `i`, and what is live after it, whatever stands in its place. */
  lemma ReplaceLive(cells: seq<Cell>, i: nat, put: seq<Cell>, at: nat)
    returns (before: map<nat, nat>, after: map<nat, nat>)
    requires i < |cells| && Total(put) == HDR + cells[i].size
    ensures var here := at + Total(cells[..i]);
      && Live(cells, at) == after + Live([cells[i]], here) + before
      && Live(Replace(cells, i, put), at) == after + Live(put, here) + before
      && here + HDR !in before && here + HDR !in after
  {
    var here := at + Total(cells[..i]);
    before, after := Live(cells[..i], at), Live(cells[i + 1..], here + Total(put));
    assert cells == cells[..i] + ([cells[i]] + cells[i + 1..]);
    assert Replace(cells, i, put) == cells[..i] + (put + cells[i + 1..]);
    LiveSum(cells[..i], [cells[i]] + cells[i + 1..], at);
    LiveSum([cells[i]], cells[i + 1..], here);
    LiveSum(cells[..i], put + cells[i + 1..], at);
    LiveSum(put, cells[i + 1..], here);
    assert Total([cells[i]]) == HDR + cells[i].size;
    LiveRange(cells[..i], at);
    LiveRange(cells[i + 1..], here + HDR + cells[i].size);
  }

  lemma CarveLive(c: Cell, s: nat, at: nat)
    requires Serves(c, s) && c.size + HDR + 4 < WORD
    ensures Total(Carve(c, s)) == HDR + c.size && s <= Carve(c, s)[0].size
    ensures Live(Carve(c, s), at) == map[at + HDR := Carve(c, s)[0].size] && Live([c], at) == map[]
  {
    var put := Carve(c, s);
    if |put| == 2 {
      assert put[1..] == [put[1]];
      assert Total(put[1..]) == HDR + put[1].size;
      assert Live(put[1..], at + HDR + s) == map[];
    }
  }

  lemma CarveWords(c: Cell, s: nat)
    requires Serves(c, s) && c.size + HDR + 4 < WORD && Word(c.size) && Word(s)
    ensures Words(Carve(c, s))
  {
    WordSum(c.size, s);
    WordSum(c.size - s, s);
  }

  lemma {:induction false} CellInTotal(cells: seq<Cell>, c: Cell)
    requires c in cells
    ensures HDR + c.size <= Total(cells)
  {
    if c != cells[0] {
      CellInTotal(cells[1..], c);
    }
  }

  /** What a caller may rely on: the heap stays tiled; a pointer is aligned, new, and owns at least the
      bytes asked for, while everybody else's bytes stay theirs; without a pointer nothing changes hands. */
  ghost predicate Sound(h: State, size: nat) {
    var (g, p) := Malloc(h, size);
    && Good(g)
    && g.end - h.end == 4096 * (h.frames - g.frames)
    && (p == 0 ==> Live(g.cells, HEAP_START) == Live(h.cells, HEAP_START))
    && (p != 0 ==>
      p in Live(g.cells, HEAP_START) && Served(Live(h.cells, HEAP_START), Live(g.cells, HEAP_START), p, size))
  }

  ghost predicate Served(before: map<nat, nat>, after: map<nat, nat>, p: nat, size: nat)
    requires p in after
  {
    p !in before && Word(p) && size <= after[p] && after == before[p := after[p]]
  }

  lemma CarveGood(h: State, i: nat, s: nat)
    requires Good(h) && Word(s) && i < |h.cells| && Serves(h.cells[i], s)
    ensures h.cells[i].size + HDR + 4 < WORD && Good(h.(cells := Replace(h.cells, i, Carve(h.cells[i], s))))
  {
    var c, put := h.cells[i], Carve(h.cells[i], s);
    CellInTotal(h.cells, c);
    CarveLive(c, s, 0);
    Parts(h.cells, i, put);
    WordsReplace(h.cells, i, put);
    CarveWords(c, s);
  }

  lemma CarveServes(cells: seq<Cell>, i: nat, s: nat)
    requires i < |cells| && Serves(cells[i], s) && cells[i].size + HDR + 4 < WORD
    ensures var p, n := AddrOf(cells, i) + HDR, Carve(cells[i], s)[0].size;
      && p !in Live(cells, HEAP_START) && s <= n
      && Live(Replace(cells, i, Carve(cells[i], s)), HEAP_START) == Live(cells, HEAP_START)[p := n]
  {
    CarveLive(cells[i], s, AddrOf(cells, i));
    SwapLive(cells, i, Carve(cells[i], s), AddrOf(cells, i) + HDR, Carve(cells[i], s)[0].size);
  }

  /** A block with nothing live gives way to blocks with one pointer live. */
  lemma SwapLive(cells: seq<Cell>, i: nat, put: seq<Cell>, p: nat, n: nat)
    requires i < |cells| && p == AddrOf(cells, i) + HDR && Total(put) == HDR + cells[i].size
    requires Live([cells[i]], p - HDR) == map[] && Live(put, p - HDR) == map[p := n]
    ensures p !in Live(cells, HEAP_START) && Live(Replace(cells, i, put), HEAP_START) == Live(cells, HEAP_START)[p := n]
  {
    var before, after := ReplaceLive(cells, i, put, HEAP_START);
    OneMore(after, before, p, n);
  }

  /** A request served from a free block. */
  lemma CarveSound(h: State, s: nat, i: nat, put: seq<Cell>, cells: seq<Cell>, p: nat)
    requires Good(h) && Word(s) && i < |h.cells| && Serves(h.cells[i], s)
    requires put == Carve(h.cells[i], s) && cells == Replace(h.cells, i, put) && p == AddrOf(h.cells, i) + HDR
    ensures Good(h.(cells := cells)) && p in Live(cells, HEAP_START)
    ensures Served(Live(h.cells, HEAP_START), Live(cells, HEAP_START), p, s)
  {
    CarveGood(h, i, s);
    CarveServes(h.cells, i, s);
    ServedBy(Live(h.cells, HEAP_START), cells, p, put[0].size, s);
  }

  lemma ServedBy(before: map<nat, nat>, cells: seq<Cell>, p: nat, n: nat, s: nat)
    requires Words(cells) && p !in before && s <= n && Live(cells, HEAP_START) == before[p := n]
    ensures p in Live(cells, HEAP_START) && Served(before, Live(cells, HEAP_START), p, s)
  {
    assert Word(HEAP_START) by {
      assert Measured(0);
    }
    LiveAligned(cells, HEAP_START);
  }

  lemma OneMore(after: map<nat, nat>, before: map<nat, nat>, p: nat, n: nat)
    requires p !in after && p !in before
    ensures after + map[p := n] + before == (after + map[] + before)[p := n]
    ensures (after + map[p := n] + before) - {p} == after + map[] + before && p !in after + map[] + before
  {
  }

  lemma {:induction false} PagesAre(end: nat, newEnd: nat, frames: nat)
    requires end % 4096 == 0 && newEnd % 4096 == 0
    ensures var wanted := if end < newEnd then (newEnd - end) / 4096 else 0;
      Pages(end, newEnd, frames) == if wanted <= frames then wanted else frames
    decreases newEnd - end
  {
    if end < newEnd && frames > 0 {
      PagesAre(end + 4096, newEnd, frames - 1);
    }
  }

  /** A block added at the end. */
  lemma AppendCell(h: State, c: Cell, end: nat)
    requires Good(h) && end == h.end + HDR + c.size <= HEAP_CAP && OnPage(end) && Word(c.size)
    ensures Good(State(h.cells + [c], end, h.frames))
    ensures Live(h.cells + [c], HEAP_START) ==
      if c.used then Live(h.cells, HEAP_START)[h.end + HDR := c.size] else Live(h.cells, HEAP_START)
    ensures h.end + HDR !in Live(h.cells, HEAP_START)
  {
    TotalSum(h.cells, [c]);
    LiveSum(h.cells, [c], HEAP_START);
    LiveRange(h.cells, HEAP_START);
    assert Live([c], h.end) == if c.used then map[h.end + HDR := c.size] else map[];
  }

  lemma Aligning(growTo: nat)
    ensures var a := growTo + 4095 - (growTo + 4095) % 4096; a % 4096 == 0 && growTo <= a < growTo + 4096
  {
  }

  /** How much `heap_expand` gets for a growth that stays below the cap. */
  lemma GrowthGot(h: State, needed: nat)
    requires Good(h) && 0 < needed && h.end + needed <= HEAP_CAP
    ensures var growTo := h.end + needed;
      var aligned := growTo + 4095 - (growTo + 4095) % 4096;
      var pages := Pages(h.end, aligned, h.frames);
      && pages <= h.frames && h.end + 4096 * pages <= aligned <= HEAP_CAP
      && (4096 * pages < needed <==> 4096 * h.frames < needed)
  {
    var growTo := h.end + needed;
    assert Measured(0);
    Aligning(growTo);
    PagesAre(h.end, growTo + 4095 - (growTo + 4095) % 4096, h.frames);
  }

  lemma NoGrowth(h: State, needed: nat)
    requires Good(h) && 0 < needed < WORD && h.end + needed >= WORD
    ensures var growTo := Wrap(h.end + needed);
      var aligned := growTo + 4095 - (growTo + 4095) % 4096;
      growTo < h.end && Pages(h.end, aligned, h.frames) == 0
  {
    assert Measured(0);
    Aligning(Wrap(h.end + needed));
  }

  ghost predicate NoneFits(cells: seq<Cell>, s: nat) {
    forall c :: c in cells ==> !Serves(c, s)
  }

  /** The cap and the frames allow for `needed` bytes more. */
  predicate CanGrow(h: State, needed: nat) {
    h.end + needed <= HEAP_CAP && needed <= 4096 * h.frames
  }

  /** Growth succeeds exactly if it stays below the cap and there are frames enough. */
  lemma GrowSound(h: State, s: nat)
    requires Good(h) && Word(s) && 0 < s <= LIMIT
    ensures var (g, p) := Grow(h, s);
      && Good(g) && g.end - h.end == 4096 * (h.frames - g.frames)
      && (p == 0 <==> !CanGrow(h, s + HDR))
      && (p == 0 ==> Live(g.cells, HEAP_START) == Live(h.cells, HEAP_START))
      && (p != 0 ==>
        p in Live(g.cells, HEAP_START) && Served(Live(h.cells, HEAP_START), Live(g.cells, HEAP_START), p, s))
  {
    if h.end + s + HDR > HEAP_CAP {
      GrowTooFar(h, s);
    } else {
      GrowWithin(h, s);
    }
  }

  lemma GrowTooFar(h: State, s: nat)
    requires Good(h) && Word(s) && 0 < s <= LIMIT && h.end + s + HDR > HEAP_CAP
    ensures Grow(h, s) == (h, 0)
  {
    if h.end + s + HDR >= WORD {
      NoGrowth(h, s + HDR);
    }
  }

  lemma GrowWithin(h: State, s: nat)
    requires Good(h) && Word(s) && 0 < s <= LIMIT && h.end + s + HDR <= HEAP_CAP
    ensures var (g, p) := Grow(h, s);
      && Good(g) && g.end - h.end == 4096 * (h.frames - g.frames)
      && (p == 0 <==> 4096 * h.frames < s + HDR)
      && (p == 0 ==> Live(g.cells, HEAP_START) == Live(h.cells, HEAP_START))
      && (p != 0 ==>
        p in Live(g.cells, HEAP_START) && Served(Live(h.cells, HEAP_START), Live(g.cells, HEAP_START), p, s))
  {
    GrowthGot(h, s + HDR);
    var growTo := h.end + s + HDR;
    PagesSound(h, s, Pages(h.end, growTo + 4095 - (growTo + 4095) % 4096, h.frames));
  }

  /** The block made of the pages that growth got. */
  lemma PagesSound(h: State, s: nat, pages: nat)
    requires Good(h) && Word(s) && 0 < s <= LIMIT && pages <= h.frames && h.end + 4096 * pages <= HEAP_CAP
    ensures var got := 4096 * pages;
      var g := State(h.cells, h.end + got, h.frames - pages);
      if got < s + HDR then
        var k := if got > HDR then g.(cells := h.cells + [Cell(got - HDR, false)]) else g;
        Good(k) && Live(k.cells, HEAP_START) == Live(h.cells, HEAP_START)
      else
        var k, p := g.(cells := h.cells + [Cell(got - HDR, true)]), h.end + HDR;
        && Good(k) && p in Live(k.cells, HEAP_START)
        && Served(Live(h.cells, HEAP_START), Live(k.cells, HEAP_START), p, s)
  {
    var got := 4096 * pages;
    PageSum(h.end, pages);
    if got > HDR {
      AppendCell(h, Cell(got - HDR, got >= s + HDR), h.end + got);
      if got >= s + HDR {
        ServedBy(Live(h.cells, HEAP_START), h.cells + [Cell(got - HDR, true)], h.end + HDR, got - HDR, s);
      }
    }
  }

  /** `kmalloc` is sound for every request up to 2^32 - 16, and fails exactly when no free block fits and
      the heap cannot grow. */
  lemma MallocSound(h: State, size: nat)
    requires Good(h) && size <= LIMIT
    ensures Sound(h, size)
    ensures Malloc(h, size).1 == 0 <==>
      (size == 0 || (NoneFits(h.cells, Round4(size)) && !CanGrow(h, Round4(size) + HDR)))
  {
    if size > 0 {
      var s := Round4(size);
      Rounding(size);
      if FirstFit(h.cells, s) >= 0 {
        var i := FirstFit(h.cells, s);
        var put := Carve(h.cells[i], s);
        CarveSound(h, s, i, put, Replace(h.cells, i, put), AddrOf(h.cells, i) + HDR);
      } else {
        GrowSound(h, s);
      }
    }
  }

  /** The heap as `kheap_init` leaves it. */
  function Initial(frames: nat): State {
    State([Cell(HEAP_INITIAL_SIZE - HDR, false)], HEAP_START + HEAP_INITIAL_SIZE, frames)
  }

  lemma InitialGood(frames: nat)
    ensures Good(Initial(frames)) && Live(Initial(frames).cells, HEAP_START) == map[]
  {
    assert Measured(0);
  }

  /** A larger request wraps: rounded to nothing it gets a piece of the first free block, otherwise it
      gets one page, or a block past the mapped memory. */
  lemma HugeUnsound(size: nat)
    requires LIMIT < size < WORD
    ensures !Sound(Initial(1), size)
  {
    var h := Initial(1);
    HugeRounding(size);
    if size > WORD - 4 {
      HugeCarve(h);
    } else {
      HugeGrowth(h, Round4(size));
    }
  }

  lemma HugeRounding(size: nat)
    requires LIMIT < size < WORD
    ensures if size > WORD - 4 then Round4(size) == 0 else WORD - 12 <= Round4(size) < WORD && Round4(size) % 4 == 0
  {
  }

  lemma HugeCarve(h: State)
    requires h == Initial(1)
    ensures FirstFit(h.cells, 0) == 0
    ensures var cells := Replace(h.cells, 0, Carve(h.cells[0], 0));
      HEAP_START + HDR in Live(cells, HEAP_START) && Live(cells, HEAP_START)[HEAP_START + HDR] == 0
  {
    assert Replace(h.cells, 0, Carve(h.cells[0], 0)) == Carve(h.cells[0], 0);
    CarveLive(h.cells[0], 0, HEAP_START);
  }

  lemma HugeGrowth(h: State, s: nat)
    requires h == Initial(1) && WORD - 12 <= s < WORD && s % 4 == 0
    ensures var (g, p) := Grow(h, s);
      p == h.end + HDR && !(Good(g) && p in Live(g.cells, HEAP_START) && WORD - 16 < Live(g.cells, HEAP_START)[p])
  {
    var needed := s + HDR - WORD;
    if needed == 0 {
      TotalSum(h.cells, [Cell(WORD - HDR, true)]);
    } else {
      var aligned := h.end + 4096;
      assert Pages(h.end, aligned, 1) == 1;
      var c := Cell(4096 - HDR, true);
      LiveSum(h.cells, [c], HEAP_START);
      assert Live([c], h.end) == map[h.end + HDR := c.size];
    }
  }

  /** The exact condition. */
  lemma MallocExact(size: nat)
    requires size < WORD
    ensures (forall h :: Good(h) ==> Sound(h, size)) <==> size <= LIMIT
  {
    if size <= LIMIT {
      forall h | Good(h) ensures Sound(h, size) {
        MallocSound(h, size);
      }
    } else {
      InitialGood(1);
      HugeUnsound(size);
    }
  }

  // ---------------------------------------------------------------- freeing

  ghost predicate NoAdjacentFree(cells: seq<Cell>) {
    forall i :: 0 <= i < |cells| - 1 ==> cells[i].used || cells[i + 1].used
  }

  /** Merging two free blocks moves nothing. */
  lemma MergeKeeps(cells: seq<Cell>, at: nat)
    requires |cells| >= 2 && !cells[0].used && !cells[1].used
    ensures var merged := [Cell(cells[0].size + HDR + cells[1].size, false)] + cells[2..];
      Total(merged) == Total(cells) && Live(merged, at) == Live(cells, at)
  {
    var merged := [Cell(cells[0].size + HDR + cells[1].size, false)] + cells[2..];
    assert merged[1..] == cells[2..] && cells[1..][1..] == cells[2..];
  }

  lemma MergeWords(cells: seq<Cell>)
    requires |cells| >= 2 && Words(cells)
    ensures Words([Cell(cells[0].size + HDR + cells[1].size, false)] + cells[2..])
  {
    WordSum(cells[0].size, cells[1].size);
    WordSum(cells[0].size + cells[1].size, 0);
  }

  /** Coalescing changes neither what is live nor what is mapped, and leaves no two free neighbours. */
  lemma {:induction false} CoalesceKeeps(cells: seq<Cell>, at: nat)
    requires Words(cells)
    ensures var r := Coalesce(cells);
      && Total(r) == Total(cells) && Live(r, at) == Live(cells, at) && NoAdjacentFree(r) && Words(r)
      && (cells != [] ==> r != [] && (cells[0].used ==> r[0] == cells[0]))
    decreases |cells|
  {
    if |cells| >= 2 {
      if !cells[0].used && !cells[1].used {
        var merged := [Cell(cells[0].size + HDR + cells[1].size, false)] + cells[2..];
        MergeKeeps(cells, at);
        MergeWords(cells);
        CoalesceKeeps(merged, at);
      } else {
        var rest := Coalesce(cells[1..]);
        WordsCons(cells, []);
        CoalesceKeeps(cells[1..], at + HDR + cells[0].size);
        ConsKeeps(cells, rest, at);
        WordsCons(cells, rest);
      }
    }
  }

  lemma ConsKeeps(cells: seq<Cell>, rest: seq<Cell>, at: nat)
    requires cells != [] && Total(rest) == Total(cells[1..])
    requires Live(rest, at + HDR + cells[0].size) == Live(cells[1..], at + HDR + cells[0].size)
    ensures Total([cells[0]] + rest) == Total(cells) && Live([cells[0]] + rest, at) == Live(cells, at)
  {
    assert ([cells[0]] + rest)[1..] == rest;
  }

  /** The block whose payload starts at `p`, or -1. */
  ghost function BlockAt(cells: seq<Cell>, at: nat, p: nat): (i: int)
    ensures -1 <= i < |cells|
    ensures i >= 0 ==> at + Total(cells[..i]) + HDR == p
  {
    if cells == [] then -1
    else if at + HDR == p then 0
    else
      var i := BlockAt(cells[1..], at + HDR + cells[0].size, p);
      if i < 0 then -1 else
        assert cells[..i + 1][1..] == cells[1..][..i];
        i + 1
  }

  lemma {:induction false} LiveBlock(cells: seq<Cell>, at: nat, p: nat)
    requires p in Live(cells, at)
    ensures var i := BlockAt(cells, at, p); i >= 0 && cells[i] == Cell(Live(cells, at)[p], true)
  {
    var next := at + HDR + cells[0].size;
    if at + HDR != p {
      LiveBlock(cells[1..], next, p);
    } else {
      LiveRange(cells[1..], next);
    }
  }

  /** `kfree` of a live pointer. */
  ghost function Free(h: State, p: nat): State
    requires p in Live(h.cells, HEAP_START)
  {
    LiveBlock(h.cells, HEAP_START, p);
    var i := BlockAt(h.cells, HEAP_START, p);
    h.(cells := Coalesce(h.cells[i := h.cells[i].(used := false)]))
  }

  /** Freeing takes exactly that pointer from what is live and leaves no two free neighbours. */
  lemma FreeSound(h: State, p: nat)
    requires Good(h) && p in Live(h.cells, HEAP_START)
    ensures var g := Free(h, p);
      Good(g) && NoAdjacentFree(g.cells) && Live(g.cells, HEAP_START) == Live(h.cells, HEAP_START) - {p}
  {
    LiveBlock(h.cells, HEAP_START, p);
    var i := BlockAt(h.cells, HEAP_START, p);
    var put := [h.cells[i].(used := false)];
    var marked := h.cells[i := h.cells[i].(used := false)];
    ReplaceOne(h.cells, i, put[0]);
    assert Total(marked) == Total(h.cells) by {
      Parts(h.cells, i, put);
    }
    WordsReplace(h.cells, i, put);
    MarkLive(h.cells, i, p);
    CoalesceKeeps(marked, HEAP_START);
  }

  lemma OneCell(c: Cell, at: nat)
    ensures Live([c], at) == (if c.used then map[at + HDR := c.size] else map[]) && Total([c]) == HDR + c.size
  {
    assert [c][1..] == [];
  }

  lemma MarkLive(cells: seq<Cell>, i: nat, p: nat)
    requires i < |cells| && cells[i].used && p == AddrOf(cells, i) + HDR
    ensures Live(Replace(cells, i, [cells[i].(used := false)]), HEAP_START) == Live(cells, HEAP_START) - {p}
  {
    var n, put := cells[i].size, [cells[i].(used := false)];
    OneCell(cells[i], p - HDR);
    OneCell(put[0], p - HDR);
    var before, after := ReplaceLive(cells, i, put, HEAP_START);
    OneMore(after, before, p, n);
  }

  lemma {:induction false} NoneUsed(cells: seq<Cell>, at: nat)
    requires Live(cells, at) == map[]
    ensures forall c :: c in cells ==> !c.used
  {
    if cells != [] {
      assert cells[0].used ==> at + HDR in Live(cells, at);
      assert Live(cells, at) == Live(cells[1..], at + HDR + cells[0].size);
      NoneUsed(cells[1..], at + HDR + cells[0].size);
    }
  }

  /** Once everything has been freed, one block spans the whole heap. */
  lemma AllFreed(h: State)
    requires Good(h) && NoAdjacentFree(h.cells) && Live(h.cells, HEAP_START) == map[] && h.end > HEAP_START
    ensures h.cells == [Cell(h.end - HEAP_START - HDR, false)]
  {
    NoneUsed(h.cells, HEAP_START);
    assert |h.cells| < 2 by {
      if |h.cells| >= 2 {
        assert false;
      }
    }
    assert h.cells[0] in h.cells && h.cells == [h.cells[0]] && h.cells[1..] == [];
    assert Total(h.cells) == HDR + h.cells[0].size + Total([]);
  }

  // ---------------------------------------------------------------- runs

  datatype Call = Alloc(size: nat) | Release(p: nat)

  /** A caller frees only what it holds and asks for at most 2^32 - 16 bytes. */
  ghost predicate LegalCall(h: State, call: Call) {
    match call
    case Alloc(size) => size <= LIMIT
    case Release(p) => p in Live(h.cells, HEAP_START)
  }

  ghost function Step(h: State, call: Call): State
    requires LegalCall(h, call)
  {
    match call
    case Alloc(size) => Malloc(h, size).0
    case Release(p) => Free(h, p)
  }

  ghost predicate Legal(h: State, calls: seq<Call>)
    decreases |calls|
  {
    calls != [] ==> LegalCall(h, calls[0]) && Legal(Step(h, calls[0]), calls[1..])
  }

  ghost function After(h: State, calls: seq<Call>): State
    requires Legal(h, calls)
    decreases |calls|
  {
    if calls == [] then h else After(Step(h, calls[0]), calls[1..])
  }

  lemma StepSafe(h: State, call: Call)
    requires Good(h) && LegalCall(h, call)
    ensures Good(Step(h, call)) && Step(h, call).end + 4096 * Step(h, call).frames == h.end + 4096 * h.frames
  {
    match call
    case Alloc(size) => MallocSound(h, size);
    case Release(p) => FreeSound(h, p);
  }

  /** Every run keeps the heap tiled, and no page appears or is lost. */
  lemma {:induction false} RunSafe(h: State, calls: seq<Call>)
    requires Good(h) && Legal(h, calls)
    ensures Good(After(h, calls)) && After(h, calls).end + 4096 * After(h, calls).frames == h.end + 4096 * h.frames
    decreases |calls|
  {
    if calls != [] {
      StepSafe(h, calls[0]);
      RunSafe(Step(h, calls[0]), calls[1..]);
    }
  }

  lemma {:induction false} RunSplit(h: State, a: seq<Call>, b: seq<Call>)
    requires Legal(h, a + b)
    ensures Legal(h, a) && Legal(After(h, a), b) && After(h, a + b) == After(After(h, a), b)
    decreases |a|
  {
    if a == [] {
      assert a + b == b;
    } else {
      assert (a + b)[1..] == a[1..] + b;
      RunSplit(Step(h, a[0]), a[1..], b);
    }
  }

  /** In every reachable heap the live payloads are aligned, lie in the mapped range and do not meet. */
  lemma RunDisjoint(h: State, calls: seq<Call>, p: nat, q: nat)
    requires Good(h) && Legal(h, calls)
    requires var live := Live(After(h, calls).cells, HEAP_START); p in live && q in live && p < q
    ensures var g := After(h, calls);
      var live := Live(g.cells, HEAP_START);
      p % 4 == 0 && q % 4 == 0 && HEAP_START < p && p + live[p] < q && q + live[q] <= g.end
  {
    var g := After(h, calls);
    RunSafe(h, calls);
    LiveRange(g.cells, HEAP_START);
    LiveDisjoint(g.cells, HEAP_START, p, q);
    assert Word(p) && Word(q) by {
      assert Word(HEAP_START) by {
        assert Measured(0);
      }
      LiveAligned(g.cells, HEAP_START);
    }
    assert Measured(0);
  }

  /** A run that ends by freeing the last live pointer leaves one block. */
  lemma RunAllFreed(h: State, calls: seq<Call>, p: nat)
    requires Good(h) && Legal(h, calls + [Release(p)])
    requires Live(After(h, calls + [Release(p)]).cells, HEAP_START) == map[]
    ensures var g := After(h, calls + [Release(p)]);
      |g.cells| == 1 && !g.cells[0].used && HEAP_START + HDR + g.cells[0].size == g.end
  {
    RunSplit(h, calls, [Release(p)]);
    var k := After(h, calls);
    RunSafe(h, calls);
    assert [Release(p)][1..] == [];
    FreeSound(k, p);
    var g := Free(k, p);
    assert After(k, [Release(p)]) == g;
    LiveRange(k.cells, HEAP_START);
    AllFreed(g);
  }
}
