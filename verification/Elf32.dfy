/** The 32-bit loader reaches the same image by another route: it maps every page of a segment first,
    then copies the file's bytes through virtual addresses and zeroes the rest by hand
    (kernel/elf.c:67-107). */
module Elf32 {
  import opened Bytes
  import opened ProcessImage
  import opened Elf64

  predicate Loadable(s: Segment, size: nat) {
    s.load ==> s.Inside(size)
  }

  predicate AllLoadable(segs: Segments, n: nat, size: nat)
    requires n <= |segs|
  {
    forall i :: 0 <= i < n ==> Loadable(segs[i], size)
  }

  /** The pages this loader maps for a header; an unaligned header of no size gets one too. */
  predicate Covers(s: Segment, page: nat) {
    s.load && s.FirstPage() <= page < s.EndPage()
  }

  ghost predicate Covered(segs: Segments, n: nat, page: nat)
    requires n <= |segs|
  {
    exists i :: 0 <= i < n && Covers(segs[i], page)
  }

  /** The byte a header puts at `a`, in its memory range. */
  function Given(file: seq<Byte>, s: Segment, a: nat): Byte
    requires s.Inside(|file|) && s.InMemory(a)
  {
    if s.InFile(a) then file[s.offset + (a - s.vaddr)] else 0
  }

  /** The byte at `a` after the first `n` headers: from the last whose memory range holds it. */
  function LastByte(file: seq<Byte>, segs: Segments, n: nat, a: nat): Byte
    requires n <= |segs| && AllLoadable(segs, n, |file|)
  {
    if n == 0 then 0
    else if segs[n - 1].load && segs[n - 1].InMemory(a) then Given(file, segs[n - 1], a)
    else LastByte(file, segs, n - 1, a)
  }

  /** The byte of `view` at an address. */
  function Peek(view: Pages, a: nat): Byte
    requires a / 4096 in view && |view[a / 4096].bytes| == 4096
  {
    view[a / 4096].bytes[a % 4096]
  }

  ghost predicate WholePages(view: Pages) {
    forall q :: q in view ==> |view[q].bytes| == 4096 && view[q].writable
  }

  ghost predicate PagesFor(view: Pages, segs: Segments, n: nat)
    requires n <= |segs|
  {
    WholePages(view) && forall q: nat :: q in view <==> Covered(segs, n, q)
  }

  ghost predicate BytesFor(view: Pages, file: seq<Byte>, segs: Segments, n: nat)
    requires n <= |segs| && AllLoadable(segs, n, |file|)
  {
    WholePages(view) && forall a: nat :: a / 4096 in view ==> Peek(view, a) == LastByte(file, segs, n, a)
  }

  /** While header `n` is copied, `b` bytes of it are done. */
  ghost predicate BytesUpTo(view: Pages, file: seq<Byte>, segs: Segments, n: nat, b: nat)
    requires n < |segs| && AllLoadable(segs, n + 1, |file|) && segs[n].load && b <= segs[n].memsz
  {
    WholePages(view) && forall a: nat :: a / 4096 in view ==>
      Peek(view, a) == if segs[n].vaddr <= a < segs[n].vaddr + b then Given(file, segs[n], a)
        else LastByte(file, segs, n, a)
  }

  /** A byte no header has is zero. */
  lemma {:induction false} NoByte(file: seq<Byte>, segs: Segments, n: nat, a: nat)
    requires n <= |segs| && AllLoadable(segs, n, |file|)
    requires forall i :: 0 <= i < n && segs[i].load ==> !segs[i].InMemory(a)
    ensures LastByte(file, segs, n, a) == 0
  {
    if n > 0 {
      NoByte(file, segs, n - 1, a);
    }
  }

  lemma OffPage(segs: Segments, n: nat, a: nat)
    requires n <= |segs| && !Covered(segs, n, a / 4096)
    ensures forall i :: 0 <= i < n && segs[i].load ==> !segs[i].InMemory(a)
  {
    forall i | 0 <= i < n && segs[i].load ensures !segs[i].InMemory(a) {
      assert !Covers(segs[i], a / 4096);
    }
  }

  /** A byte claimed by a header whose bytes no other claims. */
  lemma {:induction false} ClaimedByte(file: seq<Byte>, segs: Segments, n: nat, i: nat, a: nat)
    requires Disjoint(segs) && i < n <= |segs| && AllLoadable(segs, |segs|, |file|)
    requires segs[i].load && segs[i].InMemory(a)
    ensures LastByte(file, segs, n, a) == Given(file, segs[i], a)
  {
    if i < n - 1 {
      ClaimedByte(file, segs, n - 1, i, a);
    }
  }

  /** Both loaders put the same byte at every address, if no byte is claimed twice. */
  lemma SameByte(file: seq<Byte>, segs: Segments, a: nat)
    requires Disjoint(segs) && AllLoadable(segs, |segs|, |file|)
    ensures AllInside(segs, |segs|, |file|) && LastByte(file, segs, |segs|, a) == ByteAt(file, segs, |segs|, a)
  {
    if i :| 0 <= i < |segs| && segs[i].load && segs[i].InMemory(a) {
      ClaimedByte(file, segs, |segs|, i, a);
      if segs[i].InFile(a) {
        FileByte(file, segs, |segs|, i, a);
      } else {
        forall j | 0 <= j < |segs| && segs[j].Active() ensures !segs[j].InFile(a) {
          assert j != i ==> !segs[j].InMemory(a);
        }
        ZeroByte(file, segs, |segs|, a);
      }
    } else {
      NoByte(file, segs, |segs|, a);
      ZeroByte(file, segs, |segs|, a);
    }
  }

  /** The two loaders agree: wherever the 64-bit one maps a page, the 32-bit one maps it with the same
      bytes; it maps more only for unaligned headers of no size. */
  lemma LoadersAgree(wide: Pages, narrow: Pages, file: seq<Byte>, segs: Segments)
    requires Disjoint(segs) && AllLoadable(segs, |segs|, |file|)
    requires ImageOf(wide, file, segs, |segs|)
    requires Loaded(narrow, file, segs, |segs|)
    ensures forall q: nat :: q in wide ==> q in narrow && narrow[q].bytes == wide[q].bytes
    ensures forall q: nat :: q in narrow && q !in wide ==>
      exists i :: 0 <= i < |segs| && Covers(segs[i], q) && segs[i].memsz == 0
  {
    assert Settled(0);
    forall q: nat | q in wide ensures q in narrow && narrow[q].bytes == wide[q].bytes {
      assert PageMatches(wide, file, segs, |segs|, q);
      var i :| 0 <= i < |segs| && segs[i].Touches(q);
      assert Covers(segs[i], q);
      assert Inspected(0);
      forall o | 0 <= o < 4096 ensures narrow[q].bytes[o] == wide[q].bytes[o] {
        var a := 4096 * q + o;
        assert a / 4096 == q && a % 4096 == o;
        assert Peek(narrow, a) == narrow[q].bytes[o];
        SameByte(file, segs, a);
      }
    }
    forall q: nat | q in narrow && q !in wide
      ensures exists i :: 0 <= i < |segs| && Covers(segs[i], q) && segs[i].memsz == 0
    {
      assert PageMatches(wide, file, segs, |segs|, q);
      var i :| 0 <= i < |segs| && Covers(segs[i], q);
      assert !segs[i].Touches(q);
    }
  }

  /** Writes one byte at a mapped virtual address. */
  method Poke(space: Space, a: nat, v: Byte)
    requires space.Valid() && a / 4096 in space.table
    modifies space`ram, space`view
    ensures space.Valid() && Poked(old(space.view), space.view, a, v)
  {
    space.CopyIn(a / 4096, a % 4096, [v]);
  }

  ghost predicate Poked(before: Pages, view: Pages, a: nat, v: Byte)
    requires a / 4096 in before && |before[a / 4096].bytes| == 4096
  {
    && view.Keys == before.Keys
    && (forall q :: q in before && q != a / 4096 ==> view[q] == before[q])
    && view[a / 4096] == Page(before[a / 4096].writable, Overlaid(before[a / 4096].bytes, a % 4096, [v]))
  }

  lemma PokeRead(before: Pages, view: Pages, a: nat, v: Byte)
    requires WholePages(before) && a / 4096 in before && Poked(before, view, a, v)
    ensures WholePages(view)
    ensures forall x: nat :: x / 4096 in view ==> Peek(view, x) == if x == a then v else Peek(before, x)
  {
    forall x: nat | x / 4096 in view ensures Peek(view, x) == if x == a then v else Peek(before, x) {
      assert x == 4096 * (x / 4096) + x % 4096 && a == 4096 * (a / 4096) + a % 4096;
    }
  }

  /** The page loop of one segment: what is mapped stays, what is not is mapped and zeroed. */
  method MapSegment(space: Space, file: seq<Byte>, segs: Segments, n: nat) returns (ok: bool)
    requires space.Valid() && n < |segs| && AllLoadable(segs, n + 1, |file|) && segs[n].load
    requires PagesFor(space.view, segs, n) && BytesFor(space.view, file, segs, n)
    modifies space
    ensures space.Valid() && (ok ==> PagesFor(space.view, segs, n + 1) && BytesFor(space.view, file, segs, n))
    ensures !ok ==> space.pool == []
  {
    var s := segs[n];
    var q := s.FirstPage();
    while q < s.EndPage()
      invariant s.FirstPage() <= q && space.Valid()
      invariant q <= s.EndPage() || q == s.FirstPage()
      invariant MappedTo(space.view, segs, n, q) && BytesFor(space.view, file, segs, n)
    {
      ghost var before := space.view;
      if q !in space.table {
        ok := space.MapFresh(q, true);
        if !ok {
          return;
        }
        FreshBytes(before, space.view, file, segs, n, q);
      }
      q := q + 1;
    }
    PagesDone(space.view, segs, n, q);
    ok := true;
  }

  /** The pages of header `n` below `p` are mapped, and those of the headers before it. */
  ghost predicate MappedTo(view: Pages, segs: Segments, n: nat, p: nat)
    requires n < |segs|
  {
    WholePages(view) && forall q: nat :: q in view <==> Covered(segs, n, q) || (segs[n].FirstPage() <= q < p)
  }

  lemma PagesDone(view: Pages, segs: Segments, n: nat, p: nat)
    requires n < |segs| && segs[n].load && MappedTo(view, segs, n, p)
    requires p == segs[n].EndPage() || (p == segs[n].FirstPage() && segs[n].EndPage() <= p)
    ensures PagesFor(view, segs, n + 1)
  {
    var m := n + 1;
    forall q: nat ensures q in view <==> Covered(segs, m, q) {
      assert Covered(segs, m, q) <==> Covered(segs, n, q) || Covers(segs[n], q);
    }
  }

  lemma FreshBytes(before: Pages, view: Pages, file: seq<Byte>, segs: Segments, n: nat, q: nat)
    requires n < |segs| && AllLoadable(segs, n + 1, |file|) && segs[n].FirstPage() <= q && q !in before
    requires MappedTo(before, segs, n, q) && BytesFor(before, file, segs, n)
    requires view == before[q := Page(true, ZeroPage())]
    ensures MappedTo(view, segs, n, q + 1) && BytesFor(view, file, segs, n)
  {
    forall a: nat | a / 4096 in view ensures Peek(view, a) == LastByte(file, segs, n, a) {
      if a / 4096 == q {
        assert !Covered(segs, n, q);
        OffPage(segs, n, a);
        NoByte(file, segs, n, a);
      } else {
        assert Peek(view, a) == Peek(before, a);
      }
    }
  }

  /** The two byte loops of one segment: the file's bytes, then zeros. */
  method FillSegment(space: Space, file: seq<Byte>, segs: Segments, n: nat)
    requires space.Valid() && n < |segs| && AllLoadable(segs, n + 1, |file|) && segs[n].load
    requires PagesFor(space.view, segs, n + 1) && BytesFor(space.view, file, segs, n)
    modifies space`ram, space`view
    ensures space.Valid() && PagesFor(space.view, segs, n + 1) && BytesFor(space.view, file, segs, n + 1)
  {
    var s := segs[n];
    ghost var keys := space.view.Keys;
    var b := 0;
    while b < s.filesz
      invariant b <= s.filesz && space.Valid() && space.view.Keys == keys && BytesUpTo(space.view, file, segs, n, b)
    {
      PutByte(space, file, segs, n, b, file[s.offset + b]);
      b := b + 1;
    }
    while b < s.memsz
      invariant s.filesz <= b <= s.memsz && space.Valid() && space.view.Keys == keys
      invariant BytesUpTo(space.view, file, segs, n, b)
    {
      PutByte(space, file, segs, n, b, 0);
      b := b + 1;
    }
    SegmentFilled(space.view, file, segs, n);
  }

  method PutByte(space: Space, ghost file: seq<Byte>, segs: Segments, n: nat, b: nat, v: Byte)
    requires space.Valid() && n < |segs| && AllLoadable(segs, n + 1, |file|) && segs[n].load && b < segs[n].memsz
    requires forall q: nat :: q in space.view <==> Covered(segs, n + 1, q)
    requires BytesUpTo(space.view, file, segs, n, b) && v == Given(file, segs[n], segs[n].vaddr + b)
    modifies space`ram, space`view
    ensures space.Valid() && space.view.Keys == old(space.view).Keys && BytesUpTo(space.view, file, segs, n, b + 1)
  {
    ghost var before := space.view;
    var a := segs[n].vaddr + b;
    assert Covers(segs[n], a / 4096);
    Poke(space, a, v);
    PokeRead(before, space.view, a, v);
  }

  lemma SegmentFilled(view: Pages, file: seq<Byte>, segs: Segments, n: nat)
    requires n < |segs| && AllLoadable(segs, n + 1, |file|) && segs[n].load
    requires BytesUpTo(view, file, segs, n, segs[n].memsz)
    ensures BytesFor(view, file, segs, n + 1)
  {
  }

  /** The headers this loader takes in stride: no sum wraps, and the file part is no longer than the memory
      part, which the source does not check. */
  predicate Tame(s: Segment) {
    s.NoWrap(Bits32) && s.filesz <= s.memsz
  }

  /** What the loader's copy of the file part writes to: pages it mapped for the header itself. */
  ghost predicate CopyKeepsIn(s: Segment) {
    forall a: nat :: s.InFile(a) ==> Covers(s, a / 4096)
  }

  /** `elf_load_at` does not compare the two sizes of a header. Where nothing wraps, the copy keeps to the pages
      mapped for it exactly if the file part ends before they do. */
  lemma CopyExact(s: Segment)
    requires s.load && s.NoWrap(Bits32)
    ensures CopyKeepsIn(s) <==> s.filesz == 0 || s.vaddr + s.filesz <= 4096 * s.EndPage()
  {
    if s.filesz > 0 {
      var last := s.vaddr + s.filesz - 1;
      assert s.InFile(last);
      assert last / 4096 < s.EndPage() <==> last < 4096 * s.EndPage();
    }
    if s.vaddr + s.filesz <= 4096 * s.EndPage() {
      forall a: nat | s.InFile(a) ensures Covers(s, a / 4096) {
      }
    }
  }

  /** A header it accepts whose copy runs a page past the one page mapped for it. */
  lemma LongFileAccepted(size: nat)
    requires 8192 <= size < Bits32.Limit()
    ensures var s := Segment(true, false, 0, 0x40_0000, 8192, 16);
      s.Fields(Bits32) && s.Accepted(Bits32, size) && s.NoWrap(Bits32) && !Tame(s) && !CopyKeepsIn(s)
  {
    CopyExact(Segment(true, false, 0, 0x40_0000, 8192, 16));
  }

  /** The loop of `elf_load_at` over the program headers, into a fresh space. */
  method Load(space: Space, file: seq<Byte>, segs: Segments) returns (rc: Code)
    requires space.Valid() && space.view == map[] && |file| < Bits32.Limit() && forall s :: s in segs ==>
      s.Fields(Bits32)
    modifies space
    ensures space.Valid()
    ensures rc == Ok ==> AllLoadable(segs, |segs|, |file|) && Loaded(space.view, file, segs, |segs|)
    ensures rc == Truncated ==> exists i :: 0 <= i < |segs| && segs[i].load && !segs[i].Accepted(Bits32, |file|)
    ensures rc == Astray ==>
      exists i :: 0 <= i < |segs| && segs[i].load && segs[i].Accepted(Bits32, |file|) && !Tame(segs[i])
    ensures rc == NoMem ==> space.pool == []
  {
    var i := 0;
    NothingLoaded(file, segs);
    while i < |segs|
      invariant i <= |segs| && space.Valid() && AllLoadable(segs, i, |file|)
      invariant Loaded(space.view, file, segs, i)
    {
      var s := segs[i];
      if s.load {
        assert s in segs;
        if Bits32.Low(s.offset + s.filesz) > |file| {
          return Truncated;
        }
        if !Tame(s) {
          return Astray;
        }
        AcceptedInside(s, Bits32, |file|);
        var ok := LoadSegment(space, file, segs, i);
        if !ok {
          return NoMem;
        }
      } else {
        SkipOther(space.view, file, segs, i);
      }
      i := i + 1;
    }
    rc := Ok;
  }

  method LoadSegment(space: Space, file: seq<Byte>, segs: Segments, n: nat) returns (ok: bool)
    requires space.Valid() && n < |segs| && AllLoadable(segs, n + 1, |file|) && segs[n].load
    requires Loaded(space.view, file, segs, n)
    modifies space
    ensures space.Valid() && (ok ==> Loaded(space.view, file, segs, n + 1))
    ensures !ok ==> space.pool == []
  {
    assert Settled(0);
    ok := MapSegment(space, file, segs, n);
    if ok {
      FillSegment(space, file, segs, n);
    }
  }

  ghost predicate Settled(n: int) { true }

  /** The image of the first `n` headers, folded: a proof opens it with `assert Settled(0)`. */
  ghost predicate Loaded(view: Pages, file: seq<Byte>, segs: Segments, n: nat)
    requires n <= |segs| && AllLoadable(segs, n, |file|)
  {
    forall t: int :: Settled(t) ==> PagesFor(view, segs, n) && BytesFor(view, file, segs, n)
  }

  lemma NothingLoaded(file: seq<Byte>, segs: Segments)
    ensures Loaded(map[], file, segs, 0)
  {
  }

  lemma SkipOther(view: Pages, file: seq<Byte>, segs: Segments, n: nat)
    requires n < |segs| && AllLoadable(segs, n, |file|) && !segs[n].load
    requires Loaded(view, file, segs, n)
    ensures Loaded(view, file, segs, n + 1)
  {
    assert Settled(0);
    var m := n + 1;
    forall q: nat ensures q in view <==> Covered(segs, m, q) {
      assert Covered(segs, m, q) <==> Covered(segs, n, q);
    }
  }
}
