/** The 64-bit loader: page by page, reusing pages that two segments share (kernel/elf64.c:86-187). */
module Elf64 {
  import opened Bytes
  import opened ProcessImage

  datatype Entry = Entry(frame: nat, writable: bool)

  /** `Astray`: a header was accepted whose sums wrap, and the loader goes on with the wrapped ones. */
  datatype Code = Ok | Truncated | NoMem | Astray

  function ZeroPage(): (s: seq<Byte>)
    ensures |s| == 4096 && forall i :: 0 <= i < 4096 ==> s[i] == 0
  {
    seq(4096, _ => 0)
  }

  /** `dst` with `src` copied over it from `off` on. */
  function Overlaid(dst: seq<Byte>, off: nat, src: seq<Byte>): (r: seq<Byte>)
    requires off + |src| <= |dst|
    ensures |r| == |dst|
    ensures forall i :: 0 <= i < |dst| ==> r[i] == if off <= i < off + |src| then src[i - off] else dst[i]
  {
    dst[..off] + src + dst[off + |src|..]
  }

  ghost predicate Sealed(n: int) { true }

  /** An address space: the pages mapped in it, the contents of the machine's frames, and the frames that
      are free. */
  class Space {
    var table: map<nat, Entry>
    var ram: map<nat, seq<Byte>>
    var pool: seq<nat>
    ghost var view: Pages      // what a program sees

    /** Folded: a proof opens it with `assert Sealed(0)`. */
    ghost predicate Valid()
      reads this
    {
      && view.Keys == table.Keys && (forall p :: p in view ==> |view[p].bytes| == 4096)
      && forall n: int :: Sealed(n) ==> Inner()
    }

    ghost predicate Inner()
      reads this
    {
      && (forall p :: p in table ==> table[p].frame in ram && |ram[table[p].frame]| == 4096 && table[p].frame !in pool)
      && (forall p, q :: p in table && q in table && table[p].frame == table[q].frame ==> p == q)
      && (forall i :: 0 <= i < |pool| ==> pool[i] in ram && |ram[pool[i]]| == 4096)
      && (forall i, j :: 0 <= i < j < |pool| ==> pool[i] != pool[j])
      && view.Keys == table.Keys
      && (forall p :: p in table ==> view[p] == Page(table[p].writable, ram[table[p].frame]))
    }

    constructor (ram: map<nat, seq<Byte>>, pool: seq<nat>)
      requires forall i :: 0 <= i < |pool| ==> pool[i] in ram && |ram[pool[i]]| == 4096
      requires forall i, j :: 0 <= i < j < |pool| ==> pool[i] != pool[j]
      ensures Valid() && view == map[] && this.pool == pool
    {
      this.table, this.ram, this.pool, this.view := map[], ram, pool, map[];
    }

    /** Maps a zeroed frame. */
    method MapFresh(page: nat, writable: bool) returns (ok: bool)
      requires Valid() && page !in table
      modifies this
      ensures Valid() && ok == (old(pool) != [])
      ensures ok ==> view == old(view)[page := Page(writable, ZeroPage())] && |pool| + 1 == |old(pool)|
      ensures !ok ==> view == old(view) && pool == old(pool)
    {
      assert Sealed(0);
      if pool == [] {
        return false;
      }
      var frame := pool[0];
      assert frame !in pool[1..] && forall p :: p in table ==> table[p].frame != frame;
      pool := pool[1..];
      table := table[page := Entry(frame, writable)];
      ram := ram[frame := ZeroPage()];
      view := view[page := Page(writable, ZeroPage())];
      assert Inner();
      ok := true;
    }

    method AllowWrite(page: nat)
      requires Valid() && page in table
      modifies this`table, this`view
      ensures Valid() && view == old(view)[page := Page(true, old(view)[page].bytes)]
    {
      assert Sealed(0);
      table := table[page := table[page].(writable := true)];
      view := view[page := view[page].(writable := true)];
      assert Inner();
    }

    method CopyIn(page: nat, off: nat, src: seq<Byte>)
      requires Valid() && page in table && off + |src| <= 4096
      modifies this`ram, this`view
      ensures Valid()
      ensures view == old(view)[page := Page(old(view)[page].writable, Overlaid(old(view)[page].bytes, off, src))]
    {
      assert Sealed(0);
      var frame := table[page].frame;
      ram := ram[frame := Overlaid(ram[frame], off, src)];
      view := view[page := view[page].(bytes := ram[frame])];
      assert Inner();
    }
  }

  /** How many headers a page has been through while header `n` is being loaded up to page `p`. */
  function Done(s: Segment, n: nat, p: nat, q: nat): nat {
    if s.FirstPage() <= q < p then n + 1 else n
  }

  ghost predicate Staged(n: int) { true }

  /** Header `n` has been loaded up to page `p`; folded, a proof opens it with `assert Staged(0)`. */
  ghost predicate PartLoaded(view: Pages, file: seq<Byte>, segs: Segments, n: nat, p: nat)
    requires n < |segs| && AllInside(segs, n + 1, |file|)
  {
    forall t: int :: Staged(t) ==> forall q: nat :: PageMatches(view, file, segs, Done(segs[n], n, p, q), q)
  }

  lemma SegmentStart(view: Pages, file: seq<Byte>, segs: Segments, n: nat)
    requires n < |segs| && AllInside(segs, n + 1, |file|) && ImageOf(view, file, segs, n)
    ensures PartLoaded(view, file, segs, n, segs[n].FirstPage())
  {
  }

  lemma PageBefore(view: Pages, file: seq<Byte>, segs: Segments, n: nat, q: nat)
    requires n < |segs| && AllInside(segs, n + 1, |file|) && PartLoaded(view, file, segs, n, q)
    ensures PageMatches(view, file, segs, n, q)
  {
    assert Staged(0);
    assert PageMatches(view, file, segs, Done(segs[n], n, q, q), q);
  }

  /** A page the header does not touch needs nothing done. */
  lemma UntouchedPage(view: Pages, file: seq<Byte>, segs: Segments, n: nat, q: nat)
    requires n < |segs| && AllInside(segs, n + 1, |file|) && !segs[n].Touches(q)
    requires PageMatches(view, file, segs, n, q)
    ensures PageMatches(view, file, segs, n + 1, q)
  {
    assert Mapped(segs, n, q) <==> Mapped(segs, n + 1, q);
    assert Writable(segs, n, q) <==> Writable(segs, n + 1, q);
    if q in view {
      assert Inspected(0);
      forall o | 0 <= o < 4096 ensures view[q].bytes[o] == ByteAt(file, segs, n + 1, 4096 * q + o) {
        assert segs[n].Active() ==> !segs[n].InFile(4096 * q + o);
      }
    }
  }

  lemma SegmentDone(view: Pages, file: seq<Byte>, segs: Segments, n: nat)
    requires n < |segs| && AllInside(segs, n + 1, |file|) && PartLoaded(view, file, segs, n, segs[n].EndPage())
    ensures ImageOf(view, file, segs, n + 1)
  {
    assert Staged(0);
    var m := n + 1;
    forall q: nat ensures PageMatches(view, file, segs, m, q) {
      assert PageMatches(view, file, segs, Done(segs[n], n, segs[n].EndPage(), q), q);
      if !(segs[n].FirstPage() <= q < segs[n].EndPage()) {
        UntouchedPage(view, file, segs, n, q);
      }
    }
  }

  function Later(a: nat, b: nat): nat {
    if a > b then a else b
  }

  function Earlier(a: nat, b: nat): nat {
    if a < b then a else b
  }

  /** The bytes of the file that belong on page `q`, and where on the page they start. */
  function Slice(file: seq<Byte>, s: Segment, q: nat): (r: seq<Byte>)
    requires s.Inside(|file|) && s.FirstPage() <= q
    ensures |r| <= 4096
  {
    var from, to := Later(4096 * q, s.vaddr), Earlier(4096 * q + 4096, s.vaddr + s.filesz);
    if to > from then file[s.offset + (from - s.vaddr)..s.offset + (to - s.vaddr)] else []
  }

  /** Copying the slice brings a page from the first `n` headers to the first `n + 1`. */
  lemma SliceMatches(before: Page, file: seq<Byte>, segs: Segments, n: nat, q: nat, off: nat)
    requires n < |segs| && AllInside(segs, n + 1, |file|) && segs[n].Touches(q) && BytesMatch(before, file, segs, n, q)
    requires |before.bytes| == 4096
    requires off == Later(4096 * q, segs[n].vaddr) - 4096 * q || Slice(file, segs[n], q) == []
    requires off + |Slice(file, segs[n], q)| <= 4096
    ensures BytesMatch(Page(before.writable, Overlaid(before.bytes, off, Slice(file, segs[n], q))), file, segs,
      n + 1, q)
  {
    var s, src := segs[n], Slice(file, segs[n], q);
    assert Inspected(0);
    var after := Overlaid(before.bytes, off, src);
    forall o | 0 <= o < 4096 ensures after[o] == ByteAt(file, segs, n + 1, 4096 * q + o) {
      assert s.InFile(4096 * q + o) <==> off <= o < off + |src|;
    }
  }

  /** The pages of `view` other than `q` are those of `before`. */
  ghost predicate OthersSame(before: Pages, view: Pages, q: nat) {
    forall p :: p != q ==> (p in before <==> p in view) && (p in before ==> view[p] == before[p])
  }

  /** One page of one segment: an existing mapping is reused and takes on the wider permission, a new
      one starts as zeros; then the file's bytes are copied in. */
  method LoadPage(space: Space, file: seq<Byte>, segs: Segments, n: nat, q: nat) returns (ok: bool)
    requires space.Valid() && n < |segs| && AllInside(segs, n + 1, |file|) && segs[n].Touches(q)
    requires PageMatches(space.view, file, segs, n, q)
    modifies space
    ensures space.Valid() && OthersSame(old(space.view), space.view, q)
    ensures ok ==> PageMatches(space.view, file, segs, n + 1, q)
    ensures ok ==> |space.pool| + (if q in old(space.table) then 0 else 1) == |old(space.pool)|
    ensures !ok ==> space.pool == [] == old(space.pool)
  {
    var s := segs[n];
    ok := Present(space, segs, n, q, file);
    if !ok {
      return;
    }
    ghost var mid := space.view;
    CopySlice(space, file, segs, n, q);
    PageDone(space.view, file, segs, n, q);
    OthersChain(old(space.view), mid, space.view, q);
  }

  lemma PageDone(view: Pages, file: seq<Byte>, segs: Segments, n: nat, q: nat)
    requires n < |segs| && AllInside(segs, n + 1, |file|) && segs[n].Touches(q) && q in view
    requires BytesMatch(view[q], file, segs, n + 1, q) && (view[q].writable <==> Writable(segs, n + 1, q))
    ensures PageMatches(view, file, segs, n + 1, q)
  {
    assert segs[n].Touches(q);
  }

  lemma OthersChain(a: Pages, b: Pages, c: Pages, q: nat)
    requires OthersSame(a, b, q) && OthersSame(b, c, q)
    ensures OthersSame(a, c, q)
  {
  }

  /** Copies the file's bytes for page `q`. */
  method CopySlice(space: Space, file: seq<Byte>, segs: Segments, n: nat, q: nat)
    requires space.Valid() && n < |segs| && AllInside(segs, n + 1, |file|) && segs[n].Touches(q)
    requires q in space.table && BytesMatch(space.view[q], file, segs, n, q)
    modifies space`ram, space`view
    ensures space.Valid() && OthersSame(old(space.view), space.view, q)
    ensures BytesMatch(space.view[q], file, segs, n + 1, q) && space.view[q].writable == old(space.view)[q].writable
  {
    var s := segs[n];
    ghost var before := space.view[q];
    var from, to := Later(4096 * q, s.vaddr), Earlier(4096 * q + 4096, s.vaddr + s.filesz);
    if to > from {
      var src := file[s.offset + (from - s.vaddr)..s.offset + (to - s.vaddr)];
      assert src == Slice(file, s, q);
      SliceMatches(before, file, segs, n, q, from - 4096 * q);
      space.CopyIn(q, from - 4096 * q, src);
    } else {
      SliceMatches(before, file, segs, n, q, 0);
      assert Overlaid(before.bytes, 0, []) == before.bytes;
    }
  }

  /** A mapping for page `q`, with the permissions of the first `n + 1` headers and the bytes of the
      first `n`. */
  method Present(space: Space, segs: Segments, n: nat, q: nat, ghost file: seq<Byte>) returns (ok: bool)
    requires space.Valid() && n < |segs| && AllInside(segs, n + 1, |file|) && segs[n].Touches(q)
    requires PageMatches(space.view, file, segs, n, q)
    modifies space
    ensures space.Valid() && OthersSame(old(space.view), space.view, q)
    ensures ok ==> q in space.table && BytesMatch(space.view[q], file, segs, n, q)
    ensures ok ==> (space.view[q].writable <==> Writable(segs, n + 1, q))
    ensures ok ==> |space.pool| + (if q in old(space.table) then 0 else 1) == |old(space.pool)|
    ensures !ok ==> space.pool == [] == old(space.pool)
  {
    WritableNext(segs, n, q);
    if q in space.table {
      if segs[n].writable {
        space.AllowWrite(q);
      }
      return true;
    }
    ok := space.MapFresh(q, segs[n].writable);
    if ok {
      NeverMapped(file, segs, n, q, space.view[q]);
    }
  }

  lemma WritableNext(segs: Segments, n: nat, q: nat)
    requires n < |segs| && segs[n].Touches(q)
    ensures Writable(segs, n + 1, q) <==> Writable(segs, n, q) || segs[n].writable
    ensures !Mapped(segs, n, q) ==> !Writable(segs, n, q)
  {
    if i :| 0 <= i < n && segs[i].Touches(q) && segs[i].writable {
      assert segs[i].Touches(q) && segs[i].writable;
    }
  }

  /** A zero page is right where no header has a byte. */
  lemma NeverMapped(file: seq<Byte>, segs: Segments, n: nat, q: nat, page: Page)
    requires n <= |segs| && AllInside(segs, n, |file|) && !Mapped(segs, n, q) && page.bytes == ZeroPage()
    ensures BytesMatch(page, file, segs, n, q)
  {
    forall o | 0 <= o < 4096 ensures page.bytes[o] == ByteAt(file, segs, n, 4096 * q + o) {
      forall i | 0 <= i < n && segs[i].Active() ensures !segs[i].InFile(4096 * q + o) {
        assert !segs[i].Touches(q);
      }
      ZeroByte(file, segs, n, 4096 * q + o);
    }
  }

  /** The page loop for one segment. */
  method LoadSegment(space: Space, file: seq<Byte>, segs: Segments, n: nat, mapped: nat) returns (ok: bool, count: nat)
    requires space.Valid() && n < |segs| && AllInside(segs, n + 1, |file|) && segs[n].Active()
    requires ImageOf(space.view, file, segs, n)
    modifies space
    ensures space.Valid() && (ok ==> ImageOf(space.view, file, segs, n + 1))
    ensures !ok ==> space.pool == []
    ensures count + |space.pool| == mapped + |old(space.pool)|
  {
    var s := segs[n];
    var q := s.FirstPage();
    count := mapped;
    SegmentStart(space.view, file, segs, n);
    while q < s.EndPage()
      invariant s.FirstPage() <= q && space.Valid()
      invariant q <= s.EndPage() && PartLoaded(space.view, file, segs, n, q)
      invariant count + |space.pool| == mapped + |old(space.pool)|
    {
      ghost var before := space.view;
      PageBefore(before, file, segs, n, q);
      var absent := q !in space.table;
      ok := LoadPage(space, file, segs, n, q);
      if !ok {
        return;
      }
      if absent {
        count := count + 1;
      }
      NextPage(before, space.view, file, segs, n, q);
      q := q + 1;
    }
    SegmentDone(space.view, file, segs, n);
    ok := true;
  }

  lemma NextPage(before: Pages, view: Pages, file: seq<Byte>, segs: Segments, n: nat, q: nat)
    requires n < |segs| && AllInside(segs, n + 1, |file|) && segs[n].FirstPage() <= q
    requires PartLoaded(before, file, segs, n, q) && OthersSame(before, view, q)
    requires PageMatches(view, file, segs, n + 1, q)
    ensures PartLoaded(view, file, segs, n, q + 1)
  {
    assert Staged(0);
    var r := q + 1;
    forall p: nat ensures PageMatches(view, file, segs, Done(segs[n], n, r, p), p) {
      assert PageMatches(before, file, segs, Done(segs[n], n, q, p), p);
    }
  }

  function RoundUp(a: nat): nat {
    (a + 4095) / 4096 * 4096
  }

  /** Whether a header's file range holds file offset `o`. */
  predicate HoldsOffset(s: Segment, o: nat) {
    s.Active() && s.offset <= o < s.offset + s.filesz
  }

  /** Where the program headers are mapped: inside some segment that holds them, or nowhere. */
  ghost predicate HeadersAt(segs: Segments, n: nat, phoff: nat, va: nat)
    requires n <= |segs|
  {
    if va == 0 then forall i :: 0 <= i < n && HoldsOffset(segs[i], phoff) ==>
      segs[i].vaddr + (phoff - segs[i].offset) == 0
    else exists i :: 0 <= i < n && HoldsOffset(segs[i], phoff) && va == segs[i].vaddr + (phoff - segs[i].offset)
  }

  /** `top` is the end of the segment that ends last. */
  ghost predicate TopOf(segs: Segments, n: nat, top: nat)
    requires n <= |segs|
  {
    && (forall i :: 0 <= i < n && segs[i].Active() ==> segs[i].vaddr + segs[i].memsz <= top)
    && (top > 0 ==> exists i :: 0 <= i < n && segs[i].Active() && top == segs[i].vaddr + segs[i].memsz)
  }

  /** What the loader's tests make of an active header. */
  function Verdict(s: Segment, size: nat): Code {
    if !s.Accepted(Bits64, size) || s.filesz > s.memsz then Truncated
    else if !s.NoWrap(Bits64) then Astray
    else Ok
  }

  ghost predicate Judged(segs: Segments, size: nat, rc: Code) {
    exists i :: 0 <= i < |segs| && segs[i].Active() && Verdict(segs[i], size) == rc
  }

  /** The tests at the head of the loop, in 64-bit arithmetic. */
  method Test(s: Segment, size: nat) returns (rc: Code)
    ensures rc == Verdict(s, size) && (rc == Ok ==> s.Inside(size))
  {
    if Bits64.Low(s.offset + s.filesz) > size || s.filesz > s.memsz {
      return Truncated;
    }
    if !s.NoWrap(Bits64) {
      return Astray;
    }
    AcceptedInside(s, Bits64, size);
    rc := Ok;
  }

  /** The loop of `elf64_load_at` over the program headers, into a fresh space. */
  method Load(space: Space, file: seq<Byte>, segs: Segments, phoff: nat)
    returns (rc: Code, phdrVa: nat, brk: nat, mapped: nat)
    requires space.Valid() && space.view == map[] && |file| < Bits64.Limit() && forall s :: s in segs ==>
      s.Fields(Bits64)
    modifies space
    ensures space.Valid() && mapped + |space.pool| == |old(space.pool)|
    ensures rc == Ok ==> AllInside(segs, |segs|, |file|) && ImageOf(space.view, file, segs, |segs|)
    ensures rc == Ok ==>
      HeadersAt(segs, |segs|, phoff, phdrVa) && exists top: nat :: TopOf(segs, |segs|, top) && brk == RoundUp(top)
    ensures rc == Ok ==> forall i :: 0 <= i < |segs| && segs[i].Active() ==> Verdict(segs[i], |file|) == Ok
    ensures rc == Truncated || rc == Astray ==> Judged(segs, |file|, rc)
    ensures rc == NoMem ==> space.pool == []
  {
    rc, phdrVa, brk, mapped := Ok, 0, 0, 0;
    var top: nat := 0;
    var i := 0;
    assert ImageOf(space.view, file, segs, 0);
    while i < |segs|
      invariant i <= |segs| && space.Valid() && AllInside(segs, i, |file|) && ImageOf(space.view, file, segs, i)
      invariant forall j :: 0 <= j < i && segs[j].Active() ==> Verdict(segs[j], |file|) == Ok
      invariant HeadersAt(segs, i, phoff, phdrVa) && TopOf(segs, i, top) && rc == Ok
      invariant mapped + |space.pool| == |old(space.pool)|
    {
      var s := segs[i];
      if s.Active() {
        assert s in segs;
        rc := Test(s, |file|);
        if rc != Ok {
          return rc, 0, 0, mapped;
        }
        if phdrVa == 0 && s.offset <= phoff < s.offset + s.filesz {
          phdrVa := s.vaddr + (phoff - s.offset);
        }
        if s.vaddr + s.memsz > top {
          top := s.vaddr + s.memsz;
        }
        var ok;
        ok, mapped := LoadSegment(space, file, segs, i, mapped);
        if !ok {
          return NoMem, 0, 0, mapped;
        }
      } else {
        SkipInactive(space.view, file, segs, i);
      }
      i := i + 1;
    }
    brk := RoundUp(top);
  }

  lemma SkipInactive(view: Pages, file: seq<Byte>, segs: Segments, n: nat)
    requires n < |segs| && AllInside(segs, n, |file|) && !segs[n].Active() && ImageOf(view, file, segs, n)
    ensures ImageOf(view, file, segs, n + 1)
  {
    var m := n + 1;
    forall q: nat ensures PageMatches(view, file, segs, m, q) {
      assert PageMatches(view, file, segs, n, q);
      UntouchedPage(view, file, segs, n, q);
    }
  }

  /** The program headers a process is told about are the file's. */
  lemma HeadersReadable(file: seq<Byte>, segs: Segments, phoff: nat, va: nat, k: nat)
    requires Disjoint(segs) && AllInside(segs, |segs|, |file|) && va != 0 && HeadersAt(segs, |segs|, phoff, va)
    requires forall i :: 0 <= i < |segs| && HoldsOffset(segs[i], phoff) ==> HoldsOffset(segs[i], phoff + k)
    ensures phoff + k < |file| && ByteAt(file, segs, |segs|, va + k) == file[phoff + k]
  {
    var i :| 0 <= i < |segs| && HoldsOffset(segs[i], phoff) && va == segs[i].vaddr + (phoff - segs[i].offset);
    assert HoldsOffset(segs[i], phoff + k);
    FileByte(file, segs, |segs|, i, va + k);
  }
}
