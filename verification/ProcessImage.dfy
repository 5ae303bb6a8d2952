/** The process image that a list of program headers asks for: which pages are mapped, which may be
    written, and every byte of them (System V gABI, chapter 5, "Program Loading"). */
module ProcessImage {
  import opened Bytes

  /** The width of the loader's arithmetic. */
  datatype Width = Bits32 | Bits64 {
    function Limit(): nat {
      if Bits32? then 0x1_0000_0000 else 0x1_0000_0000_0000_0000
    }

    /** A sum as the loader computes it. */
    function Low(x: nat): nat {
      if Bits32? then x % 0x1_0000_0000 else x % 0x1_0000_0000_0000_0000
    }
  }

  /** A program header, at the address it is loaded at. */
  datatype Segment = Segment(load: bool, writable: bool, offset: nat, vaddr: nat, filesz: nat, memsz: nat) {
    /** Whether the 64-bit loader does anything with it. */
    predicate Active() {
      load && memsz > 0
    }

    predicate Inside(size: nat) {
      offset + filesz <= size && filesz <= memsz
    }

    /** Whether every field is a number of that width. */
    predicate Fields(w: Width) {
      offset < w.Limit() && vaddr < w.Limit() && filesz < w.Limit() && memsz < w.Limit()
    }

    /** The loader's own test that the file part lies in the image. */
    predicate Accepted(w: Width, size: nat) {
      w.Low(offset + filesz) <= size
    }

    /** None of the sums the loader forms wraps. */
    predicate NoWrap(w: Width) {
      offset + filesz < w.Limit() && vaddr + memsz + 4095 < w.Limit()
    }

    /** Where the loader's page loop stops. */
    function CodeEnd(w: Width): nat {
      w.Low(vaddr + memsz + 4095) / 4096
    }

    predicate InFile(a: nat) {
      vaddr <= a < vaddr + filesz
    }

    predicate InMemory(a: nat) {
      vaddr <= a < vaddr + memsz
    }

    function FirstPage(): nat {
      vaddr / 4096
    }

    function EndPage(): nat {
      (vaddr + memsz + 4095) / 4096
    }

    predicate Touches(page: nat) {
      Active() && FirstPage() <= page < EndPage()
    }
  }

  type Segments = seq<Segment>

  datatype Page = Page(writable: bool, bytes: seq<Byte>)

  type Pages = map<nat, Page>

  predicate AllInside(segs: Segments, n: nat, size: nat)
    requires n <= |segs|
  {
    forall i :: 0 <= i < n && segs[i].Active() ==> segs[i].Inside(size)
  }

  ghost predicate Mapped(segs: Segments, n: nat, page: nat)
    requires n <= |segs|
  {
    exists i :: 0 <= i < n && segs[i].Touches(page)
  }

  ghost predicate Writable(segs: Segments, n: nat, page: nat)
    requires n <= |segs|
  {
    exists i :: 0 <= i < n && segs[i].Touches(page) && segs[i].writable
  }

  /** The byte at `a` after the first `n` headers: the file's, from the last of them that has one. */
  function ByteAt(file: seq<Byte>, segs: Segments, n: nat, a: nat): Byte
    requires n <= |segs| && AllInside(segs, n, |file|)
  {
    if n == 0 then 0
    else if segs[n - 1].Active() && segs[n - 1].InFile(a) then file[segs[n - 1].offset + (a - segs[n - 1].vaddr)]
    else ByteAt(file, segs, n - 1, a)
  }

  ghost predicate SameBytes(page: Page, file: seq<Byte>, segs: Segments, n: nat, q: nat)
    requires n <= |segs| && AllInside(segs, n, |file|)
  {
    |page.bytes| == 4096 && forall o :: 0 <= o < 4096 ==> page.bytes[o] == ByteAt(file, segs, n, 4096 * q + o)
  }

  ghost predicate Inspected(n: int) { true }

  /** The bytes of page `q` are as the first `n` headers ask; folded, a proof opens it with
      `assert Inspected(0)`. */
  ghost predicate BytesMatch(page: Page, file: seq<Byte>, segs: Segments, n: nat, q: nat)
    requires n <= |segs| && AllInside(segs, n, |file|)
  {
    forall t: int :: Inspected(t) ==> SameBytes(page, file, segs, n, q)
  }

  /** Page `q` is as the first `n` headers ask. */
  ghost predicate PageMatches(view: Pages, file: seq<Byte>, segs: Segments, n: nat, q: nat)
    requires n <= |segs| && AllInside(segs, n, |file|)
  {
    && (q in view <==> Mapped(segs, n, q))
    && (q in view ==> (view[q].writable <==> Writable(segs, n, q)) && BytesMatch(view[q], file, segs, n, q))
  }

  /** The whole image. */
  ghost predicate ImageOf(view: Pages, file: seq<Byte>, segs: Segments, n: nat)
    requires n <= |segs| && AllInside(segs, n, |file|)
  {
    forall q: nat :: PageMatches(view, file, segs, n, q)
  }

  /** Active headers claim no byte of memory twice. */
  ghost predicate Disjoint(segs: Segments) {
    forall i, j :: 0 <= i < j < |segs| && segs[i].Active() && segs[j].Active() ==>
      segs[i].vaddr + segs[i].memsz <= segs[j].vaddr || segs[j].vaddr + segs[j].memsz <= segs[i].vaddr
  }

  /** What the standard promises: a byte in some header's file range is that file byte. */
  lemma {:induction false} FileByte(file: seq<Byte>, segs: Segments, n: nat, i: nat, a: nat)
    requires Disjoint(segs) && i < n <= |segs| && AllInside(segs, |segs|, |file|)
    requires segs[i].Active() && segs[i].InFile(a)
    ensures ByteAt(file, segs, n, a) == file[segs[i].offset + (a - segs[i].vaddr)]
  {
    if i < n - 1 {
      FileByte(file, segs, n - 1, i, a);
    }
  }

  /** And every other byte is zero. */
  lemma {:induction false} ZeroByte(file: seq<Byte>, segs: Segments, n: nat, a: nat)
    requires n <= |segs| && AllInside(segs, n, |file|)
    requires forall i :: 0 <= i < n && segs[i].Active() ==> !segs[i].InFile(a)
    ensures ByteAt(file, segs, n, a) == 0
  {
    if n > 0 {
      ZeroByte(file, segs, n - 1, a);
    }
  }

  ghost predicate SameHeaders(segs: Segments, segs': Segments) {
    forall s :: s in segs <==> s in segs'
  }

  lemma OrderFreeByte(file: seq<Byte>, segs: Segments, segs': Segments, a: nat)
    requires Disjoint(segs) && Disjoint(segs') && SameHeaders(segs, segs')
    requires AllInside(segs, |segs|, |file|) && AllInside(segs', |segs'|, |file|)
    ensures ByteAt(file, segs, |segs|, a) == ByteAt(file, segs', |segs'|, a)
  {
    if i :| 0 <= i < |segs| && segs[i].Active() && segs[i].InFile(a) {
      FileByte(file, segs, |segs|, i, a);
      assert segs[i] in segs';
      var j :| 0 <= j < |segs'| && segs'[j] == segs[i];
      FileByte(file, segs', |segs'|, j, a);
    } else {
      ZeroByte(file, segs, |segs|, a);
      forall j | 0 <= j < |segs'| && segs'[j].Active() ensures !segs'[j].InFile(a) {
        assert segs'[j] in segs;
      }
      ZeroByte(file, segs', |segs'|, a);
    }
  }

  lemma OrderFreePage(segs: Segments, segs': Segments, q: nat)
    requires SameHeaders(segs, segs')
    ensures Mapped(segs, |segs|, q) ==> Mapped(segs', |segs'|, q)
    ensures Writable(segs, |segs|, q) ==> Writable(segs', |segs'|, q)
  {
    if i :| 0 <= i < |segs| && segs[i].Touches(q) {
      assert segs[i] in segs';
      var j :| 0 <= j < |segs'| && segs'[j] == segs[i];
    }
    if i :| 0 <= i < |segs| && segs[i].Touches(q) && segs[i].writable {
      assert segs[i] in segs';
      var j :| 0 <= j < |segs'| && segs'[j] == segs[i];
      assert segs'[j].Touches(q) && segs'[j].writable;
    }
  }

  /** The order of the headers does not matter. */
  lemma OrderFree(view: Pages, file: seq<Byte>, segs: Segments, segs': Segments)
    requires Disjoint(segs) && Disjoint(segs') && SameHeaders(segs, segs')
    requires AllInside(segs, |segs|, |file|) && AllInside(segs', |segs'|, |file|)
    requires ImageOf(view, file, segs, |segs|)
    ensures ImageOf(view, file, segs', |segs'|)
  {
    forall q: nat ensures PageMatches(view, file, segs', |segs'|, q) {
      assert PageMatches(view, file, segs, |segs|, q);
      OrderFreePage(segs, segs', q);
      OrderFreePage(segs', segs, q);
      if q in view {
        assert Inspected(0);
        forall o | 0 <= o < 4096 ensures view[q].bytes[o] == ByteAt(file, segs', |segs'|, 4096 * q + o) {
          OrderFreeByte(file, segs, segs', 4096 * q + o);
        }
      }
    }
  }

  /** There is only one image. */
  lemma ImageUnique(view: Pages, view': Pages, file: seq<Byte>, segs: Segments)
    requires AllInside(segs, |segs|, |file|)
    requires ImageOf(view, file, segs, |segs|) && ImageOf(view', file, segs, |segs|)
    ensures view == view'
  {
    forall q: nat ensures q in view <==> q in view' {
      assert PageMatches(view, file, segs, |segs|, q) && PageMatches(view', file, segs, |segs|, q);
    }
    forall q: nat | q in view ensures view[q] == view'[q] {
      assert PageMatches(view, file, segs, |segs|, q) && PageMatches(view', file, segs, |segs|, q);
      assert Inspected(0);
      assert view[q].bytes == view'[q].bytes;
    }
  }

  /** For an accepted header the loader keeps to the image and walks exactly the header's pages if and only
      if none of its sums wraps. */
  lemma AcceptedSound(s: Segment, w: Width, size: nat)
    requires s.Fields(w) && s.Active() && s.Accepted(w, size) && size < w.Limit()
    ensures s.NoWrap(w) <==> s.offset + s.filesz <= size && s.CodeEnd(w) == s.EndPage()
  {
    LowEnd(w, s.offset + s.filesz);
    LowEnd(w, s.vaddr + s.memsz + 4095);
  }

  lemma LowEnd(w: Width, x: nat)
    ensures w.Low(x) / 4096 == x / 4096 <==> x < w.Limit()
    ensures w.Low(x) == x <==> x < w.Limit()
  {
  }

  lemma AcceptedInside(s: Segment, w: Width, size: nat)
    requires s.Accepted(w, size) && s.NoWrap(w) && s.filesz <= s.memsz
    ensures s.Inside(size)
  {
    LowEnd(w, s.offset + s.filesz);
  }

  /** A header that the 64-bit loader accepts although its file part starts eight bytes below 2^64: its copy
      reads outside the image. */
  lemma WrapAccepted(size: nat)
    requires 8 <= size <= 4096
    ensures var s := Segment(true, false, 0xFFFF_FFFF_FFFF_FFF8, 0x40_0000, 16, 16);
      s.Fields(Bits64) && s.Active() && s.Accepted(Bits64, size) && s.filesz <= s.memsz && !s.Inside(size)
        && !s.NoWrap(Bits64)
  {
  }
}
