/** What growing, writing and cutting a chain mean for the file's byte string. */
module FileBytes {
  import opened Bytes
  import opened Geometry
  import opened Chains
  import opened FatCache
  import opened ClusterData
  import opened Quotient
  import opened Evolution
  import opened Allocation
  import opened Growth
  import opened FileIo

  ghost function Zeros(n: nat): seq<Byte> {
    seq(n, _ => 0)
  }

  /** `b` followed by zeros up to length `n`. */
  ghost function Padded(b: seq<Byte>, n: nat): (r: seq<Byte>)
    requires |b| <= n
    ensures |r| == n
  {
    b + Zeros(n - |b|)
  }

  /** `b` with `data` stored at `offset`. */
  ghost function Overwrite(b: seq<Byte>, offset: nat, data: seq<Byte>): seq<Byte>
    requires offset + |data| <= |b|
  {
    b[..offset] + data + b[offset + |data|..]
  }

  /** How many clusters `n` bytes need: one more than the index of the last byte's cluster. */
  ghost function Need(g: Geometry, n: nat): nat
    requires g.Valid()
  {
    if n == 0 then 0 else Quot((n - 1) / 512, g.spc) + 1
  }

  /** It is the least number of clusters that hold `n` bytes. */
  lemma NeedLeast(g: Geometry, n: nat, k: nat)
    requires g.Valid()
    ensures Need(g, n) <= k <==> n <= Room(g, k)
  {
    if n > 0 {
      ByteIndex(g, k, n - 1);
    }
  }

  lemma CeilDiv(cb: nat, n: nat)
    requires 0 < cb
    ensures n == 0 ==> (n + cb - 1) / cb == 0
    ensures n > 0 ==> (n + cb - 1) / cb == (n - 1) / cb + 1
  {
    QuotIsDiv(n + cb - 1, cb);
    if n > 0 {
      QuotIsDiv(n - 1, cb);
    }
  }

  /** The source's rounding up. */
  method ClustersFor(g: Geometry, n: nat) returns (need: nat)
    requires g.Valid()
    ensures need == Need(g, n)
  {
    CeilDiv(g.ClusterBytes(), n);
    if n > 0 {
      Locate(g.spc, n - 1);
    }
    need := (n + g.ClusterBytes() - 1) / g.ClusterBytes();
  }

  lemma ChainInVolume(g: Geometry, t: Table, cs: seq<nat>)
    requires |t| == g.Limit() && Owns(t, cs)
    ensures InVolume(g, cs)
  {
  }

  /** Growing keeps the old bytes and adds zeros. */
  lemma RawGrown(g: Geometry, a: Image, b: Image, cs: seq<nat>, ch: seq<nat>)
    requires g.Valid() && Fits(g, a) && OwnSame(g, a, b, cs) && cs <= ch && InVolume(g, ch)
    requires AddedZero(g, b, cs, ch)
    ensures InVolume(g, cs) && Room(g, |cs|) <= Room(g, |ch|)
    ensures Raw(g, b, ch) == Raw(g, a, cs) + Zeros(Room(g, |ch|) - Room(g, |cs|))
  {
    assert InVolume(g, cs) by {
      forall i | 0 <= i < |cs| ensures g.InRange(cs[i]) {
        assert cs[i] == ch[i];
      }
    }
    RoomMonotone(g, |cs|, |ch|);
    var x, y := Raw(g, b, ch), Raw(g, a, cs);
    forall p | 0 <= p < |x| ensures x[p] == if p < |y| then y[p] else 0 {
      GrownAt(g, a, b, cs, ch, p);
    }
    ZeroTail(x, y);
  }

  lemma ZeroTail(x: seq<Byte>, y: seq<Byte>)
    requires |y| <= |x| && forall p :: 0 <= p < |x| ==> x[p] == if p < |y| then y[p] else 0
    ensures x == y + Zeros(|x| - |y|)
  {
  }

  lemma GrownAt(g: Geometry, a: Image, b: Image, cs: seq<nat>, ch: seq<nat>, p: nat)
    requires g.Valid() && Fits(g, a) && OwnSame(g, a, b, cs) && cs <= ch && InVolume(g, ch) && InVolume(g, cs)
    requires AddedZero(g, b, cs, ch) && p < Room(g, |ch|)
    ensures Raw(g, b, ch)[p] == if p < Room(g, |cs|) then Raw(g, a, cs)[p] else 0
  {
    RawAt(g, b, ch, p);
    RawAt(g, a, cs, p);
    GrownByte(g, a, b, cs, ch, p);
  }

  lemma GrownByte(g: Geometry, a: Image, b: Image, cs: seq<nat>, ch: seq<nat>, p: nat)
    requires g.Valid() && Fits(g, a) && OwnSame(g, a, b, cs) && cs <= ch && InVolume(g, ch) && InVolume(g, cs)
    requires AddedZero(g, b, cs, ch) && InFile(g, |ch|, p / 512)
    ensures FileByte(g, b, ch, p) == if InFile(g, |cs|, p / 512) then FileByte(g, a, cs, p) else 0
  {
    var q := p / 512;
    var i, s := Quot(q, g.spc), Rem(q, g.spc);
    if i < |cs| {
      assert cs[i] == ch[i];
      assert SameCluster(g, a, b, cs[i]);
      assert ClusterSector(g, a, cs[i], s) == ClusterSector(g, b, cs[i], s);
    } else {
      assert ZeroedCluster(g, b, ch[i]);
      assert ClusterSector(g, b, ch[i], s) == ZeroSector();
    }
  }

  lemma RawPatched(g: Geometry, a: Image, b: Image, cs: seq<nat>, pos: nat, src: seq<Byte>)
    requires g.Valid() && Fits(g, a) && InVolume(g, cs) && Patched(g, a, b, cs, pos, src)
    requires pos + |src| <= Room(g, |cs|)
    ensures Raw(g, b, cs) == Overwrite(Raw(g, a, cs), pos, src)
  {
    var z := Overwrite(Raw(g, a, cs), pos, src);
    assert |z| == Room(g, |cs|);
    forall p | 0 <= p < Room(g, |cs|) ensures Raw(g, b, cs)[p] == z[p] {
      RawAt(g, a, cs, p);
      RawAt(g, b, cs, p);
      assert PatchedAt(g, a, b, cs, pos, src, p);
    }
  }

  /** Cutting a chain cuts its bytes. */
  lemma RawCut(g: Geometry, d: Image, cs: seq<nat>, k: nat)
    requires g.Valid() && Fits(g, d) && InVolume(g, cs) && k <= |cs|
    ensures InVolume(g, cs[..k]) && Room(g, k) <= Room(g, |cs|)
    ensures Raw(g, d, cs[..k]) == Raw(g, d, cs)[..Room(g, k)]
  {
    RoomMonotone(g, k, |cs|);
    forall p | 0 <= p < Room(g, k) ensures Raw(g, d, cs[..k])[p] == Raw(g, d, cs)[p] {
      CutByte(g, d, cs, k, p);
    }
  }

  lemma CutByte(g: Geometry, d: Image, cs: seq<nat>, k: nat, p: nat)
    requires g.Valid() && Fits(g, d) && InVolume(g, cs) && k <= |cs| && InVolume(g, cs[..k])
    requires p < Room(g, k) <= Room(g, |cs|)
    ensures Raw(g, d, cs[..k])[p] == Raw(g, d, cs)[p]
  {
    RawAt(g, d, cs, p);
    RawAt(g, d, cs[..k], p);
  }

  /** `after` is `before`, padded with zeros, with `data` stored at `offset`. */
  ghost predicate Stored(before: seq<Byte>, after: seq<Byte>, offset: nat, data: seq<Byte>) {
    && |before| <= |after|
    && offset + |data| <= |after|
    && after == Overwrite(Padded(before, |after|), offset, data)
  }

  lemma GrownAndPatched(g: Geometry, a: Image, cs: seq<nat>, b: Image, d: Image, ch: seq<nat>, offset: nat,
      data: seq<Byte>)
    requires g.Valid() && Fits(g, a) && OwnSame(g, a, b, cs) && cs <= ch && InVolume(g, cs) && InVolume(g, ch)
    requires AddedZero(g, b, cs, ch) && Need(g, offset + |data|) <= |ch|
    requires Patched(g, b, d, ch, offset, data)
    ensures Stored(Raw(g, a, cs), Raw(g, d, ch), offset, data)
  {
    RawGrown(g, a, b, cs, ch);
    NeedLeast(g, offset + |data|, |ch|);
    RawPatched(g, b, d, ch, offset, data);
  }

  /** `fat_write_raw`. When the volume has the space for the whole range, exactly `data` lands at
      `offset`, any clusters added are zero elsewhere and nothing else changes; when it has not,
      nothing changes at all. */
  method WriteRaw(fat: Fat, first: nat, offset: nat, data: seq<Byte>, ghost cs: seq<nat>)
    returns (ok: bool, head: nat, touched: bool, ghost ch: seq<nat>)
    requires fat.Valid() && Owns(fat.dev.fat, cs) && HeadOf(cs, first)
    requires offset + |data| + fat.dev.g.ClusterBytes() < WORD
    modifies fat, fat.dev
    ensures fat.Valid() && Owns(fat.dev.fat, ch) && HeadOf(ch, head) && InVolume(fat.dev.g, cs)
    ensures InVolume(fat.dev.g, ch)
    ensures var need := Need(fat.dev.g, offset + |data|);
      && (ok <==> need - |cs| <= FreeCount(old(fat.dev.fat)))
      && (ok ==> cs <= ch && |ch| == if |cs| < need then need else |cs|)
      && (touched <==> first < 2 && need > 0 && FreeCount(old(fat.dev.fat)) > 0)
    ensures (head == first || (cs == [] && touched)) && (ch == [] || head < FAT_BAD)
    ensures ok ==> Stored(Raw(fat.dev.g, old(fat.dev.sectors), cs), Raw(fat.dev.g, fat.dev.sectors, ch), offset, data)
    ensures FreeCount(fat.dev.fat) + |ch| == FreeCount(old(fat.dev.fat)) + |cs|
    ensures !ok ==> ch == cs && head == first && FreeSet(fat.dev.fat) == FreeSet(old(fat.dev.fat))
    ensures !ok ==> Raw(fat.dev.g, fat.dev.sectors, cs) == Raw(fat.dev.g, old(fat.dev.sectors), cs)
    ensures Evolves(fat.dev.g, old(View(fat, cs, cs != [])), View(fat, ch, cs != []))
    ensures old(fat.Exact()) ==> fat.Exact()
  {
    ghost var g, a, live := fat.dev.g, View(fat, cs, cs != []), cs != [];
    ChainInVolume(g, fat.dev.fat, cs);
    var need := ClustersFor(fat.dev.g, offset + |data|);
    ok, head, touched, ch := EnsureChain(fat, first, need, cs);
    ChainInVolume(g, fat.dev.fat, ch);
    if !ok {
      RawFrame(g, a.image, fat.dev.sectors, cs);
      CappedSame(a.table, cs);
      return;
    }
    ghost var b := View(fat, ch, live);
    var _ := WriteLoop(fat, head, offset, data, ch, live);
    GrownAndPatched(g, a.image, cs, b.image, fat.dev.sectors, ch, offset, data);
    EvolvesTrans(g, a, b, View(fat, ch, live));
  }

  /** What a read returns, as a slice of the file's byte string. */
  lemma ChunkIsSlice(g: Geometry, d: Image, cs: seq<nat>, offset: nat, out: seq<Byte>)
    requires g.Valid() && Fits(g, d) && InVolume(g, cs) && IsChunk(g, d, cs, offset, out)
    requires offset + |out| <= Room(g, |cs|)
    ensures out == Raw(g, d, cs)[offset..offset + |out|]
  {
    var r := Raw(g, d, cs);
    forall k | 0 <= k < |out| ensures out[k] == r[offset..offset + |out|][k] {
      assert ByteIs(g, d, cs, offset + k, out[k]);
      RawAt(g, d, cs, offset + k);
    }
  }

  /** A write inside the file or at its end replaces the range and keeps everything else. */
  lemma WriteInside(before: seq<Byte>, after: seq<Byte>, length: nat, offset: nat, data: seq<Byte>)
    requires Stored(before, after, offset, data) && offset <= length <= |before|
    ensures var end := if offset + |data| > length then offset + |data| else length;
      after[..end] ==
        before[..offset] + data + (if offset + |data| < length then before[offset + |data|..length] else [])
  {
  }

  /** `r` is `b` with zeros from `lo` to `hi`. */
  ghost predicate Scrubbed(b: seq<Byte>, r: seq<Byte>, lo: nat, hi: nat) {
    |r| == |b| && forall i :: 0 <= i < |b| ==> r[i] == if lo <= i < hi then 0 else b[i]
  }

  lemma ScrubMore(b: seq<Byte>, r: seq<Byte>, r': seq<Byte>, lo: nat, mid: nat, n: nat)
    requires Scrubbed(b, r, lo, mid) && lo <= mid && |r'| == |r| && Stored(r, r', mid, Zeros(n))
    ensures Scrubbed(b, r', lo, mid + n)
  {
    assert Padded(r, |r'|) == r;
  }

  /** Padding, then clearing what the old clusters held beyond the end of file, leaves exactly the old
      contents followed by zeros. */
  lemma GrownContents(before: seq<Byte>, padded: seq<Byte>, after: seq<Byte>, old_len: nat, length: nat)
    requires Stored(before, padded, length, []) && old_len <= |before| && old_len <= length <= |padded|
    requires Scrubbed(padded, after, old_len, if length < |before| then length else |before|)
    ensures after[..length] == Padded(before[..old_len], length)
  {
    assert padded == Padded(before, |padded|);
  }
}
