/** Reading and writing file bytes through a cluster chain (kernel/fat32.c:748-835). */
module FileIo {
  import opened Bytes
  import opened Geometry
  import opened Chains
  import opened FatCache
  import opened ClusterData
  import opened Quotient
  import opened Evolution
  import opened Allocation
  import opened Growth

  /** Consecutive sectors of one cluster are consecutive sectors of the file. */
  lemma RunLba(g: Geometry, cs: seq<nat>, q: nat, j: nat)
    requires g.Valid() && InVolume(g, cs) && InFile(g, |cs|, q)
    requires Rem(q, g.spc) + j < g.spc
    ensures InFile(g, |cs|, q + j) && LbaOf(g, cs, q + j) == LbaOf(g, cs, q) + j
  {
    RunQuot(g.spc, q, j);
  }

  lemma RunQuot(n: nat, q: nat, j: nat)
    requires 0 < n && Rem(q, n) + j < n
    ensures Quot(q + j, n) == Quot(q, n) && Rem(q + j, n) == Rem(q, n) + j
  {
    QuotRem(q, n);
    QuotOf(n, Quot(q, n), Rem(q, n) + j);
  }

  /** How many sectors are left in the cluster from a sector-aligned position. */
  lemma LeftInCluster(spc: nat, pos: nat)
    requires 0 < spc && pos % 512 == 0
    ensures 0 < spc * 512
    ensures (spc * 512 - pos % (spc * 512)) / 512 == spc - Rem(pos / 512, spc)
  {
    Locate(spc, pos);
    var w := pos % (spc * 512);
    assert w % 512 == 0;
    assert w == Rem(pos / 512, spc) * 512;
  }

  /** `b` is what the file holds from position `pos` on. */
  ghost predicate IsChunk(g: Geometry, d: Image, cs: seq<nat>, pos: nat, b: seq<Byte>)
    requires g.Valid() && Fits(g, d) && InVolume(g, cs)
  {
    forall k :: 0 <= k < |b| ==> ByteIs(g, d, cs, pos + k, b[k])
  }

  ghost predicate ByteIs(g: Geometry, d: Image, cs: seq<nat>, p: nat, v: Byte)
    requires g.Valid() && Fits(g, d) && InVolume(g, cs)
  {
    InFile(g, |cs|, p / 512) && FileByte(g, d, cs, p) == v
  }

  lemma SameSector(pos: nat, k: nat)
    requires pos % 512 + k < 512
    ensures (pos + k) / 512 == pos / 512 && (pos + k) % 512 == pos % 512 + k
  {
  }

  lemma RunSector(pos: nat, k: nat)
    requires pos % 512 == 0
    ensures (pos + k) / 512 == pos / 512 + k / 512 && (pos + k) % 512 == k % 512
  {
  }

  method ReadRun(dev: FatCache, lba: nat, want: nat) returns (b: seq<Byte>)
    requires lba + want <= |dev.sectors|
    ensures |b| == want * 512
    ensures forall k :: 0 <= k < |b| ==> b[k] == dev.sectors[lba + k / 512][k % 512]
  {
    b := [];
    for j := 0 to want
      invariant |b| == j * 512
      invariant forall k :: 0 <= k < |b| ==> b[k] == dev.sectors[lba + k / 512][k % 512]
    {
      b := b + dev.sectors[lba + j];
    }
  }

  method ClusterIndex(g: Geometry, pos: nat) returns (i: nat)
    requires g.Valid()
    ensures i == Quot(pos / 512, g.spc)
  {
    Locate(g.spc, pos);
    i := pos / g.ClusterBytes();
  }

  /** One pass of the read loop: a run of whole sectors, or part of one sector. */
  method ReadChunk(dev: FatCache, cluster: nat, pos: nat, left: nat, ghost cs: seq<nat>) returns (b: seq<Byte>)
    requires dev.Valid() && InVolume(dev.g, cs) && 0 < left
    requires InFile(dev.g, |cs|, pos / 512) && cluster == cs[Quot(pos / 512, dev.g.spc)]
    ensures 0 < |b| <= left && IsChunk(dev.g, dev.sectors, cs, pos, b)
  {
    var g := dev.g;
    Locate(g.spc, pos);
    ghost var q := pos / 512;
    var within := pos % g.ClusterBytes();
    var lba := g.ClusterLba(cluster) + within / 512;
    assert lba == LbaOf(g, cs, q);
    var secOff := within % 512;
    var chunk := 512 - secOff;
    if chunk > left {
      chunk := left;
    }
    if secOff == 0 && chunk == 512 {
      LeftInCluster(g.spc, pos);
      var want := left / 512;
      if want > (g.ClusterBytes() - within) / 512 {
        want := (g.ClusterBytes() - within) / 512;
      }
      RunLba(g, cs, q, want - 1);
      b := ReadRun(dev, lba, want);
      RunIsChunk(g, dev.sectors, cs, pos, want, b);
    } else {
      b := dev.sectors[lba][secOff..secOff + chunk];
      PartIsChunk(g, dev.sectors, cs, pos, b);
    }
  }

  lemma PartIsChunk(g: Geometry, d: Image, cs: seq<nat>, pos: nat, b: seq<Byte>)
    requires g.Valid() && Fits(g, d) && InVolume(g, cs) && InFile(g, |cs|, pos / 512)
    requires pos % 512 + |b| <= 512
    requires b == d[LbaOf(g, cs, pos / 512)][pos % 512..pos % 512 + |b|]
    ensures IsChunk(g, d, cs, pos, b)
  {
    forall k | 0 <= k < |b| ensures ByteIs(g, d, cs, pos + k, b[k]) {
      SameSector(pos, k);
    }
  }

  lemma RunIsChunk(g: Geometry, d: Image, cs: seq<nat>, pos: nat, want: nat, b: seq<Byte>)
    requires g.Valid() && Fits(g, d) && InVolume(g, cs) && InFile(g, |cs|, pos / 512)
    requires pos % 512 == 0 && Rem(pos / 512, g.spc) + want <= g.spc
    requires LbaOf(g, cs, pos / 512) + want <= |d|
    requires |b| == want * 512
    requires forall k :: 0 <= k < |b| ==> b[k] == d[LbaOf(g, cs, pos / 512) + k / 512][k % 512]
    ensures IsChunk(g, d, cs, pos, b)
  {
    forall k | 0 <= k < |b| ensures ByteIs(g, d, cs, pos + k, b[k]) {
      RunByte(g, d, cs, pos, want, k);
    }
  }

  lemma RunByte(g: Geometry, d: Image, cs: seq<nat>, pos: nat, want: nat, k: nat)
    requires g.Valid() && Fits(g, d) && InVolume(g, cs) && InFile(g, |cs|, pos / 512)
    requires pos % 512 == 0 && Rem(pos / 512, g.spc) + want <= g.spc && k < want * 512
    requires LbaOf(g, cs, pos / 512) + want <= |d|
    ensures ByteIs(g, d, cs, pos + k, d[LbaOf(g, cs, pos / 512) + k / 512][k % 512])
  {
    var q, j := pos / 512, k / 512;
    RunSector(pos, k);
    RunLba(g, cs, q, j);
  }

  /** Byte `p` of the file after `src` was stored at `pos`. */
  ghost predicate PatchedAt(g: Geometry, a: Image, b: Image, cs: seq<nat>, pos: nat, src: seq<Byte>, p: nat)
    requires g.Valid() && Fits(g, a) && Fits(g, b) && InVolume(g, cs)
  {
    InFile(g, |cs|, p / 512) ==>
      FileByte(g, b, cs, p) == if pos <= p < pos + |src| then src[p - pos] else FileByte(g, a, cs, p)
  }

  /** From device `a` to `b`: the file stored in `cs` holds `src` at `pos` and is otherwise as it was,
      and no other cluster changed. */
  ghost predicate Patched(g: Geometry, a: Image, b: Image, cs: seq<nat>, pos: nat, src: seq<Byte>)
    requires g.Valid() && Fits(g, a) && InVolume(g, cs)
  {
    && Fits(g, b)
    && (forall p: nat :: PatchedAt(g, a, b, cs, pos, src, p))
    && forall c :: g.InRange(c) && c !in cs ==> SameCluster(g, a, b, c)
  }

  lemma PatchedTrans(g: Geometry, a: Image, b: Image, d: Image, cs: seq<nat>, pos: nat, s1: seq<Byte>, s2: seq<Byte>)
    requires g.Valid() && Fits(g, a) && InVolume(g, cs)
    requires Patched(g, a, b, cs, pos, s1) && Patched(g, b, d, cs, pos + |s1|, s2)
    ensures Patched(g, a, d, cs, pos, s1 + s2)
  {
    forall p: nat ensures PatchedAt(g, a, d, cs, pos, s1 + s2, p) {
      assert PatchedAt(g, a, b, cs, pos, s1, p) && PatchedAt(g, b, d, cs, pos + |s1|, s2, p);
    }
    forall c | g.InRange(c) && c !in cs ensures SameCluster(g, a, d, c) {
      SameClusterTrans(g, a, b, d, c);
    }
  }

  /** A change of the table region alone changes no file. */
  lemma PatchedNone(g: Geometry, a: Image, b: Image, cs: seq<nat>, pos: nat)
    requires g.Valid() && Fits(g, a) && InVolume(g, cs) && SameOutsideFat(g, b, a)
    ensures Patched(g, a, b, cs, pos, [])
  {
    forall c | g.InRange(c) ensures SameCluster(g, a, b, c) {
      FatFrame(g, a, b, c);
    }
    forall p: nat ensures PatchedAt(g, a, b, cs, pos, [], p) {
      if InFile(g, |cs|, p / 512) {
        ByteFrame(g, a, b, cs, p);
      }
    }
  }

  /** Storing one sector whose bytes differ from the old ones in `src` only. */
  lemma PatchSector(g: Geometry, a: Image, cs: seq<nat>, pos: nat, src: seq<Byte>, w: Sector)
    requires g.Valid() && Fits(g, a) && InVolume(g, cs) && Distinct(cs) && InFile(g, |cs|, pos / 512)
    requires pos % 512 + |src| <= 512
    requires forall o :: 0 <= o < 512 ==>
      w[o] == if pos % 512 <= o < pos % 512 + |src| then src[o - pos % 512] else a[LbaOf(g, cs, pos / 512)][o]
    ensures Patched(g, a, a[LbaOf(g, cs, pos / 512) := w], cs, pos, src)
  {
    var q := pos / 512;
    var b := a[LbaOf(g, cs, q) := w];
    forall p: nat ensures PatchedAt(g, a, b, cs, pos, src, p) {
      if InFile(g, |cs|, p / 512) {
        WriteFileSector(g, a, cs, q, w, p);
        InSector(pos, |src|, p);
      }
    }
    forall c | g.InRange(c) && c !in cs ensures SameCluster(g, a, b, c) {
      SectorFrame(g, a, cs[Quot(q, g.spc)], Rem(q, g.spc), w, c);
    }
  }

  lemma InSector(pos: nat, n: nat, p: nat)
    requires pos % 512 + n <= 512
    ensures pos <= p < pos + n <==> p / 512 == pos / 512 && pos % 512 <= p % 512 < pos % 512 + n
    ensures p / 512 == pos / 512 ==> p - pos == p % 512 - pos % 512
  {
  }

  /** Writes one sector of the file. */
  method PutSector(fat: Fat, lba: nat, w: Sector, ghost q: nat, ghost cs: seq<nat>, ghost live: bool)
    requires fat.Valid() && IsChain(fat.dev.fat, cs) && InVolume(fat.dev.g, cs)
    requires InFile(fat.dev.g, |cs|, q) && lba == LbaOf(fat.dev.g, cs, q)
    modifies fat.dev
    ensures fat.Valid() && fat.dev.fat == old(fat.dev.fat)
    ensures fat.dev.sectors == old(fat.dev.sectors)[lba := w]
    ensures fat.dev.Holds() == old(fat.dev.Holds())
    ensures fat.dev.log == old(fat.dev.log) + [Moment(fat.dev.sectors, fat.dev.disk)]
    ensures old(fat.Exact()) ==> fat.Exact()
    ensures Evolves(fat.dev.g, old(View(fat, cs, live)), View(fat, cs, live))
  {
    ghost var a, g := View(fat, cs, live), fat.dev.g;
    fat.dev.WriteSector(lba, w);
    DataStep(g, a, View(fat, cs, live), cs[Quot(q, g.spc)], Rem(q, g.spc), w);
  }

  /** Overwrites one whole sector of the file. */
  method PutWhole(fat: Fat, lba: nat, w: Sector, ghost pos: nat, ghost cs: seq<nat>, ghost live: bool)
    requires fat.Valid() && IsChain(fat.dev.fat, cs) && InVolume(fat.dev.g, cs) && pos % 512 == 0
    requires InFile(fat.dev.g, |cs|, pos / 512) && lba == LbaOf(fat.dev.g, cs, pos / 512)
    modifies fat.dev
    ensures fat.Valid() && fat.dev.fat == old(fat.dev.fat)
    ensures Patched(fat.dev.g, old(fat.dev.sectors), fat.dev.sectors, cs, pos, w)
    ensures Evolves(fat.dev.g, old(View(fat, cs, live)), View(fat, cs, live))
  {
    ChainAcyclic(fat.dev.fat, cs);
    PatchSector(fat.dev.g, fat.dev.sectors, cs, pos, w, w);
    PutSector(fat, lba, w, pos / 512, cs, live);
  }

  /** Writes `want` consecutive whole sectors, one at a time. */
  method WriteRun(fat: Fat, lba: nat, want: nat, src: seq<Byte>, ghost pos: nat, ghost cs: seq<nat>, ghost live: bool)
    requires fat.Valid() && IsChain(fat.dev.fat, cs) && InVolume(fat.dev.g, cs)
    requires InFile(fat.dev.g, |cs|, pos / 512) && lba == LbaOf(fat.dev.g, cs, pos / 512)
    requires pos % 512 == 0 && Rem(pos / 512, fat.dev.g.spc) + want <= fat.dev.g.spc && |src| == want * 512
    modifies fat.dev
    ensures fat.Valid() && fat.dev.fat == old(fat.dev.fat)
    ensures Patched(fat.dev.g, old(fat.dev.sectors), fat.dev.sectors, cs, pos, src)
    ensures Evolves(fat.dev.g, old(View(fat, cs, live)), View(fat, cs, live))
  {
    ghost var a, g := View(fat, cs, live), fat.dev.g;
    EvolvesRefl(g, a);
    PatchedNone(g, a.image, a.image, cs, pos);
    assert src[..0] == [];
    for j := 0 to want
      invariant fat.Valid() && fat.dev.fat == old(fat.dev.fat)
      invariant Patched(g, a.image, fat.dev.sectors, cs, pos, src[..512 * j])
      invariant Evolves(g, a, View(fat, cs, live))
    {
      ghost var b := View(fat, cs, live);
      var w: Sector := src[512 * j..512 * j + 512];
      assert (pos + 512 * j) / 512 == pos / 512 + j && (pos + 512 * j) % 512 == 0 by {
        RunSector(pos, 512 * j);
      }
      RunLba(g, cs, pos / 512, j);
      PutWhole(fat, lba + j, w, pos + 512 * j, cs, live);
      PatchedTrans(g, a.image, b.image, fat.dev.sectors, cs, pos, src[..512 * j], w);
      assert src[..512 * j] + w == src[..512 * (j + 1)];
      EvolvesTrans(g, a, b, View(fat, cs, live));
    }
    assert src[..512 * want] == src;
  }

  /** One pass of the write loop: a run of whole sectors, or a read-modify-write of part of one. */
  method WriteChunk(fat: Fat, cluster: nat, pos: nat, src: seq<Byte>, ghost cs: seq<nat>, ghost live: bool)
    returns (n: nat)
    requires fat.Valid() && IsChain(fat.dev.fat, cs) && InVolume(fat.dev.g, cs) && src != []
    requires InFile(fat.dev.g, |cs|, pos / 512) && cluster == cs[Quot(pos / 512, fat.dev.g.spc)]
    modifies fat.dev
    ensures fat.Valid() && fat.dev.fat == old(fat.dev.fat)
    ensures 0 < n <= |src| && Patched(fat.dev.g, old(fat.dev.sectors), fat.dev.sectors, cs, pos, src[..n])
    ensures Evolves(fat.dev.g, old(View(fat, cs, live)), View(fat, cs, live))
  {
    var g := fat.dev.g;
    Locate(g.spc, pos);
    ghost var q := pos / 512;
    var within := pos % g.ClusterBytes();
    var lba := g.ClusterLba(cluster) + within / 512;
    assert lba == LbaOf(g, cs, q);
    var secOff := within % 512;
    n := 512 - secOff;
    if n > |src| {
      n := |src|;
    }
    if secOff == 0 && n == 512 {
      LeftInCluster(g.spc, pos);
      var want := |src| / 512;
      if want > (g.ClusterBytes() - within) / 512 {
        want := (g.ClusterBytes() - within) / 512;
      }
      n := want * 512;
      WriteRun(fat, lba, want, src[..n], pos, cs, live);
    } else {
      var s := fat.dev.sectors[lba];
      var w: Sector := s[..secOff] + src[..n] + s[secOff + n..];
      ChainAcyclic(fat.dev.fat, cs);
      PatchSector(g, fat.dev.sectors, cs, pos, src[..n], w);
      PutSector(fat, lba, w, q, cs, live);
    }
  }

  /** The body of the read loop: finds the cluster and reads from it; nothing past the chain's end. */
  method NextChunk(fat: Fat, first: nat, pos: nat, left: nat, ghost cs: seq<nat>, ghost live: bool)
    returns (b: seq<Byte>)
    requires fat.Valid() && Owns(fat.dev.fat, cs) && HeadOf(cs, first) && InVolume(fat.dev.g, cs) && 0 < left
    modifies fat.dev, fat`memoFirst, fat`memoIndex, fat`memoCluster, fat`linkSteps
    ensures fat.Valid() && fat.dev.fat == old(fat.dev.fat)
    ensures SameOutsideFat(fat.dev.g, fat.dev.sectors, old(fat.dev.sectors))
    ensures |b| <= left && IsChunk(fat.dev.g, fat.dev.sectors, cs, pos, b)
    ensures b == [] <==> !InFile(fat.dev.g, |cs|, pos / 512)
    ensures old(!fat.dev.dirty) ==> !fat.dev.dirty
    ensures var index := Quot(pos / 512, fat.dev.g.spc);
      && fat.linkSteps <= old(fat.linkSteps) + index
      && (old(fat.memoCluster) >= 2 && old(fat.memoFirst) == first && old(fat.memoIndex) <= index ==>
            fat.linkSteps <= old(fat.linkSteps) + index - old(fat.memoIndex))
      && (b != [] ==> fat.memoCluster >= 2 && fat.memoFirst == first && fat.memoIndex == index)
    ensures Evolves(fat.dev.g, old(View(fat, cs, live)), View(fat, cs, live))
  {
    var index := ClusterIndex(fat.dev.g, pos);
    var cluster := NthOf(fat, first, index, cs, live);
    if cluster == 0 {
      return [];
    }
    b := ReadChunk(fat.dev, cluster, pos, left, cs);
  }

  /** Reads up to `size` bytes from `offset`: exactly what the chain holds there, stopping where the
      chain ends, with no more link steps than the index of the last cluster it could ask for. */
  method ReadRaw(fat: Fat, first: nat, offset: nat, size: nat, ghost cs: seq<nat>, ghost live: bool)
    returns (out: seq<Byte>)
    requires fat.Valid() && Owns(fat.dev.fat, cs) && HeadOf(cs, first) && InVolume(fat.dev.g, cs)
    requires offset + size < WORD
    modifies fat.dev, fat`memoFirst, fat`memoIndex, fat`memoCluster, fat`linkSteps
    ensures fat.Valid() && fat.dev.fat == old(fat.dev.fat)
    ensures SameOutsideFat(fat.dev.g, fat.dev.sectors, old(fat.dev.sectors))
    ensures |out| <= size && IsChunk(fat.dev.g, old(fat.dev.sectors), cs, offset, out)
    ensures |out| < size ==> !InFile(fat.dev.g, |cs|, (offset + |out|) / 512)
    ensures old(!fat.dev.dirty) ==> !fat.dev.dirty
    ensures size > 0 ==> fat.linkSteps <= old(fat.linkSteps) + Quot((offset + size - 1) / 512, fat.dev.g.spc)
    ensures Evolves(fat.dev.g, old(View(fat, cs, live)), View(fat, cs, live))
  {
    ghost var a, g := View(fat, cs, live), fat.dev.g;
    ghost var asked: nat := 0;   // the index of the cluster last asked for
    EvolvesRefl(g, a);
    out := [];
    while |out| < size
      invariant fat.Valid() && fat.dev.fat == old(fat.dev.fat) && (old(!fat.dev.dirty) ==> !fat.dev.dirty)
      invariant SameOutsideFat(g, fat.dev.sectors, old(fat.dev.sectors))
      invariant |out| <= size && IsChunk(g, a.image, cs, offset, out)
      invariant Evolves(g, a, View(fat, cs, live))
      invariant fat.linkSteps <= old(fat.linkSteps) + asked
      invariant out == [] ==> asked == 0
      invariant out != [] ==> fat.memoCluster >= 2 && fat.memoFirst == first && fat.memoIndex == asked
      invariant asked <= Quot((offset + |out|) / 512, g.spc)
      invariant size > 0 ==> asked <= Quot((offset + size - 1) / 512, g.spc)
      decreases size - |out|
    {
      var pos := offset + |out|;
      ghost var b := View(fat, cs, live);
      var chunk := NextChunk(fat, first, pos, size - |out|, cs, live);
      EvolvesTrans(g, a, b, View(fat, cs, live));
      asked := Quot(pos / 512, g.spc);
      QuotMonotone(pos / 512, (offset + size - 1) / 512, g.spc);
      if chunk == [] {
        break;
      }
      ChunkAppend(g, a.image, fat.dev.sectors, cs, offset, out, chunk);
      QuotMonotone(pos / 512, (pos + |chunk|) / 512, g.spc);
      out := out + chunk;
    }
  }

  lemma ChunkAppend(g: Geometry, a: Image, b: Image, cs: seq<nat>, offset: nat, out: seq<Byte>, chunk: seq<Byte>)
    requires g.Valid() && Fits(g, a) && InVolume(g, cs) && SameOutsideFat(g, b, a)
    requires IsChunk(g, a, cs, offset, out) && IsChunk(g, b, cs, offset + |out|, chunk)
    ensures IsChunk(g, a, cs, offset, out + chunk)
  {
    PatchedNone(g, a, b, cs, 0);
    forall k | 0 <= k < |out + chunk| ensures ByteIs(g, a, cs, offset + k, (out + chunk)[k]) {
      if k >= |out| {
        assert ByteIs(g, b, cs, offset + |out| + (k - |out|), chunk[k - |out|]);
        assert PatchedAt(g, a, b, cs, 0, [], offset + k);
      }
    }
  }

  /** Stores `data` at `offset` in a chain that already reaches its end. */
  method WriteLoop(fat: Fat, first: nat, offset: nat, data: seq<Byte>, ghost cs: seq<nat>, ghost live: bool)
    returns (done: nat)
    requires fat.Valid() && Owns(fat.dev.fat, cs) && HeadOf(cs, first) && InVolume(fat.dev.g, cs)
    requires data != [] ==> InFile(fat.dev.g, |cs|, (offset + |data| - 1) / 512)
    modifies fat.dev, fat`memoFirst, fat`memoIndex, fat`memoCluster, fat`linkSteps
    ensures fat.Valid() && fat.dev.fat == old(fat.dev.fat)
    ensures done == |data| && Patched(fat.dev.g, old(fat.dev.sectors), fat.dev.sectors, cs, offset, data)
    ensures Evolves(fat.dev.g, old(View(fat, cs, live)), View(fat, cs, live))
  {
    ghost var a, g := View(fat, cs, live), fat.dev.g;
    EvolvesRefl(g, a);
    PatchedNone(g, a.image, a.image, cs, offset);
    assert data[..0] == [];
    done := 0;
    while done < |data|
      invariant fat.Valid() && fat.dev.fat == old(fat.dev.fat)
      invariant done <= |data| && Patched(g, a.image, fat.dev.sectors, cs, offset, data[..done])
      invariant Evolves(g, a, View(fat, cs, live))
    {
      var pos := offset + done;
      ghost var b := View(fat, cs, live);
      QuotMonotone(pos / 512, (offset + |data| - 1) / 512, g.spc);
      var n := WriteNext(fat, first, pos, data[done..], cs, live);
      PatchedTrans(g, a.image, b.image, fat.dev.sectors, cs, offset, data[..done], data[done..][..n]);
      assert data[..done] + data[done..][..n] == data[..done + n];
      EvolvesTrans(g, a, b, View(fat, cs, live));
      done := done + n;
    }
    assert data[..done] == data;
  }

  /** The body of the write loop: finds the cluster and writes into it. */
  method WriteNext(fat: Fat, first: nat, pos: nat, src: seq<Byte>, ghost cs: seq<nat>, ghost live: bool)
    returns (n: nat)
    requires fat.Valid() && Owns(fat.dev.fat, cs) && HeadOf(cs, first) && InVolume(fat.dev.g, cs)
    requires src != [] && InFile(fat.dev.g, |cs|, pos / 512)
    modifies fat.dev, fat`memoFirst, fat`memoIndex, fat`memoCluster, fat`linkSteps
    ensures fat.Valid() && fat.dev.fat == old(fat.dev.fat)
    ensures 0 < n <= |src| && Patched(fat.dev.g, old(fat.dev.sectors), fat.dev.sectors, cs, pos, src[..n])
    ensures Evolves(fat.dev.g, old(View(fat, cs, live)), View(fat, cs, live))
  {
    ghost var a, g := View(fat, cs, live), fat.dev.g;
    var index := ClusterIndex(fat.dev.g, pos);
    var cluster := NthOf(fat, first, index, cs, live);
    ghost var b := View(fat, cs, live);
    PatchedNone(g, a.image, b.image, cs, pos);
    n := WriteChunk(fat, cluster, pos, src, cs, live);
    PatchedTrans(g, a.image, b.image, fat.dev.sectors, cs, pos, [], src[..n]);
    assert [] + src[..n] == src[..n];
    EvolvesTrans(g, a, b, View(fat, cs, live));
  }
}
