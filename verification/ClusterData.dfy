/** A file as the concatenation of its clusters: where each byte lives on the device, and what
    writing a sector does to the files that own it and to those that do not
    (kernel/fat32.c:196-198, kernel/fat32.c:748-835). */
module ClusterData {
  import opened Bytes
  import opened Quotient
  import opened Geometry
  import opened Chains
  import opened FatCache

  lemma IndexBelow(spc: nat, n: nat, q: nat)
    requires 0 < spc
    ensures q < n * spc <==> Quot(q, spc) < n
  {
    QuotRem(q, spc);
    if Quot(q, spc) < n {
      MulStep(spc, Quot(q, spc), n);
    } else if n < Quot(q, spc) {
      MulStep(spc, n, Quot(q, spc));
    }
  }

  /** The source splits a position by cluster and then by sector; splitting by sector and then by
      cluster names the same place. */
  lemma Locate(spc: nat, p: nat)
    requires 0 < spc
    ensures 0 < spc * 512
    ensures p / (spc * 512) == Quot(p / 512, spc)
    ensures p % (spc * 512) / 512 == Rem(p / 512, spc)
    ensures p % (spc * 512) % 512 == p % 512
  {
    var q, o := p / 512, p % 512;
    var i, s := Quot(q, spc), Rem(q, spc);
    QuotRem(q, spc);
    var n, r := spc * 512, s * 512 + o;
    assert i * n == i * spc * 512;
    assert p == i * n + r;
    QuotOf(n, i, r);
    QuotIsDiv(p, n);
  }

  ghost predicate InVolume(g: Geometry, cs: seq<nat>) {
    forall i :: 0 <= i < |cs| ==> g.InRange(cs[i])
  }

  /** File sector `q` lies in one of `n` clusters. */
  ghost predicate InFile(g: Geometry, n: nat, q: nat)
    requires g.Valid()
  {
    Quot(q, g.spc) < n
  }

  /** How many bytes `n` clusters hold; `n * ClusterBytes()` without the product. */
  ghost function Room(g: Geometry, n: nat): nat {
    if n == 0 then 0 else Room(g, n - 1) + g.ClusterBytes()
  }

  lemma {:induction false} RoomIs(g: Geometry, n: nat)
    ensures Room(g, n) == n * g.ClusterBytes()
  {
    if n > 0 {
      RoomIs(g, n - 1);
      assert n * g.ClusterBytes() == (n - 1) * g.ClusterBytes() + g.ClusterBytes();
    }
  }

  lemma RoomMonotone(g: Geometry, m: nat, n: nat)
    requires m <= n
    ensures Room(g, m) <= Room(g, n)
    ensures m < n ==> Room(g, m) + g.ClusterBytes() <= Room(g, n)
  {
    RoomIs(g, m);
    RoomIs(g, n);
    if m < n {
      MulStep(g.ClusterBytes(), m, n);
    }
  }

  lemma ByteIndex(g: Geometry, n: nat, p: nat)
    requires g.Valid()
    ensures p < Room(g, n) <==> InFile(g, n, p / 512)
  {
    RoomSectors(g, n);
    IndexBelow(g.spc, n, p / 512);
  }

  lemma {:induction false} RoomSectors(g: Geometry, n: nat)
    ensures Room(g, n) == n * g.spc * 512
  {
    if n > 0 {
      RoomSectors(g, n - 1);
      assert n * g.spc == (n - 1) * g.spc + g.spc;
    }
  }

  /** The device sector of file sector `q`. */
  ghost function LbaOf(g: Geometry, cs: seq<nat>, q: nat): (l: nat)
    requires g.Valid() && InVolume(g, cs) && InFile(g, |cs|, q)
    ensures g.dataLba <= l < g.deviceSectors
  {
    ClusterInRegion(g, cs[Quot(q, g.spc)], Rem(q, g.spc));
    g.ClusterLba(cs[Quot(q, g.spc)]) + Rem(q, g.spc)
  }

  lemma LbaInjective(g: Geometry, cs: seq<nat>, q: nat, q': nat)
    requires g.Valid() && InVolume(g, cs) && Distinct(cs) && InFile(g, |cs|, q) && InFile(g, |cs|, q')
    requires LbaOf(g, cs, q) == LbaOf(g, cs, q')
    ensures q == q'
  {
    ClusterInjective(g, cs[Quot(q, g.spc)], Rem(q, g.spc), cs[Quot(q', g.spc)], Rem(q', g.spc));
    QuotInjective(g.spc, q, q');
  }

  /** Byte `p` of the file stored in the clusters `cs` of device `d`. */
  ghost function FileByte(g: Geometry, d: Image, cs: seq<nat>, p: nat): Byte
    requires g.Valid() && Fits(g, d) && InVolume(g, cs) && InFile(g, |cs|, p / 512)
  {
    d[LbaOf(g, cs, p / 512)][p % 512]
  }

  lemma FileByteDefined(g: Geometry, n: nat)
    requires g.Valid()
    ensures forall p :: 0 <= p < Room(g, n) ==> InFile(g, n, p / 512)
  {
    forall p | 0 <= p < Room(g, n) ensures InFile(g, n, p / 512) {
      ByteIndex(g, n, p);
    }
  }

  /** All the bytes the clusters `cs` hold, in file order. */
  ghost function Raw(g: Geometry, d: Image, cs: seq<nat>): (b: seq<Byte>)
    requires g.Valid() && Fits(g, d) && InVolume(g, cs)
    ensures |b| == Room(g, |cs|)
  {
    FileByteDefined(g, |cs|);
    seq(Room(g, |cs|), p requires 0 <= p < Room(g, |cs|) => FileByte(g, d, cs, p))
  }

  lemma RawAt(g: Geometry, d: Image, cs: seq<nat>, p: nat)
    requires g.Valid() && Fits(g, d) && InVolume(g, cs)
    ensures p < |Raw(g, d, cs)| <==> InFile(g, |cs|, p / 512)
    ensures p < |Raw(g, d, cs)| ==> Raw(g, d, cs)[p] == FileByte(g, d, cs, p)
  {
    ByteIndex(g, |cs|, p);
  }

  /** Cluster `c` holds the same sectors on both devices. */
  ghost predicate SameCluster(g: Geometry, a: Image, b: Image, c: nat)
    requires g.Valid() && Fits(g, a) && Fits(g, b)
  {
    g.InRange(c) ==> forall s :: 0 <= s < g.spc ==> ClusterSector(g, a, c, s) == ClusterSector(g, b, c, s)
  }

  ghost function ClusterSector(g: Geometry, d: Image, c: nat, s: nat): Sector
    requires g.Valid() && Fits(g, d) && g.InRange(c) && s < g.spc
  {
    ClusterInRegion(g, c, s);
    d[g.ClusterLba(c) + s]
  }

  lemma SameClusterTrans(g: Geometry, a: Image, b: Image, d: Image, c: nat)
    requires g.Valid() && Fits(g, a) && Fits(g, b) && Fits(g, d)
    requires SameCluster(g, a, b, c) && SameCluster(g, b, d, c)
    ensures SameCluster(g, a, d, c)
  {
    if g.InRange(c) {
      forall s | 0 <= s < g.spc ensures ClusterSector(g, a, c, s) == ClusterSector(g, d, c, s) {
        assert ClusterSector(g, a, c, s) == ClusterSector(g, b, c, s);
      }
    }
  }

  /** A file's bytes depend on its own clusters only. */
  lemma RawFrame(g: Geometry, a: Image, b: Image, cs: seq<nat>)
    requires g.Valid() && Fits(g, a) && Fits(g, b) && InVolume(g, cs)
    requires forall c :: c in cs ==> SameCluster(g, a, b, c)
    ensures Raw(g, a, cs) == Raw(g, b, cs)
  {
    forall p | 0 <= p < |Raw(g, a, cs)| ensures Raw(g, a, cs)[p] == Raw(g, b, cs)[p] {
      RawAt(g, a, cs, p);
      RawAt(g, b, cs, p);
      ByteFrame(g, a, b, cs, p);
    }
  }

  lemma ByteFrame(g: Geometry, a: Image, b: Image, cs: seq<nat>, p: nat)
    requires g.Valid() && Fits(g, a) && Fits(g, b) && InVolume(g, cs) && InFile(g, |cs|, p / 512)
    requires forall c :: c in cs ==> SameCluster(g, a, b, c)
    ensures FileByte(g, a, cs, p) == FileByte(g, b, cs, p)
  {
    var q := p / 512;
    var c, s := cs[Quot(q, g.spc)], Rem(q, g.spc);
    assert SameCluster(g, a, b, c);
    assert ClusterSector(g, a, c, s) == ClusterSector(g, b, c, s);
  }

  lemma FatFrame(g: Geometry, a: Image, b: Image, c: nat)
    requires g.Valid() && Fits(g, a) && SameOutsideFat(g, a, b)
    ensures SameCluster(g, a, b, c)
  {
    if g.InRange(c) {
      forall s | 0 <= s < g.spc ensures ClusterSector(g, a, c, s) == ClusterSector(g, b, c, s) {
        ClusterInRegion(g, c, s);
      }
    }
  }

  /** Writing one sector of cluster `c` changes no other cluster. */
  lemma SectorFrame(g: Geometry, d: Image, c: nat, s: nat, w: Sector, c': nat)
    requires g.Valid() && Fits(g, d) && g.InRange(c) && s < g.spc && c' != c
    ensures g.ClusterLba(c) + s < |d|
    ensures SameCluster(g, d, d[g.ClusterLba(c) + s := w], c')
  {
    ClusterInRegion(g, c, s);
    var e := d[g.ClusterLba(c) + s := w];
    if g.InRange(c') {
      forall s' | 0 <= s' < g.spc ensures ClusterSector(g, d, c', s') == ClusterSector(g, e, c', s') {
        ClusterInRegion(g, c', s');
        if g.ClusterLba(c') + s' == g.ClusterLba(c) + s {
          ClusterInjective(g, c', s', c, s);
        }
      }
    }
  }

  /** Writing file sector `q` changes exactly the 512 bytes it holds. */
  lemma WriteFileSector(g: Geometry, d: Image, cs: seq<nat>, q: nat, w: Sector, p: nat)
    requires g.Valid() && Fits(g, d) && InVolume(g, cs) && Distinct(cs)
    requires InFile(g, |cs|, q) && InFile(g, |cs|, p / 512)
    ensures FileByte(g, d[LbaOf(g, cs, q) := w], cs, p) == if p / 512 == q then w[p % 512] else FileByte(g, d, cs, p)
  {
    if LbaOf(g, cs, p / 512) == LbaOf(g, cs, q) {
      LbaInjective(g, cs, p / 512, q);
    }
  }
}
