/** The boot sector: which ones `read_bpb` accepts, and when what it computes from them is a volume whose
    parts do not overlap (kernel/fat32.c:1430-1484). */
module BootSector {
  import opened Bytes
  import opened Geometry
  import opened Quotient

  /** The fields the driver reads. */
  datatype Bpb = Bpb(signature: nat, bytesPerSector: nat, spc: nat, reserved: nat, numFats: nat, rootEntries: nat,
                     fat16Size: nat, total16: nat, total32: nat, fatSize: nat, rootCluster: nat)

  /** The fields are as wide as their places in the sector. */
  predicate InWidth(b: Bpb) {
    b.reserved < 0x1_0000 && b.numFats < 0x100 && b.total16 < 0x1_0000 && b.total32 < WORD && b.fatSize < WORD
  }

  function Fields(bs: Sector): (b: Bpb)
    ensures InWidth(b)
  {
    Bpb(Rd16(bs, 510), Rd16(bs, 11), bs[13], Rd16(bs, 14), bs[16], Rd16(bs, 17), Rd16(bs, 22), Rd16(bs, 19),
        Rd32(bs, 32), Rd32(bs, 36), Rd32(bs, 44))
  }

  predicate PowerOfTwo(n: nat) {
    n in {1, 2, 4, 8, 16, 32, 64, 128}
  }

  /** The checks that make it FAT32 rather than FAT16 or noise. */
  predicate LooksRight(b: Bpb) {
    && b.signature == 0xAA55 && b.bytesPerSector == 512 && PowerOfTwo(b.spc)
    && 1 <= b.numFats <= 4 && b.rootEntries == 0 && b.fat16Size == 0
    && b.fatSize != 0 && b.reserved != 0 && 2 <= b.rootCluster && TotalOf(b) != 0
  }

  function TotalOf(b: Bpb): nat {
    if b.total32 != 0 then b.total32 else b.total16
  }

  function Low32(x: nat): nat {
    x % 0x1_0000_0000
  }

  /** Sectors before the clusters, in the code's 32-bit arithmetic. */
  function Meta(b: Bpb): nat {
    Low32(b.reserved + Low32(b.numFats * b.fatSize))
  }

  /** The whole clusters in so many sectors. */
  function ClustersIn(sectors: nat, spc: nat): (n: nat)
    requires 0 < spc
    ensures n <= sectors
  {
    DivLess(sectors, spc);
    sectors / spc
  }

  /** The cluster count, cut down to what a table of `room` entries can describe. */
  function CappedCount(clusters: nat, room: nat): nat {
    if Low32(clusters + 2) > room then Low32(WORD + room - 2) else clusters
  }

  /** If its 32-bit sums do not wrap, the cut leaves as many clusters as there are and the table can describe. */
  lemma CappedBound(clusters: nat, room: nat)
    requires 1 <= clusters && clusters + 2 < WORD && 128 <= room < WORD
    ensures CappedCount(clusters, room) == Least(clusters, room)
    ensures 1 <= CappedCount(clusters, room) <= clusters && CappedCount(clusters, room) + 2 <= room
  {
  }

  datatype Result = Mounted(g: Geometry) | Rejected

  /** `read_bpb` on the fields, for a volume that starts at sector `lba`. */
  function ReadFields(b: Bpb, lba: nat, deviceSectors: nat): Result
  {
    if !LooksRight(b) || TotalOf(b) <= Meta(b) then Rejected
    else
      var clusters := ClustersIn(TotalOf(b) - Meta(b), b.spc);
      if clusters == 0 then Rejected
      else
        var room := Low32(b.fatSize * 128);
        var fatLba := Low32(lba + b.reserved);
        Mounted(Geometry(fatLba, b.numFats, b.fatSize, Low32(fatLba + Low32(b.numFats * b.fatSize)), b.spc,
                         CappedCount(clusters, room), deviceSectors))
  }

  /** The cluster count `read_bpb` arrives at. */
  function Count(b: Bpb): nat
    requires 0 < b.spc && Meta(b) < TotalOf(b)
  {
    CountAfter(TotalOf(b), Meta(b), b.spc, b.fatSize)
  }

  function CountAfter(total: nat, used: nat, spc: nat, fatSize: nat): nat
    requires 0 < spc && used < total
  {
    CappedCount(ClustersIn(total - used, spc), Low32(fatSize * 128))
  }

  /** What has to hold, in plain arithmetic, for the volume to be sound: the table starts past sector 0,
      table and clusters end inside the device, the table has an entry for every cluster, and no cluster
      number looks like an end marker. */
  ghost predicate FitsDevice(b: Bpb, fatLba: nat, clusters: nat, deviceSectors: nat) {
    && 0 < fatLba && fatLba + b.numFats * b.fatSize + clusters * b.spc <= deviceSectors
    && 1 <= clusters && clusters + 2 <= FAT_BAD && clusters + 2 <= b.fatSize * 128
  }

  lemma DivLess(x: nat, n: nat)
    requires 0 < n
    ensures x / n <= x
  {
    QuotIsDiv(x, n);
    QuotLess(x, n);
  }

  lemma {:induction false} QuotLess(x: nat, n: nat)
    requires 0 < n
    ensures Quot(x, n) <= x
  {
    if n <= x {
      QuotLess(x - n, n);
    }
  }

  /** The accepted boot sectors that give a sound volume, exactly: the sums of `read_bpb` are in 32 bits
      and nothing compares the volume with the device, so acceptance alone does not. */
  lemma SoundExactly(b: Bpb, lba: nat, dev: nat)
    requires ReadFields(b, lba, dev).Mounted? && dev < WORD
    ensures Meta(b) < TotalOf(b)
    ensures ReadFields(b, lba, dev).g.Valid() <==> FitsDevice(b, Low32(lba + b.reserved), Count(b), dev)
  {
    var g := ReadFields(b, lba, dev).g;
    Regions(g, Low32(lba + b.reserved), b.numFats * b.fatSize, g.totalClusters * b.spc);
  }

  /** The clusters a volume has room for, after its reserved sectors and its tables. */
  function Clusters(b: Bpb): nat
    requires 0 < b.spc
  {
    if TotalOf(b) <= Used(b) then 0 else ClustersIn(TotalOf(b) - Used(b), b.spc)
  }

  function Used(b: Bpb): nat {
    b.reserved + b.numFats * b.fatSize
  }

  /** When no sum of the fields wraps, all of it is plain: a sector is accepted exactly if it looks right and
      the volume has a cluster, and the accepted volume is sound exactly if it ends inside the device and no cluster
      number looks like an end marker. */
  lemma SoundPlain(b: Bpb, lba: nat, dev: nat)
    requires InWidth(b) && dev < WORD && lba + b.reserved < WORD
    requires Used(b) < WORD && b.fatSize * 128 < WORD
    ensures ReadFields(b, lba, dev).Mounted? <==> LooksRight(b) && 1 <= Clusters(b)
    ensures LooksRight(b) && 1 <= Clusters(b) ==>
      var n := Least(Clusters(b), b.fatSize * 128);
      && ReadFields(b, lba, dev).g.totalClusters == n
      && (ReadFields(b, lba, dev).g.Valid() <==>
            lba + Used(b) + n * b.spc <= dev && n + 2 <= FAT_BAD)
  {
    if LooksRight(b) {
      PlainCount(b);
      if 1 <= Clusters(b) {
        SoundExactly(b, lba, dev);
        FitsPlain(b, lba + b.reserved, Count(b), dev);
      }
    }
  }

  lemma FitsPlain(b: Bpb, fatLba: nat, n: nat, dev: nat)
    requires 0 < fatLba && 1 <= n && n + 2 <= b.fatSize * 128
    ensures FitsDevice(b, fatLba, n, dev) <==> fatLba - b.reserved + Used(b) + n * b.spc <= dev && n + 2 <= FAT_BAD
  {
  }

  lemma PlainCount(b: Bpb)
    requires InWidth(b) && LooksRight(b) && Used(b) < WORD && b.fatSize * 128 < WORD
    ensures Meta(b) == Used(b)
    ensures 1 <= Clusters(b) ==>
      Count(b) == Least(Clusters(b), b.fatSize * 128) && 1 <= Count(b) && Count(b) + 2 <= b.fatSize * 128
  {
    OneTable(b.numFats, b.fatSize);
    PlainMeta(b, b.numFats * b.fatSize);
    if Used(b) < TotalOf(b) {
      CountIs(TotalOf(b), Used(b), b.spc, b.fatSize);
    }
  }

  /** As many clusters as a table of `room` entries describes, if there are as many. */
  function Least(clusters: nat, room: nat): int {
    if clusters + 2 <= room then clusters else room - 2
  }

  lemma CountIs(total: nat, used: nat, spc: nat, fatSize: nat)
    requires 2 <= used < total < WORD && 0 < spc && 1 <= fatSize && fatSize * 128 < WORD
    ensures var n, c := ClustersIn(total - used, spc), CountAfter(total, used, spc, fatSize);
      1 <= n ==> c == Least(n, fatSize * 128) && 1 <= c && c + 2 <= fatSize * 128
  {
    if 1 <= ClustersIn(total - used, spc) {
      CappedBound(ClustersIn(total - used, spc), fatSize * 128);
    }
  }

  lemma PlainMeta(b: Bpb, tables: nat)
    requires tables == b.numFats * b.fatSize && Used(b) < WORD && 1 <= tables && 1 <= b.reserved
    ensures Meta(b) == Used(b) && 2 <= Used(b)
  {
  }

  /** The geometry, with the products of its fields given. */
  lemma Regions(g: Geometry, fatLba: nat, tables: nat, data: nat)
    requires tables == g.numFats * g.fatSectors && data == g.totalClusters * g.spc
    requires g.fatLba == fatLba && g.dataLba == Low32(fatLba + Low32(tables)) && g.deviceSectors < WORD
    requires 1 <= g.numFats <= 4 && 1 <= g.spc <= 128 && 0 < g.fatSectors
    ensures g.Valid() <==>
      (0 < fatLba && fatLba + tables + data <= g.deviceSectors &&
       1 <= g.totalClusters && g.totalClusters + 2 <= FAT_BAD && g.totalClusters + 2 <= g.fatSectors * 128)
  {
    assert Charted(0);
    OneTable(g.numFats, g.fatSectors);
    assert g.Layout() <==> g.dataLba == fatLba + tables && g.dataLba + data <= g.deviceSectors;
  }

  lemma OneTable(k: nat, n: nat)
    requires 1 <= k
    ensures n <= k * n
  {
    assert k * n == n + (k - 1) * n;
  }

  /** A boot sector that is accepted although the size of its tables wraps: the clusters would overlap
      the table. */
  lemma WrapAccepted()
    ensures var b := Bpb(0xAA55, 512, 1, 1, 2, 0, 0, 0, 1000, 0x8000_0001, 2);
      ReadFields(b, 0, 1000).Mounted? && !ReadFields(b, 0, 1000).g.Valid()
  {
    assert Charted(0);
  }
}
