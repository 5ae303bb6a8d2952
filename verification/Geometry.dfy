/** Where the parts of a mounted FAT32 volume lie on its device, and how a boot sector says so. */
module Geometry {
  import opened Quotient
  import opened Bytes

  const WORD: nat := 0x1_0000_0000

  /** Values at or above this one end a chain. */
  const FAT_BAD: nat := 0x0FFF_FFF7
  const FAT_EOC: nat := 0x0FFF_FFF8
  const FAT_MASK: nat := 0x0FFF_FFFF

  /** An invariant quantified over a token such as this one stays folded in a proof until the proof
      mentions the token. */
  ghost predicate Charted(n: int) {
    true
  }

  datatype Geometry = Geometry(
    fatLba: nat,          // first sector of the first copy of the table
    numFats: nat,
    fatSectors: nat,      // sectors in one copy
    dataLba: nat,         // first sector of cluster 2
    spc: nat,             // sectors per cluster
    totalClusters: nat,   // usable clusters, numbered from 2
    deviceSectors: nat)
  {
    /** The copies of the table fill the space up to the clusters, which end inside the device. */
    ghost predicate Layout() {
      && dataLba == fatLba + numFats * fatSectors
      && dataLba + totalClusters * spc <= deviceSectors
    }

    /** The regions follow one another inside the device and the table has an entry per cluster. */
    ghost predicate Valid() {
      && 0 < fatLba < fatLba + fatSectors <= dataLba <= deviceSectors < WORD
      && 1 <= numFats <= 4
      && 1 <= spc <= 128
      && 1 <= totalClusters
      && totalClusters + 2 <= fatSectors * 128
      && totalClusters + 2 <= FAT_BAD
      && forall n :: Charted(n) ==> Layout()
    }

    /** One past the highest cluster number. */
    function Limit(): nat {
      totalClusters + 2
    }

    predicate InRange(c: nat) {
      2 <= c < Limit()
    }

    function ClusterBytes(): nat {
      spc * 512
    }

    /** The sector of copy `k` that holds sector `j` of the table. */
    function FatSector(k: nat, j: nat): nat {
      fatLba + k * fatSectors + j
    }

    function ClusterLba(c: nat): nat
      requires 2 <= c
    {
      dataLba + (c - 2) * spc
    }
  }

  /** Every sector of every copy of the table lies in the table region. */
  lemma FatSectorInRegion(g: Geometry, k: nat, j: nat)
    requires g.Valid() && k < g.numFats && j < g.fatSectors
    ensures g.fatLba <= g.FatSector(k, j) < g.dataLba <= g.deviceSectors
  {
    assert Charted(0);
    MulStep(g.fatSectors, k, g.numFats);
  }

  /** Distinct (copy, sector) pairs are distinct sectors of the device. */
  lemma FatSectorInjective(g: Geometry, k: nat, j: nat, k': nat, j': nat)
    requires j < g.fatSectors && j' < g.fatSectors
    requires g.FatSector(k, j) == g.FatSector(k', j')
    ensures k == k' && j == j'
  {
    DigitsUnique(g.fatSectors, k, j, k', j');
  }

  /** Every sector of a cluster lies in the data region. */
  lemma ClusterInRegion(g: Geometry, c: nat, s: nat)
    requires g.Valid() && g.InRange(c) && s < g.spc
    ensures g.dataLba <= g.ClusterLba(c) + s < g.deviceSectors
  {
    assert Charted(0);
    MulStep(g.spc, c - 2, g.totalClusters);
  }

  /** Distinct clusters own distinct sectors. */
  lemma ClusterInjective(g: Geometry, c: nat, s: nat, c': nat, s': nat)
    requires 2 <= c && 2 <= c' && s < g.spc && s' < g.spc
    requires g.ClusterLba(c) + s == g.ClusterLba(c') + s'
    ensures c == c' && s == s'
  {
    DigitsUnique(g.spc, c - 2, s, c' - 2, s');
  }
}
