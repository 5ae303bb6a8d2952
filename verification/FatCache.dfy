/** The one-sector write-back cache over the mirrored file allocation table (kernel/fat32.c:129-194).

    The device is a sequence of sectors. `log` records the whole device after every single-sector
    write, so a statement about all of `log` is a statement about every moment at which the machine
    could stop.  */
module FatCache {
  import opened Bytes
  import opened Geometry
  import opened Chains

  type Image = seq<Sector>

  /** The cache as far as the device is concerned: which sector it holds, whether that is still to be written,
      and the table the device shows meanwhile. */
  datatype Held = Held(dirty: bool, lba: nat, disk: Table)

  /** Sector `lba` was asked for: it is the cached one afterwards, and only if it was before is anything still
      unwritten. */
  ghost predicate Fetched(lba: nat, a: Held, b: Held) {
    b.lba == lba && (b.dirty <==> a.dirty && a.lba == lba) && (b.dirty ==> b.disk == a.disk)
  }

  /** The device at one moment, and the table its first copy holds. */
  datatype Moment = Moment(image: Image, table: Table)

  /** Entry `k` of one sector of the table; the top four bits are reserved. */
  function EntryOf(s: Sector, k: nat): (v: nat)
    requires k < 128
  {
    Rd32(s, 4 * k) % 0x1000_0000
  }

  function ReservedOf(s: Sector, k: nat): (v: nat)
    requires k < 128
  {
    Rd32(s, 4 * k) / 0x1000_0000
  }

  lemma Rd32Frame(s: seq<Byte>, t: seq<Byte>, o: nat)
    requires o + 4 <= |s| == |t|
    requires forall i :: o <= i < o + 4 ==> s[i] == t[i]
    ensures Rd32(s, o) == Rd32(t, o)
  {
  }

  lemma Nibble(top: nat, low: nat)
    requires top < 16 && low < 0x1000_0000
    ensures (top * 0x1000_0000 + low) % 0x1_0000_0000 == top * 0x1000_0000 + low
    ensures (top * 0x1000_0000 + low) % 0x1000_0000 == low
    ensures (top * 0x1000_0000 + low) / 0x1000_0000 == top
  {
  }

  /** Stores 28 bits in entry `k`. The reserved bits of that entry and all of every other entry are
      left exactly as they were found. */
  method PatchEntry(s: Sector, k: nat, v: nat) returns (t: Sector)
    requires k < 128
    ensures forall k' :: 0 <= k' < 128 ==>
      && EntryOf(t, k') == (if k' == k then v % 0x1000_0000 else EntryOf(s, k'))
      && ReservedOf(t, k') == ReservedOf(s, k')
  {
    var keep := Rd32(s, 4 * k) / 0x1000_0000;
    t := Wr32(s, 4 * k, keep * 0x1000_0000 + v % 0x1000_0000);
    forall k' | 0 <= k' < 128
      ensures EntryOf(t, k') == if k' == k then v % 0x1000_0000 else EntryOf(s, k')
      ensures ReservedOf(t, k') == ReservedOf(s, k')
    {
      if k' == k {
        Nibble(keep, v % 0x1000_0000);
      } else {
        Rd32Frame(s, t, 4 * k');
      }
    }
  }

  ghost predicate Fits(g: Geometry, d: Image) {
    |d| == g.deviceSectors
  }

  lemma EntrySector(g: Geometry, c: nat)
    requires g.Valid() && c < g.Limit()
    ensures c / 128 < g.fatSectors
    ensures g.FatSector(0, c / 128) == g.fatLba + c / 128 < g.dataLba <= g.deviceSectors
  {
    FatSectorInRegion(g, 0, c / 128);
  }

  function EntryOn(g: Geometry, d: Image, c: nat): (v: nat)
    requires g.Valid() && Fits(g, d) && c < g.Limit()
  {
    EntrySector(g, c);
    EntryOf(d[g.fatLba + c / 128], c % 128)
  }

  /** The table held by the first copy on the device. */
  ghost function Primary(g: Geometry, d: Image): (t: Table)
    requires g.Valid() && Fits(g, d)
    ensures |t| == g.Limit()
    ensures forall c :: 0 <= c < |t| ==> t[c] == EntryOn(g, d, c)
  {
    seq(g.Limit(), c requires 0 <= c < g.Limit() => EntryOn(g, d, c))
  }

  /** Two images that agree everywhere except, perhaps, in the table region. */
  ghost predicate SameOutsideFat(g: Geometry, a: Image, b: Image) {
    && |a| == |b|
    && forall l :: 0 <= l < |a| && !(g.fatLba <= l < g.dataLba) ==> a[l] == b[l]
  }

  ghost predicate SameFat(g: Geometry, a: Image, b: Image) {
    && |a| == |b|
    && forall l :: g.fatLba <= l < g.dataLba && l < |a| ==> a[l] == b[l]
  }

  lemma PrimaryFrame(g: Geometry, a: Image, b: Image)
    requires g.Valid() && Fits(g, a) && SameFat(g, a, b)
    ensures Primary(g, a) == Primary(g, b)
  {
    forall c | 0 <= c < g.Limit() ensures EntryOn(g, a, c) == EntryOn(g, b, c) {
      EntrySector(g, c);
    }
  }

  /** All copies of the table hold the same sectors. */
  ghost predicate MirrorsAgree(g: Geometry, d: Image)
    requires g.Valid() && Fits(g, d)
  {
    forall k, j :: 0 <= k < g.numFats && 0 <= j < g.fatSectors ==> SectorOn(g, d, k, j) == SectorOn(g, d, 0, j)
  }

  ghost function SectorOn(g: Geometry, d: Image, k: nat, j: nat): Sector
    requires g.Valid() && Fits(g, d) && k < g.numFats && j < g.fatSectors
  {
    FatSectorInRegion(g, k, j);
    d[g.FatSector(k, j)]
  }

  lemma MirrorsFrame(g: Geometry, a: Image, b: Image)
    requires g.Valid() && Fits(g, a) && SameFat(g, a, b)
    ensures MirrorsAgree(g, a) == MirrorsAgree(g, b)
  {
    forall k, j | 0 <= k < g.numFats && 0 <= j < g.fatSectors
      ensures SectorOn(g, a, k, j) == SectorOn(g, b, k, j)
    {
      FatSectorInRegion(g, k, j);
    }
  }

  /** The effect of a run of `fat_set` calls on a table. */
  ghost function Replay(t: Table, sets: seq<(nat, nat)>): (r: Table)
    ensures |r| == |t|
  {
    if sets == [] then t
    else
      var (c, v) := sets[|sets| - 1];
      var r := Replay(t, sets[..|sets| - 1]);
      if c < |r| then r[c := v] else r
  }

  lemma ReplaySnoc(t: Table, sets: seq<(nat, nat)>, s: (nat, nat))
    requires s.0 < |t|
    ensures Replay(t, sets + [s]) == Replay(t, sets)[s.0 := s.1]
  {
    assert (sets + [s])[..|sets|] == sets;
  }

  /** `after` extends `before` by moments whose table is `t` and whose image differs from `base` in
      the table region only. */
  ghost predicate Logged(g: Geometry, before: seq<Moment>, after: seq<Moment>, t: Table, base: Image) {
    && before <= after
    && forall i :: |before| <= i < |after| ==>
      after[i].table == t && SameOutsideFat(g, after[i].image, base)
  }

  /** `t` is what a reader sees on device `d` through a cache that holds sector `lba`. */
  ghost predicate Sees(g: Geometry, d: Image, lba: nat, cache: Sector, t: Table)
    requires g.Valid() && Fits(g, d)
  {
    |t| == g.Limit() && forall n: int :: Peered(n) ==> SeesAll(g, d, lba, cache, t)
  }

  // Predicates quantified over one of these stay folded in a proof until it mentions that token.
  ghost predicate Peered(n: int) { true }
  ghost predicate Recalled(n: int) { true }
  ghost predicate Opened(n: int) { true }

  ghost predicate SeesAll(g: Geometry, d: Image, lba: nat, cache: Sector, t: Table)
    requires g.Valid() && Fits(g, d) && |t| == g.Limit()
  {
    forall c :: 0 <= c < |t| ==> t[c] == SeenEntry(g, d, lba, cache, c)
  }

  ghost function SeenEntry(g: Geometry, d: Image, lba: nat, cache: Sector, c: nat): nat
    requires g.Valid() && Fits(g, d) && c < g.Limit()
  {
    if g.fatLba + c / 128 == lba
    then EntryOf(cache, c % 128)
    else EntryOn(g, d, c)
  }

  /** Moment `d` shows the table after the first `m` of the calls `sets`. */
  ghost predicate AfterPrefix(g: Geometry, mounted: Table, sets: seq<(nat, nat)>, d: Moment, m: nat)
    requires g.Valid()
  {
    && m <= |sets| && Fits(g, d.image)
    && d.table == Primary(g, d.image)
    && d.table == Replay(mounted, sets[..m])
  }

  /** At every moment the device showed the table after some prefix of the calls, and later moments
      show longer prefixes; `marks` gives the prefix lengths. */
  ghost predicate PrefixConsistent(g: Geometry, mounted: Table, sets: seq<(nat, nat)>, log: seq<Moment>,
      marks: seq<nat>)
    requires g.Valid()
  {
    |marks| == |log| && forall n: int :: Recalled(n) ==> ShowsPrefixes(g, mounted, sets, log, marks)
  }

  ghost predicate ShowsPrefixes(g: Geometry, mounted: Table, sets: seq<(nat, nat)>, log: seq<Moment>, marks: seq<nat>)
    requires g.Valid() && |marks| == |log|
  {
    && (forall i :: 0 <= i < |log| ==> AfterPrefix(g, mounted, sets, log[i], marks[i]))
    && (forall i, j :: 0 <= i < j < |marks| ==> marks[i] <= marks[j])
  }

  lemma LastMark(g: Geometry, mounted: Table, sets: seq<(nat, nat)>, log: seq<Moment>, marks: seq<nat>)
    requires g.Valid() && PrefixConsistent(g, mounted, sets, log, marks) && |log| > 0
    ensures AfterPrefix(g, mounted, sets, log[|log| - 1], marks[|log| - 1])
  {
    assert Recalled(0);
  }

  lemma LogGrows(g: Geometry, mounted: Table, sets: seq<(nat, nat)>, log: seq<Moment>, marks: seq<nat>, d: Moment,
      m: nat)
    requires g.Valid() && PrefixConsistent(g, mounted, sets, log, marks)
    requires AfterPrefix(g, mounted, sets, d, m)
    requires |marks| > 0 ==> marks[|marks| - 1] <= m
    ensures PrefixConsistent(g, mounted, sets, log + [d], marks + [m])
  {
    assert Recalled(0);
  }

  lemma SetsGrow(g: Geometry, mounted: Table, sets: seq<(nat, nat)>, log: seq<Moment>, marks: seq<nat>, s: (nat, nat))
    requires g.Valid() && PrefixConsistent(g, mounted, sets, log, marks)
    ensures PrefixConsistent(g, mounted, sets + [s], log, marks)
  {
    assert Recalled(0);
    forall i | 0 <= i < |log| ensures AfterPrefix(g, mounted, sets + [s], log[i], marks[i]) {
      assert AfterPrefix(g, mounted, sets, log[i], marks[i]);
      assert (sets + [s])[..marks[i]] == sets[..marks[i]];
    }
  }

  /** The first `i` copies of table sector `j` hold `cache`; nothing else differs from `before`. */
  ghost predicate Copied(g: Geometry, before: Image, now: Image, j: nat, cache: Sector, i: nat)
    requires g.Valid() && Fits(g, before)
  {
    && SameOutsideFat(g, now, before)
    && forall k', j' :: 0 <= k' < g.numFats && 0 <= j' < g.fatSectors ==>
      SectorOn(g, now, k', j') == if j' == j && k' < i then cache else SectorOn(g, before, k', j')
  }

  lemma CopyOne(g: Geometry, before: Image, mid: Image, j: nat, cache: Sector, i: nat)
    requires g.Valid() && Fits(g, before) && j < g.fatSectors && i < g.numFats
    requires Copied(g, before, mid, j, cache, i)
    ensures g.FatSector(i, j) < |mid|
    ensures Copied(g, before, mid[g.FatSector(i, j) := cache], j, cache, i + 1)
  {
    FatSectorInRegion(g, i, j);
    var now := mid[g.FatSector(i, j) := cache];
    forall k', j' | 0 <= k' < g.numFats && 0 <= j' < g.fatSectors
      ensures SectorOn(g, now, k', j') == if j' == j && k' < i + 1 then cache else SectorOn(g, before, k', j')
    {
      FatSectorInRegion(g, k', j');
      assert SectorOn(g, mid, k', j') == if j' == j && k' < i then cache else SectorOn(g, before, k', j');
      if g.FatSector(k', j') == g.FatSector(i, j) {
        FatSectorInjective(g, k', j', i, j);
      }
    }
  }

  /** Once its first copy is written, the device holds the table that was seen through the cache. */
  lemma CopiedPrimary(g: Geometry, before: Image, now: Image, j: nat, cache: Sector, i: nat, t: Table)
    requires g.Valid() && Fits(g, before) && j < g.fatSectors && 0 < i <= g.numFats
    requires Copied(g, before, now, j, cache, i)
    requires Sees(g, before, g.fatLba + j, cache, t)
    ensures Primary(g, now) == t && Sees(g, now, g.fatLba + j, cache, t)
  {
    assert Peered(0);
    forall c | 0 <= c < g.Limit() ensures t[c] == EntryOn(g, now, c) == SeenEntry(g, now, g.fatLba + j, cache, c) {
      EntrySector(g, c);
      var j' := c / 128;
      assert t[c] == SeenEntry(g, before, g.fatLba + j, cache, c);
      assert SectorOn(g, now, 0, j') == now[g.fatLba + j'];
      assert SectorOn(g, before, 0, j') == before[g.fatLba + j'];
    }
  }

  lemma CopiedMirrors(g: Geometry, before: Image, now: Image, j: nat, cache: Sector)
    requires g.Valid() && Fits(g, before) && j < g.fatSectors
    requires Copied(g, before, now, j, cache, g.numFats)
    requires MirrorsAgree(g, before)
    ensures MirrorsAgree(g, now)
  {
    forall k, j' | 0 <= k < g.numFats && 0 <= j' < g.fatSectors
      ensures SectorOn(g, now, k, j') == SectorOn(g, now, 0, j')
    {
      assert SectorOn(g, before, k, j') == SectorOn(g, before, 0, j');
    }
  }

  lemma StoreSeen(g: Geometry, d: Image, s: Sector, t: Sector, c: nat, v: nat, fat: Table)
    requires g.Valid() && Fits(g, d) && c < g.Limit()
    requires Sees(g, d, g.fatLba + c / 128, s, fat)
    requires forall k' :: 0 <= k' < 128 ==>
      EntryOf(t, k') == if k' == c % 128 then v else EntryOf(s, k')
    ensures Sees(g, d, g.fatLba + c / 128, t, fat[c := v])
  {
    assert Peered(0);
    var lba := g.fatLba + c / 128;
    forall c' | 0 <= c' < g.Limit() ensures fat[c := v][c'] == SeenEntry(g, d, lba, t, c') {
      assert fat[c'] == SeenEntry(g, d, lba, s, c');
    }
  }

  lemma CleanSees(g: Geometry, d: Image, lba: nat, t: Table)
    requires g.Valid() && Fits(g, d) && lba < |d| && Primary(g, d) == t
    ensures Sees(g, d, lba, d[lba], t)
  {
    assert Peered(0);
    forall c | 0 <= c < g.Limit() ensures t[c] == SeenEntry(g, d, lba, d[lba], c) {
      assert Primary(g, d)[c] == EntryOn(g, d, c);
    }
  }

  lemma SeesFrame(g: Geometry, a: Image, b: Image, lba: nat, cache: Sector, t: Table)
    requires g.Valid() && Fits(g, a) && SameFat(g, a, b) && Sees(g, a, lba, cache, t)
    ensures Sees(g, b, lba, cache, t)
  {
    assert Peered(0);
    PrimaryFrame(g, a, b);
    forall c | 0 <= c < g.Limit() ensures t[c] == SeenEntry(g, b, lba, cache, c) {
      assert Primary(g, a)[c] == Primary(g, b)[c];
      assert t[c] == SeenEntry(g, a, lba, cache, c);
    }
  }

  class FatCache {
    const g: Geometry
    var sectors: Image
    var cache: Sector
    var cacheLba: nat           // 0 when nothing is cached
    var dirty: bool

    ghost var fat: Table        // the table every reader sees
    ghost var disk: Table       // the table held by the first copy on the device
    ghost const mounted: Table  // the table found at mount
    ghost const mirrored: bool  // whether all copies agreed at mount
    ghost var sets: seq<(nat, nat)>
    ghost var log: seq<Moment>
    ghost var marks: seq<nat>   // log[i] holds the table after the first marks[i] calls

    ghost predicate Inner()
      requires g.Valid() && Fits(g, sectors)
      reads this
    {
      && |mounted| == g.Limit()
      && (cacheLba == 0 || g.fatLba <= cacheLba < g.fatLba + g.fatSectors)
      && (cacheLba == 0 ==> !dirty)
      && Sees(g, sectors, cacheLba, cache, fat)
      && disk == Primary(g, sectors)
      && fat == Replay(mounted, sets)
      && PrefixConsistent(g, mounted, sets, log, marks)
      && (mirrored ==> MirrorsAgree(g, sectors))
    }

    ghost predicate Valid()
      reads this
    {
      && g.Valid() && Fits(g, sectors) && |fat| == g.Limit()
      && (!dirty ==> disk == fat)
      && |log| > 0 && log[|log| - 1] == Moment(sectors, disk)
      && forall n :: Opened(n) ==> Inner()
    }

    ghost function Holds(): Held
      reads this
    {
      Held(dirty, cacheLba, disk)
    }

    constructor (geometry: Geometry, device: Image)
      requires geometry.Valid() && Fits(geometry, device)
      ensures Valid() && g == geometry && sectors == device && log == [Moment(device, disk)]
      ensures !dirty && sets == [] && fat == disk == Primary(geometry, device)
      ensures mirrored == MirrorsAgree(geometry, device)
    {
      g, sectors, cacheLba, dirty := geometry, device, 0, false;
      cache := ZeroSector();
      fat, mounted := Primary(geometry, device), Primary(geometry, device);
      disk := Primary(geometry, device);
      mirrored := MirrorsAgree(geometry, device);
      sets, log, marks := [], [Moment(device, Primary(geometry, device))], [0];
    }

    /** Writes one sector outside the table: the table, cached or not, is untouched. */
    method WriteSector(lba: nat, s: Sector)
      requires Valid() && lba < |sectors| && !(g.fatLba <= lba < g.dataLba)
      modifies `sectors, `log, `marks
      ensures Valid()
      ensures sectors == old(sectors)[lba := s]
      ensures log == old(log) + [Moment(sectors, disk)]
    {
      assert Opened(0);
      ghost var before := sectors;
      ghost var mark := marks[|marks| - 1];
      sectors := sectors[lba := s];
      PrimaryFrame(g, before, sectors);
      MirrorsFrame(g, before, sectors);
      SeesFrame(g, before, sectors, cacheLba, cache, fat);
      LastMark(g, mounted, sets, log, marks);
      LogGrows(g, mounted, sets, log, marks, Moment(sectors, disk), mark);
      log := log + [Moment(sectors, disk)];
      marks := marks + [mark];
    }

    /** One write of the flush loop: copy `i` of the cached sector. */
    method WriteCopy(i: nat, ghost before: Image)
      requires g.Valid() && Fits(g, before) && i < g.numFats
      requires g.fatLba <= cacheLba < g.fatLba + g.fatSectors
      requires Sees(g, before, cacheLba, cache, fat) && |mounted| == g.Limit() && fat == Replay(mounted, sets)
      requires Copied(g, before, sectors, cacheLba - g.fatLba, cache, i)
      requires PrefixConsistent(g, mounted, sets, log, marks)
      modifies `sectors, `log, `marks
      ensures Copied(g, before, sectors, cacheLba - g.fatLba, cache, i + 1)
      ensures Primary(g, sectors) == fat
      ensures PrefixConsistent(g, mounted, sets, log, marks)
      ensures log == old(log) + [Moment(sectors, fat)]
    {
      CopyOne(g, before, sectors, cacheLba - g.fatLba, cache, i);
      sectors := sectors[cacheLba + i * g.fatSectors := cache];
      CopiedPrimary(g, before, sectors, cacheLba - g.fatLba, cache, i + 1, fat);
      assert sets[..|sets|] == sets;
      if |log| > 0 {
        LastMark(g, mounted, sets, log, marks);
      }
      LogGrows(g, mounted, sets, log, marks, Moment(sectors, fat), |sets|);
      log := log + [Moment(sectors, fat)];
      marks := marks + [|sets|];
    }

    /** Writes the cached sector to every copy of the table if it is dirty. */
    method Flush()
      requires Valid()
      modifies `sectors, `disk, `dirty, `log, `marks
      ensures Valid() && !dirty
      ensures disk == fat
      ensures SameOutsideFat(g, sectors, old(sectors))
      ensures Logged(g, old(log), log, fat, old(sectors))
      ensures old(!dirty) ==> sectors == old(sectors) && log == old(log)
    {
      assert Opened(0);
      if !dirty || cacheLba == 0 {
        return;
      }
      ghost var before := sectors;
      ghost var j := cacheLba - g.fatLba;
      for i := 0 to g.numFats
        invariant Copied(g, before, sectors, j, cache, i)
        invariant i > 0 ==> Primary(g, sectors) == fat
        invariant |log| > 0 && (i > 0 ==> log[|log| - 1] == Moment(sectors, fat))
        invariant PrefixConsistent(g, mounted, sets, log, marks)
        invariant Logged(g, old(log), log, fat, before)
      {
        WriteCopy(i, before);
      }
      CopiedPrimary(g, before, sectors, j, cache, g.numFats, fat);
      if mirrored {
        CopiedMirrors(g, before, sectors, j, cache);
      }
      dirty := false;
      disk := fat;
    }

    /** Brings the table sector that holds entry `c` into the cache, flushing the old one first. */
    method Load(c: nat)
      requires Valid() && c < g.Limit()
      modifies `sectors, `disk, `dirty, `log, `marks, `cache, `cacheLba
      ensures Valid()
      ensures Fetched(g.fatLba + c / 128, old(Holds()), Holds())
      ensures SameOutsideFat(g, sectors, old(sectors))
      ensures Logged(g, old(log), log, fat, old(sectors))
      ensures old(!dirty) ==> !dirty && log == old(log)
    {
      assert Opened(0);
      var lba := g.fatLba + c / 128;
      EntrySector(g, c);
      if lba == cacheLba {
        return;
      }
      Flush();
      cache := sectors[lba];
      cacheLba := lba;
      CleanSees(g, sectors, lba, fat);
    }

    /** `fat_get`: the 28-bit entry, or an end marker for a cluster the volume does not have. */
    method Get(c: nat) returns (v: nat)
      requires Valid()
      modifies `sectors, `disk, `dirty, `log, `marks, `cache, `cacheLba
      ensures Valid()
      ensures v == GetOf(fat, c)
      ensures if g.InRange(c) then Fetched(g.fatLba + c / 128, old(Holds()), Holds()) else Holds() == old(Holds())
      ensures SameOutsideFat(g, sectors, old(sectors))
      ensures Logged(g, old(log), log, fat, old(sectors))
      ensures old(!dirty) ==> !dirty && log == old(log)
    {
      if !g.InRange(c) {
        return FAT_EOC;
      }
      Load(c);
      assert Opened(0) && Peered(0);
      v := EntryOf(cache, c % 128);
    }

    /** `fat_set`: the seen table changes in entry `c` only. On the device nothing changes but, when
        another sector was cached, the flush of the table as it was before the call. */
    method Set(c: nat, v: nat) returns (ok: bool)
      requires Valid() && v < WORD
      modifies `sectors, `disk, `dirty, `log, `marks, `cache, `cacheLba, `fat, `sets
      ensures Valid()
      ensures ok == g.InRange(c)
      ensures fat == if ok then old(fat)[c := v % 0x1000_0000] else old(fat)
      ensures sets == if ok then old(sets) + [(c, v % 0x1000_0000)] else old(sets)
      ensures ok ==> dirty && cacheLba == g.fatLba + c / 128
      ensures ok ==> disk == if old(dirty && cacheLba == g.fatLba + c / 128) then old(disk) else old(fat)
      ensures SameOutsideFat(g, sectors, old(sectors))
      ensures Logged(g, old(log), log, old(fat), old(sectors))
    {
      if !g.InRange(c) {
        return false;
      }
      Load(c);
      Store(c, v);
      return true;
    }

    /** Edits the cached sector; the device is not touched. */
    method Store(c: nat, v: nat)
      requires Valid() && g.InRange(c)
      requires cacheLba == g.fatLba + c / 128
      modifies `dirty, `cache, `fat, `sets
      ensures Valid()
      ensures dirty && fat == old(fat)[c := v % 0x1000_0000]
      ensures sets == old(sets) + [(c, v % 0x1000_0000)]
    {
      assert Opened(0);
      var t := PatchEntry(cache, c % 128, v);
      ghost var w := v % 0x1000_0000;
      StoreSeen(g, sectors, cache, t, c, w, fat);
      SetsGrow(g, mounted, sets, log, marks, (c, w));
      ReplaySnoc(mounted, sets, (c, w));
      cache := t;
      dirty := true;
      fat := fat[c := w];
      sets := sets + [(c, w)];
    }
  }
}
