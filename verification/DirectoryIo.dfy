/** Directory entries on the device: entry `i` of a directory is bytes 32i to 32i + 31 of its clusters
    (kernel/fat32.c:500-540). */
module DirectoryIo {
  import opened Bytes
  import opened Quotient
  import opened Geometry
  import opened Chains
  import opened FatCache
  import opened ClusterData
  import opened Evolution
  import opened Allocation
  import opened Growth
  import opened FileIo
  import opened LongNames
  import opened Layout
  import opened Edits

  /** Where an entry lies: a sector of the device and a byte offset within it. */
  datatype Position = Position(lba: nat, off: nat)

  lemma EntryPlace(index: nat, k: nat)
    requires k < 32
    ensures (32 * index + k) / 512 == index / 16 && (32 * index + k) % 512 == index % 16 * 32 + k
  {
  }

  /** Entry `index` of the directory stored in the clusters `cs`. */
  ghost function EntryIn(g: Geometry, d: Image, cs: seq<nat>, index: nat): (e: DirEntry)
    requires g.Valid() && Fits(g, d) && InVolume(g, cs) && InFile(g, |cs|, index / 16)
  {
    var s := d[LbaOf(g, cs, index / 16)];
    var e: seq<Byte> := s[index % 16 * 32..index % 16 * 32 + 32];
    e
  }

  lemma EntryBytes(g: Geometry, d: Image, cs: seq<nat>, index: nat, k: nat)
    requires g.Valid() && Fits(g, d) && InVolume(g, cs) && InFile(g, |cs|, index / 16) && k < 32
    ensures InFile(g, |cs|, (32 * index + k) / 512) && EntryIn(g, d, cs, index)[k] == FileByte(g, d, cs, 32 * index + k)
  {
    EntryPlace(index, k);
  }

  /** How many entries `n` clusters of `per` entries hold. */
  function Span(n: nat, per: nat): nat {
    if n == 0 then 0 else Span(n - 1, per) + per
  }

  lemma {:induction false} SpanIs(n: nat, per: nat)
    ensures Span(n, per) == n * per
  {
    if n > 0 {
      SpanIs(n - 1, per);
    }
  }

  lemma {:induction false} SpanSum(m: nat, n: nat, per: nat)
    ensures Span(m + n, per) == Span(m, per) + Span(n, per)
  {
    if n > 0 {
      SpanSum(m, n - 1, per);
    }
  }

  lemma EntryExists(g: Geometry, n: nat, i: nat)
    requires g.Valid()
    ensures i < Span(n, 16 * g.spc) <==> InFile(g, n, i / 16)
  {
    SpanIs(n, 16 * g.spc);
    IndexBelow(g.spc, n, i / 16);
    assert n * (16 * g.spc) == 16 * (n * g.spc);
  }

  ghost predicate InDir(g: Geometry, n: nat, i: nat)
    requires g.Valid()
  {
    InFile(g, n, i / 16)
  }

  lemma AllExist(g: Geometry, n: nat)
    requires g.Valid()
    ensures forall i :: 0 <= i < Span(n, 16 * g.spc) ==> InDir(g, n, i)
  {
    forall i | 0 <= i < Span(n, 16 * g.spc) ensures InDir(g, n, i) {
      EntryExists(g, n, i);
    }
  }

  /** All the entries of the directory stored in the clusters `cs`. */
  ghost function EntriesOf(g: Geometry, d: Image, cs: seq<nat>): (e: Entries)
    requires g.Valid() && Fits(g, d) && InVolume(g, cs)
    ensures |e| == Span(|cs|, 16 * g.spc)
  {
    AllExist(g, |cs|);
    seq(Span(|cs|, 16 * g.spc), i requires 0 <= i < Span(|cs|, 16 * g.spc) =>
      assert InDir(g, |cs|, i); EntryIn(g, d, cs, i))
  }

  lemma EntriesAt(g: Geometry, d: Image, cs: seq<nat>, i: nat)
    requires g.Valid() && Fits(g, d) && InVolume(g, cs)
    ensures i < |EntriesOf(g, d, cs)| <==> InFile(g, |cs|, i / 16)
    ensures i < |EntriesOf(g, d, cs)| ==> EntriesOf(g, d, cs)[i] == EntryIn(g, d, cs, i)
  {
    EntryExists(g, |cs|, i);
  }

  lemma EntrySame(g: Geometry, a: Image, b: Image, cs: seq<nat>, i: nat)
    requires g.Valid() && Fits(g, a) && OwnSame(g, a, b, cs) && InVolume(g, cs) && InFile(g, |cs|, i / 16)
    ensures EntryIn(g, a, cs, i) == EntryIn(g, b, cs, i)
  {
    var c, s := cs[Quot(i / 16, g.spc)], Rem(i / 16, g.spc);
    assert SameCluster(g, a, b, c);
    assert ClusterSector(g, a, c, s) == ClusterSector(g, b, c, s);
  }

  /** A directory's entries depend on its own clusters only. */
  lemma EntriesSame(g: Geometry, a: Image, b: Image, cs: seq<nat>)
    requires g.Valid() && Fits(g, a) && OwnSame(g, a, b, cs) && InVolume(g, cs)
    ensures EntriesOf(g, a, cs) == EntriesOf(g, b, cs)
  {
    forall i | 0 <= i < |EntriesOf(g, a, cs)| ensures EntriesOf(g, a, cs)[i] == EntriesOf(g, b, cs)[i] {
      EntriesAt(g, a, cs, i);
      EntriesAt(g, b, cs, i);
      EntrySame(g, a, b, cs, i);
    }
  }

  /** Where entry `i` lies does not change when the chain grows. */
  lemma EntryPrefix(g: Geometry, d: Image, cs: seq<nat>, ch: seq<nat>, i: nat)
    requires g.Valid() && Fits(g, d) && InVolume(g, ch) && cs <= ch && InFile(g, |cs|, i / 16)
    ensures InVolume(g, cs) && InFile(g, |ch|, i / 16) && EntryIn(g, d, ch, i) == EntryIn(g, d, cs, i)
  {
    PrefixInVolume(g, cs, ch);
  }

  lemma PrefixInVolume(g: Geometry, cs: seq<nat>, ch: seq<nat>)
    requires InVolume(g, ch) && cs <= ch
    ensures InVolume(g, cs)
  {
    forall k | 0 <= k < |cs| ensures g.InRange(cs[k]) {
      assert cs[k] == ch[k];
    }
  }

  lemma ZeroEntry(g: Geometry, d: Image, cs: seq<nat>, ch: seq<nat>, i: nat)
    requires g.Valid() && Fits(g, d) && InVolume(g, ch) && cs <= ch && InFile(g, |ch|, i / 16)
    requires !InFile(g, |cs|, i / 16)
    requires AddedZero(g, d, cs, ch)
    ensures EntryIn(g, d, ch, i) == seq(32, _ => 0)
  {
    var j, s := Quot(i / 16, g.spc), Rem(i / 16, g.spc);
    assert ZeroedCluster(g, d, ch[j]);
    assert ClusterSector(g, d, ch[j], s) == ZeroSector();
  }

  /** Growing by zeroed clusters adds blank entries. */
  lemma {:induction false} EntriesGrown(g: Geometry, a: Image, b: Image, cs: seq<nat>, ch: seq<nat>)
    requires g.Valid() && Fits(g, a) && Widened(g, a, b, cs, ch) && cs <= ch && InVolume(g, ch)
    ensures InVolume(g, cs)
    ensures EntriesOf(g, b, ch) == EntriesOf(g, a, cs) + Blank(Span(|ch| - |cs|, 16 * g.spc))
  {
    PrefixInVolume(g, cs, ch);
    EntriesFewer(g, a, b, cs, ch);
    GrownEntries(g, a, b, cs, ch);
  }

  lemma {:induction false} EntriesFewer(g: Geometry, a: Image, b: Image, cs: seq<nat>, ch: seq<nat>)
    requires g.Valid() && Fits(g, a) && Fits(g, b) && InVolume(g, cs) && InVolume(g, ch) && |cs| <= |ch|
    ensures |EntriesOf(g, b, ch)| == |EntriesOf(g, a, cs)| + Span(|ch| - |cs|, 16 * g.spc)
  {
    SpanSplit(|cs|, |ch| - |cs|, |ch|, 16 * g.spc, |EntriesOf(g, a, cs)|, |EntriesOf(g, b, ch)|);
  }

  lemma {:induction false} SpanSplit(m: nat, n: nat, k: nat, per: nat, x: nat, y: nat)
    requires k == m + n && x == Span(m, per) && y == Span(k, per)
    ensures y == x + Span(n, per)
  {
    SpanSum(m, n, per);
  }

  ghost predicate Widening(n: int) { true }

  ghost predicate Widened(g: Geometry, a: Image, b: Image, cs: seq<nat>, ch: seq<nat>)
    requires g.Valid() && Fits(g, a)
  {
    Fits(g, b) && forall n: int :: Widening(n) ==> OwnSame(g, a, b, cs) && AddedZero(g, b, cs, ch)
  }

  lemma GrownEntries(g: Geometry, a: Image, b: Image, cs: seq<nat>, ch: seq<nat>)
    requires g.Valid() && Fits(g, a) && Widened(g, a, b, cs, ch) && cs <= ch && InVolume(g, ch) && InVolume(g, cs)
    requires |EntriesOf(g, a, cs)| <= |EntriesOf(g, b, ch)|
    ensures EntriesOf(g, b, ch) == EntriesOf(g, a, cs) + Blank(|EntriesOf(g, b, ch)| - |EntriesOf(g, a, cs)|)
  {
    var x, y := EntriesOf(g, b, ch), EntriesOf(g, a, cs);
    forall i | 0 <= i < |x| ensures x[i] == if i < |y| then y[i] else seq(32, _ => 0) {
      GrownEntry(g, a, b, cs, ch, i);
    }
    BlankTail(x, y);
  }

  lemma GrownEntry(g: Geometry, a: Image, b: Image, cs: seq<nat>, ch: seq<nat>, i: nat)
    requires g.Valid() && Fits(g, a) && Widened(g, a, b, cs, ch) && cs <= ch && InVolume(g, ch) && InVolume(g, cs)
    requires i < |EntriesOf(g, b, ch)|
    ensures EntriesOf(g, b, ch)[i] == if i < |EntriesOf(g, a, cs)| then EntriesOf(g, a, cs)[i] else seq(32, _ => 0)
  {
    assert Widening(0);
    EntriesAt(g, b, ch, i);
    EntriesAt(g, a, cs, i);
    if InFile(g, |cs|, i / 16) {
      EntryPrefix(g, b, cs, ch, i);
      EntrySame(g, a, b, cs, i);
    } else {
      ZeroEntry(g, b, cs, ch, i);
    }
  }

  lemma BlankTail(x: Entries, y: Entries)
    requires |y| <= |x| && forall i :: 0 <= i < |x| ==> x[i] == if i < |y| then y[i] else seq(32, _ => 0)
    ensures x == y + Blank(|x| - |y|)
  {
  }

  /** The source splits an entry's index by cluster and then by sector. */
  lemma LocateEntry(spc: nat, index: nat)
    requires 0 < spc
    ensures 0 < 16 * spc
    ensures index / (16 * spc) == Quot(index / 16, spc)
    ensures index % (16 * spc) / 16 == Rem(index / 16, spc) && index % (16 * spc) % 16 == index % 16
  {
    var q, o := index / 16, index % 16;
    var i, s := Quot(q, spc), Rem(q, spc);
    QuotRem(q, spc);
    var n, r := 16 * spc, s * 16 + o;
    assert i * n == i * spc * 16;
    assert index == i * n + r;
    QuotOf(n, i, r);
    QuotIsDiv(index, n);
  }

  /** Which cluster of a directory holds entry `index`. */
  ghost function ClusterFor(g: Geometry, index: nat): nat
    requires g.Valid()
  {
    Quot(index / 16, g.spc)
  }

  ghost function PositionOf(g: Geometry, cs: seq<nat>, index: nat): Position
    requires g.Valid() && InVolume(g, cs) && InFile(g, |cs|, index / 16)
  {
    Position(LbaOf(g, cs, index / 16), index % 16 * 32)
  }

  /** `dir_entry_at`: the entry and where it lies, or nothing past the last cluster. */
  method EntryAt(fat: Fat, first: nat, index: nat, ghost cs: seq<nat>, ghost live: bool)
    returns (found: bool, ent: DirEntry, pos: Position)
    requires fat.Valid() && Owns(fat.dev.fat, cs) && HeadOf(cs, first) && InVolume(fat.dev.g, cs)
    modifies fat.dev, fat`memoFirst, fat`memoIndex, fat`memoCluster, fat`linkSteps
    ensures fat.Valid() && fat.dev.fat == old(fat.dev.fat)
    ensures TableOnly(fat.dev.g, old(View(fat, cs, live)), View(fat, cs, live))
    ensures Evolves(fat.dev.g, old(View(fat, cs, live)), View(fat, cs, live))
    ensures Trunk(cs, old(View(fat, cs, live)), View(fat, cs, live))
    ensures found <==> InFile(fat.dev.g, |cs|, index / 16)
    ensures old(!fat.dev.dirty) ==> !fat.dev.dirty && fat.dev.log == old(fat.dev.log)
    ensures found ==> Looked(fat.dev.g, fat.dev.fat, first, ClusterFor(fat.dev.g, index), old(fat.At()), fat.At())
    ensures found ==> ent == EntryIn(fat.dev.g, fat.dev.sectors, cs, index) && pos == PositionOf(fat.dev.g, cs, index)
    ensures old(fat.Exact()) ==> fat.Exact()
  {
    var g := fat.dev.g;
    LocateEntry(g.spc, index);
    var perCluster := 16 * g.spc;
    var cluster := NthOf(fat, first, index / perCluster, cs, live);
    if cluster == 0 {
      return false, seq(32, _ => 0), Position(0, 0);
    }
    var within := index % perCluster;
    var lba := g.ClusterLba(cluster) + within / 16;
    assert lba == LbaOf(g, cs, index / 16);
    var off := within % 16 * 32;
    ent := fat.dev.sectors[lba][off..off + 32];
    found, pos := true, Position(lba, off);
  }

  /** `dir_entry_put`: read, modify, write. Exactly that entry changes: no other entry of the directory,
      and no cluster of anything else. */
  method EntryPut(fat: Fat, pos: Position, ent: DirEntry, ghost index: nat, ghost cs: seq<nat>, ghost live: bool)
    requires fat.Valid() && IsChain(fat.dev.fat, cs) && InVolume(fat.dev.g, cs) && InFile(fat.dev.g, |cs|, index / 16)
    requires pos == PositionOf(fat.dev.g, cs, index)
    modifies fat.dev
    ensures fat.Valid() && fat.dev.fat == old(fat.dev.fat) && fat.dev.Holds() == old(fat.dev.Holds())
    ensures fat.dev.log == old(fat.dev.log) + [Moment(fat.dev.sectors, fat.dev.disk)]
    ensures Evolves(fat.dev.g, old(View(fat, cs, live)), View(fat, cs, live))
    ensures index < |EntriesOf(fat.dev.g, old(fat.dev.sectors), cs)|
    ensures EntriesOf(fat.dev.g, fat.dev.sectors, cs) == EntriesOf(fat.dev.g, old(fat.dev.sectors), cs)[index := ent]
    ensures forall c :: fat.dev.g.InRange(c) && c !in cs ==>
      SameCluster(fat.dev.g, old(fat.dev.sectors), fat.dev.sectors, c)
    ensures old(fat.Exact()) ==> fat.Exact()
  {
    ghost var g, a := fat.dev.g, fat.dev.sectors;
    var s := fat.dev.sectors[pos.lba];
    var w: Sector := s[..pos.off] + ent + s[pos.off + 32..];
    ChainAcyclic(fat.dev.fat, cs);
    EntryPlace(index, 0);
    EntryExists(g, |cs|, index);
    PatchSector(g, a, cs, 32 * index, ent, w);
    PutSector(fat, pos.lba, w, index / 16, cs, live);
    EntriesPatched(g, a, fat.dev.sectors, cs, index, ent);
  }

  lemma EntryPatched(g: Geometry, a: Image, b: Image, cs: seq<nat>, index: nat, ent: DirEntry, i: nat)
    requires g.Valid() && Fits(g, a) && InVolume(g, cs) && Patched(g, a, b, cs, 32 * index, ent)
    requires InFile(g, |cs|, i / 16)
    ensures EntryIn(g, b, cs, i) == if i == index then ent else EntryIn(g, a, cs, i)
  {
    forall k | 0 <= k < 32 ensures EntryIn(g, b, cs, i)[k] == if i == index then ent[k] else EntryIn(g, a, cs, i)[k] {
      EntryBytes(g, a, cs, i, k);
      EntryBytes(g, b, cs, i, k);
      assert PatchedAt(g, a, b, cs, 32 * index, ent, 32 * i + k);
    }
  }

  lemma EntriesPatched(g: Geometry, a: Image, b: Image, cs: seq<nat>, index: nat, ent: DirEntry)
    requires g.Valid() && Fits(g, a) && InVolume(g, cs) && Patched(g, a, b, cs, 32 * index, ent)
    requires InFile(g, |cs|, index / 16)
    ensures index < |EntriesOf(g, a, cs)| && EntriesOf(g, b, cs) == EntriesOf(g, a, cs)[index := ent]
  {
    EntryExists(g, |cs|, index);
    var x, y := EntriesOf(g, b, cs), EntriesOf(g, a, cs);
    forall i | 0 <= i < |x| ensures x[i] == y[index := ent][i] {
      EntriesAt(g, b, cs, i);
      EntriesAt(g, a, cs, i);
      EntryPatched(g, a, b, cs, index, ent, i);
    }
  }

  // ---------------------------------------------------------------- runs of reads and writes

  ghost predicate Watched(n: int) { true }

  /** An entry that a remount makes a node with clusters of. */
  ghost predicate Pointing(e: DirEntry) {
    PlainShort(e) && !Inert(e) && 2 <= ClusterOf(e)
  }

  /** Every entry of `f` that points anywhere was there in `e`, those at `loud` aside. */
  ghost predicate Mutes(e: Entries, f: Entries, loud: set<nat>) {
    |f| == |e| && forall i :: 0 <= i < |e| ==> f[i] == e[i] || i in loud || !Pointing(f[i])
  }

  ghost predicate MutedOn(g: Geometry, cs: seq<nat>, a: Image, b: Image, loud: set<nat>)
    requires g.Valid() && Fits(g, a) && InVolume(g, cs)
  {
    Fits(g, b) && Mutes(EntriesOf(g, a, cs), EntriesOf(g, b, cs), loud)
  }

  /** From `a` to `b` the directory was read and written, and at every moment of the way the table on the
      device showed its old chain or was what it had been, and no entry pointed anywhere new except those
      at `loud`; folded behind `Watched`. */
  ghost predicate Quiet(g: Geometry, a: Snap, b: Snap, loud: set<nat>) {
    && Evolves(g, a, b) && Trunk(a.chain, a, b) && InVolume(g, a.chain)
    && forall n: int :: Watched(n) ==> QuietFacts(g, a, b, loud)
  }

  ghost predicate QuietFacts(g: Geometry, a: Snap, b: Snap, loud: set<nat>)
    requires g.Valid() && Fits(g, a.image) && InVolume(g, a.chain)
  {
    && MutedOn(g, a.chain, a.image, b.image, loud)
    && forall i :: |a.log| <= i < |b.log| ==> MutedOn(g, a.chain, a.image, b.log[i].image, loud)
  }

  lemma MutedTrans(g: Geometry, cs: seq<nat>, a: Image, b: Image, c: Image, loud: set<nat>)
    requires g.Valid() && Fits(g, a) && InVolume(g, cs) && MutedOn(g, cs, a, b, loud) && MutedOn(g, cs, b, c, loud)
    ensures MutedOn(g, cs, a, c, loud)
  {
  }

  lemma QuietTrans(g: Geometry, a: Snap, b: Snap, c: Snap, loud: set<nat>)
    requires Quiet(g, a, b, loud) && Quiet(g, b, c, loud) && a.chain == b.chain
    ensures Quiet(g, a, c, loud)
  {
    assert Watched(0);
    EvolvesTrans(g, a, b, c);
    TrunkTrans(g, a.chain, a, b, c);
    MutedTrans(g, a.chain, a.image, b.image, c.image, loud);
    forall i | |a.log| <= i < |c.log| ensures MutedOn(g, a.chain, a.image, c.log[i].image, loud) {
      if i < |b.log| {
        assert c.log[i] == b.log[i];
      } else {
        MutedTrans(g, a.chain, a.image, b.image, c.log[i].image, loud);
      }
    }
  }

  lemma QuietRefl(g: Geometry, a: Snap, loud: set<nat>)
    requires Sound(g, a) && (a.live ==> Owns(a.table, a.chain)) && InVolume(g, a.chain)
    ensures Quiet(g, a, a, loud)
  {
    EvolvesRefl(g, a);
    TrunkRefl(a.chain, a, a);
  }

  lemma QuietLouder(g: Geometry, a: Snap, b: Snap, loud: set<nat>, loud': set<nat>)
    requires Quiet(g, a, b, loud) && loud <= loud'
    ensures Quiet(g, a, b, loud')
  {
    assert Watched(0);
  }

  /** Growing shows nothing new. */
  lemma QuietGrown(g: Geometry, a: Snap, b: Snap)
    requires Grows(g, a.chain, true, a, b) && InVolume(g, a.chain)
    ensures Quiet(g, a, b, {})
  {
    assert Filmed(0);
    EntriesSame(g, a.image, b.image, a.chain);
    forall i | |a.log| <= i < |b.log| ensures MutedOn(g, a.chain, a.image, b.log[i].image, {}) {
      EntriesSame(g, a.image, b.log[i].image, a.chain);
    }
  }

  /** Nor does a flush of the table. */
  lemma QuietTable(g: Geometry, a: Snap, b: Snap)
    requires Evolves(g, a, b) && TableOnly(g, a, b) && Trunk(a.chain, a, b) && InVolume(g, a.chain)
    ensures Quiet(g, a, b, {}) && EntriesOf(g, b.image, a.chain) == EntriesOf(g, a.image, a.chain)
  {
    GrowsTable(g, a.chain, true, a, b);
    QuietGrown(g, a, b);
    OwnFatFrame(g, a.image, b.image, a.chain);
    EntriesSame(g, a.image, b.image, a.chain);
  }

  /** One entry was written. */
  lemma QuietPut(g: Geometry, a: Snap, b: Snap, index: nat, ent: DirEntry)
    requires Evolves(g, a, b) && InVolume(g, a.chain) && index < |EntriesOf(g, a.image, a.chain)|
    requires EntriesOf(g, b.image, a.chain) == EntriesOf(g, a.image, a.chain)[index := ent]
    requires b.log == a.log + [Moment(b.image, b.disk)] && b.disk == a.disk
    ensures Quiet(g, a, b, if Pointing(ent) then {index} else {})
  {
    assert b.log[|a.log|].table == a.disk;
    assert Trunk(a.chain, a, b);
  }

  /** Until the last of its writes the run showed no entry that points anywhere new. */
  ghost predicate QuietButLast(g: Geometry, a: Snap, b: Snap) {
    exists m: Snap :: Quiet(g, a, m, {}) && m.chain == a.chain && m.log <= b.log && |m.log| + 1 == |b.log|
  }

  lemma QuietThenLast(g: Geometry, a: Snap, b: Snap, c: Snap)
    requires Quiet(g, a, b, {}) && QuietButLast(g, b, c) && b.chain == a.chain
    ensures QuietButLast(g, a, c) && |a.log| < |c.log|
  {
    var m :| Quiet(g, b, m, {}) && m.chain == b.chain && m.log <= c.log && |m.log| + 1 == |c.log|;
    QuietTrans(g, a, b, m, {});
    assert a.log <= m.log by {
      assert Replayed(0);
    }
  }

  /** The directory stored in `cs` holds the entries `e`. */
  ghost predicate Reads(fat: Fat, first: nat, cs: seq<nat>, e: Entries)
    reads fat, fat.dev
  {
    && fat.Valid() && IsChain(fat.dev.fat, cs) && first == cs[0] && InVolume(fat.dev.g, cs)
    && EntriesOf(fat.dev.g, fat.dev.sectors, cs) == e
  }

  /** One read of a scan. */
  method Fetch(fat: Fat, first: nat, i: nat, ghost cs: seq<nat>, ghost e: Entries)
    returns (found: bool, ent: DirEntry, pos: Position)
    requires Reads(fat, first, cs, e)
    modifies fat.dev, fat`memoFirst, fat`memoIndex, fat`memoCluster, fat`linkSteps
    ensures Reads(fat, first, cs, e) && fat.dev.fat == old(fat.dev.fat)
    ensures Quiet(fat.dev.g, old(View(fat, cs, true)), View(fat, cs, true), {})
    ensures old(!fat.dev.dirty) ==> !fat.dev.dirty && fat.dev.log == old(fat.dev.log)
    ensures found ==> Looked(fat.dev.g, fat.dev.fat, first, ClusterFor(fat.dev.g, i), old(fat.At()), fat.At())
    ensures found <==> i < |e|
    ensures found ==> ent == e[i] && InFile(fat.dev.g, |cs|, i / 16) && pos == PositionOf(fat.dev.g, cs, i)
    ensures old(fat.Exact()) ==> fat.Exact()
  {
    ghost var a := View(fat, cs, true);
    found, ent, pos := EntryAt(fat, first, i, cs, true);
    QuietTable(fat.dev.g, a, View(fat, cs, true));
    EntriesAt(fat.dev.g, fat.dev.sectors, cs, i);
  }

  /** One write of a run: the entry is looked up, then put. */
  method PutEntry(fat: Fat, first: nat, i: nat, ent: DirEntry, ghost cs: seq<nat>, ghost e: Entries)
    requires Reads(fat, first, cs, e) && i < |e|
    modifies fat.dev, fat`memoFirst, fat`memoIndex, fat`memoCluster, fat`linkSteps
    ensures Reads(fat, first, cs, e[i := ent]) && fat.dev.fat == old(fat.dev.fat)
    ensures Looked(fat.dev.g, fat.dev.fat, first, ClusterFor(fat.dev.g, i), old(fat.At()), fat.At())
    ensures Quiet(fat.dev.g, old(View(fat, cs, true)), View(fat, cs, true), if Pointing(ent) then {i} else {})
    ensures QuietButLast(fat.dev.g, old(View(fat, cs, true)), View(fat, cs, true))
    ensures old(fat.Exact()) ==> fat.Exact()
  {
    ghost var g, a := fat.dev.g, View(fat, cs, true);
    var found, old_, pos := Fetch(fat, first, i, cs, e);
    ghost var mid := View(fat, cs, true);
    PutAt(fat, first, pos, i, ent, cs, e);
    QuietLouder(g, a, mid, {}, if Pointing(ent) then {i} else {});
    QuietTrans(g, a, mid, View(fat, cs, true), if Pointing(ent) then {i} else {});
  }

  /** The write itself. */
  method PutAt(fat: Fat, first: nat, pos: Position, i: nat, ent: DirEntry, ghost cs: seq<nat>, ghost e: Entries)
    requires Reads(fat, first, cs, e) && i < |e|
    requires InFile(fat.dev.g, |cs|, i / 16) && pos == PositionOf(fat.dev.g, cs, i)
    modifies fat.dev
    ensures Reads(fat, first, cs, e[i := ent]) && fat.dev.fat == old(fat.dev.fat)
    ensures fat.dev.Holds() == old(fat.dev.Holds())
    ensures fat.dev.log == old(fat.dev.log) + [Moment(fat.dev.sectors, fat.dev.disk)]
    ensures Quiet(fat.dev.g, old(View(fat, cs, true)), View(fat, cs, true), if Pointing(ent) then {i} else {})
    ensures old(fat.Exact()) ==> fat.Exact()
  {
    ghost var a := View(fat, cs, true);
    EntryPut(fat, pos, ent, i, cs, true);
    QuietPut(fat.dev.g, a, View(fat, cs, true), i, ent);
  }

  lemma FlushQuiet(g: Geometry, a: Snap, b: Snap)
    requires Sound(g, a) && Sound(g, b) && Owns(a.table, a.chain) && InVolume(g, a.chain)
    requires b.table == a.table && b.chain == a.chain && b.live == a.live
    requires SameOutsideFat(g, b.image, a.image) && Logged(g, a.log, b.log, a.table, a.image)
    ensures Quiet(g, a, b, {}) && EntriesOf(g, b.image, a.chain) == EntriesOf(g, a.image, a.chain)
  {
    ReadStep(g, a, b);
    TrunkRead(g, a.chain, a, b);
    QuietTable(g, a, b);
  }

  /** The flush of the table shows nothing new in a directory. */
  method FlushAfter(fat: Fat, first: nat, ghost cs: seq<nat>, ghost e: Entries)
    requires Reads(fat, first, cs, e)
    modifies fat.dev
    ensures Reads(fat, first, cs, e) && !fat.dev.dirty && fat.dev.fat == old(fat.dev.fat)
    ensures old(fat.Exact()) ==> fat.Exact()
    ensures Quiet(fat.dev.g, old(View(fat, cs, true)), View(fat, cs, true), {})
  {
    ghost var b := View(fat, cs, true);
    fat.dev.Flush();
    FlushQuiet(fat.dev.g, b, View(fat, cs, true));
  }
}
