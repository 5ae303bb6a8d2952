/** Reading, writing and resizing a file of a mounted volume (kernel/fat32.c:783-934). */
module FileOps {
  import opened Bytes
  import opened Geometry
  import opened Quotient
  import opened Chains
  import opened FatCache
  import opened ClusterData
  import opened Evolution
  import opened Allocation
  import opened Growth
  import opened FileIo
  import opened FileBytes
  import opened Resizing
  import opened LongNames
  import opened Layout
  import opened Edits
  import opened Spelling
  import opened DirectoryIo
  import opened Directory
  import opened Entering
  import opened Ownership
  import opened World
  import opened Keeping
  import opened CrashSafety
  import opened Steps

  ghost predicate Moored(n: int) { true }

  /** The volume and its tree agree; entries in `skip` own nothing. Folded behind `Moored`. */
  ghost predicate Ready(fat: Fat, s: State, skip: set<Ref>, lost: set<nat>)
    reads fat, fat.dev
  {
    fat.Valid() && Spare in s.chains && forall n: int :: Moored(n) ==>
      Stands(fat.dev.g, s, skip, lost, View(fat, [], false))
  }

  /** What is known of a file. */
  lemma FileFacts(g: Geometry, s: State, skip: set<Ref>, lost: set<nat>, a: Snap, r: Ref)
    requires Stands(g, s, skip, lost, a) && Has(s, r) && r !in skip && !Rec(s, r).isDir
    ensures OfFile(r) in s.chains && Owns(a.table, s.chains[OfFile(r)]) && InVolume(g, s.chains[OfFile(r)])
    ensures HeadOf(s.chains[OfFile(r)], Rec(s, r).cluster) && Rec(s, r).length <= Room(g, |s.chains[OfFile(r)]|)
    ensures Storable(Rec(s, r))
    ensures Told(g, a.image, s.chains, r, Rec(s, r))
    ensures BytesOf(g, a.image, s, r) == Raw(g, a.image, s.chains[OfFile(r)])[..Rec(s, r).length]
  {
    NodeOf(g, s, skip, r);
    ForestOwns(a.table, s.chains, OfFile(r));
    ChainInVolume(g, a.table, s.chains[OfFile(r)]);
    NodeTold(g, a.image, s, skip, r);
  }

  /** What is known of a directory. */
  lemma DirFacts(g: Geometry, s: State, skip: set<Ref>, lost: set<nat>, a: Snap, d: nat)
    requires Stands(g, s, skip, lost, a) && d in s.tree
    ensures OfDir(d) in s.chains && IsChain(a.table, s.chains[OfDir(d)]) && s.chains[OfDir(d)][0] == d
    ensures InVolume(g, s.chains[OfDir(d)])
    ensures WellKept(DirEntries(g, a.image, s.chains, d), s.tree[d])
    ensures DirEntries(g, a.image, s.chains, d) == EntriesOf(g, a.image, s.chains[OfDir(d)])
  {
    DirOf(g, s, skip, d);
    ForestOwns(a.table, s.chains, OfDir(d));
    ChainInVolume(g, a.table, s.chains[OfDir(d)]);
    EntriesKept(g, a.image, s, skip, d);
  }

  /** The tree once the file at `r` has the record `rec` and the clusters `ch`. */
  ghost function Updated(s: State, r: Ref, rec: Record, ch: seq<nat>): State
    requires r.dir in s.tree
  {
    Noted(s.(chains := s.chains[OfFile(r) := ch]), r, rec)
  }

  lemma UpdatedIs(s: State, r: Ref, rec: Record, ch: seq<nat>)
    requires r.dir in s.tree && Spare in s.chains && s.chains[Spare] == []
    ensures Spare in Waiting(s, r, ch).chains && Adopted(Noted(Waiting(s, r, ch), r, rec), r) == Updated(s, r, rec, ch)
  {
    assert Adopted(Noted(Waiting(s, r, ch), r, rec), r).chains == Updated(s, r, rec, ch).chains;
  }

  ghost predicate Enlisted(n: int) { true }

  /** The entry at `r` is some file's; folded behind `Enlisted`. */
  ghost predicate HasFileEntry(g: Geometry, im: Image, w: Chained, r: Ref) {
    && g.Valid() && Fits(g, im)
    && forall n: int :: Enlisted(n) ==>
      r.at < |DirEntries(g, im, w, r.dir)| && !Inert(DirEntries(g, im, w, r.dir)[r.at])
        && !IsDirEntry(DirEntries(g, im, w, r.dir)[r.at])
  }

  /** `dirent_update`, once the table is on the device: one sector write, after which the file's entry names
      the clusters the file has. */
  method Publish(fat: Fat, r: Ref, rec: Record, stamp: Stamp, ghost s: State, ghost lost: set<nat>)
    requires Ready(fat, s, {r}, lost) && !fat.dev.dirty && Has(s, r)
    requires !rec.isDir && !Rec(s, r).isDir && rec.name == Rec(s, r).name && rec.slots == Rec(s, r).slots
    requires Storable(rec)
    requires HeadOf(s.chains[Spare], rec.cluster) && rec.length <= Room(fat.dev.g, |s.chains[Spare]|)
    requires HasFileEntry(fat.dev.g, fat.dev.sectors, s.chains, r)
    modifies fat.dev, fat`memoFirst, fat`memoIndex, fat`memoCluster, fat`linkSteps
    ensures Ready(fat, Adopted(Noted(s, r, rec), r), {}, lost) && !fat.dev.dirty
    ensures fat.dev.fat == old(fat.dev.fat) && (old(fat.Exact()) ==> fat.Exact())
    ensures fat.dev.log == old(fat.dev.log) + [Moment(fat.dev.sectors, fat.dev.disk)]
    ensures OwnSame(fat.dev.g, old(fat.dev.sectors), fat.dev.sectors, s.chains[Spare])
    ensures Carried(fat.dev.g, old(fat.dev.sectors), s, fat.dev.sectors, Adopted(Noted(s, r, rec), r), {r}, {r})
    ensures ReadsBack(fat.dev.g, old(fat.dev.sectors), s, r) ==>
      ReadsBack(fat.dev.g, fat.dev.sectors, Adopted(Noted(s, r, rec), r), r)
  {
    assert Moored(0);
    ghost var g, d := fat.dev.g, r.dir;
    ghost var z := View(fat, [], false);
    DirFacts(g, s, {r}, lost, z, d);
    ghost var cs := s.chains[OfDir(d)];
    ghost var a, e := View(fat, cs, true), EntriesOf(g, fat.dev.sectors, cs);
    assert Enlisted(0);
    ghost var h := UpdateEntry(fat, r.dir, r.at, rec, stamp, cs, e, s.tree[d]);
    ghost var b := View(fat, cs, true);
    PublishedTells(g, s, lost, a, b, r, rec, h);
  }

  lemma PublishedTells(g: Geometry, s: State, lost: set<nat>, a: Snap, b: Snap, r: Ref, rec: Record, h: Entries)
    requires Stands(g, s, {r}, lost, a) && OfDirAt(a, s, r.dir) && Quiet(g, a, b, {r.at}) && b.table == a.table
    requires b.chain == a.chain
    requires Has(s, r) && Spare in s.chains && b.disk == b.table && !rec.isDir && Storable(rec)
    requires HeadOf(s.chains[Spare], rec.cluster) && rec.length <= Room(g, |s.chains[Spare]|)
    requires h == EntriesOf(g, b.image, a.chain) && WellKept(h, s.tree[r.dir][r.at := rec]) && TellsAt(h, r.at, rec)
    requires Stays(DirEntries(g, a.image, s.chains, r.dir), h, s.tree[r.dir] - {r.at})
    requires ShortUnique(DirEntries(g, a.image, s.chains, r.dir)) ==> ShortUnique(h)
    requires Faithful(DirEntries(g, a.image, s.chains, r.dir), r.at, Rec(s, r)) ==> Faithful(h, r.at, rec)
    ensures var s' := Adopted(Noted(s, r, rec), r);
      && Stands(g, s', {}, lost, b) && Carried(g, a.image, s, b.image, s', {r}, {r})
      && (ReadsBack(g, a.image, s, r) ==> ReadsBack(g, b.image, s', r))
    ensures OwnSame(g, a.image, b.image, s.chains[Spare])
  {
    var mid := Noted(s, r, rec);
    var s' := Adopted(mid, r);
    assert r.at in Loud({r}, r.dir) by {
      assert r in {r} && r.dir == r.dir;
    }
    DirStored(g, s, {r}, lost, a, b, r, rec, h, {r.at}, {r});
    assert {r} + {r} == {r} && {r} - {r} == {};
    assert DirEntries(g, b.image, mid.chains, r.dir) == h;
    Adopt(g, mid, {r}, lost, b, r);
    CarriedMore(g, a.image, s, b.image, mid, {r}, {}, {r}, {r});
    CarriedMore(g, b.image, mid, b.image, s', {}, {r}, {r}, {r});
    CarriedTrans(g, a.image, s, b.image, mid, b.image, s', {r}, {r});
    NodeCarried(g, b.image, mid, b.image, s', {}, {r}, r);
    EvolvedKept(g, a, b, s.chains, OfDir(r.dir));
  }

  lemma SafeLogSnoc(g: Geometry, dirs: set<nat>, skip: set<Ref>, before: seq<Moment>, after: seq<Moment>, s: State,
      m: Moment)
    requires SafeLog(g, dirs, skip, before, after) && SafeAt(g, s, {}, m) && dirs <= s.tree.Keys
    ensures SafeLog(g, dirs, skip, before, after + [m])
  {
    assert Retold(0);
    SafeIsCrashSafe(g, s, {}, m, dirs, skip);
  }

  /** The record of a file of the same name in the same place. */
  predicate SameName(rec: Record, was: Record) {
    !rec.isDir && !was.isDir && rec.name == was.name && rec.slots == was.slots
  }

  /** The end of a write or a resize that began at `a`: the table is flushed, then the entry written, so that
      every moment of the way is safe. */
  method Conclude(fat: Fat, r: Ref, rec: Record, stamp: Stamp, ghost s: State, ghost lost: set<nat>, ghost a: Snap,
      ghost ch: seq<nat>)
    requires fat.Valid() && Stands(fat.dev.g, s, {}, lost, a) && OfNoDir(a, s, OfFile(r)) && Spare in s.chains
    requires s.chains[Spare] == []
    requires Evolves(fat.dev.g, a, View(fat, ch, a.live)) && Owns(fat.dev.fat, ch) && Counts(a, View(fat, ch, a.live))
    requires Has(s, r) && SameName(rec, Rec(s, r)) && Storable(rec)
    requires HeadOf(ch, rec.cluster) && rec.length <= Room(fat.dev.g, |ch|)
    modifies fat.dev, fat`memoFirst, fat`memoIndex, fat`memoCluster, fat`linkSteps
    ensures Ready(fat, Updated(s, r, rec, ch), {}, lost) && fat.dev.fat == old(fat.dev.fat) && !fat.dev.dirty
    ensures old(fat.Exact()) ==> fat.Exact()
    ensures OwnSame(fat.dev.g, old(fat.dev.sectors), fat.dev.sectors, ch)
    ensures Carried(fat.dev.g, a.image, s, fat.dev.sectors, Updated(s, r, rec, ch), {r}, {r})
    ensures ReadsBack(fat.dev.g, a.image, s, r) ==> ReadsBack(fat.dev.g, fat.dev.sectors, Updated(s, r, rec, ch), r)
    ensures SafeLog(fat.dev.g, s.tree.Keys, {}, a.log, fat.dev.log)
  {
    ghost var g, b := fat.dev.g, View(fat, ch, a.live);
    FlushFile(fat, r, s, lost, a, ch);
    assert Moored(0);
    ghost var c, mid := View(fat, [], false), Waiting(s, r, ch);
    Publish(fat, r, rec, stamp, mid, lost);
    UpdatedIs(s, r, rec, ch);
    OwnSameTrans(g, b.image, c.image, fat.dev.sectors, ch);
    CarriedMore(g, a.image, s, c.image, mid, {}, {r}, {r}, {r});
    CarriedTrans(g, a.image, s, c.image, mid, fat.dev.sectors, Updated(s, r, rec, ch), {r}, {r});
    NodeCarried(g, a.image, s, c.image, mid, {}, {r}, r);
    SafeLogSnoc(g, s.tree.Keys, {}, a.log, c.log, Updated(s, r, rec, ch), Moment(fat.dev.sectors, fat.dev.disk));
  }

  /** The flush after work on a file: what is left to do is to tell its entry. */
  method FlushFile(fat: Fat, ghost r: Ref, ghost s: State, ghost lost: set<nat>, ghost a: Snap, ghost ch: seq<nat>)
    requires fat.Valid() && Stands(fat.dev.g, s, {}, lost, a) && OfNoDir(a, s, OfFile(r)) && Spare in s.chains
    requires s.chains[Spare] == []
    requires Evolves(fat.dev.g, a, View(fat, ch, a.live)) && Owns(fat.dev.fat, ch) && Counts(a, View(fat, ch, a.live))
    requires Has(s, r) && !Rec(s, r).isDir
    modifies fat.dev
    ensures Ready(fat, Waiting(s, r, ch), {r}, lost) && !fat.dev.dirty && fat.dev.fat == old(fat.dev.fat)
    ensures old(fat.Exact()) ==> fat.Exact()
    ensures HasFileEntry(fat.dev.g, fat.dev.sectors, Waiting(s, r, ch).chains, r)
    ensures OwnSame(fat.dev.g, old(fat.dev.sectors), fat.dev.sectors, ch)
    ensures Carried(fat.dev.g, a.image, s, fat.dev.sectors, Waiting(s, r, ch), {}, {r})
    ensures SafeLog(fat.dev.g, s.tree.Keys, {}, a.log, fat.dev.log)
  {
    ghost var g, b := fat.dev.g, View(fat, ch, a.live);
    fat.dev.Flush();
    ghost var c := View(fat, ch, a.live);
    ReadStep(g, b, c);
    EvolvesTrans(g, a, b, c);
    OwnFatFrame(g, b.image, c.image, ch);
    FlushedFile(g, s, lost, a, c, r);
  }

  lemma FlushedFile(g: Geometry, s: State, lost: set<nat>, a: Snap, c: Snap, r: Ref)
    requires Stands(g, s, {}, lost, a) && OfNoDir(a, s, OfFile(r)) && Spare in s.chains && s.chains[Spare] == []
    requires Evolves(g, a, c) && Owns(c.table, c.chain) && Counts(a, c) && Has(s, r) && !Rec(s, r).isDir
    ensures Stands(g, Waiting(s, r, c.chain), {r}, lost, c.(chain := [], live := false))
    ensures HasFileEntry(g, c.image, Waiting(s, r, c.chain).chains, r)
    ensures Carried(g, a.image, s, c.image, Waiting(s, r, c.chain), {}, {r})
    ensures SafeLog(g, s.tree.Keys, {}, a.log, c.log)
  {
    FileFacts(g, s, {}, lost, a, r);
    FileStep(g, s, {}, lost, a, c, r);
    assert {} + {r} == {r};
    ToldAlike(g, a.image, c.image, s, Waiting(s, r, c.chain).chains, r, Rec(s, r));
    ToldFile(g, c.image, Waiting(s, r, c.chain).chains, r, Rec(s, r));
    SafeLogOf(g, s, {}, a.log, c.log, s.tree.Keys, {});
  }

  // ---------------------------------------------------------------- write

  /** What the clusters of a file hold past its end. */
  ghost function SlackOf(g: Geometry, im: Image, s: State, r: Ref): seq<Byte>
    requires g.Valid() && Fits(g, im)
  {
    if Has(s, r) && OfFile(r) in s.chains && InVolume(g, s.chains[OfFile(r)]) && Rec(s, r).length <= Room(g,
      |s.chains[OfFile(r)]|)
    then Raw(g, im, s.chains[OfFile(r)])[Rec(s, r).length..]
    else []
  }

  ghost function Max(a: nat, b: nat): nat {
    if a < b then b else a
  }

  /** What a write leaves of the bytes `before`. Past the end of the file it leaves a gap, in which the slack
      shows and then zeros. */
  ghost function Written(before: seq<Byte>, slack: seq<Byte>, offset: nat, data: seq<Byte>): seq<Byte> {
    if offset <= |before|
    then before[..offset] + data + (if offset + |data| < |before| then before[offset + |data|..] else [])
    else before + Resized(slack, offset - |before|) + data
  }

  ghost predicate AllZero(b: seq<Byte>, lo: nat, hi: nat) {
    forall p :: lo <= p < hi && p < |b| ==> b[p] == 0
  }

  /** A gap reads as zero exactly when the slack it covers was zero: `fat_write` does not scrub it. */
  lemma GapReadsZero(before: seq<Byte>, slack: seq<Byte>, offset: nat, data: seq<Byte>)
    ensures |before| < offset ==>
      (AllZero(Written(before, slack, offset, data), |before|, offset) <==> AllZero(slack, 0, offset - |before|))
  {
    if |before| < offset {
      var gap, all := Resized(slack, offset - |before|), Written(before, slack, offset, data);
      assert forall i :: 0 <= i < |gap| ==> gap[i] == if i < |slack| then slack[i] else 0;
      assert forall p :: |before| <= p < offset ==> all[p] == gap[p - |before|];
      if AllZero(all, |before|, offset) {
        forall i | 0 <= i < offset - |before| && i < |slack| ensures slack[i] == 0 {
          assert all[|before| + i] == 0;
        }
      }
    }
  }

  lemma StoredWritten(raw: seq<Byte>, after: seq<Byte>, length: nat, offset: nat, data: seq<Byte>)
    requires Stored(raw, after, offset, data) && length <= |raw|
    ensures after[..Max(length, offset + |data|)] == Written(raw[..length], raw[length..], offset, data)
  {
    var padded, slack := Padded(raw, |after|), raw[length..];
    if offset <= length {
      WriteInside(raw, after, length, offset, data);
    } else {
      var gap := Resized(slack, offset - length);
      assert forall i :: 0 <= i < |gap| ==> gap[i] == padded[length + i];
      assert after[..offset + |data|] == padded[..offset] + data;
      assert padded[..offset] == raw[..length] + gap;
    }
  }

  /** `fat_write`. The range is stored whole or not at all; no other file and no other directory entry changes,
      and every moment of the way is safe. */
  method WriteFile(fat: Fat, r: Ref, rec: Record, offset: nat, data: seq<Byte>, stamp: Stamp, ghost s: State,
      ghost lost: set<nat>)
    returns (ok: bool, now: Record, ghost ch: seq<nat>)
    requires Ready(fat, s, {}, lost) && s.chains[Spare] == [] && Has(s, r) && rec == Rec(s, r) && !rec.isDir
    requires data != [] && offset + |data| + fat.dev.g.ClusterBytes() < WORD
    modifies fat, fat.dev
    ensures OfFile(r) in s.chains
    ensures ok <==> Need(fat.dev.g, offset + |data|) - |s.chains[OfFile(r)]| <= FreeCount(old(fat.dev.fat))
    ensures now == if ok then rec.(cluster := now.cluster, length := Max(rec.length, offset + |data|)) else rec
    ensures Ready(fat, Updated(s, r, now, ch), {}, lost) && (ok ==> !fat.dev.dirty)
    ensures FreeCount(fat.dev.fat) + |ch| == FreeCount(old(fat.dev.fat)) + |s.chains[OfFile(r)]|
    ensures old(fat.Exact()) ==> fat.Exact()
    ensures BytesOf(fat.dev.g, fat.dev.sectors, Updated(s, r, now, ch), r) ==
      if ok then Written(BytesOf(fat.dev.g, old(fat.dev.sectors), s, r), SlackOf(fat.dev.g, old(fat.dev.sectors), s, r),
        offset, data)
      else BytesOf(fat.dev.g, old(fat.dev.sectors), s, r)
    ensures Carried(fat.dev.g, old(fat.dev.sectors), s, fat.dev.sectors, Updated(s, r, now, ch), {r}, {r})
    ensures ReadsBack(fat.dev.g, old(fat.dev.sectors), s, r) ==>
      ReadsBack(fat.dev.g, fat.dev.sectors, Updated(s, r, now, ch), r)
    ensures SafeLog(fat.dev.g, s.tree.Keys, {}, old(fat.dev.log), fat.dev.log)
  {
    assert Moored(0);
    ghost var g, x := fat.dev.g, OfFile(r);
    FileFacts(g, s, {}, lost, View(fat, [], false), r);
    ghost var cs := s.chains[x];
    ghost var a, live := View(fat, cs, cs != []), cs != [];
    var head, touched;
    ok, head, touched, ch := WriteRaw(fat, rec.cluster, offset, data, cs);
    ghost var b := View(fat, ch, live);
    if !ok {
      now := rec;
      Unwritten(g, s, lost, a, b, r);
      return;
    }
    now := rec.(cluster := head, length := if rec.length < offset + |data| then offset + |data| else rec.length);
    NeedLeast(g, offset + |data|, |ch|);
    RoomMonotone(g, |cs|, |ch|);
    Conclude(fat, r, now, stamp, s, lost, a, ch);
    WrittenBytes(g, a.image, b.image, fat.dev.sectors, s, r, now, ch, offset, data);
  }

  lemma WrittenBytes(g: Geometry, a: Image, b: Image, c: Image, s: State, r: Ref, now: Record, ch: seq<nat>,
      offset: nat, data: seq<Byte>)
    requires g.Valid() && Fits(g, a) && Fits(g, b) && OwnSame(g, b, c, ch) && Has(s, r) && OfFile(r) in s.chains
    requires InVolume(g, s.chains[OfFile(r)]) && InVolume(g, ch) && Rec(s, r).length <= Room(g, |s.chains[OfFile(r)]|)
    requires Stored(Raw(g, a, s.chains[OfFile(r)]), Raw(g, b, ch), offset, data)
    requires now.length == Max(Rec(s, r).length, offset + |data|)
    ensures BytesOf(g, c, Updated(s, r, now, ch), r) == Written(BytesOf(g, a, s, r), SlackOf(g, a, s, r), offset, data)
  {
    RawFrame(g, b, c, ch);
    StoredWritten(Raw(g, a, s.chains[OfFile(r)]), Raw(g, b, ch), Rec(s, r).length, offset, data);
    assert Rec(Updated(s, r, now, ch), r) == now;
  }

  /** A write or a growth that found no space leaves the file and the tree as they were. */
  lemma Unwritten(g: Geometry, s: State, lost: set<nat>, a: Snap, b: Snap, r: Ref)
    requires Stands(g, s, {}, lost, a) && Has(s, r) && !Rec(s, r).isDir && OfNoDir(a, s, OfFile(r)) && Evolves(g, a, b)
    requires b.chain == a.chain
    requires Owns(b.table, b.chain) && Counts(a, b) && InVolume(g, a.chain)
    requires Raw(g, b.image, a.chain) == Raw(g, a.image, a.chain)
    ensures Updated(s, r, Rec(s, r), b.chain) == s && Stands(g, s, {}, lost, b)
    ensures Carried(g, a.image, s, b.image, s, {r}, {r})
    ensures BytesOf(g, b.image, s, r) == BytesOf(g, a.image, s, r)
    ensures ReadsBack(g, a.image, s, r) ==> ReadsBack(g, b.image, s, r)
    ensures SafeLog(g, s.tree.Keys, {}, a.log, b.log)
  {
    FileRead(g, s, {}, lost, a, b, OfFile(r));
    NodeCarried(g, a.image, s, b.image, s, {}, {r}, r);
    CarriedMore(g, a.image, s, b.image, s, {}, {r}, {r}, {r});
    SafeLogOf(g, s, {}, a.log, b.log, s.tree.Keys, {});
    UpdatedSame(s, r);
  }

  lemma UpdatedSame(s: State, r: Ref)
    requires Has(s, r) && OfFile(r) in s.chains
    ensures Updated(s, r, Rec(s, r), s.chains[OfFile(r)]) == s
  {
    assert s.chains[OfFile(r) := s.chains[OfFile(r)]] == s.chains;
    assert s.tree[r.dir][r.at := Rec(s, r)] == s.tree[r.dir];
    assert s.tree[r.dir := s.tree[r.dir]] == s.tree;
  }

  // ---------------------------------------------------------------- read

  /** The bytes from `offset` on, as many as `size` where there are as many. */
  ghost function Slice(b: seq<Byte>, offset: nat, size: nat): seq<Byte> {
    if offset >= |b| then [] else b[offset..if offset + size < |b| then offset + size else |b|]
  }

  /** `fat_read_node`: exactly the file's bytes in the range, cut at the end of file. */
  method ReadFile(fat: Fat, r: Ref, rec: Record, offset: nat, size: nat, ghost s: State, ghost lost: set<nat>)
    returns (out: seq<Byte>)
    requires Ready(fat, s, {}, lost) && Has(s, r) && rec == Rec(s, r) && !rec.isDir && offset + size < WORD
    modifies fat.dev, fat`memoFirst, fat`memoIndex, fat`memoCluster, fat`linkSteps
    ensures Ready(fat, s, {}, lost) && fat.dev.fat == old(fat.dev.fat) && (old(fat.Exact()) ==> fat.Exact())
    ensures out == Slice(BytesOf(fat.dev.g, old(fat.dev.sectors), s, r), offset, size)
    ensures old(!fat.dev.dirty) ==> !fat.dev.dirty
    ensures size > 0 ==> fat.linkSteps <= old(fat.linkSteps) + Quot((offset + size - 1) / 512, fat.dev.g.spc)
    ensures Carried(fat.dev.g, old(fat.dev.sectors), s, fat.dev.sectors, s, {}, {})
    ensures SafeLog(fat.dev.g, s.tree.Keys, {}, old(fat.dev.log), fat.dev.log)
  {
    assert Moored(0);
    ghost var g, x := fat.dev.g, OfFile(r);
    ghost var z := View(fat, [], false);
    FileFacts(g, s, {}, lost, z, r);
    ghost var cs := s.chains[x];
    ghost var a, live := View(fat, cs, cs != []), cs != [];
    if offset >= rec.length || size == 0 {
      CarriedRefl(g, a.image, s, {}, {});
      SafeLogEmpty(g, s.tree.Keys, {}, a.log);
      return [];
    }
    var want := if size > rec.length - offset then rec.length - offset else size;
    out := ReadRaw(fat, rec.cluster, offset, want, cs, live);
    ghost var b := View(fat, cs, live);
    QuotMonotone((offset + want - 1) / 512, (offset + size - 1) / 512, g.spc);
    WholeRead(g, a.image, cs, offset, want, out, rec.length, size);
    FileRead(g, s, {}, lost, a, b, x);
    OwnFatFrame(g, a.image, b.image, cs);
    ReadCarried(g, a.image, s, b.image, r);
    SafeLogOf(g, s, {}, a.log, b.log, s.tree.Keys, {});
  }

  lemma WholeRead(g: Geometry, d: Image, cs: seq<nat>, offset: nat, want: nat, out: seq<Byte>, length: nat, size: nat)
    requires g.Valid() && Fits(g, d) && InVolume(g, cs) && offset < length <= Room(g, |cs|)
    requires want == if size > length - offset then length - offset else size
    requires |out| <= want && IsChunk(g, d, cs, offset, out)
    requires |out| < want ==> !InFile(g, |cs|, (offset + |out|) / 512)
    ensures out == Slice(Raw(g, d, cs)[..length], offset, size)
  {
    if |out| < want {
      ByteIndex(g, |cs|, offset + |out|);
    }
    ChunkIsSlice(g, d, cs, offset, out);
  }

  lemma ReadCarried(g: Geometry, a: Image, s: State, b: Image, r: Ref)
    requires Sized(g, a, b) && Carried(g, a, s, b, s, {}, {r})
    requires OfFile(r) in s.chains ==> OwnSame(g, a, b, s.chains[OfFile(r)])
    ensures Carried(g, a, s, b, s, {}, {})
  {
    assert Conveyed(0);
    forall q ensures SameFile(g, a, s.chains, b, s.chains, q) {
      if q != r {
        FileCarried(g, a, s, b, s, {}, {r}, q);
      }
    }
  }

  // ---------------------------------------------------------------- truncate

  /** `fat_truncate` to a greater length. */
  method GrowFile(fat: Fat, r: Ref, rec: Record, length: nat, stamp: Stamp, ghost s: State, ghost lost: set<nat>)
    returns (ok: bool, now: Record, ghost ch: seq<nat>)
    requires Ready(fat, s, {}, lost) && s.chains[Spare] == [] && Has(s, r) && rec == Rec(s, r) && !rec.isDir
    requires rec.length < length && length + fat.dev.g.ClusterBytes() + 512 < WORD
    modifies fat, fat.dev
    ensures OfFile(r) in s.chains
    ensures ok <==> Need(fat.dev.g, length) - |s.chains[OfFile(r)]| <= FreeCount(old(fat.dev.fat))
    ensures now == if ok then rec.(cluster := now.cluster, length := length) else rec
    ensures Ready(fat, Updated(s, r, now, ch), {}, lost) && (ok ==> !fat.dev.dirty)
    ensures FreeCount(fat.dev.fat) + |ch| == FreeCount(old(fat.dev.fat)) + |s.chains[OfFile(r)]|
    ensures old(fat.Exact()) ==> fat.Exact()
    ensures BytesOf(fat.dev.g, fat.dev.sectors, Updated(s, r, now, ch), r) ==
      Resized(BytesOf(fat.dev.g, old(fat.dev.sectors), s, r), now.length)
    ensures Carried(fat.dev.g, old(fat.dev.sectors), s, fat.dev.sectors, Updated(s, r, now, ch), {r}, {r})
    ensures ReadsBack(fat.dev.g, old(fat.dev.sectors), s, r) ==>
      ReadsBack(fat.dev.g, fat.dev.sectors, Updated(s, r, now, ch), r)
    ensures SafeLog(fat.dev.g, s.tree.Keys, {}, old(fat.dev.log), fat.dev.log)
  {
    assert Moored(0);
    ghost var g, x := fat.dev.g, OfFile(r);
    FileFacts(g, s, {}, lost, View(fat, [], false), r);
    ghost var cs := s.chains[x];
    ghost var a, live := View(fat, cs, cs != []), cs != [];
    var head;
    ok, head, ch := GrowTo(fat, rec.cluster, rec.length, length, cs);
    ghost var b := View(fat, ch, live);
    if !ok {
      now := rec;
      Unwritten(g, s, lost, a, b, r);
      return;
    }
    now := rec.(cluster := head, length := length);
    Conclude(fat, r, now, stamp, s, lost, a, ch);
    ResizedBytes(g, a.image, b.image, fat.dev.sectors, s, r, now, ch);
  }

  lemma ResizedBytes(g: Geometry, a: Image, b: Image, c: Image, s: State, r: Ref, now: Record, ch: seq<nat>)
    requires g.Valid() && Fits(g, a) && Fits(g, b) && OwnSame(g, b, c, ch) && Has(s, r) && OfFile(r) in s.chains
    requires InVolume(g, s.chains[OfFile(r)]) && InVolume(g, ch) && Rec(s, r).length <= Room(g, |s.chains[OfFile(r)]|)
    requires now.length <= Room(g, |ch|)
    requires Raw(g, b, ch)[..now.length] == Resized(Raw(g, a, s.chains[OfFile(r)])[..Rec(s, r).length], now.length)
    ensures BytesOf(g, c, Updated(s, r, now, ch), r) == Resized(BytesOf(g, a, s, r), now.length)
  {
    RawFrame(g, b, c, ch);
    assert Rec(Updated(s, r, now, ch), r) == now;
  }

  ghost function CutOff(b: seq<Byte>, n: nat): seq<Byte> {
    if n <= |b| then b[n..] else []
  }

  /** `fat_truncate` to a smaller length that needs a cluster: the chain is cut to exactly the clusters the
      length needs. The bytes cut off stay in the slack of the last one. */
  method ShrinkFile(fat: Fat, r: Ref, rec: Record, length: nat, stamp: Stamp, ghost s: State, ghost lost: set<nat>)
    returns (now: Record, ghost ch: seq<nat>)
    requires Ready(fat, s, {}, lost) && s.chains[Spare] == [] && Has(s, r) && rec == Rec(s, r) && !rec.isDir
    requires 0 < length < rec.length
    modifies fat, fat.dev
    ensures now == rec.(length := length) && OfFile(r) in s.chains && |ch| == Need(fat.dev.g, length)
    ensures ch <= s.chains[OfFile(r)]
    ensures Ready(fat, Updated(s, r, now, ch), {}, lost) && !fat.dev.dirty
    ensures FreeCount(fat.dev.fat) + |ch| == FreeCount(old(fat.dev.fat)) + |s.chains[OfFile(r)]|
    ensures old(fat.Exact()) ==> fat.Exact()
    ensures BytesOf(fat.dev.g, fat.dev.sectors, Updated(s, r, now, ch), r) ==
      Resized(BytesOf(fat.dev.g, old(fat.dev.sectors), s, r), length)
    ensures Need(fat.dev.g, rec.length) == |ch| ==>
      CutOff(BytesOf(fat.dev.g, old(fat.dev.sectors), s, r), length) <= SlackOf(fat.dev.g, fat.dev.sectors,
        Updated(s, r, now, ch), r)
    ensures Carried(fat.dev.g, old(fat.dev.sectors), s, fat.dev.sectors, Updated(s, r, now, ch), {r}, {r})
    ensures ReadsBack(fat.dev.g, old(fat.dev.sectors), s, r) ==>
      ReadsBack(fat.dev.g, fat.dev.sectors, Updated(s, r, now, ch), r)
    ensures SafeLog(fat.dev.g, s.tree.Keys, {}, old(fat.dev.log), fat.dev.log)
  {
    assert Moored(0);
    ghost var g, x := fat.dev.g, OfFile(r);
    FileFacts(g, s, {}, lost, View(fat, [], false), r);
    ghost var cs := s.chains[x];
    ghost var a := View(fat, cs, true);
    NeedLeast(g, length, |cs|);
    NeedLeast(g, length, 0);
    var keep := ClustersFor(fat.dev.g, length);
    NeedLeast(g, length, keep);
    CutTo(fat, rec.cluster, keep, cs);
    ch := cs[..keep];
    ghost var b := View(fat, ch, true);
    now := rec.(length := length);
    Conclude(fat, r, now, stamp, s, lost, a, ch);
    CutBytes(g, a.image, b.image, fat.dev.sectors, s, r, now, keep);
  }

  lemma CutBytes(g: Geometry, a: Image, b: Image, c: Image, s: State, r: Ref, now: Record, keep: nat)
    requires g.Valid() && Fits(g, a) && SameOutsideFat(g, b, a) && Has(s, r) && OfFile(r) in s.chains
    requires InVolume(g, s.chains[OfFile(r)]) && Rec(s, r).length <= Room(g, |s.chains[OfFile(r)]|)
    requires keep <= |s.chains[OfFile(r)]|
    requires OwnSame(g, b, c, s.chains[OfFile(r)][..keep]) && now.length <= Room(g, keep)
    requires now.length <= Rec(s, r).length
    ensures var s' := Updated(s, r, now, s.chains[OfFile(r)][..keep]);
      && BytesOf(g, c, s', r) == Resized(BytesOf(g, a, s, r), now.length)
      && (Need(g, Rec(s, r).length) == keep ==> CutOff(BytesOf(g, a, s, r), now.length) <= SlackOf(g, c, s', r))
  {
    var cs := s.chains[OfFile(r)];
    var ch := cs[..keep];
    RawCut(g, a, cs, keep);
    OwnFatFrame(g, a, b, ch);
    RawFrame(g, a, b, ch);
    RawFrame(g, b, c, ch);
    var raw, len := Raw(g, a, cs), Rec(s, r).length;
    assert raw[..len][..now.length] == raw[..now.length] == raw[..Room(g, keep)][..now.length];
    if Need(g, len) == keep {
      NeedLeast(g, len, keep);
      assert raw[..len][now.length..] == raw[..Room(g, keep)][now.length..][..len - now.length];
    }
    assert Rec(Updated(s, r, now, ch), r) == now;
  }

  lemma ReleasedTold(g: Geometry, im: Image, s: State, r: Ref)
    requires Has(s, r) && (Rec(s, r).isDir || OfFile(r) in s.chains) && Told(g, im, s.chains, r, Rec(s, r))
    ensures Told(g, im, Released(s, r).chains, r, Rec(s, r))
  {
    assert Recounted(0);
    assert DirEntries(g, im, Released(s, r).chains, r.dir) == DirEntries(g, im, s.chains, r.dir);
  }

  lemma ToldFile(g: Geometry, im: Image, w: Chained, r: Ref, rec: Record)
    requires Told(g, im, w, r, rec) && !rec.isDir
    ensures HasFileEntry(g, im, w, r)
  {
    assert Recounted(0);
  }

  lemma ClearedIs(s: State, r: Ref, rec: Record)
    requires Has(s, r) && !Rec(s, r).isDir && OfFile(r) in s.chains && Spare in s.chains && s.chains[Spare] == []
    ensures var mid := Spared(Released(s, r), []);
      Spare in mid.chains && Adopted(Noted(mid, r, rec), r) == Updated(s, r, rec, [])
  {
    var mid := Spared(Released(s, r), []);
    assert Adopted(Noted(mid, r, rec), r).chains == Updated(s, r, rec, []).chains;
  }

  /** Frees the spare chain and flushes the table. */
  method FreeSpare(fat: Fat, first: nat, ghost s: State, ghost skip: set<Ref>, ghost lost: set<nat>)
    requires Ready(fat, s, skip, lost) && HeadOf(s.chains[Spare], first)
    modifies fat, fat.dev
    ensures Ready(fat, Spared(s, []), skip, lost) && !fat.dev.dirty && (old(fat.Exact()) ==> fat.Exact())
    ensures FreeCount(fat.dev.fat) == FreeCount(old(fat.dev.fat)) + |s.chains[Spare]|
    ensures fat.dev.fat == Freed(old(fat.dev.fat), s.chains[Spare]) && |fat.dev.fat| == |old(fat.dev.fat)|
    ensures Carried(fat.dev.g, old(fat.dev.sectors), s, fat.dev.sectors, Spared(s, []), {}, {})
    ensures DirsAlike(fat.dev.g, old(fat.dev.sectors), fat.dev.sectors, s, Spared(s, []).chains, {})
    ensures SafeRun(fat.dev.g, s, skip, old(fat.dev.log), fat.dev.log)
  {
    assert Moored(0);
    ghost var g, cs := fat.dev.g, s.chains[Spare];
    ghost var a := View(fat, cs, false);
    ForestOwns(a.table, s.chains, Spare);
    if first >= 2 {
      FreeOwned(fat, first, cs);
      ReleaseStep(g, a, View(fat, [], false));
    } else {
      FreedNone(a.table);
      EvolvesRefl(g, a);
    }
    ghost var b := View(fat, [], false);
    fat.dev.Flush();
    ghost var c := View(fat, [], false);
    ReadStep(g, b, c);
    EvolvesTrans(g, a, b, c);
    SpareStep(g, s, skip, lost, a, c);
  }

  /** Once the freed head is on the device and the entry is not yet rewritten, a moment is unsafe. */
  lemma ClearedUnsafe(g: Geometry, s: State, r: Ref, rec: Record, lost: set<nat>, a: Snap, c: Snap)
    requires Stands(g, s, {r}, lost, c) && Has(s, r) && Told(g, c.image, s.chains, r, rec)
    requires 2 <= rec.cluster < |c.table| && c.disk == c.table && c.table[rec.cluster] == 0
    requires Sound(g, a) && CrashSafe(g, s.tree.Keys, {}, Moment(a.image, a.disk)) && a.log <= c.log
    ensures !SafeLog(g, s.tree.Keys, {}, a.log, c.log)
  {
    HeadGone(g, s, r, rec, lost, c);
    UnsafeLast(g, s.tree.Keys, a.log, c.log);
  }

  lemma HeadGone(g: Geometry, s: State, r: Ref, rec: Record, lost: set<nat>, c: Snap)
    requires Stands(g, s, {r}, lost, c) && Has(s, r) && Told(g, c.image, s.chains, r, rec)
    requires 2 <= rec.cluster < |c.table| && c.disk == c.table && c.table[rec.cluster] == 0
    ensures !CrashSafe(g, s.tree.Keys, {}, Moment(c.image, c.disk))
  {
    NodePoints(g, s, {r}, c.table, c.image, r, rec);
    DirOf(g, s, {r}, r.dir);
    FreeHeadUnsafe(g, s.tree.Keys, Moment(c.image, c.disk), s.chains, r);
  }

  lemma UnsafeLast(g: Geometry, dirs: set<nat>, a: seq<Moment>, c: seq<Moment>)
    requires a != [] && c != [] && a <= c && CrashSafe(g, dirs, {}, a[|a| - 1]) && !CrashSafe(g, dirs, {}, c[|c| - 1])
    ensures !SafeLog(g, dirs, {}, a, c)
  {
    assert Retold(0);
    assert |a| == |c| ==> a == c;
  }

  lemma UnsafeStays(g: Geometry, dirs: set<nat>, a: seq<Moment>, b: seq<Moment>, c: seq<Moment>)
    requires !SafeLog(g, dirs, {}, a, b) && a <= b <= c
    ensures !SafeLog(g, dirs, {}, a, c)
  {
    if SafeLog(g, dirs, {}, a, c) {
      assert Retold(0);
      forall i | |a| <= i < |b| ensures CrashSafe(g, dirs, {}, b[i]) {
        assert c[i] == b[i];
      }
    }
  }

  /** `fat_truncate` of a file with bytes to none. The head is freed, and the table flushed, before the entry is
      told, so for one moment a live entry names a free cluster; nothing else is unsafe. */
  method ClearFile(fat: Fat, r: Ref, rec: Record, stamp: Stamp, ghost s: State, ghost lost: set<nat>)
    returns (now: Record)
    requires Ready(fat, s, {}, lost) && s.chains[Spare] == [] && Has(s, r) && rec == Rec(s, r) && !rec.isDir
    requires 0 < rec.length
    modifies fat, fat.dev
    ensures now == rec.(cluster := 0, length := 0) && OfFile(r) in s.chains
    ensures Ready(fat, Updated(s, r, now, []), {}, lost) && !fat.dev.dirty
    ensures FreeCount(fat.dev.fat) == FreeCount(old(fat.dev.fat)) + |s.chains[OfFile(r)]|
    ensures old(fat.Exact()) ==> fat.Exact()
    ensures Carried(fat.dev.g, old(fat.dev.sectors), s, fat.dev.sectors, Updated(s, r, now, []), {r}, {r})
    ensures ReadsBack(fat.dev.g, old(fat.dev.sectors), s, r) ==>
      ReadsBack(fat.dev.g, fat.dev.sectors, Updated(s, r, now, []), r)
    ensures SafeLog(fat.dev.g, s.tree.Keys, {r}, old(fat.dev.log), fat.dev.log)
    ensures !SafeLog(fat.dev.g, s.tree.Keys, {}, old(fat.dev.log), fat.dev.log)
  {
    assert Moored(0);
    ghost var g, a, dirs := fat.dev.g, View(fat, [], false), s.tree.Keys;
    FileFacts(g, s, {}, lost, a, r);
    NeedLeast(g, rec.length, 0);
    ghost var s1 := Released(s, r);
    ghost var mid := Spared(s1, []);
    assert {} + {r} == {r};
    Release(g, s, {}, lost, a, r);
    ReleasedTold(g, a.image, s, r);
    FreeSpare(fat, rec.cluster, s1, {r}, lost);
    ghost var c := View(fat, [], false);
    ToldAlike(g, a.image, c.image, s1, mid.chains, r, rec);
    ToldFile(g, c.image, mid.chains, r, rec);
    SafeIsCrashSafe(g, s, {}, Moment(a.image, a.disk), dirs, {});
    assert rec.cluster in s.chains[OfFile(r)];
    ClearedUnsafe(g, mid, r, rec, lost, a, c);
    now := rec.(cluster := 0, length := 0);
    Publish(fat, r, now, stamp, mid, lost);
    ClearedIs(s, r, now);
    UnsafeStays(g, dirs, a.log, c.log, fat.dev.log);
    SafeLogOf(g, s1, {r}, a.log, c.log, dirs, {r});
    SafeLogSnoc(g, dirs, {r}, a.log, c.log, Updated(s, r, now, []), Moment(fat.dev.sectors, fat.dev.disk));
    ClearedCarried(g, a.image, s, s1, c.image, mid, fat.dev.sectors, Updated(s, r, now, []), r);
  }

  lemma ClearedCarried(g: Geometry, a: Image, s: State, s1: State, c: Image, mid: State, e: Image, s': State, r: Ref)
    requires Sized(g, a, c) && Sized(g, c, e)
    requires Carried(g, a, s, a, s1, {}, {r}) && Carried(g, a, s1, c, mid, {}, {})
    requires Carried(g, c, mid, e, s', {r}, {r})
    requires Has(s, r) && Has(mid, r) && Has(s', r) && (ReadsBack(g, c, mid, r) ==> ReadsBack(g, e, s', r))
    ensures Carried(g, a, s, e, s', {r}, {r}) && (ReadsBack(g, a, s, r) ==> ReadsBack(g, e, s', r))
  {
    CarriedMore(g, a, s1, c, mid, {}, {}, {}, {r});
    CarriedTrans(g, a, s, a, s1, c, mid, {}, {r});
    NodeCarried(g, a, s, c, mid, {}, {r}, r);
    CarriedMore(g, a, s, c, mid, {}, {r}, {r}, {r});
    CarriedTrans(g, a, s, c, mid, e, s', {r}, {r});
  }

  /** `fat_truncate`. The file is cut or padded with zeros to the length; every moment is safe unless it empties a
      file that had bytes. */
  method TruncateFile(fat: Fat, r: Ref, rec: Record, length: nat, stamp: Stamp, ghost s: State, ghost lost: set<nat>)
    returns (ok: bool, now: Record, ghost ch: seq<nat>)
    requires Ready(fat, s, {}, lost) && s.chains[Spare] == [] && Has(s, r) && rec == Rec(s, r) && !rec.isDir
    requires length + fat.dev.g.ClusterBytes() + 512 < WORD
    modifies fat, fat.dev
    ensures OfFile(r) in s.chains
    ensures ok <==>
      length <= rec.length || Need(fat.dev.g, length) - |s.chains[OfFile(r)]| <= FreeCount(old(fat.dev.fat))
    ensures now == if ok then rec.(cluster := now.cluster, length := length) else rec
    ensures Ready(fat, Updated(s, r, now, ch), {}, lost) && (ok ==> !fat.dev.dirty)
    ensures FreeCount(fat.dev.fat) + |ch| == FreeCount(old(fat.dev.fat)) + |s.chains[OfFile(r)]|
    ensures old(fat.Exact()) ==> fat.Exact()
    ensures length < rec.length ==> |ch| == Need(fat.dev.g, length)
    ensures BytesOf(fat.dev.g, fat.dev.sectors, Updated(s, r, now, ch), r) ==
      Resized(BytesOf(fat.dev.g, old(fat.dev.sectors), s, r), now.length)
    ensures length < rec.length && Need(fat.dev.g, rec.length) == |ch| ==>
      CutOff(BytesOf(fat.dev.g, old(fat.dev.sectors), s, r), length) <= SlackOf(fat.dev.g, fat.dev.sectors,
        Updated(s, r, now, ch), r)
    ensures Carried(fat.dev.g, old(fat.dev.sectors), s, fat.dev.sectors, Updated(s, r, now, ch), {r}, {r})
    ensures ReadsBack(fat.dev.g, old(fat.dev.sectors), s, r) ==>
      ReadsBack(fat.dev.g, fat.dev.sectors, Updated(s, r, now, ch), r)
    ensures SafeLog(fat.dev.g, s.tree.Keys, {r}, old(fat.dev.log), fat.dev.log)
    ensures SafeLog(fat.dev.g, s.tree.Keys, {}, old(fat.dev.log), fat.dev.log) <==> (0 < length || rec.length == 0)
  {
    assert Moored(0);
    ghost var g, a := fat.dev.g, View(fat, [], false);
    FileFacts(g, s, {}, lost, a, r);
    ok := true;
    if length > rec.length {
      ok, now, ch := GrowFile(fat, r, rec, length, stamp, s, lost);
    } else if length < rec.length {
      if length == 0 {
        now := ClearFile(fat, r, rec, stamp, s, lost);
        ch := [];
        NeedLeast(g, rec.length, 0);
        EmptyBytes(g, fat.dev.sectors, Updated(s, r, now, ch), r);
      } else {
        now, ch := ShrinkFile(fat, r, rec, length, stamp, s, lost);
      }
    } else {
      now := rec;
      ch := Restamp(fat, r, rec, stamp, s, lost);
    }
    if 0 < length || rec.length == 0 {
      SkipMore(g, s.tree.Keys, a.log, fat.dev.log, {r});
    }
  }

  lemma EmptyBytes(g: Geometry, im: Image, s: State, r: Ref)
    requires g.Valid() && Fits(g, im) && Has(s, r) && Rec(s, r).length == 0
    ensures BytesOf(g, im, s, r) == []
  {
  }

  lemma SkipMore(g: Geometry, dirs: set<nat>, before: seq<Moment>, after: seq<Moment>, skip: set<Ref>)
    requires SafeLog(g, dirs, {}, before, after)
    ensures SafeLog(g, dirs, skip, before, after)
  {
    assert Retold(0);
    forall i | |before| <= i < |after| ensures CrashSafe(g, dirs, skip, after[i]) {
      assert Imagined(0);
      var w :| SafeBy(g, {}, after[i], w) && forall d :: d in dirs ==> OfDir(d) in w;
      FewerAsked(g, {}, skip, after[i], w);
    }
  }

  /** The flush and entry update of a truncation to the length the file already has. */
  method Restamp(fat: Fat, r: Ref, rec: Record, stamp: Stamp, ghost s: State, ghost lost: set<nat>)
    returns (ghost ch: seq<nat>)
    requires Ready(fat, s, {}, lost) && s.chains[Spare] == [] && Has(s, r) && rec == Rec(s, r) && !rec.isDir
    modifies fat, fat.dev
    ensures OfFile(r) in s.chains && ch == s.chains[OfFile(r)] && Ready(fat, Updated(s, r, rec, ch), {}, lost)
    ensures fat.dev.fat == old(fat.dev.fat) && !fat.dev.dirty && (old(fat.Exact()) ==> fat.Exact())
    ensures BytesOf(fat.dev.g, fat.dev.sectors, Updated(s, r, rec, ch), r) ==
      Resized(BytesOf(fat.dev.g, old(fat.dev.sectors), s, r), rec.length)
    ensures Carried(fat.dev.g, old(fat.dev.sectors), s, fat.dev.sectors, Updated(s, r, rec, ch), {r}, {r})
    ensures ReadsBack(fat.dev.g, old(fat.dev.sectors), s, r) ==>
      ReadsBack(fat.dev.g, fat.dev.sectors, Updated(s, r, rec, ch), r)
    ensures SafeLog(fat.dev.g, s.tree.Keys, {}, old(fat.dev.log), fat.dev.log)
  {
    assert Moored(0);
    ghost var g := fat.dev.g;
    FileFacts(g, s, {}, lost, View(fat, [], false), r);
    ch := s.chains[OfFile(r)];
    ghost var a := View(fat, ch, ch != []);
    EvolvesRefl(g, a);
    Conclude(fat, r, rec, stamp, s, lost, a, ch);
    ResizedBytes(g, a.image, a.image, fat.dev.sectors, s, r, rec, ch);
  }
}
