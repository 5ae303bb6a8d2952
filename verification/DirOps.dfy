/** Creating, removing and renaming nodes of a mounted volume (kernel/fat32.c:1162-1410). */
module DirOps {
  import opened Bytes
  import opened Geometry
  import opened Quotient
  import opened Chains
  import opened FatCache
  import opened ClusterData
  import opened Evolution
  import opened Allocation
  import opened Growth
  import opened FileBytes
  import opened Names
  import opened LongNames
  import opened ShortNames
  import opened Layout
  import opened Edits
  import opened Spelling
  import opened NodeList
  import opened DirectoryIo
  import opened Directory
  import opened Entering
  import opened Ownership
  import opened World
  import opened Keeping
  import opened CrashSafety
  import opened Steps
  import opened FileOps

  // ---------------------------------------------------------------- parts

  /** Chooses the entries for a name in directory `d`, which may grow. */
  method ReserveIn(fat: Fat, d: nat, name: seq<Byte>, ghost s: State, ghost lost: set<nat>)
    returns (ok: bool, slot: nat, short: seq<Byte>, nt: Byte, long: bool, ghost ch: seq<nat>)
    requires Ready(fat, s, {}, lost) && d in s.tree && CName(name)
    modifies fat, fat.dev
    ensures Ready(fat, Grew(s, d, ch), {}, lost) && OfDir(d) in s.chains
    ensures FreeCount(fat.dev.fat) + |ch| == FreeCount(old(fat.dev.fat)) + |s.chains[OfDir(d)]|
    ensures old(fat.Exact()) ==> fat.Exact()
    ensures SafeLog(fat.dev.g, s.tree.Keys, {}, old(fat.dev.log), fat.dev.log)
    ensures Carried(fat.dev.g, old(fat.dev.sectors), s, fat.dev.sectors, Grew(s, d, ch), {}, {})
    ensures long == Long(DirEntries(fat.dev.g, old(fat.dev.sectors), s.chains, d), name)
    ensures ok ==> Chosen(DirEntries(fat.dev.g, fat.dev.sectors, Grew(s, d, ch).chains, d), name, slot, short, nt, long)
    ensures !ok ==> NoPlace(DirEntries(fat.dev.g, old(fat.dev.sectors), s.chains, d), name, FreeCount(old(fat.dev.fat)))
    ensures ok && ch == s.chains[OfDir(d)] ==> fat.dev.fat == old(fat.dev.fat)
    ensures HasRoom(DirEntries(fat.dev.g, old(fat.dev.sectors), s.chains, d), name) ==>
      ch == s.chains[OfDir(d)] && fat.freeHint == old(fat.freeHint) && (old(!fat.dev.dirty) ==> !fat.dev.dirty)
    ensures HasRoom(DirEntries(fat.dev.g, old(fat.dev.sectors), s.chains, d), name) && ok ==>
      GoesTo(DirEntries(fat.dev.g, old(fat.dev.sectors), s.chains, d), name, slot)
  {
    assert Moored(0);
    ghost var g := fat.dev.g;
    DirFacts(g, s, {}, lost, View(fat, [], false), d);
    ghost var cs := s.chains[OfDir(d)];
    ghost var a, e := View(fat, cs, true), EntriesOf(g, fat.dev.sectors, cs);
    ghost var f;
    ok, slot, short, nt, long, ch, f := Reserve(fat, d, name, cs, e, s.tree[d]);
    ReservedIn(g, s, lost, a, View(fat, ch, true), d, f);
  }

  lemma ReservedIn(g: Geometry, s: State, lost: set<nat>, a: Snap, b: Snap, d: nat, f: Entries)
    requires Stands(g, s, {}, lost, a) && OfDirAt(a, s, d) && Quiet(g, a, b, {}) && Owns(b.table, b.chain)
    requires Counts(a, b)
    requires a.chain <= b.chain && InVolume(g, b.chain) && f == EntriesOf(g, b.image, b.chain) && WellKept(f, s.tree[d])
    requires Stays(DirEntries(g, a.image, s.chains, d), f, s.tree[d])
    requires ShortUnique(DirEntries(g, a.image, s.chains, d)) ==> ShortUnique(f)
    ensures var s' := Grew(s, d, b.chain);
      && Stands(g, s', {}, lost, b.(chain := [], live := false)) && Carried(g, a.image, s, b.image, s', {}, {})
      && DirEntries(g, b.image, s'.chains, d) == f
    ensures SafeLog(g, s.tree.Keys, {}, a.log, b.log)
  {
    DirStep(g, s, {}, lost, a, b, d, f);
    SafeLogOf(g, s, {}, a.log, b.log, s.tree.Keys, {});
  }

  /** Writes the entries of a node that owns nothing yet. */
  method StoreIn(fat: Fat, d: nat, slot: nat, short: seq<Byte>, nt: Byte, long: bool, node: Node, stamp: Stamp,
      ghost s: State, ghost lost: set<nat>)
    requires Ready(fat, s, {}, lost) && d in s.tree && Placed(node, slot, long)
    requires Chosen(DirEntries(fat.dev.g, fat.dev.sectors, s.chains, d), node.record.name, slot, short, nt, long)
    modifies fat.dev, fat`memoFirst, fat`memoIndex, fat`memoCluster, fat`linkSteps
    ensures !Has(s, Ref(d, node.at)) && Ready(fat, Noted(s, Ref(d, node.at), node.record), {Ref(d, node.at)}, lost)
    ensures fat.dev.fat == old(fat.dev.fat) && (old(fat.Exact()) ==> fat.Exact())
    ensures SafeRun(fat.dev.g, s, if node.record.cluster < 2 then {} else {Ref(d, node.at)}, old(fat.dev.log),
      fat.dev.log)
    ensures |old(fat.dev.log)| < |fat.dev.log| && SafeButLast(fat.dev.g, s, old(fat.dev.log), fat.dev.log)
    ensures Walked(fat.dev.g, fat.dev.fat, d, ClusterFor(fat.dev.g, node.at), old(fat.At()), fat.At())
    ensures Carried(fat.dev.g, old(fat.dev.sectors), s, fat.dev.sectors, Noted(s, Ref(d, node.at), node.record),
      {Ref(d, node.at)}, {})
    ensures Told(fat.dev.g, fat.dev.sectors, s.chains, Ref(d, node.at), node.record)
    ensures ReadsBack(fat.dev.g, fat.dev.sectors, Noted(s, Ref(d, node.at), node.record), Ref(d, node.at)) <==>
      Kept(node.record.name, long)
    ensures OwnSame(fat.dev.g, old(fat.dev.sectors), fat.dev.sectors, s.chains[Spare])
  {
    assert Moored(0);
    ghost var g, r := fat.dev.g, Ref(d, node.at);
    DirFacts(g, s, {}, lost, View(fat, [], false), d);
    ghost var cs := s.chains[OfDir(d)];
    ghost var a, e := View(fat, cs, true), EntriesOf(g, fat.dev.sectors, cs);
    ghost var h := Store(fat, d, slot, short, nt, long, node, stamp, cs, e, s.tree[d]);
    NodeStored(g, s, lost, a, View(fat, cs, true), d, node, long, h);
  }

  lemma NodeStored(g: Geometry, s: State, lost: set<nat>, a: Snap, b: Snap, d: nat, node: Node, long: bool, h: Entries)
    requires Stands(g, s, {}, lost, a) && OfDirAt(a, s, d) && b.table == a.table && b.chain == a.chain
    requires Quiet(g, a, b, if node.record.cluster < 2 then {} else {node.at}) && QuietButLast(g, a, b) && b.log != []
    requires h == EntriesOf(g, b.image, a.chain) && CName(node.record.name) && Spare in s.chains
    requires Gained(DirEntries(g, a.image, s.chains, d), h, s.tree[d], node, long)
    ensures !Has(s, Ref(d, node.at))
    ensures Stands(g, Noted(s, Ref(d, node.at), node.record), {Ref(d, node.at)}, lost, b.(chain := [], live := false))
    ensures SafeRun(g, s, if node.record.cluster < 2 then {} else {Ref(d, node.at)}, a.log, b.log)
    ensures SafeButLast(g, s, a.log, b.log)
    ensures Carried(g, a.image, s, b.image, Noted(s, Ref(d, node.at), node.record), {Ref(d, node.at)}, {})
    ensures Told(g, b.image, s.chains, Ref(d, node.at), node.record)
    ensures ReadsBack(g, b.image, Noted(s, Ref(d, node.at), node.record), Ref(d, node.at)) <==>
      Kept(node.record.name, long)
    ensures OwnSame(g, a.image, b.image, s.chains[Spare])
  {
    assert Inked(0);
    var r, rec := Ref(d, node.at), node.record;
    StoredIn(g, s, lost, a, b, r, rec, h, if rec.cluster < 2 then {} else {node.at},
      if rec.cluster < 2 then {} else {r});
    StoredButLast(g, s, lost, a, b, d);
  }

  lemma StoredButLast(g: Geometry, s: State, lost: set<nat>, a: Snap, b: Snap, d: nat)
    requires Stands(g, s, {}, lost, a) && OfDirAt(a, s, d) && QuietButLast(g, a, b) && b.log != []
    ensures SafeButLast(g, s, a.log, b.log)
  {
    var m :| Quiet(g, a, m, {}) && m.chain == a.chain && m.log <= b.log && |m.log| + 1 == |b.log|;
    DirRun(g, s, {}, lost, a, m, d, {}, {});
    assert b.log[..|b.log| - 1] == m.log;
  }

  lemma StoredIn(g: Geometry, s: State, lost: set<nat>, a: Snap, b: Snap, r: Ref, rec: Record, h: Entries,
      loud: set<nat>, skip: set<Ref>)
    requires Stands(g, s, {}, lost, a) && OfDirAt(a, s, r.dir) && Quiet(g, a, b, loud) && b.table == a.table
    requires b.chain == a.chain
    requires h == EntriesOf(g, b.image, a.chain) && r.at !in s.tree[r.dir]
    requires WellKept(h, s.tree[r.dir][r.at := rec]) && Stays(DirEntries(g, a.image, s.chains, r.dir), h, s.tree[r.dir])
    requires ShortUnique(DirEntries(g, a.image, s.chains, r.dir)) ==> ShortUnique(h)
    requires (loud == {} || (loud == {r.at} && skip == {r})) && skip <= {r}
    ensures Stands(g, Noted(s, r, rec), {r}, lost, b.(chain := [], live := false)) && SafeRun(g, s, skip, a.log, b.log)
    ensures Carried(g, a.image, s, b.image, Noted(s, r, rec), {r}, {})
    ensures DirEntries(g, b.image, s.chains, r.dir) == h
    ensures Spare in s.chains ==> OwnSame(g, a.image, b.image, s.chains[Spare])
  {
    assert s.tree[r.dir] - {r.at} == s.tree[r.dir];
    assert loud <= Loud(skip, r.dir) by {
      if loud == {r.at} {
        assert r in skip && r.dir == r.dir;
      }
    }
    DirStored(g, s, {}, lost, a, b, r, rec, h, loud, skip);
    assert {} + {r} == {r};
    EvolvedKept(g, a, b, s.chains, OfDir(r.dir));
  }

  /** Frees the entries of a node that owns nothing any more. */
  method EraseIn(fat: Fat, r: Ref, slots: nat, ghost s: State, ghost lost: set<nat>, ghost was: State,
      ghost skip: set<Ref>)
    requires Ready(fat, s, {r}, lost) && Has(s, r) && Rec(s, r).slots == slots
    requires Stands(fat.dev.g, was, skip, lost, View(fat, [], false)) && r.dir in was.tree && OfDir(r.dir) in s.chains
    requires OfDir(r.dir) in was.chains && was.chains[OfDir(r.dir)] == s.chains[OfDir(r.dir)]
    modifies fat.dev, fat`memoFirst, fat`memoIndex, fat`memoCluster, fat`linkSteps
    ensures Ready(fat, Dropped(s, r), {}, lost) && fat.dev.fat == old(fat.dev.fat) && (old(fat.Exact()) ==> fat.Exact())
    ensures SafeRun(fat.dev.g, was, skip, old(fat.dev.log), fat.dev.log)
    ensures Carried(fat.dev.g, old(fat.dev.sectors), s, fat.dev.sectors, Dropped(s, r), {r}, {})
    ensures FreedTo(DirEntries(fat.dev.g, old(fat.dev.sectors), s.chains, r.dir),
      DirEntries(fat.dev.g, fat.dev.sectors, s.chains, r.dir), r.at, slots)
    ensures old(!fat.dev.dirty) ==> !fat.dev.dirty
  {
    assert Moored(0);
    ghost var g, d := fat.dev.g, r.dir;
    DirFacts(g, s, {r}, lost, View(fat, [], false), d);
    ghost var cs := s.chains[OfDir(d)];
    ghost var a, e := View(fat, cs, true), EntriesOf(g, fat.dev.sectors, cs);
    ghost var h := FreeEntries(fat, r.dir, r.at, slots, cs, e, s.tree[d]);
    ErasedIn(g, s, lost, was, skip, a, View(fat, cs, true), r, h);
  }

  lemma ErasedIn(g: Geometry, s: State, lost: set<nat>, was: State, skip: set<Ref>, a: Snap, b: Snap, r: Ref,
      h: Entries)
    requires Stands(g, s, {r}, lost, a) && OfDirAt(a, s, r.dir) && Quiet(g, a, b, {}) && b.table == a.table
    requires b.chain == a.chain
    requires Stands(g, was, skip, lost, a) && OfDirAt(a, was, r.dir)
    requires h == EntriesOf(g, b.image, a.chain) && Has(s, r) && r.at < |h| && !Pointing(h[r.at])
    requires WellKept(h, s.tree[r.dir] - {r.at})
    requires Stays(DirEntries(g, a.image, s.chains, r.dir), h, s.tree[r.dir] - {r.at})
    requires ShortUnique(DirEntries(g, a.image, s.chains, r.dir)) ==> ShortUnique(h)
    ensures Stands(g, Dropped(s, r), {}, lost, b.(chain := [], live := false)) && SafeRun(g, was, skip, a.log, b.log)
    ensures Carried(g, a.image, s, b.image, Dropped(s, r), {r}, {})
    ensures DirEntries(g, b.image, s.chains, r.dir) == h
  {
    DirErased(g, s, {r}, lost, a, b, r, h);
    assert {r} - {r} == {};
    DirRun(g, was, skip, lost, a, b, r.dir, {}, skip);
  }

  /** `fat_cache_flush` at the end of an operation. */
  method FlushIn(fat: Fat, ghost s: State, ghost skip: set<Ref>, ghost lost: set<nat>)
    requires Ready(fat, s, skip, lost)
    modifies fat.dev
    ensures Ready(fat, s, skip, lost) && !fat.dev.dirty && fat.dev.fat == old(fat.dev.fat)
    ensures old(fat.Exact()) ==> fat.Exact()
    ensures SafeRun(fat.dev.g, s, skip, old(fat.dev.log), fat.dev.log)
    ensures old(!fat.dev.dirty) ==> fat.dev.sectors == old(fat.dev.sectors) && fat.dev.log == old(fat.dev.log)
    ensures Carried(fat.dev.g, old(fat.dev.sectors), s, fat.dev.sectors, s, {}, {})
    ensures DirsAlike(fat.dev.g, old(fat.dev.sectors), fat.dev.sectors, s, s.chains, {})
    ensures OwnSame(fat.dev.g, old(fat.dev.sectors), fat.dev.sectors, s.chains[Spare])
  {
    assert Moored(0);
    ghost var g, cs := fat.dev.g, s.chains[Spare];
    ghost var a := View(fat, cs, false);
    ForestOwns(a.table, s.chains, Spare);
    fat.dev.Flush();
    ghost var b := View(fat, cs, false);
    ReadStep(g, a, b);
    SpareStep(g, s, skip, lost, a, b);
    OwnFatFrame(g, a.image, b.image, cs);
    assert Spared(s, cs) == s by {
      assert s.chains[Spare := cs] == s.chains;
    }
  }

  // ---------------------------------------------------------------- create

  /** The tree with an empty file at `r`. */
  ghost function WithFile(s: State, r: Ref, rec: Record): State
    requires r.dir in s.tree
  {
    Updated(s, r, rec, [])
  }

  lemma WithFileIs(s: State, r: Ref, rec: Record)
    requires r.dir in s.tree && Spare in s.chains && s.chains[Spare] == []
    ensures Adopted(Noted(s, r, rec), r) == WithFile(s, r, rec)
  {
    assert Adopted(Noted(s, r, rec), r).chains == WithFile(s, r, rec).chains;
  }

  /** The entries of an empty file and the flush that follows: no moment of it shows an entry that points. */
  method EnterFile(fat: Fat, d: nat, slot: nat, short: seq<Byte>, nt: Byte, long: bool, node: Node, stamp: Stamp,
      ghost s: State, ghost lost: set<nat>)
    requires Ready(fat, s, {}, lost) && s.chains[Spare] == [] && d in s.tree && Placed(node, slot, long)
    requires Chosen(DirEntries(fat.dev.g, fat.dev.sectors, s.chains, d), node.record.name, slot, short, nt, long)
    requires !node.record.isDir && node.record.cluster == 0 && node.record.length == 0
    modifies fat.dev, fat`memoFirst, fat`memoIndex, fat`memoCluster, fat`linkSteps
    ensures !Has(s, Ref(d, node.at)) && Ready(fat, WithFile(s, Ref(d, node.at), node.record), {}, lost)
    ensures fat.dev.fat == old(fat.dev.fat) && !fat.dev.dirty && (old(fat.Exact()) ==> fat.Exact())
    ensures SafeLog(fat.dev.g, s.tree.Keys, {}, old(fat.dev.log), fat.dev.log)
    ensures Carried(fat.dev.g, old(fat.dev.sectors), s, fat.dev.sectors, WithFile(s, Ref(d, node.at), node.record),
      {Ref(d, node.at)}, {Ref(d, node.at)})
    ensures ReadsBack(fat.dev.g, fat.dev.sectors, WithFile(s, Ref(d, node.at), node.record), Ref(d, node.at)) <==>
      Kept(node.record.name, long)
  {
    assert Moored(0);
    ghost var g, r := fat.dev.g, Ref(d, node.at);
    DirFacts(g, s, {}, lost, View(fat, [], false), d);
    ghost var cs := s.chains[OfDir(d)];
    ghost var a, e := View(fat, cs, true), EntriesOf(g, fat.dev.sectors, cs);
    ghost var h := StoreFlushed(fat, d, slot, short, nt, long, node, stamp, cs, e, s.tree[d]);
    assert Inked(0);
    FileEntered(g, s, lost, a, View(fat, cs, true), r, node.record, h);
  }

  /** The entries of an empty file, then the flush. */
  method StoreFlushed(fat: Fat, first: nat, slot: nat, short: seq<Byte>, nt: Byte, long: bool, node: Node, stamp: Stamp,
      ghost cs: seq<nat>, ghost f: Entries, ghost c: Index)
    returns (ghost h: Entries)
    requires Reads(fat, first, cs, f) && WellKept(f, c) && node.record.cluster == 0
    requires Chosen(f, node.record.name, slot, short, nt, long) && Placed(node, slot, long)
    modifies fat.dev, fat`memoFirst, fat`memoIndex, fat`memoCluster, fat`linkSteps
    ensures Reads(fat, first, cs, h) && fat.dev.fat == old(fat.dev.fat) && !fat.dev.dirty
    ensures old(fat.Exact()) ==> fat.Exact()
    ensures Quiet(fat.dev.g, old(View(fat, cs, true)), View(fat, cs, true), {})
    ensures Gained(f, h, c, node, long)
  {
    ghost var a := View(fat, cs, true);
    h := Store(fat, first, slot, short, nt, long, node, stamp, cs, f, c);
    ghost var b := View(fat, cs, true);
    FlushAfter(fat, first, cs, h);
    QuietTrans(fat.dev.g, a, b, View(fat, cs, true), {});
  }

  lemma FileEntered(g: Geometry, s: State, lost: set<nat>, a: Snap, c: Snap, r: Ref, rec: Record, h: Entries)
    requires Stands(g, s, {}, lost, a) && OfDirAt(a, s, r.dir) && Quiet(g, a, c, {}) && c.table == a.table
    requires c.chain == a.chain
    requires Spare in s.chains && s.chains[Spare] == [] && c.disk == c.table
    requires h == EntriesOf(g, c.image, a.chain) && r.at !in s.tree[r.dir] && TellsAt(h, r.at, rec)
    requires WellKept(h, s.tree[r.dir][r.at := rec]) && Stays(DirEntries(g, a.image, s.chains, r.dir), h, s.tree[r.dir])
    requires ShortUnique(DirEntries(g, a.image, s.chains, r.dir)) ==> ShortUnique(h)
    requires !rec.isDir && rec.cluster == 0 && rec.length == 0
    ensures var s' := WithFile(s, r, rec);
      && Stands(g, s', {}, lost, c.(chain := [], live := false)) && Spare in s'.chains
        && Carried(g, a.image, s, c.image, s', {r}, {r})
      && (ReadsBack(g, c.image, s', r) <==> Faithful(h, r.at, rec))
    ensures SafeLog(g, s.tree.Keys, {}, a.log, c.log)
  {
    var mid, s' := Noted(s, r, rec), WithFile(s, r, rec);
    StoredIn(g, s, lost, a, c, r, rec, h, {}, {});
    SafeLogOf(g, s, {}, a.log, c.log, s.tree.Keys, {});
    Adopt(g, mid, {r}, lost, c.(chain := [], live := false), r);
    assert {r} - {r} == {};
    WithFileIs(s, r, rec);
    CarriedMore(g, a.image, s, c.image, mid, {r}, {}, {r}, {r});
    CarriedMore(g, c.image, mid, c.image, s', {}, {r}, {r}, {r});
    CarriedTrans(g, a.image, s, c.image, mid, c.image, s', {r}, {r});
    NodeCarried(g, c.image, mid, c.image, s', {}, {r}, r);
  }

  /** `fat_create` of a file. */
  method CreateFile(fat: Fat, d: nat, name: seq<Byte>, stamp: Stamp, ghost s: State, ghost lost: set<nat>)
    returns (ok: bool, node: Node, ghost long: bool, ghost s': State)
    requires Ready(fat, s, {}, lost) && s.chains[Spare] == [] && d in s.tree && CName(name)
    modifies fat, fat.dev
    ensures Ready(fat, s', {}, lost) && s'.root == s.root && s'.chains[Spare] == []
    ensures old(fat.Exact()) ==> fat.Exact()
    ensures (ok ==> !fat.dev.dirty) && OfDir(d) in s.chains && OfDir(d) in s'.chains
    ensures FreeCount(fat.dev.fat) + |s'.chains[OfDir(d)]| == FreeCount(old(fat.dev.fat)) + |s.chains[OfDir(d)]|
    ensures long == Long(DirEntries(fat.dev.g, old(fat.dev.sectors), s.chains, d), name)
    ensures ok ==>
      node.record == Record(name, false, 0, 0, SlotsOf(name, long)) && !Has(s, Ref(d, node.at))
      && s'.tree == Noted(s, Ref(d, node.at), node.record).tree
    ensures !ok ==>
      s'.tree == s.tree
      && NoPlace(DirEntries(fat.dev.g, old(fat.dev.sectors), s.chains, d), name, FreeCount(old(fat.dev.fat)))
    ensures SafeLog(fat.dev.g, s.tree.Keys, {}, old(fat.dev.log), fat.dev.log)
    ensures var but := if ok then {Ref(d, node.at)} else {};
      Carried(fat.dev.g, old(fat.dev.sectors), s, fat.dev.sectors, s', but, but)
    ensures ok ==>
      Has(s', Ref(d, node.at)) && (ReadsBack(fat.dev.g, fat.dev.sectors, s', Ref(d, node.at)) <==> Kept(name, long))
  {
    assert Moored(0);
    ghost var g, a := fat.dev.g, View(fat, [], false);
    var slot, short, nt, form;
    ghost var ch;
    node := Node(0, Record(name, false, 0, 0, 0));
    ok, slot, short, nt, form, ch := ReserveIn(fat, d, name, s, lost);
    long, s' := form, Grew(s, d, ch);
    if !ok {
      return;
    }
    ghost var b, s1 := View(fat, [], false), Grew(s, d, ch);
    FewSlots(name, form);
    node := Node(slot + SlotsOf(name, form) - 1, Record(name, false, 0, 0, SlotsOf(name, form)));
    EnterFile(fat, d, slot, short, nt, form, node, stamp, s1, lost);
    ghost var r := Ref(d, node.at);
    s' := WithFile(s1, r, node.record);
    SafeLogTrans(g, s.tree.Keys, {}, a.log, b.log, fat.dev.log);
    CarriedMore(g, a.image, s, b.image, s1, {}, {}, {r}, {r});
    CarriedTrans(g, a.image, s, b.image, s1, fat.dev.sectors, s', {r}, {r});
  }

  // ---------------------------------------------------------------- unlink

  /** The tree without the file at `r`. */
  ghost function Without(s: State, r: Ref): State
    requires r.dir in s.tree
  {
    Dropped(s.(chains := s.chains - {OfFile(r)}), r)
  }

  lemma WithoutIs(s: State, r: Ref)
    requires Has(s, r) && !Rec(s, r).isDir && OfFile(r) in s.chains && Spare in s.chains && s.chains[Spare] == []
    ensures Spared(Dropped(Released(s, r), r), []) == Without(s, r)
  {
    assert Spared(Dropped(Released(s, r), r), []).chains == Without(s, r).chains;
  }

  /** `fat_unlink` of a file: its entries are freed first and its clusters after them, so at no moment does a
      live entry name a free cluster. */
  method UnlinkFile(fat: Fat, r: Ref, rec: Record, ghost s: State, ghost lost: set<nat>)
    requires Ready(fat, s, {}, lost) && s.chains[Spare] == [] && Has(s, r) && rec == Rec(s, r) && !rec.isDir
    modifies fat, fat.dev
    ensures OfFile(r) in s.chains && Ready(fat, Without(s, r), {}, lost) && !fat.dev.dirty
    ensures FreedTo(DirEntries(fat.dev.g, old(fat.dev.sectors), s.chains, r.dir),
      DirEntries(fat.dev.g, fat.dev.sectors, Without(s, r).chains, r.dir), r.at, rec.slots)
    ensures FreeCount(fat.dev.fat) == FreeCount(old(fat.dev.fat)) + |s.chains[OfFile(r)]|
    ensures old(fat.Exact()) ==> fat.Exact()
    ensures SafeLog(fat.dev.g, s.tree.Keys, {}, old(fat.dev.log), fat.dev.log)
    ensures Carried(fat.dev.g, old(fat.dev.sectors), s, fat.dev.sectors, Without(s, r), {r}, {r})
  {
    assert Moored(0);
    ghost var g, a := fat.dev.g, View(fat, [], false);
    FileFacts(g, s, {}, lost, a, r);
    DirFacts(g, s, {}, lost, a, r.dir);
    ghost var s1 := Released(s, r);
    assert {} + {r} == {r};
    Release(g, s, {}, lost, a, r);
    EraseIn(fat, r, rec.slots, s1, lost, s, {});
    ghost var b, s2 := View(fat, [], false), Dropped(s1, r);
    FreeSpare(fat, rec.cluster, s2, {}, lost);
    WithoutIs(s, r);
    UnlinkEntries(g, a.image, s, b.image, s2, fat.dev.sectors, r, rec.slots);
    SafeLogOf(g, s, {}, a.log, b.log, s.tree.Keys, {});
    SafeLogOf(g, s2, {}, b.log, fat.dev.log, s.tree.Keys, {});
    SafeLogTrans(g, s.tree.Keys, {}, a.log, b.log, fat.dev.log);
    UnlinkCarried(g, a.image, s, s1, b.image, s2, fat.dev.sectors, Without(s, r), r);
  }

  lemma UnlinkEntries(g: Geometry, a: Image, s: State, b: Image, s2: State, c: Image, r: Ref, slots: nat)
    requires Sized(g, a, b) && Has(s, r) && !Rec(s, r).isDir && OfFile(r) in s.chains && Spare in s.chains
    requires s.chains[Spare] == [] && OfDir(r.dir) in s.chains
    requires s2 == Dropped(Released(s, r), r) && DirsAlike(g, b, c, s2, Spared(s2, []).chains, {})
    requires FreedTo(DirEntries(g, a, Released(s, r).chains, r.dir), DirEntries(g, b, Released(s, r).chains, r.dir),
      r.at, slots)
    ensures FreedTo(DirEntries(g, a, s.chains, r.dir), DirEntries(g, c, Without(s, r).chains, r.dir), r.at, slots)
  {
    WithoutIs(s, r);
    AlikeAt(g, b, c, s2, Spared(s2, []).chains, {}, r.dir);
    assert DirEntries(g, a, Released(s, r).chains, r.dir) == DirEntries(g, a, s.chains, r.dir);
  }

  lemma UnlinkCarried(g: Geometry, a: Image, s: State, s1: State, b: Image, s2: State, c: Image, s3: State, r: Ref)
    requires Carried(g, a, s, a, s1, {}, {r}) && Carried(g, a, s1, b, s2, {r}, {}) && Carried(g, b, s2, c, s3, {}, {})
    ensures Carried(g, a, s, c, s3, {r}, {r})
  {
    CarriedMore(g, a, s, a, s1, {}, {r}, {r}, {r});
    CarriedMore(g, a, s1, b, s2, {r}, {}, {r}, {r});
    CarriedMore(g, b, s2, c, s3, {}, {}, {r}, {r});
    CarriedTrans(g, a, s, a, s1, b, s2, {r}, {r});
    CarriedTrans(g, a, s, b, s2, c, s3, {r}, {r});
  }

  /** The tree without the empty directory at `r`. */
  ghost function WithoutDir(s: State, r: Ref): State
    requires Has(s, r)
  {
    var v := Rec(s, r).cluster;
    var c: Index := s.tree[r.dir] - {r.at};
    s.(tree := s.tree[r.dir := c] - {v}, chains := s.chains - {OfDir(v)})
  }

  lemma WithoutDirIs(s: State, r: Ref)
    requires Has(s, r) && OfDir(Rec(s, r).cluster) in s.chains && Spare in s.chains && s.chains[Spare] == []
    ensures Spared(Disbanded(Dropped(s, r), Rec(s, r).cluster), []) == WithoutDir(s, r)
  {
    assert Spared(Disbanded(Dropped(s, r), Rec(s, r).cluster), []).chains == WithoutDir(s, r).chains;
  }

  lemma SubDir(g: Geometry, s: State, lost: set<nat>, a: Snap, r: Ref)
    requires Stands(g, s, {}, lost, a) && Has(s, r) && Rec(s, r).isDir
    ensures Rec(s, r).cluster in s.tree && Rec(s, r).cluster != s.root
    ensures s.tree[Rec(s, r).cluster] == map[] ==> Rec(s, r).cluster != r.dir
    ensures forall q :: IsSub(Dropped(s, r), {}, q) ==> Rec(Dropped(s, r), q).cluster != Rec(s, r).cluster
  {
    NodeOf(g, s, {}, r);
    assert Shaped(0);
    forall q | IsSub(Dropped(s, r), {}, q) ensures Rec(Dropped(s, r), q).cluster != Rec(s, r).cluster {
      assert Has(s, q) && q != r && Rec(Dropped(s, r), q) == Rec(s, q) && IsSub(s, {}, q) && IsSub(s, {}, r);
    }
  }

  /** `fat_unlink` of an empty directory. */
  method RemoveDir(fat: Fat, r: Ref, rec: Record, ghost s: State, ghost lost: set<nat>)
    requires Ready(fat, s, {}, lost) && s.chains[Spare] == [] && Has(s, r) && rec == Rec(s, r) && rec.isDir
    requires rec.cluster in s.tree && s.tree[rec.cluster] == map[]
    modifies fat, fat.dev
    ensures OfDir(rec.cluster) in s.chains && Ready(fat, WithoutDir(s, r), {}, lost) && !fat.dev.dirty
    ensures FreeCount(fat.dev.fat) == FreeCount(old(fat.dev.fat)) + |s.chains[OfDir(rec.cluster)]|
    ensures old(fat.Exact()) ==> fat.Exact()
    ensures SafeLog(fat.dev.g, s.tree.Keys - {rec.cluster}, {}, old(fat.dev.log), fat.dev.log)
    ensures Carried(fat.dev.g, old(fat.dev.sectors), s, fat.dev.sectors, WithoutDir(s, r), {r}, {r})
  {
    assert Moored(0);
    ghost var g, a, v := fat.dev.g, View(fat, [], false), rec.cluster;
    ghost var dirs := s.tree.Keys - {v};
    SubDir(g, s, lost, a, r);
    DirFacts(g, s, {}, lost, a, r.dir);
    DirFacts(g, s, {}, lost, a, v);
    assert {} + {r} == {r};
    Release(g, s, {}, lost, a, r);
    EraseIn(fat, r, rec.slots, s, lost, s, {});
    ghost var b, s2 := View(fat, [], false), Dropped(s, r);
    Disband(g, s2, {}, lost, b, v);
    ghost var s3 := Disbanded(s2, v);
    FreeSpare(fat, rec.cluster, s3, {}, lost);
    WithoutDirIs(s, r);
    SafeLogOf(g, s, {}, a.log, b.log, dirs, {});
    SafeLogOf(g, s3, {}, b.log, fat.dev.log, dirs, {});
    SafeLogTrans(g, dirs, {}, a.log, b.log, fat.dev.log);
    CarriedMore(g, b.image, s2, b.image, s3, {}, {}, {r}, {});
    CarriedTrans(g, a.image, s, b.image, s2, b.image, s3, {r}, {});
    CarriedRefl(g, a.image, s, {}, {r});
    UnlinkCarried(g, a.image, s, s, b.image, s3, fat.dev.sectors, WithoutDir(s, r), r);
  }

  // ---------------------------------------------------------------- mkdir

  lemma {:induction false} ZeroedEntries(g: Geometry, im: Image, c: nat)
    requires g.Valid() && Fits(g, im) && ZeroedCluster(g, im, c)
    ensures InVolume(g, [c]) && EntriesOf(g, im, [c]) == Blank(16 * g.spc)
  {
    WidenedEntries(g, im, im, [], [c], true);
    assert EntriesOf(g, im, []) == [];
  }

  // Predicates quantified over one of these stay folded in a proof until it mentions that token.
  ghost predicate Vacated(n: int) { true }
  ghost predicate Settling(n: int) { true }

  /** Cluster `c` holds nothing but free entries. */
  ghost predicate BlankDir(g: Geometry, im: Image, c: nat) {
    g.Valid() && Fits(g, im) && InVolume(g, [c]) && forall n: int :: Vacated(n) ==>
      EntriesOf(g, im, [c]) == Blank(16 * g.spc)
  }

  /** "." or "..", that is `n` dots, for a directory that starts at `cluster`. */
  ghost predicate IsDots(e: DirEntry, n: nat, cluster: nat)
    requires n <= 2
  {
    IsShortEntry(e, Pad(seq(n, _ => DOT), 8) + Pad([], 3), 0, true, cluster, 0)
  }

  /** "." for the directory at `c`, ".." for its parent, and nothing after them. */
  ghost predicate DotsOnly(e: Entries, c: nat, up: nat) {
    && 2 <= |e| && IsDots(e[0], 1, c) && IsDots(e[1], 2, up)
    && forall k :: 2 <= k < |e| ==> e[k][0] == ENTRY_END
  }

  /** Cluster `c` holds a directory that lists nothing, under the one at `up`; folded behind `Settling`. */
  ghost predicate FreshDir(g: Geometry, im: Image, c: nat, up: nat) {
    && g.Valid() && Fits(g, im) && InVolume(g, [c])
    && forall n: int :: Settling(n) ==>
      && WellKept(EntriesOf(g, im, [c]), map[]) && ShortUnique(EntriesOf(g, im, [c]))
      && DotsOnly(EntriesOf(g, im, [c]), c, up)
  }

  lemma BlankSame(g: Geometry, a: Image, b: Image, c: nat)
    requires BlankDir(g, a, c) && OwnSame(g, a, b, [c])
    ensures BlankDir(g, b, c)
  {
    assert Vacated(0);
    EntriesSame(g, a, b, [c]);
  }

  lemma FreeIsNoDir(g: Geometry, s: State, lost: set<nat>, a: Snap, c: nat)
    requires Stands(g, s, {}, lost, a) && c < |a.table| && a.table[c] == 0
    ensures c !in s.tree
  {
    if c in s.tree {
      DirFacts(g, s, {}, lost, a, c);
      ChainNonZero(a.table, s.chains[OfDir(c)]);
    }
  }

  /** Cluster `c` was just taken from table `t`: its table sector is the cached one and still to be written, the
      device shows `t`, and no position is remembered. */
  ghost predicate Poised(g: Geometry, a: Cursor, c: nat, t: Table) {
    a.held == Held(true, g.fatLba + c / 128, t) && a.cluster == 0
  }

  /** The entries of `c` and of all the clusters before the one that holds entry `at` lie in one sector of the
      table: a walk to that entry reads no other. */
  ghost predicate OneSector(g: Geometry, cs: seq<nat>, at: nat, c: nat)
    requires g.Valid()
  {
    forall i :: 0 <= i < ClusterFor(g, at) && i < |cs| ==> cs[i] / 128 == c / 128
  }

  /** So it decides whether the walk brings the entry of `c` to the device. */
  lemma WalkFlushes(g: Geometry, t: Table, cs: seq<nat>, at: nat, c: nat, a: Cursor, b: Cursor)
    requires g.Valid() && IsChain(t, cs) && InFile(g, |cs|, at / 16) && Walked(g, t, cs[0], ClusterFor(g, at), a, b)
    requires a.cluster < 2 && a.held.dirty && a.held.lba == g.fatLba + c / 128
    ensures if OneSector(g, cs, at, c) then b.held == a.held else !b.held.dirty
  {
    assert Toured(0) && Crossed(0);
    forall i | 0 <= i < ClusterFor(g, at) ensures Walk(t, cs[0], i) == cs[i] {
      WalkOnChain(t, cs, i);
    }
    if i :| 0 <= i < ClusterFor(g, at) && cs[i] / 128 != c / 128 {
      assert Walk(t, cs[0], i) == cs[i];
    }
  }

  /** `alloc_cluster(0)` and `zero_cluster`: a cluster for a new directory, all of it free entries. */
  method TakeCluster(fat: Fat, ghost s: State, ghost lost: set<nat>) returns (c: nat)
    requires Ready(fat, s, {}, lost) && s.chains[Spare] == []
    modifies fat, fat.dev
    ensures Ready(fat, Spared(s, if c == 0 then [] else [c]), {}, lost) && (old(fat.Exact()) ==> fat.Exact())
    ensures c == 0 <==> FreeCount(old(fat.dev.fat)) == 0
    ensures c != 0 ==> c !in s.tree && fat.dev.g.InRange(c) && c < |old(fat.dev.fat)| && old(fat.dev.fat)[c] == 0
    ensures c != 0 ==> BlankDir(fat.dev.g, fat.dev.sectors, c) && NextFree(old(fat.dev.fat), old(fat.freeHint), c)
    ensures c != 0 && old(!fat.dev.dirty) ==> Poised(fat.dev.g, fat.At(), c, old(fat.dev.fat))
    ensures FreeCount(fat.dev.fat) == FreeCount(old(fat.dev.fat)) - (if c == 0 then 0 else 1)
    ensures SafeRun(fat.dev.g, s, {}, old(fat.dev.log), fat.dev.log)
    ensures Carried(fat.dev.g, old(fat.dev.sectors), s, fat.dev.sectors, Spared(s, if c == 0 then [] else [c]), {}, {})
    ensures DirsAlike(fat.dev.g, old(fat.dev.sectors), fat.dev.sectors, s,
      Spared(s, if c == 0 then [] else [c]).chains, {})
  {
    assert Moored(0);
    ghost var g, a := fat.dev.g, View(fat, [], false);
    c := Extend(fat, 0, [], false);
    ghost var b := View(fat, if c == 0 then [] else [c], false);
    assert [] + [c] == [c];
    TakenCounts(a, b, c);
    SpareStep(g, s, {}, lost, a, b);
    if c != 0 {
      FreeIsNoDir(g, s, lost, a, c);
      ZeroedEntries(g, b.image, c);
    }
  }

  lemma TakenCounts(a: Snap, b: Snap, c: nat)
    requires a.chain == [] && |a.table| <= FAT_BAD && b.chain == if c == 0 then [] else [c]
    requires c == 0 ==> b.table == a.table
    requires c != 0 ==> 2 <= c < |a.table| && a.table[c] == 0 && b.table == Linked(a.table, 0, c)
    ensures Owns(b.table, b.chain) && Counts(a, b)
  {
    if c != 0 {
      LinkedCount(a.table, 0, c);
      assert Traced(0);
    }
  }

  ghost predicate AllBlank(e: Entries) {
    forall n: int :: Vacated(n) ==> e == Blank(|e|)
  }

  /** What "." and ".." leave of a blank directory: one that lists nothing. */
  lemma {:induction false} FreshKept(e: Entries, dot: DirEntry, dots: DirEntry, c: nat, up: nat)
    requires 2 <= |e| && AllBlank(e) && Inert(dot) && Inert(dots) && dot[0] == DOT && dots[0] == DOT
    requires !IsFragmentEntry(dot) && !IsFragmentEntry(dots) && dot[..11] != dots[..11]
    requires IsDots(dot, 1, c) && IsDots(dots, 2, up)
    ensures WellKept(e[0 := dot][1 := dots], map[]) && ShortUnique(e[0 := dot][1 := dots])
    ensures DotsOnly(e[0 := dot][1 := dots], c, up)
  {
    assert Vacated(0);
    BlankRest(|e|, dot, dots);
    var h := [dot, dots] + Blank(|e| - 2);
    FreshLaidOut(h);
    FreshUnique(h);
    assert Dotted(h, map[]) by {
      assert Dotting(0);
    }
  }

  method DotEntry(n: nat, cluster: nat, stamp: Stamp) returns (ent: DirEntry)
    requires (n == 1 || n == 2) && cluster < WORD
    ensures Inert(ent) && ent[0] == DOT && !IsFragmentEntry(ent) && IsDots(ent, n, cluster) && !Pointing(ent)
    ensures ent[..11][1] == if n == 1 then SPACE else DOT
  {
    ent := MakeShortEntry(Pad(seq(n, _ => DOT), 8) + Pad([], 3), 0, true, cluster, 0, stamp);
    DotsInert(ent, n, 0, cluster, 0);
  }

  /** Writes "." and ".." into the new directory's cluster and flushes the table. */
  method WriteDots(fat: Fat, c: nat, up: nat, stamp: Stamp, ghost s: State, ghost skip: set<Ref>, ghost lost: set<nat>)
    requires Ready(fat, s, skip, lost) && s.chains[Spare] == [c] && c < WORD && up < WORD
    requires BlankDir(fat.dev.g, fat.dev.sectors, c)
    modifies fat.dev, fat`memoFirst, fat`memoIndex, fat`memoCluster, fat`linkSteps
    ensures Ready(fat, s, skip, lost) && !fat.dev.dirty && fat.dev.fat == old(fat.dev.fat)
    ensures old(fat.Exact()) ==> fat.Exact()
    ensures SafeRun(fat.dev.g, s, skip, old(fat.dev.log), fat.dev.log)
    ensures Carried(fat.dev.g, old(fat.dev.sectors), s, fat.dev.sectors, s, {}, {})
    ensures DirsAlike(fat.dev.g, old(fat.dev.sectors), fat.dev.sectors, s, s.chains, {})
    ensures FreshDir(fat.dev.g, fat.dev.sectors, c, up)
    ensures Quiet(fat.dev.g, old(View(fat, [c], true)), View(fat, [c], true), {})
  {
    assert Moored(0);
    ghost var g, a, e := fat.dev.g, View(fat, [c], true), Blank(16 * fat.dev.g.spc);
    ForestOwns(a.table, s.chains, Spare);
    assert Vacated(0);
    ghost var h := PutDots(fat, c, up, stamp, e);
    DotsDone(g, s, skip, lost, a, View(fat, [c], true), c);
  }

  method PutDots(fat: Fat, c: nat, up: nat, stamp: Stamp, ghost e: Entries) returns (ghost h: Entries)
    requires Reads(fat, c, [c], e) && AllBlank(e) && 2 <= |e| && c < WORD && up < WORD
    modifies fat.dev, fat`memoFirst, fat`memoIndex, fat`memoCluster, fat`linkSteps
    ensures Reads(fat, c, [c], h) && !fat.dev.dirty && fat.dev.fat == old(fat.dev.fat)
    ensures old(fat.Exact()) ==> fat.Exact()
    ensures Quiet(fat.dev.g, old(View(fat, [c], true)), View(fat, [c], true), {})
    ensures WellKept(h, map[]) && ShortUnique(h) && DotsOnly(h, c, up)
  {
    ghost var g, a := fat.dev.g, View(fat, [c], true);
    var dot := DotEntry(1, c, stamp);
    PutEntry(fat, c, 0, dot, [c], e);
    ghost var b := View(fat, [c], true);
    var dots := DotEntry(2, up, stamp);
    PutEntry(fat, c, 1, dots, [c], e[0 := dot]);
    ghost var d := View(fat, [c], true);
    h := e[0 := dot][1 := dots];
    QuietTrans(g, a, b, d, {});
    FlushAfter(fat, c, [c], h);
    QuietTrans(g, a, d, View(fat, [c], true), {});
    FreshKept(e, dot, dots, c, up);
  }

  lemma BlankRest(n: nat, dot: DirEntry, dots: DirEntry)
    requires 2 <= n
    ensures Blank(n)[0 := dot][1 := dots] == [dot, dots] + Blank(n - 2)
  {
  }

  lemma DotsDone(g: Geometry, s: State, skip: set<Ref>, lost: set<nat>, a: Snap, f: Snap, c: nat)
    requires Stands(g, s, skip, lost, a) && Spare in s.chains && s.chains[Spare] == [c] && a.chain == [c]
    requires f.chain == [c]
    requires Quiet(g, a, f, {}) && f.table == a.table && Owns(a.table, [c])
    ensures Stands(g, s, skip, lost, f.(chain := [], live := false)) && SafeRun(g, s, skip, a.log, f.log)
    ensures Carried(g, a.image, s, f.image, s, {}, {}) && DirsAlike(g, a.image, f.image, s, s.chains, {})
  {
    SpareStep(g, s, skip, lost, a, f);
    assert s.chains[Spare := [c]] == s.chains;
  }

  /** The tree with an empty directory at `r`. */
  ghost function WithDir(s: State, r: Ref, rec: Record): State
    requires r.dir in s.tree
  {
    var s' := Noted(s, r, rec);
    s'.(tree := s'.tree[rec.cluster := map[]], chains := s.chains[OfDir(rec.cluster) := [rec.cluster]])
  }

  lemma WithDirIs(s: State, r: Ref, rec: Record)
    requires r.dir in s.tree && Spare in s.chains && s.chains[Spare] == []
    ensures var mid := Noted(Spared(s, [rec.cluster]), r, rec); Founded(mid, rec.cluster) == WithDir(s, r, rec)
  {
    var mid := Noted(Spared(s, [rec.cluster]), r, rec);
    assert Founded(mid, rec.cluster).chains == WithDir(s, r, rec).chains;
  }

  /** The moment the entry of a new directory lands on the device is safe if the table there already shows the
      new cluster in use. */
  lemma LandedSafe(g: Geometry, s: State, lost: set<nat>, b: Snap, r: Ref, rec: Record)
    requires r.dir in s.tree && Stands(g, Noted(s, r, rec), {r}, lost, b) && rec.isDir && Storable(rec)
    requires Spare in s.chains && s.chains[Spare] == [rec.cluster] && rec.cluster !in s.tree
    requires InVolume(g, [rec.cluster])
    requires Told(g, b.image, s.chains, r, rec) && BlankDir(g, b.image, rec.cluster)
    requires b.disk == b.table
    ensures CrashSafe(g, s.tree.Keys, {}, Moment(b.image, b.disk))
  {
    var mid := Noted(s, r, rec);
    assert Vacated(0);
    BlankKept(16 * g.spc);
    Found(g, mid, {r}, lost, b, r);
    assert {r} - {r} == {};
    SafeIsCrashSafe(g, Founded(mid, rec.cluster), {}, Moment(b.image, b.disk), s.tree.Keys, {});
  }

  /** And from then on its own entries are written as any directory's are. */
  lemma DotsSafe(g: Geometry, s: State, lost: set<nat>, b: Snap, f: Snap, r: Ref, rec: Record)
    requires r.dir in s.tree && Stands(g, Noted(s, r, rec), {r}, lost, b) && rec.isDir && Storable(rec)
    requires Spare in s.chains && s.chains[Spare] == [rec.cluster] && rec.cluster !in s.tree
    requires InVolume(g, [rec.cluster])
    requires Told(g, b.image, s.chains, r, rec) && BlankDir(g, b.image, rec.cluster)
    requires b.disk == b.table && b.chain == [rec.cluster] && b.live && Quiet(g, b, f, {})
    ensures SafeLog(g, s.tree.Keys, {}, b.log, f.log)
  {
    var mid := Noted(s, r, rec);
    assert Vacated(0);
    BlankKept(16 * g.spc);
    Found(g, mid, {r}, lost, b, r);
    assert {r} - {r} == {};
    DirRun(g, Founded(mid, rec.cluster), {}, lost, b, f, rec.cluster, {}, {});
    SafeLogOf(g, Founded(mid, rec.cluster), {}, b.log, f.log, s.tree.Keys, {});
  }

  /** It is not safe if the table there is still a table of before the allocation. */
  lemma LandedUnsafe(g: Geometry, s: State, lost: set<nat>, t: Table, b: Snap, r: Ref, rec: Record)
    requires r.dir in s.tree && Stands(g, Noted(s, r, rec), {r}, lost, b) && 2 <= rec.cluster
    requires Told(g, b.image, s.chains, r, rec)
    requires Forest(t, s.chains[Spare := []]) && rec.cluster < |t| && t[rec.cluster] == 0 && b.disk == t
    ensures !CrashSafe(g, s.tree.Keys, {}, Moment(b.image, b.disk))
  {
    var mid := Noted(s, r, rec);
    NodePoints(g, mid, {r}, b.table, b.image, r, rec);
    DirOf(g, mid, {r}, r.dir);
    var v := s.chains[Spare := []];
    assert DirEntries(g, b.image, v, r.dir) == DirEntries(g, b.image, s.chains, r.dir);
    FreeHeadUnsafe(g, s.tree.Keys, Moment(b.image, b.disk), v, r);
  }

  lemma {:induction false} BlankKept(n: nat)
    ensures WellKept(Blank(n), map[]) && ShortUnique(Blank(n))
  {
    var e := Blank(n);
    LiveEndIs(e, 0);
    NoGroups(e, map[]);
    assert Dotted(e, map[]) by {
      assert Dotting(0);
    }
  }

  /** The part of `mkdir` after room for its entries was found. */
  method FoundDir(fat: Fat, root: nat, d: nat, name: seq<Byte>, slot: nat, short: seq<Byte>, nt: Byte, long: bool,
      stamp: Stamp, ghost s: State, ghost lost: set<nat>)
    returns (ok: bool, node: Node, ghost landed: nat)
    requires Ready(fat, s, {}, lost) && s.chains[Spare] == [] && d in s.tree && d < WORD && root == s.root
    requires CName(name)
    requires Chosen(DirEntries(fat.dev.g, fat.dev.sectors, s.chains, d), name, slot, short, nt, long)
    modifies fat, fat.dev
    ensures ok ==>
      node.record == Record(name, true, 0, node.record.cluster, SlotsOf(name, long)) && !Has(s, Ref(d, node.at))
    ensures ok ==> 2 <= node.record.cluster && node.record.cluster !in s.tree
    ensures Ready(fat, Made(s, Ref(d, node.at), node.record, ok), {}, lost) && (old(fat.Exact()) ==> fat.Exact())
    ensures ok <==> FreeCount(old(fat.dev.fat)) > 0
    ensures FreeCount(fat.dev.fat) + (if ok then 1 else 0) == FreeCount(old(fat.dev.fat))
    ensures SafeLog(fat.dev.g, s.tree.Keys, if ok then {Ref(d, node.at)} else {}, old(fat.dev.log), fat.dev.log)
    ensures ok ==> |old(fat.dev.log)| <= landed < |fat.dev.log|
    ensures ok ==>
      !fat.dev.dirty && OfDir(d) in s.chains && NextFree(old(fat.dev.fat), old(fat.freeHint), node.record.cluster)
    ensures ok ==> node.at + 1 == slot + node.record.slots
    ensures ok && fat.dev.log[landed].table == fat.dev.fat ==>
      SafeLog(fat.dev.g, s.tree.Keys, {}, old(fat.dev.log), fat.dev.log)
    ensures ok && old(!fat.dev.dirty) ==>
      fat.dev.log[landed].table == if OneSector(fat.dev.g, s.chains[OfDir(d)], node.at, node.record.cluster)
        then old(fat.dev.fat) else fat.dev.fat
    ensures ok && fat.dev.log[landed].table == old(fat.dev.fat) ==>
      !CrashSafe(fat.dev.g, s.tree.Keys, {}, fat.dev.log[landed])
    ensures Carried(fat.dev.g, old(fat.dev.sectors), s, fat.dev.sectors, Made(s, Ref(d, node.at), node.record, ok),
      if ok then {Ref(d, node.at)} else {}, {})
    ensures ok ==>
      (ReadsBack(fat.dev.g, fat.dev.sectors, Made(s, Ref(d, node.at), node.record, ok), Ref(d, node.at)) <==>
      Kept(name, long))
    ensures ok ==> FreshDir(fat.dev.g, fat.dev.sectors, node.record.cluster, if d == root then 0 else d)
  {
    assert Moored(0);
    ghost var g, a, dirs := fat.dev.g, View(fat, [], false), s.tree.Keys;
    node := Node(0, Record(name, true, 0, 0, 0));
    landed := 0;
    DirFacts(g, s, {}, lost, a, d);
    var c := TakeCluster(fat, s, lost);
    ghost var b := View(fat, [], false);
    SafeLogOf(g, s, {}, a.log, b.log, dirs, {});
    if c == 0 {
      assert s.chains[Spare := []] == s.chains;
      return false, node, 0;
    }
    ghost var s2 := Spared(s, [c]);
    AlikeAt(g, a.image, b.image, s, s2.chains, {}, d);
    FewSlots(name, long);
    node := Node(slot + SlotsOf(name, long) - 1, Record(name, true, 0, c, SlotsOf(name, long)));
    ghost var r := Ref(d, node.at);
    landed := FillDir(fat, d, if d == root then 0 else d, slot, short, nt, long, node, stamp, s, lost, a.table);
    ok := true;
    if fat.dev.log[landed].table == fat.dev.fat {
      SafeLogTrans(g, dirs, {}, a.log, b.log, fat.dev.log);
    }
    SkipMore(g, dirs, a.log, b.log, {r});
    SafeLogTrans(g, dirs, {r}, a.log, b.log, fat.dev.log);
    CarriedMore(g, a.image, s, b.image, s2, {}, {}, {r}, {});
    CarriedTrans(g, a.image, s, b.image, s2, fat.dev.sectors, WithDir(s, r, node.record), {r}, {});
  }

  /** The entries of a new directory, whose cluster `t` still shows free, and its own first two. */
  method FillDir(fat: Fat, d: nat, up: nat, slot: nat, short: seq<Byte>, nt: Byte, long: bool, node: Node, stamp: Stamp,
      ghost s: State, ghost lost: set<nat>, ghost t: Table)
    returns (ghost landed: nat)
    requires Spare in s.chains && s.chains[Spare] == [] && d in s.tree && up < WORD && Placed(node, slot, long)
    requires node.record.isDir
    requires Ready(fat, Spared(s, [node.record.cluster]), {}, lost)
    requires Chosen(DirEntries(fat.dev.g, fat.dev.sectors, Spared(s, [node.record.cluster]).chains, d),
      node.record.name, slot, short, nt, long)
    requires 2 <= node.record.cluster < |t| && node.record.cluster !in s.tree && t[node.record.cluster] == 0
    requires Forest(t, s.chains)
    requires BlankDir(fat.dev.g, fat.dev.sectors, node.record.cluster)
    modifies fat.dev, fat`memoFirst, fat`memoIndex, fat`memoCluster, fat`linkSteps
    ensures !Has(s, Ref(d, node.at)) && Ready(fat, WithDir(s, Ref(d, node.at), node.record), {}, lost)
    ensures fat.dev.fat == old(fat.dev.fat) && (old(fat.Exact()) ==> fat.Exact())
    ensures SafeLog(fat.dev.g, s.tree.Keys, {Ref(d, node.at)}, old(fat.dev.log), fat.dev.log)
    ensures |old(fat.dev.log)| <= landed < |fat.dev.log|
    ensures fat.dev.log[landed].table == fat.dev.fat ==>
      SafeLog(fat.dev.g, s.tree.Keys, {}, old(fat.dev.log), fat.dev.log)
    ensures !fat.dev.dirty && OfDir(d) in s.chains && (Poised(fat.dev.g, old(fat.At()), node.record.cluster, t) ==>
      fat.dev.log[landed].table == if OneSector(fat.dev.g, s.chains[OfDir(d)], node.at, node.record.cluster) then t
        else fat.dev.fat)
    ensures fat.dev.log[landed].table == t ==> !CrashSafe(fat.dev.g, s.tree.Keys, {}, fat.dev.log[landed])
    ensures Carried(fat.dev.g, old(fat.dev.sectors), Spared(s, [node.record.cluster]), fat.dev.sectors,
      WithDir(s, Ref(d, node.at), node.record), {Ref(d, node.at)}, {})
    ensures ReadsBack(fat.dev.g, fat.dev.sectors, WithDir(s, Ref(d, node.at), node.record), Ref(d, node.at)) <==>
      Kept(node.record.name, long)
    ensures FreshDir(fat.dev.g, fat.dev.sectors, node.record.cluster, up)
  {
    assert Moored(0);
    ghost var g, b, rec, r := fat.dev.g, View(fat, [], false), node.record, Ref(d, node.at);
    PlantDir(fat, d, slot, short, nt, long, node, stamp, s, lost, t);
    ghost var e := View(fat, [], false);
    landed := |e.log| - 1;
    WriteDots(fat, node.record.cluster, up, stamp, Noted(Spared(s, [rec.cluster]), r, rec), {r}, lost);
    FilledDir(g, s, lost, b, e, View(fat, [], false), r, rec, up);
    FilledLog(g, Noted(Spared(s, [rec.cluster]), r, rec), s.tree.Keys, {r}, b.log, e.log, fat.dev.log);
    if e.disk == e.table {
      DotsSafe(g, Spared(s, [rec.cluster]), lost, e.(chain := [rec.cluster], live := true),
        View(fat, [rec.cluster], true), r, rec);
      SafeLogTrans(g, s.tree.Keys, {}, b.log, e.log, fat.dev.log);
    }
  }

  /** The entries of a new directory in its parent. */
  method PlantDir(fat: Fat, d: nat, slot: nat, short: seq<Byte>, nt: Byte, long: bool, node: Node, stamp: Stamp,
      ghost s: State, ghost lost: set<nat>, ghost t: Table)
    requires Spare in s.chains && s.chains[Spare] == [] && d in s.tree && Placed(node, slot, long) && node.record.isDir
    requires Ready(fat, Spared(s, [node.record.cluster]), {}, lost)
    requires Chosen(DirEntries(fat.dev.g, fat.dev.sectors, Spared(s, [node.record.cluster]).chains, d),
      node.record.name, slot, short, nt, long)
    requires 2 <= node.record.cluster < |t| && node.record.cluster !in s.tree && t[node.record.cluster] == 0
    requires Forest(t, s.chains)
    requires BlankDir(fat.dev.g, fat.dev.sectors, node.record.cluster)
    modifies fat.dev, fat`memoFirst, fat`memoIndex, fat`memoCluster, fat`linkSteps
    ensures !Has(s, Ref(d, node.at))
    ensures Ready(fat, Noted(Spared(s, [node.record.cluster]), Ref(d, node.at), node.record), {Ref(d, node.at)}, lost)
    ensures fat.dev.fat == old(fat.dev.fat) && (old(fat.Exact()) ==> fat.Exact())
    ensures SafeLog(fat.dev.g, s.tree.Keys, {Ref(d, node.at)}, old(fat.dev.log), fat.dev.log)
    ensures |old(fat.dev.log)| < |fat.dev.log|
    ensures fat.dev.disk == fat.dev.fat ==> SafeLog(fat.dev.g, s.tree.Keys, {}, old(fat.dev.log), fat.dev.log)
    ensures OfDir(d) in s.chains && (Poised(fat.dev.g, old(fat.At()), node.record.cluster, t) ==>
      fat.dev.disk == if OneSector(fat.dev.g, s.chains[OfDir(d)], node.at, node.record.cluster) then t else fat.dev.fat)
    ensures fat.dev.disk == t ==> !CrashSafe(fat.dev.g, s.tree.Keys, {}, Moment(fat.dev.sectors, fat.dev.disk))
    ensures BlankDir(fat.dev.g, fat.dev.sectors, node.record.cluster)
    ensures Carried(fat.dev.g, old(fat.dev.sectors), Spared(s, [node.record.cluster]), fat.dev.sectors,
      Noted(Spared(s, [node.record.cluster]), Ref(d, node.at), node.record), {Ref(d, node.at)}, {})
    ensures Told(fat.dev.g, fat.dev.sectors, Spared(s, [node.record.cluster]).chains, Ref(d, node.at), node.record)
    ensures Kept(node.record.name, long) <==>
      ReadsBack(fat.dev.g, fat.dev.sectors, Noted(Spared(s, [node.record.cluster]), Ref(d, node.at), node.record),
        Ref(d, node.at))
  {
    assert Moored(0);
    ghost var g, b, rec, r := fat.dev.g, View(fat, [], false), node.record, Ref(d, node.at);
    StoreIn(fat, d, slot, short, nt, long, node, stamp, Spared(s, [rec.cluster]), lost);
    BlankSame(g, b.image, fat.dev.sectors, rec.cluster);
    PlantedLog(g, s, lost, t, b.log, View(fat, [], false), r, rec);
    PlantedAt(g, s, lost, View(fat, [], false), r, rec, t, old(fat.At()), fat.At());
  }

  lemma PlantedLog(g: Geometry, s: State, lost: set<nat>, t: Table, before: seq<Moment>, e: Snap, r: Ref, rec: Record)
    requires Spare in s.chains && s.chains[Spare] == [] && r.dir in s.tree && rec.isDir && Storable(rec)
    requires Stands(g, Noted(Spared(s, [rec.cluster]), r, rec), {r}, lost, e) && 2 <= rec.cluster < |t|
    requires rec.cluster !in s.tree
    requires t[rec.cluster] == 0 && Forest(t, s.chains) && InVolume(g, [rec.cluster])
    requires Told(g, e.image, Spared(s, [rec.cluster]).chains, r, rec) && BlankDir(g, e.image, rec.cluster)
    requires |before| < |e.log| && SafeRun(g, Spared(s, [rec.cluster]), {r}, before, e.log)
    requires SafeButLast(g, Spared(s, [rec.cluster]), before, e.log)
    ensures e.disk == e.table ==> SafeLog(g, s.tree.Keys, {}, before, e.log)
    ensures e.disk == t ==> !CrashSafe(g, s.tree.Keys, {}, Moment(e.image, e.disk))
    ensures SafeLog(g, s.tree.Keys, {r}, before, e.log)
  {
    Landed(g, s, lost, t, e, r, rec);
    SafeLogOf(g, Spared(s, [rec.cluster]), {r}, before, e.log, s.tree.Keys, {r});
    SafeLogLast(g, Spared(s, [rec.cluster]), before, e.log, s.tree.Keys);
  }

  lemma PlantedAt(g: Geometry, s: State, lost: set<nat>, e: Snap, r: Ref, rec: Record, t: Table, a: Cursor, b: Cursor)
    requires Spare in s.chains && r.dir in s.tree && Stands(g, Noted(Spared(s, [rec.cluster]), r, rec), {r}, lost, e)
    requires Told(g, e.image, Spared(s, [rec.cluster]).chains, r, rec)
    requires Walked(g, e.table, r.dir, ClusterFor(g, r.at), a, b)
    ensures OfDir(r.dir) in s.chains
    ensures Poised(g, a, rec.cluster, t) ==>
      if OneSector(g, s.chains[OfDir(r.dir)], r.at, rec.cluster) then b.held.disk == t else !b.held.dirty
  {
    DirFacts(g, Noted(Spared(s, [rec.cluster]), r, rec), {r}, lost, e, r.dir);
    var cs := s.chains[OfDir(r.dir)];
    if Poised(g, a, rec.cluster, t) {
      assert Recounted(0);
      EntriesAt(g, e.image, cs, r.at);
      WalkFlushes(g, e.table, cs, r.at, rec.cluster, a, b);
    }
  }

  lemma FilledLog(g: Geometry, s: State, dirs: set<nat>, skip: set<Ref>, b: seq<Moment>, e: seq<Moment>, f: seq<Moment>)
    requires SafeLog(g, dirs, skip, b, e) && |b| < |e| && SafeRun(g, s, skip, e, f) && dirs <= s.tree.Keys
    ensures SafeLog(g, dirs, skip, b, f) && |b| <= |e| - 1 < |f| && f[|e| - 1] == e[|e| - 1]
  {
    SafeLogOf(g, s, skip, e, f, dirs, skip);
    SafeLogTrans(g, dirs, skip, b, e, f);
  }

  /** The new directory stands in the tree. */
  lemma FilledDir(g: Geometry, s: State, lost: set<nat>, b: Snap, e: Snap, f: Snap, r: Ref, rec: Record, up: nat)
    requires Spare in s.chains && s.chains[Spare] == [] && r.dir in s.tree && rec.isDir && Storable(rec)
    requires rec.cluster !in s.tree && InVolume(g, [rec.cluster])
    requires var s2 := Spared(s, [rec.cluster]); var s3 := Noted(s2, r, rec);
      && Stands(g, s3, {r}, lost, f) && f.disk == f.table && Fits(g, e.image) && Fits(g, b.image)
      && Carried(g, b.image, s2, e.image, s3, {r}, {}) && Carried(g, e.image, s3, f.image, s3, {}, {})
      && DirsAlike(g, e.image, f.image, s3, s3.chains, {}) && Told(g, e.image, s2.chains, r, rec)
    requires FreshDir(g, f.image, rec.cluster, up)
    ensures Stands(g, WithDir(s, r, rec), {}, lost, f) && Spare in WithDir(s, r, rec).chains
    ensures Carried(g, b.image, Spared(s, [rec.cluster]), f.image, WithDir(s, r, rec), {r}, {})
    ensures ReadsBack(g, f.image, WithDir(s, r, rec), r) <==>
      ReadsBack(g, e.image, Noted(Spared(s, [rec.cluster]), r, rec), r)
  {
    var s2 := Spared(s, [rec.cluster]);
    DirJoins(g, s, lost, e, f, r, rec, up);
    MadeCarried(g, b.image, s2, e.image, Noted(s2, r, rec), f.image, WithDir(s, r, rec), r);
  }

  lemma Landed(g: Geometry, s: State, lost: set<nat>, t: Table, e: Snap, r: Ref, rec: Record)
    requires Spare in s.chains && s.chains[Spare] == [] && r.dir in s.tree && rec.isDir && Storable(rec)
    requires Stands(g, Noted(Spared(s, [rec.cluster]), r, rec), {r}, lost, e) && 2 <= rec.cluster < |t|
    requires rec.cluster !in s.tree
    requires t[rec.cluster] == 0 && Forest(t, s.chains) && InVolume(g, [rec.cluster])
    requires Told(g, e.image, Spared(s, [rec.cluster]).chains, r, rec) && BlankDir(g, e.image, rec.cluster)
    ensures e.disk == e.table ==> CrashSafe(g, s.tree.Keys, {}, Moment(e.image, e.disk))
    ensures e.disk == t ==> !CrashSafe(g, s.tree.Keys, {}, Moment(e.image, e.disk))
  {
    var s2 := Spared(s, [rec.cluster]);
    if e.disk == e.table {
      LandedSafe(g, s2, lost, e, r, rec);
    }
    if e.disk == t {
      assert s2.chains[Spare := []] == s.chains;
      LandedUnsafe(g, s2, lost, t, e, r, rec);
    }
  }

  lemma DirJoins(g: Geometry, s: State, lost: set<nat>, e: Snap, f: Snap, r: Ref, rec: Record, up: nat)
    requires r.dir in s.tree && Spare in s.chains && s.chains[Spare] == [] && rec.isDir && Storable(rec)
    requires rec.cluster !in s.tree
    requires Stands(g, Noted(Spared(s, [rec.cluster]), r, rec), {r}, lost, f) && f.disk == f.table
    requires InVolume(g, [rec.cluster])
    requires Fits(g, e.image)
    requires DirsAlike(g, e.image, f.image, Noted(Spared(s, [rec.cluster]), r, rec),
      Spared(s, [rec.cluster]).chains, {})
    requires Told(g, e.image, Spared(s, [rec.cluster]).chains, r, rec)
    requires FreshDir(g, f.image, rec.cluster, up)
    ensures Stands(g, WithDir(s, r, rec), {}, lost, f) && Spare in WithDir(s, r, rec).chains
    ensures Carried(g, f.image, Noted(Spared(s, [rec.cluster]), r, rec), f.image, WithDir(s, r, rec), {}, {})
  {
    var mid := Noted(Spared(s, [rec.cluster]), r, rec);
    ToldAlike(g, e.image, f.image, mid, mid.chains, r, rec);
    assert Settling(0);
    Found(g, mid, {r}, lost, f, r);
    assert {r} - {r} == {};
    WithDirIs(s, r, rec);
  }

  lemma MadeCarried(g: Geometry, b: Image, s2: State, e: Image, s3: State, f: Image, s4: State, r: Ref)
    requires Sized(g, b, e) && Sized(g, e, f)
    requires Carried(g, b, s2, e, s3, {r}, {}) && Carried(g, e, s3, f, s3, {}, {}) && Carried(g, f, s3, f, s4, {}, {})
    requires Has(s3, r)
    ensures Carried(g, b, s2, f, s4, {r}, {}) && Has(s4, r) && (ReadsBack(g, f, s4, r) <==> ReadsBack(g, e, s3, r))
  {
    CarriedTrans(g, e, s3, f, s3, f, s4, {}, {});
    NodeCarried(g, e, s3, f, s4, {}, {}, r);
    CarriedMore(g, e, s3, f, s4, {}, {}, {r}, {});
    CarriedTrans(g, b, s2, e, s3, f, s4, {r}, {});
  }

  ghost function Made(s: State, r: Ref, rec: Record, ok: bool): State
    requires r.dir in s.tree
  {
    if ok then WithDir(s, r, rec) else s
  }

  lemma MadeFacts(s: State, d: nat, ch: seq<nat>, r: Ref, rec: Record, ok: bool)
    requires r.dir == d && d in s.tree && (ok ==> rec.cluster !in s.tree && OfDir(d) in Grew(s, d, ch).chains)
    requires Spare in s.chains && OfDir(d) in s.chains
    ensures var s' := Made(Grew(s, d, ch), r, rec, ok);
      && s'.root == s.root && Spare in s'.chains && s'.chains[Spare] == s.chains[Spare]
      && OfDir(d) in s'.chains && s'.chains[OfDir(d)] == ch
      && s'.tree == (if ok then Noted(s, r, rec).tree[rec.cluster := map[]] else s.tree)
      && (ok ==> Has(s', r) && OfDir(rec.cluster) in s'.chains && s'.chains[OfDir(rec.cluster)] == [rec.cluster])
  {
  }

  /** What the moment the entry lands says of all the moments. */
  lemma MadeSafe(g: Geometry, dirs: set<nat>, a: seq<Moment>, b: seq<Moment>, c: seq<Moment>, landed: nat, t: Table,
      u: Table)
    requires SafeLog(g, dirs, {}, a, b) && |b| <= landed < |c|
    requires c[landed].table == u ==> SafeLog(g, dirs, {}, b, c)
    requires c[landed].table == t ==> !CrashSafe(g, dirs, {}, c[landed])
    ensures c[landed].table == u ==> SafeLog(g, dirs, {}, a, c)
    ensures c[landed].table == t ==> !SafeLog(g, dirs, {}, a, c)
  {
    UnsafeAt(g, dirs, a, c, landed);
    if c[landed].table == u {
      SafeLogTrans(g, dirs, {}, a, b, c);
    }
  }

  /** Where a new directory goes is known beforehand: its entries to the first free run, itself to the next free
      cluster. */
  ghost predicate Foretold(e: Entries, t: Table, hint: nat, node: Node) {
    && node.record.slots <= node.at + 1 && GoesTo(e, node.record.name, node.at + 1 - node.record.slots)
    && NextFree(t, hint, node.record.cluster)
  }

  /** `fat_create` of a directory. Its entry is written before the table is flushed: leaving that entry out of
      account every moment is safe; `landed`, the moment it appears, is safe if the table on the device shows the
      new cluster, and not if the table there is still the one from before the call. */
  method MakeDir(fat: Fat, root: nat, d: nat, name: seq<Byte>, stamp: Stamp, ghost s: State, ghost lost: set<nat>)
    returns (ok: bool, node: Node, ghost long: bool, ghost grew: bool, ghost landed: nat, ghost s': State)
    requires Ready(fat, s, {}, lost) && s.chains[Spare] == [] && d in s.tree && d < WORD && root == s.root
    requires CName(name)
    modifies fat, fat.dev
    ensures Ready(fat, s', {}, lost) && s'.root == s.root && s'.chains[Spare] == []
    ensures old(fat.Exact()) ==> fat.Exact()
    ensures OfDir(d) in s.chains && OfDir(d) in s'.chains && (grew <==> s'.chains[OfDir(d)] != s.chains[OfDir(d)])
    ensures ok ==> !fat.dev.dirty
    ensures HasRoom(DirEntries(fat.dev.g, old(fat.dev.sectors), s.chains, d), name) ==> !grew
    ensures FreeCount(fat.dev.fat) + |s'.chains[OfDir(d)]| + (if ok then 1 else 0) ==
      FreeCount(old(fat.dev.fat)) + |s.chains[OfDir(d)]|
    ensures long == Long(DirEntries(fat.dev.g, old(fat.dev.sectors), s.chains, d), name)
    ensures ok ==>
      node.record == Record(name, true, 0, node.record.cluster, SlotsOf(name, long)) && !Has(s, Ref(d, node.at))
    ensures ok ==>
      2 <= node.record.cluster && node.record.cluster !in s.tree
      && s'.tree == Noted(s, Ref(d, node.at), node.record).tree[node.record.cluster := map[]]
    ensures !ok ==> s'.tree == s.tree
    ensures !ok ==>
      FreeCount(fat.dev.fat) == 0
      || NoPlace(DirEntries(fat.dev.g, old(fat.dev.sectors), s.chains, d), name, FreeCount(old(fat.dev.fat)))
    ensures SafeLog(fat.dev.g, s.tree.Keys, if ok then {Ref(d, node.at)} else {}, old(fat.dev.log), fat.dev.log)
    ensures ok ==> |old(fat.dev.log)| <= landed < |fat.dev.log|
    ensures ok && fat.dev.log[landed].table == fat.dev.fat ==>
      SafeLog(fat.dev.g, s.tree.Keys, {}, old(fat.dev.log), fat.dev.log)
    ensures ok && old(!fat.dev.dirty) && HasRoom(DirEntries(fat.dev.g, old(fat.dev.sectors), s.chains, d), name) ==>
      && Foretold(DirEntries(fat.dev.g, old(fat.dev.sectors), s.chains, d), old(fat.dev.fat), old(fat.freeHint), node)
      && (SafeLog(fat.dev.g, s.tree.Keys, {}, old(fat.dev.log), fat.dev.log) <==>
            !OneSector(fat.dev.g, s.chains[OfDir(d)], node.at, node.record.cluster))
    ensures ok && !grew && fat.dev.log[landed].table == old(fat.dev.fat) ==>
      !CrashSafe(fat.dev.g, s.tree.Keys, {}, fat.dev.log[landed])
    ensures Carried(fat.dev.g, old(fat.dev.sectors), s, fat.dev.sectors, s', if ok then {Ref(d, node.at)} else {}, {})
    ensures ok ==>
      Has(s', Ref(d, node.at)) && (ReadsBack(fat.dev.g, fat.dev.sectors, s', Ref(d, node.at)) <==> Kept(name, long))
    ensures ok ==>
      OfDir(node.record.cluster) in s'.chains && s'.chains[OfDir(node.record.cluster)] == [node.record.cluster]
    ensures ok ==> FreshDir(fat.dev.g, fat.dev.sectors, node.record.cluster, if d == root then 0 else d)
  {
    ghost var g, a := fat.dev.g, View(fat, [], false);
    var slot, short, nt, form;
    ghost var ch;
    node := Node(0, Record(name, true, 0, 0, 0));
    landed := 0;
    ok, slot, short, nt, form, ch := ReserveIn(fat, d, name, s, lost);
    long, s', grew := form, Grew(s, d, ch), ch != s.chains[OfDir(d)];
    if !ok {
      return;
    }
    ghost var b, s1 := View(fat, [], false), Grew(s, d, ch);
    ok, node, landed := FoundDir(fat, root, d, name, slot, short, nt, form, stamp, s1, lost);
    ghost var r := Ref(d, node.at);
    ghost var skip := if ok then {r} else {};
    s' := Made(s1, r, node.record, ok);
    MadeFacts(s, d, ch, r, node.record, ok);
    if ok {
      MadeSafe(g, s.tree.Keys, a.log, b.log, fat.dev.log, landed, b.table, fat.dev.fat);
    }
    SkipMore(g, s.tree.Keys, a.log, b.log, skip);
    SafeLogTrans(g, s.tree.Keys, skip, a.log, b.log, fat.dev.log);
    CarriedMore(g, a.image, s, b.image, s1, {}, {}, skip, {});
    CarriedTrans(g, a.image, s, b.image, s1, fat.dev.sectors, s', skip, {});
  }

  // ---------------------------------------------------------------- rename

  /** The record of a node under another name. */
  function Renamed(rec: Record, name: seq<Byte>, long: bool): Record {
    rec.(name := name, slots := SlotsOf(name, long))
  }

  /** The moment the new entry of a renamed node lands: two live entries point at one chain. */
  lemma LandedTwice(g: Geometry, s: State, lost: set<nat>, b: Snap, r: Ref, q: Ref, rec: Record)
    requires q.dir in s.tree && Stands(g, Noted(s, q, rec), {q}, lost, b) && Has(s, r) && r != q && !Has(s, q)
    requires rec.isDir == Rec(s, r).isDir && rec.cluster == Rec(s, r).cluster && Told(g, b.image, s.chains, q, rec)
    ensures 2 <= rec.cluster && b.disk == b.table ==> !CrashSafe(g, s.tree.Keys, {}, Moment(b.image, b.disk))
  {
    if 2 <= rec.cluster && b.disk == b.table {
      var mid := Noted(s, q, rec);
      assert Has(mid, r) && Rec(mid, r) == Rec(s, r);
      NodePoints(g, mid, {q}, b.table, b.image, q, rec);
      NodeTold(g, b.image, mid, {q}, r);
      NodePoints(g, mid, {q}, b.table, b.image, r, Rec(s, r));
      DirOf(g, mid, {q}, r.dir);
      DirOf(g, mid, {q}, q.dir);
      SharedUnsafe(g, s.tree.Keys, Moment(b.image, b.disk), mid.chains, r, q);
    }
  }

  /** The tree once the node at `r` has moved to `q`. */
  ghost function MovedTo(s: State, r: Ref, q: Ref, rec: Record): State
    requires Has(s, r) && q.dir in s.tree && q != r && (Rec(s, r).isDir || OfFile(r) in s.chains)
  {
    var mid := Noted(s, q, rec);
    assert Has(mid, r) && Rec(mid, r) == Rec(s, r);
    Dropped(Handed(mid, r, q), r)
  }

  /** New entries for the node at `r`, then the freeing of the old ones. Leaving the new entry out of account,
      every moment is safe. */
  method Shift(fat: Fat, r: Ref, d: nat, slot: nat, short: seq<Byte>, nt: Byte, long: bool, node: Node, stamp: Stamp,
      slots: nat, ghost s: State, ghost lost: set<nat>)
    returns (ghost landed: nat)
    requires Ready(fat, s, {}, lost) && s.chains[Spare] == [] && d in s.tree && Placed(node, slot, long) && Has(s, r)
    requires slots == Rec(s, r).slots
    requires node.record == Renamed(Rec(s, r), node.record.name, long)
    requires Chosen(DirEntries(fat.dev.g, fat.dev.sectors, s.chains, d), node.record.name, slot, short, nt, long)
    modifies fat.dev, fat`memoFirst, fat`memoIndex, fat`memoCluster, fat`linkSteps
    ensures !Has(s, Ref(d, node.at)) && (Rec(s, r).isDir || OfFile(r) in s.chains)
    ensures Ready(fat, MovedTo(s, r, Ref(d, node.at), node.record), {}, lost) && fat.dev.fat == old(fat.dev.fat)
    ensures old(fat.Exact()) ==> fat.Exact()
    ensures SafeLog(fat.dev.g, s.tree.Keys, Shown(d, node), old(fat.dev.log), fat.dev.log)
    ensures |old(fat.dev.log)| <= landed < |fat.dev.log|
    ensures fat.dev.log[landed].table == fat.dev.fat && 2 <= node.record.cluster ==>
      !CrashSafe(fat.dev.g, s.tree.Keys, {}, fat.dev.log[landed])
    ensures old(!fat.dev.dirty) ==> fat.dev.log[landed].table == fat.dev.fat
    ensures Carried(fat.dev.g, old(fat.dev.sectors), s, fat.dev.sectors, MovedTo(s, r, Ref(d, node.at), node.record),
      {r, Ref(d, node.at)}, {r, Ref(d, node.at)})
    ensures ReadsBack(fat.dev.g, fat.dev.sectors, MovedTo(s, r, Ref(d, node.at), node.record), Ref(d, node.at)) <==>
      Kept(node.record.name, long)
    ensures !Rec(s, r).isDir ==> OwnSame(fat.dev.g, old(fat.dev.sectors), fat.dev.sectors, s.chains[OfFile(r)])
  {
    assert Moored(0);
    ghost var g, a, q, rec := fat.dev.g, View(fat, [], false), Ref(d, node.at), node.record;
    StoreAgain(fat, r, d, slot, short, nt, long, node, stamp, s, lost);
    ghost var b, mid := View(fat, [], false), Noted(s, q, rec);
    landed := |b.log| - 1;
    HandedFacts(s, r, q, rec);
    ghost var s3 := Handed(mid, r, q);
    ghost var was := if rec.cluster < 2 then Twice(s, q, rec) else mid;
    EraseIn(fat, r, slots, s3, lost, was, Shown(d, node));
    ShiftDone(g, s, a, b, View(fat, [], false), r, q, rec, s3, was, Shown(d, node));
  }

  /** The new entries of a node that still has its old ones: both point at its chain, and the new one becomes
      the node's. */
  method StoreAgain(fat: Fat, ghost r: Ref, d: nat, slot: nat, short: seq<Byte>, nt: Byte, long: bool, node: Node,
      stamp: Stamp, ghost s: State, ghost lost: set<nat>)
    requires Ready(fat, s, {}, lost) && s.chains[Spare] == [] && d in s.tree && Placed(node, slot, long) && Has(s, r)
    requires node.record == Renamed(Rec(s, r), node.record.name, long)
    requires Chosen(DirEntries(fat.dev.g, fat.dev.sectors, s.chains, d), node.record.name, slot, short, nt, long)
    modifies fat.dev, fat`memoFirst, fat`memoIndex, fat`memoCluster, fat`linkSteps
    ensures !Has(s, Ref(d, node.at)) && (Rec(s, r).isDir || OfFile(r) in s.chains) && OfDir(r.dir) in s.chains
    ensures Ref(d, node.at) != r
    ensures Has(Noted(s, Ref(d, node.at), node.record), r)
    ensures Rec(Noted(s, Ref(d, node.at), node.record), r) == Rec(s, r)
    ensures Ready(fat, Noted(s, Ref(d, node.at), node.record), {Ref(d, node.at)}, lost)
    ensures Stands(fat.dev.g, Handed(Noted(s, Ref(d, node.at), node.record), r, Ref(d, node.at)), {r}, lost,
      View(fat, [], false))
    ensures fat.dev.fat == old(fat.dev.fat) && (old(fat.Exact()) ==> fat.Exact())
    ensures SafeRun(fat.dev.g, s, Shown(d, node), old(fat.dev.log), fat.dev.log) && |old(fat.dev.log)| < |fat.dev.log|
    ensures node.record.cluster < 2 ==>
      Stands(fat.dev.g, Twice(s, Ref(d, node.at), node.record), {}, lost, View(fat, [], false))
    ensures old(!fat.dev.dirty) ==> !fat.dev.dirty
    ensures 2 <= node.record.cluster && fat.dev.disk == fat.dev.fat ==>
      !CrashSafe(fat.dev.g, s.tree.Keys, {}, Moment(fat.dev.sectors, fat.dev.disk))
    ensures Carried(fat.dev.g, old(fat.dev.sectors), s, fat.dev.sectors, Noted(s, Ref(d, node.at), node.record),
      {Ref(d, node.at)}, {})
    ensures Carried(fat.dev.g, fat.dev.sectors, Noted(s, Ref(d, node.at), node.record), fat.dev.sectors,
      Handed(Noted(s, Ref(d, node.at), node.record), r, Ref(d, node.at)), {}, {r, Ref(d, node.at)})
    ensures ReadsBack(fat.dev.g, fat.dev.sectors, Noted(s, Ref(d, node.at), node.record), Ref(d, node.at)) <==>
      Kept(node.record.name, long)
  {
    assert Moored(0);
    ghost var g, q, rec := fat.dev.g, Ref(d, node.at), node.record;
    NodeOf(g, s, {}, r);
    DirOf(g, s, {}, r.dir);
    StoreIn(fat, d, slot, short, nt, long, node, stamp, s, lost);
    ghost var b := View(fat, [], false);
    HandedFacts(s, r, q, rec);
    LandedTwice(g, s, lost, b, r, q, rec);
    ShiftHand(g, s, lost, b, r, q, rec);
    WalkedClean(g, fat.dev.fat, d, ClusterFor(g, node.at), old(fat.At()), fat.At());
    if rec.cluster < 2 {
      TwiceStands(g, s, lost, b, r, q, rec);
    }
  }

  /** Which entry a rename puts out of account: the new one, if it points anywhere. */
  ghost function Shown(d: nat, node: Node): set<Ref> {
    if node.record.cluster < 2 then {} else {Ref(d, node.at)}
  }

  /** A file without clusters has two entries for a while. */
  ghost function Twice(s: State, q: Ref, rec: Record): State
    requires q.dir in s.tree && Spare in s.chains
  {
    Adopted(Noted(s, q, rec), q)
  }

  /** That does no harm: neither of them points anywhere. */
  lemma TwiceStands(g: Geometry, s: State, lost: set<nat>, b: Snap, r: Ref, q: Ref, rec: Record)
    requires q.dir in s.tree && Has(s, r) && !Has(s, q) && Spare in s.chains && s.chains[Spare] == []
    requires NodeOk(g, s, r) && rec == Rec(s, r).(name := rec.name, slots := rec.slots) && rec.cluster < 2
    requires Stands(g, Noted(s, q, rec), {q}, lost, b) && Told(g, b.image, s.chains, q, rec)
    ensures Stands(g, Twice(s, q, rec), {}, lost, b)
  {
    var mid := Noted(s, q, rec);
    if rec.isDir {
      DirFacts(g, mid, {q}, lost, b, rec.cluster);
    } else {
      ForestOwns(b.table, mid.chains, OfFile(r));
      ChainInVolume(g, b.table, mid.chains[OfFile(r)]);
    }
    Adopt(g, Noted(s, q, rec), {q}, lost, b, q);
    assert {q} - {q} == {};
  }

  lemma HandedFacts(s: State, r: Ref, q: Ref, rec: Record)
    requires q.dir in s.tree && Has(s, r) && !Has(s, q) && Spare in s.chains && OfDir(r.dir) in s.chains
    requires Rec(s, r).isDir || OfFile(r) in s.chains
    ensures q != r && Has(Noted(s, q, rec), r) && Rec(Noted(s, q, rec), r) == Rec(s, r) && Has(Noted(s, q, rec), q)
    ensures Rec(Noted(s, q, rec), q) == rec
    ensures var s3 := Handed(Noted(s, q, rec), r, q);
      && Spare in s3.chains && Has(s3, r) && Rec(s3, r) == Rec(s, r)
      && OfDir(r.dir) in s3.chains && s3.chains[OfDir(r.dir)] == s.chains[OfDir(r.dir)]
  {
  }

  /** Between the two: the new entry becomes the node's. */
  lemma ShiftHand(g: Geometry, s: State, lost: set<nat>, b: Snap, r: Ref, q: Ref, rec: Record)
    requires q.dir in s.tree && Has(s, r) && !Has(s, q) && Spare in s.chains && OfDir(r.dir) in s.chains
    requires Rec(s, r).isDir || OfFile(r) in s.chains
    requires Stands(g, Noted(s, q, rec), {q}, lost, b) && rec == Rec(s, r).(name := rec.name, slots := rec.slots)
    requires Told(g, b.image, s.chains, q, rec) && Has(Noted(s, q, rec), r) && Rec(Noted(s, q, rec), r) == Rec(s, r)
    ensures Stands(g, Handed(Noted(s, q, rec), r, q), {r}, lost, b)
    ensures Carried(g, b.image, Noted(s, q, rec), b.image, Handed(Noted(s, q, rec), r, q), {}, {r, q})
  {
    HandedFacts(s, r, q, rec);
    Hand(g, Noted(s, q, rec), {q}, lost, b, r, q);
    assert {q} - {q} + {r} == {r};
  }

  lemma ShiftDone(g: Geometry, s: State, a: Snap, b: Snap, c: Snap, r: Ref, q: Ref, rec: Record, s3: State, was: State,
      skip: set<Ref>)
    requires Sized(g, a.image, b.image) && Sized(g, b.image, c.image)
    requires q.dir in s.tree && Has(s, r) && !Has(s, q) && q != r && (Rec(s, r).isDir || OfFile(r) in s.chains)
    requires Has(Noted(s, q, rec), r) && Rec(Noted(s, q, rec), r) == Rec(s, r) && s3 == Handed(Noted(s, q, rec), r, q)
    requires Has(s3, r)
    requires Carried(g, a.image, s, b.image, Noted(s, q, rec), {q}, {})
    requires Carried(g, b.image, Noted(s, q, rec), b.image, s3, {}, {r, q})
    requires Carried(g, b.image, s3, c.image, Dropped(s3, r), {r}, {}) && Has(Noted(s, q, rec), q)
    requires SafeRun(g, s, skip, a.log, b.log) && |a.log| < |b.log| && SafeRun(g, was, skip, b.log, c.log)
    requires s.tree.Keys <= was.tree.Keys
    ensures MovedTo(s, r, q, rec) == Dropped(s3, r) && Has(MovedTo(s, r, q, rec), q)
    ensures Carried(g, a.image, s, c.image, MovedTo(s, r, q, rec), {r, q}, {r, q})
    ensures ReadsBack(g, c.image, MovedTo(s, r, q, rec), q) <==> ReadsBack(g, b.image, Noted(s, q, rec), q)
    ensures OfFile(r) in s.chains && !Rec(s, r).isDir ==> OwnSame(g, a.image, c.image, s.chains[OfFile(r)])
    ensures SafeLog(g, s.tree.Keys, skip, a.log, c.log) && |a.log| <= |b.log| - 1 < |c.log|
    ensures c.log[|b.log| - 1] == b.log[|b.log| - 1]
  {
    var mid, s4, all := Noted(s, q, rec), Dropped(s3, r), {r, q};
    NodeCarried(g, b.image, mid, b.image, s3, {}, all, q);
    NodeCarried(g, b.image, s3, c.image, s4, {r}, {}, q);
    if OfFile(r) in s.chains && !Rec(s, r).isDir {
      FileCarried(g, a.image, s, b.image, mid, {q}, {}, r);
      FileCarried(g, b.image, s3, c.image, s4, {r}, {}, q);
      OwnSameTrans(g, a.image, b.image, c.image, s.chains[OfFile(r)]);
    }
    CarriedMore(g, a.image, s, b.image, mid, {q}, {}, all, all);
    CarriedMore(g, b.image, mid, b.image, s3, {}, all, all, all);
    CarriedMore(g, b.image, s3, c.image, s4, {r}, {}, all, all);
    CarriedTrans(g, a.image, s, b.image, mid, b.image, s3, all, all);
    CarriedTrans(g, a.image, s, b.image, s3, c.image, s4, all, all);
    SafeLogOf(g, s, skip, a.log, b.log, s.tree.Keys, skip);
    FilledLog(g, was, s.tree.Keys, skip, a.log, b.log, c.log);
  }

  ghost predicate Ancestral(n: int) { true }

  /** The ".." of directory `v`, if it has one, names `up`; folded behind `Ancestral`. */
  ghost predicate ParentIs(g: Geometry, im: Image, w: Chained, v: nat, up: nat) {
    && g.Valid() && Fits(g, im)
    && forall n: int :: Ancestral(n) ==>
      var e := DirEntries(g, im, w, v);
      1 < |e| && IsParentEntry(e[1]) ==> ClusterOf(e[1]) == up
  }

  /** A moved directory's "..", if it has one, takes the new parent's cluster. */
  method ReparentIn(fat: Fat, v: nat, up: nat, ghost s: State, ghost lost: set<nat>)
    requires Ready(fat, s, {}, lost) && v in s.tree && up < WORD
    modifies fat.dev, fat`memoFirst, fat`memoIndex, fat`memoCluster, fat`linkSteps
    ensures Ready(fat, s, {}, lost) && fat.dev.fat == old(fat.dev.fat) && (old(fat.Exact()) ==> fat.Exact())
    ensures SafeLog(fat.dev.g, s.tree.Keys, {}, old(fat.dev.log), fat.dev.log)
    ensures Carried(fat.dev.g, old(fat.dev.sectors), s, fat.dev.sectors, s, {}, {})
    ensures ParentIs(fat.dev.g, fat.dev.sectors, s.chains, v, up)
  {
    assert Moored(0);
    ghost var g := fat.dev.g;
    DirFacts(g, s, {}, lost, View(fat, [], false), v);
    ghost var cs := s.chains[OfDir(v)];
    ghost var a, e := View(fat, cs, true), EntriesOf(g, fat.dev.sectors, cs);
    ghost var h := Reparent(fat, v, up, cs, e, s.tree[v]);
    ReservedIn(g, s, lost, a, View(fat, cs, true), v, h);
    assert Grew(s, v, cs) == s by {
      assert s.chains[OfDir(v) := cs] == s.chains;
    }
  }

  /** The end of a rename: the ".." of a moved directory, then the flush. */
  method FinishMove(fat: Fat, v: nat, up: nat, isDir: bool, ghost s: State, ghost lost: set<nat>)
    requires Ready(fat, s, {}, lost) && (isDir ==> v in s.tree) && up < WORD
    modifies fat.dev, fat`memoFirst, fat`memoIndex, fat`memoCluster, fat`linkSteps
    ensures Ready(fat, s, {}, lost) && fat.dev.fat == old(fat.dev.fat) && !fat.dev.dirty
    ensures old(fat.Exact()) ==> fat.Exact()
    ensures SafeLog(fat.dev.g, s.tree.Keys, {}, old(fat.dev.log), fat.dev.log)
    ensures Carried(fat.dev.g, old(fat.dev.sectors), s, fat.dev.sectors, s, {}, {})
    ensures isDir ==> ParentIs(fat.dev.g, fat.dev.sectors, s.chains, v, up)
  {
    assert Moored(0);
    ghost var g, a := fat.dev.g, View(fat, [], false);
    SafeLogEmpty(g, s.tree.Keys, {}, a.log);
    CarriedRefl(g, a.image, s, {}, {});
    if isDir {
      ReparentIn(fat, v, up, s, lost);
    }
    ghost var b := View(fat, [], false);
    FlushIn(fat, s, {}, lost);
    SafeLogOf(g, s, {}, b.log, fat.dev.log, s.tree.Keys, {});
    SafeLogTrans(g, s.tree.Keys, {}, a.log, b.log, fat.dev.log);
    if isDir {
      ParentStays(g, b.image, fat.dev.sectors, s, v, up);
    }
    CarriedTrans(g, a.image, s, b.image, s, fat.dev.sectors, s, {}, {});
  }

  lemma ParentStays(g: Geometry, a: Image, b: Image, s: State, v: nat, up: nat)
    requires ParentIs(g, a, s.chains, v, up) && DirsAlike(g, a, b, s, s.chains, {}) && v in s.tree
    ensures ParentIs(g, b, s.chains, v, up)
  {
    AlikeAt(g, a, b, s, s.chains, {}, v);
  }

  /** `fat_rename`, once nothing else in the new directory has the name. The chain is not touched. Leaving the new
      entry out of account every moment is safe; at `landed`, if the table on the device is up to date, both entries
      point at the chain, and the moment is not safe. */
  method MoveNode(fat: Fat, root: nat, r: Ref, rec: Record, d: nat, name: seq<Byte>, stamp: Stamp, ghost s: State,
      ghost lost: set<nat>)
    returns (ok: bool, node: Node, ghost long: bool, ghost landed: nat, ghost s': State)
    requires Ready(fat, s, {}, lost) && s.chains[Spare] == [] && Has(s, r) && rec == Rec(s, r) && d in s.tree
    requires d < WORD && root == s.root && CName(name)
    modifies fat, fat.dev
    ensures Ready(fat, s', {}, lost) && s'.root == s.root && s'.chains[Spare] == []
    ensures old(fat.Exact()) ==> fat.Exact()
    ensures long == Long(DirEntries(fat.dev.g, old(fat.dev.sectors), s.chains, d), name)
    ensures !ok ==>
      s'.tree == s.tree
      && NoPlace(DirEntries(fat.dev.g, old(fat.dev.sectors), s.chains, d), name, FreeCount(old(fat.dev.fat)))
    ensures ok ==>
      node.record == Renamed(rec, name, long) && !Has(s, Ref(d, node.at))
      && s'.tree == Dropped(Noted(s, Ref(d, node.at), node.record), r).tree
    ensures SafeLog(fat.dev.g, s.tree.Keys, if ok && 2 <= rec.cluster then {Ref(d, node.at)} else {}, old(fat.dev.log),
      fat.dev.log)
    ensures ok ==> |old(fat.dev.log)| <= landed < |fat.dev.log| && !fat.dev.dirty
    ensures ok && old(!fat.dev.dirty) && HasRoom(DirEntries(fat.dev.g, old(fat.dev.sectors), s.chains, d), name) ==>
      (SafeLog(fat.dev.g, s.tree.Keys, {}, old(fat.dev.log), fat.dev.log) <==> rec.cluster < 2)
    ensures ok && fat.dev.log[landed].table == fat.dev.fat && 2 <= rec.cluster ==>
      !CrashSafe(fat.dev.g, s.tree.Keys, {}, fat.dev.log[landed])
    ensures var but := if ok then {r, Ref(d, node.at)} else {};
      Carried(fat.dev.g, old(fat.dev.sectors), s, fat.dev.sectors, s', but, but)
    ensures ok ==>
      Has(s', Ref(d, node.at)) && !Has(s', r)
      && (ReadsBack(fat.dev.g, fat.dev.sectors, s', Ref(d, node.at)) <==> Kept(name, long))
    ensures ok && !rec.isDir ==>
      BytesOf(fat.dev.g, fat.dev.sectors, s', Ref(d, node.at)) == BytesOf(fat.dev.g, old(fat.dev.sectors), s, r)
    ensures ok && rec.isDir ==> ParentIs(fat.dev.g, fat.dev.sectors, s'.chains, rec.cluster, if d == root then 0 else d)
  {
    assert Moored(0);
    ghost var g, a := fat.dev.g, View(fat, [], false);
    var slot, short, nt, form;
    ghost var ch;
    node, landed := Node(0, rec), 0;
    ok, slot, short, nt, form, ch := ReserveIn(fat, d, name, s, lost);
    long := form;
    s' := Grew(s, d, ch);
    if !ok {
      return;
    }
    ghost var b, s1 := View(fat, [], false), Grew(s, d, ch);
    FewSlots(name, form);
    NodeOf(g, s, {}, r);
    GrewSame(s, d, ch, r);
    node := Node(slot + SlotsOf(name, form) - 1, Renamed(rec, name, form));
    landed := Relocate(fat, root, r, rec, d, slot, short, nt, form, node, stamp, s1, lost);
    ghost var q := Ref(d, node.at);
    s' := MovedTo(s1, r, q, node.record);
    MoveDone(g, s, a, b, View(fat, [], false), r, q, d, ch, s', rec.isDir, Shown(d, node));
    UnsafeAt(g, s.tree.Keys, a.log, fat.dev.log, landed);
    MovedBytes(g, s, lost, a, fat.dev.sectors, d, ch, r, q, node.record);
  }

  /** The bytes of a file move with it. */
  lemma MovedBytes(g: Geometry, s: State, lost: set<nat>, a: Snap, b: Image, d: nat, ch: seq<nat>, r: Ref, q: Ref,
      rec: Record)
    requires Stands(g, s, {}, lost, a) && Has(s, r) && q.dir in s.tree && q != r && !Has(s, q)
    requires Rec(s, r).isDir || OfFile(r) in s.chains
    requires Has(Grew(s, d, ch), r) && rec.length == Rec(s, r).length && Fits(g, b) && Spare in s.chains
    requires !Rec(s, r).isDir ==> OwnSame(g, a.image, b, s.chains[OfFile(r)])
    ensures var s2 := MovedTo(Grew(s, d, ch), r, q, rec);
      && Has(s2, q) && !Has(s2, r) && s2.root == s.root && s2.tree == Dropped(Noted(s, q, rec), r).tree
      && Spare in s2.chains && s2.chains[Spare] == s.chains[Spare]
      && (!Rec(s, r).isDir ==> BytesOf(g, b, s2, q) == BytesOf(g, a.image, s, r))
  {
    var s1 := Grew(s, d, ch);
    GrewSame(s, d, ch, r);
    MovedFacts(s1, r, q, rec);
    if !Rec(s, r).isDir {
      FileFacts(g, s, {}, lost, a, r);
      RawFrame(g, a.image, b, s.chains[OfFile(r)]);
    }
  }

  lemma MoveDone(g: Geometry, s: State, a: Snap, b: Snap, c: Snap, r: Ref, q: Ref, d: nat, ch: seq<nat>, s2: State,
      isDir: bool, skip: set<Ref>)
    requires Sized(g, a.image, b.image) && Sized(g, b.image, c.image)
    requires Carried(g, a.image, s, b.image, Grew(s, d, ch), {}, {})
    requires Carried(g, b.image, Grew(s, d, ch), c.image, s2, {r, q}, {r, q})
    requires SafeLog(g, s.tree.Keys, {}, a.log, b.log) && SafeLog(g, s.tree.Keys, skip, b.log, c.log)
    requires !isDir ==> OfFile(r) in s.chains && OwnSame(g, b.image, c.image, s.chains[OfFile(r)])
    ensures Carried(g, a.image, s, c.image, s2, {r, q}, {r, q}) && SafeLog(g, s.tree.Keys, skip, a.log, c.log)
    ensures !isDir ==> OwnSame(g, a.image, c.image, s.chains[OfFile(r)])
  {
    var s1 := Grew(s, d, ch);
    FileCarried(g, a.image, s, b.image, s1, {}, {}, r);
    if !isDir {
      OwnSameTrans(g, a.image, b.image, c.image, s.chains[OfFile(r)]);
    }
    CarriedMore(g, a.image, s, b.image, s1, {}, {}, {r, q}, {r, q});
    CarriedTrans(g, a.image, s, b.image, s1, c.image, s2, {r, q}, {r, q});
    SkipMore(g, s.tree.Keys, a.log, b.log, skip);
    SafeLogTrans(g, s.tree.Keys, skip, a.log, b.log, c.log);
  }

  lemma GrewSame(s: State, d: nat, ch: seq<nat>, r: Ref)
    requires Has(s, r)
    ensures Has(Grew(s, d, ch), r) && Rec(Grew(s, d, ch), r) == Rec(s, r)
    ensures OfFile(r) in Grew(s, d, ch).chains <==> OfFile(r) in s.chains
    ensures OfFile(r) in s.chains ==> Grew(s, d, ch).chains[OfFile(r)] == s.chains[OfFile(r)]
  {
  }

  /** `fat_rename` once room was found. */
  method Relocate(fat: Fat, root: nat, r: Ref, rec: Record, d: nat, slot: nat, short: seq<Byte>, nt: Byte, long: bool,
      node: Node, stamp: Stamp, ghost s: State, ghost lost: set<nat>)
    returns (ghost landed: nat)
    requires Ready(fat, s, {}, lost) && s.chains[Spare] == [] && d in s.tree && d < WORD && root == s.root
    requires Placed(node, slot, long) && Has(s, r) && rec == Rec(s, r)
    requires node.record == Renamed(rec, node.record.name, long)
    requires Chosen(DirEntries(fat.dev.g, fat.dev.sectors, s.chains, d), node.record.name, slot, short, nt, long)
    modifies fat.dev, fat`memoFirst, fat`memoIndex, fat`memoCluster, fat`linkSteps
    ensures !Has(s, Ref(d, node.at)) && (rec.isDir || OfFile(r) in s.chains)
    ensures Ready(fat, MovedTo(s, r, Ref(d, node.at), node.record), {}, lost) && fat.dev.fat == old(fat.dev.fat)
    ensures old(fat.Exact()) ==> fat.Exact()
    ensures SafeLog(fat.dev.g, s.tree.Keys, Shown(d, node), old(fat.dev.log), fat.dev.log)
    ensures |old(fat.dev.log)| <= landed < |fat.dev.log|
    ensures fat.dev.log[landed].table == fat.dev.fat && 2 <= rec.cluster ==>
      !CrashSafe(fat.dev.g, s.tree.Keys, {}, fat.dev.log[landed])
    ensures !fat.dev.dirty && (old(!fat.dev.dirty) ==> fat.dev.log[landed].table == fat.dev.fat)
    ensures Carried(fat.dev.g, old(fat.dev.sectors), s, fat.dev.sectors, MovedTo(s, r, Ref(d, node.at), node.record),
      {r, Ref(d, node.at)}, {r, Ref(d, node.at)})
    ensures ReadsBack(fat.dev.g, fat.dev.sectors, MovedTo(s, r, Ref(d, node.at), node.record), Ref(d, node.at)) <==>
      Kept(node.record.name, long)
    ensures !rec.isDir ==> OwnSame(fat.dev.g, old(fat.dev.sectors), fat.dev.sectors, s.chains[OfFile(r)])
    ensures rec.isDir ==>
      ParentIs(fat.dev.g, fat.dev.sectors, MovedTo(s, r, Ref(d, node.at), node.record).chains, rec.cluster,
        if d == root then 0 else d)
  {
    assert Moored(0);
    ghost var g, a, q := fat.dev.g, View(fat, [], false), Ref(d, node.at);
    NodeOf(g, s, {}, r);
    landed := Shift(fat, r, d, slot, short, nt, long, node, stamp, rec.slots, s, lost);
    ghost var b, s2 := View(fat, [], false), MovedTo(s, r, q, node.record);
    MovedFacts(s, r, q, node.record);
    FinishMove(fat, rec.cluster, if d == root then 0 else d, rec.isDir, s2, lost);
    RelocateDone(g, s, a, b, View(fat, [], false), r, q, s2, rec.isDir, Shown(d, node));
  }

  lemma MovedFacts(s: State, r: Ref, q: Ref, rec: Record)
    requires Has(s, r) && q.dir in s.tree && q != r && (Rec(s, r).isDir || OfFile(r) in s.chains)
    ensures var s2 := MovedTo(s, r, q, rec);
      && s2.tree.Keys == s.tree.Keys && Has(s2, q) && Rec(s2, q) == rec
      && (!Rec(s, r).isDir ==> OfFile(q) in s2.chains && s2.chains[OfFile(q)] == s.chains[OfFile(r)])
  {
  }

  lemma RelocateDone(g: Geometry, s: State, a: Snap, b: Snap, c: Snap, r: Ref, q: Ref, s2: State, isDir: bool,
      skip: set<Ref>)
    requires Sized(g, a.image, b.image) && Sized(g, b.image, c.image)
    requires Has(s2, q) && s2.tree.Keys == s.tree.Keys && q != r
    requires Carried(g, a.image, s, b.image, s2, {r, q}, {r, q}) && Carried(g, b.image, s2, c.image, s2, {}, {})
    requires SafeLog(g, s.tree.Keys, skip, a.log, b.log) && SafeLog(g, s.tree.Keys, {}, b.log, c.log)
    requires !isDir ==>
      OfFile(r) in s.chains && OfFile(q) in s2.chains && s2.chains[OfFile(q)] == s.chains[OfFile(r)]
      && OwnSame(g, a.image, b.image, s.chains[OfFile(r)])
    ensures Carried(g, a.image, s, c.image, s2, {r, q}, {r, q})
    ensures ReadsBack(g, c.image, s2, q) <==> ReadsBack(g, b.image, s2, q)
    ensures SafeLog(g, s.tree.Keys, skip, a.log, c.log)
    ensures !isDir ==> OwnSame(g, a.image, c.image, s.chains[OfFile(r)])
  {
    NodeCarried(g, b.image, s2, c.image, s2, {}, {}, q);
    FileCarried(g, b.image, s2, c.image, s2, {}, {}, q);
    if !isDir {
      OwnSameTrans(g, a.image, b.image, c.image, s.chains[OfFile(r)]);
    }
    CarriedMore(g, b.image, s2, c.image, s2, {}, {}, {r, q}, {r, q});
    CarriedTrans(g, a.image, s, b.image, s2, c.image, s2, {r, q}, {r, q});
    SkipMore(g, s.tree.Keys, b.log, c.log, skip);
    SafeLogTrans(g, s.tree.Keys, skip, a.log, b.log, c.log);
  }
}
